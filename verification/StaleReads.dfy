/** How the cache, which nothing invalidates, keeps a Clotho from being finalised. */
module StaleReads {
  import opened Events
  import opened DagSpec
  import opened Sets
  import opened FinalitySpec
  import opened Cache
  import opened FinalityCache
  import opened Finality
  import opened FinalityLimits
  import opened Samples

  /** An event that no turn lists as a Clotho stays as it is. */
  lemma UnlistedStays(d: DagState, turns: seq<Turn>, c: EventID)
    requires forall t :: t in turns ==> c !in t.clothos
    ensures c in d.events ==> Outcome(d, turns).events[c] == d.events[c]
  {
    FirstReadySound(d, turns, c);
  }

  /** Round r was not read before turn i if no earlier turn is for r or for the round two below. */
  lemma NotReadBefore(turns: seq<Turn>, i: nat, r: nat)
    requires i <= |turns| && forall j :: 0 <= j < i ==> turns[j].round != r && turns[j].round + FINALITY_DELAY != r
    ensures Untouched(ReadBy(turns[..i]), r)
  {
    forall t | t in turns[..i]
      ensures t.round != r && t.round + FINALITY_DELAY != r
    {
      var j :| 0 <= j < i && turns[j] == t;
    }
  }

  /**
   * A Clotho that is missing from the cached list of its only round stays as it is, as long as nothing can be evicted
   * and the list of that round is not overwritten by a read of its witnesses before its turn comes.
   */
  lemma CachedListHidesClotho(d: DagState, v: View, turns: seq<Turn>, c: EventID, r: nat)
    requires |v.tables| < v.capacity && TurnsFrom(v, turns)
    requires Lists(RoundsOf(turns), d.rounds.Keys)
    requires forall q :: q != r ==> c !in ClothosIn(v.tables, q)
    requires forall q :: c !in SeenClothos(v, q)
    requires forall i, j :: 0 <= i < j < |turns| && turns[j].round == r ==> turns[i].round + FINALITY_DELAY != r
    ensures c in d.events ==> Outcome(d, turns).events[c] == d.events[c]
  {
    forall i | 0 <= i < |turns|
      ensures c !in turns[i].clothos
    {
      assert TurnAt(v, turns, i);
      if turns[i].round == r {
        forall j | 0 <= j < i
          ensures turns[j].round != r
        {
          assert RoundsOf(turns)[j] != RoundsOf(turns)[i];
        }
        NotReadBefore(turns, i, r);
      }
    }
    UnlistedStays(d, turns, c);
  }

  /** After a first call with an empty cache the lists cached are the ones of that moment, those of rounds 0 and 1 included. */
  lemma FirstCallCaches(v: View, w: View, turns: seq<Turn>, c: EventID, round: nat)
    requires v.cache == map[] && Step(v, w, ReadBy(turns)) && Cached(w, round)
    requires |v.tables| < v.capacity && round in v.tables && round < FINALITY_DELAY
    requires forall r :: c !in ClothosIn(v.tables, r)
    ensures round in w.cache && w.cache[round].Clothos?
    ensures forall r :: r in w.cache && w.cache[r].Clothos? ==> c !in Elements(w.cache[r].list)
  {
    assert StepAt(v, w, ReadBy(turns), round);
    forall r | r in w.cache && w.cache[r].Clothos?
      ensures c !in Elements(w.cache[r].list)
    {
      assert StepAt(v, w, ReadBy(turns), r);
      ElementsOfListing(w.cache[r].list, ClothosIn(v.tables, r));
    }
  }

  /** With an empty cache the turns read the tables. */
  lemma UnlistedInTurns(v: View, turns: seq<Turn>, c: EventID)
    requires v.cache == map[] && TurnsFrom(v, turns) && forall r :: c !in ClothosIn(v.tables, r)
    ensures forall t :: t in turns ==> c !in t.clothos
  {
    forall i | 0 <= i < |turns|
      ensures c !in turns[i].clothos
    {
      assert TurnAt(v, turns, i);
    }
  }

  /** d with c listed as a Clotho of the round. */
  ghost function Listed(d: DagState, c: EventID, round: nat): DagState
    requires round in d.rounds
  {
    DagState(d.events, d.rounds[round := d.rounds[round].(clothos := d.rounds[round].clothos + {c})])
  }

  /** Listing a Clotho changes its round's list and no other. */
  lemma ListingTables(d: DagState, c: EventID, round: nat)
    requires round in d.rounds
    ensures TablesOf(Listed(d, c, round)) ==
      TablesOf(d)[round := TablesOf(d)[round].(clothos := TablesOf(d)[round].clothos + {c})]
  {
    var now := Listed(d, c, round);
    forall r | r in d.rounds
      ensures FinalitySpec.FamousWitnesses(now, r) == FinalitySpec.FamousWitnesses(d, r)
    {
    }
  }

  /** Listing a new Clotho makes a sound cache stale exactly if the Clothos of its round are cached. */
  lemma ListingMakesStale(d: DagState, cache: Entries, c: EventID, round: nat)
    requires CacheSound(TablesOf(d), cache) && round in d.rounds && c !in d.rounds[round].clothos
    ensures !CacheSound(TablesOf(Listed(d, c, round)), cache) <==> round in cache && cache[round].Clothos?
  {
    var before, after := TablesOf(d), TablesOf(Listed(d, c, round));
    ListingTables(d, c, round);
    CacheStaysSound(before, after, cache);
    forall r | r in cache
      ensures (r in after && Fresh(after, r, cache[r]) == Fresh(before, r, cache[r])) <==> !(r == round && cache[r].Clothos?)
    {
      assert EntrySound(before, r, cache[r]);
      assert c in after[round].clothos && c !in before[round].clothos;
    }
  }

  lemma ListingKeepsStored(d: DagState, c: EventID, round: nat, cache: Entries)
    requires round in d.rounds && c in d.events && TablesStored(d) && CacheStored(d, cache)
    ensures TablesStored(Listed(d, c, round)) && CacheStored(Listed(d, c, round), cache)
  {
    var now := Listed(d, c, round);
    forall r
      ensures TableStored(now, r)
    {
      assert TableStored(d, r);
    }
    forall r | r in cache
      ensures EntryStored(now, r, cache[r])
    {
      assert EntryStored(d, r, cache[r]);
    }
  }

  /** What passed before a call and was not finalised in it is ready once it is listed. */
  lemma ListedIsReady(d: DagState, turns: seq<Turn>, c: EventID, round: nat)
    requires Passes(d, c, round) && d.events[c].atropos == NO_EVENT && round in d.rounds
    requires c in Outcome(d, turns).events && Outcome(d, turns).events[c] == d.events[c]
    ensures Ready(Listed(Outcome(d, turns), c, round), c, round)
  {
    var now := Outcome(d, turns);
    var q := round + FINALITY_DELAY;
    ApplyKeepsTables(d, Chosen(d, turns));
    assert FamousIn(TablesOf(now), q) == FamousIn(TablesOf(d), q);
    ApplyKeepsVoters(d, Chosen(d, turns), c, FamousIn(TablesOf(d), q));
    ListingTables(now, c, round);
  }

  lemma TablesSize(d: DagState)
    ensures |TablesOf(d)| == |d.rounds|
  {
    assert TablesOf(d).Keys == d.rounds.Keys;
    assert |TablesOf(d)| == |TablesOf(d).Keys| && |d.rounds| == |d.rounds.Keys|;
  }

  /** The view in which c is listed for the round and nowhere else, but the cached list of the round lacks it. */
  ghost predicate Hides(v: View, c: EventID, round: nat) {
    |v.tables| < v.capacity && round < FINALITY_DELAY && round in v.cache && v.cache[round].Clothos? &&
    (forall r :: r in v.cache && v.cache[r].Clothos? ==> c !in Elements(v.cache[r].list)) &&
    (forall r :: r != round ==> c !in ClothosIn(v.tables, r))
  }

  /** Listing c in a view whose cached lists lack it hides it. */
  lemma ListingHides(v: View, c: EventID, round: nat, list: set<EventID>)
    requires |v.tables| < v.capacity && round in v.tables && round < FINALITY_DELAY && round in v.cache && v.cache[round].Clothos?
    requires forall r :: c !in ClothosIn(v.tables, r)
    requires forall r :: r in v.cache && v.cache[r].Clothos? ==> c !in Elements(v.cache[r].list)
    ensures Hides(View(v.tables[round := v.tables[round].(clothos := list)], v.capacity, v.cache), c, round)
  {
    var tables := v.tables[round := v.tables[round].(clothos := list)];
    assert tables.Keys == v.tables.Keys;
    assert |tables| == |tables.Keys| && |v.tables| == |v.tables.Keys|;
    forall r | r != round
      ensures c !in ClothosIn(tables, r)
    {
      assert c !in ClothosIn(v.tables, r);
    }
  }

  /** A first call with an empty cache leaves c as it is. */
  lemma FirstCallSkips(d: DagState, v: View, turns: seq<Turn>, c: EventID)
    requires v.tables == TablesOf(d) && v.cache == map[] && TurnsFrom(v, turns) && c in d.events
    requires forall r :: r in d.rounds ==> c !in d.rounds[r].clothos
    ensures c in Outcome(d, turns).events && Outcome(d, turns).events[c] == d.events[c]
  {
    UnlistedInTurns(v, turns, c);
    UnlistedStays(d, turns, c);
  }

  /** After that call the list of the round is cached without c, so c is hidden once it is listed. */
  lemma FirstCallHides(d: DagState, v: View, w: View, turns: seq<Turn>, c: EventID, round: nat)
    requires v.tables == TablesOf(d) && v.cache == map[] && |d.rounds| < v.capacity
    requires w.tables == v.tables && w.capacity == v.capacity
    requires Step(v, w, ReadBy(turns)) && Cached(w, round) && round in d.rounds && round < FINALITY_DELAY
    requires forall r :: r in d.rounds ==> c !in d.rounds[r].clothos
    ensures Hides(View(TablesOf(Listed(Outcome(d, turns), c, round)), w.capacity, w.cache), c, round)
  {
    TablesSize(d);
    FirstCallCaches(v, w, turns, c, round);
    ListingHides(w, c, round, w.tables[round].clothos + {c});
    ApplyKeepsTables(d, Chosen(d, turns));
    ListingTables(Outcome(d, turns), c, round);
  }

  lemma FirstCall(d: DagState, v: View, w: View, turns: seq<Turn>, c: EventID, round: nat)
    requires v.tables == TablesOf(d) && v.cache == map[] && |d.rounds| < v.capacity
    requires TurnsFrom(v, turns) && Step(v, w, ReadBy(turns)) && Cached(w, round)
    requires round in d.rounds && round < FINALITY_DELAY && c in d.events
    requires forall r :: r in d.rounds ==> c !in d.rounds[r].clothos
    ensures var now := Outcome(d, turns);
      now.events.Keys == d.events.Keys && now.events[c] == d.events[c] &&
      Hides(View(TablesOf(Listed(now, c, round)), w.capacity, w.cache), c, round) &&
      (Passes(d, c, round) && d.events[c].atropos == NO_EVENT ==> Ready(Listed(now, c, round), c, round))
  {
    assert w.tables == v.tables && w.capacity == v.capacity by {
      assert StepAt(v, w, ReadBy(turns), round);
    }
    FirstCallSkips(d, v, turns, c);
    FirstCallHides(d, v, w, turns, c, round);
    if Passes(d, c, round) && d.events[c].atropos == NO_EVENT {
      ListedIsReady(d, turns, c, round);
    }
  }

  lemma SecondCallMisses(d: DagState, v: View, turns: seq<Turn>, c: EventID, round: nat)
    requires TurnsFrom(v, turns) && Lists(RoundsOf(turns), d.rounds.Keys) && Hides(v, c, round)
    ensures c in d.events ==> Outcome(d, turns).events[c] == d.events[c]
  {
    forall q
      ensures c !in SeenClothos(v, q)
    {
    }
    CachedListHidesClotho(d, v, turns, c, round);
  }

  const EMPTY_LIST_CACHED: Entries := map[0 := Clothos([])]

  /**
   * Insertion and verdicts produce a state with an event that is ready for round 0, but that every call leaves
   * unfinalised if the empty list is cached for that round, as a call before the verdict leaves it.
   */
  lemma ReadyButMissed() returns (d: DagState)
    ensures Produced(d) && Ready(d, 1, 0) && !CacheSound(TablesOf(d), EMPTY_LIST_CACHED)
    ensures forall turns :: Lists(RoundsOf(turns), d.rounds.Keys) && TurnsFrom(View(TablesOf(d), 1000, EMPTY_LIST_CACHED), turns) ==>
      Outcome(d, turns).events[1].atropos == NO_EVENT
  {
    d := Chain({0});
    var v := View(TablesOf(d), 1000, EMPTY_LIST_CACHED);
    ChainHides(d, v);
    assert !EntrySound(v.tables, 0, v.cache[0]) by {
      assert 1 in Fresh(v.tables, 0, v.cache[0]);
    }
    forall turns | Lists(RoundsOf(turns), d.rounds.Keys) && TurnsFrom(v, turns)
      ensures Outcome(d, turns).events[1].atropos == NO_EVENT
    {
      SecondCallMisses(d, v, turns, 1, 0);
    }
  }

  lemma ChainHides(d: DagState, v: View)
    requires v == View(TablesOf(d), 1000, EMPTY_LIST_CACHED)
    requires forall r: nat :: r in d.rounds <==> r < 4
    requires forall r :: r in d.rounds ==> d.rounds[r].clothos == if r == 0 then {1} else {}
    ensures Hides(v, 1, 0)
  {
    TablesSize(d);
    assert d.rounds.Keys == {0, 1, 2, 3};
    assert |d.rounds| == |d.rounds.Keys| == 4;
  }

  /** The round table gets one more Clotho from outside the engine. */
  method ListClotho(engine: FinalityEngine, c: EventID, round: nat)
    requires engine.Valid() && round in engine.dag.Rounds && c in engine.dag.Events
    modifies engine.dag`Rounds
    ensures engine.Valid()
    ensures engine.dag.State() == Listed(old(engine.dag.State()), c, round)
  {
    var dag := engine.dag;
    ListingKeepsStored(dag.State(), c, round, engine.cacheManager.consensusCache);
    var info := dag.Rounds[round];
    dag.Rounds := dag.Rounds[round := info.(clothos := info.clothos + {c})];
  }

  /** The first call, on a fresh engine. */
  method CallBeforeListing(engine: FinalityEngine, c: EventID, round: nat)
    requires engine.Valid() && engine.cacheManager.consensusCache == map[]
    requires |engine.dag.Rounds| < engine.cacheManager.maxCacheSize
    requires round in engine.dag.Rounds && round < FINALITY_DELAY && c in engine.dag.Events
    requires forall r :: r in engine.dag.Rounds ==> c !in engine.dag.Rounds[r].clothos
    modifies engine.dag`Rounds, engine.dag`Data, engine.dag.Events.Values, engine.cacheManager
    ensures engine.Valid() && engine.dag.Data.Keys == old(engine.dag.Data.Keys) && engine.dag.Data[c] == old(engine.dag.Data[c])
    ensures round in engine.dag.Rounds
    ensures Hides(View(TablesOf(Listed(engine.dag.State(), c, round)), engine.cacheManager.maxCacheSize,
      engine.cacheManager.consensusCache), c, round)
    ensures old(Passes(engine.dag.State(), c, round) && engine.dag.Data[c].atropos == NO_EVENT) ==>
      Ready(Listed(engine.dag.State(), c, round), c, round)
  {
    ghost var d, start := engine.dag.State(), engine.CurrentView();
    ghost var turns := engine.FinalizeEvents();
    FirstCall(d, start, engine.CurrentView(), turns, c, round);
  }

  /**
   * FinalizeEvents on a fresh engine, then c is listed as a Clotho of round 0 or 1, then FinalizeEvents again: c is
   * not finalised, however ready it is, because the first call has cached the list of its round without it.
   */
  method LateClothoIsMissed(engine: FinalityEngine, c: EventID, round: nat) returns (ghost listed: DagState)
    requires engine.Valid() && engine.cacheManager.consensusCache == map[]
    requires |engine.dag.Rounds| < engine.cacheManager.maxCacheSize
    requires round in engine.dag.Rounds && round < FINALITY_DELAY && c in engine.dag.Events
    requires forall r :: r in engine.dag.Rounds ==> c !in engine.dag.Rounds[r].clothos
    modifies engine.dag`Rounds, engine.dag`Data, engine.dag.Events.Values, engine.cacheManager
    ensures old(Passes(engine.dag.State(), c, round) && engine.dag.Data[c].atropos == NO_EVENT) ==> Ready(listed, c, round)
    ensures engine.Valid() && c in engine.dag.Data && engine.dag.Data[c] == old(engine.dag.Data[c])
  {
    CallBeforeListing(engine, c, round);
    ListClotho(engine, c, round);
    listed := engine.dag.State();
    ghost var start := engine.CurrentView();
    ghost var turns := engine.FinalizeEvents();
    SecondCallMisses(listed, start, turns, c, round);
  }
}
