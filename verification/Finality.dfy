/** The finality engine of src/finality.go, with its read cache, proved against FinalitySpec and FinalityCache. */
module Finality {
  import opened Events
  import opened DagSpec
  import opened Dag
  import opened Median
  import opened Sets
  import opened FinalitySpec
  import opened Cache
  import opened FinalityCache

  class FinalityEngine {
    const dag: DAG
    const cacheManager: CacheManager

    constructor (dag: DAG)
      ensures this.dag == dag && fresh(cacheManager) && cacheManager.consensusCache == map[]
      ensures cacheManager.maxCacheSize == 1000
    {
      this.dag := dag;
      cacheManager := new CacheManager(1000);
    }

    /** What reads depend on. */
    ghost function CurrentView(): View
      reads dag, cacheManager
    {
      View(TablesOf(dag.State()), cacheManager.maxCacheSize, cacheManager.consensusCache)
    }

    /** The tables and the cache list stored events. Nothing here says that the cache is up to date. */
    ghost predicate Valid()
      reads dag, dag.Events.Values, cacheManager
    {
      dag.Valid() && NO_EVENT !in dag.Data && TablesStored(dag.State()) && CacheStored(dag.State(), cacheManager.consensusCache)
    }

    /** No cached entry is stale. */
    ghost predicate UpToDate()
      reads dag, cacheManager
    {
      CacheSound(TablesOf(dag.State()), cacheManager.consensusCache)
    }

    /** Caches what was just read. */
    method Remember(round: nat, entry: CacheEntry)
      requires Valid() && EntrySound(TablesOf(dag.State()), round, entry)
      modifies cacheManager
      ensures Valid()
      ensures Step(old(CurrentView()), CurrentView(), {ReadOf(round, entry)})
      ensures round in cacheManager.consensusCache && cacheManager.consensusCache[round] == entry
    {
      ghost var before := CurrentView();
      cacheManager.SetConsensusCache(round, entry);
      StoreIsStep(dag.State(), before, CurrentView(), round);
    }

    method GetClothos(round: nat) returns (clothos: seq<EventID>)
      requires Valid()
      modifies cacheManager
      ensures Valid()
      ensures Lists(clothos, SeenClothos(old(CurrentView()), round))
      ensures var cache := old(cacheManager.consensusCache);
        if round in cache && cache[round].Clothos? then clothos == cache[round].list
        else Lists(clothos, if round in dag.Rounds then dag.Rounds[round].clothos else {})
      ensures Step(old(CurrentView()), CurrentView(), {ClothosOf(round)})
      ensures round in dag.Rounds ==>
        round in cacheManager.consensusCache && cacheManager.consensusCache[round] == Clothos(clothos)
    {
      StepIdle(CurrentView(), {ClothosOf(round)});
      assert round in cacheManager.consensusCache ==> EntryStored(dag.State(), round, cacheManager.consensusCache[round]);
      var cached := cacheManager.GetConsensusCache(round);
      if cached.Some? && cached.value.Clothos? {
        return cached.value.list;
      }
      if round !in dag.Rounds {
        return [];
      }
      clothos := ListSet(dag.Rounds[round].clothos);
      Remember(round, Clothos(clothos));
    }

    method GetFamousWitnesses(round: nat) returns (witnesses: seq<EventID>)
      requires Valid()
      modifies cacheManager
      ensures Valid()
      ensures Lists(witnesses, SeenWitnesses(old(CurrentView()), round))
      ensures var cache := old(cacheManager.consensusCache);
        if round in cache && cache[round].FamousWitnesses? then witnesses == cache[round].list
        else Lists(witnesses, set w | round in dag.Rounds && w in dag.Rounds[round].witnesses && w in dag.Data && dag.Data[w].isFamous == Some(true))
      ensures Step(old(CurrentView()), CurrentView(), {WitnessesOf(round)})
      ensures SeenWitnesses(CurrentView(), round) == SeenWitnesses(old(CurrentView()), round)
    {
      assert FinalitySpec.FamousWitnesses(dag.State(), round) ==
        set w | round in dag.Rounds && w in dag.Rounds[round].witnesses && w in dag.Data && dag.Data[w].isFamous == Some(true);
      StepIdle(CurrentView(), {WitnessesOf(round)});
      assert round in cacheManager.consensusCache ==> EntryStored(dag.State(), round, cacheManager.consensusCache[round]);
      var cached := cacheManager.GetConsensusCache(round);
      if cached.Some? && cached.value.FamousWitnesses? {
        return cached.value.list;
      }
      if round !in dag.Rounds {
        return [];
      }
      witnesses := CollectFamous(round);
      Remember(round, FamousWitnesses(witnesses));
      ElementsOfListing(witnesses, FinalitySpec.FamousWitnesses(dag.State(), round));
    }

    /** The uncached read: filters the witness table in iteration order. */
    method CollectFamous(round: nat) returns (witnesses: seq<EventID>)
      requires dag.Valid() && TablesStored(dag.State()) && round in dag.Rounds
      ensures Lists(witnesses, FinalitySpec.FamousWitnesses(dag.State(), round))
    {
      assert TableStored(dag.State(), round);
      witnesses := [];
      var rest := dag.Rounds[round].witnesses;
      ghost var famous := FinalitySpec.FamousWitnesses(dag.State(), round);
      while rest != {}
        invariant rest <= dag.Rounds[round].witnesses
        invariant Lists(witnesses, famous - rest)
        decreases rest
      {
        var w :| w in rest;
        assert dag.Mirrored(w);
        if dag.Events[w].isFamous == Some(true) {
          ListsSnoc(witnesses, famous - rest, w);
          witnesses := witnesses + [w];
          assert famous - (rest - {w}) == famous - rest + {w};
        } else {
          assert famous - (rest - {w}) == famous - rest;
        }
        rest := rest - {w};
      }
      assert famous - rest == famous;
    }

    /** The counting loop of the finality test, collecting the voters' Lamport values on the way. */
    method CollectVoters(c: EventID, witnesses: seq<EventID>) returns (count: nat, times: seq<uint64>)
      requires dag.Valid() && Lists(witnesses, Elements(witnesses)) && Elements(witnesses) <= dag.Data.Keys
      ensures count == |VotersAmong(dag.State(), c, Elements(witnesses))|
      ensures multiset(times) == LamportsOf(dag.Data, VotersAmong(dag.State(), c, Elements(witnesses)))
    {
      ghost var d := dag.State();
      count, times := 0, [];
      assert VotersAmong(d, c, Elements(witnesses[..0])) == {};
      for i := 0 to |witnesses|
        invariant count == |VotersAmong(d, c, Elements(witnesses[..i]))|
        invariant multiset(times) == LamportsOf(d.events, VotersAmong(d, c, Elements(witnesses[..i])))
      {
        var w := witnesses[i];
        assert w in Elements(witnesses) && w !in witnesses[..i];
        assert dag.Mirrored(w);
        VotersAdd(d, c, Elements(witnesses[..i]), w);
        ElementsSnoc(witnesses, i);
        var sees := dag.IsAncestor(c, w);
        if sees {
          count, times := count + 1, times + [dag.Events[w].lamport];
        }
      }
      assert witnesses[..|witnesses|] == witnesses;
    }

    /** Reads the famous witnesses of a round and counts those that descend from the event. */
    method ReadVoters(c: EventID, round: nat) returns (total: nat, count: nat, times: seq<uint64>)
      requires Valid()
      modifies cacheManager
      ensures Valid()
      ensures Step(old(CurrentView()), CurrentView(), {WitnessesOf(round)})
      ensures SeenWitnesses(CurrentView(), round) == SeenWitnesses(old(CurrentView()), round)
      ensures var seen := SeenWitnesses(old(CurrentView()), round);
        total == |seen| && count == |VotersAmong(dag.State(), c, seen)| &&
        multiset(times) == LamportsOf(dag.Data, VotersAmong(dag.State(), c, seen))
    {
      ghost var seen := SeenWitnesses(CurrentView(), round);
      SeenIsStored(dag.State(), CurrentView(), round);
      var witnesses := GetFamousWitnesses(round);
      ListsSize(witnesses, seen);
      ElementsOfListing(witnesses, seen);
      total := |witnesses|;
      count, times := CollectVoters(c, witnesses);
    }

    /** The finality test against the famous witnesses as the cache shows them. */
    method CanBecomeAtropos(clotho: EventID, round: nat) returns (ok: bool)
      requires Valid() && clotho in dag.Events
      modifies cacheManager
      ensures Valid()
      ensures ok <==> PassesAmong(dag.State(), clotho, SeenWitnesses(old(CurrentView()), round + FINALITY_DELAY))
      ensures old(UpToDate()) ==> (ok <==> Passes(dag.State(), clotho, round))
      ensures var famous := SeenWitnesses(old(CurrentView()), round + 2);
        ok <==> (dag.Data[clotho].isClotho && dag.Data[clotho].isFamous == Some(true) && famous != {} &&
          3 * (|VotersAmong(dag.State(), clotho, famous)| + 1) > 2 * |famous|)
      ensures Step(old(CurrentView()), CurrentView(), {WitnessesOf(round + FINALITY_DELAY)})
      ensures SeenWitnesses(CurrentView(), round + FINALITY_DELAY) == SeenWitnesses(old(CurrentView()), round + FINALITY_DELAY)
    {
      if UpToDate() {
        SoundSeesActual(CurrentView(), round + FINALITY_DELAY);
      }
      StepIdle(CurrentView(), {WitnessesOf(round + FINALITY_DELAY)});
      assert dag.Mirrored(clotho);
      var e := dag.Events[clotho];
      if !e.isClotho {
        return false;
      }
      if e.isFamous != Some(true) {
        return false;
      }
      var total, seeCount, _ := ReadVoters(clotho, round + FINALITY_DELAY);
      RequiredMeans(total, seeCount);
      if total == 0 {
        return false;
      }
      return seeCount >= Required(total);
    }

    /** Finalises a ready Clotho. Its AtroposTime ends up as the wall clock, an arbitrary value here. */
    method ConvertToAtropos(clotho: EventID, round: nat, ghost t: Turn)
      requires Valid() && ReadyAt(dag.State(), clotho, t) && t.round == round && Shows(CurrentView(), t)
      modifies dag`Rounds, dag`Data, dag.Events.Values, cacheManager
      ensures Valid()
      ensures clotho in old(dag.Data) && round + FINALITY_DELAY in old(dag.Rounds)
      ensures dag.State() == Convert(old(dag.State()), clotho, t)
      ensures Step(old(CurrentView()), CurrentView(), {WitnessesOf(round + FINALITY_DELAY)}) && Shows(CurrentView(), t)
    {
      ghost var d := dag.State();
      SeenIsStored(d, CurrentView(), round + FINALITY_DELAY);
      var median := CalculateAtroposTime(clotho, round + FINALITY_DELAY);
      ConvertKeepsTables(d, clotho, t);
      WriteKeepsStored(d, clotho, round + FINALITY_DELAY, median, cacheManager.consensusCache);
      WriteFinal(clotho, round + FINALITY_DELAY, median);
    }

    /** The median Lamport value of the famous witnesses, as the cache shows them, that see the Clotho. */
    method CalculateAtroposTime(clotho: EventID, round: nat) returns (median: uint64)
      requires Valid()
      modifies cacheManager
      ensures Valid()
      ensures median == TimeAmong(dag.State(), clotho, SeenWitnesses(old(CurrentView()), round))
      ensures Step(old(CurrentView()), CurrentView(), {WitnessesOf(round)})
      ensures SeenWitnesses(CurrentView(), round) == SeenWitnesses(old(CurrentView()), round)
    {
      var _, _, times := ReadVoters(clotho, round);
      median := MedianValue(times);
    }

    /** The writes of convertToAtropos. */
    method WriteFinal(clotho: EventID, received: nat, median: uint64)
      requires dag.Valid() && clotho in dag.Events && received in dag.Rounds
      modifies dag`Rounds, dag`Data, dag.Events[clotho]
      ensures dag.Valid()
      ensures dag.State() == Written(old(dag.State()), clotho, received, median)
    {
      SetFinalFields(clotho, received, median);
      AddAtropos(clotho, received);
    }

    method SetFinalFields(clotho: EventID, received: nat, median: uint64)
      requires dag.Valid() && clotho in dag.Events
      modifies dag`Data, dag.Events[clotho]
      ensures dag.Valid()
      ensures dag.Data == old(dag.Data)[clotho :=
        old(dag.Data)[clotho].(atropos := clotho, roundReceived := received, medianTime := median)]
    {
      var e := dag.Events[clotho];
      assert dag.Mirrored(clotho);
      e.atropos := clotho;
      e.roundReceived := received;
      e.medianTime := median;
      e.atroposTime := *;
      forall id | id in dag.Events
        ensures dag.MirroredBut(id, e)
      {
        assert old(dag.Mirrored(id));
      }
      dag.Mirror(e);
    }

    /** ensureRound and the write to the Atropos table. */
    method AddAtropos(clotho: EventID, received: nat)
      modifies dag`Rounds
      ensures var rounds := WithRound(old(dag.Rounds), received);
        dag.Rounds == rounds[received := rounds[received].(atropos := rounds[received].atropos + {clotho})]
    {
      dag.EnsureRound(received);
      var info := dag.Rounds[received];
      dag.Rounds := dag.Rounds[received := info.(atropos := info.atropos + {clotho})];
    }

    /** The loop body of the finalisation of one round: a Clotho that is not finalised is tested, and finalised if it passes. */
    method FinalizeOne(c: EventID, round: nat, ghost t: Turn) returns (passes: bool)
      requires Valid() && c in dag.Events && c in t.clothos && t.round == round && Shows(CurrentView(), t)
      modifies dag`Rounds, dag`Data, dag.Events.Values, cacheManager
      ensures Valid()
      ensures passes <==> ReadyAt(old(dag.State()), c, t)
      ensures passes ==> c in old(dag.Data) && round + FINALITY_DELAY in old(dag.Rounds)
      ensures dag.State() == if passes then Convert(old(dag.State()), c, t) else old(dag.State())
      ensures Step(old(CurrentView()), CurrentView(), {WitnessesOf(round + FINALITY_DELAY)}) && Shows(CurrentView(), t)
    {
      assert dag.Mirrored(c);
      ghost var q, start := round + FINALITY_DELAY, CurrentView();
      if dag.Events[c].atropos != NO_EVENT {
        StepIdle(start, {WitnessesOf(q)});
        return false;
      }
      passes := CanBecomeAtropos(c, round);
      ghost var mid := CurrentView();
      if passes {
        ConvertToAtropos(c, round, t);
        StepTwice(start, mid, CurrentView(), WitnessesOf(q));
      }
    }

    /** One turn of the loop over the Clothos of a round, in terms of the events finalised so far. */
    method FinalizeNext(c: EventID, round: nat, ghost t: Turn, ghost d: DagState, ghost before: map<EventID, Turn>,
        ghost sofar: map<EventID, Turn>, ghost handled: set<EventID>, ghost start: View)
      returns (ghost after: map<EventID, Turn>)
      requires Valid() && c in dag.Events && c in t.clothos && t.round == round && NO_EVENT !in d.events
      requires Reached(d, before, sofar, t, handled, dag.State())
      requires Step(start, CurrentView(), {WitnessesOf(round + FINALITY_DELAY)}) && Shows(CurrentView(), t)
      modifies dag`Rounds, dag`Data, dag.Events.Values, cacheManager
      ensures Valid()
      ensures Reached(d, before, after, t, handled + {c}, dag.State())
      ensures Step(start, CurrentView(), {WitnessesOf(round + FINALITY_DELAY)}) && Shows(CurrentView(), t)
    {
      ghost var now, mid := dag.State(), CurrentView();
      var passes := FinalizeOne(c, round, t);
      StepTwice(start, mid, CurrentView(), WitnessesOf(round + FINALITY_DELAY));
      after := OneMore(d, before, sofar, t, handled, c, now, dag.State(), passes);
    }

    /**
     * Finalises the Clothos of one round. d is the state before the whole call; before and after name the events
     * finalised so far, with their turns.
     */
    method FinalizeClothosForRound(round: nat, clothos: seq<EventID>, ghost t: Turn, ghost d: DagState, ghost before: map<EventID, Turn>)
      returns (ghost after: map<EventID, Turn>)
      requires Valid() && t.round == round && Lists(clothos, t.clothos) && t.clothos <= dag.Events.Keys && Shows(CurrentView(), t)
      requires Standing(d, before, dag.State()) && NO_EVENT !in d.events
      modifies dag`Rounds, dag`Data, dag.Events.Values, cacheManager
      ensures Valid()
      ensures Reached(d, before, after, t, t.clothos, dag.State())
      ensures Step(old(CurrentView()), CurrentView(), {WitnessesOf(round + FINALITY_DELAY)})
    {
      after := before;
      ghost var q, start := round + FINALITY_DELAY, CurrentView();
      StepIdle(start, {WitnessesOf(q)});
      NothingReached(d, before, t, Elements(clothos[..0]), dag.State());
      for i := 0 to |clothos|
        invariant Valid() && dag.Events == old(dag.Events)
        invariant Reached(d, before, after, t, Elements(clothos[..i]), dag.State())
        invariant Step(start, CurrentView(), {WitnessesOf(q)}) && Shows(CurrentView(), t)
      {
        assert clothos[i] in t.clothos;
        after := FinalizeNext(clothos[i], round, t, d, before, after, Elements(clothos[..i]), start);
        ElementsSnoc(clothos, i);
      }
      assert clothos[..|clothos|] == clothos;
      ElementsOfListing(clothos, t.clothos);
    }

    /** Reads the Clothos of a round; with the witnesses as they are seen from now on, this makes a turn. */
    method OpenTurn(round: nat) returns (clothos: seq<EventID>, ghost t: Turn)
      requires Valid()
      modifies cacheManager
      ensures Valid()
      ensures t.round == round && Lists(clothos, t.clothos) && t.clothos <= dag.Events.Keys
      ensures Shows(CurrentView(), t) && TurnFrom(old(CurrentView()), t)
      ensures Step(old(CurrentView()), CurrentView(), {ClothosOf(round)}) && Cached(CurrentView(), round)
    {
      ghost var start := CurrentView();
      SeenIsStored(dag.State(), start, round);
      clothos := GetClothos(round);
      t := ReadsMakeTurn(start, CurrentView(), round);
    }

    /** The loop body of FinalizeEvents: one round of the table. */
    method FinalizeRound(round: nat, ghost d: DagState, ghost before: map<EventID, Turn>)
      returns (ghost t: Turn, ghost after: map<EventID, Turn>)
      requires Valid() && NO_EVENT !in d.events
      requires Standing(d, before, dag.State())
      modifies dag`Rounds, dag`Data, dag.Events.Values, cacheManager
      ensures Valid()
      ensures t.round == round && TurnFrom(old(CurrentView()), t)
      ensures Reached(d, before, after, t, t.clothos, dag.State())
      ensures Step(old(CurrentView()), CurrentView(), ReadIn(t)) && Cached(CurrentView(), round)
    {
      ghost var q, start := round + FINALITY_DELAY, CurrentView();
      var clothos;
      clothos, t := OpenTurn(round);
      ghost var mid := CurrentView();
      after := before;
      if |clothos| != 0 {
        after := FinalizeClothosForRound(round, clothos, t, d, before);
      } else {
        StepIdle(mid, {WitnessesOf(q)});
        NothingReached(d, before, t, t.clothos, dag.State());
      }
      CloseTurn(start, mid, CurrentView(), t);
    }

    /**
     * The public call; turns says in which order the round table was iterated and what was read. While no cached
     * entry is stale the result is the cache-free one.
     */
    method FinalizeEvents() returns (ghost turns: seq<Turn>)
      requires Valid()
      modifies dag`Rounds, dag`Data, dag.Events.Values, cacheManager
      ensures Valid()
      ensures Lists(RoundsOf(turns), old(dag.Rounds).Keys)
      ensures dag.State() == Outcome(old(dag.State()), turns)
      ensures TurnsFrom(old(CurrentView()), turns) && Step(old(CurrentView()), CurrentView(), ReadBy(turns))
      ensures forall r :: r in old(dag.Rounds) ==> Cached(CurrentView(), r)
      ensures old(UpToDate()) ==> UpToDate() && dag.State() == FinalState(old(dag.State()), RoundsOf(turns))
    {
      ghost var d, start := dag.State(), CurrentView();
      turns := [];
      var rest := dag.Rounds.Keys;
      NoProgressYet(d, start);
      while rest != {}
        invariant Valid() && dag.Events == old(dag.Events)
        invariant rest <= d.rounds.Keys
        invariant Lists(RoundsOf(turns), d.rounds.Keys - rest)
        invariant Progress(d, start, turns, dag.State(), CurrentView())
        decreases rest
      {
        var round :| round in rest;
        ghost var t := FinalizeTurn(round, d, start, turns);
        ListsNextRound(turns, d.rounds.Keys, rest, round, t);
        rest, turns := rest - {round}, turns + [t];
      }
      assert d.rounds.Keys - rest == d.rounds.Keys;
      ProgressMeans(d, start, turns, dag.State(), CurrentView());
      FreshResult(d, start, CurrentView(), turns);
    }

    /** One turn of the loop, in terms of the turns made so far. */
    method FinalizeTurn(round: nat, ghost d: DagState, ghost start: View, ghost turns: seq<Turn>) returns (ghost t: Turn)
      requires Valid() && NO_EVENT !in d.events
      requires Progress(d, start, turns, dag.State(), CurrentView())
      modifies dag`Rounds, dag`Data, dag.Events.Values, cacheManager
      ensures Valid()
      ensures t.round == round
      ensures Progress(d, start, turns + [t], dag.State(), CurrentView())
    {
      ghost var state, mid, after := dag.State(), CurrentView(), map[];
      ProgressStands(d, start, turns, state, mid);
      t, after := FinalizeRound(round, d, Chosen(d, turns));
      NextTurn(d, start, turns, state, mid, t, after, dag.State(), CurrentView());
    }

    method ValidateFinality(e: Event, round: nat) returns (ok: bool)
      requires Valid()
      modifies cacheManager
      ensures Valid()
      ensures ok <==> ValidatesObject(dag.State(), e.id, e.Data(), round, SeenWitnesses(old(CurrentView()), round + FINALITY_DELAY))
      ensures dag.Stores(e) && old(UpToDate()) ==> (ok <==> Validates(dag.State(), e.id, round))
      ensures var famous := SeenWitnesses(old(CurrentView()), round + 2);
        ok <==> (e.atropos != NO_EVENT && e.isClotho && e.isFamous == Some(true) && e.roundReceived == round + 2 &&
          3 * (|VotersAmong(dag.State(), e.id, famous)| + 1) > 2 * |famous|)
    {
      if UpToDate() {
        SoundSeesActual(CurrentView(), round + FINALITY_DELAY);
      }
      assert dag.Stores(e) ==> dag.Mirrored(e.id);
      if e.atropos == NO_EVENT || !e.isClotho || e.isFamous != Some(true) {
        return false;
      }
      if e.roundReceived != round + FINALITY_DELAY {
        return false;
      }
      var total, seeCount, _ := ReadVoters(e.id, round + FINALITY_DELAY);
      RequiredMeans(total, seeCount);
      return seeCount >= Required(total);
    }
  }

  // ---------- steps of the loops ----------

  /** With a sound cache at the start the call ends as if there were none, and the cache is still sound. */
  lemma FreshResult(d: DagState, v: View, w: View, turns: seq<Turn>)
    requires v.tables == TablesOf(d) && TurnsFrom(v, turns) && Step(v, w, ReadBy(turns))
    ensures CacheSound(v.tables, v.cache) ==>
      CacheSound(w.tables, w.cache) && Outcome(d, turns) == FinalState(d, RoundsOf(turns))
  {
    if CacheSound(v.tables, v.cache) {
      SoundTurnsAreActual(d, v, turns);
      StepSound(v, w, ReadBy(turns));
    }
  }

  lemma ConvertKeepsTables(d: DagState, c: EventID, t: Turn)
    requires ReadyAt(d, c, t) && t.round + FINALITY_DELAY in d.rounds
    ensures TablesOf(Convert(d, c, t)) == TablesOf(d)
  {
    ApplyNothing(d);
    ApplyOneMore(d, map[], c, t);
    ApplyKeepsTables(d, map[c := t]);
  }

  lemma WriteKeepsStored(d: DagState, c: EventID, received: nat, median: uint64, cache: Entries)
    requires c in d.events && received in d.rounds && TablesStored(d) && CacheStored(d, cache)
    ensures TablesStored(Written(d, c, received, median)) && CacheStored(Written(d, c, received, median), cache)
  {
    var now := Written(d, c, received, median);
    assert now.rounds.Keys == d.rounds.Keys && now.events.Keys == d.events.Keys;
    forall r
      ensures TableStored(now, r)
    {
      assert TableStored(d, r);
    }
    forall r | r in cache
      ensures EntryStored(now, r, cache[r])
    {
      assert EntryStored(d, r, cache[r]);
    }
  }

  lemma ListsNextRound(turns: seq<Turn>, rounds: set<nat>, rest: set<nat>, round: nat, t: Turn)
    requires Lists(RoundsOf(turns), rounds - rest) && rest <= rounds && round in rest && t.round == round
    ensures Lists(RoundsOf(turns + [t]), rounds - (rest - {round}))
  {
    assert RoundsOf(turns + [t]) == RoundsOf(turns) + [round];
    ListsSnoc(RoundsOf(turns), rounds - rest, round);
    assert rounds - (rest - {round}) == rounds - rest + {round};
  }

  /** now is d with the events of before finalised, each of them ready in its turn. */
  ghost predicate StandingAt(d: DagState, before: map<EventID, Turn>, now: DagState, c: EventID) {
    now == Apply(d, before) && (c in before ==> ReadyAt(d, c, before[c]))
  }

  ghost predicate Standing(d: DagState, before: map<EventID, Turn>, now: DagState) {
    forall c {:trigger StandingAt(d, before, now, c)} :: StandingAt(d, before, now, c)
  }

  /**
   * now is d with the events of after finalised, and for c the turn chosen is the one in before if there is one,
   * and else t if c is among the handled events and ready.
   */
  ghost predicate ReachedAt(d: DagState, before: map<EventID, Turn>, after: map<EventID, Turn>, t: Turn,
      handled: set<EventID>, now: DagState, c: EventID)
  {
    StandingAt(d, after, now, c) &&
    (c in after <==> c in before || (c in handled && ReadyAt(d, c, t))) &&
    (c in after ==> after[c] == if c in before then before[c] else t)
  }

  /** Where the turn t stands that started with the events of before finalised and has handled these Clothos. */
  ghost predicate Reached(d: DagState, before: map<EventID, Turn>, after: map<EventID, Turn>, t: Turn,
      handled: set<EventID>, now: DagState)
  {
    forall c {:trigger ReachedAt(d, before, after, t, handled, now, c)} :: ReachedAt(d, before, after, t, handled, now, c)
  }

  lemma NothingReached(d: DagState, before: map<EventID, Turn>, t: Turn, handled: set<EventID>, now: DagState)
    requires Standing(d, before, now) && handled == {}
    ensures Reached(d, before, before, t, handled, now)
  {
    forall c
      ensures ReachedAt(d, before, before, t, handled, now, c)
    {
      assert StandingAt(d, before, now, c);
    }
  }

  /** What handling one more Clotho does to the events finalised so far. */
  lemma OneMore(d: DagState, before: map<EventID, Turn>, sofar: map<EventID, Turn>, t: Turn, handled: set<EventID>,
      c: EventID, now: DagState, next: DagState, passes: bool) returns (after: map<EventID, Turn>)
    requires Reached(d, before, sofar, t, handled, now) && NO_EVENT !in d.events
    requires passes <==> ReadyAt(now, c, t)
    requires passes ==> c in now.events && t.round + FINALITY_DELAY in now.rounds
    requires next == if passes then Convert(now, c, t) else now
    ensures Reached(d, before, after, t, handled + {c}, next)
  {
    assert AllReady(d, sofar) by {
      forall x | x in sofar
        ensures ReadyAt(d, x, sofar[x])
      {
        assert ReachedAt(d, before, sofar, t, handled, now, x);
      }
    }
    assert ReachedAt(d, before, sofar, t, handled, now, c);
    ReadyAfterApply(d, sofar, c, t);
    after := sofar;
    if passes {
      ApplyOneMore(d, sofar, c, t);
      after := sofar[c := t];
    }
    forall x
      ensures ReachedAt(d, before, after, t, handled + {c}, next, x)
    {
      assert ReachedAt(d, before, sofar, t, handled, now, x);
    }
  }

  /** The state after one more turn of the loop over the rounds. */
  lemma ChosenAppend(d: DagState, turns: seq<Turn>, t: Turn, after: map<EventID, Turn>, now: DagState)
    requires Reached(d, Chosen(d, turns), after, t, t.clothos, now)
    ensures now == Outcome(d, turns + [t])
  {
    var goal := Chosen(d, turns + [t]);
    forall c
      ensures c in after <==> c in goal
      ensures c in after ==> after[c] == goal[c]
    {
      assert ReachedAt(d, Chosen(d, turns), after, t, t.clothos, now, c);
      FirstReadyAppend(d, turns, t, c);
    }
    assert after == goal;
    assert ReachedAt(d, Chosen(d, turns), after, t, t.clothos, now, 0);
  }

  lemma ProgressStands(d: DagState, v: View, turns: seq<Turn>, state: DagState, now: View)
    requires Progress(d, v, turns, state, now)
    ensures Standing(d, Chosen(d, turns), state)
  {
    ProgressMeans(d, v, turns, state, now);
    ChosenIsReady(d, turns);
  }

  lemma NextTurn(d: DagState, v: View, turns: seq<Turn>, state: DagState, mid: View, t: Turn, after: map<EventID, Turn>,
      next: DagState, now: View)
    requires Progress(d, v, turns, state, mid) && Reached(d, Chosen(d, turns), after, t, t.clothos, next)
    requires TurnFrom(mid, t) && Step(mid, now, ReadIn(t)) && Cached(now, t.round)
    ensures Progress(d, v, turns + [t], next, now)
  {
    ChosenAppend(d, turns, t, after, next);
    ProgressStep(d, v, turns, state, mid, t, next, now);
  }
}
