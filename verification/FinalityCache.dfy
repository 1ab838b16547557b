/** The read cache of the finality engine on values: what it may hold, what a read returns, when it is stale. */
module FinalityCache {
  import opened Events
  import opened DagSpec
  import opened Sets
  import opened FinalitySpec
  import opened Cache

  type Entries = map<nat, CacheEntry>

  ghost function Elements(list: seq<EventID>): set<EventID> {
    set x | x in list
  }

  lemma ElementsSnoc(list: seq<EventID>, i: nat)
    requires i < |list|
    ensures Elements(list[..i + 1]) == Elements(list[..i]) + {list[i]}
  {
    assert list[..i + 1] == list[..i] + [list[i]];
  }

  lemma ElementsOfListing(list: seq<EventID>, s: set<EventID>)
    requires Lists(list, s)
    ensures Elements(list) == s
  {
  }

  // ---------- what the cache may hold ----------

  /** What a fresh read of the round table would collect for an entry of this kind. */
  ghost function Fresh(tables: Tables, r: nat, entry: CacheEntry): set<EventID> {
    match entry
    case Clothos(_) => ClothosIn(tables, r)
    case FamousWitnesses(_) => FamousIn(tables, r)
  }

  /** The entry cached for round r was once collected from a table of r: it lists stored events, each once. */
  ghost predicate EntryStored(d: DagState, r: nat, entry: CacheEntry) {
    r in d.rounds && Elements(entry.list) <= d.events.Keys && Lists(entry.list, Elements(entry.list))
  }

  ghost predicate CacheStored(d: DagState, cache: Entries) {
    forall r {:trigger EntryStored(d, r, cache[r])} :: r in cache ==> EntryStored(d, r, cache[r])
  }

  /** The entry is not stale. */
  ghost predicate EntrySound(tables: Tables, r: nat, entry: CacheEntry) {
    r in tables && Lists(entry.list, Fresh(tables, r, entry))
  }

  ghost predicate CacheSound(tables: Tables, cache: Entries) {
    forall r {:trigger EntrySound(tables, r, cache[r])} :: r in cache ==> EntrySound(tables, r, cache[r])
  }

  /** The tables of round r list stored events only. */
  ghost predicate TableStored(d: DagState, r: nat) {
    r in d.rounds ==> d.rounds[r].witnesses <= d.events.Keys && d.rounds[r].clothos <= d.events.Keys
  }

  ghost predicate TablesStored(d: DagState) {
    forall r {:trigger TableStored(d, r)} :: TableStored(d, r)
  }

  lemma FreshIsStored(d: DagState, r: nat, entry: CacheEntry)
    requires EntrySound(TablesOf(d), r, entry) && TablesStored(d)
    ensures EntryStored(d, r, entry)
  {
    assert TableStored(d, r);
    ElementsOfListing(entry.list, Fresh(TablesOf(d), r, entry));
  }

  // ---------- when the cache goes stale ----------

  /** A sound cache stays sound exactly as long as the tables keep what its entries list. */
  lemma CacheStaysSound(tables: Tables, now: Tables, cache: Entries)
    requires CacheSound(tables, cache)
    ensures CacheSound(now, cache) <==>
      forall r :: r in cache ==> r in now && Fresh(now, r, cache[r]) == Fresh(tables, r, cache[r])
  {
    forall r | r in cache
      ensures EntrySound(now, r, cache[r]) <==> r in now && Fresh(now, r, cache[r]) == Fresh(tables, r, cache[r])
    {
      assert EntrySound(tables, r, cache[r]);
    }
  }

  lemma InsertionKeepsTables(d: DagState, id: EventID, e: EventData, r: nat)
    requires TablesStored(d) && e.isFamous != Some(true) && r in d.rounds
    ensures r in AddEvent(d, id, e).rounds && TablesOf(AddEvent(d, id, e))[r] == TablesOf(d)[r]
  {
    assert TableStored(d, r);
    var now := AddEvent(d, id, e);
    assert now.rounds[r].clothos == d.rounds[r].clothos;
    assert FinalitySpec.FamousWitnesses(now, r) == FinalitySpec.FamousWitnesses(d, r);
  }

  /** Inserting an event without a fame flag, as NewEvent makes them, leaves the cache as sound as it was. */
  lemma InsertionKeepsCacheSound(d: DagState, cache: Entries, id: EventID, e: EventData)
    requires TablesStored(d) && CacheStored(d, cache) && e.isFamous != Some(true)
    requires CacheSound(TablesOf(d), cache)
    ensures CacheSound(TablesOf(AddEvent(d, id, e)), cache)
  {
    var now := AddEvent(d, id, e);
    forall r | r in cache
      ensures r in d.rounds
    {
      assert EntryStored(d, r, cache[r]);
    }
    forall r | r in cache
      ensures r in TablesOf(now) && TablesOf(now)[r] == TablesOf(d)[r]
    {
      InsertionKeepsTables(d, id, e, r);
    }
    CacheStaysSound(TablesOf(d), TablesOf(now), cache);
  }

  /** What the engine relies on survives any insertion. */
  lemma InsertionKeepsStored(d: DagState, cache: Entries, id: EventID, e: EventData)
    requires TablesStored(d) && CacheStored(d, cache)
    ensures TablesStored(AddEvent(d, id, e)) && CacheStored(AddEvent(d, id, e), cache)
  {
    var now := AddEvent(d, id, e);
    forall r
      ensures TableStored(now, r)
    {
      assert TableStored(d, r);
    }
    forall r | r in cache
      ensures EntryStored(now, r, cache[r])
    {
      assert EntryStored(d, r, cache[r]);
    }
  }

  // ---------- what a read returns ----------

  // What a read depends on: the lists as they are, the cache and its capacity.
  datatype View = View(tables: Tables, capacity: nat, cache: Entries)

  /** The Clothos of round r as the engine reads them: a cached list of them wins over the table. */
  ghost function SeenClothos(v: View, r: nat): set<EventID> {
    if r in v.cache && v.cache[r].Clothos? then Elements(v.cache[r].list) else ClothosIn(v.tables, r)
  }

  /** The famous witnesses of round r as the engine reads them. */
  ghost function SeenWitnesses(v: View, r: nat): set<EventID> {
    if r in v.cache && v.cache[r].FamousWitnesses? then Elements(v.cache[r].list) else FamousIn(v.tables, r)
  }

  lemma SeenIsStored(d: DagState, v: View, r: nat)
    requires TablesStored(d) && CacheStored(d, v.cache) && v.tables == TablesOf(d)
    ensures SeenWitnesses(v, r) != {} ==> r in d.rounds
    ensures SeenClothos(v, r) <= d.events.Keys && SeenWitnesses(v, r) <= d.events.Keys
  {
    assert TableStored(d, r);
    assert r in v.cache ==> EntryStored(d, r, v.cache[r]);
  }

  lemma SoundSeesActual(v: View, r: nat)
    requires CacheSound(v.tables, v.cache)
    ensures SeenClothos(v, r) == ClothosIn(v.tables, r) && SeenWitnesses(v, r) == FamousIn(v.tables, r)
  {
    assert r in v.cache ==> EntrySound(v.tables, r, v.cache[r]);
  }

  // ---------- how reads change the cache ----------

  // A list that may have been read from the round table and then cached.
  datatype Read = ClothosOf(round: nat) | WitnessesOf(round: nat)

  function ReadOf(r: nat, entry: CacheEntry): Read {
    match entry
    case Clothos(_) => ClothosOf(r)
    case FamousWitnesses(_) => WitnessesOf(r)
  }

  /** The entry of r found afterwards is the old one or was read meanwhile; it is lost only from a cache that can be full. */
  ghost predicate StepAt(v: View, w: View, fetched: set<Read>, r: nat) {
    w.tables == v.tables && w.capacity == v.capacity &&
    (r in w.cache ==> (r in v.cache && w.cache[r] == v.cache[r]) ||
                      (ReadOf(r, w.cache[r]) in fetched && EntrySound(v.tables, r, w.cache[r]))) &&
    (|v.tables| < v.capacity && r in v.cache ==> r in w.cache)
  }

  /** Between v and w at most these lists were read from the tables. */
  ghost predicate Step(v: View, w: View, fetched: set<Read>) {
    forall r {:trigger StepAt(v, w, fetched, r)} :: StepAt(v, w, fetched, r)
  }

  lemma StepTransitive(v: View, w: View, x: View, fetched1: set<Read>, fetched2: set<Read>)
    requires Step(v, w, fetched1) && Step(w, x, fetched2)
    ensures Step(v, x, fetched1 + fetched2)
  {
    forall r
      ensures StepAt(v, x, fetched1 + fetched2, r)
    {
      assert StepAt(v, w, fetched1, r) && StepAt(w, x, fetched2, r);
    }
  }

  /** Reading the same list twice is a step like reading it once. */
  lemma StepTwice(v: View, w: View, x: View, read: Read)
    requires Step(v, w, {read}) && Step(w, x, {read})
    ensures Step(v, x, {read})
  {
    StepTransitive(v, w, x, {read}, {read});
    assert {read} + {read} == {read};
  }

  lemma StepBoth(v: View, w: View, x: View, read1: Read, read2: Read)
    requires Step(v, w, {read1}) && Step(w, x, {read2})
    ensures Step(v, x, {read1, read2})
  {
    StepTransitive(v, w, x, {read1}, {read2});
    assert {read1} + {read2} == {read1, read2};
  }

  lemma StepIdle(v: View, fetched: set<Read>)
    ensures Step(v, v, fetched)
  {
  }

  /** Storing a fresh entry, with whatever eviction that causes, is a step. */
  lemma StoreIsStep(d: DagState, v: View, w: View, r: nat)
    requires v.tables == TablesOf(d) && TablesStored(d) && CacheStored(d, v.cache)
    requires w.tables == v.tables && w.capacity == v.capacity && r in w.cache && EntrySound(v.tables, r, w.cache[r])
    requires forall q :: q in w.cache && q != r ==> q in v.cache && w.cache[q] == v.cache[q]
    requires |v.cache| < v.capacity ==> w.cache == v.cache[r := w.cache[r]]
    ensures Step(v, w, {ReadOf(r, w.cache[r])}) && CacheStored(d, w.cache)
  {
    forall q | q in v.cache
      ensures q in v.tables
    {
      assert EntryStored(d, q, v.cache[q]);
    }
    SubsetSize(v.cache.Keys, v.tables.Keys);
    forall q
      ensures StepAt(v, w, {ReadOf(r, w.cache[r])}, q)
    {
    }
    forall q | q in w.cache
      ensures EntryStored(d, q, w.cache[q])
    {
      if q == r {
        FreshIsStored(d, r, w.cache[r]);
      } else {
        assert EntryStored(d, q, v.cache[q]);
      }
    }
  }

  /** Reads keep a sound cache sound. */
  lemma StepSound(v: View, w: View, fetched: set<Read>)
    requires Step(v, w, fetched) && CacheSound(v.tables, v.cache)
    ensures CacheSound(w.tables, w.cache)
  {
    assert StepAt(v, w, fetched, 0);
    forall r | r in w.cache
      ensures EntrySound(w.tables, r, w.cache[r])
    {
      assert StepAt(v, w, fetched, r);
      assert r in v.cache ==> EntrySound(v.tables, r, v.cache[r]);
    }
  }

  /** No list of this round was read. */
  predicate Untouched(fetched: set<Read>, r: nat) {
    ClothosOf(r) !in fetched && WitnessesOf(r) !in fetched
  }

  /** After reads a list is seen as before or as it is, and as before if nothing can be evicted and its round was not read. */
  lemma SeenLater(v: View, w: View, fetched: set<Read>, r: nat)
    requires Step(v, w, fetched)
    ensures SeenClothos(w, r) == SeenClothos(v, r) || SeenClothos(w, r) == ClothosIn(v.tables, r)
    ensures SeenWitnesses(w, r) == SeenWitnesses(v, r) || SeenWitnesses(w, r) == FamousIn(v.tables, r)
    ensures |v.tables| < v.capacity && Untouched(fetched, r) ==>
      SeenClothos(w, r) == SeenClothos(v, r) && SeenWitnesses(w, r) == SeenWitnesses(v, r)
  {
    assert StepAt(v, w, fetched, r);
    if r in w.cache && EntrySound(v.tables, r, w.cache[r]) {
      ElementsOfListing(w.cache[r].list, Fresh(v.tables, r, w.cache[r]));
    }
  }

  // ---------- the turns of a call ----------

  /** The witnesses of the turn are the ones that a read of them returns. */
  ghost predicate Shows(v: View, t: Turn) {
    t.witnesses == SeenWitnesses(v, t.round + FINALITY_DELAY)
  }

  /**
   * What a turn reads in terms of the view at the start of the call: as it was seen then or as it is, and the former
   * whenever no entry is evicted and the round was not read in the call before.
   */
  ghost predicate TurnRead(v: View, fetched: set<Read>, t: Turn) {
    var q := t.round + FINALITY_DELAY;
    (t.clothos == SeenClothos(v, t.round) || t.clothos == ClothosIn(v.tables, t.round)) &&
    (t.witnesses == SeenWitnesses(v, q) || t.witnesses == FamousIn(v.tables, q)) &&
    (|v.tables| < v.capacity && Untouched(fetched, t.round) ==> t.clothos == SeenClothos(v, t.round)) &&
    (|v.tables| < v.capacity && Untouched(fetched, q) ==> t.witnesses == SeenWitnesses(v, q))
  }

  /** A turn that reads the Clothos first and then, in the view this leaves, the witnesses. */
  ghost predicate TurnFrom(v: View, t: Turn) {
    TurnRead(v, {}, t) && t.clothos == SeenClothos(v, t.round)
  }

  lemma ReadsMakeTurn(v: View, w: View, round: nat) returns (t: Turn)
    requires Step(v, w, {ClothosOf(round)})
    ensures t.round == round && t.clothos == SeenClothos(v, round) && Shows(w, t) && TurnFrom(v, t)
  {
    t := Turn(round, SeenClothos(v, round), SeenWitnesses(w, round + FINALITY_DELAY));
    SeenLater(v, w, {ClothosOf(round)}, round + FINALITY_DELAY);
  }

  /** A turn of a later view, in terms of the view at the start of the call. */
  lemma LaterTurn(v: View, w: View, fetched: set<Read>, t: Turn)
    requires Step(v, w, fetched) && TurnFrom(w, t)
    ensures TurnRead(v, fetched, t)
  {
    SeenLater(v, w, fetched, t.round);
    SeenLater(v, w, fetched, t.round + FINALITY_DELAY);
    assert w.tables == v.tables && w.capacity == v.capacity by {
      assert StepAt(v, w, fetched, 0);
    }
  }

  ghost function ReadIn(t: Turn): set<Read> {
    {ClothosOf(t.round), WitnessesOf(t.round + FINALITY_DELAY)}
  }

  /** The lists that these turns may have read from the tables. */
  ghost function ReadBy(turns: seq<Turn>): set<Read> {
    (set t | t in turns :: ClothosOf(t.round)) + (set t | t in turns :: WitnessesOf(t.round + FINALITY_DELAY))
  }

  ghost predicate TurnAt(v: View, turns: seq<Turn>, i: nat) {
    i < |turns| ==> TurnRead(v, ReadBy(turns[..i]), turns[i])
  }

  /** The turns of a whole call that started in view v. */
  ghost predicate TurnsFrom(v: View, turns: seq<Turn>) {
    forall i {:trigger TurnAt(v, turns, i)} :: TurnAt(v, turns, i)
  }

  /** Something is cached for the round if it has a table, as long as nothing can be evicted. */
  ghost predicate Cached(v: View, r: nat) {
    |v.tables| < v.capacity && r in v.tables ==> r in v.cache
  }

  lemma StepKeepsCached(v: View, w: View, fetched: set<Read>, r: nat)
    requires Step(v, w, fetched) && Cached(v, r)
    ensures Cached(w, r)
  {
    assert StepAt(v, w, fetched, r);
  }

  /** A turn has read its two lists, the Clothos first, and its round stays cached. */
  lemma CloseTurn(v: View, mid: View, w: View, t: Turn)
    requires Step(v, mid, {ClothosOf(t.round)}) && Step(mid, w, {WitnessesOf(t.round + FINALITY_DELAY)})
    requires Cached(mid, t.round)
    ensures Step(v, w, ReadIn(t)) && Cached(w, t.round)
  {
    StepBoth(v, mid, w, ClothosOf(t.round), WitnessesOf(t.round + FINALITY_DELAY));
    StepKeepsCached(mid, w, {WitnessesOf(t.round + FINALITY_DELAY)}, t.round);
  }

  /** See Progress; i is one of the turns. */
  ghost predicate ProgressAt(d: DagState, v: View, turns: seq<Turn>, state: DagState, now: View, i: nat) {
    TurnAt(v, turns, i) && Step(v, now, ReadBy(turns)) && state == Outcome(d, turns) &&
    (i < |turns| ==> Cached(now, turns[i].round))
  }

  /** Where a call stands that started from d in view v and has made these turns. */
  ghost predicate Progress(d: DagState, v: View, turns: seq<Turn>, state: DagState, now: View) {
    forall i {:trigger ProgressAt(d, v, turns, state, now, i)} :: ProgressAt(d, v, turns, state, now, i)
  }

  lemma NoProgressYet(d: DagState, v: View)
    ensures Progress(d, v, [], d, v)
  {
    StepIdle(v, ReadBy([]));
    assert Chosen(d, []) == map[];
    ApplyNothing(d);
  }

  lemma ProgressMeans(d: DagState, v: View, turns: seq<Turn>, state: DagState, now: View)
    requires Progress(d, v, turns, state, now)
    ensures TurnsFrom(v, turns) && Step(v, now, ReadBy(turns)) && state == Outcome(d, turns)
    ensures forall r :: r in RoundsOf(turns) ==> Cached(now, r)
  {
    assert ProgressAt(d, v, turns, state, now, 0);
    forall i: nat
      ensures TurnAt(v, turns, i)
      ensures i < |turns| ==> Cached(now, turns[i].round)
    {
      assert ProgressAt(d, v, turns, state, now, i);
    }
  }

  lemma ReadBySnoc(turns: seq<Turn>, t: Turn)
    ensures ReadBy(turns + [t]) == ReadBy(turns) + ReadIn(t)
  {
    var more := turns + [t];
    assert t in more;
    forall read | read in ReadBy(turns)
      ensures read in ReadBy(more)
    {
      var u :| u in turns && (read == ClothosOf(u.round) || read == WitnessesOf(u.round + FINALITY_DELAY));
      assert u in more;
    }
  }

  lemma TurnsSnoc(v: View, turns: seq<Turn>, t: Turn)
    requires TurnsFrom(v, turns) && TurnRead(v, ReadBy(turns), t)
    ensures TurnsFrom(v, turns + [t])
  {
    var more := turns + [t];
    forall i: nat
      ensures TurnAt(v, more, i)
    {
      if i < |turns| {
        assert TurnAt(v, turns, i);
        assert more[..i] == turns[..i];
      } else if i == |turns| {
        assert more[..i] == turns;
      }
    }
  }

  /** One more turn, which left the state next. */
  lemma ProgressStep(d: DagState, v: View, turns: seq<Turn>, state: DagState, mid: View, t: Turn, next: DagState, now: View)
    requires Progress(d, v, turns, state, mid) && next == Outcome(d, turns + [t])
    requires TurnFrom(mid, t) && Step(mid, now, ReadIn(t)) && Cached(now, t.round)
    ensures Progress(d, v, turns + [t], next, now)
  {
    ProgressMeans(d, v, turns, state, mid);
    assert Step(v, now, ReadBy(turns + [t])) by {
      StepTransitive(v, mid, now, ReadBy(turns), ReadIn(t));
      ReadBySnoc(turns, t);
    }
    assert TurnsFrom(v, turns + [t]) by {
      LaterTurn(v, mid, ReadBy(turns), t);
      TurnsSnoc(v, turns, t);
    }
    forall i: nat
      ensures ProgressAt(d, v, turns + [t], next, now, i)
    {
      assert TurnAt(v, turns + [t], i);
      if i < |turns| {
        assert ProgressAt(d, v, turns, state, mid, i);
        StepKeepsCached(mid, now, ReadIn(t), turns[i].round);
      }
    }
  }

  lemma SoundTurnIsActual(d: DagState, v: View, fetched: set<Read>, t: Turn)
    requires v.tables == TablesOf(d) && CacheSound(v.tables, v.cache) && TurnRead(v, fetched, t)
    ensures t == Actual(d, t.round)
  {
    SoundSeesActual(v, t.round);
    SoundSeesActual(v, t.round + FINALITY_DELAY);
  }

  /** With a sound cache every turn reads what is actual. */
  lemma SoundTurnsAreActual(d: DagState, v: View, turns: seq<Turn>)
    requires v.tables == TablesOf(d) && CacheSound(v.tables, v.cache) && TurnsFrom(v, turns)
    ensures turns == Turns(d, RoundsOf(turns))
  {
    forall i | 0 <= i < |turns|
      ensures turns[i] == Actual(d, turns[i].round)
    {
      assert TurnAt(v, turns, i);
      SoundTurnIsActual(d, v, ReadBy(turns[..i]), turns[i]);
    }
  }
}
