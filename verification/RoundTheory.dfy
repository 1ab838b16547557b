/** What a node's round assignment looks like after any run of insertions. */
module RoundTheory {
  import opened Events
  import opened DagSpec

  ghost function RootsOf(events: EventMap, r: nat): set<EventID> {
    set id | id in events && events[id].isRoot && events[id].round == r
  }

  ghost function RootRounds(events: EventMap): set<nat> {
    set id | id in events && events[id].isRoot :: events[id].round
  }

  /** The round table that the round and root marks of the events determine. */
  ghost function TableOf(events: EventMap): RoundTable {
    map r | r in RootRounds(events) :: RoundInfo(RootsOf(events, r), RootsOf(events, r), {}, {})
  }

  /** The equations for one event: its round and root mark follow from its parents and its creator's other events. */
  ghost predicate SettledAt(events: EventMap, id: EventID)
    requires id in events
  {
    var e := events[id];
    Known(events, e.parents) &&
    e.round == NextRound(events, e.parents) &&
    (e.isRoot <==> e.parents == [] || FirstInRound(events, e.creator, e.round, e.lamport))
  }

  /** The equations a finished assignment satisfies, with no reference to any insertion order. */
  ghost predicate Settled(events: EventMap) {
    forall id {:trigger SettledAt(events, id)} :: id in events ==> SettledAt(events, id)
  }

  // ---------- basic facts about one insertion ----------

  lemma IdsSplit(run: Run)
    requires run != []
    ensures Ids(run) == Ids(run[..|run| - 1]) + {run[|run| - 1].id}
  {
    var init, last := run[..|run| - 1], run[|run| - 1];
    assert run == init + [last];
  }

  lemma {:induction false} KnownIsFresh(run: Run)
    requires KnownRun(run)
    ensures FreshRun(run)
    decreases |run|
  {
    if run != [] {
      KnownIsFresh(run[..|run| - 1]);
    }
  }

  /** What AddEvent does to a new event, seen as the addition of one finished record. */
  lemma AddEventShape(d: DagState, id: EventID, e: EventData)
    requires id !in d.events && Unassigned(e)
    ensures var d' := AddEvent(d, id, e);
      id in d'.events && d'.events == d.events[id := d'.events[id]] &&
      d'.events[id] == e.(round := d'.events[id].round, isRoot := d'.events[id].isRoot) &&
      d'.rounds == if d'.events[id].isRoot then Register(d.rounds, d'.events[id].round, id) else d.rounds
  {
    var f := AddEvent(d, id, e).events[id];
    assert d.events[id := e][id := f] == d.events[id := f];
  }

  /** A run stores exactly its ids, and changes only the round and the root mark of an event. */
  lemma {:induction false} RunContent(run: Run)
    requires FreshRun(run)
    ensures After(run).events.Keys == Ids(run)
    ensures forall e :: e in run ==>
      e.id in After(run).events &&
      var f := After(run).events[e.id];
      f == e.data.(round := f.round, isRoot := f.isRoot)
    decreases |run|
  {
    if run != [] {
      var init, last := run[..|run| - 1], run[|run| - 1];
      RunContent(init);
      IdsSplit(run);
      AddEventShape(After(init), last.id, last.data);
      forall e | e in run
        ensures e.id in After(run).events
        ensures var f := After(run).events[e.id]; f == e.data.(round := f.round, isRoot := f.isRoot)
      {
        assert run == init + [last];
        if e in init {
          assert e.id in Ids(init);
        }
      }
    }
  }

  lemma RootRoundsAdd(events: EventMap, id: EventID, e: EventData)
    requires id !in events
    ensures RootRounds(events[id := e]) == RootRounds(events) + if e.isRoot then {e.round} else {}
  {
    var after := events[id := e];
    assert id in after && after[id] == e;
    forall r | r in RootRounds(events)
      ensures r in RootRounds(after)
    {
      var o :| o in events && events[o].isRoot && events[o].round == r;
      assert o in after && after[o] == events[o];
    }
  }

  lemma RootsOfAdd(events: EventMap, id: EventID, e: EventData, r: nat)
    requires id !in events
    ensures RootsOf(events[id := e], r) == RootsOf(events, r) + if e.isRoot && e.round == r then {id} else {}
    ensures r !in RootRounds(events) ==> RootsOf(events, r) == {}
  {
  }

  lemma TableAddRoot(events: EventMap, id: EventID, e: EventData)
    requires id !in events && e.isRoot
    ensures TableOf(events[id := e]) == Register(TableOf(events), e.round, id)
  {
    var t, t' := Register(TableOf(events), e.round, id), TableOf(events[id := e]);
    RootRoundsAdd(events, id, e);
    assert t.Keys == t'.Keys;
    forall r | r in t
      ensures t[r] == t'[r]
    {
      RootsOfAdd(events, id, e, r);
    }
  }

  lemma TableAddPlain(events: EventMap, id: EventID, e: EventData)
    requires id !in events && !e.isRoot
    ensures TableOf(events[id := e]) == TableOf(events)
  {
    var t, t' := TableOf(events), TableOf(events[id := e]);
    RootRoundsAdd(events, id, e);
    assert t.Keys == t'.Keys;
    forall r | r in t
      ensures t[r] == t'[r]
    {
      RootsOfAdd(events, id, e, r);
    }
  }

  /** The table always lists exactly the events marked as roots, whatever the run, missing parents included. */
  lemma {:induction false} TableExact(run: Run)
    requires FreshRun(run)
    ensures After(run).rounds == TableOf(After(run).events)
    decreases |run|
  {
    if run != [] {
      var init, last := run[..|run| - 1], run[|run| - 1];
      TableExact(init);
      RunContent(init);
      AddEventShape(After(init), last.id, last.data);
      var e := After(run).events[last.id];
      if e.isRoot {
        TableAddRoot(After(init).events, last.id, e);
      } else {
        TableAddPlain(After(init).events, last.id, e);
      }
    }
  }

  // ---------- the equations and their unique solution ----------

  lemma {:induction false} MaxRoundFrame(a: EventMap, b: EventMap, ids: seq<EventID>)
    requires Known(a, ids) && Known(b, ids)
    requires forall p :: p in ids ==> a[p].round == b[p].round
    ensures MaxRound(a, ids) == MaxRound(b, ids)
    decreases |ids|
  {
    if ids != [] {
      assert forall p :: p in ids[..|ids| - 1] ==> p in ids;
      MaxRoundFrame(a, b, ids[..|ids| - 1]);
    }
  }

  lemma NextRoundFrame(a: EventMap, b: EventMap, ids: seq<EventID>)
    requires Known(a, ids) && Known(b, ids)
    requires forall p :: p in ids ==> a[p].round == b[p].round && a[p].isRoot == b[p].isRoot
    ensures NextRound(a, ids) == NextRound(b, ids)
  {
    MaxRoundFrame(a, b, ids);
  }

  lemma LegalInit(run: Run)
    requires LegalRun(run) && run != []
    ensures LegalRun(run[..|run| - 1])
    ensures forall e :: e in run[..|run| - 1] && e.data.creator == run[|run| - 1].data.creator ==>
      e.data.lamport <= run[|run| - 1].data.lamport
  {
    var init, n := run[..|run| - 1], |run| - 1;
    assert LamportOrdered(init) by {
      forall i, j | 0 <= i < j < |init| && init[i].data.creator == init[j].data.creator
        ensures init[i].data.lamport <= init[j].data.lamport
      {
        assert init[i] == run[i] && init[j] == run[j];
      }
    }
    forall e | e in init && e.data.creator == run[n].data.creator
      ensures e.data.lamport <= run[n].data.lamport
    {
      var i :| 0 <= i < |init| && init[i] == e;
      assert run[i] == e;
    }
  }

  /** With its parents known, a new event gets the round of its parents and is a root if no event undercuts it. */
  lemma AddEventSettles(d: DagState, id: EventID, e: EventData)
    requires id !in d.events && Unassigned(e) && Known(d.events, e.parents)
    ensures SettledAt(AddEvent(d, id, e).events, id)
  {
    var start, b := d.events[id := e], AddEvent(d, id, e).events;
    var f := Placed(start, id);
    AddEventShape(d, id, e);
    assert e.parents == start[id].parents;
    assert id !in e.parents;
    NextRoundFrame(start, b, e.parents);
    FirstInRoundFrame(start[id := f], b, f);
  }

  /** The incremental computation solves the order-free equations. */
  lemma {:induction false} RunSettles(run: Run)
    requires LegalRun(run)
    ensures Settled(After(run).events)
    decreases |run|
  {
    if run != [] {
      var init, last := run[..|run| - 1], run[|run| - 1];
      LegalInit(run);
      RunSettles(init);
      KnownIsFresh(init);
      RunContent(init);
      AddEventSettles(After(init), last.id, last.data);
      AddEventShape(After(init), last.id, last.data);
      var a, b := After(init).events, After(run).events;
      forall id | id in a
        ensures SettledAt(b, id)
      {
        assert SettledAt(a, id);
        NextRoundFrame(a, b, a[id].parents);
        LastDoesNotUndercut(run, id);
        LaterEventKeepsFirst(a, last.id, b[last.id], a[id]);
      }
    }
  }

  lemma FirstInRoundFrame(a: EventMap, b: EventMap, e: EventData)
    requires a.Keys == b.Keys
    requires forall o :: o in a ==> SameContent(a[o], b[o]) && a[o].round == b[o].round
    ensures FirstInRound(a, e.creator, e.round, e.lamport) <==> FirstInRound(b, e.creator, e.round, e.lamport)
  {
    assert forall o :: o in a ==> a[o].creator == b[o].creator && a[o].lamport == b[o].lamport;
  }

  /** An event that does not undercut e keeps e's witness test as it was. */
  lemma LaterEventKeepsFirst(events: EventMap, id: EventID, later: EventData, e: EventData)
    requires id !in events
    requires later.creator == e.creator ==> e.lamport <= later.lamport
    ensures FirstInRound(events, e.creator, e.round, e.lamport) <==>
      FirstInRound(events[id := later], e.creator, e.round, e.lamport)
  {
    var after := events[id := later];
    assert forall o :: o in events ==> o in after && after[o] == events[o];
  }

  /** Events stored before the last entry of a legal run are not undercut by it. */
  lemma LastDoesNotUndercut(run: Run, id: EventID)
    requires LegalRun(run) && run != [] && FreshRun(run[..|run| - 1]) && id in After(run[..|run| - 1]).events
    ensures var e, last := After(run[..|run| - 1]).events[id], run[|run| - 1].data;
      last.creator == e.creator ==> e.lamport <= last.lamport
  {
    var init := run[..|run| - 1];
    LegalInit(run);
    RunContent(init);
    var x :| x in init && x.id == id;
  }

  /** Same content for every event, and the same rounds and root marks for the ids in done. */
  ghost predicate AgreeOn(a: EventMap, b: EventMap, done: set<EventID>) {
    a.Keys == b.Keys && done <= a.Keys &&
    (forall o :: o in a ==> SameContent(a[o], b[o])) &&
    (forall o :: o in done ==> a[o].round == b[o].round && a[o].isRoot == b[o].isRoot)
  }

  /** One step of SolutionsAgree: the equations determine an event from its parents and its creator's earlier events. */
  lemma NextAgrees(a: EventMap, b: EventMap, done: set<EventID>, id: EventID)
    requires Settled(a) && Settled(b) && AgreeOn(a, b, done) && id in a
    requires forall p :: p in a[id].parents ==> p in done
    requires forall o :: o in a && a[o].creator == a[id].creator && a[o].lamport < a[id].lamport ==> o in done
    ensures AgreeOn(a, b, done + {id})
  {
    var e, f := a[id], b[id];
    assert SameContent(e, f) && SettledAt(a, id) && SettledAt(b, id);
    NextRoundFrame(a, b, e.parents);
    assert FirstInRound(a, e.creator, e.round, e.lamport) <==> FirstInRound(b, e.creator, e.round, e.lamport) by {
      forall o | o in a
        ensures (a[o].creator == e.creator && a[o].round == e.round && a[o].lamport < e.lamport)
          <==> (b[o].creator == e.creator && b[o].round == e.round && b[o].lamport < e.lamport)
      {
        assert SameContent(a[o], b[o]);
      }
    }
  }

  /** Two solutions of the equations over the same events agree on every prefix of a legal order. */
  lemma {:induction false} SolutionsAgree(a: EventMap, b: EventMap, run: Run, k: nat)
    requires Settled(a) && Settled(b) && AgreeOn(a, b, {})
    requires LegalRun(run) && k <= |run| && Ids(run) == a.Keys
    requires forall e :: e in run ==> SameContent(a[e.id], e.data)
    ensures AgreeOn(a, b, Ids(run[..k]))
    decreases k
  {
    if k > 0 {
      SolutionsAgree(a, b, run, k - 1);
      var done, e := Ids(run[..k - 1]), run[k - 1];
      assert run[..k] == run[..k - 1] + [e];
      assert Ids(run[..k]) == done + {e.id};
      assert SameContent(a[e.id], e.data);
      KnownPrefix(run, k);
      assert run[..k][..k - 1] == run[..k - 1];
      SmallerLamportIsEarlier(a, run, k);
      NextAgrees(a, b, done, e.id);
    }
  }

  /** In a legal run, an event of the same creator with a smaller Lamport value was inserted before. */
  lemma SmallerLamportIsEarlier(a: EventMap, run: Run, k: nat)
    requires LamportOrdered(run) && 0 < k <= |run| && Ids(run) == a.Keys
    requires forall e :: e in run ==> SameContent(a[e.id], e.data)
    ensures forall o :: o in a && a[o].creator == run[k - 1].data.creator && a[o].lamport < run[k - 1].data.lamport ==>
      o in Ids(run[..k - 1])
  {
    forall o | o in a && a[o].creator == run[k - 1].data.creator && a[o].lamport < run[k - 1].data.lamport
      ensures o in Ids(run[..k - 1])
    {
      var e :| e in run && e.id == o;
      var i :| 0 <= i < |run| && run[i] == e;
      assert i < k - 1;
      assert e in run[..k - 1];
    }
  }

  lemma {:induction false} KnownPrefix(run: Run, k: nat)
    requires KnownRun(run) && k <= |run|
    ensures KnownRun(run[..k])
    decreases |run|
  {
    if k < |run| {
      KnownPrefix(run[..|run| - 1], k);
      assert run[..|run| - 1][..k] == run[..k];
    } else {
      assert run[..k] == run;
    }
  }

  /** Two runs of the same entries store the same events, up to rounds and root marks. */
  lemma SameEntriesSameContent(run1: Run, run2: Run)
    requires FreshRun(run1) && FreshRun(run2) && Entries(run1) == Entries(run2)
    ensures var a, b := After(run1).events, After(run2).events;
      a.Keys == b.Keys == Ids(run1) &&
      forall o :: o in a ==> b[o] == a[o].(round := b[o].round, isRoot := b[o].isRoot)
  {
    var a, b := After(run1).events, After(run2).events;
    RunContent(run1);
    RunContent(run2);
    forall e: Entry
      ensures e in run1 <==> e in run2
    {
      assert e in run1 <==> e in Entries(run1);
      assert e in run2 <==> e in Entries(run2);
    }
    forall o | o in a
      ensures o in b && b[o] == a[o].(round := b[o].round, isRoot := b[o].isRoot)
    {
      var e :| e in run1 && e.id == o;
      assert e in run2;
    }
    forall o | o in b
      ensures o in a
    {
      var e :| e in run2 && e.id == o;
      assert e in run1;
    }
  }

  /**
   * Confluence: two nodes that insert the same events in different legal orders end in the same state,
   * with the same round and root mark for every event and the same round table.
   */
  lemma Confluence(run1: Run, run2: Run)
    requires LegalRun(run1) && LegalRun(run2)
    requires Entries(run1) == Entries(run2)
    ensures After(run1) == After(run2)
  {
    KnownIsFresh(run1);
    KnownIsFresh(run2);
    RunSettles(run1);
    SameEvents(run1, run2);
    TableExact(run1);
    TableExact(run2);
  }

  /** A run whose outcome solves the equations stores the same events as any legal run of the same entries. */
  lemma SameEvents(run1: Run, run2: Run)
    requires FreshRun(run1) && Settled(After(run1).events) && LegalRun(run2) && FreshRun(run2)
    requires Entries(run1) == Entries(run2)
    ensures After(run1).events == After(run2).events
  {
    var a, b := After(run1).events, After(run2).events;
    SameEntriesSameContent(run1, run2);
    assert AgreeOn(b, a, b.Keys) by {
      assert AgreeOn(b, a, {});
      OnlySolution(a, run2);
    }
    forall o | o in a ensures a[o] == b[o] {}
  }

  /** Any solution over the events of a legal run has the rounds and root marks of the run. */
  lemma OnlySolution(a: EventMap, run: Run)
    requires Settled(a) && LegalRun(run) && FreshRun(run) && AgreeOn(After(run).events, a, {})
    ensures AgreeOn(After(run).events, a, a.Keys)
  {
    var b := After(run).events;
    RunSettles(run);
    RunContent(run);
    assert forall e :: e in run ==> SameContent(b[e.id], e.data);
    SolutionsAgree(b, a, run, |run|);
    assert run[..|run|] == run;
  }
}
