/** Exactly which insertion orders leave a node in the state of a legal run, and what the others do. */
module InsertionOrder {
  import opened Events
  import opened DagSpec
  import opened RoundTheory
  import opened RoundProperties

  /** o is a recorded witness above round 0 of e's creator and of the round e would get, with a larger Lamport value. */
  predicate UndercutsAt(events: EventMap, e: EventData, o: EventID)
    requires Known(events, e.parents) && o in events
  {
    events[o].isRoot && events[o].parents != [] && events[o].creator == e.creator &&
    events[o].round == NextRound(events, e.parents) && e.lamport < events[o].lamport
  }

  /** Inserting e would undercut a recorded witness: it would take that place had it come first. */
  predicate Undercuts(events: EventMap, e: EventData)
    requires Known(events, e.parents)
  {
    exists o :: o in events && UndercutsAt(events, e, o)
  }

  /** No insertion of the run undercuts a witness recorded before it. */
  ghost predicate NoUndercut(run: Run) {
    run != [] ==>
      var init, last := run[..|run| - 1], run[|run| - 1];
      NoUndercut(init) && (Known(After(init).events, last.data.parents) ==> !Undercuts(After(init).events, last.data))
  }

  /** An event that passes the witness test in the finished DAG was marked as a root when it was inserted. */
  lemma {:induction false} WitnessIsRoot(run: Run, id: EventID)
    requires KnownRun(run) && id in After(run).events
    ensures var e := After(run).events[id];
      FirstInRound(After(run).events, e.creator, e.round, e.lamport) ==> e.isRoot
    decreases |run|
  {
    var init, last := run[..|run| - 1], run[|run| - 1];
    InsertKeepsAncestry(run);
    KnownIsFresh(init);
    RunContent(init);
    if id in After(init).events {
      WitnessIsRoot(init, id);
    } else {
      AddEventShape(After(init), last.id, last.data);
      AddEventSettles(After(init), last.id, last.data);
      assert SettledAt(After(run).events, id);
    }
  }

  /** A new event takes the witness test from e exactly if it has the same creator and round and a smaller Lamport value. */
  lemma OneMoreEvent(events: EventMap, id: EventID, later: EventData, e: EventData)
    requires id !in events
    ensures FirstInRound(events[id := later], e.creator, e.round, e.lamport) <==>
      (FirstInRound(events, e.creator, e.round, e.lamport) &&
       !(later.creator == e.creator && later.round == e.round && later.lamport < e.lamport))
  {
    var after := events[id := later];
    assert id in after && after[id] == later;
    assert forall o :: o in events ==> o in after && after[o] == events[o];
  }

  /** The newest event of a known run and the round it gets. */
  lemma NewestEvent(run: Run)
    requires KnownRun(run) && run != []
    ensures var init, last := run[..|run| - 1], run[|run| - 1];
      var a, b := After(init).events, After(run).events;
      last.id !in a && Known(a, last.data.parents) && last.id in b && b == a[last.id := b[last.id]] &&
      SameContent(b[last.id], last.data) && b[last.id].round == NextRound(a, last.data.parents)
  {
    var init, last := run[..|run| - 1], run[|run| - 1];
    var a, b := After(init).events, After(run).events;
    KnownIsFresh(init);
    RunContent(init);
    AddEventShape(After(init), last.id, last.data);
    AddEventSettles(After(init), last.id, last.data);
    assert SettledAt(b, last.id);
    NextRoundFrame(a, b, last.data.parents);
  }

  /** One step of SettledExactly: the new event unsettles a settled one exactly if it undercuts it. */
  lemma StepSettles(run: Run, id: EventID)
    requires KnownRun(run) && run != [] && id in After(run[..|run| - 1]).events
    ensures var init, last := run[..|run| - 1], run[|run| - 1];
      var a, b := After(init).events, After(run).events;
      Known(a, last.data.parents) && id in b && b[id] == a[id] &&
      (SettledAt(b, id) <==> (SettledAt(a, id) && !UndercutsAt(a, last.data, id)))
  {
    var init, last := run[..|run| - 1], run[|run| - 1];
    var a, b := After(init).events, After(run).events;
    InsertKeepsAncestry(run);
    assert PlacedAt(a, id) by {
      KnownRunPlaced(init);
    }
    assert PlacedAt(b, id) by {
      KnownRunPlaced(run);
    }
    NewestEvent(run);
    WitnessIsRoot(init, id);
    OneMoreEvent(a, last.id, b[last.id], a[id]);
  }

  /** With known parents the outcome solves the order-free equations exactly if no insertion undercuts. */
  lemma {:induction false} SettledExactly(run: Run)
    requires KnownRun(run)
    ensures Settled(After(run).events) <==> NoUndercut(run)
    decreases |run|
  {
    if run != [] {
      var init, last := run[..|run| - 1], run[|run| - 1];
      var a, b := After(init).events, After(run).events;
      SettledExactly(init);
      KnownIsFresh(init);
      RunContent(init);
      AddEventShape(After(init), last.id, last.data);
      AddEventSettles(After(init), last.id, last.data);
      forall id | id in a
        ensures SettledAt(b, id) <==> (SettledAt(a, id) && !UndercutsAt(a, last.data, id))
      {
        StepSettles(run, id);
      }
    }
  }

  /** A child inserted before a parent stays in round 0 for good. */
  lemma {:induction false} OrphanStaysInRoundZero(run: Run) returns (id: EventID)
    requires FreshRun(run) && !KnownRun(run)
    requires forall e :: e in run ==> e.id !in e.data.parents
    ensures id in After(run).events && After(run).events[id].parents != [] && After(run).events[id].round == 0
    decreases |run|
  {
    var init, last := run[..|run| - 1], run[|run| - 1];
    RunContent(init);
    AddEventShape(After(init), last.id, last.data);
    assert run == init + [last];
    if !KnownRun(init) {
      id := OrphanStaysInRoundZero(init);
    } else {
      id := last.id;
      var p :| p in last.data.parents && p !in Ids(init);
      assert p !in After(init).events[id := last.data];
    }
  }

  /** No event of a known run is its own parent. */
  lemma {:induction false} NoSelfParent(run: Run, e: Entry)
    requires KnownRun(run) && e in run
    ensures e.id !in e.data.parents
    decreases |run|
  {
    var init, last := run[..|run| - 1], run[|run| - 1];
    assert run == init + [last];
    if e in init {
      NoSelfParent(init, e);
    }
  }

  lemma SameEntriesSameMembers(run1: Run, run2: Run, e: Entry)
    requires Entries(run1) == Entries(run2)
    ensures e in run1 <==> e in run2
  {
    assert e in run1 <==> e in Entries(run1);
    assert e in run2 <==> e in Entries(run2);
  }

  /**
   * Exact confluence: whatever order a node inserts the events of a legal run in, it ends in the state of the
   * legal run if and only if every parent comes before its children and no insertion undercuts a recorded witness.
   */
  lemma ConfluenceExact(run1: Run, run2: Run)
    requires FreshRun(run1) && LegalRun(run2) && Entries(run1) == Entries(run2)
    ensures After(run1) == After(run2) <==> KnownRun(run1) && NoUndercut(run1)
  {
    KnownIsFresh(run2);
    RunSettles(run2);
    if !KnownRun(run1) {
      forall e | e in run1
        ensures e.id !in e.data.parents
      {
        SameEntriesSameMembers(run1, run2, e);
        NoSelfParent(run2, e);
      }
      var id := OrphanStaysInRoundZero(run1);
      if id in After(run2).events {
        RoundZeroIsParentless(run2, id);
      }
    } else {
      SettledExactly(run1);
      if NoUndercut(run1) {
        SameEvents(run1, run2);
        TableExact(run1);
        TableExact(run2);
      }
    }
  }

  const GENESIS := Entry(1, NewEventData("a", [], 0, 1))

  lemma RunOfTwo(x: Entry, y: Entry)
    requires x.id != y.id && Unassigned(x.data) && Unassigned(y.data)
    ensures FreshRun([x, y])
    ensures After([x, y]) == AddEvent(AddEvent(EMPTY_DAG, x.id, x.data), y.id, y.data)
  {
    assert [x, y][..1] == [x];
    assert [x][..0] == [];
    assert After([x]) == AddEvent(EMPTY_DAG, x.id, x.data);
  }

  lemma RunOfThree(x: Entry, y: Entry, z: Entry)
    requires x.id != y.id && x.id != z.id && y.id != z.id
    requires Unassigned(x.data) && Unassigned(y.data) && Unassigned(z.data)
    ensures FreshRun([x, y, z])
    ensures After([x, y, z]) == AddEvent(AddEvent(AddEvent(EMPTY_DAG, x.id, x.data), y.id, y.data), z.id, z.data)
  {
    assert [x, y, z][..2] == [x, y];
    RunOfTwo(x, y);
  }

  lemma GenesisAlone()
    ensures AddEvent(EMPTY_DAG, 1, GENESIS.data) ==
      DagState(map[1 := GENESIS.data.(isRoot := true)], map[0 := RoundInfo({1}, {1}, {}, {})])
  {
    AddEventShape(EMPTY_DAG, 1, GENESIS.data);
    assert EMPTY_ROUND.witnesses + {1} == {1};
    var d := AddEvent(EMPTY_DAG, 1, GENESIS.data);
    assert d.events[1] == GENESIS.data.(isRoot := true);
    assert d.rounds == map[0 := RoundInfo({1}, {1}, {}, {})];
  }

  /** An event on top of one root is placed one round above it. */
  lemma PlacedOnOneRoot(events: EventMap, e: EventData, p: EventID)
    requires e.parents == [p] && p in events && events[p].isRoot
    ensures NextRound(events, e.parents) == events[p].round + 1
  {
    assert [p][..0] == [];
    assert MaxRound(events, [p]) == events[p].round;
  }

  /** An instance of the first half of the condition: a child before its parent stays in round 0. */
  lemma MissingParentBreaksConfluence(child: Entry)
    requires child == Entry(2, NewEventData("b", [1], 1, 2))
    ensures LegalRun([GENESIS, child]) && FreshRun([child, GENESIS]) && !KnownRun([child, GENESIS])
    ensures Entries([GENESIS, child]) == Entries([child, GENESIS])
    ensures 2 in After([GENESIS, child]).events && 2 in After([child, GENESIS]).events
    ensures After([GENESIS, child]).events[2].round == 1 && After([child, GENESIS]).events[2].round == 0
  {
    RunOfTwo(GENESIS, child);
    RunOfTwo(child, GENESIS);
    GenesisAlone();
    PlacedOnOneRoot(map[1 := GENESIS.data.(isRoot := true), 2 := child.data], child.data, 1);
    assert 1 in child.data.parents;
    assert AddEvent(EMPTY_DAG, 2, child.data) == DagState(map[2 := child.data], map[]);
    KnownOfTwo(child);
    assert "a"[0] != "b"[0];
    assert LamportOrdered([GENESIS, child]);
    assert [child, GENESIS][..1] == [child];
    assert !KnownRun([child]) by {
      assert [child][..0] == [];
      assert 1 !in Ids([]);
    }
  }

  /** An instance of the second half: two events of one creator against their Lamport order both become witnesses. */
  lemma LamportOrderMatters(early: Entry, late: Entry)
    requires early == Entry(2, NewEventData("b", [1], 1, 2)) && late == Entry(3, NewEventData("b", [1], 2, 2))
    ensures LegalRun([GENESIS, early, late]) && KnownRun([GENESIS, late, early]) && !NoUndercut([GENESIS, late, early])
    ensures Entries([GENESIS, early, late]) == Entries([GENESIS, late, early])
    ensures 3 in After([GENESIS, early, late]).events && 3 in After([GENESIS, late, early]).events
    ensures !After([GENESIS, early, late]).events[3].isRoot && After([GENESIS, late, early]).events[3].isRoot
  {
    RunOfThree(GENESIS, early, late);
    RunOfThree(GENESIS, late, early);
    KnownOfThree(early, late);
    KnownOfThree(late, early);
    GenesisAlone();
    TwoOnGenesis(early, late);
    TwoOnGenesis(late, early);
    assert "a"[0] != "b"[0];
    assert LamportOrdered([GENESIS, early, late]);
    ConfluenceExact([GENESIS, late, early], [GENESIS, early, late]);
  }

  lemma KnownOfTwo(y: Entry)
    requires y.id != 1 && Unassigned(y.data) && y.data.parents == [1]
    ensures KnownRun([GENESIS, y]) && Ids([GENESIS, y]) == {1, y.id}
  {
    assert [GENESIS, y][..1] == [GENESIS];
    assert [GENESIS][..0] == [];
    assert Ids([]) == {};
    assert KnownRun([GENESIS]);
    assert GENESIS in [GENESIS] && GENESIS in [GENESIS, y];
    assert Ids([GENESIS]) == {1};
    IdsSplit([GENESIS, y]);
  }

  lemma KnownOfThree(y: Entry, z: Entry)
    requires y.id != 1 && z.id != 1 && y.id != z.id && Unassigned(y.data) && Unassigned(z.data)
    requires y.data.parents == [1] && z.data.parents == [1]
    ensures KnownRun([GENESIS, y, z])
  {
    assert [GENESIS, y, z][..2] == [GENESIS, y];
    KnownOfTwo(y);
  }

  lemma TwoOnGenesis(y: Entry, z: Entry)
    requires y.id != 1 && z.id != 1 && y.id != z.id && Unassigned(y.data) && Unassigned(z.data)
    requires y.data.parents == [1] && z.data.parents == [1]
    requires y.data.creator == z.data.creator == "b"
    ensures var d := AddEvent(AddEvent(AddEvent(EMPTY_DAG, 1, GENESIS.data), y.id, y.data), z.id, z.data);
      d.events.Keys == {1, y.id, z.id} &&
      d.events[y.id].isRoot && (d.events[z.id].isRoot <==> z.data.lamport <= y.data.lamport)
  {
    GenesisAlone();
    var d1 := AddEvent(EMPTY_DAG, 1, GENESIS.data);
    var d2 := AddEvent(d1, y.id, y.data);
    var d3 := AddEvent(d2, z.id, z.data);
    AddEventShape(d1, y.id, y.data);
    AddEventShape(d2, z.id, z.data);
    AddEventSettles(d1, y.id, y.data);
    AddEventSettles(d2, z.id, z.data);
    PlacedOnOneRoot(d2.events, d2.events[y.id], 1);
    PlacedOnOneRoot(d3.events, d3.events[z.id], 1);
    assert SettledAt(d2.events, y.id) && SettledAt(d3.events, z.id);
    assert "a"[0] != "b"[0];
  }
}
