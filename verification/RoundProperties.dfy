/** Consequences of the round assignment: monotone and gap-free rounds, one table for scan and store, heights. */
module RoundProperties {
  import opened Events
  import opened Graph
  import opened DagSpec
  import opened RoundTheory

  lemma {:induction false} MaxRoundBounds(events: EventMap, ids: seq<EventID>)
    requires Known(events, ids)
    ensures forall p :: p in ids ==> events[p].round <= MaxRound(events, ids)
    ensures ids != [] ==> exists p :: p in ids && events[p].round == MaxRound(events, ids)
    decreases |ids|
  {
    if ids != [] {
      var init, last := ids[..|ids| - 1], ids[|ids| - 1];
      assert ids == init + [last];
      MaxRoundBounds(events, init);
      assert last in ids;
      if init != [] {
        var p :| p in init && events[p].round == MaxRound(events, init);
        assert p in ids;
      }
    }
  }

  /** What holds of one event when its parents were inserted before it, whatever the Lamport values. */
  ghost predicate PlacedAt(events: EventMap, id: EventID)
    requires id in events
  {
    Known(events, events[id].parents) && events[id].round == NextRound(events, events[id].parents) &&
    (events[id].parents == [] ==> events[id].isRoot)
  }

  ghost predicate AllPlaced(events: EventMap) {
    forall id {:trigger PlacedAt(events, id)} :: id in events ==> PlacedAt(events, id)
  }

  lemma {:induction false} KnownRunPlaced(run: Run)
    requires KnownRun(run)
    ensures AllPlaced(After(run).events)
    decreases |run|
  {
    if run != [] {
      var init, last := run[..|run| - 1], run[|run| - 1];
      KnownRunPlaced(init);
      KnownIsFresh(init);
      RunContent(init);
      AddEventSettles(After(init), last.id, last.data);
      AddEventShape(After(init), last.id, last.data);
      var a, b := After(init).events, After(run).events;
      forall id | id in a
        ensures PlacedAt(b, id)
      {
        assert PlacedAt(a, id);
        NextRoundFrame(a, b, a[id].parents);
      }
    }
  }

  lemma KnownRunGraph(run: Run)
    requires KnownRun(run)
    ensures ParentsKnown(Parents(After(run).events))
  {
    KnownRunPlaced(run);
    var events := After(run).events;
    forall x, y | x in events && y in events[x].parents
      ensures y in events
    {
      assert PlacedAt(events, x);
    }
  }

  // ---------- monotone rounds ----------

  lemma {:induction false} RoundMonotoneOnPath(events: EventMap, b: EventID, p: seq<EventID>, a: EventID)
    requires AllPlaced(events) && b in events && IsPath(Parents(events), b, p, a)
    ensures a in events && events[a].round <= events[b].round
    decreases |p|
  {
    if p != [] {
      assert PlacedAt(events, b);
      MaxRoundBounds(events, events[b].parents);
      RoundMonotoneOnPath(events, p[0], p[1..], a);
    }
  }

  /** An ancestor never has a larger round than its descendant. */
  lemma RoundMonotone(run: Run, a: EventID, b: EventID)
    requires KnownRun(run) && b in After(run).events
    requires Ancestor(Parents(After(run).events), a, b)
    ensures a in After(run).events && After(run).events[a].round <= After(run).events[b].round
  {
    var events := After(run).events;
    KnownRunPlaced(run);
    var p :| IsPath(Parents(events), b, p, a);
    RoundMonotoneOnPath(events, b, p, a);
  }

  // ---------- the round and the root mark of an event, spelt out ----------

  /**
   * An event above roots only lies one round above its highest parent; above any non-root it stays in the round of its
   * highest parent.
   */
  lemma RoundFromParents(run: Run, b: EventID)
    requires KnownRun(run) && b in After(run).events && After(run).events[b].parents != []
    ensures var events := After(run).events; var parents := events[b].parents;
      (forall p :: p in parents ==> p in events) &&
      ((forall p :: p in parents ==> events[p].isRoot) ==>
        (forall p :: p in parents ==> events[p].round + 1 <= events[b].round) &&
        exists p :: p in parents && events[p].round + 1 == events[b].round) &&
      ((exists p :: p in parents && !events[p].isRoot) ==>
        (forall p :: p in parents ==> events[p].round <= events[b].round) &&
        exists p :: p in parents && events[p].round == events[b].round)
  {
    var events := After(run).events;
    KnownRunPlaced(run);
    assert PlacedAt(events, b);
    MaxRoundBounds(events, events[b].parents);
  }

  /** The event inserted last is a root if it has no parents or no stored event of its creator and round has a smaller Lamport value. */
  lemma RootMarkOfNewest(run: Run)
    requires KnownRun(run) && run != []
    ensures var events, id := After(run).events, run[|run| - 1].id;
      id in events &&
      (events[id].isRoot <==> events[id].parents == [] || forall o ::
        o in events && events[o].creator == events[id].creator && events[o].round == events[id].round ==>
        events[id].lamport <= events[o].lamport)
  {
    var init, last := run[..|run| - 1], run[|run| - 1];
    KnownIsFresh(init);
    RunContent(init);
    AddEventShape(After(init), last.id, last.data);
    AddEventSettles(After(init), last.id, last.data);
    assert SettledAt(After(run).events, last.id);
  }

  /** In a legal run the same holds of every event. */
  lemma RootMarkOfAny(run: Run, id: EventID)
    requires LegalRun(run) && id in After(run).events
    ensures var events := After(run).events;
      events[id].isRoot <==> events[id].parents == [] || forall o ::
        o in events && events[o].creator == events[id].creator && events[o].round == events[id].round ==>
        events[id].lamport <= events[o].lamport
  {
    RunSettles(run);
    assert SettledAt(After(run).events, id);
  }

  /** An event with a parent that is not stored is stored as it is, and the tables stay as they are. */
  lemma MissingParentWaits(d: DagState, id: EventID, e: EventData, p: EventID)
    requires id !in d.events && p in e.parents && p !in d.events && p != id
    ensures AddEvent(d, id, e) == DagState(d.events[id := e], d.rounds)
  {
    assert p !in d.events[id := e];
  }

  // ---------- gap-free rounds ----------

  /** One more insertion keeps every earlier event and its ancestors. */
  lemma InsertKeepsAncestry(run: Run)
    requires KnownRun(run) && run != []
    ensures var init := run[..|run| - 1];
      var a, b := After(init).events, After(run).events;
      (forall id :: id in a ==> id in b && b[id] == a[id]) &&
      (forall x, y :: y in a ==> (Ancestor(Parents(a), x, y) <==> Ancestor(Parents(b), x, y)))
  {
    var init, last := run[..|run| - 1], run[|run| - 1];
    KnownIsFresh(init);
    RunContent(init);
    AddEventShape(After(init), last.id, last.data);
    KnownRunGraph(init);
    var a, b := After(init).events, After(run).events;
    forall x, y | y in a
      ensures Ancestor(Parents(a), x, y) <==> Ancestor(Parents(b), x, y)
    {
      AncestryUnchanged(Parents(a), Parents(b), x, y);
    }
  }

  /** An event of round r has an ancestor in every round up to r. */
  lemma {:induction false} GapFree(run: Run, b: EventID, r: nat) returns (a: EventID)
    requires KnownRun(run) && b in After(run).events && r <= After(run).events[b].round
    ensures a in After(run).events && After(run).events[a].round == r
    ensures Ancestor(Parents(After(run).events), a, b)
    decreases |run|
  {
    var init, last := run[..|run| - 1], run[|run| - 1];
    var before, after := After(init).events, After(run).events;
    InsertKeepsAncestry(run);
    if b in before {
      a := GapFree(init, b, r);
    } else if r == after[b].round {
      AncestorSelf(Parents(after), b);
      a := b;
    } else {
      KnownIsFresh(init);
      RunContent(init);
      AddEventShape(After(init), last.id, last.data);
      KnownRunPlaced(run);
      assert PlacedAt(after, b);
      MaxRoundBounds(after, after[b].parents);
      var p :| p in after[b].parents && after[p].round == MaxRound(after, after[b].parents);
      a := GapFree(init, p, r);
      AncestorStep(Parents(after), a, p, b);
    }
  }

  /** Every round that has an event has a root: the first event inserted in a round is one. */
  lemma {:induction false} EventRoundHasRoot(run: Run, b: EventID)
    requires KnownRun(run) && b in After(run).events
    ensures RootsOf(After(run).events, After(run).events[b].round) != {}
    decreases |run|
  {
    var init, last := run[..|run| - 1], run[|run| - 1];
    var before, after := After(init).events, After(run).events;
    var r := after[b].round;
    InsertKeepsAncestry(run);
    if o :| o in before && before[o].round == r {
      EventRoundHasRoot(init, o);
      var w :| w in RootsOf(before, r);
      assert w in RootsOf(after, r);
    } else {
      KnownIsFresh(init);
      RunContent(init);
      AddEventShape(After(init), last.id, last.data);
      AddEventSettles(After(init), last.id, last.data);
      assert b == last.id;
      assert SettledAt(after, b);
      assert b in RootsOf(after, r);
    }
  }

  /** The table has an entry for exactly the rounds 0..max, and no entry is empty. */
  lemma TableCoversRounds(run: Run, r: nat)
    requires KnownRun(run)
    ensures r in After(run).rounds <==> exists b :: b in After(run).events && r <= After(run).events[b].round
    ensures r in After(run).rounds ==> After(run).rounds[r].witnesses != {}
    ensures r in After(run).rounds ==> After(run).rounds[r].witnesses == After(run).rounds[r].roots
  {
    KnownIsFresh(run);
    TableExact(run);
    var events := After(run).events;
    if r in After(run).rounds {
      var w :| w in events && events[w].isRoot && events[w].round == r;
      assert w in RootsOf(events, r);
    }
    if b :| b in events && r <= events[b].round {
      var a := GapFree(run, b, r);
      EventRoundHasRoot(run, a);
      var w :| w in RootsOf(events, r);
      assert r in RootRounds(events);
    }
  }

  // ---------- round 0 and the witness scan ----------

  /** Round 0 holds exactly the events without parents. */
  lemma {:induction false} RoundZeroIsParentless(run: Run, b: EventID)
    requires KnownRun(run) && b in After(run).events
    ensures After(run).events[b].round == 0 <==> After(run).events[b].parents == []
    decreases |run|
  {
    var init, last := run[..|run| - 1], run[|run| - 1];
    var before, after := After(init).events, After(run).events;
    InsertKeepsAncestry(run);
    KnownRunPlaced(run);
    assert PlacedAt(after, b);
    if b in before {
      RoundZeroIsParentless(init, b);
    } else {
      KnownIsFresh(init);
      RunContent(init);
      AddEventShape(After(init), last.id, last.data);
      var ps := after[b].parents;
      MaxRoundBounds(after, ps);
      if MaxRound(after, ps) == 0 {
        forall p | p in ps
          ensures after[p].isRoot
        {
          RoundZeroIsParentless(init, p);
          assert PlacedAt(after, p);
        }
      }
    }
  }

  /** FameVoting.getWitnesses: the re-scan of all events for the witnesses of a round. */
  ghost function ScanWitnesses(events: EventMap, r: nat): set<EventID> {
    set id | id in events && events[id].round == r &&
             (r == 0 || FirstInRound(events, events[id].creator, r, events[id].lamport))
  }

  /** The witnesses recorded incrementally are the ones a scan of the finished DAG finds. */
  lemma ScanAgreesWithTable(run: Run, r: nat)
    requires LegalRun(run)
    ensures ScanWitnesses(After(run).events, r) ==
      if r in After(run).rounds then After(run).rounds[r].witnesses else {}
  {
    var events := After(run).events;
    RunSettles(run);
    KnownIsFresh(run);
    TableExact(run);
    forall id | id in events && events[id].round == r
      ensures events[id].isRoot <==> id in ScanWitnesses(events, r)
    {
      assert SettledAt(events, id);
      RoundZeroIsParentless(run, id);
    }
    assert ScanWitnesses(events, r) == RootsOf(events, r);
    if r !in After(run).rounds {
      assert forall id :: id in RootsOf(events, r) ==> r in RootRounds(events);
    }
  }

  // ---------- one witness per creator and round ----------

  lemma {:induction false} LeastLamport(events: EventMap, s: set<EventID>) returns (w: EventID)
    requires s != {} && s <= events.Keys
    ensures w in s && forall o :: o in s ==> events[w].lamport <= events[o].lamport
    decreases s
  {
    var x :| x in s;
    if s == {x} {
      w := x;
    } else {
      var v := LeastLamport(events, s - {x});
      w := if events[x].lamport < events[v].lamport then x else v;
      assert forall o :: o in s ==> o == x || o in s - {x};
    }
  }

  ghost function EventsOf(events: EventMap, creator: string, r: nat): set<EventID> {
    set id | id in events && events[id].creator == creator && events[id].round == r
  }

  /** Distinct events of one creator in a strictly ordered run have distinct Lamport values. */
  lemma LamportDistinct(run: Run, x: EventID, y: EventID)
    requires FreshRun(run) && LamportIncreasing(run)
    requires x in After(run).events && y in After(run).events && x != y
    requires After(run).events[x].creator == After(run).events[y].creator
    ensures After(run).events[x].lamport != After(run).events[y].lamport
  {
    var i := EntryOf(run, x);
    var j := EntryOf(run, y);
    assert i < j || j < i;
  }

  /** The position at which a stored event was inserted. */
  lemma EntryOf(run: Run, x: EventID) returns (i: nat)
    requires FreshRun(run) && x in After(run).events
    ensures i < |run| && run[i].id == x && SameContent(After(run).events[x], run[i].data)
  {
    RunContent(run);
    var e :| e in run && e.id == x;
    i :| 0 <= i < |run| && run[i] == e;
  }

  /** A creator with events in a round r > 0 has exactly one witness there: its event of least Lamport value. */
  lemma OneWitnessPerCreator(run: Run, creator: string, r: nat) returns (w: EventID)
    requires LegalRun(run) && LamportIncreasing(run) && r > 0
    requires EventsOf(After(run).events, creator, r) != {}
    ensures r in After(run).rounds
    ensures EventsOf(After(run).events, creator, r) * After(run).rounds[r].witnesses == {w}
    ensures forall o :: o in EventsOf(After(run).events, creator, r) && o != w ==>
      After(run).events[w].lamport < After(run).events[o].lamport
  {
    var events := After(run).events;
    var mine := EventsOf(events, creator, r);
    KnownIsFresh(run);
    w := LeastLamport(events, mine);
    forall o | o in mine && o != w
      ensures events[w].lamport < events[o].lamport
    {
      LamportDistinct(run, w, o);
    }
    ScanAgreesWithTable(run, r);
    assert w in ScanWitnesses(events, r);
    forall o | o in mine && o in ScanWitnesses(events, r)
      ensures o == w
    {
    }
  }

  // ---------- heights ----------

  /** The largest height among the parents that are stored, 0 if there is none. */
  function MaxHeight(events: EventMap, ids: seq<EventID>): nat {
    if ids == [] then 0
    else
      var last, before := ids[|ids| - 1], MaxHeight(events, ids[..|ids| - 1]);
      if last in events && events[last].height > before then events[last].height else before
  }

  /** The height CreateAndAddEvent gives to an event with these parents. */
  function NextHeight(events: EventMap, ids: seq<EventID>): nat {
    MaxHeight(events, ids) + 1
  }

  lemma {:induction false} MaxHeightBounds(events: EventMap, ids: seq<EventID>)
    ensures forall p :: p in ids && p in events ==> events[p].height <= MaxHeight(events, ids)
    decreases |ids|
  {
    if ids != [] {
      assert ids == ids[..|ids| - 1] + [ids[|ids| - 1]];
      MaxHeightBounds(events, ids[..|ids| - 1]);
    }
  }

  /** The height of a new event: one above its highest stored parent, and 1 if no parent is stored. */
  lemma {:induction false} NextHeightIsLeast(events: EventMap, ids: seq<EventID>)
    ensures forall p :: p in ids && p in events ==> events[p].height + 1 <= NextHeight(events, ids)
    ensures NextHeight(events, ids) == 1 || exists p :: p in ids && p in events && events[p].height + 1 == NextHeight(events, ids)
    decreases |ids|
  {
    if ids != [] {
      var init, last := ids[..|ids| - 1], ids[|ids| - 1];
      assert ids == init + [last];
      NextHeightIsLeast(events, init);
      assert last in ids;
      if p :| p in init && p in events && events[p].height + 1 == NextHeight(events, init) {
        assert p in ids;
      }
    }
  }

  /** A known run in which CreateAndAddEvent chose the heights. */
  ghost predicate HeightRun(run: Run)
    decreases |run|
  {
    KnownRun(run) && (run != [] ==>
      var init, last := run[..|run| - 1], run[|run| - 1];
      HeightRun(init) && last.data.height == NextHeight(After(init).events, last.data.parents))
  }

  /** An event lies strictly above its parents and its round below its height. */
  lemma {:induction false} HeightFollowsParents(run: Run, b: EventID)
    requires HeightRun(run) && b in After(run).events
    ensures After(run).events[b].round < After(run).events[b].height
    ensures forall p :: p in After(run).events[b].parents ==>
      p in After(run).events && After(run).events[p].height < After(run).events[b].height
    decreases |run|
  {
    var init, last := run[..|run| - 1], run[|run| - 1];
    var before, after := After(init).events, After(run).events;
    InsertKeepsAncestry(run);
    if b in before {
      HeightFollowsParents(init, b);
    } else {
      KnownIsFresh(init);
      RunContent(init);
      AddEventShape(After(init), last.id, last.data);
      KnownRunPlaced(run);
      assert PlacedAt(after, b);
      var ps := after[b].parents;
      MaxHeightBounds(before, ps);
      MaxRoundBounds(after, ps);
      if ps != [] {
        var p :| p in ps && after[p].round == MaxRound(after, ps);
        HeightFollowsParents(init, p);
      }
    }
  }

  lemma {:induction false} HeightOnPath(run: Run, b: EventID, p: seq<EventID>, a: EventID)
    requires HeightRun(run) && b in After(run).events && IsPath(Parents(After(run).events), b, p, a) && p != []
    ensures a in After(run).events && After(run).events[a].height < After(run).events[b].height
    decreases |p|
  {
    HeightFollowsParents(run, b);
    if |p| > 1 {
      HeightOnPath(run, p[0], p[1..], a);
    }
  }

  /** Height strictly increases along ancestry. */
  lemma HeightIncreases(run: Run, a: EventID, b: EventID)
    requires HeightRun(run) && b in After(run).events && a != b
    requires Ancestor(Parents(After(run).events), a, b)
    ensures a in After(run).events && After(run).events[a].height < After(run).events[b].height
  {
    var p :| IsPath(Parents(After(run).events), b, p, a);
    HeightOnPath(run, b, p, a);
  }

  /** Ancestry among stored events is a partial order. */
  lemma AncestryIsPartialOrder(run: Run, a: EventID, b: EventID, c: EventID)
    requires HeightRun(run) && {a, b, c} <= After(run).events.Keys
    ensures var g := Parents(After(run).events);
      Ancestor(g, a, a) &&
      (Ancestor(g, a, b) && Ancestor(g, b, a) ==> a == b) &&
      (Ancestor(g, a, b) && Ancestor(g, b, c) ==> Ancestor(g, a, c))
  {
    var g := Parents(After(run).events);
    AncestorSelf(g, a);
    if Ancestor(g, a, b) && Ancestor(g, b, a) && a != b {
      HeightIncreases(run, a, b);
      HeightIncreases(run, b, a);
    }
    if Ancestor(g, a, b) && Ancestor(g, b, c) {
      AncestorTransitive(g, a, b, c);
    }
  }

  // ---------- assigning again ----------

  /** On the events of a legal run, AssignRound on any of them changes none, whatever the tables hold. */
  lemma ReassignKeepsEvents(run: Run, rounds: RoundTable, id: EventID)
    requires LegalRun(run) && id in After(run).events
    ensures AssignRound(DagState(After(run).events, rounds), id).events == After(run).events
  {
    var events := After(run).events;
    RunSettles(run);
    assert SettledAt(events, id);
    assert Placed(events, id) == events[id];
    assert events[id := events[id]] == events;
  }

  /** On the state of a legal run, AssignRound on any stored event changes nothing. */
  lemma ReassignIsIdle(run: Run, id: EventID)
    requires LegalRun(run) && id in After(run).events
    ensures AssignRound(After(run), id) == After(run)
  {
    var d := After(run);
    var e := d.events[id];
    ReassignKeepsEvents(run, d.rounds, id);
    RunSettles(run);
    KnownIsFresh(run);
    TableExact(run);
    assert SettledAt(d.events, id);
    assert Placed(d.events, id) == e;
    assert d.events[id := e] == d.events;
    if e.isRoot {
      assert e.round in RootRounds(d.events);
      assert id in RootsOf(d.events, e.round);
      assert d.rounds[e.round].witnesses + {id} == d.rounds[e.round].witnesses;
      assert d.rounds[e.round].roots + {id} == d.rounds[e.round].roots;
      assert Register(d.rounds, e.round, id) == d.rounds;
    }
  }
}
