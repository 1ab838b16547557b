/** DAGs that insertion really produces: runs in which every creator makes one event with at most one parent. */
module Samples {
  import opened Events
  import opened DagSpec
  import opened RoundTheory
  import opened InsertionOrder
  import opened FinalitySpec
  import opened Agreement

  /** The state is what some legal run of insertions and some verdicts leave. */
  ghost predicate Produced(d: DagState) {
    exists run, v :: LegalRun(run) && d == Decorate(After(run), v)
  }

  // Event i + 1 has the parent up[i], or none if that is 0.
  type Forest = seq<nat>

  predicate ParentsFirst(up: Forest) {
    forall i :: 0 <= i < |up| ==> up[i] <= i
  }

  function Depth(up: Forest, i: nat): nat
    requires ParentsFirst(up) && i < |up|
    decreases i
  {
    if up[i] == 0 then 0 else Depth(up, up[i] - 1) + 1
  }

  /** The creator of the event, a different one for each. */
  function Name(id: EventID): (name: string)
    ensures |name| == id
  {
    seq(id, _ => 'n')
  }

  function ForestEvent(up: Forest, i: nat): EventData
    requires ParentsFirst(up) && i < |up|
  {
    NewEventData(Name(i + 1), if up[i] == 0 then [] else [up[i]], 0, Depth(up, i) + 1)
  }

  function ForestRun(up: Forest): Run
    requires ParentsFirst(up)
  {
    seq(|up|, i requires 0 <= i < |up| => Entry(i + 1, ForestEvent(up, i)))
  }

  lemma {:induction false} NumberedRunIsKnown(run: Run, m: nat)
    requires m <= |run|
    requires forall i :: 0 <= i < |run| ==> run[i].id == i + 1 && Unassigned(run[i].data)
    requires forall i, p :: 0 <= i < |run| && p in run[i].data.parents ==> 1 <= p <= i
    ensures KnownRun(run[..m])
    ensures forall x :: x in Ids(run[..m]) <==> 1 <= x <= m
    decreases m
  {
    if m > 0 {
      NumberedRunIsKnown(run, m - 1);
      assert run[..m][..m - 1] == run[..m - 1];
      IdsSplit(run[..m]);
    }
  }

  lemma ForestRunIsLegal(up: Forest)
    requires ParentsFirst(up)
    ensures LegalRun(ForestRun(up))
    ensures forall x :: x in Ids(ForestRun(up)) <==> 1 <= x <= |up|
  {
    var run := ForestRun(up);
    NumberedRunIsKnown(run, |run|);
    assert run[..|run|] == run;
    forall i, j | 0 <= i < j < |run| && run[i].data.creator == run[j].data.creator
      ensures run[i].data.lamport <= run[j].data.lamport
    {
    }
  }

  predicate InRange(lo: nat, size: nat, i: nat) {
    lo <= i < lo + size
  }

  function Range(lo: nat, size: nat): set<nat> {
    set i: nat | lo <= i < lo + size && InRange(lo, size, i)
  }

  lemma {:induction false} RangeSize(lo: nat, size: nat)
    ensures |Range(lo, size)| == size
    decreases size
  {
    if size > 0 {
      RangeSize(lo, size - 1);
      assert InRange(lo, size, lo + size - 1);
      forall i
        ensures i in Range(lo, size) <==> i in Range(lo, size - 1) || i == lo + size - 1
      {
        assert InRange(lo, size, i) <==> InRange(lo, size - 1, i) || i == lo + size - 1;
      }
      assert Range(lo, size) == Range(lo, size - 1) + {lo + size - 1};
    } else {
      assert forall i :: i !in Range(lo, 0);
    }
  }

  lemma ForestIds(up: Forest)
    requires ParentsFirst(up)
    ensures After(ForestRun(up)).events.Keys == Range(1, |up|)
  {
    ForestRunIsLegal(up);
    KnownIsFresh(ForestRun(up));
    RunContent(ForestRun(up));
  }

  /** The events of the forest with rounds equal to their depths, all of them roots. */
  lemma {:induction false} ForestPlaces(up: Forest, i: nat)
    requires ParentsFirst(up) && i < |up|
    ensures var events := After(ForestRun(up)).events;
      i + 1 in events && events[i + 1] == ForestEvent(up, i).(round := Depth(up, i), isRoot := true)
    decreases i
  {
    var run := ForestRun(up);
    var events := After(run).events;
    ForestRunIsLegal(up);
    ForestContent(up, i);
    RunSettles(run);
    assert SettledAt(events, i + 1);
    if up[i] != 0 {
      ForestPlaces(up, up[i] - 1);
      PlacedOnOneRoot(events, events[i + 1], up[i]);
    }
    var e := events[i + 1];
    forall o | o in events && events[o].creator == e.creator
      ensures !(events[o].lamport < e.lamport)
    {
      ForestContent(up, o - 1);
    }
  }

  lemma ForestContent(up: Forest, i: nat)
    requires ParentsFirst(up) && i < |up|
    ensures var events := After(ForestRun(up)).events;
      (forall x :: x in events <==> 1 <= x <= |up|) &&
      events[i + 1] == ForestEvent(up, i).(round := events[i + 1].round, isRoot := events[i + 1].isRoot)
  {
    var run := ForestRun(up);
    ForestRunIsLegal(up);
    KnownIsFresh(run);
    RunContent(run);
    assert run[i] in run;
  }

  // ---------- with verdicts ----------

  function Decorated(up: Forest, v: Verdicts): DagState
    requires ParentsFirst(up)
  {
    Decorate(After(ForestRun(up)), v)
  }

  /** Everything finality reads of an event of the forest. */
  lemma ForestVerdicts(up: Forest, v: Verdicts, i: nat)
    requires ParentsFirst(up) && i < |up|
    ensures var d := Decorated(up, v);
      i + 1 in d.events && d.events[i + 1].round == Depth(up, i) && d.events[i + 1].isRoot &&
      d.events[i + 1].parents == (if up[i] == 0 then [] else [up[i]]) &&
      d.events[i + 1].isFamous == (if i + 1 in v.famous then Some(v.famous[i + 1]) else None) &&
      (d.events[i + 1].isClotho <==> i + 1 in v.clothoFlags) && d.events[i + 1].atropos == NO_EVENT
  {
    ForestPlaces(up, i);
  }

  lemma ForestIsProduced(up: Forest, v: Verdicts)
    requires ParentsFirst(up)
    ensures Decorated(up, v).events.Keys == Range(1, |up|)
    ensures Produced(Decorated(up, v))
  {
    ForestRunIsLegal(up);
    ForestIds(up);
  }

  function AtDepth(up: Forest, r: nat): set<EventID>
    requires ParentsFirst(up)
  {
    set x | x in Range(1, |up|) && Depth(up, x - 1) == r
  }

  lemma RootsMakeRounds(events: EventMap, r: nat)
    ensures r in RootRounds(events) <==> RootsOf(events, r) != {}
  {
    if r in RootRounds(events) {
      var x :| x in events && events[x].isRoot && events[x].round == r;
      assert x in RootsOf(events, r);
    }
    if x :| x in RootsOf(events, r) {
      assert events[x].round in RootRounds(events);
    }
  }

  lemma ForestRoots(up: Forest, r: nat)
    requires ParentsFirst(up)
    ensures RootsOf(After(ForestRun(up)).events, r) == AtDepth(up, r)
  {
    var events := After(ForestRun(up)).events;
    ForestIds(up);
    forall x | x in Range(1, |up|)
      ensures events[x].isRoot && events[x].round == Depth(up, x - 1)
    {
      ForestPlaces(up, x - 1);
    }
  }

  /** The witnesses of round r are the events of depth r, its Clothos the ones listed by the verdicts. */
  lemma ForestTable(up: Forest, v: Verdicts, r: nat)
    requires ParentsFirst(up)
    ensures var d := Decorated(up, v);
      (r in d.rounds <==> AtDepth(up, r) != {}) &&
      (r in d.rounds ==>
        d.rounds[r].witnesses == AtDepth(up, r) && d.rounds[r].clothos == if r in v.clothos then v.clothos[r] else {})
  {
    var events := After(ForestRun(up)).events;
    ForestRunIsLegal(up);
    KnownIsFresh(ForestRun(up));
    TableExact(ForestRun(up));
    ForestRoots(up, r);
    RootsMakeRounds(events, r);
  }

  /** With every event famous, the famous witnesses of a round are the events of that depth. */
  lemma ForestFamous(up: Forest, v: Verdicts, r: nat)
    requires ParentsFirst(up) && forall x :: x in Range(1, |up|) ==> x in v.famous && v.famous[x]
    ensures FamousWitnesses(Decorated(up, v), r) == AtDepth(up, r)
  {
    ForestTable(up, v, r);
    forall x | x in AtDepth(up, r)
      ensures x in Decorated(up, v).events && Decorated(up, v).events[x].isFamous == Some(true)
    {
      ForestVerdicts(up, v, x - 1);
    }
  }

  // ---------- what is used of such a state ----------

  function Everyone(ids: set<EventID>): map<EventID, bool> {
    map id | id in ids :: true
  }

  ghost predicate EventGrown(d: DagState, up: Forest, v: Verdicts, x: EventID)
    requires ParentsFirst(up)
  {
    x in Range(1, |up|) ==>
      x in d.events && d.events[x].parents == (if up[x - 1] == 0 then [] else [up[x - 1]]) &&
      d.events[x].isFamous == Some(true) && (d.events[x].isClotho <==> x in v.clothoFlags) && d.events[x].atropos == NO_EVENT
  }

  ghost predicate TableGrown(d: DagState, up: Forest, v: Verdicts, r: nat)
    requires ParentsFirst(up)
  {
    (r in d.rounds <==> AtDepth(up, r) != {}) && FamousWitnesses(d, r) == AtDepth(up, r) &&
    (r in d.rounds ==> d.rounds[r].clothos == if r in v.clothos then v.clothos[r] else {})
  }

  /** The forest, inserted, with these verdicts and every event famous. */
  ghost predicate Grown(d: DagState, up: Forest, v: Verdicts)
    requires ParentsFirst(up)
  {
    Produced(d) && d.events.Keys == Range(1, |up|) &&
    (forall x {:trigger EventGrown(d, up, v, x)} :: EventGrown(d, up, v, x)) &&
    (forall r {:trigger TableGrown(d, up, v, r)} :: TableGrown(d, up, v, r))
  }

  lemma EventGrows(up: Forest, v: Verdicts, x: EventID)
    requires ParentsFirst(up) && v.famous == Everyone(Range(1, |up|))
    ensures EventGrown(Decorated(up, v), up, v, x)
  {
    if x in Range(1, |up|) {
      ForestVerdicts(up, v, x - 1);
    }
  }

  lemma TableGrows(up: Forest, v: Verdicts, r: nat)
    requires ParentsFirst(up) && v.famous == Everyone(Range(1, |up|))
    ensures TableGrown(Decorated(up, v), up, v, r)
  {
    ForestTable(up, v, r);
    ForestFamous(up, v, r);
  }

  lemma Grow(up: Forest, v: Verdicts) returns (d: DagState)
    requires ParentsFirst(up) && v.famous == Everyone(Range(1, |up|))
    ensures Grown(d, up, v)
  {
    d := Decorated(up, v);
    ForestIsProduced(up, v);
    forall x: EventID
      ensures EventGrown(d, up, v, x)
    {
      EventGrows(up, v, x);
    }
    forall r: nat
      ensures TableGrown(d, up, v, r)
    {
      TableGrows(up, v, r);
    }
  }
}
