/** The DAG state as a value, and what AddEvent and AssignRound do to it (src/dag.go). */
module DagSpec {
  import opened Events
  import opened Graph

  // The key sets of the four event tables a round keeps.
  datatype RoundInfo = RoundInfo(
    witnesses: set<EventID>,
    roots: set<EventID>,
    clothos: set<EventID>,
    atropos: set<EventID>)

  const EMPTY_ROUND := RoundInfo({}, {}, {}, {})

  type EventMap = map<EventID, EventData>
  type RoundTable = map<nat, RoundInfo>
  datatype DagState = DagState(events: EventMap, rounds: RoundTable)

  const EMPTY_DAG := DagState(map[], map[])

  function Parents(events: EventMap): Graph {
    map id | id in events :: events[id].parents
  }

  predicate Known(events: EventMap, ids: seq<EventID>) {
    forall p :: p in ids ==> p in events
  }

  function MaxRound(events: EventMap, ids: seq<EventID>): nat
    requires Known(events, ids)
  {
    if ids == [] then 0
    else
      var last := events[ids[|ids| - 1]].round;
      var before := MaxRound(events, ids[..|ids| - 1]);
      if last > before then last else before
  }

  predicate AllRoots(events: EventMap, ids: seq<EventID>)
    requires Known(events, ids)
  {
    forall p :: p in ids ==> events[p].isRoot
  }

  /** The round of an event with these parents. */
  function NextRound(events: EventMap, ids: seq<EventID>): nat
    requires Known(events, ids)
  {
    if ids == [] then 0 else MaxRound(events, ids) + if AllRoots(events, ids) then 1 else 0
  }

  /** No event of this creator in this round has a smaller Lamport value. */
  predicate FirstInRound(events: EventMap, creator: string, round: nat, lamport: uint64) {
    forall o :: o in events ==> !(events[o].creator == creator && events[o].round == round && events[o].lamport < lamport)
  }

  /** Event id with its round set, before the witness test. */
  function Placed(events: EventMap, id: EventID): EventData
    requires id in events && Known(events, events[id].parents)
  {
    events[id].(round := NextRound(events, events[id].parents))
  }

  /** Event id enters the witness and root tables: it has no parents or passes the witness test. */
  predicate BecomesRoot(events: EventMap, id: EventID)
    requires id in events && Known(events, events[id].parents)
  {
    var e := Placed(events, id);
    e.parents == [] || FirstInRound(events[id := e], e.creator, e.round, e.lamport)
  }

  predicate TwoThirds(part: nat, whole: nat) {
    3 * part >= 2 * whole
  }

  /** a sees b: they share a round, or a lies one round above b and descends from it. */
  ghost predicate CanSee(events: EventMap, a: EventID, b: EventID) {
    a in events && b in events &&
    (events[a].round == events[b].round ||
     (events[a].round == events[b].round + 1 && Ancestor(Parents(events), b, a)))
  }

  function WithRound(rounds: RoundTable, r: nat): RoundTable {
    if r in rounds then rounds else rounds[r := EMPTY_ROUND]
  }

  function Register(rounds: RoundTable, r: nat, id: EventID): RoundTable {
    var t := WithRound(rounds, r);
    t[r := t[r].(witnesses := t[r].witnesses + {id}, roots := t[r].roots + {id})]
  }

  /** AssignRound on a stored event; nothing happens while a parent is missing. */
  function AssignRound(d: DagState, id: EventID): DagState
    requires id in d.events
  {
    if !Known(d.events, d.events[id].parents) then d
    else
      var e := Placed(d.events, id);
      if BecomesRoot(d.events, id)
      then DagState(d.events[id := e.(isRoot := true)], Register(d.rounds, e.round, id))
      else DagState(d.events[id := e], d.rounds)
  }

  /** AddEvent: a stored id is refused, any other event is stored and then assigned a round. */
  function AddEvent(d: DagState, id: EventID, e: EventData): DagState {
    if id in d.events then d
    else AssignRound(DagState(d.events[id := e], d.rounds), id)
  }

  // ---------- runs: sequences of insertions into an empty DAG ----------

  datatype Entry = Entry(id: EventID, data: EventData)
  type Run = seq<Entry>

  function After(run: Run): DagState {
    if run == [] then EMPTY_DAG
    else
      var last := run[|run| - 1];
      AddEvent(After(run[..|run| - 1]), last.id, last.data)
  }

  ghost function Ids(run: Run): set<EventID> {
    set e | e in run :: e.id
  }

  ghost function Entries(run: Run): set<Entry> {
    set e | e in run
  }

  /** Each entry carries a new id and an event nobody has assigned a round to. */
  ghost predicate FreshRun(run: Run) {
    run != [] ==>
      var init, last := run[..|run| - 1], run[|run| - 1];
      FreshRun(init) && last.id !in Ids(init) && Unassigned(last.data)
  }

  /** A fresh run in which every parent is inserted before its children. */
  ghost predicate KnownRun(run: Run) {
    run != [] ==>
      var init, last := run[..|run| - 1], run[|run| - 1];
      KnownRun(init) && last.id !in Ids(init) && Unassigned(last.data) &&
      forall p :: p in last.data.parents ==> p in Ids(init)
  }

  /** The Lamport values of each creator never decrease along the run. */
  ghost predicate LamportOrdered(run: Run) {
    forall i, j :: 0 <= i < j < |run| && run[i].data.creator == run[j].data.creator ==>
      run[i].data.lamport <= run[j].data.lamport
  }

  /** The Lamport values of each creator strictly increase along the run. */
  ghost predicate LamportIncreasing(run: Run) {
    forall i, j :: 0 <= i < j < |run| && run[i].data.creator == run[j].data.creator ==>
      run[i].data.lamport < run[j].data.lamport
  }

  /** A legal insertion order: parents first, each creator in Lamport order. */
  ghost predicate LegalRun(run: Run) {
    KnownRun(run) && LamportOrdered(run)
  }
}
