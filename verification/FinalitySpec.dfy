/** What FinalizeEvents does to a DAG state, and why the result does not depend on map iteration order. */
module FinalitySpec {
  import opened Events
  import opened Graph
  import opened DagSpec
  import opened Median
  import opened Sets

  const FINALITY_DELAY := 2

  ghost function FamousWitnesses(d: DagState, r: nat): set<EventID> {
    if r in d.rounds
    then set w | w in d.rounds[r].witnesses && w in d.events && d.events[w].isFamous == Some(true)
    else {}
  }

  /** The witnesses of a set that descend from c. */
  ghost function VotersAmong(d: DagState, c: EventID, witnesses: set<EventID>): set<EventID> {
    set w | w in witnesses && w in d.events && Ancestor(Parents(d.events), c, w)
  }

  /** The famous witnesses of round r that descend from c. */
  ghost function Voters(d: DagState, c: EventID, r: nat): set<EventID> {
    VotersAmong(d, c, FamousWitnesses(d, r))
  }

  /** int(float64(n) * 2/3). */
  function Required(n: nat): nat {
    2 * n / 3
  }

  /** The finality test of c against a set of famous witnesses. */
  ghost predicate PassesAmong(d: DagState, c: EventID, witnesses: set<EventID>) {
    c in d.events && d.events[c].isClotho && d.events[c].isFamous == Some(true) &&
    witnesses != {} && |VotersAmong(d, c, witnesses)| >= Required(|witnesses|)
  }

  /** The finality test of c as a Clotho of round r. */
  ghost predicate Passes(d: DagState, c: EventID, r: nat) {
    PassesAmong(d, c, FamousWitnesses(d, r + FINALITY_DELAY))
  }

  /** The Lamport values of a set of events, as a multiset. */
  ghost function LamportsOf(events: EventMap, ids: set<EventID>): multiset<uint64>
    requires ids <= events.Keys
  {
    if ids == {} then multiset{}
    else
      var x :| x in ids;
      LamportsOf(events, ids - {x}) + multiset{events[x].lamport}
  }

  lemma {:induction false} LamportsAdd(events: EventMap, ids: set<EventID>, x: EventID)
    requires ids <= events.Keys && x in events && x !in ids
    ensures LamportsOf(events, ids + {x}) == LamportsOf(events, ids) + multiset{events[x].lamport}
    decreases ids
  {
    var all := ids + {x};
    var y :| y in all && LamportsOf(events, all) == LamportsOf(events, all - {y}) + multiset{events[y].lamport};
    if y == x {
      assert all - {y} == ids;
    } else {
      assert all - {y} == (ids - {y}) + {x};
      LamportsAdd(events, ids - {y}, x);
      assert ids == (ids - {y}) + {y};
      LamportsAdd(events, ids - {y}, y);
    }
  }

  lemma {:induction false} LamportsFrame(a: EventMap, b: EventMap, ids: set<EventID>)
    requires ids <= a.Keys && ids <= b.Keys
    requires forall x :: x in ids ==> a[x].lamport == b[x].lamport
    ensures LamportsOf(a, ids) == LamportsOf(b, ids)
    decreases ids
  {
    if ids != {} {
      var x :| x in ids;
      assert ids == (ids - {x}) + {x};
      LamportsFrame(a, b, ids - {x});
      LamportsAdd(a, ids - {x}, x);
      LamportsAdd(b, ids - {x}, x);
    }
  }

  /** One more witness votes for c if it descends from c. */
  lemma VotersAdd(d: DagState, c: EventID, witnesses: set<EventID>, w: EventID)
    requires w in d.events && w !in witnesses
    ensures var before, after := VotersAmong(d, c, witnesses), VotersAmong(d, c, witnesses + {w});
      if Ancestor(Parents(d.events), c, w)
      then |after| == |before| + 1 && LamportsOf(d.events, after) == LamportsOf(d.events, before) + multiset{d.events[w].lamport}
      else after == before
  {
    var before, after := VotersAmong(d, c, witnesses), VotersAmong(d, c, witnesses + {w});
    if Ancestor(Parents(d.events), c, w) {
      assert after == before + {w};
      LamportsAdd(d.events, before, w);
    } else {
      assert after == before;
    }
  }

  /** The median Lamport value of the voters for c among the witnesses. */
  ghost function TimeAmong(d: DagState, c: EventID, witnesses: set<EventID>): uint64 {
    MedianOf(LamportsOf(d.events, VotersAmong(d, c, witnesses)))
  }

  /** The consensus time of c when finalised for round r. */
  ghost function FinalTime(d: DagState, c: EventID, r: nat): uint64 {
    TimeAmong(d, c, FamousWitnesses(d, r + FINALITY_DELAY))
  }

  lemma {:induction false} LamportsSize(events: EventMap, ids: set<EventID>)
    requires ids <= events.Keys
    ensures |LamportsOf(events, ids)| == |ids|
    decreases ids
  {
    if ids != {} {
      var x :| x in ids;
      assert ids == (ids - {x}) + {x};
      LamportsSize(events, ids - {x});
      LamportsAdd(events, ids - {x}, x);
    }
  }

  lemma {:induction false} LamportsSubset(events: EventMap, some: set<EventID>, ids: set<EventID>)
    requires some <= ids <= events.Keys
    ensures LamportsOf(events, some) <= LamportsOf(events, ids)
    decreases ids
  {
    if some != ids {
      var x :| x in ids && x !in some;
      assert ids == (ids - {x}) + {x};
      LamportsSubset(events, some, ids - {x});
      LamportsAdd(events, ids - {x}, x);
    }
  }

  lemma {:induction false} LamportsMembers(events: EventMap, ids: set<EventID>, lo: uint64, hi: uint64)
    requires ids <= events.Keys && forall x :: x in ids ==> lo <= events[x].lamport <= hi
    ensures forall t :: t in LamportsOf(events, ids) ==> lo <= t <= hi
    decreases ids
  {
    if ids != {} {
      var x :| x in ids;
      assert ids == (ids - {x}) + {x};
      LamportsMembers(events, ids - {x}, lo, hi);
      LamportsAdd(events, ids - {x}, x);
    }
  }

  /** A minority of voters cannot move the consensus time out of the range the others vote for. */
  lemma FinalTimeRobust(d: DagState, c: EventID, r: nat, honest: set<EventID>, lo: uint64, hi: uint64)
    requires honest <= Voters(d, c, r + FINALITY_DELAY) && 2 * |honest| > |Voters(d, c, r + FINALITY_DELAY)|
    requires forall w :: w in honest ==> lo <= d.events[w].lamport <= hi
    requires NoWrap(LamportsOf(d.events, Voters(d, c, r + FINALITY_DELAY)))
    ensures lo <= FinalTime(d, c, r) <= hi
  {
    var voters := Voters(d, c, r + FINALITY_DELAY);
    LamportsSize(d.events, voters);
    LamportsSize(d.events, honest);
    LamportsSubset(d.events, honest, voters);
    LamportsMembers(d.events, honest, lo, hi);
    MedianRobust(LamportsOf(d.events, voters), LamportsOf(d.events, honest), lo, hi);
  }

  /** Lamport values below 2^63 never wrap the median. */
  lemma SmallTimesRobust(d: DagState, c: EventID, r: nat, honest: set<EventID>, lo: uint64, hi: uint64)
    requires honest <= Voters(d, c, r + FINALITY_DELAY) && 2 * |honest| > |Voters(d, c, r + FINALITY_DELAY)|
    requires forall w :: w in honest ==> lo <= d.events[w].lamport <= hi
    requires forall w :: w in Voters(d, c, r + FINALITY_DELAY) ==> d.events[w].lamport < 0x8000_0000_0000_0000
    ensures lo <= FinalTime(d, c, r) <= hi
  {
    var voters := Voters(d, c, r + FINALITY_DELAY);
    LamportsMembers(d.events, voters, 0, 0x7fff_ffff_ffff_ffff);
    SmallValuesDoNotWrap(LamportsOf(d.events, voters));
    FinalTimeRobust(d, c, r, honest, lo, hi);
  }

  /** The required count, without rounding: one vote more would be more than two thirds. */
  lemma RequiredMeans(n: nat, votes: nat)
    ensures votes >= Required(n) <==> 3 * (votes + 1) > 2 * n
  {
  }

  ghost function WithLamport(events: EventMap, ids: set<EventID>, t: uint64): set<EventID>
    requires ids <= events.Keys
  {
    set x | x in ids && events[x].lamport == t
  }

  lemma WithLamportAdd(events: EventMap, ids: set<EventID>, x: EventID, t: uint64)
    requires ids <= events.Keys && x in events && x !in ids
    ensures |WithLamport(events, ids + {x}, t)| == |WithLamport(events, ids, t)| + if events[x].lamport == t then 1 else 0
  {
    if events[x].lamport == t {
      assert WithLamport(events, ids + {x}, t) == WithLamport(events, ids, t) + {x};
    } else {
      assert WithLamport(events, ids + {x}, t) == WithLamport(events, ids, t);
    }
  }

  /** A Lamport value is listed once for each of the events that has it. */
  lemma {:induction false} LamportsCount(events: EventMap, ids: set<EventID>, t: uint64)
    requires ids <= events.Keys
    ensures LamportsOf(events, ids)[t] == |WithLamport(events, ids, t)|
    decreases ids
  {
    if ids == {} {
      assert WithLamport(events, ids, t) == {};
    } else {
      var x :| x in ids;
      assert ids == (ids - {x}) + {x};
      LamportsCount(events, ids - {x}, t);
      LamportsAdd(events, ids - {x}, x);
      WithLamportAdd(events, ids - {x}, x, t);
    }
  }

  // ---------- the tests, spelt out ----------

  /**
   * An event passes for round r if it is a famous Clotho, some of the recorded witnesses of round r + 2 are famous, and
   * of these enough descend from the event: with one more they would be more than two thirds.
   */
  lemma PassesMeans(d: DagState, c: EventID, r: nat)
    ensures var famous := set w | r + 2 in d.rounds && w in d.rounds[r + 2].witnesses && w in d.events && d.events[w].isFamous == Some(true);
      var voters := set w | w in famous && Ancestor(Parents(d.events), c, w);
      Passes(d, c, r) <==> (
        c in d.events && d.events[c].isClotho && d.events[c].isFamous == Some(true) &&
        famous != {} && 3 * (|voters| + 1) > 2 * |famous|)
  {
    var famous := set w | r + 2 in d.rounds && w in d.rounds[r + 2].witnesses && w in d.events && d.events[w].isFamous == Some(true);
    var voters := set w | w in famous && Ancestor(Parents(d.events), c, w);
    assert famous == FamousWitnesses(d, r + 2);
    assert voters == Voters(d, c, r + 2);
    RequiredMeans(|famous|, |voters|);
  }

  /** It validates for round r by the same count, if it was received in round r + 2. An empty list of witnesses will do. */
  lemma ValidatesMeans(d: DagState, c: EventID, r: nat)
    ensures var famous := set w | r + 2 in d.rounds && w in d.rounds[r + 2].witnesses && w in d.events && d.events[w].isFamous == Some(true);
      var voters := set w | w in famous && Ancestor(Parents(d.events), c, w);
      Validates(d, c, r) <==> (
        c in d.events && d.events[c].isClotho && d.events[c].isFamous == Some(true) &&
        d.events[c].atropos != NO_EVENT && d.events[c].roundReceived == r + 2 && 3 * (|voters| + 1) > 2 * |famous|)
  {
    var famous := set w | r + 2 in d.rounds && w in d.rounds[r + 2].witnesses && w in d.events && d.events[w].isFamous == Some(true);
    var voters := set w | w in famous && Ancestor(Parents(d.events), c, w);
    assert famous == FamousWitnesses(d, r + 2);
    assert voters == Voters(d, c, r + 2);
    RequiredMeans(|famous|, |voters|);
  }

  // ---------- the loop over the rounds ----------

  // The lists of a round that finality reads: its Clothos and its famous witnesses.
  datatype RoundLists = RoundLists(clothos: set<EventID>, famous: set<EventID>)
  type Tables = map<nat, RoundLists>

  ghost function TablesOf(d: DagState): Tables {
    map r | r in d.rounds :: RoundLists(d.rounds[r].clothos, FamousWitnesses(d, r))
  }

  ghost function ClothosIn(tables: Tables, r: nat): set<EventID> {
    if r in tables then tables[r].clothos else {}
  }

  ghost function FamousIn(tables: Tables, r: nat): set<EventID> {
    if r in tables then tables[r].famous else {}
  }

  // What one turn of the loop reads: its round, the Clothos of that round, the famous witnesses two rounds later.
  datatype Turn = Turn(round: nat, clothos: set<EventID>, witnesses: set<EventID>)

  /** The turn for round r when nothing stale is read. */
  ghost function Actual(d: DagState, r: nat): Turn {
    Turn(r, ClothosIn(TablesOf(d), r), FamousIn(TablesOf(d), r + FINALITY_DELAY))
  }

  ghost function Turns(d: DagState, order: seq<nat>): seq<Turn> {
    seq(|order|, i requires 0 <= i < |order| => Actual(d, order[i]))
  }

  ghost function RoundsOf(turns: seq<Turn>): seq<nat> {
    seq(|turns|, i requires 0 <= i < |turns| => turns[i].round)
  }

  /** c is a not yet finalised Clotho of the turn's round that passes the finality test. */
  ghost predicate ReadyAt(d: DagState, c: EventID, t: Turn) {
    c in t.clothos && PassesAmong(d, c, t.witnesses) && d.events[c].atropos == NO_EVENT
  }

  ghost predicate Ready(d: DagState, c: EventID, r: nat) {
    ReadyAt(d, c, Actual(d, r))
  }

  ghost function Finalised(d: DagState, c: EventID, t: Turn): EventData
    requires c in d.events
  {
    d.events[c].(atropos := c, roundReceived := t.round + FINALITY_DELAY, medianTime := TimeAmong(d, c, t.witnesses))
  }

  ghost function ReceivedIn(chosen: map<EventID, Turn>, q: nat): set<EventID> {
    set c | c in chosen && chosen[c].round + FINALITY_DELAY == q
  }

  /** d after finalising each event of chosen in the turn chosen for it. */
  ghost function Apply(d: DagState, chosen: map<EventID, Turn>): DagState {
    DagState(
      map c | c in d.events :: if c in chosen then Finalised(d, c, chosen[c]) else d.events[c],
      map q | q in d.rounds :: d.rounds[q].(atropos := d.rounds[q].atropos + ReceivedIn(chosen, q)))
  }

  /** The first turn in which c is ready. */
  ghost function FirstReady(d: DagState, turns: seq<Turn>, c: EventID): Option<Turn> {
    if turns == [] then None
    else if ReadyAt(d, c, turns[0]) then Some(turns[0])
    else FirstReady(d, turns[1..], c)
  }

  ghost function Chosen(d: DagState, turns: seq<Turn>): map<EventID, Turn> {
    map c | c in d.events && FirstReady(d, turns, c).Some? :: FirstReady(d, turns, c).value
  }

  /** The state after these turns of the loop, whatever they read. */
  ghost function Outcome(d: DagState, turns: seq<Turn>): DagState {
    Apply(d, Chosen(d, turns))
  }

  /** The state after FinalizeEvents when the round table is iterated in this order and nothing stale is read. */
  ghost function FinalState(d: DagState, order: seq<nat>): DagState {
    Outcome(d, Turns(d, order))
  }

  ghost predicate AllReady(d: DagState, chosen: map<EventID, Turn>) {
    forall c :: c in chosen ==> ReadyAt(d, c, chosen[c])
  }

  // ---------- finalising changes no vote ----------

  /** A ready event is received in a round that is in the table: ensureRound never adds one. */
  lemma ReadyRoundExists(d: DagState, c: EventID, r: nat)
    requires Ready(d, c, r)
    ensures r + FINALITY_DELAY in d.rounds
  {
  }

  lemma ApplyKeepsVoters(d: DagState, chosen: map<EventID, Turn>, c: EventID, witnesses: set<EventID>)
    ensures VotersAmong(Apply(d, chosen), c, witnesses) == VotersAmong(d, c, witnesses)
  {
    assert Parents(Apply(d, chosen).events) == Parents(d.events);
  }

  /** Finalising events changes nothing that a turn reads. */
  lemma ApplyKeepsTables(d: DagState, chosen: map<EventID, Turn>)
    ensures TablesOf(Apply(d, chosen)) == TablesOf(d)
  {
    var now := Apply(d, chosen);
    forall r | r in d.rounds
      ensures FamousWitnesses(now, r) == FamousWitnesses(d, r)
    {
    }
  }

  lemma ApplyKeepsPasses(d: DagState, chosen: map<EventID, Turn>, c: EventID, witnesses: set<EventID>)
    ensures PassesAmong(Apply(d, chosen), c, witnesses) <==> PassesAmong(d, c, witnesses)
    ensures TimeAmong(Apply(d, chosen), c, witnesses) == TimeAmong(d, c, witnesses)
  {
    ApplyKeepsVoters(d, chosen, c, witnesses);
    LamportsFrame(d.events, Apply(d, chosen).events, VotersAmong(d, c, witnesses));
  }

  /** After some finalisations an event is ready exactly when it was before and is not among them. */
  lemma ReadyAfterApply(d: DagState, chosen: map<EventID, Turn>, c: EventID, t: Turn)
    requires AllReady(d, chosen) && NO_EVENT !in d.events
    ensures ReadyAt(Apply(d, chosen), c, t) <==> ReadyAt(d, c, t) && c !in chosen
  {
    ApplyKeepsPasses(d, chosen, c, t.witnesses);
  }

  lemma ApplyOneMoreEvent(d: DagState, chosen: map<EventID, Turn>, c: EventID, t: Turn)
    requires c in d.events && c !in chosen
    ensures Apply(d, chosen[c := t]).events == Apply(d, chosen).events[c := Finalised(Apply(d, chosen), c, t)]
  {
    ApplyKeepsPasses(d, chosen, c, t.witnesses);
    var now := Apply(d, chosen).events;
    assert now[c] == d.events[c];
    assert Finalised(Apply(d, chosen), c, t) == Finalised(d, c, t);
    var next := Apply(d, chosen[c := t]).events;
    forall x | x in next
      ensures next[x] == now[c := Finalised(d, c, t)][x]
    {
    }
  }

  lemma ApplyOneMoreRound(d: DagState, chosen: map<EventID, Turn>, c: EventID, t: Turn)
    requires t.round + FINALITY_DELAY in d.rounds && c !in chosen
    ensures var q, now := t.round + FINALITY_DELAY, Apply(d, chosen).rounds;
      Apply(d, chosen[c := t]).rounds == now[q := now[q].(atropos := now[q].atropos + {c})]
  {
    var q, now, next := t.round + FINALITY_DELAY, Apply(d, chosen).rounds, Apply(d, chosen[c := t]).rounds;
    var goal := now[q := now[q].(atropos := now[q].atropos + {c})];
    forall p | p in d.rounds
      ensures next[p] == goal[p]
    {
      assert ReceivedIn(chosen[c := t], p) == ReceivedIn(chosen, p) + if p == q then {c} else {};
      assert d.rounds[p].atropos + ReceivedIn(chosen[c := t], p) == goal[p].atropos;
    }
  }

  /** d with the final fields of c set and c in the Atropos table of the round. */
  ghost function Written(d: DagState, c: EventID, received: nat, median: uint64): DagState
    requires c in d.events && received in d.rounds
  {
    DagState(
      d.events[c := d.events[c].(atropos := c, roundReceived := received, medianTime := median)],
      d.rounds[received := d.rounds[received].(atropos := d.rounds[received].atropos + {c})])
  }

  /** The state change of convertToAtropos in a turn. */
  ghost function Convert(d: DagState, c: EventID, t: Turn): DagState
    requires c in d.events && t.round + FINALITY_DELAY in d.rounds
  {
    Written(d, c, t.round + FINALITY_DELAY, TimeAmong(d, c, t.witnesses))
  }

  /** One more finalisation. */
  lemma ApplyOneMore(d: DagState, chosen: map<EventID, Turn>, c: EventID, t: Turn)
    requires ReadyAt(d, c, t) && t.round + FINALITY_DELAY in d.rounds && c !in chosen
    ensures t.round + FINALITY_DELAY in Apply(d, chosen).rounds && c in Apply(d, chosen).events
    ensures Apply(d, chosen[c := t]) == Convert(Apply(d, chosen), c, t)
  {
    ApplyOneMoreEvent(d, chosen, c, t);
    ApplyOneMoreRound(d, chosen, c, t);
  }

  // ---------- the finalised set ----------

  lemma {:induction false} FirstReadySound(d: DagState, turns: seq<Turn>, c: EventID)
    ensures FirstReady(d, turns, c).Some? ==>
      FirstReady(d, turns, c).value in turns && ReadyAt(d, c, FirstReady(d, turns, c).value)
    ensures FirstReady(d, turns, c).None? ==> forall t :: t in turns ==> !ReadyAt(d, c, t)
    decreases |turns|
  {
    if turns != [] && !ReadyAt(d, c, turns[0]) {
      FirstReadySound(d, turns[1..], c);
      assert turns == [turns[0]] + turns[1..];
    }
  }

  lemma {:induction false} FirstReadyAppend(d: DagState, turns: seq<Turn>, t: Turn, c: EventID)
    ensures FirstReady(d, turns + [t], c) ==
      if FirstReady(d, turns, c).Some? then FirstReady(d, turns, c) else if ReadyAt(d, c, t) then Some(t) else None
    decreases |turns|
  {
    if turns == [] {
      assert turns + [t] == [t];
      assert [t][1..] == [];
    } else {
      assert (turns + [t])[1..] == turns[1..] + [t];
      FirstReadyAppend(d, turns[1..], t, c);
    }
  }

  /** The turns choose exactly the events ready in one of them. */
  lemma ChosenIsReady(d: DagState, turns: seq<Turn>)
    ensures AllReady(d, Chosen(d, turns))
    ensures forall c :: c in Chosen(d, turns) ==> Chosen(d, turns)[c] in turns
    ensures forall c, t :: t in turns && ReadyAt(d, c, t) ==> c in Chosen(d, turns)
  {
    forall c
      ensures c in Chosen(d, turns) ==> ReadyAt(d, c, Chosen(d, turns)[c]) && Chosen(d, turns)[c] in turns
      ensures forall t :: t in turns && ReadyAt(d, c, t) ==> c in Chosen(d, turns)
    {
      FirstReadySound(d, turns, c);
    }
  }

  /** FinalizeEvents finalises an event, in any iteration order, exactly if it is ready in some round. */
  lemma ChosenActual(d: DagState, order: seq<nat>, c: EventID)
    requires Lists(order, d.rounds.Keys)
    ensures var chosen := Chosen(d, Turns(d, order));
      (c in chosen <==> exists r :: Ready(d, c, r)) &&
      (c in chosen ==> chosen[c] == Actual(d, chosen[c].round) && Ready(d, c, chosen[c].round))
  {
    var turns := Turns(d, order);
    FirstReadySound(d, turns, c);
    if r :| Ready(d, c, r) {
      var i :| 0 <= i < |order| && order[i] == r;
      assert turns[i] == Actual(d, r);
      assert turns[i] in turns && ReadyAt(d, c, turns[i]);
    } else if c in Chosen(d, turns) {
      assert Ready(d, c, Chosen(d, turns)[c].round);
    }
  }

  lemma ReadyMeans(d: DagState, c: EventID, r: nat)
    ensures Ready(d, c, r) <==> r in d.rounds && c in d.rounds[r].clothos && Passes(d, c, r) && d.events[c].atropos == NO_EVENT
  {
  }

  /** The first round of the order in which an event is ready decides what becomes of it. */
  lemma {:induction false} FirstReadyRound(d: DagState, order: seq<nat>, c: EventID, i: nat)
    requires i < |order| && Ready(d, c, order[i]) && forall j :: 0 <= j < i ==> !Ready(d, c, order[j])
    ensures FirstReady(d, Turns(d, order), c) == Some(Actual(d, order[i]))
    decreases i
  {
    assert Turns(d, order)[0] == Actual(d, order[0]);
    assert Turns(d, order)[1..] == Turns(d, order[1..]);
    if i > 0 {
      assert !Ready(d, c, order[0]);
      FirstReadyRound(d, order[1..], c, i - 1);
    }
  }

  /** An event that is first ready in round r of the order becomes its own Atropos, received in r + 2 at the voters' median. */
  lemma FinalFields(d: DagState, order: seq<nat>, c: EventID, i: nat)
    requires i < |order| && Ready(d, c, order[i]) && forall j :: 0 <= j < i ==> !Ready(d, c, order[j])
    ensures var r := order[i]; var famous := FamousWitnesses(d, r + 2);
      FinalState(d, order).events[c] == d.events[c].(atropos := c, roundReceived := r + 2,
        medianTime := MedianOf(LamportsOf(d.events, set w | w in famous && Ancestor(Parents(d.events), c, w))))
  {
    FirstReadyRound(d, order, c, i);
    var famous := FamousWitnesses(d, order[i] + 2);
    assert (set w | w in famous && Ancestor(Parents(d.events), c, w)) == Voters(d, c, order[i] + 2);
  }

  /** Any other event stays as it is, and the tables change by the newly finalised events in the Atropos lists only. */
  lemma FinalFrame(d: DagState, order: seq<nat>)
    ensures forall c :: c in d.events && (forall i :: 0 <= i < |order| ==> !Ready(d, c, order[i])) ==>
      FinalState(d, order).events[c] == d.events[c]
    ensures FinalState(d, order).events.Keys == d.events.Keys && FinalState(d, order).rounds.Keys == d.rounds.Keys
    ensures forall q :: q in d.rounds ==> var now := FinalState(d, order).rounds[q];
      now == d.rounds[q].(atropos := now.atropos) &&
      forall c :: c in now.atropos <==> (c in d.rounds[q].atropos ||
        exists i :: 0 <= i < |order| && order[i] + 2 == q && Ready(d, c, order[i]) && forall j :: 0 <= j < i ==> !Ready(d, c, order[j]))
  {
    forall c | forall i :: 0 <= i < |order| ==> !Ready(d, c, order[i])
      ensures c !in Chosen(d, Turns(d, order))
    {
      FirstReadySound(d, Turns(d, order), c);
      forall t | t in Turns(d, order)
        ensures !ReadyAt(d, c, t)
      {
        var i :| 0 <= i < |Turns(d, order)| && Turns(d, order)[i] == t;
        assert !Ready(d, c, order[i]);
      }
    }
    forall q, c | q in d.rounds
      ensures c in ReceivedIn(Chosen(d, Turns(d, order)), q) <==>
        exists i :: 0 <= i < |order| && order[i] + 2 == q && Ready(d, c, order[i]) && forall j :: 0 <= j < i ==> !Ready(d, c, order[j])
    {
      ReceivedMeans(d, order, q, c);
    }
  }

  lemma ReceivedMeans(d: DagState, order: seq<nat>, q: nat, c: EventID)
    ensures c in ReceivedIn(Chosen(d, Turns(d, order)), q) <==>
      exists i :: 0 <= i < |order| && order[i] + 2 == q && Ready(d, c, order[i]) && forall j :: 0 <= j < i ==> !Ready(d, c, order[j])
  {
    if k :| 0 <= k < |order| && Ready(d, c, order[k]) {
      var i := LeastReady(d, order, c, k);
      FirstReadyRound(d, order, c, i);
    } else {
      FirstReadySound(d, Turns(d, order), c);
      forall t | t in Turns(d, order)
        ensures !ReadyAt(d, c, t)
      {
        var i :| 0 <= i < |Turns(d, order)| && Turns(d, order)[i] == t;
        assert !Ready(d, c, order[i]);
      }
    }
  }

  lemma {:induction false} LeastReady(d: DagState, order: seq<nat>, c: EventID, k: nat) returns (i: nat)
    requires k < |order| && Ready(d, c, order[k])
    ensures i <= k && Ready(d, c, order[i]) && forall j :: 0 <= j < i ==> !Ready(d, c, order[j])
    decreases k
  {
    if j :| 0 <= j < k && Ready(d, c, order[j]) {
      i := LeastReady(d, order, c, j);
    } else {
      i := k;
    }
  }

  /** The finalised events after the call are the old ones and the ready ones, whatever the order. */
  lemma FinalisedSet(d: DagState, order: seq<nat>, c: EventID)
    requires Lists(order, d.rounds.Keys) && c in d.events && NO_EVENT !in d.events
    ensures FinalState(d, order).events[c].atropos != NO_EVENT <==>
      d.events[c].atropos != NO_EVENT || exists r :: Ready(d, c, r)
  {
    ChosenActual(d, order, c);
  }

  // ---------- order independence ----------

  /** No event is ready in two rounds. This holds in particular if each event is a Clotho of at most one round. */
  ghost predicate ReadyOnce(d: DagState) {
    forall c, r, q :: Ready(d, c, r) && Ready(d, c, q) ==> r == q
  }

  lemma SameChoice(d: DagState, order1: seq<nat>, order2: seq<nat>)
    requires ReadyOnce(d) && Lists(order1, d.rounds.Keys) && Lists(order2, d.rounds.Keys)
    ensures Chosen(d, Turns(d, order1)) == Chosen(d, Turns(d, order2))
  {
    var a, b := Chosen(d, Turns(d, order1)), Chosen(d, Turns(d, order2));
    forall c
      ensures c in a <==> c in b
      ensures c in a ==> a[c] == b[c]
    {
      ChosenActual(d, order1, c);
      ChosenActual(d, order2, c);
    }
  }

  lemma IterationOrderVisible(d: DagState, c: EventID, r: nat, q: nat) returns (order1: seq<nat>, order2: seq<nat>)
    requires Ready(d, c, r) && Ready(d, c, q) && r != q
    ensures Lists(order1, d.rounds.Keys) && Lists(order2, d.rounds.Keys)
    ensures FinalState(d, order1) != FinalState(d, order2)
  {
    order1 := ListingFrom(d.rounds.Keys, r);
    order2 := ListingFrom(d.rounds.Keys, q);
    assert Turns(d, order1)[0] == Actual(d, r) && Turns(d, order2)[0] == Actual(d, q);
    assert Chosen(d, Turns(d, order1))[c].round == r && Chosen(d, Turns(d, order2))[c].round == q;
    assert FinalState(d, order1).events[c].roundReceived == r + FINALITY_DELAY;
    assert FinalState(d, order2).events[c].roundReceived == q + FINALITY_DELAY;
  }

  /** FinalizeEvents is independent of the iteration order of the round table exactly when no event is ready twice. */
  lemma OrderIndependence(d: DagState)
    ensures ReadyOnce(d) <==>
      forall order1, order2 :: Lists(order1, d.rounds.Keys) && Lists(order2, d.rounds.Keys) ==>
        FinalState(d, order1) == FinalState(d, order2)
  {
    if ReadyOnce(d) {
      forall order1, order2 | Lists(order1, d.rounds.Keys) && Lists(order2, d.rounds.Keys)
        ensures FinalState(d, order1) == FinalState(d, order2)
      {
        SameChoice(d, order1, order2);
      }
    } else {
      var c, r, q :| Ready(d, c, r) && Ready(d, c, q) && r != q;
      var order1, order2 := IterationOrderVisible(d, c, r, q);
    }
  }

  /** An event listed as a Clotho of one round only is ready at most once. */
  lemma OneClothoRoundSuffices(d: DagState)
    requires forall c, r, q ::
      r in d.rounds && q in d.rounds && c in d.rounds[r].clothos && c in d.rounds[q].clothos ==> r == q
    ensures ReadyOnce(d)
  {
    forall c, r, q | Ready(d, c, r) && Ready(d, c, q)
      ensures r == q
    {
      assert c in Actual(d, r).clothos && c in Actual(d, q).clothos;
    }
  }

  /** The Clothos of every round are events of that round, as the selector leaves them. */
  ghost predicate OwnRound(d: DagState) {
    forall c, r :: r in d.rounds && c in d.rounds[r].clothos ==> c in d.events && d.events[c].round == r
  }

  /** With such lists no event is ready twice, so the iteration order does not matter. */
  lemma OwnRoundSuffices(d: DagState)
    requires OwnRound(d)
    ensures ReadyOnce(d)
  {
    forall c, r, q | Ready(d, c, r) && Ready(d, c, q)
      ensures r == q
    {
      assert c in d.rounds[r].clothos && c in d.rounds[q].clothos;
    }
  }

  /** A second call, in any order, changes nothing. */
  lemma FinalizeIdempotent(d: DagState, order1: seq<nat>, order2: seq<nat>)
    requires Lists(order1, d.rounds.Keys) && Lists(order2, d.rounds.Keys) && NO_EVENT !in d.events
    ensures FinalState(FinalState(d, order1), order2) == FinalState(d, order1)
  {
    var once := FinalState(d, order1);
    forall c, r
      ensures !Ready(once, c, r)
    {
      NothingStaysReady(d, order1, c, r);
    }
    NothingReadyNoChange(once, order2);
  }

  lemma NothingStaysReady(d: DagState, order: seq<nat>, c: EventID, r: nat)
    requires Lists(order, d.rounds.Keys) && NO_EVENT !in d.events
    ensures !Ready(FinalState(d, order), c, r)
  {
    var chosen := Chosen(d, Turns(d, order));
    ChosenIsReady(d, Turns(d, order));
    ChosenActual(d, order, c);
    ApplyKeepsTables(d, chosen);
    ReadyAfterApply(d, chosen, c, Actual(d, r));
    assert Ready(d, c, r) ==> c in chosen;
  }

  lemma NothingReadyNoChange(d: DagState, order: seq<nat>)
    requires forall c, r :: !Ready(d, c, r)
    ensures FinalState(d, order) == d
  {
    forall c
      ensures c !in Chosen(d, Turns(d, order))
    {
      FirstReadySound(d, Turns(d, order), c);
      if t :| t in Turns(d, order) && ReadyAt(d, c, t) {
        assert Ready(d, c, t.round);
      }
    }
    assert Chosen(d, Turns(d, order)) == map[];
    ApplyNothing(d);
  }

  lemma ApplyNothing(d: DagState)
    ensures Apply(d, map[]) == d
  {
    forall q | q in d.rounds
      ensures d.rounds[q].atropos + ReceivedIn(map[], q) == d.rounds[q].atropos
    {
      assert ReceivedIn(map[], q) == {};
    }
  }

  // ---------- validation and quorums ----------

  /** The test ValidateFinality makes of an event object, stored or not, against a set of famous witnesses. */
  ghost predicate ValidatesObject(d: DagState, c: EventID, e: EventData, r: nat, witnesses: set<EventID>) {
    e.atropos != NO_EVENT && e.isClotho && e.isFamous == Some(true) && e.roundReceived == r + FINALITY_DELAY &&
    |VotersAmong(d, c, witnesses)| >= Required(|witnesses|)
  }

  ghost predicate ValidatesAmong(d: DagState, c: EventID, r: nat, witnesses: set<EventID>) {
    c in d.events && ValidatesObject(d, c, d.events[c], r, witnesses)
  }

  ghost predicate Validates(d: DagState, c: EventID, r: nat) {
    ValidatesAmong(d, c, r, FamousWitnesses(d, r + FINALITY_DELAY))
  }

  /** Every newly finalised event validates for the round it was finalised for, and for no other. */
  lemma NewlyFinalisedValidates(d: DagState, order: seq<nat>, c: EventID, r: nat)
    requires Lists(order, d.rounds.Keys) && c in d.events && NO_EVENT !in d.events
    requires d.events[c].atropos == NO_EVENT && FinalState(d, order).events[c].atropos != NO_EVENT
    ensures c in Chosen(d, Turns(d, order))
    ensures Validates(FinalState(d, order), c, r) <==> r == Chosen(d, Turns(d, order))[c].round
  {
    ChosenActual(d, order, c);
    ChosenValidates(d, Chosen(d, Turns(d, order)), c, r);
  }

  lemma ChosenValidates(d: DagState, chosen: map<EventID, Turn>, c: EventID, r: nat)
    requires c in chosen && chosen[c] == Actual(d, chosen[c].round) && Ready(d, c, chosen[c].round) && c != NO_EVENT
    ensures Validates(Apply(d, chosen), c, r) <==> r == chosen[c].round
  {
    assert Apply(d, chosen).events[c].roundReceived == chosen[c].round + FINALITY_DELAY;
    ApplyKeepsTables(d, chosen);
    assert FamousWitnesses(Apply(d, chosen), r + FINALITY_DELAY) == FamousIn(TablesOf(d), r + FINALITY_DELAY);
    ApplyKeepsVoters(d, chosen, c, chosen[c].witnesses);
  }

  /** Two events finalised against the same n famous witnesses share at least 2*floor(2n/3) - n of them as voters. */
  lemma FinalisedShareVoters(d: DagState, a: EventID, b: EventID, r: nat)
    requires Passes(d, a, r) && Passes(d, b, r)
    ensures var q := r + FINALITY_DELAY; var n := |FamousWitnesses(d, q)|;
      |Voters(d, a, q) * Voters(d, b, q)| >= 2 * Required(n) - n &&
      (n == 3 || n >= 5 ==> Voters(d, a, q) * Voters(d, b, q) != {})
  {
    var q := r + FINALITY_DELAY;
    Overlap(Voters(d, a, q), Voters(d, b, q), FamousWitnesses(d, q));
  }

  /** With a single famous witness the visibility test is empty: a famous Clotho is final even if that witness does not see it. */
  lemma LoneWitnessDecidesNothing(d: DagState, c: EventID, r: nat)
    requires |FamousWitnesses(d, r + FINALITY_DELAY)| == 1 && c in d.events
    ensures Passes(d, c, r) <==> d.events[c].isClotho && d.events[c].isFamous == Some(true)
  {
  }
}
