/**
 * Exactly when a call of FinalizeEvents ends as if there were no cache: conditions on what the cache shows at the start
 * of the call, for every order in which the round table may be iterated and every eviction.
 */
module FreshCalls {
  import opened Events
  import opened DagSpec
  import opened Sets
  import opened FinalitySpec
  import opened FinalityCache
  import opened StaleReads

  /** The turns of one call that starts from d in view v. */
  ghost predicate Call(d: DagState, v: View, turns: seq<Turn>) {
    v.tables == TablesOf(d) && TurnsFrom(v, turns) && Lists(RoundsOf(turns), d.rounds.Keys)
  }

  /** The turn for round r that reads what the cache shows at the start. */
  ghost function SeenTurn(v: View, r: nat): Turn {
    Turn(r, SeenClothos(v, r), SeenWitnesses(v, r + FINALITY_DELAY))
  }

  /** An entry may be evicted during the call. */
  ghost predicate Evicts(v: View) {
    v.capacity <= |v.tables|
  }

  /**
   * What the contract of FinalizeEvents lets the turn for its round read: what the cache shows, or the tables if the
   * entry can be lost before, by eviction or because the turn for another round overwrites it.
   */
  ghost predicate CanRead(v: View, t: Turn) {
    var r, q := t.round, t.round + FINALITY_DELAY;
    (t.clothos == SeenClothos(v, r) ||
     (t.clothos == ClothosIn(v.tables, r) && (Evicts(v) || (r >= FINALITY_DELAY && r - FINALITY_DELAY in v.tables)))) &&
    (t.witnesses == SeenWitnesses(v, q) || (t.witnesses == FamousIn(v.tables, q) && (Evicts(v) || q in v.tables)))
  }

  lemma TurnsDiffer(turns: seq<Turn>, rounds: set<nat>, i: nat, j: nat)
    requires Lists(RoundsOf(turns), rounds) && i < |turns| && j < |turns| && i != j
    ensures turns[i].round != turns[j].round && turns[i].round in rounds
  {
    assert RoundsOf(turns)[i] == turns[i].round && RoundsOf(turns)[j] == turns[j].round;
  }

  /** Every turn of a call reads something it can read. */
  lemma TurnCanRead(d: DagState, v: View, turns: seq<Turn>, i: nat)
    requires Call(d, v, turns) && i < |turns|
    ensures CanRead(v, turns[i]) && turns[i].round in d.rounds
  {
    var t, before := turns[i], turns[..i];
    var q := t.round + FINALITY_DELAY;
    assert TurnAt(v, turns, i);
    assert RoundsOf(turns)[i] == t.round;
    if !Untouched(ReadBy(before), t.round) {
      var j := ReadEarlier(turns, i, t.round);
      TurnsDiffer(turns, d.rounds.Keys, j, i);
    }
    if !Untouched(ReadBy(before), q) {
      var j := ReadEarlier(turns, i, q);
      TurnsDiffer(turns, d.rounds.Keys, j, i);
    }
  }

  lemma ReadEarlier(turns: seq<Turn>, i: nat, r: nat) returns (j: nat)
    requires i <= |turns| && !Untouched(ReadBy(turns[..i]), r)
    ensures j < i && (turns[j].round == r || turns[j].round + FINALITY_DELAY == r)
  {
    if forall k :: 0 <= k < i ==> turns[k].round != r && turns[k].round + FINALITY_DELAY != r {
      NotReadBefore(turns, i, r);
      assert false;
    }
    j :| 0 <= j < i && (turns[j].round == r || turns[j].round + FINALITY_DELAY == r);
  }

  /** Whatever a turn can read it reads in some call, namely one in which it comes last. */
  lemma SomeCallReads(d: DagState, v: View, t: Turn) returns (turns: seq<Turn>)
    requires v.tables == TablesOf(d) && t.round in d.rounds && CanRead(v, t)
    ensures Call(d, v, turns) && |turns| > 0 && turns[|turns| - 1] == t
  {
    var order := SomeListing(d.rounds.Keys - {t.round});
    var first := SeenTurns(v, order);
    turns := first + [t];
    assert Lists(RoundsOf(turns), d.rounds.Keys) by {
      assert RoundsOf(turns) == order + [t.round];
      ListsSnoc(order, d.rounds.Keys - {t.round}, t.round);
      assert d.rounds.Keys - {t.round} + {t.round} == d.rounds.Keys;
    }
    LastTurnReads(d, v, order, t);
    forall i: nat
      ensures TurnAt(v, turns, i)
    {
      if i < |first| {
        assert turns[i] == SeenTurn(v, order[i]);
        SeenTurnReads(v, ReadBy(turns[..i]), order[i]);
      } else if i == |first| {
        assert turns[..i] == first;
      }
    }
  }

  lemma SeenTurnReads(v: View, fetched: set<Read>, r: nat)
    ensures TurnRead(v, fetched, SeenTurn(v, r))
  {
  }

  ghost function SeenTurns(v: View, order: seq<nat>): seq<Turn> {
    seq(|order|, i requires 0 <= i < |order| => SeenTurn(v, order[i]))
  }

  lemma SeenTurnsRead(v: View, order: seq<nat>, r: nat)
    requires r in order
    ensures ClothosOf(r) in ReadBy(SeenTurns(v, order)) && WitnessesOf(r + FINALITY_DELAY) in ReadBy(SeenTurns(v, order))
  {
    var i :| 0 <= i < |order| && order[i] == r;
    var t := SeenTurns(v, order)[i];
    assert t in SeenTurns(v, order) && t.round == r;
  }

  lemma LastTurnReads(d: DagState, v: View, order: seq<nat>, t: Turn)
    requires v.tables == TablesOf(d) && Lists(order, d.rounds.Keys - {t.round}) && CanRead(v, t)
    ensures TurnRead(v, ReadBy(SeenTurns(v, order)), t)
  {
    var r, q := t.round, t.round + FINALITY_DELAY;
    if r >= FINALITY_DELAY && r - FINALITY_DELAY in v.tables {
      SeenTurnsRead(v, order, r - FINALITY_DELAY);
    }
    if q in v.tables {
      SeenTurnsRead(v, order, q);
    }
  }

  // ---------- one event ----------

  /** The tables or the cache list c as a Clotho of round r. */
  ghost predicate Named(v: View, c: EventID, r: nat) {
    c in ClothosIn(v.tables, r) || c in SeenClothos(v, r)
  }

  ghost predicate OnlyNamedIn(v: View, c: EventID, r: nat) {
    forall q :: Named(v, c, q) ==> q == r
  }

  /** An event listed in one turn only is chosen exactly if it is ready in that turn. */
  lemma ChosenInItsTurn(d: DagState, turns: seq<Turn>, i: nat, c: EventID)
    requires i < |turns| && forall j :: 0 <= j < |turns| && j != i ==> c !in turns[j].clothos
    ensures c in Chosen(d, turns) <==> ReadyAt(d, c, turns[i])
    ensures c in Chosen(d, turns) ==> Chosen(d, turns)[c] == turns[i]
  {
    FirstReadySound(d, turns, c);
    assert turns[i] in turns;
    if FirstReady(d, turns, c).Some? {
      var j :| 0 <= j < |turns| && turns[j] == FirstReady(d, turns, c).value;
    }
  }

  lemma ListedInItsTurn(d: DagState, v: View, turns: seq<Turn>, i: nat, c: EventID)
    requires Call(d, v, turns) && i < |turns| && OnlyNamedIn(v, c, turns[i].round)
    ensures forall j :: 0 <= j < |turns| && j != i ==> c !in turns[j].clothos
  {
    forall j | 0 <= j < |turns| && j != i
      ensures c !in turns[j].clothos
    {
      TurnsDiffer(turns, d.rounds.Keys, j, i);
      TurnCanRead(d, v, turns, j);
      assert !Named(v, c, turns[j].round);
    }
  }

  lemma TurnOfRound(d: DagState, v: View, turns: seq<Turn>, r: nat) returns (i: nat)
    requires Call(d, v, turns) && r in d.rounds
    ensures i < |turns| && turns[i].round == r
  {
    i :| 0 <= i < |RoundsOf(turns)| && RoundsOf(turns)[i] == r;
  }

  /** Every call finalises c exactly if c is ready in whatever the turn for its round can read. */
  lemma FinalisedExactly(d: DagState, v: View, c: EventID, r: nat)
    requires v.tables == TablesOf(d) && r in d.rounds && OnlyNamedIn(v, c, r)
    ensures (forall turns :: Call(d, v, turns) ==> c in Chosen(d, turns)) <==>
      (forall t: Turn :: t.round == r && CanRead(v, t) ==> ReadyAt(d, c, t))
  {
    if forall t: Turn :: t.round == r && CanRead(v, t) ==> ReadyAt(d, c, t) {
      forall turns | Call(d, v, turns)
        ensures c in Chosen(d, turns)
      {
        var i := TurnOfRound(d, v, turns, r);
        TurnCanRead(d, v, turns, i);
        ListedInItsTurn(d, v, turns, i, c);
        ChosenInItsTurn(d, turns, i, c);
      }
    } else {
      var t: Turn :| t.round == r && CanRead(v, t) && !ReadyAt(d, c, t);
      var turns := SomeCallReads(d, v, t);
      ListedInItsTurn(d, v, turns, |turns| - 1, c);
      ChosenInItsTurn(d, turns, |turns| - 1, c);
    }
  }

  lemma SeenTurnCanBeRead(v: View, r: nat)
    ensures CanRead(v, SeenTurn(v, r))
  {
  }

  /** Every call finalises a ready Clotho exactly if it is also ready in what the cache shows. */
  lemma ReadyIsFinalisedExactly(d: DagState, v: View, c: EventID, r: nat)
    requires v.tables == TablesOf(d) && Ready(d, c, r) && OnlyNamedIn(v, c, r)
    ensures (forall turns :: Call(d, v, turns) ==> c in Chosen(d, turns)) <==> ReadyAt(d, c, SeenTurn(v, r))
  {
    assert r in d.rounds;
    FinalisedExactly(d, v, c, r);
    SeenTurnCanBeRead(v, r);
    if ReadyAt(d, c, SeenTurn(v, r)) {
      forall t: Turn | t.round == r && CanRead(v, t)
        ensures ReadyAt(d, c, t)
      {
        assert Ready(d, c, r);
      }
    }
  }

  /** If it is not, every call that iterates its round first misses it. */
  lemma MissedWhenFirst(d: DagState, v: View, turns: seq<Turn>, c: EventID, r: nat)
    requires Call(d, v, turns) && |turns| > 0 && turns[0].round == r && OnlyNamedIn(v, c, r)
    requires !Evicts(v) && !ReadyAt(d, c, SeenTurn(v, r))
    ensures c !in Chosen(d, turns)
  {
    assert TurnAt(v, turns, 0);
    assert turns[..0] == [];
    assert turns[0] == SeenTurn(v, r);
    ListedInItsTurn(d, v, turns, 0, c);
    ChosenInItsTurn(d, turns, 0, c);
  }

  // ---------- all events ----------

  /** Neither the tables nor the cache list an event for two rounds. */
  ghost predicate NamedOnce(v: View) {
    forall c, r :: Named(v, c, r) ==> OnlyNamedIn(v, c, r)
  }

  lemma ReadyIsNamed(d: DagState, v: View, c: EventID, r: nat)
    requires v.tables == TablesOf(d) && Ready(d, c, r)
    ensures Named(v, c, r)
  {
  }

  /** Every call finalises every ready Clotho exactly if all of them are ready in what the cache shows. */
  lemma NothingIsMissedExactly(d: DagState, v: View)
    requires v.tables == TablesOf(d) && NamedOnce(v)
    ensures (forall turns, c, r :: Call(d, v, turns) && Ready(d, c, r) ==> c in Chosen(d, turns)) <==>
      (forall c, r :: Ready(d, c, r) ==> ReadyAt(d, c, SeenTurn(v, r)))
  {
    forall c, r | Ready(d, c, r)
      ensures (forall turns :: Call(d, v, turns) ==> c in Chosen(d, turns)) <==> ReadyAt(d, c, SeenTurn(v, r))
    {
      ReadyIsNamed(d, v, c, r);
      ReadyIsFinalisedExactly(d, v, c, r);
    }
  }

  // ---------- the whole outcome ----------

  /** Reading this turn instead of the actual one makes no difference to c. */
  ghost predicate SameFor(d: DagState, t: Turn, c: EventID) {
    (ReadyAt(d, c, t) <==> Ready(d, c, t.round)) &&
    (ReadyAt(d, c, t) ==> TimeAmong(d, c, t.witnesses) == FinalTime(d, c, t.round))
  }

  ghost predicate SameForAll(d: DagState, t: Turn) {
    forall c {:trigger SameFor(d, t, c)} :: SameFor(d, t, c)
  }

  /** The two choices agree on c as far as its final fields go. */
  ghost predicate SameFinal(d: DagState, a: map<EventID, Turn>, b: map<EventID, Turn>, c: EventID) {
    (c in a <==> c in b) &&
    (c in a ==> a[c].round == b[c].round && TimeAmong(d, c, a[c].witnesses) == TimeAmong(d, c, b[c].witnesses))
  }

  lemma ApplySameEvents(d: DagState, a: map<EventID, Turn>, b: map<EventID, Turn>)
    requires forall c {:trigger SameFinal(d, a, b, c)} :: SameFinal(d, a, b, c)
    ensures Apply(d, a).events == Apply(d, b).events
  {
    forall c | c in d.events
      ensures Apply(d, a).events[c] == Apply(d, b).events[c]
    {
      assert SameFinal(d, a, b, c);
    }
  }

  lemma ApplySameRounds(d: DagState, a: map<EventID, Turn>, b: map<EventID, Turn>)
    requires forall c {:trigger SameFinal(d, a, b, c)} :: SameFinal(d, a, b, c)
    ensures Apply(d, a).rounds == Apply(d, b).rounds
  {
    forall q
      ensures ReceivedIn(a, q) == ReceivedIn(b, q)
    {
      forall c
        ensures c in ReceivedIn(a, q) <==> c in ReceivedIn(b, q)
      {
        assert SameFinal(d, a, b, c);
      }
    }
  }

  /** What becomes of c in a call and without a cache: the same if its turn makes no difference to it. */
  lemma SameChoiceFor(d: DagState, v: View, turns: seq<Turn>, i: nat, c: EventID)
    requires Call(d, v, turns) && i < |turns| && OnlyNamedIn(v, c, turns[i].round)
    ensures var actual := Turns(d, RoundsOf(turns));
      (c in Chosen(d, turns) <==> ReadyAt(d, c, turns[i])) && (c in Chosen(d, turns) ==> Chosen(d, turns)[c] == turns[i]) &&
      (c in Chosen(d, actual) <==> Ready(d, c, turns[i].round)) &&
      (c in Chosen(d, actual) ==> Chosen(d, actual)[c] == Actual(d, turns[i].round))
  {
    var actual := Turns(d, RoundsOf(turns));
    ListedInItsTurn(d, v, turns, i, c);
    ChosenInItsTurn(d, turns, i, c);
    forall j | 0 <= j < |actual| && j != i
      ensures c !in actual[j].clothos
    {
      TurnsDiffer(turns, d.rounds.Keys, j, i);
      assert actual[j] == Actual(d, turns[j].round);
      assert !Named(v, c, turns[j].round);
    }
    assert actual[i] == Actual(d, turns[i].round);
    ChosenInItsTurn(d, actual, i, c);
  }

  lemma SameOutcome(d: DagState, v: View, turns: seq<Turn>)
    requires Call(d, v, turns) && NamedOnce(v)
    requires forall i :: 0 <= i < |turns| ==> SameForAll(d, turns[i])
    ensures Outcome(d, turns) == FinalState(d, RoundsOf(turns))
  {
    var a, b := Chosen(d, turns), Chosen(d, Turns(d, RoundsOf(turns)));
    forall c
      ensures SameFinal(d, a, b, c)
    {
      if i :| 0 <= i < |turns| && Named(v, c, turns[i].round) {
        assert OnlyNamedIn(v, c, turns[i].round);
        SameChoiceFor(d, v, turns, i, c);
        assert SameFor(d, turns[i], c);
      } else {
        UnnamedIsNotChosen(d, v, turns, c);
      }
    }
    ApplySameEvents(d, a, b);
    ApplySameRounds(d, a, b);
  }

  /** An event that no round lists is chosen neither way. */
  lemma UnnamedIsNotChosen(d: DagState, v: View, turns: seq<Turn>, c: EventID)
    requires Call(d, v, turns) && forall i :: 0 <= i < |turns| ==> !Named(v, c, turns[i].round)
    ensures c !in Chosen(d, turns) && c !in Chosen(d, Turns(d, RoundsOf(turns)))
  {
    var actual := Turns(d, RoundsOf(turns));
    FirstReadySound(d, turns, c);
    FirstReadySound(d, actual, c);
    forall i | 0 <= i < |turns|
      ensures c !in turns[i].clothos && c !in actual[i].clothos
    {
      TurnCanRead(d, v, turns, i);
      assert !Named(v, c, turns[i].round);
    }
  }

  /** If a call that makes this turn last ends as without a cache, the turn makes no difference. */
  lemma OutcomeTells(d: DagState, v: View, turns: seq<Turn>, t: Turn, c: EventID)
    requires Call(d, v, turns) && NamedOnce(v) && NO_EVENT !in d.events
    requires |turns| > 0 && turns[|turns| - 1] == t && Outcome(d, turns) == FinalState(d, RoundsOf(turns))
    ensures SameFor(d, t, c)
  {
    if Named(v, c, t.round) {
      assert OnlyNamedIn(v, c, t.round);
      SameChoiceFor(d, v, turns, |turns| - 1, c);
      FinalFieldsTell(d, Chosen(d, turns), Chosen(d, Turns(d, RoundsOf(turns))), c);
      FinalMeansSame(d, Chosen(d, turns), Chosen(d, Turns(d, RoundsOf(turns))), t, c);
    } else {
      TurnCanRead(d, v, turns, |turns| - 1);
      UnnamedIsSame(d, v, t, c);
    }
  }

  lemma UnnamedIsSame(d: DagState, v: View, t: Turn, c: EventID)
    requires v.tables == TablesOf(d) && CanRead(v, t) && !Named(v, c, t.round)
    ensures SameFor(d, t, c)
  {
  }

  lemma FinalMeansSame(d: DagState, a: map<EventID, Turn>, b: map<EventID, Turn>, t: Turn, c: EventID)
    requires SameFinal(d, a, b, c)
    requires c in a <==> ReadyAt(d, c, t)
    requires c in a ==> a[c] == t
    requires c in b <==> Ready(d, c, t.round)
    requires c in b ==> b[c] == Actual(d, t.round)
    ensures SameFor(d, t, c)
  {
    assert Actual(d, t.round).witnesses == FamousWitnesses(d, t.round + FINALITY_DELAY);
  }

  /** Equal states come from choices that agree on every event that was not final before. */
  lemma FinalFieldsTell(d: DagState, a: map<EventID, Turn>, b: map<EventID, Turn>, c: EventID)
    requires Apply(d, a) == Apply(d, b) && NO_EVENT !in d.events
    requires c in a || c in b ==> c in d.events && d.events[c].atropos == NO_EVENT
    ensures SameFinal(d, a, b, c)
  {
    if c in d.events {
      var e, f := Apply(d, a).events[c], Apply(d, b).events[c];
      assert e == if c in a then Finalised(d, c, a[c]) else d.events[c];
      assert f == if c in b then Finalised(d, c, b[c]) else d.events[c];
    }
  }

  /**
   * A call ends as if there were no cache, whatever the iteration order and evictions, exactly if nothing that a turn
   * can read makes a difference to any event. A caller can test this on the cache before the call.
   */
  lemma CallIsFreshExactly(d: DagState, v: View)
    requires v.tables == TablesOf(d) && NamedOnce(v) && NO_EVENT !in d.events
    ensures (forall turns :: Call(d, v, turns) ==> Outcome(d, turns) == FinalState(d, RoundsOf(turns))) <==>
      (forall t: Turn :: t.round in d.rounds && CanRead(v, t) ==> SameForAll(d, t))
  {
    if forall t: Turn :: t.round in d.rounds && CanRead(v, t) ==> SameForAll(d, t) {
      forall turns | Call(d, v, turns)
        ensures Outcome(d, turns) == FinalState(d, RoundsOf(turns))
      {
        forall i | 0 <= i < |turns|
          ensures SameForAll(d, turns[i])
        {
          TurnCanRead(d, v, turns, i);
        }
        SameOutcome(d, v, turns);
      }
    }
    if forall turns :: Call(d, v, turns) ==> Outcome(d, turns) == FinalState(d, RoundsOf(turns)) {
      forall t: Turn | t.round in d.rounds && CanRead(v, t)
        ensures SameForAll(d, t)
      {
        var turns := SomeCallReads(d, v, t);
        forall c
          ensures SameFor(d, t, c)
        {
          OutcomeTells(d, v, turns, t, c);
        }
      }
    }
  }
}
