/** Nodes agree on finality: round assignment and finalisation put together. */
module Agreement {
  import opened Events
  import opened DagSpec
  import opened Sets
  import opened RoundTheory
  import opened FinalitySpec

  // The decisions finality takes as input: fame, the Clotho flags and the Clothos of each round.
  datatype Verdicts = Verdicts(
    famous: map<EventID, bool>,
    clothoFlags: set<EventID>,
    clothos: map<nat, set<EventID>>)

  /** A DAG state with the verdicts written into its events and round table. */
  function Decorate(d: DagState, v: Verdicts): DagState {
    DagState(
      map id | id in d.events :: d.events[id].(
        isFamous := if id in v.famous then Some(v.famous[id]) else d.events[id].isFamous,
        isClotho := d.events[id].isClotho || id in v.clothoFlags),
      map r | r in d.rounds :: d.rounds[r].(clothos := if r in v.clothos then v.clothos[r] else d.rounds[r].clothos))
  }

  /**
   * Two nodes that received the same events in different legal orders and reached the same verdicts, each
   * event a Clotho of at most one round, finalise the same events with the same rounds and median times,
   * whatever order each of them iterates its round table in.
   */
  lemma NodesAgreeOnFinality(run1: Run, run2: Run, v: Verdicts, order1: seq<nat>, order2: seq<nat>)
    requires LegalRun(run1) && LegalRun(run2) && Entries(run1) == Entries(run2)
    requires forall c, r, q :: r in v.clothos && q in v.clothos && c in v.clothos[r] && c in v.clothos[q] ==> r == q
    requires Lists(order1, After(run1).rounds.Keys) && Lists(order2, After(run2).rounds.Keys)
    ensures FinalState(Decorate(After(run1), v), order1) == FinalState(Decorate(After(run2), v), order2)
  {
    Confluence(run1, run2);
    KnownIsFresh(run1);
    var d := Decorate(After(run1), v);
    forall c, r, q | Ready(d, c, r) && Ready(d, c, q)
      ensures r == q
    {
      ReadyIsListed(run1, v, c, r);
      ReadyIsListed(run1, v, c, q);
    }
    SameChoice(d, order1, order2);
  }

  /** The third hypothesis holds of Clothos that are events of their own round, which is all the selector picks. */
  lemma NodesAgreeOnSelected(run1: Run, run2: Run, v: Verdicts, order1: seq<nat>, order2: seq<nat>)
    requires LegalRun(run1) && LegalRun(run2) && Entries(run1) == Entries(run2)
    requires forall c, r :: r in v.clothos && c in v.clothos[r] ==> c in After(run1).events && After(run1).events[c].round == r
    requires Lists(order1, After(run1).rounds.Keys) && Lists(order2, After(run2).rounds.Keys)
    ensures FinalState(Decorate(After(run1), v), order1) == FinalState(Decorate(After(run2), v), order2)
  {
    forall c, r, q | r in v.clothos && q in v.clothos && c in v.clothos[r] && c in v.clothos[q]
      ensures r == q
    {
      assert After(run1).events[c].round == r && After(run1).events[c].round == q;
    }
    NodesAgreeOnFinality(run1, run2, v, order1, order2);
  }

  /** Insertion lists no Clothos, so an event is ready only in a round for which a verdict lists it. */
  lemma ReadyIsListed(run: Run, v: Verdicts, c: EventID, r: nat)
    requires FreshRun(run) && Ready(Decorate(After(run), v), c, r)
    ensures r in v.clothos && c in v.clothos[r]
  {
    TableExact(run);
    assert r in After(run).rounds && TableOf(After(run).events)[r].clothos == {};
  }

  /**
   * Insertion lists no Clothos and no other code does, so on the state any run of insertions leaves, finalisation
   * is idle. Finality starts with the verdicts.
   */
  lemma WithoutVerdictsNothingIsFinal(run: Run, order: seq<nat>)
    requires FreshRun(run)
    ensures FinalState(After(run), order) == After(run)
  {
    TableExact(run);
    forall c, r
      ensures !Ready(After(run), c, r)
    {
      assert r in After(run).rounds ==> TableOf(After(run).events)[r].clothos == {};
    }
    NothingReadyNoChange(After(run), order);
  }
}
