/**
 * What the finality rules do not guarantee on their own, and exactly when they do, over the states that legal
 * insertions and verdicts produce.
 */
module FinalityLimits {
  import opened Events
  import opened Graph
  import opened DagSpec
  import opened Sets
  import opened FinalitySpec
  import opened Agreement
  import opened Samples

  // ---------- quorums ----------

  /** Two genesis events, a child of each, and n grandchildren, of which k descend from the first and the others from the second. */
  function SplitForest(n: nat, k: nat): (up: Forest)
    ensures |up| == n + 4 && ParentsFirst(up)
  {
    [0, 0, 1, 2] + seq(n, j => if j < k then 3 else 4)
  }

  lemma SplitShape(n: nat, k: nat, x: EventID)
    requires 1 <= x <= n + 4
    ensures SplitForest(n, k)[x - 1] == if x <= 2 then 0 else if x <= 4 then x - 2 else if x < 5 + k then 3 else 4
    ensures Depth(SplitForest(n, k), x - 1) == if x <= 2 then 0 else if x <= 4 then 1 else 2
  {
    var up := SplitForest(n, k);
    assert up[0] == 0 && up[1] == 0 && up[2] == 1 && up[3] == 2;
    assert Depth(up, 0) == 0 && Depth(up, 1) == 0 && Depth(up, 2) == 1 && Depth(up, 3) == 1;
  }

  lemma SplitDepths(n: nat, k: nat)
    ensures AtDepth(SplitForest(n, k), FINALITY_DELAY) == Range(5, n)
  {
    forall x | x in Range(1, n + 4)
      ensures Depth(SplitForest(n, k), x - 1) == FINALITY_DELAY <==> x in Range(5, n)
    {
      SplitShape(n, k, x);
    }
  }

  /** Every event is famous, and the two genesis events are the Clothos of round 0. */
  function SplitVerdicts(n: nat): Verdicts {
    Verdicts(Everyone(Range(1, n + 4)), {1, 2}, map[0 := {1, 2}])
  }

  ghost predicate Split(d: DagState, n: nat, k: nat) {
    Grown(d, SplitForest(n, k), SplitVerdicts(n))
  }

  lemma SplitParents(d: DagState, n: nat, k: nat, x: EventID)
    requires Split(d, n, k) && 1 <= x <= n + 4
    ensures x in d.events
    ensures d.events[x].parents == if x <= 2 then [] else if x <= 4 then [x - 2] else if x < 5 + k then [3] else [4]
  {
    assert EventGrown(d, SplitForest(n, k), SplitVerdicts(n), x);
    SplitShape(n, k, x);
  }

  lemma SplitAncestor(d: DagState, n: nat, k: nat, w: EventID, c: EventID)
    requires Split(d, n, k) && w in Range(5, n) && (c == 1 || c == 2)
    ensures Ancestor(Parents(d.events), c, w) <==> c == if w < 5 + k then 1 else 2
  {
    var g, p := Parents(d.events), if w < 5 + k then 3 else 4;
    SplitParents(d, n, k, w);
    SplitParents(d, n, k, p);
    SplitParents(d, n, k, p - 2);
    AncestorOfGrandparent(g, w, p, p - 2, c);
  }

  /** An event with one grandparent, which has no parents, descends from no other third event. */
  lemma AncestorOfGrandparent(g: Graph, w: EventID, p: EventID, q: EventID, c: EventID)
    requires w in g && p in g && q in g && g[w] == [p] && g[p] == [q] && g[q] == [] && c != w && c != p
    ensures Ancestor(g, c, w) <==> c == q
  {
    if c == q {
      AncestorSelf(g, c);
      AncestorStep(g, c, c, p);
      AncestorStep(g, c, p, w);
    } else if Ancestor(g, c, w) {
      ClosedContainsAncestors(g, {w, p, q}, c, w);
    }
  }

  lemma VotersAre(d: DagState, c: EventID, witnesses: set<EventID>, voters: set<EventID>)
    requires voters <= witnesses <= d.events.Keys
    requires forall w :: w in witnesses ==> (Ancestor(Parents(d.events), c, w) <==> w in voters)
    ensures VotersAmong(d, c, witnesses) == voters
  {
  }

  lemma SplitFamous(d: DagState, n: nat, k: nat)
    requires Split(d, n, k)
    ensures FamousWitnesses(d, FINALITY_DELAY) == Range(5, n) <= d.events.Keys
  {
    assert TableGrown(d, SplitForest(n, k), SplitVerdicts(n), FINALITY_DELAY);
    SplitDepths(n, k);
    forall w | w in Range(5, n)
      ensures w in d.events
    {
      SplitParents(d, n, k, w);
    }
  }

  lemma SplitVoters(d: DagState, n: nat, k: nat)
    requires Split(d, n, k) && k <= n
    ensures Voters(d, 1, FINALITY_DELAY) == Range(5, k)
    ensures Voters(d, 2, FINALITY_DELAY) == Range(5 + k, n - k)
  {
    SplitFamous(d, n, k);
    forall w | w in Range(5, n)
      ensures Ancestor(Parents(d.events), 1, w) <==> w in Range(5, k)
    {
      SplitAncestor(d, n, k, w, 1);
    }
    VotersAre(d, 1, Range(5, n), Range(5, k));
    forall w | w in Range(5, n)
      ensures Ancestor(Parents(d.events), 2, w) <==> w in Range(5 + k, n - k)
    {
      SplitAncestor(d, n, k, w, 2);
    }
    VotersAre(d, 2, Range(5, n), Range(5 + k, n - k));
  }

  /**
   * For any n and k, insertion and verdicts produce a state in which two famous Clothos of round 0 have k and n - k of
   * the n famous witnesses of round 2 as voters.
   */
  lemma Splits(n: nat, k: nat) returns (d: DagState)
    requires k <= n
    ensures Produced(d) && |FamousWitnesses(d, FINALITY_DELAY)| == n
    ensures |Voters(d, 1, FINALITY_DELAY)| == k && |Voters(d, 2, FINALITY_DELAY)| == n - k
    ensures Voters(d, 1, FINALITY_DELAY) * Voters(d, 2, FINALITY_DELAY) == {}
    ensures n > 0 ==> (Passes(d, 1, 0) <==> k >= Required(n)) && (Passes(d, 2, 0) <==> n - k >= Required(n))
  {
    d := Grow(SplitForest(n, k), SplitVerdicts(n));
    SplitFamous(d, n, k);
    SplitVoters(d, n, k);
    RangeSize(5, n);
    RangeSize(5, k);
    RangeSize(5 + k, n - k);
    SplitClotho(d, n, k, 1);
    SplitClotho(d, n, k, 2);
  }

  lemma SplitClotho(d: DagState, n: nat, k: nat, c: EventID)
    requires Split(d, n, k) && (c == 1 || c == 2)
    ensures c in d.events && d.events[c].isClotho && d.events[c].isFamous == Some(true)
  {
    assert EventGrown(d, SplitForest(n, k), SplitVerdicts(n), c);
  }

  /** Any two events that pass against the same n famous witnesses have a common voter. */
  ghost predicate QuorumsMeet(n: nat) {
    forall d, a, b, r: nat ::
      Produced(d) && Passes(d, a, r) && Passes(d, b, r) && |FamousWitnesses(d, r + FINALITY_DELAY)| == n ==>
      Voters(d, a, r + FINALITY_DELAY) * Voters(d, b, r + FINALITY_DELAY) != {}
  }

  /** The quorum rule forces a common voter for exactly these numbers of famous witnesses. */
  lemma QuorumsMeetExactly(n: nat)
    requires n > 0
    ensures QuorumsMeet(n) <==> n == 3 || n >= 5
  {
    if n == 3 || n >= 5 {
      forall d, a, b, r: nat | Produced(d) && Passes(d, a, r) && Passes(d, b, r) && |FamousWitnesses(d, r + FINALITY_DELAY)| == n
        ensures Voters(d, a, r + FINALITY_DELAY) * Voters(d, b, r + FINALITY_DELAY) != {}
      {
        FinalisedShareVoters(d, a, b, r);
      }
    } else {
      var d := Splits(n, Required(n));
      assert Passes(d, 1, 0) && Passes(d, 2, 0);
    }
  }

  /** Passing against n famous witnesses means that two thirds of them see the event. */
  ghost predicate PassingMeansTwoThirds(n: nat) {
    forall d, c, r: nat :: Produced(d) && Passes(d, c, r) && |FamousWitnesses(d, r + FINALITY_DELAY)| == n ==>
      TwoThirds(|Voters(d, c, r + FINALITY_DELAY)|, n)
  }

  lemma RequiredIsRounded(n: nat)
    ensures TwoThirds(Required(n), n) <==> n % 3 == 0
  {
    var q, r := n / 3, n % 3;
    assert 2 * n == 3 * (2 * q) + 2 * r;
    if r == 0 {
      assert Required(n) == 2 * q;
    } else if r == 1 {
      assert Required(n) == 2 * q;
    } else {
      assert Required(n) == 2 * q + 1;
    }
  }

  /** The required count is rounded down, so the test keeps the two thirds it promises only for multiples of three. */
  lemma TwoThirdsExactly(n: nat)
    requires n > 0
    ensures PassingMeansTwoThirds(n) <==> n % 3 == 0
  {
    RequiredIsRounded(n);
    if TwoThirds(Required(n), n) {
      forall d, c, r: nat | Produced(d) && Passes(d, c, r) && |FamousWitnesses(d, r + FINALITY_DELAY)| == n
        ensures TwoThirds(|Voters(d, c, r + FINALITY_DELAY)|, n)
      {
      }
    } else {
      var d := Splits(n, Required(n));
      assert Passes(d, 1, 0) && !TwoThirds(|Voters(d, 1, FINALITY_DELAY)|, n);
    }
  }

  // ---------- a chain of four events ----------

  const CHAIN: Forest := [0, 1, 2, 3]

  lemma {:induction false} ChainDepth(i: nat)
    requires i < 4
    ensures ParentsFirst(CHAIN) && CHAIN[i] == i && Depth(CHAIN, i) == i
  {
    if i > 0 {
      ChainDepth(i - 1);
    }
  }

  lemma ChainDepths(r: nat)
    ensures ParentsFirst(CHAIN) && AtDepth(CHAIN, r) == if r < 4 then {r + 1} else {}
  {
    ChainDepth(0);
    forall x | x in Range(1, 4)
      ensures Depth(CHAIN, x - 1) == x - 1
    {
      ChainDepth(x - 1);
    }
  }

  function ChainVerdicts(rounds: set<nat>): Verdicts {
    Verdicts(Everyone(Range(1, 4)), {1}, map r | r in rounds :: {1})
  }

  lemma ChainTable(d: DagState, rounds: set<nat>, r: nat)
    requires ParentsFirst(CHAIN) && Grown(d, CHAIN, ChainVerdicts(rounds))
    ensures r in d.rounds <==> r < 4
    ensures r in d.rounds ==> d.rounds[r].clothos == if r in rounds then {1} else {}
    ensures r in d.rounds ==> FamousWitnesses(d, r) == {r + 1}
  {
    ChainDepths(r);
    assert TableGrown(d, CHAIN, ChainVerdicts(rounds), r);
  }

  lemma ChainClotho(d: DagState, rounds: set<nat>)
    requires ParentsFirst(CHAIN) && Grown(d, CHAIN, ChainVerdicts(rounds))
    ensures 1 in d.events && d.events[1].isClotho && d.events[1].isFamous == Some(true) && d.events[1].atropos == NO_EVENT
  {
    assert EventGrown(d, CHAIN, ChainVerdicts(rounds), 1);
  }

  /** Every event of the chain is famous, and the first one is the Clotho of these rounds. */
  lemma Chain(rounds: set<nat>) returns (d: DagState)
    ensures Produced(d)
    ensures forall r: nat :: r in d.rounds <==> r < 4
    ensures forall r :: r in d.rounds ==> d.rounds[r].clothos == if r in rounds then {1} else {}
    ensures forall r :: r in d.rounds ==> FamousWitnesses(d, r) == {r + 1}
    ensures 1 in d.events && d.events[1].isClotho && d.events[1].isFamous == Some(true) && d.events[1].atropos == NO_EVENT
  {
    ChainDepth(0);
    d := Grow(CHAIN, ChainVerdicts(rounds));
    ChainClotho(d, rounds);
    forall r: nat
      ensures r in d.rounds <==> r < 4
      ensures r in d.rounds ==> d.rounds[r].clothos == if r in rounds then {1} else {}
      ensures r in d.rounds ==> FamousWitnesses(d, r) == {r + 1}
    {
      ChainTable(d, rounds, r);
    }
  }

  /** An event listed as a Clotho of two rounds: here the outcome of FinalizeEvents depends on the iteration order. */
  lemma IterationOrderMatters() returns (d: DagState, order1: seq<nat>, order2: seq<nat>)
    ensures Produced(d) && !ReadyOnce(d)
    ensures Lists(order1, d.rounds.Keys) && Lists(order2, d.rounds.Keys)
    ensures FinalState(d, order1) != FinalState(d, order2)
  {
    d := Chain({0, 1});
    assert Ready(d, 1, 0) && Ready(d, 1, 1);
    order1, order2 := IterationOrderVisible(d, 1, 0, 1);
  }
}
