/** The parent graph of a set of events and its reachability relation. */
module Graph {
  import opened Events

  // Each stored event with its parent ids; a parent id need not be stored.
  type Graph = map<EventID, seq<EventID>>

  /** From b, following parent links of stored events, p lists the ids visited after b, the last being a. */
  ghost predicate IsPath(g: Graph, b: EventID, p: seq<EventID>, a: EventID)
    decreases |p|
  {
    if p == [] then b == a
    else b in g && p[0] in g[b] && IsPath(g, p[0], p[1..], a)
  }

  /** a is b itself, or a parent path through stored events leads from b to a. */
  ghost predicate Ancestor(g: Graph, a: EventID, b: EventID) {
    exists p :: IsPath(g, b, p, a)
  }

  /** Every parent of a stored event of s is in s. */
  ghost predicate ClosedUnderParents(g: Graph, s: set<EventID>) {
    forall x, y :: x in s && x in g && y in g[x] ==> y in s
  }

  /** No stored event names a parent that is not stored. */
  ghost predicate ParentsKnown(g: Graph) {
    forall x, y :: x in g && y in g[x] ==> y in g
  }

  lemma AncestorSelf(g: Graph, a: EventID)
    ensures Ancestor(g, a, a)
  {
    assert IsPath(g, a, [], a);
  }

  lemma AncestorStep(g: Graph, a: EventID, c: EventID, b: EventID)
    requires b in g && c in g[b] && Ancestor(g, a, c)
    ensures Ancestor(g, a, b)
  {
    var p :| IsPath(g, c, p, a);
    assert ([c] + p)[1..] == p;
    assert IsPath(g, b, [c] + p, a);
  }

  lemma {:induction false} PathJoin(g: Graph, c: EventID, q: seq<EventID>, b: EventID, p: seq<EventID>, a: EventID)
    requires IsPath(g, c, q, b) && IsPath(g, b, p, a)
    ensures IsPath(g, c, q + p, a)
    decreases |q|
  {
    if q == [] {
      assert q + p == p;
    } else {
      PathJoin(g, q[0], q[1..], b, p, a);
      assert (q + p)[1..] == q[1..] + p;
    }
  }

  lemma AncestorTransitive(g: Graph, a: EventID, b: EventID, c: EventID)
    requires Ancestor(g, a, b) && Ancestor(g, b, c)
    ensures Ancestor(g, a, c)
  {
    var p :| IsPath(g, b, p, a);
    var q :| IsPath(g, c, q, b);
    PathJoin(g, c, q, b, p, a);
  }

  lemma {:induction false} PathStaysInside(g: Graph, s: set<EventID>, b: EventID, p: seq<EventID>, a: EventID)
    requires ClosedUnderParents(g, s) && b in s && IsPath(g, b, p, a)
    ensures a in s
    decreases |p|
  {
    if p != [] {
      PathStaysInside(g, s, p[0], p[1..], a);
    }
  }

  /** A set closed under parents contains all ancestors of its members. */
  lemma ClosedContainsAncestors(g: Graph, s: set<EventID>, a: EventID, b: EventID)
    requires ClosedUnderParents(g, s) && b in s && Ancestor(g, a, b)
    ensures a in s
  {
    var p :| IsPath(g, b, p, a);
    PathStaysInside(g, s, b, p, a);
  }

  lemma {:induction false} PathUnchanged(g: Graph, h: Graph, b: EventID, p: seq<EventID>, a: EventID)
    requires ParentsKnown(g) && b in g
    requires forall x :: x in g ==> x in h && h[x] == g[x]
    ensures IsPath(g, b, p, a) <==> IsPath(h, b, p, a)
    decreases |p|
  {
    if p != [] && p[0] in g[b] {
      PathUnchanged(g, h, p[0], p[1..], a);
    }
  }

  /** Adding events to a graph with known parents changes no ancestry of an event already present. */
  lemma AncestryUnchanged(g: Graph, h: Graph, a: EventID, b: EventID)
    requires ParentsKnown(g) && b in g
    requires forall x :: x in g ==> x in h && h[x] == g[x]
    ensures Ancestor(g, a, b) <==> Ancestor(h, a, b)
  {
    forall p
      ensures IsPath(g, b, p, a) <==> IsPath(h, b, p, a)
    {
      PathUnchanged(g, h, b, p, a);
    }
  }
}
