/** Counting facts about finite sets, and listings of them. */
module Sets {

  lemma {:induction false} SubsetSize<T>(a: set<T>, b: set<T>)
    requires a <= b
    ensures |a| <= |b|
    decreases a
  {
    if a != {} {
      var x :| x in a;
      SubsetSize(a - {x}, b - {x});
    }
  }

  /** Two subsets of u overlap in at least |a| + |b| - |u| elements. */
  lemma Overlap<T>(a: set<T>, b: set<T>, u: set<T>)
    requires a <= u && b <= u
    ensures |a * b| + |u| >= |a| + |b|
  {
    assert |a + b| == |a| + |b| - |a * b|;
    SubsetSize(a + b, u);
  }

  /** order lists every element of s, each once. */
  ghost predicate Lists<T(!new)>(order: seq<T>, s: set<T>) {
    (forall x :: x in order <==> x in s) &&
    forall i, j :: 0 <= i < j < |order| ==> order[i] != order[j]
  }

  lemma ListsSnoc<T(!new)>(order: seq<T>, s: set<T>, x: T)
    requires Lists(order, s) && x !in s
    ensures Lists(order + [x], s + {x})
  {
  }

  /** Moving an element from the rest to the end of a listing. */
  lemma ListsRest<T(!new)>(order: seq<T>, all: set<T>, rest: set<T>, x: T)
    requires Lists(order, all - rest) && x in rest && rest <= all
    ensures Lists(order + [x], all - (rest - {x}))
  {
    ListsSnoc(order, all - rest, x);
    assert all - (rest - {x}) == all - rest + {x};
  }

  lemma {:induction false} ListsSize<T(!new)>(order: seq<T>, s: set<T>)
    requires Lists(order, s)
    ensures |order| == |s|
    decreases |order|
  {
    if order == [] {
      assert s == {};
    } else {
      var init, last := order[..|order| - 1], order[|order| - 1];
      assert order == init + [last];
      assert last !in init;
      ListsSize(init, s - {last});
    }
  }

  /** Collects a set in iteration order. */
  method ListSet<T(==, !new)>(s: set<T>) returns (list: seq<T>)
    ensures Lists(list, s)
  {
    list := [];
    var rest := s;
    while rest != {}
      invariant rest <= s && Lists(list, s - rest)
      decreases rest
    {
      var x :| x in rest;
      ListsSnoc(list, s - rest, x);
      assert s - (rest - {x}) == s - rest + {x};
      list, rest := list + [x], rest - {x};
    }
    assert s - rest == s;
  }

  /** Some listing of a set starts with any given element of it. */
  lemma {:induction false} ListingFrom<T(!new)>(s: set<T>, first: T) returns (order: seq<T>)
    requires first in s
    ensures Lists(order, s) && |order| > 0 && order[0] == first
    decreases s
  {
    var rest := s - {first};
    if rest == {} {
      order := [first];
      assert s == {first};
    } else {
      var next :| next in rest;
      var tail := ListingFrom(rest, next);
      order := [first] + tail;
      forall x
        ensures x in order <==> x in s
      {
        assert x in order <==> x == first || x in tail;
      }
    }
  }

  lemma {:induction false} SomeListing<T(!new)>(s: set<T>) returns (order: seq<T>)
    ensures Lists(order, s)
    decreases s
  {
    order := [];
    if s != {} {
      var x :| x in s;
      order := ListingFrom(s, x);
    }
  }

  /** Some listing of a set has the elements of a subset first. */
  lemma ListingWithFirst<T(!new)>(s: set<T>, first: set<T>) returns (order: seq<T>)
    requires first <= s
    ensures Lists(order, s)
    ensures forall i :: 0 <= i < |order| ==> (i < |first| <==> order[i] in first)
  {
    var head := SomeListing(first);
    var tail := SomeListing(s - first);
    order := head + tail;
    ListsSize(head, first);
    forall x
      ensures x in order <==> x in s
    {
      assert x in order <==> x in head || x in tail;
    }
    forall i, j | 0 <= i < j < |order|
      ensures order[i] != order[j]
    {
      assert i < |head| ==> order[i] == head[i] && order[i] in first;
      assert j >= |head| ==> order[j] == tail[j - |head|] && order[j] in s - first;
    }
  }
}
