/**
 * The median the finality engine, the blockchain and the consensus engine compute over uint64 values:
 * sort a copy, then take the middle element or the wrapping average of the two middle elements.
 */
module Median {
  import opened Events

  ghost predicate Sorted(s: seq<uint64>) {
    s != [] ==> (forall x :: x in s[1..] ==> s[0] <= x) && Sorted(s[1..])
  }

  lemma {:induction false} SortedIndices(s: seq<uint64>, i: nat, j: nat)
    requires Sorted(s) && i <= j < |s|
    ensures s[i] <= s[j]
    decreases |s|
  {
    if i > 0 {
      SortedIndices(s[1..], i - 1, j - 1);
    } else if j > 0 {
      assert s[1..][j - 1] in s[1..];
    }
  }

  /** The middle of a sorted slice; the sum of the two middle elements wraps at 2^64. */
  function Middle(s: seq<uint64>): uint64 {
    var n := |s|;
    if n == 0 then 0
    else if n % 2 == 0 then ((s[n / 2 - 1] + s[n / 2]) % TWO_64) / 2
    else s[n / 2]
  }

  /** The position at which sort.Slice's result holds x: after all elements not larger than x. */
  function Insert(x: uint64, s: seq<uint64>): seq<uint64> {
    if s == [] || x < s[0] then [x] + s else [s[0]] + Insert(x, s[1..])
  }

  lemma SortedTail(s: seq<uint64>)
    requires Sorted(s) && s != []
    ensures Sorted(s[1..]) && multiset(s) == multiset{s[0]} + multiset(s[1..])
    ensures forall x :: x in multiset(s) ==> s[0] <= x
  {
    assert s == [s[0]] + s[1..];
    assert forall x :: x in multiset(s) ==> x in s;
  }

  lemma SortedCons(x: uint64, t: seq<uint64>)
    requires Sorted(t) && forall y :: y in multiset(t) ==> x <= y
    ensures Sorted([x] + t) && multiset([x] + t) == multiset{x} + multiset(t)
  {
    assert ([x] + t)[1..] == t;
    assert forall y :: y in t ==> y in multiset(t);
  }

  lemma InsertFurtherOn(x: uint64, s: seq<uint64>, t: seq<uint64>)
    requires Sorted(s) && s != [] && s[0] <= x
    requires Sorted(t) && multiset(t) == multiset(s[1..]) + multiset{x}
    ensures Sorted([s[0]] + t) && multiset([s[0]] + t) == multiset(s) + multiset{x}
  {
    SortedTail(s);
    forall y | y in multiset(t)
      ensures s[0] <= y
    {
      if y != x {
        assert y in s[1..];
      }
    }
    SortedCons(s[0], t);
  }

  lemma InsertInFront(x: uint64, s: seq<uint64>)
    requires Sorted(s) && (s != [] ==> x < s[0])
    ensures Sorted([x] + s) && multiset([x] + s) == multiset(s) + multiset{x}
  {
    if s != [] {
      SortedTail(s);
    }
    SortedCons(x, s);
  }

  lemma {:induction false} InsertSorted(x: uint64, s: seq<uint64>)
    requires Sorted(s)
    ensures Sorted(Insert(x, s)) && multiset(Insert(x, s)) == multiset(s) + multiset{x}
    decreases |s|
  {
    if s == [] || x < s[0] {
      InsertInFront(x, s);
    } else {
      InsertSorted(x, s[1..]);
      InsertFurtherOn(x, s, Insert(x, s[1..]));
    }
  }

  lemma SameRest(a: multiset<uint64>, b: multiset<uint64>, x: uint64)
    requires multiset{x} + a == multiset{x} + b
    ensures a == b
  {
    assert a == (multiset{x} + a) - multiset{x};
    assert b == (multiset{x} + b) - multiset{x};
  }

  /** A multiset has only one sorted listing. */
  lemma {:induction false} SortedUnique(s: seq<uint64>, t: seq<uint64>)
    requires Sorted(s) && Sorted(t) && multiset(s) == multiset(t)
    ensures s == t
    decreases |s|
  {
    assert |s| == |multiset(s)| == |multiset(t)| == |t|;
    if s != [] {
      SortedTail(s);
      SortedTail(t);
      assert s[0] in multiset(t) && t[0] in multiset(s);
      SameRest(multiset(s[1..]), multiset(t[1..]), s[0]);
      SortedUnique(s[1..], t[1..]);
      assert s == [s[0]] + s[1..] && t == [t[0]] + t[1..];
    }
  }

  lemma {:induction false} SortedExists(m: multiset<uint64>)
    ensures exists s: seq<uint64> :: Sorted(s) && multiset(s) == m
    decreases |m|
  {
    if m == multiset{} {
      var s: seq<uint64> := [];
      assert Sorted(s) && multiset(s) == m;
    } else {
      var x :| x in m;
      SortedExists(m - multiset{x});
      var t: seq<uint64> :| Sorted(t) && multiset(t) == m - multiset{x};
      InsertSorted(x, t);
    }
  }

  ghost function SortedOf(m: multiset<uint64>): (s: seq<uint64>)
    ensures Sorted(s) && multiset(s) == m
  {
    SortedExists(m);
    var s: seq<uint64> :| Sorted(s) && multiset(s) == m;
    s
  }

  /** The median as a function of the values alone, not of the order in which they were collected. */
  ghost function MedianOf(m: multiset<uint64>): uint64 {
    Middle(SortedOf(m))
  }

  method MedianValue(values: seq<uint64>) returns (median: uint64)
    ensures median == MedianOf(multiset(values))
  {
    var sorted: seq<uint64> := [];
    for i := 0 to |values|
      invariant Sorted(sorted) && multiset(sorted) == multiset(values[..i])
    {
      InsertSorted(values[i], sorted);
      assert values[..i + 1] == values[..i] + [values[i]];
      sorted := Insert(values[i], sorted);
    }
    assert values[..|values|] == values;
    SortedUnique(sorted, SortedOf(multiset(values)));
    median := Middle(sorted);
  }

  /** The sum of the two middle values fits into 64 bits, or there is a single middle value. */
  ghost predicate NoWrap(m: multiset<uint64>) {
    var s := SortedOf(m);
    |s| % 2 == 0 && |s| > 0 ==> s[|s| / 2 - 1] + s[|s| / 2] < TWO_64
  }

  lemma SizeOfSorted(m: multiset<uint64>)
    ensures |SortedOf(m)| == |m|
  {
    assert |SortedOf(m)| == |multiset(SortedOf(m))|;
  }

  /** The median lies between the two middle values exactly when their sum does not wrap. */
  lemma MedianBetweenMiddles(m: multiset<uint64>)
    requires m != multiset{}
    ensures SortedOf(m) != []
    ensures var s := SortedOf(m);
      s[(|s| - 1) / 2] <= MedianOf(m) <= s[|s| / 2] <==> NoWrap(m)
  {
    SizeOfSorted(m);
    var s := SortedOf(m);
    var n := |s|;
    if n % 2 == 0 {
      var a, b := s[n / 2 - 1], s[n / 2];
      assert (n - 1) / 2 == n / 2 - 1;
      SortedIndices(s, n / 2 - 1, n / 2);
      if a + b >= TWO_64 {
        assert (a + b) % TWO_64 == a + b - TWO_64;
      }
    } else {
      assert (n - 1) / 2 == n / 2;
    }
  }

  /**
   * The median by the sorted listing: 0 of nothing, the middle value of an odd number of values, and the average of the
   * two middle ones of an even number, rounded down, where a sum beyond 64 bits loses 2^64.
   */
  lemma MedianIs(m: multiset<uint64>)
    ensures |SortedOf(m)| == |m|
    ensures m == multiset{} ==> MedianOf(m) == 0
    ensures |m| % 2 == 1 ==> MedianOf(m) == SortedOf(m)[|m| / 2]
    ensures m != multiset{} && |m| % 2 == 0 ==>
      var low: int, high: int := SortedOf(m)[|m| / 2 - 1], SortedOf(m)[|m| / 2];
      var sum := low + high;
      var kept := if sum < 0x1_0000_0000_0000_0000 then sum else sum - 0x1_0000_0000_0000_0000;
      kept - 1 <= 2 * MedianOf(m) <= kept
  {
    SizeOfSorted(m);
    var s := SortedOf(m);
    if |m| % 2 == 0 && |m| > 0 {
      var low: int, high: int := s[|m| / 2 - 1], s[|m| / 2];
      var sum := low + high;
      if sum >= TWO_64 {
        assert sum % TWO_64 == sum - TWO_64;
      }
    }
  }

  /** If k values of a listing lie outside w's range, w has at most the others. */
  lemma RangeBound(m: multiset<uint64>, w: multiset<uint64>, out: seq<uint64>, rest: seq<uint64>)
    requires m == multiset(out) + multiset(rest) && w <= m
    requires forall x :: x in out ==> x !in w
    ensures |w| <= |rest|
  {
    assert w <= multiset(rest);
    assert multiset(rest) == w + (multiset(rest) - w);
    assert |multiset(rest)| == |w| + |multiset(rest) - w|;
  }

  /** If more than half of the values lie in [lo, hi], the middle positions of the sorted listing do too. */
  lemma MiddlesInRange(s: seq<uint64>, w: multiset<uint64>, lo: uint64, hi: uint64)
    requires Sorted(s) && w <= multiset(s) && 2 * |w| > |s| > 0
    requires forall x :: x in w ==> lo <= x <= hi
    ensures lo <= s[(|s| - 1) / 2] && s[|s| / 2] <= hi
  {
    var l, h := (|s| - 1) / 2, |s| / 2;
    if s[l] < lo {
      BelowRange(s, w, l + 1, lo);
    }
    if hi < s[h] {
      AboveRange(s, w, h, hi);
    }
  }

  /** The first k elements of a sorted listing lie below the range of w, so w fits into the rest. */
  lemma BelowRange(s: seq<uint64>, w: multiset<uint64>, k: nat, lo: uint64)
    requires Sorted(s) && w <= multiset(s) && 0 < k <= |s| && s[k - 1] < lo
    requires forall x :: x in w ==> lo <= x
    ensures |w| <= |s| - k
  {
    forall x | x in s[..k]
      ensures x !in w
    {
      var i :| 0 <= i < k && s[i] == x;
      SortedIndices(s, i, k - 1);
    }
    assert s == s[..k] + s[k..];
    RangeBound(multiset(s), w, s[..k], s[k..]);
  }

  /** The elements from k on lie above the range of w, so w fits into the first k. */
  lemma AboveRange(s: seq<uint64>, w: multiset<uint64>, k: nat, hi: uint64)
    requires Sorted(s) && w <= multiset(s) && k < |s| && hi < s[k]
    requires forall x :: x in w ==> x <= hi
    ensures |w| <= k
  {
    forall x | x in s[k..]
      ensures x !in w
    {
      var i :| 0 <= i < |s| - k && s[k..][i] == x;
      SortedIndices(s, k, k + i);
    }
    assert s == s[..k] + s[k..];
    RangeBound(multiset(s), w, s[k..], s[..k]);
  }

  /** If more than half of the values lie in a range, so does the median. */
  lemma MedianRobust(m: multiset<uint64>, w: multiset<uint64>, lo: uint64, hi: uint64)
    requires NoWrap(m)
    requires w <= m && 2 * |w| > |m|
    requires forall x :: x in w ==> lo <= x <= hi
    ensures lo <= MedianOf(m) <= hi
  {
    SizeOfSorted(m);
    assert m == w + (m - w) && |m| == |w| + |m - w|;
    MiddlesInRange(SortedOf(m), w, lo, hi);
    MedianBetweenMiddles(m);
  }

  /** Small enough values never wrap. */
  lemma SmallValuesDoNotWrap(m: multiset<uint64>)
    requires forall x :: x in m ==> x < 0x8000_0000_0000_0000
    ensures NoWrap(m)
  {
    var s := SortedOf(m);
    if |s| % 2 == 0 && |s| > 0 {
      assert s[|s| / 2 - 1] in multiset(s) && s[|s| / 2] in multiset(s);
    }
  }
}
