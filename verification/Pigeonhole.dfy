/** Counting arguments over sequences without repetition: how many there can be, and that a full one
    holds every number. */
module Pigeonhole {

  ghost predicate Distinct<T>(s: seq<T>) {
    forall p, q :: 0 <= p < q < |s| ==> s[p] != s[q]
  }

  ghost function Range(lo: int, hi: int): (r: set<int>)
    ensures forall x :: x in r <==> lo <= x < hi
    decreases hi - lo
  {
    if lo >= hi then {} else Range(lo, hi - 1) + {hi - 1}
  }

  lemma {:induction false} RangeSize(lo: int, hi: int)
    requires lo <= hi
    ensures |Range(lo, hi)| == hi - lo
    decreases hi - lo
  {
    if lo < hi { RangeSize(lo, hi - 1); }
  }

  lemma {:induction false} SubsetSize<T>(a: set<T>, b: set<T>)
    requires a <= b
    ensures |a| <= |b|
    ensures |a| == |b| ==> a == b
  {
    assert b == a + (b - a);
  }

  ghost function Elements<T>(s: seq<T>): set<T> {
    set x | x in s
  }

  lemma {:induction false} DistinctSize<T>(s: seq<T>)
    requires Distinct(s)
    ensures |Elements(s)| == |s|
  {
    if s == [] {
      assert Elements(s) == {};
    } else {
      var n := |s| - 1;
      DistinctSize(s[..n]);
      assert s == s[..n] + [s[n]];
      assert Elements(s) == Elements(s[..n]) + {s[n]};
      assert s[n] !in Elements(s[..n]);
    }
  }

  lemma {:induction false} DistinctConcat<T>(a: seq<T>, b: seq<T>)
    requires Distinct(a) && Distinct(b) && forall x :: x in b ==> x !in a
    ensures Distinct(a + b)
  {
    forall p, q | 0 <= p < q < |a + b| ensures (a + b)[p] != (a + b)[q] {
      assert p >= |a| ==> (a + b)[p] == b[p - |a|];
      assert q >= |a| ==> (a + b)[q] == b[q - |a|] && b[q - |a|] in b;
    }
  }

  /** A repetition-free sequence inside a set is no longer than the set. */
  lemma {:induction false} DistinctFits<T>(s: seq<T>, b: set<T>)
    requires Distinct(s) && forall x :: x in s ==> x in b
    ensures |s| <= |b|
    ensures |s| == |b| ==> Elements(s) == b
  {
    DistinctSize(s);
    SubsetSize(Elements(s), b);
  }

  /** A repetition-free sequence of n numbers below n contains each of them. */
  lemma {:induction false} FindInPermutation(s: seq<int>, x: int) returns (p: int)
    requires Distinct(s) && (forall q :: 0 <= q < |s| ==> 0 <= s[q] < |s|)
    requires 0 <= x < |s|
    ensures 0 <= p < |s| && s[p] == x
  {
    RangeSize(0, |s|);
    DistinctFits(s, Range(0, |s|));
    assert x in Elements(s);
    p :| 0 <= p < |s| && s[p] == x;
  }
}
