/** The reduction step: the text of the names of the LMS-substrings, in text order. */
module Reduction {
  import opened SuffixOrder
  import opened InducedOrder

  // Numbering the LMS-substrings in their order gives a text, at most half as long, whose
  // suffixes are ordered exactly as the LMS suffixes of the original.

  /** The LMS positions from `i` on, left to right. */
  ghost function LmsFrom(t: seq<int>, i: int): (p: seq<int>)
    requires 0 <= i <= |t|
    decreases |t| - i
  {
    if i == |t| then [] else if IsLMS(t, i) then [i] + LmsFrom(t, i + 1) else LmsFrom(t, i + 1)
  }

  ghost function Lms(t: seq<int>): seq<int> {
    LmsFrom(t, 0)
  }

  lemma {:induction false} LmsFromElements(t: seq<int>, i: int)
    requires 0 <= i <= |t|
    ensures forall a :: 0 <= a < |LmsFrom(t, i)| ==> i <= LmsFrom(t, i)[a] < |t| && IsLMS(t, LmsFrom(t, i)[a])
    ensures forall a, b :: 0 <= a < b < |LmsFrom(t, i)| ==> LmsFrom(t, i)[a] < LmsFrom(t, i)[b]
    decreases |t| - i
  {
    if i < |t| { LmsFromElements(t, i + 1); }
  }

  lemma {:induction false} LmsFromComplete(t: seq<int>, i: int, x: int) returns (a: int)
    requires 0 <= i <= x < |t| && IsLMS(t, x)
    ensures 0 <= a < |LmsFrom(t, i)| && LmsFrom(t, i)[a] == x
    decreases |t| - i
  {
    if x == i {
      a := 0;
    } else {
      a := LmsFromComplete(t, i + 1, x);
      if IsLMS(t, i) { a := a + 1; }
    }
  }

  lemma {:induction false} LmsFromHalf(t: seq<int>, i: int)
    requires 0 <= i <= |t|
    ensures 2 * |LmsFrom(t, i)| <= |t| - i
    decreases |t| - i
  {
    if i < |t| {
      LmsFromHalf(t, i + 1);
      if IsLMS(t, i) {
        assert !IsLMS(t, i + 1);
        LmsFromHalf(t, i + 2);
      }
    }
  }

  /** LMS positions are never adjacent and never first or last, so they leave more than half free. */
  lemma {:induction false} LmsHalf(t: seq<int>)
    requires |t| > 0
    ensures 2 * |Lms(t)| + 1 <= |t|
  {
    LmsFromHalf(t, 1);
    assert !IsLMS(t, 0);
  }

  /** Each LMS-substring ends where the next one starts; the last ends at the sentinel. */
  lemma {:induction false} EndIsNext(t: seq<int>, a: int)
    requires 0 <= a < |Lms(t)|
    ensures 0 <= Lms(t)[a] < |t|
    ensures EndS(t, Lms(t)[a]) == if a + 1 < |Lms(t)| then Lms(t)[a + 1] else |t|
  {
    var P := Lms(t);
    LmsFromElements(t, 0);
    var e := EndS(t, P[a]);
    assert a + 1 < |P| ==> P[a] < P[a + 1] && IsLMS(t, P[a + 1]) && e <= P[a + 1];
    if e < |t| {
      var b := LmsFromComplete(t, 0, e);
      assert a < b;
      assert P[a + 1] <= P[b];
    }
  }

  /** `R` names the LMS-substrings: it respects their order and gives equal names only to equal ones. */
  ghost predicate Naming(t: seq<int>, P: seq<int>, R: seq<int>)
    requires forall a :: 0 <= a < |P| ==> 0 <= P[a] < |t|
  {
    && |R| == |P|
    && (forall a, b :: 0 <= a < |P| && 0 <= b < |P| && R[a] < R[b] ==> OrdS(t, false, P[a], P[b]))
    && (forall a, b :: 0 <= a < |P| && 0 <= b < |P| && R[a] == R[b] ==> TieS(t, P[a], P[b]))
  }

  lemma {:induction false} ReductionSound(t: seq<int>, R: seq<int>, a: int, b: int)
    requires forall a :: 0 <= a < |Lms(t)| ==> 0 <= Lms(t)[a] < |t|
    requires Naming(t, Lms(t), R)
    requires 0 <= a < |R| && 0 <= b < |R|
    ensures Less(R, a, b) <==> Less(t, Lms(t)[a], Lms(t)[b])
    decreases |R| - a
  {
    var P := Lms(t);
    if R[a] < R[b] {
      OrdSImpliesLess(t, P[a], P[b]);
    } else if R[b] < R[a] {
      OrdSImpliesLess(t, P[b], P[a]);
      LessAsymmetric(t, P[b], P[a]);
    } else if a == b {
      LessIrreflexive(R, a);
      LessIrreflexive(t, P[a]);
    } else {
      TieSDefersToEnd(t, P[a], P[b]);
      LastSubstringUnique(t, P[a], P[b]);
      EndIsNext(t, a);
      EndIsNext(t, b);
      LmsFromElements(t, 0);
      assert P[a] != P[b] by { assert a < b ==> P[a] < P[b]; assert b < a ==> P[b] < P[a]; }
      ReductionSound(t, R, a + 1, b + 1);
    }
  }

  /** `F` lists the LMS positions of `t`, each once, in increasing suffix order. */
  ghost predicate SortedLms(t: seq<int>, F: seq<int>) {
    && |F| == |Lms(t)|
    && (forall q :: 0 <= q < |F| ==> IsLMS(t, F[q]))
    && (forall p, q :: 0 <= p < q < |F| ==> Less(t, F[p], F[q]))
  }

  /** A suffix array of the reduced text, mapped back, sorts the LMS suffixes. */
  lemma {:induction false} MapBack(t: seq<int>, R: seq<int>, r: seq<int>, F: seq<int>)
    requires forall a :: 0 <= a < |Lms(t)| ==> 0 <= Lms(t)[a] < |t|
    requires Naming(t, Lms(t), R) && IsSuffixArray(R, r)
    requires |F| == |r| && forall q :: 0 <= q < |F| ==> F[q] == Lms(t)[r[q]]
    ensures SortedLms(t, F)
  {
    LmsFromElements(t, 0);
    forall p, q | 0 <= p < q < |F| ensures Less(t, F[p], F[q]) {
      ReductionSound(t, R, r[p], r[q]);
    }
  }
}
