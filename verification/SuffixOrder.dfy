/** Suffixes of an integer text, their order, and their types. */
module SuffixOrder {
  import Pigeonhole

  // Position |t| denotes the empty suffix (the imaginary sentinel), which is smaller than
  // every other suffix.

  /** Suffix `i` is lexicographically smaller than suffix `j`. */
  ghost predicate Less(t: seq<int>, i: int, j: int)
    requires 0 <= i <= |t| && 0 <= j <= |t|
    decreases |t| - i
  {
    j < |t| && (i == |t| || t[i] < t[j] || (t[i] == t[j] && Less(t, i + 1, j + 1)))
  }

  /** Position `i` is of type S: its suffix is smaller than the suffix after it.
      The sentinel position counts as S; every other position that is not S is of type L. */
  ghost predicate IsS(t: seq<int>, i: int)
    requires 0 <= i <= |t|
    decreases |t| - i
  {
    i == |t| || (i + 1 < |t| && (t[i] < t[i + 1] || (t[i] == t[i + 1] && IsS(t, i + 1))))
  }

  /** Leftmost S: an S position right after an L position. */
  ghost predicate IsLMS(t: seq<int>, i: int) {
    0 < i < |t| && IsS(t, i) && !IsS(t, i - 1)
  }

  /** `sa` lists every text position once, in increasing suffix order. */
  ghost predicate IsSuffixArray(t: seq<int>, sa: seq<int>) {
    && |sa| == |t|
    && (forall p :: 0 <= p < |sa| ==> 0 <= sa[p] < |t|)
    && (forall p, q :: 0 <= p < q < |sa| ==> Less(t, sa[p], sa[q]))
  }

  // ---------- Less is a strict total order ----------

  lemma {:induction false} LessIrreflexive(t: seq<int>, i: int)
    requires 0 <= i <= |t|
    ensures !Less(t, i, i)
    decreases |t| - i
  {
    if i < |t| { LessIrreflexive(t, i + 1); }
  }

  lemma {:induction false} LessAsymmetric(t: seq<int>, i: int, j: int)
    requires 0 <= i <= |t| && 0 <= j <= |t|
    requires Less(t, i, j)
    ensures !Less(t, j, i)
    decreases |t| - i
  {
    if i < |t| && t[i] == t[j] { LessAsymmetric(t, i + 1, j + 1); }
  }

  lemma {:induction false} LessTotal(t: seq<int>, i: int, j: int)
    requires 0 <= i <= |t| && 0 <= j <= |t|
    ensures Less(t, i, j) || Less(t, j, i) || i == j
    decreases |t| - i
  {
    if i < |t| && j < |t| && t[i] == t[j] { LessTotal(t, i + 1, j + 1); }
  }

  lemma {:induction false} LessTransitive(t: seq<int>, i: int, j: int, k: int)
    requires 0 <= i <= |t| && 0 <= j <= |t| && 0 <= k <= |t|
    requires Less(t, i, j) && Less(t, j, k)
    ensures Less(t, i, k)
    decreases |t| - i
  {
    if i < |t| && t[i] == t[j] == t[k] { LessTransitive(t, i + 1, j + 1, k + 1); }
  }

  // ---------- types ----------

  /** The recursive type definition says exactly that the suffix grows to the right. */
  lemma {:induction false} TypeIsOrder(t: seq<int>, i: int)
    requires 0 <= i < |t|
    ensures IsS(t, i) <==> Less(t, i, i + 1)
    decreases |t| - i
  {
    if i + 1 < |t| && t[i] == t[i + 1] { TypeIsOrder(t, i + 1); }
  }

  /** Among suffixes with the same first character every L suffix precedes every S suffix. */
  lemma {:induction false} LBeforeS(t: seq<int>, i: int, j: int)
    requires 0 <= i < |t| && 0 <= j < |t| && t[i] == t[j]
    requires !IsS(t, i) && IsS(t, j)
    ensures Less(t, i, j)
    decreases |t| - i
  {
    if i + 1 < |t| && t[i + 1] == t[i] && t[j + 1] == t[j] { LBeforeS(t, i + 1, j + 1); }
  }

  /** The suffix order decides uniquely: two suffix arrays of one text are equal. */
  lemma {:induction false} SuffixArrayUnique(t: seq<int>, a: seq<int>, b: seq<int>)
    requires IsSuffixArray(t, a) && IsSuffixArray(t, b)
    ensures a == b
  {
    forall p | 0 <= p < |a| ensures a[p] == b[p] {
      RankDetermines(t, a, b, p);
    }
  }

  /** The number of entries below a suffix is its index, whichever suffix array is used. */
  lemma {:induction false} RankDetermines(t: seq<int>, a: seq<int>, b: seq<int>, p: int)
    requires IsSuffixArray(t, a) && IsSuffixArray(t, b)
    requires 0 <= p < |a|
    ensures a[p] == b[p]
    decreases p
  {
    forall q | 0 <= q < p ensures a[q] == b[q] { RankDetermines(t, a, b, q); }
    if a[p] != b[p] {
      var x := Find(t, b, a[p]);
      var y := Find(t, a, b[p]);
      if x < p { assert a[x] == a[p]; LessIrreflexive(t, a[p]); assert false; }
      if y < p { assert b[y] == b[p]; LessIrreflexive(t, b[p]); assert false; }
      assert Less(t, b[p], b[x]);
      assert Less(t, a[p], a[y]);
      LessAsymmetric(t, a[p], b[p]);
    }
  }

  /** Every text position occurs in a suffix array. */
  lemma {:induction false} Find(t: seq<int>, sa: seq<int>, x: int) returns (p: int)
    requires IsSuffixArray(t, sa) && 0 <= x < |t|
    ensures 0 <= p < |sa| && sa[p] == x
  {
    forall p, q | 0 <= p < q < |sa| ensures sa[p] != sa[q] { LessIrreflexive(t, sa[p]); }
    p := Pigeonhole.FindInPermutation(sa, x);
  }
}
