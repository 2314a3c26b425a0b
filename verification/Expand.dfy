/** Spreading the sorted LMS suffixes over the right ends of their buckets, in place, from the last one
    downwards, with everything else cleared. */
module Expand {
  import opened SuffixOrder
  import opened InducedOrder
  import opened Reduction
  import opened Buckets
  import opened Induce
  import opened Memory
  import opened Passes
  import opened Scans
  import opened LmsPasses
  import opened Pigeonhole

  /** A sorted list of LMS positions of the right length has them all. */
  lemma {:induction false} SortedLmsComplete(t: seq<int>, F: seq<int>, x: int)
    requires SortedLms(t, F) && IsLMS(t, x)
    ensures x in F
  {
    LmsFromElements(t, 0);
    forall p, q | 0 <= p < q < |F| ensures F[p] != F[q] { LessIrreflexive(t, F[p]); }
    forall y | y in F ensures y in Elements(Lms(t)) { var a := LmsFromComplete(t, 0, y); }
    DistinctSize(Lms(t));
    DistinctFits(F, Elements(Lms(t)));
    var a := LmsFromComplete(t, 0, x);
    assert x in Elements(Lms(t));
  }

  /** The positions F[rest..] are in place, all of them above `i`; F[..rest-1] is still unread at
      the bottom of the array, and above `i` the array is what the next scan starts from. */
  ghost predicate ExpandAt(t: seq<int>, K: int, F: seq<int>, s: State, V: seq<int>, i: int, rest: int) {
    var j := All(t, K, true);
    && 2 <= |t| && -1 <= i < |t| && 0 <= rest <= |F| && SortedLms(t, F) && SeedInv(j, s) && |V| == |t|
    && (forall x :: 0 <= x < |t| ==> (s.pos[x] >= 0 <==> x in F[rest..]))
    && (forall p :: 0 <= p <= i ==> s.G[p] == -1)
    && (forall p :: i < p < |t| ==> V[p] == Queue(t, s.G[p]))
    && (forall q :: 0 <= q < rest - 1 ==> q < |t| && V[q] == F[q])
  }

  lemma {:induction false} SortedChars(t: seq<int>, F: seq<int>, p: int, q: int)
    requires SortedLms(t, F) && 0 <= p < q < |F|
    ensures t[F[p]] <= t[F[q]] && F[p] != F[q]
    ensures !OrdL(t, true, F[q], F[p])
  {
    assert Less(t, F[p], F[q]);
    LessIrreflexive(t, F[p]);
    LessAsymmetric(t, F[p], F[q]);
    OrdLIsLess(t, F[q], F[p]);
  }

  /** The place of the next position is not below its index in the sorted list, so nothing unread is overwritten. */
  lemma {:induction false} PlaceAboveIndex(t: seq<int>, K: int, F: seq<int>, s: State, V: seq<int>, i: int, rest: int)
    requires ExpandAt(t, K, F, s, V, i, rest) && rest > 0
    ensures 0 <= F[rest - 1] < |t| && 0 <= t[F[rest - 1]] < |s.bk|
    ensures rest <= s.bk[t[F[rest - 1]]] <= |t|
  {
    hide MinB, LTop, Less, SortedL, IsS;
    var j := All(t, K, true);
    var k := F[rest - 1];
    assert IsLMS(t, F[rest - 1]);
    var c := t[k];
    var b := s.bk[c];
    SBucketHigh(j, s, c);
    FilledPart(j, s, b, MaxB(t, c));
    var high := s.G[b..MaxB(t, c)];
    var low := F[..rest];
    forall p, q | 0 <= p < q < |low| ensures low[p] != low[q] { SortedChars(t, F, p, q); }
    forall x | x in low ensures x in Below(t, c + 1) {
      var p :| 0 <= p < |low| && low[p] == x;
      assert IsLMS(t, F[p]);
      if p < rest - 1 { SortedChars(t, F, p, rest - 1); }
    }
    forall x | x in high ensures x in Below(t, c + 1) && x !in low {
      var a :| 0 <= a < |high| && high[a] == x;
      assert s.G[b + a] == x && s.pos[s.G[b + a]] == b + a;
      Unplaced(t, F, rest, x);
    }
    DistinctConcat(low, high);
    DistinctFits(low + high, Below(t, c + 1));
  }

  lemma {:induction false} Unplaced(t: seq<int>, F: seq<int>, rest: int, x: int)
    requires SortedLms(t, F) && 0 <= rest <= |F| && x in F[rest..]
    ensures x !in F[..rest]
  {
    var q :| 0 <= q < |F[rest..]| && F[rest..][q] == x;
    assert F[rest + q] == x;
    forall p | 0 <= p < rest ensures F[..rest][p] != x { SortedChars(t, F, p, rest + q); }
  }

  lemma {:induction false} ExpandStart(t: seq<int>, K: int, F: seq<int>, V: seq<int>, B: seq<int>)
    requires |t| >= 2 && Alphabet(t, K) && SortedLms(t, F)
    requires |V| == |t| && |F| <= |V| && V[..|F|] == F
    requires |B| == K && forall c :: 0 <= c < K ==> B[c] == MaxB(t, c)
    ensures ExpandAt(t, K, F, Empty(t, B), V, |t| - 1, |F|)
  {
    hide MaxB, MinB, LTop, OrdL, Less, IsS;
    var s := Empty(t, B);
    forall c | 0 <= c < K ensures LTop(t, c) <= s.bk[c] <= MaxB(t, c) { BucketSplit(t, c); }
    assert SShape(All(t, K, true), s);
    forall q | 0 <= q < |F| - 1 ensures V[q] == F[q] { assert V[..|F|][q] == F[q]; }
  }

  lemma {:induction false} ExpandClear(t: seq<int>, K: int, F: seq<int>, s: State, V: seq<int>, i: int, rest: int)
    requires ExpandAt(t, K, F, s, V, i, rest) && 0 <= i && rest - 1 <= i
    ensures ExpandAt(t, K, F, s, V[i := 0], i - 1, rest)
  {
    hide SeedInv, SortedLms, IsS;
  }

  lemma {:induction false} ExpandPut(t: seq<int>, K: int, F: seq<int>, s: State, V: seq<int>, i: int, rest: int)
    requires ExpandAt(t, K, F, s, V, i, rest) && 0 <= i && 0 < rest
    requires 0 <= F[rest - 1] < |t| && 0 <= t[F[rest - 1]] < |s.bk| && s.bk[t[F[rest - 1]]] - 1 == i && rest - 1 <= i
    ensures Fits(All(t, K, true), s)
    ensures ExpandAt(t, K, F, SNext(All(t, K, true), s, F[rest - 1]), V[i := F[rest - 1]], i - 1, rest - 1)
    ensures rest > 1 ==> V[i := F[rest - 1]][rest - 2] == F[rest - 2]
  {
    hide MaxB, MinB, LTop, SShape, SortedL, Less, IsS, OrdL;
    var j := All(t, K, true);
    var k := F[rest - 1];
    assert IsLMS(t, F[rest - 1]);
    assert F[rest - 1..] == [k] + F[rest..];
    assert k in F[..rest];
    if k in F[rest..] { Unplaced(t, F, rest, k); assert false; }
    forall x | 0 <= x < |t| && s.pos[x] >= 0 && t[x] == t[k] ensures !OrdL(t, true, x, k) {
      var q :| 0 <= q < |F[rest..]| && F[rest..][q] == x;
      assert F[rest + q] == x;
      SortedChars(t, F, rest - 1, rest + q);
    }
    SeedStep(j, s, k);
    assert Queue(t, k) == k;
  }

  /** Once a position is put down at `i`, the place of the next one lies left of `i`. */
  lemma {:induction false} NextBelow(t: seq<int>, K: int, F: seq<int>, s: State, V: seq<int>, i: int, rest: int)
    requires ExpandAt(t, K, F, s, V, i, rest) && 0 < rest < |F| && i + 1 < |t|
    requires 0 <= F[rest] < |t| && 0 <= t[F[rest]] < |s.bk| && s.bk[t[F[rest]]] == i + 1
    requires |s.G| == |t| && s.G[i + 1] == F[rest]
    requires 0 <= F[rest - 1] < |t| && 0 <= t[F[rest - 1]] < |s.bk|
    ensures s.bk[t[F[rest - 1]]] <= i + 1
  {
    hide MaxB, MinB, LTop, SortedL, Less, IsS, OrdL;
    SortedChars(t, F, rest - 1, rest);
    var c, d := t[F[rest - 1]], t[F[rest]];
    if c < d { BucketOrder(t, c, d); SBucketHigh(All(t, K, true), s, c); }
  }

  lemma {:induction false} ExpandEnd(t: seq<int>, K: int, F: seq<int>, s: State, V: seq<int>, rest: int)
    requires ExpandAt(t, K, F, s, V, -1, rest) && rest == 0
    ensures Seeded(All(t, K, true), s, V)
  {
    hide MaxB, MinB, LTop, SShape, SortedL, SortedLms, IsS;
    assert F[0..] == F;
    assert Fits(All(t, K, true), s);
    forall x | 0 <= x < |t| && IsLMS(t, x) ensures s.pos[x] >= 0 { SortedLmsComplete(t, F, x); }
  }

  lemma {:induction false} PendingBasics(t: seq<int>, K: int, F: seq<int>, s: State, V: seq<int>, i: int, rest: int)
    requires ExpandAt(t, K, F, s, V, i, rest)
    ensures |s.bk| == K && |s.G| == |t|
    ensures forall q :: 0 <= q < |F| ==> 0 <= F[q] < |t| && 0 <= t[F[q]] < |s.bk|
  {
    hide MaxB, MinB, LTop, SShape, SortedL, Less, IsS, OrdL;
    forall q | 0 <= q < |F| ensures 0 <= F[q] < |t| && 0 <= t[F[q]] < |s.bk| {
      assert IsLMS(t, F[q]);
    }
  }

  /** sa[:numLMS], sorted, goes to the right ends of the buckets; all other cells become 0. */
  method ExpandPass(w: Work, ghost f: Frame, numLMS: nat, ghost F: seq<int>) returns (ghost s: State)
    requires w.Ready(f) && SortedLms(f.t, F) && 0 < numLMS == |F| <= |f.t| && w.sa.View()[..numLMS] == F
    modifies w.sa.arr, w.tmp.arr
    ensures w.Ready(f) && Seeded(All(f.t, w.K, true), s, w.sa.View())
  {
    hide *;
    BucketMax(w, f);
    Shape(w, f);
    s := Empty(f.t, w.Buckets());
    ExpandStart(f.t, w.K, F, w.sa.View(), w.Buckets());
    PendingBasics(f.t, w.K, F, s, w.sa.View(), |f.t| - 1, numLMS);
    PlaceAboveIndex(f.t, w.K, F, s, w.sa.View(), |f.t| - 1, numLMS);
    TableStart(w, f.t[F[numLMS - 1]]);

    var x := numLMS - 1;
    var saX := w.sa.Get(x);
    assert saX == w.sa.View()[..numLMS][x];
    var c := w.text.Get(saX);
    assert c == f.t[F[x]];
    var b := w.tmp.Get(w.off + c) - 1;
    SetBucket(w, c, b, f);
    ghost var rest := numLMS;

    var i := w.sa.len - 1;
    while i >= 0
      invariant -1 <= i < |f.t| && w.Ready(f)
      invariant ExpandAt(f.t, w.K, F, s, w.sa.View(), i, rest)
      invariant 0 <= x < |F| && (rest == 0 ==> x == 0) && (rest > 0 ==> rest == x + 1 && saX == F[x] && c == f.t[saX])
      invariant |s.bk| == w.K && |s.G| == |f.t| && forall q :: 0 <= q < |F| ==> 0 <= F[q] < |f.t| && 0 <= f.t[F[q]] < |s.bk|
      invariant rest == 0 ==> b > i
      invariant rest > 0 ==> b == s.bk[c] - 1 && w.Buckets() == s.bk[c := b] && x <= b <= i
    {
      Shape(w, f);
      if i != b {
        ExpandClear(f.t, w.K, F, s, w.sa.View(), i, rest);
        SetSa(w, i, 0, f);
      } else {
        ExpandPut(f.t, w.K, F, s, w.sa.View(), i, rest);
        SetSa(w, i, saX, f);
        s := SNext(All(f.t, w.K, true), s, saX);
        rest := rest - 1;
        if x > 0 {
          NextBelow(f.t, w.K, F, s, w.sa.View(), i - 1, rest);
          PlaceAboveIndex(f.t, w.K, F, s, w.sa.View(), i - 1, rest);
          TableStart(w, f.t[F[rest - 1]]);
          Shape(w, f);
          x := x - 1;
          saX := w.sa.Get(x);
          c := w.text.Get(saX);
          b := w.tmp.Get(w.off + c) - 1;
          SetBucket(w, c, b, f);
        }
      }
      i := i - 1;
    }
    ExpandEnd(f.t, w.K, F, s, w.sa.View(), rest);
  }
}
