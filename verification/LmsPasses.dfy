/**
 The passes that find the LMS positions by one backward run over the text: bucketing them,
 and putting the sorted ones back at the right ends of their buckets.
 */
module LmsPasses {
  import opened SuffixOrder
  import opened InducedOrder
  import opened Reduction
  import opened Buckets
  import opened Induce
  import opened Memory
  import opened Passes
  import opened Scans
  import opened Pigeonhole

  // ---------- the LMS-substring iterator ----------

  /** Before index `i` is looked at: `c` is the character right of it and `isS` that position's
      type (the sentinel is given out as character 0 of type L, so that it is never reported). */
  ghost predicate Iter(t: seq<int>, i: int, c: int, isS: bool) {
    && -1 <= i < |t|
    && (if i + 1 == |t| then c == 0 && !isS else c == t[i + 1] && (isS <==> IsS(t, i + 1)))
  }

  /** LMS positions seen before index `i` is looked at. */
  ghost function Seen(t: seq<int>, i: int): seq<int>
    requires -1 <= i < |t|
  {
    if i + 2 <= |t| then LmsFrom(t, i + 2) else []
  }

  lemma {:induction false} IterStep(t: seq<int>, K: int, i: int, c1: int, isS: bool)
    requires Alphabet(t, K) && Iter(t, i, c1, isS) && 0 <= i
    ensures t[i] < c1 ==> Iter(t, i - 1, t[i], true)
    ensures t[i] > c1 && isS ==> Iter(t, i - 1, t[i], false)
    ensures !(t[i] < c1) && !(t[i] > c1 && isS) ==> Iter(t, i - 1, t[i], isS)
    ensures t[i] > c1 && isS <==> IsLMS(t, i + 1)
    ensures t[i] > c1 && isS ==> i + 1 < |t| && c1 == t[i + 1]
    ensures Seen(t, i - 1) == (if t[i] > c1 && isS then [i + 1] else []) + Seen(t, i)
  {
  }

  lemma {:induction false} IterEnd(t: seq<int>)
    requires |t| > 0
    ensures Seen(t, |t| - 1) == []
    ensures Seen(t, -1) == Lms(t)
  {
    assert !IsLMS(t, 0);
  }

  // ---------- bucketing the LMS positions ----------

  /** The job the LMS positions are first placed for: all of them take part. */
  ghost function All(t: seq<int>, K: int, full: bool): (j: Job)
    ensures j.t == t && j.K == K
  {
    Job(t, K, 0, full)
  }

  /** The job of the first pair of scans: the leftmost LMS position ends no LMS-substring. */
  ghost function Sub(t: seq<int>, K: int): Job
    requires |Lms(t)| > 0
  {
    Job(t, K, Lms(t)[0], false)
  }

  ghost function Empty(t: seq<int>, bk: seq<int>): (s: State)
    ensures s.bk == bk
  {
    State(seq(|t|, _ => -1), seq(|t|, _ => -1), bk)
  }

  /** Exactly the LMS positions from `from` on are placed. */
  ghost predicate PlacedFrom(j: Job, s: State, from: int)
    requires Fits(j, s)
  {
    forall x :: 0 <= x < |j.t| && IsLMS(j.t, x) ==> (s.pos[x] >= 0 <==> from <= x)
  }

  ghost predicate PlaceAt(t: seq<int>, K: int, s: State, V: seq<int>, B: seq<int>, i: int, last: int) {
    var j := All(t, K, false);
    && 2 <= |t| && -1 <= i < |t| && SeedInv(j, s) && Stored(j, s, V) && B == s.bk
    && PlacedFrom(j, s, i + 2)
    && (Seen(t, i) != [] ==> 0 <= last < |t| && 0 <= s.G[last] == Seen(t, i)[0] && last == s.bk[t[s.G[last]]])
  }

  lemma {:induction false} PlaceStart(t: seq<int>, K: int, V: seq<int>, B: seq<int>)
    requires |t| >= 2 && Alphabet(t, K)
    requires |V| == |t| && forall p :: 0 <= p < |t| ==> V[p] == 0
    requires |B| == K && forall c :: 0 <= c < K ==> B[c] == MaxB(t, c)
    ensures PlaceAt(t, K, Empty(t, B), V, B, |t| - 1, -1)
  {
    hide MaxB, MinB, LTop, OrdL;
    var j := All(t, K, false);
    var s := Empty(t, B);
    forall c | 0 <= c < K ensures LTop(t, c) <= s.bk[c] <= MaxB(t, c) { BucketSplit(t, c); }
    assert SShape(j, s);
    assert Seen(t, |t| - 1) == [];
  }

  lemma {:induction false} PlaceFound(t: seq<int>, K: int, s: State, V: seq<int>, B: seq<int>, i: int, last: int)
    requires PlaceAt(t, K, s, V, B, i, last) && 0 <= i && IsLMS(t, i + 1)
    ensures Fits(All(t, K, false), s) && 0 < s.bk[t[i + 1]] <= |t| && |B| == K
    ensures PlaceAt(t, K, SNext(All(t, K, false), s, i + 1), V[s.bk[t[i + 1]] - 1 := i + 1],
                    B[t[i + 1] := s.bk[t[i + 1]] - 1], i - 1, s.bk[t[i + 1]] - 1)
  {
    hide MaxB, MinB, LTop, SShape, SortedL, Less;
    var j := All(t, K, false);
    var k := i + 1;
    forall x | 0 <= x < |t| && s.pos[x] >= 0 && t[x] == t[k] ensures !OrdL(t, false, x, k) {
      assert s.G[s.pos[x]] == x && j.Seed(s.G[s.pos[x]]);
    }
    SeedStep(j, s, k);
    assert Seen(t, i - 1) == [k] + Seen(t, i);
  }

  lemma {:induction false} PlaceSkip(t: seq<int>, K: int, s: State, V: seq<int>, B: seq<int>, i: int, last: int)
    requires PlaceAt(t, K, s, V, B, i, last) && 0 <= i && !IsLMS(t, i + 1)
    ensures PlaceAt(t, K, s, V, B, i - 1, last)
  {
    hide MaxB, MinB, LTop, SShape, SortedL, Less, Stored, IsS, IsLMS, Placement;
    assert Seen(t, i - 1) == Seen(t, i);
  }

  /** Taking the leftmost LMS position out again. */
  ghost function Without(s: State, t: seq<int>, f: int, last: int): State
    requires 0 <= f < |s.pos| && 0 <= last < |s.G| && f < |t| && 0 <= t[f] < |s.bk|
  {
    State(s.G[last := -1], s.pos[f := -1], s.bk[t[f] := last + 1])
  }

  lemma {:induction false} OneLms(t: seq<int>, x: int, y: int)
    requires |Lms(t)| <= 1 && IsLMS(t, x) && IsLMS(t, y)
    ensures x == y
  {
    var a := LmsFromComplete(t, 0, x);
    var b := LmsFromComplete(t, 0, y);
  }

  /** Where the seeds stand does not depend on the order they are sorted by. */
  lemma {:induction false} ShapeAnyOrder(j: Job, s: State, full: bool)
    requires Placement(j, s) && SShape(j, s)
    ensures Placement(j.(full := full), s) && SShape(j.(full := full), s)
  {
    hide MaxB, MinB, LTop, IsS;
  }

  /** A single LMS position needs no sorting. */
  lemma {:induction false} PlaceEnd(t: seq<int>, K: int, s: State, V: seq<int>, B: seq<int>, last: int)
    requires PlaceAt(t, K, s, V, B, -1, last) && |Lms(t)| <= 1
    ensures SeedInv(All(t, K, true), s) && SeedsPlaced(All(t, K, true), s)
    ensures Stored(All(t, K, true), s, V)
  {
    hide MaxB, MinB, LTop, Less, OrdL, IsS, SShape;
    ShapeAnyOrder(All(t, K, false), s, true);
    forall p, q | 0 <= p < |t| && 0 <= q < |t| && s.G[p] >= 0 && s.G[q] >= 0 ensures p == q {
      assert s.pos[s.G[p]] == p && s.pos[s.G[q]] == q;
      OneLms(t, s.G[p], s.G[q]);
    }
  }

  lemma {:induction false} FirstIsLeast(t: seq<int>, x: int)
    requires IsLMS(t, x)
    ensures Lms(t) != [] && 0 < Lms(t)[0] <= x && IsLMS(t, Lms(t)[0])
  {
    LmsFromElements(t, 0);
    var a := LmsFromComplete(t, 0, x);
  }

  lemma {:induction false} PlaceDropBasics(t: seq<int>, K: int, s: State, V: seq<int>, B: seq<int>, last: int)
    requires PlaceAt(t, K, s, V, B, -1, last) && Lms(t) != []
    ensures IsLMS(t, Lms(t)[0]) && 0 <= last < |t| && s.G[last] == Lms(t)[0] && s.pos[Lms(t)[0]] == last
    ensures last == s.bk[t[Lms(t)[0]]] && Sub(t, K).Valid()
  {
    hide MaxB, MinB, LTop, Less, OrdL, IsS, SShape, SortedL, Stored;
    IterEnd(t);
    LmsFromElements(t, 0);
    assert s.pos[s.G[last]] == last;
  }

  lemma {:induction false} PlaceDropPlacement(j: Job, s: State, f: int, last: int, j': Job)
    requires Placement(j, s) && 0 <= f < |j.t| && s.pos[f] == last && 0 <= last < |j.t|
    requires j' == Job(j.t, j.K, f, false)
    requires forall p :: 0 <= p < |j.t| && s.G[p] >= 0 ==> f <= s.G[p]
    ensures Placement(j', Without(s, j.t, f, last))
  {
    hide MaxB, MinB;
  }

  lemma {:induction false} PlaceDropShape(j: Job, s: State, f: int, last: int, j': Job)
    requires j.Valid() && Placement(j, s) && SShape(j, s) && 0 <= f < |j.t| && s.pos[f] == last == s.bk[j.t[f]] && 0 <= last < |j.t|
    requires j' == Job(j.t, j.K, f, false) && Placement(j', Without(s, j.t, f, last)) && IsS(j.t, f)
    ensures SShape(j', Without(s, j.t, f, last))
  {
    hide MaxB, MinB, LTop, IsS;
    var s' := Without(s, j.t, f, last);
    assert s.G[last] == f;
    SBucketHigh(j, s, j.t[f]);
    assert last < MaxB(j.t, j.t[f]);
    forall c, p | 0 <= c < j.K && s'.bk[c] <= p < MaxB(j.t, c) && 0 <= p < |j.t|
      ensures s'.G[p] >= 0 && j.t[s'.G[p]] == c && IsS(j.t, s'.G[p])
    {
      assert s.G[p] >= 0 && j.t[s.G[p]] == c;
    }
    forall p | 0 <= p < |j.t| && s'.G[p] >= 0 && IsS(j.t, s'.G[p]) ensures p >= s'.bk[j.t[s'.G[p]]] {
      assert p != last;
    }
  }

  /** Without the leftmost LMS position, the array is ready for the first pair of scans. */
  lemma {:induction false} PlaceDrop(t: seq<int>, K: int, s: State, V: seq<int>, B: seq<int>, last: int)
    requires PlaceAt(t, K, s, V, B, -1, last) && Lms(t) != []
    ensures 0 <= Lms(t)[0] < |t| && 0 <= last < |t| && |s.G| == |s.pos| == |t| && 0 <= t[Lms(t)[0]] < |s.bk|
    ensures SeedInv(Sub(t, K), Without(s, t, Lms(t)[0], last))
    ensures SeedsPlaced(Sub(t, K), Without(s, t, Lms(t)[0], last))
    ensures Stored(Sub(t, K), Without(s, t, Lms(t)[0], last), V[last := 0])
  {
    hide MaxB, MinB, LTop, Less, OrdL, IsS, SShape;
    var f := Lms(t)[0];
    var j := All(t, K, false);
    PlaceDropBasics(t, K, s, V, B, last);
    forall p | 0 <= p < |t| && s.G[p] >= 0 ensures f <= s.G[p] { FirstIsLeast(t, s.G[p]); }
    PlaceDropPlacement(j, s, f, last, Sub(t, K));
    PlaceDropShape(j, s, f, last, Sub(t, K));
    forall p | 0 <= p < |t| && s.G[p] >= 0 && p != last ensures f < s.G[p] {
      assert s.pos[s.G[p]] == p;
    }
  }

  lemma {:induction false} PlaceDone(t: seq<int>, K: int, s: State, V: seq<int>, B: seq<int>, last: int)
    requires PlaceAt(t, K, s, V, B, -1, last)
    ensures Seen(t, -1) == Lms(t)
    ensures |Lms(t)| <= 1 ==> Seeded(All(t, K, true), s, V)
    ensures Lms(t) != [] ==> 0 <= Lms(t)[0] < |t| && 0 <= last < |t| && |s.G| == |s.pos| == |t| && 0 <= t[Lms(t)[0]] < |s.bk|
    ensures Lms(t) != [] ==> Seeded(Sub(t, K), Without(s, t, Lms(t)[0], last), V[last := 0])
  {
    hide MaxB, MinB, LTop, Less, OrdL, IsS, SShape, SeedInv, SeedsPlaced, Stored, Lms, Without, Sub;
    IterEnd(t);
    if |Lms(t)| <= 1 { PlaceEnd(t, K, s, V, B, last); }
    if Lms(t) != [] { PlaceDrop(t, K, s, V, B, last); }
  }

  /** Buckets the LMS positions and counts them. With more than one, the leftmost is left out. */
  method PlaceLMS(w: Work, ghost f: Frame) returns (numLMS: nat, ghost s: State)
    requires w.Ready(f) && forall p :: 0 <= p < |f.t| ==> w.sa.View()[p] == 0
    modifies w.sa.arr, w.tmp.arr
    ensures w.Ready(f) && numLMS == |Lms(f.t)|
    ensures Seeded(if numLMS <= 1 then All(f.t, w.K, true) else Sub(f.t, w.K), s, w.sa.View())
  {
    hide *;
    Shape(w, f);
    BucketMax(w, f);
    Shape(w, f);
    s := Empty(f.t, w.Buckets());
    PlaceStart(f.t, w.K, w.sa.View(), w.Buckets());
    IterStart(f.t);
    numLMS := 0;
    var lastB := -1;
    var c0, c1, isTypeS := 0, 0, false;
    var i := w.text.len - 1;
    while i >= 0
      invariant -1 <= i < |f.t|
      invariant w.Ready(f) && Iter(f.t, i, c0, isTypeS)
      invariant PlaceAt(f.t, w.K, s, w.sa.View(), w.Buckets(), i, lastB)
      invariant numLMS == |Seen(f.t, i)|
    {
      Shape(w, f);
      IterStep(f.t, w.K, i, c0, isTypeS);
      c0, c1 := w.text.Get(i), c0;
      assert c0 == f.t[i];
      if c0 < c1 {
        isTypeS := true;
        PlaceSkip(f.t, w.K, s, w.sa.View(), w.Buckets(), i, lastB);
      } else if c0 > c1 && isTypeS {
        isTypeS := false;
        PlaceFound(f.t, w.K, s, w.sa.View(), w.Buckets(), i, lastB);
        PlaceTable(w, f.t, s, i, lastB);
        var b := w.tmp.Get(w.off + c1) - 1;
        SetBucket(w, c1, b, f);
        SetSa(w, b, i + 1, f);
        s := SNext(All(f.t, w.K, false), s, i + 1);
        lastB := b;
        numLMS := numLMS + 1;
      } else {
        PlaceSkip(f.t, w.K, s, w.sa.View(), w.Buckets(), i, lastB);
      }
      i := i - 1;
    }
    PlaceDone(f.t, w.K, s, w.sa.View(), w.Buckets(), lastB);
    if numLMS > 1 {
      s := Without(s, f.t, Lms(f.t)[0], lastB);
      SetSa(w, lastB, 0, f);
    }
  }

  lemma {:induction false} IterStart(t: seq<int>)
    requires |t| > 0
    ensures Iter(t, |t| - 1, 0, false) && Seen(t, |t| - 1) == []
  {
  }

  lemma {:induction false} PlaceTable(w: Work, t: seq<int>, s: State, i: int, last: int)
    requires w.tmp.Valid() && w.sa.Valid() && w.off + w.K <= w.tmp.len && |t| == w.sa.len
    requires PlaceAt(t, w.K, s, w.sa.View(), w.Buckets(), i, last)
    ensures w.Buckets() == s.bk
    ensures forall c :: 0 <= c < w.K ==> w.tmp.View()[w.off + c] == s.bk[c]
  {
  }
}
