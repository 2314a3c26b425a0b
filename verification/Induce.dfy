/** The induced-sorting scans, abstractly. */
module Induce {
  import opened SuffixOrder
  import opened InducedOrder
  import opened Buckets
  import opened Pigeonhole

  // A placement puts text positions at places of a (partly filled) array: `G[p]` is the text
  // position at place `p`, or -1; `pos` is its inverse. The left-to-right scan inserts L positions
  // at the left ends of their buckets, the right-to-left scan S positions at the right ends.
  // Positions left of `lo` take no part. The two concrete pairs of scans (over LMS-substrings and
  // over whole suffixes) store a placement in different ways, but step by step they move as here.

  /** What is being sorted: text, alphabet size, first participating position, order. */
  datatype Job = Job(t: seq<int>, K: int, lo: int, full: bool) {
    ghost predicate Valid() {
      && |t| >= 2
      && Alphabet(t, K)
      && 0 <= lo < |t|
      && (lo > 0 ==> IsLMS(t, lo))
    }

    /** LMS positions whose place is known before the L scan. */
    ghost predicate Seed(x: int) {
      lo < x < |t| && IsLMS(t, x)
    }
  }

  datatype State = State(G: seq<int>, pos: seq<int>, bk: seq<int>) {
    function Insert(k: int, c: int, b: int, next: int): State
      requires 0 <= b < |G| && 0 <= k < |pos| && 0 <= c < |bk|
    {
      State(G[b := k], pos[k := b], bk[c := next])
    }
  }

  /** All entries are in range. */
  ghost predicate Fits(j: Job, s: State) {
    && Alphabet(j.t, j.K) && 0 <= j.lo
    && |s.G| == |j.t| && |s.pos| == |j.t| && |s.bk| == j.K
    && (forall p :: 0 <= p < |j.t| ==> -1 <= s.G[p] < |j.t|)
    && (forall x :: 0 <= x < |j.t| ==> -1 <= s.pos[x] < |j.t|)
  }

  /** `G` and `pos` are inverse, and every position stands in the bucket of its character. */
  ghost predicate Placement(j: Job, s: State) {
    && Fits(j, s)
    && (forall p :: 0 <= p < |j.t| && s.G[p] >= 0 ==>
          j.lo <= s.G[p] && MinB(j.t, j.t[s.G[p]]) <= p < MaxB(j.t, j.t[s.G[p]]))
    && (forall p {:trigger s.pos[s.G[p]]} :: 0 <= p < |j.t| && s.G[p] >= 0 ==> s.pos[s.G[p]] == p)
    && (forall x :: 0 <= x < |j.t| && s.pos[x] >= 0 ==> s.G[s.pos[x]] == x)
  }

  lemma {:induction false} InsertPlacement(j: Job, s: State, k: int, b: int, next: int)
    requires j.Valid() && Placement(j, s)
    requires j.lo <= k < |j.t| && s.pos[k] == -1
    requires MinB(j.t, j.t[k]) <= b < MaxB(j.t, j.t[k]) && b < |j.t| && s.G[b] == -1
    ensures Placement(j, s.Insert(k, j.t[k], b, next))
  {
  }

  // ---------- left-to-right scan ----------

  /** Positions of type L fill each bucket from the left up to `bk`; S positions stay in the right part. */
  ghost predicate LShape(j: Job, s: State)
    requires Fits(j, s)
  {
    && (forall c :: 0 <= c < j.K ==> MinB(j.t, c) <= s.bk[c] <= LTop(j.t, c))
    && (forall c, p :: 0 <= c < j.K && MinB(j.t, c) <= p < s.bk[c] && p < |j.t| ==>
          s.G[p] >= 0 && j.t[s.G[p]] == c && !IsS(j.t, s.G[p]))
    && (forall p :: 0 <= p < |j.t| && s.G[p] >= 0 && !IsS(j.t, s.G[p]) ==> p < s.bk[j.t[s.G[p]]])
    && (forall p :: 0 <= p < |j.t| && s.G[p] >= 0 && IsS(j.t, s.G[p]) ==>
          p >= LTop(j.t, j.t[s.G[p]]) && j.Seed(s.G[p]))
  }

  /** The scan, which handles the sentinel before place 0, has passed the right neighbour of `x`. */
  ghost predicate DueL(j: Job, s: State, x: int, i: int)
    requires Fits(j, s)
    requires 0 <= x < |j.t|
  {
    if x + 1 == |j.t| then i >= 0 else 0 <= s.pos[x + 1] < i
  }

  /** An L position is in place exactly when its right neighbour has been passed. */
  ghost predicate LProgress(j: Job, s: State, i: int)
    requires Fits(j, s)
  {
    forall x {:trigger DueL(j, s, x, i)} :: j.lo <= x < |j.t| && !IsS(j.t, x) ==> (s.pos[x] >= 0 <==> DueL(j, s, x, i))
  }

  ghost predicate SeedsPlaced(j: Job, s: State)
    requires Fits(j, s)
  {
    forall x :: 0 <= x < |j.t| && j.Seed(x) ==> s.pos[x] >= 0
  }

  ghost predicate SortedL(j: Job, s: State)
    requires Fits(j, s)
  {
    forall p, q :: 0 <= p < q < |j.t| && s.G[p] >= 0 && s.G[q] >= 0 ==>
      !OrdL(j.t, j.full, s.G[q], s.G[p])
  }

  ghost predicate LInv(j: Job, s: State, i: int) {
    && j.Valid() && Placement(j, s) && LShape(j, s) && -1 <= i <= |j.t|
    && LProgress(j, s, i) && SeedsPlaced(j, s) && SortedL(j, s)
  }

  /** The scan at `i` meets a position whose left neighbour `k` has to be inserted. */
  ghost predicate LEnabled(j: Job, s: State, i: int, k: int) {
    && LInv(j, s, i) && i < |j.t|
    && j.lo <= k < |j.t| && !IsS(j.t, k)
    && (if i == -1 then k + 1 == |j.t| else k + 1 < |j.t| && s.G[i] == k + 1)
  }

  /** The part of a bucket that is filled holds distinct positions of that bucket. */
  lemma {:induction false} FilledPart(j: Job, s: State, lo: int, hi: int)
    requires j.Valid() && Placement(j, s)
    requires 0 <= lo <= hi <= |j.t|
    requires forall p :: lo <= p < hi ==> s.G[p] >= 0
    ensures Distinct(s.G[lo..hi])
  {
    forall a, b | 0 <= a < b < hi - lo ensures s.G[lo..hi][a] != s.G[lo..hi][b] {
      assert s.pos[s.G[lo + a]] == lo + a && s.pos[s.G[lo + b]] == lo + b;
    }
  }

  /** There is room: the next place of the bucket is empty and still in its L part. */
  lemma {:induction false} LRoom(j: Job, s: State, k: int)
    requires j.Valid() && Placement(j, s) && LShape(j, s)
    requires j.lo <= k < |j.t| && !IsS(j.t, k) && s.pos[k] == -1
    ensures s.bk[j.t[k]] < LTop(j.t, j.t[k]) <= MaxB(j.t, j.t[k]) <= |j.t|
    ensures s.G[s.bk[j.t[k]]] == -1
  {
    hide IsS, Less;
    var c := j.t[k];
    var b := s.bk[c];
    BucketSplit(j.t, c);
    var filled := s.G[MinB(j.t, c)..b];
    FilledPart(j, s, MinB(j.t, c), b);
    var all := LOf(j.t, c);
    forall x | x in filled ensures x in all - {k} {
      var a :| 0 <= a < |filled| && filled[a] == x;
      assert s.pos[s.G[MinB(j.t, c) + a]] == MinB(j.t, c) + a;
    }
    DistinctFits(filled, all - {k});
    if s.G[b] != -1 {
      SameBucket(j.t, c, j.t[s.G[b]], b);
    }
  }

  lemma {:induction false} LBucketLow(j: Job, s: State, c: int)
    requires Fits(j, s) && LShape(j, s) && 0 <= c < j.K
    ensures MinB(j.t, c) <= s.bk[c] <= LTop(j.t, c)
  {
  }

  /** What stands in the array takes part; the first participating LMS position itself comes later. */
  lemma {:induction false} LOccupant(j: Job, s: State, i: int, p: int)
    requires LInv(j, s, i) && 0 <= p < |j.t| && s.G[p] >= 0
    ensures j.lo <= s.G[p] < |j.t| && (j.lo > 0 ==> j.lo < s.G[p])
  {
  }

  lemma {:induction false} LNotYet(j: Job, s: State, i: int, k: int)
    requires LEnabled(j, s, i, k)
    ensures s.pos[k] == -1
  {
    assert s.pos[k] >= 0 <==> DueL(j, s, k, i);
    assert i >= 0 ==> s.pos[s.G[i]] == i;
  }

  /** Insertion happens strictly ahead of the scan. */
  lemma {:induction false} LAhead(j: Job, s: State, i: int, k: int)
    requires LEnabled(j, s, i, k)
    ensures i < s.bk[j.t[k]]
  {
    if i >= 0 {
      if j.t[k] != j.t[k + 1] { BucketOrder(j.t, j.t[k + 1], j.t[k]); }
    }
  }

  lemma {:induction false} LStepShape(j: Job, s: State, i: int, k: int)
    requires LEnabled(j, s, i, k)
    requires s.pos[k] == -1 && s.bk[j.t[k]] < LTop(j.t, j.t[k]) <= MaxB(j.t, j.t[k]) <= |j.t| && s.G[s.bk[j.t[k]]] == -1
    requires Placement(j, s.Insert(k, j.t[k], s.bk[j.t[k]], s.bk[j.t[k]] + 1))
    ensures LShape(j, s.Insert(k, j.t[k], s.bk[j.t[k]], s.bk[j.t[k]] + 1))
  {
    hide IsS, Less, LTop, MinB, MaxB, OrdL;
    var c := j.t[k];
    var b := s.bk[c];
    var s' := s.Insert(k, c, b, b + 1);
    forall d, p | 0 <= d < j.K && MinB(j.t, d) <= p < s'.bk[d] && p < |j.t|
      ensures s'.G[p] >= 0 && j.t[s'.G[p]] == d && !IsS(j.t, s'.G[p])
    {
      if p == b { BucketSplit(j.t, d); SameBucket(j.t, c, d, b); }
    }
  }

  lemma {:induction false} LStepProgress(j: Job, s: State, i: int, k: int, b: int)
    requires LEnabled(j, s, i, k)
    requires s.pos[k] == -1 && i < b == s.bk[j.t[k]] < |j.t|
    requires Placement(j, s.Insert(k, j.t[k], b, b + 1))
    ensures LProgress(j, s.Insert(k, j.t[k], b, b + 1), i + 1)
  {
    hide IsS, Less, LTop, MinB, MaxB, OrdL, SortedL, SeedsPlaced, LShape;
    var s' := s.Insert(k, j.t[k], b, b + 1);
    forall x | j.lo <= x < |j.t| && !IsS(j.t, x)
      ensures s'.pos[x] >= 0 <==> DueL(j, s', x, i + 1)
    {
      assert s.pos[x] >= 0 <==> DueL(j, s, x, i);
      assert x + 1 < |j.t| && s.pos[x + 1] >= 0 ==> s.G[s.pos[x + 1]] == x + 1;
    }
  }

  /** Within its bucket, the inserted position comes after all that were inserted before: their
      right neighbours were passed in this order. */
  lemma {:induction false} LStepOrderWithin(j: Job, s: State, i: int, k: int, y: int)
    requires LEnabled(j, s, i, k)
    requires j.lo <= y < |j.t| && !IsS(j.t, y) && j.t[y] == j.t[k] && s.pos[y] >= 0
    ensures !OrdL(j.t, j.full, k, y)
  {
    hide IsS, Less, LTop, MinB, MaxB;
    assert DueL(j, s, y, i);
    if y + 1 < |j.t| {
      var q := s.pos[y + 1];
      assert s.G[q] == y + 1 && q < i;
      assert !OrdL(j.t, j.full, k + 1, y + 1);
    }
  }

  /** The inserted position is not smaller than anything left of it, nor larger than anything right of it. */
  lemma {:induction false} LStepOrder(j: Job, s: State, i: int, k: int, p: int)
    requires LEnabled(j, s, i, k)
    requires s.bk[j.t[k]] < LTop(j.t, j.t[k]) <= MaxB(j.t, j.t[k]) <= |j.t|
    requires 0 <= p < |j.t| && s.G[p] >= 0 && p != s.bk[j.t[k]]
    ensures p < s.bk[j.t[k]] ==> !OrdL(j.t, j.full, k, s.G[p])
    ensures p > s.bk[j.t[k]] ==> !OrdL(j.t, j.full, s.G[p], k)
  {
    hide IsS, Less, LTop, MinB, MaxB, SortedL, LProgress, SeedsPlaced;
    var c := j.t[k];
    var b := s.bk[c];
    var y := s.G[p];
    if p < b {
      BucketMonotone(j.t, j.t[y], p, c, b);
      if j.t[y] == c {
        LStepOrderWithin(j, s, i, k, y);
      }
    } else {
      BucketMonotone(j.t, c, b, j.t[y], p);
    }
  }

  lemma {:induction false} LStepSorted(j: Job, s: State, i: int, k: int, b: int)
    requires LEnabled(j, s, i, k)
    requires b == s.bk[j.t[k]] < LTop(j.t, j.t[k]) <= MaxB(j.t, j.t[k]) <= |j.t|
    requires Placement(j, s.Insert(k, j.t[k], b, b + 1))
    ensures SortedL(j, s.Insert(k, j.t[k], b, b + 1))
  {
    var s' := s.Insert(k, j.t[k], b, b + 1);
    forall p, q | 0 <= p < q < |j.t| && s'.G[p] >= 0 && s'.G[q] >= 0
      ensures !OrdL(j.t, j.full, s'.G[q], s'.G[p])
    {
      if p == b { LStepOrder(j, s, i, k, q); } else if q == b { LStepOrder(j, s, i, k, p); }
    }
  }

  lemma {:induction false} LStepSeeds(j: Job, s: State, k: int, b: int, next: int)
    requires Fits(j, s) && SeedsPlaced(j, s)
    requires 0 <= k < |j.t| && 0 <= b < |j.t| && Fits(j, s.Insert(k, j.t[k], b, next))
    ensures SeedsPlaced(j, s.Insert(k, j.t[k], b, next))
  {
    hide IsS, IsLMS;
  }

  /** One inserting step of the left-to-right scan. */
  lemma {:induction false} LStep(j: Job, s: State, i: int, k: int)
    requires LEnabled(j, s, i, k)
    ensures s.pos[k] == -1 && i < s.bk[j.t[k]] < |j.t| && s.G[s.bk[j.t[k]]] == -1
    ensures LInv(j, s.Insert(k, j.t[k], s.bk[j.t[k]], s.bk[j.t[k]] + 1), i + 1)
  {
    hide IsS, LTop, MinB, MaxB, LShape, LProgress, SeedsPlaced, SortedL;
    var b := s.bk[j.t[k]];
    LNotYet(j, s, i, k);
    LRoom(j, s, k);
    LAhead(j, s, i, k);
    assert MinB(j.t, j.t[k]) <= b by { LBucketLow(j, s, j.t[k]); }
    InsertPlacement(j, s, k, b, b + 1);
    LStepShape(j, s, i, k);
    LStepProgress(j, s, i, k, b);
    LStepSorted(j, s, i, k, b);
    LStepSeeds(j, s, k, b, b + 1);
  }

  /** One step of the left-to-right scan over an empty place or one whose left neighbour is not of type L. */
  lemma {:induction false} LSkip(j: Job, s: State, i: int)
    requires LInv(j, s, i) && 0 <= i < |j.t|
    requires s.G[i] == -1 || s.G[i] == j.lo || IsS(j.t, s.G[i] - 1)
    ensures LInv(j, s, i + 1)
  {
    forall x | j.lo <= x < |j.t| && !IsS(j.t, x)
      ensures s.pos[x] >= 0 <==> DueL(j, s, x, i + 1)
    {
      assert s.pos[x] >= 0 <==> DueL(j, s, x, i);
      assert x + 1 < |j.t| && s.pos[x + 1] >= 0 ==> s.G[s.pos[x + 1]] == x + 1;
    }
  }

  /** When the scan is over, every participating L position is in place. */
  lemma {:induction false} LComplete(j: Job, s: State, x: int)
    requires LInv(j, s, |j.t|)
    requires j.lo <= x < |j.t| && !IsS(j.t, x)
    ensures s.pos[x] >= 0
    decreases |j.t| - x
  {
    assert s.pos[x] >= 0 <==> DueL(j, s, x, |j.t|);
    if x + 1 < |j.t| {
      if IsS(j.t, x + 1) { assert j.Seed(x + 1); } else { LComplete(j, s, x + 1); }
    }
  }

  // ---------- filling the right ends of the buckets ----------

  /** Positions of type S fill each bucket from the right down to `bk`; L positions stay in the left part. */
  ghost predicate SShape(j: Job, s: State)
    requires Fits(j, s)
  {
    && (forall c :: 0 <= c < j.K ==> LTop(j.t, c) <= s.bk[c] <= MaxB(j.t, c))
    && (forall c, p :: 0 <= c < j.K && s.bk[c] <= p < MaxB(j.t, c) && 0 <= p < |j.t| ==>
          s.G[p] >= 0 && j.t[s.G[p]] == c && IsS(j.t, s.G[p]))
    && (forall p :: 0 <= p < |j.t| && s.G[p] >= 0 && IsS(j.t, s.G[p]) ==> p >= s.bk[j.t[s.G[p]]])
    && (forall p :: 0 <= p < |j.t| && s.G[p] >= 0 && !IsS(j.t, s.G[p]) ==> p < LTop(j.t, j.t[s.G[p]]))
  }

  lemma {:induction false} SBucketHigh(j: Job, s: State, c: int)
    requires Fits(j, s) && SShape(j, s) && 0 <= c < j.K
    ensures LTop(j.t, c) <= s.bk[c] <= MaxB(j.t, c) <= |j.t|
  {
    hide IsS;
    BucketSplit(j.t, c);
  }

  /** There is room: the place below the filled part is empty and still in the S part. */
  lemma {:induction false} SRoom(j: Job, s: State, k: int)
    requires j.Valid() && Placement(j, s) && SShape(j, s)
    requires j.lo <= k < |j.t| && IsS(j.t, k) && s.pos[k] == -1
    ensures MinB(j.t, j.t[k]) <= LTop(j.t, j.t[k]) < s.bk[j.t[k]] <= MaxB(j.t, j.t[k]) <= |j.t|
    ensures s.G[s.bk[j.t[k]] - 1] == -1
  {
    hide IsS, Less, MinB, MaxB, LTop;
    var c := j.t[k];
    BucketSplit(j.t, c);
    NotFull(j, s, k);
    if s.G[s.bk[c] - 1] != -1 {
      SameBucket(j.t, c, j.t[s.G[s.bk[c] - 1]], s.bk[c] - 1);
    }
  }

  lemma {:induction false} NotFull(j: Job, s: State, k: int)
    requires j.Valid() && Placement(j, s) && SShape(j, s)
    requires 0 <= k < |j.t| && IsS(j.t, k) && s.pos[k] == -1
    ensures LTop(j.t, j.t[k]) < s.bk[j.t[k]] <= MaxB(j.t, j.t[k]) <= |j.t|
  {
    hide IsS, Less, MinB, MaxB, LTop;
    var c := j.t[k];
    BucketSplit(j.t, c);
    FilledPart(j, s, s.bk[c], MaxB(j.t, c));
    FilledAreOthers(j, s, k);
    DistinctFits(s.G[s.bk[c]..MaxB(j.t, c)], SOf(j.t, c) - {k});
  }

  lemma {:induction false} FilledAreOthers(j: Job, s: State, k: int)
    requires j.Valid() && Placement(j, s) && SShape(j, s)
    requires 0 <= k < |j.t| && s.pos[k] == -1 && 0 <= s.bk[j.t[k]] <= MaxB(j.t, j.t[k]) <= |j.t|
    ensures forall x :: x in s.G[s.bk[j.t[k]]..MaxB(j.t, j.t[k])] ==> x in SOf(j.t, j.t[k]) - {k}
  {
    hide IsS, Less, MinB, MaxB;
    var c := j.t[k];
    var b := s.bk[c];
    var filled := s.G[b..MaxB(j.t, c)];
    forall x | x in filled ensures x in SOf(j.t, c) - {k} {
      var a :| 0 <= a < |filled| && filled[a] == x;
      assert s.pos[s.G[b + a]] == b + a;
    }
  }

  lemma {:induction false} SStepShape(j: Job, s: State, k: int, b: int)
    requires j.Valid() && Placement(j, s) && SShape(j, s)
    requires j.lo <= k < |j.t| && IsS(j.t, k)
    requires b == s.bk[j.t[k]] - 1 && MinB(j.t, j.t[k]) <= LTop(j.t, j.t[k]) <= b < MaxB(j.t, j.t[k]) <= |j.t| && s.G[b] == -1
    requires Placement(j, s.Insert(k, j.t[k], b, b))
    ensures SShape(j, s.Insert(k, j.t[k], b, b))
  {
    hide IsS, Less, LTop, MinB, MaxB;
    var c := j.t[k];
    var s' := s.Insert(k, c, b, b);
    forall d, p | 0 <= d < j.K && s'.bk[d] <= p < MaxB(j.t, d) && 0 <= p < |j.t|
      ensures s'.G[p] >= 0 && j.t[s'.G[p]] == d && IsS(j.t, s'.G[p])
    {
      if p == b {
        SBucketHigh(j, s, d);
        BucketSplit(j.t, d);
        SameBucket(j.t, c, d, b);
      }
    }
  }

  // ---------- seeds ----------

  /** Only seeds are placed, at the right ends of their buckets, in the order that the L scan needs. */
  ghost predicate SeedInv(j: Job, s: State) {
    && j.Valid() && Placement(j, s) && SShape(j, s) && SortedL(j, s)
    && (forall p :: 0 <= p < |j.t| && s.G[p] >= 0 ==> j.Seed(s.G[p]))
  }

  lemma {:induction false} SeedStepOrder(j: Job, s: State, k: int, b: int, p: int)
    requires SeedInv(j, s) && j.Seed(k)
    requires b == s.bk[j.t[k]] - 1 && MinB(j.t, j.t[k]) <= b < MaxB(j.t, j.t[k]) <= |j.t|
    requires forall x :: 0 <= x < |j.t| && s.pos[x] >= 0 && j.t[x] == j.t[k] ==> !OrdL(j.t, j.full, x, k)
    requires 0 <= p < |j.t| && s.G[p] >= 0 && p != b
    ensures p < b ==> !OrdL(j.t, j.full, k, s.G[p])
    ensures p > b ==> !OrdL(j.t, j.full, s.G[p], k)
  {
    hide IsS, Less, LTop, MinB, MaxB, SortedL;
    var c := j.t[k];
    var y := s.G[p];
    assert s.pos[s.G[p]] == p;
    if p < b { BucketMonotone(j.t, j.t[y], p, c, b); } else { BucketMonotone(j.t, c, b, j.t[y], p); }
  }

  /** Placing one more seed below the filled part of its bucket. */
  lemma {:induction false} SeedStep(j: Job, s: State, k: int)
    requires SeedInv(j, s) && j.Seed(k) && s.pos[k] == -1
    requires forall x :: 0 <= x < |j.t| && s.pos[x] >= 0 && j.t[x] == j.t[k] ==> !OrdL(j.t, j.full, x, k)
    ensures 0 <= s.bk[j.t[k]] - 1 < |j.t| && s.G[s.bk[j.t[k]] - 1] == -1
    ensures SeedInv(j, s.Insert(k, j.t[k], s.bk[j.t[k]] - 1, s.bk[j.t[k]] - 1))
  {
    hide LTop, MinB, MaxB, OrdL;
    var b := s.bk[j.t[k]] - 1;
    SRoom(j, s, k);
    InsertPlacement(j, s, k, b, b);
    SStepShape(j, s, k, b);
    var s' := s.Insert(k, j.t[k], b, b);
    forall p, q | 0 <= p < q < |j.t| && s'.G[p] >= 0 && s'.G[q] >= 0
      ensures !OrdL(j.t, j.full, s'.G[q], s'.G[p])
    {
      if p == b { SeedStepOrder(j, s, k, b, q); } else if q == b { SeedStepOrder(j, s, k, b, p); }
    }
  }

  /** With all seeds placed, the left-to-right scan can start: bucket pointers at the left ends. */
  lemma {:induction false} LStart(j: Job, s: State, bk: seq<int>)
    requires SeedInv(j, s) && SeedsPlaced(j, s)
    requires |bk| == j.K && forall c :: 0 <= c < j.K ==> bk[c] == MinB(j.t, c)
    ensures LInv(j, State(s.G, s.pos, bk), -1)
  {
    hide LTop, MinB, MaxB, OrdL, Less, IsS;
    var s' := State(s.G, s.pos, bk);
    forall c | 0 <= c < j.K ensures MinB(j.t, c) <= bk[c] <= LTop(j.t, c) { BucketSplit(j.t, c); }
    forall x | 0 <= x < |j.t| && s.pos[x] >= 0 ensures IsS(j.t, x) {
      assert s.G[s.pos[x]] == x && j.Seed(s.G[s.pos[x]]);
    }
    forall p | 0 <= p < |j.t| && s.G[p] >= 0
      ensures p >= LTop(j.t, j.t[s.G[p]]) && j.Seed(s.G[p])
    {
      SBucketHigh(j, s, j.t[s.G[p]]);
    }
  }

  // ---------- right-to-left scan ----------

  /** The scan has passed the right neighbour of `x`. */
  ghost predicate DueS(j: Job, s: State, x: int, i: int)
    requires Fits(j, s)
    requires 0 <= x < |j.t|
  {
    x + 1 < |j.t| && s.pos[x + 1] > i
  }

  /** An S position is in place exactly when its right neighbour has been passed. */
  ghost predicate SProgress(j: Job, s: State, i: int)
    requires Fits(j, s)
  {
    forall x {:trigger DueS(j, s, x, i)} :: j.lo <= x < |j.t| && IsS(j.t, x) ==> (s.pos[x] >= 0 <==> DueS(j, s, x, i))
  }

  ghost predicate LPlaced(j: Job, s: State)
    requires Fits(j, s)
  {
    forall x :: j.lo <= x < |j.t| && !IsS(j.t, x) ==> s.pos[x] >= 0
  }

  ghost predicate SortedS(j: Job, s: State)
    requires Fits(j, s)
  {
    forall p, q :: 0 <= p < q < |j.t| && s.G[p] >= 0 && s.G[q] >= 0 ==>
      !OrdS(j.t, j.full, s.G[q], s.G[p])
  }

  ghost predicate SInv(j: Job, s: State, i: int) {
    && j.Valid() && Placement(j, s) && SShape(j, s) && -1 <= i < |j.t|
    && SProgress(j, s, i) && LPlaced(j, s) && SortedS(j, s)
  }

  /** The scan at `i` meets a position whose left neighbour `k` has to be inserted. */
  ghost predicate SEnabled(j: Job, s: State, i: int, k: int) {
    && SInv(j, s, i) && 0 <= i
    && j.lo <= k && k + 1 < |j.t| && IsS(j.t, k) && s.G[i] == k + 1
  }

  lemma {:induction false} SLow(j: Job, s: State, i: int, p: int)
    requires SInv(j, s, i) && 0 <= p < |j.t| && s.G[p] >= 0
    ensures j.lo <= s.G[p] < |j.t|
  {
  }

  lemma {:induction false} SNotYet(j: Job, s: State, i: int, k: int)
    requires SEnabled(j, s, i, k)
    ensures s.pos[k] == -1
  {
    hide IsS, OrdS;
    assert s.pos[k] >= 0 <==> DueS(j, s, k, i);
    assert s.pos[s.G[i]] == i;
  }

  /** Insertion happens strictly behind the places already scanned. */
  lemma {:induction false} SBehind(j: Job, s: State, i: int, k: int)
    requires SEnabled(j, s, i, k)
    ensures s.bk[j.t[k]] - 1 < i
  {
    hide LTop, MinB, MaxB, OrdS;
    SBucketHigh(j, s, j.t[k]);
    if j.t[k] != j.t[k + 1] { BucketOrder(j.t, j.t[k], j.t[k + 1]); }
  }

  lemma {:induction false} SStepProgress(j: Job, s: State, i: int, k: int, b: int)
    requires SEnabled(j, s, i, k)
    requires s.pos[k] == -1 && 0 <= b < i
    requires Placement(j, s.Insert(k, j.t[k], b, b))
    ensures SProgress(j, s.Insert(k, j.t[k], b, b), i - 1)
  {
    hide IsS, LTop, MinB, MaxB, OrdS, SortedS, LPlaced, SShape;
    var s' := s.Insert(k, j.t[k], b, b);
    forall x | j.lo <= x < |j.t| && IsS(j.t, x)
      ensures s'.pos[x] >= 0 <==> DueS(j, s', x, i - 1)
    {
      assert s.pos[x] >= 0 <==> DueS(j, s, x, i);
      assert x + 1 < |j.t| && s.pos[x + 1] >= 0 ==> s.G[s.pos[x + 1]] == x + 1;
    }
  }

  lemma {:induction false} SStepOrderWithin(j: Job, s: State, i: int, k: int, y: int)
    requires SEnabled(j, s, i, k)
    requires j.lo <= y < |j.t| && IsS(j.t, y) && j.t[y] == j.t[k] && s.pos[y] >= 0
    ensures !OrdS(j.t, j.full, y, k)
  {
    hide IsS, Less, LTop, MinB, MaxB;
    assert DueS(j, s, y, i);
    var q := s.pos[y + 1];
    assert s.G[q] == y + 1 && q > i;
    assert !OrdS(j.t, j.full, y + 1, k + 1);
  }

  lemma {:induction false} SStepOrder(j: Job, s: State, i: int, k: int, b: int, p: int)
    requires SEnabled(j, s, i, k)
    requires b == s.bk[j.t[k]] - 1 && MinB(j.t, j.t[k]) <= LTop(j.t, j.t[k]) <= b < MaxB(j.t, j.t[k]) <= |j.t|
    requires 0 <= p < |j.t| && s.G[p] >= 0 && p != b
    ensures p < b ==> !OrdS(j.t, j.full, k, s.G[p])
    ensures p > b ==> !OrdS(j.t, j.full, s.G[p], k)
  {
    hide IsS, Less, LTop, MinB, MaxB, SortedS, SProgress, LPlaced;
    var c := j.t[k];
    var y := s.G[p];
    if p < b {
      BucketMonotone(j.t, j.t[y], p, c, b);
    } else {
      BucketMonotone(j.t, c, b, j.t[y], p);
      if j.t[y] == c {
        assert s.pos[s.G[p]] == p;
        SStepOrderWithin(j, s, i, k, y);
      }
    }
  }

  lemma {:induction false} SStepSorted(j: Job, s: State, i: int, k: int, b: int)
    requires SEnabled(j, s, i, k)
    requires b == s.bk[j.t[k]] - 1 && MinB(j.t, j.t[k]) <= LTop(j.t, j.t[k]) <= b < MaxB(j.t, j.t[k]) <= |j.t|
    requires Placement(j, s.Insert(k, j.t[k], b, b))
    ensures SortedS(j, s.Insert(k, j.t[k], b, b))
  {
    hide IsS, Less, LTop, MinB, MaxB, OrdS, OrdL, SProgress, LPlaced, SShape;
    var s' := s.Insert(k, j.t[k], b, b);
    forall p, q | 0 <= p < q < |j.t| && s'.G[p] >= 0 && s'.G[q] >= 0
      ensures !OrdS(j.t, j.full, s'.G[q], s'.G[p])
    {
      if p == b { SStepOrder(j, s, i, k, b, q); } else if q == b { SStepOrder(j, s, i, k, b, p); }
    }
  }

  /** One inserting step of the right-to-left scan. */
  lemma {:induction false} SStep(j: Job, s: State, i: int, k: int)
    requires SEnabled(j, s, i, k)
    ensures s.pos[k] == -1 && 0 <= s.bk[j.t[k]] - 1 < i && s.G[s.bk[j.t[k]] - 1] == -1
    ensures SInv(j, s.Insert(k, j.t[k], s.bk[j.t[k]] - 1, s.bk[j.t[k]] - 1), i - 1)
  {
    hide IsS, LTop, MinB, MaxB, SShape, SProgress, SortedS;
    var b := s.bk[j.t[k]] - 1;
    SNotYet(j, s, i, k);
    SRoom(j, s, k);
    SBehind(j, s, i, k);
    InsertPlacement(j, s, k, b, b);
    SStepShape(j, s, k, b);
    SStepProgress(j, s, i, k, b);
    SStepSorted(j, s, i, k, b);
  }

  /** One step of the right-to-left scan over an empty place or one whose left neighbour is not of type S. */
  lemma {:induction false} SSkip(j: Job, s: State, i: int)
    requires SInv(j, s, i) && 0 <= i
    requires s.G[i] == -1 || s.G[i] == j.lo || !IsS(j.t, s.G[i] - 1)
    ensures SInv(j, s, i - 1)
  {
    hide IsS, LTop, MinB, MaxB, SShape, SortedS, LPlaced;
    forall x | j.lo <= x < |j.t| && IsS(j.t, x)
      ensures s.pos[x] >= 0 <==> DueS(j, s, x, i - 1)
    {
      assert s.pos[x] >= 0 <==> DueS(j, s, x, i);
      assert x + 1 < |j.t| && s.pos[x + 1] >= 0 ==> s.G[s.pos[x + 1]] == x + 1;
    }
  }

  /** When the scan is over, every participating position is in place. */
  lemma {:induction false} SComplete(j: Job, s: State, x: int)
    requires SInv(j, s, -1)
    requires j.lo <= x < |j.t|
    ensures s.pos[x] >= 0
    decreases |j.t| - x
  {
    hide LTop, MinB, MaxB, SShape, SortedS;
    if IsS(j.t, x) {
      assert s.pos[x] >= 0 <==> DueS(j, s, x, -1);
      SComplete(j, s, x + 1);
    }
  }

  /** The placement after the left-to-right scan, without its S positions. */
  ghost function DropS(j: Job, s: State): (s': State)
    requires Fits(j, s)
  {
    State(seq(|j.t|, p requires 0 <= p < |j.t| => if s.G[p] >= 0 && IsS(j.t, s.G[p]) then -1 else s.G[p]),
          seq(|j.t|, x requires 0 <= x < |j.t| => if IsS(j.t, x) then -1 else s.pos[x]),
          s.bk)
  }

  /** The right-to-left scan can start from the L positions alone, bucket pointers at the right ends. */
  lemma {:induction false} SStart(j: Job, s: State, bk: seq<int>)
    requires LInv(j, s, |j.t|)
    requires |bk| == j.K && forall c :: 0 <= c < j.K ==> bk[c] == MaxB(j.t, c)
    ensures SInv(j, DropS(j, s).(bk := bk), |j.t| - 1)
  {
    hide *;
    UnfoldL(j, s, |j.t|);
    SStartPlacement(j, s, bk);
    SStartShape(j, s, bk);
    SStartProgress(j, s, bk);
    SStartSorted(j, s, bk);
    FoldS(j, DropS(j, s).(bk := bk), |j.t| - 1);
  }

  lemma UnfoldL(j: Job, s: State, i: int)
    requires LInv(j, s, i)
    ensures j.Valid() && Placement(j, s) && Fits(j, s) && SortedL(j, s) && |j.t| >= 0
  {
  }

  lemma FoldS(j: Job, s: State, i: int)
    requires j.Valid() && Placement(j, s) && Fits(j, s) && SShape(j, s) && -1 <= i < |j.t|
    requires SProgress(j, s, i) && LPlaced(j, s) && SortedS(j, s)
    ensures SInv(j, s, i)
  {
  }

  lemma {:induction false} SStartPlacement(j: Job, s: State, bk: seq<int>)
    requires Placement(j, s) && |bk| == j.K
    ensures Placement(j, DropS(j, s).(bk := bk)) && Fits(j, DropS(j, s).(bk := bk))
  {
    hide IsS, MinB, MaxB;
  }

  /** No S position is left, and none is due; every L position is there. */
  lemma {:induction false} SStartProgress(j: Job, s: State, bk: seq<int>)
    requires LInv(j, s, |j.t|) && Fits(j, DropS(j, s).(bk := bk))
    ensures SProgress(j, DropS(j, s).(bk := bk), |j.t| - 1) && LPlaced(j, DropS(j, s).(bk := bk))
  {
    hide IsS, LTop, MinB, MaxB, LShape, LProgress, SortedL, SeedsPlaced;
    var s' := DropS(j, s).(bk := bk);
    forall x | j.lo <= x < |j.t| && !IsS(j.t, x) ensures s'.pos[x] >= 0 { LComplete(j, s, x); }
  }

  lemma {:induction false} SStartSorted(j: Job, s: State, bk: seq<int>)
    requires Fits(j, s) && SortedL(j, s) && Fits(j, DropS(j, s).(bk := bk))
    ensures SortedS(j, DropS(j, s).(bk := bk))
  {
    hide IsS;
    var s' := DropS(j, s).(bk := bk);
    forall p, q | 0 <= p < q < |j.t| && s'.G[p] >= 0 && s'.G[q] >= 0
      ensures !OrdS(j.t, j.full, s'.G[q], s'.G[p])
    {
      assert !OrdL(j.t, j.full, s.G[q], s.G[p]);
    }
  }

  lemma {:induction false} SStartShape(j: Job, s: State, bk: seq<int>)
    requires LInv(j, s, |j.t|)
    requires |bk| == j.K && forall c :: 0 <= c < j.K ==> bk[c] == MaxB(j.t, c)
    ensures SShape(j, DropS(j, s).(bk := bk))
  {
    hide LTop, MinB, MaxB, IsS, OrdL;
    var s' := DropS(j, s).(bk := bk);
    forall c | 0 <= c < j.K ensures LTop(j.t, c) <= bk[c] <= MaxB(j.t, c) { BucketSplit(j.t, c); }
    forall p | 0 <= p < |j.t| && s'.G[p] >= 0 ensures p < LTop(j.t, j.t[s'.G[p]]) {
      LBucketLow(j, s, j.t[s.G[p]]);
    }
  }
}
