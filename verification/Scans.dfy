/** The four induction scans, in place. */
module Scans {
  import opened SuffixOrder
  import opened InducedOrder
  import opened Buckets
  import opened Induce
  import opened Memory
  import opened Passes
  import Pigeonhole

  // Each is one loop over the suffix array that uses the array itself as its work queue;
  // `Induce` says what the loop does to the placement that the array encodes.

  // ---------- how a placement is stored ----------

  /** Queue entry for position `x`: negated if its left neighbour is of type S, 0 if there is none. */
  ghost function Queue(t: seq<int>, x: int): int
    requires x <= |t|
  {
    if x <= 0 then 0 else if IsS(t, x - 1) then -x else x
  }

  /** What the first scan leaves: only positions right after an S position. */
  ghost function Leftmost(t: seq<int>, x: int): int
    requires x <= |t|
  {
    if x > 0 && IsS(t, x - 1) then x else 0
  }

  /** Queue entry of the second scan: positions whose left neighbour is S, LMS positions negated. */
  ghost function SubQueue(t: seq<int>, x: int): int
    requires x <= |t|
  {
    if x <= 0 then 0 else if IsS(t, x - 1) then x else if IsS(t, x) then -x else 0
  }

  lemma {:induction false} LeftNeighbourOfL(t: seq<int>, k: int)
    requires 0 < k < |t| && !IsS(t, k)
    ensures IsS(t, k - 1) <==> t[k - 1] < t[k]
  {
  }

  lemma {:induction false} LeftNeighbourOfS(t: seq<int>, k: int)
    requires 0 < k < |t| && IsS(t, k)
    ensures IsS(t, k - 1) <==> t[k - 1] <= t[k]
  {
  }

  lemma {:induction false} QueueOfL(t: seq<int>, k: int)
    requires 0 < k < |t| && !IsS(t, k)
    ensures Queue(t, k) == if t[k - 1] < t[k] then -k else k
  {
    LeftNeighbourOfL(t, k);
  }

  lemma {:induction false} SubQueueOfS(t: seq<int>, k: int)
    requires 0 < k < |t| && IsS(t, k)
    ensures SubQueue(t, k) == if t[k - 1] > t[k] then -k else k
  {
    LeftNeighbourOfS(t, k);
  }

  ghost predicate Stored(j: Job, s: State, V: seq<int>)
    requires Fits(j, s)
  {
    |V| == |j.t| && forall p :: 0 <= p < |j.t| ==> V[p] == Queue(j.t, s.G[p])
  }

  /** The array holds exactly what the scans of job `j` start from. */
  ghost predicate Seeded(j: Job, s: State, V: seq<int>) {
    SeedInv(j, s) && SeedsPlaced(j, s) && Stored(j, s, V)
  }

  // ---------- the cached bucket pointer ----------

  /** `bk` is the bucket table; entry `cB` of it is cached in `b`, its cell `B[cB]` may be stale. */
  ghost predicate Table(B: seq<int>, bk: seq<int>, cB: int, b: int) {
    && |bk| == |B| && 0 <= cB < |bk|
    && forall c :: 0 <= c < |bk| ==> bk[c] == if c == cB then b else B[c]
  }

  lemma {:induction false} TableStart(w: Work, cB: int)
    requires w.tmp.Valid() && w.off + w.K <= w.tmp.len && 0 <= cB < w.K
    ensures Table(w.Buckets(), w.Buckets(), cB, w.tmp.View()[w.off + cB])
    ensures w.tmp.View()[w.off + cB] == w.Buckets()[cB]
  {
  }

  /** Makes `c1` the character whose bucket pointer is cached. */
  method SwitchBucket(w: Work, c1: int, cB: int, b: int, ghost bk: seq<int>, ghost f: Frame) returns (b': int)
    requires w.Ready(f) && |bk| == w.K && 0 <= c1 < w.K
    requires Table(w.Buckets(), bk, cB, b) && 0 <= b <= |f.t|
    modifies w.tmp.arr
    ensures w.Ready(f) && w.sa.View() == old(w.sa.View())
    ensures Table(w.Buckets(), bk, c1, b') && b' == bk[c1]
  {
    if cB == c1 {
      b' := b;
    } else {
      SetBucket(w, cB, b, f);
      b' := w.tmp.Get(w.off + c1);
    }
  }

  /** sa[b] = v; b++ for the bucket of `c1`. */
  method PushRight(w: Work, c1: int, v: int, cB: int, b: int, ghost bk: seq<int>, ghost f: Frame)
    returns (b': int)
    requires w.Ready(f) && |bk| == w.K && 0 <= c1 < w.K
    requires Table(w.Buckets(), bk, cB, b) && 0 <= b <= |f.t|
    requires 0 <= bk[c1] < |f.t| && w.sa.Holds(v)
    modifies w.sa.arr, w.tmp.arr
    ensures w.Ready(f) && w.sa.View() == old(w.sa.View())[bk[c1] := v]
    ensures Table(w.Buckets(), bk[c1 := bk[c1] + 1], c1, b') && 0 <= b' <= |f.t|
  {
    b' := SwitchBucket(w, c1, cB, b, bk, f);
    SetSa(w, b', v, f);
    b' := b' + 1;
  }

  /** b--; sa[b] = v for the bucket of `c1`. */
  method PushLeft(w: Work, c1: int, v: int, cB: int, b: int, ghost bk: seq<int>, ghost f: Frame)
    returns (b': int)
    requires w.Ready(f) && |bk| == w.K && 0 <= c1 < w.K
    requires Table(w.Buckets(), bk, cB, b) && 0 <= b <= |f.t|
    requires 0 < bk[c1] <= |f.t| && w.sa.Holds(v)
    modifies w.sa.arr, w.tmp.arr
    ensures w.Ready(f) && w.sa.View() == old(w.sa.View())[bk[c1] - 1 := v]
    ensures Table(w.Buckets(), bk[c1 := bk[c1] - 1], c1, b') && 0 <= b' <= |f.t|
  {
    b' := SwitchBucket(w, c1, cB, b, bk, f);
    b' := b' - 1;
    SetSa(w, b', v, f);
  }

  // ---------- scans over LMS-substrings ----------

  /** Array contents during the first scan: places before `i` are done, the others hold the queue. */
  ghost predicate SubLRep(j: Job, s: State, V: seq<int>, i: int)
    requires Fits(j, s)
  {
    |V| == |j.t| && forall p :: 0 <= p < |j.t| ==> V[p] == if p < i then Leftmost(j.t, s.G[p]) else Queue(j.t, s.G[p])
  }

  /** Invariant of the first scan before place `i`. */
  ghost predicate SubLAt(j: Job, s: State, V: seq<int>, i: int) {
    j.lo > 0 && LInv(j, s, i) && SubLRep(j, s, V, i)
  }

  ghost function LNext(j: Job, s: State, k: int): (s': State)
    requires Fits(j, s) && 0 <= k < |j.t| && 0 <= s.bk[j.t[k]] < |j.t|
    ensures s'.bk == s.bk[j.t[k] := s.bk[j.t[k]] + 1]
  {
    s.Insert(k, j.t[k], s.bk[j.t[k]], s.bk[j.t[k]] + 1)
  }

  /** A queued position: its left neighbour is of type L, moves to its bucket, and the place is cleared. */
  lemma {:induction false} SubLMove(j: Job, s: State, V: seq<int>, i: int)
    requires SubLAt(j, s, V, i) && 0 <= i < |j.t| && V[i] > 0
    ensures 0 < V[i] - 1 < |j.t| && !IsS(j.t, V[i] - 1)
    ensures Fits(j, s) && 0 <= s.bk[j.t[V[i] - 1]] < |j.t|
    ensures SubLAt(j, LNext(j, s, V[i] - 1), V[i := 0][s.bk[j.t[V[i] - 1]] := Queue(j.t, V[i] - 1)], i + 1)
  {
    hide IsS, LShape, LProgress, SeedsPlaced, SortedL, MinB, MaxB;
    LOccupant(j, s, i, i);
    LStep(j, s, i, V[i] - 1);
  }

  /** An empty place, or a position whose left neighbour is of type S: it stays, unmarked. */
  lemma {:induction false} SubLStay(j: Job, s: State, V: seq<int>, i: int)
    requires SubLAt(j, s, V, i) && 0 <= i < |j.t| && V[i] <= 0
    ensures -|j.t| <= V[i] && SubLAt(j, s, V[i := -V[i]], i + 1) && (V[i] == 0 ==> V[i := 0] == V)
  {
    hide IsS, LShape, LProgress, SeedsPlaced, SortedL, MinB, MaxB;
    if s.G[i] >= 0 { LOccupant(j, s, i, i); }
    LSkip(j, s, i);
  }

  lemma {:induction false} LastIsL(t: seq<int>)
    requires |t| > 0
    ensures !IsS(t, |t| - 1)
  {
  }

  lemma {:induction false} SubLStart(j: Job, s0: State, bk: seq<int>, V: seq<int>)
    requires Seeded(j, s0, V) && j.lo > 0
    requires |bk| == j.K && forall c :: 0 <= c < j.K ==> bk[c] == MinB(j.t, c)
    ensures !IsS(j.t, |j.t| - 1) && Fits(j, State(s0.G, s0.pos, bk)) && 0 <= bk[j.t[|j.t| - 1]] < |j.t|
    ensures SubLAt(j, LNext(j, State(s0.G, s0.pos, bk), |j.t| - 1),
                   V[bk[j.t[|j.t| - 1]] := Queue(j.t, |j.t| - 1)], 0)
  {
    hide IsS, LShape, LProgress, SeedsPlaced, SortedL, MinB, MaxB;
    LastIsL(j.t);
    LStart(j, s0, bk);
    LStep(j, State(s0.G, s0.pos, bk), -1, |j.t| - 1);
  }

  method InduceSubL(w: Work, ghost f: Frame, ghost j: Job, ghost s0: State) returns (ghost s: State)
    requires w.Ready(f) && j.t == f.t && j.K == w.K && j.lo > 0
    requires Seeded(j, s0, w.sa.View())
    modifies w.sa.arr, w.tmp.arr
    ensures w.Ready(f) && SubLAt(j, s, w.sa.View(), |f.t|)
  {
    hide *;
    Shape(w, f);
    BucketMin(w, f);
    s := State(s0.G, s0.pos, w.Buckets());
    SubLStart(j, s0, s.bk, w.sa.View());
    Shape(w, f);

    var k := w.text.len - 1;
    var c0, c1 := w.text.Get(k - 1), w.text.Get(k);
    assert c1 == f.t[k];
    QueueOfL(j.t, k);
    var cB := c1;
    var b := w.tmp.Get(w.off + cB);
    TableStart(w, cB);
    b := PushRight(w, c1, if c0 < c1 then -k else k, cB, b, s.bk, f);
    s := LNext(j, s, k);

    for i := 0 to w.sa.len
      invariant w.Ready(f) && SubLAt(j, s, w.sa.View(), i)
      invariant |s.bk| == w.K && Table(w.Buckets(), s.bk, cB, b) && 0 <= b <= |f.t|
    {
      var x := w.sa.Get(i);
      if x == 0 {
        SubLStay(j, s, w.sa.View(), i);
      } else if x < 0 {
        SubLStay(j, s, w.sa.View(), i);
        SetSa(w, i, -x, f);
      } else {
        SubLMove(j, s, w.sa.View(), i);
        SetSa(w, i, 0, f);
        var k := x - 1;
        Shape(w, f);
        var c0, c1 := w.text.Get(k - 1), w.text.Get(k);
        assert c1 == f.t[k];
        QueueOfL(j.t, k);
        b := PushRight(w, c1, if c0 < c1 then -k else k, cB, b, s.bk, f);
        cB := c1;
        s := LNext(j, s, k);
      }
    }
  }

  ghost function SNext(j: Job, s: State, k: int): (s': State)
    requires Fits(j, s) && 0 <= k < |j.t| && 0 < s.bk[j.t[k]] <= |j.t|
    ensures s'.bk == s.bk[j.t[k] := s.bk[j.t[k]] - 1] && s'.G == s.G[s.bk[j.t[k]] - 1 := k]
  {
    s.Insert(k, j.t[k], s.bk[j.t[k]] - 1, s.bk[j.t[k]] - 1)
  }

  /** The LMS positions among `g`, in the order they stand there. */
  ghost function Found(t: seq<int>, g: seq<int>): (r: seq<int>)
    ensures |r| <= |g|
  {
    if g == [] then [] else (if IsLMS(t, g[0]) then [g[0]] else []) + Found(t, g[1..])
  }

  /** Array contents during the second scan: places up to `i` hold the queue, the LMS positions
      found so far are packed from `top` on, and the places between are clear. */
  ghost predicate SubSRep(j: Job, s: State, V: seq<int>, i: int, top: int)
    requires Fits(j, s) && -1 <= i < |j.t|
  {
    && |V| == |j.t| && 0 <= top && i < top == |j.t| - |Found(j.t, s.G[i + 1..])|
    && (forall p :: 0 <= p <= i ==> V[p] == SubQueue(j.t, s.G[p]))
    && (forall p :: i < p < top ==> V[p] == 0)
    && V[top..] == Found(j.t, s.G[i + 1..])
  }

  /** Invariant of the second scan at place `i`. */
  ghost predicate SubSAt(j: Job, s: State, V: seq<int>, i: int, top: int) {
    j.lo > 0 && SInv(j, s, i) && SubSRep(j, s, V, i, top)
  }

  lemma {:induction false} SubSStart(j: Job, s0: State, bk: seq<int>, V: seq<int>)
    requires SubLAt(j, s0, V, |j.t|)
    requires |bk| == j.K && forall c :: 0 <= c < j.K ==> bk[c] == MaxB(j.t, c)
    ensures Fits(j, s0) && SubSAt(j, DropS(j, s0).(bk := bk), V, |j.t| - 1, |j.t|)
  {
    hide MinB, MaxB, LShape, LProgress, SeedsPlaced, SortedL, SInv;
    SStart(j, s0, bk);
    forall p | 0 <= p < |j.t| ensures V[p] == SubQueue(j.t, DropS(j, s0).G[p]) {
      if s0.G[p] >= 0 {
        LOccupant(j, s0, |j.t|, p);
        if IsS(j.t, s0.G[p]) { SeedLeft(j, s0, p); }
      }
    }
  }

  /** The S positions that the first scan works with are LMS positions. */
  lemma {:induction false} SeedLeft(j: Job, s: State, p: int)
    requires LInv(j, s, |j.t|) && 0 <= p < |j.t| && s.G[p] >= 0 && IsS(j.t, s.G[p])
    ensures IsLMS(j.t, s.G[p])
  {
  }

  lemma {:induction false} FoundStep(t: seq<int>, G: seq<int>, i: int)
    requires 0 <= i < |G|
    ensures Found(t, G[i..]) == (if IsLMS(t, G[i]) then [G[i]] else []) + Found(t, G[i + 1..])
    ensures |Found(t, G[i + 1..])| <= |G| - i - 1
  {
    assert G[i..][1..] == G[i + 1..];
  }

  /** A queued position: its left neighbour is of type S, moves to its bucket, and the place is cleared. */
  lemma {:induction false} SubSMove(j: Job, s: State, V: seq<int>, i: int, top: int)
    requires SubSAt(j, s, V, i, top) && 0 <= i && V[i] > 0
    ensures 0 < V[i] - 1 < |j.t| && IsS(j.t, V[i] - 1)
    ensures Fits(j, s) && 0 < s.bk[j.t[V[i] - 1]] <= |j.t|
    ensures SubSAt(j, SNext(j, s, V[i] - 1), V[i := 0][s.bk[j.t[V[i] - 1]] - 1 := SubQueue(j.t, V[i] - 1)], i - 1, top)
  {
    hide IsS, SShape, SProgress, LPlaced, SortedS, MinB, MaxB;
    var k := V[i] - 1;
    SLow(j, s, i, i);
    SStep(j, s, i, k);
    FoundStep(j.t, s.G, i);
    var b := s.bk[j.t[k]] - 1;
    assert s.G[b := k][i..] == s.G[i..];
    assert V[i := 0][b := SubQueue(j.t, k)][top..] == V[top..];
  }

  /** A marked position: it is an LMS position and goes to the packed result. */
  lemma {:induction false} SubSFound(j: Job, s: State, V: seq<int>, i: int, top: int)
    requires SubSAt(j, s, V, i, top) && 0 <= i && V[i] < 0
    ensures -(|j.t| as int) <= V[i] && i < top <= |j.t|
    ensures SubSAt(j, s, V[i := 0][top - 1 := -V[i]], i - 1, top - 1)
  {
    hide SShape, SProgress, LPlaced, SortedS, MinB, MaxB;
    SLow(j, s, i, i);
    SSkip(j, s, i);
    FoundStep(j.t, s.G, i);
    assert V[i := 0][top - 1 := -V[i]][top - 1..] == [-V[i]] + V[top..];
  }

  /** An empty place, or a position that no longer matters. */
  lemma {:induction false} SubSSkip(j: Job, s: State, V: seq<int>, i: int, top: int)
    requires SubSAt(j, s, V, i, top) && 0 <= i && V[i] == 0
    ensures SubSAt(j, s, V, i - 1, top)
  {
    hide SShape, SProgress, LPlaced, SortedS, MinB, MaxB;
    if s.G[i] >= 0 { SLow(j, s, i, i); }
    SSkip(j, s, i);
    FoundStep(j.t, s.G, i);
  }

  method InduceSubS(w: Work, ghost f: Frame, ghost j: Job, ghost s0: State) returns (ghost s: State, ghost top: int)
    requires w.Ready(f) && j.t == f.t && j.K == w.K
    requires SubLAt(j, s0, w.sa.View(), |f.t|)
    modifies w.sa.arr, w.tmp.arr
    ensures w.Ready(f) && SubSAt(j, s, w.sa.View(), -1, top)
  {
    hide *;
    BucketMax(w, f);
    Shape(w, f);
    SubSStart(j, s0, w.Buckets(), w.sa.View());
    s := DropS(j, s0).(bk := w.Buckets());
    var cB := 0;
    var b := w.tmp.Get(w.off + cB);
    TableStart(w, cB);
    BucketSplit(f.t, cB);
    var free := w.sa.len;
    var i := w.sa.len - 1;
    while i >= 0
      invariant -1 <= i < |f.t|
      invariant w.Ready(f) && SubSAt(j, s, w.sa.View(), i, free)
      invariant |s.bk| == w.K && Table(w.Buckets(), s.bk, cB, b) && 0 <= b <= |f.t|
    {
      var x := w.sa.Get(i);
      if x == 0 {
        SubSSkip(j, s, w.sa.View(), i, free);
      } else if x < 0 {
        SubSFound(j, s, w.sa.View(), i, free);
        SetSa(w, i, 0, f);
        free := free - 1;
        SetSa(w, free, -x, f);
      } else {
        SubSMove(j, s, w.sa.View(), i, free);
        SetSa(w, i, 0, f);
        var k := x - 1;
        Shape(w, f);
        var c1, c0 := w.text.Get(k), w.text.Get(k - 1);
        assert c1 == f.t[k];
        SubQueueOfS(j.t, k);
        b := PushLeft(w, c1, if c0 > c1 then -k else k, cB, b, s.bk, f);
        cB := c1;
        s := SNext(j, s, k);
      }
      i := i - 1;
    }
    top := free;
  }

  // ---------- scans over suffixes ----------

  /** Invariant of the third scan before place `i`: the array is the queue. */
  ghost predicate LAt(j: Job, s: State, V: seq<int>, i: int) {
    && j.lo == 0 && LInv(j, s, i)
    && |V| == |j.t| && forall p :: 0 <= p < |j.t| ==> V[p] == Queue(j.t, s.G[p])
  }

  lemma {:induction false} LAtStart(j: Job, s0: State, bk: seq<int>, V: seq<int>)
    requires Seeded(j, s0, V) && j.lo == 0
    requires |bk| == j.K && forall c :: 0 <= c < j.K ==> bk[c] == MinB(j.t, c)
    ensures !IsS(j.t, |j.t| - 1) && Fits(j, State(s0.G, s0.pos, bk)) && 0 <= bk[j.t[|j.t| - 1]] < |j.t|
    ensures LAt(j, LNext(j, State(s0.G, s0.pos, bk), |j.t| - 1),
                V[bk[j.t[|j.t| - 1]] := Queue(j.t, |j.t| - 1)], 0)
  {
    hide IsS, LShape, LProgress, SeedsPlaced, SortedL, MinB, MaxB;
    LastIsL(j.t);
    LStart(j, s0, bk);
    LStep(j, State(s0.G, s0.pos, bk), -1, |j.t| - 1);
  }

  lemma {:induction false} LAtMove(j: Job, s: State, V: seq<int>, i: int)
    requires LAt(j, s, V, i) && 0 <= i < |j.t| && V[i] > 0
    ensures 0 <= V[i] - 1 < |j.t| && !IsS(j.t, V[i] - 1)
    ensures Fits(j, s) && 0 <= s.bk[j.t[V[i] - 1]] < |j.t|
    ensures LAt(j, LNext(j, s, V[i] - 1), V[s.bk[j.t[V[i] - 1]] := Queue(j.t, V[i] - 1)], i + 1)
  {
    hide IsS, LShape, LProgress, SeedsPlaced, SortedL, MinB, MaxB;
    LStep(j, s, i, V[i] - 1);
  }

  lemma {:induction false} LAtStay(j: Job, s: State, V: seq<int>, i: int)
    requires LAt(j, s, V, i) && 0 <= i < |j.t| && V[i] <= 0
    ensures LAt(j, s, V, i + 1)
  {
    hide IsS, LShape, LProgress, SeedsPlaced, SortedL, MinB, MaxB;
    LSkip(j, s, i);
  }

  method InduceL(w: Work, ghost f: Frame, ghost j: Job, ghost s0: State) returns (ghost s: State)
    requires w.Ready(f) && j.t == f.t && j.K == w.K && j.lo == 0
    requires Seeded(j, s0, w.sa.View())
    modifies w.sa.arr, w.tmp.arr
    ensures w.Ready(f) && LAt(j, s, w.sa.View(), |f.t|)
  {
    hide *;
    Shape(w, f);
    BucketMin(w, f);
    s := State(s0.G, s0.pos, w.Buckets());
    LAtStart(j, s0, s.bk, w.sa.View());
    Shape(w, f);

    var k := w.text.len - 1;
    var c0, c1 := w.text.Get(k - 1), w.text.Get(k);
    assert c1 == f.t[k];
    QueueOfL(j.t, k);
    var cB := c1;
    var b := w.tmp.Get(w.off + cB);
    TableStart(w, cB);
    b := PushRight(w, c1, if c0 < c1 then -k else k, cB, b, s.bk, f);
    s := LNext(j, s, k);

    for i := 0 to w.sa.len
      invariant w.Ready(f) && LAt(j, s, w.sa.View(), i)
      invariant |s.bk| == w.K && Table(w.Buckets(), s.bk, cB, b) && 0 <= b <= |f.t|
    {
      var x := w.sa.Get(i);
      if x <= 0 {
        LAtStay(j, s, w.sa.View(), i);
      } else {
        LAtMove(j, s, w.sa.View(), i);
        var k := x - 1;
        Shape(w, f);
        c1 := w.text.Get(k);
        assert c1 == f.t[k];
        var v := k;
        if k > 0 {
          c0 := w.text.Get(k - 1);
          if c0 < c1 { v := -k; }
          QueueOfL(j.t, k);
        } else {
          QueueOfFirst(j.t);
        }
        b := PushRight(w, c1, v, cB, b, s.bk, f);
        cB := c1;
        s := LNext(j, s, k);
      }
    }
  }

  lemma {:induction false} QueueOfFirst(t: seq<int>)
    ensures Queue(t, 0) == 0
  {
  }

  lemma {:induction false} QueueOfS(t: seq<int>, k: int)
    requires 0 < k < |t| && IsS(t, k)
    ensures Queue(t, k) == if t[k - 1] <= t[k] then -k else k
  {
    LeftNeighbourOfS(t, k);
  }

  /** Invariant of the last scan at place `i`: places above `i` are final; empty places hold no mark. */
  ghost predicate SAt(j: Job, s: State, V: seq<int>, i: int) {
    && j.lo == 0 && SInv(j, s, i)
    && |V| == |j.t| && forall p :: 0 <= p < |j.t| ==>
      if s.G[p] == -1 then V[p] >= 0 else V[p] == if p > i then s.G[p] else Queue(j.t, s.G[p])
  }

  lemma {:induction false} SAtStart(j: Job, s0: State, bk: seq<int>, V: seq<int>)
    requires LAt(j, s0, V, |j.t|)
    requires |bk| == j.K && forall c :: 0 <= c < j.K ==> bk[c] == MaxB(j.t, c)
    ensures Fits(j, s0) && SAt(j, DropS(j, s0).(bk := bk), V, |j.t| - 1)
  {
    hide MinB, MaxB, LShape, LProgress, SeedsPlaced, SortedL, SInv;
    SStart(j, s0, bk);
    forall p | 0 <= p < |j.t| && s0.G[p] >= 0 && IsS(j.t, s0.G[p]) ensures Queue(j.t, s0.G[p]) >= 0 {
      SeedLeft(j, s0, p);
    }
  }

  lemma {:induction false} SAtMove(j: Job, s: State, V: seq<int>, i: int)
    requires SAt(j, s, V, i) && 0 <= i && V[i] < 0
    ensures -(|j.t| as int) <= V[i] && 0 <= -V[i] - 1 < |j.t| && IsS(j.t, -V[i] - 1)
    ensures Fits(j, s) && 0 < s.bk[j.t[-V[i] - 1]] <= |j.t|
    ensures SAt(j, SNext(j, s, -V[i] - 1), V[i := -V[i]][s.bk[j.t[-V[i] - 1]] - 1 := Queue(j.t, -V[i] - 1)], i - 1)
  {
    hide IsS, SShape, SProgress, LPlaced, SortedS, MinB, MaxB;
    SLow(j, s, i, i);
    SStep(j, s, i, -V[i] - 1);
  }

  lemma {:induction false} SAtStay(j: Job, s: State, V: seq<int>, i: int)
    requires SAt(j, s, V, i) && 0 <= i && V[i] >= 0
    ensures SAt(j, s, V, i - 1)
  {
    hide SShape, SProgress, LPlaced, SortedS, MinB, MaxB;
    SSkip(j, s, i);
  }

  method InduceS(w: Work, ghost f: Frame, ghost j: Job, ghost s0: State) returns (ghost s: State)
    requires w.Ready(f) && j.t == f.t && j.K == w.K
    requires LAt(j, s0, w.sa.View(), |f.t|)
    modifies w.sa.arr, w.tmp.arr
    ensures w.Ready(f) && SAt(j, s, w.sa.View(), -1)
  {
    hide *;
    BucketMax(w, f);
    Shape(w, f);
    SAtStart(j, s0, w.Buckets(), w.sa.View());
    s := DropS(j, s0).(bk := w.Buckets());
    var cB := 0;
    var b := w.tmp.Get(w.off + cB);
    TableStart(w, cB);
    BucketSplit(f.t, cB);
    var i := w.sa.len - 1;
    while i >= 0
      invariant -1 <= i < |f.t|
      invariant w.Ready(f) && SAt(j, s, w.sa.View(), i)
      invariant |s.bk| == w.K && Table(w.Buckets(), s.bk, cB, b) && 0 <= b <= |f.t|
    {
      var x := w.sa.Get(i);
      if x >= 0 {
        SAtStay(j, s, w.sa.View(), i);
      } else {
        SAtMove(j, s, w.sa.View(), i);
        SetSa(w, i, -x, f);
        var k := -x - 1;
        Shape(w, f);
        var c1 := w.text.Get(k);
        assert c1 == f.t[k];
        var v := k;
        if k > 0 {
          var c0 := w.text.Get(k - 1);
          if c0 <= c1 { v := -k; }
          QueueOfS(j.t, k);
        } else {
          QueueOfFirst(j.t);
        }
        b := PushLeft(w, c1, v, cB, b, s.bk, f);
        cB := c1;
        s := SNext(j, s, k);
      }
      i := i - 1;
    }
  }

  /** After the last scan with the suffix order the array is the suffix array. */
  lemma {:induction false} ScansSort(j: Job, s: State, V: seq<int>)
    requires SAt(j, s, V, -1) && j.full
    ensures IsSuffixArray(j.t, V)
  {
    hide SShape, SProgress, LPlaced, MinB, MaxB, Queue;
    forall x | 0 <= x < |j.t| ensures s.pos[x] >= 0 { SComplete(j, s, x); }
    forall x, y | 0 <= x < y < |j.t| ensures s.pos[x] != s.pos[y] {
      assert s.G[s.pos[x]] == x && s.G[s.pos[y]] == y;
    }
    forall p | 0 <= p < |j.t| ensures s.G[p] >= 0 {
      var x := Pigeonhole.FindInPermutation(s.pos, p);
    }
    assert V == s.G;
    forall p, q | 0 <= p < q < |V| ensures Less(j.t, V[p], V[q]) {
      assert !OrdS(j.t, true, V[q], V[p]);
      OrdSIsLess(j.t, V[q], V[p]);
      LessTotal(j.t, V[p], V[q]);
      assert s.pos[s.G[p]] == p && s.pos[s.G[q]] == q;
    }
  }
}
