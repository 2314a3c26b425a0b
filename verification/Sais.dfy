/** Suffix-array construction by induced sorting. */
module Sais {
  import opened SuffixOrder
  import opened InducedOrder
  import opened Reduction
  import opened Buckets
  import opened Induce
  import opened Memory
  import opened Passes
  import opened Scans
  import opened LmsPasses
  import opened Expand
  import opened Codes
  import opened Names

  // One level of the construction, the recursion on the reduced text inside the same array, and
  // the entry points for 16-bit and 32-bit results.

  // ---------- from numbers to an order of the LMS suffixes ----------

  /** The reduced text names the LMS-substrings, with names below the largest number. */
  lemma {:induction false} ReducedNames(t: seq<int>, F: seq<int>, R: seq<int>)
    requires SubSorted(t, F) && IsReduced(t, F, R) && |F| > 0
    ensures Naming(t, Lms(t), R) && Alphabet(R, Rank(t, F, |F| - 1))
  {
    hide IsS, OrdS, TieS, Rank, Lms;
    var P := Lms(t);
    forall a, b | 0 <= a < |P| && 0 <= b < |P|
      ensures R[a] < R[b] ==> OrdS(t, false, P[a], P[b])
      ensures R[a] == R[b] ==> TieS(t, P[a], P[b])
    {
      var p := Listed(t, F, P[a]);
      var q := Listed(t, F, P[b]);
      if p <= q {
        RankOrder(t, F, p, q);
      } else {
        RankOrder(t, F, q, p);
        if R[a] == R[b] { TieSymmetric(t, P[b], P[a]); }
      }
    }
    forall a | 0 <= a < |R| ensures 0 <= R[a] < Rank(t, F, |F| - 1) {
      var p := Listed(t, F, P[a]);
      RankOrder(t, F, p, |F| - 1);
    }
  }

  lemma {:induction false} RankFull(t: seq<int>, F: seq<int>, q: int)
    requires SubSorted(t, F) && 0 <= q < |F| && Rank(t, F, |F| - 1) == |F|
    ensures Rank(t, F, q) == q + 1
    decreases |F| - q
  {
    if q < |F| - 1 {
      RankFull(t, F, q + 1);
      RankUnfold(t, F, q + 1);
    }
  }

  /** If every LMS-substring has its own number, the substring order is already the suffix order. */
  lemma {:induction false} DistinctNames(t: seq<int>, F: seq<int>)
    requires SubSorted(t, F) && |F| > 0 && Rank(t, F, |F| - 1) == |F|
    ensures SortedLms(t, F)
  {
    hide IsS, OrdS, TieS, Rank, Lms;
    forall p, q | 0 <= p < q < |F| ensures Less(t, F[p], F[q]) {
      RankFull(t, F, p);
      RankFull(t, F, q);
      RankOrder(t, F, p, q);
      OrdSImpliesLess(t, F[p], F[q]);
    }
  }

  // ---------- after the recursion ----------

  /** sa[:numLMS] := sa[len-numLMS:] */
  method CopyPass(w: Work, numLMS: nat, ghost f: Frame)
    requires w.Ready(f) && 2 * numLMS <= |f.t|
    requires forall p :: |f.t| - numLMS <= p < |f.t| ==> w.sa.Holds(w.sa.View()[p])
    modifies w.sa.arr
    ensures w.Ready(f) && w.sa.View()[..numLMS] == old(w.sa.View()[|f.t| - numLMS..])
  {
    hide *;
    Shape(w, f);
    ghost var V0 := w.sa.View();
    for i := 0 to numLMS
      invariant w.Ready(f)
      invariant forall p :: 0 <= p < i ==> w.sa.View()[p] == V0[|f.t| - numLMS + p]
      invariant forall p :: numLMS <= p < |f.t| ==> w.sa.View()[p] == V0[p]
    {
      SetSa(w, i, w.sa.Get(w.sa.len - numLMS + i), f);
    }
  }

  /** While the inverse map is rebuilt: it holds the LMS positions seen so far; the subproblem's
      result at the bottom is untouched. */
  ghost predicate UnmapAt(t: seq<int>, V: seq<int>, r: seq<int>, i: int, j: int) {
    && 2 <= |t| && -1 <= i < |t| && |V| == |t| && |r| == |Lms(t)| && |r| <= Top(t) && V[..|r|] == r
    && 0 <= j == |r| - |Seen(t, i)| && V[Top(t) + j..] == Seen(t, i)
  }

  lemma {:induction false} UnmapStart(t: seq<int>, V: seq<int>, r: seq<int>)
    requires 2 <= |t| == |V| && |r| == |Lms(t)| && |r| <= Top(t) && V[..|r|] == r
    ensures UnmapAt(t, V, r, |t| - 1, |r|)
  {
  }

  lemma {:induction false} UnmapSkip(t: seq<int>, V: seq<int>, r: seq<int>, i: int, j: int)
    requires UnmapAt(t, V, r, i, j) && 0 <= i && !IsLMS(t, i + 1)
    ensures UnmapAt(t, V, r, i - 1, j)
  {
    hide IsS, Lms;
    assert Seen(t, i - 1) == Seen(t, i);
  }

  lemma {:induction false} UnmapFound(t: seq<int>, V: seq<int>, r: seq<int>, i: int, j: int)
    requires UnmapAt(t, V, r, i, j) && 0 <= i && IsLMS(t, i + 1)
    ensures 0 < j <= |r| && 0 <= Top(t) + j - 1 < |V|
    ensures UnmapAt(t, V[Top(t) + j - 1 := i + 1], r, i - 1, j - 1)
  {
    hide IsS;
    assert Seen(t, i - 1) == [i + 1] + Seen(t, i);
    if i == 0 { FewerFrom(t, 0, 1); } else { FewerFrom(t, 0, i + 1); }
    var V' := V[Top(t) + j - 1 := i + 1];
    assert V'[..|r|] == V[..|r|];
    assert V'[Top(t) + j - 1..] == [i + 1] + V[Top(t) + j..];
  }

  lemma {:induction false} UnmapEnd(t: seq<int>, V: seq<int>, r: seq<int>, j: int)
    requires UnmapAt(t, V, r, -1, j)
    ensures V[Top(t)..] == Lms(t) && |V| == |t| && Top(t) == |t| - |r| && |r| <= Top(t)
    ensures forall a :: 0 <= a < |r| ==> V[Top(t) + a] == Lms(t)[a] && 0 <= Lms(t)[a] < |t|
    ensures forall a :: 0 <= a < |r| ==> V[a] == r[a]
  {
    IterEnd(t);
    LmsFromElements(t, 0);
    assert j == 0;
    forall a | 0 <= a < |r| ensures V[Top(t) + a] == Lms(t)[a] { assert V[Top(t)..][a] == Lms(t)[a]; }
    forall a | 0 <= a < |r| ensures V[a] == r[a] { assert V[..|r|][a] == r[a]; }
  }

  /** Lists the LMS positions, left to right, in sa[len-numLMS:]. */
  method InverseMap(w: Work, numLMS: nat, ghost f: Frame, ghost r: seq<int>)
    requires w.Ready(f) && numLMS == |r| == |Lms(f.t)| <= Top(f.t) && w.sa.View()[..numLMS] == r
    modifies w.sa.arr
    ensures w.Ready(f)
    ensures forall a :: 0 <= a < numLMS ==> w.sa.View()[|f.t| - numLMS + a] == Lms(f.t)[a] && 0 <= Lms(f.t)[a] < |f.t|
    ensures forall a :: 0 <= a < numLMS ==> w.sa.View()[a] == r[a]
  {
    hide *;
    Shape(w, f);
    ghost var t := f.t;
    UnmapStart(t, w.sa.View(), r);
    IterStart(t);
    var j := numLMS;
    var c0, c1, isTypeS := 0, 0, false;
    var i := w.text.len - 1;
    TopIs(t);
    while i >= 0
      invariant -1 <= i < |t| && w.Ready(f) && Iter(t, i, c0, isTypeS)
      invariant UnmapAt(t, w.sa.View(), r, i, j)
    {
      Shape(w, f);
      IterStep(t, w.K, i, c0, isTypeS);
      c0, c1 := w.text.Get(i), c0;
      assert c0 == t[i];
      if c0 < c1 {
        isTypeS := true;
        UnmapSkip(t, w.sa.View(), r, i, j);
      } else if c0 > c1 && isTypeS {
        isTypeS := false;
        UnmapFound(t, w.sa.View(), r, i, j);
        j := j - 1;
        SetSa(w, w.sa.len - numLMS + j, i + 1, f);
      } else {
        UnmapSkip(t, w.sa.View(), r, i, j);
      }
      i := i - 1;
    }
    UnmapEnd(t, w.sa.View(), r, j);
  }

  /** Replaces subproblem positions in sa[:numLMS] by the LMS positions they stand for. */
  method UnmapPass(w: Work, numLMS: nat, ghost f: Frame, ghost r: seq<int>)
    requires w.Ready(f) && numLMS == |r| == |Lms(f.t)| <= Top(f.t) && w.sa.View()[..numLMS] == r
    requires forall a :: 0 <= a < |r| ==> 0 <= r[a] < |r|
    modifies w.sa.arr
    ensures w.Ready(f)
    ensures forall q :: 0 <= q < numLMS ==> w.sa.View()[q] == Lms(f.t)[r[q]]
  {
    hide *;
    Shape(w, f);
    TopIs(f.t);
    InverseMap(w, numLMS, f, r);
    for k := 0 to numLMS
      invariant w.Ready(f)
      invariant forall q :: 0 <= q < k ==> w.sa.View()[q] == Lms(f.t)[r[q]]
      invariant forall q :: k <= q < numLMS ==> w.sa.View()[q] == r[q]
      invariant forall a :: 0 <= a < numLMS ==> w.sa.View()[|f.t| - numLMS + a] == Lms(f.t)[a] && 0 <= Lms(f.t)[a] < |f.t|
    {
      Shape(w, f);
      var x := w.sa.Get(k);
      assert x == r[k] && 0 <= Lms(f.t)[r[k]] < |f.t|;
      SetSa(w, k, w.sa.Get(w.sa.len - numLMS + x), f);
    }
  }

  lemma {:induction false} TopIs(t: seq<int>)
    ensures Top(t) == |t| - |Lms(t)|
  {
  }

  // ---------- the recursion ----------

  /** What a call must be given: slices in bounds that do not overlap, text over the alphabet, room
      for one bucket table, result cells cleared. */
  ghost predicate Callable(text: Slice, bytes: bool, textMax: nat, sa: Slice, tmp: Slice, f: Frame)
    reads text.arr, sa.arr, set k | k in f.keep :: k.arr
  {
    && text.Valid() && sa.Valid() && tmp.Valid()
    && sa.len == text.len <= sa.width.Max() && sa.width == tmp.width && textMax <= tmp.len
    && Apart(sa, text) && Apart(tmp, text) && Apart(sa, tmp) && Apart(tmp, sa)
    && AllApart(sa, f.keep) && AllApart(tmp, f.keep) && f.Holds()
    && text.View() == f.t && Alphabet(f.t, textMax) && (bytes ==> textMax == 256)
    && forall p :: 0 <= p < sa.len ==> sa.View()[p] == 0
  }

  /** `tmp` is as it was, or is marked as overwritten. */
  twostate predicate TmpMarked(tmp: Slice)
    requires tmp.Valid()
    reads tmp.arr
  {
    tmp.View() == old(tmp.View()) || (tmp.len > 0 && tmp.View()[0] == -1)
  }

  /** Scratch space of half the text length or more makes a fallback allocation unnecessary. */
  predicate Ample(tmpLen: nat, textLen: nat) {
    textLen <= 2 * tmpLen + 1
  }

  /** Computes the suffix array of `text` into `sa`. `allocs` counts fallback allocations of scratch space. */
  method Sais(text: Slice, bytes: bool, textMax: nat, sa: Slice, tmp: Slice, ghost f: Frame) returns (allocs: nat)
    requires Callable(text, bytes, textMax, sa, tmp, f)
    modifies sa.arr, tmp.arr
    ensures IsSuffixArray(f.t, sa.View())
    ensures text.View() == f.t && f.Holds() && TmpMarked(tmp)
    ensures allocs <= 1 && (Ample(tmp.len, text.len) ==> allocs == 0)
    decreases sa.len, 4
  {
    allocs := 0;
    if text.len == 0 {
      return;
    }
    if text.len == 1 {
      Put(sa, 0, 0, text, tmp, f.keep);
      LessIrreflexive(f.t, 0);
      return;
    }
    assert 0 <= f.t[0] < textMax;
    var off := if tmp.len >= 2 * textMax then textMax else 0;
    var w := Work(text, textMax, sa, tmp, off);
    if off != 0 {
      SetTmp(w, 0, -1, f);
    }
    allocs := SortAll(w, bytes, f);
    SetTmp(w, 0, -1, f);
  }

  /** One level of the construction. */
  method SortAll(w: Work, bytes: bool, ghost f: Frame) returns (allocs: nat)
    requires w.Ready(f) && (bytes ==> w.K == 256) && forall p :: 0 <= p < |f.t| ==> w.sa.View()[p] == 0
    modifies w.sa.arr, w.tmp.arr
    ensures w.Ready(f) && IsSuffixArray(f.t, w.sa.View())
    ensures allocs <= 1 && (Ample(w.tmp.len, |f.t|) ==> allocs == 0)
    decreases w.sa.len, 3
  {
    hide *;
    Shape(w, f);
    allocs := 0;
    ghost var s;
    var numLMS;
    numLMS, s := PlaceLMS(w, f);
    if numLMS > 1 {
      allocs, s := SortLMS(w, bytes, numLMS, f, s);
    }
    ghost var j := All(f.t, w.K, true);
    AllIs(f.t, w.K);
    s := InduceL(w, f, j, s);
    s := InduceS(w, f, j, s);
    ScansSort(j, s, w.sa.View());
  }

  lemma {:induction false} AllIs(t: seq<int>, K: int)
    ensures All(t, K, true) == Job(t, K, 0, true) && All(t, K, true).lo == 0 && All(t, K, true).full
  {
  }

  lemma {:induction false} SubIs(t: seq<int>, K: int)
    requires |Lms(t)| > 1
    ensures Sub(t, K).t == t && Sub(t, K).K == K && Sub(t, K).lo > 0
  {
    LmsFromElements(t, 0);
    assert IsLMS(t, Lms(t)[0]);
  }

  /** Sorts the LMS suffixes and puts them at the right ends of their buckets. */
  method SortLMS(w: Work, bytes: bool, numLMS: nat, ghost f: Frame, ghost s0: State) returns (allocs: nat, ghost s: State)
    requires w.Ready(f) && (bytes ==> w.K == 256) && 1 < numLMS == |Lms(f.t)|
    requires Seeded(Sub(f.t, w.K), s0, w.sa.View())
    modifies w.sa.arr, w.tmp.arr
    ensures w.Ready(f) && Seeded(All(f.t, w.K, true), s, w.sa.View())
    ensures allocs <= 1 && (Ample(w.tmp.len, |f.t|) ==> allocs == 0)
    decreases w.sa.len, 2
  {
    hide *;
    Shape(w, f);
    allocs := 0;
    ghost var t := f.t;
    ghost var j := Sub(t, w.K);
    SubIs(t, w.K);
    s := InduceSubL(w, f, j, s0);
    ghost var top;
    s, top := InduceSubS(w, f, j, s);
    SubScansSort(t, w.K, s, w.sa.View(), top);
    TopIs(t);
    ghost var F := w.sa.View()[top..];
    LengthPass(w, bytes, f);
    AssignStart(t, bytes, w.sa.width, F, w.sa.View());
    var maxID := AssignID(w, bytes, numLMS, f, F);
    if maxID < numLMS {
      allocs := SortReduced(w, bytes, numLMS, maxID, f, F);
    } else {
      DistinctCopy(t, bytes, w.sa.width, F, w.sa.View(), maxID);
      Shape(w, f);
      CopyPass(w, numLMS, f);
    }
    s := ExpandPass(w, f, numLMS, w.sa.View()[..numLMS]);
  }

  lemma {:induction false} DistinctCopy(t: seq<int>, bytes: bool, width: Width, F: seq<int>, V: seq<int>, maxID: int)
    requires AssignAt(t, bytes, width, F, V, |F|) && |F| > 0 && maxID == Rank(t, F, |F| - 1) && maxID >= |F|
    ensures SortedLms(t, F) && |V| == |t| && 2 * |F| <= |t| && V[|t| - |F|..] == F
    ensures forall p :: |t| - |F| <= p < |t| ==> -|t| <= V[p] <= |t|
  {
    hide IsS, Rank, OrdS, Code, Lms;
    SlotOf(t, F[0]);
    RankBound(t, F, |F| - 1);
    DistinctNames(t, F);
    forall p | |t| - |F| <= p < |t| ensures -|t| <= V[p] <= |t| { assert V[p] == F[p - (|t| - |F|)]; }
  }

  lemma {:induction false} RankBound(t: seq<int>, F: seq<int>, q: int)
    requires LmsList(t, F) && 0 <= q < |F|
    ensures Rank(t, F, q) <= q + 1
  {
  }

  /** Sorts the LMS suffixes by sorting the reduced text. */
  method SortReduced(w: Work, bytes: bool, numLMS: nat, maxID: nat, ghost f: Frame, ghost F: seq<int>) returns (allocs: nat)
    requires w.Ready(f) && 1 < numLMS == |F| == |Lms(f.t)| && AssignAt(f.t, bytes, w.sa.width, F, w.sa.View(), numLMS)
    requires LmsList(f.t, F) && Rank(f.t, F, numLMS - 1) == maxID < numLMS
    modifies w.sa.arr, w.tmp.arr
    ensures w.Ready(f) && SortedLms(f.t, w.sa.View()[..numLMS])
    ensures allocs <= 1 && (Ample(w.tmp.len, |f.t|) ==> allocs == 0)
    decreases w.sa.len, 1
  {
    hide *;
    Shape(w, f);
    ghost var t := f.t;
    ghost var V0 := w.sa.View();
    AssignedIsNumbered(t, bytes, w.sa.width, F, V0);
    MapPass(w, numLMS, f, F);
    ghost var top :| PackedAt(t, V0, w.sa.View(), -1, top);
    PackedEnd(t, bytes, w.sa.width, F, V0, w.sa.View(), top);
    ghost var R := w.sa.View()[top..];
    AssignFacts(t, bytes, w.sa.width, F, V0, numLMS);
    ReducedNames(t, F, R);
    TopIs(t);
    LmsHalf(t);
    allocs := Recurse(w, numLMS, maxID, f, R);
    ghost var r := w.sa.View()[..numLMS];
    SuffixArrayRange(R, r);
    UnmapPass(w, numLMS, f, r);
    LmsInRange(t);
    MapBack(t, R, r, w.sa.View()[..numLMS]);
  }

  lemma {:induction false} LmsInRange(t: seq<int>)
    ensures forall a :: 0 <= a < |Lms(t)| ==> 0 <= Lms(t)[a] < |t|
  {
    LmsFromElements(t, 0);
  }

  lemma {:induction false} SuffixArrayRange(t: seq<int>, sa: seq<int>)
    requires IsSuffixArray(t, sa)
    ensures |sa| == |t| && forall p :: 0 <= p < |sa| ==> 0 <= sa[p] < |t|
  {
  }

  /** Scratch space for the recursive call: the caller's, the middle of the array, or a new allocation. */
  method ChooseTmp(w: Work, numLMS: nat, maxID: nat, ghost f: Frame) returns (tmp: Slice, allocs: nat)
    requires w.Ready(f) && 2 * numLMS + 1 <= |f.t| && 0 < maxID < numLMS
    ensures w.Ready(f) && w.sa.View() == old(w.sa.View())
    ensures tmp.Valid() && tmp.width == w.sa.width && maxID <= tmp.len && Ample(tmp.len, numLMS)
    ensures tmp == w.tmp || tmp == w.sa.Sub(numLMS, |f.t| - numLMS) || fresh(tmp.arr)
    ensures allocs <= 1 && (Ample(w.tmp.len, |f.t|) ==> allocs == 0)
  {
    allocs := 0;
    tmp := w.tmp;
    var saTmp := w.sa.Sub(numLMS, w.sa.len - numLMS);
    if tmp.len < saTmp.len {
      tmp := saTmp;
    }
    if tmp.len < numLMS {
      var n := if maxID < numLMS / 2 then numLMS / 2 else maxID;
      var cells := new int[n];
      tmp := Slice(cells, 0, n, w.sa.width);
      allocs := 1;
    }
  }

  /** What the recursive call must leave alone, beyond what this level must: the text of this level
      and, unless it is the scratch space, the scratch space of this level. */
  ghost function SubFrame(w: Work, f: Frame, R: seq<int>, tmp: Slice, B: seq<int>): Frame {
    if tmp == w.tmp then Frame(R, f.keep + [w.text], f.vals + [f.t])
    else Frame(R, f.keep + [w.text, w.tmp], f.vals + [f.t, B])
  }

  lemma {:induction false} SubFrameApart(w: Work, f: Frame, R: seq<int>, tmp: Slice, B: seq<int>, numLMS: nat, s: Slice)
    requires w.Disjoint(f) && 2 * numLMS + 1 <= |f.t|
    requires s.Valid() && (s == w.sa.Sub(0, numLMS) || s == w.sa.Sub(numLMS, |f.t| - numLMS) || (s == tmp == w.tmp))
    ensures AllApart(s, SubFrame(w, f, R, tmp, B).keep)
  {
    var f' := SubFrame(w, f, R, tmp, B);
    forall k | k in f'.keep ensures k.Valid() && Apart(s, k) {
      assert k in f.keep || k == w.text || (k == w.tmp && tmp != w.tmp);
      if k in f.keep { assert Apart(w.sa, k) && Apart(w.tmp, k); }
    }
  }

  lemma {:induction false} SubTmpApart(w: Work, f: Frame, R: seq<int>, tmp: Slice, B: seq<int>, numLMS: nat)
    requires w.Disjoint(f) && 2 * numLMS + 1 <= |f.t| && tmp.Valid()
    requires tmp == w.tmp || tmp == w.sa.Sub(numLMS, |f.t| - numLMS) ||
             (tmp.arr != w.text.arr && tmp.arr != w.tmp.arr && forall k :: k in f.keep ==> k.arr != tmp.arr)
    ensures AllApart(tmp, SubFrame(w, f, R, tmp, B).keep)
  {
    if tmp == w.tmp || tmp == w.sa.Sub(numLMS, |f.t| - numLMS) {
      SubFrameApart(w, f, R, tmp, B, numLMS, tmp);
    }
  }

  lemma {:induction false} SubFrameHolds(w: Work, f: Frame, R: seq<int>, tmp: Slice, B: seq<int>)
    requires w.Disjoint(f) && w.text.View() == f.t && w.tmp.View() == B && f.Holds()
    ensures forall k :: k in SubFrame(w, f, R, tmp, B).keep ==> k.Valid()
    ensures SubFrame(w, f, R, tmp, B).Holds()
  {
    var f' := SubFrame(w, f, R, tmp, B);
    forall k | k in f'.keep ensures k.Valid() { assert k in f.keep || k == w.text || k == w.tmp; }
  }

  /** After the recursive call this level's working set is in order again. */
  lemma {:induction false} SubFrameDone(w: Work, f: Frame, R: seq<int>, tmp: Slice, B: seq<int>)
    requires w.Disjoint(f) && |B| == w.tmp.len && w.CacheRight(B, f.t)
    requires forall k :: k in SubFrame(w, f, R, tmp, B).keep ==> k.Valid()
    requires SubFrame(w, f, R, tmp, B).Holds() && |f.keep| == |f.vals|
    requires tmp == w.tmp ==> w.tmp.View() == B || w.tmp.View()[0] == -1
    ensures w.Ready(f)
  {
    var f' := SubFrame(w, f, R, tmp, B);
    var n := |f.keep|;
    forall k | 0 <= k < n ensures f.keep[k].View() == f.vals[k] {
      assert f'.keep[k] == f.keep[k] && f'.vals[k] == f.vals[k];
    }
    assert f'.keep[n] == w.text && f'.vals[n] == f.t;
    if tmp != w.tmp { assert f'.keep[n + 1] == w.tmp && f'.vals[n + 1] == B; }
  }

  method ClearCells(dst: Slice, text: Slice, tmp: Slice, ghost f: Frame)
    requires dst.Valid() && text.Valid() && tmp.Valid() && Apart(dst, text) && Apart(dst, tmp) && AllApart(dst, f.keep)
    requires f.Holds() && text.View() == f.t
    modifies dst.arr
    ensures f.Holds() && text.View() == f.t && tmp.View() == old(tmp.View())
    ensures forall p :: 0 <= p < dst.len ==> dst.View()[p] == 0
  {
    for i := 0 to dst.len
      invariant f.Holds() && text.View() == f.t && tmp.View() == old(tmp.View())
      invariant forall p :: 0 <= p < i ==> dst.View()[p] == 0
    {
      Put(dst, i, 0, text, tmp, f.keep);
    }
  }

  lemma {:induction false} SubSlices(w: Work, f: Frame, numLMS: nat, tmp: Slice)
    requires w.Disjoint(f) && 2 * numLMS + 1 <= |f.t| && tmp.Valid()
    requires tmp == w.tmp || tmp == w.sa.Sub(numLMS, |f.t| - numLMS) || (tmp.arr != w.sa.arr && tmp.arr != w.tmp.arr)
    ensures var dst, text := w.sa.Sub(0, numLMS), w.sa.Sub(|f.t| - numLMS, |f.t|);
      dst.Valid() && text.Valid() && Apart(dst, text) && Apart(tmp, text) && Apart(dst, tmp) && Apart(tmp, dst)
  {
  }

  lemma {:induction false} SubViews(w: Work, n: nat, numLMS: nat)
    requires w.sa.Valid() && w.sa.len == n && numLMS <= n
    ensures w.sa.Sub(0, numLMS).Valid() && w.sa.Sub(n - numLMS, n).Valid()
    ensures w.sa.Sub(0, numLMS).arr == w.sa.arr && w.sa.Sub(0, numLMS).len == numLMS
    ensures 2 * numLMS <= n ==> w.sa.Sub(numLMS, n - numLMS).arr == w.sa.arr
    ensures w.sa.Sub(n - numLMS, n).len == numLMS
    ensures w.sa.Sub(0, numLMS).View() == w.sa.View()[..numLMS]
    ensures w.sa.Sub(n - numLMS, n).View() == w.sa.View()[n - numLMS..]
  {
  }

  /** The recursive call gets what it needs. */
  lemma {:induction false} SubCallable(w: Work, f: Frame, numLMS: nat, maxID: nat, R: seq<int>, tmp: Slice, B: seq<int>)
    requires w.Disjoint(f) && |f.keep| == |f.vals| && 2 * numLMS + 1 <= |f.t| && Alphabet(R, maxID) && |R| == numLMS
    requires tmp.Valid() && tmp.width == w.sa.width && maxID <= tmp.len
    requires tmp == w.tmp || tmp == w.sa.Sub(numLMS, |f.t| - numLMS) || (tmp.arr != w.sa.arr && tmp.arr != w.tmp.arr)
    requires AllApart(tmp, SubFrame(w, f, R, tmp, B).keep)
    requires w.sa.Sub(0, numLMS).Valid() && w.sa.Sub(|f.t| - numLMS, |f.t|).Valid()
    requires forall k :: k in SubFrame(w, f, R, tmp, B).keep ==> k.Valid()
    requires SubFrame(w, f, R, tmp, B).Holds() && w.sa.Sub(|f.t| - numLMS, |f.t|).View() == R
    requires forall p :: 0 <= p < numLMS ==> w.sa.Sub(0, numLMS).View()[p] == 0
    ensures Callable(w.sa.Sub(|f.t| - numLMS, |f.t|), false, maxID, w.sa.Sub(0, numLMS), tmp, SubFrame(w, f, R, tmp, B))
  {
    SubSlices(w, f, numLMS, tmp);
    SubFrameApart(w, f, R, tmp, B, numLMS, w.sa.Sub(0, numLMS));
  }

  lemma {:induction false} SubFrameText(w: Work, f: Frame, R: seq<int>, tmp: Slice, B: seq<int>)
    ensures SubFrame(w, f, R, tmp, B).t == R
  {
  }

  lemma {:induction false} ReadyParts(w: Work, f: Frame)
    requires w.Ready(f)
    ensures w.Disjoint(f) && f.Holds() && |f.keep| == |f.vals| && w.text.View() == f.t
    ensures w.CacheRight(w.tmp.View(), f.t)
  {
  }

  /** Solves the subproblem at the top of `sa` into the bottom of `sa`. */
  method Recurse(w: Work, numLMS: nat, maxID: nat, ghost f: Frame, ghost R: seq<int>) returns (allocs: nat)
    requires w.Ready(f) && 1 < numLMS && 2 * numLMS + 1 <= |f.t| && 0 < maxID < numLMS
    requires R == w.sa.View()[|f.t| - numLMS..] && Alphabet(R, maxID)
    modifies w.sa.arr, w.tmp.arr
    ensures w.Ready(f) && IsSuffixArray(R, w.sa.View()[..numLMS])
    ensures allocs <= 1 && (Ample(w.tmp.len, |f.t|) ==> allocs == 0)
    decreases w.sa.len, 0
  {
    hide *;
    var tmp;
    tmp, allocs := ChooseTmp(w, numLMS, maxID, f);
    Shape(w, f);
    ReadyParts(w, f);
    ghost var n := |f.t|;
    var dst, text := w.sa.Sub(0, numLMS), w.sa.Sub(w.sa.len - numLMS, w.sa.len);
    ghost var B := w.tmp.View();
    ghost var f' := SubFrame(w, f, R, tmp, B);
    SubFrameText(w, f, R, tmp, B);
    SubSlices(w, f, numLMS, tmp);
    SubViews(w, n, numLMS);
    SubFrameApart(w, f, R, tmp, B, numLMS, dst);
    SubFrameHolds(w, f, R, tmp, B);
    SubTmpApart(w, f, R, tmp, B, numLMS);
    ClearCells(dst, text, tmp, f');
    SubCallable(w, f, numLMS, maxID, R, tmp, B);
    var more := Sais(text, false, maxID, dst, tmp, f');
    allocs := allocs + more;
    SubFrameDone(w, f, R, tmp, B);
    SubViews(w, n, numLMS);
  }
}
