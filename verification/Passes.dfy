/**
 The working set of one level of the construction, and the passes that count characters and turn the
 counts into the ends of buckets.
 */
module Passes {
  import opened SuffixOrder
  import opened Buckets
  import opened Memory
  import Pigeonhole

  /** What a pass must leave alone: the text `t`, and the contents `vals` of the slices `keep`. */
  datatype Frame = Frame(t: seq<int>, keep: seq<Slice>, vals: seq<seq<int>>) {
    ghost predicate Holds()
      requires forall k :: 0 <= k < |keep| ==> keep[k].Valid()
      reads set k | k in keep :: k.arr
    {
      |keep| == |vals| && forall k :: 0 <= k < |keep| ==> keep[k].View() == vals[k]
    }
  }

  /** The working set of one level of the construction. The scratch slice `tmp` holds the bucket
      table at [off, off+K); if off is K, then [0, K) caches the character frequencies. */
  datatype Work = Work(text: Slice, K: nat, sa: Slice, tmp: Slice, off: nat) {

    /** The slices are in bounds and do not overlap. */
    ghost predicate Disjoint(f: Frame) {
      && text.Valid() && sa.Valid() && tmp.Valid()
      && |f.t| == text.len == sa.len && 2 <= sa.len <= sa.width.Max() && sa.width == tmp.width
      && 0 < K && (off == 0 || off == K) && off + K <= tmp.len
      && Alphabet(f.t, K)
      && Apart(sa, text) && Apart(tmp, text) && Apart(sa, tmp) && Apart(tmp, sa)
      && AllApart(sa, f.keep) && AllApart(tmp, f.keep)
    }

    /** A non-negative first frequency means the whole cache is right. */
    ghost predicate Cached(t: seq<int>)
      requires tmp.Valid() && off + K <= tmp.len
      reads tmp.arr
    {
      CacheRight(tmp.View(), t)
    }

    ghost predicate CacheRight(B: seq<int>, t: seq<int>)
      requires off + K <= |B|
    {
      off == K && K > 0 && B[0] >= 0 ==> forall c :: 0 <= c < K ==> B[c] == Freq(t, c)
    }

    ghost predicate Ready(f: Frame)
      reads text.arr, tmp.arr, set k | k in f.keep :: k.arr
    {
      Disjoint(f) && text.View() == f.t && f.Holds() && Cached(f.t)
    }

    /** Bucket table contents. */
    ghost function Buckets(): (b: seq<int>)
      requires tmp.Valid() && off + K <= tmp.len
      reads tmp.arr
      ensures |b| == K
    {
      tmp.View()[off..off + K]
    }
  }

  lemma {:induction false} Shape(w: Work, f: Frame)
    requires w.Ready(f)
    ensures w.Disjoint(f) && w.text.Valid() && w.sa.Valid() && w.tmp.Valid() && 0 < w.K && w.off + w.K <= w.tmp.len
    ensures |f.t| == w.text.len == w.sa.len && 2 <= |f.t| && w.text.View() == f.t
    ensures forall k :: 0 <= k < |f.t| ==> 0 <= f.t[k] < w.K
    ensures forall v: int :: -(|f.t| as int) <= v <= |f.t| ==> w.sa.Holds(v)
  {
  }

  // ---------- access to the cells ----------

  /** sa[i] = v */
  method SetSa(w: Work, i: int, v: int, ghost f: Frame)
    requires w.Ready(f) && 0 <= i < w.sa.len && w.sa.Holds(v)
    modifies w.sa.arr
    ensures w.Ready(f) && w.sa.View() == old(w.sa.View())[i := v] && w.Buckets() == old(w.Buckets())
  {
    hide Freq, Alphabet;
    Put(w.sa, i, v, w.text, w.tmp, f.keep);
  }

  /** tmp[i] = v, leaving the state of the frequency cache open. */
  method SetTmp(w: Work, i: int, v: int, ghost f: Frame)
    requires w.Disjoint(f) && w.text.View() == f.t && f.Holds() && 0 <= i < w.tmp.len && w.sa.Holds(v)
    modifies w.tmp.arr
    ensures w.text.View() == f.t && f.Holds()
    ensures w.sa.View() == old(w.sa.View()) && w.tmp.View() == old(w.tmp.View())[i := v]
  {
    hide Freq, Alphabet;
    Put(w.tmp, i, v, w.text, w.sa, f.keep);
  }

  /** bucket[c] = v */
  method SetBucket(w: Work, c: int, v: int, ghost f: Frame)
    requires w.Ready(f) && 0 <= c < w.K && w.sa.Holds(v)
    modifies w.tmp.arr
    ensures w.Ready(f) && w.sa.View() == old(w.sa.View()) && w.Buckets() == old(w.Buckets())[c := v]
  {
    hide Freq, Alphabet;
    ghost var B := w.tmp.View();
    SetTmp(w, w.off + c, v, f);
    assert w.tmp.View() == B[w.off + c := v];
  }

  // ---------- bucket counting ----------

  ghost function CountIn(t: seq<int>, i: int, c: int): set<int>
    requires 0 <= i <= |t|
  {
    set x | 0 <= x < i && t[x] == c
  }

  lemma {:induction false} CountBound(t: seq<int>, i: int, c: int)
    requires 0 <= i <= |t|
    ensures |CountIn(t, i, c)| <= i
  {
    Pigeonhole.RangeSize(0, i);
    Pigeonhole.SubsetSize(CountIn(t, i, c), Pigeonhole.Range(0, i));
  }

  lemma {:induction false} CountStep(t: seq<int>, i: int, c: int)
    requires 0 <= i < |t|
    ensures |CountIn(t, i + 1, c)| == |CountIn(t, i, c)| + if t[i] == c then 1 else 0
    ensures |CountIn(t, i, c)| <= i
  {
    CountBound(t, i, c);
    if t[i] == c {
      assert CountIn(t, i + 1, c) == CountIn(t, i, c) + {i};
    } else {
      assert CountIn(t, i + 1, c) == CountIn(t, i, c);
    }
  }

  lemma {:induction false} CountAll(t: seq<int>, c: int)
    ensures |CountIn(t, 0, c)| == 0
    ensures |CountIn(t, |t|, c)| == Freq(t, c)
  {
    assert CountIn(t, 0, c) == {};
    assert CountIn(t, |t|, c) == Of(t, c);
  }

  /** Character frequencies, recomputed into the cache (or the bucket table) unless cached. */
  method FreqPass(w: Work, ghost f: Frame)
    requires w.Ready(f)
    modifies w.tmp.arr
    ensures w.Ready(f) && w.sa.View() == old(w.sa.View())
    ensures forall c :: 0 <= c < w.K ==> w.tmp.View()[c] == Freq(f.t, c)
  {
    hide Freq, CountIn;
    if w.off != 0 && w.tmp.Get(0) >= 0 {
      return;
    }
    for i := 0 to w.K
      invariant w.text.View() == f.t && f.Holds() && w.sa.View() == old(w.sa.View())
      invariant forall c :: 0 <= c < i ==> w.tmp.View()[c] == 0
    {
      SetTmp(w, i, 0, f);
    }
    forall c | 0 <= c < w.K ensures w.tmp.View()[c] == |CountIn(f.t, 0, c)| { CountAll(f.t, c); }
    for i := 0 to w.text.len
      invariant w.text.View() == f.t && f.Holds() && w.sa.View() == old(w.sa.View())
      invariant forall c :: 0 <= c < w.K ==> w.tmp.View()[c] == |CountIn(f.t, i, c)|
    {
      var c := w.text.Get(i);
      forall d | 0 <= d < w.K
        ensures |CountIn(f.t, i + 1, d)| == |CountIn(f.t, i, d)| + if f.t[i] == d then 1 else 0
        ensures |CountIn(f.t, i, d)| <= i
      {
        CountStep(f.t, i, d);
      }
      SetTmp(w, c, w.tmp.Get(c) + 1, f);
    }
    forall c | 0 <= c < w.K ensures w.tmp.View()[c] == Freq(f.t, c) { CountAll(f.t, c); }
  }

  /** Bucket table := first place of each bucket. */
  method BucketMin(w: Work, ghost f: Frame)
    requires w.Ready(f)
    modifies w.tmp.arr
    ensures w.Ready(f) && w.sa.View() == old(w.sa.View())
    ensures forall c :: 0 <= c < w.K ==> w.Buckets()[c] == MinB(f.t, c)
  {
    hide MinB, MaxB, Freq, Alphabet;
    FreqPass(w, f);
    BucketEnds(f.t, w.K);
    var total := 0;
    for c := 0 to w.K
      invariant w.text.View() == f.t && f.Holds() && w.sa.View() == old(w.sa.View())
      invariant total == MinB(f.t, c)
      invariant w.off == w.K ==> forall d :: 0 <= d < w.K ==> w.tmp.View()[d] == Freq(f.t, d)
      invariant forall d :: c <= d < w.K ==> w.tmp.View()[d] == Freq(f.t, d)
      invariant forall d :: 0 <= d < c ==> w.tmp.View()[w.off + d] == MinB(f.t, d)
    {
      BucketSplit(f.t, c);
      var n := w.tmp.Get(c);
      SetTmp(w, w.off + c, total, f);
      total := total + n;
    }
  }

  /** Bucket table := end of each bucket. */
  method BucketMax(w: Work, ghost f: Frame)
    requires w.Ready(f)
    modifies w.tmp.arr
    ensures w.Ready(f) && w.sa.View() == old(w.sa.View())
    ensures forall c :: 0 <= c < w.K ==> w.Buckets()[c] == MaxB(f.t, c)
  {
    hide MinB, MaxB, Freq, Alphabet;
    FreqPass(w, f);
    BucketEnds(f.t, w.K);
    var total := 0;
    for c := 0 to w.K
      invariant w.text.View() == f.t && f.Holds() && w.sa.View() == old(w.sa.View())
      invariant total == MinB(f.t, c)
      invariant w.off == w.K ==> forall d :: 0 <= d < w.K ==> w.tmp.View()[d] == Freq(f.t, d)
      invariant forall d :: c <= d < w.K ==> w.tmp.View()[d] == Freq(f.t, d)
      invariant forall d :: 0 <= d < c ==> w.tmp.View()[w.off + d] == MaxB(f.t, d)
    {
      BucketSplit(f.t, c);
      var n := w.tmp.Get(c);
      total := total + n;
      SetTmp(w, w.off + c, total, f);
    }
  }
}
