/** Character buckets: where in a bucket sort of `t` the positions with a given character lie, and how a
    bucket is split between the two types of position. */
module Buckets {
  import opened SuffixOrder
  import opened Pigeonhole

  ghost function Below(t: seq<int>, c: int): set<int> {
    set x | 0 <= x < |t| && t[x] < c
  }

  ghost function Of(t: seq<int>, c: int): set<int> {
    set x | 0 <= x < |t| && t[x] == c
  }

  ghost function LOf(t: seq<int>, c: int): set<int> {
    set x | 0 <= x < |t| && t[x] == c && !IsS(t, x)
  }

  ghost function SOf(t: seq<int>, c: int): set<int> {
    set x | 0 <= x < |t| && t[x] == c && IsS(t, x)
  }

  /** How often `c` occurs. */
  ghost function Freq(t: seq<int>, c: int): nat {
    |Of(t, c)|
  }

  /** Bucket of `c` is [MinB, MaxB); its L positions belong in [MinB, LTop), its S positions in [LTop, MaxB). */
  ghost function MinB(t: seq<int>, c: int): nat {
    |Below(t, c)|
  }

  ghost function MaxB(t: seq<int>, c: int): nat {
    |Below(t, c + 1)|
  }

  ghost function LTop(t: seq<int>, c: int): nat {
    |Below(t, c)| + |LOf(t, c)|
  }

  ghost predicate Alphabet(t: seq<int>, K: int) {
    forall x :: 0 <= x < |t| ==> 0 <= t[x] < K
  }

  lemma {:induction false} BucketSplit(t: seq<int>, c: int)
    ensures MaxB(t, c) == MinB(t, c) + Freq(t, c) == MinB(t, c + 1)
    ensures MaxB(t, c) - LTop(t, c) == |SOf(t, c)|
    ensures MinB(t, c) <= LTop(t, c) <= MaxB(t, c) <= |t|
  {
    assert Below(t, c + 1) == Below(t, c) + Of(t, c);
    assert Of(t, c) == LOf(t, c) + SOf(t, c);
    RangeSize(0, |t|);
    SubsetSize(Below(t, c + 1), Range(0, |t|));
  }

  lemma {:induction false} BucketOrder(t: seq<int>, c: int, d: int)
    requires c < d
    ensures MaxB(t, c) <= MinB(t, d)
  {
    SubsetSize(Below(t, c + 1), Below(t, d));
  }

  lemma {:induction false} BucketEnds(t: seq<int>, K: int)
    requires Alphabet(t, K)
    ensures MinB(t, 0) == 0
    ensures MinB(t, K) == |t|
  {
    assert Below(t, 0) == {};
    RangeSize(0, |t|);
    assert Below(t, K) == Range(0, |t|);
  }

  /** A place determines its bucket. */
  lemma {:induction false} SameBucket(t: seq<int>, c: int, d: int, p: int)
    requires MinB(t, c) <= p < MaxB(t, c) && MinB(t, d) <= p < MaxB(t, d)
    ensures c == d
  {
    if c < d { BucketOrder(t, c, d); } else if d < c { BucketOrder(t, d, c); }
  }

  /** A place further right belongs to the same bucket or to that of a larger character. */
  lemma {:induction false} BucketMonotone(t: seq<int>, c: int, p: int, d: int, q: int)
    requires MinB(t, c) <= p < MaxB(t, c) && MinB(t, d) <= q < MaxB(t, d) && p <= q
    ensures c <= d
  {
    if d < c { BucketOrder(t, d, c); }
  }
}
