/**
 Naming the LMS-substrings: recording a code for each, numbering them in their sorted order,
 and packing the numbers into the reduced text.
 */
module Names {
  import opened SuffixOrder
  import opened InducedOrder
  import opened Reduction
  import opened Buckets
  import opened Induce
  import opened Memory
  import opened Passes
  import opened Scans
  import opened LmsPasses
  import opened Codes
  import opened Pigeonhole

  // ---------- what the first pair of scans leaves ----------

  ghost predicate LmsList(t: seq<int>, F: seq<int>) {
    forall k :: 0 <= k < |F| ==> 0 <= F[k] < |t| && IsLMS(t, F[k])
  }

  /** `F` lists the LMS positions, each once, in LMS-substring order. */
  ghost predicate SubSorted(t: seq<int>, F: seq<int>) {
    && |F| == |Lms(t)| && Distinct(F) && LmsList(t, F)
    && (forall p, q :: 0 <= p < q < |F| ==> !OrdS(t, false, F[q], F[p]))
  }

  /** `F` holds exactly the LMS positions that stand at places from `i` on, in the order of their places. */
  ghost predicate InPlaceOrder(j: Job, s: State, F: seq<int>, i: int)
    requires Fits(j, s)
  {
    && (forall q :: 0 <= q < |F| ==> IsLMS(j.t, F[q]) && i <= s.pos[F[q]])
    && (forall p, q :: 0 <= p < q < |F| ==> 0 <= F[p] < |j.t| && 0 <= F[q] < |j.t| && s.pos[F[p]] < s.pos[F[q]])
    && (forall x :: 0 <= x < |j.t| && IsLMS(j.t, x) && s.pos[x] >= i ==> x in F)
  }

  lemma {:induction false} FoundInOrder(j: Job, s: State, i: int)
    requires Placement(j, s) && 0 <= i <= |j.t|
    ensures InPlaceOrder(j, s, Found(j.t, s.G[i..]), i)
    decreases |j.t| - i
  {
    hide MinB, MaxB, IsS;
    if i < |j.t| {
      FoundInOrder(j, s, i + 1);
      FoundStep(j.t, s.G, i);
      FoundOneMore(j, s, Found(j.t, s.G[i + 1..]), i);
    }
  }

  lemma {:induction false} FoundOneMore(j: Job, s: State, r: seq<int>, i: int)
    requires Placement(j, s) && 0 <= i < |j.t| && InPlaceOrder(j, s, r, i + 1)
    ensures InPlaceOrder(j, s, (if IsLMS(j.t, s.G[i]) then [s.G[i]] else []) + r, i)
  {
    hide MinB, MaxB, IsS;
    if s.G[i] >= 0 { assert s.pos[s.G[i]] == i; }
    forall x | 0 <= x < |j.t| && IsLMS(j.t, x) && s.pos[x] == i ensures x == s.G[i] {
      assert s.G[s.pos[x]] == x;
    }
  }

  lemma {:induction false} AllLmsListed(t: seq<int>, F: seq<int>)
    requires Distinct(F) && (forall q :: 0 <= q < |F| ==> IsLMS(t, F[q]))
    requires forall x :: IsLMS(t, x) ==> x in F
    ensures |F| == |Lms(t)|
  {
    LmsFromElements(t, 0);
    var P := Lms(t);
    forall x | x in F ensures x in Elements(P) { var a := LmsFromComplete(t, 0, x); }
    DistinctSize(P);
    DistinctSize(F);
    DistinctFits(F, Elements(P));
    DistinctFits(P, Elements(F));
  }

  /** After the first pair of scans the top of the array lists the LMS-substrings in order; the rest is clear. */
  lemma {:induction false} SubScansSort(t: seq<int>, K: int, s: State, V: seq<int>, top: int)
    requires Lms(t) != [] && SubSAt(Sub(t, K), s, V, -1, top)
    ensures |V| == |t| && 0 <= top == |t| - |Lms(t)| && SubSorted(t, V[top..])
    ensures forall p :: 0 <= p < top ==> V[p] == 0
  {
    hide MinB, MaxB, IsS, SInv, OrdS, Lms;
    var j := Sub(t, K);
    var F := Found(t, s.G[0..]);
    SPlacement(j, s);
    FoundInOrder(j, s, 0);
    forall x | IsLMS(t, x) ensures x in F {
      FirstIsLeast(t, x);
      SComplete(j, s, x);
    }
    forall p, q | 0 <= p < q < |F| ensures F[p] != F[q] && !OrdS(t, false, F[q], F[p]) {
      assert s.pos[F[p]] < s.pos[F[q]];
      SPair(j, s, F[p], F[q]);
    }
    AllLmsListed(t, F);
  }

  lemma {:induction false} SPlacement(j: Job, s: State)
    requires SInv(j, s, -1)
    ensures Placement(j, s)
  {
  }

  lemma {:induction false} SPair(j: Job, s: State, x: int, y: int)
    requires SInv(j, s, -1) && 0 <= x < |j.t| && 0 <= y < |j.t| && 0 <= s.pos[x] < s.pos[y]
    ensures !OrdS(j.t, j.full, y, x)
  {
    hide MinB, MaxB, IsS, SShape, SProgress, LPlaced, OrdS;
    assert s.G[s.pos[x]] == x && s.G[s.pos[y]] == y;
  }

  // ---------- codes, one cell for each LMS position ----------

  /** The LMS position whose word is kept in cell `h`: 2h or 2h+1, which are never both LMS; -1 if none is. */
  ghost function Slot(t: seq<int>, h: int): int {
    if IsLMS(t, 2 * h) then 2 * h else if IsLMS(t, 2 * h + 1) then 2 * h + 1 else -1
  }

  /** Where the sorted LMS list starts. */
  ghost function Top(t: seq<int>): (r: int)
  {
    |t| - |Lms(t)|
  }

  lemma {:induction false} SlotOf(t: seq<int>, x: int)
    requires IsLMS(t, x)
    ensures Slot(t, x / 2) == x && 0 <= x / 2 < Top(t) && |Lms(t)| < Top(t) <= |t| && |t| / 2 < Top(t)
  {
    LmsHalf(t);
  }

  /** Cells below the sorted list: codes for the LMS positions from `from` on, otherwise 0. */
  ghost predicate CodesFrom(t: seq<int>, bytes: bool, width: Width, V: seq<int>, from: int) {
    && |V| == |t| && 0 <= Top(t) <= |t|
    && forall h :: 0 <= h < Top(t) ==>
         V[h] == if Slot(t, h) >= 0 && Slot(t, h) >= from then Code(t, bytes, width, Slot(t, h)) else 0
  }

  lemma {:induction false} CodesSkip(t: seq<int>, bytes: bool, width: Width, V: seq<int>, i: int)
    requires CodesFrom(t, bytes, width, V, i + 2) && !IsLMS(t, i + 1)
    ensures CodesFrom(t, bytes, width, V, i + 1)
  {
    hide IsLMS, Lms, Code;
  }

  lemma {:induction false} CodesFound(t: seq<int>, bytes: bool, width: Width, V: seq<int>, i: int)
    requires CodesFrom(t, bytes, width, V, i + 2) && IsLMS(t, i + 1)
    ensures 0 <= (i + 1) / 2 < Top(t) <= |t|
    ensures CodesFrom(t, bytes, width, V[(i + 1) / 2 := Code(t, bytes, width, i + 1)], i + 1)
    ensures V[(i + 1) / 2 := Code(t, bytes, width, i + 1)][Top(t)..] == V[Top(t)..]
  {
    hide Lms, Code;
    SlotOf(t, i + 1);
  }

  /** Where the LMS-substring at the position just found ends. */
  lemma {:induction false} EndIsSeen(t: seq<int>, i: int)
    requires 0 <= i < |t| && IsLMS(t, i + 1)
    ensures EndS(t, i + 1) == if Seen(t, i) == [] then |t| else Seen(t, i)[0]
    ensures Seen(t, i) != [] ==> i + 2 <= Seen(t, i)[0] < |t|
  {
    var e := EndS(t, i + 1);
    LmsFromElements(t, i + 2);
    if e < |t| {
      var b := LmsFromComplete(t, i + 2, e);
      assert Seen(t, i)[0] <= Seen(t, i)[b];
    }
  }

  /** `end` is one past the end of the LMS-substring being scanned, 0 before the first; `cx` packs what was scanned. */
  ghost predicate Packing(t: seq<int>, width: Width, i: int, end: int, cx: int)
    requires -1 <= i < |t|
  {
    if Seen(t, i) == [] then end == 0
    else end == Seen(t, i)[0] + 1 && i + 2 <= Seen(t, i)[0] < |t| && cx == Pack(t, width, i + 2, Seen(t, i)[0])
  }

  function PackStep(width: Width, cx: int, c1: int): int {
    (cx * 256 + (c1 + 1) % 256) % width.Modulus()
  }

  lemma {:induction false} PackingSkip(t: seq<int>, width: Width, i: int, c1: int, isS: bool, end: int, cx: int)
    requires 0 <= i < |t| && Packing(t, width, i, end, cx) && Iter(t, i, c1, isS) && !IsLMS(t, i + 1)
    ensures Packing(t, width, i - 1, end, PackStep(width, cx, c1))
  {
    hide IsS, IsLMS;
    assert Seen(t, i - 1) == Seen(t, i);
  }

  /** The word that the pass stores is the code, and scanning goes on from the new substring. */
  lemma {:induction false} PackingFound(t: seq<int>, bytes: bool, width: Width, i: int, c1: int, isS: bool, end: int, cx: int)
    requires 0 <= i < |t| && Packing(t, width, i, end, cx) && Iter(t, i, c1, isS) && IsLMS(t, i + 1)
    ensures Packing(t, width, i - 1, i + 2, (c1 + 1) % 256)
    ensures Code(t, bytes, width, i + 1) ==
      if end == 0 then 0
      else if bytes && end - (i + 1) <= width.Bytes() && width.Modulus() - 1 - PackStep(width, cx, c1) >= |t|
      then width.Signed(width.Modulus() - 1 - PackStep(width, cx, c1))
      else end - (i + 1)
  {
    hide IsS;
    EndIsSeen(t, i);
    assert Seen(t, i - 1) == [i + 1] + Seen(t, i);
  }

  lemma {:induction false} CodesStart(t: seq<int>, bytes: bool, width: Width, V: seq<int>)
    requires |V| == |t| && 2 <= |t| && forall p :: 0 <= p < Top(t) ==> V[p] == 0
    ensures 0 <= Top(t) <= |t| && CodesFrom(t, bytes, width, V, |t| + 1) && Packing(t, width, |t| - 1, 0, 0)
  {
    LmsHalf(t);
  }

  /** Records the code of each LMS-substring in cell j/2. */
  method LengthPass(w: Work, bytes: bool, ghost f: Frame)
    requires w.Ready(f) && (bytes ==> Alphabet(f.t, 256)) && 0 <= Top(f.t) <= |f.t|
    requires forall p :: 0 <= p < Top(f.t) ==> w.sa.View()[p] == 0
    modifies w.sa.arr
    ensures w.Ready(f) && CodesFrom(f.t, bytes, w.sa.width, w.sa.View(), 0)
    ensures w.sa.View()[Top(f.t)..] == old(w.sa.View()[Top(f.t)..])
  {
    hide *;
    Shape(w, f);
    ghost var t := f.t;
    var width := w.sa.width;
    CodesStart(t, bytes, width, w.sa.View());
    IterStart(t);
    var end := 0;
    var cx := 0;
    var c0, c1, isTypeS := 0, 0, false;
    var i := w.text.len - 1;
    while i >= 0
      invariant -1 <= i < |t| && w.Ready(f) && Iter(t, i, c0, isTypeS)
      invariant Packing(t, width, i, end, cx)
      invariant CodesFrom(t, bytes, width, w.sa.View(), i + 2)
      invariant w.sa.View()[Top(t)..] == old(w.sa.View()[Top(t)..])
    {
      Shape(w, f);
      IterStep(t, w.K, i, c0, isTypeS);
      ghost var isS := isTypeS;
      c0, c1 := w.text.Get(i), c0;
      assert c0 == t[i];
      var cx' := PackStep(width, cx, c1);
      if c0 < c1 {
        isTypeS := true;
        PackingSkip(t, width, i, c1, isS, end, cx);
        CodesSkip(t, bytes, width, w.sa.View(), i);
        cx := cx';
      } else if c0 > c1 && isTypeS {
        isTypeS := false;
        PackingFound(t, bytes, width, i, c1, isS, end, cx);
        CodesFound(t, bytes, width, w.sa.View(), i);
        CodeFits(t, bytes, width, i + 1);
        var j := i + 1;
        var code;
        if end == 0 {
          code := 0;
        } else {
          code := end - j;
          if bytes && code <= width.Bytes() && width.Modulus() - 1 - cx' >= w.text.len {
            code := width.Signed(width.Modulus() - 1 - cx');
          }
        }
        WordHolds(w, code);
        SetSa(w, j / 2, code, f);
        end := j + 1;
        cx := (c1 + 1) % 256;
      } else {
        PackingSkip(t, width, i, c1, isS, end, cx);
        CodesSkip(t, bytes, width, w.sa.View(), i);
        cx := cx';
      }
      i := i - 1;
    }
    CodesLast(t, bytes, width, w.sa.View());
  }

  lemma {:induction false} WordHolds(w: Work, v: int)
    requires -(w.sa.width.Max() as int) - 1 <= v <= w.sa.width.Max()
    ensures w.sa.Holds(v)
  {
  }

  /** Position 0 is never an LMS position. */
  lemma {:induction false} CodesLast(t: seq<int>, bytes: bool, width: Width, V: seq<int>)
    requires CodesFrom(t, bytes, width, V, 1)
    ensures CodesFrom(t, bytes, width, V, 0)
  {
    hide Lms, Code, IsS;
  }

  // ---------- numbering ----------

  /** Number of the q-th substring in the sorted list: equal neighbours share it. */
  ghost function Rank(t: seq<int>, F: seq<int>, q: int): (r: int)
    requires 0 <= q < |F| && LmsList(t, F)
    ensures 1 <= r <= q + 1
    decreases q
  {
    if q == 0 then 1 else Rank(t, F, q - 1) + if TieS(t, F[q - 1], F[q]) then 0 else 1
  }

  lemma {:induction false} RankUnfold(t: seq<int>, F: seq<int>, q: int)
    requires LmsList(t, F) && 0 < q < |F|
    ensures Rank(t, F, q) == Rank(t, F, q - 1) + if TieS(t, F[q - 1], F[q]) then 0 else 1
  {
    hide TieS;
  }

  lemma {:induction false} RankOrder(t: seq<int>, F: seq<int>, p: int, q: int)
    requires SubSorted(t, F) && 0 <= p <= q < |F|
    ensures Rank(t, F, p) <= Rank(t, F, q)
    ensures Rank(t, F, p) == Rank(t, F, q) <==> TieS(t, F[p], F[q])
    ensures Rank(t, F, p) < Rank(t, F, q) ==> OrdS(t, false, F[p], F[q])
    decreases q - p
  {
    hide IsS, OrdS, TieS;
    assert IsLMS(t, F[p]) && IsLMS(t, F[q]);
    if p == q {
      TieReflexive(t, F[p]);
    } else {
      RankOrder(t, F, p, q - 1);
      RankStep(t, F, p, q);
    }
  }

  lemma {:induction false} RankStep(t: seq<int>, F: seq<int>, p: int, q: int)
    requires SubSorted(t, F) && 0 <= p < q < |F|
    requires Rank(t, F, p) <= Rank(t, F, q - 1)
    requires Rank(t, F, p) == Rank(t, F, q - 1) <==> TieS(t, F[p], F[q - 1])
    ensures Rank(t, F, p) <= Rank(t, F, q)
    ensures Rank(t, F, p) == Rank(t, F, q) <==> TieS(t, F[p], F[q])
    ensures Rank(t, F, p) < Rank(t, F, q) ==> OrdS(t, false, F[p], F[q])
  {
    hide IsS, OrdS, TieS, Rank;
    var x, y, z := F[p], F[q - 1], F[q];
    assert Rank(t, F, q) == Rank(t, F, q - 1) + if TieS(t, F[q - 1], F[q]) then 0 else 1 by { RankUnfold(t, F, q); }
    TrichotomyS(t, x, z);
    TrichotomyS(t, y, z);
    assert !OrdS(t, false, z, x) && !OrdS(t, false, z, y);
    if TieS(t, y, z) {
      if TieS(t, x, y) { TieTransitive(t, x, y, z); }
      if TieS(t, x, z) { TieSymmetric(t, y, z); TieTransitive(t, x, z, y); }
    } else {
      CompareThroughS(t, y, x, z);
      TrichotomyS(t, x, x);
      TieReflexive(t, x);
      assert p < q - 1 ==> !OrdS(t, false, y, x);
    }
  }

  /** Numbering in progress: the first `q` cells of the sorted list have numbers, the others still codes. */
  ghost predicate AssignAt(t: seq<int>, bytes: bool, width: Width, F: seq<int>, V: seq<int>, q: int) {
    && SubSorted(t, F) && |V| == |t| && 0 <= q <= |F| && 0 <= Top(t) <= |t| && V[Top(t)..] == F
    && (forall r :: 0 <= r < |F| ==> 0 <= F[r] / 2 < Top(t))
    && (forall r :: 0 <= r < q ==> V[F[r] / 2] == Rank(t, F, r))
    && (forall r :: q <= r < |F| ==> V[F[r] / 2] == Code(t, bytes, width, F[r]))
    && (forall h :: 0 <= h < Top(t) && Slot(t, h) < 0 ==> V[h] == 0)
  }

  lemma {:induction false} AssignStart(t: seq<int>, bytes: bool, width: Width, F: seq<int>, V: seq<int>)
    requires CodesFrom(t, bytes, width, V, 0) && SubSorted(t, F) && V[Top(t)..] == F
    ensures AssignAt(t, bytes, width, F, V, 0)
  {
    hide Lms, Code, IsS, Rank;
    forall r | 0 <= r < |F| ensures 0 <= F[r] / 2 < Top(t) && V[F[r] / 2] == Code(t, bytes, width, F[r]) {
      SlotOf(t, F[r]);
      assert Slot(t, F[r] / 2) == F[r];
    }
  }

  lemma {:induction false} AssignStep(t: seq<int>, bytes: bool, width: Width, F: seq<int>, V: seq<int>, q: int)
    requires AssignAt(t, bytes, width, F, V, q) && q < |F|
    ensures 0 <= F[q] / 2 < |V|
    ensures AssignAt(t, bytes, width, F, V[F[q] / 2 := Rank(t, F, q)], q + 1)
  {
    hide Lms, Code, IsS, Rank, OrdS;
    forall r | 0 <= r < |F| ensures Slot(t, F[r] / 2) == F[r] { SlotOf(t, F[r]); }
    assert V[F[q] / 2 := Rank(t, F, q)][Top(t)..] == V[Top(t)..];
  }

  /** What the pass remembers of the previous substring: its code, and where one equal to it starts. */
  ghost predicate Last(t: seq<int>, bytes: bool, width: Width, F: seq<int>, q: int, lastLen: int, lastPos: int)
    requires 0 <= q <= |F| && LmsList(t, F)
  {
    if q == 0 then lastLen == -1
    else IsLMS(t, lastPos) && TieS(t, lastPos, F[q - 1]) && lastLen == Code(t, bytes, width, lastPos)
  }

  /** How the pass decides whether the q-th substring is new, and that the decision is right. */
  lemma {:induction false} AssignDecision(t: seq<int>, bytes: bool, width: Width, F: seq<int>, q: int, lastLen: int, lastPos: int)
    requires (bytes ==> Alphabet(t, 256)) && |t| <= width.Max() && SubSorted(t, F) && 0 <= q < |F|
    requires IsLMS(t, F[q]) && Last(t, bytes, width, F, q, lastLen, lastPos)
    ensures Code(t, bytes, width, F[q]) == lastLen ==> q > 0 && 0 <= lastPos
    ensures Code(t, bytes, width, F[q]) != lastLen && q > 0 ==> !TieS(t, F[q - 1], F[q])
    ensures Code(t, bytes, width, F[q]) == lastLen && (lastLen < 0 || lastLen >= |t|) ==> TieS(t, F[q - 1], F[q])
    ensures Code(t, bytes, width, F[q]) == lastLen && 0 <= lastLen < |t| ==>
      lastPos + lastLen <= |t| && F[q] + lastLen <= |t| &&
      (TieS(t, F[q - 1], F[q]) <==> t[F[q]..F[q] + lastLen] == t[lastPos..lastPos + lastLen])
  {
    hide IsS, TieS, Code, StoredPacked, Lms, OrdS;
    var x := F[q];
    CodeFits(t, bytes, width, x);
    if q > 0 {
      assert IsLMS(t, F[q - 1]);
      TieThrough(t, lastPos, F[q - 1], x);
      if TieS(t, lastPos, x) { TieSameCode(t, bytes, width, lastPos, x); }
      if Code(t, bytes, width, x) == lastLen {
        CodeFits(t, bytes, width, lastPos);
        if StoredPacked(t, bytes, width, lastPos) {
          SamePackedTie(t, bytes, width, lastPos, x);
        } else {
          SameLengthTie(t, bytes, width, lastPos, x);
        }
      }
    }
  }

  lemma {:induction false} TieThrough(t: seq<int>, x: int, y: int, z: int)
    requires 0 <= x <= |t| && 0 <= y <= |t| && 0 <= z <= |t| && TieS(t, x, y)
    ensures TieS(t, x, z) <==> TieS(t, y, z)
  {
    TieSymmetric(t, x, y);
    if TieS(t, x, z) { TieTransitive(t, y, x, z); }
    if TieS(t, y, z) { TieTransitive(t, x, y, z); }
  }

  /** Character-by-character comparison of text[a:a+n] and text[b:b+n]. */
  method SameText(w: Work, a: int, b: int, n: int, ghost f: Frame) returns (same: bool)
    requires w.Ready(f) && 0 <= a && 0 <= b && 0 <= n && a + n <= |f.t| && b + n <= |f.t|
    ensures w.Ready(f) && w.sa.View() == old(w.sa.View())
    ensures same <==> f.t[a..a + n] == f.t[b..b + n]
  {
    hide *;
    Shape(w, f);
    for i := 0 to n
      invariant w.Ready(f) && w.sa.View() == old(w.sa.View())
      invariant f.t[a..a + i] == f.t[b..b + i]
    {
      Shape(w, f);
      SameSlices(f.t, a, b, n, i);
      if w.text.Get(a + i) != w.text.Get(b + i) {
        return false;
      }
    }
    return true;
  }

  lemma {:induction false} SameSlices(t: seq<int>, a: int, b: int, n: int, i: int)
    requires 0 <= a && 0 <= b && 0 <= i < n && a + n <= |t| && b + n <= |t|
    requires t[a..a + i] == t[b..b + i]
    ensures t[a + i] != t[b + i] ==> t[a..a + n] != t[b..b + n]
    ensures t[a + i] == t[b + i] ==> t[a..a + i + 1] == t[b..b + i + 1]
  {
    assert t[a..a + n][i] == t[a + i] && t[b..b + n][i] == t[b + i];
    assert t[a..a + i + 1] == t[a..a + i] + [t[a + i]];
    assert t[b..b + i + 1] == t[b..b + i] + [t[b + i]];
  }

  lemma {:induction false} AssignRead(t: seq<int>, bytes: bool, width: Width, F: seq<int>, V: seq<int>, q: int)
    requires AssignAt(t, bytes, width, F, V, q) && q < |F|
    ensures V[Top(t) + q] == F[q] && IsLMS(t, F[q]) && 0 <= F[q] / 2 < |V|
    ensures V[F[q] / 2] == Code(t, bytes, width, F[q])
  {
    hide Lms, Code, IsS, Rank, OrdS;
    assert V[Top(t)..][q] == F[q];
  }

  /** Replaces the codes by dense numbers that respect substring order and equality. */
  method AssignID(w: Work, bytes: bool, numLMS: nat, ghost f: Frame, ghost F: seq<int>) returns (maxID: nat)
    requires w.Ready(f) && (bytes ==> Alphabet(f.t, 256)) && 0 < numLMS == |Lms(f.t)| == |F|
    requires AssignAt(f.t, bytes, w.sa.width, F, w.sa.View(), 0)
    modifies w.sa.arr
    ensures w.Ready(f) && AssignAt(f.t, bytes, w.sa.width, F, w.sa.View(), numLMS)
    ensures LmsList(f.t, F) && maxID == Rank(f.t, F, numLMS - 1)
  {
    hide *;
    Shape(w, f);
    ghost var t := f.t;
    var width := w.sa.width;
    AssignFacts(t, bytes, width, F, w.sa.View(), 0);
    maxID := 0;
    var lastLen := -1;
    var lastPos := 0;
    for q := 0 to numLMS
      invariant w.Ready(f) && AssignAt(t, bytes, width, F, w.sa.View(), q)
      invariant Last(t, bytes, width, F, q, lastLen, lastPos)
      invariant maxID == if q == 0 then 0 else Rank(t, F, q - 1)
    {
      Shape(w, f);
      AssignFacts(t, bytes, width, F, w.sa.View(), q);
      AssignRead(t, bytes, width, F, w.sa.View(), q);
      AssignStep(t, bytes, width, F, w.sa.View(), q);
      var j := w.sa.Get(w.sa.len - numLMS + q);
      var n := w.sa.Get(j / 2);
      AssignDecision(t, bytes, width, F, q, lastLen, lastPos);
      var same := n == lastLen;
      if same && 0 <= n < w.text.len {
        same := SameText(w, j, lastPos, n, f);
      }
      LastStep(t, bytes, width, F, q, lastLen, lastPos, same);
      if !same {
        maxID := maxID + 1;
        lastPos := j;
        lastLen := n;
      }
      SetSa(w, j / 2, maxID, f);
    }
  }

  lemma {:induction false} AssignFacts(t: seq<int>, bytes: bool, width: Width, F: seq<int>, V: seq<int>, q: int)
    requires AssignAt(t, bytes, width, F, V, q)
    ensures SubSorted(t, F) && 0 <= Top(t) == |t| - |F|
    ensures LmsList(t, F)
    ensures q == 0 ==> Last(t, bytes, width, F, q, -1, 0)
  {
  }

  lemma {:induction false} LastStep(t: seq<int>, bytes: bool, width: Width, F: seq<int>, q: int, lastLen: int, lastPos: int, same: bool)
    requires 0 <= q < |F| && LmsList(t, F)
    requires Last(t, bytes, width, F, q, lastLen, lastPos) && (same ==> q > 0)
    requires q > 0 ==> (same <==> TieS(t, F[q - 1], F[q]))
    ensures same ==> Last(t, bytes, width, F, q + 1, lastLen, lastPos)
    ensures !same ==> Last(t, bytes, width, F, q + 1, Code(t, bytes, width, F[q]), F[q])
    ensures Rank(t, F, q) == (if q == 0 then 0 else Rank(t, F, q - 1)) + if same then 0 else 1
  {
    hide IsS, TieS, Code;
    TieReflexive(t, F[q]);
    if same { TieTransitive(t, lastPos, F[q - 1], F[q]); }
  }

  // ---------- the reduced text ----------

  /** LMS positions whose cell lies above `i`. */
  ghost function CellsAbove(t: seq<int>, i: int): seq<int>
    requires -1 <= i
  {
    if 2 * i + 2 <= |t| then LmsFrom(t, 2 * i + 2) else []
  }

  lemma {:induction false} CellStep(t: seq<int>, i: int)
    requires 0 <= i
    ensures CellsAbove(t, i - 1) == (if Slot(t, i) >= 0 then [Slot(t, i)] else []) + CellsAbove(t, i)
  {
    hide IsS;
    if 2 * i < |t| {
      if IsLMS(t, 2 * i) { SNeighbours(t, 2 * i); }
      assert LmsFrom(t, 2 * i) == (if IsLMS(t, 2 * i) then [2 * i] else []) + LmsFrom(t, 2 * i + 1);
    }
    if 2 * i + 1 < |t| {
      assert LmsFrom(t, 2 * i + 1) == (if IsLMS(t, 2 * i + 1) then [2 * i + 1] else []) + LmsFrom(t, 2 * i + 2);
    }
  }

  lemma {:induction false} SNeighbours(t: seq<int>, x: int)
    requires IsLMS(t, x)
    ensures !IsLMS(t, x + 1) && x + 1 < |t|
  {
  }

  lemma {:induction false} FewerFrom(t: seq<int>, i: int, k: int)
    requires 0 <= i <= k <= |t|
    ensures |LmsFrom(t, k)| <= |LmsFrom(t, i)|
    decreases k - i
  {
    if i < k { FewerFrom(t, i + 1, k); }
  }

  /** The numbers, as the packing pass finds them: one cell for each LMS position, 0 elsewhere. */
  ghost predicate Numbered(t: seq<int>, F: seq<int>, V: seq<int>) {
    && LmsList(t, F) && |V| == |t| && |t| / 2 < Top(t) <= |t|
    && (forall h :: 0 <= h < Top(t) ==> if Slot(t, h) < 0 then V[h] == 0 else 1 <= V[h] <= |t|)
  }

  lemma {:induction false} AssignedIsNumbered(t: seq<int>, bytes: bool, width: Width, F: seq<int>, V: seq<int>)
    requires AssignAt(t, bytes, width, F, V, |F|) && |F| > 0
    ensures Numbered(t, F, V)
  {
    hide IsS, Rank, Code, OrdS, Lms;
    SlotOf(t, F[0]);
    forall h | 0 <= h < Top(t) && Slot(t, h) >= 0 ensures 1 <= V[h] <= |t| {
      var q := Listed(t, F, Slot(t, h));
      assert V[F[q] / 2] == Rank(t, F, q);
    }
  }

  /** Every LMS position is in the sorted list. */
  lemma {:induction false} Listed(t: seq<int>, F: seq<int>, x: int) returns (q: int)
    requires SubSorted(t, F) && IsLMS(t, x)
    ensures 0 <= q < |F| && F[q] == x
  {
    LmsFromElements(t, 0);
    forall y | y in F ensures y in Elements(Lms(t)) { var a := LmsFromComplete(t, 0, y); }
    DistinctSize(Lms(t));
    DistinctFits(F, Elements(Lms(t)));
    var a := LmsFromComplete(t, 0, x);
    assert x in Elements(Lms(t));
    q :| 0 <= q < |F| && F[q] == x;
  }

  /** Packing in progress: cells above `i` are packed, in text order and less one, from `top` on. */
  ghost predicate PackedAt(t: seq<int>, V0: seq<int>, V: seq<int>, i: int, top: int) {
    && -1 <= i <= |t| / 2 < Top(t) <= |t| && |V| == |V0| == |t|
    && 0 <= top == |t| - |CellsAbove(t, i)|
    && (forall h :: 0 <= h <= i ==> V[h] == V0[h])
    && (forall a :: 0 <= a < |CellsAbove(t, i)| ==>
          0 <= CellsAbove(t, i)[a] / 2 < |t| && V[top + a] == V0[CellsAbove(t, i)[a] / 2] - 1)
  }

  lemma {:induction false} PackedStart(t: seq<int>, F: seq<int>, V: seq<int>)
    requires Numbered(t, F, V)
    ensures PackedAt(t, V, V, |t| / 2, |t|)
  {
    hide Lms;
  }

  lemma {:induction false} PackedTake(t: seq<int>, V0: seq<int>, V: seq<int>, i: int, top: int)
    requires PackedAt(t, V0, V, i, top) && 0 <= i && Slot(t, i) >= 0 && i < top - 1
    ensures PackedAt(t, V0, V[top - 1 := V[i] - 1], i - 1, top - 1)
  {
    hide IsS, Lms, CellsAbove;
    CellStep(t, i);
    var c, d := CellsAbove(t, i), CellsAbove(t, i - 1);
    assert d == [Slot(t, i)] + c && Slot(t, i) / 2 == i;
    forall a | 0 <= a < |d|
      ensures 0 <= d[a] / 2 < |t| && V[top - 1 := V[i] - 1][top - 1 + a] == V0[d[a] / 2] - 1
    {
      if a > 0 { assert d[a] == c[a - 1]; }
    }
  }

  lemma {:induction false} PackedPass(t: seq<int>, V0: seq<int>, V: seq<int>, i: int, top: int)
    requires PackedAt(t, V0, V, i, top) && 0 <= i && Slot(t, i) < 0
    ensures PackedAt(t, V0, V, i - 1, top)
  {
    hide IsS, Lms, CellsAbove;
    CellStep(t, i);
    assert CellsAbove(t, i - 1) == CellsAbove(t, i);
  }

  /** There is always a free cell between the unread part and the packed part. */
  lemma {:induction false} PackedRoom(t: seq<int>, i: int)
    requires 0 <= i <= |t| / 2 < Top(t) <= |t| && Slot(t, i) >= 0
    ensures i < |t| - |CellsAbove(t, i)| - 1
  {
    hide IsS;
    CellStep(t, i);
    FewerFrom(t, 0, 2 * i);
  }

  lemma {:induction false} PackedStep(t: seq<int>, F: seq<int>, V0: seq<int>, V: seq<int>, i: int, top: int)
    requires Numbered(t, F, V0) && PackedAt(t, V0, V, i, top) && 0 <= i
    ensures V[i] <= |t|
    ensures V[i] == 0 ==> PackedAt(t, V0, V, i - 1, top)
    ensures V[i] != 0 ==> V[i] > 0 && i < top <= |t| && PackedAt(t, V0, V[top - 1 := V[i] - 1], i - 1, top - 1)
  {
    hide IsS, Lms, CellsAbove;
    if Slot(t, i) >= 0 {
      PackedRoom(t, i);
      PackedTake(t, V0, V, i, top);
    } else {
      PackedPass(t, V0, V, i, top);
    }
  }

  /** The reduced text: for each LMS position, left to right, the number of its substring, less one. */
  ghost predicate IsReduced(t: seq<int>, F: seq<int>, R: seq<int>)
    requires LmsList(t, F)
  {
    && |R| == |Lms(t)| && (forall a :: 0 <= a < |R| ==> 0 <= Lms(t)[a] < |t| && IsLMS(t, Lms(t)[a]))
    && forall a, q :: 0 <= a < |R| && 0 <= q < |F| && Lms(t)[a] == F[q] ==> R[a] == Rank(t, F, q) - 1
  }

  lemma {:induction false} PackedEnd(t: seq<int>, bytes: bool, width: Width, F: seq<int>, V0: seq<int>, V: seq<int>, top: int)
    requires AssignAt(t, bytes, width, F, V0, |F|) && PackedAt(t, V0, V, -1, top)
    ensures 0 <= top == Top(t) <= |V| && LmsList(t, F) && IsReduced(t, F, V[top..])
  {
    hide IsS, Rank, Code, OrdS;
    LmsFromElements(t, 0);
    assert CellsAbove(t, -1) == Lms(t);
  }

  /** Packs the numbers, less one, into the top of the array: the text of the subproblem. */
  method MapPass(w: Work, numLMS: nat, ghost f: Frame, ghost F: seq<int>)
    requires w.Ready(f) && Numbered(f.t, F, w.sa.View())
    modifies w.sa.arr
    ensures w.Ready(f) && exists top :: PackedAt(f.t, old(w.sa.View()), w.sa.View(), -1, top)
  {
    hide *;
    Shape(w, f);
    ghost var V0 := w.sa.View();
    PackedStart(f.t, F, w.sa.View());
    var free := w.sa.len;
    var i := w.sa.len / 2;
    while i >= 0
      invariant -1 <= i <= |f.t| / 2 && w.Ready(f)
      invariant PackedAt(f.t, V0, w.sa.View(), i, free)
    {
      PackedStep(f.t, F, V0, w.sa.View(), i, free);
      var j := w.sa.Get(i);
      Shape(w, f);
      if j > 0 {
        free := free - 1;
        SetSa(w, free, j - 1, f);
      }
      i := i - 1;
    }
  }
}
