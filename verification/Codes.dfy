/** The words recorded for LMS-substrings. */
module Codes {
  import opened SuffixOrder
  import opened InducedOrder
  import opened Buckets
  import opened Memory
  import opened Powers

  // It is 0 for the last one, otherwise its length, or, for a very short substring of bytes whose
  // packed form cannot be mistaken for a length, the packed bytes themselves.

  /** The bytes at `e`, e-1, ..., `x`, each incremented, shifted into a word of the given width. */
  ghost function Pack(t: seq<int>, width: Width, x: int, e: int): int
    requires 0 <= x <= e < |t|
    decreases e - x
  {
    if x == e then (t[e] + 1) % 256 else (Pack(t, width, x + 1, e) * 256 + (t[x] + 1) % 256) % width.Modulus()
  }

  ghost function PackedWord(t: seq<int>, width: Width, x: int, e: int): int
    requires 0 <= x <= e < |t|
  {
    width.Modulus() - 1 - Pack(t, width, x, e)
  }

  /** The substring is short enough, and its packed form large enough, to be stored packed. */
  ghost predicate StoredPacked(t: seq<int>, bytes: bool, width: Width, x: int)
    requires 0 <= x < |t|
  {
    EndS(t, x) < |t| && bytes && EndS(t, x) + 1 - x <= width.Bytes() && PackedWord(t, width, x, EndS(t, x)) >= |t|
  }

  ghost function Code(t: seq<int>, bytes: bool, width: Width, x: int): int
    requires 0 <= x < |t|
  {
    if EndS(t, x) == |t| then 0
    else if StoredPacked(t, bytes, width, x) then width.Signed(PackedWord(t, width, x, EndS(t, x)))
    else EndS(t, x) + 1 - x
  }

  /** The packed form without overflow. */
  ghost function PackVal(t: seq<int>, x: int, e: int): int
    requires 0 <= x <= e < |t|
    decreases e - x
  {
    if x == e then (t[e] + 1) % 256 else PackVal(t, x + 1, e) * 256 + (t[x] + 1) % 256
  }

  lemma {:induction false} PackValRange(t: seq<int>, x: int, e: int)
    requires 0 <= x <= e < |t| && 0 <= t[e] < 255
    ensures Pow256(e - x) <= PackVal(t, x, e) < Pow256(e - x + 1)
    decreases e - x
  {
    if x < e { PackValRange(t, x + 1, e); }
  }

  lemma {:induction false} PackIsExact(t: seq<int>, width: Width, x: int, e: int)
    requires 0 <= x <= e < |t| && 0 <= t[e] < 255 && e - x < width.Bytes()
    ensures Pack(t, width, x, e) == PackVal(t, x, e)
    ensures 0 < Pack(t, width, x, e) < width.Modulus()
    decreases e - x
  {
    PackValRange(t, x, e);
    assert Pow256(1) == 256 && Pow256(2) == 0x1_0000 && Pow256(3) == 0x100_0000 && Pow256(4) == 0x1_0000_0000 by {
      assert Pow256(0) == 1;
    }
    if x < e { PackIsExact(t, width, x + 1, e); }
  }

  /** Equal packed forms come from equal byte strings: the length can be read off the leading byte. */
  lemma {:induction false} PackInjective(t: seq<int>, x: int, e: int, y: int, d: int)
    requires Alphabet(t, 256)
    requires 0 <= x <= e < |t| && 0 <= y <= d < |t| && t[e] < 255 && t[d] < 255
    requires PackVal(t, x, e) == PackVal(t, y, d)
    ensures e - x == d - y
    ensures t[x..e + 1] == t[y..d + 1]
    decreases e - x
  {
    if x < e && y < d {
      PackTail(t, x, e, y, d);
      PackInjective(t, x + 1, e, y + 1, d);
      assert t[x..e + 1] == [t[x]] + t[x + 1..e + 1];
      assert t[y..d + 1] == [t[y]] + t[y + 1..d + 1];
    } else if x < e {
      PackPositive(e - x - 1);
      PackValRange(t, x + 1, e);
    } else if y < d {
      PackPositive(d - y - 1);
      PackValRange(t, y + 1, d);
    }
  }

  lemma {:induction false} PackTail(t: seq<int>, x: int, e: int, y: int, d: int)
    requires Alphabet(t, 256)
    requires 0 <= x < e < |t| && 0 <= y < d < |t|
    requires PackVal(t, x, e) == PackVal(t, y, d)
    ensures t[x] == t[y] && PackVal(t, x + 1, e) == PackVal(t, y + 1, d)
  {
    LowByte(PackVal(t, x + 1, e), (t[x] + 1) % 256, PackVal(t, y + 1, d), (t[y] + 1) % 256);
    assert 0 <= t[x] < 256 && 0 <= t[y] < 256;
  }

  lemma LowByte(a: int, x: int, b: int, y: int)
    requires 0 <= x < 256 && 0 <= y < 256 && a * 256 + x == b * 256 + y
    ensures a == b && x == y
  {
  }

  lemma {:induction false} PackPositive(k: nat)
    ensures Pow256(k) >= 1
    decreases k
  {
    if k > 0 { PackPositive(k - 1); }
  }

  lemma {:induction false} PackOfSameText(t: seq<int>, width: Width, x: int, y: int, d: int)
    requires 0 <= d && 0 <= x && x + d < |t| && 0 <= y && y + d < |t|
    requires t[x..x + d + 1] == t[y..y + d + 1]
    ensures Pack(t, width, x, x + d) == Pack(t, width, y, y + d)
    decreases d
  {
    if d == 0 {
      assert t[x..x + 1][0] == t[y..y + 1][0];
    } else {
      SameTextTail(t, x, y, d);
      PackOfSameText(t, width, x + 1, y + 1, d - 1);
    }
  }

  lemma {:induction false} TieSameSlice(t: seq<int>, x: int, y: int)
    requires 0 <= x <= |t| && 0 <= y <= |t| && TieS(t, x, y) && EndS(t, x) < |t|
    ensures EndS(t, y) < |t| && EndS(t, x) - x == EndS(t, y) - y
    ensures t[x..EndS(t, x) + 1] == t[y..EndS(t, y) + 1]
  {
    LastSubstringUnique(t, x, y);
    TieSDefersToEnd(t, x, y);
    var a, b := t[x..EndS(t, x) + 1], t[y..EndS(t, y) + 1];
    forall k | 0 <= k < |a| ensures a[k] == b[k] { TieSSameText(t, x, y, x + k); }
  }

  /** A type S character is never the largest byte. */
  lemma {:induction false} SIsNotMaxByte(t: seq<int>, x: int)
    requires Alphabet(t, 256) && 0 <= x < |t| && IsS(t, x)
    ensures t[x] < 255
    decreases |t| - x
  {
    if t[x] == t[x + 1] { SIsNotMaxByte(t, x + 1); }
  }

  lemma {:induction false} EndIsShort(t: seq<int>, x: int)
    requires 0 < x < |t| && EndS(t, x) < |t|
    ensures EndS(t, x) <= |t| - 2 && EndS(t, x) + 1 - x < |t|
  {
  }

  /** The code is a machine word, and never the -1 that stands for "no previous substring". */
  lemma {:induction false} CodeFits(t: seq<int>, bytes: bool, width: Width, x: int)
    requires (bytes ==> Alphabet(t, 256)) && IsLMS(t, x) && |t| <= width.Max()
    ensures -(width.Max() as int) - 1 <= Code(t, bytes, width, x) <= width.Max()
    ensures Code(t, bytes, width, x) != -1
    ensures StoredPacked(t, bytes, width, x) <==> Code(t, bytes, width, x) < 0 || Code(t, bytes, width, x) >= |t|
    ensures !StoredPacked(t, bytes, width, x) ==>
      Code(t, bytes, width, x) == if EndS(t, x) == |t| then 0 else EndS(t, x) + 1 - x
  {
    if StoredPacked(t, bytes, width, x) {
      var e := EndS(t, x);
      SIsNotMaxByte(t, e);
      PackIsExact(t, width, x, e);
    } else if EndS(t, x) < |t| {
      EndIsShort(t, x);
    }
  }

  /** Equal substrings have equal codes. */
  lemma {:induction false} TieSameCode(t: seq<int>, bytes: bool, width: Width, x: int, y: int)
    requires IsLMS(t, x) && IsLMS(t, y) && TieS(t, x, y)
    ensures Code(t, bytes, width, x) == Code(t, bytes, width, y)
  {
    LastSubstringUnique(t, x, y);
    if EndS(t, x) < |t| {
      TieSameSlice(t, x, y);
      PackOfSameText(t, width, x, y, EndS(t, x) - x);
    }
  }

  /** Equal packed codes mean equal substrings, without looking at the text. */
  lemma {:induction false} SamePackedTie(t: seq<int>, bytes: bool, width: Width, x: int, y: int)
    requires (bytes ==> Alphabet(t, 256)) && |t| <= width.Max()
    requires IsLMS(t, x) && IsLMS(t, y)
    requires Code(t, bytes, width, x) == Code(t, bytes, width, y)
    requires StoredPacked(t, bytes, width, x)
    ensures TieS(t, x, y)
  {
    CodeFits(t, bytes, width, x);
    CodeFits(t, bytes, width, y);
    var e, d := EndS(t, x), EndS(t, y);
    SIsNotMaxByte(t, e);
    SIsNotMaxByte(t, d);
    PackIsExact(t, width, x, e);
    PackIsExact(t, width, y, d);
    PackInjective(t, x, e, y, d);
    SameTextTieS(t, x, y, e - x);
  }

  /** With equal length codes, comparing that many characters decides. */
  lemma {:induction false} SameLengthTie(t: seq<int>, bytes: bool, width: Width, x: int, y: int)
    requires (bytes ==> Alphabet(t, 256)) && |t| <= width.Max()
    requires IsLMS(t, x) && IsLMS(t, y)
    requires Code(t, bytes, width, x) == Code(t, bytes, width, y)
    requires !StoredPacked(t, bytes, width, x)
    ensures var n := Code(t, bytes, width, x);
      0 <= n && x + n <= |t| && y + n <= |t| && (TieS(t, x, y) <==> t[x..x + n] == t[y..y + n])
  {
    var n := Code(t, bytes, width, x);
    CodeFits(t, bytes, width, x);
    CodeFits(t, bytes, width, y);
    if EndS(t, x) == |t| {
      assert x == y;
      TrichotomyS(t, x, x);
      TieReflexive(t, x);
    } else {
      assert EndS(t, x) == x + n - 1 && EndS(t, y) == y + n - 1;
      if t[x..x + n] == t[y..y + n] { SameTextTieS(t, x, y, n - 1); }
      if TieS(t, x, y) { TieSameSlice(t, x, y); }
    }
  }

  lemma {:induction false} TieLReflexive(t: seq<int>, x: int)
    requires 0 <= x <= |t|
    ensures TieL(t, x, x)
    decreases |t| - x
  {
    if x < |t| && !IsS(t, x) { TieLReflexive(t, x + 1); }
  }

  lemma {:induction false} TieReflexive(t: seq<int>, x: int)
    requires 0 <= x <= |t|
    ensures TieS(t, x, x)
    decreases |t| - x
  {
    if x < |t| {
      if IsS(t, x) { TieReflexive(t, x + 1); } else { TieLReflexive(t, x + 1); }
    }
  }
}
