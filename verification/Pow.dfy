/** The proof-of-work hash: the suffix array of a pseudo-random text, hashed as 16-bit words. */
module Pow {
  import opened SuffixOrder
  import opened Buckets
  import opened Memory
  import opened Passes
  import opened Sais

  const STAGE1_LENGTH := 9973

  ghost predicate Bytes(s: seq<int>) {
    forall i :: 0 <= i < |s| ==> 0 <= s[i] < 256
  }

  /** Suffix array of a byte text into `sa`, which the caller has cleared; the frequency cache and
      the bucket table of the top level are allocated here. */
  method TextToSuffixArray(text: array<int>, sa: array<int>, width: Width)
    requires text != sa && text.Length == sa.Length <= width.Max() && Bytes(text[..])
    requires forall p :: 0 <= p < sa.Length ==> sa[p] == 0
    modifies sa
    ensures IsSuffixArray(text[..], sa[..])
  {
    var memory := new int[2 * 256];
    var t, s := Slice(text, 0, text.Length, width), Slice(sa, 0, sa.Length, width);
    var tmp := Slice(memory, 0, 2 * 256, width);
    assert t.View() == text[..] && s.View() == sa[..];
    var allocs := Sais.Sais(t, true, 256, s, tmp, Frame(text[..], [], []));
    assert t.View() == text[..] && s.View() == sa[..];
  }

  /** The words of `sa` as bytes, least significant byte first. */
  function LittleEndian(sa: seq<int>): (b: seq<int>)
    requires forall i :: 0 <= i < |sa| ==> 0 <= sa[i] < 0x8000
  {
    if sa == [] then [] else [sa[0] % 256, sa[0] / 256] + LittleEndian(sa[1..])
  }

  /** Two bytes for every word, the lower one first. */
  lemma {:induction false} LittleEndianAt(sa: seq<int>, i: nat)
    requires (forall k :: 0 <= k < |sa| ==> 0 <= sa[k] < 0x8000) && i < |sa|
    ensures |LittleEndian(sa)| == 2 * |sa| && Bytes(LittleEndian(sa)[2 * i..2 * i + 2])
    ensures LittleEndian(sa)[2 * i] + 256 * LittleEndian(sa)[2 * i + 1] == sa[i]
    decreases |sa|
  {
    LittleEndianLength(sa);
    LittleEndianLength(sa[1..]);
    if i > 0 {
      LittleEndianAt(sa[1..], i - 1);
      var b := LittleEndian(sa[1..]);
      assert LittleEndian(sa)[2 * i] == b[2 * (i - 1)] && LittleEndian(sa)[2 * i + 1] == b[2 * (i - 1) + 1];
      assert Bytes([b[2 * (i - 1)], b[2 * (i - 1) + 1]]) by { assert b[2 * (i - 1)..2 * (i - 1) + 2] == [b[2 * (i - 1)], b[2 * (i - 1) + 1]]; }
    }
  }

  lemma {:induction false} LittleEndianLength(sa: seq<int>)
    requires forall k :: 0 <= k < |sa| ==> 0 <= sa[k] < 0x8000
    ensures |LittleEndian(sa)| == 2 * |sa|
    decreases |sa|
  {
    if sa != [] { LittleEndianLength(sa[1..]); }
  }

  /** `h` is the hash of the suffix array of the text that the cipher derives from the input. */
  ghost predicate IsPow(input: seq<int>, sha3: seq<int> -> seq<int>, salsa: seq<int> -> seq<int>, h: seq<int>) {
    exists sa :: IsSuffixArray(salsa(sha3(input)), sa) && (forall i :: 0 <= i < |sa| ==> 0 <= sa[i] < 0x8000)
                 && h == sha3(LittleEndian(sa))
  }

  /** At most one value is the proof-of-work hash of an input. */
  lemma {:induction false} PowUnique(input: seq<int>, sha3: seq<int> -> seq<int>, salsa: seq<int> -> seq<int>, g: seq<int>, h: seq<int>)
    requires IsPow(input, sha3, salsa, g) && IsPow(input, sha3, salsa, h)
    ensures g == h
  {
    var t := salsa(sha3(input));
    var a :| IsSuffixArray(t, a) && (forall i :: 0 <= i < |a| ==> 0 <= a[i] < 0x8000) && g == sha3(LittleEndian(a));
    var b :| IsSuffixArray(t, b) && (forall i :: 0 <= i < |b| ==> 0 <= b[i] < 0x8000) && h == sha3(LittleEndian(b));
    SuffixArrayUnique(t, a, b);
  }

  /** The miner's form, with 16-bit suffix indices. */
  method Pow16(input: seq<int>, sha3: seq<int> -> seq<int>, salsa: seq<int> -> seq<int>) returns (h: seq<int>)
    requires |salsa(sha3(input))| == STAGE1_LENGTH && Bytes(salsa(sha3(input)))
    ensures IsPow(input, sha3, salsa, h)
  {
    var stage1 := salsa(sha3(input));
    var text := new int[STAGE1_LENGTH](i requires 0 <= i < STAGE1_LENGTH => stage1[i]);
    var sa := new int[STAGE1_LENGTH](_ => 0);
    assert text[..] == stage1;
    TextToSuffixArray(text, sa, W16);
    h := sha3(LittleEndian(sa[..]));
  }

  /** The form with 32-bit suffix indices, narrowed to 16 bits before hashing. */
  method Pow32(input: seq<int>, sha3: seq<int> -> seq<int>, salsa: seq<int> -> seq<int>) returns (h: seq<int>)
    requires |salsa(sha3(input))| == STAGE1_LENGTH && Bytes(salsa(sha3(input)))
    ensures IsPow(input, sha3, salsa, h)
  {
    var stage1 := salsa(sha3(input));
    var text := new int[STAGE1_LENGTH](i requires 0 <= i < STAGE1_LENGTH => stage1[i]);
    var sa := new int[STAGE1_LENGTH](_ => 0);
    assert text[..] == stage1;
    TextToSuffixArray(text, sa, W32);
    var sa16 := new int[STAGE1_LENGTH](_ => 0);
    ghost var full := sa[..];
    for i := 0 to STAGE1_LENGTH
      invariant sa[..] == full
      invariant forall p :: 0 <= p < i ==> sa16[p] == full[p]
    {
      sa16[i] := W16.Signed(sa[i] % W16.Modulus());
    }
    assert sa16[..] == full;
    h := sha3(LittleEndian(sa16[..]));
  }
}
