/** The Bech32 checksum (BIP-173, section "Checksum"): a polynomial code over 5-bit symbols. */
module Checksum {

  type Word = bv30

  type Symbol = bv5

  /** The generator words of the top bits that are set. */
  function Feedback(top: Symbol): Word {
    (if top & 1 == 1 then 0x3b6a57b2 else 0) ^ (if top & 2 == 2 then 0x26508e6d else 0)
    ^ (if top & 4 == 4 then 0x1ea119fa else 0) ^ (if top & 8 == 8 then 0x3d4233dd else 0)
    ^ (if top & 16 == 16 then 0x2a1462b3 else 0)
  }

  function Top(chk: Word): Symbol {
    (chk >> 25) as Symbol
  }

  function Step(chk: Word, v: Symbol): Word {
    ((chk & 0x1ffffff) << 5) ^ (v as Word) ^ Feedback(Top(chk))
  }

  function Run(chk: Word, s: seq<Symbol>): Word {
    if s == [] then chk else Step(Run(chk, s[..|s| - 1]), s[|s| - 1])
  }

  method Polymod(values: seq<Symbol>) returns (chk: Word)
    ensures chk == Run(1, values)
  {
    hide Step;
    chk := 1;
    var n := 0;
    assert values[..0] == [];
    while n < |values|
      invariant 0 <= n <= |values|
      invariant chk == Run(1, values[..n])
    {
      var top := Top(chk);
      var mixed := MixIn(((chk & 0x1ffffff) << 5) ^ (values[n] as Word), top);
      StepIs(chk, values[n]);
      chk := mixed;
      assert values[..n + 1][..n] == values[..n];
      n := n + 1;
    }
    assert values[..n] == values;
  }

  lemma StepIs(chk: Word, v: Symbol)
    ensures Step(chk, v) == Plus(((chk & 0x1ffffff) << 5) ^ (v as Word), Feedback(Top(chk)))
  {
  }

  function Plus(a: Word, b: Word): Word {
    a ^ b
  }

  predicate Bit(top: Symbol, i: nat)
    requires i < 5
  {
    (top >> i) & 1 == 1
  }

  /** Mixes in the generator words one by one. */
  method MixIn(chk: Word, top: Symbol) returns (r: Word)
    ensures r == Plus(chk, Feedback(top))
  {
    hide *;
    r := chk;
    var i := 0;
    FeedbackParts(top);
    PlusZero(chk);
    while i < 5
      invariant 0 <= i <= 5 && r == Plus(chk, FeedbackTo(top, i))
    {
      FeedbackNext(top, i);
      PlusAssociates(chk, FeedbackTo(top, i), Generator(i));
      if Bit(top, i) { r := Plus(r, Generator(i)); }
      i := i + 1;
    }
  }

  function Generator(i: nat): Word
    requires i < 5
  {
    if i == 0 then 0x3b6a57b2 else if i == 1 then 0x26508e6d else if i == 2 then 0x1ea119fa
    else if i == 3 then 0x3d4233dd else 0x2a1462b3
  }

  function FeedbackTo(top: Symbol, i: nat): Word
    requires i <= 5
  {
    if i == 0 then 0 else if Bit(top, i - 1) then Plus(FeedbackTo(top, i - 1), Generator(i - 1)) else FeedbackTo(top, i - 1)
  }

  lemma FeedbackNext(top: Symbol, i: nat)
    requires i < 5
    ensures FeedbackTo(top, i + 1) == if Bit(top, i) then Plus(FeedbackTo(top, i), Generator(i)) else FeedbackTo(top, i)
  {
  }

  lemma FeedbackParts(top: Symbol)
    ensures FeedbackTo(top, 0) == 0 && FeedbackTo(top, 5) == Feedback(top)
  {
    assert FeedbackTo(top, 1) == if top & 1 == 1 then 0x3b6a57b2 else 0;
    assert FeedbackTo(top, 2) == FeedbackTo(top, 1) ^ (if top & 2 == 2 then 0x26508e6d else 0);
    assert FeedbackTo(top, 3) == FeedbackTo(top, 2) ^ (if top & 4 == 4 then 0x1ea119fa else 0);
    assert FeedbackTo(top, 4) == FeedbackTo(top, 3) ^ (if top & 8 == 8 then 0x3d4233dd else 0);
    assert FeedbackTo(top, 5) == FeedbackTo(top, 4) ^ (if top & 16 == 16 then 0x2a1462b3 else 0);
  }

  lemma PlusZero(a: Word)
    ensures Plus(a, 0) == a && Plus(0, a) == a && Plus(a, a) == 0
  {
  }

  lemma PlusAssociates(a: Word, b: Word, c: Word)
    ensures Plus(Plus(a, b), c) == Plus(a, Plus(b, c))
  {
  }

  // ---------- linearity ----------

  lemma BitLinear(a: Symbol, b: Symbol, i: nat)
    requires i < 5
    ensures Bit(a ^ b, i) <==> Bit(a, i) != Bit(b, i)
  {
  }

  lemma PlusMixes(a: Word, b: Word, g: Word)
    ensures Plus(Plus(a, g), b) == Plus(Plus(a, b), g) && Plus(a, Plus(b, g)) == Plus(Plus(a, b), g)
    ensures Plus(Plus(a, g), Plus(b, g)) == Plus(a, b)
  {
  }

  lemma {:induction false} FeedbackToLinear(a: Symbol, b: Symbol, i: nat)
    requires i <= 5
    ensures FeedbackTo(a ^ b, i) == Plus(FeedbackTo(a, i), FeedbackTo(b, i))
  {
    hide Bit, Plus, Generator;
    if i == 0 {
      PlusZero(0);
    } else {
      FeedbackToLinear(a, b, i - 1);
      BitLinear(a, b, i - 1);
      PlusMixes(FeedbackTo(a, i - 1), FeedbackTo(b, i - 1), Generator(i - 1));
    }
  }

  lemma {:induction false} FeedbackLinear(a: Symbol, b: Symbol)
    ensures Feedback(a ^ b) == Feedback(a) ^ Feedback(b)
  {
    hide Feedback, FeedbackTo;
    FeedbackParts(a);
    FeedbackParts(b);
    FeedbackParts(a ^ b);
    FeedbackToLinear(a, b, 5);
  }

  lemma TopLinear(a: Word, b: Word)
    ensures Top(a ^ b) == Top(a) ^ Top(b)
  {
  }

  lemma StepLinear(a: Word, b: Word, v: Symbol, w: Symbol)
    ensures Step(Plus(a, b), v ^ w) == Plus(Step(a, v), Step(b, w))
  {
    FeedbackLinear(Top(a), Top(b));
    TopLinear(a, b);
  }

  /** A step without input loses nothing. */
  lemma StepKeepsDifference(a: Word)
    ensures Step(a, 0) == 0 ==> a == 0
  {
  }

  // ---------- what the code detects ----------

  function Zeros(n: nat): (s: seq<Symbol>)
    ensures |s| == n && forall i :: 0 <= i < n ==> s[i] == 0
  {
    seq(n, _ => 0)
  }

  function Xor(s: seq<Symbol>, t: seq<Symbol>): (r: seq<Symbol>)
    requires |s| == |t|
    ensures |r| == |s| && forall i :: 0 <= i < |s| ==> r[i] == s[i] ^ t[i]
  {
    seq(|s|, i requires 0 <= i < |s| => s[i] ^ t[i])
  }

  lemma {:induction false} RunLinear(a: Word, b: Word, s: seq<Symbol>, t: seq<Symbol>)
    requires |s| == |t|
    ensures Run(Plus(a, b), Xor(s, t)) == Plus(Run(a, s), Run(b, t))
    decreases |s|
  {
    hide Step, Plus, Xor;
    XorParts(s, t);
    if s != [] {
      var n := |s| - 1;
      RunLinear(a, b, s[..n], t[..n]);
      StepLinear(Run(a, s[..n]), Run(b, t[..n]), s[n], t[n]);
    }
  }

  lemma XorParts(s: seq<Symbol>, t: seq<Symbol>)
    requires |s| == |t|
    ensures s == [] ==> Xor(s, t) == []
    ensures s != [] ==> Xor(s, t)[..|s| - 1] == Xor(s[..|s| - 1], t[..|s| - 1]) && Xor(s, t)[|s| - 1] == s[|s| - 1] ^ t[|s| - 1]
  {
  }

  lemma {:induction false} RunSplit(a: Word, s: seq<Symbol>, t: seq<Symbol>)
    ensures Run(a, s + t) == Run(Run(a, s), t)
    decreases |t|
  {
    hide Step;
    if t == [] {
      assert s + t == s;
    } else {
      var n := |t| - 1;
      assert (s + t)[..|s + t| - 1] == s + t[..n] && (s + t)[|s + t| - 1] == t[n];
      RunSplit(a, s, t[..n]);
    }
  }

  lemma {:induction false} ZerosKeepDifference(a: Word, n: nat)
    requires a != 0
    ensures Run(a, Zeros(n)) != 0
    decreases n
  {
    hide Step;
    if n > 0 {
      assert Zeros(n)[..n - 1] == Zeros(n - 1);
      ZerosKeepDifference(a, n - 1);
      StepKeepsDifference(Run(a, Zeros(n - 1)));
    }
  }

  /** Six symbols, shifted in from zero, fill the word without meeting the feedback. */
  function Pack(s: seq<Symbol>): Word
    requires |s| == 6
  {
    PackParts(s[0], s[1], s[2], s[3], s[4], s[5])
  }

  function PackParts(a: Symbol, b: Symbol, c: Symbol, d: Symbol, e: Symbol, f: Symbol): Word {
    ((a as Word) << 25) ^ ((b as Word) << 20) ^ ((c as Word) << 15) ^ ((d as Word) << 10) ^ ((e as Word) << 5) ^ (f as Word)
  }

  lemma PackSteps(a: Symbol, b: Symbol, c: Symbol, d: Symbol, e: Symbol, f: Symbol)
    ensures Step(Step(Step(Step(Step(Step(0, a), b), c), d), e), f) == PackParts(a, b, c, d, e, f)
  {
  }

  lemma {:induction false} RunOfSix(s: seq<Symbol>)
    requires |s| == 6
    ensures Run(0, s) == Pack(s)
  {
    hide Step, PackParts;
    RunStep(0, s);
    RunStep(0, s[..5]);
    RunStep(0, s[..4]);
    RunStep(0, s[..3]);
    RunStep(0, s[..2]);
    RunStep(0, s[..1]);
    assert s[..5][..4] == s[..4] && s[..4][..3] == s[..3] && s[..3][..2] == s[..2] && s[..2][..1] == s[..1] && s[..1][..0] == [];
    PackSteps(s[0], s[1], s[2], s[3], s[4], s[5]);
  }

  lemma RunStep(a: Word, s: seq<Symbol>)
    requires s != []
    ensures Run(a, s) == Step(Run(a, s[..|s| - 1]), s[|s| - 1])
  {
  }

  lemma PackNonzero(s: seq<Symbol>)
    requires |s| == 6
    ensures Pack(s) == 0 ==> forall i :: 0 <= i < 6 ==> s[i] == 0
  {
    hide PackParts;
    PackApart(s[0], s[1], s[2], s[3], s[4], s[5]);
  }

  lemma PackApart(a: Symbol, b: Symbol, c: Symbol, d: Symbol, e: Symbol, f: Symbol)
    ensures PackParts(a, b, c, d, e, f) == 0 ==> a == b == c == d == e == f == 0
  {
  }

  /** The six symbols of a word. */
  function Unpack(m: Word): (s: seq<Symbol>)
    ensures |s| == 6
  {
    [Part(m, 25), Part(m, 20), Part(m, 15), Part(m, 10), Part(m, 5), Part(m, 0)]
  }

  function Part(m: Word, shift: nat): Symbol
    requires shift <= 25
  {
    ((m >> shift) & 31) as Symbol
  }

  lemma PackUnpack(m: Word)
    ensures Pack(Unpack(m)) == m
  {
    hide Part, PackParts;
    PackTheParts(m);
  }

  /** A symbol of a word, back in its place, is the word with everything else cleared. */
  lemma PartInPlace(m: Word)
    ensures (Part(m, 25) as Word) << 25 == m & 0x3e000000
    ensures (Part(m, 20) as Word) << 20 == m & 0x1f00000
    ensures (Part(m, 15) as Word) << 15 == m & 0xf8000
  {
  }

  lemma PartInPlaceLow(m: Word)
    ensures (Part(m, 10) as Word) << 10 == m & 0x7c00
    ensures (Part(m, 5) as Word) << 5 == m & 0x3e0
    ensures Part(m, 0) as Word == m & 0x1f
  {
  }

  lemma PlacesJoin(m: Word)
    ensures (m & 0x3e000000) ^ (m & 0x1f00000) ^ (m & 0xf8000) ^ (m & 0x7c00) ^ (m & 0x3e0) ^ (m & 0x1f) == m
  {
  }

  lemma {:induction false} PackTheParts(m: Word)
    ensures PackParts(Part(m, 25), Part(m, 20), Part(m, 15), Part(m, 10), Part(m, 5), Part(m, 0)) == m
  {
    hide Part;
    PartInPlace(m);
    PartInPlaceLow(m);
    PlacesJoin(m);
  }

  lemma {:induction false} ZerosFromZero(n: nat)
    ensures Run(0, Zeros(n)) == 0
  {
    hide Step;
    if n > 0 {
      assert Zeros(n)[..n - 1] == Zeros(n - 1);
      ZerosFromZero(n - 1);
      StepZero();
    }
  }

  lemma StepZero()
    ensures Step(0, 0) == 0
  {
  }

  /** The checksum of a sequence of symbols. */
  function ChecksumOf(values: seq<Symbol>): (c: seq<Symbol>)
    ensures |c| == 6
  {
    Unpack(Plus(Run(1, values + Zeros(6)), 1))
  }

  lemma XorWithZeros(s: seq<Symbol>)
    ensures Xor(Zeros(|s|), s) == s
  {
  }

  /** What six more symbols do to the word, apart from what six zeros would do. */
  lemma {:induction false} SixMore(values: seq<Symbol>, c: seq<Symbol>)
    requires |c| == 6
    ensures Run(1, values + c) == Plus(Run(1, values + Zeros(6)), Pack(c))
  {
    hide Plus, Xor, Step;
    var x := Run(1, values);
    RunSplit(1, values, c);
    RunSplit(1, values, Zeros(6));
    XorWithZeros(c);
    PlusZero(x);
    RunLinear(x, 0, Zeros(6), c);
    RunOfSix(c);
  }

  lemma PlusCancels(a: Word, b: Word)
    ensures Plus(a, Plus(a, b)) == b
    ensures Plus(a, b) == 0 ==> a == b
  {
  }

  /** Six symbols complete a sequence to a valid one if and only if they are its checksum. */
  lemma {:induction false} ValidIffChecksum(values: seq<Symbol>, c: seq<Symbol>)
    requires |c| == 6
    ensures Run(1, values + c) == 1 <==> c == ChecksumOf(values)
  {
    hide Plus, Unpack, Pack, Step, Run;
    var a := Run(1, values + Zeros(6));
    SixMore(values, c);
    PackUnpack(Plus(a, 1));
    PlusCancels(a, 1);
    if Run(1, values + c) == 1 {
      PlusCancels(a, Pack(c));
      PackInjective(c, ChecksumOf(values));
    }
  }

  lemma {:induction false} PackInjective(s: seq<Symbol>, t: seq<Symbol>)
    requires |s| == 6 && |t| == 6 && Pack(s) == Pack(t)
    ensures s == t
  {
    PackBack(s);
    PackBack(t);
  }

  lemma PackBack(s: seq<Symbol>)
    requires |s| == 6
    ensures Unpack(Pack(s)) == s
  {
    hide Part, PackParts;
    UnpackSix(s[0], s[1], s[2], s[3], s[4], s[5]);
  }

  lemma UnpackSix(a: Symbol, b: Symbol, c: Symbol, d: Symbol, e: Symbol, f: Symbol)
    ensures var m := PackParts(a, b, c, d, e, f);
      Part(m, 25) == a && Part(m, 20) == b && Part(m, 15) == c && Part(m, 10) == d && Part(m, 5) == e && Part(m, 0) == f
  {
  }

  /** Two sequences that differ only within six adjacent symbols are not both valid. */
  lemma {:induction false} BurstDetected(s: seq<Symbol>, t: seq<Symbol>, i: nat)
    requires |s| == |t| && i + 6 <= |s| && s != t
    requires forall k :: 0 <= k < |s| && !(i <= k < i + 6) ==> s[k] == t[k]
    ensures !(Run(1, s) == 1 && Run(1, t) == 1)
  {
    hide Plus, Pack, Step, Run;
    var e := Xor(s, t);
    var w := e[i..i + 6];
    var n := |s| - i - 6;
    WindowOnly(s, t, i);
    RunLinear(1, 1, s, t);
    PlusZero(1);
    PlusZero(Run(1, s));
    RunSplit(0, Zeros(i) + w, Zeros(n));
    RunSplit(0, Zeros(i), w);
    ZerosFromZero(i);
    RunOfSix(w);
    WindowNonzero(s, t, i);
    ZerosKeepDifference(Pack(w), n);
    if Run(1, s) == Run(1, t) { assert Run(0, e) == 0; }
  }

  lemma WindowOnly(s: seq<Symbol>, t: seq<Symbol>, i: nat)
    requires |s| == |t| && i + 6 <= |s|
    requires forall k :: 0 <= k < |s| && !(i <= k < i + 6) ==> s[k] == t[k]
    ensures Xor(s, t) == (Zeros(i) + Xor(s, t)[i..i + 6]) + Zeros(|s| - i - 6)
  {
    var e := Xor(s, t);
    var f := (Zeros(i) + e[i..i + 6]) + Zeros(|s| - i - 6);
    assert |e| == |f|;
    forall k | 0 <= k < |e| ensures e[k] == f[k] {
      if !(i <= k < i + 6) { SymbolSame(s[k], t[k]); }
    }
  }

  lemma SymbolSame(a: Symbol, b: Symbol)
    ensures a ^ b == 0 <==> a == b
  {
  }

  lemma {:induction false} WindowNonzero(s: seq<Symbol>, t: seq<Symbol>, i: nat)
    requires |s| == |t| && i + 6 <= |s| && s != t
    requires forall k :: 0 <= k < |s| && !(i <= k < i + 6) ==> s[k] == t[k]
    ensures Pack(Xor(s, t)[i..i + 6]) != 0
  {
    hide Pack;
    var w := Xor(s, t)[i..i + 6];
    var k :| 0 <= k < |s| && s[k] != t[k];
    assert w[k - i] == s[k] ^ t[k];
    SymbolSame(s[k], t[k]);
    PackNonzero(w);
  }
}
