/** One of the valid strings of BIP-173, section "Test vectors": it spells the character set in order. */
module Bech32Vectors {
  import opened Checksum
  import opened Bech32

  /** A run of the checksum through known words. */
  lemma {:induction false} RunBy(s: seq<Symbol>, ws: seq<Word>)
    requires |ws| == |s| + 1 && forall i :: 0 <= i < |s| ==> Step(ws[i], s[i]) == ws[i + 1]
    ensures Run(ws[0], s) == ws[|s|]
    decreases |s|
  {
    hide Step;
    if s != [] { RunBy(s[..|s| - 1], ws[..|s|]); }
  }

  const NAME_HIGH: seq<Symbol> := [3, 3, 3, 3, 3, 3, 0]

  lemma NameHighRuns()
    ensures Run(0x1, NAME_HIGH) == 0x4dcbcd9
  {
    hide Run;
    RunBy(NAME_HIGH, [0x1, 0x23, 0x463, 0x8c63, 0x118c63, 0x2318c63, 0x3d5bdbd1, 0x4dcbcd9]);
  }

  const NAME_LOW: seq<Symbol> := [1, 2, 3, 4, 5, 6]

  lemma NameLowRuns()
    ensures Run(0x4dcbcd9, NAME_LOW) == 0x3be80e6a
  {
    hide Run;
    RunBy(NAME_LOW, [0x4dcbcd9, 0x3dc7154c, 0x17456f7b, 0x8d50561, 0x401b5de, 0x266635a8, 0x3be80e6a]);
  }

  const DATA_0: seq<Symbol> := [0, 1, 2, 3, 4, 5, 6, 7]

  lemma Data0Runs()
    ensures Run(0x3be80e6a, DATA_0) == 0x11e88668
  {
    hide Run;
    RunBy(DATA_0, [0x3be80e6a, 0xf9cd266, 0x30018ce4, 0x1767cdec, 0xc815781, 0x28db67b3, 0x2fd98d2c, 0x12be0710, 0x11e88668]);
  }

  const DATA_1: seq<Symbol> := [8, 9, 10, 11, 12, 13, 14, 15]

  lemma Data1Runs()
    ensures Run(0x11e88668, DATA_1) == 0x31223f8a
  {
    hide Run;
    RunBy(DATA_1, [0x11e88668, 0x52fed5, 0xa5fdaa9, 0x2e301b62, 0x2f8ccedd, 0x1816793a, 0x212c0d6a, 0xf95cffd, 0x31223f8a]);
  }

  const DATA_2: seq<Symbol> := [16, 17, 18, 19, 20, 21, 22, 23]

  lemma Data2Runs()
    ensures Run(0x31223f8a, DATA_2) == 0x297c48e0
  {
    hide Run;
    RunBy(DATA_2, [0x31223f8a, 0x3311a03e, 0xe08010d, 0x29be197, 0x28166541, 0x3679d37d, 0x556e704, 0xc8c6efb, 0x297c48e0]);
  }

  const DATA_3: seq<Symbol> := [24, 25, 26, 27, 28, 29, 30, 31]

  lemma Data3Runs()
    ensures Run(0x297c48e0, DATA_3) == 0x1a0d3656
  {
    hide Run;
    RunBy(DATA_3, [0x297c48e0, 0x1b3c6751, 0x3f0597ac, 0x347f64d1, 0x3eea4538, 0x9853657, 0x2e07d307, 0x2975c268, 0x1a0d3656]);
  }

  const TAIL: seq<Symbol> := [27, 0, 0, 0, 6, 14]

  lemma TailRuns()
    ensures Run(0x1a0d3656, TAIL) == 0x1
  {
    hide Run;
    RunBy(TAIL, [0x1a0d3656, 0x192fb74e, 0x615c3e7, 0x1f82a53f, 0xe8d5418, 0x12314323, 0x1]);
  }

  /** All symbols. */
  function AllSymbolsInOrder(): seq<Symbol> {
    DATA_0 + DATA_1 + DATA_2 + DATA_3
  }

  function AllNumbers(): (r: seq<int>)
    ensures InRange(r)
  {
    seq(32, i => i)
  }

  lemma InOrder()
    ensures Numbers(AllSymbolsInOrder()) == AllNumbers()
  {
    hide Numbers;
    var a, b, c, d := DATA_0, DATA_1, DATA_2, DATA_3;
    NumbersJoin(a, b);
    NumbersJoin(a + b, c);
    NumbersJoin(a + b + c, d);
    Quarters0();
    Quarters1();
    Quarters(Numbers(a), Numbers(b), Numbers(c), Numbers(d));
  }

  lemma NumbersJoin(a: seq<Symbol>, b: seq<Symbol>)
    ensures Numbers(a + b) == Numbers(a) + Numbers(b)
  {
  }

  lemma Quarters0()
    ensures Numbers(DATA_0) == [0, 1, 2, 3, 4, 5, 6, 7] && Numbers(DATA_1) == [8, 9, 10, 11, 12, 13, 14, 15]
  {
  }

  lemma Quarters1()
    ensures Numbers(DATA_2) == [16, 17, 18, 19, 20, 21, 22, 23] && Numbers(DATA_3) == [24, 25, 26, 27, 28, 29, 30, 31]
  {
  }

  lemma Quarters(a: seq<int>, b: seq<int>, c: seq<int>, d: seq<int>)
    requires |a| == |b| == |c| == |d| == 8
    requires forall i :: 0 <= i < 8 ==> a[i] == i && b[i] == 8 + i && c[i] == 16 + i && d[i] == 24 + i
    ensures a + b + c + d == AllNumbers()
  {
  }

  lemma {:induction false} VectorRuns()
    ensures Run(1, NAME_HIGH + NAME_LOW + AllSymbolsInOrder() + TAIL) == 1
  {
    hide Run;
    NameHighRuns();
    NameLowRuns();
    Data0Runs();
    Data1Runs();
    Data2Runs();
    Data3Runs();
    TailRuns();
    RunSplit(1, NAME_HIGH, NAME_LOW);
    var a := NAME_HIGH + NAME_LOW;
    RunSplit(1, a, DATA_0);
    RunSplit(1, a + DATA_0, DATA_1);
    RunSplit(1, a + DATA_0 + DATA_1, DATA_2);
    RunSplit(1, a + DATA_0 + DATA_1 + DATA_2, DATA_3);
    var b := a + DATA_0 + DATA_1 + DATA_2 + DATA_3;
    RunSplit(1, b, TAIL);
    assert b == a + AllSymbolsInOrder() by { Joined(a, DATA_0, DATA_1, DATA_2, DATA_3); }
  }

  lemma Joined<T>(a: seq<T>, b: seq<T>, c: seq<T>, d: seq<T>, e: seq<T>)
    ensures a + b + c + d + e == a + (b + c + d + e)
  {
  }

  lemma {:induction false} NameExpands()
    ensures Printable("abcdef") && ToLower("abcdef") == "abcdef" && HrpExpand("abcdef") == NAME_HIGH + NAME_LOW
  {
    hide HrpExpand;
    HrpIs("abcdef", [3, 3, 3, 3, 3, 3], [1, 2, 3, 4, 5, 6]);
    assert [3, 3, 3, 3, 3, 3] + [0] == NAME_HIGH;
  }

  /** A complete string is what its parts encode to, if its symbols run to 1. */
  lemma {:induction false} EncodedBy(hrp: string, data: seq<int>, c: seq<Symbol>)
    requires hrp != "" && Printable(hrp) && ToLower(hrp) == hrp && InRange(data)
    requires |c| == 6 && Run(1, HrpExpand(hrp) + Symbols(data) + c) == 1
    ensures EncodeSpec(hrp, data) == Ok(hrp + "1" + (DataChars(data) + DataChars(Numbers(c))))
  {
    hide Run, HrpExpand, Symbols, CharOf, ChecksumOf, LowerChar, UpperChar, EncodeSpec;
    ValidIffChecksum(HrpExpand(hrp) + Symbols(data), c);
    EncodeMeans(hrp, data);
    DataCharsJoin(data, Numbers(c));
    assert WithChecksum(hrp, data) == data + Numbers(c);
  }

  lemma LongChars()
    ensures DataChars(AllNumbers()) == "qpzry9x8gf2tvdw0s3jn54khce6mua7l"
  {
  }

  lemma TailChars()
    ensures DataChars(Numbers(TAIL)) == "mqqqxw"
  {
    assert Numbers(TAIL) == [27, 0, 0, 0, 6, 14];
  }

  /** All symbols in order, under the name "abcdef". */
  lemma {:induction false} CharacterSet()
    ensures var s := "abcdef" + "1" + ("qpzry9x8gf2tvdw0s3jn54khce6mua7l" + "mqqqxw");
      EncodeSpec("abcdef", AllNumbers()) == Ok(s) && DecodeSpec(s) == Ok(("abcdef", AllNumbers()))
  {
    hide Run, HrpExpand, Symbols, Numbers, CharOf, IndexOf, LowerChar, UpperChar, EncodeSpec, DecodeSpec, AllNumbers, AllSymbolsInOrder, DataChars;
    VectorRuns();
    NameExpands();
    InOrder();
    SymbolsNumbers(AllSymbolsInOrder());
    EncodedBy("abcdef", AllNumbers(), TAIL);
    LongChars();
    TailChars();
    DecodeEncode("abcdef", AllNumbers());
  }
}
