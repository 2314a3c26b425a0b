/** Bech32 strings (BIP-173) without the length limit, over strings of bytes. */
module Bech32 {
  import opened ChainState
  import opened Checksum

  // ---------- characters ----------

  /** The character of a symbol. */
  function CharOf(k: nat): char
    requires k < 32
  {
    if k == 0 then 'q' else if k == 1 then 'p' else if k == 2 then 'z' else if k == 3 then 'r' else if k
    == 4 then 'y' else if k == 5 then '9' else if k == 6 then 'x' else if k == 7 then '8' else if k == 8
    then 'g' else if k == 9 then 'f' else if k == 10 then '2' else if k == 11 then 't' else if k == 12
    then 'v' else if k == 13 then 'd' else if k == 14 then 'w' else if k == 15 then '0' else if k == 16
    then 's' else if k == 17 then '3' else if k == 18 then 'j' else if k == 19 then 'n' else if k == 20
    then '5' else if k == 21 then '4' else if k == 22 then 'k' else if k == 23 then 'h' else if k == 24
    then 'c' else if k == 25 then 'e' else if k == 26 then '6' else if k == 27 then 'm' else if k == 28
    then 'u' else if k == 29 then 'a' else if k == 30 then '7' else 'l'
  }

  /** The position of a character in the character set, -1 if it is not there. */
  function IndexOf(c: char): int {
    if c == 'q' then 0 else if c == 'p' then 1 else if c == 'z' then 2 else if c == 'r' then 3 else if c
    == 'y' then 4 else if c == '9' then 5 else if c == 'x' then 6 else if c == '8' then 7 else if c ==
    'g' then 8 else if c == 'f' then 9 else if c == '2' then 10 else if c == 't' then 11 else if c ==
    'v' then 12 else if c == 'd' then 13 else if c == 'w' then 14 else if c == '0' then 15 else if c ==
    's' then 16 else if c == '3' then 17 else if c == 'j' then 18 else if c == 'n' then 19 else if c ==
    '5' then 20 else if c == '4' then 21 else if c == 'k' then 22 else if c == 'h' then 23 else if c ==
    'c' then 24 else if c == 'e' then 25 else if c == '6' then 26 else if c == 'm' then 27 else if c ==
    'u' then 28 else if c == 'a' then 29 else if c == '7' then 30 else if c == 'l' then 31 else -1
  }

  lemma IndexOfChar(k: nat)
    requires k < 32
    ensures IndexOf(CharOf(k)) == k && CharOf(k) != '1' && !('A' <= CharOf(k) <= 'Z')
  {
  }

  lemma CharOfIndex(c: char)
    ensures -1 <= IndexOf(c) < 32
    ensures IndexOf(c) >= 0 ==> CharOf(IndexOf(c)) == c
  {
  }

  function LowerChar(c: char): char {
    if 'A' <= c <= 'Z' then (c as int + 32) as char else c
  }

  function UpperChar(c: char): char {
    if 'a' <= c <= 'z' then (c as int - 32) as char else c
  }

  function ToLower(s: string): (r: string)
    ensures |r| == |s| && forall i :: 0 <= i < |s| ==> r[i] == LowerChar(s[i])
  {
    seq(|s|, i requires 0 <= i < |s| => LowerChar(s[i]))
  }

  function ToUpper(s: string): (r: string)
    ensures |r| == |s| && forall i :: 0 <= i < |s| ==> r[i] == UpperChar(s[i])
  {
    seq(|s|, i requires 0 <= i < |s| => UpperChar(s[i]))
  }

  predicate MixedCase(s: string) {
    ToUpper(s) != s && ToLower(s) != s
  }

  predicate Printable(s: string) {
    forall i :: 0 <= i < |s| ==> 33 as char <= s[i] <= 126 as char
  }

  // ---------- symbols ----------

  predicate InRange(data: seq<int>) {
    forall i :: 0 <= i < |data| ==> 0 <= data[i] < 32
  }

  function Symbols(data: seq<int>): (r: seq<Symbol>)
    requires InRange(data)
    ensures |r| == |data| && forall i :: 0 <= i < |data| ==> r[i] == data[i] as Symbol
  {
    seq(|data|, i requires 0 <= i < |data| => data[i] as Symbol)
  }

  function Numbers(s: seq<Symbol>): (r: seq<int>)
    ensures |r| == |s| && InRange(r) && forall i :: 0 <= i < |s| ==> r[i] == s[i] as int
  {
    seq(|s|, i requires 0 <= i < |s| => s[i] as int)
  }

  lemma {:induction false} NumbersSymbols(data: seq<int>)
    requires InRange(data)
    ensures Numbers(Symbols(data)) == data
  {
    forall i | 0 <= i < |data| ensures Numbers(Symbols(data))[i] == data[i] { SymbolBack(data[i]); }
  }

  lemma {:induction false} SymbolsNumbers(s: seq<Symbol>)
    ensures Symbols(Numbers(s)) == s
  {
    forall i | 0 <= i < |s| ensures Symbols(Numbers(s))[i] == s[i] { NumberBack(s[i]); }
  }

  lemma SymbolBack(d: int)
    requires 0 <= d < 32
    ensures (d as Symbol) as int == d
  {
  }

  lemma NumberBack(s: Symbol)
    ensures 0 <= s as int < 32 && (s as int) as Symbol == s
  {
  }

  /** The human-readable part as symbols: high bits, a zero, low bits. */
  function HrpExpand(hrp: string): seq<Symbol>
    requires Printable(hrp)
  {
    Symbols(seq(|hrp|, i requires 0 <= i < |hrp| => hrp[i] as int / 32))
    + [0] + Symbols(seq(|hrp|, i requires 0 <= i < |hrp| => hrp[i] as int % 32))
  }

  // ---------- encoding ----------

  datatype Error = InvalidHrp | InvalidData | MixedCaseString | BadSeparator | InvalidCharacter | InvalidChecksum

  datatype Result<+T> = Ok(value: T) | Err(error: Error)

  function DataChars(data: seq<int>): (r: string)
    requires InRange(data)
    ensures |r| == |data| && forall i :: 0 <= i < |data| ==> r[i] == CharOf(data[i])
  {
    seq(|data|, i requires 0 <= i < |data| => CharOf(data[i]))
  }

  function WithChecksum(hrp: string, data: seq<int>): (r: seq<int>)
    requires Printable(hrp) && InRange(data)
    ensures InRange(r) && |r| == |data| + 6 && r[..|data|] == data
  {
    data + Numbers(ChecksumOf(HrpExpand(hrp) + Symbols(data)))
  }

  function EncodeLower(hrp: string, data: seq<int>): string
    requires Printable(hrp) && InRange(data)
  {
    hrp + "1" + DataChars(WithChecksum(hrp, data))
  }

  lemma LowerPrintable(s: string)
    requires Printable(s)
    ensures Printable(ToLower(s))
  {
  }

  function EncodeSpec(hrp: string, data: seq<int>): Result<string> {
    if hrp == "" || !Printable(hrp) || MixedCase(hrp) then Err(InvalidHrp)
    else if !InRange(data) then Err(InvalidData)
    else
      LowerPrintable(hrp);
      var e := EncodeLower(ToLower(hrp), data);
      Ok(if ToLower(hrp) == hrp then e else ToUpper(e))
  }

  method CreateChecksum(hrp: string, data: seq<int>) returns (ret: seq<int>)
    requires Printable(hrp) && InRange(data)
    ensures ret == Numbers(ChecksumOf(HrpExpand(hrp) + Symbols(data)))
  {
    hide Run, Plus, HrpExpand, Part;
    var values := HrpExpand(hrp) + Symbols(data);
    var word := Polymod(values + Zeros(6));
    var mod := Plus(word, 1);
    ret := [];
    var p := 0;
    while p < 6
      invariant 0 <= p <= 6 && |ret| == p
      invariant forall k :: 0 <= k < p ==> ret[k] == Part(mod, 5 * (5 - k)) as int
    {
      ret := ret + [Part(mod, 5 * (5 - p)) as int];
      p := p + 1;
    }
    assert ret == Numbers(Unpack(mod));
  }

  method Encode(hrp: string, data: seq<int>) returns (r: Result<string>)
    ensures r == EncodeSpec(hrp, data)
  {
    hide *;
    EncodeCases(hrp, data);
    if |hrp| < 1 { return Err(InvalidHrp); }
    var p := 0;
    while p < |hrp|
      invariant 0 <= p <= |hrp|
      invariant forall i :: 0 <= i < p ==> 33 as char <= hrp[i] <= 126 as char
    {
      if hrp[p] < 33 as char || hrp[p] > 126 as char { return Err(InvalidHrp); }
      p := p + 1;
    }
    if ToUpper(hrp) != hrp && ToLower(hrp) != hrp { return Err(InvalidHrp); }
    var lower := ToLower(hrp) == hrp;
    var low := ToLower(hrp);
    p := 0;
    while p < |data|
      invariant 0 <= p <= |data|
      invariant forall i :: 0 <= i < p ==> 0 <= data[i] < 32
    {
      if data[p] < 0 || data[p] >= 32 { return Err(InvalidData); }
      p := p + 1;
    }
    var checksum := CreateChecksum(low, data);
    var combined := data + checksum;
    var ret := "";
    p := 0;
    CombinedIs(low, data);
    while p < |combined|
      invariant 0 <= p <= |combined| && |ret| == p
      invariant forall i :: 0 <= i < p ==> ret[i] == CharOf(combined[i])
    {
      ret := ret + [CharOf(combined[p])];
      p := p + 1;
    }
    assert ret == DataChars(combined);
    ret := low + "1" + ret;
    return Ok(if lower then ret else ToUpper(ret));
  }

  lemma CombinedIs(hrp: string, data: seq<int>)
    requires Printable(hrp) && InRange(data)
    ensures var c := data + Numbers(ChecksumOf(HrpExpand(hrp) + Symbols(data)));
      InRange(c) && (forall i :: 0 <= i < |c| ==> 0 <= c[i] < 32) && EncodeLower(hrp, data) == hrp + "1" + DataChars(c)
  {
  }

  lemma EncodeCases(hrp: string, data: seq<int>)
    ensures |hrp| < 1 ==> EncodeSpec(hrp, data) == Err(InvalidHrp)
    ensures (exists i :: 0 <= i < |hrp| && (hrp[i] < 33 as char || hrp[i] > 126 as char)) ==> EncodeSpec(hrp, data) == Err(InvalidHrp)
    ensures (forall i :: 0 <= i < |hrp| ==> 33 as char <= hrp[i] <= 126 as char) ==> Printable(hrp) && Printable(ToLower(hrp))
    ensures |hrp| >= 1 && Printable(hrp) && ToUpper(hrp) != hrp && ToLower(hrp) != hrp ==> EncodeSpec(hrp, data) == Err(InvalidHrp)
    ensures (forall i :: 0 <= i < |data| ==> 0 <= data[i] < 32) ==> InRange(data)
    ensures |hrp| >= 1 && Printable(hrp) && (ToUpper(hrp) == hrp || ToLower(hrp) == hrp) ==>
      (if InRange(data)
       then Printable(ToLower(hrp)) &&
         EncodeSpec(hrp, data) == Ok(if ToLower(hrp) == hrp then EncodeLower(ToLower(hrp), data) else ToUpper(EncodeLower(ToLower(hrp), data)))
       else EncodeSpec(hrp, data) == Err(InvalidData))
    ensures (exists i :: 0 <= i < |data| && (data[i] < 0 || data[i] >= 32)) ==> !InRange(data)
  {
    if Printable(hrp) { LowerPrintable(hrp); }
  }

  // ---------- decoding ----------

  /** The last position of a separator, -1 if there is none. */
  function LastOne(s: string): (p: int)
    ensures -1 <= p < |s|
    ensures p >= 0 ==> s[p] == '1'
    ensures forall i :: p < i < |s| ==> s[i] != '1'
  {
    if s == "" then -1 else if s[|s| - 1] == '1' then |s| - 1 else LastOne(s[..|s| - 1])
  }

  predicate AllSymbols(s: string) {
    forall i :: 0 <= i < |s| ==> IndexOf(s[i]) >= 0
  }

  function Indexes(s: string): (r: seq<int>)
    requires AllSymbols(s)
    ensures |r| == |s| && InRange(r) && forall i :: 0 <= i < |s| ==> r[i] == IndexOf(s[i])
  {
    seq(|s|, i requires 0 <= i < |s| => CharOfIndex(s[i]); IndexOf(s[i]))
  }

  function DecodeSpec(s: string): Result<(string, seq<int>)> {
    if MixedCase(s) then Err(MixedCaseString) else DecodeLower(ToLower(s))
  }

  function DecodeLower(s: string): Result<(string, seq<int>)> {
    var pos := LastOne(s);
    if pos < 1 || pos + 7 > |s| then Err(BadSeparator)
    else if !Printable(s[..pos]) then Err(InvalidHrp)
    else if !AllSymbols(s[pos + 1..]) then Err(InvalidCharacter)
    else
      var data := Indexes(s[pos + 1..]);
      if Run(1, HrpExpand(s[..pos]) + Symbols(data)) != 1 then Err(InvalidChecksum)
      else Ok((s[..pos], data[..|data| - 6]))
  }

  method Decode(bech: string) returns (r: Result<(string, seq<int>)>)
    ensures r == DecodeSpec(bech)
  {
    hide LowerChar, UpperChar, IndexOf, Run, HrpExpand, CharOf, LastOne;
    if ToLower(bech) != bech && ToUpper(bech) != bech { return Err(MixedCaseString); }
    var s := ToLower(bech);
    var pos := LastOne(s);
    if pos < 1 || pos + 7 > |s| { return Err(BadSeparator); }
    var hrp := s[..pos];
    var p := 0;
    while p < |hrp|
      invariant 0 <= p <= |hrp|
      invariant forall i :: 0 <= i < p ==> 33 as char <= hrp[i] <= 126 as char
    {
      if hrp[p] < 33 as char || hrp[p] > 126 as char { return Err(InvalidHrp); }
      p := p + 1;
    }
    var data: seq<int> := [];
    ghost var rest := s[pos + 1..];
    p := pos + 1;
    while p < |s|
      invariant pos + 1 <= p <= |s| && |data| == p - pos - 1
      invariant forall i :: 0 <= i < |data| ==> IndexOf(rest[i]) >= 0 && data[i] == IndexOf(rest[i])
    {
      var d := IndexOf(s[p]);
      CharOfIndex(s[p]);
      assert rest[p - pos - 1] == s[p];
      if d == -1 { return Err(InvalidCharacter); }
      data := data + [d];
      p := p + 1;
    }
    assert data == Indexes(rest);
    var word := Polymod(HrpExpand(hrp) + Symbols(data));
    if word != 1 { return Err(InvalidChecksum); }
    return Ok((hrp, data[..|data| - 6]));
  }

  /** Which single characters can be a human-readable part. */
  lemma {:induction false} OneCharacter(c: char)
    ensures EncodeSpec([c], []).Ok? <==> '!' <= c <= '~'
  {
    hide EncodeLower;
    assert ToUpper([c]) == [UpperChar(c)] && ToLower([c]) == [LowerChar(c)];
    assert Printable([c]) <==> '!' <= [c][0] <= '~';
  }

  // ---------- round trips ----------

  lemma CaseOfChar(c: char)
    ensures LowerChar(LowerChar(c)) == LowerChar(c) && UpperChar(UpperChar(c)) == UpperChar(c)
    ensures !('A' <= c <= 'Z') ==> LowerChar(c) == c && LowerChar(UpperChar(c)) == c
    ensures !('A' <= LowerChar(c) <= 'Z')
  {
  }

  /** A string without upper-case letters, and its upper-case form, are read as the string. */
  lemma {:induction false} CaseFolds(e: string)
    requires ToLower(e) == e
    ensures !MixedCase(e) && !MixedCase(ToUpper(e)) && ToLower(ToUpper(e)) == e
  {
    hide LowerChar, UpperChar;
    var u := ToUpper(e);
    forall i | 0 <= i < |e| ensures ToUpper(u)[i] == u[i] && ToLower(u)[i] == e[i] {
      CaseOfChar(e[i]);
      LowerMeans(e, i);
    }
  }

  lemma LowerMeans(e: string, i: int)
    requires ToLower(e) == e && 0 <= i < |e|
    ensures !('A' <= e[i] <= 'Z')
  {
    assert ToLower(e)[i] == LowerChar(e[i]);
  }

  /** The parts of an encoded string. */
  lemma {:induction false} EncodedParts(hrp: string, data: seq<int>)
    requires Printable(hrp) && InRange(data) && ToLower(hrp) == hrp
    ensures var e := EncodeLower(hrp, data);
      && |e| == |hrp| + 7 + |data| && LastOne(e) == |hrp| && e[..|hrp|] == hrp
      && AllSymbols(e[|hrp| + 1..]) && Indexes(e[|hrp| + 1..]) == WithChecksum(hrp, data)
      && ToLower(e) == e
  {
    hide IndexOf, CharOf, LowerChar, WithChecksum, Printable;
    var e := EncodeLower(hrp, data);
    var c := WithChecksum(hrp, data);
    var tail := e[|hrp| + 1..];
    assert tail == DataChars(c);
    forall i | 0 <= i < |c| ensures tail[i] == CharOf(c[i]) && IndexOf(tail[i]) == c[i] && tail[i] != '1' && LowerChar(tail[i]) == tail[i] {
      IndexOfChar(c[i]);
      CaseOfChar(tail[i]);
    }
    assert e[|hrp|] == '1';
    forall i | |hrp| < i < |e| ensures e[i] != '1' && LowerChar(e[i]) == e[i] {
      assert e[i] == tail[i - |hrp| - 1];
    }
    LastOneIs(e, |hrp|);
    forall i | 0 <= i < |e| ensures LowerChar(e[i]) == e[i] {
      if i < |hrp| { assert e[i] == hrp[i] == ToLower(hrp)[i]; }
      if i == |hrp| { CaseOfChar('1'); }
    }
    assert ToLower(e) == e;
    assert Indexes(tail) == c;
  }

  lemma LastOneIs(s: string, p: int)
    requires 0 <= p < |s| && s[p] == '1' && forall i :: p < i < |s| ==> s[i] != '1'
    ensures LastOne(s) == p
  {
  }

  lemma {:induction false} ChecksumVerifies(hrp: string, data: seq<int>)
    requires Printable(hrp) && InRange(data)
    ensures Run(1, HrpExpand(hrp) + Symbols(WithChecksum(hrp, data))) == 1
  {
    hide Run, HrpExpand, ChecksumOf;
    var values := HrpExpand(hrp) + Symbols(data);
    var c := ChecksumOf(values);
    ValidIffChecksum(values, c);
    SymbolsNumbers(c);
    SymbolsJoin(data, Numbers(c));
    assert values + c == HrpExpand(hrp) + Symbols(WithChecksum(hrp, data));
  }

  lemma SymbolsJoin(a: seq<int>, b: seq<int>)
    requires InRange(a) && InRange(b)
    ensures InRange(a + b) && Symbols(a + b) == Symbols(a) + Symbols(b)
  {
    assert forall i :: 0 <= i < |a + b| ==> 0 <= (a + b)[i] < 32;
  }

  /** Whatever is encoded is decoded again, with the human-readable part in lower case. */
  lemma {:induction false} DecodeEncode(hrp: string, data: seq<int>)
    requires EncodeSpec(hrp, data).Ok?
    ensures DecodeSpec(EncodeSpec(hrp, data).value) == Ok((ToLower(hrp), data))
  {
    hide Run, HrpExpand, LowerChar, UpperChar, IndexOf, CharOf, MixedCase, Printable, LastOne, EncodeLower;
    LowerPrintable(hrp);
    var h := ToLower(hrp);
    LowerTwice(hrp);
    var e := EncodeLower(h, data);
    EncodedParts(h, data);
    CaseFolds(e);
    ChecksumVerifies(h, data);
    assert DecodeLower(e) == Ok((h, data));
  }

  lemma LowerTwice(s: string)
    ensures ToLower(ToLower(s)) == ToLower(s)
  {
    hide LowerChar;
    forall i | 0 <= i < |s| ensures ToLower(ToLower(s))[i] == ToLower(s)[i] { CaseOfChar(s[i]); }
  }

  /** The checksum of decoded data is the one that was computed from it. */
  lemma {:induction false} DecodedChecksum(hrp: string, all: seq<int>)
    requires Printable(hrp) && InRange(all) && |all| >= 6 && Run(1, HrpExpand(hrp) + Symbols(all)) == 1
    ensures WithChecksum(hrp, all[..|all| - 6]) == all
  {
    hide Run, HrpExpand, ChecksumOf, Printable, Symbols, Numbers;
    var n := |all| - 6;
    SymbolsJoin(all[..n], all[n..]);
    assert all[..n] + all[n..] == all;
    var values := HrpExpand(hrp) + Symbols(all[..n]);
    assert HrpExpand(hrp) + Symbols(all) == values + Symbols(all[n..]);
    ValidIffChecksum(values, Symbols(all[n..]));
    NumbersSymbols(all[n..]);
  }

  /** A string is its human-readable part, a separator, and the characters of its symbols. */
  lemma {:induction false} Reassembled(low: string, pos: nat)
    requires pos < |low| && low[pos] == '1' && AllSymbols(low[pos + 1..])
    ensures low == low[..pos] + "1" + DataChars(Indexes(low[pos + 1..]))
  {
    hide IndexOf, CharOf;
    var tail := low[pos + 1..];
    forall i | 0 <= i < |tail| ensures DataChars(Indexes(tail))[i] == tail[i] { CharOfIndex(tail[i]); }
    assert DataChars(Indexes(tail)) == tail;
  }

  /** A decoded string, in lower case, is what its parts encode to: the checksum leaves no choice. */
  lemma {:induction false} EncodeDecode(s: string)
    requires DecodeSpec(s).Ok?
    ensures var (hrp, data) := DecodeSpec(s).value;
      EncodeSpec(hrp, data) == Ok(ToLower(s))
  {
    hide Run, HrpExpand, LowerChar, UpperChar, IndexOf, CharOf, LastOne, WithChecksum, MixedCase, Printable, DataChars;
    var low := ToLower(s);
    var pos := LastOne(low);
    var hrp := low[..pos];
    LowerTwice(s);
    assert ToLower(hrp) == hrp by {
      forall i | 0 <= i < |hrp| ensures ToLower(hrp)[i] == hrp[i] { assert ToLower(low)[i] == low[i]; }
    }
    CaseFolds(hrp);
    DecodedChecksum(hrp, Indexes(low[pos + 1..]));
    Reassembled(low, pos);
  }

  // ---------- error detection ----------

  /** Changing a valid string within six adjacent data characters, to anything but separators, is always noticed,
      unless nothing has changed but the case of the whole string. */
  lemma {:induction false} ChangeNoticed(s: string, t: string, i: nat)
    requires DecodeSpec(s).Ok? && |t| == |s| && LastOne(ToLower(s)) < i && i + 6 <= |s|
    requires forall k :: 0 <= k < |s| && !(i <= k < i + 6) ==> t[k] == s[k]
    requires forall k :: i <= k < i + 6 ==> t[k] != '1'
    ensures DecodeSpec(t).Ok? <==> ToLower(t) == ToLower(s) && !MixedCase(t)
    ensures DecodeSpec(t).Ok? ==> DecodeSpec(t) == DecodeSpec(s)
  {
    hide Run, HrpExpand, IndexOf, CharOf, LastOne, LowerChar, UpperChar, MixedCase, Printable, ToLower, DecodeLower;
    var a, b := ToLower(s), ToLower(t);
    LowerSame(s, t, i);
    if a != b && DecodeLower(b).Ok? {
      BothDecode(a, b, i);
    }
  }

  lemma {:induction false} LowerSame(s: string, t: string, i: nat)
    requires |t| == |s| && i + 6 <= |s|
    requires forall k :: 0 <= k < |s| && !(i <= k < i + 6) ==> t[k] == s[k]
    requires forall k :: i <= k < i + 6 ==> t[k] != '1'
    ensures forall k :: 0 <= k < |s| && !(i <= k < i + 6) ==> ToLower(t)[k] == ToLower(s)[k]
    ensures forall k :: i <= k < i + 6 ==> ToLower(t)[k] != '1'
  {
  }

  lemma DecodedMeans(s: string)
    ensures DecodeLower(s).Ok? <==>
      var pos := LastOne(s);
      && 1 <= pos && pos + 7 <= |s| && Printable(s[..pos]) && AllSymbols(s[pos + 1..])
      && Run(1, HrpExpand(s[..pos]) + Symbols(Indexes(s[pos + 1..]))) == 1
  {
    hide LastOne, Printable, AllSymbols, Run, HrpExpand;
  }

  /** Two strings in lower case that differ within six adjacent data characters are not both valid. */
  lemma {:induction false} BothDecode(s: string, t: string, i: nat)
    requires DecodeLower(s).Ok? && DecodeLower(t).Ok? && |t| == |s| && LastOne(s) < i && i + 6 <= |s|
    requires forall k :: 0 <= k < |s| && !(i <= k < i + 6) ==> t[k] == s[k]
    requires forall k :: i <= k < i + 6 ==> t[k] != '1'
    ensures s == t
  {
    hide Run, HrpExpand, IndexOf, CharOf, LastOne, Printable, DecodeLower, AllSymbols, Symbols, Indexes;
    DecodedMeans(s);
    DecodedMeans(t);
    var pos := LastOne(s);
    LastOneIs(t, pos);
    assert s[..pos] == t[..pos];
    if s != t {
      var u, v := s[pos + 1..], t[pos + 1..];
      TailsDiffer(s, t, pos + 1, i);
      IndexesDiffer(u, v, i - pos - 1);
      DataBurst(HrpExpand(s[..pos]), Indexes(u), Indexes(v), i - pos - 1);
    }
  }

  lemma {:induction false} TailsDiffer(s: string, t: string, from: nat, i: nat)
    requires |t| == |s| && t != s && from <= i && i + 6 <= |s|
    requires forall k :: 0 <= k < |s| && !(i <= k < i + 6) ==> t[k] == s[k]
    ensures s[from..] != t[from..]
    ensures forall j :: 0 <= j < |s| - from && !(i - from <= j < i - from + 6) ==> t[from..][j] == s[from..][j]
  {
    var k :| 0 <= k < |s| && t[k] != s[k];
    assert s[from..][k - from] == s[k] && t[from..][k - from] == t[k];
  }

  lemma {:induction false} IndexesDiffer(u: string, v: string, i: nat)
    requires AllSymbols(u) && AllSymbols(v) && |u| == |v| && u != v && i + 6 <= |u|
    requires forall j :: 0 <= j < |u| && !(i <= j < i + 6) ==> v[j] == u[j]
    ensures Indexes(u) != Indexes(v)
    ensures forall j :: 0 <= j < |u| && !(i <= j < i + 6) ==> Indexes(u)[j] == Indexes(v)[j]
  {
    hide IndexOf, CharOf;
    var j :| 0 <= j < |u| && v[j] != u[j];
    CharOfIndex(u[j]);
    CharOfIndex(v[j]);
    assert Indexes(u)[j] != Indexes(v)[j];
  }

  lemma {:induction false} DataBurst(prefix: seq<Symbol>, a: seq<int>, b: seq<int>, i: nat)
    requires InRange(a) && InRange(b) && |a| == |b| && i + 6 <= |a| && a != b
    requires forall j :: 0 <= j < |a| && !(i <= j < i + 6) ==> a[j] == b[j]
    ensures !(Run(1, prefix + Symbols(a)) == 1 && Run(1, prefix + Symbols(b)) == 1)
  {
    hide Run;
    var x, y := prefix + Symbols(a), prefix + Symbols(b);
    NumbersSymbols(a);
    NumbersSymbols(b);
    assert Symbols(a) != Symbols(b);
    assert x[|prefix|..] == Symbols(a) && y[|prefix|..] == Symbols(b);
    BurstDetected(x, y, |prefix| + i);
  }

  // ---------- a separator among the data ----------

  lemma RunNone()
    ensures Run(1, []) == 1
  {
  }

  lemma RunOn(values: seq<Symbol>, v: Symbol, next: seq<Symbol>, was: Word, now: Word)
    requires next == values + [v] && Run(1, values) == was && Step(was, v) == now
    ensures Run(1, next) == now
  {
    hide Step;
    assert next[..|values|] == values;
  }

  lemma StepsShort0()
    ensures Step(0x1, 3) == 0x23
    ensures Step(0x23, 0) == 0x460
    ensures Step(0x460, 1) == 0x8c01
    ensures Step(0x8c01, 16) == 0x118030
    ensures Step(0x118030, 16) == 0x2300610
  {
  }

  lemma StepsShort1()
    ensures Step(0x2300610, 31) == 0x3d6a95ad
    ensures Step(0x3d6a95ad, 6) == 0x2f5735f
    ensures Step(0x2f5735f, 7) == 0x25c43c55
    ensures Step(0x25c43c55, 22) == 0x34c36668
  {
  }

  lemma StepsLong0()
    ensures Step(0x1, 3) == 0x23
    ensures Step(0x23, 1) == 0x461
    ensures Step(0x461, 3) == 0x8c23
    ensures Step(0x8c23, 3) == 0x118463
    ensures Step(0x118463, 3) == 0x2308c63
  {
  }

  lemma StepsLong1()
    ensures Step(0x2308c63, 3) == 0x3d7bdbd1
    ensures Step(0x3d7bdbd1, 1) == 0xdcbcd8
    ensures Step(0xdcbcd8, 0) == 0x1b979b00
    ensures Step(0x1b979b00, 1) == 0x2a7a1d94
    ensures Step(0x2a7a1d94, 17) == 0x9c9e6a
  {
  }

  lemma StepsLong2()
    ensures Step(0x9c9e6a, 19) == 0x1393cd53
    ensures Step(0x1393cd53, 19) == 0x3451ce1c
    ensures Step(0x3451ce1c, 12) == 0x3b3f1c8f
    ensures Step(0x3b3f1c8f, 24) == 0x157e8ede
    ensures Step(0x157e8ede, 24) == 0x34c36668
  {
  }

  lemma {:induction false} RunShort()
    ensures Run(1, [3, 0, 1, 16, 16, 31, 6, 7, 22]) == 0x34c36668
  {
    hide Run, Step;
    StepsShort0();
    StepsShort1();
    RunNone();
    RunOn([], 3, [3], 0x1, 0x23);
    RunOn([3], 0, [3, 0], 0x23, 0x460);
    RunOn([3, 0], 1, [3, 0, 1], 0x460, 0x8c01);
    RunOn([3, 0, 1], 16, [3, 0, 1, 16], 0x8c01, 0x118030);
    RunOn([3, 0, 1, 16], 16, [3, 0, 1, 16, 16], 0x118030, 0x2300610);
    RunOn([3, 0, 1, 16, 16], 31, [3, 0, 1, 16, 16, 31], 0x2300610, 0x3d6a95ad);
    RunOn([3, 0, 1, 16, 16, 31], 6, [3, 0, 1, 16, 16, 31, 6], 0x3d6a95ad, 0x2f5735f);
    RunOn([3, 0, 1, 16, 16, 31, 6], 7, [3, 0, 1, 16, 16, 31, 6, 7], 0x2f5735f, 0x25c43c55);
    RunOn([3, 0, 1, 16, 16, 31, 6, 7], 22, [3, 0, 1, 16, 16, 31, 6, 7, 22], 0x25c43c55, 0x34c36668);
  }

  lemma {:induction false} RunLong()
    ensures Run(1, [3, 1, 3, 3, 3, 3, 1, 0, 1, 17, 19, 19, 12, 24, 24]) == 0x34c36668
  {
    hide Run, Step;
    StepsLong0();
    StepsLong1();
    StepsLong2();
    RunNone();
    RunOn([], 3, [3], 0x1, 0x23);
    RunOn([3], 1, [3, 1], 0x23, 0x461);
    RunOn([3, 1], 3, [3, 1, 3], 0x461, 0x8c23);
    RunOn([3, 1, 3], 3, [3, 1, 3, 3], 0x8c23, 0x118463);
    RunOn([3, 1, 3, 3], 3, [3, 1, 3, 3, 3], 0x118463, 0x2308c63);
    RunOn([3, 1, 3, 3, 3], 3, [3, 1, 3, 3, 3, 3], 0x2308c63, 0x3d7bdbd1);
    RunOn([3, 1, 3, 3, 3, 3], 1, [3, 1, 3, 3, 3, 3, 1], 0x3d7bdbd1, 0xdcbcd8);
    RunOn([3, 1, 3, 3, 3, 3, 1], 0, [3, 1, 3, 3, 3, 3, 1, 0], 0xdcbcd8, 0x1b979b00);
    RunOn([3, 1, 3, 3, 3, 3, 1, 0], 1, [3, 1, 3, 3, 3, 3, 1, 0, 1], 0x1b979b00, 0x2a7a1d94);
    RunOn([3, 1, 3, 3, 3, 3, 1, 0, 1], 17, [3, 1, 3, 3, 3, 3, 1, 0, 1, 17], 0x2a7a1d94, 0x9c9e6a);
    RunOn([3, 1, 3, 3, 3, 3, 1, 0, 1, 17], 19, [3, 1, 3, 3, 3, 3, 1, 0, 1, 17, 19], 0x9c9e6a, 0x1393cd53);
    RunOn([3, 1, 3, 3, 3, 3, 1, 0, 1, 17, 19], 19, [3, 1, 3, 3, 3, 3, 1, 0, 1, 17, 19, 19], 0x1393cd53, 0x3451ce1c);
    RunOn([3, 1, 3, 3, 3, 3, 1, 0, 1, 17, 19, 19], 12, [3, 1, 3, 3, 3, 3, 1, 0, 1, 17, 19, 19, 12], 0x3451ce1c, 0x3b3f1c8f);
    RunOn([3, 1, 3, 3, 3, 3, 1, 0, 1, 17, 19, 19, 12], 24, [3, 1, 3, 3, 3, 3, 1, 0, 1, 17, 19, 19, 12, 24], 0x3b3f1c8f, 0x157e8ede);
    RunOn([3, 1, 3, 3, 3, 3, 1, 0, 1, 17, 19, 19, 12, 24], 24, [3, 1, 3, 3, 3, 3, 1, 0, 1, 17, 19, 19, 12, 24, 24], 0x157e8ede, 0x34c36668);
  }

  /** The same word gives the same checksum. */
  lemma {:induction false} SameChecksum(a: seq<Symbol>, b: seq<Symbol>)
    requires Run(1, a) == Run(1, b)
    ensures ChecksumOf(a) == ChecksumOf(b)
  {
    hide Run;
    RunSplit(1, a, Zeros(6));
    RunSplit(1, b, Zeros(6));
  }

  const SHORT: seq<int> := [16, 16, 31, 6, 7, 22]

  lemma HrpIs(hrp: string, hi: seq<Symbol>, lo: seq<Symbol>)
    requires Printable(hrp) && |hi| == |lo| == |hrp|
    requires forall i :: 0 <= i < |hrp| ==> hi[i] as int == hrp[i] as int / 32 && lo[i] as int == hrp[i] as int % 32
    ensures HrpExpand(hrp) == hi + [0] + lo
  {
    SymbolsNumbers(hi);
    SymbolsNumbers(lo);
    assert Numbers(hi) == seq(|hrp|, i requires 0 <= i < |hrp| => hrp[i] as int / 32);
    assert Numbers(lo) == seq(|hrp|, i requires 0 <= i < |hrp| => hrp[i] as int % 32);
  }

  lemma ExpandShort() returns (x: seq<Symbol>)
    ensures InRange(SHORT) && Printable("a") && x == HrpExpand("a") + Symbols(SHORT) && x == [3, 0, 1, 16, 16, 31, 6, 7, 22]
  {
    hide HrpExpand, Symbols;
    HrpIs("a", [3], [1]);
    var d: seq<Symbol> := [16, 16, 31, 6, 7, 22];
    SymbolsNumbers(d);
    assert Numbers(d) == SHORT;
    x := HrpExpand("a") + Symbols(SHORT);
  }

  lemma ExpandLong() returns (y: seq<Symbol>)
    ensures InRange([]) && Printable("a1sslx8") && y == HrpExpand("a1sslx8") + Symbols([]) && y == [3, 1, 3, 3, 3, 3, 1, 0, 1, 17, 19, 19, 12, 24, 24]
  {
    hide HrpExpand;
    HrpIs("a1sslx8", [3, 1, 3, 3, 3, 3, 1], [1, 17, 19, 19, 12, 24, 24]);
    y := HrpExpand("a1sslx8") + Symbols([]);
    assert Symbols([]) == [];
  }

  lemma ShortChars()
    ensures InRange(SHORT) && DataChars(SHORT) == "sslx8k"
  {
  }

  lemma ShortCases()
    ensures ToLower("a") == "a" && ToLower("a1sslx8") == "a1sslx8"
  {
  }

  lemma EncodeMeans(hrp: string, data: seq<int>)
    requires hrp != "" && Printable(hrp) && ToLower(hrp) == hrp && InRange(data)
    ensures EncodeSpec(hrp, data) == Ok(hrp + "1" + DataChars(WithChecksum(hrp, data)))
  {
    hide Printable, DataChars, WithChecksum, LowerChar;
  }

  /** A separator put in place of a data character moves the human-readable part, and the change may go unnoticed:
      two valid strings that differ in that character alone. */
  lemma {:induction false} SeparatorUnnoticed() returns (s: string, t: string)
    ensures |s| == |t| == 14 && s[7] == 'k' && t[7] == '1' && forall k :: 0 <= k < 14 && k != 7 ==> s[k] == t[k]
    ensures DecodeSpec(s) == Ok(("a", SHORT)) && DecodeSpec(t) == Ok(("a1sslx8", []))
  {
    hide Run, HrpExpand, ChecksumOf, Symbols, CharOf, DecodeSpec, EncodeSpec, LowerChar;
    var x := ExpandShort();
    var y := ExpandLong();
    RunShort();
    RunLong();
    SameChecksum(x, y);
    ShortCases();
    ShortChars();
    EncodeMeans("a", SHORT);
    EncodeMeans("a1sslx8", []);
    DecodeEncode("a", SHORT);
    DecodeEncode("a1sslx8", []);
    s, t := EncodeSpec("a", SHORT).value, EncodeSpec("a1sslx8", []).value;
    SameTail(s, t, Numbers(ChecksumOf(x)));
  }

  lemma {:induction false} SameTail(s: string, t: string, c: seq<int>)
    requires InRange(c) && |c| == 6 && InRange(SHORT) && InRange([]) && DataChars(SHORT) == "sslx8k"
    requires InRange(SHORT + c) && s == "a" + "1" + DataChars(SHORT + c)
    requires InRange([] + c) && t == "a1sslx8" + "1" + DataChars([] + c)
    ensures |s| == |t| == 14 && s[7] == 'k' && t[7] == '1' && forall k :: 0 <= k < 14 && k != 7 ==> s[k] == t[k]
  {
    hide CharOf;
    DataCharsJoin(SHORT, c);
    assert [] + c == c;
    assert s == "a1sslx8k" + DataChars(c) && t == "a1sslx81" + DataChars(c);
  }

  lemma DataCharsJoin(a: seq<int>, b: seq<int>)
    requires InRange(a) && InRange(b)
    ensures InRange(a + b) && DataChars(a + b) == DataChars(a) + DataChars(b)
  {
    assert forall i :: 0 <= i < |a + b| ==> 0 <= (a + b)[i] < 32;
  }
}
