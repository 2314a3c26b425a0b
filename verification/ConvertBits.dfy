/**
 Regrouping bits between words of different widths.

 Bits enter an accumulator at its low end and leave it from below the position that has been
 reached; what has left stays in the accumulator, which is never masked.
 */
module ConvertBits {
  import opened ChainState
  import opened Powers

  const INT64_WORD := 0x1_0000_0000_0000_0000

  /** The low w bits of a number, highest first. */
  function ToBits(v: nat, w: nat): (b: seq<bool>)
    ensures |b| == w
  {
    if w == 0 then [] else ToBits(v / 2, w - 1) + [v % 2 == 1]
  }

  predicate Fits(data: seq<int>, w: nat) {
    forall i :: 0 <= i < |data| ==> 0 <= data[i] < Pow2(w)
  }

  /** All words, bit by bit. */
  function AllBits(data: seq<int>, w: nat): (b: seq<bool>)
    requires Fits(data, w)
    ensures |b| == |data| * w
  {
    if data == [] then []
    else
      FitsInit(data, w);
      AllBits(data[..|data| - 1], w) + ToBits(data[|data| - 1], w)
  }

  lemma FitsInit(data: seq<int>, w: nat)
    requires Fits(data, w) && data != []
    ensures Fits(data[..|data| - 1], w) && (|data| - 1) * w + w == |data| * w
  {
  }

  function Zeros(n: nat): (b: seq<bool>)
    ensures |b| == n && forall i :: 0 <= i < n ==> !b[i]
  {
    seq(n, _ => false)
  }

  // ---------- bits of numbers ----------

  lemma {:induction false} ToBitsAppend(a: nat, v: nat, b: nat, f: nat)
    requires v < Pow2(f)
    ensures ToBits(a * Pow2(f) + v, b + f) == ToBits(a, b) + ToBits(v, f)
    decreases f
  {
    if f == 0 {
      assert ToBits(v, 0) == [];
    } else {
      assert a * Pow2(f) == 2 * (a * Pow2(f - 1));
      var x := a * Pow2(f - 1);
      assert (2 * x + v) / 2 == x + v / 2 && (2 * x + v) % 2 == v % 2;
      ToBitsAppend(a, v / 2, b, f - 1);
    }
  }

  /** Bits above the lowest w do not matter. */
  /** The first bit is the highest one. */
  lemma {:induction false} HighestFirst(v: nat, w: nat)
    requires v < Pow2(w + 1)
    ensures ToBits(v, w + 1) == [v >= Pow2(w)] + ToBits(if v >= Pow2(w) then v - Pow2(w) else v, w)
  {
    hide Pow2;
    assert Pow2(w + 1) == 2 * Pow2(w) by { OneMore(w); }
    var a := if v >= Pow2(w) then 1 else 0;
    var r := v - a * Pow2(w);
    ToBitsAppend(a, r, 1, w);
    assert ToBits(a, 1) == [a == 1] by { OneBit(a); }
  }

  lemma OneMore(w: nat)
    ensures Pow2(w + 1) == 2 * Pow2(w)
  {
  }

  lemma OneBit(a: nat)
    requires a < 2
    ensures ToBits(a, 1) == [a == 1]
  {
    assert ToBits(a / 2, 0) == [];
  }

  lemma {:induction false} ToBitsLow(v: nat, m: nat, w: nat)
    requires w <= m
    ensures ToBits(v % Pow2(m), w) == ToBits(v, w)
    decreases w
  {
    if w > 0 {
      HalfMod(v, m);
      ToBitsLow(v / 2, m - 1, w - 1);
    }
  }

  lemma HalfMod(v: nat, m: nat)
    requires m > 0
    ensures (v % Pow2(m)) / 2 == (v / 2) % Pow2(m - 1) && (v % Pow2(m)) % 2 == v % 2
  {
    var p := Pow2(m - 1);
    var h := v / 2;
    var q := h / p;
    assert h == q * p + h % p;
    assert v == 2 * (q * p) + (2 * (h % p) + v % 2);
    assert 2 * (q * p) == q * (2 * p);
    ModUnique(v, 2 * p, q, 2 * (h % p) + v % 2);
  }

  lemma ModUnique(v: int, m: int, q: int, r: int)
    requires m > 0 && v == q * m + r && 0 <= r < m
    ensures v % m == r && v / m == q
  {
    var d := v / m - q;
    assert v % m == r - d * m;
    Multiples(d, m);
  }

  lemma Multiples(d: int, m: int)
    requires m > 0
    ensures d > 0 ==> d * m >= m
    ensures d < 0 ==> d * m <= -m
  {
  }

  lemma DivMod(v: nat, p: nat) returns (q: nat, m: nat)
    requires p > 0
    ensures q == v / p && m == v % p && v == q * p + m && m < p
  {
    q, m := v / p, v % p;
  }

  /** The bits above the lowest b, as a number. */
  lemma {:induction false} ToBitsSplit(v: nat, b: nat, t: nat)
    ensures ToBits(v, b + t) == ToBits((v / Pow2(b)) % Pow2(t), t) + ToBits(v, b)
  {
    hide Pow2, ToBits;
    var q, m := DivMod(v, Pow2(b));
    ToBitsAppend(q, m, t, b);
    ToBitsLow(q, t, t);
    ToBitsLow(v, b, b);
  }

  lemma {:induction false} ToBitsInjective(v: nat, u: nat, w: nat)
    requires v < Pow2(w) && u < Pow2(w) && ToBits(v, w) == ToBits(u, w)
    ensures v == u
    decreases w
  {
    if w > 0 {
      var a, b := ToBits(v, w), ToBits(u, w);
      assert a[..w - 1] == ToBits(v / 2, w - 1) && b[..w - 1] == ToBits(u / 2, w - 1);
      assert a[w - 1] == b[w - 1];
      ToBitsInjective(v / 2, u / 2, w - 1);
    }
  }

  lemma {:induction false} ZeroBits(w: nat)
    ensures ToBits(0, w) == Zeros(w)
  {
    if w > 0 { ZeroBits(w - 1); }
  }

  /** Shifted left, a number gets zeros at the end. */
  lemma {:induction false} ToBitsShift(v: nat, b: nat, s: nat)
    ensures ToBits(v * Pow2(s), b + s) == ToBits(v, b) + Zeros(s)
  {
    ToBitsAppend(v, 0, b, s);
    ZeroBits(s);
  }

  lemma {:induction false} PowWord()
    ensures Pow2(64) == INT64_WORD
  {
    assert Pow2(8) == 256;
    PowAdd(8, 8);
    assert Pow2(16) == 0x1_0000;
    PowAdd(16, 16);
    assert Pow2(32) == 0x1_0000_0000;
    PowAdd(32, 32);
  }

  lemma {:induction false} PowAdd(a: nat, b: nat)
    ensures Pow2(a + b) == Pow2(a) * Pow2(b)
  {
    if a > 0 { PowAdd(a - 1, b); }
  }

  // ---------- the conversion ----------

  /** The bits left over after the last whole word are fewer than a source word, and zero. */
  ghost predicate CleanEnd(data: seq<int>, from: nat, to: nat)
    requires Fits(data, from) && to > 0
  {
    var b := AllBits(data, from);
    var k := |b| % to;
    k < from && forall i :: |b| - k <= i < |b| ==> !b[i]
  }

  /** The words of r are the bits of data, up to k zeros at the end of r (k > 0) or of data (k < 0). */
  ghost predicate Regrouped(data: seq<int>, from: nat, r: seq<int>, to: nat, k: int)
  {
    && Fits(data, from) && Fits(r, to)
    && AllBits(r, to) + (if k < 0 then Zeros(-k) else []) == AllBits(data, from) + if k > 0 then Zeros(k) else []
  }

  /** Converts; None if a value does not fit, or, without padding, if the end is not clean. The accumulator
      is a 64-bit word that is never masked: what is shifted out at its top has been used already. */
  method Convert(data: seq<int>, from: nat, to: nat, pad: bool) returns (r: Option<seq<int>>)
    requires from > 0 && to > 0 && from + to <= 64
    ensures r.Some? <==> Fits(data, from) && (pad || CleanEnd(data, from, to))
    ensures r.Some? && pad ==> exists k :: 0 <= k < to && Regrouped(data, from, r.value, to, k)
    ensures r.Some? && !pad ==> exists k :: -(to as int) < k <= 0 && -k < from && Regrouped(data, from, r.value, to, k)
  {
    hide Pow2, ToBits, AllBits, Fits, CleanEnd, Regrouped;
    var acc: nat, bits: nat := 0, 0;
    var ret: seq<int> := [];
    var n := 0;
    Nothing(data, from, to);
    while n < |data|
      invariant 0 <= n <= |data| && bits < to
      invariant Holds(data[..n], from, ret, to, acc, bits)
    {
      var value := data[n];
      if value < 0 || value / Pow2(from) != 0 {
        NotFits(data, from, n);
        return None;
      }
      TakeIn(data, from, ret, to, acc, bits, n);
      acc := (acc * Pow2(from)) % INT64_WORD + value;
      bits := bits + from;
      n := n + 1;
      while bits >= to
        invariant bits < from + to
        invariant Holds(data[..n], from, ret, to, acc, bits)
      {
        bits := bits - to;
        GiveOut(data[..n], from, ret, to, acc, bits);
        ret := ret + [(acc / Pow2(bits)) % Pow2(to)];
      }
    }
    assert data[..n] == data;
    if pad {
      if bits > 0 {
        PadEnd(data, from, ret, to, acc, bits);
        ret := ret + [(acc * Pow2(to - bits)) % Pow2(to)];
      } else {
        EndExact(data, from, ret, to, acc);
      }
    } else {
      HoldsFits(data, from, ret, to, acc, bits);
      EndMeans(data, from, ret, to, acc, bits);
      if bits >= from { return None; }
      if (acc * Pow2(to - bits)) % Pow2(to) != 0 { return None; }
    }
    r := Some(ret);
  }

  /** The words taken in are the words given out and the low bits of the accumulator. */
  ghost predicate Holds(data: seq<int>, from: nat, ret: seq<int>, to: nat, acc: nat, bits: nat) {
    Fits(data, from) && Fits(ret, to) && AllBits(data, from) == AllBits(ret, to) + ToBits(acc, bits)
  }

  lemma HoldsFits(data: seq<int>, from: nat, ret: seq<int>, to: nat, acc: nat, bits: nat)
    requires Holds(data, from, ret, to, acc, bits)
    ensures Fits(data, from)
  {
  }

  lemma Nothing(data: seq<int>, from: nat, to: nat)
    ensures Holds(data[..0], from, [], to, 0, 0)
  {
  }

  lemma NotFits(data: seq<int>, from: nat, n: nat)
    requires n < |data| && (data[n] < 0 || data[n] / Pow2(from) != 0)
    ensures !Fits(data, from)
  {
    hide Pow2;
    if 0 <= data[n] < Pow2(from) { BigQuotient(data[n], Pow2(from)); }
  }

  lemma BigQuotient(v: nat, p: nat)
    requires v < p
    ensures v / p == 0
  {
  }

  lemma SmallQuotient(v: nat, p: nat)
    requires p > 0 && v / p == 0
    ensures v < p
  {
  }

  lemma {:induction false} AllBitsNext(data: seq<int>, w: nat, v: int)
    requires Fits(data, w) && 0 <= v < Pow2(w)
    ensures Fits(data + [v], w) && AllBits(data + [v], w) == AllBits(data, w) + ToBits(v, w)
  {
    assert (data + [v])[..|data|] == data;
  }

  lemma {:induction false} TakeIn(data: seq<int>, from: nat, ret: seq<int>, to: nat, acc: nat, bits: nat, n: nat)
    requires n < |data| && data[n] >= 0 && data[n] / Pow2(from) == 0 && from + to <= 64 && bits < to
    requires Holds(data[..n], from, ret, to, acc, bits)
    ensures Holds(data[..n + 1], from, ret, to, (acc * Pow2(from)) % INT64_WORD + data[n], bits + from)
  {
    hide Pow2, ToBits, AllBits, Fits;
    var v := data[n];
    SmallQuotient(v, Pow2(from));
    assert data[..n + 1] == data[..n] + [v];
    AllBitsNext(data[..n], from, v);
    var big := acc * Pow2(from);
    ToBitsAppend(acc, v, bits, from);
    WrappedLow(acc, from, v, bits);
    assert AllBits(ret, to) + ToBits(acc, bits) + ToBits(v, from) == AllBits(ret, to) + (ToBits(acc, bits) + ToBits(v, from));
  }

  /** The 64-bit wrap does not reach the low bits. */
  lemma {:induction false} WrappedLow(acc: nat, from: nat, v: nat, bits: nat)
    requires v < Pow2(from) && bits + from <= 64
    ensures ToBits((acc * Pow2(from)) % INT64_WORD + v, bits + from) == ToBits(acc * Pow2(from) + v, bits + from)
  {
    hide Pow2, ToBits;
    PowWord();
    PowAdd(64 - from, from);
    var top, p := Pow2(64 - from), Pow2(from);
    ModScale(acc, p, top);
    ToBitsAppend(acc, v, bits, from);
    ToBitsAppend(acc % top, v, bits, from);
    ToBitsLow(acc, 64 - from, bits);
  }

  lemma {:induction false} ModScale(a: nat, p: nat, top: nat)
    requires p > 0 && top > 0
    ensures (a * p) % (top * p) == (a % top) * p
  {
    var q, m := DivMod(a, top);
    assert a * p == q * (top * p) + m * p by { assert (q * top + m) * p == q * top * p + m * p; assert q * top * p == q * (top * p); }
    assert 0 <= m * p < top * p;
    ModUnique(a * p, top * p, q, m * p);
  }

  lemma {:induction false} GiveOut(data: seq<int>, from: nat, ret: seq<int>, to: nat, acc: nat, bits: nat)
    requires Holds(data, from, ret, to, acc, bits + to)
    ensures Holds(data, from, ret + [(acc / Pow2(bits)) % Pow2(to)], to, acc, bits)
  {
    hide Pow2, ToBits, AllBits, Fits;
    var v := (acc / Pow2(bits)) % Pow2(to);
    ToBitsSplit(acc, bits, to);
    AllBitsNext(ret, to, v);
    assert AllBits(ret, to) + (ToBits(v, to) + ToBits(acc, bits)) == AllBits(ret, to) + ToBits(v, to) + ToBits(acc, bits);
  }

  lemma {:induction false} PadEnd(data: seq<int>, from: nat, ret: seq<int>, to: nat, acc: nat, bits: nat)
    requires Holds(data, from, ret, to, acc, bits) && bits < to
    ensures Regrouped(data, from, ret + [(acc * Pow2(to - bits)) % Pow2(to)], to, to - bits)
  {
    hide Pow2, ToBits, AllBits, Fits;
    var v := (acc * Pow2(to - bits)) % Pow2(to);
    AllBitsNext(ret, to, v);
    ToBitsLow(acc * Pow2(to - bits), to, to);
    ToBitsShift(acc, bits, to - bits);
    assert AllBits(ret, to) + (ToBits(acc, bits) + Zeros(to - bits)) == AllBits(ret, to) + ToBits(acc, bits) + Zeros(to - bits);
  }

  lemma {:induction false} EndExact(data: seq<int>, from: nat, ret: seq<int>, to: nat, acc: nat)
    requires Holds(data, from, ret, to, acc, 0)
    ensures Regrouped(data, from, ret, to, 0)
  {
    hide AllBits, Fits;
    assert AllBits(ret, to) + ToBits(acc, 0) == AllBits(ret, to);
  }

  /** The two checks at the end, without padding. */
  lemma {:induction false} EndMeans(data: seq<int>, from: nat, ret: seq<int>, to: nat, acc: nat, bits: nat)
    requires Fits(data, from) && bits < to
    requires Holds(data, from, ret, to, acc, bits)
    ensures CleanEnd(data, from, to) <==> bits < from && (acc * Pow2(to - bits)) % Pow2(to) == 0
    ensures CleanEnd(data, from, to) ==> Regrouped(data, from, ret, to, -(bits as int))
  {
    hide Pow2, ToBits, AllBits, Fits;
    var b := AllBits(data, from);
    assert |b| == |ret| * to + bits;
    ModUnique(|b|, to, |ret|, bits);
    assert forall i :: |b| - bits <= i < |b| ==> b[i] == ToBits(acc, bits)[i - (|b| - bits)];
    LowZero(acc, to, bits);
    var low := ToBits(acc, bits);
    if CleanEnd(data, from, to) {
      assert low == Zeros(bits) by {
        forall i | 0 <= i < bits ensures low[i] == Zeros(bits)[i] { assert !b[|b| - bits + i]; }
      }
    }
  }

  /** The shifted remainder is zero exactly if the remaining bits are. */
  lemma {:induction false} LowZero(acc: nat, to: nat, bits: nat)
    requires bits < to
    ensures (acc * Pow2(to - bits)) % Pow2(to) == 0 <==> ToBits(acc, bits) == Zeros(bits)
  {
    hide Pow2, ToBits;
    var s := to - bits;
    var v := (acc * Pow2(s)) % Pow2(to);
    ToBitsLow(acc * Pow2(s), to, to);
    ToBitsShift(acc, bits, s);
    ZeroBits(to);
    assert Zeros(to) == Zeros(bits) + Zeros(s);
    if ToBits(acc, bits) == Zeros(bits) { ToBitsInjective(v, 0, to); }
    if v == 0 { assert (ToBits(acc, bits) + Zeros(s))[..bits] == ToBits(acc, bits) && (Zeros(bits) + Zeros(s))[..bits] == Zeros(bits); }
  }

  // ---------- there and back ----------

  lemma {:induction false} AllBitsInjective(a: seq<int>, b: seq<int>, w: nat)
    requires Fits(a, w) && Fits(b, w) && |a| == |b| && AllBits(a, w) == AllBits(b, w)
    ensures a == b
    decreases |a|
  {
    hide Pow2, ToBits;
    if a != [] {
      var n := |a| - 1;
      FitsInit(a, w);
      FitsInit(b, w);
      var x, y := AllBits(a[..n], w), AllBits(b[..n], w);
      assert (x + ToBits(a[n], w))[..|x|] == x && (y + ToBits(b[n], w))[..|y|] == y;
      assert (x + ToBits(a[n], w))[|x|..] == ToBits(a[n], w) && (y + ToBits(b[n], w))[|y|..] == ToBits(b[n], w);
      AllBitsInjective(a[..n], b[..n], w);
      ToBitsInjective(a[n], b[n], w);
    }
  }

  /** Bytes regrouped to 5-bit words with padding regroup to the same bytes, and to nothing else, without. */
  lemma {:induction false} ThereAndBack(data: seq<int>, words: seq<int>, back: seq<int>, k: int, k': int)
    requires 0 <= k < 5 && Regrouped(data, 8, words, 5, k)
    ensures CleanEnd(words, 5, 8)
    ensures 0 <= k' < 8 && Regrouped(words, 5, back, 8, -k') ==> back == data
  {
    hide Pow2, ToBits, AllBits, Fits;
    var b := AllBits(words, 5);
    var d := AllBits(data, 8);
    assert b == d + Zeros(k);
    ModUnique(|b|, 8, |data|, k);
    if 0 <= k' < 8 && Regrouped(words, 5, back, 8, -k') {
      var e := AllBits(back, 8);
      assert e + Zeros(k') == b;
      ModUnique(|b|, 8, |back|, k');
      assert (d + Zeros(k))[..|d|] == d && (e + Zeros(k'))[..|e|] == e;
      AllBitsInjective(data, back, 8);
    }
  }
}
