/** What the operators of the contract language compute. */
module Operators {
  import opened ChainState
  import opened Powers
  import opened Variables
  import opened Ledger
  import opened Dvm
  import opened Semantics

  // Laws over all 64-bit numbers and all strings, from which every operator is known.

  /** The operation on two numbers gives the number r. */
  ghost predicate Gives(op: Op, x: nat, y: nat, r: nat)
    requires x < UINT64 && y < UINT64
  {
    r < UINT64 && BinaryResult(op, Just(Uint64Var(x)), Just(Uint64Var(y))) == Some(Uint64Var(r))
  }

  /** The value of a truth. */
  function Flag(b: bool): nat {
    if b then 1 else 0
  }

  // ---------- arithmetic ----------

  /** The sum wraps at 2^64, and subtracting undoes it. */
  lemma {:induction false} SumUndone(x: nat, y: nat) returns (s: nat)
    requires x < UINT64 && y < UINT64
    ensures Gives(Add, x, y, s) && (s == x + y || s == x + y - 0x1_0000_0000_0000_0000)
    ensures Gives(Sub, s, y, x) && Gives(Sub, s, x, y)
  {
    s := Wrap64(x + y);
  }

  /** The difference is the true one if there is one, and adding undoes it in any case. */
  lemma {:induction false} DifferenceUndone(x: nat, y: nat) returns (d: nat)
    requires x < UINT64 && y < UINT64
    ensures Gives(Sub, x, y, d) && d == if y <= x then x - y else x + (0x1_0000_0000_0000_0000 - y)
    ensures Gives(Add, d, y, x)
  {
    d := Wrap64(x - y);
  }

  /** The product, but for multiples of 2^64. */
  lemma {:induction false} ProductMeans(x: nat, y: nat) returns (p: nat, k: nat)
    requires x < UINT64 && y < UINT64
    ensures Gives(Mul, x, y, p) && p + 0x1_0000_0000_0000_0000 * k == x * y
  {
    hide Wrap64;
    p := Times(x, y);
    k := x * y / UINT64;
    assert p == x * y % UINT64 by { WrapMeans(x * y); }
  }

  lemma WrapMeans(x: int)
    ensures Wrap64(x) == x % UINT64
  {
  }

  /** Quotient and remainder; division by zero panics. */
  lemma {:induction false} DivisionMeans(x: nat, y: nat) returns (q: nat, r: nat)
    requires x < UINT64 && y < UINT64
    ensures y > 0 ==> Gives(Quo, x, y, q) && Gives(Rem, x, y, r) && q * y + r == x && r < y
    ensures y == 0 ==> forall op :: op in {Quo, Rem} ==> BinaryResult(op, Just(Uint64Var(x)), Just(Uint64Var(y))) == None
  {
    q, r := 0, 0;
    if y > 0 {
      QuotientMeans(x, y);
      q, r := Quotient(x, y), Remainder(x, y);
    }
  }

  lemma QuotientMeans(x: nat, y: nat)
    requires 0 < y && x < UINT64
    ensures Quotient(x, y) * y + Remainder(x, y) == x
  {
    hide Wrap64;
    var q := x / y;
    assert x == y * q + x % y;
    assert Quotient(x, y) == q;
  }

  // ---------- bits ----------

  /** Bit i of a number, the lowest one first. */
  predicate Bit(n: nat, i: nat) {
    if i == 0 then n % 2 == 1 else Bit(n / 2, i - 1)
  }

  /** And, or and exclusive or, bit by bit. */
  lemma {:induction false} BitwiseMeans(op: Op, x: nat, y: nat) returns (r: nat)
    requires x < UINT64 && y < UINT64 && op in {And, Or, Xor}
    ensures Gives(op, x, y, r)
    ensures forall i: nat :: i < 64 ==>
      (Bit(r, i) <==> match op case And => Bit(x, i) && Bit(y, i) case Or => Bit(x, i) || Bit(y, i) case _ => Bit(x, i) != Bit(y, i))
  {
    hide Bitwise, Bit;
    r := Bitwise64(op, x, y);
    forall i: nat | i < 64 ensures Bit(r, i) <==> OneBit(op, Bit(x, i), Bit(y, i)) { BitOf(op, x, y, 64, i); }
  }

  lemma {:induction false} BitOf(op: Op, x: nat, y: nat, n: nat, i: nat)
    requires i < n
    ensures Bit(Bitwise(op, x, y, n), i) <==> OneBit(op, Bit(x, i), Bit(y, i))
  {
    if i > 0 { BitOf(op, x / 2, y / 2, n - 1, i - 1); }
  }

  /** Shifts move the bits; what leaves the 64 bits is lost. */
  lemma {:induction false} ShiftsMean(x: nat, y: nat) returns (up: nat, down: nat)
    requires x < UINT64 && y < UINT64
    ensures Gives(Shl, x, y, up) && Gives(Shr, x, y, down)
    ensures forall i: nat :: i < 64 ==> (Bit(up, i) <==> i >= y && Bit(x, i - y))
    ensures forall i: nat :: i < 64 ==> (Bit(down, i) <==> i + y < 64 && Bit(x, i + y))
  {
    hide Bit, Pow2, Doubled, Halved;
    up, down := Shifted(Shl, x, y), Shifted(Shr, x, y);
    SixtyFourBits();
    forall i: nat | i < 64
      ensures Bit(up, i) <==> i >= y && Bit(x, i - y)
      ensures Bit(down, i) <==> i + y < 64 && Bit(x, i + y)
    {
      if y >= 64 {
        NoBits(0, i);
      } else {
        BitUp(x, y, i);
        BitDown(x, y, i);
        if i + y >= 64 { NoHighBits(x, 64, i + y); }
      }
    }
  }

  /** Shifting up multiplies by 2^y, but for multiples of 2^64. */
  lemma {:induction false} DoubledMeans(x: nat, y: nat) returns (k: nat)
    requires x < UINT64
    ensures Doubled(x, y) + UINT64 * k == x * Pow2(y)
  {
    if y == 0 {
      k := 0;
    } else {
      var d := Doubled(x, y - 1);
      var h := DoubledMeans(x, y - 1);
      k := 2 * h + 2 * d / UINT64;
      Twice(x, Pow2(y - 1));
      assert Doubled(x, y) == 2 * d % UINT64;
    }
  }

  lemma Twice(x: nat, p: nat)
    ensures x * (2 * p) == 2 * (x * p)
  {
  }

  /** Shifting down divides by 2^y. */
  lemma {:induction false} HalvedMeans(x: nat, y: nat)
    ensures Halved(x, y) * Pow2(y) <= x < (Halved(x, y) + 1) * Pow2(y)
  {
    if y > 0 {
      HalvedMeans(x / 2, y - 1);
      Twice(Halved(x, y), Pow2(y - 1));
      Twice(Halved(x, y) + 1, Pow2(y - 1));
    }
  }

  lemma {:induction false} NoBits(n: nat, i: nat)
    requires n == 0
    ensures !Bit(n, i)
  {
    if i > 0 { NoBits(0, i - 1); }
  }

  lemma {:induction false} NoHighBits(n: nat, k: nat, i: nat)
    requires n < Pow2(k) && k <= i
    ensures !Bit(n, i)
  {
    if k == 0 { NoBits(n, i); } else { NoHighBits(n / 2, k - 1, i - 1); }
  }

  lemma {:induction false} BitUp(x: nat, y: nat, i: nat)
    requires x < UINT64 && i < 64
    ensures Bit(Doubled(x, y), i) <==> i >= y && Bit(x, i - y)
    decreases y
  {
    if y > 0 {
      var d := Doubled(x, y - 1);
      var r := Doubled(x, y);
      assert r == 2 * d % UINT64 && r % 2 == 0 && r / 2 == d % 0x8000_0000_0000_0000;
      if i > 0 {
        SixtyFourBits();
        LowBits(d, 63, i - 1);
        BitUp(x, y - 1, i - 1);
      }
    }
  }

  lemma {:induction false} BitDown(x: nat, y: nat, i: nat)
    ensures Bit(Halved(x, y), i) <==> Bit(x, i + y)
    decreases y
  {
    if y > 0 { BitDown(x / 2, y - 1, i); }
  }

  lemma Above(d: nat, a: nat, b: nat)
    requires a > b
    ensures d * a >= d * b + d
  {
    assert d * a == d * (b + 1) + d * (a - b - 1);
    assert d * (b + 1) == d * b + d;
  }

  lemma Unique(x: nat, d: nat, q: nat, r: nat)
    requires x == d * q + r && r < d
    ensures x / d == q && x % d == r
  {
    var q' := x / d;
    assert x == d * q' + x % d;
    if q' < q { Above(d, q, q'); }
    if q < q' { Above(d, q', q); }
  }

  lemma {:induction false} LowBits(v: nat, n: nat, i: nat)
    requires i < n
    ensures Bit(v % Pow2(n), i) <==> Bit(v, i)
  {
    var p := Pow2(n - 1);
    var h := v / 2;
    assert h == p * (h / p) + h % p;
    assert v == (2 * p) * (h / p) + (2 * (h % p) + v % 2);
    Unique(v, 2 * p, h / p, 2 * (h % p) + v % 2);
    if i > 0 { LowBits(h, n - 1, i - 1); }
  }

  /** The complement turns every bit around. */
  lemma {:induction false} ComplementMeans(n: nat)
    requires n < UINT64
    ensures Inverted(n).Uint64Var? && Inverted(n).n + n == 0xffff_ffff_ffff_ffff
    ensures forall i: nat :: i < 64 ==> (Bit(Inverted(n).n, i) <==> !Bit(n, i))
  {
    hide Bit, Pow2;
    SixtyFourBits();
    forall i: nat | i < 64 ensures Bit(Inverted(n).n, i) <==> !Bit(n, i) { BitTurned(n, 64, i); }
  }

  lemma {:induction false} BitTurned(n: nat, k: nat, i: nat)
    requires n < Pow2(k) && i < k
    ensures Bit(Pow2(k) - 1 - n, i) <==> !Bit(n, i)
  {
    var t := Pow2(k) - 1 - n;
    assert t / 2 == Pow2(k - 1) - 1 - n / 2;
    if i > 0 { BitTurned(n / 2, k - 1, i - 1); }
  }

  /** Not is the complement of a number, and 1 exactly for the empty string. */
  lemma {:induction false} NotMeans(n: nat, s: Bytes)
    requires n < UINT64
    ensures Negated(Uint64Var(n)).Uint64Var? && Negated(Uint64Var(n)).n + n == 0xffff_ffff_ffff_ffff
    ensures Negated(StringVar(s)) == Uint64Var(Flag(|s| == 0))
  {
  }

  // ---------- comparisons and logic ----------

  /** One of less, equal and greater holds; the others are their negations. */
  lemma {:induction false} OrderMeans(x: nat, y: nat)
    requires x < UINT64 && y < UINT64
    ensures Gives(Eql, x, y, Flag(x == y)) && Gives(Neq, x, y, 1 - Flag(x == y))
    ensures Gives(Lss, x, y, Flag(x < y)) && Gives(Geq, x, y, 1 - Flag(x < y))
    ensures Gives(Gtr, x, y, Flag(y < x)) && Gives(Leq, x, y, 1 - Flag(y < x))
  {
  }

  /** Logic on two numbers or two strings: 0 and the empty string are false. */
  lemma {:induction false} LogicMeans(l: Val, r: Val)
    requires l.Uint64Var? == r.Uint64Var?
    ensures var a, b := l != Uint64Var(0) && l != StringVar([]), r != Uint64Var(0) && r != StringVar([]);
      && BinaryResult(LAnd, Just(l), Just(r)) == Some(Uint64Var(Flag(a) * Flag(b)))
      && BinaryResult(LOr, Just(l), Just(r)) == Some(Uint64Var(if Flag(a) + Flag(b) > 0 then 1 else 0))
  {
  }

  // ---------- strings ----------

  /** Strings are joined below a length of 1048576, compared for equality, and nothing else. */
  lemma {:induction false} StringsMean(s: Bytes, t: Bytes)
    ensures BinaryResult(Add, Just(StringVar(s)), Just(StringVar(t))) == if |s + t| < 1048576 then Some(StringVar(s + t)) else None
    ensures BinaryResult(Eql, Just(StringVar(s)), Just(StringVar(t))) == Some(Uint64Var(Flag(s == t)))
    ensures BinaryResult(Neq, Just(StringVar(s)), Just(StringVar(t))) == Some(Uint64Var(1 - Flag(s == t)))
    ensures forall op :: op !in {Add, Eql, Neq, LAnd, LOr} ==> BinaryResult(op, Just(StringVar(s)), Just(StringVar(t))) == None
  {
  }

  /** The number that decimal digits stand for. */
  function Decimal(s: Bytes): int {
    if s == [] then 0 else 10 * Decimal(s[..|s| - 1]) + (s[|s| - 1] - '0' as int)
  }

  /** A number is written in decimal digits, without leading zeros. */
  lemma {:induction false} DigitsBack(n: nat)
    ensures Decimal(Digits(n)) == n
    ensures forall i :: 0 <= i < |Digits(n)| ==> '0' as int <= Digits(n)[i] <= '9' as int
    ensures n > 0 ==> Digits(n)[0] != '0' as int
  {
    if n >= 10 {
      DigitsBack(n / 10);
      var s := Digits(n);
      assert s[..|s| - 1] == Digits(n / 10);
    } else {
      assert [48 + n][..0] == [];
    }
  }

  /** A number after a string is appended to it, whatever the operator; a string after a number panics. */
  lemma {:induction false} MixedMeans(op: Op, s: Bytes, n: nat)
    requires n < UINT64
    ensures exists d: Bytes :: Decimal(d) == n && |d| >= 1 && BinaryResult(op, Just(StringVar(s)), Just(Uint64Var(n))) == Some(StringVar(s + d))
    ensures BinaryResult(op, Just(Uint64Var(n)), Just(StringVar(s))) == None
  {
    DigitsBack(n);
    assert Decimal(Digits(n)) == n;
  }
}
