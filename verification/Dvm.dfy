/** The contract language: lines, expressions and values, what parsing guarantees of a function, the arithmetic
    of operators, and the environment that gives the other built-in functions. */
module Dvm {
  import opened ChainState
  import opened Powers
  import opened Variables
  import opened Ledger

  const LIMIT_LINES := 2000
  const LIMIT_EVALS := 11000
  const LINE_GAS := 5000
  const BINARY_GAS := 800
  const STRING_LIMIT := 1024 * 1024
  const MAX_UINT64 := UINT64 - 1

  type Val = v: Variable | Fits(v) witness Uint64Var(0)

  /** A function without a return type gives nothing. */
  datatype Value = Nil | Just(v: Val)

  datatype Type = TUint64 | TString | TNone

  datatype Op = Add | Sub | Mul | Quo | Rem | And | Or | Xor | Shl | Shr | Eql | Neq | Leq | Geq | Lss | Gtr | LAnd | LOr | Other

  /** Built-in functions; those without effects are given by the environment. */
  datatype Builtin = Load | Exists | Store | Delete | SendDero | SendAsset | Pure(id: nat)

  datatype Expr =
    | Lit(v: Val)
    | Ident(name: string)
    | Paren(x: Expr)
    | Complement(x: Expr)
    | Not(x: Expr)
    | Binary(op: Op, x: Expr, y: Expr)
    | Internal(f: Builtin, args: seq<Expr>)
    | Call(name: string, args: seq<Expr>)
    | Unknown

  datatype Stmt =
    | Blank
    | Dim(names: seq<string>, ty: Type)
    | Let(name: string, e: Expr)
    | Goto(target: nat)
    | If(e: Expr, thenLine: nat, elseLine: Option<nat>)
    | Return(result: Option<Expr>)
    | Print
    | Do(e: Expr)
    | Malformed

  datatype Param = Param(name: string, ty: Type)

  /** A function: `numbers` are its line numbers in order, `index` gives the position of each. */
  datatype Function = Function(params: seq<Param>, ret: Type, numbers: seq<nat>, index: map<nat, nat>, lines: map<nat, Stmt>)

  type Contract = map<string, Function>

  /** What parsing guarantees: line numbers ascend, and are neither 0 nor the largest. */
  ghost predicate WellFormed(f: Function) {
    && (forall i, j :: 0 <= i < j < |f.numbers| ==> f.numbers[i] < f.numbers[j])
    && (forall i :: 0 <= i < |f.numbers| ==> 0 < f.numbers[i] < MAX_UINT64 && f.numbers[i] in f.lines && f.numbers[i] in f.index && f.index[f.numbers[i]] == i)
    && (forall n :: n in f.lines ==> n in f.numbers)
    && (forall i :: 0 <= i < |f.params| ==> f.params[i].ty != TNone)
  }

  ghost predicate Parsed(sc: Contract) {
    forall name :: name in sc ==> WellFormed(sc[name])
  }

  /** A jump to this line does not meet a blank line. */
  predicate Lands(f: Function, target: nat) {
    target in f.lines ==> f.lines[target] != Blank
  }

  ghost predicate JumpsLand(f: Function) {
    forall n :: n in f.lines ==>
      match f.lines[n]
      case Goto(target) => Lands(f, target)
      case If(_, thenLine, elseLine) => Lands(f, thenLine) && (elseLine.Some? ==> Lands(f, elseLine.value))
      case _ => true
  }

  ghost predicate NoBlankJumps(sc: Contract) {
    forall name :: name in sc ==> JumpsLand(sc[name])
  }

  // ---------- values ----------

  function TypeOf(v: Val): Type {
    if v.Uint64Var? then TUint64 else TString
  }

  function Zero(ty: Type): Val
    requires ty != TNone
  {
    if ty == TUint64 then Uint64Var(0) else StringVar([])
  }

  function Truth(b: bool): Val {
    Uint64Var(if b then 1 else 0)
  }

  predicate IsZero(v: Val) {
    match v
    case Uint64Var(n) => n == 0
    case StringVar(s) => s == []
  }

  /** Decimal digits. */
  function Digits(n: nat): (s: Bytes)
    ensures s != []
  {
    if n < 10 then [48 + n] else Digits(n / 10) + [48 + n % 10]
  }

  function Doubled(x: nat, n: nat): (r: nat)
    requires x < UINT64
    ensures r < UINT64
  {
    if n == 0 then x else Wrap64(2 * Doubled(x, n - 1))
  }

  function Halved(x: nat, n: nat): (r: nat)
    ensures r <= x
  {
    if n == 0 then x else Halved(x / 2, n - 1)
  }

  function Shifted(op: Op, x: nat, y: nat): (r: nat)
    requires x < UINT64 && op in {Shl, Shr}
    ensures r < UINT64
  {
    if y >= 64 then 0 else if op == Shl then Doubled(x, y) else Halved(x, y)
  }

  /** The lowest n bits, one by one. */
  function Bitwise(op: Op, x: nat, y: nat, n: nat): (r: nat)
    ensures r < Pow2(n)
  {
    if n == 0 then 0 else 2 * Bitwise(op, x / 2, y / 2, n - 1) + if OneBit(op, x % 2 == 1, y % 2 == 1) then 1 else 0
  }

  predicate OneBit(op: Op, a: bool, b: bool) {
    match op
    case And => a && b
    case Or => a || b
    case _ => a != b
  }

  function Bitwise64(op: Op, x: nat, y: nat): (r: nat)
    ensures r < UINT64
  {
    SixtyFourBits();
    Bitwise(op, x, y, 64)
  }

  lemma SixtyFourBits()
    ensures Pow2(64) == UINT64 && Pow2(63) == 0x8000_0000_0000_0000
  {
    hide Pow2;
    SmallPowers();
    PowSum(8, 8);
    PowSum(16, 16);
    PowSum(32, 32);
    assert Pow2(16) == 256 * 256;
    assert Pow2(32) == 0x1_0000 * 0x1_0000;
    PowSum(1, 63);
  }

  lemma SmallPowers()
    ensures Pow2(1) == 2 && Pow2(8) == 256
  {
    assert Pow2(4) == 16;
  }

  lemma {:induction false} PowSum(a: nat, b: nat)
    ensures Pow2(a + b) == Pow2(a) * Pow2(b)
  {
    if a > 0 {
      PowSum(a - 1, b);
      assert Pow2(a + b) == 2 * (Pow2(a - 1) * Pow2(b));
    }
  }

  function Times(x: nat, y: nat): (r: nat)
    ensures r < UINT64
  {
    Wrap64(x * y)
  }

  function Quotient(x: nat, y: nat): (r: nat)
    requires y > 0
    ensures r < UINT64
  {
    Wrap64(x / y)
  }

  function Remainder(x: nat, y: nat): (r: nat)
    requires y > 0
    ensures r < y
  {
    x % y
  }

  predicate Compared(op: Op, x: nat, y: nat) {
    match op
    case Eql => x == y
    case Neq => x != y
    case Leq => x <= y
    case Geq => x >= y
    case Lss => x < y
    case Gtr => x > y
    case _ => false
  }

  /** Arithmetic wraps; division by zero panics. */
  function Arithmetic(op: Op, x: nat, y: nat): (r: Option<nat>)
    requires x < UINT64 && y < UINT64
    ensures r.Some? ==> r.value < UINT64
  {
    match op
    case Add => Some(Wrap64(x + y))
    case Sub => Some(Wrap64(x - y))
    case Mul => Some(Times(x, y))
    case Quo => if y == 0 then None else Some(Quotient(x, y))
    case Rem => if y == 0 then None else Some(Remainder(x, y))
    case And => Some(Bitwise64(And, x, y))
    case Or => Some(Bitwise64(Or, x, y))
    case Xor => Some(Bitwise64(Xor, x, y))
    case Shl => Some(Shifted(Shl, x, y))
    case Shr => Some(Shifted(Shr, x, y))
    case LAnd => None
    case LOr => None
    case Other => None
    case _ => Some(if Compared(op, x, y) then 1 else 0)
  }

  /** A number after a string is appended to it, whatever the operator; otherwise the types must agree. */
  function BinaryResult(op: Op, l: Value, r: Value): Option<Val> {
    if l.Nil? || r.Nil? then None
    else if l.v.StringVar? && r.v.Uint64Var? then Some(StringVar(l.v.s + Digits(r.v.n)))
    else if TypeOf(l.v) != TypeOf(r.v) then None
    else if op == LAnd then Some(Truth(!IsZero(l.v) && !IsZero(r.v)))
    else if op == LOr then Some(Truth(!IsZero(l.v) || !IsZero(r.v)))
    else if l.v.StringVar? then
      if op == Add then if |l.v.s| + |r.v.s| >= STRING_LIMIT then None else Some(StringVar(l.v.s + r.v.s))
      else if op == Eql then Some(Truth(l.v.s == r.v.s))
      else if op == Neq then Some(Truth(l.v.s != r.v.s))
      else None
    else
      match Arithmetic(op, l.v.n, r.v.n)
      case None => None
      case Some(n) => Some(Uint64Var(n))
  }

  function Length(v: Variable): nat {
    match v
    case Uint64Var(n) => |PutUvarint(n)| + 1
    case StringVar(s) => |s| + 1
  }

  /** What is read from storage fits. */
  lemma {:induction false} UvarintFits(b: Bytes, i: nat)
    requires i <= MAX_VARINT_LEN && Uvarint(b, i).Some?
    ensures i < MAX_VARINT_LEN && Uvarint(b, i).value.0 < Room(i)
    decreases |b|
  {
    if b[0] >= 128 { UvarintFits(b[1..], i + 1); } else if i < MAX_VARINT_LEN - 1 { RoomLarge(i); }
  }

  lemma {:induction false} RoomLarge(i: nat)
    requires i < MAX_VARINT_LEN - 1
    ensures Room(i) >= 256
    decreases MAX_VARINT_LEN - i
  {
    if i < MAX_VARINT_LEN - 2 { RoomLarge(i + 1); }
  }

  lemma {:induction false} UnmarshalFits(b: Bytes)
    ensures Unmarshal(b).Ok? ==> Fits(Unmarshal(b).v)
  {
    RoomForAll();
    if |b| >= 1 && Uvarint(b[..|b| - 1], 0).Some? { UvarintFits(b[..|b| - 1], 0); }
  }

  // ---------- the environment ----------

  /** The built-in functions without effects, and which addresses are points of the curve. */
  datatype Machine = Machine(cost: nat -> nat, arity: nat -> nat, run: (nat, seq<Value>) -> Option<Value>, isAddress: Bytes -> bool)

  function Cost(env: Machine, f: Builtin): nat {
    match f
    case Load => 5000
    case Exists => 5000
    case Store => 10000
    case Delete => 3000
    case SendDero => 70000
    case SendAsset => 90000
    case Pure(id) => env.cost(id)
  }

  function Arity(env: Machine, f: Builtin): nat {
    match f
    case Load => 1
    case Exists => 1
    case Store => 2
    case Delete => 1
    case SendDero => 2
    case SendAsset => 3
    case Pure(id) => env.arity(id)
  }

  /** Exported functions start with a capital letter. */
  predicate Exported(name: string) {
    name != "" && 'A' <= name[0] <= 'Z'
  }

  function Inverted(n: nat): Val
    requires n < UINT64
  {
    Uint64Var(UINT64 - 1 - n)
  }

  lemma {:induction false} LoadFits(raw: View, disk: View, key: Val)
    ensures LoadKey(raw, disk, key).Found? ==> Fits(LoadKey(raw, disk, key).v)
  {
    var k := Marshal(key);
    if k in raw { UnmarshalFits(raw[k]); } else if k in disk { UnmarshalFits(disk[k]); }
  }
}
