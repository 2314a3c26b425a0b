/** What contract programs mean, and what that costs. */
module Semantics {
  // Nothing here depends on limits: a program that has a meaning has a cost, which a node compares with its limits.

  import opened ChainState
  import opened Variables
  import opened Ledger
  import opened Dvm

  /** What a run reads and does not change. */
  datatype World = World(env: Machine, sc: Contract, disk: View)

  /** What a run has cost: gas, storage gas, lines and evaluations. */
  datatype Spent = Spent(gas: nat, store: nat, lines: nat, evals: nat)

  /** What a run has written and sent, and what it has cost. */
  datatype Memory = Memory(raw: View, sent: seq<Transfer>, spent: Spent)

  /** What a node allows; gas is limited only where it is checked. */
  datatype Limits = Limits(gas: Option<nat>, store: Option<nat>)

  predicate Allows(l: Limits, s: Spent) {
    && (l.gas.Some? ==> s.gas <= l.gas.value) && (l.store.Some? ==> s.store <= l.store.value)
    && s.lines <= LIMIT_LINES && s.evals <= LIMIT_EVALS
  }

  predicate AtLeast(s: Spent, t: Spent) {
    s.gas >= t.gas && s.store >= t.store && s.lines >= t.lines && s.evals >= t.evals
  }

  /** Every evaluation is counted. */
  function Counted(m: Memory): (r: Memory)
    ensures AtLeast(r.spent, m.spent)
  {
    m.(spent := m.spent.(evals := m.spent.evals + 1))
  }

  /** Operators and built-in functions cost gas. */
  function Begun(w: World, e: Expr, m: Memory): (r: Memory)
    ensures AtLeast(r.spent, m.spent)
  {
    var gas := match e case Binary(_, _, _) => BINARY_GAS case Internal(f, _) => Cost(w.env, f) case _ => 0;
    Counted(m).(spent := Counted(m).spent.(gas := m.spent.gas + gas))
  }

  /** Every line costs gas, and every line passed over is counted. */
  ghost function Reached(f: Function, ip: nat, newip: nat, at: nat, m: Memory): (r: Memory)
    ensures AtLeast(r.spent, m.spent)
  {
    m.(spent := m.spent.(gas := m.spent.gas + LINE_GAS, lines := m.spent.lines + Passed(f, ip, newip, at)))
  }

  ghost function Passed(f: Function, ip: nat, newip: nat, at: nat): nat {
    if newip == 0 then |set n | n in f.lines && ip < n <= at| else 1
  }

  /** Reading costs a tenth of the length, and at least 1. */
  function ReadAs(m: Memory, v: Option<Variable>): (r: Memory)
    ensures AtLeast(r.spent, m.spent)
  {
    var length := if v.Some? then Length(v.value) else 0;
    m.(spent := m.spent.(store := m.spent.store + if length > 10 then length / 10 else 1))
  }

  /** Writing costs 1 per byte. */
  function Wrote(m: Memory, k: Bytes, b: Bytes): (r: Memory)
    ensures AtLeast(r.spent, m.spent)
  {
    m.(raw := m.raw[k := b], spent := m.spent.(store := m.spent.store + |b|))
  }

  type Locals = map<string, Val>

  /** How a line ends: with the line to go to (0 for the next one), or with the result of the function. */
  datatype Flow = Jump(target: nat, locals: Locals, m: Memory) | Finish(v: Value, m: Memory)

  function Negated(v: Val): Val {
    if v.Uint64Var? then Inverted(v.n) else Truth(IsZero(v))
  }

  // ---------- built-in functions ----------

  function Loaded(w: World, key: Val, m: Memory): Option<(Value, Memory)> {
    LoadFits(m.raw, w.disk, key);
    match LoadKey(m.raw, w.disk, key)
    case Found(v) => Some((Just(v), ReadAs(m, Some(v))))
    case _ => None
  }

  function Existing(w: World, key: Val, m: Memory): Option<(Value, Memory)> {
    LoadFits(m.raw, w.disk, key);
    match LoadKey(m.raw, w.disk, key)
    case Found(v) => Some((Just(Truth(true)), ReadAs(m, Some(v))))
    case Missing => Some((Just(Truth(false)), ReadAs(m, None)))
    case LoadPanic => None
  }

  /** An amount is sent to the bytes of an address; an amount of 0 to nobody. */
  function SentTo(w: World, address: Value, amount: Value, asset: Value, m: Memory): Option<(Value, Memory)> {
    if address.Nil? || amount.Nil? || asset.Nil? then None
    else if !address.v.StringVar? || !amount.v.Uint64Var? || !asset.v.StringVar? then None
    else if !w.env.isAddress(address.v.s) then None
    else if amount.v.n == 0 then Some((amount, m))
    else if |asset.v.s| != HASH_LENGTH then None
    else Some((amount, m.(sent := m.sent + [Transfer(asset.v.s, address.v.s, amount.v.n)])))
  }

  function Performed(w: World, f: Builtin, args: seq<Value>, m: Memory): Option<(Value, Memory)>
    requires |args| == Arity(w.env, f)
  {
    match f
    case Load => if args[0].Nil? then None else Loaded(w, args[0].v, m)
    case Exists => if args[0].Nil? then None else Existing(w, args[0].v, m)
    case Store =>
      if args[0].Nil? || args[1].Nil? then None
      else Some((Just(Truth(true)), Wrote(m, Marshal(args[0].v), Marshal(args[1].v))))
    case Delete =>
      if args[0].Nil? then None else Some((Just(Truth(true)), Wrote(m, Marshal(args[0].v), [])))
    case SendDero => SentTo(w, args[0], args[1], Just(StringVar(ZERO_ID)), m)
    case SendAsset => SentTo(w, args[0], args[1], args[2], m)
    case Pure(id) =>
      match w.env.run(id, args)
      case None => None
      case Some(v) => Some((v, m))
  }

  // ---------- parameters and lines ----------

  /** Every parameter gets a value of its type. */
  predicate Suits(params: seq<Param>, vals: seq<Value>) {
    |params| == |vals| && forall i :: 0 <= i < |vals| ==> vals[i].Just? && TypeOf(vals[i].v) == params[i].ty
  }

  function Named(params: seq<Param>, vals: seq<Value>): (r: Locals)
    requires Suits(params, vals)
    ensures forall i :: 0 <= i < |params| ==> params[i].name in r
  {
    if vals == [] then map[]
    else
      var k := |vals| - 1;
      Named(params[..k], vals[..k])[params[k].name := vals[k].v]
  }

  /** Every parameter is among the arguments, with its type. */
  predicate Supplied(params: seq<Param>, arguments: Locals) {
    forall i :: 0 <= i < |params| ==> params[i].name in arguments && TypeOf(arguments[params[i].name]) == params[i].ty
  }

  /** The arguments that are parameters. */
  function Chosen(params: seq<Param>, arguments: Locals): Locals {
    map i | 0 <= i < |params| && params[i].name in arguments :: params[i].name := arguments[params[i].name]
  }

  /** The next line that is not blank. */
  ghost predicate Follows(f: Function, ip: nat, at: nat) {
    && ip < at && at in f.lines && f.lines[at] != Blank
    && forall n :: n in f.lines && ip < n < at ==> f.lines[n] == Blank
  }

  /** Where execution goes on after line `ip`: at the target of the jump, or at the next line. */
  ghost predicate GoesOn(f: Function, ip: nat, newip: nat, at: nat) {
    if newip == 0 then Follows(f, ip, at) else at == newip && at in f.lines && f.lines[at] != Blank
  }

  lemma {:induction false} OneWayOn(f: Function, ip: nat, newip: nat, a: nat, b: nat)
    requires GoesOn(f, ip, newip, a) && GoesOn(f, ip, newip, b)
    ensures a == b
  {
  }

  /** The variables of a DIM line are new and differ. */
  predicate AllNew(names: seq<string>, locals: Locals) {
    && (forall i :: 0 <= i < |names| ==> names[i] !in locals)
    && (forall i, j :: 0 <= i < j < |names| ==> names[i] != names[j])
  }

  function Declared(names: seq<string>, ty: Type, locals: Locals): Locals
    requires ty != TNone
  {
    locals + map name | name in names :: Zero(ty)
  }

  predicate LineNumber(n: nat) {
    n != 0 && n != MAX_UINT64
  }

  // ---------- programs ----------

  function Combined(op: Op, l: Value, r: Value, m: Memory): Option<(Value, Memory)> {
    match BinaryResult(op, l, r)
    case None => None
    case Some(v) => Some((Just(v), m))
  }

  // Each of these is the meaning as far as it shows within `n` levels of nesting and lines.

  ghost function EvalAt(w: World, locals: Locals, e: Expr, m0: Memory, n: nat): Option<(Value, Memory)>
    decreases n, 0
  {
    if n == 0 then None
    else
      var m := Begun(w, e, m0);
      match e
      case Lit(v) => Some((Just(v), m))
      case Ident(name) => if name in locals then Some((Just(locals[name]), m)) else None
      case Paren(x) => EvalAt(w, locals, x, m, n - 1)
      case Complement(x) =>
        (match EvalAt(w, locals, x, m, n - 1)
         case None => None
         case Some(p) => if p.0.Just? && p.0.v.Uint64Var? then Some((Just(Inverted(p.0.v.n)), p.1)) else None)
      case Not(x) =>
        (match EvalAt(w, locals, x, m, n - 1)
         case None => None
         case Some(p) => if p.0.Just? then Some((Just(Negated(p.0.v)), p.1)) else None)
      case Binary(op, x, y) =>
        (match EvalAt(w, locals, x, m, n - 1)
         case None => None
         case Some(p) =>
           match EvalAt(w, locals, y, p.1, n - 1)
           case None => None
           case Some(q) => Combined(op, p.0, q.0, q.1))
      case Internal(f, args) =>
        if |args| != Arity(w.env, f) then None
        else
          (match ArgsAt(w, locals, args, m, n - 1)
           case None => None
           case Some(p) => Performed(w, f, p.0, p.1))
      case Call(name, args) =>
        if name !in w.sc then None
        else
          (match ArgsAt(w, locals, args, m, n - 1)
           case None => None
           case Some(p) =>
             if Suits(w.sc[name].params, p.0) then CallAt(w, name, Named(w.sc[name].params, p.0), p.1, n - 1) else None)
      case Unknown => None
  }

  /** Arguments from left to right. */
  ghost function ArgsAt(w: World, locals: Locals, args: seq<Expr>, m: Memory, n: nat): (r: Option<(seq<Value>, Memory)>)
    ensures r.Some? ==> |r.value.0| == |args|
    decreases n, 1, |args|
  {
    if args == [] then Some(([], m))
    else
      match ArgsAt(w, locals, args[..|args| - 1], m, n)
      case None => None
      case Some(p) =>
        match EvalAt(w, locals, args[|args| - 1], p.1, n)
        case None => None
        case Some(q) => Some((p.0 + [q.0], q.1))
  }

  ghost function StmtAt(w: World, f: Function, locals: Locals, stmt: Stmt, m: Memory, n: nat): Option<Flow>
    decreases n, 2
  {
    match stmt
    case Blank => None
    case Malformed => None
    case Print => Some(Jump(0, locals, m))
    case Dim(names, ty) => if ty != TNone && AllNew(names, locals) then Some(Jump(0, Declared(names, ty, locals), m)) else None
    case Let(name, e) =>
      (match EvalAt(w, locals, e, m, n)
       case None => None
       case Some(p) =>
         if name in locals && p.0.Just? && TypeOf(p.0.v) == TypeOf(locals[name]) then Some(Jump(0, locals[name := p.0.v], p.1))
         else None)
    case Goto(target) => if LineNumber(target) then Some(Jump(target, locals, m)) else None
    case If(e, thenLine, elseLine) =>
      if !LineNumber(thenLine) || (elseLine.Some? && !LineNumber(elseLine.value)) then None
      else
        (match EvalAt(w, locals, e, m, n)
         case None => None
         case Some(p) =>
           if p.0.Nil? || !p.0.v.Uint64Var? then None
           else if p.0.v.n != 0 then Some(Jump(thenLine, locals, p.1))
           else Some(Jump(if elseLine.Some? then elseLine.value else 0, locals, p.1)))
    case Do(e) =>
      if !(e.Call? || e.Internal?) then None
      else
        (match EvalAt(w, locals, e, m, n)
         case None => None
         case Some(p) => Some(Jump(0, locals, p.1)))
    case Return(e) =>
      if f.ret == TNone then if e == None then Some(Finish(Nil, m)) else None
      else if e == None then None
      else
        match EvalAt(w, locals, e.value, m, n)
        case None => None
        case Some(p) => if p.0.Just? && TypeOf(p.0.v) == f.ret then Some(Finish(p.0, p.1)) else None
  }

  /** The lines from the one after `ip`, or from `newip`, until a RETURN. */
  ghost function LinesAt(w: World, f: Function, locals: Locals, ip: nat, newip: nat, m: Memory, n: nat): Option<(Value, Memory)>
    decreases n, 3
  {
    if n == 0 || !exists at: nat :: GoesOn(f, ip, newip, at) then None
    else
      var at: nat :| GoesOn(f, ip, newip, at);
      match StmtAt(w, f, locals, f.lines[at], Reached(f, ip, newip, at, m), n - 1)
      case None => None
      case Some(Finish(v, r)) => Some((v, r))
      case Some(Jump(target, next, r)) => LinesAt(w, f, next, at, target, r, n - 1)
  }

  ghost function CallAt(w: World, name: string, arguments: Locals, m: Memory, n: nat): Option<(Value, Memory)>
    decreases n, 4
  {
    if name in w.sc && Supplied(w.sc[name].params, arguments) then
      LinesAt(w, w.sc[name], Chosen(w.sc[name].params, arguments), 0, 0, m, n)
    else None
  }

  // ---------- more levels show no other meaning ----------

  lemma {:induction false} EvalUp(w: World, locals: Locals, e: Expr, m: Memory, n: nat)
    requires EvalAt(w, locals, e, m, n).Some?
    ensures EvalAt(w, locals, e, m, n + 1) == EvalAt(w, locals, e, m, n)
    decreases n, 0, 1
  {
    hide ArgsAt, CallAt, Named, Suits, BinaryResult, Performed, Arity, Combined, Negated, Inverted, Begun;
    match e
    case Paren(x) => EvalUp(w, locals, x, Begun(w, e, m), n - 1);
    case Complement(x) => EvalUp(w, locals, x, Begun(w, e, m), n - 1);
    case Not(x) => EvalUp(w, locals, x, Begun(w, e, m), n - 1);
    case Binary(op, x, y) =>
      EvalUp(w, locals, x, Begun(w, e, m), n - 1);
      EvalUp(w, locals, y, EvalAt(w, locals, x, Begun(w, e, m), n - 1).value.1, n - 1);
    case Internal(_, _) => WithArgsUp(w, locals, e, m, n);
    case Call(_, _) => WithArgsUp(w, locals, e, m, n);
    case _ =>
  }

  lemma {:induction false} WithArgsUp(w: World, locals: Locals, e: Expr, m: Memory, n: nat)
    requires (e.Internal? || e.Call?) && EvalAt(w, locals, e, m, n).Some?
    ensures EvalAt(w, locals, e, m, n + 1) == EvalAt(w, locals, e, m, n)
    decreases n, 0, 0
  {
    hide ArgsAt, CallAt, Named, Suits, BinaryResult, Performed, Arity, Combined, Negated, Inverted, Begun;
    ArgsUp(w, locals, e.args, Begun(w, e, m), n - 1);
    if e.Call? {
      var p := ArgsAt(w, locals, e.args, Begun(w, e, m), n - 1).value;
      CallUp(w, e.name, Named(w.sc[e.name].params, p.0), p.1, n - 1);
    }
  }

  lemma {:induction false} ArgsUp(w: World, locals: Locals, args: seq<Expr>, m: Memory, n: nat)
    requires ArgsAt(w, locals, args, m, n).Some?
    ensures ArgsAt(w, locals, args, m, n + 1) == ArgsAt(w, locals, args, m, n)
    decreases n, 1, |args|
  {
    if args != [] {
      ArgsUp(w, locals, args[..|args| - 1], m, n);
      EvalUp(w, locals, args[|args| - 1], ArgsAt(w, locals, args[..|args| - 1], m, n).value.1, n);
    }
  }

  lemma {:induction false} StmtUp(w: World, f: Function, locals: Locals, stmt: Stmt, m: Memory, n: nat)
    requires StmtAt(w, f, locals, stmt, m, n).Some?
    ensures StmtAt(w, f, locals, stmt, m, n + 1) == StmtAt(w, f, locals, stmt, m, n)
    decreases n, 2
  {
    match stmt
    case Let(_, e) => EvalUp(w, locals, e, m, n);
    case If(e, _, _) => EvalUp(w, locals, e, m, n);
    case Do(e) => EvalUp(w, locals, e, m, n);
    case Return(e) => if f.ret != TNone { EvalUp(w, locals, e.value, m, n); }
    case _ =>
  }

  lemma {:induction false} LinesUp(w: World, f: Function, locals: Locals, ip: nat, newip: nat, m: Memory, n: nat)
    requires LinesAt(w, f, locals, ip, newip, m, n).Some?
    ensures LinesAt(w, f, locals, ip, newip, m, n + 1) == LinesAt(w, f, locals, ip, newip, m, n)
    decreases n, 3
  {
    hide Reached, StmtAt;
    var at: nat :| GoesOn(f, ip, newip, at);
    LineStep(w, f, locals, ip, newip, at, m, n);
    LineStep(w, f, locals, ip, newip, at, m, n + 1);
    var m1 := Reached(f, ip, newip, at, m);
    StmtUp(w, f, locals, f.lines[at], m1, n - 1);
    var flow := StmtAt(w, f, locals, f.lines[at], m1, n - 1).value;
    if flow.Jump? { LinesUp(w, f, flow.locals, at, flow.target, flow.m, n - 1); }
  }

  lemma {:induction false} CallUp(w: World, name: string, arguments: Locals, m: Memory, n: nat)
    requires CallAt(w, name, arguments, m, n).Some?
    ensures CallAt(w, name, arguments, m, n + 1) == CallAt(w, name, arguments, m, n)
    decreases n, 4
  {
    LinesUp(w, w.sc[name], Chosen(w.sc[name].params, arguments), 0, 0, m, n);
  }

  /** One line and then the rest. */
  lemma {:induction false} LineStep(w: World, f: Function, locals: Locals, ip: nat, newip: nat, at: nat, m: Memory, n: nat)
    requires n > 0 && GoesOn(f, ip, newip, at)
    ensures LinesAt(w, f, locals, ip, newip, m, n) ==
      match StmtAt(w, f, locals, f.lines[at], Reached(f, ip, newip, at, m), n - 1)
      case None => None
      case Some(Finish(v, r)) => Some((v, r))
      case Some(Jump(target, next, r)) => LinesAt(w, f, next, at, target, r, n - 1)
  {
    hide StmtAt, Follows, Reached;
    forall b | GoesOn(f, ip, newip, b) ensures b == at { OneWayOn(f, ip, newip, at, b); }
  }

  lemma {:induction false} EvalMore(w: World, locals: Locals, e: Expr, m: Memory, n: nat, k: nat)
    requires EvalAt(w, locals, e, m, n).Some? && n <= k
    ensures EvalAt(w, locals, e, m, k) == EvalAt(w, locals, e, m, n)
    decreases k - n
  {
    hide EvalAt;
    if n < k {
      EvalUp(w, locals, e, m, n);
      EvalMore(w, locals, e, m, n + 1, k);
    }
  }

  lemma {:induction false} ArgsMore(w: World, locals: Locals, args: seq<Expr>, m: Memory, n: nat, k: nat)
    requires ArgsAt(w, locals, args, m, n).Some? && n <= k
    ensures ArgsAt(w, locals, args, m, k) == ArgsAt(w, locals, args, m, n)
    decreases k - n
  {
    hide ArgsAt;
    if n < k {
      ArgsUp(w, locals, args, m, n);
      ArgsMore(w, locals, args, m, n + 1, k);
    }
  }

  lemma {:induction false} LinesMore(w: World, f: Function, locals: Locals, ip: nat, newip: nat, m: Memory, n: nat, k: nat)
    requires LinesAt(w, f, locals, ip, newip, m, n).Some? && n <= k
    ensures LinesAt(w, f, locals, ip, newip, m, k) == LinesAt(w, f, locals, ip, newip, m, n)
    decreases k - n
  {
    hide LinesAt;
    if n < k {
      LinesUp(w, f, locals, ip, newip, m, n);
      LinesMore(w, f, locals, ip, newip, m, n + 1, k);
    }
  }

  lemma {:induction false} CallMore(w: World, name: string, arguments: Locals, m: Memory, n: nat, k: nat)
    requires CallAt(w, name, arguments, m, n).Some? && n <= k
    ensures CallAt(w, name, arguments, m, k) == CallAt(w, name, arguments, m, n)
  {
    hide LinesAt;
    LinesMore(w, w.sc[name], Chosen(w.sc[name].params, arguments), 0, 0, m, n, k);
  }

  lemma {:induction false} StmtMore(w: World, f: Function, locals: Locals, stmt: Stmt, m: Memory, n: nat, k: nat)
    requires StmtAt(w, f, locals, stmt, m, n).Some? && n <= k
    ensures StmtAt(w, f, locals, stmt, m, k) == StmtAt(w, f, locals, stmt, m, n)
    decreases k - n
  {
    hide StmtAt;
    if n < k {
      StmtUp(w, f, locals, stmt, m, n);
      StmtMore(w, f, locals, stmt, m, n + 1, k);
    }
  }

  // ---------- costs only grow ----------

  lemma {:induction false} EvalGrows(w: World, locals: Locals, e: Expr, m: Memory, n: nat)
    requires EvalAt(w, locals, e, m, n).Some?
    ensures AtLeast(EvalAt(w, locals, e, m, n).value.1.spent, Begun(w, e, m).spent)
    decreases n, 0, 1
  {
    hide ArgsAt, CallAt, Named, Suits, BinaryResult, Performed, Arity, Negated, Inverted, Begun;
    match e
    case Paren(x) => EvalGrows(w, locals, x, Begun(w, e, m), n - 1);
    case Complement(x) => EvalGrows(w, locals, x, Begun(w, e, m), n - 1);
    case Not(x) => EvalGrows(w, locals, x, Begun(w, e, m), n - 1);
    case Binary(op, x, y) =>
      EvalGrows(w, locals, x, Begun(w, e, m), n - 1);
      EvalGrows(w, locals, y, EvalAt(w, locals, x, Begun(w, e, m), n - 1).value.1, n - 1);
    case Internal(_, _) => WithArgsGrows(w, locals, e, m, n);
    case Call(_, _) => WithArgsGrows(w, locals, e, m, n);
    case _ =>
  }

  lemma {:induction false} WithArgsGrows(w: World, locals: Locals, e: Expr, m: Memory, n: nat)
    requires (e.Internal? || e.Call?) && EvalAt(w, locals, e, m, n).Some?
    ensures AtLeast(EvalAt(w, locals, e, m, n).value.1.spent, Begun(w, e, m).spent)
    decreases n, 0, 0
  {
    hide ArgsAt, CallAt, Named, Suits, BinaryResult, Performed, Arity, Combined, Negated, Inverted, Begun;
    ArgsGrows(w, locals, e.args, Begun(w, e, m), n - 1);
    var p := ArgsAt(w, locals, e.args, Begun(w, e, m), n - 1).value;
    if e.Call? {
      CallGrows(w, e.name, Named(w.sc[e.name].params, p.0), p.1, n - 1);
    } else {
      PerformedGrows(w, e.f, p.0, p.1);
    }
  }

  lemma {:induction false} PerformedGrows(w: World, f: Builtin, args: seq<Value>, m: Memory)
    requires |args| == Arity(w.env, f) && Performed(w, f, args, m).Some?
    ensures AtLeast(Performed(w, f, args, m).value.1.spent, m.spent)
  {
    hide LoadKey, Marshal, Length;
  }

  lemma {:induction false} ArgsGrows(w: World, locals: Locals, args: seq<Expr>, m: Memory, n: nat)
    requires ArgsAt(w, locals, args, m, n).Some?
    ensures AtLeast(ArgsAt(w, locals, args, m, n).value.1.spent, m.spent)
    decreases n, 1, |args|
  {
    hide EvalAt, Begun;
    if args != [] {
      ArgsGrows(w, locals, args[..|args| - 1], m, n);
      EvalGrows(w, locals, args[|args| - 1], ArgsAt(w, locals, args[..|args| - 1], m, n).value.1, n);
    }
  }

  lemma {:induction false} StmtGrows(w: World, f: Function, locals: Locals, stmt: Stmt, m: Memory, n: nat)
    requires StmtAt(w, f, locals, stmt, m, n).Some?
    ensures AtLeast(StmtAt(w, f, locals, stmt, m, n).value.m.spent, m.spent)
    decreases n, 2
  {
    hide EvalAt, Begun, AllNew, Declared;
    match stmt
    case Let(_, e) => EvalGrows(w, locals, e, m, n);
    case If(e, _, _) => EvalGrows(w, locals, e, m, n);
    case Do(e) => EvalGrows(w, locals, e, m, n);
    case Return(e) => if f.ret != TNone { EvalGrows(w, locals, e.value, m, n); }
    case _ =>
  }

  lemma {:induction false} LinesGrows(w: World, f: Function, locals: Locals, ip: nat, newip: nat, m: Memory, n: nat)
    requires LinesAt(w, f, locals, ip, newip, m, n).Some?
    ensures AtLeast(LinesAt(w, f, locals, ip, newip, m, n).value.1.spent, m.spent)
    decreases n, 3
  {
    hide StmtAt, Reached;
    var at: nat :| GoesOn(f, ip, newip, at);
    LineStep(w, f, locals, ip, newip, at, m, n);
    var m1 := Reached(f, ip, newip, at, m);
    StmtGrows(w, f, locals, f.lines[at], m1, n - 1);
    var flow := StmtAt(w, f, locals, f.lines[at], m1, n - 1).value;
    if flow.Jump? { LinesGrows(w, f, flow.locals, at, flow.target, flow.m, n - 1); }
  }

  lemma {:induction false} CallGrows(w: World, name: string, arguments: Locals, m: Memory, n: nat)
    requires CallAt(w, name, arguments, m, n).Some?
    ensures AtLeast(CallAt(w, name, arguments, m, n).value.1.spent, m.spent)
    decreases n, 4
  {
    LinesGrows(w, w.sc[name], Chosen(w.sc[name].params, arguments), 0, 0, m, n);
  }

  // ---------- meaning ----------

  ghost predicate EvalEnds(w: World, locals: Locals, e: Expr, m: Memory) {
    exists n: nat :: EvalAt(w, locals, e, m, n).Some?
  }

  /** The call of a function gives this result, with these writes and transfers, at this cost. */
  ghost predicate Means(w: World, name: string, arguments: Locals, m: Memory, r: (Value, Memory)) {
    exists n: nat :: CallAt(w, name, arguments, m, n) == Some(r)
  }

  /** The call has a meaning, at a cost that the limits allow. */
  ghost predicate MeansWithin(l: Limits, w: World, name: string, arguments: Locals, m: Memory) {
    exists r :: Means(w, name, arguments, m, r) && Allows(l, r.1.spent)
  }

  /** A call means at most one thing. */
  lemma {:induction false} OneMeaning(w: World, name: string, arguments: Locals, m: Memory, r: (Value, Memory), r': (Value, Memory))
    requires Means(w, name, arguments, m, r) && Means(w, name, arguments, m, r')
    ensures r == r'
  {
    hide CallAt;
    var n: nat :| CallAt(w, name, arguments, m, n) == Some(r);
    var k: nat :| CallAt(w, name, arguments, m, k) == Some(r');
    CallMore(w, name, arguments, m, n, n + k);
    CallMore(w, name, arguments, m, k, n + k);
  }

  lemma {:induction false} EvalSame(w: World, locals: Locals, e: Expr, m: Memory, n: nat, k: nat)
    requires EvalAt(w, locals, e, m, n).Some? && EvalAt(w, locals, e, m, k).Some?
    ensures EvalAt(w, locals, e, m, n) == EvalAt(w, locals, e, m, k)
  {
    hide EvalAt;
    EvalMore(w, locals, e, m, n, n + k);
    EvalMore(w, locals, e, m, k, n + k);
  }

  lemma {:induction false} ArgsSame(w: World, locals: Locals, args: seq<Expr>, m: Memory, n: nat, k: nat)
    requires ArgsAt(w, locals, args, m, n).Some? && ArgsAt(w, locals, args, m, k).Some?
    ensures ArgsAt(w, locals, args, m, n) == ArgsAt(w, locals, args, m, k)
  {
    hide ArgsAt;
    ArgsMore(w, locals, args, m, n, n + k);
    ArgsMore(w, locals, args, m, k, n + k);
  }

  // ---------- beyond the limits ----------

  // Each of these has no meaning, or one that costs more than the limits allow.

  ghost predicate EvalOver(l: Limits, w: World, locals: Locals, e: Expr, m: Memory) {
    forall n: nat :: EvalAt(w, locals, e, m, n).Some? ==> !Allows(l, EvalAt(w, locals, e, m, n).value.1.spent)
  }

  ghost predicate ArgsOver(l: Limits, w: World, locals: Locals, args: seq<Expr>, m: Memory) {
    forall n: nat :: ArgsAt(w, locals, args, m, n).Some? ==> !Allows(l, ArgsAt(w, locals, args, m, n).value.1.spent)
  }

  ghost predicate StmtOver(l: Limits, w: World, f: Function, locals: Locals, stmt: Stmt, m: Memory) {
    forall n: nat :: StmtAt(w, f, locals, stmt, m, n).Some? ==> !Allows(l, StmtAt(w, f, locals, stmt, m, n).value.m.spent)
  }

  ghost predicate LinesOver(l: Limits, w: World, f: Function, locals: Locals, ip: nat, newip: nat, m: Memory) {
    forall n: nat :: LinesAt(w, f, locals, ip, newip, m, n).Some? ==>
      !Allows(l, LinesAt(w, f, locals, ip, newip, m, n).value.1.spent)
  }

  ghost predicate CallOver(l: Limits, w: World, name: string, arguments: Locals, m: Memory) {
    forall n: nat :: CallAt(w, name, arguments, m, n).Some? ==> !Allows(l, CallAt(w, name, arguments, m, n).value.1.spent)
  }

  lemma StaysOver(l: Limits, s: Spent, t: Spent)
    requires !Allows(l, s) && AtLeast(t, s)
    ensures !Allows(l, t)
  {
  }

  // ---------- expressions from their parts ----------

  /** What begins beyond the limits stays there. */
  lemma {:induction false} BegunOver(l: Limits, w: World, locals: Locals, e: Expr, m: Memory)
    requires !Allows(l, Begun(w, e, m).spent)
    ensures EvalOver(l, w, locals, e, m)
  {
    hide EvalAt, Begun;
    forall n: nat | EvalAt(w, locals, e, m, n).Some? ensures !Allows(l, EvalAt(w, locals, e, m, n).value.1.spent) {
      EvalGrows(w, locals, e, m, n);
    }
  }

  lemma {:induction false} LeafMeans(l: Limits, w: World, locals: Locals, e: Expr, m: Memory, n: nat)
    requires n > 0 && (e.Lit? || e.Ident? || e.Unknown?)
    ensures e.Lit? ==> EvalAt(w, locals, e, m, n) == Some((Just(e.v), Begun(w, e, m)))
    ensures e.Ident? && e.name in locals ==> EvalAt(w, locals, e, m, n) == Some((Just(locals[e.name]), Begun(w, e, m)))
    ensures e.Unknown? || (e.Ident? && e.name !in locals) ==> EvalOver(l, w, locals, e, m)
  {
    hide Begun;
  }

  predicate Unary(e: Expr, x: Expr) {
    e == Paren(x) || e == Complement(x) || e == Not(x)
  }

  /** What a unary operator gives. */
  function UnaryResult(e: Expr, v: Value): Option<Value> {
    match e
    case Paren(_) => Some(v)
    case Complement(_) => if v.Just? && v.v.Uint64Var? then Some(Just(Inverted(v.v.n))) else None
    case _ => if v.Just? then Some(Just(Negated(v.v))) else None
  }

  lemma {:induction false} UnaryAt(w: World, locals: Locals, e: Expr, x: Expr, m: Memory, i: nat, n: nat)
    requires Unary(e, x) && EvalAt(w, locals, x, Begun(w, e, m), i).Some? && i < n
    ensures var p := EvalAt(w, locals, x, Begun(w, e, m), i).value;
      EvalAt(w, locals, e, m, n) == match UnaryResult(e, p.0) case None => None case Some(v) => Some((v, p.1))
  {
    hide Begun, Inverted, Negated, ArgsAt, CallAt, Performed, Combined, Named, Suits, Arity;
    EvalMore(w, locals, x, Begun(w, e, m), i, n - 1);
  }

  /** The operand is beyond the limits, or the operator gives nothing. */
  lemma {:induction false} UnaryOver(l: Limits, w: World, locals: Locals, e: Expr, x: Expr, m: Memory, i: nat)
    requires Unary(e, x)
    requires EvalOver(l, w, locals, x, Begun(w, e, m))
      || (EvalAt(w, locals, x, Begun(w, e, m), i).Some? && UnaryResult(e, EvalAt(w, locals, x, Begun(w, e, m), i).value.0) == None)
    ensures EvalOver(l, w, locals, e, m)
  {
    hide Begun, Inverted, Negated, ArgsAt, CallAt, Performed, Combined, Named, Suits, Arity, Allows;
    var c := Begun(w, e, m);
    forall n: nat | EvalAt(w, locals, e, m, n).Some? ensures !Allows(l, EvalAt(w, locals, e, m, n).value.1.spent) {
      if !EvalOver(l, w, locals, x, c) { EvalSame(w, locals, x, c, i, n - 1); }
    }
  }

  lemma {:induction false} BinaryAt(w: World, locals: Locals, op: Op, x: Expr, y: Expr, m: Memory, i: nat, j: nat, n: nat)
    requires i < n && j < n && EvalAt(w, locals, x, Begun(w, Binary(op, x, y), m), i).Some?
    requires EvalAt(w, locals, y, EvalAt(w, locals, x, Begun(w, Binary(op, x, y), m), i).value.1, j).Some?
    ensures var p := EvalAt(w, locals, x, Begun(w, Binary(op, x, y), m), i).value;
      var q := EvalAt(w, locals, y, p.1, j).value;
      EvalAt(w, locals, Binary(op, x, y), m, n) == Combined(op, p.0, q.0, q.1)
  {
    hide BinaryResult, Combined, Begun, ArgsAt, CallAt, Performed, Named, Suits, Arity, Negated, Inverted;
    var c := Begun(w, Binary(op, x, y), m);
    EvalMore(w, locals, x, c, i, n - 1);
    EvalMore(w, locals, y, EvalAt(w, locals, x, c, i).value.1, j, n - 1);
  }

  lemma {:induction false} BinarySome(w: World, locals: Locals, op: Op, x: Expr, y: Expr, m: Memory, n: nat)
    requires EvalAt(w, locals, Binary(op, x, y), m, n).Some?
    ensures n > 0 && EvalAt(w, locals, x, Begun(w, Binary(op, x, y), m), n - 1).Some?
    ensures var p := EvalAt(w, locals, x, Begun(w, Binary(op, x, y), m), n - 1).value;
      && EvalAt(w, locals, y, p.1, n - 1).Some?
      && EvalAt(w, locals, Binary(op, x, y), m, n).value.1 == EvalAt(w, locals, y, p.1, n - 1).value.1
      && AtLeast(EvalAt(w, locals, y, p.1, n - 1).value.1.spent, p.1.spent)
  {
    hide BinaryResult, Begun, ArgsAt, CallAt, Performed, Named, Suits, Arity, Negated, Inverted;
    var p := EvalAt(w, locals, x, Begun(w, Binary(op, x, y), m), n - 1).value;
    EvalGrows(w, locals, y, p.1, n - 1);
  }

  /** One of the operands is beyond the limits. */
  lemma {:induction false} BinaryOver(l: Limits, w: World, locals: Locals, op: Op, x: Expr, y: Expr, m: Memory, i: nat)
    requires var c := Begun(w, Binary(op, x, y), m);
      || EvalOver(l, w, locals, x, c)
      || (EvalAt(w, locals, x, c, i).Some? && EvalOver(l, w, locals, y, EvalAt(w, locals, x, c, i).value.1))
    ensures EvalOver(l, w, locals, Binary(op, x, y), m)
  {
    hide EvalAt, Begun, Allows;
    var e, c := Binary(op, x, y), Begun(w, Binary(op, x, y), m);
    forall n: nat | EvalAt(w, locals, e, m, n).Some? ensures !Allows(l, EvalAt(w, locals, e, m, n).value.1.spent) {
      BinarySome(w, locals, op, x, y, m, n);
      var p := EvalAt(w, locals, x, c, n - 1).value;
      if EvalOver(l, w, locals, x, c) {
        StaysOver(l, p.1.spent, EvalAt(w, locals, y, p.1, n - 1).value.1.spent);
      } else {
        EvalSame(w, locals, x, c, i, n - 1);
      }
    }
  }

  /** A binary expression means what the operation gives on what its operands mean, if it gives something. */
  lemma {:induction false} BinaryMeans(w: World, locals: Locals, op: Op, x: Expr, y: Expr, m: Memory,
                                       i: nat, p: (Value, Memory), j: nat, q: (Value, Memory), n: nat)
    requires i < n && j < n && EvalAt(w, locals, x, Begun(w, Binary(op, x, y), m), i) == Some(p) && EvalAt(w, locals, y, p.1, j) == Some(q)
    ensures EvalEnds(w, locals, Binary(op, x, y), m) <==> BinaryResult(op, p.0, q.0).Some?
    ensures BinaryResult(op, p.0, q.0).Some? ==>
      EvalAt(w, locals, Binary(op, x, y), m, n) == Some((Just(BinaryResult(op, p.0, q.0).value), q.1))
  {
    hide BinaryResult, EvalAt, Begun;
    BinaryAt(w, locals, op, x, y, m, i, j, n);
    if EvalEnds(w, locals, Binary(op, x, y), m) {
      var k: nat :| EvalAt(w, locals, Binary(op, x, y), m, k).Some?;
      EvalMore(w, locals, Binary(op, x, y), m, k, n + k);
      BinaryAt(w, locals, op, x, y, m, i, j, n + k);
    }
  }

  lemma {:induction false} NoMeaning(l: Limits, w: World, locals: Locals, e: Expr, m: Memory)
    requires !EvalEnds(w, locals, e, m)
    ensures EvalOver(l, w, locals, e, m)
  {
    hide EvalAt;
  }

  lemma {:induction false} InternalAt(w: World, locals: Locals, f: Builtin, args: seq<Expr>, m: Memory, i: nat, n: nat)
    requires i < n && |args| == Arity(w.env, f) && ArgsAt(w, locals, args, Begun(w, Internal(f, args), m), i).Some?
    ensures var p := ArgsAt(w, locals, args, Begun(w, Internal(f, args), m), i).value;
      EvalAt(w, locals, Internal(f, args), m, n) == Performed(w, f, p.0, p.1)
  {
    hide ArgsAt, Performed, Arity, Begun;
    ArgsMore(w, locals, args, Begun(w, Internal(f, args), m), i, n - 1);
  }

  lemma {:induction false} InternalSome(w: World, locals: Locals, f: Builtin, args: seq<Expr>, m: Memory, n: nat)
    requires EvalAt(w, locals, Internal(f, args), m, n).Some?
    ensures n > 0 && |args| == Arity(w.env, f) && ArgsAt(w, locals, args, Begun(w, Internal(f, args), m), n - 1).Some?
    ensures var p := ArgsAt(w, locals, args, Begun(w, Internal(f, args), m), n - 1).value;
      && EvalAt(w, locals, Internal(f, args), m, n) == Performed(w, f, p.0, p.1)
      && AtLeast(Performed(w, f, p.0, p.1).value.1.spent, p.1.spent)
  {
    hide ArgsAt, Performed, Arity, Begun;
    var p := ArgsAt(w, locals, args, Begun(w, Internal(f, args), m), n - 1).value;
    PerformedGrows(w, f, p.0, p.1);
  }

  /** The number of arguments is wrong, the arguments are beyond the limits, or the effect is, or there is none. */
  lemma {:induction false} InternalOver(l: Limits, w: World, locals: Locals, f: Builtin, args: seq<Expr>, m: Memory, i: nat)
    requires var c := Begun(w, Internal(f, args), m);
      || |args| != Arity(w.env, f) || ArgsOver(l, w, locals, args, c)
      || (ArgsAt(w, locals, args, c, i).Some? &&
          var p := ArgsAt(w, locals, args, c, i).value;
          Performed(w, f, p.0, p.1).Some? ==> !Allows(l, Performed(w, f, p.0, p.1).value.1.spent))
    ensures EvalOver(l, w, locals, Internal(f, args), m)
  {
    hide EvalAt, ArgsAt, Performed, Arity, Begun, Allows;
    var e, c := Internal(f, args), Begun(w, Internal(f, args), m);
    forall n: nat | EvalAt(w, locals, e, m, n).Some? ensures !Allows(l, EvalAt(w, locals, e, m, n).value.1.spent) {
      InternalSome(w, locals, f, args, m, n);
      var p := ArgsAt(w, locals, args, c, n - 1).value;
      if ArgsOver(l, w, locals, args, c) {
        StaysOver(l, p.1.spent, Performed(w, f, p.0, p.1).value.1.spent);
      } else {
        ArgsSame(w, locals, args, c, i, n - 1);
      }
    }
  }

  // ---------- arguments ----------

  lemma {:induction false} ArgsNext(w: World, locals: Locals, args: seq<Expr>, m: Memory, k: nat, i: nat, j: nat, n: nat)
    requires k < |args| && i <= n && j <= n && ArgsAt(w, locals, args[..k], m, i).Some?
    requires EvalAt(w, locals, args[k], ArgsAt(w, locals, args[..k], m, i).value.1, j).Some?
    ensures var p := ArgsAt(w, locals, args[..k], m, i).value;
      var q := EvalAt(w, locals, args[k], p.1, j).value;
      ArgsAt(w, locals, args[..k + 1], m, n) == Some((p.0 + [q.0], q.1))
  {
    hide EvalAt;
    ArgsMore(w, locals, args[..k], m, i, n);
    EvalMore(w, locals, args[k], ArgsAt(w, locals, args[..k], m, i).value.1, j, n);
    assert args[..k + 1][..k] == args[..k];
  }

  lemma {:induction false} ArgsSplit(w: World, locals: Locals, args: seq<Expr>, m: Memory, k: nat, n: nat)
    requires k < |args| && ArgsAt(w, locals, args, m, n).Some?
    ensures ArgsAt(w, locals, args[..k], m, n).Some?
    ensures EvalAt(w, locals, args[k], ArgsAt(w, locals, args[..k], m, n).value.1, n).Some?
    ensures var q := EvalAt(w, locals, args[k], ArgsAt(w, locals, args[..k], m, n).value.1, n).value;
      q.0 == ArgsAt(w, locals, args, m, n).value.0[k] && AtLeast(ArgsAt(w, locals, args, m, n).value.1.spent, q.1.spent)
    decreases |args|
  {
    hide EvalAt, Begun;
    if k < |args| - 1 {
      ArgsSplit(w, locals, args[..|args| - 1], m, k, n);
      assert args[..|args| - 1][..k] == args[..k];
      EvalGrows(w, locals, args[|args| - 1], ArgsAt(w, locals, args[..|args| - 1], m, n).value.1, n);
    }
  }

  /** An argument is beyond the limits. */
  lemma {:induction false} ArgsPartOver(l: Limits, w: World, locals: Locals, args: seq<Expr>, m: Memory, k: nat, i: nat)
    requires k < |args| && ArgsAt(w, locals, args[..k], m, i).Some?
    requires EvalOver(l, w, locals, args[k], ArgsAt(w, locals, args[..k], m, i).value.1)
    ensures ArgsOver(l, w, locals, args, m)
  {
    hide EvalAt, ArgsAt, Allows;
    forall n: nat | ArgsAt(w, locals, args, m, n).Some? ensures !Allows(l, ArgsAt(w, locals, args, m, n).value.1.spent) {
      ArgsSplit(w, locals, args, m, k, n);
      ArgsSame(w, locals, args[..k], m, i, n);
      var q := EvalAt(w, locals, args[k], ArgsAt(w, locals, args[..k], m, n).value.1, n).value;
      StaysOver(l, q.1.spent, ArgsAt(w, locals, args, m, n).value.1.spent);
    }
  }

  /** What an argument means is what stands at its place. */
  lemma {:induction false} ArgsPart(w: World, locals: Locals, args: seq<Expr>, m: Memory, k: nat, i: nat, j: nat, n: nat)
    requires k < |args| && ArgsAt(w, locals, args, m, n).Some? && ArgsAt(w, locals, args[..k], m, i).Some?
    requires EvalAt(w, locals, args[k], ArgsAt(w, locals, args[..k], m, i).value.1, j).Some?
    ensures EvalAt(w, locals, args[k], ArgsAt(w, locals, args[..k], m, i).value.1, j).value.0 == ArgsAt(w, locals, args, m, n).value.0[k]
  {
    hide EvalAt, ArgsAt;
    ArgsSplit(w, locals, args, m, k, n);
    ArgsSame(w, locals, args[..k], m, i, n);
    EvalSame(w, locals, args[k], ArgsAt(w, locals, args[..k], m, i).value.1, j, n);
  }

  // ---------- calls ----------

  lemma {:induction false} NestedAt(w: World, locals: Locals, name: string, args: seq<Expr>, m: Memory, i: nat, j: nat, n: nat)
    requires i < n && j < n && name in w.sc && ArgsAt(w, locals, args, Begun(w, Call(name, args), m), i).Some?
    requires var p := ArgsAt(w, locals, args, Begun(w, Call(name, args), m), i).value;
      Suits(w.sc[name].params, p.0) && CallAt(w, name, Named(w.sc[name].params, p.0), p.1, j).Some?
    ensures var p := ArgsAt(w, locals, args, Begun(w, Call(name, args), m), i).value;
      EvalAt(w, locals, Call(name, args), m, n) == CallAt(w, name, Named(w.sc[name].params, p.0), p.1, j)
  {
    hide ArgsAt, CallAt, Named, Suits, Begun;
    var c := Begun(w, Call(name, args), m);
    ArgsMore(w, locals, args, c, i, n - 1);
    var p := ArgsAt(w, locals, args, c, i).value;
    CallMore(w, name, Named(w.sc[name].params, p.0), p.1, j, n - 1);
  }

  lemma {:induction false} NestedSome(w: World, locals: Locals, name: string, args: seq<Expr>, m: Memory, n: nat)
    requires EvalAt(w, locals, Call(name, args), m, n).Some?
    ensures n > 0 && name in w.sc && ArgsAt(w, locals, args, Begun(w, Call(name, args), m), n - 1).Some?
    ensures var p := ArgsAt(w, locals, args, Begun(w, Call(name, args), m), n - 1).value;
      && Suits(w.sc[name].params, p.0) && CallAt(w, name, Named(w.sc[name].params, p.0), p.1, n - 1).Some?
      && EvalAt(w, locals, Call(name, args), m, n) == CallAt(w, name, Named(w.sc[name].params, p.0), p.1, n - 1)
      && AtLeast(EvalAt(w, locals, Call(name, args), m, n).value.1.spent, p.1.spent)
  {
    hide ArgsAt, CallAt, Named, Suits, Begun;
    var p := ArgsAt(w, locals, args, Begun(w, Call(name, args), m), n - 1).value;
    CallGrows(w, name, Named(w.sc[name].params, p.0), p.1, n - 1);
  }

  /** The function is missing, or has another number of parameters, or the arguments are beyond the limits. */
  lemma {:induction false} NestedArgsOver(l: Limits, w: World, locals: Locals, name: string, args: seq<Expr>, m: Memory)
    requires name !in w.sc || |w.sc[name].params| != |args| || ArgsOver(l, w, locals, args, Begun(w, Call(name, args), m))
    ensures EvalOver(l, w, locals, Call(name, args), m)
  {
    hide EvalAt, ArgsAt, CallAt, Named, Begun, Allows;
    var e, c := Call(name, args), Begun(w, Call(name, args), m);
    forall n: nat | EvalAt(w, locals, e, m, n).Some? ensures !Allows(l, EvalAt(w, locals, e, m, n).value.1.spent) {
      NestedSome(w, locals, name, args, m, n);
      StaysOver(l, ArgsAt(w, locals, args, c, n - 1).value.1.spent, EvalAt(w, locals, e, m, n).value.1.spent);
    }
  }

  /** An argument is no value of the type of its parameter. */
  lemma {:induction false} NestedTypeOver(l: Limits, w: World, locals: Locals, name: string, args: seq<Expr>, m: Memory, k: nat, i: nat, j: nat)
    requires name in w.sc && |w.sc[name].params| == |args| && k < |args|
    requires var c := Begun(w, Call(name, args), m);
      && ArgsAt(w, locals, args[..k], c, i).Some?
      && EvalAt(w, locals, args[k], ArgsAt(w, locals, args[..k], c, i).value.1, j).Some?
      && var v := EvalAt(w, locals, args[k], ArgsAt(w, locals, args[..k], c, i).value.1, j).value.0;
      v.Nil? || TypeOf(v.v) != w.sc[name].params[k].ty
    ensures EvalOver(l, w, locals, Call(name, args), m)
  {
    hide EvalAt, ArgsAt, CallAt, Named, Begun, Allows, TypeOf;
    var e, c := Call(name, args), Begun(w, Call(name, args), m);
    forall n: nat ensures EvalAt(w, locals, e, m, n) == None {
      if EvalAt(w, locals, e, m, n).Some? {
        NestedSome(w, locals, name, args, m, n);
        ArgsPart(w, locals, args, c, k, i, j, n - 1);
      }
    }
  }

  /** The called function is beyond the limits. */
  lemma {:induction false} NestedOver(l: Limits, w: World, locals: Locals, name: string, args: seq<Expr>, m: Memory, i: nat)
    requires name in w.sc && ArgsAt(w, locals, args, Begun(w, Call(name, args), m), i).Some?
    requires var p := ArgsAt(w, locals, args, Begun(w, Call(name, args), m), i).value;
      Suits(w.sc[name].params, p.0) && CallOver(l, w, name, Named(w.sc[name].params, p.0), p.1)
    ensures EvalOver(l, w, locals, Call(name, args), m)
  {
    hide EvalAt, ArgsAt, CallAt, Named, Begun, Allows, Suits;
    var e, c := Call(name, args), Begun(w, Call(name, args), m);
    forall n: nat | EvalAt(w, locals, e, m, n).Some? ensures !Allows(l, EvalAt(w, locals, e, m, n).value.1.spent) {
      NestedSome(w, locals, name, args, m, n);
      ArgsSame(w, locals, args, c, i, n - 1);
    }
  }

  lemma {:induction false} ChosenNext(params: seq<Param>, arguments: Locals, i: nat)
    requires i < |params| && Supplied(params[..i], arguments)
    requires params[i].name in arguments && TypeOf(arguments[params[i].name]) == params[i].ty
    ensures Supplied(params[..i + 1], arguments)
    ensures Chosen(params[..i + 1], arguments) == Chosen(params[..i], arguments)[params[i].name := arguments[params[i].name]]
  {
    assert params[..i + 1] == params[..i] + [params[i]];
    var c := Chosen(params[..i + 1], arguments);
    assert params[..i + 1][i].name in c;
    forall k | 0 <= k < i ensures params[..i][k].name in c { assert params[..i + 1][k].name in c; }
  }

  /** An argument is missing, or the lines are beyond the limits. */
  lemma {:induction false} CallLinesOver(l: Limits, w: World, name: string, arguments: Locals, m: Memory)
    requires name !in w.sc || !Supplied(w.sc[name].params, arguments)
      || LinesOver(l, w, w.sc[name], Chosen(w.sc[name].params, arguments), 0, 0, m)
    ensures CallOver(l, w, name, arguments, m)
  {
    hide LinesAt, Supplied, Chosen, Allows;
    forall n: nat | CallAt(w, name, arguments, m, n).Some? ensures !Allows(l, CallAt(w, name, arguments, m, n).value.1.spent) {
      assert CallAt(w, name, arguments, m, n) == LinesAt(w, w.sc[name], Chosen(w.sc[name].params, arguments), 0, 0, m, n);
    }
  }

  lemma {:induction false} NoneNamed()
    ensures Suits([], []) && Named([], []) == map[]
  {
  }

  lemma {:induction false} NamedNext(params: seq<Param>, vals: seq<Value>, i: nat, v: Value)
    requires i < |params| && Suits(params[..i], vals) && v.Just? && TypeOf(v.v) == params[i].ty
    ensures Suits(params[..i + 1], vals + [v])
    ensures Named(params[..i + 1], vals + [v]) == Named(params[..i], vals)[params[i].name := v.v]
  {
    assert params[..i + 1][..i] == params[..i] && (vals + [v])[..i] == vals;
  }

  // ---------- lines ----------

  lemma {:induction false} NewNext(names: seq<string>, locals: Locals, i: nat)
    requires i < |names| && AllNew(names[..i], locals)
    ensures AllNew(names[..i + 1], locals) <==> names[i] !in locals && names[i] !in names[..i]
  {
    var a, b := names[..i], names[..i + 1];
    assert b[i] == names[i] && forall k :: 0 <= k < i ==> a[k] == b[k];
    if names[i] in a {
      var k: nat :| k < i && a[k] == names[i];
      assert b[k] == b[i];
    }
  }

  lemma {:induction false} DeclaredNext(names: seq<string>, ty: Type, locals: Locals, i: nat)
    requires ty != TNone && i < |names|
    ensures Declared(names[..i + 1], ty, locals) == Declared(names[..i], ty, locals)[names[i] := Zero(ty)]
  {
    forall name ensures name in names[..i + 1] <==> name in names[..i] || name == names[i] { InNext(names, i, name); }
  }

  lemma InNext(names: seq<string>, i: nat, name: string)
    requires i < |names|
    ensures name in names[..i + 1] <==> name in names[..i] || name == names[i]
  {
    assert names[..i + 1] == names[..i] + [names[i]];
  }

  lemma {:induction false} NewParts(names: seq<string>, locals: Locals, i: nat)
    requires i <= |names| && AllNew(names, locals)
    ensures AllNew(names[..i], locals)
  {
  }

  lemma {:induction false} DeclaredIn(names: seq<string>, ty: Type, locals: Locals, name: string)
    requires ty != TNone
    ensures name in Declared(names, ty, locals) <==> name in locals || name in names
  {
  }

  lemma {:induction false} NoneDeclared(ty: Type, locals: Locals)
    requires ty != TNone
    ensures AllNew([], locals) && Declared([], ty, locals) == locals
  {
  }

  /** The expression of a line. */
  function Inner(f: Function, stmt: Stmt): Option<Expr> {
    match stmt
    case Let(_, e) => Some(e)
    case If(e, _, _) => Some(e)
    case Do(e) => Some(e)
    case Return(e) => if f.ret == TNone then None else e
    case _ => None
  }

  /** The expression of the line is beyond the limits. */
  lemma {:induction false} StmtInnerOver(l: Limits, w: World, f: Function, locals: Locals, stmt: Stmt, m: Memory)
    requires Inner(f, stmt).Some? && EvalOver(l, w, locals, Inner(f, stmt).value, m)
    ensures StmtOver(l, w, f, locals, stmt, m)
  {
    hide EvalAt, AllNew, Allows;
    forall n: nat | StmtAt(w, f, locals, stmt, m, n).Some? ensures !Allows(l, StmtAt(w, f, locals, stmt, m, n).value.m.spent) {
      assert EvalAt(w, locals, Inner(f, stmt).value, m, n).Some?;
    }
  }

  /** If its expression has a meaning, the meaning of the line shows as soon as that does. */
  lemma {:induction false} StmtNone(l: Limits, w: World, f: Function, locals: Locals, stmt: Stmt, m: Memory, i: nat)
    requires Inner(f, stmt) == None || EvalAt(w, locals, Inner(f, stmt).value, m, i).Some?
    requires StmtAt(w, f, locals, stmt, m, i) == None
    ensures StmtOver(l, w, f, locals, stmt, m)
  {
    hide EvalAt, AllNew, Allows;
    forall n: nat ensures StmtAt(w, f, locals, stmt, m, n) == None {
      if StmtAt(w, f, locals, stmt, m, n).Some? && Inner(f, stmt).Some? {
        EvalSame(w, locals, Inner(f, stmt).value, m, i, n);
      }
    }
  }

  /** A line, and then what follows it. */
  lemma {:induction false} LinesNext(w: World, f: Function, locals: Locals, ip: nat, newip: nat, at: nat, m: Memory, i: nat, j: nat, n: nat)
    requires i < n && j < n && GoesOn(f, ip, newip, at) && StmtAt(w, f, locals, f.lines[at], Reached(f, ip, newip, at, m), i).Some?
    ensures match StmtAt(w, f, locals, f.lines[at], Reached(f, ip, newip, at, m), i).value
      case Finish(v, r) => LinesAt(w, f, locals, ip, newip, m, n) == Some((v, r))
      case Jump(target, next, r) => LinesAt(w, f, next, at, target, r, j).Some? ==>
        LinesAt(w, f, locals, ip, newip, m, n) == LinesAt(w, f, next, at, target, r, j)
  {
    hide LinesAt, StmtAt;
    StmtMore(w, f, locals, f.lines[at], Reached(f, ip, newip, at, m), i, n - 1);
    LineStep(w, f, locals, ip, newip, at, m, n);
    var flow := StmtAt(w, f, locals, f.lines[at], Reached(f, ip, newip, at, m), i).value;
    if flow.Jump? && LinesAt(w, f, flow.locals, at, flow.target, flow.m, j).Some? {
      LinesMore(w, f, flow.locals, at, flow.target, flow.m, j, n - 1);
    }
  }

  /** Whatever the lines from here on show within `b` levels is what all lines show. */
  ghost predicate Carries(w: World, f: Function, locals0: Locals, m0: Memory, n: nat,
                          locals: Locals, ip: nat, newip: nat, m: Memory, b: nat)
  {
    forall k: nat :: k <= b && LinesAt(w, f, locals, ip, newip, m, k).Some? ==>
      LinesAt(w, f, locals0, 0, 0, m0, n) == LinesAt(w, f, locals, ip, newip, m, k)
  }

  lemma {:induction false} CarriesStart(w: World, f: Function, locals: Locals, m: Memory, n: nat)
    ensures Carries(w, f, locals, m, n, locals, 0, 0, m, n)
  {
    hide LinesAt;
    forall k: nat | k <= n && LinesAt(w, f, locals, 0, 0, m, k).Some?
      ensures LinesAt(w, f, locals, 0, 0, m, n) == LinesAt(w, f, locals, 0, 0, m, k)
    {
      LinesMore(w, f, locals, 0, 0, m, k, n);
    }
  }

  lemma {:induction false} CarriesOn(w: World, f: Function, locals0: Locals, m0: Memory, n: nat,
                                     locals: Locals, ip: nat, newip: nat, m: Memory, b: nat, at: nat, i: nat, b': nat)
    requires Carries(w, f, locals0, m0, n, locals, ip, newip, m, b) && i < b && b' < b
    requires GoesOn(f, ip, newip, at) && StmtAt(w, f, locals, f.lines[at], Reached(f, ip, newip, at, m), i).Some?
    ensures match StmtAt(w, f, locals, f.lines[at], Reached(f, ip, newip, at, m), i).value
      case Finish(v, r) => LinesAt(w, f, locals0, 0, 0, m0, n) == Some((v, r))
      case Jump(target, next, r) => Carries(w, f, locals0, m0, n, next, at, target, r, b')
  {
    hide LinesAt, StmtAt;
    var flow := StmtAt(w, f, locals, f.lines[at], Reached(f, ip, newip, at, m), i).value;
    LinesNext(w, f, locals, ip, newip, at, m, i, 0, b);
    if flow.Jump? {
      forall k: nat | k <= b' && LinesAt(w, f, flow.locals, at, flow.target, flow.m, k).Some?
        ensures LinesAt(w, f, locals0, 0, 0, m0, n) == LinesAt(w, f, flow.locals, at, flow.target, flow.m, k)
      {
        LinesNext(w, f, locals, ip, newip, at, m, i, k, b);
      }
    }
  }

  /** There is no next line. */
  lemma {:induction false} NoLineOver(l: Limits, w: World, f: Function, locals: Locals, ip: nat, newip: nat, m: Memory)
    requires forall at: nat :: !GoesOn(f, ip, newip, at)
    ensures LinesOver(l, w, f, locals, ip, newip, m)
  {
    hide GoesOn, StmtAt, Allows;
  }

  /** The next line is beyond the limits, by being reached or by what it does. */
  lemma {:induction false} LineOver(l: Limits, w: World, f: Function, locals: Locals, ip: nat, newip: nat, m: Memory, at: nat)
    requires GoesOn(f, ip, newip, at)
    requires !Allows(l, Reached(f, ip, newip, at, m).spent) || StmtOver(l, w, f, locals, f.lines[at], Reached(f, ip, newip, at, m))
    ensures LinesOver(l, w, f, locals, ip, newip, m)
  {
    hide StmtAt, LinesAt, Allows, Reached;
    var m1 := Reached(f, ip, newip, at, m);
    forall n: nat | LinesAt(w, f, locals, ip, newip, m, n).Some?
      ensures !Allows(l, LinesAt(w, f, locals, ip, newip, m, n).value.1.spent)
    {
      LinesSome(w, f, locals, ip, newip, m, n);
      LineStep(w, f, locals, ip, newip, at, m, n);
      StmtGrows(w, f, locals, f.lines[at], m1, n - 1);
      var flow := StmtAt(w, f, locals, f.lines[at], m1, n - 1).value;
      if !Allows(l, m1.spent) { StaysOver(l, m1.spent, flow.m.spent); }
      if flow.Jump? {
        LinesGrows(w, f, flow.locals, at, flow.target, flow.m, n - 1);
        StaysOver(l, flow.m.spent, LinesAt(w, f, locals, ip, newip, m, n).value.1.spent);
      }
    }
  }

  /** What follows the next line is beyond the limits. */
  lemma {:induction false} RestOver(l: Limits, w: World, f: Function, locals: Locals, ip: nat, newip: nat, m: Memory, at: nat, i: nat)
    requires GoesOn(f, ip, newip, at) && StmtAt(w, f, locals, f.lines[at], Reached(f, ip, newip, at, m), i).Some?
    requires StmtAt(w, f, locals, f.lines[at], Reached(f, ip, newip, at, m), i).value.Jump?
    ensures var flow := StmtAt(w, f, locals, f.lines[at], Reached(f, ip, newip, at, m), i).value;
      LinesOver(l, w, f, flow.locals, at, flow.target, flow.m) ==> LinesOver(l, w, f, locals, ip, newip, m)
  {
    hide StmtAt, LinesAt, Allows, Reached;
    var m1 := Reached(f, ip, newip, at, m);
    var flow := StmtAt(w, f, locals, f.lines[at], m1, i).value;
    if LinesOver(l, w, f, flow.locals, at, flow.target, flow.m) {
      forall n: nat | LinesAt(w, f, locals, ip, newip, m, n).Some?
        ensures !Allows(l, LinesAt(w, f, locals, ip, newip, m, n).value.1.spent)
      {
        LinesSome(w, f, locals, ip, newip, m, n);
        LineStep(w, f, locals, ip, newip, at, m, n);
        StmtMore(w, f, locals, f.lines[at], m1, i, n + i);
        StmtMore(w, f, locals, f.lines[at], m1, n - 1, n + i);
      }
    }
  }

  lemma {:induction false} LinesSome(w: World, f: Function, locals: Locals, ip: nat, newip: nat, m: Memory, n: nat)
    requires LinesAt(w, f, locals, ip, newip, m, n).Some?
    ensures n > 0 && exists a: nat :: GoesOn(f, ip, newip, a)
  {
  }
}
