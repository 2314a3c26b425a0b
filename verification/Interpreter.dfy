/**
 Running contracts in place.

 All nested calls share one state: gas, counters, the overlay of writes and the list of
 transfers. Every method says how it moves the counters, and which of them it restores.
 */
module Interpreter {
  import opened ChainState
  import opened Variables
  import opened Ledger
  import opened Dvm
  import opened Semantics

  /** Failed is an error, Panicked a panic, and Hung stands for the loop that the original never leaves. */
  datatype Out<+T> = Done(value: T) | Failed | Panicked | Hung

  class State {
    const gasLimit: nat
    const gasCheck: bool
    const storeLimit: nat
    const storeCheck: bool
    const disk: View
    var gasUsed: nat
    var storeUsed: nat
    var lines: nat
    var ops: nat
    var recursion: int
    var raw: View
    var transfers: seq<Transfer>
    ghost var executed: nat

    constructor (gasLimit: nat, gasCheck: bool, storeLimit: nat, storeCheck: bool, disk: View)
      ensures Within() && Clean() && recursion == 0 && raw == map[] && transfers == []
      ensures Mem() == Memory(map[], [], Spent(0, 0, 0, 0)) && executed == 0 && this.disk == disk
      ensures Lim() == Limits(if gasCheck then Some(gasLimit) else None, if storeCheck then Some(storeLimit) else None)
    {
      this.gasLimit, this.gasCheck, this.storeLimit, this.storeCheck, this.disk := gasLimit, gasCheck, storeLimit, storeCheck, disk;
      gasUsed, storeUsed, lines, ops, recursion, raw, transfers, executed := 0, 0, 0, 0, 0, map[], [], 0;
    }

    /** All limits are kept. */
    ghost predicate Within()
      reads this
    {
      Allows(Lim(), Mem().spent)
    }

    /** Only keys of variables are written, and only 64-bit amounts are sent. */
    ghost predicate Clean()
      reads this`raw, this`transfers
    {
      VariableKeys(raw) && Amounts64(transfers)
    }

    ghost function Mem(): Memory
      reads this
    {
      Memory(raw, transfers, Spent(gasUsed, storeUsed, lines, ops))
    }

    ghost function Lim(): Limits {
      Limits(if gasCheck then Some(gasLimit) else None, if storeCheck then Some(storeLimit) else None)
    }

    /** What is left of the limits. */
    ghost function Budget(): nat
      reads this
    {
      (if lines <= LIMIT_LINES then LIMIT_LINES + 1 - lines else 0) + if ops <= LIMIT_EVALS then LIMIT_EVALS + 1 - ops else 0
    }

    /** Counters only grow, every executed line has cost its gas, and what is written stays clean. */
    twostate predicate Steps()
      reads this
    {
      && old(lines) <= lines && old(ops) <= ops && old(executed) <= executed
      && old(gasUsed) + LINE_GAS * (executed - old(executed)) <= gasUsed
      && (old(Clean()) ==> Clean())
    }

    method ConsumeGas(c: nat) returns (ok: bool)
      modifies this`gasUsed
      ensures gasUsed == old(gasUsed) + c && (ok <==> !(gasCheck && gasUsed > gasLimit))
    {
      gasUsed := gasUsed + c;
      ok := !(gasCheck && gasUsed > gasLimit);
    }

    method ConsumeStorageGas(c: nat) returns (ok: bool)
      modifies this`storeUsed
      ensures storeUsed == old(storeUsed) + c && (ok <==> !(storeCheck && storeUsed > storeLimit))
    {
      storeUsed := storeUsed + c;
      ok := !(storeCheck && storeUsed > storeLimit);
    }

    /** The next line: the one after the current one, or the target of a jump. Blank lines are passed over,
        but a jump to one is repeated forever. */
    method IncrementIP(f: Function, ip: nat, newip: nat) returns (out: Out<Stmt>, at: nat)
      requires WellFormed(f) && (ip == 0 || ip in f.lines)
      modifies this`lines
      ensures lines >= old(lines)
      ensures out.Done? ==> lines == old(lines) + Passed(f, ip, newip, at) > old(lines)
      ensures out.Done? ==> at in f.lines && f.lines[at] == out.value != Blank
      ensures out.Done? ==> GoesOn(f, ip, newip, at)
      ensures out == Failed && newip == 0 ==> forall n :: n in f.lines && ip < n ==> f.lines[n] == Blank
      ensures out == Failed && newip != 0 ==> newip !in f.lines
      ensures out == Hung <==> newip != 0 && newip in f.lines && f.lines[newip] == Blank
      ensures out != Panicked
    {
      at := ip;
      NonePassed(f, ip);
      while true
        invariant lines >= old(lines) && (at == 0 || at in f.lines) && at >= ip
        invariant newip != 0 ==> at == ip
        invariant newip == 0 ==> forall n :: n in f.lines && ip < n <= at ==> f.lines[n] == Blank
        invariant lines == old(lines) + if newip == 0 then Passed(f, ip, 0, at) else 0
        decreases if at == 0 then |f.numbers| + 1 else if at in f.index then |f.numbers| - f.index[at] else 0
      {
        if newip == 0 {
          var index := if at in f.index then f.index[at] + 1 else 1;
          if at == 0 { index := 0; }
          if |f.numbers| <= index {
            NoneAfter(f, at);
            return Failed, at;
          }
          NextAfter(f, at, index);
          OneMorePassed(f, ip, at, f.numbers[index]);
          at := f.numbers[index];
        } else {
          at := newip;
        }
        if at !in f.lines { return Failed, at; }
        lines := lines + 1;
        if f.lines[at] != Blank { return Done(f.lines[at]), at; }
        if newip != 0 { return Hung, at; }
      }
    }

    // ---------- built-in functions ----------

    /** Storage gas for reading. */
    method ChargeLoad(v: Option<Val>) returns (ok: bool)
      modifies this`storeUsed
      ensures Mem() == ReadAs(old(Mem()), v)
      ensures ok && old(Within()) ==> Within()
      ensures !ok ==> !Within()
    {
      var length := if v.Some? then Length(v.value) else 0;
      ok := ConsumeStorageGas(if length > 10 then length / 10 else 1);
    }

    /** LOAD and EXISTS: what this call has written, or else what is stored. */
    method ReadKey(key: Val) returns (out: Out<Option<Val>>)
      modifies this`storeUsed
      ensures out.Failed? == false && out != Hung
      ensures out.Done? ==> (LoadKey(raw, disk, key) == match out.value case None => Missing case Some(v) => Found(v))
      ensures LoadKey(raw, disk, key) == LoadPanic ==> out == Panicked
      ensures LoadKey(raw, disk, key).Found? ==> Mem() == ReadAs(old(Mem()), Some(LoadKey(raw, disk, key).v))
      ensures LoadKey(raw, disk, key).Missing? ==> Mem() == ReadAs(old(Mem()), None)
      ensures !out.Done? && LoadKey(raw, disk, key) != LoadPanic ==> !Within()
      ensures out.Done? && old(Within()) ==> Within()
    {
      var value: Option<Val> := None;
      var r := LoadKey(raw, disk, key);
      LoadFits(raw, disk, key);
      if r == LoadPanic { return Panicked; }
      if r.Found? { value := Some(r.v); }
      var ok := ChargeLoad(value);
      if !ok { return Panicked; }
      out := Done(value);
    }

    /** STORE: the value is kept under the key's bytes, at a price per byte. */
    method WriteKey(key: Val, v: Val) returns (ok: bool)
      modifies this`storeUsed, this`raw
      ensures ok ==> Mem() == Wrote(old(Mem()), Marshal(key), Marshal(v))
      ensures !ok ==> raw == old(raw) && !Within() && Mem().spent == Wrote(old(Mem()), Marshal(key), Marshal(v)).spent
      ensures old(Clean()) ==> Clean()
      ensures ok && old(Within()) ==> Within()
    {
      ok := ConsumeStorageGas(|Marshal(v)|);
      if ok { raw := raw[Marshal(key) := Marshal(v)]; }
    }

    /** DELETE: an empty value stands for the missing one. */
    method DeleteKey(key: Val)
      modifies this`raw
      ensures Mem() == Wrote(old(Mem()), Marshal(key), [])
      ensures old(Clean()) ==> Clean()
    {
      raw := raw[Marshal(key) := []];
    }

    /** SEND: nothing is sent for an amount of 0. */
    method Send(env: Machine, ghost sc: Contract, address: Value, amount: Value, asset: Value) returns (out: Out<Value>)
      modifies this`transfers
      ensures match SentTo(World(env, sc, disk), address, amount, asset, old(Mem()))
        case None => out == Panicked && Mem() == old(Mem())
        case Some(p) => out == Done(p.0) && Mem() == p.1
      ensures old(Clean()) ==> Clean()
    {
      if address.Nil? || !address.v.StringVar? { return Panicked; }
      if !env.isAddress(address.v.s) { return Panicked; }
      if amount.Nil? || !amount.v.Uint64Var? { return Panicked; }
      if asset.Nil? || !asset.v.StringVar? { return Panicked; }
      if amount.v.n == 0 { return Done(amount); }
      if |asset.v.s| != HASH_LENGTH { return Panicked; }
      transfers := transfers + [Transfer(asset.v.s, address.v.s, amount.v.n)];
      out := Done(amount);
    }

    /** The effect of a built-in function, once its arguments are known. */
    method Apply(env: Machine, ghost sc: Contract, f: Builtin, args: seq<Value>) returns (out: Out<Value>)
      requires |args| == Arity(env, f)
      modifies this`storeUsed, this`raw, this`transfers
      ensures out.Done? || out == Panicked
      ensures out.Done? ==> Performed(World(env, sc, disk), f, args, old(Mem())) == Some((out.value, Mem()))
      ensures !out.Done? && Performed(World(env, sc, disk), f, args, old(Mem())).Some? ==>
        !Allows(Lim(), Performed(World(env, sc, disk), f, args, old(Mem())).value.1.spent)
      ensures old(Clean()) ==> Clean()
      ensures out.Done? && old(Within()) ==> Within()
    {
      match f
      case Load =>
        if args[0].Nil? { return Panicked; }
        var r := ReadKey(args[0].v);
        if r.Done? && r.value.Some? { out := Done(Just(r.value.value)); } else { out := Panicked; }
      case Exists =>
        if args[0].Nil? { return Panicked; }
        var r := ReadKey(args[0].v);
        if !r.Done? { return Panicked; }
        out := Done(Just(Truth(r.value.Some?)));
      case Store =>
        if args[0].Nil? || args[1].Nil? { return Panicked; }
        var ok := WriteKey(args[0].v, args[1].v);
        out := if ok then Done(Just(Truth(true))) else Panicked;
      case Delete =>
        if args[0].Nil? { return Panicked; }
        DeleteKey(args[0].v);
        out := Done(Just(Truth(true)));
      case SendDero =>
        out := Send(env, sc, args[0], args[1], Just(StringVar(ZERO_ID)));
      case SendAsset =>
        out := Send(env, sc, args[0], args[1], args[2]);
      case Pure(id) =>
        var r := env.run(id, args);
        out := if r.Some? then Done(r.value) else Panicked;
    }

    // ---------- expressions ----------

    /** Every evaluation is counted. A success leaves the recursion counter as it was and all limits kept. */
    method Eval(env: Machine, sc: Contract, locals: Locals, e: Expr) returns (out: Out<Value>)
      requires Parsed(sc)
      modifies this
      decreases Budget(), 0
      ensures Steps() && out != Failed
      ensures out.Done? ==> recursion == old(recursion)
      ensures out.Done? && old(Within()) ==> Within()
      ensures NoBlankJumps(sc) ==> out != Hung
      ensures out.Done? ==> EvalAt(World(env, sc, disk), locals, e, old(Mem()), old(Budget())) == Some((out.value, Mem()))
      ensures !out.Done? ==> EvalOver(Lim(), World(env, sc, disk), locals, e, old(Mem()))
    {
      hide BinaryResult, Parsed, WellFormed, NoBlankJumps, JumpsLand, VariableKeys, Amounts64, TypeOf, Zero, Cost, Arity;
      hide EvalAt, ArgsAt, EvalOver, ArgsOver, Performed;
      ghost var l, w, m, n := Lim(), World(env, sc, disk), Mem(), Budget();
      ops := ops + 1;
      if ops > LIMIT_EVALS {
        BegunOver(l, w, locals, e, m);
        return Panicked;
      }
      match e
      case Lit(v) =>
        LeafMeans(l, w, locals, e, m, n);
        out := Done(Just(v));
      case Ident(name) =>
        LeafMeans(l, w, locals, e, m, n);
        if name !in locals { return Panicked; }
        out := Done(Just(locals[name]));
      case Paren(x) =>
        ghost var i := Budget();
        out := Eval(env, sc, locals, x);
        if out.Done? { UnaryAt(w, locals, e, x, m, i, n); } else { UnaryOver(l, w, locals, e, x, m, i); }
      case Complement(x) =>
        ghost var i := Budget();
        var v := Eval(env, sc, locals, x);
        if v.Done? { UnaryAt(w, locals, e, x, m, i, n); }
        if v.Done? && v.value.Just? && v.value.v.Uint64Var? { return Done(Just(Inverted(v.value.v.n))); }
        UnaryOver(l, w, locals, e, x, m, i);
        out := if v.Hung? then Hung else Panicked;
      case Not(x) =>
        ghost var i := Budget();
        var v := Eval(env, sc, locals, x);
        if v.Done? { UnaryAt(w, locals, e, x, m, i, n); }
        if v.Done? && v.value.Just? {
          return Done(Just(if v.value.v.Uint64Var? then Inverted(v.value.v.n) else Truth(IsZero(v.value.v))));
        }
        UnaryOver(l, w, locals, e, x, m, i);
        out := if v.Hung? then Hung else Panicked;
      case Binary(op, x, y) =>
        out := EvalBinary(env, sc, locals, op, x, y, m, n);
      case Internal(f, args) =>
        out := EvalInternal(env, sc, locals, f, args, m, n);
      case Call(name, args) =>
        out := EvalCall(env, sc, locals, name, args, m, n);
      case Unknown =>
        LeafMeans(l, w, locals, e, m, n);
        out := Panicked;
    }

    /** Both operands, then the operation. */
    method EvalBinary(env: Machine, sc: Contract, locals: Locals, op: Op, x: Expr, y: Expr, ghost m0: Memory, ghost n0: nat) returns (out: Out<Value>)
      requires Parsed(sc) && Budget() < n0 && Mem() == Counted(m0)
      modifies this
      decreases Budget(), 4
      ensures Steps() && out != Failed
      ensures out.Done? ==> recursion == old(recursion)
      ensures out.Done? && old(Within()) ==> Within()
      ensures NoBlankJumps(sc) ==> out != Hung
      ensures out.Done? ==> EvalAt(World(env, sc, disk), locals, Binary(op, x, y), m0, n0) == Some((out.value, Mem()))
      ensures !out.Done? ==> EvalOver(Lim(), World(env, sc, disk), locals, Binary(op, x, y), m0)
    {
      hide BinaryResult, Parsed, WellFormed, NoBlankJumps, JumpsLand, VariableKeys, Amounts64, TypeOf, Zero, Cost, Arity;
      hide EvalAt, EvalOver, Clean;
      ghost var li, w, e := Lim(), World(env, sc, disk), Binary(op, x, y);
      var ok := ConsumeGas(BINARY_GAS);
      if !ok {
        BegunOver(li, w, locals, e, m0);
        return Panicked;
      }
      assert Mem() == Begun(w, e, m0);
      ghost var i := Budget();
      var l := Eval(env, sc, locals, x);
      if !l.Done? {
        BinaryOver(li, w, locals, op, x, y, m0, i);
        return l;
      }
      ghost var j, mem := Budget(), Mem();
      var r := Eval(env, sc, locals, y);
      if !r.Done? {
        BinaryOver(li, w, locals, op, x, y, m0, i);
        return r;
      }
      BinaryMeans(w, locals, op, x, y, m0, i, (l.value, mem), j, (r.value, Mem()), n0);
      var v := BinaryResult(op, l.value, r.value);
      if v == None {
        NoMeaning(li, w, locals, e, m0);
        return Panicked;
      }
      out := Done(Just(v.value));
    }

    /** A built-in function: its price, its arguments, its effect. */
    method EvalInternal(env: Machine, sc: Contract, locals: Locals, f: Builtin, args: seq<Expr>, ghost m0: Memory, ghost n0: nat) returns (out: Out<Value>)
      requires Parsed(sc) && Budget() < n0 && Mem() == Counted(m0)
      modifies this
      decreases Budget(), 4
      ensures Steps() && out != Failed
      ensures out.Done? ==> recursion == old(recursion)
      ensures out.Done? && old(Within()) ==> Within()
      ensures NoBlankJumps(sc) ==> out != Hung
      ensures out.Done? ==> EvalAt(World(env, sc, disk), locals, Internal(f, args), m0, n0) == Some((out.value, Mem()))
      ensures !out.Done? ==> EvalOver(Lim(), World(env, sc, disk), locals, Internal(f, args), m0)
    {
      hide BinaryResult, Parsed, WellFormed, NoBlankJumps, JumpsLand, VariableKeys, Amounts64, TypeOf, Zero, Cost, Arity;
      hide EvalAt, ArgsAt, EvalOver, ArgsOver, Performed;
      ghost var li, w, e := Lim(), World(env, sc, disk), Internal(f, args);
      var ok := ConsumeGas(Cost(env, f));
      assert Mem() == Begun(w, e, m0);
      if !ok {
        BegunOver(li, w, locals, e, m0);
        return Panicked;
      }
      ghost var i := Budget();
      if |args| != Arity(env, f) {
        InternalOver(li, w, locals, f, args, m0, i);
        return Panicked;
      }
      var vals: Out<seq<Value>> := EvalAll(env, sc, locals, args);
      if !vals.Done? {
        InternalOver(li, w, locals, f, args, m0, i);
        return if vals.Hung? then Hung else Panicked;
      }
      InternalAt(w, locals, f, args, m0, i, n0);
      out := Apply(env, sc, f, vals.value);
      if !out.Done? { InternalOver(li, w, locals, f, args, m0, i); }
    }

    /** Arguments from left to right. */
    method EvalAll(env: Machine, sc: Contract, locals: Locals, args: seq<Expr>) returns (out: Out<seq<Value>>)
      requires Parsed(sc)
      modifies this
      decreases Budget(), 1
      ensures Steps() && out != Failed
      ensures out.Done? ==> recursion == old(recursion)
      ensures out.Done? && old(Within()) ==> Within()
      ensures NoBlankJumps(sc) ==> out != Hung
      ensures out.Done? ==> |out.value| == |args|
      ensures out.Done? ==> ArgsAt(World(env, sc, disk), locals, args, old(Mem()), old(Budget())) == Some((out.value, Mem()))
      ensures !out.Done? ==> ArgsOver(Lim(), World(env, sc, disk), locals, args, old(Mem()))
    {
      hide BinaryResult, Parsed, WellFormed, NoBlankJumps, JumpsLand, VariableKeys, Amounts64, TypeOf, Zero, Cost, Arity;
      hide EvalAt, EvalOver;
      ghost var l, w, m, n := Lim(), World(env, sc, disk), Mem(), Budget();
      var vals: seq<Value> := [];
      assert args[..0] == [];
      while |vals| < |args|
        invariant |vals| <= |args| && Steps() && recursion == old(recursion)
        invariant old(Within()) ==> Within()
        invariant ArgsAt(w, locals, args[..|vals|], m, n) == Some((vals, Mem()))
      {
        ghost var j := Budget();
        var v := Eval(env, sc, locals, args[|vals|]);
        if !v.Done? {
          ArgsPartOver(l, w, locals, args, m, |vals|, n);
          return if v.Hung? then Hung else Panicked;
        }
        ArgsNext(w, locals, args, m, |vals|, n, j, n);
        vals := vals + [v.value];
      }
      assert args[..|vals|] == args;
      out := Done(vals);
    }

    /** A call of another function of the contract; its errors are panics here. */
    method EvalCall(env: Machine, sc: Contract, locals: Locals, name: string, args: seq<Expr>, ghost m0: Memory, ghost n0: nat) returns (out: Out<Value>)
      requires Parsed(sc) && Budget() < n0 && Mem() == Counted(m0)
      modifies this
      decreases Budget(), 4
      ensures Steps() && out != Failed
      ensures out.Done? ==> recursion == old(recursion)
      ensures out.Done? && old(Within()) ==> Within()
      ensures NoBlankJumps(sc) ==> out != Hung
      ensures out.Done? ==> EvalAt(World(env, sc, disk), locals, Call(name, args), m0, n0) == Some((out.value, Mem()))
      ensures !out.Done? ==> EvalOver(Lim(), World(env, sc, disk), locals, Call(name, args), m0)
    {
      hide BinaryResult, Parsed, WellFormed, NoBlankJumps, JumpsLand, VariableKeys, Amounts64, TypeOf, Zero, Cost, Arity;
      hide EvalAt, EvalOver, ArgsOver, CallAt, Named;
      ghost var l, w, m, n := Lim(), World(env, sc, disk), Mem(), Budget();
      assert m == Begun(w, Call(name, args), m0);
      if name !in sc {
        NestedArgsOver(l, w, locals, name, args, m0);
        return Panicked;
      }
      var f := sc[name];
      if |f.params| != |args| {
        NestedArgsOver(l, w, locals, name, args, m0);
        return Panicked;
      }
      var arguments: Locals := map[];
      var i := 0;
      ghost var vals: seq<Value> := [];
      NoneNamed();
      assert args[..0] == [] && f.params[..0] == [];
      while i < |args|
        invariant 0 <= i <= |args| && Steps() && recursion == old(recursion)
        invariant old(Within()) ==> Within()
        invariant ArgsAt(w, locals, args[..i], m, n) == Some((vals, Mem()))
        invariant Suits(f.params[..i], vals) && arguments == Named(f.params[..i], vals)
      {
        ghost var j := Budget();
        var v := Eval(env, sc, locals, args[i]);
        if !v.Done? {
          ArgsPartOver(l, w, locals, args, m, i, n);
          NestedArgsOver(l, w, locals, name, args, m0);
          return v;
        }
        if v.value.Nil? || TypeOf(v.value.v) != f.params[i].ty {
          NestedTypeOver(l, w, locals, name, args, m0, i, n, j);
          return Panicked;
        }
        ArgsNext(w, locals, args, m, i, n, j, n);
        NamedNext(f.params, vals, i, v.value);
        vals := vals + [v.value];
        arguments := arguments[f.params[i].name := v.value.v];
        i := i + 1;
      }
      assert args[..i] == args && f.params[..i] == f.params;
      ghost var j := Budget();
      out := RunInternal(env, sc, name, arguments);
      if out.Failed? { out := Panicked; }
      if out.Done? { NestedAt(w, locals, name, args, m0, n, j, n0); } else { NestedOver(l, w, locals, name, args, m0, n); }
    }

    // ---------- lines ----------

    /** DIM: all names must be new. */
    method Declare(names: seq<string>, ty: Type, locals0: Locals) returns (ok: bool, locals: Locals)
      requires ty != TNone
      ensures ok <==> AllNew(names, locals0)
      ensures ok ==> locals == Declared(names, ty, locals0)
    {
      hide Declared, AllNew;
      locals := locals0;
      var i := 0;
      NoneDeclared(ty, locals0);
      assert names[..0] == [];
      while i < |names|
        invariant 0 <= i <= |names| && AllNew(names[..i], locals0) && locals == Declared(names[..i], ty, locals0)
      {
        NewNext(names, locals0, i);
        DeclaredNext(names, ty, locals0, i);
        DeclaredIn(names[..i], ty, locals0, names[i]);
        if AllNew(names, locals0) { NewParts(names, locals0, i + 1); }
        if names[i] in locals { return false, locals; }
        locals := locals[names[i] := Zero(ty)];
        i := i + 1;
      }
      assert names[..i] == names;
      ok := true;
    }

    /** The arguments become local variables. */
    method Bind(params: seq<Param>, arguments: Locals) returns (ok: bool, locals: Locals)
      ensures ok <==> Supplied(params, arguments)
      ensures ok ==> locals == Chosen(params, arguments)
    {
      hide TypeOf;
      locals := map[];
      var i := 0;
      while i < |params|
        invariant 0 <= i <= |params| && Supplied(params[..i], arguments) && locals == Chosen(params[..i], arguments)
      {
        var p := params[i];
        if p.name !in arguments { return false, locals; }
        if TypeOf(arguments[p.name]) != p.ty { return false, locals; }
        ChosenNext(params, arguments, i);
        locals := locals[p.name := arguments[p.name]];
        i := i + 1;
      }
      assert params[..i] == params;
      ok := true;
    }

    /** One line: the jump it makes, or the value it returns. */
    method Execute(env: Machine, sc: Contract, f: Function, locals0: Locals, stmt: Stmt)
      returns (out: Out<Option<nat>>, locals: Locals, result: Value)
      requires Parsed(sc) && WellFormed(f)
      modifies this
      decreases Budget(), 1
      ensures Steps()
      ensures out.Done? ==> recursion == old(recursion) - if out.value == None then 1 else 0
      ensures out.Done? && old(Within()) ==> Within()
      ensures NoBlankJumps(sc) ==> out != Hung
      ensures out.Done? && out.value == None ==> stmt.Return?
      ensures out.Done? && out.value.Some? && out.value.value != 0 ==> JumpsTo(stmt, out.value.value)
      ensures out.Done? ==>
        StmtAt(World(env, sc, disk), f, locals0, stmt, old(Mem()), old(Budget()))
        == Some(if out.value == None then Finish(result, Mem()) else Jump(out.value.value, locals, Mem()))
      ensures !out.Done? ==> StmtOver(Lim(), World(env, sc, disk), f, locals0, stmt, old(Mem()))
    {
      hide BinaryResult, Parsed, WellFormed, NoBlankJumps, JumpsLand, VariableKeys, Amounts64, TypeOf, Zero, Cost, Arity;
      hide EvalAt, EvalOver, AllNew, Declared;
      locals, result := locals0, Nil;
      ghost var l, w, m, n := Lim(), World(env, sc, disk), Mem(), Budget();
      match stmt
      case Blank => out := Failed;
      case Malformed => out := Failed;
      case Print => out := Done(Some(0));
      case Dim(names, ty) =>
        if ty == TNone { return Failed, locals, result; }
        var ok;
        ok, locals := Declare(names, ty, locals);
        if !ok { return Failed, locals, result; }
        out := Done(Some(0));
      case Let(name, e) =>
        if name !in locals { return Failed, locals, result; }
        var v := Eval(env, sc, locals, e);
        if !v.Done? {
          StmtInnerOver(l, w, f, locals, stmt, m);
          return if v.Hung? then Hung else Panicked, locals, result;
        }
        if v.value.Nil? || TypeOf(v.value.v) != TypeOf(locals[name]) {
          StmtNone(l, w, f, locals, stmt, m, n);
          return Panicked, locals, result;
        }
        locals := locals[name := v.value.v];
        out := Done(Some(0));
      case Goto(target) =>
        if target == 0 || target == MAX_UINT64 { return Failed, locals, result; }
        out := Done(Some(target));
      case If(e, thenLine, elseLine) =>
        if elseLine.Some? && (elseLine.value == 0 || elseLine.value == MAX_UINT64) { return Failed, locals, result; }
        if thenLine == 0 || thenLine == MAX_UINT64 { return Failed, locals, result; }
        var v := Eval(env, sc, locals, e);
        if !v.Done? {
          StmtInnerOver(l, w, f, locals, stmt, m);
          return if v.Hung? then Hung else Panicked, locals, result;
        }
        if v.value.Nil? || !v.value.v.Uint64Var? {
          StmtNone(l, w, f, locals, stmt, m, n);
          return Failed, locals, result;
        }
        out := Done(Some(if v.value.v.n != 0 then thenLine else if elseLine.Some? then elseLine.value else 0));
      case Do(e) =>
        if !(e.Call? || e.Internal?) { return Failed, locals, result; }
        var v := Eval(env, sc, locals, e);
        if !v.Done? {
          StmtInnerOver(l, w, f, locals, stmt, m);
          return if v.Hung? then Hung else Panicked, locals, result;
        }
        out := Done(Some(0));
      case Return(e) =>
        if f.ret == TNone {
          if e.Some? { return Failed, locals, result; }
        } else {
          if e == None { return Failed, locals, result; }
          var v := Eval(env, sc, locals, e.value);
          if !v.Done? {
          StmtInnerOver(l, w, f, locals, stmt, m);
          return if v.Hung? then Hung else Panicked, locals, result;
        }
          if v.value.Nil? || TypeOf(v.value.v) != f.ret {
            StmtNone(l, w, f, locals, stmt, m, n);
            return Panicked, locals, result;
          }
          result := v.value;
        }
        recursion := recursion - 1;
        out := Done(None);
    }

    /** Runs the lines of a function. It ends within the limits, and succeeds only through RETURN. */
    method Interpret(env: Machine, sc: Contract, f: Function, locals0: Locals) returns (out: Out<Value>)
      requires Parsed(sc) && WellFormed(f)
      modifies this
      decreases Budget(), 2
      ensures Steps()
      ensures out.Done? ==> recursion == old(recursion) - 1
      ensures out.Done? && old(Within()) ==> Within()
      ensures out.Done? ==> exists n :: n in f.lines && f.lines[n].Return?
      ensures NoBlankJumps(sc) && JumpsLand(f) ==> out != Hung
      ensures out.Done? ==> LinesAt(World(env, sc, disk), f, locals0, 0, 0, old(Mem()), old(Budget())) == Some((out.value, Mem()))
      ensures !out.Done? ==> LinesOver(Lim(), World(env, sc, disk), f, locals0, 0, 0, old(Mem()))
    {
      hide BinaryResult, Parsed, WellFormed, NoBlankJumps, JumpsLand, VariableKeys, Amounts64, TypeOf, Zero, Cost, Arity;
      hide LinesAt, StmtAt, LinesOver, StmtOver, Carries;
      ghost var l, w, m, n := Lim(), World(env, sc, disk), Mem(), Budget();
      CarriesStart(w, f, locals0, m, n);
      var locals := locals0;
      var ip, newip: nat := 0, 0;
      while true
        invariant Steps() && recursion == old(recursion) && (ip == 0 || ip in f.lines)
        invariant old(Within()) ==> Within()
        invariant newip != 0 && JumpsLand(f) ==> Lands(f, newip)
        invariant Carries(w, f, locals0, m, n, locals, ip, newip, Mem(), Budget())
        invariant LinesOver(l, w, f, locals, ip, newip, Mem()) ==> LinesOver(l, w, f, locals0, 0, 0, m)
        decreases Budget()
      {
        ghost var was, from, to, mem, b := locals, ip, newip, Mem(), Budget();
        var next: Out<Stmt>;
        next, ip := IncrementIP(f, ip, newip);
        ghost var i := Budget();
        if !next.Done? {
          NoLineOver(l, w, f, was, from, to, mem);
          return if next.Hung? then Hung else Failed;
        }
        executed := executed + 1;
        var ok := ConsumeGas(LINE_GAS);
        assert Mem() == Reached(f, from, to, ip, mem);
        if !ok || lines > LIMIT_LINES {
          LineOver(l, w, f, was, from, to, mem, ip);
          return Panicked;
        }
        var step: Out<Option<nat>>, result: Value;
        step, locals, result := Execute(env, sc, f, locals, next.value);
        if !step.Done? {
          LineOver(l, w, f, was, from, to, mem, ip);
          return if step.Hung? then Hung else if step.Failed? then Failed else Panicked;
        }
        CarriesOn(w, f, locals0, m, n, was, from, to, mem, b, ip, i, Budget());
        if step.value.Some? { RestOver(l, w, f, was, from, to, mem, ip, i); }
        if step.value == None { return Done(result); }
        newip := step.value.value;
        if newip != 0 { JumpLands(f, ip, newip); }
      }
    }

    /** Calls a function with its arguments. A success leaves the recursion counter as it was. */
    method RunInternal(env: Machine, sc: Contract, name: string, arguments: Locals) returns (out: Out<Value>)
      requires Parsed(sc)
      modifies this
      decreases Budget(), 3
      ensures Steps()
      ensures out.Done? ==> recursion == old(recursion)
      ensures out.Done? && old(Within()) ==> Within()
      ensures out.Done? ==> name in sc && exists n :: n in sc[name].lines && sc[name].lines[n].Return?
      ensures NoBlankJumps(sc) ==> out != Hung
      ensures out.Done? ==> CallAt(World(env, sc, disk), name, arguments, old(Mem()), old(Budget())) == Some((out.value, Mem()))
      ensures !out.Done? ==> CallOver(Lim(), World(env, sc, disk), name, arguments, old(Mem()))
    {
      hide LinesAt, Chosen, Supplied, CallOver, LinesOver;
      ghost var l, w, m := Lim(), World(env, sc, disk), Mem();
      hide BinaryResult, WellFormed, JumpsLand, VariableKeys, Amounts64, TypeOf, Zero, Cost, Arity;
      if name !in sc {
        CallLinesOver(l, w, name, arguments, m);
        return Failed;
      }
      var f := sc[name];
      var ok, locals := Bind(f.params, arguments);
      if !ok {
        CallLinesOver(l, w, name, arguments, m);
        return Failed;
      }
      recursion := recursion + 1;
      out := Interpret(env, sc, f, locals);
      if !out.Done? { CallLinesOver(l, w, name, arguments, m); }
    }

    /** The entry point of a transaction: only exported functions, and panics become errors. Started at
        recursion level 0, the level is 0 again after a success. */
    method RunSmartContract(env: Machine, sc: Contract, name: string, arguments: Locals) returns (out: Out<Value>)
      requires Parsed(sc)
      modifies this
      ensures Steps() && out != Panicked
      ensures out.Done? ==> Exported(name) && recursion == 0
      ensures out.Done? ==> name in sc && exists n :: n in sc[name].lines && sc[name].lines[n].Return?
      ensures out.Done? && old(Within()) ==> Within()
      ensures NoBlankJumps(sc) ==> out != Hung
      ensures out.Done? ==> Means(World(env, sc, disk), name, arguments, old(Mem()), (out.value, Mem()))
      ensures old(Within()) && old(recursion) == 0 ==>
        (out.Done? <==> Exported(name) && MeansWithin(Lim(), World(env, sc, disk), name, arguments, old(Mem())))
    {
      hide CallAt;
      hide Parsed, WellFormed, NoBlankJumps, JumpsLand, VariableKeys, Amounts64;
      if !Exported(name) { return Failed; }
      out := RunInternal(env, sc, name, arguments);
      if out == Panicked { return Failed; }
      if out.Done? && recursion != 0 { return Failed; }
    }
  }

  /** The line can jump there. */
  predicate JumpsTo(stmt: Stmt, target: nat) {
    match stmt
    case Goto(t) => t == target
    case If(_, thenLine, elseLine) => thenLine == target || elseLine == Some(target)
    case _ => false
  }

  lemma JumpLands(f: Function, at: nat, target: nat)
    requires at in f.lines && JumpsTo(f.lines[at], target)
    ensures JumpsLand(f) ==> Lands(f, target)
  {
  }

  lemma {:induction false} NextAfter(f: Function, at: nat, index: nat)
    requires WellFormed(f) && (at == 0 || at in f.lines) && index < |f.numbers|
    requires index == if at == 0 then 0 else if at in f.index then f.index[at] + 1 else 1
    ensures f.numbers[index] > at && forall n :: n in f.lines && at < n ==> n >= f.numbers[index]
    ensures f.index[f.numbers[index]] == index && (at != 0 ==> at in f.index && f.index[at] + 1 == index)
  {
    forall n | n in f.lines && at < n ensures n >= f.numbers[index] {
      var i :| 0 <= i < |f.numbers| && f.numbers[i] == n;
      if at != 0 { var j :| 0 <= j < |f.numbers| && f.numbers[j] == at; }
    }
  }

  lemma {:induction false} OneMorePassed(f: Function, ip: nat, at: nat, next: nat)
    requires ip <= at < next && next in f.lines && forall n :: n in f.lines && at < n ==> n >= next
    ensures Passed(f, ip, 0, next) == Passed(f, ip, 0, at) + 1
  {
    assert (set n | n in f.lines && ip < n <= next) == (set n | n in f.lines && ip < n <= at) + {next};
  }

  lemma {:induction false} NonePassed(f: Function, ip: nat)
    ensures Passed(f, ip, 0, ip) == 0
  {
    assert (set n | n in f.lines && ip < n <= ip) == {};
  }

  lemma {:induction false} NoneAfter(f: Function, at: nat)
    requires WellFormed(f) && (at == 0 || at in f.lines)
    requires |f.numbers| <= if at == 0 then 0 else if at in f.index then f.index[at] + 1 else 1
    ensures forall n :: n in f.lines ==> n <= at
  {
    forall n | n in f.lines ensures n <= at {
      var i :| 0 <= i < |f.numbers| && f.numbers[i] == n;
      if at != 0 { var j :| 0 <= j < |f.numbers| && f.numbers[j] == at; }
    }
  }
}
