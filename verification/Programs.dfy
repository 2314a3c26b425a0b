/** What two contracts mean and cost, computed in full. */
module Programs {
  import opened ChainState
  import opened Variables
  import opened Ledger
  import opened LedgerCalls
  import opened Settlement
  import opened Dvm
  import opened Semantics
  import opened Interpreter
  import opened Contracts

  // ---------- RETURN 0 ----------

  const PING: Function := Function([], TUint64, [10], map[10 := 0], map[10 := Return(Some(Lit(Uint64Var(0))))])

  const PING_CONTRACT: Contract := map["Ping" := PING]

  lemma PingParsed()
    ensures Parsed(PING_CONTRACT) && NoBlankJumps(PING_CONTRACT)
  {
  }

  lemma PingLines()
    ensures 10 in PING.lines && PING.lines[10] == Return(Some(Lit(Uint64Var(0)))) && PING.params == [] && PING.ret == TUint64
    ensures GoesOn(PING, 0, 0, 10) && Passed(PING, 0, 0, 10) == 1
  {
    FirstLine(PING, 10);
  }

  lemma {:induction false} PingMeans(w: World, name: string, f: Function, arguments: Locals, m: Memory)
    requires name in w.sc && w.sc[name] == f && f.params == [] && f.ret == TUint64
    requires 10 in f.lines && f.lines[10] == Return(Some(Lit(Uint64Var(0)))) && GoesOn(f, 0, 0, 10) && Passed(f, 0, 0, 10) == 1
    ensures CallAt(w, name, arguments, m, 3) == Some((Just(Uint64Var(0)), After(m, 5000, 0, 1, 1)))
  {
    hide EvalAt, LinesAt, Reached, GoesOn, CallAt, StmtAt, Passed;
    ReachedIs(f, 0, 0, 10, m);
    var m1 := After(m, 5000, 0, 1, 0);
    var none: Locals := map[];
    LeafAt(w, none, Lit(Uint64Var(0)), m1, 2);
    ReturnAt(w, f, none, Lit(Uint64Var(0)), m1, 2);
    LineStep(w, f, none, 0, 0, 10, m, 3);
    CallIs(w, name, f, arguments, m, 3);
    assert Chosen([], arguments) == none;
  }

  /** A call of `10 RETURN 0` writes and sends nothing, and costs one line and one evaluation. */
  lemma {:induction false} PingAsks(c: Invocation)
    requires c.sc == PING_CONTRACT && c.name == "Ping"
    ensures Asks(c, map[], [], Spent(5000, c.dataLength, 1, 1))
  {
    hide CallAt, Deposited;
    PingLines();
    PingMeans(Around(c), "Ping", PING, c.arguments, AtStart(c));
    assert Means(Around(c), "Ping", c.arguments, AtStart(c), (Just(Uint64Var(0)), Memory(map[], [], Spent(5000, c.dataLength, 1, 1))));
  }

  lemma CallIs(w: World, name: string, f: Function, arguments: Locals, m: Memory, n: nat)
    requires name in w.sc && w.sc[name] == f && Supplied(f.params, arguments)
    ensures CallAt(w, name, arguments, m, n) == LinesAt(w, f, Chosen(f.params, arguments), 0, 0, m, n)
  {
    hide LinesAt, Chosen, Supplied;
  }

  lemma ReturnAt(w: World, f: Function, locals: Locals, e: Expr, m: Memory, n: nat)
    requires f.ret == TUint64 && EvalAt(w, locals, e, m, n).Some?
    requires var p := EvalAt(w, locals, e, m, n).value; p.0.Just? && p.0.v.Uint64Var?
    ensures var p := EvalAt(w, locals, e, m, n).value; StmtAt(w, f, locals, Return(Some(e)), m, n) == Some(Finish(p.0, p.1))
  {
    hide EvalAt;
  }

  /** A condition that is not 0 goes to the first target, 0 to the second one, or to the next line. */
  lemma {:induction false} IfAt(w: World, f: Function, locals: Locals, e: Expr, to: nat, or: Option<nat>, m: Memory, n: nat)
    requires LineNumber(to) && (or.Some? ==> LineNumber(or.value)) && EvalAt(w, locals, e, m, n).Some?
    requires var p := EvalAt(w, locals, e, m, n).value; p.0.Just? && p.0.v.Uint64Var?
    ensures var p := EvalAt(w, locals, e, m, n).value;
      StmtAt(w, f, locals, If(e, to, or), m, n) == Some(Jump(if p.0.v.n != 0 then to else if or == None then 0 else or.value, locals, p.1))
  {
    hide EvalAt;
  }

  /** A memory after spending more. */
  function After(m: Memory, gas: nat, store: nat, lines: nat, evals: nat): Memory {
    m.(spent := Spent(m.spent.gas + gas, m.spent.store + store, m.spent.lines + lines, m.spent.evals + evals))
  }

  lemma ReachedIs(f: Function, ip: nat, newip: nat, at: nat, m: Memory)
    ensures Reached(f, ip, newip, at, m) == After(m, 5000, 0, Passed(f, ip, newip, at), 0)
  {
  }

  lemma LeafAt(w: World, locals: Locals, e: Expr, m: Memory, n: nat)
    requires n > 0 && (e.Lit? || (e.Ident? && e.name in locals))
    ensures EvalAt(w, locals, e, m, n) == Some((Just(if e.Lit? then e.v else locals[e.name]), After(m, 0, 0, 0, 1)))
  {
  }

  /** The first line of a function. */
  lemma {:induction false} FirstLine(f: Function, at: nat)
    requires at > 0 && at in f.lines && f.lines[at] != Blank && forall n :: n in f.lines ==> n >= at
    ensures GoesOn(f, 0, 0, at) && Passed(f, 0, 0, at) == 1
  {
    assert (set n | n in f.lines && 0 < n <= at) == {at};
  }

  /** It goes through exactly if the call data is paid for: within the fees, and within 20000. */
  lemma {:induction false} PingGoesThrough(c: Invocation, fees: nat, accounts: Accounts)
    requires c.sc == PING_CONTRACT && c.name == "Ping"
    ensures GoesThrough(c, fees, accounts) <==> fees == 0 || (c.dataLength <= fees && c.dataLength <= 20000)
  {
    hide Asks, Written, Deposited;
    PingAsks(c);
    var spent := Spent(5000, c.dataLength, 1, 1);
    forall raw, ts, spent' | Asks(c, raw, ts, spent') ensures raw == map[] && ts == [] && spent' == spent {
      AsksOnce(c, map[], [], spent, raw, ts, spent');
    }
    assert Settles(c, fees, accounts, map[], [], spent) <==> Allows(LimitsFor(fees), spent);
  }

  /** A burn of 5 with such a call is paid in. */
  method PingPaid(env: Machine, w: TreeWrapper, scid: Bytes, accounts: Accounts, signer: Bytes)
    returns (outcome: Outcome, r: Accounts, ts: seq<Transfer>)
    requires w.entries == map[] && w.transfers == [] && w.tree == map[] && IsAssetId(scid) && scid != ZERO_ID
    modifies w
    ensures outcome == Paid && ts == [] && AssetValue(w.tree, map[], ZERO_ID) == 5
  {
    hide Asks, Settled, GoesThrough, IsAssetId, AssetValue, Conserves, Delivers, VariablesKept, AllRegistered, PaidOut, GivenBack, Parsed, NoBlankJumps;
    var payloads := [Burn(ZERO_ID, 5)];
    ghost var c := Invocation(env, PING_CONTRACT, "Ping", map[], 100, w.tree, scid, IncomingOf(payloads));
    PingParsed();
    PingGoesThrough(c, 20000, accounts);
    outcome, r, ts := InvokeContract(env, PING_CONTRACT, "Ping", map[], 20000, 100, w, scid, payloads, accounts, signer);
    ghost var raw, spent :| Asks(c, raw, ts, spent);
    PingAsks(c);
    AsksOnce(c, map[], [], Spent(5000, 100, 1, 1), raw, ts, spent);
    assert AllRegistered(accounts, ts) by { NobodyPaid(accounts); }
    FiveKept(w.tree);
  }

  lemma NobodyPaid(accounts: Accounts)
    ensures AllRegistered(accounts, [])
  {
  }

  lemma {:induction false} FiveKept(now: View)
    requires IsAssetId(ZERO_ID) ==> Conserves(map[], now, [Burn(ZERO_ID, 5)], [], ZERO_ID)
    ensures AssetValue(now, map[], ZERO_ID) == 5
  {
    var ps := [Burn(ZERO_ID, 5)];
    assert ps[..0] == [] && IncomingOf([]) == map[];
    assert IncomingOf(ps) == map[ZERO_ID := 5];
    assert Sent([], ZERO_ID) == 0;
  }

  /** Only names that start with a capital letter can be called from outside. */
  lemma NamesMean(name: string)
    ensures Exported(name) <==> exists c, rest :: 'A' <= c <= 'Z' && name == [c] + rest
  {
    if name != "" { assert name == [name[0]] + name[1..]; }
  }

  // ---------- what has no meaning ----------

  /** Lines that are refused: a new value of another type, or for a variable that is not declared; a result of
      another type, or where there should be none, or none where there should be one; a condition that is a
      string; a variable that is declared again; a jump to line 0; a line that is no call. */
  lemma {:induction false} LinesRefused(w: World, f: Function, locals: Locals, name: string, e: Expr, to: nat, m: Memory, n: nat)
    ensures var p := EvalAt(w, locals, e, m, n);
      && (name !in locals || (p.Some? && p.value.0.Just? && p.value.0.v.Uint64Var? != locals[name].Uint64Var?) ==>
            StmtAt(w, f, locals, Let(name, e), m, n) == None)
      && (f.ret == TNone || (p.Some? && (p.value.0.Nil? || TypeOf(p.value.0.v) != f.ret)) ==>
            StmtAt(w, f, locals, Return(Some(e)), m, n) == None)
      && (p.Some? && p.value.0.Just? && p.value.0.v.StringVar? ==> StmtAt(w, f, locals, If(e, to, None), m, n) == None)
      && (!e.Call? && !e.Internal? ==> StmtAt(w, f, locals, Do(e), m, n) == None)
    ensures f.ret != TNone ==> StmtAt(w, f, locals, Return(None), m, n) == None
    ensures name in locals ==> StmtAt(w, f, locals, Dim([name], TUint64), m, n) == None
    ensures StmtAt(w, f, locals, Goto(0), m, n) == None && StmtAt(w, f, locals, If(e, 0, None), m, n) == None
  {
    hide EvalAt;
  }

  /** Expressions that panic: an unknown name, the complement of a string, the wrong number of arguments, an argument of
      another type. */
  lemma {:induction false} ExpressionsRefused(w: World, locals: Locals, name: string, e: Expr, f: Builtin, args: seq<Expr>, m: Memory, n: nat)
    ensures name !in locals ==> EvalAt(w, locals, Ident(name), m, n) == None
    ensures |args| != Arity(w.env, f) ==> EvalAt(w, locals, Internal(f, args), m, n) == None
    ensures name !in w.sc || |w.sc[name].params| != |args| ==> EvalAt(w, locals, Call(name, args), m, n) == None
    ensures var p := if n == 0 then None else EvalAt(w, locals, e, Begun(w, Complement(e), m), n - 1);
      p.Some? && p.value.0.Just? && p.value.0.v.StringVar? ==> EvalAt(w, locals, Complement(e), m, n) == None
    ensures var p := if n == 0 then None else EvalAt(w, locals, e, Begun(w, Call(name, [e]), m), n - 1);
      name in w.sc && |w.sc[name].params| == 1 && p.Some? && p.value.0.Just? && TypeOf(p.value.0.v) != w.sc[name].params[0].ty ==>
        EvalAt(w, locals, Call(name, [e]), m, n) == None
  {
    hide Begun, Performed, CallAt, Named;
    if n > 0 {
      var c := Begun(w, Call(name, [e]), m);
      if EvalAt(w, locals, e, c, n - 1).Some? { OneArg(w, locals, e, c, n - 1); }
    }
  }

  // ---------- variables ----------

  /** EXISTS after STORE gives 1, of a key that is nowhere 0, and after DELETE nothing. */
  lemma {:induction false} ExistsMeans(w: World, key: Val, v: Val, m: Memory)
    ensures var kept := Wrote(m, Marshal(key), Marshal(v));
      Performed(w, Exists, [Just(key)], kept).Some? && Performed(w, Exists, [Just(key)], kept).value.0 == Just(Uint64Var(1))
    ensures Marshal(key) !in m.raw && Marshal(key) !in w.disk ==>
      Performed(w, Exists, [Just(key)], m).Some? && Performed(w, Exists, [Just(key)], m).value.0 == Just(Uint64Var(0))
    ensures Performed(w, Delete, [Just(key)], m).Some?
    ensures Performed(w, Exists, [Just(key)], Performed(w, Delete, [Just(key)], m).value.1) == None
  {
    hide Marshal, ReadAs, Unmarshal;
    StoreThenLoad(m.raw, w.disk, key, v, key);
    DeleteThenLoad(m.raw, w.disk, key, key);
  }

  /** Reading a string costs a tenth of its length and type, but at least 1; writing costs every byte. */
  lemma {:induction false} StorageCosts(m: Memory, k: Bytes, s: Bytes)
    ensures ReadAs(m, Some(StringVar(s))).spent.store == m.spent.store + if |s| < 19 then 1 else (|s| + 1) / 10
    ensures ReadAs(m, None).spent.store == m.spent.store + 1
    ensures Wrote(m, k, Marshal(StringVar(s))).spent.store == m.spent.store + |s| + 1
  {
  }

  // ---------- a branch, a call, a variable ----------

  /** 10 IF a > b THEN GOTO 40; 20 is blank; 30 RETURN b - a; 40 RETURN a - b. */
  const DIFF: Function := Function(
    [Param("a", TUint64), Param("b", TUint64)], TUint64, [10, 20, 30, 40], map[10 := 0, 20 := 1, 30 := 2, 40 := 3],
    map[10 := If(Binary(Gtr, Ident("a"), Ident("b")), 40, None),
        20 := Blank,
        30 := Return(Some(Binary(Sub, Ident("b"), Ident("a")))),
        40 := Return(Some(Binary(Sub, Ident("a"), Ident("b"))))])

  /** 10 DIM x as Uint64; 20 LET x = diff(p, q); 30 STORE("k", x); 40 RETURN LOAD("k") - x. */
  const KEEP: Function := Function(
    [Param("p", TUint64), Param("q", TUint64)], TUint64, [10, 20, 30, 40], map[10 := 0, 20 := 1, 30 := 2, 40 := 3],
    map[10 := Dim(["x"], TUint64),
        20 := Let("x", Call("diff", [Ident("p"), Ident("q")])),
        30 := Do(Internal(Store, [Lit(KEY), Ident("x")])),
        40 := Return(Some(Binary(Sub, Internal(Load, [Lit(KEY)]), Ident("x"))))])

  const KEY: Val := StringVar([107])

  const KEEP_CONTRACT: Contract := map["diff" := DIFF, "Keep" := KEEP]

  function Distance(x: nat, y: nat): nat {
    if x > y then x - y else y - x
  }

  /** An operator on two local variables that are numbers. */
  lemma {:induction false} OnTwo(w: World, locals: Locals, op: Op, a: string, b: string, m: Memory, n: nat)
    requires n >= 2 && a in locals && b in locals && locals[a].Uint64Var? && locals[b].Uint64Var?
    requires BinaryResult(op, Just(locals[a]), Just(locals[b])).Some?
    ensures EvalAt(w, locals, Binary(op, Ident(a), Ident(b)), m, n)
      == Some((Just(BinaryResult(op, Just(locals[a]), Just(locals[b])).value), After(m, 800, 0, 0, 3)))
  {
    hide BinaryResult, EvalAt;
    var e := Binary(op, Ident(a), Ident(b));
    var c := Begun(w, e, m);
    LeafAt(w, locals, Ident(a), c, 1);
    LeafAt(w, locals, Ident(b), After(c, 0, 0, 0, 1), 1);
    BinaryMeans(w, locals, op, Ident(a), Ident(b), m,
                1, (Just(locals[a]), After(c, 0, 0, 0, 1)), 1, (Just(locals[b]), After(c, 0, 0, 0, 2)), n);
  }

  lemma DiffLines()
    ensures GoesOn(DIFF, 0, 0, 10) && Passed(DIFF, 0, 0, 10) == 1
    ensures GoesOn(DIFF, 10, 0, 30) && Passed(DIFF, 10, 0, 30) == 2
    ensures GoesOn(DIFF, 10, 40, 40) && Passed(DIFF, 10, 40, 40) == 1
  {
    FirstLine(DIFF, 10);
    assert (set n | n in DIFF.lines && 10 < n <= 30) == {20, 30};
  }

  function Numbers(x: nat, y: nat): Locals
    requires x < UINT64 && y < UINT64
  {
    map["a" := Uint64Var(x), "b" := Uint64Var(y)]
  }

  /** The function means the distance of its arguments. */
  lemma {:induction false} DiffMeans(w: World, name: string, m: Memory, x: nat, y: nat)
    requires x < UINT64 && y < UINT64 && name in w.sc && w.sc[name] == DIFF
    ensures CallAt(w, name, Numbers(x, y), m, 8)
      == Some((Just(Uint64Var(Distance(x, y))), After(m, 11600, 0, if x > y then 2 else 3, 6)))
  {
    hide EvalAt, LinesAt, CallAt, StmtAt, Numbers, Chosen, Supplied;
    DiffStart(w, m, x, y);
    DiffEnd(w, After(m, 5800, 0, 1, 3), x, y);
    DiffTakes(x, y);
    CallIs(w, name, DIFF, Numbers(x, y), m, 8);
  }

  lemma DiffTakes(x: nat, y: nat)
    requires x < UINT64 && y < UINT64
    ensures Supplied(DIFF.params, Numbers(x, y)) && Chosen(DIFF.params, Numbers(x, y)) == Numbers(x, y)
  {
    hide Chosen, Supplied;
    TwoTaken("a", "b", x, y);
  }

  lemma {:induction false} TwoTaken(a: string, b: string, x: nat, y: nat)
    requires a != b && x < UINT64 && y < UINT64
    ensures var ps, arguments: Locals := [Param(a, TUint64), Param(b, TUint64)], map[a := Uint64Var(x), b := Uint64Var(y)];
      Supplied(ps, arguments) && Chosen(ps, arguments) == arguments
  {
    var ps, arguments: Locals := [Param(a, TUint64), Param(b, TUint64)], map[a := Uint64Var(x), b := Uint64Var(y)];
    var c := Chosen(ps, arguments);
    assert ps[0].name == a && ps[1].name == b;
    assert ps[0].name in c && ps[1].name in c;
  }

  lemma {:induction false} DiffStart(w: World, m: Memory, x: nat, y: nat)
    requires x < UINT64 && y < UINT64
    ensures LinesAt(w, DIFF, Numbers(x, y), 0, 0, m, 8)
      == LinesAt(w, DIFF, Numbers(x, y), 10, if x > y then 40 else 0, After(m, 5800, 0, 1, 3), 7)
  {
    hide EvalAt, LinesAt, Reached, GoesOn, StmtAt, Passed;
    var locals := Numbers(x, y);
    DiffLines();
    ReachedIs(DIFF, 0, 0, 10, m);
    var m1 := After(m, 5000, 0, 1, 0);
    OnTwo(w, locals, Gtr, "a", "b", m1, 7);
    IfAt(w, DIFF, locals, Binary(Gtr, Ident("a"), Ident("b")), 40, None, m1, 7);
    LineStep(w, DIFF, locals, 0, 0, 10, m, 8);
  }

  lemma {:induction false} DiffEnd(w: World, m: Memory, x: nat, y: nat)
    requires x < UINT64 && y < UINT64
    ensures LinesAt(w, DIFF, Numbers(x, y), 10, if x > y then 40 else 0, m, 7)
      == Some((Just(Uint64Var(Distance(x, y))), After(m, 5800, 0, if x > y then 1 else 2, 3)))
  {
    hide EvalAt, LinesAt, Reached, GoesOn, StmtAt, Passed;
    var locals := Numbers(x, y);
    DiffLines();
    var to, at := if x > y then 40 else 0, if x > y then 40 else 30;
    var a, b := if x > y then "a" else "b", if x > y then "b" else "a";
    ReachedIs(DIFF, 10, to, at, m);
    var m1 := After(m, 5000, 0, if x > y then 1 else 2, 0);
    OnTwo(w, locals, Sub, a, b, m1, 6);
    ReturnAt(w, DIFF, locals, Binary(Sub, Ident(a), Ident(b)), m1, 6);
    LineStep(w, DIFF, locals, 10, to, at, m, 7);
  }

  function Given(x: nat, y: nat): Locals
    requires x < UINT64 && y < UINT64
  {
    map["p" := Uint64Var(x), "q" := Uint64Var(y)]
  }

  lemma KeepTakes(x: nat, y: nat)
    requires x < UINT64 && y < UINT64
    ensures Supplied(KEEP.params, Given(x, y)) && Chosen(KEEP.params, Given(x, y)) == Given(x, y)
  {
    hide Chosen, Supplied;
    TwoTaken("p", "q", x, y);
  }

  lemma KeepLines()
    ensures GoesOn(KEEP, 0, 0, 10) && Passed(KEEP, 0, 0, 10) == 1
    ensures GoesOn(KEEP, 10, 0, 20) && Passed(KEEP, 10, 0, 20) == 1
    ensures GoesOn(KEEP, 20, 0, 30) && Passed(KEEP, 20, 0, 30) == 1
    ensures GoesOn(KEEP, 30, 0, 40) && Passed(KEEP, 30, 0, 40) == 1
  {
    FirstLine(KEEP, 10);
    assert (set n | n in KEEP.lines && 10 < n <= 20) == {20};
    assert (set n | n in KEEP.lines && 20 < n <= 30) == {30};
    assert (set n | n in KEEP.lines && 30 < n <= 40) == {40};
  }

  /** The local variables of Keep once x is set. */
  function With(x: nat, y: nat, v: nat): Locals
    requires x < UINT64 && y < UINT64 && v < UINT64
  {
    Given(x, y)["x" := Uint64Var(v)]
  }

  lemma {:induction false} DimAt(w: World, x: nat, y: nat, m: Memory, n: nat)
    requires x < UINT64 && y < UINT64
    ensures StmtAt(w, KEEP, Given(x, y), Dim(["x"], TUint64), m, n) == Some(Jump(0, With(x, y, 0), m))
  {
    OneDeclared("x", TUint64, Given(x, y));
  }

  /** A new variable is 0, or the empty string. */
  lemma OneDeclared(name: string, ty: Type, locals: Locals)
    requires name !in locals && ty != TNone
    ensures AllNew([name], locals) && Declared([name], ty, locals) == locals[name := if ty == TUint64 then Uint64Var(0) else StringVar([])]
  {
  }

  lemma {:induction false} TwoArgs(w: World, locals: Locals, a: Expr, b: Expr, m: Memory, n: nat)
    requires n > 0 && (a.Lit? || (a.Ident? && a.name in locals)) && (b.Lit? || (b.Ident? && b.name in locals))
    ensures ArgsAt(w, locals, [a, b], m, n) ==
      Some(([Just(if a.Lit? then a.v else locals[a.name]), Just(if b.Lit? then b.v else locals[b.name])], After(m, 0, 0, 0, 2)))
  {
    hide EvalAt;
    var args := [a, b];
    assert args[..0] == [] && args[..1] == [a] && args[..2] == args;
    LeafAt(w, locals, a, m, n);
    LeafAt(w, locals, b, After(m, 0, 0, 0, 1), n);
    assert ArgsAt(w, locals, args[..0], m, n) == Some(([], m));
    ArgsNext(w, locals, args, m, 0, n, n, n);
    ArgsNext(w, locals, args, m, 1, n, n, n);
    var u, v: Value := Just(if a.Lit? then a.v else locals[a.name]), Just(if b.Lit? then b.v else locals[b.name]);
    assert [] + [u] == [u] && [u] + [v] == [u, v];
  }

  lemma TwoNamed(x: nat, y: nat)
    requires x < UINT64 && y < UINT64
    ensures var vals := [Just(Uint64Var(x)), Just(Uint64Var(y))];
      Suits(DIFF.params, vals) && Named(DIFF.params, vals) == Numbers(x, y)
  {
    var ps, vals: seq<Value> := DIFF.params, [Just(Uint64Var(x)), Just(Uint64Var(y))];
    assert vals[..1] == [vals[0]] && vals[..1][..0] == [] && ps[..1] == [ps[0]] && ps[..1][..0] == [];
    assert Named(ps[..1], vals[..1]) == map["a" := Uint64Var(x)];
  }

  lemma LetIs(w: World, name: string, e: Expr, locals: Locals, m: Memory, n: nat)
    requires name in locals && EvalAt(w, locals, e, m, n).Some?
    requires var p := EvalAt(w, locals, e, m, n).value; p.0.Just? && TypeOf(p.0.v) == TypeOf(locals[name])
    ensures var p := EvalAt(w, locals, e, m, n).value;
      StmtAt(w, KEEP, locals, Let(name, e), m, n) == Some(Jump(0, locals[name := p.0.v], p.1))
  {
    hide EvalAt;
  }

  lemma SetAgain(locals: Locals, name: string, a: Val, b: Val)
    ensures locals[name := a][name := b] == locals[name := b]
  {
  }

  lemma {:induction false} LetAt(w: World, x: nat, y: nat, m: Memory)
    requires x < UINT64 && y < UINT64 && "diff" in w.sc && w.sc["diff"] == DIFF
    ensures StmtAt(w, KEEP, With(x, y, 0), Let("x", Call("diff", [Ident("p"), Ident("q")])), m, 9)
      == Some(Jump(0, With(x, y, Distance(x, y)), After(m, 11600, 0, if x > y then 2 else 3, 9)))
  {
    hide EvalAt, CallAt, ArgsAt, Named, Suits, Numbers, StmtAt;
    var locals, e := With(x, y, 0), Call("diff", [Ident("p"), Ident("q")]);
    var c := After(m, 0, 0, 0, 1);
    TwoArgs(w, locals, Ident("p"), Ident("q"), c, 8);
    TwoNamed(x, y);
    DiffMeans(w, "diff", After(m, 0, 0, 0, 3), x, y);
    NestedAt(w, locals, "diff", [Ident("p"), Ident("q")], m, 8, 8, 9);
    LetIs(w, "x", e, locals, m, 9);
    SetAgain(Given(x, y), "x", Uint64Var(0), Uint64Var(Distance(x, y)));
  }

  lemma {:induction false} StoreAt(w: World, x: nat, y: nat, v: nat, m: Memory)
    requires x < UINT64 && y < UINT64 && v < UINT64
    ensures StmtAt(w, KEEP, With(x, y, v), Do(Internal(Store, [Lit(KEY), Ident("x")])), m, 9)
      == Some(Jump(0, With(x, y, v), Wrote(After(m, 10000, 0, 0, 3), Marshal(KEY), Marshal(Uint64Var(v)))))
  {
    hide EvalAt, ArgsAt, Marshal;
    var locals, args := With(x, y, v), [Lit(KEY), Ident("x")];
    TwoArgs(w, locals, args[0], args[1], After(m, 10000, 0, 0, 1), 8);
    InternalAt(w, locals, Store, args, m, 8, 9);
  }

  lemma ShortNumber(v: nat)
    requires v < UINT64
    ensures |PutUvarint(v)| <= 10
  {
    RoomForAll();
    Shorter(v, 0);
  }

  lemma {:induction false} Shorter(v: nat, i: nat)
    requires i < MAX_VARINT_LEN && v < Room(i)
    ensures |PutUvarint(v)| + i <= MAX_VARINT_LEN
    decreases v
  {
    if v >= 128 { Shorter(v / 128, i + 1); }
  }

  lemma {:induction false} LoadAt(w: World, x: nat, y: nat, v: nat, m: Memory, raw: View)
    requires x < UINT64 && y < UINT64 && v < UINT64 && m.raw == raw[Marshal(KEY) := Marshal(Uint64Var(v))]
    ensures EvalAt(w, With(x, y, v), Internal(Load, [Lit(KEY)]), m, 8) == Some((Just(Uint64Var(v)), After(m, 5000, 1, 0, 2)))
  {
    hide EvalAt, ArgsAt, Marshal, LoadKey, PutUvarint;
    var locals, args := With(x, y, v), [Lit(KEY)];
    var c := After(m, 5000, 0, 0, 1);
    LeafAt(w, locals, Lit(KEY), c, 7);
    OneArg(w, locals, Lit(KEY), c, 7);
    InternalAt(w, locals, Load, args, m, 7, 8);
    StoreThenLoad(raw, w.disk, KEY, Uint64Var(v), KEY);
    ShortNumber(v);
  }

  lemma {:induction false} OneArg(w: World, locals: Locals, a: Expr, m: Memory, n: nat)
    requires EvalAt(w, locals, a, m, n).Some?
    ensures var q := EvalAt(w, locals, a, m, n).value; ArgsAt(w, locals, [a], m, n) == Some(([q.0], q.1))
  {
    hide EvalAt;
    var args := [a];
    assert args[..0] == [] && args[..1] == args;
    assert ArgsAt(w, locals, args[..0], m, n) == Some(([], m));
    ArgsNext(w, locals, args, m, 0, n, n, n);
    var v: Value := EvalAt(w, locals, a, m, n).value.0;
    assert [] + [v] == [v];
  }

  lemma {:induction false} CompareAt(w: World, x: nat, y: nat, v: nat, m: Memory, raw: View)
    requires x < UINT64 && y < UINT64 && v < UINT64 && m.raw == raw[Marshal(KEY) := Marshal(Uint64Var(v))]
    ensures StmtAt(w, KEEP, With(x, y, v), Return(Some(Binary(Sub, Internal(Load, [Lit(KEY)]), Ident("x")))), m, 9)
      == Some(Finish(Just(Uint64Var(0)), After(m, 5800, 1, 0, 4)))
  {
    hide EvalAt, StmtAt, Marshal;
    var locals, a, b := With(x, y, v), Internal(Load, [Lit(KEY)]), Ident("x");
    var c := After(m, 800, 0, 0, 1);
    LoadAt(w, x, y, v, c, raw);
    LeafAt(w, locals, b, After(c, 5000, 1, 0, 2), 8);
    BinaryMeans(w, locals, Sub, a, b, m, 8, (Just(Uint64Var(v)), After(c, 5000, 1, 0, 2)), 8, (Just(Uint64Var(v)), After(c, 5000, 1, 0, 3)), 9);
    ReturnAt(w, KEEP, locals, Binary(Sub, a, b), m, 9);
  }

  /** What Keep writes, and what it costs besides the bytes written. */
  function Kept(m: Memory, x: nat, y: nat): Memory
    requires x < UINT64 && y < UINT64
  {
    var v := Marshal(Uint64Var(Distance(x, y)));
    After(m, 47400, |v| + 1, if x > y then 6 else 7, 16).(raw := m.raw[Marshal(KEY) := v])
  }

  lemma {:induction false} KeepMeans(w: World, name: string, m: Memory, x: nat, y: nat)
    requires x < UINT64 && y < UINT64 && name in w.sc && w.sc[name] == KEEP && "diff" in w.sc && w.sc["diff"] == DIFF
    ensures CallAt(w, name, Given(x, y), m, 13) == Some((Just(Uint64Var(0)), Kept(m, x, y)))
  {
    hide EvalAt, LinesAt, CallAt, StmtAt, Given, Chosen, Supplied, GoesOn, Passed, Reached, Marshal;
    var d := Distance(x, y);
    KeepLines();
    KeepStart(w, m, x, y);
    var m1 := After(m, 10000 + 11600, 0, 2 + if x > y then 2 else 3, 9);
    ReachedIs(KEEP, 20, 0, 30, m1);
    StoreAt(w, x, y, d, After(m1, 5000, 0, 1, 0));
    StmtMore(w, KEEP, With(x, y, d), KEEP.lines[30], After(m1, 5000, 0, 1, 0), 9, 10);
    LineStep(w, KEEP, With(x, y, d), 20, 0, 30, m1, 11);
    var m2 := Wrote(After(m1, 15000, 0, 1, 3), Marshal(KEY), Marshal(Uint64Var(d)));
    ReachedIs(KEEP, 30, 0, 40, m2);
    CompareAt(w, x, y, d, After(m2, 5000, 0, 1, 0), m.raw);
    LineStep(w, KEEP, With(x, y, d), 30, 0, 40, m2, 10);
    KeepTakes(x, y);
    CallIs(w, name, KEEP, Given(x, y), m, 13);
  }

  lemma {:induction false} KeepStart(w: World, m: Memory, x: nat, y: nat)
    requires x < UINT64 && y < UINT64 && "diff" in w.sc && w.sc["diff"] == DIFF
    ensures LinesAt(w, KEEP, Given(x, y), 0, 0, m, 13)
      == LinesAt(w, KEEP, With(x, y, Distance(x, y)), 20, 0, After(m, 10000 + 11600, 0, 2 + if x > y then 2 else 3, 9), 11)
  {
    hide EvalAt, LinesAt, CallAt, StmtAt, Given, GoesOn, Passed, Reached;
    KeepLines();
    ReachedIs(KEEP, 0, 0, 10, m);
    var m1 := After(m, 5000, 0, 1, 0);
    DimAt(w, x, y, m1, 12);
    LineStep(w, KEEP, Given(x, y), 0, 0, 10, m, 13);
    ReachedIs(KEEP, 10, 0, 20, m1);
    LetAt(w, x, y, After(m1, 5000, 0, 1, 0));
    StmtMore(w, KEEP, With(x, y, 0), KEEP.lines[20], After(m1, 5000, 0, 1, 0), 9, 11);
    LineStep(w, KEEP, With(x, y, 0), 10, 0, 20, m1, 12);
  }

  /** A call of Keep returns 0 after storing the distance of its arguments under "k". */
  lemma {:induction false} KeepAsks(c: Invocation, x: nat, y: nat)
    requires x < UINT64 && y < UINT64 && c.sc == KEEP_CONTRACT && c.name == "Keep" && c.arguments == Given(x, y)
    ensures var v := Marshal(Uint64Var(Distance(x, y)));
      Asks(c, map[Marshal(KEY) := v], [], Spent(47400, c.dataLength + |v| + 1, if x > y then 6 else 7, 16))
  {
    hide CallAt, Deposited, Given, Marshal;
    KeepMeans(Around(c), "Keep", AtStart(c), x, y);
    assert Means(Around(c), "Keep", c.arguments, AtStart(c), (Just(Uint64Var(0)), Kept(AtStart(c), x, y)));
  }
}
