/** A contract call from end to end: the interpreter, the ledger and the payments together. */
module Contracts {
  import opened ChainState
  import opened Variables
  import opened Ledger
  import opened LedgerCalls
  import opened Settlement
  import opened Totals
  import opened Dvm
  import opened Semantics
  import opened Interpreter

  const COMPUTE_GAS := 10000000
  const MAX_STORAGE_GAS := 20000

  /** A call of an entry point: the contract, its data tree, what comes in, and the length of the call data, which
      is paid for as storage. */
  datatype Invocation = Invocation(env: Machine, sc: Contract, name: string, arguments: Locals, dataLength: nat,
                                   tree: View, scid: Bytes, incoming: map<Bytes, nat>)

  /** What the entry point runs on: the tree with the deposit, and the cost of the call data. */
  function Around(c: Invocation): World {
    World(c.env, c.sc, c.tree + Deposited(c.tree, map[], c.scid, c.incoming))
  }

  function AtStart(c: Invocation): Memory {
    Memory(map[], [], Spent(0, c.dataLength, 0, 0))
  }

  /** The call means: return 0, write `raw`, send `ts`, at this cost. */
  ghost predicate Asks(c: Invocation, raw: View, ts: seq<Transfer>, spent: Spent) {
    Means(Around(c), c.name, c.arguments, AtStart(c), (Just(Uint64Var(0)), Memory(raw, ts, spent)))
  }

  /** A call asks for at most one thing, so the limits of a node decide whether it goes through, and nothing else. */
  lemma {:induction false} AsksOnce(c: Invocation, raw: View, ts: seq<Transfer>, spent: Spent, raw': View, ts': seq<Transfer>, spent': Spent)
    requires Asks(c, raw, ts, spent) && Asks(c, raw', ts', spent')
    ensures raw == raw' && ts == ts' && spent == spent'
  {
    hide Means, Around;
    OneMeaning(Around(c), c.name, c.arguments, AtStart(c),
               (Just(Uint64Var(0)), Memory(raw, ts, spent)), (Just(Uint64Var(0)), Memory(raw', ts', spent')));
  }

  /** Ten million units of gas for every call; storage gas is what the fees pay for, up to 20000, and without fees
      it is not limited. */
  function LimitsFor(fees: nat): Limits {
    Limits(Some(COMPUTE_GAS), if fees == 0 then None else if fees > MAX_STORAGE_GAS then Some(MAX_STORAGE_GAS) else Some(fees))
  }

  /** In numbers: what a call may cost. */
  lemma {:induction false} LimitsMean(fees: nat, gas: nat, store: nat, lines: nat, evals: nat)
    ensures Allows(LimitsFor(fees), Spent(gas, store, lines, evals)) <==>
      gas <= 10000000 && lines <= 2000 && evals <= 11000 && (fees == 0 || (store <= fees && store <= 20000))
  {
  }

  /** The call goes through: it asks for something, at a cost within the limits, sends no more than it has, and its
      last destination is registered. */
  ghost predicate GoesThrough(c: Invocation, fees: nat, accounts: Accounts) {
    Exported(c.name) && exists raw, ts, spent :: Asks(c, raw, ts, spent) && Settles(c, fees, accounts, raw, ts, spent)
  }

  ghost predicate Settles(c: Invocation, fees: nat, accounts: Accounts, raw: View, ts: seq<Transfer>, spent: Spent) {
    && Allows(LimitsFor(fees), spent) && LastRegistered(accounts, ts)
    && Covered(c.tree, Written(Deposited(c.tree, map[], c.scid, c.incoming), c.scid, raw), c.scid, ts)
  }

  /** What running the entry point gave, if anything, and what the call asks for. */
  ghost predicate Ran(c: Invocation, fees: nat, vm: VmResult) {
    && (vm.Returned? ==> Amounts64(vm.ts) && VariableKeys(vm.raw))
    && if vm.Returned? && vm.code == 0 then
         Exported(c.name) && exists spent :: Asks(c, vm.raw, vm.ts, spent) && Allows(LimitsFor(fees), spent)
       else
         !Exported(c.name) || forall raw, ts, spent :: Asks(c, raw, ts, spent) ==> !Allows(LimitsFor(fees), spent)
  }

  /** Pays for the call data and runs the entry point over the tree with the deposit. */
  method RunEntryPoint(c: Invocation, fees: nat) returns (vm: VmResult)
    requires Parsed(c.sc) && NoBlankJumps(c.sc)
    ensures Ran(c, fees, vm)
  {
    hide Means, Around, Deposited, Parsed, NoBlankJumps, Amounts64, VariableKeys, Ran;
    var disk := c.tree + Deposited(c.tree, map[], c.scid, c.incoming);
    var state := new State(COMPUTE_GAS, true, if fees > MAX_STORAGE_GAS then MAX_STORAGE_GAS else fees, fees > 0, disk);
    var enough := state.ConsumeStorageGas(c.dataLength);
    vm := VmResult.Failed;
    if !enough {
      TooLong(c, fees);
      RanNothing(c, fees, vm);
      return;
    }
    assert Around(c) == World(c.env, c.sc, disk) by { AroundMeans(c); }
    assert state.Mem() == AtStart(c) && state.Lim() == LimitsFor(fees);
    var out := state.RunSmartContract(c.env, c.sc, c.name, c.arguments);
    if out.Done? && out.value.Just? && out.value.v.Uint64Var? {
      vm := Returned(out.value.v.n, state.raw, state.transfers);
    }
    if out.Done? {
      RanSomething(c, fees, vm, (out.value, state.Mem()));
    } else {
      RanNothing(c, fees, vm);
    }
  }

  /** Runs the entry point over the tree with the deposit, and settles what it wrote and sent: the tree takes
      the deposit, the writes and the debits that the program means, or stays as it was; and whatever the
      program is, no value of another asset than its own appears or disappears. `ts` is what was sent. */
  method InvokeContract(env: Machine, sc: Contract, name: string, arguments: Locals, fees: nat, dataLength: nat,
                        w: TreeWrapper, scid: Bytes, payloads: seq<Burn>, accounts: Accounts, signer: Bytes)
    returns (outcome: Outcome, r: Accounts, ts: seq<Transfer>)
    requires Parsed(sc) && NoBlankJumps(sc)
    requires w.entries == map[] && w.transfers == []
    modifies w
    ensures outcome in {Paid, PaymentStuck} <==>
      GoesThrough(Invocation(env, sc, name, arguments, dataLength, old(w.tree), scid, IncomingOf(payloads)), fees, accounts)
    ensures outcome in {Paid, PaymentStuck} ==> (outcome == Paid <==> AllRegistered(accounts, ts))
    ensures outcome in {Paid, PaymentStuck} ==> forall asset :: IsAssetId(asset) && asset != scid ==>
      Conserves(old(w.tree), w.tree, payloads, ts, asset)
    ensures outcome in {Paid, PaymentStuck} ==> exists raw, spent ::
      && Asks(Invocation(env, sc, name, arguments, dataLength, old(w.tree), scid, IncomingOf(payloads)), raw, ts, spent)
      && w.tree == Settled(old(w.tree), map[], scid, IncomingOf(payloads), raw, ts)
      && (IsAssetId(scid) ==> VariablesKept(old(w.tree), w.tree, IncomingOf(payloads), raw, ts))
    ensures outcome == Paid ==> PaidOut(accounts, r, ts)
    ensures outcome == Paid ==> forall asset :: IsAssetId(asset) && asset != scid ==>
      Delivers(old(w.tree), w.tree, accounts, r, payloads, asset)
    ensures outcome in {Refunded, RefundStuck} ==> w.tree == old(w.tree) && ts == []
    ensures outcome in {Refunded, RefundStuck} ==>
      (outcome == Refunded <==> forall a :: a in IncomingOf(payloads) ==> signer in Tree(accounts, a))
    ensures outcome == Refunded ==> GivenBack(accounts, r, signer, IncomingOf(payloads), IncomingOf(payloads).Keys)
  {
    hide Asks, Settled, Commit, Debited, Written, Deposited, Covered, PaidOut, GivenBack, Parsed, NoBlankJumps, IsAssetId, AssetValue, Sent, Incoming, Wrap64, VariableKeys, Amounts64, AllRegistered;
    hide Conserves, Delivers, GrownBy, VariablesKept, Goes, Ran, GoesThrough, LastRegistered;
    ghost var tree := w.tree;
    var incoming := CollectIncoming(payloads);
    var c := Invocation(env, sc, name, arguments, dataLength, w.tree, scid, incoming);
    var vm := RunEntryPoint(c, fees);
    RanMeans(c, fees, vm, accounts);
    outcome, r := CallContract(w, scid, incoming, vm, accounts, signer);
    ts := [];
    if outcome == Paid || outcome == PaymentStuck {
      ts := vm.ts;
      GoesMeans(tree, scid, incoming, vm, accounts);
      CallConserves(tree, scid, payloads, vm.raw, ts);
      if outcome == Paid {
        forall asset | IsAssetId(asset) && asset != scid ensures Delivers(tree, w.tree, accounts, r, payloads, asset) {
          DeliversIf(tree, w.tree, accounts, r, payloads, ts, asset);
        }
      }
    }
  }

  lemma AroundMeans(c: Invocation)
    ensures Around(c) == World(c.env, c.sc, c.tree + Deposited(c.tree, map[], c.scid, c.incoming))
  {
  }

  /** Call data beyond the limit leaves no room for any meaning. */
  lemma {:induction false} TooLong(c: Invocation, fees: nat)
    requires !Allows(LimitsFor(fees), AtStart(c).spent)
    ensures !MeansWithin(LimitsFor(fees), Around(c), c.name, c.arguments, AtStart(c))
  {
    hide CallAt, Allows, Around;
    var l, w, m := LimitsFor(fees), Around(c), AtStart(c);
    forall r | Means(w, c.name, c.arguments, m, r) ensures !Allows(l, r.1.spent) {
      var n: nat :| CallAt(w, c.name, c.arguments, m, n) == Some(r);
      CallGrows(w, c.name, c.arguments, m, n);
      StaysOver(l, m.spent, r.1.spent);
    }
  }

  lemma RanNothing(c: Invocation, fees: nat, vm: VmResult)
    requires vm == VmResult.Failed
    requires !(Exported(c.name) && MeansWithin(LimitsFor(fees), Around(c), c.name, c.arguments, AtStart(c)))
    ensures Ran(c, fees, vm)
  {
    hide Means, Allows, Around;
  }

  lemma {:induction false} RanSomething(c: Invocation, fees: nat, vm: VmResult, r: (Value, Memory))
    requires Exported(c.name) && Means(Around(c), c.name, c.arguments, AtStart(c), r) && Allows(LimitsFor(fees), r.1.spent)
    requires Amounts64(r.1.sent) && VariableKeys(r.1.raw)
    requires vm == if r.0.Just? && r.0.v.Uint64Var? then Returned(r.0.v.n, r.1.raw, r.1.sent) else VmResult.Failed
    ensures Ran(c, fees, vm)
  {
    hide Means, Allows, Around, Amounts64, VariableKeys;
    if vm.Returned? && vm.code == 0 {
      assert Asks(c, vm.raw, vm.ts, r.1.spent);
    } else {
      forall raw, ts, spent | Asks(c, raw, ts, spent) ensures false {
        OneMeaning(Around(c), c.name, c.arguments, AtStart(c), r, (Just(Uint64Var(0)), Memory(raw, ts, spent)));
      }
    }
  }

  /** The ledger lets the result through exactly if the call goes through. */
  lemma {:induction false} RanMeans(c: Invocation, fees: nat, vm: VmResult, accounts: Accounts)
    requires Ran(c, fees, vm)
    ensures Goes(c.tree, c.scid, c.incoming, vm, accounts) <==> GoesThrough(c, fees, accounts)
    ensures Goes(c.tree, c.scid, c.incoming, vm, accounts) ==> vm.Returned? && VariableKeys(vm.raw) && exists spent :: Asks(c, vm.raw, vm.ts, spent)
    ensures vm.Returned? ==> Amounts64(vm.ts)
  {
    hide Asks, Allows, LastRegistered, Covered, Amounts64, VariableKeys, Written, Deposited;
    if vm.Returned? && vm.code == 0 {
      var spent :| Asks(c, vm.raw, vm.ts, spent) && Allows(LimitsFor(fees), spent);
      forall raw, ts, spent' | Asks(c, raw, ts, spent') ensures raw == vm.raw && ts == vm.ts && spent' == spent {
        AsksOnce(c, vm.raw, vm.ts, spent, raw, ts, spent');
      }
      assert Goes(c.tree, c.scid, c.incoming, vm, accounts) <==> Settles(c, fees, accounts, vm.raw, vm.ts, spent);
    }
  }

  /** What is stored of an asset and what was sent of it add up to what was stored and what is counted as incoming,
      modulo 2^64; and to what was stored and what was burned, exactly if no burn was overwritten and the
      deposit fits in 64 bits. */
  ghost predicate Conserves(was: View, now: View, payloads: seq<Burn>, ts: seq<Transfer>, asset: Bytes) {
    var stored, left := AssetValue(was, map[], asset), AssetValue(now, map[], asset) + Sent(ts, asset);
    && left == Wrap64(stored + Incoming(IncomingOf(payloads), asset))
    && (left == stored + Burned(payloads, asset) <==>
          !BurnLost(payloads, asset) && stored + Incoming(IncomingOf(payloads), asset) < UINT64)
  }

  /** The contract's balance and all accounts of the asset together grow by exactly what was burned, if and only if
      no burn was overwritten and the deposit fits in 64 bits. */
  ghost predicate Delivers(was: View, now: View, before: Accounts, after: Accounts, payloads: seq<Burn>, asset: Bytes) {
    var stored := AssetValue(was, map[], asset);
    AssetValue(now, map[], asset) + Total(Tree(after, asset)) == stored + Total(Tree(before, asset)) + Burned(payloads, asset)
    <==> !BurnLost(payloads, asset) && stored + Incoming(IncomingOf(payloads), asset) < UINT64
  }

  lemma DeliversIf(was: View, now: View, before: Accounts, after: Accounts, payloads: seq<Burn>, ts: seq<Transfer>, asset: Bytes)
    requires Conserves(was, now, payloads, ts, asset) && GrownBy(before, after, ts)
    ensures Delivers(was, now, before, after, payloads, asset)
  {
    hide AssetValue, Sent, Incoming, IncomingOf, Burned, BurnLost, Total, Tree;
  }

  /** Every variable whose bytes are spared, as they are if they name no asset that comes in or is sent, is what
      the program has last written or found. */
  ghost predicate VariablesKept(was: View, now: View, incoming: map<Bytes, nat>, raw: View, ts: seq<Transfer>) {
    forall key: Variable :: Fits(key) ==>
      VariableKept(was, now, incoming, raw, ts, Marshal(key))
  }

  ghost predicate VariableKept(was: View, now: View, incoming: map<Bytes, nat>, raw: View, ts: seq<Transfer>, k: Bytes) {
    && (k !in incoming && k !in PaidAssets(ts) ==> Spared(was, incoming, raw, ts, k))
    && (Held(now, k) == Seen(was, raw, k) <==> Spared(was, incoming, raw, ts, k))
    && (Spared(was, incoming, raw, ts, k) ==> LoadDisk(now, k) == if k in raw then LoadDisk(raw, k) else LoadDisk(was, k))
  }

  lemma {:induction false} CallConserves(tree: View, scid: Bytes, payloads: seq<Burn>, raw: View, ts: seq<Transfer>)
    requires VariableKeys(raw)
    requires Covered(tree, Written(Deposited(tree, map[], scid, IncomingOf(payloads)), scid, raw), scid, ts)
    ensures var now := Settled(tree, map[], scid, IncomingOf(payloads), raw, ts);
      && (forall asset :: IsAssetId(asset) && asset != scid ==> Conserves(tree, now, payloads, ts, asset))
      && (IsAssetId(scid) ==> VariablesKept(tree, now, IncomingOf(payloads), raw, ts))
  {
    hide Settled, Written, Deposited, Covered, IsAssetId, AssetValue, Sent, Incoming, IncomingOf, Burned, BurnLost, VariableKeys, Marshal, LoadDisk, Held, Seen, Spared;
    var now := Settled(tree, map[], scid, IncomingOf(payloads), raw, ts);
    forall asset | IsAssetId(asset) && asset != scid ensures Conserves(tree, now, payloads, ts, asset) {
      LedgerConserved(tree, map[], scid, IncomingOf(payloads), raw, ts, asset);
      BurnsConserved(tree, scid, payloads, raw, ts, asset);
    }
    if IsAssetId(scid) {
      forall key: Variable | Fits(key) ensures VariableKept(tree, now, IncomingOf(payloads), raw, ts, Marshal(key)) {
        VariablesCommitted(tree, scid, IncomingOf(payloads), raw, ts, key);
      }
    }
  }

  /** Something is sent exactly by a positive amount of an asset of 32 bytes to a valid address, and then just that. */
  lemma {:induction false} SendMeans(w: World, address: Val, amount: Val, asset: Val, m: Memory)
    ensures var r := SentTo(w, Just(address), Just(amount), Just(asset), m);
      && (r.Some? && r.value.1 != m <==>
            address.StringVar? && amount.Uint64Var? && asset.StringVar? && w.env.isAddress(address.s) && amount.n > 0 && |asset.s| == 32)
      && (r.Some? && r.value.1 != m ==> r.value == (Just(amount), m.(sent := m.sent + [Transfer(asset.s, address.s, amount.n)])))
      && (r.Some? && r.value.1 == m ==> r.value.0 == Just(Uint64Var(0)))
  {
    var r := SentTo(w, Just(address), Just(amount), Just(asset), m);
    if r.Some? && amount.n > 0 { assert |r.value.1.sent| == |m.sent| + 1; }
  }

  /** The interpreter lets a contract send away its own variable: any 32 bytes are an asset. */
  lemma {:induction false} VariableSendable(w: World, name: Bytes, address: Val, m: Memory)
    requires |name| == HASH_LENGTH - 1 && address.StringVar? && w.env.isAddress(address.s)
    ensures var k := Marshal(StringVar(name));
      SentTo(w, Just(address), Just(Uint64Var(1)), Just(StringVar(k)), m)
      == Some((Just(Uint64Var(1)), m.(sent := m.sent + [Transfer(k, address.s, 1)])))
  {
  }
}
