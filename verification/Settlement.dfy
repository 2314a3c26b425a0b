/** Paying out, or giving back, what a contract call moved, and the call as a whole, from the deposit of
    what came in to the payments. */
module Settlement {
  import opened ChainState
  import opened Partition
  import opened Variables
  import opened Ledger
  import opened LedgerCalls
  import opened Totals

  /** What running the contract gave: an error or a panic, or its return value, writes and transfers. */
  datatype VmResult = Failed | Returned(code: nat, raw: View, ts: seq<Transfer>)

  /** Paid: committed and paid. Refunded: failed and given back. Stuck: a panic after which the rest of the
      payments, or refunds, do not happen. */
  datatype Outcome = Paid | PaymentStuck | Refunded | RefundStuck

  /** Every address that is sent something is registered. */
  predicate AllRegistered(accounts: Accounts, ts: seq<Transfer>) {
    forall i :: 0 <= i < |ts| && ts[i].amount > 0 ==> Registered(accounts, ts[i].address)
  }

  /** Accounts before and after the first transfers. */
  ghost predicate PaidOut(was: Accounts, now: Accounts, ts: seq<Transfer>) {
    && (forall a, d :: Balance(now, a, d) == Balance(was, a, d) + PaidTo(ts, a, d))
    && (forall d :: Registered(now, d) <==> Registered(was, d))
  }

  ghost predicate GivenBack(was: Accounts, now: Accounts, signer: Bytes, incoming: map<Bytes, nat>, done: set<Bytes>) {
    && (forall a, d :: Balance(now, a, d) == Balance(was, a, d) + if d == signer && a in done then Incoming(incoming, a) else 0)
    && (forall a, d :: d in Tree(was, a) <==> d in Tree(now, a))
  }

  /** The accounts of every asset together have grown by what was sent of it. */
  ghost predicate GrownBy(was: Accounts, now: Accounts, ts: seq<Transfer>) {
    forall a :: Total(Tree(now, a)) == Total(Tree(was, a)) + Sent(ts, a)
  }

  /** Pays the transfers in order; stops at the first unregistered address. The sanity check before lets
      such addresses through unless they come last, although it says it would not. */
  method ProcessExternal(accounts: Accounts, ts: seq<Transfer>) returns (ok: bool, r: Accounts)
    ensures ok <==> AllRegistered(accounts, ts)
    ensures ok ==> PaidOut(accounts, r, ts) && GrownBy(accounts, r, ts)
  {
    hide Balance, Registered, PaidOut, PaidTo, GrownBy;
    r := accounts;
    var i := 0;
    PaidNone(accounts);
    GrownNone(accounts);
    while i < |ts|
      invariant 0 <= i <= |ts|
      invariant PaidOut(accounts, r, ts[..i]) && GrownBy(accounts, r, ts[..i])
      invariant AllRegistered(accounts, ts[..i])
    {
      var t := ts[i];
      assert ts[..i + 1] == ts[..i] + [t];
      PaidNext(accounts, r, ts[..i], t);
      GrownNext(accounts, r, ts[..i], t);
      if t.amount != 0 {
        if !(t.address in Tree(r, ZERO_ID)) {
          RegisteredMeans(r, t.address);
          return false, r;
        }
        RegisteredMeans(r, t.address);
        r := Credit(r, t.asset, t.address, t.amount);
      }
      i := i + 1;
    }
    assert ts[..i] == ts;
    ok := true;
  }

  lemma PaidNone(accounts: Accounts)
    ensures PaidOut(accounts, accounts, [])
  {
  }

  lemma GrownNone(accounts: Accounts)
    ensures GrownBy(accounts, accounts, [])
  {
  }

  lemma {:induction false} GrownNext(was: Accounts, now: Accounts, ts: seq<Transfer>, t: Transfer)
    requires GrownBy(was, now, ts)
    ensures t.amount == 0 ==> GrownBy(was, now, ts + [t])
    ensures GrownBy(was, Credit(now, t.asset, t.address, t.amount), ts + [t])
  {
    hide Total;
    assert (ts + [t])[..|ts|] == ts;
    TotalRaised(Tree(now, t.asset), t.address, t.amount);
    forall a ensures Sent(ts + [t], a) == Sent(ts, a) + if t.asset == a then t.amount else 0 {
    }
  }

  lemma RegisteredMeans(accounts: Accounts, address: Bytes)
    ensures Registered(accounts, address) <==> address in Tree(accounts, ZERO_ID)
  {
  }

  lemma {:induction false} PaidNext(was: Accounts, now: Accounts, ts: seq<Transfer>, t: Transfer)
    requires PaidOut(was, now, ts)
    ensures t.amount == 0 ==> PaidOut(was, now, ts + [t])
    ensures Registered(now, t.address) <==> Registered(was, t.address)
    ensures Registered(now, t.address) ==> PaidOut(was, Credit(now, t.asset, t.address, t.amount), ts + [t])
  {
    hide Balance, Registered, Credit;
    assert (ts + [t])[..|ts|] == ts;
    forall a, d ensures PaidTo(ts + [t], a, d) == PaidTo(ts, a, d) + if t.asset == a && t.address == d then t.amount else 0 {
    }
  }

  /** Gives the incoming values back to the signer; stops if the signer has no account for an asset. */
  method ErrorRevert(accounts: Accounts, signer: Bytes, incoming: map<Bytes, nat>) returns (ok: bool, r: Accounts)
    ensures ok <==> forall a :: a in incoming ==> signer in Tree(accounts, a)
    ensures ok ==> GivenBack(accounts, r, signer, incoming, incoming.Keys)
  {
    hide Balance, GivenBack, Incoming, Tree, Credit;
    r := accounts;
    var assets := incoming.Keys;
    ghost var done: set<Bytes> := {};
    SplitStart(incoming.Keys);
    GivenNone(accounts, signer, incoming);
    while assets != {}
      invariant Split(incoming.Keys, done, assets)
      invariant GivenBack(accounts, r, signer, incoming, done)
      invariant forall a :: a in done ==> signer in Tree(accounts, a)
      decreases |assets|
    {
      var asset :| asset in assets;
      SplitStep(incoming.Keys, done, assets, asset);
      GivenNext(accounts, r, signer, incoming, done, asset);
      if signer !in Tree(r, asset) { return false, r; }
      r := Credit(r, asset, signer, incoming[asset]);
      assets, done := assets - {asset}, done + {asset};
    }
    SplitEnd(incoming.Keys, done);
    ok := true;
  }

  lemma GivenNone(accounts: Accounts, signer: Bytes, incoming: map<Bytes, nat>)
    ensures GivenBack(accounts, accounts, signer, incoming, {})
  {
  }

  lemma {:induction false} GivenNext(was: Accounts, now: Accounts, signer: Bytes, incoming: map<Bytes, nat>, done: set<Bytes>, asset: Bytes)
    requires GivenBack(was, now, signer, incoming, done) && asset in incoming && asset !in done
    ensures signer in Tree(was, asset) <==> signer in Tree(now, asset)
    ensures signer in Tree(now, asset) ==>
      GivenBack(was, Credit(now, asset, signer, incoming[asset]), signer, incoming, done + {asset})
  {
    hide Balance;
    if signer in Tree(now, asset) {
      var next := Credit(now, asset, signer, incoming[asset]);
      forall a, d ensures d in Tree(was, a) <==> d in Tree(next, a) {
        assert d in Tree(was, a) <==> d in Tree(now, a);
      }
      forall a, d ensures Balance(next, a, d) == Balance(was, a, d) + if d == signer && a in done + {asset} then Incoming(incoming, a) else 0 {
        assert Balance(next, a, d) == Balance(now, a, d) + if a == asset && d == signer then incoming[asset] else 0;
      }
    }
  }

  /** A call of an installed contract, from the deposit of what came in to the payments: the data tree either
      stays as it was, or takes the deposit, the writes and the debits together. */
  method CallContract(w: TreeWrapper, scid: Bytes, incoming: map<Bytes, nat>, vm: VmResult, accounts: Accounts, signer: Bytes)
    returns (outcome: Outcome, r: Accounts)
    requires w.entries == map[] && w.transfers == []
    requires vm.Returned? ==> Amounts64(vm.ts)
    modifies w
    ensures Goes(old(w.tree), scid, incoming, vm, accounts) <==> outcome in {Paid, PaymentStuck}
    ensures outcome in {Paid, PaymentStuck} ==> vm.Returned? && w.tree == Settled(old(w.tree), map[], scid, incoming, vm.raw, vm.ts)
    ensures outcome in {Refunded, RefundStuck} ==> w.tree == old(w.tree)
    ensures outcome in {Paid, PaymentStuck} ==> (outcome == Paid <==> AllRegistered(accounts, vm.ts))
    ensures outcome == Paid ==> PaidOut(accounts, r, vm.ts) && GrownBy(accounts, r, vm.ts)
    ensures outcome == Refunded ==> GivenBack(accounts, r, signer, incoming, incoming.Keys)
    ensures outcome in {Refunded, RefundStuck} ==> (outcome == Refunded <==> forall a :: a in incoming ==> signer in Tree(accounts, a))
  {
    hide Settled, Commit, Debited, Written, Deposited, Covered, LastRegistered, AllRegistered, PaidOut, GrownBy, GivenBack, Amounts64;
    ghost var tree := w.tree;
    w.Deposit(scid, incoming);
    var ok := false;
    if vm.Returned? && vm.code == 0 {
      w.StoreWrites(scid, vm.raw);
      w.transfers := w.transfers + vm.ts;
      assert w.transfers == vm.ts;
      ok := w.SanityCheckExternalTransfers(scid, accounts);
    }
    GoesMeans(tree, scid, incoming, vm, accounts);
    if !ok {
      ok, r := ErrorRevert(accounts, signer, incoming);
      return if ok then Refunded else RefundStuck, r;
    }
    SettledMeans(tree, scid, incoming, vm.raw, vm.ts);
    w.CommitEntries();
    ok, r := ProcessExternal(accounts, vm.ts);
    outcome := if ok then Paid else PaymentStuck;
  }

  /** The call goes through: the contract returned 0, sends no more than it has, and its last destination
      is registered. */
  ghost predicate Goes(tree: View, scid: Bytes, incoming: map<Bytes, nat>, vm: VmResult, accounts: Accounts) {
    vm.Returned? && vm.code == 0 && LastRegistered(accounts, vm.ts)
    && Covered(tree, Written(Deposited(tree, map[], scid, incoming), scid, vm.raw), scid, vm.ts)
  }

  lemma GoesMeans(tree: View, scid: Bytes, incoming: map<Bytes, nat>, vm: VmResult, accounts: Accounts)
    ensures Goes(tree, scid, incoming, vm, accounts) <==>
      vm.Returned? && vm.code == 0 && LastRegistered(accounts, vm.ts)
      && Covered(tree, Written(Deposited(tree, map[], scid, incoming), scid, vm.raw), scid, vm.ts)
  {
  }

  lemma SettledMeans(tree: View, scid: Bytes, incoming: map<Bytes, nat>, raw: View, ts: seq<Transfer>)
    ensures Settled(tree, map[], scid, incoming, raw, ts)
      == Commit(tree, Debited(tree, Written(Deposited(tree, map[], scid, incoming), scid, raw), scid, ts))
  {
  }

  /** Two payments, the first to somebody without an account: the sanity check looks only at the last one, so
      the tree is committed and the payments stop. */
  method FirstUnregistered(w: TreeWrapper, scid: Bytes, somebody: Bytes, nobody: Bytes, signer: Bytes)
    returns (outcome: Outcome, r: Accounts)
    requires w.entries == map[] && w.transfers == [] && w.tree == map[ZERO_ID := PutBE(2, 8)]
    requires IsAssetId(scid) && scid != ZERO_ID && somebody != nobody
    modifies w
    ensures outcome == PaymentStuck
    ensures AssetValue(old(w.tree), map[], ZERO_ID) == 2 && AssetValue(w.tree, map[], ZERO_ID) == 0
  {
    hide Settled, Goes, AllRegistered, PutBE, Amount, Sent;
    var accounts: Accounts := map[ZERO_ID := map[somebody := 0]];
    var ts := [Transfer(ZERO_ID, nobody, 1), Transfer(ZERO_ID, somebody, 1)];
    ghost var tree := w.tree;
    AmountBack(2);
    TwoSent(nobody, somebody);
    StuckMeans(tree, scid, accounts, somebody, nobody);
    outcome, r := CallContract(w, scid, map[], Returned(0, map[], ts), accounts, signer);
    LedgerConserved(tree, map[], scid, map[], map[], ts, ZERO_ID);
  }

  lemma TwoSent(a: Bytes, b: Bytes)
    ensures var ts := [Transfer(ZERO_ID, a, 1), Transfer(ZERO_ID, b, 1)];
      Sent(ts, ZERO_ID) == 2 && PaidAssets(ts) == {ZERO_ID} && Amounts64(ts)
  {
    var ts := [Transfer(ZERO_ID, a, 1), Transfer(ZERO_ID, b, 1)];
    assert ts[..1][..0] == [] && Sent(ts[..1][..0], ZERO_ID) == 0;
    assert Sent(ts[..1], ZERO_ID) == 1;
    assert ts[0].asset == ZERO_ID;
  }

  lemma {:induction false} StuckMeans(tree: View, scid: Bytes, accounts: Accounts, somebody: Bytes, nobody: Bytes)
    requires AssetValue(tree, map[], ZERO_ID) == 2 && scid != ZERO_ID && somebody != nobody
    requires accounts == map[ZERO_ID := map[somebody := 0]]
    ensures var ts := [Transfer(ZERO_ID, nobody, 1), Transfer(ZERO_ID, somebody, 1)];
      && Goes(tree, scid, map[], Returned(0, map[], ts), accounts) && !AllRegistered(accounts, ts)
      && Covered(tree, Written(Deposited(tree, map[], scid, map[]), scid, map[]), scid, ts)
  {
    hide Amount, Sent, PaidAssets;
    var ts := [Transfer(ZERO_ID, nobody, 1), Transfer(ZERO_ID, somebody, 1)];
    TwoSent(nobody, somebody);
    assert Written(Deposited(tree, map[], scid, map[]), scid, map[]) == map[];
    assert ts[0].amount > 0 && !Registered(accounts, ts[0].address);
  }
}
