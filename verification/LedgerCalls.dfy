/**
 A contract call in place.

 The data tree of the called contract is wrapped: writes go to a table of entries and reach the
 tree only on commit. The sanity check of what the call sends works on the same table, and the
 accounts that are paid are changed after it.
 */
module LedgerCalls {
  import opened ChainState
  import opened Partition
  import opened Variables
  import opened Ledger

  /** Account balances: asset, then address. Encrypted balances are added to as plain numbers. */
  type Accounts = map<Bytes, map<Bytes, nat>>

  function Tree(accounts: Accounts, asset: Bytes): map<Bytes, nat> {
    if asset in accounts then accounts[asset] else map[]
  }

  function Balance(accounts: Accounts, asset: Bytes, address: Bytes): nat {
    if address in Tree(accounts, asset) then Tree(accounts, asset)[address] else 0
  }

  predicate Registered(accounts: Accounts, address: Bytes) {
    address in Tree(accounts, ZERO_ID)
  }

  /** Nothing is sent, or the last destination is registered. */
  predicate LastRegistered(accounts: Accounts, ts: seq<Transfer>) {
    ts == [] || Registered(accounts, ts[|ts| - 1].address)
  }

  function Credit(accounts: Accounts, asset: Bytes, address: Bytes, amount: nat): (r: Accounts)
    ensures forall a, d :: Balance(r, a, d) == Balance(accounts, a, d) + if a == asset && d == address then amount else 0
    ensures Registered(accounts, address) ==> forall d :: Registered(r, d) <==> Registered(accounts, d)
  {
    var row: map<Bytes, nat> := Tree(accounts, asset)[address := Balance(accounts, asset, address) + amount];
    accounts[asset := row]
  }

  class TreeWrapper {
    var tree: View
    var entries: View
    var transfers: seq<Transfer>

    /** A new wrapper over a committed tree. */
    constructor (tree: View)
      ensures this.tree == tree && entries == map[] && transfers == []
    {
      this.tree, entries, transfers := tree, map[], [];
    }

    method Get(key: Bytes) returns (value: Option<Bytes>)
      ensures value == Look(tree, entries, key)
    {
      if key in entries { return Some(entries[key]); }
      if key in tree { return Some(tree[key]); }
      return None;
    }

    method LoadSCAssetValue(asset: Bytes) returns (v: nat)
      ensures v == AssetValue(tree, entries, asset) && v < UINT64
    {
      var data := Get(asset);
      if data == None || |data.value| == 0 || |data.value| != 8 { return 0; }
      v := Amount(data);
    }

    /** The contract's own token is never stored. */
    method StoreSCValue(scid: Bytes, key: Bytes, value: Bytes)
      modifies this`entries
      ensures entries == if key == scid then old(entries) else old(entries)[key := value]
    {
      if scid == key { return; }
      entries := entries[key := value];
    }

    /** Adds the incoming values to the stored ones. */
    method Deposit(scid: Bytes, incoming: map<Bytes, nat>)
      modifies this`entries
      ensures entries == Deposited(tree, old(entries), scid, incoming)
    {
      hide *;
      ghost var t, e := tree, entries;
      ghost var f := (k: Bytes) => DepositedBytes(t, e, k, Incoming(incoming, k));
      var assets := incoming.Keys;
      ghost var done: set<Bytes> := {};
      SplitStart(incoming.Keys);
      OverwriteNone(e, scid, f);
      while assets != {}
        invariant Split(incoming.Keys, done, assets)
        invariant entries == Overwritten(e, scid, done, f)
        decreases |assets|
      {
        var asset :| asset in assets;
        SplitStep(incoming.Keys, done, assets, asset);
        var stored := LoadSCAssetValue(asset);
        var value := PutBE(Wrap64(stored + incoming[asset]), 8);
        DepositStep(t, e, scid, incoming, done, f, asset, stored, value);
        StoreSCValue(scid, asset, value);
        assets, done := assets - {asset}, done + {asset};
      }
      SplitEnd(incoming.Keys, done);
      DepositedAll(t, e, scid, incoming, f);
    }

    /** Keeps the variables the contract wrote. */
    method StoreWrites(scid: Bytes, raw: View)
      modifies this`entries
      ensures entries == Written(old(entries), scid, raw)
    {
      hide *;
      ghost var t, e := tree, entries;
      ghost var f := (k: Bytes) => if k in raw then raw[k] else [];
      var keys := raw.Keys;
      ghost var done: set<Bytes> := {};
      SplitStart(raw.Keys);
      OverwriteNone(e, scid, f);
      while keys != {}
        invariant Split(raw.Keys, done, keys)
        invariant entries == Overwritten(e, scid, done, f)
        decreases |keys|
      {
        var key :| key in keys;
        SplitStep(raw.Keys, done, keys, key);
        OverwriteStep(e, scid, done, f, key, raw[key]);
        StoreSCValue(scid, key, raw[key]);
        keys, done := keys - {key}, done + {key};
      }
      SplitEnd(raw.Keys, done);
      WrittenAll(e, scid, raw, f);
    }

    /** Whether no asset is sent beyond what is stored, computed with 64-bit sums; if so the amounts are
        taken off. The contract may send its own token without limit. Of the destinations, only the last
        one decides: the error of each lookup is overwritten by the next one. */
    method SanityCheckExternalTransfers(scid: Bytes, accounts: Accounts) returns (ok: bool)
      requires Amounts64(transfers)
      modifies this`entries
      ensures ok <==> Covered(tree, old(entries), scid, transfers) && LastRegistered(accounts, transfers)
      ensures ok ==> entries == Debited(tree, old(entries), scid, transfers)
    {
      hide Covered, Debited, TotalsOk;
      var total: map<Bytes, nat>;
      ok, total := Totals(scid);
      if ok { ok := Debit(scid, total); }
      if ok {
        var i := 0;
        while i < |transfers|
          invariant 0 <= i <= |transfers| && entries == Debited(tree, old(entries), scid, transfers)
          invariant ok <==> LastRegistered(accounts, transfers[..i])
        {
          ok := transfers[i].address in Tree(accounts, ZERO_ID);
          i := i + 1;
        }
        assert transfers[..i] == transfers;
      }
    }

    /** The sums of all transfers, by asset; false if one exceeds 64 bits. */
    method Totals(scid: Bytes) returns (ok: bool, total: map<Bytes, nat>)
      requires Amounts64(transfers)
      ensures Covered(tree, entries, scid, transfers) ==> ok
      ensures ok ==> TotalsOk(scid, transfers, total)
    {
      hide Sent, TotalsOk, Covered;
      total := map[];
      var i := 0;
      TotalsNone(scid);
      while i < |transfers|
        invariant 0 <= i <= |transfers|
        invariant TotalsOk(scid, transfers[..i], total)
      {
        var t := transfers[i];
        TotalsNext(scid, transfers, total, i);
        if t.amount != 0 {
          var sum := if t.asset in total then total[t.asset] else 0;
          if t.asset != scid && Wrap64(sum + t.amount) <= sum {
            SentGrows(transfers, i + 1, t.asset);
            NotCovered(tree, entries, scid, transfers, i);
            return false, total;
          }
          total := total[t.asset := Wrap64(sum + t.amount)];
        }
        i := i + 1;
      }
      assert transfers[..i] == transfers;
      ok := true;
    }

    /** Takes the sums off the stored values. */
    method Debit(scid: Bytes, total: map<Bytes, nat>) returns (ok: bool)
      requires TotalsOk(scid, transfers, total)
      modifies this`entries
      ensures ok <==> Covered(tree, old(entries), scid, transfers)
      ensures ok ==> entries == Debited(tree, old(entries), scid, transfers)
    {
      hide *;
      EnoughNone(tree, entries, scid, transfers, total);
      ghost var t, e, ts := tree, entries, transfers;
      ghost var f := (k: Bytes) => DebitedBytes(t, e, ts, k);
      var assets := total.Keys;
      ghost var done: set<Bytes> := {};
      SplitStart(total.Keys);
      OverwriteNone(e, scid, f);
      while assets != {}
        invariant Split(total.Keys, done, assets)
        invariant entries == Overwritten(e, scid, done, f)
        invariant Enough(t, e, scid, total, done)
        decreases |assets|
      {
        var asset :| asset in assets;
        SplitStep(total.Keys, done, assets, asset);
        var stored := LoadSCAssetValue(asset);
        OverwriteKeeps(t, e, scid, done, f, asset);
        EnoughStep(t, e, scid, ts, total, done, asset);
        if asset != scid && Wrap64(stored as int - total[asset]) > stored { return false; }
        var value := PutBE(Wrap64(stored as int - total[asset]), 8);
        DebitStep(t, e, scid, ts, done, f, asset, total[asset], value);
        StoreSCValue(scid, asset, value);
        assets, done := assets - {asset}, done + {asset};
      }
      SplitEnd(total.Keys, done);
      DebitedAll(t, e, scid, ts, f);
      ok := true;
    }

    /** Puts the entries into the tree; empty ones are deleted. */
    method CommitEntries()
      modifies this`tree
      ensures tree == Commit(old(tree), entries)
    {
      hide *;
      ghost var t := tree;
      var keys := entries.Keys;
      ghost var done: set<Bytes> := {};
      SplitStart(entries.Keys);
      CommitNone(t, entries);
      while keys != {}
        invariant Split(entries.Keys, done, keys)
        invariant tree == CommittedTo(t, entries, done)
        decreases |keys|
      {
        var key :| key in keys;
        SplitStep(entries.Keys, done, keys, key);
        CommitStep(t, entries, done, key);
        if |entries[key]| == 0 { tree := tree - {key}; } else { tree := tree[key := entries[key]]; }
        keys, done := keys - {key}, done + {key};
      }
      SplitEnd(entries.Keys, done);
      CommitAll(t, entries);
    }
  }

  // ---------- the loops, step by step ----------

  lemma DepositBytes(tree: View, e: View, incoming: map<Bytes, nat>, asset: Bytes)
    requires asset in incoming
    ensures Incoming(incoming, asset) == incoming[asset]
    ensures DepositedBytes(tree, e, asset, incoming[asset]) == PutBE(Wrap64(AssetValue(tree, e, asset) + incoming[asset]), 8)
  {
  }

  lemma {:induction false} DepositStep(tree: View, e: View, scid: Bytes, incoming: map<Bytes, nat>, done: set<Bytes>, f: Bytes -> Bytes,
                                       asset: Bytes, stored: nat, value: Bytes)
    requires asset in incoming && asset !in done && f(asset) == DepositedBytes(tree, e, asset, Incoming(incoming, asset))
    requires stored == AssetValue(tree, Overwritten(e, scid, done, f), asset) && value == PutBE(Wrap64(stored + incoming[asset]), 8)
    ensures Overwritten(e, scid, done + {asset}, f) ==
      if asset == scid then Overwritten(e, scid, done, f) else Overwritten(e, scid, done, f)[asset := value]
  {
    hide *;
    OverwriteKeeps(tree, e, scid, done, f, asset);
    DepositBytes(tree, e, incoming, asset);
    OverwriteStep(e, scid, done, f, asset, value);
  }

  lemma {:induction false} DebitStep(tree: View, e: View, scid: Bytes, ts: seq<Transfer>, done: set<Bytes>, f: Bytes -> Bytes,
                                     asset: Bytes, sent: nat, value: Bytes)
    requires asset !in done && asset != scid ==> sent == Sent(ts, asset) && value == PutBE(Wrap64(AssetValue(tree, e, asset) - sent), 8)
    requires asset !in done && f(asset) == DebitedBytes(tree, e, ts, asset)
    ensures Overwritten(e, scid, done + {asset}, f) ==
      if asset == scid then Overwritten(e, scid, done, f) else Overwritten(e, scid, done, f)[asset := value]
  {
    hide *;
    if asset != scid { DebitBytes(tree, e, ts, asset); }
    OverwriteStep(e, scid, done, f, asset, f(asset));
  }

  lemma DebitBytes(tree: View, e: View, ts: seq<Transfer>, asset: Bytes)
    ensures DebitedBytes(tree, e, ts, asset) == PutBE(Wrap64(AssetValue(tree, e, asset) - Sent(ts, asset)), 8)
  {
  }

  /** The sums so far do not exceed what is stored. */
  ghost predicate Enough(tree: View, e: View, scid: Bytes, total: map<Bytes, nat>, done: set<Bytes>) {
    forall a :: a in total && a in done && a != scid ==> total[a] <= AssetValue(tree, e, a)
  }

  lemma {:induction false} EnoughNone(tree: View, e: View, scid: Bytes, ts: seq<Transfer>, total: map<Bytes, nat>)
    requires TotalsOk(scid, ts, total)
    ensures Enough(tree, e, scid, total, {}) && total.Keys == PaidAssets(ts)
    ensures Enough(tree, e, scid, total, total.Keys) <==> Covered(tree, e, scid, ts)
  {
    hide PaidAssets, Sent, Look, Amount;
  }

  lemma {:induction false} EnoughStep(tree: View, e: View, scid: Bytes, ts: seq<Transfer>, total: map<Bytes, nat>, done: set<Bytes>, a: Bytes)
    requires TotalsOk(scid, ts, total) && Enough(tree, e, scid, total, done) && a in total
    ensures a != scid ==> total[a] == Sent(ts, a)
    ensures a != scid && Wrap64(AssetValue(tree, e, a) - total[a]) > AssetValue(tree, e, a) ==> !Covered(tree, e, scid, ts)
    ensures !(a != scid && Wrap64(AssetValue(tree, e, a) - total[a]) > AssetValue(tree, e, a)) ==> Enough(tree, e, scid, total, done + {a})
  {
    hide PaidAssets, Sent, Look, Amount;
  }

  function Overwritten(e: View, scid: Bytes, done: set<Bytes>, f: Bytes -> Bytes): View {
    e + map k | k in done && k != scid :: f(k)
  }

  lemma OverwriteNone(e: View, scid: Bytes, f: Bytes -> Bytes)
    ensures Overwritten(e, scid, {}, f) == e
  {
  }

  lemma {:induction false} OverwriteKeeps(tree: View, e: View, scid: Bytes, done: set<Bytes>, f: Bytes -> Bytes, key: Bytes)
    requires key !in done
    ensures AssetValue(tree, Overwritten(e, scid, done, f), key) == AssetValue(tree, e, key)
  {
  }

  lemma {:induction false} OverwriteStep(e: View, scid: Bytes, done: set<Bytes>, f: Bytes -> Bytes, key: Bytes, value: Bytes)
    requires key !in done && value == f(key)
    ensures Overwritten(e, scid, done + {key}, f) ==
      if key == scid then Overwritten(e, scid, done, f) else Overwritten(e, scid, done, f)[key := value]
  {
  }

  lemma {:induction false} DepositedAll(tree: View, e: View, scid: Bytes, incoming: map<Bytes, nat>, f: Bytes -> Bytes)
    requires forall k :: k in incoming ==> f(k) == DepositedBytes(tree, e, k, Incoming(incoming, k))
    ensures Overwritten(e, scid, incoming.Keys, f) == Deposited(tree, e, scid, incoming)
  {
    hide DepositedBytes;
  }

  lemma {:induction false} WrittenAll(e: View, scid: Bytes, raw: View, f: Bytes -> Bytes)
    requires forall k :: k in raw ==> f(k) == raw[k]
    ensures Overwritten(e, scid, raw.Keys, f) == Written(e, scid, raw)
  {
  }

  lemma {:induction false} DebitedAll(tree: View, e: View, scid: Bytes, ts: seq<Transfer>, f: Bytes -> Bytes)
    requires forall k :: k in PaidAssets(ts) ==> f(k) == DebitedBytes(tree, e, ts, k)
    ensures Overwritten(e, scid, PaidAssets(ts), f) == Debited(tree, e, scid, ts)
  {
    hide DebitedBytes, PaidAssets;
  }

  function CommittedTo(tree: View, e: View, done: set<Bytes>): View
  {
    map k | k in tree.Keys + (done * e.Keys) && !(k in done && k in e && e[k] == []) :: if k in done && k in e then e[k] else tree[k]
  }

  lemma CommitNone(tree: View, e: View)
    ensures CommittedTo(tree, e, {}) == tree
  {
  }

  lemma {:induction false} CommitStep(tree: View, e: View, done: set<Bytes>, key: Bytes)
    requires key in e && key !in done
    ensures CommittedTo(tree, e, done + {key}) ==
      if e[key] == [] then CommittedTo(tree, e, done) - {key} else CommittedTo(tree, e, done)[key := e[key]]
  {
  }

  lemma CommitAll(tree: View, e: View)
    ensures CommittedTo(tree, e, e.Keys) == Commit(tree, e)
  {
  }

  // ---------- sums ----------

  /** The sums by asset are those of the transfers, and do not exceed 64 bits but for the own token, whose sum wraps. */
  ghost predicate TotalsOk(scid: Bytes, ts: seq<Transfer>, total: map<Bytes, nat>) {
    && total.Keys == PaidAssets(ts)
    && (forall a :: a in total && a != scid ==> total[a] == Sent(ts, a) < UINT64)
  }

  lemma TotalsNone(scid: Bytes)
    ensures TotalsOk(scid, [], map[])
  {
  }

  lemma {:induction false} PaidNext(ts: seq<Transfer>, i: nat)
    requires i < |ts|
    ensures PaidAssets(ts[..i + 1]) == PaidAssets(ts[..i]) + if ts[i].amount > 0 then {ts[i].asset} else {}
  {
    var a, b := ts[..i], ts[..i + 1];
    forall x | x in PaidAssets(b) ensures x in PaidAssets(a) || (ts[i].amount > 0 && x == ts[i].asset) {
      var k :| 0 <= k < |b| && b[k].amount > 0 && b[k].asset == x;
      if k < i { assert a[k].asset == x; }
    }
    forall x | x in PaidAssets(a) ensures x in PaidAssets(b) {
      var k :| 0 <= k < |a| && a[k].amount > 0 && a[k].asset == x;
      assert b[k].asset == x;
    }
    if ts[i].amount > 0 { assert b[i].asset == ts[i].asset; }
  }

  /** One more transfer. */
  lemma {:induction false} TotalsNext(scid: Bytes, ts: seq<Transfer>, total: map<Bytes, nat>, i: nat)
    requires Amounts64(ts) && i < |ts| && TotalsOk(scid, ts[..i], total)
    ensures var t := ts[i];
      var sum := if t.asset in total then total[t.asset] else 0;
      if t.amount == 0 then TotalsOk(scid, ts[..i + 1], total)
      else if t.asset != scid && Wrap64(sum + t.amount) <= sum then Sent(ts[..i + 1], t.asset) >= UINT64
      else TotalsOk(scid, ts[..i + 1], total[t.asset := Wrap64(sum + t.amount)])
  {
    hide PaidAssets;
    var t := ts[i];
    PaidNext(ts, i);
    assert ts[..i + 1][..i] == ts[..i] && ts[..i + 1][i] == t;
    if t.asset !in total { NotSent(ts[..i], t.asset); }
  }

  lemma {:induction false} NotCovered(tree: View, e: View, scid: Bytes, ts: seq<Transfer>, i: nat)
    requires i < |ts| && ts[i].amount > 0 && ts[i].asset != scid && Sent(ts, ts[i].asset) >= UINT64
    ensures !Covered(tree, e, scid, ts)
  {
    hide Amount, Sent, Look;
    assert ts[i].asset in PaidAssets(ts);
  }
}
