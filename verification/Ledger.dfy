/** The balances that a contract call moves. */
module Ledger {
  import opened ChainState
  import opened Powers
  import opened Variables

  /** The data tree of a contract, and the entries a call has written over it. */
  type View = map<Bytes, Bytes>

  datatype Transfer = Transfer(asset: Bytes, address: Bytes, amount: nat)

  // ---------- stored amounts ----------

  /** Arithmetic on uint64. */
  function Wrap64(x: int): (r: nat)
    ensures r < UINT64
    ensures 0 <= x < UINT64 ==> r == x
  {
    x % UINT64
  }

  function PutBE(v: nat, n: nat): (b: Bytes)
    ensures |b| == n
  {
    if n == 0 then [] else PutBE(v / 256, n - 1) + [v % 256]
  }

  function GetBE(b: Bytes): nat {
    if b == [] then 0 else GetBE(b[..|b| - 1]) * 256 + b[|b| - 1]
  }

  lemma {:induction false} BEBack(v: nat, n: nat)
    requires v < Pow256(n)
    ensures GetBE(PutBE(v, n)) == v
  {
    if n > 0 {
      hide Pow256;
      var b := PutBE(v, n);
      assert b == PutBE(v / 256, n - 1) + [v % 256];
      assert b[..n - 1] == PutBE(v / 256, n - 1);
      FewerBytes(v, n);
      BEBack(v / 256, n - 1);
    }
  }

  lemma FewerBytes(v: nat, n: nat)
    requires n > 0 && v < Pow256(n)
    ensures v / 256 < Pow256(n - 1) && v == v / 256 * 256 + v % 256
  {
  }

  lemma {:induction false} GetBEBound(b: Bytes)
    ensures GetBE(b) < Pow256(|b|)
  {
    if b != [] { GetBEBound(b[..|b| - 1]); }
  }

  /** The first byte is the highest one. */
  lemma {:induction false} HighestFirst(a: Byte, b: Bytes)
    ensures GetBE([a] + b) == a * Pow256(|b|) + GetBE(b)
  {
    if b != [] {
      var n := |b| - 1;
      assert ([a] + b)[..n + 1] == [a] + b[..n];
      HighestFirst(a, b[..n]);
      TimesMore(a, Pow256(n));
    } else {
      assert ([a] + b)[..0] == [] && GetBE([]) == 0;
    }
  }

  lemma TimesMore(a: nat, p: nat)
    ensures a * (256 * p) == 256 * (a * p)
  {
  }

  /** An amount is stored in 8 bytes, the highest one first. */
  lemma {:induction false} AmountForm(b: Bytes)
    requires |b| == 8
    ensures Amount(Some(b)) ==
      0x100_0000_0000_0000 * (b[0] as int) + 0x1_0000_0000_0000 * (b[1] as int) + 0x100_0000_0000 * (b[2] as int)
      + 0x1_0000_0000 * (b[3] as int) + 0x100_0000 * (b[4] as int) + 0x1_0000 * (b[5] as int) + 0x100 * (b[6] as int) + b[7] as int
    ensures PutBE(Amount(Some(b)), 8) == b
  {
    BEForth(b);
    hide GetBE;
    LastByte(b, 8);
    LastByte(b, 7);
    LastByte(b, 6);
    LastByte(b, 5);
    LastByte(b, 4);
    LastByte(b, 3);
    LastByte(b, 2);
    LastByte(b, 1);
    assert b[..8] == b && GetBE(b[..0]) == 0 by { NoBytes(b[..0]); }
  }

  lemma LastByte(b: Bytes, n: nat)
    requires 0 < n <= |b|
    ensures GetBE(b[..n]) == 256 * GetBE(b[..n - 1]) + b[n - 1] as int
  {
    assert b[..n][..n - 1] == b[..n - 1];
  }

  lemma NoBytes(b: Bytes)
    requires b == []
    ensures GetBE(b) == 0
  {
  }

  lemma EightBytes()
    ensures Pow256(8) == UINT64
  {
    assert Pow256(4) == 0x1_0000_0000;
    assert Pow256(5) == 256 * Pow256(4) && Pow256(6) == 256 * Pow256(5) && Pow256(7) == 256 * Pow256(6);
  }

  function Amount(b: Option<Bytes>): (v: nat)
    ensures v < UINT64
  {
    match b
    case None => 0
    case Some(s) =>
      if |s| != 8 then 0
      else
        GetBEBound(s);
        EightBytes();
        GetBE(s)
  }

  lemma AmountBack(v: nat)
    requires v < UINT64
    ensures Amount(Some(PutBE(v, 8))) == v
  {
    EightBytes();
    BEBack(v, 8);
  }

  function Look(tree: View, entries: View, key: Bytes): Option<Bytes> {
    if key in entries then Some(entries[key]) else if key in tree then Some(tree[key]) else None
  }

  function AssetValue(tree: View, entries: View, asset: Bytes): nat {
    Amount(Look(tree, entries, asset))
  }

  // ---------- transfers ----------

  /** Everything sent of one asset. */
  function Sent(ts: seq<Transfer>, asset: Bytes): nat {
    if ts == [] then 0
    else Sent(ts[..|ts| - 1], asset) + if ts[|ts| - 1].asset == asset then ts[|ts| - 1].amount else 0
  }

  /** Everything sent of one asset to one address. */
  function PaidTo(ts: seq<Transfer>, asset: Bytes, address: Bytes): nat {
    if ts == [] then 0
    else
      var t := ts[|ts| - 1];
      PaidTo(ts[..|ts| - 1], asset, address) + if t.asset == asset && t.address == address then t.amount else 0
  }

  predicate Amounts64(ts: seq<Transfer>) {
    forall i :: 0 <= i < |ts| ==> ts[i].amount < UINT64
  }

  lemma {:induction false} SentGrows(ts: seq<Transfer>, n: nat, asset: Bytes)
    requires n <= |ts|
    ensures Sent(ts[..n], asset) <= Sent(ts, asset)
    decreases |ts| - n
  {
    if n == |ts| {
      assert ts[..n] == ts;
    } else {
      assert ts[..n + 1][..n] == ts[..n];
      SentGrows(ts, n + 1, asset);
    }
  }

  // ---------- the phases of a call, as functions on the entries ----------

  /** The incoming values are added to the stored ones, modulo 2^64; the contract's own token is not stored. */
  function Deposited(tree: View, e: View, scid: Bytes, incoming: map<Bytes, nat>): View {
    e + map k | k in incoming && k != scid :: DepositedBytes(tree, e, k, incoming[k])
  }

  function DepositedBytes(tree: View, e: View, asset: Bytes, value: nat): Bytes {
    PutBE(Wrap64(AssetValue(tree, e, asset) + value), 8)
  }

  /** The variables written by the contract. */
  function Written(e: View, scid: Bytes, raw: View): View {
    e + map k | k in raw && k != scid :: raw[k]
  }

  function PaidAssets(ts: seq<Transfer>): set<Bytes> {
    set i | 0 <= i < |ts| && ts[i].amount > 0 :: ts[i].asset
  }

  /** No asset other than the contract's own is sent beyond what is stored. */
  ghost predicate Covered(tree: View, e: View, scid: Bytes, ts: seq<Transfer>) {
    forall a :: a in PaidAssets(ts) && a != scid ==> Sent(ts, a) <= AssetValue(tree, e, a)
  }

  function Debited(tree: View, e: View, scid: Bytes, ts: seq<Transfer>): View {
    e + map k | k in PaidAssets(ts) && k != scid :: DebitedBytes(tree, e, ts, k)
  }

  function DebitedBytes(tree: View, e: View, ts: seq<Transfer>, asset: Bytes): Bytes {
    PutBE(Wrap64(AssetValue(tree, e, asset) - Sent(ts, asset)), 8)
  }

  /** Entries are put into the tree; empty ones delete. */
  function Commit(tree: View, e: View): View {
    map k | k in tree.Keys + e.Keys && !(k in e && e[k] == []) :: if k in e then e[k] else tree[k]
  }

  /** The data tree after a call that went through. */
  function Settled(tree: View, e: View, scid: Bytes, incoming: map<Bytes, nat>, raw: View, ts: seq<Transfer>): View {
    Commit(tree, Debited(tree, Written(Deposited(tree, e, scid, incoming), scid, raw), scid, ts))
  }

  function Incoming(incoming: map<Bytes, nat>, asset: Bytes): nat {
    if asset in incoming then incoming[asset] else 0
  }

  /** Only the keys of variables are written. */
  ghost predicate VariableKeys(raw: View) {
    forall k :: k in raw ==> exists v :: k == Marshal(v)
  }

  lemma {:induction false} NotSent(ts: seq<Transfer>, asset: Bytes)
    requires asset !in PaidAssets(ts)
    ensures Sent(ts, asset) == 0
    decreases |ts|
  {
    if ts != [] {
      var n := |ts| - 1;
      assert PaidAssets(ts[..n]) <= PaidAssets(ts) by {
        forall a | a in PaidAssets(ts[..n]) ensures a in PaidAssets(ts) {
          var i :| 0 <= i < n && ts[..n][i].amount > 0 && ts[..n][i].asset == a;
          assert ts[i].asset == a;
        }
      }
      NotSent(ts[..n], asset);
      assert ts[n].amount > 0 ==> ts[n].asset in PaidAssets(ts);
    }
  }

  lemma {:induction false} DepositedLook(tree: View, e: View, scid: Bytes, incoming: map<Bytes, nat>, asset: Bytes)
    requires asset != scid
    ensures Look(tree, Deposited(tree, e, scid, incoming), asset) ==
      if asset in incoming then Some(DepositedBytes(tree, e, asset, incoming[asset])) else Look(tree, e, asset)
  {
    hide DepositedBytes;
  }

  lemma {:induction false} DepositedAmount(tree: View, e: View, asset: Bytes, value: nat)
    ensures Amount(Some(DepositedBytes(tree, e, asset, value))) == Wrap64(AssetValue(tree, e, asset) + value)
  {
    hide Amount, PutBE, AssetValue;
    AmountBack(Wrap64(AssetValue(tree, e, asset) + value));
  }

  lemma {:induction false} DepositedAt(tree: View, e: View, scid: Bytes, incoming: map<Bytes, nat>, asset: Bytes)
    requires asset != scid
    ensures AssetValue(tree, Deposited(tree, e, scid, incoming), asset) == Wrap64(AssetValue(tree, e, asset) + Incoming(incoming, asset))
  {
    hide DepositedBytes, Amount, Look;
    var value := AssetValue(tree, e, asset);
    DepositedAmount(tree, e, asset, Incoming(incoming, asset));
    DepositedLook(tree, e, scid, incoming, asset);
    assert Wrap64(value) == value;
  }

  lemma {:induction false} WrittenAt(tree: View, e: View, scid: Bytes, raw: View, asset: Bytes)
    requires IsAssetId(asset) && VariableKeys(raw)
    ensures AssetValue(tree, Written(e, scid, raw), asset) == AssetValue(tree, e, asset)
  {
    hide Marshal, Amount, IsAssetId;
    assert asset !in raw by {
      if asset in raw {
        var v :| asset == Marshal(v);
        KeySpaces(asset, v);
      }
    }
  }

  lemma {:induction false} DebitedAmount(tree: View, e: View, ts: seq<Transfer>, asset: Bytes)
    requires Sent(ts, asset) <= AssetValue(tree, e, asset)
    ensures Amount(Some(DebitedBytes(tree, e, ts, asset))) == AssetValue(tree, e, asset) - Sent(ts, asset)
  {
    hide Amount, Sent, PutBE;
    var rest := AssetValue(tree, e, asset) - Sent(ts, asset);
    assert Wrap64(rest) == rest;
    AmountBack(rest);
  }

  lemma {:induction false} DebitedAt(tree: View, e: View, scid: Bytes, ts: seq<Transfer>, asset: Bytes)
    requires asset != scid && Covered(tree, e, scid, ts)
    ensures AssetValue(tree, Debited(tree, e, scid, ts), asset) + Sent(ts, asset) == AssetValue(tree, e, asset)
  {
    hide PaidAssets, Sent, Amount, DebitedBytes;
    if asset in PaidAssets(ts) { DebitedAmount(tree, e, ts, asset); } else { NotSent(ts, asset); }
  }

  /** Whatever the contract did, what is stored of an asset and what was sent of it add up to what was stored
      and what came in, modulo 2^64. */
  lemma {:induction false} LedgerConserved(tree: View, e: View, scid: Bytes, incoming: map<Bytes, nat>, raw: View, ts: seq<Transfer>, asset: Bytes)
    requires IsAssetId(asset) && asset != scid && VariableKeys(raw)
    requires Covered(tree, Written(Deposited(tree, e, scid, incoming), scid, raw), scid, ts)
    ensures AssetValue(Settled(tree, e, scid, incoming, raw, ts), map[], asset) + Sent(ts, asset)
      == Wrap64(AssetValue(tree, e, asset) + Incoming(incoming, asset))
  {
    hide AssetValue, Incoming, Deposited, Written, Debited, Commit, Sent, IsAssetId, VariableKeys, Covered;
    var e1 := Deposited(tree, e, scid, incoming);
    var e2 := Written(e1, scid, raw);
    DepositedAt(tree, e, scid, incoming, asset);
    WrittenAt(tree, e1, scid, raw, asset);
    DebitedAt(tree, e2, scid, ts, asset);
    Committed(tree, Debited(tree, e2, scid, ts), asset);
  }

  lemma {:induction false} Committed(tree: View, e: View, asset: Bytes)
    ensures AssetValue(Commit(tree, e), map[], asset) == AssetValue(tree, e, asset)
  {
  }

  /** The sum is exact if and only if the deposit fits in 64 bits: nothing checks that it does. */
  lemma {:induction false} ConservedExactly(tree: View, e: View, scid: Bytes, incoming: map<Bytes, nat>, raw: View, ts: seq<Transfer>, asset: Bytes)
    requires IsAssetId(asset) && asset != scid && VariableKeys(raw)
    requires Covered(tree, Written(Deposited(tree, e, scid, incoming), scid, raw), scid, ts)
    ensures AssetValue(Settled(tree, e, scid, incoming, raw, ts), map[], asset) + Sent(ts, asset)
        == AssetValue(tree, e, asset) + Incoming(incoming, asset)
      <==> AssetValue(tree, e, asset) + Incoming(incoming, asset) < UINT64
  {
    hide Settled, Sent, Covered, Amount, Look, Incoming, IsAssetId, VariableKeys;
    LedgerConserved(tree, e, scid, incoming, raw, ts, asset);
    var sum := AssetValue(tree, e, asset) + Incoming(incoming, asset);
    assert Wrap64(sum) == sum <==> sum < UINT64;
  }

  // ---------- variables and assets share the tree ----------

  /** What the tree holds under a key; an empty value is none. */
  function Held(tree: View, k: Bytes): Option<Bytes> {
    if k in tree && tree[k] != [] then Some(tree[k]) else None
  }

  /** What the contract has last seen under a key. */
  function Seen(tree: View, raw: View, k: Bytes): Option<Bytes> {
    if k in raw then Held(raw, k) else Held(tree, k)
  }

  /** The key is neither sent as an asset nor comes in as one, or what comes in and what is sent cancel out. */
  predicate Spared(tree: View, incoming: map<Bytes, nat>, raw: View, ts: seq<Transfer>, k: Bytes) {
    if k in raw then k !in PaidAssets(ts)
    else if k in incoming then
      k in tree && |tree[k]| == 8 && Wrap64(Amount(Some(tree[k])) + incoming[k]) == Amount(Some(tree[k])) + Sent(ts, k)
    else k !in PaidAssets(ts)
  }

  lemma BytePair(v: nat, x: Byte)
    ensures (v * 256 + x) / 256 == v && (v * 256 + x) % 256 == x
  {
  }

  lemma {:induction false} BEForth(b: Bytes)
    ensures PutBE(GetBE(b), |b|) == b
  {
    if b != [] {
      var n := |b| - 1;
      BEForth(b[..n]);
      BytePair(GetBE(b[..n]), b[n]);
      assert b == b[..n] + [b[n]];
    }
  }

  lemma {:induction false} SentPositive(ts: seq<Transfer>, asset: Bytes)
    requires asset in PaidAssets(ts)
    ensures Sent(ts, asset) > 0
  {
    var i :| 0 <= i < |ts| && ts[i].amount > 0 && ts[i].asset == asset;
    SentGrows(ts, i + 1, asset);
    assert ts[..i + 1][..i] == ts[..i];
  }

  /** Eight bytes stand for one amount. */
  lemma {:induction false} SameBytes(b: Bytes, v: nat)
    requires v < UINT64
    ensures PutBE(v, 8) == b <==> |b| == 8 && Amount(Some(b)) == v
  {
    hide PutBE;
    AmountBack(v);
    if |b| == 8 { BEForth(b); }
  }

  /** What is held under a key after each phase. */
  lemma {:induction false} SettledLook(tree: View, scid: Bytes, incoming: map<Bytes, nat>, raw: View, ts: seq<Transfer>, k: Bytes)
    requires k != scid
    ensures var e2 := Written(Deposited(tree, map[], scid, incoming), scid, raw);
      && Look(tree, e2, k) == (if k in raw then Some(raw[k])
           else if k in incoming then Some(DepositedBytes(tree, map[], k, incoming[k]))
           else if k in tree then Some(tree[k]) else None)
      && Held(Settled(tree, map[], scid, incoming, raw, ts), k) ==
           if k in PaidAssets(ts) then Some(DebitedBytes(tree, e2, ts, k))
           else if Look(tree, e2, k) == Some([]) then None else Look(tree, e2, k)
  {
    hide PaidAssets, DepositedBytes, DebitedBytes, AssetValue;
    var e1 := Deposited(tree, map[], scid, incoming);
    var e2 := Written(e1, scid, raw);
    var e3 := Debited(tree, e2, scid, ts);
    assert k in e1 <==> k in incoming;
    assert k in e2 <==> k in raw || k in incoming;
    assert k in e3 <==> k in PaidAssets(ts) || k in e2;
    LongBytes(tree, e2, ts, k);
  }

  lemma LongBytes(tree: View, e: View, ts: seq<Transfer>, k: Bytes)
    ensures DebitedBytes(tree, e, ts, k) != []
    ensures forall v: nat :: DepositedBytes(tree, map[], k, v) != []
  {
  }

  /** After a call that went through, the tree holds under a key what the contract has last seen there if and
      only if the key is spared by deposits and transfers: any 32 bytes can be sent as an asset. */
  lemma {:induction false} BytesKept(tree: View, scid: Bytes, incoming: map<Bytes, nat>, raw: View, ts: seq<Transfer>, k: Bytes)
    requires k != scid && Covered(tree, Written(Deposited(tree, map[], scid, incoming), scid, raw), scid, ts)
    ensures Held(Settled(tree, map[], scid, incoming, raw, ts), k) == Seen(tree, raw, k) <==> Spared(tree, incoming, raw, ts, k)
  {
    hide PaidAssets, Sent, Amount, PutBE, Settled, Deposited, Written;
    SettledLook(tree, scid, incoming, raw, ts, k);
    var e2 := Written(Deposited(tree, map[], scid, incoming), scid, raw);
    var v := AssetValue(tree, e2, k);
    if k in PaidAssets(ts) {
      SentPositive(ts, k);
      assert Sent(ts, k) <= v;
      SameBytes(if k in raw then raw[k] else if k in tree then tree[k] else [], v - Sent(ts, k));
    } else {
      NotSent(ts, k);
    }
    if k in incoming && k !in raw {
      DepositedAmount(tree, map[], k, incoming[k]);
      if k in tree { SameBytes(tree[k], Wrap64(AssetValue(tree, map[], k) + incoming[k])); }
    }
  }

  /** A call that went through leaves a variable as the contract last saw it, a deleted one gone, if no asset of
      the same bytes comes in or is sent; its bytes stay exactly if they are spared. */
  lemma {:induction false} VariablesCommitted(tree: View, scid: Bytes, incoming: map<Bytes, nat>, raw: View, ts: seq<Transfer>, key: Variable)
    requires Fits(key) && IsAssetId(scid)
    requires Covered(tree, Written(Deposited(tree, map[], scid, incoming), scid, raw), scid, ts)
    ensures var k := Marshal(key);
      && (Held(Settled(tree, map[], scid, incoming, raw, ts), k) == Seen(tree, raw, k) <==> Spared(tree, incoming, raw, ts, k))
      && (k !in incoming && k !in PaidAssets(ts) ==> Spared(tree, incoming, raw, ts, k))
      && (Spared(tree, incoming, raw, ts, k) ==>
            LoadDisk(Settled(tree, map[], scid, incoming, raw, ts), k) == if k in raw then LoadDisk(raw, k) else LoadDisk(tree, k))
  {
    hide PaidAssets, Sent, Amount, Settled, Covered, Marshal, Unmarshal, IsAssetId;
    KeySpaces(scid, key);
    BytesKept(tree, scid, incoming, raw, ts, Marshal(key));
  }

  /** A contract that sends one unit of an asset named like its own variable, of 31 bytes with a value of 7 bytes,
      spoils the variable. */
  lemma {:induction false} VariableSent(scid: Bytes, name: Bytes, value: Bytes, address: Bytes)
    requires |name| == HASH_LENGTH - 1 && |value| == 7 && IsAssetId(scid)
    ensures var k := Marshal(StringVar(name));
      var tree: View := map[k := Marshal(StringVar(value))];
      var ts := [Transfer(k, address, 1)];
      && |k| == HASH_LENGTH && Covered(tree, Written(Deposited(tree, map[], scid, map[]), scid, map[]), scid, ts)
      && LoadDisk(tree, k) == Found(StringVar(value))
      && LoadDisk(Settled(tree, map[], scid, map[], map[], ts), k) != Found(StringVar(value))
  {
    hide Amount, IsAssetId, Settled, Sent, PaidAssets;
    var k := Marshal(StringVar(name));
    var b := Marshal(StringVar(value));
    var tree: View := map[k := b];
    var ts := [Transfer(k, address, 1)];
    KeySpaces(scid, StringVar(name));
    UnmarshalMarshal(StringVar(value));
    OneSent(k, address);
    assert Amount(Some(b)) >= 1 by { NotNothing(b); }
    SettledLook(tree, scid, map[], map[], ts, k);
    BytesKept(tree, scid, map[], map[], ts, k);
    assert b != [];
    if Held(Settled(tree, map[], scid, map[], map[], ts), k).Some? {
      StringBytes(Held(Settled(tree, map[], scid, map[], map[], ts), k).value, value);
    }
  }

  lemma OneSent(k: Bytes, address: Bytes)
    ensures var ts := [Transfer(k, address, 1)]; PaidAssets(ts) == {k} && Sent(ts, k) == 1
  {
    var ts := [Transfer(k, address, 1)];
    assert ts[0].asset == k && ts[..0] == [];
    assert Sent(ts[..0], k) == 0;
  }

  lemma NotNothing(b: Bytes)
    requires |b| == 8 && b[7] > 0
    ensures Amount(Some(b)) >= 1
  {
  }

  /** Only its own bytes are read back as a string. */
  lemma {:induction false} StringBytes(b: Bytes, value: Bytes)
    ensures Unmarshal(b) == Ok(StringVar(value)) ==> b == Marshal(StringVar(value))
  {
  }

  /** A deposit on a full balance starts again at 0. */
  lemma {:induction false} DepositWraps(scid: Bytes, asset: Bytes)
    requires asset != scid && IsAssetId(asset)
    ensures var tree: View := map[asset := PutBE(UINT64 - 1, 8)];
      && AssetValue(tree, map[], asset) == UINT64 - 1
      && AssetValue(Settled(tree, map[], scid, map[asset := 1], map[], []), map[], asset) == 0
  {
    hide PutBE, Amount, Settled, IsAssetId;
    var tree: View := map[asset := PutBE(UINT64 - 1, 8)];
    AmountBack(UINT64 - 1);
    LedgerConserved(tree, map[], scid, map[asset := 1], map[], [], asset);
  }

  // ---------- what comes in ----------

  /** A payload burns an amount of an asset into the contract. */
  datatype Burn = Burn(asset: Bytes, value: nat)

  function Burned(ps: seq<Burn>, asset: Bytes): nat {
    if ps == [] then 0
    else
      var p := ps[|ps| - 1];
      Burned(ps[..|ps| - 1], asset) + if p.asset == asset then p.value else 0
  }

  /** Later payloads overwrite earlier ones of the same asset. */
  function IncomingOf(ps: seq<Burn>): map<Bytes, nat> {
    if ps == [] then map[] else IncomingOf(ps[..|ps| - 1])[ps[|ps| - 1].asset := ps[|ps| - 1].value]
  }

  method CollectIncoming(ps: seq<Burn>) returns (incoming: map<Bytes, nat>)
    ensures incoming == IncomingOf(ps)
  {
    incoming := map[];
    var i := 0;
    assert ps[..0] == [];
    while i < |ps|
      invariant 0 <= i <= |ps| && incoming == IncomingOf(ps[..i])
    {
      assert ps[..i + 1][..i] == ps[..i];
      incoming := incoming[ps[i].asset := ps[i].value];
      i := i + 1;
    }
    assert ps[..i] == ps;
  }

  /** An earlier payload of the asset has burned something. */
  predicate BurnLost(ps: seq<Burn>, asset: Bytes) {
    exists i, j :: 0 <= i < j < |ps| && ps[i].asset == ps[j].asset == asset && ps[i].value > 0
  }

  /** What is counted as incoming is what was burned, if and only if no earlier burn of the asset is overwritten. */
  lemma {:induction false} IncomingCounts(ps: seq<Burn>, asset: Bytes)
    ensures Incoming(IncomingOf(ps), asset) <= Burned(ps, asset)
    ensures Incoming(IncomingOf(ps), asset) == Burned(ps, asset) <==> !BurnLost(ps, asset)
    ensures Burned(ps, asset) > 0 <==> exists i :: 0 <= i < |ps| && ps[i].asset == asset && ps[i].value > 0
  {
    if ps != [] {
      var n := |ps| - 1;
      var front := ps[..n];
      IncomingCounts(front, asset);
      assert forall i :: 0 <= i < n ==> front[i] == ps[i];
      if ps[n].asset == asset {
        if Burned(front, asset) > 0 {
          var i :| 0 <= i < |front| && front[i].asset == asset && front[i].value > 0;
          assert ps[i].asset == ps[n].asset == asset;
        }
      }
      if BurnLost(front, asset) {
        var i, j :| 0 <= i < j < |front| && front[i].asset == front[j].asset == asset && front[i].value > 0;
        assert ps[i].asset == ps[j].asset == asset && ps[i].value > 0;
      }
      if i, j :| 0 <= i < j < |ps| && ps[i].asset == ps[j].asset == asset && ps[i].value > 0 {
        assert front[i].asset == asset && front[i].value > 0;
      }
      assert Burned(front, asset) > 0 ==> exists i :: 0 <= i < |ps| && ps[i].asset == asset && ps[i].value > 0;
    }
  }

  /** A burn of 1 that a burn of 0 overwrites. */
  lemma {:induction false} BurnOverwritten(asset: Bytes)
    ensures var ps := [Burn(asset, 1), Burn(asset, 0)];
      Incoming(IncomingOf(ps), asset) == 0 && Burned(ps, asset) == 1 && BurnLost(ps, asset)
  {
    var ps := [Burn(asset, 1), Burn(asset, 0)];
    assert ps[..1] == [Burn(asset, 1)] && ps[..1][..0] == [];
    assert Burned(ps[..1][..0], asset) == 0;
    assert Burned(ps[..1], asset) == 1;
    assert ps[0].asset == ps[1].asset == asset;
  }

  /** From the payloads: the sum is exact if and only if no burn is overwritten and the deposit fits. */
  lemma {:induction false} BurnsConserved(tree: View, scid: Bytes, ps: seq<Burn>, raw: View, ts: seq<Transfer>, asset: Bytes)
    requires IsAssetId(asset) && asset != scid && VariableKeys(raw)
    requires Covered(tree, Written(Deposited(tree, map[], scid, IncomingOf(ps)), scid, raw), scid, ts)
    ensures AssetValue(Settled(tree, map[], scid, IncomingOf(ps), raw, ts), map[], asset) + Sent(ts, asset)
        == AssetValue(tree, map[], asset) + Burned(ps, asset)
      <==> !BurnLost(ps, asset) && AssetValue(tree, map[], asset) + Incoming(IncomingOf(ps), asset) < UINT64
  {
    hide Settled, Sent, Covered, Amount, Look, Incoming, IsAssetId, VariableKeys, IncomingOf, Burned, BurnLost, Deposited, Written;
    LedgerConserved(tree, map[], scid, IncomingOf(ps), raw, ts, asset);
    IncomingCounts(ps, asset);
  }
}
