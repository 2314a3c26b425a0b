/** The nonces of tokens, beside those of the base asset. */
module Tokens {
  import opened ChainState
  import opened Spend

  /** The account trees of tokens, by asset id. */
  type Trees = map<nat, Nonces>

  datatype State = State(base: Nonces, tokens: Trees)

  const NO_TREES: Trees := map[]

  function TreeOf(ts: Trees, scid: nat): Nonces {
    if scid in ts then ts[scid] else NO_ACCOUNTS
  }

  // ---------- execution ----------

  /** A ring member without an account of the token gets one, if it has one of the base asset; None is a panic. */
  function Member(accounts: set<nat>, t: Nonces, key: nat, sender: bool, height: nat): Option<Nonces> {
    if key in t then Some(if sender then t[key := height] else t)
    else if key in accounts then Some(t[key := if sender then height else 0])
    else None
  }

  function Ring(accounts: set<nat>, t: Nonces, p: Payload, n: nat, height: nat): Option<Nonces>
    requires n <= |p.ring|
  {
    if n == 0 then Some(t)
    else
      match Ring(accounts, t, p, n - 1, height)
      case None => None
      case Some(u) => Member(accounts, u, p.ring[n - 1], SenderSlot(p, n - 1), height)
  }

  /** The payloads of tokens, in order. */
  function TokenPayloads(accounts: set<nat>, ts: Trees, ps: seq<Payload>, n: nat, height: nat): Option<Trees>
    requires n <= |ps|
  {
    if n == 0 then Some(ts)
    else
      match TokenPayloads(accounts, ts, ps, n - 1, height)
      case None => None
      case Some(u) =>
        if ps[n - 1].scid == 0 then Some(u)
        else
          match Ring(accounts, TreeOf(u, ps[n - 1].scid), ps[n - 1], |ps[n - 1].ring|, height)
          case None => None
          case Some(t) => Some(u[ps[n - 1].scid := t])
  }

  /** Before a transaction is executed, the trees of its tokens are loaded again from the snapshot of the block
      below: what earlier transactions of the block have done to them is dropped. */
  function Reloaded(start: Trees, ts: Trees, ps: seq<Payload>, n: nat): Trees
    requires n <= |ps|
  {
    if n == 0 then ts
    else
      var u := Reloaded(start, ts, ps, n - 1);
      if ps[n - 1].scid == 0 then u else u[ps[n - 1].scid := TreeOf(start, ps[n - 1].scid)]
  }

  function ExecTx(start: Trees, s: State, tx: Tx, height: nat): Option<State> {
    match Fold(s.base, TxEvents(tx, height))
    case None => None
    case Some(b) =>
      if tx.Register? then Some(State(b, s.tokens))
      else
        var ps := tx.payloads;
        match TokenPayloads(s.base.Keys, Reloaded(start, s.tokens, ps, |ps|), ps, |ps|, height)
        case None => None
        case Some(ts) => Some(State(b, ts))
  }

  function ExecTxs(start: Trees, s: State, txs: seq<Tx>, n: nat, height: nat): Option<State>
    requires n <= |txs|
  {
    if n == 0 then Some(s)
    else
      match ExecTxs(start, s, txs, n - 1, height)
      case None => None
      case Some(u) => ExecTx(start, u, txs[n - 1], height)
  }

  /** The state in the snapshot of the block below height m. */
  function States(branch: seq<Blk>, m: nat): Option<State>
    requires m <= |branch|
  {
    if m == 0 then Some(State(NO_ACCOUNTS, NO_TREES))
    else
      match States(branch, m - 1)
      case None => None
      case Some(s) => ExecTxs(s.tokens, s, branch[m - 1].txs, |branch[m - 1].txs|, m - 1)
  }

  /** Executes one transaction on the trees of the base asset and of its tokens. */
  method ProcessTransaction(start: Trees, s: State, tx: Tx, height: nat) returns (r: Option<State>)
    ensures r == ExecTx(start, s, tx, height)
  {
    hide Fold, RingEvents, Ring, TokenPayloads, Reloaded, PayloadEvents, TreeOf;
    match tx
    case Register(key) =>
      FoldOne(s.base, Registered(key, height));
      r := Some(State(s.base[key := 0], s.tokens));
    case Transfer(_, _, ps) =>
      var ts := LoadTrees(start, s.tokens, ps);
      ghost var ts0 := ts;
      var b := s.base;
      var k := 0;
      FoldNone(b);
      NoPayloads(s.base.Keys, ts, ps, height);
      while k < |ps|
        invariant 0 <= k <= |ps| && b.Keys == s.base.Keys
        invariant Fold(s.base, PayloadsEvents(ps, k, height)) == Some(b)
        invariant TokenPayloads(s.base.Keys, ts0, ps, k, height) == Some(ts)
      {
        NextPayload(s.base, b, s.base.Keys, ts0, ts, ps, k, height);
        if ps[k].scid == 0 {
          var v := ProcessRing(b, ps[k], height);
          if v == None {
            PanicStays(s.base, ps, k + 1, height);
            return None;
          }
          RingKeys(b, ps[k], |ps[k].ring|, height);
          b := v.value;
        } else {
          var v := ProcessTokenRing(b.Keys, TreeOf(ts, ps[k].scid), ps[k], height);
          if v == None {
            TokenPanicStays(s.base.Keys, ts0, ps, k + 1, height);
            return None;
          }
          ts := ts[ps[k].scid := v.value];
        }
        k := k + 1;
      }
      r := Some(State(b, ts));
  }

  method LoadTrees(start: Trees, ts0: Trees, ps: seq<Payload>) returns (ts: Trees)
    ensures ts == Reloaded(start, ts0, ps, |ps|)
  {
    ts := ts0;
    var k := 0;
    while k < |ps|
      invariant 0 <= k <= |ps| && ts == Reloaded(start, ts0, ps, k)
    {
      if ps[k].scid != 0 { ts := ts[ps[k].scid := TreeOf(start, ps[k].scid)]; }
      k := k + 1;
    }
  }

  method ProcessTokenRing(accounts: set<nat>, t: Nonces, p: Payload, height: nat) returns (r: Option<Nonces>)
    ensures r == Ring(accounts, t, p, |p.ring|, height)
  {
    var u := t;
    var i := 0;
    while i < |p.ring|
      invariant 0 <= i <= |p.ring| && Ring(accounts, t, p, i, height) == Some(u)
    {
      var key := p.ring[i];
      var nonce := 0;
      if key in u {
        nonce := u[key];
      } else if key !in accounts {
        RingStays(accounts, t, p, i + 1, height);
        return None;
      }
      if (i % 2 == 0) == p.parity { nonce := height; }
      assert key in u && nonce == u[key] ==> u[key := nonce] == u;
      u := u[key := nonce];
      i := i + 1;
    }
    r := Some(u);
  }

  lemma {:induction false} RingStays(accounts: set<nat>, t: Nonces, p: Payload, n: nat, height: nat)
    requires n <= |p.ring| && Ring(accounts, t, p, n, height) == None
    ensures Ring(accounts, t, p, |p.ring|, height) == None
    decreases |p.ring| - n
  {
    if n < |p.ring| { RingStays(accounts, t, p, n + 1, height); }
  }

  lemma {:induction false} TokenPanicStays(accounts: set<nat>, ts: Trees, ps: seq<Payload>, n: nat, height: nat)
    requires n <= |ps| && TokenPayloads(accounts, ts, ps, n, height) == None
    ensures TokenPayloads(accounts, ts, ps, |ps|, height) == None
    decreases |ps| - n
  {
    if n < |ps| { TokenPanicStays(accounts, ts, ps, n + 1, height); }
  }

  lemma NoPayloads(accounts: set<nat>, ts: Trees, ps: seq<Payload>, height: nat)
    ensures TokenPayloads(accounts, ts, ps, 0, height) == Some(ts)
  {
  }

  lemma {:induction false} NextPayload(base: Nonces, b: Nonces, accounts: set<nat>, ts0: Trees, ts: Trees, ps: seq<Payload>, k: nat, height: nat)
    requires k < |ps| && Fold(base, PayloadsEvents(ps, k, height)) == Some(b) && TokenPayloads(accounts, ts0, ps, k, height) == Some(ts)
    ensures Fold(base, PayloadsEvents(ps, k + 1, height)) ==
      if ps[k].scid == 0 then Fold(b, RingEvents(ps[k], |ps[k].ring|, height)) else Some(b)
    ensures TokenPayloads(accounts, ts0, ps, k + 1, height) ==
      if ps[k].scid == 0 then Some(ts)
      else
        match Ring(accounts, TreeOf(ts, ps[k].scid), ps[k], |ps[k].ring|, height)
        case None => None
        case Some(t) => Some(ts[ps[k].scid := t])
  {
    hide Fold, RingEvents, Ring;
    FoldSplit(base, PayloadsEvents(ps, k, height), PayloadEvents(ps[k], height));
    FoldNone(b);
  }

  /** Transfers create no accounts of the base asset. */
  lemma {:induction false} RingKeys(t: Nonces, p: Payload, n: nat, height: nat)
    requires n <= |p.ring|
    ensures Fold(t, RingEvents(p, n, height)).Some? ==> Fold(t, RingEvents(p, n, height)).value.Keys == t.Keys
  {
    if n > 0 {
      RingKeys(t, p, n - 1, height);
      RingStep(p, n - 1, height);
    } else {
      FoldNone(t);
      assert RingEvents(p, 0, height) == [];
    }
  }

  /** The base part of the state is the snapshot of the base asset. */
  lemma {:induction false} BasePart(branch: seq<Blk>, m: nat)
    requires m <= |branch| && States(branch, m).Some?
    ensures Snapshot(branch, m) == Some(States(branch, m).value.base)
  {
    hide ExecTxs, Snapshot, TxsEvents;
    if m > 0 {
      BasePart(branch, m - 1);
      SnapshotNext(branch, m - 1);
      var s := States(branch, m - 1).value;
      TxsBase(s.tokens, s, branch[m - 1].txs, |branch[m - 1].txs|, m - 1);
    } else {
      SnapshotStart(branch);
    }
  }

  lemma {:induction false} TxsBase(start: Trees, s: State, txs: seq<Tx>, n: nat, height: nat)
    requires n <= |txs| && ExecTxs(start, s, txs, n, height).Some?
    ensures Fold(s.base, TxsEvents(txs, n, height)) == Some(ExecTxs(start, s, txs, n, height).value.base)
  {
    hide Fold, TxEvents;
    if n > 0 {
      TxsBase(start, s, txs, n - 1, height);
      FoldSplit(s.base, TxsEvents(txs, n - 1, height), TxEvents(txs[n - 1], height));
    } else {
      FoldNone(s.base);
    }
  }

  // ---------- the check ----------

  /** Every possible sender that has an account of the token, where the payload was built and at the tip, has not
      been used since; ring members without one are skipped. */
  predicate TokenNonceOk(ref: Trees, tip: Trees, p: Payload) {
    p.scid != 0 ==>
      forall i :: 0 <= i < |p.ring| && SenderSlot(p, i) && p.ring[i] in TreeOf(ref, p.scid) && p.ring[i] in TreeOf(tip, p.scid) ==>
        TreeOf(tip, p.scid)[p.ring[i]] <= TreeOf(ref, p.scid)[p.ring[i]]
  }

  predicate AllNoncesOk(ref: State, tip: State, tx: Tx) {
    && NonceOk(ref.base, tip.base, tx)
    && (tx.Transfer? ==> forall k :: 0 <= k < |tx.payloads| ==> TokenNonceOk(ref.tokens, tip.tokens, tx.payloads[k]))
  }

  /** The nonce comparison over all payloads and all possible senders. */
  method CheckNonceTips(ref: State, tip: State, tx: Tx) returns (ok: bool)
    ensures ok <==> AllNoncesOk(ref, tip, tx)
  {
    hide PayloadNonceOk, TokenNonceOk, TreeOf;
    if tx.Register? { return true; }
    var k := 0;
    while k < |tx.payloads|
      invariant 0 <= k <= |tx.payloads|
      invariant forall j :: 0 <= j < k ==>
        PayloadNonceOk(ref.base, tip.base, tx.payloads[j]) && TokenNonceOk(ref.tokens, tip.tokens, tx.payloads[j])
    {
      var p := tx.payloads[k];
      PayloadKinds(ref, tip, p);
      if p.scid == 0 {
        ok := CheckBaseRing(ref.base, tip.base, p);
      } else {
        ok := CheckTokenRing(TreeOf(ref.tokens, p.scid), TreeOf(tip.tokens, p.scid), p);
      }
      if !ok { return; }
      k := k + 1;
    }
    ok := true;
  }

  lemma PayloadKinds(ref: State, tip: State, p: Payload)
    ensures p.scid == 0 ==> TokenNonceOk(ref.tokens, tip.tokens, p)
    ensures p.scid != 0 ==> PayloadNonceOk(ref.base, tip.base, p)
    ensures p.scid != 0 ==>
      (TokenNonceOk(ref.tokens, tip.tokens, p) <==> TokenRingOk(TreeOf(ref.tokens, p.scid), TreeOf(tip.tokens, p.scid), p))
  {
  }

  predicate TokenRingOk(ref: Nonces, tip: Nonces, p: Payload) {
    forall i :: 0 <= i < |p.ring| && SenderSlot(p, i) && p.ring[i] in ref && p.ring[i] in tip ==> tip[p.ring[i]] <= ref[p.ring[i]]
  }

  method CheckBaseRing(ref: Nonces, tip: Nonces, p: Payload) returns (ok: bool)
    requires p.scid == 0
    ensures ok <==> PayloadNonceOk(ref, tip, p)
  {
    var i := 0;
    while i < |p.ring|
      invariant 0 <= i <= |p.ring|
      invariant forall j :: 0 <= j < i && SenderSlot(p, j) ==>
        p.ring[j] in ref && (p.ring[j] in tip ==> tip[p.ring[j]] <= ref[p.ring[j]])
    {
      if (i % 2 == 0) == p.parity {
        assert SenderSlot(p, i);
        var key := p.ring[i];
        if key !in ref { return false; }
        if key in tip {
          if tip[key] > ref[key] { return false; }
        }
      }
      i := i + 1;
    }
    return true;
  }

  method CheckTokenRing(ref: Nonces, tip: Nonces, p: Payload) returns (ok: bool)
    ensures ok <==> TokenRingOk(ref, tip, p)
  {
    var i := 0;
    while i < |p.ring|
      invariant 0 <= i <= |p.ring|
      invariant forall j :: 0 <= j < i && SenderSlot(p, j) && p.ring[j] in ref && p.ring[j] in tip ==> tip[p.ring[j]] <= ref[p.ring[j]]
    {
      if (i % 2 == 0) == p.parity {
        assert SenderSlot(p, i);
        var key := p.ring[i];
        if key in ref && key in tip {
          if tip[key] > ref[key] { return false; }
        }
      }
      i := i + 1;
    }
    return true;
  }

  // ---------- accepted branches ----------

  /** The block of height m passes all checks against the states of the blocks below it. */
  ghost predicate AcceptedWithTokens(branch: seq<Blk>, m: nat)
    requires m < |branch|
  {
    && DistinctNonces(branch[m].txs)
    && forall i :: 0 <= i < |branch[m].txs| ==> TxAcceptedWithTokens(branch, m, branch[m].txs[i])
  }

  ghost predicate TxAcceptedWithTokens(branch: seq<Blk>, m: nat, tx: Tx)
    requires m <= |branch|
  {
    && InHistory(branch, m, tx)
    && (tx.Transfer? ==>
          && States(branch, tx.height + 1).Some? && States(branch, m).Some?
          && AllNoncesOk(States(branch, tx.height + 1).value, States(branch, m).value, tx))
  }

  ghost predicate ValidWithTokens(branch: seq<Blk>) {
    && (forall m :: 0 < m < |branch| ==> AcceptedWithTokens(branch, m))
    && (|branch| > 0 ==> forall i :: 0 <= i < |branch[0].txs| ==> branch[0].txs[i].Register?)
    && States(branch, |branch|).Some?
  }

  /** What holds of every branch on which the base asset is in order holds of every branch. */
  lemma {:induction false} ValidBase(branch: seq<Blk>)
    requires ValidWithTokens(branch)
    ensures Valid(branch)
  {
    hide States, Snapshot, DistinctNonces, NonceOk, AllNoncesOk;
    BasePart(branch, |branch|);
    forall m | 0 < m < |branch| ensures AcceptedAt(branch, m) {
      assert AcceptedWithTokens(branch, m);
      forall i | 0 <= i < |branch[m].txs| ensures TxAcceptedAt(branch, m, branch[m].txs[i]) {
        var tx := branch[m].txs[i];
        assert TxAcceptedWithTokens(branch, m, tx);
        if tx.Transfer? {
          BasePart(branch, tx.height + 1);
          BasePart(branch, m);
          BaseOk(States(branch, tx.height + 1).value, States(branch, m).value, tx);
        }
      }
    }
  }

  lemma BaseOk(ref: State, tip: State, tx: Tx)
    requires AllNoncesOk(ref, tip, tx)
    ensures NonceOk(ref.base, tip.base, tx)
  {
  }

  // ---------- what the check means for tokens ----------

  predicate Names(tx: Tx, scid: nat) {
    tx.Transfer? && exists k :: 0 <= k < |tx.payloads| && tx.payloads[k].scid == scid
  }

  /** The key is a possible sender of the token in one of the first n payloads. */
  ghost predicate SendsToken(ps: seq<Payload>, n: nat, scid: nat, key: nat)
    requires n <= |ps|
  {
    exists k, i :: 0 <= k < n && InSlot(ps[k], i, scid, key)
  }

  predicate InSlot(p: Payload, i: int, scid: nat, key: nat) {
    p.scid == scid && 0 <= i < |p.ring| && SenderSlot(p, i) && p.ring[i] == key
  }

  /** The use of a key survives the block if it is in the last transaction that names the token. */
  ghost predicate Survives(txs: seq<Tx>, n: nat, scid: nat, key: nat)
    requires n <= |txs|
  {
    n > 0 && if Names(txs[n - 1], scid) then SendsToken(txs[n - 1].payloads, |txs[n - 1].payloads|, scid, key)
             else Survives(txs, n - 1, scid, key)
  }

  /** The nonce of a key after some steps: kept, raised, or new. */
  ghost predicate Becomes(was: Nonces, now: Nonces, key: nat, used: bool, height: nat) {
    && (key in was ==> key in now)
    && (used ==> key in now)
    && (key in now ==> now[key] == if used then height else if key in was then was[key] else 0)
  }

  lemma {:induction false} RingAt(accounts: set<nat>, t: Nonces, p: Payload, n: nat, height: nat, key: nat)
    requires n <= |p.ring| && Ring(accounts, t, p, n, height).Some?
    ensures Becomes(t, Ring(accounts, t, p, n, height).value, key, exists i :: i < n && InSlot(p, i, p.scid, key), height)
  {
    if n > 0 {
      RingAt(accounts, t, p, n - 1, height, key);
      if p.ring[n - 1] == key && SenderSlot(p, n - 1) { assert InSlot(p, n - 1, p.scid, key); }
    }
  }

  lemma {:induction false} PayloadsAt(accounts: set<nat>, ts: Trees, ps: seq<Payload>, n: nat, height: nat, scid: nat, key: nat)
    requires scid != 0 && n <= |ps| && TokenPayloads(accounts, ts, ps, n, height).Some?
    ensures Becomes(TreeOf(ts, scid), TreeOf(TokenPayloads(accounts, ts, ps, n, height).value, scid), key, SendsToken(ps, n, scid, key), height)
  {
    hide Ring;
    if n > 0 {
      PayloadsAt(accounts, ts, ps, n - 1, height, scid, key);
      var p := ps[n - 1];
      SendsNext(ps, n, scid, key);
      if p.scid == scid {
        RingAt(accounts, TreeOf(TokenPayloads(accounts, ts, ps, n - 1, height).value, scid), p, |p.ring|, height, key);
      }
    }
  }

  lemma {:induction false} SendsNext(ps: seq<Payload>, n: nat, scid: nat, key: nat)
    requires 0 < n <= |ps|
    ensures var p := ps[n - 1];
      SendsToken(ps, n, scid, key) <==> SendsToken(ps, n - 1, scid, key) || (p.scid == scid && exists i :: InSlot(p, i, scid, key))
  {
    if SendsToken(ps, n, scid, key) && !SendsToken(ps, n - 1, scid, key) {
      var k, i :| 0 <= k < n && InSlot(ps[k], i, scid, key);
      assert k == n - 1;
    }
  }

  lemma {:induction false} ReloadedAt(start: Trees, ts: Trees, ps: seq<Payload>, n: nat, scid: nat)
    requires scid != 0 && n <= |ps|
    ensures TreeOf(Reloaded(start, ts, ps, n), scid)
      == if exists k :: 0 <= k < n && ps[k].scid == scid then TreeOf(start, scid) else TreeOf(ts, scid)
  {
    if n > 0 {
      ReloadedAt(start, ts, ps, n - 1, scid);
      if ps[n - 1].scid != scid {
        assert (exists k :: 0 <= k < n && ps[k].scid == scid) <==> exists k :: 0 <= k < n - 1 && ps[k].scid == scid;
      }
    }
  }

  /** After a block, the nonce of a token key is the height of the block exactly if its use has survived. */
  lemma {:induction false} BlockAt(start: Trees, s: State, txs: seq<Tx>, n: nat, height: nat, scid: nat, key: nat)
    requires scid != 0 && n <= |txs| && s.tokens == start && ExecTxs(start, s, txs, n, height).Some?
    ensures Becomes(TreeOf(start, scid), TreeOf(ExecTxs(start, s, txs, n, height).value.tokens, scid), key, Survives(txs, n, scid, key), height)
  {
    hide Fold, TxEvents, TokenPayloads, Reloaded, TreeOf, SendsToken;
    if n > 0 {
      BlockAt(start, s, txs, n - 1, height, scid, key);
      var u, tx := ExecTxs(start, s, txs, n - 1, height).value, txs[n - 1];
      if tx.Transfer? {
        var ps := tx.payloads;
        var ts := Reloaded(start, u.tokens, ps, |ps|);
        ReloadedAt(start, u.tokens, ps, |ps|, scid);
        PayloadsAt(u.base.Keys, ts, ps, |ps|, height, scid, key);
        if !Names(tx, scid) { NotSent(ps, |ps|, scid, key); }
      }
    }
  }

  lemma NotSent(ps: seq<Payload>, n: nat, scid: nat, key: nat)
    requires n <= |ps| && forall k :: 0 <= k < |ps| ==> ps[k].scid != scid
    ensures !SendsToken(ps, n, scid, key)
  {
  }

  /** The use of a key survives in a block of one of the heights from..till-1. */
  ghost predicate UsedBetween(branch: seq<Blk>, from: nat, till: nat, scid: nat, key: nat)
    requires till <= |branch|
  {
    exists h :: from <= h < till && Survives(branch[h].txs, |branch[h].txs|, scid, key)
  }

  /** The token check, exactly: a key that has an account of the token in the state of block r passes at height m
      if and only if no use of it has survived in a block in between. */
  lemma {:induction false} TokenCheckExact(branch: seq<Blk>, r: nat, m: nat, scid: nat, key: nat)
    requires scid != 0 && r < m <= |branch| && States(branch, m).Some?
    ensures States(branch, r + 1).Some?
    ensures var ref, tip := TreeOf(States(branch, r + 1).value.tokens, scid), TreeOf(States(branch, m).value.tokens, scid);
      key in ref ==> key in tip && ref[key] <= r && (tip[key] <= ref[key] <==> !UsedBetween(branch, r + 1, m, scid, key))
    decreases m
  {
    hide ExecTxs, Survives, TreeOf;
    var s := States(branch, m - 1).value;
    var txs := branch[m - 1].txs;
    BlockAt(s.tokens, s, txs, |txs|, m - 1, scid, key);
    NonceBelowHeight(branch, m - 1, scid, key);
    if r + 1 < m { TokenCheckExact(branch, r, m - 1, scid, key); }
  }

  /** No possible sender of the payload that had an account of the token in `ref` has a surviving use. */
  ghost predicate NoUseBetween(branch: seq<Blk>, from: nat, till: nat, ref: Trees, p: Payload)
    requires till <= |branch|
  {
    forall i :: 0 <= i < |p.ring| && SenderSlot(p, i) && p.ring[i] in TreeOf(ref, p.scid) ==>
      !UsedBetween(branch, from, till, p.scid, p.ring[i])
  }

  /** A whole payload of a token: ring members that have no account of it in the state of block r are skipped. */
  lemma {:induction false} TokenPayloadExact(branch: seq<Blk>, r: nat, m: nat, p: Payload)
    requires p.scid != 0 && r < m <= |branch| && States(branch, m).Some?
    ensures States(branch, r + 1).Some?
    ensures var ref, tip := States(branch, r + 1).value.tokens, States(branch, m).value.tokens;
      TokenNonceOk(ref, tip, p) <==> NoUseBetween(branch, r + 1, m, ref, p)
  {
    hide States, UsedBetween, TreeOf;
    TokenCheckExact(branch, r, m, p.scid, 0);
    forall i | 0 <= i < |p.ring| ensures TokenKeyPasses(branch, r, m, p.scid, p.ring[i]) {
      TokenCheckExact(branch, r, m, p.scid, p.ring[i]);
    }
  }

  ghost predicate TokenKeyPasses(branch: seq<Blk>, r: nat, m: nat, scid: nat, key: nat)
    requires r < m <= |branch| && States(branch, r + 1).Some? && States(branch, m).Some?
  {
    var ref, tip := TreeOf(States(branch, r + 1).value.tokens, scid), TreeOf(States(branch, m).value.tokens, scid);
    key in ref ==> key in tip && (tip[key] <= ref[key] <==> !UsedBetween(branch, r + 1, m, scid, key))
  }

  /** The nonce check of a whole transaction, base asset and tokens, for every branch. */
  lemma {:induction false} AllNoncesExact(branch: seq<Blk>, m: nat, tx: Tx)
    requires tx.Transfer? && tx.height < m <= |branch| && States(branch, m).Some?
    ensures States(branch, tx.height + 1).Some?
    ensures var ref := States(branch, tx.height + 1).value;
      AllNoncesOk(ref, States(branch, m).value, tx) <==>
        && (forall key :: TxSends(tx, key) ==> key in ref.base && !Open(Events(branch, tx.height + 1, m), key))
        && forall k :: 0 <= k < |tx.payloads| && tx.payloads[k].scid != 0 ==>
             NoUseBetween(branch, tx.height + 1, m, ref.tokens, tx.payloads[k])
  {
    hide States, NoUseBetween, TreeOf, Snapshot, Events, Open, TxSends, NonceOk, TokenNonceOk;
    TokenCheckExact(branch, tx.height, m, 1, 0);
    BasePart(branch, m);
    BasePart(branch, tx.height + 1);
    NonceCheckExact(branch, m, tx);
    var ref, tip := States(branch, tx.height + 1).value, States(branch, m).value;
    forall k | 0 <= k < |tx.payloads|
      ensures TokenNonceOk(ref.tokens, tip.tokens, tx.payloads[k]) <==>
        (tx.payloads[k].scid != 0 ==> NoUseBetween(branch, tx.height + 1, m, ref.tokens, tx.payloads[k]))
    {
      var p := tx.payloads[k];
      PayloadKinds(ref, tip, p);
      if p.scid != 0 { TokenPayloadExact(branch, tx.height, m, p); }
    }
  }

  lemma {:induction false} NonceBelowHeight(branch: seq<Blk>, m: nat, scid: nat, key: nat)
    requires scid != 0 && m <= |branch| && States(branch, m).Some?
    ensures var t := TreeOf(States(branch, m).value.tokens, scid); key in t ==> t[key] <= m
    ensures var t := TreeOf(States(branch, m).value.tokens, scid); m > 0 && key in t ==> t[key] < m
  {
    hide ExecTxs, Survives;
    if m > 0 {
      NonceBelowHeight(branch, m - 1, scid, key);
      var s := States(branch, m - 1).value;
      var txs := branch[m - 1].txs;
      BlockAt(s.tokens, s, txs, |txs|, m - 1, scid, key);
    }
  }

  /** A use does not survive if a later transaction of the block names the token: the nonce stays what it was. */
  lemma {:induction false} TokenUseLost(s: State, key: nat, others: seq<nat>, height: nat)
    requires s.tokens == map[9 := map[key := 0]] && key in s.base && key !in others && height > 0
    requires |others| == 2 && forall i :: 0 <= i < 2 ==> others[i] in s.base
    ensures var first, second := Transfer(0, 0, [Payload(9, [key, others[0]], true, 1)]), Transfer(0, 0, [Payload(9, others, true, 2)]);
      && HasNonce(ExecTxs(s.tokens, s, [first], 1, height), key, height)
      && HasNonce(ExecTxs(s.tokens, s, [first, second], 2, height), key, 0)
  {
    var first, second := Transfer(0, 0, [Payload(9, [key, others[0]], true, 1)]), Transfer(0, 0, [Payload(9, others, true, 2)]);
    OneToken(s.tokens, s, first, height);
    var u := ExecTx(s.tokens, s, first, height).value;
    OneToken(s.tokens, u, second, height);
    assert ExecTxs(s.tokens, s, [first], 0, height) == Some(s);
    assert ExecTxs(s.tokens, s, [first], 1, height) == Some(u);
    assert ExecTxs(s.tokens, s, [first, second], 0, height) == Some(s);
    assert ExecTxs(s.tokens, s, [first, second], 1, height) == Some(u);
    PayloadsAt(s.base.Keys, Reloaded(s.tokens, s.tokens, first.payloads, 1), first.payloads, 1, height, 9, key);
    PayloadsAt(s.base.Keys, Reloaded(s.tokens, u.tokens, second.payloads, 1), second.payloads, 1, height, 9, key);
    ReloadedAt(s.tokens, s.tokens, first.payloads, 1, 9);
    ReloadedAt(s.tokens, u.tokens, second.payloads, 1, 9);
    assert InSlot(first.payloads[0], 0, 9, key);
    assert SendsToken(first.payloads, 1, 9, key);
    assert !SendsToken(second.payloads, 1, 9, key);
  }

  predicate HasNonce(s: Option<State>, key: nat, nonce: nat) {
    s.Some? && key in TreeOf(s.value.tokens, 9) && TreeOf(s.value.tokens, 9)[key] == nonce
  }

  lemma {:induction false} OneToken(start: Trees, s: State, tx: Tx, height: nat)
    requires tx.Transfer? && |tx.payloads| == 1 && tx.payloads[0].scid == 9 && |tx.payloads[0].ring| == 2
    requires forall i :: 0 <= i < 2 ==> tx.payloads[0].ring[i] in s.base
    ensures ExecTx(start, s, tx, height).Some? && ExecTx(start, s, tx, height).value.base == s.base
    ensures TokenPayloads(s.base.Keys, Reloaded(start, s.tokens, tx.payloads, 1), tx.payloads, 1, height)
      == Some(ExecTx(start, s, tx, height).value.tokens)
  {
    var p := tx.payloads[0];
    assert PayloadsEvents(tx.payloads, 0, height) == [] && PayloadEvents(p, height) == [];
    assert PayloadsEvents(tx.payloads, 1, height) == [] == TxEvents(tx, height);
    var ts := Reloaded(start, s.tokens, tx.payloads, 1);
    assert TokenPayloads(s.base.Keys, ts, tx.payloads, 0, height) == Some(ts);
    FoldNone(s.base);
    var t := TreeOf(Reloaded(start, s.tokens, tx.payloads, 1), 9);
    assert Ring(s.base.Keys, t, p, 1, height).Some?;
    assert Ring(s.base.Keys, t, p, 2, height).Some?;
  }

  // ---------- a stale spend of a token ----------

  /** The key of a token is used in block 1, and again in block 2 by a transaction built on block 0, where the key had
      no account of the token: the check skips it. */
  lemma {:induction false} StaleTokenSpend() returns (branch: seq<Blk>)
    ensures |branch| == 3 && ValidWithTokens(branch)
    ensures |branch[1].txs| == |branch[2].txs| == 1 && branch[2].txs[0].Transfer? && branch[2].txs[0].height == 0
    ensures TxSendsToken(branch[1].txs[0], 9, 1) && TxSendsToken(branch[2].txs[0], 9, 1)
  {
    var a := Transfer(7, 0, [Payload(0, [1, 2], true, 1), Payload(9, [1, 2], true, 2)]);
    var b := Transfer(7, 0, [Payload(0, [3, 4], true, 3), Payload(9, [1, 2], true, 4)]);
    branch := [Blk(7, [Register(1), Register(2), Register(3), Register(4)]), Blk(8, [a]), Blk(9, [b])];
    hide ValidWithTokens, SendsToken;
    SendsAt(a.payloads, 1, 0, 9, 1);
    SendsAt(b.payloads, 1, 0, 9, 1);
    StaleValid(branch, a, b);
  }

  ghost predicate TxSendsToken(tx: Tx, scid: nat, key: nat) {
    tx.Transfer? && SendsToken(tx.payloads, |tx.payloads|, scid, key)
  }

  lemma SendsAt(ps: seq<Payload>, k: nat, i: int, scid: nat, key: nat)
    requires k < |ps| && InSlot(ps[k], i, scid, key)
    ensures SendsToken(ps, |ps|, scid, key)
  {
  }

  lemma {:induction false} StaleValid(branch: seq<Blk>, a: Tx, b: Tx)
    requires a == Transfer(7, 0, [Payload(0, [1, 2], true, 1), Payload(9, [1, 2], true, 2)])
    requires b == Transfer(7, 0, [Payload(0, [3, 4], true, 3), Payload(9, [1, 2], true, 4)])
    requires branch == [Blk(7, [Register(1), Register(2), Register(3), Register(4)]), Blk(8, [a]), Blk(9, [b])]
    ensures ValidWithTokens(branch)
  {
    hide ExecTx, States, AllNoncesOk, TxAcceptedWithTokens, DistinctNonces;
    var base: Nonces := map[1 := 0, 2 := 0, 3 := 0, 4 := 0];
    FirstState(branch);
    TwoPayloads(NO_TREES, State(base, NO_TREES), a, 1);
    OneTx(branch, 1, a);
    var s := States(branch, 2).value;
    TwoPayloads(s.tokens, s, b, 2);
    OneTx(branch, 2, b);
    StaleAccepted(branch, 1, base, a);
    StaleAccepted(branch, 2, base, b);
  }

  lemma {:induction false} StaleAccepted(branch: seq<Blk>, m: nat, base: Nonces, tx: Tx)
    requires 1 <= m < |branch| && m < TX_VALIDITY_HEIGHT && branch[0].id == 7 && branch[m].txs == [tx]
    requires base == map[1 := 0, 2 := 0, 3 := 0, 4 := 0] && States(branch, 1) == Some(State(base, NO_TREES)) && States(branch, m).Some?
    requires tx.Transfer? && tx.blid == 7 && tx.height == 0 && |tx.payloads| == 2 && tx.payloads[0].nonce != tx.payloads[1].nonce
    requires tx.payloads[0].scid == 0 && tx.payloads[1].scid == 9 && tx.payloads[0].parity && |tx.payloads[0].ring| == 2
    requires var key, tip := tx.payloads[0].ring[0], States(branch, m).value.base; key in base && (key in tip ==> tip[key] == 0)
    ensures AcceptedWithTokens(branch, m)
  {
    hide States, AllNoncesOk;
    StaleOk(base, States(branch, m).value, tx);
    assert TxAcceptedWithTokens(branch, m, tx);
  }

  lemma {:induction false} StaleOk(base: Nonces, tip: State, tx: Tx)
    requires base == map[1 := 0, 2 := 0, 3 := 0, 4 := 0]
    requires tx.Transfer? && |tx.payloads| == 2 && tx.payloads[0].scid == 0 && tx.payloads[1].scid == 9
    requires tx.payloads[0].parity && |tx.payloads[0].ring| == 2
    requires tx.payloads[0].ring[0] in base && (tx.payloads[0].ring[0] in tip.base ==> tip.base[tx.payloads[0].ring[0]] == 0)
    ensures AllNoncesOk(State(base, NO_TREES), tip, tx)
  {
  }

  lemma {:induction false} FirstState(branch: seq<Blk>)
    requires |branch| >= 1 && branch[0].txs == [Register(1), Register(2), Register(3), Register(4)]
    ensures States(branch, 1) == Some(State(map[1 := 0, 2 := 0, 3 := 0, 4 := 0], NO_TREES))
  {
    hide Fold;
    var txs := branch[0].txs;
    var s := State(NO_ACCOUNTS, NO_TREES);
    assert States(branch, 0) == Some(s);
    Registers(s, 1);
    Registers(State(map[1 := 0], NO_TREES), 2);
    Registers(State(map[1 := 0, 2 := 0], NO_TREES), 3);
    Registers(State(map[1 := 0, 2 := 0, 3 := 0], NO_TREES), 4);
    assert ExecTxs(NO_TREES, s, txs, 0, 0) == Some(s);
    assert ExecTxs(NO_TREES, s, txs, 1, 0) == Some(State(map[1 := 0], NO_TREES));
    assert ExecTxs(NO_TREES, s, txs, 2, 0) == Some(State(map[1 := 0, 2 := 0], NO_TREES));
    assert ExecTxs(NO_TREES, s, txs, 3, 0) == Some(State(map[1 := 0, 2 := 0, 3 := 0], NO_TREES));
  }

  lemma Registers(s: State, key: nat)
    ensures ExecTx(NO_TREES, s, Register(key), 0) == Some(State(s.base[key := 0], s.tokens))
  {
    FoldOne(s.base, Registered(key, 0));
  }

  lemma {:induction false} OneTx(branch: seq<Blk>, m: nat, tx: Tx)
    requires m < |branch| && branch[m].txs == [tx] && States(branch, m).Some?
    ensures var s := States(branch, m).value; States(branch, m + 1) == ExecTx(s.tokens, s, tx, m)
  {
    hide ExecTx;
    var s := States(branch, m).value;
    assert ExecTxs(s.tokens, s, [tx], 0, m) == Some(s);
    assert ExecTxs(s.tokens, s, [tx], 1, m) == ExecTx(s.tokens, s, tx, m);
  }

  /** A transaction with one payload of the base asset and one of a token, all of whose ring members exist. */
  lemma {:induction false} TwoPayloads(start: Trees, s: State, tx: Tx, height: nat)
    requires tx.Transfer? && |tx.payloads| == 2 && tx.payloads[0].scid == 0 && tx.payloads[1].scid == 9
    requires tx.payloads[0].parity && |tx.payloads[0].ring| == 2 && |tx.payloads[1].ring| == 2
    requires forall k, i :: 0 <= k < 2 && 0 <= i < 2 ==> tx.payloads[k].ring[i] in s.base
    ensures ExecTx(start, s, tx, height).Some?
    ensures ExecTx(start, s, tx, height).value.base == s.base[tx.payloads[0].ring[0] := height]
  {
    var ps := tx.payloads;
    var p, q := ps[0], ps[1];
    assert SenderSlot(p, 0) && !SenderSlot(p, 1);
    assert RingEvents(p, 2, height) == [Used(p.ring[0], height), Touched(p.ring[1], height)];
    FoldTwo(s.base, Used(p.ring[0], height), Touched(p.ring[1], height));
    assert PayloadsEvents(ps, 0, height) == [];
    assert PayloadsEvents(ps, 1, height) == RingEvents(p, 2, height);
    assert PayloadEvents(q, height) == [];
    assert PayloadsEvents(ps, 2, height) == PayloadsEvents(ps, 1, height) == TxEvents(tx, height);
    var ts := Reloaded(start, s.tokens, ps, 2);
    assert TokenPayloads(s.base.Keys, ts, ps, 0, height) == Some(ts);
    assert TokenPayloads(s.base.Keys, ts, ps, 1, height) == Some(ts);
    RingOfTwo(s.base.Keys, TreeOf(ts, 9), q, height);
  }

  lemma RingOfTwo(accounts: set<nat>, t: Nonces, p: Payload, height: nat)
    requires |p.ring| == 2 && p.ring[0] in accounts && p.ring[1] in accounts
    ensures Ring(accounts, t, p, 2, height).Some?
  {
    assert Ring(accounts, t, p, 1, height).Some?;
  }
}
