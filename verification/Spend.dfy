/** The nonce discipline of transactions. */
module Spend {
  import opened ChainState

  // It says which transactions a block may hold, given the blocks below it on its branch.

  /** Keys and ids are numbers; `scid` 0 is the base asset. */
  datatype Payload = Payload(scid: nat, ring: seq<nat>, parity: bool, nonce: nat)

  /** A transfer (normal, burn or contract transaction) was built on the state of block `blid`. */
  datatype Tx = Register(key: nat) | Transfer(blid: nat, height: nat, payloads: seq<Payload>)

  datatype Blk = Blk(id: nat, txs: seq<Tx>)

  type Nonces = map<nat, nat>

  const TX_VALIDITY_HEIGHT := 11
  const HISTORY := 25

  /** The ring positions that may hold the sender. */
  predicate SenderSlot(p: Payload, i: int) {
    (i % 2 == 0) == p.parity
  }

  /** The key is a possible sender of a base-asset payload. */
  predicate Sends(p: Payload, key: nat) {
    p.scid == 0 && exists i :: 0 <= i < |p.ring| && SenderSlot(p, i) && p.ring[i] == key
  }

  predicate TxSends(tx: Tx, key: nat) {
    tx.Transfer? && exists p :: p in tx.payloads && Sends(p, key)
  }

  // ---------- what executing a transaction does to the nonces ----------

  /** What happens to one account: it is created anew, used as a decoy, or used as a possible sender. */
  datatype Event = Registered(key: nat, height: nat) | Touched(key: nat, height: nat) | Used(key: nat, height: nat)

  function RingEvents(p: Payload, n: nat, height: nat): (es: seq<Event>)
    requires n <= |p.ring|
    ensures |es| == n
    ensures forall i :: 0 <= i < n ==> es[i] == if SenderSlot(p, i) then Used(p.ring[i], height) else Touched(p.ring[i], height)
  {
    seq(n, i requires 0 <= i < n => if SenderSlot(p, i) then Used(p.ring[i], height) else Touched(p.ring[i], height))
  }

  function PayloadEvents(p: Payload, height: nat): seq<Event> {
    if p.scid == 0 then RingEvents(p, |p.ring|, height) else []
  }

  function PayloadsEvents(ps: seq<Payload>, n: nat, height: nat): seq<Event>
    requires n <= |ps|
  {
    if n == 0 then [] else PayloadsEvents(ps, n - 1, height) + PayloadEvents(ps[n - 1], height)
  }

  function TxEvents(tx: Tx, height: nat): seq<Event> {
    match tx
    case Register(key) => [Registered(key, height)]
    case Transfer(_, _, ps) => PayloadsEvents(ps, |ps|, height)
  }

  function TxsEvents(txs: seq<Tx>, n: nat, height: nat): seq<Event>
    requires n <= |txs|
  {
    if n == 0 then [] else TxsEvents(txs, n - 1, height) + TxEvents(txs[n - 1], height)
  }

  /** One event: an account that is used must exist; None is a panic. */
  function Apply(t: Nonces, e: Event): Option<Nonces> {
    match e
    case Registered(key, _) => Some(t[key := 0])
    case Touched(key, _) => if key in t then Some(t) else None
    case Used(key, height) => if key in t then Some(t[key := height]) else None
  }

  function Fold(t: Nonces, es: seq<Event>): Option<Nonces> {
    if es == [] then Some(t)
    else
      match Fold(t, es[..|es| - 1])
      case None => None
      case Some(u) => Apply(u, es[|es| - 1])
  }

  lemma {:induction false} FoldSplit(t: Nonces, a: seq<Event>, b: seq<Event>)
    ensures Fold(t, a + b) == match Fold(t, a) case None => None case Some(u) => Fold(u, b)
    decreases |b|
  {
    if b == [] {
      assert a + b == a;
    } else {
      var n := |b| - 1;
      FoldSplit(t, a, b[..n]);
      assert (a + b)[..|a + b| - 1] == a + b[..n] && (a + b)[|a + b| - 1] == b[n];
    }
  }

  lemma {:induction false} FoldOne(t: Nonces, e: Event)
    ensures Fold(t, [e]) == Apply(t, e)
  {
    assert [e][..0] == [];
  }

  lemma FoldNone(t: Nonces)
    ensures Fold(t, []) == Some(t)
  {
  }

  lemma {:induction false} PanicStays(t: Nonces, ps: seq<Payload>, n: nat, height: nat)
    requires n <= |ps| && Fold(t, PayloadsEvents(ps, n, height)) == None
    ensures Fold(t, PayloadsEvents(ps, |ps|, height)) == None
    decreases |ps| - n
  {
    if n < |ps| {
      FoldSplit(t, PayloadsEvents(ps, n, height), PayloadEvents(ps[n], height));
      PanicStays(t, ps, n + 1, height);
    }
  }

  method ProcessRing(t: Nonces, p: Payload, height: nat) returns (r: Option<Nonces>)
    ensures r == Fold(t, RingEvents(p, |p.ring|, height))
  {
    var u := t;
    var i := 0;
    while i < |p.ring|
      invariant 0 <= i <= |p.ring|
      invariant Fold(t, RingEvents(p, i, height)) == Some(u)
    {
      var key := p.ring[i];
      RingStep(p, i, height);
      if key !in u {
        RingPanics(t, p, i + 1, height);
        return None;
      }
      if (i % 2 == 0) == p.parity { u := u[key := height]; }
      i := i + 1;
    }
    r := Some(u);
  }

  lemma RingStep(p: Payload, i: nat, height: nat)
    requires i < |p.ring|
    ensures RingEvents(p, i + 1, height)[..i] == RingEvents(p, i, height)
  {
  }

  lemma {:induction false} RingPanics(t: Nonces, p: Payload, n: nat, height: nat)
    requires n <= |p.ring| && Fold(t, RingEvents(p, n, height)) == None
    ensures Fold(t, RingEvents(p, |p.ring|, height)) == None
    decreases |p.ring| - n
  {
    if n < |p.ring| {
      RingStep(p, n, height);
      RingPanics(t, p, n + 1, height);
    }
  }

  // ---------- a branch ----------

  /** The events of the blocks of heights from..to-1, in order. */
  function Events(branch: seq<Blk>, from: nat, till: nat): seq<Event>
    requires from <= till <= |branch|
    decreases till
  {
    if from == till then []
    else Events(branch, from, till - 1) + TxsEvents(branch[till - 1].txs, |branch[till - 1].txs|, till - 1)
  }

  const NO_ACCOUNTS: Nonces := map[]

  /** The nonces in the snapshot of the block below height m. */
  function Snapshot(branch: seq<Blk>, m: nat): Option<Nonces>
    requires m <= |branch|
  {
    Fold(NO_ACCOUNTS, Events(branch, 0, m))
  }

  // ---------- the checks ----------

  /** Every possible sender exists in the state the payload was built on, and has not been used since. */
  predicate PayloadNonceOk(ref: Nonces, tip: Nonces, p: Payload) {
    p.scid == 0 ==>
      forall i :: 0 <= i < |p.ring| && SenderSlot(p, i) ==>
        p.ring[i] in ref && (p.ring[i] in tip ==> tip[p.ring[i]] <= ref[p.ring[i]])
  }

  predicate NonceOk(ref: Nonces, tip: Nonces, tx: Tx) {
    tx.Transfer? ==> forall k :: 0 <= k < |tx.payloads| ==> PayloadNonceOk(ref, tip, tx.payloads[k])
  }

  /** The transaction refers to a block of the branch, not too far below, by id and height. */
  predicate InHistory(branch: seq<Blk>, m: nat, tx: Tx)
    requires m <= |branch|
  {
    tx.Transfer? ==>
      && tx.height < m && branch[tx.height].id == tx.blid
      && m - HISTORY <= tx.height && m - tx.height < TX_VALIDITY_HEIGHT
  }

  /** In numbers: a transaction may refer to one of the ten blocks below. */
  lemma {:induction false} TenBlocks(branch: seq<Blk>, m: nat, tx: Tx)
    requires m <= |branch| && tx.Transfer?
    ensures InHistory(branch, m, tx) <==> tx.height < m <= tx.height + 10 && branch[tx.height].id == tx.blid
  {
  }

  predicate IsPayload(txs: seq<Tx>, i: int, a: int) {
    0 <= i < |txs| && txs[i].Transfer? && 0 <= a < |txs[i].payloads|
  }

  /** No two payloads of a block carry the same proof nonce. */
  ghost predicate DistinctNonces(txs: seq<Tx>) {
    forall i, a, j, b {:trigger IsPayload(txs, i, a), IsPayload(txs, j, b)} ::
      IsPayload(txs, i, a) && IsPayload(txs, j, b) && (i != j || a != b) ==> txs[i].payloads[a].nonce != txs[j].payloads[b].nonce
  }

  /** The block of height m passes the checks against the blocks below it. */
  ghost predicate AcceptedAt(branch: seq<Blk>, m: nat)
    requires m < |branch|
  {
    && DistinctNonces(branch[m].txs)
    && forall i :: 0 <= i < |branch[m].txs| ==> TxAcceptedAt(branch, m, branch[m].txs[i])
  }

  ghost predicate TxAcceptedAt(branch: seq<Blk>, m: nat, tx: Tx)
    requires m <= |branch|
  {
    && InHistory(branch, m, tx)
    && (tx.Transfer? ==>
          && Snapshot(branch, tx.height + 1).Some? && Snapshot(branch, m).Some?
          && NonceOk(Snapshot(branch, tx.height + 1).value, Snapshot(branch, m).value, tx))
  }

  /** A branch of accepted and executed blocks; the genesis block only creates accounts. */
  ghost predicate Valid(branch: seq<Blk>) {
    && (forall m :: 0 < m < |branch| ==> AcceptedAt(branch, m))
    && (|branch| > 0 ==> forall i :: 0 <= i < |branch[0].txs| ==> branch[0].txs[i].Register?)
    && Snapshot(branch, |branch|).Some?
  }

  // ---------- what the check means ----------

  /** The key was used as a possible sender and not registered again afterwards. */
  ghost predicate Open(es: seq<Event>, key: nat) {
    exists p :: UsedAt(es, key, p) && forall q :: p < q < |es| ==> !(es[q].Registered? && es[q].key == key)
  }

  predicate UsedAt(es: seq<Event>, key: nat, p: int) {
    0 <= p < |es| && es[p].Used? && es[p].key == key
  }

  ghost predicate HeightsWithin(es: seq<Event>, lo: int, hi: int) {
    forall p :: 0 <= p < |es| ==> lo <= es[p].height < hi
  }

  /** The nonce grows exactly if the key's last registration or use was a use. */
  lemma {:induction false} NonceMeansOpen(t: Nonces, es: seq<Event>, key: nat, lo: nat, hi: nat)
    requires Fold(t, es).Some? && key in t && t[key] < lo && HeightsWithin(es, lo, hi)
    ensures key in Fold(t, es).value
    ensures Fold(t, es).value[key] > t[key] <==> Open(es, key)
    ensures Fold(t, es).value[key] > t[key] ==> Fold(t, es).value[key] >= lo
    decreases |es|
  {
    if es != [] {
      var n := |es| - 1;
      var es' := es[..n];
      NonceMeansOpen(t, es', key, lo, hi);
      if es[n].Used? && es[n].key == key {
        assert UsedAt(es, key, n);
      } else if es[n].Registered? && es[n].key == key {
      } else {
        OpenStays(es, key);
      }
    }
  }

  lemma {:induction false} OpenStays(es: seq<Event>, key: nat)
    requires es != [] && !(es[|es| - 1].key == key && !es[|es| - 1].Touched?)
    ensures Open(es, key) <==> Open(es[..|es| - 1], key)
  {
    var es' := es[..|es| - 1];
    if Open(es, key) {
      var p :| UsedAt(es, key, p) && forall q :: p < q < |es| ==> !(es[q].Registered? && es[q].key == key);
      assert UsedAt(es', key, p);
    }
    if Open(es', key) {
      var p :| UsedAt(es', key, p) && forall q :: p < q < |es'| ==> !(es'[q].Registered? && es'[q].key == key);
      assert UsedAt(es, key, p);
      forall q | p < q < |es| ensures !(es[q].Registered? && es[q].key == key) {
        if q < |es'| { assert es'[q] == es[q]; }
      }
    }
  }

  lemma {:induction false} HeightsJoin(a: seq<Event>, b: seq<Event>, lo: int, hi: int, lo': int, hi': int)
    requires HeightsWithin(a, lo, hi) && HeightsWithin(b, lo', hi') && lo <= lo' && hi <= hi'
    ensures HeightsWithin(a + b, lo, hi')
  {
  }

  lemma {:induction false} TxsHeights(txs: seq<Tx>, n: nat, height: nat)
    requires n <= |txs|
    ensures HeightsWithin(TxsEvents(txs, n, height), height, height + 1)
  {
    if n > 0 {
      TxsHeights(txs, n - 1, height);
      if txs[n - 1].Transfer? { PayloadsHeights(txs[n - 1].payloads, |txs[n - 1].payloads|, height); }
      HeightsJoin(TxsEvents(txs, n - 1, height), TxEvents(txs[n - 1], height), height, height + 1, height, height + 1);
    }
  }

  lemma {:induction false} PayloadsHeights(ps: seq<Payload>, n: nat, height: nat)
    requires n <= |ps|
    ensures HeightsWithin(PayloadsEvents(ps, n, height), height, height + 1)
  {
    if n > 0 {
      PayloadsHeights(ps, n - 1, height);
      HeightsJoin(PayloadsEvents(ps, n - 1, height), PayloadEvents(ps[n - 1], height), height, height + 1, height, height + 1);
    }
  }

  lemma {:induction false} EventsHeights(branch: seq<Blk>, from: nat, till: nat)
    requires from <= till <= |branch|
    ensures HeightsWithin(Events(branch, from, till), from, till)
    decreases till
  {
    hide HeightsWithin, TxsEvents;
    if from < till {
      var txs := branch[till - 1].txs;
      EventsHeights(branch, from, till - 1);
      TxsHeights(txs, |txs|, till - 1);
      HeightsJoin(Events(branch, from, till - 1), TxsEvents(txs, |txs|, till - 1), from, till - 1, till - 1, till);
    } else {
      assert HeightsWithin([], from, till) by { NoHeights(from, till); }
    }
  }

  lemma NoHeights(lo: int, hi: int)
    ensures HeightsWithin([], lo, hi)
  {
  }

  lemma {:induction false} EventsSplit(branch: seq<Blk>, from: nat, mid: nat, till: nat)
    requires from <= mid <= till <= |branch|
    ensures Events(branch, from, till) == Events(branch, from, mid) + Events(branch, mid, till)
    decreases till
  {
    if mid < till { EventsSplit(branch, from, mid, till - 1); }
  }

  /** A nonce is 0 or the height of a block. */
  lemma {:induction false} NonceBelow(es: seq<Event>, hi: nat, key: nat)
    requires Fold(NO_ACCOUNTS, es).Some? && key in Fold(NO_ACCOUNTS, es).value && HeightsWithin(es, 0, hi)
    ensures Fold(NO_ACCOUNTS, es).value[key] < hi
    decreases |es|
  {
    if es != [] {
      var n := |es| - 1;
      if !(es[n].key == key && !es[n].Touched?) { NonceBelow(es[..n], hi, key); }
    }
  }

  /** The snapshots of a branch: each is the one below with the later events applied. */
  lemma {:induction false} SnapshotLater(branch: seq<Blk>, r: nat, m: nat)
    requires r <= m <= |branch| && Snapshot(branch, m).Some?
    ensures Snapshot(branch, r).Some? && Snapshot(branch, m) == Fold(Snapshot(branch, r).value, Events(branch, r, m))
  {
    EventsSplit(branch, 0, r, m);
    FoldSplit(NO_ACCOUNTS, Events(branch, 0, r), Events(branch, r, m));
  }

  /** The nonce check, exactly: a base-asset key passes against the blocks above the reference block if and
      only if it exists there, and every later use of it was followed by a new registration. */
  lemma {:induction false} KeyCheckExact(branch: seq<Blk>, r: nat, m: nat, key: nat)
    requires r < m <= |branch| && Snapshot(branch, m).Some?
    ensures Snapshot(branch, r + 1).Some?
    ensures key in Snapshot(branch, r + 1).value ==>
      && key in Snapshot(branch, m).value
      && (Snapshot(branch, m).value[key] <= Snapshot(branch, r + 1).value[key] <==> !Open(Events(branch, r + 1, m), key))
  {
    hide Fold, Events, Open, HeightsWithin;
    SnapshotLater(branch, r + 1, m);
    if key in Snapshot(branch, r + 1).value {
      EventsHeights(branch, 0, r + 1);
      EventsHeights(branch, r + 1, m);
      NonceBelow(Events(branch, 0, r + 1), r + 1, key);
      NonceMeansOpen(Snapshot(branch, r + 1).value, Events(branch, r + 1, m), key, r + 1, m);
    }
  }

  /** One payload of the check, in terms of the keys it may spend. */
  lemma {:induction false} PayloadNonceMeans(ref: Nonces, tip: Nonces, p: Payload)
    ensures PayloadNonceOk(ref, tip, p) <==>
      forall key :: Sends(p, key) ==> key in ref && (key in tip ==> tip[key] <= ref[key])
  {
    if forall key :: Sends(p, key) ==> key in ref && (key in tip ==> tip[key] <= ref[key]) {
      forall i | p.scid == 0 && 0 <= i < |p.ring| && SenderSlot(p, i)
        ensures p.ring[i] in ref && (p.ring[i] in tip ==> tip[p.ring[i]] <= ref[p.ring[i]])
      {
        assert Sends(p, p.ring[i]);
      }
    }
  }

  lemma {:induction false} NonceMeans(ref: Nonces, tip: Nonces, tx: Tx)
    requires tx.Transfer?
    ensures NonceOk(ref, tip, tx) <==>
      forall key :: TxSends(tx, key) ==> key in ref && (key in tip ==> tip[key] <= ref[key])
  {
    hide Sends, PayloadNonceOk;
    forall k | 0 <= k < |tx.payloads|
      ensures PayloadNonceOk(ref, tip, tx.payloads[k]) <==>
        forall key :: Sends(tx.payloads[k], key) ==> key in ref && (key in tip ==> tip[key] <= ref[key])
    {
      PayloadNonceMeans(ref, tip, tx.payloads[k]);
    }
    forall k, key | 0 <= k < |tx.payloads| && Sends(tx.payloads[k], key) ensures TxSends(tx, key) {
      assert tx.payloads[k] in tx.payloads;
    }
  }

  /** The nonce check of a whole transaction, for every branch. */
  lemma {:induction false} NonceCheckExact(branch: seq<Blk>, m: nat, tx: Tx)
    requires tx.Transfer? && tx.height < m <= |branch| && Snapshot(branch, m).Some?
    ensures Snapshot(branch, tx.height + 1).Some?
    ensures NonceOk(Snapshot(branch, tx.height + 1).value, Snapshot(branch, m).value, tx) <==>
      forall key :: TxSends(tx, key) ==>
        key in Snapshot(branch, tx.height + 1).value && !Open(Events(branch, tx.height + 1, m), key)
  {
    hide Snapshot, Events, Open, TxSends, NonceOk;
    KeyCheckExact(branch, tx.height, m, 0);
    NonceMeans(Snapshot(branch, tx.height + 1).value, Snapshot(branch, m).value, tx);
    forall key | TxSends(tx, key)
      ensures key in Snapshot(branch, tx.height + 1).value ==> key in Snapshot(branch, m).value
      ensures key in Snapshot(branch, tx.height + 1).value ==>
        (Snapshot(branch, m).value[key] <= Snapshot(branch, tx.height + 1).value[key] <==> !Open(Events(branch, tx.height + 1, m), key))
    {
      KeyCheckExact(branch, tx.height, m, key);
    }
  }

  /** Against the block just below, every key that exists there passes, whatever it was used for before. */
  lemma {:induction false} TopPasses(branch: seq<Blk>, m: nat, tx: Tx)
    requires 0 < m <= |branch| && Snapshot(branch, m).Some? && tx.Transfer? && tx.height == m - 1
    ensures TxAcceptedAt(branch, m, tx) <==>
      branch[m - 1].id == tx.blid && forall key :: TxSends(tx, key) ==> key in Snapshot(branch, m).value
  {
    hide Snapshot, TxSends, NonceOk;
    NonceMeans(Snapshot(branch, m).value, Snapshot(branch, m).value, tx);
  }

  // ---------- no stale spend ----------

  ghost predicate Uses(es: seq<Event>, key: nat) {
    exists p :: UsedAt(es, key, p)
  }

  lemma {:induction false} UsesJoin(a: seq<Event>, b: seq<Event>, key: nat)
    requires Uses(a, key) || Uses(b, key)
    ensures Uses(a + b, key)
  {
    if Uses(a, key) {
      var p :| UsedAt(a, key, p);
      assert UsedAt(a + b, key, p);
    } else {
      var p :| UsedAt(b, key, p);
      assert UsedAt(a + b, key, |a| + p);
    }
  }

  lemma {:induction false} PayloadUses(p: Payload, height: nat, key: nat)
    requires Sends(p, key)
    ensures Uses(PayloadEvents(p, height), key)
  {
    var i :| 0 <= i < |p.ring| && SenderSlot(p, i) && p.ring[i] == key;
    assert UsedAt(PayloadEvents(p, height), key, i);
  }

  lemma {:induction false} PayloadsUse(ps: seq<Payload>, n: nat, height: nat, key: nat, k: nat)
    requires k < n <= |ps| && Sends(ps[k], key)
    ensures Uses(PayloadsEvents(ps, n, height), key)
  {
    hide Uses, Sends, PayloadEvents;
    if k == n - 1 { PayloadUses(ps[k], height, key); } else { PayloadsUse(ps, n - 1, height, key, k); }
    UsesJoin(PayloadsEvents(ps, n - 1, height), PayloadEvents(ps[n - 1], height), key);
  }

  lemma {:induction false} TxUses(tx: Tx, height: nat, key: nat)
    requires TxSends(tx, key)
    ensures Uses(TxEvents(tx, height), key)
  {
    hide Uses, Sends, PayloadsEvents;
    var p :| p in tx.payloads && Sends(p, key);
    var k :| 0 <= k < |tx.payloads| && tx.payloads[k] == p;
    PayloadsUse(tx.payloads, |tx.payloads|, height, key, k);
  }

  lemma {:induction false} TxsUse(txs: seq<Tx>, n: nat, height: nat, key: nat, j: nat)
    requires j < n <= |txs| && TxSends(txs[j], key)
    ensures Uses(TxsEvents(txs, n, height), key)
  {
    hide Uses, TxSends, TxEvents;
    if j == n - 1 { TxUses(txs[j], height, key); } else { TxsUse(txs, n - 1, height, key, j); }
    UsesJoin(TxsEvents(txs, n - 1, height), TxEvents(txs[n - 1], height), key);
  }

  /** An executed transaction that may spend a key is an event of the branch. */
  lemma {:induction false} BlockUses(branch: seq<Blk>, from: nat, till: nat, h: nat, j: nat, key: nat)
    requires from <= h < till <= |branch| && j < |branch[h].txs| && TxSends(branch[h].txs[j], key)
    ensures Uses(Events(branch, from, till), key)
    decreases till
  {
    hide Uses, TxSends, TxsEvents;
    var last := branch[till - 1].txs;
    if h == till - 1 { TxsUse(last, |last|, h, key, j); } else { BlockUses(branch, from, till - 1, h, j, key); }
    UsesJoin(Events(branch, from, till - 1), TxsEvents(last, |last|, till - 1), key);
  }

  ghost predicate NotRegistered(es: seq<Event>, key: nat) {
    forall p :: 0 <= p < |es| ==> !(es[p].Registered? && es[p].key == key)
  }

  /** No stale spend: if a key was a possible sender in a block at height h, every transaction of a later
      block that may spend it was built on the state of block h or a later one, unless the account was
      registered again in between. */
  lemma {:induction false} NoStaleSpend(branch: seq<Blk>, h: nat, j: nat, m: nat, i: nat, key: nat)
    requires Valid(branch) && h < m < |branch| && j < |branch[h].txs| && i < |branch[m].txs|
    requires TxSends(branch[h].txs[j], key) && TxSends(branch[m].txs[i], key)
    requires NotRegistered(Events(branch, h, m), key)
    ensures h <= branch[m].txs[i].height < m
  {
    hide Events, Snapshot, NonceOk, Open, NotRegistered, Sends, Uses;
    var tx := branch[m].txs[i];
    AcceptedTx(branch, m, i);
    if tx.height < h {
      NonceCheckExact(branch, m, tx);
      EventsSplit(branch, tx.height + 1, h, m);
      BlockUses(branch, h, m, h, j, key);
      UseStaysOpen(Events(branch, tx.height + 1, h), Events(branch, h, m), key);
    }
  }

  lemma {:induction false} AcceptedTx(branch: seq<Blk>, m: nat, i: nat)
    requires Valid(branch) && 0 < m < |branch| && i < |branch[m].txs|
    ensures TxAcceptedAt(branch, m, branch[m].txs[i]) && Snapshot(branch, m).Some?
  {
    hide TxAcceptedAt, DistinctNonces;
    assert AcceptedAt(branch, m);
    SnapshotLater(branch, m, |branch|);
  }

  lemma {:induction false} UseStaysOpen(a: seq<Event>, b: seq<Event>, key: nat)
    requires NotRegistered(b, key) && Uses(b, key)
    ensures Open(a + b, key)
  {
    var p :| UsedAt(b, key, p);
    assert UsedAt(a + b, key, |a| + p);
  }

  /** A transfer is executed at most once on a branch: two places that hold the same one are the same place,
      provided one of its possible senders was not registered again in between. */
  lemma {:induction false} ExecutedOnce(branch: seq<Blk>, h: nat, j: nat, m: nat, i: nat, key: nat)
    requires Valid(branch) && h <= m < |branch| && j < |branch[h].txs| && i < |branch[m].txs|
    requires branch[h].txs[j] == branch[m].txs[i] && TxSends(branch[h].txs[j], key)
    requires NotRegistered(Events(branch, h, m), key)
    ensures h == m && j == i
  {
    var tx := branch[h].txs[j];
    if h < m {
      NoStaleSpend(branch, h, j, m, i, key);
      BelowItsBlock(branch, h, j);
    } else if j != i {
      assert h > 0 by { BelowItsBlock(branch, h, j); }
      assert AcceptedAt(branch, h);
      assert IsPayload(branch[h].txs, j, 0) && IsPayload(branch[h].txs, i, 0);
    }
  }

  lemma {:induction false} BelowItsBlock(branch: seq<Blk>, h: nat, j: nat)
    requires Valid(branch) && h < |branch| && j < |branch[h].txs| && branch[h].txs[j].Transfer?
    ensures branch[h].txs[j].height < h
  {
    hide Snapshot, NonceOk;
    if h > 0 { AcceptedTx(branch, h, j); }
  }

  /** The proviso is needed: after a new registration the same transfer passes the nonce check again. */
  lemma {:induction false} RegistrationReopens()
    ensures exists branch: seq<Blk>, tx: Tx :: Valid(branch) && |branch| == 4 && tx.Transfer? && tx in branch[1].txs && tx in branch[3].txs
  {
    var tx := Transfer(7, 0, [Payload(0, [1, 2], true, 5)]);
    var branch := [Blk(7, [Register(1), Register(2)]), Blk(8, [tx]), Blk(9, [Register(1)]), Blk(10, [tx])];
    hide Valid;
    ReopenValid(branch, tx);
    assert tx in branch[1].txs && tx in branch[3].txs;
  }

  lemma {:induction false} ReopenValid(branch: seq<Blk>, tx: Tx)
    requires tx == Transfer(7, 0, [Payload(0, [1, 2], true, 5)])
    requires branch == [Blk(7, [Register(1), Register(2)]), Blk(8, [tx]), Blk(9, [Register(1)]), Blk(10, [tx])]
    ensures Valid(branch)
  {
    hide Snapshot, AcceptedAt, TxAcceptedAt;
    ReopenSnapshots(branch, tx);
    forall m | 0 < m < 4 ensures AcceptedAt(branch, m) {
      if m == 1 { ReopenTx(branch, tx, 1); OneTxAccepted(branch, 1); }
      if m == 2 { RegisterAccepted(branch, 2, Register(1)); OneTxAccepted(branch, 2); }
      if m == 3 { ReopenTx(branch, tx, 3); OneTxAccepted(branch, 3); }
    }
  }

  lemma {:induction false} ReopenTx(branch: seq<Blk>, tx: Tx, m: nat)
    requires 0 < m <= |branch| && m < TX_VALIDITY_HEIGHT && branch[0].id == 7
    requires tx == Transfer(7, 0, [Payload(0, [1, 2], true, 5)])
    requires Snapshot(branch, 1) == Snapshot(branch, m) == Some(map[1 := 0, 2 := 0])
    ensures TxAcceptedAt(branch, m, tx)
  {
    hide Snapshot;
    assert NonceOk(map[1 := 0, 2 := 0], map[1 := 0, 2 := 0], tx);
  }

  lemma RegisterAccepted(branch: seq<Blk>, m: nat, tx: Tx)
    requires m <= |branch| && tx.Register?
    ensures TxAcceptedAt(branch, m, tx)
  {
  }

  lemma {:induction false} OneTxAccepted(branch: seq<Blk>, m: nat)
    requires m < |branch| && |branch[m].txs| == 1 && TxAcceptedAt(branch, m, branch[m].txs[0])
    requires branch[m].txs[0].Transfer? ==> |branch[m].txs[0].payloads| <= 1
    ensures AcceptedAt(branch, m)
  {
    hide TxAcceptedAt;
  }

  lemma {:induction false} ReopenSnapshots(branch: seq<Blk>, tx: Tx)
    requires tx == Transfer(7, 0, [Payload(0, [1, 2], true, 5)])
    requires branch == [Blk(7, [Register(1), Register(2)]), Blk(8, [tx]), Blk(9, [Register(1)]), Blk(10, [tx])]
    ensures Snapshot(branch, 1) == Snapshot(branch, 3) == Some(map[1 := 0, 2 := 0])
    ensures Snapshot(branch, 2) == Some(map[1 := 1, 2 := 0]) && Snapshot(branch, 4).Some?
  {
    hide Fold, TxsEvents, Snapshot;
    var t0, t1: Nonces := map[1 := 0, 2 := 0], map[1 := 1, 2 := 0];
    SnapshotStart(branch);
    SnapshotNext(branch, 0);
    RegisterEvents(1, 2, 0);
    FoldTwo(NO_ACCOUNTS, Registered(1, 0), Registered(2, 0));
    assert NO_ACCOUNTS[1 := 0][2 := 0] == t0;
    SnapshotNext(branch, 1);
    TransferEvents(tx, 1);
    FoldTwo(t0, Used(1, 1), Touched(2, 1));
    assert t0[1 := 1] == t1;
    SnapshotNext(branch, 2);
    RegisterEvents(1, 1, 2);
    FoldOne(t1, Registered(1, 2));
    assert t1[1 := 0] == t0;
    SnapshotNext(branch, 3);
    TransferEvents(tx, 3);
    FoldTwo(t0, Used(1, 3), Touched(2, 3));
  }

  lemma SnapshotStart(branch: seq<Blk>)
    ensures Snapshot(branch, 0) == Some(NO_ACCOUNTS)
  {
  }

  lemma {:induction false} SnapshotNext(branch: seq<Blk>, m: nat)
    requires m < |branch| && Snapshot(branch, m).Some?
    ensures Snapshot(branch, m + 1) == Fold(Snapshot(branch, m).value, TxsEvents(branch[m].txs, |branch[m].txs|, m))
  {
    FoldSplit(NO_ACCOUNTS, Events(branch, 0, m), TxsEvents(branch[m].txs, |branch[m].txs|, m));
  }

  lemma {:induction false} FoldTwo(t: Nonces, a: Event, b: Event)
    ensures Fold(t, [a, b]) == match Apply(t, a) case None => None case Some(u) => Apply(u, b)
  {
    assert [a, b][..1] == [a];
    FoldOne(t, a);
  }

  lemma {:induction false} RegisterEvents(key: nat, key': nat, height: nat)
    ensures TxsEvents([Register(key)], 1, height) == [Registered(key, height)]
    ensures TxsEvents([Register(key), Register(key')], 2, height) == [Registered(key, height), Registered(key', height)]
  {
    assert TxsEvents([Register(key), Register(key')], 1, height) == [Registered(key, height)];
  }

  lemma {:induction false} TransferEvents(tx: Tx, height: nat)
    requires tx.Transfer? && |tx.payloads| == 1 && tx.payloads[0].scid == 0 && |tx.payloads[0].ring| == 2 && tx.payloads[0].parity
    ensures TxsEvents([tx], 1, height) == [Used(tx.payloads[0].ring[0], height), Touched(tx.payloads[0].ring[1], height)]
  {
    var p := tx.payloads[0];
    assert SenderSlot(p, 0) && !SenderSlot(p, 1);
    assert TxsEvents([tx], 1, height) == TxEvents(tx, height);
    assert PayloadsEvents(tx.payloads, 1, height) == RingEvents(p, 2, height);
  }
}
