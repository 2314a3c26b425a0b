/**
 The checks that run over all transactions of one block.

 The original spreads them over goroutines; here they run one after the other, and the outcome is
 that of all of them together.
 */
module BlockVerify {
  import opened ChainState
  import opened Spend
  import T = Tokens

  /** The transaction may spend this key of this asset. */
  ghost predicate Involves(tx: Tx, scid: nat, key: nat) {
    tx.Transfer? && exists k, i :: SlotOf(tx, k, i, scid, key)
  }

  predicate SlotOf(tx: Tx, k: int, i: int, scid: nat, key: nat) {
    && tx.Transfer? && 0 <= k < |tx.payloads| && 0 <= i < |tx.payloads[k].ring|
    && tx.payloads[k].scid == scid && SenderSlot(tx.payloads[k], i) && tx.payloads[k].ring[i] == key
  }

  type Table = map<nat, map<nat, nat>>

  predicate Has(data: Table, scid: nat, key: nat) {
    scid in data && key in data[scid]
  }

  /** Keys of the transaction that are already recorded are recorded at its height. */
  ghost predicate Agrees(data: Table, tx: Tx) {
    tx.Transfer? ==> forall scid, key :: Has(data, scid, key) && Involves(tx, scid, key) ==> data[scid][key] == tx.height
  }

  /** The slots before ring position i of payload k. */
  ghost predicate Before(k': int, i': int, k: int, i: int) {
    k' < k || (k' == k && i' < i)
  }

  ghost predicate AgreesTo(data: Table, tx: Tx, k: int, i: int) {
    forall k', i', scid, key {:trigger SlotOf(tx, k', i', scid, key)} ::
      SlotOf(tx, k', i', scid, key) && Before(k', i', k, i) && Has(data, scid, key) ==> data[scid][key] == tx.height
  }

  /** `now` holds what `was` held, and the transaction's height for its keys up to the position. */
  ghost predicate RecordedTo(was: Table, now: Table, tx: Tx, k: int, i: int) {
    && (forall scid, key {:trigger Has(now, scid, key)} {:trigger Has(was, scid, key)} :: Has(was, scid, key) ==> Has(now, scid, key) && now[scid][key] == was[scid][key])
    && (forall k', i', scid, key {:trigger SlotOf(tx, k', i', scid, key)} ::
          SlotOf(tx, k', i', scid, key) && Before(k', i', k, i) ==> Has(now, scid, key) && now[scid][key] == tx.height)
    && (forall scid, key {:trigger Has(now, scid, key)} :: Has(now, scid, key) && !Has(was, scid, key) ==>
          tx.Transfer? && now[scid][key] == tx.height && Involves(tx, scid, key))
  }

  lemma {:induction false} NoneYet(was: Table, tx: Tx)
    ensures AgreesTo(was, tx, 0, 0) && RecordedTo(was, was, tx, 0, 0)
  {
  }

  /** A new empty row for an asset holds no key. */
  lemma {:induction false} EmptyRow(was: Table, now: Table, tx: Tx, k: int, i: int, scid: nat)
    requires RecordedTo(was, now, tx, k, i) && scid !in now
    ensures RecordedTo(was, now[scid := map[]], tx, k, i)
  {
    var d := now[scid := map[]];
    assert forall s, key :: Has(d, s, key) <==> Has(now, s, key);
  }

  lemma {:induction false} NextSlot(was: Table, now: Table, tx: Tx, k: int, i: int)
    requires tx.Transfer? && 0 <= k < |tx.payloads| && 0 <= i < |tx.payloads[k].ring|
    requires var p := tx.payloads[k];
      SenderSlot(p, i) ==> Has(now, p.scid, p.ring[i]) && now[p.scid][p.ring[i]] == tx.height
    ensures RecordedTo(was, now, tx, k, i) ==> RecordedTo(was, now, tx, k, i + 1)
    ensures AgreesTo(was, tx, k, i) && RecordedTo(was, now, tx, k, i) ==> AgreesTo(was, tx, k, i + 1)
  {
  }

  /** Without recording, a slot is compared with the table as it was. */
  lemma {:induction false} NextCompared(was: Table, tx: Tx, k: int, i: int)
    requires tx.Transfer? && 0 <= k < |tx.payloads| && 0 <= i < |tx.payloads[k].ring|
    requires var p := tx.payloads[k];
      SenderSlot(p, i) && Has(was, p.scid, p.ring[i]) ==> was[p.scid][p.ring[i]] == tx.height
    ensures AgreesTo(was, tx, k, i) ==> AgreesTo(was, tx, k, i + 1)
  {
  }

  lemma {:induction false} NextPayload(was: Table, now: Table, tx: Tx, k: int)
    requires tx.Transfer? && 0 <= k < |tx.payloads|
    ensures RecordedTo(was, now, tx, k, |tx.payloads[k].ring|) ==> RecordedTo(was, now, tx, k + 1, 0)
    ensures AgreesTo(was, tx, k, |tx.payloads[k].ring|) ==> AgreesTo(was, tx, k + 1, 0)
    ensures tx.payloads[k].scid !in was && AgreesTo(was, tx, k, 0) ==> AgreesTo(was, tx, k + 1, 0)
  {
  }

  lemma {:induction false} Recorded(was: Table, now: Table, tx: Tx, k: int, i: int, row: map<nat, nat>)
    requires tx.Transfer? && 0 <= k < |tx.payloads| && 0 <= i < |tx.payloads[k].ring| && SenderSlot(tx.payloads[k], i)
    requires var p := tx.payloads[k];
      p.scid in now && !Has(now, p.scid, p.ring[i]) && row == now[p.scid][p.ring[i] := tx.height]
    requires RecordedTo(was, now, tx, k, i)
    ensures RecordedTo(was, now[tx.payloads[k].scid := row], tx, k, i)
  {
    var p := tx.payloads[k];
    var d := now[p.scid := row];
    assert SlotOf(tx, k, i, p.scid, p.ring[i]);
    assert forall s, key :: Has(d, s, key) <==> Has(now, s, key) || (s == p.scid && key == p.ring[i]);
  }

  lemma {:induction false} AgreesAll(was: Table, tx: Tx)
    requires tx.Transfer?
    ensures AgreesTo(was, tx, |tx.payloads|, 0) <==> Agrees(was, tx)
  {
    if AgreesTo(was, tx, |tx.payloads|, 0) {
      forall scid, key | Has(was, scid, key) && Involves(tx, scid, key) ensures was[scid][key] == tx.height {
        var k, i :| SlotOf(tx, k, i, scid, key);
      }
    } else {
      var k, i, scid, key :| SlotOf(tx, k, i, scid, key) && Has(was, scid, key) && was[scid][key] != tx.height;
      assert Involves(tx, scid, key);
    }
  }

  /** A key found at another height was already there before this transaction. */
  lemma {:induction false} Conflict(was: Table, now: Table, tx: Tx, k: int, i: int)
    requires tx.Transfer? && 0 <= k < |tx.payloads| && 0 <= i < |tx.payloads[k].ring| && SenderSlot(tx.payloads[k], i)
    requires RecordedTo(was, now, tx, k, i) || was == now
    requires Has(now, tx.payloads[k].scid, tx.payloads[k].ring[i]) && now[tx.payloads[k].scid][tx.payloads[k].ring[i]] != tx.height
    ensures !Agrees(was, tx)
  {
    var p := tx.payloads[k];
    assert SlotOf(tx, k, i, p.scid, p.ring[i]);
    assert Has(was, p.scid, p.ring[i]) && Involves(tx, p.scid, p.ring[i]);
  }

  class CblVerify {
    var data: Table

    constructor ()
      ensures data == map[]
    {
      data := map[];
    }

    /** Looks for a key recorded at another height; in the second round the keys are recorded. */
    method Check(tx: Tx, insert: bool) returns (ok: bool)
      modifies this
      ensures ok <==> Agrees(old(data), tx)
      ensures !insert || tx.Register? ==> data == old(data)
      ensures insert && ok && tx.Transfer? ==> RecordedTo(old(data), data, tx, |tx.payloads|, 0)
    {
      ghost var was := data;
      if tx.Register? { return true; }
      hide AgreesTo, RecordedTo, Agrees;
      NoneYet(was, tx);
      var k := 0;
      while k < |tx.payloads|
        invariant 0 <= k <= |tx.payloads|
        invariant AgreesTo(was, tx, k, 0)
        invariant if insert then RecordedTo(was, data, tx, k, 0) else data == was
      {
        var p := tx.payloads[k];
        NextPayload(was, data, tx, k);
        if p.scid !in data {
          if !insert {
            k := k + 1;
            continue;
          }
          EmptyRow(was, data, tx, k, 0, p.scid);
          data := data[p.scid := map[]];
        }
        var i := 0;
        while i < |p.ring|
          invariant 0 <= i <= |p.ring| && p.scid in data
          invariant AgreesTo(was, tx, k, i)
          invariant if insert then RecordedTo(was, data, tx, k, i) else data == was
        {
          if (i % 2 == 0) == p.parity {
            var key := p.ring[i];
            if key in data[p.scid] {
              if data[p.scid][key] != tx.height {
                Conflict(was, data, tx, k, i);
                return false;
              }
            } else if insert {
              var row: map<nat, nat> := data[p.scid][key := tx.height];
              Recorded(was, data, tx, k, i, row);
              data := data[p.scid := row];
            }
          }
          if insert { NextSlot(was, data, tx, k, i); } else { NextCompared(was, tx, k, i); }
          i := i + 1;
        }
        NextPayload(was, data, tx, k);
        k := k + 1;
      }
      AgreesAll(was, tx);
      ok := true;
    }
  }

  // ---------- all transactions of a block ----------

  /** Transactions of one block that may spend the same key were built at the same height. */
  ghost predicate SameHeights(txs: seq<Tx>, n: int) {
    forall a, b, scid, key {:trigger Involves(txs[a], scid, key), Involves(txs[b], scid, key)} ::
      0 <= a < n && 0 <= b < n && n <= |txs| && Involves(txs[a], scid, key) && Involves(txs[b], scid, key) ==> txs[a].height == txs[b].height
  }

  /** The table holds exactly the keys of the first n transactions, at their height. */
  ghost predicate Collected(data: Table, txs: seq<Tx>, n: int) {
    && (forall a, scid, key {:trigger Involves(txs[a], scid, key)} ::
          0 <= a < n <= |txs| && Involves(txs[a], scid, key) ==> Has(data, scid, key) && data[scid][key] == txs[a].height)
    && (forall scid, key {:trigger Has(data, scid, key)} :: Has(data, scid, key) ==>
          exists a :: 0 <= a < n <= |txs| && Involves(txs[a], scid, key))
  }

  lemma {:induction false} CollectNext(was: Table, now: Table, txs: seq<Tx>, n: nat)
    requires n < |txs| && txs[n].Transfer? && Collected(was, txs, n) && Agrees(was, txs[n])
    requires RecordedTo(was, now, txs[n], |txs[n].payloads|, 0)
    ensures Collected(now, txs, n + 1)
  {
    hide Involves;
    forall scid, key | Involves(txs[n], scid, key) ensures Has(now, scid, key) && now[scid][key] == txs[n].height {
      InvolvesSlot(txs[n], scid, key);
    }
  }

  lemma InvolvesSlot(tx: Tx, scid: nat, key: nat)
    requires Involves(tx, scid, key)
    ensures tx.Transfer? && exists k, i :: SlotOf(tx, k, i, scid, key) && Before(k, i, |tx.payloads|, 0)
  {
    var k, i :| SlotOf(tx, k, i, scid, key);
    assert Before(k, i, |tx.payloads|, 0);
  }

  lemma {:induction false} AgreeMeans(data: Table, txs: seq<Tx>, n: nat)
    requires n < |txs| && Collected(data, txs, n) && SameHeights(txs, n)
    ensures Agrees(data, txs[n]) <==> SameHeights(txs, n + 1)
  {
    hide Involves;
    NotInvolvedAll(txs);
    if !SameHeights(txs, n + 1) {
      var a, b, scid, key :| 0 <= a < n + 1 && 0 <= b < n + 1 && Involves(txs[a], scid, key) && Involves(txs[b], scid, key) && txs[a].height != txs[b].height;
      assert Has(data, scid, key);
    }
  }

  /** All transactions of a block pass if and only if those that share a possible sender agree on their height. */
  method VerifyTogether(txs: seq<Tx>) returns (ok: bool)
    ensures ok <==> SameHeights(txs, |txs|)
  {
    hide Agrees, Collected, RecordedTo, SameHeights, Involves;
    var check := new CblVerify();
    var n := 0;
    NothingCollected(txs);
    while n < |txs|
      invariant 0 <= n <= |txs|
      invariant Collected(check.data, txs, n) && SameHeights(txs, n)
    {
      AgreeMeans(check.data, txs, n);
      ghost var was := check.data;
      ok := check.Check(txs[n], false);
      if !ok {
        NotTogether(txs, n + 1);
        return;
      }
      ok := check.Check(txs[n], true);
      if txs[n].Register? { RegisterCollects(was, txs, n); } else { CollectNext(was, check.data, txs, n); }
      n := n + 1;
    }
    ok := true;
  }

  lemma NothingCollected(txs: seq<Tx>)
    ensures Collected(map[], txs, 0) && SameHeights(txs, 0)
  {
  }

  lemma RegisterCollects(data: Table, txs: seq<Tx>, n: nat)
    requires n < |txs| && txs[n].Register? && Collected(data, txs, n)
    ensures Collected(data, txs, n + 1)
  {
    assert forall scid, key :: !Involves(txs[n], scid, key);
  }

  lemma NotTogether(txs: seq<Tx>, n: nat)
    requires n <= |txs| && !SameHeights(txs, n)
    ensures !SameHeights(txs, |txs|)
  {
    hide Involves;
    NotInvolvedAll(txs);
    var a, b, scid, key :| 0 <= a < n && 0 <= b < n && Involves(txs[a], scid, key) && Involves(txs[b], scid, key) && txs[a].height != txs[b].height;
  }

  lemma NotInvolvedAll(txs: seq<Tx>)
    ensures forall a, scid, key :: 0 <= a < |txs| && Involves(txs[a], scid, key) ==> txs[a].Transfer?
  {
  }

  /** No two payloads of a block carry the same proof nonce. */
  method VerifyNonces(txs: seq<Tx>) returns (ok: bool)
    ensures ok <==> DistinctNonces(txs)
  {
    hide SeenTo, DistinctNonces;
    var seen: set<nat> := {};
    var n := 0;
    SeenNone(txs);
    while n < |txs|
      invariant 0 <= n <= |txs|
      invariant SeenTo(txs, n, 0, seen)
    {
      if txs[n].Transfer? {
        var a := 0;
        while a < |txs[n].payloads|
          invariant 0 <= a <= |txs[n].payloads|
          invariant SeenTo(txs, n, a, seen)
        {
          var nonce := txs[n].payloads[a].nonce;
          SeenNext(txs, n, a, seen);
          if nonce in seen { return false; }
          seen := seen + {nonce};
          a := a + 1;
        }
      }
      SeenTx(txs, n, seen);
      n := n + 1;
    }
    SeenAll(txs, seen);
    ok := true;
  }

  lemma SeenNone(txs: seq<Tx>)
    ensures SeenTo(txs, 0, 0, {})
  {
  }

  lemma {:induction false} SeenNext(txs: seq<Tx>, n: nat, a: nat, seen: set<nat>)
    requires IsPayload(txs, n, a) && SeenTo(txs, n, a, seen)
    ensures txs[n].payloads[a].nonce in seen ==> !DistinctNonces(txs)
    ensures txs[n].payloads[a].nonce !in seen ==> SeenTo(txs, n, a + 1, seen + {txs[n].payloads[a].nonce})
  {
  }

  lemma {:induction false} SeenTx(txs: seq<Tx>, n: nat, seen: set<nat>)
    requires n < |txs| && SeenTo(txs, n, if txs[n].Transfer? then |txs[n].payloads| else 0, seen)
    ensures SeenTo(txs, n + 1, 0, seen)
  {
  }

  lemma SeenAll(txs: seq<Tx>, seen: set<nat>)
    requires SeenTo(txs, |txs|, 0, seen)
    ensures DistinctNonces(txs)
  {
  }

  /** The payloads before payload a of transaction n have distinct nonces, which are the seen ones. */
  ghost predicate SeenTo(txs: seq<Tx>, n: int, a: int, seen: set<nat>) {
    && (forall i, c :: IsPayload(txs, i, c) && Before(i, c, n, a) ==> txs[i].payloads[c].nonce in seen)
    && (forall x :: x in seen ==> exists i, c :: IsPayload(txs, i, c) && Before(i, c, n, a) && txs[i].payloads[c].nonce == x)
    && (forall i, c, j, b {:trigger IsPayload(txs, i, c), IsPayload(txs, j, b)} ::
          IsPayload(txs, i, c) && IsPayload(txs, j, b) && Before(i, c, n, a) && Before(j, b, n, a) && (i != j || c != b) ==>
            txs[i].payloads[c].nonce != txs[j].payloads[b].nonce)
  }

  // ---------- the history a transaction may refer to ----------

  ghost predicate DistinctIds(branch: seq<Blk>) {
    forall i, j :: 0 <= i < j < |branch| ==> branch[i].id != branch[j].id
  }

  /** The ids of the blocks from a height up to the tip, lowest first: collected from the tip along the
      parents, then reversed. */
  method OrderedPast(branch: seq<Blk>, tip: nat, till: nat) returns (order: seq<nat>)
    requires till <= tip < |branch|
    ensures |order| == tip - till + 1 && forall k :: 0 <= k < |order| ==> order[k] == branch[till + k].id
  {
    order := [branch[tip].id];
    var current := tip;
    while current > till
      invariant till <= current <= tip && |order| == tip - current + 1
      invariant forall k :: 0 <= k < |order| ==> order[k] == branch[tip - k].id
    {
      order := order + [branch[current - 1].id];
      current := current - 1;
    }
    ghost var was := order;
    var i, j := 0, |order| - 1;
    while i < j
      invariant 0 <= i && i + j == |order| - 1 && j >= i - 1 && |order| == |was|
      invariant forall k {:trigger order[k]} :: 0 <= k < |order| ==> order[k] == if k < i || k > j then was[|was| - 1 - k] else was[k]
      decreases j - i
    {
      order := order[i := order[j]][j := order[i]];
      i, j := i + 1, j - 1;
    }
    assert forall k {:trigger order[k]} :: 0 <= k < |order| ==> order[k] == was[|was| - 1 - k];
  }

  /** The reference of a transaction: its block is among the last ones of the branch, at the height that the
      transaction claims, and not too far below. */
  method CheckHistory(branch: seq<Blk>, m: nat, tx: Tx) returns (ok: bool)
    requires 0 < m <= |branch| && DistinctIds(branch)
    ensures ok <==> InHistory(branch, m, tx)
  {
    if tx.Register? { return true; }
    if tx.height >= m { return false; }
    var till := if m >= HISTORY then m - HISTORY else 0;
    var history := OrderedPast(branch, m - 1, till);
    assert till <= tx.height ==> history[tx.height - till] == branch[tx.height].id;
    if tx.blid !in history { return false; }
    var k := 0;
    while history[k] != tx.blid
      invariant 0 <= k < |history| && tx.blid in history[k..]
      decreases |history| - k
    {
      k := k + 1;
    }
    if tx.height != till + k {
      assert branch[till + k].id == tx.blid;
      return false;
    }
    ok := m - tx.height < TX_VALIDITY_HEIGHT;
  }

  /** All nonce checks of a block, against the states of the blocks below it. */
  method VerifyTransactions(branch: seq<Blk>, m: nat, states: seq<T.State>) returns (ok: bool)
    requires 0 < m < |branch| && DistinctIds(branch)
    requires |states| == m && forall h :: 0 <= h < m ==> T.States(branch, h + 1) == Some(states[h])
    ensures ok <==> T.AcceptedWithTokens(branch, m)
  {
    hide DistinctNonces, T.States, T.AllNoncesOk, DistinctIds, InHistory;
    var txs := branch[m].txs;
    ok := VerifyNonces(txs);
    if !ok { return; }
    var i := 0;
    while i < |txs|
      invariant 0 <= i <= |txs|
      invariant forall j :: 0 <= j < i ==> T.TxAcceptedWithTokens(branch, m, txs[j])
    {
      ok := CheckHistory(branch, m, txs[i]);
      if !ok { return; }
      if txs[i].Transfer? {
        HistoryBelow(branch, m, txs[i]);
        ok := T.CheckNonceTips(states[txs[i].height], states[m - 1], txs[i]);
        if !ok { return; }
      }
      assert T.TxAcceptedWithTokens(branch, m, txs[i]);
      i := i + 1;
    }
  }

  lemma HistoryBelow(branch: seq<Blk>, m: nat, tx: Tx)
    requires m <= |branch| && tx.Transfer? && InHistory(branch, m, tx)
    ensures tx.height < m
  {
  }
}
