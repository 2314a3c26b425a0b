/** No transfer twice on the recorded chain, over every run. */
module ChainSpend {
  // The branches of Spend, taken from the block store: each executed block with its ancestors.

  import opened ChainState
  import opened ChainSteps
  import opened ChainRuns
  import opened Spend
  import Tokens

  /** The transactions of a block, and the base-asset nonces in a state. */
  datatype BaseView<!S> = BaseView(txs: Block -> seq<Tx>, nonces: S -> Nonces)

  /** Whatever else executing a block does, the nonces of the base asset follow its transactions. */
  ghost predicate Follows<S(!new)>(env: Env<S>, v: BaseView<S>) {
    && v.nonces(env.genesis) == NO_ACCOUNTS
    && forall s: S, b: Block {:trigger env.exec(s, b)} :: env.exec(s, b).Some? ==>
         Fold(v.nonces(s), TxsEvents(v.txs(b), |v.txs(b)|, b.height)) == Some(v.nonces(env.exec(s, b).value))
  }

  /** Execution of the transactions on the trees of the base asset and of tokens is of this kind. */
  lemma {:induction false} TokensFollow(hash: Block -> nat, txs: Block -> seq<Tx>)
    ensures Follows(
      Env(hash, (s: Tokens.State, b: Block) => Tokens.ExecTxs(s.tokens, s, txs(b), |txs(b)|, b.height), Tokens.State(NO_ACCOUNTS, Tokens.NO_TREES)),
      BaseView(txs, (s: Tokens.State) => s.base))
  {
    hide Tokens.ExecTxs, Fold, TxsEvents;
    forall s: Tokens.State, b: Block | Tokens.ExecTxs(s.tokens, s, txs(b), |txs(b)|, b.height).Some?
      ensures Fold(s.base, TxsEvents(txs(b), |txs(b)|, b.height)) == Some(Tokens.ExecTxs(s.tokens, s, txs(b), |txs(b)|, b.height).value.base)
    {
      Tokens.TxsBase(s.tokens, s, txs(b), |txs(b)|, b.height);
    }
  }

  function BlkOf<S>(env: Env<S>, v: BaseView<S>, bl: Block): Blk {
    Blk(env.hash(bl), v.txs(bl))
  }

  /** The branch that ends with the block. */
  function Ancestry<S>(env: Env<S>, v: BaseView<S>, db: Db<S>, bl: Block): (branch: seq<Blk>)
    ensures branch != []
    decreases bl.height
  {
    if bl.height > 0 && HasParent(db, bl) then Ancestry(env, v, db, db.blocks[bl.tips[0]].bl) + [BlkOf(env, v, bl)]
    else [BlkOf(env, v, bl)]
  }

  /** The block passes the checks against its branch; the genesis block only creates accounts. */
  ghost predicate Vetted<S>(env: Env<S>, v: BaseView<S>, db: Db<S>, bl: Block) {
    if bl.height == 0 then forall i :: 0 <= i < |v.txs(bl)| ==> v.txs(bl)[i].Register?
    else AcceptedAt(Ancestry(env, v, db, bl), |Ancestry(env, v, db, bl)| - 1)
  }

  /** A block is let through only if it passes the checks. */
  ghost predicate Checked<S>(env: Env<S>, v: BaseView<S>, db: Db<S>, op: Op) {
    op.AddBlock? && op.bl.height > 0 && Check(env, db, op.bl, op.verdict) == Added ==> Vetted(env, v, db, op.bl)
  }

  ghost predicate AllChecked<S>(env: Env<S>, v: BaseView<S>, db: Db<S>, ops: seq<Op>)
    requires Running(env, db) && AllAllowed(env, db, ops)
    decreases |ops|
  {
    ops == [] || (Checked(env, v, db, ops[0]) && (StepKeeps(env, db, ops[0]); AllChecked(env, v, Step(env, db, ops[0]), ops[1..])))
  }

  // ---------- branches of the store ----------

  ghost predicate Rooted<S>(db: Db<S>, bl: Block) {
    Linked(db) && (bl.height > 0 ==> HasParent(db, bl))
  }

  lemma {:induction false} StoreLinked<S>(env: Env<S>, db: Db<S>)
    requires StoreOk(env, db)
    ensures Linked(db)
  {
    forall id | id in db.blocks && db.blocks[id].version > 0 && db.blocks[id].bl.height > 0 ensures HasParent(db, db.blocks[id].bl) {
      assert Executed(env, db, id);
    }
  }

  lemma {:induction false} ParentRooted<S>(db: Db<S>, bl: Block)
    requires Rooted(db, bl) && bl.height > 0
    ensures HasParent(db, bl) && Rooted(db, db.blocks[bl.tips[0]].bl)
  {
    var id := bl.tips[0];
    assert db.blocks[id].bl.height > 0 ==> HasParent(db, db.blocks[id].bl);
  }

  lemma {:induction false} AncestryLength<S>(env: Env<S>, v: BaseView<S>, db: Db<S>, bl: Block)
    requires Rooted(db, bl)
    ensures |Ancestry(env, v, db, bl)| == bl.height + 1 && Ancestry(env, v, db, bl)[bl.height] == BlkOf(env, v, bl)
    decreases bl.height
  {
    hide Linked;
    if bl.height > 0 {
      ParentRooted(db, bl);
      AncestryLength(env, v, db, db.blocks[bl.tips[0]].bl);
    }
  }

  /** Executed blocks stay executed blocks. */
  ghost predicate Grows<S>(db: Db<S>, d: Db<S>) {
    forall id :: id in db.blocks && db.blocks[id].version > 0 ==>
      id in d.blocks && d.blocks[id].version > 0 && d.blocks[id].bl == db.blocks[id].bl
  }

  lemma {:induction false} AncestryGrows<S>(env: Env<S>, v: BaseView<S>, db: Db<S>, d: Db<S>, bl: Block)
    requires Grows(db, d) && Rooted(db, bl)
    ensures Ancestry(env, v, d, bl) == Ancestry(env, v, db, bl)
    decreases bl.height
  {
    hide Linked;
    if bl.height > 0 {
      ParentRooted(db, bl);
      AncestryGrows(env, v, db, d, db.blocks[bl.tips[0]].bl);
    }
  }

  // ---------- longer branches ----------

  lemma {:induction false} EventsPrefix(a: seq<Blk>, b: seq<Blk>, from: nat, till: nat)
    requires from <= till <= |a| && a <= b
    ensures Events(a, from, till) == Events(b, from, till)
    decreases till
  {
    hide TxsEvents;
    if from < till { EventsPrefix(a, b, from, till - 1); }
  }

  lemma {:induction false} SnapshotPrefix(a: seq<Blk>, b: seq<Blk>, m: nat)
    requires m <= |a| && a <= b
    ensures Snapshot(a, m) == Snapshot(b, m)
  {
    EventsPrefix(a, b, 0, m);
  }

  lemma {:induction false} AcceptedPrefix(a: seq<Blk>, b: seq<Blk>, m: nat)
    requires m < |a| && a <= b
    ensures AcceptedAt(a, m) <==> AcceptedAt(b, m)
  {
    hide Snapshot, NonceOk, DistinctNonces;
    SnapshotPrefix(a, b, m);
    forall i | 0 <= i < |a[m].txs| ensures TxAcceptedAt(a, m, a[m].txs[i]) <==> TxAcceptedAt(b, m, a[m].txs[i]) {
      var tx := a[m].txs[i];
      if tx.Transfer? && tx.height < m { SnapshotPrefix(a, b, tx.height + 1); }
    }
  }

  /** The nonces on top of the branch of an executed block are those in its snapshot. */
  lemma {:induction false} AncestrySnapshot<S(!new)>(env: Env<S>, v: BaseView<S>, db: Db<S>, id: nat)
    requires StoreOk(env, db) && Follows(env, v) && id in db.blocks && db.blocks[id].version > 0
    ensures var b := db.blocks[id];
      && 1 <= b.version <= |db.snaps|
      && var branch := Ancestry(env, v, db, b.bl);
      && |branch| == b.bl.height + 1 && Snapshot(branch, |branch|) == Some(v.nonces(db.snaps[b.version - 1]))
    decreases db.blocks[id].bl.height
  {
    hide Snapshot, Fold, TxsEvents, Linked, Follows, StoreOk, Rooted;
    StoreLinked(env, db);
    ExecutedRooted(env, db, id);
    ExecutedNonces(env, v, db, id);
    var bl := db.blocks[id].bl;
    AncestryLength(env, v, db, bl);
    if bl.height > 0 { AncestrySnapshot(env, v, db, bl.tips[0]); }
    NextSnapshot(env, v, db, bl);
  }

  /** The nonces below the last block of a branch are those on top of the branch of its parent. */
  lemma {:induction false} NextSnapshot<S>(env: Env<S>, v: BaseView<S>, db: Db<S>, bl: Block)
    requires |Ancestry(env, v, db, bl)| == bl.height + 1 && (bl.height > 0 ==> HasParent(db, bl))
    ensures var branch := Ancestry(env, v, db, bl);
      var was := if bl.height == 0 then Some(NO_ACCOUNTS)
                 else var below := Ancestry(env, v, db, db.blocks[bl.tips[0]].bl); Snapshot(below, |below|);
      was.Some? ==> Snapshot(branch, |branch|) == Fold(was.value, TxsEvents(v.txs(bl), |v.txs(bl)|, bl.height))
  {
    hide Snapshot, Fold, TxsEvents;
    var branch := Ancestry(env, v, db, bl);
    assert branch[bl.height] == BlkOf(env, v, bl);
    if bl.height == 0 {
      SnapshotStart(branch);
    } else {
      SnapshotPrefix(Ancestry(env, v, db, db.blocks[bl.tips[0]].bl), branch, bl.height);
    }
    if Snapshot(branch, bl.height).Some? { SnapshotNext(branch, bl.height); }
  }

  /** The nonces in the snapshot of an executed block follow from those of its parent. */
  lemma {:induction false} ExecutedNonces<S(!new)>(env: Env<S>, v: BaseView<S>, db: Db<S>, id: nat)
    requires StoreOk(env, db) && Follows(env, v) && id in db.blocks && db.blocks[id].version > 0
    ensures var b := db.blocks[id];
      && 1 <= b.version <= |db.snaps|
      && (b.bl.height > 0 ==> HasParent(db, b.bl) && 1 <= db.blocks[b.bl.tips[0]].version <= |db.snaps|)
      && var was := if b.bl.height == 0 then NO_ACCOUNTS else v.nonces(db.snaps[db.blocks[b.bl.tips[0]].version - 1]);
      Fold(was, TxsEvents(v.txs(b.bl), |v.txs(b.bl)|, b.bl.height)) == Some(v.nonces(db.snaps[b.version - 1]))
  {
    hide Fold, TxsEvents;
    assert Executed(env, db, id);
  }

  lemma ExecutedRooted<S>(env: Env<S>, db: Db<S>, id: nat)
    requires Linked(db) && id in db.blocks && db.blocks[id].version > 0
    ensures Rooted(db, db.blocks[id].bl)
  {
    assert db.blocks[id].bl.height > 0 ==> HasParent(db, db.blocks[id].bl);
  }

  // ---------- what every run keeps ----------

  ghost predicate AllVetted<S>(env: Env<S>, v: BaseView<S>, db: Db<S>) {
    forall id {:trigger id in db.blocks} :: id in db.blocks && db.blocks[id].version > 0 ==> Vetted(env, v, db, db.blocks[id].bl)
  }

  /** The branch of every executed block is one of accepted and executed blocks. */
  lemma {:induction false} AncestryValid<S(!new)>(env: Env<S>, v: BaseView<S>, db: Db<S>, id: nat)
    requires StoreOk(env, db) && Follows(env, v) && AllVetted(env, v, db) && id in db.blocks && db.blocks[id].version > 0
    ensures Valid(Ancestry(env, v, db, db.blocks[id].bl))
    decreases db.blocks[id].bl.height
  {
    hide Snapshot, Linked, AcceptedAt, StoreOk, Follows;
    var bl := db.blocks[id].bl;
    var branch := Ancestry(env, v, db, bl);
    AncestrySnapshot(env, v, db, id);
    assert Vetted(env, v, db, bl);
    StoreLinked(env, db);
    ExecutedRooted(env, db, id);
    if bl.height > 0 {
      var below := Ancestry(env, v, db, db.blocks[bl.tips[0]].bl);
      AncestryValid(env, v, db, bl.tips[0]);
      forall m | 0 < m < |branch| ensures AcceptedAt(branch, m) {
        if m < |below| { AcceptedPrefix(below, branch, m); }
      }
    }
  }

  lemma {:induction false} VettedGrows<S>(env: Env<S>, v: BaseView<S>, db: Db<S>, d: Db<S>, bl: Block)
    requires Grows(db, d) && Rooted(db, bl) && Vetted(env, v, db, bl)
    ensures Vetted(env, v, d, bl)
  {
    hide AcceptedAt, Grows, Rooted;
    AncestryGrows(env, v, db, d, bl);
  }

  /** One added block: executed blocks stay, and a new one has passed the checks. */
  lemma {:induction false} AddGrows<S>(env: Env<S>, db: Db<S>, bl: Block, verdict: bool)
    requires Running(env, db) && !OtherGenesis(env, db, bl, verdict)
    ensures var d := Add(env, db, bl, verdict).0;
      && Grows(db, d)
      && forall id :: id in d.blocks && d.blocks[id].version > 0 && !(id in db.blocks && db.blocks[id].version > 0) ==>
           d.blocks[id].bl == bl && bl.height > 0 && Check(env, db, bl, verdict) == Added && Rooted(db, bl)
  {
    hide Check, Execute, Linked, Inv, OtherGenesis, Accepted;
    InvStore(env, db);
    StoreLinked(env, db);
    if Check(env, db, bl, verdict) == Added {
      var d1 := StoreBlock(env, db, bl, 0);
      if env.hash(bl) in db.blocks && db.blocks[env.hash(bl)].version > 0 { ExecuteAgain(env, db, bl, verdict); }
      if Execute(env, d1, bl).Some? {
        var s := Execute(env, d1, bl).value;
        CheckAnyVerdict(env, db, bl, verdict);
        CommittedLinked(env, db, bl, s);
        AcceptedStore(env, d1, bl, s);
        if bl.height > 0 { ExecuteMeans(env, db, bl, verdict); } else { GenesisExecuted(env, db, bl, verdict); }
      }
    }
  }

  lemma {:induction false} InvStore<S>(env: Env<S>, db: Db<S>)
    requires Inv(env, db)
    ensures StoreOk(env, db)
    ensures forall bl: Block :: env.hash(bl) in db.blocks ==> db.blocks[env.hash(bl)].bl == bl
  {
    hide Executed, InReach, OneGenesis, TipsOk, RecordsOk, Count;
    forall bl: Block | env.hash(bl) in db.blocks ensures db.blocks[env.hash(bl)].bl == bl {
      assert env.hash(db.blocks[env.hash(bl)].bl) == env.hash(bl);
    }
  }

  lemma AcceptedStore<S>(env: Env<S>, db: Db<S>, bl: Block, s: S)
    requires Linked(Committed(env, db, bl, s)) && (bl.height > 0 ==> HasParent(Committed(env, db, bl, s), bl))
    ensures Accepted(env, db, bl, s).blocks == db.blocks[env.hash(bl) := Stored(bl, |db.snaps| + 1)]
  {
    hide Fix, NewTips, Linked, HasParent;
  }

  lemma {:induction false} GenesisExecuted<S>(env: Env<S>, db: Db<S>, bl: Block, verdict: bool)
    requires Running(env, db) && bl.height == 0 && Check(env, db, bl, verdict) == Added
    requires Execute(env, StoreBlock(env, db, bl, 0), bl).Some?
    ensures OtherGenesis(env, db, bl, verdict)
  {
    hide Check, Execute, Inv, OtherGenesis, Accepted;
    SecondGenesisAccepted(env, db, bl, verdict);
  }

  lemma {:induction false} StepVetted<S>(env: Env<S>, v: BaseView<S>, db: Db<S>, op: Op)
    requires Running(env, db) && Allowed(env, db, op) && Checked(env, v, db, op) && AllVetted(env, v, db)
    ensures AllVetted(env, v, Step(env, db, op))
  {
    hide Vetted, Add, Rewind, Linked, Check, OtherGenesis;
    var d := Step(env, db, op);
    StoreLinked(env, db);
    match op
    case AddBlock(bl, verdict) =>
      AddGrows(env, db, bl, verdict);
      forall id | id in d.blocks && d.blocks[id].version > 0 ensures Vetted(env, v, d, d.blocks[id].bl) {
        if id in db.blocks && db.blocks[id].version > 0 { ExecutedRooted(env, db, id); }
        VettedGrows(env, v, db, d, d.blocks[id].bl);
      }
    case RewindBy(count, prunedTill) =>
      assert d.blocks == db.blocks by { RewindStore(db, count, prunedTill); }
      forall id | id in d.blocks && d.blocks[id].version > 0 ensures Vetted(env, v, d, d.blocks[id].bl) {
        ExecutedRooted(env, db, id);
        VettedGrows(env, v, db, d, d.blocks[id].bl);
      }
  }

  lemma RewindStore<S>(db: Db<S>, count: nat, prunedTill: int)
    requires Count(db.topo) > 0
    ensures Rewind(db, count, prunedTill).0.blocks == db.blocks
  {
  }

  lemma {:induction false} RunVetted<S>(env: Env<S>, v: BaseView<S>, db: Db<S>, ops: seq<Op>)
    requires Running(env, db) && AllAllowed(env, db, ops) && AllChecked(env, v, db, ops) && AllVetted(env, v, db)
    ensures AllVetted(env, v, Run(env, db, ops))
    decreases |ops|
  {
    hide Running, Step, AllVetted, Checked, Allowed;
    if ops != [] {
      StepKeeps(env, db, ops[0]);
      StepVetted(env, v, db, ops[0]);
      RunVetted(env, v, Step(env, db, ops[0]), ops[1..]);
    }
  }

  lemma {:induction false} StartVetted<S>(env: Env<S>, v: BaseView<S>, g: Block)
    requires env.Valid() && g.height == 0 && g.tips == [] && env.exec(env.genesis, g).Some?
    requires forall i :: 0 <= i < |v.txs(g)| ==> v.txs(g)[i].Register?
    ensures AllVetted(env, v, Started(env, g))
  {
    GenesisStarts(env, g);
  }

  // ---------- the recorded chain ----------

  /** The recorded blocks, lowest first. */
  ghost function Recorded<S>(env: Env<S>, v: BaseView<S>, db: Db<S>): seq<Blk>
    requires Inv(env, db)
  {
    seq(Count(db.topo), i requires 0 <= i < Count(db.topo) =>
      assert RecordOk(db, db.topo, i);
      BlkOf(env, v, db.blocks[db.topo[i].blid].bl))
  }

  lemma {:induction false} AncestryRecorded<S>(env: Env<S>, v: BaseView<S>, db: Db<S>, i: nat)
    requires Inv(env, db) && i < Count(db.topo)
    ensures RecordOk(db, db.topo, i) && Ancestry(env, v, db, db.blocks[db.topo[i].blid].bl) == Recorded(env, v, db)[..i + 1]
    decreases i
  {
    hide StoreOk, InReach, OneGenesis, TipsOk, Count;
    assert RecordOk(db, db.topo, i);
    if i > 0 {
      AncestryRecorded(env, v, db, i - 1);
      assert RecordOk(db, db.topo, i - 1);
      assert HasParent(db, db.blocks[db.topo[i].blid].bl);
    }
  }

  lemma RecordedLength<S>(env: Env<S>, v: BaseView<S>, db: Db<S>)
    requires Inv(env, db)
    ensures |Recorded(env, v, db)| == Count(db.topo)
  {
  }

  /** After every run the recorded chain is a branch of accepted and executed blocks, and the nonces in the
      state recorded at each height are those of the branch. */
  lemma {:induction false} RecordedValid<S(!new)>(env: Env<S>, v: BaseView<S>, g: Block, ops: seq<Op>)
    requires env.Valid() && g.height == 0 && g.tips == [] && env.exec(env.genesis, g).Some?
    requires Follows(env, v) && forall i :: 0 <= i < |v.txs(g)| ==> v.txs(g)[i].Register?
    requires AllAllowed(env, Started(env, g), ops) && AllChecked(env, v, Started(env, g), ops)
    ensures var d := Run(env, Started(env, g), ops);
      && Valid(Recorded(env, v, d))
      && forall i :: 0 <= i < Count(d.topo) ==>
           && 1 <= d.topo[i].version <= |d.snaps|
           && Snapshot(Recorded(env, v, d), i + 1) == Some(v.nonces(d.snaps[d.topo[i].version - 1]))
  {
    hide Run, Started, Valid, Snapshot, AllVetted, Follows;
    StartVetted(env, v, g);
    RunVetted(env, v, Started(env, g), ops);
    ChainValid(env, v, Run(env, Started(env, g), ops));
  }

  lemma {:induction false} ChainValid<S(!new)>(env: Env<S>, v: BaseView<S>, d: Db<S>)
    requires Running(env, d) && Follows(env, v) && AllVetted(env, v, d)
    ensures Valid(Recorded(env, v, d))
    ensures forall i :: 0 <= i < Count(d.topo) ==>
      && 1 <= d.topo[i].version <= |d.snaps|
      && Snapshot(Recorded(env, v, d), i + 1) == Some(v.nonces(d.snaps[d.topo[i].version - 1]))
  {
    hide Valid, Snapshot, AllVetted, Follows, Executed, InReach, OneGenesis, TipsOk, Count, Ancestry, Recorded;
    RecordedLength(env, v, d);
    var top := Count(d.topo) - 1;
    AncestryRecorded(env, v, d, top);
    AncestryValid(env, v, d, d.topo[top].blid);
    assert Recorded(env, v, d)[..top + 1] == Recorded(env, v, d);
    forall i | 0 <= i < Count(d.topo)
      ensures 1 <= d.topo[i].version <= |d.snaps| && Snapshot(Recorded(env, v, d), i + 1) == Some(v.nonces(d.snaps[d.topo[i].version - 1]))
    {
      AncestryRecorded(env, v, d, i);
      AncestrySnapshot(env, v, d, d.topo[i].blid);
      SnapshotPrefix(Recorded(env, v, d)[..i + 1], Recorded(env, v, d), i + 1);
    }
  }

  /** Over every run, no transfer stands twice on the recorded chain, unless a possible sender of it was
      registered again in between. */
  lemma {:induction false} RecordedOnce<S(!new)>(env: Env<S>, v: BaseView<S>, g: Block, ops: seq<Op>, h: nat, j: nat, m: nat, i: nat, key: nat)
    requires env.Valid() && g.height == 0 && g.tips == [] && env.exec(env.genesis, g).Some?
    requires Follows(env, v) && forall i :: 0 <= i < |v.txs(g)| ==> v.txs(g)[i].Register?
    requires AllAllowed(env, Started(env, g), ops) && AllChecked(env, v, Started(env, g), ops)
    requires var chain := Recorded(env, v, Run(env, Started(env, g), ops));
      && h <= m < |chain| && j < |chain[h].txs| && i < |chain[m].txs|
      && chain[h].txs[j] == chain[m].txs[i] && TxSends(chain[h].txs[j], key) && NotRegistered(Events(chain, h, m), key)
    ensures h == m && j == i
  {
    hide Valid, Follows, Run, Started, Recorded, AllChecked, TxSends, NotRegistered;
    RecordedValid(env, v, g, ops);
    ExecutedOnce(Recorded(env, v, Run(env, Started(env, g), ops)), h, j, m, i, key);
  }
}
