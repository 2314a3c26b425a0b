/** The canonical chain as a state machine over values. */
module ChainState {
  // Its parts are the block store, the topological record file, the set of tips, and the committed
  // state snapshots.

  datatype Option<+T> = None | Some(value: T)

  const UINT64 := 0x1_0000_0000_0000_0000

  /** A block: its height, the ids of its parents, and everything else it carries. */
  datatype Block = Block(height: nat, tips: seq<nat>, body: nat)

  /** A stored block with the version of the snapshot it committed; version 0 means not executed. */
  datatype Stored = Stored(bl: Block, version: nat)

  datatype Rec = Rec(blid: nat, version: nat, height: nat)

  const CLEAN := Rec(0, 0, 0)

  const STABLE_LIMIT := 8

  /** Block ids, execution of a block on a snapshot (None if execution panics), and the empty state. */
  datatype Env<!S> = Env(hash: Block -> nat, exec: (S, Block) -> Option<S>, genesis: S) {
    /** Ids do not collide and are never the zero hash. */
    ghost predicate Valid() {
      && (forall b: Block :: hash(b) != 0)
      && (forall a: Block, b: Block :: hash(a) == hash(b) ==> a == b)
    }
  }

  /** `snaps[v-1]` is the snapshot of version v; snapshots never change once committed. */
  datatype Db<S> = Db(blocks: map<nat, Stored>, topo: seq<Rec>, tips: set<nat>, snaps: seq<S>)

  predicate IsClean(r: Rec) {
    r.version == 0 && r.blid == 0
  }

  /** Number of records up to the last one that is not clean. */
  function Count(topo: seq<Rec>): (c: nat)
    ensures c <= |topo|
    ensures c > 0 ==> !IsClean(topo[c - 1])
    ensures forall i :: c <= i < |topo| ==> IsClean(topo[i])
  {
    if topo == [] then 0
    else if IsClean(topo[|topo| - 1]) then Count(topo[..|topo| - 1])
    else |topo|
  }

  lemma {:induction false} CountIs(topo: seq<Rec>, c: int)
    requires 0 <= c <= |topo|
    requires c > 0 ==> !IsClean(topo[c - 1])
    requires forall i :: c <= i < |topo| ==> IsClean(topo[i])
    ensures Count(topo) == c
  {
  }

  /** Height of a stored block, -1 if it is not stored. */
  function HeightOf(blocks: map<nat, Stored>, id: nat): int {
    if id in blocks then blocks[id].bl.height else -1
  }

  function GetHeight<S>(db: Db<S>): int {
    var c := Count(db.topo);
    if c == 0 then 0 else HeightOf(db.blocks, db.topo[c - 1].blid)
  }

  /** The block is the one recorded at its height. */
  predicate InTopo<S>(db: Db<S>, id: nat) {
    var h := HeightOf(db.blocks, id);
    0 <= h < Count(db.topo) && db.topo[h].blid == id
  }

  /** WriteAt: a write past the end of the file fills the gap with clean records. */
  function Write(topo: seq<Rec>, i: nat, r: Rec): (t: seq<Rec>)
    ensures |t| == if i < |topo| then |topo| else i + 1
    ensures t[i] == r
    ensures forall k :: 0 <= k < |t| && k != i ==> t[k] == if k < |topo| then topo[k] else CLEAN
    decreases i + 1 - |topo|
  {
    if i < |topo| then topo[i := r] else if i == |topo| then topo + [r] else Write(topo + [CLEAN], i, r)
  }

  // ---------- what every run keeps ----------

  /** An executed block: its parent is executed one height below, and its snapshot is the result of
      executing it on the parent's snapshot. */
  ghost predicate Executed<S>(env: Env<S>, db: Db<S>, id: nat)
    requires id in db.blocks
  {
    var b := db.blocks[id];
    && 1 <= b.version <= |db.snaps|
    && (if b.bl.height == 0 then
          b.bl.tips == [] && env.exec(env.genesis, b.bl) == Some(db.snaps[b.version - 1])
        else
          && |b.bl.tips| == 1 && b.bl.tips[0] in db.blocks
          && var p := db.blocks[b.bl.tips[0]];
          && 1 <= p.version <= |db.snaps| && p.bl.height + 1 == b.bl.height
          && env.exec(db.snaps[p.version - 1], b.bl) == Some(db.snaps[b.version - 1]))
  }

  /** Every stored block is filed under its id, and is executed unless its version is 0. */
  ghost predicate StoreOk<S>(env: Env<S>, db: Db<S>) {
    && (forall id :: id in db.blocks ==> env.hash(db.blocks[id].bl) == id)
    && (forall id {:trigger Executed(env, db, id)} :: id in db.blocks && db.blocks[id].version > 0 ==> Executed(env, db, id))
  }

  /** The record file has once been as long as any executed block is high. */
  ghost predicate InReach<S>(db: Db<S>) {
    forall id :: id in db.blocks && db.blocks[id].version > 0 ==> db.blocks[id].bl.height < |db.topo|
  }

  /** Record i is an executed block of height i with its snapshot version, and its parent is record i-1. */
  ghost predicate RecordOk<S>(db: Db<S>, topo: seq<Rec>, i: int)
    requires 0 <= i < |topo|
  {
    && topo[i].blid in db.blocks
    && var b := db.blocks[topo[i].blid];
    && b.bl.height == i == topo[i].height && topo[i].version == b.version >= 1
    && (i > 0 ==> b.bl.tips == [topo[i - 1].blid])
  }

  ghost predicate RecordsOk<S>(db: Db<S>, topo: seq<Rec>, n: int) {
    n <= |topo| && forall i :: 0 <= i < n ==> RecordOk(db, topo, i)
  }

  /** There is one executed genesis block, and it is record 0. */
  ghost predicate OneGenesis<S>(db: Db<S>) {
    forall id :: id in db.blocks && db.blocks[id].version > 0 && db.blocks[id].bl.height == 0 ==>
      Count(db.topo) > 0 && db.topo[0].blid == id
  }

  /** The top block is a tip, and tips are executed blocks of top height. */
  ghost predicate TipsOk<S>(db: Db<S>) {
    && (Count(db.topo) == 0 ==> db.tips == {} && db.snaps == [])
    && (Count(db.topo) > 0 ==> db.topo[Count(db.topo) - 1].blid in db.tips)
    && (forall id :: id in db.tips ==> id in db.blocks && db.blocks[id].version > 0 && db.blocks[id].bl.height == Count(db.topo) - 1)
  }

  ghost predicate Inv<S>(env: Env<S>, db: Db<S>) {
    && env.Valid() && StoreOk(env, db) && InReach(db) && RecordsOk(db, db.topo, Count(db.topo)) && OneGenesis(db) && TipsOk(db)
    && (forall i :: Count(db.topo) <= i < |db.topo| ==> db.topo[i] == CLEAN)
  }

  lemma {:induction false} HeightIsCount<S>(env: Env<S>, db: Db<S>)
    requires Inv(env, db)
    ensures GetHeight(db) == if Count(db.topo) == 0 then 0 else Count(db.topo) - 1
  {
    var c := Count(db.topo);
    if c > 0 { assert RecordOk(db, db.topo, c - 1); }
  }

  // ---------- the canonical state ----------

  /** Replaying the recorded blocks 0..i in order from the empty state. */
  ghost function Replay<S>(env: Env<S>, db: Db<S>, i: nat): Option<S>
    requires RecordsOk(db, db.topo, i + 1)
  {
    assert RecordOk(db, db.topo, i);
    var bl := db.blocks[db.topo[i].blid].bl;
    if i == 0 then env.exec(env.genesis, bl)
    else
      assert RecordsOk(db, db.topo, i);
      match Replay(env, db, i - 1)
      case None => None
      case Some(s) => env.exec(s, bl)
  }

  /** The snapshot recorded at any height is the replay of the recorded blocks up to it, whatever
      other blocks were executed in between. */
  lemma {:induction false} SnapshotIsReplay<S>(env: Env<S>, db: Db<S>, i: nat)
    requires Inv(env, db) && i < Count(db.topo)
    ensures RecordsOk(db, db.topo, i + 1) && 1 <= db.topo[i].version <= |db.snaps|
    ensures Replay(env, db, i) == Some(db.snaps[db.topo[i].version - 1])
    decreases i
  {
    assert RecordOk(db, db.topo, i);
    assert Executed(env, db, db.topo[i].blid);
    if i > 0 {
      SnapshotIsReplay(env, db, i - 1);
      assert RecordOk(db, db.topo, i - 1);
    }
  }
}
