/** Adding a block and rewinding. */
module ChainSteps {
  // Both are functions on chain states, with what they keep.

  import opened ChainState

  /** The block has one parent, stored and executed, one height below. */
  predicate HasParent<S>(db: Db<S>, bl: Block) {
    && |bl.tips| == 1 && bl.tips[0] in db.blocks
    && db.blocks[bl.tips[0]].version > 0 && db.blocks[bl.tips[0]].bl.height + 1 == bl.height
  }

  /** Executed blocks above the genesis have a parent. */
  ghost predicate Linked<S>(db: Db<S>) {
    forall id {:trigger HasParent(db, db.blocks[id].bl)} ::
      id in db.blocks && db.blocks[id].version > 0 && db.blocks[id].bl.height > 0 ==> HasParent(db, db.blocks[id].bl)
  }

  /** Rewrites records downwards from `bl` along its parents until the recorded chain is met. */
  function Fix<S>(hash: Block -> nat, db: Db<S>, topo: seq<Rec>, bl: Block, version: nat): (t: seq<Rec>)
    requires Linked(db) && (bl.height > 0 ==> HasParent(db, bl))
    ensures |t| >= |topo| && bl.height < |t|
    decreases bl.height
  {
    var t := Write(topo, bl.height, Rec(hash(bl), version, bl.height));
    if bl.height == 0 || t[bl.height - 1].blid == bl.tips[0] then t
    else
      var p := db.blocks[bl.tips[0]];
      assert p.bl.height > 0 ==> HasParent(db, db.blocks[bl.tips[0]].bl);
      Fix(hash, db, t, p.bl, p.version)
  }

  datatype AddResult = Added | AlreadyExists | AdvanceBlock | PreviousBlock | PastMissing | InvalidBlock | CheckFailed | Panicked

  /** The height and parent checks; `verdict` stands for the checks that are not modelled (time,
      version, proof of work, transactions), which do not change the state. */
  function Check<S>(env: Env<S>, db: Db<S>, bl: Block, verdict: bool): AddResult {
    var h := GetHeight(db);
    var id := env.hash(bl);
    if id in db.tips || InTopo(db, id) then AlreadyExists
    else if bl.height > h + 2 then AdvanceBlock
    else if bl.height > STABLE_LIMIT && (h < STABLE_LIMIT || bl.height < h - STABLE_LIMIT) then PreviousBlock
    else if |bl.tips| > 1 || (|bl.tips| == 1 && bl.tips[0] !in db.blocks) then PastMissing
    else if |bl.tips| == 1 && bl.height == 0 then InvalidBlock
    else if |bl.tips| == 0 && bl.height >= 2 then Panicked
    else if |bl.tips| == 1 && bl.height - 1 != HeightOf(db.blocks, bl.tips[0]) then InvalidBlock
    else if !verdict then CheckFailed
    else Added
  }

  function StoreBlock<S>(env: Env<S>, db: Db<S>, bl: Block, version: nat): Db<S> {
    db.(blocks := db.blocks[env.hash(bl) := Stored(bl, version)])
  }

  /** The snapshot that the block is executed on; None if loading it panics. A block of height 0 loads
      the most recent snapshot. */
  function BaseSnapshot<S>(env: Env<S>, db: Db<S>, bl: Block): Option<S> {
    if bl.height == 0 then
      Some(if db.snaps == [] then env.genesis else db.snaps[|db.snaps| - 1])
    else if |bl.tips| == 0 || bl.tips[0] !in db.blocks then None
    else
      var v := db.blocks[bl.tips[0]].version;
      if 1 <= v <= |db.snaps| then Some(db.snaps[v - 1]) else None
  }

  function Execute<S>(env: Env<S>, db: Db<S>, bl: Block): Option<S> {
    match BaseSnapshot(env, db, bl)
    case None => None
    case Some(base) => env.exec(base, bl)
  }

  /** Tips that remain: the block and the other tips, as far as they are of top height. */
  function NewTips<S>(env: Env<S>, db: Db<S>, bl: Block): set<nat> {
    var h := GetHeight(db);
    set id | id in db.tips + {env.hash(bl)} && (id == env.hash(bl) || id !in bl.tips) && HeightOf(db.blocks, id) == h
  }

  /** The block raises the chain, or is a genesis block, which is let through at any time. */
  predicate Raises<S>(db: Db<S>, bl: Block) {
    bl.height > GetHeight(db) || bl.height == 0
  }

  function Committed<S>(env: Env<S>, db: Db<S>, bl: Block, s: S): Db<S> {
    StoreBlock(env, db.(snaps := db.snaps + [s]), bl, |db.snaps| + 1)
  }

  /** The state after an executed block is committed: it is stored with its snapshot, the records are
      rewritten if it raises the chain, and the tips are recomputed. */
  function Accepted<S>(env: Env<S>, db: Db<S>, bl: Block, s: S): Db<S>
    requires Linked(Committed(env, db, bl, s)) && (bl.height > 0 ==> HasParent(Committed(env, db, bl, s), bl))
  {
    var d2 := Committed(env, db, bl, s);
    var d3 := if Raises(db, bl) then d2.(topo := Fix(env.hash, d2, d2.topo, bl, |d2.snaps|)) else d2;
    d3.(tips := NewTips(env, d3, bl))
  }

  /** Adds a block: the new state, and how the call ended. */
  function Add<S>(env: Env<S>, db: Db<S>, bl: Block, verdict: bool): (r: (Db<S>, AddResult))
    requires Inv(env, db)
  {
    var c := Check(env, db, bl, verdict);
    if c != Added then (db, c)
    else
      var d1 := StoreBlock(env, db, bl, 0);
      match Execute(env, d1, bl)
      case None => (d1, Panicked)
      case Some(s) =>
        CommittedLinked(env, db, bl, s);
        (Accepted(env, d1, bl, s), Added)
  }

  // ---------- storing and executing ----------

  /** An accepted block of positive height has a stored parent; nothing recorded or a tip is overwritten. */
  lemma {:induction false} CheckMeans<S>(env: Env<S>, db: Db<S>, bl: Block, verdict: bool)
    requires Inv(env, db) && Check(env, db, bl, verdict) == Added
    ensures env.hash(bl) !in db.tips
    ensures forall i :: 0 <= i < Count(db.topo) ==> db.topo[i].blid != env.hash(bl)
    ensures bl.height == 0 ==> bl.tips == []
    ensures bl.tips != [] ==> |bl.tips| == 1 && bl.tips[0] in db.blocks && bl.tips[0] != env.hash(bl)
    ensures bl.tips != [] ==> db.blocks[bl.tips[0]].bl.height + 1 == bl.height
    ensures bl.height <= GetHeight(db) + 2
  {
    forall i | 0 <= i < Count(db.topo) ensures db.topo[i].blid != env.hash(bl) {
      assert RecordOk(db, db.topo, i);
      assert env.hash(db.blocks[db.topo[i].blid].bl) == db.topo[i].blid;
    }
    assert |bl.tips| == 1 ==> env.hash(db.blocks[bl.tips[0]].bl) == bl.tips[0];
  }

  /** Executing a block again gives the snapshot it gave before. */
  lemma {:induction false} ExecuteAgain<S>(env: Env<S>, db: Db<S>, bl: Block, verdict: bool)
    requires Inv(env, db) && Check(env, db, bl, verdict) == Added
    requires env.hash(bl) in db.blocks && db.blocks[env.hash(bl)].version > 0
    ensures bl.height > 0 && 1 <= db.blocks[env.hash(bl)].version <= |db.snaps|
    ensures Execute(env, StoreBlock(env, db, bl, 0), bl) == Some(db.snaps[db.blocks[env.hash(bl)].version - 1])
  {
    CheckMeans(env, db, bl, verdict);
    var id := env.hash(bl);
    assert env.hash(db.blocks[id].bl) == id;
    assert Executed(env, db, id);
  }

  /** What executing an accepted block relies on. */
  lemma {:induction false} ExecuteMeans<S>(env: Env<S>, db: Db<S>, bl: Block, verdict: bool)
    requires Inv(env, db) && Check(env, db, bl, verdict) == Added && bl.height > 0
    requires Execute(env, StoreBlock(env, db, bl, 0), bl).Some?
    ensures HasParent(db, bl) && bl.tips[0] != env.hash(bl) && 1 <= db.blocks[bl.tips[0]].version <= |db.snaps|
    ensures Execute(env, StoreBlock(env, db, bl, 0), bl) == env.exec(db.snaps[db.blocks[bl.tips[0]].version - 1], bl)
  {
    CheckMeans(env, db, bl, verdict);
  }

  lemma {:induction false} CommittedLinked<S>(env: Env<S>, db: Db<S>, bl: Block, s: S)
    requires Inv(env, db) && Check(env, db, bl, true) == Added
    requires Execute(env, StoreBlock(env, db, bl, 0), bl) == Some(s)
    ensures var d2 := Committed(env, StoreBlock(env, db, bl, 0), bl, s);
      Linked(d2) && (bl.height > 0 ==> HasParent(d2, bl))
  {
    var d2 := Committed(env, StoreBlock(env, db, bl, 0), bl, s);
    var id := env.hash(bl);
    CheckMeans(env, db, bl, true);
    if bl.height > 0 { ExecuteMeans(env, db, bl, true); }
    forall k | k in d2.blocks && d2.blocks[k].version > 0 && d2.blocks[k].bl.height > 0
      ensures HasParent(d2, d2.blocks[k].bl)
    {
      if k != id {
        assert Executed(env, db, k);
        var p := d2.blocks[k].bl.tips[0];
        if p == id { assert env.hash(db.blocks[id].bl) == id; }
      }
    }
  }

  // ---------- the record file ----------

  /** Below `h`, the records that were recorded are in order and the others are clean. */
  ghost predicate OrderlyBelow<S>(db: Db<S>, topo: seq<Rec>, n: int, h: int) {
    && 0 <= n <= |topo| && 0 <= h <= |topo|
    && (forall i :: 0 <= i < h && i < n ==> RecordOk(db, topo, i))
    && (forall i :: n <= i < h ==> IsClean(topo[i]))
  }

  /** The records up to height `h` are in order, end with `r`, and nothing above has changed. */
  ghost predicate FixedTo<S>(db: Db<S>, topo: seq<Rec>, t: seq<Rec>, h: int, r: Rec) {
    && 0 <= h < |t| && |t| == (if h < |topo| then |topo| else h + 1)
    && RecordsOk(db, t, h + 1) && t[h] == r
    && forall i :: h < i < |t| ==> t[i] == topo[i]
  }

  lemma {:induction false} WriteOrderly<S>(db: Db<S>, topo: seq<Rec>, n: int, h: int, r: Rec)
    requires OrderlyBelow(db, topo, n, h)
    ensures forall i :: 0 <= i < h && i < n ==> RecordOk(db, Write(topo, h, r), i)
    ensures forall i :: n <= i < h ==> IsClean(Write(topo, h, r)[i])
  {
    var t := Write(topo, h, r);
    forall i | 0 <= i < h && i < n ensures RecordOk(db, t, i) { assert RecordOk(db, topo, i); }
  }

  lemma {:induction false} FixStops<S>(env: Env<S>, db: Db<S>, topo: seq<Rec>, n: int, bl: Block, version: nat)
    requires env.Valid() && OrderlyBelow(db, topo, n, bl.height) && (bl.height > 0 ==> HasParent(db, bl))
    requires forall id :: id in db.blocks ==> env.hash(db.blocks[id].bl) == id
    requires env.hash(bl) in db.blocks && db.blocks[env.hash(bl)] == Stored(bl, version) && version > 0
    requires bl.height == 0 || Write(topo, bl.height, Rec(env.hash(bl), version, bl.height))[bl.height - 1].blid == bl.tips[0]
    ensures FixedTo(db, topo, Write(topo, bl.height, Rec(env.hash(bl), version, bl.height)), bl.height, Rec(env.hash(bl), version, bl.height))
  {
    var r := Rec(env.hash(bl), version, bl.height);
    WriteOrderly(db, topo, n, bl.height, r);
    assert bl.height > 0 ==> env.hash(db.blocks[bl.tips[0]].bl) == bl.tips[0];
    assert RecordOk(db, Write(topo, bl.height, r), bl.height);
  }

  /** After the rewriting, the records up to the new block are its ancestors; above it nothing changed. */
  lemma {:induction false} FixOk<S>(env: Env<S>, db: Db<S>, topo: seq<Rec>, n: int, bl: Block, version: nat)
    requires env.Valid() && Linked(db) && OrderlyBelow(db, topo, n, bl.height) && (bl.height > 0 ==> HasParent(db, bl))
    requires forall id :: id in db.blocks ==> env.hash(db.blocks[id].bl) == id
    requires env.hash(bl) in db.blocks && db.blocks[env.hash(bl)] == Stored(bl, version) && version > 0
    ensures FixedTo(db, topo, Fix(env.hash, db, topo, bl, version), bl.height, Rec(env.hash(bl), version, bl.height))
    decreases bl.height
  {
    var r := Rec(env.hash(bl), version, bl.height);
    var t := Write(topo, bl.height, r);
    if bl.height == 0 || t[bl.height - 1].blid == bl.tips[0] {
      FixStops(env, db, topo, n, bl, version);
    } else {
      hide RecordsOk, RecordOk, IsClean;
      var q := db.blocks[bl.tips[0]];
      assert q.bl.height > 0 ==> HasParent(db, db.blocks[bl.tips[0]].bl);
      assert env.hash(q.bl) == bl.tips[0];
      WriteOrderly(db, topo, n, bl.height, r);
      FixOk(env, db, t, if n < bl.height then n else q.bl.height, q.bl, q.version);
      FixStep(db, topo, t, Fix(env.hash, db, t, q.bl, q.version), bl, r);
    }
  }

  lemma {:induction false} FixStep<S>(db: Db<S>, topo: seq<Rec>, t: seq<Rec>, t': seq<Rec>, bl: Block, r: Rec)
    requires bl.height > 0 && HasParent(db, bl) && bl.height <= |topo| && t == Write(topo, bl.height, r)
    requires r.blid in db.blocks && db.blocks[r.blid] == Stored(bl, r.version) && r.version > 0 && r.height == bl.height
    requires FixedTo(db, t, t', bl.height - 1, Rec(bl.tips[0], db.blocks[bl.tips[0]].version, bl.height - 1))
    ensures FixedTo(db, topo, t', bl.height, r)
  {
    assert RecordOk(db, t', bl.height);
  }

  // ---------- what adding a block keeps ----------

  /** Storing `st` under `id0` leaves block `k` executed, provided a replaced parent keeps its snapshot. */
  lemma {:induction false} ExecutedCarriesOver<S>(env: Env<S>, db: Db<S>, d: Db<S>, id0: nat, st: Stored, k: nat)
    requires k in db.blocks && k != id0 && Executed(env, db, k)
    requires d.blocks == db.blocks[id0 := st] && |db.snaps| <= |d.snaps| && d.snaps[..|db.snaps|] == db.snaps
    requires id0 in db.blocks && db.blocks[id0].version > 0 ==>
      (st.bl == db.blocks[id0].bl && 1 <= st.version <= |d.snaps| && 1 <= db.blocks[id0].version <= |db.snaps|
       && d.snaps[st.version - 1] == db.snaps[db.blocks[id0].version - 1])
    ensures Executed(env, d, k)
  {
    forall v | 0 <= v < |db.snaps| ensures d.snaps[v] == db.snaps[v] {
      assert d.snaps[..|db.snaps|][v] == db.snaps[v];
    }
  }

  /** The block just committed is executed. */
  lemma {:induction false} CommittedSelf<S>(env: Env<S>, db: Db<S>, bl: Block, verdict: bool, s: S)
    requires Inv(env, db) && Check(env, db, bl, verdict) == Added && (bl.height > 0 || Count(db.topo) == 0)
    requires Execute(env, StoreBlock(env, db, bl, 0), bl) == Some(s)
    ensures Executed(env, Committed(env, StoreBlock(env, db, bl, 0), bl, s), env.hash(bl))
  {
    hide StoreOk, RecordsOk, OneGenesis, InReach;
    CheckMeans(env, db, bl, verdict);
    if bl.height > 0 { ExecuteMeans(env, db, bl, verdict); }
  }

  lemma {:induction false} CommittedStore<S>(env: Env<S>, db: Db<S>, bl: Block, verdict: bool, s: S)
    requires Inv(env, db) && Check(env, db, bl, verdict) == Added && (bl.height > 0 || Count(db.topo) == 0)
    requires Execute(env, StoreBlock(env, db, bl, 0), bl) == Some(s)
    ensures StoreOk(env, Committed(env, StoreBlock(env, db, bl, 0), bl, s))
  {
    hide Executed, Check, Execute, RecordsOk, OneGenesis, InReach, TipsOk;
    var d2 := Committed(env, StoreBlock(env, db, bl, 0), bl, s);
    var id := env.hash(bl);
    CommittedSelf(env, db, bl, verdict, s);
    if id in db.blocks && db.blocks[id].version > 0 { ExecuteAgain(env, db, bl, verdict); }
    forall k | k in d2.blocks && d2.blocks[k].version > 0 ensures Executed(env, d2, k) {
      if k != id {
        assert Executed(env, db, k);
        assert id in db.blocks ==> env.hash(db.blocks[id].bl) == id;
        ExecutedCarriesOver(env, db, d2, id, Stored(bl, |db.snaps| + 1), k);
      }
    }
  }

  /** Storing the block as not executed leaves a well-formed chain if it had not been executed before. */
  lemma {:induction false} PanicKeepsInv<S>(env: Env<S>, db: Db<S>, bl: Block, verdict: bool)
    requires Inv(env, db) && Check(env, db, bl, verdict) == Added
    requires Execute(env, StoreBlock(env, db, bl, 0), bl) == None
    ensures Inv(env, StoreBlock(env, db, bl, 0))
  {
    hide Executed, Check, Execute, RecordsOk;
    var d1 := StoreBlock(env, db, bl, 0);
    var id := env.hash(bl);
    CheckMeans(env, db, bl, verdict);
    if id in db.blocks && db.blocks[id].version > 0 { ExecuteAgain(env, db, bl, verdict); }
    forall k | k in d1.blocks && d1.blocks[k].version > 0 ensures Executed(env, d1, k) {
      assert Executed(env, db, k);
      ExecutedCarriesOver(env, db, d1, id, Stored(bl, 0), k);
    }
    RecordsCarryOver(env, db, d1, bl, 0, Count(db.topo));
  }

  lemma {:induction false} RecordsCarryOver<S>(env: Env<S>, db: Db<S>, d: Db<S>, bl: Block, version: nat, n: int)
    requires RecordsOk(db, db.topo, n) && 0 <= n && d.blocks == db.blocks[env.hash(bl) := Stored(bl, version)]
    requires forall i :: 0 <= i < n ==> db.topo[i].blid != env.hash(bl)
    ensures RecordsOk(d, db.topo, n)
  {
    forall i | 0 <= i < n ensures RecordOk(d, db.topo, i) { assert RecordOk(db, db.topo, i); }
  }

  lemma {:induction false} TopRecord<S>(env: Env<S>, db: Db<S>)
    requires Inv(env, db) && Count(db.topo) > 0
    ensures RecordOk(db, db.topo, Count(db.topo) - 1)
  {
  }

  lemma {:induction false} SameStore<S>(env: Env<S>, db: Db<S>, d: Db<S>)
    requires StoreOk(env, db) && d.blocks == db.blocks && d.snaps == db.snaps
    ensures StoreOk(env, d)
  {
    forall k | k in d.blocks && d.blocks[k].version > 0 ensures Executed(env, d, k) { assert Executed(env, db, k); }
  }

  /** Old tips are executed blocks other than the new one. */
  lemma {:induction false} OldTips<S>(env: Env<S>, db: Db<S>, bl: Block, verdict: bool)
    requires Inv(env, db) && Check(env, db, bl, verdict) == Added
    ensures forall k :: k in db.tips ==> k != env.hash(bl) && k in db.blocks && db.blocks[k].version > 0
  {
    CheckMeans(env, db, bl, verdict);
  }

  lemma {:induction false} SideTips<S>(env: Env<S>, db: Db<S>, d: Db<S>, bl: Block, verdict: bool, st: Stored)
    requires Inv(env, db) && Check(env, db, bl, verdict) == Added && bl.height <= GetHeight(db) && Count(db.topo) > 0
    requires st.bl == bl && st.version > 0 && HasParent(db, bl)
    requires d.blocks == db.blocks[env.hash(bl) := st] && d.topo == db.topo && d.tips == NewTips(env, d.(tips := db.tips), bl)
    ensures TipsOk(d) && OneGenesis(d) && InReach(d) && GetHeight(d) == GetHeight(db)
  {
    hide RecordsOk, StoreOk, Check;
    CheckMeans(env, db, bl, verdict);
    HeightIsCount(env, db);
    OldTips(env, db, bl, verdict);
    TopRecord(env, db);
    var top := db.topo[Count(db.topo) - 1].blid;
    assert GetHeight(d.(tips := db.tips)) == GetHeight(db);
    assert top !in bl.tips;
  }

  /** A block that does not raise the chain: the records stay as they are. */
  lemma {:induction false} SideBlockKeepsInv<S>(env: Env<S>, db: Db<S>, bl: Block, verdict: bool, s: S)
    requires Inv(env, db) && Check(env, db, bl, verdict) == Added && (bl.height > 0 || Count(db.topo) == 0)
    requires Execute(env, StoreBlock(env, db, bl, 0), bl) == Some(s)
    requires !Raises(StoreBlock(env, db, bl, 0), bl)
    requires Linked(Committed(env, StoreBlock(env, db, bl, 0), bl, s))
    requires bl.height > 0 ==> HasParent(Committed(env, StoreBlock(env, db, bl, 0), bl, s), bl)
    ensures Inv(env, Accepted(env, StoreBlock(env, db, bl, 0), bl, s))
    ensures GetHeight(Accepted(env, StoreBlock(env, db, bl, 0), bl, s)) == GetHeight(db)
  {
    hide Executed, Check, Execute, RecordsOk, StoreOk, TipsOk, OneGenesis, InReach, NewTips, Linked;
    var d2 := Committed(env, StoreBlock(env, db, bl, 0), bl, s);
    var d3 := d2.(tips := NewTips(env, d2, bl));
    CheckMeans(env, db, bl, verdict);
    RaisesMeans(env, db, bl, verdict);
    ExecuteMeans(env, db, bl, verdict);
    CommittedStore(env, db, bl, verdict, s);
    SameStore(env, d2, d3);
    RecordsCarryOver(env, db, d3, bl, |db.snaps| + 1, Count(db.topo));
    HeightIsCount(env, db);
    SameTips(env, d2, db.tips, bl);
    SideTips(env, db, d3, bl, verdict, Stored(bl, |db.snaps| + 1));
  }

  lemma {:induction false} SameTips<S>(env: Env<S>, db: Db<S>, tips: set<nat>, bl: Block)
    requires db.tips == tips
    ensures db.(tips := NewTips(env, db, bl)).(tips := tips) == db
  {
  }

  lemma {:induction false} RaisingFix<S>(env: Env<S>, db: Db<S>, bl: Block, verdict: bool, s: S)
    requires Inv(env, db) && Check(env, db, bl, verdict) == Added && (bl.height > 0 || Count(db.topo) == 0)
    requires Execute(env, StoreBlock(env, db, bl, 0), bl) == Some(s)
    requires Raises(StoreBlock(env, db, bl, 0), bl)
    requires Linked(Committed(env, StoreBlock(env, db, bl, 0), bl, s))
    requires bl.height > 0 ==> HasParent(Committed(env, StoreBlock(env, db, bl, 0), bl, s), bl)
    ensures Count(db.topo) <= bl.height <= |db.topo|
    ensures var d2 := Committed(env, StoreBlock(env, db, bl, 0), bl, s);
      FixedTo(d2, db.topo, Fix(env.hash, d2, db.topo, bl, |d2.snaps|), bl.height, Rec(env.hash(bl), |d2.snaps|, bl.height))
  {
    hide Executed, Check, Execute, RecordsOk, StoreOk, RecordOk, Linked, FixedTo, Fix, TipsOk, OneGenesis, InReach;
    var d2 := Committed(env, StoreBlock(env, db, bl, 0), bl, s);
    var c := Count(db.topo);
    CheckMeans(env, db, bl, verdict);
    RaisesMeans(env, db, bl, verdict);
    CommittedStore(env, db, bl, verdict, s);
    StoreIds(env, d2);
    RecordsCarryOver(env, db, d2, bl, |db.snaps| + 1, c);
    RecordsEach(d2, db.topo, c);
    FixOk(env, d2, db.topo, c, bl, |d2.snaps|);
  }

  lemma {:induction false} CheckAnyVerdict<S>(env: Env<S>, db: Db<S>, bl: Block, verdict: bool)
    requires Check(env, db, bl, verdict) == Added
    ensures Check(env, db, bl, true) == Added
  {
  }

  lemma {:induction false} StoreIds<S>(env: Env<S>, db: Db<S>)
    requires StoreOk(env, db)
    ensures forall id :: id in db.blocks ==> env.hash(db.blocks[id].bl) == id
  {
  }

  lemma {:induction false} RecordsEach<S>(db: Db<S>, topo: seq<Rec>, n: int)
    requires RecordsOk(db, topo, n)
    ensures forall i :: 0 <= i < n ==> RecordOk(db, topo, i)
  {
  }

  /** Storing a block does not change the height of the chain; one that raises it starts above all records
      and its height is within the record file, or one past its end. */
  lemma {:induction false} RaisesMeans<S>(env: Env<S>, db: Db<S>, bl: Block, verdict: bool)
    requires Inv(env, db) && Check(env, db, bl, verdict) == Added && (bl.height > 0 || Count(db.topo) == 0)
    requires Execute(env, StoreBlock(env, db, bl, 0), bl).Some?
    ensures GetHeight(StoreBlock(env, db, bl, 0)) == GetHeight(db)
    ensures Raises(StoreBlock(env, db, bl, 0), bl) ==> bl.height >= Count(db.topo)
    ensures bl.height <= |db.topo|
  {
    hide Executed, StoreOk;
    CheckMeans(env, db, bl, verdict);
    HeightIsCount(env, db);
    if bl.height > 0 { ExecuteMeans(env, db, bl, verdict); }
    if Count(db.topo) > 0 { TopRecord(env, db); }
  }

  lemma {:induction false} FixedCount<S>(db: Db<S>, topo: seq<Rec>, t: seq<Rec>, h: int, r: Rec)
    requires FixedTo(db, topo, t, h, r) && r.version > 0 && forall i :: h < i < |topo| ==> topo[i] == CLEAN
    ensures Count(t) == h + 1 && RecordsOk(db, t, h + 1) && t[h] == r && |t| >= |topo|
    ensures forall i :: h < i < |t| ==> t[i] == CLEAN
  {
    CountIs(t, h + 1);
  }

  lemma {:induction false} RaisingTips<S>(env: Env<S>, db: Db<S>, d: Db<S>, bl: Block, verdict: bool, st: Stored)
    requires Inv(env, db) && Check(env, db, bl, verdict) == Added && bl.height >= Count(db.topo)
    requires st.bl == bl && st.version > 0 && d.blocks == db.blocks[env.hash(bl) := st] && d.snaps != []
    requires |db.topo| <= |d.topo| && bl.height < |d.topo|
    requires Count(d.topo) == bl.height + 1 && d.topo[bl.height].blid == env.hash(bl)
    requires d.tips == NewTips(env, d.(tips := db.tips), bl)
    ensures TipsOk(d) && InReach(d) && GetHeight(d) == bl.height
  {
    hide RecordsOk, StoreOk, Check, Executed, OneGenesis;
    OldTips(env, db, bl, verdict);
    assert GetHeight(d.(tips := db.tips)) == bl.height;
  }

  /** A block that raises the chain: the records become its ancestors and itself. */
  lemma {:induction false} RaisingBlockKeepsInv<S>(env: Env<S>, db: Db<S>, bl: Block, verdict: bool, s: S)
    requires Inv(env, db) && Check(env, db, bl, verdict) == Added && (bl.height > 0 || Count(db.topo) == 0)
    requires Execute(env, StoreBlock(env, db, bl, 0), bl) == Some(s)
    requires Raises(StoreBlock(env, db, bl, 0), bl)
    requires Linked(Committed(env, StoreBlock(env, db, bl, 0), bl, s))
    requires bl.height > 0 ==> HasParent(Committed(env, StoreBlock(env, db, bl, 0), bl, s), bl)
    ensures Inv(env, Accepted(env, StoreBlock(env, db, bl, 0), bl, s))
    ensures GetHeight(Accepted(env, StoreBlock(env, db, bl, 0), bl, s)) == bl.height >= GetHeight(db)
  {
    hide Executed, Check, Execute, StoreOk, Fix, Linked, RecordsOk, FixedTo, OneGenesis, TipsOk, InReach, NewTips, Raises, GetHeight, Count, RecordOk;
    RaisingFix(env, db, bl, verdict, s);
    var d2 := Committed(env, StoreBlock(env, db, bl, 0), bl, s);
    var t := Fix(env.hash, d2, d2.topo, bl, |d2.snaps|);
    FixedCount(d2, db.topo, t, bl.height, Rec(env.hash(bl), |d2.snaps|, bl.height));
    var d3 := d2.(topo := t);
    var d4 := d3.(tips := NewTips(env, d3, bl));
    assert d4 == Accepted(env, StoreBlock(env, db, bl, 0), bl, s);
    CommittedStore(env, db, bl, verdict, s);
    SameStore(env, d2, d4);
    SameRecords(d2, d4, t, bl.height + 1);
    SameTips(env, d3, db.tips, bl);
    RaisingTips(env, db, d4, bl, verdict, Stored(bl, |d2.snaps|));
    HeightIsCount(env, db);
    RaisingGenesis(env, db, d4, bl, d2.snaps);
  }

  lemma {:induction false} SameRecords<S>(db: Db<S>, d: Db<S>, topo: seq<Rec>, n: int)
    requires RecordsOk(db, topo, n) && d.blocks == db.blocks
    ensures RecordsOk(d, topo, n)
  {
    forall i | 0 <= i < n ensures RecordOk(d, topo, i) { assert RecordOk(db, topo, i); }
  }

  /** The genesis block stays the one recorded at 0. */
  lemma {:induction false} RaisingGenesis<S>(env: Env<S>, db: Db<S>, d: Db<S>, bl: Block, snaps: seq<S>)
    requires OneGenesis(db) && d.blocks == db.blocks[env.hash(bl) := Stored(bl, |snaps|)]
    requires RecordsOk(d, d.topo, bl.height + 1) && d.topo[bl.height].blid == env.hash(bl) && Count(d.topo) == bl.height + 1
    requires bl.height == 0 ==> Count(db.topo) == 0
    ensures OneGenesis(d)
  {
    assert RecordOk(d, d.topo, 0);
  }

  /** A second genesis block replaces record 0 while the first one stays executed. */
  lemma {:induction false} SecondGenesis<S>(env: Env<S>, db: Db<S>, bl: Block, verdict: bool, s: S)
    requires Inv(env, db) && Check(env, db, bl, verdict) == Added && bl.height == 0 && Count(db.topo) > 0
    requires Linked(Committed(env, StoreBlock(env, db, bl, 0), bl, s))
    ensures !Inv(env, Accepted(env, StoreBlock(env, db, bl, 0), bl, s))
  {
    hide StoreOk, TipsOk, InReach, Check, Linked, Execute;
    CheckMeans(env, db, bl, verdict);
    assert RecordOk(db, db.topo, 0);
    var g := db.topo[0].blid;
    var d := Accepted(env, StoreBlock(env, db, bl, 0), bl, s);
    assert g in d.blocks && d.blocks[g] == db.blocks[g] && d.topo[0].blid == env.hash(bl) != g;
  }

  /** Every call keeps the chain well-formed and never lowers its height, except that a block of height 0
      accepted by a chain that already has blocks breaks it: the exception for genesis blocks lets it
      overwrite record 0. */
  lemma {:induction false} AddKeepsInv<S>(env: Env<S>, db: Db<S>, bl: Block, verdict: bool)
    requires Inv(env, db)
    ensures Inv(env, Add(env, db, bl, verdict).0) <==>
      !(Add(env, db, bl, verdict).1 == Added && bl.height == 0 && Count(db.topo) > 0)
    ensures Inv(env, Add(env, db, bl, verdict).0) ==> GetHeight(Add(env, db, bl, verdict).0) >= GetHeight(db)
  {
    hide Inv, Check, Execute, Accepted, Linked, GetHeight;
    if Check(env, db, bl, verdict) == Added {
      var d1 := StoreBlock(env, db, bl, 0);
      match Execute(env, d1, bl)
      case None =>
        PanicKeepsInv(env, db, bl, verdict);
        HeightIsCount(env, d1);
        HeightIsCount(env, db);
      case Some(s) =>
        CheckAnyVerdict(env, db, bl, verdict);
        CommittedLinked(env, db, bl, s);
        if bl.height == 0 && Count(db.topo) > 0 {
          SecondGenesis(env, db, bl, verdict, s);
        } else if Raises(d1, bl) {
          RaisingBlockKeepsInv(env, db, bl, verdict, s);
        } else {
          SideBlockKeepsInv(env, db, bl, verdict, s);
        }
    }
  }

  /** A block of height 0 without parents, other than record 0, that passes the checks not modelled and
      executes on the most recent snapshot. */
  predicate OtherGenesis<S>(env: Env<S>, db: Db<S>, bl: Block, verdict: bool) {
    && Count(db.topo) > 0 && bl.height == 0 && bl.tips == [] && verdict
    && env.hash(bl) !in db.tips && db.topo[0].blid != env.hash(bl)
    && db.snaps != [] && env.exec(db.snaps[|db.snaps| - 1], bl).Some?
  }

  /** A block of height 0 is recorded only as record 0, and where there are records there are snapshots. */
  lemma {:induction false} KnownGenesis<S>(env: Env<S>, db: Db<S>, bl: Block)
    requires Inv(env, db) && Count(db.topo) > 0 && bl.height == 0
    ensures InTopo(db, env.hash(bl)) <==> db.topo[0].blid == env.hash(bl)
    ensures env.hash(bl) in db.tips ==> db.topo[0].blid == env.hash(bl)
    ensures db.snaps != []
  {
    assert RecordOk(db, db.topo, 0);
    assert Executed(env, db, db.topo[0].blid);
    if env.hash(bl) in db.blocks { assert db.blocks[env.hash(bl)].bl == bl; }
  }

  /** Nothing stops it: such a block, and no other of height 0, is accepted by a chain that has blocks. */
  lemma {:induction false} SecondGenesisAccepted<S>(env: Env<S>, db: Db<S>, bl: Block, verdict: bool)
    requires Inv(env, db) && Count(db.topo) > 0 && bl.height == 0
    ensures Add(env, db, bl, verdict).1 == Added <==> OtherGenesis(env, db, bl, verdict)
    ensures Inv(env, Add(env, db, bl, verdict).0) <==> !OtherGenesis(env, db, bl, verdict)
  {
    hide Inv, Count, HeightOf;
    HeightIsCount(env, db);
    KnownGenesis(env, db, bl);
    AddKeepsInv(env, db, bl, verdict);
  }

  // ---------- which blocks are accepted ----------

  /** The chain does not hold the block yet: it is no tip and not recorded. */
  ghost predicate IsNew<S>(db: Db<S>, id: nat) {
    id !in db.tips && forall i :: 0 <= i < Count(db.topo) ==> db.topo[i].blid != id
  }

  lemma {:induction false} NewMeans<S>(env: Env<S>, db: Db<S>, bl: Block)
    requires Inv(env, db)
    ensures IsNew(db, env.hash(bl)) <==> env.hash(bl) !in db.tips && !InTopo(db, env.hash(bl))
  {
    hide Executed, OneGenesis, TipsOk, InReach;
    forall i | 0 <= i < Count(db.topo) && db.topo[i].blid == env.hash(bl) ensures InTopo(db, env.hash(bl)) {
      assert RecordOk(db, db.topo, i);
    }
  }

  /** A block of positive height is accepted exactly if it is new, has one parent, executed one height below, lies at
      most 2 above and (above height 8) at most 8 below the top, passes the other checks, and executes on the
      state of its parent. The chain is then as high as the higher of the two. */
  lemma {:induction false} AddAccepts<S>(env: Env<S>, db: Db<S>, bl: Block, verdict: bool)
    requires Inv(env, db) && bl.height > 0
    ensures Add(env, db, bl, verdict).1 == Added <==>
      && verdict && IsNew(db, env.hash(bl))
      && |bl.tips| == 1 && bl.tips[0] in db.blocks && db.blocks[bl.tips[0]].bl.height + 1 == bl.height
      && bl.height <= GetHeight(db) + 2 && (bl.height <= 8 || (8 <= GetHeight(db) <= bl.height + 8))
      && 1 <= db.blocks[bl.tips[0]].version <= |db.snaps|
      && env.exec(db.snaps[db.blocks[bl.tips[0]].version - 1], bl).Some?
    ensures Add(env, db, bl, verdict).1 == Added ==>
      GetHeight(Add(env, db, bl, verdict).0) == if bl.height > GetHeight(db) then bl.height else GetHeight(db)
  {
    hide Inv, GetHeight, InTopo, Accepted, Linked, IsNew;
    NewMeans(env, db, bl);
    if bl.tips != [] && bl.tips[0] in db.blocks { OwnParent(env, db, bl); }
    if Add(env, db, bl, verdict).1 == Added { AddHeight(env, db, bl, verdict); }
  }

  lemma OwnParent<S>(env: Env<S>, db: Db<S>, bl: Block)
    requires Inv(env, db) && bl.tips != [] && bl.tips[0] in db.blocks
    ensures db.blocks[bl.tips[0]].bl.height + 1 == bl.height ==> bl.tips[0] != env.hash(bl)
    ensures db.blocks[bl.tips[0]].version > 0 ==> db.blocks[bl.tips[0]].version <= |db.snaps|
  {
    hide InReach, OneGenesis, TipsOk, RecordsOk;
    assert env.hash(db.blocks[bl.tips[0]].bl) == bl.tips[0];
    if db.blocks[bl.tips[0]].version > 0 { assert Executed(env, db, bl.tips[0]); }
  }

  lemma {:induction false} AddHeight<S>(env: Env<S>, db: Db<S>, bl: Block, verdict: bool)
    requires Inv(env, db) && bl.height > 0 && Add(env, db, bl, verdict).1 == Added
    ensures GetHeight(Add(env, db, bl, verdict).0) == if bl.height > GetHeight(db) then bl.height else GetHeight(db)
  {
    hide Inv, Check, Execute, Accepted, Linked, GetHeight;
    var d1 := StoreBlock(env, db, bl, 0);
    var s := Execute(env, d1, bl).value;
    CheckAnyVerdict(env, db, bl, verdict);
    CommittedLinked(env, db, bl, s);
    RaisesMeans(env, db, bl, verdict);
    if Raises(d1, bl) { RaisingBlockKeepsInv(env, db, bl, verdict, s); } else { SideBlockKeepsInv(env, db, bl, verdict, s); }
  }

  /** The tips are then the block and the earlier tips, as far as they are of top height. */
  lemma {:induction false} TipsExact<S>(env: Env<S>, db: Db<S>, bl: Block, verdict: bool)
    requires Inv(env, db) && bl.height > 0 && Add(env, db, bl, verdict).1 == Added
    ensures var d := Add(env, db, bl, verdict).0;
      forall id :: id in d.tips <==> (id in db.tips || id == env.hash(bl)) && id in d.blocks && d.blocks[id].bl.height == GetHeight(d)
  {
    hide Inv, Check, Linked, Fix, Count;
    var d := Add(env, db, bl, verdict).0;
    CheckMeans(env, db, bl, verdict);
    ExecuteMeans(env, db, bl, verdict);
    AddHeight(env, db, bl, verdict);
    var s := Execute(env, StoreBlock(env, db, bl, 0), bl).value;
    CheckAnyVerdict(env, db, bl, verdict);
    CommittedLinked(env, db, bl, s);
    assert d.blocks[bl.tips[0]].bl.height + 1 == bl.height;
  }

  /** A child of the top record that executes is accepted: the chain grows by exactly that block. */
  lemma {:induction false} ChildExtends<S>(env: Env<S>, db: Db<S>, bl: Block, s: S)
    requires Inv(env, db) && Count(db.topo) > 0
    requires var top := db.topo[Count(db.topo) - 1];
      && bl.tips == [top.blid] && bl.height == GetHeight(db) + 1
      && 1 <= top.version <= |db.snaps| && env.exec(db.snaps[top.version - 1], bl) == Some(s)
    ensures var d := Add(env, db, bl, true).0;
      && Add(env, db, bl, true).1 == Added && Inv(env, d)
      && GetHeight(d) == GetHeight(db) + 1 && Count(d.topo) == Count(db.topo) + 1
      && d.topo[..Count(db.topo)] == db.topo[..Count(db.topo)]
      && d.topo[Count(db.topo)] == Rec(env.hash(bl), |db.snaps| + 1, bl.height)
      && d.tips == {env.hash(bl)} && d.snaps == db.snaps + [s]
      && d.blocks == db.blocks[env.hash(bl) := Stored(bl, |db.snaps| + 1)]
  {
    hide Inv, GetHeight, InTopo, Accepted, Linked, Check, Execute, Count;
    HeightIsCount(env, db);
    ChildNew(env, db, bl);
    AddAccepts(env, db, bl, true);
    AddKeepsInv(env, db, bl, true);
    HeightIsCount(env, Add(env, db, bl, true).0);
    ChildStored(env, db, bl, s);
    ChildTips(env, db, Add(env, db, bl, true).0, bl);
  }

  lemma {:induction false} ChildTips<S>(env: Env<S>, db: Db<S>, d: Db<S>, bl: Block)
    requires Inv(env, db) && Inv(env, d) && 0 < Count(db.topo) < Count(d.topo) == bl.height + 1
    requires d.blocks.Keys == db.blocks.Keys + {env.hash(bl)} && d.tips <= db.tips + {env.hash(bl)}
    requires forall id :: id in db.blocks && id != env.hash(bl) ==> d.blocks[id] == db.blocks[id]
    ensures d.tips == {env.hash(bl)}
  {
    hide StoreOk, RecordsOk, OneGenesis, InReach;
    assert forall id :: id in d.tips && id != env.hash(bl) ==> id in db.tips;
    assert d.topo[bl.height].blid in d.tips;
  }

  lemma {:induction false} ChildNew<S>(env: Env<S>, db: Db<S>, bl: Block)
    requires Inv(env, db) && Count(db.topo) > 0 && bl.height == Count(db.topo)
    ensures IsNew(db, env.hash(bl))
    ensures var top := db.topo[Count(db.topo) - 1];
      top.blid in db.blocks && db.blocks[top.blid].version == top.version && db.blocks[top.blid].bl.height + 1 == Count(db.topo)
  {
    hide Executed, OneGenesis, InReach;
    forall i | 0 <= i < Count(db.topo) ensures db.topo[i].blid != env.hash(bl) && RecordOk(db, db.topo, i) {
      assert RecordOk(db, db.topo, i);
      assert env.hash(db.blocks[db.topo[i].blid].bl) == db.topo[i].blid;
    }
  }

  lemma {:induction false} ChildStored<S>(env: Env<S>, db: Db<S>, bl: Block, s: S)
    requires Inv(env, db) && Count(db.topo) > 0 && bl.height == Count(db.topo) && Add(env, db, bl, true).1 == Added
    requires var top := db.topo[Count(db.topo) - 1];
      && bl.tips == [top.blid] && 1 <= top.version <= |db.snaps| && env.exec(db.snaps[top.version - 1], bl) == Some(s)
    ensures var d := Add(env, db, bl, true).0;
      && d.snaps == db.snaps + [s] && d.blocks == db.blocks[env.hash(bl) := Stored(bl, |db.snaps| + 1)]
      && |d.topo| > bl.height && d.topo[..bl.height] == db.topo[..bl.height]
      && d.topo[bl.height] == Rec(env.hash(bl), |db.snaps| + 1, bl.height) && d.tips <= db.tips + {env.hash(bl)}
  {
    hide Inv, Check, Linked, GetHeight;
    ChildNew(env, db, bl);
    HeightIsCount(env, db);
    ExecuteMeans(env, db, bl, true);
    var d1 := StoreBlock(env, db, bl, 0);
    CheckAnyVerdict(env, db, bl, true);
    CommittedLinked(env, db, bl, s);
    RaisesMeans(env, db, bl, true);
    AddHeight(env, db, bl, true);
  }

  // ---------- rewinding ----------

  /** How many records a rewind removes: never record 0 or 1. */
  function RewindDepth(top: int, count: nat): (d: nat)
    requires top >= 0
  {
    if top < 1 then 0 else if count < top - 1 then count else top - 1
  }

  function CleanFrom(topo: seq<Rec>, from: nat): (t: seq<Rec>)
    requires from <= |topo|
    ensures |t| == |topo|
    ensures forall i :: 0 <= i < |t| ==> t[i] == if i < from then topo[i] else CLEAN
  {
    topo[..from] + seq(|topo| - from, _ => CLEAN)
  }

  /** The tips are always reloaded from the top record, even if nothing is rewound. */
  function Rewind<S>(db: Db<S>, count: nat, prunedTill: int): (r: (Db<S>, bool))
    requires Count(db.topo) > 0
  {
    var top := Count(db.topo) - 1;
    if count == 0 || top - count <= prunedTill then (db.(tips := {db.topo[top].blid}), false)
    else
      var n := top - RewindDepth(top, count);
      (db.(topo := CleanFrom(db.topo, n + 1), tips := {db.topo[n].blid}), true)
  }

  /** A rewind keeps the chain well-formed, lowers it by at most `count`, and never below height 1
      (a chain that was not higher stays as it is). */
  lemma {:induction false} RewindKeepsInv<S>(env: Env<S>, db: Db<S>, count: nat, prunedTill: int)
    requires Inv(env, db) && Count(db.topo) > 0
    ensures Inv(env, Rewind(db, count, prunedTill).0)
    ensures GetHeight(Rewind(db, count, prunedTill).0) <= GetHeight(db)
    ensures GetHeight(Rewind(db, count, prunedTill).0) >= GetHeight(db) - count
    ensures GetHeight(db) >= 1 ==> GetHeight(Rewind(db, count, prunedTill).0) >= 1
  {
    hide Inv, IsClean, Count, CleanFrom, GetHeight;
    var top := Count(db.topo) - 1;
    HeightIsCount(env, db);
    if count == 0 || top - count <= prunedTill {
      RewoundInv(env, db, db.topo, top);
    } else {
      var n := top - RewindDepth(top, count);
      RewoundInv(env, db, CleanFrom(db.topo, n + 1), n);
    }
  }

  /** What a rewind does, exactly: it is refused unless it asks for some block and stays above the prune height;
      otherwise the top is then the larger of 1 and the height less the count (a chain of height 0 stays), the
      records up to it are as they were, those above are clean, and its block is the only tip. */
  lemma {:induction false} RewindExact<S>(env: Env<S>, db: Db<S>, count: nat, prunedTill: int)
    requires Inv(env, db) && Count(db.topo) > 0
    ensures var (d, ok), h := Rewind(db, count, prunedTill), GetHeight(db);
      var left := if !ok || h == 0 then h else if h - count > 1 then h - count else 1;
      && (ok <==> count > 0 && h - count > prunedTill)
      && GetHeight(d) == left && 0 <= left < |db.topo| == |d.topo|
      && (forall i :: 0 <= i < |d.topo| ==> d.topo[i] == if i <= left then db.topo[i] else CLEAN)
      && d.tips == {db.topo[left].blid} && d.blocks == db.blocks && d.snaps == db.snaps
  {
    hide StoreOk, InReach, OneGenesis, TipsOk, RecordsOk, IsClean, Count, CleanFrom, GetHeight;
    var top := Count(db.topo) - 1;
    HeightIsCount(env, db);
    if count == 0 || top - count <= prunedTill {
      RewoundInv(env, db, db.topo, top);
    } else {
      RewoundInv(env, db, CleanFrom(db.topo, top - RewindDepth(top, count) + 1), top - RewindDepth(top, count));
    }
  }

  /** Cleaning the records above n and taking record n as the only tip. */
  lemma {:induction false} RewoundInv<S>(env: Env<S>, db: Db<S>, t: seq<Rec>, n: int)
    requires Inv(env, db) && 0 <= n < Count(db.topo)
    requires t == CleanFrom(db.topo, n + 1) || (n == Count(db.topo) - 1 && t == db.topo)
    ensures var r := db.(topo := t, tips := {db.topo[n].blid});
      Inv(env, r) && GetHeight(r) == n
  {
    hide StoreOk, Executed, RecordsOk, RecordOk, OneGenesis;
    var r := db.(topo := t, tips := {db.topo[n].blid});
    RecordsEach(db, db.topo, Count(db.topo));
    RewindRecords(db, r, n);
    RewoundTop(db, n);
    CountIs(r.topo, n + 1);
    SameStore(env, db, r);
    assert OneGenesis(r) by { SameGenesis(db, r); }
    HeightIsCount(env, r);
  }

  lemma {:induction false} RewoundTop<S>(db: Db<S>, n: int)
    requires 0 <= n < |db.topo| && RecordOk(db, db.topo, n)
    ensures var r := db.topo[n]; !IsClean(r) && r.blid in db.blocks && db.blocks[r.blid].version > 0 && db.blocks[r.blid].bl.height == n
  {
  }

  lemma {:induction false} SameGenesis<S>(db: Db<S>, d: Db<S>)
    requires OneGenesis(db) && d.blocks == db.blocks && Count(db.topo) > 0 && Count(d.topo) > 0 && d.topo[0].blid == db.topo[0].blid
    ensures OneGenesis(d)
  {
  }

  lemma {:induction false} RewindRecords<S>(db: Db<S>, d: Db<S>, n: int)
    requires 0 <= n < |db.topo| && |d.topo| == |db.topo| && d.blocks == db.blocks
    requires forall i :: 0 <= i <= n ==> d.topo[i] == db.topo[i] && RecordOk(db, db.topo, i)
    ensures RecordsOk(d, d.topo, n + 1)
  {
    forall i | 0 <= i <= n ensures RecordOk(d, d.topo, i) { assert RecordOk(db, db.topo, i); }
  }
}
