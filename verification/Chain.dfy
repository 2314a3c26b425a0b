/** The chain object: adding a block and rewinding, in place, as the steps of the state machine. */
module Chain {
  import opened ChainState
  import opened ChainSteps
  import opened ChainRuns
  import opened Topo

  lemma {:induction false} InvFiled<S>(env: Env<S>, db: Db<S>)
    requires Inv(env, db)
    ensures Filed(db.topo)
    ensures forall id :: id in db.blocks ==> id != 0
  {
    hide StoreOk, OneGenesis, InReach, TipsOk;
    forall i | 0 <= i < Count(db.topo) ensures db.topo[i].height == i { assert RecordOk(db, db.topo, i); }
    StoreIds(env, db);
  }

  class Blockchain<S> {
    const env: Env<S>
    const store: TopoStore
    var blocks: map<nat, Stored>
    var tips: set<nat>
    var snaps: seq<S>

    ghost function State(): (d: Db<S>)
      reads this, store
      ensures d == Db(blocks, store.file, tips, snaps)
    {
      Db(blocks, store.file, tips, snaps)
    }

    constructor (env: Env<S>)
      ensures this.env == env && State() == Fresh() && fresh(store)
    {
      this.env := env;
      store := new TopoStore();
      blocks, tips, snaps := map[], {}, [];
    }

    method LoadHeight() returns (h: int)
      ensures h == GetHeight(State())
    {
      var count := store.CountRecords();
      if count == 0 { return 0; }
      h := HeightOf(blocks, store.file[count - 1].blid);
    }

    /** Whether the block is the one recorded at its height. */
    method IsBlockTopologicalOrder(id: nat) returns (r: bool)
      requires Inv(env, State())
      ensures r == InTopo(State(), id) || id == 0
    {
      hide Inv, Filed, Count;
      InvFiled(env, State());
      var height := HeightOf(blocks, id);
      var blids, topos := store.BinarySearchHeight(height);
      r := false;
      var i := 0;
      while i < |blids|
        invariant 0 <= i <= |blids|
        invariant r <==> id in blids[..i]
      {
        if blids[i] == id { r := true; break; }
        i := i + 1;
      }
      assert r <==> id in blids;
    }

    method StoreBlock(bl: Block, version: nat)
      modifies this`blocks
      ensures blocks == old(blocks)[env.hash(bl) := Stored(bl, version)]
    {
      blocks := blocks[env.hash(bl) := Stored(bl, version)];
    }

    /** The checks before a block is executed. */
    method CheckBlock(bl: Block, verdict: bool) returns (c: AddResult)
      requires Inv(env, State())
      ensures c == Check(env, State(), bl, verdict)
    {
      hide Inv, GetHeight, InTopo;
      var id := env.hash(bl);
      assert id != 0 by { assert Inv(env, State()); HashNotZero(env, State(), bl); }
      if id in tips { return AlreadyExists; }
      var known := IsBlockTopologicalOrder(id);
      if known { return AlreadyExists; }
      var h := LoadHeight();
      if bl.height > h + 2 { return AdvanceBlock; }
      if bl.height > STABLE_LIMIT {
        if h < STABLE_LIMIT || bl.height < h - STABLE_LIMIT { return PreviousBlock; }
      }
      if |bl.tips| > 1 { return PastMissing; }
      if |bl.tips| == 1 && bl.tips[0] !in blocks { return PastMissing; }
      if |bl.tips| >= 1 && bl.height == 0 { return InvalidBlock; }
      if bl.height >= 2 && |bl.tips| == 0 { return Panicked; }
      if |bl.tips| == 1 && bl.height - 1 != HeightOf(blocks, bl.tips[0]) { return InvalidBlock; }
      if !verdict { return CheckFailed; }
      return Added;
    }

    /** The records are rewritten from the new block downwards, until a record is met that already
        holds the parent. The position is always the height of the block that is written. */
    method FixRecords(bl: Block, version: nat)
      requires Linked(State()) && (bl.height > 0 ==> HasParent(State(), bl))
      modifies store`file
      ensures store.file == Fix(env.hash, old(State()), old(store.file), bl, version)
    {
      ghost var db := State();
      var fixBl, fixPos, fixVersion := bl, bl.height, version;
      while true
        invariant fixPos == fixBl.height && (fixBl.height > 0 ==> HasParent(db, fixBl))
        invariant Fix(env.hash, db, store.file, fixBl, fixVersion) == Fix(env.hash, db, old(store.file), bl, version)
        decreases fixPos
      {
        store.WriteRecord(fixBl.height, env.hash(fixBl), fixVersion, fixBl.height);
        if fixPos == 0 { break; }
        var r := store.file[fixPos - 1];
        if fixBl.tips[0] == r.blid { break; }
        fixVersion := blocks[fixBl.tips[0]].version;
        fixBl := blocks[fixBl.tips[0]].bl;
        fixPos := fixPos - 1;
        assert fixBl.height > 0 ==> HasParent(db, fixBl);
      }
    }

    /** The tips that are not parents of the new block. */
    method TipsBeside(parents: seq<nat>) returns (kept: set<nat>)
      ensures forall t :: t in kept <==> t in tips && t !in parents
    {
      var rest := tips;
      kept := {};
      while rest != {}
        invariant rest <= tips
        invariant forall t :: t in kept <==> t in tips && t !in rest && t !in parents
        decreases |rest|
      {
        var t :| t in rest;
        if t !in parents { kept := kept + {t}; }
        rest := rest - {t};
      }
    }

    method TipsOfHeight(kept: set<nat>, h: int) returns (newTips: set<nat>)
      ensures forall t :: t in newTips <==> t in kept && HeightOf(blocks, t) == h
    {
      var rest := kept;
      newTips := {};
      while rest != {}
        invariant rest <= kept
        invariant forall t :: t in newTips <==> t in kept && t !in rest && HeightOf(blocks, t) == h
        decreases |rest|
      {
        var t :| t in rest;
        if h - HeightOf(blocks, t) == 0 { newTips := newTips + {t}; }
        rest := rest - {t};
      }
    }

    /** The new block becomes a tip, its parent stops being one, and so does every tip below the top. */
    method UpdateTips(bl: Block)
      modifies this`tips
      ensures tips == NewTips(env, old(State()), bl)
    {
      hide GetHeight, HeightOf;
      var kept := TipsBeside(bl.tips);
      kept := kept + {env.hash(bl)};
      var h := LoadHeight();
      var newTips := TipsOfHeight(kept, h);
      assert newTips == NewTips(env, State(), bl);
      tips := newTips;
    }

    /** Adding a block is one step of the state machine. */
    method AddCompleteBlock(bl: Block, verdict: bool) returns (result: AddResult)
      requires Inv(env, State())
      modifies this, store`file
      ensures (State(), result) == Add(env, old(State()), bl, verdict)
    {
      hide Inv, Check, Fix, Linked, NewTips, GetHeight;
      ghost var db := State();
      result := CheckBlock(bl, verdict);
      if result != Added { return; }
      StoreBlock(bl, 0);
      ghost var d1 := State();
      assert d1 == ChainSteps.StoreBlock(env, db, bl, 0);
      var h := LoadHeight();
      var heightChanged := bl.height > h || bl.height == 0;
      var base: S;
      if bl.height == 0 {
        base := if snaps == [] then env.genesis else snaps[|snaps| - 1];
      } else {
        if |bl.tips| == 0 || bl.tips[0] !in blocks { return Panicked; }
        var version := blocks[bl.tips[0]].version;
        if version < 1 || version > |snaps| { return Panicked; }
        base := snaps[version - 1];
      }
      var s := env.exec(base, bl);
      if s == None { return Panicked; }
      CheckAnyVerdict(env, db, bl, verdict);
      CommittedLinked(env, db, bl, s.value);
      snaps := snaps + [s.value];
      var commitVersion := |snaps|;
      StoreBlock(bl, commitVersion);
      assert State() == Committed(env, d1, bl, s.value);
      if heightChanged { FixRecords(bl, commitVersion); }
      UpdateTips(bl);
    }

    /** Rewinding is one step of the state machine. */
    method RewindChain(count: nat) returns (result: bool)
      requires Inv(env, State()) && Count(store.file) > 0
      modifies this`tips, store`file
      ensures (State(), result) == Rewind(old(State()), count, store.prunedTill)
    {
      hide Inv, Count;
      ghost var db := State();
      var n := store.CountRecords();
      var top := n - 1;
      if count == 0 || top - count <= store.prunedTill {
        tips := {store.file[top].blid};
        return false;
      }
      InvFiled(env, db);
      var rewinded := 0;
      while true
        invariant 0 <= rewinded <= RewindDepth(top, count)
        decreases RewindDepth(top, count) - rewinded
      {
        var r := ReadAt(store.file, top - rewinded);
        if top - rewinded < 1 || rewinded >= count { break; }
        if r.height == 1 { break; }
        rewinded := rewinded + 1;
      }
      var i := 0;
      while i < rewinded
        invariant 0 <= i <= rewinded && |store.file| == |db.topo|
        invariant forall k :: 0 <= k < |db.topo| ==> store.file[k] == if k <= top - i then db.topo[k] else CLEAN
      {
        store.Clean(top - i);
        i := i + 1;
      }
      assert store.file == CleanFrom(db.topo, top - rewinded + 1);
      tips := {store.file[top - rewinded].blid};
      return true;
    }
  }

  lemma {:induction false} HashNotZero<S>(env: Env<S>, db: Db<S>, bl: Block)
    requires Inv(env, db)
    ensures env.hash(bl) != 0
  {
  }
}
