/** The metadata of contracts, and why pruning may rely on it. */
module Metadata {
  import opened ChainState
  import opened Variables
  import opened Prune
  import opened Topo

  // ---------- the two forms ----------

  /** The kind of a contract, and the hash of its data. */
  datatype ScMeta = ScMeta(kind: Byte, dataHash: Hash)

  const NO_HASH: Bytes := ZERO_ID

  type Hash = h: Bytes | |h| == HASH_LENGTH witness NO_HASH

  /** The first form has no room for the hash: it leaves 32 zeros. */
  function MarshalBinary(m: ScMeta): Bytes {
    [m.kind] + NO_HASH
  }

  /** What follows the bytes of the first form is read as the hash: nothing, which leaves the zeros. */
  function UnmarshalBinary(b: Bytes): Option<ScMeta> {
    if |b| != 1 + HASH_LENGTH then None else Some(ScMeta(b[0], NO_HASH))
  }

  function MarshalBinaryGood(m: ScMeta): Bytes {
    [m.kind] + m.dataHash
  }

  function UnmarshalBinaryGood(b: Bytes): Option<ScMeta> {
    if |b| != 1 + HASH_LENGTH then None else Some(ScMeta(b[0], b[1..]))
  }

  /** The later form can be read back, and shows any change of the hash; the first one shows none. */
  lemma {:induction false} MetaForms(m: ScMeta, m': ScMeta)
    ensures UnmarshalBinaryGood(MarshalBinaryGood(m)) == Some(m)
    ensures MarshalBinaryGood(m) == MarshalBinaryGood(m') <==> m == m'
    ensures MarshalBinary(m) == MarshalBinary(m') <==> m.kind == m'.kind
    ensures MarshalBinary(m) == MarshalBinaryGood(m') <==> m.kind == m'.kind && m'.dataHash == NO_HASH
    ensures var b := MarshalBinaryGood(m); |b| == 33 && b[0] == m.kind && b[1..33] == m.dataHash
    ensures var b := MarshalBinary(m); |b| == 33 && b[0] == m.kind && forall i :: 1 <= i < 33 ==> b[i] == 0
  {
    assert MarshalBinaryGood(m)[1..] == m.dataHash && MarshalBinaryGood(m')[1..] == m'.dataHash;
    assert MarshalBinary(m)[0] == m.kind && MarshalBinary(m')[0] == m'.kind && MarshalBinary(m)[1..] == NO_HASH;
  }

  // ---------- committing a block ----------

  /** What the transactions of a block leave: the balances, the metadata of installed contracts, and every data
      tree that was taken out of the snapshot, changed or not. */
  datatype Work = Work(balances: Tree, installs: map<nat, Byte>, cache: map<nat, Tree>)

  /** The hash of a tree, the height from which on metadata has the later form, and the execution of the
      transactions of a block (None if it panics). */
  datatype Rules = Rules(hash: Tree -> Hash, fork: nat, work: (Snap, Block) -> Option<Work>)

  /** Metadata with the new hash of the data, in the form of the height. */
  function Sealed(later: bool, b: Bytes, h: Hash): (r: Option<Bytes>)
    ensures r.Some? <==> |b| == 1 + HASH_LENGTH
  {
    if later then
      match UnmarshalBinaryGood(b)
      case None => None
      case Some(m) => Some(MarshalBinaryGood(m.(dataHash := h)))
    else
      match UnmarshalBinary(b)
      case None => None
      case Some(m) => Some(MarshalBinary(m.(dataHash := h)))
  }

  /** Every tree that was taken out belongs to a contract with metadata that can be read. */
  predicate Sealable(meta: Tree, cache: map<nat, Tree>) {
    forall scid :: scid in cache ==> scid in meta && |meta[scid]| == 1 + HASH_LENGTH
  }

  function SealedAll(hash: Tree -> Hash, later: bool, meta: Tree, cache: map<nat, Tree>): (r: Tree)
    requires Sealable(meta, cache)
  {
    meta + map scid | scid in cache :: Sealed(later, meta[scid], hash(cache[scid])).value
  }

  /** The metadata of installed contracts has the first form at first, at any height. */
  function Installed(meta: Tree, installs: map<nat, Byte>): Tree {
    meta + map scid | scid in installs :: MarshalBinary(ScMeta(installs[scid], NO_HASH))
  }

  function Names(cache: map<nat, Tree>): set<Name> {
    set scid | scid in cache :: Contract(scid)
  }

  function DataTrees(cache: map<nat, Tree>): map<Name, Tree> {
    map n | n in Names(cache) :: cache[n.scid]
  }

  /** The snapshot of a block on that of its parent. */
  function CommitBlock(r: Rules, s: Snap, bl: Block): Option<Snap> {
    match r.work(s, bl)
    case None => None
    case Some(w) =>
      var meta := Installed(TreeOf(s, Meta), w.installs);
      if !Sealable(meta, w.cache) then None
      else Some(s + DataTrees(w.cache) + map[Balance := w.balances, Meta := SealedAll(r.hash, bl.height >= r.fork, meta, w.cache)])
  }

  lemma {:induction false} SealStart(hash: Tree -> Hash, later: bool, meta: Tree, cache: map<nat, Tree>)
    ensures Sealable(meta, map[]) && SealedAll(hash, later, meta, map[]) == meta
  {
  }

  lemma {:induction false} SealedAt(hash: Tree -> Hash, later: bool, meta: Tree, cache: map<nat, Tree>, scid: nat)
    requires Sealable(meta, cache)
    ensures scid in SealedAll(hash, later, meta, cache) <==> scid in meta
    ensures scid in meta ==>
      SealedAll(hash, later, meta, cache)[scid] == if scid in cache then Sealed(later, meta[scid], hash(cache[scid])).value else meta[scid]
  {
    hide Sealed;
  }

  lemma {:induction false} SealNext(hash: Tree -> Hash, later: bool, meta: Tree, cache: map<nat, Tree>, scid: nat, t: Tree)
    requires Sealable(meta, cache) && scid in meta && |meta[scid]| == 1 + HASH_LENGTH
    ensures Sealable(meta, cache[scid := t])
    ensures SealedAll(hash, later, meta, cache[scid := t])
      == SealedAll(hash, later, meta, cache)[scid := Sealed(later, meta[scid], hash(t)).value]
  {
    hide Sealed;
  }

  lemma {:induction false} SealStep(meta: Tree, cache: map<nat, Tree>, done: set<nat>, scid: nat)
    requires scid in cache && scid !in done && Sealable(meta, Among(cache, done))
    ensures Among(cache, done + {scid}) == Among(cache, done)[scid := cache[scid]]
    ensures Sealable(meta, cache) ==> scid in meta && |meta[scid]| == 1 + HASH_LENGTH
    ensures scid !in Among(cache, done)
  {
  }

  function Among(cache: map<nat, Tree>, done: set<nat>): map<nat, Tree> {
    map scid | scid in cache && scid in done :: cache[scid]
  }

  /** The loop at the end of a block: every tree that was taken out gets its hash into the metadata. */
  method SealContracts(hash: Tree -> Hash, later: bool, meta0: Tree, cache: map<nat, Tree>) returns (r: Option<Tree>)
    ensures r == if Sealable(meta0, cache) then Some(SealedAll(hash, later, meta0, cache)) else None
  {
    hide SealedAll, Sealable, Among, Sealed;
    var meta := meta0;
    var rest := cache.Keys;
    ghost var done: set<nat> := {};
    SealStart(hash, later, meta0, cache);
    assert Among(cache, {}) == map[] by { AmongNone(cache); }
    while rest != {}
      invariant done !! rest && done + rest == cache.Keys
      invariant Sealable(meta0, Among(cache, done)) && meta == SealedAll(hash, later, meta0, Among(cache, done))
      decreases |rest|
    {
      var scid :| scid in rest;
      SealStep(meta0, cache, done, scid);
      SealedAt(hash, later, meta0, Among(cache, done), scid);
      if scid !in meta { return None; }
      var b := Sealed(later, meta[scid], hash(cache[scid]));
      if b == None { return None; }
      SealNext(hash, later, meta0, Among(cache, done), scid, cache[scid]);
      meta := meta[scid := b.value];
      rest, done := rest - {scid}, done + {scid};
    }
    AmongAll(cache);
    r := Some(meta);
  }

  lemma AmongNone(cache: map<nat, Tree>)
    ensures Among(cache, {}) == map[]
  {
  }

  lemma AmongAll(cache: map<nat, Tree>)
    ensures Among(cache, cache.Keys) == cache
  {
  }

  /** A block that takes out a tree without metadata panics. */
  lemma {:induction false} SealPanics(hash: Tree -> Hash, scid: nat, t: Tree) returns (r: Rules, bl: Block)
    ensures r.hash == hash && r.work(map[], bl).Some? && CommitBlock(r, map[], bl) == None
  {
    var w := Work(map[], map[], map[scid := t]);
    r := Rules(hash, 0, (s: Snap, b: Block) => Some(w));
    bl := Block(0, [], 0);
    assert Installed(map[], w.installs) == map[];
    assert !Sealable(map[], w.cache) by { assert scid in w.cache; }
  }

  // ---------- what metadata shows ----------

  /** The metadata of a contract is of the first form, or carries the hash of the data. */
  ghost predicate Marked(hash: Tree -> Hash, s: Snap, scid: nat) {
    scid in TreeOf(s, Meta) && exists kind ::
      TreeOf(s, Meta)[scid] == MarshalBinary(ScMeta(kind, NO_HASH))
      || TreeOf(s, Meta)[scid] == MarshalBinaryGood(ScMeta(kind, hash(TreeOf(s, Contract(scid)))))
  }

  ghost predicate AllMarked(hash: Tree -> Hash, s: Snap) {
    forall scid :: scid in TreeOf(s, Meta) ==> Marked(hash, s, scid)
  }

  /** The data of no contract changes to data of the same hash, or of the hash that stands for none. */
  ghost predicate NoClash(hash: Tree -> Hash, was: Snap, now: Snap) {
    forall scid :: scid in TreeOf(was, Meta) && TreeOf(was, Contract(scid)) != TreeOf(now, Contract(scid)) ==>
      hash(TreeOf(now, Contract(scid))) !in {hash(TreeOf(was, Contract(scid))), NO_HASH}
  }

  /** Snapshot trees after a commit on top of a snapshot. */
  lemma {:induction false} LaidOver(s: Snap, cache: map<nat, Tree>, balances: Tree, meta: Tree)
    ensures var now := s + DataTrees(cache) + map[Balance := balances, Meta := meta];
      && TreeOf(now, Balance) == balances && TreeOf(now, Meta) == meta
      && forall scid :: TreeOf(now, Contract(scid)) == if scid in cache then cache[scid] else TreeOf(s, Contract(scid))
  {
    hide Names;
    NamesAre(cache);
    forall scid ensures Contract(scid) in Names(cache) <==> scid in cache { NameOf(cache, scid); }
  }

  lemma NamesAre(cache: map<nat, Tree>)
    ensures forall n :: n in Names(cache) ==> n.Contract?
  {
  }

  lemma NameOf(cache: map<nat, Tree>, scid: nat)
    ensures Contract(scid) in Names(cache) <==> scid in cache
  {
  }

  /** The bytes of the metadata after a block, and the data that go with them. */
  lemma {:induction false} CommittedAt(r: Rules, s: Snap, bl: Block, now: Snap, scid: nat)
    requires CommitBlock(r, s, bl) == Some(now)
    ensures r.work(s, bl).Some?
    ensures var w := r.work(s, bl).value;
      var meta := Installed(TreeOf(s, Meta), w.installs);
      && (scid in w.cache ==> scid in meta && |meta[scid]| == 1 + HASH_LENGTH)
      && (scid in TreeOf(now, Meta) <==> scid in meta)
      && (scid in meta ==>
            TreeOf(now, Meta)[scid]
            == if scid in w.cache then Sealed(bl.height >= r.fork, meta[scid], r.hash(w.cache[scid])).value else meta[scid])
      && TreeOf(now, Contract(scid)) == if scid in w.cache then w.cache[scid] else TreeOf(s, Contract(scid))
  {
    hide SealedAll, Sealed, Installed, DataTrees;
    var w := r.work(s, bl).value;
    var meta := Installed(TreeOf(s, Meta), w.installs);
    LaidOver(s, w.cache, w.balances, SealedAll(r.hash, bl.height >= r.fork, meta, w.cache));
    SealedAt(r.hash, bl.height >= r.fork, meta, w.cache, scid);
  }

  lemma {:induction false} InstalledAt(meta: Tree, installs: map<nat, Byte>, scid: nat)
    ensures scid in Installed(meta, installs) <==> scid in meta || scid in installs
    ensures scid in installs ==> Installed(meta, installs)[scid] == MarshalBinary(ScMeta(installs[scid], NO_HASH))
    ensures scid in meta && scid !in installs ==> Installed(meta, installs)[scid] == meta[scid]
  {
    hide MarshalBinary;
  }

  lemma {:induction false} SealedForm(later: bool, b: Bytes, h: Hash)
    requires |b| == 1 + HASH_LENGTH
    ensures Sealed(later, b, h) == Some(if later then MarshalBinaryGood(ScMeta(b[0], h)) else MarshalBinary(ScMeta(b[0], NO_HASH)))
  {
  }

  /** Every block keeps the metadata of all contracts in one of the two forms, and removes none. */
  lemma {:induction false} BlockKeepsMarks(r: Rules, s: Snap, bl: Block, now: Snap)
    requires CommitBlock(r, s, bl) == Some(now) && AllMarked(r.hash, s)
    ensures AllMarked(r.hash, now) && forall scid :: scid in TreeOf(s, Meta) ==> scid in TreeOf(now, Meta)
  {
    hide CommitBlock, Sealed, Installed, TreeOf, MarshalBinary, MarshalBinaryGood;
    CommittedAt(r, s, bl, now, 0);
    var w := r.work(s, bl).value;
    forall scid ensures scid in TreeOf(s, Meta) ==> scid in TreeOf(now, Meta) {
      CommittedAt(r, s, bl, now, scid);
      InstalledAt(TreeOf(s, Meta), w.installs, scid);
    }
    forall scid | scid in TreeOf(now, Meta) ensures Marked(r.hash, now, scid) {
      CommittedAt(r, s, bl, now, scid);
      InstalledAt(TreeOf(s, Meta), w.installs, scid);
      if scid in w.cache {
        SealedForm(bl.height >= r.fork, Installed(TreeOf(s, Meta), w.installs)[scid], r.hash(w.cache[scid]));
      } else if scid !in w.installs {
        assert Marked(r.hash, s, scid);
      }
    }
  }

  /** Metadata that does not change when the data changes, in a block of the later form. */
  lemma {:induction false} SameMetaSameData(hash: Tree -> Hash, kind: Byte, was: Tree, now: Tree, b: Bytes, kind': Byte)
    requires b == MarshalBinary(ScMeta(kind, NO_HASH)) || b == MarshalBinaryGood(ScMeta(kind, hash(was)))
    requires b == MarshalBinaryGood(ScMeta(kind', hash(now)))
    ensures hash(now) in {hash(was), NO_HASH}
  {
    MetaForms(ScMeta(kind, NO_HASH), ScMeta(kind', hash(now)));
    MetaForms(ScMeta(kind, hash(was)), ScMeta(kind', hash(now)));
  }

  /** A block at or above the fork shows every change of a contract in its metadata, also where the metadata
      still had the first form. */
  lemma {:induction false} BlockShows(r: Rules, s: Snap, bl: Block, now: Snap)
    requires CommitBlock(r, s, bl) == Some(now) && bl.height >= r.fork
    requires AllMarked(r.hash, s) && NoClash(r.hash, s, now)
    ensures MetaShows(s, now)
  {
    hide CommitBlock, Sealed, Installed, TreeOf, MarshalBinary, MarshalBinaryGood;
    BlockKeepsMarks(r, s, bl, now);
    CommittedAt(r, s, bl, now, 0);
    var w := r.work(s, bl).value;
    forall scid | scid in TreeOf(s, Meta) && TreeOf(s, Meta)[scid] == TreeOf(now, Meta)[scid]
      ensures TreeOf(s, Contract(scid)) == TreeOf(now, Contract(scid))
    {
      CommittedAt(r, s, bl, now, scid);
      if scid in w.cache {
        var was, b := TreeOf(s, Contract(scid)), Installed(TreeOf(s, Meta), w.installs)[scid];
        SealedForm(true, b, r.hash(w.cache[scid]));
        assert Marked(r.hash, s, scid);
        var kind :| TreeOf(s, Meta)[scid] == MarshalBinary(ScMeta(kind, NO_HASH))
          || TreeOf(s, Meta)[scid] == MarshalBinaryGood(ScMeta(kind, r.hash(was)));
        SameMetaSameData(r.hash, kind, was, w.cache[scid], TreeOf(s, Meta)[scid], b[0]);
      }
    }
  }

  /** Below the fork the metadata of a contract shows its kind and nothing else: a block shows every change if
      and only if no contract changes its data without changing its kind. */
  lemma {:induction false} BlockBelowFork(r: Rules, s: Snap, bl: Block, now: Snap)
    requires CommitBlock(r, s, bl) == Some(now) && bl.height < r.fork && AllFirst(s)
    ensures AllFirst(now)
    ensures MetaShows(s, now) <==> OnlyWithKind(s, now)
  {
    hide CommitBlock, Sealed, Installed, TreeOf, MarshalBinary;
    CommittedAt(r, s, bl, now, 0);
    var w := r.work(s, bl).value;
    forall scid ensures scid in TreeOf(s, Meta) ==> scid in TreeOf(now, Meta) {
      CommittedAt(r, s, bl, now, scid);
      InstalledAt(TreeOf(s, Meta), w.installs, scid);
    }
    forall scid | scid in TreeOf(now, Meta) ensures IsFirst(TreeOf(now, Meta)[scid]) {
      CommittedAt(r, s, bl, now, scid);
      InstalledAt(TreeOf(s, Meta), w.installs, scid);
      if scid in w.cache {
        SealedForm(false, Installed(TreeOf(s, Meta), w.installs)[scid], r.hash(w.cache[scid]));
      }
    }
    forall scid | scid in TreeOf(s, Meta)
      ensures TreeOf(s, Meta)[scid] == TreeOf(now, Meta)[scid] <==> KindOf(s, scid) == KindOf(now, scid)
    {
      FirstIsKind(TreeOf(s, Meta)[scid], TreeOf(now, Meta)[scid]);
    }
  }

  /** Contracts change their data only together with their kind. */
  ghost predicate OnlyWithKind(s: Snap, now: Snap) {
    forall scid :: scid in TreeOf(s, Meta) && scid in TreeOf(now, Meta) && KindOf(s, scid) == KindOf(now, scid) ==>
      TreeOf(s, Contract(scid)) == TreeOf(now, Contract(scid))
  }

  function KindOf(s: Snap, scid: nat): Option<Byte>
    requires scid in TreeOf(s, Meta)
  {
    var b := TreeOf(s, Meta)[scid];
    if b == [] then None else Some(b[0])
  }

  ghost predicate IsFirst(b: Bytes)
    ensures IsFirst(b) ==> b != []
  {
    exists kind :: b == MarshalBinary(ScMeta(kind, NO_HASH))
  }

  ghost predicate AllFirst(s: Snap)
    ensures AllFirst(s) ==> forall scid :: scid in TreeOf(s, Meta) ==> TreeOf(s, Meta)[scid] != []
  {
    forall scid :: scid in TreeOf(s, Meta) ==> IsFirst(TreeOf(s, Meta)[scid])
  }

  lemma {:induction false} FirstIsKind(b: Bytes, b': Bytes)
    requires IsFirst(b) && IsFirst(b')
    ensures b == b' <==> b[0] == b'[0]
  {
  }

  /** Pruning loses data there: a contract that writes one entry in the block right below the fork. */
  lemma {:induction false} FirstFormLoses(hash: Tree -> Hash) returns (r: Rules, s: Snap, bl: Block)
    ensures r.hash == hash && bl.height == 1 < r.fork && AllFirst(s) && Same(s, s) && Tidy(s)
    ensures CommitBlock(r, s, bl).Some?
    ensures !Same(Moved(s, CommitBlock(r, s, bl).value, s), CommitBlock(r, s, bl).value)
  {
    hide MetaShows, CommitBlock, MarshalBinary, Tidy, AllFirst, Moved;
    var w := Work(map[], map[], map[0 := map[7 := [1]]]);
    r := Rules(hash, 2, (s0: Snap, b0: Block) => Some(w));
    s := map[Meta := map[0 := MarshalBinary(ScMeta(0, NO_HASH))]];
    bl := Block(1, [], 0);
    OneFirst(s);
    OneChanges(r, s, bl, w);
    MovedSame(s, CommitBlock(r, s, bl).value, s);
  }

  lemma OneFirst(s: Snap)
    requires s == map[Meta := map[0 := MarshalBinary(ScMeta(0, NO_HASH))]]
    ensures AllFirst(s) && Tidy(s)
  {
  }

  lemma {:induction false} OneChanges(r: Rules, s: Snap, bl: Block, w: Work)
    requires s == map[Meta := map[0 := MarshalBinary(ScMeta(0, NO_HASH))]]
    requires w == Work(map[], map[], map[0 := map[7 := [1]]]) && r.work(s, bl) == Some(w) && bl.height < r.fork
    ensures CommitBlock(r, s, bl).Some? && !MetaShows(s, CommitBlock(r, s, bl).value)
  {
    hide MetaShows, SealedAll, Sealed, DataTrees;
    var meta := Installed(TreeOf(s, Meta), w.installs);
    assert meta == TreeOf(s, Meta);
    assert Sealable(meta, w.cache);
    var now := CommitBlock(r, s, bl).value;
    OneFirst(s);
    BlockBelowFork(r, s, bl, now);
    CommittedAt(r, s, bl, now, 0);
    SealedForm(false, meta[0], r.hash(w.cache[0]));
    assert 7 in TreeOf(now, Contract(0)) && 7 !in TreeOf(s, Contract(0));
  }

  // ---------- whole chains ----------

  /** The chain executes blocks by these rules, from an empty store. */
  ghost predicate RunsBy(r: Rules, env: Env<Snap>) {
    env.genesis == map[] && forall s, bl :: env.exec(s, bl) == CommitBlock(r, s, bl)
  }

  /** The snapshot of a height is the commit of its block on the snapshot below. */
  lemma {:induction false} RecordedStep(r: Rules, env: Env<Snap>, db: Db<Snap>, j: nat)
    requires Inv(env, db) && RunsBy(r, env) && j < Count(db.topo)
    ensures db.topo[j].blid in db.blocks
    ensures var bl := db.blocks[db.topo[j].blid].bl;
      && bl.height == j
      && CommitBlock(r, if j == 0 then map[] else SnapAt(db.snaps, db.topo[j - 1].version), bl) == Some(SnapAt(db.snaps, db.topo[j].version))
  {
    hide CommitBlock, OneGenesis, InReach, TipsOk;
    assert RecordOk(db, db.topo, j);
    assert Executed(env, db, db.topo[j].blid);
    var b := db.blocks[db.topo[j].blid];
    if j > 0 {
      assert RecordOk(db, db.topo, j - 1);
      assert env.exec(db.snaps[db.topo[j - 1].version - 1], b.bl) == Some(db.snaps[b.version - 1]);
    } else {
      assert env.exec(env.genesis, b.bl) == Some(db.snaps[b.version - 1]);
    }
  }

  lemma {:induction false} RecordedMarks(r: Rules, env: Env<Snap>, db: Db<Snap>, j: nat)
    requires Inv(env, db) && RunsBy(r, env) && j < Count(db.topo)
    ensures AllMarked(r.hash, SnapAt(db.snaps, db.topo[j].version))
    ensures j < r.fork ==> AllFirst(SnapAt(db.snaps, db.topo[j].version))
  {
    hide Inv, RunsBy, CommitBlock, SnapAt;
    var s: Snap := map[];
    if j > 0 {
      RecordedMarks(r, env, db, j - 1);
      s := SnapAt(db.snaps, db.topo[j - 1].version);
    }
    RecordedStep(r, env, db, j);
    var bl, now := db.blocks[db.topo[j].blid].bl, SnapAt(db.snaps, db.topo[j].version);
    BlockKeepsMarks(r, s, bl, now);
    if j < r.fork { BlockBelowFork(r, s, bl, now); }
  }

  /** No hash clashes between neighbouring heights from the fork on. */
  ghost predicate NoClashes(r: Rules, db: Db<Snap>, p: nat) {
    forall j {:trigger db.topo[j + 1]} :: p <= j < Count(db.topo) - 1 && j + 1 >= r.fork ==>
      NoClash(r.hash, SnapAt(db.snaps, db.topo[j].version), SnapAt(db.snaps, db.topo[j + 1].version))
  }

  /** Below the fork, contracts change their data only together with their kind. */
  ghost predicate KindsTell(r: Rules, db: Db<Snap>, p: nat) {
    forall j {:trigger db.topo[j + 1]} :: p <= j < Count(db.topo) - 1 && j + 1 < r.fork ==>
      OnlyWithKind(SnapAt(db.snaps, db.topo[j].version), SnapAt(db.snaps, db.topo[j + 1].version))
  }

  /** On every chain, after whatever runs, metadata shows every change from the height below the fork on; from a
      lower height on, if and only if the blocks below the fork have changed no data behind the same kind. */
  lemma {:induction false} ChainShows(r: Rules, env: Env<Snap>, db: Db<Snap>, p: nat)
    requires Inv(env, db) && RunsBy(r, env) && p < Count(db.topo) && NoClashes(r, db, p)
    ensures ShowsUpTo(db.topo, db.snaps, p, Count(db.topo) - 1) <==> KindsTell(r, db, p)
    ensures p + 1 >= r.fork ==> ShowsUpTo(db.topo, db.snaps, p, Count(db.topo) - 1)
  {
    hide Inv, RunsBy, CommitBlock, SnapAt, MetaShows, OnlyWithKind, NoClash, Count;
    assert Count(db.topo) <= |db.topo|;
    forall j {:trigger db.topo[j + 1]} | p <= j < Count(db.topo) - 1
      ensures MetaShows(SnapAt(db.snaps, db.topo[j].version), SnapAt(db.snaps, db.topo[j + 1].version)) <==>
        (j + 1 < r.fork ==> OnlyWithKind(SnapAt(db.snaps, db.topo[j].version), SnapAt(db.snaps, db.topo[j + 1].version)))
    {
      var s, now := SnapAt(db.snaps, db.topo[j].version), SnapAt(db.snaps, db.topo[j + 1].version);
      RecordedStep(r, env, db, j + 1);
      RecordedMarks(r, env, db, j);
      var bl := db.blocks[db.topo[j + 1].blid].bl;
      if j + 1 < r.fork { BlockBelowFork(r, s, bl, now); } else { BlockShows(r, s, bl, now); }
    }
  }

  /** Pruning a chain at or above the height below the fork keeps the content of every height that is left;
      pruning it lower does so if and only if no data changed behind the same kind below the fork. */
  method PruneChain(ghost r: Rules, ghost env: Env<Snap>, ghost db: Db<Snap>, t: TopoStore, source: seq<Snap>, w: WriteStore, p: nat)
    returns (first: Option<nat>)
    requires Inv(env, db) && RunsBy(r, env) && NoClashes(r, db, p)
    requires t.file == db.topo && source == db.snaps && w.snaps == []
    modifies t`file, w
    ensures first == None <==> Count(db.topo) - 1 - p < KEPT
    ensures first.Some? ==> t.file == Renumbered(db.topo, first.value, p, Count(db.topo) - 1)
    ensures first.Some? ==> (SameUpTo(db.topo, db.snaps, w.snaps, first.value, p, Count(db.topo) - 1) <==> KindsTell(r, db, p))
    ensures first.Some? && p + 1 >= r.fork ==> SameUpTo(db.topo, db.snaps, w.snaps, first.value, p, Count(db.topo) - 1)
  {
    hide Inv, RunsBy, NoClashes, KindsTell, SameUpTo, ShowsUpTo, Renumbered, Count;
    first := PruneBlockchain(t, source, w, p);
    if first.Some? { ChainShows(r, env, db, p); }
  }
}
