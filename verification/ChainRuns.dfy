/** Whole runs of the chain. */
module ChainRuns {
  // Blocks are added, chains reorganised and rewound in any order.

  import opened ChainState
  import opened ChainSteps
  import opened Powers

  datatype Op = AddBlock(bl: Block, verdict: bool) | RewindBy(count: nat, prunedTill: int)

  /** The call does not bring in a second genesis block. */
  predicate Allowed<S>(env: Env<S>, db: Db<S>, op: Op) {
    op.AddBlock? ==> !OtherGenesis(env, db, op.bl, op.verdict)
  }

  ghost predicate Running<S>(env: Env<S>, db: Db<S>) {
    Inv(env, db) && Count(db.topo) > 0
  }

  /** One call. Adding keeps the records unless the block raises the chain. */
  ghost function Step<S>(env: Env<S>, db: Db<S>, op: Op): Db<S>
    requires Running(env, db) && Allowed(env, db, op)
  {
    match op
    case AddBlock(bl, verdict) => Add(env, db, bl, verdict).0
    case RewindBy(count, prunedTill) => Rewind(db, count, prunedTill).0
  }

  /** Record 0 keeps its block through any call, and the chain keeps running. */
  lemma {:induction false} StepKeeps<S>(env: Env<S>, db: Db<S>, op: Op)
    requires Running(env, db) && Allowed(env, db, op)
    ensures Running(env, Step(env, db, op)) && Step(env, db, op).topo[0].blid == db.topo[0].blid
    ensures op.AddBlock? ==> GetHeight(Step(env, db, op)) >= GetHeight(db)
    ensures GetHeight(db) >= 1 ==> GetHeight(Step(env, db, op)) >= 1
  {
    var d := Step(env, db, op);
    match op
    case AddBlock(bl, verdict) =>
      AddKeepsGenesis(env, db, bl, verdict);
    case RewindBy(count, prunedTill) =>
      RewindKeepsInv(env, db, count, prunedTill);
      RewindKeepsRecordZero(env, db, count, prunedTill);
  }

  lemma {:induction false} RewindKeepsRecordZero<S>(env: Env<S>, db: Db<S>, count: nat, prunedTill: int)
    requires Running(env, db)
    ensures Count(Rewind(db, count, prunedTill).0.topo) > 0
    ensures Rewind(db, count, prunedTill).0.topo[0] == db.topo[0]
  {
    hide StoreOk, InReach, OneGenesis, TipsOk;
    assert RecordOk(db, db.topo, 0);
    var t := Rewind(db, count, prunedTill).0.topo;
    assert !IsClean(t[0]);
  }

  lemma {:induction false} AddKeepsGenesis<S>(env: Env<S>, db: Db<S>, bl: Block, verdict: bool)
    requires Running(env, db) && !OtherGenesis(env, db, bl, verdict)
    ensures Running(env, Add(env, db, bl, verdict).0)
    ensures Add(env, db, bl, verdict).0.topo[0].blid == db.topo[0].blid
    ensures GetHeight(Add(env, db, bl, verdict).0) >= GetHeight(db)
  {
    hide StoreOk, InReach, TipsOk, Execute, Linked, Executed, Fix;
    AddKeepsInv(env, db, bl, verdict);
    var d := Add(env, db, bl, verdict).0;
    var g := db.topo[0].blid;
    assert RecordOk(db, db.topo, 0);
    if bl.height == 0 { SecondGenesisAccepted(env, db, bl, verdict); }
    if Check(env, db, bl, verdict) == Added { CheckMeans(env, db, bl, verdict); }
    assert g in d.blocks && d.blocks[g] == db.blocks[g];
  }

  /** None of the calls brings in a second genesis block. */
  ghost predicate AllAllowed<S>(env: Env<S>, db: Db<S>, ops: seq<Op>)
    requires Running(env, db)
    decreases |ops|
  {
    ops == [] || (Allowed(env, db, ops[0]) && (StepKeeps(env, db, ops[0]); AllAllowed(env, Step(env, db, ops[0]), ops[1..])))
  }

  /** A sequence of calls. */
  ghost function Run<S>(env: Env<S>, db: Db<S>, ops: seq<Op>): (d: Db<S>)
    requires Running(env, db) && AllAllowed(env, db, ops)
    ensures Running(env, d) && d.topo[0].blid == db.topo[0].blid
    ensures (forall op :: op in ops ==> op.AddBlock?) ==> GetHeight(d) >= GetHeight(db)
    ensures GetHeight(db) >= 1 ==> GetHeight(d) >= 1
    decreases |ops|
  {
    if ops == [] then db
    else
      StepKeeps(env, db, ops[0]);
      assert forall op :: op in ops[1..] ==> op in ops;
      Run(env, Step(env, db, ops[0]), ops[1..])
  }

  /** Blocks that claim a positive height never bring in a second genesis block. */
  lemma {:induction false} HigherAllowed<S>(env: Env<S>, db: Db<S>, ops: seq<Op>)
    requires Running(env, db) && forall op :: op in ops && op.AddBlock? ==> op.bl.height > 0
    ensures AllAllowed(env, db, ops)
    decreases |ops|
  {
    hide Running, Step;
    if ops != [] {
      StepKeeps(env, db, ops[0]);
      HigherAllowed(env, Step(env, db, ops[0]), ops[1..]);
    }
  }

  const EMPTY_BLOCKS: map<nat, Stored> := map[]

  function Fresh<S>(): Db<S> {
    Db(EMPTY_BLOCKS, [], {}, [])
  }

  lemma {:induction false} FreshInv<S>(env: Env<S>)
    requires env.Valid()
    ensures Inv(env, Fresh())
  {
  }

  lemma {:induction false} GenesisStarts<S>(env: Env<S>, g: Block)
    requires env.Valid() && g.height == 0 && g.tips == [] && env.exec(env.genesis, g).Some?
    ensures Inv(env, Fresh()) && Running(env, Add(env, Fresh(), g, true).0)
    ensures Add(env, Fresh(), g, true).1 == Added && Add(env, Fresh(), g, true).0.topo[0].blid == env.hash(g)
  {
    FreshInv(env);
    var db := Fresh();
    assert Check(env, db, g, true) == Added;
    var d1 := StoreBlock(env, db, g, 0);
    var s := Execute(env, d1, g).value;
    CommittedLinked(env, db, g, s);
    AddKeepsInv(env, db, g, true);
    var t := Fix(env.hash, Committed(env, d1, g, s), [], g, 1);
    assert t == [Rec(env.hash(g), 1, 0)];
    CountIs(t, 1);
  }

  ghost function Started<S>(env: Env<S>, g: Block): (d: Db<S>)
    requires env.Valid() && g.height == 0 && g.tips == [] && env.exec(env.genesis, g).Some?
    ensures Running(env, d) && d.topo[0].blid == env.hash(g)
  {
    GenesisStarts(env, g);
    Add(env, Fresh(), g, true).0
  }

  /** From a fresh database and its genesis block, whatever blocks are added, in any order, on whatever
      branch, and whatever is rewound: the records hold one chain of executed blocks from that genesis block,
      the top of which is a tip, and the state recorded at every height is the replay of the recorded blocks. */
  lemma {:induction false} EveryRun<S>(env: Env<S>, g: Block, ops: seq<Op>, i: nat)
    requires env.Valid() && g.height == 0 && g.tips == [] && env.exec(env.genesis, g).Some?
    requires AllAllowed(env, Started(env, g), ops)
    ensures var d := Run(env, Started(env, g), ops);
      && Running(env, d) && d.topo[0].blid == env.hash(g) && d.topo[Count(d.topo) - 1].blid in d.tips
      && (i < Count(d.topo) ==>
            && RecordOk(d, d.topo, i) && RecordsOk(d, d.topo, i + 1) && 1 <= d.topo[i].version <= |d.snaps|
            && Replay(env, d, i) == Some(d.snaps[d.topo[i].version - 1]))
  {
    hide Run, Started, Executed;
    var d := Run(env, Started(env, g), ops);
    if i < Count(d.topo) {
      RecordsEach(d, d.topo, Count(d.topo));
      SnapshotIsReplay(env, d, i);
    }
  }

  /** The first call that is not allowed breaks the chain. */
  lemma {:induction false} NotAllowedBreaks<S>(env: Env<S>, db: Db<S>, ops: seq<Op>, op: Op)
    requires Running(env, db) && AllAllowed(env, db, ops) && op.AddBlock?
    ensures var d := Run(env, db, ops);
      Allowed(env, d, op) <==> Inv(env, Add(env, d, op.bl, op.verdict).0)
  {
    hide Run, Inv, Add, Check, OtherGenesis, AllAllowed;
    var d := Run(env, db, ops);
    assert Inv(env, d);
    if op.bl.height == 0 { SecondGenesisAccepted(env, d, op.bl, op.verdict); } else { HigherKeeps(env, d, op.bl, op.verdict); }
  }

  lemma HigherKeeps<S>(env: Env<S>, db: Db<S>, bl: Block, verdict: bool)
    requires Inv(env, db) && bl.height > 0
    ensures !OtherGenesis(env, db, bl, verdict) && Inv(env, Add(env, db, bl, verdict).0)
  {
    hide Inv, Add, Check;
    AddKeepsInv(env, db, bl, verdict);
  }

  // ---------- a chain that breaks ----------

  /** Every pair of numbers has its own number. */
  function Pair(a: nat, b: nat): (n: nat)
    ensures n > 0
  {
    Positive(Pow2(a), 2 * b + 1);
    Pow2(a) * (2 * b + 1)
  }

  lemma Positive(x: nat, y: nat)
    requires x > 0 && y > 0
    ensures x * y > 0
  {
  }

  lemma {:induction false} PairInjective(a: nat, b: nat, c: nat, d: nat)
    requires Pair(a, b) == Pair(c, d)
    ensures a == c && b == d
    decreases a + c
  {
    if a > 0 { Doubled(a, b); }
    if c > 0 { Doubled(c, d); }
    if a > 0 && c > 0 { PairInjective(a - 1, b, c - 1, d); }
  }

  lemma Doubled(a: nat, b: nat)
    requires a > 0
    ensures Pair(a, b) == 2 * Pair(a - 1, b)
  {
    assert Pow2(a) == 2 * Pow2(a - 1);
    Thrice(Pow2(a - 1), 2 * b + 1);
  }

  lemma Thrice(x: nat, y: nat)
    ensures 2 * x * y == 2 * (x * y)
  {
  }

  function SeqNumber(s: seq<nat>): nat {
    if s == [] then 0 else Pair(SeqNumber(s[1..]), s[0])
  }

  lemma {:induction false} SeqInjective(s: seq<nat>, t: seq<nat>)
    requires SeqNumber(s) == SeqNumber(t)
    ensures s == t
    decreases |s|
  {
    hide Pair;
    if s != [] && t != [] {
      PairInjective(SeqNumber(s[1..]), s[0], SeqNumber(t[1..]), t[0]);
      SeqInjective(s[1..], t[1..]);
      assert s == [s[0]] + s[1..] && t == [t[0]] + t[1..];
    }
  }

  function BlockNumber(b: Block): nat {
    Pair(b.height, Pair(SeqNumber(b.tips), b.body))
  }

  /** An environment in which ids never collide, and a state that counts blocks. */
  function CountingEnv(): Env<nat> {
    Env(b => BlockNumber(b), OneMoreBlock, 0)
  }

  function OneMoreBlock(s: nat, b: Block): Option<nat> {
    Some(s + 1)
  }

  lemma {:induction false} CountingValid()
    ensures CountingEnv().Valid()
  {
    hide Pair;
    forall a: Block, b: Block | BlockNumber(a) == BlockNumber(b) ensures a == b {
      PairInjective(a.height, Pair(SeqNumber(a.tips), a.body), b.height, Pair(SeqNumber(b.tips), b.body));
      PairInjective(SeqNumber(a.tips), a.body, SeqNumber(b.tips), b.body);
      SeqInjective(a.tips, b.tips);
    }
  }

  /** After its genesis block, a node accepts another one, and the chain is broken. */
  lemma {:induction false} SecondGenesisReached()
    ensures var env, g, h := CountingEnv(), Block(0, [], 0), Block(0, [], 1);
      && env.Valid() && Running(env, Started(env, g))
      && Add(env, Started(env, g), h, true).1 == Added && !Inv(env, Add(env, Started(env, g), h, true).0)
  {
    hide BlockNumber, Started, Add, Check;
    CountingValid();
    var env, g, h := CountingEnv(), Block(0, [], 0), Block(0, [], 1);
    var d := Started(env, g);
    KnownGenesis(env, d, h);
    SecondGenesisAccepted(env, d, h, true);
  }

  // ---------- agreement ----------

  /** Two nodes whose records agree at height i agree on the block and on the state at every height up to i,
      whatever each of them has seen besides. */
  lemma {:induction false} SameBlockSameState<S>(env: Env<S>, a: Db<S>, b: Db<S>, i: nat, j: nat)
    requires Inv(env, a) && Inv(env, b) && j <= i < Count(a.topo) && i < Count(b.topo)
    requires a.topo[i].blid == b.topo[i].blid
    ensures a.topo[j].blid == b.topo[j].blid
    ensures 1 <= a.topo[j].version <= |a.snaps| && 1 <= b.topo[j].version <= |b.snaps|
    ensures a.snaps[a.topo[j].version - 1] == b.snaps[b.topo[j].version - 1]
    decreases i
  {
    hide InReach, OneGenesis, TipsOk, Executed, Count;
    if j < i {
      assert RecordOk(a, a.topo, i) && RecordOk(b, b.topo, i);
      assert env.hash(a.blocks[a.topo[i].blid].bl) == env.hash(b.blocks[b.topo[i].blid].bl);
      SameBlockSameState(env, a, b, i - 1, j);
    } else {
      SnapshotIsReplay(env, a, i);
      SnapshotIsReplay(env, b, i);
      SameReplay(env, a, b, i);
    }
  }

  lemma {:induction false} SameReplay<S>(env: Env<S>, a: Db<S>, b: Db<S>, i: nat)
    requires Inv(env, a) && Inv(env, b) && i < Count(a.topo) && i < Count(b.topo) && a.topo[i].blid == b.topo[i].blid
    ensures RecordsOk(a, a.topo, i + 1) && RecordsOk(b, b.topo, i + 1) && Replay(env, a, i) == Replay(env, b, i)
    decreases i
  {
    hide InReach, OneGenesis, TipsOk, Executed, Count;
    assert RecordOk(a, a.topo, i) && RecordOk(b, b.topo, i);
    assert env.hash(a.blocks[a.topo[i].blid].bl) == env.hash(b.blocks[b.topo[i].blid].bl);
    if i > 0 {
      SameReplay(env, a, b, i - 1);
    }
  }
}
