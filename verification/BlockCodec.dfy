/** Blocks as bytes, and the final miniblock built over them. */
module BlockCodec {
  import opened ChainState
  import opened Variables
  import opened Ledger
  import opened MiniBlocks
  import M = MiniBlockCodec

  const HASH := 32
  const ADDRESS := 33

  /** The miner's transaction, which names the account that is paid. */
  datatype MinerTx = Premine(source: nat, dest: nat, value: nat, address: Bytes) | Coinbase(source: nat, dest: nat, address: Bytes)

  datatype FullBlock = FullBlock(major: nat, minor: nat, timestamp: nat, height: nat, miner: MinerTx, proof: Bytes,
    tips: seq<Bytes>, minis: seq<MiniBlock>, txs: seq<Bytes>)

  ghost predicate TxTyped(t: MinerTx) {
    t.source < UINT64 && t.dest < UINT64 && |t.address| == ADDRESS && (t.Premine? ==> t.value < UINT64)
  }

  ghost predicate HashesTyped(hs: seq<Bytes>) {
    |hs| < UINT64 && forall i :: 0 <= i < |hs| ==> |hs[i]| == HASH
  }

  ghost predicate MinisTyped(ms: seq<MiniBlock>) {
    forall i :: 0 <= i < |ms| ==> M.Typed(ms[i]) && SanityCheck(ms[i])
  }

  ghost predicate Typed(b: FullBlock) {
    && b.major < UINT64 && b.minor < UINT64 && b.timestamp < UINT64 && b.height < UINT64
    && TxTyped(b.miner) && |b.proof| == HASH && HashesTyped(b.tips) && MinisTyped(b.minis) && |b.minis| < UINT64 && HashesTyped(b.txs)
  }

  // ---------- writing ----------

  function TxBytes(t: MinerTx): Bytes {
    match t
    case Premine(source, dest, value, address) =>
      PutUvarint(1) + (PutUvarint(source) + (PutUvarint(dest) + (PutUvarint(0) + (PutUvarint(value) + address))))
    case Coinbase(source, dest, address) =>
      PutUvarint(1) + (PutUvarint(source) + (PutUvarint(dest) + (PutUvarint(2) + address)))
  }

  function Joined(hs: seq<Bytes>): Bytes {
    if hs == [] then [] else hs[0] + Joined(hs[1..])
  }

  function JoinedMinis(ms: seq<MiniBlock>): Bytes
    requires MinisTyped(ms)
  {
    if ms == [] then [] else M.Serialize(ms[0]).value + JoinedMinis(ms[1..])
  }

  /** The bytes of a block, with the given miniblocks. */
  function BytesWith(b: FullBlock, ms: seq<MiniBlock>): Bytes
    requires MinisTyped(ms)
  {
    PutUvarint(b.major) + (PutUvarint(b.minor) + (PutBE(b.timestamp, 8) + (PutUvarint(b.height) + (TxBytes(b.miner) + (b.proof
    + (PutUvarint(|b.tips|) + (Joined(b.tips) + (PutUvarint(|ms|) + (JoinedMinis(ms)
    + (PutUvarint(|b.txs|) + Joined(b.txs)))))))))))
  }

  function Serialize(b: FullBlock): Bytes
    requires Typed(b)
  {
    BytesWith(b, b.minis)
  }

  function SerializeWithoutLastMiniBlock(b: FullBlock): Bytes
    requires Typed(b)
  {
    BytesWith(b, if b.minis == [] then [] else b.minis[..|b.minis| - 1])
  }

  // ---------- reading ----------

  function ReadUvarint(buf: Bytes): (r: Option<(nat, nat, Bytes)>)
    ensures r.Some? ==> 0 < r.value.1 <= |buf| && r.value.2 == buf[r.value.1..]
  {
    match Uvarint(buf, 0)
    case None => None
    case Some(r) =>
      UvarintWithin(buf, 0);
      Some((r.0, r.1, buf[r.1..]))
  }

  lemma {:induction false} UvarintWithin(b: Bytes, i: nat)
    requires Uvarint(b, i).Some?
    ensures 0 < Uvarint(b, i).value.1 <= |b|
    decreases |b|
  {
    if b[0] >= 128 { UvarintWithin(b[1..], i + 1); }
  }

  /** The miner's transaction at the start of the buffer. */
  function ReadTx(buf: Bytes): (r: Option<MinerTx>)
    ensures r.Some? ==> |r.value.address| == ADDRESS
  {
    match ReadUvarint(buf)
    case None => None
    case Some(version) =>
      if version.0 != 1 then None
      else
        match ReadUvarint(version.2)
        case None => None
        case Some(source) =>
          match ReadUvarint(source.2)
          case None => None
          case Some(dest) =>
            match ReadUvarint(dest.2)
            case None => None
            case Some(kind) =>
              if kind.0 == 0 then
                match ReadUvarint(kind.2)
                case None => None
                case Some(value) =>
                  if |value.2| < ADDRESS then None else Some(Premine(source.0, dest.0, value.0, value.2[..ADDRESS]))
              else if kind.0 == 2 then
                if |kind.2| < ADDRESS then None else Some(Coinbase(source.0, dest.0, kind.2[..ADDRESS]))
              else None
  }

  function ReadHashes(buf: Bytes, n: nat): Option<(seq<Bytes>, Bytes)> {
    if n == 0 then Some(([], buf))
    else if |buf| < HASH then None
    else
      match ReadHashes(buf[HASH..], n - 1)
      case None => None
      case Some(r) => Some(([buf[..HASH]] + r.0, r.1))
  }

  function ReadMinis(buf: Bytes, n: nat): Option<(seq<MiniBlock>, Bytes)> {
    if n == 0 then Some(([], buf))
    else if |buf| < M.MINIBLOCK_SIZE then None
    else
      match M.Deserialize(buf[..M.MINIBLOCK_SIZE])
      case None => None
      case Some(m) =>
        match ReadMinis(buf[M.MINIBLOCK_SIZE..], n - 1)
        case None => None
        case Some(r) => Some(([m] + r.0, r.1))
  }

  /** From the tips on. */
  function ReadLists(buf: Bytes): Option<(seq<Bytes>, seq<MiniBlock>, seq<Bytes>)> {
    match ReadUvarint(buf)
    case None => None
    case Some(tipCount) =>
      if tipCount.1 > 1 then None
      else
        match ReadHashes(tipCount.2, tipCount.0)
        case None => None
        case Some(tips) =>
          match ReadUvarint(tips.1)
          case None => None
          case Some(miniCount) =>
            if miniCount.1 > 2 then None
            else
              match ReadMinis(miniCount.2, miniCount.0)
              case None => None
              case Some(minis) =>
                match ReadUvarint(minis.1)
                case None => None
                case Some(txCount) =>
                  match ReadHashes(txCount.2, txCount.0)
                  case None => None
                  case Some(txs) => Some((tips.0, minis.0, txs.0))
  }

  /** The whole block; None where the original gives an error or recovers from a panic. The miner's
      transaction is skipped by the length that it is written with. */
  function Deserialize(buf: Bytes): Option<FullBlock> {
    match ReadUvarint(buf)
    case None => None
    case Some(major) =>
      match ReadUvarint(major.2)
      case None => None
      case Some(minor) =>
        if |minor.2| < 8 then None
        else
          match ReadUvarint(minor.2[8..])
          case None => None
          case Some(height) =>
            match ReadTx(height.2)
            case None => None
            case Some(miner) =>
              if |height.2| < |TxBytes(miner)| + HASH then None
              else
                var rest := height.2[|TxBytes(miner)|..];
                match ReadLists(rest[HASH..])
                case None => None
                case Some(lists) =>
                  Some(FullBlock(major.0, minor.0, GetBE(minor.2[..8]), height.0, miner, rest[..HASH], lists.0, lists.1, lists.2))
  }

  // ---------- round trip ----------

  lemma {:induction false} UvarintPrefix(n: nat, rest: Bytes, i: nat)
    requires i < MAX_VARINT_LEN && n < Room(i)
    ensures Uvarint(PutUvarint(n) + rest, i) == Some((n, |PutUvarint(n)|))
    decreases n
  {
    if n >= 128 {
      var b := PutUvarint(n) + rest;
      assert b[1..] == PutUvarint(n / 128) + rest;
      UvarintPrefix(n / 128, rest, i + 1);
    }
  }

  lemma {:induction false} ReadBack(n: nat, rest: Bytes)
    requires n < UINT64
    ensures ReadUvarint(PutUvarint(n) + rest) == Some((n, |PutUvarint(n)|, rest))
  {
    RoomForAll();
    UvarintPrefix(n, rest, 0);
    assert (PutUvarint(n) + rest)[|PutUvarint(n)|..] == rest;
  }

  lemma ShortCounts(n: nat)
    ensures |PutUvarint(n)| == 1 <==> n < 128
    ensures |PutUvarint(n)| <= 2 <==> n < 16384
  {
    if n >= 128 { assert n < 16384 <==> n / 128 < 128; }
  }

  lemma {:induction false} TxBack(t: MinerTx, rest: Bytes)
    requires TxTyped(t)
    ensures ReadTx(TxBytes(t) + rest) == Some(t)
  {
    hide PutUvarint, ReadUvarint;
    match t
    case Premine(source, dest, value, address) =>
      var r5 := address + rest;
      var r4 := PutUvarint(value) + r5;
      var r3 := PutUvarint(0) + r4;
      var r2 := PutUvarint(dest) + r3;
      var r1 := PutUvarint(source) + r2;
      assert TxBytes(t) + rest == PutUvarint(1) + r1;
      ReadBack(1, r1);
      ReadBack(source, r2);
      ReadBack(dest, r3);
      ReadBack(0, r4);
      ReadBack(value, r5);
      assert r5[..ADDRESS] == address;
    case Coinbase(source, dest, address) =>
      var r4 := address + rest;
      var r3 := PutUvarint(2) + r4;
      var r2 := PutUvarint(dest) + r3;
      var r1 := PutUvarint(source) + r2;
      assert TxBytes(t) + rest == PutUvarint(1) + r1;
      ReadBack(1, r1);
      ReadBack(source, r2);
      ReadBack(dest, r3);
      ReadBack(2, r4);
      assert r4[..ADDRESS] == address;
  }

  lemma {:induction false} HashesBack(hs: seq<Bytes>, rest: Bytes)
    requires forall i :: 0 <= i < |hs| ==> |hs[i]| == HASH
    ensures ReadHashes(Joined(hs) + rest, |hs|) == Some((hs, rest))
    decreases |hs|
  {
    if hs == [] {
      assert Joined(hs) + rest == rest;
    } else {
      var b := Joined(hs) + rest;
      assert b == hs[0] + (Joined(hs[1..]) + rest);
      assert b[..HASH] == hs[0] && b[HASH..] == Joined(hs[1..]) + rest;
      HashesBack(hs[1..], rest);
      assert [hs[0]] + hs[1..] == hs;
    }
  }

  /** What can be read back: version 1, and no more of the key hash than is written. */
  ghost predicate Readable(ms: seq<MiniBlock>) {
    MinisTyped(ms) && forall i :: 0 <= i < |ms| ==> ms[i].version == 1 && M.Trimmed(ms[i]) == ms[i]
  }

  lemma {:induction false} MinisBack(ms: seq<MiniBlock>, rest: Bytes)
    requires Readable(ms)
    ensures ReadMinis(JoinedMinis(ms) + rest, |ms|) == Some((ms, rest))
    decreases |ms|
  {
    hide M.Serialize, M.Deserialize, M.Trimmed, SanityCheck, M.Typed;
    if ms == [] {
      assert JoinedMinis(ms) + rest == rest;
    } else {
      var b := JoinedMinis(ms) + rest;
      var s := M.Serialize(ms[0]).value;
      assert b == s + (JoinedMinis(ms[1..]) + rest);
      assert b[..M.MINIBLOCK_SIZE] == s && b[M.MINIBLOCK_SIZE..] == JoinedMinis(ms[1..]) + rest;
      M.DeserializeSerialize(ms[0], []);
      assert s + [] == s;
      MinisBack(ms[1..], rest);
      assert [ms[0]] + ms[1..] == ms;
    }
  }

  lemma {:induction false} ListsBack(tips: seq<Bytes>, ms: seq<MiniBlock>, txs: seq<Bytes>)
    requires HashesTyped(tips) && MinisTyped(ms) && Readable(ms) && |ms| < UINT64 && HashesTyped(txs)
    ensures ReadLists(PutUvarint(|tips|) + (Joined(tips) + (PutUvarint(|ms|) + (JoinedMinis(ms) + (PutUvarint(|txs|) + Joined(txs))))))
      == if |tips| < 128 && |ms| < 16384 then Some((tips, ms, txs)) else None
  {
    hide PutUvarint, ReadUvarint, Joined, JoinedMinis, ReadHashes, ReadMinis, Readable;
    var r5 := Joined(txs);
    var r4 := PutUvarint(|txs|) + r5;
    var r3 := JoinedMinis(ms) + r4;
    var r2 := PutUvarint(|ms|) + r3;
    var r1 := Joined(tips) + r2;
    ReadBack(|tips|, r1);
    ShortCounts(|tips|);
    HashesBack(tips, r2);
    ReadBack(|ms|, r3);
    ShortCounts(|ms|);
    MinisBack(ms, r4);
    ReadBack(|txs|, r5);
    assert r5 + [] == r5;
    HashesBack(txs, []);
  }

  /** A block with fewer than 128 tips and 16384 miniblocks is read back as it was written; any other is
      refused. */
  lemma {:induction false} DeserializeSerialize(b: FullBlock)
    requires Typed(b) && Readable(b.minis)
    ensures Deserialize(Serialize(b)) == if |b.tips| < 128 && |b.minis| < 16384 then Some(b) else None
  {
    hide PutUvarint, ReadUvarint, Joined, JoinedMinis, ReadLists, Readable, TxBytes, ReadTx, PutBE, GetBE;
    var lists := PutUvarint(|b.tips|) + (Joined(b.tips) + (PutUvarint(|b.minis|) + (JoinedMinis(b.minis) + (PutUvarint(|b.txs|) + Joined(b.txs)))));
    var r5 := b.proof + lists;
    var r4 := TxBytes(b.miner) + r5;
    var r3 := PutUvarint(b.height) + r4;
    var r2 := PutBE(b.timestamp, 8) + r3;
    var r1 := PutUvarint(b.minor) + r2;
    ReadBack(b.major, r1);
    ReadBack(b.minor, r2);
    assert r2[..8] == PutBE(b.timestamp, 8) && r2[8..] == r3;
    EightBytes();
    BEBack(b.timestamp, 8);
    ReadBack(b.height, r4);
    TxBack(b.miner, r5);
    assert r4[|TxBytes(b.miner)|..] == r5;
    assert r5[..HASH] == b.proof && r5[HASH..] == lists;
    ListsBack(b.tips, b.minis, b.txs);
  }

  // ---------- the form of a block ----------

  lemma {:induction false} JoinedAt(hs: seq<Bytes>, i: nat)
    requires i < |hs| && forall k :: 0 <= k < |hs| ==> |hs[k]| == HASH
    ensures |Joined(hs)| == HASH * |hs| && Joined(hs)[HASH * i..HASH * (i + 1)] == hs[i]
    decreases |hs|
  {
    JoinedLength(hs);
    JoinedLength(hs[1..]);
    if i > 0 {
      JoinedAt(hs[1..], i - 1);
      SliceAfter(hs[0], Joined(hs[1..]), HASH * (i - 1), HASH * i);
    }
  }

  lemma {:induction false} JoinedLength(hs: seq<Bytes>)
    requires forall k :: 0 <= k < |hs| ==> |hs[k]| == HASH
    ensures |Joined(hs)| == HASH * |hs|
    decreases |hs|
  {
    if hs != [] { JoinedLength(hs[1..]); }
  }

  lemma {:induction false} MinisLength(ms: seq<MiniBlock>)
    requires MinisTyped(ms)
    ensures |JoinedMinis(ms)| == 48 * |ms|
    decreases |ms|
  {
    if ms != [] { MinisLength(ms[1..]); }
  }

  lemma {:induction false} MinisAt(ms: seq<MiniBlock>, i: nat)
    requires MinisTyped(ms) && i < |ms|
    ensures |JoinedMinis(ms)| == 48 * |ms| && JoinedMinis(ms)[48 * i..48 * (i + 1)] == M.Serialize(ms[i]).value
    decreases |ms|
  {
    hide M.Serialize;
    MinisLength(ms);
    MinisLength(ms[1..]);
    if i > 0 {
      MinisAt(ms[1..], i - 1);
      SliceAfter(M.Serialize(ms[0]).value, JoinedMinis(ms[1..]), 48 * (i - 1), 48 * i);
    }
  }

  lemma SliceAfter(a: Bytes, b: Bytes, lo: nat, hi: nat)
    requires lo <= hi <= |b|
    ensures (a + b)[|a| + lo..|a| + hi] == b[lo..hi]
  {
  }

  /** All numbers that are written as varints need one byte. */
  ghost predicate Short(b: FullBlock) {
    && b.major < 128 && b.minor < 128 && b.height < 128 && b.miner.source < 128 && b.miner.dest < 128
    && |b.tips| < 128 && |b.minis| < 128 && |b.txs| < 128
  }

  /** What stands before the lists, in a block that pays its miner by a coinbase. */
  function Head(b: FullBlock): Bytes
    requires Typed(b) && Short(b) && b.miner.Coinbase?
  {
    [b.major, b.minor] + PutBE(b.timestamp, 8) + [b.height, 1, b.miner.source, b.miner.dest, 2] + b.miner.address + b.proof
  }

  function Lists(b: FullBlock): Bytes
    requires Typed(b) && Short(b)
  {
    [|b.tips|] + Joined(b.tips) + [|b.minis|] + JoinedMinis(b.minis) + [|b.txs|] + Joined(b.txs)
  }

  lemma {:induction false} HeadAndLists(b: FullBlock)
    requires Typed(b) && Short(b) && b.miner.Coinbase?
    ensures Serialize(b) == Head(b) + Lists(b) && |Head(b)| == 80
  {
    hide PutBE, Joined, JoinedMinis, MinisTyped, HashesTyped;
    assert TxBytes(b.miner) == [1, b.miner.source, b.miner.dest, 2] + b.miner.address;
  }

  /** The numbers, the miner and the proof of a block that pays by a coinbase, if all its numbers are short. */
  lemma {:induction false} HeadForm(b: FullBlock)
    requires Typed(b) && Short(b) && b.miner.Coinbase?
    ensures var s := Serialize(b);
      && |s| > 80 && s[0] == b.major && s[1] == b.minor && GetBE(s[2..10]) == b.timestamp && s[10] == b.height
      && s[11] == 1 && s[12] == b.miner.source && s[13] == b.miner.dest && s[14] == 2 && s[15..48] == b.miner.address && s[48..80] == b.proof
  {
    hide PutBE, GetBE, Serialize, Lists;
    HeadAndLists(b);
    var s := Serialize(b);
    assert s[..80] == Head(b) && |Lists(b)| > 0 by { ListsSome(b); }
    EightBytes();
    BEBack(b.timestamp, 8);
    assert s[2..10] == PutBE(b.timestamp, 8);
  }

  lemma ListsSome(b: FullBlock)
    requires Typed(b) && Short(b)
    ensures |Lists(b)| > 0
  {
  }

  /** The tips, miniblocks and transactions of such a block, each list behind its length. */
  lemma {:induction false} ListsForm(b: FullBlock)
    requires Typed(b) && Short(b) && b.miner.Coinbase?
    ensures |Serialize(b)| == 83 + 32 * |b.tips| + 48 * |b.minis| + 32 * |b.txs|
    ensures var s, minis, txs := Serialize(b)[80..], 1 + 32 * |b.tips|, 2 + 32 * |b.tips| + 48 * |b.minis|;
      && s[0] == |b.tips| && (forall i :: 0 <= i < |b.tips| ==> s[1..minis][32 * i..32 * (i + 1)] == b.tips[i])
      && s[minis] == |b.minis| && (forall i :: 0 <= i < |b.minis| ==> s[minis + 1..txs][48 * i..48 * (i + 1)] == M.Serialize(b.minis[i]).value)
      && s[txs] == |b.txs| && (forall i :: 0 <= i < |b.txs| ==> s[txs + 1..][32 * i..32 * (i + 1)] == b.txs[i])
  {
    hide PutBE, Joined, JoinedMinis, M.Serialize, M.Typed, SanityCheck, Serialize, Head;
    HeadAndLists(b);
    var s, minis, txs := Serialize(b)[80..], 1 + 32 * |b.tips|, 2 + 32 * |b.tips| + 48 * |b.minis|;
    assert s == Lists(b);
    JoinedLength(b.tips);
    JoinedLength(b.txs);
    MinisLength(b.minis);
    assert s[1..minis] == Joined(b.tips) && s[minis + 1..txs] == JoinedMinis(b.minis) && s[txs + 1..] == Joined(b.txs);
    forall i | 0 <= i < |b.tips| ensures s[1..minis][32 * i..32 * (i + 1)] == b.tips[i] { JoinedAt(b.tips, i); }
    forall i | 0 <= i < |b.minis| ensures s[minis + 1..txs][48 * i..48 * (i + 1)] == M.Serialize(b.minis[i]).value { MinisAt(b.minis, i); }
    forall i | 0 <= i < |b.txs| ensures s[txs + 1..][32 * i..32 * (i + 1)] == b.txs[i] { JoinedAt(b.txs, i); }
  }

  /** A premine has kind 0 and a value before the address. */
  lemma PremineForm(t: MinerTx)
    requires t.Premine? && t.source < 128 && t.dest < 128 && t.value < 128
    ensures TxBytes(t) == [1, t.source, t.dest, 0, t.value] + t.address
  {
  }

  // ---------- writing and reading in place ----------

  lemma {:induction false} JoinedNext(hs: seq<Bytes>, i: nat)
    requires i < |hs|
    ensures Joined(hs[..i + 1]) == Joined(hs[..i]) + hs[i]
  {
    if i > 0 {
      assert hs[1..][..i] == hs[..i + 1][1..] && hs[1..][..i - 1] == hs[..i][1..];
      JoinedNext(hs[1..], i - 1);
    } else {
      assert hs[..1][1..] == [];
    }
  }

  lemma {:induction false} JoinedMinisNext(ms: seq<MiniBlock>, i: nat)
    requires i < |ms| && MinisTyped(ms)
    ensures JoinedMinis(ms[..i + 1]) == JoinedMinis(ms[..i]) + M.Serialize(ms[i]).value
  {
    hide M.Serialize, M.Typed, SanityCheck;
    if i > 0 {
      assert ms[1..][..i] == ms[..i + 1][1..] && ms[1..][..i - 1] == ms[..i][1..];
      JoinedMinisNext(ms[1..], i - 1);
    } else {
      assert ms[..1][1..] == [];
    }
  }

  method WriteHashes(out: Bytes, hs: seq<Bytes>) returns (r: Bytes)
    ensures r == out + Joined(hs)
  {
    r := out;
    var i := 0;
    while i < |hs|
      invariant 0 <= i <= |hs| && r == out + Joined(hs[..i])
    {
      JoinedNext(hs, i);
      r := r + hs[i];
      i := i + 1;
    }
    assert hs[..i] == hs;
  }

  /** Writes a block, with or without its last miniblock. */
  method WriteBlock(b: FullBlock, skipLastMiniBlock: bool) returns (r: Bytes)
    requires Typed(b)
    ensures r == if skipLastMiniBlock then SerializeWithoutLastMiniBlock(b) else Serialize(b)
  {
    hide PutUvarint, PutBE, TxBytes, Joined, JoinedMinis, TxTyped, HashesTyped, M.Serialize, M.Typed, SanityCheck;
    r := PutUvarint(b.major);
    r := r + PutUvarint(b.minor);
    r := r + PutBE(b.timestamp, 8);
    r := r + PutUvarint(b.height);
    r := r + TxBytes(b.miner);
    r := r + b.proof;
    ghost var head := r;
    r := r + PutUvarint(|b.tips|);
    r := WriteHashes(r, b.tips);
    var length := if skipLastMiniBlock && b.minis != [] then |b.minis| - 1 else |b.minis|;
    r := r + PutUvarint(length);
    ghost var ms := b.minis[..length];
    ghost var before := r;
    var i := 0;
    NoMinis(b.minis);
    while i < length
      invariant 0 <= i <= length && r == before + JoinedMinis(b.minis[..i])
    {
      JoinedMinisNext(b.minis, i);
      r := r + M.Serialize(b.minis[i]).value;
      i := i + 1;
    }
    r := r + PutUvarint(|b.txs|);
    r := WriteHashes(r, b.txs);
    Flattened(b, ms, r);
    assert !skipLastMiniBlock ==> ms == b.minis;
  }

  lemma NoMinis(ms: seq<MiniBlock>)
    ensures JoinedMinis(ms[..0]) == []
  {
  }

  lemma Flattened(b: FullBlock, ms: seq<MiniBlock>, r: Bytes)
    requires MinisTyped(ms)
    requires r == PutUvarint(b.major) + PutUvarint(b.minor) + PutBE(b.timestamp, 8) + PutUvarint(b.height) + TxBytes(b.miner) + b.proof
      + PutUvarint(|b.tips|) + Joined(b.tips) + PutUvarint(|ms|) + JoinedMinis(ms) + PutUvarint(|b.txs|) + Joined(b.txs)
    ensures r == BytesWith(b, ms)
  {
    hide PutUvarint, PutBE, TxBytes, Joined, JoinedMinis, MinisTyped;
  }

  /** What has been read, in front of what remains to be read. */
  function After<T>(read: seq<T>, r: Option<(seq<T>, Bytes)>): Option<(seq<T>, Bytes)> {
    match r
    case None => None
    case Some(x) => Some((read + x.0, x.1))
  }

  lemma AfterNone<T>(r: Option<(seq<T>, Bytes)>)
    ensures After([], r) == r
  {
    if r.Some? { assert [] + r.value.0 == r.value.0; }
  }

  lemma AfterOne<T>(read: seq<T>, x: T, r: Option<(seq<T>, Bytes)>)
    ensures After(read, After([x], r)) == After(read + [x], r)
  {
    if r.Some? { assert read + ([x] + r.value.0) == read + [x] + r.value.0; }
  }

  method ReadHashList(buf: Bytes, n: nat) returns (r: Option<(seq<Bytes>, Bytes)>)
    ensures r == ReadHashes(buf, n)
  {
    var rest := buf;
    var hs: seq<Bytes> := [];
    var i := 0;
    AfterNone(ReadHashes(buf, n));
    while i < n
      invariant 0 <= i <= n
      invariant ReadHashes(buf, n) == After(hs, ReadHashes(rest, n - i))
    {
      if |rest| < HASH { return None; }
      AfterOne(hs, rest[..HASH], ReadHashes(rest[HASH..], n - i - 1));
      hs, rest := hs + [rest[..HASH]], rest[HASH..];
      i := i + 1;
    }
    assert hs + [] == hs;
    return Some((hs, rest));
  }

  method ReadMiniList(buf: Bytes, n: nat) returns (r: Option<(seq<MiniBlock>, Bytes)>)
    ensures r == ReadMinis(buf, n)
  {
    hide M.Deserialize;
    var rest := buf;
    var ms: seq<MiniBlock> := [];
    var i := 0;
    AfterNone(ReadMinis(buf, n));
    while i < n
      invariant 0 <= i <= n
      invariant ReadMinis(buf, n) == After(ms, ReadMinis(rest, n - i))
    {
      if |rest| < M.MINIBLOCK_SIZE { return None; }
      var m := M.Deserialize(rest[..M.MINIBLOCK_SIZE]);
      if m == None { return None; }
      AfterOne(ms, m.value, ReadMinis(rest[M.MINIBLOCK_SIZE..], n - i - 1));
      ms, rest := ms + [m.value], rest[M.MINIBLOCK_SIZE..];
      i := i + 1;
    }
    assert ms + [] == ms;
    return Some((ms, rest));
  }

  /** Reads a block, field by field. */
  method ReadBlock(bytes: Bytes) returns (r: Option<FullBlock>)
    ensures r == Deserialize(bytes)
  {
    hide ReadUvarint, ReadHashes, ReadMinis, ReadTx, TxBytes, GetBE;
    var major := ReadUvarint(bytes);
    if major == None { return None; }
    var minor := ReadUvarint(major.value.2);
    if minor == None { return None; }
    var buf := minor.value.2;
    if |buf| < 8 { return None; }
    var timestamp := GetBE(buf[..8]);
    var height := ReadUvarint(buf[8..]);
    if height == None { return None; }
    buf := height.value.2;
    var miner := ReadTx(buf);
    if miner == None { return None; }
    if |buf| < |TxBytes(miner.value)| + HASH { return None; }
    buf := buf[|TxBytes(miner.value)|..];
    var proof := buf[..HASH];
    buf := buf[HASH..];
    var tipCount := ReadUvarint(buf);
    if tipCount == None || tipCount.value.1 > 1 { return None; }
    var tips := ReadHashList(tipCount.value.2, tipCount.value.0);
    if tips == None { return None; }
    var miniCount := ReadUvarint(tips.value.1);
    if miniCount == None || miniCount.value.1 > 2 { return None; }
    var minis := ReadMiniList(miniCount.value.2, miniCount.value.0);
    if minis == None { return None; }
    var txCount := ReadUvarint(minis.value.1);
    if txCount == None { return None; }
    var txs := ReadHashList(txCount.value.2, txCount.value.0);
    if txs == None { return None; }
    return Some(FullBlock(major.value.0, minor.value.0, timestamp, height.value.0, miner.value, proof, tips.value.0, minis.value.0, txs.value.0));
  }

  // ---------- the final miniblock ----------

  /** Leaving out the miniblock that was just appended gives the block as it was. */
  lemma {:induction false} WithoutLast(b: FullBlock, m: MiniBlock)
    requires Typed(b) && Typed(b.(minis := b.minis + [m]))
    ensures SerializeWithoutLastMiniBlock(b.(minis := b.minis + [m])) == Serialize(b)
  {
    assert (b.minis + [m])[..|b.minis|] == b.minis;
  }

  /** A miniblock over a block template: once the others are complete, it is final and carries the
      template's hash. */
  function ConvertBlockToMiniblock(b: FullBlock, sha: Bytes -> Bytes, timestamp: nat, minerKey: Bytes, nonce: (nat, nat, nat)): (m: MiniBlock)
    requires Typed(b) && 1 <= |b.tips| <= 2
  {
    var past := (GetBE(b.tips[0][..4]), if |b.tips| == 2 then GetBE(b.tips[1][..4]) else 0);
    if |b.minis| < OTHERS then
      MiniBlock(1, false, false, |b.tips|, timestamp % 0x1_0000, b.height, past, minerKey, 0, nonce)
    else
      MiniBlock(1, true, true, |b.tips|, timestamp % 0x1_0000, b.height, past, sha(Serialize(b)), 0, nonce)
  }

  /** The check of a complete block's last miniblock. */
  method VerifyHash(b: FullBlock, sha: Bytes -> Bytes) returns (ok: bool)
    requires Typed(b) && b.minis != [] && forall s :: |sha(s)| == HASH
    ensures ok <==> HeaderMatches(b, sha)
  {
    var last := b.minis[|b.minis| - 1];
    if !last.highDiff { return false; }
    if !last.final { return false; }
    var hash := sha(SerializeWithoutLastMiniBlock(b));
    var i := 0;
    while i < 16
      invariant 0 <= i <= 16
      invariant forall j :: 0 <= j < i ==> last.keyHash[j] == hash[j]
    {
      if last.keyHash[i] != hash[i] { return false; }
      i := i + 1;
    }
    return true;
  }

  ghost predicate HeaderMatches(b: FullBlock, sha: Bytes -> Bytes)
    requires Typed(b) && b.minis != [] && forall s :: |sha(s)| == HASH
  {
    var last := b.minis[|b.minis| - 1];
    last.highDiff && last.final && forall j :: 0 <= j < 16 ==> last.keyHash[j] == sha(SerializeWithoutLastMiniBlock(b))[j]
  }

  /** The header matches if the last miniblock is final and carries the first 16 bytes of the hash. */
  lemma {:induction false} MatchMeans(b: FullBlock, sha: Bytes -> Bytes)
    requires Typed(b) && b.minis != [] && forall s :: |sha(s)| == HASH
    ensures var last, h := b.minis[|b.minis| - 1], sha(SerializeWithoutLastMiniBlock(b));
      HeaderMatches(b, sha) <==> last.highDiff && last.final && last.keyHash[..16] == h[..16]
  {
    hide SerializeWithoutLastMiniBlock;
    var last, h := b.minis[|b.minis| - 1], sha(SerializeWithoutLastMiniBlock(b));
    if last.keyHash[..16] == h[..16] {
      forall j | 0 <= j < 16 ensures last.keyHash[j] == h[j] { assert last.keyHash[..16][j] == h[..16][j]; }
    }
  }

  /** Up to nine miniblocks are open: each belongs to the template's height and parent, and names its miner. */
  lemma {:induction false} OpenBelongs(b: FullBlock, sha: Bytes -> Bytes, timestamp: nat, minerKey: Bytes, nonce: (nat, nat, nat))
    requires Typed(b) && |b.tips| == 1
    ensures var m := ConvertBlockToMiniblock(b, sha, timestamp, minerKey, nonce);
      && Belongs(m, b.height, GetBE(b.tips[0][..4])) && m.nonce == nonce && m.version == 1
      && (|b.minis| < 9 ==> !m.final && !m.highDiff && m.keyHash == minerKey)
      && (|b.minis| >= 9 ==> m.final && m.highDiff && m.keyHash == sha(Serialize(b)))
  {
    hide GetBE;
  }

  /** The final miniblock built for a template completes it to a block that passes the check, also after it
      has been sent as bytes. */
  lemma {:induction false} FinalPasses(b: FullBlock, sha: Bytes -> Bytes, timestamp: nat, minerKey: Bytes, nonce: (nat, nat, nat))
    requires Typed(b) && |b.tips| == 1 && |b.minis| >= OTHERS && b.height < HEIGHT_LIMIT && |b.minis| + 1 < UINT64
    requires nonce.0 < 0x1_0000_0000 && nonce.1 < 0x1_0000_0000 && nonce.2 < 0x1_0000_0000
    requires forall s :: |sha(s)| == HASH
    ensures var m := ConvertBlockToMiniblock(b, sha, timestamp, minerKey, nonce);
      && M.Typed(m) && SanityCheck(m)
      && Typed(b.(minis := b.minis + [m])) && HeaderMatches(b.(minis := b.minis + [m]), sha)
      && Typed(b.(minis := b.minis + [M.Trimmed(m)])) && HeaderMatches(b.(minis := b.minis + [M.Trimmed(m)]), sha)
  {
    hide Serialize, SerializeWithoutLastMiniBlock, TxTyped;
    var m := ConvertBlockToMiniblock(b, sha, timestamp, minerKey, nonce);
    GetBEBound(b.tips[0][..4]);
    M.SmallPowers();
    WithoutLast(b, m);
    WithoutLast(b, M.Trimmed(m));
  }
}
