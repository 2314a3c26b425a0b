/** The 48-byte form of a miniblock: version, number of parents and two marks in the first byte, then time,
    height, the first bytes of the parents, half of the key hash, flags and nonces. */
module MiniBlockCodec {
  import opened ChainState
  import opened Variables
  import opened Ledger
  import opened Powers
  import opened MiniBlocks

  const MINIBLOCK_SIZE := 48

  /** The ranges of the fields. */
  ghost predicate Typed(m: MiniBlock) {
    && m.version < 0x100 && m.pastCount < 0x100 && m.timestamp < 0x1_0000 && m.height < UINT64
    && m.past.0 < 0x1_0000_0000 && m.past.1 < 0x1_0000_0000 && |m.keyHash| == 32
    && (forall i :: 0 <= i < 32 ==> m.keyHash[i] < 256)
    && m.flags < 0x1_0000_0000 && m.nonce.0 < 0x1_0000_0000 && m.nonce.1 < 0x1_0000_0000 && m.nonce.2 < 0x1_0000_0000
  }

  /** Four fields in one byte. */
  function VersionByte(m: MiniBlock): (b: Byte)
    requires SanityCheck(m)
  {
    m.version + 64 * m.pastCount + (if m.highDiff then 16 else 0) + if m.final then 32 else 0
  }

  const EMPTY_HASH: Bytes := [0, 0, 0, 0, 0, 0, 0, 0, 0, 0, 0, 0, 0, 0, 0, 0]

  function KeyBytes(m: MiniBlock): (b: Bytes)
    requires |m.keyHash| == 32 && forall i :: 0 <= i < 32 ==> m.keyHash[i] < 256
    ensures |b| == 16 && forall i :: 0 <= i < 16 ==> b[i] == m.keyHash[i]
  {
    seq(16, i requires 0 <= i < 16 => m.keyHash[i])
  }

  /** None if the miniblock is not sane, where the original panics. */
  function Serialize(m: MiniBlock): (b: Option<Bytes>)
    requires Typed(m)
    ensures b.Some? <==> SanityCheck(m)
    ensures b.Some? ==> |b.value| == MINIBLOCK_SIZE
  {
    if !SanityCheck(m) then None
    else Some(
      [VersionByte(m)] + PutBE(m.timestamp, 2) + PutBE(m.height, 5) + PutBE(m.past.0, 4) + PutBE(m.past.1, 4) + KeyBytes(m)
      + PutBE(m.flags, 4) + PutBE(m.nonce.0, 4) + PutBE(m.nonce.1, 4) + PutBE(m.nonce.2, 4))
  }

  /** Reads the first 48 bytes; the last 16 bytes of the key hash are not part of them and become zero. */
  function Deserialize(b: Bytes): Option<MiniBlock> {
    if |b| < MINIBLOCK_SIZE || b[0] % 16 != 1 then None
    else
      var m := MiniBlock(1, (b[0] / 16) % 2 == 1, (b[0] / 32) % 2 == 1, b[0] / 64, GetBE(b[1..3]), GetBE(b[3..8]),
        (GetBE(b[8..12]), GetBE(b[12..16])), b[16..32] + EMPTY_HASH, GetBE(b[32..36]),
        (GetBE(b[36..40]), GetBE(b[40..44]), GetBE(b[44..48])));
      if SanityCheck(m) then Some(m) else None
  }

  lemma SmallPowers()
    ensures Pow256(2) == 0x1_0000 && Pow256(4) == 0x1_0000_0000 && Pow256(5) == 0x100_0000_0000
  {
    assert Pow256(3) == 0x100_0000;
  }

  function Trimmed(m: MiniBlock): MiniBlock
    requires Typed(m)
  {
    m.(keyHash := KeyBytes(m) + EMPTY_HASH)
  }

  lemma VersionByteParts(m: MiniBlock)
    requires SanityCheck(m)
    ensures var b := VersionByte(m);
      b % 16 == m.version && ((b / 16) % 2 == 1 <==> m.highDiff) && ((b / 32) % 2 == 1 <==> m.final) && b / 64 == m.pastCount
  {
  }

  /** The pieces of the 48 bytes. */
  lemma {:induction false} Pieces(m: MiniBlock, rest: Bytes)
    requires Typed(m) && SanityCheck(m)
    ensures var b := Serialize(m).value + rest;
      && b[0] == VersionByte(m) && b[1..3] == PutBE(m.timestamp, 2) && b[3..8] == PutBE(m.height, 5)
      && b[8..12] == PutBE(m.past.0, 4) && b[12..16] == PutBE(m.past.1, 4) && b[16..32] == KeyBytes(m)
      && b[32..36] == PutBE(m.flags, 4) && b[36..40] == PutBE(m.nonce.0, 4) && b[40..44] == PutBE(m.nonce.1, 4)
      && b[44..48] == PutBE(m.nonce.2, 4)
  {
    hide PutBE, KeyBytes, VersionByte;
  }

  /** Where every field stands; numbers have their highest byte first. */
  lemma {:induction false} Form(m: MiniBlock)
    requires Typed(m) && SanityCheck(m)
    ensures var b := Serialize(m).value;
      && b[0] % 16 == m.version && ((b[0] / 16) % 2 == 1 <==> m.highDiff) && ((b[0] / 32) % 2 == 1 <==> m.final) && b[0] / 64 == m.pastCount
      && 256 * (b[1] as int) + b[2] as int == m.timestamp && GetBE(b[3..8]) == m.height
      && GetBE(b[8..12]) == m.past.0 && GetBE(b[12..16]) == m.past.1 && b[16..32] == m.keyHash[..16]
      && GetBE(b[32..36]) == m.flags && GetBE(b[36..40]) == m.nonce.0 && GetBE(b[40..44]) == m.nonce.1 && GetBE(b[44..48]) == m.nonce.2
  {
    hide PutBE, KeyBytes, VersionByte, Pow256, Serialize, GetBE;
    var b := Serialize(m).value;
    assert b + [] == b;
    Pieces(m, []);
    VersionByteParts(m);
    SmallPowers();
    BEBack(m.timestamp, 2);
    BEBack(m.height, 5);
    BEBack(m.past.0, 4);
    BEBack(m.past.1, 4);
    BEBack(m.flags, 4);
    BEBack(m.nonce.0, 4);
    BEBack(m.nonce.1, 4);
    BEBack(m.nonce.2, 4);
    TwoBytes(b[1..3]);
    assert KeyBytes(m) == m.keyHash[..16];
  }

  lemma TwoBytes(b: Bytes)
    requires |b| == 2
    ensures GetBE(b) == 256 * (b[0] as int) + b[1] as int
  {
    assert b[..1][..0] == [];
    assert GetBE(b[..1]) == b[0] as int;
  }

  /** A sane miniblock of version 1 is read back, whatever follows it, but for the trimmed key hash. */
  lemma {:induction false} DeserializeSerialize(m: MiniBlock, rest: Bytes)
    requires Typed(m) && SanityCheck(m) && m.version == 1
    ensures Deserialize(Serialize(m).value + rest) == Some(Trimmed(m))
  {
    hide PutBE, GetBE, KeyBytes, VersionByte, Pow256, Serialize;
    var b := Serialize(m).value + rest;
    Pieces(m, rest);
    VersionByteParts(m);
    SmallPowers();
    BEBack(m.timestamp, 2);
    BEBack(m.height, 5);
    BEBack(m.past.0, 4);
    BEBack(m.past.1, 4);
    BEBack(m.flags, 4);
    BEBack(m.nonce.0, 4);
    BEBack(m.nonce.1, 4);
    BEBack(m.nonce.2, 4);
    assert SanityCheck(Trimmed(m));
  }

  /** An accepted buffer is the form of what was read from it. */
  lemma {:induction false} SerializeDeserialize(b: Bytes)
    requires Deserialize(b).Some?
    ensures var m := Deserialize(b).value;
      Typed(m) && SanityCheck(m) && Serialize(m) == Some(b[..MINIBLOCK_SIZE]) && Trimmed(m) == m
  {
    hide PutBE, GetBE, Pow256;
    var m := Deserialize(b).value;
    SmallPowers();
    GetBEBound(b[1..3]);
    GetBEBound(b[3..8]);
    GetBEBound(b[8..12]);
    GetBEBound(b[12..16]);
    GetBEBound(b[32..36]);
    GetBEBound(b[36..40]);
    GetBEBound(b[40..44]);
    GetBEBound(b[44..48]);
    BEForth(b[1..3]);
    BEForth(b[3..8]);
    BEForth(b[8..12]);
    BEForth(b[12..16]);
    BEForth(b[32..36]);
    BEForth(b[36..40]);
    BEForth(b[40..44]);
    BEForth(b[44..48]);
    assert Typed(m);
    VersionByteFrom(b[0], m);
    assert KeyBytes(m) == b[16..32];
    Joined(b);
    assert Trimmed(m).keyHash == m.keyHash;
  }

  lemma VersionByteFrom(v: Byte, m: MiniBlock)
    requires SanityCheck(m) && v % 16 == m.version && m.highDiff == ((v / 16) % 2 == 1) && m.final == ((v / 32) % 2 == 1) && m.pastCount == v / 64
    ensures VersionByte(m) == v
  {
  }

  lemma Joined(b: Bytes)
    requires |b| >= MINIBLOCK_SIZE
    ensures b[..MINIBLOCK_SIZE] == [b[0]] + b[1..3] + b[3..8] + b[8..12] + b[12..16] + b[16..32] + b[32..36] + b[36..40] + b[40..44] + b[44..48]
  {
  }
}
