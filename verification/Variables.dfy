/** Contract variables: their byte form, and the overlay of writes. */
module Variables {
  import opened ChainState

  type Byte = b: nat | b < 256

  type Bytes = seq<Byte>

  const MAX_VARINT_LEN := 10

  datatype Variable = Uint64Var(n: nat) | StringVar(s: Bytes)

  predicate Fits(v: Variable) {
    v.Uint64Var? ==> v.n < UINT64
  }

  // ---------- unsigned varints ----------

  function PutUvarint(n: nat): (b: Bytes)
    ensures |b| >= 1
  {
    if n < 128 then [n] else [n % 128 + 128] + PutUvarint(n / 128)
  }

  /** The value, and the number of bytes read from position i on; None if the buffer ends or overflows 64 bits. */
  function Uvarint(b: Bytes, i: nat): Option<(nat, nat)>
    decreases |b|
  {
    if b == [] || i == MAX_VARINT_LEN then None
    else if b[0] < 128 then
      if i == MAX_VARINT_LEN - 1 && b[0] > 1 then None else Some((b[0], 1))
    else
      match Uvarint(b[1..], i + 1)
      case None => None
      case Some(r) => Some((b[0] - 128 + 128 * r.0, r.1 + 1))
  }

  /** What may still follow after i bytes of a 64-bit number. */
  function Room(i: nat): nat
    requires i <= MAX_VARINT_LEN
    decreases MAX_VARINT_LEN - i
  {
    if i >= MAX_VARINT_LEN - 1 then 2 else 128 * Room(i + 1)
  }

  lemma RoomForAll()
    ensures Room(0) == UINT64
  {
    assert Room(9) == 2;
    assert Room(8) == 256;
    assert Room(7) == 128 * 256;
    assert Room(6) == 128 * 128 * 256;
    assert Room(5) == 128 * 128 * 128 * 256;
    assert Room(4) == 128 * 128 * 128 * 128 * 256;
    assert Room(3) == 128 * Room(4) && Room(2) == 128 * Room(3) && Room(1) == 128 * Room(2);
  }

  lemma {:induction false} UvarintBack(n: nat, i: nat)
    requires i < MAX_VARINT_LEN && n < Room(i)
    ensures Uvarint(PutUvarint(n), i) == Some((n, |PutUvarint(n)|))
    decreases n
  {
    if n >= 128 {
      var b := PutUvarint(n);
      assert b[1..] == PutUvarint(n / 128);
      UvarintBack(n / 128, i + 1);
    }
  }

  /** The number in groups of seven bits, the lowest group first. */
  function Groups(b: Bytes): nat {
    if b == [] then 0 else b[0] % 128 + 128 * Groups(b[1..])
  }

  /** Every byte holds seven bits; all but the last one have the high bit set; there is no empty last group. */
  lemma {:induction false} UvarintForm(n: nat)
    ensures var b := PutUvarint(n);
      && Groups(b) == n && b[|b| - 1] < 128 && (|b| > 1 ==> b[|b| - 1] > 0)
      && forall i :: 0 <= i < |b| - 1 ==> b[i] >= 128
    decreases n
  {
    if n >= 128 {
      var b := PutUvarint(n);
      assert b[1..] == PutUvarint(n / 128);
      UvarintForm(n / 128);
      forall i | 0 <= i < |b| - 1 ensures b[i] >= 128 {
        if i > 0 { assert b[i] == b[1..][i - 1]; }
      }
    } else {
      assert [n][1..] == [];
    }
  }

  // ---------- variables ----------

  const TYPE_UINT64: Byte := 4
  const TYPE_STRING: Byte := 5

  function Marshal(v: Variable): (b: Bytes)
    ensures |b| >= 1 && b[|b| - 1] in {TYPE_UINT64, TYPE_STRING}
  {
    match v
    case Uint64Var(n) => PutUvarint(n) + [TYPE_UINT64]
    case StringVar(s) => s + [TYPE_STRING]
  }

  /** Bad is an error result, Panic a panic of the original. */
  datatype Loaded = Ok(v: Variable) | Bad | Panic

  function Unmarshal(b: Bytes): Loaded {
    if |b| < 1 then Bad
    else
      var kind := b[|b| - 1];
      if kind == 3 || kind == 0 then Bad
      else if kind == TYPE_UINT64 then
        match Uvarint(b[..|b| - 1], 0)
        case None => Panic
        case Some(r) => Ok(Uint64Var(r.0))
      else if kind == TYPE_STRING then Ok(StringVar(b[..|b| - 1]))
      else Panic
  }

  /** Every variable is read back as it was written. */
  lemma {:induction false} UnmarshalMarshal(v: Variable)
    requires Fits(v)
    ensures Unmarshal(Marshal(v)) == Ok(v)
  {
    var b := Marshal(v);
    match v
    case Uint64Var(n) =>
      assert b[..|b| - 1] == PutUvarint(n);
      RoomForAll();
      UvarintBack(n, 0);
    case StringVar(s) =>
      assert b[..|b| - 1] == s;
  }

  /** A number is a varint and then 4, a string its bytes and then 5. */
  lemma {:induction false} MarshalForm(n: nat, s: Bytes)
    ensures var b := Marshal(Uint64Var(n)); b[|b| - 1] == 4 && Groups(b[..|b| - 1]) == n
    ensures var b := Marshal(StringVar(s)); b[|b| - 1] == 5 && b[..|b| - 1] == s
  {
    UvarintForm(n);
    assert Marshal(Uint64Var(n))[..|Marshal(Uint64Var(n))| - 1] == PutUvarint(n);
  }

  /** Different variables are stored under different keys. */
  lemma {:induction false} MarshalInjective(v: Variable, w: Variable)
    requires Fits(v) && Fits(w) && Marshal(v) == Marshal(w)
    ensures v == w
  {
    UnmarshalMarshal(v);
    UnmarshalMarshal(w);
  }

  // ---------- keys of assets ----------

  const HASH_LENGTH := 32

  const ZERO_ID: Bytes := [
    0, 0, 0, 0, 0, 0, 0, 0, 0, 0, 0, 0, 0, 0, 0, 0,
    0, 0, 0, 0, 0, 0, 0, 0, 0, 0, 0, 0, 0, 0, 0, 0]

  const NAME_SERVICE_ID: Bytes := ZERO_ID[..HASH_LENGTH - 1] + [1]

  /** The asset ids that can carry value: the base asset, the name service, and installed contracts. */
  predicate IsAssetId(a: Bytes) {
    |a| == HASH_LENGTH && (a == ZERO_ID || a == NAME_SERVICE_ID || a[HASH_LENGTH - 1] >= 0x80)
  }

  /** No variable is stored under the key of an asset. */
  lemma {:induction false} KeySpaces(a: Bytes, v: Variable)
    requires IsAssetId(a)
    ensures Marshal(v) != a
  {
    assert a[HASH_LENGTH - 1] !in {TYPE_UINT64, TYPE_STRING};
  }

  const ADDRESS_LENGTH := 33

  /** A compressed point ends in its sign. Accounts of a contract's token lie in the tree of its variables. */
  predicate IsAddress(b: Bytes) {
    |b| == ADDRESS_LENGTH && b[ADDRESS_LENGTH - 1] in {0, 1}
  }

  /** No variable is stored under the key of an account, although both may be of one length, and no account under
      that of an asset. */
  lemma {:induction false} AccountKeys(address: Bytes, v: Variable, a: Bytes)
    requires IsAddress(address) && IsAssetId(a)
    ensures Marshal(v) != address && address != a
  {
    assert address[ADDRESS_LENGTH - 1] !in {TYPE_UINT64, TYPE_STRING};
  }

  // ---------- the overlay ----------

  /** What a load gives. A key that this call has deleted is held as an empty value, which cannot be
      unmarshalled, so that loading it, or asking whether it exists, panics. */
  datatype LoadResult = Found(v: Variable) | Missing | LoadPanic

  function LoadKey(raw: map<Bytes, Bytes>, disk: map<Bytes, Bytes>, key: Variable): LoadResult {
    var k := Marshal(key);
    if k in raw then
      match Unmarshal(raw[k])
      case Ok(v) => Found(v)
      case Bad => LoadPanic
      case Panic => LoadPanic
    else LoadDisk(disk, k)
  }

  function LoadDisk(disk: map<Bytes, Bytes>, k: Bytes): LoadResult {
    if k !in disk || disk[k] == [] then Missing
    else
      match Unmarshal(disk[k])
      case Ok(v) => Found(v)
      case Bad => Missing
      case Panic => LoadPanic
  }

  /** What is stored is loaded, unless this call has written the key; a key that is nowhere is missing. */
  lemma {:induction false} StoredLoads(raw: map<Bytes, Bytes>, disk: map<Bytes, Bytes>, key: Variable, v: Variable)
    requires Fits(v) && Marshal(key) !in raw
    ensures LoadKey(raw, disk[Marshal(key) := Marshal(v)], key) == Found(v)
    ensures Marshal(key) !in disk ==> LoadKey(raw, disk, key) == Missing
  {
    UnmarshalMarshal(v);
  }

  /** A store is seen by later loads of the same key and of no other. */
  lemma {:induction false} StoreThenLoad(raw: map<Bytes, Bytes>, disk: map<Bytes, Bytes>, key: Variable, v: Variable, key': Variable)
    requires Fits(key) && Fits(key') && Fits(v)
    ensures LoadKey(raw[Marshal(key) := Marshal(v)], disk, key') == if key' == key then Found(v) else LoadKey(raw, disk, key')
  {
    UnmarshalMarshal(v);
    if Marshal(key) == Marshal(key') { MarshalInjective(key, key'); }
  }

  /** A delete makes loads of that key panic until it is stored again, and is not seen by other keys. */
  lemma {:induction false} DeleteThenLoad(raw: map<Bytes, Bytes>, disk: map<Bytes, Bytes>, key: Variable, key': Variable)
    requires Fits(key) && Fits(key')
    ensures LoadKey(raw[Marshal(key) := []], disk, key') == if key' == key then LoadPanic else LoadKey(raw, disk, key')
  {
    if Marshal(key) == Marshal(key') { MarshalInjective(key, key'); }
  }
}
