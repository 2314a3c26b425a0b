/** Decoding a balance from its curve point, in any cyclic group. */
module BalanceDecoder {
  import opened ChainState

  // Baby steps are the sorted tables of truncated keys, giant steps go over the point.


  /** An entry is a truncated encoding in the high 40 bits, and the table index in the low 24 bits. */
  const SCALE := 0x100_0000

  const KEYS := 0x100_0000_0000

  /** A cyclic group with a fixed generator: `mult(k)` is k times the generator, `key` is the truncated
      encoding of a point, five bytes that need not tell points apart. */
  datatype Group<!P> = Group(mult: nat -> P, add: (P, P) -> P, neg: P -> P, key: P -> nat) {
    ghost predicate Valid() {
      && (forall a: nat, b: nat {:trigger add(mult(a), mult(b))} :: add(mult(a), mult(b)) == mult(a + b))
      && (forall a: nat, b: nat {:trigger add(mult(a), neg(mult(b)))} :: b <= a ==> add(mult(a), neg(mult(b))) == mult(a - b))
      && (forall a: nat, b: nat :: a < UINT64 && b < UINT64 && mult(a) == mult(b) ==> a == b)
      && (forall a: nat :: key(mult(a)) < KEYS)
    }
  }

  function High(e: nat): nat {
    e - e % SCALE
  }

  function Entry<P>(g: Group<P>, base: nat, j: nat): nat {
    g.key(g.mult(base + j)) * SCALE + j % SCALE
  }

  lemma EntryParts<P>(g: Group<P>, base: nat, j: nat)
    requires j < SCALE
    ensures High(Entry(g, base, j)) == g.key(g.mult(base + j)) * SCALE && Entry(g, base, j) % SCALE == j
  {
  }

  lemma HighMonotone(a: nat, b: nat)
    requires a <= b
    ensures High(a) <= High(b)
  {
    assert a / SCALE <= b / SCALE;
  }

  // ---------- sorting ----------

  ghost predicate Sorted(s: seq<nat>) {
    forall i, j :: 0 <= i <= j < |s| ==> s[i] <= s[j]
  }

  lemma InsertAbove(x: nat, s: seq<nat>, rest: seq<nat>)
    requires s != [] && Sorted(s) && x >= s[0] && multiset(rest) == multiset(s[1..]) + multiset{x}
    ensures forall k :: 0 <= k < |rest| ==> rest[k] >= s[0]
  {
    forall k | 0 <= k < |rest| ensures rest[k] >= s[0] {
      assert rest[k] in multiset(rest);
      if rest[k] != x { assert rest[k] in s[1..]; }
    }
  }

  function Insert(x: nat, s: seq<nat>): (r: seq<nat>)
    requires Sorted(s)
    ensures Sorted(r) && multiset(r) == multiset(s) + multiset{x}
  {
    if s == [] || x <= s[0] then [x] + s
    else
      assert s == [s[0]] + s[1..];
      var rest := Insert(x, s[1..]);
      assert forall k :: 0 <= k < |rest| ==> rest[k] >= s[0] by { InsertAbove(x, s, rest); }
      [s[0]] + rest
  }

  function SortRow(s: seq<nat>): (r: seq<nat>)
    ensures Sorted(r) && multiset(r) == multiset(s) && |r| == |s|
  {
    if s == [] then []
    else
      assert s == [s[0]] + s[1..];
      var r := Insert(s[0], SortRow(s[1..]));
      assert |r| == |multiset(r)|;
      r
  }

  // ---------- the tables ----------

  function RawRow<P>(g: Group<P>, base: nat, size: nat): (r: seq<nat>)
    ensures |r| == size && forall j :: 0 <= j < size ==> r[j] == Entry(g, base, j)
  {
    seq(size, j requires 0 <= j < size => Entry(g, base, j))
  }

  /** Row i holds the keys of the multiples i*size .. (i+1)*size-1 of the generator, in some order, sorted. */
  ghost predicate TableOk<P>(g: Group<P>, t: seq<seq<nat>>, size: nat) {
    forall i :: 0 <= i < |t| ==> RowOk(g, t[i], i, size)
  }

  ghost predicate RowOk<P>(g: Group<P>, row: seq<nat>, i: nat, size: nat) {
    Sorted(row) && |row| == size && multiset(row) == multiset(RawRow(g, i * size, size))
  }

  /** 256 successive multiples of the generator, and the next one. */
  method SmallTable<P>(g: Group<P>, from: P, ghost first: nat) returns (small: seq<P>, acc: P)
    requires g.Valid() && from == g.mult(first)
    ensures |small| == 256 && forall k :: 0 <= k < 256 ==> small[k] == g.mult(first + k)
    ensures acc == g.mult(first + 256)
  {
    small, acc := [], from;
    while |small| < 256
      invariant |small| <= 256 && acc == g.mult(first + |small|)
      invariant forall k :: 0 <= k < |small| ==> small[k] == g.mult(first + k)
    {
      small := small + [acc];
      acc := g.add(acc, g.mult(1));
    }
  }

  /** One row, filled in steps of 256 entries, unsorted. */
  method FillRow<P>(g: Group<P>, from: P, ghost base: nat, size: nat) returns (r: seq<nat>, acc: P)
    requires g.Valid() && size % 256 == 0 && from == g.mult(base)
    ensures r == RawRow(g, base, size) && acc == g.mult(base + size)
  {
    hide g.Valid;
    var row := new nat[size];
    var j := 0;
    acc := from;
    while j < size
      invariant 0 <= j <= size && j % 256 == 0
      invariant acc == g.mult(base + j)
      invariant forall x :: 0 <= x < j ==> row[x] == Entry(g, base, x)
    {
      var small: seq<P>;
      small, acc := SmallTable(g, acc, base + j);
      var k := 0;
      while k < 256
        invariant 0 <= k <= 256 <= size - j
        invariant forall x :: 0 <= x < j + k ==> row[x] == Entry(g, base, x)
      {
        row[j + k] := g.key(small[k]) * SCALE + (j + k) % SCALE;
        k := k + 1;
      }
      j := j + 256;
    }
    r := row[..];
  }

  /** Fills and sorts the tables; None if the size is not a multiple of 256. */
  method InitializeLookupTable<P>(g: Group<P>, count: nat, size: nat) returns (t: Option<seq<seq<nat>>>)
    requires g.Valid()
    ensures t == None <==> size % 256 != 0
    ensures t.Some? ==> |t.value| == count && TableOk(g, t.value, size)
  {
    if size % 256 != 0 { return None; }
    hide RawRow, Sorted, RowOk, g.Valid;
    var rows: seq<seq<nat>> := [];
    var acc := g.mult(0);
    while |rows| < count
      invariant |rows| <= count && TableOk(g, rows, size)
      invariant acc == g.mult(|rows| * size)
    {
      ghost var i := |rows|;
      var row: seq<nat>;
      row, acc := FillRow(g, acc, i * size, size);
      NextBase(i, size);
      SortedRowOk(g, row, i, size);
      rows := rows + [SortRow(row)];
    }
    t := Some(rows);
  }

  lemma SortedRowOk<P>(g: Group<P>, row: seq<nat>, i: nat, size: nat)
    requires row == RawRow(g, i * size, size)
    ensures RowOk(g, SortRow(row), i, size)
  {
  }

  lemma NextBase(i: nat, size: nat)
    ensures (i + 1) * size == i * size + size
  {
  }

  // ---------- the search ----------

  /** The first entry whose high part is at least `big`. */
  method Search(row: seq<nat>, big: nat) returns (index: nat)
    requires Sorted(row)
    ensures index <= |row|
    ensures forall k :: 0 <= k < index ==> High(row[k]) < big
    ensures forall k :: index <= k < |row| ==> High(row[k]) >= big
  {
    hide High;
    index := 0;
    var end := |row|;
    while index < end
      invariant index <= end <= |row|
      invariant forall k :: 0 <= k < index ==> High(row[k]) < big
      invariant forall k :: end <= k < |row| ==> High(row[k]) >= big
    {
      var mid := (index + end) / 2;
      if High(row[mid]) >= big {
        forall k | mid <= k < |row| ensures High(row[k]) >= big { HighMonotone(row[mid], row[k]); }
        end := mid;
      } else {
        forall k | 0 <= k <= mid ensures High(row[k]) < big { HighMonotone(row[k], row[mid]); }
        index := mid + 1;
      }
    }
  }

  /** If the remainder lies in a row, the row has an entry with its key and its index. */
  lemma {:induction false} RowHolds<P>(g: Group<P>, row: seq<nat>, size: nat, i: nat, rem: nat) returns (x: nat)
    requires RowOk(g, row, i, size) && i * size <= rem < i * size + size && size <= SCALE
    ensures x < |row| && High(row[x]) == g.key(g.mult(rem)) * SCALE && row[x] % SCALE == rem - i * size
  {
    hide High, Sorted, Entry;
    var base := i * size;
    var raw := RawRow(g, base, size);
    SameElement(row, raw, rem - base);
    x :| 0 <= x < |row| && row[x] == raw[rem - base];
    EntryParts(g, base, rem - base);
  }

  lemma SameElement(a: seq<nat>, b: seq<nat>, k: nat)
    requires multiset(a) == multiset(b) && k < |b|
    ensures b[k] in a
  {
    assert b[k] in multiset(b);
  }

  /** Tries the entries of a row that share the key, up to the first that is the whole balance. */
  method TryRow<P(==)>(g: Group<P>, row: seq<nat>, balance: nat, big: nat, p: P, ghost b: nat) returns (r: Option<nat>)
    requires g.Valid() && Sorted(row) && b < UINT64 && p == g.mult(b)
    ensures r.Some? ==> r.value == b
    ensures r == None ==> forall x :: 0 <= x < |row| && High(row[x]) == big ==> balance + row[x] % SCALE != b
  {
    hide High;
    var start := Search(row, big);
    var index := start;
    while index < |row| && High(row[index]) == big
      invariant start <= index <= |row|
      invariant forall x :: start <= x < index ==> balance + row[x] % SCALE != b
    {
      var part := row[index] % SCALE;
      var sum := (balance + part) % UINT64;
      if g.mult(sum) == p { return Some(sum); }
      assert balance + part == b ==> sum == b;
      index := index + 1;
    }
    forall x | 0 <= x < |row| && High(row[x]) == big ensures balance + row[x] % SCALE != b {
      if x >= index { HighMonotone(row[index], row[x]); }
    }
    r := None;
  }

  /** The balance is found, for every balance below 2^64 and every earlier balance, however many entries
      share a key. */
  method Lookup<P(==)>(g: Group<P>, t: seq<seq<nat>>, size: nat, p: P, previous: nat, ghost b: nat) returns (balance: nat)
    requires g.Valid() && TableOk(g, t, size) && |t| >= 1 && 0 < size <= SCALE
    requires previous < UINT64 && b < UINT64 && p == g.mult(b)
    ensures balance == b
  {
    hide High, TableOk, g.Valid, RowOk;
    MultUnique(g, previous, b);
    if g.mult(previous) == p { return previous; }
    var perLoop := (size * |t|) % UINT64;
    var work := g.neg(g.mult(perLoop));
    var pcopy := p;
    balance := 0;
    var loops := 0;
    ghost var rem: nat := b;
    while true
      invariant balance + rem == b
      invariant loops == 0 ==> pcopy == g.mult(rem)
      invariant loops > 0 ==> size * |t| <= b && pcopy == g.mult(rem + size * |t|)
      decreases rem
    {
      if loops != 0 {
        GiantStep(g, rem, size * |t|);
        pcopy := g.add(pcopy, work);
      }
      loops := loops + 1;
      var big := g.key(pcopy) * SCALE;
      var i := 0;
      while i < |t|
        invariant 0 <= i <= |t| && balance == b - rem + i * size && i * size <= rem
      {
        RowSize(g, t, size, i);
        var r := TryRow(g, t[i], balance, big, p, b);
        if r.Some? { return r.value; }
        if rem < i * size + size { var x := RowHolds(g, t[i], size, i, rem); }
        NextBase(i, size);
        balance := balance + |t[i]|;
        i := i + 1;
      }
      assert size * |t| == |t| * size > 0 by { NextBase(|t| - 1, size); }
      rem := rem - size * |t|;
    }
  }

  lemma MultUnique<P>(g: Group<P>, a: nat, b: nat)
    requires g.Valid() && a < UINT64 && b < UINT64
    ensures g.mult(a) == g.mult(b) ==> a == b
  {
  }

  lemma GiantStep<P>(g: Group<P>, rem: nat, step: nat)
    requires g.Valid()
    ensures g.add(g.mult(rem + step), g.neg(g.mult(step))) == g.mult(rem)
  {
  }

  lemma RowSize<P>(g: Group<P>, t: seq<seq<nat>>, size: nat, i: nat)
    requires TableOk(g, t, size) && i < |t|
    ensures RowOk(g, t[i], i, size) && Sorted(t[i]) && |t[i]| == size
  {
  }
}
