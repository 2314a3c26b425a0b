/** Miniblocks: the collection that keeps them apart by height and parents, and the rules on the number, the
    marks and the parents of those inside a block. */
module MiniBlocks {

  const BLOCK_TIME := 18
  const MINIBLOCK_HIGHDIFF := 9

  /** Other miniblocks of a block, beside the final one. */
  const OTHERS := BLOCK_TIME - MINIBLOCK_HIGHDIFF

  const SOFT_FORK_HEIGHT := 399000

  datatype MiniBlock = MiniBlock(
    version: nat, highDiff: bool, final: bool, pastCount: nat, timestamp: nat, height: nat,
    past: (nat, nat), keyHash: seq<nat>, flags: nat, nonce: (nat, nat, nat))

  const HEIGHT_LIMIT := 0xff_ffff_ffff

  predicate SanityCheck(m: MiniBlock) {
    && m.version < 16 && m.pastCount <= 2 && m.pastCount != 0 && m.height < HEIGHT_LIMIT
    && !(m.pastCount == 2 && m.past.0 == m.past.1)
  }

  /** In numbers: what a miniblock must be like to have a form in bytes. */
  lemma SaneMeans(m: MiniBlock)
    ensures SanityCheck(m) <==>
      m.version <= 15 && (m.pastCount == 1 || (m.pastCount == 2 && m.past.0 != m.past.1)) && m.height < 1099511627775
  {
  }

  datatype Key = Key(height: nat, past0: nat, past1: nat)

  function KeyOf(m: MiniBlock): Key {
    Key(m.height, m.past.0, m.past.1)
  }

  /** Everything in the collection. */
  ghost function Members(c: map<Key, seq<MiniBlock>>): set<MiniBlock> {
    set k, m | k in c && m in c[k] :: m
  }

  /** Every bucket holds miniblocks of its key, each once. */
  ghost predicate Bucketed(c: map<Key, seq<MiniBlock>>) {
    && (forall k, i :: k in c && 0 <= i < |c[k]| ==> KeyOf(c[k][i]) == k)
    && (forall k, i, j :: k in c && 0 <= i < j < |c[k]| ==> c[k][i] != c[k][j])
  }

  function Bucket(c: map<Key, seq<MiniBlock>>, k: Key): seq<MiniBlock> {
    if k in c then c[k] else []
  }

  /** The sizes of all buckets, added up in any order. */
  ghost function Size(c: map<Key, seq<MiniBlock>>): nat
    decreases |c|
  {
    if c == map[] then 0
    else
      var k :| k in c;
      |c[k]| + Size(c - {k})
  }

  /** Removing a key takes its bucket off the size, whichever key the sum picks. */
  lemma {:induction false} SizeWithout(c: map<Key, seq<MiniBlock>>, k: Key)
    requires k in c
    ensures Size(c) == |c[k]| + Size(c - {k})
    decreases |c|
  {
    var p :| p in c && Size(c) == |c[p]| + Size(c - {p});
    if p != k {
      SizeWithout(c - {p}, k);
      SizeWithout(c - {k}, p);
      assert (c - {p}) - {k} == (c - {k}) - {p};
    }
  }

  lemma {:induction false} SizeAppend(c: map<Key, seq<MiniBlock>>, k: Key, m: MiniBlock)
    ensures Size(c[k := Bucket(c, k) + [m]]) == Size(c) + 1
  {
    var d := c[k := Bucket(c, k) + [m]];
    SizeWithout(d, k);
    if k in c {
      SizeWithout(c, k);
      assert d - {k} == c - {k};
    } else {
      assert d - {k} == c;
    }
  }

  class MiniBlocksCollection {
    var collection: map<Key, seq<MiniBlock>>

    constructor ()
      ensures collection == map[]
    {
      collection := map[];
    }

    method IsCollision(m: MiniBlock) returns (r: bool)
      requires Bucketed(collection)
      ensures r <==> m in Members(collection)
    {
      var mbls := Bucket(collection, KeyOf(m));
      var i := 0;
      while i < |mbls|
        invariant 0 <= i <= |mbls|
        invariant forall j :: 0 <= j < i ==> mbls[j] != m
      {
        if m == mbls[i] {
          assert m in collection[KeyOf(m)];
          return true;
        }
        i := i + 1;
      }
      return false;
    }

    /** Final miniblocks and those already there are not inserted. The error for one already there holds its
        bytes, so that it is a panic if there are none. */
    method InsertMiniBlock(m: MiniBlock) returns (result: bool, panic: bool)
      requires Bucketed(collection)
      modifies this
      ensures Bucketed(collection)
      ensures result <==> !m.final && m !in old(Members(collection))
      ensures panic <==> !m.final && m in old(Members(collection)) && !SanityCheck(m)
      ensures Members(collection) == old(Members(collection)) + if m.final then {} else {m}
      ensures Size(collection) == old(Size(collection)) + if result then 1 else 0
    {
      if m.final { return false, false; }
      var there := IsCollision(m);
      if there { return false, !SanityCheck(m); }
      var k := KeyOf(m);
      SizeAppend(collection, k, m);
      InsertedMembers(collection, m);
      collection := collection[k := Bucket(collection, k) + [m]];
      result, panic := true, false;
    }

    /** The number of members. */
    method Count() returns (count: nat)
      ensures count == Size(collection)
    {
      count := 0;
      var rest := collection;
      while rest != map[]
        invariant count + Size(rest) == Size(collection)
        decreases |rest|
      {
        var k :| k in rest;
        SizeWithout(rest, k);
        count := count + |rest[k]|;
        rest := rest - {k};
      }
    }

    /** Forgets all heights up to the given one. */
    method PurgeHeight(height: int) returns (purged: nat)
      modifies this
      ensures height < 0 ==> collection == old(collection) && purged == 0
      ensures height >= 0 ==> collection == (map k | k in old(collection) && k.height > height :: old(collection)[k])
    {
      purged := 0;
      if height < 0 { return; }
      var keys := collection.Keys;
      ghost var was := collection;
      while keys != {}
        invariant keys <= was.Keys
        invariant collection == (map k | k in was && (k.height > height || k in keys) :: was[k])
        decreases |keys|
      {
        var k :| k in keys;
        if k.height <= height {
          purged := purged + 1;
          collection := collection - {k};
        }
        keys := keys - {k};
      }
    }
  }

  lemma BucketMembers(c: map<Key, seq<MiniBlock>>, k: Key, m: MiniBlock)
    ensures m in Bucket(c, k) ==> m in Members(c)
  {
  }

  lemma {:induction false} InsertedMembers(c: map<Key, seq<MiniBlock>>, m: MiniBlock)
    requires Bucketed(c) && m !in Members(c)
    ensures var d := c[KeyOf(m) := Bucket(c, KeyOf(m)) + [m]];
      Bucketed(d) && Members(d) == Members(c) + {m}
  {
    var k := KeyOf(m);
    var d := c[k := Bucket(c, k) + [m]];
    BucketMembers(c, k, m);
    forall x | x in Members(d) ensures x in Members(c) + {m} {
      var q :| q in d && x in d[q];
    }
    forall x | x in Members(c) ensures x in Members(d) {
      var q :| q in c && x in c[q];
      assert x in d[q];
    }
    assert m in d[k];
  }

  // ---------- the rules of a block ----------

  datatype Verdict = Accepted | Rejected | Panicked

  function Finals(ms: seq<MiniBlock>): (n: nat)
    ensures n <= |ms|
  {
    if ms == [] then 0 else Finals(ms[..|ms| - 1]) + if ms[|ms| - 1].final then 1 else 0
  }

  /** The miniblocks that are not final. */
  ghost function Open(ms: seq<MiniBlock>): set<MiniBlock> {
    set m | m in ms && !m.final
  }

  predicate Belongs(m: MiniBlock, height: nat, tip: nat) {
    m.height == height && m.pastCount == 1 && m.past.0 == tip
  }

  /** What makes a block's miniblocks acceptable. From the soft fork on, nine others are needed. */
  ghost predicate Acceptable(height: nat, tips: seq<nat>, ms: seq<MiniBlock>) {
    if height == 0 then ms == []
    else
      && |ms| == OTHERS + 1 && Finals(ms) >= 1 && |tips| == 1
      && (forall i :: 0 <= i < |ms| ==> Belongs(ms[i], height, tips[0]))
      && (height >= SOFT_FORK_HEIGHT ==> |Open(ms)| == OTHERS)
  }

  /** A repeated miniblock whose bytes cannot be had. */
  ghost predicate BadRepeat(ms: seq<MiniBlock>, j: int) {
    0 <= j < |ms| && !ms[j].final && ms[j] in Open(ms[..j]) && !SanityCheck(ms[j])
  }

  lemma {:induction false} OpenNext(ms: seq<MiniBlock>, n: nat)
    requires n < |ms|
    ensures Open(ms[..n + 1]) == Open(ms[..n]) + if ms[n].final then {} else {ms[n]}
    ensures |Open(ms[..n + 1])| == |Open(ms[..n])| + if ms[n].final || ms[n] in Open(ms[..n]) then 0 else 1
  {
    assert ms[..n + 1] == ms[..n] + [ms[n]];
    var a, b := Open(ms[..n]), Open(ms[..n + 1]);
    assert b == a + if ms[n].final then {} else {ms[n]};
    if ms[n].final || ms[n] in a { assert b == a; }
  }

  /** Checks the miniblocks of a block; `tips` are the first four bytes of each parent's id. */
  method VerifyMiniBlocks(height: nat, tips: seq<nat>, ms: seq<MiniBlock>) returns (v: Verdict)
    ensures v == Accepted <==> Acceptable(height, tips, ms) && (height > 0 ==> forall j :: !BadRepeat(ms, j))
    ensures v == Panicked <==>
      && height > 0 && |ms| == OTHERS + 1 && Finals(ms) >= 1
      && if |tips| != 1 then ms[0].height == height && ms[0].pastCount == |tips|
         else exists j :: BadRepeat(ms, j) && forall k :: 0 <= k <= j ==> Belongs(ms[k], height, tips[0])
  {
    hide Open, Members, Bucketed, Size, BadRepeat;
    OutOfRange(ms);
    if height == 0 && |ms| != 0 { return Rejected; }
    if height == 0 { return Accepted; }
    if |ms| == 0 { return Rejected; }
    var finalCount := 0;
    var i := 0;
    assert ms[..0] == [];
    while i < |ms|
      invariant 0 <= i <= |ms| && finalCount == Finals(ms[..i])
    {
      if ms[i].final { finalCount := finalCount + 1; }
      assert ms[..i + 1][..i] == ms[..i];
      i := i + 1;
    }
    assert ms[..i] == ms;
    if finalCount < 1 { return Rejected; }
    if |ms| != BLOCK_TIME - MINIBLOCK_HIGHDIFF + 1 { return Rejected; }
    var collection := new MiniBlocksCollection();
    Nothing();
    i := 0;
    while i < |ms|
      invariant 0 <= i <= |ms|
      invariant Bucketed(collection.collection)
      invariant Members(collection.collection) == Open(ms[..i]) && Size(collection.collection) == |Open(ms[..i])|
      invariant i > 0 ==> |tips| == 1
      invariant forall j :: 0 <= j < i ==> Belongs(ms[j], height, tips[0])
      invariant forall j :: 0 <= j < i ==> !BadRepeat(ms, j)
    {
      var m := ms[i];
      if height != m.height { return Rejected; }
      if |tips| != m.pastCount { return Rejected; }
      if |tips| == 0 { return Panicked; }
      if |tips| != 1 { return Panicked; }
      if tips[0] != m.past.0 { return Rejected; }
      OpenNext(ms, i);
      var inserted, panic := collection.InsertMiniBlock(m);
      RepeatMeans(ms, i);
      if panic { return Panicked; }
      i := i + 1;
    }
    assert ms[..i] == ms;
    if height >= SOFT_FORK_HEIGHT {
      var count := collection.Count();
      if count != BLOCK_TIME - MINIBLOCK_HIGHDIFF { return Rejected; }
    }
    return Accepted;
  }

  lemma RepeatMeans(ms: seq<MiniBlock>, i: nat)
    requires i < |ms|
    ensures BadRepeat(ms, i) <==> !ms[i].final && ms[i] in Open(ms[..i]) && !SanityCheck(ms[i])
  {
  }

  lemma OutOfRange(ms: seq<MiniBlock>)
    ensures forall j :: !(0 <= j < |ms|) ==> !BadRepeat(ms, j)
  {
  }

  lemma Nothing()
    ensures Bucketed(map[]) && Members(map[]) == Open([]) && Size(map[]) == |Open([])|
  {
  }

  ghost predicate OthersDistinct(ms: seq<MiniBlock>) {
    forall i, j :: 0 <= i < j < |ms| && !ms[i].final && !ms[j].final ==> ms[i] != ms[j]
  }

  /** Counting the others without repetition loses exactly the repetitions. */
  lemma {:induction false} OpenCounts(ms: seq<MiniBlock>)
    ensures |Open(ms)| + Finals(ms) <= |ms|
    ensures |Open(ms)| + Finals(ms) == |ms| <==> OthersDistinct(ms)
    decreases |ms|
  {
    if ms != [] {
      hide Open;
      var n := |ms| - 1;
      OpenCounts(ms[..n]);
      assert ms[..n + 1] == ms;
      OpenNext(ms, n);
      DistinctNext(ms, n);
    }
  }

  lemma {:induction false} DistinctNext(ms: seq<MiniBlock>, n: nat)
    requires |ms| == n + 1
    ensures OthersDistinct(ms) <==> OthersDistinct(ms[..n]) && (ms[n].final || ms[n] !in Open(ms[..n]))
  {
    var front := ms[..n];
    if !ms[n].final && ms[n] in Open(front) {
      var i :| 0 <= i < n && front[i] == ms[n];
      assert ms[i] == ms[n];
    }
    if OthersDistinct(ms) {
      forall i, j | 0 <= i < j < n && !front[i].final && !front[j].final ensures front[i] != front[j] {
        assert ms[i] != ms[j];
      }
    }
    if OthersDistinct(front) && (ms[n].final || ms[n] !in Open(front)) {
      forall i, j | 0 <= i < j < |ms| && !ms[i].final && !ms[j].final ensures ms[i] != ms[j] {
        if j < n { assert front[i] != front[j]; } else { assert front[i] in front; }
      }
    }
  }

  /** The same miniblocks make up a block at one height only, and with one parent only. */
  lemma {:induction false} OnePlace(height: nat, tips: seq<nat>, height': nat, tips': seq<nat>, ms: seq<MiniBlock>)
    requires Acceptable(height, tips, ms) && Acceptable(height', tips', ms) && ms != []
    ensures height == height' > 0 && tips == tips' && |ms| == 10
  {
    hide Open, Finals;
    assert Belongs(ms[0], height, tips[0]) && Belongs(ms[0], height', tips'[0]);
  }

  /** Before the soft fork, one final miniblock is enough, and the others may be repeated. */
  lemma BeforeFork(height: nat, tips: seq<nat>, ms: seq<MiniBlock>)
    requires 0 < height < 399000
    ensures Acceptable(height, tips, ms) <==>
      && |ms| == 10 && |tips| == 1 && (forall i :: 0 <= i < 10 ==> Belongs(ms[i], height, tips[0]))
      && exists i :: 0 <= i < 10 && ms[i].final
  {
    SomeFinal(ms);
  }

  lemma {:induction false} SomeFinal(ms: seq<MiniBlock>)
    ensures Finals(ms) >= 1 <==> exists i :: 0 <= i < |ms| && ms[i].final
  {
    if ms != [] { SomeFinal(ms[..|ms| - 1]); }
  }

  /** From the soft fork on, a block is accepted only with exactly one final miniblock and nine different
      others, and then always, as far as its miniblocks belong to it. */
  lemma {:induction false} SoftForkRule(height: nat, tips: seq<nat>, ms: seq<MiniBlock>)
    requires height >= 399000
    ensures Acceptable(height, tips, ms) <==>
      && |ms| == 10 && |tips| == 1 && (forall i :: 0 <= i < |ms| ==> Belongs(ms[i], height, tips[0]))
      && Finals(ms) == 1 && OthersDistinct(ms)
    ensures Acceptable(height, tips, ms) ==> forall j :: !BadRepeat(ms, j)
  {
    OpenCounts(ms);
  }
}
