/** The topological record file, one record for every height of the recorded chain, and the binary searches
    over it: for the record of a height, and for the height below which the chain is pruned. */
module Topo {
  import opened ChainState
  import opened Pigeonhole

  const SPREAD := 2 * STABLE_LIMIT

  /** A read outside the file fails and leaves the zero record. */
  function ReadAt(file: seq<Rec>, i: int): Rec {
    if 0 <= i < |file| then file[i] else CLEAN
  }

  /** Record i has height i and no two records hold the same block; above the last record the file is clean. */
  ghost predicate Filed(file: seq<Rec>) {
    && (forall i :: 0 <= i < Count(file) ==> file[i].height == i)
    && (forall i :: Count(file) <= i < |file| ==> file[i] == CLEAN)
  }

  // ---------- removing duplicates ----------

  /** The entries of `h` at the first occurrences in `s`. */
  function Firsts<T>(s: seq<nat>, h: seq<T>): seq<T>
    requires |s| == |h|
  {
    if s == [] then []
    else
      var n := |s| - 1;
      Firsts(s[..n], h[..n]) + if s[n] in s[..n] then [] else [h[n]]
  }

  function Without<T>(s: seq<T>, j: nat): seq<T>
    requires j < |s|
  {
    s[..j] + s[j + 1..]
  }

  /** Removing a later occurrence changes nothing. */
  lemma {:induction false} FirstsWithout<T>(s: seq<nat>, h: seq<T>, j: nat)
    requires |s| == |h| && j < |s| && s[j] in s[..j]
    ensures Firsts(Without(s, j), Without(h, j)) == Firsts(s, h)
    decreases |s|
  {
    var n := |s| - 1;
    if j == n {
      assert Without(s, j) == s[..n] && Without(h, j) == h[..n];
    } else {
      var s', h' := Without(s, j), Without(h, j);
      assert s[..n][..j] == s[..j];
      FirstsWithout(s[..n], h[..n], j);
      assert s'[..n - 1] == Without(s[..n], j) && h'[..n - 1] == Without(h[..n], j);
      assert s'[n - 1] == s[n] && h'[n - 1] == h[n];
      assert s[n] in s[..n] <==> s[n] in s'[..n - 1] by { WithoutKeeps(s[..n], j, s[n]); }
    }
  }

  lemma {:induction false} WithoutKeeps(s: seq<nat>, j: nat, x: nat)
    requires j < |s| && s[j] in s[..j]
    ensures x in Without(s, j) <==> x in s
  {
    if x in s {
      var k :| 0 <= k < |s| && s[k] == x;
      if k == j { assert x in s[..j]; }
      else if k < j { assert Without(s, j)[k] == x; }
      else { assert Without(s, j)[k - 1] == x; }
    }
  }

  lemma {:induction false} FirstsOfDistinct<T>(s: seq<nat>, h: seq<T>)
    requires |s| == |h| && Distinct(s)
    ensures Firsts(s, h) == h
    decreases |s|
  {
    if s != [] {
      var n := |s| - 1;
      FirstsOfDistinct(s[..n], h[..n]);
      assert s[n] !in s[..n];
    }
  }

  /** Removes later occurrences in place, together with the entries beside them. */
  method SliceUniq<T>(s0: seq<nat>, h0: seq<T>) returns (s: seq<nat>, h: seq<T>)
    requires |s0| == |h0|
    ensures s == Firsts(s0, s0) && h == Firsts(s0, h0) && Distinct(s)
  {
    s, h := s0, h0;
    var i := 0;
    while i < |s|
      invariant 0 <= i <= |s| == |h|
      invariant Firsts(s, s) == Firsts(s0, s0) && Firsts(s, h) == Firsts(s0, h0)
      invariant forall a, b :: 0 <= a < i && a < b < |s| ==> s[a] != s[b]
      decreases |s| - i
    {
      var i2 := i + 1;
      ghost var size := |s|;
      while i2 < |s|
        invariant i < i2 <= |s| == |h| <= size
        invariant Firsts(s, s) == Firsts(s0, s0) && Firsts(s, h) == Firsts(s0, h0)
        invariant forall a, b :: 0 <= a < i && a < b < |s| ==> s[a] != s[b]
        invariant forall b :: i < b < i2 ==> s[i] != s[b]
        decreases |s| - i2
      {
        if s[i] == s[i2] {
          assert s[..i2][i] == s[i2];
          FirstsWithout(s, s, i2);
          FirstsWithout(s, h, i2);
          s, h := Without(s, i2), Without(h, i2);
          i2 := i2 - 1;
        }
        i2 := i2 + 1;
      }
      i := i + 1;
    }
    FirstsOfDistinct(s, s);
    FirstsOfDistinct(s, h);
  }

  lemma {:induction false} FirstsOfOne<T>(x: nat, y: T)
    ensures Firsts([x], [y]) == [y] && Firsts([x, x], [y, y]) == [y] && Firsts<T>([], []) == []
  {
    assert [x, x][..1] == [x] && [y, y][..1] == [y] && [x][..0] == [] && [y][..0] == [];
    assert x in [x];
    assert Firsts([x], [y]) == Firsts([], []) + [y];
  }

  // ---------- the file ----------

  /** First record above the version of record 0. */
  ghost predicate LastOfVersion(file: seq<Rec>, n: int, k: int) {
    0 <= k < n - 1 && n <= |file| && file[k].version == file[0].version < file[k + 1].version
  }

  ghost predicate Monotone(file: seq<Rec>, n: int) {
    n <= |file| && forall i, j :: 0 <= i <= j < n ==> file[i].version <= file[j].version
  }

  const MAX_INT64 := 0x7fff_ffff_ffff_ffff

  const RECORD_SIZE := 48

  class TopoStore {
    var file: seq<Rec>
    var prunedTill: int

    constructor ()
      ensures file == [] && prunedTill == -1
    {
      file, prunedTill := [], -1;
    }

    method CountRecords() returns (count: nat)
      ensures count == Count(file)
    {
      count := |file|;
      while count >= 1
        invariant count <= |file|
        invariant forall i :: count <= i < |file| ==> IsClean(file[i])
      {
        if !IsClean(file[count - 1]) { break; }
        count := count - 1;
      }
      CountIs(file, count);
    }

    method WriteRecord(index: nat, blid: nat, version: nat, height: nat)
      modifies this`file
      ensures file == Write(old(file), index, Rec(blid, version, height))
    {
      file := Write(file, index, Rec(blid, version, height));
    }

    /** Cleans one record. */
    method Clean(index: nat)
      modifies this`file
      ensures file == Write(old(file), index, CLEAN)
    {
      WriteRecord(index, 0, 0, 0);
    }

    /** The middle of the range, rounded towards zero. */
    static function Middle(start: int, end: int): (m: int)
      requires 0 <= start <= end + 1
      ensures start <= end ==> start <= m <= end
      ensures 0 <= m
    {
      if start + end < 0 then 0 else (start + end) / 2
    }

    /** Narrows down to a record whose height is near the target. */
    method NarrowDown(target: int) returns (mid: int)
      requires Filed(file)
      ensures 0 <= mid <= Count(file)
      ensures 0 <= target < Count(file) ==> target - SPREAD <= mid <= target + SPREAD && mid < Count(file)
    {
      var total := CountRecords();
      var start, end: int := 0, total;
      mid := total / 2;
      while start <= end
        invariant 0 <= start <= end + 1 <= total + 1 && mid == Middle(start, end) && mid <= total
        invariant 0 <= target < total ==> start <= target <= end
        decreases end - start + 1
      {
        var record := ReadAt(file, mid);
        if target - SPREAD <= record.height <= target + SPREAD { break; }
        if record.height >= target {
          end := mid - 1;
        } else {
          start := mid + 1;
        }
        mid := Middle(start, end);
      }
    }

    /** Records of the target height among the 100 from mid downwards. */
    method ScanDown(target: int, mid: int) returns (blids: seq<nat>, topos: seq<int>)
      requires Filed(file) && 0 <= mid <= Count(file) && (Hit(target) && Count(file) > 0 ==> mid < Count(file))
      ensures topos == (if Hit(target) && mid - 100 < target <= mid then [target] else [])
      ensures blids == (if topos != [] then [ReadAt(file, target).blid] else [])
    {
      blids, topos := [], [];
      var i, count := mid, 0;
      while i >= 0 && count < 100
        invariant -1 <= i == mid - count && 0 <= count <= 100
        invariant topos == (if Hit(target) && i < target <= mid then [target] else [])
        invariant blids == (if topos != [] then [ReadAt(file, target).blid] else [])
        decreases 100 - count
      {
        var record := ReadAt(file, i);
        if record.height == target {
          blids, topos := blids + [record.blid], topos + [i];
        }
        i, count := i - 1, count + 1;
      }
    }

    /** Records of the target height among the 100 from mid upwards. */
    method ScanUp(target: int, mid: int) returns (blids: seq<nat>, topos: seq<int>)
      requires Filed(file) && 0 <= mid <= Count(file)
      ensures topos == (if mid <= target < mid + 100 && target < Count(file) then [target] else [])
      ensures blids == (if topos != [] then [ReadAt(file, target).blid] else [])
    {
      blids, topos := [], [];
      var total := CountRecords();
      var i, count := mid, 0;
      while i < total && count < 100
        invariant mid <= i == mid + count && 0 <= count <= 100
        invariant topos == (if mid <= target < i && target < total then [target] else [])
        invariant blids == (if topos != [] then [ReadAt(file, target).blid] else [])
        decreases 100 - count
      {
        var record := ReadAt(file, i);
        if record.height == target {
          blids, topos := blids + [record.blid], topos + [i];
        }
        i, count := i + 1, count + 1;
      }
    }

    /** There is a record of the target height; an empty file reads as one of height 0. */
    ghost predicate Hit(target: int)
      reads this
    {
      0 <= target < Count(file) || target == 0 == Count(file)
    }

    lemma HitMeans(target: int)
      ensures Hit(target) <==> 0 <= target < Count(file) || target == 0 == Count(file)
      ensures SPREAD == 16
    {
    }

    /** The search finds exactly the record at that height. On an empty file, a search for height 0 finds
        the zero record. */
    method BinarySearchHeight(target: int) returns (blids: seq<nat>, topos: seq<int>)
      requires Filed(file)
      ensures Hit(target) ==> blids == [ReadAt(file, target).blid] && topos == [target]
      ensures !Hit(target) ==> blids == [] && topos == []
    {
      hide *;
      var mid := NarrowDown(target);
      HitMeans(target);
      var blids1, topos1 := ScanDown(target, mid);
      var blids2, topos2 := ScanUp(target, mid);
      ghost var x := ReadAt(file, target).blid;
      FirstsOfOne(x, x);
      FirstsOfOne(x, target);
      if Hit(target) {
        assert blids1 + blids2 == (if mid == target < Count(file) then [x, x] else [x]);
        assert topos1 + topos2 == (if mid == target < Count(file) then [target, target] else [target]);
      }
      blids, topos := SliceUniq(blids1 + blids2, topos1 + topos2);
    }

    /** The first of the records up to `count` above the version, MAX_INT64 if there is none. */
    method FirstAbove(version: nat, count: nat) returns (prune: int)
      requires count == Count(file) && Monotone(file, count) && count * RECORD_SIZE <= MAX_INT64
      ensures prune == MAX_INT64 || 0 <= prune < count
      ensures forall k :: 0 <= k < count ==> (file[k].version > version <==> k >= prune)
    {
      hide Count;
      var low, high := 0, count;
      prune := MAX_INT64;
      while low <= high
        invariant 0 <= low <= high + 1 <= count + 1
        invariant forall k :: 0 <= k < low && k < count ==> file[k].version <= version
        invariant forall k :: high < k < count ==> file[k].version > version
        invariant prune == if high < count - 1 then high + 1 else MAX_INT64
        decreases high - low + 1
      {
        var median := (low + high) / 2;
        if ReadAt(file, median).version >= version + 1 {
          if prune > median { prune := median; }
          high := median - 1;
        } else {
          low := median + 1;
        }
      }
    }

    /** The last record that shares record 0's version, if the chain is pruned; None if the result is
        out of range and the original panics. */
    method LocatePruneTopo() returns (r: Option<int>)
      requires Monotone(file, Count(file)) && Count(file) * RECORD_SIZE <= MAX_INT64
      modifies this`prunedTill
      ensures old(prunedTill) >= 0 ==> r == Some(old(prunedTill)) && prunedTill == old(prunedTill)
      ensures old(prunedTill) < 0 && !LooksPruned() ==> r == Some(0) && prunedTill == old(prunedTill)
      ensures old(prunedTill) < 0 && LooksPruned() ==>
        if file[Count(file) - 1].version == file[0].version then r == None && prunedTill == old(prunedTill)
        else r.Some? && prunedTill == r.value >= 5 && LastOfVersion(file, Count(file), r.value)
    {
      if prunedTill >= 0 { return Some(prunedTill); }
      var count := CountRecords();
      if count < 10 { return Some(0); }
      var zero := ReadAt(file, 0);
      if IsClean(zero) { return Some(0); }
      var fifth := ReadAt(file, 5);
      if IsClean(fifth) { return Some(0); }
      if zero.version != fifth.version { return Some(0); }
      var pruneTopo := FirstAbove(zero.version, count);
      pruneTopo := pruneTopo - 1;
      if pruneTopo > count { return None; }
      prunedTill := pruneTopo;
      return Some(pruneTopo);
    }

    /** Records 0 and 5 share a snapshot. */
    ghost predicate LooksPruned()
      reads this
    {
      Count(file) >= 10 && !IsClean(file[0]) && !IsClean(file[5]) && file[0].version == file[5].version
    }
  }
}
