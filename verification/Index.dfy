/** Substring search with a suffix array. */
module Index {
  import opened SuffixOrder
  import opened Memory
  import opened Pow
  import opened Pigeonhole

  // A binary search finds the range of matching suffixes; the matches of a literal do not overlap.

  /** `s` occurs in `t` at position `i`. */
  predicate Occurs(t: seq<int>, s: seq<int>, i: int) {
    0 <= i && i + |s| <= |t| && t[i..i + |s|] == s
  }

  /** The suffix of `t` at `i` is lexicographically at least `s`. */
  predicate AtLeast(t: seq<int>, i: int, s: seq<int>)
    requires 0 <= i <= |t|
    decreases |s|
  {
    s == [] || (i < |t| && (t[i] > s[0] || (t[i] == s[0] && AtLeast(t, i + 1, s[1..]))))
  }

  lemma {:induction false} OccursStep(t: seq<int>, s: seq<int>, i: int)
    requires 0 <= i < |t| && s != []
    ensures Occurs(t, s, i) <==> t[i] == s[0] && Occurs(t, s[1..], i + 1)
  {
    if i + |s| <= |t| {
      assert t[i..i + |s|] == [t[i]] + t[i + 1..i + |s|];
      assert s == [s[0]] + s[1..];
    }
  }

  lemma {:induction false} OccursAtLeast(t: seq<int>, s: seq<int>, i: int)
    requires Occurs(t, s, i)
    ensures AtLeast(t, i, s)
    decreases |s|
  {
    if s != [] {
      OccursStep(t, s, i);
      OccursAtLeast(t, s[1..], i + 1);
    }
  }

  /** Going up in suffix order, a suffix that has reached `s` stays at least `s`. */
  lemma {:induction false} AtLeastMonotone(t: seq<int>, s: seq<int>, i: int, j: int)
    requires 0 <= i <= |t| && 0 <= j <= |t| && Less(t, i, j) && AtLeast(t, i, s)
    ensures AtLeast(t, j, s)
    decreases |s|
  {
    if s != [] && t[i] == t[j] && t[i] == s[0] { AtLeastMonotone(t, s[1..], i + 1, j + 1); }
  }

  /** Between `s` and a suffix that starts with `s`, every suffix starts with `s`. */
  lemma {:induction false} PrefixDownward(t: seq<int>, s: seq<int>, i: int, j: int)
    requires 0 <= i <= |t| && 0 <= j <= |t| && Less(t, i, j) && AtLeast(t, i, s) && Occurs(t, s, j)
    ensures Occurs(t, s, i)
    decreases |s|
  {
    if s == [] {
      assert t[i..i] == [];
    } else {
      OccursStep(t, s, j);
      OccursStep(t, s, i);
      PrefixDownward(t, s[1..], i + 1, j + 1);
    }
  }

  /** The index: data and its suffix array. */
  class Index {
    var data: array<int>
    var sa: array<int>

    ghost predicate Valid()
      reads this, data, sa
    {
      data != sa && IsSuffixArray(data[..], sa[..])
    }

    constructor (input: array<int>)
      requires input.Length <= W32.Max() && Bytes(input[..])
      ensures Valid() && data == input && fresh(sa) && data[..] == old(input[..])
    {
      data := input;
      sa := new int[input.Length](_ => 0);
      new;
      TextToSuffixArray(input, sa, W32);
    }

    /** The first place whose suffix is at least `s`. */
    method SearchLower(s: seq<int>) returns (i: int)
      requires Valid()
      ensures 0 <= i <= sa.Length && IsSuffixArray(data[..], sa[..])
      ensures forall p :: 0 <= p < sa.Length ==> (AtLeast(data[..], sa[p], s) <==> i <= p)
    {
      hide Less;
      ghost var t, v := data[..], sa[..];
      var hi := sa.Length;
      i := 0;
      while i < hi
        invariant 0 <= i <= hi <= sa.Length
        invariant forall p :: 0 <= p < i ==> !AtLeast(t, v[p], s)
        invariant forall p :: hi <= p < sa.Length ==> AtLeast(t, v[p], s)
      {
        var h := (i + hi) / 2;
        if !AtLeast(data[..], sa[h], s) {
          forall p | 0 <= p < h ensures !AtLeast(t, v[p], s) {
            if AtLeast(t, v[p], s) { AtLeastMonotone(t, s, v[p], v[h]); }
          }
          i := h + 1;
        } else {
          forall p | h < p < sa.Length ensures AtLeast(t, v[p], s) { AtLeastMonotone(t, s, v[h], v[p]); }
          hi := h;
        }
      }
    }

    /** The first place from `i` on whose suffix does not start with `s`. */
    method SearchUpper(s: seq<int>, i: int) returns (j: int)
      requires Valid() && 0 <= i <= sa.Length && IsSuffixArray(data[..], sa[..])
      requires forall p :: i <= p < sa.Length ==> AtLeast(data[..], sa[p], s)
      ensures i <= j <= sa.Length && IsSuffixArray(data[..], sa[..])
      ensures forall p :: i <= p < sa.Length ==> (Occurs(data[..], s, sa[p]) <==> p < j)
    {
      hide Less, AtLeast, Occurs;
      ghost var t, v := data[..], sa[..];
      var hi := sa.Length;
      j := i;
      while j < hi
        invariant i <= j <= hi <= sa.Length
        invariant forall p :: i <= p < j ==> Occurs(t, s, v[p])
        invariant forall p :: hi <= p < sa.Length ==> !Occurs(t, s, v[p])
      {
        var h := (j + hi) / 2;
        if Occurs(data[..], s, sa[h]) {
          forall p | i <= p < h ensures Occurs(t, s, v[p]) { PrefixDownward(t, s, v[p], v[h]); }
          j := h + 1;
        } else {
          forall p | h < p < sa.Length ensures !Occurs(t, s, v[p]) {
            if Occurs(t, s, v[p]) { PrefixDownward(t, s, v[h], v[p]); }
          }
          hi := h;
        }
      }
    }

    /** The range of the suffix array whose suffixes start with `s`: exactly the occurrences of `s`. */
    method LookupAll(s: seq<int>) returns (i: int, j: int)
      requires Valid()
      ensures 0 <= i <= j <= sa.Length && IsSuffixArray(data[..], sa[..])
      ensures forall p :: 0 <= p < sa.Length ==> (i <= p < j <==> Occurs(data[..], s, sa[p]))
    {
      hide Less, AtLeast, Occurs;
      ghost var t, v := data[..], sa[..];
      i := SearchLower(s);
      j := SearchUpper(s, i);
      forall p | 0 <= p < i ensures !Occurs(t, s, v[p]) {
        if Occurs(t, s, v[p]) { OccursAtLeast(t, s, v[p]); }
      }
    }

    /** At most `n` positions where `s` occurs, each once; all of them if n < 0. */
    method Lookup(s: seq<int>, n: int) returns (result: seq<int>)
      requires Valid()
      ensures Distinct(result) && forall k :: 0 <= k < |result| ==> Occurs(data[..], s, result[k])
      ensures s == [] || n == 0 ==> result == []
      ensures s != [] && n > 0 ==> |result| <= n
      ensures s != [] && n != 0 && |result| != n ==> forall p :: Occurs(data[..], s, p) ==> p in result
      ensures s != [] && n != 0 && result == [] ==> forall p :: !Occurs(data[..], s, p)
    {
      result := [];
      if s == [] || n == 0 {
        return;
      }
      var i, j := LookupAll(s);
      var m := n;
      var count := j - i;
      if n < 0 || count < n { m := count; }
      result := sa[i..i + m];
      ghost var t, v := data[..], sa[..];
      assert result == v[i..i + m];
      forall p, q | 0 <= p < q < |result| ensures result[p] != result[q] { LessIrreflexive(t, v[i + p]); }
      if m == count {
        forall x | Occurs(t, s, x) ensures x in result {
          var p := Find(t, v, x);
          assert result[p - i] == x;
        }
      }
    }

    /** The matches of a literal: sorted, non-overlapping, at most `n` unless n < 0. */
    method FindLiteral(lit: seq<int>, n: int) returns (result: seq<(int, int)>)
      requires Valid() && lit != []
      ensures Matches(data[..], lit, result)
      ensures n >= 0 ==> |result| <= n
      ensures n < 0 || |result| < n ==> result == Pairs(Greedy(Occurrences(data[..], lit, 0), |lit|, 0), |lit|)
    {
      hide Less, Occurs, Greedy, Pairs, Distinct, Ascending;
      ghost var t := data[..];
      result := [];
      var n1 := n;
      while true
        invariant data[..] == t && (n1 == n || n1 > n > 0)
        invariant Matches(t, lit, result) && (n1 == n ==> result == [])
        invariant n1 > n ==> exists x :: Occurs(t, lit, x)
        decreases if n1 > 0 then |t| + 1 - n1 else 0
      {
        var indices := Lookup(lit, n1);
        assert data[..] == t;
        if indices == [] {
          assert n1 != 0 ==> forall x :: !Occurs(t, lit, x);
          NoOccurrences(t, lit);
          return;
        }
        assert Occurs(t, lit, indices[0]);
        LookupBound(t, lit, indices);
        indices := SortInts(indices);
        AllFound(t, lit, indices);
        var starts := NonOverlapping(indices, |lit|, n);
        GreedyMatches(t, lit, indices, starts);
        result := Pairs(starts, |lit|);
        if |result| >= n || |indices| != n1 {
          return;
        }
        n1 := n1 + 2 * (n - |result|);
      }
    }
  }

  /** Pairs of start and end of occurrences of `s`, in order and without overlap. */
  ghost predicate Matches(t: seq<int>, s: seq<int>, r: seq<(int, int)>) {
    && (forall k :: 0 <= k < |r| ==> Occurs(t, s, r[k].0) && r[k].1 == r[k].0 + |s|)
    && (forall k :: 0 < k < |r| ==> r[k - 1].1 <= r[k].0)
  }

  /** At most `n` (if n >= 0) of the ascending positions, skipping those that overlap the one before. */
  method NonOverlapping(indices: seq<int>, len: nat, n: int) returns (starts: seq<int>)
    ensures starts <= Greedy(indices, len, 0)
    ensures n >= 0 ==> |starts| <= n
    ensures n < 0 || |starts| < n ==> starts == Greedy(indices, len, 0)
  {
    starts := [];
    var prev := 0;
    var i := 0;
    while i < |indices| && |starts| != n
      invariant 0 <= i <= |indices|
      invariant n >= 0 ==> |starts| <= n
      invariant starts + Greedy(indices[i..], len, prev) == Greedy(indices, len, 0)
    {
      assert indices[i..] == [indices[i]] + indices[i + 1..];
      if prev <= indices[i] {
        starts := starts + [indices[i]];
        prev := indices[i] + len;
      }
      i := i + 1;
    }
  }

  /** All positions from `i` on where `s` occurs, in order: what a naive scan finds. */
  ghost function Occurrences(t: seq<int>, s: seq<int>, i: int): seq<int>
    requires 0 <= i <= |t|
    decreases |t| - i
  {
    if i == |t| then [] else (if Occurs(t, s, i) then [i] else []) + Occurrences(t, s, i + 1)
  }

  /** Left-to-right choice of positions that do not overlap the previous match. */
  ghost function Greedy(xs: seq<int>, len: int, prev: int): seq<int> {
    if xs == [] then [] else if prev <= xs[0] then [xs[0]] + Greedy(xs[1..], len, xs[0] + len) else Greedy(xs[1..], len, prev)
  }

  function Pairs(xs: seq<int>, len: int): (r: seq<(int, int)>)
    ensures |r| == |xs|
    ensures forall k :: 0 <= k < |r| ==> r[k] == (xs[k], xs[k] + len)
  {
    if xs == [] then [] else [(xs[0], xs[0] + len)] + Pairs(xs[1..], len)
  }

  ghost predicate Ascending(s: seq<int>) {
    forall p, q :: 0 <= p < q < |s| ==> s[p] < s[q]
  }

  /** Sorting of pairwise distinct integers. */
  function SortInts(s: seq<int>): (r: seq<int>)
    requires Distinct(s)
    ensures Ascending(r) && |r| == |s| && forall x :: x in r <==> x in s
  {
    if s == [] then [] else InsertInt(s[0], SortInts(s[1..]))
  }

  function InsertInt(x: int, s: seq<int>): (r: seq<int>)
    requires Ascending(s) && x !in s
    ensures Ascending(r) && |r| == |s| + 1 && forall y :: y in r <==> y == x || y in s
  {
    if s == [] || x < s[0] then [x] + s
    else
      var rest := InsertInt(x, s[1..]);
      assert forall k :: 0 <= k < |rest| ==> s[0] < rest[k] by {
        forall k | 0 <= k < |rest| ensures s[0] < rest[k] { assert rest[k] in rest; }
      }
      [s[0]] + rest
  }

  lemma {:induction false} OccurrencesElements(t: seq<int>, s: seq<int>, i: int)
    requires 0 <= i <= |t|
    ensures forall k :: 0 <= k < |Occurrences(t, s, i)| ==> i <= Occurrences(t, s, i)[k]
    ensures Ascending(Occurrences(t, s, i))
    ensures s != [] ==> forall x :: x in Occurrences(t, s, i) <==> i <= x && Occurs(t, s, x)
    decreases |t| - i
  {
    if i < |t| { OccurrencesElements(t, s, i + 1); }
  }

  /** Two ascending sequences with the same elements are equal. */
  lemma {:induction false} AscendingUnique(a: seq<int>, b: seq<int>)
    requires Ascending(a) && Ascending(b) && forall x :: x in a <==> x in b
    ensures a == b
  {
    assert b == [] || b[0] in b;
    if a != [] {
      assert a[0] in a && b != [];
      assert b[0] in b;
      assert a == [a[0]] + a[1..] && b == [b[0]] + b[1..];
      forall x ensures x in a[1..] <==> x in b[1..] { assert x in a[1..] <==> x in a && x != a[0]; }
      AscendingUnique(a[1..], b[1..]);
    }
  }

  lemma {:induction false} NoOccurrences(t: seq<int>, s: seq<int>)
    requires s != []
    ensures (forall x :: !Occurs(t, s, x)) ==> Occurrences(t, s, 0) == []
    ensures Pairs(Greedy([], |s|, 0), |s|) == []
  {
    OccurrencesElements(t, s, 0);
    var o := Occurrences(t, s, 0);
    if o != [] { assert o[0] in o; }
  }

  lemma {:induction false} AllFound(t: seq<int>, s: seq<int>, xs: seq<int>)
    requires Ascending(xs) && s != [] && forall x :: x in xs ==> Occurs(t, s, x)
    ensures (forall x :: Occurs(t, s, x) ==> x in xs) ==> xs == Occurrences(t, s, 0)
  {
    OccurrencesElements(t, s, 0);
    if forall x :: Occurs(t, s, x) ==> x in xs { AscendingUnique(xs, Occurrences(t, s, 0)); }
  }

  /** Any leading part of the greedy choice consists of matches. */
  lemma {:induction false} GreedyMatches(t: seq<int>, s: seq<int>, xs: seq<int>, starts: seq<int>)
    requires (forall x :: x in xs ==> Occurs(t, s, x)) && starts <= Greedy(xs, |s|, 0)
    ensures Matches(t, s, Pairs(starts, |s|))
  {
    GreedyApart(t, s, xs, 0);
    var r := Pairs(starts, |s|);
    var g := Greedy(xs, |s|, 0);
    forall k | 0 < k < |r| ensures r[k - 1].1 <= r[k].0 { assert g[k - 1] + |s| <= g[k]; }
  }

  lemma {:induction false} GreedyApart(t: seq<int>, s: seq<int>, xs: seq<int>, prev: int)
    requires forall x :: x in xs ==> Occurs(t, s, x)
    ensures forall k :: 0 <= k < |Greedy(xs, |s|, prev)| ==>
              Occurs(t, s, Greedy(xs, |s|, prev)[k]) && prev <= Greedy(xs, |s|, prev)[k]
    ensures forall k :: 0 < k < |Greedy(xs, |s|, prev)| ==>
              Greedy(xs, |s|, prev)[k - 1] + |s| <= Greedy(xs, |s|, prev)[k]
    decreases |xs|
  {
    if xs != [] {
      var g := Greedy(xs, |s|, prev);
      if prev <= xs[0] {
        GreedyApart(t, s, xs[1..], xs[0] + |s|);
        var rest := Greedy(xs[1..], |s|, xs[0] + |s|);
        assert g == [xs[0]] + rest;
        forall k | 0 < k < |g| ensures g[k - 1] + |s| <= g[k] {
          if k > 1 { assert rest[k - 2] + |s| <= rest[k - 1]; }
        }
      } else {
        GreedyApart(t, s, xs[1..], prev);
      }
    }
  }

  lemma {:induction false} LookupBound(t: seq<int>, s: seq<int>, xs: seq<int>)
    requires Distinct(xs) && s != [] && forall x :: x in xs ==> Occurs(t, s, x)
    ensures |xs| <= |t|
  {
    RangeSize(0, |t|);
    DistinctFits(xs, Range(0, |t|));
  }
}
