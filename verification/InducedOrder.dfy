/** The orders that the induced-sorting scans really sort by. */
module InducedOrder {
  import opened SuffixOrder

  // `OrdL` and `OrdS` compare two positions character by character, an L position before
  // an S position of the same character, and stop at the first S position that follows an L
  // run. With `full` they go on there with the suffix order; without it such positions tie.
  // So `full` gives the suffix order itself and `!full` the order of LMS-substrings,
  // and one argument about the scans serves both.

  /** Order between L positions, and positions that end an L run (S positions and |t|). */
  ghost predicate OrdL(t: seq<int>, full: bool, x: int, y: int)
    requires 0 <= x <= |t| && 0 <= y <= |t|
    decreases |t| - x
  {
    y < |t| && (x == |t| || t[x] < t[y] ||
                (t[x] == t[y] &&
                 if IsS(t, x) then IsS(t, y) && full && Less(t, x, y)
                 else IsS(t, y) || OrdL(t, full, x + 1, y + 1)))
  }

  /** Order between arbitrary positions. */
  ghost predicate OrdS(t: seq<int>, full: bool, x: int, y: int)
    requires 0 <= x <= |t| && 0 <= y <= |t|
    decreases |t| - x
  {
    y < |t| && (x == |t| || t[x] < t[y] ||
                (t[x] == t[y] &&
                 if IsS(t, x) then IsS(t, y) && OrdS(t, full, x + 1, y + 1)
                 else IsS(t, y) || OrdL(t, full, x + 1, y + 1)))
  }

  lemma {:induction false} OrdLIsLess(t: seq<int>, x: int, y: int)
    requires 0 <= x <= |t| && 0 <= y <= |t|
    ensures OrdL(t, true, x, y) <==> Less(t, x, y)
    decreases |t| - x
  {
    if x < |t| && y < |t| && t[x] == t[y] {
      if !IsS(t, x) && IsS(t, y) {
        LBeforeS(t, x, y);
      } else if IsS(t, x) && !IsS(t, y) {
        LBeforeS(t, y, x);
        LessAsymmetric(t, y, x);
      } else if !IsS(t, x) {
        OrdLIsLess(t, x + 1, y + 1);
      }
    }
  }

  lemma {:induction false} OrdSIsLess(t: seq<int>, x: int, y: int)
    requires 0 <= x <= |t| && 0 <= y <= |t|
    ensures OrdS(t, true, x, y) <==> Less(t, x, y)
    decreases |t| - x
  {
    if x < |t| && y < |t| && t[x] == t[y] {
      if !IsS(t, x) && IsS(t, y) {
        LBeforeS(t, x, y);
      } else if IsS(t, x) && !IsS(t, y) {
        LBeforeS(t, y, x);
        LessAsymmetric(t, y, x);
      } else if IsS(t, x) {
        OrdSIsLess(t, x + 1, y + 1);
      } else {
        OrdLIsLess(t, x + 1, y + 1);
      }
    }
  }

  // ---------- LMS-substrings ----------

  /** First position from `x` on that is S (|t| counts as S). */
  ghost function EndL(t: seq<int>, x: int): (e: int)
    requires 0 <= x <= |t|
    ensures x <= e <= |t| && IsS(t, e)
    ensures forall z :: x <= z < e ==> !IsS(t, z)
    decreases |t| - x
  {
    if IsS(t, x) then x else EndL(t, x + 1)
  }

  /** End of the S-run, L-run pair that starts at `x`: where the LMS-substring at `x` ends. */
  ghost function EndS(t: seq<int>, x: int): (e: int)
    requires 0 <= x <= |t|
    ensures x <= e <= |t| && IsS(t, e)
    ensures x < |t| ==> x < e && !IsS(t, e - 1)
    ensures forall z :: x < z < e ==> !IsLMS(t, z)
    decreases |t| - x
  {
    if x == |t| then x
    else if IsS(t, x) then EndS(t, x + 1)
    else EndL(t, x + 1)
  }

  /** Positions that `OrdL` without `full` does not separate. */
  ghost predicate TieL(t: seq<int>, x: int, y: int)
    requires 0 <= x <= |t| && 0 <= y <= |t|
    decreases |t| - x
  {
    if x == |t| || y == |t| then x == y
    else t[x] == t[y] && (IsS(t, x) <==> IsS(t, y)) && (IsS(t, x) || TieL(t, x + 1, y + 1))
  }

  /** Positions that start equal LMS-substrings (same characters, same types, same length). */
  ghost predicate TieS(t: seq<int>, x: int, y: int)
    requires 0 <= x <= |t| && 0 <= y <= |t|
    decreases |t| - x
  {
    if x == |t| || y == |t| then x == y
    else t[x] == t[y] && (IsS(t, x) <==> IsS(t, y)) &&
         (if IsS(t, x) then TieS(t, x + 1, y + 1) else TieL(t, x + 1, y + 1))
  }

  lemma {:induction false} TrichotomyL(t: seq<int>, x: int, y: int)
    requires 0 <= x <= |t| && 0 <= y <= |t|
    ensures TieL(t, x, y) <==> !OrdL(t, false, x, y) && !OrdL(t, false, y, x)
    ensures !(OrdL(t, false, x, y) && OrdL(t, false, y, x))
    decreases |t| - x
  {
    if x < |t| && y < |t| && t[x] == t[y] && !IsS(t, x) && !IsS(t, y) {
      TrichotomyL(t, x + 1, y + 1);
    }
  }

  /** LMS-substring order is a weak order whose ties are exactly the equal substrings. */
  lemma {:induction false} TrichotomyS(t: seq<int>, x: int, y: int)
    requires 0 <= x <= |t| && 0 <= y <= |t|
    ensures TieS(t, x, y) <==> !OrdS(t, false, x, y) && !OrdS(t, false, y, x)
    ensures !(OrdS(t, false, x, y) && OrdS(t, false, y, x))
    decreases |t| - x
  {
    if x < |t| && y < |t| && t[x] == t[y] {
      if IsS(t, x) && IsS(t, y) {
        TrichotomyS(t, x + 1, y + 1);
      } else if !IsS(t, x) && !IsS(t, y) {
        TrichotomyL(t, x + 1, y + 1);
      }
    }
  }

  lemma {:induction false} CompareThroughL(t: seq<int>, x: int, y: int, z: int)
    requires 0 <= x <= |t| && 0 <= y <= |t| && 0 <= z <= |t|
    requires OrdL(t, false, x, z)
    ensures OrdL(t, false, x, y) || OrdL(t, false, y, z)
    decreases |t| - x
  {
    if x < |t| && y < |t| && t[x] == t[y] == t[z] && !IsS(t, x) && !IsS(t, y) && !IsS(t, z) {
      CompareThroughL(t, x + 1, y + 1, z + 1);
    }
  }

  /** A strict LMS-substring inequality shows on one side of any third substring. */
  lemma {:induction false} CompareThroughS(t: seq<int>, x: int, y: int, z: int)
    requires 0 <= x <= |t| && 0 <= y <= |t| && 0 <= z <= |t|
    requires OrdS(t, false, x, z)
    ensures OrdS(t, false, x, y) || OrdS(t, false, y, z)
    decreases |t| - x
  {
    if x < |t| && y < |t| && t[x] == t[y] == t[z] {
      if IsS(t, x) && IsS(t, y) && IsS(t, z) {
        CompareThroughS(t, x + 1, y + 1, z + 1);
      } else if !IsS(t, x) && !IsS(t, y) && !IsS(t, z) {
        CompareThroughL(t, x + 1, y + 1, z + 1);
      }
    }
  }

  lemma {:induction false} TieSymmetric(t: seq<int>, x: int, y: int)
    requires 0 <= x <= |t| && 0 <= y <= |t| && TieS(t, x, y)
    ensures TieS(t, y, x)
  {
    TrichotomyS(t, x, y);
    TrichotomyS(t, y, x);
  }

  lemma {:induction false} TieTransitive(t: seq<int>, x: int, y: int, z: int)
    requires 0 <= x <= |t| && 0 <= y <= |t| && 0 <= z <= |t|
    requires TieS(t, x, y) && TieS(t, y, z)
    ensures TieS(t, x, z)
  {
    TrichotomyS(t, x, y);
    TrichotomyS(t, y, z);
    TrichotomyS(t, x, z);
    if OrdS(t, false, x, z) { CompareThroughS(t, x, y, z); }
    if OrdS(t, false, z, x) { CompareThroughS(t, z, y, x); }
  }

  lemma {:induction false} OrdLImpliesLess(t: seq<int>, x: int, y: int)
    requires 0 <= x <= |t| && 0 <= y <= |t|
    requires OrdL(t, false, x, y)
    ensures Less(t, x, y)
    decreases |t| - x
  {
    if x < |t| && t[x] == t[y] {
      if IsS(t, y) { LBeforeS(t, x, y); } else { OrdLImpliesLess(t, x + 1, y + 1); }
    }
  }

  /** A smaller LMS-substring starts a smaller suffix. */
  lemma {:induction false} OrdSImpliesLess(t: seq<int>, x: int, y: int)
    requires 0 <= x <= |t| && 0 <= y <= |t|
    requires OrdS(t, false, x, y)
    ensures Less(t, x, y)
    decreases |t| - x
  {
    if x < |t| && t[x] == t[y] {
      if IsS(t, x) { OrdSImpliesLess(t, x + 1, y + 1); }
      else if IsS(t, y) { LBeforeS(t, x, y); }
      else { OrdLImpliesLess(t, x + 1, y + 1); }
    }
  }

  lemma {:induction false} TieLEnds(t: seq<int>, x: int, y: int)
    requires 0 <= x <= |t| && 0 <= y <= |t| && TieL(t, x, y)
    ensures EndL(t, x) == |t| <==> EndL(t, y) == |t|
    ensures EndL(t, x) == |t| ==> x == y
    decreases |t| - x
  {
    if x < |t| && y < |t| && !IsS(t, x) { TieLEnds(t, x + 1, y + 1); }
  }

  lemma {:induction false} TieLDefersToEnd(t: seq<int>, x: int, y: int)
    requires 0 <= x <= |t| && 0 <= y <= |t| && TieL(t, x, y)
    ensures EndL(t, x) - x == EndL(t, y) - y
    ensures Less(t, x, y) <==> Less(t, EndL(t, x), EndL(t, y))
    decreases |t| - x
  {
    if x < |t| && !IsS(t, x) { TieLDefersToEnd(t, x + 1, y + 1); }
  }

  /** Equal LMS-substrings are equally long, and their suffixes compare as their ends do. */
  lemma {:induction false} TieSDefersToEnd(t: seq<int>, x: int, y: int)
    requires 0 <= x <= |t| && 0 <= y <= |t| && TieS(t, x, y)
    ensures EndS(t, x) - x == EndS(t, y) - y
    ensures Less(t, x, y) <==> Less(t, EndS(t, x), EndS(t, y))
    decreases |t| - x
  {
    if x < |t| && y < |t| {
      if IsS(t, x) { TieSDefersToEnd(t, x + 1, y + 1); } else { TieLDefersToEnd(t, x + 1, y + 1); }
    }
  }

  lemma {:induction false} TieLSameText(t: seq<int>, x: int, y: int, k: int)
    requires 0 <= x <= |t| && 0 <= y <= |t| && TieL(t, x, y)
    requires x <= k <= EndL(t, x) < |t|
    ensures k - x + y < |t| && t[k] == t[k - x + y]
    decreases |t| - x
  {
    if x < k { TieLSameText(t, x + 1, y + 1, k); }
  }

  /** Equal LMS-substrings have the same characters, the end character included. */
  lemma {:induction false} TieSSameText(t: seq<int>, x: int, y: int, k: int)
    requires 0 <= x <= |t| && 0 <= y <= |t| && TieS(t, x, y)
    requires x <= k <= EndS(t, x) < |t|
    ensures k - x + y < |t| && t[k] == t[k - x + y]
    decreases |t| - x
  {
    if x < k {
      if IsS(t, x) { TieSSameText(t, x + 1, y + 1, k); } else { TieLSameText(t, x + 1, y + 1, k); }
    }
  }

  /** The last LMS-substring, which ends at the sentinel, ties only with itself. */
  lemma {:induction false} LastSubstringUnique(t: seq<int>, x: int, y: int)
    requires 0 <= x <= |t| && 0 <= y <= |t| && TieS(t, x, y)
    ensures EndS(t, x) == |t| <==> EndS(t, y) == |t|
    ensures EndS(t, x) == |t| ==> x == y
    decreases |t| - x
  {
    if x < |t| && y < |t| {
      if IsS(t, x) { LastSubstringUnique(t, x + 1, y + 1); } else { TieLEnds(t, x + 1, y + 1); }
    }
  }

  /** Dropping the first character of two equal stretches leaves equal stretches. */
  lemma {:induction false} SameTextTail(t: seq<int>, x: int, y: int, d: int)
    requires 0 <= x && x + d < |t| && 0 <= y && y + d < |t| && 0 < d
    requires t[x..x + d + 1] == t[y..y + d + 1]
    ensures t[x] == t[y] && t[x + 1] == t[y + 1]
    ensures t[x + 1..x + d + 1] == t[y + 1..y + d + 1]
  {
    assert t[x..x + d + 1][0] == t[y..y + d + 1][0];
    assert t[x..x + d + 1][1] == t[y..y + d + 1][1];
    assert t[x + 1..x + d + 1] == t[x..x + d + 1][1..];
    assert t[y + 1..y + d + 1] == t[y..y + d + 1][1..];
  }

  /** Equal characters up to two S positions force equal types at the start. */
  lemma {:induction false} SameTextSameType(t: seq<int>, x: int, y: int, d: int)
    requires 0 <= d && 0 <= x && x + d < |t| && 0 <= y && y + d < |t|
    requires t[x..x + d + 1] == t[y..y + d + 1]
    requires IsS(t, x + d) && IsS(t, y + d)
    ensures IsS(t, x) <==> IsS(t, y)
    decreases d
  {
    if d > 0 {
      SameTextTail(t, x, y, d);
      SameTextSameType(t, x + 1, y + 1, d - 1);
    }
  }

  lemma {:induction false} SameTextTieL(t: seq<int>, x: int, y: int, d: int)
    requires 0 <= d && 0 <= x && x + d < |t| && 0 <= y && y + d < |t|
    requires EndL(t, x) == x + d && EndL(t, y) == y + d
    requires t[x..x + d + 1] == t[y..y + d + 1]
    ensures TieL(t, x, y)
    decreases d
  {
    if d > 0 {
      SameTextTail(t, x, y, d);
      SameTextTieL(t, x + 1, y + 1, d - 1);
    } else {
      assert t[x..x + 1][0] == t[y..y + 1][0];
    }
  }

  /** Same length and same characters make equal LMS-substrings; types need no comparison. */
  lemma {:induction false} SameTextTieS(t: seq<int>, x: int, y: int, d: int)
    requires 0 <= d && 0 <= x && x + d < |t| && 0 <= y && y + d < |t|
    requires EndS(t, x) == x + d && EndS(t, y) == y + d
    requires t[x..x + d + 1] == t[y..y + d + 1]
    ensures TieS(t, x, y)
    decreases d
  {
    hide TieS, TieL, EndS, EndL, IsS;
    SameTextSameType(t, x, y, d);
    SameTextTail(t, x, y, d);
    EndSStep(t, x);
    EndSStep(t, y);
    if IsS(t, x) { SameTextTieS(t, x + 1, y + 1, d - 1); } else { SameTextTieL(t, x + 1, y + 1, d - 1); }
    TieSStep(t, x, y);
  }

  lemma EndSStep(t: seq<int>, x: int)
    requires 0 <= x < |t|
    ensures EndS(t, x) == if IsS(t, x) then EndS(t, x + 1) else EndL(t, x + 1)
  {
  }

  lemma TieSStep(t: seq<int>, x: int, y: int)
    requires 0 <= x < |t| && 0 <= y < |t| && t[x] == t[y] && (IsS(t, x) <==> IsS(t, y))
    ensures TieS(t, x, y) <==> if IsS(t, x) then TieS(t, x + 1, y + 1) else TieL(t, x + 1, y + 1)
  {
  }
}
