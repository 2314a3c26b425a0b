/** Slices: windows into arrays that several slices may share, as Go slices do. */
module Memory {
  // The suffix-array construction cuts one backing array into text, scratch space and result,
  // so which windows overlap is part of what has to be proved.

  /** The two machine word sizes that suffix arrays are built in. */
  datatype Width = W16 | W32 {
    function Bytes(): nat { if W16? then 2 else 4 }
    function Modulus(): nat { if W16? then 0x1_0000 else 0x1_0000_0000 }
    function Max(): nat { if W16? then 0x7fff else 0x7fff_ffff }

    /** The signed word with the same bits as the unsigned word `u`. */
    function Signed(u: int): int {
      if u > Max() then u - Modulus() else u
    }
  }

  /** `len` cells of `arr` from `lo` on, holding signed words of the given width. */
  datatype Slice = Slice(arr: array<int>, lo: nat, len: nat, width: Width) {
    ghost predicate Valid() {
      lo + len <= arr.Length
    }

    ghost function View(): (v: seq<int>)
      requires Valid()
      reads arr
      ensures |v| == len
    {
      arr[lo..lo + len]
    }

    function Get(i: int): (r: int)
      requires Valid() && 0 <= i < len
      reads arr
      ensures r == View()[i]
    {
      arr[lo + i]
    }

    /** The value fits into a cell. */
    ghost predicate Holds(v: int) {
      -(width.Max() as int) - 1 <= v <= width.Max()
    }

    /** s[from:to] */
    function Sub(from: int, to: int): Slice
      requires 0 <= from <= to <= len
    {
      Slice(arr, lo + from, to - from, width)
    }
  }

  /** The two windows share no cell. */
  ghost predicate Apart(a: Slice, b: Slice) {
    a.arr != b.arr || a.lo + a.len <= b.lo || b.lo + b.len <= a.lo
  }

  /** Every slice of `keep` lies outside `s`. */
  ghost predicate AllApart(s: Slice, keep: seq<Slice>) {
    forall k :: k in keep ==> k.Valid() && Apart(s, k)
  }


  /** s[i] = v; cells outside `s` keep their values. */
  method Put(s: Slice, i: int, v: int, ghost o: Slice, ghost u: Slice, ghost keep: seq<Slice>)
    requires s.Valid() && 0 <= i < s.len && s.Holds(v)
    requires o.Valid() && u.Valid() && Apart(s, o) && Apart(s, u) && AllApart(s, keep)
    modifies s.arr
    ensures s.View() == old(s.View())[i := v]
    ensures o.View() == old(o.View()) && u.View() == old(u.View())
    ensures forall k :: k in keep ==> k.View() == old(k.View())
  {
    s.arr[s.lo + i] := v;
    forall k | k in keep ensures k.View() == old(k.View()) {
      if k.arr == s.arr { assert Apart(s, k); }
    }
  }
}
