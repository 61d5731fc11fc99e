// table.sort: quicksort in place, with a comparison that need not be an order.
module SortState {
  import opened Common
  import opened Results
  import opened SortOrder

  const RANLIMIT: int := 100
  const UINT_RANGE: int := 0x1_0000_0000

  // What the caller's comparison is: always the relation 'lt', or anything,
  // with different answers to the same question and errors of its own.
  datatype Comparison = Honest(lt: Less) | Untrusted

  class Sorter {
    // The table being sorted; as in Lua its first index is 1.
    const a: array<int>
    const cmp: Comparison

    constructor (a: array<int>, cmp: Comparison)
      ensures this.a == a && this.cmp == cmp
    {
      this.a, this.cmp := a, cmp;
    }

    // The comparison can be relied on.
    ghost predicate Ordered() {
      cmp.Honest? && StrictWeak(cmp.lt)
    }

    method SortComp(x: int, y: int) returns (st: Status, less: bool)
      ensures cmp.Honest? ==> st == Done && less == cmp.lt(x, y)
    {
      st := Done;
      if cmp.Honest? {
        less := cmp.lt(x, y);
      } else {
        var fails: bool := *;
        less := *;
        if fails {
          st := Raised("error in comparison");
        }
      }
    }

    method Set2(i: nat, j: nat, ghost lo: int, ghost up: int)
      requires 0 <= lo <= i <= up < a.Length && lo <= j <= up
      modifies a
      ensures a[..] == Swapped(old(a[..]), i, j) && Permuted(old(a[..]), a[..], lo, up)
    {
      SwapPermutes(a[..], i, j, lo, up);
      a[i], a[j] := a[j], a[i];
      assert a[..] == Swapped(old(a[..]), i, j);
    }

    // From the left, the first value that is not less than the pivot.
    method ScanUp(i0: nat, lo: nat, up: nat) returns (st: Status, i: nat)
      requires lo <= i0 && i0 + 1 < up < a.Length
      ensures st.Done? ==> i0 < i < up
      ensures Ordered() && !cmp.lt(a[up - 1], a[up - 1]) ==> st.Done? && !cmp.lt(a[i], a[up - 1])
      ensures Ordered() && NoneAbove(cmp.lt, a[..], lo, i0, a[up - 1]) && st.Done? ==>
                NoneAbove(cmp.lt, a[..], lo, i - 1, a[up - 1])
    {
      var pivot := a[up - 1];
      i := i0 + 1;
      var less :- SortComp(a[i], pivot);
      while less
        invariant i0 < i < up
        invariant cmp.Honest? ==> less == cmp.lt(a[i], pivot)
        invariant Ordered() && NoneAbove(cmp.lt, a[..], lo, i0, pivot) ==> NoneAbove(cmp.lt, a[..], lo, i - 1, pivot)
        decreases up - i
      {
        if i == up - 1 {
          return Raised("invalid order function for sorting"), i;
        }
        if Ordered() { NotBoth(cmp.lt, a[i], pivot); }
        i := i + 1;
        less :- SortComp(a[i], pivot);
      }
      st := Done;
    }

    // From the right, the first value that the pivot is not less than.
    method ScanDown(j0: nat, i: nat, lo: nat, up: nat) returns (st: Status, j: nat)
      requires lo < i < up < a.Length && lo < j0 < up
      ensures st.Done? ==> lo <= j < j0
      ensures Ordered() && NoneAbove(cmp.lt, a[..], lo, i - 1, a[up - 1]) ==> st.Done?
      ensures Ordered() && st.Done? ==> !cmp.lt(a[up - 1], a[j])
      ensures Ordered() && NoneBelow(cmp.lt, a[..], j0, up, a[up - 1]) && st.Done? ==>
                NoneBelow(cmp.lt, a[..], j + 1, up, a[up - 1])
    {
      var pivot := a[up - 1];
      j := j0 - 1;
      var less :- SortComp(pivot, a[j]);
      while less
        invariant lo <= j < j0
        invariant cmp.Honest? ==> less == cmp.lt(pivot, a[j])
        invariant Ordered() && NoneBelow(cmp.lt, a[..], j0, up, pivot) ==> NoneBelow(cmp.lt, a[..], j + 1, up, pivot)
        decreases j
      {
        if j < i {
          return Raised("invalid order function for sorting"), j;
        }
        if Ordered() { NotBoth(cmp.lt, pivot, a[j]); }
        j := j - 1;
        less :- SortComp(pivot, a[j]);
      }
      st := Done;
    }

    // Both scans: the next two values that are on the wrong sides.
    method Scan(i0: nat, j0: nat, lo: nat, up: nat) returns (st: Status, i: nat, j: nat)
      requires lo <= i0 <= j0 < up < a.Length && lo < j0 && i0 + 1 < up
      requires Ordered() ==> Parted(cmp.lt, a[..], lo, i0, j0, up) && !cmp.lt(a[up - 1], a[up - 1])
      ensures Ordered() ==> st.Done?
      ensures st.Done? ==> i0 < i < up && lo <= j < j0
      ensures st.Done? && Ordered() ==>
                Parted(cmp.lt, a[..], lo, i - 1, j + 1, up) && !cmp.lt(a[i], a[up - 1]) && !cmp.lt(a[up - 1], a[j])
    {
      i, j := i0, j0;
      i :- ScanUp(i0, lo, up);
      j :- ScanDown(j0, i, lo, up);
      st := Done;
    }

    // The pivot is in a[up - 1]. Returns where it ends up.
    method Partition(lo: nat, up: nat) returns (st: Status, p: nat)
      requires lo + 2 < up < a.Length
      requires Ordered() ==> !cmp.lt(a[up - 1], a[lo]) && !cmp.lt(a[up], a[up - 1])
      modifies a
      ensures Permuted(old(a[..]), a[..], lo, up)
      ensures Ordered() ==> st.Done?
      ensures st.Done? ==> lo < p < up
      ensures st.Done? && Ordered() ==> NoneAbove(cmp.lt, a[..], lo, p - 1, a[p]) && NoneBelow(cmp.lt, a[..], p + 1, up, a[p])
    {
      hide Permuted, Parted, Swapped;
      ghost var before := a[..];
      var i: nat, j: nat := lo, up - 1;
      p := lo;
      PermutedSame(before, lo, up);
      if Ordered() { PartedStart(cmp.lt, before, lo, up); }
      while true
        invariant lo <= i <= j < up && lo < j && i + 1 < up
        invariant Permuted(before, a[..], lo, up)
        invariant Ordered() ==> Parted(cmp.lt, a[..], lo, i, j, up)
        decreases j - i + up
      {
        ghost var mid := a[..];
        if Ordered() { NotSelf(cmp.lt, a[up - 1]); }
        i, j :- Scan(i, j, lo, up);
        if j < i {
          if Ordered() { PartedDone(cmp.lt, mid, lo, i, j, up); }
          Set2(up - 1, i, lo, up);
          PermutedTrans(before, mid, a[..], lo, up);
          return Done, i;
        }
        if Ordered() { PartedSwap(cmp.lt, mid, lo, i, j, up); }
        Set2(i, j, lo, up);
        PermutedTrans(before, mid, a[..], lo, up);
      }
    }

    // A pivot in the second or third quarter of the interval.
    static method ChoosePivot(lo: nat, up: nat, rnd: nat) returns (p: nat)
      requires lo + 4 <= up
      ensures lo + (up - lo) / 4 <= p <= up - (up - lo) / 4 && lo < p < up
    {
      var r4 := (up - lo) / 4;
      p := rnd % (r4 * 2) + (lo + r4);
    }

    // Puts the values at 'lo', 'p' and 'up' in order.
    method SortEnds(lo: nat, up: nat) returns (st: Status)
      requires lo < up < a.Length
      modifies a
      ensures Permuted(old(a[..]), a[..], lo, up)
      ensures Ordered() ==> st.Done? && !cmp.lt(a[up], a[lo])
    {
      PermutedSame(a[..], lo, up);
      var less :- SortComp(a[up], a[lo]);
      if less {
        if Ordered() { NotBoth(cmp.lt, a[up], a[lo]); }
        Set2(lo, up, lo, up);
      }
      st := Done;
    }

    method SortMiddle(lo: nat, p: nat, up: nat) returns (st: Status)
      requires lo < p < up < a.Length && (Ordered() ==> !cmp.lt(a[up], a[lo]))
      modifies a
      ensures Permuted(old(a[..]), a[..], lo, up)
      ensures Ordered() ==> st.Done? && !cmp.lt(a[p], a[lo]) && !cmp.lt(a[up], a[p]) && !cmp.lt(a[up], a[lo])
    {
      PermutedSame(a[..], lo, up);
      var less :- SortComp(a[p], a[lo]);
      if less {
        if Ordered() { NotBoth(cmp.lt, a[p], a[lo]); }
        if Ordered() { NotThrough(cmp.lt, a[up], a[lo], a[p]); }
        Set2(p, lo, lo, up);
      } else {
        less :- SortComp(a[up], a[p]);
        if less {
          if Ordered() { NotBoth(cmp.lt, a[up], a[p]); }
          Set2(p, up, lo, up);
        }
      }
      st := Done;
    }

    // A value that the platform's clock gives.
    static method RandomizePivot() returns (rnd: nat)
    {
      rnd := *;
    }

    // One round: the values at the ends and in the middle are put in order,
    // and the interval is parted. With at most three values it is sorted.
    method PartOnce(lo: nat, up: nat, rnd: nat) returns (st: Status, small: bool, p: nat)
      requires lo < up < a.Length
      modifies a
      ensures Permuted(old(a[..]), a[..], lo, up)
      ensures Ordered() ==> st.Done?
      ensures st.Done? && !small ==> lo < p < up && lo + 2 < up
      ensures st.Done? && small && Ordered() ==> Sorted(cmp.lt, a[..], lo, up)
      ensures st.Done? && !small && Ordered() ==>
                NoneAbove(cmp.lt, a[..], lo, p - 1, a[p]) && NoneBelow(cmp.lt, a[..], p + 1, up, a[p])
    {
      hide Permuted, Swapped;
      ghost var s0 := a[..];
      small, p := true, lo;
      PermutedSame(s0, lo, up);
      :- SortEnds(lo, up);
      if up - lo == 1 {
        return Done, true, lo;
      }
      ghost var s1 := a[..];
      if up - lo < RANLIMIT || rnd == 0 {
        p := (lo + up) / 2;
      } else {
        p := ChoosePivot(lo, up, rnd);
      }
      var st1 := SortMiddle(lo, p, up);
      ghost var s2 := a[..];
      PermutedTrans(s0, s1, s2, lo, up);
      if st1.Raised? {
        return st1, true, p;
      }
      if up - lo == 2 {
        if Ordered() { SortedThree(cmp.lt, s2, lo, up); }
        return Done, true, p;
      }
      small := false;
      if Ordered() { MovedPivot(cmp.lt, s2, lo, p, up); }
      Set2(p, up - 1, lo, up);
      ghost var s3 := a[..];
      PermutedTrans(s0, s2, s3, lo, up);
      st, p := Partition(lo, up);
      PermutedTrans(s0, s3, a[..], lo, up);
    }

    // Sorts the smaller part, and tells what is left and how large the smaller
    // part was.
    method SortSmaller(lo: nat, p: nat, up: nat, rnd: nat, ghost lo0: nat, ghost up0: nat)
      returns (st: Status, lo1: nat, up1: nat, n: nat, ghost depth: nat)
      requires lo0 <= lo < p < up <= up0 < a.Length < 0x8000_0000
      requires Ordered() ==> Around(cmp.lt, a[..], lo0, lo, up, up0)
      requires Ordered() ==> NoneAbove(cmp.lt, a[..], lo, p - 1, a[p]) && NoneBelow(cmp.lt, a[..], p + 1, up, a[p])
      modifies a
      ensures Permuted(old(a[..]), a[..], lo0, up0)
      ensures lo <= lo1 <= up1 + 1 && up1 <= up && up1 - lo1 < up - lo
      ensures Ordered() ==> st.Done? && Around(cmp.lt, a[..], lo0, lo1, up1, up0)
      ensures depth > 0 && Pow2(depth) <= up0 - lo0 + 1
      decreases up - lo + 1, 0
    {
      hide Permuted, NoneAbove, NoneBelow, Sorted, Around, Pow2;
      ghost var s1 := a[..];
      ghost var d: nat;
      if p - lo < up - p {
        st, d := AuxSort(lo, p - 1, rnd);
        PermutedWider(s1, a[..], lo, p - 1, lo0, up0);
        if Ordered() { AroundLower(cmp.lt, s1, a[..], lo0, lo, p, up, up0); }
        DepthGrows(d, p - lo, up - lo + 1, up0 - lo0 + 1);
        n, lo1, up1 := p - lo, p + 1, up;
      } else {
        st, d := AuxSort(p + 1, up, rnd);
        PermutedWider(s1, a[..], p + 1, up, lo0, up0);
        if Ordered() { AroundUpper(cmp.lt, s1, a[..], lo0, lo, p, up, up0); }
        DepthGrows(d, up - p, up - lo + 1, up0 - lo0 + 1);
        n, lo1, up1 := up - p, lo, p - 1;
      }
      depth := d + 1;
    }

    // Sorts the interval in place. 'depth' is how deep the calls nest below
    // this one.
    method AuxSort(lo0: nat, up0: nat, rnd0: nat) returns (st: Status, ghost depth: nat)
      requires lo0 <= up0 + 1 && up0 < a.Length < 0x8000_0000
      modifies a
      ensures Permuted(old(a[..]), a[..], lo0, up0)
      ensures Ordered() ==> st.Done? && Sorted(cmp.lt, a[..], lo0, up0)
      ensures depth > 0 ==> Pow2(depth) <= up0 - lo0 + 1
      decreases up0 - lo0 + 1, 1
    {
      hide Permuted, NoneAbove, NoneBelow, Sorted, Pow2;
      var lo: nat, up: nat, rnd := lo0, up0, rnd0;
      depth := 0;
      ghost var start := a[..];
      PermutedSame(start, lo0, up0);
      while lo < up
        invariant lo0 <= lo <= up + 1 && up <= up0
        invariant Permuted(start, a[..], lo0, up0)
        invariant Ordered() ==> Around(cmp.lt, a[..], lo0, lo, up, up0)
        invariant depth > 0 ==> Pow2(depth) <= up0 - lo0 + 1
        decreases up - lo + 1
      {
        hide Around;
        ghost var s0 := a[..];
        var st1, small, p := PartOnce(lo, up, rnd);
        ghost var s1 := a[..];
        PermutedWider(s0, s1, lo, up, lo0, up0);
        PermutedTrans(start, s0, s1, lo0, up0);
        if Ordered() { AroundPermuted(cmp.lt, s0, s1, lo0, lo, up, up0); }
        if st1.Raised? {
          return st1, depth;
        }
        if small {
          if Ordered() { AroundSorted(cmp.lt, s1, lo0, lo, up, up0); }
          return Done, depth;
        }
        var n;
        ghost var d: nat;
        st1, lo, up, n, d := SortSmaller(lo, p, up, rnd, lo0, up0);
        PermutedTrans(start, s1, a[..], lo0, up0);
        depth := if d > depth then d else depth;
        if st1.Raised? {
          return st1, depth;
        }
        if (up - lo) % UINT_RANGE / 128 > n {
          rnd := RandomizePivot();
        }
      }
      st := Done;
      if Ordered() { AroundEmpty(cmp.lt, a[..], lo0, lo, up, up0); }
    }

    // Sorts a[1] to a[n].
    method Sort(n: nat) returns (st: Status, ghost depth: nat)
      requires n < a.Length < 0x8000_0000
      modifies a
      ensures Permuted(old(a[..]), a[..], 1, n)
      ensures Ordered() ==> st.Done? && Sorted(cmp.lt, a[..], 1, n)
      ensures depth > 0 ==> Pow2(depth) <= n
    {
      PermutedSame(a[..], 1, n);
      st, depth := Done, 0;
      if n > 1 {
        st, depth := AuxSort(1, n, 0);
      }
    }
  }
}
