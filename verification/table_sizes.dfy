/** The counts behind `rehash`: the count array, and the choice of the array size. */
module TableSizes {
  import opened Common
  import opened TableChain
  import opened TableData

  /** Nodes in use whose key an array part of the given size holds. */
  function CountIn(nodes: seq<Node>, n: nat): nat {
    if nodes == [] then 0 else
    var d := nodes[|nodes| - 1];
    CountIn(nodes[..|nodes| - 1], n) + (if d.val != Empty && InArray(d.key, n) then 1 else 0)
  }

  function CountAll(nodes: seq<Node>): nat {
    if nodes == [] then 0 else
    CountAll(nodes[..|nodes| - 1]) + (if nodes[|nodes| - 1].val != Empty then 1 else 0)
  }

  lemma {:induction false} CountSplit(nodes: seq<Node>, n: nat)
    ensures CountIn(nodes, n) + CountNodes(nodes, n) == CountAll(nodes)
    decreases |nodes|
  {
    if nodes != [] { CountSplit(nodes[..|nodes| - 1], n); }
  }

  lemma {:induction false} CountCellsSplit(arr: seq<Cell>, n: nat)
    requires n <= |arr|
    ensures CountCells(arr) == CountCells(arr[..n]) + CountCells(arr[n..])
    decreases |arr|
  {
    if n == |arr| {
      assert arr[..n] == arr && arr[n..] == [];
    } else {
      var a := arr[..|arr| - 1];
      CountCellsSplit(a, n);
      assert a[..n] == arr[..n] && arr[n..][..|arr| - 1 - n] == a[n..];
    }
  }

  function Min(a: nat, b: nat): nat { if a < b then a else b }

  /** How many integer keys within 1..n the table and the pending key make. */
  function IntKeys(arr: seq<Cell>, nodes: seq<Node>, ek: Key, n: nat): nat {
    CountCells(arr[..Min(n, |arr|)]) + CountIn(nodes, n) + (if InArray(ek, n) then 1 else 0)
  }

  /** The sum of the first i counters. */
  function Sum(nums: seq<nat>, i: nat): nat
    requires i <= |nums|
  {
    if i == 0 then 0 else Sum(nums, i - 1) + nums[i - 1]
  }

  /** The counters up to and including counter i: the keys not beyond 2^i. */
  function UpTo(nums: seq<nat>, i: nat): nat
    requires i < |nums|
  {
    Sum(nums, i + 1)
  }

  lemma {:induction false} SumUpdate(nums: seq<nat>, c: nat, v: nat, i: nat)
    requires c < |nums| && i <= |nums|
    ensures Sum(nums[c := nums[c] + v], i) == Sum(nums, i) + (if c < i then v else 0)
    decreases i
  {
    if i > 0 { SumUpdate(nums, c, v, i - 1); }
  }

  lemma {:induction false} SumZero(nums: seq<nat>, lo: nat, i: nat)
    requires lo <= i <= |nums| && forall k :: lo <= k < i ==> nums[k] == 0
    ensures Sum(nums, i) == Sum(nums, lo)
    decreases i
  {
    if i > lo { SumZero(nums, lo, i - 1); }
  }

  lemma {:induction false} SumMonotone(nums: seq<nat>, i: nat, k: nat)
    requires i <= k <= |nums|
    ensures Sum(nums, i) <= Sum(nums, k)
    decreases k
  {
    if i < k { SumMonotone(nums, i, k - 1); }
  }

  /** ceillog2 of a key is the first power of two that reaches it. */
  lemma CeilLog2Reaches(k: nat, i: nat)
    requires k >= 1
    ensures CeilLog2(k) <= i <==> k <= Pow2(i)
  {
    if CeilLog2(k) <= i { Pow2Monotone(CeilLog2(k), i); }
    else { Pow2Monotone(i, CeilLog2(k) - 1); }
  }

  lemma Pow2Values()
    ensures Pow2(31) == MAXASIZE && Pow2(30) == 0x4000_0000
  {
    assert Pow2(8) == 256 && Pow2(16) == 65536 && Pow2(24) == 0x100_0000;
  }

  /** Doubling an unsigned int: 2^31 wraps to 0. */
  lemma WrapDouble(i: nat)
    requires i <= MAXABITS
    ensures (Pow2(i) * 2) % 0x1_0000_0000 == if i < MAXABITS then Pow2(i + 1) else 0
  {
    Pow2Values();
    if i < MAXABITS { Pow2Monotone(i + 1, MAXABITS); }
  }

  /** arrayindex: the key as an array index, 0 when it cannot be one. */
  function ArrayIndex(k: int): nat { if 1 <= k <= MAXASIZE then k else 0 }

  /** countint. */
  method CountInt(key: int, nums: seq<nat>) returns (nums': seq<nat>, counted: nat)
    requires |nums| == MAXABITS + 1
    ensures |nums'| == |nums| && counted == if InArray(Int(key), MAXASIZE) then 1 else 0
    ensures forall i :: 0 <= i <= MAXABITS ==>
      UpTo(nums', i) == UpTo(nums, i) + if InArray(Int(key), Pow2(i)) then 1 else 0
  {
    hide CeilLog2, Pow2, Sum;
    var k := ArrayIndex(key);
    if k == 0 {
      nums', counted := nums, 0;
      forall i | 0 <= i <= MAXABITS ensures !InArray(Int(key), Pow2(i)) {
        Pow2Values();
        Pow2Monotone(i, MAXABITS);
      }
    } else {
      var c := CeilLog2(k);
      Pow2Values();
      CeilLog2Reaches(k, MAXABITS);
      nums', counted := nums[c := nums[c] + 1], 1;
      forall i | 0 <= i <= MAXABITS
        ensures UpTo(nums', i) == UpTo(nums, i) + if InArray(Int(key), Pow2(i)) then 1 else 0
      {
        SumUpdate(nums, c, 1, i + 1);
        CeilLog2Reaches(k, i);
      }
    }
  }

  /** The inner loop of numusearray: slots lo+1 to lim. */
  method CountSlice(arr: seq<Cell>, lo: nat, lim: nat) returns (lc: nat)
    requires lo <= lim <= |arr|
    ensures CountCells(arr[..lim]) == CountCells(arr[..lo]) + lc
  {
    var i := lo + 1;
    lc := 0;
    assert arr[lo..lo] == [];
    while i <= lim
      invariant lo < i <= lim + 1 && lc == CountCells(arr[lo..i - 1])
    {
      CountCellsNext(arr, lo, i - 1);
      if arr[i - 1] != Empty { lc := lc + 1; }
      i := i + 1;
    }
    CountCellsSplit(arr[..lim], lo);
    assert arr[..lim][..lo] == arr[..lo] && arr[..lim][lo..] == arr[lo..lim];
  }

  /** The counters below lg are right for the array, and no slice from lg on is counted. */
  ghost predicate Sliced(arr: seq<Cell>, nums: seq<nat>, lg: nat)
    requires lg <= |nums|
  {
    (forall k :: lg <= k < |nums| ==> nums[k] == 0) &&
    (forall k :: 0 <= k < lg ==> UpTo(nums, k) == CountCells(arr[..Min(Pow2(k), |arr|)]))
  }

  lemma SlicedStart(arr: seq<Cell>, nums: seq<nat>)
    requires forall k :: 0 <= k < |nums| ==> nums[k] == 0
    ensures Sliced(arr, nums, 0) && CountCells(arr[..0]) == Sum(nums, 0) == 0
  {
  }

  lemma SlicedNext(arr: seq<Cell>, nums: seq<nat>, lg: nat, lc: nat)
    requires lg < |nums| && Sliced(arr, nums, lg)
    requires CountCells(arr[..Min(Pow2(lg), |arr|)]) == Sum(nums, lg) + lc
    ensures Sliced(arr, nums[lg := nums[lg] + lc], lg + 1)
    ensures Sum(nums[lg := nums[lg] + lc], lg + 1) == Sum(nums, lg) + lc
  {
    var r := nums[lg := nums[lg] + lc];
    SumUpdate(nums, lg, lc, lg + 1);
    forall k | 0 <= k < lg ensures UpTo(r, k) == UpTo(nums, k) { SumUpdate(nums, lg, lc, k + 1); }
  }

  lemma SlicedRest(arr: seq<Cell>, nums: seq<nat>, lg: nat)
    requires lg <= |nums| && Sliced(arr, nums, lg) && Sum(nums, lg) == CountCells(arr)
    requires lg < |nums| ==> Pow2(lg) > |arr|
    ensures forall k :: 0 <= k < |nums| ==> UpTo(nums, k) == CountCells(arr[..Min(Pow2(k), |arr|)])
  {
    assert arr[..|arr|] == arr;
    forall k | lg <= k < |nums| ensures UpTo(nums, k) == CountCells(arr[..Min(Pow2(k), |arr|)]) {
      SumZero(nums, lg, k + 1);
      Pow2Monotone(lg, k);
    }
  }

  /** Where the traversal is when it comes to slice lg: all slots up to 2^(lg-1) are counted. */
  function SliceStart(arr: seq<Cell>, lg: nat): (n: nat)
    ensures n <= |arr|
  {
    if lg == 0 then 0 else Min(Pow2(lg - 1), |arr|)
  }

  lemma SliceStartGrows(arr: seq<Cell>, lg: nat)
    ensures SliceStart(arr, lg) <= SliceStart(arr, lg + 1) == Min(Pow2(lg), |arr|)
    ensures Pow2(lg) > |arr| == SliceStart(arr, lg) ==> SliceStart(arr, lg + 1) == |arr|
  {
  }

  /** numusearray: count the array part slice by slice. */
  method NumUseArray(arr: seq<Cell>, nums: seq<nat>) returns (nums': seq<nat>, ause: nat)
    requires |nums| == MAXABITS + 1 && |arr| <= MAXASIZE && forall k :: 0 <= k < |nums| ==> nums[k] == 0
    ensures |nums'| == |nums| && ause == CountCells(arr)
    ensures forall i :: 0 <= i <= MAXABITS ==> UpTo(nums', i) == CountCells(arr[..Min(Pow2(i), |arr|)])
  {
    hide UpTo, Sum, Sliced, CountCells;
    var lg, ttlg, i := 0, 1, 1;
    nums', ause := nums, 0;
    SlicedStart(arr, nums);
    while lg <= MAXABITS
      invariant 0 <= lg <= MAXABITS + 1 && ttlg == Pow2(lg) && |nums'| == |nums|
      invariant i == SliceStart(arr, lg) + 1
      invariant ause == CountCells(arr[..i - 1]) == Sum(nums', lg)
      invariant Sliced(arr, nums', lg)
      decreases MAXABITS + 1 - lg
    {
      SliceStartGrows(arr, lg);
      var lim := ttlg;
      if lim > |arr| {
        lim := |arr|;
        if i > lim { break; }
      }
      var lc := CountSlice(arr, i - 1, lim);
      SlicedNext(arr, nums', lg, lc);
      nums' := nums'[lg := nums'[lg] + lc];
      ause, i := ause + lc, lim + 1;
      lg, ttlg := lg + 1, ttlg * 2;
    }
    AllSliced(arr, lg);
    SlicedRest(arr, nums', lg);
  }

  lemma AllSliced(arr: seq<Cell>, lg: nat)
    requires |arr| <= MAXASIZE && lg <= MAXABITS + 1
    ensures lg == MAXABITS + 1 ==> SliceStart(arr, lg) == |arr|
    ensures arr[..|arr|] == arr
  {
    Pow2Values();
  }

  /** numusehash: the integer keys counted into nums, and all the entries. */
  method NumUseHash(nodes: seq<Node>, nums: seq<nat>) returns (nums': seq<nat>, totaluse: nat, ause: nat)
    requires |nums| == MAXABITS + 1
    ensures |nums'| == |nums| && totaluse == CountAll(nodes) && ause == CountIn(nodes, MAXASIZE)
    ensures forall i :: 0 <= i <= MAXABITS ==> UpTo(nums', i) == UpTo(nums, i) + CountIn(nodes, Pow2(i))
  {
    nums', totaluse, ause := nums, 0, 0;
    var i := 0;
    assert nodes[..0] == [];
    while i < |nodes|
      invariant 0 <= i <= |nodes| && |nums'| == |nums|
      invariant totaluse == CountAll(nodes[..i]) && ause == CountIn(nodes[..i], MAXASIZE)
      invariant forall k :: 0 <= k <= MAXABITS ==>
        UpTo(nums', k) == UpTo(nums, k) + CountIn(nodes[..i], Pow2(k))
    {
      var n := nodes[i];
      assert nodes[..i + 1][..i] == nodes[..i];
      if n.val != Empty {
        if n.key.Int? {
          var c;
          nums', c := CountInt(n.key.i, nums');
          ause := ause + c;
        }
        totaluse := totaluse + 1;
      }
      i := i + 1;
    }
    assert nodes[..i] == nodes;
  }

  /** The choice of computesizes among the first n powers of two: 0, or a power more than half
      of which is in use; and no larger one has that property. */
  ghost predicate Chosen(nums: seq<nat>, n: nat, optimal: nat, na: nat)
    requires n <= |nums|
  {
    ((optimal == 0 && na == 0) || exists i :: 0 <= i < n && PowerInUse(nums, i, optimal, na)) &&
    forall j :: 0 <= j < n && UpTo(nums, j) > Pow2(j) / 2 ==> Pow2(j) <= optimal
  }

  ghost predicate PowerInUse(nums: seq<nat>, i: nat, optimal: nat, na: nat)
    requires i < |nums|
  {
    optimal == Pow2(i) && na == UpTo(nums, i) && na > optimal / 2
  }

  lemma ChosenStart(nums: seq<nat>)
    ensures Chosen(nums, 0, 0, 0) && Sum(nums, 0) == 0 && Pow2(0) == 1
  {
  }

  lemma SumNext(nums: seq<nat>, i: nat)
    requires i < |nums|
    ensures UpTo(nums, i) == Sum(nums, i + 1) == Sum(nums, i) + nums[i]
  {
  }

  lemma ChosenNext(nums: seq<nat>, i: nat, optimal: nat, na: nat)
    requires i < |nums| && Chosen(nums, i, optimal, na)
    ensures UpTo(nums, i) > Pow2(i) / 2 ==> Chosen(nums, i + 1, Pow2(i), UpTo(nums, i))
    ensures UpTo(nums, i) <= Pow2(i) / 2 ==> Chosen(nums, i + 1, optimal, na)
  {
    if UpTo(nums, i) > Pow2(i) / 2 {
      assert PowerInUse(nums, i, Pow2(i), UpTo(nums, i));
      forall j | 0 <= j < i ensures Pow2(j) <= Pow2(i) { Pow2Monotone(j, i); }
    }
  }

  lemma ChosenRest(nums: seq<nat>, i: nat, optimal: nat, na: nat)
    requires i <= |nums| && Chosen(nums, i, optimal, na)
    requires i < |nums| ==> Sum(nums, |nums|) <= Pow2(i) / 2
    ensures Chosen(nums, |nums|, optimal, na)
  {
    forall j | i <= j < |nums| ensures UpTo(nums, j) <= Pow2(j) / 2 {
      SumMonotone(nums, j + 1, |nums|);
      Pow2Monotone(i, j);
    }
  }

  /** computesizes: the largest power of two more than half of which is in use. `twotoi` is an
      unsigned int and wraps to 0 after 2^31. */
  method ComputeSizes(nums: seq<nat>, pna: nat) returns (optimal: nat, na: nat)
    requires |nums| == MAXABITS + 1 && pna == Sum(nums, MAXABITS + 1)
    ensures Chosen(nums, MAXABITS + 1, optimal, na)
  {
    hide Chosen, Sum, Pow2;
    var i, twotoi, a := 0, 1, 0;
    optimal, na := 0, 0;
    ChosenStart(nums);
    while twotoi > 0 && pna > twotoi / 2
      invariant 0 <= i <= MAXABITS + 1 && a == Sum(nums, i)
      invariant twotoi == if i <= MAXABITS then Pow2(i) else 0
      invariant Chosen(nums, i, optimal, na)
      decreases MAXABITS + 1 - i
    {
      SumNext(nums, i);
      a := a + nums[i];
      ChosenNext(nums, i, optimal, na);
      if a > twotoi / 2 { optimal, na := twotoi, a; }
      WrapDouble(i);
      i, twotoi := i + 1, (twotoi * 2) % 0x1_0000_0000;
    }
    ChosenRest(nums, i, optimal, na);
  }

  /** The new parts hold every entry and the pending key: what does not go to the array of the
      chosen size is counted for the hash part. */
  lemma SizesFit(arr: seq<Cell>, nodes: seq<Node>, ek: Key, asize: nat)
    ensures Need(arr, nodes, asize) + (if InArray(ek, asize) then 0 else 1) + IntKeys(arr, nodes, ek, asize) ==
            CountCells(arr) + CountAll(nodes) + 1
  {
    CountSplit(nodes, asize);
    if asize <= |arr| {
      CountCellsSplit(arr, asize);
    } else {
      assert arr[..|arr|] == arr;
    }
  }
}
