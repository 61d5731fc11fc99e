/** Sizes, counts and contents of the two-part table. */
module TableData {
  import opened Common
  import opened TableChain

  const MAXABITS := 31
  const MAXASIZE := 0x8000_0000
  const MAXHBITS := 30
  const MAXINTEGER := 0x7fff_ffff_ffff_ffff

  /** The macro `ispow2`, which also holds of 0. */
  predicate IsPow2(x: nat) { x <= 1 || (x % 2 == 0 && IsPow2(x / 2)) }

  /** The smallest power of two not smaller than x; 0 for 0. */
  function RoundUp(x: nat): (p: nat)
    ensures IsPow2(p) && x <= p && (x > 0 ==> p < 2 * x)
  {
    if x <= 1 then x else 2 * RoundUp((x + 1) / 2)
  }

  lemma {:induction false} RoundUpUnique(x: nat, p: nat)
    requires IsPow2(p) && x <= p && p < 2 * x
    ensures RoundUp(x) == p
    decreases x
  {
    if x > 1 { RoundUpUnique((x + 1) / 2, p / 2); }
  }

  lemma RoundUpOfPow2(p: nat)
    requires IsPow2(p)
    ensures RoundUp(p) == p
  {
    if p > 0 { RoundUpUnique(p, p); }
  }

  /** luaO_ceillog2 for x >= 1. */
  function CeilLog2(x: nat): (k: nat)
    requires x >= 1
    ensures x <= Pow2(k) && (k > 0 ==> Pow2(k - 1) < x) && Pow2(k) == RoundUp(x)
  {
    if x == 1 then 0 else 1 + CeilLog2((x + 1) / 2)
  }

  lemma {:induction false} Pow2Monotone(i: nat, k: nat)
    requires i <= k
    ensures Pow2(i) <= Pow2(k)
    decreases k
  {
    if i < k { Pow2Monotone(i, k - 1); }
  }

  /** A key that the array part of size asize holds. */
  predicate InArray(k: Key, asize: nat) { k.Int? && 1 <= k.i <= asize }

  function At(m: map<Key, nat>, k: Key): Cell { if k in m then Value(m[k]) else Empty }

  function Put(m: map<Key, nat>, k: Key, c: Cell): map<Key, nat> {
    if c.Value? then m[k := c.v] else m - {k}
  }

  /** The two parts hold exactly the map m: integers up to the array size in the array, all
      other keys in nodes. */
  ghost predicate Agree(arr: seq<Cell>, nodes: seq<Node>, m: map<Key, nat>) {
    (forall i :: 0 <= i < |arr| ==> arr[i] == At(m, Int(i + 1))) &&
    (forall y :: 0 <= y < |nodes| && IsLive(nodes[y].key) && !InArray(nodes[y].key, |arr|) ==>
      nodes[y].val == At(m, nodes[y].key)) &&
    (forall y :: 0 <= y < |nodes| && nodes[y].val != Empty ==> !InArray(nodes[y].key, |arr|)) &&
    (forall k :: k in m ==> IsLive(k) && (InArray(k, |arr|) || HasKey(nodes, k)))
  }

  ghost predicate HasKey(nodes: seq<Node>, k: Key) { exists y :: 0 <= y < |nodes| && nodes[y].key == k }

  ghost function UsedNodes(nodes: seq<Node>): set<nat> { set i: nat | i < |nodes| && nodes[i].key != Nil }

  ghost function Below(n: nat): (s: set<nat>)
    ensures |s| == n && forall i: nat :: i in s <==> i < n
  {
    if n == 0 then {} else Below(n - 1) + {n - 1}
  }

  lemma SubsetSize(a: set<nat>, b: set<nat>)
    requires a <= b
    ensures |a| <= |b|
  {
    assert b == a + (b - a);
  }

  lemma UsedGrows(nodes: seq<Node>, r: seq<Node>, x: nat)
    requires UsedNodes(r) <= UsedNodes(nodes) + {x}
    ensures |UsedNodes(r)| <= |UsedNodes(nodes)| + 1
  {
    SubsetSize(UsedNodes(r), UsedNodes(nodes) + {x});
  }

  function CountCells(arr: seq<Cell>): (n: nat)
    ensures n <= |arr|
  {
    if arr == [] then 0 else CountCells(arr[..|arr| - 1]) + (if arr[|arr| - 1] != Empty then 1 else 0)
  }

  /** Nodes in use whose key an array part of the given size does not hold. */
  function CountNodes(nodes: seq<Node>, asize: nat): (n: nat)
    ensures n <= |nodes|
  {
    if nodes == [] then 0 else
    var d := nodes[|nodes| - 1];
    CountNodes(nodes[..|nodes| - 1], asize) + (if d.val != Empty && !InArray(d.key, asize) then 1 else 0)
  }

  /** How many entries a resize puts into the new hash part. */
  function Need(arr: seq<Cell>, nodes: seq<Node>, newasize: nat): nat {
    CountCells(if newasize <= |arr| then arr[newasize..] else []) + CountNodes(nodes, newasize)
  }

  /** What an insertion does to the nodes: the new key comes without a value, and every entry
      in use keeps its key and value, possibly at another place. */
  ghost predicate Inserted(nodes: seq<Node>, r: seq<Node>, key: Key) {
    (forall y :: 0 <= y < |r| && IsLive(r[y].key) ==>
      (r[y].key == key && r[y].val == Empty) || HasEntry(nodes, r[y].key, r[y].val)) &&
    (forall y :: 0 <= y < |r| && !IsLive(r[y].key) ==> r[y].val == Empty) &&
    (forall y :: 0 <= y < |nodes| && nodes[y].val != Empty ==> HasKey(r, nodes[y].key))
  }

  ghost predicate HasEntry(nodes: seq<Node>, k: Key, c: Cell) {
    exists y :: 0 <= y < |nodes| && nodes[y].key == k && nodes[y].val == c
  }

  lemma InsertedAgree(arr: seq<Cell>, nodes: seq<Node>, r: seq<Node>, m: map<Key, nat>, key: Key)
    requires Agree(arr, nodes, m) && Inserted(nodes, r, key) && At(m, key) == Empty
    ensures Agree(arr, r, m)
  {
    forall y | 0 <= y < |r| && IsLive(r[y].key) && !InArray(r[y].key, |arr|)
      ensures r[y].val == At(m, r[y].key)
    {
      if !(r[y].key == key && r[y].val == Empty) {
        var x :| 0 <= x < |nodes| && nodes[x].key == r[y].key && nodes[x].val == r[y].val;
      }
    }
    forall k | k in m ensures InArray(k, |arr|) || HasKey(r, k) {
      if !InArray(k, |arr|) {
        var x :| 0 <= x < |nodes| && nodes[x].key == k;
        assert nodes[x].val == At(m, nodes[x].key);
      }
    }
    forall y | 0 <= y < |r| && r[y].val != Empty ensures !InArray(r[y].key, |arr|) {
      assert HasEntry(nodes, r[y].key, r[y].val);
    }
  }

  /** Writing the cell of a key. */
  lemma PutNode(arr: seq<Cell>, nodes: seq<Node>, m: map<Key, nat>, y: nat, c: Cell)
    requires Agree(arr, nodes, m) && Unique(nodes) && y < |nodes| && IsLive(nodes[y].key) && !InArray(nodes[y].key, |arr|)
    ensures Agree(arr, nodes[y := nodes[y].(val := c)], Put(m, nodes[y].key, c))
  {
    var r, m' := nodes[y := nodes[y].(val := c)], Put(m, nodes[y].key, c);
    forall k | k in m' ensures IsLive(k) && (InArray(k, |arr|) || HasKey(r, k)) {
      if k == nodes[y].key {
        assert r[y].key == k;
      } else if !InArray(k, |arr|) {
        var x :| 0 <= x < |nodes| && nodes[x].key == k;
        assert r[x].key == k;
      }
    }
  }

  lemma PutCell(arr: seq<Cell>, nodes: seq<Node>, m: map<Key, nat>, i: nat, c: Cell)
    requires Agree(arr, nodes, m) && i < |arr|
    ensures Agree(arr[i := c], nodes, Put(m, Int(i + 1), c))
  {
  }

  /** Position f is free and every position after it has been used. */
  ghost predicate LastFree(nodes: seq<Node>, f: int) {
    0 <= f < |nodes| && nodes[f].key == Nil && FreeBelow(nodes, f + 1)
  }

  /** What the three insertions of luaH_newkey have in common: the invariant, the entries, and
      at most one more position used. */
  ghost predicate InsertionOk(h: Hash, nodes: seq<Node>, r: seq<Node>, q: Order, key: Key) {
    |r| == |nodes| && HashInv(h, r, q) && Inserted(nodes, r, key) && |UsedNodes(r)| <= |UsedNodes(nodes)| + 1
  }

  lemma HomeOk(h: Hash, nodes: seq<Node>, o: Order, m: nat, key: Key)
    requires HashInv(h, nodes, o) && IsLive(key) && m == Main(h, |nodes|, key) && nodes[m].val == Empty
    requires !HasKey(nodes, key)
    ensures InsertionOk(h, nodes, PutHome(nodes, m, key), o, key)
    ensures forall lf: nat :: FreeBelow(nodes, lf) ==> FreeBelow(PutHome(nodes, m, key), lf)
  {
    var r := PutHome(nodes, m, key);
    PutHomeInv(h, nodes, o, m, key);
    UsedGrows(nodes, r, m);
    forall y | 0 <= y < |r| && IsLive(r[y].key)
      ensures (r[y].key == key && r[y].val == Empty) || HasEntry(nodes, r[y].key, r[y].val)
    {
      if y != m { assert nodes[y] == r[y]; }
    }
    forall y | 0 <= y < |nodes| && nodes[y].val != Empty ensures HasKey(r, nodes[y].key) {
      assert r[y].key == nodes[y].key;
    }
  }

  lemma MoveOk(h: Hash, nodes: seq<Node>, o: Order, p: nat, m: nat, f: nat, key: Key)
    requires HashInv(h, nodes, o) && IsLive(key) && m == Main(h, |nodes|, key) && LastFree(nodes, f) && p < |nodes|
    requires nodes[m].val != Empty && Main(h, |nodes|, nodes[m].key) != m && !HasKey(nodes, key)
    requires nodes[p].next != 0 && p + nodes[p].next == m
    ensures InsertionOk(h, nodes, MoveAway(nodes, p, m, f, key), OrderMove(o, m, f), key)
    ensures FreeBelow(MoveAway(nodes, p, m, f, key), f)
  {
    var r := MoveAway(nodes, p, m, f, key);
    MoveAwayInv(h, nodes, o, p, m, f, key);
    MoveAwayKeys(nodes, p, m, f, key);
    UsedGrows(nodes, r, f);
    forall y | 0 <= y < |r| && IsLive(r[y].key)
      ensures (r[y].key == key && r[y].val == Empty) || HasEntry(nodes, r[y].key, r[y].val)
    {
      if y == f { assert nodes[m].key == r[y].key; }
    }
    forall y | 0 <= y < |nodes| && nodes[y].val != Empty ensures HasKey(r, nodes[y].key) {
      var x := if y == m then f else y;
      assert r[x].key == nodes[y].key;
    }
  }

  lemma ChainOk(h: Hash, nodes: seq<Node>, o: Order, m: nat, f: nat, key: Key)
    requires HashInv(h, nodes, o) && IsLive(key) && m == Main(h, |nodes|, key) && LastFree(nodes, f)
    requires nodes[m].val != Empty && Main(h, |nodes|, nodes[m].key) == m && !HasKey(nodes, key)
    ensures InsertionOk(h, nodes, ChainAfter(nodes, m, f, key), OrderAfter(Succs(nodes), o, m, f), key)
    ensures FreeBelow(ChainAfter(nodes, m, f, key), f)
  {
    var r := ChainAfter(nodes, m, f, key);
    ChainAfterInv(h, nodes, o, m, f, key);
    ChainAfterKeys(nodes, m, f, key);
    UsedGrows(nodes, r, f);
    forall y | 0 <= y < |r| && IsLive(r[y].key)
      ensures (r[y].key == key && r[y].val == Empty) || HasEntry(nodes, r[y].key, r[y].val)
    {
      if y != f { assert nodes[y].key == r[y].key && nodes[y].val == r[y].val; }
    }
    forall y | 0 <= y < |nodes| && nodes[y].val != Empty ensures HasKey(r, nodes[y].key) {
      assert r[y].key == nodes[y].key;
    }
  }

  /** A hash part as setnodevector leaves it. */
  function FreshNodes(size: nat): (r: seq<Node>)
    ensures |r| == size && forall i :: 0 <= i < size ==> r[i] == Node(Nil, Empty, 0)
  {
    seq(size, _ => Node(Nil, Empty, 0))
  }

  ghost function FreshOrder(size: nat): (o: Order)
    ensures |o.chain| == size && |o.place| == size && forall i :: 0 <= i < size ==> o.chain[i] == i
  {
    Order(seq(size, i => i), seq(size, _ => 0.0))
  }

  lemma FreshInv(h: Hash, size: nat)
    requires size > 0
    ensures HashInv(h, FreshNodes(size), FreshOrder(size)) && FreeBelow(FreshNodes(size), size)
    ensures UsedNodes(FreshNodes(size)) == {}
  {
  }

  /** The integer keys of m that an array part of size n holds. */
  function Restrict(m: map<Key, nat>, n: nat): map<Key, nat> { map k | k in m && InArray(k, n) :: m[k] }

  lemma RestrictNext(m: map<Key, nat>, n: nat)
    ensures Restrict(m, n + 1) == Put(Restrict(m, n), Int(n + 1), At(m, Int(n + 1)))
  {
  }

  /** An array part with a fresh hash part holds the keys within its size. */
  lemma AgreeCells(arr: seq<Cell>, nodes: seq<Node>, m: map<Key, nat>)
    requires Agree(arr, nodes, m)
    ensures forall i :: 0 <= i < |arr| ==> arr[i] == At(m, Int(i + 1))
  {
  }

  lemma FreshAgree(arr: seq<Cell>, m: map<Key, nat>, size: nat)
    requires forall i :: 0 <= i < |arr| ==> arr[i] == At(m, Int(i + 1))
    ensures Agree(arr, FreshNodes(size), Restrict(m, |arr|))
  {
  }

  /** The map after the first j nodes of an old hash part were put back. */
  function Added(m: map<Key, nat>, old_: seq<Node>, j: nat): map<Key, nat>
    requires j <= |old_|
  {
    if j == 0 then m
    else if old_[j - 1].val == Empty then Added(m, old_, j - 1)
    else Put(Added(m, old_, j - 1), old_[j - 1].key, old_[j - 1].val)
  }

  lemma {:induction false} AddedAt(m: map<Key, nat>, old_: seq<Node>, j: nat, k: Key)
    requires j <= |old_|
    ensures (forall y :: 0 <= y < j && old_[y].val != Empty ==> old_[y].key != k) ==>
      At(Added(m, old_, j), k) == At(m, k)
    ensures Unique(old_) ==> forall y :: 0 <= y < j && old_[y].val != Empty && old_[y].key == k && IsLive(k) ==>
      At(Added(m, old_, j), k) == old_[y].val
    decreases j
  {
    if j > 0 { AddedAt(m, old_, j - 1, k); }
  }

  /** Putting back every node of the old hash part gives back the whole map. */
  lemma AllAdded(arr: seq<Cell>, old_: seq<Node>, m: map<Key, nat>, o: Order)
    requires Agree(arr, old_, m) && Unique(old_) && Unused(old_, o)
    ensures Added(Restrict(m, |arr|), old_, |old_|) == m
  {
    var r := Added(Restrict(m, |arr|), old_, |old_|);
    forall k ensures At(r, k) == At(m, k) {
      AddedAt(Restrict(m, |arr|), old_, |old_|, k);
      if k in m && !InArray(k, |arr|) {
        var y :| 0 <= y < |old_| && old_[y].key == k;
        assert old_[y].val == At(m, k);
      }
    }
    MapsEqual(r, m);
  }

  lemma MapsEqual(a: map<Key, nat>, b: map<Key, nat>)
    requires forall k :: At(a, k) == At(b, k)
    ensures a == b
  {
    forall k | k in a ensures k in b && a[k] == b[k] { assert At(a, k) == At(b, k); }
    forall k | k in b ensures k in a { assert At(a, k) == At(b, k); }
  }

  lemma CountCellsNext(arr: seq<Cell>, lo: nat, i: nat)
    requires lo <= i < |arr|
    ensures CountCells(arr[lo..i + 1]) == CountCells(arr[lo..i]) + (if arr[i] != Empty then 1 else 0)
  {
    assert arr[lo..i + 1][..i - lo] == arr[lo..i];
  }

  lemma CountNodesNext(nodes: seq<Node>, n: nat, j: nat)
    requires j < |nodes|
    ensures CountNodes(nodes[..j + 1], n) ==
      CountNodes(nodes[..j], n) + (if nodes[j].val != Empty && !InArray(nodes[j].key, n) then 1 else 0)
  {
    assert nodes[..j + 1][..j] == nodes[..j];
  }

  lemma {:induction false} CountNodesPrefix(nodes: seq<Node>, n: nat, j: nat)
    requires j <= |nodes|
    ensures CountNodes(nodes[..j], n) <= CountNodes(nodes, n)
    decreases |nodes| - j
  {
    if j < |nodes| {
      CountNodesNext(nodes, n, j);
      CountNodesPrefix(nodes, n, j + 1);
    } else {
      assert nodes[..j] == nodes;
    }
  }

  lemma {:induction false} CountCellsHead(arr: seq<Cell>)
    requires arr != []
    ensures CountCells(arr) == (if arr[0] != Empty then 1 else 0) + CountCells(arr[1..])
    decreases |arr|
  {
    if |arr| > 1 {
      var a := arr[..|arr| - 1];
      CountCellsHead(a);
      assert arr[1..][..|arr| - 2] == a[1..];
    }
  }

  /** luaM_reallocvector on the array part, the new slots cleared. */
  function Resized(arr: seq<Cell>, n: nat): (r: seq<Cell>)
    ensures |r| == n
  {
    if n <= |arr| then arr[..n] else arr + seq(n - |arr|, _ => Empty)
  }

  /** How many nodes a hash part for `size` entries gets. */
  function NodeCount(size: nat): (n: nat)
    ensures n > 0
  {
    if size == 0 then 1 else RoundUp(size)
  }

  function Capacity(size: nat): nat { if size == 0 then 0 else RoundUp(size) }

  lemma GrownAgree(arr: seq<Cell>, m: map<Key, nat>, n: nat, size: nat)
    requires n >= |arr| && forall i :: 0 <= i < |arr| ==> arr[i] == At(m, Int(i + 1))
    ensures Agree(Resized(arr, n), FreshNodes(size), Restrict(m, |arr|))
  {
  }

  /** A hash part with its bookkeeping, while it belongs to no table. */
  datatype Part = Part(nodes: seq<Node>, lastfree: nat, isDummy: bool)

  ghost predicate PartOk(h: Hash, p: Part, o: Order) {
    HashInv(h, p.nodes, o) && (p.isDummy ==> p.nodes == FreshNodes(1)) && (!p.isDummy ==> FreeBelow(p.nodes, p.lastfree))
  }

  ghost predicate FreshPart(p: Part, size: nat) {
    p.nodes == FreshNodes(NodeCount(size)) && p.isDummy == (size == 0) && (size != 0 ==> p.lastfree == |p.nodes|)
  }

  lemma HalfIsPow2(p: nat)
    requires IsPow2(p)
    ensures IsPow2(p / 2) && (p > 1 ==> p % 2 == 0)
  {
  }

  lemma DeadKeyAgree(arr: seq<Cell>, nodes: seq<Node>, m: map<Key, nat>, y: nat)
    requires Agree(arr, nodes, m) && y < |nodes| && nodes[y].val == Empty && IsLive(nodes[y].key)
    ensures Agree(arr, nodes[y := nodes[y].(key := Dead)], m)
  {
    var r := nodes[y := nodes[y].(key := Dead)];
    forall k | k in m ensures InArray(k, |arr|) || HasKey(r, k) {
      if !InArray(k, |arr|) {
        var x :| 0 <= x < |nodes| && nodes[x].key == k;
        assert r[x].key == k;
      }
    }
  }
}
