/** The hash part of a table (ltable.c): nodes linked into chains by relative offsets, with
    Brent's variation. A node out of its main position never blocks the node that belongs
    there. */
module TableChain {

  /** A key. Nil marks a node never used; Dead is the key of an emptied entry whose object was
      collected. Float keys with an integral value are integer keys; the rest is opaque. */
  datatype Key = Nil | Dead | Int(i: int) | Other(id: nat)

  datatype Cell = Empty | Value(v: nat)

  datatype Node = Node(key: Key, val: Cell, next: int)

  /** `mainposition` for any hash function: an index that depends on the key and the size. */
  type Hash = (Key, nat) -> nat

  predicate IsLive(k: Key) { k.Int? || k.Other? }

  function Main(h: Hash, n: nat, k: Key): (m: nat)
    requires n > 0
    ensures m < n
  {
    h(k, n) % n
  }

  /** The successor of each node as an index, -1 at the end of a chain. */
  function Succs(nodes: seq<Node>): (s: seq<int>)
    ensures |s| == |nodes|
    ensures forall i :: 0 <= i < |s| ==> s[i] == if nodes[i].next == 0 then -1 else i + nodes[i].next
  {
    seq(|nodes|, i requires 0 <= i < |nodes| => if nodes[i].next == 0 then -1 else i + nodes[i].next)
  }

  /** For each node the chain it is on and its place in that chain. */
  datatype Order = Order(chain: seq<nat>, place: seq<real>)

  ghost predicate Covers(o: Order, n: nat) { |o.chain| == n && |o.place| == n }

  /** Node k comes after node i on the same chain. */
  ghost predicate After(o: Order, i: int, k: int) {
    0 <= i < |o.chain| && 0 <= k < |o.chain| && Covers(o, |o.chain|) &&
    o.chain[i] == o.chain[k] && o.place[i] < o.place[k]
  }

  ghost predicate Distinct(o: Order) {
    Covers(o, |o.chain|) &&
    forall i, k :: 0 <= i < k < |o.chain| && o.chain[i] == o.chain[k] ==> o.place[i] != o.place[k]
  }

  /** A successor is the next node of the chain, and a node without one is the last: `next` is
      injective and has no cycle. */
  ghost predicate Linked(s: seq<int>, o: Order) {
    Covers(o, |s|) && Distinct(o) &&
    (forall i :: 0 <= i < |s| && s[i] != -1 ==> After(o, i, s[i])) &&
    (forall i, k :: After(o, i, k) ==> s[i] != -1 && (s[i] == k || After(o, s[i], k)))
  }

  /** The offsets stay inside the node array and link it. */
  ghost predicate Chained(nodes: seq<Node>, o: Order) {
    (forall i :: 0 <= i < |nodes| ==> 0 <= i + nodes[i].next < |nodes|) && Linked(Succs(nodes), o)
  }

  /** m is node y or comes before it. */
  ghost predicate Reaches(o: Order, m: int, y: int) { m == y || After(o, m, y) }

  /** A key sits on the chain of its main position, and the node at that position is in its own
      main position too (or its key is dead). */
  ghost predicate Homed(h: Hash, nodes: seq<Node>, o: Order) {
    forall y :: 0 <= y < |nodes| && IsLive(nodes[y].key) ==> HomedKey(h, nodes, o, nodes[y].key, y)
  }

  ghost predicate HomedKey(h: Hash, nodes: seq<Node>, o: Order, k: Key, y: int)
    requires nodes != []
  {
    var m := Main(h, |nodes|, k);
    Reaches(o, m, y) && nodes[m].key != Nil &&
    (IsLive(nodes[m].key) ==> Main(h, |nodes|, nodes[m].key) == m)
  }

  ghost predicate Unique(nodes: seq<Node>) {
    forall i, k :: 0 <= i < k < |nodes| && IsLive(nodes[i].key) ==> nodes[i].key != nodes[k].key
  }

  /** An unused node is alone; a node without a live key has no value. */
  ghost predicate Unused(nodes: seq<Node>, o: Order) {
    (forall i :: 0 <= i < |nodes| && !IsLive(nodes[i].key) ==> nodes[i].val == Empty) &&
    (forall i :: 0 <= i < |nodes| && nodes[i].key == Nil ==> Alone(o, i))
  }

  ghost predicate Alone(o: Order, i: int) {
    0 <= i < |o.chain| && forall k :: 0 <= k < |o.chain| && k != i ==> o.chain[k] != o.chain[i]
  }

  ghost predicate HashInv(h: Hash, nodes: seq<Node>, o: Order) {
    nodes != [] && Chained(nodes, o) && Homed(h, nodes, o) && Unique(nodes) && Unused(nodes, o)
  }

  /** `lastfree`: every node from there on has been used. */
  ghost predicate FreeBelow(nodes: seq<Node>, lastfree: nat) {
    lastfree <= |nodes| && forall i :: lastfree <= i < |nodes| ==> nodes[i].key != Nil
  }

  /** The nodes after node n on its chain: what a search still has to look at. */
  ghost function Ahead(o: Order, n: int): set<int> { set k | 0 <= k < |o.chain| && After(o, n, k) }

  lemma AheadShrinks(s: seq<int>, o: Order, n: int)
    requires Linked(s, o) && 0 <= n < |s| && s[n] != -1
    ensures Ahead(o, s[n]) < Ahead(o, n)
    ensures forall y :: After(o, n, y) ==> Reaches(o, s[n], y)
  {
    assert After(o, n, s[n]);
    assert s[n] in Ahead(o, n) && s[n] !in Ahead(o, s[n]);
  }

  /** No two nodes lead to the same one. */
  lemma NextInjective(s: seq<int>, o: Order, i: int, k: int)
    requires Linked(s, o) && 0 <= i < |s| && 0 <= k < |s| && s[i] != -1 && s[i] == s[k]
    ensures i == k
  {
    assert After(o, i, s[i]) && After(o, k, s[k]);
    assert After(o, i, k) ==> s[i] == k || After(o, s[i], k);
    assert After(o, k, i) ==> s[k] == i || After(o, s[k], i);
  }

  /** A node never used has no successor and is nobody's successor. */
  lemma UnusedAlone(nodes: seq<Node>, o: Order, f: nat)
    requires Chained(nodes, o) && Unused(nodes, o) && f < |nodes| && nodes[f].key == Nil
    ensures nodes[f].next == 0 && nodes[f].val == Empty && Alone(o, f)
    ensures forall k :: !After(o, f, k) && !After(o, k, f)
  {
    var s := Succs(nodes);
    assert Alone(o, f);
    assert forall k :: !After(o, f, k) && !After(o, k, f);
  }

  /** luaH_newkey when the main position is free: the key goes there; the node stays on
      whatever chain runs through it. */
  function PutHome(nodes: seq<Node>, m: nat, key: Key): seq<Node>
    requires m < |nodes|
  {
    nodes[m := nodes[m].(key := key)]
  }

  lemma PutHomeInv(h: Hash, nodes: seq<Node>, o: Order, m: nat, key: Key)
    requires HashInv(h, nodes, o) && IsLive(key) && m == Main(h, |nodes|, key) && nodes[m].val == Empty
    requires forall i :: 0 <= i < |nodes| ==> nodes[i].key != key
    ensures HashInv(h, PutHome(nodes, m, key), o)
  {
    var r := PutHome(nodes, m, key);
    assert Succs(r) == Succs(nodes);
    forall y | 0 <= y < |r| && IsLive(r[y].key) ensures HomedKey(h, r, o, r[y].key, y) {
      if y != m { assert HomedKey(h, nodes, o, nodes[y].key, y); }
    }
  }

  /** A place for node f right after node m. */
  ghost function OrderAfter(s: seq<int>, o: Order, m: nat, f: nat): Order
    requires Linked(s, o) && m < |s| && f < |s|
  {
    Order(o.chain[f := o.chain[m]],
          o.place[f := if s[m] == -1 then o.place[m] + 1.0 else (o.place[m] + o.place[s[m]]) / 2.0])
  }

  function SuccsAfter(s: seq<int>, m: nat, f: nat): seq<int>
    requires m < |s| && f < |s|
  {
    s[f := s[m]][m := f]
  }

  lemma AfterDistinct(s: seq<int>, o: Order, m: nat, f: nat)
    requires Linked(s, o) && m < |s| && f < |s| && m != f && Alone(o, f)
    ensures Distinct(OrderAfter(s, o, m, f))
  {
    var q := OrderAfter(s, o, m, f);
    forall x | 0 <= x < |s| && x != f && x != m && o.chain[x] == o.chain[m] ensures q.place[x] != q.place[f] {
      assert After(o, m, x) ==> s[m] == x || After(o, s[m], x);
    }
  }

  lemma AfterLinked(s: seq<int>, o: Order, m: nat, f: nat)
    requires Linked(s, o) && m < |s| && f < |s| && m != f && Alone(o, f)
    ensures Linked(SuccsAfter(s, m, f), OrderAfter(s, o, m, f))
  {
    var t, q := SuccsAfter(s, m, f), OrderAfter(s, o, m, f);
    AfterDistinct(s, o, m, f);
    if s[m] != -1 { assert After(o, m, s[m]); }
    forall i | 0 <= i < |t| && t[i] != -1 ensures After(q, i, t[i]) {
      if i != m && i != f { assert After(o, i, s[i]); }
    }
    forall i, k | After(q, i, k) ensures t[i] != -1 && (t[i] == k || After(q, t[i], k)) {
      AfterImmediate(s, o, m, f, i, k);
    }
  }

  lemma AfterImmediate(s: seq<int>, o: Order, m: nat, f: nat, i: int, k: int)
    requires Linked(s, o) && m < |s| && f < |s| && m != f && Alone(o, f)
    requires After(OrderAfter(s, o, m, f), i, k)
    ensures var t, q := SuccsAfter(s, m, f), OrderAfter(s, o, m, f);
      t[i] != -1 && (t[i] == k || After(q, t[i], k))
  {
    if i == f {
      assert s[m] != -1 ==> After(o, m, s[m]);
      assert k == m || o.place[k] > o.place[m];
      assert After(o, m, k) && (s[m] == k || After(o, s[m], k));
    } else if k == f {
      assert After(o, m, i) ==> s[m] == i || After(o, s[m], i);
      if i != m {
        assert After(o, i, m) && After(o, i, s[i]);
        assert s[i] != f && (s[i] == m || After(o, s[i], m));
        assert s[m] != -1 ==> After(o, m, s[m]);
      }
    } else {
      assert After(o, i, k);
      assert After(o, i, s[i]) && (s[i] == k || After(o, s[i], k));
      assert s[i] != f;
    }
  }

  /** Nodes m and f change places. */
  function Swap(m: int, f: int, x: int): int { if x == m then f else if x == f then m else x }

  ghost function OrderMove(o: Order, m: nat, f: nat): Order
    requires Covers(o, |o.chain|) && m < |o.chain| && f < |o.chain|
  {
    Order(o.chain[f := o.chain[m]][m := o.chain[f]], o.place[f := o.place[m]][m := o.place[f]])
  }

  function SuccsMove(s: seq<int>, p: nat, m: nat, f: nat): seq<int>
    requires p < |s| && m < |s| && f < |s|
  {
    s[p := f][f := s[m]][m := -1]
  }

  lemma MoveSwaps(o: Order, m: nat, f: nat, i: int, k: int)
    requires Covers(o, |o.chain|) && m < |o.chain| && f < |o.chain|
    ensures After(OrderMove(o, m, f), i, k) <==> After(o, Swap(m, f, i), Swap(m, f, k))
  {
  }

  lemma MoveSucc(s: seq<int>, o: Order, p: nat, m: nat, f: nat, i: int)
    requires Linked(s, o) && p < |s| && m < |s| && f < |s| && m != f && Alone(o, f) && s[p] == m && 0 <= i < |s|
    ensures s[f] == -1 && p != m && p != f
    ensures SuccsMove(s, p, m, f)[i] == if s[Swap(m, f, i)] == m then f else s[Swap(m, f, i)]
    ensures s[i] != f
  {
    assert After(o, p, m);
    assert forall k :: !After(o, f, k) && !After(o, k, f);
    var x := Swap(m, f, i);
    if s[x] == m { NextInjective(s, o, x, p); }
  }

  lemma MoveLinked(s: seq<int>, o: Order, p: nat, m: nat, f: nat)
    requires Linked(s, o) && p < |s| && m < |s| && f < |s| && m != f && Alone(o, f) && s[p] == m
    ensures Linked(SuccsMove(s, p, m, f), OrderMove(o, m, f))
  {
    var t, q := SuccsMove(s, p, m, f), OrderMove(o, m, f);
    forall i | 0 <= i < |t| && t[i] != -1 ensures After(q, i, t[i]) {
      var x := Swap(m, f, i);
      MoveSucc(s, o, p, m, f, i);
      assert After(o, x, s[x]);
      MoveSwaps(o, m, f, i, t[i]);
    }
    forall i, k | After(q, i, k) ensures t[i] != -1 && (t[i] == k || After(q, t[i], k)) {
      var x, y := Swap(m, f, i), Swap(m, f, k);
      MoveSwaps(o, m, f, i, k);
      MoveSucc(s, o, p, m, f, i);
      MoveSucc(s, o, p, m, f, x);
      assert s[x] != -1 && (s[x] == y || After(o, s[x], y));
      MoveSwaps(o, m, f, t[i], k);
    }
  }

  /** The colliding node is in its main position: the key goes to a free node, linked right
      after it. */
  function ChainAfter(nodes: seq<Node>, m: nat, f: nat, key: Key): seq<Node>
    requires m < |nodes| && f < |nodes|
  {
    var next := if nodes[m].next != 0 then (m + nodes[m].next) - f else nodes[f].next;
    nodes[f := nodes[f].(next := next, key := key)][m := nodes[m].(next := f - m)]
  }

  lemma ChainAfterChained(nodes: seq<Node>, o: Order, m: nat, f: nat, key: Key)
    requires Chained(nodes, o) && Unused(nodes, o) && m < |nodes| && f < |nodes| && m != f && nodes[f].key == Nil
    ensures Chained(ChainAfter(nodes, m, f, key), OrderAfter(Succs(nodes), o, m, f))
  {
    UnusedAlone(nodes, o, f);
    AfterLinked(Succs(nodes), o, m, f);
    assert Succs(ChainAfter(nodes, m, f, key)) == SuccsAfter(Succs(nodes), m, f);
  }

  /** Only node f gets another key. */
  lemma ChainAfterKeys(nodes: seq<Node>, m: nat, f: nat, key: Key)
    requires m < |nodes| && f < |nodes| && m != f && Unique(nodes) && nodes[f].key == Nil
    requires forall i :: 0 <= i < |nodes| ==> nodes[i].key != key
    ensures var r := ChainAfter(nodes, m, f, key);
      Unique(r) && forall i :: 0 <= i < |r| ==> r[i].key == (if i == f then key else nodes[i].key) && r[i].val == nodes[i].val
  {
  }

  lemma ChainAfterUnused(nodes: seq<Node>, o: Order, m: nat, f: nat, key: Key)
    requires Chained(nodes, o) && Unused(nodes, o) && m < |nodes| && f < |nodes| && m != f
    requires nodes[f].key == Nil && IsLive(nodes[m].key) && IsLive(key)
    ensures Unused(ChainAfter(nodes, m, f, key), OrderAfter(Succs(nodes), o, m, f))
  {
    var r, q := ChainAfter(nodes, m, f, key), OrderAfter(Succs(nodes), o, m, f);
    forall i | 0 <= i < |r| && r[i].key == Nil ensures Alone(q, i) {
      assert Alone(o, i);
    }
  }

  lemma ChainAfterInv(h: Hash, nodes: seq<Node>, o: Order, m: nat, f: nat, key: Key)
    requires HashInv(h, nodes, o) && IsLive(key) && m == Main(h, |nodes|, key) && f < |nodes| && m != f
    requires IsLive(nodes[m].key) && Main(h, |nodes|, nodes[m].key) == m && nodes[f].key == Nil
    requires forall i :: 0 <= i < |nodes| ==> nodes[i].key != key
    ensures HashInv(h, ChainAfter(nodes, m, f, key), OrderAfter(Succs(nodes), o, m, f))
  {
    ChainAfterChained(nodes, o, m, f, key);
    UnusedAlone(nodes, o, f);
    AfterHomed(h, nodes, o, m, f, key);
    ChainAfterKeys(nodes, m, f, key);
    ChainAfterUnused(nodes, o, m, f, key);
  }

  lemma AfterHomed(h: Hash, nodes: seq<Node>, o: Order, m: nat, f: nat, key: Key)
    requires HashInv(h, nodes, o) && IsLive(key) && m == Main(h, |nodes|, key) && f < |nodes| && m != f
    requires IsLive(nodes[m].key) && Main(h, |nodes|, nodes[m].key) == m && nodes[f].key == Nil && Alone(o, f)
    ensures Homed(h, ChainAfter(nodes, m, f, key), OrderAfter(Succs(nodes), o, m, f))
  {
    var s := Succs(nodes);
    var r, q := ChainAfter(nodes, m, f, key), OrderAfter(s, o, m, f);
    if s[m] != -1 { assert After(o, m, s[m]); }
    forall y | 0 <= y < |r| && IsLive(r[y].key) ensures HomedKey(h, r, q, r[y].key, y) {
      if y != f { assert HomedKey(h, nodes, o, nodes[y].key, y); }
    }
  }

  /** The colliding node is out of its main position: it moves to the free node f, its
      predecessor p is linked to f, and the key takes its own main position. */
  function MoveAway(nodes: seq<Node>, p: nat, m: nat, f: nat, key: Key): seq<Node>
    requires p < |nodes| && m < |nodes| && f < |nodes|
  {
    var next := if nodes[m].next != 0 then nodes[m].next + (m - f) else 0;
    nodes[p := nodes[p].(next := f - p)][f := nodes[m].(next := next)][m := Node(key, Empty, 0)]
  }

  lemma MoveAwayChained(nodes: seq<Node>, o: Order, p: nat, m: nat, f: nat, key: Key)
    requires Chained(nodes, o) && Unused(nodes, o) && p < |nodes| && m < |nodes| && f < |nodes| && m != f
    requires nodes[f].key == Nil && nodes[p].next != 0 && p + nodes[p].next == m
    ensures Chained(MoveAway(nodes, p, m, f, key), OrderMove(o, m, f)) && Alone(o, f) && p != m && p != f
  {
    var s := Succs(nodes);
    UnusedAlone(nodes, o, f);
    MoveLinked(s, o, p, m, f);
    MoveSucc(s, o, p, m, f, m);
    assert Succs(MoveAway(nodes, p, m, f, key)) == SuccsMove(s, p, m, f);
  }

  lemma MoveAwayHomed(h: Hash, nodes: seq<Node>, o: Order, p: nat, m: nat, f: nat, key: Key)
    requires HashInv(h, nodes, o) && IsLive(key) && m == Main(h, |nodes|, key) && f < |nodes| && p < |nodes|
    requires m != f && p != m && p != f && Alone(o, f)
    requires IsLive(nodes[m].key) && Main(h, |nodes|, nodes[m].key) != m && nodes[f].key == Nil
    ensures Homed(h, MoveAway(nodes, p, m, f, key), OrderMove(o, m, f))
  {
    hide Unique, Unused, Chained;
    var r, q := MoveAway(nodes, p, m, f, key), OrderMove(o, m, f);
    forall y | 0 <= y < |r| && IsLive(r[y].key) ensures HomedKey(h, r, q, r[y].key, y) {
      if y != m {
        var x := if y == f then m else y;
        assert HomedKey(h, nodes, o, nodes[x].key, x);
        assert HomedKey(h, nodes, o, nodes[m].key, m);
      }
    }
  }

  /** Node f takes over node m; node m has the key and no value. */
  lemma MoveAwayKeys(nodes: seq<Node>, p: nat, m: nat, f: nat, key: Key)
    requires p < |nodes| && m < |nodes| && f < |nodes| && m != f && p != m && p != f
    requires Unique(nodes) && forall i :: 0 <= i < |nodes| ==> nodes[i].key != key
    ensures var r := MoveAway(nodes, p, m, f, key);
      Unique(r) && forall i :: 0 <= i < |r| ==>
        r[i].key == (if i == m then key else if i == f then nodes[m].key else nodes[i].key) &&
        r[i].val == (if i == m then Empty else if i == f then nodes[m].val else nodes[i].val)
  {
  }

  lemma MoveAwayUnused(nodes: seq<Node>, o: Order, p: nat, m: nat, f: nat, key: Key)
    requires Chained(nodes, o) && Unused(nodes, o) && p < |nodes| && m < |nodes| && f < |nodes|
    requires m != f && p != m && p != f && nodes[f].key == Nil && IsLive(nodes[m].key) && IsLive(key)
    ensures Unused(MoveAway(nodes, p, m, f, key), OrderMove(o, m, f))
  {
    var r, q := MoveAway(nodes, p, m, f, key), OrderMove(o, m, f);
    forall i | 0 <= i < |r| && r[i].key == Nil ensures Alone(q, i) {
      assert Alone(o, i);
    }
  }

  lemma MoveAwayInv(h: Hash, nodes: seq<Node>, o: Order, p: nat, m: nat, f: nat, key: Key)
    requires HashInv(h, nodes, o) && IsLive(key) && m == Main(h, |nodes|, key) && f < |nodes| && p < |nodes| && m != f
    requires IsLive(nodes[m].key) && Main(h, |nodes|, nodes[m].key) != m && nodes[f].key == Nil
    requires nodes[p].next != 0 && p + nodes[p].next == m
    requires forall i :: 0 <= i < |nodes| ==> nodes[i].key != key
    ensures HashInv(h, MoveAway(nodes, p, m, f, key), OrderMove(o, m, f)) && p != m && p != f
  {
    MoveAwayChained(nodes, o, p, m, f, key);
    MoveAwayHomed(h, nodes, o, p, m, f, key);
    MoveAwayKeys(nodes, p, m, f, key);
    MoveAwayUnused(nodes, o, p, m, f, key);
  }

  /** A search for a key that has got to node n has not passed the key. */
  ghost predicate NotPassed(nodes: seq<Node>, o: Order, key: Key, n: int) {
    0 <= n < |nodes| && forall y :: 0 <= y < |nodes| && nodes[y].key == key ==> Reaches(o, n, y)
  }

  lemma SearchStart(h: Hash, nodes: seq<Node>, o: Order, key: Key)
    requires HashInv(h, nodes, o) && IsLive(key)
    ensures NotPassed(nodes, o, key, Main(h, |nodes|, key))
  {
    forall y | 0 <= y < |nodes| && nodes[y].key == key ensures Reaches(o, Main(h, |nodes|, key), y) {
      assert HomedKey(h, nodes, o, nodes[y].key, y);
    }
  }

  lemma SearchNext(nodes: seq<Node>, o: Order, key: Key, n: int)
    requires Chained(nodes, o) && NotPassed(nodes, o, key, n) && nodes[n].key != key
    ensures nodes[n].next == 0 ==> forall y :: 0 <= y < |nodes| ==> nodes[y].key != key
    ensures nodes[n].next != 0 ==>
      NotPassed(nodes, o, key, n + nodes[n].next) && Ahead(o, n + nodes[n].next) < Ahead(o, n)
  {
    if nodes[n].next != 0 {
      AheadShrinks(Succs(nodes), o, n);
    } else {
      var s := Succs(nodes);
      assert s[n] == -1;
      assert forall y :: !After(o, n, y);
    }
  }

  /** The search for the predecessor of node m, from a node before it on its chain. */
  lemma PredecessorNext(nodes: seq<Node>, o: Order, n: int, m: int)
    requires Chained(nodes, o) && After(o, n, m) && |o.chain| == |nodes|
    ensures nodes[n].next != 0
    ensures n + nodes[n].next != m ==>
      After(o, n + nodes[n].next, m) && Ahead(o, n + nodes[n].next) < Ahead(o, n)
  {
    assert Succs(nodes)[n] != -1;
    AheadShrinks(Succs(nodes), o, n);
  }

  /** A node out of its main position comes after it on the chain. */
  lemma OutOfHome(h: Hash, nodes: seq<Node>, o: Order, m: nat)
    requires HashInv(h, nodes, o) && m < |nodes| && IsLive(nodes[m].key) && Main(h, |nodes|, nodes[m].key) != m
    ensures After(o, Main(h, |nodes|, nodes[m].key), m)
  {
    assert HomedKey(h, nodes, o, nodes[m].key, m);
  }

  /** A node with a value has a live key. */
  lemma ValueHasKey(h: Hash, nodes: seq<Node>, o: Order, m: nat)
    requires HashInv(h, nodes, o) && m < |nodes| && nodes[m].val != Empty
    ensures IsLive(nodes[m].key) && Covers(o, |nodes|)
    ensures forall i :: 0 <= i < |nodes| && nodes[i].key == Nil ==> nodes[i].val == Empty
  {
  }

  /** Writing the value of a node that has a key. */
  lemma PutNodeInv(h: Hash, nodes: seq<Node>, o: Order, y: nat, c: Cell)
    requires HashInv(h, nodes, o) && y < |nodes| && IsLive(nodes[y].key)
    ensures HashInv(h, nodes[y := nodes[y].(val := c)], o)
    ensures forall lf: nat :: FreeBelow(nodes, lf) ==> FreeBelow(nodes[y := nodes[y].(val := c)], lf)
  {
    var r := nodes[y := nodes[y].(val := c)];
    assert Succs(r) == Succs(nodes);
    forall x | 0 <= x < |r| && IsLive(r[x].key) ensures HomedKey(h, r, o, r[x].key, x) {
      assert HomedKey(h, nodes, o, nodes[x].key, x);
    }
  }

  /** An emptied node may lose its key; it stays linked. */
  lemma DeadKeyInv(h: Hash, nodes: seq<Node>, o: Order, y: nat)
    requires HashInv(h, nodes, o) && y < |nodes| && IsLive(nodes[y].key) && nodes[y].val == Empty
    ensures HashInv(h, nodes[y := nodes[y].(key := Dead)], o)
    ensures forall lf: nat :: FreeBelow(nodes, lf) ==> FreeBelow(nodes[y := nodes[y].(key := Dead)], lf)
  {
    hide Succs, Main, Linked, After;
    var r := nodes[y := nodes[y].(key := Dead)];
    assert Succs(r) == Succs(nodes);
    forall x | 0 <= x < |r| && IsLive(r[x].key) ensures HomedKey(h, r, o, r[x].key, x) {
      assert HomedKey(h, nodes, o, nodes[x].key, x);
    }
  }
}
