/** The table object of ltable.c. `Contents` is the finite map it stands for. */
module LuaTable {
  import opened Common
  import opened TableChain
  import opened TableData
  import opened TableSizes

  /** A pointer to a cell of the table, as luaH_get and luaH_set return it. */
  datatype Slot = Absent | ArraySlot(i: nat) | NodeSlot(y: nat)

  /** What an operation that may raise an error returns. */
  datatype Outcome = Done(slot: Slot) | IndexIsNil | NoMemory | Overflow

  /** What the allocator answers when an operation asks for a node vector and for an array part;
      no operation asks twice. */
  datatype Memory = Memory(forNodes: bool, forArray: bool)

  const PLENTY := Memory(true, true)

  const DUMMY := FreshNodes(1)

  class Table {
    const h: Hash
    var arr: seq<Cell>
    var alimit: nat
    var isReal: bool
    var nodes: seq<Node>
    var lastfree: nat
    var isDummy: bool
    ghost var order: Order
    ghost var Contents: map<Key, nat>

    /** luaH_realasize: the size of the array part, recovered from the hint. */
    function RealSize(): nat
      reads this`alimit, this`isReal
    {
      if isReal || IsPow2(alimit) then alimit else RoundUp(alimit)
    }

    ghost predicate NodesOk()
      reads this`nodes, this`order, this`isDummy
    {
      HashInv(h, nodes, order) && (isDummy ==> nodes == DUMMY)
    }

    ghost predicate HashPart()
      reads this`nodes, this`order, this`isDummy, this`lastfree
    {
      NodesOk() && (!isDummy ==> FreeBelow(nodes, lastfree))
    }

    /** The invariant but for the true length of the array, which a resize changes last. */
    ghost predicate Parts()
      reads this
    {
      RealSize() <= |arr| && HashPart() && Agree(arr[..RealSize()], nodes, Contents)
    }

    ghost predicate Valid()
      reads this
    {
      Parts() && RealSize() == |arr| <= 0x8000_0000
    }

    /** So many slots that a rehash may ask for more nodes than a table can have. */
    ghost predicate Huge()
      reads this`arr, this`nodes
    {
      |arr| + |nodes| >= 0x4000_0000
    }

    /** The slot is where the key is, or the key is nowhere. */
    ghost predicate SlotFor(s: Slot, k: Key)
      reads this
    {
      match s
      case ArraySlot(i) => k == Int(i + 1) && i < RealSize()
      case NodeSlot(y) => y < |nodes| && nodes[y].key == k && !InArray(k, RealSize())
      case Absent => !InArray(k, RealSize()) && !HasKey(nodes, k)
    }

    /** The cell a slot points to. */
    function CellAt(s: Slot): Cell
      requires (s.ArraySlot? ==> s.i < |arr|) && (s.NodeSlot? ==> s.y < |nodes|)
      reads this`arr, this`nodes
    {
      match s
      case ArraySlot(i) => arr[i]
      case NodeSlot(y) => nodes[y].val
      case Absent => Empty
    }

    lemma SlotCell(s: Slot, k: Key)
      requires Parts() && SlotFor(s, k) && IsLive(k)
      ensures CellAt(s) == At(Contents, k)
    {
      hide HashPart;
    }

    constructor (hash: Hash)
      ensures Valid() && Contents == map[] && h == hash
    {
      h := hash;
      arr, alimit, isReal := [], 0, true;
      nodes, lastfree, isDummy := DUMMY, 0, true;
      order, Contents := Order([0], [0.0]), map[];
    }

    /** getgeneric, and the node loop of luaH_getint: walk the chain of the main position. */
    method GetGeneric(key: Key) returns (s: Slot)
      requires HashPart() && IsLive(key)
      ensures s == Absent ==> !HasKey(nodes, key)
      ensures s != Absent ==> s.NodeSlot? && s.y < |nodes| && nodes[s.y].key == key
    {
      hide Covers, Linked, Reaches, Unused, Alone, Homed, IsLive, HomedKey, Unique, Succs, Ahead;
      var n := Main(h, |nodes|, key);
      SearchStart(h, nodes, order, key);
      while true
        invariant NotPassed(nodes, order, key, n)
        decreases Ahead(order, n)
      {
        if nodes[n].key == key { return NodeSlot(n); }
        SearchNext(nodes, order, key, n);
        var nx := nodes[n].next;
        if nx == 0 { return Absent; }
        n := n + nx;
      }
    }

    /** luaH_getint. It may move the hint `alimit`, never the size it stands for. */
    method GetInt(key: int) returns (s: Slot)
      requires Parts()
      modifies this`alimit
      ensures Parts() && RealSize() == old(RealSize()) && SlotFor(s, Int(key))
      ensures isReal ==> alimit == old(alimit)
    {
      if 1 <= key <= alimit {
        return ArraySlot(key - 1);
      } else if !(isReal || IsPow2(alimit)) && (key == alimit + 1 || 1 <= key <= RealSize()) {
        HintMoves(key);
        alimit := key;
        return ArraySlot(key - 1);
      }
      s := GetGeneric(Int(key));
    }

    /** Between half of the size and the size, every hint stands for the same size. */
    lemma HintMoves(key: int)
      requires !isReal && !IsPow2(alimit) && (key == alimit + 1 || 1 <= key <= RealSize()) && key > alimit
      ensures key <= RealSize() && RealSize() == if IsPow2(key) then key else RoundUp(key)
    {
      RoundUpUnique(key, RealSize());
      if IsPow2(key) { RoundUpOfPow2(key); }
    }

    /** luaH_get. */
    method Get(key: Key) returns (s: Slot)
      requires Parts()
      modifies this`alimit
      ensures Parts() && RealSize() == old(RealSize()) && (isReal ==> alimit == old(alimit))
      ensures IsLive(key) ==> SlotFor(s, key) && CellAt(s) == At(Contents, key)
      ensures !IsLive(key) ==> s == Absent
    {
      hide Agree, HashInv, HasKey, FreeBelow;
      match key {
        case Int(i) => s := GetInt(i);
        case Other(_) => s := GetGeneric(key);
        case _ => s := Absent;
      }
      if IsLive(key) { SlotCell(s, key); }
    }
  
    /** getfreepos: free positions are below `lastfree`. The position found must be used. */
    method GetFreePos() returns (f: int)
      requires HashPart()
      modifies this`lastfree
      ensures NodesOk()
      ensures f == -1 ==> HashPart() && (isDummy || |UsedNodes(nodes)| == |nodes|)
      ensures f != -1 ==> LastFree(nodes, f) && lastfree == f && !isDummy
    {
      if !isDummy {
        while lastfree > 0
          invariant FreeBelow(nodes, lastfree)
        {
          lastfree := lastfree - 1;
          if nodes[lastfree].key == Nil { return lastfree; }
        }
        AllUsed(nodes);
      }
      return -1;
    }

    /** The loop of luaH_newkey that finds the node before mp on its chain. */
    method Predecessor(othern: nat, mp: nat) returns (p: nat)
      requires NodesOk() && After(order, othern, mp)
      ensures p < |nodes| && nodes[p].next != 0 && p + nodes[p].next == mp
    {
      hide Homed, Unique, Unused;
      p := othern;
      PredecessorNext(nodes, order, p, mp);
      while p + nodes[p].next != mp
        invariant 0 <= p < |nodes| && After(order, p, mp) && nodes[p].next != 0
        decreases Ahead(order, p)
      {
        PredecessorNext(nodes, order, p, mp);
        p := p + nodes[p].next;
        PredecessorNext(nodes, order, p, mp);
      }
    }

    /** The three insertions of luaH_newkey into a hash part with room. f is the free position
        when the main position is taken. */
    method InsertKey(key: Key, mp: nat, f: int) returns (y: nat)
      requires NodesOk() && IsLive(key) && !isDummy && !HasKey(nodes, key) && mp == Main(h, |nodes|, key)
      requires if nodes[mp].val == Empty then HashPart() else LastFree(nodes, f) && lastfree == f
      modifies this`nodes, this`order
      ensures HashPart() && InsertionOk(h, old(nodes), nodes, order, key)
      ensures y < |nodes| && nodes[y].key == key && nodes[y].val == Empty
    {
      if nodes[mp].val == Empty {
        HomeOk(h, nodes, order, mp, key);
        nodes := nodes[mp := nodes[mp].(key := key)];
        return mp;
      }
      var othern := Main(h, |nodes|, nodes[mp].key);
      if othern != mp {
        InsertMoving(key, mp, f, othern);
        y := mp;
      } else {
        InsertChained(key, mp, f);
        y := f;
      }
    }

    /** The colliding node goes to the free position. */
    method InsertMoving(key: Key, mp: nat, f: int, othern: nat)
      requires NodesOk() && IsLive(key) && !isDummy && !HasKey(nodes, key) && mp == Main(h, |nodes|, key)
      requires nodes[mp].val != Empty && LastFree(nodes, f) && lastfree == f
      requires othern == Main(h, |nodes|, nodes[mp].key) && othern != mp
      modifies this`nodes, this`order
      ensures HashPart() && InsertionOk(h, old(nodes), nodes, order, key)
      ensures nodes[mp].key == key && nodes[mp].val == Empty
    {
      hide HashInv, HasKey, Inserted, UsedNodes;
      ValueHasKey(h, nodes, order, mp);
      OutOfHome(h, nodes, order, mp);
      var p := Predecessor(othern, mp);
      MoveOk(h, nodes, order, p, mp, f, key);
      ghost var r := MoveAway(nodes, p, mp, f, key);
      var next := if nodes[mp].next != 0 then nodes[mp].next + (mp - f) else 0;
      order := OrderMove(order, mp, f);
      nodes := nodes[p := nodes[p].(next := f - p)][f := nodes[mp].(next := next)][mp := Node(key, Empty, 0)];
      assert nodes == r;
    }

    /** The new key goes to the free position, after the colliding node. */
    method InsertChained(key: Key, mp: nat, f: int)
      requires NodesOk() && IsLive(key) && !isDummy && !HasKey(nodes, key) && mp == Main(h, |nodes|, key)
      requires nodes[mp].val != Empty && LastFree(nodes, f) && lastfree == f
      requires mp == Main(h, |nodes|, nodes[mp].key)
      modifies this`nodes, this`order
      ensures HashPart() && InsertionOk(h, old(nodes), nodes, order, key)
      ensures 0 <= f < |nodes| && nodes[f].key == key && nodes[f].val == Empty
    {
      hide Homed, Unique, Unused, Linked, Inserted, HasKey, UsedNodes;
      ValueHasKey(h, nodes, order, mp);
      ChainOk(h, nodes, order, mp, f, key);
      ghost var r := ChainAfter(nodes, mp, f, key);
      var next := if nodes[mp].next != 0 then (mp + nodes[mp].next) - f else nodes[f].next;
      order := OrderAfter(Succs(nodes), order, mp, f);
      nodes := nodes[f := nodes[f].(next := next, key := key)][mp := nodes[mp].(next := f - mp)];
      assert nodes == r;
    }

    /** There is room for one more key in the hash part. */
    ghost predicate HasRoom()
      reads this`nodes, this`isDummy
    {
      !isDummy && |UsedNodes(nodes)| < |nodes|
    }

    /** Nothing but the hash part has changed, and that has kept its size. */
    twostate predicate OnlyNodes()
      reads this
    {
      arr == old(arr) && alimit == old(alimit) && isReal == old(isReal) &&
      |nodes| == |old(nodes)| && isDummy == old(isDummy)
    }

    /** setobj on the cell of a slot. */
    method Assign(s: Slot, key: Key, c: Cell)
      requires Parts() && IsLive(key) && SlotFor(s, key) && s != Absent
      modifies this`arr, this`nodes, this`Contents
      ensures Parts() && Contents == Put(old(Contents), key, c) && |arr| == |old(arr)| && |nodes| == |old(nodes)|
      ensures UsedNodes(nodes) == UsedNodes(old(nodes))
      ensures s.NodeSlot? ==> arr == old(arr)
    {
      if s.ArraySlot? { AssignCell(s.i, c); } else { AssignNode(s.y, c); }
    }

    method AssignCell(i: nat, c: Cell)
      requires Parts() && i < RealSize()
      modifies this`arr, this`Contents
      ensures Parts() && Contents == Put(old(Contents), Int(i + 1), c) && |arr| == |old(arr)|
    {
      PutCell(arr[..RealSize()], nodes, Contents, i, c);
      assert arr[i := c][..RealSize()] == arr[..RealSize()][i := c];
      arr := arr[i := c];
      Contents := Put(Contents, Int(i + 1), c);
    }

    method AssignNode(y: nat, c: Cell)
      requires Parts() && y < |nodes| && IsLive(nodes[y].key) && !InArray(nodes[y].key, RealSize())
      modifies this`nodes, this`Contents
      ensures Parts() && Contents == Put(old(Contents), old(nodes[y].key), c) && |nodes| == |old(nodes)|
      ensures UsedNodes(nodes) == UsedNodes(old(nodes))
    {
      hide Homed, Linked, Unique, FreeBelow, HasKey;
      PutNode(arr[..RealSize()], nodes, Contents, y, c);
      PutNodeInv(h, nodes, order, y, c);
      Contents := Put(Contents, nodes[y].key, c);
      nodes := nodes[y := nodes[y].(val := c)];
    }

    /** The end of luaH_newkey: the key is put in place, still without a value. */
    method PlaceKey(key: Key, mp: nat, f: int) returns (y: nat)
      requires NodesOk() && IsLive(key) && !isDummy && SlotFor(Absent, key) && mp == Main(h, |nodes|, key)
      requires if nodes[mp].val == Empty then HashPart() else LastFree(nodes, f) && lastfree == f
      requires RealSize() <= |arr| && Agree(arr[..RealSize()], nodes, Contents) && At(Contents, key) == Empty
      modifies this`nodes, this`order
      ensures Parts() && SlotFor(NodeSlot(y), key) && nodes[y].val == Empty && |nodes| == |old(nodes)|
      ensures |UsedNodes(nodes)| <= |UsedNodes(old(nodes))| + 1
    {
      y := InsertKey(key, mp, f);
      InsertedAgree(arr[..RealSize()], old(nodes), nodes, Contents, key);
    }

    /** The part of luaH_newkey that needs no memory; -1 when there is no free position. */
    method TryPlace(key: Key) returns (y: int)
      requires Parts() && IsLive(key) && SlotFor(Absent, key) && At(Contents, key) == Empty
      modifies this`nodes, this`order, this`lastfree
      ensures Parts() && |nodes| == |old(nodes)| && |UsedNodes(nodes)| <= |UsedNodes(old(nodes))| + 1
      ensures y == -1 ==> nodes == old(nodes) && !HasRoom()
      ensures y != -1 ==> 0 <= y && SlotFor(NodeSlot(y), key) && nodes[y].val == Empty
    {
      hide Agree, HasKey, UsedNodes, Main;
      var mp := Main(h, |nodes|, key);
      var f := -1;
      if nodes[mp].val != Empty || isDummy {
        f := GetFreePos();
        if f == -1 { return -1; }
      }
      y := PlaceKey(key, mp, f);
    }

    /** luaH_newkey. With room it never rehashes; without, it rehashes once. */
    method NewKey(key: Key, ghost roomy: bool, memory: Memory) returns (r: Outcome)
      requires key != Dead && (IsLive(key) ==> SlotFor(Absent, key))
      requires if roomy then Parts() && HasRoom() else Valid()
      modifies this
      decreases if roomy then 0 else 3, 0
      ensures Parts() && (!roomy ==> Valid()) && Contents == old(Contents)
      ensures r == IndexIsNil <==> key == Nil
      ensures r.Done? ==> SlotFor(r.slot, key) && r.slot != Absent && CellAt(r.slot) == Empty
      ensures (r == NoMemory ==> memory != PLENTY) && (r == Overflow ==> old(Huge()))
      ensures roomy && key != Nil ==> r.Done? && r.slot.NodeSlot?
      ensures roomy ==> OnlyNodes() && |UsedNodes(nodes)| <= |UsedNodes(old(nodes))| + 1
    {
      if key == Nil { return IndexIsNil; }
      SlotCell(Absent, key);
      var y := TryPlace(key);
      if y == -1 {
        assert !roomy;
        r := GrowAndSet(key, memory);
      } else {
        r := Done(NodeSlot(y));
      }
    }

    /** luaH_newkey without a free position: grow the table and insert the key into it. */
    method GrowAndSet(key: Key, memory: Memory) returns (r: Outcome)
      requires Valid() && IsLive(key) && SlotFor(Absent, key)
      modifies this
      decreases 2, 1
      ensures Valid() && Contents == old(Contents) && r != IndexIsNil
      ensures (r == NoMemory ==> memory != PLENTY) && (r == Overflow ==> old(Huge()))
      ensures r.Done? ==> SlotFor(r.slot, key) && r.slot != Absent && CellAt(r.slot) == Empty
    {
      SlotCell(Absent, key);
      r := Rehash(key, memory);
      if r.Done? { r := Set(key, true, memory); }
    }

    /** luaH_set: find the slot of a key or make one. */
    method Set(key: Key, ghost roomy: bool, memory: Memory) returns (r: Outcome)
      requires key != Dead && Parts() && (!roomy ==> Valid()) && (roomy ==> isReal && IsLive(key))
      requires roomy ==> InArray(key, RealSize()) || HasKey(nodes, key) || HasRoom()
      modifies this
      decreases if roomy then 0 else 3, 1
      ensures Parts() && (!roomy ==> Valid()) && Contents == old(Contents)
      ensures r == IndexIsNil <==> key == Nil
      ensures r.Done? ==> SlotFor(r.slot, key) && r.slot != Absent && CellAt(r.slot) == At(Contents, key)
      ensures (r == NoMemory ==> memory != PLENTY) && (r == Overflow ==> old(Huge()))
      ensures roomy && key != Nil ==> r.Done?
      ensures roomy ==> OnlyNodes() && |UsedNodes(nodes)| <= |UsedNodes(old(nodes))| + 1
      ensures roomy && InArray(key, RealSize()) ==> nodes == old(nodes)
    {
      var s := Get(key);
      if s != Absent { return Done(s); }
      r := NewKey(key, roomy, memory);
    }

    /** luaH_set followed by the assignment of the value, as reinsert and luaH_setint do it. */
    method SetRoomy(key: Key, c: Cell)
      requires Parts() && isReal && IsLive(key)
      requires InArray(key, RealSize()) || HasKey(nodes, key) || HasRoom()
      modifies this
      decreases 0, 2
      ensures Parts() && Contents == Put(old(Contents), key, c)
      ensures |arr| == |old(arr)| && alimit == old(alimit) && isReal && |nodes| == |old(nodes)| && isDummy == old(isDummy)
      ensures |UsedNodes(nodes)| <= |UsedNodes(old(nodes))| + (if InArray(key, old(RealSize())) then 0 else 1)
      ensures !InArray(key, old(RealSize())) ==> arr == old(arr)
    {
      var r := Set(key, true, PLENTY);
      Assign(r.slot, key, c);
    }

    /** setlimittosize. */
    method SetLimitToSize() returns (size: nat)
      requires Valid()
      modifies this`alimit, this`isReal
      ensures Valid() && isReal && size == alimit == |arr|
    {
      alimit := RealSize();
      isReal := true;
      size := alimit;
    }

    /** The hash part has room for n more keys. */
    ghost predicate RoomFor(n: nat)
      reads this`nodes, this`isDummy
    {
      if isDummy then n == 0 else |UsedNodes(nodes)| + n <= |nodes|
    }

    method InsertSliceElement(i: nat, ghost m: map<Key, nat>)
      requires Parts() && isReal && alimit <= i < |arr| && Contents == Restrict(m, i) && arr[i] == At(m, Int(i + 1))
      requires RoomFor(CountCells(arr[i..]))
      modifies this
      decreases 0, 3
      ensures Parts() && isReal && alimit == old(alimit) && arr == old(arr) && Contents == Restrict(m, i + 1)
      ensures RoomFor(CountCells(arr[i + 1..])) && |nodes| == |old(nodes)| && isDummy == old(isDummy)
      ensures |UsedNodes(nodes)| + CountCells(arr[i + 1..]) <= |UsedNodes(old(nodes))| + CountCells(arr[i..])
    {
      RestrictNext(m, i);
      CountCellsHead(arr[i..]);
      assert arr[i..][1..] == arr[i + 1..];
      if arr[i] != Empty { SetRoomy(Int(i + 1), arr[i]); }
    }

    /** The loop of luaH_resize over the vanishing slice of the array. The table pretends to
        have the new size, and the new hash part. */
    method InsertSlice(oldasize: nat, ghost m: map<Key, nat>)
      requires Parts() && isReal && alimit <= oldasize == |arr| && Contents == Restrict(m, alimit)
      requires forall i :: 0 <= i < oldasize ==> arr[i] == At(m, Int(i + 1))
      requires RoomFor(CountCells(arr[alimit..]))
      modifies this
      decreases 1, 0
      ensures Parts() && isReal && alimit == old(alimit) && arr == old(arr) && Contents == Restrict(m, oldasize)
      ensures |nodes| == |old(nodes)| && isDummy == old(isDummy)
      ensures |UsedNodes(nodes)| <= |UsedNodes(old(nodes))| + CountCells(arr[alimit..])
    {
      hide HashPart, Agree, UsedNodes;
      var i := alimit;
      ghost var total := |UsedNodes(nodes)| + CountCells(arr[alimit..]);
      while i < oldasize
        invariant alimit == old(alimit) && alimit <= i <= oldasize && arr == old(arr) && Parts() && isReal
        invariant Contents == Restrict(m, i) && RoomFor(CountCells(arr[i..]))
        invariant |nodes| == |old(nodes)| && isDummy == old(isDummy)
        invariant |UsedNodes(nodes)| + CountCells(arr[i..]) <= total
      {
        InsertSliceElement(i, m);
        i := i + 1;
      }
    }

    /** reinsert: the elements of the old hash part go to the new parts of the table. */
    method Reinsert(old_: seq<Node>, ghost m: map<Key, nat>)
      requires Valid() && isReal && Contents == m
      requires forall y :: 0 <= y < |old_| && old_[y].val != Empty ==> IsLive(old_[y].key)
      requires isDummy ==> CountNodes(old_, alimit) == 0
      requires !isDummy ==> |UsedNodes(nodes)| + CountNodes(old_, alimit) <= |nodes|
      modifies this
      decreases 1, 0
      ensures Valid() && isReal && alimit == old(alimit) && Contents == Added(m, old_, |old_|)
      ensures |nodes| == |old(nodes)| && isDummy == old(isDummy)
      ensures |UsedNodes(nodes)| <= |UsedNodes(old(nodes))| + CountNodes(old_, alimit)
    {
      hide HashPart, UsedNodes, CountNodes;
      var j := 0;
      assert old_[..0] == [];
      while j < |old_|
        invariant 0 <= j <= |old_| && Valid() && isReal && alimit == old(alimit)
        invariant Contents == Added(m, old_, j)
        invariant |nodes| == |old(nodes)| && isDummy == old(isDummy)
        invariant |UsedNodes(nodes)| <= |UsedNodes(old(nodes))| + CountNodes(old_[..j], alimit)
      {
        CountNodesNext(old_, alimit, j);
        CountNodesPrefix(old_, alimit, j + 1);
        if old_[j].val != Empty {
          SetRoomy(old_[j].key, old_[j].val);
        }
        j := j + 1;
      }
      assert old_[..j] == old_;
    }

    /** setnodevector. */
    method NewNodeVector(size: nat, granted: bool) returns (r: Outcome, p: Part)
      ensures r.Done? ==> FreshPart(p, size)
      ensures r != IndexIsNil && (r == NoMemory ==> !granted) && (r == Overflow <==> size > 0x4000_0000)
    {
      p := Part(DUMMY, 0, true);
      if size != 0 {
        var lsize := CeilLog2(size);
        CeilLog2Reaches(size, MAXHBITS);
        Pow2Values();
        if lsize > MAXHBITS { return Overflow, p; }
        if !granted { return NoMemory, p; }
        p := Part(FreshNodes(Pow2(lsize)), Pow2(lsize), false);
      }
      r := Done(Absent);
    }

    /** exchangehashpart. */
    method ExchangeHashPart(p: Part, ghost o: Order) returns (q: Part)
      modifies this`nodes, this`lastfree, this`isDummy, this`order
      ensures nodes == p.nodes && lastfree == p.lastfree && isDummy == p.isDummy && order == o
      ensures q == Part(old(nodes), old(lastfree), old(isDummy))
    {
      q := Part(nodes, lastfree, isDummy);
      nodes, lastfree, isDummy, order := p.nodes, p.lastfree, p.isDummy, o;
    }

    /** The first half of luaH_resize when the array shrinks: the vanishing slice goes into the
        new hash part; the table itself is as it was in the end. */
    method FillNewHash(newasize: nat, p: Part, size: nat) returns (q: Part, ghost o: Order)
      requires Valid() && isReal && newasize < alimit && FreshPart(p, size)
      requires CountCells(arr[newasize..]) <= Capacity(size)
      modifies this
      decreases 1, 1
      ensures Valid() && arr == old(arr) && nodes == old(nodes) && alimit == old(alimit) && isReal
      ensures lastfree == old(lastfree) && isDummy == old(isDummy) && order == old(order) && Contents == old(Contents)
      ensures PartOk(h, q, o) && |q.nodes| == |p.nodes| && q.isDummy == p.isDummy
      ensures |UsedNodes(q.nodes)| <= CountCells(arr[newasize..])
      ensures Agree(arr[..newasize], q.nodes, Restrict(Contents, |arr|))
    {
      hide HashInv, FreeBelow, UsedNodes, Agree, CountCells;
      var oldasize := alimit;
      assert arr[..RealSize()] == arr;
      AgreeCells(arr, nodes, Contents);
      ghost var m, order0, arr0 := Contents, order, arr;
      FreshInv(h, |p.nodes|);
      FreshAgree(arr[..newasize], m, |p.nodes|);
      alimit := newasize;
      var old_ := ExchangeHashPart(p, FreshOrder(|p.nodes|));
      Contents := Restrict(m, newasize);
      InsertSlice(oldasize, m);
      alimit := oldasize;
      o := order;
      q := ExchangeHashPart(old_, order0);
      Contents := m;
    }

    /** The new parts are put in; for the moment the table holds only what they hold. */
    method SwapParts(newasize: nat, p: Part, ghost o: Order) returns (old_: seq<Node>)
      requires Valid() && isReal && newasize <= 0x8000_0000 && PartOk(h, p, o)
      requires Agree(Resized(arr, newasize), p.nodes, Restrict(Contents, |arr|))
      modifies this
      ensures Valid() && isReal && alimit == newasize && Contents == Restrict(old(Contents), |old(arr)|)
      ensures nodes == p.nodes && isDummy == p.isDummy && old_ == old(nodes)
    {
      Contents := Restrict(Contents, |arr|);
      var q := ExchangeHashPart(p, o);
      arr := Resized(arr, newasize);
      alimit := newasize;
      assert arr[..RealSize()] == arr;
      old_ := q.nodes;
    }

    /** The second half of luaH_resize: the new parts are put in and the elements of the old
        hash part go into them. */
    method InstallParts(newasize: nat, p: Part, ghost o: Order)
      requires Valid() && isReal && newasize <= 0x8000_0000 && PartOk(h, p, o)
      requires Agree(Resized(arr, newasize), p.nodes, Restrict(Contents, |arr|))
      requires p.isDummy ==> CountNodes(nodes, newasize) == 0
      requires !p.isDummy ==> |UsedNodes(p.nodes)| + CountNodes(nodes, newasize) <= |p.nodes|
      modifies this
      decreases 1, 1
      ensures Valid() && isReal && alimit == newasize && Contents == old(Contents)
      ensures |nodes| == |p.nodes| && isDummy == p.isDummy
      ensures |UsedNodes(nodes)| <= |UsedNodes(p.nodes)| + CountNodes(old(nodes), newasize)
    {
      hide Homed, FreeBelow, UsedNodes;
      AllAdded(arr, nodes, Contents, order);
      var old_ := SwapParts(newasize, p, o);
      Reinsert(old_, Contents);
    }

    /** The new hash part with the vanishing slice of the array, if there is one. */
    method PrepareHash(newasize: nat, p: Part, size: nat) returns (q: Part, ghost o: Order)
      requires Valid() && isReal && FreshPart(p, size) && Need(arr, nodes, newasize) <= Capacity(size)
      modifies this
      decreases 1, 2
      ensures Valid() && arr == old(arr) && nodes == old(nodes) && alimit == old(alimit) && isReal
      ensures lastfree == old(lastfree) && isDummy == old(isDummy) && order == old(order) && Contents == old(Contents)
      ensures PartOk(h, q, o) && |q.nodes| == NodeCount(size) && q.isDummy == (size == 0)
      ensures Agree(Resized(arr, newasize), q.nodes, Restrict(Contents, |arr|))
      ensures |UsedNodes(q.nodes)| + CountNodes(nodes, newasize) <= Need(arr, nodes, newasize)
      ensures if q.isDummy then Need(arr, nodes, newasize) == 0 else Need(arr, nodes, newasize) <= |q.nodes|
    {
      hide HashInv, FreeBelow, UsedNodes, Agree, CountCells, CountNodes, IsPow2, RoundUp;
      q, o := p, FreshOrder(|p.nodes|);
      FreshInv(h, |p.nodes|);
      if newasize < alimit {
        q, o := FillNewHash(newasize, p, size);
      } else {
        assert arr[..RealSize()] == arr;
        AgreeCells(arr, nodes, Contents);
        NothingVanishes(arr, newasize);
        GrownAgree(arr, Contents, newasize, |p.nodes|);
      }
    }

    /** luaH_resize. The callers in the table ask for a hash part that has room for what must
        go there. If memory runs out the table is unchanged. */
    method Resize(newasize: nat, nhsize: nat, memory: Memory) returns (r: Outcome)
      requires Valid() && newasize <= 0x8000_0000 && Need(arr, nodes, newasize) <= Capacity(nhsize)
      modifies this
      decreases 1, 3
      ensures Valid() && isReal && Contents == old(Contents) && r != IndexIsNil
      ensures (r == NoMemory ==> memory != PLENTY) && (r == Overflow <==> nhsize > 0x4000_0000)
      ensures r.Done? ==> |arr| == newasize && |nodes| == NodeCount(nhsize) && isDummy == (nhsize == 0)
      ensures r.Done? ==> |UsedNodes(nodes)| <= Need(old(arr), old(nodes), newasize)
      ensures !r.Done? ==> arr == old(arr) && nodes == old(nodes) && isDummy == old(isDummy) && lastfree == old(lastfree)
    {
      hide HashInv, FreeBelow, UsedNodes, Agree, CountCells, CountNodes, Need, IsPow2, RoundUp, FreshPart, PartOk;
      hide Resized, Restrict, Capacity, NodeCount, Pow2;
      var oldasize := SetLimitToSize();
      var p;
      r, p := NewNodeVector(nhsize, memory.forNodes);
      if !r.Done? { return; }
      ghost var o;
      p, o := PrepareHash(newasize, p, nhsize);
      if newasize > 0 && !memory.forArray { return NoMemory; }
      InstallParts(newasize, p, o);
    }

    /** rehash: choose the size of the array part and resize, counting the pending key ek. */
    method Rehash(ek: Key, memory: Memory) returns (r: Outcome)
      requires Valid() && IsLive(ek) && SlotFor(Absent, ek)
      modifies this
      decreases 2, 0
      ensures Valid() && Contents == old(Contents) && r != IndexIsNil
      ensures (r == NoMemory ==> memory != PLENTY) && (r == Overflow ==> old(Huge()))
      ensures r.Done? ==> isReal && (InArray(ek, RealSize()) || HasRoom())
      ensures !r.Done? ==> arr == old(arr) && nodes == old(nodes)
    {
      hide HashInv, FreeBelow, UsedNodes, Agree, CountCells, CountNodes, CountIn, IntKeys, Pow2;
      var _ := SetLimitToSize();
      var asize, hsize := NewSizes(ek);
      r := Resize(asize, hsize, memory);
      if r.Done? && !InArray(ek, asize) { assert |UsedNodes(nodes)| < hsize <= |nodes|; }
    }

    /** The counting half of rehash. The array size is the largest power of two with more than
        half its slots in use, and the hash part has room for the rest and for ek. */
    method NewSizes(ek: Key) returns (asize: nat, hsize: nat)
      requires Valid() && isReal && IsLive(ek) && SlotFor(Absent, ek)
      ensures asize <= 0x8000_0000 && Need(arr, nodes, asize) + (if InArray(ek, asize) then 0 else 1) == hsize
      ensures asize == 0 || exists i :: 0 <= i <= 31 && asize == Pow2(i)
      ensures asize > 0 ==> IntKeys(arr, nodes, ek, asize) > asize / 2
      ensures forall i :: 0 <= i <= 31 && IntKeys(arr, nodes, ek, Pow2(i)) > Pow2(i) / 2 ==> Pow2(i) <= asize
    {
      hide UsedNodes, CountCells;
      var nums := seq(MAXABITS + 1, _ => 0);
      var na, totaluse, ause;
      nums, na := NumUseArray(arr, nums);
      totaluse := na;
      ghost var n1 := nums;
      var hashuse;
      nums, hashuse, ause := NumUseHash(nodes, nums);
      totaluse, na := totaluse + hashuse, na + ause;
      if ek.Int? {
        var c;
        nums, c := CountInt(ek.i, nums);
        na := na + c;
      }
      totaluse := totaluse + 1;
      forall i | 0 <= i <= MAXABITS ensures UpTo(nums, i) == IntKeys(arr, nodes, ek, Pow2(i)) {
        assert UpTo(n1, i) == CountCells(arr[..Min(Pow2(i), |arr|)]);
      }
      AllCounted(arr, nodes, ek, nums, na);
      asize, na := ComputeSizes(nums, na);
      ChosenSize(arr, nodes, ek, nums, asize, na);
      SizesFit(arr, nodes, ek, asize);
      hsize := totaluse - na;
    }

    /** luaH_get and the reading of the cell. */
    method Lookup(key: Key) returns (c: Cell)
      requires Valid()
      modifies this`alimit
      ensures Valid() && c == At(Contents, key)
    {
      var s := Get(key);
      c := CellAt(s);
    }

    /** luaH_set and the assignment of the value, as lua_rawset does it. A failed allocation
        leaves the contents as they were. */
    method SetKey(key: Key, c: Cell, memory: Memory) returns (r: Outcome)
      requires Valid() && key != Dead
      modifies this
      ensures Valid() && (r == IndexIsNil <==> key == Nil)
      ensures (r == NoMemory ==> memory != PLENTY) && (r == Overflow ==> old(Huge()))
      ensures Contents == if r.Done? then Put(old(Contents), key, c) else old(Contents)
    {
      r := Set(key, false, memory);
      if r.Done? { Assign(r.slot, key, c); }
    }

    /** luaH_setint. */
    method SetInt(key: int, c: Cell, memory: Memory) returns (r: Outcome)
      requires Valid()
      modifies this
      ensures Valid() && r != IndexIsNil
      ensures (r == NoMemory ==> memory != PLENTY) && (r == Overflow ==> old(Huge()))
      ensures Contents == if r.Done? then Put(old(Contents), Int(key), c) else old(Contents)
    {
      var s := GetInt(key);
      if s != Absent {
        r := Done(s);
      } else {
        r := NewKey(Int(key), false, memory);
      }
      if r.Done? { Assign(r.slot, Int(key), c); }
    }

    /** clearkey in lgc.c: the key of an emptied entry dies; the chain keeps its place. */
    method ClearKey(y: nat)
      requires Valid() && y < |nodes| && IsLive(nodes[y].key) && nodes[y].val == Empty
      modifies this`nodes
      ensures Valid() && Contents == old(Contents)
    {
      DeadKeyInv(h, nodes, order, y);
      DeadKeyAgree(arr[..RealSize()], nodes, Contents, y);
      nodes := nodes[y := nodes[y].(key := Dead)];
    }

    /** ispow2realasize: the hint may move without changing the size. */
    predicate IsPow2RealSize()
      reads this`alimit, this`isReal
    {
      !isReal || IsPow2(alimit)
    }

    /** Is n a border of the table? */
    ghost predicate Border(n: int)
      reads this`Contents
    {
      0 <= n <= 0x7FFF_FFFF_FFFF_FFFF && (n == 0 || Int(n) in Contents) && (n == 0x7FFF_FFFF_FFFF_FFFF || Int(n + 1) !in Contents)
    }

    /** binsearch: i is zero or present, j is absent. */
    method BinSearch(i0: nat, j0: nat) returns (b: nat)
      requires i0 < j0 <= |arr| && (i0 == 0 || arr[i0 - 1] != Empty) && arr[j0 - 1] == Empty
      ensures i0 <= b < j0 && (b == 0 || arr[b - 1] != Empty) && arr[b] == Empty
    {
      var i, j := i0, j0;
      while j - i > 1
        invariant i0 <= i < j <= j0 && (i == 0 || arr[i - 1] != Empty) && arr[j - 1] == Empty
      {
        var m := (i + j) / 2;
        if arr[m - 1] == Empty { j := m; } else { i := m; }
      }
      return i;
    }

    /** The first loop of hash_search: double j until an absent index. When even the largest
        integer is present, that is the answer (i is then equal to j). */
    method DoubleUntilAbsent(j0: nat) returns (i: nat, j: nat)
      requires Valid() && 1 <= j0 < 0x7FFF_FFFF_FFFF_FFFF && Int(j0) in Contents
      modifies this`alimit
      ensures Valid() && RealSize() == old(RealSize()) && 1 <= i <= j <= 0x7FFF_FFFF_FFFF_FFFF && Int(i) in Contents
      ensures if i == j then j == 0x7FFF_FFFF_FFFF_FFFF else Int(j) !in Contents
    {
      hide Agree, HashInv, FreeBelow, IsPow2, RoundUp;
      j := j0;
      while true
        invariant Valid() && RealSize() == old(RealSize()) && 1 <= j <= MAXINTEGER && Int(j) in Contents
        decreases MAXINTEGER - j
      {
        i := j;
        if j <= MAXINTEGER / 2 {
          j := j * 2;
        } else {
          j := MAXINTEGER;
          var last := Lookup(Int(j));
          return if last == Empty then i else j, j;
        }
        var c := Lookup(Int(j));
        if c == Empty { return i, j; }
      }
    }

    /** hash_search: double j until an absent index, then search between. */
    method HashSearch(j0: nat) returns (n: nat)
      requires Valid() && j0 < 0x7FFF_FFFF_FFFF_FFFF && (j0 == 0 || Int(j0) in Contents) && Int(j0 + 1) in Contents
      modifies this`alimit
      ensures Valid() && RealSize() == old(RealSize()) && Border(n)
    {
      hide Agree, HashInv, FreeBelow, IsPow2, RoundUp;
      var i, j := DoubleUntilAbsent(if j0 == 0 then 1 else j0);
      while j - i > 1
        invariant Valid() && RealSize() == old(RealSize()) && 1 <= i <= j <= MAXINTEGER
        invariant Int(i) in Contents && if i == j then j == MAXINTEGER else Int(j) !in Contents
      {
        var m := (i + j) / 2;
        var c := Lookup(Int(m));
        if c == Empty { j := m; } else { i := m; }
      }
      return i;
    }

    /** setnorealasize with a new hint. */
    method MoveHint(hint: nat)
      requires Valid() && IsPow2RealSize() && hint < |arr| && (hint > |arr| / 2 || (!IsPow2(hint) && hint + 1 >= alimit))
      modifies this`alimit, this`isReal
      ensures Valid() && RealSize() == old(RealSize())
    {
      NewHint(hint);
      alimit, isReal := hint, false;
    }

    /** luaH_getn when t[limit] is empty: there is a border before limit. */
    method BorderBefore(limit: nat) returns (n: nat)
      requires Valid() && limit == alimit && limit > 0 && arr[limit - 1] == Empty
      modifies this`alimit, this`isReal
      ensures Valid() && RealSize() == old(RealSize()) && Border(n)
    {
      hide HashInv, FreeBelow, RoundUp;
      assert arr[..RealSize()] == arr;
      if limit >= 2 && arr[limit - 2] != Empty {
        if IsPow2RealSize() && !IsPow2(limit - 1) {
          MoveHint(limit - 1);
        }
        return limit - 1;
      }
      n := BinSearch(0, limit);
      if IsPow2RealSize() && n > RealSize() / 2 {
        MoveHint(n);
      }
    }

    /** luaH_getn: a border of the table. It may move the hint, but neither the contents nor the
        size of the array part. */
    method GetN() returns (n: nat)
      requires Valid()
      modifies this`alimit, this`isReal
      ensures Valid() && RealSize() == old(RealSize()) && Border(n)
    {
      assert arr[..RealSize()] == arr;
      var limit := alimit;
      if limit > 0 && arr[limit - 1] == Empty {
        n := BorderBefore(limit);
        return;
      }
      if !(isReal || IsPow2(alimit)) {
        if arr[limit] == Empty { return limit; }
        limit := RealSize();
        if arr[limit - 1] == Empty {
          var boundary := BinSearch(alimit, limit);
          NewHint(boundary);
          alimit := boundary;
          return boundary;
        }
      }
      n := BorderAfterArray();
    }

    /** A hint above half of a power-of-two size stands for that size. */
    lemma NewHint(hint: nat)
      requires Valid() && IsPow2RealSize() && hint < |arr| && (hint > |arr| / 2 || (!IsPow2(hint) && hint + 1 >= alimit))
      ensures (if IsPow2(hint) then hint else RoundUp(hint)) == RealSize()
    {
      if isReal || IsPow2(alimit) { RoundUpOfPow2(alimit); }
      if hint <= |arr| / 2 { HalfIsPow2(|arr|); }
      RoundUpUnique(hint, |arr|);
      if IsPow2(hint) { RoundUpOfPow2(hint); }
    }

    /** The last case of luaH_getn: the array part is full up to its end, or empty. */
    method BorderAfterArray() returns (n: nat)
      requires Valid() && (|arr| == 0 || arr[|arr| - 1] != Empty)
      modifies this`alimit
      ensures Valid() && RealSize() == old(RealSize()) && Border(n)
    {
      var limit := |arr|;
      assert arr[..RealSize()] == arr;
      if isDummy {
        assert !HasKey(nodes, Int(limit + 1));
        return limit;
      }
      var c := Lookup(Int(limit + 1));
      if c == Empty { return limit; }
      n := HashSearch(limit);
    }
  }

  lemma NothingVanishes(arr: seq<Cell>, newasize: nat)
    requires newasize >= |arr|
    ensures CountCells(if newasize <= |arr| then arr[newasize..] else []) == 0
  {
  }

  lemma AllCounted(arr: seq<Cell>, nodes: seq<Node>, ek: Key, nums: seq<nat>, na: nat)
    requires |nums| == MAXABITS + 1 && |arr| <= MAXASIZE && UpTo(nums, MAXABITS) == IntKeys(arr, nodes, ek, Pow2(MAXABITS))
    requires na == CountCells(arr) + CountIn(nodes, MAXASIZE) + (if InArray(ek, MAXASIZE) then 1 else 0)
    ensures na == Sum(nums, MAXABITS + 1)
  {
    Pow2Values();
    assert arr[..|arr|] == arr;
  }

  /** What computesizes chose, in terms of the keys of the table. */
  lemma ChosenSize(arr: seq<Cell>, nodes: seq<Node>, ek: Key, nums: seq<nat>, asize: nat, na: nat)
    requires |nums| == MAXABITS + 1 && Chosen(nums, MAXABITS + 1, asize, na)
    requires forall i :: 0 <= i <= MAXABITS ==> UpTo(nums, i) == IntKeys(arr, nodes, ek, Pow2(i))
    ensures asize <= MAXASIZE && na == IntKeys(arr, nodes, ek, asize)
    ensures asize == 0 || exists i :: 0 <= i <= MAXABITS && asize == Pow2(i)
    ensures asize > 0 ==> IntKeys(arr, nodes, ek, asize) > asize / 2
    ensures forall i :: 0 <= i <= MAXABITS && IntKeys(arr, nodes, ek, Pow2(i)) > Pow2(i) / 2 ==> Pow2(i) <= asize
  {
    if asize == 0 && na == 0 {
      NoIntKeys(arr, nodes, ek);
    } else {
      var i :| 0 <= i <= MAXABITS && PowerInUse(nums, i, asize, na);
      Pow2Values();
      Pow2Monotone(i, MAXABITS);
    }
  }

  lemma {:induction false} NoIntKeys(arr: seq<Cell>, nodes: seq<Node>, ek: Key)
    ensures IntKeys(arr, nodes, ek, 0) == 0
    decreases |nodes|
  {
    assert arr[..0] == [];
    if nodes != [] { NoIntKeys(arr, nodes[..|nodes| - 1], ek); }
  }

  lemma AllUsed(nodes: seq<Node>)
    requires FreeBelow(nodes, 0)
    ensures |UsedNodes(nodes)| == |nodes|
  {
    assert UsedNodes(nodes) == Below(|nodes|);
  }
}
