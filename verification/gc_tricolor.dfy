/** The invariant of the marking phases (lgc.h:14-25): no black object points to a white one,
    and every gray object is in exactly one gray list. */
module GcTricolor {
  import opened Common
  import opened GcHeap
  import opened GcMark

  /** All lists that hold gray objects; `held` is a list the collector keeps aside. */
  ghost function GrayLists(g: Gc, held: seq<Ref>): multiset<Ref> {
    multiset(g.gray) + multiset(g.grayagain) + multiset(g.ephemeron) + multiset(g.allweak) + multiset(held)
  }

  ghost predicate IsGray(c: Colors, o: Ref) { o in c && c[o] == Gray }

  ghost predicate IsBlack(c: Colors, o: Ref) { o in c && c[o] == Black }

  /** Each gray object is in one gray list, once; nothing else is. */
  ghost predicate OneList(g: Gc, held: seq<Ref>) {
    forall o :: GrayLists(g, held)[o] == if IsGray(g.color, o) then 1 else 0
  }

  ghost predicate OptMarked(r: Option<Ref>, N: set<Ref>) { r.Some? ==> r.value in N }

  ghost predicate RefsMarked(b: Object, N: set<Ref>) { forall r :: r in b.refs ==> r in N }

  ghost predicate KeysMarked(b: Object, N: set<Ref>) {
    forall e :: e in b.entries && e.Pair? ==> OptMarked(e.key, N)
  }

  ghost predicate ValuesMarked(b: Object, N: set<Ref>) {
    forall e :: e in b.entries && e.Pair? ==> OptMarked(e.val, N)
  }

  ghost predicate StringsMarked(heap: map<Ref, Object>, b: Object, N: set<Ref>) {
    forall e :: e in b.entries && e.Pair? && e.key.Some? && IsStr(heap, e.key.value) ==> e.key.value in N
  }

  /** A black object has nothing left to mark. */
  ghost predicate FullyMarked(b: Object, N: set<Ref>) {
    RefsMarked(b, N) && KeysMarked(b, N) && ValuesMarked(b, N)
  }

  /** What holds of a table in the `ephemeron` list: all but its white-to-white entries. */
  ghost predicate WaitsForKeys(heap: map<Ref, Object>, b: Object, N: set<Ref>) {
    b.kind == Ephemeron && RefsMarked(b, N) && StringsMarked(heap, b, N)
  }

  /** What holds of a table in the `allweak` list: it may only lose entries. */
  ghost predicate NeedsNoValue(heap: map<Ref, Object>, b: Object, N: set<Ref>) {
    WaitsForKeys(heap, b, N) && ValuesMarked(b, N)
  }

  /** No black object points to a white one, the objects in X excepted. */
  ghost predicate NoBlackToWhite(g: Gc, X: set<Ref>) {
    forall o :: o in g.heap && IsBlack(g.color, o) && o !in X ==> FullyMarked(g.heap[o], Nonwhites(g.color))
  }

  ghost predicate ListMembers(g: Gc) {
    (forall h :: h in g.ephemeron ==> h in g.heap && WaitsForKeys(g.heap, g.heap[h], Nonwhites(g.color))) &&
    (forall h :: h in g.allweak ==> h in g.heap && NeedsNoValue(g.heap, g.heap[h], Nonwhites(g.color)))
  }

  /** Threads have no barrier: before the atomic phase none is black, and no table has gone
      to the lists of the atomic phase. */
  ghost predicate ThreadsGray(g: Gc, X: set<Ref>) {
    g.phase != Atomic ==>
      g.ephemeron == [] && g.allweak == [] &&
      forall o :: o in g.heap && IsBlack(g.color, o) && o !in X ==> g.heap[o].kind != Thread
  }

  ghost predicate Tri(g: Gc, X: set<Ref>, held: seq<Ref>) {
    Ready(g) && IsWhite(g.white) && WithWhite(g.color, OtherWhite(g.white)) == {} &&
    OneList(g, held) && NoBlackToWhite(g, X) && ListMembers(g) && ThreadsGray(g, X)
  }

  lemma GrowsKeeps(g: Gc, r: Gc)
    requires Grows(g, r) && ListMembers(g) && r.ephemeron == g.ephemeron && r.allweak == g.allweak
    ensures ListMembers(r)
  {
  }

  /** Painting adds nothing to the obligations of the objects that were black before. */
  lemma DarkerKeeps(g: Gc, r: Gc, X: set<Ref>, Y: set<Ref>)
    requires Grows(g, r) && NoBlackToWhite(g, X) && ThreadsGray(g, X) && X <= Y
    requires g.phase != Atomic ==> r.ephemeron == [] && r.allweak == []
    requires forall o :: IsBlack(r.color, o) && o !in Y ==> IsBlack(g.color, o)
    ensures NoBlackToWhite(r, Y) && ThreadsGray(r, Y)
  {
    forall o | o in r.heap && IsBlack(r.color, o) && o !in Y
      ensures FullyMarked(r.heap[o], Nonwhites(r.color))
    {
      assert FullyMarked(g.heap[o], Nonwhites(g.color));
    }
  }

  lemma PushGrayTri(g: Gc, o: Ref, X: set<Ref>, held: seq<Ref>)
    requires Tri(g, X, held) && o in g.heap && IsWhite(g.color[o])
    ensures Tri(PushGray(g, o), X, held)
  {
    hide OneList, NoBlackToWhite, ListMembers, ClosedHeap;
    var r := PushGray(g, o);
    PaintedWhites(g.color, o, Gray, OtherWhite(g.white));
    PushGrayOneList(g, o, held);
    GrowsKeeps(g, r);
    DarkerKeeps(g, r, X, X);
  }

  lemma PushGrayOneList(g: Gc, o: Ref, held: seq<Ref>)
    requires OneList(g, held) && o in g.color && IsWhite(g.color[o])
    ensures OneList(PushGray(g, o), held)
  {
    var r := PushGray(g, o);
    assert r.gray == [o] + g.gray && r.color == g.color[o := Gray];
    assert multiset(r.gray) == multiset{o} + multiset(g.gray);
    assert GrayLists(r, held) == multiset{o} + GrayLists(g, held);
  }

  lemma PaintedWhites(c: Colors, o: Ref, paint: Color, w: Color)
    requires paint != w && WithWhite(c, w) == {}
    ensures WithWhite(c[o := paint], w) == {}
  {
    assert forall x :: x in c && c[x] == w ==> x in WithWhite(c, w);
  }

  /** Painting a white or gray object black; a gray one must have left its list. */
  lemma BlackenTri(g: Gc, o: Ref, X: set<Ref>, held: seq<Ref>)
    requires Tri(g, X, held) && o in g.heap && IsWhite(g.color[o])
    ensures Tri(Blacken(g, o), X + {o}, held)
  {
    hide OneList, NoBlackToWhite, ListMembers, ClosedHeap;
    var r := Blacken(g, o);
    PaintedWhites(g.color, o, Black, OtherWhite(g.white));
    GrowsKeeps(g, r);
    DarkerKeeps(g, r, X, X + {o});
    BlackenOneList(g, o, held);
  }

  lemma BlackenOneList(g: Gc, o: Ref, held: seq<Ref>)
    requires OneList(g, held) && o in g.color && IsWhite(g.color[o])
    ensures OneList(Blacken(g, o), held)
  {
    assert GrayLists(Blacken(g, o), held) == GrayLists(g, held);
  }

  /** A fully marked object needs no exception, unless it is a thread the mutator may write. */
  lemma VisitDone(g: Gc, o: Ref, X: set<Ref>, held: seq<Ref>)
    requires Tri(g, X + {o}, held)
    requires o in g.heap && (g.heap[o].kind != Thread || g.phase == Atomic)
    requires FullyMarked(g.heap[o], Nonwhites(g.color))
    ensures Tri(g, X, held)
  {
  }

  lemma {:induction false} MarkTri(g: Gc, o: Ref, X: set<Ref>, held: seq<Ref>)
    requires Tri(g, X, held) && o in g.heap
    ensures Tri(Mark(g, o), X, held)
    decreases |Whites(g.color)|, 0
  {
    if IsWhite(g.color[o]) {
      match g.heap[o].kind
      case Str =>
        BlackenTri(g, o, X, held);
        VisitDone(Mark(g, o), o, X, held);
      case Cell =>
        BlackenTri(g, o, X, held);
        CellRefs(g, o);
        MarkAllTri(Blacken(g, o), g.heap[o].refs, X + {o}, held);
        VisitDone(Mark(g, o), o, X, held);
      case _ =>
        PushGrayTri(g, o, X, held);
    }
  }

  lemma {:induction false} MarkAllTri(g: Gc, rs: seq<Ref>, X: set<Ref>, held: seq<Ref>)
    requires Tri(g, X, held) && forall x :: x in rs ==> x in g.heap
    ensures Tri(MarkAll(g, rs), X, held)
    decreases |Whites(g.color)|, 1 + |rs|
  {
    if rs != [] {
      MarkTri(g, rs[0], X, held);
      MarkAllTri(Mark(g, rs[0]), rs[1..], X, held);
    }
  }

  /** Marking leaves the colour of marked objects alone. */
  ghost predicate KeepsColors(c: Colors, d: Colors) {
    forall o :: o in Nonwhites(c) ==> o in d && d[o] == c[o]
  }

  lemma {:induction false} MarkKeepsColors(g: Gc, o: Ref)
    requires Ready(g) && o in g.heap
    ensures KeepsColors(g.color, Mark(g, o).color)
    decreases |Whites(g.color)|, 0
  {
    hide ClosedHeap, Darker, MarkAll, Whites, IsWhite, Grows;
    if IsWhite(g.color[o]) && g.heap[o].kind == Cell {
      CellRefs(g, o);
      MarkAllKeepsColors(Blacken(g, o), g.heap[o].refs);
    }
  }

  lemma {:induction false} MarkAllKeepsColors(g: Gc, rs: seq<Ref>)
    requires Ready(g) && forall x :: x in rs ==> x in g.heap
    ensures KeepsColors(g.color, MarkAll(g, rs).color)
    decreases |Whites(g.color)|, 1 + |rs|
  {
    if rs != [] {
      MarkKeepsColors(g, rs[0]);
      MarkAllKeepsColors(Mark(g, rs[0]), rs[1..]);
    }
  }

  /** What the traversal of an ephemeron table knows of an entry it has visited. */
  ghost predicate Seen(e: Entry, t: Trav) {
    e.Pair? ==>
      (e.key.Some? && IsStr(t.g.heap, e.key.value) ==> OptMarked(e.key, Nonwhites(t.g.color))) &&
      (!t.clears ==> OptMarked(e.key, Nonwhites(t.g.color))) &&
      (!t.ww ==> OptMarked(e.val, Nonwhites(t.g.color)))
  }

  lemma SeenStays(e: Entry, t: Trav, r: Trav)
    requires TravGrows(t, r) && Seen(e, t)
    ensures Seen(e, r)
  {
  }

  lemma VisitRefTri(t: Trav, x: Ref, X: set<Ref>, held: seq<Ref>)
    requires Tri(t.g, X, held) && x in t.g.heap
    ensures Tri(VisitRef(t, x).g, X, held) && KeepsColors(t.g.color, VisitRef(t, x).g.color)
  {
    MarkTri(t.g, x, X, held);
    MarkKeepsColors(t.g, x);
  }

  lemma {:induction false} VisitRefsTri(t: Trav, rs: seq<Ref>, X: set<Ref>, held: seq<Ref>)
    requires Tri(t.g, X, held) && forall x :: x in rs ==> x in t.g.heap
    ensures Tri(VisitRefs(t, rs).g, X, held) && KeepsColors(t.g.color, VisitRefs(t, rs).g.color)
    decreases |rs|
  {
    if rs != [] {
      VisitRefTri(t, rs[0], X, held);
      VisitRefsTri(VisitRef(t, rs[0]), rs[1..], X, held);
    }
  }

  lemma VisitKeyTri(t: Trav, k: Option<Ref>, X: set<Ref>, held: seq<Ref>)
    requires Tri(t.g, X, held) && OptIn(t.g.heap, k)
    ensures Tri(VisitKey(t, k).g, X, held) && KeepsColors(t.g.color, VisitKey(t, k).g.color)
  {
    if k.Some? && IsStr(t.g.heap, k.value) {
      MarkTri(t.g, k.value, X, held);
      MarkKeepsColors(t.g, k.value);
    }
  }

  lemma VisitEntryTri(t: Trav, e: Entry, X: set<Ref>, held: seq<Ref>)
    requires Tri(t.g, X, held) && (e.Pair? ==> OptIn(t.g.heap, e.key) && OptIn(t.g.heap, e.val))
    ensures Tri(VisitEntry(t, e).g, X, held) && KeepsColors(t.g.color, VisitEntry(t, e).g.color)
  {
    if e.Pair? {
      VisitKeyTri(t, e.key, X, held);
      var t1 := VisitKey(t, e.key);
      if !(e.key.Some? && IsWhite(t1.g.color[e.key.value])) && e.val.Some? {
        VisitRefTri(t1, e.val.value, X, held);
      }
    }
  }

  lemma {:induction false} VisitEntriesTri(t: Trav, es: seq<Entry>, X: set<Ref>, held: seq<Ref>)
    requires Tri(t.g, X, held) && EntriesIn(t.g.heap, es)
    ensures Tri(VisitEntries(t, es).g, X, held)
    ensures KeepsColors(t.g.color, VisitEntries(t, es).g.color)
    decreases |es|
  {
    if es != [] {
      VisitEntryTri(t, es[0], X, held);
      VisitEntriesTri(VisitEntry(t, es[0]), es[1..], X, held);
    }
  }

  lemma VisitPairSeen(t: Trav, k: Option<Ref>, v: Option<Ref>)
    requires Ready(t.g) && OptIn(t.g.heap, k) && OptIn(t.g.heap, v) && (t.ww ==> t.clears)
    ensures var r := VisitPair(t, k, v);
      (!r.clears ==> OptMarked(k, Nonwhites(r.g.color))) && (!r.ww ==> OptMarked(v, Nonwhites(r.g.color))) &&
      (r.ww ==> r.clears)
  {
    hide Mark, ClosedHeap;
  }

  lemma VisitEntrySeen(t: Trav, e: Entry)
    requires Ready(t.g) && (e.Pair? ==> OptIn(t.g.heap, e.key) && OptIn(t.g.heap, e.val))
    requires t.ww ==> t.clears
    ensures Seen(e, VisitEntry(t, e)) && (VisitEntry(t, e).ww ==> VisitEntry(t, e).clears)
  {
    hide Mark, ClosedHeap, VisitPair;
    if e.Pair? { VisitPairSeen(VisitKey(t, e.key), e.key, e.val); }
  }

  lemma {:induction false} VisitEntriesSeen(t: Trav, es: seq<Entry>)
    requires Ready(t.g) && EntriesIn(t.g.heap, es) && (t.ww ==> t.clears)
    ensures VisitEntries(t, es).ww ==> VisitEntries(t, es).clears
    ensures forall e :: e in es ==> Seen(e, VisitEntries(t, es))
    decreases |es|
  {
    if es != [] {
      var t1 := VisitEntry(t, es[0]);
      VisitEntrySeen(t, es[0]);
      VisitEntriesSeen(t1, es[1..]);
      SeenStays(es[0], t1, VisitEntries(t1, es[1..]));
    }
  }

  /** linkgclist on a black object: OneList goes on to hold, whichever list it is. */
  lemma LinkOneList(g: Gc, r: Gc, h: Ref, held: seq<Ref>)
    requires OneList(g, held) && IsBlack(g.color, h)
    requires r.color == g.color[h := Gray]
    requires GrayLists(r, held) == GrayLists(g, held) + multiset{h}
    ensures OneList(r, held)
  {
    assert GrayLists(g, held)[h] == 0;
    forall o ensures GrayLists(r, held)[o] == if IsGray(r.color, o) then 1 else 0 {
      if o != h { assert IsGray(r.color, o) == IsGray(g.color, o); }
    }
  }

  lemma LinkGrayAgainTri(g: Gc, h: Ref, X: set<Ref>, held: seq<Ref>)
    requires Tri(g, X, held) && h in g.heap && IsBlack(g.color, h) && g.phase == Propagate
    ensures Tri(LinkGrayAgain(g, h), X - {h}, held)
  {
    hide OneList, NoBlackToWhite, ListMembers, ClosedHeap;
    var r := LinkGrayAgain(g, h);
    PaintedWhites(g.color, h, Gray, OtherWhite(g.white));
    GrowsKeeps(g, r);
    assert multiset(r.grayagain) == multiset{h} + multiset(g.grayagain);
    LinkOneList(g, r, h, held);
    LinkedNotBlack(g, r, h, X);
  }

  lemma LinkedNotBlack(g: Gc, r: Gc, h: Ref, X: set<Ref>)
    requires Grows(g, r) && NoBlackToWhite(g, X) && ThreadsGray(g, X) && r.color == g.color[h := Gray]
    requires g.phase != Atomic ==> r.ephemeron == [] && r.allweak == []
    ensures NoBlackToWhite(r, X - {h}) && ThreadsGray(r, X - {h})
  {
    forall o | o in r.heap && IsBlack(r.color, o) && o !in X - {h}
      ensures FullyMarked(r.heap[o], Nonwhites(r.color))
    {
      assert FullyMarked(g.heap[o], Nonwhites(g.color));
    }
  }

  lemma LinkedMembers(g: Gc, r: Gc, h: Ref)
    requires Grows(g, r) && ListMembers(g) && h in g.heap
    requires WaitsForKeys(g.heap, g.heap[h], Nonwhites(g.color))
    requires (r.ephemeron == [h] + g.ephemeron && r.allweak == g.allweak) ||
             (r.ephemeron == g.ephemeron && r.allweak == [h] + g.allweak &&
              ValuesMarked(g.heap[h], Nonwhites(g.color)))
    ensures ListMembers(r)
  {
  }

  lemma LinkEphemeronTri(g: Gc, h: Ref, X: set<Ref>, held: seq<Ref>)
    requires Tri(g, X, held) && h in g.heap && IsBlack(g.color, h) && g.phase == Atomic
    requires WaitsForKeys(g.heap, g.heap[h], Nonwhites(g.color))
    ensures Tri(LinkEphemeron(g, h), X - {h}, held)
  {
    hide OneList, NoBlackToWhite, ListMembers, ThreadsGray, ClosedHeap, WaitsForKeys, NeedsNoValue;
    var r := LinkEphemeron(g, h);
    PaintedWhites(g.color, h, Gray, OtherWhite(g.white));
    LinkedMembers(g, r, h);
    assert multiset(r.ephemeron) == multiset{h} + multiset(g.ephemeron);
    LinkOneList(g, r, h, held);
    LinkedNotBlack(g, r, h, X);
  }

  lemma LinkAllWeakTri(g: Gc, h: Ref, X: set<Ref>, held: seq<Ref>)
    requires Tri(g, X, held) && h in g.heap && IsBlack(g.color, h) && g.phase == Atomic
    requires NeedsNoValue(g.heap, g.heap[h], Nonwhites(g.color))
    ensures Tri(LinkAllWeak(g, h), X - {h}, held)
  {
    hide OneList, NoBlackToWhite, ListMembers, ThreadsGray, ClosedHeap, WaitsForKeys;
    var r := LinkAllWeak(g, h);
    PaintedWhites(g.color, h, Gray, OtherWhite(g.white));
    LinkedMembers(g, r, h);
    assert multiset(r.allweak) == multiset{h} + multiset(g.allweak);
    LinkOneList(g, r, h, held);
    LinkedNotBlack(g, r, h, X);
  }

  lemma VisitedTri(g: Gc, h: Ref, inv: bool, X: set<Ref>, held: seq<Ref>)
    requires Tri(g, X, held) && h in g.heap
    ensures Tri(Visited(g, h, inv).g, X, held)
    ensures KeepsColors(g.color, Visited(g, h, inv).g.color)
  {
    ObjectRefs(g, h);
    var t0 := Trav(g, false, false, false);
    VisitRefsTri(t0, g.heap[h].refs, X, held);
    VisitEntriesTri(VisitRefs(t0, g.heap[h].refs), InOrder(g.heap[h].entries, inv), X, held);
  }

  /** What traverseephemeron has marked when it chooses a list for the table. */
  lemma VisitedSeen(g: Gc, h: Ref, inv: bool)
    requires Ready(g) && h in g.heap
    ensures var t := Visited(g, h, inv);
      var b, N := g.heap[h], Nonwhites(t.g.color);
      RefsMarked(b, N) && StringsMarked(g.heap, b, N) &&
      (!t.clears ==> KeysMarked(b, N)) && (!t.ww ==> ValuesMarked(b, N)) && (t.ww ==> t.clears)
  {
    ObjectRefs(g, h);
    var b, t0 := g.heap[h], Trav(g, false, false, false);
    var t1 := VisitRefs(t0, b.refs);
    var s := InOrder(b.entries, inv);
    VisitRefsFlags(t0, b.refs);
    VisitEntriesSeen(t1, s);
    SeenAll(b, VisitEntries(t1, s));
  }

  /** The loop over the array part looks at no entry. */
  lemma {:induction false} VisitRefsFlags(t: Trav, rs: seq<Ref>)
    requires Ready(t.g) && forall x :: x in rs ==> x in t.g.heap
    ensures VisitRefs(t, rs).ww == t.ww && VisitRefs(t, rs).clears == t.clears
    decreases |rs|
  {
    if rs != [] {
      var t1 := VisitRef(t, rs[0]);
      assert t1.ww == t.ww && t1.clears == t.clears;
      VisitRefsFlags(t1, rs[1..]);
    }
  }

  lemma SeenAll(b: Object, t: Trav)
    requires forall e :: e in b.entries ==> Seen(e, t)
    ensures StringsMarked(t.g.heap, b, Nonwhites(t.g.color))
    ensures !t.clears ==> KeysMarked(b, Nonwhites(t.g.color))
    ensures !t.ww ==> ValuesMarked(b, Nonwhites(t.g.color))
  {
  }

  lemma TraverseEphemeronTri(g: Gc, h: Ref, inv: bool, X: set<Ref>, held: seq<Ref>)
    requires Tri(g, X, held) && h in g.heap && IsBlack(g.color, h) && g.heap[h].kind == Ephemeron
    requires g.phase == Propagate || g.phase == Atomic
    ensures Tri(TraverseEphemeron(g, h, inv).0, X - {h}, held)
  {
    VisitedTri(g, h, inv, X, held);
    VisitedSeen(g, h, inv);
    RelinkTri(Visited(g, h, inv), h, X, held);
  }

  lemma RelinkTri(t: Trav, h: Ref, X: set<Ref>, held: seq<Ref>)
    requires Tri(t.g, X, held) && h in t.g.heap && IsBlack(t.g.color, h)
    requires t.g.phase == Propagate || t.g.phase == Atomic
    requires WaitsForKeys(t.g.heap, t.g.heap[h], Nonwhites(t.g.color)) && (t.ww ==> t.clears)
    requires !t.clears ==> KeysMarked(t.g.heap[h], Nonwhites(t.g.color))
    requires !t.ww ==> ValuesMarked(t.g.heap[h], Nonwhites(t.g.color))
    ensures Tri(Relink(t, h), X - {h}, held)
  {
    if t.g.phase == Propagate {
      LinkGrayAgainTri(t.g, h, X, held);
    } else if t.ww {
      LinkEphemeronTri(t.g, h, X, held);
    } else if t.clears {
      LinkAllWeakTri(t.g, h, X, held);
    } else {
      VisitDone(t.g, h, X - {h}, held);
    }
  }

  /** The lists hold gray objects of the heap. */
  lemma ListsAreGray(g: Gc, X: set<Ref>, held: seq<Ref>)
    requires Tri(g, X, held)
    ensures ListsOk(g) && AllMarked(held, g.color) && AllMarked(g.allweak, g.color)
    ensures forall o :: o in g.gray || o in held ==> o in g.heap && IsGray(g.color, o)
  {
    forall o | o in g.gray || o in g.grayagain || o in g.ephemeron || o in g.allweak || o in held
      ensures IsGray(g.color, o)
    {
      assert GrayLists(g, held)[o] > 0;
    }
  }

  lemma PopGrayOneList(g: Gc, held: seq<Ref>)
    requires OneList(g, held) && g.gray != [] && ListsOk(g)
    ensures OneList(PopGray(g), held)
  {
    var r, o := PopGray(g), g.gray[0];
    assert g.gray == [o] + r.gray;
    assert multiset(g.gray) == multiset{o} + multiset(r.gray);
    assert GrayLists(g, held) == GrayLists(r, held) + multiset{o};
    assert r.color == g.color[o := Black];
    forall x ensures GrayLists(r, held)[x] == if IsGray(r.color, x) then 1 else 0 {
      assert GrayLists(g, held)[x] == if IsGray(g.color, x) then 1 else 0;
    }
  }

  lemma PopGrayTri(g: Gc, X: set<Ref>, held: seq<Ref>)
    requires Tri(g, X, held) && g.gray != [] && ListsOk(g)
    ensures Tri(PopGray(g), X + {g.gray[0]}, held)
  {
    PopGrayOneList(g, held);
    GrowsKeeps(g, PopGray(g));
    DarkerKeeps(g, PopGray(g), X, X + {g.gray[0]});
  }

  /** Traversing a strong object, or a thread for the last time. */
  lemma PropagateStrongTri(g: Gc, o: Ref, held: seq<Ref>)
    requires Tri(g, {o}, held) && o in g.heap && g.heap[o].kind != Ephemeron
    requires g.heap[o].kind == Thread ==> g.phase == Atomic
    requires forall x :: x in g.heap[o].refs ==> x in g.heap
    ensures Tri(MarkAll(g, g.heap[o].refs), {}, held)
  {
    hide MarkAll, OneList, ListMembers, NoBlackToWhite, ThreadsGray, FullyMarked, ClosedHeap, Grows, AllMarked, WithWhite;
    MarkAllTri(g, g.heap[o].refs, {o}, held);
    assert {o} == {} + {o};
    StrongDone(g, o, MarkAll(g, g.heap[o].refs).color);
    VisitDone(MarkAll(g, g.heap[o].refs), o, {}, held);
  }

  /** An object that is no table owes nothing when its references are marked. */
  lemma StrongDone(g: Gc, o: Ref, c: Colors)
    requires Ready(g) && o in g.heap && g.heap[o].kind != Ephemeron && AllMarked(g.heap[o].refs, c)
    ensures FullyMarked(g.heap[o], Nonwhites(c))
  {
    assert WellFormedObject(g.heap[o]);
  }

  lemma TraverseTri(g: Gc, o: Ref, held: seq<Ref>)
    requires Tri(g, {o}, held) && IsBlack(g.color, o) && Marked(g, o)
    requires g.phase == Propagate || g.phase == Atomic
    ensures Tri(Traverse(g, o), {}, held)
  {
    CellRefs(g, o);
    if g.heap[o].kind == Ephemeron {
      TraverseEphemeronTri(g, o, false, {o}, held);
      assert {o} - {o} == {};
    } else if g.heap[o].kind == Thread && g.phase == Propagate {
      LinkGrayAgainTri(g, o, {o}, held);
      assert {o} - {o} == {};
      MarkAllTri(LinkGrayAgain(g, o), g.heap[o].refs, {}, held);
    } else {
      PropagateStrongTri(g, o, held);
    }
  }

  /** One traversal step keeps the invariant. */
  lemma PropagateMarkTri(g: Gc, held: seq<Ref>)
    requires Tri(g, {}, held) && ListsOk(g) && g.gray != []
    requires g.phase == Propagate || g.phase == Atomic
    ensures Tri(PropagateMark(g), {}, held)
  {
    PopGrayTri(g, {}, held);
    assert {g.gray[0]} == {} + {g.gray[0]};
    TraverseTri(PopGray(g), g.gray[0], held);
  }

  lemma {:induction false} PropagateAllTri(g: Gc, held: seq<Ref>)
    requires Tri(g, {}, held) && ListsOk(g) && (g.phase == Propagate || g.phase == Atomic)
    ensures Tri(PropagateAll(g), {}, held)
    decreases Work(g)
  {
    if g.gray != [] {
      PropagateMarkTri(g, held);
      PropagateAllTri(PropagateMark(g), held);
    }
  }
}
