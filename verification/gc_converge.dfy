/** Ephemeron convergence: on exit of convergeephemerons the marked set is closed under "a
    marked table and a marked key give a marked value", and it is within every closed set that
    held the objects marked before. */
module GcConverge {
  import opened Common
  import opened GcHeap
  import opened GcMark
  import opened GcTricolor

  /** The new marks of a traversal that reports none are on strings. */
  ghost predicate OnlyStrings(heap: map<Ref, Object>, c: Colors, d: Colors) {
    forall o :: o in Nonwhites(d) && o !in Nonwhites(c) ==> IsStr(heap, o)
  }

  ghost predicate EntrySettled(heap: map<Ref, Object>, e: Entry, N: set<Ref>) {
    e.Pair? && KeyLive(heap, e.key, N) ==> OptMarked(e.key, N) && OptMarked(e.val, N)
  }

  lemma MarkString(g: Gc, o: Ref)
    requires Ready(g) && IsStr(g.heap, o)
    ensures OnlyStrings(g.heap, g.color, Mark(g, o).color)
  {
  }

  lemma VisitKeySettled(t: Trav, k: Option<Ref>)
    requires Ready(t.g) && OptIn(t.g.heap, k)
    ensures OnlyStrings(t.g.heap, t.g.color, VisitKey(t, k).g.color)
    ensures KeyLive(t.g.heap, k, Nonwhites(VisitKey(t, k).g.color)) ==>
            OptMarked(k, Nonwhites(VisitKey(t, k).g.color))
  {
    if k.Some? && IsStr(t.g.heap, k.value) {
      MarkString(t.g, k.value);
    }
  }

  lemma VisitPairSettled(t: Trav, k: Option<Ref>, v: Option<Ref>)
    requires Ready(t.g) && OptIn(t.g.heap, k) && OptIn(t.g.heap, v) && !VisitPair(t, k, v).marked
    requires KeyLive(t.g.heap, k, Nonwhites(t.g.color)) ==> OptMarked(k, Nonwhites(t.g.color))
    ensures VisitPair(t, k, v).g == t.g
    ensures EntrySettled(t.g.heap, Pair(k, v), Nonwhites(t.g.color))
  {
  }

  lemma VisitEntrySettled(t: Trav, e: Entry)
    requires Ready(t.g) && (e.Pair? ==> OptIn(t.g.heap, e.key) && OptIn(t.g.heap, e.val))
    requires !VisitEntry(t, e).marked
    ensures OnlyStrings(t.g.heap, t.g.color, VisitEntry(t, e).g.color)
    ensures EntrySettled(t.g.heap, e, Nonwhites(VisitEntry(t, e).g.color))
  {
    if e.Pair? {
      VisitKeySettled(t, e.key);
      VisitPairSettled(VisitKey(t, e.key), e.key, e.val);
    }
  }

  /** Marking strings settles nothing and unsettles nothing. */
  lemma SettledStays(heap: map<Ref, Object>, e: Entry, c: Colors, d: Colors)
    requires EntrySettled(heap, e, Nonwhites(c)) && OnlyStrings(heap, c, d) && Nonwhites(c) <= Nonwhites(d)
    ensures EntrySettled(heap, e, Nonwhites(d))
  {
  }

  lemma {:induction false} VisitEntriesSettled(t: Trav, es: seq<Entry>)
    requires Ready(t.g) && EntriesIn(t.g.heap, es) && !VisitEntries(t, es).marked
    ensures OnlyStrings(t.g.heap, t.g.color, VisitEntries(t, es).g.color)
    ensures forall e :: e in es ==> EntrySettled(t.g.heap, e, Nonwhites(VisitEntries(t, es).g.color))
    decreases |es|
  {
    if es != [] {
      var t1, r := VisitEntry(t, es[0]), VisitEntries(t, es);
      VisitEntrySettled(t, es[0]);
      VisitEntriesSettled(t1, es[1..]);
      SettledStays(t.g.heap, es[0], t1.g.color, r.g.color);
    }
  }

  lemma {:induction false} VisitRefsUnmarked(t: Trav, rs: seq<Ref>)
    requires Ready(t.g) && (forall x :: x in rs ==> x in t.g.heap) && !VisitRefs(t, rs).marked
    ensures VisitRefs(t, rs) == t
    decreases |rs|
  {
    if rs != [] {
      VisitRefsUnmarked(VisitRef(t, rs[0]), rs[1..]);
    }
  }

  lemma TraverseSettled(g: Gc, h: Ref, inv: bool)
    requires Ready(g) && h in g.heap && Marked(g, h) && !TraverseEphemeron(g, h, inv).1
    ensures var r := TraverseEphemeron(g, h, inv).0;
      OnlyStrings(g.heap, g.color, r.color) && ObjectClosed(g.heap, g.heap[h], Nonwhites(r.color))
  {
    ObjectRefs(g, h);
    var b, t0 := g.heap[h], Trav(g, false, false, false);
    var s, t, r := InOrder(b.entries, inv), Visited(g, h, inv), TraverseEphemeron(g, h, inv).0;
    VisitRefsUnmarked(t0, b.refs);
    VisitEntriesSettled(t0, s);
    VisitedSeen(g, h, inv);
    assert Nonwhites(r.color) == Nonwhites(t.g.color);
    forall e | e in b.entries && e.Pair? && KeyLive(g.heap, e.key, Nonwhites(r.color))
      ensures OptMarked(e.key, Nonwhites(r.color)) && OptMarked(e.val, Nonwhites(r.color))
    {
      assert e in s;
      assert EntrySettled(g.heap, e, Nonwhites(t.g.color));
    }
  }

  lemma ClosedStays(heap: map<Ref, Object>, b: Object, c: Colors, d: Colors)
    requires ObjectClosed(heap, b, Nonwhites(c)) && OnlyStrings(heap, c, d) && Nonwhites(c) <= Nonwhites(d)
    ensures ObjectClosed(heap, b, Nonwhites(d))
  {
  }

  ghost predicate Settled(g: Gc, hs: seq<Ref>) {
    forall h :: h in hs ==> h in g.heap && ObjectClosed(g.heap, g.heap[h], Nonwhites(g.color))
  }

  lemma SettledGrows(g: Gc, r: Gc, hs: seq<Ref>)
    requires Settled(g, hs) && OnlyStrings(g.heap, g.color, r.color) && Grows(g, r)
    ensures Settled(r, hs)
  {
    forall h | h in hs ensures h in r.heap && ObjectClosed(r.heap, r.heap[h], Nonwhites(r.color)) {
      ClosedStays(g.heap, g.heap[h], g.color, r.color);
    }
  }

  lemma BlackenSettled(g: Gc, h: Ref)
    requires Settled(g, g.ephemeron) && Marked(g, h)
    ensures Settled(Blacken(g, h), g.ephemeron) && Nonwhites(Blacken(g, h).color) == Nonwhites(g.color)
  {
  }

  lemma PassStepSettled(g: Gc, h: Ref, dir: bool)
    requires Ready(g) && Marked(g, h) && g.phase == Atomic && Settled(g, g.ephemeron)
    requires !TraverseEphemeron(g, h, dir).1
    ensures var r := TraverseEphemeron(g, h, dir).0;
      OnlyStrings(g.heap, g.color, r.color) && Settled(r, r.ephemeron)
  {
    var r := TraverseEphemeron(g, h, dir).0;
    TraverseSettled(g, h, dir);
    SettledGrows(g, r, g.ephemeron);
    RelinkList(Visited(g, h, dir), h);
    SettledCons(r, h, g.ephemeron);
  }

  lemma SettledCons(g: Gc, h: Ref, hs: seq<Ref>)
    requires Settled(g, hs) && h in g.heap && ObjectClosed(g.heap, g.heap[h], Nonwhites(g.color))
    requires g.ephemeron == hs || g.ephemeron == [h] + hs
    ensures Settled(g, g.ephemeron)
  {
  }

  lemma RelinkList(t: Trav, h: Ref)
    requires Marked(t.g, h)
    ensures Relink(t, h).ephemeron == t.g.ephemeron || Relink(t, h).ephemeron == [h] + t.g.ephemeron
  {
  }

  /** A pass that marks nothing leaves every table it put back settled. */
  lemma {:induction false} ConvergePassSettled(g: Gc, pend: seq<Ref>, dir: bool)
    requires Ready(g) && ListsOk(g) && g.gray == [] && AllMarked(pend, g.color) && g.phase == Atomic
    requires Settled(g, g.ephemeron) && !ConvergePass(g, pend, dir).1
    ensures var r := ConvergePass(g, pend, dir).0;
      OnlyStrings(g.heap, g.color, r.color) && Settled(r, r.ephemeron)
    decreases |pend|
  {
    hide Whites, TraverseEphemeron;
    if pend != [] {
      var h := pend[0];
      assert h in pend;
      BlackenSettled(g, h);
      PassStepSettled(Blacken(g, h), h, dir);
      ConvergePassSettled(PassStep(g, h, dir).0, pend[1..], dir);
    }
  }

  /** The pending tables are gray tables that are in no other list. */
  lemma BlackenHeldTri(g: Gc, h: Ref, held: seq<Ref>)
    requires Tri(g, {}, [h] + held) && h in g.heap && Marked(g, h)
    ensures Tri(Blacken(g, h), {h}, held) && IsBlack(Blacken(g, h).color, h)
  {
    var r := Blacken(g, h);
    BlackenHeldOneList(g, h, held);
    GrowsKeeps(g, r);
    DarkerKeeps(g, r, {}, {h});
  }

  lemma BlackenHeldOneList(g: Gc, h: Ref, held: seq<Ref>)
    requires OneList(g, [h] + held) && h in g.color
    ensures OneList(Blacken(g, h), held)
  {
    var r := Blacken(g, h);
    assert multiset([h] + held) == multiset{h} + multiset(held);
    assert GrayLists(g, [h] + held) == GrayLists(r, held) + multiset{h};
    assert r.color == g.color[h := Black];
    forall x ensures GrayLists(r, held)[x] == if IsGray(r.color, x) then 1 else 0 {
      assert GrayLists(g, [h] + held)[x] == if IsGray(g.color, x) then 1 else 0;
    }
  }

  ghost predicate AllTables(g: Gc, hs: seq<Ref>) {
    forall h :: h in hs ==> h in g.heap && g.heap[h].kind == Ephemeron
  }

  lemma PassStepTri(g: Gc, h: Ref, dir: bool, held: seq<Ref>)
    requires Tri(g, {}, [h] + held) && ListsOk(g) && Marked(g, h) && g.heap[h].kind == Ephemeron
    requires g.gray == [] && g.phase == Atomic
    ensures Tri(PassStep(g, h, dir).0, {}, held)
  {
    BlackenHeldTri(g, h, held);
    var (g2, marked) := TraverseEphemeron(Blacken(g, h), h, dir);
    TraverseEphemeronTri(Blacken(g, h), h, dir, {h}, held);
    assert {h} - {h} == {};
    if marked { PropagateAllTri(g2, held); }
  }

  lemma {:induction false} ConvergePassTri(g: Gc, pend: seq<Ref>, dir: bool, held: seq<Ref>)
    requires Tri(g, {}, pend + held) && ListsOk(g) && AllMarked(pend, g.color) && AllTables(g, pend)
    requires g.gray == [] && g.phase == Atomic
    ensures Tri(ConvergePass(g, pend, dir).0, {}, held)
    decreases |pend|
  {
    if pend == [] {
      assert pend + held == held;
    } else {
      var h, rest := pend[0], pend[1..];
      assert h in pend && pend + held == [h] + (rest + held);
      assert forall x :: x in rest ==> x in pend;
      PassStepTri(g, h, dir, rest + held);
      ConvergePassTri(PassStep(g, h, dir).0, rest, dir, held);
    }
  }

  /** convergeephemerons keeps the invariant and leaves every waiting table settled. */
  lemma {:induction false} ConvergeTri(g: Gc, dir: bool, held: seq<Ref>)
    requires Tri(g, {}, held) && g.gray == [] && ListsOk(g) && g.phase == Atomic
    ensures Tri(Converge(g, dir), {}, held)
    ensures Settled(Converge(g, dir), Converge(g, dir).ephemeron)
    decreases |Whites(g.color)|
  {
    var g0, pend := g.(ephemeron := []), g.ephemeron;
    assert multiset(pend + held) == multiset(pend) + multiset(held);
    assert GrayLists(g0, pend + held) == GrayLists(g, held);
    assert Tri(g0, {}, pend + held);
    ConvergePassTri(g0, pend, dir, held);
    var (g1, changed) := ConvergePass(g0, pend, dir);
    if changed {
      ConvergeTri(g1, !dir, held);
    } else {
      ConvergePassSettled(g0, pend, dir);
    }
  }

  /** When no gray object is left to traverse, settled tables make the marked set closed. */
  lemma MarkedSetClosed(g: Gc)
    requires Tri(g, {}, []) && g.gray == [] && g.grayagain == [] && Settled(g, g.ephemeron)
    ensures ClosedUnder(g.heap, Nonwhites(g.color))
  {
    forall o | o in Nonwhites(g.color) && o in g.heap
      ensures ObjectClosed(g.heap, g.heap[o], Nonwhites(g.color))
    {
      if g.color[o] == Black {
        assert FullyMarked(g.heap[o], Nonwhites(g.color));
      } else {
        assert GrayLists(g, [])[o] == 1;
        if o !in g.ephemeron {
          assert o in g.allweak;
          assert NeedsNoValue(g.heap, g.heap[o], Nonwhites(g.color));
        }
      }
    }
  }
}
