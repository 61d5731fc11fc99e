/** Marking never goes too far: whatever set is closed and holds the objects marked so far
    holds the objects marked later. With GcConverge this makes the marked set the least one. */
module GcLeast {
  import opened Common
  import opened GcHeap
  import opened GcMark
  import opened GcTricolor
  import opened GcConverge

  ghost predicate Within(g: Gc, S: set<Ref>) { Nonwhites(g.color) <= S && ClosedUnder(g.heap, S) }

  lemma {:induction false} MarkWithin(g: Gc, o: Ref, S: set<Ref>)
    requires Ready(g) && o in g.heap && o in S && Within(g, S)
    ensures Within(Mark(g, o), S)
    decreases |Whites(g.color)|, 0
  {
    if IsWhite(g.color[o]) && g.heap[o].kind == Cell {
      CellRefs(g, o);
      assert ObjectClosed(g.heap, g.heap[o], S);
      MarkAllWithin(Blacken(g, o), g.heap[o].refs, S);
    }
  }

  lemma {:induction false} MarkAllWithin(g: Gc, rs: seq<Ref>, S: set<Ref>)
    requires Ready(g) && Within(g, S) && forall x :: x in rs ==> x in g.heap && x in S
    ensures Within(MarkAll(g, rs), S)
    decreases |Whites(g.color)|, 1 + |rs|
  {
    if rs != [] {
      MarkWithin(g, rs[0], S);
      MarkAllWithin(Mark(g, rs[0]), rs[1..], S);
    }
  }

  lemma {:induction false} VisitRefsWithin(t: Trav, rs: seq<Ref>, S: set<Ref>)
    requires Ready(t.g) && Within(t.g, S) && forall x :: x in rs ==> x in t.g.heap && x in S
    ensures Within(VisitRefs(t, rs).g, S)
    decreases |rs|
  {
    if rs != [] {
      MarkWithin(t.g, rs[0], S);
      VisitRefsWithin(VisitRef(t, rs[0]), rs[1..], S);
    }
  }

  lemma VisitEntryWithin(t: Trav, e: Entry, S: set<Ref>)
    requires Ready(t.g) && (e.Pair? ==> OptIn(t.g.heap, e.key) && OptIn(t.g.heap, e.val))
    requires Within(t.g, S) && EntrySettled(t.g.heap, e, S)
    ensures Within(VisitEntry(t, e).g, S)
  {
    hide Mark, ClosedHeap, Within, VisitPair;
    if e.Pair? {
      if e.key.Some? && IsStr(t.g.heap, e.key.value) { MarkWithin(t.g, e.key.value, S); }
      VisitPairWithin(VisitKey(t, e.key), e.key, e.val, S);
    }
  }

  lemma VisitPairWithin(t: Trav, k: Option<Ref>, v: Option<Ref>, S: set<Ref>)
    requires Ready(t.g) && OptIn(t.g.heap, k) && OptIn(t.g.heap, v)
    requires Within(t.g, S) && EntrySettled(t.g.heap, Pair(k, v), S)
    ensures Within(VisitPair(t, k, v).g, S)
  {
    if !(k.Some? && IsWhite(t.g.color[k.value])) && v.Some? {
      assert KeyLive(t.g.heap, Pair(k, v).key, S);
      MarkWithin(t.g, v.value, S);
    }
  }

  lemma {:induction false} VisitEntriesWithin(t: Trav, es: seq<Entry>, S: set<Ref>)
    requires Ready(t.g) && EntriesIn(t.g.heap, es) && Within(t.g, S)
    requires forall e :: e in es ==> EntrySettled(t.g.heap, e, S)
    ensures Within(VisitEntries(t, es).g, S)
    decreases |es|
  {
    if es != [] {
      VisitEntryWithin(t, es[0], S);
      VisitEntriesWithin(VisitEntry(t, es[0]), es[1..], S);
    }
  }

  lemma TraverseEphemeronWithin(g: Gc, h: Ref, inv: bool, S: set<Ref>)
    requires Ready(g) && Marked(g, h) && Within(g, S)
    ensures Within(TraverseEphemeron(g, h, inv).0, S)
  {
    ObjectRefs(g, h);
    var b, t0, s := g.heap[h], Trav(g, false, false, false), InOrder(g.heap[h].entries, inv);
    assert ObjectClosed(g.heap, b, S);
    VisitRefsWithin(t0, b.refs, S);
    forall e | e in s ensures EntrySettled(g.heap, e, S) {
      assert e in b.entries;
    }
    VisitEntriesWithin(VisitRefs(t0, b.refs), s, S);
  }

  lemma PropagateMarkWithin(g: Gc, S: set<Ref>)
    requires Ready(g) && g.gray != [] && ListsOk(g) && Within(g, S)
    ensures Within(PropagateMark(g), S)
  {
    var o, g1 := g.gray[0], PopGray(g);
    assert o in g.gray;
    CellRefs(g1, o);
    assert ObjectClosed(g1.heap, g1.heap[o], S);
    if g1.heap[o].kind == Ephemeron {
      TraverseEphemeronWithin(g1, o, false, S);
    } else if g1.heap[o].kind == Thread && g1.phase == Propagate {
      MarkAllWithin(LinkGrayAgain(g1, o), g1.heap[o].refs, S);
    } else {
      MarkAllWithin(g1, g1.heap[o].refs, S);
    }
  }

  lemma {:induction false} PropagateAllWithin(g: Gc, S: set<Ref>)
    requires Ready(g) && ListsOk(g) && Within(g, S)
    ensures Within(PropagateAll(g), S)
    decreases Work(g)
  {
    if g.gray != [] {
      PropagateMarkWithin(g, S);
      PropagateAllWithin(PropagateMark(g), S);
    }
  }

  lemma {:induction false} ConvergePassWithin(g: Gc, pend: seq<Ref>, dir: bool, S: set<Ref>)
    requires Ready(g) && ListsOk(g) && g.gray == [] && AllMarked(pend, g.color) && Within(g, S)
    ensures Within(ConvergePass(g, pend, dir).0, S)
    decreases |pend|
  {
    if pend != [] {
      var h := pend[0];
      assert h in pend;
      PassStepWithin(g, h, dir, S);
      ConvergePassWithin(PassStep(g, h, dir).0, pend[1..], dir, S);
    }
  }

  lemma PassStepWithin(g: Gc, h: Ref, dir: bool, S: set<Ref>)
    requires Ready(g) && ListsOk(g) && g.gray == [] && Marked(g, h) && Within(g, S)
    ensures Within(PassStep(g, h, dir).0, S)
  {
    var (g2, marked) := TraverseEphemeron(Blacken(g, h), h, dir);
    TraverseEphemeronWithin(Blacken(g, h), h, dir, S);
    if marked { PropagateAllWithin(g2, S); }
  }

  lemma {:induction false} ConvergeWithin(g: Gc, dir: bool, S: set<Ref>)
    requires Ready(g) && ListsOk(g) && g.gray == [] && Within(g, S)
    ensures Within(Converge(g, dir), S)
    decreases |Whites(g.color)|
  {
    var g0 := g.(ephemeron := []);
    ConvergePassWithin(g0, g.ephemeron, dir, S);
    var (g1, changed) := ConvergePass(g0, g.ephemeron, dir);
    if changed { ConvergeWithin(g1, !dir, S); }
  }

  /** Convergence computes a least fixpoint. From a state with nothing left to traverse but
      the tables waiting for their keys, the objects marked on exit form a closed set, and
      every closed set that holds what was marked before holds them all. */
  lemma ConvergeLeastFixpoint(g: Gc, dir: bool)
    requires Tri(g, {}, []) && g.gray == [] && g.grayagain == [] && g.phase == Atomic && ListsOk(g)
    ensures var r := Converge(g, dir);
      Nonwhites(g.color) <= Nonwhites(r.color) && ClosedUnder(g.heap, Nonwhites(r.color)) &&
      forall S: set<Ref> :: Nonwhites(g.color) <= S && ClosedUnder(g.heap, S) ==> Nonwhites(r.color) <= S
  {
    hide Converge, ClosedUnder, OneList, NoBlackToWhite, ListMembers, ThreadsGray, AllMarked;
    ConvergeTri(g, dir, []);
    MarkedSetClosed(Converge(g, dir));
    forall S: set<Ref> | Within(g, S) ensures Nonwhites(Converge(g, dir).color) <= S {
      ConvergeWithin(g, dir, S);
    }
  }
}
