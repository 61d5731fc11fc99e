/** The collector invariant, phase by phase, and the proof that every step keeps it. */
module GcSafety {
  import opened Common
  import opened GcHeap
  import opened GcMark
  import opened GcTricolor
  import opened GcConverge
  import opened GcLeast
  import opened GcCycle

  /** The objects that do not carry the dead white. */
  ghost function Live(g: Gc): set<Ref> { g.color.Keys - WithWhite(g.color, OtherWhite(g.white)) }

  ghost predicate NoDangling(g: Gc) {
    g.color.Keys == g.heap.Keys && IsWhite(g.white) &&
    (forall r :: Roots(g, r) ==> r in Live(g)) &&
    (forall o :: o in g.heap ==> WellFormedObject(g.heap[o])) &&
    forall o, r :: o in Live(g) && Mentions(g.heap[o], r) ==> r in Live(g)
  }

  /** `allgc` links every object once. */
  ghost predicate OneLink(g: Gc) {
    forall o {:trigger multiset(g.allgc)[o]} :: multiset(g.allgc)[o] == if o in g.heap then 1 else 0
  }

  ghost function Left(g: Gc): nat { match g.sweepgc case Null => 0 case At(n) => n }

  /** What sweeping has passed, and what was allocated since, is white again. */
  ghost predicate SweptPrefix(g: Gc) {
    Left(g) <= |g.allgc| &&
    forall i :: 0 <= i < |g.allgc| - Left(g) ==> g.allgc[i] in g.color && g.color[g.allgc[i]] == g.white
  }

  ghost predicate AllWhite(g: Gc) { forall o :: o in g.color ==> g.color[o] == g.white }

  ghost predicate CommonInv(g: Gc) {
    NoDangling(g) && OneLink(g) && g.main in g.heap && g.heap[g.main].kind == Thread
  }

  /** The invariant of each phase: no black-to-white edge while marking, no live object with
      the dead white while sweeping, one white only from the end of the sweep to the next
      cycle. */
  ghost predicate PhaseInv(g: Gc) {
    match g.phase
    case Propagate => Tri(g, {}, []) && g.sweepgc == Null && Marked(g, g.main)
    case EnterAtomic => Tri(g, {}, []) && g.sweepgc == Null && Marked(g, g.main)
    case Atomic => false
    case SweepAll => SweptPrefix(g)
    case SweepFin => AllWhite(g)
    case SweepToBeFnz => AllWhite(g)
    case _ => AllWhite(g) && g.sweepgc == Null
  }

  ghost predicate Inv(g: Gc) { CommonInv(g) && PhaseInv(g) }

  /** A reachable object is never one the sweep may free. */
  lemma ReachableIsLive(g: Gc, o: Ref)
    requires NoDangling(g) && Reachable(g, o)
    ensures o in Live(g) && o in g.heap && !IsDead(g, o)
  {
    LiveIsLiveSet(g);
  }

  lemma LiveIsLiveSet(g: Gc)
    requires NoDangling(g)
    ensures LiveSet(g, Live(g))
  {
    forall o | o in Live(g) && o in g.heap ensures ObjectClosed(g.heap, g.heap[o], Live(g)) {
      LiveMentions(g, o);
    }
  }

  lemma LiveMentions(g: Gc, o: Ref)
    requires NoDangling(g) && o in Live(g)
    ensures forall r :: r in g.heap[o].refs ==> r in Live(g)
    ensures forall e :: e in g.heap[o].entries && e.Pair? ==>
      (e.key.Some? ==> e.key.value in Live(g)) && (e.val.Some? ==> e.val.value in Live(g))
  {
    forall r | r in g.heap[o].refs ensures r in Live(g) { assert Mentions(g.heap[o], r); }
    forall e | e in g.heap[o].entries && e.Pair?
      ensures (e.key.Some? ==> e.key.value in Live(g)) && (e.val.Some? ==> e.val.value in Live(g))
    {
      if e.key.Some? { assert Mentions(g.heap[o], e.key.value); }
      if e.val.Some? { assert Mentions(g.heap[o], e.val.value); }
    }
  }

  /** Every step of the collector is defined on the states of the invariant. */
  lemma InvCanStep(g: Gc)
    requires Inv(g)
    ensures CanStep(g)
    ensures g.phase == EnterAtomic ==> StepReady(g)
  {
    if g.phase == Propagate || g.phase == EnterAtomic {
      ListsAreGray(g, {}, []);
      GrayAgainMarked(g);
    }
    RootsInHeap(g);
    if g.phase == Pause { NoDeadReady(g); }
  }

  lemma RootsInHeap(g: Gc)
    requires NoDangling(g)
    ensures g.main in g.heap && g.running in g.heap && forall x :: x in g.globals ==> x in g.heap
  {
    assert Roots(g, g.main) && Roots(g, g.running);
    forall x | x in g.globals ensures x in g.heap { assert Roots(g, x); }
  }

  lemma GrayAgainMarked(g: Gc)
    requires OneList(g, [])
    ensures AllMarked(g.grayagain, g.color)
  {
    forall o | o in g.grayagain ensures o in Nonwhites(g.color) {
      assert GrayLists(g, [])[o] > 0;
    }
  }

  lemma NoDeadReady(g: Gc)
    requires NoDangling(g) && AllWhite(g)
    ensures Ready(g) && Live(g) == g.heap.Keys
  {
    assert Live(g) == g.heap.Keys;
    forall o, r | o in g.heap && Mentions(g.heap[o], r) ensures r in g.heap {
      assert o in Live(g);
    }
  }

  /** Marking keeps what does not depend on the phase. */
  lemma MarkingCommon(g: Gc, r: Gc)
    requires CommonInv(g) && Grows(g, r) && WithWhite(g.color, OtherWhite(g.white)) == {}
    ensures CommonInv(r) && WithWhite(r.color, OtherWhite(r.white)) == {} && Live(r) == Live(g)
  {
    assert Live(r) == Live(g);
    forall o, x | o in Live(r) && Mentions(r.heap[o], x) ensures x in Live(r) {
      assert o in Live(g) && Mentions(g.heap[o], x);
    }
  }

  lemma RestartInv(g: Gc)
    requires Inv(g) && g.phase == Pause && CanStep(g)
    ensures Inv(Restart(g)) && Restart(g).phase == Propagate
  {
    NoDeadReady(g);
    var g1 := ClearLists(g);
    assert Live(g1) == Live(g);
    assert CommonInv(g1);
    assert Tri(g1, {}, []);
    MarkTri(g1, g.main, {}, []);
    var g2 := Mark(g1, g.main);
    MarkAllTri(g2, g.globals, {}, []);
    MarkingCommon(g1, g2);
    MarkingCommon(g2, MarkAll(g2, g.globals));
  }

  lemma PropagateInv(g: Gc)
    requires Inv(g) && g.phase == Propagate && CanStep(g) && g.gray != []
    ensures Inv(PropagateMark(g))
  {
    PropagateMarkTri(g, []);
    MarkingCommon(g, PropagateMark(g));
  }

  /** What holds between the parts of `atomic`. */
  ghost predicate InAtomic(g: Gc, held: seq<Ref>) {
    Tri(g, {}, held) && CommonInv(g) && g.phase == Atomic && g.grayagain == [] && ListsOk(g)
  }

  lemma AtomicRootsInv(g: Gc, held: seq<Ref>)
    requires InAtomic(g, held) && g.running in g.heap && forall x :: x in g.globals ==> x in g.heap
    ensures InAtomic(AtomicRoots(g), held)
  {
    var g1 := Mark(g, g.running);
    var g2 := MarkAll(g1, g.globals);
    MarkTri(g, g.running, {}, held);
    MarkAllTri(g1, g.globals, {}, held);
    PropagateAllTri(g2, held);
    MarkingCommon(g, AtomicRoots(g));
  }

  lemma AtomicAgainInv(g: Gc, again: seq<Ref>)
    requires InAtomic(g, again) && g.gray == [] && AllMarked(again, g.color)
    ensures InAtomic(AtomicAgain(g, again), [])
  {
    var g1 := g.(gray := again);
    assert GrayLists(g1, []) == GrayLists(g, again);
    assert Tri(g1, {}, []);
    PropagateAllTri(g1, []);
    MarkingCommon(g, AtomicAgain(g, again));
  }

  lemma ConvergeTwiceInv(g: Gc)
    requires InAtomic(g, []) && g.gray == []
    ensures InAtomic(ConvergeTwice(g), []) && ClosedUnder(g.heap, Nonwhites(ConvergeTwice(g).color))
  {
    hide Converge;
    var g1 := Converge(g, false);
    ConvergeTri(g, false, []);
    ConvergeTri(g1, false, []);
    MarkedSetClosed(ConvergeTwice(g));
    MarkingCommon(g, ConvergeTwice(g));
  }

  /** `grayagain` is set aside and the phase becomes atomic. */
  ghost function AtomicStart(g: Gc): Gc { g.(grayagain := [], phase := Atomic) }

  lemma AtomicStartInv(g: Gc)
    requires Inv(g) && g.phase == EnterAtomic && StepReady(g)
    ensures InAtomic(AtomicStart(g), g.grayagain)
  {
    var g1 := AtomicStart(g);
    assert GrayLists(g1, g.grayagain) == GrayLists(g, []);
    assert Live(g1) == Live(g);
  }

  /** At the end of the marking in `atomic` the marked set is closed and holds the roots:
      nothing reachable is still white. */
  lemma AtomicMarkInv(g: Gc)
    requires Inv(g) && g.phase == EnterAtomic && StepReady(g)
    ensures InAtomic(AtomicMark(g), []) && Grows(AtomicStart(g), AtomicMark(g))
    ensures LiveSet(AtomicMark(g), Nonwhites(AtomicMark(g).color))
  {
    hide Tri, NoDangling, Converge, Mark, MarkAll, PropagateAll, OneLink;
    var g1 := AtomicStart(g);
    AtomicStartInv(g);
    AtomicRootsInv(g1, g.grayagain);
    var g2 := AtomicRoots(g1);
    AtomicAgainInv(g2, g.grayagain);
    var g3 := AtomicAgain(g2, g.grayagain);
    ConvergeTwiceInv(g3);
    GrowsTrans(g1, g2, g3);
    GrowsTrans(g1, g3, ConvergeTwice(g3));
    RootsMarked(g1, g2, ConvergeTwice(g3));
  }

  lemma RootsMarked(g: Gc, r: Gc, m: Gc)
    requires Grows(g, r) && Grows(g, m) && Nonwhites(r.color) <= Nonwhites(m.color)
    requires Marked(g, g.main) && Marked(r, g.running) && AllMarked(g.globals, r.color)
    ensures forall x :: Roots(m, x) ==> x in Nonwhites(m.color)
  {
  }

  ghost function ClearTable(heap: map<Ref, Object>, c: Colors, b: Object): Object {
    b.(entries := ClearEntries(heap, c, b.entries))
  }

  lemma ClearOneTable(heap: map<Ref, Object>, heap': map<Ref, Object>, c: Colors, h: Ref, b: Object)
    requires h in heap && heap' == heap[h := ClearTable(heap, c, heap[h])]
    ensures ClearTable(heap', c, b) == ClearTable(heap, c, b)
    ensures ClearTable(heap', c, ClearTable(heap, c, b)) == ClearTable(heap, c, b)
  {
    assert forall x :: IsStr(heap', x) == IsStr(heap, x);
    assert ClearEntries(heap', c, b.entries) == ClearEntries(heap, c, b.entries);
    assert ClearEntries(heap', c, ClearEntries(heap, c, b.entries)) == ClearEntries(heap, c, b.entries);
  }

  /** clearbykeys clears the tables of the list and nothing else. */
  lemma {:induction false} ClearByKeysAt(heap: map<Ref, Object>, c: Colors, hs: seq<Ref>, o: Ref)
    requires o in heap
    ensures ClearByKeys(heap, c, hs)[o] == if o in hs then ClearTable(heap, c, heap[o]) else heap[o]
    decreases |hs|
  {
    if hs != [] {
      var h := hs[0];
      if h !in heap {
        ClearByKeysAt(heap, c, hs[1..], o);
      } else {
        var heap' := heap[h := ClearTable(heap, c, heap[h])];
        ClearByKeysAt(heap', c, hs[1..], o);
        ClearOneTable(heap, heap', c, h, heap[o]);
      }
    }
  }

  /** The heap after both calls of clearbykeys in `atomic`. */
  ghost function ClearedHeap(m: Gc): map<Ref, Object> {
    ClearByKeys(ClearByKeys(m.heap, m.color, m.ephemeron), m.color, m.allweak)
  }

  lemma {:induction false} ClearedHeapAt(m: Gc, o: Ref)
    requires o in m.heap
    ensures o in ClearedHeap(m)
    ensures ClearedHeap(m)[o] ==
      if o in m.ephemeron || o in m.allweak then ClearTable(m.heap, m.color, m.heap[o]) else m.heap[o]
  {
    var h1 := ClearByKeys(m.heap, m.color, m.ephemeron);
    ClearByKeysAt(m.heap, m.color, m.ephemeron, o);
    ClearByKeysAt(h1, m.color, m.allweak, o);
    assert forall x :: IsStr(h1, x) == IsStr(m.heap, x) by {
      forall x | x in m.heap ensures h1[x].kind == m.heap[x].kind {
        ClearByKeysAt(m.heap, m.color, m.ephemeron, x);
      }
    }
    var b := m.heap[o];
    assert ClearEntries(h1, m.color, b.entries) == ClearEntries(m.heap, m.color, b.entries);
    assert ClearEntries(h1, m.color, ClearEntries(m.heap, m.color, b.entries)) ==
           ClearEntries(m.heap, m.color, b.entries);
  }

  /** After clearing, a marked object mentions only marked objects. */
  lemma ClearedMentions(m: Gc, o: Ref, r: Ref)
    requires InAtomic(m, []) && m.gray == [] && ClosedUnder(m.heap, Nonwhites(m.color))
    requires o in Nonwhites(m.color) && Mentions(ClearedHeap(m)[o], r)
    ensures r in Nonwhites(m.color)
  {
    hide ClearedHeap, ClosedHeap;
    ClearedHeapAt(m, o);
    var b, N := m.heap[o], Nonwhites(m.color);
    assert ObjectClosed(m.heap, b, N);
    if r !in b.refs {
      if o in m.ephemeron || o in m.allweak {
        var e :| e in ClearEntries(m.heap, m.color, b.entries) && e.Pair? && (e.key == Some(r) || e.val == Some(r));
        assert e in b.entries && !ClearedEntry(m.heap, m.color, e);
      } else {
        assert GrayLists(m, [])[o] == 0;
        assert FullyMarked(b, N);
      }
    }
  }

  /** The flip of the current white turns exactly the unmarked objects into dead ones. */
  lemma FlipInv(m: Gc)
    requires InAtomic(m, []) && m.gray == [] && LiveSet(m, Nonwhites(m.color))
    ensures var a := m.(heap := ClearedHeap(m), white := OtherWhite(m.white));
      CommonInv(a) && Live(a) == Nonwhites(m.color)
  {
    var a := m.(heap := ClearedHeap(m), white := OtherWhite(m.white));
    FlipLive(m);
    forall o | o in a.heap ensures WellFormedObject(a.heap[o]) {
      ClearedHeapAt(m, o);
    }
    forall o, r | o in Live(a) && Mentions(a.heap[o], r) ensures r in Live(a) {
      ClearedMentions(m, o, r);
    }
    ClearedHeapAt(m, m.main);
    assert forall r :: Roots(a, r) ==> Roots(m, r);
  }

  lemma FlipLive(m: Gc)
    requires IsWhite(m.white) && WithWhite(m.color, OtherWhite(m.white)) == {}
    ensures m.color.Keys - WithWhite(m.color, m.white) == Nonwhites(m.color)
    ensures OtherWhite(OtherWhite(m.white)) == m.white
  {
    forall o | o in m.color ensures o in WithWhite(m.color, m.white) <==> o !in Nonwhites(m.color) {
      assert o !in WithWhite(m.color, OtherWhite(m.white));
    }
  }

  ghost predicate PrefixWhite(g: Gc, left: nat) {
    left <= |g.allgc| &&
    forall i :: 0 <= i < |g.allgc| - left ==> g.allgc[i] in g.color && g.color[g.allgc[i]] == g.white
  }

  /** Sweeping keeps the live objects, and their contents, as they are. */
  ghost predicate LiveKept(g: Gc, r: Gc) {
    Live(r) == Live(g) && r.white == g.white && r.main == g.main && r.running == g.running && r.globals == g.globals &&
    r.heap.Keys <= g.heap.Keys && forall o :: o in r.heap ==> r.heap[o] == g.heap[o]
  }

  lemma LiveKeptDangling(g: Gc, r: Gc)
    requires NoDangling(g) && LiveKept(g, r) && r.color.Keys == r.heap.Keys
    ensures NoDangling(r)
  {
    forall o, x | o in Live(r) && Mentions(r.heap[o], x) ensures x in Live(r) {
      assert o in Live(g) && Mentions(g.heap[o], x);
    }
    assert forall x :: Roots(r, x) ==> Roots(g, x);
  }

  /** The object sweeplist looks at is in the heap, and nowhere else in `allgc`. */
  lemma CurrLink(g: Gc, i: nat)
    requires OneLink(g) && i < |g.allgc|
    ensures g.allgc[i] in g.heap && g.allgc[i] !in g.allgc[..i] && g.allgc[i] !in g.allgc[i + 1..]
    ensures multiset(g.allgc) == multiset(g.allgc[..i] + g.allgc[i + 1..]) + multiset{g.allgc[i]}
  {
    var curr := g.allgc[i];
    assert g.allgc == g.allgc[..i] + [curr] + g.allgc[i + 1..];
    assert multiset(g.allgc)[curr] <= 1;
    assert multiset(g.allgc)[curr] == multiset(g.allgc[..i])[curr] + 1 + multiset(g.allgc[i + 1..])[curr];
    assert curr in multiset(g.allgc);
  }

  lemma FreeOneLink(g: Gc, left: nat)
    requires OneLink(g) && 0 < left <= |g.allgc| && IsDead(g, g.allgc[|g.allgc| - left])
    ensures OneLink(SweepOne(g, left))
  {
    var r, i := SweepOne(g, left), |g.allgc| - left;
    CurrLink(g, i);
    forall o ensures multiset(r.allgc)[o] == if o in r.heap then 1 else 0 {
      assert multiset(g.allgc)[o] == if o in g.heap then 1 else 0;
    }
  }

  lemma FreeOne(g: Gc, left: nat)
    requires CommonInv(g) && PrefixWhite(g, left) && 0 < left && IsDead(g, g.allgc[|g.allgc| - left])
    ensures var r := SweepOne(g, left);
      CommonInv(r) && PrefixWhite(r, left - 1) && LiveKept(g, r)
  {
    var r, i := SweepOne(g, left), |g.allgc| - left;
    CurrLink(g, i);
    FreeOneLink(g, left);
    assert Live(r) == Live(g);
    LiveKeptDangling(g, r);
    assert Roots(g, g.main);
    forall k | 0 <= k < |r.allgc| - (left - 1)
      ensures r.allgc[k] in r.color && r.color[r.allgc[k]] == r.white
    {
      assert r.allgc[k] == g.allgc[k] && g.allgc[k] in g.allgc[..i];
    }
  }

  lemma WhitenOne(g: Gc, left: nat)
    requires CommonInv(g) && PrefixWhite(g, left) && 0 < left && !IsDead(g, g.allgc[|g.allgc| - left])
    ensures var r := SweepOne(g, left);
      CommonInv(r) && PrefixWhite(r, left - 1) && LiveKept(g, r)
  {
    var r, curr := SweepOne(g, left), g.allgc[|g.allgc| - left];
    CurrLink(g, |g.allgc| - left);
    WhitenLive(g, r, curr);
    LiveKeptDangling(g, r);
  }

  lemma WhitenLive(g: Gc, r: Gc, o: Ref)
    requires o in g.color && !IsDead(g, o) && IsWhite(g.white) && r == g.(color := g.color[o := g.white])
    ensures LiveKept(g, r) && r.color.Keys == g.color.Keys
  {
    assert WithWhite(r.color, OtherWhite(r.white)) == WithWhite(g.color, OtherWhite(g.white));
  }

  lemma SweepOneInv(g: Gc, left: nat)
    requires CommonInv(g) && PrefixWhite(g, left) && 0 < left
    ensures var r := SweepOne(g, left);
      CommonInv(r) && PrefixWhite(r, left - 1) && LiveKept(g, r) && r.phase == g.phase
  {
    if IsDead(g, g.allgc[|g.allgc| - left]) { FreeOne(g, left); } else { WhitenOne(g, left); }
  }

  lemma LiveKeptTrans(a: Gc, b: Gc, c: Gc)
    requires LiveKept(a, b) && LiveKept(b, c)
    ensures LiveKept(a, c)
  {
  }

  lemma {:induction false} SweepListInv(g: Gc, left: nat, n: nat)
    requires CommonInv(g) && PrefixWhite(g, left)
    ensures CommonInv(SweepList(g, left, n).0) && PrefixWhite(SweepList(g, left, n).0, SweepList(g, left, n).1)
    ensures LiveKept(g, SweepList(g, left, n).0) && SweepList(g, left, n).0.phase == g.phase
    decreases left
  {
    hide CommonInv, SweepOne;
    if left != 0 && n != 0 {
      var r := SweepOne(g, left);
      SweepOneInv(g, left);
      var (r', left') := SweepList(r, left - 1, n - 1);
      assert SweepList(g, left, n) == (r', left');
      SweepListInv(r, left - 1, n - 1);
      LiveKeptTrans(g, r, r');
    }
  }

  lemma {:induction false} SweepToLiveInv(g: Gc, left: nat)
    requires CommonInv(g) && PrefixWhite(g, left)
    ensures SweepGood(g, SweepToLive(g, left).0, SweepToLive(g, left).1)
    decreases left
  {
    hide LiveKept, NoDangling, OneLink;
    if left == 0 {
      LiveKeptRefl(g);
    } else {
      var r := SweepOne(g, left);
      SweepOneInv(g, left);
      if IsDead(g, g.allgc[|g.allgc| - left]) {
        SweepToLiveInv(r, left - 1);
        SweepGoodTrans(g, r, SweepToLive(r, left - 1).0, SweepToLive(r, left - 1).1);
      }
    }
  }

  ghost predicate SweepGood(g: Gc, r: Gc, left: nat) {
    CommonInv(r) && PrefixWhite(r, left) && LiveKept(g, r) && r.phase == g.phase
  }

  lemma SweepGoodTrans(g: Gc, r: Gc, s: Gc, left: nat)
    requires LiveKept(g, r) && r.phase == g.phase && SweepGood(r, s, left)
    ensures SweepGood(g, s, left)
  {
    LiveKeptTrans(g, r, s);
  }

  lemma LiveKeptRefl(g: Gc)
    ensures LiveKept(g, g)
  {
  }

  lemma EnterSweepInv(g: Gc)
    requires CommonInv(g)
    ensures Inv(EnterSweep(g)) && LiveKept(g, EnterSweep(g)) && EnterSweep(g).phase == SweepAll
  {
    var g1 := g.(phase := SweepAll);
    assert Live(g1) == Live(g);
    SweepToLiveInv(g1, |g.allgc|);
    var (r, left) := SweepToLive(g1, |g.allgc|);
    assert Live(EnterSweep(g)) == Live(r);
  }

  lemma AtomicInv(g: Gc)
    requires Inv(g) && g.phase == EnterAtomic && CanStep(g)
    ensures Inv(SingleStep(g)) && SingleStep(g).phase == SweepAll
    ensures Live(SingleStep(g)) == Nonwhites(AtomicMark(g).color)
  {
    AtomicMarkInv(g);
    FlipInv(AtomicMark(g));
    EnterSweepInv(AtomicPhase(g));
  }

  lemma SweepInv(g: Gc)
    requires Inv(g) && g.phase == SweepAll
    ensures Inv(SweepStep(g)) && LiveKept(g, SweepStep(g))
  {
    match g.sweepgc
    case At(left) =>
      SweepListInv(g, left, GCSWEEPMAX);
      assert Live(SweepStep(g)) == Live(SweepList(g, left, GCSWEEPMAX).0);
    case Null =>
      AllSwept(g);
      OnlyPhase(g, SweepStep(g));
  }

  lemma AllSwept(g: Gc)
    requires CommonInv(g) && SweptPrefix(g) && g.sweepgc == Null
    ensures AllWhite(g)
  {
    forall o | o in g.color ensures g.color[o] == g.white {
      assert multiset(g.allgc)[o] == 1;
      assert o in g.allgc;
    }
  }

  /** Every step of the collector keeps the invariant. */
  lemma SingleStepInv(g: Gc)
    requires Inv(g)
    ensures CanStep(g) && Inv(SingleStep(g))
  {
    hide Tri, NoDangling, OneLink, PropagateMark, Restart, AtomicPhase, EnterSweep, SweepStep;
    InvCanStep(g);
    if g.phase == Pause {
      RestartInv(g);
    } else if g.phase == Propagate && g.gray != [] {
      PropagateInv(g);
    } else if g.phase == EnterAtomic {
      AtomicInv(g);
    } else if g.phase == SweepAll {
      SweepInv(g);
    } else {
      IdleStepInv(g);
    }
  }

  /** The steps that only go on to another phase or another empty list. */
  lemma IdleStepInv(g: Gc)
    requires Inv(g) && CanStep(g) && (g.phase == Propagate ==> g.gray == [])
    requires g.phase != Pause && g.phase != EnterAtomic && g.phase != SweepAll
    ensures Inv(SingleStep(g))
  {
    OnlyPhase(g, SingleStep(g));
  }

  lemma OnlyPhase(g: Gc, r: Gc)
    requires CommonInv(g) && r == g.(phase := r.phase, sweepgc := r.sweepgc)
    ensures CommonInv(r) && Live(r) == Live(g)
  {
    assert Live(r) == Live(g);
    assert forall x :: Roots(r, x) ==> Roots(g, x);
  }
}
