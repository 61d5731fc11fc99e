/** The mutator: allocation, guarded writes, unguarded writes to thread stacks and to the
    registry, and the switch of the running thread; runs of the whole system. */
module GcMutator {
  import opened Common
  import opened GcHeap
  import opened GcMark
  import opened GcTricolor
  import opened GcCycle
  import opened GcSafety

  /** A step of the system. Write stores into object o one new reference v (None when only a
      reference is dropped); `back` chooses luaC_barrierback over luaC_barrier. Intern finds a
      string by its contents in the table of short strings and puts it on a stack. */
  datatype Op =
    | Collect
    | New(o: Ref, kind: Kind, th: Ref)
    | Write(o: Ref, body: Object, v: Option<Ref>, back: bool)
    | Intern(s: Ref, th: Ref)
    | SetGlobals(gs: seq<Ref>)
    | Resume(th: Ref)

  /** What a program can get hold of: what it can reach, and what an object it can reach mentions,
      also only as a weak key, which a traversal of the table gives it. */
  ghost predicate Obtainable(g: Gc, x: Ref) {
    Reachable(g, x) || exists o :: o in g.heap && Reachable(g, o) && Mentions(g.heap[o], x)
  }

  /** The new contents of the object of a store: no other reference but v is new. */
  ghost predicate Changes(g: Gc, o: Ref, body: Object, v: Option<Ref>, back: bool) {
    o in g.heap && body.kind == g.heap[o].kind && WellFormedObject(body) && body.kind != Str &&
    (forall r: Ref :: Mentions(body, r) ==> Mentions(g.heap[o], r) || v == Some(r)) &&
    (back ==> body.kind == Plain || body.kind == Ephemeron)
  }

  /** What a program can do: it only uses references it can get hold of, a fresh object is
      anchored on a stack, and only objects with a gray-list link take the backward barrier.
      Interning gives it any string there is, also one that nothing reaches. */
  ghost predicate Allowed(g: Gc, op: Op) {
    match op
    case Collect => true
    case New(o, _, th) => o !in g.heap && Obtainable(g, th) && th in g.heap && g.heap[th].kind == Thread
    case Write(o, body, v, back) =>
      Obtainable(g, o) && (v.Some? ==> Obtainable(g, v.value)) && Changes(g, o, body, v, back)
    case Intern(s, th) => IsStr(g.heap, s) && Obtainable(g, th) && th in g.heap && g.heap[th].kind == Thread
    case SetGlobals(gs) => forall x :: x in gs ==> Obtainable(g, x)
    case Resume(th) => Obtainable(g, th)
  }

  /** What a program can get hold of, the sweep does not free. */
  lemma ObtainableIsLive(g: Gc, x: Ref)
    requires NoDangling(g) && Obtainable(g, x)
    ensures x in Live(g) && x in g.heap
  {
    if Reachable(g, x) {
      ReachableIsLive(g, x);
    } else {
      var o :| o in g.heap && Reachable(g, o) && Mentions(g.heap[o], x);
      ReachableIsLive(g, o);
    }
  }

  /** A store between live objects. */
  ghost predicate StoreOk(g: Gc, o: Ref, body: Object, v: Option<Ref>, back: bool) {
    Changes(g, o, body, v, back) && o in Live(g) && (v.Some? ==> v.value in Live(g))
  }

  lemma AllowedStore(g: Gc, o: Ref, body: Object, v: Option<Ref>, back: bool)
    requires Inv(g) && Allowed(g, Write(o, body, v, back))
    ensures StoreOk(g, o, body, v, back)
  {
    ObtainableIsLive(g, o);
    if v.Some? { ObtainableIsLive(g, v.value); }
  }

  /** luaC_newobj: the object gets the current white and goes in front of `allgc`. */
  ghost function Allocate(g: Gc, o: Ref, kind: Kind, th: Ref): (r: Gc)
    requires th in g.heap
  {
    var t := g.heap[th];
    g.(heap := g.heap[th := t.(refs := t.refs + [o])][o := Object(kind, [], [])],
       color := g.color[o := g.white], allgc := [o] + g.allgc)
  }

  /** luaC_barrier_ (forward) and luaC_barrierback_. */
  ghost function Barrier(g: Gc, o: Ref, v: Ref, back: bool): (r: Gc)
    requires KeepInvariant(g.phase) && !back ==> Ready(g) && v in g.heap
  {
    if back then g.(color := g.color[o := Gray], grayagain := [o] + g.grayagain)
    else if KeepInvariant(g.phase) then Mark(g, v)
    else g.(color := g.color[o := g.white])
  }

  /** The test in the barrier macros; a thread's stack has no barrier. */
  ghost predicate NeedsBarrier(g: Gc, o: Ref, v: Option<Ref>) {
    o in g.heap && g.heap[o].kind != Thread && v.Some? && o in g.color && v.value in g.color &&
    g.color[o] == Black && IsWhite(g.color[v.value])
  }

  /** internshrstr on a string that is in the table: changewhite if it is dead, and the string
      goes to the stack. */
  ghost function Interned(g: Gc, s: Ref, th: Ref): (r: Gc)
    requires s in g.color && th in g.heap
  {
    var t := g.heap[th];
    Stored(Revived(g, s), th, t.(refs := t.refs + [s]))
  }

  ghost function Revived(g: Gc, s: Ref): Gc
    requires s in g.color
  {
    if IsDead(g, s) then g.(color := g.color[s := g.white]) else g
  }

  ghost function Stored(g: Gc, o: Ref, body: Object): Gc { g.(heap := g.heap[o := body]) }

  /** A guarded store. */
  ghost function Store(g: Gc, o: Ref, body: Object, v: Option<Ref>, back: bool): (r: Gc)
    requires Inv(g) && StoreOk(g, o, body, v, back)
  {
    var g1 := Stored(g, o, body);
    if !NeedsBarrier(g1, o, v) then g1 else
    StoredCommon(g, o, body, v, back);
    StoredReady(g1);
    Barrier(g1, o, v.value, back)
  }

  lemma StoredReady(g: Gc)
    requires CommonInv(g) && (KeepInvariant(g.phase) ==> WithWhite(g.color, OtherWhite(g.white)) == {})
    ensures KeepInvariant(g.phase) ==> Ready(g) && Live(g) == g.heap.Keys
  {
    if KeepInvariant(g.phase) {
      assert Live(g) == g.heap.Keys;
      forall o, r | o in g.heap && Mentions(g.heap[o], r) ensures r in g.heap {
        assert o in Live(g);
      }
    }
  }

  /** A program stores only live references, so no store makes a dangling one. */
  lemma StoredCommon(g: Gc, o: Ref, body: Object, v: Option<Ref>, back: bool)
    requires Inv(g) && StoreOk(g, o, body, v, back)
    ensures CommonInv(Stored(g, o, body)) && Live(Stored(g, o, body)) == Live(g)
    ensures v.Some? ==> v.value in Live(g)
    ensures o in Live(g)
    ensures KeepInvariant(g.phase) ==> WithWhite(g.color, OtherWhite(g.white)) == {}
  {
    var r := Stored(g, o, body);
    assert Live(r) == Live(g);
    forall x, y | x in Live(r) && Mentions(r.heap[x], y) ensures y in Live(r) {
      if x == o {
        assert Mentions(g.heap[o], y) || v == Some(y);
      } else {
        assert Mentions(g.heap[x], y);
      }
    }
    forall x ensures multiset(r.allgc)[x] == if x in r.heap then 1 else 0 {
      assert multiset(g.allgc)[x] == if x in g.heap then 1 else 0;
    }
    assert forall x :: Roots(r, x) ==> Roots(g, x);
  }

  ghost function Apply(g: Gc, op: Op): (r: Gc)
    requires Inv(g) && Allowed(g, op)
  {
    match op
    case Collect => SingleStepInv(g); SingleStep(g)
    case New(o, kind, th) => Allocate(g, o, kind, th)
    case Write(o, body, v, back) => AllowedStore(g, o, body, v, back); Store(g, o, body, v, back)
    case Intern(s, th) => Interned(g, s, th)
    case SetGlobals(gs) => g.(globals := gs)
    case Resume(th) => g.(running := th)
  }

  lemma MentionsPushed(t: Object, o: Ref, x: Ref)
    requires Mentions(t.(refs := t.refs + [o]), x)
    ensures Mentions(t, x) || x == o
  {
    if x !in t.refs && x != o {
      var e :| e in t.entries && e.Pair? && (e.key == Some(x) || e.val == Some(x));
    }
  }

  lemma AllocateDangling(g: Gc, o: Ref, kind: Kind, th: Ref)
    requires NoDangling(g) && o !in g.heap && th in Live(g) && g.heap[th].kind == Thread
    ensures NoDangling(Allocate(g, o, kind, th)) && Live(Allocate(g, o, kind, th)) == Live(g) + {o}
  {
    var r := Allocate(g, o, kind, th);
    assert Live(r) == Live(g) + {o};
    forall x, y | x in Live(r) && Mentions(r.heap[x], y) ensures y in Live(r) {
      if x == th { MentionsPushed(g.heap[th], o, y); }
      if x != o && y != o { assert Mentions(g.heap[x], y); }
    }
    assert forall x :: Roots(r, x) ==> Roots(g, x);
  }

  lemma AllocateCommon(g: Gc, o: Ref, kind: Kind, th: Ref)
    requires Inv(g) && Allowed(g, New(o, kind, th))
    ensures CommonInv(Allocate(g, o, kind, th)) && Live(Allocate(g, o, kind, th)) == Live(g) + {o}
  {
    hide NoDangling, PhaseInv, Reachable, Live;
    var r := Allocate(g, o, kind, th);
    ObtainableIsLive(g, th);
    AllocateDangling(g, o, kind, th);
    assert multiset(r.allgc) == multiset{o} + multiset(g.allgc);
    forall x ensures multiset(r.allgc)[x] == if x in r.heap then 1 else 0 {
      assert multiset(g.allgc)[x] == if x in g.heap then 1 else 0;
    }
  }

  /** A new object is white and no black object points to it: a thread is never black before
      the atomic phase. */
  lemma AllocateTri(g: Gc, o: Ref, kind: Kind, th: Ref)
    requires Inv(g) && Allowed(g, New(o, kind, th)) && (g.phase == Propagate || g.phase == EnterAtomic)
    ensures Tri(Allocate(g, o, kind, th), {}, [])
  {
    var r := Allocate(g, o, kind, th);
    AllocateCommon(g, o, kind, th);
    assert WithWhite(r.color, OtherWhite(r.white)) == {};
    StoredReady(r);
    AllocateOneList(g, r, o);
    AllocateBlack(g, o, kind, th);
  }

  lemma AllocateOneList(g: Gc, r: Gc, o: Ref)
    requires OneList(g, []) && o !in g.color && IsWhite(g.white) && r.color == g.color[o := g.white]
    requires GrayLists(r, []) == GrayLists(g, [])
    ensures OneList(r, [])
  {
    forall x ensures GrayLists(r, [])[x] == if IsGray(r.color, x) then 1 else 0 {
      assert GrayLists(g, [])[x] == if IsGray(g.color, x) then 1 else 0;
    }
  }

  lemma AllocateBlack(g: Gc, o: Ref, kind: Kind, th: Ref)
    requires NoBlackToWhite(g, {}) && ThreadsGray(g, {}) && g.phase != Atomic && IsWhite(g.white)
    requires g.color.Keys == g.heap.Keys && o !in g.heap && th in g.heap && g.heap[th].kind == Thread
    ensures NoBlackToWhite(Allocate(g, o, kind, th), {}) && ThreadsGray(Allocate(g, o, kind, th), {})
  {
    var r := Allocate(g, o, kind, th);
    assert Nonwhites(r.color) == Nonwhites(g.color);
    forall x | x in r.heap && IsBlack(r.color, x) ensures FullyMarked(r.heap[x], Nonwhites(r.color)) {
      assert x != o && IsBlack(g.color, x);
      assert x != th;
      assert FullyMarked(g.heap[x], Nonwhites(g.color));
    }
  }

  lemma AllocateInv(g: Gc, o: Ref, kind: Kind, th: Ref)
    requires Inv(g) && Allowed(g, New(o, kind, th))
    ensures Inv(Allocate(g, o, kind, th))
  {
    var r := Allocate(g, o, kind, th);
    AllocateCommon(g, o, kind, th);
    if g.phase == Propagate || g.phase == EnterAtomic {
      AllocateTri(g, o, kind, th);
    } else if g.phase == SweepAll {
      AllocatePrefix(g, r, o);
    }
  }

  /** The new object is before the part of `allgc` still to be swept. */
  lemma AllocatePrefix(g: Gc, r: Gc, o: Ref)
    requires SweptPrefix(g) && o !in g.color && r.allgc == [o] + g.allgc && r.color == g.color[o := g.white]
    requires r.white == g.white && r.sweepgc == g.sweepgc
    ensures SweptPrefix(r)
  {
    forall i | 0 <= i < |r.allgc| - Left(r) ensures r.allgc[i] in r.color && r.color[r.allgc[i]] == r.white {
      if i > 0 { assert r.allgc[i] == g.allgc[i - 1]; }
    }
  }

  lemma RootsChanged(g: Gc, r: Gc)
    requires Inv(g) && r == g.(globals := r.globals, running := r.running)
    requires forall x :: x in r.globals || x == r.running ==> x in Live(g)
    ensures Inv(r)
  {
    assert Live(r) == Live(g);
    forall x | Roots(r, x) ensures x in Live(r) {
      if x == r.main { assert Roots(g, x); }
    }
    if g.phase == Propagate || g.phase == EnterAtomic {
      assert GrayLists(r, []) == GrayLists(g, []);
    }
  }

  lemma RootsOpsInv(g: Gc, gs: seq<Ref>, th: Ref)
    requires Inv(g)
    ensures (forall x :: x in gs ==> Obtainable(g, x)) ==> Inv(g.(globals := gs))
    ensures Obtainable(g, th) ==> Inv(g.(running := th))
  {
    assert Roots(g, g.running);
    assert forall x :: x in g.globals ==> Roots(g, x);
    if forall x :: x in gs ==> Obtainable(g, x) {
      forall x | x in gs ensures x in Live(g) { ObtainableIsLive(g, x); }
      RootsChanged(g, g.(globals := gs));
    }
    if Obtainable(g, th) {
      ObtainableIsLive(g, th);
      RootsChanged(g, g.(running := th));
    }
  }

  /** The barriers' own assertion: a barrier is only ever taken while marking or sweeping. */
  lemma BarrierPhase(g: Gc, o: Ref, v: Option<Ref>)
    requires Inv(g) && NeedsBarrier(g, o, v)
    ensures g.phase == Propagate || g.phase == EnterAtomic || g.phase == SweepAll
  {
  }

  lemma StoredMentions(b: Object, body: Object, v: Option<Ref>, N: set<Ref>)
    requires FullyMarked(b, N) && (v.Some? ==> v.value in N)
    requires forall r: Ref :: Mentions(body, r) ==> Mentions(b, r) || v == Some(r)
    ensures FullyMarked(body, N)
  {
    forall r: Ref | Mentions(body, r) ensures r in N {
      if Mentions(b, r) && r !in b.refs {
        var e :| e in b.entries && e.Pair? && (e.key == Some(r) || e.val == Some(r));
      }
    }
    forall r | r in body.refs ensures r in N { assert Mentions(body, r); }
    forall e | e in body.entries && e.Pair? ensures OptMarked(e.key, N) && OptMarked(e.val, N) {
      if e.key.Some? { assert Mentions(body, e.key.value); }
      if e.val.Some? { assert Mentions(body, e.val.value); }
    }
  }

  /** After the store only the object written may be black and point to white. */
  lemma StoredTri(g: Gc, o: Ref, body: Object, v: Option<Ref>, back: bool)
    requires Inv(g) && StoreOk(g, o, body, v, back) && (g.phase == Propagate || g.phase == EnterAtomic)
    ensures Tri(Stored(g, o, body), {o}, [])
    ensures g.color[o] == Black ==> body.kind != Thread
    ensures g.color[o] == Black && (v.Some? ==> Marked(g, v.value)) ==> FullyMarked(body, Nonwhites(g.color))
  {
    hide Reachable, Mentions, ClosedHeap, NoDangling;
    var g1 := Stored(g, o, body);
    StoredCommon(g, o, body, v, back);
    StoredReady(g1);
    assert GrayLists(g1, []) == GrayLists(g, []);
    forall x | x in g1.heap && IsBlack(g1.color, x) && x !in {o}
      ensures FullyMarked(g1.heap[x], Nonwhites(g1.color))
    {
      assert FullyMarked(g.heap[x], Nonwhites(g.color));
    }
    if g.color[o] == Black && (v.Some? ==> Marked(g, v.value)) {
      StoredMentions(g.heap[o], body, v, Nonwhites(g.color));
    }
  }

  lemma UnguardedTri(g: Gc, o: Ref, body: Object, v: Option<Ref>, back: bool)
    requires Inv(g) && StoreOk(g, o, body, v, back) && (g.phase == Propagate || g.phase == EnterAtomic)
    requires !NeedsBarrier(Stored(g, o, body), o, v)
    ensures Tri(Stored(g, o, body), {}, [])
  {
    var g1 := Stored(g, o, body);
    StoredTri(g, o, body, v, back);
    StoredCommon(g, o, body, v, back);
    if g.color[o] == Black {
      WrittenDone(g1, o);
    } else {
      NotBlackDone(g1, o);
    }
  }

  lemma NotBlackDone(g: Gc, o: Ref)
    requires Tri(g, {o}, []) && !IsBlack(g.color, o)
    ensures Tri(g, {}, [])
  {
  }

  lemma WrittenDone(g: Gc, o: Ref)
    requires Tri(g, {o}, []) && o in g.heap && g.heap[o].kind != Thread
    requires FullyMarked(g.heap[o], Nonwhites(g.color))
    ensures Tri(g, {}, [])
  {
  }

  lemma ForwardDone(b: Object, body: Object, v: Option<Ref>, c: Colors, d: Colors)
    requires FullyMarked(b, Nonwhites(c)) && Darker(c, d) && (v.Some? ==> v.value in Nonwhites(d))
    requires forall r: Ref :: Mentions(body, r) ==> Mentions(b, r) || v == Some(r)
    ensures FullyMarked(body, Nonwhites(d))
  {
    FullyMarkedGrows(b, Nonwhites(c), Nonwhites(d));
    StoredMentions(b, body, v, Nonwhites(d));
  }

  lemma FullyMarkedGrows(b: Object, M: set<Ref>, N: set<Ref>)
    requires FullyMarked(b, M) && M <= N
    ensures FullyMarked(b, N)
  {
  }

  /** The backward barrier makes the black object gray again. */
  lemma BackTri(g: Gc, o: Ref)
    requires Tri(g, {o}, []) && IsBlack(g.color, o) && g.phase != Atomic
    ensures Tri(Barrier(g, o, o, true), {}, []) && Live(Barrier(g, o, o, true)) == Live(g)
    ensures Nonwhites(Barrier(g, o, o, true).color) == Nonwhites(g.color)
  {
    var r := Barrier(g, o, o, true);
    assert Nonwhites(r.color) == Nonwhites(g.color);
    assert WithWhite(r.color, OtherWhite(r.white)) == WithWhite(g.color, OtherWhite(g.white));
    assert multiset(r.grayagain) == multiset{o} + multiset(g.grayagain);
    LinkOneList(g, r, o, []);
    forall x | x in r.heap && IsBlack(r.color, x) ensures FullyMarked(r.heap[x], Nonwhites(r.color)) {
      assert FullyMarked(g.heap[x], Nonwhites(g.color));
    }
  }

  lemma ColorsOnly(g: Gc, r: Gc)
    requires CommonInv(g) && r == g.(color := r.color, grayagain := r.grayagain) && r.color.Keys == g.color.Keys
    requires Live(r) == Live(g)
    ensures CommonInv(r)
  {
    assert forall x :: Roots(r, x) ==> Roots(g, x);
  }

  /** In the sweep phase a barrier repaints an object that is still to be swept. */
  lemma SweepBarrierInv(g: Gc, o: Ref, v: Ref, back: bool)
    requires Inv(g) && g.phase == SweepAll && o in g.color && g.color[o] == Black
    ensures Inv(Barrier(g, o, v, back))
  {
    var r := Barrier(g, o, v, back);
    assert WithWhite(r.color, OtherWhite(r.white)) == WithWhite(g.color, OtherWhite(g.white));
    ColorsOnly(g, r);
  }

  lemma StoreInv(g: Gc, o: Ref, body: Object, v: Option<Ref>, back: bool)
    requires Inv(g) && StoreOk(g, o, body, v, back)
    ensures Inv(Store(g, o, body, v, back))
  {
    var g1, r := Stored(g, o, body), Store(g, o, body, v, back);
    StoredCommon(g, o, body, v, back);
    if g.phase == Propagate || g.phase == EnterAtomic {
      if !NeedsBarrier(g1, o, v) {
        UnguardedTri(g, o, body, v, back);
      } else if back {
        StoredTri(g, o, body, v, back);
        BackTri(g1, o);
        ColorsOnly(g1, r);
      } else {
        StoredTri(g, o, body, v, back);
        assert FullyMarked(g.heap[o], Nonwhites(g.color));
        ForwardDone(g.heap[o], body, v, g1.color, Mark(g1, v.value).color);
        MarkTri(g1, v.value, {o}, []);
        WrittenDone(r, o);
        MarkingCommon(g1, r);
      }
    } else {
      assert Inv(g1);
      if NeedsBarrier(g1, o, v) {
        BarrierPhase(g1, o, v);
        SweepBarrierInv(g1, o, v.value, back);
      }
    }
  }

  /** A string changes from the dead white to the current one; it mentions nothing. */
  lemma ReviveInv(g: Gc, s: Ref)
    requires Inv(g) && IsStr(g.heap, s)
    ensures Inv(Revived(g, s)) && Live(Revived(g, s)) == Live(g) + {s}
  {
    var r := Revived(g, s);
    assert Live(r) == Live(g) + {s};
    if IsDead(g, s) {
      forall x, y | x in Live(r) && Mentions(r.heap[x], y) ensures y in Live(r) {
        if x != s { assert Mentions(g.heap[x], y); }
      }
      assert forall x :: Roots(r, x) ==> Roots(g, x);
      NotDeadWhileMarking(g, s);
    }
  }

  /** Only the sweep meets dead objects. */
  lemma NotDeadWhileMarking(g: Gc, s: Ref)
    requires Inv(g) && IsDead(g, s)
    ensures g.phase == SweepAll
  {
    assert s in WithWhite(g.color, OtherWhite(g.white));
  }

  lemma InternInv(g: Gc, s: Ref, th: Ref)
    requires Inv(g) && Allowed(g, Intern(s, th))
    ensures Inv(Interned(g, s, th))
  {
    var g1, t := Revived(g, s), g.heap[th];
    var body := t.(refs := t.refs + [s]);
    ObtainableIsLive(g, th);
    ReviveInv(g, s);
    forall r: Ref | Mentions(body, r) ensures Mentions(t, r) || Some(s) == Some(r) { MentionsPushed(t, s, r); }
    StoreInv(g1, th, body, Some(s), false);
  }

  /** Every step of the system keeps the invariant. */
  lemma ApplyInv(g: Gc, op: Op)
    requires Inv(g) && Allowed(g, op)
    ensures Inv(Apply(g, op))
  {
    match op
    case Collect => SingleStepInv(g);
    case New(o, kind, th) => AllocateInv(g, o, kind, th);
    case Write(o, body, v, back) =>
      AllowedStore(g, o, body, v, back);
      StoreInv(g, o, body, v, back);
    case Intern(s, th) => InternInv(g, s, th);
    case SetGlobals(gs) => RootsOpsInv(g, gs, g.main);
    case Resume(th) => RootsOpsInv(g, [], th);
  }

  /** A set that is closed after object o changed was closed before, unless o is in it. */
  lemma ClosedBefore(g: Gc, r: Gc, o: Ref, S: set<Ref>)
    requires LiveSet(r, S) && o !in S && r.main == g.main && r.running == g.running && r.globals == g.globals
    requires forall x :: x in g.heap && x != o ==> x in r.heap && r.heap[x] == g.heap[x]
    requires o in g.heap ==> o in r.heap && r.heap[o].kind == g.heap[o].kind
    ensures LiveSet(g, S)
  {
    forall x | Roots(g, x) ensures x in S { assert Roots(r, x); }
    forall x | x in S && x in g.heap ensures ObjectClosed(g.heap, g.heap[x], S) {
      assert ObjectClosed(r.heap, r.heap[x], S);
      forall e | e in g.heap[x].entries && e.Pair? && KeyLive(g.heap, e.key, S) ensures KeyLive(r.heap, e.key, S) {}
    }
  }

  /** An object that was reachable is so when its own contents changed. */
  lemma StaysReachable(g: Gc, r: Gc, o: Ref)
    requires Reachable(g, o) && r.main == g.main && r.running == g.running && r.globals == g.globals
    requires forall x :: x in g.heap && x != o ==> x in r.heap && r.heap[x] == g.heap[x]
    requires o in g.heap ==> o in r.heap && r.heap[o].kind == g.heap[o].kind
    ensures Reachable(r, o)
  {
    forall S: set<Ref> | LiveSet(r, S) ensures o in S {
      if o !in S { ClosedBefore(g, r, o, S); }
    }
  }

  lemma RefsReachable(g: Gc, o: Ref)
    requires Reachable(g, o) && o in g.heap
    ensures forall x :: x in g.heap[o].refs ==> Reachable(g, x)
  {
    forall x | x in g.heap[o].refs ensures Reachable(g, x) {
      forall S: set<Ref> | LiveSet(g, S) ensures x in S { assert o in S; }
    }
  }

  /** The object of a step of the program has the contents it was given, no other object
      changed, and what a reachable object now refers to is reachable. */
  ghost predicate Written(g: Gc, r: Gc, o: Ref, body: Object) {
    && o in r.heap && r.heap[o] == body && r.heap.Keys >= g.heap.Keys
    && (forall x :: x in g.heap && x != o ==> r.heap[x] == g.heap[x])
    && (Reachable(g, o) ==> Reachable(r, o) && forall x :: x in body.refs ==> Reachable(r, x))
  }

  lemma WrittenAfter(g: Gc, r: Gc, o: Ref, body: Object)
    requires o in g.heap && body.kind == g.heap[o].kind && o in r.heap && r.heap[o] == body && r.heap.Keys >= g.heap.Keys
    requires r.main == g.main && r.running == g.running && r.globals == g.globals
    requires forall x :: x in g.heap && x != o ==> x in r.heap && r.heap[x] == g.heap[x]
    ensures Written(g, r, o, body)
  {
    if Reachable(g, o) {
      StaysReachable(g, r, o);
      RefsReachable(r, o);
    }
  }

  /** A store takes place, whatever its barrier does. */
  lemma WriteStores(g: Gc, o: Ref, body: Object, v: Option<Ref>, back: bool)
    requires Inv(g) && Allowed(g, Write(o, body, v, back))
    ensures Written(g, Apply(g, Write(o, body, v, back)), o, body)
    ensures Apply(g, Write(o, body, v, back)).heap.Keys == g.heap.Keys
  {
    AllowedStore(g, o, body, v, back);
    BarrierKeepsHeap(g, o, body, v, back);
    WrittenAfter(g, Apply(g, Write(o, body, v, back)), o, body);
  }

  lemma BarrierKeepsHeap(g: Gc, o: Ref, body: Object, v: Option<Ref>, back: bool)
    requires Inv(g) && StoreOk(g, o, body, v, back)
    ensures var r := Store(g, o, body, v, back);
            r.heap == g.heap[o := body] && r.main == g.main && r.running == g.running && r.globals == g.globals
  {
  }

  /** A string that was interned is on the stack. */
  lemma InternPushes(g: Gc, s: Ref, th: Ref)
    requires Inv(g) && Allowed(g, Intern(s, th))
    ensures var t := g.heap[th];
            Written(g, Apply(g, Intern(s, th)), th, t.(refs := t.refs + [s]))
    ensures Apply(g, Intern(s, th)).heap.Keys == g.heap.Keys
  {
    var t := g.heap[th];
    WrittenAfter(g, Apply(g, Intern(s, th)), th, t.(refs := t.refs + [s]));
  }

  /** A new object is empty, white, on the stack of its thread, and the only one there is more. */
  lemma NewPushes(g: Gc, o: Ref, kind: Kind, th: Ref)
    requires Inv(g) && Allowed(g, New(o, kind, th))
    ensures var t, r := g.heap[th], Apply(g, New(o, kind, th));
            && Written(g, r, th, t.(refs := t.refs + [o])) && r.heap.Keys == g.heap.Keys + {o}
            && r.heap[o] == Object(kind, [], []) && o in r.color && r.color[o] == r.white
            && (Reachable(g, th) ==> Reachable(r, o))
  {
    var t, r := g.heap[th], Apply(g, New(o, kind, th));
    WrittenAfter(g, r, th, t.(refs := t.refs + [o]));
    if Reachable(g, th) { assert o in t.(refs := t.refs + [o]).refs; }
  }
}
