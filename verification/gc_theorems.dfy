/** Safety of every interleaving, and exactness of a full collection. */
module GcTheorems {
  import opened Common
  import opened GcHeap
  import opened GcMark
  import opened GcTricolor
  import opened GcConverge
  import opened GcLeast
  import opened GcCycle
  import opened GcSafety
  import opened GcMutator

  /** The state lua_newstate leaves: the main thread, white, alone in `allgc`. */
  function Initial(main: Ref): Gc {
    Gc(Pause, White0, map[main := Object(Thread, [], [])], map[main := White0], [main], Null,
       [], [], [], [], main, main, [])
  }

  lemma InitialInv(main: Ref)
    ensures Inv(Initial(main))
  {
    var g := Initial(main);
    assert Live(g) == {main};
    forall o ensures multiset(g.allgc)[o] == if o in g.heap then 1 else 0 {
      assert multiset(g.allgc) == multiset{main};
    }
  }

  /** Every step of the run is one the program can take where it takes it. */
  ghost predicate ValidRun(g: Gc, ops: seq<Op>)
    requires Inv(g)
    decreases |ops|
  {
    ops == [] || (Allowed(g, ops[0]) && (ApplyInv(g, ops[0]); ValidRun(Apply(g, ops[0]), ops[1..])))
  }

  ghost function Execute(g: Gc, ops: seq<Op>): (r: Gc)
    requires Inv(g) && ValidRun(g, ops)
    decreases |ops|
  {
    if ops == [] then g else
    ApplyInv(g, ops[0]);
    Execute(Apply(g, ops[0]), ops[1..])
  }

  lemma {:induction false} ExecuteInv(g: Gc, ops: seq<Op>)
    requires Inv(g) && ValidRun(g, ops)
    ensures Inv(Execute(g, ops))
    decreases |ops|
  {
    hide Inv, Allowed, Apply;
    if ops != [] {
      ApplyInv(g, ops[0]);
      ExecuteInv(Apply(g, ops[0]), ops[1..]);
    }
  }

  /** The operations can be taken one after the other from a new state. */
  ghost predicate IsRun(main: Ref, ops: seq<Op>) {
    InitialInv(main);
    ValidRun(Initial(main), ops)
  }

  /** The state after a run from a new state. */
  ghost function After(main: Ref, ops: seq<Op>): Gc
    requires IsRun(main, ops)
  {
    InitialInv(main);
    Execute(Initial(main), ops)
  }

  /** In every interleaving of collector steps with the mutator, whatever is reachable at the
      end is in the heap and does not carry the dead white; while marking, no black object
      points to a white one. */
  lemma RunSafe(main: Ref, ops: seq<Op>, o: Ref)
    requires IsRun(main, ops)
    ensures var g := After(main, ops);
      (Reachable(g, o) ==> o in g.heap && !IsDead(g, o)) &&
      (g.phase == Propagate || g.phase == EnterAtomic ==> NoBlackToWhite(g, {}))
  {
    hide Execute, ValidRun;
    InitialInv(main);
    ExecuteInv(Initial(main), ops);
    var g := After(main, ops);
    if Reachable(g, o) { ReachableIsLive(g, o); }
  }

  /** What a collector step may do to the contents of an object: free the entries of weak keys
      that were not reachable, no more. */
  ghost predicate SameContents(g: Gc, b: Object, b': Object) {
    b'.kind == b.kind && b'.refs == b.refs && |b'.entries| == |b.entries| &&
    forall i :: 0 <= i < |b.entries| ==> KeptOrDead(g, b.entries[i], b'.entries[i])
  }

  ghost predicate KeptOrDead(g: Gc, e: Entry, e': Entry) {
    e' == e || (e'.Free? && e.Pair? && e.key.Some? && !Reachable(g, e.key.value))
  }

  lemma RestartHeap(g: Gc)
    requires Inv(g) && CanStep(g) && g.phase == Pause
    ensures LiveKept(g, Restart(g))
  {
    NoDeadReady(g);
    var g1 := ClearLists(g);
    GrowsTrans(g1, Mark(g1, g.main), Restart(g));
    MarkedLive(g1, Restart(g));
  }

  /** The heap changes only in these two ways in a step of the collector. */
  lemma StepHeap(g: Gc)
    requires Inv(g) && CanStep(g)
    ensures g.phase != EnterAtomic ==> LiveKept(g, SingleStep(g))
    ensures g.phase == EnterAtomic ==> LiveKept(AtomicPhase(g), SingleStep(g))
  {
    hide Restart, AtomicMark, SweepStep, EnterSweep, ClosedUnder;
    if g.phase == Pause {
      RestartHeap(g);
    } else if g.phase == Propagate && g.gray != [] {
      MarkedLive(g, SingleStep(g));
    } else if g.phase == EnterAtomic {
      AtomicMarkInv(g);
      FlipInv(AtomicMark(g));
      EnterSweepInv(AtomicPhase(g));
    } else if g.phase == SweepAll {
      SweepInv(g);
    } else {
      OnlyPhase(g, SingleStep(g));
    }
  }

  lemma MarkedLive(g: Gc, r: Gc)
    requires Grows(g, r) && WithWhite(g.color, OtherWhite(g.white)) == {}
    ensures LiveKept(g, r)
  {
    assert Live(r) == Live(g);
  }

  lemma KeptLiveSet(g: Gc, r: Gc, S: set<Ref>)
    requires NoDangling(g) && LiveKept(g, r) && r.color.Keys == r.heap.Keys
    ensures LiveSet(g, S) ==> LiveSet(r, S)
    ensures LiveSet(r, S) ==> LiveSet(g, S * Live(g))
  {
    assert forall x :: Roots(r, x) <==> Roots(g, x);
    if LiveSet(r, S) {
      var T := S * Live(g);
      forall x | x in T && x in g.heap ensures ObjectClosed(g.heap, g.heap[x], T) {
        LiveMentions(g, x);
        assert ObjectClosed(r.heap, r.heap[x], S);
      }
    }
    if LiveSet(g, S) {
      forall x | x in S && x in r.heap ensures ObjectClosed(r.heap, r.heap[x], S) {
        assert ObjectClosed(g.heap, g.heap[x], S);
      }
    }
  }

  lemma KeptReach(g: Gc, r: Gc, o: Ref)
    requires NoDangling(g) && LiveKept(g, r) && r.color.Keys == r.heap.Keys
    ensures Reachable(g, o) <==> Reachable(r, o)
  {
    if Reachable(g, o) {
      forall S: set<Ref> | LiveSet(r, S) ensures o in S {
        KeptLiveSet(g, r, S);
        assert o in S * Live(g);
      }
    }
    if Reachable(r, o) {
      forall S: set<Ref> | LiveSet(g, S) ensures o in S {
        KeptLiveSet(g, r, S);
      }
    }
  }

  /** Clearing the entries of unmarked keys changes no reachability. */
  lemma ClearedLiveSet(m: Gc, S: set<Ref>)
    requires InAtomic(m, []) && LiveSet(m, Nonwhites(m.color))
    ensures var a := m.(heap := ClearedHeap(m), white := OtherWhite(m.white));
      (LiveSet(m, S) ==> LiveSet(a, S)) && (LiveSet(a, S) ==> LiveSet(m, S * Nonwhites(m.color)))
  {
    var a := m.(heap := ClearedHeap(m), white := OtherWhite(m.white));
    assert forall x :: Roots(a, x) <==> Roots(m, x);
    forall x | x in m.heap ensures x in a.heap && a.heap[x].kind == m.heap[x].kind { ClearedHeapAt(m, x); }
    if LiveSet(m, S) {
      forall x | x in S && x in a.heap ensures ObjectClosed(a.heap, a.heap[x], S) {
        ClearedHeapAt(m, x);
        assert ObjectClosed(m.heap, m.heap[x], S);
        ClearedSubset(m, x);
      }
    }
    if LiveSet(a, S) {
      forall x | x in S * Nonwhites(m.color) && x in m.heap
        ensures ObjectClosed(m.heap, m.heap[x], S * Nonwhites(m.color))
      {
        UnclearedClosed(m, x, S);
      }
    }
  }

  lemma ClearedSubset(m: Gc, x: Ref)
    requires x in m.heap && x in ClearedHeap(m)
    ensures forall e :: e in ClearedHeap(m)[x].entries && e.Pair? ==> e in m.heap[x].entries
  {
    ClearedHeapAt(m, x);
  }

  lemma UnclearedClosed(m: Gc, x: Ref, S: set<Ref>)
    requires InAtomic(m, []) && ClosedUnder(m.heap, Nonwhites(m.color))
    requires x in S * Nonwhites(m.color) && x in m.heap && x in ClearedHeap(m)
    requires ObjectClosed(ClearedHeap(m), ClearedHeap(m)[x], S)
    ensures ObjectClosed(m.heap, m.heap[x], S * Nonwhites(m.color))
  {
    ClearedHeapAt(m, x);
    var N, b := Nonwhites(m.color), m.heap[x];
    assert ObjectClosed(m.heap, b, N);
    forall e | e in b.entries && e.Pair? && KeyLive(m.heap, e.key, S * N)
      ensures (e.key.Some? ==> e.key.value in S * N) && (e.val.Some? ==> e.val.value in S * N)
    {
      assert KeyLive(m.heap, e.key, N);
      assert !ClearedEntry(m.heap, m.color, e);
      var i :| 0 <= i < |b.entries| && b.entries[i] == e;
      assert ClearedHeap(m)[x].entries[i] == e;
      if e.key.Some? && IsStr(m.heap, e.key.value) { ClearedHeapAt(m, e.key.value); }
      assert KeyLive(ClearedHeap(m), e.key, S);
    }
  }

  lemma ClearedReach(m: Gc, o: Ref)
    requires InAtomic(m, []) && LiveSet(m, Nonwhites(m.color))
    ensures Reachable(m, o) <==> Reachable(m.(heap := ClearedHeap(m), white := OtherWhite(m.white)), o)
  {
    var a := m.(heap := ClearedHeap(m), white := OtherWhite(m.white));
    if Reachable(m, o) {
      forall S: set<Ref> | LiveSet(a, S) ensures o in S {
        ClearedLiveSet(m, S);
        assert o in S * Nonwhites(m.color);
      }
    }
    if Reachable(a, o) {
      forall S: set<Ref> | LiveSet(m, S) ensures o in S { ClearedLiveSet(m, S); }
    }
  }

  lemma SameGraphReach(g: Gc, r: Gc, o: Ref)
    requires r.heap == g.heap && r.main == g.main && r.running == g.running && r.globals == g.globals
    ensures Reachable(g, o) <==> Reachable(r, o)
  {
    assert forall x :: Roots(r, x) <==> Roots(g, x);
    assert forall S: set<Ref> :: LiveSet(g, S) <==> LiveSet(r, S);
  }

  /** A step of the collector changes nobody's reachability. */
  lemma StepReach(g: Gc, o: Ref)
    requires Inv(g) && CanStep(g)
    ensures Reachable(g, o) <==> Reachable(SingleStep(g), o)
  {
    StepHeap(g);
    SingleStepInv(g);
    if g.phase == EnterAtomic {
      AtomicMarkInv(g);
      FlipInv(AtomicMark(g));
      SameGraphReach(g, AtomicMark(g), o);
      ClearedReach(AtomicMark(g), o);
      KeptReach(AtomicPhase(g), SingleStep(g), o);
    } else {
      KeptReach(g, SingleStep(g), o);
    }
  }

  /** No step frees or changes a reachable object; an ephemeron table may lose the entries
      whose keys nothing reaches. */
  lemma StepKeepsReachable(g: Gc, o: Ref)
    requires Inv(g) && CanStep(g) && Reachable(g, o)
    ensures o in g.heap && o in SingleStep(g).heap && SameContents(g, g.heap[o], SingleStep(g).heap[o])
  {
    StepReach(g, o);
    SingleStepInv(g);
    ReachableIsLive(g, o);
    ReachableIsLive(SingleStep(g), o);
    StepHeap(g);
    if g.phase == EnterAtomic { AtomicKeeps(g, o); }
  }

  lemma AtomicKeeps(g: Gc, o: Ref)
    requires Inv(g) && g.phase == EnterAtomic && StepReady(g) && o in g.heap
    ensures o in AtomicPhase(g).heap && SameContents(g, g.heap[o], AtomicPhase(g).heap[o])
  {
    var m := AtomicMark(g);
    AtomicMarkInv(g);
    ClearedHeapAt(m, o);
    forall i | 0 <= i < |g.heap[o].entries| && ClearedEntry(m.heap, m.color, g.heap[o].entries[i])
      ensures !Reachable(g, g.heap[o].entries[i].key.value)
    {
      SameGraphReach(g, m, g.heap[o].entries[i].key.value);
    }
  }
}
