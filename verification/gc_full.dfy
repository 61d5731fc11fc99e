/** luaC_runtilstate and fullinc: a full collection terminates and leaves exactly the
    reachable objects. */
module GcFull {
  import opened Common
  import opened GcHeap
  import opened GcMark
  import opened GcTricolor
  import opened GcConverge
  import opened GcLeast
  import opened GcCycle
  import opened GcSafety
  import opened GcTheorems

  /** The phases in the order of a cycle. */
  function Rank(p: Phase): nat {
    match p
    case Propagate => 0
    case EnterAtomic => 1
    case Atomic => 2
    case SweepAll => 3
    case SweepFin => 4
    case SweepToBeFnz => 5
    case SweepEnd => 6
    case CallFin => 7
    case Pause => 8
  }

  /** How many phase changes away the target is. */
  function Distance(p: Phase, target: Phase): nat { (Rank(target) - Rank(p)) % 9 }

  /** The work left in the current phase. */
  ghost function PhaseWork(g: Gc): nat {
    if g.phase == Propagate then Work(g)
    else match g.sweepgc case Null => 0 case At(left) => left + 1
  }

  function NextPhase(p: Phase): Phase {
    match p
    case Propagate => EnterAtomic
    case EnterAtomic => SweepAll
    case Atomic => SweepAll
    case SweepAll => SweepFin
    case SweepFin => SweepToBeFnz
    case SweepToBeFnz => SweepEnd
    case SweepEnd => CallFin
    case CallFin => Pause
    case Pause => Propagate
  }

  lemma NextIsCloser(p: Phase, target: Phase)
    requires p != target && target != Atomic && target != EnterAtomic
    ensures Distance(NextPhase(p), target) < Distance(p, target)
  {
  }

  /** A step goes on to the next phase or does some of the work of this one. */
  lemma StepMoves(g: Gc)
    requires Inv(g) && CanStep(g)
    ensures SingleStep(g).phase == NextPhase(g.phase) ||
            (SingleStep(g).phase == g.phase && PhaseWork(SingleStep(g)) < PhaseWork(g))
  {
    if g.phase == EnterAtomic {
      EnterSweepPhase(g);
    } else if g.phase == SweepAll {
      SweepProgress(g);
    } else if g.phase == Propagate && g.gray != [] {
      PropagateProgress(g);
    } else if g.phase == Pause {
      RestartPhase(g);
    }
  }

  lemma StepProgress(g: Gc, target: Phase)
    requires Inv(g) && CanStep(g) && g.phase != target && target != Atomic && target != EnterAtomic
    ensures var r := SingleStep(g);
      Distance(r.phase, target) < Distance(g.phase, target) ||
      (r.phase == g.phase && PhaseWork(r) < PhaseWork(g))
  {
    StepMoves(g);
    NextIsCloser(g.phase, target);
  }

  lemma RestartPhase(g: Gc)
    requires CanStep(g) && g.phase == Pause
    ensures SingleStep(g).phase == Propagate
  {
  }

  lemma PropagateProgress(g: Gc)
    requires CanStep(g) && g.phase == Propagate && g.gray != []
    ensures SingleStep(g).phase == Propagate && Work(SingleStep(g)) < Work(g)
  {
  }

  lemma SweepProgress(g: Gc)
    requires CanStep(g) && g.phase == SweepAll
    ensures g.sweepgc == Null ==> SingleStep(g).phase == SweepFin
    ensures g.sweepgc.At? ==> SingleStep(g).phase == SweepAll && PhaseWork(SingleStep(g)) < PhaseWork(g)
  {
    if g.sweepgc.At? { SweepListShorter(g, g.sweepgc.left, GCSWEEPMAX); }
  }

  lemma EnterSweepPhase(g: Gc)
    requires Inv(g) && g.phase == EnterAtomic && CanStep(g)
    ensures SingleStep(g).phase == SweepAll
  {
    AtomicInv(g);
  }

  lemma {:induction false} SweepListShorter(g: Gc, left: nat, n: nat)
    requires left <= |g.allgc|
    ensures SweepList(g, left, n).0.phase == g.phase
    ensures SweepList(g, left, n).1 <= left
    decreases left
  {
    if left != 0 && n != 0 { SweepListShorter(SweepOne(g, left), left - 1, n - 1); }
  }

  /** luaC_runtilstate. */
  ghost function RunTil(g: Gc, target: Phase): (r: Gc)
    requires Inv(g) && target != Atomic && target != EnterAtomic
    ensures Inv(r) && r.phase == target
    decreases Distance(g.phase, target), PhaseWork(g)
  {
    if g.phase == target then g else
    SingleStepInv(g);
    StepProgress(g, target);
    RunTil(SingleStep(g), target)
  }

  /** fullinc. */
  ghost function FullInc(g: Gc): (r: Gc)
    requires Inv(g)
    ensures Inv(r) && r.phase == Pause
  {
    EnterSweepInv(g);
    var g1 := if KeepInvariant(g.phase) then EnterSweep(g) else g;
    RunTil(RunTil(RunTil(g1, Pause), CallFin), Pause)
  }

  /** What a cycle run without the mutator has marked, or has not yet swept away, is
      reachable. */
  ghost predicate OnlyReachable(g: Gc) {
    forall o :: o in (if KeepInvariant(g.phase) then Nonwhites(g.color) else Live(g)) ==> Reachable(g, o)
  }

  lemma RestartWithin(g: Gc, S: set<Ref>)
    requires Inv(g) && CanStep(g) && g.phase == Pause && LiveSet(g, S)
    ensures Nonwhites(Restart(g).color) <= S
  {
    hide Mark, MarkAll, Reachable;
    var g1 := ClearLists(g);
    assert Roots(g, g.main) && forall x :: x in g.globals ==> Roots(g, x);
    assert Within(g1, S);
    MarkWithin(g1, g.main, S);
    MarkAllWithin(Mark(g1, g.main), g.globals, S);
  }

  lemma RestartOnlyReachable(g: Gc)
    requires Inv(g) && CanStep(g) && g.phase == Pause
    ensures OnlyReachable(SingleStep(g))
  {
    RestartPhase(g);
    forall o | o in Nonwhites(Restart(g).color) ensures Reachable(SingleStep(g), o) {
      forall S: set<Ref> | LiveSet(g, S) ensures o in S { RestartWithin(g, S); }
      StepReach(g, o);
    }
  }

  lemma MarkedReachable(g: Gc, S: set<Ref>)
    requires LiveSet(g, S) && forall o :: o in Nonwhites(g.color) ==> Reachable(g, o)
    ensures Within(g, S)
  {
  }

  lemma PropagateOnlyReachable(g: Gc)
    requires Inv(g) && CanStep(g) && g.phase == Propagate && g.gray != [] && OnlyReachable(g)
    ensures OnlyReachable(SingleStep(g))
  {
    PropagateProgress(g);
    forall o | o in Nonwhites(PropagateMark(g).color) ensures Reachable(SingleStep(g), o) {
      forall S: set<Ref> | LiveSet(g, S) ensures o in S {
        MarkedReachable(g, S);
        PropagateMarkWithin(g, S);
      }
      StepReach(g, o);
    }
  }

  /** The whole of the marking in `atomic` stays within the reachable objects. */
  lemma AtomicMarkWithin(g: Gc, S: set<Ref>)
    requires StepReady(g) && Within(g, S) && LiveSet(g, S)
    ensures Nonwhites(AtomicMark(g).color) <= S
  {
    var g1 := AtomicStart(g);
    assert Roots(g, g.running) && forall x :: x in g.globals ==> Roots(g, x);
    AtomicRootsWithin(g1, S);
    var g3 := AtomicRoots(g1);
    AgainWithin(g3, g.grayagain, S);
    ConvergeTwiceWithin(AtomicAgain(g3, g.grayagain), S);
  }

  lemma AtomicRootsWithin(g: Gc, S: set<Ref>)
    requires Ready(g) && ListsOk(g) && g.running in g.heap && (forall x :: x in g.globals ==> x in g.heap)
    requires Within(g, S) && g.running in S && forall x :: x in g.globals ==> x in S
    ensures Within(AtomicRoots(g), S)
  {
    MarkWithin(g, g.running, S);
    var g1 := Mark(g, g.running);
    MarkAllWithin(g1, g.globals, S);
    PropagateAllWithin(MarkAll(g1, g.globals), S);
  }

  lemma AgainWithin(g: Gc, again: seq<Ref>, S: set<Ref>)
    requires Ready(g) && ListsOk(g) && AllMarked(again, g.color) && Within(g, S)
    ensures Within(AtomicAgain(g, again), S)
  {
    PropagateAllWithin(g.(gray := again), S);
  }

  lemma ConvergeTwiceWithin(g: Gc, S: set<Ref>)
    requires Ready(g) && ListsOk(g) && g.gray == [] && Within(g, S)
    ensures Within(ConvergeTwice(g), S)
  {
    ConvergeWithin(g, false, S);
    ConvergeWithin(Converge(g, false), false, S);
  }

  lemma AtomicOnlyReachable(g: Gc)
    requires Inv(g) && CanStep(g) && g.phase == EnterAtomic && OnlyReachable(g)
    ensures OnlyReachable(SingleStep(g))
  {
    hide LiveSet, Inv, AtomicMark, SingleStep;
    InvCanStep(g);
    AtomicInv(g);
    forall o | o in Nonwhites(AtomicMark(g).color) ensures Reachable(SingleStep(g), o) {
      forall S: set<Ref> | LiveSet(g, S) ensures o in S {
        MarkedReachable(g, S);
        AtomicMarkWithin(g, S);
      }
      StepReach(g, o);
    }
  }

  lemma SweepOnlyReachable(g: Gc)
    requires Inv(g) && CanStep(g) && !KeepInvariant(g.phase) && g.phase != Pause && OnlyReachable(g)
    ensures OnlyReachable(SingleStep(g))
  {
    StepHeap(g);
    SingleStepInv(g);
    SweepPhases(g);
    forall o | o in Live(SingleStep(g)) ensures Reachable(SingleStep(g), o) { StepReach(g, o); }
  }

  lemma SweepPhases(g: Gc)
    requires Inv(g) && CanStep(g) && !KeepInvariant(g.phase) && g.phase != Pause
    ensures !KeepInvariant(SingleStep(g).phase)
  {
    if g.phase == SweepAll && g.sweepgc.At? { SweepListShorter(g, g.sweepgc.left, GCSWEEPMAX); }
  }

  lemma StepOnlyReachable(g: Gc)
    requires Inv(g) && CanStep(g) && (g.phase == Pause || OnlyReachable(g))
    ensures OnlyReachable(SingleStep(g))
  {
    if g.phase == Pause {
      RestartOnlyReachable(g);
    } else if g.phase == EnterAtomic {
      AtomicOnlyReachable(g);
    } else if g.phase == Propagate && g.gray != [] {
      PropagateOnlyReachable(g);
    } else if g.phase == Propagate {
      forall o | o in Nonwhites(g.color) ensures Reachable(SingleStep(g), o) { StepReach(g, o); }
    } else {
      SweepOnlyReachable(g);
    }
  }

  lemma {:induction false} RunTilReach(g: Gc, target: Phase, o: Ref)
    requires Inv(g) && target != Atomic && target != EnterAtomic
    ensures Reachable(g, o) <==> Reachable(RunTil(g, target), o)
    decreases Distance(g.phase, target), PhaseWork(g)
  {
    hide Inv, Reachable, SingleStep, PhaseWork, Distance, CanStep;
    if g.phase != target {
      SingleStepInv(g);
      StepProgress(g, target);
      StepReach(g, o);
      RunTilReach(SingleStep(g), target, o);
    }
  }

  lemma {:induction false} RunTilOnlyReachable(g: Gc, target: Phase)
    requires Inv(g) && target != Atomic && target != EnterAtomic
    requires OnlyReachable(g) || (g.phase == Pause && target != Pause)
    ensures OnlyReachable(RunTil(g, target))
    decreases Distance(g.phase, target), PhaseWork(g)
  {
    hide Reachable, SingleStep, PhaseWork, Distance;
    if g.phase != target {
      SingleStepInv(g);
      StepProgress(g, target);
      StepOnlyReachable(g);
      RunTilOnlyReachable(SingleStep(g), target);
    }
  }

  lemma EnterSweepReach(g: Gc, o: Ref)
    requires Inv(g)
    ensures Reachable(g, o) <==> Reachable(EnterSweep(g), o)
  {
    EnterSweepInv(g);
    KeptReach(g, EnterSweep(g), o);
  }

  lemma PauseExact(r: Gc, o: Ref)
    requires Inv(r) && r.phase == Pause && OnlyReachable(r)
    ensures o in r.heap <==> Reachable(r, o)
  {
    NoDeadReady(r);
    if Reachable(r, o) { ReachableIsLive(r, o); }
  }

  /** The second half of fullinc, from the pause through a whole cycle. */
  lemma CycleExact(g: Gc, o: Ref)
    requires Inv(g) && g.phase == Pause
    ensures var r := RunTil(RunTil(g, CallFin), Pause);
      (o in r.heap <==> Reachable(g, o)) && (Reachable(r, o) <==> Reachable(g, o))
  {
    var g1 := RunTil(g, CallFin);
    RunTilReach(g, CallFin, o);
    RunTilReach(g1, Pause, o);
    RunTilOnlyReachable(g, CallFin);
    RunTilOnlyReachable(g1, Pause);
    PauseExact(RunTil(g1, Pause), o);
  }

  /** A full collection, started in any state the collector can be in, ends in the pause with
      exactly the objects that were reachable when it started. */
  lemma FullCollectionExact(g: Gc, o: Ref)
    requires Inv(g)
    ensures FullInc(g).phase == Pause
    ensures o in FullInc(g).heap <==> Reachable(g, o)
    ensures Reachable(FullInc(g), o) <==> Reachable(g, o)
  {
    EnterSweepInv(g);
    EnterSweepReach(g, o);
    var g1 := if KeepInvariant(g.phase) then EnterSweep(g) else g;
    RunTilReach(g1, Pause, o);
    CycleExact(RunTil(g1, Pause), o);
  }
}
