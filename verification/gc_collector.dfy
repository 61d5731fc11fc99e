/** The collector as the program runs it: one global state whose fields the steps update in
    place. Every method is tied to the function of the same step that the proofs are about. */
module GcCollector {
  import opened Common
  import opened GcHeap
  import opened GcMark
  import opened GcTricolor
  import opened GcConverge
  import opened GcCycle
  import opened GcSafety
  import opened GcMutator
  import opened GcTheorems
  import opened GcFull

  class Collector {
    var phase: Phase
    var white: Color
    var heap: map<Ref, Object>
    var color: Colors
    var allgc: seq<Ref>
    var sweepgc: SweepPtr
    var gray: seq<Ref>
    var grayagain: seq<Ref>
    var ephemeron: seq<Ref>
    var allweak: seq<Ref>
    var main: Ref
    var running: Ref
    var globals: seq<Ref>

    ghost function View(): Gc
      reads this
    {
      Gc(phase, white, heap, color, allgc, sweepgc, gray, grayagain, ephemeron, allweak, main, running, globals)
    }

    constructor (mainThread: Ref)
      ensures View() == Initial(mainThread) && Inv(View())
    {
      phase, white, sweepgc := Pause, White0, Null;
      heap, color := map[mainThread := Object(Thread, [], [])], map[mainThread := White0];
      allgc, gray, grayagain, ephemeron, allweak := [mainThread], [], [], [], [];
      main, running, globals := mainThread, mainThread, [];
      new;
      InitialInv(mainThread);
    }

    /** markobject and reallymarkobject. */
    method MarkObject(o: Ref)
      requires Ready(View()) && o in heap
      modifies this`color, this`gray
      ensures View() == Mark(old(View()), o)
      decreases |Whites(color)|, 0
    {
      if !IsWhite(color[o]) { return; }
      match heap[o].kind {
        case Str =>
          color := color[o := Black];
        case Cell =>
          CellRefs(View(), o);
          assert Blacken(View(), o) == View().(color := color[o := Black]);
          color := color[o := Black];
          MarkRefs(heap[o].refs);
        case _ =>
          color, gray := color[o := Gray], [o] + gray;
      }
    }

    /** The loops that mark every reference of an object. */
    method MarkRefs(rs: seq<Ref>)
      requires Ready(View()) && forall x :: x in rs ==> x in heap
      modifies this`color, this`gray
      ensures View() == MarkAll(old(View()), rs)
      decreases |Whites(color)|, 1
    {
      hide MarkAll, Mark, ClosedHeap, Grows, Darker;
      var i := 0;
      assert rs[0..] == rs;
      while i < |rs|
        invariant 0 <= i <= |rs| && Ready(View()) && heap == old(heap) && |Whites(color)| <= |Whites(old(color))|
        invariant MarkAll(View(), rs[i..]) == MarkAll(old(View()), rs)
        decreases |rs| - i
      {
        MarkAllStep(View(), rs, i);
        MarkObject(rs[i]);
        i := i + 1;
      }
      MarkAllEnd(View(), rs[i..]);
    }

    /** `iscleared` on a key: marks strings, which are never weak. The flags are the locals of
        the caller. */
    method IsCleared(k: Option<Ref>, ghost m: bool, ghost c: bool, ghost w: bool) returns (cleared: bool)
      requires Ready(View()) && OptIn(heap, k)
      modifies this`color, this`gray
      ensures Trav(View(), m, c, w) == VisitKey(Trav(old(View()), m, c, w), k)
      ensures cleared == (k.Some? && IsWhite(color[k.value]))
    {
      if k == None { return false; }
      if heap[k.value].kind == Str {
        MarkObject(k.value);
        return false;
      }
      return IsWhite(color[k.value]);
    }

    /** The two outcomes of the test on the key of an entry. */
    method VisitValue(cleared: bool, ghost k: Option<Ref>, v: Option<Ref>, m: bool, c: bool, w: bool)
      returns (marked: bool, hasclears: bool, hasww: bool)
      requires Ready(View()) && OptIn(heap, k) && OptIn(heap, v)
      requires cleared == (k.Some? && IsWhite(color[k.value]))
      modifies this`color, this`gray
      ensures Trav(View(), marked, hasclears, hasww) == VisitPair(Trav(old(View()), m, c, w), k, v)
    {
      marked, hasclears, hasww := m, c, w;
      if cleared {
        hasclears := true;
        if v.Some? && IsWhite(color[v.value]) { hasww := true; }
      } else if v.Some? && IsWhite(color[v.value]) {
        marked := true;
        MarkObject(v.value);
      }
    }

    /** traverseephemeron; the table was painted black by the caller. */
    method TraverseEphemeronTable(h: Ref, inv: bool) returns (marked: bool)
      requires Ready(View()) && h in heap && Marked(View(), h)
      modifies this`color, this`gray, this`grayagain, this`ephemeron, this`allweak
      ensures (View(), marked) == TraverseEphemeron(old(View()), h, inv)
    {
      ObjectRefs(View(), h);
      VisitRefsFlags(Trav(View(), false, false, false), heap[h].refs);
      marked := VisitStrong(heap[h].refs);
      var hasclears, hasww;
      marked, hasclears, hasww := VisitHash(heap[h].entries, inv, marked);
      RelinkTable(h, hasclears, hasww, marked);
    }

    /** The end of traverseephemeron: link the table into the proper list. */
    method RelinkTable(h: Ref, hasclears: bool, hasww: bool, ghost marked: bool)
      requires Marked(View(), h)
      modifies this`color, this`grayagain, this`ephemeron, this`allweak
      ensures View() == Relink(Trav(old(View()), marked, hasclears, hasww), h)
    {
      if phase == Propagate {
        color, grayagain := color[h := Gray], [h] + grayagain;
      } else if hasww {
        color, ephemeron := color[h := Gray], [h] + ephemeron;
      } else if hasclears {
        color, allweak := color[h := Gray], [h] + allweak;
      }
    }

    /** The loop over the array part. */
    method VisitStrong(rs: seq<Ref>) returns (marked: bool)
      requires Ready(View()) && forall x :: x in rs ==> x in heap
      modifies this`color, this`gray
      ensures Grows(old(View()), View())
      ensures var t := VisitRefs(Trav(old(View()), false, false, false), rs); View() == t.g && marked == t.marked
    {
      marked := false;
      var i := 0;
      while i < |rs|
        invariant 0 <= i <= |rs| && Ready(View()) && heap == old(heap)
        invariant VisitRefs(Trav(View(), marked, false, false), rs[i..]) ==
                  VisitRefs(Trav(old(View()), false, false, false), rs)
      {
        if IsWhite(color[rs[i]]) {
          marked := true;
          MarkObject(rs[i]);
        }
        i := i + 1;
      }
    }

    /** One hash entry. */
    method VisitOne(e: Entry, m: bool, c: bool, w: bool) returns (marked: bool, hasclears: bool, hasww: bool)
      requires Ready(View()) && (e.Pair? ==> OptIn(heap, e.key) && OptIn(heap, e.val))
      modifies this`color, this`gray
      ensures Trav(View(), marked, hasclears, hasww) == VisitEntry(Trav(old(View()), m, c, w), e)
    {
      marked, hasclears, hasww := m, c, w;
      if e.Pair? {
        var cleared := IsCleared(e.key, m, c, w);
        marked, hasclears, hasww := VisitValue(cleared, e.key, e.val, m, c, w);
      }
    }

    /** The loop over the hash part, backwards when `inv`. */
    method VisitHash(es: seq<Entry>, inv: bool, m: bool) returns (marked: bool, hasclears: bool, hasww: bool)
      requires Ready(View()) && EntriesIn(heap, es)
      modifies this`color, this`gray
      ensures Trav(View(), marked, hasclears, hasww) ==
              VisitEntries(Trav(old(View()), m, false, false), InOrder(es, inv))
    {
      marked, hasclears, hasww := m, false, false;
      ghost var order := InOrder(es, inv);
      var i := 0;
      while i < |es|
        invariant 0 <= i <= |es| == |order| && Ready(View()) && heap == old(heap) && EntriesIn(heap, order[i..])
        invariant VisitEntries(Trav(View(), marked, hasclears, hasww), order[i..]) ==
                  VisitEntries(Trav(old(View()), m, false, false), order)
      {
        InOrderAt(es, inv, i);
        assert order[i] == order[i..][0] && order[i..][1..] == order[i + 1..];
        marked, hasclears, hasww := VisitOne(es[if inv then |es| - 1 - i else i], marked, hasclears, hasww);
        i := i + 1;
      }
    }
  
    /** propagatemark. */
    method PropagateOne()
      requires Ready(View()) && gray != [] && ListsOk(View())
      modifies this`color, this`gray, this`grayagain, this`ephemeron, this`allweak
      ensures View() == PropagateMark(old(View()))
    {
      var o := gray[0];
      ghost var g1 := PopGray(View());
      color, gray := color[o := Black], gray[1..];
      assert View() == g1;
      TraverseObject(o);
    }

    /** The switch of propagatemark on the kind of the object. */
    method TraverseObject(o: Ref)
      requires Ready(View()) && Marked(View(), o)
      modifies this`color, this`gray, this`grayagain, this`ephemeron, this`allweak
      ensures View() == Traverse(old(View()), o)
    {
      hide TraverseEphemeron, Darker, MarkAll, ClosedHeap;
      CellRefs(View(), o);
      if heap[o].kind == Ephemeron {
        var _ := TraverseEphemeronTable(o, false);
      } else {
        if heap[o].kind == Thread && phase == Propagate {
          ghost var g1 := LinkGrayAgain(View(), o);
          color, grayagain := color[o := Gray], [o] + grayagain;
          assert View() == g1;
        }
        MarkRefs(heap[o].refs);
      }
    }

    /** propagateall. */
    method PropagateRest()
      requires Ready(View()) && ListsOk(View())
      modifies this`color, this`gray, this`grayagain, this`ephemeron, this`allweak
      ensures View() == PropagateAll(old(View()))
    {
      while gray != []
        invariant Ready(View()) && ListsOk(View())
        invariant PropagateAll(View()) == PropagateAll(old(View()))
        decreases Work(View())
      {
        PropagateOne();
      }
    }

    /** The body of the inner loop of convergeephemerons. */
    method ConvergeTable(h: Ref, dir: bool) returns (marked: bool)
      requires Ready(View()) && ListsOk(View()) && gray == [] && Marked(View(), h)
      modifies this`color, this`gray, this`grayagain, this`ephemeron, this`allweak
      ensures (View(), marked) == PassStep(old(View()), h, dir)
    {
      ghost var g1 := Blacken(View(), h);
      color := color[h := Black];
      assert View() == g1;
      marked := TraverseEphemeronTable(h, dir);
      if marked { PropagateRest(); }
    }

    /** One iteration of the inner loop of convergeephemerons. */
    method ConvergeNext(ghost g0: Gc, ghost pend: seq<Ref>, dir: bool, next: seq<Ref>, changed: bool)
      returns (changed': bool)
      requires Ready(g0) && ListsOk(g0) && g0.gray == [] && AllMarked(pend, g0.color)
      requires InPass(g0, pend, dir, View(), next, changed) && next != []
      modifies this`color, this`gray, this`grayagain, this`ephemeron, this`allweak
      ensures InPass(g0, pend, dir, View(), next[1..], changed')
    {
      InPassHead(g0, pend, dir, View(), next, changed);
      InPassStep(g0, pend, dir, View(), next, changed);
      var marked := ConvergeTable(next[0], dir);
      changed' := changed || marked;
    }

    /** The inner loop of convergeephemerons. */
    method ConvergeOnce(pend: seq<Ref>, dir: bool) returns (changed: bool)
      requires Ready(View()) && ListsOk(View()) && gray == [] && AllMarked(pend, color)
      modifies this`color, this`gray, this`grayagain, this`ephemeron, this`allweak
      ensures (View(), changed) == ConvergePass(old(View()), pend, dir)
    {
      hide ConvergePass, Darker, ClosedHeap, AllMarked;
      changed := false;
      var next := pend;
      ghost var g0 := View();
      while next != []
        invariant InPass(g0, pend, dir, View(), next, changed)
        decreases |next|
      {
        changed := ConvergeNext(g0, pend, dir, next, changed);
        next := next[1..];
      }
      InPassEnd(g0, pend, dir, View(), changed);
    }

    /** One round: take the list, which is rebuilt while it is traversed. */
    method ConvergeRound(dir: bool) returns (changed: bool)
      requires Ready(View()) && gray == []
      requires ListsOk(View().(ephemeron := [])) && AllMarked(ephemeron, color)
      modifies this`color, this`gray, this`grayagain, this`ephemeron, this`allweak
      ensures (View(), changed) == ConvergePass(old(View()).(ephemeron := []), old(ephemeron), dir)
    {
      var pend := ephemeron;
      ephemeron := [];
      changed := ConvergeOnce(pend, dir);
    }

    /** convergeephemerons. */
    method ConvergeTables()
      requires Ready(View()) && ListsOk(View()) && gray == []
      modifies this`color, this`gray, this`grayagain, this`ephemeron, this`allweak
      ensures View() == Converge(old(View()), false)
    {
      var changed, dir := true, false;
      while changed
        invariant InConverge(old(View()), View(), dir, changed)
        decreases changed, |Whites(color)|
      {
        InConvergeStep(old(View()), View(), dir);
        changed := ConvergeRound(dir);
        dir := !dir;
      }
    }

    /** The loop of clearbykeys over the entries of one table. */
    method ClearTableEntries(es: seq<Entry>) returns (r: seq<Entry>)
      requires EntriesIn(heap, es) && color.Keys == heap.Keys
      ensures r == ClearEntries(heap, color, es)
    {
      r := [];
      var i := 0;
      while i < |es|
        invariant 0 <= i <= |es| && |r| == i
        invariant forall k :: 0 <= k < i ==> r[k] == if ClearedEntry(heap, color, es[k]) then Free else es[k]
      {
        var e := es[i];
        assert e in es;
        if e.Pair? && e.key.Some? && heap[e.key.value].kind != Str && IsWhite(color[e.key.value]) {
          e := Free;
        }
        r, i := r + [e], i + 1;
      }
    }

    /** clearbykeys on a list of tables. */
    method ClearTables(hs: seq<Ref>)
      requires color.Keys == heap.Keys && forall h :: h in heap ==> EntriesIn(heap, heap[h].entries)
      modifies this`heap
      ensures heap == ClearByKeys(old(heap), color, hs)
      ensures heap.Keys == old(heap.Keys) && forall h :: h in heap ==> EntriesIn(heap, heap[h].entries)
    {
      var i := 0;
      while i < |hs|
        invariant 0 <= i <= |hs| && heap.Keys == old(heap.Keys)
        invariant forall h :: h in heap ==> EntriesIn(heap, heap[h].entries)
        invariant ClearByKeys(heap, color, hs[i..]) == ClearByKeys(old(heap), color, hs)
      {
        var h := hs[i];
        if h in heap {
          var es := ClearTableEntries(heap[h].entries);
          ghost var heap0 := heap;
          heap := heap[h := heap[h].(entries := es)];
          ClearedEntriesIn(heap0, heap, color, h, es);
        }
        i := i + 1;
      }
    }

    /** atomic, first part: the roots without barriers. */
    method MarkAtomicRoots()
      requires Ready(View()) && ListsOk(View()) && running in heap && forall x :: x in globals ==> x in heap
      modifies this`color, this`gray, this`grayagain, this`ephemeron, this`allweak
      ensures View() == AtomicRoots(old(View()))
    {
      MarkObject(running);
      MarkRefs(globals);
      PropagateRest();
    }

    /** atomic, second part: the list saved from grayagain. */
    method TraverseAgain(again: seq<Ref>)
      requires Ready(View()) && ListsOk(View()) && AllMarked(again, color)
      modifies this`color, this`gray, this`grayagain, this`ephemeron, this`allweak
      ensures View() == AtomicAgain(old(View()), again)
    {
      gray := again;
      PropagateRest();
    }

    /** atomic, third part: with no finalizers the two convergences follow each other. */
    method ConvergeAgain()
      requires Ready(View()) && ListsOk(View()) && gray == []
      modifies this`color, this`gray, this`grayagain, this`ephemeron, this`allweak
      ensures View() == ConvergeTwice(old(View()))
    {
      ConvergeTables();
      ConvergeTables();
    }

    /** atomic saves grayagain and enters its phase. */
    method StartAtomic() returns (again: seq<Ref>)
      requires StepReady(View())
      modifies this`phase, this`grayagain
      ensures View() == AtomicStart(old(View())) && again == old(grayagain)
      ensures Ready(View()) && ListsOk(View()) && AllMarked(again, color)
      ensures running in heap && forall x :: x in globals ==> x in heap
    {
      again := grayagain;
      grayagain, phase := [], Atomic;
    }

    method MarkAtomic()
      requires StepReady(View())
      modifies this`phase, this`color, this`gray, this`grayagain, this`ephemeron, this`allweak
      ensures View() == AtomicMark(old(View()))
    {
      var again := StartAtomic();
      MarkAtomicRoots();
      TraverseAgain(again);
      ConvergeAgain();
    }

    /** The end of atomic: clear dead keys and flip the current white. */
    method ClearAndFlip()
      requires Ready(View())
      modifies this`heap, this`white
      ensures View() == old(View()).(heap := ClearedHeap(old(View())), white := OtherWhite(old(white)))
    {
      AllEntriesIn(View());
      ClearTables(ephemeron);
      ClearTables(allweak);
      white := OtherWhite(white);
    }

    /** atomic. */
    method AtomicStep()
      requires StepReady(View()) && Inv(View()) && phase == EnterAtomic
      modifies this`phase, this`white, this`heap, this`color, this`gray, this`grayagain, this`ephemeron, this`allweak
      ensures View() == AtomicPhase(old(View()))
    {
      AtomicMarkReady(View());
      MarkAtomic();
      ClearAndFlip();
    }

    /** One element of sweeplist: free the object or make it white. */
    method SweepObject(left: nat)
      requires 0 < left <= |allgc|
      modifies this`allgc, this`heap, this`color
      ensures View() == SweepOne(old(View()), left)
    {
      var i := |allgc| - left;
      var curr := allgc[i];
      if curr in color && color[curr] == OtherWhite(white) {
        allgc, heap, color := allgc[..i] + allgc[i + 1..], heap - {curr}, color - {curr};
      } else {
        color := color[curr := white];
      }
    }

    /** sweeplist, over the last `left` objects of `allgc`. */
    method SweepObjects(left: nat, countin: nat) returns (left': nat)
      requires left <= |allgc|
      modifies this`allgc, this`heap, this`color
      ensures (View(), left') == SweepList(old(View()), left, countin)
    {
      left' := left;
      var i := 0;
      while left' != 0 && i < countin
        invariant left' <= |allgc| && 0 <= i <= countin
        invariant SweepList(View(), left', countin - i) == SweepList(old(View()), left, countin)
        decreases left'
      {
        SweepObject(left');
        left', i := left' - 1, i + 1;
      }
    }

    /** sweeptolive, from the head of `allgc`. */
    method SweepDeadPrefix() returns (left: nat)
      modifies this`allgc, this`heap, this`color
      ensures (View(), left) == SweepToLive(old(View()), |old(allgc)|)
    {
      hide SweepOne;
      left := |allgc|;
      var live := false;
      while left != 0 && !live
        invariant left <= |allgc|
        invariant (if live then (View(), left) else SweepToLive(View(), left)) == SweepToLive(old(View()), |old(allgc)|)
        decreases left
      {
        var curr := allgc[|allgc| - left];
        live := !(curr in color && color[curr] == OtherWhite(white));
        SweepObject(left);
        left := left - 1;
      }
    }

    /** entersweep. */
    method StartSweep()
      modifies this`phase, this`allgc, this`heap, this`color, this`sweepgc
      ensures View() == EnterSweep(old(View()))
    {
      phase := SweepAll;
      var left := SweepDeadPrefix();
      sweepgc := if left == 0 then Null else At(left);
    }

    /** sweepstep. */
    method SweepSome(next: Phase, ptr: SweepPtr)
      requires CanStep(View()) && IsSweep(phase) && phase != SweepEnd
      requires phase == SweepAll ==> next == SweepFin && ptr == At(0)
      modifies this`phase, this`allgc, this`heap, this`color, this`sweepgc
      ensures old(phase) == SweepAll ==> View() == SweepStep(old(View()))
      ensures old(phase) != SweepAll ==> View() == EmptySweepStep(old(View()), next, ptr)
    {
      match sweepgc {
        case At(left) =>
          if phase == SweepAll {
            var left' := SweepObjects(left, GCSWEEPMAX);
            sweepgc := if left' == 0 then Null else At(left');
          } else {
            sweepgc := Null;
          }
        case Null =>
          phase, sweepgc := next, ptr;
      }
    }

    /** cleargraylists. */
    method ClearGrayLists()
      requires phase == Pause && CanStep(View())
      modifies this`phase, this`gray, this`grayagain, this`ephemeron, this`allweak
      ensures View() == ClearLists(old(View())) && Ready(View()) && main in heap
      ensures forall x :: x in globals ==> x in heap
    {
      gray, grayagain, ephemeron, allweak := [], [], [], [];
      phase := Propagate;
    }

    /** restartcollection. */
    method RestartCycle()
      requires phase == Pause && CanStep(View())
      modifies this`phase, this`color, this`gray, this`grayagain, this`ephemeron, this`allweak
      ensures View() == Restart(old(View()))
    {
      ClearGrayLists();
      MarkObject(main);
      MarkRefs(globals);
    }

    /** singlestep: keeps the invariant, and frees or changes nothing that is reachable. */
    method Step()
      requires Inv(View())
      modifies this
      ensures CanStep(old(View())) && View() == SingleStep(old(View()))
      ensures Inv(View())
      ensures forall o :: Reachable(old(View()), o) ==>
        o in old(heap) && o in heap && SameContents(old(View()), old(heap)[o], heap[o])
    {
      ghost var g := View();
      SingleStepInv(g);
      InvCanStep(g);
      forall o | Reachable(g, o) ensures o in g.heap && o in SingleStep(g).heap &&
        SameContents(g, g.heap[o], SingleStep(g).heap[o])
      {
        StepKeepsReachable(g, o);
      }
      Dispatch();
    }

    /** The switch of singlestep. */
    method Dispatch()
      requires Inv(View()) && CanStep(View())
      modifies this
      ensures View() == SingleStep(old(View()))
    {
      hide Inv, Restart, PropagateMark, AtomicPhase, EnterSweep, SweepStep, StepReady;
      InvCanStep(View());
      if phase == Pause {
        RestartCycle();
      } else if phase == Propagate {
        if gray == [] { phase := EnterAtomic; } else { PropagateOne(); }
      } else if phase == EnterAtomic {
        AtomicStep();
        StartSweep();
      } else if phase == SweepAll {
        SweepSome(SweepFin, At(0));
      } else if phase == SweepFin {
        SweepSome(SweepToBeFnz, At(0));
      } else if phase == SweepToBeFnz {
        SweepSome(SweepEnd, Null);
      } else if phase == SweepEnd {
        phase := CallFin;
      } else {
        phase := Pause;
      }
    }

    /** luaC_runtilstate. */
    method RunUntil(target: Phase)
      requires Inv(View()) && target != Atomic && target != EnterAtomic
      modifies this
      ensures View() == RunTil(old(View()), target) && Inv(View())
    {
      while phase != target
        invariant Inv(View()) && RunTil(View(), target) == RunTil(old(View()), target)
        decreases Distance(phase, target), PhaseWork(View())
      {
        SingleStepInv(View());
        StepProgress(View(), target);
        Dispatch();
      }
    }

    /** fullinc: what is left is what was reachable, and nothing else. */
    method CollectFull()
      requires Inv(View())
      modifies this
      ensures View() == FullInc(old(View())) && Inv(View()) && phase == Pause
      ensures forall o :: o in heap <==> Reachable(old(View()), o)
    {
      ghost var g := View();
      EnterSweepInv(g);
      if KeepInvariant(phase) { StartSweep(); }
      RunUntil(Pause);
      RunUntil(CallFin);
      RunUntil(Pause);
      forall o ensures o in FullInc(g).heap <==> Reachable(g, o) { FullCollectionExact(g, o); }
    }

    /** luaC_newobj, the new object being pushed on the stack of a thread. */
    method NewObject(o: Ref, kind: Kind, th: Ref)
      requires Inv(View()) && Allowed(View(), Op.New(o, kind, th))
      modifies this`heap, this`color, this`allgc
      ensures View() == Apply(old(View()), Op.New(o, kind, th)) && Inv(View())
    {
      ApplyInv(View(), Op.New(o, kind, th));
      var t := heap[th];
      heap := heap[th := t.(refs := t.refs + [o])][o := Object(kind, [], [])];
      color, allgc := color[o := white], [o] + allgc;
    }

    /** internshrstr when it finds the string: changewhite on a dead one, and a push. */
    method InternString(s: Ref, th: Ref)
      requires Inv(View()) && Allowed(View(), Op.Intern(s, th))
      modifies this`heap, this`color
      ensures View() == Apply(old(View()), Op.Intern(s, th)) && Inv(View())
    {
      hide Reachable;
      ApplyInv(View(), Op.Intern(s, th));
      hide Inv;
      var t := heap[th];
      if color[s] == OtherWhite(white) { color := color[s := white]; }
      heap := heap[th := t.(refs := t.refs + [s])];
    }

    /** luaC_barrier_ and luaC_barrierback_. */
    method TakeBarrier(o: Ref, v: Ref, back: bool)
      requires KeepInvariant(phase) && !back ==> Ready(View()) && v in heap
      modifies this`color, this`gray, this`grayagain
      ensures View() == Barrier(old(View()), o, v, back)
    {
      if back {
        color, grayagain := color[o := Gray], [o] + grayagain;
      } else if KeepInvariant(phase) {
        MarkObject(v);
      } else {
        color := color[o := white];
      }
    }

    /** A store and the barrier macro after it. */
    method WriteObject(o: Ref, body: Object, v: Option<Ref>, back: bool)
      requires Inv(View()) && Allowed(View(), Write(o, body, v, back))
      modifies this`heap, this`color, this`gray, this`grayagain
      ensures View() == Apply(old(View()), Write(o, body, v, back)) && Inv(View())
    {
      hide Reachable, Inv;
      ghost var g := View();
      ApplyInv(g, Write(o, body, v, back));
      StoredFacts(g, o, body, v, back);
      heap := heap[o := body];
      if body.kind != Thread && v.Some? && color[o] == Black && IsWhite(color[v.value]) {
        TakeBarrier(o, v.value, back);
      }
    }
  }

  /** One round of MarkRefs, and its end. */
  lemma MarkAllStep(g: Gc, rs: seq<Ref>, i: nat)
    requires Ready(g) && i < |rs| && forall x :: x in rs ==> x in g.heap
    ensures var r := Mark(g, rs[i]);
      Ready(r) && r.heap == g.heap && |Whites(r.color)| <= |Whites(g.color)| &&
      MarkAll(g, rs[i..]) == MarkAll(r, rs[i + 1..])
  {
    hide Mark, ClosedHeap;
    assert rs[i..][1..] == rs[i + 1..];
  }

  lemma MarkAllEnd(g: Gc, rs: seq<Ref>)
    requires Ready(g) && rs == []
    ensures MarkAll(g, rs) == g
  {
  }

  /** What the barrier macro and the barriers read after a store. */
  lemma StoredFacts(g: Gc, o: Ref, body: Object, v: Option<Ref>, back: bool)
    requires Inv(g) && Allowed(g, Write(o, body, v, back))
    ensures var g1 := Stored(g, o, body);
      o in g1.color && o in g1.heap && (v.Some? ==> v.value in g1.color && v.value in g1.heap) &&
      (KeepInvariant(g.phase) ==> Ready(g1))
  {
    StoredCommon(g, o, body, v, back);
    StoredReady(Stored(g, o, body));
  }

  lemma AtomicMarkReady(g: Gc)
    requires StepReady(g) && Inv(g) && g.phase == EnterAtomic
    ensures Ready(AtomicMark(g))
  {
    AtomicMarkInv(g);
  }

  lemma AllEntriesIn(g: Gc)
    requires Ready(g)
    ensures forall h :: h in g.heap ==> EntriesIn(g.heap, g.heap[h].entries)
  {
    forall h | h in g.heap ensures EntriesIn(g.heap, g.heap[h].entries) { ObjectRefs(g, h); }
  }

  lemma ClearedEntriesIn(heap0: map<Ref, Object>, heap: map<Ref, Object>, c: Colors, h: Ref, es: seq<Entry>)
    requires h in heap0 && heap == heap0[h := heap0[h].(entries := es)]
    requires forall x :: x in heap0 ==> EntriesIn(heap0, heap0[x].entries)
    requires es == ClearEntries(heap0, c, heap0[h].entries)
    ensures forall x :: x in heap ==> EntriesIn(heap, heap[x].entries)
  {
    forall x | x in heap ensures EntriesIn(heap, heap[x].entries) {
      if x == h {
        forall e | e in es && e.Pair? ensures OptIn(heap, e.key) && OptIn(heap, e.val) {
          assert e in heap0[h].entries;
        }
      } else {
        assert EntriesIn(heap0, heap0[x].entries);
      }
    }
  }

  ghost predicate InPass(g0: Gc, pend: seq<Ref>, dir: bool, g: Gc, next: seq<Ref>, changed: bool)
    requires Ready(g0) && ListsOk(g0) && g0.gray == [] && AllMarked(pend, g0.color)
  {
    Ready(g) && ListsOk(g) && g.gray == [] && AllMarked(next, g.color) &&
    ConvergePass(g0, pend, dir) == (ConvergePass(g, next, dir).0, changed || ConvergePass(g, next, dir).1)
  }

  lemma InPassEnd(g0: Gc, pend: seq<Ref>, dir: bool, g: Gc, changed: bool)
    requires Ready(g0) && ListsOk(g0) && g0.gray == [] && AllMarked(pend, g0.color)
    requires InPass(g0, pend, dir, g, [], changed)
    ensures (g, changed) == ConvergePass(g0, pend, dir)
  {
  }

  lemma InPassHead(g0: Gc, pend: seq<Ref>, dir: bool, g: Gc, next: seq<Ref>, changed: bool)
    requires Ready(g0) && ListsOk(g0) && g0.gray == [] && AllMarked(pend, g0.color)
    requires InPass(g0, pend, dir, g, next, changed) && next != []
    ensures Ready(g) && ListsOk(g) && g.gray == [] && Marked(g, next[0])
  {
    assert next[0] in next;
  }

  lemma InPassStep(g0: Gc, pend: seq<Ref>, dir: bool, g: Gc, next: seq<Ref>, changed: bool)
    requires Ready(g0) && ListsOk(g0) && g0.gray == [] && AllMarked(pend, g0.color)
    requires InPass(g0, pend, dir, g, next, changed) && next != [] && Marked(g, next[0])
    ensures InPass(g0, pend, dir, PassStep(g, next[0], dir).0, next[1..], changed || PassStep(g, next[0], dir).1)
  {
    hide PassStep, Whites, WellFormedObject, ListsOk, Marked, Mentions;

  }

  ghost predicate InConverge(g0: Gc, g: Gc, dir: bool, changed: bool)
    requires Ready(g0) && ListsOk(g0) && g0.gray == []
  {
    Ready(g) && ListsOk(g) && g.gray == [] &&
    Converge(g0, false) == if changed then Converge(g, dir) else g
  }

  lemma InConvergeStep(g0: Gc, g: Gc, dir: bool)
    requires Ready(g0) && ListsOk(g0) && g0.gray == [] && InConverge(g0, g, dir, true)
    ensures ListsOk(g.(ephemeron := [])) && AllMarked(g.ephemeron, g.color)
    ensures var (r, changed) := ConvergePass(g.(ephemeron := []), g.ephemeron, dir);
      InConverge(g0, r, !dir, changed) && (changed ==> |Whites(r.color)| < |Whites(g.color)|)
  {
  }
}
