/** The collection cycle: restartcollection, atomic, the sweep functions and singlestep, and
    the steps of the mutator with their write barriers. */
module GcCycle {
  import opened Common
  import opened GcHeap
  import opened GcMark
  import opened GcTricolor

  const GCSWEEPMAX := 100

  /** What `atomic` needs of the state it is called in. */
  ghost predicate StepReady(g: Gc) {
    Ready(g) && g.main in g.heap && g.running in g.heap && (forall x :: x in g.globals ==> x in g.heap) &&
    ListsOk(g) && AllMarked(g.grayagain, g.color)
  }

  /** cleargraylists, and the move of singlestep to the propagate phase. */
  ghost function ClearLists(g: Gc): Gc {
    g.(gray := [], grayagain := [], ephemeron := [], allweak := [], phase := Propagate)
  }

  /** restartcollection, and the move of singlestep to the propagate phase. */
  ghost function Restart(g: Gc): (r: Gc)
    requires Ready(g) && g.main in g.heap && forall x :: x in g.globals ==> x in g.heap
  {
    MarkAll(Mark(ClearLists(g), g.main), g.globals)
  }

  /** clearbykeys on one table; `iscleared` holds of white keys that are not strings. */
  ghost function ClearEntries(heap: map<Ref, Object>, c: Colors, es: seq<Entry>): (r: seq<Entry>)
    ensures |r| == |es|
    ensures forall i :: 0 <= i < |es| ==> r[i] == if ClearedEntry(heap, c, es[i]) then Free else es[i]
  {
    seq(|es|, i requires 0 <= i < |es| => if ClearedEntry(heap, c, es[i]) then Free else es[i])
  }

  ghost predicate ClearedEntry(heap: map<Ref, Object>, c: Colors, e: Entry) {
    e.Pair? && e.key.Some? && !IsStr(heap, e.key.value) && e.key.value !in Nonwhites(c)
  }

  /** clearbykeys on a list of tables. */
  ghost function ClearByKeys(heap: map<Ref, Object>, c: Colors, hs: seq<Ref>): (r: map<Ref, Object>)
    ensures r.Keys == heap.Keys
    decreases |hs|
  {
    if hs == [] then heap
    else if hs[0] !in heap then ClearByKeys(heap, c, hs[1..])
    else
      var b := heap[hs[0]];
      ClearByKeys(heap[hs[0] := b.(entries := ClearEntries(heap, c, b.entries))], c, hs[1..])
  }

  /** `atomic` marks the roots that have no barrier and empties the gray list. */
  ghost function AtomicRoots(g: Gc): (r: Gc)
    requires Ready(g) && ListsOk(g) && g.running in g.heap && forall x :: x in g.globals ==> x in g.heap
    ensures Grows(g, r) && r.gray == [] && Marked(r, g.running) && AllMarked(g.globals, r.color)
  {
    var g1 := Mark(g, g.running);
    var g2 := MarkAll(g1, g.globals);
    GrowsTrans(g, g1, g2);
    GrowsTrans(g, g2, PropagateAll(g2));
    PropagateAll(g2)
  }

  /** It then traverses the list saved from `grayagain`. */
  ghost function AtomicAgain(g: Gc, again: seq<Ref>): (r: Gc)
    requires Ready(g) && ListsOk(g) && AllMarked(again, g.color)
    ensures Grows(g, r) && r.gray == []
  {
    PropagateAll(g.(gray := again))
  }

  /** The two convergences; without finalizers nothing happens between them. */
  ghost function ConvergeTwice(g: Gc): (r: Gc)
    requires Ready(g) && ListsOk(g) && g.gray == []
    ensures Grows(g, r) && r.gray == []
  {
    var g1 := Converge(g, false);
    GrowsTrans(g, g1, Converge(g1, false));
    Converge(g1, false)
  }

  /** The marking half of `atomic`. */
  ghost function AtomicMark(g: Gc): (r: Gc)
    requires StepReady(g)
    ensures r.gray == []
  {
    var g1 := g.(grayagain := [], phase := Atomic);
    ConvergeTwice(AtomicAgain(AtomicRoots(g1), g.grayagain))
  }

  /** `atomic`: marking, clearing of dead keys, and the flip of the current white. */
  ghost function AtomicPhase(g: Gc): (r: Gc)
    requires StepReady(g)
  {
    var m := AtomicMark(g);
    m.(heap := ClearByKeys(ClearByKeys(m.heap, m.color, m.ephemeron), m.color, m.allweak),
       white := OtherWhite(m.white))
  }

  /** One element of sweeplist: the object `left` places from the end of `allgc`. */
  ghost function SweepOne(g: Gc, left: nat): (r: Gc)
    requires 0 < left <= |g.allgc|
    ensures |r.allgc| == if IsDead(g, g.allgc[|g.allgc| - left]) then |g.allgc| - 1 else |g.allgc|
  {
    var i := |g.allgc| - left;
    var curr := g.allgc[i];
    if IsDead(g, curr) then
      g.(allgc := g.allgc[..i] + g.allgc[i + 1..], heap := g.heap - {curr}, color := g.color - {curr})
    else g.(color := g.color[curr := g.white])
  }

  /** sweeplist: at most n objects; the result says how many are left. */
  ghost function SweepList(g: Gc, left: nat, n: nat): (r: (Gc, nat))
    requires left <= |g.allgc|
    ensures r.1 <= |r.0.allgc| && r.1 <= left && (0 < left && 0 < n ==> r.1 < left)
    decreases left
  {
    if left == 0 || n == 0 then (g, left) else SweepList(SweepOne(g, left), left - 1, n - 1)
  }

  /** sweeptolive: up to and including the first live object. */
  ghost function SweepToLive(g: Gc, left: nat): (r: (Gc, nat))
    requires left <= |g.allgc|
    ensures r.1 <= |r.0.allgc|
    decreases left
  {
    if left == 0 then (g, 0)
    else if IsDead(g, g.allgc[|g.allgc| - left]) then SweepToLive(SweepOne(g, left), left - 1)
    else (SweepOne(g, left), left - 1)
  }

  function Link(left: nat): SweepPtr { if left == 0 then Null else At(left) }

  ghost function EnterSweep(g: Gc): (r: Gc) {
    var (g1, left) := SweepToLive(g.(phase := SweepAll), |g.allgc|);
    g1.(sweepgc := Link(left))
  }

  /** sweepstep in the phase that sweeps `allgc`. */
  ghost function SweepStep(g: Gc): (r: Gc)
    requires g.sweepgc.At? ==> g.sweepgc.left <= |g.allgc|
  {
    match g.sweepgc
    case At(left) =>
      var (g1, left') := SweepList(g, left, GCSWEEPMAX);
      g1.(sweepgc := Link(left'))
    case Null => g.(phase := SweepFin, sweepgc := At(0))
  }

  /** sweepstep over `finobj` and `tobefnz`, which are empty here. */
  ghost function EmptySweepStep(g: Gc, next: Phase, ptr: SweepPtr): (r: Gc) {
    if g.sweepgc.At? then g.(sweepgc := Null) else g.(phase := next, sweepgc := ptr)
  }

  ghost predicate CanStep(g: Gc) {
    match g.phase
    case Propagate => Ready(g) && ListsOk(g)
    case EnterAtomic => StepReady(g)
    case SweepAll => g.sweepgc.At? ==> g.sweepgc.left <= |g.allgc|
    case Pause => Ready(g) && g.main in g.heap && forall x :: x in g.globals ==> x in g.heap
    case Atomic => false
    case _ => true
  }

  ghost function SingleStep(g: Gc): (r: Gc)
    requires CanStep(g)
  {
    match g.phase
    case Pause => Restart(g)
    case Propagate => if g.gray == [] then g.(phase := EnterAtomic) else PropagateMark(g)
    case EnterAtomic => EnterSweep(AtomicPhase(g))
    case SweepAll => SweepStep(g)
    case SweepFin => EmptySweepStep(g, SweepToBeFnz, At(0))
    case SweepToBeFnz => EmptySweepStep(g, SweepEnd, Null)
    case SweepEnd => g.(phase := CallFin)
    case CallFin => g.(phase := Pause)
  }
}
