/** The collector's global state and the object graph it works on (lgc.c, lgc.h, lstate.h).
    An object is a reference with a kind, its strong references and, for a table with weak
    keys, its entries. The gray lists, the `allgc` list and the mark bits are plain values. */
module GcHeap {
  import opened Common

  type Ref = nat

  /** The colour bits of `marked`: two whites, gray (no bit set), black. */
  datatype Color = White0 | White1 | Gray | Black

  /** How `reallymarkobject` and `propagatemark` treat an object.
      Str: nothing to visit. Cell: visited when marked (closed upvalue, userdata without
      user values). Plain: strong table, full userdata, closure, prototype. Thread: has no
      write barrier. Ephemeron: a table with weak keys and strong values. */
  datatype Kind = Str | Cell | Plain | Thread | Ephemeron

  /** A hash entry of an ephemeron table; None is a non-collectable key or value. */
  datatype Entry = Free | Pair(key: Option<Ref>, val: Option<Ref>)

  datatype Object = Object(kind: Kind, refs: seq<Ref>, entries: seq<Entry>)

  /** `gcstate`, in the order of lgc.h. */
  datatype Phase =
    Propagate | EnterAtomic | Atomic | SweepAll | SweepFin | SweepToBeFnz | SweepEnd | CallFin | Pause

  /** `sweepgc`: NULL, or a link with `left` objects of the list after it. */
  datatype SweepPtr = Null | At(left: nat)

  datatype Gc = Gc(
    phase: Phase,
    white: Color,
    heap: map<Ref, Object>,
    color: Colors,
    allgc: seq<Ref>,
    sweepgc: SweepPtr,
    gray: seq<Ref>,
    grayagain: seq<Ref>,
    ephemeron: seq<Ref>,
    allweak: seq<Ref>,
    main: Ref,
    running: Ref,
    globals: seq<Ref>)

  predicate IsWhite(c: Color) { c == White0 || c == White1 }

  function OtherWhite(c: Color): Color { if c == White0 then White1 else White0 }

  predicate KeepInvariant(p: Phase) { p == Propagate || p == EnterAtomic || p == Atomic }

  predicate IsSweep(p: Phase) { p == SweepAll || p == SweepFin || p == SweepToBeFnz || p == SweepEnd }

  /** `isdead`: the object still carries the white of the previous cycle. */
  predicate IsDead(g: Gc, o: Ref) { o in g.color && g.color[o] == OtherWhite(g.white) }

  type Colors = map<Ref, Color>

  ghost function Nonwhites(c: Colors): set<Ref> { set o | o in c && !IsWhite(c[o]) }

  ghost function Whites(c: Colors): set<Ref> { c.Keys - Nonwhites(c) }

  /** The objects that carry the given white. */
  ghost function WithWhite(c: Colors, w: Color): set<Ref> { set o | o in c && c[o] == w }

  ghost predicate Marked(g: Gc, o: Ref) { o in Nonwhites(g.color) }

  /** Every reference an object holds, weak keys included. */
  predicate Mentions(b: Object, r: Ref) {
    r in b.refs ||
    exists e :: e in b.entries && e.Pair? && (e.key == Some(r) || e.val == Some(r))
  }

  predicate WellFormedObject(b: Object) {
    (b.kind != Ephemeron ==> b.entries == []) && (b.kind == Str ==> b.refs == [])
  }

  /** No dangling reference and every object well formed. */
  ghost predicate ClosedHeap(heap: map<Ref, Object>) {
    forall o :: o in heap ==>
      WellFormedObject(heap[o]) && forall r :: Mentions(heap[o], r) ==> r in heap
  }

  predicate IsStr(heap: map<Ref, Object>, r: Ref) { r in heap && heap[r].kind == Str }

  /** A key that keeps its value: non-collectable, a string, or a member of S. */
  predicate KeyLive(heap: map<Ref, Object>, k: Option<Ref>, S: set<Ref>) {
    k.None? || IsStr(heap, k.value) || k.value in S
  }

  /** What one object obliges a set of live references to contain. */
  predicate ObjectClosed(heap: map<Ref, Object>, b: Object, S: set<Ref>) {
    (forall r :: r in b.refs ==> r in S) &&
    forall e :: e in b.entries && e.Pair? && KeyLive(heap, e.key, S) ==>
      (e.key.Some? ==> e.key.value in S) && (e.val.Some? ==> e.val.value in S)
  }

  predicate Roots(g: Gc, r: Ref) { r == g.main || r == g.running || r in g.globals }

  ghost predicate ClosedUnder(heap: map<Ref, Object>, S: set<Ref>) {
    forall o :: o in S && o in heap ==> ObjectClosed(heap, heap[o], S)
  }

  ghost predicate LiveSet(g: Gc, S: set<Ref>) {
    (forall r :: Roots(g, r) ==> r in S) && ClosedUnder(g.heap, S)
  }

  /** Reachable: in every set that contains the roots and is closed under strong references
      and under "a table with weak keys and one of its keys give the value". */
  ghost predicate Reachable(g: Gc, o: Ref) { forall S: set<Ref> :: LiveSet(g, S) ==> o in S }
}
