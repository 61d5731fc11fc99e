/** Marking: reallymarkobject, propagatemark, traverseephemeron, propagateall and
    convergeephemerons as functions on the collector's state. */
module GcMark {
  import opened Common
  import opened GcHeap

  ghost predicate Ready(g: Gc) { g.color.Keys == g.heap.Keys && ClosedHeap(g.heap) }

  ghost function Work(g: Gc): nat { |Whites(g.color)| + |g.gray| }

  /** Marks are never taken back and no object gets another white. */
  ghost predicate Darker(c: Colors, d: Colors) {
    d.Keys == c.Keys && Nonwhites(c) <= Nonwhites(d) && |Whites(d)| <= |Whites(c)| &&
    WithWhite(d, White0) <= WithWhite(c, White0) && WithWhite(d, White1) <= WithWhite(c, White1)
  }

  /** What marking may change. */
  ghost predicate Grows(g: Gc, r: Gc) {
    Darker(g.color, r.color) && (ListsOk(g) ==> ListsOk(r)) &&
    (g.phase != Propagate ==> r.grayagain == g.grayagain) &&
    r == g.(color := r.color, gray := r.gray, grayagain := r.grayagain,
            ephemeron := r.ephemeron, allweak := r.allweak)
  }

  ghost predicate AllMarked(s: seq<Ref>, c: Colors) { forall x :: x in s ==> x in Nonwhites(c) }

  /** The lists still to be traversed hold marked objects. */
  ghost predicate ListsOk(g: Gc) { AllMarked(g.gray, g.color) && AllMarked(g.ephemeron, g.color) }

  lemma GrowsTrans(a: Gc, b: Gc, c: Gc)
    requires Grows(a, b) && Grows(b, c)
    ensures Grows(a, c)
  {
  }

  /** Painting an object gray or black. */
  ghost function Paint(c: Colors, o: Ref, k: Color): (d: Colors)
    requires o in c && !IsWhite(k)
    ensures Darker(c, d) && Nonwhites(d) == Nonwhites(c) + {o}
    ensures o !in Nonwhites(c) ==> |Whites(d)| == |Whites(c)| - 1
    ensures o in Nonwhites(c) ==> Whites(d) == Whites(c)
  {
    var d := c[o := k];
    assert Nonwhites(d) == Nonwhites(c) + {o};
    assert Whites(d) == Whites(c) - {o};
    d
  }

  lemma DarkerStrictly(c: Colors, d: Colors, x: Ref)
    requires Darker(c, d) && x in c && x !in Nonwhites(c) && x in Nonwhites(d)
    ensures |Whites(d)| < |Whites(c)|
  {
    SubsetCard(Whites(d), Whites(c), x);
  }

  lemma SubsetCard(a: set<Ref>, b: set<Ref>, x: Ref)
    requires a <= b && x in b && x !in a
    ensures |a| < |b|
  {
    assert b == a + (b - a);
    assert x in b - a;
    assert |b| == |a| + |b - a|;
  }

  ghost function Blacken(g: Gc, o: Ref): (r: Gc)
    requires o in g.color
    ensures Grows(g, r) && Nonwhites(r.color) == Nonwhites(g.color) + {o} && Work(r) <= Work(g)
    ensures o !in Nonwhites(g.color) ==> |Whites(r.color)| < |Whites(g.color)|
    ensures o in Nonwhites(g.color) ==> Whites(r.color) == Whites(g.color)
    ensures r == g.(color := r.color)
  {
    g.(color := Paint(g.color, o, Black))
  }

  ghost function PushGray(g: Gc, o: Ref): (r: Gc)
    requires o in g.color && o !in Nonwhites(g.color)
    ensures Grows(g, r) && o in Nonwhites(r.color) && Work(r) == Work(g)
    ensures r == g.(color := r.color, gray := r.gray)
  {
    g.(color := Paint(g.color, o, Gray), gray := [o] + g.gray)
  }

  ghost function PopGray(g: Gc): (r: Gc)
    requires g.gray != [] && ListsOk(g)
    ensures Grows(g, r) && Work(r) < Work(g) && g.gray[0] in Nonwhites(r.color)
    ensures r == g.(color := r.color, gray := r.gray)
  {
    assert g.gray[0] in g.gray;
    var g1 := Blacken(g, g.gray[0]);
    g1.(gray := g1.gray[1..])
  }

  /** markobject / reallymarkobject. */
  ghost function Mark(g: Gc, o: Ref): (r: Gc)
    requires Ready(g) && o in g.heap
    ensures Grows(g, r) && Work(r) <= Work(g) && o in Nonwhites(r.color)
    ensures r == g.(color := r.color, gray := r.gray)
    decreases |Whites(g.color)|, 0
  {
    if !IsWhite(g.color[o]) then g else
    match g.heap[o].kind
    case Str => Blacken(g, o)
    case Cell =>
      CellRefs(g, o);
      MarkAll(Blacken(g, o), g.heap[o].refs)
    case _ => PushGray(g, o)
  }

  lemma CellRefs(g: Gc, o: Ref)
    requires Ready(g) && o in g.heap
    ensures forall x :: x in g.heap[o].refs ==> x in g.heap
  {
    forall x | x in g.heap[o].refs ensures x in g.heap {
      assert Mentions(g.heap[o], x);
    }
  }

  ghost function MarkAll(g: Gc, rs: seq<Ref>): (r: Gc)
    requires Ready(g) && forall x :: x in rs ==> x in g.heap
    ensures Grows(g, r) && Work(r) <= Work(g)
    ensures r == g.(color := r.color, gray := r.gray)
    ensures AllMarked(rs, r.color)
    decreases |Whites(g.color)|, 1 + |rs|
  {
    if rs == [] then g else MarkAll(Mark(g, rs[0]), rs[1..])
  }

  /** The locals of traverseephemeron: marked, hasclears, hasww. */
  datatype Trav = Trav(g: Gc, marked: bool, clears: bool, ww: bool)

  ghost predicate TravGrows(t: Trav, r: Trav) {
    Grows(t.g, r.g) && Work(r.g) <= Work(t.g) &&
    r.g == t.g.(color := r.g.color, gray := r.g.gray) &&
    (t.marked ==> r.marked) && (t.clears ==> r.clears) && (t.ww ==> r.ww) &&
    (r.marked && !t.marked ==> |Whites(r.g.color)| < |Whites(t.g.color)|) &&
    (!r.marked ==> r.g.gray == t.g.gray)
  }

  ghost predicate OptIn(heap: map<Ref, Object>, r: Option<Ref>) { r.None? || r.value in heap }

  /** One slot of the array part (or the metatable) of an ephemeron table. */
  ghost function VisitRef(t: Trav, x: Ref): (r: Trav)
    requires Ready(t.g) && x in t.g.heap
    ensures TravGrows(t, r) && x in Nonwhites(r.g.color)
  {
    if !IsWhite(t.g.color[x]) then t else
    var g1 := Mark(t.g, x);
    DarkerStrictly(t.g.color, g1.color, x);
    Trav(g1, true, t.clears, t.ww)
  }

  ghost function VisitRefs(t: Trav, rs: seq<Ref>): (r: Trav)
    requires Ready(t.g) && forall x :: x in rs ==> x in t.g.heap
    ensures TravGrows(t, r) && AllMarked(rs, r.g.color)
    decreases |rs|
  {
    if rs == [] then t else VisitRefs(VisitRef(t, rs[0]), rs[1..])
  }

  /** The part of `iscleared` that marks a string key: strings are never weak. */
  ghost function VisitKey(t: Trav, k: Option<Ref>): (r: Trav)
    requires Ready(t.g) && OptIn(t.g.heap, k)
    ensures TravGrows(t, r) && r == t.(g := r.g)
  {
    if k.Some? && IsStr(t.g.heap, k.value) then t.(g := Mark(t.g, k.value)) else t
  }

  /** The cases of the loop over the hash part, the key already looked at. */
  ghost function VisitPair(t: Trav, k: Option<Ref>, v: Option<Ref>): (r: Trav)
    requires Ready(t.g) && OptIn(t.g.heap, k) && OptIn(t.g.heap, v)
    ensures TravGrows(t, r)
  {
    if k.Some? && IsWhite(t.g.color[k.value]) then
      t.(clears := true, ww := t.ww || (v.Some? && IsWhite(t.g.color[v.value])))
    else if v.Some? then VisitRef(t, v.value)
    else t
  }

  /** One hash entry of an ephemeron table. */
  ghost function VisitEntry(t: Trav, e: Entry): (r: Trav)
    requires Ready(t.g) && (e.Pair? ==> OptIn(t.g.heap, e.key) && OptIn(t.g.heap, e.val))
    ensures TravGrows(t, r)
  {
    if e.Free? then t else VisitPair(VisitKey(t, e.key), e.key, e.val)
  }

  ghost predicate EntriesIn(heap: map<Ref, Object>, es: seq<Entry>) {
    forall e :: e in es && e.Pair? ==> OptIn(heap, e.key) && OptIn(heap, e.val)
  }

  /** The entries of a table in the order of a traversal; `inv` walks the table backwards. */
  ghost function InOrder(es: seq<Entry>, inv: bool): (s: seq<Entry>)
    ensures forall e :: e in s <==> e in es
  {
    if !inv then es else
    var s := seq(|es|, i requires 0 <= i < |es| => es[|es| - 1 - i]);
    assert forall i :: 0 <= i < |es| ==> s[|es| - 1 - i] == es[i];
    s
  }

  lemma InOrderAt(es: seq<Entry>, inv: bool, i: nat)
    requires i < |es|
    ensures |InOrder(es, inv)| == |es| && InOrder(es, inv)[i] == es[if inv then |es| - 1 - i else i]
  {
  }

  ghost function VisitEntries(t: Trav, es: seq<Entry>): (r: Trav)
    requires Ready(t.g) && EntriesIn(t.g.heap, es)
    ensures TravGrows(t, r)
    decreases |es|
  {
    if es == [] then t else VisitEntries(VisitEntry(t, es[0]), es[1..])
  }

  /** linkgclist: paint the object gray and put it in front of the list. */
  ghost function LinkGrayAgain(g: Gc, h: Ref): (r: Gc)
    requires Marked(g, h) && g.phase == Propagate
    ensures Grows(g, r) && Work(r) == Work(g) && Whites(r.color) == Whites(g.color)
  {
    g.(color := Paint(g.color, h, Gray), grayagain := [h] + g.grayagain)
  }

  ghost function LinkEphemeron(g: Gc, h: Ref): (r: Gc)
    requires Marked(g, h)
    ensures Grows(g, r) && Work(r) == Work(g) && Whites(r.color) == Whites(g.color)
  {
    g.(color := Paint(g.color, h, Gray), ephemeron := [h] + g.ephemeron)
  }

  ghost function LinkAllWeak(g: Gc, h: Ref): (r: Gc)
    requires Marked(g, h)
    ensures Grows(g, r) && Work(r) == Work(g) && Whites(r.color) == Whites(g.color)
  {
    g.(color := Paint(g.color, h, Gray), allweak := [h] + g.allweak)
  }

  lemma ObjectRefs(g: Gc, h: Ref)
    requires Ready(g) && h in g.heap
    ensures EntriesIn(g.heap, g.heap[h].entries)
    ensures forall x :: x in g.heap[h].refs ==> x in g.heap
  {
    CellRefs(g, h);
    forall e | e in g.heap[h].entries && e.Pair?
      ensures OptIn(g.heap, e.key) && OptIn(g.heap, e.val)
    {
      if e.key.Some? { assert Mentions(g.heap[h], e.key.value); }
      if e.val.Some? { assert Mentions(g.heap[h], e.val.value); }
    }
  }

  ghost function Visited(g: Gc, h: Ref, inv: bool): (t: Trav)
    requires Ready(g) && h in g.heap
    ensures TravGrows(Trav(g, false, false, false), t)
  {
    ObjectRefs(g, h);
    VisitEntries(VisitRefs(Trav(g, false, false, false), g.heap[h].refs), InOrder(g.heap[h].entries, inv))
  }

  /** The list a traversed ephemeron table goes to. */
  ghost function Relink(t: Trav, h: Ref): (r: Gc)
    requires Marked(t.g, h)
    ensures Grows(t.g, r) && Work(r) == Work(t.g) && Whites(r.color) == Whites(t.g.color)
    ensures r.gray == t.g.gray
  {
    if t.g.phase == Propagate then LinkGrayAgain(t.g, h)
    else if t.ww then LinkEphemeron(t.g, h)
    else if t.clears then LinkAllWeak(t.g, h)
    else t.g
  }

  /** traverseephemeron on a table already painted black. */
  ghost function TraverseEphemeron(g: Gc, h: Ref, inv: bool): (r: (Gc, bool))
    requires Ready(g) && h in g.heap && Marked(g, h)
    ensures Grows(g, r.0) && Work(r.0) <= Work(g)
    ensures r.1 ==> |Whites(r.0.color)| < |Whites(g.color)|
    ensures !r.1 ==> r.0.gray == g.gray
  {
    var t := Visited(g, h, inv);
    (Relink(t, h), t.marked)
  }

  /** The traversal that fits the object's kind; in the propagate phase a thread goes back to
      `grayagain`. */
  ghost function Traverse(g: Gc, o: Ref): (r: Gc)
    requires Ready(g) && Marked(g, o)
    ensures Grows(g, r) && Work(r) <= Work(g)
  {
    CellRefs(g, o);
    if g.heap[o].kind == Ephemeron then TraverseEphemeron(g, o, false).0
    else if g.heap[o].kind == Thread && g.phase == Propagate then MarkAll(LinkGrayAgain(g, o), g.heap[o].refs)
    else MarkAll(g, g.heap[o].refs)
  }

  /** propagatemark: traverse one gray object, turning it to black. */
  ghost function PropagateMark(g: Gc): (r: Gc)
    requires Ready(g) && g.gray != [] && ListsOk(g)
    ensures Grows(g, r) && Work(r) < Work(g)
  {
    Traverse(PopGray(g), g.gray[0])
  }

  /** propagateall: until the gray list is empty. */
  ghost function PropagateAll(g: Gc): (r: Gc)
    requires Ready(g) && ListsOk(g)
    ensures Grows(g, r) && r.gray == []
    decreases Work(g)
  {
    if g.gray == [] then g else PropagateAll(PropagateMark(g))
  }

  /** What convergeephemerons does with one table of its list. */
  ghost function PassStep(g: Gc, h: Ref, dir: bool): (r: (Gc, bool))
    requires Ready(g) && ListsOk(g) && g.gray == [] && Marked(g, h)
    ensures Grows(g, r.0) && r.0.gray == []
    ensures r.1 ==> |Whites(r.0.color)| < |Whites(g.color)|
  {
    var g1 := Blacken(g, h);
    var (g2, marked) := TraverseEphemeron(g1, h, dir);
    GrowsTrans(g, g1, g2);
    if marked then
      GrowsTrans(g, g2, PropagateAll(g2));
      (PropagateAll(g2), true)
    else (g2, false)
  }

  /** One pass of convergeephemerons over the tables `pend`, walking entries in direction
      `dir`; the flag says whether any value was marked. */
  ghost function ConvergePass(g: Gc, pend: seq<Ref>, dir: bool): (r: (Gc, bool))
    requires Ready(g) && ListsOk(g) && g.gray == [] && AllMarked(pend, g.color)
    ensures Grows(g, r.0) && r.0.gray == []
    ensures r.1 ==> |Whites(r.0.color)| < |Whites(g.color)|
    decreases |pend|
  {
    if pend == [] then (g, false) else
    assert pend[0] in pend;
    var (g1, marked) := PassStep(g, pend[0], dir);
    var (g2, more) := ConvergePass(g1, pend[1..], dir);
    GrowsTrans(g, g1, g2);
    (g2, marked || more)
  }

  /** convergeephemerons, starting in direction `dir`. */
  ghost function Converge(g: Gc, dir: bool): (r: Gc)
    requires Ready(g) && g.gray == [] && ListsOk(g)
    ensures Grows(g, r) && r.gray == []
    decreases |Whites(g.color)|
  {
    var (g1, changed) := ConvergePass(g.(ephemeron := []), g.ephemeron, dir);
    if changed then Converge(g1, !dir) else g1
  }
}
