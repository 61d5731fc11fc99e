// Coding 'not': the value is negated, the lists change places, and no jump
// brings its value any more.
module CodeNegate {
  import opened CodeMachine
  import opened CodeGen
  import opened CodeShape
  import opened CodeFlow
  import opened CodeLoad
  import opened CodeNil
  import opened CodeDischarge
  import opened CodeClose
  import opened CodeExp2Reg
  import opened CodeRegs
  import opened CodeCond
  import opened CodeGoIf

  function UnvaluedInstr(c: seq<Instr>, list: seq<nat>, q: nat): Instr
    requires q < |c|
  {
    if q + 1 in list && c[q].TestSet? then Test(c[q].b, c[q].k) else c[q]
  }

  ghost predicate IsUnvalued(c: seq<Instr>, list: seq<nat>, c2: seq<Instr>) {
    |c2| == |c| && forall q :: 0 <= q < |c| ==> c2[q] == UnvaluedInstr(c, list, q)
  }

  lemma {:induction false} RemoveValuesOk(c: seq<Instr>, list: seq<nat>)
    requires forall p :: p in list ==> PendingAt(c, p)
    ensures IsUnvalued(c, list, RemoveValues(c, list))
    decreases |list|
  {
    if list != [] {
      var p := list[0];
      assert p in list && PendingAt(c, p);
      var c1 := PatchTestReg(c, p, NO_REG);
      forall q | q in list[1..] ensures PendingAt(c1, q) {
        assert q in list && PendingAt(c, q);
      }
      RemoveValuesOk(c1, list[1..]);
      var c2 := RemoveValues(c1, list[1..]);
      forall q | 0 <= q < |c| ensures c2[q] == UnvaluedInstr(c, list, q) {
        assert c2[q] == UnvaluedInstr(c1, list[1..], q);
        assert q + 1 in list <==> q + 1 == p || q + 1 in list[1..];
      }
    }
  }

  lemma BothUnvalued(c: seq<Instr>, t: seq<nat>, f: seq<nat>)
    requires forall p :: p in t || p in f ==> PendingAt(c, p)
    ensures IsUnvalued(c, t + f, RemoveValues(RemoveValues(c, t), f))
  {
    RemoveValuesOk(c, t);
    var c1 := RemoveValues(c, t);
    StillPendings(c, t, c1, f);
    RemoveValuesOk(c1, f);
    var c2 := RemoveValues(c1, f);
    forall q | 0 <= q < |c| ensures c2[q] == UnvaluedInstr(c, t + f, q) {
      assert c2[q] == UnvaluedInstr(c1, f, q) && c1[q] == UnvaluedInstr(c, t, q);
    }
  }

  lemma StillPendings(c: seq<Instr>, list: seq<nat>, c2: seq<Instr>, other: seq<nat>)
    requires IsUnvalued(c, list, c2) && (forall p :: p in list || p in other ==> PendingAt(c, p))
    ensures forall p :: p in other ==> PendingAt(c2, p)
  {
    forall p | p in other ensures PendingAt(c2, p) {
      OneStillPending(c, list, c2, p);
    }
  }

  lemma OneStillPending(c: seq<Instr>, list: seq<nat>, c2: seq<Instr>, p: int)
    requires IsUnvalued(c, list, c2) && PendingAt(c, p)
    ensures PendingAt(c2, p) && (p !in list ==> c2[p - 1] == c[p - 1]) && (p in list ==> !c2[p - 1].TestSet?)
  {
    assert c2[p] == UnvaluedInstr(c, list, p) && c2[p - 1] == UnvaluedInstr(c, list, p - 1);
  }

  // --- The run ---

  lemma UnvaluedFits(c: seq<Instr>, list: seq<nat>, c2: seq<Instr>, s: nat, m: nat, pend: set<nat>)
    requires m <= |c| && IsUnvalued(c, list, c2) && AllPending(c, pend, m) && s !in pend
    requires forall p :: p in list ==> p in pend
    ensures Repatched(c, c2, s, m, pend, pend)
  {
    forall q | s <= q < m ensures FitsAt(c, c2, s, m, pend, pend, q) {
      assert c2[q] == UnvaluedInstr(c, list, q);
      assert q in pend ==> PendingAt(c, q);
      assert q - 1 in pend ==> PendingAt(c, q - 1);
      assert q + 1 in pend ==> PendingAt(c, q + 1);
    }
  }

  lemma UnvaluedRuns(g: Order, k: seq<Value>, c: seq<Instr>, list: seq<nat>, c2: seq<Instr>, s: nat, m: nat, r: Regs,
                     pend: set<nat>)
    requires s <= m <= |c| && IsUnvalued(c, list, c2) && AllPending(c, pend, m)
    requires forall p :: p in list ==> p in pend
    requires Run(g, k, c, s, r, pend, m) != Lost
    ensures Run(g, k, c2, s, r, pend, m) == Run(g, k, c, s, r, pend, m)
  {
    hide Advance, IsUnvalued;
    var out := Run(g, k, c, s, r, pend, m);
    if s < m {
      StartIsNotPending(g, k, c, s, m, pend, r);
      UnvaluedFits(c, list, c2, s, m, pend);
      RunRepatched(g, k, k, c, c2, s, m, pend, pend, m, s, r);
      if out.Jump? {
        assert PendingAt(c, out.pos);
        OneStillPending(c, list, c2, out.pos);
      } else {
        assert Run(g, k, c2, m, out.regs, pend, m) == Fall(out.regs);
      }
    }
  }

  lemma UnvaluedFlow(c: seq<Instr>, t: seq<nat>, f: seq<nat>, c2: seq<Instr>, out: Outcome, v: Value, r1: Regs, n: int)
    requires IsUnvalued(c, t + f, c2) && (forall p :: p in t || p in f ==> PendingAt(c, p))
    requires Flow(c, t, f, out, v, r1, n)
    ensures Flow(c2, f, t, out, Bool(!Truthy(v)), r1, n)
  {
    if out.Jump? {
      assert out.pos in t + f;
      OneStillPending(c, t + f, c2, out.pos);
    }
  }

  lemma UnvaluedBehind(c: seq<Instr>, lt: int, list: seq<nat>, c2: seq<Instr>)
    requires Behind(c, lt) && IsUnvalued(c, list, c2)
    ensures Behind(c2, lt)
  {
    forall p | 0 <= p < |c2| ensures BehindAt(c2, lt, p) {
      assert BehindAt(c, lt, p);
      assert c2[p] == UnvaluedInstr(c, list, p);
    }
  }

  lemma UnvaluedList(c: seq<Instr>, all: seq<nat>, c2: seq<Instr>, lo: int, hi: int, list: seq<nat>)
    requires ListOk(c, lo, hi, list) && IsUnvalued(c, all, c2)
    ensures ListOk(c2, lo, hi, list)
  {
    forall p | p in list ensures lo < p < hi && PendingAt(c2, p) {
      assert PendingAt(c, p);
      OneStillPending(c, all, c2, p);
    }
  }

  // Instructions that no list controls stay.
  lemma UnvaluedOthers(fs0: Fs, fs: Fs, d: Desc, pend: set<nat>, c2: seq<Instr>, q: int)
    requires Shape(fs0, fs, d, pend) && IsUnvalued(fs.code, d.t + d.f, c2)
    requires 0 <= q < |fs.code| && (q < |fs0.code| || End(fs.code, d) <= q)
    ensures c2[q] == fs.code[q]
  {
    assert c2[q] == UnvaluedInstr(fs.code, d.t + d.f, q);
  }

  lemma UnvaluedShape(fs0: Fs, fs: Fs, d: Desc, pend: set<nat>, c2: seq<Instr>)
    requires Shape(fs0, fs, d, pend) && IsUnvalued(fs.code, d.t + d.f, c2)
    ensures Shape(fs0, fs.(code := c2), Desc(d.k, d.f, d.t), pend)
  {
    var fs2 := fs.(code := c2);
    UnvaluedBehind(fs.code, fs.lasttarget, d.t + d.f, c2);
    UnvaluedList(fs.code, d.t + d.f, c2, |fs0.code|, End(fs.code, d), d.t);
    UnvaluedList(fs.code, d.t + d.f, c2, |fs0.code|, End(fs.code, d), d.f);
    forall q | 0 <= q < |fs0.code| ensures FrameAt(fs0, fs2, q) {
      assert FrameAt(fs0, fs, q);
      UnvaluedOthers(fs0, fs, d, pend, c2, q);
    }
    forall p | p in pend ensures p < |fs0.code| && PendingAt(c2, p) {
      assert PendingAt(fs.code, p);
      UnvaluedOthers(fs0, fs, d, pend, c2, p);
      UnvaluedOthers(fs0, fs, d, pend, c2, p - 1);
    }
    if d.k.VJmp? {
      UnvaluedOthers(fs0, fs, d, pend, c2, |c2| - 2);
      UnvaluedOthers(fs0, fs, d, pend, c2, |c2| - 1);
    } else if d.k.VReloc? {
      UnvaluedOthers(fs0, fs, d, pend, c2, |c2| - 1);
    }
  }

  // --- The value ---

  ghost function Negation(x: Ctx): Ctx {
    x.(v := Bool(!Truthy(x.v)))
  }

  // Falling out, the value is already negated; jumps still tell the old one.
  ghost predicate HalfNegated(x: Ctx, fs: Fs, d: Desc)
    requires x.s <= End(fs.code, d)
  {
    var out := OutOf(x, fs, x.pend + Pend(d), End(fs.code, d));
    match x.base
    case Lost => true
    case Jump(p, r) => out == x.base && p in x.pend
    case Fall(r1) =>
      && Flow(fs.code, d.t, d.f, out, x.v, r1, x.n)
      && (out.Fall? ==> FallValue(x.g, fs, d, out.regs) == Bool(!Truthy(x.v)))
  }

  // The code before the end stayed and the value at the end is negated.
  lemma HalfNegate(x: Ctx, fs0: Fs, fs: Fs, d: Desc, fs2: Fs, d2: Desc)
    requires Shape(fs0, fs, d, x.pend) && x.s <= |fs0.code|
    requires var m := End(fs.code, d);
             m == End(fs2.code, d2) <= |fs2.code| && fs2.code[..m] == fs.code[..m] && |fs0.code| <= m
    requires fs.k <= fs2.k && d2.t == d.t && d2.f == d.f
    requires Follows(x, fs, d)
    requires forall r :: FallValue(x.g, fs2, d2, r) == Bool(!Truthy(FallValue(x.g, fs, d, r)))
    ensures HalfNegated(x, fs2, d2)
  {
    var m := End(fs.code, d);
    var pend := x.pend + Pend(d);
    assert Pend(d2) == Pend(d);
    PendingTogether(fs0, fs, d, x.pend);
    RunExtended(x.g, fs.k, fs2.k, fs.code, fs2.code, x.s, m, m, pend, pend, x.r);
    var out := OutOf(x, fs, pend, m);
    if x.base.Fall? {
      if out.Jump? {
        FlowSame(fs.code, fs2.code, d.t, d.f, out, x.v, x.base.regs, x.n);
      } else {
        AtEndOf(x.g, fs2.k, fs2.code, m, out.regs, pend);
        assert FallValue(x.g, fs2, d2, out.regs) == Bool(!Truthy(FallValue(x.g, fs, d, out.regs)));
      }
    }
  }

  lemma AtEndOf(g: Order, k: seq<Value>, c: seq<Instr>, m: nat, r: Regs, pend: set<nat>)
    requires m <= |c|
    ensures Run(g, k, c, m, r, pend, m) == Fall(r)
  {
  }

  ghost predicate HalfOk(x: Ctx, fs0: Fs, fs: Fs, d: Desc, fs2: Fs, d2: Desc) {
    && Shape(fs0, fs2, d2, x.pend) && d2.t == d.t && d2.f == d.f
    && (Starts(x, fs0) && |fs0.code| <= End(fs.code, d) && Follows(x, fs, d) ==> HalfNegated(x, fs2, d2))
  }

  lemma NotConstant(x: Ctx, fs0: Fs, fs: Fs, d: Desc, d2: Desc)
    requires Shape(fs0, fs, d, x.pend) && (d2 == d.(k := VTrue) || d2 == d.(k := VFalse))
    requires !d.k.VLocal? && !d.k.VNonReloc? && !d.k.VJmp? && !d.k.VReloc? && !d.k.VK?
    requires d2.k == if d.k.VNil? || d.k.VFalse? then VTrue else VFalse
    ensures HalfOk(x, fs0, fs, d, fs, d2)
  {
    if Starts(x, fs0) && Follows(x, fs, d) { HalfNegate(x, fs0, fs, d, fs, d2); }
  }

  lemma NotTest(x: Ctx, fs0: Fs, fs: Fs, d: Desc)
    requires Shape(fs0, fs, d, x.pend) && d.k.VJmp?
    ensures HalfOk(x, fs0, fs, d, NegateCondition(fs, d), d)
  {
    var n := |fs.code|;
    var fs2 := NegateCondition(fs, d);
    NegateIs(fs0, fs, d, x.pend);
    assert fs2.code[..n - 2] == fs.code[..n - 2];
    forall r ensures FallValue(x.g, fs2, d, r) == Bool(!Truthy(FallValue(x.g, fs, d, r)))
    {
      NegatedHolds(x.g, fs.k, fs.code[n - 2], r);
    }
    NegatedHolds(x.g, fs.k, fs.code[n - 2], map[]);
    BranchBehind(fs0, fs, d, x.pend, fs2.code[n - 2]);
    ShapeAfter(fs0, fs, d, fs2, d, x.pend);
    if Starts(x, fs0) && Follows(x, fs, d) { HalfNegate(x, fs0, fs, d, fs2, d); }
  }

  lemma NotRegister(x: Ctx, fs0: Fs, fs: Fs, d: Desc)
    requires Shape(fs0, fs, d, x.pend) && !d.k.VJmp? && NotOfReg(fs, d).Ok?
    ensures var g := NotOfReg(fs, d).value;
            HalfOk(x, fs0, fs, d, g.fs, g.d)
  {
    var g := NotOfReg(fs, d).value;
    Discharge2AnyRegOk(x, fs0, fs, d);
    var g1 := Discharge2AnyReg(fs, d).value;
    FreeExpOk(fs0, g1.fs, g1.d, x.pend);
    assert g.fs.code[..|g1.fs.code|] == g1.fs.code == g1.fs.code[..|g1.fs.code|];
    BehindEmit(g1.fs.code, g1.fs.lasttarget, Not(0, RegOf(g1.d)), g1.fs.lasttarget);
    ShapeAfter(fs0, g1.fs, g1.d, g.fs, g.d, x.pend);
    if Starts(x, fs0) && Follows(x, fs, d) {
      HalfNegate(x, fs0, g1.fs, g1.d, g.fs, g.d);
    }
  }

  lemma NotMainOk(x: Ctx, fs0: Fs, fs: Fs, d: Desc)
    requires Shape(fs0, fs, d, x.pend) && !d.k.VLocal? && !d.k.VK? && NotMain(fs, d).Ok?
    ensures var g := NotMain(fs, d).value;
            HalfOk(x, fs0, fs, d, g.fs, g.d)
  {
    match d.k
    case VJmp(p) => NotTest(x, fs0, fs, d);
    case VReloc(p) => NotRegister(x, fs0, fs, d);
    case VNonReloc(r) => NotRegister(x, fs0, fs, d);
    case VNil => NotConstant(x, fs0, fs, d, d.(k := VTrue));
    case VFalse => NotConstant(x, fs0, fs, d, d.(k := VTrue));
    case _ => NotConstant(x, fs0, fs, d, d.(k := VFalse));
  }

  lemma UnvaluedFollows(x: Ctx, fs0: Fs, fs: Fs, d: Desc, c2: seq<Instr>)
    requires Shape(fs0, fs, d, x.pend) && IsUnvalued(fs.code, d.t + d.f, c2)
    requires x.s <= |fs0.code| <= End(fs.code, d) && HalfNegated(x, fs, d)
    ensures Follows(Negation(x), fs.(code := c2), Desc(d.k, d.f, d.t))
  {
    hide Step, FrameAt, ListOk;
    var fs2, d2 := fs.(code := c2), Desc(d.k, d.f, d.t);
    var m := End(fs.code, d);
    var pend := x.pend + Pend(d);
    assert Pend(d2) == Pend(d);
    if x.base != Lost {
      PendingTogether(fs0, fs, d, x.pend);
      UnvaluedRuns(x.g, fs.k, fs.code, d.t + d.f, c2, x.s, m, x.r, pend);
      var out := OutOf(x, fs, pend, m);
      if x.base.Fall? {
        UnvaluedFlow(fs.code, d.t, d.f, c2, out, x.v, x.base.regs, x.n);
        if out.Fall? { UnvaluedValue(x, fs0, fs, d, c2, out.regs); }
      }
    }
  }

  lemma UnvaluedValue(x: Ctx, fs0: Fs, fs: Fs, d: Desc, c2: seq<Instr>, r: Regs)
    requires Shape(fs0, fs, d, x.pend) && IsUnvalued(fs.code, d.t + d.f, c2)
    ensures FallValue(x.g, fs.(code := c2), Desc(d.k, d.f, d.t), r) == FallValue(x.g, fs, d, r)
  {
    if d.k.VJmp? {
      UnvaluedOthers(fs0, fs, d, x.pend, c2, |c2| - 2);
    } else if d.k.VReloc? {
      UnvaluedOthers(fs0, fs, d, x.pend, c2, |c2| - 1);
    }
  }

  lemma CodeNotOk(x: Ctx, fs0: Fs, fs: Fs, d: Desc)
    requires Shape(fs0, fs, d, x.pend) && !d.k.VLocal? && !d.k.VK? && CodeNot(fs, d).Ok?
    ensures var g := CodeNot(fs, d).value;
            && Shape(fs0, g.fs, g.d, x.pend)
            && (Starts(x, fs0) && |fs0.code| <= End(fs.code, d) && Follows(x, fs, d) ==> Follows(Negation(x), g.fs, g.d))
  {
    NotMainOk(x, fs0, fs, d);
    var g1 := NotMain(fs, d).value;
    var c2 := RemoveValues(RemoveValues(g1.fs.code, g1.d.t), g1.d.f);
    BothUnvalued(g1.fs.code, g1.d.t, g1.d.f);
    UnvaluedShape(fs0, g1.fs, g1.d, x.pend, c2);
    if Starts(x, fs0) && |fs0.code| <= End(fs.code, d) && Follows(x, fs, d) {
      UnvaluedFollows(x, fs0, g1.fs, g1.d, c2);
    }
  }
}
