// Comparisons: two operands in registers or constants, and one test.
module CodeCompare {
  import opened CodeMachine
  import opened CodeGen
  import opened CodeShape
  import opened CodeFlow
  import opened CodeLoad
  import opened CodeNil
  import opened CodeDischarge
  import opened CodeExp2Reg
  import opened CodeRegs

  predicate IsConstant(d: Desc) {
    d.t == [] && d.f == [] && (d.k.VKInt? || d.k.VK?)
  }

  predicate IsOperand(d: Desc) {
    IsConstant(d) || InRegister(d)
  }

  // The run that the second operand of an operator continues.
  ghost function Second(x: Ctx, fs1: Fs, pend: set<nat>, v: Value): Ctx
    requires x.s <= |fs1.code|
  {
    x.(base := OutOf(x, fs1, pend, |fs1.code|), pend := pend, v := v, n := fs1.freereg)
  }

  // Both operands have their values at the end of the code.
  ghost predicate Both(x: Ctx, fs: Fs, da: Desc, va: Value, db: Desc, vb: Value)
    requires x.s <= |fs.code|
  {
    var out := OutOf(x, fs, x.pend, |fs.code|);
    match x.base
    case Lost => true
    case Jump(p, r) => out == x.base && p in x.pend
    case Fall(r1) =>
      && out.Fall? && Keeps(r1, out.regs, x.n)
      && FallValue(x.g, fs, da, out.regs) == va && FallValue(x.g, fs, db, out.regs) == vb
  }

  // 'da' was compiled first, after 'fs0', and then 'db'.
  ghost predicate Operands(fs0: Fs, fsA: Fs, da: Desc, fsB: Fs, db: Desc, pend: set<nat>) {
    Shape(fs0, fsA, da, pend) && Shape(fsA, fsB, db, pend) && IsOperand(da) && IsOperand(db)
  }

  lemma OperandStays(g: Order, fs0: Fs, fsA: Fs, da: Desc, fsB: Fs, pend: set<nat>, ra: Regs, rb: Regs)
    requires Shape(fs0, fsA, da, pend) && IsOperand(da) && fsA.k <= fsB.k && Keeps(ra, rb, fsA.freereg)
    ensures FallValue(g, fsB, da, rb) == FallValue(g, fsA, da, ra)
  {
  }

  lemma NoLists(x: Ctx, d: Desc)
    requires d.t == [] && d.f == []
    ensures x.pend + Pend(d) == x.pend
  {
  }

  lemma BothOk(x: Ctx, fs0: Fs, fsA: Fs, da: Desc, fsB: Fs, db: Desc, vb: Value)
    requires Operands(fs0, fsA, da, fsB, db, x.pend) && Starts(x, fs0) && Follows(x, fsA, da)
    requires Follows(Second(x, fsA, x.pend, vb), fsB, db)
    ensures Both(x, fsB, da, x.v, db, vb)
  {
    var x2 := Second(x, fsA, x.pend, vb);
    NoLists(x, da);
    NoLists(x2, db);
    if x.base.Fall? {
      var ra := x2.base.regs;
      var out := OutOf(x2, fsB, x.pend, |fsB.code|);
      OperandStays(x.g, fs0, fsA, da, fsB, x.pend, ra, out.regs);
    }
  }

  // A constant adds nothing to the code that is there.
  lemma ConstantSecond(x: Ctx, fs0: Fs, fs: Fs, d: Desc, fs1: Fs, d1: Desc, v1: Value)
    requires Shape(fs0, fs1, d1, x.pend) && IsConstant(d) && KindOk(fs1, fs1, d)
    requires x.s <= |fs0.code| && x.base != Lost
    requires d1.t == [] && d1.f == [] && End(fs1.code, d1) == |fs1.code| && Follows(x, fs1, d1)
    requires x.base.Fall? ==> forall r :: FallValue(x.g, fs1, d, r) == v1
    ensures Follows(Second(x, fs1, x.pend, v1), fs1, d)
  {
    var x2 := Second(x, fs1, x.pend, v1);
    NoLists(x, d1);
    NoLists(x2, d);
    var out := OutOf(x, fs1, x.pend, |fs1.code|);
    if out.Fall? { assert FallValue(x.g, fs1, d, out.regs) == v1; }
  }

  lemma ConstantShape(fs0: Fs, fs: Fs, d0: Desc, pend: set<nat>, d: Desc)
    requires Shape(fs0, fs, d0, pend) && IsConstant(d) && (d.k.VK? ==> 0 <= d.k.info < |fs.k|)
    ensures Shape(fs, fs, d, pend)
  {
    forall p | p in pend ensures p < |fs.code| && PendingAt(fs.code, p) { assert PendingAt(fs.code, p); }
    assert Frame(fs, fs);
  }

  // After a constant, the second operand is as if it was the first.
  lemma AfterConstantShape(fs0: Fs, fs1: Fs, d1: Desc, fs2: Fs, d2: Desc, pend: set<nat>)
    requires Shape(fs0, fs1, d1, pend) && IsConstant(d1) && Shape(fs1, fs2, d2, pend)
    ensures Shape(fs0, fs2, d2, pend)
  {
    FrameTrans(fs0, fs1, fs2);
    forall p | p in pend ensures p < |fs0.code| && PendingAt(fs2.code, p) {
      assert PendingAt(fs1.code, p);
      assert PendingAt(fs2.code, p);
    }
  }

  lemma AfterConstant(x: Ctx, fs0: Fs, fs1: Fs, d1: Desc, fs2: Fs, d2: Desc, v2: Value)
    requires Shape(fs0, fs1, d1, x.pend) && IsConstant(d1) && Shape(fs1, fs2, d2, x.pend)
    requires Starts(x, fs0) && Follows(x, fs1, d1) && x.s <= End(fs2.code, d2)
    requires Follows(Second(x, fs1, x.pend, v2), fs2, d2)
    ensures Follows(x.(v := v2), fs2, d2)
  {
    NoLists(x, d1);
  }

  // --- The test ---

  lemma FreeExpsOk(fs0: Fs, fsA: Fs, da: Desc, fsB: Fs, db: Desc, pend: set<nat>)
    requires Operands(fs0, fsA, da, fsB, db, pend)
    ensures FreeExps(fsB, da, db) == fsB.(freereg := fs0.freereg) && FreeExps(fsB, db, da) == fsB.(freereg := fs0.freereg)
  {
  }

  ghost predicate Decides(g: Order, fs: Fs, da: Desc, va: Value, db: Desc, vb: Value, i: Instr, w: bool, r: Regs)
    requires IsTest(i) && HasConstants(fs.k, i)
  {
    FallValue(g, fs, da, r) == va && FallValue(g, fs, db, r) == vb ==> Holds(g, fs.k, i, r) == w
  }

  lemma FinishShape(fs0: Fs, fsA: Fs, da: Desc, fsB: Fs, db: Desc, pend: set<nat>, i: Instr)
    requires Operands(fs0, fsA, da, fsB, db, pend) && IsCompare(i) && HasConstants(fsB.k, i)
    ensures var fs2 := CondJump(fsB.(freereg := fs0.freereg), i);
            Shape(fs0, fs2, TestDesc(fs2), pend)
  {
    var fs2 := CondJump(fsB.(freereg := fs0.freereg), i);
    FrameTrans(fs0, fsA, fsB);
    BehindCondJump(fsB.code, fsB.lasttarget, i, fsB.lasttarget);
    assert fs2.code[..|fsB.code|] == fsB.code == fsB.code[..|fsB.code|];
    SameKeepsFrame(fs0, fsB, fs2, |fsB.code|);
    forall p | p in pend ensures p < |fs0.code| && PendingAt(fs2.code, p) {
      assert PendingAt(fsA.code, p);
      assert PendingAt(fsB.code, p);
      assert fs2.code[p] == fsB.code[p] && fs2.code[p - 1] == fsB.code[p - 1];
    }
  }

  lemma FinishFollows(x: Ctx, fs0: Fs, fsA: Fs, da: Desc, va: Value, fsB: Fs, db: Desc, vb: Value, i: Instr, w: bool)
    requires Operands(fs0, fsA, da, fsB, db, x.pend) && IsCompare(i) && HasConstants(fsB.k, i)
    requires Starts(x, fs0) && x.s <= |fsB.code| && Both(x, fsB, da, va, db, vb)
    requires x.base.Fall? ==> forall r :: Decides(x.g, fsB, da, va, db, vb, i, w, r)
    requires x.s <= End(CondJump(fsB.(freereg := fs0.freereg), i).code, TestDesc(CondJump(fsB.(freereg := fs0.freereg), i)))
    ensures var fs2 := CondJump(fsB.(freereg := fs0.freereg), i);
            Follows(x.(v := Bool(w)), fs2, TestDesc(fs2))
  {
    hide PendingAt, Advance, ListsOk, SetOf, Holds, Entry, IsConstant;
    var fs2 := CondJump(fsB.(freereg := fs0.freereg), i);
    var m := |fsB.code|;
    NoLists(x, TestDesc(fs2));
    assert fs2.code[..m] == fsB.code == fsB.code[..m];
    forall p | p in x.pend ensures p < m && PendingAt(fsB.code, p) { assert PendingAt(fsB.code, p); }
    RunExtended(x.g, fsB.k, fsB.k, fsB.code, fs2.code, x.s, m, m, x.pend, x.pend, x.r);
    var out := OutOf(x, fsB, x.pend, m);
    if x.base.Fall? {
      assert Run(x.g, fs2.k, fs2.code, m, out.regs, x.pend, m) == Fall(out.regs);
      assert Decides(x.g, fsB, da, va, db, vb, i, w, out.regs);
    }
  }
}
