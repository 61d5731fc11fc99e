// Getting the two operands of a comparison where its test wants them.
module CodeOperands {
  import opened Results
  import opened CodeMachine
  import opened CodeGen
  import opened CodeShape
  import opened CodeFlow
  import opened CodeLoad
  import opened CodeNil
  import opened CodeDischarge
  import opened CodeExp2Reg
  import opened CodeRegs
  import opened CodeCompare

  // The first operand was compiled and has value x.v; the second one after it
  // has value 'v2'.
  ghost predicate Given(x: Ctx, fs0: Fs, fs1: Fs, d1: Desc, fs2: Fs, d2: Desc, v2: Value)
    requires Shape(fs0, fs1, d1, x.pend) && Shape(fs1, fs2, d2, x.pend)
  {
    && Starts(x, fs0) && x.base != Lost && Follows(x, fs1, d1)
    && Follows(Second(x, fs1, x.pend, v2), fs2, d2)
  }

  ghost predicate Ready(x: Ctx, fs0: Fs, fsA: Fs, da: Desc, va: Value, fsB: Fs, db: Desc, vb: Value, good: bool) {
    && Operands(fs0, fsA, da, fsB, db, x.pend)
    && (good ==> x.s <= |fsB.code| && Both(x, fsB, da, va, db, vb))
  }

  lemma StartsSecond(x: Ctx, fs0: Fs, fs1: Fs, d1: Desc, v2: Value)
    requires Shape(fs0, fs1, d1, x.pend) && Starts(x, fs0)
    ensures x.s <= |fs1.code| && Starts(Second(x, fs1, x.pend, v2), fs1)
  {
    EntryKept(fs0, fs1, x.s);
  }

  lemma RegThenReg(x: Ctx, fs0: Fs, fs1: Fs, d1: Desc, fs2: Fs, d2: Desc, v2: Value, g: Gen)
    requires Shape(fs0, fs1, d1, x.pend) && Shape(fs1, fs2, d2, x.pend) && InRegister(d1)
    requires Exp2AnyReg(fs2, d2) == Ok(g)
    ensures Ready(x, fs0, fs1, d1, x.v, g.fs, g.d, v2, Given(x, fs0, fs1, d1, fs2, d2, v2)) && InRegister(g.d)
  {
    if Given(x, fs0, fs1, d1, fs2, d2, v2) {
      StartsSecond(x, fs0, fs1, d1, v2);
      Exp2AnyRegOk(Second(x, fs1, x.pend, v2), fs1, fs2, d2);
      BothOk(x, fs0, fs1, d1, g.fs, g.d, v2);
    } else {
      Exp2AnyRegOk(x, fs1, fs2, d2);
    }
  }

  lemma RegThenConstant(x: Ctx, fs0: Fs, fs1: Fs, d1: Desc, fs2: Fs, d2: Desc, v2: Value)
    requires Shape(fs0, fs1, d1, x.pend) && Shape(fs1, fs2, d2, x.pend) && InRegister(d1) && IsConstant(d2)
    ensures Ready(x, fs0, fs1, d1, x.v, fs2, d2, v2, Given(x, fs0, fs1, d1, fs2, d2, v2))
  {
    if Given(x, fs0, fs1, d1, fs2, d2, v2) {
      StartsSecond(x, fs0, fs1, d1, v2);
      BothOk(x, fs0, fs1, d1, fs2, d2, v2);
    }
  }

  lemma RegThenRK(x: Ctx, fs0: Fs, fs1: Fs, d1: Desc, fs2: Fs, d2: Desc, v2: Value, g: Gen)
    requires Shape(fs0, fs1, d1, x.pend) && Shape(fs1, fs2, d2, x.pend) && InRegister(d1)
    requires Exp2RK(fs2, d2) == Ok(g)
    ensures Ready(x, fs0, fs1, d1, x.v, g.fs, g.d, v2, Given(x, fs0, fs1, d1, fs2, d2, v2))
    ensures IsRK(g.d) || InRegister(g.d)
  {
    if Given(x, fs0, fs1, d1, fs2, d2, v2) {
      StartsSecond(x, fs0, fs1, d1, v2);
      Exp2RKOk(Second(x, fs1, x.pend, v2), fs1, fs2, d2);
      BothOk(x, fs0, fs1, d1, g.fs, g.d, v2);
    } else {
      Exp2RKOk(x, fs1, fs2, d2);
    }
  }

  lemma ConstantIs(x: Ctx, fs0: Fs, fs1: Fs, d1: Desc, fs: Fs)
    requires Shape(fs0, fs1, d1, x.pend) && IsConstant(d1) && Starts(x, fs0) && Follows(x, fs1, d1) && fs1.k <= fs.k
    ensures x.base.Fall? ==> forall r :: FallValue(x.g, fs, d1, r) == x.v
  {
    NoLists(x, d1);
  }

  // The first operand is a constant: the second one goes into a register as
  // if it was first.
  lemma ConstantThenReg(x: Ctx, fs0: Fs, fs1: Fs, d1: Desc, fs2: Fs, d2: Desc, v2: Value, g: Gen)
    requires Shape(fs0, fs1, d1, x.pend) && Shape(fs1, fs2, d2, x.pend) && IsConstant(d1)
    requires Exp2AnyReg(fs2, d2) == Ok(g)
    ensures Ready(x, fs0, g.fs, g.d, v2, g.fs, d1, x.v, Given(x, fs0, fs1, d1, fs2, d2, v2)) && InRegister(g.d)
    ensures Given(x, fs0, fs1, d1, fs2, d2, v2) ==> Follows(x.(v := v2), g.fs, g.d)
  {
    hide Exp2AnyReg;
    var x' := x.(v := v2);
    AfterConstantShape(fs0, fs1, d1, fs2, d2, x.pend);
    Exp2AnyRegOk(x', fs0, fs2, d2);
    Exp2AnyRegMore(x', fs1, fs2, d2);
    ConstantShape(fs0, g.fs, g.d, x.pend, d1);
    if Given(x, fs0, fs1, d1, fs2, d2, v2) {
      AfterConstant(x, fs0, fs1, d1, fs2, d2, v2);
      ConstantIs(x, fs0, fs1, d1, g.fs);
      ConstantSecond(x', fs0, fs1, d1, g.fs, g.d, x.v);
      BothOk(x', fs0, g.fs, g.d, g.fs, d1, x.v);
    }
  }

  lemma Exp2AnyRegMore(x: Ctx, fs0: Fs, fs: Fs, d: Desc)
    requires Shape(fs0, fs, d, x.pend) && Exp2AnyReg(fs, d).Ok?
    ensures fs0.k <= Exp2AnyReg(fs, d).value.fs.k
  {
    Exp2AnyRegOk(x, fs0, fs, d);
  }

  // Both operands are constants: the first one goes into a register, after
  // whatever code came before the second one.
  lemma ConstantThenConstant(x: Ctx, fs0: Fs, fs1: Fs, d1: Desc, fs2: Fs, d2: Desc, v2: Value, g: Gen)
    requires Shape(fs0, fs1, d1, x.pend) && Shape(fs1, fs2, d2, x.pend) && IsConstant(d1) && IsConstant(d2)
    requires Exp2AnyReg(fs2, d1) == Ok(g)
    ensures Ready(x, fs0, fs2, d2, v2, g.fs, g.d, x.v, Given(x, fs0, fs1, d1, fs2, d2, v2)) && InRegister(g.d)
  {
    hide Exp2AnyReg;
    var x' := x.(v := v2);
    AfterConstantShape(fs0, fs1, d1, fs2, d2, x.pend);
    ConstantShape(fs0, fs2, d2, x.pend, d1);
    if Given(x, fs0, fs1, d1, fs2, d2, v2) {
      AfterConstant(x, fs0, fs1, d1, fs2, d2, v2);
      ConstantIs(x, fs0, fs1, d1, fs2);
      ConstantSecond(x', fs0, fs1, d1, fs2, d2, x.v);
      StartsSecond(x', fs0, fs2, d2, x.v);
      Exp2AnyRegOk(Second(x', fs2, x.pend, x.v), fs2, fs2, d1);
      BothOk(x', fs0, fs2, d2, g.fs, g.d, x.v);
    } else {
      Exp2AnyRegOk(x', fs2, fs2, d1);
    }
  }

  // The second operand is in a register, and the first one, a constant,
  // becomes an R/K operand.
  lemma ConstantThenRK(x: Ctx, fs0: Fs, fs1: Fs, d1: Desc, fs2: Fs, d2: Desc, v2: Value, g: Gen, g2: Gen)
    requires Shape(fs0, fs1, d1, x.pend) && Shape(fs1, fs2, d2, x.pend) && IsConstant(d1)
    requires Exp2AnyReg(fs2, d2) == Ok(g) && Exp2RK(g.fs, d1) == Ok(g2)
    ensures Ready(x, fs0, g.fs, g.d, v2, g2.fs, g2.d, x.v, Given(x, fs0, fs1, d1, fs2, d2, v2))
    ensures InRegister(g.d) && (IsRK(g2.d) || InRegister(g2.d))
  {
    hide Exp2AnyReg, Exp2RK;
    var x' := x.(v := v2);
    ConstantThenReg(x, fs0, fs1, d1, fs2, d2, v2, g);
    if Given(x, fs0, fs1, d1, fs2, d2, v2) {
      ConstantIs(x, fs0, fs1, d1, g.fs) by { Exp2AnyRegMore(x', fs1, fs2, d2); }
      ConstantSecond(x', fs0, fs1, d1, g.fs, g.d, x.v);
      StartsSecond(x', fs0, g.fs, g.d, x.v);
      Exp2RKOk(Second(x', g.fs, x.pend, x.v), g.fs, g.fs, d1);
      BothOk(x', fs0, g.fs, g.d, g2.fs, g2.d, x.v);
    } else {
      Exp2RKOk(x', g.fs, g.fs, d1);
    }
  }
}
