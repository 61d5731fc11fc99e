// Expressions into the next register, any register, or a register or constant.
module CodeRegs {
  import opened Results
  import opened CodeMachine
  import opened CodeGen
  import opened CodeShape
  import opened CodeFlow
  import opened CodeLoad
  import opened CodeNil
  import opened CodeDischarge
  import opened CodeExp2Reg

  // A step from one description to another of the same expression.
  ghost predicate StepOk(x: Ctx, fs0: Fs, fs: Fs, d: Desc, fs2: Fs, d2: Desc) {
    && Shape(fs0, fs, d, x.pend) && Shape(fs0, fs2, d2, x.pend)
    && (Starts(x, fs0) && Follows(x, fs, d) ==> Follows(x, fs2, d2))
  }

  predicate InRegister(d: Desc) {
    d.k.VNonReloc? && d.t == [] && d.f == []
  }

  // Freeing the register of an expression frees what it had reserved.
  lemma FreeExpOk(fs0: Fs, fs: Fs, d: Desc, pend: set<nat>)
    requires Shape(fs0, fs, d, pend)
    ensures FreeExp(fs, d) == fs.(freereg := fs0.freereg)
  {
  }

  lemma ReserveOk(fs0: Fs, fs: Fs, d: Desc, pend: set<nat>)
    requires Shape(fs0, fs, d, pend) && ReserveRegs(fs.(freereg := fs0.freereg), 1).Ok?
    ensures Reserved(fs0, fs, ReserveRegs(fs.(freereg := fs0.freereg), 1).value)
  {
  }

  // The state in which exp2nextreg puts the value into the register.
  lemma NextReg(fs0: Fs, fs: Fs, d: Desc, pend: set<nat>, fs1: Fs)
    requires Shape(fs0, fs, d, pend) && ReserveRegs(FreeExp(fs, d), 1) == Ok(fs1)
    ensures Reserved(fs0, fs, fs1) && fs1.freereg - 1 == fs0.freereg
  {
    FreeExpOk(fs0, fs, d, pend);
    ReserveOk(fs0, fs, d, pend);
  }

  lemma DischargedNextReg(x: Ctx, fs0: Fs, fs: Fs, d: Desc, fs1: Fs, g: Gen)
    requires Shape(fs0, fs, d, x.pend) && !d.k.VLocal? && Reserved(fs0, fs, fs1)
    requires Exp2Reg(fs1, d, fs0.freereg) == Ok(g)
    ensures StepOk(x, fs0, fs, d, g.fs, g.d)
    ensures g.d == Desc(VNonReloc(fs0.freereg), [], []) && g.fs.freereg == fs0.freereg + 1
  {
    hide Exp2Reg;
    Exp2RegOk(x, fs0, fs, d, fs1);
  }

  lemma NextRegCore(x: Ctx, fs0: Fs, fs: Fs, d: Desc, fs1: Fs, g: Gen)
    requires Shape(fs0, fs, d, x.pend) && ReserveRegs(FreeExp(fs, DischargeVars(d)), 1) == Ok(fs1)
    requires Exp2Reg(fs1, DischargeVars(d), fs1.freereg - 1) == Ok(g)
    ensures StepOk(x, fs0, fs, d, g.fs, g.d)
    ensures g.d == Desc(VNonReloc(fs0.freereg), [], []) && g.fs.freereg == fs0.freereg + 1
  {
    hide Exp2Reg;
    var d1 := DischargeVars(d);
    DischargeVarsOk(x, fs0, fs, d);
    NextReg(fs0, fs, d1, x.pend, fs1);
    DischargedNextReg(x, fs0, fs, d1, fs1, g);
    StepTrans(x, fs0, fs, d, fs, d1, g.fs, g.d);
  }

  lemma Exp2NextRegOk(x: Ctx, fs0: Fs, fs: Fs, d: Desc)
    requires Shape(fs0, fs, d, x.pend) && Exp2NextReg(fs, d).Ok?
    ensures var g := Exp2NextReg(fs, d).value;
            && StepOk(x, fs0, fs, d, g.fs, g.d)
            && g.d == Desc(VNonReloc(fs0.freereg), [], []) && g.fs.freereg == fs0.freereg + 1
  {
    hide Exp2Reg, Exp2NextReg;
    var fs1, g := NextRegSteps(fs, d);
    NextRegCore(x, fs0, fs, d, fs1, g);
  }

  lemma Exp2AnyRegOk(x: Ctx, fs0: Fs, fs: Fs, d: Desc)
    requires Shape(fs0, fs, d, x.pend) && Exp2AnyReg(fs, d).Ok?
    ensures var g := Exp2AnyReg(fs, d).value;
            StepOk(x, fs0, fs, d, g.fs, g.d) && InRegister(g.d)
  {
    var d1 := DischargeVars(d);
    DischargeVarsOk(x, fs0, fs, d);
    if !(d1.k.VNonReloc? && !HasJumps(d1)) {
      if d1.k.VNonReloc? && d1.k.reg >= fs.nvar {
        Exp2RegOk(x, fs0, fs, d1, fs);
      } else {
        Exp2NextRegOk(x, fs0, fs, d1);
      }
    }
  }

  // An expression already in a register, and without jumps, stays there.
  lemma Exp2AnyRegStays(fs: Fs, d: Desc)
    requires InRegister(d)
    ensures Exp2AnyReg(fs, d) == Ok(Gen(fs, d))
  {
  }

  // More constants change nothing.
  lemma MoreConstants(x: Ctx, fs0: Fs, fs: Fs, d: Desc, fs2: Fs, d2: Desc)
    requires Shape(fs0, fs, d, x.pend) && End(fs.code, d) == |fs.code| && End(fs.code, d2) == |fs.code|
    requires fs.k <= fs2.k && fs2 == fs.(k := fs2.k, cache := fs2.cache)
    requires d2.t == d.t && d2.f == d.f && KindOk(fs0, fs2, d2)
    requires forall r :: FallValue(x.g, fs2, d2, r) == FallValue(x.g, fs, d, r)
    ensures StepOk(x, fs0, fs, d, fs2, d2)
  {
    ShapeAfter(fs0, fs, d, fs2, d2, x.pend);
    if Starts(x, fs0) && Follows(x, fs, d) {
      forall r ensures Carries(x, fs, d, fs2, d2, r) {
        assert Run(x.g, fs2.k, fs2.code, |fs.code|, r, x.pend + Pend(d2), |fs.code|) == Fall(r);
        assert Pend(d2) == Pend(d);
        assert FallValue(x.g, fs2, d2, r) == FallValue(x.g, fs, d, r);
      }
      FollowsAfter(x, fs0, fs, d, fs2, d2);
    }
  }

  lemma Exp2KOk(x: Ctx, fs0: Fs, fs: Fs, d: Desc)
    requires Shape(fs0, fs, d, x.pend) && Exp2K(fs, d).Ok?
    ensures var g := Exp2K(fs, d).value;
            StepOk(x, fs0, fs, d, g.fs, g.d) && (g.fs == fs || End(fs.code, d) == |fs.code|)
  {
    if !(HasJumps(d) || d.k.VNonReloc? || d.k.VLocal? || d.k.VJmp? || d.k.VReloc? || d.k.VK?) {
      AddKFound(fs, ConstantOf(d.k));
      var g := Exp2K(fs, d).value;
      MoreConstants(x, fs0, fs, d, g.fs, g.d);
    }
  }

  lemma StepTrans(x: Ctx, fs0: Fs, fs: Fs, d: Desc, fs1: Fs, d1: Desc, fs2: Fs, d2: Desc)
    requires StepOk(x, fs0, fs, d, fs1, d1) && StepOk(x, fs0, fs1, d1, fs2, d2)
    ensures StepOk(x, fs0, fs, d, fs2, d2)
  {
  }

  lemma Exp2RKOk(x: Ctx, fs0: Fs, fs: Fs, d: Desc)
    requires Shape(fs0, fs, d, x.pend) && Exp2RK(fs, d).Ok?
    ensures var g := Exp2RK(fs, d).value;
            StepOk(x, fs0, fs, d, g.fs, g.d) && (IsRK(g.d) || InRegister(g.d))
  {
    Exp2KOk(x, fs0, fs, d);
    var g := Exp2K(fs, d).value;
    if !IsRK(g.d) {
      Exp2AnyRegOk(x, fs0, g.fs, g.d);
      var g2 := Exp2AnyReg(g.fs, g.d).value;
      StepTrans(x, fs0, fs, d, g.fs, g.d, g2.fs, g2.d);
    }
  }

  lemma Discharge2AnyRegOk(x: Ctx, fs0: Fs, fs: Fs, d: Desc)
    requires Shape(fs0, fs, d, x.pend) && Discharge2AnyReg(fs, d).Ok? && !d.k.VJmp?
    ensures var g := Discharge2AnyReg(fs, d).value;
            StepOk(x, fs0, fs, d, g.fs, g.d) && g.d.k.VNonReloc? && g.d.t == d.t && g.d.f == d.f
  {
    if !d.k.VNonReloc? {
      var d1 := DischargeVars(d);
      DischargeVarsOk(x, fs0, fs, d);
      assert fs == fs.(freereg := fs0.freereg);
      ReserveOk(fs0, fs, d, x.pend);
      LoadIntoOk(x, fs0, fs, d1, ReserveRegs(fs, 1).value);
    }
  }
}
