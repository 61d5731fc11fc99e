// jumponcond, goiftrue and goiffalse.
module CodeGoIf {
  import opened Results
  import opened CodeMachine
  import opened CodeGen
  import opened CodeShape
  import opened CodeFlow
  import opened CodeLoad
  import opened CodeNil
  import opened CodeDischarge
  import opened CodeExp2Reg
  import opened CodeRegs
  import opened CodeCond
  import opened CodeHere

  // A condition has been coded: control goes on when the value is 'cond', and
  // jumps away through the lists otherwise.
  ghost predicate BranchOk(x: Ctx, fs0: Fs, fs: Fs, d: Desc, fs2: Fs, t: seq<nat>, f: seq<nat>, cond: bool) {
    && BranchShape(fs0, fs2, t, f, x.pend)
    && (Starts(x, fs0) && End(fs.code, d) >= |fs0.code| && Follows(x, fs, d) ==> Branches(x, fs2, t, f, cond))
  }

  lemma TestOk(x: Ctx, fs0: Fs, fs: Fs, d: Desc, i: Instr, fs2: Fs, cond: bool)
    requires Shape(fs0, fs, d, x.pend) && TestEmitted(fs0, fs, d, i, fs2)
    requires forall r :: Tests(x.g, fs, d, fs.k, i, cond, r)
    ensures var pc := |fs2.code| - 1;
            BranchOk(x, fs0, fs, d, fs2, WithJump(d.t, true, cond, pc), WithJump(d.f, false, cond, pc), !cond)
  {
    assert |fs0.code| <= End(fs.code, d) && fs0.freereg <= fs.freereg;
    BranchShapeOk(fs0, fs, d, x.pend, i, fs2, cond);
    if Starts(x, fs0) && Follows(x, fs, d) { BranchFollows(x, fs0, fs, d, i, fs2, cond); }
  }

  lemma JumpOnNot(x: Ctx, fs0: Fs, fs: Fs, d: Desc, cond: bool)
    requires Shape(fs0, fs, d, x.pend) && d.k.VReloc? && JumpOnCond(fs, d, cond).Ok?
    ensures var g := JumpOnCond(fs, d, cond).value;
            var pc := |g.fs.code| - 1;
            BranchOk(x, fs0, fs, d, g.fs, WithJump(d.t, true, cond, pc), WithJump(d.f, false, cond, pc), !cond)
  {
    var g := JumpOnCond(fs, d, cond).value;
    var i := Test(fs.code[d.k.at].b, !cond);
    forall r ensures Tests(x.g, fs, d, fs.k, i, cond, r) {}
    TestOk(x, fs0, fs, d, i, g.fs, cond);
  }

  lemma JumpOnValue(x: Ctx, fs0: Fs, fs: Fs, d: Desc, cond: bool)
    requires Shape(fs0, fs, d, x.pend) && !d.k.VReloc? && !d.k.VJmp? && JumpOnCond(fs, d, cond).Ok?
    ensures var g := JumpOnCond(fs, d, cond).value;
            var pc := |g.fs.code| - 1;
            BranchOk(x, fs0, fs, d, g.fs, WithJump(d.t, true, cond, pc), WithJump(d.f, false, cond, pc), !cond)
  {
    var g := JumpOnCond(fs, d, cond).value;
    Discharge2AnyRegOk(x, fs0, fs, d);
    var g1 := Discharge2AnyReg(fs, d).value;
    FreeExpOk(fs0, g1.fs, g1.d, x.pend);
    var i := TestSet(NO_REG, RegOf(g1.d), cond);
    assert g1.fs.code[..|g1.fs.code|] == g1.fs.code;
    forall r ensures Tests(x.g, g1.fs, g1.d, g1.fs.k, i, cond, r) {}
    TestOk(x, fs0, g1.fs, g1.d, i, g.fs, cond);
  }

  lemma JumpOnCondOk(x: Ctx, fs0: Fs, fs: Fs, d: Desc, cond: bool)
    requires Shape(fs0, fs, d, x.pend) && !d.k.VJmp? && JumpOnCond(fs, d, cond).Ok?
    ensures var g := JumpOnCond(fs, d, cond).value;
            var pc := |g.fs.code| - 1;
            BranchOk(x, fs0, fs, d, g.fs, WithJump(d.t, true, cond, pc), WithJump(d.f, false, cond, pc), !cond)
  {
    if d.k.VReloc? { JumpOnNot(x, fs0, fs, d, cond); } else { JumpOnValue(x, fs0, fs, d, cond); }
  }

  lemma NegatedHolds(g: Order, k: seq<Value>, i: Instr, r: Regs)
    requires IsCompare(i) && HasConstants(k, i)
    ensures IsCompare(Negated(i)) && HasConstants(k, Negated(i))
    ensures Holds(g, k, Negated(i), r) == !Holds(g, k, i, r)
  {
  }

  lemma NegateIs(fs0: Fs, fs: Fs, d: Desc, pend: set<nat>)
    requires Shape(fs0, fs, d, pend) && d.k.VJmp?
    ensures var n := |fs.code|;
            NegateCondition(fs, d) == fs.(code := fs.code[..n - 2] + [Negated(fs.code[n - 2])] + [Jmp(NO_JUMP)])
  {
    var n := |fs.code|;
    assert fs.code[n - 2 := Negated(fs.code[n - 2])] == fs.code[..n - 2] + [Negated(fs.code[n - 2])] + [Jmp(NO_JUMP)];
  }

  lemma SameTestIs(fs0: Fs, fs: Fs, d: Desc, pend: set<nat>)
    requires Shape(fs0, fs, d, pend) && d.k.VJmp?
    ensures fs.code == fs.code[..|fs.code| - 2] + [fs.code[|fs.code| - 2]] + [Jmp(NO_JUMP)]
  {
  }

  // A comparison jumps when it is true, and when negated when it is false.
  lemma JumpOnTest(x: Ctx, fs0: Fs, fs: Fs, d: Desc, cond: bool)
    requires Shape(fs0, fs, d, x.pend) && d.k.VJmp?
    ensures var fs2 := if cond then fs else NegateCondition(fs, d);
            BranchOk(x, fs0, fs, d, fs2, WithJump(d.t, true, cond, d.k.pos), WithJump(d.f, false, cond, d.k.pos), !cond)
  {
    var n := |fs.code|;
    var fs2 := if cond then fs else NegateCondition(fs, d);
    var i := if cond then fs.code[n - 2] else Negated(fs.code[n - 2]);
    NegateIs(fs0, fs, d, x.pend);
    SameTestIs(fs0, fs, d, x.pend);
    forall r ensures IsTest(i) && HasConstants(fs.k, i) && Tests(x.g, fs, d, fs.k, i, cond, r) {
      NegatedHolds(x.g, fs.k, fs.code[n - 2], r);
    }
    TestOk(x, fs0, fs, d, i, fs2, cond);
  }

  // A constant of known truth needs no jump.
  lemma NoJumpNeeded(x: Ctx, fs0: Fs, fs: Fs, d: Desc, cond: bool)
    requires Shape(fs0, fs, d, x.pend) && End(fs.code, d) == |fs.code| && fs.freereg == fs0.freereg
    requires forall r :: Truthy(FallValue(x.g, fs, d, r)) == cond
    ensures BranchOk(x, fs0, fs, d, fs, d.t, d.f, cond)
  {
    assert x.pend + SetOf(d.t) + SetOf(d.f) == x.pend + Pend(d);
    if Starts(x, fs0) && Follows(x, fs, d) {
      var out := OutOf(x, fs, x.pend + Pend(d), |fs.code|);
      assert out.Fall? ==> Truthy(FallValue(x.g, fs, d, out.regs)) == cond;
    }
  }

  lemma HereOk(x: Ctx, fs0: Fs, fs: Fs, d: Desc, fs1: Fs, t: seq<nat>, f: seq<nat>, cond: bool, fs2: Fs)
    requires Shape(fs0, fs, d, x.pend)
    requires BranchOk(x, fs0, fs, d, fs1, t, f, cond) && PatchToHere(fs1, if cond then t else f) == Ok(fs2)
    ensures BranchOk(x, fs0, fs, d, fs2, Rest(t, cond, true), Rest(f, cond, false), cond)
  {
    BranchHere(x, fs0, fs1, t, f, cond, fs2);
  }

  // A jump for when the value is 'cond'; the jumps for the contrary come here.
  lemma JumpThenHere(x: Ctx, fs0: Fs, fs: Fs, d: Desc, cond: bool, fs1: Fs, fs2: Fs)
    requires Shape(fs0, fs, d, x.pend) && !d.k.VJmp?
    requires JumpOnCond(fs, d, cond).Ok? && JumpOnCond(fs, d, cond).value.fs == fs1 && |fs1.code| > 0
    requires PatchToHere(fs1, if cond then d.f else d.t) == Ok(fs2)
    ensures var pc := |fs1.code| - 1;
            BranchOk(x, fs0, fs, d, fs2, if cond then d.t + [pc] else [], if cond then [] else d.f + [pc], !cond)
  {
    hide JumpOnCond;
    var pc := |fs1.code| - 1;
    JumpOnCondOk(x, fs0, fs, d, cond);
    HereOk(x, fs0, fs, d, fs1, WithJump(d.t, true, cond, pc), WithJump(d.f, false, cond, pc), !cond, fs2);
  }

  lemma GoIfTrueOk(x: Ctx, fs0: Fs, fs: Fs, d: Desc)
    requires Shape(fs0, fs, d, x.pend) && !d.k.VK? && !d.k.VLocal? && GoIfTrue(fs, d).Ok?
    ensures var g := GoIfTrue(fs, d).value;
            g.d.t == [] && BranchOk(x, fs0, fs, d, g.fs, [], g.d.f, true)
  {
    hide PatchToHere;
    var g := GoIfTrue(fs, d).value;
    if d.k.VJmp? {
      JumpOnTest(x, fs0, fs, d, false);
      HereOk(x, fs0, fs, d, NegateCondition(fs, d), d.t, d.f + [d.k.pos], true, g.fs);
    } else if AlwaysTrue(d.k) {
      NoJumpNeeded(x, fs0, fs, d, true);
      assert d.f + [] == d.f;
      HereOk(x, fs0, fs, d, fs, d.t, d.f, true, g.fs);
    } else {
      var g1 := JumpOnCond(fs, d, false).value;
      JumpThenHere(x, fs0, fs, d, false, g1.fs, g.fs);
    }
  }

  lemma GoIfFalseOk(x: Ctx, fs0: Fs, fs: Fs, d: Desc)
    requires Shape(fs0, fs, d, x.pend) && !d.k.VLocal? && GoIfFalse(fs, d).Ok?
    ensures var g := GoIfFalse(fs, d).value;
            g.d.f == [] && BranchOk(x, fs0, fs, d, g.fs, g.d.t, [], false)
  {
    hide PatchToHere;
    var g := GoIfFalse(fs, d).value;
    if d.k.VJmp? {
      JumpOnTest(x, fs0, fs, d, true);
      HereOk(x, fs0, fs, d, fs, d.t + [d.k.pos], d.f, false, g.fs);
    } else if d.k.VNil? || d.k.VFalse? {
      NoJumpNeeded(x, fs0, fs, d, false);
      assert d.t + [] == d.t;
      HereOk(x, fs0, fs, d, fs, d.t, d.f, false, g.fs);
    } else {
      var g1 := JumpOnCond(fs, d, true).value;
      JumpThenHere(x, fs0, fs, d, true, g1.fs, g.fs);
    }
  }
}
