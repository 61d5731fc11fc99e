// Discharging an expression: from any kind of description to a register.
module CodeDischarge {
  import opened CodeMachine
  import opened CodeGen
  import opened CodeShape
  import opened CodeFlow
  import opened CodeLoad
  import opened CodeNil

  // The run that is followed starts before the expression, whose registers
  // are those that were free then.
  ghost predicate Starts(x: Ctx, fs0: Fs) {
    Entry(fs0, x.s) && x.n == fs0.freereg
  }

  lemma LoadKXRuns(g: Order, k: seq<Value>, c: seq<Instr>, m: nat, r: Regs, pend: set<nat>, reg: int, n: int)
    requires |c| == m + 2 && c[m] == LoadKX(reg) && c[m + 1].ExtraArg? && 0 <= c[m + 1].ax < |k| && n <= reg < NO_REG
    ensures var out := Run(g, k, c, m, r, pend, m + 2);
            out.Fall? && Keeps(r, out.regs, n) && Get(out.regs, reg) == k[c[m + 1].ax]
  {
    var next := Step(g, k, c, m, r, pend, m + 2);
    assert next == At(m + 2, Set(r, reg, k[c[m + 1].ax]));
    assert Run(g, k, c, m + 2, next.regs, pend, m + 2) == Fall(next.regs);
  }

  // A constant with an index too large for one instruction.
  lemma LoadKXOk(x: Ctx, fs0: Fs, fs: Fs, d: Desc, fs1: Fs, idx: int, fs2: Fs)
    requires Shape(fs0, fs, d, x.pend) && Reserved(fs0, fs, fs1) && End(fs.code, d) == |fs.code| && !d.k.VJmp?
    requires 0 <= idx < |fs1.k| && fs2 == fs1.(code := fs.code + [LoadKX(fs0.freereg)] + [ExtraArg(idx)])
    ensures Shape(fs0, fs2, InReg(fs0, d), x.pend)
    ensures Starts(x, fs0) && Follows(x, fs, d) && (forall r :: FallValue(x.g, fs, d, r) == fs1.k[idx])
            ==> Follows(x, fs2, InReg(fs0, d))
  {
    var m := |fs.code|;
    BehindEmit(fs.code, fs.lasttarget, LoadKX(fs0.freereg), fs.lasttarget);
    BehindEmit(fs.code + [LoadKX(fs0.freereg)], fs.lasttarget, ExtraArg(idx), fs.lasttarget);
    assert fs2.code[..m] == fs.code[..m];
    ShapeAfter(fs0, fs, d, fs2, InReg(fs0, d), x.pend);
    if Starts(x, fs0) && Follows(x, fs, d) && (forall r :: FallValue(x.g, fs, d, r) == fs1.k[idx]) {
      forall r ensures Carries(x, fs, d, fs2, InReg(fs0, d), r) {
        LoadKXRuns(x.g, fs2.k, fs2.code, m, r, x.pend + Pend(InReg(fs0, d)), fs0.freereg, x.n);
        assert Pend(InReg(fs0, d)) == Pend(d);
        assert FallValue(x.g, fs, d, r) == fs1.k[idx];
      }
      FollowsAfter(x, fs0, fs, d, fs2, InReg(fs0, d));
    }
  }

  lemma CodeKOk(x: Ctx, fs0: Fs, fs: Fs, d: Desc, fs1: Fs, idx: int)
    requires Shape(fs0, fs, d, x.pend) && Reserved(fs0, fs, fs1) && End(fs.code, d) == |fs.code| && !d.k.VJmp?
    requires 0 <= idx < |fs1.k| && (forall r :: FallValue(x.g, fs, d, r) == fs1.k[idx])
    ensures var fs2 := CodeK(fs1, fs0.freereg, idx);
            && Shape(fs0, fs2, InReg(fs0, d), x.pend)
            && (Starts(x, fs0) && Follows(x, fs, d) ==> Follows(x, fs2, InReg(fs0, d)))
  {
    var fs2 := CodeK(fs1, fs0.freereg, idx);
    assert fs.code[..End(fs.code, d)] == fs.code;
    if idx <= MAXARG_BX {
      LoadOk(x, fs0, fs, d, fs1, LoadK(fs0.freereg, idx), fs2);
    } else {
      LoadKXOk(x, fs0, fs, d, fs1, idx, fs2);
    }
  }

  lemma LoadConstantOk(x: Ctx, fs0: Fs, fs: Fs, d: Desc, fs1: Fs, v: Value)
    requires Shape(fs0, fs, d, x.pend) && Reserved(fs0, fs, fs1) && End(fs.code, d) == |fs.code| && !d.k.VJmp?
    requires LoadConstant(fs1, fs0.freereg, v).Ok? && (forall r :: FallValue(x.g, fs, d, r) == v)
    ensures var fs2 := LoadConstant(fs1, fs0.freereg, v).value;
            && Shape(fs0, fs2, InReg(fs0, d), x.pend)
            && (Starts(x, fs0) && Follows(x, fs, d) ==> Follows(x, fs2, InReg(fs0, d)))
  {
    AddKFound(fs1, v);
    var fs2 := AddK(fs1, v).value;
    forall r ensures FallValue(x.g, fs, d, r) == fs2.k[fs2.cache[v]] {
      assert FallValue(x.g, fs, d, r) == v;
    }
    CodeKOk(x, fs0, fs, d, fs2, fs2.cache[v]);
  }

  lemma LoadNilOk(x: Ctx, fs0: Fs, fs: Fs, d: Desc, fs1: Fs)
    requires Shape(fs0, fs, d, x.pend) && Reserved(fs0, fs, fs1) && d.k == VNil
    ensures var fs2 := LoadNilAt(fs1, fs0.freereg);
            && Shape(fs0, fs2, InReg(fs0, d), x.pend)
            && (Starts(x, fs0) && Follows(x, fs, d) ==> Follows(x, fs2, InReg(fs0, d)))
  {
    var fs2 := LoadNilAt(fs1, fs0.freereg);
    var n := |fs.code|;
    if Mergeable(fs1) && Connects(fs1.code[n - 1].a, fs1.code[n - 1].a + fs1.code[n - 1].b, fs0.freereg) {
      MergeShape(fs0, fs, d, x.pend, fs1, fs2.code[n - 1]);
      if Starts(x, fs0) && Follows(x, fs, d) {
        EntryKept(fs0, fs, x.s);
        MergeFollows(x, fs0, fs, d, fs1);
      }
    } else {
      assert fs.code[..End(fs.code, d)] == fs.code;
      LoadOk(x, fs0, fs, d, fs1, LoadNil(fs0.freereg, 0), fs2);
    }
  }

  // The value is already in the register.
  lemma StayOk(x: Ctx, fs0: Fs, fs: Fs, d: Desc, fs1: Fs)
    requires Shape(fs0, fs, d, x.pend) && Reserved(fs0, fs, fs1) && d.k == VNonReloc(fs0.freereg)
    ensures Shape(fs0, fs1, d, x.pend)
    ensures Starts(x, fs0) && Follows(x, fs, d) ==> Follows(x, fs1, d)
  {
    ShapeAfter(fs0, fs, d, fs1, d, x.pend);
    if Starts(x, fs0) && Follows(x, fs, d) {
      forall r ensures Carries(x, fs, d, fs1, d, r) {
        assert Run(x.g, fs1.k, fs1.code, |fs.code|, r, x.pend + Pend(d), |fs.code|) == Fall(r);
      }
      FollowsAfter(x, fs0, fs, d, fs1, d);
    }
  }

  lemma LoadIntoOk(x: Ctx, fs0: Fs, fs: Fs, d: Desc, fs1: Fs)
    requires Shape(fs0, fs, d, x.pend) && Reserved(fs0, fs, fs1) && !d.k.VJmp? && !d.k.VLocal?
    requires LoadInto(fs1, d.k, fs0.freereg).Ok?
    ensures var fs2 := LoadInto(fs1, d.k, fs0.freereg).value;
            && Shape(fs0, fs2, InReg(fs0, d), x.pend)
            && (Starts(x, fs0) && Follows(x, fs, d) ==> Follows(x, fs2, InReg(fs0, d)))
  {
    hide PendingAt, IsTest, Pend;
    var fs2 := LoadInto(fs1, d.k, fs0.freereg).value;
    var reg := fs0.freereg;
    assert !d.k.VReloc? ==> fs.code[..End(fs.code, d)] == fs.code;
    match d.k
    case VNil => LoadNilOk(x, fs0, fs, d, fs1);
    case VFalse => LoadOk(x, fs0, fs, d, fs1, LoadFalse(reg), fs2);
    case VTrue => LoadOk(x, fs0, fs, d, fs1, LoadTrue(reg), fs2);
    case VKStr(s) => LoadConstantOk(x, fs0, fs, d, fs1, Str(s));
    case VK(i) => CodeKOk(x, fs0, fs, d, fs1, i);
    case VKInt(i) =>
      if -OFFSET_SBX <= i <= MAXARG_BX - OFFSET_SBX {
        LoadOk(x, fs0, fs, d, fs1, LoadI(reg, i + OFFSET_SBX), fs2);
      } else {
        LoadConstantOk(x, fs0, fs, d, fs1, Int(i));
      }
    case VReloc(p) =>
      assert fs2.code == fs.code[..End(fs.code, d)] + [Not(reg, fs.code[p].b)];
      LoadOk(x, fs0, fs, d, fs1, Not(reg, fs.code[p].b), fs2);
    case VNonReloc(r) =>
      if r == reg { StayOk(x, fs0, fs, d, fs1); } else { LoadOk(x, fs0, fs, d, fs1, Move(reg, r), fs2); }
  }

  lemma DischargeVarsOk(x: Ctx, fs0: Fs, fs: Fs, d: Desc)
    requires Shape(fs0, fs, d, x.pend)
    ensures Shape(fs0, fs, DischargeVars(d), x.pend)
    ensures x.s <= End(fs.code, d) && Follows(x, fs, d) ==> Follows(x, fs, DischargeVars(d))
  {
    assert Pend(DischargeVars(d)) == Pend(d);
  }
}
