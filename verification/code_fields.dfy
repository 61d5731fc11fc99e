// Every instruction that the code generator emits or patches fits the fields
// of its 32-bit word.
module CodeFields {
  import opened Results
  import opened CodeMachine
  import opened CodeGen
  import opened CodeShape
  import opened CodeFlow
  import opened CodeLoad
  import opened CodeNil
  import opened CodeDischarge
  import opened CodeExp2Reg
  import opened CodeRegs
  import opened CodeCond
  import opened CodeCompare
  import opened CodeExpr
  import opened CodeSuccess

  // --- The fields, of 8, 17 and 25 bits ---

  predicate Byte(x: int) {
    0 <= x <= 0xFF
  }

  predicate Encodable(i: Instr) {
    match i
    case Move(a, b) => Byte(a) && Byte(b)
    case LoadI(a, sbx) => Byte(a) && 0 <= sbx <= 0x1FFFF
    case LoadK(a, bx) => Byte(a) && 0 <= bx <= 0x1FFFF
    case LoadKX(a) => Byte(a)
    case ExtraArg(ax) => 0 <= ax <= 0x1FFFFFF
    case LoadNil(a, b) => Byte(a) && 0 <= b && a + b < 255
    case LoadTrue(a) => Byte(a)
    case LoadFalse(a) => Byte(a)
    case LFalseSkip(a) => Byte(a)
    case Not(a, b) => Byte(a) && Byte(b)
    case Test(a, k) => Byte(a)
    case TestSet(a, b, k) => Byte(a) && Byte(b)
    case Jmp(sj) => 0 <= sj + 0xFFFFFF <= 0x1FFFFFF
    case Foreign(id) => true
    case _ => Byte(i.a) && Byte(i.b)
  }

  ghost predicate AllEncodable(c: seq<Instr>) {
    forall p :: 0 <= p < |c| ==> Encodable(c[p])
  }

  // A state whose code, constants and registers are within the fields.
  ghost predicate InFields(fs: Fs) {
    && AllEncodable(fs.code) && |fs.k| <= 0x1FFFFFF
    && 0 <= fs.nvar && fs.freereg <= fs.maxstack < 255
  }

  // A register, or the index of a constant, that an instruction can name.
  ghost predicate KindFits(fs: Fs, k: Kind) {
    && (k.VNonReloc? ==> 0 <= k.reg < 255) && (k.VLocal? ==> 0 <= k.sidx < 255)
    && (k.VK? ==> 0 <= k.info < |fs.k|)
  }

  // The result of an operation is still within the fields.
  ghost predicate GenFits(fs: Fs, r: Compiled<Gen>) {
    r.Ok? ==> InFields(r.value.fs) && KindFits(r.value.fs, r.value.d.k) && |fs.k| <= |r.value.fs.k|
  }

  ghost predicate FsFits(fs: Fs, r: Compiled<Fs>) {
    r.Ok? ==> InFields(r.value) && |fs.k| <= |r.value.k|
  }

  // --- Jumps ---

  lemma PatchTestEncodable(c: seq<Instr>, p: nat, reg: int)
    requires AllEncodable(c) && Byte(reg)
    ensures AllEncodable(PatchTestReg(c, p, reg))
  {
    var q := Control(c, p);
    if ProducesValue(c, p) { assert Encodable(c[q]); }
  }

  lemma FixEncodable(c: seq<Instr>, p: nat, dest: int)
    requires AllEncodable(c)
    ensures FixJump(c, p, dest).Ok? ==> AllEncodable(FixJump(c, p, dest).value)
  {
  }

  lemma {:induction false} PatchListEncodable(c: seq<Instr>, list: seq<nat>, vtarget: int, reg: int, dtarget: int)
    requires AllEncodable(c) && Byte(reg)
    ensures PatchListAux(c, list, vtarget, reg, dtarget).Ok? ==> AllEncodable(PatchListAux(c, list, vtarget, reg, dtarget).value)
    decreases |list|
  {
    hide PatchTestReg, FixJump, AllEncodable, ProducesValue;
    if list != [] {
      var c1 := PatchTestReg(c, list[0], reg);
      var target := if ProducesValue(c, list[0]) then vtarget else dtarget;
      PatchTestEncodable(c, list[0], reg);
      FixEncodable(c1, list[0], target);
      var c2 := FixJump(c1, list[0], target);
      if c2.Ok? { PatchListEncodable(c2.value, list[1..], vtarget, reg, dtarget); }
    }
  }

  lemma {:induction false} RemoveEncodable(c: seq<Instr>, list: seq<nat>)
    requires AllEncodable(c)
    ensures AllEncodable(RemoveValues(c, list))
    decreases |list|
  {
    hide PatchTestReg, AllEncodable;
    if list != [] {
      PatchTestEncodable(c, list[0], NO_REG);
      RemoveEncodable(PatchTestReg(c, list[0], NO_REG), list[1..]);
    }
  }

  lemma EmitFits(fs: Fs, i: Instr)
    requires InFields(fs) && Encodable(i)
    ensures InFields(Emit(fs, i))
  {
  }

  lemma CondJumpFits(fs: Fs, i: Instr)
    requires InFields(fs) && Encodable(i)
    ensures InFields(CondJump(fs, i))
  {
  }

  lemma PatchHereFits(fs: Fs, list: seq<nat>)
    requires InFields(fs)
    ensures FsFits(fs, PatchToHere(fs, list))
  {
    hide PatchListAux;
    PatchListEncodable(fs.code, list, |fs.code|, NO_REG, |fs.code|);
  }

  // --- Registers and constants ---

  lemma AddInFields(fs: Fs, v: Value)
    requires InFields(fs)
    ensures var r := AddK(fs, v);
            r.Ok? ==> InFields(r.value) && 0 <= r.value.cache[v] < |r.value.k| && r.value == fs.(k := r.value.k, cache := r.value.cache)
                      && |fs.k| <= |r.value.k|
  {
  }

  lemma CodeKFits(fs: Fs, reg: int, idx: int)
    requires InFields(fs) && Byte(reg) && 0 <= idx < |fs.k|
    ensures InFields(CodeK(fs, reg, idx)) && CodeK(fs, reg, idx).k == fs.k
  {
  }

  lemma LoadNilFits(fs: Fs, reg: int)
    requires InFields(fs) && 0 <= reg < 255
    ensures InFields(LoadNilAt(fs, reg)) && LoadNilAt(fs, reg).k == fs.k
  {
    if Mergeable(fs) { assert Encodable(fs.code[|fs.code| - 1]); }
  }

  lemma LoadIntoFits(fs: Fs, k: Kind, reg: int)
    requires InFields(fs) && KindFits(fs, k) && 0 <= reg < 255
    ensures FsFits(fs, LoadInto(fs, k, reg))
  {
    hide LoadNilAt, AddK, CodeK;
    match k
    case VNil => LoadNilFits(fs, reg);
    case VKStr(s) => LoadConstantFits(fs, reg, Str(s));
    case VKInt(i) => LoadConstantFits(fs, reg, Int(i));
    case VK(i) => CodeKFits(fs, reg, i);
    case VReloc(p) => assert InstrAt(fs.code, p).Not? ==> Encodable(fs.code[p]);
    case _ =>
  }

  lemma LoadConstantFits(fs: Fs, reg: int, v: Value)
    requires InFields(fs) && Byte(reg)
    ensures FsFits(fs, LoadConstant(fs, reg, v))
  {
    hide AddK, InFields;
    AddInFields(fs, v);
    var r := AddK(fs, v);
    if r.Ok? { CodeKFits(r.value, reg, r.value.cache[v]); }
  }

  lemma Discharge2RegInFields(fs: Fs, d: Desc, reg: int)
    requires InFields(fs) && KindFits(fs, d.k) && 0 <= reg < 255
    ensures GenFits(fs, Discharge2Reg(fs, d, reg))
    ensures Discharge2Reg(fs, d, reg).Ok? && !d.k.VJmp? ==> Discharge2Reg(fs, d, reg).value.d.k.VNonReloc?
  {
    hide LoadInto, InFields;
    LoadIntoFits(fs, DischargeVars(d).k, reg);
  }

  lemma BooleansInFields(fs: Fs, reg: int, isTest: bool)
    requires InFields(fs) && Byte(reg)
    ensures FsFits(fs, CodeBooleans(fs, reg, isTest))
  {
    hide PatchToHere;
    var fs1 := if isTest then fs else Emit(fs, Jmp(NO_JUMP));
    var fs3 := Emit(GetLabel(Emit(GetLabel(fs1), LFalseSkip(reg))), LoadTrue(reg));
    PatchHereFits(fs3, if isTest then [] else [|fs.code|]);
  }

  lemma CloseInFields(fs: Fs, t: seq<nat>, f: seq<nat>, reg: int, isTest: bool)
    requires InFields(fs) && Byte(reg)
    ensures var r := CloseLists(fs, t, f, reg, isTest);
            FsFits(fs, r)
  {
    hide PatchListAux, CodeBooleans, NeedValue;
    if (t != [] || f != []) && CloseLists(fs, t, f, reg, isTest).Ok? {
      var need := NeedValue(fs.code, t) || NeedValue(fs.code, f);
      BooleansInFields(fs, reg, isTest);
      var fs1 := if need then CodeBooleans(fs, reg, isTest).value else fs;
      var n := |fs1.code|;
      var c1 := PatchListAux(fs1.code, f, n, reg, if need then n - 2 else NO_JUMP);
      PatchListEncodable(fs1.code, f, n, reg, if need then n - 2 else NO_JUMP);
      PatchListEncodable(c1.value, t, n, reg, if need then n - 1 else NO_JUMP);
    }
  }

  lemma Exp2RegInFields(fs: Fs, d: Desc, reg: int)
    requires InFields(fs) && KindFits(fs, d.k) && 0 <= reg < 255
    ensures GenFits(fs, Exp2Reg(fs, d, reg)) && (Exp2Reg(fs, d, reg).Ok? ==> Exp2Reg(fs, d, reg).value.d.k.VNonReloc?)
  {
    hide Discharge2Reg, CloseLists, InFields;
    Discharge2RegInFields(fs, d, reg);
    var r := Discharge2Reg(fs, d, reg);
    if r.Ok? {
      var g := r.value;
      CloseInFields(g.fs, if g.d.k.VJmp? then g.d.t + [g.d.k.pos] else g.d.t, g.d.f, reg, g.d.k.VJmp?);
    }
  }

  lemma ReserveInFields(fs: Fs)
    requires InFields(fs)
    ensures FsFits(fs, ReserveRegs(fs, 1)) && (ReserveRegs(fs, 1).Ok? ==> ReserveRegs(fs, 1).value.freereg == fs.freereg + 1)
  {
  }

  lemma Exp2NextRegInFields(fs: Fs, d: Desc)
    requires InFields(fs) && KindFits(fs, d.k) && 0 <= Base(fs, d)
    ensures GenFits(fs, Exp2NextReg(fs, d)) && (Exp2NextReg(fs, d).Ok? ==> Exp2NextReg(fs, d).value.d.k.VNonReloc?)
  {
    hide Exp2Reg, AllEncodable;
    var d1 := DischargeVars(d);
    var fs1 := FreeExp(fs, d1);
    ReserveInFields(fs1);
    if ReserveRegs(fs1, 1).Ok? { Exp2RegInFields(ReserveRegs(fs1, 1).value, d1, fs1.freereg); }
  }

  lemma Exp2AnyRegInFields(fs: Fs, d: Desc)
    requires InFields(fs) && KindFits(fs, d.k) && 0 <= Base(fs, d)
    ensures GenFits(fs, Exp2AnyReg(fs, d)) && (Exp2AnyReg(fs, d).Ok? ==> Exp2AnyReg(fs, d).value.d.k.VNonReloc?)
  {
    hide Exp2Reg, Exp2NextReg, InFields;
    var d1 := DischargeVars(d);
    if d1.k.VNonReloc? && HasJumps(d1) && d1.k.reg >= fs.nvar { Exp2RegInFields(fs, d1, d1.k.reg); }
    Exp2NextRegInFields(fs, d);
    Exp2NextRegInFields(fs, d1);
  }

  lemma Exp2KInFields(fs: Fs, d: Desc)
    requires InFields(fs) && KindFits(fs, d.k)
    ensures GenFits(fs, Exp2K(fs, d))
    ensures Exp2K(fs, d).Ok? ==> Base(Exp2K(fs, d).value.fs, Exp2K(fs, d).value.d) == Base(fs, d)
  {
    hide AddK, AllEncodable;
    AddInFields(fs, ConstantOf(d.k));
  }

  lemma Exp2RKInFields(fs: Fs, d: Desc)
    requires InFields(fs) && KindFits(fs, d.k) && 0 <= Base(fs, d)
    ensures GenFits(fs, Exp2RK(fs, d))
    ensures Exp2RK(fs, d).Ok? ==>
              var d' := Exp2RK(fs, d).value.d;
              if IsRK(d') then Byte(d'.k.info) else d'.k.VNonReloc?
  {
    hide Exp2K, Exp2AnyReg, InFields;
    Exp2KInFields(fs, d);
    var r := Exp2K(fs, d);
    if r.Ok? { Exp2AnyRegInFields(r.value.fs, r.value.d); }
  }

  // --- Conditions ---

  lemma Discharge2AnyRegInFields(fs: Fs, d: Desc)
    requires InFields(fs) && KindFits(fs, d.k) && !d.k.VJmp? && (d.k.VNonReloc? || 0 <= fs.freereg)
    ensures GenFits(fs, Discharge2AnyReg(fs, d))
    ensures Discharge2AnyReg(fs, d).Ok? ==> Discharge2AnyReg(fs, d).value.d.k.VNonReloc?
  {
    hide Discharge2Reg, AllEncodable;
    ReserveInFields(fs);
    if !d.k.VNonReloc? && ReserveRegs(fs, 1).Ok? { Discharge2RegInFields(ReserveRegs(fs, 1).value, d, fs.freereg); }
  }

  lemma NegateInFields(fs: Fs, d: Desc)
    requires InFields(fs)
    ensures InFields(NegateCondition(fs, d)) && NegateCondition(fs, d).k == fs.k
  {
    var q := if d.k.VJmp? then Control(fs.code, d.k.pos) else -1;
    if 0 <= q < |fs.code| { assert Encodable(fs.code[q]); }
  }

  lemma JumpInFields(fs: Fs, d: Desc, cond: bool)
    requires InFields(fs) && KindFits(fs, d.k) && !d.k.VJmp? && (d.k.VNonReloc? || 0 <= fs.freereg)
    ensures GenFits(fs, JumpOnCond(fs, d, cond))
  {
    hide Discharge2AnyReg, AllEncodable;
    if IsNot(fs, d) {
      DropFits(fs, d.k.at);
      CondJumpFits(fs.(code := fs.code[..|fs.code| - 1]), Test(fs.code[d.k.at].b, !cond));
    } else {
      Discharge2AnyRegInFields(fs, d);
      var r := Discharge2AnyReg(fs, d);
      if r.Ok? { CondJumpFits(FreeExp(r.value.fs, r.value.d), TestSet(NO_REG, RegOf(r.value.d), cond)); }
    }
  }

  lemma DropFits(fs: Fs, at: nat)
    requires InFields(fs) && at < |fs.code|
    ensures AllEncodable(fs.code[..|fs.code| - 1]) && Encodable(fs.code[at])
  {
  }

  lemma CondInFields(fs: Fs, d: Desc, cond: bool)
    requires InFields(fs) && KindFits(fs, d.k) && (d.k.VNonReloc? || 0 <= fs.freereg)
    ensures GenFits(fs, CondCode(fs, d, cond))
  {
    hide JumpOnCond, NegateCondition, InFields;
    if d.k.VJmp? { NegateInFields(fs, d); } else { JumpInFields(fs, d, cond); }
  }

  lemma GoIfInFields(fs: Fs, d: Desc, onTrue: bool)
    requires InFields(fs) && KindFits(fs, d.k) && (d.k.VNonReloc? || 0 <= fs.freereg)
    ensures GenFits(fs, if onTrue then GoIfTrue(fs, d) else GoIfFalse(fs, d))
  {
    hide CondCode, PatchListAux, AllEncodable;
    var d1 := DischargeVars(d);
    CondInFields(fs, d1, !onTrue);
    var r := CondCode(fs, d1, !onTrue);
    if r.Ok? { PatchHereFits(r.value.fs, if onTrue then d1.t else d1.f); }
  }

  lemma NotInFields(fs: Fs, d: Desc)
    requires InFields(fs) && KindFits(fs, d.k) && (d.k.VNonReloc? || 0 <= fs.freereg)
    ensures GenFits(fs, CodeNot(fs, d))
  {
    hide NotMain, RemoveValues, AllEncodable;
    NotMainInFields(fs, d);
    var r := NotMain(fs, d);
    if r.Ok? {
      RemoveEncodable(r.value.fs.code, r.value.d.t);
      RemoveEncodable(RemoveValues(r.value.fs.code, r.value.d.t), r.value.d.f);
    }
  }

  lemma NotMainInFields(fs: Fs, d: Desc)
    requires InFields(fs) && KindFits(fs, d.k) && (d.k.VNonReloc? || 0 <= fs.freereg)
    ensures GenFits(fs, NotMain(fs, d))
  {
    hide Discharge2AnyReg, NegateCondition, AllEncodable;
    NegateInFields(fs, d);
    if d.k.VReloc? || d.k.VNonReloc? {
      Discharge2AnyRegInFields(fs, d);
      var r := Discharge2AnyReg(fs, d);
      if r.Ok? { EmitFits(FreeExp(r.value.fs, r.value.d), Not(0, RegOf(r.value.d))); }
    }
  }

  // --- Comparisons ---

  lemma FirstInFields(fs: Fs, op: BinOp, d: Desc)
    requires !IsShort(op) && FirstOperand(op, d) && InFields(fs) && KindFits(fs, d.k) && 0 <= fs.freereg
    ensures GenFits(fs, Exp2AnyReg(fs, d)) && (Exp2AnyReg(fs, d).Ok? ==> Exp2AnyReg(fs, d).value.d.k.VNonReloc?)
    ensures d.k.VNonReloc? ==> Exp2AnyReg(fs, d) == Ok(Gen(fs, d))
  {
    hide Exp2AnyReg, InFields;
    if InRegister(d) { Exp2AnyRegStays(fs, d); } else { Exp2AnyRegInFields(fs, d); }
  }

  // A comparison whose second operand was compiled after 'fs1'.
  ghost predicate Comparing(x: Ctx, fs1: Fs, fs: Fs, op: BinOp, d1: Desc, d2: Desc) {
    && !IsShort(op) && FirstOperand(op, d1) && Shape(fs1, fs, d2, x.pend) && !d2.k.VLocal?
    && InFields(fs) && KindFits(fs, d1.k) && KindFits(fs, d2.k)
  }

  lemma SecondInFields(x: Ctx, fs1: Fs, fs: Fs, op: BinOp, d1: Desc, d2: Desc)
    requires Comparing(x, fs1, fs, op, d1, d2)
    ensures var r := Exp2AnyReg(fs, d2);
            GenFits(fs, r) && (r.Ok? ==> r.value.d.k.VNonReloc? && 0 <= r.value.fs.freereg && KindFits(r.value.fs, d1.k))
    ensures 0 <= fs.freereg && 0 <= Base(fs, d2)
  {
    hide Exp2AnyReg, AllEncodable;
    ShapeFits(fs1, fs, d2, x.pend);
    Exp2AnyRegInFields(fs, d2);
    if Exp2AnyReg(fs, d2).Ok? { Exp2AnyRegOk(x, fs1, fs, d2); }
  }

  // The value gets into a register.
  ghost predicate IntoRegister(fs: Fs, d: Desc) {
    GenFits(fs, Exp2AnyReg(fs, d)) && (Exp2AnyReg(fs, d).Ok? ==> Exp2AnyReg(fs, d).value.d.k.VNonReloc?)
  }

  lemma EndInFields(fs0: Fs, fs: Fs, da: Desc, db: Desc, i: Instr)
    requires InFields(fs) && Encodable(i) && |fs0.k| <= |fs.k|
    ensures var fs1 := CondJump(FreeExps(fs, da, db), i);
            GenFits(fs0, Ok(Gen(fs1, TestDesc(fs1))))
  {
    hide AllEncodable;
    CondJumpFits(FreeExps(fs, da, db), i);
  }

  lemma OrderRightInFields(fs: Fs, less: bool, d1: Desc, d2: Desc)
    requires IntoRegister(fs, d1) && IsSCnumber(d2)
    ensures GenFits(fs, OrderRight(fs, less, d1, d2))
  {
    hide Exp2AnyReg, InFields, CondJump, FreeExps;
    var r := Exp2AnyReg(fs, d1);
    if r.Ok? { EndInFields(fs, r.value.fs, r.value.d, d2, OrderTestRight(less, RegOf(r.value.d), d2.k.ival + OFFSET_SC)); }
  }

  lemma OrderLeftInFields(fs: Fs, less: bool, d1: Desc, d2: Desc)
    requires IntoRegister(fs, d2) && IsSCnumber(d1)
    ensures GenFits(fs, OrderLeft(fs, less, d1, d2))
  {
    hide Exp2AnyReg, InFields, CondJump, FreeExps;
    var r := Exp2AnyReg(fs, d2);
    if r.Ok? { EndInFields(fs, r.value.fs, d1, r.value.d, OrderTestLeft(less, RegOf(r.value.d), d1.k.ival + OFFSET_SC)); }
  }

  lemma OrderRegsInFields(fs: Fs, less: bool, d1: Desc, d2: Desc)
    requires IntoRegister(fs, d1) && (Exp2AnyReg(fs, d1).Ok? ==> IntoRegister(Exp2AnyReg(fs, d1).value.fs, d2))
    ensures GenFits(fs, OrderRegs(fs, less, d1, d2))
  {
    hide Exp2AnyReg, InFields, CondJump, FreeExps;
    var r := Exp2AnyReg(fs, d1);
    if r.Ok? {
      var r2 := Exp2AnyReg(r.value.fs, d2);
      if r2.Ok? { EndInFields(fs, r2.value.fs, r.value.d, r2.value.d, OrderTest(less, RegOf(r.value.d), RegOf(r2.value.d))); }
    }
  }

  lemma OrderInFields(x: Ctx, fs1: Fs, fs: Fs, less: bool, op: BinOp, d1: Desc, d2: Desc)
    requires Comparing(x, fs1, fs, op, d1, d2) && !op.OpEq? && !op.OpNe?
    ensures GenFits(fs, CodeOrder(fs, less, d1, d2)) && GenFits(fs, CodeOrder(fs, less, d2, d1))
  {
    hide Exp2AnyReg, InFields, Shape, OrderRight, OrderLeft, OrderRegs, GenFits;
    SecondInFields(x, fs1, fs, op, d1, d2);
    FirstInFields(fs, op, d1);
    if Exp2AnyReg(fs, d2).Ok? { RegisterAfter(fs, op, d1, d2); }
    if IsSCnumber(d2) {
      OrderRightInFields(fs, less, d1, d2);
      OrderLeftInFields(fs, less, d2, d1);
    }
    if IsSCnumber(d1) {
      OrderRightInFields(fs, less, d2, d1);
      OrderLeftInFields(fs, less, d1, d2);
    } else {
      OrderRegsInFields(fs, less, d1, d2);
      OrderRegsInFields(fs, less, d2, d1);
    }
  }

  // The first operand still goes into a register after the second one did.
  lemma RegisterAfter(fs: Fs, op: BinOp, d1: Desc, d2: Desc)
    requires !IsShort(op) && FirstOperand(op, d1) && IntoRegister(fs, d2) && Exp2AnyReg(fs, d2).Ok?
    requires KindFits(fs, d1.k) && 0 <= Exp2AnyReg(fs, d2).value.fs.freereg
    ensures IntoRegister(Exp2AnyReg(fs, d2).value.fs, d1)
  {
    hide Exp2AnyReg, InFields;
    FirstInFields(Exp2AnyReg(fs, d2).value.fs, op, d1);
  }

  // The end of an equality whose first operand is in a register.
  lemma EqEndInFields(fs0: Fs, fs: Fs, eq: bool, d1: Desc, d2: Desc)
    requires InFields(fs) && |fs0.k| <= |fs.k| && d1.k.VNonReloc? && KindFits(fs, d1.k) && KindFits(fs, d2.k) && 0 <= Base(fs, d2)
    ensures GenFits(fs0, if IsSCnumber(d2) then Ok(EqImmediate(fs, eq, d1, d2)) else EqOther(fs, eq, d1, d2))
  {
    hide Exp2RK, InFields, CondJump, FreeExps;
    if IsSCnumber(d2) {
      EndInFields(fs0, fs, d1, d2, EqI(RegOf(d1), d2.k.ival + OFFSET_SC, eq));
    } else {
      Exp2RKInFields(fs, d2);
      var r := Exp2RK(fs, d2);
      if r.Ok? {
        var d' := r.value.d;
        EndInFields(fs0, r.value.fs, d1, d', if IsRK(d') then EqK(RegOf(d1), d'.k.info, eq) else Eq(RegOf(d1), RegOf(d'), eq));
      }
    }
  }

  lemma EqInFields(x: Ctx, fs1: Fs, fs: Fs, eq: bool, op: BinOp, d1: Desc, d2: Desc)
    requires Comparing(x, fs1, fs, op, d1, d2) && (op.OpEq? || op.OpNe?)
    ensures GenFits(fs, CodeEq(fs, eq, d1, d2))
  {
    hide Exp2AnyReg, InFields, Shape, EqImmediate, EqOther;
    SecondInFields(x, fs1, fs, op, d1, d2);
    FirstInFields(fs, op, d1);
    if d1.k.VNonReloc? {
      EqEndInFields(fs, fs, eq, d1, d2);
    } else if Exp2AnyReg(fs, d2).Ok? {
      var g := Exp2AnyReg(fs, d2).value;
      EqEndInFields(fs, g.fs, eq, g.d, d1);
    }
  }

  lemma PosfixInFields(x: Ctx, fs1: Fs, fs: Fs, op: BinOp, d1: Desc, d: Desc)
    requires Comparing(x, fs1, fs, op, d1, DischargeVars(d))
    ensures GenFits(fs, Posfix(op, fs, d1, d))
  {
    hide CodeOrder, CodeEq, Shape, InFields, GenFits;
    var d2 := DischargeVars(d);
    if op.OpEq? || op.OpNe? {
      EqInFields(x, fs1, fs, op.OpEq?, op, d1, d2);
    } else if !IsShort(op) {
      OrderInFields(x, fs1, fs, op.OpLt? || op.OpGt?, op, d1, d2);
    }
  }

  // --- All expressions ---

  lemma InfixInFields(fs: Fs, op: BinOp, d: Desc)
    requires InFields(fs) && KindFits(fs, d.k) && (d.k.VNonReloc? || 0 <= fs.freereg) && 0 <= Base(fs, d)
    ensures GenFits(fs, Infix(op, fs, d))
  {
    hide GoIfTrue, GoIfFalse, Exp2RK, Exp2AnyReg, InFields;
    var d1 := DischargeVars(d);
    if IsShort(op) {
      GoIfInFields(fs, d1, op.OpAnd?);
    } else if op.OpEq? || op.OpNe? {
      Exp2RKInFields(fs, d1);
    } else {
      Exp2AnyRegInFields(fs, d1);
    }
  }

  lemma BinaryInFields(fs0: Fs, e: Expr, pend: set<nat>, g1: Gen, g2: Gen, g3: Gen)
    requires MayCompile(fs0, e, pend, 0) && e.Binary?
    requires Expression(fs0, e.left) == Ok(g1) && Infix(e.bop, g1.fs, g1.d) == Ok(g2) && Expression(g2.fs, e.right) == Ok(g3)
    requires InFields(g3.fs) && KindFits(g3.fs, g3.d.k) && KindFits(g2.fs, g2.d.k) && |g2.fs.k| <= |g3.fs.k|
    ensures GenFits(g3.fs, Expression(fs0, e))
  {
    hide Expression, Infix, InFields, Posfix, Shape;
    WholeIs(fs0, e, g1, g2, g3);
    if IsShort(e.bop) {
      ShortInFields(g3.fs, e.bop, g2.d, g3.d);
    } else {
      CompareGoesOn(fs0, e, pend, g1, g2);
      TookShape(g2.fs, e.right, pend);
      var x := StartOf(AnyOrder(), g2.fs, pend, 0, map[], e.right);
      DischargeVarsOk(x, g2.fs, g3.fs, g3.d);
      PosfixInFields(x, g2.fs, g3.fs, e.bop, g2.d, g3.d);
    }
  }

  lemma ShortInFields(fs: Fs, op: BinOp, d1: Desc, d: Desc)
    requires IsShort(op) && InFields(fs) && KindFits(fs, d.k)
    ensures GenFits(fs, Posfix(op, fs, d1, d))
  {
    hide InFields, CodeEq, CodeOrder;
  }

  lemma {:induction false} ExpressionInFields(fs0: Fs, e: Expr, pend: set<nat>)
    requires MayCompile(fs0, e, pend, 0) && InFields(fs0)
    ensures GenFits(fs0, Expression(fs0, e))
    decreases e
  {
    hide Infix, Posfix, Shape, Prefix, AllEncodable;
    if e.Unary? {
      ExpressionInFields(fs0, e.e, pend);
      if Expression(fs0, e.e).Ok? {
        var g := Expression(fs0, e.e).value;
        TookShape(fs0, e.e, pend);
        ShapeFits(fs0, g.fs, g.d, pend);
        PrefixInFields(fs0, g.fs, e.op, g.d, pend);
      }
    } else if e.Binary? && Expression(fs0, e).Ok? {
      ExpressionInFields(fs0, e.left, pend);
      var g1 := Expression(fs0, e.left).value;
      TookShape(fs0, e.left, pend);
      ShapeFits(fs0, g1.fs, g1.d, pend);
      ShapeRegister(fs0, g1.fs, g1.d, pend);
      InfixInFields(g1.fs, e.bop, g1.d);
      var g2 := Infix(e.bop, g1.fs, g1.d).value;
      var pend2 := pend;
      if IsShort(e.bop) { pend2 := ShortGoesOn(fs0, e, pend, g1, g2); } else { CompareGoesOn(fs0, e, pend, g1, g2); }
      ExpressionInFields(g2.fs, e.right, pend2);
      BinaryInFields(fs0, e, pend, g1, g2, Expression(g2.fs, e.right).value);
    }
  }

  lemma ShapeRegister(fs0: Fs, fs: Fs, d: Desc, pend: set<nat>)
    requires Shape(fs0, fs, d, pend)
    ensures 0 <= fs0.freereg && 0 <= fs.freereg
  {
  }

  lemma PrefixInFields(fs0: Fs, fs: Fs, op: UnOp, d: Desc, pend: set<nat>)
    requires Shape(fs0, fs, d, pend) && InFields(fs) && KindFits(fs, d.k)
    ensures GenFits(fs, Prefix(op, fs, d))
  {
    hide CodeNot, InFields;
    ShapeRegister(fs0, fs, d, pend);
    NotInFields(fs, DischargeVars(d));
  }

  // The compiled code fits the instruction format when the code before did.
  lemma CompiledEncodable(fs0: Fs, e: Expr, pend: set<nat>)
    requires Valid(fs0) && AllPending(fs0.code, pend, |fs0.code|) && WellScoped(e, fs0.nvar)
    requires AllEncodable(fs0.code) && |fs0.k| <= 0x1FFFFFF && Expression(fs0, e).Ok?
    ensures var g := Expression(fs0, e).value;
            var r := Exp2NextReg(g.fs, g.d);
            r.Ok? ==> AllEncodable(r.value.fs.code) && |r.value.fs.k| <= 0x1FFFFFF
  {
    hide Expression, Exp2NextReg, AllEncodable, Shape;
    ExpressionInFields(fs0, e, pend);
    TookShape(fs0, e, pend);
    var g := Expression(fs0, e).value;
    ShapeFits(fs0, g.fs, g.d, pend);
    ShapeRegister(fs0, g.fs, g.d, pend);
    Exp2NextRegInFields(g.fs, g.d);
  }

  // The limits that lopcodes.h derives from the sizes of the fields.
  lemma LimitsInNumbers()
    ensures MAXREGS == 255 && NO_REG == 255 && MAXARG_BX == 131071 && OFFSET_SBX == 65535
    ensures MAXARG_AX == 33554431 && MAXARG_SJ == 33554431 && OFFSET_SJ == 16777215
    ensures MAXARG_C == 255 && OFFSET_SC == 127 && MAXINDEXRK == 255
  {
  }
}
