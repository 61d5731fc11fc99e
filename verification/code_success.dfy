// When an expression compiles: the registers, the constants and the
// instructions that it may need, in numbers, and that a function with so much
// room left gets it compiled.
module CodeSuccess {
  import opened Results
  import opened CodeMachine
  import opened CodeGen
  import opened CodeShape
  import opened CodeFlow
  import opened CodeLoad
  import opened CodeNil
  import opened CodeDischarge
  import opened CodeExp2Reg
  import opened CodeRegs
  import opened CodeCond
  import opened CodeCompare
  import opened CodeExpr

  // --- What an expression needs ---

  // Registers, from the first free one on. The first operand of a comparison
  // may keep one while the second is computed.
  function RegistersFor(e: Expr): nat {
    match e
    case Unary(op, a) => RegistersFor(a)
    case Binary(op, a, b) =>
      var m := RegistersFor(b) + if IsShort(op) then 0 else 1;
      if RegistersFor(a) > m then RegistersFor(a) else m
    case _ => 1
  }

  // Constants: one for each literal.
  function ConstantsFor(e: Expr): nat {
    match e
    case Local(x) => 0
    case Unary(op, a) => ConstantsFor(a)
    case Binary(op, a, b) => ConstantsFor(a) + ConstantsFor(b)
    case _ => 1
  }

  // Instructions, before the value is moved to the register it is for.
  function InstructionsFor(e: Expr): nat {
    match e
    case Unary(op, a) => InstructionsFor(a) + 3
    case Binary(op, a, b) => InstructionsFor(a) + InstructionsFor(b) + if IsShort(op) then 4 else 17
    case _ => 0
  }

  // So many registers below 255, so many constants before the table is full,
  // and so many instructions before a jump could span 2^24 - 1 of them.
  ghost predicate Room(fs: Fs, registers: nat, constants: nat, instructions: nat) {
    fs.freereg + registers < 255 && |fs.k| + constants <= 0x1FFFFFF && |fs.code| + instructions < 0xFFFFFF
  }

  // --- Registers, constants, jumps ---

  lemma ReserveFits(fs: Fs)
    requires fs.freereg + 1 < 255 && fs.maxstack < 255
    ensures var r := ReserveRegs(fs, 1);
            r.Ok? && r.value.freereg == fs.freereg + 1 && r.value.maxstack < 255
            && r.value == fs.(freereg := r.value.freereg, maxstack := r.value.maxstack)
  {
  }

  predicate Cached(fs: Fs, v: Value) {
    v in fs.cache && 0 <= fs.cache[v] < |fs.k| && fs.k[fs.cache[v]] == v
  }

  lemma AddFits(fs: Fs, v: Value)
    requires Cached(fs, v) || |fs.k| < 0x1FFFFFF
    ensures var r := AddK(fs, v);
            && r.Ok? && Cached(r.value, v) && r.value == fs.(k := r.value.k, cache := r.value.cache)
            && |r.value.k| <= |fs.k| + if Cached(fs, v) then 0 else 1
  {
  }

  // The constants that loading a value of this kind may still add.
  function Owed(k: Kind): nat {
    if k.VNil? || k.VTrue? || k.VFalse? || k.VKInt? || k.VKStr? then 1 else 0
  }

  ghost predicate CanLoad(fs: Fs, k: Kind) {
    Owed(k) == 0 || |fs.k| < 0x1FFFFFF || Cached(fs, ConstantOf(k))
  }

  function Added(fs: Fs, k: Kind): nat {
    if Owed(k) == 1 && Cached(fs, ConstantOf(k)) then 0 else Owed(k)
  }

  lemma LoadFits(fs: Fs, k: Kind, reg: int)
    requires CanLoad(fs, k)
    ensures var r := LoadInto(fs, k, reg);
            && r.Ok? && |fs.code| <= |r.value.code| <= |fs.code| + 2 && |r.value.k| <= |fs.k| + Added(fs, k)
            && r.value.freereg == fs.freereg && r.value.maxstack == fs.maxstack && r.value.nvar == fs.nvar
  {
    if k.VKStr? || k.VKInt? { AddFits(fs, ConstantOf(k)); }
  }

  // The jumps are in the code.
  ghost predicate Inside(c: seq<Instr>, list: seq<nat>) {
    forall p :: p in list ==> p < |c|
  }

  // No jump of code this short is too long.
  lemma {:induction false} PatchFits(c: seq<Instr>, list: seq<nat>, vtarget: int, reg: int, dtarget: int)
    requires Inside(c, list) && |c| < 0xFFFFFF && -1 <= vtarget <= |c| && -1 <= dtarget <= |c|
    ensures PatchListAux(c, list, vtarget, reg, dtarget).Ok?
    decreases |list|
  {
    if list != [] {
      assert list[0] in list;
      var c1 := PatchTestReg(c, list[0], reg);
      var c2 := FixJump(c1, list[0], if ProducesValue(c, list[0]) then vtarget else dtarget).value;
      forall p | p in list[1..] ensures p < |c2| { assert p in list; }
      PatchFits(c2, list[1..], vtarget, reg, dtarget);
    }
  }

  lemma BooleansFit(fs: Fs, reg: int, isTest: bool)
    requires |fs.code| + 3 < 0xFFFFFF
    ensures var r := CodeBooleans(fs, reg, isTest);
            && r.Ok? && |fs.code| + 2 <= |r.value.code| <= |fs.code| + 3
            && r.value == fs.(code := r.value.code, lasttarget := r.value.lasttarget)
  {
    hide PatchListAux;
    var fs1 := if isTest then fs else Emit(fs, Jmp(NO_JUMP));
    var fs3 := Emit(GetLabel(Emit(GetLabel(fs1), LFalseSkip(reg))), LoadTrue(reg));
    PatchFits(fs3.code, if isTest then [] else [|fs.code|], |fs3.code|, NO_REG, |fs3.code|);
  }

  lemma CloseFits(fs: Fs, t: seq<nat>, f: seq<nat>, reg: int, isTest: bool)
    requires Inside(fs.code, t) && Inside(fs.code, f) && |fs.code| + 3 < 0xFFFFFF
    ensures var r := CloseLists(fs, t, f, reg, isTest);
            && r.Ok? && |fs.code| <= |r.value.code| <= |fs.code| + 3
            && r.value == fs.(code := r.value.code, lasttarget := r.value.lasttarget)
  {
    hide PatchListAux, CodeBooleans, NeedValue;
    if t != [] || f != [] {
      var need := NeedValue(fs.code, t) || NeedValue(fs.code, f);
      if need { BooleansFit(fs, reg, isTest); }
      var fs1 := if need then CodeBooleans(fs, reg, isTest).value else fs;
      var n := |fs1.code|;
      PatchFits(fs1.code, f, n, reg, if need then n - 2 else NO_JUMP);
      var c1 := PatchListAux(fs1.code, f, n, reg, if need then n - 2 else NO_JUMP).value;
      PatchFits(c1, t, n, reg, if need then n - 1 else NO_JUMP);
    }
  }

  // --- A value into a register ---

  ghost predicate JumpsInside(c: seq<Instr>, d: Desc) {
    Inside(c, d.t) && Inside(c, d.f) && (d.k.VJmp? ==> d.k.pos < |c|)
  }

  // The next state has at most so many more instructions, and no more
  // constants than were owed.
  ghost predicate Grew(fs: Fs, d: Desc, g: Compiled<Gen>, n: nat) {
    && g.Ok? && |fs.code| <= |g.value.fs.code| <= |fs.code| + n
    && |g.value.fs.k| + Owed(g.value.d.k) <= |fs.k| + Added(fs, d.k)
    && g.value.fs.maxstack < 255 && g.value.fs.nvar == fs.nvar
  }

  lemma Discharge2RegFits(fs: Fs, d: Desc, reg: int)
    requires CanLoad(fs, d.k) && fs.maxstack < 255
    ensures var r := Discharge2Reg(fs, d, reg);
            Grew(fs, d, r, 2) && r.value.d.t == d.t && r.value.d.f == d.f && (d.k.VJmp? ==> r.value.d.k == d.k)
            && (!d.k.VJmp? ==> r.value.d.k == VNonReloc(reg)) && r.value.fs.freereg == fs.freereg
  {
    hide LoadInto;
    LoadFits(fs, DischargeVars(d).k, reg);
  }

  lemma Exp2RegFits(fs: Fs, d: Desc, reg: int)
    requires JumpsInside(fs.code, d) && CanLoad(fs, d.k) && |fs.code| + 5 < 0xFFFFFF && fs.maxstack < 255
    ensures Grew(fs, d, Exp2Reg(fs, d, reg), 5) && Exp2Reg(fs, d, reg).value.d == Desc(VNonReloc(reg), [], [])
    ensures Exp2Reg(fs, d, reg).value.fs.freereg == fs.freereg
  {
    hide Discharge2Reg, CloseLists;
    Discharge2RegFits(fs, d, reg);
    var g := Discharge2Reg(fs, d, reg).value;
    var t := if g.d.k.VJmp? then g.d.t + [g.d.k.pos] else g.d.t;
    CloseFits(g.fs, t, g.d.f, reg, g.d.k.VJmp?);
  }

  // The first free register once the one of the value is given back.
  function Base(fs: Fs, d: Desc): int {
    FreeExp(fs, DischargeVars(d)).freereg
  }

  lemma Exp2NextRegFits(fs: Fs, d: Desc)
    requires JumpsInside(fs.code, d) && CanLoad(fs, d.k) && |fs.code| + 5 < 0xFFFFFF && fs.maxstack < 255
    requires Base(fs, d) + 1 < 255
    ensures Grew(fs, d, Exp2NextReg(fs, d), 5) && InRegister(Exp2NextReg(fs, d).value.d)
    ensures Exp2NextReg(fs, d).value.fs.freereg == Base(fs, d) + 1
  {
    hide Exp2Reg;
    var d1 := DischargeVars(d);
    ReserveFits(FreeExp(fs, d1));
    var fs1 := ReserveRegs(FreeExp(fs, d1), 1).value;
    assert Added(fs1, d1.k) == Added(fs, d.k);
    Exp2RegFits(fs1, d1, fs1.freereg - 1);
  }

  lemma Exp2AnyRegFits(fs: Fs, d: Desc)
    requires JumpsInside(fs.code, d) && CanLoad(fs, d.k) && |fs.code| + 5 < 0xFFFFFF && fs.maxstack < 255
    requires Base(fs, d) + 1 < 255
    ensures Grew(fs, d, Exp2AnyReg(fs, d), 5) && InRegister(Exp2AnyReg(fs, d).value.d)
    ensures Exp2AnyReg(fs, d).value.fs.freereg <= Base(fs, d) + 1
  {
    hide Exp2Reg, Exp2NextReg;
    var d1 := DischargeVars(d);
    if !(d1.k.VNonReloc? && !HasJumps(d1)) {
      if d1.k.VNonReloc? && d1.k.reg >= fs.nvar { Exp2RegFits(fs, d1, d1.k.reg); } else { Exp2NextRegFits(fs, d1); }
    }
  }

  lemma Exp2KFits(fs: Fs, d: Desc)
    requires CanLoad(fs, d.k) && fs.maxstack < 255
    ensures var r := Exp2K(fs, d);
            && r.Ok? && r.value.fs == fs.(k := r.value.fs.k, cache := r.value.fs.cache)
            && |r.value.fs.k| <= |fs.k| + Added(fs, d.k) && CanLoad(r.value.fs, r.value.d.k)
            && r.value.d == d.(k := r.value.d.k)
            && (r.value.d.k == d.k || (r.value.d.k.VK? && !d.k.VNonReloc? && !d.k.VLocal?))
            && |r.value.fs.k| + Added(r.value.fs, r.value.d.k) <= |fs.k| + Added(fs, d.k)
  {
    if !(HasJumps(d) || d.k.VNonReloc? || d.k.VLocal? || d.k.VJmp? || d.k.VReloc? || d.k.VK?) {
      AddFits(fs, ConstantOf(d.k));
    }
  }

  lemma Exp2RKFits(fs: Fs, d: Desc)
    requires JumpsInside(fs.code, d) && CanLoad(fs, d.k) && |fs.code| + 5 < 0xFFFFFF && fs.maxstack < 255
    requires Base(fs, d) + 1 < 255
    ensures Grew(fs, d, Exp2RK(fs, d), 5)
  {
    hide Exp2K, Exp2AnyReg;
    Exp2KFits(fs, d);
    var g := Exp2K(fs, d).value;
    if !IsRK(g.d) { Exp2AnyRegFits(g.fs, g.d); }
  }

  // --- Conditions ---

  lemma Discharge2AnyRegFits(fs: Fs, d: Desc)
    requires !d.k.VJmp? && CanLoad(fs, d.k) && fs.maxstack < 255 && (d.k.VNonReloc? || fs.freereg + 1 < 255)
    ensures var r := Discharge2AnyReg(fs, d);
            Grew(fs, d, r, 2) && r.value.d.k.VNonReloc? && r.value.d.t == d.t && r.value.d.f == d.f
  {
    hide Discharge2Reg;
    if !d.k.VNonReloc? {
      ReserveFits(fs);
      var fs1 := ReserveRegs(fs, 1).value;
      assert Added(fs1, d.k) == Added(fs, d.k);
      Discharge2RegFits(fs1, d, fs1.freereg - 1);
    }
  }

  // The lists, when the last instruction may go.
  ghost predicate ListsInside(fs: Fs, d: Desc) {
    forall p :: p in d.t || p in d.f ==> p < End(fs.code, d)
  }

  lemma CondFits(fs: Fs, d: Desc, cond: bool)
    requires ListsInside(fs, d) && CanLoad(fs, d.k) && fs.maxstack < 255
    requires d.k.VNonReloc? || d.k.VJmp? || fs.freereg + 1 < 255
    ensures var r := CondCode(fs, d, cond);
            && r.Ok? && |r.value.fs.code| <= |fs.code| + 4 && |r.value.fs.k| <= |fs.k| + Added(fs, d.k)
            && Inside(r.value.fs.code, d.t) && Inside(r.value.fs.code, d.f)
  {
    hide Discharge2AnyReg;
    if !d.k.VJmp? && !NeverIs(d.k, cond) && !IsNot(fs, d) { Discharge2AnyRegFits(fs, d); }
  }

  lemma GoIfFits(fs: Fs, d: Desc, onTrue: bool)
    requires ListsInside(fs, d) && CanLoad(fs, d.k) && fs.maxstack < 255 && |fs.code| + 4 < 0xFFFFFF
    requires d.k.VNonReloc? || d.k.VJmp? || fs.freereg + 1 < 255
    ensures var r := if onTrue then GoIfTrue(fs, d) else GoIfFalse(fs, d);
            r.Ok? && |r.value.fs.code| <= |fs.code| + 4 && |r.value.fs.k| <= |fs.k| + Added(fs, d.k)
  {
    hide CondCode, PatchListAux;
    var d1 := DischargeVars(d);
    CondFits(fs, d1, !onTrue);
    var g := CondCode(fs, d1, !onTrue).value;
    PatchFits(g.fs.code, if onTrue then d1.t else d1.f, |g.fs.code|, NO_REG, |g.fs.code|);
  }

  lemma NotFits(fs: Fs, d: Desc)
    requires CanLoad(fs, d.k) && fs.maxstack < 255 && (d.k.VNonReloc? || d.k.VJmp? || fs.freereg + 1 < 255)
    requires !d.k.VLocal? && !d.k.VK?
    ensures var r := CodeNot(fs, d);
            r.Ok? && |r.value.fs.code| <= |fs.code| + 3 && |r.value.fs.k| + Owed(r.value.d.k) <= |fs.k| + Owed(d.k)
  {
    hide Discharge2AnyReg, RemoveValues;
    if d.k.VReloc? || d.k.VNonReloc? { Discharge2AnyRegFits(fs, d); }
  }

  // --- Comparisons ---

  // A first operand stays in its register, or is a constant that a register
  // can be found for.
  lemma FirstFits(fs: Fs, op: BinOp, d: Desc)
    requires !IsShort(op) && FirstOperand(op, d) && CanLoad(fs, d.k) && |fs.code| + 5 < 0xFFFFFF && fs.maxstack < 255
    requires !d.k.VNonReloc? ==> fs.freereg + 1 < 255
    ensures Grew(fs, d, Exp2AnyReg(fs, d), 5) && Grew(fs, d, Exp2RK(fs, d), 5)
    ensures d.k.VNonReloc? ==> Exp2AnyReg(fs, d) == Ok(Gen(fs, d))
  {
    hide Exp2AnyReg, AddK;
    if InRegister(d) {
      Exp2AnyRegStays(fs, d);
    } else {
      Exp2AnyRegFits(fs, d);
      Exp2RKFits(fs, d);
    }
  }

  // Room for the operands of a comparison whose second one was just compiled.
  ghost predicate CompareRoom(fs: Fs, op: BinOp, d1: Desc, d2: Desc) {
    && !IsShort(op) && FirstOperand(op, d1) && JumpsInside(fs.code, d2) && !d2.k.VLocal?
    && fs.maxstack < 255 && Base(fs, d2) + (if d1.k.VNonReloc? then 1 else 2) < 255
    && |fs.k| + Owed(d1.k) + Owed(d2.k) <= 0x1FFFFFF && |fs.code| + 12 < 0xFFFFFF
  }

  ghost predicate ComparedInto(fs: Fs, d1: Desc, d2: Desc, r: Compiled<Gen>) {
    && r.Ok? && r.value.d.k.VJmp? && |r.value.fs.code| <= |fs.code| + 12
    && |r.value.fs.k| <= |fs.k| + Owed(d1.k) + Owed(d2.k)
  }

  // The two operands of an order comparison, also exchanged.
  lemma OrderFits(fs: Fs, less: bool, op: BinOp, d1: Desc, d2: Desc)
    requires CompareRoom(fs, op, d1, d2) && !op.OpEq? && !op.OpNe?
    ensures ComparedInto(fs, d1, d2, CodeOrder(fs, less, d1, d2)) && ComparedInto(fs, d1, d2, CodeOrder(fs, less, d2, d1))
  {
    hide Exp2AnyReg;
    if IsSCnumber(d2) {
      FirstFits(fs, op, d1);
    }
    Exp2AnyRegFits(fs, d2);
    if InRegister(d1) {
      FirstFits(fs, op, d1);
      FirstFits(Exp2AnyReg(fs, d2).value.fs, op, d1);
    }
  }

  lemma EqFits(fs: Fs, eq: bool, op: BinOp, d1: Desc, d2: Desc)
    requires CompareRoom(fs, op, d1, d2) && (op.OpEq? || op.OpNe?)
    ensures ComparedInto(fs, d1, d2, CodeEq(fs, eq, d1, d2))
  {
    hide Exp2AnyReg, Exp2RK;
    if d1.k.VNonReloc? {
      FirstFits(fs, op, d1);
      Exp2RKFits(fs, d2);
    } else {
      Exp2AnyRegFits(fs, d2);
      FirstFits(Exp2AnyReg(fs, d2).value.fs, op, d1);
    }
  }

  lemma CompareFits(fs: Fs, op: BinOp, d1: Desc, d: Desc)
    requires CompareRoom(fs, op, d1, DischargeVars(d))
    ensures ComparedInto(fs, d1, DischargeVars(d), Posfix(op, fs, d1, d))
  {
    hide CodeOrder, CodeEq;
    var d2 := DischargeVars(d);
    if op.OpEq? || op.OpNe? { EqFits(fs, op.OpEq?, op, d1, d2); } else { OrderFits(fs, op.OpLt? || op.OpGt?, op, d1, d2); }
  }

  // --- All expressions ---

  ghost function AnyOrder(): Order {
    Order((a, b) => false, (a, b) => false)
  }

  lemma ShapeFits(fs0: Fs, fs: Fs, d: Desc, pend: set<nat>)
    requires Shape(fs0, fs, d, pend)
    ensures JumpsInside(fs.code, d) && ListsInside(fs, d) && fs.maxstack < 255 && Base(fs, d) == fs0.freereg
    ensures fs.freereg <= fs0.freereg + 1 && (d.k.VNonReloc? || fs.freereg == fs0.freereg)
  {
  }

  // What compiling the expression took.
  ghost predicate Took(fs0: Fs, e: Expr, g: Gen, pend: set<nat>) {
    && Shape(fs0, g.fs, g.d, pend) && !g.d.k.VK?
    && |g.fs.code| <= |fs0.code| + InstructionsFor(e) && |g.fs.k| + Owed(g.d.k) <= |fs0.k| + ConstantsFor(e)
  }

  lemma TookShape(fs0: Fs, e: Expr, pend: set<nat>)
    requires MayCompile(fs0, e, pend, 0) && Expression(fs0, e).Ok?
    ensures var g := Expression(fs0, e).value;
            Shape(fs0, g.fs, g.d, pend) && !g.d.k.VK?
  {
    ExpressionOk(AnyOrder(), fs0, e, pend, 0, map[]);
  }

  // After the first operand of 'and' or 'or' the second one may be compiled.
  lemma ShortGoesOn(fs0: Fs, e: Expr, pend: set<nat>, g1: Gen, g2: Gen) returns (pend2: set<nat>)
    requires MayCompile(fs0, e, pend, 0) && e.Binary? && IsShort(e.bop)
    requires Expression(fs0, e.left) == Ok(g1) && Infix(e.bop, g1.fs, g1.d) == Ok(g2)
    ensures MayCompile(g2.fs, e.right, pend2, 0) && g2.fs.freereg == fs0.freereg
  {
    hide Infix, Expression;
    var x := StartOf(AnyOrder(), fs0, pend, 0, map[], e.left);
    var list := WaitingList(e.bop, g2.d);
    pend2 := pend + SetOf(list);
    ExpressionOk(AnyOrder(), fs0, e.left, pend, 0, map[]);
    ShortInfix(x, fs0, e.bop, g1.fs, g1.d, g2);
    ShortMayGoOn(x, fs0, g2.fs, list, e.bop.OpAnd?, e.right);
  }

  lemma CompareGoesOn(fs0: Fs, e: Expr, pend: set<nat>, g1: Gen, g2: Gen)
    requires MayCompile(fs0, e, pend, 0) && e.Binary? && !IsShort(e.bop)
    requires Expression(fs0, e.left) == Ok(g1) && Infix(e.bop, g1.fs, g1.d) == Ok(g2)
    ensures MayCompile(g2.fs, e.right, pend, 0) && Shape(fs0, g2.fs, g2.d, pend) && FirstOperand(e.bop, g2.d)
  {
    hide Infix, Expression;
    var x := StartOf(AnyOrder(), fs0, pend, 0, map[], e.left);
    TookShape(fs0, e.left, pend);
    CompareInfix(x, fs0, e.bop, g1.fs, g1.d, g2);
    CompareMayGoOn(x, fs0, g2.fs, g2.d, e.right);
  }

  // 'and' and 'or', whose first operand gives back its register.
  lemma ShortFits(fs0: Fs, e: Expr, pend: set<nat>, g1: Gen) returns (g2: Gen, pend2: set<nat>)
    requires MayCompile(fs0, e, pend, 0) && e.Binary? && IsShort(e.bop) && fs0.freereg + 1 < 255
    requires Expression(fs0, e.left) == Ok(g1) && Took(fs0, e.left, g1, pend)
    requires Room(fs0, 1, ConstantsFor(e.left), InstructionsFor(e.left) + 4)
    ensures Infix(e.bop, g1.fs, g1.d) == Ok(g2) && MayCompile(g2.fs, e.right, pend2, 0) && g2.fs.freereg == fs0.freereg
    ensures |g2.fs.code| <= |g1.fs.code| + 4 && |g2.fs.k| <= |g1.fs.k| + Owed(g1.d.k)
  {
    hide GoIfTrue, GoIfFalse, Expression;
    ShapeFits(fs0, g1.fs, g1.d, pend);
    var d1 := DischargeVars(g1.d);
    GoIfFits(g1.fs, d1, e.bop.OpAnd?);
    g2 := Infix(e.bop, g1.fs, g1.d).value;
    pend2 := ShortGoesOn(fs0, e, pend, g1, g2);
  }

  // The first operand of a comparison.
  lemma FirstOperandFits(fs0: Fs, e: Expr, pend: set<nat>, g1: Gen) returns (g2: Gen)
    requires MayCompile(fs0, e, pend, 0) && e.Binary? && !IsShort(e.bop) && fs0.freereg + 1 < 255
    requires Expression(fs0, e.left) == Ok(g1) && Took(fs0, e.left, g1, pend)
    requires Room(fs0, 1, ConstantsFor(e.left), InstructionsFor(e.left) + 5)
    ensures Infix(e.bop, g1.fs, g1.d) == Ok(g2) && MayCompile(g2.fs, e.right, pend, 0)
    ensures Shape(fs0, g2.fs, g2.d, pend) && FirstOperand(e.bop, g2.d)
    ensures |g2.fs.code| <= |g1.fs.code| + 5 && |g2.fs.k| + Owed(g2.d.k) <= |g1.fs.k| + Owed(g1.d.k)
  {
    hide Exp2AnyReg, Exp2RK, Expression;
    ShapeFits(fs0, g1.fs, g1.d, pend);
    var d1 := DischargeVars(g1.d);
    if e.bop.OpEq? || e.bop.OpNe? {
      if !IsNumeral(d1) { Exp2RKFits(g1.fs, d1); }
    } else {
      if !IsSCnumber(d1) { Exp2AnyRegFits(g1.fs, d1); }
    }
    g2 := Infix(e.bop, g1.fs, g1.d).value;
    CompareGoesOn(fs0, e, pend, g1, g2);
  }

  lemma UnaryFits(fs0: Fs, e: Expr, pend: set<nat>)
    requires MayCompile(fs0, e, pend, 0) && e.Unary? && Room(fs0, 1, ConstantsFor(e), InstructionsFor(e))
    requires Expression(fs0, e.e).Ok? && Took(fs0, e.e, Expression(fs0, e.e).value, pend)
    ensures Expression(fs0, e).Ok? && Took(fs0, e, Expression(fs0, e).value, pend)
  {
    hide CodeNot;
    var g1 := Expression(fs0, e.e).value;
    ShapeFits(fs0, g1.fs, g1.d, pend);
    NotFits(g1.fs, DischargeVars(g1.d));
    TookShape(fs0, e, pend);
  }

  lemma {:induction false} NeedsRegister(e: Expr)
    ensures RegistersFor(e) >= 1
    decreases e
  {
    match e
    case Unary(op, a) => NeedsRegister(a);
    case Binary(op, a, b) => NeedsRegister(a); NeedsRegister(b);
    case _ =>
  }

  lemma WholeIs(fs0: Fs, e: Expr, g1: Gen, g2: Gen, g3: Gen)
    requires e.Binary? && Expression(fs0, e.left) == Ok(g1) && Infix(e.bop, g1.fs, g1.d) == Ok(g2)
    requires Expression(g2.fs, e.right) == Ok(g3)
    ensures Expression(fs0, e) == Posfix(e.bop, g3.fs, g2.d, g3.d)
  {
    hide Infix, Posfix;
  }

  // The parts of a binary expression make up the whole.
  lemma ShortWhole(fs0: Fs, e: Expr, pend: set<nat>, g1: Gen, g2: Gen, g3: Gen)
    requires MayCompile(fs0, e, pend, 0) && e.Binary? && IsShort(e.bop)
    requires Expression(fs0, e.left) == Ok(g1) && Took(fs0, e.left, g1, pend)
    requires Infix(e.bop, g1.fs, g1.d) == Ok(g2) && Expression(g2.fs, e.right) == Ok(g3)
    requires |g2.fs.code| <= |g1.fs.code| + 4 && |g2.fs.k| <= |g1.fs.k| + Owed(g1.d.k)
    requires |g3.fs.code| <= |g2.fs.code| + InstructionsFor(e.right) && |g3.fs.k| + Owed(g3.d.k) <= |g2.fs.k| + ConstantsFor(e.right)
    ensures Expression(fs0, e).Ok? && Took(fs0, e, Expression(fs0, e).value, pend)
  {
    hide Infix, Shape, Expression;
    WholeIs(fs0, e, g1, g2, g3);
    TookShape(fs0, e, pend);
  }

  lemma CompareWhole(fs0: Fs, e: Expr, pend: set<nat>, g1: Gen, g2: Gen, g3: Gen)
    requires MayCompile(fs0, e, pend, 0) && e.Binary? && !IsShort(e.bop)
    requires Room(fs0, RegistersFor(e), ConstantsFor(e), InstructionsFor(e) + 5)
    requires Expression(fs0, e.left) == Ok(g1) && Took(fs0, e.left, g1, pend)
    requires Infix(e.bop, g1.fs, g1.d) == Ok(g2) && Shape(fs0, g2.fs, g2.d, pend) && FirstOperand(e.bop, g2.d)
    requires |g2.fs.code| <= |g1.fs.code| + 5 && |g2.fs.k| + Owed(g2.d.k) <= |g1.fs.k| + Owed(g1.d.k)
    requires Expression(g2.fs, e.right) == Ok(g3) && Took(g2.fs, e.right, g3, pend)
    ensures Expression(fs0, e).Ok? && Took(fs0, e, Expression(fs0, e).value, pend)
  {
    hide Infix, Posfix, Shape, Expression;
    WholeIs(fs0, e, g1, g2, g3);
    NeedsRegister(e.right);
    ShapeFits(fs0, g2.fs, g2.d, pend);
    ShapeFits(g2.fs, g3.fs, g3.d, pend);
    CompareFits(g3.fs, e.bop, g2.d, g3.d);
    TookShape(fs0, e, pend);
  }

  lemma {:induction false} ExpressionFits(fs0: Fs, e: Expr, pend: set<nat>)
    requires MayCompile(fs0, e, pend, 0)
    requires Room(fs0, RegistersFor(e), ConstantsFor(e), InstructionsFor(e) + 5)
    ensures Expression(fs0, e).Ok? && Took(fs0, e, Expression(fs0, e).value, pend)
    decreases e
  {
    hide Infix, Posfix, Shape, Prefix;
    NeedsRegister(e);
    if e.Unary? {
      ExpressionFits(fs0, e.e, pend);
      UnaryFits(fs0, e, pend);
    } else if e.Binary? {
      NeedsRegister(e.right);
      ExpressionFits(fs0, e.left, pend);
      var g1 := Expression(fs0, e.left).value;
      if IsShort(e.bop) {
        var g2, pend2 := ShortFits(fs0, e, pend, g1);
        ExpressionFits(g2.fs, e.right, pend2);
        ShortWhole(fs0, e, pend, g1, g2, Expression(g2.fs, e.right).value);
      } else {
        var g2 := FirstOperandFits(fs0, e, pend, g1);
        ShapeFits(fs0, g2.fs, g2.d, pend);
        ExpressionFits(g2.fs, e.right, pend);
        CompareWhole(fs0, e, pend, g1, g2, Expression(g2.fs, e.right).value);
      }
    } else {
      TookShape(fs0, e, pend);
    }
  }

  // With the registers, the constants and the instructions that the expression
  // may need there is nothing that can stop the compiler.
  lemma CompileFits(fs0: Fs, e: Expr, pend: set<nat>)
    requires Valid(fs0) && AllPending(fs0.code, pend, |fs0.code|) && WellScoped(e, fs0.nvar)
    requires Room(fs0, RegistersFor(e), ConstantsFor(e), InstructionsFor(e) + 5)
    ensures Expression(fs0, e).Ok?
    ensures var g := Expression(fs0, e).value;
            && Exp2NextReg(g.fs, g.d).Ok?
            && |Exp2NextReg(g.fs, g.d).value.fs.code| <= |fs0.code| + InstructionsFor(e) + 5
            && |Exp2NextReg(g.fs, g.d).value.fs.k| <= |fs0.k| + ConstantsFor(e)
  {
    hide Expression, Exp2NextReg;
    ExpressionFits(fs0, e, pend);
    NeedsRegister(e);
    var g := Expression(fs0, e).value;
    ShapeFits(fs0, g.fs, g.d, pend);
    Exp2NextRegFits(g.fs, g.d);
  }

  lemma NoConstantLeft(fs: Fs, v: string, reg: int)
    requires |fs.k| >= 0x1FFFFFF && !Cached(fs, Str(v))
    ensures Exp2Reg(fs, Desc(VKStr(v), [], []), reg).Err?
  {
  }

  lemma StringInto(fs: Fs, v: string, reg: int)
    requires |fs.code| + 5 < 0xFFFFFF && fs.maxstack < 255
    ensures Exp2Reg(fs, Desc(VKStr(v), [], []), reg).Ok? <==> Cached(fs, Str(v)) || |fs.k| < 0x1FFFFFF
  {
    hide Exp2Reg;
    var d := Desc(VKStr(v), [], []);
    if CanLoad(fs, d.k) { Exp2RegFits(fs, d, reg); } else { NoConstantLeft(fs, v, reg); }
  }

  lemma StringAt(fs: Fs, v: string)
    ensures Expression(fs, StrE(v)) == Ok(Gen(fs, Desc(VKStr(v), [], [])))
  {
  }

  // For a string the bounds on registers and constants are exact.
  lemma StringExactly(fs0: Fs, v: string)
    requires Valid(fs0) && |fs0.code| + 5 < 0xFFFFFF
    ensures Expression(fs0, StrE(v)) == Ok(Gen(fs0, Desc(VKStr(v), [], [])))
    ensures Exp2NextReg(fs0, Desc(VKStr(v), [], [])).Ok?
            <==> fs0.freereg < 254 && (Cached(fs0, Str(v)) || |fs0.k| < 0x1FFFFFF)
  {
    hide Exp2Reg, Behind, Expression;
    StringAt(fs0, v);
    var d := Desc(VKStr(v), [], []);
    if fs0.freereg < 254 {
      ReserveFits(fs0);
      var fs1 := ReserveRegs(fs0, 1).value;
      NextRegIs(fs0, d, fs1);
      StringInto(fs1, v, fs1.freereg - 1);
      assert Cached(fs1, Str(v)) == Cached(fs0, Str(v));
    }
  }
}
