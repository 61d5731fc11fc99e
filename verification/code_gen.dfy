// What the code generator computes for short-circuit expressions, as functions
// on the state of a function being compiled. Jumps that wait for their
// destination are kept in sequences here; FuncState, the class, threads the
// same lists through the jump instructions themselves.
module CodeGen {
  import opened Results
  import opened CodeMachine

  type Compiled<+T> = Result<T, string>

  datatype Kind =
    | VNil | VTrue | VFalse | VK(info: int) | VKInt(ival: int) | VKStr(sval: string)
    | VNonReloc(reg: int) | VLocal(sidx: int) | VJmp(pos: nat) | VReloc(at: nat)

  // A partially compiled expression: where its value is, and the jumps that
  // leave it when it turned out true or false.
  datatype Desc = Desc(k: Kind, t: seq<nat>, f: seq<nat>)

  datatype Fs = Fs(code: seq<Instr>, k: seq<Value>, cache: map<Value, int>, freereg: int, maxstack: int,
                   lasttarget: int, nvar: int)

  datatype Gen = Gen(fs: Fs, d: Desc)

  datatype UnOp = OpNot
  datatype BinOp = OpAnd | OpOr | OpEq | OpNe | OpLt | OpLe | OpGt | OpGe

  datatype Expr =
    | Local(sidx: int) | NilE | TrueE | FalseE | IntE(ival: int) | StrE(sval: string)
    | Unary(op: UnOp, e: Expr) | Binary(bop: BinOp, left: Expr, right: Expr)

  // --- Instructions and jump lists ---

  function InstrAt(c: seq<Instr>, p: int): Instr {
    if 0 <= p < |c| then c[p] else Foreign(0)
  }

  // The test that controls the jump at 'p', or the jump itself.
  function Control(c: seq<Instr>, p: int): int {
    if p >= 1 && IsTest(InstrAt(c, p - 1)) then p - 1 else p
  }

  predicate ProducesValue(c: seq<Instr>, p: int) {
    InstrAt(c, Control(c, p)).TestSet?
  }

  function Retarget(i: Instr, reg: int): Instr
    requires i.TestSet?
  {
    if reg != NO_REG && reg != i.b then TestSet(reg, i.b, i.k) else Test(i.b, i.k)
  }

  function PatchTestReg(c: seq<Instr>, p: int, reg: int): (c': seq<Instr>)
    ensures |c'| == |c|
  {
    var q := Control(c, p);
    if ProducesValue(c, p) then c[q := Retarget(c[q], reg)] else c
  }

  predicate FitsSJ(offset: int) {
    -OFFSET_SJ <= offset <= MAXARG_SJ - OFFSET_SJ
  }

  function FixJump(c: seq<Instr>, p: int, dest: int): (res: Compiled<seq<Instr>>)
    ensures res.Ok? ==> |res.value| == |c|
  {
    if !FitsSJ(dest - (p + 1)) then Err("control structure too long")
    else Ok(if 0 <= p < |c| then c[p := Jmp(dest - (p + 1))] else c)
  }

  function PatchListAux(c: seq<Instr>, list: seq<nat>, vtarget: int, reg: int, dtarget: int): (res: Compiled<seq<Instr>>)
    ensures res.Ok? ==> |res.value| == |c|
    decreases |list|
  {
    if list == [] then Ok(c)
    else
      var c1 := PatchTestReg(c, list[0], reg);
      var c2 :- FixJump(c1, list[0], if ProducesValue(c, list[0]) then vtarget else dtarget);
      PatchListAux(c2, list[1..], vtarget, reg, dtarget)
  }

  function RemoveValues(c: seq<Instr>, list: seq<nat>): (c': seq<Instr>)
    ensures |c'| == |c|
    decreases |list|
  {
    if list == [] then c else RemoveValues(PatchTestReg(c, list[0], NO_REG), list[1..])
  }

  predicate NeedValue(c: seq<Instr>, list: seq<nat>) {
    exists p :: p in list && !ProducesValue(c, p)
  }

  function Emit(fs: Fs, i: Instr): Fs {
    fs.(code := fs.code + [i])
  }

  function CondJump(fs: Fs, test: Instr): Fs {
    Emit(Emit(fs, test), Jmp(NO_JUMP))
  }

  function GetLabel(fs: Fs): Fs {
    fs.(lasttarget := |fs.code|)
  }

  function PatchToHere(fs: Fs, list: seq<nat>): Compiled<Fs> {
    var c :- PatchListAux(fs.code, list, |fs.code|, NO_REG, |fs.code|);
    Ok(fs.(code := c, lasttarget := |fs.code|))
  }

  // --- Registers and constants ---

  function ReserveRegs(fs: Fs, n: int): Compiled<Fs> {
    var newstack := fs.freereg + n;
    if newstack > fs.maxstack && newstack >= MAXREGS
    then Err("function or expression needs too many registers")
    else Ok(fs.(freereg := newstack, maxstack := if newstack > fs.maxstack then newstack else fs.maxstack))
  }

  function FreeReg(fs: Fs, reg: int): Fs {
    if reg >= fs.nvar then fs.(freereg := fs.freereg - 1) else fs
  }

  function FreeRegs(fs: Fs, r1: int, r2: int): Fs {
    if r1 > r2 then FreeReg(FreeReg(fs, r1), r2) else FreeReg(FreeReg(fs, r2), r1)
  }

  function RegOf(d: Desc): int {
    if d.k.VNonReloc? then d.k.reg else -1
  }

  function FreeExp(fs: Fs, d: Desc): Fs {
    if d.k.VNonReloc? then FreeReg(fs, d.k.reg) else fs
  }

  function FreeExps(fs: Fs, d1: Desc, d2: Desc): Fs {
    FreeRegs(fs, RegOf(d1), RegOf(d2))
  }

  // After AddK the cache holds the index of the constant.
  function AddK(fs: Fs, v: Value): (res: Compiled<Fs>)
    ensures res.Ok? ==> v in res.value.cache
  {
    if v in fs.cache && 0 <= fs.cache[v] < |fs.k| && fs.k[fs.cache[v]] == v then Ok(fs)
    else if |fs.k| >= MAXARG_AX then Err("too many constants")
    else Ok(fs.(k := fs.k + [v], cache := fs.cache[v := |fs.k|]))
  }

  function CodeK(fs: Fs, reg: int, idx: int): Fs {
    if idx <= MAXARG_BX then Emit(fs, LoadK(reg, idx)) else Emit(Emit(fs, LoadKX(reg)), ExtraArg(idx))
  }

  function LoadConstant(fs: Fs, reg: int, v: Value): Compiled<Fs> {
    var fs1 :- AddK(fs, v);
    Ok(CodeK(fs1, reg, fs1.cache[v]))
  }

  function LoadInt(fs: Fs, reg: int, i: int): Compiled<Fs> {
    if -OFFSET_SBX <= i <= MAXARG_BX - OFFSET_SBX then Ok(Emit(fs, LoadI(reg, i + OFFSET_SBX)))
    else LoadConstant(fs, reg, Int(i))
  }

  predicate Mergeable(fs: Fs) {
    |fs.code| > 0 && fs.lasttarget < |fs.code| && fs.code[|fs.code| - 1].LoadNil?
  }

  // The range of a LOADNIL and one more register, when they can be connected.
  predicate Connects(pfrom: int, pl: int, reg: int) {
    (pfrom <= reg && reg <= pl + 1) || (reg <= pfrom && pfrom <= reg + 1)
  }

  function LoadNilAt(fs: Fs, reg: int): Fs {
    if Mergeable(fs)
       && Connects(fs.code[|fs.code| - 1].a, fs.code[|fs.code| - 1].a + fs.code[|fs.code| - 1].b, reg)
    then
      var prev := fs.code[|fs.code| - 1];
      var from := if prev.a < reg then prev.a else reg;
      var last := if prev.a + prev.b > reg then prev.a + prev.b else reg;
      fs.(code := fs.code[|fs.code| - 1 := LoadNil(from, last - from)])
    else Emit(fs, LoadNil(reg, 0))
  }

  // --- Putting a value into a register ---

  predicate HasJumps(d: Desc) {
    d.t != [] || d.f != []
  }

  function DischargeVars(d: Desc): Desc {
    if d.k.VLocal? then d.(k := VNonReloc(d.k.sidx)) else d
  }

  function LoadInto(fs: Fs, k: Kind, reg: int): Compiled<Fs> {
    match k
    case VNil => Ok(LoadNilAt(fs, reg))
    case VFalse => Ok(Emit(fs, LoadFalse(reg)))
    case VTrue => Ok(Emit(fs, LoadTrue(reg)))
    case VKStr(s) => LoadConstant(fs, reg, Str(s))
    case VK(i) => Ok(CodeK(fs, reg, i))
    case VKInt(i) => LoadInt(fs, reg, i)
    case VReloc(p) =>
      Ok(if InstrAt(fs.code, p).Not? then fs.(code := fs.code[p := Not(reg, fs.code[p].b)]) else fs)
    case VNonReloc(r) => Ok(if r != reg then Emit(fs, Move(reg, r)) else fs)
    case _ => Ok(fs)
  }

  function Discharge2Reg(fs: Fs, d: Desc, reg: int): Compiled<Gen> {
    var d1 := DischargeVars(d);
    var fs1 :- LoadInto(fs, d1.k, reg);
    Ok(Gen(fs1, if d1.k.VJmp? then d1 else d1.(k := VNonReloc(reg))))
  }

  function Discharge2AnyReg(fs: Fs, d: Desc): Compiled<Gen> {
    if d.k.VNonReloc? then Ok(Gen(fs, d))
    else
      var fs1 :- ReserveRegs(fs, 1);
      Discharge2Reg(fs1, d, fs1.freereg - 1)
  }

  // The boolean loads for those jumps that bring no value, and a jump around
  // them when the expression is not itself a test.
  function CodeBooleans(fs: Fs, reg: int, isTest: bool): Compiled<Fs> {
    var fs1 := if isTest then fs else Emit(fs, Jmp(NO_JUMP));
    var fs2 := Emit(GetLabel(fs1), LFalseSkip(reg));
    var fs3 := Emit(GetLabel(fs2), LoadTrue(reg));
    PatchToHere(fs3, if isTest then [] else [|fs.code|])
  }

  function CloseLists(fs: Fs, t: seq<nat>, f: seq<nat>, reg: int, isTest: bool): Compiled<Fs> {
    if t == [] && f == [] then Ok(fs)
    else
      var need := NeedValue(fs.code, t) || NeedValue(fs.code, f);
      var fs1 :- if need then CodeBooleans(fs, reg, isTest) else Ok(fs);
      var final := |fs1.code|;
      var c1 :- PatchListAux(fs1.code, f, final, reg, if need then final - 2 else NO_JUMP);
      var c2 :- PatchListAux(c1, t, final, reg, if need then final - 1 else NO_JUMP);
      Ok(fs1.(code := c2, lasttarget := final))
  }

  function Exp2Reg(fs: Fs, d: Desc, reg: int): Compiled<Gen> {
    var g :- Discharge2Reg(fs, d, reg);
    var t := if g.d.k.VJmp? then g.d.t + [g.d.k.pos] else g.d.t;
    var fs1 :- CloseLists(g.fs, t, g.d.f, reg, g.d.k.VJmp?);
    Ok(Gen(fs1, Desc(VNonReloc(reg), [], [])))
  }

  function Exp2NextReg(fs: Fs, d: Desc): Compiled<Gen> {
    var d1 := DischargeVars(d);
    var fs1 :- ReserveRegs(FreeExp(fs, d1), 1);
    Exp2Reg(fs1, d1, fs1.freereg - 1)
  }

  function Exp2AnyReg(fs: Fs, d: Desc): Compiled<Gen> {
    var d1 := DischargeVars(d);
    if d1.k.VNonReloc? && !HasJumps(d1) then Ok(Gen(fs, d1))
    else if d1.k.VNonReloc? && d1.k.reg >= fs.nvar then Exp2Reg(fs, d1, d1.k.reg)
    else Exp2NextReg(fs, d1)
  }

  predicate IsRK(d: Desc) {
    d.k.VK? && !HasJumps(d) && d.k.info <= MAXINDEXRK
  }

  function ConstantOf(k: Kind): Value {
    match k
    case VTrue => Bool(true)
    case VFalse => Bool(false)
    case VKInt(i) => Int(i)
    case VKStr(s) => Str(s)
    case _ => Nil
  }

  // Moves a constant to 'k'; the result is an R/K constant, or the
  // description as it was.
  function Exp2K(fs: Fs, d: Desc): Compiled<Gen> {
    if HasJumps(d) || d.k.VNonReloc? || d.k.VLocal? || d.k.VJmp? || d.k.VReloc? || d.k.VK? then Ok(Gen(fs, d))
    else
      var v := ConstantOf(d.k);
      var fs1 :- AddK(fs, v);
      Ok(Gen(fs1, if fs1.cache[v] <= MAXINDEXRK then d.(k := VK(fs1.cache[v])) else d))
  }

  function Exp2RK(fs: Fs, d: Desc): Compiled<Gen> {
    var g :- Exp2K(fs, d);
    if IsRK(g.d) then Ok(g) else Exp2AnyReg(g.fs, g.d)
  }

  // --- Conditions ---

  function Negated(i: Instr): Instr {
    match i
    case Eq(a, b, k) => Eq(a, b, !k)
    case Lt(a, b, k) => Lt(a, b, !k)
    case Le(a, b, k) => Le(a, b, !k)
    case EqK(a, b, k) => EqK(a, b, !k)
    case EqI(a, b, k) => EqI(a, b, !k)
    case LtI(a, b, k) => LtI(a, b, !k)
    case LeI(a, b, k) => LeI(a, b, !k)
    case GtI(a, b, k) => GtI(a, b, !k)
    case GeI(a, b, k) => GeI(a, b, !k)
    case _ => i
  }

  function NegateCondition(fs: Fs, d: Desc): Fs {
    var q := if d.k.VJmp? then Control(fs.code, d.k.pos) else -1;
    if 0 <= q < |fs.code| then fs.(code := fs.code[q := Negated(fs.code[q])]) else fs
  }

  predicate IsNot(fs: Fs, d: Desc) {
    d.k.VReloc? && InstrAt(fs.code, d.k.at).Not? && |fs.code| > 0
  }

  // A jump, at the end of the code, for when 'd' is 'cond'.
  function JumpOnCond(fs: Fs, d: Desc, cond: bool): Compiled<Gen> {
    if IsNot(fs, d) then
      var fs1 := fs.(code := fs.code[..|fs.code| - 1]);
      Ok(Gen(CondJump(fs1, Test(fs.code[d.k.at].b, !cond)), d))
    else
      var g :- Discharge2AnyReg(fs, d);
      Ok(Gen(CondJump(FreeExp(g.fs, g.d), TestSet(NO_REG, RegOf(g.d), cond)), g.d))
  }

  predicate AlwaysTrue(k: Kind) {
    k.VK? || k.VKInt? || k.VKStr? || k.VTrue?
  }

  // A constant that is known never to be 'cond'.
  predicate NeverIs(k: Kind, cond: bool) {
    if cond then k.VNil? || k.VFalse? else AlwaysTrue(k)
  }

  // The code that jumps away when 'd' is 'cond', and its jump if it has one.
  function CondCode(fs: Fs, d: Desc, cond: bool): Compiled<Gen> {
    if d.k.VJmp? then Ok(Gen(if cond then fs else NegateCondition(fs, d), d))
    else if NeverIs(d.k, cond) then Ok(Gen(fs, d))
    else JumpOnCond(fs, d, cond)
  }

  function CondPos(c: seq<Instr>, k: Kind, cond: bool): seq<nat> {
    if k.VJmp? then [k.pos] else if NeverIs(k, cond) || |c| == 0 then [] else [|c| - 1]
  }

  function GoIfTrue(fs: Fs, d: Desc): Compiled<Gen> {
    var d1 := DischargeVars(d);
    var g :- CondCode(fs, d1, false);
    var fs2 :- PatchToHere(g.fs, d1.t);
    Ok(Gen(fs2, Desc(g.d.k, [], d1.f + CondPos(g.fs.code, d1.k, false))))
  }

  function GoIfFalse(fs: Fs, d: Desc): Compiled<Gen> {
    var d1 := DischargeVars(d);
    var g :- CondCode(fs, d1, true);
    var fs2 :- PatchToHere(g.fs, d1.f);
    Ok(Gen(fs2, Desc(g.d.k, d1.t + CondPos(g.fs.code, d1.k, true), [])))
  }

  function NotMain(fs: Fs, d: Desc): Compiled<Gen> {
    match d.k
    case VNil => Ok(Gen(fs, d.(k := VTrue)))
    case VFalse => Ok(Gen(fs, d.(k := VTrue)))
    case VJmp(p) => Ok(Gen(NegateCondition(fs, d), d))
    case VReloc(p) => NotOfReg(fs, d)
    case VNonReloc(r) => NotOfReg(fs, d)
    case _ => Ok(Gen(fs, d.(k := VFalse)))
  }

  function NotOfReg(fs: Fs, d: Desc): Compiled<Gen> {
    var g :- Discharge2AnyReg(fs, d);
    var fs1 := FreeExp(g.fs, g.d);
    Ok(Gen(Emit(fs1, Not(0, RegOf(g.d))), g.d.(k := VReloc(|fs1.code|))))
  }

  function CodeNot(fs: Fs, d: Desc): Compiled<Gen> {
    var g :- NotMain(fs, d);
    var c1 := RemoveValues(g.fs.code, g.d.t);
    var c2 := RemoveValues(c1, g.d.f);
    Ok(Gen(g.fs.(code := c2), Desc(g.d.k, g.d.f, g.d.t)))
  }

  // --- Operators ---

  // A literal integer that fits an immediate operand.
  predicate IsSCnumber(d: Desc) {
    d.k.VKInt? && !HasJumps(d) && -OFFSET_SC <= d.k.ival <= MAXARG_C - OFFSET_SC
  }

  predicate IsNumeral(d: Desc) {
    d.k.VKInt? && !HasJumps(d)
  }

  function Prefix(op: UnOp, fs: Fs, d: Desc): Compiled<Gen> {
    CodeNot(fs, DischargeVars(d))
  }

  function Infix(op: BinOp, fs: Fs, d: Desc): Compiled<Gen> {
    var d1 := DischargeVars(d);
    match op
    case OpAnd => GoIfTrue(fs, d1)
    case OpOr => GoIfFalse(fs, d1)
    case OpEq => if IsNumeral(d1) then Ok(Gen(fs, d1)) else Exp2RK(fs, d1)
    case OpNe => if IsNumeral(d1) then Ok(Gen(fs, d1)) else Exp2RK(fs, d1)
    case _ => if IsSCnumber(d1) then Ok(Gen(fs, d1)) else Exp2AnyReg(fs, d1)
  }

  function OrderTest(less: bool, a: int, b: int): Instr {
    if less then Lt(a, b, true) else Le(a, b, true)
  }

  function OrderTestRight(less: bool, a: int, imm: int): Instr {
    if less then LtI(a, imm, true) else LeI(a, imm, true)
  }

  function OrderTestLeft(less: bool, a: int, imm: int): Instr {
    if less then GtI(a, imm, true) else GeI(a, imm, true)
  }

  function TestDesc(fs: Fs): Desc {
    Desc(VJmp(if |fs.code| > 0 then |fs.code| - 1 else 0), [], [])
  }

  // A comparison with an immediate second, or first, operand.
  function OrderRight(fs: Fs, less: bool, d1: Desc, d2: Desc): Compiled<Gen>
    requires d2.k.VKInt?
  {
    var g :- Exp2AnyReg(fs, d1);
    var fs1 := CondJump(FreeExps(g.fs, g.d, d2), OrderTestRight(less, RegOf(g.d), d2.k.ival + OFFSET_SC));
    Ok(Gen(fs1, TestDesc(fs1)))
  }

  function OrderLeft(fs: Fs, less: bool, d1: Desc, d2: Desc): Compiled<Gen>
    requires d1.k.VKInt?
  {
    var g :- Exp2AnyReg(fs, d2);
    var fs1 := CondJump(FreeExps(g.fs, d1, g.d), OrderTestLeft(less, RegOf(g.d), d1.k.ival + OFFSET_SC));
    Ok(Gen(fs1, TestDesc(fs1)))
  }

  function OrderRegs(fs: Fs, less: bool, d1: Desc, d2: Desc): Compiled<Gen> {
    var g1 :- Exp2AnyReg(fs, d1);
    var g2 :- Exp2AnyReg(g1.fs, d2);
    var fs1 := CondJump(FreeExps(g2.fs, g1.d, g2.d), OrderTest(less, RegOf(g1.d), RegOf(g2.d)));
    Ok(Gen(fs1, TestDesc(fs1)))
  }

  function CodeOrder(fs: Fs, less: bool, d1: Desc, d2: Desc): Compiled<Gen> {
    if IsSCnumber(d2) then OrderRight(fs, less, d1, d2)
    else if IsSCnumber(d1) then OrderLeft(fs, less, d1, d2)
    else OrderRegs(fs, less, d1, d2)
  }

  // The end of an equality whose first operand is in a register.
  function EqImmediate(fs: Fs, eq: bool, d1: Desc, d2: Desc): Gen
    requires d2.k.VKInt?
  {
    var fs1 := CondJump(FreeExps(fs, d1, d2), EqI(RegOf(d1), d2.k.ival + OFFSET_SC, eq));
    Gen(fs1, TestDesc(fs1))
  }

  function EqOther(fs: Fs, eq: bool, d1: Desc, d2: Desc): Compiled<Gen> {
    var g2 :- Exp2RK(fs, d2);
    var fs1 := FreeExps(g2.fs, d1, g2.d);
    var fs2 := CondJump(fs1, if IsRK(g2.d) then EqK(RegOf(d1), g2.d.k.info, eq) else Eq(RegOf(d1), RegOf(g2.d), eq));
    Ok(Gen(fs2, TestDesc(fs2)))
  }

  // 'd1' is the operand that goes into a register.
  function CodeEqInto(fs: Fs, eq: bool, d1: Desc, d2: Desc): Compiled<Gen> {
    var g1 :- Exp2AnyReg(fs, d1);
    if IsSCnumber(d2) then Ok(EqImmediate(g1.fs, eq, g1.d, d2)) else EqOther(g1.fs, eq, g1.d, d2)
  }

  function CodeEq(fs: Fs, eq: bool, d1: Desc, d2: Desc): Compiled<Gen> {
    if d1.k.VNonReloc? then CodeEqInto(fs, eq, d1, d2) else CodeEqInto(fs, eq, d2, d1)
  }

  function Posfix(op: BinOp, fs: Fs, d1: Desc, d: Desc): Compiled<Gen> {
    var d2 := DischargeVars(d);
    match op
    case OpAnd => Ok(Gen(fs, d2.(f := d2.f + d1.f)))
    case OpOr => Ok(Gen(fs, d2.(t := d2.t + d1.t)))
    case OpEq => CodeEq(fs, true, d1, d2)
    case OpNe => CodeEq(fs, false, d1, d2)
    case OpLt => CodeOrder(fs, true, d1, d2)
    case OpLe => CodeOrder(fs, false, d1, d2)
    case OpGt => CodeOrder(fs, true, d2, d1)
    case OpGe => CodeOrder(fs, false, d2, d1)
  }

  function Expression(fs: Fs, e: Expr): Compiled<Gen>
    decreases e
  {
    match e
    case Local(r) => Ok(Gen(fs, Desc(VLocal(r), [], [])))
    case NilE => Ok(Gen(fs, Desc(VNil, [], [])))
    case TrueE => Ok(Gen(fs, Desc(VTrue, [], [])))
    case FalseE => Ok(Gen(fs, Desc(VFalse, [], [])))
    case IntE(i) => Ok(Gen(fs, Desc(VKInt(i), [], [])))
    case StrE(s) => Ok(Gen(fs, Desc(VKStr(s), [], [])))
    case Unary(op, e1) =>
      var g :- Expression(fs, e1);
      Prefix(op, g.fs, g.d)
    case Binary(op, a, b) =>
      var g1 :- Expression(fs, a);
      var g2 :- Infix(op, g1.fs, g1.d);
      var g3 :- Expression(g2.fs, b);
      Posfix(op, g3.fs, g2.d, g3.d)
  }

  // --- What an expression means ---

  function Eval(g: Order, e: Expr, r: Regs): Value {
    match e
    case Local(x) => Get(r, x)
    case NilE => Nil
    case TrueE => Bool(true)
    case FalseE => Bool(false)
    case IntE(i) => Int(i)
    case StrE(s) => Str(s)
    case Unary(op, e1) => Bool(!Truthy(Eval(g, e1, r)))
    case Binary(op, a, b) =>
      var x := Eval(g, a, r);
      var y := Eval(g, b, r);
      match op
      case OpAnd => if Truthy(x) then y else x
      case OpOr => if Truthy(x) then x else y
      case OpEq => Bool(x == y)
      case OpNe => Bool(x != y)
      case OpLt => Bool(g.lt(x, y))
      case OpLe => Bool(g.le(x, y))
      case OpGt => Bool(g.lt(y, x))
      case OpGe => Bool(g.le(y, x))
  }

  ghost predicate WellScoped(e: Expr, nvar: int) {
    match e
    case Local(x) => 0 <= x < nvar
    case Unary(op, e1) => WellScoped(e1, nvar)
    case Binary(op, a, b) => WellScoped(a, nvar) && WellScoped(b, nvar)
    case _ => true
  }
}
