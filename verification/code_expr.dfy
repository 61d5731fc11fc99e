// Every expression compiles to code that computes it.
module CodeExpr {
  import opened Results
  import opened Common
  import opened CodeMachine
  import opened CodeGen
  import opened CodeShape
  import opened CodeFlow
  import opened CodeLoad
  import opened CodeNil
  import opened CodeDischarge
  import opened CodeExp2Reg
  import opened CodeRegs
  import opened CodeCond
  import opened CodeGoIf
  import opened CodeNegate
  import opened CodeCompare
  import opened CodeOperands
  import opened CodeOperators

  // Only the registers of local variables matter to an expression.
  lemma {:induction false} EvalKeeps(g: Order, e: Expr, nvar: int, r1: Regs, r2: Regs)
    requires WellScoped(e, nvar) && Keeps(r1, r2, nvar)
    ensures Eval(g, e, r2) == Eval(g, e, r1)
    decreases e
  {
    match e
    case Unary(op, e1) => EvalKeeps(g, e1, nvar, r1, r2);
    case Binary(op, a, b) => EvalKeeps(g, a, nvar, r1, r2); EvalKeeps(g, b, nvar, r1, r2);
    case _ =>
  }

  // The value that expression 'e' has where the run got to.
  ghost function ValueAt(g: Order, e: Expr, base: Outcome): Value {
    if base.Fall? then Eval(g, e, base.regs) else Nil
  }

  ghost function StartOf(g: Order, fs: Fs, pend: set<nat>, s: nat, r: Regs, e: Expr): Ctx
    requires s <= |fs.code|
  {
    var base := Run(g, fs.k, fs.code, s, r, pend, |fs.code|);
    Ctx(g, pend, s, r, base, ValueAt(g, e, base), fs.freereg)
  }

  // --- 'and' and 'or' ---

  lemma ShortShape(fs0: Fs, fs1: Fs, list: seq<nat>, fs2: Fs, d2: Desc, pend: set<nat>, isAnd: bool)
    requires BranchShape(fs0, fs1, if isAnd then [] else list, if isAnd then list else [], pend)
    requires Shape(fs1, fs2, d2, pend + SetOf(list))
    ensures Shape(fs0, fs2, if isAnd then d2.(f := d2.f + list) else d2.(t := d2.t + list), pend)
  {
    FrameTrans(fs0, fs1, fs2);
    FrameKeepsPending(fs1, fs2, SetOf(list), |fs1.code|) by {
      forall p | p in SetOf(list) ensures p < |fs1.code| && PendingAt(fs1.code, p) {}
    }
    forall p | p in pend ensures p < |fs0.code| && PendingAt(fs2.code, p) {
      assert p in pend + SetOf(list);
      assert PendingAt(fs1.code, p);
    }
    var end := End(fs2.code, d2);
    JoinLists(fs2.code, |fs0.code|, |fs1.code|, end, d2.t, list);
    JoinLists(fs2.code, |fs0.code|, |fs1.code|, end, d2.f, list);
    forall p | p in d2.t || p in d2.f ensures p !in list { assert |fs1.code| < p; assert p in list ==> p < |fs1.code|; }
  }

  lemma JoinLists(c: seq<Instr>, lo: int, mid: int, hi: int, later: seq<nat>, earlier: seq<nat>)
    requires lo <= mid <= hi && ListOk(c, mid, hi, later) && NoDup(earlier)
    requires forall p :: p in earlier ==> lo < p < mid && PendingAt(c, p)
    ensures ListOk(c, lo, hi, later) && ListOk(c, lo, hi, later + earlier)
  {
    var all := later + earlier;
    forall p | p in all ensures lo < p < hi && PendingAt(c, p) {
      assert p in later || p in earlier;
    }
    forall i, j | 0 <= i < j < |all| ensures all[i] != all[j] {
      if i < |later| && j >= |later| {
        assert later[i] in later && earlier[j - |later|] in earlier;
      }
    }
  }

  // The value of 'and' or 'or' from the values of its operands.
  function ShortValue(isAnd: bool, v1: Value, v2: Value): Value {
    if Truthy(v1) == isAnd then v2 else v1
  }

  // The flow out of the whole, from the flow out of the second operand.
  lemma ShortFlow(fs1: Fs, fs2: Fs, list: seq<nat>, d2: Desc, isAnd: bool, out1: Outcome, out2: Outcome,
                  v1: Value, v2: Value, r1: Regs, n: int)
    requires var t1, f1 := if isAnd then [] else list, if isAnd then list else [];
             Flow(fs1.code, t1, f1, out1, v1, r1, n)
    requires out1.Fall? ==> Truthy(v1) == isAnd && Flow(fs2.code, d2.t, d2.f, out2, v2, out1.regs, n)
    requires out1.Jump? ==> out2 == out1 && InstrAt(fs2.code, out1.pos - 1) == InstrAt(fs1.code, out1.pos - 1)
    ensures var d3 := if isAnd then d2.(f := d2.f + list) else d2.(t := d2.t + list);
            Flow(fs2.code, d3.t, d3.f, out2, ShortValue(isAnd, v1, v2), r1, n)
  {
  }

  lemma ShortPend(pend: set<nat>, list: seq<nat>, d2: Desc, isAnd: bool)
    ensures var d3 := if isAnd then d2.(f := d2.f + list) else d2.(t := d2.t + list);
            pend + Pend(d3) == pend + SetOf(list) + Pend(d2)
    ensures pend + SetOf(if isAnd then [] else list) + SetOf(if isAnd then list else []) == pend + SetOf(list)
  {
  }

  lemma ShortFollows(x: Ctx, fs0: Fs, fs1: Fs, list: seq<nat>, fs2: Fs, d2: Desc, v2: Value, isAnd: bool)
    requires BranchShape(fs0, fs1, if isAnd then [] else list, if isAnd then list else [], x.pend)
    requires Shape(fs1, fs2, d2, x.pend + SetOf(list)) && x.s <= |fs0.code| && x.n == fs0.freereg
    requires Branches(x, fs1, if isAnd then [] else list, if isAnd then list else [], isAnd)
    requires Follows(Second(x, fs1, x.pend + SetOf(list), v2), fs2, d2)
    ensures Follows(x.(v := ShortValue(isAnd, x.v, v2)), fs2,
                    if isAnd then d2.(f := d2.f + list) else d2.(t := d2.t + list))
  {
    var x2 := Second(x, fs1, x.pend + SetOf(list), v2);
    var d3 := if isAnd then d2.(f := d2.f + list) else d2.(t := d2.t + list);
    ShortPend(x.pend, list, d2, isAnd);
    if x.base.Fall? {
      var out1 := x2.base;
      var out2 := OutOf(x2, fs2, x2.pend + Pend(d2), End(fs2.code, d2));
      if out1.Jump? {
        assert out1.pos in list;
        assert PendingAt(fs1.code, out1.pos);
        assert FrameAt(fs1, fs2, out1.pos - 1);
      }
      ShortFlow(fs1, fs2, list, d2, isAnd, out1, out2, x.v, v2, x.base.regs, x.n);
    }
  }

  // --- All expressions ---

  // The expression was compiled after 'fs0'.
  ghost predicate Compiled(g: Order, fs0: Fs, e: Expr, pend: set<nat>, s: nat, r: Regs, fs: Fs, d: Desc) {
    && Entry(fs0, s) && Shape(fs0, fs, d, pend) && !d.k.VK?
    && Follows(StartOf(g, fs0, pend, s, r, e), fs, d)
  }

  ghost predicate MayCompile(fs0: Fs, e: Expr, pend: set<nat>, s: nat) {
    Valid(fs0) && AllPending(fs0.code, pend, |fs0.code|) && WellScoped(e, fs0.nvar) && Entry(fs0, s)
  }

  lemma ParksAtPending(g: Order, fs: Fs, pend: set<nat>, s: nat, r: Regs)
    requires s <= |fs.code|
    ensures var out := Run(g, fs.k, fs.code, s, r, pend, |fs.code|);
            out.Jump? ==> out.pos in pend
  {
    ParksInside(g, fs.k, fs.code, s, r, pend, |fs.code|);
  }

  lemma LeafOk(g: Order, fs0: Fs, e: Expr, pend: set<nat>, s: nat, r: Regs, d: Desc)
    requires MayCompile(fs0, e, pend, s) && !e.Unary? && !e.Binary?
    requires Expression(fs0, e) == Ok(Gen(fs0, d))
    ensures Compiled(g, fs0, e, pend, s, r, fs0, d)
  {
    var x := StartOf(g, fs0, pend, s, r, e);
    ParksAtPending(g, fs0, pend, s, r);
    assert x.pend + Pend(d) == x.pend;
  }

  // Without a value to speak of, any value will do.
  lemma ValueIrrelevant(x: Ctx, v: Value, fs: Fs, d: Desc)
    requires x.s <= End(fs.code, d) && Follows(x, fs, d) && (x.base.Fall? ==> x.v == v)
    ensures Follows(x.(v := v), fs, d)
  {
  }

  lemma UnaryOk(g: Order, fs0: Fs, e: Expr, pend: set<nat>, s: nat, r: Regs, fs1: Fs, d1: Desc)
    requires MayCompile(fs0, e, pend, s) && e.Unary? && Compiled(g, fs0, e.e, pend, s, r, fs1, d1)
    requires Prefix(e.op, fs1, d1).Ok?
    ensures var g2 := Prefix(e.op, fs1, d1).value;
            Compiled(g, fs0, e, pend, s, r, g2.fs, g2.d)
  {
    hide CodeNot;
    var x := StartOf(g, fs0, pend, s, r, e.e);
    var g2 := Prefix(e.op, fs1, d1).value;
    DischargeVarsOk(x, fs0, fs1, d1);
    CodeNotOk(x, fs0, fs1, DischargeVars(d1));
    NotGivesNoConstant(fs1, DischargeVars(d1));
    ValueIrrelevant(Negation(x), StartOf(g, fs0, pend, s, r, e).v, g2.fs, g2.d);
  }

  lemma NotGivesNoConstant(fs: Fs, d: Desc)
    requires !d.k.VK? && CodeNot(fs, d).Ok?
    ensures !CodeNot(fs, d).value.d.k.VK?
  {
  }

  // The second operand has the same value whether or not the first one was
  // computed before.
  lemma SecondValue(g: Order, e: Expr, base: Outcome, out: Outcome, nvar: int, n: int)
    requires WellScoped(e, nvar) && nvar <= n && base.Fall? && out.Fall? && Keeps(base.regs, out.regs, n)
    ensures ValueAt(g, e, out) == Eval(g, e, base.regs)
  {
    EvalKeeps(g, e, nvar, base.regs, out.regs);
  }

  predicate IsShort(op: BinOp) {
    op.OpAnd? || op.OpOr?
  }

  // The state after the first operand of 'and' or 'or'.
  ghost predicate ShortReady(x: Ctx, fs0: Fs, fs1: Fs, list: seq<nat>, isAnd: bool) {
    && BranchShape(fs0, fs1, if isAnd then [] else list, if isAnd then list else [], x.pend)
    && x.s <= |fs0.code|
    && Branches(x, fs1, if isAnd then [] else list, if isAnd then list else [], isAnd)
  }

  function WaitingList(op: BinOp, d: Desc): seq<nat> {
    if op.OpAnd? then d.f else d.t
  }

  lemma ShortInfix(x: Ctx, fs0: Fs, op: BinOp, fs1: Fs, d1: Desc, g2: Gen)
    requires IsShort(op) && Shape(fs0, fs1, d1, x.pend) && !d1.k.VK? && Starts(x, fs0)
    requires Follows(x, fs1, d1) && Infix(op, fs1, d1) == Ok(g2)
    ensures ShortReady(x, fs0, g2.fs, WaitingList(op, g2.d), op.OpAnd?)
    ensures g2.d == if op.OpAnd? then Desc(g2.d.k, [], g2.d.f) else Desc(g2.d.k, g2.d.t, [])
  {
    DischargeVarsOk(x, fs0, fs1, d1);
    if op.OpAnd? {
      GoIfTrueOk(x, fs0, fs1, DischargeVars(d1));
    } else {
      GoIfFalseOk(x, fs0, fs1, DischargeVars(d1));
    }
  }

  lemma ShortMayGoOn(x: Ctx, fs0: Fs, fs1: Fs, list: seq<nat>, isAnd: bool, e: Expr)
    requires ShortReady(x, fs0, fs1, list, isAnd) && Entry(fs0, x.s) && WellScoped(e, fs0.nvar)
    ensures MayCompile(fs1, e, x.pend + SetOf(list), x.s)
  {
    EntryKept(fs0, fs1, x.s);
    forall p | p in x.pend + SetOf(list) ensures p < |fs1.code| && PendingAt(fs1.code, p) {
      assert p in x.pend ==> PendingAt(fs1.code, p);
    }
  }

  lemma ShortPosfix(g: Order, fs0: Fs, e: Expr, pend: set<nat>, s: nat, r: Regs, fs1: Fs, list: seq<nat>, fs2: Fs, d: Desc)
    requires MayCompile(fs0, e, pend, s) && e.Binary? && IsShort(e.bop)
    requires ShortReady(StartOf(g, fs0, pend, s, r, e.left), fs0, fs1, list, e.bop.OpAnd?)
    requires Compiled(g, fs1, e.right, pend + SetOf(list), s, r, fs2, d)
    ensures var d2 := DischargeVars(d);
            Compiled(g, fs0, e, pend, s, r, fs2, if e.bop.OpAnd? then d2.(f := d2.f + list) else d2.(t := d2.t + list))
  {
    var isAnd := e.bop.OpAnd?;
    var x := StartOf(g, fs0, pend, s, r, e.left);
    var x2 := StartOf(g, fs1, pend + SetOf(list), s, r, e.right);
    var d2 := DischargeVars(d);
    DischargeVarsOk(x2, fs1, fs2, d);
    ShortPend(pend, list, d2, isAnd);
    assert x2 == Second(x, fs1, pend + SetOf(list), x2.v);
    ShortShape(fs0, fs1, list, fs2, d2, pend, isAnd);
    ShortFollows(x, fs0, fs1, list, fs2, d2, x2.v, isAnd);
    if x.base.Fall? && x2.base.Fall? {
      SecondValue(g, e.right, x.base, x2.base, fs0.nvar, fs0.freereg);
    }
    ValueIrrelevant(x.(v := ShortValue(isAnd, x.v, x2.v)), StartOf(g, fs0, pend, s, r, e).v, fs2,
                    if isAnd then d2.(f := d2.f + list) else d2.(t := d2.t + list));
  }

  // --- Comparisons ---

  ghost predicate FirstOperand(op: BinOp, d: Desc) {
    InRegister(d) || (if op.OpEq? || op.OpNe? then IsConstant(d) else IsSCnumber(d))
  }

  lemma CompareInfix(x: Ctx, fs0: Fs, op: BinOp, fs1: Fs, d1: Desc, g2: Gen)
    requires !IsShort(op) && Shape(fs0, fs1, d1, x.pend) && Infix(op, fs1, d1) == Ok(g2)
    ensures StepOk(x, fs0, fs1, d1, g2.fs, g2.d) && FirstOperand(op, g2.d)
  {
    var d := DischargeVars(d1);
    DischargeVarsOk(x, fs0, fs1, d1);
    if op.OpEq? || op.OpNe? {
      if !IsNumeral(d) { Exp2RKOk(x, fs0, fs1, d); }
    } else {
      if !IsSCnumber(d) { Exp2AnyRegOk(x, fs0, fs1, d); }
    }
  }

  lemma ComparePosfix(x: Ctx, fs0: Fs, op: BinOp, fs1: Fs, d1: Desc, fs2: Fs, d: Desc, v2: Value, g3: Gen)
    requires !IsShort(op) && Shape(fs0, fs1, d1, x.pend) && FirstOperand(op, d1) && Shape(fs1, fs2, d, x.pend)
    requires Posfix(op, fs2, d1, d) == Ok(g3)
    ensures Shape(fs1, fs2, DischargeVars(d), x.pend)
    ensures Compared(x, fs0, g3.fs, g3.d, CompareValue(x.g, op, x.v, v2), Given(x, fs0, fs1, d1, fs2, DischargeVars(d), v2))
  {
    var d2 := DischargeVars(d);
    DischargeVarsOk(x, fs1, fs2, d);
    match op
    case OpEq => EqOk(x, fs0, fs1, d1, fs2, d2, v2, true);
    case OpNe => EqOk(x, fs0, fs1, d1, fs2, d2, v2, false);
    case OpLt => OrderOk(x, fs0, fs1, d1, fs2, d2, v2, true);
    case OpLe => OrderOk(x, fs0, fs1, d1, fs2, d2, v2, false);
    case OpGt => ExchangedOk(x, fs0, fs1, d1, fs2, d2, v2, true);
    case OpGe => ExchangedOk(x, fs0, fs1, d1, fs2, d2, v2, false);
  }

  function CompareValue(g: Order, op: BinOp, a: Value, b: Value): bool {
    match op
    case OpEq => (a == b) == true
    case OpNe => (a == b) == false
    case OpLt => Ordered(g, true, a, b)
    case OpLe => Ordered(g, false, a, b)
    case OpGt => Ordered(g, true, b, a)
    case OpGe => Ordered(g, false, b, a)
    case _ => false
  }

  lemma CompareMayGoOn(x: Ctx, fs0: Fs, fs1: Fs, d1: Desc, e: Expr)
    requires Shape(fs0, fs1, d1, x.pend) && Entry(fs0, x.s) && WellScoped(e, fs0.nvar)
    ensures MayCompile(fs1, e, x.pend, x.s)
  {
    EntryKept(fs0, fs1, x.s);
    forall p | p in x.pend ensures p < |fs1.code| && PendingAt(fs1.code, p) {
      assert PendingAt(fs1.code, p);
    }
  }

  lemma CompareOk(g: Order, fs0: Fs, e: Expr, pend: set<nat>, s: nat, r: Regs, fs1: Fs, d1: Desc, fs2: Fs, d: Desc, g3: Gen)
    requires MayCompile(fs0, e, pend, s) && e.Binary? && !IsShort(e.bop)
    requires Shape(fs0, fs1, d1, pend) && FirstOperand(e.bop, d1)
    requires Follows(StartOf(g, fs0, pend, s, r, e.left), fs1, d1)
    requires Compiled(g, fs1, e.right, pend, s, r, fs2, d) && Posfix(e.bop, fs2, d1, d) == Ok(g3)
    ensures Compiled(g, fs0, e, pend, s, r, g3.fs, g3.d)
  {
    hide Posfix;
    var x := StartOf(g, fs0, pend, s, r, e.left);
    var x2 := StartOf(g, fs1, pend, s, r, e.right);
    var x3 := StartOf(g, fs0, pend, s, r, e);
    assert x2 == Second(x, fs1, pend, x2.v);
    ComparePosfix(x, fs0, e.bop, fs1, d1, fs2, d, x2.v, g3);
    DischargeVarsOk(x2, fs1, fs2, d);
    if x.base != Lost {
      assert Given(x, fs0, fs1, d1, fs2, DischargeVars(d), x2.v);
      if x.base.Fall? {
        NoLists(x, d1);
        SecondValue(g, e.right, x.base, x2.base, fs0.nvar, fs0.freereg);
      }
      ValueIrrelevant(x.(v := Bool(CompareValue(g, e.bop, x.v, x2.v))), x3.v, g3.fs, g3.d);
    }
  }

  // --- The theorem ---

  lemma {:induction false} ExpressionOk(g: Order, fs0: Fs, e: Expr, pend: set<nat>, s: nat, r: Regs)
    requires MayCompile(fs0, e, pend, s) && Expression(fs0, e).Ok?
    ensures var gen := Expression(fs0, e).value;
            Compiled(g, fs0, e, pend, s, r, gen.fs, gen.d)
    decreases e
  {
    match e
    case Unary(op, e1) =>
      ExpressionOk(g, fs0, e1, pend, s, r);
      var g1 := Expression(fs0, e1).value;
      UnaryOk(g, fs0, e, pend, s, r, g1.fs, g1.d);
    case Binary(op, a, b) =>
      ExpressionOk(g, fs0, a, pend, s, r);
      var g1 := Expression(fs0, a).value;
      var g2 := Infix(op, g1.fs, g1.d).value;
      var g3 := Expression(g2.fs, b).value;
      var x := StartOf(g, fs0, pend, s, r, a);
      if IsShort(op) {
        var list := WaitingList(op, g2.d);
        ShortInfix(x, fs0, op, g1.fs, g1.d, g2);
        ShortMayGoOn(x, fs0, g2.fs, list, op.OpAnd?, b);
        ExpressionOk(g, g2.fs, b, pend + SetOf(list), s, r);
        ShortPosfix(g, fs0, e, pend, s, r, g2.fs, list, g3.fs, g3.d);
      } else {
        CompareInfix(x, fs0, op, g1.fs, g1.d, g2);
        CompareMayGoOn(x, fs0, g2.fs, g2.d, b);
        ExpressionOk(g, g2.fs, b, pend, s, r);
        CompareOk(g, fs0, e, pend, s, r, g2.fs, g2.d, g3.fs, g3.d, Expression(fs0, e).value);
      }
    case _ => LeafOk(g, fs0, e, pend, s, r, Expression(fs0, e).value.d);
  }

  // An expression compiled and closed into the next register: wherever a run
  // that got to the end of the code before goes on, it ends just past the new
  // code, with the value of the expression in that register and the registers
  // below it unchanged. Jumps that were waiting still wait.
  lemma CompileCorrect(g: Order, fs0: Fs, e: Expr, pend: set<nat>, s: nat, r: Regs)
    requires MayCompile(fs0, e, pend, s) && Expression(fs0, e).Ok?
    requires var gen := Expression(fs0, e).value;
             Exp2NextReg(gen.fs, gen.d).Ok?
    ensures var gen := Expression(fs0, e).value;
            var fs := Exp2NextReg(gen.fs, gen.d).value.fs;
            var before := Run(g, fs0.k, fs0.code, s, r, pend, |fs0.code|);
            && Valid(fs) && fs.freereg == fs0.freereg + 1
            && Frame(fs0, fs) && AllPending(fs.code, pend, |fs0.code|)
            && (before.Jump? ==> Run(g, fs.k, fs.code, s, r, pend, |fs.code|) == before)
            && (before.Fall? ==>
                  var after := Run(g, fs.k, fs.code, s, r, pend, |fs.code|);
                  && after.Fall? && Get(after.regs, fs0.freereg) == Eval(g, e, before.regs)
                  && Keeps(before.regs, after.regs, fs0.freereg))
  {
    ExpressionOk(g, fs0, e, pend, s, r);
    var gen := Expression(fs0, e).value;
    var x := StartOf(g, fs0, pend, s, r, e);
    Exp2NextRegOk(x, fs0, gen.fs, gen.d);
    NoLists(x, Exp2NextReg(gen.fs, gen.d).value.d);
  }
}
