// Compiling a whole expression on the state of a function, in the order in
// which the parser calls the code generator.
module CodeCompiler {
  import opened Results
  import opened CodeMachine
  import opened CodeGen
  import opened CodeShape
  import opened CodeThreads
  import opened CodeFlow
  import opened CodeNil
  import opened CodeDischarge
  import opened CodeRegs
  import opened CodeCond
  import opened CodeCompare
  import opened CodeExpr
  import opened CodeState
  import opened CodeSuccess
  import opened CodeFields

  // The shape of the erased state gives what the operations need.
  lemma SoundOf(fs: FuncState, fs0: Fs, e: ExpDesc, d: Desc, pend: set<nat>)
    requires Shape(fs0, fs.View(pend + Pend(d)), d, pend) && fs.Denotes(e, d) && Jumps(fs.code, pend)
    ensures fs.Sound(d, pend)
    ensures e.k.VReloc? ==> e.k.at == |fs.code| - 1 && fs.code[e.k.at].Not?
  {
    var c := Erase(fs.code, pend + Pend(d));
    forall p | p in d.t || p in d.f ensures p !in pend { assert p in pend ==> p < |fs0.code|; }
  }

  // What the first operand of 'and' or 'or' leaves behind.
  lemma AfterShortInfix(fs: FuncState, fs0: Fs, e: Expr, pend: set<nat>, fs1: Fs, d1: Desc, d2: Desc)
    requires MayCompile(fs0, e, pend, 0) && e.Binary? && IsShort(e.bop)
    requires CodeGen.Expression(fs0, e.left) == Ok(Gen(fs1, d1))
    requires Infix(e.bop, fs1, d1) == Ok(Gen(fs.View(pend + Pend(d2)), d2))
    ensures if e.bop.OpAnd? then d2.t == [] else d2.f == []
    ensures MayCompile(fs.View(pend + Pend(d2)), e.right, pend + Pend(d2), 0)
  {
    var x := StartOf(AnyOrder(), fs0, pend, 0, map[], e.left);
    var list := WaitingList(e.bop, d2);
    ExpressionOk(AnyOrder(), fs0, e.left, pend, 0, map[]);
    ShortInfix(x, fs0, e.bop, fs1, d1, Gen(fs.View(pend + Pend(d2)), d2));
    assert pend + Pend(d2) == pend + SetOf(list);
    ShortMayGoOn(x, fs0, fs.View(pend + Pend(d2)), list, e.bop.OpAnd?, e.right);
  }

  lemma AfterCompareInfix(fs: FuncState, fs0: Fs, e: Expr, pend: set<nat>, fs1: Fs, d1: Desc, d2: Desc)
    requires MayCompile(fs0, e, pend, 0) && e.Binary? && !IsShort(e.bop)
    requires CodeGen.Expression(fs0, e.left) == Ok(Gen(fs1, d1))
    requires Infix(e.bop, fs1, d1) == Ok(Gen(fs.View(pend + Pend(d2)), d2))
    ensures FirstOperand(e.bop, d2) && pend + Pend(d2) == pend
    ensures MayCompile(fs.View(pend + Pend(d2)), e.right, pend + Pend(d2), 0)
  {
    var x := StartOf(AnyOrder(), fs0, pend, 0, map[], e.left);
    ExpressionOk(AnyOrder(), fs0, e.left, pend, 0, map[]);
    CompareInfix(x, fs0, e.bop, fs1, d1, Gen(fs.View(pend + Pend(d2)), d2));
    NoLists(x, d2);
    CompareMayGoOn(x, fs0, fs.View(pend + Pend(d2)), d2, e.right);
  }

  lemma OperandShape(fs0: Fs, e: Expr, pend: set<nat>)
    requires MayCompile(fs0, e, pend, 0) && CodeGen.Expression(fs0, e).Ok?
    ensures var g := CodeGen.Expression(fs0, e).value;
            Shape(fs0, g.fs, g.d, pend)
  {
    ExpressionOk(AnyOrder(), fs0, e, pend, 0, map[]);
  }

  method Expression(fs: FuncState, e: Expr, ghost pend: set<nat>) returns (st: Status, ed: ExpDesc, ghost d: Desc)
    requires MayCompile(fs.View(pend), e, pend, 0) && Jumps(fs.code, pend)
    modifies fs
    ensures |fs.code| <= |old(fs.code)| + InstructionsFor(e)
    ensures st.Done? ==> CodeGen.Expression(old(fs.View(pend)), e) == Ok(Gen(fs.View(pend + Pend(d)), d))
    ensures st.Raised? ==> fs.TooLong() || CodeGen.Expression(old(fs.View(pend)), e).Err?
    ensures st.Done? ==> fs.Denotes(ed, d) && Jumps(fs.code, pend) && Kept(old(fs.code), fs.code, pend)
    decreases e
  {
    ghost var fs0 := fs.View(pend);
    st, ed, d := Done, ExpDesc(VNil, NO_JUMP, NO_JUMP), Desc(VNil, [], []);
    match e {
      case Unary(op, e1) => {
        ed, d :- Expression(fs, e1, pend);
        OperandShape(fs0, e1, pend);
        SoundOf(fs, fs0, ed, d, pend);
        ed, d :- fs.Prefix(op, ed, d, pend);
      }
      case Binary(op, a, b) => {
        ed, d :- CompileBinary(fs, e, pend);
      }
      case Local(x) => ed, d := ExpDesc(VLocal(x), NO_JUMP, NO_JUMP), Desc(VLocal(x), [], []);
      case NilE =>
      case TrueE => ed, d := ExpDesc(VTrue, NO_JUMP, NO_JUMP), Desc(VTrue, [], []);
      case FalseE => ed, d := ExpDesc(VFalse, NO_JUMP, NO_JUMP), Desc(VFalse, [], []);
      case IntE(i) => ed, d := ExpDesc(VKInt(i), NO_JUMP, NO_JUMP), Desc(VKInt(i), [], []);
      case StrE(s) => ed, d := ExpDesc(VKStr(s), NO_JUMP, NO_JUMP), Desc(VKStr(s), [], []);
    }
    if !e.Unary? && !e.Binary? { assert pend + Pend(d) == pend; }
  }

  method CompileBinary(fs: FuncState, e: Expr, ghost pend: set<nat>) returns (st: Status, ed: ExpDesc, ghost d: Desc)
    requires e.Binary? && MayCompile(fs.View(pend), e, pend, 0) && Jumps(fs.code, pend)
    modifies fs
    ensures |fs.code| <= |old(fs.code)| + InstructionsFor(e)
    ensures st.Done? ==> CodeGen.Expression(old(fs.View(pend)), e) == Ok(Gen(fs.View(pend + Pend(d)), d))
    ensures st.Raised? ==> fs.TooLong() || CodeGen.Expression(old(fs.View(pend)), e).Err?
    ensures st.Done? ==> fs.Denotes(ed, d) && Jumps(fs.code, pend) && Kept(old(fs.code), fs.code, pend)
    decreases e, 1
  {
    ghost var fs0 := fs.View(pend);
    var e1; ghost var d1;
    st, ed, d := Done, ExpDesc(VNil, NO_JUMP, NO_JUMP), Desc(VNil, [], []);
    e1, d1 :- CompileFirst(fs, e, pend);
    ghost var c1 := fs.code;
    ghost var fs1 := fs.View(pend + Pend(d1));
    var e2; ghost var d2;
    e2, d2 :- Expression(fs, e.right, pend + Pend(d1));
    OperandShape(fs1, e.right, pend + Pend(d1));
    SoundOf(fs, fs1, e2, d2, pend + Pend(d1));
    fs.StillDenotes(c1, e1, d1, pend + Pend(d1));
    ed, d :- fs.Posfix(e.bop, e1, e2, d1, d2, pend);
  }

  // The first operand does not compile, or not into what the operator wants.
  ghost predicate FirstFails(fs: Fs, op: BinOp, left: Expr) {
    var g := CodeGen.Expression(fs, left);
    g.Err? || Infix(op, g.value.fs, g.value.d).Err?
  }

  // The first operand, as the operator wants it.
  method CompileFirst(fs: FuncState, e: Expr, ghost pend: set<nat>) returns (st: Status, ed: ExpDesc, ghost d: Desc)
    requires e.Binary? && MayCompile(fs.View(pend), e, pend, 0) && Jumps(fs.code, pend)
    modifies fs
    ensures |fs.code| <= |old(fs.code)| + InstructionsFor(e.left) + if IsShort(e.bop) then 4 else 5
    ensures st.Done? ==> CodeGen.Expression(old(fs.View(pend)), e.left).Ok?
                         && var g := CodeGen.Expression(old(fs.View(pend)), e.left).value;
                            Infix(e.bop, g.fs, g.d) == Ok(Gen(fs.View(pend + Pend(d)), d))
    ensures st.Done? ==> fs.Denotes(ed, d) && Jumps(fs.code, pend + Pend(d)) && Kept(old(fs.code), fs.code, pend)
    ensures st.Done? ==> MayCompile(fs.View(pend + Pend(d)), e.right, pend + Pend(d), 0)
    ensures st.Done? ==> if IsShort(e.bop) then (if e.bop.OpAnd? then d.t == [] else d.f == []) else FirstOperand(e.bop, d)
    ensures st.Raised? ==> fs.TooLong() || FirstFails(old(fs.View(pend)), e.bop, e.left)
    decreases e, 0
  {
    ghost var fs0 := fs.View(pend);
    ed, d := ExpDesc(VNil, NO_JUMP, NO_JUMP), Desc(VNil, [], []);
    ed, d :- Expression(fs, e.left, pend);
    OperandShape(fs0, e.left, pend);
    SoundOf(fs, fs0, ed, d, pend);
    ghost var d1 := d;
    ghost var fs1 := fs.View(pend + Pend(d));
    ed, d :- fs.Infix(e.bop, ed, d, pend);
    if IsShort(e.bop) {
      AfterShortInfix(fs, fs0, e, pend, fs1, d1, d);
    } else {
      AfterCompareInfix(fs, fs0, e, pend, fs1, d1, d);
    }
    st := Done;
  }

  // A run from 's' that got to the end of the old code goes on to the end of
  // the new code, where the next register has the value of the expression and
  // no register below it changed.
  ghost predicate Computes(g: Order, e: Expr, k1: seq<Value>, c1: seq<Instr>, k2: seq<Value>, c2: seq<Instr>,
                           reg: int, s: nat, r: Regs)
    requires s <= |c1| && s <= |c2|
  {
    var before := Run(g, k1, c1, s, r, {}, |c1|);
    var after := Run(g, k2, c2, s, r, {}, |c2|);
    before.Fall? ==>
      && after.Fall? && Get(after.regs, reg) == Eval(g, e, before.regs) && Keeps(before.regs, after.regs, reg)
  }

  lemma EraseNothing(c: seq<Instr>)
    ensures Erase(c, {}) == c
  {
  }

  lemma ComputesAll(e: Expr, fs0: Fs, fs: Fs)
    requires Valid(fs0) && WellScoped(e, fs0.nvar) && CodeGen.Expression(fs0, e).Ok?
    requires var g := CodeGen.Expression(fs0, e).value;
             CodeGen.Exp2NextReg(g.fs, g.d).Ok? && CodeGen.Exp2NextReg(g.fs, g.d).value.fs == fs
    ensures |fs0.code| <= |fs.code| && fs.freereg == fs0.freereg + 1 && Valid(fs)
    ensures forall g, s, r :: Entry(fs0, s) ==> Computes(g, e, fs0.k, fs0.code, fs.k, fs.code, fs0.freereg, s, r)
  {
    CompileCorrect(AnyOrder(), fs0, e, {}, 0, map[]);
    forall g, s, r | Entry(fs0, s) ensures Computes(g, e, fs0.k, fs0.code, fs.k, fs.code, fs0.freereg, s, r) {
      CompileCorrect(g, fs0, e, {}, s, r);
    }
  }

  // The expression does not compile, or does not fit into the next register.
  ghost predicate NextFails(fs: Fs, e: Expr) {
    var g := CodeGen.Expression(fs, e);
    g.Err? || CodeGen.Exp2NextReg(g.value.fs, g.value.d).Err?
  }

  lemma RoomSuffices(fs0: Fs, e: Expr)
    requires Valid(fs0) && WellScoped(e, fs0.nvar)
    ensures Room(fs0, RegistersFor(e), ConstantsFor(e), InstructionsFor(e) + 5) ==> !NextFails(fs0, e)
  {
    hide CodeGen.Expression, CodeGen.Exp2NextReg, Valid;
    if Room(fs0, RegistersFor(e), ConstantsFor(e), InstructionsFor(e) + 5) { CompileFits(fs0, e, {}); }
  }

  // An expression compiled into the next register.
  method ExpressionToNextReg(fs: FuncState, e: Expr) returns (st: Status)
    requires Valid(fs.Fields()) && WellScoped(e, fs.nvar)
    modifies fs
    ensures st.Done? ==> |old(fs.code)| <= |fs.code| && fs.freereg == old(fs.freereg) + 1 && Valid(fs.Fields())
    ensures st.Done? ==> forall g, s, r :: Entry(old(fs.Fields()), s) ==>
                                             Computes(g, e, old(fs.k), old(fs.code), fs.k, fs.code, old(fs.freereg), s, r)
    ensures st.Raised? ==> fs.TooLong() || NextFails(old(fs.Fields()), e)
    ensures st.Done? && AllEncodable(old(fs.code)) && |old(fs.k)| <= 0x1FFFFFF ==> AllEncodable(fs.code)
    ensures (&& old(fs.freereg) + RegistersFor(e) < 255 && |old(fs.k)| + ConstantsFor(e) <= 0x1FFFFFF
             && |old(fs.code)| + InstructionsFor(e) + 5 < 0xFFFFFF) ==> st.Done?
  {
    hide CodeGen.Expression, CodeGen.Exp2NextReg, AllEncodable;
    ghost var fs0 := fs.Fields();
    RoomSuffices(fs0, e);
    EraseNothing(fs.code);
    var ed; ghost var d;
    ed, d :- Expression(fs, e, {});
    OperandShape(fs0, e, {});
    SoundOf(fs, fs0, ed, d, {});
    assert {} + Pend(d) == Pend(d);
    var e2 :- fs.Exp2NextReg(ed, d, {});
    EraseNothing(fs.code);
    ComputesAll(e, fs0, fs.Fields());
    if AllEncodable(fs0.code) && |fs0.k| <= 0x1FFFFFF { CompiledEncodable(fs0, e, {}); }
    st := Done;
  }
}
