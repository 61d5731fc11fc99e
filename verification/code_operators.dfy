// The comparison operators.
module CodeOperators {
  import opened CodeMachine
  import opened CodeGen
  import opened CodeShape
  import opened CodeFlow
  import opened CodeLoad
  import opened CodeNil
  import opened CodeDischarge
  import opened CodeExp2Reg
  import opened CodeRegs
  import opened CodeCompare
  import opened CodeOperands

  // The code of a comparison whose value is 'w' if the operands had theirs.
  ghost predicate Compared(x: Ctx, fs0: Fs, fs2: Fs, d: Desc, w: bool, good: bool) {
    && Shape(fs0, fs2, d, x.pend) && d.k.VJmp?
    && (good ==> x.s <= End(fs2.code, d) && Follows(x.(v := Bool(w)), fs2, d))
  }

  lemma Finish(x: Ctx, fs0: Fs, fsA: Fs, da: Desc, va: Value, fsB: Fs, db: Desc, vb: Value, good: bool,
               i: Instr, w: bool, fs2: Fs)
    requires Ready(x, fs0, fsA, da, va, fsB, db, vb, good) && (good ==> Starts(x, fs0))
    requires IsCompare(i) && HasConstants(fsB.k, i)
    requires forall r :: Decides(x.g, fsB, da, va, db, vb, i, w, r)
    requires fs2 == CondJump(FreeExps(fsB, da, db), i) || fs2 == CondJump(FreeExps(fsB, db, da), i)
    ensures Compared(x, fs0, fs2, TestDesc(fs2), w, good)
  {
    FreeExpsOk(fs0, fsA, da, fsB, db, x.pend);
    FinishShape(fs0, fsA, da, fsB, db, x.pend, i);
    if good { FinishFollows(x, fs0, fsA, da, va, fsB, db, vb, i, w); }
  }

  function Ordered(g: Order, less: bool, a: Value, b: Value): bool {
    if less then g.lt(a, b) else g.le(a, b)
  }

  lemma DecidesRight(g: Order, fs: Fs, da: Desc, va: Value, db: Desc, vb: Value, less: bool)
    requires InRegister(da) && IsSCnumber(db)
    ensures var i := OrderTestRight(less, RegOf(da), db.k.ival + OFFSET_SC);
            && (forall r :: Decides(g, fs, da, va, db, vb, i, Ordered(g, less, va, vb), r))
            && (forall r :: Decides(g, fs, db, vb, da, va, i, Ordered(g, less, va, vb), r))
  {
  }

  lemma DecidesLeft(g: Order, fs: Fs, da: Desc, va: Value, db: Desc, vb: Value, less: bool)
    requires InRegister(da) && IsSCnumber(db)
    ensures var i := OrderTestLeft(less, RegOf(da), db.k.ival + OFFSET_SC);
            && (forall r :: Decides(g, fs, da, va, db, vb, i, Ordered(g, less, vb, va), r))
            && (forall r :: Decides(g, fs, db, vb, da, va, i, Ordered(g, less, vb, va), r))
  {
  }

  lemma DecidesRegs(g: Order, fs: Fs, da: Desc, va: Value, db: Desc, vb: Value, less: bool)
    requires InRegister(da) && InRegister(db)
    ensures forall r :: Decides(g, fs, da, va, db, vb, OrderTest(less, RegOf(da), RegOf(db)), Ordered(g, less, va, vb), r)
    ensures forall r :: Decides(g, fs, da, va, db, vb, OrderTest(less, RegOf(db), RegOf(da)), Ordered(g, less, vb, va), r)
  {
  }

  // '<' and '<=' with an immediate second operand.
  lemma OrderRightOk(x: Ctx, fs0: Fs, fs1: Fs, d1: Desc, fs2: Fs, d2: Desc, v2: Value, less: bool)
    requires Shape(fs0, fs1, d1, x.pend) && Shape(fs1, fs2, d2, x.pend) && (InRegister(d1) || IsSCnumber(d1))
    requires IsSCnumber(d2) && OrderRight(fs2, less, d1, d2).Ok?
    ensures var g := OrderRight(fs2, less, d1, d2).value;
            Compared(x, fs0, g.fs, g.d, Ordered(x.g, less, x.v, v2), Given(x, fs0, fs1, d1, fs2, d2, v2))
  {
    hide Exp2AnyReg;
    var good := Given(x, fs0, fs1, d1, fs2, d2, v2);
    var w := Ordered(x.g, less, x.v, v2);
    var g3 := OrderRight(fs2, less, d1, d2).value;
    var g := Exp2AnyReg(fs2, d1).value;
    var i := OrderTestRight(less, RegOf(g.d), d2.k.ival + OFFSET_SC);
    if InRegister(d1) {
      Exp2AnyRegStays(fs2, d1);
      RegThenConstant(x, fs0, fs1, d1, fs2, d2, v2);
      DecidesRight(x.g, fs2, d1, x.v, d2, v2, less);
      Finish(x, fs0, fs1, d1, x.v, fs2, d2, v2, good, i, w, g3.fs);
    } else {
      ConstantThenConstant(x, fs0, fs1, d1, fs2, d2, v2, g);
      DecidesRight(x.g, g.fs, g.d, x.v, d2, v2, less);
      Finish(x, fs0, fs2, d2, v2, g.fs, g.d, x.v, good, i, w, g3.fs);
    }
  }

  // '<' and '<='.
  lemma OrderOk(x: Ctx, fs0: Fs, fs1: Fs, d1: Desc, fs2: Fs, d2: Desc, v2: Value, less: bool)
    requires Shape(fs0, fs1, d1, x.pend) && Shape(fs1, fs2, d2, x.pend) && (InRegister(d1) || IsSCnumber(d1))
    requires CodeOrder(fs2, less, d1, d2).Ok?
    ensures var g := CodeOrder(fs2, less, d1, d2).value;
            Compared(x, fs0, g.fs, g.d, Ordered(x.g, less, x.v, v2), Given(x, fs0, fs1, d1, fs2, d2, v2))
  {
    hide Exp2AnyReg;
    var good := Given(x, fs0, fs1, d1, fs2, d2, v2);
    var w := Ordered(x.g, less, x.v, v2);
    var g3 := CodeOrder(fs2, less, d1, d2).value;
    if IsSCnumber(d2) {
      OrderRightOk(x, fs0, fs1, d1, fs2, d2, v2, less);
    } else if IsSCnumber(d1) {
      var g := Exp2AnyReg(fs2, d2).value;
      ConstantThenReg(x, fs0, fs1, d1, fs2, d2, v2, g);
      DecidesLeft(x.g, g.fs, g.d, v2, d1, x.v, less);
      Finish(x, fs0, g.fs, g.d, v2, g.fs, d1, x.v, good, OrderTestLeft(less, RegOf(g.d), d1.k.ival + OFFSET_SC), w, g3.fs);
    } else {
      Exp2AnyRegStays(fs2, d1);
      var g := Exp2AnyReg(fs2, d2).value;
      RegThenReg(x, fs0, fs1, d1, fs2, d2, v2, g);
      DecidesRegs(x.g, g.fs, d1, x.v, g.d, v2, less);
      Finish(x, fs0, fs1, d1, x.v, g.fs, g.d, v2, good, OrderTest(less, RegOf(d1), RegOf(g.d)), w, g3.fs);
    }
  }

  // '>' and '>=', coded as '<' and '<=' of the operands in exchange.
  lemma ExchangedOk(x: Ctx, fs0: Fs, fs1: Fs, d1: Desc, fs2: Fs, d2: Desc, v2: Value, less: bool)
    requires Shape(fs0, fs1, d1, x.pend) && Shape(fs1, fs2, d2, x.pend) && (InRegister(d1) || IsSCnumber(d1))
    requires CodeOrder(fs2, less, d2, d1).Ok?
    ensures var g := CodeOrder(fs2, less, d2, d1).value;
            Compared(x, fs0, g.fs, g.d, Ordered(x.g, less, v2, x.v), Given(x, fs0, fs1, d1, fs2, d2, v2))
  {
    hide Exp2AnyReg;
    var good := Given(x, fs0, fs1, d1, fs2, d2, v2);
    var w := Ordered(x.g, less, v2, x.v);
    var g3 := CodeOrder(fs2, less, d2, d1).value;
    if IsSCnumber(d1) {
      var g := Exp2AnyReg(fs2, d2).value;
      ConstantThenReg(x, fs0, fs1, d1, fs2, d2, v2, g);
      DecidesRight(x.g, g.fs, g.d, v2, d1, x.v, less);
      Finish(x, fs0, g.fs, g.d, v2, g.fs, d1, x.v, good, OrderTestRight(less, RegOf(g.d), d1.k.ival + OFFSET_SC), w, g3.fs);
    } else if IsSCnumber(d2) {
      Exp2AnyRegStays(fs2, d1);
      RegThenConstant(x, fs0, fs1, d1, fs2, d2, v2);
      DecidesLeft(x.g, fs2, d1, x.v, d2, v2, less);
      Finish(x, fs0, fs1, d1, x.v, fs2, d2, v2, good, OrderTestLeft(less, RegOf(d1), d2.k.ival + OFFSET_SC), w, g3.fs);
    } else {
      var g := Exp2AnyReg(fs2, d2).value;
      Exp2AnyRegStays(g.fs, d1);
      RegThenReg(x, fs0, fs1, d1, fs2, d2, v2, g);
      DecidesRegs(x.g, g.fs, d1, x.v, g.d, v2, less);
      Finish(x, fs0, fs1, d1, x.v, g.fs, g.d, v2, good, OrderTest(less, RegOf(g.d), RegOf(d1)), w, g3.fs);
    }
  }

  // --- Equality ---

  function EqTest(da: Desc, db: Desc, eq: bool): Instr {
    if IsSCnumber(db) then EqI(RegOf(da), db.k.ival + OFFSET_SC, eq)
    else if IsRK(db) then EqK(RegOf(da), db.k.info, eq)
    else Eq(RegOf(da), RegOf(db), eq)
  }

  lemma DecidesEq(g: Order, fs: Fs, da: Desc, va: Value, db: Desc, vb: Value, eq: bool, w: bool)
    requires w == ((va == vb) == eq)
    requires InRegister(da) && (InRegister(db) || IsSCnumber(db) || (IsRK(db) && 0 <= db.k.info < |fs.k|))
    ensures HasConstants(fs.k, EqTest(da, db, eq)) && IsCompare(EqTest(da, db, eq))
    ensures forall r :: Decides(g, fs, da, va, db, vb, EqTest(da, db, eq), w, r)
  {
  }

  lemma EqOfReg(x: Ctx, fs0: Fs, fs1: Fs, d1: Desc, fs2: Fs, d2: Desc, v2: Value, eq: bool)
    requires Shape(fs0, fs1, d1, x.pend) && Shape(fs1, fs2, d2, x.pend) && InRegister(d1)
    requires CodeEqInto(fs2, eq, d1, d2).Ok?
    ensures var g := CodeEqInto(fs2, eq, d1, d2).value;
            Compared(x, fs0, g.fs, g.d, (x.v == v2) == eq, Given(x, fs0, fs1, d1, fs2, d2, v2))
  {
    hide Exp2RK;
    var good := Given(x, fs0, fs1, d1, fs2, d2, v2);
    var w := (x.v == v2) == eq;
    var g3 := CodeEqInto(fs2, eq, d1, d2).value;
    Exp2AnyRegStays(fs2, d1);
    if IsSCnumber(d2) {
      RegThenConstant(x, fs0, fs1, d1, fs2, d2, v2);
      DecidesEq(x.g, fs2, d1, x.v, d2, v2, eq, w);
      Finish(x, fs0, fs1, d1, x.v, fs2, d2, v2, good, EqTest(d1, d2, eq), w, g3.fs);
    } else {
      var g := Exp2RK(fs2, d2).value;
      RegThenRK(x, fs0, fs1, d1, fs2, d2, v2, g);
      DecidesEq(x.g, g.fs, d1, x.v, g.d, v2, eq, w);
      Finish(x, fs0, fs1, d1, x.v, g.fs, g.d, v2, good, EqTest(d1, g.d, eq), w, g3.fs);
    }
  }

  lemma EqOfConstant(x: Ctx, fs0: Fs, fs1: Fs, d1: Desc, fs2: Fs, d2: Desc, v2: Value, eq: bool)
    requires Shape(fs0, fs1, d1, x.pend) && Shape(fs1, fs2, d2, x.pend) && IsConstant(d1)
    requires CodeEqInto(fs2, eq, d2, d1).Ok?
    ensures var g := CodeEqInto(fs2, eq, d2, d1).value;
            Compared(x, fs0, g.fs, g.d, (x.v == v2) == eq, Given(x, fs0, fs1, d1, fs2, d2, v2))
  {
    hide Exp2AnyReg, Exp2RK;
    var good := Given(x, fs0, fs1, d1, fs2, d2, v2);
    var w := (v2 == x.v) == eq;
    var g3 := CodeEqInto(fs2, eq, d2, d1).value;
    var g := Exp2AnyReg(fs2, d2).value;
    if IsSCnumber(d1) {
      ConstantThenReg(x, fs0, fs1, d1, fs2, d2, v2, g);
      DecidesEq(x.g, g.fs, g.d, v2, d1, x.v, eq, w);
      Finish(x, fs0, g.fs, g.d, v2, g.fs, d1, x.v, good, EqTest(g.d, d1, eq), w, g3.fs);
    } else {
      var g2 := Exp2RK(g.fs, d1).value;
      ConstantThenRK(x, fs0, fs1, d1, fs2, d2, v2, g, g2);
      DecidesEq(x.g, g2.fs, g.d, v2, g2.d, x.v, eq, w);
      Finish(x, fs0, g.fs, g.d, v2, g2.fs, g2.d, x.v, good, EqTest(g.d, g2.d, eq), w, g3.fs);
    }
  }

  lemma EqOk(x: Ctx, fs0: Fs, fs1: Fs, d1: Desc, fs2: Fs, d2: Desc, v2: Value, eq: bool)
    requires Shape(fs0, fs1, d1, x.pend) && Shape(fs1, fs2, d2, x.pend) && (InRegister(d1) || IsConstant(d1))
    requires CodeEq(fs2, eq, d1, d2).Ok?
    ensures var g := CodeEq(fs2, eq, d1, d2).value;
            Compared(x, fs0, g.fs, g.d, (x.v == v2) == eq, Given(x, fs0, fs1, d1, fs2, d2, v2))
  {
    if d1.k.VNonReloc? {
      EqOfReg(x, fs0, fs1, d1, fs2, d2, v2, eq);
    } else {
      EqOfConstant(x, fs0, fs1, d1, fs2, d2, v2, eq);
    }
  }
}
