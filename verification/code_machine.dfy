// The register machine for which the code generator emits code: the opcodes
// that compute locals, constants, comparisons, 'not', 'and' and 'or', with the
// meanings that lopcodes.h gives them, and a run that stops at jumps whose
// destination is still unknown.
module CodeMachine {

  // Register operand of a TESTSET that has no destination yet. MAXREGS is 255,
  // so no register has this number and a write to it is no write.
  const NO_REG: int := 255
  const MAXREGS: int := 255
  const NO_JUMP: int := -1
  const MAXARG_BX: int := 0x1FFFF
  const OFFSET_SBX: int := 0xFFFF
  const MAXARG_AX: int := 0x1FFFFFF
  const MAXARG_SJ: int := 0x1FFFFFF
  const OFFSET_SJ: int := 0xFFFFFF
  const MAXARG_C: int := 255
  const OFFSET_SC: int := 127
  const MAXINDEXRK: int := 255

  // Tables, functions and floats are opaque values of kind Other.
  datatype Value = Nil | Bool(b: bool) | Int(i: int) | Str(s: string) | Other(id: int)

  predicate Truthy(v: Value) {
    v != Nil && v != Bool(false)
  }

  // The order comparisons of values, which may be any two relations.
  datatype Order = Order(lt: (Value, Value) -> bool, le: (Value, Value) -> bool)

  type Regs = map<int, Value>

  function Get(r: Regs, i: int): Value {
    if i in r then r[i] else Nil
  }

  function Set(r: Regs, i: int, v: Value): Regs {
    if i == NO_REG then r else r[i := v]
  }

  function SetNils(r: Regs, a: int, l: int): Regs {
    r + map i {:trigger i in r} | a <= i <= l :: Nil
  }

  ghost predicate Keeps(r1: Regs, r2: Regs, n: int) {
    forall i :: 0 <= i < n ==> Get(r2, i) == Get(r1, i)
  }

  // Immediate operands are kept as the instruction holds them, in excess
  // notation. Foreign stands for every opcode that is not modelled.
  datatype Instr =
    | Move(a: int, b: int) | LoadI(a: int, sbx: int) | LoadK(a: int, bx: int)
    | LoadKX(a: int) | ExtraArg(ax: int) | LoadNil(a: int, b: int)
    | LoadTrue(a: int) | LoadFalse(a: int) | LFalseSkip(a: int) | Not(a: int, b: int)
    | Eq(a: int, b: int, k: bool) | Lt(a: int, b: int, k: bool) | Le(a: int, b: int, k: bool)
    | EqK(a: int, b: int, k: bool) | EqI(a: int, b: int, k: bool)
    | LtI(a: int, b: int, k: bool) | LeI(a: int, b: int, k: bool)
    | GtI(a: int, b: int, k: bool) | GeI(a: int, b: int, k: bool)
    | Test(a: int, k: bool) | TestSet(a: int, b: int, k: bool)
    | Jmp(sj: int) | Foreign(id: int)

  predicate IsCompare(i: Instr) {
    i.Eq? || i.Lt? || i.Le? || i.EqK? || i.EqI? || i.LtI? || i.LeI? || i.GtI? || i.GeI?
  }

  predicate IsTest(i: Instr) {
    IsCompare(i) || i.Test? || i.TestSet?
  }

  // The constants an instruction needs are there.
  predicate HasConstants(k: seq<Value>, i: Instr) {
    (i.EqK? ==> 0 <= i.b < |k|) && (i.LoadK? ==> 0 <= i.bx < |k|) && (i.ExtraArg? ==> 0 <= i.ax < |k|)
  }

  // Whether a test makes the machine take the jump that follows it.
  function Holds(g: Order, k: seq<Value>, i: Instr, r: Regs): bool
    requires IsTest(i) && HasConstants(k, i)
  {
    match i
    case Eq(a, b, c) => (Get(r, a) == Get(r, b)) == c
    case Lt(a, b, c) => g.lt(Get(r, a), Get(r, b)) == c
    case Le(a, b, c) => g.le(Get(r, a), Get(r, b)) == c
    case EqK(a, b, c) => (Get(r, a) == k[b]) == c
    case EqI(a, b, c) => (Get(r, a) == Int(b - OFFSET_SC)) == c
    case LtI(a, b, c) => g.lt(Get(r, a), Int(b - OFFSET_SC)) == c
    case LeI(a, b, c) => g.le(Get(r, a), Int(b - OFFSET_SC)) == c
    case GtI(a, b, c) => g.lt(Int(b - OFFSET_SC), Get(r, a)) == c
    case GeI(a, b, c) => g.le(Int(b - OFFSET_SC), Get(r, a)) == c
    case Test(a, c) => Truthy(Get(r, a)) == c
    case TestSet(a, b, c) => Truthy(Get(r, b)) == c
    case _ => false
  }

  // What a test that holds does to the registers.
  function Landed(i: Instr, r: Regs): Regs {
    if i.TestSet? then Set(r, i.a, Get(r, i.b)) else r
  }

  datatype Next = At(pc: int, regs: Regs) | Parked(pos: nat, regs: Regs) | Stuck

  // One instruction. A test is done together with the jump that must follow
  // it. The jumps in 'pend' have no destination yet: a test that takes one
  // parks the machine there.
  ghost function Step(g: Order, k: seq<Value>, c: seq<Instr>, pc: nat, r: Regs,
                      pend: set<nat>, end: nat): Next
    requires pc < end <= |c|
  {
    match c[pc]
    case Move(a, b) => At(pc + 1, Set(r, a, Get(r, b)))
    case LoadI(a, b) => At(pc + 1, Set(r, a, Int(b - OFFSET_SBX)))
    case LoadK(a, b) => if 0 <= b < |k| then At(pc + 1, Set(r, a, k[b])) else Stuck
    case LoadKX(a) =>
      if pc + 1 < end && c[pc + 1].ExtraArg? && 0 <= c[pc + 1].ax < |k|
      then At(pc + 2, Set(r, a, k[c[pc + 1].ax])) else Stuck
    case LoadNil(a, b) => At(pc + 1, SetNils(r, a, a + b))
    case LoadTrue(a) => At(pc + 1, Set(r, a, Bool(true)))
    case LoadFalse(a) => At(pc + 1, Set(r, a, Bool(false)))
    case LFalseSkip(a) => At(pc + 2, Set(r, a, Bool(false)))
    case Not(a, b) => At(pc + 1, Set(r, a, Bool(!Truthy(Get(r, b)))))
    case Jmp(sj) => if pc in pend then Stuck else At(pc + 1 + sj, r)
    case ExtraArg(ax) => Stuck
    case Foreign(id) => Stuck
    case _ =>
      if pc + 1 < end && c[pc + 1].Jmp? && HasConstants(k, c[pc])
      then
        if !Holds(g, k, c[pc], r) then At(pc + 2, r)
        else if pc + 1 in pend then Parked(pc + 1, Landed(c[pc], r))
        else At(pc + 2 + c[pc + 1].sj, Landed(c[pc], r))
      else Stuck
  }

  datatype Outcome = Fall(regs: Regs) | Jump(pos: nat, regs: Regs) | Lost

  // Runs from 'pc' to 'end', forwards only.
  ghost function Run(g: Order, k: seq<Value>, c: seq<Instr>, pc: nat, r: Regs,
                     pend: set<nat>, end: nat): Outcome
    requires pc <= end <= |c|
    decreases end - pc, 1
  {
    if pc == end then Fall(r) else Advance(g, k, c, pc, r, pend, end)
  }

  ghost function Advance(g: Order, k: seq<Value>, c: seq<Instr>, pc: nat, r: Regs,
                         pend: set<nat>, end: nat): Outcome
    requires pc < end <= |c|
    decreases end - pc, 0
  {
    match Step(g, k, c, pc, r, pend, end)
    case At(q, r') => if pc < q <= end then Run(g, k, c, q, r', pend, end) else Lost
    case Parked(p, r') => Jump(p, r')
    case Stuck => Lost
  }

  // 'j' is the test 'i', or 'i' is a TESTSET without destination and 'j' the
  // same test with one or without any need for one.
  predicate SameTest(i: Instr, j: Instr) {
    j == i || (i.TestSet? && i.a == NO_REG
               && (j == Test(i.b, i.k) || (j.TestSet? && j.b == i.b && j.k == i.k)))
  }

  // At position 'q' the code 'c2' is 'c1', in which some pending jumps and the
  // tests that control pending jumps may have been patched.
  ghost predicate FitsAt(c1: seq<Instr>, c2: seq<Instr>, s: nat, m: nat, pend1: set<nat>, pend2: set<nat>, q: nat)
    requires s <= q < m <= |c1| && m <= |c2|
  {
    if q in pend1 then s < q && c1[q].Jmp? && c2[q].Jmp? && q - 1 !in pend1
    else
      && q !in pend2
      && if q + 1 in pend1 && q + 1 < m
         then SameTest(c1[q], c2[q]) && (c1[q].TestSet? ==> c1[q].a == NO_REG)
         else c2[q] == c1[q]
  }

  // Up to position 'm' the code 'c2' is 'c1' after such patches.
  ghost predicate Repatched(c1: seq<Instr>, c2: seq<Instr>, s: nat, m: nat, pend1: set<nat>, pend2: set<nat>) {
    && m <= |c1| && m <= |c2|
    && (forall q :: s <= q < m ==> FitsAt(c1, c2, s, m, pend1, pend2, q))
  }

  ghost predicate TargetsIn(c2: seq<Instr>, s: nat, m: nat, pend1: set<nat>, pend2: set<nat>, n: nat)
    requires m <= |c2|
  {
    forall q :: s <= q < m && q in pend1 && q !in pend2 ==> c2[q].Jmp? && m <= q + 1 + c2[q].sj <= n
  }

  // How the patched code goes on from where the unpatched code stopped.
  ghost function Resume(g: Order, k: seq<Value>, c2: seq<Instr>, m: nat, pend2: set<nat>, n: nat, out: Outcome): Outcome
    requires m <= n <= |c2|
    requires out.Jump? ==> 0 < out.pos < m && c2[out.pos].Jmp?
    requires out.Jump? && out.pos !in pend2 ==> m <= out.pos + 1 + c2[out.pos].sj <= n
  {
    match out
    case Fall(r) => Run(g, k, c2, m, r, pend2, n)
    case Jump(p, r) =>
      if p in pend2 then Jump(p, Landed(c2[p - 1], r))
      else Run(g, k, c2, p + 1 + c2[p].sj, Landed(c2[p - 1], r), pend2, n)
    case Lost => Lost
  }

  // A run that parks does so at a jump after its start whose test it did.
  lemma {:induction false} ParksInside(g: Order, k: seq<Value>, c: seq<Instr>, pc: nat, r: Regs, pend: set<nat>, end: nat)
    requires pc <= end <= |c|
    ensures var out := Run(g, k, c, pc, r, pend, end);
            out.Jump? ==> pc < out.pos < end && out.pos in pend && c[out.pos].Jmp? && IsTest(c[out.pos - 1])
    decreases end - pc
  {
    if pc < end {
      match Step(g, k, c, pc, r, pend, end)
      case At(q, r') => if pc < q <= end { ParksInside(g, k, c, q, r', pend, end); }
      case Parked(p, r') =>
      case Stuck =>
    }
  }

  // The code before and after the patch agree on the instructions that are
  // not tests, and on the tests.
  lemma StepOther(g: Order, k1: seq<Value>, k2: seq<Value>, c1: seq<Instr>, c2: seq<Instr>,
                  s: nat, pend1: set<nat>, pend2: set<nat>, m: nat, n: nat, pc: nat, r: Regs)
    requires s <= pc < m <= |c1| && m <= n <= |c2| && k1 <= k2
    requires FitsAt(c1, c2, s, m, pend1, pend2, pc) && (pc + 1 < m ==> FitsAt(c1, c2, s, m, pend1, pend2, pc + 1))
    requires !IsTest(c1[pc])
    ensures var next := Step(g, k1, c1, pc, r, pend1, m);
            !next.Parked? && (next.At? ==> Step(g, k2, c2, pc, r, pend2, n) == next)
  {
  }

  lemma StepTest(g: Order, k1: seq<Value>, k2: seq<Value>, c1: seq<Instr>, c2: seq<Instr>,
                 s: nat, pend1: set<nat>, pend2: set<nat>, m: nat, n: nat, pc: nat, r: Regs)
    requires s <= pc < m <= |c1| && m <= n <= |c2| && k1 <= k2
    requires FitsAt(c1, c2, s, m, pend1, pend2, pc) && (pc + 1 < m ==> FitsAt(c1, c2, s, m, pend1, pend2, pc + 1))
    requires IsTest(c1[pc])
    ensures var next := Step(g, k1, c1, pc, r, pend1, m);
            && (next.At? ==> Step(g, k2, c2, pc, r, pend2, n) == next)
            && (next.Parked? ==>
                  && next == Parked(pc + 1, r) && pc + 1 < m && pc + 1 in pend1
                  && Step(g, k2, c2, pc, r, pend2, n)
                     == if pc + 1 in pend2 then Parked(pc + 1, Landed(c2[pc], r))
                        else At(pc + 2 + c2[pc + 1].sj, Landed(c2[pc], r)))
  {
    if HasConstants(k1, c1[pc]) {
      assert HasConstants(k2, c2[pc]);
      assert Holds(g, k2, c2[pc], r) == Holds(g, k1, c1[pc], r);
    }
  }

  // Running patched code is running the code before the patch and resuming
  // from where that stopped. With nothing patched, running code that was
  // extended is running the part that was there and then the rest.
  lemma {:induction false} RunRepatched(g: Order, k1: seq<Value>, k2: seq<Value>, c1: seq<Instr>, c2: seq<Instr>,
                     s: nat, m: nat, pend1: set<nat>, pend2: set<nat>, n: nat, pc: nat, r: Regs)
    requires s <= pc <= m <= n <= |c2| && k1 <= k2
    requires Repatched(c1, c2, s, m, pend1, pend2) && TargetsIn(c2, s, m, pend1, pend2, n)
    requires Run(g, k1, c1, pc, r, pend1, m) != Lost
    ensures var out := Run(g, k1, c1, pc, r, pend1, m);
            && (out.Jump? ==> s < out.pos < m && out.pos in pend1 && c2[out.pos].Jmp? && IsTest(c1[out.pos - 1])
                              && SameTest(c1[out.pos - 1], c2[out.pos - 1]))
            && (out.Jump? && out.pos !in pend2 ==> m <= out.pos + 1 + c2[out.pos].sj <= n)
            && Run(g, k2, c2, pc, r, pend2, n) == Resume(g, k2, c2, m, pend2, n, out)
    decreases m - pc
  {
    hide Step, IsTest;
    if pc < m {
      assert FitsAt(c1, c2, s, m, pend1, pend2, pc);
      assert pc + 1 < m ==> FitsAt(c1, c2, s, m, pend1, pend2, pc + 1);
      if IsTest(c1[pc]) {
        StepTest(g, k1, k2, c1, c2, s, pend1, pend2, m, n, pc, r);
      } else {
        StepOther(g, k1, k2, c1, c2, s, pend1, pend2, m, n, pc, r);
      }
      var next := Step(g, k1, c1, pc, r, pend1, m);
      if next.At? {
        RunRepatched(g, k1, k2, c1, c2, s, m, pend1, pend2, n, next.pc, next.regs);
      }
    }
  }
}
