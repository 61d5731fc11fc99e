// Going on if an expression is true, or false, and jumping otherwise.
module CodeCond {
  import opened CodeMachine
  import opened CodeGen
  import opened CodeShape
  import opened CodeFlow
  import opened CodeLoad
  import opened CodeNil
  import opened CodeDischarge
  import opened CodeClose
  import opened CodeExp2Reg
  import opened CodeRegs

  // The shape of the code after a condition: only jumps are left of it.
  ghost predicate BranchShape(fs0: Fs, fs: Fs, t: seq<nat>, f: seq<nat>, pend: set<nat>) {
    && Valid(fs) && 0 <= fs0.nvar <= fs0.freereg && 0 <= fs0.lasttarget <= |fs0.code| && Frame(fs0, fs)
    && fs.freereg == fs0.freereg
    && ListsOk(fs.code, |fs0.code|, |fs.code|, t, f)
    && AllPending(fs.code, pend, |fs0.code|)
  }

  // The test that ends a condition: it holds when the truth of the value is
  // 'cond', and it knows the value.
  ghost predicate Tests(g: Order, fs: Fs, d: Desc, k: seq<Value>, i: Instr, cond: bool, r: Regs)
    requires IsTest(i) && HasConstants(k, i)
  {
    var v := FallValue(g, fs, d, r);
    && Holds(g, k, i, r) == (Truthy(v) == cond)
    && (if i.TestSet? then i.a == NO_REG && Get(r, i.b) == v else v == Bool(Truthy(v)))
  }

  function WithJump(list: seq<nat>, cond: bool, here: bool, pc: nat): seq<nat> {
    if cond == here then list + [pc] else list
  }

  lemma TestAtEnd(g: Order, k: seq<Value>, c: seq<Instr>, r: Regs, pend: set<nat>)
    requires |c| >= 2 && IsTest(c[|c| - 2]) && HasConstants(k, c[|c| - 2]) && c[|c| - 1].Jmp? && |c| - 1 in pend
    requires c[|c| - 2].TestSet? ==> c[|c| - 2].a == NO_REG
    ensures Run(g, k, c, |c| - 2, r, pend, |c|) == if Holds(g, k, c[|c| - 2], r) then Jump(|c| - 1, r) else Fall(r)
  {
    var n := |c|;
    if !Holds(g, k, c[n - 2], r) {
      assert Step(g, k, c, n - 2, r, pend, n) == At(n, r);
      assert Run(g, k, c, n, r, pend, n) == Fall(r);
    } else {
      assert Step(g, k, c, n - 2, r, pend, n) == Parked(n - 1, r);
    }
  }

  lemma BranchListsOk(fs0: Fs, fs: Fs, d: Desc, pend: set<nat>, fs2: Fs, i: Instr, cond: bool)
    requires Shape(fs0, fs, d, pend) && IsTest(i) && (i.TestSet? ==> i.a == NO_REG)
    requires fs2.code == fs.code[..End(fs.code, d)] + [i] + [Jmp(NO_JUMP)]
    ensures var pc := |fs2.code| - 1;
            ListsOk(fs2.code, |fs0.code|, |fs2.code|, WithJump(d.t, true, cond, pc), WithJump(d.f, false, cond, pc))
  {
    var m := End(fs.code, d);
    var pc := |fs2.code| - 1;
    assert fs2.code[..m] == fs.code[..m];
    SameKeepsLists(fs.code, fs2.code, |fs0.code|, m, m, d.t, d.f);
    assert PendingAt(fs2.code, pc);
    OneMore(fs2.code, |fs0.code|, m, d.t, pc);
    OneMore(fs2.code, |fs0.code|, m, d.f, pc);
  }

  lemma OneMore(c: seq<Instr>, lo: int, m: int, list: seq<nat>, pc: nat)
    requires ListOk(c, lo, m, list) && m <= pc == |c| - 1 && lo < pc && PendingAt(c, pc)
    ensures ListOk(c, lo, |c|, list) && ListOk(c, lo, |c|, list + [pc])
  {
    forall p | p in list + [pc] ensures lo < p < |c| && PendingAt(c, p) {
      assert p in list || p == pc;
    }
    forall i, j | 0 <= i < j < |list + [pc]| ensures (list + [pc])[i] != (list + [pc])[j] {
      assert list[i] in list;
    }
  }

  lemma BranchBehind(fs0: Fs, fs: Fs, d: Desc, pend: set<nat>, i: Instr)
    requires Shape(fs0, fs, d, pend) && IsTest(i)
    ensures Behind(fs.code[..End(fs.code, d)] + [i] + [Jmp(NO_JUMP)], fs.lasttarget)
  {
    var n := |fs.code|;
    if d.k.VReloc? {
      BehindReplace(fs.code, fs.lasttarget, i, fs.lasttarget);
    } else if d.k.VJmp? {
      BehindUpdate(fs.code, fs.lasttarget, n - 2, i);
      BehindUpdate(fs.code[n - 2 := i], fs.lasttarget, n - 1, Jmp(NO_JUMP));
      assert fs.code[n - 2 := i][n - 1 := Jmp(NO_JUMP)] == fs.code[..n - 2] + [i] + [Jmp(NO_JUMP)];
    } else {
      assert fs.code[..n] == fs.code;
      BehindCondJump(fs.code, fs.lasttarget, i, fs.lasttarget);
    }
  }

  // The state after a test and a jump took the place of what followed the
  // code of 'd'.
  ghost predicate TestEmitted(fs0: Fs, fs: Fs, d: Desc, i: Instr, fs2: Fs) {
    && 0 <= End(fs.code, d) <= |fs.code|
    && fs2 == fs.(code := fs.code[..End(fs.code, d)] + [i] + [Jmp(NO_JUMP)], freereg := fs0.freereg,
                  maxstack := fs2.maxstack)
    && fs0.freereg <= fs2.maxstack < MAXREGS
    && IsTest(i) && HasConstants(fs.k, i) && (i.TestSet? ==> i.a == NO_REG)
  }

  lemma BranchShapeOk(fs0: Fs, fs: Fs, d: Desc, pend: set<nat>, i: Instr, fs2: Fs, cond: bool)
    requires Shape(fs0, fs, d, pend) && |fs0.code| <= End(fs.code, d) && TestEmitted(fs0, fs, d, i, fs2)
    requires fs0.freereg <= fs.freereg
    ensures var pc := |fs2.code| - 1;
            BranchShape(fs0, fs2, WithJump(d.t, true, cond, pc), WithJump(d.f, false, cond, pc), pend)
  {
    var m := End(fs.code, d);
    BranchBehind(fs0, fs, d, pend, i);
    BranchListsOk(fs0, fs, d, pend, fs2, i, cond);
    assert fs2.code[..m] == fs.code[..m];
    SameKeepsFrame(fs0, fs, fs2, m);
    SameKeepsPending(fs.code, fs2.code, |fs0.code|, pend) by {
      assert fs2.code[..|fs0.code|] == fs2.code[..m][..|fs0.code|];
      assert fs.code[..|fs0.code|] == fs.code[..m][..|fs0.code|];
    }
  }

  lemma TestedRun(g: Order, k: seq<Value>, c1: seq<Instr>, c2: seq<Instr>, s: nat, r: Regs,
                  pend1: set<nat>, pend2: set<nat>, m: nat)
    requires s <= m <= |c1| && m + 2 == |c2| && c2[..m] == c1[..m]
    requires IsTest(c2[m]) && HasConstants(k, c2[m]) && c2[m + 1].Jmp? && (c2[m].TestSet? ==> c2[m].a == NO_REG)
    requires AllPending(c1, pend1, m) && pend2 == pend1 + {m + 1}
    ensures var out := Run(g, k, c1, s, r, pend1, m);
            && (out.Jump? ==> Run(g, k, c2, s, r, pend2, m + 2) == out && 0 < out.pos < m
                              && c2[out.pos - 1] == c1[out.pos - 1])
            && (out.Fall? ==> Run(g, k, c2, s, r, pend2, m + 2)
                              == if Holds(g, k, c2[m], out.regs) then Jump(m + 1, out.regs) else out)
  {
    RunExtended(g, k, k, c1, c2, s, m, m + 2, pend1, pend2, r);
    var out := Run(g, k, c1, s, r, pend1, m);
    if out.Fall? { TestAtEnd(g, k, c2, out.regs, pend2); }
  }

  // The flow out of the test, from the flow out of the code before it.
  lemma BranchFlow(x: Ctx, fs: Fs, d: Desc, i: Instr, fs2: Fs, cond: bool, out: Outcome, out2: Outcome, r1: Regs)
    requires IsTest(i) && HasConstants(fs.k, i) && 2 <= |fs2.code| && fs2.code[|fs2.code| - 2] == i
    requires Flow(fs.code, d.t, d.f, out, x.v, r1, x.n)
    requires out.Jump? ==> out2 == out && InstrAt(fs2.code, out.pos - 1) == InstrAt(fs.code, out.pos - 1)
    requires out.Fall? ==> FallValue(x.g, fs, d, out.regs) == x.v && Tests(x.g, fs, d, fs.k, i, cond, out.regs)
    requires out.Fall? ==> out2 == if Holds(x.g, fs.k, i, out.regs) then Jump(|fs2.code| - 1, out.regs) else out
    ensures var pc := |fs2.code| - 1;
            Flow(fs2.code, WithJump(d.t, true, cond, pc), WithJump(d.f, false, cond, pc), out2, x.v, r1, x.n)
    ensures out2.Fall? ==> Truthy(x.v) == !cond
  {
    var pc := |fs2.code| - 1;
    assert (forall q :: q in d.t + [pc] <==> q in d.t || q == pc) && (forall q :: q in d.f + [pc] <==> q in d.f || q == pc);
  }

  lemma BranchPend(pend: set<nat>, d: Desc, cond: bool, pc: nat)
    ensures pend + SetOf(WithJump(d.t, true, cond, pc)) + SetOf(WithJump(d.f, false, cond, pc)) == pend + Pend(d) + {pc}
  {
    assert (forall q :: q in d.t + [pc] <==> q in d.t || q == pc) && (forall q :: q in d.f + [pc] <==> q in d.f || q == pc);
  }

  lemma BranchOutcome(x: Ctx, fs0: Fs, fs: Fs, d: Desc, i: Instr, fs2: Fs)
    requires Shape(fs0, fs, d, x.pend) && x.s <= |fs0.code| <= End(fs.code, d) && TestEmitted(fs0, fs, d, i, fs2)
    ensures var out := OutOf(x, fs, x.pend + Pend(d), End(fs.code, d));
            var out2 := OutOf(x, fs2, x.pend + Pend(d) + {(|fs2.code| - 1) as nat}, |fs2.code|);
            && (out.Jump? ==> out2 == out && InstrAt(fs2.code, out.pos - 1) == InstrAt(fs.code, out.pos - 1))
            && (out.Fall? ==> out2 == if Holds(x.g, fs.k, i, out.regs) then Jump(|fs2.code| - 1, out.regs) else out)
  {
    var m := End(fs.code, d);
    PendingTogether(fs0, fs, d, x.pend);
    assert fs2.code[..m] == fs.code[..m];
    TestedRun(x.g, fs.k, fs.code, fs2.code, x.s, x.r, x.pend + Pend(d), x.pend + Pend(d) + {m + 1}, m);
  }

  lemma BranchFollows(x: Ctx, fs0: Fs, fs: Fs, d: Desc, i: Instr, fs2: Fs, cond: bool)
    requires Shape(fs0, fs, d, x.pend) && |fs0.code| <= End(fs.code, d) && TestEmitted(fs0, fs, d, i, fs2)
    requires Starts(x, fs0) && Follows(x, fs, d)
    requires forall r :: Tests(x.g, fs, d, fs.k, i, cond, r)
    ensures var pc := |fs2.code| - 1;
            Branches(x, fs2, WithJump(d.t, true, cond, pc), WithJump(d.f, false, cond, pc), !cond)
  {
    var pc := |fs2.code| - 1;
    BranchPend(x.pend, d, cond, pc);
    BranchOutcome(x, fs0, fs, d, i, fs2);
    var out := OutOf(x, fs, x.pend + Pend(d), End(fs.code, d));
    if x.base.Fall? {
      if out.Fall? { assert Tests(x.g, fs, d, fs.k, i, cond, out.regs); }
      BranchFlow(x, fs, d, i, fs2, cond, out, OutOf(x, fs2, x.pend + Pend(d) + {pc}, |fs2.code|), x.base.regs);
    }
  }
}
