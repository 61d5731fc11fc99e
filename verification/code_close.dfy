// Closing the jump lists of an expression whose value goes into a register:
// jumps that bring a value go to the end, the others to a load of true or
// false.
module CodeClose {
  import opened Results
  import opened Common
  import opened CodeMachine
  import opened CodeGen
  import opened CodeShape
  import opened CodeFlow
  import opened CodeLoad
  import opened CodeNil
  import opened CodeDischarge

  // What patching makes of the instruction at 'q'.
  function PatchedInstr(c: seq<Instr>, list: seq<nat>, vtarget: int, reg: int, dtarget: int, q: nat): Instr
    requires q < |c|
  {
    if q in list then Jmp((if ProducesValue(c, q) then vtarget else dtarget) - (q + 1))
    else if q + 1 in list && c[q].TestSet? then Retarget(c[q], reg)
    else c[q]
  }

  ghost predicate IsPatched(c: seq<Instr>, list: seq<nat>, vtarget: int, reg: int, dtarget: int, c2: seq<Instr>) {
    |c2| == |c| && forall q :: 0 <= q < |c| ==> c2[q] == PatchedInstr(c, list, vtarget, reg, dtarget, q)
  }

  ghost predicate Pendings(c: seq<Instr>, list: seq<nat>) {
    (forall p :: p in list ==> PendingAt(c, p)) && NoDup(list)
  }

  lemma PatchOneOk(c: seq<Instr>, p: nat, vtarget: int, reg: int, dtarget: int, c2: seq<Instr>)
    requires PendingAt(c, p)
    requires FixJump(PatchTestReg(c, p, reg), p, if ProducesValue(c, p) then vtarget else dtarget) == Ok(c2)
    ensures IsPatched(c, [p], vtarget, reg, dtarget, c2)
  {
  }

  // Patching one jump leaves the others waiting.
  lemma StillPending(c: seq<Instr>, list: seq<nat>, vtarget: int, reg: int, dtarget: int, c2: seq<Instr>)
    requires list != [] && Pendings(c, list) && IsPatched(c, [list[0]], vtarget, reg, dtarget, c2)
    ensures Pendings(c2, list[1..]) && list[0] !in list[1..]
    ensures forall q :: q in list[1..] ==> ProducesValue(c2, q) == ProducesValue(c, q)
  {
    var p := list[0];
    assert p in list && PendingAt(c, p);
    forall q | q in list[1..] ensures q != p && PendingAt(c2, q) && ProducesValue(c2, q) == ProducesValue(c, q) {
      assert q in list && PendingAt(c, q);
      var i :| 0 <= i < |list[1..]| && list[1..][i] == q;
      assert list[i + 1] == q;
      assert c2[q] == PatchedInstr(c, [p], vtarget, reg, dtarget, q);
      assert c2[q - 1] == PatchedInstr(c, [p], vtarget, reg, dtarget, q - 1);
    }
  }

  lemma {:induction false} PatchListOk(c: seq<Instr>, list: seq<nat>, vtarget: int, reg: int, dtarget: int)
    requires Pendings(c, list) && PatchListAux(c, list, vtarget, reg, dtarget).Ok?
    ensures IsPatched(c, list, vtarget, reg, dtarget, PatchListAux(c, list, vtarget, reg, dtarget).value)
    decreases |list|
  {
    if list != [] {
      var p := list[0];
      assert p in list && PendingAt(c, p);
      var c2 := FixJump(PatchTestReg(c, p, reg), p, if ProducesValue(c, p) then vtarget else dtarget).value;
      PatchOneOk(c, p, vtarget, reg, dtarget, c2);
      StillPending(c, list, vtarget, reg, dtarget, c2);
      PatchListOk(c2, list[1..], vtarget, reg, dtarget);
      PatchedTwice(c, p, list[1..], vtarget, reg, dtarget, c2, PatchListAux(c2, list[1..], vtarget, reg, dtarget).value);
      assert [p] + list[1..] == list;
    }
  }

  lemma PatchedTwice(c: seq<Instr>, p: nat, rest: seq<nat>, vtarget: int, reg: int, dtarget: int,
                     c2: seq<Instr>, c3: seq<Instr>)
    requires PendingAt(c, p) && (forall q :: q in rest ==> PendingAt(c, q)) && p !in rest
    requires IsPatched(c, [p], vtarget, reg, dtarget, c2) && IsPatched(c2, rest, vtarget, reg, dtarget, c3)
    requires forall q :: q in rest ==> ProducesValue(c2, q) == ProducesValue(c, q)
    ensures IsPatched(c, [p] + rest, vtarget, reg, dtarget, c3)
  {
    forall q | 0 <= q < |c| ensures c3[q] == PatchedInstr(c, [p] + rest, vtarget, reg, dtarget, q) {
      assert c3[q] == PatchedInstr(c2, rest, vtarget, reg, dtarget, q);
      assert c2[q] == PatchedInstr(c, [p], vtarget, reg, dtarget, q);
      assert q in rest ==> PendingAt(c, q);
      assert q + 1 in rest ==> PendingAt(c, q + 1);
    }
  }

  // The code that loads the two booleans.
  function Booleans(reg: int, isTest: bool): seq<Instr> {
    (if isTest then [] else [Jmp(2)]) + [LFalseSkip(reg), LoadTrue(reg)]
  }

  lemma CodeBooleansOk(fs: Fs, reg: int, isTest: bool)
    requires Behind(fs.code, fs.lasttarget) && CodeBooleans(fs, reg, isTest).Ok?
    ensures var fs1 := CodeBooleans(fs, reg, isTest).value;
            fs1 == fs.(code := fs.code + Booleans(reg, isTest), lasttarget := |fs.code + Booleans(reg, isTest)|)
  {
    var n := |fs.code|;
    var fs1 := CodeBooleans(fs, reg, isTest).value;
    if isTest {
      assert fs1.code == fs.code + Booleans(reg, isTest);
    } else {
      var c := fs.code + [Jmp(NO_JUMP)] + [LFalseSkip(reg)] + [LoadTrue(reg)];
      assert n > 0 ==> BehindAt(fs.code, fs.lasttarget, n - 1);
      assert n > 0 ==> c[n - 1] == fs.code[n - 1];
      assert Control(c, n) == n && !ProducesValue(c, n);
      assert PatchTestReg(c, n, NO_REG) == c;
      assert PatchListAux(c, [n], n + 3, NO_REG, n + 3) == FixJump(c, n, n + 3);
      assert fs1.code == fs.code + Booleans(reg, isTest);
    }
  }

  // --- Both lists of an expression ---

  function ClosedInstr(c: seq<Instr>, t: seq<nat>, f: seq<nat>, final: int, reg: int, pt: int, pf: int, q: nat): Instr
    requires q < |c|
  {
    if q in t || q in f
    then Jmp((if ProducesValue(c, q) then final else if q in t then pt else pf) - (q + 1))
    else if (q + 1 in t || q + 1 in f) && c[q].TestSet? then Retarget(c[q], reg)
    else c[q]
  }

  ghost predicate ClosedAt(c: seq<Instr>, t: seq<nat>, f: seq<nat>, final: int, reg: int, pt: int, pf: int, c2: seq<Instr>, q: nat)
    requires q < |c| <= |c2|
  {
    c2[q] == ClosedInstr(c, t, f, final, reg, pt, pf, q)
  }

  ghost predicate Closed(c: seq<Instr>, t: seq<nat>, f: seq<nat>, final: int, reg: int, pt: int, pf: int, c2: seq<Instr>) {
    |c| <= |c2| && forall q :: 0 <= q < |c| ==> ClosedAt(c, t, f, final, reg, pt, pf, c2, q)
  }

  lemma ProducesSame(c: seq<Instr>, c2: seq<Instr>, p: nat)
    requires PendingAt(c, p) && |c| <= |c2| && c2[p - 1] == c[p - 1]
    ensures ProducesValue(c2, p) == ProducesValue(c, p) == c[p - 1].TestSet?
  {
  }

  lemma PatchedBoth(lo: nat, c: seq<Instr>, cb: seq<Instr>, t: seq<nat>, f: seq<nat>, final: int, reg: int, pt: int, pf: int,
                    c3: seq<Instr>, c4: seq<Instr>)
    requires |c| <= |cb| && cb[..|c|] == c && ListsOk(c, lo, |c|, t, f)
    requires IsPatched(cb, f, final, reg, pf, c3) && IsPatched(c3, t, final, reg, pt, c4)
    ensures Closed(c, t, f, final, reg, pt, pf, c4) && c4[|c|..] == cb[|c|..]
  {
    forall q | 0 <= q < |c| ensures ClosedAt(c, t, f, final, reg, pt, pf, c4, q) {
      assert cb[..|c|][q] == c[q];
      assert c4[q] == PatchedInstr(c3, t, final, reg, pt, q);
      assert c3[q] == PatchedInstr(cb, f, final, reg, pf, q);
      assert q + 1 in t ==> PendingAt(c, q + 1);
      assert q + 1 in f ==> PendingAt(c, q + 1);
      if q in t || q in f {
        assert PendingAt(c, q);
        assert cb[..|c|][q - 1] == c[q - 1];
        ProducesSame(c, cb, q);
        assert c3[q - 1] == PatchedInstr(cb, f, final, reg, pf, q - 1);
        if q in t { ProducesSame(c, c3, q); }
      }
    }
    forall q | |c| <= q < |cb| ensures c4[q] == cb[q] {
      assert c4[q] == PatchedInstr(c3, t, final, reg, pt, q);
      assert c3[q] == PatchedInstr(cb, f, final, reg, pf, q);
    }
    assert c4[|c|..] == cb[|c|..];
  }

  // Where the jumps of both lists still wait.
  lemma PendingsKept(lo: nat, c: seq<Instr>, c3: seq<Instr>, t: seq<nat>, f: seq<nat>, final: int, reg: int, pf: int)
    requires ListsOk(c, lo, |c|, t, f) && |c| <= |c3|
    requires forall q :: 0 <= q < |c| ==> c3[q] == PatchedInstr(c, f, final, reg, pf, q)
    ensures Pendings(c3, t)
  {
    forall p | p in t ensures PendingAt(c3, p) {
      assert PendingAt(c, p);
      assert c3[p] == PatchedInstr(c, f, final, reg, pf, p) && c3[p - 1] == PatchedInstr(c, f, final, reg, pf, p - 1);
      assert p - 1 in f ==> PendingAt(c, p - 1);
    }
  }

  // --- Running code whose jumps got their destinations ---

  ghost predicate PatchFits(c1: seq<Instr>, c2: seq<Instr>, pend: set<nat>) {
    && |c1| <= |c2|
    && (forall q :: 0 <= q < |c1| ==> PatchFitsAt(c1, c2, pend, q))
  }

  ghost predicate PatchFitsAt(c1: seq<Instr>, c2: seq<Instr>, pend: set<nat>, q: nat)
    requires q < |c1| <= |c2|
  {
    if q in pend then c2[q].Jmp? else if q + 1 in pend then SameTest(c1[q], c2[q]) else c2[q] == c1[q]
  }

  lemma RunPatched(g: Order, k: seq<Value>, c1: seq<Instr>, c2: seq<Instr>, s: nat, n: nat,
                   pend1: set<nat>, pend2: set<nat>, r: Regs)
    requires s <= |c1| <= n <= |c2| && PatchFits(c1, c2, pend1) && AllPending(c1, pend1, |c1|) && pend2 <= pend1
    requires TargetsIn(c2, 0, |c1|, pend1, pend2, n)
    requires Run(g, k, c1, s, r, pend1, |c1|) != Lost
    ensures var out := Run(g, k, c1, s, r, pend1, |c1|);
            && (out.Jump? ==> 0 < out.pos < |c1| && out.pos in pend1 && c2[out.pos].Jmp?)
            && (out.Jump? && out.pos !in pend2 ==> |c1| <= out.pos + 1 + c2[out.pos].sj <= n)
            && Run(g, k, c2, s, r, pend2, n) == Resume(g, k, c2, |c1|, pend2, n, out)
  {
    var m := |c1|;
    if s < m {
      StartIsNotPending(g, k, c1, s, m, pend1, r);
      forall q | s <= q < m ensures FitsAt(c1, c2, s, m, pend1, pend2, q) {
        assert PatchFitsAt(c1, c2, pend1, q);
        assert q in pend1 ==> PendingAt(c1, q);
        assert q - 1 in pend1 ==> PendingAt(c1, q - 1);
        assert q + 1 in pend1 ==> PendingAt(c1, q + 1);
      }
      RunRepatched(g, k, k, c1, c2, s, m, pend1, pend2, n, s, r);
    }
  }

  lemma RunPatchedJump(g: Order, k: seq<Value>, c1: seq<Instr>, c2: seq<Instr>, s: nat, n: nat,
                       pend1: set<nat>, pend2: set<nat>, r: Regs, p: nat, r1: Regs)
    requires s <= |c1| <= n <= |c2| && PatchFits(c1, c2, pend1) && AllPending(c1, pend1, |c1|) && pend2 <= pend1
    requires TargetsIn(c2, 0, |c1|, pend1, pend2, n)
    requires Run(g, k, c1, s, r, pend1, |c1|) == Jump(p, r1) && p !in pend2
    ensures 0 < p < |c1| && c2[p].Jmp? && |c1| <= p + 1 + c2[p].sj <= n
    ensures Run(g, k, c2, s, r, pend2, n) == Run(g, k, c2, p + 1 + c2[p].sj, Landed(c2[p - 1], r1), pend2, n)
  {
    RunPatched(g, k, c1, c2, s, n, pend1, pend2, r);
  }
}
