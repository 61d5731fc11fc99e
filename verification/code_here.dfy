// Jumps that agree with going on are patched to here.
module CodeHere {
  import opened Results
  import opened CodeMachine
  import opened CodeGen
  import opened CodeShape
  import opened CodeFlow
  import opened CodeLoad
  import opened CodeNil
  import opened CodeDischarge
  import opened CodeClose
  import opened CodeExp2Reg
  import opened CodeRegs
  import opened CodeCond

  // 'c2' is 'c' with the jumps of 'list' going to its end, as plain tests.
  ghost predicate PatchedHere(c: seq<Instr>, list: seq<nat>, c2: seq<Instr>) {
    IsPatched(c, list, |c|, NO_REG, |c|, c2)
  }

  lemma PatchToHereOk(fs: Fs, list: seq<nat>)
    requires Pendings(fs.code, list) && PatchToHere(fs, list).Ok?
    ensures var fs2 := PatchToHere(fs, list).value;
            fs2 == fs.(code := fs2.code, lasttarget := |fs.code|) && PatchedHere(fs.code, list, fs2.code)
  {
    PatchListOk(fs.code, list, |fs.code|, NO_REG, |fs.code|);
  }

  // The jumps of the other list and the outer jumps still wait.
  lemma OthersKept(c: seq<Instr>, list: seq<nat>, c2: seq<Instr>, p: int)
    requires Pendings(c, list) && PatchedHere(c, list, c2) && PendingAt(c, p) && p !in list
    ensures PendingAt(c2, p) && c2[p - 1] == c[p - 1]
  {
    assert c2[p] == PatchedInstr(c, list, |c|, NO_REG, |c|, p);
    assert c2[p - 1] == PatchedInstr(c, list, |c|, NO_REG, |c|, p - 1);
    assert p - 1 in list ==> PendingAt(c, p - 1);
    assert p + 1 in list ==> PendingAt(c, p + 1);
  }

  lemma ListsKept(c: seq<Instr>, list: seq<nat>, c2: seq<Instr>, lo: int, other: seq<nat>)
    requires Pendings(c, list) && PatchedHere(c, list, c2)
    requires ListOk(c, lo, |c|, other) && (forall p :: p in other ==> p !in list)
    ensures ListOk(c2, lo, |c|, other)
  {
    forall p | p in other ensures lo < p < |c| && PendingAt(c2, p) {
      assert PendingAt(c, p);
      OthersKept(c, list, c2, p);
    }
  }

  lemma HereBehind(fs: Fs, list: seq<nat>, c2: seq<Instr>)
    requires Behind(fs.code, fs.lasttarget) && Pendings(fs.code, list) && PatchedHere(fs.code, list, c2)
    ensures Behind(c2, |c2|)
  {
    forall p | 0 <= p < |c2| ensures BehindAt(c2, |c2|, p) {
      assert BehindAt(fs.code, fs.lasttarget, p);
      assert c2[p] == PatchedInstr(fs.code, list, |fs.code|, NO_REG, |fs.code|, p);
    }
  }

  lemma HereShape(fs0: Fs, fs: Fs, list: seq<nat>, other: seq<nat>, pend: set<nat>, fs2: Fs)
    requires Valid(fs) && Frame(fs0, fs)
    requires AllPending(fs.code, pend, |fs0.code|) && ListsOk(fs.code, |fs0.code|, |fs.code|, list, other)
    requires fs2 == fs.(code := fs2.code, lasttarget := |fs.code|) && PatchedHere(fs.code, list, fs2.code)
    ensures Valid(fs2) && Frame(fs0, fs2)
    ensures AllPending(fs2.code, pend, |fs0.code|) && ListOk(fs2.code, |fs0.code|, |fs2.code|, other)
  {
    HereBehind(fs, list, fs2.code);
    ListsKept(fs.code, list, fs2.code, |fs0.code|, other);
    forall p | p in pend ensures p < |fs0.code| && PendingAt(fs2.code, p) {
      assert PendingAt(fs.code, p);
      OthersKept(fs.code, list, fs2.code, p);
    }
    forall q | 0 <= q < |fs0.code| ensures FrameAt(fs0, fs2, q) {
      assert FrameAt(fs0, fs, q);
      assert fs2.code[q] == PatchedInstr(fs.code, list, |fs.code|, NO_REG, |fs.code|, q);
    }
  }

  lemma HereFits(c: seq<Instr>, list: seq<nat>, c2: seq<Instr>, pend1: set<nat>, pend2: set<nat>)
    requires Pendings(c, list) && PatchedHere(c, list, c2) && AllPending(c, pend1, |c|)
    requires pend1 == pend2 + SetOf(list) && (forall p :: p in list ==> p !in pend2)
    ensures PatchFits(c, c2, pend1) && TargetsIn(c2, 0, |c|, pend1, pend2, |c|)
  {
    forall q | 0 <= q < |c| ensures PatchFitsAt(c, c2, pend1, q) {
      assert c2[q] == PatchedInstr(c, list, |c|, NO_REG, |c|, q);
      assert q in pend1 ==> PendingAt(c, q);
      assert q + 1 in pend1 ==> PendingAt(c, q + 1);
    }
    forall q | 0 <= q < |c| && q in pend1 && q !in pend2 ensures c2[q].Jmp? && |c| <= q + 1 + c2[q].sj <= |c| {
      assert c2[q] == PatchedInstr(c, list, |c|, NO_REG, |c|, q);
    }
  }

  // Running on from the patched jumps.
  lemma HereRuns(g: Order, k: seq<Value>, c: seq<Instr>, list: seq<nat>, c2: seq<Instr>, s: nat, r: Regs,
                 pend1: set<nat>, pend2: set<nat>)
    requires s <= |c| && Pendings(c, list) && PatchedHere(c, list, c2) && AllPending(c, pend1, |c|)
    requires pend1 == pend2 + SetOf(list) && (forall p :: p in list ==> p !in pend2)
    ensures var out := Run(g, k, c, s, r, pend1, |c|);
            var out2 := Run(g, k, c2, s, r, pend2, |c|);
            && (out.Fall? ==> out2 == out)
            && (out.Jump? && out.pos in list ==> out2 == Fall(out.regs))
            && (out.Jump? && out.pos !in list ==>
                  out2 == out && InstrAt(c2, out.pos - 1) == InstrAt(c, out.pos - 1))
  {
    var out := Run(g, k, c, s, r, pend1, |c|);
    if out != Lost {
      HereFits(c, list, c2, pend1, pend2);
      if out.Fall? {
        RunPatched(g, k, c, c2, s, |c|, pend1, pend2, r);
      } else if out.pos in list {
        HereGoesOn(g, k, c, list, c2, s, r, pend1, pend2, out.pos, out.regs);
      } else {
        HereWaits(g, k, c, list, c2, s, r, pend1, pend2, out.pos, out.regs);
      }
    }
  }

  lemma HereGoesOn(g: Order, k: seq<Value>, c: seq<Instr>, list: seq<nat>, c2: seq<Instr>, s: nat, r: Regs,
                   pend1: set<nat>, pend2: set<nat>, p: nat, r1: Regs)
    requires s <= |c| && Pendings(c, list) && PatchedHere(c, list, c2) && AllPending(c, pend1, |c|)
    requires pend1 == pend2 + SetOf(list) && (forall p :: p in list ==> p !in pend2)
    requires Run(g, k, c, s, r, pend1, |c|) == Jump(p, r1) && p in list
    ensures Run(g, k, c2, s, r, pend2, |c|) == Fall(r1)
  {
    HereFits(c, list, c2, pend1, pend2);
    RunPatchedJump(g, k, c, c2, s, |c|, pend1, pend2, r, p, r1);
    HereLands(c, list, c2, pend1, p, r1);
    AtEnd(g, k, c2, p + 1 + c2[p].sj, r1, pend2, |c|);
  }

  lemma AtEnd(g: Order, k: seq<Value>, c: seq<Instr>, q: nat, r: Regs, pend: set<nat>, end: nat)
    requires q == end <= |c|
    ensures Run(g, k, c, q, r, pend, end) == Fall(r)
  {
  }

  lemma HereWaits(g: Order, k: seq<Value>, c: seq<Instr>, list: seq<nat>, c2: seq<Instr>, s: nat, r: Regs,
                  pend1: set<nat>, pend2: set<nat>, p: nat, r1: Regs)
    requires s <= |c| && Pendings(c, list) && PatchedHere(c, list, c2) && AllPending(c, pend1, |c|)
    requires pend1 == pend2 + SetOf(list) && (forall p :: p in list ==> p !in pend2)
    requires Run(g, k, c, s, r, pend1, |c|) == Jump(p, r1) && p !in list
    ensures Run(g, k, c2, s, r, pend2, |c|) == Jump(p, r1)
    ensures InstrAt(c2, p - 1) == InstrAt(c, p - 1)
  {
    HereFits(c, list, c2, pend1, pend2);
    RunPatched(g, k, c, c2, s, |c|, pend1, pend2, r);
    HereLands(c, list, c2, pend1, p, r1);
  }

  lemma HereLands(c: seq<Instr>, list: seq<nat>, c2: seq<Instr>, pend1: set<nat>, p: nat, r: Regs)
    requires Pendings(c, list) && PatchedHere(c, list, c2) && AllPending(c, pend1, |c|) && p in pend1
    ensures 0 < p < |c| && Landed(c2[p - 1], r) == r
    ensures p !in list ==> c2[p - 1] == c[p - 1]
    ensures p in list ==> c2[p] == Jmp(|c| - (p + 1))
  {
    assert PendingAt(c, p);
    assert c2[p - 1] == PatchedInstr(c, list, |c|, NO_REG, |c|, p - 1);
    assert c2[p] == PatchedInstr(c, list, |c|, NO_REG, |c|, p);
    assert p - 1 in list ==> PendingAt(c, p - 1);
  }

  // --- Conditions ---

  function Rest(list: seq<nat>, cond: bool, here: bool): seq<nat> {
    if cond == here then [] else list
  }

  lemma HereFlow(fs: Fs, fs2: Fs, t: seq<nat>, f: seq<nat>, cond: bool, out: Outcome, out2: Outcome, v: Value, r1: Regs, n: int)
    requires Flow(fs.code, t, f, out, v, r1, n) && (out.Fall? ==> Truthy(v) == cond)
    requires forall p :: p in t ==> p !in f
    requires var list := if cond then t else f;
             && (out.Fall? ==> out2 == out)
             && (out.Jump? && out.pos in list ==> out2 == Fall(out.regs))
             && (out.Jump? && out.pos !in list ==>
                   out2 == out && InstrAt(fs2.code, out.pos - 1) == InstrAt(fs.code, out.pos - 1))
    ensures Flow(fs2.code, Rest(t, cond, true), Rest(f, cond, false), out2, v, r1, n)
    ensures out2.Fall? ==> Truthy(v) == cond
  {
  }

  lemma HerePend(fs0: Fs, fs: Fs, t: seq<nat>, f: seq<nat>, cond: bool, pend: set<nat>)
    requires BranchShape(fs0, fs, t, f, pend)
    ensures var list := if cond then t else f;
            var pend1, pend2 := pend + SetOf(t) + SetOf(f), pend + SetOf(Rest(t, cond, true)) + SetOf(Rest(f, cond, false));
            && pend1 == pend2 + SetOf(list) && (forall p :: p in list ==> p !in pend2)
            && AllPending(fs.code, pend1, |fs.code|)
  {
    forall p | p in pend + SetOf(t) + SetOf(f) ensures p < |fs.code| && PendingAt(fs.code, p) {
      assert p in pend ==> PendingAt(fs.code, p);
    }
  }

  lemma HereBranches(x: Ctx, fs0: Fs, fs: Fs, t: seq<nat>, f: seq<nat>, cond: bool, fs2: Fs)
    requires BranchShape(fs0, fs, t, f, x.pend) && PatchToHere(fs, if cond then t else f) == Ok(fs2)
    requires Starts(x, fs0) && Branches(x, fs, t, f, cond) && |fs2.code| == |fs.code|
    ensures Branches(x, fs2, Rest(t, cond, true), Rest(f, cond, false), cond)
  {
    hide SetOf, Valid, InstrAt, Keeps;
    var list := if cond then t else f;
    var pend1 := x.pend + SetOf(t) + SetOf(f);
    var pend2 := x.pend + SetOf(Rest(t, cond, true)) + SetOf(Rest(f, cond, false));
    PatchToHereOk(fs, list);
    HerePend(fs0, fs, t, f, cond, x.pend);
    HereRuns(x.g, fs.k, fs.code, list, fs2.code, x.s, x.r, pend1, pend2);
    var out := OutOf(x, fs, pend1, |fs.code|);
    if x.base.Fall? {
      HereFlow(fs, fs2, t, f, cond, out, OutOf(x, fs2, pend2, |fs2.code|), x.v, x.base.regs, x.n);
    } else if x.base.Jump? {
      assert x.base.pos !in list by { assert x.base.pos < |fs0.code|; }
    }
  }

  lemma BranchHere(x: Ctx, fs0: Fs, fs: Fs, t: seq<nat>, f: seq<nat>, cond: bool, fs2: Fs)
    requires BranchShape(fs0, fs, t, f, x.pend) && PatchToHere(fs, if cond then t else f) == Ok(fs2)
    ensures BranchShape(fs0, fs2, Rest(t, cond, true), Rest(f, cond, false), x.pend)
    ensures Starts(x, fs0) && Branches(x, fs, t, f, cond)
            ==> Branches(x, fs2, Rest(t, cond, true), Rest(f, cond, false), cond)
  {
    var list, other := if cond then t else f, if cond then f else t;
    PatchToHereOk(fs, list);
    HereShape(fs0, fs, list, other, x.pend, fs2);
    if Starts(x, fs0) && Branches(x, fs, t, f, cond) {
      HereBranches(x, fs0, fs, t, f, cond, fs2);
    }
  }
}
