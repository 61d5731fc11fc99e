// The final result of an expression in a register, jumps included.
module CodeExp2Reg {
  import opened Results
  import opened Common
  import opened CodeMachine
  import opened CodeGen
  import opened CodeShape
  import opened CodeFlow
  import opened CodeLoad
  import opened CodeNil
  import opened CodeDischarge
  import opened CodeClose

  // Before its lists are closed: falling out, a test is false, and any other
  // expression has its value in the register.
  ghost predicate Closable(x: Ctx, fs: Fs, t: seq<nat>, f: seq<nat>, reg: int, isTest: bool)
    requires x.s <= |fs.code|
  {
    var out := OutOf(x, fs, x.pend + SetOf(t) + SetOf(f), |fs.code|);
    match x.base
    case Lost => true
    case Jump(p, r) => out == x.base && p in x.pend
    case Fall(r1) =>
      && Flow(fs.code, t, f, out, x.v, r1, x.n)
      && (out.Fall? ==> x.v == if isTest then Bool(false) else Get(out.regs, reg))
  }

  ghost predicate ReadyToClose(fs0: Fs, fs: Fs, t: seq<nat>, f: seq<nat>, pend: set<nat>) {
    && Valid(fs) && 0 <= fs0.nvar <= fs0.freereg && 0 <= fs0.lasttarget <= |fs0.code| && Frame(fs0, fs)
    && fs.freereg == fs0.freereg + 1
    && ListsOk(fs.code, |fs0.code|, |fs.code|, t, f)
    && AllPending(fs.code, pend, |fs0.code|)
  }

  // The code after the lists have been closed.
  ghost predicate ClosedCode(fs: Fs, t: seq<nat>, f: seq<nat>, reg: int, isTest: bool, fs2: Fs) {
    var tail := if Needed(fs, t, f) then Booleans(reg, isTest) else [];
    var final := |fs.code| + |tail|;
    && fs2 == fs.(code := fs2.code, lasttarget := final)
    && |fs2.code| == final && fs2.code[|fs.code|..] == tail
    && Closed(fs.code, t, f, final, reg, if Needed(fs, t, f) then final - 1 else NO_JUMP,
              if Needed(fs, t, f) then final - 2 else NO_JUMP, fs2.code)
  }

  lemma CloseCode(fs0: Fs, fs: Fs, t: seq<nat>, f: seq<nat>, isTest: bool, pend: set<nat>)
    requires ReadyToClose(fs0, fs, t, f, pend) && (t != [] || f != [])
    requires CloseLists(fs, t, f, fs0.freereg, isTest).Ok?
    ensures ClosedCode(fs, t, f, fs0.freereg, isTest, CloseLists(fs, t, f, fs0.freereg, isTest).value)
  {
    hide CloseLists, PatchListAux;
    CloseListsNeeds(fs, t, f, fs0.freereg, isTest);
    var reg := fs0.freereg;
    var fs1 := if Needed(fs, t, f) then CodeBooleans(fs, reg, isTest).value else fs;
    var tail := if Needed(fs, t, f) then Booleans(reg, isTest) else [];
    if Needed(fs, t, f) { CodeBooleansOk(fs, reg, isTest); }
    assert fs1.code == fs.code + tail;
    CloseListsIs(fs, t, f, reg, isTest, fs1);
    CloseWith(fs0, fs, t, f, isTest, pend, tail, CloseLists(fs, t, f, reg, isTest).value);
  }

  lemma CloseListsNeeds(fs: Fs, t: seq<nat>, f: seq<nat>, reg: int, isTest: bool)
    requires (t != [] || f != []) && CloseLists(fs, t, f, reg, isTest).Ok?
    ensures Needed(fs, t, f) ==> CodeBooleans(fs, reg, isTest).Ok?
  {
  }

  lemma CloseWith(fs0: Fs, fs: Fs, t: seq<nat>, f: seq<nat>, isTest: bool, pend: set<nat>, tail: seq<Instr>, fs2: Fs)
    requires ReadyToClose(fs0, fs, t, f, pend)
    requires tail == if Needed(fs, t, f) then Booleans(fs0.freereg, isTest) else []
    requires var cb := fs.code + tail;
             var pt := if Needed(fs, t, f) then |cb| - 1 else NO_JUMP;
             var pf := if Needed(fs, t, f) then |cb| - 2 else NO_JUMP;
             && PatchListAux(cb, f, |cb|, fs0.freereg, pf).Ok?
             && PatchListAux(PatchListAux(cb, f, |cb|, fs0.freereg, pf).value, t, |cb|, fs0.freereg, pt) == Ok(fs2.code)
             && fs2 == fs.(code := fs2.code, lasttarget := |cb|)
    ensures ClosedCode(fs, t, f, fs0.freereg, isTest, fs2)
  {
    hide PatchListAux;
    var cb := fs.code + tail;
    var need := Needed(fs, t, f);
    PatchBothOk(|fs0.code|, fs.code, cb, t, f, |cb|, fs0.freereg, if need then |cb| - 1 else NO_JUMP,
                if need then |cb| - 2 else NO_JUMP);
    assert cb[|fs.code|..] == tail;
  }

  lemma PatchBothOk(lo: nat, c: seq<Instr>, cb: seq<Instr>, t: seq<nat>, f: seq<nat>, final: int, reg: int, pt: int, pf: int)
    requires |c| <= |cb| && cb[..|c|] == c && ListsOk(c, lo, |c|, t, f)
    requires PatchListAux(cb, f, final, reg, pf).Ok?
             && PatchListAux(PatchListAux(cb, f, final, reg, pf).value, t, final, reg, pt).Ok?
    ensures var c4 := PatchListAux(PatchListAux(cb, f, final, reg, pf).value, t, final, reg, pt).value;
            |c4| == |cb| && Closed(c, t, f, final, reg, pt, pf, c4) && c4[|c|..] == cb[|c|..]
  {
    PendingsIn(c, cb, f);
    PatchListOk(cb, f, final, reg, pf);
    var c3 := PatchListAux(cb, f, final, reg, pf).value;
    forall q | 0 <= q < |c| ensures c3[q] == PatchedInstr(c, f, final, reg, pf, q) {
      SamePatched(c, cb, f, final, reg, pf, q);
    }
    PendingsKept(lo, c, c3, t, f, final, reg, pf);
    PatchListOk(c3, t, final, reg, pt);
    PatchedBoth(lo, c, cb, t, f, final, reg, pt, pf, c3, PatchListAux(c3, t, final, reg, pt).value);
  }

  lemma PendingsIn(c: seq<Instr>, cb: seq<Instr>, list: seq<nat>)
    requires Pendings(c, list) && |c| <= |cb| && cb[..|c|] == c
    ensures Pendings(cb, list)
  {
    forall p | p in list ensures PendingAt(cb, p) {
      assert PendingAt(c, p);
      assert cb[..|c|][p] == c[p] && cb[..|c|][p - 1] == c[p - 1];
    }
  }

  lemma SamePatched(c: seq<Instr>, c1: seq<Instr>, list: seq<nat>, vtarget: int, reg: int, dtarget: int, q: nat)
    requires q < |c| <= |c1| && c1[..|c|] == c && Pendings(c, list)
    ensures PatchedInstr(c1, list, vtarget, reg, dtarget, q) == PatchedInstr(c, list, vtarget, reg, dtarget, q)
  {
    assert c1[..|c|][q] == c[q];
    if q in list {
      assert PendingAt(c, q);
      assert c1[..|c|][q - 1] == c[q - 1];
    }
  }

  lemma ProducesAll(fs: Fs, t: seq<nat>, f: seq<nat>, q: nat)
    requires !Needed(fs, t, f) && (q in t || q in f)
    ensures ProducesValue(fs.code, q)
  {
  }

  // The instruction at 'q' after closing.
  lemma ClosedFact(fs0: Fs, fs: Fs, t: seq<nat>, f: seq<nat>, isTest: bool, pend: set<nat>, fs2: Fs, q: nat)
    requires ReadyToClose(fs0, fs, t, f, pend) && ClosedCode(fs, t, f, fs0.freereg, isTest, fs2) && q < |fs.code|
    ensures |fs.code| <= |fs2.code|
    ensures q in t || q in f ==>
              PendingAt(fs.code, q) && fs2.code[q].Jmp?
              && q + 1 + fs2.code[q].sj
                 == |fs2.code| - (if fs.code[q - 1].TestSet? then 0 else if q in t then 1 else 2)
              && (!fs.code[q - 1].TestSet? ==> Needed(fs, t, f))
    ensures q !in t && q !in f ==>
              fs2.code[q] == if (q + 1 in t || q + 1 in f) && fs.code[q].TestSet? then Retarget(fs.code[q], fs0.freereg)
                             else fs.code[q]
    ensures q + 1 in t || q + 1 in f ==> PendingAt(fs.code, q + 1) && q !in t && q !in f
  {
    var final := |fs2.code|;
    var need := Needed(fs, t, f);
    assert ClosedAt(fs.code, t, f, final, fs0.freereg, if need then final - 1 else NO_JUMP,
                    if need then final - 2 else NO_JUMP, fs2.code, q);
    assert q in t || q in f ==> PendingAt(fs.code, q) && ProducesValue(fs.code, q) == fs.code[q - 1].TestSet?;
    if (q in t || q in f) && !need { ProducesAll(fs, t, f, q); }
  }

  // --- The shape afterwards ---

  lemma CloseBehind(fs0: Fs, fs: Fs, t: seq<nat>, f: seq<nat>, isTest: bool, pend: set<nat>, fs2: Fs)
    requires ReadyToClose(fs0, fs, t, f, pend) && ClosedCode(fs, t, f, fs0.freereg, isTest, fs2)
    ensures Behind(fs2.code, |fs2.code|)
  {
    hide NeedValue, ListsOk, Frame, Closed;
    var n1, n := |fs.code|, |fs2.code|;
    forall p | 0 <= p < n ensures BehindAt(fs2.code, n, p) {
      if p < n1 {
        assert BehindAt(fs.code, fs.lasttarget, p);
        ClosedFact(fs0, fs, t, f, isTest, pend, fs2, p);
      } else {
        assert fs2.code[p] == fs2.code[n1..][p - n1];
      }
    }
  }

  lemma CloseShape(fs0: Fs, fs: Fs, t: seq<nat>, f: seq<nat>, isTest: bool, pend: set<nat>, fs2: Fs)
    requires ReadyToClose(fs0, fs, t, f, pend) && ClosedCode(fs, t, f, fs0.freereg, isTest, fs2)
    ensures Shape(fs0, fs2, Desc(VNonReloc(fs0.freereg), [], []), pend)
  {
    CloseBehind(fs0, fs, t, f, isTest, pend, fs2);
    forall q | 0 <= q < |fs0.code| ensures FrameAt(fs0, fs2, q) {
      assert FrameAt(fs0, fs, q);
      ClosedFact(fs0, fs, t, f, isTest, pend, fs2, q);
    }
    forall p | p in pend ensures p < |fs0.code| && PendingAt(fs2.code, p) {
      assert PendingAt(fs.code, p);
      ClosedFact(fs0, fs, t, f, isTest, pend, fs2, p);
      ClosedFact(fs0, fs, t, f, isTest, pend, fs2, p - 1);
    }
  }

  // --- What the closed code does ---

  lemma BooleansRun(g: Order, k: seq<Value>, c: seq<Instr>, n1: nat, r: Regs, pend: set<nat>, reg: int, isTest: bool)
    requires n1 <= |c| && c[n1..] == Booleans(reg, isTest) && (forall p :: p in pend ==> p < n1)
    ensures Run(g, k, c, |c| - 2, r, pend, |c|) == Fall(Set(r, reg, Bool(false)))
    ensures Run(g, k, c, |c| - 1, r, pend, |c|) == Fall(Set(r, reg, Bool(true)))
    ensures Run(g, k, c, n1, r, pend, |c|) == Fall(if isTest then Set(r, reg, Bool(false)) else r)
  {
    var n := |c|;
    var bs := Booleans(reg, isTest);
    assert c[n - 2] == c[n1..][|bs| - 2] && c[n - 1] == c[n1..][|bs| - 1];
    assert forall r' :: Run(g, k, c, n, r', pend, n) == Fall(r');
    assert Step(g, k, c, n - 2, r, pend, n) == At(n, Set(r, reg, Bool(false)));
    assert Step(g, k, c, n - 1, r, pend, n) == At(n, Set(r, reg, Bool(true)));
    if !isTest {
      assert c[n1] == c[n1..][0] == Jmp(2);
      assert Step(g, k, c, n1, r, pend, n) == At(n, r);
    }
  }

  lemma ClosedFits(fs0: Fs, fs: Fs, t: seq<nat>, f: seq<nat>, isTest: bool, pend: set<nat>, fs2: Fs)
    requires ReadyToClose(fs0, fs, t, f, pend) && ClosedCode(fs, t, f, fs0.freereg, isTest, fs2)
    ensures Patched(fs, fs2, pend + SetOf(t) + SetOf(f), pend)
  {
    var pend1 := pend + SetOf(t) + SetOf(f);
    forall p | p in pend1 ensures p < |fs.code| && PendingAt(fs.code, p) {
      assert p in pend ==> PendingAt(fs.code, p);
    }
    forall q | 0 <= q < |fs.code| ensures PatchFitsAt(fs.code, fs2.code, pend1, q) {
      ClosedFact(fs0, fs, t, f, isTest, pend, fs2, q);
      assert q in pend1 ==> PendingAt(fs.code, q);
      assert q + 1 in pend1 ==> PendingAt(fs.code, q + 1);
    }
    forall q | 0 <= q < |fs.code| && q in pend1 && q !in pend
      ensures fs2.code[q].Jmp? && |fs.code| <= q + 1 + fs2.code[q].sj <= |fs2.code|
    {
      ClosedFact(fs0, fs, t, f, isTest, pend, fs2, q);
    }
    forall q | q in pend ensures q < |fs.code| { assert PendingAt(fs.code, q); }
  }

  // The code of 'fs2' is that of 'fs' after the jumps in 'pend1' but not in
  // 'pend' got destinations behind it.
  ghost predicate Patched(fs: Fs, fs2: Fs, pend1: set<nat>, pend: set<nat>) {
    && PatchFits(fs.code, fs2.code, pend1) && AllPending(fs.code, pend1, |fs.code|) && pend <= pend1
    && TargetsIn(fs2.code, 0, |fs.code|, pend1, pend, |fs2.code|) && fs2.k == fs.k
  }

  // Where and with what registers a jump of one of the lists arrives that was
  // taken with the value 'v'.
  ghost predicate Arrives(fs: Fs, fs2: Fs, p: nat, r: Regs, reg: int, v: Value, q: int, r2: Regs) {
    || (q == |fs2.code| && Get(r2, reg) == v && Keeps(r, r2, reg))
    || (q == |fs2.code| - 1 && r2 == r && v == Bool(true))
    || (q == |fs2.code| - 2 && r2 == r && v == Bool(false))
  }

  lemma JumpArrives(fs0: Fs, fs: Fs, t: seq<nat>, f: seq<nat>, isTest: bool, pend: set<nat>, fs2: Fs,
                    p: nat, r: Regs, v: Value)
    requires ReadyToClose(fs0, fs, t, f, pend) && ClosedCode(fs, t, f, fs0.freereg, isTest, fs2)
    requires (p in t && JumpValue(fs.code, p, r, true) == v) || (p in f && JumpValue(fs.code, p, r, false) == v)
    ensures 0 < p < |fs.code| <= |fs2.code| && fs2.code[p].Jmp?
    ensures Arrives(fs, fs2, p, r, fs0.freereg, v, p + 1 + fs2.code[p].sj, Landed(fs2.code[p - 1], r))
    ensures p + 1 + fs2.code[p].sj != |fs2.code| ==> Needed(fs, t, f)
  {
    hide NoDup, AllPending;
    assert PendingAt(fs.code, p);
    ClosedFact(fs0, fs, t, f, isTest, pend, fs2, p);
    ClosedFact(fs0, fs, t, f, isTest, pend, fs2, p - 1);
  }

  lemma ArrivalRuns(g: Order, fs: Fs, fs2: Fs, p: nat, r: Regs, reg: int, isTest: bool, v: Value, q: nat, r2: Regs, pend: set<nat>)
    requires Arrives(fs, fs2, p, r, reg, v, q, r2) && 0 <= reg < NO_REG && q <= |fs2.code|
    requires |fs.code| <= |fs2.code| && (forall j :: j in pend ==> j < |fs.code|)
    requires q != |fs2.code| ==> fs2.code[|fs.code|..] == Booleans(reg, isTest)
    ensures var out := Run(g, fs2.k, fs2.code, q, r2, pend, |fs2.code|);
            out.Fall? && Get(out.regs, reg) == v && Keeps(r, out.regs, reg)
  {
    if q != |fs2.code| {
      BooleansRun(g, fs2.k, fs2.code, |fs.code|, r2, pend, reg, isTest);
    } else {
      assert Run(g, fs2.k, fs2.code, q, r2, pend, q) == Fall(r2);
    }
  }

  // How running the closed code goes on from where the open code stopped.
  lemma CloseParked(g: Order, fs: Fs, fs2: Fs, pend1: set<nat>, pend: set<nat>, s: nat, r: Regs, p: nat, r1: Regs)
    requires Patched(fs, fs2, pend1, pend) && s <= |fs.code|
    requires Run(g, fs.k, fs.code, s, r, pend1, |fs.code|) == Jump(p, r1) && p in pend
    requires 0 < p < |fs.code| && Landed(fs2.code[p - 1], r1) == r1
    ensures Run(g, fs2.k, fs2.code, s, r, pend, |fs2.code|) == Jump(p, r1)
  {
    RunPatched(g, fs.k, fs.code, fs2.code, s, |fs2.code|, pend1, pend, r);
  }

  lemma CloseFell(g: Order, fs: Fs, fs2: Fs, pend1: set<nat>, pend: set<nat>, s: nat, r: Regs, reg: int, isTest: bool, r1: Regs)
    requires Patched(fs, fs2, pend1, pend) && s <= |fs.code|
    requires Run(g, fs.k, fs.code, s, r, pend1, |fs.code|) == Fall(r1)
    requires if |fs2.code| == |fs.code| then !isTest else fs2.code[|fs.code|..] == Booleans(reg, isTest)
    requires forall q :: q in pend ==> q < |fs.code|
    ensures Run(g, fs2.k, fs2.code, s, r, pend, |fs2.code|) == Fall(if isTest then Set(r1, reg, Bool(false)) else r1)
  {
    RunPatched(g, fs.k, fs.code, fs2.code, s, |fs2.code|, pend1, pend, r);
    if |fs2.code| != |fs.code| {
      BooleansRun(g, fs2.k, fs2.code, |fs.code|, r1, pend, reg, isTest);
    }
  }

  lemma CloseJumped(g: Order, fs: Fs, fs2: Fs, pend1: set<nat>, pend: set<nat>, s: nat, r: Regs, reg: int, isTest: bool,
                    v: Value, p: nat, r1: Regs)
    requires Patched(fs, fs2, pend1, pend) && s <= |fs.code| && 0 <= reg < NO_REG
    requires Run(g, fs.k, fs.code, s, r, pend1, |fs.code|) == Jump(p, r1) && p !in pend
    requires 0 < p < |fs.code| && fs2.code[p].Jmp?
    requires Arrives(fs, fs2, p, r1, reg, v, p + 1 + fs2.code[p].sj, Landed(fs2.code[p - 1], r1))
    requires p + 1 + fs2.code[p].sj != |fs2.code| ==> fs2.code[|fs.code|..] == Booleans(reg, isTest)
    requires forall q :: q in pend ==> q < |fs.code|
    ensures var out2 := Run(g, fs2.k, fs2.code, s, r, pend, |fs2.code|);
            out2.Fall? && Get(out2.regs, reg) == v && Keeps(r1, out2.regs, reg)
  {
    RunPatchedJump(g, fs.k, fs.code, fs2.code, s, |fs2.code|, pend1, pend, r, p, r1);
    ArrivalRuns(g, fs, fs2, p, r1, reg, isTest, v, p + 1 + fs2.code[p].sj, Landed(fs2.code[p - 1], r1), pend);
  }

  lemma StillParked(fs0: Fs, fs: Fs, t: seq<nat>, f: seq<nat>, isTest: bool, pend: set<nat>, fs2: Fs, p: nat, r: Regs)
    requires ReadyToClose(fs0, fs, t, f, pend) && ClosedCode(fs, t, f, fs0.freereg, isTest, fs2)
    requires p in pend
    ensures 0 < p < |fs.code| && Landed(fs2.code[p - 1], r) == r
  {
    assert PendingAt(fs.code, p);
    ClosedFact(fs0, fs, t, f, isTest, pend, fs2, p - 1);
  }

  lemma PendBefore(fs0: Fs, fs: Fs, t: seq<nat>, f: seq<nat>, pend: set<nat>)
    requires ReadyToClose(fs0, fs, t, f, pend)
    ensures forall q :: q in pend ==> q < |fs.code|
    ensures forall q :: q in t || q in f ==> q !in pend
  {
    forall q | q in pend ensures q < |fs0.code| { assert PendingAt(fs.code, q); }
  }

  // What is left to say once the closed code has run.
  lemma RunFollows(x: Ctx, fs2: Fs, reg: int, out: Outcome)
    requires x.s <= |fs2.code| && out == OutOf(x, fs2, x.pend, |fs2.code|)
    requires x.base.Jump? ==> out == x.base && out.pos in x.pend
    requires x.base.Fall? ==> out.Fall? && Keeps(x.base.regs, out.regs, x.n) && Get(out.regs, reg) == x.v
    ensures Follows(x, fs2, Desc(VNonReloc(reg), [], []))
  {
    assert x.pend + Pend(Desc(VNonReloc(reg), [], [])) == x.pend;
  }

  lemma KeepsTrans(r1: Regs, r2: Regs, r3: Regs, n: int)
    requires Keeps(r1, r2, n) && Keeps(r2, r3, n)
    ensures Keeps(r1, r3, n)
  {
  }

  lemma JumpedFollows(x: Ctx, fs0: Fs, fs: Fs, t: seq<nat>, f: seq<nat>, isTest: bool, fs2: Fs, pend1: set<nat>, p: nat, r: Regs)
    requires ReadyToClose(fs0, fs, t, f, x.pend) && ClosedCode(fs, t, f, fs0.freereg, isTest, fs2)
    requires Patched(fs, fs2, pend1, x.pend) && p !in x.pend && (forall q :: q in x.pend ==> q < |fs.code|)
    requires x.s <= |fs.code| && x.n == fs0.freereg && x.base.Fall? && OutOf(x, fs, pend1, |fs.code|) == Jump(p, r)
    requires Keeps(x.base.regs, r, x.n)
    requires (p in t && JumpValue(fs.code, p, r, true) == x.v) || (p in f && JumpValue(fs.code, p, r, false) == x.v)
    ensures Follows(x, fs2, Desc(VNonReloc(fs0.freereg), [], []))
  {
    JumpArrives(fs0, fs, t, f, isTest, x.pend, fs2, p, r, x.v);
    CloseJumped(x.g, fs, fs2, pend1, x.pend, x.s, x.r, fs0.freereg, isTest, x.v, p, r);
    var out2 := OutOf(x, fs2, x.pend, |fs2.code|);
    KeepsTrans(x.base.regs, r, out2.regs, x.n);
    RunFollows(x, fs2, fs0.freereg, out2);
  }

  lemma CloseFollows(x: Ctx, fs0: Fs, fs: Fs, t: seq<nat>, f: seq<nat>, isTest: bool, fs2: Fs)
    requires ReadyToClose(fs0, fs, t, f, x.pend) && ClosedCode(fs, t, f, fs0.freereg, isTest, fs2)
    requires isTest ==> Needed(fs, t, f)
    requires Starts(x, fs0) && Closable(x, fs, t, f, fs0.freereg, isTest)
    ensures Follows(x, fs2, Desc(VNonReloc(fs0.freereg), [], []))
  {
    var pend1 := x.pend + SetOf(t) + SetOf(f);
    var out := OutOf(x, fs, pend1, |fs.code|);
    ClosedFits(fs0, fs, t, f, isTest, x.pend, fs2);
    PendBefore(fs0, fs, t, f, x.pend);
    match x.base
    case Lost => RunFollows(x, fs2, fs0.freereg, OutOf(x, fs2, x.pend, |fs2.code|));
    case Jump(p, r) =>
      StillParked(fs0, fs, t, f, isTest, x.pend, fs2, p, r);
      CloseParked(x.g, fs, fs2, pend1, x.pend, x.s, x.r, p, r);
      RunFollows(x, fs2, fs0.freereg, x.base);
    case Fall(r1) =>
      if out.Fall? {
        CloseFell(x.g, fs, fs2, pend1, x.pend, x.s, x.r, fs0.freereg, isTest, out.regs);
        RunFollows(x, fs2, fs0.freereg, OutOf(x, fs2, x.pend, |fs2.code|));
      } else {
        JumpedFollows(x, fs0, fs, t, f, isTest, fs2, pend1, out.pos, out.regs);
      }
  }

  // --- Tests ---

  // A test leaves through its own jump when it is true.
  lemma TestRuns(g: Order, k: seq<Value>, c: seq<Instr>, r: Regs, pend: set<nat>)
    requires |c| >= 2 && IsCompare(c[|c| - 2]) && HasConstants(k, c[|c| - 2]) && c[|c| - 1].Jmp? && |c| - 1 in pend
    ensures Run(g, k, c, |c| - 2, r, pend, |c|) == if Holds(g, k, c[|c| - 2], r) then Jump(|c| - 1, r) else Fall(r)
  {
    var n := |c|;
    if !Holds(g, k, c[n - 2], r) {
      assert Step(g, k, c, n - 2, r, pend, n) == At(n, r);
      assert Run(g, k, c, n, r, pend, n) == Fall(r);
    } else {
      assert Step(g, k, c, n - 2, r, pend, n) == Parked(n - 1, r);
    }
  }

  lemma TestReady(fs0: Fs, fs: Fs, d: Desc, pend: set<nat>, fs1: Fs)
    requires Shape(fs0, fs, d, pend) && Reserved(fs0, fs, fs1) && d.k.VJmp?
    ensures ReadyToClose(fs0, fs1, d.t + [d.k.pos], d.f, pend) && Needed(fs1, d.t + [d.k.pos], d.f)
  {
    var p := d.k.pos;
    var t := d.t + [p];
    assert p in t && !ProducesValue(fs1.code, p);
    assert PendingAt(fs.code, p);
    forall q | q in t ensures |fs0.code| < q < |fs.code| && PendingAt(fs.code, q) && q !in d.f {
      assert q in d.t || q == p;
    }
    assert NoDup(t) by {
      forall i, j | 0 <= i < j < |t| ensures t[i] != t[j] {
        assert d.t[i] in d.t;
      }
    }
    assert ListOk(fs1.code, |fs0.code|, |fs1.code|, t);
    assert Behind(fs1.code, fs1.lasttarget);
    forall q | 0 <= q < |fs0.code| ensures FrameAt(fs0, fs1, q) { assert FrameAt(fs0, fs, q); }
  }

  // Running a test to its end, its own jump waiting too.
  lemma TestExtends(g: Order, k1: seq<Value>, k2: seq<Value>, c1: seq<Instr>, c2: seq<Instr>, s: nat, r: Regs,
                    pend1: set<nat>, pend2: set<nat>)
    requires 2 <= |c1| == |c2| && s <= |c1| - 2 && c2[..|c1| - 2] == c1[..|c1| - 2] && k1 <= k2
    requires IsCompare(c2[|c1| - 2]) && HasConstants(k2, c2[|c1| - 2]) && c2[|c1| - 1].Jmp?
    requires AllPending(c1, pend1, |c1| - 2) && pend2 == pend1 + {|c1| - 1}
    ensures var out := Run(g, k1, c1, s, r, pend1, |c1| - 2);
            && (out.Jump? ==> Run(g, k2, c2, s, r, pend2, |c1|) == out && 0 < out.pos < |c1| - 2)
            && (out.Fall? ==> Run(g, k2, c2, s, r, pend2, |c1|)
                              == if Holds(g, k2, c2[|c1| - 2], out.regs) then Jump(|c1| - 1, out.regs) else out)
  {
    RunExtended(g, k1, k2, c1, c2, s, |c1| - 2, |c1|, pend1, pend2, r);
    var out := Run(g, k1, c1, s, r, pend1, |c1| - 2);
    if out.Fall? { TestRuns(g, k2, c2, out.regs, pend2); }
  }

  lemma TestCloses(x: Ctx, fs0: Fs, fs: Fs, d: Desc, fs1: Fs)
    requires Shape(fs0, fs, d, x.pend) && Reserved(fs0, fs, fs1) && d.k.VJmp?
    requires Starts(x, fs0) && Follows(x, fs, d)
    ensures Closable(x, fs1, d.t + [d.k.pos], d.f, fs0.freereg, true)
  {
    var n := |fs.code|;
    var t := d.t + [n - 1];
    var pend1 := x.pend + Pend(d);
    PendingTogether(fs0, fs, d, x.pend);
    assert n - 1 in t && (forall q :: q in t <==> q in d.t || q == n - 1);
    assert x.pend + SetOf(t) + SetOf(d.f) == pend1 + {n - 1};
    TestExtends(x.g, fs.k, fs1.k, fs.code, fs1.code, x.s, x.r, pend1, pend1 + {n - 1});
    SameHolds(x.g, fs.k, fs1.k, fs.code[n - 2]);
    assert JumpIsPlain(fs1.code, n - 1);
  }

  predicate JumpIsPlain(c: seq<Instr>, p: nat) {
    !InstrAt(c, p - 1).TestSet?
  }

  lemma SameHolds(g: Order, k1: seq<Value>, k2: seq<Value>, i: Instr)
    requires k1 <= k2 && IsTest(i) && HasConstants(k1, i)
    ensures HasConstants(k2, i) && forall r :: Holds(g, k2, i, r) == Holds(g, k1, i, r)
  {
  }

  // --- The whole of exp2reg ---

  lemma ValueReady(x: Ctx, fs0: Fs, fs: Fs, d: Desc)
    requires Shape(fs0, fs, d, x.pend) && d.k == VNonReloc(fs0.freereg) && fs.freereg == fs0.freereg + 1
    ensures ReadyToClose(fs0, fs, d.t, d.f, x.pend)
    ensures x.s <= |fs.code| && Follows(x, fs, d) ==> Closable(x, fs, d.t, d.f, fs0.freereg, false)
  {
    assert x.pend + Pend(d) == x.pend + SetOf(d.t) + SetOf(d.f);
  }

  lemma CloseOk(x: Ctx, fs0: Fs, fs: Fs, t: seq<nat>, f: seq<nat>, isTest: bool)
    requires ReadyToClose(fs0, fs, t, f, x.pend) && CloseLists(fs, t, f, fs0.freereg, isTest).Ok?
    requires isTest ==> Needed(fs, t, f)
    ensures var fs2 := CloseLists(fs, t, f, fs0.freereg, isTest).value;
            && Shape(fs0, fs2, Desc(VNonReloc(fs0.freereg), [], []), x.pend) && fs2.freereg == fs0.freereg + 1
            && (Starts(x, fs0) && Closable(x, fs, t, f, fs0.freereg, isTest)
                ==> Follows(x, fs2, Desc(VNonReloc(fs0.freereg), [], [])))
  {
    var fs2 := CloseLists(fs, t, f, fs0.freereg, isTest).value;
    if t != [] || f != [] {
      CloseCode(fs0, fs, t, f, isTest, x.pend);
      CloseShape(fs0, fs, t, f, isTest, x.pend, fs2);
      if Starts(x, fs0) && Closable(x, fs, t, f, fs0.freereg, isTest) {
        CloseFollows(x, fs0, fs, t, f, isTest, fs2);
      }
    } else {
      assert x.pend + Pend(Desc(VNonReloc(fs0.freereg), [], [])) == x.pend + SetOf(t) + SetOf(f);
    }
  }

  lemma Exp2RegOk(x: Ctx, fs0: Fs, fs: Fs, d: Desc, fs1: Fs)
    requires Shape(fs0, fs, d, x.pend) && Reserved(fs0, fs, fs1) && !d.k.VLocal?
    requires Exp2Reg(fs1, d, fs0.freereg).Ok?
    ensures var g := Exp2Reg(fs1, d, fs0.freereg).value;
            && g.d == Desc(VNonReloc(fs0.freereg), [], []) && Shape(fs0, g.fs, g.d, x.pend)
            && g.fs.freereg == fs0.freereg + 1
            && (Starts(x, fs0) && Follows(x, fs, d) ==> Follows(x, g.fs, g.d))
  {
    if d.k.VJmp? {
      TestReady(fs0, fs, d, x.pend, fs1);
      if Starts(x, fs0) && Follows(x, fs, d) { TestCloses(x, fs0, fs, d, fs1); }
      CloseOk(x, fs0, fs1, d.t + [d.k.pos], d.f, true);
    } else {
      LoadIntoOk(x, fs0, fs, d, fs1);
      var fs2 := LoadInto(fs1, d.k, fs0.freereg).value;
      LoadKeepsRegs(fs1, d.k, fs0.freereg);
      ValueReady(x, fs0, fs2, InReg(fs0, d));
      CloseOk(x, fs0, fs2, d.t, d.f, false);
    }
  }

  lemma LoadKeepsRegs(fs: Fs, k: Kind, reg: int)
    requires LoadInto(fs, k, reg).Ok?
    ensures var fs2 := LoadInto(fs, k, reg).value;
            fs2.freereg == fs.freereg && fs2.maxstack == fs.maxstack && fs2.nvar == fs.nvar
  {
  }
}
