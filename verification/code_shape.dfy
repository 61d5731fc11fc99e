// What holds of the code and of a description while an expression is being
// compiled: where its jumps are, which registers it uses, and that nothing
// jumps past the code compiled so far.
module CodeShape {
  import opened Results
  import opened Common
  import opened CodeMachine
  import opened CodeGen

  // --- No jump goes past the end, and to the end only when that is a label ---

  ghost predicate BehindAt(c: seq<Instr>, lt: int, p: int)
    requires 0 <= p < |c|
  {
    && (c[p].Jmp? ==> p + 1 + c[p].sj < |c| || (p + 1 + c[p].sj == |c| && lt == |c|))
    && (c[p].LFalseSkip? ==> p + 2 < |c| || (p + 2 == |c| && lt == |c|))
    && (IsTest(c[p]) ==> p + 1 < |c|)
  }

  ghost predicate Behind(c: seq<Instr>, lt: int) {
    forall p :: 0 <= p < |c| ==> BehindAt(c, lt, p)
  }

  ghost predicate Valid(fs: Fs) {
    && 0 <= fs.nvar <= fs.freereg <= fs.maxstack < MAXREGS
    && 0 <= fs.lasttarget <= |fs.code|
    && Behind(fs.code, fs.lasttarget)
  }

  predicate Plain(i: Instr) {
    !IsTest(i) && !i.LFalseSkip? && (i.Jmp? ==> i.sj <= -1)
  }

  lemma BehindEmit(c: seq<Instr>, lt: int, i: Instr, lt': int)
    requires Behind(c, lt) && Plain(i)
    ensures Behind(c + [i], lt')
  {
    var c' := c + [i];
    forall p | 0 <= p < |c'| ensures BehindAt(c', lt', p) {
      if p < |c| { assert BehindAt(c, lt, p); assert c'[p] == c[p]; }
    }
  }

  lemma BehindCondJump(c: seq<Instr>, lt: int, i: Instr, lt': int)
    requires Behind(c, lt) && IsTest(i)
    ensures Behind(c + [i] + [Jmp(NO_JUMP)], lt')
  {
    var c' := c + [i] + [Jmp(NO_JUMP)];
    forall p | 0 <= p < |c'| ensures BehindAt(c', lt', p) {
      if p < |c| { assert BehindAt(c, lt, p); assert c'[p] == c[p]; }
    }
  }

  // Dropping the last instruction and putting a test and a jump in its place.
  lemma BehindReplace(c: seq<Instr>, lt: int, i: Instr, lt': int)
    requires |c| > 0 && Behind(c, lt) && IsTest(i)
    ensures Behind(c[..|c| - 1] + [i] + [Jmp(NO_JUMP)], lt')
  {
    var c' := c[..|c| - 1] + [i] + [Jmp(NO_JUMP)];
    forall p | 0 <= p < |c'| ensures BehindAt(c', lt', p) {
      if p < |c| - 1 { assert BehindAt(c, lt, p); assert c'[p] == c[p]; }
    }
  }

  lemma BehindUpdate(c: seq<Instr>, lt: int, q: int, i: Instr)
    requires Behind(c, lt) && 0 <= q < |c|
    requires if IsTest(c[q]) then IsTest(i) else Plain(i)
    requires i.Jmp? ==> q + 1 + i.sj < |c|
    ensures Behind(c[q := i], lt)
  {
    var c' := c[q := i];
    forall p | 0 <= p < |c'| ensures BehindAt(c', lt, p) { assert BehindAt(c, lt, p); }
  }

  // --- Jump lists ---

  // A jump that waits for its destination, with the test that controls it.
  ghost predicate PendingAt(c: seq<Instr>, p: int) {
    && 0 < p < |c| && c[p] == Jmp(NO_JUMP) && IsTest(c[p - 1])
    && (c[p - 1].TestSet? ==> c[p - 1].a == NO_REG)
  }

  ghost predicate AllPending(c: seq<Instr>, pend: set<nat>, hi: int) {
    forall p :: p in pend ==> p < hi && PendingAt(c, p)
  }

  ghost predicate ListOk(c: seq<Instr>, lo: int, hi: int, list: seq<nat>) {
    && (forall p :: p in list ==> lo < p < hi && PendingAt(c, p))
    && NoDup(list)
  }

  ghost predicate ListsOk(c: seq<Instr>, lo: int, hi: int, t: seq<nat>, f: seq<nat>) {
    && ListOk(c, lo, hi, t) && ListOk(c, lo, hi, f)
    && (forall p :: p in t ==> p !in f)
  }

  ghost function SetOf(s: seq<nat>): (r: set<nat>)
    ensures forall p :: p in r <==> p in s
  {
    set p | p in s
  }

  ghost function Pend(d: Desc): set<nat> {
    SetOf(d.t) + SetOf(d.f)
  }

  // --- The shape of a compiled expression ---

  // The code before 'c0' ended is untouched, but for a LOADNIL at its very
  // end that may have been extended.
  ghost predicate FrameAt(fs0: Fs, fs: Fs, q: int)
    requires 0 <= q < |fs0.code| && q < |fs.code|
  {
    fs.code[q] == fs0.code[q]
    || (q == |fs0.code| - 1 && fs0.lasttarget < |fs0.code| && fs0.code[q].LoadNil? && fs.code[q].LoadNil?)
  }

  ghost predicate Frame(fs0: Fs, fs: Fs) {
    && |fs0.code| <= |fs.code|
    && (forall q :: 0 <= q < |fs0.code| ==> FrameAt(fs0, fs, q))
    && fs0.k <= fs.k
    && fs.nvar == fs0.nvar
    && fs0.lasttarget <= fs.lasttarget
  }

  lemma FrameTrans(fs0: Fs, fs1: Fs, fs2: Fs)
    requires Frame(fs0, fs1) && Frame(fs1, fs2) && fs1.lasttarget <= |fs1.code|
    ensures Frame(fs0, fs2)
  {
    forall q | 0 <= q < |fs0.code| ensures FrameAt(fs0, fs2, q) {
      assert FrameAt(fs0, fs1, q) && FrameAt(fs1, fs2, q);
    }
  }

  function End(c: seq<Instr>, d: Desc): int {
    if d.k.VJmp? then |c| - 2 else if d.k.VReloc? then |c| - 1 else |c|
  }

  ghost predicate KindOk(fs0: Fs, fs: Fs, d: Desc) {
    match d.k
    case VK(i) => 0 <= i < |fs.k| && fs.freereg == fs0.freereg
    case VLocal(x) => 0 <= x < fs.nvar && fs.freereg == fs0.freereg
    case VNonReloc(x) =>
      (0 <= x < fs.nvar && fs.freereg == fs0.freereg) || (x == fs0.freereg && fs.freereg == fs0.freereg + 1)
    case VJmp(p) =>
      && p == |fs.code| - 1 && |fs0.code| < p && fs.code[p] == Jmp(NO_JUMP)
      && IsCompare(fs.code[p - 1]) && HasConstants(fs.k, fs.code[p - 1]) && fs.freereg == fs0.freereg
    case VReloc(p) => p == |fs.code| - 1 && |fs0.code| <= p && fs.code[p].Not? && fs.freereg == fs0.freereg
    case _ => fs.freereg == fs0.freereg
  }

  // 'fs' and 'd' describe an expression compiled after 'fs0', when the jumps
  // 'pend' of enclosing expressions were waiting.
  ghost predicate Shape(fs0: Fs, fs: Fs, d: Desc, pend: set<nat>) {
    && Valid(fs) && 0 <= fs0.nvar <= fs0.freereg && 0 <= fs0.lasttarget <= |fs0.code|
    && Frame(fs0, fs)
    && KindOk(fs0, fs, d)
    && ListsOk(fs.code, |fs0.code|, End(fs.code, d), d.t, d.f)
    && AllPending(fs.code, pend, |fs0.code|)
  }

  // A jump that waits stays as it is.
  lemma FrameKeepsPending(fs0: Fs, fs1: Fs, pend: set<nat>, hi: int)
    requires Frame(fs0, fs1) && AllPending(fs0.code, pend, hi) && hi <= |fs0.code|
    ensures AllPending(fs1.code, pend, hi)
  {
    forall p | p in pend ensures p < hi && PendingAt(fs1.code, p) {
      assert PendingAt(fs0.code, p);
      assert FrameAt(fs0, fs1, p) && FrameAt(fs0, fs1, p - 1);
    }
  }

  // Codes that agree up to 'hi' have the same jumps there.
  lemma SameKeepsLists(c1: seq<Instr>, c2: seq<Instr>, lo: int, hi: int, hi': int, t: seq<nat>, f: seq<nat>)
    requires 0 <= lo && 0 <= hi <= |c1| && hi <= hi' && hi <= |c2| && c2[..hi] == c1[..hi]
    requires ListsOk(c1, lo, hi, t, f)
    ensures ListsOk(c2, lo, hi', t, f)
  {
    forall p | p in t || p in f ensures lo < p < hi' && PendingAt(c2, p) {
      assert PendingAt(c1, p);
      assert c2[..hi][p] == c1[..hi][p] && c2[..hi][p - 1] == c1[..hi][p - 1];
    }
  }

  lemma SameKeepsPending(c1: seq<Instr>, c2: seq<Instr>, hi: int, pend: set<nat>)
    requires 0 <= hi <= |c1| && hi <= |c2| && c2[..hi] == c1[..hi] && AllPending(c1, pend, hi)
    ensures AllPending(c2, pend, hi)
  {
    forall p | p in pend ensures p < hi && PendingAt(c2, p) {
      assert PendingAt(c1, p);
      assert c2[..hi][p] == c1[..hi][p] && c2[..hi][p - 1] == c1[..hi][p - 1];
    }
  }

  // Code that changed only from position 'm' on, behind the old end.
  lemma SameKeepsFrame(fs0: Fs, fs1: Fs, fs2: Fs, m: int)
    requires Frame(fs0, fs1) && |fs0.code| <= m <= |fs1.code| && m <= |fs2.code| && fs2.code[..m] == fs1.code[..m]
    requires fs1.k <= fs2.k && fs2.nvar == fs1.nvar && fs1.lasttarget <= fs2.lasttarget
    ensures Frame(fs0, fs2)
  {
    forall q | 0 <= q < |fs0.code| ensures FrameAt(fs0, fs2, q) {
      assert FrameAt(fs0, fs1, q);
      assert fs2.code[..m][q] == fs1.code[..m][q];
    }
  }

  // A step that changed code only from the end of the description on.
  lemma ShapeAfter(fs0: Fs, fs1: Fs, d1: Desc, fs2: Fs, d2: Desc, pend: set<nat>)
    requires Shape(fs0, fs1, d1, pend)
    requires var m := End(fs1.code, d1);
             m <= |fs2.code| && fs2.code[..m] == fs1.code[..m] && m <= End(fs2.code, d2)
    requires fs1.k <= fs2.k && fs2.nvar == fs1.nvar && fs1.lasttarget <= fs2.lasttarget
    requires d2.t == d1.t && d2.f == d1.f
    requires Valid(fs2) && KindOk(fs0, fs2, d2)
    ensures Shape(fs0, fs2, d2, pend)
  {
    var m := End(fs1.code, d1);
    SameKeepsFrame(fs0, fs1, fs2, m);
    SameKeepsLists(fs1.code, fs2.code, |fs0.code|, m, End(fs2.code, d2), d1.t, d1.f);
    SameKeepsPending(fs1.code, fs2.code, |fs0.code|, pend) by {
      assert fs2.code[..|fs0.code|] == fs2.code[..m][..|fs0.code|];
      assert fs1.code[..|fs0.code|] == fs1.code[..m][..|fs0.code|];
    }
  }

  // --- What closing the lists of an expression comes to ---

  predicate Needed(fs: Fs, t: seq<nat>, f: seq<nat>) {
    NeedValue(fs.code, t) || NeedValue(fs.code, f)
  }

  // The two passes over the lists, after the loads of booleans if needed.
  lemma CloseListsIs(fs: Fs, t: seq<nat>, f: seq<nat>, reg: int, isTest: bool, fs1: Fs)
    requires (t != [] || f != []) && CloseLists(fs, t, f, reg, isTest).Ok?
    requires fs1 == if Needed(fs, t, f) then CodeBooleans(fs, reg, isTest).value else fs
    ensures var pt := if Needed(fs, t, f) then |fs1.code| - 1 else NO_JUMP;
            var pf := if Needed(fs, t, f) then |fs1.code| - 2 else NO_JUMP;
            && PatchListAux(fs1.code, f, |fs1.code|, reg, pf).Ok?
            && PatchListAux(PatchListAux(fs1.code, f, |fs1.code|, reg, pf).value, t, |fs1.code|, reg, pt).Ok?
            && CloseLists(fs, t, f, reg, isTest).value
               == fs1.(code := PatchListAux(PatchListAux(fs1.code, f, |fs1.code|, reg, pf).value, t, |fs1.code|, reg, pt).value,
                       lasttarget := |fs1.code|)
  {
  }

  // --- What exp2nextreg comes to ---

  lemma NextRegIs(fs: Fs, d: Desc, fs1: Fs)
    requires ReserveRegs(FreeExp(fs, DischargeVars(d)), 1) == Ok(fs1)
    ensures Exp2NextReg(fs, d) == Exp2Reg(fs1, DischargeVars(d), fs1.freereg - 1)
  {
  }

  lemma NextRegSteps(fs: Fs, d: Desc) returns (fs1: Fs, g: Gen)
    requires Exp2NextReg(fs, d).Ok?
    ensures ReserveRegs(FreeExp(fs, DischargeVars(d)), 1) == Ok(fs1)
    ensures Exp2Reg(fs1, DischargeVars(d), fs1.freereg - 1) == Ok(g) && Exp2NextReg(fs, d) == Ok(g)
  {
    fs1 := ReserveRegs(FreeExp(fs, DischargeVars(d)), 1).value;
    g := Exp2NextReg(fs, d).value;
  }
}
