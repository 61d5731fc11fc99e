// Putting the value of an expression into the next free register.
module CodeLoad {
  import opened CodeMachine
  import opened CodeGen
  import opened CodeShape
  import opened CodeFlow

  lemma AddKFound(fs: Fs, v: Value)
    requires AddK(fs, v).Ok?
    ensures var fs1 := AddK(fs, v).value;
            && fs1 == fs.(k := fs1.k, cache := fs1.cache) && fs.k <= fs1.k
            && 0 <= fs1.cache[v] < |fs1.k| && fs1.k[fs1.cache[v]] == v
  {
  }

  // 'fs' when the next register after 'fs0' has been reserved; there may be
  // more constants.
  ghost predicate Reserved(fs0: Fs, fs: Fs, fs1: Fs) {
    && fs1.code == fs.code && fs.k <= fs1.k && fs1.nvar == fs.nvar && fs1.lasttarget == fs.lasttarget
    && fs1.freereg == fs0.freereg + 1 <= fs1.maxstack < MAXREGS
  }

  predicate IsLoad(k: seq<Value>, i: Instr, reg: int) {
    match i
    case Move(a, b) => a == reg
    case LoadI(a, b) => a == reg
    case LoadK(a, b) => a == reg && 0 <= b < |k|
    case LoadTrue(a) => a == reg
    case LoadFalse(a) => a == reg
    case LoadNil(a, b) => a == reg && b == 0
    case Not(a, b) => a == reg
    case _ => false
  }

  ghost function Loaded(k: seq<Value>, i: Instr, r: Regs): Value {
    match i
    case Move(a, b) => Get(r, b)
    case LoadI(a, b) => Int(b - OFFSET_SBX)
    case LoadK(a, b) => if 0 <= b < |k| then k[b] else Nil
    case LoadTrue(a) => Bool(true)
    case LoadFalse(a) => Bool(false)
    case Not(a, b) => Bool(!Truthy(Get(r, b)))
    case _ => Nil
  }

  ghost function InReg(fs0: Fs, d: Desc): Desc {
    d.(k := VNonReloc(fs0.freereg))
  }

  // A load at 'm', the last instruction, brings its value into the register.
  lemma LoadRuns(g: Order, k: seq<Value>, c: seq<Instr>, m: nat, r: Regs, pend: set<nat>, reg: int, n: int)
    requires |c| == m + 1 && IsLoad(k, c[m], reg) && n <= reg < NO_REG
    ensures var out := Run(g, k, c, m, r, pend, m + 1);
            out.Fall? && Keeps(r, out.regs, n) && Get(out.regs, reg) == Loaded(k, c[m], r)
  {
    assert Step(g, k, c, m, r, pend, m + 1).At?;
    var next := Step(g, k, c, m, r, pend, m + 1);
    assert Run(g, k, c, m + 1, next.regs, pend, m + 1) == Fall(next.regs);
  }

  // One load instruction 'i' after the first 'End' instructions.
  lemma LoadOk(x: Ctx, fs0: Fs, fs: Fs, d: Desc, fs1: Fs, i: Instr, fs2: Fs)
    requires Shape(fs0, fs, d, x.pend) && Reserved(fs0, fs, fs1) && !d.k.VJmp?
    requires fs2 == fs1.(code := fs.code[..End(fs.code, d)] + [i]) && IsLoad(fs1.k, i, fs0.freereg)
    ensures Shape(fs0, fs2, InReg(fs0, d), x.pend)
    ensures x.n == fs0.freereg && x.s <= |fs0.code| && Follows(x, fs, d)
            && (forall r :: Loaded(fs1.k, i, r) == FallValue(x.g, fs, d, r))
            ==> Follows(x, fs2, InReg(fs0, d))
  {
    hide Advance, PendingAt, FrameAt;
    var m := End(fs.code, d);
    assert Behind(fs2.code, fs.lasttarget) by { LoadBehind(fs, d, i); }
    assert fs2.code[..m] == fs.code[..m];
    ShapeAfter(fs0, fs, d, fs2, InReg(fs0, d), x.pend);
    if x.n == fs0.freereg && x.s <= |fs0.code| && Follows(x, fs, d)
       && (forall r :: Loaded(fs1.k, i, r) == FallValue(x.g, fs, d, r)) {
      forall r ensures Carries(x, fs, d, fs2, InReg(fs0, d), r) {
        LoadRuns(x.g, fs2.k, fs2.code, m, r, x.pend + Pend(InReg(fs0, d)), fs0.freereg, x.n);
        assert Pend(InReg(fs0, d)) == Pend(d);
        assert Loaded(fs1.k, i, r) == FallValue(x.g, fs, d, r);
      }
      FollowsAfter(x, fs0, fs, d, fs2, InReg(fs0, d));
    }
  }

  lemma LoadBehind(fs: Fs, d: Desc, i: Instr)
    requires Valid(fs) && (d.k.VReloc? ==> |fs.code| > 0 && fs.code[|fs.code| - 1].Not?) && !d.k.VJmp? && Plain(i) && !i.Jmp?
    ensures Behind(fs.code[..End(fs.code, d)] + [i], fs.lasttarget)
  {
    if d.k.VReloc? {
      BehindUpdate(fs.code, fs.lasttarget, |fs.code| - 1, i);
      assert fs.code[|fs.code| - 1 := i] == fs.code[..|fs.code| - 1] + [i];
    } else {
      BehindEmit(fs.code, fs.lasttarget, i, fs.lasttarget);
      assert fs.code[..|fs.code|] == fs.code;
    }
  }
}
