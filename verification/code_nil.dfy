// Loading nil, which may extend a LOADNIL that is already there.
module CodeNil {
  import opened CodeMachine
  import opened CodeGen
  import opened CodeShape
  import opened CodeFlow
  import opened CodeLoad

  // A run that starts at 's' executes the instruction that a LOADNIL could be
  // merged with.
  ghost predicate Entry(fs: Fs, s: nat) {
    s <= |fs.code| && (s == |fs.code| ==> !Mergeable(fs))
  }

  lemma EntryKept(fs0: Fs, fs1: Fs, s: nat)
    requires Entry(fs0, s) && Frame(fs0, fs1)
    ensures Entry(fs1, s)
  {
    if s == |fs1.code| && s > 0 {
      assert FrameAt(fs0, fs1, s - 1);
    }
  }

  // When the code ends in a LOADNIL that no jump skips, every run to the end
  // goes through it.
  lemma {:induction false} RunThroughNil(g: Order, k: seq<Value>, c: seq<Instr>, lt: int, pc: nat, r: Regs, pend: set<nat>)
    requires pc < |c| && c[|c| - 1].LoadNil? && lt < |c| && Behind(c, lt)
    requires Run(g, k, c, pc, r, pend, |c|) != Lost
    ensures var out := Run(g, k, c, pc, r, pend, |c| - 1);
            && out != Lost
            && (out.Jump? ==> Run(g, k, c, pc, r, pend, |c|) == out)
            && (out.Fall? ==> Run(g, k, c, pc, r, pend, |c|)
                              == Fall(SetNils(out.regs, c[|c| - 1].a, c[|c| - 1].a + c[|c| - 1].b)))
    decreases |c| - pc
  {
    hide SetNils, Set, Truthy, Landed;
    var n := |c|;
    assert BehindAt(c, lt, pc) && (pc + 1 < n ==> BehindAt(c, lt, pc + 1));
    if pc == n - 1 {
      var next := Step(g, k, c, pc, r, pend, n);
      assert Run(g, k, c, n, next.regs, pend, n) == Fall(next.regs);
    } else {
      var next := Step(g, k, c, pc, r, pend, n);
      assert Step(g, k, c, pc, r, pend, n - 1) == next;
      if next.At? {
        assert next.pc < n;
        RunThroughNil(g, k, c, lt, next.pc, next.regs, pend);
      }
    }
  }

  predicate Widens(prev: Instr, reg: int, i: Instr)
    requires prev.LoadNil?
  {
    var from := if prev.a < reg then prev.a else reg;
    var last := if prev.a + prev.b > reg then prev.a + prev.b else reg;
    i == LoadNil(from, last - from)
  }

  // The range of the extended LOADNIL is the old range and the new register.
  lemma WidenedRange(r: Regs, prev: Instr, reg: int, i: Instr)
    requires prev.LoadNil? && Connects(prev.a, prev.a + prev.b, reg) && Widens(prev, reg, i)
    ensures var r1, r2 := SetNils(r, prev.a, prev.a + prev.b), SetNils(r, i.a, i.a + i.b);
            Get(r2, reg) == Nil && Keeps(r1, r2, reg)
  {
    var r1, r2 := SetNils(r, prev.a, prev.a + prev.b), SetNils(r, i.a, i.a + i.b);
    forall j | 0 <= j < reg ensures Get(r2, j) == Get(r1, j) {
      assert i.a <= j <= i.a + i.b <==> prev.a <= j <= prev.a + prev.b;
    }
  }

  lemma NilRuns(g: Order, k: seq<Value>, c: seq<Instr>, m: nat, r: Regs, pend: set<nat>)
    requires |c| == m + 1 && c[m].LoadNil?
    ensures Run(g, k, c, m, r, pend, m + 1) == Fall(SetNils(r, c[m].a, c[m].a + c[m].b))
  {
    var r2 := SetNils(r, c[m].a, c[m].a + c[m].b);
    assert Step(g, k, c, m, r, pend, m + 1) == At(m + 1, r2);
    assert Run(g, k, c, m + 1, r2, pend, m + 1) == Fall(r2);
  }

  lemma MergeShape(fs0: Fs, fs: Fs, d: Desc, pend: set<nat>, fs1: Fs, i: Instr)
    requires Shape(fs0, fs, d, pend) && Reserved(fs0, fs, fs1) && End(fs.code, d) == |fs.code|
    requires Mergeable(fs) && i.LoadNil? && !d.k.VNonReloc?
    ensures Shape(fs0, fs1.(code := fs.code[|fs.code| - 1 := i]), InReg(fs0, d), pend)
  {
    var n := |fs.code|;
    var fs2 := fs1.(code := fs.code[n - 1 := i]);
    BehindUpdate(fs.code, fs.lasttarget, n - 1, i);
    assert Frame(fs0, fs2) by {
      forall q | 0 <= q < |fs0.code| ensures FrameAt(fs0, fs2, q) { assert FrameAt(fs0, fs, q); }
    }
    forall p | p in d.t || p in d.f ensures |fs0.code| < p < n && PendingAt(fs2.code, p) { assert PendingAt(fs.code, p); }
    forall p | p in pend ensures p < |fs0.code| && PendingAt(fs2.code, p) { assert PendingAt(fs.code, p); }
  }

  // Code that ends in a LOADNIL, from where other code got to before its end.
  lemma RunToNil(g: Order, k1: seq<Value>, k2: seq<Value>, c: seq<Instr>, c2: seq<Instr>, s: nat, r: Regs, pend: set<nat>)
    requires s < |c| == |c2| && k1 <= k2
    requires c2[..|c| - 1] == c[..|c| - 1] && c2[|c| - 1].LoadNil? && AllPending(c, pend, |c| - 1)
    ensures var mid := Run(g, k1, c, s, r, pend, |c| - 1);
            var i := c2[|c| - 1];
            && (mid.Jump? ==> Run(g, k2, c2, s, r, pend, |c|) == mid && 0 < mid.pos < |c| - 1)
            && (mid.Fall? ==> Run(g, k2, c2, s, r, pend, |c|) == Fall(SetNils(mid.regs, i.a, i.a + i.b)))
  {
    RunExtended(g, k1, k2, c, c2, s, |c| - 1, |c|, pend, pend, r);
    var mid := Run(g, k1, c, s, r, pend, |c| - 1);
    if mid.Fall? {
      NilRuns(g, k2, c2, |c| - 1, mid.regs, pend);
    }
  }

  // Code whose final LOADNIL was extended by one register does what it did and
  // sets that register.
  lemma MergeRuns(g: Order, k1: seq<Value>, k2: seq<Value>, c: seq<Instr>, c2: seq<Instr>, lt: int, s: nat, r: Regs,
                  pend: set<nat>, reg: int)
    requires s < |c| == |c2| && lt < |c| && Behind(c, lt) && k1 <= k2
    requires c2[..|c| - 1] == c[..|c| - 1] && c[|c| - 1].LoadNil? && c2[|c| - 1].LoadNil?
    requires AllPending(c, pend, |c| - 1)
    requires Connects(c[|c| - 1].a, c[|c| - 1].a + c[|c| - 1].b, reg) && Widens(c[|c| - 1], reg, c2[|c| - 1])
    requires Run(g, k1, c, s, r, pend, |c|) != Lost
    ensures var out := Run(g, k1, c, s, r, pend, |c|);
            var out2 := Run(g, k2, c2, s, r, pend, |c|);
            && (out.Jump? ==> out2 == out && 0 < out.pos < |c| - 1)
            && (out.Fall? ==> out2.Fall? && Get(out2.regs, reg) == Nil && Keeps(out.regs, out2.regs, reg))
  {
    hide SetNils, Behind, Advance, Widens, Keeps;
    RunThroughNil(g, k1, c, lt, s, r, pend);
    RunToNil(g, k1, k2, c, c2, s, r, pend);
    var mid := Run(g, k1, c, s, r, pend, |c| - 1);
    if mid.Fall? {
      WidenedRange(mid.regs, c[|c| - 1], reg, c2[|c| - 1]);
    }
  }

  lemma PendingBeforeNil(c: seq<Instr>, pend: set<nat>)
    requires |c| > 0 && c[|c| - 1].LoadNil? && AllPending(c, pend, |c|)
    ensures AllPending(c, pend, |c| - 1)
  {
    forall p | p in pend ensures p < |c| - 1 && PendingAt(c, p) {
      assert PendingAt(c, p);
    }
  }

  lemma PendingTogether(fs0: Fs, fs: Fs, d: Desc, pend: set<nat>)
    requires Shape(fs0, fs, d, pend) && |fs0.code| <= End(fs.code, d)
    ensures AllPending(fs.code, pend + Pend(d), End(fs.code, d))
  {
    forall p | p in pend + Pend(d) ensures p < End(fs.code, d) && PendingAt(fs.code, p) {
      assert p in pend ==> PendingAt(fs.code, p);
    }
  }

  lemma MergeFollows(x: Ctx, fs0: Fs, fs: Fs, d: Desc, fs1: Fs)
    requires Shape(fs0, fs, d, x.pend) && Reserved(fs0, fs, fs1) && End(fs.code, d) == |fs.code| && d.k == VNil
    requires x.n == fs0.freereg && x.s < |fs.code| && Follows(x, fs, d)
    requires Mergeable(fs)
             && Connects(fs.code[|fs.code| - 1].a, fs.code[|fs.code| - 1].a + fs.code[|fs.code| - 1].b, fs0.freereg)
    ensures Follows(x, LoadNilAt(fs1, fs0.freereg), InReg(fs0, d))
  {
    var n := |fs.code|;
    var fs2 := LoadNilAt(fs1, fs0.freereg);
    var pend := x.pend + Pend(d);
    assert Pend(InReg(fs0, d)) == Pend(d);
    PendingTogether(fs0, fs, d, x.pend);
    PendingBeforeNil(fs.code, pend);
    if x.base != Lost {
      MergeRuns(x.g, fs.k, fs2.k, fs.code, fs2.code, fs.lasttarget, x.s, x.r, pend, fs0.freereg);
      var out := OutOf(x, fs, pend, n);
      if out.Jump? && x.base.Fall? {
        FlowSame(fs.code, fs2.code, d.t, d.f, out, x.v, x.base.regs, x.n);
      }
    }
  }
}
