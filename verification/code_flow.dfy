// What the code of a partially compiled expression computes: the flow of
// control out of it, and the value it leaves.
module CodeFlow {
  import opened CodeMachine
  import opened CodeGen
  import opened CodeShape

  // Where a description says the value is once control falls out of its code.
  ghost function FallValue(g: Order, fs: Fs, d: Desc, r: Regs): Value
  {
    match d.k
    case VK(i) => if 0 <= i < |fs.k| then fs.k[i] else Nil
    case VNonReloc(x) => Get(r, x)
    case VLocal(x) => Get(r, x)
    case VReloc(p) => if InstrAt(fs.code, p).Not? then Bool(!Truthy(Get(r, fs.code[p].b))) else Nil
    case VJmp(p) =>
      var i := InstrAt(fs.code, p - 1);
      if IsTest(i) && HasConstants(fs.k, i) then Bool(Holds(g, fs.k, i, r)) else Nil
    case k => ConstantOf(k)
  }

  // The value that goes with a jump out of the expression.
  ghost function JumpValue(c: seq<Instr>, p: nat, r: Regs, plain: bool): Value {
    var i := InstrAt(c, p - 1);
    if i.TestSet? then Get(r, i.b) else Bool(plain)
  }

  // Control left code 'c' with 'out', having started an expression of value
  // 'v' with registers 'r1': no register below 'n' changed, and a jump that
  // was taken tells the value.
  ghost predicate Flow(c: seq<Instr>, t: seq<nat>, f: seq<nat>, out: Outcome, v: Value, r1: Regs, n: int) {
    match out
    case Lost => false
    case Fall(r) => Keeps(r1, r, n)
    case Jump(p, r) =>
      && Keeps(r1, r, n)
      && if Truthy(v) then p in t && JumpValue(c, p, r, true) == v
         else p in f && JumpValue(c, p, r, false) == v
  }

  // A run from 's' with registers 'r' that reached 'base' where an expression
  // of value 'v' starts; registers below 'n' are in use.
  datatype Ctx = Ctx(g: Order, pend: set<nat>, s: nat, r: Regs, base: Outcome, v: Value, n: int)

  ghost function OutOf(x: Ctx, fs: Fs, pend: set<nat>, end: int): Outcome
    requires x.s <= end <= |fs.code|
  {
    Run(x.g, fs.k, fs.code, x.s, x.r, pend, end)
  }

  // The code of 'fs' does what 'd' says, wherever the run got to before.
  ghost predicate Follows(x: Ctx, fs: Fs, d: Desc)
    requires x.s <= End(fs.code, d)
  {
    var out := OutOf(x, fs, x.pend + Pend(d), End(fs.code, d));
    match x.base
    case Lost => true
    case Jump(p, r) => out == x.base && p in x.pend
    case Fall(r1) =>
      && Flow(fs.code, d.t, d.f, out, x.v, r1, x.n)
      && (out.Fall? ==> FallValue(x.g, fs, d, out.regs) == x.v)
  }

  // Like Follows, when only the truth of the value is known after falling out.
  ghost predicate Branches(x: Ctx, fs: Fs, t: seq<nat>, f: seq<nat>, cond: bool)
    requires x.s <= |fs.code|
  {
    var out := OutOf(x, fs, x.pend + SetOf(t) + SetOf(f), |fs.code|);
    match x.base
    case Lost => true
    case Jump(p, r) => out == x.base && p in x.pend
    case Fall(r1) =>
      && Flow(fs.code, t, f, out, x.v, r1, x.n)
      && (out.Fall? ==> Truthy(x.v) == cond)
  }

  // No run goes on from a jump that waits.
  lemma StartIsNotPending(g: Order, k: seq<Value>, c: seq<Instr>, s: nat, m: nat, pend: set<nat>, r: Regs)
    requires s < m <= |c| && AllPending(c, pend, m)
    ensures s in pend ==> Run(g, k, c, s, r, pend, m) == Lost
  {
    if s in pend {
      assert PendingAt(c, s);
      assert Step(g, k, c, s, r, pend, m) == Stuck;
    }
  }

  // Code that was extended from 'm' on runs as before up to 'm'.
  lemma RunExtended(g: Order, k1: seq<Value>, k2: seq<Value>, c1: seq<Instr>, c2: seq<Instr>, s: nat, m: nat, n: nat,
                    pend: set<nat>, pend2: set<nat>, r: Regs)
    requires s <= m <= |c1| && m <= n <= |c2| && k1 <= k2 && c2[..m] == c1[..m]
    requires AllPending(c1, pend, m) && pend <= pend2 && (forall p :: p in pend2 && p !in pend ==> m <= p)
    ensures var out := Run(g, k1, c1, s, r, pend, m);
            && (out.Fall? ==> Run(g, k2, c2, s, r, pend2, n) == Run(g, k2, c2, m, out.regs, pend2, n))
            && (out.Jump? ==> Run(g, k2, c2, s, r, pend2, n) == out)
            && (out.Jump? ==> 0 < out.pos < m && out.pos in pend && c2[out.pos - 1] == c1[out.pos - 1])
  {
    var out := Run(g, k1, c1, s, r, pend, m);
    if out != Lost && s < m {
      StartIsNotPending(g, k1, c1, s, m, pend, r);
      forall q | s <= q < m ensures FitsAt(c1, c2, s, m, pend, pend2, q) {
        assert c2[..m][q] == c1[..m][q];
        assert q in pend ==> PendingAt(c1, q);
        assert q - 1 in pend ==> PendingAt(c1, q - 1);
        assert q + 1 in pend ==> PendingAt(c1, q + 1);
      }
      RunRepatched(g, k1, k2, c1, c2, s, m, pend, pend2, n, s, r);
      if out.Jump? {
        assert PendingAt(c1, out.pos);
        assert c2[..m][out.pos - 1] == c1[..m][out.pos - 1];
      }
    }
  }

  lemma FlowSame(c1: seq<Instr>, c2: seq<Instr>, t: seq<nat>, f: seq<nat>, out: Outcome, v: Value, r1: Regs, n: int)
    requires out.Jump? && Flow(c1, t, f, out, v, r1, n)
    requires InstrAt(c2, out.pos - 1) == InstrAt(c1, out.pos - 1)
    ensures Flow(c2, t, f, out, v, r1, n)
  {
  }

  // New code from the end of a description on carries the description over
  // when it turns the value where it was into the value where it is now.
  lemma FollowsAfter(x: Ctx, fs0: Fs, fs1: Fs, d1: Desc, fs2: Fs, d2: Desc)
    requires Shape(fs0, fs1, d1, x.pend) && x.s <= |fs0.code| <= End(fs1.code, d1) <= End(fs2.code, d2) <= |fs2.code|
    requires fs1.k <= fs2.k && fs2.code[..End(fs1.code, d1)] == fs1.code[..End(fs1.code, d1)]
    requires d2.t == d1.t && d2.f == d1.f
    requires Follows(x, fs1, d1)
    requires forall r :: x.base.Fall? && OutOf(x, fs1, x.pend + Pend(d1), End(fs1.code, d1)) == Fall(r)
               ==> Carries(x, fs1, d1, fs2, d2, r)
    ensures Follows(x, fs2, d2)
  {
    var m := End(fs1.code, d1);
    var pend := x.pend + Pend(d1);
    var out := OutOf(x, fs1, pend, m);
    forall p | p in pend ensures p < m && PendingAt(fs1.code, p) {
      assert p in x.pend ==> PendingAt(fs1.code, p);
    }
    RunExtended(x.g, fs1.k, fs2.k, fs1.code, fs2.code, x.s, m, End(fs2.code, d2), pend, pend, x.r);
    assert Pend(d2) == Pend(d1);
    if x.base.Fall? {
      if out.Jump? {
        FlowSame(fs1.code, fs2.code, d1.t, d1.f, out, x.v, x.base.regs, x.n);
      } else {
        assert Carries(x, fs1, d1, fs2, d2, out.regs);
      }
    }
  }

  // From registers 'r' at the end of 'd1' the code of 'fs2' goes on to the end
  // of 'd2', where the value is.
  ghost predicate Carries(x: Ctx, fs1: Fs, d1: Desc, fs2: Fs, d2: Desc, r: Regs)
    requires 0 <= End(fs1.code, d1) <= End(fs2.code, d2) <= |fs2.code|
  {
    var out := Run(x.g, fs2.k, fs2.code, End(fs1.code, d1), r, x.pend + Pend(d1), End(fs2.code, d2));
    && out.Fall? && Keeps(r, out.regs, x.n)
    && FallValue(x.g, fs2, d2, out.regs) == FallValue(x.g, fs1, d1, r)
  }
}
