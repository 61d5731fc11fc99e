/** ldump.c as code: the dumper hands blocks of bytes to a writer until one fails. */
module DumpState {
  import opened Common
  import opened DumpFormat

  /** The size of the buffer of dumpSize. */
  const DIBS := 10

  /** What the writer has taken, and the status it returned last. */
  datatype Stream = Stream(out: Bytes, status: int)

  /** All of b was written, or the writer failed and an initial part of it was; after a failure
      nothing is written. */
  ghost predicate Wrote(s: Stream, r: Stream, b: Bytes) {
    (r.status == 0 ==> s.status == 0 && r.out == s.out + b) && (s.status != 0 ==> r == s) &&
    s.out <= r.out <= s.out + b
  }

  lemma WroteNext(s: Stream, r: Stream, t: Stream, a: Bytes, b: Bytes)
    requires Wrote(s, r, a) && Wrote(r, t, b)
    ensures Wrote(s, t, a + b)
  {
    assert s.out + (a + b) == (s.out + a) + b;
    if r.status == 0 {
      assert t.out <= s.out + (a + b);
    } else {
      assert s.out + a <= s.out + (a + b);
    }
  }

  // ---- what the machine can hold ----

  predicate IsInt(x: nat) { x <= INT_LIMIT }

  predicate IsText(s: Option<Bytes>) { s.Some? ==> |s.value| < SIZE_LIMIT }

  /** The fields of a prototype are ints, and its lengths too. */
  predicate InMachine(p: Proto)
    decreases p
  {
    IsText(p.source) && IsInt(p.linedefined) && IsInt(p.lastlinedefined) && IsInt(|p.code|) && IsInt(|p.k|) &&
    IsInt(|p.upvalues|) && IsInt(|p.protos|) && IsInt(|p.lineinfo|) && IsInt(|p.abslineinfo|) && IsInt(|p.locvars|) &&
    (forall i :: 0 <= i < |p.k| && p.k[i].Str? ==> IsText(Some(p.k[i].s))) &&
    (forall i :: 0 <= i < |p.upvalues| ==> IsText(p.upvalues[i].name)) &&
    (forall i :: 0 <= i < |p.abslineinfo| ==> IsInt(p.abslineinfo[i].pc) && IsInt(p.abslineinfo[i].line)) &&
    (forall i :: 0 <= i < |p.locvars| ==>
      IsText(p.locvars[i].varname) && IsInt(p.locvars[i].startpc) && IsInt(p.locvars[i].endpc)) &&
    forall i :: 0 <= i < |p.protos| ==> InMachine(p.protos[i])
  }

  function Pow128(k: nat): nat { if k == 0 then 1 else 128 * Pow128(k - 1) }

  lemma SizeDigits()
    ensures SIZE_LIMIT / 128 < Pow128(9)
  {
    assert Pow128(3) == 2097152;
    assert Pow128(6) == 4398046511104;
  }

  lemma {:induction false} EachNext<T>(dump: T -> Bytes, xs: seq<T>, i: nat)
    requires i < |xs|
    ensures DumpEach(dump, xs[..i + 1]) == DumpEach(dump, xs[..i]) + dump(xs[i])
    decreases i
  {
    if i == 0 {
      assert xs[..1][1..] == [];
      assert DumpEach(dump, xs[..1]) == dump(xs[0]) + [];
    } else {
      assert xs[..i + 1][1..] == xs[1..][..i] && xs[..i][1..] == xs[1..][..i - 1];
      EachNext(dump, xs[1..], i - 1);
      assert DumpEach(dump, xs[..i + 1]) == dump(xs[0]) + DumpEach(dump, xs[1..][..i]);
      assert DumpEach(dump, xs[..i]) == dump(xs[0]) + DumpEach(dump, xs[1..][..i - 1]);
    }
  }

  /** DumpState; `answers` are the statuses the writer will return, zero once they are used up. */
  class Dumper {
    const strip: bool
    var out: Bytes
    var status: int
    var answers: seq<int>

    constructor (strip: bool, answers: seq<int>)
      ensures this.strip == strip && View() == Stream([], 0)
    {
      this.strip, this.answers := strip, answers;
      out, status := [], 0;
    }

    function View(): Stream
      reads this`out, this`status
    {
      Stream(out, status)
    }

    /** dumpBlock. */
    method DumpBlock(b: Bytes)
      modifies this
      ensures Wrote(old(View()), View(), b)
    {
      if status == 0 && |b| > 0 {
        if answers != [] { status, answers := answers[0], answers[1..]; }
        if status == 0 { out := out + b; }
      }
    }

    /** dumpSize: the digits go into a buffer, from its end. */
    method DumpNumber(num: nat)
      requires num <= SIZE_LIMIT
      modifies this
      ensures Wrote(old(View()), View(), DumpSize(num))
    {
      SizeDigits();
      var buff := new Byte[DIBS](_ => 0);
      var x: nat, n: nat := num / 128, 1;
      buff[DIBS - 1] := num % 128;
      while x != 0
        invariant 1 <= n <= DIBS && x < Pow128(DIBS - n) && View() == old(View())
        invariant Front(num / 128) == Front(x) + buff[DIBS - n..DIBS - 1] && buff[DIBS - 1] == num % 128
        decreases x
      {
        n := n + 1;
        buff[DIBS - n] := x % 128;
        x := x / 128;
      }
      buff[DIBS - 1] := buff[DIBS - 1] + 128;
      assert buff[DIBS - n..] == DumpSize(num);
      DumpBlock(buff[DIBS - n..]);
    }

    /** dumpString. */
    method DumpText(s: Option<Bytes>)
      requires IsText(s)
      modifies this
      ensures Wrote(old(View()), View(), DumpString(s))
    {
      match s {
        case None => DumpNumber(0);
        case Some(b) =>
          DumpNumber(|b| + 1);
          ghost var v := View();
          DumpBlock(b);
          WroteNext(old(View()), v, View(), DumpSize(|b| + 1), b);
      }
    }

    /** dumpCode: the instructions go out in one block. */
    method DumpCode(code: seq<Four>)
      requires IsInt(|code|)
      modifies this
      ensures Wrote(old(View()), View(), DumpVector(DumpFour, code))
    {
      DumpNumber(|code|);
      ghost var v := View();
      DumpBlock(DumpEach(DumpFour, code));
      WroteNext(old(View()), v, View(), DumpSize(|code|), DumpEach(DumpFour, code));
    }

    method DumpOneConstant(c: Constant)
      requires c.Str? ==> IsText(Some(c.s))
      modifies this
      ensures Wrote(old(View()), View(), DumpConstant(c))
    {
      DumpBlock([Tag(c)]);
      ghost var v := View();
      match c {
        case Float(f) => DumpBlock(f); WroteNext(old(View()), v, View(), [Tag(c)], f);
        case Integer(i) => DumpBlock(i); WroteNext(old(View()), v, View(), [Tag(c)], i);
        case Str(s) => DumpText(Some(s)); WroteNext(old(View()), v, View(), [Tag(c)], DumpString(Some(s)));
        case _ =>
      }
    }

    /** dumpConstants. */
    method DumpConstants(k: seq<Constant>)
      requires IsInt(|k|) && forall i :: 0 <= i < |k| && k[i].Str? ==> IsText(Some(k[i].s))
      modifies this
      ensures Wrote(old(View()), View(), DumpVector(DumpConstant, k))
    {
      hide Wrote;
      DumpNumber(|k|);
      ghost var v := View();
      WroteNothing(v);
      for i := 0 to |k|
        invariant Wrote(v, View(), DumpEach(DumpConstant, k[..i]))
      {
        ghost var w := View();
        DumpOneConstant(k[i]);
        WroteNext(v, w, View(), DumpEach(DumpConstant, k[..i]), DumpConstant(k[i]));
        EachNext(DumpConstant, k, i);
      }
      assert k[..|k|] == k;
      WroteNext(old(View()), v, View(), DumpSize(|k|), DumpEach(DumpConstant, k));
    }

    /** dumpUpvalues. */
    method DumpUpvalues(us: seq<Upvalue>)
      requires IsInt(|us|)
      modifies this
      ensures Wrote(old(View()), View(), DumpVector(DumpUpvalue, us))
    {
      hide Wrote;
      DumpNumber(|us|);
      ghost var v := View();
      WroteNothing(v);
      for i := 0 to |us|
        invariant Wrote(v, View(), DumpEach(DumpUpvalue, us[..i]))
      {
        ghost var w := View();
        DumpBlock([us[i].instack]);
        ghost var w1 := View();
        DumpBlock([us[i].idx]);
        ghost var w2 := View();
        DumpBlock([us[i].kind]);
        WroteNext(w1, w2, View(), [us[i].idx], [us[i].kind]);
        WroteNext(w, w1, View(), [us[i].instack], [us[i].idx] + [us[i].kind]);
        assert [us[i].instack] + ([us[i].idx] + [us[i].kind]) == DumpUpvalue(us[i]);
        WroteNext(v, w, View(), DumpEach(DumpUpvalue, us[..i]), DumpUpvalue(us[i]));
        EachNext(DumpUpvalue, us, i);
      }
      assert us[..|us|] == us;
      WroteNext(old(View()), v, View(), DumpSize(|us|), DumpEach(DumpUpvalue, us));
    }

    method DumpAbsLines(xs: seq<AbsLine>)
      requires IsInt(|xs|) && forall i :: 0 <= i < |xs| ==> IsInt(xs[i].pc) && IsInt(xs[i].line)
      modifies this
      ensures Wrote(old(View()), View(), DumpVector(DumpAbsLine, xs))
    {
      hide Wrote;
      DumpNumber(|xs|);
      ghost var v := View();
      WroteNothing(v);
      for i := 0 to |xs|
        invariant Wrote(v, View(), DumpEach(DumpAbsLine, xs[..i]))
      {
        ghost var w := View();
        DumpNumber(xs[i].pc);
        ghost var w1 := View();
        DumpNumber(xs[i].line);
        WroteNext(w, w1, View(), DumpSize(xs[i].pc), DumpSize(xs[i].line));
        WroteNext(v, w, View(), DumpEach(DumpAbsLine, xs[..i]), DumpAbsLine(xs[i]));
        EachNext(DumpAbsLine, xs, i);
      }
      assert xs[..|xs|] == xs;
      WroteNext(old(View()), v, View(), DumpSize(|xs|), DumpEach(DumpAbsLine, xs));
    }

    method DumpLocVars(xs: seq<LocVar>)
      requires IsInt(|xs|)
      requires forall i :: 0 <= i < |xs| ==> IsText(xs[i].varname) && IsInt(xs[i].startpc) && IsInt(xs[i].endpc)
      modifies this
      ensures Wrote(old(View()), View(), DumpVector(DumpLocVar, xs))
    {
      hide Wrote;
      DumpNumber(|xs|);
      ghost var v := View();
      WroteNothing(v);
      for i := 0 to |xs|
        invariant Wrote(v, View(), DumpEach(DumpLocVar, xs[..i]))
      {
        ghost var w := View();
        DumpText(xs[i].varname);
        ghost var w1 := View();
        DumpNumber(xs[i].startpc);
        ghost var w2 := View();
        DumpNumber(xs[i].endpc);
        WroteNext(w1, w2, View(), DumpSize(xs[i].startpc), DumpSize(xs[i].endpc));
        WroteNext(w, w1, View(), DumpString(xs[i].varname), DumpSize(xs[i].startpc) + DumpSize(xs[i].endpc));
        WroteNext(v, w, View(), DumpEach(DumpLocVar, xs[..i]), DumpLocVar(xs[i]));
        EachNext(DumpLocVar, xs, i);
      }
      assert xs[..|xs|] == xs;
      WroteNext(old(View()), v, View(), DumpSize(|xs|), DumpEach(DumpLocVar, xs));
    }

    method DumpNames(us: seq<Upvalue>)
      requires IsInt(|us|) && forall i :: 0 <= i < |us| ==> IsText(us[i].name)
      modifies this
      ensures Wrote(old(View()), View(), DumpVector(DumpName, us))
    {
      hide Wrote;
      DumpNumber(|us|);
      ghost var v := View();
      WroteNothing(v);
      for i := 0 to |us|
        invariant Wrote(v, View(), DumpEach(DumpName, us[..i]))
      {
        ghost var w := View();
        DumpText(us[i].name);
        WroteNext(v, w, View(), DumpEach(DumpName, us[..i]), DumpName(us[i]));
        EachNext(DumpName, us, i);
      }
      assert us[..|us|] == us;
      WroteNext(old(View()), v, View(), DumpSize(|us|), DumpEach(DumpName, us));
    }

    lemma WroteNothing(v: Stream)
      ensures Wrote(v, v, [])
    {
    }

    /** dumpDebug. */
    method DumpDebugInfo(p: Proto)
      requires InMachine(p)
      modifies this
      ensures Wrote(old(View()), View(), DumpDebug(p, strip))
    {
      hide Wrote, DumpVector;
      if strip {
        DumpNumber(0);
        ghost var v1 := View();
        DumpNumber(0);
        ghost var v2 := View();
        DumpNumber(0);
        ghost var v3 := View();
        DumpNumber(0);
        ghost var z := DumpSize(0);
        WroteNext(v2, v3, View(), z, z);
        WroteNext(v1, v2, View(), z, z + z);
        WroteNext(old(View()), v1, View(), z, z + (z + z));
      } else {
        DumpLineInfo(p.lineinfo);
        ghost var v1 := View();
        DumpAbsLines(p.abslineinfo);
        ghost var v2 := View();
        DumpLocVars(p.locvars);
        ghost var v3 := View();
        DumpNames(p.upvalues);
        ghost var d := DumpVector(DumpName, p.upvalues);
        ghost var c := DumpVector(DumpLocVar, p.locvars);
        ghost var b := DumpVector(DumpAbsLine, p.abslineinfo);
        WroteNext(v2, v3, View(), c, d);
        WroteNext(v1, v2, View(), b, c + d);
        WroteNext(old(View()), v1, View(), DumpVector(DumpByte, p.lineinfo), b + (c + d));
      }
    }

    method DumpLineInfo(info: Bytes)
      requires IsInt(|info|)
      modifies this
      ensures Wrote(old(View()), View(), DumpVector(DumpByte, info))
    {
      DumpNumber(|info|);
      ghost var v := View();
      DumpBlock(info);
      EachByte(info);
      WroteNext(old(View()), v, View(), DumpSize(|info|), info);
    }

    lemma {:induction false} EachByte(info: Bytes)
      ensures DumpEach(DumpByte, info) == info
      decreases |info|
    {
      if info != [] {
        EachByte(info[1..]);
        assert info == [info[0]] + info[1..];
      }
    }

    method DumpFunctionHead(p: Proto, psource: Option<Bytes>)
      requires InMachine(p)
      modifies this
      ensures Wrote(old(View()), View(), DumpHead(p, psource, strip))
    {
      hide Wrote, DumpSize, DumpString;
      var source := if strip || p.source == psource then None else p.source;
      DumpText(source);
      ghost var v1 := View();
      DumpNumber(p.linedefined);
      ghost var v2 := View();
      DumpNumber(p.lastlinedefined);
      ghost var v3 := View();
      DumpBlock([p.numparams]);
      ghost var v4 := View();
      DumpBlock([p.isVararg]);
      ghost var v5 := View();
      DumpBlock([p.maxstacksize]);
      ghost var bytes: Bytes := [p.numparams, p.isVararg, p.maxstacksize];
      WroteNext(v4, v5, View(), [p.isVararg], [p.maxstacksize]);
      WroteNext(v3, v4, View(), [p.numparams], [p.isVararg] + [p.maxstacksize]);
      assert [p.numparams] + ([p.isVararg] + [p.maxstacksize]) == bytes;
      WroteNext(v2, v3, View(), DumpSize(p.lastlinedefined), bytes);
      WroteNext(v1, v2, View(), DumpSize(p.linedefined), DumpSize(p.lastlinedefined) + bytes);
      WroteNext(old(View()), v1, View(), DumpString(source), DumpSize(p.linedefined) + (DumpSize(p.lastlinedefined) + bytes));
    }

    method DumpFunctionBody(p: Proto)
      requires InMachine(p)
      modifies this
      ensures Wrote(old(View()), View(), DumpBody(p))
    {
      hide Wrote, DumpVector;
      DumpCode(p.code);
      ghost var v1 := View();
      DumpConstants(p.k);
      ghost var v2 := View();
      DumpUpvalues(p.upvalues);
      ghost var b, c := DumpVector(DumpConstant, p.k), DumpVector(DumpUpvalue, p.upvalues);
      WroteNext(v1, v2, View(), b, c);
      WroteNext(old(View()), v1, View(), DumpVector(DumpFour, p.code), b + c);
    }

    /** dumpFunction. */
    method DumpPrototype(p: Proto, psource: Option<Bytes>)
      requires InMachine(p)
      modifies this
      ensures Wrote(old(View()), View(), DumpFunction(p, psource, strip))
      decreases p, 1
    {
      hide Wrote, DumpHead, DumpBody, DumpDebug, DumpSize, DumpProtos;
      DumpFunctionHead(p, psource);
      ghost var v1 := View();
      DumpFunctionBody(p);
      ghost var v2 := View();
      DumpNumber(|p.protos|);
      ghost var v3 := View();
      DumpChildren(p);
      ghost var v4 := View();
      DumpDebugInfo(p);
      ghost var d := DumpDebug(p, strip);
      ghost var c := DumpProtos(p, 0, strip) + d;
      ghost var b := DumpSize(|p.protos|) + c;
      WroteNext(v3, v4, View(), DumpProtos(p, 0, strip), d);
      WroteNext(v2, v3, View(), DumpSize(|p.protos|), c);
      WroteNext(v1, v2, View(), DumpBody(p), b);
      WroteNext(old(View()), v1, View(), DumpHead(p, psource, strip), DumpBody(p) + b);
    }

    /** The loop of dumpProtos. */
    method DumpChildren(p: Proto)
      requires InMachine(p)
      modifies this
      ensures Wrote(old(View()), View(), DumpProtos(p, 0, strip))
      decreases p, 0
    {
      hide Wrote, DumpFunction;
      ghost var done: Bytes := [];
      WroteNothing(View());
      for i := 0 to |p.protos|
        invariant Wrote(old(View()), View(), done) && done + DumpProtos(p, i, strip) == DumpProtos(p, 0, strip)
      {
        ghost var w := View();
        DumpPrototype(p.protos[i], p.source);
        ghost var b := DumpFunction(p.protos[i], p.source, strip);
        WroteNext(old(View()), w, View(), done, b);
        assert done + (b + DumpProtos(p, i + 1, strip)) == (done + b) + DumpProtos(p, i + 1, strip);
        done := done + b;
      }
      assert done + [] == done;
    }
  }

  /** luaU_dump: what was written is an initial part of the dump, all of it if the status is 0. */
  method DumpChunk(p: Proto, strip: bool, luaInt: Eight, luaNum: Eight, answers: seq<int>) returns (status: int, out: Bytes)
    requires InMachine(p)
    ensures out <= Dump(p, strip, luaInt, luaNum) && (status == 0 ==> out == Dump(p, strip, luaInt, luaNum))
  {
    hide DumpFunction, InMachine;
    var d := new Dumper(strip, answers);
    d.DumpBlock(SIGNATURE);
    ghost var v1 := d.View();
    d.DumpBlock([0x54]);
    ghost var v2 := d.View();
    d.DumpBlock([0]);
    ghost var v3 := d.View();
    d.DumpBlock(DATA);
    ghost var v4 := d.View();
    d.DumpBlock([4]);
    ghost var v5 := d.View();
    d.DumpBlock([8]);
    ghost var v6 := d.View();
    d.DumpBlock([8]);
    ghost var v7 := d.View();
    d.DumpBlock(luaInt);
    ghost var v8 := d.View();
    d.DumpBlock(luaNum);
    ghost var v9 := d.View();
    ghost var s := Stream([], 0);
    WroteNext(s, v1, v2, SIGNATURE, [0x54]);
    WroteNext(s, v2, v3, SIGNATURE + [0x54], [0]);
    WroteNext(s, v3, v4, SIGNATURE + [0x54] + [0], DATA);
    WroteNext(s, v4, v5, SIGNATURE + [0x54] + [0] + DATA, [4]);
    WroteNext(s, v5, v6, SIGNATURE + [0x54] + [0] + DATA + [4], [8]);
    WroteNext(s, v6, v7, SIGNATURE + [0x54] + [0] + DATA + [4] + [8], [8]);
    WroteNext(s, v7, v8, SIGNATURE + [0x54] + [0] + DATA + [4] + [8] + [8], luaInt);
    WroteNext(s, v8, v9, SIGNATURE + [0x54] + [0] + DATA + [4] + [8] + [8] + luaInt, luaNum);
    assert SIGNATURE + [0x54] + [0] + DATA + [4] + [8] + [8] + luaInt + luaNum == Header(luaInt, luaNum);
    d.DumpBlock([|p.upvalues| % 256]);
    ghost var v10 := d.View();
    d.DumpPrototype(p, None);
    ghost var n: Bytes := [|p.upvalues| % 256];
    WroteNext(v9, v10, d.View(), n, DumpFunction(p, None, strip));
    WroteNext(s, v9, d.View(), Header(luaInt, luaNum), n + DumpFunction(p, None, strip));
    assert [] + Dump(p, strip, luaInt, luaNum) == Dump(p, strip, luaInt, luaNum);
    return d.status, d.out;
  }
}
