// The state of a function being compiled, as the code generator keeps and
// changes it: instructions are patched in place, and jump lists run through
// the operands of the jumps.
module CodeState {
  import opened Common
  import opened Results
  import opened CodeMachine
  import opened CodeGen
  import opened CodeShape
  import opened CodeThreads

  // The description of an expression, with its lists as heads of threads.
  datatype ExpDesc = ExpDesc(k: Kind, t: int, f: int)

  lemma KeptThread(c: seq<Instr>, c2: seq<Instr>, head: int, list: seq<nat>)
    requires Thread(c, head, list) && Kept(c, c2, SetOf(list))
    ensures Thread(c2, head, list)
  {
    ThreadKept(c, c2, head, list);
  }

  class FuncState {
    var code: seq<Instr>
    var k: seq<Value>
    var cache: map<Value, int>
    var freereg: int
    var maxstack: int
    var lasttarget: int
    const nvar: int

    constructor (vars: int)
      ensures code == [] && k == [] && cache == map[] && freereg == vars && maxstack == (if vars > 2 then vars else 2)
      ensures lasttarget == 0 && nvar == vars
    {
      code, k, cache := [], [], map[];
      freereg, maxstack, lasttarget := vars, if vars > 2 then vars else 2, 0;
      nvar := vars;
    }

    ghost function Fields(): Fs
      reads this
    {
      Fs(code, k, cache, freereg, maxstack, lasttarget, nvar)
    }

    // The state as the functions of CodeGen see it, the jumps of 'pend'
    // waiting.
    ghost function View(pend: set<nat>): Fs
      reads this
    {
      EraseFs(Fields(), pend)
    }

    // --- Jump lists ---

    function GetJump(pc: int): int
      reads this`code
    {
      NextJump(code, pc)
    }

    // So long that a jump may not span it.
    ghost predicate TooLong()
      reads this`code
    {
      |code| >= OFFSET_SJ
    }

    method FixAt(pc: nat, dest: int) returns (st: Status)
      requires pc < |code|
      modifies this`code
      ensures st.Done? <==> FitsSJ(dest - (pc + 1))
      ensures code == if st.Done? then old(code)[pc := Jmp(dest - (pc + 1))] else old(code)
    {
      var offset := dest - (pc + 1);
      if !(-OFFSET_SJ <= offset <= MAXARG_SJ - OFFSET_SJ) {
        return Raised("control structure too long");
      }
      code := code[pc := Jmp(offset)];
      st := Done;
    }

    // Appends list 'l2' to list 'l1'.
    method Concat(l1: int, l2: int, ghost s1: seq<nat>, ghost s2: seq<nat>) returns (st: Status, l: int)
      requires Thread(code, l1, s1) && Thread(code, l2, s2) && NoDup(s1) && (forall p :: p in s1 ==> p !in s2)
      modifies this`code
      ensures st.Done? ==> Thread(code, l, s1 + s2)
      ensures |code| == |old(code)|
      ensures forall i :: 0 <= i < |code| ==> if i in s1 then code[i].Jmp? else code[i] == old(code)[i]
      ensures st.Raised? ==> TooLong()
    {
      ThreadInside(code, l1, s1);
      assert s1 + [] == s1 && [] + s2 == s2;
      st, l := Done, l1;
      if l2 == NO_JUMP {
        assert s2 == [];
      } else if l1 == NO_JUMP {
        assert s1 == [];
        l := l2;
      } else {
        var list := l1;
        var next := GetJump(list);
        ghost var i := 0;
        while next != NO_JUMP
          invariant 0 <= i < |s1| && list == s1[i] && next == NextJump(code, list) && Thread(code, list, s1[i..])
          decreases |s1| - i
        {
          assert s1[i..][1..] == s1[i + 1..];
          list := next;
          next := GetJump(list);
          i := i + 1;
        }
        assert s1[i..][1..] == s1[i + 1..];
        assert i == |s1| - 1;
        ghost var before := code;
        :- FixAt(list, l2);
        ThreadJoined(before, code, l1, s1, l2, s2);
      }
    }

    // Whether the jump at 'node' brings a value; if so, makes that go to
    // 'reg', or drops it.
    method PatchReg(node: nat, reg: int) returns (isValue: bool)
      requires node < |code|
      modifies this`code
      ensures isValue == ProducesValue(old(code), node)
      ensures code == PatchTestReg(old(code), node, reg)
    {
      var q := Control(code, node);
      var i := code[q];
      if !i.TestSet? {
        return false;
      }
      if reg != NO_REG && reg != i.b {
        code := code[q := TestSet(reg, i.b, i.k)];
      } else {
        code := code[q := Test(i.b, i.k)];
      }
      isValue := true;
    }

    method DropValues(head: int, ghost s: seq<nat>)
      requires Thread(code, head, s)
      modifies this`code
      ensures code == RemoveValues(old(code), s)
    {
      var list := head;
      ghost var rest := s;
      while list != NO_JUMP
        invariant Thread(code, list, rest) && RemoveValues(old(code), s) == RemoveValues(code, rest)
        decreases |rest|
      {
        ghost var before := code;
        ThreadInside(code, list, rest);
        var p := list;
        var isValue := PatchReg(p, NO_REG);
        ThreadKept(before, code, list, rest);
        list := GetJump(list);
        rest := rest[1..];
      }
    }

    // Sends the jumps that bring values to 'vtarget', the others to 'dtarget'.
    method PatchAll(head: int, vtarget: int, reg: int, dtarget: int, ghost s: seq<nat>) returns (st: Status)
      requires Thread(code, head, s) && NoDup(s)
      modifies this`code
      ensures st.Done? ==> PatchListAux(old(code), s, vtarget, reg, dtarget) == Ok(code)
      ensures |code| == |old(code)|
      ensures st.Raised? && -1 <= vtarget <= |code| && -1 <= dtarget <= |code| ==> TooLong()
    {
      var list := head;
      ghost var rest := s;
      while list != NO_JUMP
        invariant Thread(code, list, rest) && NoDup(rest) && |code| == |old(code)|
        invariant PatchListAux(old(code), s, vtarget, reg, dtarget) == PatchListAux(code, rest, vtarget, reg, dtarget)
        decreases |rest|
      {
        ghost var before := code;
        ThreadInside(code, list, rest);
        var p := list;
        var next := GetJump(p);
        var isValue := PatchReg(p, reg);
        var target := if isValue then vtarget else dtarget;
        :- FixAt(p, target);
        ThreadAfterPatch(before, code, p, rest, reg, Jmp(target - (p + 1)));
        list := next;
        rest := rest[1..];
      }
      st := Done;
    }

    method PatchHere(head: int, ghost s: seq<nat>) returns (st: Status)
      requires Thread(code, head, s) && NoDup(s)
      modifies this`code, this`lasttarget
      ensures |code| == |old(code)|
      ensures st.Done? ==> PatchToHere(old(Fields()), s) == Ok(Fields())
      ensures st.Raised? ==> TooLong()
    {
      lasttarget := |code|;
      :- PatchAll(head, |code|, NO_REG, |code|, s);
      st := Done;
    }

    method NeedsValue(head: int, ghost s: seq<nat>) returns (b: bool)
      requires Thread(code, head, s)
      ensures b == NeedValue(code, s)
    {
      var list := head;
      ghost var i := 0;
      while list != NO_JUMP
        invariant 0 <= i <= |s| && Thread(code, list, s[i..])
        invariant forall j :: 0 <= j < i ==> ProducesValue(code, s[j])
        decreases |s| - i
      {
        if !code[Control(code, list)].TestSet? {
          assert !ProducesValue(code, s[i]) && s[i] in s;
          return true;
        }
        list := GetJump(list);
        assert s[i..][1..] == s[i + 1..];
        i := i + 1;
      }
      b := false;
    }

    // --- Instructions, registers and constants ---

    method Code(i: Instr) returns (pc: int)
      modifies this`code
      ensures Fields() == Emit(old(Fields()), i) && pc == |old(code)|
    {
      pc := |code|;
      code := code + [i];
    }

    method CodeJump() returns (pc: int)
      modifies this`code
      ensures Fields() == Emit(old(Fields()), Jmp(NO_JUMP)) && pc == |old(code)|
    {
      pc := Code(Jmp(NO_JUMP));
    }

    method CodeCondJump(test: Instr) returns (pc: int)
      modifies this`code
      ensures Fields() == CondJump(old(Fields()), test) && pc == |code| - 1
    {
      var q := Code(test);
      pc := CodeJump();
    }

    method MarkLabel() returns (pc: int)
      modifies this`lasttarget
      ensures Fields() == GetLabel(old(Fields())) && pc == |code|
    {
      lasttarget := |code|;
      pc := |code|;
    }

    method CheckStack(n: int) returns (st: Status)
      modifies this`maxstack
      ensures st.Raised? <==> freereg + n > old(maxstack) && freereg + n >= MAXREGS
      ensures maxstack == if st.Done? && freereg + n > old(maxstack) then freereg + n else old(maxstack)
    {
      var newstack := freereg + n;
      if newstack > maxstack {
        if newstack >= MAXREGS {
          return Raised("function or expression needs too many registers");
        }
        maxstack := newstack;
      }
      st := Done;
    }

    method Reserve(n: int) returns (st: Status)
      modifies this`maxstack, this`freereg
      ensures st.Done? ==> ReserveRegs(old(Fields()), n) == Ok(Fields())
      ensures st.Raised? ==> ReserveRegs(old(Fields()), n).Err?
    {
      var newtop := freereg + n;
      :- CheckStack(n);
      freereg := newtop;
      st := Done;
    }

    method Free(reg: int)
      modifies this`freereg
      ensures Fields() == FreeReg(old(Fields()), reg)
    {
      if reg >= nvar {
        freereg := freereg - 1;
      }
    }

    method FreeTwo(r1: int, r2: int)
      modifies this`freereg
      ensures Fields() == FreeRegs(old(Fields()), r1, r2)
    {
      if r1 > r2 {
        Free(r1);
        Free(r2);
      } else {
        Free(r2);
        Free(r1);
      }
    }

    method FreeOf(e: ExpDesc, ghost d: Desc)
      requires e.k == d.k
      modifies this`freereg
      ensures Fields() == FreeExp(old(Fields()), d)
    {
      if e.k.VNonReloc? {
        Free(e.k.reg);
      }
    }

    method FreeBoth(e1: ExpDesc, e2: ExpDesc, ghost d1: Desc, ghost d2: Desc)
      requires e1.k == d1.k && e2.k == d2.k
      modifies this`freereg
      ensures Fields() == FreeExps(old(Fields()), d1, d2)
    {
      var r1 := if e1.k.VNonReloc? then e1.k.reg else -1;
      var r2 := if e2.k.VNonReloc? then e2.k.reg else -1;
      FreeTwo(r1, r2);
    }

    method AddConstant(v: Value) returns (st: Status, idx: int)
      modifies this`k, this`cache
      ensures st.Done? ==> AddK(old(Fields()), v) == Ok(Fields()) && v in cache && idx == cache[v]
      ensures st.Raised? ==> AddK(old(Fields()), v).Err?
    {
      st, idx := Done, 0;
      if v in cache && 0 <= cache[v] < |k| && k[cache[v]] == v {
        idx := cache[v];
      } else if |k| >= MAXARG_AX {
        st := Raised("too many constants");
      } else {
        idx := |k|;
        cache := cache[v := idx];
        k := k + [v];
      }
    }

    method CodeConstant(reg: int, idx: int)
      modifies this`code
      ensures Fields() == CodeK(old(Fields()), reg, idx)
    {
      if idx <= MAXARG_BX {
        var p := Code(LoadK(reg, idx));
      } else {
        var p := Code(LoadKX(reg));
        var q := Code(ExtraArg(idx));
      }
    }

    method CodeValue(reg: int, v: Value) returns (st: Status)
      modifies this`code, this`k, this`cache
      ensures |code| <= |old(code)| + 2
      ensures st.Done? ==> LoadConstant(old(Fields()), reg, v) == Ok(Fields())
      ensures st.Raised? ==> LoadConstant(old(Fields()), reg, v).Err?
    {
      var idx :- AddConstant(v);
      CodeConstant(reg, idx);
      st := Done;
    }

    method CodeInt(reg: int, i: int) returns (st: Status)
      modifies this`code, this`k, this`cache
      ensures |code| <= |old(code)| + 2
      ensures st.Done? ==> LoadInt(old(Fields()), reg, i) == Ok(Fields())
      ensures st.Raised? ==> LoadInt(old(Fields()), reg, i).Err?
    {
      if -OFFSET_SBX <= i <= MAXARG_BX - OFFSET_SBX {
        var p := Code(LoadI(reg, i + OFFSET_SBX));
      } else {
        :- CodeValue(reg, Int(i));
      }
      st := Done;
    }

    method CodeNil(reg: int)
      modifies this`code
      ensures |code| <= |old(code)| + 1
      ensures Fields() == LoadNilAt(old(Fields()), reg)
    {
      var n := |code|;
      if n > lasttarget && n > 0 && code[n - 1].LoadNil? {
        var pfrom := code[n - 1].a;
        var pl := pfrom + code[n - 1].b;
        if (pfrom <= reg && reg <= pl + 1) || (reg <= pfrom && pfrom <= reg + 1) {
          var from := if pfrom < reg then pfrom else reg;
          var l := if pl > reg then pl else reg;
          code := code[n - 1 := LoadNil(from, l - from)];
          return;
        }
      }
      var p := Code(LoadNil(reg, 0));
    }

    // --- Descriptions ---

    ghost predicate Denotes(e: ExpDesc, d: Desc)
      reads this`code
    {
      e.k == d.k && Thread(code, e.t, d.t) && Thread(code, e.f, d.f)
    }

    // The lists of 'd' have no jump twice and none that is in 'pend', and its
    // own jump, when it is a test, is in no list yet.
    ghost predicate Sound(d: Desc, pend: set<nat>)
      reads this`code
    {
      && Jumps(code, pend) && NoDup(d.t) && NoDup(d.f)
      && (forall p :: p in d.t ==> p !in d.f && p !in pend) && (forall p :: p in d.f ==> p !in pend)
      && (d.k.VJmp? ==> d.k.pos < |code| && code[d.k.pos] == Jmp(NO_JUMP)
                        && d.k.pos !in d.t && d.k.pos !in d.f && d.k.pos !in pend)
    }

    lemma AllJumps(e: ExpDesc, d: Desc, pend: set<nat>)
      requires Denotes(e, d) && Sound(d, pend)
      ensures Jumps(code, pend + Pend(d))
    {
      ThreadInside(code, e.t, d.t);
      ThreadInside(code, e.f, d.f);
    }

    // The code changed from 'before', but not the jumps of 'd'.
    lemma StillDenotes(before: seq<Instr>, e: ExpDesc, d: Desc, pend: set<nat>)
      requires e.k == d.k && Thread(before, e.t, d.t) && Thread(before, e.f, d.f)
      requires Kept(before, code, pend) && Pend(d) <= pend
      ensures Denotes(e, d)
    {
      ThreadKept(before, code, e.t, d.t);
      ThreadKept(before, code, e.f, d.f);
    }

    method DischargeToReg(e: ExpDesc, reg: int, ghost d: Desc, ghost all: set<nat>) returns (st: Status, e': ExpDesc)
      requires e.k == d.k && Jumps(code, all)
      modifies this`code, this`k, this`cache
      ensures |code| <= |old(code)| + 2
      ensures st.Done? ==> Discharge2Reg(old(View(all)), d, reg) == Ok(Gen(View(all), d.(k := e'.k)))
      ensures st.Done? ==> Jumps(code, all) && Kept(old(code), code, all) && e'.t == e.t && e'.f == e.f
      ensures st.Done? && e'.k.VJmp? ==> e' == e && code == old(code)
      ensures st.Raised? ==> Discharge2Reg(old(View(all)), d, reg).Err?
    {
      var kind := if e.k.VLocal? then VNonReloc(e.k.sidx) else e.k;
      ghost var before := Fields();
      st, e' := Done, e.(k := VNonReloc(reg));
      match kind {
        case VNil => CodeNil(reg);
        case VFalse => var p := Code(LoadFalse(reg));
        case VTrue => var p := Code(LoadTrue(reg));
        case VKStr(s) => :- CodeValue(reg, Str(s));
        case VK(i) => CodeConstant(reg, i);
        case VKInt(i) => :- CodeInt(reg, i);
        case VReloc(p) =>
          if p < |code| && code[p].Not? {
            code := code[p := Not(reg, code[p].b)];
          }
        case VNonReloc(r) =>
          if r != reg {
            var p := Code(Move(reg, r));
          }
        case VJmp(p) => e' := e;
        case VLocal(x) =>
      }
      assert LoadInto(before, kind, reg) == Ok(Fields());
      EraseLoadInto(before, all, kind, reg);
      LoadKeeps(before, kind, reg, all);
    }

    method DischargeToAny(e: ExpDesc, ghost d: Desc, ghost all: set<nat>) returns (st: Status, e': ExpDesc)
      requires e.k == d.k && Jumps(code, all)
      modifies this`code, this`k, this`cache, this`freereg, this`maxstack
      ensures |code| <= |old(code)| + 2
      ensures st.Done? ==> Discharge2AnyReg(old(View(all)), d) == Ok(Gen(View(all), d.(k := e'.k)))
      ensures st.Done? ==> Jumps(code, all) && Kept(old(code), code, all) && e'.t == e.t && e'.f == e.f
      ensures st.Raised? ==> Discharge2AnyReg(old(View(all)), d).Err?
    {
      st, e' := Done, e;
      if !e.k.VNonReloc? {
        :- Reserve(1);
        e' :- DischargeToReg(e, freereg - 1, d, all);
      }
    }

    method CodeLoadBool(i: Instr) returns (pc: int)
      modifies this`code, this`lasttarget
      ensures Fields() == Emit(GetLabel(old(Fields())), i) && pc == |old(code)|
    {
      var l := MarkLabel();
      pc := Code(i);
    }

    method LoadBooleans(reg: int, isTest: bool) returns (st: Status)
      modifies this`code, this`lasttarget
      ensures |code| <= |old(code)| + 3
      ensures st.Done? ==> CodeBooleans(old(Fields()), reg, isTest) == Ok(Fields())
      ensures st.Raised? ==> TooLong()
    {
      var fj := NO_JUMP;
      if !isTest {
        fj := CodeJump();
      }
      var pf := CodeLoadBool(LFalseSkip(reg));
      var pt := CodeLoadBool(LoadTrue(reg));
      ghost var s := if isTest then [] else [(|old(code)|) as nat];
      assert Thread(code, fj, s);
      :- PatchHere(fj, s);
      st := Done;
    }

    // The part of exp2reg that deals with the jump lists.
    method CloseBoth(t: int, f: int, reg: int, isTest: bool, ghost ts: seq<nat>, ghost fl: seq<nat>) returns (st: Status)
      requires Thread(code, t, ts) && Thread(code, f, fl) && NoDup(ts) && NoDup(fl) && (ts != [] || fl != [])
      requires forall p :: p in ts ==> p !in fl
      modifies this`code, this`lasttarget
      ensures |code| <= |old(code)| + 3
      ensures st.Done? ==> CloseLists(old(Fields()), ts, fl, reg, isTest) == Ok(Fields())
      ensures st.Raised? ==> TooLong()
    {
      hide CloseLists, CodeBooleans, PatchListAux, NeedValue;
      ghost var before := Fields();
      ThreadInside(code, t, ts);
      ThreadInside(code, f, fl);
      var pf, pt := NO_JUMP, NO_JUMP;
      var needT := NeedsValue(t, ts);
      var needF := NeedsValue(f, fl);
      if needT || needF {
        :- LoadBooleans(reg, isTest);
        BooleansKeep(before, reg, isTest, SetOf(ts) + SetOf(fl));
        pf, pt := |code| - 2, |code| - 1;
      }
      ghost var mid := Fields();
      ThreadKept(before.code, code, t, ts);
      ThreadKept(before.code, code, f, fl);
      var final := MarkLabel();
      :- PatchAll(f, final, reg, pf, fl);
      PatchKeeps(mid.code, fl, final, reg, pf, SetOf(ts));
      ThreadKept(mid.code, code, t, ts);
      :- PatchAll(t, final, reg, pt, ts);
      CloseListsGives(before, ts, fl, reg, isTest, mid, code);
      st := Done;
    }

    ghost function Closed(reg: int): Desc {
      Desc(VNonReloc(reg), [], [])
    }

    // The test of a description joins the list of its true exits.
    method JoinTest(t: int, pos: nat, ghost d: Desc, ghost pend: set<nat>, ghost f: int) returns (st: Status, t': int)
      requires Thread(code, t, d.t) && Thread(code, f, d.f) && Sound(d, pend) && d.k == VJmp(pos)
      modifies this`code
      ensures |code| == |old(code)|
      ensures st.Done? ==> Thread(code, t', d.t + [pos]) && Thread(code, f, d.f) && NoDup(d.t + [pos])
      ensures st.Done? ==> View(pend + SetOf(d.t + [pos]) + SetOf(d.f)) == old(View(pend + Pend(d)))
      ensures st.Done? ==> Jumps(code, pend + SetOf(d.t + [pos]) + SetOf(d.f)) && Kept(old(code), code, pend)
      ensures st.Raised? ==> TooLong()
    {
      ghost var before := code;
      ghost var all := pend + Pend(d);
      ThreadInside(code, t, d.t);
      ThreadInside(code, f, d.f);
      assert Thread(code, pos, [pos]);
      t' :- Concat(t, pos, d.t, [pos]);
      ThreadKept(before, code, f, d.f);
      assert pend + SetOf(d.t + [pos]) + SetOf(d.f) == all + {pos};
      EraseOpen(before, all, pos);
      EraseSame(before, code, all + {pos});
      forall i, j | 0 <= i < j < |d.t + [pos]| ensures (d.t + [pos])[i] != (d.t + [pos])[j] { assert d.t[i] in d.t; }
      st := Done;
    }

    // The list of true exits, with the jump of a test.
    method TrueExits(e: ExpDesc, ghost d: Desc, ghost pend: set<nat>) returns (st: Status, t: int, ghost ts: seq<nat>)
      requires Denotes(e, d) && Sound(d, pend) && Jumps(code, pend + Pend(d))
      modifies this`code
      ensures |code| == |old(code)|
      ensures ts == if d.k.VJmp? then d.t + [d.k.pos] else d.t
      ensures st.Done? ==> Thread(code, t, ts) && Thread(code, e.f, d.f) && NoDup(ts) && (forall p :: p in ts ==> p !in d.f && p !in pend)
      ensures st.Done? ==> View(pend + SetOf(ts) + SetOf(d.f)) == old(View(pend + Pend(d)))
      ensures st.Done? ==> Jumps(code, pend + SetOf(ts) + SetOf(d.f)) && Kept(old(code), code, pend)
      ensures st.Raised? ==> TooLong()
    {
      ts := if d.k.VJmp? then d.t + [d.k.pos] else d.t;
      st, t := Done, e.t;
      if e.k.VJmp? {
        t :- JoinTest(e.t, e.k.pos, d, pend, e.f);
      } else {
        assert pend + SetOf(ts) + SetOf(d.f) == pend + Pend(d);
      }
    }

    method Exp2Reg(e: ExpDesc, reg: int, ghost d: Desc, ghost pend: set<nat>) returns (st: Status, e': ExpDesc)
      requires Denotes(e, d) && Sound(d, pend)
      modifies this`code, this`k, this`cache, this`lasttarget
      ensures |code| <= |old(code)| + 5
      ensures st.Done? ==> CodeGen.Exp2Reg(old(View(pend + Pend(d))), d, reg) == Ok(Gen(View(pend), Closed(reg)))
      ensures st.Done? ==> Denotes(e', Closed(reg)) && Jumps(code, pend) && Kept(old(code), code, pend)
      ensures st.Raised? ==> TooLong() || CodeGen.Exp2Reg(old(View(pend + Pend(d))), d, reg).Err?
    {
      hide LoadInto, CloseLists, Discharge2Reg, Thread, NoDup, EraseFs;
      e' := e;
      ghost var all := pend + Pend(d);
      AllJumps(e, d, pend);
      var e1 :- DischargeToReg(e, reg, d, all);
      StillDenotes(old(code), e, d, all);
      ghost var d1 := d.(k := e1.k);
      assert Pend(d1) == Pend(d);
      var t; ghost var ts;
      t, ts :- TrueExits(e1, d1, pend);
      HeadsDiffer(code, t, ts, e1.f, d.f);
      ghost var joined := Fields();
      if t != e1.f {
        :- CloseBoth(t, e1.f, reg, e1.k.VJmp?, ts, d.f);
      } else {
        NothingToClose(joined, reg, e1.k.VJmp?);
      }
      EraseCloseLists(joined, pend, ts, d.f, reg, e1.k.VJmp?);
      CloseKeeps(joined, ts, d.f, reg, e1.k.VJmp?, pend);
      NoThread(code);
      st, e' := Done, ExpDesc(VNonReloc(reg), NO_JUMP, NO_JUMP);
    }

    lemma NothingToClose(fs: Fs, reg: int, isTest: bool)
      ensures CloseLists(fs, [], [], reg, isTest) == Ok(fs)
    {
    }

    function Discharged(e: ExpDesc): ExpDesc {
      if e.k.VLocal? then e.(k := VNonReloc(e.k.sidx)) else e
    }

    method ReserveAfter(e: ExpDesc, ghost d: Desc, ghost all: set<nat>) returns (st: Status)
      requires e.k == d.k
      modifies this`freereg, this`maxstack
      ensures st.Done? ==> ReserveRegs(FreeExp(old(View(all)), d), 1) == Ok(View(all))
      ensures st.Raised? ==> ReserveRegs(FreeExp(old(View(all)), d), 1).Err?
    {
      FreeOf(e, d);
      :- Reserve(1);
      st := Done;
    }

    ghost predicate NextRegFails(fs: Fs, d: Desc) {
      var fs1 := ReserveRegs(FreeExp(fs, d), 1);
      fs1.Err? || CodeGen.Exp2Reg(fs1.value, d, fs1.value.freereg - 1).Err?
    }

    method PutNext(e: ExpDesc, ghost d: Desc, ghost pend: set<nat>) returns (st: Status, e': ExpDesc, ghost fs1: Fs)
      requires Denotes(e, d) && Sound(d, pend)
      modifies this`code, this`k, this`cache, this`lasttarget, this`freereg, this`maxstack
      ensures |code| <= |old(code)| + 5
      ensures st.Done? ==> ReserveRegs(FreeExp(old(View(pend + Pend(d))), d), 1) == Ok(fs1) && e'.k == VNonReloc(fs1.freereg - 1)
      ensures st.Done? ==> CodeGen.Exp2Reg(fs1, d, fs1.freereg - 1) == Ok(Gen(View(pend), Closed(fs1.freereg - 1)))
      ensures st.Done? ==> Denotes(e', Closed(fs1.freereg - 1)) && Jumps(code, pend) && Kept(old(code), code, pend)
      ensures st.Raised? ==> TooLong() || NextRegFails(old(View(pend + Pend(d))), d)
    {
      hide CodeGen.Exp2Reg;
      e', fs1 := e, Fields();
      :- ReserveAfter(e, d, pend + Pend(d));
      fs1 := View(pend + Pend(d));
      e' :- Exp2Reg(e, freereg - 1, d, pend);
      st := Done;
    }

    method Exp2NextReg(e: ExpDesc, ghost d: Desc, ghost pend: set<nat>) returns (st: Status, e': ExpDesc)
      requires Denotes(e, d) && Sound(d, pend)
      modifies this`code, this`k, this`cache, this`lasttarget, this`freereg, this`maxstack
      ensures |code| <= |old(code)| + 5
      ensures st.Done? ==> e'.k.VNonReloc?
                           && CodeGen.Exp2NextReg(old(View(pend + Pend(d))), d) == Ok(Gen(View(pend), Closed(e'.k.reg)))
      ensures st.Done? ==> Denotes(e', Closed(e'.k.reg)) && Jumps(code, pend) && Kept(old(code), code, pend)
      ensures st.Raised? ==> TooLong() || CodeGen.Exp2NextReg(old(View(pend + Pend(d))), d).Err?
    {
      hide ReserveRegs, FreeExp, CodeGen.Exp2Reg, EraseFs, Thread, Kept, Jumps, NoDup;
      e' := e;
      assert pend + Pend(DischargeVars(d)) == pend + Pend(d);
      ghost var before := View(pend + Pend(d));
      ghost var fs1;
      e', fs1 :- PutNext(Discharged(e), DischargeVars(d), pend);
      NextRegIs(before, d, fs1);
      st := Done;
    }

    method Exp2AnyReg(e: ExpDesc, ghost d: Desc, ghost pend: set<nat>) returns (st: Status, e': ExpDesc)
      requires Denotes(e, d) && Sound(d, pend)
      modifies this`code, this`k, this`cache, this`lasttarget, this`freereg, this`maxstack
      ensures |code| <= |old(code)| + 5
      ensures d.k.VNonReloc? && d.t == [] && d.f == [] ==> st.Done? && e' == e && Fields() == old(Fields())
      ensures st.Done? ==> e'.k.VNonReloc?
                           && CodeGen.Exp2AnyReg(old(View(pend + Pend(d))), d) == Ok(Gen(View(pend), Closed(e'.k.reg)))
      ensures st.Done? ==> Denotes(e', Closed(e'.k.reg)) && Jumps(code, pend) && Kept(old(code), code, pend)
      ensures st.Raised? ==> TooLong() || CodeGen.Exp2AnyReg(old(View(pend + Pend(d))), d).Err?
    {
      var e1 := Discharged(e);
      ghost var d1 := DischargeVars(d);
      HeadsDiffer(code, e1.t, d1.t, e1.f, d1.f);
      assert pend + Pend(d1) == pend + Pend(d);
      if e1.k.VNonReloc? {
        if e1.t == e1.f {
          assert pend + Pend(d1) == pend;
          return Done, e1;
        }
        if e1.k.reg >= nvar {
          e' :- Exp2Reg(e1, e1.k.reg, d1, pend);
          return Done, e';
        }
      }
      assert DischargeVars(d1) == d1;
      e' :- Exp2NextReg(e1, d1, pend);
      st := Done;
    }

    method Exp2K(e: ExpDesc, ghost d: Desc, ghost pend: set<nat>) returns (st: Status, e': ExpDesc, isK: bool)
      requires Denotes(e, d) && Sound(d, pend)
      modifies this`k, this`cache
      ensures st.Done? ==> CodeGen.Exp2K(old(View(pend + Pend(d))), d) == Ok(Gen(View(pend + Pend(d)), d.(k := e'.k)))
      ensures st.Done? ==> isK == IsRK(d.(k := e'.k)) && e' == e.(k := e'.k)
      ensures st.Raised? ==> CodeGen.Exp2K(old(View(pend + Pend(d))), d).Err?
    {
      HeadsDiffer(code, e.t, d.t, e.f, d.f);
      st, e', isK := Done, e, false;
      if e.t == e.f {
        var info := 0;
        var v := ConstantOf(e.k);
        match e.k {
          case VK(i) => info := i;
          case VNonReloc(r) => return;
          case VLocal(r) => return;
          case VJmp(p) => return;
          case VReloc(p) => return;
          case _ =>
            ghost var before := Fields();
            info :- AddConstant(v);
            EraseExp2K(before, pend + Pend(d), d, v);
        }
        if info <= MAXINDEXRK {
          e', isK := e.(k := VK(info)), true;
        }
      }
    }

    method Exp2RK(e: ExpDesc, ghost d: Desc, ghost pend: set<nat>)
      returns (st: Status, e': ExpDesc, isK: bool, ghost d': Desc)
      requires Denotes(e, d) && Sound(d, pend)
      modifies this`code, this`k, this`cache, this`lasttarget, this`freereg, this`maxstack
      ensures |code| <= |old(code)| + 5
      ensures st.Done? ==> CodeGen.Exp2RK(old(View(pend + Pend(d))), d) == Ok(Gen(View(pend), d'))
      ensures st.Done? ==> Denotes(e', d') && d'.t == [] && d'.f == [] && isK == IsRK(d')
      ensures st.Done? ==> Jumps(code, pend) && Kept(old(code), code, pend)
      ensures st.Raised? ==> TooLong() || CodeGen.Exp2RK(old(View(pend + Pend(d))), d).Err?
    {
      d' := d;
      var e1;
      e', isK := e, false;
      e1, isK :- Exp2K(e, d, pend);
      ghost var d1 := d.(k := e1.k);
      assert pend + Pend(d1) == pend + Pend(d);
      if isK {
        assert pend + Pend(d1) == pend;
        e', d' := e1, d1;
      } else {
        e' :- Exp2AnyReg(e1, d1, pend);
        d' := Closed(e'.k.reg);
      }
      st := Done;
    }

    // --- Conditions ---

    method Negate(pos: nat, ghost d: Desc, ghost all: set<nat>)
      requires d.k == VJmp(pos) && Jumps(code, all) && pos < |code|
      modifies this`code
      ensures |code| == |old(code)|
      ensures View(all) == NegateCondition(old(View(all)), d) && Jumps(code, all) && Kept(old(code), code, all)
      ensures pos < |code| && (code[pos] == old(code)[pos] || !old(code)[pos].Jmp?)
    {
      EraseNegate(Fields(), all, d);
      NegateKeeps(Fields(), d, all);
      var q := Control(code, pos);
      code := code[q := Negated(code[q])];
    }

    ghost predicate Jumped(pc: int, all: set<nat>)
      reads this`code
    {
      0 <= pc == |code| - 1 && code[pc] == Jmp(NO_JUMP) && pc !in all && Jumps(code, all)
    }

    // A 'not' is removed, and its operand tested for the contrary.
    method JumpOnNot(at: int, cond: bool, ghost all: set<nat>) returns (pc: int)
      requires Jumps(code, all) && at == |code| - 1 >= 0 && code[at].Not?
      modifies this`code
      ensures |code| <= |old(code)| + 2
      ensures var before := old(View(all));
              View(all) == CondJump(before.(code := before.code[..|before.code| - 1]), Test(before.code[at].b, !cond))
      ensures Jumped(pc, all) && Kept(old(code), code, all)
    {
      var i := code[at];
      EraseDropNot(Fields(), all, Test(i.b, !cond));
      code := code[..|code| - 1];
      pc := CodeCondJump(Test(i.b, !cond));
    }

    method JumpOnReg(e: ExpDesc, cond: bool, ghost d: Desc, ghost all: set<nat>) returns (pc: int)
      requires e.k == d.k && Jumps(code, all) && e.k.VNonReloc?
      modifies this`code, this`freereg
      ensures |code| <= |old(code)| + 2
      ensures View(all) == CondJump(FreeExp(old(View(all)), d), TestSet(NO_REG, RegOf(d), cond))
      ensures Jumped(pc, all) && Kept(old(code), code, all)
    {
      FreeOf(e, d);
      EraseCondJump(Fields(), all, TestSet(NO_REG, e.k.reg, cond));
      pc := CodeCondJump(TestSet(NO_REG, e.k.reg, cond));
    }

    method JumpOnCond(e: ExpDesc, cond: bool, ghost d: Desc, ghost all: set<nat>)
      returns (st: Status, e': ExpDesc, pc: int)
      requires e.k == d.k && Jumps(code, all) && !e.k.VLocal? && !e.k.VJmp?
      requires e.k.VReloc? ==> e.k.at == |code| - 1 && code[e.k.at].Not?
      modifies this`code, this`k, this`cache, this`freereg, this`maxstack
      ensures |code| <= |old(code)| + 4
      ensures st.Done? ==> CodeGen.JumpOnCond(old(View(all)), d, cond) == Ok(Gen(View(all), d.(k := e'.k)))
      ensures st.Done? ==> Jumped(pc, all) && Kept(old(code), code, all)
      ensures st.Raised? ==> CodeGen.JumpOnCond(old(View(all)), d, cond).Err?
    {
      st, e', pc := Done, e, 0;
      if e.k.VReloc? {
        pc := JumpOnNot(e.k.at, cond, all);
      } else {
        e' :- DischargeToAny(e, d, all);
        pc := JumpOnReg(e', cond, d.(k := e'.k), all);
      }
    }

    // Puts the jump at 'pc', if there is one, at the end of list 'head', and
    // sends list 'other' here.
    method JoinAndPatch(head: int, pc: int, other: int, ghost s: seq<nat>, ghost one: seq<nat>, ghost o: seq<nat>,
                        ghost pend: set<nat>) returns (st: Status, l: int)
      requires Thread(code, head, s) && Thread(code, pc, one) && Thread(code, other, o)
      requires NoDup(s) && NoDup(o) && Jumps(code, pend) && |one| <= 1 && (one != [] ==> code[pc] == Jmp(NO_JUMP))
      requires forall p :: p in s ==> p !in one && p !in o && p !in pend
      requires forall p :: p in o ==> p !in one && p !in pend
      requires forall p :: p in one ==> p !in pend
      modifies this`code, this`lasttarget
      ensures |code| == |old(code)|
      ensures st.Done? ==> PatchToHere(old(View(pend + SetOf(s) + SetOf(o))), o) == Ok(View(pend + SetOf(s + one)))
      ensures st.Done? ==> Thread(code, l, s + one) && Jumps(code, pend + SetOf(s + one)) && Kept(old(code), code, pend)
      ensures st.Raised? ==> TooLong()
    {
      hide PatchToHere, PatchListAux, Thread, NoDup;
      l := head;
      ShortThread(code, pc, one);
      ghost var before := code;
      ghost var all := pend + SetOf(s) + SetOf(o);
      ThreadInside(code, head, s);
      ThreadInside(code, pc, one);
      ThreadInside(code, other, o);
      l :- Concat(head, pc, s, one);
      ThreadKept(before, code, other, o);
      ghost var mid := Fields();
      assert View(all + SetOf(one)) == old(View(all)) by {
        EraseSame(before, code, all + SetOf(one));
        if one != [] { EraseOpen(before, all, pc); assert all + SetOf(one) == all + {pc}; } else { assert all + SetOf(one) == all; }
      }
      assert SetOf(s + one) == SetOf(s) + SetOf(one);
      assert pend + SetOf(s + one) == all + SetOf(one) - SetOf(o);
      :- PatchHere(other, o);
      ErasePatchHere(mid, all + SetOf(one), o, pend + SetOf(s + one));
      KeptThread(mid.code, code, l, s + one);
      st := Done;
    }

    // Codes the jump away for when the value is 'cond', if there may be one.
    method CodeCondition(e: ExpDesc, cond: bool, ghost d: Desc, ghost pend: set<nat>)
      returns (st: Status, e': ExpDesc, pc: int, ghost one: seq<nat>)
      requires Denotes(e, d) && Sound(d, pend) && !e.k.VLocal?
      requires e.k.VReloc? ==> e.k.at == |code| - 1 && code[e.k.at].Not?
      modifies this`code, this`k, this`cache, this`freereg, this`maxstack
      ensures |code| <= |old(code)| + 4
      ensures st.Done? ==> CondCode(old(View(pend + Pend(d))), d, cond) == Ok(Gen(View(pend + Pend(d)), d.(k := e'.k)))
      ensures st.Done? ==> one == CondPos(code, d.k, cond) && Thread(code, pc, one) && (one != [] ==> code[pc] == Jmp(NO_JUMP))
      ensures st.Done? ==> forall p :: p in one ==> p !in pend + Pend(d)
      ensures st.Done? ==> Jumps(code, pend + Pend(d)) && Kept(old(code), code, pend + Pend(d))
      ensures st.Raised? ==> CondCode(old(View(pend + Pend(d))), d, cond).Err?
    {
      hide CodeGen.JumpOnCond, NegateCondition, EraseFs, NoDup;
      ghost var all := pend + Pend(d);
      AllJumps(e, d, pend);
      st, e', pc, one := Done, e, NO_JUMP, [];
      if e.k.VJmp? {
        if !cond { Negate(e.k.pos, d, all); }
        pc, one := e.k.pos, [e.k.pos];
      } else if !NeverIs(e.k, cond) {
        e', pc :- JumpOnCond(e, cond, d, all);
        one := [pc];
      }
    }

    // The common part of goiftrue and goiffalse: a jump for when the value is
    // 'cond' joins one list, and the other one comes here.
    method JumpAway(e: ExpDesc, cond: bool, ghost d: Desc, ghost pend: set<nat>)
      returns (st: Status, kind: Kind, l: int, ghost one: seq<nat>)
      requires Denotes(e, d) && Sound(d, pend) && !e.k.VLocal?
      requires e.k.VReloc? ==> e.k.at == |code| - 1 && code[e.k.at].Not?
      modifies this`code, this`k, this`cache, this`lasttarget, this`freereg, this`maxstack
      ensures |code| <= |old(code)| + 4
      ensures st.Done? ==>
                var g := CondCode(old(View(pend + Pend(d))), d, cond);
                var s := if cond then d.t else d.f;
                && g.Ok? && g.value.d == d.(k := kind) && one == CondPos(g.value.fs.code, d.k, cond)
                && PatchToHere(g.value.fs, if cond then d.f else d.t) == Ok(View(pend + SetOf(s + one)))
                && Thread(code, l, s + one) && Jumps(code, pend + SetOf(s + one)) && Kept(old(code), code, pend)
      ensures st.Raised? ==> TooLong() || CondCode(old(View(pend + Pend(d))), d, cond).Err?
    {
      hide CondCode, PatchToHere, CondPos;
      ghost var all := pend + Pend(d);
      var e', pc;
      kind, l := e.k, NO_JUMP;
      e', pc, one :- CodeCondition(e, cond, d, pend);
      kind := e'.k;
      StillDenotes(old(code), e, d, all);
      CondPosSame(code, all, d.k, cond);
      if cond {
        assert all == pend + SetOf(d.t) + SetOf(d.f);
        l :- JoinAndPatch(e.t, pc, e.f, d.t, one, d.f, pend);
      } else {
        assert all == pend + SetOf(d.f) + SetOf(d.t);
        l :- JoinAndPatch(e.f, pc, e.t, d.f, one, d.t, pend);
      }
      st := Done;
    }

    method GoIfTrue(e: ExpDesc, ghost d: Desc, ghost pend: set<nat>) returns (st: Status, e': ExpDesc, ghost d': Desc)
      requires Denotes(e, d) && Sound(d, pend)
      requires e.k.VReloc? ==> e.k.at == |code| - 1 && code[e.k.at].Not?
      modifies this`code, this`k, this`cache, this`lasttarget, this`freereg, this`maxstack
      ensures |code| <= |old(code)| + 4
      ensures st.Done? ==> CodeGen.GoIfTrue(old(View(pend + Pend(d))), d) == Ok(Gen(View(pend + SetOf(d'.f)), d'))
      ensures st.Done? ==> d'.t == [] && Denotes(e', d') && Jumps(code, pend + SetOf(d'.f)) && Kept(old(code), code, pend)
      ensures st.Raised? ==> TooLong() || CodeGen.GoIfTrue(old(View(pend + Pend(d))), d).Err?
    {
      e', d' := e, d;
      var kind, l; ghost var one;
      assert Pend(DischargeVars(d)) == Pend(d);
      kind, l, one :- JumpAway(Discharged(e), false, DischargeVars(d), pend);
      st, e', d' := Done, ExpDesc(kind, NO_JUMP, l), Desc(kind, [], d.f + one);
    }

    method GoIfFalse(e: ExpDesc, ghost d: Desc, ghost pend: set<nat>) returns (st: Status, e': ExpDesc, ghost d': Desc)
      requires Denotes(e, d) && Sound(d, pend)
      requires e.k.VReloc? ==> e.k.at == |code| - 1 && code[e.k.at].Not?
      modifies this`code, this`k, this`cache, this`lasttarget, this`freereg, this`maxstack
      ensures |code| <= |old(code)| + 4
      ensures st.Done? ==> CodeGen.GoIfFalse(old(View(pend + Pend(d))), d) == Ok(Gen(View(pend + SetOf(d'.t)), d'))
      ensures st.Done? ==> d'.f == [] && Denotes(e', d') && Jumps(code, pend + SetOf(d'.t)) && Kept(old(code), code, pend)
      ensures st.Raised? ==> TooLong() || CodeGen.GoIfFalse(old(View(pend + Pend(d))), d).Err?
    {
      e', d' := e, d;
      var kind, l; ghost var one;
      assert Pend(DischargeVars(d)) == Pend(d);
      kind, l, one :- JumpAway(Discharged(e), true, DischargeVars(d), pend);
      st, e', d' := Done, ExpDesc(kind, l, NO_JUMP), Desc(kind, d.t + one, []);
    }

    // --- Operators ---

    // The negated value; the lists are still those of the operand.
    method NegateValue(e: ExpDesc, ghost d: Desc, ghost all: set<nat>) returns (st: Status, kind: Kind)
      requires e.k == d.k && Jumps(code, all) && !e.k.VLocal?
      requires e.k.VJmp? ==> e.k.pos < |code|
      modifies this`code, this`k, this`cache, this`freereg, this`maxstack
      ensures |code| <= |old(code)| + 3
      ensures st.Done? ==> NotMain(old(View(all)), d) == Ok(Gen(View(all), d.(k := kind)))
      ensures st.Done? ==> Jumps(code, all) && Kept(old(code), code, all)
      ensures st.Raised? ==> NotMain(old(View(all)), d).Err?
    {
      st, kind := Done, VFalse;
      if e.k.VNil? || e.k.VFalse? {
        kind := VTrue;
      } else if e.k.VJmp? {
        Negate(e.k.pos, d, all);
        kind := e.k;
      } else if e.k.VReloc? || e.k.VNonReloc? {
        kind :- NegateReg(e, d, all);
      }
    }

    method NegateReg(e: ExpDesc, ghost d: Desc, ghost all: set<nat>) returns (st: Status, kind: Kind)
      requires e.k == d.k && Jumps(code, all) && !e.k.VJmp?
      modifies this`code, this`k, this`cache, this`freereg, this`maxstack
      ensures |code| <= |old(code)| + 3
      ensures st.Done? ==> NotOfReg(old(View(all)), d) == Ok(Gen(View(all), d.(k := kind)))
      ensures st.Done? ==> Jumps(code, all) && Kept(old(code), code, all)
      ensures st.Raised? ==> NotOfReg(old(View(all)), d).Err?
    {
      kind := e.k;
      var e1 :- DischargeToAny(e, d, all);
      FreeOf(e1, d.(k := e1.k));
      EraseEmit(Fields(), Not(0, e1.k.reg), all);
      var pc := Code(Not(0, e1.k.reg));
      kind := VReloc(pc);
      st := Done;
    }

    method Negation(e: ExpDesc, ghost d: Desc, ghost pend: set<nat>) returns (st: Status, e': ExpDesc, ghost d': Desc)
      requires Denotes(e, d) && Sound(d, pend) && !e.k.VLocal?
      modifies this`code, this`k, this`cache, this`freereg, this`maxstack
      ensures |code| <= |old(code)| + 3
      ensures st.Done? ==> CodeNot(old(View(pend + Pend(d))), d) == Ok(Gen(View(pend + Pend(d')), d'))
      ensures st.Done? ==> Denotes(e', d') && Jumps(code, pend) && Kept(old(code), code, pend)
      ensures st.Raised? ==> CodeNot(old(View(pend + Pend(d))), d).Err?
    {
      hide NotMain, RemoveValues;
      ghost var all := pend + Pend(d);
      AllJumps(e, d, pend);
      e', d' := e, d;
      var kind :- NegateValue(e, d, all);
      StillDenotes(old(code), e, d, all);
      ghost var c0 := code;
      EraseRemoveValues(c0, all, d.t);
      RemoveKeeps(c0, d.t, all);
      DropValues(e.t, d.t);
      StillDenotes(c0, e, d, all);
      ghost var c1 := code;
      EraseRemoveValues(c1, all, d.f);
      RemoveKeeps(c1, d.f, all);
      DropValues(e.f, d.f);
      StillDenotes(c1, e, d, all);
      e', d' := ExpDesc(kind, e.f, e.t), Desc(kind, d.f, d.t);
      assert pend + Pend(d') == all;
      st := Done;
    }

    // Whether an immediate operand can be used.
    method IsImmediate(e: ExpDesc, ghost d: Desc, ghost pend: set<nat>) returns (b: bool)
      requires Denotes(e, d) && Sound(d, pend)
      ensures b == IsSCnumber(d)
    {
      HeadsDiffer(code, e.t, d.t, e.f, d.f);
      b := e.k.VKInt? && e.t == e.f && -OFFSET_SC <= e.k.ival <= MAXARG_C - OFFSET_SC;
    }

    // The test that ends a comparison whose operands are where it wants them.
    method EndTest(e1: ExpDesc, e2: ExpDesc, test: Instr, ghost d1: Desc, ghost d2: Desc, ghost pend: set<nat>)
      returns (e': ExpDesc)
      requires e1.k == d1.k && e2.k == d2.k && Jumps(code, pend)
      modifies this`code, this`freereg
      ensures |code| <= |old(code)| + 2
      ensures View(pend) == CondJump(FreeExps(old(View(pend)), d1, d2), test)
      ensures Denotes(e', TestDesc(View(pend))) && Jumps(code, pend) && Kept(old(code), code, pend)
    {
      FreeBoth(e1, e2, d1, d2);
      EraseCondJump(Fields(), pend, test);
      var pc := CodeCondJump(test);
      e' := ExpDesc(VJmp(pc), NO_JUMP, NO_JUMP);
    }

    ghost predicate Plain(d: Desc) {
      d.t == [] && d.f == [] && !d.k.VJmp?
    }

    lemma PlainPend(d: Desc, pend: set<nat>)
      requires d.t == [] && d.f == []
      ensures pend + Pend(d) == pend
    {
    }

    ghost predicate BothRegsFail(fs: Fs, d1: Desc, d2: Desc) {
      var g1 := CodeGen.Exp2AnyReg(fs, d1);
      g1.Err? || CodeGen.Exp2AnyReg(g1.value.fs, d2).Err?
    }

    // Both operands go into registers; one of them is there already.
    method BothRegs(e1: ExpDesc, e2: ExpDesc, ghost d1: Desc, ghost d2: Desc, ghost pend: set<nat>)
      returns (st: Status, e1': ExpDesc, e2': ExpDesc)
      requires Denotes(e1, d1) && Denotes(e2, d2) && Sound(d1, pend) && Sound(d2, pend)
      requires (d1.k.VNonReloc? && Plain(d1)) || (d2.k.VNonReloc? && Plain(d2))
      modifies this`code, this`k, this`cache, this`lasttarget, this`freereg, this`maxstack
      ensures |code| <= |old(code)| + 10
      ensures st.Done? ==>
                && e1'.k.VNonReloc? && e2'.k.VNonReloc?
                && var g1 := CodeGen.Exp2AnyReg(old(View(pend + Pend(d1) + Pend(d2))), d1);
                   && g1.Ok? && g1.value.d == Closed(e1'.k.reg)
                   && CodeGen.Exp2AnyReg(g1.value.fs, d2) == Ok(Gen(View(pend), Closed(e2'.k.reg)))
      ensures st.Done? ==> Jumps(code, pend) && Kept(old(code), code, pend)
      ensures st.Raised? ==> TooLong() || BothRegsFail(old(View(pend + Pend(d1) + Pend(d2))), d1, d2)
    {
      e1', e2' := e1, e2;
      if d1.k.VNonReloc? && Plain(d1) {
        PlainPend(d1, pend);
        assert pend + Pend(d1) + Pend(d2) == pend + Pend(d2);
      } else {
        PlainPend(d2, pend);
        assert pend + Pend(d1) + Pend(d2) == pend + Pend(d1);
      }
      e1' :- Exp2AnyReg(e1, d1, pend);
      e2' :- Exp2AnyReg(e2, d2, pend);
      st := Done;
    }

    ghost predicate InReg(d: Desc) {
      d.k.VNonReloc? && d.t == [] && d.f == []
    }

    method OrderImmediate(less: bool, isLeft: bool, e: ExpDesc, imm: ExpDesc, ghost d: Desc, ghost di: Desc, ghost pend: set<nat>)
      returns (st: Status, e': ExpDesc)
      requires Denotes(e, d) && Sound(d, pend) && imm.k == di.k && di.k.VKInt?
      modifies this`code, this`k, this`cache, this`lasttarget, this`freereg, this`maxstack
      ensures |code| <= |old(code)| + 7
      ensures st.Done? ==> (if isLeft then OrderLeft(old(View(pend + Pend(d))), less, di, d)
                            else OrderRight(old(View(pend + Pend(d))), less, d, di))
                           == Ok(Gen(View(pend), TestDesc(View(pend))))
      ensures st.Done? ==> Denotes(e', TestDesc(View(pend))) && Jumps(code, pend) && Kept(old(code), code, pend)
      ensures st.Raised? ==> TooLong() || (if isLeft then OrderLeft(old(View(pend + Pend(d))), less, di, d)
                             else OrderRight(old(View(pend + Pend(d))), less, d, di)).Err?
    {
      hide CodeGen.Exp2AnyReg;
      e' := e;
      var a :- Exp2AnyReg(e, d, pend);
      var i := imm.k.ival + OFFSET_SC;
      if isLeft {
        e' := EndTest(imm, a, OrderTestLeft(less, a.k.reg, i), di, Closed(a.k.reg), pend);
      } else {
        e' := EndTest(a, imm, OrderTestRight(less, a.k.reg, i), Closed(a.k.reg), di, pend);
      }
      st := Done;
    }

    method OrderInRegs(less: bool, e1: ExpDesc, e2: ExpDesc, ghost d1: Desc, ghost d2: Desc, ghost pend: set<nat>)
      returns (st: Status, e': ExpDesc)
      requires Denotes(e1, d1) && Denotes(e2, d2) && Sound(d1, pend) && Sound(d2, pend) && (InReg(d1) || InReg(d2))
      modifies this`code, this`k, this`cache, this`lasttarget, this`freereg, this`maxstack
      ensures |code| <= |old(code)| + 12
      ensures st.Done? ==> OrderRegs(old(View(pend + Pend(d1) + Pend(d2))), less, d1, d2)
                           == Ok(Gen(View(pend), TestDesc(View(pend))))
      ensures st.Done? ==> Denotes(e', TestDesc(View(pend))) && Jumps(code, pend) && Kept(old(code), code, pend)
      ensures st.Raised? ==> TooLong() || OrderRegs(old(View(pend + Pend(d1) + Pend(d2))), less, d1, d2).Err?
    {
      e' := e1;
      var a, b :- BothRegs(e1, e2, d1, d2, pend);
      e' := EndTest(a, b, OrderTest(less, a.k.reg, b.k.reg), Closed(a.k.reg), Closed(b.k.reg), pend);
      st := Done;
    }

    method CodeOrder(less: bool, e1: ExpDesc, e2: ExpDesc, ghost d1: Desc, ghost d2: Desc, ghost pend: set<nat>)
      returns (st: Status, e': ExpDesc)
      requires Denotes(e1, d1) && Denotes(e2, d2) && Sound(d1, pend) && Sound(d2, pend)
      requires InReg(d1) || IsSCnumber(d1) || InReg(d2) || IsSCnumber(d2)
      modifies this`code, this`k, this`cache, this`lasttarget, this`freereg, this`maxstack
      ensures |code| <= |old(code)| + 12
      ensures st.Done? ==> CodeGen.CodeOrder(old(View(pend + Pend(d1) + Pend(d2))), less, d1, d2)
                           == Ok(Gen(View(pend), TestDesc(View(pend))))
      ensures st.Done? ==> Denotes(e', TestDesc(View(pend))) && Jumps(code, pend) && Kept(old(code), code, pend)
      ensures st.Raised? ==> TooLong() || CodeGen.CodeOrder(old(View(pend + Pend(d1) + Pend(d2))), less, d1, d2).Err?
    {
      e' := e1;
      var right := IsImmediate(e2, d2, pend);
      var left := IsImmediate(e1, d1, pend);
      if right {
        PlainPend(d2, pend + Pend(d1));
        e' :- OrderImmediate(less, false, e1, e2, d1, d2, pend);
      } else if left {
        PlainPend(d1, pend);
        e' :- OrderImmediate(less, true, e2, e1, d2, d1, pend);
      } else {
        e' :- OrderInRegs(less, e1, e2, d1, d2, pend);
      }
      st := Done;
    }

    method CodeEqImmediate(eq: bool, e1: ExpDesc, e2: ExpDesc, ghost d1: Desc, ghost d2: Desc, ghost pend: set<nat>)
      returns (e': ExpDesc)
      requires e1.k == d1.k && e2.k == d2.k && d1.k.VNonReloc? && d2.k.VKInt? && Jumps(code, pend)
      modifies this`code, this`freereg
      ensures |code| <= |old(code)| + 2
      ensures EqImmediate(old(View(pend)), eq, d1, d2) == Gen(View(pend), TestDesc(View(pend)))
      ensures Denotes(e', TestDesc(View(pend))) && Jumps(code, pend) && Kept(old(code), code, pend)
    {
      e' := EndTest(e1, e2, EqI(e1.k.reg, e2.k.ival + OFFSET_SC, eq), d1, d2, pend);
    }

    method CodeEqOther(eq: bool, e1: ExpDesc, e2: ExpDesc, ghost d1: Desc, ghost d2: Desc, ghost pend: set<nat>)
      returns (st: Status, e': ExpDesc)
      requires e1.k == d1.k && d1.k.VNonReloc? && Denotes(e2, d2) && Sound(d2, pend)
      modifies this`code, this`k, this`cache, this`lasttarget, this`freereg, this`maxstack
      ensures |code| <= |old(code)| + 7
      ensures st.Done? ==> EqOther(old(View(pend + Pend(d2))), eq, d1, d2) == Ok(Gen(View(pend), TestDesc(View(pend))))
      ensures st.Done? ==> Denotes(e', TestDesc(View(pend))) && Jumps(code, pend) && Kept(old(code), code, pend)
      ensures st.Raised? ==> TooLong() || EqOther(old(View(pend + Pend(d2))), eq, d1, d2).Err?
    {
      e' := e1;
      var b, isK; ghost var d3;
      b, isK, d3 :- Exp2RK(e2, d2, pend);
      var test := if isK then EqK(e1.k.reg, b.k.info, eq)
                  else Eq(e1.k.reg, if b.k.VNonReloc? then b.k.reg else -1, eq);
      e' := EndTest(e1, b, test, d1, d3, pend);
      st := Done;
    }

    method CodeEqInto(eq: bool, e1: ExpDesc, e2: ExpDesc, ghost d1: Desc, ghost d2: Desc, ghost pend: set<nat>)
      returns (st: Status, e': ExpDesc)
      requires Denotes(e1, d1) && Denotes(e2, d2) && Sound(d1, pend) && Sound(d2, pend)
      requires InReg(d1) || Plain(d2)
      modifies this`code, this`k, this`cache, this`lasttarget, this`freereg, this`maxstack
      ensures |code| <= |old(code)| + 12
      ensures st.Done? ==> CodeGen.CodeEqInto(old(View(pend + Pend(d1) + Pend(d2))), eq, d1, d2)
                           == Ok(Gen(View(pend), TestDesc(View(pend))))
      ensures st.Done? ==> Denotes(e', TestDesc(View(pend))) && Jumps(code, pend) && Kept(old(code), code, pend)
      ensures st.Raised? ==> TooLong() || CodeGen.CodeEqInto(old(View(pend + Pend(d1) + Pend(d2))), eq, d1, d2).Err?
    {
      e' := e1;
      if InReg(d1) {
        PlainPend(d1, pend);
      } else {
        PlainPend(d2, pend + Pend(d1));
        PlainPend(d2, pend);
      }
      var a :- Exp2AnyReg(e1, d1, pend);
      ghost var mid := View(pend + Pend(d2));
      assert CodeGen.Exp2AnyReg(old(View(pend + Pend(d1) + Pend(d2))), d1) == Ok(Gen(mid, Closed(a.k.reg)));
      var right := IsImmediate(e2, d2, pend);
      if right {
        PlainPend(d2, pend);
        e' := CodeEqImmediate(eq, a, e2, Closed(a.k.reg), d2, pend);
      } else {
        e' :- CodeEqOther(eq, a, e2, Closed(a.k.reg), d2, pend);
      }
      st := Done;
    }

    method CodeEq(eq: bool, e1: ExpDesc, e2: ExpDesc, ghost d1: Desc, ghost d2: Desc, ghost pend: set<nat>)
      returns (st: Status, e': ExpDesc)
      requires Denotes(e1, d1) && Denotes(e2, d2) && Sound(d1, pend) && Sound(d2, pend) && Plain(d1)
      modifies this`code, this`k, this`cache, this`lasttarget, this`freereg, this`maxstack
      ensures |code| <= |old(code)| + 12
      ensures st.Done? ==> CodeGen.CodeEq(old(View(pend + Pend(d1) + Pend(d2))), eq, d1, d2)
                           == Ok(Gen(View(pend), TestDesc(View(pend))))
      ensures st.Done? ==> Denotes(e', TestDesc(View(pend))) && Jumps(code, pend) && Kept(old(code), code, pend)
      ensures st.Raised? ==> TooLong() || CodeGen.CodeEq(old(View(pend + Pend(d1) + Pend(d2))), eq, d1, d2).Err?
    {
      e' := e1;
      if e1.k.VNonReloc? {
        e' :- CodeEqInto(eq, e1, e2, d1, d2, pend);
      } else {
        assert pend + Pend(d1) + Pend(d2) == pend + Pend(d2) + Pend(d1);
        e' :- CodeEqInto(eq, e2, e1, d2, d1, pend);
      }
      st := Done;
    }

    method Prefix(op: UnOp, e: ExpDesc, ghost d: Desc, ghost pend: set<nat>) returns (st: Status, e': ExpDesc, ghost d': Desc)
      requires Denotes(e, d) && Sound(d, pend)
      modifies this`code, this`k, this`cache, this`freereg, this`maxstack
      ensures |code| <= |old(code)| + 3
      ensures st.Done? ==> CodeGen.Prefix(op, old(View(pend + Pend(d))), d) == Ok(Gen(View(pend + Pend(d')), d'))
      ensures st.Done? ==> Denotes(e', d') && Jumps(code, pend) && Kept(old(code), code, pend)
      ensures st.Raised? ==> CodeGen.Prefix(op, old(View(pend + Pend(d))), d).Err?
    {
      e', d' := e, d;
      assert Pend(DischargeVars(d)) == Pend(d);
      e', d' :- Negation(Discharged(e), DischargeVars(d), pend);
      st := Done;
    }

    method Infix(op: BinOp, e: ExpDesc, ghost d: Desc, ghost pend: set<nat>) returns (st: Status, e': ExpDesc, ghost d': Desc)
      requires Denotes(e, d) && Sound(d, pend)
      requires e.k.VReloc? ==> e.k.at == |code| - 1 && code[e.k.at].Not?
      modifies this`code, this`k, this`cache, this`lasttarget, this`freereg, this`maxstack
      ensures |code| <= |old(code)| + (if op.OpAnd? || op.OpOr? then 4 else 5)
      ensures st.Done? ==> CodeGen.Infix(op, old(View(pend + Pend(d))), d) == Ok(Gen(View(pend + Pend(d')), d'))
      ensures st.Done? ==> Denotes(e', d') && Jumps(code, pend + Pend(d')) && Kept(old(code), code, pend)
      ensures st.Raised? ==> TooLong() || CodeGen.Infix(op, old(View(pend + Pend(d))), d).Err?
    {
      hide CodeGen.GoIfTrue, CodeGen.GoIfFalse, CodeGen.Exp2AnyReg, CodeGen.Exp2RK, Thread, NoDup, EraseFs;
      var e1 := Discharged(e);
      ghost var d1 := DischargeVars(d);
      st, e', d' := Done, e1, d1;
      assert Pend(d1) == Pend(d);
      AllJumps(e1, d1, pend);
      match op {
        case OpAnd => {
          e', d' :- GoIfTrue(e1, d1, pend);
          assert pend + Pend(d') == pend + SetOf(d'.f);
        }
        case OpOr => {
          e', d' :- GoIfFalse(e1, d1, pend);
          assert pend + Pend(d') == pend + SetOf(d'.t);
        }
        case OpEq => e', d' :- InfixEq(e1, d1, pend);
        case OpNe => e', d' :- InfixEq(e1, d1, pend);
        case _ => {
          var imm := IsImmediate(e1, d1, pend);
          if !imm {
            e' :- Exp2AnyReg(e1, d1, pend);
            d' := Closed(e'.k.reg);
            PlainPend(d', pend);
          }
        }
      }
    }

    method InfixEq(e: ExpDesc, ghost d: Desc, ghost pend: set<nat>) returns (st: Status, e': ExpDesc, ghost d': Desc)
      requires Denotes(e, d) && Sound(d, pend)
      modifies this`code, this`k, this`cache, this`lasttarget, this`freereg, this`maxstack
      ensures |code| <= |old(code)| + 5
      ensures st.Done? ==> (if IsNumeral(d) then Ok(Gen(old(View(pend + Pend(d))), d))
                            else CodeGen.Exp2RK(old(View(pend + Pend(d))), d)) == Ok(Gen(View(pend + Pend(d')), d'))
      ensures st.Done? ==> Denotes(e', d') && Jumps(code, pend + Pend(d')) && Kept(old(code), code, pend)
      ensures st.Raised? ==> TooLong() || (!IsNumeral(d) && CodeGen.Exp2RK(old(View(pend + Pend(d))), d).Err?)
    {
      st, e', d' := Done, e, d;
      HeadsDiffer(code, e.t, d.t, e.f, d.f);
      AllJumps(e, d, pend);
      if !(e.k.VKInt? && e.t == e.f) {
        var isK;
        e', isK, d' :- Exp2RK(e, d, pend);
        PlainPend(d', pend);
      }
    }

    // Two lists of one kind, the later one first.
    method JoinLists(l2: int, l1: int, ghost s2: seq<nat>, ghost s1: seq<nat>, ghost all: set<nat>) returns (st: Status, l: int)
      requires Thread(code, l2, s2) && Thread(code, l1, s1) && NoDup(s2) && (forall p :: p in s2 ==> p !in s1)
      requires Jumps(code, all) && SetOf(s2) <= all
      modifies this`code
      ensures |code| == |old(code)|
      ensures st.Done? ==> View(all) == old(View(all)) && Thread(code, l, s2 + s1)
      ensures st.Done? ==> Jumps(code, all) && Kept(old(code), code, all - SetOf(s2))
      ensures st.Raised? ==> TooLong()
    {
      l :- Concat(l2, l1, s2, s1);
      EraseSame(old(code), code, all);
      st := Done;
    }

    // The jumps that left the first operand of 'and' or 'or' leave the whole.
    method PosfixShort(isAnd: bool, e1: ExpDesc, e2: ExpDesc, ghost d1: Desc, ghost d2: Desc, ghost pend: set<nat>)
      returns (st: Status, e': ExpDesc, ghost d': Desc)
      requires Denotes(e1, d1) && Denotes(e2, d2) && Sound(d2, pend + Pend(d1)) && (if isAnd then d1.t == [] else d1.f == [])
      modifies this`code
      ensures |code| == |old(code)|
      ensures d' == if isAnd then d2.(f := d2.f + d1.f) else d2.(t := d2.t + d1.t)
      ensures pend + Pend(d') == pend + Pend(d1) + Pend(d2)
      ensures st.Done? ==> View(pend + Pend(d')) == old(View(pend + Pend(d')))
      ensures st.Done? ==> Denotes(e', d') && Jumps(code, pend + Pend(d')) && Kept(old(code), code, pend)
      ensures st.Raised? ==> TooLong()
    {
      ghost var all := pend + Pend(d1) + Pend(d2);
      AllJumps(e2, d2, pend + Pend(d1));
      e' := e2;
      if isAnd {
        d' := d2.(f := d2.f + d1.f);
        assert pend + Pend(d') == all;
        var f :- JoinLists(e2.f, e1.f, d2.f, d1.f, all);
        e' := e2.(f := f);
        ThreadKept(old(code), code, e2.t, d2.t);
      } else {
        d' := d2.(t := d2.t + d1.t);
        assert pend + Pend(d') == all;
        var t :- JoinLists(e2.t, e1.t, d2.t, d1.t, all);
        e' := e2.(t := t);
        ThreadKept(old(code), code, e2.f, d2.f);
      }
      st := Done;
    }

    method Posfix(op: BinOp, e1: ExpDesc, e2: ExpDesc, ghost d1: Desc, ghost d2: Desc, ghost pend: set<nat>)
      returns (st: Status, e': ExpDesc, ghost d': Desc)
      requires Denotes(e1, d1) && Denotes(e2, d2) && Sound(d2, pend + Pend(d1))
      requires op.OpAnd? ==> d1.t == []
      requires op.OpOr? ==> d1.f == []
      requires !op.OpAnd? && !op.OpOr? ==> Sound(d1, pend) && Plain(d1) && (d1.k.VNonReloc? || (if op.OpEq? || op.OpNe? then true else IsSCnumber(d1)))
      modifies this`code, this`k, this`cache, this`lasttarget, this`freereg, this`maxstack
      ensures |code| <= |old(code)| + (if op.OpAnd? || op.OpOr? then 0 else 12)
      ensures st.Done? ==> CodeGen.Posfix(op, old(View(pend + Pend(d1) + Pend(d2))), d1, d2) == Ok(Gen(View(pend + Pend(d')), d'))
      ensures st.Done? ==> Denotes(e', d') && Jumps(code, pend + Pend(d')) && Kept(old(code), code, pend)
      ensures st.Raised? ==> TooLong() || CodeGen.Posfix(op, old(View(pend + Pend(d1) + Pend(d2))), d1, d2).Err?
    {
      var e3 := Discharged(e2);
      ghost var d3 := DischargeVars(d2);
      e', d' := e3, d3;
      assert Pend(d3) == Pend(d2);
      if op.OpAnd? || op.OpOr? {
        e', d' :- PosfixShort(op.OpAnd?, e1, e3, d1, d3, pend);
      } else {
        e' :- PosfixCompare(op, e1, e3, d1, d3, pend);
        d' := TestDesc(View(pend));
        PlainPend(d', pend);
      }
      st := Done;
    }

    method PosfixCompare(op: BinOp, e1: ExpDesc, e2: ExpDesc, ghost d1: Desc, ghost d2: Desc, ghost pend: set<nat>)
      returns (st: Status, e': ExpDesc)
      requires !op.OpAnd? && !op.OpOr? && Denotes(e1, d1) && Denotes(e2, d2) && Sound(d2, pend) && Sound(d1, pend)
      requires Plain(d1) && (d1.k.VNonReloc? || (if op.OpEq? || op.OpNe? then true else IsSCnumber(d1))) && !d2.k.VLocal?
      modifies this`code, this`k, this`cache, this`lasttarget, this`freereg, this`maxstack
      ensures |code| <= |old(code)| + 12
      ensures st.Done? ==> CodeGen.Posfix(op, old(View(pend + Pend(d1) + Pend(d2))), d1, d2)
                           == Ok(Gen(View(pend), TestDesc(View(pend))))
      ensures st.Done? ==> Denotes(e', TestDesc(View(pend))) && Jumps(code, pend) && Kept(old(code), code, pend)
      ensures st.Raised? ==> TooLong() || CodeGen.Posfix(op, old(View(pend + Pend(d1) + Pend(d2))), d1, d2).Err?
    {
      e' := e1;
      assert pend + Pend(d2) + Pend(d1) == pend + Pend(d1) + Pend(d2);
      match op {
        case OpEq => e' :- CodeEq(true, e1, e2, d1, d2, pend);
        case OpNe => e' :- CodeEq(false, e1, e2, d1, d2, pend);
        case OpLt => e' :- CodeOrder(true, e1, e2, d1, d2, pend);
        case OpLe => e' :- CodeOrder(false, e1, e2, d1, d2, pend);
        case OpGt => e' :- CodeOrder(true, e2, e1, d2, d1, pend);
        case OpGe => e' :- CodeOrder(false, e2, e1, d2, d1, pend);
      }
      st := Done;
    }
  }
}
