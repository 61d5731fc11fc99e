// Jump lists threaded through the operands of the jumps themselves, and code
// with those links erased.
module CodeThreads {
  import opened Results
  import opened Common
  import opened CodeMachine
  import opened CodeGen
  import opened CodeShape

  // The jump that follows the one at 'p' in its list. A jump to itself ends
  // the list.
  function NextJump(c: seq<Instr>, p: int): int {
    if !InstrAt(c, p).Jmp? || c[p].sj == NO_JUMP then NO_JUMP else p + 1 + c[p].sj
  }

  // The list that starts at 'head' consists of the jumps 'list'.
  ghost predicate Thread(c: seq<Instr>, head: int, list: seq<nat>)
    decreases |list|
  {
    if list == [] then head == NO_JUMP
    else head == list[0] && head < |c| && c[head].Jmp? && Thread(c, NextJump(c, head), list[1..])
  }

  lemma NoThread(c: seq<Instr>)
    ensures Thread(c, NO_JUMP, [])
  {
  }

  lemma ShortThread(c: seq<Instr>, head: int, list: seq<nat>)
    requires Thread(c, head, list) && |list| <= 1
    ensures list == [] || (head >= 0 && list == [head as nat])
  {
  }

  lemma {:induction false} ThreadKept(c: seq<Instr>, c2: seq<Instr>, head: int, list: seq<nat>)
    requires Thread(c, head, list)
    requires forall p :: p in list ==> p < |c2| && (p < |c| ==> c2[p] == c[p])
    ensures Thread(c2, head, list)
    decreases |list|
  {
    if list != [] {
      assert list[0] in list;
      assert forall p :: p in list[1..] ==> p in list;
      ThreadKept(c, c2, NextJump(c, head), list[1..]);
    }
  }

  lemma {:induction false} ThreadInside(c: seq<Instr>, head: int, list: seq<nat>)
    requires Thread(c, head, list)
    ensures forall p :: p in list ==> p < |c| && c[p].Jmp?
    decreases |list|
  {
    if list != [] {
      ThreadInside(c, NextJump(c, head), list[1..]);
      forall p | p in list ensures p < |c| && c[p].Jmp? {
        assert p == list[0] || p in list[1..];
      }
    }
  }

  // Linking the last jump of one list to the first jump of another.
  lemma {:induction false} ThreadJoined(c: seq<Instr>, c2: seq<Instr>, h1: int, l1: seq<nat>, h2: int, l2: seq<nat>)
    requires l1 != [] && l2 != [] && Thread(c, h1, l1) && Thread(c, h2, l2) && NoDup(l1)
    requires forall p :: p in l1 ==> p !in l2
    requires l1[|l1| - 1] < |c| && c2 == c[l1[|l1| - 1] := Jmp(h2 - (l1[|l1| - 1] + 1))]
    ensures Thread(c2, h1, l1 + l2)
    decreases |l1|
  {
    var last := l1[|l1| - 1];
    assert last in l1;
    ThreadInside(c, h2, l2);
    if |l1| == 1 {
      ThreadKept(c, c2, h2, l2);
      assert (l1 + l2)[1..] == l2;
      assert h2 == l2[0] && l2[0] in l2;
      assert NextJump(c2, h1) == h2;
    } else {
      assert l1[0] != last && l1[1] in l1;
      assert c2[h1] == c[h1];
      assert l1[1..][|l1[1..]| - 1] == last;
      assert NoDup(l1[1..]);
      ThreadJoined(c, c2, NextJump(c, h1), l1[1..], h2, l2);
      assert (l1 + l2)[1..] == l1[1..] + l2 && (l1 + l2)[0] == l1[0];
    }
  }

  // Patching the first jump of a list leaves the rest threaded.
  lemma ThreadAfterPatch(c: seq<Instr>, c2: seq<Instr>, head: int, list: seq<nat>, reg: int, i: Instr)
    requires list != [] && Thread(c, head, list) && NoDup(list) && i.Jmp?
    requires c2 == PatchTestReg(c, head, reg)[head := i]
    ensures Thread(c2, NextJump(c, head), list[1..]) && NoDup(list[1..])
  {
    ThreadInside(c, head, list);
    forall q | q in list[1..] ensures q != head && q < |c| && c2[q] == c[q] {
      assert q in list;
      var j :| 0 <= j < |list[1..]| && list[1..][j] == q;
      assert list[j + 1] == q;
    }
    ThreadKept(c, c2, NextJump(c, head), list[1..]);
  }

  // Two lists without a common jump start at the same place only when both
  // are empty.
  lemma HeadsDiffer(c: seq<Instr>, t: int, lt: seq<nat>, f: int, lf: seq<nat>)
    requires Thread(c, t, lt) && Thread(c, f, lf) && (forall p :: p in lt ==> p !in lf)
    ensures t != f <==> lt != [] || lf != []
  {
    if lt != [] && lf != [] { assert lt[0] in lt && lf[0] in lf; }
  }

  // --- Code without the links ---

  ghost function Erase(c: seq<Instr>, pend: set<nat>): (e: seq<Instr>)
    ensures |e| == |c|
    ensures forall i :: 0 <= i < |c| ==> e[i] == if i in pend then Jmp(NO_JUMP) else c[i]
  {
    seq(|c|, i requires 0 <= i < |c| => if i in pend then Jmp(NO_JUMP) else c[i])
  }

  ghost function EraseFs(fs: Fs, pend: set<nat>): Fs {
    fs.(code := Erase(fs.code, pend))
  }

  ghost predicate Jumps(c: seq<Instr>, pend: set<nat>) {
    forall p :: p in pend ==> p < |c| && c[p].Jmp?
  }

  // Codes that differ in links only are the same without them.
  lemma EraseSame(c: seq<Instr>, c2: seq<Instr>, pend: set<nat>)
    requires |c2| == |c| && (forall i :: 0 <= i < |c| && i !in pend ==> c2[i] == c[i])
    ensures Erase(c2, pend) == Erase(c, pend)
  {
  }

  lemma EraseEmit(fs: Fs, i: Instr, pend: set<nat>)
    requires Jumps(fs.code, pend)
    ensures EraseFs(Emit(fs, i), pend) == Emit(EraseFs(fs, pend), i)
  {
    assert Erase(fs.code + [i], pend) == Erase(fs.code, pend) + [i];
  }

  // The list of a jump that ends it and of no other.
  lemma EraseOpen(c: seq<Instr>, pend: set<nat>, p: nat)
    requires p < |c| && c[p] == Jmp(NO_JUMP)
    ensures Erase(c, pend + {p}) == Erase(c, pend)
  {
  }

  lemma ErasePatchTest(c: seq<Instr>, pend: set<nat>, p: nat, reg: int)
    requires Jumps(c, pend)
    ensures ProducesValue(Erase(c, pend), p) == ProducesValue(c, p)
    ensures PatchTestReg(Erase(c, pend), p, reg) == Erase(PatchTestReg(c, p, reg), pend)
    ensures Jumps(PatchTestReg(c, p, reg), pend)
  {
    var e := Erase(c, pend);
    assert p >= 1 ==> InstrAt(e, p - 1) == InstrAt(c, p - 1) || (InstrAt(c, p - 1).Jmp? && InstrAt(e, p - 1).Jmp?);
    assert InstrAt(e, p) == InstrAt(c, p) || (InstrAt(c, p).Jmp? && InstrAt(e, p).Jmp?);
    assert PatchTestReg(e, p, reg) == Erase(PatchTestReg(c, p, reg), pend);
  }

  lemma {:induction false} ErasePatchList(c: seq<Instr>, pend: set<nat>, list: seq<nat>, vtarget: int, reg: int, dtarget: int)
    requires Jumps(c, pend) && PatchListAux(c, list, vtarget, reg, dtarget).Ok?
    ensures var c2 := PatchListAux(c, list, vtarget, reg, dtarget).value;
            && PatchListAux(Erase(c, pend), list, vtarget, reg, dtarget) == Ok(Erase(c2, pend - SetOf(list)))
            && Jumps(c2, pend - SetOf(list))
    decreases |list|
  {
    if list == [] {
      assert pend - SetOf(list) == pend;
    } else {
      var p := list[0];
      ErasePatchTest(c, pend, p, reg);
      var c1 := PatchTestReg(c, p, reg);
      var c2 := FixJump(c1, p, if ProducesValue(c, p) then vtarget else dtarget).value;
      assert FixJump(Erase(c1, pend), p, if ProducesValue(c, p) then vtarget else dtarget).value == Erase(c2, pend - {p});
      ErasePatchList(c2, pend - {p}, list[1..], vtarget, reg, dtarget);
      assert pend - SetOf(list) == pend - {p} - SetOf(list[1..]) by {
        assert forall q :: q in list <==> q == p || q in list[1..];
      }
    }
  }

  lemma {:induction false} EraseRemoveValues(c: seq<Instr>, pend: set<nat>, list: seq<nat>)
    requires Jumps(c, pend)
    ensures RemoveValues(Erase(c, pend), list) == Erase(RemoveValues(c, list), pend)
    ensures Jumps(RemoveValues(c, list), pend)
    decreases |list|
  {
    if list != [] {
      ErasePatchTest(c, pend, list[0], NO_REG);
      EraseRemoveValues(PatchTestReg(c, list[0], NO_REG), pend, list[1..]);
    }
  }

  lemma EraseNeedValue(c: seq<Instr>, pend: set<nat>, list: seq<nat>)
    requires Jumps(c, pend)
    ensures NeedValue(Erase(c, pend), list) == NeedValue(c, list)
  {
    forall p | p in list ensures ProducesValue(Erase(c, pend), p) == ProducesValue(c, p) {
      ErasePatchTest(c, pend, p, 0);
    }
  }

  lemma EraseLoadNil(fs: Fs, pend: set<nat>, reg: int)
    requires Jumps(fs.code, pend)
    ensures LoadNilAt(EraseFs(fs, pend), reg) == EraseFs(LoadNilAt(fs, reg), pend)
    ensures Jumps(LoadNilAt(fs, reg).code, pend)
  {
    var n := |fs.code|;
    if Mergeable(fs) && Connects(fs.code[n - 1].a, fs.code[n - 1].a + fs.code[n - 1].b, reg) {
      var i := LoadNilAt(fs, reg).code[n - 1];
      assert Erase(fs.code[n - 1 := i], pend) == Erase(fs.code, pend)[n - 1 := i];
    } else {
      EraseEmit(fs, LoadNil(reg, 0), pend);
    }
  }

  lemma EraseAddK(fs: Fs, pend: set<nat>, v: Value)
    requires AddK(fs, v).Ok?
    ensures AddK(EraseFs(fs, pend), v) == Ok(EraseFs(AddK(fs, v).value, pend))
    ensures AddK(fs, v).value.code == fs.code
  {
  }

  lemma EraseCodeK(fs: Fs, pend: set<nat>, reg: int, idx: int)
    requires Jumps(fs.code, pend)
    ensures CodeK(EraseFs(fs, pend), reg, idx) == EraseFs(CodeK(fs, reg, idx), pend)
    ensures Jumps(CodeK(fs, reg, idx).code, pend)
  {
    EraseEmit(fs, LoadK(reg, idx), pend);
    EraseEmit(fs, LoadKX(reg), pend);
    EraseEmit(Emit(fs, LoadKX(reg)), ExtraArg(idx), pend);
  }

  lemma EraseLoadConstant(fs: Fs, pend: set<nat>, reg: int, v: Value)
    requires Jumps(fs.code, pend) && LoadConstant(fs, reg, v).Ok?
    ensures LoadConstant(EraseFs(fs, pend), reg, v) == Ok(EraseFs(LoadConstant(fs, reg, v).value, pend))
    ensures Jumps(LoadConstant(fs, reg, v).value.code, pend)
  {
    EraseAddK(fs, pend, v);
    var fs1 := AddK(fs, v).value;
    EraseCodeK(fs1, pend, reg, fs1.cache[v]);
  }

  lemma EraseLoadInto(fs: Fs, pend: set<nat>, k: Kind, reg: int)
    requires Jumps(fs.code, pend) && LoadInto(fs, k, reg).Ok?
    ensures LoadInto(EraseFs(fs, pend), k, reg) == Ok(EraseFs(LoadInto(fs, k, reg).value, pend))
    ensures Jumps(LoadInto(fs, k, reg).value.code, pend)
  {
    match k
    case VNil => EraseLoadNil(fs, pend, reg);
    case VFalse => EraseEmit(fs, LoadFalse(reg), pend);
    case VTrue => EraseEmit(fs, LoadTrue(reg), pend);
    case VKStr(s) => EraseLoadConstant(fs, pend, reg, Str(s));
    case VK(i) => EraseCodeK(fs, pend, reg, i);
    case VKInt(i) =>
      EraseEmit(fs, LoadI(reg, i + OFFSET_SBX), pend);
      if !(-OFFSET_SBX <= i <= MAXARG_BX - OFFSET_SBX) { EraseLoadConstant(fs, pend, reg, Int(i)); }
    case VReloc(p) =>
      if InstrAt(fs.code, p).Not? {
        assert Erase(fs.code[p := Not(reg, fs.code[p].b)], pend) == Erase(fs.code, pend)[p := Not(reg, fs.code[p].b)];
      } else {
        assert !InstrAt(Erase(fs.code, pend), p).Not?;
      }
    case VNonReloc(r) => EraseEmit(fs, Move(reg, r), pend);
    case _ =>
  }

  lemma EraseNegate(fs: Fs, pend: set<nat>, d: Desc)
    requires Jumps(fs.code, pend)
    ensures NegateCondition(EraseFs(fs, pend), d) == EraseFs(NegateCondition(fs, d), pend)
    ensures Jumps(NegateCondition(fs, d).code, pend)
  {
    var c, e := fs.code, Erase(fs.code, pend);
    if d.k.VJmp? {
      var p := d.k.pos;
      assert p >= 1 ==> InstrAt(e, p - 1) == InstrAt(c, p - 1) || (InstrAt(c, p - 1).Jmp? && InstrAt(e, p - 1).Jmp?);
      var q := Control(c, p);
      if 0 <= q < |c| {
        assert Erase(c[q := Negated(c[q])], pend) == e[q := Negated(e[q])];
      }
    }
  }

  lemma EraseBooleans(fs: Fs, pend: set<nat>, reg: int, isTest: bool)
    requires Jumps(fs.code, pend) && CodeBooleans(fs, reg, isTest).Ok?
    ensures CodeBooleans(EraseFs(fs, pend), reg, isTest) == Ok(EraseFs(CodeBooleans(fs, reg, isTest).value, pend))
    ensures Jumps(CodeBooleans(fs, reg, isTest).value.code, pend)
  {
    var n := |fs.code|;
    EraseEmit(fs, Jmp(NO_JUMP), pend);
    var fs1 := if isTest then fs else Emit(fs, Jmp(NO_JUMP));
    EraseEmit(GetLabel(fs1), LFalseSkip(reg), pend);
    var fs2 := Emit(GetLabel(fs1), LFalseSkip(reg));
    EraseEmit(GetLabel(fs2), LoadTrue(reg), pend);
    var fs3 := Emit(GetLabel(fs2), LoadTrue(reg));
    var list := if isTest then [] else [n];
    ErasePatchList(fs3.code, pend, list, |fs3.code|, NO_REG, |fs3.code|);
    assert pend - SetOf(list) == pend by { assert n in pend ==> n < n; }
  }

  lemma ErasePatchBoth(c: seq<Instr>, pend: set<nat>, t: seq<nat>, f: seq<nat>, final: int, reg: int, pt: int, pf: int)
    requires Jumps(c, pend + SetOf(t) + SetOf(f))
    requires (forall p :: p in t || p in f ==> p !in pend)
    requires PatchListAux(c, f, final, reg, pf).Ok?
             && PatchListAux(PatchListAux(c, f, final, reg, pf).value, t, final, reg, pt).Ok?
    ensures var e := Erase(c, pend + SetOf(t) + SetOf(f));
            var c2 := PatchListAux(PatchListAux(c, f, final, reg, pf).value, t, final, reg, pt).value;
            && PatchListAux(e, f, final, reg, pf).Ok?
            && PatchListAux(PatchListAux(e, f, final, reg, pf).value, t, final, reg, pt) == Ok(Erase(c2, pend))
            && Jumps(c2, pend)
  {
    var all := pend + SetOf(t) + SetOf(f);
    ErasePatchList(c, all, f, final, reg, pf);
    var c1 := PatchListAux(c, f, final, reg, pf).value;
    ErasePatchList(c1, all - SetOf(f), t, final, reg, pt);
    assert all - SetOf(f) - SetOf(t) == pend;
  }

  lemma EraseCloseLists(fs: Fs, pend: set<nat>, t: seq<nat>, f: seq<nat>, reg: int, isTest: bool)
    requires Jumps(fs.code, pend + SetOf(t) + SetOf(f)) && (forall p :: p in t || p in f ==> p !in pend)
    requires CloseLists(fs, t, f, reg, isTest).Ok?
    ensures CloseLists(EraseFs(fs, pend + SetOf(t) + SetOf(f)), t, f, reg, isTest)
         == Ok(EraseFs(CloseLists(fs, t, f, reg, isTest).value, pend))
  {
    var all := pend + SetOf(t) + SetOf(f);
    if t == [] && f == [] {
      assert all == pend;
    } else {
      EraseNeedValue(fs.code, all, t);
      EraseNeedValue(fs.code, all, f);
      var need := Needed(fs, t, f);
      if need { EraseBooleans(fs, all, reg, isTest); }
      var fs1 := if need then CodeBooleans(fs, reg, isTest).value else fs;
      CloseListsIs(fs, t, f, reg, isTest, fs1);
      EraseClosing(fs, pend, t, f, reg, isTest, fs1);
    }
  }

  lemma EraseClosing(fs: Fs, pend: set<nat>, t: seq<nat>, f: seq<nat>, reg: int, isTest: bool, fs1: Fs)
    requires t != [] || f != []
    requires var all := pend + SetOf(t) + SetOf(f);
             && Jumps(fs1.code, all) && (forall p :: p in t || p in f ==> p !in pend)
             && Needed(EraseFs(fs, all), t, f) == Needed(fs, t, f)
             && (if Needed(fs, t, f) then CodeBooleans(EraseFs(fs, all), reg, isTest) == Ok(EraseFs(fs1, all)) else fs1 == fs)
    requires var pt := if Needed(fs, t, f) then |fs1.code| - 1 else NO_JUMP;
             var pf := if Needed(fs, t, f) then |fs1.code| - 2 else NO_JUMP;
             && PatchListAux(fs1.code, f, |fs1.code|, reg, pf).Ok?
             && PatchListAux(PatchListAux(fs1.code, f, |fs1.code|, reg, pf).value, t, |fs1.code|, reg, pt).Ok?
             && CloseLists(fs, t, f, reg, isTest)
                == Ok(fs1.(code := PatchListAux(PatchListAux(fs1.code, f, |fs1.code|, reg, pf).value, t, |fs1.code|, reg, pt).value,
                           lasttarget := |fs1.code|))
    ensures CloseLists(EraseFs(fs, pend + SetOf(t) + SetOf(f)), t, f, reg, isTest)
         == Ok(EraseFs(CloseLists(fs, t, f, reg, isTest).value, pend))
  {
    hide PatchListAux, CodeBooleans, CloseLists, NeedValue, Jumps;
    var all := pend + SetOf(t) + SetOf(f);
    var final := |fs1.code|;
    var need := Needed(fs, t, f);
    ErasePatchBoth(fs1.code, pend, t, f, final, reg, if need then final - 1 else NO_JUMP, if need then final - 2 else NO_JUMP);
    CloseListsGives(EraseFs(fs, all), t, f, reg, isTest, EraseFs(fs1, all),
                    Erase(CloseLists(fs, t, f, reg, isTest).value.code, pend));
  }

  lemma CloseListsGives(fs: Fs, t: seq<nat>, f: seq<nat>, reg: int, isTest: bool, fs1: Fs, c2: seq<Instr>)
    requires t != [] || f != []
    requires if Needed(fs, t, f) then CodeBooleans(fs, reg, isTest) == Ok(fs1) else fs1 == fs
    requires var pt := if Needed(fs, t, f) then |fs1.code| - 1 else NO_JUMP;
             var pf := if Needed(fs, t, f) then |fs1.code| - 2 else NO_JUMP;
             && PatchListAux(fs1.code, f, |fs1.code|, reg, pf).Ok?
             && PatchListAux(PatchListAux(fs1.code, f, |fs1.code|, reg, pf).value, t, |fs1.code|, reg, pt) == Ok(c2)
    ensures CloseLists(fs, t, f, reg, isTest) == Ok(fs1.(code := c2, lasttarget := |fs1.code|))
  {
    hide PatchListAux, CodeBooleans, NeedValue;

  }

  // --- Jumps that other descriptions wait for stay as they are ---

  ghost predicate Kept(c: seq<Instr>, c2: seq<Instr>, pend: set<nat>) {
    forall p :: p in pend ==> p < |c| && p < |c2| && c2[p] == c[p]
  }

  lemma LoadKeeps(fs: Fs, k: Kind, reg: int, pend: set<nat>)
    requires Jumps(fs.code, pend) && LoadInto(fs, k, reg).Ok?
    ensures Kept(fs.code, LoadInto(fs, k, reg).value.code, pend)
  {
  }

  lemma {:induction false} PatchKeeps(c: seq<Instr>, list: seq<nat>, vtarget: int, reg: int, dtarget: int, pend: set<nat>)
    requires Jumps(c, pend) && (forall p :: p in list ==> p !in pend) && PatchListAux(c, list, vtarget, reg, dtarget).Ok?
    ensures Kept(c, PatchListAux(c, list, vtarget, reg, dtarget).value, pend)
    decreases |list|
  {
    if list != [] {
      var p := list[0];
      assert p in list;
      var c2 := FixJump(PatchTestReg(c, p, reg), p, if ProducesValue(c, p) then vtarget else dtarget).value;
      forall q | q in list[1..] ensures q !in pend { assert q in list; }
      PatchKeeps(c2, list[1..], vtarget, reg, dtarget, pend);
    }
  }

  lemma {:induction false} RemoveKeeps(c: seq<Instr>, list: seq<nat>, pend: set<nat>)
    requires Jumps(c, pend)
    ensures Kept(c, RemoveValues(c, list), pend)
    decreases |list|
  {
    if list != [] { RemoveKeeps(PatchTestReg(c, list[0], NO_REG), list[1..], pend); }
  }

  lemma CloseKeeps(fs: Fs, t: seq<nat>, f: seq<nat>, reg: int, isTest: bool, pend: set<nat>)
    requires Jumps(fs.code, pend) && (forall p :: p in t || p in f ==> p !in pend)
    requires CloseLists(fs, t, f, reg, isTest).Ok?
    ensures Kept(fs.code, CloseLists(fs, t, f, reg, isTest).value.code, pend)
  {
    hide PatchListAux, CodeBooleans;
    if t != [] || f != [] {
      var n := |fs.code|;
      var need := NeedValue(fs.code, t) || NeedValue(fs.code, f);
      if need { BooleansKeep(fs, reg, isTest, pend); }
      var fs1 := if need then CodeBooleans(fs, reg, isTest).value else fs;
      var final := |fs1.code|;
      var pf := if need then final - 2 else NO_JUMP;
      PatchKeeps(fs1.code, f, final, reg, pf, pend);
      PatchKeeps(PatchListAux(fs1.code, f, final, reg, pf).value, t, final, reg, if need then final - 1 else NO_JUMP, pend);
    }
  }

  lemma BooleansKeep(fs: Fs, reg: int, isTest: bool, pend: set<nat>)
    requires Jumps(fs.code, pend) && CodeBooleans(fs, reg, isTest).Ok?
    ensures Kept(fs.code, CodeBooleans(fs, reg, isTest).value.code, pend)
  {
    var n := |fs.code|;
    var c := fs.code + (if isTest then [] else [Jmp(NO_JUMP)]) + [LFalseSkip(reg)] + [LoadTrue(reg)];
    var list := if isTest then [] else [n];
    assert CodeBooleans(fs, reg, isTest).value.code == PatchListAux(c, list, |c|, NO_REG, |c|).value;
    forall p | p in list ensures p !in pend { assert p in pend ==> p < n; }
    PatchKeeps(c, list, |c|, NO_REG, |c|, pend);
  }

  lemma EraseExp2K(fs: Fs, all: set<nat>, d: Desc, v: Value)
    requires v == ConstantOf(d.k) && AddK(fs, v).Ok?
    requires !HasJumps(d) && (d.k.VTrue? || d.k.VFalse? || d.k.VNil? || d.k.VKInt? || d.k.VKStr?)
    ensures var fs1 := AddK(fs, v).value;
            Exp2K(EraseFs(fs, all), d)
            == Ok(Gen(EraseFs(fs1, all), if fs1.cache[v] <= MAXINDEXRK then d.(k := VK(fs1.cache[v])) else d))
  {
    EraseAddK(fs, all, v);
  }

  // jumponcond on a 'not': the instruction is dropped.
  lemma EraseDropNot(fs: Fs, all: set<nat>, test: Instr)
    requires Jumps(fs.code, all) && |fs.code| > 0 && fs.code[|fs.code| - 1].Not?
    ensures var fs1 := fs.(code := fs.code[..|fs.code| - 1]);
            && CondJump(EraseFs(fs, all).(code := EraseFs(fs, all).code[..|fs.code| - 1]), test) == EraseFs(CondJump(fs1, test), all)
            && Kept(fs.code, CondJump(fs1, test).code, all)
  {
    var fs1 := fs.(code := fs.code[..|fs.code| - 1]);
    assert Erase(fs.code, all)[..|fs.code| - 1] == Erase(fs1.code, all);
    forall p | p in all ensures p < |fs.code| - 1 { assert fs.code[p].Jmp?; }
    EraseEmit(fs1, test, all);
    EraseEmit(Emit(fs1, test), Jmp(NO_JUMP), all);
  }

  lemma EraseCondJump(fs: Fs, all: set<nat>, test: Instr)
    requires Jumps(fs.code, all)
    ensures CondJump(EraseFs(fs, all), test) == EraseFs(CondJump(fs, test), all)
    ensures Kept(fs.code, CondJump(fs, test).code, all)
  {
    EraseEmit(fs, test, all);
    EraseEmit(Emit(fs, test), Jmp(NO_JUMP), all);
  }

  lemma NegateKeeps(fs: Fs, d: Desc, all: set<nat>)
    requires Jumps(fs.code, all)
    ensures Kept(fs.code, NegateCondition(fs, d).code, all)
  {
  }

  // Patching a list to here, the other jumps still waiting.
  lemma ErasePatchHere(fs: Fs, all: set<nat>, list: seq<nat>, rest: set<nat>)
    requires Jumps(fs.code, all) && PatchToHere(fs, list).Ok? && rest == all - SetOf(list)
    ensures PatchToHere(EraseFs(fs, all), list) == Ok(EraseFs(PatchToHere(fs, list).value, rest))
    ensures Jumps(PatchToHere(fs, list).value.code, rest) && Kept(fs.code, PatchToHere(fs, list).value.code, rest)
  {
    ErasePatchList(fs.code, all, list, |fs.code|, NO_REG, |fs.code|);
    PatchKeeps(fs.code, list, |fs.code|, NO_REG, |fs.code|, rest);
  }

  lemma CondPosSame(c: seq<Instr>, pend: set<nat>, k: Kind, cond: bool)
    ensures CondPos(Erase(c, pend), k, cond) == CondPos(c, k, cond)
  {
  }
}
