// Line information: differences of lines from one instruction to the next,
// with absolute lines in between.
module LineTable {

  const MAXIWTHABS: int := 120
  const LIMLINEDIFF: int := 0x80
  const ABSLINEINFO: int := -0x80

  datatype AbsLine = AbsLine(pc: int, line: int)

  // The table of a function with |info| instructions, and what the code
  // generator remembers to extend it.
  datatype Table = Table(info: seq<int>, marks: seq<AbsLine>, previous: int, iwthabs: int, defined: int)

  function NewTable(defined: int): Table {
    Table([], [], defined, 0, defined)
  }

  function Abs(x: int): int {
    if x < 0 then -x else x
  }

  predicate NeedsAbsolute(t: Table, line: int) {
    Abs(line - t.previous) >= LIMLINEDIFF || t.iwthabs > MAXIWTHABS
  }

  // Line information for one more instruction.
  function Save(t: Table, line: int): Table {
    if NeedsAbsolute(t, line)
    then t.(info := t.info + [ABSLINEINFO], marks := t.marks + [AbsLine(|t.info|, line)], previous := line, iwthabs := 0)
    else t.(info := t.info + [line - t.previous], previous := line, iwthabs := t.iwthabs + 1)
  }

  // The information of the last instruction is removed.
  function Remove(t: Table): Table
    requires |t.info| > 0
  {
    var last := t.info[|t.info| - 1];
    if last != ABSLINEINFO
    then t.(info := t.info[..|t.info| - 1], previous := t.previous - last, iwthabs := t.iwthabs - 1)
    else t.(info := t.info[..|t.info| - 1],
            marks := if |t.marks| > 0 then t.marks[..|t.marks| - 1] else [], iwthabs := MAXIWTHABS + 1)
  }

  function Fix(t: Table, line: int): Table
    requires |t.info| > 0
  {
    Save(Remove(t), line)
  }

  // --- What a table means ---

  // The line before instruction 'i'.
  function Before(t: Table, lines: seq<int>, i: int): int
    requires 0 <= i <= |lines|
  {
    if i == 0 then t.defined else lines[i - 1]
  }

  // How many instructions at the end have no absolute line.
  function Gap(info: seq<int>): (n: nat)
    ensures n <= |info|
    ensures forall i :: |info| - n <= i < |info| ==> info[i] != ABSLINEINFO
    ensures n < |info| ==> info[|info| - n - 1] == ABSLINEINFO
  {
    if info == [] || info[|info| - 1] == ABSLINEINFO then 0 else 1 + Gap(info[..|info| - 1])
  }

  // How many absolute lines there are up to instruction 'i'.
  function Marked(info: seq<int>, i: int): nat
    requires 0 <= i <= |info|
  {
    if i == 0 then 0 else Marked(info, i - 1) + (if info[i - 1] == ABSLINEINFO then 1 else 0)
  }

  ghost predicate EntryOk(t: Table, lines: seq<int>, i: int)
    requires 0 <= i < |t.info| == |lines|
  {
    if t.info[i] == ABSLINEINFO
    then Marked(t.info, i) < |t.marks| && t.marks[Marked(t.info, i)] == AbsLine(i, lines[i])
    else lines[i] == Before(t, lines, i) + t.info[i] && Abs(t.info[i]) < LIMLINEDIFF && Gap(t.info[..i + 1]) <= MAXIWTHABS + 1
  }

  // The table tells the line of every instruction, and has an absolute line
  // often enough.
  ghost predicate Encodes(t: Table, lines: seq<int>) {
    && |t.info| == |lines| && |t.marks| == Marked(t.info, |t.info|)
    && (forall i :: 0 <= i < |lines| ==> EntryOk(t, lines, i))
  }

  // What is remembered fits the table, or forces the next line to be
  // absolute.
  ghost predicate Settled(t: Table, lines: seq<int>)
    requires |t.info| == |lines|
  {
    t.previous == Before(t, lines, |lines|) && t.iwthabs == Gap(t.info) <= MAXIWTHABS + 1
  }

  ghost predicate CanExtend(t: Table, lines: seq<int>)
    requires |t.info| == |lines|
  {
    Settled(t, lines) || t.iwthabs == MAXIWTHABS + 1
  }

  lemma {:induction false} MarkedPrefix(a: seq<int>, b: seq<int>, i: int)
    requires 0 <= i <= |a| && i <= |b| && (forall j :: 0 <= j < i ==> a[j] == b[j])
    ensures Marked(a, i) == Marked(b, i)
    decreases i
  {
    if i > 0 { MarkedPrefix(a, b, i - 1); }
  }

  lemma {:induction false} MarkedGrows(info: seq<int>, i: int, j: int)
    requires 0 <= i <= j <= |info|
    ensures Marked(info, i) <= Marked(info, j)
    ensures (exists k :: i <= k < j && info[k] == ABSLINEINFO) ==> Marked(info, i) < Marked(info, j)
    decreases j - i
  {
    if i < j { MarkedGrows(info, i, j - 1); }
  }

  lemma EntryKept(t: Table, t2: Table, lines: seq<int>, lines2: seq<int>, i: int)
    requires 0 <= i < |t.info| == |lines| && i < |t2.info| == |lines2| && EntryOk(t, lines, i)
    requires forall j :: 0 <= j <= i ==> t2.info[j] == t.info[j] && lines2[j] == lines[j]
    requires t2.defined == t.defined
    requires t.info[i] == ABSLINEINFO ==> Marked(t.info, i) < |t2.marks| && t2.marks[Marked(t.info, i)] == t.marks[Marked(t.info, i)]
    ensures EntryOk(t2, lines2, i)
  {
    MarkedPrefix(t.info, t2.info, i);
    assert t2.info[..i + 1] == t.info[..i + 1];
  }

  lemma SaveKeeps(t: Table, lines: seq<int>, line: int, i: int)
    requires Encodes(t, lines) && 0 <= i < |lines|
    ensures EntryOk(Save(t, line), lines + [line], i)
  {
    var t2 := Save(t, line);
    assert EntryOk(t, lines, i);
    MarkedGrows(t.info, i, |lines|);
    EntryKept(t, t2, lines, lines + [line], i);
  }

  // Saving a line for the next instruction extends the table by that line.
  lemma SaveEncodes(t: Table, lines: seq<int>, line: int)
    requires Encodes(t, lines) && CanExtend(t, lines)
    ensures Encodes(Save(t, line), lines + [line]) && Settled(Save(t, line), lines + [line])
  {
    var t2, lines2 := Save(t, line), lines + [line];
    var n := |lines|;
    MarkedPrefix(t.info, t2.info, n);
    assert t2.info[..n] == t.info && t2.info[..n + 1] == t2.info;
    forall i | 0 <= i < n + 1 ensures EntryOk(t2, lines2, i) {
      if i < n { SaveKeeps(t, lines, line, i); }
    }
  }

  // Removing the last line leaves the table of the others. What is remembered
  // fits it when the line that was removed was not absolute; otherwise the
  // next line will be.
  lemma RemoveEncodes(t: Table, lines: seq<int>)
    requires Encodes(t, lines) && |lines| > 0
    requires Settled(t, lines) || t.info[|lines| - 1] == ABSLINEINFO
    ensures var rest := lines[..|lines| - 1];
            && Encodes(Remove(t), rest) && CanExtend(Remove(t), rest)
            && (t.info[|lines| - 1] != ABSLINEINFO ==> Settled(Remove(t), rest))
  {
    var n := |lines| - 1;
    var t2, rest := Remove(t), lines[..n];
    assert EntryOk(t, lines, n);
    MarkedPrefix(t.info, t2.info, n);
    forall i | 0 <= i < n ensures EntryOk(t2, rest, i) {
      assert EntryOk(t, lines, i);
      MarkedGrows(t.info, i, n);
      EntryKept(t, t2, lines, rest, i);
    }
  }

  // --- Decoding ---

  // The line of instruction 'pc', from a base line that is right.
  function Walk(info: seq<int>, base: int, line: int, pc: int): int
    requires -1 <= base <= pc < |info|
    decreases pc - base
  {
    if base == pc then line else Walk(info, base + 1, line + info[base + 1], pc)
  }

  lemma {:induction false} WalkRight(t: Table, lines: seq<int>, base: int, pc: int)
    requires Encodes(t, lines) && -1 <= base <= pc < |lines| && 0 <= pc
    requires forall i :: base < i <= pc ==> t.info[i] != ABSLINEINFO
    ensures Walk(t.info, base, Before(t, lines, base + 1), pc) == lines[pc]
    decreases pc - base
  {
    if base < pc {
      assert EntryOk(t, lines, base + 1);
      WalkRight(t, lines, base + 1, pc);
    }
  }

  // The instruction that mark 'k' is about.
  lemma {:induction false} MarkPlace(t: Table, lines: seq<int>, k: int, n: int) returns (q: int)
    requires Encodes(t, lines) && 0 <= n <= |lines| && 0 <= k < Marked(t.info, n)
    ensures 0 <= q < n && t.info[q] == ABSLINEINFO && Marked(t.info, q) == k
    ensures Marked(t.info, n) <= |t.marks| && t.marks[k] == AbsLine(q, lines[q])
    decreases n
  {
    MarkedGrows(t.info, n, |lines|);
    if t.info[n - 1] == ABSLINEINFO && Marked(t.info, n - 1) == k {
      q := n - 1;
      assert EntryOk(t, lines, q);
    } else {
      q := MarkPlace(t, lines, k, n - 1);
    }
  }

  lemma MarksIncrease(t: Table, lines: seq<int>, j: int, k: int)
    requires Encodes(t, lines) && 0 <= j < k < |t.marks|
    ensures t.marks[j].pc < t.marks[k].pc
  {
    var a := MarkPlace(t, lines, j, |lines|);
    var b := MarkPlace(t, lines, k, |lines|);
    if a >= b { MarkedGrows(t.info, b, a); }
  }

  // The last mark not after 'pc' is the base of 'pc': nothing between them is
  // marked, and the line there is right.
  lemma BaseRight(t: Table, lines: seq<int>, k: int, pc: int)
    requires Encodes(t, lines) && 0 <= pc < |lines| && -1 <= k < |t.marks|
    requires k >= 0 ==> t.marks[k].pc <= pc
    requires k + 1 < |t.marks| ==> pc < t.marks[k + 1].pc
    ensures var base := if k < 0 then -1 else t.marks[k].pc;
            && -1 <= base <= pc && (k >= 0 ==> 0 <= base && t.marks[k].line == lines[base])
            && (forall i :: base < i <= pc ==> t.info[i] != ABSLINEINFO)
            && pc - base <= 121
  {
    var base := -1;
    if k >= 0 { base := MarkPlace(t, lines, k, |lines|); }
    forall i | base < i <= pc ensures t.info[i] != ABSLINEINFO {
      if t.info[i] == ABSLINEINFO {
        assert EntryOk(t, lines, i);
        if k >= 0 { MarkedGrows(t.info, base, i); }
        MarkedGrows(t.info, i, |lines|);
        var m := Marked(t.info, i);
        if m > k + 1 { MarksIncrease(t, lines, k + 1, m); }
      }
    }
    assert EntryOk(t, lines, pc);
    assert t.info[..pc + 1][pc] == t.info[pc];
    if base < pc {
      var g := Gap(t.info[..pc + 1]);
      assert g < pc + 1 ==> t.info[..pc + 1][pc + 1 - g - 1] == t.info[pc - g] == ABSLINEINFO;
    }
  }

  // --- Runs of the code generator ---

  datatype Op = Emit(line: int) | FixLast(line: int) | RemoveAndEmit(line: int)

  function Apply(t: Table, op: Op): Table {
    match op
    case Emit(line) => Save(t, line)
    case FixLast(line) => if |t.info| > 0 then Fix(t, line) else t
    case RemoveAndEmit(line) => if |t.info| > 0 then Save(Remove(t), line) else t
  }

  function ApplyLines(lines: seq<int>, op: Op): seq<int> {
    match op
    case Emit(line) => lines + [line]
    case FixLast(line) => if |lines| > 0 then lines[..|lines| - 1] + [line] else lines
    case RemoveAndEmit(line) => if |lines| > 0 then lines[..|lines| - 1] + [line] else lines
  }

  function Run(t: Table, ops: seq<Op>): Table
    decreases |ops|
  {
    if ops == [] then t else Run(Apply(t, ops[0]), ops[1..])
  }

  function RunLines(lines: seq<int>, ops: seq<Op>): seq<int>
    decreases |ops|
  {
    if ops == [] then lines else RunLines(ApplyLines(lines, ops[0]), ops[1..])
  }

  lemma ApplyEncodes(t: Table, lines: seq<int>, op: Op)
    requires Encodes(t, lines) && Settled(t, lines)
    ensures Encodes(Apply(t, op), ApplyLines(lines, op)) && Settled(Apply(t, op), ApplyLines(lines, op))
  {
    if op.Emit? {
      SaveEncodes(t, lines, op.line);
    } else if |lines| > 0 {
      RemoveEncodes(t, lines);
      SaveEncodes(Remove(t), lines[..|lines| - 1], op.line);
    }
  }

  // After any run the table tells for every instruction the line it was given
  // last.
  lemma {:induction false} RunEncodes(t: Table, lines: seq<int>, ops: seq<Op>)
    requires Encodes(t, lines) && Settled(t, lines)
    ensures Encodes(Run(t, ops), RunLines(lines, ops)) && Settled(Run(t, ops), RunLines(lines, ops))
    decreases |ops|
  {
    if ops != [] {
      ApplyEncodes(t, lines, ops[0]);
      RunEncodes(Apply(t, ops[0]), ApplyLines(lines, ops[0]), ops[1..]);
    }
  }

  lemma NewEncodes(defined: int)
    ensures Encodes(NewTable(defined), []) && Settled(NewTable(defined), [])
  {
  }

  // Every entry of the table is a signed byte. The smallest one marks the
  // instructions with an absolute line, and no 122 instructions in a row go
  // without such a line.
  lemma RunFitsBytes(defined: int, ops: seq<Op>, i: nat)
    requires i < |Run(NewTable(defined), ops).info|
    ensures var info := Run(NewTable(defined), ops).info;
            -128 <= info[i] <= 127 && (i >= 121 ==> exists j :: i - 121 <= j <= i && info[j] == -128)
  {
    hide Run, RunLines;
    var t, lines := Run(NewTable(defined), ops), RunLines([], ops);
    NewEncodes(defined);
    RunEncodes(NewTable(defined), [], ops);
    EntryFits(t, lines, i);
  }

  lemma EntryFits(t: Table, lines: seq<int>, i: nat)
    requires Encodes(t, lines) && i < |t.info|
    ensures -128 <= t.info[i] <= 127
    ensures i >= 121 ==> exists j :: i - 121 <= j <= i && t.info[j] == -128
  {
    hide Marked;
    assert EntryOk(t, lines, i);
    var upTo := t.info[..i + 1];
    var n := Gap(upTo);
    if i >= 121 && t.info[i] != -128 { assert upTo[i - n] == t.info[i - n] == -128; }
  }

  // --- Removing twice: a limit of the table, not of its use ---

  // The code generator always saves a line after it removed one. Were it to
  // remove two in a row, an absolute line and then a relative one, the next
  // line would be told right exactly when it is saved as an absolute line, or
  // when the absolute line that went was the line before it.
  lemma RemoveTwice(t: Table, lines: seq<int>, line: int)
    requires Encodes(t, lines) && Settled(t, lines) && |lines| >= 2
    requires t.info[|lines| - 1] == ABSLINEINFO && t.info[|lines| - 2] != ABSLINEINFO
    ensures var n := |lines|;
            var t2 := Remove(Remove(t));
            Encodes(Save(t2, line), lines[..n - 2] + [line])
            <==> NeedsAbsolute(t2, line) || lines[n - 1] == lines[n - 2]
  {
    hide Marked, Gap;
    var n := |lines|;
    var t1 := Remove(t);
    RemoveEncodes(t, lines);
    var t2 := Remove(t1);
    var rest := lines[..n - 2];
    var t3 := Save(t2, line);
    assert EntryOk(t1, lines[..n - 1], n - 2);
    // What would be there had the removals been seen: the same table.
    var u := t1.(previous := lines[n - 2], iwthabs := Gap(t1.info));
    GapBound(t1, lines[..n - 1]);
    assert Encodes(u, lines[..n - 1]) by { SameTable(t1, u, lines[..n - 1]); }
    RemoveEncodes(u, lines[..n - 1]);
    assert lines[..n - 1][..n - 2] == rest;
    if NeedsAbsolute(t2, line) {
      var w := Remove(u).(previous := t2.previous, iwthabs := MAXIWTHABS + 1);
      SameTable(Remove(u), w, rest);
      SaveEncodes(w, rest, line);
      assert Save(w, line).info == t3.info && Save(w, line).marks == t3.marks;
      SameTable(Save(w, line), t3, rest + [line]);
    } else if lines[n - 1] == lines[n - 2] {
      SaveEncodes(Remove(u), rest, line);
      assert Save(Remove(u), line).info == t3.info && Save(Remove(u), line).marks == t3.marks;
      SameTable(Save(Remove(u), line), t3, rest + [line]);
    } else {
      assert !EntryOk(t3, rest + [line], n - 2);
    }
  }

  lemma SavedTwice()
    ensures Save(NewTable(0), 1) == Table([1], [], 1, 1, 0)
    ensures Save(Table([1], [], 1, 1, 0), 500) == Table([1, ABSLINEINFO], [AbsLine(1, 500)], 500, 0, 0)
  {
    assert [] + [1] == [1] && [1] + [ABSLINEINFO] == [1, ABSLINEINFO];
    assert [] + [AbsLine(1, 500)] == [AbsLine(1, 500)];
  }

  lemma RemovedTwice()
    ensures Remove(Table([1, ABSLINEINFO], [AbsLine(1, 500)], 500, 0, 0)) == Table([1], [], 500, MAXIWTHABS + 1, 0)
    ensures Remove(Table([1], [], 500, MAXIWTHABS + 1, 0)) == Table([], [], 499, MAXIWTHABS, 0)
    ensures Save(Table([], [], 499, MAXIWTHABS, 0), 450) == Table([-49], [], 450, MAXIWTHABS + 1, 0)
  {
    assert [1, ABSLINEINFO][..1] == [1] && [1][..0] == [] && [] + [-49] == [-49];
    assert [AbsLine(1, 500)][..0] == [];
  }

  // Lines 1 and 500 removed, 450 saved: it is told as a difference from 499.
  lemma RemovedTwiceWrong()
    ensures var t := Save(Save(NewTable(0), 1), 500);
            Encodes(t, [1, 500]) && |t.info| == 2 && |Remove(t).info| == 1 && !Encodes(Save(Remove(Remove(t)), 450), [450])
  {
    hide Encodes, Settled, Save, Remove, NewTable;
    var t0 := NewTable(0);
    var t1 := Table([1], [], 1, 1, 0);
    SavedTwice();
    RemovedTwice();
    assert [] + [1] == [1] && [1] + [500] == [1, 500];
    NewEncodes(0);
    SaveEncodes(t0, [], 1);
    SettledExtends(t1, [1]);
    SaveEncodes(t1, [1], 500);
    WrongEntry(Table([-49], [], 450, MAXIWTHABS + 1, 0));
  }

  lemma SettledExtends(t: Table, lines: seq<int>)
    requires |t.info| == |lines| && Settled(t, lines)
    ensures CanExtend(t, lines)
  {
  }

  lemma WrongEntry(t: Table)
    requires t.info == [-49] && t.defined == 0
    ensures !Encodes(t, [450])
  {
    assert !EntryOk(t, [450], 0);
  }

  lemma SameTable(t: Table, u: Table, lines: seq<int>)
    requires Encodes(t, lines) && u.info == t.info && u.marks == t.marks && u.defined == t.defined
    ensures Encodes(u, lines)
  {
    forall i | 0 <= i < |lines| ensures EntryOk(u, lines, i) { assert EntryOk(t, lines, i); }
  }

  lemma GapBound(t: Table, lines: seq<int>)
    requires Encodes(t, lines)
    ensures Gap(t.info) <= MAXIWTHABS + 1
  {
    if |lines| > 0 {
      assert EntryOk(t, lines, |lines| - 1);
      assert t.info[..|lines|] == t.info;
    }
  }
}
