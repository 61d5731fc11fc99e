// The line table as the code generator grows it in place, and as the debug
// interface reads it.
module LineState {
  import opened LineTable

  class FuncLines {
    var lineinfo: seq<int>
    var abslineinfo: seq<AbsLine>
    var nabslineinfo: nat
    var pc: nat
    var previousline: int
    var iwthabs: int
    const linedefined: int

    constructor (line: int)
      ensures Valid() && View() == NewTable(line)
    {
      lineinfo, abslineinfo, nabslineinfo, pc := [], [], 0, 0;
      previousline, iwthabs, linedefined := line, 0, line;
    }

    // Behind the parts in use the vectors may hold old entries.
    ghost predicate Sized(n: int)
      reads this
    {
      0 <= n <= |lineinfo| && nabslineinfo <= |abslineinfo|
    }

    ghost predicate Valid()
      reads this
    {
      Sized(pc)
    }

    ghost function TableOf(n: int): Table
      requires Sized(n)
      reads this
    {
      Table(lineinfo[..n], abslineinfo[..nabslineinfo], previousline, iwthabs, linedefined)
    }

    ghost function View(): Table
      requires Valid()
      reads this
    {
      TableOf(pc)
    }

    // Saves line information for the last instruction, which has none yet.
    method SaveLineInfo(line: int)
      requires pc > 0 && Sized(pc - 1)
      modifies this`lineinfo, this`abslineinfo, this`nabslineinfo, this`previousline, this`iwthabs
      ensures Valid() && View() == Save(old(TableOf(pc - 1)), line)
    {
      ghost var t := TableOf(pc - 1);
      var linedif := line - previousline;
      var last := pc - 1;
      var absolute := Abs(linedif) >= LIMLINEDIFF;
      if !absolute {
        absolute := iwthabs > MAXIWTHABS;
        iwthabs := iwthabs + 1;
      }
      if absolute {
        abslineinfo := Grown(abslineinfo, nabslineinfo, AbsLine(last, line));
        nabslineinfo := nabslineinfo + 1;
        assert abslineinfo[..nabslineinfo] == t.marks + [AbsLine(last, line)];
        linedif := ABSLINEINFO;
        iwthabs := 0;
      }
      lineinfo := Grown(lineinfo, last, linedif);
      previousline := line;
      assert lineinfo[..pc] == t.info + [linedif];
    }

    // A vector in which entry 'i' is set, after growing it if needed.
    static function Grown<T>(s: seq<T>, i: nat, x: T): (r: seq<T>)
      requires i <= |s|
      ensures |r| > i && r[..i] == s[..i] && r[i] == x
    {
      if i < |s| then s[i := x] else s + [x]
    }

    method RemoveLastLineInfo()
      requires Valid() && pc > 0 && (lineinfo[pc - 1] == ABSLINEINFO ==> nabslineinfo > 0)
      modifies this`nabslineinfo, this`previousline, this`iwthabs
      ensures Sized(pc - 1) && TableOf(pc - 1) == Remove(old(View()))
    {
      ghost var t := View();
      assert t.info[pc - 1] == lineinfo[pc - 1] && t.info[..pc - 1] == lineinfo[..pc - 1];
      if lineinfo[pc - 1] != ABSLINEINFO {
        previousline := previousline - lineinfo[pc - 1];
        iwthabs := iwthabs - 1;
      } else {
        nabslineinfo := nabslineinfo - 1;
        assert abslineinfo[..nabslineinfo] == t.marks[..|t.marks| - 1];
        iwthabs := MAXIWTHABS + 1;
      }
    }

    method RemoveLastInstruction(ghost lines: seq<int>)
      requires Valid() && Encodes(View(), lines) && |lines| > 0
      requires Settled(View(), lines) || lineinfo[pc - 1] == ABSLINEINFO
      modifies this
      ensures Valid() && View() == Remove(old(View()))
      ensures Encodes(View(), lines[..|lines| - 1]) && CanExtend(View(), lines[..|lines| - 1])
    {
      assert EntryOk(View(), lines, |lines| - 1);
      RemoveEncodes(View(), lines);
      RemoveLastLineInfo();
      pc := pc - 1;
    }

    // One more instruction, from the given line.
    method Code(line: int, ghost lines: seq<int>)
      requires Valid() && Encodes(View(), lines) && CanExtend(View(), lines)
      modifies this
      ensures Valid() && View() == Save(old(View()), line)
      ensures Encodes(View(), lines + [line]) && Settled(View(), lines + [line])
    {
      SaveEncodes(View(), lines, line);
      pc := pc + 1;
      SaveLineInfo(line);
    }

    method FixLine(line: int, ghost lines: seq<int>)
      requires Valid() && Encodes(View(), lines) && Settled(View(), lines) && |lines| > 0
      modifies this
      ensures Valid() && View() == Fix(old(View()), line)
      ensures Encodes(View(), lines[..|lines| - 1] + [line]) && Settled(View(), lines[..|lines| - 1] + [line])
    {
      assert EntryOk(View(), lines, |lines| - 1);
      RemoveEncodes(View(), lines);
      SaveEncodes(Remove(View()), lines[..|lines| - 1], line);
      RemoveLastLineInfo();
      SaveLineInfo(line);
    }

    // The finished table: the vectors without what is not in use.
    method Close() returns (t: Table)
      requires Valid()
      ensures t == View()
    {
      t := Table(lineinfo[..pc], abslineinfo[..nabslineinfo], previousline, iwthabs, linedefined);
    }
  }

  // Searches the absolute lines for the last one that is not after 'pc'.
  method GetBaseline(f: Table, pc: int, ghost lines: seq<int>) returns (line: int, basepc: int)
    requires Encodes(f, lines) && 0 <= pc < |lines|
    ensures -1 <= basepc <= pc && pc - basepc <= 121
    ensures line == Before(f, lines, basepc + 1)
    ensures forall i :: basepc < i <= pc ==> f.info[i] != ABSLINEINFO
  {
    if |f.marks| == 0 || pc < f.marks[0].pc {
      BaseRight(f, lines, -1, pc);
      return f.defined, -1;
    }
    var i := 0;
    if pc >= f.marks[|f.marks| - 1].pc {
      i := |f.marks| - 1;
    } else {
      var j := |f.marks| - 1;
      while i < j - 1
        invariant 0 <= i < j < |f.marks| && f.marks[i].pc <= pc < f.marks[j].pc
      {
        var m := (j + i) / 2;
        if pc >= f.marks[m].pc {
          i := m;
        } else {
          j := m;
        }
      }
    }
    BaseRight(f, lines, i, pc);
    return f.marks[i].line, f.marks[i].pc;
  }

  // The line of instruction 'pc', found in at most 121 steps; -1 when there is
  // no debug information.
  method GetFuncLine(f: Table, pc: int, ghost lines: seq<int>) returns (line: int, ghost steps: nat)
    requires Encodes(f, lines) && (|lines| > 0 ==> 0 <= pc < |lines|)
    ensures line == if |lines| == 0 then -1 else lines[pc]
    ensures steps <= 121
  {
    steps := 0;
    if |f.info| == 0 {
      return -1, 0;
    }
    var baseline, basepc := GetBaseline(f, pc, lines);
    WalkRight(f, lines, basepc, pc);
    ghost var start := basepc;
    while basepc < pc
      invariant start <= basepc <= pc && steps == basepc - start
      invariant Walk(f.info, basepc, baseline, pc) == lines[pc]
      decreases pc - basepc
    {
      basepc := basepc + 1;
      baseline := baseline + f.info[basepc];
      steps := steps + 1;
    }
    line := baseline;
  }

  // After every run from a new table, the line that is found for an instruction
  // is the one it was given last, in at most 121 steps.
  method LineAfterRun(defined: int, ops: seq<Op>, pc: int) returns (line: int, ghost steps: nat)
    requires |RunLines([], ops)| > 0 ==> 0 <= pc < |RunLines([], ops)|
    ensures line == if |RunLines([], ops)| == 0 then -1 else RunLines([], ops)[pc]
    ensures steps <= 121
  {
    NewEncodes(defined);
    RunEncodes(NewTable(defined), [], ops);
    line, steps := GetFuncLine(Run(NewTable(defined), ops), pc, RunLines([], ops));
  }
}
