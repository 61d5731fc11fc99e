/** lundump.c as code: a loader that moves through its input and fills the arrays of a
    prototype, tied to the functions of DumpFormat. */
module DumpLoad {
  import opened Common
  import opened DumpFormat
  import opened DumpBytes

  datatype Outcome<+T> = Done(value: T) | Failed(error: LoadError)

  /** What is still to be loaded of a vector when `done` is. */
  function Resumed<T>(done: seq<T>, r: Loaded<seq<T>>): Loaded<seq<T>> {
    match r
    case Ok(xs, rest) => Ok(done + xs, rest)
    case Err(e) => Err(e)
  }

  lemma ResumedStart<T>(done: seq<T>, r: Loaded<seq<T>>, rest: Bytes)
    ensures Resumed([], r) == r && Resumed(done, Ok([], rest)) == Ok(done, rest)
  {
    assert done + [] == done;
    if r.Ok? { assert [] + r.value == r.value; }
  }

  /** One element more. */
  lemma ResumedNext<T(!new)>(load: Bytes -> Loaded<T>, n: nat, s: Bytes, done: seq<T>)
    requires n > 0 && forall t :: Shorter(load(t), t)
    ensures load(s).Err? ==> Resumed(done, LoadEach(load, n, s)) == Err(load(s).error)
    ensures load(s).Ok? ==>
      Resumed(done, LoadEach(load, n, s)) == Resumed(done + [load(s).value], LoadEach(load, n - 1, load(s).rest))
  {
    if load(s).Ok? {
      var rest := LoadEach(load, n - 1, load(s).rest);
      if rest.Ok? { assert done + ([load(s).value] + rest.value) == done + [load(s).value] + rest.value; }
    }
  }

  /** A vector of bytes is read in one block. */
  lemma {:induction false} BytesInBlock(n: nat, s: Bytes)
    ensures LoadEach(LoadByte, n, s) == LoadBlock(n, s)
    decreases n
  {
    if n > 0 && s != [] {
      BytesInBlock(n - 1, s[1..]);
      if n <= |s| {
        assert [s[0]] + s[1..][..n - 1] == s[..n];
        assert s[1..][n - 1..] == s[n..];
      }
    }
  }

  /** The words of a block. */
  function Words(b: Bytes): (r: seq<Four>)
    requires |b| % 4 == 0
    ensures |r| == |b| / 4
  {
    if b == [] then [] else [b[..4]] + Words(b[4..])
  }

  function AsWords(n: nat, r: Loaded<Bytes>): Loaded<seq<Four>> {
    match r
    case Ok(b, rest) => if |b| == 4 * n then Ok(Words(b), rest) else Err(Truncated)
    case Err(e) => Err(e)
  }

  /** So is a vector of instructions. */
  lemma {:induction false} WordsInBlock(n: nat, s: Bytes)
    ensures LoadEach(LoadFour, n, s) == AsWords(n, LoadBlock(4 * n, s))
    decreases n
  {
    if n == 0 {
      assert s[..0] == [] && s[0..] == s;
    } else if |s| >= 4 {
      WordsInBlock(n - 1, s[4..]);
      if 4 * n <= |s| {
        var b := s[..4 * n];
        assert b[..4] == s[..4] && b[4..] == s[4..][..4 * (n - 1)];
        assert s[4..][4 * (n - 1)..] == s[4 * n..];
      }
    }
  }

  lemma SliceOfRest(b: Bytes, k: nat, lo: nat, hi: nat)
    requires lo <= hi && k + hi <= |b|
    ensures b[k..][lo..hi] == b[k + lo..k + hi]
  {
  }

  lemma {:induction false} WordAt(b: Bytes, i: nat)
    requires |b| % 4 == 0 && 4 * i + 4 <= |b|
    ensures Words(b)[i] == b[4 * i..4 * i + 4]
    decreases i
  {
    if i > 0 {
      WordAt(b[4..], i - 1);
      SliceOfRest(b, 4, 4 * (i - 1), 4 * (i - 1) + 4);
    }
  }

  /** LoadState and its input. */
  class Loader {
    const data: Bytes
    var pos: nat

    function Left(): Bytes
      requires pos <= |data|
      reads this
    {
      data[pos..]
    }

    constructor (data: Bytes)
      ensures this.data == data && pos == 0 && Left() == data
    {
      this.data, pos := data, 0;
    }

    /** The result is the one of the function, and the input left too. */
    ghost predicate Gives<T>(r: Outcome<T>, f: Loaded<T>)
      reads this
    {
      pos <= |data| &&
      match f
      case Ok(v, rest) => r == Done(v) && Left() == rest
      case Err(e) => r == Failed(e)
    }

    /** loadBlock. */
    method ReadBlock(n: nat) returns (r: Outcome<Bytes>)
      requires pos <= |data|
      modifies this
      ensures Gives(r, LoadBlock(n, old(Left()))) && old(pos) <= pos
    {
      if n > |data| - pos { return Failed(Truncated); }
      r := Done(data[pos..pos + n]);
      assert data[pos..][..n] == data[pos..pos + n] && data[pos..][n..] == data[pos + n..];
      pos := pos + n;
    }

    /** loadByte. */
    method ReadByte() returns (r: Outcome<Byte>)
      requires pos <= |data|
      modifies this
      ensures Gives(r, LoadByte(old(Left()))) && old(pos) <= pos
    {
      if pos == |data| { return Failed(Truncated); }
      assert data[pos..][1..] == data[pos + 1..];
      r := Done(data[pos]);
      pos := pos + 1;
    }

    /** loadUnsigned. */
    method ReadUnsigned(max: nat) returns (r: Outcome<nat>)
      requires pos <= |data|
      modifies this
      ensures Gives(r, LoadUnsigned(old(Left()), max)) && old(pos) <= pos && (r.Done? ==> old(pos) < pos)
    {
      var x: nat, limit := 0, max / 128;
      while true
        invariant old(pos) <= pos <= |data|
        invariant LoadDigits(Left(), x, limit) == LoadUnsigned(old(Left()), max)
        decreases |data| - pos
      {
        ghost var s := Left();
        var b := ReadByte();
        if b.Failed? { return Failed(b.error); }
        if x >= limit { return Failed(IntegerOverflow); }
        x := x * 128 + b.value % 128;
        if b.value >= 128 { return Done(x); }
        assert s[1..] == Left();
      }
    }

    method ReadInt() returns (r: Outcome<nat>)
      requires pos <= |data|
      modifies this
      ensures Gives(r, LoadInt(old(Left()))) && old(pos) <= pos && (r.Done? ==> old(pos) < pos)
    {
      r := ReadUnsigned(INT_LIMIT);
    }

    /** loadStringN. */
    method ReadText() returns (r: Outcome<Option<Bytes>>)
      requires pos <= |data|
      modifies this
      ensures Gives(r, LoadString(old(Left()))) && old(pos) <= pos && (r.Done? ==> old(pos) < pos)
    {
      hide LoadUnsigned, LoadBlock;
      var size := ReadUnsigned(SIZE_LIMIT);
      if size.Failed? { return Failed(size.error); }
      if size.value == 0 { return Done(None); }
      var b := ReadBlock(size.value - 1);
      r := if b.Failed? then Failed(b.error) else Done(Some(b.value));
    }

    /** loadCode: the instructions are read in one block. */
    method ReadCode() returns (r: Outcome<seq<Four>>)
      requires pos <= |data|
      modifies this
      ensures Gives(r, LoadVector(LoadFour, old(Left()))) && old(pos) <= pos
    {
      hide LoadInt, LoadEach;
      var n := ReadInt();
      if n.Failed? { return Failed(n.error); }
      WordsInBlock(n.value, Left());
      var b := ReadBlock(4 * n.value);
      if b.Failed? { return Failed(b.error); }
      var code := new Four[n.value](_ => [0, 0, 0, 0]);
      ghost var here := pos;
      for i := 0 to n.value
        invariant pos == here && code[..i] == Words(b.value)[..i]
      {
        WordAt(b.value, i);
        code[i] := b.value[4 * i..4 * i + 4];
      }
      assert code[..] == code[..n.value] == Words(b.value);
      return Done(code[..]);
    }

    /** The body of the loop of loadConstants. */
    method ReadConstant() returns (r: Outcome<Constant>)
      requires pos <= |data|
      modifies this
      ensures Gives(r, LoadConstant(old(Left()))) && old(pos) <= pos
    {
      hide LoadString, LoadBlock;
      var t := ReadByte();
      if t.Failed? { return Failed(t.error); }
      if t.value == 1 {
        return Done(False);
      } else if t.value == 17 {
        return Done(True);
      } else if t.value == 19 || t.value == 3 {
        var b := ReadBlock(8);
        BlockLength(8);
        if b.Failed? { return Failed(b.error); }
        return Done(if t.value == 19 then Float(b.value) else Integer(b.value));
      } else if t.value == 4 || t.value == 20 {
        var s := ReadText();
        if s.Failed? { return Failed(s.error); }
        if s.value == None { return Failed(BadString); }
        return Done(Str(s.value.value));
      } else {
        return Done(Nil);
      }
    }

    lemma BlockLength(n: nat)
      ensures forall s: Bytes :: LoadBlock(n, s).Ok? ==> |LoadBlock(n, s).value| == n
    {
    }

    /** loadConstants. */
    method ReadConstants() returns (r: Outcome<seq<Constant>>)
      requires pos <= |data|
      modifies this
      ensures Gives(r, LoadVector(LoadConstant, old(Left()))) && old(pos) <= pos
    {
      hide LoadInt, LoadEach, LoadConstant, Resumed;
      var n := ReadInt();
      if n.Failed? { return Failed(n.error); }
      ghost var all := LoadEach(LoadConstant, n.value, Left());
      var k := new Constant[n.value](_ => Nil);
      ResumedStart(k[..0], all, []);
      for i := 0 to n.value
        invariant old(pos) <= pos <= |data| && Resumed(k[..i], LoadEach(LoadConstant, n.value - i, Left())) == all
      {
        ResumedNext(LoadConstant, n.value - i, Left(), k[..i]);
        var c := ReadConstant();
        if c.Failed? { return Failed(c.error); }
        k[i] := c.value;
        assert k[..i + 1] == k[..i] + [c.value];
      }
      EachNone(LoadConstant, Left());
      ResumedStart(k[..n.value], all, Left());
      assert k[..] == k[..n.value];
      return Done(k[..]);
    }

    lemma EachNone<T(!new)>(load: Bytes -> Loaded<T>, s: Bytes)
      requires forall t :: Shorter(load(t), t)
      ensures LoadEach(load, 0, s) == Ok([], s)
    {
    }

    method ReadUpvalue() returns (r: Outcome<Upvalue>)
      requires pos <= |data|
      modifies this
      ensures Gives(r, LoadUpvalue(old(Left()))) && old(pos) <= pos
    {
      hide LoadByte;
      var a := ReadByte();
      if a.Failed? { return Failed(a.error); }
      var b := ReadByte();
      if b.Failed? { return Failed(b.error); }
      var c := ReadByte();
      r := if c.Failed? then Failed(c.error) else Done(Upvalue(None, a.value, b.value, c.value));
    }

    /** loadUpvalues; the array gets its names later. */
    method ReadUpvalues() returns (r: Outcome<array<Upvalue>>)
      requires pos <= |data|
      modifies this
      ensures old(pos) <= pos <= |data| && (r.Done? ==> fresh(r.value))
      ensures Gives(if r.Done? then Done(r.value[..]) else Failed(r.error), LoadVector(LoadUpvalue, old(Left())))
    {
      hide LoadInt, LoadEach, LoadUpvalue, Resumed;
      var n := ReadInt();
      if n.Failed? { return Failed(n.error); }
      ghost var all := LoadEach(LoadUpvalue, n.value, Left());
      var us := new Upvalue[n.value](_ => Upvalue(None, 0, 0, 0));
      ResumedStart(us[..0], all, []);
      for i := 0 to n.value
        invariant old(pos) <= pos <= |data| && Resumed(us[..i], LoadEach(LoadUpvalue, n.value - i, Left())) == all
      {
        ResumedNext(LoadUpvalue, n.value - i, Left(), us[..i]);
        var u := ReadUpvalue();
        if u.Failed? { return Failed(u.error); }
        us[i] := u.value;
        assert us[..i + 1] == us[..i] + [u.value];
      }
      EachNone(LoadUpvalue, Left());
      ResumedStart(us[..n.value], all, Left());
      assert us[..] == us[..n.value];
      return Done(us);
    }

    method ReadLineInfo() returns (r: Outcome<Bytes>)
      requires pos <= |data|
      modifies this
      ensures Gives(r, LoadVector(LoadByte, old(Left()))) && old(pos) <= pos
    {
      hide LoadInt, LoadEach;
      var n := ReadInt();
      if n.Failed? { return Failed(n.error); }
      BytesInBlock(n.value, Left());
      r := ReadBlock(n.value);
    }

    method ReadAbsLines() returns (r: Outcome<seq<AbsLine>>)
      requires pos <= |data|
      modifies this
      ensures Gives(r, LoadVector(LoadAbsLine, old(Left()))) && old(pos) <= pos
    {
      hide LoadInt, LoadEach, Resumed;
      var n := ReadInt();
      if n.Failed? { return Failed(n.error); }
      ghost var all := LoadEach(LoadAbsLine, n.value, Left());
      var xs := new AbsLine[n.value](_ => AbsLine(0, 0));
      ResumedStart(xs[..0], all, []);
      for i := 0 to n.value
        invariant old(pos) <= pos <= |data| && Resumed(xs[..i], LoadEach(LoadAbsLine, n.value - i, Left())) == all
      {
        ResumedNext(LoadAbsLine, n.value - i, Left(), xs[..i]);
        var pc := ReadInt();
        if pc.Failed? { return Failed(pc.error); }
        var line := ReadInt();
        if line.Failed? { return Failed(line.error); }
        xs[i] := AbsLine(pc.value, line.value);
        assert xs[..i + 1] == xs[..i] + [AbsLine(pc.value, line.value)];
      }
      EachNone(LoadAbsLine, Left());
      ResumedStart(xs[..n.value], all, Left());
      assert xs[..] == xs[..n.value];
      return Done(xs[..]);
    }

    method ReadLocVar() returns (r: Outcome<LocVar>)
      requires pos <= |data|
      modifies this
      ensures Gives(r, LoadLocVar(old(Left()))) && old(pos) <= pos
    {
      hide LoadInt, LoadString;
      var name := ReadText();
      if name.Failed? { return Failed(name.error); }
      var a := ReadInt();
      if a.Failed? { return Failed(a.error); }
      var b := ReadInt();
      r := if b.Failed? then Failed(b.error) else Done(LocVar(name.value, a.value, b.value));
    }

    method ReadLocVars() returns (r: Outcome<seq<LocVar>>)
      requires pos <= |data|
      modifies this
      ensures Gives(r, LoadVector(LoadLocVar, old(Left()))) && old(pos) <= pos
    {
      hide LoadInt, LoadEach, LoadLocVar, Resumed;
      var n := ReadInt();
      if n.Failed? { return Failed(n.error); }
      ghost var all := LoadEach(LoadLocVar, n.value, Left());
      var xs := new LocVar[n.value](_ => LocVar(None, 0, 0));
      ResumedStart(xs[..0], all, []);
      for i := 0 to n.value
        invariant old(pos) <= pos <= |data| && Resumed(xs[..i], LoadEach(LoadLocVar, n.value - i, Left())) == all
      {
        ResumedNext(LoadLocVar, n.value - i, Left(), xs[..i]);
        var v := ReadLocVar();
        if v.Failed? { return Failed(v.error); }
        xs[i] := v.value;
        assert xs[..i + 1] == xs[..i] + [v.value];
      }
      EachNone(LoadLocVar, Left());
      ResumedStart(xs[..n.value], all, Left());
      assert xs[..] == xs[..n.value];
      return Done(xs[..]);
    }

    /** The last loop of loadDebug, which names the upvalues in place. */
    method ReadNames(us: array<Upvalue>, n: nat) returns (r: Outcome<()>)
      requires pos <= |data| && n <= us.Length
      modifies this, us
      ensures old(pos) <= pos <= |data|
      ensures match LoadEach(LoadString, n, old(Left()))
              case Ok(names, rest) => r == Done(()) && Left() == rest && us[..] == Named(old(us[..]), names)
              case Err(e) => r == Failed(e)
    {
      hide LoadEach, LoadString, Resumed;
      ghost var all, before := LoadEach(LoadString, n, Left()), us[..];
      ghost var names: seq<Option<Bytes>> := [];
      ResumedStart(names, all, []);
      for i := 0 to n
        invariant old(pos) <= pos <= |data| && |names| == i
        invariant Resumed(names, LoadEach(LoadString, n - i, Left())) == all && us[..] == Named(before, names)
      {
        ResumedNext(LoadString, n - i, Left(), names);
        var s := ReadText();
        if s.Failed? { return Failed(s.error); }
        us[i] := us[i].(name := s.value);
        names := names + [s.value];
      }
      EachNone(LoadString, Left());
      ResumedStart(names, all, Left());
      return Done(());
    }

    /** loadDebug. */
    method ReadDebug(p: Proto, us: array<Upvalue>) returns (r: Outcome<Proto>)
      requires pos <= |data| && p.upvalues == us[..]
      modifies this, us
      ensures Gives(r, LoadDebug(p, old(Left()))) && old(pos) <= pos
    {
      hide LoadVector, LoadInt, LoadEach;
      var info := ReadLineInfo();
      if info.Failed? { return Failed(info.error); }
      var abs := ReadAbsLines();
      if abs.Failed? { return Failed(abs.error); }
      var vars := ReadLocVars();
      if vars.Failed? { return Failed(vars.error); }
      var n := ReadInt();
      if n.Failed? { return Failed(n.error); }
      if n.value > us.Length { return Failed(PastArray); }
      var done := ReadNames(us, n.value);
      if done.Failed? { return Failed(done.error); }
      return Done(p.(lineinfo := info.value, abslineinfo := abs.value, locvars := vars.value, upvalues := us[..]));
    }

    method ReadHead(psource: Option<Bytes>) returns (r: Outcome<Proto>)
      requires pos <= |data|
      modifies this
      ensures Gives(r, LoadHead(psource, old(Left()))) && old(pos) <= pos && (r.Done? ==> old(pos) < pos)
    {
      hide LoadInt, LoadString, LoadByte;
      var src := ReadText();
      if src.Failed? { return Failed(src.error); }
      var first := ReadInt();
      if first.Failed? { return Failed(first.error); }
      var last := ReadInt();
      if last.Failed? { return Failed(last.error); }
      var np := ReadByte();
      if np.Failed? { return Failed(np.error); }
      var va := ReadByte();
      if va.Failed? { return Failed(va.error); }
      var ms := ReadByte();
      if ms.Failed? { return Failed(ms.error); }
      var source := if src.value == None then psource else src.value;
      return Done(Proto(source, first.value, last.value, np.value, va.value, ms.value, [], [], [], [], [], [], []));
    }

    /** loadFunction. */
    method ReadFunction(psource: Option<Bytes>) returns (r: Outcome<Proto>)
      requires pos <= |data|
      modifies this
      ensures Gives(r, LoadFunction(psource, old(Left()))) && old(pos) <= pos && (r.Done? ==> old(pos) < pos)
      decreases |data| - pos, 0, 0
    {
      hide LoadHead, LoadVector, LoadInt, LoadProtos, LoadDebug;
      var h := ReadHead(psource);
      if h.Failed? { return Failed(h.error); }
      var code := ReadCode();
      if code.Failed? { return Failed(code.error); }
      var k := ReadConstants();
      if k.Failed? { return Failed(k.error); }
      var us := ReadUpvalues();
      if us.Failed? { return Failed(us.error); }
      var f := h.value.(code := code.value, k := k.value, upvalues := us.value[..]);
      var n := ReadInt();
      if n.Failed? { return Failed(n.error); }
      var ps := ReadProtos(f.source, n.value);
      if ps.Failed? { return Failed(ps.error); }
      r := ReadDebug(f.(protos := ps.value), us.value);
    }

    /** loadProtos. */
    method ReadProtos(psource: Option<Bytes>, n: nat) returns (r: Outcome<seq<Proto>>)
      requires pos <= |data|
      modifies this
      ensures Gives(r, LoadProtos(psource, n, old(Left()))) && old(pos) <= pos
      decreases |data| - pos, 1, n
    {
      hide LoadFunction, Resumed;
      ghost var all := LoadProtos(psource, n, Left());
      var ps: seq<Proto> := [];
      ResumedStart(ps, all, []);
      for i := 0 to n
        invariant old(pos) <= pos <= |data| && (i > 0 ==> old(pos) < pos)
        invariant Resumed(ps, LoadProtos(psource, n - i, Left())) == all
      {
        ProtosNext(psource, n - i, Left(), ps);
        var p := ReadFunction(psource);
        if p.Failed? { return Failed(p.error); }
        ps := ps + [p.value];
      }
      ResumedStart(ps, all, Left());
      return Done(ps);
    }

    lemma ProtosNext(psource: Option<Bytes>, n: nat, s: Bytes, done: seq<Proto>)
      requires n > 0
      ensures var f := LoadFunction(psource, s);
        (f.Err? ==> Resumed(done, LoadProtos(psource, n, s)) == Err(f.error)) &&
        (f.Ok? ==>
          Resumed(done, LoadProtos(psource, n, s)) == Resumed(done + [f.value], LoadProtos(psource, n - 1, f.rest)))
    {
      hide LoadFunction;
      var f := LoadFunction(psource, s);
      if f.Ok? {
        var rest := LoadProtos(psource, n - 1, f.rest);
        if rest.Ok? { assert done + ([f.value] + rest.value) == done + [f.value] + rest.value; }
      }
    }

    /** checkliteral. */
    method MatchLiteral(lit: Bytes, what: string) returns (r: Outcome<()>)
      requires pos <= |data|
      modifies this
      ensures Gives(r, CheckLiteral(lit, what, old(Left()))) && old(pos) <= pos
    {
      hide LoadBlock;
      var b := ReadBlock(|lit|);
      if b.Failed? { return Failed(b.error); }
      r := if b.value == lit then Done(()) else Failed(BadHeader(what));
    }

    /** fchecksize, and the tests of the version and the format. */
    method MatchByte(b: Byte, what: string) returns (r: Outcome<()>)
      requires pos <= |data|
      modifies this
      ensures Gives(r, CheckByte(b, what, old(Left()))) && old(pos) <= pos
    {
      hide LoadByte;
      var c := ReadByte();
      if c.Failed? { return Failed(c.error); }
      r := if c.value == b then Done(()) else Failed(BadHeader(what));
    }

    /** checkHeader. */
    method ReadHeader(luaInt: Eight, luaNum: Eight) returns (r: Outcome<()>)
      requires pos <= |data|
      modifies this
      ensures Gives(r, CheckHeader(luaInt, luaNum, old(Left()))) && old(pos) <= pos
    {
      hide CheckLiteral, CheckByte;
      r := MatchLiteral(SIGNATURE[1..], "not a binary chunk");
      if r.Failed? { return; }
      r := MatchByte(0x54, "version mismatch");
      if r.Failed? { return; }
      r := MatchByte(0, "format mismatch");
      if r.Failed? { return; }
      r := MatchLiteral(DATA, "corrupted chunk");
      if r.Failed? { return; }
      r := MatchByte(4, "Instruction size mismatch");
      if r.Failed? { return; }
      r := MatchByte(8, "lua_Integer size mismatch");
      if r.Failed? { return; }
      r := MatchByte(8, "lua_Number size mismatch");
      if r.Failed? { return; }
      r := MatchLiteral(luaInt, "integer format mismatch");
      if r.Failed? { return; }
      r := MatchLiteral(luaNum, "float format mismatch");
    }
  }

  function Answered<T>(r: Loaded<T>): Outcome<T> {
    match r
    case Ok(v, _) => Done(v)
    case Err(e) => Failed(e)
  }

  /** luaU_undump on the chunk after its first byte. */
  method UndumpChunk(luaInt: Eight, luaNum: Eight, s: Bytes) returns (r: Outcome<(Byte, Proto)>)
    ensures r == Answered(Undump(luaInt, luaNum, s))
    ensures r.Done? ==> |s| > 30 && s[..30] == Prescribed(luaInt, luaNum)
  {
    hide CheckHeader, LoadByte, LoadFunction, Prescribed;
    HeaderChecked(luaInt, luaNum, s);
    var l := new Loader(s);
    var h := l.ReadHeader(luaInt, luaNum);
    if h.Failed? { return Failed(h.error); }
    var n := l.ReadByte();
    if n.Failed? { return Failed(n.error); }
    var p := l.ReadFunction(None);
    r := if p.Failed? then Failed(p.error) else Done((n.value, p.value));
  }
}
