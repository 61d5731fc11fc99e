/** The format of precompiled chunks: what ldump.c writes for a prototype and what lundump.c
    reads back. Fixed-size numbers are dumped as their representation in memory, so here they
    are sequences of bytes. */
module DumpFormat {
  import opened Common

  /** An instruction, and a lua_Integer or lua_Number, in memory. */
  type Four = s: Bytes | |s| == 4 witness [0, 0, 0, 0]
  type Eight = s: Bytes | |s| == 8 witness [0, 0, 0, 0, 0, 0, 0, 0]

  const INT_LIMIT := 0x7FFF_FFFF
  const SIZE_LIMIT := 0xFFFF_FFFF_FFFF_FFFF
  const MAXSHORTLEN := 40

  datatype Constant = Nil | False | True | Float(f: Eight) | Integer(i: Eight) | Str(s: Bytes)

  datatype Upvalue = Upvalue(name: Option<Bytes>, instack: Byte, idx: Byte, kind: Byte)

  datatype AbsLine = AbsLine(pc: nat, line: nat)

  datatype LocVar = LocVar(varname: Option<Bytes>, startpc: nat, endpc: nat)

  datatype Proto = Proto(
    source: Option<Bytes>,
    linedefined: nat,
    lastlinedefined: nat,
    numparams: Byte,
    isVararg: Byte,
    maxstacksize: Byte,
    code: seq<Four>,
    k: seq<Constant>,
    upvalues: seq<Upvalue>,
    protos: seq<Proto>,
    lineinfo: Bytes,
    abslineinfo: seq<AbsLine>,
    locvars: seq<LocVar>)

  // ---- what is written ----

  /** The seven-bit digits of x, the last one left out. */
  function Front(x: nat): Bytes {
    if x == 0 then [] else Front(x / 128) + [x % 128]
  }

  /** dumpSize: the last byte has its high bit set. */
  function DumpSize(x: nat): Bytes { Front(x / 128) + [x % 128 + 128] }

  /** dumpString; None is NULL. */
  function DumpString(s: Option<Bytes>): Bytes {
    match s
    case None => DumpSize(0)
    case Some(b) => DumpSize(|b| + 1) + b
  }

  function DumpEach<T>(dump: T -> Bytes, xs: seq<T>): Bytes {
    if xs == [] then [] else dump(xs[0]) + DumpEach(dump, xs[1..])
  }

  /** A vector: its length and its elements. */
  function DumpVector<T>(dump: T -> Bytes, xs: seq<T>): Bytes { DumpSize(|xs|) + DumpEach(dump, xs) }

  function DumpFour(w: Four): Bytes { w }

  function DumpByte(b: Byte): Bytes { [b] }

  /** `ttypetag`: a string has the tag of its length. */
  function Tag(c: Constant): Byte {
    match c
    case Nil => 0
    case False => 1
    case True => 17
    case Integer(_) => 3
    case Float(_) => 19
    case Str(s) => if |s| <= MAXSHORTLEN then 4 else 20
  }

  function DumpConstant(c: Constant): Bytes {
    match c
    case Float(f) => [Tag(c)] + f
    case Integer(i) => [Tag(c)] + i
    case Str(s) => [Tag(c)] + DumpString(Some(s))
    case _ => [Tag(c)]
  }

  function DumpUpvalue(u: Upvalue): Bytes { [u.instack, u.idx, u.kind] }

  function DumpAbsLine(a: AbsLine): Bytes { DumpSize(a.pc) + DumpSize(a.line) }

  function DumpLocVar(v: LocVar): Bytes { DumpString(v.varname) + (DumpSize(v.startpc) + DumpSize(v.endpc)) }

  function DumpName(u: Upvalue): Bytes { DumpString(u.name) }

  /** dumpDebug. */
  function DumpDebug(p: Proto, strip: bool): Bytes {
    if strip then DumpSize(0) + (DumpSize(0) + (DumpSize(0) + DumpSize(0)))
    else
      DumpVector(DumpByte, p.lineinfo) + (DumpVector(DumpAbsLine, p.abslineinfo) +
      (DumpVector(DumpLocVar, p.locvars) + DumpVector(DumpName, p.upvalues)))
  }

  /** The part of dumpFunction before the code. */
  function DumpHead(p: Proto, psource: Option<Bytes>, strip: bool): Bytes {
    DumpString(if strip || p.source == psource then None else p.source) +
    (DumpSize(p.linedefined) + (DumpSize(p.lastlinedefined) + [p.numparams, p.isVararg, p.maxstacksize]))
  }

  /** dumpCode, dumpConstants and dumpUpvalues. */
  function DumpBody(p: Proto): Bytes {
    DumpVector(DumpFour, p.code) + (DumpVector(DumpConstant, p.k) + DumpVector(DumpUpvalue, p.upvalues))
  }

  /** dumpFunction. */
  function DumpFunction(p: Proto, psource: Option<Bytes>, strip: bool): Bytes
    decreases p, 1, 0
  {
    DumpHead(p, psource, strip) +
    (DumpBody(p) + (DumpSize(|p.protos|) + (DumpProtos(p, 0, strip) + DumpDebug(p, strip))))
  }

  /** The loop of dumpProtos, from element i on. */
  function DumpProtos(p: Proto, i: nat, strip: bool): Bytes
    decreases p, 0, |p.protos| - i
  {
    if i >= |p.protos| then []
    else DumpFunction(p.protos[i], p.source, strip) + DumpProtos(p, i + 1, strip)
  }

  /** dumpHeader. The representations of LUAC_INT and LUAC_NUM are those of the machine. */
  function Header(luaInt: Eight, luaNum: Eight): Bytes {
    SIGNATURE + [0x54, 0] + DATA + [4, 8, 8] + luaInt + luaNum
  }

  const SIGNATURE: Bytes := [0x1B, 0x4C, 0x75, 0x61]
  const DATA: Bytes := [0x19, 0x93, 0x0D, 0x0A, 0x1A, 0x0A]

  /** luaU_dump. */
  function Dump(p: Proto, strip: bool, luaInt: Eight, luaNum: Eight): Bytes {
    Header(luaInt, luaNum) + ([|p.upvalues| % 256] + DumpFunction(p, None, strip))
  }

  // ---- what is read ----

  /** The errors of lundump.c. PastArray: the code writes past the upvalue array of the prototype,
      whose size it does not compare with the number of names. */
  datatype LoadError = Truncated | IntegerOverflow | BadString | PastArray | BadHeader(what: string)

  datatype Loaded<+T> = Ok(value: T, rest: Bytes) | Err(error: LoadError) {
    predicate IsFailure() { Err? }

    function PropagateFailure<U>(): Loaded<U>
      requires IsFailure()
    {
      Err(error)
    }

    function Extract(): (T, Bytes)
      requires !IsFailure()
    {
      (value, rest)
    }
  }

  /** What every loader promises: it never gives back more than it was given. */
  predicate Shorter<T>(r: Loaded<T>, s: Bytes) { r.Ok? ==> |r.rest| <= |s| }

  function LoadBlock(n: nat, s: Bytes): (r: Loaded<Bytes>)
    ensures Shorter(r, s)
  {
    if n > |s| then Err(Truncated) else Ok(s[..n], s[n..])
  }

  function LoadByte(s: Bytes): (r: Loaded<Byte>)
    ensures Shorter(r, s)
  {
    if s == [] then Err(Truncated) else Ok(s[0], s[1..])
  }

  /** The loop of loadUnsigned; `limit` is already shifted. */
  function LoadDigits(s: Bytes, x: nat, limit: nat): (r: Loaded<nat>)
    ensures Shorter(r, s) && (r.Ok? ==> |r.rest| < |s|)
  {
    if s == [] then Err(Truncated)
    else if x >= limit then Err(IntegerOverflow)
    else
      var y := x * 128 + s[0] % 128;
      if s[0] >= 128 then Ok(y, s[1..]) else LoadDigits(s[1..], y, limit)
  }

  /** loadUnsigned. */
  function LoadUnsigned(s: Bytes, limit: nat): (r: Loaded<nat>)
    ensures Shorter(r, s) && (r.Ok? ==> |r.rest| < |s|)
  {
    LoadDigits(s, 0, limit / 128)
  }

  function LoadInt(s: Bytes): (r: Loaded<nat>)
    ensures Shorter(r, s) && (r.Ok? ==> |r.rest| < |s|)
  {
    LoadUnsigned(s, INT_LIMIT)
  }

  /** loadStringN. */
  function LoadString(s: Bytes): (r: Loaded<Option<Bytes>>)
    ensures Shorter(r, s) && (r.Ok? ==> |r.rest| < |s|)
  {
    var (size, s1) :- LoadUnsigned(s, SIZE_LIMIT);
    if size == 0 then Ok(None, s1)
    else var (b, s2) :- LoadBlock(size - 1, s1); Ok(Some(b), s2)
  }

  function LoadEach<T(!new)>(load: Bytes -> Loaded<T>, n: nat, s: Bytes): (r: Loaded<seq<T>>)
    requires forall t :: Shorter(load(t), t)
    ensures Shorter(r, s) && (r.Ok? ==> |r.value| == n)
    decreases n
  {
    if n == 0 then Ok([], s)
    else
      var (x, s1) :- load(s);
      var (xs, s2) :- LoadEach(load, n - 1, s1);
      Ok([x] + xs, s2)
  }

  function LoadVector<T(!new)>(load: Bytes -> Loaded<T>, s: Bytes): (r: Loaded<seq<T>>)
    requires forall t :: Shorter(load(t), t)
    ensures Shorter(r, s)
  {
    var (n, s1) :- LoadInt(s);
    LoadEach(load, n, s1)
  }

  function LoadFour(s: Bytes): (r: Loaded<Four>)
    ensures Shorter(r, s)
  {
    var (b, s1) :- LoadBlock(4, s);
    Ok(b, s1)
  }

  function LoadEight(s: Bytes): (r: Loaded<Eight>)
    ensures Shorter(r, s)
  {
    var (b, s1) :- LoadBlock(8, s);
    Ok(b, s1)
  }

  /** One round of loadConstants; an unknown tag leaves the nil of the initialization. */
  function LoadConstant(s: Bytes): (r: Loaded<Constant>)
    ensures Shorter(r, s)
  {
    var (t, s1) :- LoadByte(s);
    if t == 1 then Ok(False, s1)
    else if t == 17 then Ok(True, s1)
    else if t == 19 then var (f, s2) :- LoadEight(s1); Ok(Float(f), s2)
    else if t == 3 then var (i, s2) :- LoadEight(s1); Ok(Integer(i), s2)
    else if t == 4 || t == 20 then
      var (o, s2) :- LoadString(s1);
      if o == None then Err(BadString) else Ok(Str(o.value), s2)
    else Ok(Nil, s1)
  }

  /** One round of loadUpvalues; the name comes later. */
  function LoadUpvalue(s: Bytes): (r: Loaded<Upvalue>)
    ensures Shorter(r, s)
  {
    var (a, s1) :- LoadByte(s);
    var (b, s2) :- LoadByte(s1);
    var (c, s3) :- LoadByte(s2);
    Ok(Upvalue(None, a, b, c), s3)
  }

  function LoadAbsLine(s: Bytes): (r: Loaded<AbsLine>)
    ensures Shorter(r, s)
  {
    var (pc, s1) :- LoadInt(s);
    var (line, s2) :- LoadInt(s1);
    Ok(AbsLine(pc, line), s2)
  }

  function LoadLocVar(s: Bytes): (r: Loaded<LocVar>)
    ensures Shorter(r, s)
  {
    var (name, s1) :- LoadString(s);
    var (a, s2) :- LoadInt(s1);
    var (b, s3) :- LoadInt(s2);
    Ok(LocVar(name, a, b), s3)
  }

  /** The names that were loaded, the others still NULL. */
  function Named(us: seq<Upvalue>, names: seq<Option<Bytes>>): (r: seq<Upvalue>)
    requires |names| <= |us|
    ensures |r| == |us|
    ensures forall i :: 0 <= i < |us| ==> r[i] == if i < |names| then us[i].(name := names[i]) else us[i]
  {
    seq(|us|, i requires 0 <= i < |us| => if i < |names| then us[i].(name := names[i]) else us[i])
  }

  /** loadDebug, for a prototype whose upvalues are loaded. */
  function LoadDebug(p: Proto, s: Bytes): (r: Loaded<Proto>)
    ensures Shorter(r, s)
  {
    var (info, s1) :- LoadVector(LoadByte, s);
    var (abs, s2) :- LoadVector(LoadAbsLine, s1);
    var (vars, s3) :- LoadVector(LoadLocVar, s2);
    var (n, s4) :- LoadInt(s3);
    if n > |p.upvalues| then Err(PastArray)
    else
      var (names, s5) :- LoadEach(LoadString, n, s4);
      Ok(p.(lineinfo := info, abslineinfo := abs, locvars := vars, upvalues := Named(p.upvalues, names)), s5)
  }

  /** The part of loadFunction before the code. */
  function LoadHead(psource: Option<Bytes>, s: Bytes): (r: Loaded<Proto>)
    ensures Shorter(r, s) && (r.Ok? ==> |r.rest| < |s|)
  {
    var (src, s1) :- LoadString(s);
    var (first, s2) :- LoadInt(s1);
    var (last, s3) :- LoadInt(s2);
    var (np, s4) :- LoadByte(s3);
    var (va, s5) :- LoadByte(s4);
    var (ms, s6) :- LoadByte(s5);
    Ok(Proto(if src == None then psource else src, first, last, np, va, ms, [], [], [], [], [], [], []), s6)
  }

  /** loadCode, loadConstants and loadUpvalues. */
  function LoadBody(p: Proto, s: Bytes): (r: Loaded<Proto>)
    ensures Shorter(r, s) && (r.Ok? ==> r.value == p.(code := r.value.code, k := r.value.k, upvalues := r.value.upvalues))
  {
    var (code, s1) :- LoadVector(LoadFour, s);
    var (k, s2) :- LoadVector(LoadConstant, s1);
    var (us, s3) :- LoadVector(LoadUpvalue, s2);
    Ok(p.(code := code, k := k, upvalues := us), s3)
  }

  /** loadFunction. */
  function LoadFunction(psource: Option<Bytes>, s: Bytes): (r: Loaded<Proto>)
    ensures Shorter(r, s) && (r.Ok? ==> |r.rest| < |s|)
    decreases |s|, 0, 0
  {
    var (h, s1) :- LoadHead(psource, s);
    var (b, s2) :- LoadBody(h, s1);
    var (n, s3) :- LoadInt(s2);
    var (ps, s4) :- LoadProtos(b.source, n, s3);
    LoadDebug(b.(protos := ps), s4)
  }

  /** The loop of loadProtos. */
  function LoadProtos(psource: Option<Bytes>, n: nat, s: Bytes): (r: Loaded<seq<Proto>>)
    ensures Shorter(r, s)
    decreases |s|, 1, n
  {
    if n == 0 then Ok([], s)
    else
      var (p, s1) :- LoadFunction(psource, s);
      var (ps, s2) :- LoadProtos(psource, n - 1, s1);
      Ok([p] + ps, s2)
  }

  /** checkliteral. */
  function CheckLiteral(lit: Bytes, what: string, s: Bytes): (r: Loaded<()>) {
    var (b, s1) :- LoadBlock(|lit|, s);
    if b == lit then Ok((), s1) else Err(BadHeader(what))
  }

  function CheckByte(b: Byte, what: string, s: Bytes): (r: Loaded<()>) {
    var (c, s1) :- LoadByte(s);
    if c == b then Ok((), s1) else Err(BadHeader(what))
  }

  /** checkHeader; the first byte of the chunk was read before. */
  function CheckHeader(luaInt: Eight, luaNum: Eight, s: Bytes): (r: Loaded<()>) {
    var (_, s1) :- CheckLiteral(SIGNATURE[1..], "not a binary chunk", s);
    var (_, s2) :- CheckByte(0x54, "version mismatch", s1);
    var (_, s3) :- CheckByte(0, "format mismatch", s2);
    var (_, s4) :- CheckLiteral(DATA, "corrupted chunk", s3);
    var (_, s5) :- CheckByte(4, "Instruction size mismatch", s4);
    var (_, s6) :- CheckByte(8, "lua_Integer size mismatch", s5);
    var (_, s7) :- CheckByte(8, "lua_Number size mismatch", s6);
    var (_, s8) :- CheckLiteral(luaInt, "integer format mismatch", s7);
    CheckLiteral(luaNum, "float format mismatch", s8)
  }

  /** luaU_undump: the number of upvalues of the closure, and the prototype. */
  function Undump(luaInt: Eight, luaNum: Eight, s: Bytes): Loaded<(Byte, Proto)> {
    var (_, s1) :- CheckHeader(luaInt, luaNum, s);
    var (n, s2) :- LoadByte(s1);
    var (p, s3) :- LoadFunction(None, s2);
    Ok((n, p), s3)
  }
}
