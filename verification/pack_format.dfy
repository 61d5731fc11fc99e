/** string.pack, string.unpack and string.packsize (lstrlib.c): the reading of format strings,
    integers of any size and byte order, and the three loops as functions. The machine has 8-byte
    lua_Integer, long and size_t, 4-byte int and 2-byte short; floats are not part of the model. */
module PackFormat {
  import opened Common
  import opened Results

  const MAXINTSIZE := 16
  const SZINT := 8
  const MAXALIGN := 8
  const MAXSIZE := 0x7FFF_FFFF
  const WORD := 0x1_0000_0000_0000_0000
  const HALF := 0x8000_0000_0000_0000

  type LuaInteger = x: int | -HALF <= x < HALF

  /** A string is never longer than a lua_Integer can count. */
  type LuaString = s: Bytes | |s| < HALF witness []

  datatype Value = Int(i: LuaInteger) | Str(s: LuaString)

  datatype Error =
    | SizeOutOfLimits | MissingSize | BadOption | FloatOption | BadNextOption | AlignNotPowerOf2
    | NoArgument | WrongType | IntOverflow | StringTooLong | LengthOverflow | StringHasZeros
    | DataTooShort | DoesNotFit | Unfinished | BlockTooBig | VariableLength | ResultTooLarge

  type Packing<+T> = Result<T, Error>

  /** Header: `native` is the byte order of the machine. */
  datatype Header = Header(native: bool, little: bool, maxalign: nat)

  function InitHeader(native: bool): Header { Header(native, native, 1) }

  datatype Kind = Kint | Kuint | Kchar | Kstring | Kzstr | Kpadding | Kpaddalign | Knop

  // ---- options ----

  /** The format ends at its first zero. */
  predicate AtEnd(fmt: Bytes) { fmt == [] || fmt[0] == 0 }

  predicate Digit(fmt: Bytes) { fmt != [] && 48 <= fmt[0] <= 57 }

  /** The loop of getnum: it stops before the number could overflow an int. */
  function Digits(fmt: Bytes, a: nat): (r: (nat, Bytes))
    requires Digit(fmt) && a <= (MAXSIZE - 9) / 10
    ensures r.0 <= MAXSIZE && |r.1| < |fmt|
  {
    var b := a * 10 + (fmt[0] - 48);
    if Digit(fmt[1..]) && b <= (MAXSIZE - 9) / 10 then Digits(fmt[1..], b) else (b, fmt[1..])
  }

  /** getnum. */
  function GetNum(fmt: Bytes, df: int): (r: (int, Bytes))
    requires -1 <= df <= MAXSIZE
    ensures -1 <= r.0 <= MAXSIZE && |r.1| <= |fmt| && (r.0 == -1 ==> df == -1)
  {
    if Digit(fmt) then Digits(fmt, 0) else (df, fmt)
  }

  /** getnumlimit. */
  function GetNumLimit(fmt: Bytes, df: int): (r: Packing<(nat, Bytes)>)
    requires 0 < df <= MAXSIZE
    ensures r.Ok? ==> 0 < r.value.0 <= MAXINTSIZE && |r.value.1| <= |fmt|
  {
    var (sz, rest) := GetNum(fmt, df);
    if sz > MAXINTSIZE || sz <= 0 then Err(SizeOutOfLimits) else Ok((sz, rest))
  }

  datatype Opt = Opt(kind: Kind, size: nat, h: Header, rest: Bytes)

  function Sized(kind: Kind, h: Header, fmt: Bytes, df: int): (r: Packing<Opt>)
    requires 0 < df <= MAXINTSIZE
    ensures r.Ok? ==> r.value.kind == kind && 0 < r.value.size <= MAXINTSIZE && r.value.h == h && |r.value.rest| <= |fmt|
  {
    var (sz, rest) :- GetNumLimit(fmt, df);
    Ok(Opt(kind, sz, h, rest))
  }

  predicate HeaderOk(h: Header) { 1 <= h.maxalign <= MAXINTSIZE }

  /** getoption. */
  function GetOption(h: Header, fmt: Bytes): (r: Packing<Opt>)
    requires fmt != []
    ensures r.Ok? ==> |r.value.rest| < |fmt| && (HeaderOk(h) ==> HeaderOk(r.value.h))
    ensures r.Ok? ==> r.value.size <= if r.value.kind == Kchar then MAXSIZE else MAXINTSIZE
    ensures r.Ok? && r.value.kind in {Kint, Kuint, Kstring} ==> r.value.size > 0
    ensures r.Ok? && r.value.kind in {Kzstr, Kpaddalign, Knop} ==> r.value.size == 0
    ensures r.Ok? && r.value.kind == Kpadding ==> r.value.size == 1
  {
    var rest := fmt[1..];
    match fmt[0] as char
    case 'b' => Ok(Opt(Kint, 1, h, rest))
    case 'B' => Ok(Opt(Kuint, 1, h, rest))
    case 'h' => Ok(Opt(Kint, 2, h, rest))
    case 'H' => Ok(Opt(Kuint, 2, h, rest))
    case 'l' => Ok(Opt(Kint, 8, h, rest))
    case 'L' => Ok(Opt(Kuint, 8, h, rest))
    case 'j' => Ok(Opt(Kint, SZINT, h, rest))
    case 'J' => Ok(Opt(Kuint, SZINT, h, rest))
    case 'T' => Ok(Opt(Kuint, 8, h, rest))
    case 'f' => Err(FloatOption)
    case 'd' => Err(FloatOption)
    case 'n' => Err(FloatOption)
    case 'i' => Sized(Kint, h, rest, 4)
    case 'I' => Sized(Kuint, h, rest, 4)
    case 's' => Sized(Kstring, h, rest, 8)
    case 'c' =>
      var (sz, after) := GetNum(rest, -1);
      if sz == -1 then Err(MissingSize) else Ok(Opt(Kchar, sz, h, after))
    case 'z' => Ok(Opt(Kzstr, 0, h, rest))
    case 'x' => Ok(Opt(Kpadding, 1, h, rest))
    case 'X' => Ok(Opt(Kpaddalign, 0, h, rest))
    case ' ' => Ok(Opt(Knop, 0, h, rest))
    case '<' => Ok(Opt(Knop, 0, h.(little := true), rest))
    case '>' => Ok(Opt(Knop, 0, h.(little := false), rest))
    case '=' => Ok(Opt(Knop, 0, h.(little := h.native), rest))
    case '!' =>
      var (sz, after) :- GetNumLimit(rest, MAXALIGN);
      Ok(Opt(Knop, 0, h.(maxalign := sz), after))
    case _ => Err(BadOption)
  }

  datatype Details = Details(kind: Kind, size: nat, pad: nat, h: Header, rest: Bytes)

  predicate PowerOf2(a: nat) { a in {1, 2, 4, 8, 16} }

  /** The option that gives 'X' its alignment. */
  function NextAlign(h: Header, fmt: Bytes): (r: Packing<Opt>)
    ensures r.Ok? ==> |r.value.rest| <= |fmt| && (HeaderOk(h) ==> HeaderOk(r.value.h)) && 0 < r.value.size <= MAXINTSIZE
  {
    if AtEnd(fmt) then Err(BadNextOption)
    else
      var o :- GetOption(h, fmt);
      if o.kind == Kchar || o.size == 0 then Err(BadNextOption) else Ok(o)
  }

  /** getdetails. For a power of two, & (align - 1) is the remainder. */
  function GetDetails(h: Header, total: nat, fmt: Bytes): (r: Packing<Details>)
    requires fmt != [] && HeaderOk(h)
    ensures r.Ok? ==> |r.value.rest| < |fmt| && HeaderOk(r.value.h) && r.value.pad < MAXINTSIZE
    ensures r.Ok? ==> r.value.size <= if r.value.kind == Kchar then MAXSIZE else MAXINTSIZE
    ensures r.Ok? && r.value.kind in {Kint, Kuint, Kstring} ==> r.value.size > 0
    ensures r.Ok? && r.value.kind in {Kzstr, Kpaddalign, Knop} ==> r.value.size == 0
    ensures r.Ok? && r.value.kind == Kpadding ==> r.value.size == 1
  {
    var o :- GetOption(h, fmt);
    var next :- if o.kind == Kpaddalign then NextAlign(o.h, o.rest) else Ok(o);
    if next.size <= 1 || o.kind == Kchar then Ok(Details(o.kind, o.size, 0, next.h, next.rest))
    else
      var align := if next.size > next.h.maxalign then next.h.maxalign else next.size;
      if !PowerOf2(align) then Err(AlignNotPowerOf2)
      else Ok(Details(o.kind, o.size, (align - total % align) % align, next.h, next.rest))
  }

  // ---- integers ----

  /** The low `size` bytes of n, the lowest first. */
  function Little(n: nat, size: nat): (b: Bytes)
    ensures |b| == size
  {
    if size == 0 then [] else [n % 256] + Little(n / 256, size - 1)
  }

  function Reversed(b: Bytes): (r: Bytes)
    ensures |r| == |b| && forall i :: 0 <= i < |b| ==> r[i] == b[|b| - 1 - i]
  {
    seq(|b|, i requires 0 <= i < |b| => b[|b| - 1 - i])
  }

  function Fill(n: nat, b: Byte): (r: Bytes)
    ensures |r| == n && forall i :: 0 <= i < n ==> r[i] == b
  {
    seq(n, _ => b)
  }

  /** The cast of a lua_Integer to lua_Unsigned, and back. */
  function Unsigned(i: LuaInteger): nat { if i < 0 then i + WORD else i }

  function Signed(u: nat): LuaInteger
    requires u < WORD
  {
    if u >= HALF then u - WORD else u
  }

  function Ordered(b: Bytes, little: bool): (r: Bytes)
    ensures |r| == |b|
  {
    if little then b else Reversed(b)
  }

  /** packint: n has 64 bits, and the bytes after these extend the sign. */
  function PackInt(n: nat, little: bool, size: nat, neg: bool): (b: Bytes)
    ensures |b| == size
  {
    Ordered(if size <= SZINT then Little(n, size) else Little(n, SZINT) + Fill(size - SZINT, if neg then 0xFF else 0), little)
  }

  function FromLittle(b: Bytes): (n: nat) {
    if b == [] then 0 else b[0] + 256 * FromLittle(b[1..])
  }

  lemma {:induction false} FromLittleBound(b: Bytes)
    ensures FromLittle(b) < Pow256(|b|)
    decreases |b|
  {
    if b != [] { FromLittleBound(b[1..]); }
  }

  function Pow256(k: nat): (p: int)
    ensures p > 0
  {
    if k == 0 then 1 else 256 * Pow256(k - 1)
  }

  lemma Pow256Word()
    ensures Pow256(8) == WORD
  {
    assert Pow256(2) == 0x1_0000;
    assert Pow256(4) == 0x1_0000_0000;
    assert Pow256(6) == 0x1_0000_0000_0000;
  }

  /** The bytes after the eighth, lowest first, all have this value. */
  predicate Rest(b: Bytes, mask: Byte) { forall i :: SZINT <= i < |b| ==> b[i] == mask }

  /** unpackint on the bytes of the item. */
  function UnpackInt(data: Bytes, little: bool, signed: bool): Packing<LuaInteger> {
    var b, size := Ordered(data, little), |data|;
    var res := FromLittle(if size <= SZINT then b else b[..SZINT]);
    if size < SZINT then
      assert res < HALF by { SmallValue(b); }
      Ok(if signed && 2 * res >= Pow256(size) then res - Pow256(size) else res)
    else
      assert res < WORD by { Pow256Word(); FromLittleBound(b[..SZINT]); assert b[..|b|] == b; }
      if size > SZINT && !Rest(b, if !signed || Signed(res) >= 0 then 0 else 0xFF) then Err(DoesNotFit)
      else Ok(Signed(res))
  }

  lemma SmallValue(b: Bytes)
    requires |b| < SZINT
    ensures FromLittle(b) < Pow256(|b|) && 256 * Pow256(|b|) <= WORD
  {
    FromLittleBound(b);
    Pow256Word();
    Pow256Monotone(|b|, 7);
  }

  lemma {:induction false} Pow256Monotone(i: nat, k: nat)
    requires i <= k
    ensures Pow256(i) <= Pow256(k)
    decreases k
  {
    if i < k { Pow256Monotone(i, k - 1); }
  }

  // ---- packing ----

  predicate TakesArgument(k: Kind) { k in {Kint, Kuint, Kchar, Kstring, Kzstr} }

  /** The bytes of one argument. */
  function PackItem(d: Details, v: Value): (r: Packing<Bytes>) {
    match d.kind
    case Kint =>
      if !v.Int? then Err(WrongType)
      else if d.size < SZINT && !(-Pow256(d.size) <= 2 * v.i < Pow256(d.size)) then Err(IntOverflow)
      else Ok(PackInt(Unsigned(v.i), d.h.little, d.size, v.i < 0))
    case Kuint =>
      if !v.Int? then Err(WrongType)
      else if d.size < SZINT && Unsigned(v.i) >= Pow256(d.size) then Err(IntOverflow)
      else Ok(PackInt(Unsigned(v.i), d.h.little, d.size, false))
    case Kchar =>
      if !v.Str? then Err(WrongType)
      else if |v.s| > d.size then Err(StringTooLong)
      else Ok(v.s + Fill(d.size - |v.s|, 0))
    case Kstring =>
      if !v.Str? then Err(WrongType)
      else if d.size < SZINT && |v.s| >= Pow256(d.size) then Err(LengthOverflow)
      else Ok(PackInt(|v.s|, d.h.little, d.size, false) + v.s)
    case Kzstr =>
      if !v.Str? then Err(WrongType)
      else if 0 in v.s then Err(StringHasZeros)
      else Ok(v.s + [0])
    case _ => Err(NoArgument)
  }

  /** An argument that was packed, and the option that took it. */
  datatype Item = Item(kind: Kind, size: nat, v: Value)

  datatype Packed = Packed(bytes: Bytes, items: seq<Item>)

  /** What an option adds in front of the rest. */
  function Prepend(pad: nat, b: Bytes, one: seq<Item>, p: Packed): Packed {
    Packed(Fill(pad, 0) + b + p.bytes, one + p.items)
  }

  /** The rest of str_pack, with `total` bytes written already. */
  function PackFrom(h: Header, total: nat, fmt: Bytes, args: seq<Value>): Packing<Packed>
    requires HeaderOk(h)
    decreases |fmt|
  {
    if AtEnd(fmt) then Ok(Packed([], []))
    else
      var d :- GetDetails(h, total, fmt);
      if TakesArgument(d.kind) then
        if args == [] then Err(NoArgument)
        else
          var b :- PackItem(d, args[0]);
          var p :- PackFrom(d.h, total + d.pad + |b|, d.rest, args[1..]);
          Ok(Prepend(d.pad, b, [Item(d.kind, d.size, args[0])], p))
      else
        var p :- PackFrom(d.h, total + d.pad + d.size, d.rest, args);
        Ok(Prepend(d.pad, Fill(d.size, 0), [], p))
  }

  /** str_pack. */
  function Pack(native: bool, fmt: Bytes, args: seq<Value>): Packing<Packed> {
    PackFrom(InitHeader(native), 0, fmt, args)
  }

  /** str_packsize. */
  function PackSizeFrom(h: Header, total: nat, fmt: Bytes): Packing<nat>
    requires HeaderOk(h)
    decreases |fmt|
  {
    if AtEnd(fmt) then Ok(total)
    else
      var d :- GetDetails(h, total, fmt);
      if d.kind == Kstring || d.kind == Kzstr then Err(VariableLength)
      else if total > MAXSIZE - (d.size + d.pad) then Err(ResultTooLarge)
      else PackSizeFrom(d.h, total + d.size + d.pad, d.rest)
  }

  function PackSize(native: bool, fmt: Bytes): Packing<nat> { PackSizeFrom(InitHeader(native), 0, fmt) }

  // ---- unpacking ----

  /** strlen: the bytes before the first zero; there is one after the last byte of a string. */
  function StrLen(s: Bytes): (n: nat)
    ensures n <= |s| && (forall i :: 0 <= i < n ==> s[i] != 0) && (n < |s| ==> s[n] == 0)
  {
    if s == [] || s[0] == 0 then 0 else 1 + StrLen(s[1..])
  }

  /** The cast of a size_t to int and back. */
  function ThroughInt(n: nat): nat {
    var m := n % 0x1_0000_0000;
    if m < 0x8000_0000 then m else WORD - 0x1_0000_0000 + m
  }

  datatype Read = Read(v: Value, next: nat)

  /** One item at position p, after the padding; there are d.size bytes for it. */
  function UnpackItem(d: Details, data: LuaString, p: nat): (r: Packing<Read>)
    requires p + d.size <= |data| && TakesArgument(d.kind) && (d.kind == Kzstr ==> d.size == 0)
    ensures r.Ok? ==> p <= r.value.next <= |data|
  {
    var bytes := data[p..p + d.size];
    if d.kind == Kchar then Ok(Read(Str(bytes), p + d.size))
    else if d.kind == Kstring then
      var n :- UnpackInt(bytes, d.h.little, false);
      var len := Unsigned(n);
      if len > |data| - p - d.size then Err(DataTooShort)
      else Ok(Read(Str(data[p + d.size..p + d.size + len]), p + d.size + len))
    else if d.kind == Kzstr then
      var len := ThroughInt(StrLen(data[p..]));
      if (p + len) % WORD >= |data| then Err(Unfinished)
      else if len >= HALF then Err(BlockTooBig)
      else Ok(Read(Str(data[p..p + len]), p + len + 1))
    else
      var i :- UnpackInt(bytes, d.h.little, d.kind == Kint);
      Ok(Read(Int(i), p + d.size))
  }

  /** The rest of str_unpack from position pos (counted from 0): the values, and the position
      after them (counted from 1). */
  function UnpackFrom(h: Header, data: LuaString, pos: nat, fmt: Bytes): Packing<(seq<Value>, nat)>
    requires HeaderOk(h) && pos <= |data|
    decreases |fmt|
  {
    if AtEnd(fmt) then Ok(([], pos + 1))
    else
      var d :- GetDetails(h, pos, fmt);
      if d.pad + d.size > |data| - pos then Err(DataTooShort)
      else if TakesArgument(d.kind) then
        var r :- UnpackItem(d, data, pos + d.pad);
        var (vs, next) :- UnpackFrom(d.h, data, r.next, d.rest);
        Ok(([r.v] + vs, next))
      else UnpackFrom(d.h, data, pos + d.pad + d.size, d.rest)
  }

  /** str_unpack from the first byte. */
  function Unpack(native: bool, fmt: Bytes, data: LuaString): Packing<(seq<Value>, nat)> {
    UnpackFrom(InitHeader(native), data, 0, fmt)
  }
}
