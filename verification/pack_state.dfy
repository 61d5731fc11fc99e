/** The loops of string.pack, string.unpack and string.packsize as code that moves through the
    format and the buffers; every method is tied to the function of PackFormat. */
module PackState {
  import opened Common
  import opened Results
  import opened PackFormat

  /** The format pointer and the header, which the options change. */
  class FormatReader {
    const fmt: Bytes
    var pos: nat
    var h: Header

    ghost predicate Valid()
      reads this
    {
      pos <= |fmt| && HeaderOk(h)
    }

    function Left(): Bytes
      requires pos <= |fmt|
      reads this`pos
    {
      fmt[pos..]
    }

    /** initheader. */
    constructor (native: bool, fmt: Bytes)
      ensures Valid() && Left() == fmt && h == InitHeader(native) && this.fmt == fmt
    {
      this.fmt := fmt;
      pos, h := 0, InitHeader(native);
    }

    method Done() returns (end: bool)
      requires Valid()
      ensures end == AtEnd(Left())
    {
      end := pos == |fmt| || fmt[pos] == 0;
    }

    method IsDigit() returns (digit: bool)
      requires Valid()
      ensures digit == Digit(Left())
    {
      digit := pos < |fmt| && 48 <= fmt[pos] <= 57;
    }

    /** getnum. */
    method GetNumber(df: int) returns (a: int)
      requires Valid() && -1 <= df <= MAXSIZE
      modifies this`pos
      ensures Valid() && old(pos) <= pos && (a, Left()) == GetNum(old(Left()), df)
    {
      var digit := IsDigit();
      if !digit { return df; }
      ghost var start := Left();
      a := 0;
      while digit && a <= (MAXSIZE - 9) / 10
        invariant Valid() && old(pos) <= pos && 0 <= a <= MAXSIZE && digit == Digit(Left())
        invariant GetNum(start, df) == if digit && a <= (MAXSIZE - 9) / 10 then Digits(Left(), a) else (a, Left())
        decreases |fmt| - pos
      {
        assert Left()[1..] == fmt[pos + 1..];
        a := a * 10 + (fmt[pos] - 48);
        pos := pos + 1;
        digit := IsDigit();
      }
    }

    /** getnumlimit. */
    method GetNumberLimit(df: nat) returns (r: Packing<nat>)
      requires Valid() && 0 < df <= MAXINTSIZE
      modifies this`pos
      ensures Valid() && old(pos) <= pos
      ensures match GetNumLimit(old(Left()), df)
              case Ok(p) => r == Ok(p.0) && Left() == p.1
              case Err(e) => r == Err(e)
    {
      var sz := GetNumber(df);
      if sz > MAXINTSIZE || sz <= 0 { return Err(SizeOutOfLimits); }
      return Ok(sz);
    }

    /** What getoption answers besides the new header. */
    ghost predicate Answer(r: Packing<(Kind, nat)>, o: Packing<Opt>)
      requires pos <= |fmt|
      reads this
    {
      match o
      case Ok(v) => r == Ok((v.kind, v.size)) && Left() == v.rest && h == v.h
      case Err(e) => r == Err(e)
    }

    /** getoption. */
    method ReadOption() returns (r: Packing<(Kind, nat)>)
      requires Valid() && pos < |fmt|
      modifies this
      ensures Valid() && old(pos) <= pos && Answer(r, GetOption(old(h), old(Left())))
    {
      assert Left()[1..] == fmt[pos + 1..];
      var opt := fmt[pos] as char;
      pos := pos + 1;
      match opt {
        case 'b' => return Ok((Kint, 1));
        case 'B' => return Ok((Kuint, 1));
        case 'h' => return Ok((Kint, 2));
        case 'H' => return Ok((Kuint, 2));
        case 'l' => return Ok((Kint, 8));
        case 'L' => return Ok((Kuint, 8));
        case 'j' => return Ok((Kint, SZINT));
        case 'J' => return Ok((Kuint, SZINT));
        case 'T' => return Ok((Kuint, 8));
        case 'f' => return Err(FloatOption);
        case 'd' => return Err(FloatOption);
        case 'n' => return Err(FloatOption);
        case 'i' => r := ReadSized(Kint, 4);
        case 'I' => r := ReadSized(Kuint, 4);
        case 's' => r := ReadSized(Kstring, 8);
        case 'c' =>
          var sz := GetNumber(-1);
          return if sz == -1 then Err(MissingSize) else Ok((Kchar, sz));
        case 'z' => return Ok((Kzstr, 0));
        case 'x' => return Ok((Kpadding, 1));
        case 'X' => return Ok((Kpaddalign, 0));
        case ' ' => return Ok((Knop, 0));
        case '<' => h := h.(little := true); return Ok((Knop, 0));
        case '>' => h := h.(little := false); return Ok((Knop, 0));
        case '=' => h := h.(little := h.native); return Ok((Knop, 0));
        case '!' =>
          var n := GetNumberLimit(MAXALIGN);
          if n.Err? { return Err(n.error); }
          h := h.(maxalign := n.value);
          return Ok((Knop, 0));
        case _ => return Err(BadOption);
      }
    }

    method ReadSized(kind: Kind, df: nat) returns (r: Packing<(Kind, nat)>)
      requires Valid() && 0 < df <= MAXINTSIZE
      modifies this`pos
      ensures Valid() && old(pos) <= pos && Answer(r, Sized(kind, h, old(Left()), df))
    {
      var n := GetNumberLimit(df);
      r := if n.Err? then Err(n.error) else Ok((kind, n.value));
    }

    /** getdetails. */
    method ReadDetails(total: nat) returns (r: Packing<Details>)
      requires Valid() && pos < |fmt|
      modifies this
      ensures Valid() && r == GetDetails(old(h), total, old(Left()))
      ensures r.Ok? ==> Left() == r.value.rest && h == r.value.h && old(pos) < pos
    {
      hide GetOption;
      var o := ReadOption();
      if o.Err? { return Err(o.error); }
      var (kind, size) := o.value;
      var align := size;
      if kind == Kpaddalign {
        if pos == |fmt| || fmt[pos] == 0 { return Err(BadNextOption); }
        var next := ReadOption();
        if next.Err? { return Err(next.error); }
        if next.value.0 == Kchar || next.value.1 == 0 { return Err(BadNextOption); }
        align := next.value.1;
      }
      var pad := 0;
      if align > 1 && kind != Kchar {
        if align > h.maxalign { align := h.maxalign; }
        if !PowerOf2(align) { return Err(AlignNotPowerOf2); }
        pad := (align - total % align) % align;
      }
      return Ok(Details(kind, size, pad, h, Left()));
    }
  }

  /** Byte k of a number in a buffer, counted from its low end. */
  function ByteAt(s: Bytes, little: bool, k: nat): Byte
    requires k < |s|
  {
    s[if little then k else |s| - 1 - k]
  }

  lemma ByteSet(s: Bytes, little: bool, i: nat, v: Byte, t: Bytes)
    requires i < |s| && t == s[(if little then i else |s| - 1 - i) := v]
    ensures forall k :: 0 <= k < |s| ==> ByteAt(t, little, k) == if k == i then v else ByteAt(s, little, k)
  {
  }

  /** packint: the low byte first, whatever end of the buffer that is; the bytes past a
      lua_Integer are corrected afterwards. */
  method PackInteger(num: nat, little: bool, size: nat, neg: bool) returns (buff: array<Byte>)
    requires 0 < size && num < WORD
    ensures fresh(buff) && buff[..] == PackInt(num, little, size, neg)
  {
    hide ByteAt, PackInt;
    buff := new Byte[size](_ => 0);
    var n := num;
    ghost var b := Little(num, size);
    ghost var was := buff[..];
    buff[if little then 0 else size - 1] := n % 256;
    LittleAt(num, size, 0);
    ByteSet(was, little, 0, n % 256, buff[..]);
    var i := 1;
    while i < size
      invariant 1 <= i <= size && buff.Length == size && fresh(buff) && n == Shifted(num, i - 1)
      invariant forall k :: 0 <= k < i ==> ByteAt(buff[..], little, k) == b[k]
    {
      n := n / 256;
      LittleAt(num, size, i);
      was := buff[..];
      buff[if little then i else size - 1 - i] := n % 256;
      ByteSet(was, little, i, n % 256, buff[..]);
      i := i + 1;
    }
    if neg && size > SZINT {
      i := SZINT;
      while i < size
        invariant SZINT <= i <= size && buff.Length == size && fresh(buff)
        invariant forall k :: 0 <= k < size ==> ByteAt(buff[..], little, k) == if SZINT <= k < i then 0xFF else b[k]
      {
        was := buff[..];
        buff[if little then i else size - 1 - i] := 0xFF;
        ByteSet(was, little, i, 0xFF, buff[..]);
        i := i + 1;
      }
    }
    PackedBytes(num, little, size, neg, buff[..]);
  }

  /** num >> (8 * k). */
  function Shifted(num: nat, k: nat): nat { if k == 0 then num else Shifted(num, k - 1) / 256 }

  lemma {:induction false} ShiftedFirst(num: nat, k: nat)
    requires k > 0
    ensures Shifted(num, k) == Shifted(num / 256, k - 1)
    decreases k
  {
    if k > 1 { ShiftedFirst(num, k - 1); }
  }

  lemma {:induction false} LittleAt(num: nat, size: nat, k: nat)
    requires k < size
    ensures Little(num, size)[k] == Shifted(num, k) % 256
    decreases size
  {
    if k > 0 {
      ShiftedFirst(num, k);
      LittleAt(num / 256, size - 1, k - 1);
    }
  }

  lemma {:induction false} ShiftedBound(num: nat, k: nat)
    requires num < WORD && k <= SZINT
    ensures Shifted(num, k) < Pow256(SZINT - k)
    decreases k
  {
    if k == 0 { Pow256Word(); } else { ShiftedBound(num, k - 1); }
  }

  lemma {:induction false} ShiftedSmall(num: nat, k: nat)
    requires num < WORD && k >= SZINT
    ensures Shifted(num, k) == 0
    decreases k
  {
    if k == SZINT { ShiftedBound(num, k); } else { ShiftedSmall(num, k - 1); }
  }

  lemma PackedBytes(num: nat, little: bool, size: nat, neg: bool, s: Bytes)
    requires 0 < size && num < WORD && |s| == size
    requires forall k :: 0 <= k < size ==> ByteAt(s, little, k) == if neg && SZINT <= k then 0xFF else Little(num, size)[k]
    ensures s == PackInt(num, little, size, neg)
  {
    hide Shifted;
    var b := if size <= SZINT then Little(num, size) else Little(num, SZINT) + Fill(size - SZINT, if neg then 0xFF else 0);
    forall k | 0 <= k < size ensures ByteAt(s, little, k) == b[k] {
      LittleAt(num, size, k);
      if k < SZINT {
        if size > SZINT { LittleAt(num, SZINT, k); }
      } else {
        ShiftedSmall(num, k);
      }
    }
    forall k | 0 <= k < size ensures s[k] == Ordered(b, little)[k] {
      if !little { assert ByteAt(s, little, size - 1 - k) == s[k]; } else { assert ByteAt(s, little, k) == s[k]; }
    }
  }

  /** unpackint: the highest of the low eight bytes first, then the check of the others. */
  method UnpackInteger(data: Bytes, pos: nat, little: bool, size: nat, signed: bool) returns (r: Packing<LuaInteger>)
    requires 0 < size && pos + size <= |data|
    ensures r == UnpackInt(data[pos..pos + size], little, signed)
  {
    hide Pow256;
    var limit := if size <= SZINT then size else SZINT;
    ghost var b := Ordered(data[pos..pos + size], little);
    ghost var low := b[..limit];
    var res: nat, i := 0, limit;
    while i > 0
      invariant 0 <= i <= limit && res == FromLittle(low[i..])
    {
      i := i - 1;
      assert low[i..][1..] == low[i + 1..];
      res := res * 256 + data[pos + if little then i else size - 1 - i];
    }
    assert low[0..] == low && (size <= SZINT ==> low == b);
    if size < SZINT {
      SmallValue(b);
      var p := Pow256(size);
      return Ok(if signed && 2 * res >= p then res - p else res);
    }
    Pow256Word();
    FromLittleBound(low);
    if size > SZINT {
      var mask := if !signed || Signed(res) >= 0 then 0 else 0xFF;
      i := limit;
      while i < size
        invariant limit <= i <= size && forall k :: limit <= k < i ==> b[k] == mask
      {
        assert b[i] == data[pos + if little then i else size - 1 - i];
        if data[pos + if little then i else size - 1 - i] != mask {
          assert !Rest(b, mask);
          return Err(DoesNotFit);
        }
        i := i + 1;
      }
    }
    return Ok(Signed(res));
  }

  /** The cases of str_pack that take an argument. */
  method PackArgument(d: Details, v: Value) returns (r: Packing<Bytes>)
    requires TakesArgument(d.kind) && (d.kind in {Kint, Kuint, Kstring} ==> d.size > 0)
    ensures r == PackItem(d, v)
  {
    hide PackInt, Pow256;
    match d.kind {
      case Kint =>
        if !v.Int? { return Err(WrongType); }
        if d.size < SZINT && !(-Pow256(d.size) <= 2 * v.i < Pow256(d.size)) { return Err(IntOverflow); }
        var b := PackInteger(Unsigned(v.i), d.h.little, d.size, v.i < 0);
        return Ok(b[..]);
      case Kuint =>
        if !v.Int? { return Err(WrongType); }
        if d.size < SZINT && Unsigned(v.i) >= Pow256(d.size) { return Err(IntOverflow); }
        var b := PackInteger(Unsigned(v.i), d.h.little, d.size, false);
        return Ok(b[..]);
      case Kchar =>
        if !v.Str? { return Err(WrongType); }
        if |v.s| > d.size { return Err(StringTooLong); }
        return Ok(v.s + Fill(d.size - |v.s|, 0));
      case Kstring =>
        if !v.Str? { return Err(WrongType); }
        if d.size < SZINT && |v.s| >= Pow256(d.size) { return Err(LengthOverflow); }
        var b := PackInteger(|v.s|, d.h.little, d.size, false);
        return Ok(b[..] + v.s);
      case Kzstr =>
        if !v.Str? { return Err(WrongType); }
        if 0 in v.s { return Err(StringHasZeros); }
        return Ok(v.s + [0]);
    }
  }

  /** What is left to do for str_pack when `done` is packed. */
  function Joined(done: Packed, rest: Packed): Packed { Packed(done.bytes + rest.bytes, done.items + rest.items) }

  function Append(done: Packed, pad: nat, b: Bytes, one: seq<Item>): Packed {
    Packed(done.bytes + Fill(pad, 0) + b, done.items + one)
  }

  lemma JoinedMore(done: Packed, pad: nat, b: Bytes, one: seq<Item>, rest: Packed)
    ensures Joined(done, Prepend(pad, b, one, rest)) == Joined(Append(done, pad, b, one), rest)
    ensures |Append(done, pad, b, one).bytes| == |done.bytes| + pad + |b|
  {
    assert done.bytes + (Fill(pad, 0) + b + rest.bytes) == done.bytes + Fill(pad, 0) + b + rest.bytes;
    assert done.items + (one + rest.items) == done.items + one + rest.items;
  }

  function Finished(done: Packed, rest: Packing<Packed>): Packing<Packed> {
    match rest
    case Ok(p) => Ok(Joined(done, p))
    case Err(e) => Err(e)
  }

  lemma FinishedEnds(p: Packed, rest: Packing<Packed>)
    ensures Finished(Packed([], []), rest) == rest && Joined(p, Packed([], [])) == p
  {
    assert p.bytes + [] == p.bytes && p.items + [] == p.items;
    if rest.Ok? { assert [] + rest.value.bytes == rest.value.bytes && [] + rest.value.items == rest.value.items; }
  }

  /** What one option adds: nothing left, an error, or its bytes and the rest. */
  datatype Round = End | Stop(error: Error) | Go(pad: nat, b: Bytes, one: seq<Item>, h: Header, rest: Bytes)

  /** One round of str_pack. */
  function PackRound(h: Header, total: nat, fmt: Bytes, args: seq<Value>): (r: Round)
    requires HeaderOk(h)
    ensures r.Go? ==> HeaderOk(r.h) && |r.rest| < |fmt| && |r.one| <= |args|
  {
    if AtEnd(fmt) then End
    else match GetDetails(h, total, fmt)
      case Err(e) => Stop(e)
      case Ok(d) =>
        if !TakesArgument(d.kind) then Go(d.pad, Fill(d.size, 0), [], d.h, d.rest)
        else if args == [] then Stop(NoArgument)
        else match PackItem(d, args[0])
          case Err(e) => Stop(e)
          case Ok(b) => Go(d.pad, b, [Item(d.kind, d.size, args[0])], d.h, d.rest)
  }

  function AfterRound(r: Round, rest: Packing<Packed>): Packing<Packed>
    requires r.Go?
  {
    match rest
    case Ok(p) => Ok(Prepend(r.pad, r.b, r.one, p))
    case Err(e) => Err(e)
  }

  lemma PackFromRound(h: Header, total: nat, fmt: Bytes, args: seq<Value>)
    requires HeaderOk(h)
    ensures var r := PackRound(h, total, fmt, args);
      (r.End? ==> PackFrom(h, total, fmt, args) == Ok(Packed([], []))) &&
      (r.Stop? ==> PackFrom(h, total, fmt, args) == Err(r.error)) &&
      (r.Go? ==>
        PackFrom(h, total, fmt, args) == AfterRound(r, PackFrom(r.h, total + r.pad + |r.b|, r.rest, args[|r.one|..])))
  {
    hide GetDetails, PackItem, Prepend;
    assert args[0..] == args;
  }

  /** The whole result, from one round on. */
  lemma FinishedRound(done: Packed, h: Header, fmt: Bytes, args: seq<Value>)
    requires HeaderOk(h)
    ensures var r := PackRound(h, |done.bytes|, fmt, args);
      var all := Finished(done, PackFrom(h, |done.bytes|, fmt, args));
      (r.End? ==> all == Ok(done)) && (r.Stop? ==> all == Err(r.error)) &&
      (r.Go? ==> var next := Append(done, r.pad, r.b, r.one);
        all == Finished(next, PackFrom(r.h, |next.bytes|, r.rest, args[|r.one|..])))
  {
    hide PackFrom, PackRound, Joined, Append, Prepend;
    var r := PackRound(h, |done.bytes|, fmt, args);
    PackFromRound(h, |done.bytes|, fmt, args);
    FinishedEnds(done, Err(NoArgument));
    if r.Go? {
      var rest := PackFrom(r.h, |done.bytes| + r.pad + |r.b|, r.rest, args[|r.one|..]);
      JoinedMore(done, r.pad, r.b, r.one, if rest.Ok? then rest.value else done);
    }
  }

  /** The round that takes its argument at `arg`. */
  function RoundAt(h: Header, total: nat, fmt: Bytes, args: seq<Value>, arg: nat): (r: Round)
    requires HeaderOk(h) && arg <= |args|
    ensures r.Go? ==> arg + |r.one| <= |args|
  {
    PackRound(h, total, fmt, args[arg..])
  }

  /** The body of the loop of str_pack. */
  method PackOption(reader: FormatReader, total: nat, args: seq<Value>, arg: nat) returns (r: Round)
    requires reader.Valid() && arg <= |args|
    modifies reader
    ensures reader.Valid() && r == RoundAt(old(reader.h), total, old(reader.Left()), args, arg)
    ensures r.Go? ==> reader.h == r.h && reader.Left() == r.rest && old(reader.pos) < reader.pos
  {
    hide GetDetails, PackItem;
    var end := reader.Done();
    if end { return End; }
    var d := reader.ReadDetails(total);
    if d.Err? { return Stop(d.error); }
    if !TakesArgument(d.value.kind) {
      var b: Bytes := if d.value.kind == Kpadding then [0] else [];
      assert b == Fill(d.value.size, 0);
      return Go(d.value.pad, b, [], d.value.h, d.value.rest);
    }
    if arg == |args| { return Stop(NoArgument); }
    var b := PackArgument(d.value, args[arg]);
    if b.Err? { return Stop(b.error); }
    return Go(d.value.pad, b.value, [Item(d.value.kind, d.value.size, args[arg])], d.value.h, d.value.rest);
  }

  /** What is packed already, and what the rest of the format and of the arguments still asks for. */
  ghost predicate PackedSoFar(native: bool, fmt: Bytes, args: seq<Value>, done: Packed, h: Header, left: Bytes, arg: nat) {
    HeaderOk(h) && arg <= |args| &&
    Pack(native, fmt, args) == Finished(done, PackFrom(h, |done.bytes|, left, args[arg..]))
  }

  lemma PackedAtFirst(native: bool, fmt: Bytes, args: seq<Value>)
    ensures PackedSoFar(native, fmt, args, Packed([], []), InitHeader(native), fmt, 0)
  {
    hide PackFrom, Finished;
    assert args[0..] == args;
    FinishedEnds(Packed([], []), Pack(native, fmt, args));
  }

  lemma PackedRound(native: bool, fmt: Bytes, args: seq<Value>, done: Packed, h: Header, left: Bytes, arg: nat)
    requires PackedSoFar(native, fmt, args, done, h, left, arg)
    ensures var r := RoundAt(h, |done.bytes|, left, args, arg);
      (r.End? ==> Pack(native, fmt, args) == Ok(done)) && (r.Stop? ==> Pack(native, fmt, args) == Err(r.error)) &&
      (r.Go? ==> PackedSoFar(native, fmt, args, Append(done, r.pad, r.b, r.one), r.h, r.rest, arg + |r.one|))
  {
    hide PackFrom, PackRound, Finished, Append, Pack;
    FinishedRound(done, h, left, args[arg..]);
    var r := PackRound(h, |done.bytes|, left, args[arg..]);
    if r.Go? { assert args[arg..][|r.one|..] == args[arg + |r.one|..]; }
  }

  /** str_pack. */
  method StrPack(native: bool, fmt: Bytes, args: seq<Value>) returns (r: Packing<Bytes>)
    ensures r == BytesOf(Pack(native, fmt, args))
  {
    hide PackedSoFar, RoundAt, Append, Pack, HeaderOk;
    var reader := new FormatReader(native, fmt);
    var done, arg: nat := Packed([], []), 0;
    PackedAtFirst(native, fmt, args);
    while true
      invariant reader.Valid() && fresh(reader) && reader.fmt == fmt && arg <= |args|
      invariant PackedSoFar(native, fmt, args, done, reader.h, reader.Left(), arg)
      decreases |fmt| - reader.pos
    {
      PackedRound(native, fmt, args, done, reader.h, reader.Left(), arg);
      var round := PackOption(reader, |done.bytes|, args, arg);
      if round.End? { return Ok(done.bytes); }
      if round.Stop? { return Err(round.error); }
      done, arg := Append(done, round.pad, round.b, round.one), arg + |round.one|;
    }
  }

  function BytesOf(p: Packing<Packed>): Packing<Bytes> {
    match p
    case Ok(v) => Ok(v.bytes)
    case Err(e) => Err(e)
  }

  /** One round of str_packsize. */
  lemma SizedOne(h: Header, total: nat, fmt: Bytes)
    requires HeaderOk(h)
    ensures AtEnd(fmt) ==> PackSizeFrom(h, total, fmt) == Ok(total)
    ensures !AtEnd(fmt) ==> PackSizeFrom(h, total, fmt) == SizedRound(GetDetails(h, total, fmt), total)
  {
    hide GetDetails, AtEnd;
  }

  function SizedRound(r: Packing<Details>, total: nat): Packing<nat>
    requires r.Ok? ==> HeaderOk(r.value.h)
  {
    var d :- r;
    if d.kind == Kstring || d.kind == Kzstr then Err(VariableLength)
    else if total > MAXSIZE - (d.size + d.pad) then Err(ResultTooLarge)
    else PackSizeFrom(d.h, total + d.size + d.pad, d.rest)
  }

  /** The body of the loop of str_packsize. */
  method SizeOption(reader: FormatReader, total: nat) returns (r: Packing<nat>)
    requires reader.Valid() && !AtEnd(reader.Left())
    modifies reader
    ensures reader.Valid() && PackSizeFrom(old(reader.h), total, old(reader.Left())) ==
      (if r.Ok? then PackSizeFrom(reader.h, r.value, reader.Left()) else r)
    ensures r.Ok? ==> old(reader.pos) < reader.pos
  {
    hide GetDetails, PackSizeFrom;
    SizedOne(reader.h, total, reader.Left());
    var d := reader.ReadDetails(total);
    if d.Err? { return Err(d.error); }
    if d.value.kind == Kstring || d.value.kind == Kzstr { return Err(VariableLength); }
    var size := d.value.size + d.value.pad;
    if total > MAXSIZE - size { return Err(ResultTooLarge); }
    return Ok(total + size);
  }

  /** str_packsize. */
  method StrPackSize(native: bool, fmt: Bytes) returns (r: Packing<nat>)
    ensures r == PackSize(native, fmt)
  {
    hide PackSizeFrom, AtEnd, HeaderOk;
    var reader := new FormatReader(native, fmt);
    var total: nat := 0;
    var end := reader.Done();
    while !end
      invariant reader.Valid() && fresh(reader) && reader.fmt == fmt && end == AtEnd(reader.Left())
      invariant PackSize(native, fmt) == PackSizeFrom(reader.h, total, reader.Left())
      decreases |fmt| - reader.pos
    {
      r := SizeOption(reader, total);
      if r.Err? { return; }
      total := r.value;
      end := reader.Done();
    }
    SizedOne(reader.h, total, reader.Left());
    return Ok(total);
  }

  /** The cases of str_unpack that give a value. */
  method UnpackArgument(d: Details, data: LuaString, p: nat) returns (r: Packing<Read>)
    requires p + d.size <= |data| && TakesArgument(d.kind) && (d.kind == Kzstr ==> d.size == 0)
    requires d.kind in {Kint, Kuint, Kstring} ==> d.size > 0
    ensures r == UnpackItem(d, data, p)
  {
    hide UnpackInt, StrLen, Pow256, Fill;
    if d.kind == Kchar { return Ok(Read(Str(data[p..p + d.size]), p + d.size)); }
    if d.kind == Kzstr {
      var n := StringLength(data, p);
      var len := ThroughInt(n);
      if (p + len) % WORD >= |data| { return Err(Unfinished); }
      if len >= HALF { return Err(BlockTooBig); }
      return Ok(Read(Str(data[p..p + len]), p + len + 1));
    }
    var i := UnpackInteger(data, p, d.h.little, d.size, d.kind == Kint);
    if i.Err? { return Err(i.error); }
    if d.kind != Kstring { return Ok(Read(Int(i.value), p + d.size)); }
    var len := Unsigned(i.value);
    if len > |data| - p - d.size { return Err(DataTooShort); }
    return Ok(Read(Str(data[p + d.size..p + d.size + len]), p + d.size + len));
  }

  /** strlen. */
  method StringLength(data: Bytes, p: nat) returns (n: nat)
    requires p <= |data|
    ensures n == StrLen(data[p..])
  {
    n := 0;
    while p + n < |data| && data[p + n] != 0
      invariant p + n <= |data| && StrLen(data[p..]) == n + StrLen(data[p + n..])
    {
      assert data[p + n..][1..] == data[p + n + 1..];
      n := n + 1;
    }
  }

  /** What is left to do for str_unpack when `values` are done. */
  ghost function Followed(values: seq<Value>, rest: Packing<(seq<Value>, nat)>): Packing<(seq<Value>, nat)> {
    match rest
    case Ok(p) => Ok((values + p.0, p.1))
    case Err(e) => Err(e)
  }

  lemma FollowedStart(rest: Packing<(seq<Value>, nat)>)
    ensures Followed([], rest) == rest
  {
    if rest.Ok? { assert [] + rest.value.0 == rest.value.0; }
  }

  function ReadRound(h: Header, data: LuaString, pos: nat, r: Packing<Details>): Packing<(seq<Value>, nat)>
    requires pos <= |data|
    requires r.Ok? ==> HeaderOk(r.value.h) && (r.value.kind == Kzstr ==> r.value.size == 0)
  {
    var d :- r;
    if d.pad + d.size > |data| - pos then Err(DataTooShort)
    else if TakesArgument(d.kind) then
      var v :- UnpackItem(d, data, pos + d.pad);
      var (vs, next) :- UnpackFrom(d.h, data, v.next, d.rest);
      Ok(([v.v] + vs, next))
    else UnpackFrom(d.h, data, pos + d.pad + d.size, d.rest)
  }

  /** One round of str_unpack. */
  lemma ReadOne(h: Header, data: LuaString, pos: nat, fmt: Bytes)
    requires HeaderOk(h) && pos <= |data|
    ensures AtEnd(fmt) ==> UnpackFrom(h, data, pos, fmt) == Ok(([], pos + 1))
    ensures !AtEnd(fmt) ==> UnpackFrom(h, data, pos, fmt) == ReadRound(h, data, pos, GetDetails(h, pos, fmt))
  {
    hide GetDetails, UnpackItem;
  }

  lemma FollowedMore(values: seq<Value>, one: seq<Value>, rest: Packing<(seq<Value>, nat)>)
    ensures Followed(values, Followed(one, rest)) == Followed(values + one, rest)
  {
    if rest.Ok? { assert values + (one + rest.value.0) == values + one + rest.value.0; }
  }

  /** The body of the loop of str_unpack: a value, or none, and the position after the option. */
  method UnpackOption(reader: FormatReader, data: LuaString, pos: nat) returns (r: Packing<(seq<Value>, nat)>)
    requires reader.Valid() && !AtEnd(reader.Left()) && pos <= |data|
    modifies reader
    ensures reader.Valid() && (r.Ok? ==> r.value.1 <= |data| && old(reader.pos) < reader.pos)
    ensures UnpackFrom(old(reader.h), data, pos, old(reader.Left())) ==
      (if r.Ok? then Followed(r.value.0, UnpackFrom(reader.h, data, r.value.1, reader.Left())) else r)
  {
    hide GetDetails, UnpackItem, UnpackFrom;
    ReadOne(reader.h, data, pos, reader.Left());
    var d := reader.ReadDetails(pos);
    if d.Err? { return Err(d.error); }
    if d.value.pad + d.value.size > |data| - pos { return Err(DataTooShort); }
    if !TakesArgument(d.value.kind) {
      FollowedStart(UnpackFrom(reader.h, data, pos + d.value.pad + d.value.size, reader.Left()));
      return Ok(([], pos + d.value.pad + d.value.size));
    }
    var v := UnpackArgument(d.value, data, pos + d.value.pad);
    if v.Err? { return Err(v.error); }
    return Ok(([v.value.v], v.value.next));
  }

  /** str_unpack, from the first byte on. */
  method StrUnpack(native: bool, fmt: Bytes, data: LuaString) returns (r: Packing<(seq<Value>, nat)>)
    ensures r == Unpack(native, fmt, data)
  {
    hide UnpackFrom, Followed, AtEnd, HeaderOk;
    var reader := new FormatReader(native, fmt);
    var values: seq<Value>, pos: nat := [], 0;
    FollowedStart(Unpack(native, fmt, data));
    var end := reader.Done();
    while !end
      invariant reader.Valid() && fresh(reader) && reader.fmt == fmt && end == AtEnd(reader.Left()) && pos <= |data|
      invariant Unpack(native, fmt, data) == Followed(values, UnpackFrom(reader.h, data, pos, reader.Left()))
      decreases |fmt| - reader.pos
    {
      r := UnpackOption(reader, data, pos);
      if r.Err? { FollowedError(values, r.error); return; }
      FollowedMore(values, r.value.0, UnpackFrom(reader.h, data, r.value.1, reader.Left()));
      values, pos := values + r.value.0, r.value.1;
      end := reader.Done();
    }
    FollowedEnd(reader.h, data, pos, reader.Left(), values);
    return Ok((values, pos + 1));
  }

  lemma FollowedError(values: seq<Value>, e: Error)
    ensures Followed(values, Err(e)) == Err(e)
  {
  }

  lemma FollowedEnd(h: Header, data: LuaString, pos: nat, fmt: Bytes, values: seq<Value>)
    requires HeaderOk(h) && pos <= |data| && AtEnd(fmt)
    ensures Followed(values, UnpackFrom(h, data, pos, fmt)) == Ok((values, pos + 1))
  {
    assert values + [] == values;
  }
}
