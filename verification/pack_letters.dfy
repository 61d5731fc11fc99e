/** What the letters of a format mean, in bytes: the formats are spelled out here, and the bytes
    are digits to the base 256. */
module PackLetters {
  import opened Common
  import opened Results
  import opened PackFormat
  import opened PackRoundTrip

  // ---- digits ----

  /** Digit k of v to the base 256; of a negative number, of its two's complement of any length. */
  function DigitAt(v: int, k: nat): Byte { (v / Pow256(k)) % 256 }

  /** The digits of v in `size` bytes, the lowest first or the highest first. */
  function BytesIn(v: int, size: nat, little: bool): (b: Bytes)
    ensures |b| == size
  {
    seq(size, k requires 0 <= k < size => DigitAt(v, if little then k else size - 1 - k))
  }

  lemma FloorShift(v: int, c: int, p: int)
    requires p > 0
    ensures (v + c * p) / p == v / p + c
  {
    var q, r := v / p, v % p;
    assert v == q * p + r;
    assert v + c * p == (q + c) * p + r by { assert (q + c) * p == q * p + c * p; }
    FloorIs(v + c * p, p, q + c, r);
  }

  lemma FloorIs(n: int, p: int, q: int, r: int)
    requires p > 0 && n == q * p + r && 0 <= r < p
    ensures n / p == q
  {
    var d := n / p - q;
    assert d * p == (n / p) * p - q * p;
    NoMultiple(d, p);
  }

  /** Digit k does not see a multiple of a higher power. */
  lemma DigitShift(v: int, c: int, j: nat, k: nat)
    requires k < j
    ensures DigitAt(v + c * Pow256(j), k) == DigitAt(v, k)
  {
    hide Pow256;
    var p, m := Pow256(k), Pow256(j - k - 1);
    PowAdd(j - k - 1, k);
    assert Pow256(j) == 256 * (m * p) by { PowAdd(1, j - 1); One256(); }
    assert c * Pow256(j) == (c * m * 256) * p by {
      assert c * (256 * (m * p)) == (c * m * 256) * p;
    }
    FloorShift(v, c * m * 256, p);
    ModShift(v / p, c * m);
  }

  lemma One256()
    ensures Pow256(0) == 1 && Pow256(1) == 256
  {
  }

  lemma ModShift(a: int, b: int)
    ensures (a + b * 256) % 256 == a % 256
  {
  }

  /** Above its highest digit a number has only the digits of its sign. */
  lemma HighDigits(v: int, k: nat)
    requires -Pow256(k) <= v < Pow256(k)
    ensures DigitAt(v, k) == if v < 0 then 255 else 0
  {
    hide Pow256;
    if v < 0 { FloorIs(v, Pow256(k), -1, v + Pow256(k)); } else { FloorIs(v, Pow256(k), 0, v); }
  }

  lemma DivDiv(n: nat, p: int)
    requires p > 0
    ensures n / 256 / p == n / (256 * p)
  {
    var q, r := n / 256, n % 256;
    var a, b := q / p, q % p;
    assert q == a * p + b && n == 256 * q + r;
    assert n == a * (256 * p) + (256 * b + r) by { assert 256 * (a * p) == a * (256 * p); }
    FloorIs(n, 256 * p, a, 256 * b + r);
  }

  lemma {:induction false} LittleDigit(n: nat, size: nat, k: nat)
    requires k < size
    ensures Little(n, size)[k] == DigitAt(n, k)
    decreases size
  {
    if k > 0 {
      LittleDigit(n / 256, size - 1, k - 1);
      DivDiv(n, Pow256(k - 1));
    } else {
      One256();
    }
  }

  lemma {:induction false} FromLittleDigit(b: Bytes, k: nat)
    requires k < |b|
    ensures DigitAt(FromLittle(b), k) == b[k]
    decreases |b|
  {
    if k > 0 {
      FromLittleDigit(b[1..], k - 1);
      DivDiv(FromLittle(b), Pow256(k - 1));
      assert FromLittle(b) / 256 == FromLittle(b[1..]);
    } else {
      One256();
    }
  }

  // ---- integers ----

  /** What is written of i: itself, or with an unsigned option its remainder by 2^64. */
  function Shown(i: LuaInteger, signed: bool): int {
    if signed || i >= 0 then i else i + 0x1_0000_0000_0000_0000
  }

  /** The integers that fit; from eight bytes on all do. */
  predicate InRange(i: LuaInteger, size: nat, signed: bool) {
    size >= 8 || if signed then -Pow256(size) <= 2 * i < Pow256(size) else 0 <= i < Pow256(size)
  }

  lemma DigitOfShown(i: LuaInteger, signed: bool, k: nat)
    ensures k < 8 ==> DigitAt(Unsigned(i), k) == DigitAt(Shown(i, signed), k)
    ensures k >= 8 ==> DigitAt(Shown(i, signed), k) == if signed && i < 0 then 255 else 0
  {
    hide Pow256;
    Pow256Word();
    if k < 8 {
      if signed && i < 0 { DigitShift(i, 1, 8, k); }
    } else {
      Pow256Monotone(8, k);
      HighDigits(Shown(i, signed), k);
    }
  }

  lemma DigitsOrdered(v: int, size: nat, little: bool)
    ensures BytesIn(v, size, little) == Ordered(BytesIn(v, size, true), little)
  {
    hide DigitAt;
  }

  lemma IntDigits(i: LuaInteger, little: bool, size: nat, signed: bool)
    ensures PackInt(Unsigned(i), little, size, signed && i < 0) == BytesIn(Shown(i, signed), size, little)
  {
    hide DigitAt, Little;
    var neg := signed && i < 0;
    var b := if size <= SZINT then Little(Unsigned(i), size) else Little(Unsigned(i), SZINT) + Fill(size - SZINT, if neg then 0xFF else 0);
    forall k: nat | k < size ensures b[k] == DigitAt(Shown(i, signed), k) {
      DigitOfShown(i, signed, k);
      if k < SZINT { LittleDigit(Unsigned(i), if size <= SZINT then size else SZINT, k); }
    }
    assert b == BytesIn(Shown(i, signed), size, true);
    DigitsOrdered(Shown(i, signed), size, little);
  }

  /** What unpackint accepts is exactly the digits of what it answers. */
  lemma IntRead(data: Bytes, little: bool, signed: bool, i: LuaInteger)
    requires UnpackInt(data, little, signed) == Ok(i) && |data| > 0
    ensures InRange(i, |data|, signed) && data == BytesIn(Shown(i, signed), |data|, little)
  {
    hide DigitAt, FromLittle, Pow256;
    var b, size := Ordered(data, little), |data|;
    var low := if size <= SZINT then b else b[..SZINT];
    var res := FromLittle(low);
    Pow256Word();
    FromLittleBound(low);
    if size < SZINT { SmallValue(b); }
    assert size == SZINT ==> b[..SZINT] == b;
    forall k: nat | k < size ensures b[k] == DigitAt(Shown(i, signed), k) {
      if k < |low| {
        FromLittleDigit(low, k);
        ResDigit(res, i, |low|, signed, k);
      } else {
        DigitOfShown(i, signed, k);
      }
    }
    assert b == BytesIn(Shown(i, signed), size, true);
    DigitsOrdered(Shown(i, signed), size, little);
    OrderedTwice(data, little);
  }

  /** The low bytes read as a number, and what is answered for it. */
  lemma ResDigit(res: nat, i: LuaInteger, n: nat, signed: bool, k: nat)
    requires k < n && (res == Shown(i, signed) || res == Shown(i, signed) + Pow256(n))
    ensures DigitAt(res, k) == DigitAt(Shown(i, signed), k)
  {
    if res != Shown(i, signed) { DigitShift(Shown(i, signed), 1, n, k); }
  }

  // ---- the steps of a format ----

  lemma PackStep(h: Header, total: nat, fmt: Bytes, args: seq<Value>, d: Details)
    requires HeaderOk(h) && !AtEnd(fmt) && GetDetails(h, total, fmt) == Ok(d)
    ensures !TakesArgument(d.kind) ==> (
      var rest := PackFrom(d.h, total + d.pad + d.size, d.rest, args);
      PackFrom(h, total, fmt, args) ==
        if rest.Ok? then Ok(Prepend(d.pad, Fill(d.size, 0), [], rest.value)) else rest)
    ensures TakesArgument(d.kind) && args != [] && PackItem(d, args[0]).Ok? ==> (
      var b := PackItem(d, args[0]).value;
      var rest := PackFrom(d.h, total + d.pad + |b|, d.rest, args[1..]);
      PackFrom(h, total, fmt, args) ==
        if rest.Ok? then Ok(Prepend(d.pad, b, [Item(d.kind, d.size, args[0])], rest.value)) else rest)
    ensures TakesArgument(d.kind) && args != [] && PackItem(d, args[0]).Err? ==>
      PackFrom(h, total, fmt, args) == Err(PackItem(d, args[0]).error)
  {
    hide GetDetails, PackItem, Prepend, AtEnd;
  }

  /** The last option of a format, with the last argument. */
  lemma PackLast(h: Header, total: nat, fmt: Bytes, v: Value, d: Details)
    requires HeaderOk(h) && !AtEnd(fmt) && GetDetails(h, total, fmt) == Ok(d) && TakesArgument(d.kind) && d.rest == []
    ensures var r := PackItem(d, v);
      PackFrom(h, total, fmt, [v]) ==
        if r.Ok? then Ok(Packed(Fill(d.pad, 0) + r.value, [Item(d.kind, d.size, v)])) else Err(r.error)
  {
    hide PackFrom, GetDetails, PackItem, AtEnd;
    PackStep(h, total, fmt, [v], d);
    EndsNow(d.h, total + d.pad + (if PackItem(d, v).Ok? then |PackItem(d, v).value| else 0), []);
    assert [v][1..] == [];
    if PackItem(d, v).Ok? {
      var b := PackItem(d, v).value;
      assert Fill(d.pad, 0) + b + [] == Fill(d.pad, 0) + b && [Item(d.kind, d.size, v)] + [] == [Item(d.kind, d.size, v)];
    }
  }

  lemma EndsNow(h: Header, total: nat, args: seq<Value>)
    requires HeaderOk(h)
    ensures PackFrom(h, total, [], args) == Ok(Packed([], []))
    ensures PackSizeFrom(h, total, []) == Ok(total)
    ensures forall data: LuaString :: total <= |data| ==> UnpackFrom(h, data, total, []) == Ok(([], total + 1))
  {
  }

  /** An option in front that packs nothing. */
  lemma PackNothing(h: Header, total: nat, fmt: Bytes, args: seq<Value>, d: Details)
    requires HeaderOk(h) && !AtEnd(fmt) && GetDetails(h, total, fmt) == Ok(d) && d.kind == Knop && d.pad == 0 && d.size == 0
    ensures PackFrom(h, total, fmt, args) == PackFrom(d.h, total, d.rest, args)
  {
    hide PackFrom, GetDetails, AtEnd;
    PackStep(h, total, fmt, args, d);
    var rest := PackFrom(d.h, total, d.rest, args);
    if rest.Ok? { assert Fill(0, 0) + Fill(0, 0) + rest.value.bytes == rest.value.bytes && [] + rest.value.items == rest.value.items; }
  }

  // ---- the letters of integers ----

  /** A number in a format. */
  function Written(n: nat): (w: Bytes)
    ensures w != [] && Digit(w)
  {
    if n < 10 then [48 + n] else Written(n / 10) + [48 + n % 10]
  }

  /** b h i l j for signed integers of 1, 2, 4, 8 and 8 bytes, B H I L J T for unsigned ones, and i
      and I followed by a length from 1 to 16. */
  predicate IntegerOption(opt: Bytes, size: nat, signed: bool) {
    if signed then
      (opt == [98] && size == 1) || (opt == [104] && size == 2) || (opt == [105] && size == 4) ||
      (opt == [108] && size == 8) || (opt == [106] && size == 8) || (1 <= size <= 16 && opt == [105] + Written(size))
    else
      (opt == [66] && size == 1) || (opt == [72] && size == 2) || (opt == [73] && size == 4) ||
      (opt == [76] && size == 8) || (opt == [74] && size == 8) || (opt == [84] && size == 8) ||
      (1 <= size <= 16 && opt == [73] + Written(size))
  }

  /** '<' is little endian, '>' big endian, '=' what the machine is. */
  predicate OrderOption(order: Byte, native: bool, little: bool) {
    (order == 60 && little) || (order == 62 && !little) || (order == 61 && little == native)
  }

  lemma {:induction false} LoopReads(n: nat, t: Bytes)
    requires n <= (MAXSIZE - 9) / 10 && Digit(t)
    ensures Digit(Written(n) + t) && Digits(Written(n) + t, 0) == Digits(t, n)
  {
    if n < 10 {
      assert (Written(n) + t)[1..] == t;
    } else {
      var u: Bytes := [48 + n % 10] + t;
      assert u[1..] == t;
      LoopReads(n / 10, u);
      assert Written(n) + t == Written(n / 10) + u;
    }
  }

  lemma LastRead(t: Bytes, a: nat)
    requires Digit(t) && !Digit(t[1..]) && a <= (MAXSIZE - 9) / 10
    ensures Digits(t, a) == (a * 10 + (t[0] - 48), t[1..])
  {
  }

  /** A number is read up to 2147483639; longer ones are cut. */
  lemma NumberRead(n: nat, df: int, rest: Bytes)
    requires n <= 2147483639 && -1 <= df <= MAXSIZE && !Digit(rest)
    ensures GetNum(Written(n) + rest, df) == (n, rest)
  {
    hide Digits;
    var u: Bytes := [48 + n % 10] + rest;
    assert u[1..] == rest;
    if n < 10 {
      LastRead(u, 0);
    } else {
      LoopReads(n / 10, u);
      LastRead(u, n / 10);
      assert Written(n) + rest == Written(n / 10) + u;
    }
  }

  lemma IntegerRead(h: Header, opt: Bytes, size: nat, signed: bool)
    requires IntegerOption(opt, size, signed)
    ensures 1 <= size <= 16 && !AtEnd(opt)
    ensures GetOption(h, opt) == Ok(Opt(if signed then Kint else Kuint, size, h, []))
  {
    hide GetNum, Written;
    if 1 <= size <= 16 && opt == [if signed then 105 else 73] + Written(size) {
      assert opt[1..] == Written(size);
      NumberRead(size, 4, []);
      assert Written(size) + [] == Written(size);
    } else {
      assert opt[1..] == [];
      NoNumber(4);
    }
  }

  lemma NoNumber(df: int)
    requires -1 <= df <= MAXSIZE
    ensures GetNum([], df) == (df, [])
  {
  }

  /** What getdetails makes of an option whose size is not padded to. */
  lemma Unaligned(h: Header, total: nat, fmt: Bytes, o: Opt)
    requires h.maxalign == 1 && fmt != [] && GetOption(h, fmt) == Ok(o) && o.h.maxalign == 1 && o.kind != Kpaddalign
    ensures GetDetails(h, total, fmt) == Ok(Details(o.kind, o.size, 0, o.h, o.rest))
  {
    hide GetOption;
  }

  lemma OrderRead(native: bool, order: Byte, little: bool, opt: Bytes)
    requires OrderOption(order, native, little)
    ensures !AtEnd([order] + opt)
    ensures GetDetails(InitHeader(native), 0, [order] + opt) == Ok(Details(Knop, 0, 0, Header(native, little, 1), opt))
  {
    assert ([order] + opt)[1..] == opt;
    Unaligned(InitHeader(native), 0, [order] + opt, Opt(Knop, 0, Header(native, little, 1), opt));
  }

  /** An integer is packed exactly when it is in the range of its option, as its digits in the byte
      order before the option; packsize gives the number of bytes. */
  lemma IntegerPacked(native: bool, order: Byte, little: bool, opt: Bytes, size: nat, signed: bool, i: LuaInteger)
    requires OrderOption(order, native, little) && IntegerOption(opt, size, signed)
    ensures var r := Pack(native, [order] + opt, [Int(i)]);
      if InRange(i, size, signed) then r.Ok? && r.value.bytes == BytesIn(Shown(i, signed), size, little)
      else r == Err(IntOverflow)
    ensures PackSize(native, [order] + opt) == Ok(size)
  {
    hide PackFrom, PackSizeFrom, GetDetails, GetOption, AtEnd, IntegerOption, PackInt, BytesIn, Pow256;
    var h := Header(native, little, 1);
    var d := Details(if signed then Kint else Kuint, size, 0, h, []);
    OrderRead(native, order, little, opt);
    IntegerRead(h, opt, size, signed);
    Unaligned(h, 0, opt, Opt(d.kind, size, h, []));
    PackNothing(InitHeader(native), 0, [order] + opt, [Int(i)], Details(Knop, 0, 0, h, opt));
    PackLast(h, 0, opt, Int(i), d);
    IntDigits(i, little, size, signed);
    if size < SZINT { UnsignedRange(i, size); }
    assert Fill(0, 0) + BytesIn(Shown(i, signed), size, little) == BytesIn(Shown(i, signed), size, little);
    SizeStep(InitHeader(native), 0, [order] + opt, Details(Knop, 0, 0, h, opt));
    SizeStep(h, 0, opt, d);
    EndsNow(h, size, []);
  }

  lemma UnsignedRange(i: LuaInteger, size: nat)
    requires size < SZINT
    ensures Unsigned(i) < Pow256(size) <==> 0 <= i < Pow256(size)
  {
    SmallPower(size);
  }

  lemma SizeStep(h: Header, total: nat, fmt: Bytes, d: Details)
    requires HeaderOk(h) && !AtEnd(fmt) && GetDetails(h, total, fmt) == Ok(d) && d.kind != Kstring && d.kind != Kzstr
    requires total + d.size + d.pad <= MAXSIZE
    ensures PackSizeFrom(h, total, fmt) == PackSizeFrom(d.h, total + d.size + d.pad, d.rest)
  {
    hide GetDetails, AtEnd;
  }

  lemma UnpackNothing(h: Header, data: LuaString, pos: nat, fmt: Bytes, d: Details)
    requires HeaderOk(h) && pos <= |data| && !AtEnd(fmt) && GetDetails(h, pos, fmt) == Ok(d)
    requires d.kind == Knop && d.pad == 0 && d.size == 0
    ensures UnpackFrom(h, data, pos, fmt) == UnpackFrom(d.h, data, pos, d.rest)
  {
    hide UnpackItem, GetDetails, AtEnd;
  }

  lemma UnpackLast(h: Header, data: LuaString, fmt: Bytes, d: Details)
    requires HeaderOk(h) && !AtEnd(fmt) && GetDetails(h, 0, fmt) == Ok(d)
    requires d.kind in {Kint, Kuint} && d.pad == 0 && d.rest == []
    ensures |data| < d.size ==> UnpackFrom(h, data, 0, fmt) == Err(DataTooShort)
    ensures |data| >= d.size ==>
      var r := UnpackInt(data[..d.size], d.h.little, d.kind == Kint);
      UnpackFrom(h, data, 0, fmt) == if r.Ok? then Ok(([Int(r.value)], d.size + 1)) else Err(r.error)
  {
    hide GetDetails, AtEnd, UnpackInt;
    if |data| >= d.size {
      var r := UnpackInt(data[..d.size], d.h.little, d.kind == Kint);
      assert data[0..0 + d.size] == data[..d.size];
      assert UnpackItem(d, data, 0) == if r.Ok? then Ok(Read(Int(r.value), d.size)) else Err(r.error);
      EndsNow(d.h, d.size, []);
      if r.Ok? { assert [Int(r.value)] + [] == [Int(r.value)]; }
    }
  }

  /** An integer is unpacked exactly from its digits; from nothing else is anything unpacked. What
      follows the digits does not matter. */
  lemma IntegerUnpacked(native: bool, order: Byte, little: bool, opt: Bytes, size: nat, signed: bool, data: LuaString)
    requires OrderOption(order, native, little) && IntegerOption(opt, size, signed)
    ensures var r := Unpack(native, [order] + opt, data);
      if |data| < size then r == Err(DataTooShort)
      else
        (forall i: LuaInteger ::
          r == Ok(([Int(i)], size + 1)) <==> InRange(i, size, signed) && data[..size] == BytesIn(Shown(i, signed), size, little)) &&
        (r.Err? ==> r == Err(DoesNotFit)) && (r.Ok? ==> exists i: LuaInteger :: r == Ok(([Int(i)], size + 1)))
  {
    hide UnpackFrom, GetDetails, GetOption, AtEnd, IntegerOption, UnpackInt, PackInt, BytesIn, Pow256;
    var h := Header(native, little, 1);
    var d := Details(if signed then Kint else Kuint, size, 0, h, []);
    OrderRead(native, order, little, opt);
    IntegerRead(h, opt, size, signed);
    Unaligned(h, 0, opt, Opt(d.kind, size, h, []));
    UnpackNothing(InitHeader(native), data, 0, [order] + opt, Details(Knop, 0, 0, h, opt));
    UnpackLast(h, data, opt, d);
    if |data| >= size {
      var front := data[..size];
      var u := UnpackInt(front, little, signed);
      UnpackFails(front, little, signed);
      if u.Ok? { IntRead(front, little, signed, u.value); }
      forall i: LuaInteger | InRange(i, size, signed) && front == BytesIn(Shown(i, signed), size, little)
        ensures u == Ok(i)
      {
        IntDigits(i, little, size, signed);
        if size < SZINT { UnsignedRange(i, size); }
        IntBack(i, little, size, signed);
      }
    }
  }

  lemma UnpackFails(data: Bytes, little: bool, signed: bool)
    ensures UnpackInt(data, little, signed).Err? ==> UnpackInt(data, little, signed) == Err(DoesNotFit)
  {
    hide Pow256, FromLittle;
  }

  // ---- strings ----

  /** 'z' takes a string without zeros and adds one. */
  lemma ZeroStringPacked(native: bool, s: LuaString)
    ensures var r := Pack(native, [122], [Str(s)]);
      if 0 in s then r == Err(StringHasZeros) else r.Ok? && r.value.bytes == s + [0]
  {
    hide PackFrom, GetDetails, AtEnd;
    var h := InitHeader(native);
    Unaligned(h, 0, [122], Opt(Kzstr, 0, h, []));
    NotAtEnd(122, []);
    PackLast(h, 0, [122], Str(s), Details(Kzstr, 0, 0, h, []));
    assert Fill(0, 0) + (s + [0]) == s + [0];
  }

  lemma NotAtEnd(b: Byte, rest: Bytes)
    requires b != 0
    ensures !AtEnd([b] + rest) && ([b] + rest)[1..] == rest && [b] + [] == [b]
  {
  }

  /** 'cN' takes a string of at most N bytes and fills it up with zeros. */
  lemma FixedStringPacked(native: bool, n: nat, s: LuaString)
    requires n <= 2147483639
    ensures var r := Pack(native, [99] + Written(n), [Str(s)]);
      if |s| > n then r == Err(StringTooLong)
      else r.Ok? && |r.value.bytes| == n && r.value.bytes[..|s|] == s && forall k :: |s| <= k < n ==> r.value.bytes[k] == 0
  {
    hide PackFrom, GetDetails, AtEnd, Written, GetNum;
    var h := InitHeader(native);
    NotAtEnd(99, Written(n));
    NumberRead(n, -1, []);
    assert Written(n) + [] == Written(n);
    Unaligned(h, 0, [99] + Written(n), Opt(Kchar, n, h, []));
    PackLast(h, 0, [99] + Written(n), Str(s), Details(Kchar, n, 0, h, []));
    if |s| <= n { assert Fill(0, 0) + (s + Fill(n - |s|, 0)) == s + Fill(n - |s|, 0); }
  }

  /** 's' and 'sN' put the length in front, in 8 bytes or in N. */
  lemma CountedStringPacked(native: bool, order: Byte, little: bool, opt: Bytes, size: nat, s: LuaString)
    requires OrderOption(order, native, little)
    requires (opt == [115] && size == 8) || (1 <= size <= 16 && opt == [115] + Written(size))
    ensures var r := Pack(native, [order] + opt, [Str(s)]);
      if size >= 8 || |s| < Pow256(size) then r.Ok? && r.value.bytes == BytesIn(|s|, size, little) + s
      else r == Err(LengthOverflow)
  {
    hide PackFrom, GetDetails, GetOption, AtEnd, PackInt, BytesIn, Pow256, Written;
    var h := Header(native, little, 1);
    var d := Details(Kstring, size, 0, h, []);
    OrderRead(native, order, little, opt);
    CountRead(h, opt, size);
    Unaligned(h, 0, opt, Opt(Kstring, size, h, []));
    PackNothing(InitHeader(native), 0, [order] + opt, [Str(s)], Details(Knop, 0, 0, h, opt));
    PackLast(h, 0, opt, Str(s), d);
    IntDigits(|s|, little, size, false);
    assert Fill(0, 0) + (BytesIn(|s|, size, little) + s) == BytesIn(|s|, size, little) + s;
  }

  lemma CountRead(h: Header, opt: Bytes, size: nat)
    requires (opt == [115] && size == 8) || (1 <= size <= 16 && opt == [115] + Written(size))
    ensures !AtEnd(opt) && GetOption(h, opt) == Ok(Opt(Kstring, size, h, []))
  {
    hide GetNum, Written;
    if opt == [115] && size == 8 {
      assert opt[1..] == [];
      NoNumber(8);
    } else {
      assert opt[1..] == Written(size);
      NumberRead(size, 8, []);
      assert Written(size) + [] == Written(size);
    }
  }

  // ---- alignment ----

  /** The alignment of an option of `size` bytes under '!a', and the padding at position n. */
  function Alignment(a: nat, size: nat): nat { if size < a then size else a }

  function Padding(m: nat, n: nat): nat
    requires m > 0
  {
    if n % m == 0 then 0 else m - n % m
  }

  predicate PowerOfTwo(m: nat) { m == 1 || m == 2 || m == 4 || m == 8 || m == 16 }

  /** '!' and a number a, and the same with the number 8 left out. */
  predicate AlignOption(opt: Bytes, a: nat) { (1 <= a <= 16 && opt == [33] + Written(a)) || (opt == [33] && a == 8) }

  lemma AlignRead(native: bool, opt: Bytes, a: nat, rest: Bytes)
    requires AlignOption(opt, a) && !Digit(rest)
    ensures 1 <= a <= 16 && !AtEnd(opt + rest)
    ensures GetDetails(InitHeader(native), 0, opt + rest) == Ok(Details(Knop, 0, 0, Header(native, native, a), rest))
  {
    hide GetNum, Written;
    if 1 <= a <= 16 && opt == [33] + Written(a) {
      assert (opt + rest)[1..] == Written(a) + rest;
      NumberRead(a, 8, rest);
    } else {
      assert (opt + rest)[1..] == rest;
      DefaultNumber(rest, 8);
    }
    var o := GetOption(InitHeader(native), opt + rest);
    assert o == Ok(Opt(Knop, 0, Header(native, native, a), rest));
  }

  lemma DefaultNumber(rest: Bytes, df: int)
    requires !Digit(rest) && -1 <= df <= MAXSIZE
    ensures GetNum(rest, df) == (df, rest)
  {
  }

  lemma FixedRead(h: Header, total: nat, n: nat, rest: Bytes)
    requires HeaderOk(h) && n <= 2147483639 && !Digit(rest)
    ensures !AtEnd([99] + (Written(n) + rest))
    ensures GetDetails(h, total, [99] + (Written(n) + rest)) == Ok(Details(Kchar, n, 0, h, rest))
  {
    hide GetNum, Written;
    NotAtEnd(99, Written(n) + rest);
    NumberRead(n, -1, rest);
    assert GetOption(h, [99] + (Written(n) + rest)) == Ok(Opt(Kchar, n, h, rest));
  }

  lemma PaddingIs(m: nat, n: nat)
    requires m > 0
    ensures (m - n % m) % m == Padding(m, n)
  {
    var r := n % m;
    if r > 0 { assert 0 < m - r < m; } else { assert m % m == 0; }
  }

  lemma IntegerAligned(h: Header, n: nat, opt: Bytes, size: nat, signed: bool)
    requires HeaderOk(h) && IntegerOption(opt, size, signed)
    ensures var m := Alignment(h.maxalign, size);
      m > 0 &&
      GetDetails(h, n, opt) ==
        if PowerOfTwo(m) then Ok(Details(if signed then Kint else Kuint, size, Padding(m, n), h, [])) else Err(AlignNotPowerOf2)
  {
    hide GetOption, IntegerOption, Padding;
    IntegerRead(h, opt, size, signed);
    PaddingIs(Alignment(h.maxalign, size), n);
  }

  lemma FirstIsLetter(opt: Bytes, size: nat, signed: bool)
    requires IntegerOption(opt, size, signed)
    ensures opt != [] && !Digit(opt)
  {
  }

  /** After '!a' an integer option pads with zeros to a multiple of its size, or of a if that is
      less, which must be a power of two. Here n bytes come before it. */
  lemma IntegerPadded(native: bool, align: Bytes, a: nat, n: nat, s: LuaString, opt: Bytes, size: nat, signed: bool,
                      i: LuaInteger)
    requires AlignOption(align, a) && n <= 2147483639 && |s| == n && IntegerOption(opt, size, signed)
    ensures var m := Alignment(a, size);
      var r := Pack(native, align + ([99] + (Written(n) + opt)), [Str(s), Int(i)]);
      m > 0 &&
      if !PowerOfTwo(m) then r == Err(AlignNotPowerOf2)
      else if !InRange(i, size, signed) then r == Err(IntOverflow)
      else r.Ok? && r.value.bytes == s + (Fill(Padding(m, n), 0) + BytesIn(Shown(i, signed), size, native))
  {
    hide PackFrom, GetDetails, GetOption, AtEnd, IntegerOption, PackInt, BytesIn, Pow256, Written, Fill, AlignOption;
    var h := Header(native, native, a);
    var tail := [99] + (Written(n) + opt);
    var args := [Str(s), Int(i)];
    FirstIsLetter(opt, size, signed);
    AlignRead(native, align, a, tail);
    PackNothing(InitHeader(native), 0, align + tail, args, Details(Knop, 0, 0, h, tail));
    FixedRead(h, 0, n, opt);
    var d := Details(Kchar, n, 0, h, opt);
    NoFill();
    assert s + [] == s && [] + s == s && args[1..] == [Int(i)];
    PackStep(h, 0, tail, args, d);
    IntegerRead(h, opt, size, signed);
    IntegerAligned(h, n, opt, size, signed);
    var m := Alignment(a, size);
    if PowerOfTwo(m) {
      PackLast(h, n, opt, Int(i), Details(if signed then Kint else Kuint, size, Padding(m, n), h, []));
      IntDigits(i, native, size, signed);
      if size < SZINT { UnsignedRange(i, size); }
    } else {
      BadStep(h, n, opt, [Int(i)], AlignNotPowerOf2);
    }
  }

  lemma NoFill()
    ensures Fill(0, 0) == []
  {
  }

  lemma BadStep(h: Header, total: nat, fmt: Bytes, args: seq<Value>, e: Error)
    requires HeaderOk(h) && !AtEnd(fmt) && GetDetails(h, total, fmt) == Err(e)
    ensures PackFrom(h, total, fmt, args) == Err(e)
  {
    hide GetDetails, AtEnd;
  }

  // ---- other letters ----

  /** 'x' is one zero, ' ' is nothing, f, d and n are floats, and what is not listed is no option. */
  lemma OtherLetters(native: bool, b: Byte, args: seq<Value>)
    ensures var r := Pack(native, [b], args);
      if b == 0 || b == 32 || b == 60 || b == 61 || b == 62 || b == 33 then r.Ok? && r.value.bytes == []
      else if b == 120 then r.Ok? && r.value.bytes == [0]
      else if b == 102 || b == 100 || b == 110 then r == Err(FloatOption)
      else if b == 88 then r == Err(BadNextOption)
      else if b == 99 then r == Err(MissingSize)
      else if b in {98, 66, 104, 72, 105, 73, 108, 76, 106, 74, 84, 115, 122} then args == [] ==> r == Err(NoArgument)
      else r == Err(BadOption)
  {
    hide PackFrom, PackItem;
    var h := InitHeader(native);
    OneLetter(h, b, args);
  }

  lemma OneLetter(h: Header, b: Byte, args: seq<Value>)
    requires HeaderOk(h) && h.maxalign == 1
    ensures var r := PackFrom(h, 0, [b], args);
      if b == 0 || b == 32 || b == 60 || b == 61 || b == 62 || b == 33 then r.Ok? && r.value.bytes == []
      else if b == 120 then r.Ok? && r.value.bytes == [0]
      else if b == 102 || b == 100 || b == 110 then r == Err(FloatOption)
      else if b == 88 then r == Err(BadNextOption)
      else if b == 99 then r == Err(MissingSize)
      else if b in {98, 66, 104, 72, 105, 73, 108, 76, 106, 74, 84, 115, 122} then args == [] ==> r == Err(NoArgument)
      else r == Err(BadOption)
  {
    hide PackItem, HeaderOk, Fill;
    assert [b][1..] == [];
  }

  /** A length that is not between 1 and 16 is refused. */
  lemma LengthRefused(native: bool, b: Byte, n: nat, args: seq<Value>)
    requires b in {105, 73, 115, 33} && n <= 2147483639 && !(1 <= n <= 16)
    ensures Pack(native, [b] + Written(n), args) == Err(SizeOutOfLimits)
  {
    hide PackFrom, GetNum, Written;
    NotAtEnd(b, Written(n));
    assert Written(n) + [] == Written(n);
    NumberRead(n, if b == 33 then 8 else if b == 115 then 8 else 4, []);
    assert GetOption(InitHeader(native), [b] + Written(n)) == Err(SizeOutOfLimits);
    BadStep(InitHeader(native), 0, [b] + Written(n), args, SizeOutOfLimits);
  }
}
