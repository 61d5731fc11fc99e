/** Unpacking undoes packing, exactly when, and the size that packsize promises. */
module PackRoundTrip {
  import opened Common
  import opened Results
  import opened PackFormat

  // ---- integers ----

  lemma {:induction false} PowAdd(i: nat, k: nat)
    ensures Pow256(i + k) == Pow256(i) * Pow256(k)
    decreases i
  {
    if i > 0 {
      PowAdd(i - 1, k);
      var a, b := Pow256(i - 1), Pow256(k);
      assert 256 * (a * b) == (256 * a) * b;
    }
  }

  lemma DivMod(n: nat, p: nat)
    requires p > 0
    ensures n % 256 + 256 * ((n / 256) % p) == n % (256 * p)
  {
    var q, r := n / 256, n % 256;
    var a, b := q / p, q % p;
    assert q == a * p + b;
    assert n == 256 * q + r;
    assert 256 * (a * p) == a * (256 * p);
    assert n == a * (256 * p) + (256 * b + r);
    assert 256 * b + r < 256 * p;
    ModUnique(n, 256 * p, a, 256 * b + r);
  }

  lemma MultipleGrows(k: int, p: int)
    requires p > 0
    ensures k >= 1 ==> k * p >= p
    ensures k <= -1 ==> k * p <= -p
  {
    if k >= 1 { assert (k - 1) * p >= 0; }
    if k <= -1 { assert (-k - 1) * p >= 0; }
  }

  lemma NoMultiple(k: int, p: int)
    requires p > 0 && -p < k * p < p
    ensures k == 0
  {
    MultipleGrows(k, p);
  }

  lemma ModUnique(n: nat, p: nat, a: int, r: nat)
    requires p > 0 && n == a * p + r && r < p
    ensures n % p == r
  {
    var q := n / p;
    assert (q - a) * p == q * p - a * p;
    NoMultiple(q - a, p);
  }

  lemma {:induction false} FromLittleOf(n: nat, size: nat)
    ensures FromLittle(Little(n, size)) == n % Pow256(size)
    decreases size
  {
    if size > 0 {
      FromLittleOf(n / 256, size - 1);
      DivMod(n, Pow256(size - 1));
      assert Little(n, size)[1..] == Little(n / 256, size - 1);
    }
  }

  lemma OrderedTwice(b: Bytes, little: bool)
    ensures Ordered(Ordered(b, little), little) == b
  {
  }

  lemma NegativeMod(i: LuaInteger, p: int, m: int)
    requires p > 0 && m * p == WORD && -p < i < 0
    ensures Unsigned(i) % p == i + p
  {
    assert (m - 1) * p == m * p - p;
    ModUnique(Unsigned(i), p, m - 1, i + p);
  }

  /** The low bytes of a two's complement number. */
  lemma LowBytes(i: LuaInteger, size: nat)
    requires size < SZINT && -Pow256(size) <= i
    ensures i < 0 ==> Unsigned(i) % Pow256(size) == i + Pow256(size) || i == -Pow256(size)
  {
    hide Pow256;
    if i < 0 && i != -Pow256(size) {
      var p, m := Pow256(size), Pow256(SZINT - size);
      Pow256Word();
      PowAdd(SZINT - size, size);
      NegativeMod(i, p, m);
    }
  }

  lemma SmallMod(n: nat, p: nat)
    requires n < p
    ensures n % p == n
  {
  }

  /** unpackint undoes packint for every size and byte order. */
  lemma IntBack(i: LuaInteger, little: bool, size: nat, signed: bool)
    requires 0 < size <= MAXINTSIZE
    requires size < SZINT ==>
      if signed then -Pow256(size) <= 2 * i < Pow256(size) else Unsigned(i) < Pow256(size)
    ensures UnpackInt(PackInt(Unsigned(i), little, size, signed && i < 0), little, signed) == Ok(i)
  {
    hide Pow256, FromLittle, Little;
    var n, neg := Unsigned(i), signed && i < 0;
    var b := if size <= SZINT then Little(n, size) else Little(n, SZINT) + Fill(size - SZINT, if neg then 0xFF else 0);
    OrderedTwice(b, little);
    Pow256Word();
    if size < SZINT {
      FromLittleOf(n, size);
      NarrowBack(i, size, signed);
    } else {
      FromLittleOf(n, SZINT);
      SmallMod(n, Pow256(SZINT));
      assert b[..SZINT] == Little(n, SZINT);
      assert size == SZINT ==> b == b[..SZINT];
      assert Signed(n) == i;
      assert size > SZINT ==> Rest(b, if neg then 0xFF else 0);
    }
  }

  lemma NarrowBack(i: LuaInteger, size: nat, signed: bool)
    requires 0 < size < SZINT
    requires if signed then -Pow256(size) <= 2 * i < Pow256(size) else Unsigned(i) < Pow256(size)
    ensures var res, p := Unsigned(i) % Pow256(size), Pow256(size);
      (if signed && 2 * res >= p then res - p else res) == i
  {
    hide Pow256;
    var p := Pow256(size);
    SmallPower(size);
    if i >= 0 { SmallMod(i, p); } else { LowBytes(i, size); }
  }

  lemma SmallPower(size: nat)
    requires size < SZINT
    ensures 0 < 256 * Pow256(size) <= WORD
  {
    Pow256Word();
    Pow256Monotone(size, 7);
  }

  // ---- items ----

  /** A string packed with 'c' is read back with the zeros that fill it up. */
  function AsRead(item: Item): Value {
    if item.kind == Kchar && item.v.Str? && |item.v.s| <= item.size <= MAXSIZE
    then Str(item.v.s + Fill(item.size - |item.v.s|, 0)) else item.v
  }

  /** str_unpack measures a 'z' string with an int. */
  predicate ShortEnough(item: Item) { item.kind == Kzstr && item.v.Str? ==> |item.v.s| < 0x8000_0000 }

  predicate AllShort(items: seq<Item>) { forall i :: 0 <= i < |items| ==> ShortEnough(items[i]) }

  function ReadAll(items: seq<Item>): (vs: seq<Value>)
    ensures |vs| == |items| && forall i :: 0 <= i < |items| ==> vs[i] == AsRead(items[i])
  {
    seq(|items|, i requires 0 <= i < |items| => AsRead(items[i]))
  }

  lemma {:induction false} StrLenOf(s: Bytes, rest: Bytes)
    requires 0 !in s
    ensures StrLen(s + [0] + rest) == |s|
    decreases |s|
  {
    var t := s + [0] + rest;
    if s == [] {
      assert t[0] == 0;
    } else {
      assert t[1..] == s[1..] + [0] + rest;
      StrLenOf(s[1..], rest);
    }
  }

  lemma ThroughIntExact(n: nat)
    requires n < HALF
    ensures ThroughInt(n) == n <==> n < 0x8000_0000
  {
  }

  lemma ZeroStringBack(d: Details, s: LuaString, data: LuaString, p: nat)
    requires d.kind == Kzstr && d.size == 0 && 0 !in s && p + |s| + 1 <= |data| && data[p..p + |s| + 1] == s + [0]
    ensures UnpackItem(d, data, p) == Ok(Read(Str(s), p + |s| + 1)) <==> |s| < 0x8000_0000
  {
    var rest := data[p + |s| + 1..];
    assert data[p..] == s + [0] + rest;
    StrLenOf(s, rest);
    ThroughIntExact(|s|);
    assert data[p..p + |s|] == (s + [0])[..|s|] == s;
    var r := UnpackItem(d, data, p);
    if r.Ok? && |s| >= 0x8000_0000 { assert r.value.next == p + ThroughInt(|s|) + 1; }
  }

  lemma CountedStringBack(d: Details, s: LuaString, data: LuaString, p: nat)
    requires d.kind == Kstring && 0 < d.size <= MAXINTSIZE && (d.size < SZINT ==> |s| < Pow256(d.size))
    requires p + d.size + |s| <= |data|
    requires data[p..p + d.size + |s|] == PackInt(|s|, d.h.little, d.size, false) + s
    ensures UnpackItem(d, data, p) == Ok(Read(Str(s), p + d.size + |s|))
  {
    hide UnpackInt, PackInt, Pow256;
    var b := PackInt(|s|, d.h.little, d.size, false);
    IntBack(|s|, d.h.little, d.size, false);
    assert data[p..p + d.size] == (b + s)[..d.size] == b;
    assert data[p + d.size..p + d.size + |s|] == (b + s)[d.size..] == s;
  }

  /** Reading an item where it was written gives it back, and stops after it. */
  lemma ItemBack(d: Details, v: Value, b: Bytes, data: LuaString, p: nat)
    requires TakesArgument(d.kind) && PackItem(d, v) == Ok(b) && p + |b| <= |data| && data[p..p + |b|] == b
    requires d.size <= if d.kind == Kchar then MAXSIZE else MAXINTSIZE
    requires (d.kind in {Kint, Kuint, Kstring} ==> d.size > 0) && (d.kind == Kzstr ==> d.size == 0)
    ensures d.size <= |b|
    ensures UnpackItem(d, data, p) == Ok(Read(AsRead(Item(d.kind, d.size, v)), p + |b|)) <==>
      ShortEnough(Item(d.kind, d.size, v))
  {
    hide UnpackInt, PackInt, Pow256, StrLen;
    match d.kind
    case Kint => IntBack(v.i, d.h.little, d.size, true);
    case Kuint => IntBack(v.i, d.h.little, d.size, false);
    case Kstring => CountedStringBack(d, v.s, data, p);
    case Kzstr => ZeroStringBack(d, v.s, data, p);
    case Kchar =>
  }

  // ---- formats ----

  /** What the first option of a format packed, and what the rest packed after it. */
  lemma PackedParts(h: Header, total: nat, fmt: Bytes, args: seq<Value>) returns (d: Details, b: Bytes, tail: Packed)
    requires HeaderOk(h) && PackFrom(h, total, fmt, args).Ok? && !AtEnd(fmt)
    ensures GetDetails(h, total, fmt) == Ok(d)
    ensures TakesArgument(d.kind) ==> (
      args != [] && PackItem(d, args[0]) == Ok(b) &&
      PackFrom(d.h, total + d.pad + |b|, d.rest, args[1..]) == Ok(tail) &&
      PackFrom(h, total, fmt, args) == Ok(Prepend(d.pad, b, [Item(d.kind, d.size, args[0])], tail)))
    ensures !TakesArgument(d.kind) ==> (
      b == Fill(d.size, 0) && PackFrom(d.h, total + d.pad + |b|, d.rest, args) == Ok(tail) &&
      PackFrom(h, total, fmt, args) == Ok(Prepend(d.pad, b, [], tail)))
  {
    hide GetDetails, PackItem, Prepend, Fill, AtEnd;
    d := GetDetails(h, total, fmt).value;
    b := if TakesArgument(d.kind) then PackItem(d, args[0]).value else Fill(d.size, 0);
    tail := PackFrom(d.h, total + d.pad + |b|, d.rest, if TakesArgument(d.kind) then args[1..] else args).value;
  }

  /** str_unpack on what the rest of a format packed, at the position where it was packed. */
  lemma {:induction false} UnpackBack(h: Header, data: LuaString, pos: nat, fmt: Bytes, args: seq<Value>)
    requires HeaderOk(h) && pos <= |data| && PackFrom(h, pos, fmt, args).Ok?
    requires data[pos..] == PackFrom(h, pos, fmt, args).value.bytes
    ensures var items := PackFrom(h, pos, fmt, args).value.items;
      UnpackFrom(h, data, pos, fmt) == Ok((ReadAll(items), |data| + 1)) <==> AllShort(items)
    decreases |fmt|
  {
    hide PackFrom, UnpackFrom, GetDetails, PackItem, UnpackItem, ShortEnough, AsRead, AllShort, ReadAll, AtEnd;
    if AtEnd(fmt) {
      NothingPacked(h, data, pos, fmt, args);
    } else {
      var d, b, tail := PackedParts(h, pos, fmt, args);
      var p := pos + d.pad;
      PartsAt(data, pos, d.pad, b, tail.bytes);
      if TakesArgument(d.kind) {
        ItemBack(d, args[0], b, data, p);
        UnpackBack(d.h, data, p + |b|, d.rest, args[1..]);
        ConsRead(Item(d.kind, d.size, args[0]), tail.items);
        TakesOne(h, data, pos, fmt, d, b, args[0], tail.items);
      } else {
        UnpackBack(d.h, data, p + |b|, d.rest, args);
        assert [] + tail.items == tail.items;
        TakesNone(h, data, pos, fmt, d);
      }
    }
  }

  lemma PackedAtEnd(h: Header, total: nat, fmt: Bytes, args: seq<Value>)
    requires HeaderOk(h) && AtEnd(fmt)
    ensures PackFrom(h, total, fmt, args) == Ok(Packed([], []))
  {
  }

  lemma NothingPacked(h: Header, data: LuaString, pos: nat, fmt: Bytes, args: seq<Value>)
    requires HeaderOk(h) && pos <= |data| && AtEnd(fmt)
    requires PackFrom(h, pos, fmt, args).Ok? && data[pos..] == PackFrom(h, pos, fmt, args).value.bytes
    ensures PackFrom(h, pos, fmt, args).value.items == [] && AllShort([])
    ensures UnpackFrom(h, data, pos, fmt) == Ok((ReadAll([]), |data| + 1))
  {
  }

  lemma TakesNone(h: Header, data: LuaString, pos: nat, fmt: Bytes, d: Details)
    requires HeaderOk(h) && !AtEnd(fmt) && GetDetails(h, pos, fmt) == Ok(d) && !TakesArgument(d.kind)
    requires pos + d.pad + d.size <= |data|
    ensures UnpackFrom(h, data, pos, fmt) == UnpackFrom(d.h, data, pos + d.pad + d.size, d.rest)
  {
    hide GetDetails;
  }

  lemma PartsAt(data: Bytes, pos: nat, pad: nat, b: Bytes, tail: Bytes)
    requires pos <= |data| && data[pos..] == Fill(pad, 0) + b + tail
    ensures pos + pad + |b| <= |data| && data[pos + pad..pos + pad + |b|] == b && data[pos + pad + |b|..] == tail
  {
    var t := Fill(pad, 0) + b + tail;
    assert data[pos + pad..pos + pad + |b|] == t[pad..pad + |b|];
    assert data[pos + pad + |b|..] == t[pad + |b|..];
  }

  lemma ConsRead(item: Item, items: seq<Item>)
    ensures ReadAll([item] + items) == [AsRead(item)] + ReadAll(items)
    ensures AllShort([item] + items) <==> ShortEnough(item) && AllShort(items)
  {
    var all := [item] + items;
    if ShortEnough(item) && AllShort(items) {
      forall i | 0 <= i < |all| ensures ShortEnough(all[i]) {
        if i > 0 { assert all[i] == items[i - 1]; }
      }
    }
    if AllShort(all) {
      assert all[0] == item;
      forall i | 0 <= i < |items| ensures ShortEnough(items[i]) { assert items[i] == all[i + 1]; }
    }
  }

  /** One round of str_unpack: right for the whole exactly when it is right for the item and for
      the rest. */
  lemma TakesOne(h: Header, data: LuaString, pos: nat, fmt: Bytes, d: Details, b: Bytes, v: Value, items: seq<Item>)
    requires HeaderOk(h) && pos <= |data| && !AtEnd(fmt) && GetDetails(h, pos, fmt) == Ok(d) && TakesArgument(d.kind)
    requires PackItem(d, v) == Ok(b)
    requires pos + d.pad + |b| <= |data| && d.size <= |b| && (d.kind == Kzstr ==> d.size == 0)
    requires UnpackItem(d, data, pos + d.pad) == Ok(Read(AsRead(Item(d.kind, d.size, v)), pos + d.pad + |b|)) <==>
      ShortEnough(Item(d.kind, d.size, v))
    requires UnpackFrom(d.h, data, pos + d.pad + |b|, d.rest) == Ok((ReadAll(items), |data| + 1)) <==> AllShort(items)
    ensures UnpackFrom(h, data, pos, fmt) == Ok(([AsRead(Item(d.kind, d.size, v))] + ReadAll(items), |data| + 1)) <==>
      ShortEnough(Item(d.kind, d.size, v)) && AllShort(items)
  {
    hide GetDetails, UnpackItem, PackItem, ShortEnough, AsRead, AllShort, ReadAll;
    var r := UnpackItem(d, data, pos + d.pad);
    var item := AsRead(Item(d.kind, d.size, v));
    if r.Ok? {
      var rest := UnpackFrom(d.h, data, r.value.next, d.rest);
      if rest.Ok? && [r.value.v] + rest.value.0 == [item] + ReadAll(items) {
        assert ([r.value.v] + rest.value.0)[0] == r.value.v && ([item] + ReadAll(items))[0] == item;
        assert ([r.value.v] + rest.value.0)[1..] == rest.value.0 && ([item] + ReadAll(items))[1..] == ReadAll(items);
        SameEnd(d, data, pos + d.pad, v, b, r.value);
      }
    }
  }

  /** An item read with the right value ends at the right place. */
  lemma SameEnd(d: Details, data: LuaString, p: nat, v: Value, b: Bytes, r: Read)
    requires TakesArgument(d.kind) && (d.kind == Kzstr ==> d.size == 0) && p + d.size <= |data|
    requires UnpackItem(d, data, p) == Ok(r) && r.v == AsRead(Item(d.kind, d.size, v)) && PackItem(d, v) == Ok(b)
    ensures r.next == p + |b|
  {
  }

  /** Whatever was packed is unpacked again, followed by the position after the last byte,
      exactly when no 'z' string is longer than an int can say. */
  lemma UnpackOfPack(native: bool, fmt: Bytes, args: seq<Value>)
    requires Pack(native, fmt, args).Ok? && |Pack(native, fmt, args).value.bytes| < HALF
    ensures var p := Pack(native, fmt, args).value;
      Unpack(native, fmt, p.bytes) == Ok((ReadAll(p.items), |p.bytes| + 1)) <==> AllShort(p.items)
  {
    hide PackFrom, UnpackFrom;
    var p := Pack(native, fmt, args).value;
    UnpackBack(InitHeader(native), p.bytes, 0, fmt, args);
  }

  /** The items are the arguments, one after the other. */
  lemma {:induction false} ItemsAreArguments(h: Header, total: nat, fmt: Bytes, args: seq<Value>)
    requires HeaderOk(h) && PackFrom(h, total, fmt, args).Ok?
    ensures var items := PackFrom(h, total, fmt, args).value.items;
      |items| <= |args| && forall i :: 0 <= i < |items| ==> items[i].v == args[i]
    decreases |fmt|
  {
    hide PackFrom, GetDetails, PackItem, AtEnd;
    if AtEnd(fmt) {
      PackedAtEnd(h, total, fmt, args);
    } else {
      var d, b, tail := PackedParts(h, total, fmt, args);
      ItemsAreArguments(d.h, total + d.pad + |b|, d.rest, if TakesArgument(d.kind) then args[1..] else args);
    }
  }

  /** Every 'c' option is given as many bytes as it has room for. */
  predicate ExactlyFilled(items: seq<Item>) {
    forall i :: 0 <= i < |items| && items[i].kind == Kchar && items[i].v.Str? ==> |items[i].v.s| == items[i].size
  }

  lemma FilledAsRead(item: Item)
    requires item.kind == Kchar && item.v.Str? ==> |item.v.s| == item.size
    ensures AsRead(item) == item.v
  {
    if item.kind == Kchar && item.v.Str? { assert item.v.s + Fill(0, 0) == item.v.s; }
  }

  /** With exactly filled 'c' options the arguments themselves come back. */
  lemma PackRoundTrips(native: bool, fmt: Bytes, args: seq<Value>)
    requires Pack(native, fmt, args).Ok? && |Pack(native, fmt, args).value.bytes| < HALF
    requires ExactlyFilled(Pack(native, fmt, args).value.items)
    ensures var p := Pack(native, fmt, args).value;
      |p.items| <= |args| &&
      (Unpack(native, fmt, p.bytes) == Ok((args[..|p.items|], |p.bytes| + 1)) <==> AllShort(p.items))
  {
    var p := Pack(native, fmt, args).value;
    UnpackOfPack(native, fmt, args);
    ItemsAreArguments(InitHeader(native), 0, fmt, args);
    forall i | 0 <= i < |p.items| ensures AsRead(p.items[i]) == args[i] { FilledAsRead(p.items[i]); }
    assert ReadAll(p.items) == args[..|p.items|];
  }

  /** A 'z' string of 2^31 ones is packed, and what was packed is refused. */
  lemma LongZeroString(native: bool)
    ensures var s := Fill(0x8000_0000, 1);
      Pack(native, [122], [Str(s)]) == Ok(Packed(s + [0], [Item(Kzstr, 0, Str(s))])) &&
      Unpack(native, [122], s + [0]) == Err(Unfinished)
  {
    hide StrLen;
    var h, s := InitHeader(native), Fill(0x8000_0000, 1);
    var data := s + [0];
    var d := Details(Kzstr, 0, 0, h, []);
    assert GetDetails(h, 0, [122]) == Ok(d);
    assert PackItem(d, Str(s)) == Ok(data);
    assert Fill(0, 0) + data + [] == data && [Item(Kzstr, 0, Str(s))] + [] == [Item(Kzstr, 0, Str(s))];
    assert data[0..] == s + [0] + [];
    StrLenOf(s, []);
    assert UnpackItem(d, data, 0) == Err(Unfinished);
  }

  // ---- packsize ----

  predicate FixedLength(items: seq<Item>) {
    forall i :: 0 <= i < |items| ==> items[i].kind != Kstring && items[i].kind != Kzstr
  }

  lemma FixedItem(d: Details, v: Value)
    requires TakesArgument(d.kind) && d.kind != Kstring && d.kind != Kzstr && PackItem(d, v).Ok?
    ensures |PackItem(d, v).value| == d.size
  {
  }

  lemma {:induction false} PackSizeFromAgrees(h: Header, total: nat, fmt: Bytes, args: seq<Value>)
    requires HeaderOk(h) && total <= MAXSIZE && PackFrom(h, total, fmt, args).Ok?
    requires FixedLength(PackFrom(h, total, fmt, args).value.items)
    ensures var n := total + |PackFrom(h, total, fmt, args).value.bytes|;
      PackSizeFrom(h, total, fmt) == if n <= MAXSIZE then Ok(n) else Err(ResultTooLarge)
    decreases |fmt|
  {
    hide GetDetails, PackItem, Fill, AtEnd;
    if !AtEnd(fmt) {
      var p := PackFrom(h, total, fmt, args).value;
      var d := GetDetails(h, total, fmt).value;
      var next := total + d.pad + d.size;
      if TakesArgument(d.kind) {
        assert p.items[0].kind == d.kind;
        FixedItem(d, args[0]);
        var tail := PackFrom(d.h, next, d.rest, args[1..]).value;
        assert FixedLength(tail.items) by { assert p.items[1..] == tail.items; }
        if next <= MAXSIZE { PackSizeFromAgrees(d.h, next, d.rest, args[1..]); }
      } else if next <= MAXSIZE {
        assert PackFrom(d.h, next, d.rest, args).value.items == p.items;
        PackSizeFromAgrees(d.h, next, d.rest, args);
      }
    }
  }

  /** For a format without 's' or 'z', packsize is the length of every result of pack, unless
      that is too large for it. */
  lemma PackSizeAgrees(native: bool, fmt: Bytes, args: seq<Value>)
    requires Pack(native, fmt, args).Ok? && FixedLength(Pack(native, fmt, args).value.items)
    ensures var n := |Pack(native, fmt, args).value.bytes|;
      PackSize(native, fmt) == if n <= MAXSIZE then Ok(n) else Err(ResultTooLarge)
  {
    hide PackFrom, PackSizeFrom, FixedLength;
    PackSizeFromAgrees(InitHeader(native), 0, fmt, args);
  }
}
