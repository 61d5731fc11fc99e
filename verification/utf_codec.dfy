/** The marshalling of Java strings (src/jvmMain/c/klua_jni.c): UTF-16 code units to UTF-8
    bytes and back, as functions on whole strings, and how the two undo each other. */
module UtfCodec {

  type Unit = bv16
  type Octet = bv8

  const REPLACEMENT: bv32 := 0xFFFD

  predicate High(u: Unit) { 0xD800 <= u <= 0xDBFF }

  predicate Low(u: Unit) { 0xDC00 <= u <= 0xDFFF }

  function Low8(c: bv32): Octet { (c & 0xFF) as bv8 }

  function Low16(c: bv32): Unit { (c & 0xFFFF) as bv16 }

  /** The code point of a surrogate pair. */
  function Combine(hi: Unit, lo: Unit): bv32 {
    0x10000 + ((hi as bv32 - 0xD800) << 10) + (lo as bv32 - 0xDC00)
  }

  /** A continuation byte with the low six bits of c. */
  function Six(c: bv32): Octet { Low8(0x80 | (c & 0x3F)) }

  /** The bytes written for one code point. */
  function EncodePoint(c: bv32): seq<Octet> {
    if c < 0x80 then [Low8(c)]
    else if c < 0x800 then [Low8(0xC0 | (c >> 6)), Six(c)]
    else if c < 0x10000 then [Low8(0xE0 | (c >> 12)), Six(c >> 6), Six(c)]
    else [Low8(0xF0 | (c >> 18)), Six(c >> 12), Six(c >> 6), Six(c)]
  }

  predicate PairAt(u: seq<Unit>) { |u| > 1 && High(u[0]) && Low(u[1]) }

  /** The code point at the front of u and the units it takes: a surrogate pair is one code
      point, any other unit is its own. */
  function FirstPoint(u: seq<Unit>): (r: (bv32, nat))
    requires u != []
    ensures 1 <= r.1 <= |u| && |EncodePoint(r.0)| <= 3 * r.1
  {
    if PairAt(u) then (Combine(u[0], u[1]), 2) else (u[0] as bv32, 1)
  }

  /** java_string_to_utf8. */
  function Encode(u: seq<Unit>): (s: seq<Octet>)
    ensures |s| <= 3 * |u|
  {
    if u == [] then []
    else var (c, n) := FirstPoint(u); EncodePoint(c) + Encode(u[n..])
  }

  /** How many bytes the first byte asks for; 0 when it starts no sequence. */
  function Promised(b: Octet): nat {
    if b < 0x80 then 1
    else if b & 0xE0 == 0xC0 then 2
    else if b & 0xF0 == 0xE0 then 3
    else if b & 0xF8 == 0xF0 then 4
    else 0
  }

  function Tail(b: Octet): bv32 { b as bv32 & 0x3F }

  function Join2(b: Octet, b1: Octet): bv32 { ((b as bv32 & 0x1F) << 6) | Tail(b1) }

  function Join3(b: Octet, b1: Octet, b2: Octet): bv32 {
    ((b as bv32 & 0x0F) << 12) | (Tail(b1) << 6) | Tail(b2)
  }

  function Join4(b: Octet, b1: Octet, b2: Octet, b3: Octet): bv32 {
    ((b as bv32 & 0x07) << 18) | (Tail(b1) << 12) | (Tail(b2) << 6) | Tail(b3)
  }

  /** The code point read at the front of s and the number of bytes it takes. The continuation
      bytes are not looked at but for their low bits. */
  function DecodePoint(s: seq<Octet>): (r: (bv32, nat))
    requires s != []
    ensures 1 <= r.1 <= |s| && (r.0 > 0xFFFF ==> r.1 == 4)
  {
    var n := Promised(s[0]);
    if n == 0 || n > |s| then (REPLACEMENT, 1)
    else if n == 1 then (s[0] as bv32, 1)
    else if n == 2 then (Join2(s[0], s[1]), 2)
    else if n == 3 then (Join3(s[0], s[1], s[2]), 3)
    else (Join4(s[0], s[1], s[2], s[3]), 4)
  }

  function HighUnit(c: bv32): Unit { Low16(0xD800 + ((c - 0x10000) >> 10)) }

  function LowUnit(c: bv32): Unit { Low16(0xDC00 + ((c - 0x10000) & 0x3FF)) }

  /** The units written for one code point. */
  function Units(c: bv32): (u: seq<Unit>)
    ensures 1 <= |u| <= 2
  {
    if c <= 0xFFFF then [Low16(c)] else [HighUnit(c), LowUnit(c)]
  }

  /** utf8_to_java. */
  function Decode(s: seq<Octet>): (u: seq<Unit>)
    ensures |u| <= |s|
  {
    if s == [] then []
    else var (c, n) := DecodePoint(s); Units(c) + Decode(s[n..])
  }

  // ---- the syntax of section 4 of RFC 3629 ----

  /** UTF8-tail. */
  predicate Cont(b: Octet) { 0x80 <= b <= 0xBF }

  /** UTF8-2. */
  predicate Two(b: Octet, b1: Octet) { 0xC2 <= b <= 0xDF && Cont(b1) }

  /** UTF8-3. */
  predicate Three(b: Octet, b1: Octet, b2: Octet) {
    ((b == 0xE0 && 0xA0 <= b1 <= 0xBF) || (0xE1 <= b <= 0xEC && Cont(b1)) ||
     (b == 0xED && 0x80 <= b1 <= 0x9F) || (0xEE <= b <= 0xEF && Cont(b1))) && Cont(b2)
  }

  /** UTF8-4. */
  predicate Four(b: Octet, b1: Octet, b2: Octet, b3: Octet) {
    ((b == 0xF0 && 0x90 <= b1 <= 0xBF) || (0xF1 <= b <= 0xF3 && Cont(b1)) ||
     (b == 0xF4 && 0x80 <= b1 <= 0x8F)) && Cont(b2) && Cont(b3)
  }

  // ---- what the bits say ----

  lemma CombineBits(hi: Unit, lo: Unit)
    requires High(hi) && Low(lo)
    ensures 0x10000 <= Combine(hi, lo) <= 0x10FFFF
    ensures HighUnit(Combine(hi, lo)) == hi && LowUnit(Combine(hi, lo)) == lo
  {
  }

  lemma CombineRange(hi: Unit, lo: Unit)
    requires High(hi) && Low(lo)
    ensures 0x10000 <= Combine(hi, lo) <= 0x10FFFF
    ensures Units(Combine(hi, lo)) == [hi, lo]
  {
    hide Combine, HighUnit, LowUnit;
    CombineBits(hi, lo);
  }

  lemma Bits1(c: bv32)
    requires c < 0x80
    ensures Promised(Low8(c)) == 1 && Low8(c) as bv32 == c && Low8(c) <= 0x7F
  {
  }

  lemma Bits2(c: bv32)
    requires 0x80 <= c < 0x800
    ensures Promised(Low8(0xC0 | (c >> 6))) == 2 && Join2(Low8(0xC0 | (c >> 6)), Six(c)) == c
    ensures 0xC2 <= Low8(0xC0 | (c >> 6)) <= 0xDF && Cont(Six(c))
  {
  }

  lemma Bits3(c: bv32)
    requires 0x800 <= c < 0x10000
    ensures Promised(Low8(0xE0 | (c >> 12))) == 3
    ensures Join3(Low8(0xE0 | (c >> 12)), Six(c >> 6), Six(c)) == c
    ensures Three(Low8(0xE0 | (c >> 12)), Six(c >> 6), Six(c)) <==> !(0xD800 <= c <= 0xDFFF)
    ensures 0xD800 <= c <= 0xDBFF <==> Low8(0xE0 | (c >> 12)) == 0xED && 0xA0 <= Six(c >> 6) <= 0xAF
    ensures 0xDC00 <= c <= 0xDFFF <==> Low8(0xE0 | (c >> 12)) == 0xED && 0xB0 <= Six(c >> 6) <= 0xBF
    ensures Cont(Six(c)) && 0xE0 <= Low8(0xE0 | (c >> 12)) <= 0xEF
  {
  }

  lemma Bits4(c: bv32)
    requires 0x10000 <= c <= 0x10FFFF
    ensures Promised(Low8(0xF0 | (c >> 18))) == 4
    ensures Join4(Low8(0xF0 | (c >> 18)), Six(c >> 12), Six(c >> 6), Six(c)) == c
    ensures Four(Low8(0xF0 | (c >> 18)), Six(c >> 12), Six(c >> 6), Six(c))
    ensures Low8(0xF0 | (c >> 18)) >= 0xF0
  {
    hide Four, Join4, Promised;
    Joined4(c);
    Syntax4(c);
  }

  lemma Joined4(c: bv32)
    requires 0x10000 <= c <= 0x10FFFF
    ensures Promised(Low8(0xF0 | (c >> 18))) == 4 && Low8(0xF0 | (c >> 18)) >= 0xF0
    ensures Join4(Low8(0xF0 | (c >> 18)), Six(c >> 12), Six(c >> 6), Six(c)) == c
  {
  }

  lemma Syntax4(c: bv32)
    requires 0x10000 <= c <= 0x10FFFF
    ensures Four(Low8(0xF0 | (c >> 18)), Six(c >> 12), Six(c >> 6), Six(c))
  {
  }

  lemma Split1(b: Octet)
    requires b <= 0x7F
    ensures Promised(b) == 1 && b as bv32 < 0x80 && Low8(b as bv32) == b
  {
  }

  lemma NoSurrogate(b: Octet, b1: Octet, b2: Octet)
    requires Three(b, b1, b2)
    ensures !(0xD800 <= Join3(b, b1, b2) <= 0xDFFF)
  {
  }

  /** The three bytes of a surrogate. */
  lemma SurrogateSplit(b1: Octet, b2: Octet)
    requires 0xA0 <= b1 <= 0xBF && Cont(b2)
    ensures var c := Join3(0xED, b1, b2);
      Low16(c) as bv32 == c && (if b1 <= 0xAF then High(Low16(c)) else Low(Low16(c)))
  {
  }

  lemma Split2(b: Octet, b1: Octet)
    requires Two(b, b1)
    ensures Promised(b) == 2 && 0x80 <= Join2(b, b1) < 0x800
    ensures Low8(0xC0 | (Join2(b, b1) >> 6)) == b && Six(Join2(b, b1)) == b1
  {
  }

  lemma Split3(b: Octet, b1: Octet, b2: Octet)
    requires Three(b, b1, b2) || (b == 0xED && 0xA0 <= b1 <= 0xBF && Cont(b2))
    ensures Promised(b) == 3 && 0x800 <= Join3(b, b1, b2) < 0x10000
    ensures var c := Join3(b, b1, b2);
      Low8(0xE0 | (c >> 12)) == b && Six(c >> 6) == b1 && Six(c) == b2
  {
  }

  lemma Split4(b: Octet, b1: Octet, b2: Octet, b3: Octet)
    requires Four(b, b1, b2, b3)
    ensures Promised(b) == 4 && 0x10000 <= Join4(b, b1, b2, b3) <= 0x10FFFF
    ensures var c := Join4(b, b1, b2, b3);
      Low8(0xF0 | (c >> 18)) == b && Six(c >> 12) == b1 && Six(c >> 6) == b2 && Six(c) == b3
  {
    hide Low8, Six, Join4, Four, Promised;
    Range4(b, b1, b2, b3);
    Parts4(b, b1, b2, b3);
  }

  lemma Range4(b: Octet, b1: Octet, b2: Octet, b3: Octet)
    requires Four(b, b1, b2, b3)
    ensures Promised(b) == 4 && Cont(b1) && Cont(b2) && Cont(b3)
    ensures 0x10000 <= Join4(b, b1, b2, b3) <= 0x10FFFF
  {
  }

  lemma Parts4(b: Octet, b1: Octet, b2: Octet, b3: Octet)
    requires Promised(b) == 4 && Cont(b1) && Cont(b2) && Cont(b3)
    ensures var c := Join4(b, b1, b2, b3);
      Low8(0xF0 | (c >> 18)) == b && Six(c >> 12) == b1 && Six(c >> 6) == b2 && Six(c) == b3
  {
  }

  /** The first byte written tells how many there are. */
  lemma EncodePromised(c: bv32)
    requires c <= 0x10FFFF
    ensures Promised(EncodePoint(c)[0]) == |EncodePoint(c)|
  {
    hide Promised, Low8, Six, Two, Three, Four, Cont;
    if c < 0x80 { Bits1(c); } else if c < 0x800 { Bits2(c); } else if c < 0x10000 { Bits3(c); } else { Bits4(c); }
  }

  lemma DecodeBits(c: bv32)
    requires c <= 0x10FFFF
    ensures DecodePoint(EncodePoint(c)) == (c, |EncodePoint(c)|)
  {
    hide Promised, Low8, Six, Join2, Join3, Join4, Two, Three, Four, Cont;
    if c < 0x80 { Bits1(c); } else if c < 0x800 { Bits2(c); } else if c < 0x10000 { Bits3(c); } else { Bits4(c); }
  }

  /** What follows a whole sequence does not matter. */
  lemma DecodePrefix(p: seq<Octet>, rest: seq<Octet>)
    requires p != [] && Promised(p[0]) == |p|
    ensures DecodePoint(p + rest) == DecodePoint(p)
  {
    hide Promised, Join2, Join3, Join4;
    var s := p + rest;
    assert forall i :: 0 <= i < |p| ==> s[i] == p[i];
  }

  lemma DecodeEncoded(c: bv32, rest: seq<Octet>)
    requires c <= 0x10FFFF
    ensures Decode(EncodePoint(c) + rest) == Units(c) + Decode(rest)
  {
    var p := EncodePoint(c);
    EncodePromised(c);
    DecodeBits(c);
    DecodePrefix(p, rest);
    assert (p + rest)[|p|..] == rest;
  }

  lemma OneUnit(u: Unit)
    ensures u as bv32 <= 0xFFFF && Units(u as bv32) == [u]
  {
  }

  /** The code point of the front is written back as the units it came from. */
  lemma FirstPointUnits(u: seq<Unit>)
    requires u != []
    ensures FirstPoint(u).0 <= 0x10FFFF && Units(FirstPoint(u).0) == u[..FirstPoint(u).1]
  {
    hide Combine, High, Low, Units;
    if PairAt(u) {
      CombineRange(u[0], u[1]);
      assert u[..2] == [u[0], u[1]];
    } else {
      OneUnit(u[0]);
      assert u[..1] == [u[0]];
    }
  }

  /** A Java string comes back unchanged, unpaired surrogates and U+0000 included. */
  lemma {:induction false} DecodeUndoesEncode(u: seq<Unit>)
    ensures Decode(Encode(u)) == u
    decreases |u|
  {
    hide EncodePoint, Units, DecodePoint, FirstPoint;
    if u != [] {
      var (c, n) := FirstPoint(u);
      DecodeUndoesEncode(u[n..]);
      FirstPointUnits(u);
      DecodeEncoded(c, Encode(u[n..]));
      assert u == u[..n] + u[n..];
    }
  }

  // ---- the byte strings that come back unchanged ----

  /** The syntax of one character in section 4 of RFC 3629 (UTF8-1 to UTF8-4), and how many
      bytes it has; 0 when s does not start with one. */
  function Character(s: seq<Octet>): (n: nat)
    ensures n <= |s|
  {
    if s == [] then 0
    else if s[0] <= 0x7F then 1
    else if |s| >= 2 && Two(s[0], s[1]) then 2
    else if |s| >= 3 && Three(s[0], s[1], s[2]) then 3
    else if |s| >= 4 && Four(s[0], s[1], s[2], s[3]) then 4
    else 0
  }

  /** Well formed by section 4 of RFC 3629. */
  predicate WellFormed(s: seq<Octet>)
    decreases |s|
  {
    s == [] || (Character(s) > 0 && WellFormed(s[Character(s)..]))
  }

  /** The three bytes of a surrogate, which RFC 3629 forbids. */
  predicate SurrogateBytes(s: seq<Octet>, lo: Octet, hi: Octet) {
    |s| >= 3 && s[0] == 0xED && lo <= s[1] <= hi && Cont(s[2])
  }

  predicate HighBytes(s: seq<Octet>) { SurrogateBytes(s, 0xA0, 0xAF) }

  predicate LowBytes(s: seq<Octet>) { SurrogateBytes(s, 0xB0, 0xBF) }

  /** Well formed but for surrogates, which may stand alone and not as a pair. */
  predicate Loose(s: seq<Octet>)
    decreases |s|
  {
    if s == [] then true
    else if HighBytes(s) then !LowBytes(s[3..]) && Loose(s[3..])
    else if LowBytes(s) then Loose(s[3..])
    else Character(s) > 0 && Loose(s[Character(s)..])
  }

  lemma {:induction false} WellFormedIsLoose(s: seq<Octet>)
    requires WellFormed(s)
    ensures Loose(s)
    decreases |s|
  {
    if s != [] { WellFormedIsLoose(s[Character(s)..]); }
  }

  predicate Scalar(c: bv32) { c <= 0x10FFFF && !(0xD800 <= c <= 0xDFFF) }

  lemma Encoded1(b: Octet)
    requires b <= 0x7F
    ensures Promised(b) == 1 && Scalar(b as bv32) && EncodePoint(b as bv32) == [b]
  {
    Split1(b);
  }

  lemma Encoded2(b: Octet, b1: Octet)
    requires Two(b, b1)
    ensures Promised(b) == 2 && Scalar(Join2(b, b1)) && EncodePoint(Join2(b, b1)) == [b, b1]
  {
    hide Low8, Six, Join2, Promised, Two;
    Split2(b, b1);
  }

  lemma Encoded3(b: Octet, b1: Octet, b2: Octet)
    requires Three(b, b1, b2)
    ensures Promised(b) == 3 && Scalar(Join3(b, b1, b2)) && EncodePoint(Join3(b, b1, b2)) == [b, b1, b2]
  {
    hide Low8, Six, Join3, Promised, Three;
    Split3(b, b1, b2);
    NoSurrogate(b, b1, b2);
  }

  lemma Encoded4(b: Octet, b1: Octet, b2: Octet, b3: Octet)
    requires Four(b, b1, b2, b3)
    ensures Promised(b) == 4 && Scalar(Join4(b, b1, b2, b3))
    ensures EncodePoint(Join4(b, b1, b2, b3)) == [b, b1, b2, b3]
  {
    hide Low8, Six, Join4, Promised, Four;
    Split4(b, b1, b2, b3);
  }

  /** A character is exactly what is written for a code point that is no surrogate. */
  lemma CharacterBits(s: seq<Octet>)
    requires Character(s) > 0
    ensures var (c, n) := DecodePoint(s);
      n == Character(s) && Scalar(c) && EncodePoint(c) == s[..n]
  {
    hide Low8, EncodePoint, Join2, Join3, Join4, Promised, Two, Three, Four;
    var n := Character(s);
    if n == 1 { Encoded1(s[0]); assert s[..1] == [s[0]]; }
    else if n == 2 { Encoded2(s[0], s[1]); assert s[..2] == [s[0], s[1]]; }
    else if n == 3 { Encoded3(s[0], s[1], s[2]); assert s[..3] == [s[0], s[1], s[2]]; }
    else { Encoded4(s[0], s[1], s[2], s[3]); assert s[..4] == [s[0], s[1], s[2], s[3]]; }
  }

  lemma SurrogateBits(s: seq<Octet>, hi: bool)
    requires if hi then HighBytes(s) else LowBytes(s)
    ensures var (c, n) := DecodePoint(s);
      n == 3 && EncodePoint(c) == s[..3] && Units(c) == [Low16(c)] && Low16(c) as bv32 == c &&
      if hi then High(Low16(c)) else Low(Low16(c))
  {
    hide Low8, Six, Join3, Promised, Three, Low16, High, Low;
    Split3(s[0], s[1], s[2]);
    SurrogateSplit(s[1], s[2]);
    assert s[..3] == [s[0], s[1], s[2]];
  }

  lemma ScalarUnits(c: bv32)
    requires Scalar(c)
    ensures c <= 0xFFFF ==> Units(c) == [Low16(c)] && Low16(c) as bv32 == c && !High(Low16(c)) && !Low(Low16(c))
    ensures c > 0xFFFF ==> |Units(c)| == 2 && High(Units(c)[0]) && Low(Units(c)[1])
    ensures c > 0xFFFF ==> Combine(Units(c)[0], Units(c)[1]) == c
  {
    hide Low16, HighUnit, LowUnit, High, Low, Combine;
    if c <= 0xFFFF { SmallUnit(c); } else { LargeUnits(c); }
  }

  lemma SmallUnit(c: bv32)
    requires c <= 0xFFFF && !(0xD800 <= c <= 0xDFFF)
    ensures Low16(c) as bv32 == c && !High(Low16(c)) && !Low(Low16(c))
  {
  }

  lemma LargeUnits(c: bv32)
    requires 0xFFFF < c <= 0x10FFFF
    ensures High(HighUnit(c)) && Low(LowUnit(c)) && Combine(HighUnit(c), LowUnit(c)) == c
  {
    hide High, Low, HighUnit, LowUnit, Combine;
    HighUnitBits(c);
    LowUnitBits(c);
    CombinedBits(c);
  }

  lemma HighUnitBits(c: bv32)
    requires 0xFFFF < c <= 0x10FFFF
    ensures High(HighUnit(c)) && HighUnit(c) as bv32 == 0xD800 + ((c - 0x10000) >> 10)
  {
  }

  lemma LowUnitBits(c: bv32)
    requires 0xFFFF < c <= 0x10FFFF
    ensures Low(LowUnit(c)) && LowUnit(c) as bv32 == 0xDC00 + ((c - 0x10000) & 0x3FF)
  {
  }

  lemma CombinedBits(c: bv32)
    requires 0xFFFF < c <= 0x10FFFF
    ensures Combine(HighUnit(c), LowUnit(c)) == c
  {
    hide HighUnit, LowUnit;
    HighUnitBits(c);
    LowUnitBits(c);
  }

  lemma EncodeStep(u: seq<Unit>)
    requires u != []
    ensures Encode(u) == EncodePoint(FirstPoint(u).0) + Encode(u[FirstPoint(u).1..])
  {
    hide EncodePoint, FirstPoint;
  }

  lemma FirstAlone(u: Unit, rest: seq<Unit>)
    requires High(u) && rest != [] ==> !Low(rest[0])
    ensures FirstPoint([u] + rest) == (u as bv32, 1)
  {
    hide EncodePoint, Combine, High, Low;
  }

  lemma FirstPair(a: Unit, b: Unit, rest: seq<Unit>)
    requires High(a) && Low(b)
    ensures FirstPoint([a, b] + rest) == (Combine(a, b), 2)
  {
    hide EncodePoint, Combine, High, Low;
  }

  lemma FirstScalar(c: bv32, rest: seq<Unit>)
    requires Scalar(c)
    ensures FirstPoint(Units(c) + rest) == (c, |Units(c)|)
  {
    hide EncodePoint, FirstPoint, Combine, High, Low, Low16, Scalar, Units;
    ScalarUnits(c);
    if c <= 0xFFFF {
      FirstAlone(Low16(c), rest);
    } else {
      assert Units(c) == [Units(c)[0], Units(c)[1]];
      FirstPair(Units(c)[0], Units(c)[1], rest);
    }
  }

  /** A code point that is no surrogate is encoded alone, whatever follows. */
  lemma EncodeScalar(c: bv32, rest: seq<Unit>)
    requires Scalar(c)
    ensures Encode(Units(c) + rest) == EncodePoint(c) + Encode(rest)
  {
    hide Encode, EncodePoint, FirstPoint, Units, Scalar;
    EncodeStep(Units(c) + rest);
    FirstScalar(c, rest);
    assert (Units(c) + rest)[|Units(c)|..] == rest;
  }

  lemma EncodeAlone(u: Unit, rest: seq<Unit>)
    requires High(u) && rest != [] ==> !Low(rest[0])
    ensures Encode([u] + rest) == EncodePoint(u as bv32) + Encode(rest)
  {
    hide Encode, EncodePoint, FirstPoint, High, Low;
    EncodeStep([u] + rest);
    FirstAlone(u, rest);
    assert ([u] + rest)[1..] == rest;
  }

  lemma UnitScalar(u: Unit)
    requires !High(u) && !Low(u)
    ensures Scalar(u as bv32)
  {
  }

  lemma HighNotLow(u: Unit)
    ensures !(High(u) && Low(u))
  {
  }

  /** Only the three bytes of a low surrogate become one. */
  lemma LowFirst(s: seq<Octet>)
    requires Loose(s) && s != [] && Low(Decode(s)[0])
    ensures LowBytes(s)
  {
    hide Low16, Combine, EncodePoint, Units;
    var (c, n) := DecodePoint(s);
    if HighBytes(s) {
      SurrogateBits(s, true);
      HighNotLow(Low16(c));
    } else if !LowBytes(s) {
      CharacterBits(s);
      ScalarUnits(c);
      HighNotLow(Units(c)[0]);
    }
  }

  lemma CharacterBack(s: seq<Octet>)
    requires Character(s) > 0 && Encode(Decode(s[DecodePoint(s).1..])) == s[DecodePoint(s).1..]
    ensures Encode(Decode(s)) == s
  {
    hide EncodePoint, DecodePoint, FirstPoint, Units, Character, Scalar;
    var (c, n) := DecodePoint(s);
    CharacterBits(s);
    EncodeScalar(c, Decode(s[n..]));
    assert s == s[..n] + s[n..];
  }

  lemma DecodeStep(s: seq<Octet>)
    requires s != []
    ensures Decode(s) == Units(DecodePoint(s).0) + Decode(s[DecodePoint(s).1..])
  {
    hide DecodePoint, Units;
  }

  lemma SurrogateBack(s: seq<Octet>)
    requires |s| >= 3 && (HighBytes(s) || LowBytes(s))
    requires Decode(s[3..]) != [] && Low(Decode(s[3..])[0]) ==> LowBytes(s)
    requires Encode(Decode(s[3..])) == s[3..]
    ensures Encode(Decode(s)) == s
  {
    hide EncodePoint, DecodePoint, Encode, Decode, Units, HighBytes, LowBytes, High, Low, Low16;
    var c := DecodePoint(s).0;
    SurrogateBits(s, !LowBytes(s));
    DecodeStep(s);
    assert Decode(s) == [Low16(c)] + Decode(s[3..]);
    HighNotLow(Low16(c));
    SurrogateEncoded(s, Low16(c), Decode(s[3..]));
  }

  lemma SurrogateEncoded(s: seq<Octet>, u: Unit, rest: seq<Unit>)
    requires |s| >= 3 && (High(u) && rest != [] ==> !Low(rest[0]))
    requires EncodePoint(u as bv32) == s[..3] && Encode(rest) == s[3..]
    ensures Encode([u] + rest) == s
  {
    hide EncodePoint, Encode, High, Low;
    EncodeAlone(u, rest);
    assert s == s[..3] + s[3..];
  }

  lemma {:induction false} EncodeUndoesDecode(s: seq<Octet>)
    requires Loose(s)
    ensures Encode(Decode(s)) == s
    decreases |s|
  {
    hide EncodePoint, DecodePoint, FirstPoint, Units, Decode, Encode, HighBytes, LowBytes, High, Low;
    if s == [] {
      NothingBack();
    } else if HighBytes(s) || LowBytes(s) {
      LooseSurrogateRest(s);
      EncodeUndoesDecode(s[3..]);
      if s[3..] != [] && Decode(s[3..]) != [] && Low(Decode(s[3..])[0]) { LowFirst(s[3..]); }
      NothingDecoded();
      SurrogateBack(s);
    } else {
      CharacterBits(s);
      EncodeUndoesDecode(s[Character(s)..]);
      CharacterBack(s);
    }
  }

  lemma NothingBack()
    ensures Encode(Decode([])) == []
  {
  }

  lemma NothingDecoded()
    ensures Decode([]) == []
  {
  }

  lemma LooseSurrogateRest(s: seq<Octet>)
    requires Loose(s) && (HighBytes(s) || LowBytes(s))
    ensures |s| >= 3 && Loose(s[3..]) && (!LowBytes(s) ==> !LowBytes(s[3..]))
  {
  }

  lemma ScalarBytes(c: bv32, rest: seq<Octet>)
    requires Scalar(c)
    ensures var s := EncodePoint(c) + rest;
      Character(s) == |EncodePoint(c)| && !HighBytes(s) && !LowBytes(s)
  {
  }

  lemma SurrogateUnitBytes(u: Unit, rest: seq<Octet>)
    requires High(u) || Low(u)
    ensures |EncodePoint(u as bv32)| == 3
    ensures HighBytes(EncodePoint(u as bv32) + rest) == High(u)
    ensures LowBytes(EncodePoint(u as bv32) + rest) == Low(u)
  {
  }

  lemma EncodeFirst(u: seq<Unit>)
    ensures LowBytes(Encode(u)) <==> u != [] && Low(u[0])
  {
    if PairAt(u) {
      CombineRange(u[0], u[1]);
      ScalarBytes(Combine(u[0], u[1]), Encode(u[2..]));
    } else if u != [] {
      if High(u[0]) || Low(u[0]) {
        SurrogateUnitBytes(u[0], Encode(u[1..]));
      } else {
        ScalarBytes(u[0] as bv32, Encode(u[1..]));
      }
    }
  }

  lemma LooseScalar(c: bv32, rest: seq<Octet>)
    requires Scalar(c) && Loose(rest)
    ensures Loose(EncodePoint(c) + rest)
  {
    hide EncodePoint, HighBytes, LowBytes, Character;
    ScalarBytes(c, rest);
    assert (EncodePoint(c) + rest)[|EncodePoint(c)|..] == rest;
  }

  lemma LooseSurrogate(u: Unit, rest: seq<Octet>)
    requires (High(u) || Low(u)) && Loose(rest) && (High(u) ==> !LowBytes(rest))
    ensures Loose(EncodePoint(u as bv32) + rest)
  {
    hide EncodePoint, HighBytes, LowBytes, Character;
    SurrogateUnitBytes(u, rest);
    HighNotLow(u);
    assert (EncodePoint(u as bv32) + rest)[3..] == rest;
  }

  lemma {:induction false} EncodeIsLoose(u: seq<Unit>)
    ensures Loose(Encode(u))
    decreases |u|
  {
    hide EncodePoint, Combine, Loose, LowBytes, High, Low, Scalar;
    if u != [] {
      if PairAt(u) {
        EncodeIsLoose(u[2..]);
        CombineScalar(u[0], u[1]);
        LooseScalar(Combine(u[0], u[1]), Encode(u[2..]));
      } else {
        EncodeIsLoose(u[1..]);
        if High(u[0]) || Low(u[0]) {
          EncodeFirst(u[1..]);
          LooseSurrogate(u[0], Encode(u[1..]));
        } else {
          UnitScalar(u[0]);
          LooseScalar(u[0] as bv32, Encode(u[1..]));
        }
      }
    } else {
      EmptyIsLoose();
    }
  }

  lemma EmptyIsLoose()
    ensures Loose([])
  {
  }

  lemma CombineScalar(hi: Unit, lo: Unit)
    requires High(hi) && Low(lo)
    ensures Scalar(Combine(hi, lo))
  {
    CombineBits(hi, lo);
  }

  /** Bytes come back unchanged exactly when they are well formed but for lone surrogates. */
  lemma BytesRoundTrip(s: seq<Octet>)
    ensures Encode(Decode(s)) == s <==> Loose(s)
    ensures WellFormed(s) ==> Encode(Decode(s)) == s
  {
    EncodeIsLoose(Decode(s));
    if Loose(s) { EncodeUndoesDecode(s); }
    if WellFormed(s) { WellFormedIsLoose(s); EncodeUndoesDecode(s); }
  }

  /** The code points utf8_to_java reads, each with the number of bytes it is read from. */
  function Points(s: seq<Octet>): seq<(bv32, nat)>
    decreases |s|
  {
    if s == [] then [] else [DecodePoint(s)] + Points(s[DecodePoint(s).1..])
  }

  /** What a decoder reads that puts U+FFFD for every byte at which no character starts. */
  function Replacing(s: seq<Octet>): seq<(bv32, nat)>
    decreases |s|
  {
    if s == [] then []
    else if Character(s) > 0 then
      var (c, n) := DecodePoint(s);
      [(c, n)] + Replacing(s[n..])
    else [(REPLACEMENT, 1)] + Replacing(s[1..])
  }

  /** Wherever no character starts, the byte starts no sequence at all or asks for more bytes
      than there are. */
  predicate Obvious(s: seq<Octet>)
    decreases |s|
  {
    if s == [] then true
    else if Character(s) > 0 then Obvious(s[Character(s)..])
    else (Promised(s[0]) == 0 || Promised(s[0]) > |s|) && Obvious(s[1..])
  }

  lemma NotAscii(b: Octet)
    ensures b > 0x7F ==> Promised(b) != 1
  {
  }

  lemma ReplacedHere(s: seq<Octet>)
    requires s != [] && Character(s) == 0
    ensures DecodePoint(s) == (REPLACEMENT, 1) <==> Promised(s[0]) == 0 || Promised(s[0]) > |s|
  {
    hide Join2, Join3, Join4, Promised;
    NotAscii(s[0]);
  }

  /** utf8_to_java replaces what is malformed, as the comment above it promises, exactly when all
      of it is malformed in its first byte or cut short at the end: the bytes that follow a first
      byte are not checked. */
  lemma {:induction false} ReplacesExactly(s: seq<Octet>)
    ensures Points(s) == Replacing(s) <==> Obvious(s)
    decreases |s|
  {
    hide DecodePoint, Character, Promised;
    if s != [] {
      var (c, n) := DecodePoint(s);
      if Character(s) > 0 {
        CharacterBits(s);
        ReplacesExactly(s[n..]);
        SameTail((c, n), Points(s[n..]), (c, n), Replacing(s[n..]));
      } else {
        ReplacedHere(s);
        ReplacesExactly(s[1..]);
        SameTail((c, n), Points(s[n..]), (REPLACEMENT, 1), Replacing(s[1..]));
      }
    }
  }

  lemma SameTail<T>(x: T, xs: seq<T>, y: T, ys: seq<T>)
    ensures [x] + xs == [y] + ys <==> x == y && xs == ys
  {
    if [x] + xs == [y] + ys {
      assert ([x] + xs)[0] == x && ([y] + ys)[0] == y;
      assert ([x] + xs)[1..] == xs && ([y] + ys)[1..] == ys;
    }
  }

  /** A first byte followed by a parenthesis is not replaced, and the parenthesis is lost. */
  lemma NotReplaced()
    ensures Replacing([0xC3, 0x28]) == [(REPLACEMENT, 1), (0x28, 1)] && Decode([0xC3, 0x28]) == [0xE8]
  {
    assert Promised(0xC3) == 2;
    assert DecodePoint([0xC3, 0x28]) == (0xE8, 2);
    assert [0xC3, 0x28][1..] == [0x28];
    assert Replacing([0x28]) == [(0x28, 1)];
  }

  // ---- the numbers of code points ----

  /** The bits of a first byte with a mark, and six bits of each of the bytes that follow. */
  function Number2(b: Octet, b1: Octet): bv32 { (b as bv32 - 0xC0) * 0x40 + (b1 as bv32 - 0x80) }

  function Number3(b: Octet, b1: Octet, b2: Octet): bv32 {
    (b as bv32 - 0xE0) * 0x1000 + (b1 as bv32 - 0x80) * 0x40 + (b2 as bv32 - 0x80)
  }

  function Number4(b: Octet, b1: Octet, b2: Octet, b3: Octet): bv32 {
    (b as bv32 - 0xF0) * 0x4_0000 + (b1 as bv32 - 0x80) * 0x1000 + (b2 as bv32 - 0x80) * 0x40 + (b3 as bv32 - 0x80)
  }

  function PairNumber(hi: Unit, lo: Unit): bv32 { 0x10000 + (hi as bv32 - 0xD800) * 0x400 + (lo as bv32 - 0xDC00) }

  /** The bytes of the code point c by the table in section 3 of RFC 3629. */
  predicate Utf8Of(c: bv32, p: seq<Octet>) {
    if c <= 0x7F then |p| == 1 && p[0] as bv32 == c
    else if c <= 0x7FF then |p| == 2 && Two(p[0], p[1]) && Number2(p[0], p[1]) == c
    else if c <= 0xFFFF then
      |p| == 3 && Cont(p[1]) && Cont(p[2]) && 0xE0 <= p[0] <= 0xEF && Number3(p[0], p[1], p[2]) == c
    else
      |p| == 4 && Cont(p[1]) && Cont(p[2]) && Cont(p[3]) && 0xF0 <= p[0] <= 0xF4 &&
      Number4(p[0], p[1], p[2], p[3]) == c
  }

  /** The units of the code point c by section 2.1 of RFC 2781. */
  predicate Utf16Of(c: bv32, w: seq<Unit>) {
    if c <= 0xFFFF then |w| == 1 && w[0] as bv32 == c
    else
      |w| == 2 && 0xD800 <= w[0] <= 0xDBFF && 0xDC00 <= w[1] <= 0xDFFF && PairNumber(w[0], w[1]) == c
  }

  lemma OneByte(c: bv32, b: Octet)
    requires c <= 0x7F && b as bv32 == c
    ensures b == Low8(c)
  {
  }

  lemma TwoBytes(c: bv32, b: Octet, b1: Octet)
    requires 0x7F < c <= 0x7FF && Two(b, b1) && Number2(b, b1) == c
    ensures b == Low8(0xC0 | (c >> 6)) && b1 == Six(c)
  {
  }

  lemma ThreeBytes(c: bv32, b: Octet, b1: Octet, b2: Octet)
    requires 0x7FF < c <= 0xFFFF && Cont(b1) && Cont(b2) && 0xE0 <= b <= 0xEF && Number3(b, b1, b2) == c
    ensures b == Low8(0xE0 | (c >> 12)) && b1 == Six(c >> 6) && b2 == Six(c)
  {
  }

  lemma FourBytes(c: bv32, b: Octet, b1: Octet, b2: Octet, b3: Octet)
    requires 0xFFFF < c <= 0x10FFFF && Cont(b1) && Cont(b2) && Cont(b3) && 0xF0 <= b <= 0xF4
    requires Number4(b, b1, b2, b3) == c
    ensures b == Low8(0xF0 | (c >> 18)) && b1 == Six(c >> 12) && b2 == Six(c >> 6) && b3 == Six(c)
  {
  }

  lemma Utf8Unique(c: bv32, p: seq<Octet>)
    requires c <= 0x10FFFF && Utf8Of(c, p)
    ensures p == EncodePoint(c)
  {
    hide Low8, Six, Two, Cont, Number2, Number3, Number4;
    if c <= 0x7F { OneByte(c, p[0]); }
    else if c <= 0x7FF { TwoBytes(c, p[0], p[1]); }
    else if c <= 0xFFFF { ThreeBytes(c, p[0], p[1], p[2]); }
    else { FourBytes(c, p[0], p[1], p[2], p[3]); }
  }

  lemma OneUnitOf(c: bv32, u: Unit)
    requires c <= 0xFFFF && u as bv32 == c
    ensures u == Low16(c)
  {
  }

  lemma PairOf(c: bv32, hi: Unit, lo: Unit)
    requires 0xFFFF < c <= 0x10FFFF && High(hi) && Low(lo) && PairNumber(hi, lo) == c
    ensures hi == HighUnit(c) && lo == LowUnit(c)
  {
  }

  lemma Utf16Unique(c: bv32, w: seq<Unit>)
    requires c <= 0x10FFFF && Utf16Of(c, w)
    ensures w == Units(c)
  {
    hide Low16, HighUnit, LowUnit, PairNumber;
    if c <= 0xFFFF { OneUnitOf(c, w[0]); } else { PairOf(c, w[0], w[1]); }
  }

  /** Every code point that is no surrogate goes from its units to its bytes and back, wherever
      it stands. */
  lemma CodePointBothWays(c: bv32, p: seq<Octet>, w: seq<Unit>, units: seq<Unit>, bytes: seq<Octet>)
    requires c <= 0xD7FF || 0xE000 <= c <= 0x10FFFF
    requires Utf8Of(c, p) && Utf16Of(c, w)
    ensures Encode(w + units) == p + Encode(units)
    ensures Decode(p + bytes) == w + Decode(bytes)
  {
    hide Utf8Of, Utf16Of, Encode, Decode, EncodePoint, Units;
    Utf8Unique(c, p);
    Utf16Unique(c, w);
    EncodeScalar(c, units);
    DecodeEncoded(c, bytes);
  }
}
