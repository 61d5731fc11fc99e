/** The bytes of a chunk, one by one: its header, which the loader compares, the numbers and
    constants, and one whole chunk. */
module DumpBytes {
  import opened Common
  import opened DumpFormat
  import opened DumpRoundTrip

  // ---- the header ----

  /** What must stand after the first byte of a chunk. */
  function Prescribed(luaInt: Eight, luaNum: Eight): (h: Bytes)
    ensures |h| == 30
  {
    [0x4C, 0x75, 0x61, 0x54, 0x00, 0x19, 0x93, 0x0D, 0x0A, 0x1A, 0x0A, 0x04, 0x08, 0x08] + luaInt + luaNum
  }

  /** The complaint about byte i, and the end of the part of the header that is read with it. */
  function Complaint(i: nat): string {
    if i < 3 then "not a binary chunk"
    else if i < 4 then "version mismatch"
    else if i < 5 then "format mismatch"
    else if i < 11 then "corrupted chunk"
    else if i < 12 then "Instruction size mismatch"
    else if i < 13 then "lua_Integer size mismatch"
    else if i < 14 then "lua_Number size mismatch"
    else if i < 22 then "integer format mismatch"
    else "float format mismatch"
  }

  function PartEnd(i: nat): nat {
    if i < 3 then 3 else if i < 5 then i + 1 else if i < 11 then 11 else if i < 14 then i + 1 else if i < 22 then 22 else 30
  }

  /** Byte i is the first one that is missing or wrong. */
  ghost predicate FirstWrong(h: Bytes, s: Bytes, i: nat) {
    i < |h| && i <= |s| && (i < |s| ==> s[i] != h[i]) && forall j :: 0 <= j < i ==> s[j] == h[j]
  }

  lemma LiteralRead(lit: Bytes, what: string, s: Bytes, at: nat)
    requires at <= |s|
    ensures CheckLiteral(lit, what, s[at..]) ==
      if at + |lit| > |s| then Err(Truncated)
      else if s[at..at + |lit|] == lit then Ok((), s[at + |lit|..]) else Err(BadHeader(what))
  {
    if at + |lit| <= |s| {
      assert s[at..][..|lit|] == s[at..at + |lit|];
      assert s[at..][|lit|..] == s[at + |lit|..];
    }
  }

  lemma ByteRead(b: Byte, what: string, s: Bytes, at: nat)
    requires at <= |s|
    ensures CheckByte(b, what, s[at..]) ==
      if at == |s| then Err(Truncated) else if s[at] == b then Ok((), s[at + 1..]) else Err(BadHeader(what))
  {
    if at < |s| { assert s[at..][1..] == s[at + 1..]; }
  }

  /** The part from a to b is right exactly when none of its bytes is missing or wrong. */
  lemma PartRight(h: Bytes, s: Bytes, a: nat, b: nat, i: nat)
    requires a <= b <= |h| && FirstWrong(h, s, i) && a <= i
    ensures i >= b ==> b <= |s| && s[a..b] == h[a..b]
    ensures i < b <= |s| ==> s[a..b] != h[a..b]
  {
    if i < b <= |s| { assert s[a..b][i - a] != h[a..b][i - a]; }
  }

  lemma PrescribedParts(luaInt: Eight, luaNum: Eight)
    ensures var h := Prescribed(luaInt, luaNum);
      h[0..3] == SIGNATURE[1..] && h[3] == 0x54 && h[4] == 0 && h[5..11] == DATA && h[11] == 4 && h[12] == 8 && h[13] == 8 &&
      h[14..22] == luaInt && h[22..30] == luaNum
  {
  }

  /** A header with a missing or wrong byte is refused for the first such byte. */
  lemma HeaderRefused(luaInt: Eight, luaNum: Eight, s: Bytes, i: nat)
    requires FirstWrong(Prescribed(luaInt, luaNum), s, i)
    ensures Undump(luaInt, luaNum, s) == Err(if |s| < PartEnd(i) then Truncated else BadHeader(Complaint(i)))
  {
    hide CheckLiteral, CheckByte, FirstWrong, Prescribed, LoadFunction;
    var h := Prescribed(luaInt, luaNum);
    PrescribedParts(luaInt, luaNum);
    FirstWrongIs(h, s, i);
    PartRight(h, s, 0, 3, i);
    assert s[0..] == s;
    LiteralRead(SIGNATURE[1..], "not a binary chunk", s, 0);
    if i >= 3 {
      ByteRead(0x54, "version mismatch", s, 3);
      if i >= 4 {
        ByteRead(0, "format mismatch", s, 4);
        if i >= 5 { DataRefused(luaInt, luaNum, s, i); }
      }
    }
  }

  lemma FirstWrongIs(h: Bytes, s: Bytes, i: nat)
    requires FirstWrong(h, s, i)
    ensures i < |h| && i <= |s| && (i < |s| ==> s[i] != h[i]) && s[..i] == h[..i]
    ensures forall j :: 0 <= j < i ==> s[j] == h[j]
  {
  }

  /** The rest of checkHeader, from the data on. */
  function CheckRest(luaInt: Eight, luaNum: Eight, s: Bytes): Loaded<()> {
    var (_, s5) :- CheckLiteral(DATA, "corrupted chunk", s);
    var (_, s6) :- CheckByte(4, "Instruction size mismatch", s5);
    var (_, s7) :- CheckByte(8, "lua_Integer size mismatch", s6);
    var (_, s8) :- CheckByte(8, "lua_Number size mismatch", s7);
    var (_, s9) :- CheckLiteral(luaInt, "integer format mismatch", s8);
    CheckLiteral(luaNum, "float format mismatch", s9)
  }

  lemma DataRefused(luaInt: Eight, luaNum: Eight, s: Bytes, i: nat)
    requires FirstWrong(Prescribed(luaInt, luaNum), s, i) && 5 <= i && 5 <= |s|
    ensures CheckRest(luaInt, luaNum, s[5..]) == Err(if |s| < PartEnd(i) then Truncated else BadHeader(Complaint(i)))
  {
    hide CheckLiteral, CheckByte, FirstWrong, Prescribed;
    var h := Prescribed(luaInt, luaNum);
    PrescribedParts(luaInt, luaNum);
    FirstWrongIs(h, s, i);
    PartRight(h, s, 5, 11, i);
    LiteralRead(DATA, "corrupted chunk", s, 5);
    if i >= 11 {
      ByteRead(4, "Instruction size mismatch", s, 11);
      if i >= 12 { ByteRead(8, "lua_Integer size mismatch", s, 12); }
      if i >= 13 { ByteRead(8, "lua_Number size mismatch", s, 13); }
      if i >= 14 {
        PartRight(h, s, 14, 22, i);
        LiteralRead(luaInt, "integer format mismatch", s, 14);
      }
      if i >= 22 {
        PartRight(h, s, 22, 30, i);
        LiteralRead(luaNum, "float format mismatch", s, 22);
      }
    }
  }

  /** Where two sequences differ first. */
  lemma FindWrong(h: Bytes, s: Bytes) returns (i: nat)
    requires !(|s| >= |h| && s[..|h|] == h)
    ensures FirstWrong(h, s, i)
  {
    i := 0;
    while i < |h| && i < |s| && s[i] == h[i]
      invariant i <= |h| && i <= |s| && forall j :: 0 <= j < i ==> s[j] == h[j]
    {
      i := i + 1;
    }
    assert s[..i] == h[..i];
  }

  /** A chunk that is loaded starts with the prescribed bytes, and only then is anything else of it
      read: the number of upvalues, and the main function. */
  lemma HeaderChecked(luaInt: Eight, luaNum: Eight, s: Bytes)
    ensures var h := Prescribed(luaInt, luaNum);
      if |s| >= 30 && s[..30] == h then
        Undump(luaInt, luaNum, s) ==
          if |s| == 30 then Err(Truncated)
          else var f := LoadFunction(None, s[31..]); if f.Ok? then Ok((s[30], f.value), f.rest) else Err(f.error)
      else Undump(luaInt, luaNum, s).Err? && (exists i: nat :: FirstWrong(h, s, i))
  {
    hide LoadFunction, CheckHeader, Prescribed, Header;
    var h := Prescribed(luaInt, luaNum);
    if |s| >= 30 && s[..30] == h {
      var rest := s[30..];
      HeaderWritten(luaInt, luaNum);
      HeaderBack(luaInt, luaNum, rest);
      assert (Header(luaInt, luaNum) + rest)[1..] == h + rest == s;
      if |s| > 30 { assert rest[1..] == s[31..]; }
    } else {
      var i := FindWrong(h, s);
      HeaderRefused(luaInt, luaNum, s, i);
    }
  }

  /** What is written is the first byte of the signature and the prescribed bytes. */
  lemma HeaderWritten(luaInt: Eight, luaNum: Eight)
    ensures Header(luaInt, luaNum) == [0x1B] + Prescribed(luaInt, luaNum)
  {
  }

  // ---- numbers ----

  /** The number that digits to the base 128 stand for. */
  function Value(b: Bytes): nat {
    if b == [] then 0 else Value(b[..|b| - 1]) * 128 + b[|b| - 1] % 128
  }

  lemma {:induction false} FrontDigits(x: nat)
    ensures Value(Front(x)) == x && (forall i :: 0 <= i < |Front(x)| ==> Front(x)[i] < 128)
    ensures if x == 0 then Front(x) == [] else Front(x) != [] && Front(x)[0] != 0
  {
    if x > 0 {
      FrontDigits(x / 128);
      assert Front(x)[..|Front(x)| - 1] == Front(x / 128);
    }
  }

  /** A number is written in digits to the base 128, the highest first and not zero, and the last
      one, and no other, with its high bit set. */
  lemma SizeWritten(x: nat)
    ensures var b := DumpSize(x);
      b != [] && Value(b) == x && b[|b| - 1] >= 128 && (|b| > 1 ==> b[0] != 0) &&
      forall i :: 0 <= i < |b| - 1 ==> b[i] < 128
  {
    hide Front;
    FrontDigits(x / 128);
    assert DumpSize(x)[..|DumpSize(x)| - 1] == Front(x / 128);
  }

  /** Numbers are read back up to 0x7FFFFF7F, lengths of strings up to 0xFFFFFFFFFFFFFF7E. */
  lemma LimitsInNumbers(x: nat, rest: Bytes)
    ensures x < 0x7FFF_FF80 ==> LoadInt(DumpSize(x) + rest) == Ok(x, rest)
    ensures x >= 0x7FFF_FF80 ==> LoadInt(DumpSize(x) + rest) == Err(IntegerOverflow)
    ensures FitsString(Some(rest)) <==> |rest| < 0xFFFF_FFFF_FFFF_FF7F
  {
    SizeBack(x, INT_LIMIT, rest);
  }

  // ---- constants ----

  /** The tag of each kind of constant, and what follows it. */
  lemma ConstantWritten(f: Eight, s: Bytes)
    ensures DumpConstant(Nil) == [0x00] && DumpConstant(False) == [0x01] && DumpConstant(True) == [0x11]
    ensures DumpConstant(Integer(f)) == [0x03] + f && DumpConstant(Float(f)) == [0x13] + f
    ensures DumpConstant(Str(s)) == [if |s| <= 40 then 0x04 else 0x14] + DumpSize(|s| + 1) + s
  {
    assert [Tag(Str(s))] + (DumpSize(|s| + 1) + s) == [Tag(Str(s))] + DumpSize(|s| + 1) + s;
  }

  // ---- a whole function ----

  /** A function with a child, and with something in every vector. */
  function Sample(): Proto {
    Proto(Some([0x40, 0x78]), 0, 0, 0, 1, 2, [[1, 2, 3, 4]],
          [Nil, False, True, Integer([1, 2, 3, 4, 5, 6, 7, 8]), Float([8, 7, 6, 5, 4, 3, 2, 1]), Str([0x61, 0x62])],
          [Upvalue(Some([0x45]), 1, 0, 2)], [SampleChild()], [9], [AbsLine(5, 300)], [LocVar(Some([0x76]), 1, 2)])
  }

  function SampleChild(): Proto {
    Proto(Some([0x40, 0x78]), 3, 400, 1, 0, 2, [], [], [], [], [], [], [])
  }

  lemma SmallSizes()
    ensures forall x: nat :: x < 128 ==> DumpSize(x) == [x + 128]
  {
    forall x: nat | x < 128 ensures DumpSize(x) == [x + 128] {
      assert Front(0) == [];
    }
  }

  lemma TwoDigits(x: nat)
    requires 128 <= x < 16384
    ensures DumpSize(x) == [x / 128, x % 128 + 128]
  {
    assert Front(x / 128 / 128) == [] && Front(x / 128) == [x / 128];
  }

  lemma OneElement<T>(dump: T -> Bytes, x: T)
    ensures DumpVector(dump, [x]) == [0x81] + dump(x) && DumpVector(dump, []) == [0x80]
  {
    SmallSizes();
    assert DumpEach(dump, []) == [];
    assert DumpEach(dump, [x]) == dump(x) + DumpEach(dump, []);
  }

  lemma SampleHead()
    ensures DumpHead(Sample(), None, false) == [0x83, 0x40, 0x78, 0x80, 0x80, 0x00, 0x01, 0x02]
  {
    hide DumpSize;
    SmallSizes();
  }

  lemma EachNext<T>(dump: T -> Bytes, x: T, xs: seq<T>)
    ensures DumpEach(dump, [x] + xs) == dump(x) + DumpEach(dump, xs) && DumpEach(dump, []) == []
  {
    assert ([x] + xs)[1..] == xs;
  }

  lemma SampleConstants()
    ensures DumpVector(DumpConstant, Sample().k) ==
      [0x86] + ([0x00] + ([0x01] + ([0x11] + ([0x03, 0x01, 0x02, 0x03, 0x04, 0x05, 0x06, 0x07, 0x08] +
      ([0x13, 0x08, 0x07, 0x06, 0x05, 0x04, 0x03, 0x02, 0x01] + [0x04, 0x83, 0x61, 0x62])))))
  {
    hide DumpSize, DumpConstant, DumpEach;
    SmallSizes();
    var i, f, t := Integer([1, 2, 3, 4, 5, 6, 7, 8]), Float([8, 7, 6, 5, 4, 3, 2, 1]), Str([0x61, 0x62]);
    ConstantWritten([1, 2, 3, 4, 5, 6, 7, 8], [0x61, 0x62]);
    ConstantWritten([8, 7, 6, 5, 4, 3, 2, 1], []);
    EachNext(DumpConstant, t, []);
    assert [t] + [] == [t] && DumpConstant(t) + [] == DumpConstant(t) == [0x04, 0x83, 0x61, 0x62];
    EachNext(DumpConstant, f, [t]);
    EachNext(DumpConstant, i, [f] + [t]);
    EachNext(DumpConstant, True, [i] + ([f] + [t]));
    EachNext(DumpConstant, False, [True] + ([i] + ([f] + [t])));
    EachNext(DumpConstant, Nil, [False] + ([True] + ([i] + ([f] + [t]))));
    assert Sample().k == [Nil] + ([False] + ([True] + ([i] + ([f] + [t]))));
  }

  lemma SampleBody()
    ensures DumpBody(Sample()) ==
      [0x81, 0x01, 0x02, 0x03, 0x04] + (DumpVector(DumpConstant, Sample().k) + [0x81, 0x01, 0x00, 0x02])
  {
    hide DumpVector;
    OneElement<Four>(DumpFour, [1, 2, 3, 4]);
    OneElement(DumpUpvalue, Upvalue(Some([0x45]), 1, 0, 2));
  }

  lemma SampleDebug()
    ensures DumpDebug(Sample(), false) ==
      [0x81, 0x09, 0x81, 0x85, 0x02, 0xAC, 0x81, 0x82, 0x76, 0x81, 0x82, 0x81, 0x82, 0x45]
  {
    hide DumpVector, DumpSize;
    SmallSizes();
    TwoDigits(300);
    OneElement<Byte>(DumpByte, 9);
    OneElement(DumpAbsLine, AbsLine(5, 300));
    OneElement(DumpLocVar, LocVar(Some([0x76]), 1, 2));
    OneElement(DumpName, Upvalue(Some([0x45]), 1, 0, 2));
  }

  lemma SampleChildWritten()
    ensures DumpFunction(SampleChild(), Sample().source, false) ==
      [0x80, 0x83, 0x03, 0x90, 0x01, 0x00, 0x02, 0x80, 0x80, 0x80, 0x80, 0x80, 0x80, 0x80, 0x80]
  {
    hide DumpVector, DumpSize;
    var p := SampleChild();
    SmallSizes();
    TwoDigits(400);
    OneElement<Byte>(DumpByte, 0);
    OneElement(DumpAbsLine, AbsLine(0, 0));
    OneElement(DumpLocVar, LocVar(None, 0, 0));
    OneElement(DumpName, Upvalue(None, 0, 0, 0));
    OneElement<Four>(DumpFour, [0, 0, 0, 0]);
    OneElement(DumpConstant, Nil);
    OneElement(DumpUpvalue, Upvalue(None, 0, 0, 0));
    assert DumpHead(p, Sample().source, false) == [0x80, 0x83, 0x03, 0x90, 0x01, 0x00, 0x02];
    assert DumpBody(p) == [0x80, 0x80, 0x80] && DumpProtos(p, 0, false) == [];
    assert DumpDebug(p, false) == [0x80, 0x80, 0x80, 0x80];
  }

  /** The bytes of the sample: source, lines, parameters, vararg flag and stack size; code;
      constants; upvalues; the child, which has its parent's source; line differences, absolute
      lines, local variables and names of upvalues. */
  lemma SampleWritten()
    ensures DumpFunction(Sample(), None, false) ==
      [0x83, 0x40, 0x78, 0x80, 0x80, 0x00, 0x01, 0x02] +
      (([0x81, 0x01, 0x02, 0x03, 0x04] +
        (([0x86] + ([0x00] + ([0x01] + ([0x11] + ([0x03, 0x01, 0x02, 0x03, 0x04, 0x05, 0x06, 0x07, 0x08] +
          ([0x13, 0x08, 0x07, 0x06, 0x05, 0x04, 0x03, 0x02, 0x01] + [0x04, 0x83, 0x61, 0x62])))))) +
         [0x81, 0x01, 0x00, 0x02])) +
       ([0x81] +
        ([0x80, 0x83, 0x03, 0x90, 0x01, 0x00, 0x02, 0x80, 0x80, 0x80, 0x80, 0x80, 0x80, 0x80, 0x80] +
         [0x81, 0x09, 0x81, 0x85, 0x02, 0xAC, 0x81, 0x82, 0x76, 0x81, 0x82, 0x81, 0x82, 0x45])))
  {
    hide DumpHead, DumpBody, DumpDebug, DumpSize, DumpVector;
    SmallSizes();
    SampleHead();
    SampleBody();
    SampleConstants();
    SampleChildWritten();
    SampleDebug();
    var p := Sample();
    SampleChildren(p);
    assert DumpSize(|p.protos|) == [0x81];
  }

  lemma SampleChildren(p: Proto)
    requires |p.protos| == 1
    ensures DumpProtos(p, 0, false) == DumpFunction(p.protos[0], p.source, false)
  {
    hide DumpFunction;
    assert DumpProtos(p, 1, false) == [];
    assert DumpProtos(p, 0, false) == DumpFunction(p.protos[0], p.source, false) + DumpProtos(p, 1, false);
  }
}
