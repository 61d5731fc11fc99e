/** java_string_to_utf8 and utf8_to_java as loops over buffers of the sizes the code allocates,
    proved to stay inside them and to hold what UtfCodec says. */
module UtfMarshal {
  import opened UtfCodec

  lemma Regroup<T>(a: seq<T>, b: seq<T>, c: seq<T>)
    ensures a + (b + c) == (a + b) + c
  {
  }

  /** What one more step adds to the front part of the result. */
  lemma EncodeStep(u: seq<Unit>, i: nat, done: seq<Octet>)
    requires i < |u| && done + Encode(u[i..]) == Encode(u)
    ensures var (c, n) := FirstPoint(u[i..]);
      i + n <= |u| && (done + EncodePoint(c)) + Encode(u[i + n..]) == Encode(u)
  {
    hide FirstPoint, EncodePoint;
    var (c, n) := FirstPoint(u[i..]);
    var rest := u[i + n..];
    assert u[i..][n..] == rest;
    Regroup(done, EncodePoint(c), Encode(rest));
  }

  lemma DecodeStep(s: seq<Octet>, i: nat, done: seq<Unit>)
    requires i < |s| && done + Decode(s[i..]) == Decode(s)
    ensures var (c, n) := DecodePoint(s[i..]);
      i + n <= |s| && (done + Units(c)) + Decode(s[i + n..]) == Decode(s)
  {
    hide DecodePoint, Units;
    var (c, n) := DecodePoint(s[i..]);
    var rest := s[i + n..];
    assert s[i..][n..] == rest;
    Regroup(done, Units(c), Decode(rest));
  }

  method PutByte(out: array<Octet>, k: nat, b: Octet) returns (next: nat)
    requires k < out.Length
    modifies out
    ensures next == k + 1 && out[..next] == old(out[..k]) + [b]
  {
    out[k] := b;
    next := k + 1;
  }

  /** The branches of the encoding loop that write the bytes of one code point at k. */
  method PutPoint(out: array<Octet>, start: nat, c: bv32) returns (k: nat)
    requires start + |EncodePoint(c)| <= out.Length
    modifies out
    ensures k == start + |EncodePoint(c)|
    ensures out[..k] == old(out[..start]) + EncodePoint(c)
  {
    hide Low8, Six;
    k := start;
    if c < 0x80 {
      k := PutByte(out, k, Low8(c));
    } else if c < 0x800 {
      k := PutByte(out, k, Low8(0xC0 | (c >> 6)));
      k := PutByte(out, k, Six(c));
    } else if c < 0x10000 {
      k := PutByte(out, k, Low8(0xE0 | (c >> 12)));
      k := PutByte(out, k, Six(c >> 6));
      k := PutByte(out, k, Six(c));
    } else {
      k := PutByte(out, k, Low8(0xF0 | (c >> 18)));
      k := PutByte(out, k, Six(c >> 12));
      k := PutByte(out, k, Six(c >> 6));
      k := PutByte(out, k, Six(c));
    }
  }

  /** The branches of the encoding loop that read a code point at i. */
  method ReadUnits(u: array<Unit>, i: nat) returns (c: bv32, next: nat)
    requires i < u.Length
    ensures (c, next - i) == FirstPoint(u[i..])
  {
    hide Combine, High, Low, EncodePoint;
    c, next := u[i] as bv32, i;
    if High(u[i]) && next + 1 < u.Length {
      var lo := u[next + 1];
      if Low(lo) {
        c := Combine(u[i], lo);
        next := next + 1;
      }
    }
    next := next + 1;
  }

  /** java_string_to_utf8. The string may be null, and `granted` says whether the virtual machine
      gives its units and malloc the buffer. */
  method JavaStringToUtf8(u: array?<Unit>, granted: bool) returns (out: array?<Octet>, outLen: nat)
    ensures out == null <==> u == null || !granted
    ensures out == null ==> outLen == 0
    ensures out != null ==> fresh(out) && out.Length == 3 * u.Length + 1 && outLen < out.Length
    ensures out != null ==> out[..outLen] == Encode(u[..]) && out[outLen] == 0
  {
    hide EncodePoint, FirstPoint, Encode;
    if u == null || !granted { return null, 0; }
    var n := u.Length;
    var buffer := new Octet[n * 3 + 1];
    var k, i := 0, 0;
    assert u[0..] == u[..];
    while i < n
      invariant 0 <= i <= n && 0 <= k <= 3 * i && buffer.Length == n * 3 + 1
      invariant buffer[..k] + Encode(u[i..]) == Encode(u[..])
    {
      assert u[..][i..] == u[i..];
      EncodeStep(u[..], i, buffer[..k]);
      var c, next := ReadUnits(u, i);
      k := PutPoint(buffer, k, c);
      i := next;
    }
    buffer[k] := 0;
    EncodeNothing(u[n..]);
    return buffer, k;
  }

  lemma EncodeNothing(u: seq<Unit>)
    requires u == []
    ensures Encode(u) == []
  {
  }

  /** The two branches of the decoding loop that write a code point at k. */
  method PutUnits(buf: array<Unit>, start: nat, c: bv32) returns (k: nat)
    requires start + |Units(c)| <= buf.Length
    modifies buf
    ensures k == start + |Units(c)|
    ensures buf[..k] == old(buf[..start]) + Units(c)
  {
    hide Low16, HighUnit, LowUnit;
    k := start;
    if c <= 0xFFFF {
      buf[k] := Low16(c); k := k + 1;
    } else {
      buf[k] := HighUnit(c); k := k + 1;
      buf[k] := LowUnit(c); k := k + 1;
    }
  }

  /** The branches of the decoding loop that read a code point at i. */
  method ReadPoint(s: array<Octet>, i: nat) returns (cp: bv32, adv: nat)
    requires i < s.Length
    ensures (cp, adv) == DecodePoint(s[i..])
  {
    hide Join2, Join3, Join4;
    var b0, len := s[i], s.Length;
    cp, adv := REPLACEMENT, 1;
    if b0 < 0x80 {
      cp := b0 as bv32;
    } else if b0 & 0xE0 == 0xC0 {
      if i + 1 < len { cp, adv := Join2(b0, s[i + 1]), 2; }
    } else if b0 & 0xF0 == 0xE0 {
      if i + 2 < len { cp, adv := Join3(b0, s[i + 1], s[i + 2]), 3; }
    } else if b0 & 0xF8 == 0xF0 {
      if i + 3 < len { cp, adv := Join4(b0, s[i + 1], s[i + 2], s[i + 3]), 4; }
    }
  }

  /** utf8_to_java. The bytes may be null, and `granted` says whether malloc gives the buffer and
      the virtual machine makes the string. */
  method Utf8ToJava(s: array?<Octet>, granted: bool) returns (out: array?<Unit>)
    ensures out == null <==> s == null || !granted
    ensures out != null ==> fresh(out) && out[..] == Decode(s[..])
  {
    hide DecodePoint, Units;
    if s == null || !granted { return null; }
    var buf := new Unit[s.Length + 1];
    var i, k := 0, 0;
    assert s[0..] == s[..];
    while i < s.Length
      invariant 0 <= k <= i <= s.Length && buf.Length == s.Length + 1
      invariant buf[..k] + Decode(s[i..]) == Decode(s[..])
    {
      assert s[..][i..] == s[i..];
      DecodeStep(s[..], i, buf[..k]);
      var cp, adv := ReadPoint(s, i);
      UnitsFit(s[i..]);
      k := PutUnits(buf, k, cp);
      i := i + adv;
    }
    out := new Unit[k](j requires 0 <= j < k && k <= buf.Length reads buf => buf[j]);
    assert out[..] == buf[..k];
  }

  /** No code point takes more units than it had bytes. */
  lemma UnitsFit(s: seq<Octet>)
    requires s != []
    ensures |Units(DecodePoint(s).0)| <= DecodePoint(s).1
  {
    hide Join2, Join3, Join4, Promised, HighUnit, LowUnit, Low16;
  }
}
