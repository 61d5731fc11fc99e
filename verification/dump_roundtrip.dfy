/** Loading undoes dumping: exactly when, and what a stripped dump keeps. */
module DumpRoundTrip {
  import opened Common
  import opened DumpFormat

  lemma Regroup(a: Bytes, b: Bytes, c: Bytes)
    ensures (a + b) + c == a + (b + c)
  {
  }

  // ---- sizes ----

  lemma {:induction false} FrontLoads(x: nat, tail: Bytes, limit: nat)
    requires tail != []
    ensures LoadDigits(Front(x) + tail, 0, limit) ==
      if x == 0 then LoadDigits(tail, 0, limit)
      else if x / 128 < limit then LoadDigits(tail, x, limit)
      else Err(IntegerOverflow)
  {
    if x == 0 {
      assert Front(0) + tail == tail;
    } else {
      var d: Bytes := [x % 128];
      FrontLoads(x / 128, d + tail, limit);
      Regroup(Front(x / 128), d, tail);
      assert (d + tail)[1..] == tail;
    }
  }

  /** The sizes that can be read back: those below the last band of 128 values under the
      limit. */
  predicate Fits(x: nat, limit: nat) { x < 128 * (limit / 128) }

  /** A size comes back exactly when it fits; any other is an integer overflow. */
  lemma SizeBack(x: nat, limit: nat, rest: Bytes)
    ensures LoadUnsigned(DumpSize(x) + rest, limit) ==
      if Fits(x, limit) then Ok(x, rest) else Err(IntegerOverflow)
  {
    var d: Bytes := [x % 128 + 128];
    FrontLoads(x / 128, d + rest, limit / 128);
    Regroup(Front(x / 128), d, rest);
    assert (d + rest)[1..] == rest;
    assert x / 128 / 128 <= x / 128;
  }

  /** loadUnsigned is meant to accept every size up to the limit. It does not accept INT_MAX,
      nor the 127 values before it. */
  lemma LastBandRejected(x: nat, rest: Bytes)
    requires 0x7FFF_FF80 <= x <= INT_LIMIT
    ensures LoadInt(DumpSize(x) + rest) == Err(IntegerOverflow)
  {
    SizeBack(x, INT_LIMIT, rest);
  }

  predicate FitsInt(x: nat) { Fits(x, INT_LIMIT) }

  predicate FitsString(s: Option<Bytes>) { s.Some? ==> Fits(|s.value| + 1, SIZE_LIMIT) }

  lemma StringBack(s: Option<Bytes>, rest: Bytes)
    ensures LoadString(DumpString(s) + rest) == if FitsString(s) then Ok(s, rest) else Err(IntegerOverflow)
  {
    match s
    case None => SizeBack(0, SIZE_LIMIT, rest);
    case Some(b) =>
      SizeBack(|b| + 1, SIZE_LIMIT, b + rest);
      Regroup(DumpSize(|b| + 1), b, rest);
      assert (b + rest)[..|b|] == b && (b + rest)[|b|..] == rest;
  }

  // ---- vectors ----

  predicate AllFit<T(!new)>(fits: T -> bool, xs: seq<T>) { forall i :: 0 <= i < |xs| ==> fits(xs[i]) }

  function Mapped<T, U>(view: T -> U, xs: seq<T>): (r: seq<U>)
    ensures |r| == |xs| && forall i :: 0 <= i < |xs| ==> r[i] == view(xs[i])
  {
    seq(|xs|, i requires 0 <= i < |xs| => view(xs[i]))
  }

  /** The loader reads what the dumper wrote for one element, as `view` shows it. */
  ghost predicate Undoes<T(!new), U(!new)>(dump: T -> Bytes, load: Bytes -> Loaded<U>, fits: T -> bool, view: T -> U) {
    (forall t :: Shorter(load(t), t)) &&
    forall x, t :: load(dump(x) + t) == if fits(x) then Ok(view(x), t) else Err(IntegerOverflow)
  }

  lemma {:induction false} EachBack<T(!new), U(!new)>(dump: T -> Bytes, load: Bytes -> Loaded<U>, fits: T -> bool,
                                                      view: T -> U, xs: seq<T>, rest: Bytes)
    requires Undoes(dump, load, fits, view)
    ensures LoadEach(load, |xs|, DumpEach(dump, xs) + rest) ==
      if AllFit(fits, xs) then Ok(Mapped(view, xs), rest) else Err(IntegerOverflow)
    decreases |xs|
  {
    if xs == [] {
      assert DumpEach(dump, xs) + rest == rest;
    } else {
      var tail := DumpEach(dump, xs[1..]) + rest;
      Regroup(dump(xs[0]), DumpEach(dump, xs[1..]), rest);
      assert load(dump(xs[0]) + tail) == if fits(xs[0]) then Ok(view(xs[0]), tail) else Err(IntegerOverflow);
      EachBack(dump, load, fits, view, xs[1..], rest);
      AllFitHead(fits, xs);
      assert Mapped(view, xs) == [view(xs[0])] + Mapped(view, xs[1..]);
    }
  }

  lemma AllFitHead<T(!new)>(fits: T -> bool, xs: seq<T>)
    requires xs != []
    ensures AllFit(fits, xs) <==> fits(xs[0]) && AllFit(fits, xs[1..])
  {
    if fits(xs[0]) && AllFit(fits, xs[1..]) {
      forall i | 0 <= i < |xs| ensures fits(xs[i]) {
        if i > 0 { assert xs[i] == xs[1..][i - 1]; }
      }
    }
  }

  predicate VectorFits<T(!new)>(fits: T -> bool, xs: seq<T>) { FitsInt(|xs|) && AllFit(fits, xs) }

  lemma VectorBack<T(!new), U(!new)>(dump: T -> Bytes, load: Bytes -> Loaded<U>, fits: T -> bool,
                                     view: T -> U, xs: seq<T>, rest: Bytes)
    requires Undoes(dump, load, fits, view)
    ensures LoadVector(load, DumpVector(dump, xs) + rest) ==
      if VectorFits(fits, xs) then Ok(Mapped(view, xs), rest) else Err(IntegerOverflow)
  {
    Regroup(DumpSize(|xs|), DumpEach(dump, xs), rest);
    SizeBack(|xs|, INT_LIMIT, DumpEach(dump, xs) + rest);
    EachBack(dump, load, fits, view, xs, rest);
  }

  function Same<T>(x: T): T { x }

  // ---- elements ----

  predicate FitsAny<T>(x: T) { true }

  predicate FitsConstant(c: Constant) { c.Str? ==> FitsString(Some(c.s)) }

  predicate FitsAbsLine(a: AbsLine) { FitsInt(a.pc) && FitsInt(a.line) }

  predicate FitsLocVar(v: LocVar) { FitsString(v.varname) && FitsInt(v.startpc) && FitsInt(v.endpc) }

  predicate FitsName(u: Upvalue) { FitsString(u.name) }

  function Unnamed(u: Upvalue): Upvalue { u.(name := None) }

  function NameOf(u: Upvalue): Option<Bytes> { u.name }

  lemma BlockBack(b: Bytes, rest: Bytes)
    ensures LoadBlock(|b|, b + rest) == Ok(b, rest)
  {
    assert (b + rest)[..|b|] == b && (b + rest)[|b|..] == rest;
  }

  lemma ByteBack(b: Byte, rest: Bytes)
    ensures LoadByte([b] + rest) == Ok(b, rest)
  {
    assert ([b] + rest)[1..] == rest;
  }

  lemma ConstantBack(c: Constant, rest: Bytes)
    ensures LoadConstant(DumpConstant(c) + rest) == if FitsConstant(c) then Ok(c, rest) else Err(IntegerOverflow)
  {
    var t: Bytes := [Tag(c)];
    match c
    case Float(f) => Regroup(t, f, rest); ByteBack(Tag(c), f + rest); BlockBack(f, rest);
    case Integer(i) => Regroup(t, i, rest); ByteBack(Tag(c), i + rest); BlockBack(i, rest);
    case Str(s) =>
      Regroup(t, DumpString(Some(s)), rest);
      ByteBack(Tag(c), DumpString(Some(s)) + rest);
      StringBack(Some(s), rest);
    case _ => ByteBack(Tag(c), rest);
  }

  lemma UpvalueBack(u: Upvalue, rest: Bytes)
    ensures LoadUpvalue(DumpUpvalue(u) + rest) == Ok(Unnamed(u), rest)
  {
    var c: Bytes := [u.kind] + rest;
    assert DumpUpvalue(u) + rest == [u.instack] + ([u.idx] + c);
    ByteBack(u.instack, [u.idx] + c);
    ByteBack(u.idx, c);
    ByteBack(u.kind, rest);
  }

  lemma AbsLineBack(a: AbsLine, rest: Bytes)
    ensures LoadAbsLine(DumpAbsLine(a) + rest) == if FitsAbsLine(a) then Ok(a, rest) else Err(IntegerOverflow)
  {
    Regroup(DumpSize(a.pc), DumpSize(a.line), rest);
    SizeBack(a.pc, INT_LIMIT, DumpSize(a.line) + rest);
    SizeBack(a.line, INT_LIMIT, rest);
  }

  lemma LocVarBack(v: LocVar, rest: Bytes)
    ensures LoadLocVar(DumpLocVar(v) + rest) == if FitsLocVar(v) then Ok(v, rest) else Err(IntegerOverflow)
  {
    var b := DumpSize(v.startpc) + DumpSize(v.endpc);
    Regroup(DumpString(v.varname), b, rest);
    Regroup(DumpSize(v.startpc), DumpSize(v.endpc), rest);
    StringBack(v.varname, b + rest);
    SizeBack(v.startpc, INT_LIMIT, DumpSize(v.endpc) + rest);
    SizeBack(v.endpc, INT_LIMIT, rest);
  }

  lemma ElementsUndo()
    ensures Undoes(DumpByte, LoadByte, FitsAny<Byte>, Same<Byte>)
    ensures Undoes(DumpFour, LoadFour, FitsAny<Four>, Same<Four>)
    ensures Undoes(DumpConstant, LoadConstant, FitsConstant, Same<Constant>)
    ensures Undoes(DumpUpvalue, LoadUpvalue, FitsAny<Upvalue>, Unnamed)
    ensures Undoes(DumpAbsLine, LoadAbsLine, FitsAbsLine, Same<AbsLine>)
    ensures Undoes(DumpLocVar, LoadLocVar, FitsLocVar, Same<LocVar>)
    ensures Undoes(DumpName, LoadString, FitsName, NameOf)
  {
    forall x: Byte, t: Bytes ensures LoadByte(DumpByte(x) + t) == Ok(x, t) { ByteBack(x, t); }
    forall x: Four, t: Bytes ensures LoadFour(DumpFour(x) + t) == Ok(x, t) { BlockBack(x, t); }
    forall x, t: Bytes ensures LoadConstant(DumpConstant(x) + t) == if FitsConstant(x) then Ok(x, t) else Err(IntegerOverflow) {
      ConstantBack(x, t);
    }
    forall x, t: Bytes ensures LoadUpvalue(DumpUpvalue(x) + t) == Ok(Unnamed(x), t) { UpvalueBack(x, t); }
    forall x, t: Bytes ensures LoadAbsLine(DumpAbsLine(x) + t) == if FitsAbsLine(x) then Ok(x, t) else Err(IntegerOverflow) {
      AbsLineBack(x, t);
    }
    forall x, t: Bytes ensures LoadLocVar(DumpLocVar(x) + t) == if FitsLocVar(x) then Ok(x, t) else Err(IntegerOverflow) {
      LocVarBack(x, t);
    }
    forall x, t: Bytes ensures LoadString(DumpName(x) + t) == if FitsName(x) then Ok(NameOf(x), t) else Err(IntegerOverflow) {
      StringBack(x.name, t);
    }
  }

  // ---- prototypes ----

  /** The source that is written, and the one that is read when the parent's is `inherited`. */
  function Written(p: Proto, psource: Option<Bytes>, strip: bool): Option<Bytes> {
    if strip || p.source == psource then None else p.source
  }

  function Inherit(written: Option<Bytes>, inherited: Option<Bytes>): Option<Bytes> {
    if written == None then inherited else written
  }

  predicate HeadFits(p: Proto, psource: Option<Bytes>, strip: bool) {
    FitsString(Written(p, psource, strip)) && FitsInt(p.linedefined) && FitsInt(p.lastlinedefined)
  }

  predicate BodyFits(p: Proto) {
    VectorFits(FitsAny<Four>, p.code) && VectorFits(FitsConstant, p.k) && VectorFits(FitsAny<Upvalue>, p.upvalues)
  }

  predicate DebugFits(p: Proto, strip: bool) {
    strip || (VectorFits(FitsAny<Byte>, p.lineinfo) && VectorFits(FitsAbsLine, p.abslineinfo) &&
              VectorFits(FitsLocVar, p.locvars) && VectorFits(FitsName, p.upvalues))
  }

  /** Every number and length that is written can be read back. */
  predicate ProtoFits(p: Proto, psource: Option<Bytes>, strip: bool)
    decreases p
  {
    HeadFits(p, psource, strip) && BodyFits(p) && FitsInt(|p.protos|) && DebugFits(p, strip) &&
    forall i :: 0 <= i < |p.protos| ==> ProtoFits(p.protos[i], p.source, strip)
  }

  /** What comes back of a prototype: `inherited` is the source its parent came back with. */
  function Reloaded(p: Proto, psource: Option<Bytes>, inherited: Option<Bytes>, strip: bool): (r: Proto)
    decreases p
  {
    var source := Inherit(Written(p, psource, strip), inherited);
    var q := p.(source := source,
                protos := seq(|p.protos|, i requires 0 <= i < |p.protos| => Reloaded(p.protos[i], p.source, source, strip)));
    if strip then q.(lineinfo := [], abslineinfo := [], locvars := [], upvalues := Mapped(Unnamed, p.upvalues)) else q
  }

  function HeadOf(p: Proto, source: Option<Bytes>): Proto {
    Proto(source, p.linedefined, p.lastlinedefined, p.numparams, p.isVararg, p.maxstacksize, [], [], [], [], [], [], [])
  }

  lemma HeadBack(p: Proto, psource: Option<Bytes>, inherited: Option<Bytes>, strip: bool, rest: Bytes)
    ensures LoadHead(inherited, DumpHead(p, psource, strip) + rest) ==
      if HeadFits(p, psource, strip) then Ok(HeadOf(p, Inherit(Written(p, psource, strip), inherited)), rest)
      else Err(IntegerOverflow)
  {
    hide LoadString, DumpString, LoadInt, DumpSize, FitsString, FitsInt;
    var w := Written(p, psource, strip);
    var c: Bytes := [p.numparams] + ([p.isVararg] + ([p.maxstacksize] + rest));
    var b := DumpSize(p.lastlinedefined) + c;
    var a := DumpSize(p.linedefined) + b;
    HeadBytes(p, psource, strip, rest);
    StringBack(w, a);
    IntBack(p.linedefined, b);
    IntBack(p.lastlinedefined, c);
    ByteBack(p.numparams, [p.isVararg] + ([p.maxstacksize] + rest));
    ByteBack(p.isVararg, [p.maxstacksize] + rest);
    ByteBack(p.maxstacksize, rest);
  }

  lemma IntBack(x: nat, rest: Bytes)
    ensures LoadInt(DumpSize(x) + rest) == if FitsInt(x) then Ok(x, rest) else Err(IntegerOverflow)
  {
    SizeBack(x, INT_LIMIT, rest);
  }

  lemma HeadBytes(p: Proto, psource: Option<Bytes>, strip: bool, rest: Bytes)
    ensures DumpHead(p, psource, strip) + rest ==
      DumpString(Written(p, psource, strip)) + (DumpSize(p.linedefined) + (DumpSize(p.lastlinedefined) +
      ([p.numparams] + ([p.isVararg] + ([p.maxstacksize] + rest)))))
  {
    hide DumpString, DumpSize;
    var bytes: Bytes := [p.numparams, p.isVararg, p.maxstacksize];
    var lines := DumpSize(p.linedefined) + (DumpSize(p.lastlinedefined) + bytes);
    Regroup(DumpString(Written(p, psource, strip)), lines, rest);
    Regroup(DumpSize(p.linedefined), DumpSize(p.lastlinedefined) + bytes, rest);
    Regroup(DumpSize(p.lastlinedefined), bytes, rest);
    assert bytes + rest == [p.numparams] + ([p.isVararg] + ([p.maxstacksize] + rest));
  }

  lemma BodyBack(p: Proto, h: Proto, rest: Bytes)
    ensures LoadBody(h, DumpBody(p) + rest) ==
      if BodyFits(p) then Ok(h.(code := p.code, k := p.k, upvalues := Mapped(Unnamed, p.upvalues)), rest)
      else Err(IntegerOverflow)
  {
    hide LoadVector, DumpVector, VectorFits, Undoes;
    ElementsUndo();
    var c := DumpVector(DumpUpvalue, p.upvalues);
    var b := DumpVector(DumpConstant, p.k) + c;
    Regroup(DumpVector(DumpFour, p.code), b, rest);
    Regroup(DumpVector(DumpConstant, p.k), c, rest);
    VectorBack(DumpFour, LoadFour, FitsAny<Four>, Same<Four>, p.code, b + rest);
    VectorBack(DumpConstant, LoadConstant, FitsConstant, Same<Constant>, p.k, c + rest);
    VectorBack(DumpUpvalue, LoadUpvalue, FitsAny<Upvalue>, Unnamed, p.upvalues, rest);
    assert Mapped(Same<Four>, p.code) == p.code && Mapped(Same<Constant>, p.k) == p.k;
  }

  /** loadDebug on a prototype whose upvalues have no names yet. */
  lemma DebugBack(p: Proto, q: Proto, rest: Bytes)
    requires q.upvalues == Mapped(Unnamed, p.upvalues)
    ensures LoadDebug(q, DumpDebug(p, false) + rest) ==
      if DebugFits(p, false) then
        Ok(q.(lineinfo := p.lineinfo, abslineinfo := p.abslineinfo, locvars := p.locvars, upvalues := p.upvalues), rest)
      else Err(IntegerOverflow)
  {
    hide LoadVector, DumpVector, Undoes, AllFit;
    ElementsUndo();
    var d := DumpVector(DumpName, p.upvalues);
    var c := DumpVector(DumpLocVar, p.locvars) + d;
    var b := DumpVector(DumpAbsLine, p.abslineinfo) + c;
    Regroup(DumpVector(DumpByte, p.lineinfo), b, rest);
    Regroup(DumpVector(DumpAbsLine, p.abslineinfo), c, rest);
    Regroup(DumpVector(DumpLocVar, p.locvars), d, rest);
    VectorBack(DumpByte, LoadByte, FitsAny<Byte>, Same<Byte>, p.lineinfo, b + rest);
    VectorBack(DumpAbsLine, LoadAbsLine, FitsAbsLine, Same<AbsLine>, p.abslineinfo, c + rest);
    VectorBack(DumpLocVar, LoadLocVar, FitsLocVar, Same<LocVar>, p.locvars, d + rest);
    NamesBack(p, rest);
    assert Mapped(Same<Byte>, p.lineinfo) == p.lineinfo;
    assert Mapped(Same<AbsLine>, p.abslineinfo) == p.abslineinfo;
    assert Mapped(Same<LocVar>, p.locvars) == p.locvars;
    assert Named(q.upvalues, Mapped(NameOf, p.upvalues)) == p.upvalues;
  }

  lemma NamesBack(p: Proto, rest: Bytes)
    ensures var d := DumpVector(DumpName, p.upvalues) + rest;
      var each := DumpEach(DumpName, p.upvalues) + rest;
      LoadInt(d) == (if FitsInt(|p.upvalues|) then Ok(|p.upvalues|, each) else Err(IntegerOverflow)) &&
      LoadEach(LoadString, |p.upvalues|, each) ==
        (if AllFit(FitsName, p.upvalues) then Ok(Mapped(NameOf, p.upvalues), rest) else Err(IntegerOverflow))
  {
    hide Undoes, LoadEach, DumpEach;
    ElementsUndo();
    Regroup(DumpSize(|p.upvalues|), DumpEach(DumpName, p.upvalues), rest);
    IntBack(|p.upvalues|, DumpEach(DumpName, p.upvalues) + rest);
    EachBack(DumpName, LoadString, FitsName, NameOf, p.upvalues, rest);
  }

  lemma EmptyVector<T(!new)>(load: Bytes -> Loaded<T>, rest: Bytes)
    requires forall t :: Shorter(load(t), t)
    ensures LoadVector(load, DumpSize(0) + rest) == Ok([], rest)
  {
    IntBack(0, rest);
  }

  lemma StrippedDebugBack(p: Proto, q: Proto, rest: Bytes)
    ensures LoadDebug(q, DumpDebug(p, true) + rest) ==
      Ok(q.(lineinfo := [], abslineinfo := [], locvars := [], upvalues := q.upvalues), rest)
  {
    hide LoadVector, DumpSize, LoadInt;
    var z := DumpSize(0);
    Regroup(z, z + (z + z), rest);
    Regroup(z, z + z, rest);
    Regroup(z, z, rest);
    EmptyVector(LoadByte, (z + (z + z)) + rest);
    EmptyVector(LoadAbsLine, (z + z) + rest);
    EmptyVector(LoadLocVar, z + rest);
    IntBack(0, rest);
    assert Named(q.upvalues, []) == q.upvalues;
  }

  /** The bytes of dumpFunction, one part after the other. */
  lemma FunctionBytes(p: Proto, psource: Option<Bytes>, strip: bool, rest: Bytes)
    ensures DumpFunction(p, psource, strip) + rest ==
      DumpHead(p, psource, strip) + (DumpBody(p) + (DumpSize(|p.protos|) +
      (DumpProtos(p, 0, strip) + (DumpDebug(p, strip) + rest))))
  {
    hide DumpHead, DumpBody, DumpSize, DumpProtos, DumpDebug;
    var d := DumpDebug(p, strip);
    var c := DumpProtos(p, 0, strip) + d;
    var b := DumpSize(|p.protos|) + c;
    Regroup(DumpHead(p, psource, strip), DumpBody(p) + b, rest);
    Regroup(DumpBody(p), b, rest);
    Regroup(DumpSize(|p.protos|), c, rest);
    Regroup(DumpProtos(p, 0, strip), d, rest);
  }

  /** A dumped prototype, whatever follows it, comes back as `Reloaded` says exactly when all its
      numbers fit; otherwise the load stops with an integer overflow. */
  lemma {:induction false} FunctionBack(p: Proto, psource: Option<Bytes>, inherited: Option<Bytes>, strip: bool, rest: Bytes)
    ensures LoadFunction(inherited, DumpFunction(p, psource, strip) + rest) ==
      if ProtoFits(p, psource, strip) then Ok(Reloaded(p, psource, inherited, strip), rest) else Err(IntegerOverflow)
    decreases p, 1, 0
  {
    hide DumpFunction, DumpHead, DumpBody, DumpSize, DumpProtos, DumpDebug, LoadHead, LoadBody, LoadInt, LoadProtos,
      LoadDebug, HeadFits, BodyFits, DebugFits, FitsInt, ProtoFits, FitFrom, Reloaded;
    var source := Inherit(Written(p, psource, strip), inherited);
    var d := DumpDebug(p, strip) + rest;
    var c := DumpProtos(p, 0, strip) + d;
    var b := DumpSize(|p.protos|) + c;
    var h := HeadOf(p, source);
    var q := h.(code := p.code, k := p.k, upvalues := Mapped(Unnamed, p.upvalues));
    FunctionBytes(p, psource, strip, rest);
    HeadBack(p, psource, inherited, strip, DumpBody(p) + b);
    BodyBack(p, h, b);
    IntBack(|p.protos|, c);
    ProtosBack(p, 0, source, strip, d);
    var ps := ReloadedFrom(p, 0, source, strip);
    if strip { StrippedDebugBack(p, q.(protos := ps), rest); StrippedFit(p); } else { DebugBack(p, q.(protos := ps), rest); }
    FitsParts(p, psource, strip);
    ReloadedParts(p, psource, inherited, strip);
  }

  lemma StrippedFit(p: Proto)
    ensures DebugFits(p, true)
  {
  }

  lemma FitsParts(p: Proto, psource: Option<Bytes>, strip: bool)
    ensures ProtoFits(p, psource, strip) <==>
      HeadFits(p, psource, strip) && BodyFits(p) && FitsInt(|p.protos|) && FitFrom(p, 0, strip) && DebugFits(p, strip)
  {
    hide HeadFits, BodyFits, FitsInt, DebugFits;
  }

  /** A prototype as it comes back, part by part. */
  lemma ReloadedParts(p: Proto, psource: Option<Bytes>, inherited: Option<Bytes>, strip: bool)
    ensures var source := Inherit(Written(p, psource, strip), inherited);
      var q := HeadOf(p, source).(code := p.code, k := p.k, upvalues := Mapped(Unnamed, p.upvalues),
                                  protos := ReloadedFrom(p, 0, source, strip));
      Reloaded(p, psource, inherited, strip) ==
        if strip then q
        else q.(lineinfo := p.lineinfo, abslineinfo := p.abslineinfo, locvars := p.locvars, upvalues := p.upvalues)
  {
    hide Written, Inherit;
    var source := Inherit(Written(p, psource, strip), inherited);
    assert Reloaded(p, psource, inherited, strip).protos == ReloadedFrom(p, 0, source, strip);
  }

  /** The children from number i on as they come back. */
  function ReloadedFrom(p: Proto, i: nat, inherited: Option<Bytes>, strip: bool): (r: seq<Proto>)
    requires i <= |p.protos|
    ensures |r| == |p.protos| - i
    ensures forall j :: 0 <= j < |r| ==> r[j] == Reloaded(p.protos[i + j], p.source, inherited, strip)
  {
    seq(|p.protos| - i, j requires 0 <= j < |p.protos| - i => Reloaded(p.protos[i + j], p.source, inherited, strip))
  }

  predicate FitFrom(p: Proto, i: nat, strip: bool) {
    forall j :: i <= j < |p.protos| ==> ProtoFits(p.protos[j], p.source, strip)
  }

  lemma {:induction false} ProtosBack(p: Proto, i: nat, inherited: Option<Bytes>, strip: bool, rest: Bytes)
    requires i <= |p.protos|
    ensures LoadProtos(inherited, |p.protos| - i, DumpProtos(p, i, strip) + rest) ==
      if FitFrom(p, i, strip) then Ok(ReloadedFrom(p, i, inherited, strip), rest) else Err(IntegerOverflow)
    decreases p, 0, |p.protos| - i
  {
    hide DumpFunction, LoadFunction, Reloaded, ProtoFits;
    if i == |p.protos| {
      assert DumpProtos(p, i, strip) + rest == rest;
    } else {
      var tail := DumpProtos(p, i + 1, strip);
      Regroup(DumpFunction(p.protos[i], p.source, strip), tail, rest);
      FunctionBack(p.protos[i], p.source, inherited, strip, tail + rest);
      ProtosBack(p, i + 1, inherited, strip, rest);
      FitNext(p, i, strip);
      assert ReloadedFrom(p, i, inherited, strip) ==
        [Reloaded(p.protos[i], p.source, inherited, strip)] + ReloadedFrom(p, i + 1, inherited, strip);
    }
  }

  lemma FitNext(p: Proto, i: nat, strip: bool)
    requires i < |p.protos|
    ensures FitFrom(p, i, strip) <==> ProtoFits(p.protos[i], p.source, strip) && FitFrom(p, i + 1, strip)
  {
  }

  // ---- what comes back ----

  /** A prototype without a source has a parent without one. */
  predicate Sourced(p: Proto, psource: Option<Bytes>)
    decreases p
  {
    (p.source == None ==> psource == None) && forall i :: 0 <= i < |p.protos| ==> Sourced(p.protos[i], p.source)
  }

  lemma {:induction false} ReloadedSame(p: Proto, psource: Option<Bytes>)
    ensures Reloaded(p, psource, psource, false) == p <==> Sourced(p, psource)
    decreases p
  {
    var r := Reloaded(p, psource, psource, false);
    if p.source == None ==> psource == None {
      assert r.source == p.source;
      forall i | 0 <= i < |p.protos| ensures r.protos[i] == p.protos[i] <==> Sourced(p.protos[i], p.source) {
        ReloadedSame(p.protos[i], p.source);
      }
      if Sourced(p, psource) { assert r.protos == p.protos; }
    }
  }

  /** A prototype without its debug information. */
  function Erased(p: Proto): Proto
    decreases p
  {
    Proto(None, p.linedefined, p.lastlinedefined, p.numparams, p.isVararg, p.maxstacksize, p.code, p.k,
          Mapped(Unnamed, p.upvalues), seq(|p.protos|, i requires 0 <= i < |p.protos| => Erased(p.protos[i])), [], [], [])
  }

  lemma {:induction false} ReloadedStripped(p: Proto, psource: Option<Bytes>)
    ensures Reloaded(p, psource, None, true) == Erased(p)
    decreases p
  {
    forall i | 0 <= i < |p.protos| ensures Reloaded(p.protos[i], p.source, None, true) == Erased(p.protos[i]) {
      ReloadedStripped(p.protos[i], p.source);
    }
    assert Reloaded(p, psource, None, true).protos == Erased(p).protos;
  }

  lemma HeaderBack(luaInt: Eight, luaNum: Eight, rest: Bytes)
    ensures CheckHeader(luaInt, luaNum, (Header(luaInt, luaNum) + rest)[1..]) == Ok((), rest)
  {
    var h9 := luaNum + rest;
    var h8 := luaInt + h9;
    var h7: Bytes := [8] + h8;
    var h6: Bytes := [8] + h7;
    var h5: Bytes := [4] + h6;
    var h4 := DATA + h5;
    var h3: Bytes := [0] + h4;
    var h2: Bytes := [0x54] + h3;
    assert (Header(luaInt, luaNum) + rest)[1..] == SIGNATURE[1..] + h2;
    BlockBack(SIGNATURE[1..], h2);
    ByteBack(0x54, h3);
    ByteBack(0, h4);
    BlockBack(DATA, h5);
    ByteBack(4, h6);
    ByteBack(8, h7);
    ByteBack(8, h8);
    BlockBack(luaInt, h9);
    BlockBack(luaNum, rest);
  }

  /** luaU_undump of luaU_dump, for every prototype and whatever follows the chunk. */
  lemma UndumpOfDump(p: Proto, strip: bool, luaInt: Eight, luaNum: Eight, rest: Bytes)
    ensures Undump(luaInt, luaNum, (Dump(p, strip, luaInt, luaNum) + rest)[1..]) ==
      if ProtoFits(p, None, strip) then Ok((|p.upvalues| % 256, Reloaded(p, None, None, strip)), rest)
      else Err(IntegerOverflow)
  {
    hide CheckHeader, Header, LoadFunction, DumpFunction, ProtoFits, Reloaded;
    var f := DumpFunction(p, None, strip) + rest;
    var n: Bytes := [|p.upvalues| % 256];
    Regroup(Header(luaInt, luaNum), n + DumpFunction(p, None, strip), rest);
    Regroup(n, DumpFunction(p, None, strip), rest);
    HeaderBack(luaInt, luaNum, n + f);
    ByteBack(|p.upvalues| % 256, f);
    FunctionBack(p, None, None, strip, rest);
  }

  /** The unstripped dump of a prototype tree gives the same tree back, and every byte of it is
      consumed, exactly when the numbers fit and no child is without a source unless its parent
      is. */
  lemma DumpRoundTrips(p: Proto, luaInt: Eight, luaNum: Eight, rest: Bytes)
    requires |p.upvalues| < 256
    ensures Undump(luaInt, luaNum, (Dump(p, false, luaInt, luaNum) + rest)[1..]) == Ok((|p.upvalues|, p), rest) <==>
      ProtoFits(p, None, false) && Sourced(p, None)
  {
    hide Undump, Dump, ProtoFits, Reloaded, Sourced;
    UndumpOfDump(p, false, luaInt, luaNum, rest);
    ReloadedSame(p, None);
  }

  /** The stripped dump gives the tree back without its debug information. */
  lemma StrippedErases(p: Proto, luaInt: Eight, luaNum: Eight, rest: Bytes)
    requires |p.upvalues| < 256
    ensures Undump(luaInt, luaNum, (Dump(p, true, luaInt, luaNum) + rest)[1..]) ==
      if ProtoFits(p, None, true) then Ok((|p.upvalues|, Erased(p)), rest) else Err(IntegerOverflow)
  {
    hide Undump, Dump, ProtoFits, Reloaded, Erased;
    UndumpOfDump(p, true, luaInt, luaNum, rest);
    ReloadedStripped(p, None);
  }
}
