// What pattern texts match, byte by byte: every single-byte class as it is written, with each of
// the suffixes, and the other items.
module MatchLetters {
  import opened Common
  import opened MatchPattern
  import opened MatchMachine
  import opened MatchTheorems
  import opened MatchFind

  // --- Single bytes ---

  // What stands for one byte in a pattern. A letter is one of a c d g l p s u w x z; in upper case
  // it stands for the complement. Quoted is '%' before a character that is no letter and no digit.
  datatype Single =
    | Dot | Char(c: Byte) | Letter(l: Byte) | UpperLetter(l: Byte) | Quoted(c: Byte)
    | Set(parts: seq<Part>) | NotSet(parts: seq<Part>)

  // What may stand in a set.
  datatype Part = Has(c: Byte) | From(a: Byte, b: Byte) | HasLetter(l: Byte) | HasUpper(l: Byte) | HasQuoted(c: Byte)

  predicate ClassLetter(l: Byte) {
    l in {97, 99, 100, 103, 108, 112, 115, 117, 119, 120, 122}
  }

  // The bytes of each letter in the C locale.
  predicate Listed(l: Byte, c: Byte) {
    if l == 97 then 65 <= c <= 90 || 97 <= c <= 122
    else if l == 99 then c <= 31 || c == 127
    else if l == 100 then 48 <= c <= 57
    else if l == 103 then 33 <= c <= 126
    else if l == 108 then 97 <= c <= 122
    else if l == 112 then 33 <= c <= 47 || 58 <= c <= 64 || 91 <= c <= 96 || 123 <= c <= 126
    else if l == 115 then 9 <= c <= 13 || c == 32
    else if l == 117 then 65 <= c <= 90
    else if l == 119 then 48 <= c <= 57 || 65 <= c <= 90 || 97 <= c <= 122
    else if l == 120 then 48 <= c <= 57 || 65 <= c <= 70 || 97 <= c <= 102
    else c == 0
  }

  predicate Alphanumeric(c: Byte) {
    48 <= c <= 57 || 65 <= c <= 90 || 97 <= c <= 122
  }

  function PartText(x: Part): Text {
    match x
    case Has(c) => [c]
    case From(a, b) => [a, 45, b]
    case HasLetter(l) => [37, l]
    case HasUpper(l) => if l >= 32 then [37, l - 32] else []
    case HasQuoted(c) => [37, c]
  }

  function PartsText(xs: seq<Part>): Text {
    if xs == [] then [] else PartText(xs[0]) + PartsText(xs[1..])
  }

  function TextOf(u: Single): Text {
    match u
    case Dot => [46]
    case Char(c) => [c]
    case Letter(l) => [37, l]
    case UpperLetter(l) => if l >= 32 then [37, l - 32] else []
    case Quoted(c) => [37, c]
    case Set(xs) => [91] + PartsText(xs) + [93]
    case NotSet(xs) => [91, 94] + PartsText(xs) + [93]
  }

  predicate PartMeans(x: Part, c: Byte) {
    match x
    case Has(d) => c == d
    case From(a, b) => a <= c <= b
    case HasLetter(l) => Listed(l, c)
    case HasUpper(l) => !Listed(l, c)
    case HasQuoted(d) => c == d
  }

  predicate SomeMeans(xs: seq<Part>, c: Byte) {
    xs != [] && (PartMeans(xs[0], c) || SomeMeans(xs[1..], c))
  }

  predicate Means(u: Single, c: Byte) {
    match u
    case Dot => true
    case Char(d) => c == d
    case Letter(l) => Listed(l, c)
    case UpperLetter(l) => !Listed(l, c)
    case Quoted(d) => c == d
    case Set(xs) => SomeMeans(xs, c)
    case NotSet(xs) => !SomeMeans(xs, c)
  }

  // The characters with a meaning of their own must be quoted.
  predicate ProperPart(x: Part) {
    match x
    case Has(c) => c !in {37, 45, 93, 94}
    case From(a, b) => a !in {37, 45, 93, 94} && b !in {37, 93}
    case HasLetter(l) => ClassLetter(l)
    case HasUpper(l) => ClassLetter(l)
    case HasQuoted(c) => !Alphanumeric(c)
  }

  predicate Proper(u: Single) {
    match u
    case Dot => true
    case Char(c) => c !in {36, 37, 40, 41, 46, 91}
    case Letter(l) => ClassLetter(l)
    case UpperLetter(l) => ClassLetter(l)
    case Quoted(c) => !Alphanumeric(c)
    case Set(xs) => xs != [] && forall i :: 0 <= i < |xs| ==> ProperPart(xs[i])
    case NotSet(xs) => xs != [] && forall i :: 0 <= i < |xs| ==> ProperPart(xs[i])
  }

  // --- How they are read ---

  lemma LetterMeans(l: Byte, c: Byte)
    requires ClassLetter(l)
    ensures InEscaped(c, l) == Listed(l, c) && InEscaped(c, l - 32) == !Listed(l, c)
  {
  }

  lemma QuotedMeans(d: Byte, c: Byte)
    requires !Alphanumeric(d)
    ensures InEscaped(c, d) <==> c == d
  {
  }

  // The element of a set that a part is read as.
  function ElemOf(x: Part): Elem {
    match x
    case Has(c) => One(c)
    case From(a, b) => Range(a, b)
    case HasLetter(l) => Escaped(l)
    case HasUpper(l) => Escaped(l - 32)
    case HasQuoted(c) => Escaped(c)
  }

  lemma ElemMeans(x: Part, c: Byte)
    requires ProperPart(x)
    ensures InElem(c, ElemOf(x)) == PartMeans(x, c)
  {
    match x
    case HasLetter(l) => LetterMeans(l, c);
    case HasUpper(l) => LetterMeans(l, c);
    case HasQuoted(d) => QuotedMeans(d, c);
    case _ =>
  }

  ghost predicate AllProper(xs: seq<Part>) {
    forall i :: 0 <= i < |xs| ==> ProperPart(xs[i])
  }

  function ElemsOf(xs: seq<Part>): seq<Elem> {
    if xs == [] then [] else [ElemOf(xs[0])] + ElemsOf(xs[1..])
  }

  lemma {:induction false} SomeElem(xs: seq<Part>, c: Byte)
    requires AllProper(xs)
    ensures InSome(c, ElemsOf(xs)) == SomeMeans(xs, c)
    decreases |xs|
  {
    if xs != [] {
      ElemMeans(xs[0], c);
      SomeElem(xs[1..], c);
      InSomeCons(c, ElemOf(xs[0]), ElemsOf(xs[1..]));
    }
  }

  // The text stands in the pattern from p on.
  ghost predicate Stands(pat: Text, p: nat, t: Text) {
    p + |t| <= |pat| && pat[p..p + |t|] == t
  }

  lemma StandsAt(pat: Text, p: nat, t: Text, i: nat)
    requires Stands(pat, p, t) && i < |t|
    ensures p + i < |pat| && pat[p + i] == t[i]
  {
    assert pat[p..p + |t|][i] == t[i];
  }

  lemma StandsParts(pat: Text, p: nat, a: Text, b: Text)
    requires Stands(pat, p, a + b)
    ensures Stands(pat, p, a) && Stands(pat, p + |a|, b)
  {
    assert pat[p..p + |a|] == (a + b)[..|a|];
    assert pat[p + |a|..p + |a| + |b|] == (a + b)[|a|..];
  }

  lemma PartStarts(x: Part, rest: Text)
    requires ProperPart(x)
    ensures PartText(x) != [] && (PartText(x) + rest)[0] !in {45, 93, 94}
  {
  }

  // The end of a set is found, and its elements are read, part by part.
  lemma {:induction false} PartsRead(pat: Text, p: nat, xs: seq<Part>)
    requires xs != [] && AllProper(xs) && Stands(pat, p, PartsText(xs) + [93])
    ensures SetEnd(pat, p) == p + |PartsText(xs)| < |pat|
    ensures Elems(pat, p, p + |PartsText(xs)|) == ElemsOf(xs)
    decreases |xs|
  {
    hide SetEnd, Elems, PartText, ElemOf, ProperPart;
    var x, rest := xs[0], PartsText(xs[1..]) + [93];
    assert PartsText(xs) + [93] == PartText(x) + rest;
    StandsParts(pat, p, PartText(x), rest);
    var q := p + |PartText(x)|;
    StandsAt(pat, q, rest, 0);
    StandsAt(pat, q, rest, |rest| - 1);
    if |xs| == 1 {
      assert rest == [93];
      PartRead(pat, p, x, q);
      NoElems(pat, q);
    } else {
      assert xs[1..] != [] && AllProper(xs[1..]);
      PartsRead(pat, q, xs[1..]);
      PartStarts(xs[1], PartsText(xs[2..]) + [93]);
      assert rest == PartText(xs[1]) + (PartsText(xs[2..]) + [93]) by { assert xs[1..][1..] == xs[2..]; }
      PartRead(pat, p, x, p + |PartsText(xs)|);
    }
  }

  lemma NoElems(pat: Text, q: nat)
    ensures Elems(pat, q, q) == []
  {
  }

  // One part of a set that ends at ec.
  lemma PartRead(pat: Text, p: nat, x: Part, ec: nat)
    requires ProperPart(x) && Stands(pat, p, PartText(x))
    requires var q := p + |PartText(x)|; q <= ec < |pat| && pat[q] != 45 && (pat[q] == 93 <==> q == ec)
    ensures var q := p + |PartText(x)|;
            && SetEnd(pat, p) == (if q == ec then q else SetEnd(pat, q))
            && Elems(pat, p, ec) == [ElemOf(x)] + Elems(pat, q, ec)
  {
    var t := PartText(x);
    StandsAt(pat, p, t, 0);
    if |t| > 1 { StandsAt(pat, p, t, 1); }
    if |t| > 2 { StandsAt(pat, p, t, 2); }
    match x
    case Has(c) =>
    case From(a, b) =>
      assert SetEnd(pat, p) == SetEnd(pat, p + 1);
      assert SetEnd(pat, p + 1) == SetEnd(pat, p + 2);
    case _ =>
  }

  // What stands for one byte is read as a class that ends where its text ends.
  lemma SingleRead(u: Single, pat: Text, p: nat)
    requires Proper(u) && Stands(pat, p, TextOf(u))
    ensures |TextOf(u)| > 0 && ReadItem(pat, p) == ReadClass(pat, p) && ClassEnd(pat, p) == p + |TextOf(u)|
    ensures forall c: Byte :: Contains(ClassAt(pat, p, p + |TextOf(u)|), c) == Means(u, c)
  {
    hide ReadClass, SetEnd, Elems, Listed, PartsText, SomeMeans, InSome, InEscaped, ElemsOf;
    var t := TextOf(u);
    StandsAt(pat, p, t, 0);
    if |t| > 1 { StandsAt(pat, p, t, 1); }
    DefaultItem(pat, p);
    match u
    case Set(xs) => SetRead(pat, p, xs, false);
    case NotSet(xs) => SetRead(pat, p, xs, true);
    case Letter(l) => forall c: Byte ensures InEscaped(c, l) == Listed(l, c) { LetterMeans(l, c); }
    case UpperLetter(l) => forall c: Byte ensures InEscaped(c, l - 32) == !Listed(l, c) { LetterMeans(l, c); }
    case Quoted(d) => forall c: Byte ensures InEscaped(c, d) <==> c == d { QuotedMeans(d, c); }
    case _ =>
  }

  lemma SetRead(pat: Text, p: nat, xs: seq<Part>, negated: bool)
    requires xs != [] && AllProper(xs) && Stands(pat, p, (if negated then [91, 94] else [91]) + PartsText(xs) + [93])
    ensures var e := p + (if negated then 2 else 1) + |PartsText(xs)|;
            && ClassEnd(pat, p) == e + 1
            && (forall c: Byte :: Contains(ClassAt(pat, p, e + 1), c) == (SomeMeans(xs, c) != negated))
  {
    hide SetEnd, Elems, SomeMeans, InSome, ElemsOf, PartText, Stands, InEscaped, Alphanumeric;
    var open: Text := if negated then [91, 94] else [91];
    var t := PartsText(xs) + [93];
    assert open + PartsText(xs) + [93] == open + t;
    StandsParts(pat, p, open, t);
    StandsAt(pat, p, open, 0);
    if negated { StandsAt(pat, p, open, 1); }
    PartStarts(xs[0], PartsText(xs[1..]) + [93]);
    assert t == PartText(xs[0]) + (PartsText(xs[1..]) + [93]);
    StandsAt(pat, p + |open|, t, 0);
    PartsRead(pat, p + |open|, xs);
    forall c: Byte ensures InSome(c, ElemsOf(xs)) == SomeMeans(xs, c) { SomeElem(xs, c); }
  }

  // --- What they match ---

  // The successes of a pattern text at s, most preferred first.
  function Matches(src: Text, pat: Text, s: nat): seq<Success> {
    Successes(src, Items(pat, 0), s, [])
  }

  predicate MeansAt(src: Text, s: nat, u: Single) {
    s < |src| && Means(u, src[s])
  }

  // How many bytes from s on u stands for, one after the other.
  function Run(src: Text, s: nat, u: Single): nat
    decreases |src| - s
  {
    if MeansAt(src, s, u) then 1 + Run(src, s + 1, u) else 0
  }

  lemma {:induction false} RunIs(src: Text, s: nat, u: Single, k: Class)
    requires forall c: Byte :: Contains(k, c) == Means(u, c)
    ensures RunLength(src, s, k) == Run(src, s, u)
    decreases |src| - s
  {
    hide Means, Contains;
    if s < |src| { RunIs(src, s + 1, u, k); }
  }

  // One class and its suffix, when nothing follows.
  lemma ClassMatches(src: Text, u: Single, suffix: Text, s: nat)
    requires Proper(u) && |suffix| <= 1 && (suffix != [] ==> suffix[0] in {42, 43, 45, 63}) && s <= |src|
    ensures var k := ClassAt(TextOf(u) + suffix, 0, |TextOf(u)|);
            && (forall c: Byte :: Contains(k, c) == Means(u, c))
            && Matches(src, TextOf(u) + suffix, s)
               == Repeated(src, [], k, SuffixAt(TextOf(u) + suffix, |TextOf(u)|), s, [])
  {
    hide ClassAt, Proper, TextOf, Means, Contains, ReadItem, ReadClass, ClassEnd, Successes, Items, Repeated;
    var pat := TextOf(u) + suffix;
    assert Stands(pat, 0, TextOf(u));
    SingleRead(u, pat, 0);
    ClassItem(src, pat, 0, s, []);
    NoMore(pat);
  }

  lemma NoMore(pat: Text)
    ensures Items(pat, |pat|) == []
  {
  }

  lemma NoItemsLeft(src: Text, s: nat)
    ensures Successes(src, [], s, []) == [Success(s, [])]
  {
  }

  // A class matches one byte, exactly if it stands for it.
  lemma SingleMatches(src: Text, u: Single, s: nat)
    requires Proper(u) && s <= |src|
    ensures Matches(src, TextOf(u), s) == if MeansAt(src, s, u) then [Success(s + 1, [])] else []
  {
    hide ClassAt, Proper, TextOf, Means, Contains, Successes;
    ClassMatches(src, u, [], s);
    assert TextOf(u) + [] == TextOf(u);
    NoItemsLeft(src, s + 1);
  }

  // '*' takes the longest run of bytes, '+' the same if it is not empty, '?' one byte if it can,
  // and '-' as few as can be.
  lemma SuffixMatches(src: Text, u: Single, s: nat)
    requires Proper(u) && s <= |src|
    ensures var n := Run(src, s, u);
            var star, plus := Matches(src, TextOf(u) + [42], s), Matches(src, TextOf(u) + [43], s);
            var optional, lazy := Matches(src, TextOf(u) + [63], s), Matches(src, TextOf(u) + [45], s);
            && star != [] && star[0] == Success(s + n, [])
            && (if n > 0 then plus != [] && plus[0] == Success(s + n, []) else plus == [])
            && optional != [] && optional[0] == Success(if n > 0 then s + 1 else s, [])
            && lazy != [] && lazy[0] == Success(s, [])
  {
    hide Proper, TextOf, Means, Matches, Run;
    SuffixOne(src, u, 42, s);
    SuffixOne(src, u, 43, s);
    SuffixOne(src, u, 63, s);
    SuffixOne(src, u, 45, s);
  }

  lemma SuffixOne(src: Text, u: Single, c: Byte, s: nat)
    requires Proper(u) && c in {42, 43, 45, 63} && s <= |src|
    ensures var n := Run(src, s, u);
            var all := Matches(src, TextOf(u) + [c], s);
            && (c == 42 ==> FirstIs(all, s + n)) && (c == 43 ==> if n > 0 then FirstIs(all, s + n) else all == [])
            && (c == 63 ==> FirstIs(all, if n > 0 then s + 1 else s)) && (c == 45 ==> FirstIs(all, s))
  {
    hide ClassAt, Proper, TextOf, Means, Contains, Matches, Repeated, Run;
    ClassMatches(src, u, [c], s);
    SuffixFirst(src, u, ClassAt(TextOf(u) + [c], 0, |TextOf(u)|), s);
  }

  lemma SuffixFirst(src: Text, u: Single, k: Class, s: nat)
    requires s <= |src| && forall c: Byte :: Contains(k, c) == Means(u, c)
    ensures var n := Run(src, s, u);
            var plus := Repeated(src, [], k, Plus, s, []);
            && FirstIs(Repeated(src, [], k, Star, s, []), s + n)
            && (if n > 0 then FirstIs(plus, s + n) else plus == [])
            && FirstIs(Repeated(src, [], k, Optional, s, []), if n > 0 then s + 1 else s)
            && FirstIs(Repeated(src, [], k, Lazy, s, []), s)
  {
    hide Means, Contains, Successes, RunLength, Descending, Ascending;
    RunIs(src, s, u, k);
    RunIs(src, s + 1, u, k);
    NoItemsLeft(src, s);
    NoItemsLeft(src, s + 1);
    NoItemsLeft(src, s + Run(src, s, u));
    GreedyStart(src, s, RunLength(src, s, k));
    GreedyStart(src, s + 1, RunLength(src, s + 1, k));
    LazyStart(src, k, s);
  }

  lemma GreedyStart(src: Text, s: nat, n: nat)
    requires n == 0 || s + n <= |src|
    ensures FirstIs(Descending(src, [], s, n, []), s + n)
  {
    hide Successes;
    NoItemsLeft(src, s + n);
  }

  lemma LazyStart(src: Text, k: Class, s: nat)
    ensures FirstIs(Ascending(src, [], k, s, []), s)
  {
    hide Successes;
    NoItemsLeft(src, s);
  }

  predicate FirstIs(all: seq<Success>, e: nat) {
    all != [] && all[0] == Success(e, [])
  }

  // --- Captures and the other items ---

  // The head of what is left is a class and is matched once.
  lemma OnceAt(src: Text, u: Single, pat: Text, p: nat, s: nat, caps: seq<Capture>)
    requires Proper(u) && Stands(pat, p, TextOf(u)) && At(pat, p + |TextOf(u)|) !in {42, 43, 45, 63} && s <= |src|
    ensures Successes(src, Items(pat, p), s, caps)
         == if MeansAt(src, s, u) then Successes(src, Items(pat, p + |TextOf(u)|), s + 1, caps) else []
  {
    hide ClassAt, Proper, TextOf, Means, Contains, ReadItem, ReadClass, ClassEnd, Successes, Items;
    SingleRead(u, pat, p);
    ClassItem(src, pat, p, s, caps);
  }

  lemma TextStarts(u: Single)
    requires Proper(u)
    ensures TextOf(u) != [] && TextOf(u)[0] !in {36, 40, 41}
  {
  }

  // '(' and ')' around a class capture the byte, and a reference to the capture matches it again.
  lemma CaptureMatches(src: Text, u: Single, s: nat)
    requires Proper(u) && s <= |src|
    ensures var cap := Capture(s, Closed(1));
            && Matches(src, [40] + TextOf(u) + [41], s) == (if MeansAt(src, s, u) then [Success(s + 1, [cap])] else [])
            && Matches(src, [40] + TextOf(u) + [41, 37, 49], s)
               == if MeansAt(src, s, u) && s + 1 < |src| && src[s + 1] == src[s] then [Success(s + 2, [cap])] else []
  {
    hide Proper, TextOf, Means, ReadItem, Successes, Items, OpenIndex, CloseAt;
    TextStarts(u);
    CaptureAt(src, u, [40] + TextOf(u) + [41], s);
    NoItems(src, [40] + TextOf(u) + [41], s + 1, [Capture(s, Closed(1))]);
    var pat := [40] + TextOf(u) + [41, 37, 49];
    CaptureAt(src, u, pat, s);
    if MeansAt(src, s, u) {
      BackRefItem(src, pat, |TextOf(u)| + 2, s + 1, [Capture(s, Closed(1))]);
      NoItems(src, pat, s + 2, [Capture(s, Closed(1))]);
      OneByte(src, s);
      if s + 1 < |src| { OneByte(src, s + 1); }
    }
  }

  lemma OneByte(src: Text, s: nat)
    requires s < |src|
    ensures src[s..s + 1] == [src[s]]
  {
  }

  lemma CaptureAt(src: Text, u: Single, pat: Text, s: nat)
    requires Proper(u) && s <= |src| && Stands(pat, 0, [40] + TextOf(u) + [41])
    ensures Matches(src, pat, s)
         == if MeansAt(src, s, u) then Successes(src, Items(pat, |TextOf(u)| + 2), s + 1, [Capture(s, Closed(1))]) else []
  {
    hide Proper, TextOf, Means, ReadItem, Successes, Items;
    var t := TextOf(u);
    TextStarts(u);
    StandsAt(pat, 0, [40] + t + [41], 0);
    StandsAt(pat, 0, [40] + t + [41], 1);
    StandsAt(pat, 0, [40] + t + [41], |t| + 1);
    StandsParts(pat, 0, [40] + t, [41]);
    StandsParts(pat, 0, [40], t);
    CaptureItems(src, pat, 0, s, []);
    var open := [Capture(s, Unfinished)];
    assert [] + open == open;
    OnceAt(src, u, pat, 1, s, open);
    CaptureItems(src, pat, |t| + 1, s + 1, open);
    OneOpen(s);
  }

  lemma OneOpen(s: nat)
    ensures OpenIndex([Capture(s, Unfinished)]) == 0
    ensures CloseAt([Capture(s, Unfinished)], 0, s + 1) == [Capture(s, Closed(1))]
  {
  }

  // '()' captures the position, '$' at the end of a pattern matches at the end of the subject,
  // '%bxy' a balanced string, and '%f' with a set the place where the set is entered.
  lemma OtherItems(src: Text, x: Byte, y: Byte, xs: seq<Part>, s: nat)
    requires s <= |src| && Proper(Set(xs))
    ensures Matches(src, [40, 41], s) == [Success(s, [Capture(s, Position)])]
    ensures Matches(src, [36], s) == if s == |src| then [Success(s, [])] else []
    ensures var e := BalanceFrom(src, s, x, y);
            Matches(src, [37, 98, x, y], s) == if e < 0 then [] else [Success(e, [])]
    ensures var before := if s == 0 then 0 else src[s - 1];
            var after := if s < |src| then src[s] else 0;
            Matches(src, [37, 102] + TextOf(Set(xs)), s)
            == if !SomeMeans(xs, before) && SomeMeans(xs, after) then [Success(s, [])] else []
  {
    hide Proper, TextOf, SomeMeans, ReadItem, Successes, Items, Contains, SetAt;
    CaptureItems(src, [40, 41], 0, s, []);
    NoItems(src, [40, 41], s, [Capture(s, Position)]);
    assert [] + [Capture(s, Position)] == [Capture(s, Position)];
    EndItem(src, [36], 0, s, []);
    BalanceMatches(src, x, y, s);
    FrontierMatches(src, xs, s);
  }

  lemma BalanceMatches(src: Text, x: Byte, y: Byte, s: nat)
    ensures var e := BalanceFrom(src, s, x, y);
            Matches(src, [37, 98, x, y], s) == if e < 0 then [] else [Success(e, [])]
  {
    hide BalanceFrom;
    var pat := [37, 98, x, y];
    assert ReadItem(pat, 0) == Read(Balance(x, y), 4);
    HeadItem(pat, 0);
    NoMore(pat);
    if BalanceFrom(src, s, x, y) >= 0 { NoItemsLeft(src, BalanceFrom(src, s, x, y)); }
  }

  lemma FrontierMatches(src: Text, xs: seq<Part>, s: nat)
    requires s <= |src| && Proper(Set(xs))
    ensures var before := if s == 0 then 0 else src[s - 1];
            var after := if s < |src| then src[s] else 0;
            Matches(src, [37, 102] + TextOf(Set(xs)), s)
            == if !SomeMeans(xs, before) && SomeMeans(xs, after) then [Success(s, [])] else []
  {
    hide SomeMeans, ReadItem, Successes, Items, Contains, SetAt, ClassEnd, PartsText;
    var t := TextOf(Set(xs));
    var pat := [37, 102] + t;
    assert Stands(pat, 2, t) by { assert pat[2..2 + |t|] == t; }
    SetRead(pat, 2, xs, false);
    FrontierItem(src, pat, 0, s, []);
    NoItems(src, pat, s, []);
    assert ClassAt(pat, 2, |pat|) == SetAt(pat, 2, |pat| - 1);
  }

  // --- Searches ---

  // A search for one class finds the first byte that it stands for.
  lemma FindsFirst(src: Text, u: Single, init: nat, r: Found)
    requires Proper(u) && TextOf(u)[0] != 94 && !r.Error? && Leftmost(src, TextOf(u), init, false, r)
    ensures if exists j :: init <= j < |src| && Means(u, src[j]) then
              r.Match? && init <= r.start < |src| && r.end == r.start + 1 && r.values == [] && Means(u, src[r.start])
              && forall j :: init <= j < r.start ==> !Means(u, src[j])
            else r == Nothing
  {
    hide Proper, TextOf, Means, Successes, Items, Values, Matches;
    var pat := TextOf(u);
    forall j: nat | j <= |src|
      ensures Successes(src, Items(pat, 0), j, []) == if MeansAt(src, j, u) then [Success(j + 1, [])] else []
    {
      MatchesIs(src, pat, j);
      SingleMatches(src, u, j);
    }
    NoValues(src);
    match r
    case Nothing =>
      forall j | init <= j < |src| ensures !Means(u, src[j]) { assert Successes(src, Items(pat, 0), j, []) == []; }
    case Match(s, e, values) =>
      var caps :| LeftmostAt(src, pat, init, s, Success(e, caps)) && AllClosed(caps) && AllInside(src, caps, |src|) && s <= e <= |src|
                  && values == Values(src, caps, s, e, false);
      assert caps == [] && e == s + 1;
      forall j: nat | init <= j < s ensures !Means(u, src[j]) { assert Successes(src, Items(pat, 0), j, []) == []; }
    case Open(s) =>
  }

  lemma MatchesIs(src: Text, pat: Text, s: nat)
    ensures Matches(src, pat, s) == Successes(src, Items(pat, 0), s, [])
  {
  }

  lemma NoValues(src: Text)
    ensures forall s: nat, e: nat :: s <= e <= |src| ==> Values(src, [], s, e, false) == []
  {
  }

  // A '^' in front ties the search to the place where it starts.
  lemma FindsHere(src: Text, u: Single, init: nat, r: Found)
    requires Proper(u) && !r.Error? && Leftmost(src, [94] + TextOf(u), init, false, r)
    ensures r == if MeansAt(src, init, u) then Match(init, init + 1, []) else Nothing
  {
    hide Proper, TextOf, Means, Successes, Items, Values, Matches;
    var pat := [94] + TextOf(u);
    assert pat[1..] == TextOf(u) && Anchored(pat);
    if init <= |src| {
      MatchesIs(src, TextOf(u), init);
      SingleMatches(src, u, init);
    }
    NoValues(src);
    match r
    case Nothing =>
    case Match(s, e, values) =>
      var caps :| LeftmostAt(src, pat, init, s, Success(e, caps)) && AllClosed(caps) && AllInside(src, caps, |src|) && s <= e <= |src|
                  && values == Values(src, caps, s, e, false);
      assert caps == [] && e == s + 1;
    case Open(s) =>
  }

  // --- Limits ---

  // The text t, n times.
  function Times(t: Text, n: nat): (r: Text)
    ensures |r| == n * |t|
  {
    if n == 0 then [] else t + Times(t, n - 1)
  }

  lemma {:induction false} TimesAt(x: Byte, y: Byte, n: nat, i: nat)
    requires i < n
    ensures Times([x, y], n)[2 * i] == x && Times([x, y], n)[2 * i + 1] == y
    decreases i
  {
    if i > 0 { TimesAt(x, y, n - 1, i - 1); }
  }

  lemma {:induction false} PositionsSane(n: nat, i: nat, open: seq<bool>, depth: int)
    requires i <= n
    ensures Sane(Items(Times([40, 41], n), 2 * i), open, depth)
       <==> depth >= n - i && (i < n ==> |open| + (n - i) <= 32)
    decreases n - i
  {
    hide Items, ReadItem;
    var pat := Times([40, 41], n);
    if i == n {
      NoMore(pat);
    } else {
      TimesAt(40, 41, n, i);
      CaptureItems([], pat, 2 * i, 0, []);
      HeadItem(pat, 2 * i);
      PositionsSane(n, i + 1, open + [false], depth - 1);
    }
  }

  lemma {:induction false} OptionalsSane(n: nat, i: nat, depth: int)
    requires i <= n
    ensures Sane(Items(Times([97, 63], n), 2 * i), [], depth) <==> depth >= n - i
    decreases n - i
  {
    hide Items, ReadItem;
    var pat := Times([97, 63], n);
    if i == n {
      NoMore(pat);
    } else {
      TimesAt(97, 63, n, i);
      DefaultItem(pat, 2 * i);
      HeadItem(pat, 2 * i);
      assert ReadItem(pat, 2 * i) == Read(Chars(Literal(97), MatchPattern.Optional), 2 * i + 2);
      OptionalsSane(n, i + 1, depth - 1);
    }
  }

  // A search raises no error for a pattern of up to 32 captures, or of up to 199 items with a
  // suffix.
  lemma LimitsInNumbers(n: nat)
    ensures SaneFrom(Times([40, 41], n), 0, [], MAXCCALLS - 1) <==> n <= 32
    ensures SaneFrom(Times([97, 63], n), 0, [], MAXCCALLS - 1) <==> n <= 199
  {
    hide Items, Sane;
    PositionsSane(n, 0, [], MAXCCALLS - 1);
    OptionalsSane(n, 0, MAXCCALLS - 1);
    assert Opens([]) == [];
  }
}
