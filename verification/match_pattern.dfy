// Patterns and what they match: a pattern text is a list of items, and a list
// of items has, at every position of a subject, a list of successes in the
// order in which they are preferred.
module MatchPattern {
  import opened Common

  type Text = seq<Byte>

  const L_ESC: Byte := 37

  // The byte at 'i', or the '\0' that ends every Lua string.
  function At(t: Text, i: int): Byte {
    if 0 <= i < |t| then t[i] else 0
  }

  // --- Character classes of the C locale ---

  predicate IsLower(c: int) { 97 <= c <= 122 }
  predicate IsUpper(c: int) { 65 <= c <= 90 }
  predicate IsAlpha(c: int) { IsLower(c) || IsUpper(c) }
  predicate IsDigit(c: int) { 48 <= c <= 57 }
  predicate IsAlnum(c: int) { IsAlpha(c) || IsDigit(c) }
  predicate IsCntrl(c: int) { c < 32 || c == 127 }
  predicate IsGraph(c: int) { 33 <= c <= 126 }
  predicate IsPunct(c: int) { IsGraph(c) && !IsAlnum(c) }
  predicate IsSpace(c: int) { c == 32 || 9 <= c <= 13 }
  predicate IsXDigit(c: int) { IsDigit(c) || 65 <= c <= 70 || 97 <= c <= 102 }

  function ToLower(c: int): int {
    if IsUpper(c) then c + 32 else c
  }

  predicate IsClassLetter(cl: int) {
    ToLower(cl) in {97, 99, 100, 103, 108, 112, 115, 117, 119, 120, 122}
  }

  predicate InNamed(c: int, lower: int) {
    if lower == 97 then IsAlpha(c)
    else if lower == 99 then IsCntrl(c)
    else if lower == 100 then IsDigit(c)
    else if lower == 103 then IsGraph(c)
    else if lower == 108 then IsLower(c)
    else if lower == 112 then IsPunct(c)
    else if lower == 115 then IsSpace(c)
    else if lower == 117 then IsUpper(c)
    else if lower == 119 then IsAlnum(c)
    else if lower == 120 then IsXDigit(c)
    else c == 0
  }

  // An escaped letter: a class, its complement when in upper case, or itself.
  predicate InEscaped(c: int, cl: int) {
    if IsClassLetter(cl) then InNamed(c, ToLower(cl)) == IsLower(cl) else c == cl
  }

  datatype Elem = Escaped(cl: int) | Range(from: int, to: int) | One(c: int)

  predicate InElem(c: int, e: Elem) {
    match e
    case Escaped(cl) => InEscaped(c, cl)
    case Range(a, b) => a <= c <= b
    case One(x) => c == x
  }

  datatype Class = AnyByte | Literal(c: int) | Named(cl: int) | Bracket(negated: bool, elems: seq<Elem>)

  predicate InSome(c: int, elems: seq<Elem>) {
    exists i :: 0 <= i < |elems| && InElem(c, elems[i])
  }

  lemma InSomeCons(c: int, e: Elem, rest: seq<Elem>)
    ensures InSome(c, [e] + rest) <==> InElem(c, e) || InSome(c, rest)
  {
    var all := [e] + rest;
    if InSome(c, rest) {
      var i :| 0 <= i < |rest| && InElem(c, rest[i]);
      assert InElem(c, all[i + 1]);
    }
    if InElem(c, e) { assert InElem(c, all[0]); }
  }

  predicate Contains(k: Class, c: int) {
    match k
    case AnyByte => true
    case Literal(x) => c == x
    case Named(cl) => InEscaped(c, cl)
    case Bracket(negated, elems) => InSome(c, elems) != negated
  }

  // --- Reading a pattern ---

  datatype Suffix = Once | Star | Plus | Optional | Lazy

  datatype Item =
    | Chars(k: Class, suffix: Suffix)
    | OpenCapture | PositionCapture | CloseCapture | EndAnchor
    | Balance(b: int, e: int) | Frontier(k: Class) | BackRef(digit: int) | Malformed

  // Where the set that starts after '[' at 'p' ends, or -1.
  function SetEnd(pat: Text, p: nat): (r: int)
    ensures r == -1 || p < r < |pat|
    decreases |pat| - p
  {
    if p >= |pat| then -1
    else
      var q := if pat[p] == L_ESC && p + 1 < |pat| then p + 2 else p + 1;
      if At(pat, q) == 93 && q < |pat| then q else SetEnd(pat, q)
  }

  // Where the class at 'p' ends, or -1 when it is malformed.
  function ClassEnd(pat: Text, p: nat): (r: int)
    requires p < |pat|
    ensures r == -1 || p < r <= |pat|
  {
    if pat[p] == L_ESC then if p + 1 == |pat| then -1 else p + 2
    else if pat[p] == 91 then
      var e := SetEnd(pat, if At(pat, p + 1) == 94 then p + 2 else p + 1);
      if e == -1 then -1 else e + 1
    else p + 1
  }

  // The elements of a set, from 'p' to its ']' at 'ec'.
  function Elems(pat: Text, p: int, ec: int): seq<Elem>
    decreases ec - p
  {
    if p >= ec then []
    else if At(pat, p) == L_ESC then [Escaped(At(pat, p + 1))] + Elems(pat, p + 2, ec)
    else if At(pat, p + 1) == 45 && p + 2 < ec then [Range(At(pat, p), At(pat, p + 2))] + Elems(pat, p + 3, ec)
    else [One(At(pat, p))] + Elems(pat, p + 1, ec)
  }

  // The set from '[' at 'p' to ']' at 'ec'.
  function SetAt(pat: Text, p: int, ec: int): Class {
    if At(pat, p + 1) == 94 then Bracket(true, Elems(pat, p + 2, ec)) else Bracket(false, Elems(pat, p + 1, ec))
  }

  function ClassAt(pat: Text, p: int, ep: int): Class {
    if At(pat, p) == 46 then AnyByte
    else if At(pat, p) == L_ESC then Named(At(pat, p + 1))
    else if At(pat, p) == 91 then SetAt(pat, p, ep - 1)
    else Literal(At(pat, p))
  }

  function SuffixAt(pat: Text, ep: int): Suffix {
    if At(pat, ep) == 42 then Star
    else if At(pat, ep) == 43 then Plus
    else if At(pat, ep) == 63 then Optional
    else if At(pat, ep) == 45 then Lazy
    else Once
  }

  datatype Read = Read(item: Item, next: nat)

  function ReadClass(pat: Text, p: nat): (r: Read)
    requires p < |pat|
    ensures p < r.next <= |pat|
  {
    var ep := ClassEnd(pat, p);
    if ep == -1 then Read(Malformed, |pat|)
    else
      var suffix := SuffixAt(pat, ep);
      Read(Chars(ClassAt(pat, p, ep), suffix), if suffix == Once then ep else ep + 1)
  }

  function ReadItem(pat: Text, p: nat): (r: Read)
    requires p < |pat|
    ensures p < r.next <= |pat|
  {
    var c := pat[p];
    var d := At(pat, p + 1);
    if c == 40 then
      if d == 41 then Read(PositionCapture, p + 2) else Read(OpenCapture, p + 1)
    else if c == 41 then Read(CloseCapture, p + 1)
    else if c == 36 && p + 1 == |pat| then Read(EndAnchor, p + 1)
    else if c == L_ESC && d == 98 then
      if p + 2 >= |pat| - 1 then Read(Malformed, |pat|) else Read(Balance(At(pat, p + 2), At(pat, p + 3)), p + 4)
    else if c == L_ESC && d == 102 then
      if At(pat, p + 2) != 91 then Read(Malformed, |pat|)
      else
        var ep := ClassEnd(pat, p + 2);
        if ep == -1 then Read(Malformed, |pat|) else Read(Frontier(SetAt(pat, p + 2, ep - 1)), ep)
    else if c == L_ESC && IsDigit(d) then Read(BackRef(d), p + 2)
    else ReadClass(pat, p)
  }

  function Items(pat: Text, p: nat): seq<Item>
    requires p <= |pat|
    decreases |pat| - p
  {
    if p == |pat| then []
    else
      var r := ReadItem(pat, p);
      [r.item] + Items(pat, r.next)
  }

  // --- What items match ---

  datatype Length = Unfinished | Position | Closed(n: int)
  datatype Capture = Capture(init: int, len: Length)
  datatype Success = Success(end: nat, caps: seq<Capture>)

  predicate MatchesOne(src: Text, s: int, k: Class) {
    0 <= s < |src| && Contains(k, src[s])
  }

  // How many bytes in a row, from 's' on, are in the class.
  function RunLength(src: Text, s: nat, k: Class): (n: nat)
    ensures s + n <= |src| || n == 0
    ensures forall i :: s <= i < s + n ==> MatchesOne(src, i, k)
    ensures !MatchesOne(src, s + n, k)
    decreases |src| - s
  {
    if MatchesOne(src, s, k) then 1 + RunLength(src, s + 1, k) else 0
  }

  // The last capture that is still open, or -1.
  function OpenIndex(caps: seq<Capture>): (l: int)
    ensures -1 <= l < |caps|
    ensures l >= 0 ==> caps[l].len == Unfinished
    ensures forall i :: l < i < |caps| ==> caps[i].len != Unfinished
  {
    if caps == [] then -1
    else if caps[|caps| - 1].len == Unfinished then |caps| - 1
    else OpenIndex(caps[..|caps| - 1])
  }

  function CloseAt(caps: seq<Capture>, l: int, s: int): seq<Capture>
    requires 0 <= l < |caps|
  {
    caps[l := Capture(caps[l].init, Closed(s - caps[l].init))]
  }

  // Where the balanced string that is open 'cont' deep at 'i' ends, or -1.
  function BalanceEnd(src: Text, i: nat, b: int, e: int, cont: nat): (r: int)
    ensures r == -1 || i < r <= |src|
    decreases |src| - i
  {
    if i >= |src| then -1
    else if src[i] == e then if cont <= 1 then i + 1 else BalanceEnd(src, i + 1, b, e, cont - 1)
    else BalanceEnd(src, i + 1, b, e, if src[i] == b then cont + 1 else cont)
  }

  function BalanceFrom(src: Text, s: nat, b: int, e: int): (r: int)
    ensures r == -1 || s < r <= |src|
  {
    if At(src, s) != b then -1 else BalanceEnd(src, s + 1, b, e, 1)
  }

  predicate AtFrontier(src: Text, s: int, k: Class) {
    !Contains(k, if s == 0 then 0 else At(src, s - 1)) && Contains(k, At(src, s))
  }

  predicate IsCapture(caps: seq<Capture>, digit: int) {
    49 <= digit && digit - 49 < |caps| && caps[digit - 49].len != Unfinished
  }

  // Whether the text of a capture is repeated at 's', and where it ends.
  predicate Repeats(src: Text, s: nat, c: Capture) {
    c.len.Closed? && 0 <= c.len.n && 0 <= c.init && c.init + c.len.n <= |src| && s + c.len.n <= |src|
    && src[c.init..c.init + c.len.n] == src[s..s + c.len.n]
  }

  // The successes of 'items' from position 's' on, most preferred first.
  // What is malformed, or refers to no capture, has none.
  function Successes(src: Text, items: seq<Item>, s: nat, caps: seq<Capture>): seq<Success>
    decreases |items|, 0
  {
    if items == [] then [Success(s, caps)]
    else
      var rest := items[1..];
      match items[0]
      case Chars(k, suffix) => Repeated(src, rest, k, suffix, s, caps)
      case OpenCapture => Successes(src, rest, s, caps + [Capture(s, Unfinished)])
      case PositionCapture => Successes(src, rest, s, caps + [Capture(s, Position)])
      case CloseCapture =>
        var l := OpenIndex(caps);
        if l < 0 then [] else Successes(src, rest, s, CloseAt(caps, l, s))
      case EndAnchor => if s == |src| then Successes(src, rest, s, caps) else []
      case Balance(b, e) =>
        var r := BalanceFrom(src, s, b, e);
        if r < 0 then [] else Successes(src, rest, r, caps)
      case Frontier(k) => if AtFrontier(src, s, k) then Successes(src, rest, s, caps) else []
      case BackRef(d) =>
        if IsCapture(caps, d) && Repeats(src, s, caps[d - 49])
        then Successes(src, rest, s + caps[d - 49].len.n, caps) else []
      case Malformed => []
  }

  function Repeated(src: Text, rest: seq<Item>, k: Class, suffix: Suffix, s: nat, caps: seq<Capture>): seq<Success>
    decreases |rest|, |src| + 3
  {
    match suffix
    case Once => if MatchesOne(src, s, k) then Successes(src, rest, s + 1, caps) else []
    case Optional =>
      (if MatchesOne(src, s, k) then Successes(src, rest, s + 1, caps) else []) + Successes(src, rest, s, caps)
    case Star => Descending(src, rest, s, RunLength(src, s, k), caps)
    case Plus => if MatchesOne(src, s, k) then Descending(src, rest, s + 1, RunLength(src, s + 1, k), caps) else []
    case Lazy => Ascending(src, rest, k, s, caps)
  }

  // Most repetitions first.
  function Descending(src: Text, rest: seq<Item>, s: nat, n: nat, caps: seq<Capture>): seq<Success>
    requires n == 0 || s + n <= |src|
    decreases |rest|, n + 1
  {
    Successes(src, rest, s + n, caps) + (if n == 0 then [] else Descending(src, rest, s, n - 1, caps))
  }

  // Fewest repetitions first.
  function Ascending(src: Text, rest: seq<Item>, k: Class, s: nat, caps: seq<Capture>): seq<Success>
    decreases |rest|, if s <= |src| then |src| - s + 1 else 1
  {
    Successes(src, rest, s, caps) + (if MatchesOne(src, s, k) then Ascending(src, rest, k, s + 1, caps) else [])
  }
}
