// Searching a subject: the leftmost match, and plain searches.
module MatchFind {
  import opened Common
  import opened MatchPattern
  import opened MatchMachine
  import opened MatchTheorems

  // --- The leftmost match ---

  // No match starts in the range.
  ghost predicate NoneIn(src: Text, items: seq<Item>, from: nat, to: nat) {
    forall j: nat :: from <= j < to ==> Successes(src, items, j, []) == []
  }

  // What a capture gives: a part of the subject, or a position, counted from 1.
  datatype Value = Sub(text: Text) | At1(position: int)

  // What a search gives. Open is the error for a capture that is still open when the match that
  // starts there is done; Error is one of the errors of the matcher.
  datatype Found = Nothing | Match(start: nat, end: nat, values: seq<Value>) | Open(start: nat) | Error(message: string)

  predicate AllClosed(caps: seq<Capture>) {
    forall i :: 0 <= i < |caps| ==> caps[i].len != Unfinished
  }

  function ValueOf(src: Text, c: Capture): Value
    requires Inside(src, c, |src|)
  {
    if c.len.Closed? then Sub(src[c.init..c.init + c.len.n]) else At1(c.init + 1)
  }

  // The captures, or the whole match from 's' to 'e' if it is wanted and there are none.
  function Values(src: Text, caps: seq<Capture>, s: nat, e: nat, whole: bool): seq<Value>
    requires AllInside(src, caps, |src|) && s <= e <= |src|
  {
    if caps == [] && whole then [Sub(src[s..e])]
    else seq(|caps|, i requires 0 <= i < |caps| => ValueOf(src, caps[i]))
  }

  method PushCaptures(src: Text, caps: seq<Capture>, s: nat, e: nat, whole: bool) returns (ok: bool, values: seq<Value>)
    requires AllInside(src, caps, |src|) && s <= e <= |src|
    ensures ok <==> AllClosed(caps)
    ensures ok ==> values == Values(src, caps, s, e, whole)
  {
    values := [];
    var nlevels := if caps == [] && whole then 1 else |caps|;
    for i := 0 to nlevels
      invariant forall j :: 0 <= j < i && j < |caps| ==> caps[j].len != Unfinished
      invariant i <= |Values(src, caps, s, e, whole)| && values == Values(src, caps, s, e, whole)[..i]
    {
      if i >= |caps| {
        values := values + [Sub(src[s..e])];
      } else {
        match caps[i].len {
          case Unfinished => return false, [];
          case Position => values := values + [At1(caps[i].init + 1)];
          case Closed(n) => values := values + [Sub(src[caps[i].init..caps[i].init + n])];
        }
      }
    }
    ok := true;
  }

  // The pattern without the '^' that anchors it.
  function Anchored(pattern: Text): bool {
    At(pattern, 0) == 94
  }

  function Body(pattern: Text): Text {
    if Anchored(pattern) then pattern[1..] else pattern
  }

  // 's' is the leftmost position from 'init' on that has a success, and 'first' is its first one.
  ghost predicate LeftmostAt(src: Text, pattern: Text, init: nat, s: nat, first: Success) {
    var items := Items(Body(pattern), 0);
    && init <= s <= |src| && (Anchored(pattern) ==> s == init) && NoneIn(src, items, init, s)
    && Successes(src, items, s, []) != [] && Successes(src, items, s, [])[0] == first
  }

  // The match from 's' to 'e' has these values; the captures are those of the success.
  ghost predicate MatchAt(src: Text, pattern: Text, init: nat, whole: bool, s: nat, e: nat, values: seq<Value>) {
    exists caps ::
      && LeftmostAt(src, pattern, init, s, Success(e, caps))
      && AllClosed(caps) && AllInside(src, caps, |src|) && s <= e <= |src| && values == Values(src, caps, s, e, whole)
  }

  // What a search from 'init' on may answer: the first result of the leftmost position that has
  // one, nothing when no position has one, or an error.
  ghost predicate Leftmost(src: Text, pattern: Text, init: nat, whole: bool, r: Found) {
    var items := Items(Body(pattern), 0);
    match r
    case Error(m) => true
    case Nothing =>
      init > |src| || (if Anchored(pattern) then Successes(src, items, init, []) == []
                       else NoneIn(src, items, init, |src| + 1))
    case Match(s, e, values) => MatchAt(src, pattern, init, whole, s, e, values)
    case Open(s) => exists first :: LeftmostAt(src, pattern, init, s, first) && !AllClosed(first.caps)
  }

  // The pattern closes every capture that it opens.
  predicate ClosesAll(pattern: Text) {
    true !in EndOpens(Items(Body(pattern), 0), [])
  }

  // The captures of the leftmost match: inside the subject, and closed exactly when the pattern
  // closes them all.
  lemma LeftmostCaptures(src: Text, pattern: Text, init: nat, s: nat, first: Success)
    requires LeftmostAt(src, pattern, init, s, first)
    ensures s <= first.end <= |src| && AllInside(src, first.caps, |src|)
    ensures AllClosed(first.caps) <==> ClosesAll(pattern)
  {
    hide Successes, Derives, EndOpens;
    var items := Items(Body(pattern), 0);
    assert first in Successes(src, items, s, []);
    SuccessesDerive(src, items, s, [], first);
    CapturesOfSuccess(src, items, s, [], first);
    assert Opens([]) == [];
    var open := Opens(first.caps);
    if i :| 0 <= i < |open| && open[i] { assert !AllClosed(first.caps); }
    if !AllClosed(first.caps) {
      var i :| 0 <= i < |first.caps| && first.caps[i].len == Unfinished;
      assert open[i];
    }
  }

  // The search of string.find, and of string.match, which wants the whole match when there are
  // no captures, from 'init' on.
  method Find(src: Text, pattern: Text, init: nat, whole: bool) returns (r: Found)
    ensures Leftmost(src, pattern, init, whole, r)
    ensures SaneFrom(Body(pattern), 0, [], MAXCCALLS - 1) ==> !r.Error?
    ensures (r.Open? ==> !ClosesAll(pattern)) && (r.Match? ==> ClosesAll(pattern))
  {
    hide Successes, Items, SaneFrom, ClosesAll;
    if init > |src| {
      return Nothing;
    }
    var anchor := Anchored(pattern);
    var p := if anchor then pattern[1..] else pattern;
    var ms := new MatchState(src, p);
    ghost var items := Items(p, 0);
    var s1 := init;
    while true
      invariant ms.Valid() && ms.src == src && ms.pat == p && ms.matchdepth == MAXCCALLS && fresh(ms) && fresh(ms.capture)
      invariant init <= s1 <= |src| && NoneIn(src, items, init, s1) && (anchor ==> s1 == init)
      decreases |src| - s1
    {
      ms.level := 0;
      assert ms.Caps() == [];
      var out := ms.Match(s1, 0);
      match out {
        case Raised(m) => return Error(m);
        case Matched(e) =>
          var caps := ms.capture[..ms.level];
          LeftmostCaptures(src, pattern, init, s1, Success(e, caps));
          var ok, values := PushCaptures(src, caps, s1, e, whole);
          return if ok then Match(s1, e, values) else Open(s1);
        case Failed =>
      }
      if s1 >= |src| || anchor {
        return Nothing;
      }
      s1 := s1 + 1;
    }
  }

  // --- Patterns without special characters ---

  predicate IsSpecial(c: Byte) {
    c in {94, 36, 42, 43, 63, 46, 40, 91, 37, 45}
  }

  ghost predicate NoSpecials(pat: Text) {
    forall i :: 0 <= i < |pat| ==> !IsSpecial(pat[i])
  }

  predicate OccursAt(src: Text, pat: Text, s: nat) {
    s + |pat| <= |src| && src[s..s + |pat|] == pat
  }

  // Searching for the text of a pattern finds what the pattern finds.
  ghost predicate PlainAgrees(src: Text, pat: Text, s: nat) {
    Successes(src, Items(pat, 0), s, []) == if OccursAt(src, pat, s) then [Success(s + |pat|, [])] else []
  }

  lemma LiteralItem(pat: Text, p: nat)
    requires p < |pat| && !IsSpecial(pat[p]) && pat[p] != 41 && (p + 1 < |pat| ==> !IsSpecial(pat[p + 1]))
    ensures Items(pat, p)[0] == Chars(Literal(pat[p]), Once) && Items(pat, p)[1..] == Items(pat, p + 1)
  {
    assert ReadItem(pat, p) == Read(Chars(Literal(pat[p]), Once), p + 1);
  }

  lemma {:induction false} PlainFrom(src: Text, pat: Text, p: nat, s: nat, caps: seq<Capture>)
    requires p <= |pat| && s <= |src| && NoSpecials(pat) && (forall i :: p <= i < |pat| ==> pat[i] != 41)
    ensures Successes(src, Items(pat, p), s, caps)
         == if OccursAt(src, pat[p..], s) then [Success(s + |pat| - p, caps)] else []
    decreases |pat| - p
  {
    if p < |pat| {
      LiteralItem(pat, p);
      var rest := pat[p + 1..];
      assert pat[p..] == [pat[p]] + rest;
      if MatchesOne(src, s, Literal(pat[p])) {
        PlainFrom(src, pat, p + 1, s + 1, caps);
        OccursCons(src, pat[p], rest, s);
      } else {
        FirstByte(src, pat[p..], s);
      }
    }
  }

  lemma FirstByte(src: Text, t: Text, s: nat)
    requires |t| > 0
    ensures OccursAt(src, t, s) ==> src[s] == t[0]
  {
    if OccursAt(src, t, s) { assert src[s] == src[s..s + |t|][0]; }
  }

  lemma OtherBytes(src: Text, t: Text, s: nat)
    requires |t| > 0
    ensures OccursAt(src, t, s) ==> src[s + 1..s + |t|] == t[1..]
  {
    if OccursAt(src, t, s) { assert src[s..s + |t|][1..] == src[s + 1..s + |t|]; }
  }

  lemma OccursCons(src: Text, c: Byte, rest: Text, s: nat)
    requires s < |src| && src[s] == c
    ensures OccursAt(src, [c] + rest, s) <==> OccursAt(src, rest, s + 1)
  {
    if s + 1 + |rest| <= |src| {
      assert src[s..s + 1 + |rest|] == [src[s]] + src[s + 1..s + 1 + |rest|];
      assert ([c] + rest)[1..] == rest;
      if OccursAt(src, [c] + rest, s) {
        assert src[s..s + 1 + |rest|][1..] == rest;
      }
    }
  }

  // A ')' that closes nothing has no success.
  lemma {:induction false} CloseFails(src: Text, pat: Text, p: nat, i: nat, s: nat)
    requires p <= i < |pat| && pat[i] == 41 && NoSpecials(pat) && (forall j :: p <= j < i ==> pat[j] != 41)
    ensures Successes(src, Items(pat, p), s, []) == []
    decreases i - p
  {
    if p < i {
      LiteralItem(pat, p);
      CloseFails(src, pat, p + 1, i, s + 1);
    } else {
      assert ReadItem(pat, p) == Read(CloseCapture, p + 1);
      assert Items(pat, p)[0] == CloseCapture;
      assert OpenIndex([]) == -1;
    }
  }

  // The short cut of string.find for patterns without special characters
  // finds what matching finds, on every subject, exactly when the pattern has
  // no ')', which is not taken for special.
  lemma PlainSearch(pat: Text)
    requires NoSpecials(pat)
    ensures (forall src, s: nat :: s <= |src| ==> PlainAgrees(src, pat, s)) <==> 41 !in pat
  {
    if 41 in pat {
      var i := FirstOf(pat, 41);
      CloseFails(pat, pat, 0, i, 0);
      assert pat[0..0 + |pat|] == pat;
      assert !PlainAgrees(pat, pat, 0);
    } else {
      forall src, s: nat | s <= |src| ensures PlainAgrees(src, pat, s) {
        PlainFrom(src, pat, 0, s, []);
        assert pat[0..] == pat;
      }
    }
  }

  lemma FirstOf(t: Text, c: Byte) returns (i: nat)
    requires c in t
    ensures i < |t| && t[i] == c && forall j :: 0 <= j < i ==> t[j] != c
  {
    i := 0;
    while t[i] != c
      invariant i < |t| && (forall j :: 0 <= j < i ==> t[j] != c) && c in t[i..]
      decreases |t| - i
    {
      assert c in t[i + 1..] by { assert t[i..] == [t[i]] + t[i + 1..]; }
      i := i + 1;
    }
  }

  // The first 'c' among the 'n' bytes from 'from' on, or -1.
  method FindByte(t: Text, from: nat, n: nat, c: Byte) returns (r: int)
    requires from + n <= |t|
    ensures r == -1 ==> forall j :: from <= j < from + n ==> t[j] != c
    ensures r != -1 ==> from <= r < from + n && t[r] == c && forall j :: from <= j < r ==> t[j] != c
  {
    r := from;
    while r < from + n
      invariant from <= r <= from + n && forall j :: from <= j < r ==> t[j] != c
    {
      if t[r] == c {
        return;
      }
      r := r + 1;
    }
    r := -1;
  }

  // The first occurrence of 's2' in 's1', or -1.
  method PlainFind(s1: Text, s2: Text) returns (r: int)
    ensures r == -1 ==> forall j: nat :: !OccursAt(s1, s2, j)
    ensures r != -1 ==> 0 <= r && OccursAt(s1, s2, r) && forall j: nat :: j < r ==> !OccursAt(s1, s2, j)
  {
    if |s2| == 0 {
      assert s1[0..0] == s2;
      return 0;
    }
    if |s2| > |s1| {
      return -1;
    }
    var l2 := |s2| - 1;
    var l1 := |s1| - l2;
    var at := 0;
    while l1 > 0
      invariant 0 <= at && 0 <= l1 && at + l1 + l2 == |s1|
      invariant forall j: nat :: j < at ==> !OccursAt(s1, s2, j)
      decreases l1
    {
      var init := FindByte(s1, at, l1, s2[0]);
      forall j: nat | at <= j < (if init == -1 then at + l1 else init) ensures !OccursAt(s1, s2, j) {
        if j + |s2| <= |s1| { assert s1[j] == s1[j..j + |s2|][0]; }
      }
      if init == -1 {
        return -1;
      }
      assert s1[init..init + |s2|] == [s1[init]] + s1[init + 1..init + 1 + l2];
      assert s2 == [s2[0]] + s2[1..];
      if s1[init + 1..init + 1 + l2] == s2[1..] {
        return init;
      }
      OtherBytes(s1, s2, init);
      l1 := l1 - (init + 1 - at);
      at := init + 1;
    }
    r := -1;
  }
}
