// The backtracking matcher, on the state it keeps: a fixed array of captures,
// their number, and a limit on the depth of recursion.
module MatchMachine {
  import opened MatchPattern

  const MAXCAPTURES: int := 32
  const MAXCCALLS: int := 200

  datatype Outcome = Matched(end: nat) | Failed | Raised(message: string)

  // An error, or the first of the successes, or failure when there is none.
  ghost predicate Agrees(out: Outcome, all: seq<Success>, before: seq<Capture>, after: seq<Capture>) {
    match out
    case Raised(m) => true
    case Failed => all == [] && after == before
    case Matched(e) => all != [] && all[0] == Success(e, after)
  }

  // --- Patterns that raise no error ---

  // Which captures are open.
  function Opens(caps: seq<Capture>): (open: seq<bool>)
    ensures |open| == |caps| && forall i :: 0 <= i < |caps| ==> open[i] == (caps[i].len == Unfinished)
  {
    seq(|caps|, i requires 0 <= i < |caps| => caps[i].len == Unfinished)
  }

  function LastOpen(open: seq<bool>): (l: int)
    ensures -1 <= l < |open|
  {
    if open == [] then -1
    else if open[|open| - 1] then |open| - 1
    else LastOpen(open[..|open| - 1])
  }

  // The items raise no error when they are matched with these captures open and
  // 'depth' calls left: none is malformed, there are not too many captures,
  // each ')' closes one, a reference is to one that is closed, and the items
  // that need a call of their own are no more than 'depth'.
  predicate Sane(items: seq<Item>, open: seq<bool>, depth: int)
    decreases |items|
  {
    if depth < 0 then false
    else if items == [] then true
    else
      var rest := items[1..];
      match items[0]
      case Chars(_, suffix) => Sane(rest, open, if suffix == Once then depth else depth - 1)
      case OpenCapture => |open| < MAXCAPTURES && Sane(rest, open + [true], depth - 1)
      case PositionCapture => |open| < MAXCAPTURES && Sane(rest, open + [false], depth - 1)
      case CloseCapture => LastOpen(open) >= 0 && Sane(rest, open[LastOpen(open) := false], depth - 1)
      case EndAnchor => Sane(rest, open, depth)
      case Balance(_, _) => Sane(rest, open, depth)
      case Frontier(_) => Sane(rest, open, depth)
      case BackRef(d) => 49 <= d && d - 49 < |open| && !open[d - 49] && Sane(rest, open, depth)
      case Malformed => false
  }

  lemma {:induction false} SaneDeeper(items: seq<Item>, open: seq<bool>, depth: int)
    requires Sane(items, open, depth - 1)
    ensures Sane(items, open, depth)
    decreases |items|
  {
    if items != [] {
      var rest := items[1..];
      match items[0]
      case Chars(_, suffix) => SaneDeeper(rest, open, if suffix == Once then depth else depth - 1);
      case OpenCapture => SaneDeeper(rest, open + [true], depth - 1);
      case PositionCapture => SaneDeeper(rest, open + [false], depth - 1);
      case CloseCapture => SaneDeeper(rest, open[LastOpen(open) := false], depth - 1);
      case _ => SaneDeeper(rest, open, depth);
    }
  }

  lemma OpensMore(caps: seq<Capture>, c: Capture)
    ensures Opens(caps + [c]) == Opens(caps) + [c.len == Unfinished]
  {
  }

  lemma {:induction false} OpensLast(caps: seq<Capture>)
    ensures LastOpen(Opens(caps)) == OpenIndex(caps)
    decreases |caps|
  {
    if caps != [] {
      assert Opens(caps)[..|caps| - 1] == Opens(caps[..|caps| - 1]);
      OpensLast(caps[..|caps| - 1]);
    }
  }

  lemma OpensClosed(caps: seq<Capture>, l: int, s: int)
    requires 0 <= l < |caps|
    ensures Opens(CloseAt(caps, l, s)) == Opens(caps)[l := false]
  {
  }

  // What is left of a pattern is matched without an error.
  predicate SaneFrom(pat: Text, p: nat, caps: seq<Capture>, depth: int) {
    p <= |pat| && Sane(Items(pat, p), Opens(caps), depth)
  }

  lemma DeeperFrom(pat: Text, p: nat, caps: seq<Capture>, depth: int)
    ensures SaneFrom(pat, p, caps, depth - 1) ==> SaneFrom(pat, p, caps, depth)
  {
    if SaneFrom(pat, p, caps, depth - 1) { SaneDeeper(Items(pat, p), Opens(caps), depth); }
  }

  lemma NoDepth(pat: Text, p: nat, caps: seq<Capture>, depth: int)
    ensures SaneFrom(pat, p, caps, depth) ==> depth >= 0
  {
  }

  // One item of a pattern.
  lemma SaneItem(pat: Text, p: nat, caps: seq<Capture>, depth: int)
    requires p < |pat| && SaneFrom(pat, p, caps, depth)
    ensures var r := ReadItem(pat, p);
            && r.item != Malformed && depth >= 0
            && (r.item.Chars? ==> SaneFrom(pat, r.next, caps, if r.item.suffix == Once then depth else depth - 1))
            && (r.item.OpenCapture? || r.item.PositionCapture? ==> |caps| < MAXCAPTURES)
            && (r.item.OpenCapture? ==> forall s: int :: SaneFrom(pat, r.next, caps + [Capture(s, Unfinished)], depth - 1))
            && (r.item.PositionCapture? ==> forall s: int :: SaneFrom(pat, r.next, caps + [Capture(s, Position)], depth - 1))
            && (r.item.CloseCapture? ==> OpenIndex(caps) >= 0)
            && (r.item.CloseCapture? ==> forall s: int :: SaneFrom(pat, r.next, CloseAt(caps, OpenIndex(caps), s), depth - 1))
            && (r.item.EndAnchor? || r.item.Balance? || r.item.Frontier? || r.item.BackRef? ==> SaneFrom(pat, r.next, caps, depth))
            && (r.item.BackRef? ==> IsCapture(caps, r.item.digit))
  {
    hide ReadItem, OpenIndex, LastOpen, CloseAt;
    var r := ReadItem(pat, p);
    assert Items(pat, p)[0] == r.item && Items(pat, p)[1..] == Items(pat, r.next);
    OpensLast(caps);
    forall s: int ensures Opens(caps + [Capture(s, Unfinished)]) == Opens(caps) + [true] { OpensMore(caps, Capture(s, Unfinished)); }
    forall s: int ensures Opens(caps + [Capture(s, Position)]) == Opens(caps) + [false] { OpensMore(caps, Capture(s, Position)); }
    if OpenIndex(caps) >= 0 {
      forall s: int ensures Opens(CloseAt(caps, OpenIndex(caps), s)) == Opens(caps)[OpenIndex(caps) := false] {
        OpensClosed(caps, OpenIndex(caps), s);
      }
    }
  }

  // What the items that open and close captures do.
  lemma CaptureItems(src: Text, pat: Text, p: nat, s: nat, caps: seq<Capture>)
    requires p < |pat|
    ensures pat[p] == 40 && At(pat, p + 1) == 41 ==>
              p + 2 <= |pat| && ReadItem(pat, p) == Read(PositionCapture, p + 2)
              && Successes(src, Items(pat, p), s, caps) == Successes(src, Items(pat, p + 2), s, caps + [Capture(s, Position)])
    ensures pat[p] == 40 && At(pat, p + 1) != 41 ==>
              ReadItem(pat, p) == Read(OpenCapture, p + 1)
              && Successes(src, Items(pat, p), s, caps) == Successes(src, Items(pat, p + 1), s, caps + [Capture(s, Unfinished)])
    ensures pat[p] == 41 ==> ReadItem(pat, p) == Read(CloseCapture, p + 1)
    ensures pat[p] == 41 ==>
              Successes(src, Items(pat, p), s, caps)
              == if OpenIndex(caps) < 0 then [] else Successes(src, Items(pat, p + 1), s, CloseAt(caps, OpenIndex(caps), s))
  {
    hide ReadClass, OpenIndex, CloseAt;
    var r := ReadItem(pat, p);
    assert Items(pat, p)[0] == r.item && Items(pat, p)[1..] == Items(pat, r.next);
  }

  // A '$' at the end of the pattern.
  lemma EndItem(src: Text, pat: Text, p: nat, s: nat, caps: seq<Capture>)
    requires p < |pat|
    ensures pat[p] == 36 && p + 1 == |pat| ==>
              Successes(src, Items(pat, p), s, caps) == if s == |src| then [Success(s, caps)] else []
  {
    hide ReadClass;
    var r := ReadItem(pat, p);
    assert Items(pat, p)[0] == r.item && Items(pat, p)[1..] == Items(pat, r.next);
  }

  lemma HeadItem(pat: Text, p: nat)
    requires p < |pat|
    ensures Items(pat, p) != [] && Items(pat, p)[0] == ReadItem(pat, p).item
    ensures Items(pat, p)[1..] == Items(pat, ReadItem(pat, p).next)
  {
    hide ReadItem;
  }

  // A reference to a capture.
  lemma BackRefItem(src: Text, pat: Text, p: nat, s: nat, caps: seq<Capture>)
    requires p < |pat| && pat[p] == L_ESC && IsDigit(At(pat, p + 1))
    ensures p + 2 <= |pat| && ReadItem(pat, p) == Read(BackRef(At(pat, p + 1)), p + 2)
    ensures Successes(src, Items(pat, p), s, caps)
         == if IsCapture(caps, At(pat, p + 1)) && Repeats(src, s, caps[At(pat, p + 1) - 49])
            then Successes(src, Items(pat, p + 2), s + caps[At(pat, p + 1) - 49].len.n, caps) else []
  {
    hide Items, ReadClass, Repeats, IsCapture;
    HeadItem(pat, p);
  }

  // A frontier, or what is no frontier for lack of a set.
  lemma FrontierItem(src: Text, pat: Text, p: nat, s: nat, caps: seq<Capture>)
    requires p < |pat| && pat[p] == L_ESC && At(pat, p + 1) == 102
    ensures At(pat, p + 2) != 91 || ClassEnd(pat, p + 2) == -1 ==>
              ReadItem(pat, p).item == Malformed && Successes(src, Items(pat, p), s, caps) == []
    ensures At(pat, p + 2) == 91 && ClassEnd(pat, p + 2) != -1 ==>
              var ep := ClassEnd(pat, p + 2);
              && p + 2 < ep - 1 < |pat|
              && ReadItem(pat, p) == Read(Frontier(SetAt(pat, p + 2, ep - 1)), ep)
              && Successes(src, Items(pat, p), s, caps)
                 == if AtFrontier(src, s, SetAt(pat, p + 2, ep - 1)) then Successes(src, Items(pat, ep), s, caps) else []
  {
    hide Items, ReadClass, AtFrontier, SetAt;
    HeadItem(pat, p);
  }

  lemma DefaultItem(pat: Text, p: nat)
    requires p < |pat| && pat[p] != 40 && pat[p] != 41 && !(pat[p] == 36 && p + 1 == |pat|)
    requires pat[p] == L_ESC ==> At(pat, p + 1) != 98 && At(pat, p + 1) != 102 && !IsDigit(At(pat, p + 1))
    ensures ReadItem(pat, p) == ReadClass(pat, p)
  {
    hide ReadClass;
  }

  // A class and its suffix.
  lemma ClassItem(src: Text, pat: Text, p: nat, s: nat, caps: seq<Capture>)
    requires p < |pat| && ReadItem(pat, p) == ReadClass(pat, p)
    ensures ClassEnd(pat, p) == -1 ==> ReadItem(pat, p).item == Malformed && Successes(src, Items(pat, p), s, caps) == []
    ensures ClassEnd(pat, p) != -1 ==>
              var ep := ClassEnd(pat, p);
              var suffix := SuffixAt(pat, ep);
              var next := if suffix == Once then ep else ep + 1;
              && ReadItem(pat, p) == Read(Chars(ClassAt(pat, p, ep), suffix), next)
              && Successes(src, Items(pat, p), s, caps) == Repeated(src, Items(pat, next), ClassAt(pat, p, ep), suffix, s, caps)
  {
    hide Items, ReadItem, Repeated, ClassAt, ClassEnd;
    HeadItem(pat, p);
  }

  lemma NoItems(src: Text, pat: Text, s: nat, caps: seq<Capture>)
    ensures Successes(src, Items(pat, |pat|), s, caps) == [Success(s, caps)]
  {
  }

  lemma OneRepetition(src: Text, rest: seq<Item>, s: nat, n: nat, caps: seq<Capture>)
    requires n == 0 || s + n <= |src|
    ensures Descending(src, rest, s, n, caps)
         == Successes(src, rest, s + n, caps) + if n == 0 then [] else Descending(src, rest, s, n - 1, caps)
  {
    hide Successes;
  }

  // An outcome that agrees with the first successes of a list.
  lemma FirstAgrees(out: Outcome, first: seq<Success>, more: seq<Success>, before: seq<Capture>, after: seq<Capture>)
    requires Agrees(out, first, before, after)
    ensures if out == Failed then first + more == more && after == before else Agrees(out, first + more, before, after)
  {
  }

  lemma NoneAgrees(caps: seq<Capture>)
    ensures Agrees(Failed, [], caps, caps)
  {
  }

  class MatchState {
    const src: Text
    const pat: Text
    const capture: array<Capture>
    var level: nat
    var matchdepth: int

    ghost predicate Valid()
      reads this`level
    {
      capture.Length == MAXCAPTURES && level <= MAXCAPTURES
    }

    ghost function Caps(): seq<Capture>
      requires Valid()
      reads this`level, capture
    {
      capture[..level]
    }

    constructor (src: Text, pat: Text)
      ensures Valid() && this.src == src && this.pat == pat && level == 0 && matchdepth == MAXCCALLS
      ensures fresh(capture)
    {
      this.src, this.pat := src, pat;
      capture := new Capture[MAXCAPTURES](i => Capture(0, Unfinished));
      level, matchdepth := 0, MAXCCALLS;
    }

    // --- Single characters ---

    // Where the class at 'p' ends; -1 stands for the error it raises.
    method FindClassEnd(p: nat) returns (ep: int)
      requires p < |pat|
      ensures ep == ClassEnd(pat, p)
    {
      var q := p + 1;
      if pat[p] == L_ESC {
        return if q == |pat| then -1 else q + 1;
      }
      if pat[p] == 91 {
        if At(pat, q) == 94 {
          q := q + 1;
        }
        var first := true;
        while first || At(pat, q) != 93
          invariant q <= |pat| && (first || q > p)
          invariant !first && At(pat, q) == 93 ==> q < |pat|
          invariant ClassEnd(pat, p)
                 == (var e := if !first && At(pat, q) == 93 then q else SetEnd(pat, q); if e == -1 then -1 else e + 1)
          decreases |pat| - q, first
        {
          if q == |pat| {
            return -1;
          }
          var c := pat[q];
          q := q + 1;
          if c == L_ESC && q < |pat| {
            q := q + 1;
          }
          first := false;
        }
        return q + 1;
      }
      ep := q;
    }

    // Whether 'c' is in the set from '[' at 'p' to ']' at 'ec'.
    method InSet(c: int, p: nat, ec: nat) returns (b: bool)
      requires p < ec <= |pat|
      ensures b == Contains(SetAt(pat, p, ec), c)
    {
      var sig := true;
      var q := p;
      if At(pat, p + 1) == 94 {
        sig := false;
        q := p + 1;
      }
      q := q + 1;
      ghost var all := Elems(pat, q, ec);
      assert SetAt(pat, p, ec) == Bracket(!sig, all);
      while q < ec
        invariant p < q && InSome(c, all) == InSome(c, Elems(pat, q, ec))
        decreases ec - q
      {
        ghost var q0 := q;
        if pat[q] == L_ESC {
          q := q + 1;
          InSomeCons(c, Escaped(At(pat, q)), Elems(pat, q + 1, ec));
          if InEscaped(c, At(pat, q)) {
            return sig;
          }
        } else if At(pat, q + 1) == 45 && q + 2 < ec {
          q := q + 2;
          InSomeCons(c, Range(pat[q - 2], pat[q]), Elems(pat, q + 1, ec));
          if pat[q - 2] as int <= c && c <= pat[q] as int {
            return sig;
          }
        } else {
          InSomeCons(c, One(pat[q]), Elems(pat, q + 1, ec));
          if pat[q] as int == c {
            return sig;
          }
        }
        q := q + 1;
      }
      b := !sig;
    }

    method MatchSingle(s: nat, p: nat, ep: nat) returns (b: bool)
      requires p < |pat| && ClassEnd(pat, p) == ep
      ensures b == MatchesOne(src, s, ClassAt(pat, p, ep))
    {
      if s >= |src| {
        return false;
      }
      var c := src[s];
      if pat[p] == 46 {
        return true;
      }
      if pat[p] == L_ESC {
        return InEscaped(c, At(pat, p + 1));
      }
      if pat[p] == 91 {
        b := InSet(c, p, ep - 1);
        return;
      }
      b := pat[p] == c;
    }

    method MatchBalance(s: nat, p: nat) returns (r: int)
      requires s <= |src|
      ensures r == BalanceFrom(src, s, At(pat, p), At(pat, p + 1))
    {
      if At(src, s) != At(pat, p) {
        return -1;
      }
      var b, e := At(pat, p), At(pat, p + 1);
      var cont := 1;
      var i := s + 1;
      while i < |src|
        invariant s < i && 1 <= cont && (i <= |src| || i == |src| + 1)
        invariant BalanceFrom(src, s, b, e) == BalanceEnd(src, i, b, e, cont)
        decreases |src| - i
      {
        if src[i] == e {
          cont := cont - 1;
          if cont == 0 {
            return i + 1;
          }
        } else if src[i] == b {
          cont := cont + 1;
        }
        i := i + 1;
      }
      r := -1;
    }

    // --- Captures ---

    method CaptureToClose() returns (l: int)
      requires Valid()
      ensures l == OpenIndex(Caps())
    {
      l := level - 1;
      while l >= 0
        invariant -1 <= l < level && OpenIndex(Caps()) == OpenIndex(capture[..l + 1])
      {
        assert capture[..l + 1][..l] == capture[..l];
        if capture[l].len == Unfinished {
          return;
        }
        l := l - 1;
      }
    }

    method MatchCapture(s: nat, digit: int) returns (out: Outcome)
      requires Valid() && s <= |src|
      ensures out.Raised? <==> !IsCapture(Caps(), digit)
      ensures IsCapture(Caps(), digit) ==>
                out == if Repeats(src, s, Caps()[digit - 49]) then Matched(s + Caps()[digit - 49].len.n) else Failed
    {
      var l := digit - 49;
      if l < 0 || l >= level || capture[l].len == Unfinished {
        return Raised("invalid capture index");
      }
      var c := capture[l];
      if c.len.Closed? && 0 <= c.len.n && 0 <= c.init && c.init + c.len.n <= |src| && s + c.len.n <= |src|
         && src[c.init..c.init + c.len.n] == src[s..s + c.len.n] {
        return Matched(s + c.len.n);
      }
      out := Failed;
    }

    method StartCapture(s: nat, p: nat, what: Length) returns (out: Outcome)
      requires Valid() && s <= |src| && p <= |pat| && matchdepth >= 0
      modifies this`level, this`matchdepth, capture
      ensures Valid() && (!out.Raised? ==> matchdepth == old(matchdepth))
      ensures Agrees(out, Successes(src, Items(pat, p), s, old(Caps()) + [Capture(s, what)]), old(Caps()), Caps())
      ensures old(level) < MAXCAPTURES && SaneFrom(pat, p, old(Caps()) + [Capture(s, what)], old(matchdepth) - 1) ==> !out.Raised?
      decreases matchdepth, 3
    {
      hide SaneFrom;
      if level >= MAXCAPTURES {
        return Raised("too many captures");
      }
      ghost var before := Caps();
      capture[level] := Capture(s, what);
      level := level + 1;
      assert Caps() == before + [Capture(s, what)];
      out := Match(s, p);
      if out == Failed {
        level := level - 1;
        assert Caps() == before;
      }
    }

    method EndCapture(s: nat, p: nat) returns (out: Outcome)
      requires Valid() && s <= |src| && p <= |pat| && matchdepth >= 0
      modifies this`level, this`matchdepth, capture
      ensures Valid() && (!out.Raised? ==> matchdepth == old(matchdepth))
      ensures out.Raised? || OpenIndex(old(Caps())) >= 0
      ensures OpenIndex(old(Caps())) >= 0 ==>
                Agrees(out, Successes(src, Items(pat, p), s, CloseAt(old(Caps()), OpenIndex(old(Caps())), s)),
                       old(Caps()), Caps())
      ensures (OpenIndex(old(Caps())) >= 0
               && SaneFrom(pat, p, CloseAt(old(Caps()), OpenIndex(old(Caps())), s), old(matchdepth) - 1)) ==> !out.Raised?
      decreases matchdepth, 3
    {
      hide SaneFrom;
      var l := CaptureToClose();
      if l < 0 {
        return Raised("invalid pattern capture");
      }
      ghost var before := Caps();
      capture[l] := Capture(capture[l].init, Closed(s - capture[l].init));
      assert Caps() == CloseAt(before, l, s);
      out := Match(s, p);
      if out == Failed {
        assert Caps()[l] == capture[l];
        capture[l] := Capture(capture[l].init, Unfinished);
        assert Caps() == before;
      }
    }

    // --- Repetitions ---

    method CountRun(s: nat, p: nat, ep: nat) returns (i: nat)
      requires s <= |src| && p < |pat| && ClassEnd(pat, p) == ep
      ensures i == RunLength(src, s, ClassAt(pat, p, ep)) && s + i <= |src|
    {
      ghost var k := ClassAt(pat, p, ep);
      i := 0;
      var more := MatchSingle(s, p, ep);
      while more
        invariant more == MatchesOne(src, s + i, k) && s + i <= |src|
        invariant RunLength(src, s, k) == i + RunLength(src, s + i, k)
        decreases |src| - (s + i)
      {
        i := i + 1;
        more := MatchSingle(s + i, p, ep);
      }
    }

    method MaxExpand(s: nat, p: nat, ep: nat) returns (out: Outcome)
      requires Valid() && s <= |src| && p < |pat| && ClassEnd(pat, p) == ep < |pat| && matchdepth >= 0
      modifies this`level, this`matchdepth, capture
      ensures Valid() && (!out.Raised? ==> matchdepth == old(matchdepth))
      ensures var k := ClassAt(pat, p, ep);
              Agrees(out, Descending(src, Items(pat, ep + 1), s, RunLength(src, s, k), old(Caps())), old(Caps()), Caps())
      ensures SaneFrom(pat, ep + 1, old(Caps()), old(matchdepth) - 1) ==> !out.Raised?
      decreases matchdepth, 3
    {
      hide SaneFrom, RunLength, ClassAt, ClassEnd, Items, Successes, Descending, Agrees;
      ghost var before := Caps();
      ghost var rest := Items(pat, ep + 1);
      var run := CountRun(s, p, ep);
      var i: int := run;
      ghost var all := Descending(src, rest, s, i, before);
      while i >= 0
        invariant -1 <= i && s + i <= |src| && Valid() && Caps() == before && matchdepth == old(matchdepth)
        invariant all == if i >= 0 then Descending(src, rest, s, i, before) else []
        decreases i
      {
        OneRepetition(src, rest, s, i, before);
        out := Match(s + i, ep + 1);
        FirstAgrees(out, Successes(src, rest, s + i, before), if i == 0 then [] else Descending(src, rest, s, i - 1, before),
                    before, Caps());
        if out != Failed {
          return;
        }
        i := i - 1;
      }
      out := Failed;
      NoneAgrees(before);
    }

    method MinExpand(s0: nat, p: nat, ep: nat) returns (out: Outcome)
      requires Valid() && s0 <= |src| && p < |pat| && ClassEnd(pat, p) == ep < |pat| && matchdepth >= 0
      modifies this`level, this`matchdepth, capture
      ensures Valid() && (!out.Raised? ==> matchdepth == old(matchdepth))
      ensures var k := ClassAt(pat, p, ep);
              Agrees(out, Ascending(src, Items(pat, ep + 1), k, s0, old(Caps())), old(Caps()), Caps())
      ensures SaneFrom(pat, ep + 1, old(Caps()), old(matchdepth) - 1) ==> !out.Raised?
      decreases matchdepth, 3
    {
      hide SaneFrom, Successes, Items, ClassAt;
      ghost var k := ClassAt(pat, p, ep);
      ghost var before := Caps();
      ghost var rest := Items(pat, ep + 1);
      var s := s0;
      while true
        invariant s <= |src| && Valid() && Caps() == before && matchdepth == old(matchdepth)
        invariant Ascending(src, rest, k, s0, before) == Ascending(src, rest, k, s, before)
        decreases |src| - s
      {
        out := Match(s, ep + 1);
        if out != Failed {
          return;
        }
        var one := MatchSingle(s, p, ep);
        if !one {
          return;
        }
        s := s + 1;
      }
    }

    // --- The matcher ---

    // A class that matches no byte at 's', and need not.
    lemma NoRepetition(rest: seq<Item>, k: Class, suffix: Suffix, s: nat, caps: seq<Capture>)
      requires !MatchesOne(src, s, k) && (suffix == Star || suffix == Optional || suffix == Lazy)
      ensures Repeated(src, rest, k, suffix, s, caps) == Successes(src, rest, s, caps)
    {
    }

    // A class that matched the byte at 's', by its suffix. When 'again' is set
    // the match goes on at 's1' and 'p1'.
    method MatchSuffix(s: nat, p: nat, ep: nat) returns (again: bool, s1: nat, p1: nat, out: Outcome)
      requires Valid() && p < |pat| && ClassEnd(pat, p) == ep && matchdepth >= 0
      requires MatchesOne(src, s, ClassAt(pat, p, ep))
      modifies this`level, this`matchdepth, capture
      ensures Valid() && (again || !out.Raised? ==> matchdepth == old(matchdepth))
      ensures var suffix := SuffixAt(pat, ep);
              var rest := Items(pat, if suffix == Once then ep else ep + 1);
              var all := Repeated(src, rest, ClassAt(pat, p, ep), suffix, s, old(Caps()));
              if again then
                Caps() == old(Caps()) && s1 <= |src| && p < p1 <= |pat| && all == Successes(src, Items(pat, p1), s1, Caps())
              else Agrees(out, all, old(Caps()), Caps())
      ensures var suffix := SuffixAt(pat, ep);
              SaneFrom(pat, if suffix == Once then ep else ep + 1, old(Caps()), old(matchdepth) - (if suffix == Once then 0 else 1)) ==>
              if again then SaneFrom(pat, p1, Caps(), matchdepth) else !out.Raised?
      decreases matchdepth, 4
    {
      hide SaneFrom, Descending, Ascending, RunLength, ClassAt, ClassEnd, Items, Successes;
      DeeperFrom(pat, ep + 1, Caps(), matchdepth);
      again, s1, p1, out := false, s, p, Failed;
      var c := At(pat, ep);
      if c == 63 {
        out := Match(s + 1, ep + 1);
        if out == Failed {
          assert [] + Successes(src, Items(pat, ep + 1), s, Caps()) == Successes(src, Items(pat, ep + 1), s, Caps());
          return true, s, ep + 1, Failed;
        }
      } else if c == 43 {
        out := MaxExpand(s + 1, p, ep);
      } else if c == 42 {
        out := MaxExpand(s, p, ep);
      } else if c == 45 {
        out := MinExpand(s, p, ep);
      } else {
        return true, s + 1, ep, Failed;
      }
    }

    // A class and its suffix, at 'p'.
    method MatchDefault(s: nat, p: nat) returns (again: bool, s1: nat, p1: nat, out: Outcome)
      requires Valid() && s <= |src| && p < |pat| && matchdepth >= 0 && ReadItem(pat, p) == ReadClass(pat, p)
      modifies this`level, this`matchdepth, capture
      ensures Valid() && (again || !out.Raised? ==> matchdepth == old(matchdepth))
      ensures again ==> Caps() == old(Caps()) && s1 <= |src| && p < p1 <= |pat|
                        && Successes(src, Items(pat, p), s, Caps()) == Successes(src, Items(pat, p1), s1, Caps())
      ensures !again ==> Agrees(out, Successes(src, Items(pat, p), s, old(Caps())), old(Caps()), Caps())
      ensures SaneFrom(pat, p, old(Caps()), old(matchdepth)) ==>
                if again then SaneFrom(pat, p1, Caps(), matchdepth) else !out.Raised?
      decreases matchdepth, 5
    {
      hide SaneFrom, Repeated, Contains, ClassAt, ClassEnd, Successes, Items, ReadItem, ReadClass;
      if SaneFrom(pat, p, Caps(), matchdepth) { SaneItem(pat, p, Caps(), matchdepth); }
      DeeperFrom(pat, ReadItem(pat, p).next, Caps(), matchdepth);
      ClassItem(src, pat, p, s, Caps());
      again, s1, p1, out := false, s, p, Failed;
      var ep := FindClassEnd(p);
      if ep == -1 {
        return false, s, p, Raised("malformed pattern");
      }
      ghost var next := ReadItem(pat, p).next;
      var c := At(pat, ep);
      var one := MatchSingle(s, p, ep);
      if one {
        again, s1, p1, out := MatchSuffix(s, p, ep);
      } else if c == 42 || c == 63 || c == 45 {
        NoRepetition(Items(pat, ep + 1), ClassAt(pat, p, ep), SuffixAt(pat, ep), s, Caps());
        again, p1 := true, ep + 1;
      } else {
        NeedsOne(Items(pat, next), ClassAt(pat, p, ep), SuffixAt(pat, ep), s, Caps());
      }
    }

    lemma NeedsOne(rest: seq<Item>, k: Class, suffix: Suffix, s: nat, caps: seq<Capture>)
      requires !MatchesOne(src, s, k) && (suffix == Once || suffix == Plus)
      ensures Repeated(src, rest, k, suffix, s, caps) == []
    {
    }

    // The items that begin with an escape and are no class: where the match
    // goes on, when it does.
    method MatchBalanced(s: nat, p: nat) returns (again: bool, s1: nat, p1: nat, out: Outcome)
      requires Valid() && s <= |src| && p < |pat| && pat[p] == L_ESC && At(pat, p + 1) == 98
      ensures again ==> s1 <= |src| && p < p1 <= |pat|
                        && Successes(src, Items(pat, p), s, Caps()) == Successes(src, Items(pat, p1), s1, Caps())
      ensures !again ==> !out.Matched? && Agrees(out, Successes(src, Items(pat, p), s, Caps()), Caps(), Caps())
      ensures SaneFrom(pat, p, Caps(), matchdepth) ==> if again then SaneFrom(pat, p1, Caps(), matchdepth) else !out.Raised?
    {
      hide SaneFrom;
      if SaneFrom(pat, p, Caps(), matchdepth) { SaneItem(pat, p, Caps(), matchdepth); }
      ghost var r := ReadItem(pat, p);
      assert Items(pat, p)[0] == r.item && Items(pat, p)[1..] == Items(pat, r.next);
      if p + 2 >= |pat| - 1 {
        return false, s, p, Raised("malformed pattern (missing arguments to '%b')");
      }
      var e := MatchBalance(s, p + 2);
      if e != -1 {
        return true, e, p + 4, Failed;
      }
      return false, s, p, Failed;
    }

    method MatchFrontier(s: nat, p: nat) returns (again: bool, s1: nat, p1: nat, out: Outcome)
      requires Valid() && s <= |src| && p < |pat| && pat[p] == L_ESC && At(pat, p + 1) == 102
      ensures again ==> s1 <= |src| && p < p1 <= |pat|
                        && Successes(src, Items(pat, p), s, Caps()) == Successes(src, Items(pat, p1), s1, Caps())
      ensures !again ==> !out.Matched? && Agrees(out, Successes(src, Items(pat, p), s, Caps()), Caps(), Caps())
      ensures SaneFrom(pat, p, Caps(), matchdepth) ==> if again then SaneFrom(pat, p1, Caps(), matchdepth) else !out.Raised?
    {
      hide SaneFrom, Successes, Items, ReadItem, ClassEnd, SetAt, Contains;
      if SaneFrom(pat, p, Caps(), matchdepth) { SaneItem(pat, p, Caps(), matchdepth); }
      FrontierItem(src, pat, p, s, Caps());
      if At(pat, p + 2) != 91 {
        return false, s, p, Raised("missing '[' after '%f' in pattern");
      }
      var ep := FindClassEnd(p + 2);
      if ep == -1 {
        return false, s, p, Raised("malformed pattern");
      }
      var previous := if s == 0 then 0 else At(src, s - 1);
      var before := InSet(previous, p + 2, ep - 1);
      var after := InSet(At(src, s), p + 2, ep - 1);
      if !before && after {
        return true, s, ep, Failed;
      }
      return false, s, p, Failed;
    }

    method MatchBackRef(s: nat, p: nat) returns (again: bool, s1: nat, p1: nat, out: Outcome)
      requires Valid() && s <= |src| && p < |pat| && pat[p] == L_ESC && IsDigit(At(pat, p + 1))
      ensures again ==> s1 <= |src| && p < p1 <= |pat|
                        && Successes(src, Items(pat, p), s, Caps()) == Successes(src, Items(pat, p1), s1, Caps())
      ensures !again ==> !out.Matched? && Agrees(out, Successes(src, Items(pat, p), s, Caps()), Caps(), Caps())
      ensures SaneFrom(pat, p, Caps(), matchdepth) ==> if again then SaneFrom(pat, p1, Caps(), matchdepth) else !out.Raised?
    {
      hide SaneFrom, Successes, Items, ReadItem;
      if SaneFrom(pat, p, Caps(), matchdepth) { SaneItem(pat, p, Caps(), matchdepth); }
      BackRefItem(src, pat, p, s, Caps());
      var res := MatchCapture(s, At(pat, p + 1));
      if res.Matched? {
        return true, res.end, p + 2, Failed;
      }
      return false, s, p, res;
    }

    method Match(s0: nat, p0: nat) returns (out: Outcome)
      requires Valid() && s0 <= |src| && p0 <= |pat| && matchdepth >= 0
      modifies this`level, this`matchdepth, capture
      ensures Valid() && (!out.Raised? ==> matchdepth == old(matchdepth))
      ensures Agrees(out, Successes(src, Items(pat, p0), s0, old(Caps())), old(Caps()), Caps())
      ensures SaneFrom(pat, p0, old(Caps()), old(matchdepth) - 1) ==> !out.Raised?
      decreases matchdepth, 2
    {
      hide SaneFrom, Successes, Items, ReadItem, ReadClass, OpenIndex, CloseAt;
      NoDepth(pat, p0, Caps(), matchdepth - 1);
      matchdepth := matchdepth - 1;
      if matchdepth < 0 {
        return Raised("pattern too complex");
      }
      var s: nat, p: nat := s0, p0;
      ghost var before := Caps();
      out := Failed;
      while p != |pat|
        invariant s <= |src| && p <= |pat| && Valid() && Caps() == before && matchdepth == old(matchdepth) - 1
        invariant Successes(src, Items(pat, p0), s0, before) == Successes(src, Items(pat, p), s, before)
        invariant SaneFrom(pat, p0, before, old(matchdepth) - 1) ==> SaneFrom(pat, p, before, matchdepth)
        decreases |pat| - p
      {
        if SaneFrom(pat, p, before, matchdepth) { SaneItem(pat, p, before, matchdepth); }
        CaptureItems(src, pat, p, s, before);
        EndItem(src, pat, p, s, before);
        var c, d := pat[p], At(pat, p + 1);
        var again := false;
        if c == 40 {
          if d == 41 {
            out := StartCapture(s, p + 2, Position);
          } else {
            out := StartCapture(s, p + 1, Unfinished);
          }
        } else if c == 41 {
          out := EndCapture(s, p + 1);
        } else if c == 36 && p + 1 == |pat| {
          out := if s == |src| then Matched(s) else Failed;
        } else if c == L_ESC && d == 98 {
          again, s, p, out := MatchBalanced(s, p);
        } else if c == L_ESC && d == 102 {
          again, s, p, out := MatchFrontier(s, p);
        } else if c == L_ESC && IsDigit(d) {
          again, s, p, out := MatchBackRef(s, p);
        } else {
          DefaultItem(pat, p);
          again, s, p, out := MatchDefault(s, p);
        }
        if !again {
          matchdepth := matchdepth + 1;
          return;
        }
      }
      NoItems(src, pat, s, before);
      matchdepth := matchdepth + 1;
      out := Matched(s);
    }
  }
}
