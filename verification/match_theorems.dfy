// What the successes of a pattern are: exactly its derivations, greedy items
// longest first and lazy items shortest first.
module MatchTheorems {
  import opened MatchPattern
  import opened MatchMachine

  // --- Successes are derivations ---

  predicate Counts(suffix: Suffix, n: nat) {
    match suffix
    case Once => n == 1
    case Optional => n <= 1
    case Plus => n >= 1
    case _ => true
  }

  ghost predicate AllIn(src: Text, k: Class, s: nat, n: nat) {
    forall i :: s <= i < s + n ==> MatchesOne(src, i, k)
  }

  // 'items' can match the subject from 's' to 'e', turning the captures
  // 'caps' into 'after'. There is no order here, and no search.
  ghost predicate Derives(src: Text, items: seq<Item>, s: nat, caps: seq<Capture>, r: Success)
    decreases |items|
  {
    if items == [] then r == Success(s, caps)
    else
      var rest := items[1..];
      match items[0]
      case Chars(k, suffix) =>
        exists n: nat :: Counts(suffix, n) && AllIn(src, k, s, n) && Derives(src, rest, s + n, caps, r)
      case OpenCapture => Derives(src, rest, s, caps + [Capture(s, Unfinished)], r)
      case PositionCapture => Derives(src, rest, s, caps + [Capture(s, Position)], r)
      case CloseCapture => OpenIndex(caps) >= 0 && Derives(src, rest, s, CloseAt(caps, OpenIndex(caps), s), r)
      case EndAnchor => s == |src| && Derives(src, rest, s, caps, r)
      case Balance(b, e) => BalanceFrom(src, s, b, e) >= 0 && Derives(src, rest, BalanceFrom(src, s, b, e), caps, r)
      case Frontier(k) => AtFrontier(src, s, k) && Derives(src, rest, s, caps, r)
      case BackRef(d) =>
        IsCapture(caps, d) && Repeats(src, s, caps[d - 49]) && Derives(src, rest, s + caps[d - 49].len.n, caps, r)
      case Malformed => false
  }

  // Some number of repetitions between 'lo' and 'hi' leads to 'r'.
  ghost predicate DerivesAfter(src: Text, rest: seq<Item>, s: nat, n: nat, caps: seq<Capture>, r: Success) {
    Derives(src, rest, s + n, caps, r)
  }

  lemma {:induction false} DescendingDerives(src: Text, rest: seq<Item>, s: nat, n: nat, caps: seq<Capture>, r: Success)
    requires n == 0 || s + n <= |src|
    ensures r in Descending(src, rest, s, n, caps) <==> exists i: nat :: i <= n && DerivesAfter(src, rest, s, i, caps, r)
    decreases |rest|, n + 1
  {
    hide Successes, Derives;
    SuccessesDerive(src, rest, s + n, caps, r);
    assert r in Successes(src, rest, s + n, caps) <==> DerivesAfter(src, rest, s, n, caps, r);
    if n > 0 {
      DescendingDerives(src, rest, s, n - 1, caps, r);
    }
  }

  lemma {:induction false} AscendingDerives(src: Text, rest: seq<Item>, k: Class, s: nat, caps: seq<Capture>, r: Success)
    ensures r in Ascending(src, rest, k, s, caps)
       <==> exists i: nat :: AllIn(src, k, s, i) && DerivesAfter(src, rest, s, i, caps, r)
    decreases |rest|, if s <= |src| then |src| - s + 1 else 1
  {
    hide Successes, Derives;
    SuccessesDerive(src, rest, s, caps, r);
    assert r in Successes(src, rest, s, caps) <==> DerivesAfter(src, rest, s, 0, caps, r);
    if MatchesOne(src, s, k) {
      AscendingDerives(src, rest, k, s + 1, caps, r);
      if r in Ascending(src, rest, k, s + 1, caps) {
        var i: nat :| AllIn(src, k, s + 1, i) && DerivesAfter(src, rest, s + 1, i, caps, r);
        assert AllIn(src, k, s, i + 1) && DerivesAfter(src, rest, s, i + 1, caps, r);
      }
      forall i: nat | i > 0 && AllIn(src, k, s, i) && DerivesAfter(src, rest, s, i, caps, r)
        ensures r in Ascending(src, rest, k, s + 1, caps)
      {
        assert AllIn(src, k, s + 1, i - 1) && DerivesAfter(src, rest, s + 1, i - 1, caps, r);
      }
    } else {
      forall i: nat | i > 0 ensures !AllIn(src, k, s, i) {}
    }
  }

  // The repetitions that are possible are those up to the length of the run.
  lemma RunIsLongest(src: Text, k: Class, s: nat, n: nat)
    ensures AllIn(src, k, s, n) <==> n <= RunLength(src, s, k)
  {
    if n > RunLength(src, s, k) {
      assert !MatchesOne(src, s + RunLength(src, s, k), k);
    }
  }

  lemma RepeatedDerives(src: Text, rest: seq<Item>, k: Class, suffix: Suffix, s: nat, caps: seq<Capture>, r: Success)
    ensures r in Repeated(src, rest, k, suffix, s, caps)
       <==> exists n: nat :: Counts(suffix, n) && AllIn(src, k, s, n) && DerivesAfter(src, rest, s, n, caps, r)
    decreases |rest|, |src| + 3
  {
    assert AllIn(src, k, s, 0) && (AllIn(src, k, s, 1) <==> MatchesOne(src, s, k));
    match suffix
    case Once =>
      if MatchesOne(src, s, k) {
        SuccessesDerive(src, rest, s + 1, caps, r);
        assert r in Successes(src, rest, s + 1, caps) <==> DerivesAfter(src, rest, s, 1, caps, r);
      }
    case Optional => OptionalDerives(src, rest, k, s, caps, r);
    case Star =>
      DescendingDerives(src, rest, s, RunLength(src, s, k), caps, r);
      forall n: nat ensures AllIn(src, k, s, n) <==> n <= RunLength(src, s, k) { RunIsLongest(src, k, s, n); }
    case Plus => PlusDerives(src, rest, k, s, caps, r);
    case Lazy => AscendingDerives(src, rest, k, s, caps, r);
  }

  lemma OptionalDerives(src: Text, rest: seq<Item>, k: Class, s: nat, caps: seq<Capture>, r: Success)
    ensures r in Repeated(src, rest, k, Optional, s, caps)
       <==> exists n: nat :: Counts(Optional, n) && AllIn(src, k, s, n) && DerivesAfter(src, rest, s, n, caps, r)
    decreases |rest|, |src| + 2
  {
    SuccessesDerive(src, rest, s, caps, r);
    assert r in Successes(src, rest, s, caps) <==> DerivesAfter(src, rest, s, 0, caps, r);
    assert Counts(Optional, 0) && AllIn(src, k, s, 0) && Counts(Optional, 1);
    assert AllIn(src, k, s, 1) <==> MatchesOne(src, s, k);
    if MatchesOne(src, s, k) {
      SuccessesDerive(src, rest, s + 1, caps, r);
      assert r in Successes(src, rest, s + 1, caps) <==> DerivesAfter(src, rest, s, 1, caps, r);
    }
  }

  lemma PlusDerives(src: Text, rest: seq<Item>, k: Class, s: nat, caps: seq<Capture>, r: Success)
    ensures r in Repeated(src, rest, k, Plus, s, caps)
       <==> exists n: nat :: Counts(Plus, n) && AllIn(src, k, s, n) && DerivesAfter(src, rest, s, n, caps, r)
    decreases |rest|, |src| + 2
  {
    hide Successes, Derives, Descending;
    if MatchesOne(src, s, k) {
      var s1: nat := s + 1;
      var n := RunLength(src, s1, k);
      DescendingDerives(src, rest, s1, n, caps, r);
      if r in Repeated(src, rest, k, Plus, s, caps) {
        var i: nat :| i <= n && DerivesAfter(src, rest, s1, i, caps, r);
        RunIsLongest(src, k, s, i + 1);
        assert Counts(Plus, i + 1) && AllIn(src, k, s, i + 1) && DerivesAfter(src, rest, s, i + 1, caps, r);
      }
      forall m: nat | Counts(Plus, m) && AllIn(src, k, s, m) && DerivesAfter(src, rest, s, m, caps, r)
        ensures r in Repeated(src, rest, k, Plus, s, caps)
      {
        RunIsLongest(src, k, s, m);
        assert m - 1 <= n && DerivesAfter(src, rest, s1, m - 1, caps, r);
      }
    } else {
      forall m: nat | Counts(Plus, m) ensures !AllIn(src, k, s, m) {}
    }
  }

  // The successes are exactly the derivations.
  lemma {:induction false} SuccessesDerive(src: Text, items: seq<Item>, s: nat, caps: seq<Capture>, r: Success)
    ensures r in Successes(src, items, s, caps) <==> Derives(src, items, s, caps, r)
    decreases |items|, 0
  {
    if items != [] {
      var rest := items[1..];
      match items[0]
      case Chars(k, suffix) => 
        RepeatedDerives(src, rest, k, suffix, s, caps, r);
      case OpenCapture => SuccessesDerive(src, rest, s, caps + [Capture(s, Unfinished)], r);
      case PositionCapture => SuccessesDerive(src, rest, s, caps + [Capture(s, Position)], r);
      case CloseCapture =>
        if OpenIndex(caps) >= 0 { SuccessesDerive(src, rest, s, CloseAt(caps, OpenIndex(caps), s), r); }
      case EndAnchor => SuccessesDerive(src, rest, s, caps, r);
      case Balance(b, e) =>
        if BalanceFrom(src, s, b, e) >= 0 { SuccessesDerive(src, rest, BalanceFrom(src, s, b, e), caps, r); }
      case Frontier(k) => SuccessesDerive(src, rest, s, caps, r);
      case BackRef(d) =>
        if IsCapture(caps, d) && Repeats(src, s, caps[d - 49]) {
          SuccessesDerive(src, rest, s + caps[d - 49].len.n, caps, r);
        }
      case Malformed =>
    }
  }

  // --- The order of preference ---

  // The first success of a greedy repetition takes as many bytes as any
  // success does.
  lemma {:induction false} GreedyFirst(src: Text, rest: seq<Item>, s: nat, n: nat, caps: seq<Capture>) returns (i: nat)
    requires n == 0 || s + n <= |src|
    requires Descending(src, rest, s, n, caps) != []
    ensures i <= n && Successes(src, rest, s + i, caps) != []
    ensures Descending(src, rest, s, n, caps)[0] == Successes(src, rest, s + i, caps)[0]
    ensures forall t: nat :: s + i < t <= s + n ==> Successes(src, rest, t, caps) == []
    decreases n
  {
    hide Successes;
    if Successes(src, rest, s + n, caps) != [] {
      i := n;
    } else {
      i := GreedyFirst(src, rest, s, n - 1, caps);
    }
  }

  // The first success of a lazy repetition takes as few bytes as any does.
  lemma {:induction false} LazyFirst(src: Text, rest: seq<Item>, k: Class, s: nat, caps: seq<Capture>) returns (i: nat)
    requires Ascending(src, rest, k, s, caps) != []
    ensures AllIn(src, k, s, i) && Successes(src, rest, s + i, caps) != []
    ensures Ascending(src, rest, k, s, caps)[0] == Successes(src, rest, s + i, caps)[0]
    ensures forall t: nat :: s <= t < s + i ==> Successes(src, rest, t, caps) == []
    decreases if s <= |src| then |src| - s + 1 else 1
  {
    hide Successes;
    if Successes(src, rest, s, caps) != [] {
      i := 0;
    } else {
      var i1 := LazyFirst(src, rest, k, s + 1, caps);
      i := i1 + 1;
    }
  }

  // --- Balanced strings ---

  // How deep the string that opens before 's' is after the byte at 'i - 1'.
  function Depth(src: Text, s: nat, i: nat, b: int, e: int): int
    requires s <= i <= |src|
    decreases i - s
  {
    if i == s then 1
    else Depth(src, s, i - 1, b, e) + (if src[i - 1] == e then -1 else if src[i - 1] == b then 1 else 0)
  }

  // '%b' ends where the depth gets to zero for the first time.
  lemma {:induction false} BalanceEnds(src: Text, s: nat, i: nat, b: int, e: int, cont: nat)
    requires s <= i <= |src| && cont >= 1 && Depth(src, s, i, b, e) == cont
    requires forall j :: s <= j < i ==> Depth(src, s, j, b, e) >= 1
    ensures var r := BalanceEnd(src, i, b, e, cont);
            if r == -1 then forall j :: s <= j <= |src| ==> Depth(src, s, j, b, e) >= 1
            else s < r <= |src| && Depth(src, s, r, b, e) == 0 && forall j :: s <= j < r ==> Depth(src, s, j, b, e) >= 1
    decreases |src| - i
  {
    if i < |src| {
      var next := if src[i] == e then cont - 1 else if src[i] == b then cont + 1 else cont;
      assert Depth(src, s, i + 1, b, e) == next;
      if next > 0 { BalanceEnds(src, s, i + 1, b, e, next); }
    }
  }

  // --- What the captures of a success are ---

  // A capture starts at or before 's', and its text, if it is closed, ends there or before.
  predicate Inside(src: Text, c: Capture, s: nat) {
    0 <= c.init <= s <= |src| && (c.len.Closed? ==> 0 <= c.len.n && c.init + c.len.n <= s)
  }

  ghost predicate AllInside(src: Text, caps: seq<Capture>, s: nat) {
    forall i :: 0 <= i < |caps| ==> Inside(src, caps[i], s)
  }

  // Which captures are open after the items, whatever they match.
  function EndOpens(items: seq<Item>, open: seq<bool>): seq<bool> {
    if items == [] then open
    else
      EndOpens(items[1..], match items[0]
               case OpenCapture => open + [true]
               case PositionCapture => open + [false]
               case CloseCapture => if LastOpen(open) >= 0 then open[LastOpen(open) := false] else open
               case _ => open)
  }

  // Every capture of a success lies inside the part of the subject that was matched, and the
  // pattern alone decides which captures are still open.
  lemma {:induction false} CapturesOfSuccess(src: Text, items: seq<Item>, s: nat, caps: seq<Capture>, r: Success)
    requires s <= |src| && AllInside(src, caps, s) && Derives(src, items, s, caps, r)
    ensures s <= r.end <= |src| && AllInside(src, r.caps, r.end)
    ensures Opens(r.caps) == EndOpens(items, Opens(caps))
    decreases |items|
  {
    hide LastOpen, OpenIndex, AtFrontier;
    if items != [] {
      var rest := items[1..];
      match items[0]
      case Chars(k, suffix) =>
        var n: nat :| Counts(suffix, n) && AllIn(src, k, s, n) && Derives(src, rest, s + n, caps, r);
        if n > 0 { assert MatchesOne(src, s + n - 1, k); }
        CapturesOfSuccess(src, rest, s + n, caps, r);
      case OpenCapture =>
        OpensMore(caps, Capture(s, Unfinished));
        CapturesOfSuccess(src, rest, s, caps + [Capture(s, Unfinished)], r);
      case PositionCapture =>
        OpensMore(caps, Capture(s, Position));
        CapturesOfSuccess(src, rest, s, caps + [Capture(s, Position)], r);
      case CloseCapture =>
        OpensLast(caps);
        OpensClosed(caps, OpenIndex(caps), s);
        CapturesOfSuccess(src, rest, s, CloseAt(caps, OpenIndex(caps), s), r);
      case Balance(b, e) => CapturesOfSuccess(src, rest, BalanceFrom(src, s, b, e), caps, r);
      case BackRef(d) => CapturesOfSuccess(src, rest, s + caps[d - 49].len.n, caps, r);
      case _ => CapturesOfSuccess(src, rest, s, caps, r);
    }
  }
}
