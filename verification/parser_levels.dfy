// The precedence of operators, as the reference manual of the language states it
// (section 3.4.8 of the Lua 5.4 Reference Manual), and the parser measured against it:
// it accepts exactly the texts of the layered grammar, and reads them as that grammar does.
module ParserLevels {
  import opened Common
  import opened ParserGrammar

  // --- The layered grammar ---

  // From the operators that bind least to those that bind most; unary operators are at 11.
  function Level(op: BinOp): nat {
    match op
    case OpOr => 1
    case OpAnd => 2
    case OpLt => 3 case OpGt => 3 case OpLe => 3 case OpGe => 3 case OpNe => 3 case OpEq => 3
    case OpBOr => 4
    case OpBXor => 5
    case OpBAnd => 6
    case OpShl => 7 case OpShr => 7
    case OpConcat => 8
    case OpAdd => 9 case OpSub => 9
    case OpMul => 10 case OpDiv => 10 case OpIDiv => 10 case OpMod => 10
    case OpPow => 12
  }

  predicate RightAssociative(op: BinOp) {
    op == OpConcat || op == OpPow
  }

  function Sign(op: BinOp): Token {
    match op
    case OpOr => TkOr
    case OpAnd => TkAnd
    case OpLt => TkLt case OpGt => TkGt case OpLe => TkLe case OpGe => TkGe case OpNe => TkNe case OpEq => TkEq
    case OpBOr => TkBar
    case OpBXor => TkTilde
    case OpBAnd => TkAmp
    case OpShl => TkShl case OpShr => TkShr
    case OpConcat => TkConcat
    case OpAdd => TkPlus case OpSub => TkMinus
    case OpMul => TkStar case OpDiv => TkSlash case OpIDiv => TkIDiv case OpMod => TkPercent
    case OpPow => TkCaret
  }

  function UnarySign(op: UnOp): Token {
    match op
    case OpNot => TkNot
    case OpLen => TkHash
    case OpMinus => TkMinus
    case OpBNot => TkTilde
  }

  // An expression as it is written, with its parentheses.
  datatype Text =
    | Name(id: int) | Paren(inner: Text) | Prefixed(uop: UnOp, x: Text) | Infixed(op: BinOp, l: Text, r: Text)

  function Written(t: Text): seq<Token> {
    match t
    case Name(id) => [Atom(id)]
    case Paren(x) => [LParen] + Written(x) + [RParen]
    case Prefixed(op, x) => [UnarySign(op)] + Written(x)
    case Infixed(op, l, r) => Written(l) + [Sign(op)] + Written(r)
  }

  function Meant(t: Text): Expr {
    match t
    case Name(id) => Leaf(id)
    case Paren(x) => Meant(x)
    case Prefixed(op, x) => Unary(op, Meant(x))
    case Infixed(op, l, r) => Binary(op, Meant(l), Meant(r))
  }

  function LeftLevel(op: BinOp): nat {
    if RightAssociative(op) then Level(op) + 1 else Level(op)
  }

  // The right operand of '^' may also be a unary operator.
  function RightLevel(op: BinOp): nat {
    if op == OpPow then 11 else if RightAssociative(op) then Level(op) else Level(op) + 1
  }

  // The text may stand where the grammar asks for level n.
  predicate AtLevel(t: Text, n: nat) {
    match t
    case Name(id) => true
    case Paren(x) => AtLevel(x, 1)
    case Prefixed(op, x) => n <= 11 && AtLevel(x, 11)
    case Infixed(op, l, r) => n <= Level(op) && AtLevel(l, LeftLevel(op)) && AtLevel(r, RightLevel(op))
  }

  // --- Every text of the grammar is read as it is meant ---

  lemma SignIs(op: BinOp)
    ensures GetBinOp(Sign(op)) == Some(op)
  {
  }

  lemma UnarySignIs(op: UnOp)
    ensures GetUnOp(UnarySign(op)) == Some(op)
  {
  }

  // A limit lets through every operator from level n on.
  ghost predicate LetsIn(limit: int, n: nat) {
    forall op: BinOp :: Level(op) >= n ==> ParserGrammar.Left(op) > limit
  }

  // The next operator, if there is one, may have a left operand of level n.
  predicate MayFollow(n: nat, ts: seq<Token>) {
    match GetBinOp(Current(ts))
    case Some(op) => LeftLevel(op) <= n
    case None => true
  }

  lemma LimitTable(op: BinOp)
    ensures LetsIn(Right(op), RightLevel(op)) && LetsIn(UNARY_PRIORITY, 11) && LetsIn(0, 1)
  {
  }

  // What may follow an operator at its level ends its right operand.
  lemma FollowTable(op: BinOp, n: nat, ts: seq<Token>)
    requires n <= Level(op) && MayFollow(n, ts)
    ensures NextPriority(ts) <= Right(op) && MayFollow(RightLevel(op), ts)
  {
  }

  lemma UnaryFollow(n: nat, ts: seq<Token>)
    requires n <= 11 && MayFollow(n, ts)
    ensures NextPriority(ts) <= UNARY_PRIORITY && MayFollow(11, ts)
  {
  }

  lemma SignFollows(op: BinOp, ts: seq<Token>)
    ensures MayFollow(LeftLevel(op), [Sign(op)] + ts)
  {
    SignIs(op);
  }

  lemma {:induction false} ReadAsMeant(t: Text, n: nat, limit: int, ts: seq<Token>)
    requires AtLevel(t, n) && LetsIn(limit, n) && MayFollow(n, ts)
    ensures Subexpr(Written(t) + ts, limit) == Operators(Meant(t), ts, limit)
    decreases t
  {
    hide ParserGrammar.Subexpr, ParserGrammar.Operators, Level, ParserGrammar.Left, ParserGrammar.Right, Sign, UnarySign,
      MayFollow, LetsIn, GetBinOp, GetUnOp;
    match t
    case Name(id) => ReadsLeaf(id, ts, limit);
    case Paren(x) =>
      var rest := [RParen] + ts;
      LimitTable(OpOr);
      NothingFollows(rest);
      ReadAsMeant(x, 1, 0, rest);
      NoPriority(ts);
      StopsAt(Meant(x), rest, 0);
      ReadsParens(Meant(x), Written(x), ts, limit);
    case Prefixed(op, x) =>
      LimitTable(OpOr);
      UnaryFollow(n, ts);
      ReadAsMeant(x, 11, UNARY_PRIORITY, ts);
      StopsAt(Meant(x), ts, UNARY_PRIORITY);
      ReadsPrefix(op, Written(x), Meant(x), ts, limit);
    case Infixed(op, l, r) =>
      var tail := [Sign(op)] + (Written(r) + ts);
      SignFollows(op, Written(r) + ts);
      LetsInMore(limit, n, op);
      ReadAsMeant(l, LeftLevel(op), limit, tail);
      LimitTable(op);
      FollowTable(op, n, ts);
      ReadAsMeant(r, RightLevel(op), Right(op), ts);
      StopsAt(Meant(r), ts, Right(op));
      ReadsInfix(op, Meant(l), Written(r), Meant(r), ts, limit);
      assert Written(t) + ts == Written(l) + tail;
  }

  lemma NothingFollows(ts: seq<Token>)
    requires Current(ts) == RParen || Current(ts) == Eos
    ensures MayFollow(1, ts)
  {
  }

  lemma LetsInMore(limit: int, n: nat, op: BinOp)
    requires LetsIn(limit, n) && n <= Level(op)
    ensures LetsIn(limit, LeftLevel(op)) && ParserGrammar.Left(op) > limit
  {
  }

  lemma ReadsPrefix(op: UnOp, text: seq<Token>, x: Expr, ts: seq<Token>, limit: int)
    requires Subexpr(text + ts, UNARY_PRIORITY) == Some(Parsed(x, ts))
    ensures Subexpr([UnarySign(op)] + text + ts, limit) == Operators(Unary(op, x), ts, limit)
  {
    hide UnarySign, GetUnOp, Operators;
    UnarySignIs(op);
    var all := [UnarySign(op)] + text + ts;
    assert all[1..] == text + ts;
    assert Operand(all) == Some(Parsed(Unary(op, x), ts));
  }

  lemma ReadsInfix(op: BinOp, l: Expr, text: seq<Token>, r: Expr, ts: seq<Token>, limit: int)
    requires ParserGrammar.Left(op) > limit && Subexpr(text + ts, Right(op)) == Some(Parsed(r, ts))
    ensures Operators(l, [Sign(op)] + (text + ts), limit) == Operators(Binary(op, l, r), ts, limit)
  {
    hide Sign, GetBinOp, ParserGrammar.Left, ParserGrammar.Right, Subexpr;
    SignIs(op);
    assert ([Sign(op)] + (text + ts))[1..] == text + ts;
  }

  // --- And whatever is read is a text of the grammar ---

  // The text t is what was read between 'ts' and 'rest', and what comes next may follow it.
  ghost predicate ReadText(ts: seq<Token>, t: Text, e: Expr, rest: seq<Token>, n: nat) {
    ts == Written(t) + rest && Meant(t) == e && AtLevel(t, n) && MayFollow(n, rest)
  }

  // Every operator above the limit is at level n or higher.
  ghost predicate KeepsOut(limit: int, n: nat) {
    n <= 11 && forall op: BinOp :: ParserGrammar.Left(op) > limit ==> Level(op) >= n
  }

  lemma OutTable(op: BinOp)
    ensures KeepsOut(Right(op), RightLevel(op)) && Right(op) >= 0 && KeepsOut(UNARY_PRIORITY, 11) && KeepsOut(0, 1)
  {
    hide ParserGrammar.Left, ParserGrammar.Right, Level, RightLevel;
    forall o: BinOp ensures ParserGrammar.Left(o) > Right(op) ==> Level(o) >= RightLevel(op) { OutAt(op, o); }
    forall o: BinOp ensures ParserGrammar.Left(o) > UNARY_PRIORITY ==> Level(o) >= 11 && Level(o) >= 1 { OutAt(op, o); }
    forall o: BinOp ensures Level(o) >= 1 { OutAt(op, o); }
    OutAt(op, op);
  }

  lemma OutAt(op: BinOp, o: BinOp)
    ensures ParserGrammar.Left(o) > Right(op) ==> Level(o) >= RightLevel(op)
    ensures (ParserGrammar.Left(o) > UNARY_PRIORITY ==> Level(o) >= 11) && Level(o) >= 1
    ensures Right(op) >= 0 && RightLevel(op) <= 11
  {
  }

  // Where reading stopped because of its limit.
  lemma StopTable(op: BinOp, ts: seq<Token>)
    ensures NextPriority(ts) <= Right(op) ==> MayFollow(Level(op), ts)
    ensures NextPriority(ts) <= UNARY_PRIORITY ==> MayFollow(11, ts)
    ensures MayFollow(13, ts)
  {
  }

  lemma TokenOf(t: Token)
    ensures GetBinOp(t).Some? ==> t == Sign(GetBinOp(t).value)
    ensures GetUnOp(t).Some? ==> t == UnarySign(GetUnOp(t).value)
  {
  }

  // The level of a text is at most that of its outermost operator.
  function Top(t: Text): nat {
    match t
    case Name(id) => 13
    case Paren(x) => 13
    case Prefixed(op, x) => 11
    case Infixed(op, l, r) => Level(op)
  }

  lemma AtTop(t: Text, n: nat, m: nat)
    requires AtLevel(t, n) && m <= Top(t)
    ensures AtLevel(t, m)
  {
  }

  lemma {:induction false} SubexprText(ts: seq<Token>, limit: int, n: nat) returns (t: Text)
    requires limit >= 0 && KeepsOut(limit, n) && Subexpr(ts, limit).Some?
    ensures var p := Subexpr(ts, limit).value;
            ts == Written(t) + p.rest && Meant(t) == p.e && AtLevel(t, n) && NextPriority(p.rest) <= limit
    decreases |ts|, 2
  {
    hide Level, ParserGrammar.Left, ParserGrammar.Right, GetBinOp, GetUnOp, KeepsOut, Operand, Operators;
    var p := Operand(ts).value;
    var t1 := OperandText(ts);
    AtTop(t1, 11, if n <= 11 then n else 11);
    KeepsOutIs(limit, n);
    t := OperatorsText(ts, t1, p.rest, limit, n);
  }

  lemma KeepsOutIs(limit: int, n: nat)
    requires KeepsOut(limit, n)
    ensures n <= 11
  {
  }

  lemma {:induction false} OperandText(ts: seq<Token>) returns (t: Text)
    requires Operand(ts).Some?
    ensures var p := Operand(ts).value;
            ReadText(ts, t, p.e, p.rest, Top(t)) && AtLevel(t, 11) && Top(t) >= 11
    decreases |ts|, 1
  {
    hide Level, ParserGrammar.Left, ParserGrammar.Right, GetBinOp, MayFollow, NextPriority, Subexpr;
    TokenOf(ts[0]);
    OutTable(OpOr);
    assert ts == [ts[0]] + ts[1..];
    match GetUnOp(ts[0])
    case Some(op) =>
      var p := Subexpr(ts[1..], UNARY_PRIORITY).value;
      var x := SubexprText(ts[1..], UNARY_PRIORITY, 11);
      StopTable(OpOr, p.rest);
      t := Prefixed(op, x);
      assert ts == Written(t) + p.rest;
    case None =>
      var rest := Operand(ts).value.rest;
      StopTable(OpOr, rest);
      if ts[0].Atom? {
        t := Name(ts[0].id);
      } else {
        var q := Subexpr(ts[1..], 0).value;
        var x := SubexprText(ts[1..], 0, 1);
        t := Paren(x);
        assert q.rest == [RParen] + q.rest[1..];
        assert ts == Written(t) + q.rest[1..];
      }
  }

  lemma {:induction false} OperatorsText(start: seq<Token>, t1: Text, ts: seq<Token>, limit: int, n: nat) returns (t: Text)
    requires limit >= 0 && KeepsOut(limit, n) && Operators(Meant(t1), ts, limit).Some?
    requires ReadText(start, t1, Meant(t1), ts, Top(t1)) && AtLevel(t1, n)
    ensures var p := Operators(Meant(t1), ts, limit).value;
            start == Written(t) + p.rest && Meant(t) == p.e && AtLevel(t, n) && NextPriority(p.rest) <= limit
    decreases |ts|, 0
  {
    hide Level, ParserGrammar.Left, ParserGrammar.Right, Subexpr, Sign, Written, RightLevel, RightAssociative, LeftLevel, AtLevel;
    var op := GetBinOp(Current(ts));
    if op.Some? && ParserGrammar.Left(op.value) > limit {
      var o := op.value;
      var r := Subexpr(ts[1..], Right(o)).value;
      OutTable(o);
      var tr := SubexprText(ts[1..], Right(o), RightLevel(o));
      StopTable(o, r.rest);
      TokenOf(ts[0]);
      AtTop(t1, Top(t1), LeftLevel(o));
      JoinText(start, t1, o, tr, ts, r.rest, n);
      t := OperatorsText(start, Infixed(o, t1, tr), r.rest, limit, n);
    } else {
      LimitStops(ts, limit);
      t := t1;
    }
  }

  lemma JoinText(start: seq<Token>, t1: Text, o: BinOp, tr: Text, ts: seq<Token>, rest: seq<Token>, n: nat)
    requires start == Written(t1) + ts && ts != [] && ts[0] == Sign(o) && ts[1..] == Written(tr) + rest
    requires AtLevel(t1, LeftLevel(o)) && AtLevel(tr, RightLevel(o)) && n <= Level(o)
    ensures start == Written(Infixed(o, t1, tr)) + rest
    ensures AtLevel(Infixed(o, t1, tr), n) && AtLevel(Infixed(o, t1, tr), Level(o))
  {
    hide Level, Sign, LeftLevel, RightLevel;
    assert ts == [Sign(o)] + (Written(tr) + rest);
    assert Written(t1) + ([Sign(o)] + (Written(tr) + rest)) == Written(t1) + [Sign(o)] + Written(tr) + rest;
  }

  lemma LimitStops(ts: seq<Token>, limit: int)
    requires GetBinOp(Current(ts)).Some? ==> ParserGrammar.Left(GetBinOp(Current(ts)).value) <= limit
    requires limit >= 0
    ensures NextPriority(ts) <= limit
  {
  }

  // The parser accepts exactly the texts of the layered grammar, and reads what they mean.
  lemma ReadsExactly(ts: seq<Token>, e: Expr)
    ensures Subexpr(ts, 0) == Some(Parsed(e, []))
       <==> exists t :: AtLevel(t, 1) && Written(t) == ts && Meant(t) == e
  {
    hide Subexpr, Operators, Written, Meant, AtLevel, MayFollow, LetsIn, KeepsOut;
    LimitTable(OpOr);
    OutTable(OpOr);
    if t :| AtLevel(t, 1) && Written(t) == ts && Meant(t) == e {
      NothingFollows([]);
      ReadAsMeant(t, 1, 0, []);
      assert Written(t) + [] == ts;
      StopsAt(e, [], 0);
    }
    if Subexpr(ts, 0) == Some(Parsed(e, [])) {
      var t := SubexprText(ts, 0, 1);
      assert Written(t) + [] == Written(t);
    }
  }

  // --- Two operators in a row ---

  lemma ReadsText(t: Text, ts: seq<Token>, e: Expr)
    requires AtLevel(t, 1) && Written(t) == ts && Meant(t) == e
    ensures Subexpr(ts, 0) == Some(Parsed(e, []))
  {
    hide Subexpr;
    ReadsExactly(ts, e);
  }

  lemma InfixText(op: BinOp, l: Text, r: Text)
    ensures Written(Infixed(op, l, r)) == Written(l) + [Sign(op)] + Written(r)
    ensures Meant(Infixed(op, l, r)) == Binary(op, Meant(l), Meant(r))
    ensures forall n: nat :: AtLevel(Infixed(op, l, r), n)
                        <==> n <= Level(op) && AtLevel(l, LeftLevel(op)) && AtLevel(r, RightLevel(op))
  {
  }

  lemma PrefixText(op: UnOp, x: Text)
    ensures Written(Prefixed(op, x)) == [UnarySign(op)] + Written(x) && Meant(Prefixed(op, x)) == Unary(op, Meant(x))
    ensures forall n: nat :: AtLevel(Prefixed(op, x), n) <==> n <= 11 && AtLevel(x, 11)
  {
  }

  lemma NameText(id: int)
    ensures Written(Name(id)) == [Atom(id)] && Meant(Name(id)) == Leaf(id) && forall n: nat :: AtLevel(Name(id), n)
  {
  }

  // 'a op1 b op2 c' is '(a op1 b) op2 c' exactly when op1 is on a higher level, or on the same one
  // and neither '^' nor '..'; else it is 'a op1 (b op2 c)'.
  lemma TwoOperators(op1: BinOp, op2: BinOp, a: int, b: int, c: int)
    ensures var left := Level(op1) > Level(op2) || (Level(op1) == Level(op2) && op1 != OpPow && op1 != OpConcat);
            Subexpr([Atom(a), Sign(op1), Atom(b), Sign(op2), Atom(c)], 0)
            == Some(Parsed(if left then Binary(op2, Binary(op1, Leaf(a), Leaf(b)), Leaf(c))
                           else Binary(op1, Leaf(a), Binary(op2, Leaf(b), Leaf(c))), []))
  {
    hide Subexpr, Written, Meant, Sign;
    var ts := [Atom(a), Sign(op1), Atom(b), Sign(op2), Atom(c)];
    NameText(a);
    NameText(b);
    NameText(c);
    if Level(op1) > Level(op2) || (Level(op1) == Level(op2) && op1 != OpPow && op1 != OpConcat) {
      var l := Infixed(op1, Name(a), Name(b));
      InfixText(op1, Name(a), Name(b));
      InfixText(op2, l, Name(c));
      assert Written(l) + [Sign(op2)] + [Atom(c)] == ts;
      ReadsText(Infixed(op2, l, Name(c)), ts, Binary(op2, Binary(op1, Leaf(a), Leaf(b)), Leaf(c)));
    } else {
      var r := Infixed(op2, Name(b), Name(c));
      InfixText(op2, Name(b), Name(c));
      InfixText(op1, Name(a), r);
      assert [Atom(a)] + [Sign(op1)] + Written(r) == ts;
      ReadsText(Infixed(op1, Name(a), r), ts, Binary(op1, Leaf(a), Binary(op2, Leaf(b), Leaf(c))));
    }
  }

  // A unary operator takes what stands before every binary operator, but for '^', and may stand
  // after any of them.
  lemma UnaryAndBinary(u: UnOp, op: BinOp, a: int, b: int)
    ensures Subexpr([UnarySign(u), Atom(a), Sign(op), Atom(b)], 0)
         == Some(Parsed(if op == OpPow then Unary(u, Binary(op, Leaf(a), Leaf(b)))
                        else Binary(op, Unary(u, Leaf(a)), Leaf(b)), []))
    ensures Subexpr([Atom(a), Sign(op), UnarySign(u), Atom(b)], 0)
         == Some(Parsed(Binary(op, Leaf(a), Unary(u, Leaf(b))), []))
  {
    hide Subexpr, Written, Meant, Sign, UnarySign;
    NameText(a);
    NameText(b);
    var ts := [UnarySign(u), Atom(a), Sign(op), Atom(b)];
    if op == OpPow {
      InfixText(op, Name(a), Name(b));
      PrefixText(u, Infixed(op, Name(a), Name(b)));
      assert [UnarySign(u)] + ([Atom(a)] + [Sign(op)] + [Atom(b)]) == ts;
      ReadsText(Prefixed(u, Infixed(op, Name(a), Name(b))), ts, Unary(u, Binary(op, Leaf(a), Leaf(b))));
    } else {
      PrefixText(u, Name(a));
      InfixText(op, Prefixed(u, Name(a)), Name(b));
      assert [UnarySign(u)] + [Atom(a)] + [Sign(op)] + [Atom(b)] == ts;
      ReadsText(Infixed(op, Prefixed(u, Name(a)), Name(b)), ts, Binary(op, Unary(u, Leaf(a)), Leaf(b)));
    }
    var ts2 := [Atom(a), Sign(op), UnarySign(u), Atom(b)];
    PrefixText(u, Name(b));
    InfixText(op, Name(a), Prefixed(u, Name(b)));
    assert [Atom(a)] + [Sign(op)] + ([UnarySign(u)] + [Atom(b)]) == ts2;
    ReadsText(Infixed(op, Name(a), Prefixed(u, Name(b))), ts2, Binary(op, Leaf(a), Unary(u, Leaf(b))));
  }
}
