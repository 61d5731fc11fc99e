// Expressions, the tokens they are written with, and a printer that writes
// parentheses only where priorities ask for them.
module ParserGrammar {
  import opened Common

  datatype UnOp = OpMinus | OpBNot | OpNot | OpLen

  datatype BinOp =
    | OpAdd | OpSub | OpMul | OpMod | OpPow | OpDiv | OpIDiv
    | OpBAnd | OpBOr | OpBXor | OpShl | OpShr | OpConcat
    | OpEq | OpLt | OpLe | OpNe | OpGt | OpGe | OpAnd | OpOr

  // An Atom stands for every simple expression that is not in parentheses.
  datatype Token =
    | Atom(id: int) | LParen | RParen
    | TkNot | TkMinus | TkTilde | TkHash
    | TkPlus | TkStar | TkPercent | TkCaret | TkSlash | TkIDiv
    | TkAmp | TkBar | TkShl | TkShr | TkConcat
    | TkEq | TkLt | TkLe | TkNe | TkGt | TkGe | TkAnd | TkOr
    | Eos | Unexpected(id: int)

  datatype Expr = Leaf(id: int) | Unary(op: UnOp, e: Expr) | Binary(bop: BinOp, left: Expr, right: Expr)

  function GetUnOp(t: Token): Option<UnOp> {
    match t
    case TkNot => Some(OpNot)
    case TkMinus => Some(OpMinus)
    case TkTilde => Some(OpBNot)
    case TkHash => Some(OpLen)
    case _ => None
  }

  function GetBinOp(t: Token): Option<BinOp> {
    match t
    case TkPlus => Some(OpAdd)
    case TkMinus => Some(OpSub)
    case TkStar => Some(OpMul)
    case TkPercent => Some(OpMod)
    case TkCaret => Some(OpPow)
    case TkSlash => Some(OpDiv)
    case TkIDiv => Some(OpIDiv)
    case TkAmp => Some(OpBAnd)
    case TkBar => Some(OpBOr)
    case TkTilde => Some(OpBXor)
    case TkShl => Some(OpShl)
    case TkShr => Some(OpShr)
    case TkConcat => Some(OpConcat)
    case TkNe => Some(OpNe)
    case TkEq => Some(OpEq)
    case TkLt => Some(OpLt)
    case TkLe => Some(OpLe)
    case TkGt => Some(OpGt)
    case TkGe => Some(OpGe)
    case TkAnd => Some(OpAnd)
    case TkOr => Some(OpOr)
    case _ => None
  }

  function UnToken(op: UnOp): (t: Token)
    ensures GetUnOp(t) == Some(op)
  {
    match op
    case OpMinus => TkMinus
    case OpBNot => TkTilde
    case OpNot => TkNot
    case OpLen => TkHash
  }

  function BinToken(op: BinOp): (t: Token)
    ensures GetBinOp(t) == Some(op)
  {
    match op
    case OpAdd => TkPlus
    case OpSub => TkMinus
    case OpMul => TkStar
    case OpMod => TkPercent
    case OpPow => TkCaret
    case OpDiv => TkSlash
    case OpIDiv => TkIDiv
    case OpBAnd => TkAmp
    case OpBOr => TkBar
    case OpBXor => TkTilde
    case OpShl => TkShl
    case OpShr => TkShr
    case OpConcat => TkConcat
    case OpEq => TkEq
    case OpLt => TkLt
    case OpLe => TkLe
    case OpNe => TkNe
    case OpGt => TkGt
    case OpGe => TkGe
    case OpAnd => TkAnd
    case OpOr => TkOr
  }

  // --- Priorities ---

  const UNARY_PRIORITY: int := 12

  function Left(op: BinOp): int {
    match op
    case OpPow => 14
    case OpMul => 11 case OpMod => 11 case OpDiv => 11 case OpIDiv => 11
    case OpAdd => 10 case OpSub => 10
    case OpConcat => 9
    case OpShl => 7 case OpShr => 7
    case OpBAnd => 6
    case OpBXor => 5
    case OpBOr => 4
    case OpEq => 3 case OpLt => 3 case OpLe => 3 case OpNe => 3 case OpGt => 3 case OpGe => 3
    case OpAnd => 2
    case OpOr => 1
  }

  // Lower than the left priority for the operators that are right associative.
  function Right(op: BinOp): int {
    match op
    case OpPow => 13
    case OpConcat => 8
    case _ => Left(op)
  }

  // --- The parser, as a function of the tokens that are left ---

  datatype Parsed = Parsed(e: Expr, rest: seq<Token>)

  function Current(ts: seq<Token>): Token {
    if ts == [] then Eos else ts[0]
  }

  // subexpr: an operand and the operators above 'limit' that follow it.
  function Subexpr(ts: seq<Token>, limit: int): (r: Option<Parsed>)
    ensures r.Some? ==> |r.value.rest| < |ts|
    decreases |ts|, 2
  {
    match Operand(ts)
    case None => None
    case Some(p) => Operators(p.e, p.rest, limit)
  }

  function Operand(ts: seq<Token>): (r: Option<Parsed>)
    ensures r.Some? ==> |r.value.rest| < |ts|
    decreases |ts|, 1
  {
    if ts == [] then None
    else
      match GetUnOp(ts[0])
      case Some(op) =>
        (match Subexpr(ts[1..], UNARY_PRIORITY)
         case None => None
         case Some(p) => Some(Parsed(Unary(op, p.e), p.rest)))
      case None =>
        match ts[0]
        case Atom(id) => Some(Parsed(Leaf(id), ts[1..]))
        case LParen =>
          (match Subexpr(ts[1..], 0)
           case None => None
           case Some(p) => if Current(p.rest) == RParen then Some(Parsed(p.e, p.rest[1..])) else None)
        case _ => None
  }

  function Operators(v: Expr, ts: seq<Token>, limit: int): (r: Option<Parsed>)
    ensures r.Some? ==> |r.value.rest| <= |ts|
    decreases |ts|, 0
  {
    var op := GetBinOp(Current(ts));
    if op.Some? && Left(op.value) > limit then
      match Subexpr(ts[1..], Right(op.value))
      case None => None
      case Some(p) => Operators(Binary(op.value, v, p.e), p.rest, limit)
    else Some(Parsed(v, ts))
  }

  // --- The printer ---

  // Whether an operator node must be in parentheses when the parser reads it
  // with 'limit', and the operator after it has left priority 'follow', 0 for
  // none.
  predicate NeedsParens(e: Expr, limit: int, follow: int) {
    match e
    case Leaf(id) => false
    case Unary(op, x) => follow > UNARY_PRIORITY
    case Binary(op, l, r) => Left(op) <= limit || follow > Right(op)
  }

  function Print(e: Expr, limit: int, follow: int): seq<Token>
    decreases e, 1
  {
    if NeedsParens(e, limit, follow) then [LParen] + PrintBare(e, 0, 0) + [RParen] else PrintBare(e, limit, follow)
  }

  function PrintBare(e: Expr, limit: int, follow: int): seq<Token>
    decreases e, 0
  {
    match e
    case Leaf(id) => [Atom(id)]
    case Unary(op, x) => [UnToken(op)] + Print(x, UNARY_PRIORITY, follow)
    case Binary(op, l, r) => Print(l, limit, Left(op)) + [BinToken(op)] + Print(r, Right(op), follow)
  }

  // The left priority of the operator that comes next, or 0.
  function NextPriority(ts: seq<Token>): int {
    match GetBinOp(Current(ts))
    case Some(op) => Left(op)
    case None => 0
  }

  // --- The parser undoes the printer ---

  lemma StopsAt(v: Expr, ts: seq<Token>, limit: int)
    requires NextPriority(ts) <= limit
    ensures Operators(v, ts, limit) == Some(Parsed(v, ts))
  {
  }

  // What follows a printed expression is read as what follows the expression.
  lemma {:induction false} ParsesPrinted(e: Expr, limit: int, follow: int, ts: seq<Token>)
    requires limit >= 0 && follow >= 0 && NextPriority(ts) <= follow
    ensures Subexpr(Print(e, limit, follow) + ts, limit) == Operators(e, ts, limit)
    decreases e, 1
  {
    hide PrintBare, Subexpr, Operators, GetBinOp;
    if NeedsParens(e, limit, follow) {
      var rest := [RParen] + ts;
      BareAtFirst(e);
      NoPriority(ts);
      ParsesBare(e, 0, 0, rest);
      StopsAt(e, rest, 0);
      ReadsParens(e, PrintBare(e, 0, 0), ts, limit);
    } else {
      ParsesBare(e, limit, follow, ts);
    }
  }

  lemma {:induction false} ParsesBare(e: Expr, limit: int, follow: int, ts: seq<Token>)
    requires limit >= 0 && follow >= 0 && NextPriority(ts) <= follow && !NeedsParens(e, limit, follow)
    ensures Subexpr(PrintBare(e, limit, follow) + ts, limit) == Operators(e, ts, limit)
    decreases e, 0
  {
    hide Print, BinToken, UnToken, GetBinOp, Left, Right, Subexpr, Operators;
    match e
    case Leaf(id) => ReadsLeaf(id, ts, limit);
    case Unary(op, x) =>
      ParsesPrinted(x, UNARY_PRIORITY, follow, ts);
      ReadsUnary(op, x, limit, follow, ts);
    case Binary(op, l, r) =>
      var tail := [BinToken(op)] + (Print(r, Right(op), follow) + ts);
      TokenPriority(op, Print(r, Right(op), follow) + ts);
      ParsesPrinted(l, limit, Left(op), tail);
      ParsesPrinted(r, Right(op), follow, ts);
      assert PrintBare(e, limit, follow) + ts == Print(l, limit, Left(op)) + tail;
      ReadsOperator(op, l, r, limit, follow, ts, tail);
  }

  lemma BareAtFirst(e: Expr)
    ensures !NeedsParens(e, 0, 0)
  {
  }

  lemma NoPriority(ts: seq<Token>)
    ensures NextPriority([RParen] + ts) == 0
  {
  }

  lemma ReadsParens(e: Expr, inner: seq<Token>, ts: seq<Token>, limit: int)
    requires Subexpr(inner + ([RParen] + ts), 0) == Some(Parsed(e, [RParen] + ts))
    ensures Subexpr([LParen] + inner + [RParen] + ts, limit) == Operators(e, ts, limit)
  {
    hide Operators, GetBinOp;
    var all := [LParen] + inner + [RParen] + ts;
    assert all[1..] == inner + ([RParen] + ts);
    assert ([RParen] + ts)[1..] == ts;
    assert Operand(all) == Some(Parsed(e, ts));
  }

  lemma TokenPriority(op: BinOp, rest: seq<Token>)
    ensures NextPriority([BinToken(op)] + rest) == Left(op) >= 0
  {
  }

  lemma ReadsLeaf(id: int, ts: seq<Token>, limit: int)
    ensures Subexpr([Atom(id)] + ts, limit) == Operators(Leaf(id), ts, limit)
  {
    assert ([Atom(id)] + ts)[1..] == ts;
  }

  lemma ReadsUnary(op: UnOp, x: Expr, limit: int, follow: int, ts: seq<Token>)
    requires NextPriority(ts) <= follow <= UNARY_PRIORITY
    requires Subexpr(Print(x, UNARY_PRIORITY, follow) + ts, UNARY_PRIORITY) == Operators(x, ts, UNARY_PRIORITY)
    ensures Subexpr([UnToken(op)] + Print(x, UNARY_PRIORITY, follow) + ts, limit) == Operators(Unary(op, x), ts, limit)
  {
    hide UnToken, GetUnOp, Print, Operators;
    var all := [UnToken(op)] + Print(x, UNARY_PRIORITY, follow) + ts;
    StopsAt(x, ts, UNARY_PRIORITY);
    assert all[1..] == Print(x, UNARY_PRIORITY, follow) + ts;
    assert Operand(all) == Some(Parsed(Unary(op, x), ts));
  }

  // An operator above the limit, and a right operand that nothing after it
  // gets hold of.
  lemma ReadsOperator(op: BinOp, l: Expr, r: Expr, limit: int, follow: int, ts: seq<Token>, tail: seq<Token>)
    requires tail == [BinToken(op)] + (Print(r, Right(op), follow) + ts) && Left(op) > limit
    requires NextPriority(ts) <= follow <= Right(op)
    requires Subexpr(Print(r, Right(op), follow) + ts, Right(op)) == Operators(r, ts, Right(op))
    ensures Operators(l, tail, limit) == Operators(Binary(op, l, r), ts, limit)
  {
    hide BinToken, GetBinOp, Left, Right, Print, Subexpr;
    StopsAt(r, ts, Right(op));
    assert tail[1..] == Print(r, Right(op), follow) + ts;
  }

  // The whole text of an expression parses to that expression.
  lemma ParseUndoesPrint(e: Expr)
    ensures Subexpr(Print(e, 0, 0), 0) == Some(Parsed(e, []))
  {
    ParsesPrinted(e, 0, 0, []);
    assert Print(e, 0, 0) + [] == Print(e, 0, 0);
    StopsAt(e, [], 0);
  }

  // --- And the printer writes as few parentheses as can be ---

  function Parens(ts: seq<Token>): nat {
    if ts == [] then 0 else (if ts[0] == LParen then 1 else 0) + Parens(ts[1..])
  }

  lemma {:induction false} ParensJoin(a: seq<Token>, b: seq<Token>)
    ensures Parens(a + b) == Parens(a) + Parens(b)
    decreases |a|
  {
    if a == [] {
      assert a + b == b;
    } else {
      ParensJoin(a[1..], b);
      assert (a + b)[1..] == a[1..] + b;
    }
  }

  lemma OneParen(t: Token)
    ensures Parens([t]) == if t == LParen then 1 else 0
  {
    assert [t][1..] == [];
  }

  function Cost(e: Expr, limit: int, follow: int): nat {
    Parens(Print(e, limit, follow))
  }

  // The cost of a node without parentheses is that of its operands.
  lemma BareCost(e: Expr, limit: int, follow: int)
    requires !NeedsParens(e, limit, follow)
    ensures match e
            case Leaf(id) => Cost(e, limit, follow) == 0
            case Unary(op, x) => Cost(e, limit, follow) == Cost(x, UNARY_PRIORITY, follow)
            case Binary(op, l, r) => Cost(e, limit, follow) == Cost(l, limit, Left(op)) + Cost(r, Right(op), follow)
  {
    assert Print(e, limit, follow) == PrintBare(e, limit, follow);
    match e
    case Leaf(id) =>
      assert PrintBare(e, limit, follow) == [Atom(id)];
      OneParen(Atom(id));
    case Unary(op, x) =>
      assert PrintBare(e, limit, follow) == [UnToken(op)] + Print(x, UNARY_PRIORITY, follow);
      OneParen(UnToken(op));
      ParensJoin([UnToken(op)], Print(x, UNARY_PRIORITY, follow));
    case Binary(op, l, r) =>
      assert PrintBare(e, limit, follow) == Print(l, limit, Left(op)) + [BinToken(op)] + Print(r, Right(op), follow);
      OneParen(BinToken(op));
      ParensJoin(Print(l, limit, Left(op)) + [BinToken(op)], Print(r, Right(op), follow));
      ParensJoin(Print(l, limit, Left(op)), [BinToken(op)]);
  }

  lemma ParensCost(e: Expr, limit: int, follow: int)
    requires NeedsParens(e, limit, follow)
    ensures Cost(e, limit, follow) == 1 + Cost(e, 0, 0)
  {
    var inner := PrintBare(e, 0, 0);
    ParensJoin([LParen] + inner, [RParen]);
    ParensJoin([LParen], inner);
    assert !NeedsParens(e, 0, 0);
  }

  predicate IsPriority(n: int) {
    n == 0 || (exists op: BinOp :: Left(op) == n)
  }

  lemma PriorityTable(op: BinOp, follow: int)
    requires IsPriority(follow) && follow <= Right(op)
    ensures 0 < Right(op) <= Left(op) <= Right(op) + 1 && follow <= UNARY_PRIORITY
  {
  }

  // Where a node needs no parentheses, its context makes no difference.
  lemma {:induction false} SameCost(e: Expr, limit: int, follow: int)
    requires limit >= 0 && IsPriority(follow) && !NeedsParens(e, limit, follow)
    ensures Cost(e, limit, follow) == Cost(e, 0, 0)
    decreases e
  {
    BareCost(e, limit, follow);
    assert !NeedsParens(e, 0, 0);
    BareCost(e, 0, 0);
    match e
    case Leaf(id) =>
    case Unary(op, x) => SameRight(x, UNARY_PRIORITY, follow);
    case Binary(op, l, r) =>
      PriorityTable(op, follow);
      SameLeft(l, limit, Left(op));
      SameRight(r, Right(op), follow);
  }

  // The left operand of an operator above 'limit'.
  lemma {:induction false} SameLeft(l: Expr, limit: int, follow: int)
    requires 0 <= limit < follow && IsPriority(follow)
    ensures Cost(l, limit, follow) == Cost(l, 0, follow)
    decreases l, 1
  {
    if NeedsParens(l, 0, follow) {
      assert NeedsParens(l, limit, follow);
      ParensCost(l, limit, follow);
      ParensCost(l, 0, follow);
    } else {
      assert !NeedsParens(l, limit, follow) by {
        if l.Binary? { PriorityTable(l.bop, 0); }
      }
      BareCost(l, limit, follow);
      BareCost(l, 0, follow);
      if l.Binary? {
        PriorityTable(l.bop, 0);
        SameLeft(l.left, limit, Left(l.bop));
      }
    }
  }

  // The right operand of an operator that the one after it does not bind.
  lemma {:induction false} SameRight(r: Expr, limit: int, follow: int)
    requires 0 <= follow <= limit && follow <= UNARY_PRIORITY && IsPriority(follow)
    ensures Cost(r, limit, follow) == Cost(r, limit, 0)
    decreases r, 1
  {
    if NeedsParens(r, limit, 0) {
      ParensCost(r, limit, 0);
      assert NeedsParens(r, limit, follow);
      ParensCost(r, limit, follow);
    } else {
      if r.Binary? { PriorityTable(r.bop, 0); }
      assert !NeedsParens(r, limit, follow);
      BareCost(r, limit, follow);
      BareCost(r, limit, 0);
      match r
      case Leaf(id) =>
      case Unary(op, x) => SameRight(x, UNARY_PRIORITY, follow);
      case Binary(op, a, b) => SameRight(b, Right(op), follow);
    }
  }

  lemma CostBound(e: Expr, limit: int, follow: int)
    requires limit >= 0 && IsPriority(follow)
    ensures Cost(e, limit, follow) <= 1 + Cost(e, 0, 0)
  {
    if NeedsParens(e, limit, follow) { ParensCost(e, limit, follow); } else { SameCost(e, limit, follow); }
  }

  lemma NextIsPriority(ts: seq<Token>)
    ensures IsPriority(NextPriority(ts)) && NextPriority(ts) >= 0
  {
  }

  // The tokens that were read on the way from 'ts' to 'rest'.
  ghost predicate Reads(ts: seq<Token>, rest: seq<Token>) {
    |rest| <= |ts| && ts[|ts| - |rest|..] == rest
  }

  function Used(ts: seq<Token>, rest: seq<Token>): seq<Token>
    requires |rest| <= |ts|
  {
    ts[..|ts| - |rest|]
  }

  lemma ReadsOn(ts: seq<Token>, mid: seq<Token>, rest: seq<Token>)
    requires Reads(ts, mid) && Reads(mid, rest)
    ensures Reads(ts, rest) && Parens(Used(ts, rest)) == Parens(Used(ts, mid)) + Parens(Used(mid, rest))
  {
    assert ts == Used(ts, mid) + mid && mid == Used(mid, rest) + rest;
    assert Used(ts, rest) == Used(ts, mid) + Used(mid, rest);
    ParensJoin(Used(ts, mid), Used(mid, rest));
  }

  lemma ReadsOne(ts: seq<Token>)
    requires ts != []
    ensures Reads(ts, ts[1..]) && Parens(Used(ts, ts[1..])) == if ts[0] == LParen then 1 else 0
  {
    assert Used(ts, ts[1..]) == [ts[0]];
  }

  // Whatever text an expression was read from has at least as many
  // parentheses as the printer writes.
  lemma {:induction false} SubexprCost(ts: seq<Token>, limit: int)
    requires limit >= 0 && Subexpr(ts, limit).Some?
    ensures var p := Subexpr(ts, limit).value;
            Reads(ts, p.rest) && NextPriority(p.rest) <= limit
            && Parens(Used(ts, p.rest)) >= Cost(p.e, limit, NextPriority(p.rest))
    decreases |ts|, 2
  {
    OperandCost(ts, limit);
    var p := Operand(ts).value;
    OperatorsCost(ts, p.e, p.rest, limit);
  }

  lemma {:induction false} OperandCost(ts: seq<Token>, limit: int)
    requires limit >= 0 && Operand(ts).Some?
    ensures var p := Operand(ts).value;
            Reads(ts, p.rest) && Parens(Used(ts, p.rest)) >= Cost(p.e, limit, NextPriority(p.rest))
    decreases |ts|, 1
  {
    hide Reads, Right, IsPriority, Left, Used, Subexpr;
    var p := Operand(ts).value;
    ReadsOne(ts);
    match GetUnOp(ts[0])
    case Some(op) =>
      SubexprCost(ts[1..], UNARY_PRIORITY);
      ReadsOn(ts, ts[1..], p.rest);
      BareCost(p.e, limit, NextPriority(p.rest));
    case None =>
      if ts[0].Atom? {
        BareCost(p.e, limit, NextPriority(p.rest));
      } else {
        SubexprCost(ts[1..], 0);
        var q := Subexpr(ts[1..], 0).value;
        ReadsOn(ts, ts[1..], q.rest);
        ReadsOne(q.rest);
        ReadsOn(ts, q.rest, p.rest);
        NextIsPriority(p.rest);
        CostBound(p.e, limit, NextPriority(p.rest));
      }
  }

  lemma {:induction false} OperatorsCost(start: seq<Token>, v: Expr, ts: seq<Token>, limit: int)
    requires limit >= 0 && Operators(v, ts, limit).Some?
    requires Reads(start, ts) && Parens(Used(start, ts)) >= Cost(v, limit, NextPriority(ts))
    ensures var p := Operators(v, ts, limit).value;
            Reads(start, p.rest) && NextPriority(p.rest) <= limit
            && Parens(Used(start, p.rest)) >= Cost(p.e, limit, NextPriority(p.rest))
    decreases |ts|, 0
  {
    var op := GetBinOp(Current(ts));
    if op.Some? && Left(op.value) > limit {
      var r := Subexpr(ts[1..], Right(op.value)).value;
      PriorityTable(op.value, 0);
      SubexprCost(ts[1..], Right(op.value));
      ReadsOne(ts);
      ReadsOn(ts, ts[1..], r.rest);
      ReadsOn(start, ts, r.rest);
      var e := Binary(op.value, v, r.e);
      BareCost(e, limit, NextPriority(r.rest));
      OperatorsCost(start, e, r.rest, limit);
    } else {
      NextIsPriority(ts);
    }
  }

  lemma FewestParens(e: Expr, text: seq<Token>)
    requires Subexpr(text, 0) == Some(Parsed(e, []))
    ensures Parens(Print(e, 0, 0)) <= Parens(text)
  {
    SubexprCost(text, 0);
    assert Used(text, []) == text;
  }
}
