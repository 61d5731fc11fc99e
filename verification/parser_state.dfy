// The recursive parser of expressions, on the state of the lexer.
module ParserState {
  import opened Common
  import opened ParserGrammar

  class LexState {
    const tokens: seq<Token>
    var pos: nat

    constructor (tokens: seq<Token>)
      ensures this.tokens == tokens && pos == 0
    {
      this.tokens := tokens;
      pos := 0;
    }

    // The tokens that have not been read.
    ghost function Left(): seq<Token>
      requires pos <= |tokens|
      reads this`pos
    {
      tokens[pos..]
    }

    function Look(): (t: Token)
      requires pos <= |tokens|
      reads this`pos
      ensures t == Current(Left())
    {
      if pos < |tokens| then tokens[pos] else Eos
    }

    method Skip()
      requires pos < |tokens|
      modifies this`pos
      ensures pos == old(pos) + 1 && Left() == old(Left())[1..]
    {
      pos := pos + 1;
    }

    // A simple expression, or one in parentheses.
    method SimpleExp() returns (v: Option<Expr>)
      requires pos <= |tokens| && GetUnOp(Current(Left())) == None
      modifies this`pos
      ensures old(pos) <= pos <= |tokens| && (v.Some? ==> old(pos) < pos)
      ensures match Operand(old(Left())) case None => v == None case Some(p) => v == Some(p.e) && Left() == p.rest
      decreases |tokens| - pos, 1
    {
      v := None;
      var t := Look();
      match t {
        case Atom(id) =>
          Skip();
          v := Some(Leaf(id));
        case LParen =>
          Skip();
          var inner, op := Subexpr(0);
          if inner.Some? && Look() == RParen {
            Skip();
            v := inner;
          }
        case _ =>
      }
    }

    // What the operators of subexpr are applied to: a unary operator and its operand, or a simple
    // expression.
    method FirstOperand() returns (res: Option<Expr>)
      requires pos <= |tokens|
      modifies this`pos
      ensures old(pos) <= pos <= |tokens| && (res.Some? ==> old(pos) < pos)
      ensures match Operand(old(Left())) case None => res == None case Some(p) => res == Some(p.e) && Left() == p.rest
      decreases |tokens| - pos, 2
    {
      hide Operators;
      var uop := GetUnOp(Look());
      if uop == None {
        res := SimpleExp();
        return;
      }
      Skip();
      var x, next := Subexpr(UNARY_PRIORITY);
      res := if x == None then None else Some(Unary(uop.value, x.value));
    }

    // Reads an operand and the operators above 'limit' that follow it, and
    // returns the first operator it leaves.
    method Subexpr(limit: int) returns (res: Option<Expr>, op: Option<BinOp>)
      requires pos <= |tokens|
      modifies this`pos
      ensures old(pos) <= pos <= |tokens| && (res.Some? ==> old(pos) < pos)
      ensures match ParserGrammar.Subexpr(old(Left()), limit)
              case None => res == None
              case Some(p) => res == Some(p.e) && Left() == p.rest && op == GetBinOp(Current(p.rest))
      decreases |tokens| - pos, 3
    {
      hide GetBinOp, Operand, ParserGrammar.Left, ParserGrammar.Right;
      ghost var start := Left();
      NothingAtEnd();
      op := None;
      res := FirstOperand();
      if res == None {
        return;
      }
      op := GetBinOp(Look());
      while op.Some? && ParserGrammar.Left(op.value) > limit
        invariant old(pos) < pos <= |tokens| && res.Some? && op == GetBinOp(Current(Left()))
        invariant ParserGrammar.Subexpr(start, limit) == Operators(res.value, Left(), limit)
        decreases |tokens| - pos
      {
        Skip();
        var right, next := Subexpr(Right(op.value));
        if right == None {
          return None, None;
        }
        res := Some(Binary(op.value, res.value, right.value));
        op := next;
      }
    }
  }

  lemma NothingAtEnd()
    ensures GetBinOp(Eos) == None
  {
  }
}
