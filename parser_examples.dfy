/**
  Expressions whose trees under the parser of chapter-10/glox/lox/parser.go
  show its precedence and associativity, derived from the round trip of
  module Unparse, and two inputs it refuses or reports.
*/
module ParserExamples {
  import opened Wrappers
  import opened Values
  import opened Tokens
  import opened Ast
  import opened Grammar
  import opened Unparse

  const a := Token(Identifier, "a", Nil, 1)
  const b := Token(Identifier, "b", Nil, 1)
  const c := Token(Identifier, "c", Nil, 1)
  const minus := Token(Minus, "-", Nil, 1)
  const plus := Token(Plus, "+", Nil, 1)
  const star := Token(Star, "*", Nil, 1)
  const orToken := Token(OrKeyword, "or", Nil, 1)
  const andToken := Token(AndKeyword, "and", Nil, 1)
  const bang := Token(Bang, "!", Nil, 1)
  const semicolon := Token(Semicolon, ";", Nil, 1)
  const rightParen := Token(RightParen, ")", Nil, 1)
  const eof := Token(Eof, "", Nil, 1)

  /** `a - b - c` folds to the left: `(a - b) - c`. */
  lemma LeftFold()
    ensures PExpression([a, minus, b, minus, c, EndOfFile], 0)
      == Step(Done(Binary(Binary(Variable(a), minus, Variable(b)), minus, Variable(c))), 5, [])
  {
    var e := Binary(Binary(Variable(a), minus, Variable(b)), minus, Variable(c));
    assert Shaped(e);
    ParseUnparse(e);
    assert Unparse.Unparse(e) + [EndOfFile] == [a, minus, b, minus, c, EndOfFile];
  }

  /** `a + b * c`: factor binds more tightly than term. */
  lemma FactorFirst()
    ensures PExpression([a, plus, b, star, c, EndOfFile], 0)
      == Step(Done(Binary(Variable(a), plus, Binary(Variable(b), star, Variable(c)))), 5, [])
  {
    var e := Binary(Variable(a), plus, Binary(Variable(b), star, Variable(c)));
    assert Shaped(e);
    ParseUnparse(e);
    assert Unparse.Unparse(e) + [EndOfFile] == [a, plus, b, star, c, EndOfFile];
  }

  /** `a or b and c`: `and` binds more tightly than `or`, and both build Logical nodes. */
  lemma AndFirst()
    ensures PExpression([a, orToken, b, andToken, c, EndOfFile], 0)
      == Step(Done(Logical(Variable(a), orToken, Logical(Variable(b), andToken, Variable(c)))), 5, [])
  {
    var e := Logical(Variable(a), orToken, Logical(Variable(b), andToken, Variable(c)));
    assert Shaped(e);
    ParseUnparse(e);
    assert Unparse.Unparse(e) + [EndOfFile] == [a, orToken, b, andToken, c, EndOfFile];
  }

  /** `a = b = c` groups to the right: `a = (b = c)`. */
  lemma AssignRight()
    ensures PExpression([a, Equals, b, Equals, c, EndOfFile], 0)
      == Step(Done(Assign(a, Assign(b, Variable(c)))), 5, [])
  {
    var e := Assign(a, Assign(b, Variable(c)));
    assert Shaped(e);
    ParseUnparse(e);
    assert Unparse.Unparse(e) + [EndOfFile] == [a, Equals, b, Equals, c, EndOfFile];
  }

  /**
    An `=` after a left side that is no variable is reported at the `=`, the
    value after it is still parsed, and the left side is the result: the
    error does not end the parse.
  */
  lemma {:induction false} AssignmentToNonVariable(ts: seq<Token>, pos: nat, left: Expr, at: nat, value: Expr, end: nat)
    requires At(ts, pos) && at + 1 < |ts| && ts[at].kind == Equal && !left.Variable?
    requires PBinaryLevel(ts, pos, OrLevel) == Step(Done(left), at, [])
    requires PAssignment(ts, at + 1) == Step(Done(value), end, [])
    ensures PAssignment(ts, pos) == Step(Done(left), end, [Diagnostic(ts[at], InvalidAssignmentTarget)])
  {
    assert Matches(ts, at, [Equal]);
    var stored := PAssignment(ts, at + 1);
    assert AssignTo(ts[at], left, stored) == Step(Done(left), end, [Diagnostic(ts[at], InvalidAssignmentTarget)]);
    ExtendNothing(AssignTo(ts[at], left, stored));
  }

  /** `a + b = c`: the invalid target is reported and the parse goes on with `a + b`. */
  lemma InvalidTarget()
    ensures PExpression([a, plus, b, Equals, c, EndOfFile], 0)
      == Step(Done(Binary(Variable(a), plus, Variable(b))), 5, [Diagnostic(Equals, InvalidAssignmentTarget)])
  {
    var ts := [a, plus, b, Equals, c, EndOfFile];
    var left := Binary(Variable(a), plus, Variable(b));
    assert Unparse.Unparse(left) == ts[..3];
    assert Spelled(ts, 0, left);
    LevelComplete(ts, 0, left, OrLevel, 3);
    LevelStops(ts, 0, OrLevel, left, 3);
    assert Spelled(ts, 4, Variable(c));
    AssignmentComplete(ts, 4, Variable(c), 5);
    AssignmentToNonVariable(ts, 0, left, 3, Variable(c), 5);
  }

  /** `!!a`: the operand of `!` must be a primary, so the second `!` is reported as "Expect expression". */
  lemma NoDoubleBang()
    ensures var ts := [bang, bang, a, EndOfFile];
      PUnary(ts, 0) == Step(SyntaxError, 1, [Diagnostic(bang, ExpectExpression)])
  {
    var ts := [bang, bang, a, EndOfFile];
    assert Matches(ts, 0, [Bang, Minus]);
    assert PPrimary(ts, 1) == Step(SyntaxError, 1, [Diagnostic(bang, ExpectExpression)]);
  }

  /** Every level's operand parser fails at a token that cannot begin an expression, reporting "Expect expression" there and consuming nothing. */
  lemma {:induction false} NoOperand(ts: seq<Token>, pos: nat, l: Level)
    requires At(ts, pos) && !StartsExpression(ts[pos].kind)
    ensures POperand(ts, pos, l) == Step(SyntaxError, pos, [Diagnostic(ts[pos], ExpectExpression)])
    decreases 8 - LevelPrec(l)
  {
    if l == FactorLevel {
      assert !Matches(ts, pos, [Bang, Minus]);
      assert !Matches(ts, pos, [FalseKeyword]) && !Matches(ts, pos, [TrueKeyword]) && !Matches(ts, pos, [NilKeyword]);
      assert !Matches(ts, pos, [NumberToken, StringToken]) && !Matches(ts, pos, [Identifier]) && !Matches(ts, pos, [LeftParen]);
      assert PUnary(ts, pos) == PPrimary(ts, pos);
    } else {
      TighterPrec(l);
      NoOperand(ts, pos, Tighter(l));
    }
  }

  /** So does expression. */
  lemma {:induction false} NoExpression(ts: seq<Token>, pos: nat)
    requires At(ts, pos) && !StartsExpression(ts[pos].kind)
    ensures PExpression(ts, pos) == Step(SyntaxError, pos, [Diagnostic(ts[pos], ExpectExpression)])
  {
    NoOperand(ts, pos, OrLevel);
    assert PBinaryLevel(ts, pos, OrLevel) == POperand(ts, pos, OrLevel);
    assert PAssignment(ts, pos) == PBinaryLevel(ts, pos, OrLevel);
  }

  /**
    The increment clause is skipped only before a `;`, so an empty increment
    is parsed as an expression at `)` and the `for` statement fails there.
  */
  lemma {:induction false} EmptyIncrementFails(ts: seq<Token>, pos: nat, init: Option<Stmt>, cond: Option<Expr>)
    requires At(ts, pos) && ts[pos].kind == RightParen
    ensures PForIncrement(ts, pos, init, cond) == Step(SyntaxError, pos, [Diagnostic(ts[pos], ExpectExpression)])
  {
    NoExpression(ts, pos);
    assert !Check(ts, pos, Semicolon);
  }

  /** `for (;;)` is rejected with "Expect expression" at the `)`. */
  lemma EmptyIncrementRejected()
    ensures PFor([OpenParen, semicolon, semicolon, CloseParen, EndOfFile], 0)
      == Step(SyntaxError, 3, [Diagnostic(CloseParen, ExpectExpression)])
  {
    var ts := [OpenParen, semicolon, semicolon, CloseParen, EndOfFile];
    var failed := Step(SyntaxError, 3, [Diagnostic(CloseParen, ExpectExpression)]);
    assert Check(ts, 0, LeftParen) && Matches(ts, 1, [Semicolon]) && Check(ts, 2, Semicolon);
    assert PForInitializer(ts, 1) == Step(Done(None), 2, []);
    assert PForClause(ts, 2) == Step(Done(None), 2, []);
    EmptyIncrementFails(ts, 3, None, None);
    assert PForCondition(ts, 2, None) == Extend([], failed);
    assert PFor(ts, 0) == Extend([], Extend([], failed));
  }

  /**
    A program that is a lone `)`: its declaration fails without consuming a
    token, so Parse's loop would read the same declaration again forever.
  */
  lemma LoneParenDiverges()
    ensures PProgram([rightParen, eof], 0) == Step(Diverges, 0, [Diagnostic(rightParen, ExpectExpression)])
  {
    var ts := [rightParen, eof];
    var failed := Step(SyntaxError, 0, [Diagnostic(rightParen, ExpectExpression)]);
    NoExpression(ts, 0);
    assert PExpressionStatement(ts, 0) == failed;
    assert !Matches(ts, 0, [ForKeyword]) && !Matches(ts, 0, [IfKeyword]) && !Matches(ts, 0, [WhileKeyword]);
    assert !Matches(ts, 0, [PrintKeyword]) && !Matches(ts, 0, [LeftBrace]) && !Matches(ts, 0, [VarKeyword]);
    assert PDeclaration(ts, 0) == Step(Done(None), 0, failed.diags);
    ProgramStep(ts, 0);
  }
}
