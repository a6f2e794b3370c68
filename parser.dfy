/**
  The `Parser` struct of chapter-10/glox/lox/parser.go: a token slice and a
  cursor that the methods advance in place. Diagnostics the source prints
  through `TokenError` are appended to `diagnostics` instead.

  Every parsing method is proved to do what the function of the same name in
  module Grammar says: `Ran(PX(tokens, old(current)), r, old(diagnostics))`
  states that it returned that function's result, left the cursor where the
  function says, and appended exactly the function's diagnostics.
*/
module Parser {
  import opened Wrappers
  import opened Values
  import opened Tokens
  import opened Ast
  import opened Grammar

  class Parser {
    const tokens: seq<Token>
    var current: nat
    var diagnostics: seq<Diagnostic>

    ghost predicate Valid()
      reads this
    {
      At(tokens, current)
    }

    /** The method ran step `s` from the state it was called in. */
    ghost predicate Ran<T>(s: Step<T>, r: Res<T>, diags0: seq<Diagnostic>)
      reads this
    {
      r == s.res && current == s.next && diagnostics == diags0 + s.diags
    }

    /** NewParser: the cursor starts at the first token. */
    constructor (tokens: seq<Token>)
      requires ValidTokens(tokens)
      ensures Valid() && this.tokens == tokens && current == 0 && diagnostics == []
    {
      this.tokens := tokens;
      current := 0;
      diagnostics := [];
    }

    // -------------------------------------------------------------------
    // Token helpers

    function Peek(): Token
      reads this
      requires Valid()
    {
      tokens[current]
    }

    function Previous(): Token
      reads this
      requires Valid() && current > 0
    {
      tokens[current - 1]
    }

    predicate AtEnd()
      reads this
      requires Valid()
    {
      Peek().kind == Eof
    }

    predicate CheckType(t: TokenType)
      reads this
      requires Valid()
    {
      if AtEnd() then false else Peek().kind == t
    }

    /**
      advance moves the cursor one token forward unless it is at EOF, and
      returns the token before the cursor. It never moves past the final EOF.
    */
    method Advance() returns (t: Token)
      requires Valid() && (current > 0 || !AtEnd())
      modifies this`current
      ensures Valid()
      ensures current == if old(AtEnd()) then old(current) else old(current) + 1
      ensures current > 0 && t == tokens[current - 1]
    {
      if !AtEnd() {
        current := current + 1;
      }
      t := Previous();
    }

    /** match tries the types in order and consumes one token at the first that checks. */
    method Match(types: seq<TokenType>) returns (matched: bool)
      requires Valid()
      modifies this`current
      ensures Valid()
      ensures matched == Matches(tokens, old(current), types)
      ensures current == if matched then old(current) + 1 else old(current)
    {
      var i := 0;
      while i < |types|
        invariant 0 <= i <= |types|
        invariant current == old(current)
        invariant forall j :: 0 <= j < i ==> !CheckType(types[j])
      {
        if CheckType(types[i]) {
          var _ := Advance();
          return true;
        }
        i := i + 1;
      }
      return false;
    }

    /** TokenError in the driver: the diagnostic is recorded, nothing else changes. */
    method Report(token: Token, message: Message)
      modifies this`diagnostics
      ensures diagnostics == old(diagnostics) + [Diagnostic(token, message)]
    {
      diagnostics := diagnostics + [Diagnostic(token, message)];
    }

    /** consume: advance over a token of type `t`, or report at the current token and fail. */
    method Consume(t: TokenType, message: Message) returns (r: Res<()>)
      requires Valid()
      modifies this
      ensures Valid() && Ran(Grammar.Consume(tokens, old(current), t, message), r, old(diagnostics))
    {
      if CheckType(t) {
        var _ := Advance();
        return Done(());
      }
      Report(Peek(), message);
      return SyntaxError;
    }

    // -------------------------------------------------------------------
    // Statements

    /**
      Parse: declarations until EOF, each appended as it comes (a failed one
      as `None`). Where the source would repeat a declaration that consumes
      nothing for ever, the method stops and answers `Diverges`.
    */
    method Parse() returns (r: Res<seq<Option<Stmt>>>)
      requires Valid()
      modifies this
      ensures Valid() && Ran(PProgram(tokens, old(current)), r, old(diagnostics))
    {
      ghost var expected := Extend(diagnostics, PProgram(tokens, current));
      var statements: seq<Option<Stmt>> := [];
      PrependNothing(PProgram(tokens, current));
      while !AtEnd()
        invariant Valid()
        invariant expected == Extend(diagnostics, Prepend(statements, PProgram(tokens, current)))
        decreases |tokens| - current
      {
        ghost var before := diagnostics;
        var pos := current;
        ProgramStep(tokens, pos);
        var stmt := Declaration();
        if !stmt.Done? {
          return Reraise(stmt);
        }
        if current == pos {
          return Diverges;
        }
        PrependOne(statements, PDeclaration(tokens, pos).diags, stmt.value, PProgram(tokens, current));
        ExtendTwice(before, PDeclaration(tokens, pos).diags, Prepend(statements + [stmt.value], PProgram(tokens, current)));
        statements := statements + [stmt.value];
      }
      ProgramStops(tokens, current);
      PrependFinished(diagnostics, statements, current);
      return Done(statements);
    }

    /**
      declaration: a `var` declaration or a statement. A failed one has been
      reported; `synchronize` has an empty body, so nothing is skipped and the
      result is `None` without an error.
    */
    method Declaration() returns (r: Res<Option<Stmt>>)
      requires Valid()
      modifies this
      decreases |tokens| - current, 45
      ensures Valid() && Ran(PDeclaration(tokens, old(current)), r, old(diagnostics))
    {
      var result: Res<Stmt>;
      var isVar := Match([VarKeyword]);
      if isVar {
        result := VarDeclaration();
      } else {
        result := Statement();
      }
      match result
      case Done(stmt) => r := Done(Some(stmt));
      case SyntaxError => r := Done(None);
      case Diverges => r := Diverges;
    }

    /** varDeclaration, called after `var`. */
    method VarDeclaration() returns (r: Res<Stmt>)
      requires Valid()
      modifies this
      decreases |tokens| - current, 41
      ensures Valid() && Ran(PVarDeclaration(tokens, old(current)), r, old(diagnostics))
    {
      var named := Consume(Identifier, ExpectVariableName);
      if !named.Done? {
        return SyntaxError;
      }
      var name := Previous();
      ghost var d0 := diagnostics;
      ghost var init := POptionalInitializer(tokens, current);
      var initializer: Option<Expr> := None;
      var hasInitializer := Match([Equal]);
      if hasInitializer {
        var value := Expression();
        if !value.Done? {
          return SyntaxError;
        }
        initializer := Some(value.value);
      }
      ghost var semi := Grammar.Consume(tokens, current, Semicolon, ExpectSemicolonAfterDeclaration);
      ExtendTwice(d0, init.diags, Finish(semi, Var(name, initializer)));
      var ended := Consume(Semicolon, ExpectSemicolonAfterDeclaration);
      if !ended.Done? {
        return SyntaxError;
      }
      return Done(Var(name, initializer));
    }

    method Statement() returns (r: Res<Stmt>)
      requires Valid()
      modifies this
      decreases |tokens| - current, 44
      ensures Valid() && Ran(PStatement(tokens, old(current)), r, old(diagnostics))
    {
      var matched := Match([ForKeyword]);
      if matched {
        r := ForStatement();
        return;
      }
      matched := Match([IfKeyword]);
      if matched {
        r := IfStatement();
        return;
      }
      matched := Match([WhileKeyword]);
      if matched {
        r := WhileStatement();
        return;
      }
      matched := Match([PrintKeyword]);
      if matched {
        r := PrintStatement();
        return;
      }
      matched := Match([LeftBrace]);
      if matched {
        r := BlockStatement();
        return;
      }
      r := ExpressionStatement();
    }

    /** forStatement, called after `for`: `(`, the clauses and the body, desugared to a while loop. */
    method ForStatement() returns (r: Res<Stmt>)
      requires Valid()
      modifies this
      decreases |tokens| - current, 43
      ensures Valid() && Ran(PFor(tokens, old(current)), r, old(diagnostics))
    {
      var open := Consume(LeftParen, ExpectOpenAfterFor);
      if !open.Done? {
        return SyntaxError;
      }
      ghost var d0 := diagnostics;
      ghost var initStep := PForInitializer(tokens, current);
      var initializer := ForInitializer();
      if !initializer.Done? {
        return SyntaxError;
      }
      ExtendTwice(d0, initStep.diags, PForCondition(tokens, current, initializer.value));
      r := ForCondition(initializer.value);
    }

    /** The initializer clause of a for statement. */
    method ForInitializer() returns (r: Res<Option<Stmt>>)
      requires Valid()
      modifies this
      decreases |tokens| - current, 42
      ensures Valid() && Ran(PForInitializer(tokens, old(current)), r, old(diagnostics))
    {
      var matched := Match([Semicolon]);
      if matched {
        return Done(None);
      }
      var stmt: Res<Stmt>;
      matched := Match([VarKeyword]);
      if matched {
        stmt := VarDeclaration();
      } else {
        stmt := ExpressionStatement();
      }
      if !stmt.Done? {
        return SyntaxError;
      }
      return Done(Some(stmt.value));
    }

    /** The condition or increment clause: none if the current token is `;`. */
    method ForClause() returns (r: Res<Option<Expr>>)
      requires Valid()
      modifies this
      decreases |tokens| - current, 32
      ensures Valid() && Ran(PForClause(tokens, old(current)), r, old(diagnostics))
    {
      if CheckType(Semicolon) {
        return Done(None);
      }
      var expr := Expression();
      if !expr.Done? {
        return SyntaxError;
      }
      return Done(Some(expr.value));
    }

    /** The condition clause and its `;`, then the rest of the for statement. */
    method ForCondition(initializer: Option<Stmt>) returns (r: Res<Stmt>)
      requires Valid()
      modifies this
      decreases |tokens| - current, 42
      ensures Valid() && Ran(PForCondition(tokens, old(current), initializer), r, old(diagnostics))
    {
      ghost var d0 := diagnostics;
      ghost var cond := PForClause(tokens, current);
      var condition := ForClause();
      if !condition.Done? {
        return SyntaxError;
      }
      ghost var semi := Grammar.Consume(tokens, current, Semicolon, ExpectSemicolonAfterLoopCondition);
      var ended := Consume(Semicolon, ExpectSemicolonAfterLoopCondition);
      if !ended.Done? {
        ExtendTwice(d0, cond.diags, Fail<(), Stmt>(semi));
        return SyntaxError;
      }
      ExtendTwice(d0, cond.diags, PForIncrement(tokens, current, initializer, condition.value));
      r := ForIncrement(initializer, condition.value);
    }

    /** The increment clause, `)` and the body; the loop is then desugared. */
    method ForIncrement(initializer: Option<Stmt>, condition: Option<Expr>) returns (r: Res<Stmt>)
      requires Valid()
      modifies this
      decreases |tokens| - current, 42
      ensures Valid() && Ran(PForIncrement(tokens, old(current), initializer, condition), r, old(diagnostics))
    {
      ghost var d0 := diagnostics;
      ghost var incr := PForClause(tokens, current);
      var increment := ForClause();
      if !increment.Done? {
        return SyntaxError;
      }
      ghost var close := Grammar.Consume(tokens, current, RightParen, ExpectCloseAfterForClauses);
      var closed := Consume(RightParen, ExpectCloseAfterForClauses);
      if !closed.Done? {
        ExtendTwice(d0, incr.diags, Fail<(), Stmt>(close));
        return SyntaxError;
      }
      ghost var bodyStep := PStatement(tokens, current);
      var body := Statement();
      if !body.Done? {
        ExtendTwice(d0, incr.diags, Fail<Stmt, Stmt>(bodyStep));
        return Reraise(body);
      }
      ExtendTwice(d0, incr.diags, With(bodyStep, Done(DesugarFor(initializer, condition, increment.value, body.value))));
      return Done(DesugarFor(initializer, condition, increment.value, body.value));
    }

    /** ifStatement, called after `if`. The result of consuming `)` is not tested. */
    method IfStatement() returns (r: Res<Stmt>)
      requires Valid()
      modifies this
      decreases |tokens| - current, 43
      ensures Valid() && Ran(PIf(tokens, old(current)), r, old(diagnostics))
    {
      var open := Consume(LeftParen, ExpectOpenAfterIf);
      if !open.Done? {
        return SyntaxError;
      }
      ghost var d0 := diagnostics;
      ghost var cond := PExpression(tokens, current);
      var condition := Expression();
      if !condition.Done? {
        return SyntaxError;
      }
      ghost var d1 := diagnostics;
      ghost var close := Grammar.Consume(tokens, current, RightParen, ExpectCloseAfterIfCondition);
      var _ := Consume(RightParen, ExpectCloseAfterIfCondition);
      ghost var rest := PIfBranches(tokens, current, condition.value);
      ExtendTwice(d1, close.diags, rest);
      ExtendTwice(d0, cond.diags, Extend(close.diags, rest));
      r := IfBranches(condition.value);
    }

    /** The then-branch and the optional else-branch of an if statement. */
    method IfBranches(condition: Expr) returns (r: Res<Stmt>)
      requires Valid()
      modifies this
      decreases |tokens| - current, 45
      ensures Valid() && Ran(PIfBranches(tokens, old(current), condition), r, old(diagnostics))
    {
      ghost var d0 := diagnostics;
      ghost var thenStep := PStatement(tokens, current);
      var thenBranch := Statement();
      if !thenBranch.Done? {
        return Reraise(thenBranch);
      }
      var hasElse := Match([ElseKeyword]);
      if !hasElse {
        return Done(If(condition, thenBranch.value, None));
      }
      ghost var elseStep := PStatement(tokens, current);
      var elseBranch := Statement();
      if !elseBranch.Done? {
        ExtendTwice(d0, thenStep.diags, Fail<Stmt, Stmt>(elseStep));
        return Reraise(elseBranch);
      }
      ExtendTwice(d0, thenStep.diags, With(elseStep, Done(If(condition, thenBranch.value, Some(elseBranch.value)))));
      return Done(If(condition, thenBranch.value, Some(elseBranch.value)));
    }

    /** whileStatement, called after `while`. The condition's error is overwritten by the `)` check. */
    method WhileStatement() returns (r: Res<Stmt>)
      requires Valid()
      modifies this
      decreases |tokens| - current, 43
      ensures Valid() && Ran(PWhile(tokens, old(current)), r, old(diagnostics))
    {
      var open := Consume(LeftParen, ExpectOpenAfterWhile);
      if !open.Done? {
        return SyntaxError;
      }
      ghost var d0 := diagnostics;
      assert current == old(current) + 1 && d0 == old(diagnostics);
      ghost var cond := PExpression(tokens, current);
      var parsed := Expression();
      assert parsed == cond.res && current == cond.next && diagnostics == d0 + cond.diags;
      var condition := if parsed.Done? then Some(parsed.value) else None;
      ghost var close := Grammar.Consume(tokens, current, RightParen, ExpectCloseAfterWhileCondition);
      var closed := Consume(RightParen, ExpectCloseAfterWhileCondition);
      if !closed.Done? {
        ExtendTwice(d0, cond.diags, Fail<(), Stmt>(close));
        return SyntaxError;
      }
      ghost var bodyStep := PStatement(tokens, current);
      var body := Statement();
      if !body.Done? {
        ExtendTwice(d0, cond.diags, Fail<Stmt, Stmt>(bodyStep));
        return Reraise(body);
      }
      ExtendTwice(d0, cond.diags, With(bodyStep, Done(While(condition, body.value))));
      return Done(While(condition, body.value));
    }

    /**
      blockStatement, called after `{`: declarations until `}` or EOF, then
      `}`. Where the source would repeat a declaration that consumes nothing
      for ever, the method stops and answers `Diverges`.
    */
    method BlockStatement() returns (r: Res<Stmt>)
      requires Valid()
      modifies this
      decreases |tokens| - current, 47
      ensures Valid() && Ran(PBlock(tokens, old(current)), r, old(diagnostics))
    {
      ghost var d0 := diagnostics;
      ghost var items := PBlockItems(tokens, current);
      ghost var expected := Extend(diagnostics, items);
      var statements: seq<Option<Stmt>> := [];
      PrependNothing(items);
      while !CheckType(RightBrace) && !AtEnd()
        invariant Valid()
        invariant expected == Extend(diagnostics, Prepend(statements, PBlockItems(tokens, current)))
        decreases |tokens| - current
      {
        ghost var before := diagnostics;
        var pos := current;
        BlockItemsStep(tokens, pos);
        var stmt := Declaration();
        if !stmt.Done? {
          return Reraise(stmt);
        }
        if current == pos {
          return Diverges;
        }
        PrependOne(statements, PDeclaration(tokens, pos).diags, stmt.value, PBlockItems(tokens, current));
        ExtendTwice(before, PDeclaration(tokens, pos).diags, Prepend(statements + [stmt.value], PBlockItems(tokens, current)));
        statements := statements + [stmt.value];
      }
      BlockItemsStop(tokens, current);
      PrependFinished(diagnostics, statements, current);
      ghost var close := Grammar.Consume(tokens, current, RightBrace, ExpectCloseBraceAfterBlock);
      ExtendTwice(d0, items.diags, Finish(close, Block(statements)));
      var closed := Consume(RightBrace, ExpectCloseBraceAfterBlock);
      if !closed.Done? {
        return SyntaxError;
      }
      return Done(Block(statements));
    }

    method PrintStatement() returns (r: Res<Stmt>)
      requires Valid()
      modifies this
      decreases |tokens| - current, 40
      ensures Valid() && Ran(PPrint(tokens, old(current)), r, old(diagnostics))
    {
      ghost var d0 := diagnostics;
      ghost var valueStep := PExpression(tokens, current);
      var value := Expression();
      if !value.Done? {
        return SyntaxError;
      }
      ghost var semi := Grammar.Consume(tokens, current, Semicolon, ExpectSemicolonAfterValue);
      ExtendTwice(d0, valueStep.diags, Finish(semi, Print(value.value)));
      var ended := Consume(Semicolon, ExpectSemicolonAfterValue);
      if !ended.Done? {
        return SyntaxError;
      }
      return Done(Print(value.value));
    }

    method ExpressionStatement() returns (r: Res<Stmt>)
      requires Valid()
      modifies this
      decreases |tokens| - current, 40
      ensures Valid() && Ran(PExpressionStatement(tokens, old(current)), r, old(diagnostics))
    {
      ghost var d0 := diagnostics;
      ghost var valueStep := PExpression(tokens, current);
      var value := Expression();
      if !value.Done? {
        return SyntaxError;
      }
      ghost var semi := Grammar.Consume(tokens, current, Semicolon, ExpectSemicolonAfterExpression);
      ExtendTwice(d0, valueStep.diags, Finish(semi, Ast.Expression(value.value)));
      var ended := Consume(Semicolon, ExpectSemicolonAfterExpression);
      if !ended.Done? {
        return SyntaxError;
      }
      return Done(Ast.Expression(value.value));
    }

    // -------------------------------------------------------------------
    // Expressions

    method Expression() returns (r: Res<Expr>)
      requires Valid()
      modifies this
      decreases |tokens| - current, 31
      ensures Valid() && Ran(PExpression(tokens, old(current)), r, old(diagnostics))
    {
      r := Assignment();
    }

    method Assignment() returns (r: Res<Expr>)
      requires Valid()
      modifies this
      decreases |tokens| - current, 30
      ensures Valid() && Ran(PAssignment(tokens, old(current)), r, old(diagnostics))
    {
      ghost var d0 := diagnostics;
      ghost var left := PBinaryLevel(tokens, current, OrLevel);
      var expr := BinaryLevel(OrLevel);
      if !expr.Done? {
        return expr;
      }
      var isAssignment := Match([Equal]);
      if !isAssignment {
        return expr;
      }
      var equals := Previous();
      ghost var d1 := diagnostics;
      ghost var valueStep := PAssignment(tokens, current);
      var value := Assignment();
      if !value.Done? {
        r := SyntaxError;
      } else if expr.value.Variable? {
        r := Done(Assign(expr.value.name, value.value));
      } else {
        ghost var d2 := diagnostics;
        Report(equals, InvalidAssignmentTarget);
        ExtendTwice(d1, valueStep.diags, Step(Done(expr.value), current, [Diagnostic(equals, InvalidAssignmentTarget)]));
        r := expr;
      }
      ExtendTwice(d0, left.diags, AssignTo(equals, expr.value, valueStep));
    }

    /** or, and, equality, comparison, term and factor: an operand, then the level's loop. */
    method BinaryLevel(l: Level) returns (r: Res<Expr>)
      requires Valid()
      modifies this
      decreases |tokens| - current, Rank(l) + 3
      ensures Valid() && Ran(PBinaryLevel(tokens, old(current), l), r, old(diagnostics))
    {
      ghost var d0 := diagnostics;
      ghost var first := POperand(tokens, current, l);
      r := Operand(l);
      if r.Done? {
        ExtendTwice(d0, first.diags, PLoop(tokens, l, r.value, current));
        r := Fold(l, r.value);
      }
    }

    /**
      The level's `for p.match(...)` loop, entered with the first operand:
      every matched operator and the operand after it become a new node whose
      left operand is the tree built so far.
    */
    method Fold(l: Level, left: Expr) returns (r: Res<Expr>)
      requires Valid()
      modifies this
      decreases |tokens| - current, Rank(l) + 2
      ensures Valid() && Ran(PLoop(tokens, l, left, old(current)), r, old(diagnostics))
    {
      ghost var expected := Extend(diagnostics, PLoop(tokens, l, left, current));
      var expr := left;
      while true
        invariant Valid()
        invariant expected == Extend(diagnostics, PLoop(tokens, l, expr, current))
        decreases |tokens| - current
      {
        ghost var before := diagnostics;
        var more, turn, added := FoldTurn(l, expr);
        if !more {
          return turn;
        }
        ExtendTwice(before, added, PLoop(tokens, l, turn.value, current));
        expr := turn.value;
      }
    }

    /**
      One turn of that loop: if the current token is one of the level's
      operators, consume it, parse the operand after it and build the node
      (`more`); otherwise, or if the operand fails, the loop ends with `r`.
    */
    method FoldTurn(l: Level, expr: Expr) returns (more: bool, r: Res<Expr>, ghost added: seq<Diagnostic>)
      requires Valid()
      modifies this
      decreases |tokens| - current, Rank(l) + 1
      ensures Valid() && diagnostics == old(diagnostics) + added
      ensures !more ==> Ran(PLoop(tokens, l, expr, old(current)), r, old(diagnostics))
      ensures more ==> old(current) < current && r.Done?
      ensures more ==> PLoop(tokens, l, expr, old(current)) == Extend(added, PLoop(tokens, l, r.value, current))
    {
      ghost var pos := current;
      var matched := Match(Operators(l));
      if !matched {
        LoopStops(tokens, l, expr, pos);
        return false, Done(expr), [];
      }
      var operator := Previous();
      assert current == pos + 1 && operator == tokens[pos];
      ghost var operand := POperand(tokens, current, l);
      var right := Operand(l);
      assert right == operand.res && current == operand.next && diagnostics == old(diagnostics) + operand.diags;
      if !right.Done? {
        LoopFails(tokens, l, expr, pos);
        return false, right, operand.diags;
      }
      LoopContinues(tokens, l, expr, pos, right.value);
      return true, Done(Combine(l, expr, operator, right.value)), operand.diags;
    }

    /** The operand a level's loop calls for: the next tighter level, or unary below factor. */
    method Operand(l: Level) returns (r: Res<Expr>)
      requires Valid()
      modifies this
      decreases |tokens| - current, Rank(l) + 1
      ensures Valid() && Ran(POperand(tokens, old(current), l), r, old(diagnostics))
    {
      if l == FactorLevel {
        r := Unary();
      } else {
        r := BinaryLevel(Tighter(l));
      }
    }

    method Unary() returns (r: Res<Expr>)
      requires Valid()
      modifies this
      decreases |tokens| - current, 2
      ensures Valid() && Ran(PUnary(tokens, old(current)), r, old(diagnostics))
    {
      var matched := Match([Bang, Minus]);
      if matched {
        var operator := Previous();
        var right := Primary();
        if right.Done? {
          return Done(Ast.Unary(operator, right.value));
        }
        return right;
      }
      r := Primary();
    }

    method Primary() returns (r: Res<Expr>)
      requires Valid()
      modifies this
      decreases |tokens| - current, 1
      ensures Valid() && Ran(PPrimary(tokens, old(current)), r, old(diagnostics))
    {
      var matched := Match([FalseKeyword]);
      if matched {
        return Done(Literal(Bool(false)));
      }
      matched := Match([TrueKeyword]);
      if matched {
        return Done(Literal(Bool(true)));
      }
      matched := Match([NilKeyword]);
      if matched {
        return Done(Literal(Nil));
      }
      matched := Match([NumberToken, StringToken]);
      if matched {
        return Done(Literal(Previous().literal));
      }
      matched := Match([Identifier]);
      if matched {
        return Done(Variable(Previous()));
      }
      matched := Match([LeftParen]);
      if matched {
        ghost var d0 := diagnostics;
        ghost var inner := PExpression(tokens, current);
        var expr := Expression();
        if !expr.Done? {
          return SyntaxError;
        }
        ghost var close := Grammar.Consume(tokens, current, RightParen, ExpectCloseAfterExpression);
        ExtendTwice(d0, inner.diags, Finish(close, Grouping(expr.value)));
        var closed := Consume(RightParen, ExpectCloseAfterExpression);
        if !closed.Done? {
          return SyntaxError;
        }
        return Done(Grouping(expr.value));
      }
      Report(Peek(), ExpectExpression);
      return SyntaxError;
    }
  }
}
