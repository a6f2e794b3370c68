/**
  The recursive-descent parser of chapter-10/glox/lox/parser.go, as pure
  functions of the token sequence and the cursor.

  Each parsing function `PX(ts, pos)` says what the Go method `x` does when
  it is called with `current == pos`: the value it returns (`Done`), whether
  it returned a parse error (`SyntaxError`), where it leaves the cursor
  (`next`) and which diagnostics it reported on the way (`diags`, in order;
  the source prints them through `TokenError`). The `Parser` class in
  parser.dfy runs the same algorithm imperatively and is proved to agree
  with these functions.

  Error recovery does nothing (`synchronize` has an empty body), so the loops
  of `Parse` and `blockStatement` can call `declaration` at a cursor where it
  fails without consuming a token. The parser's state is only its cursor, so
  from then on the same iteration repeats for ever. The model detects this
  and answers `Diverges` instead of looping.
*/
module Grammar {
  import opened Wrappers
  import opened Values
  import opened Tokens
  import opened Ast

  /** The diagnostics the parser reports; `MessageText` gives each one's text. */
  datatype Message =
    InvalidAssignmentTarget
    | ExpectCloseAfterExpression
    | ExpectExpression
    | ExpectVariableName
    | ExpectSemicolonAfterDeclaration
    | ExpectOpenAfterFor
    | ExpectSemicolonAfterLoopCondition
    | ExpectCloseAfterForClauses
    | ExpectOpenAfterIf
    | ExpectCloseAfterIfCondition
    | ExpectOpenAfterWhile
    | ExpectCloseAfterWhileCondition
    | ExpectCloseBraceAfterBlock
    | ExpectSemicolonAfterValue
    | ExpectSemicolonAfterExpression

  /** The text parser.go reports for each diagnostic. */
  function MessageText(m: Message): string {
    match m
    case InvalidAssignmentTarget => "Invalid Assignment target."
    case ExpectCloseAfterExpression => "Expect ')' after expression."
    case ExpectExpression => "Expect expression"
    case ExpectVariableName => "Expect variable name"
    case ExpectSemicolonAfterDeclaration => "Expect ';' after variable declaration."
    case ExpectOpenAfterFor => "Expect '(' after 'for'."
    case ExpectSemicolonAfterLoopCondition => "Expect ';' after loop condition."
    case ExpectCloseAfterForClauses => "Expect ')' after for clauses."
    case ExpectOpenAfterIf => "Expect '(' after 'if'."
    case ExpectCloseAfterIfCondition => "Expect ')' after if condition."
    case ExpectOpenAfterWhile => "Expect '(' after 'while'."
    case ExpectCloseAfterWhileCondition => "Expect ')' after while condition."
    case ExpectCloseBraceAfterBlock => "Expect '}' after block."
    case ExpectSemicolonAfterValue => "Expect ';' after value."
    case ExpectSemicolonAfterExpression => "Expect ';' after expression."
  }

  /** No two diagnostics share a text, so a `Message` loses nothing of what the parser reports. */
  lemma MessageTextInjective(m: Message, n: Message)
    requires m != n
    ensures MessageText(m) != MessageText(n)
  {
  }

  datatype Diagnostic = Diagnostic(token: Token, message: Message)

  datatype Res<T> = Done(value: T) | SyntaxError | Diverges

  datatype Step<T> = Step(res: Res<T>, next: nat, diags: seq<Diagnostic>)

  /** The scanner's guarantee: the token sequence ends with an EOF token. */
  predicate ValidTokens(ts: seq<Token>) {
    |ts| > 0 && ts[|ts| - 1].kind == Eof
  }

  /** A cursor position inside valid tokens. */
  predicate At(ts: seq<Token>, pos: nat) {
    ValidTokens(ts) && pos < |ts|
  }

  predicate IsAtEnd(ts: seq<Token>, pos: nat)
    requires pos < |ts|
  {
    ts[pos].kind == Eof
  }

  /** check: false at EOF, otherwise whether the current token has type `t`. */
  predicate Check(ts: seq<Token>, pos: nat, t: TokenType)
    requires pos < |ts|
  {
    !IsAtEnd(ts, pos) && ts[pos].kind == t
  }

  /** match succeeds exactly when `check` succeeds for one of the types. */
  predicate Matches(ts: seq<Token>, pos: nat, types: seq<TokenType>)
    requires pos < |ts|
  {
    !IsAtEnd(ts, pos) && ts[pos].kind in types
  }

  /** The same failure, carried to a result of another type. */
  function Reraise<T, U>(r: Res<T>): Res<U>
    requires !r.Done?
  {
    if r.SyntaxError? then SyntaxError else Diverges
  }

  /** The same step, after diagnostics `acc` reported earlier. */
  function Extend<T>(acc: seq<Diagnostic>, s: Step<T>): Step<T> {
    Step(s.res, s.next, acc + s.diags)
  }

  /** Diagnostics reported in two stretches are reported in one. */
  lemma ExtendTwice<T>(a: seq<Diagnostic>, b: seq<Diagnostic>, s: Step<T>)
    ensures Extend(a, Extend(b, s)) == Extend(a + b, s)
  {
    assert a + (b + s.diags) == (a + b) + s.diags;
  }

  function Fail<T, U>(s: Step<T>): Step<U>
    requires !s.res.Done?
  {
    Step(Reraise(s.res), s.next, s.diags)
  }

  /** The same step, ending with result `r` instead. */
  function With<T, U>(s: Step<T>, r: Res<U>): Step<U> {
    Step(r, s.next, s.diags)
  }

  /** A step that ends a construct: its value if `done` holds, otherwise its failure. */
  function Finish<T, U>(s: Step<T>, done: U): Step<U> {
    if s.res.Done? then With(s, Done(done)) else Fail(s)
  }

  /** consume: advance over a token of type `t`, or report `message` at the current token. */
  function Consume(ts: seq<Token>, pos: nat, t: TokenType, message: Message): (r: Step<()>)
    requires At(ts, pos)
    ensures r.res.Done? <==> Check(ts, pos, t)
    ensures r.res.Done? ==> r.next == pos + 1 && r.diags == []
    ensures !r.res.Done? ==> r.res.SyntaxError? && r.next == pos && r.diags == [Diagnostic(ts[pos], message)]
  {
    if Check(ts, pos, t) then Step(Done(()), pos + 1, [])
    else Step(SyntaxError, pos, [Diagnostic(ts[pos], message)])
  }

  // ---------------------------------------------------------------------
  // Precedence levels

  /** The six left-associative binary levels, loosest first. */
  datatype Level = OrLevel | AndLevel | EqualityLevel | ComparisonLevel | TermLevel | FactorLevel

  /** Binding power: 1 is assignment, 2..7 the binary levels, 8 unary, 9 primary. */
  function LevelPrec(l: Level): nat {
    match l
    case OrLevel => 2
    case AndLevel => 3
    case EqualityLevel => 4
    case ComparisonLevel => 5
    case TermLevel => 6
    case FactorLevel => 7
  }

  /** The operator types each level's loop matches, in the order the source lists them. */
  function Operators(l: Level): seq<TokenType> {
    match l
    case OrLevel => [OrKeyword]
    case AndLevel => [AndKeyword]
    case EqualityLevel => [BangEqual, EqualEqual]
    case ComparisonLevel => [Greater, GreaterEqual, Less, LessEqual]
    case TermLevel => [Minus, Plus]
    case FactorLevel => [Slash, Star]
  }

  /** The level whose loop matches token type `k`, if any. */
  function OperatorLevel(k: TokenType): (r: Option<Level>)
    ensures r.Some? ==> k in Operators(r.value)
  {
    match k
    case OrKeyword => Some(OrLevel)
    case AndKeyword => Some(AndLevel)
    case BangEqual => Some(EqualityLevel)
    case EqualEqual => Some(EqualityLevel)
    case Greater => Some(ComparisonLevel)
    case GreaterEqual => Some(ComparisonLevel)
    case Less => Some(ComparisonLevel)
    case LessEqual => Some(ComparisonLevel)
    case Minus => Some(TermLevel)
    case Plus => Some(TermLevel)
    case Slash => Some(FactorLevel)
    case Star => Some(FactorLevel)
    case _ => None
  }

  lemma OperatorsHaveTheirLevel(l: Level, k: TokenType)
    requires k in Operators(l)
    ensures OperatorLevel(k) == Some(l)
  {
  }

  /** `or` and `and` build Logical nodes; the other levels build Binary nodes. */
  predicate IsLogical(l: Level) {
    l == OrLevel || l == AndLevel
  }

  /** The level whose function each level's loop calls for its operands. */
  function Tighter(l: Level): Level
    requires l != FactorLevel
  {
    match l
    case OrLevel => AndLevel
    case AndLevel => EqualityLevel
    case EqualityLevel => ComparisonLevel
    case ComparisonLevel => TermLevel
    case TermLevel => FactorLevel
  }

  function Combine(l: Level, left: Expr, operator: Token, right: Expr): Expr {
    if IsLogical(l) then Logical(left, operator, right) else Binary(left, operator, right)
  }

  function OperatorPrec(k: TokenType): nat {
    match OperatorLevel(k)
    case Some(l) => LevelPrec(l)
    case None => 0
  }

  /** The binding power of an expression's top node. */
  function Prec(e: Expr): nat {
    match e
    case Assign(_, _) => 1
    case Binary(_, op, _) => OperatorPrec(op.kind)
    case Logical(_, op, _) => OperatorPrec(op.kind)
    case Unary(_, _) => 8
    case Grouping(_) => 9
    case Literal(_) => 9
    case Variable(_) => 9
  }

  /**
    The trees the grammar can build. A binary or logical node carries an
    operator of its own level, its left operand binds at least as tightly and
    its right operand strictly more tightly (the levels fold to the left); a
    unary operator applies to a primary; assignment targets and variables are
    identifiers.
  */
  predicate Shaped(e: Expr) {
    match e
    case Assign(name, value) => name.kind == Identifier && Shaped(value)
    case Binary(left, op, right) =>
      && OperatorLevel(op.kind).Some? && !IsLogical(OperatorLevel(op.kind).value)
      && Prec(left) >= Prec(e) && Prec(right) > Prec(e) && Shaped(left) && Shaped(right)
    case Logical(left, op, right) =>
      && OperatorLevel(op.kind).Some? && IsLogical(OperatorLevel(op.kind).value)
      && Prec(left) >= Prec(e) && Prec(right) > Prec(e) && Shaped(left) && Shaped(right)
    case Unary(op, right) => op.kind in [Bang, Minus] && Prec(right) == 9 && Shaped(right)
    case Grouping(inner) => Shaped(inner)
    case Literal(_) => true
    case Variable(name) => name.kind == Identifier
  }

  /** The termination rank of each level's functions (looser levels rank higher). */
  function Rank(l: Level): nat {
    4 * (8 - LevelPrec(l))
  }

  // ---------------------------------------------------------------------
  // Expressions

  /** expression: an assignment. */
  function PExpression(ts: seq<Token>, pos: nat): (r: Step<Expr>)
    requires At(ts, pos)
    decreases |ts| - pos, 31
    ensures pos < r.next < |ts| || (r.res.SyntaxError? && pos <= r.next < |ts|)
    ensures !r.res.Diverges? && (r.res.SyntaxError? ==> r.diags != [])
  {
    PAssignment(ts, pos)
  }

  /**
    assignment: an `or` expression, then optionally `=` and (right-recursively)
    another assignment. Only a Variable on the left becomes an Assign node;
    any other left side is reported as an invalid target and returned as it
    is, without a parse error.
  */
  function PAssignment(ts: seq<Token>, pos: nat): (r: Step<Expr>)
    requires At(ts, pos)
    decreases |ts| - pos, 30
    ensures pos < r.next < |ts| || (r.res.SyntaxError? && pos <= r.next < |ts|)
    ensures !r.res.Diverges? && (r.res.SyntaxError? ==> r.diags != [])
  {
    var left := PBinaryLevel(ts, pos, OrLevel);
    if !left.res.Done? || !Matches(ts, left.next, [Equal]) then left
    else
      var value := PAssignment(ts, left.next + 1);
      Extend(left.diags, AssignTo(ts[left.next], left.res.value, value))
  }

  /** What assignment makes of its left side once the value after `=` is parsed. */
  function AssignTo(equals: Token, target: Expr, value: Step<Expr>): Step<Expr> {
    if !value.res.Done? then With(value, SyntaxError)
    else if target.Variable? then With(value, Done(Assign(target.name, value.res.value)))
    else Extend(value.diags, Step(Done(target), value.next, [Diagnostic(equals, InvalidAssignmentTarget)]))
  }

  /**
    or, and, equality, comparison, term, factor: one operand of the next
    tighter level, then the level's loop.
  */
  function PBinaryLevel(ts: seq<Token>, pos: nat, l: Level): (r: Step<Expr>)
    requires At(ts, pos)
    decreases |ts| - pos, Rank(l) + 3
    ensures pos < r.next < |ts| || (r.res.SyntaxError? && pos <= r.next < |ts|)
    ensures !r.res.Diverges? && (r.res.SyntaxError? ==> r.diags != [])
  {
    var first := POperand(ts, pos, l);
    if !first.res.Done? then first
    else Extend(first.diags, PLoop(ts, l, first.res.value, first.next))
  }

  /** The operand parser a level's loop calls: the next level, or unary below factor. */
  function POperand(ts: seq<Token>, pos: nat, l: Level): (r: Step<Expr>)
    requires At(ts, pos)
    decreases |ts| - pos, Rank(l) + 1
    ensures pos < r.next < |ts| || (r.res.SyntaxError? && pos <= r.next < |ts|)
    ensures !r.res.Diverges? && (r.res.SyntaxError? ==> r.diags != [])
  {
    if l == FactorLevel then PUnary(ts, pos) else PBinaryLevel(ts, pos, Tighter(l))
  }

  /**
    The loop `for p.match(ops) { operator := p.previous(); right := ...; expr = New(expr, operator, right) }`
    entered with `expr == left`: each matched operator folds the tree built so
    far into the left operand of a new node.
  */
  function PLoop(ts: seq<Token>, l: Level, left: Expr, pos: nat): (r: Step<Expr>)
    requires At(ts, pos)
    decreases |ts| - pos, Rank(l) + 2
    ensures pos <= r.next < |ts|
    ensures !r.res.Diverges? && (r.res.SyntaxError? ==> r.diags != [])
  {
    if Matches(ts, pos, Operators(l)) then
      var operator := ts[pos];
      var right := POperand(ts, pos + 1, l);
      if !right.res.Done? then right
      else Extend(right.diags, PLoop(ts, l, Combine(l, left, operator, right.res.value), right.next))
    else Step(Done(left), pos, [])
  }

  /** A level's node over operands of the right binding power is shaped and has the level's binding power. */
  lemma CombineShaped(l: Level, left: Expr, operator: Token, right: Expr)
    requires operator.kind in Operators(l)
    requires Shaped(left) && Prec(left) >= LevelPrec(l) && Shaped(right) && Prec(right) > LevelPrec(l)
    ensures Shaped(Combine(l, left, operator, right)) && Prec(Combine(l, left, operator, right)) == LevelPrec(l)
  {
    OperatorsHaveTheirLevel(l, operator.kind);
    assert OperatorPrec(operator.kind) == LevelPrec(l);
  }

  /** A level's loop stops, consuming nothing, at a token that is not one of its operators. */
  lemma LoopStops(ts: seq<Token>, l: Level, left: Expr, pos: nat)
    requires At(ts, pos) && !Matches(ts, pos, Operators(l))
    ensures PLoop(ts, l, left, pos) == Step(Done(left), pos, [])
  {
  }

  /** A level's loop fails as the operand after a matched operator fails. */
  lemma LoopFails(ts: seq<Token>, l: Level, left: Expr, pos: nat)
    requires At(ts, pos) && Matches(ts, pos, Operators(l))
    requires !POperand(ts, pos + 1, l).res.Done?
    ensures PLoop(ts, l, left, pos) == POperand(ts, pos + 1, l)
  {
  }

  /** After a matched operator and its operand, the loop carries on with the combined node. */
  lemma LoopContinues(ts: seq<Token>, l: Level, left: Expr, pos: nat, right: Expr)
    requires At(ts, pos) && Matches(ts, pos, Operators(l))
    requires POperand(ts, pos + 1, l).res == Done(right)
    ensures var operand := POperand(ts, pos + 1, l);
      PLoop(ts, l, left, pos) == Extend(operand.diags, PLoop(ts, l, Combine(l, left, ts[pos], right), operand.next))
  {
  }

  /**
    unary: `!` or `-` followed by a PRIMARY (the source's loop returns in its
    first iteration and does not recurse into unary), or else a primary.
    When the operand fails, Go returns the partial `Unary` tree together with
    the error (chapter-10/glox/lox/parser.go:372); `SyntaxError` carries no
    tree, so the model drops it. Nothing can see the difference: `factor`
    discards the value whenever an error comes back (parser.go:352-354, 359-361).
  */
  function PUnary(ts: seq<Token>, pos: nat): (r: Step<Expr>)
    requires At(ts, pos)
    decreases |ts| - pos, 2
    ensures pos < r.next < |ts| || (r.res.SyntaxError? && pos <= r.next < |ts|)
    ensures !r.res.Diverges? && (r.res.SyntaxError? ==> r.diags != [])
  {
    if Matches(ts, pos, [Bang, Minus]) then
      var operand := PPrimary(ts, pos + 1);
      if operand.res.Done? then Step(Done(Unary(ts[pos], operand.res.value)), operand.next, operand.diags)
      else operand
    else PPrimary(ts, pos)
  }

  /**
    primary: a literal, a variable, or a parenthesised expression. When the
    inner expression fails or the `)` is missing, Go returns a partial
    `Grouping` tree together with the error
    (chapter-10/glox/lox/parser.go:396, 399); the model drops that tree, which
    is unobservable because `factor` discards the value on an error
    (parser.go:352-354, 359-361).
  */
  function PPrimary(ts: seq<Token>, pos: nat): (r: Step<Expr>)
    requires At(ts, pos)
    decreases |ts| - pos, 1
    ensures pos < r.next < |ts| || (r.res.SyntaxError? && pos <= r.next < |ts|)
    ensures !r.res.Diverges? && (r.res.SyntaxError? ==> r.diags != [])
  {
    if Matches(ts, pos, [FalseKeyword]) then Step(Done(Literal(Bool(false))), pos + 1, [])
    else if Matches(ts, pos, [TrueKeyword]) then Step(Done(Literal(Bool(true))), pos + 1, [])
    else if Matches(ts, pos, [NilKeyword]) then Step(Done(Literal(Nil)), pos + 1, [])
    else if Matches(ts, pos, [NumberToken, StringToken]) then Step(Done(Literal(ts[pos].literal)), pos + 1, [])
    else if Matches(ts, pos, [Identifier]) then Step(Done(Variable(ts[pos])), pos + 1, [])
    else if Matches(ts, pos, [LeftParen]) then
      var inner := PExpression(ts, pos + 1);
      if !inner.res.Done? then inner
      else
        var close := Consume(ts, inner.next, RightParen, ExpectCloseAfterExpression);
        Extend(inner.diags, Finish(close, Grouping(inner.res.value)))
    else Step(SyntaxError, pos, [Diagnostic(ts[pos], ExpectExpression)])
  }

  // ---------------------------------------------------------------------
  // Every parsed expression is shaped: precedence and associativity

  lemma {:induction false} ExpressionShaped(ts: seq<Token>, pos: nat)
    requires At(ts, pos)
    decreases |ts| - pos, 31
    ensures var r := PExpression(ts, pos); r.res.Done? ==> Shaped(r.res.value)
  {
    AssignmentShaped(ts, pos);
  }

  lemma {:induction false} AssignmentShaped(ts: seq<Token>, pos: nat)
    requires At(ts, pos)
    decreases |ts| - pos, 30
    ensures var r := PAssignment(ts, pos); r.res.Done? ==> Shaped(r.res.value)
  {
    var left := PBinaryLevel(ts, pos, OrLevel);
    BinaryLevelShaped(ts, pos, OrLevel);
    if left.res.Done? && Matches(ts, left.next, [Equal]) {
      AssignmentShaped(ts, left.next + 1);
      AssignToShaped(ts[left.next], left.res.value, PAssignment(ts, left.next + 1));
    }
  }

  lemma AssignToShaped(equals: Token, target: Expr, value: Step<Expr>)
    requires Shaped(target) && (value.res.Done? ==> Shaped(value.res.value))
    ensures var r := AssignTo(equals, target, value); r.res.Done? ==> Shaped(r.res.value)
  {
  }

  lemma {:induction false} BinaryLevelShaped(ts: seq<Token>, pos: nat, l: Level)
    requires At(ts, pos)
    decreases |ts| - pos, Rank(l) + 3
    ensures var r := PBinaryLevel(ts, pos, l);
      r.res.Done? ==> Shaped(r.res.value) && Prec(r.res.value) >= LevelPrec(l)
  {
    var first := POperand(ts, pos, l);
    OperandShaped(ts, pos, l);
    if first.res.Done? {
      LoopShaped(ts, l, first.res.value, first.next);
    }
  }

  lemma {:induction false} OperandShaped(ts: seq<Token>, pos: nat, l: Level)
    requires At(ts, pos)
    decreases |ts| - pos, Rank(l) + 1
    ensures var r := POperand(ts, pos, l);
      r.res.Done? ==> Shaped(r.res.value) && Prec(r.res.value) > LevelPrec(l)
  {
    if l == FactorLevel {
      UnaryShaped(ts, pos);
    } else {
      BinaryLevelShaped(ts, pos, Tighter(l));
    }
  }

  lemma {:induction false} LoopShaped(ts: seq<Token>, l: Level, left: Expr, pos: nat)
    requires At(ts, pos)
    requires Shaped(left) && Prec(left) >= LevelPrec(l)
    decreases |ts| - pos, Rank(l) + 2
    ensures var r := PLoop(ts, l, left, pos);
      r.res.Done? ==> Shaped(r.res.value) && Prec(r.res.value) >= LevelPrec(l)
  {
    if Matches(ts, pos, Operators(l)) {
      var right := POperand(ts, pos + 1, l);
      OperandShaped(ts, pos + 1, l);
      if right.res.Done? {
        CombineShaped(l, left, ts[pos], right.res.value);
        LoopShaped(ts, l, Combine(l, left, ts[pos], right.res.value), right.next);
      }
    }
  }

  lemma {:induction false} UnaryShaped(ts: seq<Token>, pos: nat)
    requires At(ts, pos)
    decreases |ts| - pos, 2
    ensures var r := PUnary(ts, pos); r.res.Done? ==> Shaped(r.res.value) && Prec(r.res.value) >= 8
  {
    if Matches(ts, pos, [Bang, Minus]) {
      PrimaryShaped(ts, pos + 1);
    } else {
      PrimaryShaped(ts, pos);
    }
  }

  lemma {:induction false} PrimaryShaped(ts: seq<Token>, pos: nat)
    requires At(ts, pos)
    decreases |ts| - pos, 1
    ensures var r := PPrimary(ts, pos); r.res.Done? ==> Shaped(r.res.value) && Prec(r.res.value) == 9
  {
    if Matches(ts, pos, [LeftParen]) {
      ExpressionShaped(ts, pos + 1);
    }
  }

  // ---------------------------------------------------------------------
  // Statements

  /** A result carried into the Option the caller stores (a clause that may be absent). */
  function Lift<T>(s: Step<T>): (r: Step<Option<T>>)
    ensures r.next == s.next && r.diags == s.diags
    ensures r.res.Done? <==> s.res.Done?
    ensures r.res.Diverges? <==> s.res.Diverges?
    ensures r.res.Done? ==> r.res.value == Some(s.res.value)
  {
    match s.res
    case Done(v) => Step(Done(Some(v)), s.next, s.diags)
    case SyntaxError => Step(SyntaxError, s.next, s.diags)
    case Diverges => Step(Diverges, s.next, s.diags)
  }

  /** The loop of a desugared `for`: the statement itself, or the second statement of the block an initializer puts it in. */
  function ForLoop(r: Stmt): Stmt {
    if r.Block? && |r.statements| == 2 && r.statements[1].Some? then r.statements[1].value else r
  }

  /** The condition a `for` loop tests: the condition clause, or `true` when the clause is empty. */
  function LoopCondition(condition: Option<Expr>): Expr {
    if condition.Some? then condition.value else Literal(Bool(true))
  }

  /**
    The `for` desugaring: the loop is a While that tests the condition, or
    `true` when there is none; an increment runs after the body, in a block
    with it; an initializer puts the loop in a block after it.
  */
  function DesugarFor(initializer: Option<Stmt>, condition: Option<Expr>, increment: Option<Expr>, body: Stmt): (r: Stmt)
    ensures ForLoop(r).While? && ForLoop(r).cond == Some(LoopCondition(condition))
    ensures increment.Some? ==> ForLoop(r).body == Block([Some(body), Some(Expression(increment.value))])
    ensures increment.None? ==> ForLoop(r).body == body
    ensures initializer.None? ==> r == ForLoop(r)
    ensures initializer.Some? ==> r == Block([initializer, Some(ForLoop(r))])
  {
    var body1 := if increment.Some? then Block([Some(body), Some(Expression(increment.value))]) else body;
    var condition1 := if condition.Some? then condition.value else Literal(Bool(true));
    var loop := While(Some(condition1), body1);
    if initializer.Some? then Block([initializer, Some(loop)]) else loop
  }

  /**
    The desugared statement gives back the clauses it was made from when both
    had an increment; a missing condition and the condition `true` give the
    same loop.
  */
  lemma {:induction false} DesugarForRecovers(
    initializer: Option<Stmt>, condition: Option<Expr>, increment: Expr, body: Stmt,
    initializer': Option<Stmt>, condition': Option<Expr>, increment': Expr, body': Stmt)
    requires DesugarFor(initializer, condition, Some(increment), body) == DesugarFor(initializer', condition', Some(increment'), body')
    ensures initializer == initializer' && increment == increment' && body == body'
    ensures LoopCondition(condition) == LoopCondition(condition')
  {
    var r := DesugarFor(initializer, condition, Some(increment), body);
    assert ForLoop(r).body == Block([Some(body), Some(Expression(increment))]);
    assert ForLoop(r).body == Block([Some(body'), Some(Expression(increment'))]);
    assert ForLoop(r).body.statements[0] == Some(body) == Some(body');
    if initializer.Some? {
      assert r.statements[0] == initializer;
    }
    if initializer'.Some? {
      assert r.statements[0] == initializer';
    }
  }

  /** A list of declarations parsed so far, in front of the rest. */
  function Prepend(items: seq<Option<Stmt>>, s: Step<seq<Option<Stmt>>>): Step<seq<Option<Stmt>>> {
    if s.res.Done? then With(s, Done(items + s.res.value)) else s
  }

  /**
    Parse: declarations until EOF. Every declaration's result is appended,
    including the `None` of a failed one; a declaration that consumes nothing
    makes the source loop for ever.
  */
  function PProgram(ts: seq<Token>, pos: nat): (r: Step<seq<Option<Stmt>>>)
    requires At(ts, pos)
    decreases |ts| - pos, 48
    ensures pos <= r.next < |ts|
    ensures !r.res.SyntaxError?
    ensures r.res.Done? ==> IsAtEnd(ts, r.next)
    ensures r.res.Diverges? ==> r.diags != []
    ensures r.res.Done? && None in r.res.value ==> r.diags != []
  {
    if IsAtEnd(ts, pos) then Step(Done([]), pos, [])
    else
      var d := PDeclaration(ts, pos);
      if !d.res.Done? then Fail(d)
      else if d.next == pos then With(d, Diverges)
      else Extend(d.diags, Prepend([d.res.value], PProgram(ts, d.next)))
  }

  /** Parse's loop ends at EOF with nothing more to add. */
  lemma ProgramStops(ts: seq<Token>, pos: nat)
    requires At(ts, pos) && IsAtEnd(ts, pos)
    ensures PProgram(ts, pos) == Step(Done([]), pos, [])
  {
  }

  /** One turn of Parse's loop: a declaration, then the rest of the program. */
  lemma ProgramStep(ts: seq<Token>, pos: nat)
    requires At(ts, pos) && !IsAtEnd(ts, pos)
    ensures var d := PDeclaration(ts, pos);
      && (!d.res.Done? ==> PProgram(ts, pos) == Fail(d))
      && (d.res.Done? && d.next == pos ==> PProgram(ts, pos) == With(d, Diverges))
      && (d.res.Done? && d.next != pos ==>
            PProgram(ts, pos) == Extend(d.diags, Prepend([d.res.value], PProgram(ts, d.next))))
  {
  }

  lemma PrependNothing(s: Step<seq<Option<Stmt>>>)
    ensures Prepend([], s) == s
  {
    if s.res.Done? {
      assert [] + s.res.value == s.res.value;
    }
  }

  /** A loop that stops adds nothing to what it has parsed and reported. */
  lemma PrependFinished(diags: seq<Diagnostic>, acc: seq<Option<Stmt>>, pos: nat)
    ensures Extend(diags, Prepend(acc, Step(Done([]), pos, []))) == Step(Done(acc), pos, diags)
  {
    assert acc + [] == acc;
    assert diags + [] == diags;
  }

  /** Appending one more declaration to those parsed so far. */
  lemma PrependOne(acc: seq<Option<Stmt>>, diags: seq<Diagnostic>, item: Option<Stmt>, s: Step<seq<Option<Stmt>>>)
    ensures Prepend(acc, Extend(diags, Prepend([item], s))) == Extend(diags, Prepend(acc + [item], s))
  {
    if s.res.Done? {
      assert acc + ([item] + s.res.value) == (acc + [item]) + s.res.value;
    }
  }

  /**
    declaration: a `var` declaration or a statement. A failure is reported
    already; `synchronize` skips nothing, and the result is `None` with no error.
  */
  function PDeclaration(ts: seq<Token>, pos: nat): (r: Step<Option<Stmt>>)
    requires At(ts, pos)
    decreases |ts| - pos, 45
    ensures pos <= r.next < |ts|
    ensures !r.res.SyntaxError?
    ensures r.res.Done? && r.res.value.Some? ==> pos < r.next
    ensures (r.res.Diverges? || (r.res.Done? && r.res.value.None?)) ==> r.diags != []
  {
    var s := if Matches(ts, pos, [VarKeyword]) then PVarDeclaration(ts, pos + 1) else PStatement(ts, pos);
    match s.res
    case Done(stmt) => With(s, Done(Some(stmt)))
    case SyntaxError => With(s, Done(None))
    case Diverges => With(s, Diverges)
  }

  /** varDeclaration, entered after `var`: a name, an optional `= initializer`, then `;`. */
  function PVarDeclaration(ts: seq<Token>, pos: nat): (r: Step<Stmt>)
    requires At(ts, pos)
    decreases |ts| - pos, 41
    ensures pos <= r.next < |ts|
    ensures r.res.Done? ==> pos < r.next
    ensures !r.res.Done? ==> r.res.SyntaxError? && r.diags != []
  {
    var name := Consume(ts, pos, Identifier, ExpectVariableName);
    if !name.res.Done? then Fail(name)
    else
      var init := POptionalInitializer(ts, pos + 1);
      if !init.res.Done? then Fail(init)
      else
        var semi := Consume(ts, init.next, Semicolon, ExpectSemicolonAfterDeclaration);
        Extend(init.diags, Finish(semi, Var(ts[pos], init.res.value)))
  }

  /** The optional `= expression` of a variable declaration. */
  function POptionalInitializer(ts: seq<Token>, pos: nat): (r: Step<Option<Expr>>)
    requires At(ts, pos)
    decreases |ts| - pos, 32
    ensures pos <= r.next < |ts|
    ensures !r.res.Diverges? && (r.res.SyntaxError? ==> r.diags != [])
  {
    if Matches(ts, pos, [Equal]) then Lift(PExpression(ts, pos + 1)) else Step(Done(None), pos, [])
  }

  /** statement: dispatch on the leading keyword, else an expression statement. */
  function PStatement(ts: seq<Token>, pos: nat): (r: Step<Stmt>)
    requires At(ts, pos)
    decreases |ts| - pos, 44
    ensures pos <= r.next < |ts|
    ensures r.res.Done? ==> pos < r.next
    ensures !r.res.Done? ==> r.diags != []
  {
    if Matches(ts, pos, [ForKeyword]) then PFor(ts, pos + 1)
    else if Matches(ts, pos, [IfKeyword]) then PIf(ts, pos + 1)
    else if Matches(ts, pos, [WhileKeyword]) then PWhile(ts, pos + 1)
    else if Matches(ts, pos, [PrintKeyword]) then PPrint(ts, pos + 1)
    else if Matches(ts, pos, [LeftBrace]) then PBlock(ts, pos + 1)
    else PExpressionStatement(ts, pos)
  }

  /** forStatement, entered after `for`: `(`, then the three clauses and the body. */
  function PFor(ts: seq<Token>, pos: nat): (r: Step<Stmt>)
    requires At(ts, pos)
    decreases |ts| - pos, 43
    ensures pos <= r.next < |ts|
    ensures r.res.Done? ==> pos < r.next
    ensures !r.res.Done? ==> r.diags != []
  {
    var open := Consume(ts, pos, LeftParen, ExpectOpenAfterFor);
    if !open.res.Done? then Fail(open)
    else
      var init := PForInitializer(ts, pos + 1);
      if !init.res.Done? then Fail(init)
      else Extend(init.diags, PForCondition(ts, init.next, init.res.value))
  }

  /** The initializer clause: nothing before `;`, a `var` declaration, or an expression statement. */
  function PForInitializer(ts: seq<Token>, pos: nat): (r: Step<Option<Stmt>>)
    requires At(ts, pos)
    decreases |ts| - pos, 42
    ensures pos < r.next < |ts| || (!r.res.Done? && pos <= r.next < |ts|)
    ensures !r.res.Done? ==> r.res.SyntaxError? && r.diags != []
  {
    if Matches(ts, pos, [Semicolon]) then Step(Done(None), pos + 1, [])
    else if Matches(ts, pos, [VarKeyword]) then Lift(PVarDeclaration(ts, pos + 1))
    else Lift(PExpressionStatement(ts, pos))
  }

  /** A condition or increment clause: absent if the current token is `;`, else an expression. */
  function PForClause(ts: seq<Token>, pos: nat): (r: Step<Option<Expr>>)
    requires At(ts, pos)
    decreases |ts| - pos, 32
    ensures pos <= r.next < |ts|
    ensures !r.res.Done? ==> r.res.SyntaxError? && r.diags != []
  {
    if Check(ts, pos, Semicolon) then Step(Done(None), pos, []) else Lift(PExpression(ts, pos))
  }

  /** After the initializer: the condition clause and its `;`. */
  function PForCondition(ts: seq<Token>, pos: nat, init: Option<Stmt>): (r: Step<Stmt>)
    requires At(ts, pos)
    decreases |ts| - pos, 42
    ensures pos <= r.next < |ts|
    ensures r.res.Done? ==> pos < r.next
    ensures !r.res.Done? ==> r.diags != []
  {
    var cond := PForClause(ts, pos);
    if !cond.res.Done? then Fail(cond)
    else
      var semi := Consume(ts, cond.next, Semicolon, ExpectSemicolonAfterLoopCondition);
      if !semi.res.Done? then Extend(cond.diags, Fail(semi))
      else Extend(cond.diags, PForIncrement(ts, semi.next, init, cond.res.value))
  }

  /**
    After the condition: the increment clause, `)` and the body. As written,
    the increment is parsed unless the current token is `;` (not `)`), so an
    empty increment `for (...; ...;)` reaches `expression` at `)`.
  */
  function PForIncrement(ts: seq<Token>, pos: nat, init: Option<Stmt>, cond: Option<Expr>): (r: Step<Stmt>)
    requires At(ts, pos)
    decreases |ts| - pos, 42
    ensures pos <= r.next < |ts|
    ensures r.res.Done? ==> pos < r.next
    ensures !r.res.Done? ==> r.diags != []
  {
    var incr := PForClause(ts, pos);
    if !incr.res.Done? then Fail(incr)
    else
      var close := Consume(ts, incr.next, RightParen, ExpectCloseAfterForClauses);
      if !close.res.Done? then Extend(incr.diags, Fail(close))
      else
        var body := PStatement(ts, close.next);
        if !body.res.Done? then Extend(incr.diags, Fail(body))
        else Extend(incr.diags, With(body, Done(DesugarFor(init, cond, incr.res.value, body.res.value))))
  }

  /**
    ifStatement, entered after `if`. As written, the error of the `)` after
    the condition is overwritten before it is tested: the diagnostic is
    reported and parsing continues with the then-branch.
  */
  function PIf(ts: seq<Token>, pos: nat): (r: Step<Stmt>)
    requires At(ts, pos)
    decreases |ts| - pos, 43
    ensures pos <= r.next < |ts|
    ensures r.res.Done? ==> pos < r.next
    ensures !r.res.Done? ==> r.diags != []
  {
    var open := Consume(ts, pos, LeftParen, ExpectOpenAfterIf);
    if !open.res.Done? then Fail(open)
    else
      var cond := PExpression(ts, pos + 1);
      if !cond.res.Done? then Fail(cond)
      else
        var close := Consume(ts, cond.next, RightParen, ExpectCloseAfterIfCondition);
        Extend(cond.diags, Extend(close.diags, PIfBranches(ts, close.next, cond.res.value)))
  }

  /** The branches of an if statement: a statement, then optionally `else` and another. */
  function PIfBranches(ts: seq<Token>, pos: nat, cond: Expr): (r: Step<Stmt>)
    requires At(ts, pos)
    decreases |ts| - pos, 45
    ensures pos <= r.next < |ts|
    ensures r.res.Done? ==> pos < r.next
    ensures !r.res.Done? ==> r.diags != []
  {
    var thenBranch := PStatement(ts, pos);
    if !thenBranch.res.Done? then Fail(thenBranch)
    else if Matches(ts, thenBranch.next, [ElseKeyword]) then
      Extend(thenBranch.diags, PElse(ts, thenBranch.next + 1, cond, thenBranch.res.value))
    else With(thenBranch, Done(If(cond, thenBranch.res.value, None)))
  }

  /** The statement after `else`, completing the if statement with both branches. */
  function PElse(ts: seq<Token>, pos: nat, cond: Expr, thenBranch: Stmt): (r: Step<Stmt>)
    requires At(ts, pos)
    decreases |ts| - pos, 45
    ensures pos <= r.next < |ts|
    ensures r.res.Done? ==> pos < r.next
    ensures !r.res.Done? ==> r.diags != []
  {
    var elseBranch := PStatement(ts, pos);
    if !elseBranch.res.Done? then Fail(elseBranch)
    else With(elseBranch, Done(If(cond, thenBranch, Some(elseBranch.res.value))))
  }

  /**
    whileStatement, entered after `while`. As written, the condition's error
    is overwritten by the `)` check: a condition that fails to parse is
    reported and the loop is built with no condition.
  */
  function PWhile(ts: seq<Token>, pos: nat): (r: Step<Stmt>)
    requires At(ts, pos)
    decreases |ts| - pos, 43
    ensures pos <= r.next < |ts|
    ensures r.res.Done? ==> pos < r.next
    ensures !r.res.Done? ==> r.diags != []
  {
    var open := Consume(ts, pos, LeftParen, ExpectOpenAfterWhile);
    if !open.res.Done? then Fail(open)
    else
      var cond := PExpression(ts, pos + 1);
      var condition := if cond.res.Done? then Some(cond.res.value) else None;
      var close := Consume(ts, cond.next, RightParen, ExpectCloseAfterWhileCondition);
      if !close.res.Done? then Extend(cond.diags, Fail(close))
      else
        var body := PStatement(ts, close.next);
        if !body.res.Done? then Extend(cond.diags, Fail(body))
        else Extend(cond.diags, With(body, Done(While(condition, body.res.value))))
  }

  /** blockStatement, entered after `{`: declarations, then `}`. */
  function PBlock(ts: seq<Token>, pos: nat): (r: Step<Stmt>)
    requires At(ts, pos)
    decreases |ts| - pos, 47
    ensures pos <= r.next < |ts|
    ensures r.res.Done? ==> pos < r.next
    ensures !r.res.Done? ==> r.diags != []
  {
    var items := PBlockItems(ts, pos);
    if !items.res.Done? then Fail(items)
    else
      var close := Consume(ts, items.next, RightBrace, ExpectCloseBraceAfterBlock);
      Extend(items.diags, Finish(close, Block(items.res.value)))
  }

  /** The loop of blockStatement: declarations while the current token is neither `}` nor EOF. */
  function PBlockItems(ts: seq<Token>, pos: nat): (r: Step<seq<Option<Stmt>>>)
    requires At(ts, pos)
    decreases |ts| - pos, 46
    ensures pos <= r.next < |ts|
    ensures r.res.Done? ==> Check(ts, r.next, RightBrace) || IsAtEnd(ts, r.next)
    ensures !r.res.Done? ==> r.diags != []
  {
    if Check(ts, pos, RightBrace) || IsAtEnd(ts, pos) then Step(Done([]), pos, [])
    else
      var d := PDeclaration(ts, pos);
      if !d.res.Done? then Fail(d)
      else if d.next == pos then With(d, Diverges)
      else Extend(d.diags, Prepend([d.res.value], PBlockItems(ts, d.next)))
  }

  /** The block's loop ends at `}` or EOF with nothing more to add. */
  lemma BlockItemsStop(ts: seq<Token>, pos: nat)
    requires At(ts, pos) && (Check(ts, pos, RightBrace) || IsAtEnd(ts, pos))
    ensures PBlockItems(ts, pos) == Step(Done([]), pos, [])
  {
  }

  /** One turn of the block's loop: a declaration, then the rest of the block. */
  lemma BlockItemsStep(ts: seq<Token>, pos: nat)
    requires At(ts, pos) && !(Check(ts, pos, RightBrace) || IsAtEnd(ts, pos))
    ensures var d := PDeclaration(ts, pos);
      && (!d.res.Done? ==> PBlockItems(ts, pos) == Fail(d))
      && (d.res.Done? && d.next == pos ==> PBlockItems(ts, pos) == With(d, Diverges))
      && (d.res.Done? && d.next != pos ==>
            PBlockItems(ts, pos) == Extend(d.diags, Prepend([d.res.value], PBlockItems(ts, d.next))))
  {
  }

  /** printStatement, entered after `print`: an expression, then `;`. */
  function PPrint(ts: seq<Token>, pos: nat): (r: Step<Stmt>)
    requires At(ts, pos)
    decreases |ts| - pos, 40
    ensures pos <= r.next < |ts|
    ensures r.res.Done? ==> pos < r.next
    ensures !r.res.Done? ==> r.res.SyntaxError? && r.diags != []
  {
    var value := PExpression(ts, pos);
    if !value.res.Done? then Fail(value)
    else
      var semi := Consume(ts, value.next, Semicolon, ExpectSemicolonAfterValue);
      Extend(value.diags, Finish(semi, Print(value.res.value)))
  }

  /** expressionStatement: an expression, then `;`. */
  function PExpressionStatement(ts: seq<Token>, pos: nat): (r: Step<Stmt>)
    requires At(ts, pos)
    decreases |ts| - pos, 40
    ensures pos <= r.next < |ts|
    ensures r.res.Done? ==> pos < r.next
    ensures !r.res.Done? ==> r.res.SyntaxError? && r.diags != []
  {
    var value := PExpression(ts, pos);
    if !value.res.Done? then Fail(value)
    else
      var semi := Consume(ts, value.next, Semicolon, ExpectSemicolonAfterExpression);
      Extend(value.diags, Finish(semi, Expression(value.res.value)))
  }
}
