/**
  The converse of the shape lemmas of module Grammar: every shaped
  expression tree is what the expression parser of
  chapter-10/glox/lox/parser.go builds from the tokens that spell it out.

  `Unparse` writes a tree back as tokens: operands around their operator,
  `(` and `)` around a grouping, the name and `=` in front of an assigned
  value. Parsing those tokens, followed by any token that cannot continue an
  expression, gives the tree back with no diagnostics. Together with the
  shape lemmas this says that the trees the parser builds are exactly the
  shaped ones, so precedence and associativity are decided by the grammar
  alone.
*/
module Unparse {
  import opened Wrappers
  import opened Values
  import opened Tokens
  import opened Ast
  import opened Grammar

  /** A token the scanner would give for a literal; the parser reads only its type and payload. */
  function LiteralToken(v: Value): (t: Token)
    ensures t.kind in [NilKeyword, TrueKeyword, FalseKeyword, NumberToken, StringToken]
  {
    match v
    case Nil => Token(NilKeyword, "nil", Nil, 0)
    case Bool(b) => if b then Token(TrueKeyword, "true", Nil, 0) else Token(FalseKeyword, "false", Nil, 0)
    case Number(_) => Token(NumberToken, "", v, 0)
    case Str(s) => Token(StringToken, "\"" + s + "\"", v, 0)
  }

  const OpenParen := Token(LeftParen, "(", Nil, 0)
  const CloseParen := Token(RightParen, ")", Nil, 0)
  const Equals := Token(Equal, "=", Nil, 0)
  const EndOfFile := Token(Eof, "", Nil, 0)

  /** The tokens that spell an expression out, in source order. */
  function Unparse(e: Expr): (u: seq<Token>)
    ensures |u| > 0
  {
    match e
    case Assign(name, value) => [name, Equals] + Unparse(value)
    case Binary(left, operator, right) => Unparse(left) + [operator] + Unparse(right)
    case Logical(left, operator, right) => Unparse(left) + [operator] + Unparse(right)
    case Grouping(inner) => [OpenParen] + Unparse(inner) + [CloseParen]
    case Unary(operator, right) => [operator] + Unparse(right)
    case Literal(value) => [LiteralToken(value)]
    case Variable(name) => [name]
  }

  /** The token types an expression can begin with: a literal, a name, `(`, `!` or `-`. */
  predicate StartsExpression(k: TokenType) {
    k in [FalseKeyword, TrueKeyword, NilKeyword, NumberToken, StringToken, Identifier, LeftParen, Bang, Minus]
  }

  /** A shaped expression is spelled starting with a token that can begin an expression. */
  lemma {:induction false} UnparseStarts(e: Expr)
    requires Shaped(e)
    ensures StartsExpression(Unparse(e)[0].kind)
  {
    match e
    case Binary(left, _, _) =>
      UnparseStarts(left);
      assert Unparse(e)[0] == Unparse(left)[0];
    case Logical(left, _, _) =>
      UnparseStarts(left);
      assert Unparse(e)[0] == Unparse(left)[0];
    case _ =>
  }

  /** The tokens `u` sit in `ts` starting at `pos`. */
  predicate Occurs(ts: seq<Token>, pos: nat, u: seq<Token>) {
    pos + |u| <= |ts| && forall i :: 0 <= i < |u| ==> ts[pos + i] == u[i]
  }

  lemma {:induction false} OccursSplit(ts: seq<Token>, pos: nat, a: seq<Token>, b: seq<Token>)
    requires Occurs(ts, pos, a + b)
    ensures Occurs(ts, pos, a) && Occurs(ts, pos + |a|, b)
  {
    forall i | 0 <= i < |a|
      ensures ts[pos + i] == a[i]
    {
      assert (a + b)[i] == a[i];
    }
    forall i | 0 <= i < |b|
      ensures ts[pos + |a| + i] == b[i]
    {
      assert (a + b)[|a| + i] == b[i];
    }
  }

  lemma {:induction false} OccursFirst(ts: seq<Token>, pos: nat, u: seq<Token>)
    requires Occurs(ts, pos, u) && |u| > 0
    ensures ts[pos] == u[0]
  {
    assert ts[pos + 0] == u[0];
  }

  /** Token type `k` cannot continue an expression of level `l`: it is no operator of `l` or of a tighter level. */
  predicate EndsLevel(k: TokenType, l: Level) {
    OperatorLevel(k).None? || LevelPrec(OperatorLevel(k).value) <= LevelPrec(l)
  }

  /** Token type `k` cannot continue any expression: no binary operator and no `=`. */
  predicate EndsExpression(k: TokenType) {
    OperatorLevel(k).None? && k != Equal
  }

  /** The shaped expression `e` is spelled out in the valid tokens `ts` from `pos`, with a token after it. */
  predicate Spelled(ts: seq<Token>, pos: nat, e: Expr) {
    ValidTokens(ts) && Shaped(e) && Occurs(ts, pos, Unparse(e)) && pos + |Unparse(e)| < |ts|
  }

  lemma {:induction false} TighterPrec(l: Level)
    requires l != FactorLevel
    ensures LevelPrec(Tighter(l)) == LevelPrec(l) + 1
  {
  }

  lemma {:induction false} ExtendNothing<T>(s: Step<T>)
    ensures Extend([], s) == s
  {
    assert [] + s.diags == s.diags;
  }

  // ---------------------------------------------------------------------
  // Where the parts of a spelled expression sit

  /** A shaped expression binding exactly as tightly as a level is that level's node over its operands. */
  lemma {:induction false} SplitAtLevel(e: Expr, l: Level)
    requires Shaped(e) && Prec(e) == LevelPrec(l)
    ensures (e.Binary? || e.Logical?) && e.operator.kind in Operators(l)
    ensures e == Combine(l, e.left, e.operator, e.right)
    ensures Shaped(e.left) && Prec(e.left) >= LevelPrec(l) && Shaped(e.right) && Prec(e.right) > LevelPrec(l)
    ensures Unparse(e) == Unparse(e.left) + [e.operator] + Unparse(e.right)
  {
    var k := OperatorLevel(e.operator.kind).value;
    assert LevelPrec(k) == LevelPrec(l);
    assert k == l;
  }

  /** A level's node: its left operand, then its operator at `split`, then its right operand, which ends where the node ends. */
  lemma {:induction false} SpelledCombine(ts: seq<Token>, pos: nat, e: Expr, l: Level, end: nat) returns (split: nat)
    requires Spelled(ts, pos, e) && Prec(e) == LevelPrec(l) && end == pos + |Unparse(e)|
    ensures (e.Binary? || e.Logical?) && split == pos + |Unparse(e.left)|
    ensures e == Combine(l, e.left, ts[split], e.right)
    ensures Spelled(ts, pos, e.left) && Prec(e.left) >= LevelPrec(l)
    ensures At(ts, split) && Matches(ts, split, Operators(l)) && EndsLevel(ts[split].kind, l)
    ensures Spelled(ts, split + 1, e.right) && Prec(e.right) > LevelPrec(l)
    ensures end == split + 1 + |Unparse(e.right)|
  {
    SplitAtLevel(e, l);
    var left, operator, right := e.left, e.operator, e.right;
    split := pos + |Unparse(left)|;
    OccursSplit(ts, pos, Unparse(left) + [operator], Unparse(right));
    OccursSplit(ts, pos, Unparse(left), [operator]);
    OccursFirst(ts, split, [operator]);
    OperatorsHaveTheirLevel(l, operator.kind);
  }

  /** An assignment: the name, then `=`, then the value, which ends where the assignment ends. */
  lemma {:induction false} SpelledAssign(ts: seq<Token>, pos: nat, e: Expr, end: nat)
    requires Spelled(ts, pos, e) && e.Assign? && end == pos + |Unparse(e)|
    ensures Spelled(ts, pos, Variable(e.name)) && Prec(Variable(e.name)) == 9 && pos + 1 == pos + |Unparse(Variable(e.name))|
    ensures At(ts, pos + 1) && ts[pos + 1].kind == Equal && EndsLevel(ts[pos + 1].kind, OrLevel) && pos + 2 < |ts|
    ensures !Matches(ts, pos + 1, Operators(OrLevel))
    ensures Spelled(ts, pos + 2, e.value) && end == pos + 2 + |Unparse(e.value)|
  {
    OccursSplit(ts, pos, [e.name, Equals], Unparse(e.value));
    assert [e.name, Equals] == [e.name] + [Equals];
    OccursSplit(ts, pos, [e.name], [Equals]);
    OccursFirst(ts, pos + 1, [Equals]);
    assert Unparse(Variable(e.name)) == [e.name];
  }

  /** An expression other than an assignment binds at least as tightly as `or`, and what ends an expression ends `or`. */
  lemma {:induction false} EndsOrLevel(ts: seq<Token>, pos: nat, e: Expr, end: nat)
    requires Spelled(ts, pos, e) && !e.Assign? && end == pos + |Unparse(e)| && EndsExpression(ts[end].kind)
    ensures Prec(e) >= LevelPrec(OrLevel) && EndsLevel(ts[end].kind, OrLevel)
    ensures At(ts, end) && !Matches(ts, end, Operators(OrLevel)) && ts[end].kind != Equal
  {
    var k := ts[end].kind;
    if k in Operators(OrLevel) {
      OperatorsHaveTheirLevel(OrLevel, k);
    }
  }

  /** A grouping: `(`, the inner expression, then `)` at `close`, just before the end. */
  lemma {:induction false} SpelledGrouping(ts: seq<Token>, pos: nat, e: Expr, end: nat) returns (close: nat)
    requires Spelled(ts, pos, e) && e.Grouping? && end == pos + |Unparse(e)|
    ensures At(ts, pos) && ts[pos].kind == LeftParen
    ensures Spelled(ts, pos + 1, e.expression) && close == pos + 1 + |Unparse(e.expression)|
    ensures close < |ts| && ts[close].kind == RightParen && EndsExpression(ts[close].kind) && end == close + 1
  {
    close := pos + 1 + |Unparse(e.expression)|;
    OccursSplit(ts, pos, [OpenParen] + Unparse(e.expression), [CloseParen]);
    OccursSplit(ts, pos, [OpenParen], Unparse(e.expression));
    OccursFirst(ts, pos, [OpenParen]);
    OccursFirst(ts, close, [CloseParen]);
  }

  /** A unary node: its operator, then its primary operand. */
  lemma {:induction false} SpelledUnary(ts: seq<Token>, pos: nat, e: Expr, end: nat)
    requires Spelled(ts, pos, e) && e.Unary? && end == pos + |Unparse(e)|
    ensures At(ts, pos) && ts[pos] == e.operator && ts[pos].kind in [Bang, Minus]
    ensures Spelled(ts, pos + 1, e.right) && Prec(e.right) == 9
    ensures end == pos + 1 + |Unparse(e.right)|
  {
    OccursSplit(ts, pos, [e.operator], Unparse(e.right));
    OccursFirst(ts, pos, [e.operator]);
  }

  /** A literal or a variable is one token. */
  lemma {:induction false} SpelledToken(ts: seq<Token>, pos: nat, e: Expr)
    requires Spelled(ts, pos, e) && (e.Literal? || e.Variable?)
    ensures At(ts, pos) && |Unparse(e)| == 1
    ensures e.Literal? ==> ts[pos] == LiteralToken(e.literal)
    ensures e.Variable? ==> ts[pos] == e.name && ts[pos].kind == Identifier
  {
    OccursFirst(ts, pos, Unparse(e));
  }

  // ---------------------------------------------------------------------
  // Single steps of the parsers

  /** A level parses its first operand, then runs its loop. */
  lemma {:induction false} LevelUnfolds(ts: seq<Token>, pos: nat, l: Level)
    requires At(ts, pos) && POperand(ts, pos, l).res.Done?
    ensures var first := POperand(ts, pos, l);
      PBinaryLevel(ts, pos, l) == Extend(first.diags, PLoop(ts, l, first.res.value, first.next))
  {
  }

  lemma {:induction false} OperandUnfolds(ts: seq<Token>, pos: nat, l: Level)
    requires At(ts, pos)
    ensures POperand(ts, pos, l) == if l == FactorLevel then PUnary(ts, pos) else PBinaryLevel(ts, pos, Tighter(l))
  {
  }

  /** A loop at a level stops at a token that ends the level just looser than it. */
  lemma {:induction false} StopsTighter(ts: seq<Token>, l: Level, e: Expr, pos: nat)
    requires At(ts, pos) && l != FactorLevel && EndsLevel(ts[pos].kind, l)
    ensures PLoop(ts, Tighter(l), e, pos) == Step(Done(e), pos, [])
  {
    if Matches(ts, pos, Operators(Tighter(l))) {
      OperatorsHaveTheirLevel(Tighter(l), ts[pos].kind);
      assert false;
    }
    LoopStops(ts, Tighter(l), e, pos);
  }

  /** The loop takes an operator and an operand read without diagnostics, and carries on after them. */
  lemma {:induction false} LoopTakes(ts: seq<Token>, l: Level, left: Expr, pos: nat, right: Expr, node: Expr, end: nat)
    requires At(ts, pos) && Matches(ts, pos, Operators(l)) && node == Combine(l, left, ts[pos], right)
    requires POperand(ts, pos + 1, l) == Step(Done(right), end, [])
    ensures end < |ts| && PLoop(ts, l, left, pos) == PLoop(ts, l, node, end)
  {
    LoopContinues(ts, l, left, pos, right);
    ExtendNothing(PLoop(ts, l, node, end));
  }

  /** A level whose loop stops right after the expression yields the expression. */
  lemma {:induction false} LevelStops(ts: seq<Token>, pos: nat, l: Level, e: Expr, end: nat)
    requires At(ts, pos) && At(ts, end) && !Matches(ts, end, Operators(l))
    requires PBinaryLevel(ts, pos, l) == PLoop(ts, l, e, end)
    ensures PBinaryLevel(ts, pos, l) == Step(Done(e), end, [])
  {
    LoopStops(ts, l, e, end);
  }

  lemma {:induction false} AssignmentStores(ts: seq<Token>, pos: nat, name: Token, value: Expr, end: nat)
    requires At(ts, pos) && pos + 2 < |ts| && ts[pos + 1].kind == Equal
    requires PBinaryLevel(ts, pos, OrLevel) == Step(Done(Variable(name)), pos + 1, [])
    requires PAssignment(ts, pos + 2) == Step(Done(value), end, [])
    ensures PAssignment(ts, pos) == Step(Done(Assign(name, value)), end, [])
  {
    assert Matches(ts, pos + 1, [Equal]);
    var stored := PAssignment(ts, pos + 2);
    assert AssignTo(ts[pos + 1], Variable(name), stored) == Step(Done(Assign(name, value)), end, []);
    ExtendNothing(AssignTo(ts[pos + 1], Variable(name), stored));
  }

  lemma {:induction false} AssignmentWithoutEquals(ts: seq<Token>, pos: nat, e: Expr, end: nat)
    requires At(ts, pos) && end < |ts| && ts[end].kind != Equal
    requires PBinaryLevel(ts, pos, OrLevel) == Step(Done(e), end, [])
    ensures PAssignment(ts, pos) == Step(Done(e), end, [])
  {
    assert !Matches(ts, end, [Equal]);
  }

  lemma {:induction false} UnaryOperator(ts: seq<Token>, pos: nat, right: Expr, end: nat)
    requires At(ts, pos) && ts[pos].kind in [Bang, Minus] && pos + 1 < |ts|
    requires PPrimary(ts, pos + 1) == Step(Done(right), end, [])
    ensures PUnary(ts, pos) == Step(Done(Unary(ts[pos], right)), end, [])
  {
    assert Matches(ts, pos, [Bang, Minus]);
  }

  lemma {:induction false} UnaryPrimary(ts: seq<Token>, pos: nat)
    requires At(ts, pos) && ts[pos].kind !in [Bang, Minus]
    ensures PUnary(ts, pos) == PPrimary(ts, pos)
  {
    assert !Matches(ts, pos, [Bang, Minus]);
  }

  lemma {:induction false} PrimaryLiteral(ts: seq<Token>, pos: nat, v: Value)
    requires At(ts, pos) && ts[pos] == LiteralToken(v)
    ensures PPrimary(ts, pos) == Step(Done(Literal(v)), pos + 1, [])
  {
  }

  lemma {:induction false} PrimaryVariable(ts: seq<Token>, pos: nat)
    requires At(ts, pos) && ts[pos].kind == Identifier
    ensures PPrimary(ts, pos) == Step(Done(Variable(ts[pos])), pos + 1, [])
  {
  }

  lemma {:induction false} PrimaryGrouping(ts: seq<Token>, pos: nat, inner: Expr, close: nat, end: nat)
    requires At(ts, pos) && ts[pos].kind == LeftParen && close < |ts| && ts[close].kind == RightParen && end == close + 1
    requires pos + 1 < |ts| && PExpression(ts, pos + 1) == Step(Done(inner), close, [])
    ensures PPrimary(ts, pos) == Step(Done(Grouping(inner)), end, [])
  {
    assert Consume(ts, close, RightParen, ExpectCloseAfterExpression) == Step(Done(()), close + 1, []);
  }

  // ---------------------------------------------------------------------
  // Completeness, level by level

  /** The tokens of a shaped expression followed by an expression's end parse back to it. */
  lemma {:induction false} ExpressionComplete(ts: seq<Token>, pos: nat, e: Expr, end: nat)
    requires Spelled(ts, pos, e) && end == pos + |Unparse(e)| && EndsExpression(ts[end].kind)
    ensures PExpression(ts, pos) == Step(Done(e), end, [])
    decreases |Unparse(e)|, 26
  {
    AssignmentComplete(ts, pos, e, end);
  }

  lemma {:induction false} AssignmentComplete(ts: seq<Token>, pos: nat, e: Expr, end: nat)
    requires Spelled(ts, pos, e) && end == pos + |Unparse(e)| && EndsExpression(ts[end].kind)
    ensures PAssignment(ts, pos) == Step(Done(e), end, [])
    decreases |Unparse(e)|, 25
  {
    if e.Assign? {
      AssignComplete(ts, pos, e, end);
    } else {
      OrComplete(ts, pos, e, end);
    }
  }

  /** An assignment's tokens: the name is parsed as a variable at the `or` level, then `=` turns it into the target. */
  lemma {:induction false} AssignComplete(ts: seq<Token>, pos: nat, e: Expr, end: nat)
    requires Spelled(ts, pos, e) && e.Assign? && end == pos + |Unparse(e)| && EndsExpression(ts[end].kind)
    ensures PAssignment(ts, pos) == Step(Done(e), end, [])
    decreases |Unparse(e)|, 24
  {
    var target := Variable(e.name);
    SpelledAssign(ts, pos, e, end);
    AssignmentComplete(ts, pos + 2, e.value, end);
    LevelComplete(ts, pos, target, OrLevel, pos + 1);
    LevelStops(ts, pos, OrLevel, target, pos + 1);
    AssignmentStores(ts, pos, e.name, e.value, end);
  }

  /** Any other expression is read whole by the `or` level, and no `=` follows it. */
  lemma {:induction false} OrComplete(ts: seq<Token>, pos: nat, e: Expr, end: nat)
    requires Spelled(ts, pos, e) && !e.Assign? && end == pos + |Unparse(e)| && EndsExpression(ts[end].kind)
    ensures PAssignment(ts, pos) == Step(Done(e), end, [])
    decreases |Unparse(e)|, 24
  {
    EndsOrLevel(ts, pos, e, end);
    LevelComplete(ts, pos, e, OrLevel, end);
    LevelStops(ts, pos, OrLevel, e, end);
    AssignmentWithoutEquals(ts, pos, e, end);
  }

  /**
    Parsing a level at the tokens of a shaped expression that binds at least
    as tightly as the level, followed by a token that cannot continue a
    tighter level, is the level's loop resumed right after the expression.
  */
  lemma {:induction false} LevelComplete(ts: seq<Token>, pos: nat, e: Expr, l: Level, end: nat)
    requires Spelled(ts, pos, e) && Prec(e) >= LevelPrec(l) && end == pos + |Unparse(e)| && EndsLevel(ts[end].kind, l)
    ensures PBinaryLevel(ts, pos, l) == PLoop(ts, l, e, end)
    decreases |Unparse(e)|, 3 * (9 - LevelPrec(l)) + 2
  {
    if Prec(e) > LevelPrec(l) {
      TighterComplete(ts, pos, e, l, end);
    } else {
      CombineComplete(ts, pos, e, l, end);
    }
  }

  /** An expression binding more tightly than the level is the level's first operand. */
  lemma {:induction false} TighterComplete(ts: seq<Token>, pos: nat, e: Expr, l: Level, end: nat)
    requires Spelled(ts, pos, e) && Prec(e) > LevelPrec(l) && end == pos + |Unparse(e)| && EndsLevel(ts[end].kind, l)
    ensures PBinaryLevel(ts, pos, l) == PLoop(ts, l, e, end)
    decreases |Unparse(e)|, 3 * (9 - LevelPrec(l)) + 1
  {
    OperandComplete(ts, pos, e, l, end);
    LevelUnfolds(ts, pos, l);
    ExtendNothing(PLoop(ts, l, e, end));
  }

  /** A node of the level itself: the left operand is parsed by the same level, the loop then takes the operator and the right operand. */
  lemma {:induction false} CombineComplete(ts: seq<Token>, pos: nat, e: Expr, l: Level, end: nat)
    requires Spelled(ts, pos, e) && Prec(e) == LevelPrec(l) && end == pos + |Unparse(e)| && EndsLevel(ts[end].kind, l)
    ensures PBinaryLevel(ts, pos, l) == PLoop(ts, l, e, end)
    decreases |Unparse(e)|, 3 * (9 - LevelPrec(l)) + 1
  {
    var split := SpelledCombine(ts, pos, e, l, end);
    CombineParts(ts, pos, e.left, split, e.right, e, l, end);
  }

  /** The left operand read by the level up to the operator at `split`, then the operator and the right operand. */
  lemma {:induction false} CombineParts(ts: seq<Token>, pos: nat, left: Expr, split: nat, right: Expr, node: Expr, l: Level, end: nat)
    requires Spelled(ts, pos, left) && Prec(left) >= LevelPrec(l) && split == pos + |Unparse(left)|
    requires At(ts, split) && Matches(ts, split, Operators(l)) && EndsLevel(ts[split].kind, l)
    requires node == Combine(l, left, ts[split], right)
    requires Spelled(ts, split + 1, right) && Prec(right) > LevelPrec(l)
    requires end == split + 1 + |Unparse(right)| && EndsLevel(ts[end].kind, l)
    ensures PBinaryLevel(ts, pos, l) == PLoop(ts, l, node, end)
    decreases end - pos, 3 * (9 - LevelPrec(l))
  {
    TakesRight(ts, l, left, split, right, node, end);
    LevelComplete(ts, pos, left, l, split);
  }

  /** The level's loop, after a left operand, takes the operator and the spelled right operand. */
  lemma {:induction false} TakesRight(ts: seq<Token>, l: Level, left: Expr, split: nat, right: Expr, node: Expr, end: nat)
    requires At(ts, split) && Matches(ts, split, Operators(l)) && node == Combine(l, left, ts[split], right)
    requires Spelled(ts, split + 1, right) && Prec(right) > LevelPrec(l)
    requires end == split + 1 + |Unparse(right)| && EndsLevel(ts[end].kind, l)
    ensures end < |ts| && PLoop(ts, l, left, split) == PLoop(ts, l, node, end)
    decreases |Unparse(right)|, 3 * (9 - LevelPrec(l)) + 1
  {
    OperandComplete(ts, split + 1, right, l, end);
    LoopTakes(ts, l, left, split, right, node, end);
  }

  /** The operand parser of a level reads a shaped expression that binds more tightly than the level. */
  lemma {:induction false} OperandComplete(ts: seq<Token>, pos: nat, e: Expr, l: Level, end: nat)
    requires Spelled(ts, pos, e) && Prec(e) > LevelPrec(l) && end == pos + |Unparse(e)| && EndsLevel(ts[end].kind, l)
    ensures POperand(ts, pos, l) == Step(Done(e), end, [])
    decreases |Unparse(e)|, 3 * (9 - LevelPrec(l))
  {
    OperandUnfolds(ts, pos, l);
    if l == FactorLevel {
      UnaryComplete(ts, pos, e, end);
    } else {
      var tighter := Tighter(l);
      TighterPrec(l);
      assert EndsLevel(ts[end].kind, tighter);
      StopsTighter(ts, l, e, end);
      LevelComplete(ts, pos, e, tighter, end);
    }
  }

  lemma {:induction false} UnaryComplete(ts: seq<Token>, pos: nat, e: Expr, end: nat)
    requires Spelled(ts, pos, e) && Prec(e) >= 8 && end == pos + |Unparse(e)|
    ensures PUnary(ts, pos) == Step(Done(e), end, [])
    decreases |Unparse(e)|, 3
  {
    if e.Unary? {
      UnaryNodeComplete(ts, pos, e, end);
    } else {
      PrimaryFirst(ts, pos, e);
      UnaryPrimary(ts, pos);
      PrimaryComplete(ts, pos, e, end);
    }
  }

  /** A unary node: the operator, then the operand as a primary. */
  lemma {:induction false} UnaryNodeComplete(ts: seq<Token>, pos: nat, e: Expr, end: nat)
    requires Spelled(ts, pos, e) && e.Unary? && end == pos + |Unparse(e)|
    ensures PUnary(ts, pos) == Step(Done(e), end, [])
    decreases |Unparse(e)|, 2
  {
    SpelledUnary(ts, pos, e, end);
    PrimaryComplete(ts, pos + 1, e.right, end);
    UnaryOperator(ts, pos, e.right, end);
  }

  /** A primary starts with no unary operator. */
  lemma {:induction false} PrimaryFirst(ts: seq<Token>, pos: nat, e: Expr)
    requires Spelled(ts, pos, e) && Prec(e) >= 8 && !e.Unary?
    ensures At(ts, pos) && ts[pos].kind !in [Bang, Minus] && Prec(e) == 9
  {
    if e.Grouping? {
      var _ := SpelledGrouping(ts, pos, e, pos + |Unparse(e)|);
    } else {
      SpelledToken(ts, pos, e);
    }
  }

  lemma {:induction false} PrimaryComplete(ts: seq<Token>, pos: nat, e: Expr, end: nat)
    requires Spelled(ts, pos, e) && Prec(e) == 9 && end == pos + |Unparse(e)|
    ensures PPrimary(ts, pos) == Step(Done(e), end, [])
    decreases |Unparse(e)|, 1
  {
    match e
    case Grouping(inner) =>
      var close := SpelledGrouping(ts, pos, e, end);
      ExpressionComplete(ts, pos + 1, inner, close);
      PrimaryGrouping(ts, pos, inner, close, end);
    case Literal(v) =>
      SpelledToken(ts, pos, e);
      PrimaryLiteral(ts, pos, v);
    case Variable(name) =>
      SpelledToken(ts, pos, e);
      PrimaryVariable(ts, pos);
  }

  /** The parse-unparse round trip: a shaped expression's tokens, then EOF, parse back to it. */
  lemma {:induction false} ParseUnparse(e: Expr)
    requires Shaped(e)
    ensures var ts := Unparse(e) + [EndOfFile];
      PExpression(ts, 0) == Step(Done(e), |Unparse(e)|, [])
  {
    var ts := Unparse(e) + [EndOfFile];
    forall i | 0 <= i < |Unparse(e)|
      ensures ts[0 + i] == Unparse(e)[i]
    {
    }
    ExpressionComplete(ts, 0, e, |Unparse(e)|);
  }
}
