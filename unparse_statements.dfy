/**
  The statement parsers of chapter-10/glox/lox/parser.go read back every
  statement they can build without an error from the tokens that spell it.

  `UnparseStmt` writes a statement back as tokens, with the expressions
  spelled by `Unparse.Unparse`: `print` and `;` around a printed value, `var`,
  the name, an optional `= initializer` and `;` for a declaration, braces
  around a block's declarations, `if (...)` or `while (...)` in front of a
  branch or a body. Parsing a program's spelling gives the program back with
  no diagnostics (`ParseUnparseProgram`).

  A `for` loop is not a statement of the tree: the parser turns it into the
  While and Block statements it stands for. `UnparseFor` spells
  `for (initializer condition; increment) body`, and reading that spelling
  gives the desugared loop (`ForComplete`, `ParseUnparseFor`).

  The one ambiguity of the grammar is the dangling `else`: the parser gives
  an `else` to the nearest `if` without one. So an `if` with an `else` must
  not have a then-branch that ends in an `if` without one (`Closed`).
*/
module UnparseStatements {
  import opened Wrappers
  import opened Values
  import opened Tokens
  import opened Ast
  import opened Grammar
  import opened Unparse

  const SemicolonToken := Token(Semicolon, ";", Nil, 0)
  const VarToken := Token(VarKeyword, "var", Nil, 0)
  const PrintToken := Token(PrintKeyword, "print", Nil, 0)
  const IfToken := Token(IfKeyword, "if", Nil, 0)
  const ElseToken := Token(ElseKeyword, "else", Nil, 0)
  const WhileToken := Token(WhileKeyword, "while", Nil, 0)
  const OpenBrace := Token(LeftBrace, "{", Nil, 0)
  const CloseBrace := Token(RightBrace, "}", Nil, 0)

  /**
    The statements the statement parser builds when it reports nothing: the
    expressions are shaped, a While has a condition, a block holds no `nil`
    slot, and an `if` with an `else` has a closed then-branch. A `var`
    declaration is not a statement: it appears only among declarations.
  */
  predicate StmtShaped(s: Stmt)
    decreases s, 1
  {
    match s
    case Expression(e) => Shaped(e)
    case Print(e) => Shaped(e)
    case Var(_, _) => false
    case Block(items) => ItemsShaped(items)
    case If(condition, thenBranch, elseBranch) =>
      && Shaped(condition) && StmtShaped(thenBranch)
      && (elseBranch.Some? ==> Closed(thenBranch) && StmtShaped(elseBranch.value))
    case While(condition, body) => condition.Some? && Shaped(condition.value) && StmtShaped(body)
  }

  /** A declaration: a `var` with an identifier and a shaped initializer, or a statement. */
  predicate DeclShaped(s: Stmt)
    decreases s, 2
  {
    if s.Var? then s.name.kind == Identifier && (s.initializer.Some? ==> Shaped(s.initializer.value))
    else StmtShaped(s)
  }

  /** A declaration slot that holds a declaration, not `nil`. */
  predicate SlotShaped(slot: Option<Stmt>)
    decreases slot, 0
  {
    slot.Some? && DeclShaped(slot.value)
  }

  /** A block's or a program's declarations, none of them a `nil` slot. */
  predicate ItemsShaped(items: seq<Option<Stmt>>)
    decreases items, 0
  {
    items == [] || (SlotShaped(items[0]) && ItemsShaped(items[1..]))
  }

  /** The statement does not end in an `if` without `else`, so an `else` after it does not belong to it. */
  predicate Closed(s: Stmt) {
    match s
    case If(_, _, elseBranch) => elseBranch.Some? && Closed(elseBranch.value)
    case While(_, body) => Closed(body)
    case _ => true
  }

  /** `keyword (condition)`, the head of an `if` or a `while`. */
  function Head(keyword: Token, condition: Expr): seq<Token> {
    [keyword, OpenParen] + Unparse.Unparse(condition) + [CloseParen]
  }

  /** The tokens that spell a statement out, in source order. */
  function UnparseStmt(s: Stmt): (u: seq<Token>)
    ensures |u| > 0
    decreases s, 1
  {
    match s
    case Expression(e) => Unparse.Unparse(e) + [SemicolonToken]
    case Print(e) => [PrintToken] + Unparse.Unparse(e) + [SemicolonToken]
    case Var(name, initializer) =>
      if initializer.Some? then [VarToken, name, Equals] + Unparse.Unparse(initializer.value) + [SemicolonToken]
      else [VarToken, name, SemicolonToken]
    case Block(items) => [OpenBrace] + UnparseItems(items) + [CloseBrace]
    case If(condition, thenBranch, elseBranch) => Head(IfToken, condition) + (UnparseStmt(thenBranch) + UnparseElse(elseBranch))
    case While(condition, body) =>
      (if condition.Some? then Head(WhileToken, condition.value) else [WhileToken, OpenParen, CloseParen])
        + UnparseStmt(body)
  }

  /** What follows an if statement's then-branch: `else` and the else-branch if there is one. */
  function UnparseElse(elseBranch: Option<Stmt>): seq<Token>
    decreases elseBranch, 0
  {
    if elseBranch.Some? then [ElseToken] + UnparseStmt(elseBranch.value) else []
  }

  /** A declaration slot: its declaration's tokens, or none for `nil`. */
  function UnparseSlot(slot: Option<Stmt>): seq<Token>
    decreases slot, 0
  {
    if slot.Some? then UnparseStmt(slot.value) else []
  }

  /** The declarations of a block or a program, one after the other. */
  function UnparseItems(items: seq<Option<Stmt>>): seq<Token>
    decreases items, 0
  {
    if items == [] then [] else UnparseSlot(items[0]) + UnparseItems(items[1..])
  }

  /** The tokens `u` sit in the valid tokens `ts` from `pos`, with a token after them. */
  predicate Written(ts: seq<Token>, pos: nat, u: seq<Token>) {
    ValidTokens(ts) && Occurs(ts, pos, u) && pos + |u| < |ts|
  }

  /** The token types a declaration can begin with; `else`, `}` and EOF are none of them. */
  predicate StartsDeclaration(k: TokenType) {
    StartsExpression(k) || k in [VarKeyword, PrintKeyword, IfKeyword, WhileKeyword, LeftBrace]
  }

  // ---------------------------------------------------------------------
  // Where the parts of a spelled statement sit

  lemma {:induction false} OccursAt(ts: seq<Token>, pos: nat, u: seq<Token>, i: nat)
    requires Occurs(ts, pos, u) && i < |u|
    ensures ts[pos + i] == u[i]
  {
  }

  /** `pre`, the shaped expression `e` and `post` one after the other: `e` is spelled, and `post` starts at `after`. */
  lemma {:induction false} SpelledBetween(ts: seq<Token>, pos: nat, pre: seq<Token>, e: Expr, post: seq<Token>) returns (after: nat)
    requires ValidTokens(ts) && Shaped(e) && |post| > 0 && Occurs(ts, pos, pre + Unparse.Unparse(e) + post)
    ensures after == pos + |pre| + |Unparse.Unparse(e)|
    ensures Occurs(ts, pos, pre) && Spelled(ts, pos + |pre|, e) && Occurs(ts, after, post)
    ensures after < |ts| && ts[after] == post[0]
  {
    after := pos + |pre| + |Unparse.Unparse(e)|;
    OccursSplit(ts, pos, pre + Unparse.Unparse(e), post);
    OccursSplit(ts, pos, pre, Unparse.Unparse(e));
    OccursFirst(ts, after, post);
  }

  /** `keyword (condition)`: the keyword, `(`, the spelled condition, then `)` at `close`. */
  lemma {:induction false} SpelledHead(ts: seq<Token>, pos: nat, keyword: Token, condition: Expr) returns (close: nat)
    requires ValidTokens(ts) && Shaped(condition) && Occurs(ts, pos, Head(keyword, condition))
    ensures close == pos + 2 + |Unparse.Unparse(condition)| && close + 1 == pos + |Head(keyword, condition)|
    ensures ts[pos] == keyword && ts[pos + 1].kind == LeftParen
    ensures Spelled(ts, pos + 2, condition) && close < |ts| && ts[close].kind == RightParen
  {
    close := SpelledBetween(ts, pos, [keyword, OpenParen], condition, [CloseParen]);
    OccursAt(ts, pos, [keyword, OpenParen], 0);
    OccursAt(ts, pos, [keyword, OpenParen], 1);
  }

  /** The first token of a shaped declaration can begin a declaration; a statement's is no `var`. */
  lemma {:induction false} UnparseStmtStarts(s: Stmt)
    requires DeclShaped(s)
    ensures StartsDeclaration(UnparseStmt(s)[0].kind)
    ensures !s.Var? ==> UnparseStmt(s)[0].kind != VarKeyword
    ensures s.Expression? ==> StartsExpression(UnparseStmt(s)[0].kind)
  {
    match s
    case Expression(e) =>
      UnparseStarts(e);
      assert UnparseStmt(s)[0] == Unparse.Unparse(e)[0];
    case _ =>
  }

  /** The declarations of a non-empty list: the first one's spelling, then the others'. */
  lemma {:induction false} SpelledItems(ts: seq<Token>, pos: nat, items: seq<Option<Stmt>>) returns (mid: nat)
    requires ValidTokens(ts) && items != [] && ItemsShaped(items) && Occurs(ts, pos, UnparseItems(items))
    requires pos + |UnparseItems(items)| < |ts|
    ensures SlotShaped(items[0]) && ItemsShaped(items[1..])
    ensures mid == pos + |UnparseSlot(items[0])| && Written(ts, pos, UnparseSlot(items[0]))
    ensures Occurs(ts, mid, UnparseItems(items[1..])) && mid + |UnparseItems(items[1..])| == pos + |UnparseItems(items)|
    ensures StartsDeclaration(ts[pos].kind)
    ensures items[1..] != [] ==> StartsDeclaration(ts[mid].kind)
  {
    mid := pos + |UnparseSlot(items[0])|;
    ItemsStart(ts, pos, items);
    OccursSplit(ts, pos, UnparseSlot(items[0]), UnparseItems(items[1..]));
    if items[1..] != [] {
      ItemsStart(ts, mid, items[1..]);
    }
  }

  /** A non-empty list of shaped declarations is spelled starting with a token that can begin a declaration. */
  lemma {:induction false} ItemsStart(ts: seq<Token>, pos: nat, items: seq<Option<Stmt>>)
    requires items != [] && ItemsShaped(items) && Occurs(ts, pos, UnparseItems(items))
    ensures pos < |ts| && StartsDeclaration(ts[pos].kind)
  {
    OccursSplit(ts, pos, UnparseSlot(items[0]), UnparseItems(items[1..]));
    SlotStarts(ts, pos, items[0]);
  }

  /** A shaped slot's spelling starts with a token that can begin a declaration. */
  lemma {:induction false} SlotStarts(ts: seq<Token>, pos: nat, slot: Option<Stmt>)
    requires SlotShaped(slot) && Occurs(ts, pos, UnparseSlot(slot))
    ensures pos < |ts| && StartsDeclaration(ts[pos].kind)
  {
    UnparseStmtStarts(slot.value);
    OccursFirst(ts, pos, UnparseStmt(slot.value));
  }

  /** A token of type `t` is consumed with no diagnostic. */
  lemma {:induction false} ConsumeHere(ts: seq<Token>, pos: nat, t: TokenType, message: Message)
    requires At(ts, pos) && ts[pos].kind == t && t != Eof
    ensures Consume(ts, pos, t, message) == Step(Done(()), pos + 1, [])
  {
  }

  /** A construct that ends with a consumed token and no diagnostic before it. */
  lemma {:induction false} FinishHere<T>(next: nat, done: T)
    ensures Extend([], Finish(Step(Done(()), next, []), done)) == Step(Done(done), next, [])
  {
    ExtendNothing(Finish(Step(Done(()), next, []), done));
  }

  // ---------------------------------------------------------------------
  // Completeness, construct by construct

  /** `expression ;` parses back to the expression statement. */
  lemma {:induction false} ExpressionStatementComplete(ts: seq<Token>, pos: nat, e: Expr, end: nat)
    requires Shaped(e) && Written(ts, pos, UnparseStmt(Expression(e))) && end == pos + |UnparseStmt(Expression(e))|
    ensures PExpressionStatement(ts, pos) == Step(Done(Expression(e)), end, [])
  {
    var semi := pos + |Unparse.Unparse(e)|;
    OccursSplit(ts, pos, Unparse.Unparse(e), [SemicolonToken]);
    OccursFirst(ts, semi, [SemicolonToken]);
    ExpressionComplete(ts, pos, e, semi);
    ConsumeHere(ts, semi, Semicolon, ExpectSemicolonAfterExpression);
    FinishHere(end, Expression(e));
  }

  /** `print expression ;` parses back to the print statement; `printStatement` starts after `print`. */
  lemma {:induction false} PrintComplete(ts: seq<Token>, pos: nat, e: Expr, end: nat)
    requires Shaped(e) && Written(ts, pos, UnparseStmt(Print(e))) && end == pos + |UnparseStmt(Print(e))|
    ensures ts[pos].kind == PrintKeyword
    ensures PPrint(ts, pos + 1) == Step(Done(Print(e)), end, [])
  {
    var semi := SpelledBetween(ts, pos, [PrintToken], e, [SemicolonToken]);
    OccursAt(ts, pos, [PrintToken], 0);
    ExpressionComplete(ts, pos + 1, e, semi);
    ConsumeHere(ts, semi, Semicolon, ExpectSemicolonAfterValue);
    FinishHere(end, Print(e));
  }

  /** `var name ;` and `var name = initializer ;` parse back to the declaration; `varDeclaration` starts after `var`. */
  lemma {:induction false} VarComplete(ts: seq<Token>, pos: nat, s: Stmt, end: nat)
    requires s.Var? && DeclShaped(s) && Written(ts, pos, UnparseStmt(s)) && end == pos + |UnparseStmt(s)|
    ensures ts[pos].kind == VarKeyword
    ensures PVarDeclaration(ts, pos + 1) == Step(Done(s), end, [])
  {
    if s.initializer.Some? {
      var e := s.initializer.value;
      var semi := SpelledBetween(ts, pos, [VarToken, s.name, Equals], e, [SemicolonToken]);
      OccursAt(ts, pos, [VarToken, s.name, Equals], 0);
      OccursAt(ts, pos, [VarToken, s.name, Equals], 1);
      OccursAt(ts, pos, [VarToken, s.name, Equals], 2);
      ConsumeHere(ts, pos + 1, Identifier, ExpectVariableName);
      ExpressionComplete(ts, pos + 3, e, semi);
      assert Matches(ts, pos + 2, [Equal]);
      assert POptionalInitializer(ts, pos + 2) == Step(Done(Some(e)), semi, []);
      ConsumeHere(ts, semi, Semicolon, ExpectSemicolonAfterDeclaration);
      FinishHere(end, Var(ts[pos + 1], Some(e)));
    } else {
      OccursAt(ts, pos, UnparseStmt(s), 0);
      OccursAt(ts, pos, UnparseStmt(s), 1);
      OccursAt(ts, pos, UnparseStmt(s), 2);
      ConsumeHere(ts, pos + 1, Identifier, ExpectVariableName);
      assert POptionalInitializer(ts, pos + 2) == Step(Done(None), pos + 2, []);
      ConsumeHere(ts, pos + 2, Semicolon, ExpectSemicolonAfterDeclaration);
      FinishHere(end, Var(ts[pos + 1], None));
    }
  }

  /** A declaration parses back to itself, unless an `else` follows a statement that is not closed. */
  lemma {:induction false} DeclarationComplete(ts: seq<Token>, pos: nat, s: Stmt, end: nat)
    requires DeclShaped(s) && Written(ts, pos, UnparseStmt(s)) && end == pos + |UnparseStmt(s)|
    requires Closed(s) || ts[end].kind != ElseKeyword
    ensures PDeclaration(ts, pos) == Step(Done(Some(s)), end, [])
    decreases s, 5
  {
    UnparseStmtStarts(s);
    OccursFirst(ts, pos, UnparseStmt(s));
    if s.Var? {
      VarComplete(ts, pos, s, end);
      assert Matches(ts, pos, [VarKeyword]);
    } else {
      assert !Matches(ts, pos, [VarKeyword]);
      StatementComplete(ts, pos, s, end);
    }
  }

  /** A declaration slot of a block or a program, followed by anything but `else`, parses back to itself. */
  lemma {:induction false} SlotComplete(ts: seq<Token>, pos: nat, slot: Option<Stmt>, end: nat)
    requires SlotShaped(slot) && Written(ts, pos, UnparseSlot(slot)) && end == pos + |UnparseSlot(slot)|
    requires ts[end].kind != ElseKeyword
    ensures PDeclaration(ts, pos) == Step(Done(slot), end, []) && pos < end
    decreases slot, 0
  {
    DeclarationComplete(ts, pos, slot.value, end);
  }

  /** A statement parses back to itself, unless an `else` follows it and it is not closed. */
  lemma {:induction false} StatementComplete(ts: seq<Token>, pos: nat, s: Stmt, end: nat)
    requires StmtShaped(s) && Written(ts, pos, UnparseStmt(s)) && end == pos + |UnparseStmt(s)|
    requires Closed(s) || ts[end].kind != ElseKeyword
    ensures PStatement(ts, pos) == Step(Done(s), end, [])
    decreases s, 4
  {
    UnparseStmtStarts(s);
    OccursFirst(ts, pos, UnparseStmt(s));
    match s
    case Expression(e) =>
      ExpressionStatementComplete(ts, pos, e, end);
      DispatchExpression(ts, pos);
    case Print(e) =>
      PrintComplete(ts, pos, e, end);
      DispatchPrint(ts, pos);
    case Block(_) =>
      BlockComplete(ts, pos, s, end);
      DispatchBlock(ts, pos);
    case If(condition, thenBranch, elseBranch) =>
      var branches := UnparseStmt(thenBranch) + UnparseElse(elseBranch);
      assert UnparseStmt(s) == Head(IfToken, condition) + branches;
      var close := HeadComplete(ts, pos, IfToken, condition, branches);
      IfComplete(ts, pos, condition, thenBranch, elseBranch, close, end);
      DispatchIf(ts, pos);
    case While(condition, body) =>
      assert UnparseStmt(s) == Head(WhileToken, condition.value) + UnparseStmt(body);
      var close := HeadComplete(ts, pos, WhileToken, condition.value, UnparseStmt(body));
      WhileComplete(ts, pos, condition.value, body, close, end);
      DispatchWhile(ts, pos);
  }

  /** statement hands a token sequence starting with `if` to ifStatement. */
  lemma {:induction false} DispatchIf(ts: seq<Token>, pos: nat)
    requires At(ts, pos) && pos + 1 < |ts| && ts[pos].kind == IfKeyword
    ensures PStatement(ts, pos) == PIf(ts, pos + 1)
  {
    assert !Matches(ts, pos, [ForKeyword]) && Matches(ts, pos, [IfKeyword]);
  }

  /** statement hands a token sequence starting with `while` to whileStatement. */
  lemma {:induction false} DispatchWhile(ts: seq<Token>, pos: nat)
    requires At(ts, pos) && pos + 1 < |ts| && ts[pos].kind == WhileKeyword
    ensures PStatement(ts, pos) == PWhile(ts, pos + 1)
  {
    assert !Matches(ts, pos, [ForKeyword]) && !Matches(ts, pos, [IfKeyword]) && Matches(ts, pos, [WhileKeyword]);
  }

  /** statement hands a token sequence starting with `print` to printStatement. */
  lemma {:induction false} DispatchPrint(ts: seq<Token>, pos: nat)
    requires At(ts, pos) && pos + 1 < |ts| && ts[pos].kind == PrintKeyword
    ensures PStatement(ts, pos) == PPrint(ts, pos + 1)
  {
    assert !Matches(ts, pos, [ForKeyword]) && !Matches(ts, pos, [IfKeyword]) && !Matches(ts, pos, [WhileKeyword]);
    assert Matches(ts, pos, [PrintKeyword]);
  }

  /** statement hands a token sequence starting with `{` to blockStatement. */
  lemma {:induction false} DispatchBlock(ts: seq<Token>, pos: nat)
    requires At(ts, pos) && pos + 1 < |ts| && ts[pos].kind == LeftBrace
    ensures PStatement(ts, pos) == PBlock(ts, pos + 1)
  {
    assert !Matches(ts, pos, [ForKeyword]) && !Matches(ts, pos, [IfKeyword]) && !Matches(ts, pos, [WhileKeyword]);
    assert !Matches(ts, pos, [PrintKeyword]) && Matches(ts, pos, [LeftBrace]);
  }

  /** statement hands a token sequence starting like an expression to expressionStatement. */
  lemma {:induction false} DispatchExpression(ts: seq<Token>, pos: nat)
    requires At(ts, pos) && StartsExpression(ts[pos].kind)
    ensures PStatement(ts, pos) == PExpressionStatement(ts, pos)
  {
    assert !Matches(ts, pos, [ForKeyword]) && !Matches(ts, pos, [IfKeyword]) && !Matches(ts, pos, [WhileKeyword]);
    assert !Matches(ts, pos, [PrintKeyword]) && !Matches(ts, pos, [LeftBrace]);
  }

  /** `{ declarations }` parses back to the block; `blockStatement` starts after `{`. */
  lemma {:induction false} BlockComplete(ts: seq<Token>, pos: nat, s: Stmt, end: nat)
    requires s.Block? && StmtShaped(s) && Written(ts, pos, UnparseStmt(s)) && end == pos + |UnparseStmt(s)|
    ensures ts[pos].kind == LeftBrace
    ensures PBlock(ts, pos + 1) == Step(Done(s), end, [])
    decreases s, 3
  {
    var items := s.statements;
    var close := pos + 1 + |UnparseItems(items)|;
    OccursSplit(ts, pos, [OpenBrace] + UnparseItems(items), [CloseBrace]);
    OccursSplit(ts, pos, [OpenBrace], UnparseItems(items));
    OccursFirst(ts, pos, [OpenBrace]);
    OccursFirst(ts, close, [CloseBrace]);
    ItemsComplete(ts, pos + 1, items, close);
    ConsumeHere(ts, close, RightBrace, ExpectCloseBraceAfterBlock);
    FinishHere(end, Block(items));
  }

  /**
    The declarations of a block, followed by `}`, parse back to themselves:
    each one starts with a token that neither ends the loop nor is an `else`.
  */
  lemma {:induction false} ItemsComplete(ts: seq<Token>, pos: nat, items: seq<Option<Stmt>>, end: nat)
    requires ItemsShaped(items) && Written(ts, pos, UnparseItems(items)) && end == pos + |UnparseItems(items)|
    requires ts[end].kind == RightBrace
    ensures PBlockItems(ts, pos) == Step(Done(items), end, [])
    decreases items, 1
  {
    if items == [] {
      assert end == pos;
      BlockItemsStop(ts, pos);
    } else {
      var mid := SpelledItems(ts, pos, items);
      SlotComplete(ts, pos, items[0], mid);
      ItemsComplete(ts, mid, items[1..], end);
      ItemsTurn(ts, pos, items, mid, end);
    }
  }

  /** One turn of the block's loop: the first declaration, then the others. */
  lemma {:induction false} ItemsTurn(ts: seq<Token>, pos: nat, items: seq<Option<Stmt>>, mid: nat, end: nat)
    requires At(ts, pos) && StartsDeclaration(ts[pos].kind) && items != [] && pos < mid < |ts|
    requires PDeclaration(ts, pos) == Step(Done(items[0]), mid, [])
    requires PBlockItems(ts, mid) == Step(Done(items[1..]), end, [])
    ensures PBlockItems(ts, pos) == Step(Done(items), end, [])
  {
    BlockItemsStep(ts, pos);
    PrependAll(items, PBlockItems(ts, mid), end);
  }

  /** One turn of Parse's loop: the first declaration, then the others. */
  lemma {:induction false} ProgramTurn(ts: seq<Token>, pos: nat, items: seq<Option<Stmt>>, mid: nat, end: nat)
    requires At(ts, pos) && StartsDeclaration(ts[pos].kind) && items != [] && pos < mid < |ts|
    requires PDeclaration(ts, pos) == Step(Done(items[0]), mid, [])
    requires PProgram(ts, mid) == Step(Done(items[1..]), end, [])
    ensures PProgram(ts, pos) == Step(Done(items), end, [])
  {
    ProgramStep(ts, pos);
    PrependAll(items, PProgram(ts, mid), end);
  }

  /** The first declaration, put in front of the others parsed with no diagnostic. */
  lemma {:induction false} PrependAll(items: seq<Option<Stmt>>, rest: Step<seq<Option<Stmt>>>, end: nat)
    requires items != [] && rest == Step(Done(items[1..]), end, [])
    ensures Extend([], Prepend([items[0]], rest)) == Step(Done(items), end, [])
  {
    assert [items[0]] + items[1..] == items;
    ExtendNothing(Prepend([items[0]], rest));
  }

  /**
    `keyword (condition)` in front of a statement: `(` is there, the
    condition parses back with no diagnostic, and `)` closes it at `close`.
  */
  lemma {:induction false} HeadComplete(ts: seq<Token>, pos: nat, keyword: Token, condition: Expr, rest: seq<Token>) returns (close: nat)
    requires Shaped(condition) && Written(ts, pos, Head(keyword, condition) + rest)
    ensures ts[pos] == keyword && Check(ts, pos + 1, LeftParen) && pos + 2 < |ts|
    ensures PExpression(ts, pos + 2) == Step(Done(condition), close, [])
    ensures close < |ts| && Check(ts, close, RightParen)
    ensures close + 1 + |rest| == pos + |Head(keyword, condition) + rest| && Written(ts, close + 1, rest)
  {
    OccursSplit(ts, pos, Head(keyword, condition), rest);
    close := SpelledHead(ts, pos, keyword, condition);
    ExpressionComplete(ts, pos + 2, condition, close);
  }

  /**
    After `if (condition)` read with no diagnostic, the branches parse back
    to the if statement; `ifStatement` starts after `if`.
  */
  lemma {:induction false} IfComplete(
    ts: seq<Token>, pos: nat, condition: Expr, thenBranch: Stmt, elseBranch: Option<Stmt>, close: nat, end: nat)
    requires StmtShaped(thenBranch) && (elseBranch.Some? ==> Closed(thenBranch) && StmtShaped(elseBranch.value))
    requires At(ts, pos) && pos + 2 < |ts| && Check(ts, pos + 1, LeftParen)
    requires PExpression(ts, pos + 2) == Step(Done(condition), close, []) && At(ts, close) && Check(ts, close, RightParen)
    requires Written(ts, close + 1, UnparseStmt(thenBranch) + UnparseElse(elseBranch))
    requires end == close + 1 + |UnparseStmt(thenBranch) + UnparseElse(elseBranch)|
    requires (elseBranch.Some? && Closed(elseBranch.value)) || ts[end].kind != ElseKeyword
    ensures PIf(ts, pos + 1) == Step(Done(If(condition, thenBranch, elseBranch)), end, [])
    decreases If(condition, thenBranch, elseBranch), 3
  {
    IfBranchesComplete(ts, close + 1, condition, thenBranch, elseBranch, end);
    IfUnfolds(ts, pos + 1, condition, close);
  }

  /** With `(`, a condition read with no diagnostic and `)`, ifStatement is its branches. */
  lemma {:induction false} IfUnfolds(ts: seq<Token>, pos: nat, condition: Expr, close: nat)
    requires At(ts, pos) && Check(ts, pos, LeftParen) && At(ts, close) && Check(ts, close, RightParen)
    requires PExpression(ts, pos + 1) == Step(Done(condition), close, [])
    ensures PIf(ts, pos) == PIfBranches(ts, close + 1, condition)
  {
    var branches := PIfBranches(ts, close + 1, condition);
    ExtendNothing(branches);
    ExtendNothing(Extend([], branches));
  }

  /** The then-branch, then `else` and the else-branch if there is one, parse back to the if statement. */
  lemma {:induction false} IfBranchesComplete(
    ts: seq<Token>, pos: nat, condition: Expr, thenBranch: Stmt, elseBranch: Option<Stmt>, end: nat)
    requires StmtShaped(thenBranch) && (elseBranch.Some? ==> Closed(thenBranch) && StmtShaped(elseBranch.value))
    requires Written(ts, pos, UnparseStmt(thenBranch) + UnparseElse(elseBranch))
    requires end == pos + |UnparseStmt(thenBranch) + UnparseElse(elseBranch)|
    requires (elseBranch.Some? && Closed(elseBranch.value)) || ts[end].kind != ElseKeyword
    ensures PIfBranches(ts, pos, condition) == Step(Done(If(condition, thenBranch, elseBranch)), end, [])
    decreases If(condition, thenBranch, elseBranch), 2
  {
    if elseBranch.Some? {
      ThenElseComplete(ts, pos, condition, thenBranch, elseBranch.value, end);
    } else {
      assert UnparseStmt(thenBranch) + UnparseElse(elseBranch) == UnparseStmt(thenBranch);
      StatementComplete(ts, pos, thenBranch, end);
      BranchesWithoutElse(ts, pos, condition, thenBranch, end);
    }
  }

  /** A then-branch, `else` and an else-branch parse back to the if statement with both. */
  lemma {:induction false} ThenElseComplete(
    ts: seq<Token>, pos: nat, condition: Expr, thenBranch: Stmt, elseBranch: Stmt, end: nat)
    requires StmtShaped(thenBranch) && Closed(thenBranch) && StmtShaped(elseBranch)
    requires Written(ts, pos, UnparseStmt(thenBranch) + UnparseElse(Some(elseBranch)))
    requires end == pos + |UnparseStmt(thenBranch) + UnparseElse(Some(elseBranch))|
    requires Closed(elseBranch) || ts[end].kind != ElseKeyword
    ensures PIfBranches(ts, pos, condition) == Step(Done(If(condition, thenBranch, Some(elseBranch))), end, [])
    decreases If(condition, thenBranch, Some(elseBranch)), 1
  {
    var mid := SpelledBranches(ts, pos, thenBranch, elseBranch);
    StatementComplete(ts, pos, thenBranch, mid);
    ElseTail(ts, pos, condition, thenBranch, elseBranch, mid, end);
  }

  /** A then-branch read with no diagnostic up to `else`, then the spelled else-branch. */
  lemma {:induction false} ElseTail(
    ts: seq<Token>, pos: nat, condition: Expr, thenBranch: Stmt, elseBranch: Stmt, mid: nat, end: nat)
    requires StmtShaped(elseBranch) && At(ts, pos) && At(ts, mid) && ts[mid].kind == ElseKeyword
    requires PStatement(ts, pos) == Step(Done(thenBranch), mid, [])
    requires Written(ts, mid + 1, UnparseStmt(elseBranch)) && end == mid + 1 + |UnparseStmt(elseBranch)|
    requires Closed(elseBranch) || ts[end].kind != ElseKeyword
    ensures PIfBranches(ts, pos, condition) == Step(Done(If(condition, thenBranch, Some(elseBranch))), end, [])
    decreases elseBranch, 5
  {
    StatementComplete(ts, mid + 1, elseBranch, end);
    ElseTurn(ts, pos, condition, thenBranch, elseBranch, mid, end);
  }

  /** Both branches read with no diagnostic, `else` between them: the if statement with both. */
  lemma {:induction false} ElseTurn(
    ts: seq<Token>, pos: nat, condition: Expr, thenBranch: Stmt, elseBranch: Stmt, mid: nat, end: nat)
    requires At(ts, pos) && At(ts, mid) && ts[mid].kind == ElseKeyword && mid + 1 < |ts|
    requires PStatement(ts, pos) == Step(Done(thenBranch), mid, [])
    requires PStatement(ts, mid + 1) == Step(Done(elseBranch), end, [])
    ensures PIfBranches(ts, pos, condition) == Step(Done(If(condition, thenBranch, Some(elseBranch))), end, [])
  {
    BranchesWithElse(ts, pos, condition, thenBranch, mid, If(condition, thenBranch, Some(elseBranch)), end);
  }

  /** Both branches' spellings, with `else` between them at `mid`. */
  lemma {:induction false} SpelledBranches(ts: seq<Token>, pos: nat, thenBranch: Stmt, elseBranch: Stmt) returns (mid: nat)
    requires Written(ts, pos, UnparseStmt(thenBranch) + UnparseElse(Some(elseBranch)))
    ensures mid == pos + |UnparseStmt(thenBranch)| && Written(ts, pos, UnparseStmt(thenBranch))
    ensures ts[mid].kind == ElseKeyword && mid + 1 < |ts|
    ensures Written(ts, mid + 1, UnparseStmt(elseBranch))
    ensures mid + 1 + |UnparseStmt(elseBranch)| == pos + |UnparseStmt(thenBranch) + UnparseElse(Some(elseBranch))|
  {
    mid := pos + |UnparseStmt(thenBranch)|;
    OccursSplit(ts, pos, UnparseStmt(thenBranch), [ElseToken] + UnparseStmt(elseBranch));
    OccursSplit(ts, mid, [ElseToken], UnparseStmt(elseBranch));
    OccursFirst(ts, mid, [ElseToken]);
  }

  /** A then-branch read with no diagnostic, `else`, and the rest read as `r`: the if statement is `r`. */
  lemma {:induction false} BranchesWithElse(ts: seq<Token>, pos: nat, condition: Expr, thenBranch: Stmt, mid: nat, node: Stmt, end: nat)
    requires At(ts, pos) && At(ts, mid) && ts[mid].kind == ElseKeyword && mid + 1 < |ts|
    requires PStatement(ts, pos) == Step(Done(thenBranch), mid, [])
    requires PElse(ts, mid + 1, condition, thenBranch) == Step(Done(node), end, [])
    ensures PIfBranches(ts, pos, condition) == Step(Done(node), end, [])
  {
    assert Matches(ts, mid, [ElseKeyword]);
  }

  /** A then-branch read with no diagnostic and no `else` after it. */
  lemma {:induction false} BranchesWithoutElse(ts: seq<Token>, pos: nat, condition: Expr, thenBranch: Stmt, mid: nat)
    requires At(ts, pos) && At(ts, mid) && ts[mid].kind != ElseKeyword
    requires PStatement(ts, pos) == Step(Done(thenBranch), mid, [])
    ensures PIfBranches(ts, pos, condition) == Step(Done(If(condition, thenBranch, None)), mid, [])
  {
    assert !Matches(ts, mid, [ElseKeyword]);
  }

  /**
    After `while (condition)` read with no diagnostic, the body parses back
    to the while statement; `whileStatement` starts after `while`.
  */
  lemma {:induction false} WhileComplete(ts: seq<Token>, pos: nat, condition: Expr, body: Stmt, close: nat, end: nat)
    requires StmtShaped(body) && At(ts, pos) && pos + 2 < |ts| && Check(ts, pos + 1, LeftParen)
    requires PExpression(ts, pos + 2) == Step(Done(condition), close, []) && At(ts, close) && Check(ts, close, RightParen)
    requires Written(ts, close + 1, UnparseStmt(body)) && end == close + 1 + |UnparseStmt(body)|
    requires Closed(body) || ts[end].kind != ElseKeyword
    ensures PWhile(ts, pos + 1) == Step(Done(While(Some(condition), body)), end, [])
    decreases body, 5
  {
    StatementComplete(ts, close + 1, body, end);
    WhileUnfolds(ts, pos + 1, condition, close, body, end);
  }

  /** With `(`, a condition read with no diagnostic, `)` and a body read with none, whileStatement builds the loop. */
  lemma {:induction false} WhileUnfolds(ts: seq<Token>, pos: nat, condition: Expr, close: nat, body: Stmt, end: nat)
    requires At(ts, pos) && Check(ts, pos, LeftParen) && At(ts, close) && Check(ts, close, RightParen)
    requires PExpression(ts, pos + 1) == Step(Done(condition), close, [])
    requires close + 1 < |ts| && PStatement(ts, close + 1) == Step(Done(body), end, [])
    ensures PWhile(ts, pos) == Step(Done(While(Some(condition), body)), end, [])
  {
    assert Consume(ts, pos, LeftParen, ExpectOpenAfterWhile) == Step(Done(()), pos + 1, []);
    var cond := PExpression(ts, pos + 1);
    var closing := Consume(ts, cond.next, RightParen, ExpectCloseAfterWhileCondition);
    assert closing == Step(Done(()), close + 1, []);
    var read := PStatement(ts, closing.next);
    assert read == PStatement(ts, close + 1);
    assert PWhile(ts, pos) == Extend(cond.diags, With(read, Done(While(Some(condition), read.res.value))));
  }

  // ---------------------------------------------------------------------
  // The `for` statement, read back to the loop it stands for

  const ForToken := Token(ForKeyword, "for", Nil, 0)

  /**
    The initializer clauses forStatement reads with no diagnostic: none (a
    lone `;`), a `var` declaration, or an expression statement.
  */
  predicate ForInitShaped(init: Option<Stmt>) {
    init.None? || (init.value.Var? && DeclShaped(init.value))
    || (init.value.Expression? && Shaped(init.value.expression))
  }

  /** The initializer clause as written: `;` alone, or the declaration or statement with its own `;`. */
  function UnparseForInit(init: Option<Stmt>): seq<Token> {
    if init.Some? then UnparseStmt(init.value) else [SemicolonToken]
  }

  /** A condition clause as written: its expression, or nothing. */
  function UnparseClause(clause: Option<Expr>): seq<Token> {
    if clause.Some? then Unparse.Unparse(clause.value) else []
  }

  /**
    `for (initializer condition; increment) body`, the parts nested to the
    right. The increment is always written: as the parser is written, an
    empty one is rejected (ParserExamples.EmptyIncrementRejected).
  */
  function UnparseFor(init: Option<Stmt>, cond: Option<Expr>, incr: Expr, body: Stmt): seq<Token> {
    [ForToken, OpenParen] + (UnparseForInit(init) + UnparseForRest(cond, incr, body))
  }

  /** What follows the initializer: `condition ;`, `increment )` and the body. */
  function UnparseForRest(cond: Option<Expr>, incr: Expr, body: Stmt): seq<Token> {
    (UnparseClause(cond) + [SemicolonToken]) + ((Unparse.Unparse(incr) + [CloseParen]) + UnparseStmt(body))
  }

  /** Each initializer form is read back by the initializer clause with no diagnostic. */
  lemma {:induction false} ForInitializerComplete(ts: seq<Token>, pos: nat, init: Option<Stmt>, next: nat)
    requires ForInitShaped(init) && Written(ts, pos, UnparseForInit(init)) && next == pos + |UnparseForInit(init)|
    ensures PForInitializer(ts, pos) == Step(Done(init), next, [])
  {
    if init.None? {
      OccursFirst(ts, pos, [SemicolonToken]);
      assert Matches(ts, pos, [Semicolon]);
    } else {
      var s := init.value;
      UnparseStmtStarts(s);
      OccursFirst(ts, pos, UnparseStmt(s));
      assert !Matches(ts, pos, [Semicolon]);
      if s.Var? {
        VarComplete(ts, pos, s, next);
        assert Matches(ts, pos, [VarKeyword]);
      } else {
        assert !Matches(ts, pos, [VarKeyword]);
        ExpressionStatementComplete(ts, pos, s.expression, next);
      }
    }
  }

  /**
    A condition clause before `;`, or an increment before `)`, is read back
    with no diagnostic and stops at that token; an empty clause is read only
    before `;`.
  */
  lemma {:induction false} ForClauseComplete(ts: seq<Token>, pos: nat, clause: Option<Expr>, stop: Token, next: nat)
    requires clause.Some? ==> Shaped(clause.value)
    requires stop == SemicolonToken || (clause.Some? && stop == CloseParen)
    requires Written(ts, pos, UnparseClause(clause) + [stop]) && next == pos + |UnparseClause(clause)|
    ensures PForClause(ts, pos) == Step(Done(clause), next, [])
    ensures next < |ts| && ts[next] == stop
  {
    OccursSplit(ts, pos, UnparseClause(clause), [stop]);
    OccursFirst(ts, next, [stop]);
    if clause.Some? {
      var e := clause.value;
      UnparseStarts(e);
      OccursFirst(ts, pos, Unparse.Unparse(e));
      assert !Check(ts, pos, Semicolon);
      ExpressionComplete(ts, pos, e, next);
    }
  }

  /** forStatement after `(` and an initializer read with no diagnostic is the rest of the loop. */
  lemma {:induction false} ForUnfolds(ts: seq<Token>, pos: nat, init: Option<Stmt>, next: nat)
    requires At(ts, pos) && Check(ts, pos, LeftParen) && pos + 1 < |ts|
    requires PForInitializer(ts, pos + 1) == Step(Done(init), next, [])
    ensures PFor(ts, pos) == PForCondition(ts, next, init)
  {
    ConsumeHere(ts, pos, LeftParen, ExpectOpenAfterFor);
    ExtendNothing(PForCondition(ts, next, init));
  }

  /** A condition read with no diagnostic and its `;` leave the rest to the increment. */
  lemma {:induction false} ForConditionUnfolds(ts: seq<Token>, pos: nat, init: Option<Stmt>, cond: Option<Expr>, semi: nat)
    requires At(ts, pos) && At(ts, semi) && Check(ts, semi, Semicolon) && semi + 1 < |ts|
    requires PForClause(ts, pos) == Step(Done(cond), semi, [])
    ensures PForCondition(ts, pos, init) == PForIncrement(ts, semi + 1, init, cond)
  {
    ConsumeHere(ts, semi, Semicolon, ExpectSemicolonAfterLoopCondition);
    ExtendNothing(PForIncrement(ts, semi + 1, init, cond));
  }

  /** An increment read with no diagnostic, `)` and a body read with none give the desugared loop. */
  lemma {:induction false} ForIncrementUnfolds(
    ts: seq<Token>, pos: nat, init: Option<Stmt>, cond: Option<Expr>, incr: Expr, close: nat, body: Stmt, end: nat)
    requires At(ts, pos) && At(ts, close) && Check(ts, close, RightParen) && close + 1 < |ts|
    requires PForClause(ts, pos) == Step(Done(Some(incr)), close, [])
    requires PStatement(ts, close + 1) == Step(Done(body), end, [])
    ensures PForIncrement(ts, pos, init, cond) == Step(Done(DesugarFor(init, cond, Some(incr), body)), end, [])
  {
    ConsumeHere(ts, close, RightParen, ExpectCloseAfterForClauses);
    var read := PStatement(ts, close + 1);
    ExtendNothing(With(read, Done(DesugarFor(init, cond, Some(incr), body))));
  }

  /** statement hands a token sequence starting with `for` to forStatement. */
  lemma {:induction false} DispatchFor(ts: seq<Token>, pos: nat)
    requires At(ts, pos) && pos + 1 < |ts| && ts[pos].kind == ForKeyword
    ensures PStatement(ts, pos) == PFor(ts, pos + 1)
  {
    assert Matches(ts, pos, [ForKeyword]);
  }

  /** The increment, `)` and the body, as spelled, are read back to the desugared loop. */
  lemma {:induction false} ForTailComplete(
    ts: seq<Token>, pos: nat, init: Option<Stmt>, cond: Option<Expr>, incr: Expr, close: nat, body: Stmt, end: nat)
    requires Shaped(incr) && StmtShaped(body)
    requires Written(ts, pos, Unparse.Unparse(incr) + [CloseParen]) && close == pos + |Unparse.Unparse(incr)|
    requires Written(ts, close + 1, UnparseStmt(body)) && end == close + 1 + |UnparseStmt(body)|
    requires Closed(body) || ts[end].kind != ElseKeyword
    ensures PForIncrement(ts, pos, init, cond) == Step(Done(DesugarFor(init, cond, Some(incr), body)), end, [])
  {
    ForClauseComplete(ts, pos, Some(incr), CloseParen, close);
    StatementComplete(ts, close + 1, body, end);
    ForIncrementUnfolds(ts, pos, init, cond, incr, close, body, end);
  }

  /**
    The condition clause, its `;`, the increment, `)` and the body, as
    spelled, are read back by forStatement after the initializer.
  */
  lemma {:induction false} ForRestComplete(
    ts: seq<Token>, pos: nat, init: Option<Stmt>, cond: Option<Expr>, incr: Expr, body: Stmt, end: nat)
    requires (cond.Some? ==> Shaped(cond.value)) && Shaped(incr) && StmtShaped(body)
    requires Written(ts, pos, UnparseForRest(cond, incr, body)) && end == pos + |UnparseForRest(cond, incr, body)|
    requires Closed(body) || ts[end].kind != ElseKeyword
    ensures PForCondition(ts, pos, init) == Step(Done(DesugarFor(init, cond, Some(incr), body)), end, [])
  {
    var condTokens := UnparseClause(cond) + [SemicolonToken];
    var semi := pos + |UnparseClause(cond)|;
    OccursSplit(ts, pos, condTokens, (Unparse.Unparse(incr) + [CloseParen]) + UnparseStmt(body));
    ForClauseComplete(ts, pos, cond, SemicolonToken, semi);
    var close := semi + 1 + |Unparse.Unparse(incr)|;
    OccursSplit(ts, semi + 1, Unparse.Unparse(incr) + [CloseParen], UnparseStmt(body));
    ForTailComplete(ts, semi + 1, init, cond, incr, close, body, end);
    ForConditionUnfolds(ts, pos, init, cond, semi);
  }

  /**
    `for (initializer condition; increment) body` parses, with no
    diagnostic, to the desugared loop of its clauses: the initializer is
    kept, the condition is the clause or `true`, the increment runs after
    the body.
  */
  lemma {:induction false} ForComplete(
    ts: seq<Token>, pos: nat, init: Option<Stmt>, cond: Option<Expr>, incr: Expr, body: Stmt, end: nat)
    requires ForInitShaped(init) && (cond.Some? ==> Shaped(cond.value)) && Shaped(incr) && StmtShaped(body)
    requires Written(ts, pos, UnparseFor(init, cond, incr, body)) && end == pos + |UnparseFor(init, cond, incr, body)|
    requires Closed(body) || ts[end].kind != ElseKeyword
    ensures PStatement(ts, pos) == Step(Done(DesugarFor(init, cond, Some(incr), body)), end, [])
  {
    SpelledFor(ts, pos, UnparseForInit(init), UnparseForRest(cond, incr, body));
    ForParenComplete(ts, pos + 1, init, cond, incr, body, end);
    DispatchFor(ts, pos);
  }

  /** `for (` in front of the initializer's spelling and the rest's. */
  lemma {:induction false} SpelledFor(ts: seq<Token>, pos: nat, init: seq<Token>, rest: seq<Token>)
    requires Written(ts, pos, [ForToken, OpenParen] + (init + rest))
    ensures ts[pos].kind == ForKeyword && ts[pos + 1].kind == LeftParen
    ensures Written(ts, pos + 2, init) && Written(ts, pos + 2 + |init|, rest)
  {
    OccursSplit(ts, pos, [ForToken, OpenParen], init + rest);
    OccursAt(ts, pos, [ForToken, OpenParen], 0);
    OccursAt(ts, pos, [ForToken, OpenParen], 1);
    OccursSplit(ts, pos + 2, init, rest);
  }

  /** After `for`: `(`, then the initializer and the rest of the clauses, as spelled, give the loop. */
  lemma {:induction false} ForParenComplete(
    ts: seq<Token>, pos: nat, init: Option<Stmt>, cond: Option<Expr>, incr: Expr, body: Stmt, end: nat)
    requires ForInitShaped(init) && (cond.Some? ==> Shaped(cond.value)) && Shaped(incr) && StmtShaped(body)
    requires At(ts, pos) && Check(ts, pos, LeftParen)
    requires Written(ts, pos + 1, UnparseForInit(init))
    requires Written(ts, pos + 1 + |UnparseForInit(init)|, UnparseForRest(cond, incr, body))
    requires end == pos + 1 + |UnparseForInit(init)| + |UnparseForRest(cond, incr, body)|
    requires Closed(body) || ts[end].kind != ElseKeyword
    ensures PFor(ts, pos) == Step(Done(DesugarFor(init, cond, Some(incr), body)), end, [])
  {
    var condStart := pos + 1 + |UnparseForInit(init)|;
    ForInitializerComplete(ts, pos + 1, init, condStart);
    ForClausesComplete(ts, pos, init, cond, incr, body, condStart, end);
  }

  /** After `for`: `(`, an initializer read with no diagnostic, and the rest of the clauses, as spelled, give the loop. */
  lemma {:induction false} ForClausesComplete(
    ts: seq<Token>, pos: nat, init: Option<Stmt>, cond: Option<Expr>, incr: Expr, body: Stmt, condStart: nat, end: nat)
    requires (cond.Some? ==> Shaped(cond.value)) && Shaped(incr) && StmtShaped(body)
    requires At(ts, pos) && Check(ts, pos, LeftParen) && pos + 1 < |ts|
    requires PForInitializer(ts, pos + 1) == Step(Done(init), condStart, [])
    requires Written(ts, condStart, UnparseForRest(cond, incr, body)) && end == condStart + |UnparseForRest(cond, incr, body)|
    requires Closed(body) || ts[end].kind != ElseKeyword
    ensures PFor(ts, pos) == Step(Done(DesugarFor(init, cond, Some(incr), body)), end, [])
  {
    ForRestComplete(ts, condStart, init, cond, incr, body, end);
    ForUnfolds(ts, pos, init, condStart);
  }

  /** A `for` loop, as spelled, is read back as a declaration: it does not start with `var`. */
  lemma {:induction false} ForDeclarationComplete(
    ts: seq<Token>, pos: nat, init: Option<Stmt>, cond: Option<Expr>, incr: Expr, body: Stmt, end: nat)
    requires ForInitShaped(init) && (cond.Some? ==> Shaped(cond.value)) && Shaped(incr) && StmtShaped(body)
    requires Written(ts, pos, UnparseFor(init, cond, incr, body)) && end == pos + |UnparseFor(init, cond, incr, body)|
    requires Closed(body) || ts[end].kind != ElseKeyword
    ensures PDeclaration(ts, pos) == Step(Done(Some(DesugarFor(init, cond, Some(incr), body))), end, [])
    ensures ts[pos].kind == ForKeyword
  {
    ForComplete(ts, pos, init, cond, incr, body, end);
    OccursFirst(ts, pos, UnparseFor(init, cond, incr, body));
    assert !Matches(ts, pos, [VarKeyword]);
  }

  /** A program whose first declaration is read with no diagnostic up to EOF is that one declaration. */
  lemma {:induction false} SingleDeclaration(ts: seq<Token>, d: Option<Stmt>, end: nat)
    requires At(ts, 0) && ts[0].kind != Eof && 0 < end < |ts| && ts[end].kind == Eof
    requires PDeclaration(ts, 0) == Step(Done(d), end, [])
    ensures PProgram(ts, 0) == Step(Done([d]), end, [])
  {
    ProgramStep(ts, 0);
    ProgramStops(ts, end);
    assert [d][1..] == [];
    PrependAll([d], PProgram(ts, end), end);
  }

  /** A program that is one `for` loop parses to its desugared loop with no diagnostic. */
  lemma {:induction false} ParseUnparseFor(init: Option<Stmt>, cond: Option<Expr>, incr: Expr, body: Stmt)
    requires ForInitShaped(init) && (cond.Some? ==> Shaped(cond.value)) && Shaped(incr) && StmtShaped(body)
    ensures var u := UnparseFor(init, cond, incr, body);
      PProgram(u + [EndOfFile], 0) == Step(Done([Some(DesugarFor(init, cond, Some(incr), body))]), |u|, [])
  {
    var u := UnparseFor(init, cond, incr, body);
    var ts := u + [EndOfFile];
    forall i | 0 <= i < |u|
      ensures ts[0 + i] == u[i]
    {
    }
    ForDeclarationComplete(ts, 0, init, cond, incr, body, |u|);
    SingleDeclaration(ts, Some(DesugarFor(init, cond, Some(incr), body)), |u|);
  }

  /** A program's declarations, followed by EOF, parse back to themselves. */
  lemma {:induction false} ProgramComplete(ts: seq<Token>, pos: nat, items: seq<Option<Stmt>>, end: nat)
    requires ItemsShaped(items) && Written(ts, pos, UnparseItems(items)) && end == pos + |UnparseItems(items)|
    requires ts[end].kind == Eof
    ensures PProgram(ts, pos) == Step(Done(items), end, [])
    decreases items
  {
    if items == [] {
      ProgramStops(ts, pos);
    } else {
      var mid := SpelledItems(ts, pos, items);
      SlotComplete(ts, pos, items[0], mid);
      ProgramComplete(ts, mid, items[1..], end);
      ProgramTurn(ts, pos, items, mid, end);
    }
  }

  /** The parse-unparse round trip for programs: the spelling of shaped declarations, then EOF, parses back to them. */
  lemma {:induction false} ParseUnparseProgram(items: seq<Option<Stmt>>)
    requires ItemsShaped(items)
    ensures var ts := UnparseItems(items) + [EndOfFile];
      PProgram(ts, 0) == Step(Done(items), |UnparseItems(items)|, [])
  {
    var ts := UnparseItems(items) + [EndOfFile];
    forall i | 0 <= i < |UnparseItems(items)|
      ensures ts[0 + i] == UnparseItems(items)[i]
    {
    }
    ProgramComplete(ts, 0, items, |UnparseItems(items)|);
  }
}
