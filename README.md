# glox: parser, environment, interpreter and AST printer in Dafny

This project models the core of glox, a tree-walking interpreter for the Lox
language written in Go:

- the recursive-descent parser of chapter 10 (`parser.go`), which turns a
  token slice into statements and expressions (`expr.go`, `stmt.go`);
- the scope chain of chapter 9 (`environment.go`);
- the interpreter of chapter 8 (`interpreter.go`), which evaluates
  expressions and runs statements;
- the AST printer of chapter 8 (`ast_printer.go`).

## Files and modules

- `values.dfy`: `Wrappers` (Option), `Values` (Lox values and number operations), `Tokens` (token types and tokens).
- `ast.dfy`: `Ast`, the expression and statement trees of `expr.go` and `stmt.go`. A statement slot that Go leaves `nil` is `None`.
- `grammar.dfy`: `Grammar`, the parser as pure functions of the token sequence and the cursor. It also proves that every tree the parser builds is well shaped: precedence and left associativity.
- `parser.dfy`: `Parser`, the `Parser` struct as a class with a cursor and a diagnostics list. Every method is proved to agree with its `Grammar` function.
- `unparse.dfy`: `Unparse`, the converse of the shape lemmas. Every shaped tree, written back as tokens, is parsed to exactly that tree with no diagnostics (`ParseUnparse`).
- `unparse_statements.dfy`: `UnparseStatements`, the same round trip for statements and programs (`ParseUnparseProgram`).
- `parser_examples.dfy`: `ParserExamples`, concrete parses that show precedence, associativity and error reporting.
- `environment.dfy`: `Environment`, the scope chain as a sequence of frames (innermost first) with `Define`, `Get` and `Assign`.
- `semantics.dfy`: `Semantics`, evaluation and execution as functions of the scope chain and the printed output.
- `interpreter.dfy`: `Interpreter`, the `Interpreter` struct as a class. Its methods update the scope chain, the output and the reported errors, and are proved to do what the `Semantics` functions say.
- `semantics_examples.dfy`: `SemanticsExamples`, small programs whose behaviour is easy to get wrong.
- `printer.dfy`: `AstPrinter`, the parenthesised prefix printer.

## How the model follows the code

**Parser state.** The parser's state is only its cursor. The source's `synchronize` has an empty body. So after a declaration fails without consuming a token, the loops of `Parse` and `blockStatement` repeat the same iteration for ever. The model detects that repetition and answers `Diverges` instead of looping.

**Diagnostics.** A parser diagnostic is the token it is reported at and a `Message` code. `Grammar.MessageText` gives the exact string that `parser.go` passes for each code.

**Numbers.** Numbers are 64-bit IEEE values (`bv64` bit patterns). The float operations, `==` on floats and `strconv.FormatFloat` are the fields of an `Arith` record. `Arith` is a parameter of the semantics, so every theorem holds for whatever those operations do.

**Errors the interpreter raises.**
- A runtime error is raised either as a `RuntimeError` value (an undefined variable, from `Get`) or as a `*RuntimeError` pointer (an operand check).
- `Interpret` reports the value and goes on. For the pointer, the type assertion `err.(RuntimeError)` panics.
- A Go panic (a failed type assertion, a `nil` statement, a visitor the interpreter lacks) is the outcome `Halted` and ends the run.

**Where the code and the Lox language design disagree, the model follows the code:**
- `forStatement` skips the increment clause only when the next token is `;`, not `)`. So `for (...; ...;)` with an empty increment is rejected with "Expect expression" at the `)` (`ParserExamples.EmptyIncrementRejected`).
- `ifStatement` overwrites the error of the `)` after its condition before testing it. A missing `)` is reported and parsing goes on with the then-branch.
- `whileStatement` ignores an error in its condition. The loop then holds no condition (`None`).
- An invalid assignment target is reported, and the left side is returned without an error.
- `unary` parses a primary after `!` or `-`, not another unary, so `!!a` is a syntax error.
- Unary `-` returns the decimal text of its operand without negating it.
- Binary `-`, `/` and `*` return the decimal text of the result, not a number.
- `+` on a boolean or `nil` operand fails a type assertion (a panic).
- Any operator the binary switch does not list yields `nil`.
- A runtime error inside a block ends the block and is dropped: it is neither reported nor passed on.
- `executeBlock` restores a copy of the frame that was current. Assignments inside the block to variables of that frame are lost. Assignments to variables of enclosing frames, which are shared by pointer, stay.
- The chapter-8 interpreter has no `VisitIfStmt`, `VisitWhileStmt` or `VisitLogicalExpr` method. The visitor interfaces of the chapter-10 tree require them, so that combination of Go files would not compile. The model gives the interpreter those trees anyway and halts with `NoVisitMethod` in place of the missing methods.
- The AST printer's `Assign` and `Variable` visitors return `nil`, and it fails on boolean literals; each of these panics (`Panics`). The printer also has no `VisitLogicalExpr` method, so Go code giving it a `Logical` tree would not compile; the model returns `Panics` in place of that missing method.

## Model

| member | source | states |
|---|---|---|
| Environment.NewEnvironment | chapter-9/glox/lox/environment.go:8-13 | a new environment adds exactly one frame to the chain; that the frame is empty and hides nothing is Environment.NewEnvironmentTransparent |
| Environment.Define | chapter-9/glox/lox/environment.go:29-31 | defining keeps the number of frames; what it binds is stated by Environment.DefineThenGet, Environment.DefineKeepsOthers and Environment.DefineShadows |
| Environment.Get | chapter-9/glox/lox/environment.go:33-43 | the lookup finds a value exactly when some frame binds the name; the value comes from the innermost such frame; otherwise the error is "Undefined variable '<name>'." |
| Environment.Innermost | chapter-9/glox/lox/environment.go:33-43 | the outward walk stops at the innermost frame binding the name, and passes every frame exactly when none does |
| Environment.Assign | chapter-9/glox/lox/environment.go:45-56 | assignment fails exactly when no frame binds the name, leaving the chain unchanged with the undefined-variable error; otherwise only the innermost binding frame changes, and only at that name |
| Environment.DefineThenGet | chapter-9/glox/lox/environment.go:29-43 | a name just defined is found with the defined value |
| Environment.DefineKeepsOthers | chapter-9/glox/lox/environment.go:29-43 | defining one name changes the lookup of no other name |
| Environment.DefineShadows | chapter-9/glox/lox/environment.go:8-43 | a definition in a new frame shadows outer bindings and leaves the enclosing chain as it was |
| Environment.NewEnvironmentTransparent | chapter-9/glox/lox/environment.go:8-43 | a new empty frame changes no lookup |
| Environment.AssignThenGet | chapter-9/glox/lox/environment.go:33-56 | after assigning a bound name, the lookup finds the assigned value |
| Environment.AssignKeepsOthers | chapter-9/glox/lox/environment.go:33-56 | assigning one name changes the lookup of no other name |
| Environment.AssignInnermost | chapter-9/glox/lox/environment.go:45-56 | assignment writes the innermost frame that binds the name and reports no error |
| Environment.AssignCurrentFrame | chapter-9/glox/lox/environment.go:45-56 | a name bound in the current frame is assigned there, and the enclosing frames are untouched |
| Environment.Copy | chapter-9/glox/lox/environment.go:15-28 | the copy holds the same chain of bindings |
| Grammar.MessageTextInjective | chapter-10/glox/lox/parser.go:48-443 | the diagnostic codes stand for the parser's message strings one to one: distinct codes have distinct texts |
| Grammar.Consume | chapter-10/glox/lox/parser.go:437-443 | consume succeeds exactly when the current token has the type, and then advances by one with no diagnostic; otherwise it fails at the same token with the message reported there |
| Grammar.OperatorLevel | chapter-10/glox/lox/parser.go:261-366 | the level found for a token type is one whose loop matches that type |
| Grammar.OperatorsHaveTheirLevel | chapter-10/glox/lox/parser.go:261-366 | every operator a level's loop matches is recognised as that level's operator |
| Grammar.PExpression | chapter-10/glox/lox/parser.go:236-238 | expression either consumes at least one token or fails with a diagnostic; it never diverges |
| Grammar.PAssignment | chapter-10/glox/lox/parser.go:240-260 | assignment either consumes at least one token or fails with a diagnostic |
| Grammar.PBinaryLevel | chapter-10/glox/lox/parser.go:261-366 | each of the six binary levels either consumes at least one token or fails with a diagnostic |
| Grammar.POperand | chapter-10/glox/lox/parser.go:261-366 | a level's operand parser either consumes at least one token or fails with a diagnostic |
| Grammar.PLoop | chapter-10/glox/lox/parser.go:261-366 | a level's loop never moves the cursor backwards, and a failure carries a diagnostic |
| Grammar.CombineShaped | chapter-10/glox/lox/parser.go:261-366 | a node a level builds over operands of the right binding power is well shaped and binds at the level's power |
| Grammar.LoopStops | chapter-10/glox/lox/parser.go:261-366 | a level's loop stops without consuming at a token that is not one of its operators |
| Grammar.LoopFails | chapter-10/glox/lox/parser.go:261-366 | a level's loop fails as the operand after a matched operator fails |
| Grammar.LoopContinues | chapter-10/glox/lox/parser.go:261-366 | after a matched operator and its operand, the loop continues with the tree so far as the new node's left operand |
| Grammar.PUnary | chapter-10/glox/lox/parser.go:368-375 | unary either consumes at least one token or fails with a diagnostic |
| Grammar.PPrimary | chapter-10/glox/lox/parser.go:376-402 | primary either consumes at least one token or fails with a diagnostic |
| Grammar.ExpressionShaped | chapter-10/glox/lox/parser.go:236-402 | every expression the parser returns is well shaped: operators sit at their precedence level, binary levels group to the left, unary applies to a primary |
| Grammar.AssignmentShaped | chapter-10/glox/lox/parser.go:240-260 | every tree assignment returns is well shaped |
| Grammar.AssignToShaped | chapter-10/glox/lox/parser.go:250-259 | turning a parsed left side and value into an assignment keeps trees well shaped |
| Grammar.BinaryLevelShaped | chapter-10/glox/lox/parser.go:261-366 | every tree a level returns is well shaped and binds at least as tightly as the level |
| Grammar.OperandShaped | chapter-10/glox/lox/parser.go:261-366 | every operand a level reads binds strictly more tightly than the level |
| Grammar.LoopShaped | chapter-10/glox/lox/parser.go:261-366 | a level's loop keeps the tree well shaped and at the level's binding power |
| Grammar.UnaryShaped | chapter-10/glox/lox/parser.go:368-375 | every tree unary returns is well shaped and binds at least as tightly as unary |
| Grammar.PrimaryShaped | chapter-10/glox/lox/parser.go:376-402 | every tree primary returns is well shaped and atomic |
| Grammar.DesugarFor | chapter-10/glox/lox/parser.go:131-148 | the desugared `for` is a While whose condition is the clause or `true` when it is empty, whose body is followed by the increment in a block when there is one, and which sits in a block after the initializer when there is one |
| Grammar.DesugarForRecovers | chapter-10/glox/lox/parser.go:131-148 | with an increment, the desugared statement gives back the initializer, the increment and the body; a missing condition and `true` give the same loop |
| Grammar.PProgram | chapter-10/glox/lox/parser.go:19-28 | Parse never fails with a syntax error; when it finishes it is at EOF; a failed declaration in the result, or a divergence, comes with a diagnostic |
| Grammar.ProgramStops | chapter-10/glox/lox/parser.go:19-28 | Parse at EOF returns no statements |
| Grammar.ProgramStep | chapter-10/glox/lox/parser.go:19-28 | one turn of Parse's loop: a declaration, then the rest; a declaration that consumes nothing makes the loop repeat for ever |
| Grammar.PDeclaration | chapter-10/glox/lox/parser.go:29-46 | a declaration never returns a syntax error: a failure is a reported `nil` statement |
| Grammar.PVarDeclaration | chapter-10/glox/lox/parser.go:48-66 | a variable declaration consumes tokens when it succeeds and otherwise fails with a diagnostic |
| Grammar.POptionalInitializer | chapter-10/glox/lox/parser.go:54-60 | the optional initializer fails only with a diagnostic |
| Grammar.PStatement | chapter-10/glox/lox/parser.go:67-84 | a statement consumes tokens when it succeeds and otherwise fails with a diagnostic |
| Grammar.PFor | chapter-10/glox/lox/parser.go:86-148 | a for statement consumes tokens when it succeeds and otherwise fails with a diagnostic |
| Grammar.PForInitializer | chapter-10/glox/lox/parser.go:91-104 | the initializer clause consumes tokens when it succeeds and otherwise fails with a syntax error and a diagnostic |
| Grammar.PForClause | chapter-10/glox/lox/parser.go:105-122 | a condition or increment clause fails only with a syntax error and a diagnostic |
| Grammar.PForCondition | chapter-10/glox/lox/parser.go:105-115 | after the initializer, the rest of the for statement consumes tokens when it succeeds and otherwise fails with a diagnostic |
| Grammar.PForIncrement | chapter-10/glox/lox/parser.go:116-148 | after the condition, the rest of the for statement consumes tokens when it succeeds and otherwise fails with a diagnostic |
| Grammar.PIf | chapter-10/glox/lox/parser.go:150-176 | an if statement consumes tokens when it succeeds and otherwise fails with a diagnostic |
| Grammar.PIfBranches | chapter-10/glox/lox/parser.go:164-175 | the branches of an if statement consume tokens when they succeed and otherwise fail with a diagnostic |
| Grammar.PElse | chapter-10/glox/lox/parser.go:168-173 | the statement after `else` consumes tokens when it succeeds and otherwise fails with a diagnostic |
| Grammar.PWhile | chapter-10/glox/lox/parser.go:177-193 | a while statement consumes tokens when it succeeds and otherwise fails with a diagnostic |
| Grammar.PBlock | chapter-10/glox/lox/parser.go:194-208 | a block consumes tokens when it succeeds and otherwise fails with a diagnostic |
| Grammar.PBlockItems | chapter-10/glox/lox/parser.go:196-203 | the block's loop ends at `}` or EOF when it succeeds, and otherwise fails with a diagnostic |
| Grammar.BlockItemsStop | chapter-10/glox/lox/parser.go:196-203 | the block's loop at `}` or EOF adds nothing |
| Grammar.BlockItemsStep | chapter-10/glox/lox/parser.go:196-203 | one turn of the block's loop: a declaration, then the rest; a declaration that consumes nothing makes the loop repeat for ever |
| Grammar.PPrint | chapter-10/glox/lox/parser.go:209-221 | a print statement consumes tokens when it succeeds and otherwise fails with a diagnostic |
| Grammar.PExpressionStatement | chapter-10/glox/lox/parser.go:222-234 | an expression statement consumes tokens when it succeeds and otherwise fails with a diagnostic |
| Parser.Parser.constructor | chapter-10/glox/lox/parser.go:12-17 | a new parser holds the tokens, with the cursor at the first one and nothing reported |
| Parser.Parser.Advance | chapter-10/glox/lox/parser.go:420-426 | advance moves the cursor by one unless at EOF, and returns the token before the cursor |
| Parser.Parser.Match | chapter-10/glox/lox/parser.go:404-412 | match succeeds exactly when the current token has one of the types, and then consumes exactly that token |
| Parser.Parser.Report | chapter-10/glox/lox/parser.go:445-448 | reporting an error appends one diagnostic and changes nothing else |
| Parser.Parser.Consume | chapter-10/glox/lox/parser.go:437-443 | consume does what Grammar.Consume says to the cursor, the result and the diagnostics |
| Parser.Parser.Parse | chapter-10/glox/lox/parser.go:19-28 | the loop of Parse returns, advances and reports exactly what Grammar.PProgram says |
| Parser.Parser.Declaration | chapter-10/glox/lox/parser.go:29-46 | agrees with Grammar.PDeclaration on result, cursor and diagnostics |
| Parser.Parser.VarDeclaration | chapter-10/glox/lox/parser.go:48-66 | agrees with Grammar.PVarDeclaration on result, cursor and diagnostics |
| Parser.Parser.Statement | chapter-10/glox/lox/parser.go:67-84 | agrees with Grammar.PStatement on result, cursor and diagnostics |
| Parser.Parser.ForStatement | chapter-10/glox/lox/parser.go:86-148 | agrees with Grammar.PFor on result, cursor and diagnostics |
| Parser.Parser.ForInitializer | chapter-10/glox/lox/parser.go:91-104 | agrees with Grammar.PForInitializer on result, cursor and diagnostics |
| Parser.Parser.ForClause | chapter-10/glox/lox/parser.go:105-122 | agrees with Grammar.PForClause on result, cursor and diagnostics |
| Parser.Parser.ForCondition | chapter-10/glox/lox/parser.go:105-115 | agrees with Grammar.PForCondition on result, cursor and diagnostics |
| Parser.Parser.ForIncrement | chapter-10/glox/lox/parser.go:116-148 | agrees with Grammar.PForIncrement on result, cursor and diagnostics |
| Parser.Parser.IfStatement | chapter-10/glox/lox/parser.go:150-176 | agrees with Grammar.PIf on result, cursor and diagnostics |
| Parser.Parser.IfBranches | chapter-10/glox/lox/parser.go:164-175 | agrees with Grammar.PIfBranches on result, cursor and diagnostics |
| Parser.Parser.WhileStatement | chapter-10/glox/lox/parser.go:177-193 | agrees with Grammar.PWhile on result, cursor and diagnostics |
| Parser.Parser.BlockStatement | chapter-10/glox/lox/parser.go:194-208 | the block's loop agrees with Grammar.PBlock on result, cursor and diagnostics |
| Parser.Parser.PrintStatement | chapter-10/glox/lox/parser.go:209-221 | agrees with Grammar.PPrint on result, cursor and diagnostics |
| Parser.Parser.ExpressionStatement | chapter-10/glox/lox/parser.go:222-234 | agrees with Grammar.PExpressionStatement on result, cursor and diagnostics |
| Parser.Parser.Expression | chapter-10/glox/lox/parser.go:236-238 | agrees with Grammar.PExpression on result, cursor and diagnostics |
| Parser.Parser.Assignment | chapter-10/glox/lox/parser.go:240-260 | agrees with Grammar.PAssignment on result, cursor and diagnostics |
| Parser.Parser.BinaryLevel | chapter-10/glox/lox/parser.go:261-366 | each of or, and, equality, comparison, term and factor agrees with Grammar.PBinaryLevel at its level |
| Parser.Parser.Fold | chapter-10/glox/lox/parser.go:351-366 | a level's `for p.match(...)` loop agrees with Grammar.PLoop |
| Parser.Parser.FoldTurn | chapter-10/glox/lox/parser.go:351-366 | one turn of that loop either ends it as Grammar.PLoop says, or consumes the operator and operand and leaves the rest of the loop to Grammar.PLoop on the combined node |
| Parser.Parser.Operand | chapter-10/glox/lox/parser.go:261-366 | the operand call of a level agrees with Grammar.POperand |
| Parser.Parser.Unary | chapter-10/glox/lox/parser.go:368-375 | agrees with Grammar.PUnary on result, cursor and diagnostics |
| Parser.Parser.Primary | chapter-10/glox/lox/parser.go:376-402 | agrees with Grammar.PPrimary on result, cursor and diagnostics |
| Unparse.LiteralToken | chapter-10/glox/lox/parser.go:378-389 | every literal value is spelled by one of the token types primary accepts as a literal |
| Unparse.UnparseStarts | chapter-10/glox/lox/parser.go:376-402 | the spelling of every well-shaped tree starts with a token that can begin an expression |
| Unparse.ParseUnparse | chapter-10/glox/lox/parser.go:236-402 | every well-shaped tree, written back as tokens and followed by EOF, is parsed to exactly that tree, consuming all its tokens, with no diagnostics |
| Unparse.ExpressionComplete | chapter-10/glox/lox/parser.go:236-238 | expression reads the tokens of any well-shaped tree followed by a token that cannot continue it back to that tree |
| Unparse.AssignmentComplete | chapter-10/glox/lox/parser.go:240-260 | assignment reads back any well-shaped tree |
| Unparse.AssignComplete | chapter-10/glox/lox/parser.go:240-257 | assignment reads `name = value` back to an Assign node, grouping to the right |
| Unparse.OrComplete | chapter-10/glox/lox/parser.go:240-260 | assignment reads back any well-shaped tree that is not an assignment, through the `or` level |
| Unparse.LevelComplete | chapter-10/glox/lox/parser.go:261-366 | a level reads a tree binding at least as tightly as itself and then resumes its loop after it |
| Unparse.TighterComplete | chapter-10/glox/lox/parser.go:261-366 | a tree binding more tightly than a level is that level's first operand |
| Unparse.CombineComplete | chapter-10/glox/lox/parser.go:261-366 | a node of the level itself is read as its left operand at the same level, then the operator and the right operand in the loop |
| Unparse.OperandComplete | chapter-10/glox/lox/parser.go:261-366 | a level's operand parser reads back any tree binding more tightly than the level |
| Unparse.UnaryComplete | chapter-10/glox/lox/parser.go:368-375 | unary reads back any well-shaped tree binding at least as tightly as unary |
| Unparse.UnaryNodeComplete | chapter-10/glox/lox/parser.go:368-372 | unary reads an operator and a primary back to a Unary node |
| Unparse.PrimaryComplete | chapter-10/glox/lox/parser.go:376-402 | primary reads back any literal, variable or grouping |
| Unparse.LoopTakes | chapter-10/glox/lox/parser.go:261-366 | a level's loop at one of its operators followed by an operand folds the node and carries on |
| Unparse.LevelStops | chapter-10/glox/lox/parser.go:261-366 | a level whose loop meets no operator of its own yields the tree read so far |
| Unparse.AssignmentStores | chapter-10/glox/lox/parser.go:246-255 | a variable followed by `=` and a value becomes an Assign node with no diagnostic |
| Unparse.AssignmentWithoutEquals | chapter-10/glox/lox/parser.go:240-260 | with no `=` after the `or` level, assignment returns what that level read |
| Unparse.UnaryOperator | chapter-10/glox/lox/parser.go:368-372 | `!` or `-` followed by a primary gives a Unary node over it |
| Unparse.UnaryPrimary | chapter-10/glox/lox/parser.go:368-375 | without `!` or `-`, unary is primary |
| Unparse.PrimaryLiteral | chapter-10/glox/lox/parser.go:378-389 | a literal token gives a Literal node holding its value |
| Unparse.PrimaryVariable | chapter-10/glox/lox/parser.go:390-392 | an identifier gives a Variable node |
| Unparse.PrimaryGrouping | chapter-10/glox/lox/parser.go:393-400 | `(`, an expression and `)` give a Grouping node |
| UnparseStatements.ParseUnparseProgram | chapter-10/glox/lox/parser.go:19-28 | every well-shaped program, written back as tokens and followed by EOF, is parsed to exactly that program with no diagnostics |
| UnparseStatements.ProgramComplete | chapter-10/glox/lox/parser.go:19-28 | Parse's loop reads back the declarations that follow, up to EOF |
| UnparseStatements.ItemsComplete | chapter-10/glox/lox/parser.go:196-203 | the block's loop reads back its declarations, up to `}` |
| UnparseStatements.DeclarationComplete | chapter-10/glox/lox/parser.go:29-47 | declaration reads back any well-shaped declaration |
| UnparseStatements.SlotComplete | chapter-10/glox/lox/parser.go:29-47 | declaration reads back the statement of a non-empty slot |
| UnparseStatements.VarComplete | chapter-10/glox/lox/parser.go:48-66 | varDeclaration reads back `var name;` and `var name = value;` |
| UnparseStatements.StatementComplete | chapter-10/glox/lox/parser.go:67-84 | statement reads back any well-shaped statement |
| UnparseStatements.DispatchIf | chapter-10/glox/lox/parser.go:67-84 | statement at `if` hands over to ifStatement |
| UnparseStatements.DispatchWhile | chapter-10/glox/lox/parser.go:67-84 | statement at `while` hands over to whileStatement |
| UnparseStatements.DispatchPrint | chapter-10/glox/lox/parser.go:67-84 | statement at `print` hands over to printStatement |
| UnparseStatements.DispatchBlock | chapter-10/glox/lox/parser.go:67-84 | statement at `{` hands over to blockStatement |
| UnparseStatements.DispatchExpression | chapter-10/glox/lox/parser.go:67-84 | statement at any other token hands over to expressionStatement |
| UnparseStatements.HeadComplete | chapter-10/glox/lox/parser.go:150-162 | `if (` or `while (`, a condition and `)` are read back to that condition, with the `)` found where the spelling puts it |
| UnparseStatements.IfComplete | chapter-10/glox/lox/parser.go:150-176 | ifStatement reads back an if statement, with or without `else` |
| UnparseStatements.IfUnfolds | chapter-10/glox/lox/parser.go:150-163 | after its condition and `)`, ifStatement is the parse of its branches |
| UnparseStatements.IfBranchesComplete | chapter-10/glox/lox/parser.go:164-175 | the branches are read back, the `else` going to this `if` |
| UnparseStatements.ThenElseComplete | chapter-10/glox/lox/parser.go:164-175 | a then-branch, `else` and an else-branch are read back to the if statement holding both |
| UnparseStatements.SpelledBranches | chapter-10/glox/lox/parser.go:164-175 | the spelling of two branches puts `else` right after the then-branch |
| UnparseStatements.BranchesWithElse | chapter-10/glox/lox/parser.go:164-175 | a then-branch followed by `else` leaves the rest to the else-branch |
| UnparseStatements.BranchesWithoutElse | chapter-10/glox/lox/parser.go:164-175 | a then-branch not followed by `else` gives an if statement without one |
| UnparseStatements.WhileComplete | chapter-10/glox/lox/parser.go:177-193 | whileStatement reads back a while statement |
| UnparseStatements.WhileUnfolds | chapter-10/glox/lox/parser.go:177-193 | `(`, a condition, `)` and a body give a While node holding them |
| UnparseStatements.ParseUnparseFor | chapter-10/glox/lox/parser.go:86-148 | a program that is one `for (initializer condition; increment) body`, followed by EOF, parses with no diagnostic to the one declaration that desugars it: the initializer kept, the condition or `true`, the increment after the body |
| UnparseStatements.ForComplete | chapter-10/glox/lox/parser.go:86-148 | statement reads back the spelling of any well-shaped `for` loop to its desugared While, ending where the spelling ends |
| UnparseStatements.ForDeclarationComplete | chapter-10/glox/lox/parser.go:29-47 | declaration reads back a spelled `for` loop as that desugared statement, since it does not start with `var` |
| UnparseStatements.SingleDeclaration | chapter-10/glox/lox/parser.go:19-28 | Parse's loop, given one declaration read with no diagnostic up to EOF, yields exactly that declaration |
| UnparseStatements.DispatchFor | chapter-10/glox/lox/parser.go:67-84 | statement at `for` hands over to forStatement |
| UnparseStatements.ForParenComplete | chapter-10/glox/lox/parser.go:86-148 | after `for`, `(`, the initializer and the clauses as spelled give the desugared loop |
| UnparseStatements.ForInitializerComplete | chapter-10/glox/lox/parser.go:91-104 | the initializer clause reads back a lone `;`, a `var` declaration or an expression statement, with no diagnostic |
| UnparseStatements.ForClauseComplete | chapter-10/glox/lox/parser.go:105-122 | a condition before `;` or an increment before `)` is read back with no diagnostic and stops at that token; an empty clause only before `;` |
| UnparseStatements.ForUnfolds | chapter-10/glox/lox/parser.go:86-104 | after `(` and an initializer read with no diagnostic, forStatement is the parse of the condition and what follows |
| UnparseStatements.ForConditionUnfolds | chapter-10/glox/lox/parser.go:105-115 | a condition read with no diagnostic and its `;` leave the rest to the increment |
| UnparseStatements.ForIncrementUnfolds | chapter-10/glox/lox/parser.go:116-148 | an increment, `)` and a body, each read with no diagnostic, give the desugared loop |
| UnparseStatements.ForRestComplete | chapter-10/glox/lox/parser.go:105-148 | the condition, `;`, the increment, `)` and the body as spelled are read back to the desugared loop |
| UnparseStatements.ForTailComplete | chapter-10/glox/lox/parser.go:116-148 | the increment, `)` and the body as spelled are read back to the desugared loop |
| UnparseStatements.BlockComplete | chapter-10/glox/lox/parser.go:194-208 | blockStatement reads back `{`, the declarations and `}` |
| UnparseStatements.PrintComplete | chapter-10/glox/lox/parser.go:209-221 | printStatement reads back `print value;` |
| UnparseStatements.ExpressionStatementComplete | chapter-10/glox/lox/parser.go:222-235 | expressionStatement reads back `value;` |
| ParserExamples.LeftFold | chapter-10/glox/lox/parser.go:333-349 | `a - b - c` parses as `(a - b) - c` |
| ParserExamples.FactorFirst | chapter-10/glox/lox/parser.go:333-366 | `a + b * c` parses as `a + (b * c)` |
| ParserExamples.AndFirst | chapter-10/glox/lox/parser.go:261-295 | `a or b and c` parses as `a or (b and c)`, with Logical nodes |
| ParserExamples.AssignRight | chapter-10/glox/lox/parser.go:240-260 | `a = b = c` parses as `a = (b = c)` |
| ParserExamples.AssignmentToNonVariable | chapter-10/glox/lox/parser.go:240-260 | an `=` after a left side that is no variable is reported at the `=`, the value is still parsed, and the left side is returned without a syntax error |
| ParserExamples.InvalidTarget | chapter-10/glox/lox/parser.go:240-260 | `a + b = c` reports "Invalid Assignment target." and yields `a + b` |
| ParserExamples.NoDoubleBang | chapter-10/glox/lox/parser.go:368-375 | `!!a` fails with "Expect expression" at the second `!` |
| ParserExamples.NoOperand | chapter-10/glox/lox/parser.go:376-402 | at a token that cannot begin an expression, every level fails with "Expect expression" there, consuming nothing |
| ParserExamples.NoExpression | chapter-10/glox/lox/parser.go:236-402 | so does expression |
| ParserExamples.EmptyIncrementFails | chapter-10/glox/lox/parser.go:116-122 | an empty increment clause, directly before `)`, fails with "Expect expression" at the `)` |
| ParserExamples.EmptyIncrementRejected | chapter-10/glox/lox/parser.go:86-122 | `for (;;)` is rejected with "Expect expression" at the `)` |
| ParserExamples.LoneParenDiverges | chapter-10/glox/lox/parser.go:19-47 | a program that is a lone `)` fails its declaration without consuming a token, so the loop of Parse would repeat for ever |
| Semantics.IsTruthy | chapter-8/glox/lox/interpreter.go:217-225 | nil and false are the only falsy values |
| Semantics.IsNumber | chapter-8/glox/lox/interpreter.go:227-236 | true exactly for numbers |
| Semantics.IsEqual | chapter-8/glox/lox/interpreter.go:238-246 | nil equals only nil; equal values have the same kind; booleans and strings are equal by content, numbers by float equality |
| Semantics.CheckNumberOperands | chapter-8/glox/lox/interpreter.go:248-254 | the check passes exactly when both operands are numbers, and otherwise raises the "Operands must be a number." error at the operator, as a pointer |
| Semantics.CheckNumberOperand | chapter-8/glox/lox/interpreter.go:255-261 | the check passes exactly when the operand is a number, and otherwise raises the error at the operator, as a pointer |
| Semantics.Stringify | chapter-8/glox/lox/interpreter.go:263-278 | nil prints as `nil`, a number as its decimal text, a string inside double quotes, and a boolean as `Unknown type` |
| Semantics.Text | chapter-8/glox/lox/interpreter.go:91-104 | the text `+` concatenates exists exactly for numbers and strings; any other operand fails the type assertion |
| Semantics.BinaryOp | chapter-8/glox/lox/interpreter.go:48-123 | the numeric operators raise the operand error exactly when an operand is no number; on two numbers, `>`, `>=`, `<` and `<=` give the comparison of left with right, and `-`, `/` and `*` give the decimal text of left minus, divided by or times right; `+` adds two numbers, concatenates text, and panics on any other operand; `==` and `!=` follow isEqual; unlisted operators give nil |
| Semantics.UnaryOp | chapter-8/glox/lox/interpreter.go:132-151 | `!` negates truthiness; `-` gives the text of a number and raises the operand error exactly on a non-number |
| Semantics.Eval | chapter-8/glox/lox/interpreter.go:36-163 | evaluation keeps the number of frames, changes no frame unless the expression assigns, and raises only the two known kinds of error |
| Semantics.BinaryRightFirst | chapter-8/glox/lox/interpreter.go:36-47 | a binary node evaluates its right operand first, then its left operand in the chain the right one left, and applies the operator to the two values; an error of either stops it there |
| Semantics.RightFailureSkipsLeft | chapter-8/glox/lox/interpreter.go:36-47 | when the right operand fails, the left operand plays no part |
| Semantics.AssignYieldsValue | chapter-8/glox/lox/interpreter.go:156-163 | an assignment yields the assigned value, leaves an unbound name unchanged without an error, and otherwise binds the value |
| Semantics.Discard | chapter-8/glox/lox/interpreter.go:176-179 | an expression statement finishes normally exactly when its expression does, passing on the error or panic unchanged |
| Semantics.Restore | chapter-8/glox/lox/interpreter.go:198-211 | after a block, the current frame is the copy taken on entry and the enclosing frames are as the block left them |
| Semantics.Exec | chapter-8/glox/lox/interpreter.go:164-192 | a statement keeps the number of frames, only appends to the output, and raises only the known errors |
| Semantics.VarWithoutInitializer | chapter-8/glox/lox/interpreter.go:164-175 | `var name;` binds nil in the current frame |
| Semantics.VarWithInitializer | chapter-8/glox/lox/interpreter.go:164-175 | `var name = value;` binds the value in the current frame of the chain the value left |
| Semantics.PrintWrites | chapter-8/glox/lox/interpreter.go:184-192 | print appends the stringified value to the output, or on an error writes nothing and passes the error on |
| Semantics.ExpressionWritesNothing | chapter-8/glox/lox/interpreter.go:176-179 | an expression statement writes nothing and passes its expression's outcome on |
| Semantics.ExecBlock | chapter-8/glox/lox/interpreter.go:180-211 | a block never passes an error on, restores the current frame, keeps the number of frames and only appends to the output; it runs its statements with Semantics.ExecItems, which stops at the first error (Semantics.ExecItemsAppend) |
| Semantics.Execute | chapter-8/glox/lox/interpreter.go:194-196 | executing a `nil` statement panics without changing anything |
| Semantics.ExecItems | chapter-8/glox/lox/interpreter.go:202-208 | the block's loop keeps the number of frames, only appends to the output and raises only the known errors; that it stops at the first statement that does not finish normally is Semantics.ExecItemsAppend |
| Semantics.ExecItemsAppend | chapter-8/glox/lox/interpreter.go:202-208 | running `a + b` in a block is running `a` and then, only when every statement of `a` finished normally, running `b`: the block stops at its first error or panic |
| Semantics.Run | chapter-8/glox/lox/interpreter.go:27-35 | Interpret only appends to the output and to the reported errors, and every error it reports is an undefined-variable error |
| Semantics.RunAppend | chapter-8/glox/lox/interpreter.go:27-35 | running two lists of statements one after the other is running their concatenation: only a panic stops the statements after it, a reported error does not |
| Semantics.BangTwice | chapter-8/glox/lox/interpreter.go:132-151 | `!` applied twice gives the truthiness of the value as a boolean |
| Semantics.ExecKeepsEnclosing | chapter-8/glox/lox/interpreter.go:164-211 | a statement that assigns nothing changes only the current frame |
| Semantics.SlotKeepsEnclosing | chapter-8/glox/lox/interpreter.go:194-196 | the same for a statement slot |
| Semantics.ItemsKeepEnclosing | chapter-8/glox/lox/interpreter.go:202-208 | the same for the statements of a block |
| Semantics.BlockKeepsChain | chapter-8/glox/lox/interpreter.go:198-211 | a block whose statements assign nothing leaves the whole scope chain as it found it |
| SemanticsExamples.RightOperandFirst | chapter-8/glox/lox/interpreter.go:36-47 | in `(a = x) + (a = y)` the right operand runs first, so `a` ends up as `x` |
| SemanticsExamples.RightErrorSkipsLeft | chapter-8/glox/lox/interpreter.go:36-47 | an error in the right operand comes back before the left operand runs |
| SemanticsExamples.BlockLosesAssignment | chapter-8/glox/lox/interpreter.go:198-211 | a block's assignment to a variable of the current frame is lost when the block ends |
| SemanticsExamples.BlockKeepsOuterAssignment | chapter-8/glox/lox/interpreter.go:198-211 | a block's assignment to a variable of an enclosing frame stays |
| SemanticsExamples.BlockShadows | chapter-8/glox/lox/interpreter.go:164-211 | a declaration inside a block shadows the outer one while the block runs and is gone afterwards |
| SemanticsExamples.ReportedErrorContinues | chapter-8/glox/lox/interpreter.go:27-35 | an undefined variable is reported and the next statement still runs |
| SemanticsExamples.OperandErrorEndsRun | chapter-8/glox/lox/interpreter.go:27-35 | an operand error ends the run through the failed type assertion |
| SemanticsExamples.BlockDropsError | chapter-8/glox/lox/interpreter.go:198-211 | an error inside a block stops the block and is neither reported nor passed on |
| Interpreter.Interpreter.constructor | chapter-8/glox/lox/interpreter.go:21-25 | a new interpreter has one global frame with no bindings, no output and no reported errors |
| Interpreter.Interpreter.Evaluate | chapter-8/glox/lox/interpreter.go:213-215 | evaluate returns, and leaves the scope chain, as Semantics.Eval says; output and reports are untouched |
| Interpreter.Interpreter.Execute | chapter-8/glox/lox/interpreter.go:194-196 | execute leaves the outcome, the scope chain and the output as Semantics.Execute says |
| Interpreter.Interpreter.Visit | chapter-8/glox/lox/interpreter.go:164-192 | the statement visitors leave the outcome, the scope chain and the output as Semantics.Exec says |
| Interpreter.Interpreter.ExecuteBlock | chapter-8/glox/lox/interpreter.go:198-211 | executeBlock leaves the outcome, the scope chain and the output as Semantics.ExecBlock says |
| Interpreter.Interpreter.Interpret | chapter-8/glox/lox/interpreter.go:27-35 | the loop of Interpret leaves the scope chain, the output, the reported errors and the panic as Semantics.Run says |
| AstPrinter.Print | chapter-8/glox/lox/ast_printer.go:14-47 | the printer produces text exactly for trees of binary, unary and grouping nodes over nil, number and string literals; compound nodes print in parentheses; nil prints `nil`, a number its decimal text, a string itself |
| AstPrinter.Parenthesize | chapter-8/glox/lox/ast_printer.go:49-68 | parenthesize produces text exactly when every child prints, starting with `(` and the name and ending with `)` |
| AstPrinter.Children | chapter-8/glox/lox/ast_printer.go:55-64 | the children's part of parenthesize exists exactly when every child prints |
| AstPrinter.PrintBinary | chapter-8/glox/lox/ast_printer.go:21-23 | a binary node prints as `(op left right)` |
| AstPrinter.PrintUnary | chapter-8/glox/lox/ast_printer.go:45-47 | a unary node prints as `(op right)` |
| AstPrinter.PrintGrouping | chapter-8/glox/lox/ast_printer.go:24-26 | a grouping prints as `(group inner)` |

## Left out

- The scanner, the drivers (`lox.go`, `main`), reading files and the prompt are not part of this model. The parser starts from a token sequence that ends with EOF.
- Output to standard output and standard error is modelled as lists: printed lines, parser diagnostics and reported runtime errors. `TokenError`, `ReportRuntimeError` and their formatting are left out.
- Float arithmetic, float comparison, float equality and `strconv.FormatFloat` are the fields of the `Arith` parameter. Their IEEE behaviour is not modelled.
- The visitor dispatch through `Accept` is modelled by pattern matching on the tree.
- `synchronize` has an empty body, and the model reproduces that. The endless loop that follows in `Parse` and `blockStatement` is modelled by the result `Diverges`, not by non-termination.
- Parser.Parser.Parse, Parser.Parser.BlockStatement: they return `Diverges` where the source would loop for ever.
- Semantics.Eval, Semantics.Exec: the chapter-8 interpreter has no visit methods for `If`, `While` and `Logical`, so a Go program passing it those trees would not compile. The model halts with `NoVisitMethod` in place of each missing method. A semantics of conditionals and loops is not modelled.
- Semantics.ExecBlock: when a statement in a block panics, Go leaves `executeBlock` without restoring the environment (chapter-8/glox/lox/interpreter.go:203-209). The model restores it all the same. No later step can see the difference, since a halted run does nothing more.
- The scope chain is a value (a sequence of frames). Environment.Copy states that the copy equals the original. The sharing of enclosing frames by pointer shows only in Semantics.Restore. General aliasing between environments is not modelled.
- Unparse.LiteralToken, Unparse.ParseUnparse, UnparseStatements.ParseUnparseProgram: the round trips write tokens of their own making: literals, `(`, `)`, `=`, `;`, braces, the keywords `var`, `print`, `if`, `else`, `while` and `for`, and EOF, all on line 0 with fixed lexemes (a number's lexeme is empty). The parser reads only their type and literal payload. The converse, that every token sequence parsed without a diagnostic is the spelling of its tree, is not stated.
- The AST generator (`generate_ast.go`) and the earlier chapters' snapshots are not part of this model.
- Grammar.PExpression and the other parsing functions: their own contracts state only progress and error reporting. For expressions, what they return is stated by the shape lemmas (Grammar.ExpressionShaped and those after it) and by the round trip Unparse.ParseUnparse. For statements and programs it is stated by the round trip UnparseStatements.ParseUnparseProgram and the lemmas before it. A `for` loop has no node of its own in the tree, so that round trip does not produce one; UnparseStatements.ForComplete and UnparseStatements.ParseUnparseFor state instead that the spelling of a `for` loop is read back to its desugared While, with the increment always written.
