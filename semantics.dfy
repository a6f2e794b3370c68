/**
  What chapter-8/glox/lox/interpreter.go computes, as functions of the
  interpreter's state.

  The Go interpreter mutates its `environment` field and writes to standard
  output; here evaluation takes the scope chain (and, for statements, the
  output written so far) and returns the new ones together with the outcome.
  The `Interpreter` class in interpreter.dfy runs the same steps in place and
  is proved to agree with these functions.

  Go distinguishes three ways a visit can end: a value and a nil error, a
  non-nil error, and a runtime panic that ends the whole program. The panics
  that can happen are explicit `Halted` outcomes. An error also carries its
  dynamic type, because `Interpret` asserts that an error is a `RuntimeError`
  value and the operand checks return a `*RuntimeError` pointer instead.
*/
module Semantics {
  import opened Wrappers
  import opened Values
  import opened Tokens
  import opened Ast
  import Environment

  type Env = Environment.Env
  type RuntimeError = Environment.RuntimeError

  /** Why a run stops abruptly. */
  datatype Halt =
    | FailedTypeAssertion  // a `x.(T)` whose operand's dynamic type is not T
    | NilStatement         // `Accept` called on a nil statement
    | NoVisitMethod        // Logical, If and While: stands in for visit methods this interpreter lacks (such a program would not compile)

  /** A non-nil error, with its dynamic type: a `RuntimeError` value or a `*RuntimeError` pointer. */
  datatype Raised = ByValue(error: RuntimeError) | ByPointer(error: RuntimeError)

  datatype Outcome<T> = Normal(value: T) | Thrown(raised: Raised) | Halted(halt: Halt)

  /** An expression's outcome and the scope chain after evaluating it. */
  datatype Evaluated = Evaluated(outcome: Outcome<Value>, env: Env)

  /** The interpreter's observable state: the scope chain and the lines printed so far. */
  datatype State = State(env: Env, output: seq<string>)

  /** A statement's outcome (Go returns a nil value from every statement visit) and the state after it. */
  datatype Executed = Executed(outcome: Outcome<()>, state: State)

  /** The message of both operand checks. */
  const OperandsMessage := "Operands must be a number."

  /** The errors the interpreter can raise: an undefined variable (by value) or a failed operand check (by pointer). */
  predicate KnownError(raised: Raised) {
    match raised
    case ByValue(error) => error == Environment.UndefinedVariable(error.operator)
    case ByPointer(error) => error.message == OperandsMessage
  }

  /** isTruthy: nil and false are the only falsy values. */
  function IsTruthy(v: Value): (r: bool)
    ensures !r <==> v == Nil || v == Bool(false)
  {
    match v
    case Nil => false
    case Bool(b) => b
    case _ => true
  }

  /** isNumber: whether the value's dynamic type is a number type. */
  function IsNumber(v: Value): (r: bool)
    ensures r <==> v.Number?
  {
    v.Number?
  }

  /**
    isEqual: nil equals only nil; otherwise Go's interface comparison, under
    which values of different dynamic types are unequal and numbers compare
    with float64 `==`.
  */
  function IsEqual(arith: Arith, left: Value, right: Value): (eq: bool)
    ensures left.Nil? || right.Nil? ==> (eq <==> left.Nil? && right.Nil?)
    ensures eq ==> left.Nil? == right.Nil? && left.Bool? == right.Bool? && left.Number? == right.Number?
    ensures left.Bool? && right.Bool? ==> (eq <==> left.b == right.b)
    ensures left.Str? && right.Str? ==> (eq <==> left.s == right.s)
    ensures left.Number? && right.Number? ==> (eq <==> arith.equal(left.n, right.n))
  {
    if left.Nil? && right.Nil? then true
    else if left.Nil? then false
    else
      match (left, right)
      case (Bool(a), Bool(b)) => a == b
      case (Number(a), Number(b)) => arith.equal(a, b)
      case (Str(a), Str(b)) => a == b
      case _ => false
  }

  /** checkNumberOperands: no error exactly when both operands are numbers. */
  function CheckNumberOperands(operator: Token, left: Value, right: Value): (err: Option<Raised>)
    ensures err.None? <==> left.Number? && right.Number?
    ensures err.Some? ==> err.value == ByPointer(Environment.RuntimeError(operator, OperandsMessage))
  {
    if IsNumber(left) && IsNumber(right) then None
    else Some(ByPointer(Environment.RuntimeError(operator, OperandsMessage)))
  }

  /** checkNumberOperand: no error exactly when the operand is a number. */
  function CheckNumberOperand(operator: Token, operand: Value): (err: Option<Raised>)
    ensures err.None? <==> operand.Number?
    ensures err.Some? ==> err.value == ByPointer(Environment.RuntimeError(operator, OperandsMessage))
  {
    if IsNumber(operand) then None
    else Some(ByPointer(Environment.RuntimeError(operator, OperandsMessage)))
  }

  /**
    stringify: "nil", a number's decimal text, a string between double quotes
    (so the quotes can be stripped to recover it), and "Unknown type" for a
    boolean, which no case of the type switch matches.
  */
  function Stringify(arith: Arith, v: Value): (text: string)
    ensures v.Nil? ==> text == "nil"
    ensures v.Number? ==> text == arith.format(v.n)
    ensures v.Str? ==>
      |text| == |v.s| + 2 && text[0] == '"' && text[|text| - 1] == '"' && text[1..|text| - 1] == v.s
    ensures v.Bool? ==> text == "Unknown type"
  {
    match v
    case Nil => "nil"
    case Number(n) => arith.format(n)
    case Str(s) => "\"" + s + "\""
    case Bool(_) => "Unknown type"
  }

  /** How `+` turns a non-numeric operand pair into text: numbers are formatted, strings kept, anything else panics. */
  function Text(arith: Arith, v: Value): (r: Outcome<string>)
    ensures r.Normal? <==> v.Number? || v.Str?
    ensures r.Halted? ==> r.halt == FailedTypeAssertion
  {
    match v
    case Number(n) => Normal(arith.format(n))
    case Str(s) => Normal(s)
    case _ => Halted(FailedTypeAssertion)
  }

  /** The operators whose operands must both be numbers. */
  predicate NumericOperator(kind: TokenType) {
    kind in {Greater, GreaterEqual, Less, LessEqual, Minus, Slash, Star}
  }

  /**
    The switch of VisitBinaryExpr, applied to the two operand values.
    Comparisons yield booleans; `-`, `/` and `*` yield the decimal text of the
    result; `+` adds two numbers and otherwise concatenates the operands'
    text; an operator the switch does not list yields nil.
  */
  function BinaryOp(arith: Arith, operator: Token, left: Value, right: Value): (r: Outcome<Value>)
    ensures r.Thrown? <==> NumericOperator(operator.kind) && !(left.Number? && right.Number?)
    ensures r.Thrown? ==> r.raised == ByPointer(Environment.RuntimeError(operator, OperandsMessage))
    ensures r.Halted? <==>
      (operator.kind == Plus && !(left.Number? && right.Number?)
       && !((left.Number? || left.Str?) && (right.Number? || right.Str?)))
    ensures r.Halted? ==> r.halt == FailedTypeAssertion
    ensures r.Normal? && operator.kind in {Greater, GreaterEqual, Less, LessEqual, EqualEqual, BangEqual} ==> r.value.Bool?
    ensures r.Normal? && operator.kind in {Minus, Slash, Star} ==> r.value.Str?
    ensures operator.kind == Greater && left.Number? && right.Number? ==> r == Normal(Bool(arith.greater(left.n, right.n)))
    ensures operator.kind == GreaterEqual && left.Number? && right.Number? ==> r == Normal(Bool(arith.greaterEqual(left.n, right.n)))
    ensures operator.kind == Less && left.Number? && right.Number? ==> r == Normal(Bool(arith.less(left.n, right.n)))
    ensures operator.kind == LessEqual && left.Number? && right.Number? ==> r == Normal(Bool(arith.lessEqual(left.n, right.n)))
    ensures operator.kind == Minus && left.Number? && right.Number? ==> r == Normal(Str(arith.format(arith.sub(left.n, right.n))))
    ensures operator.kind == Slash && left.Number? && right.Number? ==> r == Normal(Str(arith.format(arith.div(left.n, right.n))))
    ensures operator.kind == Star && left.Number? && right.Number? ==> r == Normal(Str(arith.format(arith.mul(left.n, right.n))))
    ensures operator.kind == Plus && left.Number? && right.Number? ==> r == Normal(Number(arith.add(left.n, right.n)))
    ensures r.Normal? && operator.kind == Plus && !(left.Number? && right.Number?) ==>
      r == Normal(Str(Text(arith, left).value + Text(arith, right).value))
    ensures operator.kind == EqualEqual ==> r == Normal(Bool(IsEqual(arith, left, right)))
    ensures operator.kind == BangEqual ==> r == Normal(Bool(!IsEqual(arith, left, right)))
    ensures !NumericOperator(operator.kind) && operator.kind !in {Plus, EqualEqual, BangEqual} ==> r == Normal(Nil)
  {
    var check := CheckNumberOperands(operator, left, right);
    match operator.kind
    case Greater =>
      if check.Some? then Thrown(check.value) else Normal(Bool(arith.greater(left.n, right.n)))
    case GreaterEqual =>
      if check.Some? then Thrown(check.value) else Normal(Bool(arith.greaterEqual(left.n, right.n)))
    case Less =>
      if check.Some? then Thrown(check.value) else Normal(Bool(arith.less(left.n, right.n)))
    case LessEqual =>
      if check.Some? then Thrown(check.value) else Normal(Bool(arith.lessEqual(left.n, right.n)))
    case Minus =>
      if check.Some? then Thrown(check.value) else Normal(Str(arith.format(arith.sub(left.n, right.n))))
    case BangEqual => Normal(Bool(!IsEqual(arith, left, right)))
    case EqualEqual => Normal(Bool(IsEqual(arith, left, right)))
    case Plus =>
      if IsNumber(left) && IsNumber(right) then Normal(Number(arith.add(left.n, right.n)))
      else
        var leftText := Text(arith, left);
        if leftText.Halted? then Halted(leftText.halt)
        else
          var rightText := Text(arith, right);
          if rightText.Halted? then Halted(rightText.halt)
          else Normal(Str(leftText.value + rightText.value))
    case Slash =>
      if check.Some? then Thrown(check.value) else Normal(Str(arith.format(arith.div(left.n, right.n))))
    case Star =>
      if check.Some? then Thrown(check.value) else Normal(Str(arith.format(arith.mul(left.n, right.n))))
    case _ => Normal(Nil)
  }

  /**
    The switch of VisitUnaryExpr: `!` negates truthiness; `-` demands a
    number and yields that number's decimal text without negating it; any
    other operator yields nil.
  */
  function UnaryOp(arith: Arith, operator: Token, right: Value): (r: Outcome<Value>)
    ensures operator.kind == Bang ==> r == Normal(Bool(!IsTruthy(right)))
    ensures operator.kind == Minus && right.Number? ==> r == Normal(Str(arith.format(right.n)))
    ensures r.Thrown? <==> operator.kind == Minus && !right.Number?
    ensures r.Thrown? ==> r.raised == ByPointer(Environment.RuntimeError(operator, OperandsMessage))
    ensures !r.Halted?
  {
    match operator.kind
    case Bang => Normal(Bool(!IsTruthy(right)))
    case Minus =>
      var check := CheckNumberOperand(operator, right);
      if check.Some? then Thrown(check.value) else Normal(Str(arith.format(right.n)))
    case _ => Normal(Nil)
  }

  /** The expression contains an assignment, the only expression that changes a frame. */
  predicate Assigns(e: Expr) {
    match e
    case Assign(_, _) => true
    case Binary(left, _, right) => Assigns(left) || Assigns(right)
    case Grouping(inner) => Assigns(inner)
    case Unary(_, right) => Assigns(right)
    case Logical(left, _, right) => Assigns(left) || Assigns(right)
    case _ => false
  }

  /**
    evaluate: the outcome of an expression and the scope chain after it.
    Binary evaluates its right operand before its left one; Assign stores the
    value in the innermost frame that binds the name and ignores the
    undefined-variable error `Environment.Assign` returns. Evaluation never
    adds or removes frames, changes no frame unless the expression assigns,
    and every error it raises is one of the two known ones.
  */
  function Eval(arith: Arith, e: Expr, env: Env): (r: Evaluated)
    ensures |r.env| == |env|
    ensures !Assigns(e) ==> r.env == env
    ensures r.outcome.Thrown? ==> KnownError(r.outcome.raised)
  {
    match e
    case Literal(value) => Evaluated(Normal(value), env)
    case Grouping(inner) => Eval(arith, inner, env)
    case Variable(name) =>
      var found := Environment.Get(env, name);
      if found.Found? then Evaluated(Normal(found.value), env)
      else Evaluated(Thrown(ByValue(found.error)), env)
    case Assign(name, value) =>
      var v := Eval(arith, value, env);
      if !v.outcome.Normal? then v
      else Evaluated(v.outcome, Environment.Assign(v.env, name, v.outcome.value).env)
    case Unary(operator, right) =>
      var r := Eval(arith, right, env);
      if !r.outcome.Normal? then r
      else Evaluated(UnaryOp(arith, operator, r.outcome.value), r.env)
    case Binary(left, operator, right) =>
      var r := Eval(arith, right, env);
      if !r.outcome.Normal? then r
      else
        var l := Eval(arith, left, r.env);
        if !l.outcome.Normal? then l
        else Evaluated(BinaryOp(arith, operator, l.outcome.value, r.outcome.value), l.env)
    case Logical(_, _, _) => Evaluated(Halted(NoVisitMethod), env)
  }

  /** A statement visit returns a nil value: keep the error or the halt, drop the value. */
  function Discard(o: Outcome<Value>): (r: Outcome<()>)
    ensures r.Normal? <==> o.Normal?
    ensures r.Thrown? ==> o == Thrown(r.raised)
    ensures r.Halted? ==> o == Halted(r.halt)
  {
    match o
    case Normal(_) => Normal(())
    case Thrown(raised) => Thrown(raised)
    case Halted(halt) => Halted(halt)
  }

  /**
    The chain executeBlock leaves behind: `previous`, the copy of the frame
    that was current at entry, in front of that frame's enclosing chain as the
    block left it. `inner` is the chain inside the block, whose first frame is
    the block's own and whose second is the frame that was current at entry.
  */
  function Restore(entry: Env, inner: Env): (env: Env)
    requires |entry| > 0 && |inner| >= 2
    ensures |env| == |inner| - 1 && env[0] == entry[0] && env[1..] == inner[2..]
  {
    [entry[0]] + inner[2..]
  }

  /**
    execute: run one statement. Expression and Print evaluate their
    expression (Print then writes the stringified value as a line); Var
    defines the name in the current frame, as nil without an initializer;
    Block runs in a new frame. Statements never add or remove frames and
    only ever append to the output.
  */
  function Exec(arith: Arith, s: Stmt, st: State): (r: Executed)
    requires |st.env| > 0
    ensures |r.state.env| == |st.env|
    ensures st.output <= r.state.output
    ensures r.outcome.Thrown? ==> KnownError(r.outcome.raised)
    decreases s, 0
  {
    match s
    case Expression(e) =>
      var v := Eval(arith, e, st.env);
      Executed(Discard(v.outcome), State(v.env, st.output))
    case Print(e) =>
      var v := Eval(arith, e, st.env);
      if v.outcome.Normal? then Executed(Normal(()), State(v.env, st.output + [Stringify(arith, v.outcome.value)]))
      else Executed(Discard(v.outcome), State(v.env, st.output))
    case Var(name, initializer) =>
      if initializer.None? then Executed(Normal(()), State(Environment.Define(st.env, name.lexeme, Nil), st.output))
      else
        var v := Eval(arith, initializer.value, st.env);
        if !v.outcome.Normal? then Executed(Discard(v.outcome), State(v.env, st.output))
        else Executed(Normal(()), State(Environment.Define(v.env, name.lexeme, v.outcome.value), st.output))
    case Block(statements) => ExecBlock(arith, statements, st)
    case If(_, _, _) => Executed(Halted(NoVisitMethod), st)
    case While(_, _) => Executed(Halted(NoVisitMethod), st)
  }

  /**
    executeBlock, entered from VisitBlockStmt with a new frame in front of the
    current chain: the statements run until the first that does not finish
    normally, and the chain is then restored from the copy taken at entry. An
    error inside the block is dropped, so a block never raises one, and the
    frame that was current at entry comes back exactly as it was: what the
    block assigned there is lost, while what it assigned further out stays.
    A statement that halts (a Go panic) leaves executeBlock without the
    restoring assignment; the chain is restored here all the same, which no
    later step can observe, since a halted run does nothing more.
  */
  function ExecBlock(arith: Arith, statements: seq<Option<Stmt>>, st: State): (r: Executed)
    requires |st.env| > 0
    ensures |r.state.env| == |st.env|
    ensures st.output <= r.state.output
    ensures !r.outcome.Thrown?
    ensures r.state.env[0] == st.env[0]
    decreases statements, 1
  {
    var inner := ExecItems(arith, statements, State(Environment.NewEnvironment(st.env), st.output));
    var restored := State(Restore(st.env, inner.state.env), inner.state.output);
    if inner.outcome.Halted? then Executed(inner.outcome, restored)
    else Executed(Normal(()), restored)
  }

  /** execute: a statement slot of a list; a nil statement panics when its `Accept` is called. */
  function Execute(arith: Arith, s: Option<Stmt>, st: State): (r: Executed)
    requires |st.env| > 0
    ensures |r.state.env| == |st.env|
    ensures st.output <= r.state.output
    ensures r.outcome.Thrown? ==> KnownError(r.outcome.raised)
    ensures s.None? ==> r == Executed(Halted(NilStatement), st)
    decreases s, 0
  {
    match s
    case None => Executed(Halted(NilStatement), st)
    case Some(stmt) => Exec(arith, stmt, st)
  }

  /** The statements of a block in order, stopping at the first one that does not finish normally. */
  function ExecItems(arith: Arith, statements: seq<Option<Stmt>>, st: State): (r: Executed)
    requires |st.env| > 0
    ensures |r.state.env| == |st.env|
    ensures st.output <= r.state.output
    ensures r.outcome.Thrown? ==> KnownError(r.outcome.raised)
    decreases statements, 0
  {
    if statements == [] then Executed(Normal(()), st)
    else
      var first := Execute(arith, statements[0], st);
      if !first.outcome.Normal? then first
      else ExecItems(arith, statements[1..], first.state)
  }

  /**
    A block stops at its first statement that does not finish normally:
    running `a + b` is running `a` and, only when every statement of `a`
    finished normally, running `b` from the state `a` left.
  */
  lemma {:induction false} ExecItemsAppend(arith: Arith, a: seq<Option<Stmt>>, b: seq<Option<Stmt>>, st: State)
    requires |st.env| > 0
    ensures ExecItems(arith, a + b, st) ==
      (var r := ExecItems(arith, a, st); if !r.outcome.Normal? then r else ExecItems(arith, b, r.state))
    decreases a
  {
    if a == [] {
      assert a + b == b;
    } else {
      assert (a + b)[0] == a[0] && (a + b)[1..] == a[1..] + b;
      var first := Execute(arith, a[0], st);
      if first.outcome.Normal? {
        ExecItemsAppend(arith, a[1..], b, first.state);
      }
    }
  }

  /** What Interpret leaves behind: the state, the runtime errors it reported, and the halt that ended it, if any. */
  datatype Ran = Ran(state: State, reported: seq<RuntimeError>, halted: Option<Halt>)

  /**
    Interpret: run the top-level statements in order. An error that is a
    `RuntimeError` value (an undefined variable) is reported and the run goes
    on with the next statement; an error that is a pointer fails the type
    assertion in the report call, and a halt ends the run. Only
    undefined-variable errors are ever reported, and the chain keeps its
    number of frames.
  */
  function Run(arith: Arith, statements: seq<Option<Stmt>>, st: State, reported: seq<RuntimeError>): (r: Ran)
    requires |st.env| > 0
    ensures |r.state.env| == |st.env|
    ensures st.output <= r.state.output
    ensures reported <= r.reported
    ensures forall i :: |reported| <= i < |r.reported| ==>
      r.reported[i] == Environment.UndefinedVariable(r.reported[i].operator)
  {
    if statements == [] then Ran(st, reported, None)
    else
      var first := Execute(arith, statements[0], st);
      match first.outcome
      case Normal(_) => Run(arith, statements[1..], first.state, reported)
      case Thrown(ByValue(error)) => Run(arith, statements[1..], first.state, reported + [error])
      case Thrown(ByPointer(_)) => Ran(first.state, reported, Some(FailedTypeAssertion))
      case Halted(halt) => Ran(first.state, reported, Some(halt))
  }

  /**
    Only a halt ends a run: running `a + b` is running `a` and, unless that
    halted, running `b` from the state and report list `a` left. A reported
    error therefore never stops the statements after it.
  */
  lemma {:induction false} RunAppend(arith: Arith, a: seq<Option<Stmt>>, b: seq<Option<Stmt>>, st: State, reported: seq<RuntimeError>)
    requires |st.env| > 0
    ensures Run(arith, a + b, st, reported) ==
      (var r := Run(arith, a, st, reported); if r.halted.Some? then r else Run(arith, b, r.state, r.reported))
    decreases a
  {
    if a == [] {
      assert a + b == b;
    } else {
      assert (a + b)[0] == a[0] && (a + b)[1..] == a[1..] + b;
      var first := Execute(arith, a[0], st);
      match first.outcome
      case Normal(_) => RunAppend(arith, a[1..], b, first.state, reported);
      case Thrown(ByValue(error)) => RunAppend(arith, a[1..], b, first.state, reported + [error]);
      case _ =>
    }
  }

  /** The statement contains an assignment expression anywhere in it. */
  predicate StmtAssigns(s: Stmt)
    decreases s, 1
  {
    match s
    case Expression(e) => Assigns(e)
    case Print(e) => Assigns(e)
    case Var(_, initializer) => initializer.Some? && Assigns(initializer.value)
    case Block(statements) => exists i :: 0 <= i < |statements| && SlotAssigns(statements[i])
    case If(condition, thenBranch, elseBranch) =>
      Assigns(condition) || StmtAssigns(thenBranch) || SlotAssigns(elseBranch)
    case While(condition, body) => (condition.Some? && Assigns(condition.value)) || StmtAssigns(body)
  }

  predicate SlotAssigns(s: Option<Stmt>)
    decreases s, 0
  {
    s.Some? && StmtAssigns(s.value)
  }

  /** `!` applied twice gives the operand's truthiness as a boolean. */
  lemma BangTwice(arith: Arith, bang: Token, v: Value)
    requires bang.kind == Bang
    ensures UnaryOp(arith, bang, UnaryOp(arith, bang, v).value) == Normal(Bool(IsTruthy(v)))
  {
  }

  /**
    Binary evaluates its right operand first. When that does not finish
    normally, its outcome and chain are the Binary's; otherwise the left
    operand is evaluated in the chain the right one left behind, and the
    operator is applied to the two values.
  */
  lemma BinaryRightFirst(arith: Arith, left: Expr, operator: Token, right: Expr, env: Env)
    ensures var r := Eval(arith, right, env);
      && (!r.outcome.Normal? ==> Eval(arith, Binary(left, operator, right), env) == r)
      && (r.outcome.Normal? ==>
            var l := Eval(arith, left, r.env);
            && (!l.outcome.Normal? ==> Eval(arith, Binary(left, operator, right), env) == l)
            && (l.outcome.Normal? ==>
                  Eval(arith, Binary(left, operator, right), env)
                    == Evaluated(BinaryOp(arith, operator, l.outcome.value, r.outcome.value), l.env)))
  {
  }

  /** When the right operand raises or halts, the left operand is never evaluated: any left operand gives the same result. */
  lemma RightFailureSkipsLeft(arith: Arith, left: Expr, left': Expr, operator: Token, right: Expr, env: Env)
    requires !Eval(arith, right, env).outcome.Normal?
    ensures Eval(arith, Binary(left, operator, right), env) == Eval(arith, Binary(left', operator, right), env)
  {
  }

  /**
    An assignment yields the assigned value and the chain `Environment.Assign`
    leaves. Its undefined-variable error is ignored: for an unbound name the
    chain stays as the value left it and the outcome is still the value; for
    a bound name the value can be read back.
  */
  lemma AssignYieldsValue(arith: Arith, name: Token, value: Expr, env: Env, v: Value, env': Env)
    requires Eval(arith, value, env) == Evaluated(Normal(v), env')
    ensures Eval(arith, Assign(name, value), env) == Evaluated(Normal(v), Environment.Assign(env', name, v).env)
    ensures !Environment.Defines(env', name.lexeme) ==> Eval(arith, Assign(name, value), env) == Evaluated(Normal(v), env')
    ensures Environment.Defines(env', name.lexeme) ==>
      Environment.Get(Eval(arith, Assign(name, value), env).env, name) == Environment.Found(v)
  {
    if Environment.Defines(env', name.lexeme) {
      Environment.AssignThenGet(env', name, v);
    }
  }

  /** `var name;` defines the name as nil in the current frame and writes nothing. */
  lemma VarWithoutInitializer(arith: Arith, name: Token, st: State)
    requires |st.env| > 0
    ensures var r := Exec(arith, Var(name, None), st);
      && r == Executed(Normal(()), State(Environment.Define(st.env, name.lexeme, Nil), st.output))
      && Environment.Get(r.state.env, name) == Environment.Found(Nil)
  {
    Environment.DefineThenGet(st.env, name, Nil);
  }

  /** `var name = init;` defines the name as the initializer's value in the chain the initializer left, and writes nothing. */
  lemma VarWithInitializer(arith: Arith, name: Token, init: Expr, st: State, v: Value, env': Env)
    requires |st.env| > 0 && Eval(arith, init, st.env) == Evaluated(Normal(v), env')
    ensures var r := Exec(arith, Var(name, Some(init)), st);
      && r == Executed(Normal(()), State(Environment.Define(env', name.lexeme, v), st.output))
      && Environment.Get(r.state.env, name) == Environment.Found(v)
  {
    Environment.DefineThenGet(env', name, v);
  }

  /**
    `print e;` appends the stringified value of `e` as one line. When `e`
    raises or halts, nothing is written and the statement ends the same way.
  */
  lemma PrintWrites(arith: Arith, e: Expr, st: State)
    requires |st.env| > 0
    ensures var v := Eval(arith, e, st.env); var r := Exec(arith, Print(e), st);
      && r.state.env == v.env
      && (v.outcome.Normal? ==> r.outcome == Normal(()) && r.state.output == st.output + [Stringify(arith, v.outcome.value)])
      && (!v.outcome.Normal? ==> r.outcome == Discard(v.outcome) && r.state.output == st.output)
  {
  }

  /** An expression statement writes nothing: only its chain and its error or halt remain. */
  lemma ExpressionWritesNothing(arith: Arith, e: Expr, st: State)
    requires |st.env| > 0
    ensures var v := Eval(arith, e, st.env);
      Exec(arith, Expression(e), st) == Executed(Discard(v.outcome), State(v.env, st.output))
  {
  }

  /**
    A statement without assignments can change only the current frame (by a
    `var` declaration): every enclosing frame is left as it was.
  */
  lemma {:induction false} ExecKeepsEnclosing(arith: Arith, s: Stmt, st: State)
    requires |st.env| > 0 && !StmtAssigns(s)
    ensures Exec(arith, s, st).state.env[1..] == st.env[1..]
    decreases s, 0
  {
    match s
    case Block(statements) =>
      BlockKeepsChain(arith, statements, st);
    case _ =>
  }

  lemma {:induction false} SlotKeepsEnclosing(arith: Arith, s: Option<Stmt>, st: State)
    requires |st.env| > 0 && !SlotAssigns(s)
    ensures Execute(arith, s, st).state.env[1..] == st.env[1..]
    decreases s, 0
  {
    if s.Some? {
      ExecKeepsEnclosing(arith, s.value, st);
    }
  }

  lemma {:induction false} ItemsKeepEnclosing(arith: Arith, statements: seq<Option<Stmt>>, st: State)
    requires |st.env| > 0 && forall i :: 0 <= i < |statements| ==> !SlotAssigns(statements[i])
    ensures ExecItems(arith, statements, st).state.env[1..] == st.env[1..]
    decreases statements, 0
  {
    if statements != [] {
      assert !SlotAssigns(statements[0]);
      SlotKeepsEnclosing(arith, statements[0], st);
      var first := Execute(arith, statements[0], st);
      if first.outcome.Normal? {
        ItemsKeepEnclosing(arith, statements[1..], first.state);
      }
    }
  }

  /**
    A block whose statements assign nothing leaves the whole scope chain as
    it found it: its own declarations disappear with its frame.
  */
  lemma {:induction false} BlockKeepsChain(arith: Arith, statements: seq<Option<Stmt>>, st: State)
    requires |st.env| > 0 && forall i :: 0 <= i < |statements| ==> !SlotAssigns(statements[i])
    ensures ExecBlock(arith, statements, st).state.env == st.env
    decreases statements, 1
  {
    var entry := Environment.NewEnvironment(st.env);
    ItemsKeepEnclosing(arith, statements, State(entry, st.output));
    var inner := ExecItems(arith, statements, State(entry, st.output)).state.env;
    assert inner[2..] == inner[1..][1..] == st.env[1..];
    assert st.env == [st.env[0]] + st.env[1..];
  }
}
