/**
  Small programs whose behaviour under chapter-8/glox/lox/interpreter.go is
  easy to get wrong: the order in which a binary expression evaluates its
  operands, what a block restores, which runtime errors are reported and
  which end the run. `x` and `y` are arbitrary number values.
*/
module SemanticsExamples {
  import opened Wrappers
  import opened Values
  import opened Tokens
  import opened Ast
  import opened Semantics
  import Environment

  const a := Token(Identifier, "a", Nil, 1)
  const b := Token(Identifier, "b", Nil, 1)
  const plus := Token(Plus, "+", Nil, 1)
  const minus := Token(Minus, "-", Nil, 1)

  /**
    `(a = x) + (a = y)`: the right operand runs first, so the left
    assignment is the one that sticks.
  */
  lemma RightOperandFirst(arith: Arith, x: Float64, y: Float64)
    ensures var r := Eval(arith, Binary(Assign(a, Literal(Number(x))), plus, Assign(a, Literal(Number(y)))), [map["a" := Nil]]);
      r.outcome == Normal(Number(arith.add(x, y))) && r.env == [map["a" := Number(x)]]
  {
    var env := [map["a" := Nil]];
    assert Eval(arith, Literal(Number(y)), env) == Evaluated(Normal(Number(y)), env);
    Environment.AssignCurrentFrame(env, a, Number(y));
    assert env[0]["a" := Number(y)] == map["a" := Number(y)];
    var right := Eval(arith, Assign(a, Literal(Number(y))), env);
    assert right.env == [map["a" := Number(y)]];
    assert Eval(arith, Literal(Number(x)), right.env) == Evaluated(Normal(Number(x)), right.env);
    Environment.AssignCurrentFrame(right.env, a, Number(x));
    assert right.env[0]["a" := Number(x)] == map["a" := Number(x)];
    var left := Eval(arith, Assign(a, Literal(Number(x))), right.env);
    assert left.env == [map["a" := Number(x)]];
  }

  /**
    `(a = x) + b` with `b` undefined: the right operand's error comes back
    before the left operand runs, so `a` is not stored.
  */
  lemma RightErrorSkipsLeft(arith: Arith, x: Float64)
    ensures var r := Eval(arith, Binary(Assign(a, Literal(Number(x))), plus, Variable(b)), [map["a" := Nil]]);
      r.outcome == Thrown(ByValue(Environment.UndefinedVariable(b))) && r.env == [map["a" := Nil]]
  {
    var env := [map["a" := Nil]];
    assert Environment.Get(env, b) == Environment.Undefined(Environment.UndefinedVariable(b)) by {
      assert !Environment.Defines(env, "b");
    }
  }

  /**
    `{ a = y; }` run where `a` is bound in the current frame: the block
    restores its copy of that frame, so the assignment is lost.
  */
  lemma BlockLosesAssignment(arith: Arith, x: Float64, y: Float64)
    ensures var st := State([map["a" := Number(x)]], []);
      Exec(arith, Block([Some(Expression(Assign(a, Literal(Number(y)))))]), st) == Executed(Normal(()), st)
  {
    var st := State([map["a" := Number(x)]], []);
    var inner := [map[], map["a" := Number(x)]];
    Environment.AssignInnermost(inner, a, Number(y), 1);
    assert inner[1]["a" := Number(y)] == map["a" := Number(y)];
    assert inner[1 := inner[1]["a" := Number(y)]] == [map[], map["a" := Number(y)]];
    var statement := Expression(Assign(a, Literal(Number(y))));
    assert Eval(arith, Literal(Number(y)), inner) == Evaluated(Normal(Number(y)), inner);
    assert Exec(arith, statement, State(inner, [])) == Executed(Normal(()), State([map[], map["a" := Number(y)]], []));
    var done := State([map[], map["a" := Number(y)]], []);
    assert Execute(arith, Some(statement), State(inner, [])) == Executed(Normal(()), done);
    assert [Some(statement)][1..] == [];
    assert ExecItems(arith, [], done) == Executed(Normal(()), done);
    var items := ExecItems(arith, [Some(statement)], State(inner, []));
    assert items.state.env == [map[], map["a" := Number(y)]];
    assert Restore(st.env, items.state.env) == st.env;
    assert Environment.NewEnvironment(st.env) == inner;
    assert ExecBlock(arith, [Some(statement)], st) == Executed(Normal(()), st);
  }

  /**
    The same block one level deeper, where `a` lives in the frame enclosing
    the current one: that frame is shared, not copied, so the assignment
    stays.
  */
  lemma BlockKeepsOuterAssignment(arith: Arith, x: Float64, y: Float64)
    ensures var st := State([map[], map["a" := Number(x)]], []);
      Exec(arith, Block([Some(Expression(Assign(a, Literal(Number(y)))))]), st)
        == Executed(Normal(()), State([map[], map["a" := Number(y)]], []))
  {
    var inner := [map[], map[], map["a" := Number(x)]];
    Environment.AssignInnermost(inner, a, Number(y), 2);
    assert inner[2]["a" := Number(y)] == map["a" := Number(y)];
    assert inner[2 := inner[2]["a" := Number(y)]] == [map[], map[], map["a" := Number(y)]];
    var statement := Expression(Assign(a, Literal(Number(y))));
    assert Eval(arith, Literal(Number(y)), inner) == Evaluated(Normal(Number(y)), inner);
    assert Exec(arith, statement, State(inner, [])) == Executed(Normal(()), State([map[], map[], map["a" := Number(y)]], []));
    var done := State([map[], map[], map["a" := Number(y)]], []);
    assert Execute(arith, Some(statement), State(inner, [])) == Executed(Normal(()), done);
    assert [Some(statement)][1..] == [];
    assert ExecItems(arith, [], done) == Executed(Normal(()), done);
    var items := ExecItems(arith, [Some(statement)], State(inner, []));
    assert items.state.env == [map[], map[], map["a" := Number(y)]];
    var st := State([map[], map["a" := Number(x)]], []);
    assert Restore(st.env, items.state.env) == [map[], map["a" := Number(y)]];
    assert Environment.NewEnvironment(st.env) == inner;
    assert ExecBlock(arith, [Some(statement)], st) == Executed(Normal(()), State([map[], map["a" := Number(y)]], []));
  }

  /**
    `{ var a = y; print a; }` where the current frame binds `a` to `x`: the
    block's declaration shadows the outer one while the block runs and is
    gone afterwards.
  */
  lemma BlockShadows(arith: Arith, x: Float64, y: Float64)
    ensures var st := State([map["a" := Number(x)]], []);
      Exec(arith, Block([Some(Var(a, Some(Literal(Number(y))))), Some(Print(Variable(a)))]), st)
        == Executed(Normal(()), State(st.env, [arith.format(y)]))
  {
    var st := State([map["a" := Number(x)]], []);
    var inner := State([map[], map["a" := Number(x)]], []);
    var declared := State([map["a" := Number(y)], map["a" := Number(x)]], []);
    var declaration := Var(a, Some(Literal(Number(y))));
    var show := Print(Variable(a));
    assert Eval(arith, Literal(Number(y)), inner.env) == Evaluated(Normal(Number(y)), inner.env);
    assert map[]["a" := Number(y)] == map["a" := Number(y)];
    assert Exec(arith, declaration, inner) == Executed(Normal(()), declared);
    assert Environment.Get(declared.env, a) == Environment.Found(Number(y));
    var printed := State(declared.env, [arith.format(y)]);
    assert Exec(arith, show, declared) == Executed(Normal(()), printed);
    var items := [Some(declaration), Some(show)];
    assert items[1..] == [Some(show)] && items[1..][1..] == [];
    assert ExecItems(arith, [], printed) == Executed(Normal(()), printed);
    assert ExecItems(arith, [Some(show)], declared) == Executed(Normal(()), printed);
    assert ExecItems(arith, items, inner) == Executed(Normal(()), printed);
    assert Environment.NewEnvironment(st.env) == inner.env;
    assert Restore(st.env, printed.env) == st.env;
  }

  /**
    `print b; print "s";` with `b` undefined: the error is reported and the
    next statement still runs.
  */
  lemma ReportedErrorContinues(arith: Arith)
    ensures var st := State([map[]], []);
      Run(arith, [Some(Print(Variable(b))), Some(Print(Literal(Str("s"))))], st, [])
        == Ran(State([map[]], ["\"s\""]), [Environment.UndefinedVariable(b)], None)
  {
    var st := State([map[]], []);
    var errors := [Environment.UndefinedVariable(b)];
    assert Environment.Get(st.env, b).Undefined? by {
      assert !Environment.Defines(st.env, "b");
    }
    assert Execute(arith, Some(Print(Variable(b))), st) == Executed(Thrown(ByValue(errors[0])), st);
    var printed := State([map[]], ["\"s\""]);
    assert Stringify(arith, Str("s")) == "\"s\"";
    assert [] + ["\"s\""] == printed.output;
    assert Execute(arith, Some(Print(Literal(Str("s")))), st) == Executed(Normal(()), printed);
    var program := [Some(Print(Variable(b))), Some(Print(Literal(Str("s"))))];
    assert program[1..] == [program[1]] && program[1..][1..] == [];
    assert Run(arith, [], printed, errors) == Ran(printed, errors, None);
    assert Run(arith, program[1..], st, errors) == Ran(printed, errors, None);
    assert [] + [errors[0]] == errors;
  }

  /**
    `print -"s"; print "s";`: the operand check's error is a pointer, the
    report call's type assertion fails, and the run ends before the second
    statement.
  */
  lemma OperandErrorEndsRun(arith: Arith)
    ensures var st := State([map[]], []);
      Run(arith, [Some(Print(Unary(minus, Literal(Str("s"))))), Some(Print(Literal(Str("s"))))], st, [])
        == Ran(st, [], Some(FailedTypeAssertion))
  {
  }

  /**
    `{ print b; print "s"; }` with `b` undefined: the block stops at the
    error and drops it, so nothing is printed and nothing is reported.
  */
  lemma BlockDropsError(arith: Arith)
    ensures var st := State([map[]], []);
      Run(arith, [Some(Block([Some(Print(Variable(b))), Some(Print(Literal(Str("s"))))]))], st, [])
        == Ran(st, [], None)
  {
    var st := State([map[]], []);
    var inner := State([map[], map[]], []);
    assert Environment.Get(inner.env, b).Undefined? by {
      assert !Environment.Defines(inner.env, "b");
    }
    var failed := Executed(Thrown(ByValue(Environment.UndefinedVariable(b))), inner);
    assert Exec(arith, Print(Variable(b)), inner) == failed;
    var items := [Some(Print(Variable(b))), Some(Print(Literal(Str("s"))))];
    assert ExecItems(arith, items, inner) == failed;
    assert Environment.NewEnvironment(st.env) == inner.env;
    assert Restore(st.env, inner.env) == st.env;
    assert ExecBlock(arith, items, st) == Executed(Normal(()), st);
    assert Execute(arith, Some(Block(items)), st) == Executed(Normal(()), st);
    var program := [Some(Block(items))];
    assert program[1..] == [];
    assert Run(arith, [], st, []) == Ran(st, [], None);
  }
}
