/**
  The `Interpreter` of chapter-8/glox/lox/interpreter.go as a class.

  The Go struct holds a pointer to the current environment, which the visit
  methods update in place and executeBlock swaps and restores; printing goes
  to standard output, and a reported runtime error goes to standard error.
  Here the scope chain, the printed lines and the reported errors are fields,
  and every method is proved to leave them exactly as the functions of
  module Semantics say.
*/
module Interpreter {
  import opened Wrappers
  import opened Values
  import opened Ast
  import opened Semantics
  import Environment

  class Interpreter {
    /** The number operations the Go code gets from float64 and strconv. */
    const arith: Arith
    /** The chain the `environment` pointer leads to, innermost frame first. */
    var environment: Env
    /** The lines written by `print` statements. */
    var output: seq<string>
    /** The errors passed to ReportRuntimeError. */
    var reported: seq<RuntimeError>

    /** NewInterpreter: one global frame with no bindings; nothing printed or reported yet. */
    constructor(arith: Arith)
      ensures this.arith == arith
      ensures environment == [map[]] && output == [] && reported == []
    {
      this.arith := arith;
      environment := Environment.NewEnvironment([]);
      output := [];
      reported := [];
    }

    /** evaluate and the expression visitors. */
    method Evaluate(e: Expr) returns (o: Outcome<Value>)
      modifies this
      ensures Evaluated(o, environment) == Eval(arith, e, old(environment))
      ensures output == old(output) && reported == old(reported)
      decreases e
    {
      match e
      case Literal(value) =>
        o := Normal(value);
      case Grouping(inner) =>
        o := Evaluate(inner);
      case Variable(name) =>
        var found := Environment.Get(environment, name);
        if found.Found? {
          o := Normal(found.value);
        } else {
          o := Thrown(ByValue(found.error));
        }
      case Assign(name, value) =>
        o := Evaluate(value);
        if o.Normal? {
          var stored := Environment.Assign(environment, name, o.value);
          environment := stored.env;
        }
      case Unary(operator, right) =>
        var r := Evaluate(right);
        if !r.Normal? {
          return r;
        }
        o := UnaryOp(arith, operator, r.value);
      case Binary(left, operator, right) =>
        var r := Evaluate(right);
        if !r.Normal? {
          return r;
        }
        var l := Evaluate(left);
        if !l.Normal? {
          return l;
        }
        o := BinaryOp(arith, operator, l.value, r.value);
      case Logical(_, _, _) =>
        o := Halted(NoVisitMethod);
    }

    /** execute: dispatch a statement slot to its visitor; a nil statement panics. */
    method Execute(s: Option<Stmt>) returns (o: Outcome<()>)
      requires |environment| > 0
      modifies this
      ensures Executed(o, State(environment, output)) == Semantics.Execute(arith, s, old(State(environment, output)))
      ensures reported == old(reported)
      decreases s, 0
    {
      match s
      case None =>
        o := Halted(NilStatement);
      case Some(stmt) =>
        o := Visit(stmt);
    }

    /** The statement visitors. */
    method Visit(s: Stmt) returns (o: Outcome<()>)
      requires |environment| > 0
      modifies this
      ensures Executed(o, State(environment, output)) == Exec(arith, s, old(State(environment, output)))
      ensures reported == old(reported)
      decreases s, 0
    {
      match s
      case Expression(e) =>
        var v := Evaluate(e);
        o := Discard(v);
      case Print(e) =>
        var v := Evaluate(e);
        if v.Normal? {
          output := output + [Stringify(arith, v.value)];
          o := Normal(());
        } else {
          o := Discard(v);
        }
      case Var(name, initializer) =>
        var value := Nil;
        if initializer.Some? {
          var v := Evaluate(initializer.value);
          if !v.Normal? {
            return Discard(v);
          }
          value := v.value;
        }
        environment := Environment.Define(environment, name.lexeme, value);
        o := Normal(());
      case Block(statements) =>
        o := ExecuteBlock(statements);
      case If(_, _, _) =>
        o := Halted(NoVisitMethod);
      case While(_, _) =>
        o := Halted(NoVisitMethod);
    }

    /**
      VisitBlockStmt and executeBlock: copy the current frame, run the
      statements in a new frame until one does not finish normally, then
      restore the copy in front of the (shared) enclosing frames. An error
      ends the block without being passed on.
    */
    method ExecuteBlock(statements: seq<Option<Stmt>>) returns (o: Outcome<()>)
      requires |environment| > 0
      modifies this
      ensures Executed(o, State(environment, output)) == ExecBlock(arith, statements, old(State(environment, output)))
      ensures reported == old(reported)
      decreases statements, 1
    {
      var previous := Environment.Copy(environment);
      environment := Environment.NewEnvironment(environment);
      ghost var entry := State(environment, output);
      var i := 0;
      while i < |statements|
        invariant 0 <= i <= |statements|
        invariant |environment| == |previous| + 1
        invariant ExecItems(arith, statements, entry) == ExecItems(arith, statements[i..], State(environment, output))
        invariant reported == old(reported)
      {
        assert statements[i..][0] == statements[i] && statements[i..][1..] == statements[i + 1..];
        var r := Execute(statements[i]);
        if !r.Normal? {
          environment := Restore(previous, environment);
          if r.Halted? {
            return r;
          }
          return Normal(());
        }
        i := i + 1;
      }
      environment := Restore(previous, environment);
      o := Normal(());
    }

    /**
      Interpret: execute the statements in order; report an error that is a
      RuntimeError value and go on, stop at an error that is a pointer (the
      report's type assertion panics) and at a halt.
    */
    method Interpret(statements: seq<Option<Stmt>>) returns (halted: Option<Halt>)
      requires |environment| > 0
      modifies this
      ensures Ran(State(environment, output), reported, halted)
        == Run(arith, statements, old(State(environment, output)), old(reported))
    {
      ghost var start := State(environment, output);
      var i := 0;
      while i < |statements|
        invariant 0 <= i <= |statements|
        invariant |environment| > 0
        invariant Run(arith, statements, start, old(reported))
          == Run(arith, statements[i..], State(environment, output), reported)
      {
        assert statements[i..][0] == statements[i] && statements[i..][1..] == statements[i + 1..];
        var r := Execute(statements[i]);
        match r {
          case Normal(_) =>
          case Thrown(ByValue(error)) =>
            reported := reported + [error];
          case Thrown(ByPointer(_)) =>
            return Some(FailedTypeAssertion);
          case Halted(halt) =>
            return Some(halt);
        }
        i := i + 1;
      }
      halted := None;
    }
  }
}
