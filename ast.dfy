/**
  The syntax tree of chapter-10/glox/lox/expr.go and stmt.go.

  Each Go node struct becomes a constructor with the struct's fields in the
  same order; the `New*` functions are the constructors themselves, and the
  visitor's `Accept` dispatch becomes `match`. An expression field or a
  statement field that the parser can leave nil is an `Option`.
*/
module Ast {
  import opened Wrappers
  import opened Values
  import opened Tokens

  datatype Expr =
    | Assign(name: Token, value: Expr)
    | Binary(left: Expr, operator: Token, right: Expr)
    | Grouping(expression: Expr)
    | Literal(literal: Value)
    | Logical(left: Expr, operator: Token, right: Expr)
    | Unary(operator: Token, right: Expr)
    | Variable(name: Token)

  datatype Stmt =
    | Block(statements: seq<Option<Stmt>>)
    | Expression(expression: Expr)
    | If(condition: Expr, thenBranch: Stmt, elseBranch: Option<Stmt>)
    | Print(expression: Expr)
    | Var(name: Token, initializer: Option<Expr>)
    | While(cond: Option<Expr>, body: Stmt)
}
