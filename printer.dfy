/**
  The AstPrinter of chapter-8/glox/lox/ast_printer.go: an expression tree
  written out in fully parenthesised prefix form, such as `(+ 1 (* 2 3))`.

  Go's printer returns an `interface{}` that `Print` and `parenthesize`
  assert to be a string. The Assign and Variable visitors return nil and a
  boolean literal fails the literal visitor's own string assertion; each of
  these panics, which the model records as `Panics`. The printer has no
  VisitLogicalExpr method, which the visitor interface of the Logical node
  requires, so Go code giving it such a tree would not compile; `Panics`
  stands in for that missing method as well.
*/
module AstPrinter {
  import opened Values
  import opened Tokens
  import opened Ast

  datatype Printed = Text(text: string) | Panics

  /** Number of nodes, which makes the recursion through parenthesize's child list well founded. */
  function Size(e: Expr): (n: nat)
    ensures n >= 1
  {
    match e
    case Assign(_, value) => 1 + Size(value)
    case Binary(left, _, right) => 1 + Size(left) + Size(right)
    case Grouping(inner) => 1 + Size(inner)
    case Literal(_) => 1
    case Logical(left, _, right) => 1 + Size(left) + Size(right)
    case Unary(_, right) => 1 + Size(right)
    case Variable(_) => 1
  }

  function SizeAll(exprs: seq<Expr>): nat {
    if exprs == [] then 0 else Size(exprs[0]) + SizeAll(exprs[1..])
  }

  lemma SizeAllOfTwo(left: Expr, right: Expr)
    ensures SizeAll([left, right]) == Size(left) + Size(right)
  {
    assert [left, right][1..] == [right];
    assert [right][1..] == [];
    assert SizeAll([right]) == Size(right) + SizeAll([]);
  }

  /** The trees the printer can write out: every node a binary, unary or grouping node or a nil, number or string literal. */
  predicate Printable(e: Expr) {
    match e
    case Binary(left, _, right) => Printable(left) && Printable(right)
    case Grouping(inner) => Printable(inner)
    case Unary(_, right) => Printable(right)
    case Literal(value) => !value.Bool?
    case _ => false
  }

  /**
    Print: text exactly for the printable trees. The text of a binary, unary
    or grouping node is parenthesised; a literal prints as "nil", as a
    number's decimal text, or as the string itself with no quotes added.
  */
  function Print(arith: Arith, e: Expr): (r: Printed)
    ensures r.Text? <==> Printable(e)
    ensures r.Text? && (e.Binary? || e.Unary? || e.Grouping?) ==>
      |r.text| >= 2 && r.text[0] == '(' && r.text[|r.text| - 1] == ')'
    ensures e == Literal(Nil) ==> r == Text("nil")
    ensures e.Literal? && e.literal.Number? ==> r == Text(arith.format(e.literal.n))
    ensures e.Literal? && e.literal.Str? ==> r == Text(e.literal.s)
    decreases Size(e), 1
  {
    match e
    case Binary(left, operator, right) =>
      SizeAllOfTwo(left, right);
      Parenthesize(arith, operator.lexeme, [left, right])
    case Grouping(inner) =>
      assert SizeAll([inner]) == Size(inner) by { assert [inner][1..] == []; }
      Parenthesize(arith, "group", [inner])
    case Unary(operator, right) =>
      assert SizeAll([right]) == Size(right) by { assert [right][1..] == []; }
      Parenthesize(arith, operator.lexeme, [right])
    case Literal(value) =>
      (match value
       case Nil => Text("nil")
       case Number(n) => Text(arith.format(n))
       case Str(s) => Text(s)
       case Bool(_) => Panics)
    case Assign(_, _) => Panics
    case Variable(_) => Panics
    case Logical(_, _, _) => Panics
  }

  /**
    parenthesize: "(", the name, then a space and the text of each child in
    order, then ")"; it has text exactly when every child is printable.
  */
  function Parenthesize(arith: Arith, name: string, exprs: seq<Expr>): (r: Printed)
    ensures r.Text? <==> forall i :: 0 <= i < |exprs| ==> Printable(exprs[i])
    ensures r.Text? ==>
      |r.text| >= |name| + 2 && r.text[0] == '(' && r.text[1..|name| + 1] == name && r.text[|r.text| - 1] == ')'
    decreases SizeAll(exprs), 3
  {
    var children := Children(arith, exprs);
    if children.Panics? then Panics else Text("(" + name + children.text + ")")
  }

  /** What parenthesize's loop appends after the name: " " and the child's text, child by child. */
  function Children(arith: Arith, exprs: seq<Expr>): (r: Printed)
    ensures r.Text? <==> forall i :: 0 <= i < |exprs| ==> Printable(exprs[i])
    decreases SizeAll(exprs), 2
  {
    if exprs == [] then Text("")
    else
      var first := Print(arith, exprs[0]);
      if first.Panics? then Panics
      else
        var rest := Children(arith, exprs[1..]);
        if rest.Panics? then Panics
        else
          assert forall i :: 1 <= i < |exprs| ==> exprs[i] == exprs[1..][i - 1];
          Text(" " + first.text + rest.text)
  }

  /** A single printable child is written as a space and its text. */
  lemma {:induction false} ChildrenOfOne(arith: Arith, e: Expr)
    requires Printable(e)
    ensures Children(arith, [e]) == Text(" " + Print(arith, e).text)
  {
    assert [e][1..] == [];
    assert Children(arith, []) == Text("");
    assert " " + Print(arith, e).text + "" == " " + Print(arith, e).text;
  }

  lemma {:induction false} PrintParenthesized(arith: Arith, e: Expr)
    requires e.Binary? || e.Unary? || e.Grouping?
    ensures e.Binary? ==> Print(arith, e) == Parenthesize(arith, e.operator.lexeme, [e.left, e.right])
    ensures e.Unary? ==> Print(arith, e) == Parenthesize(arith, e.operator.lexeme, [e.right])
    ensures e.Grouping? ==> Print(arith, e) == Parenthesize(arith, "group", [e.expression])
  {
  }

  lemma {:induction false} Wrapped(arith: Arith, name: string, exprs: seq<Expr>, inside: string)
    requires Children(arith, exprs) == Text(inside)
    ensures Parenthesize(arith, name, exprs) == Text("(" + name + inside + ")")
  {
  }

  /** A binary node prints as "(", the operator's lexeme, the left operand's text and the right operand's text, space-separated, and ")". */
  lemma {:induction false} PrintBinary(arith: Arith, left: Expr, operator: Token, right: Expr)
    requires Printable(left) && Printable(right)
    ensures Print(arith, Binary(left, operator, right))
      == Text("(" + operator.lexeme + " " + Print(arith, left).text + " " + Print(arith, right).text + ")")
  {
    var l, r := Print(arith, left).text, Print(arith, right).text;
    ChildrenOfOne(arith, right);
    assert [left, right][1..] == [right];
    assert Children(arith, [left, right]) == Text(" " + l + (" " + r));
    Wrapped(arith, operator.lexeme, [left, right], " " + l + (" " + r));
    PrintParenthesized(arith, Binary(left, operator, right));
    assert "(" + operator.lexeme + (" " + l + (" " + r)) + ")" == "(" + operator.lexeme + " " + l + " " + r + ")";
  }

  /** A unary node prints as "(", the operator's lexeme, a space, the operand's text and ")". */
  lemma {:induction false} PrintUnary(arith: Arith, operator: Token, right: Expr)
    requires Printable(right)
    ensures Print(arith, Unary(operator, right)) == Text("(" + operator.lexeme + " " + Print(arith, right).text + ")")
  {
    ChildrenOfOne(arith, right);
    Wrapped(arith, operator.lexeme, [right], " " + Print(arith, right).text);
    PrintParenthesized(arith, Unary(operator, right));
  }

  /** A grouping prints as "(group ", the inner expression's text and ")". */
  lemma {:induction false} PrintGrouping(arith: Arith, inner: Expr)
    requires Printable(inner)
    ensures Print(arith, Grouping(inner)) == Text("(group " + Print(arith, inner).text + ")")
  {
    var t := Print(arith, inner).text;
    ChildrenOfOne(arith, inner);
    Wrapped(arith, "group", [inner], " " + t);
    PrintParenthesized(arith, Grouping(inner));
    assert "(" + "group" + (" " + t) + ")" == "(group " + t + ")";
  }
}
