/** Optional values, for the places where the source passes or returns a nil interface. */
module Wrappers {
  datatype Option<+T> = None | Some(value: T)
}

/**
  The runtime values of Lox and the number operations the interpreter uses.

  A Lox number is a Go `float64`. The model does not reproduce IEEE 754
  arithmetic or Go's `strconv.FormatFloat`: a number is its 64-bit pattern,
  and every operation the interpreter applies to numbers (the four arithmetic
  operators, the four orderings, `==`, and formatting with
  `FormatFloat(x, 'f', -1, 64)`) is a field of an `Arith` record that the
  interpreter and the printer receive as a parameter.
*/
module Values {
  type Float64 = bv64

  datatype Arith = Arith(
    add: (Float64, Float64) -> Float64,
    sub: (Float64, Float64) -> Float64,
    mul: (Float64, Float64) -> Float64,
    div: (Float64, Float64) -> Float64,
    greater: (Float64, Float64) -> bool,
    greaterEqual: (Float64, Float64) -> bool,
    less: (Float64, Float64) -> bool,
    lessEqual: (Float64, Float64) -> bool,
    equal: (Float64, Float64) -> bool,
    format: Float64 -> string)

  /** The dynamic values a Lox program manipulates: Go's nil, bool, float64 and string. */
  datatype Value = Nil | Bool(b: bool) | Number(n: Float64) | Str(s: string)
}

/** Tokens as the scanner hands them to the parser (chapter-4/glox/lox/token.go). */
module Tokens {
  import opened Values

  datatype TokenType =
    // single-character tokens
    | LeftParen | RightParen | LeftBrace | RightBrace
    | Comma | Dot | Minus | Plus | Semicolon | Slash | Star
    // one- or two-character tokens
    | Bang | BangEqual | Equal | EqualEqual
    | Greater | GreaterEqual | Less | LessEqual
    // literals
    | Identifier | StringToken | NumberToken
    // keywords
    | AndKeyword | ClassKeyword | ElseKeyword | FalseKeyword | FunKeyword | ForKeyword
    | IfKeyword | NilKeyword | OrKeyword | PrintKeyword | ReturnKeyword | SuperKeyword
    | ThisKeyword | TrueKeyword | VarKeyword | WhileKeyword
    | Eof

  /** `literal` is the scanner's payload: a number or string for literal tokens, `Nil` otherwise. */
  datatype Token = Token(kind: TokenType, lexeme: string, literal: Value, line: int)
}
