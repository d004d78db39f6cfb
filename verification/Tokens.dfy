/** Tokens as the reader delivers them, after function names and unary minuses have been marked. */
module Tokens {
  import opened Wrappers

  datatype TokenKind =
    | Unknown
    | StringLiteral
    | Variable
    | Function
    | IntLiteral
    | UintLiteral
    | DoubleLiteral
    | BoolTrue
    | BoolFalse
    | OpenParen
    | CloseParen
    | Comma
    | Semicolon
    | Operator
    | UnparsedCodeBlock
    | ScriptArgumentReference

  /** `opId` is the table index of the first function that matches an operator symbol. */
  datatype Token = Token(kind: TokenKind, text: string, opId: Option<nat>)

  const OPEN := Token(OpenParen, "(", None)
  const CLOSE := Token(CloseParen, ")", None)
  const COMMA := Token(Comma, ",", None)

  function FunctionToken(name: string): Token {
    Token(Function, name, None)
  }

  predicate IsOperand(k: TokenKind) {
    k.StringLiteral? || k.Variable? || k.IntLiteral? || k.UintLiteral? || k.DoubleLiteral?
    || k.BoolTrue? || k.BoolFalse? || k.UnparsedCodeBlock? || k.ScriptArgumentReference?
  }
}
