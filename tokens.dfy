/** Tokens and lexical errors (Lexics/Token.cs, Lexics/TokenType.cs, Lexics/LexicalException.cs). */
module Tokens {

  /** The token kinds; the unused `TokenGroup` kind is not modelled. */
  datatype TokenKind =
    | WhiteSpace
    | Variable
    | FunctionName
    | ConstantName
    | Literal
    | OpeningParenthesis
    | ClosingParenthesis
    | Operator
    | Comma

  /** A classified piece of the source text and the index it starts at. */
  datatype Token = Token(kind: TokenKind, value: string, position: nat)

  /** A character that starts no token, with its index. */
  datatype LexicalError = LexicalError(position: nat, message: string)
}
