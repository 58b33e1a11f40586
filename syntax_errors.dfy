/**
 * The ways parsing a token sequence fails. `SyntacticException`
 * (Syntax/SyntacticException.cs) carries the offending token, when there is
 * one, and a message; the other variants stand for the runtime exceptions
 * the parser lets escape: a null dereference, a registry lookup of a missing
 * key, and the unreachable element-count check.
 */
module SyntaxErrors {
  import opened Wrappers
  import opened Tokens

  datatype ParseError =
    | SyntacticException(token: Option<Token>, message: string)
    | NullReferenceException
    | KeyNotFoundException(key: string)
    | NotImplementedException
}
