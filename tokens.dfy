/** Tokens of the Yal language: a kind and the literal text it was read from. */
module Tokens {

  /** token::Type. `None` is the empty placeholder result, `List` marks a
      parenthesised expression inside the tree. */
  datatype TokenType =
    | LParen | RParen
    | Plus | Minus | Multiply | Divide | Modulo
    | Integer | Float | Word | StringLiteral
    | None | List

  /** token::Token: an immutable (kind, text) pair. */
  datatype Token = Token(kind: TokenType, val: string)

  /** The placeholder token `Token(NONE, "")`. */
  const NoneToken: Token := Token(None, "")
}
