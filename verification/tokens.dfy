/** Tokens: the closed set of token kinds and a token as a kind plus the
    span of source it was read from. */
module Tokens {
  import opened Locations

  datatype TokenType =
    | Colon | Comma | Dollar | ExclamationMark | Hash | Semicolon
    | Equals | EqualsEquals | ExclamationMarkEquals
    | LessThan | LessThanEquals | GreaterThan | GreaterThanEquals
    | Plus | Minus | Asterisk | Percent | QuestionMark | Slash
    | LeftParenthesis | RightParenthesis | LeftSquareBracket | RightSquareBracket
    | Store | Params | Print | Let
    | Identifier | StringLiteral | NumberLiteral | BoolLiteral
    | StringKw | NumberKw | BoolKw | ListKw
    | And | Or | Not
    | For | As | If | Yeet | Collect | With
    | EndOfInput

  datatype Token = Token(kind: TokenType, location: SourceLocation)
  {
    function Lexeme(): string { location.Lexeme() }
  }
}
