/** The tokens of the language. */
module Tokens {
  import opened Int32

  datatype Token =
    | IntLiteral(value: I32)
    | BoolLiteral(flag: bool)
    | Identifier(name: string)
    | IntType | BoolType | If | Else | While | Func | Return | Print
    | Plus | Minus | Star | Slash
    | Eq | Ne | Lt | Gt | Le | Ge
    | And | Or | Not
    | Assign
    | LParen | RParen | LBrace | RBrace | LBracket | RBracket | Semicolon | Comma
    | Eof
    | Error(unexpected: char)
}
