/** The token record that the lexer produces and the parser consumes. */
module Tokens {

  /** A source position: line and column, both counted from 1. */
  type Position = (int, int)

  /** `Token(table, index, pos, value)`: the symbol table the word went to,
      its index there, where it was read and the word itself. */
  datatype Token = Token(table: nat, index: nat, pos: Position, value: string)

  const TYPE_CONST: nat := 1
  const TYPE_KEYWORD: nat := 2
  const TYPE_IDENTIFIER: nat := 3
  const TYPE_DELIMITER: nat := 4
}
