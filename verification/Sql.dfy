// Tokens and statements of the SQL dialect.
module Sql {
  import opened Wrappers
  import opened StringUtils

  datatype TokenType = KEYWORD | IDENTIFIER | STRING | NUMBER | OPERATOR | PUNCTUATION | WILDCARD | END_OF_FILE

  datatype Token = Token(kind: TokenType, value: string)

  const EOF: Token := Token(END_OF_FILE, "")

  /** `op` is one of the comparison operators, or "IS NULL" or "IS NOT NULL", which use no value. */
  datatype Condition = Condition(column: string, value: Value, op: string)

  datatype Assignment = Assignment(column: string, value: Value)

  /** A column of a table and its type: INT, STRING, FLOAT or BOOL. */
  datatype Column = Column(name: string, kind: string)

  /** The statements that change rows; an empty column list means that none was given. */
  datatype Statement =
    | Insert(table: string, columns: seq<string>, values: seq<Value>)
    | Delete(table: string, condition: Option<Condition>)
    | Update(table: string, assignments: seq<Assignment>, condition: Option<Condition>)
}
