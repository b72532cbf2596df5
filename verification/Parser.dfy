// Parsing the statements that change rows.
module Parsers {
  import opened Sequences
  import opened Wrappers
  import opened StringUtils
  import opened Sql
  import opened Lexers

  datatype ParseError = UnexpectedToken | MissingKeyword | MissingPunctuation | InvalidIdentifier
                      | EmptyColumns | ValuesMismatch | ExtraTokens | InvalidType | TrailingComma

  /** What was read, and the position of the token behind it. */
  datatype Parsed<+T> = Parsed(value: T, next: nat) | Failed(error: ParseError)

  /** What a text means: a statement that changes rows, one that creates or drops a table, an error, or `Other`: a
      SELECT, or a statement about databases. */
  datatype Outcome =
    | Accepted(statement: Statement)
    | Creates(table: string, columns: seq<Column>)
    | Drops(table: string)
    | Rejected(error: ParseError)
    | Other

  // ---- The grammar ------------------------------------------------------------------------

  function At(ts: seq<Token>, p: nat): Token
  {
    if p < |ts| then ts[p] else EOF
  }

  function After(ts: seq<Token>, p: nat): nat
  {
    if p < |ts| then p + 1 else p
  }

  predicate IsName(ts: seq<Token>, p: nat)
  {
    At(ts, p).kind == IDENTIFIER && At(ts, p).value != ""
  }

  function Prepend<T>(xs: seq<T>, rest: Parsed<seq<T>>): Parsed<seq<T>>
  {
    match rest
    case Parsed(ys, next) => Parsed(xs + ys, next)
    case Failed(_) => rest
  }

  function ValueAt(ts: seq<Token>, p: nat): (r: Parsed<Value>)
    ensures r.Parsed? ==> p < r.next <= |ts|
  {
    var token := At(ts, p);
    if token == Token(KEYWORD, "NULL") then Parsed(None, p + 1)
    else if token.kind == STRING || token.kind == NUMBER || token.kind == IDENTIFIER
    then Parsed(Some(token.value), p + 1)
    else Failed(UnexpectedToken)
  }

  function NamesAt(ts: seq<Token>, p: nat): (r: Parsed<seq<string>>)
    ensures r.Parsed? ==> p < r.next <= |ts| && r.value != []
    decreases |ts| - p
  {
    if !IsName(ts, p) then Failed(InvalidIdentifier)
    else if At(ts, p + 1).value == "," then
      if At(ts, p + 2).kind == IDENTIFIER then Prepend([ts[p].value], NamesAt(ts, p + 2)) else Failed(UnexpectedToken)
    else if At(ts, p + 1).value == ")" then Parsed([ts[p].value], p + 1)
    else Failed(UnexpectedToken)
  }

  function ValuesAt(ts: seq<Token>, p: nat): (r: Parsed<seq<Value>>)
    ensures r.Parsed? ==> p < r.next <= |ts| && r.value != []
    decreases |ts| - p
  {
    match ValueAt(ts, p)
    case Failed(e) => Failed(e)
    case Parsed(v, q) =>
      if At(ts, q).value == ")" then Parsed([v], q)
      else if At(ts, q).value == "," then Prepend([v], ValuesAt(ts, q + 1))
      else Failed(UnexpectedToken)
  }

  function ConditionAt(ts: seq<Token>, p: nat): (r: Parsed<Condition>)
    ensures r.Parsed? ==> p < r.next <= |ts|
  {
    if !IsName(ts, p) then Failed(InvalidIdentifier)
    else
      var column := ts[p].value;
      if At(ts, p + 1) == Token(KEYWORD, "IS") then
        var negated := At(ts, p + 2) == Token(KEYWORD, "NOT");
        var q := if negated then p + 3 else p + 2;
        if At(ts, q) != Token(KEYWORD, "NULL") then Failed(UnexpectedToken)
        else Parsed(Condition(column, None, if negated then "IS NOT NULL" else "IS NULL"), q + 1)
      else if At(ts, p + 1).kind != OPERATOR || At(ts, p + 1).value == "" then Failed(UnexpectedToken)
      else
        match ValueAt(ts, p + 2)
        case Failed(e) => Failed(e)
        case Parsed(v, q) => Parsed(Condition(column, v, ts[p + 1].value), q)
  }

  function WhereAt(ts: seq<Token>, p: nat): (r: Parsed<Option<Condition>>)
    ensures r.Parsed? ==> p <= r.next
  {
    if At(ts, p) != Token(KEYWORD, "WHERE") then Parsed(None, p)
    else
      match ConditionAt(ts, p + 1)
      case Failed(e) => Failed(e)
      case Parsed(c, q) => Parsed(Some(c), q)
  }

  function AssignmentsAt(ts: seq<Token>, p: nat): (r: Parsed<seq<Assignment>>)
    ensures r.Parsed? ==> p < r.next <= |ts| && r.value != []
    decreases |ts| - p
  {
    if !IsName(ts, p) then Failed(InvalidIdentifier)
    else if At(ts, p + 1) != Token(OPERATOR, "=") then Failed(UnexpectedToken)
    else
      match ValueAt(ts, p + 2)
      case Failed(e) => Failed(e)
      case Parsed(v, q) =>
        var a := Assignment(ts[p].value, v);
        if At(ts, q) == Token(PUNCTUATION, ",") then Prepend([a], AssignmentsAt(ts, q + 1)) else Parsed([a], q)
  }

  /** The statement is complete. */
  function Ends(ts: seq<Token>, p: nat, meant: Outcome): Outcome
  {
    if At(ts, p).kind == END_OF_FILE then meant else Rejected(ExtraTokens)
  }

  /** The type that a token names, or "" if it names none; TEXT and BOOLEAN are no keywords. */
  function CanonicalType(token: Token): string
  {
    var upper := ToUpper(token.value);
    if token.kind == KEYWORD then
      if upper == "INT" || upper == "STRING" || upper == "FLOAT" || upper == "BOOL" then upper else ""
    else if token.kind == IDENTIFIER then
      if upper == "TEXT" then "STRING" else if upper == "BOOLEAN" then "BOOL" else ""
    else ""
  }

  /** The column definitions up to the closing parenthesis. */
  function DefinitionsAt(ts: seq<Token>, p: nat): (r: Parsed<seq<Column>>)
    ensures r.Parsed? ==> p <= r.next && At(ts, r.next).kind != END_OF_FILE && At(ts, r.next).value == ")"
    decreases |ts| - p
  {
    if At(ts, p).kind == END_OF_FILE then Failed(UnexpectedToken)
    else if At(ts, p).value == ")" then Parsed([], p)
    else if !IsName(ts, p) then Failed(InvalidIdentifier)
    else
      var kind := CanonicalType(At(ts, p + 1));
      if kind == "" then Failed(InvalidType)
      else
        var column := Column(ts[p].value, kind);
        if At(ts, p + 2).value == "," then
          if At(ts, p + 3).value == ")" then Failed(TrailingComma) else Prepend([column], DefinitionsAt(ts, p + 3))
        else if At(ts, p + 2).value == ")" then Prepend([column], DefinitionsAt(ts, p + 2))
        else Failed(UnexpectedToken)
  }

  function CreateAt(ts: seq<Token>): (r: Outcome)
    ensures (r.Creates? && r.columns != []) || r.Rejected?
  {
    if At(ts, 0) != Token(KEYWORD, "CREATE") || At(ts, 1) != Token(KEYWORD, "TABLE") then Rejected(MissingKeyword)
    else if !IsName(ts, 2) then Rejected(InvalidIdentifier)
    else if At(ts, 3) != Token(PUNCTUATION, "(") then Rejected(MissingPunctuation)
    else
      match DefinitionsAt(ts, 4)
      case Failed(e) => Rejected(e)
      case Parsed(columns, p) =>
        if columns == [] then Rejected(EmptyColumns) else Ends(ts, p + 1, Creates(ts[2].value, columns))
  }

  function DropAt(ts: seq<Token>): (r: Outcome)
    ensures r.Drops? || r.Rejected?
  {
    if At(ts, 0) != Token(KEYWORD, "DROP") || At(ts, 1) != Token(KEYWORD, "TABLE") then Rejected(MissingKeyword)
    else if !IsName(ts, 2) then Rejected(InvalidIdentifier)
    else Ends(ts, 3, Drops(ts[2].value))
  }

  /** The optional column list of an INSERT, in parentheses. */
  function ColumnsAt(ts: seq<Token>, p: nat): Parsed<seq<string>>
  {
    if At(ts, p) != Token(PUNCTUATION, "(") then Parsed([], p)
    else
      match NamesAt(ts, p + 1)
      case Failed(e) => Failed(e)
      case Parsed(columns, q) =>
        if At(ts, q) == Token(PUNCTUATION, ")") then Parsed(columns, q + 1) else Failed(MissingPunctuation)
  }

  function RowAt(ts: seq<Token>, p: nat): Parsed<seq<Value>>
  {
    if At(ts, p) != Token(KEYWORD, "VALUES") then Failed(MissingKeyword)
    else if At(ts, p + 1) != Token(PUNCTUATION, "(") then Failed(MissingPunctuation)
    else
      match ValuesAt(ts, p + 2)
      case Failed(e) => Failed(e)
      case Parsed(values, q) =>
        if At(ts, q) == Token(PUNCTUATION, ")") then Parsed(values, q + 1) else Failed(MissingPunctuation)
  }

  function InsertAt(ts: seq<Token>): (r: Outcome)
    ensures r.Accepted? || r.Rejected?
  {
    if At(ts, 0) != Token(KEYWORD, "INSERT") || At(ts, 1) != Token(KEYWORD, "INTO") then Rejected(MissingKeyword)
    else if !IsName(ts, 2) then Rejected(InvalidIdentifier)
    else
      match ColumnsAt(ts, 3)
      case Failed(e) => Rejected(e)
      case Parsed(columns, p) =>
        match RowAt(ts, p)
        case Failed(e) => Rejected(e)
        case Parsed(values, q) =>
          if columns != [] && |values| != |columns| then Rejected(ValuesMismatch)
          else Ends(ts, q, Accepted(Insert(ts[2].value, columns, values)))
  }

  function DeleteAt(ts: seq<Token>): (r: Outcome)
    ensures r.Accepted? || r.Rejected?
  {
    if At(ts, 0) != Token(KEYWORD, "DELETE") || At(ts, 1) != Token(KEYWORD, "FROM") then Rejected(MissingKeyword)
    else if !IsName(ts, 2) then Rejected(InvalidIdentifier)
    else
      match WhereAt(ts, 3)
      case Failed(e) => Rejected(e)
      case Parsed(condition, p) => Ends(ts, p, Accepted(Delete(ts[2].value, condition)))
  }

  function UpdateAt(ts: seq<Token>): (r: Outcome)
    ensures r.Accepted? || r.Rejected?
  {
    if At(ts, 0) != Token(KEYWORD, "UPDATE") then Rejected(MissingKeyword)
    else if !IsName(ts, 1) then Rejected(InvalidIdentifier)
    else if At(ts, 2) != Token(KEYWORD, "SET") then Rejected(MissingKeyword)
    else
      match AssignmentsAt(ts, 3)
      case Failed(e) => Rejected(e)
      case Parsed(assignments, p) =>
        match WhereAt(ts, p)
        case Failed(e) => Rejected(e)
        case Parsed(condition, q) => Ends(ts, q, Accepted(Update(ts[1].value, assignments, condition)))
  }

  function StatementOf(ts: seq<Token>): Outcome
  {
    var token := At(ts, 0);
    if token.kind != KEYWORD then Rejected(MissingKeyword)
    else if token.value == "INSERT" then InsertAt(ts)
    else if token.value == "DELETE" then DeleteAt(ts)
    else if token.value == "UPDATE" then UpdateAt(ts)
    else if token.value == "CREATE" then if At(ts, 1).value == "DATABASE" then Other else CreateAt(ts)
    else if token.value == "DROP" then if At(ts, 1).value == "DATABASE" then Other else DropAt(ts)
    else if token.value == "SELECT" || token.value == "USE" then Other
    else Rejected(UnexpectedToken)
  }

  // ---- The parser -------------------------------------------------------------------------

  class Parser {
    const tokens: seq<Token>
    var position: nat

    constructor (tokens: seq<Token>)
      ensures this.tokens == tokens && position == 0
    {
      this.tokens := tokens;
      position := 0;
    }

    /** `r` and the new position are what the grammar says for the position `start`. */
    predicate Agrees<T(==)>(r: Result<T, ParseError>, parsed: Parsed<T>)
      reads this
    {
      match parsed
      case Parsed(v, next) => r == Ok(v) && position == next
      case Failed(e) => r == Err(e)
    }

    function CurrentToken(): (token: Token)
      reads this
      ensures token == At(tokens, position)
    {
      if position >= |tokens| then EOF else tokens[position]
    }

    method ConsumeToken() returns (token: Token)
      modifies this
      ensures token == At(tokens, old(position)) && position == After(tokens, old(position))
    {
      token := CurrentToken();
      if position < |tokens| {
        position := position + 1;
      }
    }

    method ExpectType(kind: TokenType) returns (value: string)
      modifies this
      ensures var token := At(tokens, old(position));
              if token.kind == kind then value == token.value && position == After(tokens, old(position))
              else value == "" && position == old(position)
    {
      value := "";
      if CurrentToken().kind == kind {
        var token := ConsumeToken();
        value := token.value;
      }
    }

    method Expect(kind: TokenType, value: string) returns (found: bool)
      modifies this
      ensures found <==> At(tokens, old(position)) == Token(kind, value)
      ensures position == if found then After(tokens, old(position)) else old(position)
    {
      found := CurrentToken().kind == kind && CurrentToken().value == value;
      if found {
        var _ := ConsumeToken();
      }
    }

    method ParseValue() returns (r: Result<Value, ParseError>)
      modifies this
      ensures Agrees(r, ValueAt(tokens, old(position)))
    {
      var token := CurrentToken();
      if token.kind == KEYWORD && token.value == "NULL" {
        var _ := ConsumeToken();
        return Ok(None);
      }
      if token.kind == STRING || token.kind == NUMBER || token.kind == IDENTIFIER {
        var _ := ConsumeToken();
        return Ok(Some(token.value));
      }
      return Err(UnexpectedToken);
    }

    method ParseCondition() returns (r: Result<Condition, ParseError>)
      modifies this
      ensures Agrees(r, ConditionAt(tokens, old(position)))
    {
      var column := ExpectType(IDENTIFIER);
      if column == "" {
        return Err(InvalidIdentifier);
      }
      var isTest := Expect(KEYWORD, "IS");
      if isTest {
        var negated := Expect(KEYWORD, "NOT");
        var isNull := Expect(KEYWORD, "NULL");
        if !isNull {
          return Err(UnexpectedToken);
        }
        return Ok(Condition(column, None, if negated then "IS NOT NULL" else "IS NULL"));
      }
      var op := ExpectType(OPERATOR);
      if op == "" {
        return Err(UnexpectedToken);
      }
      var value := ParseValue();
      match value {
        case Err(e) => return Err(e);
        case Ok(v) => return Ok(Condition(column, v, op));
      }
    }

    method ParseWhere() returns (r: Result<Option<Condition>, ParseError>)
      modifies this
      ensures Agrees(r, WhereAt(tokens, old(position)))
    {
      var found := Expect(KEYWORD, "WHERE");
      if !found {
        return Ok(None);
      }
      var condition := ParseCondition();
      match condition {
        case Err(e) => return Err(e);
        case Ok(c) => return Ok(Some(c));
      }
    }

    /** The names of a column list, up to its closing parenthesis. */
    method ParseNames() returns (r: Result<seq<string>, ParseError>)
      modifies this
      ensures Agrees(r, NamesAt(tokens, old(position)))
    {
      var columns := [];
      PrependNone(NamesAt(tokens, position));
      while true
        invariant Prepend(columns, NamesAt(tokens, position)) == NamesAt(tokens, old(position))
        decreases |tokens| - position
      {
        var column := ExpectType(IDENTIFIER);
        if column == "" {
          return Err(InvalidIdentifier);
        }
        columns := columns + [column];
        if CurrentToken().value == "," {
          var _ := ConsumeToken();
          if CurrentToken().kind != IDENTIFIER {
            return Err(UnexpectedToken);
          }
          PrependTwice(columns[..|columns| - 1], column, NamesAt(tokens, position));
        } else if CurrentToken().value == ")" {
          return Ok(columns);
        } else {
          return Err(UnexpectedToken);
        }
      }
    }

    /** The values of a row, up to its closing parenthesis. */
    method ParseValues() returns (r: Result<seq<Value>, ParseError>)
      modifies this
      ensures Agrees(r, ValuesAt(tokens, old(position)))
    {
      var values := [];
      PrependNone(ValuesAt(tokens, position));
      while true
        invariant Prepend(values, ValuesAt(tokens, position)) == ValuesAt(tokens, old(position))
        decreases |tokens| - position
      {
        var value := ParseValue();
        if value.Err? {
          return Err(value.error);
        }
        values := values + [value.value];
        if CurrentToken().value == ")" {
          return Ok(values);
        } else if CurrentToken().value == "," {
          var _ := ConsumeToken();
          PrependTwice(values[..|values| - 1], value.value, ValuesAt(tokens, position));
        } else {
          return Err(UnexpectedToken);
        }
      }
    }

    method ParseAssignments() returns (r: Result<seq<Assignment>, ParseError>)
      modifies this
      ensures Agrees(r, AssignmentsAt(tokens, old(position)))
    {
      var assignments := [];
      PrependNone(AssignmentsAt(tokens, position));
      while true
        invariant Prepend(assignments, AssignmentsAt(tokens, position)) == AssignmentsAt(tokens, old(position))
        decreases |tokens| - position
      {
        var column := ExpectType(IDENTIFIER);
        if column == "" {
          return Err(InvalidIdentifier);
        }
        var isSet := Expect(OPERATOR, "=");
        if !isSet {
          return Err(UnexpectedToken);
        }
        var value := ParseValue();
        if value.Err? {
          return Err(value.error);
        }
        assignments := assignments + [Assignment(column, value.value)];
        var more := Expect(PUNCTUATION, ",");
        if !more {
          return Ok(assignments);
        }
        PrependTwice(assignments[..|assignments| - 1], Assignment(column, value.value),
                     AssignmentsAt(tokens, position));
      }
    }

    /** The optional column list of an INSERT. */
    method ParseColumns() returns (r: Result<seq<string>, ParseError>)
      modifies this
      ensures Agrees(r, ColumnsAt(tokens, old(position)))
    {
      var opens := Expect(PUNCTUATION, "(");
      if !opens {
        return Ok([]);
      }
      r := ParseNames();
      if r.Ok? {
        var closes := Expect(PUNCTUATION, ")");
        if !closes {
          return Err(MissingPunctuation);
        }
      }
    }

    method ParseRow() returns (r: Result<seq<Value>, ParseError>)
      modifies this
      ensures Agrees(r, RowAt(tokens, old(position)))
    {
      var found := Expect(KEYWORD, "VALUES");
      if !found {
        return Err(MissingKeyword);
      }
      var opens := Expect(PUNCTUATION, "(");
      if !opens {
        return Err(MissingPunctuation);
      }
      r := ParseValues();
      if r.Ok? {
        var closes := Expect(PUNCTUATION, ")");
        if !closes {
          return Err(MissingPunctuation);
        }
      }
    }

    /** The column definitions of a CREATE TABLE, up to the closing parenthesis. */
    method ParseDefinitions() returns (r: Result<seq<Column>, ParseError>)
      modifies this
      ensures Agrees(r, DefinitionsAt(tokens, old(position)))
    {
      var columns := [];
      PrependNone(DefinitionsAt(tokens, position));
      while true
        invariant Prepend(columns, DefinitionsAt(tokens, position)) == DefinitionsAt(tokens, old(position))
        decreases |tokens| - position
      {
        if CurrentToken().kind == END_OF_FILE {
          return Err(UnexpectedToken);
        }
        if CurrentToken().value == ")" {
          assert columns + [] == columns;
          return Ok(columns);
        }
        var name := ExpectType(IDENTIFIER);
        if name == "" {
          return Err(InvalidIdentifier);
        }
        var kind := CanonicalType(CurrentToken());
        if kind == "" {
          return Err(InvalidType);
        }
        var _ := ConsumeToken();
        columns := columns + [Column(name, kind)];
        if CurrentToken().value == "," {
          var _ := ConsumeToken();
          if CurrentToken().value == ")" {
            return Err(TrailingComma);
          }
        } else if CurrentToken().value != ")" {
          return Err(UnexpectedToken);
        }
        PrependTwice(columns[..|columns| - 1], Column(name, kind), DefinitionsAt(tokens, position));
      }
    }

    method Finish(meant: Outcome) returns (r: Outcome)
      ensures r == Ends(tokens, position, meant)
    {
      if CurrentToken().kind != END_OF_FILE {
        return Rejected(ExtraTokens);
      }
      return meant;
    }

    method ParseCreate() returns (r: Outcome)
      requires position == 0
      modifies this
      ensures r == CreateAt(tokens)
    {
      var found := Expect(KEYWORD, "CREATE");
      if !found {
        return Rejected(MissingKeyword);
      }
      found := Expect(KEYWORD, "TABLE");
      if !found {
        return Rejected(MissingKeyword);
      }
      var table := ExpectType(IDENTIFIER);
      if table == "" {
        return Rejected(InvalidIdentifier);
      }
      var opens := Expect(PUNCTUATION, "(");
      if !opens {
        return Rejected(MissingPunctuation);
      }
      var columns := ParseDefinitions();
      if columns.Err? {
        return Rejected(columns.error);
      }
      if columns.value == [] {
        return Rejected(EmptyColumns);
      }
      var _ := ConsumeToken();
      r := Finish(Creates(table, columns.value));
    }

    method ParseDrop() returns (r: Outcome)
      requires position == 0
      modifies this
      ensures r == DropAt(tokens)
    {
      var found := Expect(KEYWORD, "DROP");
      if !found {
        return Rejected(MissingKeyword);
      }
      found := Expect(KEYWORD, "TABLE");
      if !found {
        return Rejected(MissingKeyword);
      }
      var table := ExpectType(IDENTIFIER);
      if table == "" {
        return Rejected(InvalidIdentifier);
      }
      r := Finish(Drops(table));
    }

    method ParseInsert() returns (r: Outcome)
      requires position == 0
      modifies this
      ensures r == InsertAt(tokens)
    {
      var found := Expect(KEYWORD, "INSERT");
      if !found {
        return Rejected(MissingKeyword);
      }
      found := Expect(KEYWORD, "INTO");
      if !found {
        return Rejected(MissingKeyword);
      }
      var table := ExpectType(IDENTIFIER);
      if table == "" {
        return Rejected(InvalidIdentifier);
      }
      var columns := ParseColumns();
      if columns.Err? {
        return Rejected(columns.error);
      }
      var values := ParseRow();
      if values.Err? {
        return Rejected(values.error);
      }
      if columns.value != [] && |values.value| != |columns.value| {
        return Rejected(ValuesMismatch);
      }
      r := Finish(Accepted(Insert(table, columns.value, values.value)));
    }

    method ParseDelete() returns (r: Outcome)
      requires position == 0
      modifies this
      ensures r == DeleteAt(tokens)
    {
      var found := Expect(KEYWORD, "DELETE");
      if !found {
        return Rejected(MissingKeyword);
      }
      found := Expect(KEYWORD, "FROM");
      if !found {
        return Rejected(MissingKeyword);
      }
      var table := ExpectType(IDENTIFIER);
      if table == "" {
        return Rejected(InvalidIdentifier);
      }
      var condition := ParseWhere();
      if condition.Err? {
        return Rejected(condition.error);
      }
      r := Finish(Accepted(Delete(table, condition.value)));
    }

    method ParseUpdate() returns (r: Outcome)
      requires position == 0
      modifies this
      ensures r == UpdateAt(tokens)
    {
      var found := Expect(KEYWORD, "UPDATE");
      if !found {
        return Rejected(MissingKeyword);
      }
      var table := ExpectType(IDENTIFIER);
      if table == "" {
        return Rejected(InvalidIdentifier);
      }
      found := Expect(KEYWORD, "SET");
      if !found {
        return Rejected(MissingKeyword);
      }
      var assignments := ParseAssignments();
      if assignments.Err? {
        return Rejected(assignments.error);
      }
      var condition := ParseWhere();
      if condition.Err? {
        return Rejected(condition.error);
      }
      r := Finish(Accepted(Update(table, assignments.value, condition.value)));
    }

    method Parse() returns (r: Outcome)
      requires position == 0
      modifies this
      ensures r == StatementOf(tokens)
    {
      var token := CurrentToken();
      if token.kind != KEYWORD {
        return Rejected(MissingKeyword);
      }
      if token.value == "INSERT" {
        r := ParseInsert();
      } else if token.value == "DELETE" {
        r := ParseDelete();
      } else if token.value == "UPDATE" {
        r := ParseUpdate();
      } else if token.value == "CREATE" {
        if position + 1 < |tokens| && tokens[position + 1].value == "DATABASE" {
          return Other;
        }
        r := ParseCreate();
      } else if token.value == "DROP" {
        if position + 1 < |tokens| && tokens[position + 1].value == "DATABASE" {
          return Other;
        }
        r := ParseDrop();
      } else if token.value == "SELECT" || token.value == "USE" {
        r := Other;
      } else {
        r := Rejected(UnexpectedToken);
      }
    }
  }

  lemma PrependNone<T>(rest: Parsed<seq<T>>)
    ensures Prepend([], rest) == rest
  {
    if rest.Parsed? {
      assert [] + rest.value == rest.value;
    }
  }

  lemma PrependTwice<T>(xs: seq<T>, x: T, rest: Parsed<seq<T>>)
    ensures Prepend(xs, Prepend([x], rest)) == Prepend(xs + [x], rest)
  {
    if rest.Parsed? {
      Regroup(xs, x, rest.value);
    }
  }
}
