// The SQL text that recovery builds for a statement parses back to that statement.
module SqlRoundTrip {
  import opened Sequences
  import opened Wrappers
  import opened StringUtils
  import opened Sql
  import opened Lexers
  import opened Parsers
  import opened SqlText

  // ---- The text of a statement ------------------------------------------------------------

  function Literals(values: seq<Value>): (texts: seq<string>)
    ensures |texts| == |values| && forall i | 0 <= i < |values| :: texts[i] == Literal(values[i])
  {
    seq(|values|, i requires 0 <= i < |values| => Literal(values[i]))
  }

  function Csv(values: seq<Value>): string
  {
    Join(Literals(values), ',')
  }

  function InsertText(table: string, values: seq<Value>): string
  {
    "INSERT INTO " + (table + (" VALUES (" + (Csv(values) + ")")))
  }

  predicate IsTest(op: string)
  {
    |op| >= 2 && op[..2] == "IS"
  }

  function WhereText(c: Option<Condition>): string
  {
    match c
    case None => ""
    case Some(c) => " WHERE " + (c.column + (" " + (c.op + if IsTest(c.op) then "" else " " + Literal(c.value))))
  }

  function DeleteText(table: string, c: Option<Condition>): string
  {
    "DELETE FROM " + (table + WhereText(c))
  }

  function SetText(assignments: seq<Assignment>): string
  {
    if |assignments| == 0 then ""
    else
      var a := assignments[0];
      a.column + (" = " + (Literal(a.value) + if |assignments| == 1 then "" else ", " + SetText(assignments[1..])))
  }

  function UpdateText(table: string, assignments: seq<Assignment>, c: Option<Condition>): string
  {
    "UPDATE " + (table + (" SET " + (SetText(assignments) + WhereText(c))))
  }

  function Text(s: Statement): string
  {
    match s
    case Insert(table, _, values) => InsertText(table, values)
    case Delete(table, c) => DeleteText(table, c)
    case Update(table, assignments, c) => UpdateText(table, assignments, c)
  }

  predicate WellFormedCondition(c: Condition)
  {
    IsIdentifier(c.column) && ((c.op in {"IS NULL", "IS NOT NULL"} && c.value == None) || IsOperator(c.op))
  }

  predicate WellFormedWhere(c: Option<Condition>)
  {
    c.Some? ==> WellFormedCondition(c.value)
  }

  /** The statements that the parser can produce; an INSERT is logged without its column list. */
  predicate WellFormed(s: Statement)
  {
    match s
    case Insert(table, columns, values) => IsIdentifier(table) && columns == [] && values != []
    case Delete(table, c) => IsIdentifier(table) && WellFormedWhere(c)
    case Update(table, assignments, c) =>
      && IsIdentifier(table) && WellFormedWhere(c) && assignments != []
      && forall a | a in assignments :: IsIdentifier(a.column)
  }

  // ---- The text, piece by piece -----------------------------------------------------------

  function CsvPieces(values: seq<Value>): seq<Piece>
  {
    if |values| == 0 then []
    else if |values| == 1 then [Lit(values[0])]
    else [Lit(values[0]), Punctuation(',')] + CsvPieces(values[1..])
  }

  const COMMA: Token := Token(PUNCTUATION, ",")
  const OPEN: Token := Token(PUNCTUATION, "(")
  const CLOSE: Token := Token(PUNCTUATION, ")")

  function CsvTokens(values: seq<Value>): seq<Token>
  {
    if |values| == 0 then []
    else if |values| == 1 then [LiteralToken(values[0])]
    else [LiteralToken(values[0]), COMMA] + CsvTokens(values[1..])
  }

  lemma {:induction false} CsvEnds(values: seq<Value>)
    requires values != []
    ensures var ps := CsvPieces(values); ps != [] && ps[0] == Lit(values[0]) && ps[|ps| - 1].Lit?
  {
    if |values| > 1 {
      CsvEnds(values[1..]);
    }
  }

  lemma {:induction false} CsvChain(values: seq<Value>)
    requires values != []
    ensures Chain(CsvPieces(values))
  {
    if |values| > 1 {
      CsvChain(values[1..]);
      CsvEnds(values[1..]);
    }
  }

  lemma {:induction false} CsvText(values: seq<Value>)
    requires values != []
    ensures TextOf(CsvPieces(values)) == Csv(values)
  {
    if |values| == 1 {
      SinglePiece(Lit(values[0]));
    } else {
      assert Literals(values)[1..] == Literals(values[1..]);
      CsvText(values[1..]);
      LiteralComma(values[0], CsvPieces(values[1..]));
    }
  }

  lemma {:induction false} CsvFound(values: seq<Value>)
    requires values != []
    ensures FoundIn(CsvPieces(values)) == CsvTokens(values)
  {
    if |values| == 1 {
      SinglePiece(Lit(values[0]));
    } else {
      CsvFound(values[1..]);
      LiteralComma(values[0], CsvPieces(values[1..]));
    }
  }

  lemma LiteralComma(v: Value, rest: seq<Piece>)
    ensures TextOf([Lit(v), Punctuation(',')] + rest) == Literal(v) + [','] + TextOf(rest)
    ensures FoundIn([Lit(v), Punctuation(',')] + rest) == [LiteralToken(v), COMMA] + FoundIn(rest)
  {
    var ps := [Lit(v), Punctuation(',')] + rest;
    assert ps[1..] == [Punctuation(',')] + rest && ps[1..][1..] == rest;
  }

  function CsvWriting(values: seq<Value>): Writing
  {
    Writing(CsvPieces(values), Csv(values), CsvTokens(values))
  }

  function RowWriting(values: seq<Value>): Writing
  {
    One(Punctuation('(')).Then(CsvWriting(values).Then(One(Punctuation(')'))))
  }

  lemma RowWritingOk(values: seq<Value>)
    requires values != []
    ensures var w := RowWriting(values); w.Ok() && w.First() == Punctuation('(') && w.Last() == Punctuation(')')
  {
    CsvChain(values);
    CsvEnds(values);
    CsvText(values);
    CsvFound(values);
    OneOk(Punctuation(')'));
    OneOk(Punctuation('('));
    ThenOk(CsvWriting(values), One(Punctuation(')')));
    ThenOk(One(Punctuation('(')), CsvWriting(values).Then(One(Punctuation(')'))));
  }

  function InsertWriting(table: string, values: seq<Value>): Writing
  {
    AWord("INSERT").Then(AWord("INTO").Then(AWord(table).Then(AWord("VALUES").Then(RowWriting(values)))))
  }

  predicate IsKeyword(w: string)
  {
    w in KEYWORDS && IsWord(w) && ToUpper(w) == w
  }

  lemma InsertKeywords()
    ensures IsKeyword("INSERT") && IsKeyword("INTO") && IsKeyword("VALUES")
  {
  }

  lemma KeywordThen(w: string, rest: Writing)
    requires IsKeyword(w) && rest.Ok() && Space.EndsBefore(rest.First().Text())
    ensures WordToken(w) == Token(KEYWORD, w)
    ensures var r := AWord(w).Then(rest);
            r.Ok() && r.First() == Word(w) && r.Last() == rest.Last() && Space.EndsBefore(r.First().Text())
  {
    WordThen(w, rest);
  }

  lemma NameThen(w: string, rest: Writing)
    requires IsIdentifier(w) && rest.Ok() && Space.EndsBefore(rest.First().Text())
    ensures WordToken(w) == Token(IDENTIFIER, w)
    ensures var r := AWord(w).Then(rest);
            r.Ok() && r.First() == Word(w) && r.Last() == rest.Last() && Space.EndsBefore(r.First().Text())
  {
    WordThen(w, rest);
  }

  lemma InsertWritingOk(table: string, values: seq<Value>)
    requires IsIdentifier(table) && values != []
    ensures InsertWriting(table, values).Ok() && InsertWriting(table, values).Last() == Punctuation(')')
  {
    InsertKeywords();
    RowWritingOk(values);
    var w4 := RowWriting(values);
    KeywordThen("VALUES", w4);
    var w3 := AWord("VALUES").Then(w4);
    NameThen(table, w3);
    var w2 := AWord(table).Then(w3);
    KeywordThen("INTO", w2);
    var w1 := AWord("INTO").Then(w2);
    KeywordThen("INSERT", w1);
  }

  lemma InsertWritingText(table: string, values: seq<Value>)
    ensures InsertWriting(table, values).text == InsertText(table, values)
  {
    var x := Csv(values) + ")";
    var w4 := RowWriting(values);
    assert w4.text == "(" + x;
    var w3 := AWord("VALUES").Then(w4);
    assert w3.text == "VALUES (" + x by {
      assert "VALUES" + " " + "(" == "VALUES (";
      Regroups("VALUES" + " ", "(", x);
    }
    var w2 := AWord(table).Then(w3);
    assert w2.text == table + (" VALUES (" + x) by {
      assert " " + "VALUES (" == " VALUES (";
      Regroups(" ", "VALUES (", x);
      Regroups(table, " ", "VALUES (" + x);
    }
    assert InsertWriting(table, values).text == "INSERT INTO " + w2.text by {
      assert "INSERT" + " " + ("INTO" + " ") == "INSERT INTO ";
      Regroups("INSERT" + " ", "INTO" + " ", w2.text);
    }
  }

  lemma LexInsert(table: string, values: seq<Value>)
    requires IsIdentifier(table) && values != []
    ensures Tokens(InsertText(table, values)) == InsertWriting(table, values).found + [EOF]
  {
    InsertWritingOk(table, values);
    InsertWritingText(table, values);
    Lexes(InsertWriting(table, values));
  }

  // ---- Parsing it back --------------------------------------------------------------------

  /** `part` stands in `ts` from position `p` on. */
  predicate StandsAt(part: seq<Token>, ts: seq<Token>, p: nat)
  {
    p + |part| <= |ts| && ts[p..p + |part|] == part
  }

  lemma StandsApart(a: seq<Token>, b: seq<Token>, ts: seq<Token>, p: nat)
    requires StandsAt(a + b, ts, p)
    ensures StandsAt(a, ts, p) && StandsAt(b, ts, p + |a|)
  {
    assert ts[p..p + |a|] == (a + b)[..|a|] == a;
    assert ts[p + |a|..p + |a| + |b|] == (a + b)[|a|..] == b;
  }

  lemma LiteralParses(ts: seq<Token>, p: nat, v: Value)
    requires p < |ts| && ts[p] == LiteralToken(v)
    ensures ValueAt(ts, p) == Parsed(v, p + 1)
  {
  }

  lemma {:induction false} ValuesParse(ts: seq<Token>, p: nat, values: seq<Value>)
    requires values != [] && StandsAt(CsvTokens(values), ts, p)
    requires p + |CsvTokens(values)| < |ts| && ts[p + |CsvTokens(values)|] == CLOSE
    ensures ValuesAt(ts, p) == Parsed(values, p + |CsvTokens(values)|)
    decreases |values|
  {
    assert ts[p] == CsvTokens(values)[0];
    LiteralParses(ts, p, values[0]);
    if |values| == 1 {
      assert [values[0]] == values;
    } else {
      StandsApart([LiteralToken(values[0]), COMMA], CsvTokens(values[1..]), ts, p);
      assert ts[p..p + 2][1] == ts[p + 1];
      ValuesParse(ts, p + 2, values[1..]);
      assert [values[0]] + values[1..] == values;
    }
  }

  function InsertHead(table: string): seq<Token>
  {
    [Token(KEYWORD, "INSERT"), Token(KEYWORD, "INTO"), Token(IDENTIFIER, table), Token(KEYWORD, "VALUES"), OPEN]
  }

  lemma InsertFound(table: string, values: seq<Value>)
    requires IsIdentifier(table)
    ensures InsertWriting(table, values).found == InsertHead(table) + (CsvTokens(values) + [CLOSE])
  {
    hide CsvTokens;
    InsertKeywords();
    var x := CsvTokens(values) + [CLOSE];
    assert InsertWriting(table, values).found ==
           [WordToken("INSERT")]
               + ([WordToken("INTO")] + ([WordToken(table)] + ([WordToken("VALUES")] + ([OPEN] + x))));
    FiveFirst(WordToken("INSERT"), WordToken("INTO"), WordToken(table), WordToken("VALUES"), OPEN, x);
  }

  lemma FiveFirst<T>(a: T, b: T, c: T, d: T, e: T, rest: seq<T>)
    ensures [a] + ([b] + ([c] + ([d] + ([e] + rest)))) == [a, b, c, d, e] + rest
  {
  }

  lemma RowParses(ts: seq<Token>, p: nat, values: seq<Value>)
    requires values != [] && p + 1 < |ts| && ts[p] == Token(KEYWORD, "VALUES") && ts[p + 1] == OPEN
    requires StandsAt(CsvTokens(values) + [CLOSE], ts, p + 2)
    ensures RowAt(ts, p) == Parsed(values, p + 3 + |CsvTokens(values)|)
  {
    StandsApart(CsvTokens(values), [CLOSE], ts, p + 2);
    ValuesParse(ts, p + 2, values);
  }

  lemma InsertParses(table: string, values: seq<Value>, ts: seq<Token>)
    requires IsIdentifier(table) && values != [] && ts == InsertHead(table) + (CsvTokens(values) + [CLOSE]) + [EOF]
    ensures StatementOf(ts) == Accepted(Insert(table, [], values))
  {
    var n := |CsvTokens(values)|;
    assert ts[5..6 + n] == CsvTokens(values) + [CLOSE];
    RowParses(ts, 3, values);
  }

  /** Whatever the values, the INSERT text that recovery builds parses back to them, quotes, commas, line breaks, empty
      strings and NULL included. */
  lemma InsertRoundTrip(table: string, values: seq<Value>)
    requires IsIdentifier(table) && values != []
    ensures StatementOf(Tokens(InsertText(table, values))) == Accepted(Insert(table, [], values))
  {
    LexInsert(table, values);
    InsertFound(table, values);
    InsertParses(table, values, Tokens(InsertText(table, values)));
  }

  // ---- Conditions -------------------------------------------------------------------------

  function OpWriting(c: Condition): Writing
  {
    if c.op == "IS NULL" then AWord("IS").Then(One(Word("NULL")))
    else if c.op == "IS NOT NULL" then AWord("IS").Then(AWord("NOT").Then(One(Word("NULL"))))
    else One(Operator(c.op)).Then(One(Space).Then(One(Lit(c.value))))
  }

  function ConditionWriting(c: Condition): Writing
  {
    AWord("WHERE").Then(AWord(c.column).Then(OpWriting(c)))
  }

  lemma ConditionKeywords()
    ensures IsKeyword("WHERE") && IsKeyword("IS") && IsKeyword("NOT") && IsKeyword("NULL")
  {
  }

  lemma SpaceThen(rest: Writing)
    requires rest.Ok() && Space.EndsBefore(rest.First().Text())
    ensures var w := One(Space).Then(rest); w.Ok() && w.First() == Space && w.Last() == rest.Last()
  {
    OneOk(Space);
    ThenOk(One(Space), rest);
  }

  lemma OperatorWritingOk(op: string, v: Value)
    requires IsOperator(op)
    ensures var w := One(Operator(op)).Then(One(Space).Then(One(Lit(v))));
            w.Ok() && w.First() == Operator(op) && w.Last() == Lit(v)
  {
    OneOk(Lit(v));
    SpaceThen(One(Lit(v)));
    OneOk(Operator(op));
    ThenOk(One(Operator(op)), One(Space).Then(One(Lit(v))));
  }

  lemma TestWritingOk(c: Condition)
    requires c.op in {"IS NULL", "IS NOT NULL"}
    ensures var w := OpWriting(c); w.Ok() && w.First() == Word("IS") && w.Last() == Word("NULL")
  {
    ConditionKeywords();
    OneOk(Word("NULL"));
    if c.op == "IS NULL" {
      KeywordThen("IS", One(Word("NULL")));
    } else {
      KeywordThen("NOT", One(Word("NULL")));
      KeywordThen("IS", AWord("NOT").Then(One(Word("NULL"))));
    }
  }

  lemma OpWritingOk(c: Condition)
    requires WellFormedCondition(c)
    ensures var w := OpWriting(c); w.Ok() && Space.EndsBefore(w.First().Text()) && w.Last().EndsBefore("")
  {
    if IsOperator(c.op) {
      OperatorWritingOk(c.op, c.value);
    } else {
      TestWritingOk(c);
    }
  }

  lemma ConditionWritingOk(c: Condition)
    requires WellFormedCondition(c)
    ensures var w := ConditionWriting(c); w.Ok() && Space.EndsBefore(w.First().Text()) && w.Last().EndsBefore("")
  {
    ConditionKeywords();
    OpWritingOk(c);
    NameThen(c.column, OpWriting(c));
    KeywordThen("WHERE", AWord(c.column).Then(OpWriting(c)));
  }

  lemma OpWritingText(c: Condition)
    requires WellFormedCondition(c)
    ensures OpWriting(c).text == c.op + if IsTest(c.op) then "" else " " + Literal(c.value)
  {
    if c.op == "IS NULL" {
      assert "IS" + " " + "NULL" == "IS NULL";
    } else if c.op == "IS NOT NULL" {
      assert "IS" + " " + ("NOT" + " " + "NULL") == "IS NOT NULL";
    } else {
      assert !IsTest(c.op);
    }
  }

  lemma ConditionWritingText(c: Condition)
    requires WellFormedCondition(c)
    ensures " " + ConditionWriting(c).text == WhereText(Some(c))
  {
    OpWritingText(c);
    var x := OpWriting(c).text;
    Regroups(c.column, " ", x);
    var y := c.column + (" " + x);
    assert ConditionWriting(c).text == "WHERE" + " " + y;
    assert " " + ("WHERE" + " ") == " WHERE ";
    Regroups(" ", "WHERE" + " ", y);
  }

  function OpTokens(c: Condition): seq<Token>
  {
    if c.op == "IS NULL" then [Token(KEYWORD, "IS"), Token(KEYWORD, "NULL")]
    else if c.op == "IS NOT NULL" then [Token(KEYWORD, "IS"), Token(KEYWORD, "NOT"), Token(KEYWORD, "NULL")]
    else [Token(OPERATOR, c.op), LiteralToken(c.value)]
  }

  function ConditionTokens(c: Condition): seq<Token>
  {
    [Token(KEYWORD, "WHERE"), Token(IDENTIFIER, c.column)] + OpTokens(c)
  }

  lemma OpFound(c: Condition)
    requires WellFormedCondition(c)
    ensures OpWriting(c).found == OpTokens(c)
  {
    ConditionKeywords();
  }

  lemma ConditionFound(c: Condition)
    requires WellFormedCondition(c)
    ensures ConditionWriting(c).found == ConditionTokens(c)
  {
    ConditionKeywords();
    OpFound(c);
  }

  lemma ConditionParses(ts: seq<Token>, p: nat, c: Condition)
    requires WellFormedCondition(c) && StandsAt(ConditionTokens(c), ts, p)
    ensures WhereAt(ts, p) == Parsed(Some(c), p + |ConditionTokens(c)|)
  {
    var part := ConditionTokens(c);
    var here := ts[p..p + |part|];
    assert here[0] == ts[p] && here[1] == ts[p + 1] && here[2] == ts[p + 2] && here[3] == ts[p + 3];
    if c.op == "IS NOT NULL" {
      assert here[4] == ts[p + 4];
    }
  }

  // ---- DELETE -----------------------------------------------------------------------------

  function DeleteWriting(table: string, c: Option<Condition>): Writing
  {
    AWord("DELETE").Then(AWord("FROM").Then(
      if c.None? then One(Word(table)) else AWord(table).Then(ConditionWriting(c.value))))
  }

  lemma DeleteKeywords()
    ensures IsKeyword("DELETE") && IsKeyword("FROM")
  {
  }

  lemma DeleteWritingOk(table: string, c: Option<Condition>)
    requires IsIdentifier(table) && WellFormedWhere(c)
    ensures DeleteWriting(table, c).Ok() && DeleteWriting(table, c).Last().EndsBefore("")
  {
    DeleteKeywords();
    OneOk(Word(table));
    if c.Some? {
      ConditionWritingOk(c.value);
      NameThen(table, ConditionWriting(c.value));
    }
    var w := if c.None? then One(Word(table)) else AWord(table).Then(ConditionWriting(c.value));
    KeywordThen("FROM", w);
    KeywordThen("DELETE", AWord("FROM").Then(w));
  }

  lemma DeleteWritingText(table: string, c: Option<Condition>)
    requires WellFormedWhere(c)
    ensures DeleteWriting(table, c).text == DeleteText(table, c)
  {
    var x := table + WhereText(c);
    if c.Some? {
      ConditionWritingText(c.value);
      Regroups(table, " ", ConditionWriting(c.value).text);
    }
    assert DeleteWriting(table, c).text == "DELETE" + " " + ("FROM" + " " + x);
    assert "DELETE" + " " + ("FROM" + " ") == "DELETE FROM ";
    Regroups("DELETE" + " ", "FROM" + " ", x);
  }

  function WhereTokens(c: Option<Condition>): seq<Token>
  {
    if c.None? then [] else ConditionTokens(c.value)
  }

  /** A WHERE clause, or none, at the end of a statement. */
  lemma WhereParses(ts: seq<Token>, p: nat, c: Option<Condition>)
    requires WellFormedWhere(c) && |ts| == p + |WhereTokens(c)| + 1 && ts[p..] == WhereTokens(c) + [EOF]
    ensures WhereAt(ts, p) == Parsed(c, |ts| - 1) && At(ts, |ts| - 1) == EOF
  {
    assert ts[p..][|WhereTokens(c)|] == EOF;
    if c.Some? {
      assert ts[p..p + |WhereTokens(c)|] == ts[p..][..|WhereTokens(c)|] == WhereTokens(c);
      ConditionParses(ts, p, c.value);
    } else {
      assert ts[p..][0] == EOF;
    }
  }

  function DeleteHead(table: string): seq<Token>
  {
    [Token(KEYWORD, "DELETE"), Token(KEYWORD, "FROM"), Token(IDENTIFIER, table)]
  }

  lemma DeleteFound(table: string, c: Option<Condition>)
    requires IsIdentifier(table) && WellFormedWhere(c)
    ensures DeleteWriting(table, c).found == DeleteHead(table) + WhereTokens(c)
  {
    hide ConditionWriting, ConditionTokens;
    DeleteKeywords();
    if c.Some? {
      ConditionFound(c.value);
    }
    assert DeleteHead(table) == [Token(KEYWORD, "DELETE")] + ([Token(KEYWORD, "FROM")] + [Token(IDENTIFIER, table)]);
  }

  lemma DeleteParses(table: string, c: Option<Condition>, ts: seq<Token>)
    requires IsIdentifier(table) && WellFormedWhere(c) && ts == DeleteHead(table) + WhereTokens(c) + [EOF]
    ensures StatementOf(ts) == Accepted(Delete(table, c))
  {
    assert ts[3..] == WhereTokens(c) + [EOF];
    WhereParses(ts, 3, c);
  }

  lemma DeleteRoundTrip(table: string, c: Option<Condition>)
    requires IsIdentifier(table) && WellFormedWhere(c)
    ensures StatementOf(Tokens(DeleteText(table, c))) == Accepted(Delete(table, c))
  {
    DeleteWritingOk(table, c);
    DeleteWritingText(table, c);
    Lexes(DeleteWriting(table, c));
    DeleteFound(table, c);
    DeleteParses(table, c, Tokens(DeleteText(table, c)));
  }

  // ---- UPDATE -----------------------------------------------------------------------------

  function AssignmentWriting(a: Assignment): Writing
  {
    AWord(a.column).Then(One(Operator("=")).Then(One(Space).Then(One(Lit(a.value)))))
  }

  function SetWriting(assignments: seq<Assignment>): Writing
    requires assignments != []
  {
    var one := AssignmentWriting(assignments[0]);
    if |assignments| == 1 then one
    else one.Then(One(Punctuation(',')).Then(One(Space).Then(SetWriting(assignments[1..]))))
  }

  lemma AssignmentWritingOk(a: Assignment)
    requires IsIdentifier(a.column)
    ensures var w := AssignmentWriting(a); w.Ok() && w.First() == Word(a.column) && w.Last() == Lit(a.value)
  {
    OperatorWritingOk("=", a.value);
    NameThen(a.column, One(Operator("=")).Then(One(Space).Then(One(Lit(a.value)))));
  }

  lemma CommaThen(a: Writing, rest: Writing)
    requires a.Ok() && a.Last().Lit? && rest.Ok() && Space.EndsBefore(rest.First().Text())
    ensures var w := a.Then(One(Punctuation(',')).Then(One(Space).Then(rest)));
            w.Ok() && w.First() == a.First() && w.Last() == rest.Last()
  {
    SpaceThen(rest);
    OneOk(Punctuation(','));
    ThenOk(One(Punctuation(',')), One(Space).Then(rest));
    ThenOk(a, One(Punctuation(',')).Then(One(Space).Then(rest)));
  }

  lemma {:induction false} SetWritingOk(assignments: seq<Assignment>)
    requires assignments != [] && forall a | a in assignments :: IsIdentifier(a.column)
    ensures var w := SetWriting(assignments);
            w.Ok() && w.First() == Word(assignments[0].column) && w.Last().Lit?
  {
    AssignmentWritingOk(assignments[0]);
    if |assignments| > 1 {
      SetWritingOk(assignments[1..]);
      CommaThen(AssignmentWriting(assignments[0]), SetWriting(assignments[1..]));
    }
  }

  lemma AssignmentText(a: Assignment)
    ensures AssignmentWriting(a).text == a.column + (" = " + Literal(a.value))
  {
    hide Literal, WordToken;
    var l := Literal(a.value);
    assert " " + ("=" + (" " + l)) == " = " + l;
    Regroups(a.column, " ", "=" + (" " + l));
  }

  lemma {:induction false} SetWritingText(assignments: seq<Assignment>)
    requires assignments != []
    ensures SetWriting(assignments).text == SetText(assignments)
  {
    hide AssignmentWriting, Literal;
    var a := assignments[0];
    var l := Literal(a.value);
    AssignmentText(a);
    if |assignments| > 1 {
      SetWritingText(assignments[1..]);
      var x := SetText(assignments[1..]);
      assert "," + (" " + x) == ", " + x;
      Regroups(a.column, " = " + l, ", " + x);
      Regroups(" = ", l, ", " + x);
    } else {
      assert l + "" == l;
    }
  }

  function UpdateFront(table: string, rest: Writing): Writing
  {
    AWord("UPDATE").Then(AWord(table).Then(AWord("SET").Then(rest)))
  }

  function UpdateRest(assignments: seq<Assignment>, c: Option<Condition>): Writing
    requires assignments != []
  {
    if c.None? then SetWriting(assignments)
    else SetWriting(assignments).Then(One(Space).Then(ConditionWriting(c.value)))
  }

  lemma UpdateKeywords()
    ensures IsKeyword("UPDATE") && IsKeyword("SET")
  {
  }

  lemma UpdateFrontOk(table: string, rest: Writing)
    requires IsIdentifier(table) && rest.Ok() && Space.EndsBefore(rest.First().Text())
    ensures UpdateFront(table, rest).Ok() && UpdateFront(table, rest).Last() == rest.Last()
  {
    UpdateKeywords();
    KeywordThen("SET", rest);
    NameThen(table, AWord("SET").Then(rest));
    KeywordThen("UPDATE", AWord(table).Then(AWord("SET").Then(rest)));
  }

  lemma GluedOk(a: Writing, b: Writing)
    requires a.Ok() && a.Last().Lit? && b.Ok() && Space.EndsBefore(b.First().Text())
    ensures var w := a.Then(One(Space).Then(b));
            w.Ok() && w.First() == a.First() && w.Last() == b.Last() && w.found == a.found + b.found
  {
    SpaceThen(b);
    ThenOk(a, One(Space).Then(b));
    assert [] + b.found == b.found;
  }

  lemma UpdateRestOk(assignments: seq<Assignment>, c: Option<Condition>)
    requires assignments != [] && (forall a | a in assignments :: IsIdentifier(a.column)) && WellFormedWhere(c)
    ensures var w := UpdateRest(assignments, c);
            w.Ok() && Space.EndsBefore(w.First().Text()) && w.Last().EndsBefore("")
  {
    SetWritingOk(assignments);
    if c.Some? {
      ConditionWritingOk(c.value);
      GluedOk(SetWriting(assignments), ConditionWriting(c.value));
    }
  }

  lemma UpdateFrontText(table: string, rest: Writing)
    ensures UpdateFront(table, rest).text == "UPDATE " + (table + (" SET " + rest.text))
  {
    var x := rest.text;
    assert "UPDATE" + " " == "UPDATE " && " " + ("SET" + " ") == " SET ";
    Regroups(" ", "SET" + " ", x);
    Regroups(table, " ", "SET" + " " + x);
  }

  lemma UpdateRestText(assignments: seq<Assignment>, c: Option<Condition>)
    requires assignments != [] && WellFormedWhere(c)
    ensures UpdateRest(assignments, c).text == SetText(assignments) + WhereText(c)
  {
    SetWritingText(assignments);
    if c.Some? {
      ConditionWritingText(c.value);
    } else {
      assert SetText(assignments) + "" == SetText(assignments);
    }
  }

  function SetTokens(assignments: seq<Assignment>): seq<Token>
  {
    if |assignments| == 0 then []
    else
      var one := AssignmentTokens(assignments[0]);
      if |assignments| == 1 then one else one + [COMMA] + SetTokens(assignments[1..])
  }

  function AssignmentTokens(a: Assignment): (r: seq<Token>)
    ensures |r| == 3
  {
    [Token(IDENTIFIER, a.column), Token(OPERATOR, "="), LiteralToken(a.value)]
  }

  lemma AssignmentFound(a: Assignment)
    requires IsIdentifier(a.column)
    ensures AssignmentWriting(a).found == AssignmentTokens(a)
  {
    assert [] + [LiteralToken(a.value)] == [LiteralToken(a.value)];
  }

  lemma {:induction false} SetFound(assignments: seq<Assignment>)
    requires assignments != [] && forall a | a in assignments :: IsIdentifier(a.column)
    ensures SetWriting(assignments).found == SetTokens(assignments)
  {
    hide AssignmentWriting, AssignmentTokens;
    AssignmentFound(assignments[0]);
    if |assignments| > 1 {
      SetFound(assignments[1..]);
      var rest := SetTokens(assignments[1..]);
      assert [] + rest == rest;
      Regroups(AssignmentTokens(assignments[0]), [COMMA], rest);
    }
  }

  function UpdateHead(table: string): seq<Token>
  {
    [Token(KEYWORD, "UPDATE"), Token(IDENTIFIER, table), Token(KEYWORD, "SET")]
  }

  lemma UpdateFrontFound(table: string, rest: Writing)
    requires IsIdentifier(table)
    ensures UpdateFront(table, rest).found == UpdateHead(table) + rest.found
  {
    UpdateKeywords();
  }

  lemma UpdateRestFound(assignments: seq<Assignment>, c: Option<Condition>)
    requires assignments != [] && (forall a | a in assignments :: IsIdentifier(a.column)) && WellFormedWhere(c)
    ensures UpdateRest(assignments, c).found == SetTokens(assignments) + WhereTokens(c)
  {
    SetFound(assignments);
    SetWritingOk(assignments);
    if c.Some? {
      ConditionWritingOk(c.value);
      GluedOk(SetWriting(assignments), ConditionWriting(c.value));
      ConditionFound(c.value);
    }
  }

  lemma {:induction false} SetParses(ts: seq<Token>, p: nat, assignments: seq<Assignment>)
    requires assignments != [] && forall a | a in assignments :: IsIdentifier(a.column)
    requires StandsAt(SetTokens(assignments), ts, p)
    requires At(ts, p + |SetTokens(assignments)|) != COMMA
    ensures AssignmentsAt(ts, p) == Parsed(assignments, p + |SetTokens(assignments)|)
    decreases |assignments|
  {
    hide SetTokens, ValueAt, LiteralToken;
    var a := assignments[0];
    SetHead(ts, p, assignments);
    LiteralParses(ts, p + 2, a.value);
    if |assignments| == 1 {
      assert [a] == assignments;
    } else {
      SetParses(ts, p + 4, assignments[1..]);
      assert [a] + assignments[1..] == assignments;
    }
  }

  /** The tokens of the first assignment, and what follows them. */
  lemma {:induction false} SetHead(ts: seq<Token>, p: nat, assignments: seq<Assignment>)
    requires assignments != [] && StandsAt(SetTokens(assignments), ts, p)
    ensures var a := assignments[0];
            p + 2 < |ts| && ts[p] == Token(IDENTIFIER, a.column) && ts[p + 1] == Token(OPERATOR, "=")
            && ts[p + 2] == LiteralToken(a.value)
    ensures |assignments| == 1 ==> |SetTokens(assignments)| == 3
    ensures |assignments| > 1 ==>
              && p + 3 < |ts| && ts[p + 3] == COMMA && StandsAt(SetTokens(assignments[1..]), ts, p + 4)
              && |SetTokens(assignments)| == 4 + |SetTokens(assignments[1..])|
  {
    var part, one := SetTokens(assignments), AssignmentTokens(assignments[0]);
    var here := ts[p..p + |part|];
    assert here[0] == ts[p] && here[1] == ts[p + 1] && here[2] == ts[p + 2];
    assert part[0] == one[0] && part[1] == one[1] && part[2] == one[2];
    if |assignments| > 1 {
      assert here[3] == ts[p + 3];
      StandsApart(one + [COMMA], SetTokens(assignments[1..]), ts, p);
    }
  }

  /** What follows the first `n` tokens of `rest`, which stands behind `head` and before the end. */
  lemma TailOf(head: seq<Token>, a: seq<Token>, b: seq<Token>, ts: seq<Token>)
    requires ts == head + (a + b) + [EOF]
    ensures StandsAt(a, ts, |head|) && ts[|head| + |a|..] == b + [EOF]
    ensures At(ts, |head| + |a|) == (b + [EOF])[0]
  {
    assert ts[|head| + |a|] == ts[|head| + |a|..][0];
  }

  lemma UpdateParts(ts: seq<Token>, table: string, assignments: seq<Assignment>, p: nat, c: Option<Condition>, q: nat)
    requires IsIdentifier(table)
    requires At(ts, 0) == Token(KEYWORD, "UPDATE") && At(ts, 1) == Token(IDENTIFIER, table)
             && At(ts, 2) == Token(KEYWORD, "SET")
    requires AssignmentsAt(ts, 3) == Parsed(assignments, p) && WhereAt(ts, p) == Parsed(c, q) && At(ts, q) == EOF
    ensures StatementOf(ts) == Accepted(Update(table, assignments, c))
  {
  }

  lemma UpdateParses(table: string, assignments: seq<Assignment>, c: Option<Condition>, ts: seq<Token>)
    requires WellFormed(Update(table, assignments, c))
    requires ts == UpdateHead(table) + (SetTokens(assignments) + WhereTokens(c)) + [EOF]
    ensures StatementOf(ts) == Accepted(Update(table, assignments, c))
  {
    hide SetTokens, AssignmentsAt, WhereAt, StatementOf;
    var p := 3 + |SetTokens(assignments)|;
    TailOf(UpdateHead(table), SetTokens(assignments), WhereTokens(c), ts);
    SetParses(ts, 3, assignments);
    WhereParses(ts, p, c);
    UpdateParts(ts, table, assignments, p, c, |ts| - 1);
  }

  lemma UpdateRoundTrip(table: string, assignments: seq<Assignment>, c: Option<Condition>)
    requires WellFormed(Update(table, assignments, c))
    ensures StatementOf(Tokens(UpdateText(table, assignments, c))) == Accepted(Update(table, assignments, c))
  {
    var rest := UpdateRest(assignments, c);
    UpdateRestOk(assignments, c);
    UpdateFrontOk(table, rest);
    UpdateRestText(assignments, c);
    UpdateFrontText(table, rest);
    Lexes(UpdateFront(table, rest));
    UpdateRestFound(assignments, c);
    UpdateFrontFound(table, rest);
    UpdateParses(table, assignments, c, Tokens(UpdateText(table, assignments, c)));
  }

  /** The SQL text of every statement the parser can produce parses back to that statement. */
  lemma StatementRoundTrip(s: Statement)
    requires WellFormed(s)
    ensures StatementOf(Tokens(Text(s))) == Accepted(s)
  {
    match s
    case Insert(table, _, values) => InsertRoundTrip(table, values);
    case Delete(table, c) => DeleteRoundTrip(table, c);
    case Update(table, assignments, c) => UpdateRoundTrip(table, assignments, c);
  }

  // ---- What the parser can produce --------------------------------------------------------

  predicate TokenOk(t: Token)
  {
    && (t.kind == IDENTIFIER ==> IsIdentifier(t.value)) && (t.kind == OPERATOR ==> IsOperator(t.value))
    && (t.kind == KEYWORD ==> t.value in KEYWORDS)
  }

  predicate TokensOk(ts: seq<Token>)
  {
    forall t | t in ts :: TokenOk(t)
  }

  lemma {:induction false} WordLengthIsWord(s: string)
    ensures AllWordChars(s[..WordLength(s)])
  {
    if |s| > 0 && IsWordChar(s[0]) {
      WordLengthIsWord(s[1..]);
      assert s[..WordLength(s)] == [s[0]] + s[1..][..WordLength(s[1..])];
    }
  }

  lemma StepOk(s: string)
    requires |s| > 0
    ensures TokensOk(Step(s).0)
  {
    WordLengthIsWord(s);
  }

  lemma {:induction false} LexedOk(s: string)
    ensures TokensOk(Tokens(s))
    decreases |s|
  {
    if |s| > 0 {
      StepOk(s);
      LexedOk(Drop(s, Step(s).1));
    }
  }

  lemma AtOk(ts: seq<Token>, p: nat)
    requires TokensOk(ts)
    ensures TokenOk(At(ts, p))
  {
  }

  lemma ConditionOk(ts: seq<Token>, p: nat)
    requires TokensOk(ts) && ConditionAt(ts, p).Parsed?
    ensures WellFormedCondition(ConditionAt(ts, p).value)
  {
    AtOk(ts, p);
    AtOk(ts, p + 1);
  }

  lemma WhereOk(ts: seq<Token>, p: nat)
    requires TokensOk(ts) && WhereAt(ts, p).Parsed?
    ensures WellFormedWhere(WhereAt(ts, p).value)
  {
    if At(ts, p) == Token(KEYWORD, "WHERE") {
      ConditionOk(ts, p + 1);
    }
  }

  lemma {:induction false} AssignmentsOk(ts: seq<Token>, p: nat)
    requires TokensOk(ts) && AssignmentsAt(ts, p).Parsed?
    ensures forall a | a in AssignmentsAt(ts, p).value :: IsIdentifier(a.column)
    decreases |ts| - p
  {
    AtOk(ts, p);
    var q := ValueAt(ts, p + 2).next;
    if At(ts, q) == Token(PUNCTUATION, ",") {
      AssignmentsOk(ts, q + 1);
    }
  }

  /** The statement as it is logged: the row of an INSERT is logged in the order of the table's columns. */
  function Positional(s: Statement): Statement
  {
    match s
    case Insert(table, _, values) => Insert(table, [], values)
    case Delete(_, _) => s
    case Update(_, _, _) => s
  }

  /** Every statement that comes out of the parser has a text that parses back to it. */
  lemma ParsedIsWellFormed(sql: string, s: Statement)
    requires StatementOf(Tokens(sql)) == Accepted(s)
    ensures WellFormed(Positional(s))
  {
    hide CreateAt, DropAt, Tokens, Step;
    var ts := Tokens(sql);
    LexedOk(sql);
    AtOk(ts, 1);
    AtOk(ts, 2);
    match s {
      case Insert(_, _, _) =>
      case Delete(_, _) => WhereOk(ts, 3);
      case Update(_, assignments, _) =>
        AssignmentsOk(ts, 3);
        WhereOk(ts, AssignmentsAt(ts, 3).next);
    }
  }
}
