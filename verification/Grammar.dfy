// The sentences of the SQL dialect, as lists of tokens, and the proof that the parser accepts exactly these.
module Grammars {
  import opened Sequences
  import opened Wrappers
  import opened StringUtils
  import opened Sql
  import opened Lexers
  import opened Parsers
  import opened SqlText
  import opened SqlRoundTrip

  // ---- The sentences ----------------------------------------------------------------------

  predicate IsKey(t: Token, word: string)
  {
    t == Token(KEYWORD, word)
  }

  predicate Names(t: Token, name: string)
  {
    t == Token(IDENTIFIER, name)
  }

  /** A quoted text, a number or a bare word stands for itself, the word NULL for NULL. */
  predicate StandsFor(t: Token, v: Value)
  {
    match v
    case None => IsKey(t, "NULL")
    case Some(text) => t.value == text && (t.kind == STRING || t.kind == NUMBER || t.kind == IDENTIFIER)
  }

  /** Elements separated by commas. The parser takes any token with the value "," for a comma, a quoted one, too. */
  predicate NameList(ts: seq<Token>, names: seq<string>)
  {
    && names != [] && |ts| == 2 * |names| - 1
    && forall i | 0 <= i < |names| :: Names(ts[2 * i], names[i]) && (i > 0 ==> ts[2 * i - 1].value == ",")
  }

  predicate ValueList(ts: seq<Token>, values: seq<Value>)
  {
    && values != [] && |ts| == 2 * |values| - 1
    && forall i | 0 <= i < |values| :: StandsFor(ts[2 * i], values[i]) && (i > 0 ==> ts[2 * i - 1].value == ",")
  }

  predicate AssignmentStands(ts: seq<Token>, p: nat, a: Assignment)
  {
    p + 2 < |ts| && Names(ts[p], a.column) && ts[p + 1] == Token(OPERATOR, "=") && StandsFor(ts[p + 2], a.value)
  }

  predicate AssignmentList(ts: seq<Token>, assignments: seq<Assignment>)
  {
    && assignments != [] && |ts| == 4 * |assignments| - 1
    && forall i | 0 <= i < |assignments| ::
         AssignmentStands(ts, 4 * i, assignments[i]) && (i > 0 ==> ts[4 * i - 1] == COMMA)
  }

  /** The names of the types; TEXT and BOOLEAN, which are no keywords, are other names of STRING and BOOL. */
  predicate IsType(t: Token, kind: string)
  {
    || (kind in {"INT", "STRING", "FLOAT", "BOOL"} && IsKey(t, kind))
    || (t.kind == IDENTIFIER && kind == "STRING" && IsSpellingOf(t.value, "TEXT"))
    || (t.kind == IDENTIFIER && kind == "BOOL" && IsSpellingOf(t.value, "BOOLEAN"))
  }

  predicate DefinitionList(ts: seq<Token>, columns: seq<Column>)
  {
    && columns != [] && |ts| == 3 * |columns| - 1
    && forall i | 0 <= i < |columns| ::
         && Names(ts[3 * i], columns[i].name) && IsType(ts[3 * i + 1], columns[i].kind)
         && (i > 0 ==> ts[3 * i - 1].value == ",")
  }

  predicate IsCondition(ts: seq<Token>, c: Condition)
  {
    && |ts| >= 3 && Names(ts[0], c.column)
    && if IsKey(ts[1], "IS")
       then c.value == None && if c.op == "IS NULL" then ts[2..] == [Token(KEYWORD, "NULL")]
                               else c.op == "IS NOT NULL" && ts[2..] == [Token(KEYWORD, "NOT"), Token(KEYWORD, "NULL")]
       else |ts| == 3 && ts[1] == Token(OPERATOR, c.op) && StandsFor(ts[2], c.value)
  }

  predicate IsWhere(ts: seq<Token>, c: Option<Condition>)
  {
    match c
    case None => ts == []
    case Some(c) => ts != [] && IsKey(ts[0], "WHERE") && IsCondition(ts[1..], c)
  }

  /** INSERT INTO t VALUES (..), or INSERT INTO t (..) VALUES (..) with as many columns as values. */
  predicate IsInsert(ts: seq<Token>, table: string, columns: seq<string>, values: seq<Value>)
  {
    var k := if columns == [] then 3 else 2 * |columns| + 4;
    && values != [] && |ts| == k + 2 * |values| + 2
    && IsKey(ts[0], "INSERT") && IsKey(ts[1], "INTO") && Names(ts[2], table)
    && (columns != [] ==>
          |columns| == |values| && ts[3] == OPEN && NameList(ts[4..k - 1], columns) && ts[k - 1] == CLOSE)
    && IsKey(ts[k], "VALUES") && ts[k + 1] == OPEN && ValueList(ts[k + 2..|ts| - 1], values) && ts[|ts| - 1] == CLOSE
  }

  predicate IsDelete(ts: seq<Token>, table: string, c: Option<Condition>)
  {
    && |ts| >= 3 && IsKey(ts[0], "DELETE") && IsKey(ts[1], "FROM") && Names(ts[2], table)
    && IsWhere(ts[3..], c)
  }

  predicate IsUpdate(ts: seq<Token>, table: string, assignments: seq<Assignment>, c: Option<Condition>)
  {
    var k := 4 * |assignments| + 2;
    && assignments != [] && |ts| >= k && IsKey(ts[0], "UPDATE") && Names(ts[1], table) && IsKey(ts[2], "SET")
    && AssignmentList(ts[3..k], assignments) && IsWhere(ts[k..], c)
  }

  /** The closing parenthesis may be a quoted one, too. */
  predicate IsCreate(ts: seq<Token>, table: string, columns: seq<Column>)
  {
    && columns != [] && |ts| == 3 * |columns| + 4
    && IsKey(ts[0], "CREATE") && IsKey(ts[1], "TABLE") && Names(ts[2], table)
    && ts[3] == OPEN && DefinitionList(ts[4..|ts| - 1], columns) && ts[|ts| - 1].value == ")"
  }

  predicate IsDrop(ts: seq<Token>, table: string)
  {
    |ts| == 3 && IsKey(ts[0], "DROP") && IsKey(ts[1], "TABLE") && Names(ts[2], table)
  }

  /** The tokens say just this; an error and a statement of another kind have no sentence here. */
  predicate Says(ts: seq<Token>, meant: Outcome)
  {
    match meant
    case Accepted(Insert(table, columns, values)) => IsInsert(ts, table, columns, values)
    case Accepted(Delete(table, c)) => IsDelete(ts, table, c)
    case Accepted(Update(table, assignments, c)) => IsUpdate(ts, table, assignments, c)
    case Creates(table, columns) => IsCreate(ts, table, columns)
    case Drops(table) => IsDrop(ts, table)
    case Rejected(_) => false
    case Other => false
  }

  // ---- Reading lists ----------------------------------------------------------------------

  lemma ValueIs(ts: seq<Token>, p: nat, v: Value)
    ensures ValueAt(ts, p) == Parsed(v, p + 1) <==> p < |ts| && StandsFor(ts[p], v)
  {
  }

  /** An identifier is no punctuation. */
  lemma NameToken(ts: seq<Token>, p: nat)
    requires TokensOk(ts)
    ensures At(ts, p).kind == IDENTIFIER ==> At(ts, p).value != "" && At(ts, p).value != ")" && At(ts, p).value != ","
  {
    AtOk(ts, p);
  }

  /** A list of values is its first value, and the rest of the list behind a comma. */
  lemma ValueListSplits(ts: seq<Token>, values: seq<Value>)
    requires values != []
    ensures ValueList(ts, values)
            <==> |ts| > 0 && StandsFor(ts[0], values[0])
                 && if |values| == 1 then |ts| == 1
                    else |ts| > 2 && ts[1].value == "," && ValueList(ts[2..], values[1..])
  {
    if |values| > 1 && |ts| > 2 {
      var rest, vs := ts[2..], values[1..];
      if ValueList(ts, values) {
        assert StandsFor(ts[2 * 1], values[1]);
        forall i | 0 <= i < |vs| ensures StandsFor(rest[2 * i], vs[i]) && (i > 0 ==> rest[2 * i - 1].value == ",") {
          assert vs[i] == values[i + 1] && rest[2 * i] == ts[2 * (i + 1)];
        }
      }
      if StandsFor(ts[0], values[0]) && ts[1].value == "," && ValueList(rest, vs) {
        forall i | 0 <= i < |values|
          ensures StandsFor(ts[2 * i], values[i]) && (i > 0 ==> ts[2 * i - 1].value == ",")
        {
          if i > 0 {
            assert vs[i - 1] == values[i] && rest[2 * (i - 1)] == ts[2 * i];
            assert i > 1 ==> rest[2 * (i - 1) - 1] == ts[2 * i - 1];
          }
        }
      }
    }
  }

  lemma {:induction false} ValuesFound(ts: seq<Token>, p: nat, values: seq<Value>, q: nat)
    requires ValuesAt(ts, p) == Parsed(values, q)
    ensures p < q < |ts| && ValueList(ts[p..q], values) && ts[q].value == ")"
    decreases |ts| - p
  {
    hide StandsFor, ValueList;
    var v, next := ValueAt(ts, p).value, p + 1;
    ValueIs(ts, p, v);
    if At(ts, next).value == ")" {
      assert values == [v] && q == next;
    } else {
      var rest := ValuesAt(ts, next + 1);
      assert values == [v] + rest.value && values[1..] == rest.value;
      ValuesFound(ts, next + 1, rest.value, q);
      assert ts[p..q][2..] == ts[p + 2..q];
    }
    ValueListSplits(ts[p..q], values);
  }

  lemma {:induction false} ValuesRead(ts: seq<Token>, p: nat, values: seq<Value>, q: nat)
    requires p <= q < |ts| && ValueList(ts[p..q], values) && ts[q].value == ")"
    ensures ValuesAt(ts, p) == Parsed(values, q)
    decreases |values|
  {
    hide StandsFor, ValueList, ValueAt;
    var part := ts[p..q];
    ListLengths(part, values, [], []);
    ValueListSplits(part, values);
    assert part[0] == ts[p];
    ValueIs(ts, p, values[0]);
    if |values| == 1 {
      assert values == [values[0]];
    } else {
      assert part[1] == ts[p + 1] && part[2..] == ts[p + 2..q];
      ValuesRead(ts, p + 2, values[1..], q);
      assert values == [values[0]] + values[1..];
    }
  }

  lemma NameListSplits(ts: seq<Token>, names: seq<string>)
    requires names != []
    ensures NameList(ts, names)
            <==> |ts| > 0 && Names(ts[0], names[0])
                 && if |names| == 1 then |ts| == 1
                    else |ts| > 2 && ts[1].value == "," && NameList(ts[2..], names[1..])
  {
    if |names| > 1 && |ts| > 2 {
      var rest, ns := ts[2..], names[1..];
      if NameList(ts, names) {
        assert Names(ts[2 * 1], names[1]);
        forall i | 0 <= i < |ns| ensures Names(rest[2 * i], ns[i]) && (i > 0 ==> rest[2 * i - 1].value == ",") {
          assert ns[i] == names[i + 1] && rest[2 * i] == ts[2 * (i + 1)];
        }
      }
      if Names(ts[0], names[0]) && ts[1].value == "," && NameList(rest, ns) {
        forall i | 0 <= i < |names| ensures Names(ts[2 * i], names[i]) && (i > 0 ==> ts[2 * i - 1].value == ",") {
          if i > 0 {
            assert ns[i - 1] == names[i] && rest[2 * (i - 1)] == ts[2 * i];
            assert i > 1 ==> rest[2 * (i - 1) - 1] == ts[2 * i - 1];
          }
        }
      }
    }
  }

  lemma {:induction false} NamesFound(ts: seq<Token>, p: nat, names: seq<string>, q: nat)
    requires NamesAt(ts, p) == Parsed(names, q)
    ensures p < q <= |ts| && NameList(ts[p..q], names) && At(ts, q).value == ")"
    decreases |ts| - p
  {
    if At(ts, p + 1).value == "," {
      var rest := NamesAt(ts, p + 2);
      assert names == [ts[p].value] + rest.value && names[1..] == rest.value;
      NamesFound(ts, p + 2, rest.value, q);
      assert ts[p..q][2..] == ts[p + 2..q];
    } else {
      assert names == [ts[p].value] && q == p + 1;
    }
    NameListSplits(ts[p..q], names);
  }

  lemma {:induction false} NamesRead(ts: seq<Token>, p: nat, names: seq<string>, q: nat)
    requires TokensOk(ts) && p <= q < |ts| && NameList(ts[p..q], names) && ts[q].value == ")"
    ensures NamesAt(ts, p) == Parsed(names, q)
    decreases |names|
  {
    hide TokensOk, NameList;
    ListLengths(ts[p..q], [], names, []);
    var part := ts[p..q];
    NameListSplits(part, names);
    assert part[0] == ts[p];
    NameToken(ts, p);
    if |names| == 1 {
      assert names == [names[0]];
    } else {
      assert part[1] == ts[p + 1] && part[2..] == ts[p + 2..q];
      NameListSplits(part[2..], names[1..]);
      assert part[2] == part[2..][0] == ts[p + 2];
      NamesRead(ts, p + 2, names[1..], q);
      assert names == [names[0]] + names[1..];
    }
  }

  lemma AssignmentShifts(ts: seq<Token>, d: nat, p: nat, a: Assignment)
    requires d <= |ts|
    ensures AssignmentStands(ts[d..], p, a) <==> AssignmentStands(ts, d + p, a)
  {
  }

  lemma AssignmentListSplits(ts: seq<Token>, assignments: seq<Assignment>)
    requires assignments != []
    ensures AssignmentList(ts, assignments)
            <==> AssignmentStands(ts, 0, assignments[0])
                 && if |assignments| == 1 then |ts| == 3
                    else |ts| > 4 && ts[3] == COMMA && AssignmentList(ts[4..], assignments[1..])
  {
    hide AssignmentStands;
    if |assignments| > 1 && |ts| > 4 {
      var rest, xs := ts[4..], assignments[1..];
      forall i | 0 <= i < |xs|
        ensures AssignmentStands(rest, 4 * i, xs[i]) <==> AssignmentStands(ts, 4 * (i + 1), assignments[i + 1])
      {
        AssignmentShifts(ts, 4, 4 * i, xs[i]);
      }
      if AssignmentList(ts, assignments) {
        assert AssignmentStands(ts, 4 * 1, assignments[1]) && ts[4 * 1 - 1] == COMMA;
        forall i | 0 <= i < |xs| ensures AssignmentStands(rest, 4 * i, xs[i]) && (i > 0 ==> rest[4 * i - 1] == COMMA) {
          assert AssignmentStands(ts, 4 * (i + 1), assignments[i + 1]);
        }
      }
      if AssignmentList(rest, xs) && AssignmentStands(ts, 0, assignments[0]) && ts[3] == COMMA {
        forall i | 0 <= i < |assignments|
          ensures AssignmentStands(ts, 4 * i, assignments[i]) && (i > 0 ==> ts[4 * i - 1] == COMMA)
        {
          if i > 0 {
            assert AssignmentStands(rest, 4 * (i - 1), xs[i - 1]);
            assert i > 1 ==> rest[4 * (i - 1) - 1] == ts[4 * i - 1];
          }
        }
      }
    }
    if |assignments| == 1 && AssignmentList(ts, assignments) {
      assert AssignmentStands(ts, 4 * 0, assignments[0]);
    }
  }

  lemma {:induction false} AssignmentsFound(ts: seq<Token>, p: nat, assignments: seq<Assignment>, q: nat)
    requires AssignmentsAt(ts, p) == Parsed(assignments, q)
    ensures p < q <= |ts| && AssignmentList(ts[p..q], assignments) && At(ts, q) != COMMA
    decreases |ts| - p
  {
    hide StandsFor, AssignmentList;
    var v := ValueAt(ts, p + 2).value;
    ValueIs(ts, p + 2, v);
    var a := Assignment(ts[p].value, v);
    if At(ts, p + 3) == COMMA {
      var rest := AssignmentsAt(ts, p + 4);
      assert assignments == [a] + rest.value && assignments[1..] == rest.value;
      AssignmentsFound(ts, p + 4, rest.value, q);
      assert ts[p..q][4..] == ts[p + 4..q];
    } else {
      assert assignments == [a] && q == p + 3;
    }
    AssignmentListSplits(ts[p..q], assignments);
  }

  lemma {:induction false} AssignmentsRead(ts: seq<Token>, p: nat, assignments: seq<Assignment>, q: nat)
    requires TokensOk(ts) && p <= q <= |ts| && AssignmentList(ts[p..q], assignments) && At(ts, q) != COMMA
    ensures AssignmentsAt(ts, p) == Parsed(assignments, q)
    decreases |assignments|
  {
    hide TokensOk, StandsFor, ValueAt, AssignmentList;
    AssignmentsLength(ts[p..q], assignments);
    var part := ts[p..q];
    AssignmentListSplits(part, assignments);
    assert part[0] == ts[p] && part[1] == ts[p + 1] && part[2] == ts[p + 2];
    NameToken(ts, p);
    ValueIs(ts, p + 2, assignments[0].value);
    if |assignments| == 1 {
      assert assignments == [assignments[0]];
    } else {
      assert part[3] == ts[p + 3] && part[4..] == ts[p + 4..q];
      AssignmentsRead(ts, p + 4, assignments[1..], q);
      assert assignments == [assignments[0]] + assignments[1..];
    }
  }

  // ---- Column definitions -----------------------------------------------------------------

  predicate IsCapital(s: string)
  {
    forall i | 0 <= i < |s| :: !('a' <= s[i] <= 'z')
  }

  lemma KeywordsAreCapital(w: string)
    requires w in KEYWORDS
    ensures IsCapital(w)
  {
  }

  lemma CapitalStays(w: string)
    requires IsCapital(w)
    ensures ToUpper(w) == w
  {
    ToUpperIs(w, w);
  }

  lemma TypeIs(t: Token)
    requires TokenOk(t)
    ensures CanonicalType(t) == "" || IsType(t, CanonicalType(t))
    ensures forall kind | IsType(t, kind) :: CanonicalType(t) == kind != ""
  {
    hide ToUpper, IsSpellingOf, IsIdentifier, IsOperator, KEYWORDS;
    if t.kind == KEYWORD {
      KeywordsAreCapital(t.value);
      CapitalStays(t.value);
    }
    ToUpperIs(t.value, "TEXT");
    ToUpperIs(t.value, "BOOLEAN");
  }

  lemma DefinitionListSplits(ts: seq<Token>, columns: seq<Column>)
    requires columns != []
    ensures DefinitionList(ts, columns)
            <==> |ts| > 1 && Names(ts[0], columns[0].name) && IsType(ts[1], columns[0].kind)
                 && if |columns| == 1 then |ts| == 2
                    else |ts| > 3 && ts[2].value == "," && DefinitionList(ts[3..], columns[1..])
  {
    hide IsType;
    if |columns| > 1 && |ts| > 3 {
      var rest, cs := ts[3..], columns[1..];
      if DefinitionList(ts, columns) {
        assert Names(ts[3 * 1], columns[1].name);
        forall i | 0 <= i < |cs|
          ensures Names(rest[3 * i], cs[i].name) && IsType(rest[3 * i + 1], cs[i].kind)
          ensures i > 0 ==> rest[3 * i - 1].value == ","
        {
          assert cs[i] == columns[i + 1] && rest[3 * i] == ts[3 * (i + 1)];
        }
      }
      if DefinitionList(rest, cs) && Names(ts[0], columns[0].name) && IsType(ts[1], columns[0].kind)
         && ts[2].value == "," {
        forall i | 0 <= i < |columns|
          ensures Names(ts[3 * i], columns[i].name) && IsType(ts[3 * i + 1], columns[i].kind)
          ensures i > 0 ==> ts[3 * i - 1].value == ","
        {
          if i > 0 {
            assert cs[i - 1] == columns[i] && rest[3 * (i - 1)] == ts[3 * i];
            assert rest[3 * (i - 1) + 1] == ts[3 * i + 1];
            assert i > 1 ==> rest[3 * (i - 1) - 1] == ts[3 * i - 1];
          }
        }
      }
    }
  }

  lemma {:induction false} DefinitionsFound(ts: seq<Token>, p: nat, columns: seq<Column>, q: nat)
    requires TokensOk(ts) && DefinitionsAt(ts, p) == Parsed(columns, q) && columns != []
    ensures p < q < |ts| && DefinitionList(ts[p..q], columns) && ts[q].value == ")"
    decreases |ts| - p
  {
    hide CanonicalType, TokensOk;
    AtOk(ts, p + 1);
    TypeIs(At(ts, p + 1));
    var c := Column(ts[p].value, CanonicalType(At(ts, p + 1)));
    var next := if At(ts, p + 2).value == "," then p + 3 else p + 2;
    var rest := DefinitionsAt(ts, next);
    assert columns == [c] + rest.value && columns[1..] == rest.value;
    if rest.value == [] {
      NoDefinitions(ts, next, q);
      assert next == p + 2 && q == next;
    } else {
      DefinitionsFound(ts, next, rest.value, q);
      assert next == p + 3 by {
        DefinitionListSplits(ts[next..q], rest.value);
      }
      assert ts[p..q][3..] == ts[p + 3..q];
    }
    DefinitionListSplits(ts[p..q], columns);
  }

  lemma NoDefinitions(ts: seq<Token>, p: nat, q: nat)
    requires DefinitionsAt(ts, p) == Parsed([], q)
    ensures q == p && At(ts, p).value == ")"
  {
  }

  lemma {:induction false} DefinitionsRead(ts: seq<Token>, p: nat, columns: seq<Column>, q: nat)
    requires TokensOk(ts) && p <= q < |ts| && DefinitionList(ts[p..q], columns)
    requires ts[q].value == ")" && ts[q].kind != END_OF_FILE
    ensures DefinitionsAt(ts, p) == Parsed(columns, q)
    decreases |columns|
  {
    hide CanonicalType, IsType, TokensOk, DefinitionList;
    ListLengths(ts[p..q], [], [], columns);
    var part := ts[p..q];
    DefinitionListSplits(part, columns);
    assert part[0] == ts[p] && part[1] == ts[p + 1];
    NameToken(ts, p);
    AtOk(ts, p + 1);
    TypeIs(ts[p + 1]);
    if |columns| == 1 {
      assert DefinitionsAt(ts, q) == Parsed([], q);
      assert columns == [columns[0]] + [];
    } else {
      assert part[2] == ts[p + 2] && part[3..] == ts[p + 3..q];
      DefinitionListSplits(part[3..], columns[1..]);
      assert part[3..][0] == ts[p + 3];
      NameToken(ts, p + 3);
      DefinitionsRead(ts, p + 3, columns[1..], q);
      assert columns == [columns[0]] + columns[1..];
    }
  }

  // ---- Conditions -------------------------------------------------------------------------

  lemma ConditionIs(ts: seq<Token>, p: nat, c: Condition, q: nat)
    requires TokensOk(ts)
    ensures ConditionAt(ts, p) == Parsed(c, q) ==> p < q <= |ts| && IsCondition(ts[p..q], c)
    ensures p <= q <= |ts| && IsCondition(ts[p..q], c) ==> ConditionAt(ts, p) == Parsed(c, q)
  {
    hide TokensOk;
    NameToken(ts, p);
    AtOk(ts, p + 1);
    if ConditionAt(ts, p) == Parsed(c, q) {
      var part := ts[p..q];
      assert part[0] == ts[p] && part[1] == ts[p + 1] && part[2] == ts[p + 2];
      if IsKey(part[1], "IS") {
        assert part[2..] == if c.op == "IS NULL" then [ts[p + 2]] else [ts[p + 2], ts[p + 3]];
      } else {
        ValueIs(ts, p + 2, c.value);
      }
    }
    if p <= q <= |ts| && IsCondition(ts[p..q], c) {
      var part := ts[p..q];
      assert part[0] == ts[p] && part[1] == ts[p + 1] && part[2] == ts[p + 2];
      if IsKey(part[1], "IS") {
        assert part[2..][0] == ts[p + 2];
        assert c.op == "IS NOT NULL" ==> part[2..][1] == ts[p + 3];
      } else {
        ValueIs(ts, p + 2, c.value);
      }
    }
  }

  // ---- Statements -------------------------------------------------------------------------

  /** What the lexer finds: tokens, and the end of the text behind them. */
  ghost predicate Closed(ts: seq<Token>, all: seq<Token>)
  {
    all == ts + [EOF] && TokensOk(all) && forall i | 0 <= i < |ts| :: ts[i].kind != END_OF_FILE
  }

  lemma EndIs(ts: seq<Token>, all: seq<Token>, p: nat)
    requires Closed(ts, all)
    ensures At(all, p).kind == END_OF_FILE <==> p >= |ts|
    ensures p < |ts| ==> At(all, p) == ts[p]
  {
  }

  lemma PartIs(ts: seq<Token>, all: seq<Token>, p: nat, q: nat)
    requires Closed(ts, all) && p <= q <= |ts|
    ensures all[p..q] == ts[p..q]
  {
  }

  lemma NoEndInside(ts: seq<Token>, all: seq<Token>, c: Condition, p: nat, q: nat)
    requires Closed(ts, all) && p <= q <= |all| && IsCondition(all[p..q], c)
    ensures q <= |ts|
  {
    var part := all[p..q];
    assert part[|part| - 1] == all[q - 1];
    assert IsKey(part[1], "IS") ==> part[2..][|part| - 3] == part[|part| - 1];
  }

  /** A WHERE clause, or none, that ends the statement. */
  lemma WhereIs(ts: seq<Token>, all: seq<Token>, p: nat, c: Option<Condition>)
    requires Closed(ts, all) && p <= |ts|
    ensures (exists q: nat :: WhereAt(all, p) == Parsed(c, q) && At(all, q).kind == END_OF_FILE)
            <==> IsWhere(ts[p..], c)
    ensures IsWhere(ts[p..], c) ==> WhereAt(all, p) == Parsed(c, |ts|)
  {
    hide TokensOk, IsCondition, ConditionAt;
    EndIs(ts, all, p);
    var n, tail := |ts|, ts[p..];
    if p < n {
      assert tail[0] == ts[p] && tail[1..] == ts[p + 1..n];
      PartIs(ts, all, p + 1, n);
    }
    match c {
      case None =>
        EndIs(ts, all, n);
      case Some(cond) =>
        if q: nat :| WhereAt(all, p) == Parsed(c, q) && At(all, q).kind == END_OF_FILE {
          ConditionIs(all, p + 1, cond, q);
          NoEndInside(ts, all, cond, p + 1, q);
          EndIs(ts, all, q);
          assert q == n;
        }
        if IsWhere(tail, c) {
          ConditionIs(all, p + 1, cond, n);
          EndIs(ts, all, n);
        }
    }
  }

  lemma DeleteIs(ts: seq<Token>, all: seq<Token>, table: string, c: Option<Condition>)
    requires Closed(ts, all)
    ensures DeleteAt(all) == Accepted(Delete(table, c)) <==> IsDelete(ts, table, c)
  {
    hide TokensOk, WhereAt, IsWhere;
    EndIs(ts, all, 0);
    EndIs(ts, all, 1);
    EndIs(ts, all, 2);
    NameToken(all, 2);
    if |ts| >= 3 {
      WhereIs(ts, all, 3, c);
      EndIs(ts, all, |ts|);
    }
  }

  /** The assignments of an UPDATE end where the WHERE clause begins, or the statement ends. */
  lemma AssignmentsEnd(ts: seq<Token>, all: seq<Token>, k: nat, c: Option<Condition>)
    requires Closed(ts, all) && k <= |ts| && IsWhere(ts[k..], c)
    ensures At(all, k) != COMMA
  {
    hide TokensOk, IsCondition;
    EndIs(ts, all, k);
    if k < |ts| {
      assert ts[k..][0] == ts[k];
    }
  }

  lemma UpdateIs(ts: seq<Token>, all: seq<Token>, table: string, assignments: seq<Assignment>, c: Option<Condition>)
    requires Closed(ts, all)
    ensures UpdateAt(all) == Accepted(Update(table, assignments, c)) <==> IsUpdate(ts, table, assignments, c)
  {
    hide TokensOk, WhereAt, IsWhere, AssignmentList, AssignmentsAt;
    EndIs(ts, all, 0);
    EndIs(ts, all, 1);
    EndIs(ts, all, 2);
    NameToken(all, 1);
    var k := 4 * |assignments| + 2;
    if UpdateAt(all) == Accepted(Update(table, assignments, c)) {
      var q := AssignmentsAt(all, 3).next;
      AssignmentsFound(all, 3, assignments, q);
      AssignmentsLength(all[3..q], assignments);
      assert q == k && all[q - 1] != EOF by {
        LastAssigned(all[3..q], assignments);
      }
      WhereIs(ts, all, k, c);
      PartIs(ts, all, 3, k);
    }
    if IsUpdate(ts, table, assignments, c) {
      PartIs(ts, all, 3, k);
      AssignmentsEnd(ts, all, k, c);
      AssignmentsRead(all, 3, assignments, k);
      WhereIs(ts, all, k, c);
      EndIs(ts, all, |ts|);
    }
  }

  lemma AssignmentsLength(ts: seq<Token>, assignments: seq<Assignment>)
    requires AssignmentList(ts, assignments)
    ensures |ts| == 4 * |assignments| - 1 && assignments != []
  {
  }

  lemma LastAssigned(ts: seq<Token>, assignments: seq<Assignment>)
    requires AssignmentList(ts, assignments)
    ensures ts[|ts| - 1].kind != END_OF_FILE
  {
    var n := |assignments| - 1;
    assert AssignmentStands(ts, 4 * n, assignments[n]);
  }

  lemma ListLengths(ts: seq<Token>, values: seq<Value>, names: seq<string>, columns: seq<Column>)
    ensures ValueList(ts, values) ==> |ts| == 2 * |values| - 1 && values != []
    ensures NameList(ts, names) ==> |ts| == 2 * |names| - 1 && names != []
    ensures DefinitionList(ts, columns) ==> |ts| == 3 * |columns| - 1 && columns != []
  {
  }

  lemma RowIs(ts: seq<Token>, all: seq<Token>, p: nat, values: seq<Value>)
    requires Closed(ts, all)
    ensures (exists q: nat :: RowAt(all, p) == Parsed(values, q) && At(all, q).kind == END_OF_FILE)
            <==> && values != [] && |ts| == p + 2 * |values| + 2 && IsKey(ts[p], "VALUES") && ts[p + 1] == OPEN
                 && ValueList(ts[p + 2..|ts| - 1], values) && ts[|ts| - 1] == CLOSE
    ensures forall q: nat | RowAt(all, p) == Parsed(values, q) && At(all, q).kind == END_OF_FILE :: q == |ts|
  {
    hide TokensOk, ValueList, ValuesAt;
    EndIs(ts, all, p);
    EndIs(ts, all, p + 1);
    forall q: nat | RowAt(all, p) == Parsed(values, q) && At(all, q).kind == END_OF_FILE
      ensures q == |ts| && ValueList(ts[p + 2..q - 1], values) && values != [] && q == p + 2 * |values| + 2
      ensures ts[p + 1] == OPEN && ts[q - 1] == CLOSE && IsKey(ts[p], "VALUES")
    {
      ValuesFound(all, p + 2, values, q - 1);
      EndIs(ts, all, q - 1);
      EndIs(ts, all, q);
      PartIs(ts, all, p + 2, q - 1);
      ListLengths(ts[p + 2..q - 1], values, [], []);
    }
    var n := |ts|;
    if values != [] && n == p + 2 * |values| + 2 && IsKey(ts[p], "VALUES") && ts[p + 1] == OPEN
       && ValueList(ts[p + 2..n - 1], values) && ts[n - 1] == CLOSE {
      PartIs(ts, all, p + 2, n - 1);
      EndIs(ts, all, n - 1);
      ValuesRead(all, p + 2, values, n - 1);
      EndIs(ts, all, n);
      assert RowAt(all, p) == Parsed(values, n);
    }
  }

  /** The column list of an INSERT, and where it ends. */
  lemma ColumnsAre(ts: seq<Token>, all: seq<Token>, columns: seq<string>, k: nat)
    requires Closed(ts, all) && k < |ts|
    ensures ColumnsAt(all, 3) == Parsed(columns, k)
            <==> if columns == [] then k == 3 && ts[3] != OPEN
                 else k == 2 * |columns| + 4 && ts[3] == OPEN && NameList(ts[4..k - 1], columns) && ts[k - 1] == CLOSE
  {
    hide TokensOk, NameList, NamesAt;
    EndIs(ts, all, 3);
    if ColumnsAt(all, 3) == Parsed(columns, k) && ts[3] == OPEN {
      NamesFound(all, 4, columns, k - 1);
      EndIs(ts, all, k - 1);
      PartIs(ts, all, 4, k - 1);
      ListLengths(ts[4..k - 1], [], columns, []);
    }
    if columns != [] && k == 2 * |columns| + 4 && ts[3] == OPEN && NameList(ts[4..k - 1], columns)
       && ts[k - 1] == CLOSE {
      PartIs(ts, all, 4, k - 1);
      EndIs(ts, all, k - 1);
      NamesRead(all, 4, columns, k - 1);
    }
  }

  lemma InsertIs(ts: seq<Token>, all: seq<Token>, table: string, columns: seq<string>, values: seq<Value>)
    requires Closed(ts, all)
    ensures InsertAt(all) == Accepted(Insert(table, columns, values)) <==> IsInsert(ts, table, columns, values)
  {
    hide TokensOk, ColumnsAt, RowAt, NameList, ValueList;
    EndIs(ts, all, 0);
    EndIs(ts, all, 1);
    EndIs(ts, all, 2);
    NameToken(all, 2);
    if InsertAt(all) == Accepted(Insert(table, columns, values)) {
      var k := ColumnsAt(all, 3).next;
      RowIs(ts, all, k, values);
      ColumnsAre(ts, all, columns, k);
    }
    if IsInsert(ts, table, columns, values) {
      var k := if columns == [] then 3 else 2 * |columns| + 4;
      RowIs(ts, all, k, values);
      ColumnsAre(ts, all, columns, k);
    }
  }

  lemma CreateIs(ts: seq<Token>, all: seq<Token>, table: string, columns: seq<Column>)
    requires Closed(ts, all)
    ensures CreateAt(all) == Creates(table, columns) <==> IsCreate(ts, table, columns)
  {
    hide TokensOk, DefinitionsAt, DefinitionList;
    EndIs(ts, all, 0);
    EndIs(ts, all, 1);
    EndIs(ts, all, 2);
    EndIs(ts, all, 3);
    NameToken(all, 2);
    var n := |ts|;
    if CreateAt(all) == Creates(table, columns) {
      var q := DefinitionsAt(all, 4).next;
      DefinitionsFound(all, 4, columns, q);
      EndIs(ts, all, q);
      EndIs(ts, all, q + 1);
      PartIs(ts, all, 4, q);
      ListLengths(ts[4..q], [], [], columns);
    }
    if IsCreate(ts, table, columns) {
      EndIs(ts, all, n - 1);
      EndIs(ts, all, n);
      PartIs(ts, all, 4, n - 1);
      DefinitionsRead(all, 4, columns, n - 1);
    }
  }

  lemma DropIs(ts: seq<Token>, all: seq<Token>, table: string)
    requires Closed(ts, all)
    ensures DropAt(all) == Drops(table) <==> IsDrop(ts, table)
  {
    hide TokensOk;
    EndIs(ts, all, 0);
    EndIs(ts, all, 1);
    EndIs(ts, all, 2);
    EndIs(ts, all, 3);
    NameToken(all, 2);
  }

  /** The parser understands exactly the sentences: it reads each of them as what it says, and nothing else as a
      statement that changes the database. */
  lemma ParsesExactly(ts: seq<Token>, all: seq<Token>, meant: Outcome)
    requires Closed(ts, all) && (meant.Accepted? || meant.Creates? || meant.Drops?)
    ensures StatementOf(all) == meant <==> Says(ts, meant)
  {
    hide TokensOk, InsertAt, DeleteAt, UpdateAt, CreateAt, DropAt, IsInsert, IsDelete, IsUpdate, IsCreate, IsDrop;
    EndIs(ts, all, 0);
    FirstWords(ts, all, meant);
    KindsRead(all);
    match meant {
      case Accepted(Insert(table, columns, values)) => InsertIs(ts, all, table, columns, values);
      case Accepted(Delete(table, c)) => DeleteIs(ts, all, table, c);
      case Accepted(Update(table, assignments, c)) => UpdateIs(ts, all, table, assignments, c);
      case Creates(table, columns) => CreateIs(ts, all, table, columns);
      case Drops(table) => DropIs(ts, all, table);
    }
  }

  lemma KindsRead(all: seq<Token>)
    ensures InsertAt(all).Accepted? ==> InsertAt(all).statement.Insert?
    ensures DeleteAt(all).Accepted? ==> DeleteAt(all).statement.Delete?
    ensures UpdateAt(all).Accepted? ==> UpdateAt(all).statement.Update?
    ensures InsertAt(all).Accepted? || InsertAt(all).Rejected?
    ensures DeleteAt(all).Accepted? || DeleteAt(all).Rejected?
    ensures UpdateAt(all).Accepted? || UpdateAt(all).Rejected?
  {
    hide ColumnsAt, RowAt, WhereAt, AssignmentsAt;
  }

  /** What a statement of each kind begins with. */
  lemma FirstWords(ts: seq<Token>, all: seq<Token>, meant: Outcome)
    requires Closed(ts, all)
    ensures Says(ts, meant) ==> |ts| > 1 && match meant
                                            case Accepted(Insert(_, _, _)) => IsKey(ts[0], "INSERT")
                                            case Accepted(Delete(_, _)) => IsKey(ts[0], "DELETE")
                                            case Accepted(Update(_, _, _)) => IsKey(ts[0], "UPDATE")
                                            case Creates(_, _) => IsKey(ts[0], "CREATE") && IsKey(ts[1], "TABLE")
                                            case Drops(_) => IsKey(ts[0], "DROP") && IsKey(ts[1], "TABLE")
                                            case Rejected(_) => true
                                            case Other => true
    ensures |ts| > 1 ==> At(all, 1) == ts[1]
  {
    hide TokensOk, IsWhere, NameList, ValueList, AssignmentList, DefinitionList;
  }

  // ---- Texts ------------------------------------------------------------------------------

  lemma StepFindsNoEnd(s: string)
    requires |s| > 0
    ensures forall i | 0 <= i < |Step(s).0| :: Step(s).0[i].kind != END_OF_FILE
  {
  }

  lemma ClosedLonger(found: seq<Token>, ts: seq<Token>, all: seq<Token>)
    requires Closed(ts, all) && TokensOk(found) && forall i | 0 <= i < |found| :: found[i].kind != END_OF_FILE
    ensures Closed(found + ts, found + all)
  {
    hide TokenOk;
    assert found + ts + [EOF] == found + (ts + [EOF]);
  }

  lemma EndCloses()
    ensures Tokens("") == [EOF] && Closed([], [EOF])
  {
  }

  /** The tokens of a text. */
  lemma {:induction false} LexedCloses(s: string) returns (ts: seq<Token>)
    ensures Closed(ts, Tokens(s))
    decreases |s|
  {
    hide TokensOk, Step, Closed;
    if |s| == 0 {
      EndCloses();
      ts := [];
    } else {
      StepOk(s);
      StepFindsNoEnd(s);
      var rest := LexedCloses(Drop(s, Step(s).1));
      ClosedLonger(Step(s).0, rest, Tokens(Drop(s, Step(s).1)));
      ts := Step(s).0 + rest;
    }
  }

  /** A text means a statement exactly if its tokens say it: whatever the words are spelled like, whether values are
      quoted or not, and however much space there is. */
  lemma TextMeansIff(s: string, meant: Outcome) returns (ts: seq<Token>)
    requires meant.Accepted? || meant.Creates? || meant.Drops?
    ensures Tokens(s) == ts + [EOF]
    ensures StatementOf(Tokens(s)) == meant <==> Says(ts, meant)
  {
    hide StatementOf, Says, TokensOk, Tokens;
    ts := LexedCloses(s);
    ParsesExactly(ts, Tokens(s), meant);
  }

  // ---- INSERT with a column list ----------------------------------------------------------

  function NamesText(names: seq<string>): string
  {
    if |names| == 0 then "" else names[0] + if |names| == 1 then "" else ", " + NamesText(names[1..])
  }

  function InsertIntoText(table: string, columns: seq<string>, values: seq<Value>): string
  {
    "INSERT INTO " + (table + (" (" + (NamesText(columns) + (") VALUES (" + (Csv(values) + ")")))))
  }

  predicate AllNames(names: seq<string>)
  {
    names != [] && forall i | 0 <= i < |names| :: IsIdentifier(names[i])
  }

  function NamesWriting(names: seq<string>): Writing
  {
    if |names| <= 1 then One(Word(if names == [] then "" else names[0]))
    else One(Word(names[0])).Then(One(Punctuation(',')).Then(One(Space).Then(NamesWriting(names[1..]))))
  }

  function NamesTokens(names: seq<string>): seq<Token>
  {
    if |names| == 0 then []
    else [Token(IDENTIFIER, names[0])] + if |names| == 1 then [] else [COMMA] + NamesTokens(names[1..])
  }

  lemma WordAndRest(a: string, rest: string)
    ensures a + ("," + (" " + rest)) == a + (", " + rest)
  {
    assert "," + (" " + rest) == ", " + rest;
  }

  lemma {:induction false} NamesWritingOk(names: seq<string>)
    requires AllNames(names)
    ensures var w := NamesWriting(names);
            w.Ok() && w.First() == Word(names[0]) && w.Last().Word? && w.text == NamesText(names)
            && w.found == NamesTokens(names)
  {
    hide IsWord, IsIdentifier, ToUpper, WordToken, Writing.Ok, TextOf, FoundIn, Chain, KEYWORDS;
    WordIs(names[0]);
    OneOk(Word(names[0]));
    if |names| > 1 {
      var rest := NamesWriting(names[1..]);
      NamesWritingOk(names[1..]);
      WordIs(names[1]);
      SpaceThen(rest);
      OneOk(Punctuation(','));
      ThenOk(One(Punctuation(',')), One(Space).Then(rest));
      ThenOk(One(Word(names[0])), One(Punctuation(',')).Then(One(Space).Then(rest)));
      WordAndRest(names[0], rest.text);
      assert [] + rest.found == rest.found;
    }
  }

  lemma WordIs(w: string)
    requires IsIdentifier(w)
    ensures IsWord(w) && WordToken(w) == Token(IDENTIFIER, w) && |w| > 0 && !IsSpace(w[0])
  {
  }

  lemma {:induction false} NamesTokensList(names: seq<string>)
    requires names != []
    ensures NameList(NamesTokens(names), names)
  {
    hide NameList;
    if |names| > 1 {
      NamesTokensList(names[1..]);
      assert NamesTokens(names)[2..] == NamesTokens(names[1..]);
      ListLengths(NamesTokens(names[1..]), [], names[1..], []);
    }
    NameListSplits(NamesTokens(names), names);
  }

  lemma {:induction false} CsvTokensList(values: seq<Value>)
    requires values != []
    ensures ValueList(CsvTokens(values), values)
  {
    hide ValueList;
    if |values| > 1 {
      CsvTokensList(values[1..]);
      assert CsvTokens(values)[2..] == CsvTokens(values[1..]);
      ListLengths(CsvTokens(values[1..]), values[1..], [], []);
    }
    ValueListSplits(CsvTokens(values), values);
  }

  /** From the column list on. */
  function ColumnsWriting(columns: seq<string>, values: seq<Value>): Writing
  {
    var tail := One(Punctuation(')')).Then(One(Space).Then(AWord("VALUES").Then(RowWriting(values))));
    One(Punctuation('(')).Then(NamesWriting(columns).Then(tail))
  }

  function InsertIntoWriting(table: string, columns: seq<string>, values: seq<Value>): Writing
  {
    AWord("INSERT").Then(AWord("INTO").Then(AWord(table).Then(ColumnsWriting(columns, values))))
  }

  lemma ColumnsWritingOk(columns: seq<string>, values: seq<Value>)
    requires AllNames(columns) && values != []
    ensures var w := ColumnsWriting(columns, values);
            w.Ok() && w.First() == Punctuation('(') && w.Last() == Punctuation(')')
  {
    hide RowWriting, NamesWriting, TextOf, FoundIn, Chain, Writing.Ok, ToUpper, WordToken, KEYWORDS, IsKeyword;
    InsertKeywords();
    RowWritingOk(values);
    NamesWritingOk(columns);
    KeywordThen("VALUES", RowWriting(values));
    var w4 := AWord("VALUES").Then(RowWriting(values));
    SpaceThen(w4);
    var w3 := One(Space).Then(w4);
    OneOk(Punctuation(')'));
    ThenOk(One(Punctuation(')')), w3);
    var tail := One(Punctuation(')')).Then(w3);
    ThenOk(NamesWriting(columns), tail);
    OneOk(Punctuation('('));
    ThenOk(One(Punctuation('(')), NamesWriting(columns).Then(tail));
  }

  lemma InsertIntoWritingOk(table: string, columns: seq<string>, values: seq<Value>)
    requires IsIdentifier(table) && AllNames(columns) && values != []
    ensures InsertIntoWriting(table, columns, values).Ok()
    ensures InsertIntoWriting(table, columns, values).Last() == Punctuation(')')
  {
    hide ColumnsWriting;
    InsertKeywords();
    ColumnsWritingOk(columns, values);
    var w2 := ColumnsWriting(columns, values);
    NameThen(table, w2);
    var w1 := AWord(table).Then(w2);
    KeywordThen("INTO", w1);
    KeywordThen("INSERT", AWord("INTO").Then(w1));
  }

  lemma InsertIntoWritingText(table: string, columns: seq<string>, values: seq<Value>)
    requires AllNames(columns)
    ensures InsertIntoWriting(table, columns, values).text == InsertIntoText(table, columns, values)
  {
    hide NamesWriting, Csv;
    NamesWritingOk(columns);
    var x := Csv(values) + ")";
    assert RowWriting(values).text == "(" + x;
    var y := ") VALUES (" + x;
    assert ")" + (" " + ("VALUES" + " " + ("(" + x))) == y by {
      assert ")" + (" " + ("VALUES" + " " + "(")) == ") VALUES (";
    }
    var z := "(" + (NamesText(columns) + y);
    assert ColumnsWriting(columns, values).text == z;
    assert table + " " + z == table + (" (" + (NamesText(columns) + y));
    assert "INSERT" + " " + ("INTO" + " " + (table + " " + z)) == "INSERT INTO " + (table + " " + z) by {
      assert "INSERT" + " " + ("INTO" + " ") == "INSERT INTO ";
    }
  }

  function InsertIntoTokens(table: string, columns: seq<string>, values: seq<Value>): seq<Token>
  {
    [Token(KEYWORD, "INSERT"), Token(KEYWORD, "INTO"), Token(IDENTIFIER, table), OPEN] + NamesTokens(columns)
    + [CLOSE, Token(KEYWORD, "VALUES"), OPEN] + CsvTokens(values) + [CLOSE]
  }

  lemma InsertIntoFound(table: string, columns: seq<string>, values: seq<Value>)
    requires IsIdentifier(table) && AllNames(columns)
    ensures InsertIntoWriting(table, columns, values).found == InsertIntoTokens(table, columns, values)
  {
    hide NamesWriting, CsvTokens, NamesTokens, IsIdentifier, ToUpper, KEYWORDS, WordToken;
    InsertKeywords();
    KeywordTokens();
    WordIs(table);
    NamesWritingOk(columns);
    var x := CsvTokens(values) + [CLOSE];
    assert RowWriting(values).found == [OPEN] + x;
    var y := [CLOSE] + ([] + ([Token(KEYWORD, "VALUES")] + ([OPEN] + x)));
    assert y == [CLOSE, Token(KEYWORD, "VALUES"), OPEN] + x;
    assert ColumnsWriting(columns, values).found == [OPEN] + (NamesTokens(columns) + y);
  }

  lemma KeywordTokens()
    ensures WordToken("INSERT") == Token(KEYWORD, "INSERT") && WordToken("INTO") == Token(KEYWORD, "INTO")
    ensures WordToken("VALUES") == Token(KEYWORD, "VALUES")
  {
    InsertKeywords();
  }

  /** The tokens of an INSERT with a column list, whose length may be wrong. */
  lemma InsertIntoReads(ts: seq<Token>, all: seq<Token>, table: string, columns: seq<string>, values: seq<Value>)
    requires Closed(ts, all) && AllNames(columns) && values != []
    requires ts == InsertIntoTokens(table, columns, values)
    ensures StatementOf(all) == if |columns| == |values| then Accepted(Insert(table, columns, values))
                                else Rejected(ValuesMismatch)
  {
    hide TokensOk, ColumnsAt, RowAt, NameList, ValueList, CsvTokens, NamesTokens;
    NamesTokensList(columns);
    CsvTokensList(values);
    ListLengths(NamesTokens(columns), [], columns, []);
    ListLengths(CsvTokens(values), values, [], []);
    var k := 2 * |columns| + 4;
    assert ts[4..k - 1] == NamesTokens(columns) && ts[k + 2..|ts| - 1] == CsvTokens(values);
    EndIs(ts, all, 0);
    EndIs(ts, all, 1);
    EndIs(ts, all, 2);
    NameToken(all, 2);
    ColumnsAre(ts, all, columns, k);
    RowIs(ts, all, k, values);
  }

  /** Whatever the names of the columns and the values: an INSERT with a column list means these values for these
      columns, in the order of the list, if there are as many; otherwise it is refused for that reason. */
  lemma InsertIntoRoundTrip(table: string, columns: seq<string>, values: seq<Value>)
    requires IsIdentifier(table) && AllNames(columns) && values != []
    ensures StatementOf(Tokens(InsertIntoText(table, columns, values)))
            == if |columns| == |values| then Accepted(Insert(table, columns, values)) else Rejected(ValuesMismatch)
  {
    hide StatementOf, TokensOk, Tokens, InsertIntoWriting, InsertIntoTokens;
    InsertIntoWritingOk(table, columns, values);
    InsertIntoWritingText(table, columns, values);
    InsertIntoFound(table, columns, values);
    Lexes(InsertIntoWriting(table, columns, values));
    var ts := LexedCloses(InsertIntoText(table, columns, values));
    SameFront(ts, InsertIntoTokens(table, columns, values));
    InsertIntoReads(ts, Tokens(InsertIntoText(table, columns, values)), table, columns, values);
  }

  lemma SameFront(a: seq<Token>, b: seq<Token>)
    requires a + [EOF] == b + [EOF]
    ensures a == b
  {
    assert (a + [EOF])[..|a + [EOF]| - 1] == a && (b + [EOF])[..|b + [EOF]| - 1] == b;
  }

  /** Any text that is put together from separate pieces, with unquoted numbers, words in small letters and space
      wherever a client likes, means what its tokens say. */
  lemma WrittenMeansIff(pieces: seq<Piece>, meant: Outcome)
    requires Separable(pieces) && (meant.Accepted? || meant.Creates? || meant.Drops?)
    ensures StatementOf(Tokens(TextOf(pieces))) == meant <==> Says(FoundIn(pieces), meant)
  {
    hide StatementOf, Says, Tokens;
    LexPieces(pieces);
    var ts := TextMeansIff(TextOf(pieces), meant);
    SameFront(ts, FoundIn(pieces));
  }

  // ---- CREATE TABLE and DROP TABLE --------------------------------------------------------

  function DropWriting(table: string): Writing
  {
    AWord("DROP").Then(AWord("TABLE").Then(One(Word(table))))
  }

  lemma TableKeywords()
    ensures IsKeyword("CREATE") && IsKeyword("DROP") && IsKeyword("TABLE")
  {
  }

  lemma TypeKeywords()
    ensures IsKeyword("INT") && IsKeyword("STRING") && IsKeyword("FLOAT") && IsKeyword("BOOL")
  {
  }

  lemma KeywordIs(w: string)
    requires IsKeyword(w)
    ensures IsWord(w) && WordToken(w) == Token(KEYWORD, w)
  {
  }

  lemma DropRoundTrip(table: string)
    requires IsIdentifier(table)
    ensures StatementOf(Tokens("DROP TABLE " + table)) == Drops(table)
  {
    hide StatementOf, Tokens, KEYWORDS, ToUpper, WordToken;
    TableKeywords();
    KeywordIs("DROP");
    KeywordIs("TABLE");
    WordIs(table);
    OneOk(Word(table));
    KeywordThen("TABLE", One(Word(table)));
    KeywordThen("DROP", AWord("TABLE").Then(One(Word(table))));
    var w := DropWriting(table);
    assert "DROP" + " " + ("TABLE" + " ") == "DROP TABLE ";
    assert w.text == "DROP TABLE " + table;
    ChainSeparable(w.pieces);
    assert w.found == [Token(KEYWORD, "DROP"), Token(KEYWORD, "TABLE"), Token(IDENTIFIER, table)];
    WrittenMeansIff(w.pieces, Drops(table));
  }

  predicate AllDefined(columns: seq<Column>)
  {
    && columns != []
    && forall i | 0 <= i < |columns| ::
         IsIdentifier(columns[i].name) && columns[i].kind in {"INT", "STRING", "FLOAT", "BOOL"}
  }

  function DefinitionsText(columns: seq<Column>): string
  {
    if |columns| == 0 then ""
    else
      var rest := if |columns| == 1 then "" else ", " + DefinitionsText(columns[1..]);
      columns[0].name + (" " + (columns[0].kind + rest))
  }

  function CreateText(table: string, columns: seq<Column>): string
  {
    "CREATE TABLE " + (table + (" (" + (DefinitionsText(columns) + ")")))
  }

  function DefinitionWriting(c: Column): Writing
  {
    AWord(c.name).Then(One(Word(c.kind)))
  }

  function DefinitionsWriting(columns: seq<Column>): Writing
    requires columns != []
  {
    if |columns| == 1 then DefinitionWriting(columns[0])
    else
      var rest := One(Space).Then(DefinitionsWriting(columns[1..]));
      DefinitionWriting(columns[0]).Then(One(Punctuation(',')).Then(rest))
  }

  function DefinitionsTokens(columns: seq<Column>): seq<Token>
  {
    if |columns| == 0 then []
    else [Token(IDENTIFIER, columns[0].name), Token(KEYWORD, columns[0].kind)]
         + if |columns| == 1 then [] else [COMMA] + DefinitionsTokens(columns[1..])
  }

  lemma DefinitionWritingOk(c: Column)
    requires IsIdentifier(c.name) && c.kind in {"INT", "STRING", "FLOAT", "BOOL"}
    ensures var w := DefinitionWriting(c);
            && w.Ok() && w.First() == Word(c.name) && w.Last() == Word(c.kind) && w.text == c.name + (" " + c.kind)
            && w.found == [Token(IDENTIFIER, c.name), Token(KEYWORD, c.kind)] && |c.name| > 0 && !IsSpace(c.name[0])
  {
    hide KEYWORDS, ToUpper, WordToken, TextOf, FoundIn, Chain, Writing.Ok, IsIdentifier;
    TypeKeywords();
    KeywordIs(c.kind);
    WordIs(c.name);
    OneOk(Word(c.kind));
    assert !IsSpace(c.kind[0]);
    NameThen(c.name, One(Word(c.kind)));
    assert c.name + " " + c.kind == c.name + (" " + c.kind);
  }

  lemma TwoWordsAndRest(a: string, b: string, rest: string)
    ensures a + (" " + b) + ("," + (" " + rest)) == a + (" " + (b + (", " + rest)))
  {
    assert "," + (" " + rest) == ", " + rest;
    assert a + (" " + b) + (", " + rest) == a + (" " + (b + (", " + rest)));
  }

  lemma {:induction false} DefinitionsWritingOk(columns: seq<Column>)
    requires AllDefined(columns)
    ensures var w := DefinitionsWriting(columns);
            && w.Ok() && w.First() == Word(columns[0].name) && w.Last().Word? && w.text == DefinitionsText(columns)
            && w.found == DefinitionsTokens(columns)
  {
    hide IsWord, IsIdentifier, ToUpper, WordToken, Writing.Ok, TextOf, FoundIn, Chain, KEYWORDS, DefinitionWriting;
    var c, w := columns[0], DefinitionWriting(columns[0]);
    DefinitionWritingOk(c);
    if |columns| > 1 {
      var rest := DefinitionsWriting(columns[1..]);
      DefinitionsWritingOk(columns[1..]);
      DefinitionWritingOk(columns[1]);
      SpaceThen(rest);
      OneOk(Punctuation(','));
      ThenOk(One(Punctuation(',')), One(Space).Then(rest));
      ThenOk(w, One(Punctuation(',')).Then(One(Space).Then(rest)));
      TwoWordsAndRest(c.name, c.kind, rest.text);
      assert [] + rest.found == rest.found;
    } else {
      assert c.kind + "" == c.kind;
    }
  }

  lemma {:induction false} DefinitionsTokensList(columns: seq<Column>)
    requires AllDefined(columns)
    ensures DefinitionList(DefinitionsTokens(columns), columns)
  {
    hide DefinitionList, IsIdentifier;
    if |columns| > 1 {
      DefinitionsTokensList(columns[1..]);
      assert DefinitionsTokens(columns)[3..] == DefinitionsTokens(columns[1..]);
      ListLengths(DefinitionsTokens(columns[1..]), [], [], columns[1..]);
    }
    DefinitionListSplits(DefinitionsTokens(columns), columns);
  }

  function CreateWriting(table: string, columns: seq<Column>): Writing
    requires columns != []
  {
    AWord("CREATE").Then(AWord("TABLE").Then(AWord(table).Then(
      One(Punctuation('(')).Then(DefinitionsWriting(columns).Then(One(Punctuation(')')))))))
  }

  lemma CreateWritingOk(table: string, columns: seq<Column>)
    requires IsIdentifier(table) && AllDefined(columns)
    ensures CreateWriting(table, columns).Ok() && CreateWriting(table, columns).Last() == Punctuation(')')
  {
    hide IsWord, IsIdentifier, ToUpper, WordToken, Writing.Ok, TextOf, FoundIn, Chain, KEYWORDS, DefinitionsWriting,
         DefinitionsTokens, DefinitionsText;
    TableKeywords();
    DefinitionsWritingOk(columns);
    OneOk(Punctuation(')'));
    ThenOk(DefinitionsWriting(columns), One(Punctuation(')')));
    var w4 := DefinitionsWriting(columns).Then(One(Punctuation(')')));
    OneOk(Punctuation('('));
    ThenOk(One(Punctuation('(')), w4);
    var w3 := One(Punctuation('(')).Then(w4);
    NameThen(table, w3);
    var w2 := AWord(table).Then(w3);
    KeywordThen("TABLE", w2);
    KeywordThen("CREATE", AWord("TABLE").Then(w2));
  }

  lemma CreateWritingText(table: string, columns: seq<Column>)
    requires AllDefined(columns)
    ensures CreateWriting(table, columns).text == CreateText(table, columns)
  {
    hide IsIdentifier, WordToken, Writing.Ok, DefinitionsWriting, DefinitionsTokens, DefinitionsText;
    DefinitionsWritingOk(columns);
    var x := DefinitionsText(columns) + ")";
    assert table + " " + ("(" + x) == table + (" (" + x);
    var y := table + (" (" + x);
    assert CreateWriting(table, columns).text == "CREATE" + " " + ("TABLE" + " " + y);
    assert "CREATE" + " " + ("TABLE" + " ") == "CREATE TABLE ";
    Regroups("CREATE" + " ", "TABLE" + " ", y);
  }

  function CreateHead(table: string): seq<Token>
  {
    [Token(KEYWORD, "CREATE"), Token(KEYWORD, "TABLE"), Token(IDENTIFIER, table), OPEN]
  }

  lemma CreateWritingFound(table: string, columns: seq<Column>)
    requires IsIdentifier(table) && AllDefined(columns)
    ensures CreateWriting(table, columns).found == CreateHead(table) + (DefinitionsTokens(columns) + [CLOSE])
  {
    hide IsIdentifier, ToUpper, WordToken, Writing.Ok, KEYWORDS, DefinitionsWriting, DefinitionsTokens, DefinitionsText;
    TableKeywords();
    KeywordIs("CREATE");
    KeywordIs("TABLE");
    WordIs(table);
    DefinitionsWritingOk(columns);
    var x := DefinitionsTokens(columns) + [CLOSE];
    assert CreateWriting(table, columns).found
        == [Token(KEYWORD, "CREATE")] + ([Token(KEYWORD, "TABLE")] + ([Token(IDENTIFIER, table)] + ([OPEN] + x)));
  }

  /** Every CREATE TABLE text means its columns, in order, with their types. */
  lemma CreateRoundTrip(table: string, columns: seq<Column>)
    requires IsIdentifier(table) && AllDefined(columns)
    ensures StatementOf(Tokens(CreateText(table, columns))) == Creates(table, columns)
  {
    hide StatementOf, Tokens, CreateWriting, DefinitionsTokens, DefinitionList, IsIdentifier, Separable;
    var w := CreateWriting(table, columns);
    CreateWritingOk(table, columns);
    CreateWritingText(table, columns);
    CreateWritingFound(table, columns);
    ChainSeparable(w.pieces);
    DefinitionsTokensList(columns);
    ListLengths(DefinitionsTokens(columns), [], [], columns);
    assert w.found[4..|w.found| - 1] == DefinitionsTokens(columns);
    WrittenMeansIff(w.pieces, Creates(table, columns));
  }
}
