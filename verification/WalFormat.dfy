// The lines of the write-ahead log, and the SQL that a logged entry is replayed as.
module WalFormat {
  import opened Sequences
  import opened Wrappers
  import opened StringUtils
  import opened Sql
  import opened Lexers
  import opened Parsers
  import opened SqlText
  import opened SqlRoundTrip

  // ---- Writing ----------------------------------------------------------------------------

  /** What the log can be told. */
  datatype Record =
    | LogInsert(table: string, values: seq<Value>)
    | LogDelete(table: string, condition: Option<Condition>)
    | LogUpdate(table: string, condition: Option<Condition>, assignments: seq<Assignment>)
    | LogReplaceBegin(table: string, condition: Option<Condition>)
    | LogReplaceRow(table: string, values: seq<Value>)

  function ConditionText(c: Option<Condition>): string
  {
    match c
    case None => ""
    case Some(c) => Encoded(c.column) + "~" + Encoded(c.op) + "~" + EncodeValue(c.value)
  }

  function AssignmentFields(assignments: seq<Assignment>): seq<string>
  {
    if |assignments| == 0 then []
    else [Encoded(assignments[0].column), EncodeValue(assignments[0].value)] + AssignmentFields(assignments[1..])
  }

  function Kind(r: Record): string
  {
    match r
    case LogInsert(_, _) => "INSERT"
    case LogDelete(_, _) => "DELETE"
    case LogUpdate(_, _, _) => "UPDATE"
    case LogReplaceBegin(_, _) => "REPLACE_BEGIN"
    case LogReplaceRow(_, _) => "REPLACE_ROW"
  }

  /** The part of the line between the table's name and the flag at the end. */
  function Payload(r: Record): string
  {
    match r
    case LogInsert(_, values) => RowText(values)
    case LogDelete(_, c) => ConditionText(c)
    case LogUpdate(_, c, assignments) => ConditionText(c) + "|" + Join(AssignmentFields(assignments), '~')
    case LogReplaceBegin(_, c) => ConditionText(c)
    case LogReplaceRow(_, values) => RowText(values)
  }

  function LineOf(r: Record): string
  {
    Kind(r) + "|" + r.table + "|" + Payload(r) + "|0"
  }

  const COMMIT: string := "COMMIT"

  // ---- Reading ----------------------------------------------------------------------------

  datatype Entry = Entry(kind: string, table: string, rowData: string, committed: bool)

  function ParseLine(line: string): Option<Entry>
  {
    var parts := Pieces(line, '|');
    if |parts| < 4 then None
    else Some(Entry(parts[0], parts[1], Join(parts[2..|parts| - 1], '|'), parts[|parts| - 1] == "1"))
  }

  function Committed(entries: seq<Entry>): (r: seq<Entry>)
    ensures |r| == |entries| && forall i | 0 <= i < |r| :: r[i] == entries[i].(committed := true)
  {
    seq(|entries|, i requires 0 <= i < |entries| => entries[i].(committed := true))
  }

  /** The entries of a log; a COMMIT line commits every entry before it. */
  function Entries(lines: seq<string>): seq<Entry>
  {
    if |lines| == 0 then []
    else
      var before, line := Entries(lines[..|lines| - 1]), lines[|lines| - 1];
      if line == "" then before
      else if line == COMMIT then Committed(before)
      else
        match ParseLine(line)
        case None => before
        case Some(e) => before + [e]
  }

  // ---- Replaying --------------------------------------------------------------------------

  function ValuesText(rowData: string): string
  {
    Csv(RowOf(rowData))
  }

  function WhereTextOf(condData: string): string
  {
    var parts := Fields(condData, '~');
    if |parts| != 3 then ""
    else
      var op := Decoded(parts[1]);
      " WHERE " + (Decoded(parts[0]) + (" " + (op + if IsTest(op) then "" else " " + Literal(DecodeValue(parts[2])))))
  }

  /** The assignments in `parts`, which alternates columns and values; an odd part at the end is ignored. */
  function AssignmentsOf(parts: seq<string>): seq<Assignment>
  {
    if |parts| < 2 then []
    else [Assignment(Decoded(parts[0]), DecodeValue(parts[1]))] + AssignmentsOf(parts[2..])
  }

  /** The SQL that an INSERT, DELETE or UPDATE entry is replayed as, if any. */
  function SqlOf(e: Entry): Option<string>
  {
    if e.kind == "INSERT" then Some("INSERT INTO " + (e.table + (" VALUES (" + (ValuesText(e.rowData) + ")"))))
    else if e.kind == "DELETE" then
      Some("DELETE FROM " + (e.table + if e.rowData == "" then "" else WhereTextOf(e.rowData)))
    else if e.kind == "UPDATE" then
      var fields := Pieces(e.rowData, '|');
      var condPart := if |fields| > 0 then fields[0] else "";
      var assigns := Fields(if |fields| > 1 then fields[1] else "", '~');
      if |assigns| < 2 then None
      else Some("UPDATE " + (e.table + (" SET " + (SetText(AssignmentsOf(assigns))
                  + if condPart == "" then "" else WhereTextOf(condPart)))))
    else None
  }

  // ---- Reading back what was written ------------------------------------------------------

  lemma JoinThree(a: string, b: string, c: string, d: char)
    ensures Join([a, b, c], d) == a + [d] + b + [d] + c
  {
    assert [a, b, c][1..] == [b, c] && [b, c][1..] == [c];
    assert Join([b, c], d) == b + [d] + c;
    Regroups(a + [d], b + [d], c);
    Regroups(a + [d], b, [d]);
  }

  lemma {:induction false} JoinAppend(a: seq<string>, b: seq<string>, d: char)
    requires a != [] && b != []
    ensures Join(a + b, d) == Join(a, d) + [d] + Join(b, d)
  {
    if |a| > 1 {
      assert (a + b)[1..] == a[1..] + b;
      JoinAppend(a[1..], b, d);
    } else {
      assert (a + b)[1..] == b;
    }
  }

  /** The fields between the bars of a line's payload. */
  function PayloadFields(r: Record): seq<string>
  {
    match r
    case LogInsert(_, values) => EncodedFields(values)
    case LogDelete(_, c) => [ConditionText(c)]
    case LogUpdate(_, c, assignments) => [ConditionText(c), Join(AssignmentFields(assignments), '~')]
    case LogReplaceBegin(_, c) => [ConditionText(c)]
    case LogReplaceRow(_, values) => EncodedFields(values)
  }

  /** The table and the columns have names that SQL text can name, and a row has a value. */
  predicate Loggable(r: Record)
  {
    && IsIdentifier(r.table)
    && match r
       case LogInsert(_, values) => values != []
       case LogDelete(_, c) => WellFormedWhere(c)
       case LogUpdate(_, c, assignments) =>
         WellFormedWhere(c) && assignments != [] && forall a | a in assignments :: IsIdentifier(a.column)
       case LogReplaceBegin(_, c) => WellFormedWhere(c)
       case LogReplaceRow(_, values) => values != []
  }

  lemma ConditionTextIsJoin(c: Condition)
    ensures ConditionText(Some(c)) == Join([Encoded(c.column), Encoded(c.op), EncodeValue(c.value)], '~')
  {
    JoinThree(Encoded(c.column), Encoded(c.op), EncodeValue(c.value), '~');
  }

  lemma ConditionTextClean(c: Option<Condition>)
    ensures forall x | x in ConditionText(c) :: x != '|' && x != '\n'
  {
    if c.Some? {
      EncodedIsClean(c.value.column);
      EncodedIsClean(c.value.op);
      ValueIsClean(c.value.value);
    }
  }

  lemma {:induction false} AssignmentFieldsClean(assignments: seq<Assignment>)
    ensures forall f, x | f in AssignmentFields(assignments) && x in f :: x != '|' && x != '~' && x != '\n'
  {
    if |assignments| > 0 {
      EncodedIsClean(assignments[0].column);
      ValueIsClean(assignments[0].value);
      AssignmentFieldsClean(assignments[1..]);
    }
  }

  lemma PayloadFieldsClean(r: Record)
    ensures forall f, x | f in PayloadFields(r) && x in f :: x != '|' && x != '\n'
  {
    match r
    case LogInsert(_, values) => EncodedFieldsClean(values);
    case LogDelete(_, c) => ConditionTextClean(c);
    case LogUpdate(_, c, assignments) =>
      ConditionTextClean(c);
      AssignmentFieldsClean(assignments);
      JoinIsClean(AssignmentFields(assignments), '~', '|');
      JoinIsClean(AssignmentFields(assignments), '~', '\n');
    case LogReplaceBegin(_, c) => ConditionTextClean(c);
    case LogReplaceRow(_, values) => EncodedFieldsClean(values);
  }

  lemma PayloadIsJoin(r: Record)
    requires Loggable(r)
    ensures PayloadFields(r) != [] && Payload(r) == Join(PayloadFields(r), '|')
  {
    if r.LogUpdate? {
      var a, b := ConditionText(r.condition), Join(AssignmentFields(r.assignments), '~');
      assert [a, b][1..] == [b];
    }
  }

  /** All fields of a line, in order. */
  function LineFields(r: Record): seq<string>
  {
    [Kind(r), r.table] + (PayloadFields(r) + ["0"])
  }

  lemma LineIsJoin(r: Record)
    requires Loggable(r)
    ensures LineOf(r) == Join(LineFields(r), '|')
  {
    PayloadIsJoin(r);
    var fields := PayloadFields(r);
    JoinAppend(fields, ["0"], '|');
    JoinAppend([Kind(r), r.table], fields + ["0"], '|');
    assert [Kind(r), r.table][1..] == [r.table];
    assert Join([Kind(r), r.table], '|') == Kind(r) + "|" + r.table;
    assert ['|'] + "0" == "|0";
    Regroups(Payload(r), ['|'], "0");
    Regroups(Kind(r) + "|" + r.table + "|", Payload(r), "|0");
  }

  lemma NameHasNoBar(w: string)
    requires IsIdentifier(w)
    ensures forall x | x in w :: x != '|' && x != '\n'
  {
    forall x | x in w ensures x != '|' && x != '\n' {
      assert IsWordChar(x);
    }
  }

  lemma LineFieldsClean(r: Record)
    requires Loggable(r)
    ensures forall f, x | f in LineFields(r) && x in f :: x != '|' && x != '\n'
  {
    PayloadFieldsClean(r);
    NameHasNoBar(r.table);
  }

  /** A logged line reads back as what was logged, not yet committed. */
  lemma LineReadsBack(r: Record)
    requires Loggable(r)
    ensures ParseLine(LineOf(r)) == Some(Entry(Kind(r), r.table, Payload(r), false))
  {
    hide Pieces, Join, LineOf, Payload, Loggable, PayloadFields;
    var fields := LineFields(r);
    PayloadIsJoin(r);
    LineIsJoin(r);
    LineFieldsClean(r);
    PiecesOfJoin(fields, '|');
    assert fields[2..|fields| - 1] == PayloadFields(r);
  }

  /** A logged line is one line of the file, and no COMMIT. */
  lemma LineIsOneLine(r: Record)
    requires Loggable(r)
    ensures '\n' !in LineOf(r) && LineOf(r) != "" && LineOf(r) != COMMIT
  {
    LineIsJoin(r);
    LineFieldsClean(r);
    JoinIsClean(LineFields(r), '|', '\n');
    assert LineOf(r)[|Kind(r)|] == '|';
    assert '|' in LineOf(r);
  }

  // ---- Replaying what was written ---------------------------------------------------------

  lemma ConditionReadsBack(c: Condition)
    ensures WhereTextOf(ConditionText(Some(c))) == WhereText(Some(c))
  {
    var parts := [Encoded(c.column), Encoded(c.op), EncodeValue(c.value)];
    EncodedIsClean(c.column);
    EncodedIsClean(c.op);
    ValueIsClean(c.value);
    ConditionTextIsJoin(c);
    FieldsOfJoin(parts, '~');
    DecodeEncode(c.column);
    DecodeEncode(c.op);
    ValueRoundTrip(c.value);
  }

  lemma ConditionTextEmpty(c: Option<Condition>)
    ensures ConditionText(c) == "" <==> c.None?
  {
  }

  lemma WhereReadsBack(c: Option<Condition>)
    ensures (if ConditionText(c) == "" then "" else WhereTextOf(ConditionText(c))) == WhereText(c)
  {
    ConditionTextEmpty(c);
    if c.Some? {
      ConditionReadsBack(c.value);
    }
  }

  lemma {:induction false} AssignmentsReadBack(assignments: seq<Assignment>)
    ensures AssignmentsOf(AssignmentFields(assignments)) == assignments
  {
    if |assignments| > 0 {
      AssignmentsReadBack(assignments[1..]);
      DecodeEncode(assignments[0].column);
      ValueRoundTrip(assignments[0].value);
      assert AssignmentFields(assignments)[2..] == AssignmentFields(assignments[1..]);
    }
  }

  lemma AssignTextReadsBack(assignments: seq<Assignment>)
    requires assignments != []
    ensures Fields(Join(AssignmentFields(assignments), '~'), '~') == AssignmentFields(assignments)
  {
    AssignmentFieldsClean(assignments);
    FieldsOfJoin(AssignmentFields(assignments), '~');
  }

  lemma AssignmentTextFull(assignments: seq<Assignment>)
    requires assignments != [] && IsIdentifier(assignments[0].column)
    ensures Join(AssignmentFields(assignments), '~') != ""
  {
    assert AssignmentFields(assignments)[0] == Encoded(assignments[0].column) != "";
  }

  lemma JoinTwo(a: string, b: string, d: char)
    ensures Join([a, b], d) == a + [d] + b
  {
    assert [a, b][1..] == [b];
  }

  /** The payload of an UPDATE line splits into its condition and its assignments, even when the condition is empty. */
  lemma UpdatePayloadSplits(c: Option<Condition>, assignments: seq<Assignment>)
    requires assignments != [] && IsIdentifier(assignments[0].column)
    ensures var a := Join(AssignmentFields(assignments), '~');
            Pieces(ConditionText(c) + "|" + a, '|') == [ConditionText(c), a]
  {
    hide Pieces, Join, ConditionText;
    var a := Join(AssignmentFields(assignments), '~');
    ConditionTextClean(c);
    AssignmentFieldsClean(assignments);
    JoinIsClean(AssignmentFields(assignments), '~', '|');
    AssignmentTextFull(assignments);
    JoinTwo(ConditionText(c), a, '|');
    PiecesOfJoin([ConditionText(c), a], '|');
  }

  /** The statement that a record stands for. */
  function Meant(r: Record): Statement
    requires r.LogInsert? || r.LogDelete? || r.LogUpdate?
  {
    match r
    case LogInsert(table, values) => Insert(table, [], values)
    case LogDelete(table, c) => Delete(table, c)
    case LogUpdate(table, c, assignments) => Update(table, assignments, c)
  }

  lemma SqlOfRecord(r: Record)
    requires Loggable(r) && (r.LogInsert? || r.LogDelete? || r.LogUpdate?)
    ensures SqlOf(Entry(Kind(r), r.table, Payload(r), false)) == Some(Text(Meant(r)))
  {
    match r
    case LogInsert(_, values) => RowRoundTrip(values);
    case LogDelete(_, c) => WhereReadsBack(c);
    case LogUpdate(_, c, assignments) =>
      UpdatePayloadSplits(c, assignments);
      AssignTextReadsBack(assignments);
      AssignmentsReadBack(assignments);
      WhereReadsBack(c);
  }

  /** Logging a statement, reading the line back, rebuilding its SQL, lexing and parsing gives the same statement: for
      every row, every condition and every list of assignments that the parser can produce. */
  lemma ReplayRoundTrip(r: Record)
    requires Loggable(r) && (r.LogInsert? || r.LogDelete? || r.LogUpdate?)
    ensures ParseLine(LineOf(r)).Some? && SqlOf(ParseLine(LineOf(r)).value).Some?
    ensures StatementOf(Tokens(SqlOf(ParseLine(LineOf(r)).value).value)) == Accepted(Meant(r))
  {
    LineReadsBack(r);
    SqlOfRecord(r);
    StatementRoundTrip(Meant(r));
  }

  // ---- The log as a whole -----------------------------------------------------------------

  /** What is appended to the log: a record, or a COMMIT. */
  datatype Event = Logs(record: Record) | Commits

  function EventLine(e: Event): string
  {
    match e
    case Logs(r) => LineOf(r)
    case Commits => COMMIT
  }

  function EventLines(events: seq<Event>): (lines: seq<string>)
    ensures |lines| == |events| && forall i | 0 <= i < |events| :: lines[i] == EventLine(events[i])
  {
    seq(|events|, i requires 0 <= i < |events| => EventLine(events[i]))
  }

  predicate EventsOk(events: seq<Event>)
  {
    forall e | e in events :: e.Logs? ==> Loggable(e.record)
  }

  /** The logged records in order, each committed exactly when a COMMIT follows it. */
  function Expected(events: seq<Event>, committed: bool): seq<Entry>
  {
    if |events| == 0 then []
    else
      var before, e := events[..|events| - 1], events[|events| - 1];
      match e
      case Commits => Expected(before, true)
      case Logs(r) => Expected(before, committed) + [Entry(Kind(r), r.table, Payload(r), committed)]
  }

  lemma {:induction false} ExpectedCommitted(events: seq<Event>)
    ensures Committed(Expected(events, false)) == Expected(events, true)
  {
    if |events| > 0 {
      ExpectedCommitted(events[..|events| - 1]);
    }
  }

  lemma {:induction false} LogReadsBack(events: seq<Event>)
    requires EventsOk(events)
    ensures Entries(EventLines(events)) == Expected(events, false)
  {
    if |events| > 0 {
      var before, e := events[..|events| - 1], events[|events| - 1];
      assert EventLines(events)[..|events| - 1] == EventLines(before);
      LogReadsBack(before);
      match e {
        case Commits => ExpectedCommitted(before);
        case Logs(r) =>
          LineReadsBack(r);
          LineIsOneLine(r);
      }
    }
  }
}
