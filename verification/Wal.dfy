// The write-ahead log: appending records, reading them back, and the SQL they are replayed as.
module Wal {
  import opened Sequences
  import opened Wrappers
  import opened StringUtils
  import opened Sql
  import opened SqlText
  import opened SqlRoundTrip
  import opened Storage
  import opened WalFormat

  /** The fields of a row, separated by bars. */
  method RowData(values: seq<Value>) returns (rowData: string)
    ensures rowData == RowText(values)
  {
    rowData := "";
    var fields := EncodedFields(values);
    var i := 0;
    while i < |values|
      invariant i <= |values|
      invariant rowData == Join(fields[..i], '|')
    {
      JoinNext(fields, i, '|');
      if i > 0 {
        rowData := rowData + "|";
      }
      rowData := rowData + EncodeValue(values[i]);
      i := i + 1;
    }
    assert fields[..i] == fields;
  }

  lemma JoinNext(fields: seq<string>, i: nat, d: char)
    requires i < |fields|
    ensures Join(fields[..i + 1], d) == if i == 0 then fields[i] else Join(fields[..i], d) + [d] + fields[i]
  {
    assert fields[..i + 1] == fields[..i] + [fields[i]];
    if i > 0 {
      JoinAppend(fields[..i], [fields[i]], d);
    } else {
      assert fields[..1] == [fields[0]];
    }
  }

  method AssignData(assignments: seq<Assignment>) returns (assignData: string)
    ensures assignData == Join(AssignmentFields(assignments), '~')
  {
    assignData := "";
    var i := 0;
    assert assignments[..0] == [];
    while i < |assignments|
      invariant i <= |assignments| && assignData == Join(AssignmentFields(assignments[..i]), '~')
      invariant assignData == "" <==> i == 0
    {
      var a := assignments[i];
      AssignNext(assignments, i);
      assert '~' in Encoded(a.column) + "~" + EncodeValue(a.value);
      if assignData != "" {
        assignData := assignData + "~";
      }
      assignData := assignData + (Encoded(a.column) + "~" + EncodeValue(a.value));
      i := i + 1;
    }
    assert assignments[..i] == assignments;
  }

  lemma {:induction false} AssignmentFieldsAppend(a: seq<Assignment>, b: seq<Assignment>)
    ensures AssignmentFields(a + b) == AssignmentFields(a) + AssignmentFields(b)
  {
    if |a| == 0 {
      assert a + b == b;
    } else {
      assert (a + b)[1..] == a[1..] + b;
      AssignmentFieldsAppend(a[1..], b);
    }
  }

  lemma AssignNext(assignments: seq<Assignment>, i: nat)
    requires i < |assignments|
    ensures var a := assignments[i];
            var one := Encoded(a.column) + "~" + EncodeValue(a.value);
            Join(AssignmentFields(assignments[..i + 1]), '~')
            == if i == 0 then one else Join(AssignmentFields(assignments[..i]), '~') + "~" + one
  {
    var a := assignments[i];
    var fields := [Encoded(a.column), EncodeValue(a.value)];
    assert assignments[..i + 1] == assignments[..i] + [a];
    AssignmentFieldsAppend(assignments[..i], [a]);
    assert [a][1..] == [];
    assert AssignmentFields([a]) == fields + AssignmentFields([a][1..]);
    JoinTwo(Encoded(a.column), EncodeValue(a.value), '~');
    assert AssignmentFields([a]) == fields;
    if i > 0 {
      assert AssignmentFields(assignments[..i]) != [];
      JoinAppend(AssignmentFields(assignments[..i]), fields, '~');
    } else {
      assert assignments[..0] == [] && AssignmentFields(assignments[..0]) + fields == fields;
    }
  }

  method ConditionData(condition: Option<Condition>) returns (condData: string)
    ensures condData == ConditionText(condition)
  {
    condData := "";
    if condition.Some? {
      var column := WalEncode(condition.value.column);
      var op := WalEncode(condition.value.op);
      condData := column + "~" + op + "~" + EncodeValue(condition.value.value);
    }
  }

  class WALManager {
    const disk: Disk

    constructor (disk: Disk)
      ensures this.disk == disk
    {
      this.disk := disk;
    }

    method LogInsert(table: string, values: seq<Value>)
      modifies disk`lines, disk`history
      ensures disk.lines == old(disk.lines) + [LineOf(Record.LogInsert(table, values))]
      ensures disk.history == old(disk.history) + [disk.State()]
    {
      var rowData := RowData(values);
      disk.AppendLine("INSERT" + "|" + table + "|" + rowData + "|0");
    }

    method LogDelete(table: string, condition: Option<Condition>)
      modifies disk`lines, disk`history
      ensures disk.lines == old(disk.lines) + [LineOf(Record.LogDelete(table, condition))]
      ensures disk.history == old(disk.history) + [disk.State()]
    {
      var condData := ConditionData(condition);
      disk.AppendLine("DELETE" + "|" + table + "|" + condData + "|0");
    }

    method LogUpdate(table: string, condition: Option<Condition>, assignments: seq<Assignment>)
      modifies disk`lines, disk`history
      ensures disk.lines == old(disk.lines) + [LineOf(Record.LogUpdate(table, condition, assignments))]
      ensures disk.history == old(disk.history) + [disk.State()]
    {
      var condData := ConditionData(condition);
      var assignData := AssignData(assignments);
      disk.AppendLine("UPDATE" + "|" + table + "|" + (condData + "|" + assignData) + "|0");
    }

    method LogReplaceBegin(table: string, condition: Option<Condition>)
      modifies disk`lines, disk`history
      ensures disk.lines == old(disk.lines) + [LineOf(Record.LogReplaceBegin(table, condition))]
      ensures disk.history == old(disk.history) + [disk.State()]
    {
      var condData := ConditionData(condition);
      disk.AppendLine("REPLACE_BEGIN" + "|" + table + "|" + condData + "|0");
    }

    method LogReplaceRow(table: string, values: seq<Value>)
      modifies disk`lines, disk`history
      ensures disk.lines == old(disk.lines) + [LineOf(Record.LogReplaceRow(table, values))]
      ensures disk.history == old(disk.history) + [disk.State()]
    {
      var rowData := RowData(values);
      disk.AppendLine("REPLACE_ROW" + "|" + table + "|" + rowData + "|0");
    }

    method Commit()
      modifies disk`lines, disk`history
      ensures disk.lines == old(disk.lines) + [COMMIT]
      ensures disk.history == old(disk.history) + [disk.State()]
    {
      disk.AppendLine(COMMIT);
    }

    /** All entries of the log; a COMMIT commits all that are there already. */
    method ReadLog() returns (entries: seq<Entry>)
      ensures entries == Entries(disk.lines)
    {
      entries := [];
      var lines := disk.lines;
      var k := 0;
      while k < |lines|
        invariant k <= |lines| && entries == Entries(lines[..k])
      {
        var line := lines[k];
        assert lines[..k + 1][..k] == lines[..k];
        if line == "" {
        } else if line == COMMIT {
          entries := MarkCommitted(entries);
        } else {
          var parsed := ReadLine(line);
          if parsed.Some? {
            entries := entries + [parsed.value];
          }
        }
        k := k + 1;
      }
      assert lines[..k] == lines;
    }
  }

  method MarkCommitted(entries: seq<Entry>) returns (marked: seq<Entry>)
    ensures marked == Committed(entries)
  {
    marked := entries;
    var i := 0;
    while i < |marked|
      invariant i <= |marked| == |entries|
      invariant forall j | 0 <= j < i :: marked[j] == entries[j].(committed := true)
      invariant forall j | i <= j < |entries| :: marked[j] == entries[j]
    {
      marked := marked[i := marked[i].(committed := true)];
      i := i + 1;
    }
  }

  lemma JoinNothing(d: char)
    ensures Join([], d) == ""
  {
  }

  method ReadLine(line: string) returns (entry: Option<Entry>)
    ensures entry == ParseLine(line)
  {
    hide Pieces, Join;
    JoinNothing('|');
    var parts := Split(line, '|');
    if |parts| < 4 {
      return None;
    }
    var middle := parts[2..|parts| - 1];
    var rowData := "";
    var i := 2;
    while i < |parts| - 1
      invariant 2 <= i <= |parts| - 1 && rowData == Join(middle[..i - 2], '|')
    {
      JoinNext(middle, i - 2, '|');
      if i > 2 {
        rowData := rowData + "|";
      }
      rowData := rowData + parts[i];
      i := i + 1;
    }
    assert middle[..i - 2] == middle;
    return Some(Entry(parts[0], parts[1], rowData, parts[|parts| - 1] == "1"));
  }

  // ---- The SQL of an entry ----------------------------------------------------------------

  method ConditionSQL(condData: string) returns (sql: string)
    ensures sql == WhereTextOf(condData)
  {
    var parts := SplitFields(condData, '~');
    if |parts| != 3 {
      return "";
    }
    var column := WalDecode(parts[0]);
    var op := WalDecode(parts[1]);
    sql := " WHERE " + (column + (" " + op));
    Regroups(column, " ", op);
    if !IsTest(op) {
      var literal := SqlLiteral(DecodeValue(parts[2]));
      var tail := " " + literal;
      Regroups(" WHERE ", column + (" " + op), tail);
      Regroups(column, " " + op, tail);
      Regroups(" ", op, tail);
      sql := sql + tail;
    } else {
      assert op + "" == op;
    }
  }

  /** The values of a VALUES list. */
  method ValuesSQL(rowData: string) returns (csv: string)
    ensures csv == ValuesText(rowData)
  {
    var fields := SplitFields(rowData, '|');
    var values := DecodedFields(fields);
    csv := "";
    var k := 0;
    assert values[..0] == [];
    while k < |fields|
      invariant k <= |fields| && csv == Csv(values[..k])
    {
      CsvNext(values, k);
      if k > 0 {
        csv := csv + ",";
      }
      var literal := SqlLiteral(DecodeValue(fields[k]));
      csv := csv + literal;
      k := k + 1;
    }
    assert values[..k] == values;
  }

  lemma CsvNext(values: seq<Value>, k: nat)
    requires k < |values|
    ensures Csv(values[..k + 1]) == if k == 0 then Literal(values[k]) else Csv(values[..k]) + "," + Literal(values[k])
  {
    JoinNext(Literals(values), k, ',');
    assert Literals(values[..k + 1]) == Literals(values)[..k + 1] && Literals(values[..k]) == Literals(values)[..k];
  }

  /** The assignments of an UPDATE. */
  method SetSQL(assigns: seq<string>) returns (sql: string)
    ensures sql == SetText(AssignmentsOf(assigns))
  {
    hide SetRest, Decoded, Literal;
    sql := "";
    var k := 0;
    assert assigns[0..] == assigns;
    SetRestFirst(assigns);
    while k + 1 < |assigns|
      invariant k % 2 == 0 && k <= |assigns|
      invariant sql + SetRest(assigns[k..], k) == SetText(AssignmentsOf(assigns))
    {
      SetStep(assigns, k);
      ghost var sep, rest := if k > 0 then ", " else "", SetRest(assigns[k + 2..], k + 2);
      var column := WalDecode(assigns[k]);
      var literal := SqlLiteral(DecodeValue(assigns[k + 1]));
      var one := column + (" = " + literal);
      Regroups(sql, sep + one, rest);
      Regroups(sql, sep, one);
      if k > 0 {
        sql := sql + ", ";
      }
      sql := sql + one;
      k := k + 2;
    }
    SetRestNone(assigns[k..], k);
  }

  /** What is still to be written behind the first `k` parts. */
  function SetRest(assigns: seq<string>, k: nat): string
  {
    if |assigns| < 2 then "" else (if k > 0 then ", " else "") + SetText(AssignmentsOf(assigns))
  }

  lemma SetRestNone(assigns: seq<string>, k: nat)
    requires |assigns| < 2
    ensures SetRest(assigns, k) == ""
  {
  }

  lemma SetRestFirst(assigns: seq<string>)
    ensures "" + SetRest(assigns, 0) == SetText(AssignmentsOf(assigns))
  {
  }

  lemma SetStep(assigns: seq<string>, k: nat)
    requires k + 1 < |assigns|
    ensures SetRest(assigns[k..], k)
            == (if k > 0 then ", " else "") + (Decoded(assigns[k]) + (" = " + Literal(DecodeValue(assigns[k + 1]))))
               + SetRest(assigns[k + 2..], k + 2)
  {
    var parts := assigns[k..];
    assert parts[2..] == assigns[k + 2..];
    var a := Assignment(Decoded(parts[0]), DecodeValue(parts[1]));
    var rest := AssignmentsOf(parts[2..]);
    assert ([a] + rest)[1..] == rest;
    var l, tail, sep := Literal(a.value), if |rest| == 0 then "" else ", " + SetText(rest), if k > 0 then ", " else "";
    assert SetRest(parts[2..], k + 2) == tail;
    assert SetText([a] + rest) == a.column + (" = " + (l + tail));
    Regroups(" = ", l, tail);
    Regroups(a.column, " = " + l, tail);
    Regroups(sep, a.column + (" = " + l), tail);
  }

  /** The SQL that an entry is replayed as, if any. */
  method ReplaySQLOf(e: Entry) returns (sql: Option<string>)
    ensures sql == SqlOf(e)
  {
    if e.kind == "INSERT" {
      var csv := ValuesSQL(e.rowData);
      return Some("INSERT INTO " + (e.table + (" VALUES (" + (csv + ")"))));
    } else if e.kind == "DELETE" {
      var tail := "";
      if e.rowData != "" {
        tail := ConditionSQL(e.rowData);
      }
      return Some("DELETE FROM " + (e.table + tail));
    } else if e.kind == "UPDATE" {
      var fields := Split(e.rowData, '|');
      var condPart := if |fields| > 0 then fields[0] else "";
      var assignPart := if |fields| > 1 then fields[1] else "";
      var assigns := SplitFields(assignPart, '~');
      if |assigns| < 2 {
        return None;
      }
      var assignmentsText := SetSQL(assigns);
      var tail := "";
      if condPart != "" {
        tail := ConditionSQL(condPart);
      }
      return Some("UPDATE " + (e.table + (" SET " + (assignmentsText + tail))));
    }
    return None;
  }
}
