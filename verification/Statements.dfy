// What INSERT, DELETE and UPDATE check before they write, and what that is worth.
module Statements {
  import opened Sequences
  import opened Wrappers
  import opened StringUtils
  import opened Sql
  import opened Values
  import opened TableIndex
  import opened Rewrites

  // ---- INSERT with a column list ----------------------------------------------------------

  function Nulls(n: nat): (r: Row)
    ensures |r| == n && forall i | 0 <= i < n :: r[i] == None
  {
    seq(n, _ => None)
  }

  /** The columns are different columns of the table. */
  predicate ColumnsFit(scheme: seq<Column>, columns: seq<string>)
  {
    && (forall k | 0 <= k < |columns| :: ColumnIndex(scheme, columns[k]).Some?)
    && (forall j, k | 0 <= j < k < |columns| :: columns[j] != columns[k])
  }

  /** A row of NULLs with the values put in from left to right. */
  function RowFor(scheme: seq<Column>, columns: seq<string>, values: seq<Value>): (row: Row)
    requires |columns| == |values| && ColumnsFit(scheme, columns)
    ensures |row| == |scheme|
  {
    if |columns| == 0 then Nulls(|scheme|)
    else
      var n := |columns| - 1;
      RowFor(scheme, columns[..n], values[..n])[ColumnIndex(scheme, columns[n]).value := values[n]]
  }

  lemma SameColumn(scheme: seq<Column>, a: string, b: string)
    ensures ColumnIndex(scheme, a).Some? && ColumnIndex(scheme, a) == ColumnIndex(scheme, b) ==> a == b
  {
  }

  /** Each value stands at the place of its column; a column that is not listed is NULL. */
  lemma {:induction false} PlacedMeans(scheme: seq<Column>, columns: seq<string>, values: seq<Value>)
    requires |columns| == |values| && ColumnsFit(scheme, columns)
    ensures var row := RowFor(scheme, columns, values);
            && (forall k | 0 <= k < |columns| :: row[ColumnIndex(scheme, columns[k]).value] == values[k])
            && (forall i | 0 <= i < |scheme| ::
                  row[i] == None || exists k :: 0 <= k < |columns| && ColumnIndex(scheme, columns[k]) == Some(i))
  {
    hide ColumnIndex;
    if |columns| > 0 {
      var n := |columns| - 1;
      PlacedMeans(scheme, columns[..n], values[..n]);
      assert columns[n] == columns[|columns| - 1];
      var before, row := RowFor(scheme, columns[..n], values[..n]), RowFor(scheme, columns, values);
      var c := ColumnIndex(scheme, columns[n]).value;
      forall k | 0 <= k < n ensures row[ColumnIndex(scheme, columns[k]).value] == values[k] {
        assert columns[..n][k] == columns[k] && columns[k] != columns[n];
        SameColumn(scheme, columns[k], columns[n]);
      }
      forall i | 0 <= i < |scheme|
        ensures row[i] == None || exists k :: 0 <= k < |columns| && ColumnIndex(scheme, columns[k]) == Some(i)
      {
        if i != c && before[i] != None {
          var k :| 0 <= k < n && ColumnIndex(scheme, columns[..n][k]) == Some(i);
          assert columns[k] == columns[..n][k];
        }
      }
    }
  }

  /** The row that an INSERT with a column list means, or None if the list is wrong. */
  method PlaceValues(scheme: seq<Column>, columns: seq<string>, values: seq<Value>) returns (row: Option<Row>)
    requires |columns| == |values|
    ensures row == if ColumnsFit(scheme, columns) then Some(RowFor(scheme, columns, values)) else None
  {
    var ordered := Nulls(|scheme|);
    var seen := seq(|scheme|, _ => false);
    var i := 0;
    while i < |columns|
      invariant i <= |columns| && |seen| == |scheme| && ColumnsFit(scheme, columns[..i])
      invariant ordered == RowFor(scheme, columns[..i], values[..i])
      invariant forall c | 0 <= c < |scheme| :: seen[c] <==> Listed(scheme, columns[..i], c)
    {
      var colIndex := GetColumnIndex(scheme, columns[i]);
      if colIndex.None? {
        return None;
      }
      ListedNext(scheme, columns, i, colIndex.value);
      if seen[colIndex.value] {
        return None;
      }
      assert columns[..i + 1][..i] == columns[..i] && values[..i + 1][..i] == values[..i];
      seen := seen[colIndex.value := true];
      ordered := ordered[colIndex.value := values[i]];
      i := i + 1;
    }
    assert columns[..i] == columns && values[..i] == values;
    return Some(ordered);
  }

  ghost predicate Listed(scheme: seq<Column>, columns: seq<string>, c: nat)
  {
    exists k :: 0 <= k < |columns| && ColumnIndex(scheme, columns[k]) == Some(c)
  }

  lemma ListedNext(scheme: seq<Column>, columns: seq<string>, i: nat, c: nat)
    requires i < |columns| && ColumnsFit(scheme, columns[..i]) && ColumnIndex(scheme, columns[i]) == Some(c)
    ensures Listed(scheme, columns[..i], c) <==> !ColumnsFit(scheme, columns[..i + 1])
    ensures Listed(scheme, columns[..i], c) ==> !ColumnsFit(scheme, columns)
    ensures forall other: nat ::
              Listed(scheme, columns[..i + 1], other) <==> other == c || Listed(scheme, columns[..i], other)
  {
    var now := columns[..i + 1];
    assert now == columns[..i] + [columns[i]];
    if Listed(scheme, columns[..i], c) {
      var k :| 0 <= k < i && ColumnIndex(scheme, columns[..i][k]) == Some(c);
      SameColumn(scheme, columns[..i][k], columns[i]);
      assert now[k] == now[i] && columns[k] == columns[i];
    } else {
      forall j | 0 <= j < i ensures now[j] != now[i] {
        assert now[j] == columns[..i][j];
      }
      assert forall j | 0 <= j < i :: now[j] == columns[..i][j];
    }
    forall other: nat ensures Listed(scheme, now, other) <==> other == c || Listed(scheme, columns[..i], other) {
      assert now[i] == columns[i];
      if k :| 0 <= k < i && ColumnIndex(scheme, columns[..i][k]) == Some(other) {
        assert now[k] == columns[..i][k];
      }
      if k :| 0 <= k < |now| && ColumnIndex(scheme, now[k]) == Some(other) {
        assert k < i ==> now[k] == columns[..i][k];
      }
    }
  }

  // ---- Conditions and assignments ---------------------------------------------------------

  /** The condition names a column, and compares it with something the column can hold; an INT column can be compared
      with any number. */
  predicate ConditionValid(scheme: seq<Column>, cond: Option<Condition>)
  {
    match cond
    case None => true
    case Some(c) =>
      var i := ColumnIndex(scheme, c.column);
      i.Some? && (var kind := scheme[i.value].kind; HasType(c.value, if kind == "INT" then "FLOAT" else kind))
  }

  method CheckCondition(scheme: seq<Column>, cond: Option<Condition>) returns (valid: bool)
    ensures valid == ConditionValid(scheme, cond)
  {
    if cond.None? {
      return true;
    }
    var column := GetColumnIndex(scheme, cond.value.column);
    if column.None? {
      return false;
    }
    if cond.value.value.None? {
      return true;
    }
    var kind := scheme[column.value].kind;
    valid := ValidateValueForType(cond.value.value, if kind == "INT" then "FLOAT" else kind);
  }

  method CheckUniqueNames(names: seq<string>) returns (unique: bool)
    ensures unique == Distinct(names)
  {
    var seen := {};
    var i := 0;
    while i < |names|
      invariant i <= |names| && Distinct(names[..i])
      invariant forall n :: n in seen <==> n in names[..i]
    {
      if names[i] in seen {
        var k :| 0 <= k < i && names[..i][k] == names[i];
        assert names[k] == names[i];
        return false;
      }
      assert names[..i + 1] == names[..i] + [names[i]];
      seen := seen + {names[i]};
      i := i + 1;
    }
    assert names[..i] == names;
    return true;
  }

  /** How many of the rows have the key. */
  function Holders(scheme: seq<Column>, rows: seq<Row>, key: int): nat
  {
    if |rows| == 0 then 0
    else Holders(scheme, rows[..|rows| - 1], key) + if KeyOf(scheme, rows[|rows| - 1]) == Some(key) then 1 else 0
  }

  method CountHolders(scheme: seq<Column>, rows: seq<Row>, key: int) returns (holders: nat)
    ensures holders == Holders(scheme, rows, key)
  {
    holders := 0;
    var i := 0;
    while i < |rows|
      invariant i <= |rows| && holders == Holders(scheme, rows[..i], key)
    {
      assert rows[..i + 1][..i] == rows[..i];
      if KeyOf(scheme, rows[i]) == Some(key) {
        holders := holders + 1;
      }
      i := i + 1;
    }
    assert rows[..i] == rows;
  }

  /** The assignment gives the key column a value other than NULL. */
  predicate AssignsKey(scheme: seq<Column>, a: Assignment)
  {
    Keyed(scheme) && a.column == scheme[0].name && a.value.Some?
  }

  /** A key that is assigned fits an int, and at most one of the new rows has it. */
  predicate KeyAssignmentsOk(scheme: seq<Column>, assignments: seq<Assignment>, newState: seq<Row>)
  {
    forall k | 0 <= k < |assignments| && AssignsKey(scheme, assignments[k]) ::
      var key := Stoi(assignments[k].value.value);
      key.Some? && Holders(scheme, newState, key.value) <= 1
  }

  /** What is wrong with the first assignment to the key that is refused: its key fits no int, or several of the new
      rows have it. */
  function KeyError(scheme: seq<Column>, assignments: seq<Assignment>, newState: seq<Row>): Option<TableError>
  {
    if |assignments| == 0 then None
    else if !AssignsKey(scheme, assignments[0]) then KeyError(scheme, assignments[1..], newState)
    else
      var key := Stoi(assignments[0].value.value);
      if key.None? then Some(INDEX_INSERTION_FAILED)
      else if Holders(scheme, newState, key.value) > 1 then Some(DUPLICATE_KEY)
      else KeyError(scheme, assignments[1..], newState)
  }

  lemma {:induction false} KeyErrorTells(scheme: seq<Column>, assignments: seq<Assignment>, newState: seq<Row>)
    ensures KeyError(scheme, assignments, newState).None? <==> KeyAssignmentsOk(scheme, assignments, newState)
    decreases |assignments|
  {
    hide Stoi, Holders;
    if |assignments| > 0 {
      var rest := assignments[1..];
      KeyErrorTells(scheme, rest, newState);
      assert forall k | 0 <= k < |rest| :: rest[k] == assignments[k + 1];
      if KeyAssignmentsOk(scheme, assignments, newState) {
        forall k | 0 <= k < |rest| && AssignsKey(scheme, rest[k])
          ensures var key := Stoi(rest[k].value.value); key.Some? && Holders(scheme, newState, key.value) <= 1
        {
          assert AssignsKey(scheme, assignments[k + 1]);
        }
      }
      if KeyError(scheme, assignments, newState).None? {
        forall k | 0 <= k < |assignments| && AssignsKey(scheme, assignments[k])
          ensures var key := Stoi(assignments[k].value.value); key.Some? && Holders(scheme, newState, key.value) <= 1
        {
          assert k > 0 ==> assignments[k] == rest[k - 1];
        }
      }
    }
  }

  method CheckKeyAssignments(scheme: seq<Column>, assignments: seq<Assignment>, newState: seq<Row>)
    returns (err: Option<TableError>)
    ensures err == KeyError(scheme, assignments, newState)
  {
    var k := 0;
    while k < |assignments|
      invariant k <= |assignments|
                && KeyError(scheme, assignments[k..], newState) == KeyError(scheme, assignments, newState)
    {
      assert assignments[k..][1..] == assignments[k + 1..];
      if AssignsKey(scheme, assignments[k]) {
        var key := Stoi(assignments[k].value.value);
        if key.None? {
          return Some(INDEX_INSERTION_FAILED);
        }
        var holders := CountHolders(scheme, newState, key.value);
        if holders > 1 {
          return Some(DUPLICATE_KEY);
        }
      }
      k := k + 1;
    }
    return None;
  }

  // ---- Keys stay unique -------------------------------------------------------------------

  /** All rows were written by the tables themselves, and no two share a key. */
  ghost predicate HealthyBag(scheme: seq<Column>, b: multiset<string>)
  {
    (forall t | t in b :: Healthy(scheme, t)) && KeysUnique(scheme, b)
  }

  lemma HealthyPart(scheme: seq<Column>, a: multiset<string>, b: multiset<string>)
    requires HealthyBag(scheme, b) && a <= b
    ensures HealthyBag(scheme, a)
  {
    forall t | t in a ensures t in b {
      assert a[t] <= b[t];
    }
    forall s, t | s in a && t in a && TextKey(scheme, s).Some? && TextKey(scheme, s) == TextKey(scheme, t)
      ensures s == t && a[s] == 1
    {
      assert a[s] <= b[s];
    }
  }

  lemma TextKeyIsKey(scheme: seq<Column>, row: Row)
    ensures TextKey(scheme, RowText(row)) == KeyOf(scheme, row)
  {
    RowRoundTrip(row);
  }

  lemma NewTextIsHealthy(scheme: seq<Column>, row: Row)
    requires ShapeError(scheme, row).None? && !KeyOverflows(scheme, row) && row != []
    ensures Healthy(scheme, RowText(row))
  {
    RowRoundTrip(row);
  }

  /** An accepted INSERT keeps the keys unique. */
  lemma InsertKeepsKeys(scheme: seq<Column>, b: multiset<string>, row: Row)
    requires HealthyBag(scheme, b) && RowError(scheme, b, row).None? && row != []
    ensures HealthyBag(scheme, b + multiset{RowText(row)})
  {
    hide Healthy, RowText, TextKey;
    var text, b' := RowText(row), b + multiset{RowText(row)};
    NewTextIsHealthy(scheme, row);
    TextKeyIsKey(scheme, row);
    forall s, t | s in b' && t in b' && TextKey(scheme, s).Some? && TextKey(scheme, s) == TextKey(scheme, t)
      ensures s == t && b'[s] == 1
    {
      assert TextKey(scheme, text).Some? ==> forall u | u in b :: TextKey(scheme, u) != TextKey(scheme, text);
      assert s in b || s == text;
      assert t in b || t == text;
    }
  }

  lemma {:induction false} TwoPlaces<T>(s: seq<T>, x: T) returns (i: nat, j: nat)
    requires multiset(s)[x] >= 2
    ensures i < j < |s| && s[i] == x && s[j] == x
  {
    var n := |s| - 1;
    assert s == s[..n] + [s[n]];
    if s[n] == x {
      assert x in s[..n];
      i :| 0 <= i < n && s[..n][i] == x;
      j := n;
    } else {
      i, j := TwoPlaces(s[..n], x);
    }
  }

  lemma UniqueByIndex(scheme: seq<Column>, texts: seq<string>)
    requires forall i, j | 0 <= i < j < |texts| && TextKey(scheme, texts[i]).Some? ::
               TextKey(scheme, texts[i]) != TextKey(scheme, texts[j])
    ensures KeysUnique(scheme, multiset(texts))
  {
    hide TextKey;
    var b := multiset(texts);
    forall s, t | s in b && t in b && TextKey(scheme, s).Some? && TextKey(scheme, s) == TextKey(scheme, t)
      ensures s == t && b[s] == 1
    {
      var i :| 0 <= i < |texts| && texts[i] == s;
      var j :| 0 <= j < |texts| && texts[j] == t;
      assert i == j;
      if b[s] >= 2 {
        var k, l := TwoPlaces(texts, s);
      }
    }
  }

  lemma {:induction false} HoldersAtLeast(scheme: seq<Column>, rows: seq<Row>, key: int, i: nat)
    requires i < |rows| && KeyOf(scheme, rows[i]) == Some(key)
    ensures Holders(scheme, rows, key) >= 1
  {
    hide KeyOf;
    if i < |rows| - 1 {
      HoldersAtLeast(scheme, rows[..|rows| - 1], key, i);
    }
  }

  lemma {:induction false} TwoHolders(scheme: seq<Column>, rows: seq<Row>, key: int, i: nat, j: nat)
    requires i < j < |rows| && KeyOf(scheme, rows[i]) == Some(key) && KeyOf(scheme, rows[j]) == Some(key)
    ensures Holders(scheme, rows, key) >= 2
  {
    hide KeyOf;
    if j == |rows| - 1 {
      HoldersAtLeast(scheme, rows[..j], key, i);
    } else {
      TwoHolders(scheme, rows[..|rows| - 1], key, i, j);
    }
  }

  /** Row `i` of an UPDATE has its old key, or one that was assigned and that no other row has. */
  lemma UpdatedKey(num: NumberParser, scheme: seq<Column>, cond: Option<Condition>, assignments: seq<Assignment>,
                   texts: seq<string>, rows: seq<Row>, i: nat)
    requires AssignmentsFit(scheme, assignments) && AllHealthy(scheme, texts)
    requires Updated(num, scheme, cond, assignments, texts) == Some(rows) && i < |rows|
    requires KeyAssignmentsOk(scheme, assignments, rows)
    ensures |rows| == |texts| && !KeyOverflows(scheme, rows[i])
    ensures || KeyOf(scheme, rows[i]) == TextKey(scheme, texts[i])
            || KeyOf(scheme, rows[i]).None?
            || Holders(scheme, rows, KeyOf(scheme, rows[i]).value) <= 1
  {
    UpdateMeans(num, scheme, cond, assignments, texts);
    assert Healthy(scheme, texts[i]);
    var row := RowOf(texts[i]);
    if Selects(num, scheme, cond, row) && Keyed(scheme) {
      AssignedMeans(scheme, row, assignments);
      if exists k :: 0 <= k < |assignments| && ColumnIndex(scheme, assignments[k].column) == Some(0) {
        var k :| 0 <= k < |assignments| && ColumnIndex(scheme, assignments[k].column) == Some(0)
                 && rows[i][0] == assignments[k].value;
        assert assignments[k].value.Some? ==> AssignsKey(scheme, assignments[k]);
      } else {
        assert rows[i][0] == row[0];
      }
    }
  }

  /** An UPDATE that passes its checks keeps the keys unique, and every row readable. */
  lemma UpdateKeepsKeys(num: NumberParser, scheme: seq<Column>, cond: Option<Condition>, assignments: seq<Assignment>,
                        texts: seq<string>, rows: seq<Row>)
    requires AssignmentsFit(scheme, assignments) && AllHealthy(scheme, texts) && KeysUnique(scheme, multiset(texts))
    requires Updated(num, scheme, cond, assignments, texts) == Some(rows) && scheme != []
    requires KeyAssignmentsOk(scheme, assignments, rows)
    ensures HealthyBag(scheme, multiset(TextsOf(rows)))
  {
    hide Healthy, Updated, KeyAssignmentsOk, KeyOf, TextKey, KeyOverflows, RowText, Holders;
    var texts' := TextsOf(rows);
    UpdateKeepsShape(num, scheme, cond, assignments, texts);
    forall i | 0 <= i < |rows|
      ensures Healthy(scheme, texts'[i]) && TextKey(scheme, texts'[i]) == KeyOf(scheme, rows[i])
    {
      UpdatedKey(num, scheme, cond, assignments, texts, rows, i);
      assert rows[i] in rows;
      NewTextIsHealthy(scheme, rows[i]);
      TextKeyIsKey(scheme, rows[i]);
    }
    forall i, j | 0 <= i < j < |rows| && TextKey(scheme, texts'[i]).Some?
      ensures TextKey(scheme, texts'[i]) != TextKey(scheme, texts'[j])
    {
      UpdatedKey(num, scheme, cond, assignments, texts, rows, i);
      UpdatedKey(num, scheme, cond, assignments, texts, rows, j);
      KeysDiffer(scheme, texts, rows, i, j);
    }
    UniqueByIndex(scheme, texts');
  }

  lemma KeysDiffer(scheme: seq<Column>, texts: seq<string>, rows: seq<Row>, i: nat, j: nat)
    requires |rows| == |texts| && i < j < |rows| && KeysUnique(scheme, multiset(texts)) && KeyOf(scheme, rows[i]).Some?
    requires forall k | k == i || k == j ::
               || KeyOf(scheme, rows[k]) == TextKey(scheme, texts[k]) || KeyOf(scheme, rows[k]).None?
               || Holders(scheme, rows, KeyOf(scheme, rows[k]).value) <= 1
    ensures KeyOf(scheme, rows[i]) != KeyOf(scheme, rows[j])
  {
    hide KeyOf, TextKey, Holders;
    if KeyOf(scheme, rows[i]) == KeyOf(scheme, rows[j]) {
      TwoHolders(scheme, rows, KeyOf(scheme, rows[i]).value, i, j);
    }
    if TextKey(scheme, texts[i]).Some? {
      KeyOnce(scheme, texts, i, j);
    }
  }

  lemma {:induction false} HoldersAreRows(scheme: seq<Column>, rows: seq<Row>, key: int) returns (i: nat, j: nat)
    requires Holders(scheme, rows, key) >= 1
    ensures j < |rows| && KeyOf(scheme, rows[j]) == Some(key)
    ensures Holders(scheme, rows, key) >= 2 ==> i < j && KeyOf(scheme, rows[i]) == Some(key)
  {
    hide KeyOf;
    var n := |rows| - 1;
    if KeyOf(scheme, rows[n]) == Some(key) {
      i, j := 0, n;
      if Holders(scheme, rows, key) >= 2 {
        var k;
        k, i := HoldersAreRows(scheme, rows[..n], key);
      }
    } else {
      i, j := HoldersAreRows(scheme, rows[..n], key);
    }
  }

  /** The rows have keys that fit an int, and no two the same. */
  ghost predicate KeysDistinct(scheme: seq<Column>, rows: seq<Row>)
  {
    && (forall i | 0 <= i < |rows| :: !KeyOverflows(scheme, rows[i]))
    && forall i, j | 0 <= i < j < |rows| && KeyOf(scheme, rows[i]).Some? ::
         KeyOf(scheme, rows[i]) != KeyOf(scheme, rows[j])
  }

  /** An UPDATE that matches a row passes the checks of its keys exactly if the keys of all rows fit an int afterwards
      and no two are the same. */
  lemma KeysCheckedIff(num: NumberParser, scheme: seq<Column>, cond: Option<Condition>, assignments: seq<Assignment>,
                       texts: seq<string>)
    requires AssignmentsFit(scheme, assignments) && AllHealthy(scheme, texts) && KeysUnique(scheme, multiset(texts))
    requires forall j, k | 0 <= j < k < |assignments| :: assignments[j].column != assignments[k].column
    requires exists i :: 0 <= i < |texts| && Selects(num, scheme, cond, RowOf(texts[i]))
    ensures var rows := UpdatePreview(num, scheme, cond, assignments, texts).0;
            KeyAssignmentsOk(scheme, assignments, rows) <==> KeysDistinct(scheme, rows)
  {
    hide Healthy, Updated, KeyAssignmentsOk, KeyOf, KeyOverflows, Holders, KeysUnique, Selects, Scanned, AssignmentsFit,
         TextKey;
    ScannedAndKept(num, scheme, cond, texts);
    UpdateKeepsShape(num, scheme, cond, assignments, texts);
    var rows := Updated(num, scheme, cond, assignments, texts).value;
    if KeyAssignmentsOk(scheme, assignments, rows) {
      forall i | 0 <= i < |rows| ensures !KeyOverflows(scheme, rows[i]) {
        UpdatedKey(num, scheme, cond, assignments, texts, rows, i);
      }
      forall i, j | 0 <= i < j < |rows| && KeyOf(scheme, rows[i]).Some?
        ensures KeyOf(scheme, rows[i]) != KeyOf(scheme, rows[j])
      {
        UpdatedKey(num, scheme, cond, assignments, texts, rows, i);
        UpdatedKey(num, scheme, cond, assignments, texts, rows, j);
        KeysDiffer(scheme, texts, rows, i, j);
      }
    }
    if KeysDistinct(scheme, rows) {
      DistinctIsChecked(num, scheme, cond, assignments, texts, rows);
    }
  }

  lemma DistinctIsChecked(num: NumberParser, scheme: seq<Column>, cond: Option<Condition>, assignments: seq<Assignment>,
                          texts: seq<string>, rows: seq<Row>)
    requires AssignmentsFit(scheme, assignments) && AllHealthy(scheme, texts)
    requires forall j, k | 0 <= j < k < |assignments| :: assignments[j].column != assignments[k].column
    requires exists i :: 0 <= i < |texts| && Selects(num, scheme, cond, RowOf(texts[i]))
    requires Updated(num, scheme, cond, assignments, texts) == Some(rows) && KeysDistinct(scheme, rows)
    ensures KeyAssignmentsOk(scheme, assignments, rows)
  {
    hide Healthy, Updated, Holders, Selects, Stoi;
    UpdateMeans(num, scheme, cond, assignments, texts);
    var i :| 0 <= i < |texts| && Selects(num, scheme, cond, RowOf(texts[i]));
    forall k | 0 <= k < |assignments| && AssignsKey(scheme, assignments[k])
      ensures var key := Stoi(assignments[k].value.value); key.Some? && Holders(scheme, rows, key.value) <= 1
    {
      AssignedKey(scheme, texts[i], rows[i], assignments, k);
      assert !KeyOverflows(scheme, rows[i]);
      var key := Stoi(assignments[k].value.value).value;
      if Holders(scheme, rows, key) >= 2 {
        var a, b := HoldersAreRows(scheme, rows, key);
      }
    }
  }

  lemma AssignedKey(scheme: seq<Column>, text: string, row: Row, assignments: seq<Assignment>, k: nat)
    requires AssignmentsFit(scheme, assignments) && Healthy(scheme, text)
    requires forall i, j | 0 <= i < j < |assignments| :: assignments[i].column != assignments[j].column
    requires Assigned(scheme, RowOf(text), assignments) == Some(row)
    requires k < |assignments| && AssignsKey(scheme, assignments[k])
    ensures KeyText(scheme, row) == assignments[k].value
  {
    hide HasType, Stoi;
    AssignedMeans(scheme, RowOf(text), assignments);
    assert ColumnIndex(scheme, assignments[k].column) == Some(0);
    var l :| 0 <= l < |assignments| && ColumnIndex(scheme, assignments[l].column) == Some(0)
             && row[0] == assignments[l].value;
    assert assignments[l].column == scheme[0].name == assignments[k].column;
    assert l == k;
  }

  /** A row that failed to be stored is no reason for a duplicate. */
  lemma {:induction false} SurvivorsPart(scheme: seq<Column>, rows: seq<Row>)
    ensures multiset(Survivors(scheme, rows)) <= multiset(TextsOf(rows))
  {
    hide Storable, RowText;
    if |rows| > 0 {
      var row, rest := rows[0], rows[1..];
      SurvivorsPart(scheme, rest);
      assert rows == [row] + rest;
      TextsFirst(row, rest);
      PartNext(RowText(row), Survivors(scheme, rest), TextsOf(rest));
      assert [] + Survivors(scheme, rest) == Survivors(scheme, rest);
    }
  }

  lemma PartNext<T>(x: T, a: seq<T>, b: seq<T>)
    requires multiset(a) <= multiset(b)
    ensures multiset([x] + a) <= multiset([x] + b) && multiset(a) <= multiset([x] + b)
  {
    assert multiset([x] + a) == multiset{x} + multiset(a);
    assert multiset([x] + b) == multiset{x} + multiset(b);
  }
}
