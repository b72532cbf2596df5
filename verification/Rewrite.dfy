// DELETE and UPDATE as rewrites of the whole table.
module Rewrites {
  import opened Sequences
  import opened Wrappers
  import opened StringUtils
  import opened Sql
  import opened Pages
  import opened TableRows
  import opened Values
  import opened TableIndex

  // ---- What is to be stored ---------------------------------------------------------------

  /** The rows that a DELETE leaves; without a condition there are none. */
  function Kept(num: NumberParser, scheme: seq<Column>, cond: Option<Condition>, texts: seq<string>): seq<Row>
  {
    if |texts| == 0 then []
    else
      var row := RowOf(texts[0]);
      (if Selects(num, scheme, cond, row) then [] else [row]) + Kept(num, scheme, cond, texts[1..])
  }

  /** Every updated column exists and takes its value. */
  predicate AssignmentsFit(scheme: seq<Column>, assignments: seq<Assignment>)
  {
    forall k | 0 <= k < |assignments| ::
      var i := ColumnIndex(scheme, assignments[k].column);
      i.Some? && HasType(assignments[k].value, scheme[i.value].kind)
  }

  /** The row after the assignments, from left to right; None if it is too short for one of them. */
  function Assigned(scheme: seq<Column>, row: Row, assignments: seq<Assignment>): Option<Row>
    decreases |assignments|
  {
    if |assignments| == 0 then Some(row)
    else
      var i := ColumnIndex(scheme, assignments[0].column);
      if i.None? || i.value >= |row| then None
      else Assigned(scheme, row[i.value := assignments[0].value], assignments[1..])
  }

  /** The rows after an UPDATE; None if a row is too short. */
  function Updated(num: NumberParser, scheme: seq<Column>, cond: Option<Condition>, assignments: seq<Assignment>,
                   texts: seq<string>): Option<seq<Row>>
  {
    if |texts| == 0 then Some([])
    else
      var row := RowOf(texts[0]);
      var first := if Selects(num, scheme, cond, row) then Assigned(scheme, row, assignments) else Some(row);
      var rest := Updated(num, scheme, cond, assignments, texts[1..]);
      if first.None? || rest.None? then None else Some([first.value] + rest.value)
  }

  /** What an UPDATE would store, and how many rows it matches; nothing if it cannot be carried out or matches none. */
  function UpdatePreview(num: NumberParser, scheme: seq<Column>, cond: Option<Condition>, assignments: seq<Assignment>,
                         texts: seq<string>): (seq<Row>, nat)
  {
    var matched := |Scanned(num, scheme, cond, texts)|;
    if !AssignmentsFit(scheme, assignments) || matched == 0 then ([], 0)
    else
      match Updated(num, scheme, cond, assignments, texts)
      case None => ([], 0)
      case Some(rows) => (rows, matched)
  }

  lemma {:induction false} UpdatedCount(num: NumberParser, scheme: seq<Column>, cond: Option<Condition>,
                                        assignments: seq<Assignment>, texts: seq<string>)
    requires Updated(num, scheme, cond, assignments, texts).Some?
    ensures |Updated(num, scheme, cond, assignments, texts).value| == |texts|
  {
    if |texts| > 0 {
      UpdatedCount(num, scheme, cond, assignments, texts[1..]);
    }
  }

  // ---- Computing the previews -------------------------------------------------------------

  lemma {:induction false} ScannedAll(num: NumberParser, scheme: seq<Column>, texts: seq<string>)
    ensures var rows := Scanned(num, scheme, None, texts);
            |rows| == |texts| && forall i | 0 <= i < |texts| :: rows[i] == RowOf(texts[i])
  {
    if |texts| > 0 {
      ScannedAll(num, scheme, texts[1..]);
    }
  }

  lemma {:induction false} KeepsNothing(num: NumberParser, scheme: seq<Column>, texts: seq<string>)
    ensures Kept(num, scheme, None, texts) == []
  {
    if |texts| > 0 {
      KeepsNothing(num, scheme, texts[1..]);
    }
  }

  method KeepRows(num: NumberParser, scheme: seq<Column>, cond: Condition, allRows: seq<Row>, ghost texts: seq<string>)
    returns (toKeep: seq<Row>)
    requires |allRows| == |texts| && forall i | 0 <= i < |texts| :: allRows[i] == RowOf(texts[i])
    ensures toKeep == Kept(num, scheme, Some(cond), texts)
  {
    hide Holds, RowOf;
    toKeep := [];
    var i := 0;
    while i < |allRows|
      invariant i <= |allRows|
      invariant toKeep + Kept(num, scheme, Some(cond), texts[i..]) == Kept(num, scheme, Some(cond), texts)
    {
      assert texts[i..][1..] == texts[i + 1..];
      ghost var rest := Kept(num, scheme, Some(cond), texts[i + 1..]);
      var holds := EvaluateCondition(num, cond, allRows[i], scheme);
      if !holds {
        Regroup(toKeep, allRows[i], rest);
        toKeep := toKeep + [allRows[i]];
      } else {
        assert [] + rest == rest;
      }
      i := i + 1;
    }
    assert texts[i..] == [];
  }

  method CheckAssignments(scheme: seq<Column>, assignments: seq<Assignment>) returns (fit: bool)
    ensures fit == AssignmentsFit(scheme, assignments)
  {
    var k := 0;
    while k < |assignments|
      invariant k <= |assignments| && AssignmentsFit(scheme, assignments[..k])
    {
      var colIndex := GetColumnIndex(scheme, assignments[k].column);
      if colIndex.None? {
        return false;
      }
      var valid := ValidateValueForType(assignments[k].value, scheme[colIndex.value].kind);
      if !valid {
        return false;
      }
      k := k + 1;
    }
    assert assignments[..k] == assignments;
    return true;
  }

  method AssignRow(scheme: seq<Column>, row: Row, assignments: seq<Assignment>) returns (updated: Option<Row>)
    ensures updated == Assigned(scheme, row, assignments)
  {
    var values := row;
    var k := 0;
    assert assignments[0..] == assignments;
    while k < |assignments|
      invariant k <= |assignments| && Assigned(scheme, values, assignments[k..]) == Assigned(scheme, row, assignments)
    {
      assert assignments[k..][1..] == assignments[k + 1..];
      var colIndex := GetColumnIndex(scheme, assignments[k].column);
      if colIndex.None? || colIndex.value >= |values| {
        return None;
      }
      values := values[colIndex.value := assignments[k].value];
      k := k + 1;
    }
    return Some(values);
  }

  /** One row of an UPDATE. */
  method UpdateOne(num: NumberParser, scheme: seq<Column>, cond: Option<Condition>, assignments: seq<Assignment>,
                   row: Row)
    returns (updated: Option<Row>, selected: bool)
    ensures selected == Selects(num, scheme, cond, row)
    ensures updated == if selected then Assigned(scheme, row, assignments) else Some(row)
  {
    selected := true;
    if cond.Some? {
      selected := EvaluateCondition(num, cond.value, row, scheme);
    }
    updated := Some(row);
    if selected {
      updated := AssignRow(scheme, row, assignments);
    }
  }

  method UpdateRows(num: NumberParser, scheme: seq<Column>, cond: Option<Condition>, assignments: seq<Assignment>,
                    allRows: seq<Row>, ghost texts: seq<string>) returns (newState: seq<Row>, matched: nat)
    requires |allRows| == |texts| && forall i | 0 <= i < |texts| :: allRows[i] == RowOf(texts[i])
    requires AssignmentsFit(scheme, assignments)
    ensures (newState, matched) == UpdatePreview(num, scheme, cond, assignments, texts)
  {
    hide Selects, RowOf, Assigned, Scanned, Updated;
    newState, matched := [], 0;
    var i := 0;
    assert texts[..0] == [] && texts[0..] == texts;
    UpdatedNone(num, scheme, cond, assignments);
    while i < |allRows|
      invariant i <= |allRows|
      invariant matched == |Scanned(num, scheme, cond, texts[..i])|
      invariant Updated(num, scheme, cond, assignments, texts[..i]) == Some(newState)
    {
      var updated, selected := UpdateOne(num, scheme, cond, assignments, allRows[i]);
      assert texts[..i + 1] == texts[..i] + [texts[i]];
      ScannedNext(num, scheme, cond, texts[..i], texts[i]);
      UpdatedNext(num, scheme, cond, assignments, texts[..i], texts[i]);
      if updated.None? {
        UpdatedStops(num, scheme, cond, assignments, texts, i + 1);
        return [], 0;
      }
      newState := newState + [updated.value];
      if selected {
        matched := matched + 1;
      }
      i := i + 1;
    }
    assert texts[..i] == texts;
    if matched == 0 {
      newState := [];
    }
  }

  lemma UpdatedNone(num: NumberParser, scheme: seq<Column>, cond: Option<Condition>, assignments: seq<Assignment>)
    ensures Updated(num, scheme, cond, assignments, []) == Some([]) && Scanned(num, scheme, cond, []) == []
  {
  }

  lemma ScannedNext(num: NumberParser, scheme: seq<Column>, cond: Option<Condition>, texts: seq<string>, t: string)
    ensures |Scanned(num, scheme, cond, texts + [t])|
            == |Scanned(num, scheme, cond, texts)| + if Selects(num, scheme, cond, RowOf(t)) then 1 else 0
  {
    ScannedAppend(num, scheme, cond, texts, [t]);
    assert [t][1..] == [];
    assert Scanned(num, scheme, cond, [t][1..]) == [];
  }

  lemma {:induction false} UpdatedNext(num: NumberParser, scheme: seq<Column>, cond: Option<Condition>,
                                       assignments: seq<Assignment>, texts: seq<string>, t: string)
    requires Updated(num, scheme, cond, assignments, texts).Some?
    ensures var row := RowOf(t);
            var next := if Selects(num, scheme, cond, row) then Assigned(scheme, row, assignments) else Some(row);
            Updated(num, scheme, cond, assignments, texts + [t])
            == if next.None? then None else Some(Updated(num, scheme, cond, assignments, texts).value + [next.value])
  {
    hide Selects, RowOf, Assigned;
    var row := RowOf(t);
    var next := if Selects(num, scheme, cond, row) then Assigned(scheme, row, assignments) else Some(row);
    if |texts| == 0 {
      assert texts + [t] == [t] && [t][1..] == [];
      assert Updated(num, scheme, cond, assignments, [t][1..]) == Some([]);
      if next.Some? {
        assert [next.value] + [] == [] + [next.value];
      }
    } else {
      assert (texts + [t])[1..] == texts[1..] + [t] && (texts + [t])[0] == texts[0];
      UpdatedNext(num, scheme, cond, assignments, texts[1..], t);
      if next.Some? {
        var all, rest := Updated(num, scheme, cond, assignments, texts).value,
                         Updated(num, scheme, cond, assignments, texts[1..]).value;
        Regroups([all[0]], rest, [next.value]);
      }
    }
  }

  /** One row that is too short stops the whole UPDATE. */
  lemma {:induction false} UpdatedStops(num: NumberParser, scheme: seq<Column>, cond: Option<Condition>,
                                        assignments: seq<Assignment>, texts: seq<string>, n: nat)
    requires n <= |texts| && Updated(num, scheme, cond, assignments, texts[..n]).None?
    ensures Updated(num, scheme, cond, assignments, texts).None?
  {
    hide Selects, RowOf, Assigned;
    if n > 0 {
      assert texts[..n][1..] == texts[1..][..n - 1];
      assert texts[..n][0] == texts[0];
      if Updated(num, scheme, cond, assignments, texts[1..][..n - 1]).None? {
        UpdatedStops(num, scheme, cond, assignments, texts[1..], n - 1);
      }
    }
  }

  // ---- What a rewrite stores --------------------------------------------------------------

  function TextsOf(rows: seq<Row>): (texts: seq<string>)
    ensures |texts| == |rows| && forall i | 0 <= i < |rows| :: texts[i] == RowText(rows[i])
  {
    seq(|rows|, i requires 0 <= i < |rows| => RowText(rows[i]))
  }

  /** The row can be stored when its key is not looked at. */
  predicate Storable(scheme: seq<Column>, row: Row)
  {
    ShapeError(scheme, row).None? && Fits(RowText(row))
  }

  /** Of the rows to be stored, the texts of those that are: the others are dropped silently. */
  function Survivors(scheme: seq<Column>, rows: seq<Row>): seq<string>
  {
    if |rows| == 0 then []
    else (if Storable(scheme, rows[0]) then [RowText(rows[0])] else []) + Survivors(scheme, rows[1..])
  }

  lemma SurvivorsNone(scheme: seq<Column>)
    ensures Survivors(scheme, []) == []
  {
  }

  lemma {:induction false} SurvivorsNext(scheme: seq<Column>, rows: seq<Row>, row: Row)
    ensures Survivors(scheme, rows + [row])
            == Survivors(scheme, rows) + if Storable(scheme, row) then [RowText(row)] else []
  {
    hide Storable, RowText;
    var last := if Storable(scheme, row) then [RowText(row)] else [];
    if |rows| == 0 {
      assert [row][1..] == [] && rows + [row] == [row];
    } else {
      assert (rows + [row])[1..] == rows[1..] + [row] && (rows + [row])[0] == rows[0];
      SurvivorsNext(scheme, rows[1..], row);
      Regroups(if Storable(scheme, rows[0]) then [RowText(rows[0])] else [], Survivors(scheme, rows[1..]), last);
    }
  }

  lemma {:induction false} SurvivorsAppend(scheme: seq<Column>, a: seq<Row>, b: seq<Row>)
    ensures Survivors(scheme, a + b) == Survivors(scheme, a) + Survivors(scheme, b)
  {
    hide Storable, RowText;
    if |a| == 0 {
      assert a + b == b;
    } else {
      assert (a + b)[1..] == a[1..] + b && (a + b)[0] == a[0];
      SurvivorsAppend(scheme, a[1..], b);
      Regroups(if Storable(scheme, a[0]) then [RowText(a[0])] else [], Survivors(scheme, a[1..]), Survivors(scheme, b));
    }
  }

  lemma SurvivorsOfPart(scheme: seq<Column>, rows: seq<Row>, n: nat)
    requires n <= |rows|
    ensures multiset(Survivors(scheme, rows[..n])) <= multiset(Survivors(scheme, rows))
  {
    hide Survivors;
    assert rows == rows[..n] + rows[n..];
    SurvivorsAppend(scheme, rows[..n], rows[n..]);
    var a, b := Survivors(scheme, rows[..n]), Survivors(scheme, rows[n..]);
    assert multiset(a + b) == multiset(a) + multiset(b);
  }

  lemma {:induction false} NoneSurvive(scheme: seq<Column>, rows: seq<Row>)
    ensures |Survivors(scheme, rows)| <= |rows|
    ensures Survivors(scheme, rows) == [] <==> forall i | 0 <= i < |rows| :: !Storable(scheme, rows[i])
  {
    hide Storable, RowText;
    if |rows| > 0 {
      NoneSurvive(scheme, rows[1..]);
      assert forall i | 0 <= i < |rows[1..]| :: rows[1..][i] == rows[i + 1];
      if forall i | 0 <= i < |rows[1..]| :: !Storable(scheme, rows[1..][i]) {
        forall i | 0 < i < |rows| ensures !Storable(scheme, rows[i]) {
          assert rows[i] == rows[1..][i - 1];
        }
      }
    }
  }

  /** The first `n` rows leave what all of them leave if and only if none of the others can be stored. */
  lemma PartSurvives(scheme: seq<Column>, rows: seq<Row>, n: nat)
    requires n <= |rows|
    ensures |multiset(Survivors(scheme, rows[..n]))| <= n
    ensures multiset(Survivors(scheme, rows[..n])) == multiset(Survivors(scheme, rows))
            <==> forall i | n <= i < |rows| :: !Storable(scheme, rows[i])
  {
    hide Survivors, Storable;
    var a, b := Survivors(scheme, rows[..n]), Survivors(scheme, rows[n..]);
    assert rows == rows[..n] + rows[n..];
    SurvivorsAppend(scheme, rows[..n], rows[n..]);
    NoneSurvive(scheme, rows[..n]);
    NoneSurvive(scheme, rows[n..]);
    assert multiset(a + b) == multiset(a) + multiset(b) && |multiset(a)| == |a|;
    assert b == [] <==> |multiset(b)| == 0;
    assert |multiset(a) + multiset(b)| == |multiset(a)| + |multiset(b)|;
    assert forall i | 0 <= i < |rows[n..]| :: rows[n..][i] == rows[n + i];
    if forall i | 0 <= i < |rows[n..]| :: !Storable(scheme, rows[n..][i]) {
      forall i | n <= i < |rows| ensures !Storable(scheme, rows[i]) {
        assert rows[i] == rows[n..][i - n];
      }
    }
  }

  /** Against the rows `before`, which were at least as many: the first `n` rows are a complete result, the old one or
      the new one, if and only if none of the others can be stored. */
  lemma PartIsComplete(scheme: seq<Column>, rows: seq<Row>, n: nat, before: multiset<string>)
    requires n <= |rows| <= |before|
    ensures var part := multiset(Survivors(scheme, rows[..n]));
            part == before || part == multiset(Survivors(scheme, rows))
            <==> forall i | n <= i < |rows| :: !Storable(scheme, rows[i])
  {
    hide Survivors, Storable;
    PartSurvives(scheme, rows, n);
  }

  /** A rewrite keeps every row if and only if each row has the right shape and fits a page. */
  lemma {:induction false} AllSurvive(scheme: seq<Column>, rows: seq<Row>)
    ensures |Survivors(scheme, rows)| <= |rows|
    ensures Survivors(scheme, rows) == TextsOf(rows) <==> forall row | row in rows :: Storable(scheme, row)
    ensures |Survivors(scheme, rows)| == |rows| ==> forall row | row in rows :: Storable(scheme, row)
  {
    hide Storable, RowText;
    if |rows| > 0 {
      var row, rest := rows[0], rows[1..];
      AllSurvive(scheme, rest);
      assert rows == [row] + rest;
      assert (forall r | r in rows :: Storable(scheme, r))
             <==> Storable(scheme, row) && forall r | r in rest :: Storable(scheme, r);
      var kept, texts := Survivors(scheme, rest), TextsOf(rest);
      assert TextsOf(rows) == [RowText(row)] + texts;
      if Storable(scheme, row) {
        SameTail(RowText(row), kept, texts);
      } else {
        assert [] + kept == kept;
      }
    }
  }

  lemma SameTail<T>(x: T, a: seq<T>, b: seq<T>)
    ensures [x] + a == [x] + b <==> a == b
  {
    assert ([x] + a)[1..] == a && ([x] + b)[1..] == b;
  }

  // ---- Rows that were stored before -------------------------------------------------------

  lemma {:induction false} LinedHolds(rows: seq<string>, i: nat)
    requires i < |rows|
    ensures |rows[i]| + 1 <= |Lined(rows)|
  {
    if i > 0 {
      LinedHolds(rows[1..], i - 1);
    }
  }

  /** Whatever is on a page fits a page. */
  lemma {:induction false} StoredFits(pages: seq<Image>, ids: seq<nat>)
    requires InFile(pages, ids) && forall k | 0 <= k < |ids| :: InUse(pages[ids[k]])
    ensures forall x | x in Located(pages, ids) :: Fits(x.text)
  {
    if |ids| > 0 {
      var p := pages[ids[0]];
      StoredFits(pages, ids[1..]);
      forall x | x in OnPage(ids[0], Rows(p)) ensures Fits(x.text) {
        var i :| 0 <= i < |Rows(p)| && Rows(p)[i] == x.text;
        LinedHolds(Rows(p), i);
        assert |Lined(Rows(p))| == p.nextRowOffset - HEADER_SIZE;
      }
    }
  }

  // ---- DELETE -----------------------------------------------------------------------------

  /** The stored texts that a condition does not select. */
  function Failing(num: NumberParser, scheme: seq<Column>, cond: Option<Condition>, texts: seq<string>): seq<string>
  {
    if |texts| == 0 then []
    else
      (if Selects(num, scheme, cond, RowOf(texts[0])) then [] else [texts[0]])
      + Failing(num, scheme, cond, texts[1..])
  }

  lemma HealthySurvives(scheme: seq<Column>, text: string)
    requires Healthy(scheme, text) && Fits(text)
    ensures RowText(RowOf(text)) == text && Storable(scheme, RowOf(text))
  {
  }

  /** DELETE leaves, byte for byte, the rows that fail the condition; the others are as many as it reports. */
  lemma {:induction false} DeleteLeavesFailing(num: NumberParser, scheme: seq<Column>, cond: Option<Condition>,
                                               texts: seq<string>)
    requires AllHealthy(scheme, texts) && forall t | t in texts :: Fits(t)
    ensures Survivors(scheme, Kept(num, scheme, cond, texts)) == Failing(num, scheme, cond, texts)
    ensures TextsOf(Kept(num, scheme, cond, texts)) == Failing(num, scheme, cond, texts)
    ensures |texts| - |Kept(num, scheme, cond, texts)| == |Scanned(num, scheme, cond, texts)|
  {
    hide Healthy, Storable, RowText, RowOf, Selects, Fits;
    if |texts| > 0 {
      var row, rest := RowOf(texts[0]), texts[1..];
      assert forall i | 0 <= i < |rest| :: rest[i] == texts[i + 1];
      HealthySurvives(scheme, texts[0]);
      DeleteLeavesFailing(num, scheme, cond, rest);
      var kept := Kept(num, scheme, cond, rest);
      if Selects(num, scheme, cond, row) {
        assert [] + kept == kept && [] + Failing(num, scheme, cond, rest) == Failing(num, scheme, cond, rest);
      } else {
        assert [] + Scanned(num, scheme, cond, rest) == Scanned(num, scheme, cond, rest);
        SurvivorsFirst(scheme, row, kept);
        TextsFirst(row, kept);
      }
    }
  }

  lemma SurvivorsFirst(scheme: seq<Column>, row: Row, rows: seq<Row>)
    requires Storable(scheme, row)
    ensures Survivors(scheme, [row] + rows) == [RowText(row)] + Survivors(scheme, rows)
  {
    assert ([row] + rows)[1..] == rows;
  }

  lemma TextsFirst(row: Row, rows: seq<Row>)
    ensures TextsOf([row] + rows) == [RowText(row)] + TextsOf(rows)
  {
  }

  /** As a bag, the table is what fails the condition and what satisfies it; nothing is lost or made up. */
  lemma {:induction false} DeleteConserves(num: NumberParser, scheme: seq<Column>, cond: Option<Condition>,
                                           texts: seq<string>)
    ensures forall t ::
              multiset(Failing(num, scheme, cond, texts))[t]
              == if Selects(num, scheme, cond, RowOf(t)) then 0 else multiset(texts)[t]
  {
    if |texts| > 0 {
      var rest := texts[1..];
      DeleteConserves(num, scheme, cond, rest);
      assert texts == [texts[0]] + rest;
      assert multiset(texts) == multiset{texts[0]} + multiset(rest);
      var failing := Failing(num, scheme, cond, rest);
      assert multiset([texts[0]] + failing) == multiset{texts[0]} + multiset(failing);
      assert [] + failing == failing;
    }
  }

  // ---- UPDATE -----------------------------------------------------------------------------

  /** The last assignment to each column counts; the other columns keep their values. */
  ghost predicate IsAssigned(scheme: seq<Column>, row: Row, row': Row, assignments: seq<Assignment>)
  {
    && |row'| == |row|
    && forall i | 0 <= i < |row| ::
         if exists k :: 0 <= k < |assignments| && ColumnIndex(scheme, assignments[k].column) == Some(i)
         then exists k :: 0 <= k < |assignments| && ColumnIndex(scheme, assignments[k].column) == Some(i)
                          && row'[i] == assignments[k].value
         else row'[i] == row[i]
  }

  lemma {:induction false} AssignedMeans(scheme: seq<Column>, row: Row, assignments: seq<Assignment>)
    requires AssignmentsFit(scheme, assignments) && |row| == |scheme|
    ensures Assigned(scheme, row, assignments).Some?
    ensures IsAssigned(scheme, row, Assigned(scheme, row, assignments).value, assignments)
    decreases |assignments|
  {
    if |assignments| > 0 {
      var a, rest := assignments[0], assignments[1..];
      assert forall k | 0 <= k < |rest| :: rest[k] == assignments[k + 1];
      var c := ColumnIndex(scheme, a.column).value;
      var middle := row[c := a.value];
      AssignedMeans(scheme, middle, rest);
      var row' := Assigned(scheme, middle, rest).value;
      forall i | 0 <= i < |row|
        ensures if exists k :: 0 <= k < |assignments| && ColumnIndex(scheme, assignments[k].column) == Some(i)
                then exists k :: 0 <= k < |assignments| && ColumnIndex(scheme, assignments[k].column) == Some(i)
                                 && row'[i] == assignments[k].value
                else row'[i] == row[i]
      {
        if k :| 0 <= k < |rest| && ColumnIndex(scheme, rest[k].column) == Some(i) {
          var l :| 0 <= l < |rest| && ColumnIndex(scheme, rest[l].column) == Some(i) && row'[i] == rest[l].value;
          assert assignments[l + 1] == rest[l];
        } else if i == c {
          assert row'[i] == assignments[0].value;
        } else {
          forall k | 0 <= k < |assignments| ensures ColumnIndex(scheme, assignments[k].column) != Some(i) {
            assert k > 0 ==> assignments[k] == rest[k - 1];
          }
        }
      }
    }
  }

  /** Every row is kept: those that match are updated, the others are unchanged. */
  lemma {:induction false} UpdateMeans(num: NumberParser, scheme: seq<Column>, cond: Option<Condition>,
                                       assignments: seq<Assignment>, texts: seq<string>)
    requires AssignmentsFit(scheme, assignments) && AllHealthy(scheme, texts)
    ensures Updated(num, scheme, cond, assignments, texts).Some?
    ensures var rows := Updated(num, scheme, cond, assignments, texts).value;
            && |rows| == |texts|
            && forall i | 0 <= i < |texts| ::
                 if Selects(num, scheme, cond, RowOf(texts[i]))
                 then Assigned(scheme, RowOf(texts[i]), assignments) == Some(rows[i])
                 else rows[i] == RowOf(texts[i])
    decreases |texts|
  {
    hide AssignmentsFit, IsAssigned, Selects, RowOf, Assigned;
    if |texts| > 0 {
      assert Healthy(scheme, texts[0]);
      var rest := texts[1..];
      assert forall i | 0 <= i < |rest| :: rest[i] == texts[i + 1];
      UpdateMeans(num, scheme, cond, assignments, rest);
      AssignedMeans(scheme, RowOf(texts[0]), assignments);
    }
  }

  lemma AssignedHasTypes(scheme: seq<Column>, row: Row, row': Row, assignments: seq<Assignment>)
    requires AssignmentsFit(scheme, assignments) && TypesFit(scheme, row) && IsAssigned(scheme, row, row', assignments)
    ensures TypesFit(scheme, row')
  {
    forall i | 0 <= i < |row'| ensures HasType(row'[i], scheme[i].kind) {
      if exists k :: 0 <= k < |assignments| && ColumnIndex(scheme, assignments[k].column) == Some(i) {
        var k :| 0 <= k < |assignments| && ColumnIndex(scheme, assignments[k].column) == Some(i)
                 && row'[i] == assignments[k].value;
      }
    }
  }

  /** After an UPDATE whose values have the columns' types, every row still has the table's shape. */
  lemma UpdateKeepsShape(num: NumberParser, scheme: seq<Column>, cond: Option<Condition>,
                         assignments: seq<Assignment>, texts: seq<string>)
    requires AssignmentsFit(scheme, assignments) && AllHealthy(scheme, texts)
    ensures Updated(num, scheme, cond, assignments, texts).Some?
    ensures forall row | row in Updated(num, scheme, cond, assignments, texts).value :: ShapeError(scheme, row).None?
  {
    UpdateMeans(num, scheme, cond, assignments, texts);
    var rows := Updated(num, scheme, cond, assignments, texts).value;
    forall row | row in rows ensures ShapeError(scheme, row).None? {
      var i :| 0 <= i < |rows| && rows[i] == row;
      assert Healthy(scheme, texts[i]);
      if Selects(num, scheme, cond, RowOf(texts[i])) {
        AssignedMeans(scheme, RowOf(texts[i]), assignments);
        AssignedHasTypes(scheme, RowOf(texts[i]), row, assignments);
      }
    }
  }

  /** The rows that a condition selects, and those that it leaves, are all the rows. */
  lemma {:induction false} ScannedAndKept(num: NumberParser, scheme: seq<Column>, cond: Option<Condition>,
                                          texts: seq<string>)
    ensures |Scanned(num, scheme, cond, texts)| + |Kept(num, scheme, cond, texts)| == |texts|
    ensures Scanned(num, scheme, cond, texts) != []
            <==> exists i :: 0 <= i < |texts| && Selects(num, scheme, cond, RowOf(texts[i]))
  {
    hide Selects, RowOf;
    if |texts| > 0 {
      var rest := texts[1..];
      ScannedAndKept(num, scheme, cond, rest);
      assert forall i | 0 <= i < |rest| :: rest[i] == texts[i + 1];
      if i :| 0 <= i < |texts| && Selects(num, scheme, cond, RowOf(texts[i])) {
        assert i > 0 ==> texts[i] == rest[i - 1];
      }
    }
  }

  /** An UPDATE whose assignments fit stores every row that matches with its assignments, and every other row as it was,
      and reports how many match. Without a match it stores nothing. */
  lemma UpdateStores(num: NumberParser, scheme: seq<Column>, cond: Option<Condition>, assignments: seq<Assignment>,
                     texts: seq<string>)
    requires AssignmentsFit(scheme, assignments) && AllHealthy(scheme, texts)
    ensures var (rows, matched) := UpdatePreview(num, scheme, cond, assignments, texts);
            && matched + |Kept(num, scheme, cond, texts)| == |texts|
            && if forall i | 0 <= i < |texts| :: !Selects(num, scheme, cond, RowOf(texts[i])) then rows == []
               else && |rows| == |texts|
                    && forall i | 0 <= i < |texts| ::
                         if Selects(num, scheme, cond, RowOf(texts[i]))
                         then IsAssigned(scheme, RowOf(texts[i]), rows[i], assignments)
                         else rows[i] == RowOf(texts[i])
  {
    hide Selects, RowOf, AssignmentsFit, IsAssigned, Scanned, Kept, Updated, ShapeError;
    ScannedAndKept(num, scheme, cond, texts);
    UpdateMeans(num, scheme, cond, assignments, texts);
    forall i | 0 <= i < |texts| ensures |RowOf(texts[i])| == |scheme| {
      assert Healthy(scheme, texts[i]);
      HealthySize(scheme, texts[i]);
    }
    forall i | 0 <= i < |texts| && Selects(num, scheme, cond, RowOf(texts[i]))
      ensures IsAssigned(scheme, RowOf(texts[i]), Assigned(scheme, RowOf(texts[i]), assignments).value, assignments)
    {
      AssignedMeans(scheme, RowOf(texts[i]), assignments);
    }
  }

  lemma HealthySize(scheme: seq<Column>, text: string)
    requires Healthy(scheme, text)
    ensures |RowOf(text)| == |scheme|
  {
  }
}
