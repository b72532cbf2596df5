// What statements mean: the rows that a table should have after them.
module Meanings {
  import opened Wrappers
  import opened StringUtils
  import opened Sql
  import opened SqlRoundTrip
  import opened Pages
  import opened Storage
  import opened TableRows
  import opened Values
  import opened TableIndex
  import opened Rewrites
  import opened Catalogs
  import opened Crashes
  import opened Statements
  import opened Engines

  // ---- What a statement is to do ----------------------------------------------------------

  /** The row that an INSERT means. */
  function RowMeant(scheme: seq<Column>, s: Statement): Row
    requires s.Insert? && Executable(s) && (s.columns == [] || ColumnsFit(scheme, s.columns))
  {
    if s.columns == [] then s.values else RowFor(scheme, s.columns, s.values)
  }

  /** The rows that an accepted DELETE or UPDATE leaves. */
  ghost function RowsMeant(num: NumberParser, d0: DiskState, s: Statement): seq<Row>
    requires !s.Insert?
  {
    var scheme, texts := SchemeOf(d0.catalog, s.table), StoredTexts(d0.pages, IdOf(d0.catalog, s.table));
    match s
    case Delete(_, condition) => Kept(num, scheme, condition, texts)
    case Update(_, assignments, condition) => UpdatePreview(num, scheme, condition, assignments, texts).0
  }

  /** The statement passes its checks and has something to do. */
  ghost predicate Effective(num: NumberParser, d0: DiskState, s: Statement)
    requires Executable(s)
  {
    var scheme, b := SchemeOf(d0.catalog, s.table), Bag(d0.pages, IdOf(d0.catalog, s.table));
    match s
    case Insert(_, columns, _) =>
      (columns == [] || ColumnsFit(scheme, columns)) && RowError(scheme, b, RowMeant(scheme, s)).None?
    case Delete(_, condition) => ConditionValid(scheme, condition)
    case Update(_, assignments, condition) =>
      && UpdateAllowed(scheme, assignments, condition)
      && KeyAssignmentsOk(scheme, assignments, RowsMeant(num, d0, s)) && RowsMeant(num, d0, s) != []
  }

  /** The rows of the statement's table once it has been executed. A row that fits no page is lost. */
  ghost function After(num: NumberParser, d0: DiskState, s: Statement): multiset<string>
    requires Executable(s)
  {
    var scheme, b := SchemeOf(d0.catalog, s.table), Bag(d0.pages, IdOf(d0.catalog, s.table));
    if !Effective(num, d0, s) then b
    else if s.Insert? then b + StoredOf(scheme, RowMeant(scheme, s))
    else multiset(Survivors(scheme, RowsMeant(num, d0, s)))
  }

  /** The statement is one that the parser produces, on a table that exists. */
  ghost predicate Regular(d0: DiskState, s: Statement)
  {
    Executable(s) && WellFormed(Positional(s)) && LineFor(d0.catalog, s.table).Some?
  }

  // ---- Tables in order --------------------------------------------------------------------

  /** Every page is free or has an owner, and every table has only readable rows with unique keys that fit an int. */
  ghost predicate TablesOk(d: DiskState)
  {
    && Owned(d)
    && forall i | 0 <= i < |d.catalog| :: HealthyBag(d.catalog[i].columns, Bag(d.pages, d.catalog[i].id))
  }

  lemma TableIsLive(lines: seq<TableLine>, table: string)
    requires CatalogOk(lines) && LineFor(lines, table).Some?
    ensures IsTable(lines, table, IdOf(lines, table)) && Live(lines, IdOf(lines, table)) && SchemeOf(lines, table) != []
  {
    FoundIsLine(lines, table);
  }

  lemma TableFacts(d: DiskState, table: string)
    requires TablesOk(d) && LineFor(d.catalog, table).Some?
    ensures var id, scheme := IdOf(d.catalog, table), SchemeOf(d.catalog, table);
            && IsTable(d.catalog, table, id) && Live(d.catalog, id) && scheme != []
            && HealthyBag(scheme, Bag(d.pages, id)) && PagesOk(d.pages)
  {
    TableIsLive(d.catalog, table);
    FoundIsLine(d.catalog, table);
  }

  lemma TextFacts(d: DiskState, table: string)
    requires TablesOk(d) && LineFor(d.catalog, table).Some?
    ensures var id, scheme := IdOf(d.catalog, table), SchemeOf(d.catalog, table);
            var texts := StoredTexts(d.pages, id);
            && multiset(texts) == Bag(d.pages, id) && AllHealthy(scheme, texts) && KeysUnique(scheme, multiset(texts))
            && forall t | t in texts :: Fits(t)
  {
    hide Healthy, Fits, Bag, StoredTexts;
    TableFacts(d, table);
    var id, scheme := IdOf(d.catalog, table), SchemeOf(d.catalog, table);
    var texts := StoredTexts(d.pages, id);
    StoredTextsAreBag(d.pages, id);
    forall i | 0 <= i < |texts| ensures Healthy(scheme, texts[i]) {
      assert texts[i] in multiset(texts);
    }
    StoredTextsFit(d.pages, id);
  }

  lemma StoredTextsFit(pages: seq<Image>, id: int)
    requires PagesOk(pages) && id != 0
    ensures forall t | t in StoredTexts(pages, id) :: Fits(t)
  {
    hide Fits, InUse, Located;
    TaggedCovers(pages, id);
    StoredFits(pages, Tagged(pages, id));
    var rows, texts := Located(pages, Tagged(pages, id)), StoredTexts(pages, id);
    forall t | t in texts ensures Fits(t) {
      var i :| 0 <= i < |texts| && texts[i] == t;
      assert rows[i] in rows && rows[i].text == t;
    }
  }

  /** The rows that a DELETE or UPDATE leaves are readable, their keys are unique, and none of them is empty. */
  lemma RowsMeantAreHealthy(num: NumberParser, d0: DiskState, s: Statement)
    requires TablesOk(d0) && !s.Insert? && LineFor(d0.catalog, s.table).Some? && Effective(num, d0, s)
    ensures HealthyBag(SchemeOf(d0.catalog, s.table), multiset(TextsOf(RowsMeant(num, d0, s))))
    ensures forall row | row in RowsMeant(num, d0, s) :: row != []
  {
    TableFacts(d0, s.table);
    TextFacts(d0, s.table);
    var scheme, texts := SchemeOf(d0.catalog, s.table), StoredTexts(d0.pages, IdOf(d0.catalog, s.table));
    match s
    case Delete(_, condition) =>
      DeletedRowsAreHealthy(num, scheme, condition, texts);
    case Update(_, assignments, condition) =>
      UpdateKeepsShape(num, scheme, condition, assignments, texts);
      UpdateKeepsKeys(num, scheme, condition, assignments, texts, RowsMeant(num, d0, s));
  }

  lemma DeletedRowsAreHealthy(num: NumberParser, scheme: seq<Column>, cond: Option<Condition>, texts: seq<string>)
    requires AllHealthy(scheme, texts) && KeysUnique(scheme, multiset(texts)) && (forall t | t in texts :: Fits(t))
    requires scheme != []
    ensures HealthyBag(scheme, multiset(TextsOf(Kept(num, scheme, cond, texts))))
    ensures forall row | row in Kept(num, scheme, cond, texts) :: row != []
  {
    DeleteLeavesFailing(num, scheme, cond, texts);
    DeleteConserves(num, scheme, cond, texts);
    var failing := multiset(Failing(num, scheme, cond, texts));
    forall t | t in multiset(texts) ensures Healthy(scheme, t) {
      assert t in texts;
    }
    assert failing <= multiset(texts);
    HealthyPart(scheme, failing, multiset(texts));
    KeptNotEmpty(num, scheme, cond, texts);
  }

  lemma {:induction false} KeptNotEmpty(num: NumberParser, scheme: seq<Column>, cond: Option<Condition>,
                                        texts: seq<string>)
    requires AllHealthy(scheme, texts) && scheme != []
    ensures forall row | row in Kept(num, scheme, cond, texts) :: row != []
  {
    if |texts| > 0 {
      assert Healthy(scheme, texts[0]);
      assert forall i | 0 <= i < |texts[1..]| :: texts[1..][i] == texts[i + 1];
      KeptNotEmpty(num, scheme, cond, texts[1..]);
    }
  }

  /** Any first part of the rows is as good as all of them. */
  lemma PartIsHealthy(scheme: seq<Column>, rows: seq<Row>, n: nat)
    requires HealthyBag(scheme, multiset(TextsOf(rows))) && n <= |rows|
    ensures HealthyBag(scheme, multiset(Survivors(scheme, rows[..n])))
  {
    hide HealthyBag, RowText, Survivors;
    SurvivorsPart(scheme, rows[..n]);
    var texts := TextsOf(rows);
    assert TextsOf(rows[..n]) == texts[..n] && texts == texts[..n] + texts[n..];
    assert multiset(texts) == multiset(texts[..n]) + multiset(texts[n..]);
    HealthyPart(scheme, multiset(Survivors(scheme, rows[..n])), multiset(texts));
  }

  /** DELETE and UPDATE leave at most as many rows as there were. */
  lemma NotMoreRows(num: NumberParser, d0: DiskState, s: Statement)
    requires !s.Insert? && TablesOk(d0) && LineFor(d0.catalog, s.table).Some? && Executable(s) && Effective(num, d0, s)
    ensures |RowsMeant(num, d0, s)| <= |Bag(d0.pages, IdOf(d0.catalog, s.table))|
  {
    TextFacts(d0, s.table);
    var scheme, texts := SchemeOf(d0.catalog, s.table), StoredTexts(d0.pages, IdOf(d0.catalog, s.table));
    assert |multiset(texts)| == |texts|;
    match s
    case Delete(_, condition) => DeleteLeavesFailing(num, scheme, condition, texts);
    case Update(_, assignments, condition) => UpdatedCount(num, scheme, condition, assignments, texts);
  }

  /** Tables stay in order when one of them gets other rows that are in order. */
  lemma TablesStayOk(d0: DiskState, d: DiskState, table: string)
    requires TablesOk(d0) && LineFor(d0.catalog, table).Some? && d.catalog == d0.catalog && PagesOk(d.pages)
    requires OthersKept(d0.pages, d.pages, IdOf(d0.catalog, table))
    requires HealthyBag(SchemeOf(d0.catalog, table), Bag(d.pages, IdOf(d0.catalog, table)))
    ensures TablesOk(d)
  {
    hide Bag, HealthyBag, OthersKept, PagesOk;
    var mine := IdOf(d0.catalog, table);
    TableIsLive(d0.catalog, table);
    OwnedWithin(d0, d, mine);
    forall i | 0 <= i < |d.catalog| ensures HealthyBag(d.catalog[i].columns, Bag(d.pages, d.catalog[i].id)) {
      if d.catalog[i].id == mine {
        FoundIsLine(d.catalog, table);
      } else {
        assert d.catalog[i].id != 0;
        BagOfOthers(d0.pages, d.pages, mine, d.catalog[i].id);
      }
    }
  }

  // ---- What a client is told --------------------------------------------------------------

  /** Column `i` is the first of that name. */
  ghost predicate IsColumn(scheme: seq<Column>, i: nat, name: string)
  {
    i < |scheme| && scheme[i].name == name && forall j | 0 <= j < i :: scheme[j].name != name
  }

  ghost predicate HasColumn(scheme: seq<Column>, name: string)
  {
    exists i: nat :: IsColumn(scheme, i, name)
  }

  /** A column list is accepted exactly if it names different columns of the table. */
  lemma ColumnsAcceptedIff(scheme: seq<Column>, columns: seq<string>)
    ensures ColumnsFit(scheme, columns)
            <==> && (forall k | 0 <= k < |columns| :: HasColumn(scheme, columns[k]))
                 && forall j, k | 0 <= j < k < |columns| :: columns[j] != columns[k]
  {
    hide IsColumn;
    forall k | 0 <= k < |columns| ensures HasColumn(scheme, columns[k]) <==> ColumnIndex(scheme, columns[k]).Some? {
      ColumnIsFirst(scheme, columns[k]);
    }
    hide HasColumn;
    if ColumnsFit(scheme, columns) {
      forall k | 0 <= k < |columns| ensures HasColumn(scheme, columns[k]) {
      }
    }
  }

  /** An assignment is to a column of the table, and its value has the type of the column. */
  ghost predicate CanAssign(scheme: seq<Column>, a: Assignment)
  {
    exists i: nat :: i < |scheme| && IsColumn(scheme, i, a.column) && HasType(a.value, scheme[i].kind)
  }

  /** Assignments are accepted exactly if each can be made and they are to different columns, and the condition makes
      sense. */
  lemma AssignmentsAcceptedIff(scheme: seq<Column>, assignments: seq<Assignment>, condition: Option<Condition>)
    ensures UpdateAllowed(scheme, assignments, condition)
            <==> && (forall k | 0 <= k < |assignments| :: CanAssign(scheme, assignments[k]))
                 && (forall j, k | 0 <= j < k < |assignments| :: assignments[j].column != assignments[k].column)
                 && ConditionValid(scheme, condition)
  {
    hide HasType, ConditionValid, IsColumn;
    forall k | 0 <= k < |assignments|
      ensures CanAssign(scheme, assignments[k])
              <==> (var i := ColumnIndex(scheme, assignments[k].column);
                    i.Some? && HasType(assignments[k].value, scheme[i.value].kind))
    {
      ColumnIsFirst(scheme, assignments[k].column);
    }
    hide CanAssign;
    if UpdateAllowed(scheme, assignments, condition) {
      forall k | 0 <= k < |assignments| ensures CanAssign(scheme, assignments[k]) {
      }
    }
    if forall k | 0 <= k < |assignments| :: CanAssign(scheme, assignments[k]) {
      assert AssignmentsFit(scheme, assignments);
    }
  }

  lemma ColumnIsFirst(scheme: seq<Column>, name: string)
    ensures ColumnIndex(scheme, name).Some? ==> IsColumn(scheme, ColumnIndex(scheme, name).value, name)
    ensures forall i: nat {:trigger IsColumn(scheme, i, name)} | IsColumn(scheme, i, name) ::
              ColumnIndex(scheme, name) == Some(i) && i < |scheme|
  {
    forall i: nat | IsColumn(scheme, i, name) ensures ColumnIndex(scheme, name) == Some(i) {
    }
  }

  /** The statement can be carried out in full: the row of an INSERT is accepted and fits a page, the condition of a
      DELETE makes sense, and so do the assignments of an UPDATE, whose keys stay distinct. */
  ghost predicate Succeeds(num: NumberParser, d0: DiskState, s: Statement)
    requires Executable(s)
  {
    var scheme := SchemeOf(d0.catalog, s.table);
    match s
    case Insert(_, _, _) => Effective(num, d0, s) && Fits(RowText(RowMeant(scheme, s)))
    case Delete(_, condition) => ConditionValid(scheme, condition)
    case Update(_, assignments, condition) =>
      UpdateAllowed(scheme, assignments, condition) && KeyAssignmentsOk(scheme, assignments, RowsMeant(num, d0, s))
  }

  /** The answer is a success exactly if the statement can be carried out, and after an error every row is as it was. */
  lemma AnswerMeans(num: NumberParser, d0: DiskState, s: Statement)
    requires Executable(s)
    ensures AnswerOf(num, false, d0, s).None? <==> Succeeds(num, d0, s)
    ensures AnswerOf(num, false, d0, s).Some? ==> After(num, d0, s) == Bag(d0.pages, IdOf(d0.catalog, s.table))
  {
    hide Bag, RowText, Fits, RowError, StoredTexts, UpdatePreview, Kept, ConditionValid, UpdateError, UpdateAllowed,
         KeyAssignmentsOk, Survivors;
    match s {
      case Insert(_, _, _) =>
        var b := Bag(d0.pages, IdOf(d0.catalog, s.table));
        assert b + multiset{} == b;
      case Delete(_, _) =>
      case Update(_, assignments, condition) =>
        UpdateAnswers(SchemeOf(d0.catalog, s.table), assignments, condition, RowsMeant(num, d0, s));
    }
  }

  /** After a success the number reported is right: one row more, as many less as satisfied the condition, or as many as
      matched it. */
  lemma AffectedMeans(num: NumberParser, d0: DiskState, s: Statement)
    requires Executable(s) && TablesOk(d0) && LineFor(d0.catalog, s.table).Some? && Succeeds(num, d0, s)
    ensures var scheme, b := SchemeOf(d0.catalog, s.table), Bag(d0.pages, IdOf(d0.catalog, s.table));
            var texts, n := StoredTexts(d0.pages, IdOf(d0.catalog, s.table)), AffectedBy(num, d0, s);
            && (s.Insert? ==> n == 1 && After(num, d0, s) == b + multiset{RowText(RowMeant(scheme, s))})
            && (s.Delete? ==> n == |Scanned(num, scheme, s.condition, texts)| == |b| - |After(num, d0, s)|)
            && (s.Update? ==> n == |Scanned(num, scheme, s.condition, texts)|)
  {
    hide Bag, RowText, StoredTexts, Healthy, Kept, Scanned, ConditionValid, Survivors, TablesOk, Fits, KeyTaken;
    var scheme, texts := SchemeOf(d0.catalog, s.table), StoredTexts(d0.pages, IdOf(d0.catalog, s.table));
    TextFacts(d0, s.table);
    match s {
      case Insert(_, _, _) =>
      case Delete(_, condition) =>
        ScannedAndKept(num, scheme, condition, texts);
        DeleteLeavesFailing(num, scheme, condition, texts);
        assert |multiset(texts)| == |texts|;
        var left := Survivors(scheme, Kept(num, scheme, condition, texts));
        assert |multiset(left)| == |left|;
      case Update(_, assignments, condition) =>
        hide ShapeError;
        ScannedAndKept(num, scheme, condition, texts);
        UpdateStores(num, scheme, condition, assignments, texts);
    }
  }
}
