// Concrete states of a database in which rows are lost or multiplied.
module Cases {
  import opened Wrappers
  import opened StringUtils
  import opened Sql
  import opened SqlText
  import opened Pages
  import opened Storage
  import opened TableRows
  import opened Values
  import opened TableIndex
  import opened Rewrites
  import opened Catalogs
  import opened WalFormat
  import opened Recovery
  import opened Crashes
  import opened Statements
  import opened Engines
  import opened Replays
  import opened Meanings
  import opened Integrity
  import opened Restarts
  import opened Safety
  import opened Runs
  import opened Limits

  // ---- One table with one row -------------------------------------------------------------

  const KEYED: seq<Column> := [Column("k", "INT")]
  const KEYLESS: seq<Column> := [Column("s", "STRING")]

  /** A database with the table `t`, whose only page holds one row. */
  function Database(columns: seq<Column>, text: string, lines: seq<string>): DiskState
    requires |text| < 100
  {
    EmptyInUse(0, 1);
    DiskState([WithRow(Empty(0, 1), text)], lines, [TableLine("t", 1, columns)])
  }

  lemma DatabaseNames(columns: seq<Column>, text: string, lines: seq<string>)
    requires |text| < 100 && columns != []
    ensures var d := Database(columns, text, lines);
            IsTable(d.catalog, "t", 1) && SchemeOf(d.catalog, "t") == columns && LineFor(d.catalog, "t").Some?
  {
    hide InUse, WithRow;
    assert Database(columns, text, lines).catalog[..0] == [];
  }

  lemma OnePageHolds(page: Image, tableId: int)
    requires page.tableId == tableId && tableId != 0
    ensures Bag([page], tableId) == multiset(Rows(page)) && StoredTexts([page], tableId) == Rows(page)
  {
    hide Rows;
    BagPut([], 0, page, tableId);
    assert Put([], 0, page) == [page];
    assert Bag([], tableId) == multiset{};
    assert Tagged([page][..0], tableId) == [] && Tagged([page], tableId) == [0];
    RowsOfFirst([page], [0]);
    RowsOfNone([page]);
    assert [0][1..] == [];
  }

  lemma DatabaseHolds(columns: seq<Column>, text: string, lines: seq<string>)
    requires |text| < 100 && '\n' !in text && columns != []
    ensures var d := Database(columns, text, lines);
            && PagesOk(d.pages) && OthersKept([], d.pages, 1) && Rows(d.pages[0]) == [text] && d.pages[0].tableId == 1
            && Bag(d.pages, 1) == multiset{text} && StoredTexts(d.pages, 1) == [text]
            && IsTable(d.catalog, "t", 1) && SchemeOf(d.catalog, "t") == columns && LineFor(d.catalog, "t").Some?
  {
    hide InUse, Rows, Bag, StoredTexts, LineFor, SchemeOf, IsTable;
    DatabaseNames(columns, text, lines);
    EmptyInUse(0, 1);
    AddedRowReadsBack(Empty(0, 1), text);
    OnePageHolds(WithRow(Empty(0, 1), text), 1);
  }

  lemma TableNameOk()
    ensures IsIdentifier("t") && IsIdentifier("k") && IsIdentifier("s")
  {
  }

  lemma RowTextOfOne(text: string)
    requires |text| == 1 && text[0] != '%' && text[0] != '|' && text[0] != '~' && text[0] != '\n' && text[0] != '\r'
    ensures RowText([Some(text)]) == text && RowOf(text) == [Some(text)]
  {
    assert EncodedFields([Some(text)]) == [Encoded(text)];
    assert Encoded(text) == EncodeChar(text[0]) + Encoded(text[1..]);
    assert Encoded(text[1..]) == "";
    RowRoundTrip([Some(text)]);
  }

  /** One column, one short row. */
  predicate Short(columns: seq<Column>, text: string)
  {
    (columns == KEYED && text == "1") || (columns == KEYLESS && text == "a")
  }

  lemma ShortIsHealthy(columns: seq<Column>, text: string)
    requires Short(columns, text)
    ensures RowText([Some(text)]) == text && RowOf(text) == [Some(text)]
    ensures Healthy(columns, text) && Storable(columns, [Some(text)]) && HealthyBag(columns, multiset{text})
    ensures Survivors(columns, [[Some(text)]]) == [text]
  {
    RowTextOfOne(text);
    if columns == KEYED {
      OneIsInt();
    }
    assert TypesFit(columns, [Some(text)]);
    assert [[Some(text)]][1..] == [] && Survivors(columns, [[Some(text)]][1..]) == [];
  }

  lemma OneIsInt()
    ensures IsInt("1") && Stoi("1") == Some(1)
  {
  }

  lemma DatabaseIsGood(columns: seq<Column>, text: string, lines: seq<string>)
    requires Short(columns, text) && LogOk([TableLine("t", 1, columns)], lines) && Leftovers(Pending(lines))
    ensures Good(Database(columns, text, lines))
  {
    hide Bag, HealthyBag, WithRow, Pending, LogOk, StoredTexts;
    DatabaseHolds(columns, text, lines);
    ShortIsHealthy(columns, text);
    var d := Database(columns, text, lines);
    assert d.catalog[0].id == 1;
    assert Live(d.catalog, 1);
  }

  lemma EmptyLogOk(catalog: seq<TableLine>)
    ensures LogOk(catalog, []) && Pending([]) == []
  {
    PlanOfNothing();
  }

  // ---- A DELETE that keeps the row --------------------------------------------------------

  lemma KeepingDelete(num: NumberParser, columns: seq<Column>, text: string, cond: Condition)
    requires Short(columns, text) && cond.column == columns[0].name && cond.op == "="
    requires (columns == KEYED && cond.value == Some("2") && ExactOnInts(num))
             || (columns == KEYLESS && cond.value == Some("b"))
    ensures Kept(num, columns, Some(cond), [text]) == [[Some(text)]] && ConditionValid(columns, Some(cond))
  {
    ShortIsHealthy(columns, text);
    assert ColumnIndex(columns, cond.column) == Some(0);
    if columns == KEYED {
      OneIsInt();
      TwoIsNumber();
      assert num("1") == Some(1.0) && num("2") == Some(2.0);
    }
    assert [text][1..] == [] && Kept(num, columns, Some(cond), [text][1..]) == [];
  }

  lemma TwoIsNumber()
    ensures IsInt("2") && Stoi("2") == Some(2) && IsFloat("2")
  {
  }

  /** A DELETE that was accepted, and the states in which it has just logged its first line, or all of them. */
  lemma BlockIsSeen(num: NumberParser, h0: seq<DiskState>, d0: DiskState, h: seq<DiskState>, d: DiskState,
                    condition: Option<Condition>, rows: seq<Row>)
    requires ReplaceDone(h0, d0, h, d, "t", condition, rows)
    ensures var block := BlockLines("t", condition, rows);
            && Seen(h0, d0, h, d, d0.(lines := d0.lines + [block[0]]))
            && Seen(h0, d0, h, d, d0.(lines := d0.lines + block))
  {
    hide LineOf, ReplaceRun, Whole, Survivors;
    var block := BlockLines("t", condition, rows);
    var h1 := h[..|h0| + |block|];
    assert block[..1] == [block[0]] && block[..|block|] == block;
    assert h[|h0|] == h1[|h0|] && h[|h1| - 1] == h1[|h1| - 1];
  }

  /** README.md:264-265 calls DELETE fully atomic. Here every DELETE that matches nothing goes through a state, behind
      the first line of its block, in which a crash loses the row: recovery empties the table, which held one row before
      and should hold it afterwards. */
  lemma TornDeleteLosesRow(num: NumberParser, h0: seq<DiskState>, h: seq<DiskState>, d: DiskState)
    requires ExactOnInts(num)
    requires Executed(num, false, h0, Database(KEYED, "1", []), h, d, Delete("t", Some(Condition("k", Some("2"), "="))))
    ensures var d0, s := Database(KEYED, "1", []), Delete("t", Some(Condition("k", Some("2"), "=")));
            var e := d0.(lines := [LineOf(LogReplaceBegin("t", s.condition))]);
            && Good(d0) && Regular(d0, s) && Bag(d0.pages, 1) == After(num, d0, s) == multiset{"1"}
            && Seen(h0, d0, h, d, e) && Recovered(e, 1) == multiset{}
  {
    hide Bag, WithRow, StoredTexts, Recovered, Good, LineOf, HealthyBag, Healthy, PagesOk, Whole, IsIdentifier, Seen,
         Kept, Survivors, ReplaceDone, Behind, LogOk, DiskOk, TablesOk, Storable, OthersKept;
    var cond := Condition("k", Some("2"), "=");
    var d0, s, row := Database(KEYED, "1", []), Delete("t", Some(cond)), [Some("1")];
    EmptyLogOk(d0.catalog);
    NoLeftovers();
    DatabaseIsGood(KEYED, "1", []);
    DatabaseHolds(KEYED, "1", []);
    ShortIsHealthy(KEYED, "1");
    TableNameOk();
    KeepingDelete(num, KEYED, "1", cond);
    BlockIsSeen(num, h0, d0, h, d, s.condition, [row]);
    var x, block := Replacement("t", Some(cond), [row]), BlockLines("t", Some(cond), [row]);
    var e := d0.(lines := [block[0]]);
    assert [] + [block[0]] == [block[0]] == block[..1];
    GoodFacts(d0);
    TornBlockRecovers(d0, e, x, 1, 1);
    assert x.rows[..0] == [];
    SurvivorsNone(KEYED);
  }

  // ---- An INSERT that is done -------------------------------------------------------------

  /** The row on a page of its own, behind all others. */
  function OnNewPage(pages: seq<Image>, id: int, text: string): seq<Image>
    requires |text| < 100
  {
    EmptyInUse(|pages|, id);
    pages + [WithRow(Empty(|pages|, id), text)]
  }

  lemma NewPageHolds(pages: seq<Image>, id: int, text: string)
    requires PagesOk(pages) && |text| < 100 && '\n' !in text && id != 0
    ensures PagesOk(OnNewPage(pages, id, text)) && OthersKept(pages, OnNewPage(pages, id, text), id)
    ensures Bag(OnNewPage(pages, id, text), id) == Bag(pages, id) + multiset{text}
  {
    EmptyInUse(|pages|, id);
    AddedRowReadsBack(Empty(|pages|, id), text);
    BagPut(pages, |pages|, WithRow(Empty(|pages|, id), text), id);
    assert Bag(pages, id) + multiset(Rows(WithRow(Empty(|pages|, id), text))) == Bag(pages, id) + multiset{text};
    assert Bag(OnNewPage(pages, id, text), id) + multiset{} == Bag(OnNewPage(pages, id, text), id);
  }

  /** One way in which an accepted row is stored: logged, written to a new page, committed. */
  lemma InsertHappens(h0: seq<DiskState>, d0: DiskState, table: string, row: Row, id: int)
    returns (h: seq<DiskState>, d: DiskState, logged: DiskState, stored: DiskState)
    requires PagesOk(d0.pages) && IsTable(d0.catalog, table, id) && |RowText(row)| < 100
    requires RowError(SchemeOf(d0.catalog, table), Bag(d0.pages, id), row).None?
    ensures InsertDone(h0, d0, h, d, table, row, false)
    ensures logged == d0.(lines := d0.lines + [LineOf(LogInsert(table, row))])
    ensures stored == logged.(pages := OnNewPage(d0.pages, id, RowText(row)))
            && d == stored.(lines := stored.lines + [COMMIT])
    ensures h == h0 + [logged, stored, d]
  {
    hide Bag, LineOf, RowText, OnNewPage, RowError, PagesOk, OthersKept;
    var line, text := LineOf(LogInsert(table, row)), RowText(row);
    RowTextOneLine(row);
    NewPageHolds(d0.pages, id, text);
    SamePages(d0, id);
    logged := d0.(lines := d0.lines + [line]);
    stored := logged.(pages := OnNewPage(d0.pages, id, text));
    d := stored.(lines := stored.lines + [COMMIT]);
    h := h0 + [logged, stored, d];
    assert d0.lines + [line] + [COMMIT] == d0.lines + [line, COMMIT];
    assert h[..|h0|] == h0;
    forall k | |h0| <= k < |h| ensures InsertStep(d0, h[k], id, line, text) {
      assert h[k] == [logged, stored, d][k - |h0|];
    }
  }

  lemma JobHappens(num: NumberParser, h0: seq<DiskState>, d0: DiskState, table: string, row: Row, id: int)
    returns (h: seq<DiskState>, d: DiskState, logged: DiskState, stored: DiskState)
    requires PagesOk(d0.pages) && IsTable(d0.catalog, table, id) && |RowText(row)| < 100
    requires RowError(SchemeOf(d0.catalog, table), Bag(d0.pages, id), row).None? && row != []
    ensures JobDone(num, h0, d0, Run(Insert(table, [], row)), h, d) && |h| == |h0| + 4 && h[|h0|] == logged
            && h[|h0| + 1] == stored
    ensures logged == d0.(lines := d0.lines + [LineOf(LogInsert(table, row))])
    ensures stored == logged.(pages := OnNewPage(d0.pages, id, RowText(row)))
    ensures d == stored.(lines := stored.lines + [COMMIT, COMMIT])
  {
    hide Bag, LineOf, RowText, OnNewPage, RowError, PagesOk, InsertDone;
    var h1, d1;
    h1, d1, logged, stored := InsertHappens(h0, d0, table, row, id);
    d := d1.(lines := d1.lines + [COMMIT]);
    h := h1 + [d];
    ThenCommitted(h1, d1);
    assert stored.lines + [COMMIT] + [COMMIT] == stored.lines + [COMMIT, COMMIT];
    assert Executed(num, false, h0, d0, h1, d1, Insert(table, [], row));
  }

  lemma KeylessHasNoError(scheme: seq<Column>, b: multiset<string>, row: Row)
    requires Keyless(scheme, row)
    ensures RowError(scheme, b, row).None?
  {
  }

  /** Copies of a row without a key can be replayed one after another. */
  lemma {:induction false} CopiesHappen(num: NumberParser, h0: seq<DiskState>, d0: DiskState, x: Suffix,
                                        plan: seq<Job>, id: int)
    returns (h: seq<DiskState>, d: DiskState)
    requires x.Insertion? && PagesOk(d0.pages) && IsTable(d0.catalog, x.table, id) && |RowText(x.row)| < 100
             && x.row != []
    requires Keyless(SchemeOf(d0.catalog, x.table), x.row) && forall i | 0 <= i < |plan| :: Asks(x, plan[i])
    ensures Replayed(num, h0, d0, plan, h, d)
    decreases |plan|
  {
    hide Bag, RowText, OnNewPage, RowError, PagesOk, JobDone, Keyless, LineOf;
    if |plan| == 0 {
      h, d := h0, d0;
    } else {
      KeylessHasNoError(SchemeOf(d0.catalog, x.table), Bag(d0.pages, id), x.row);
      var h1, d1, logged, stored := JobHappens(num, h0, d0, x.table, x.row, id);
      RowTextOneLine(x.row);
      NewPageHolds(d0.pages, id, RowText(x.row));
      assert forall i | 0 <= i < |plan[1..]| :: plan[1..][i] == plan[i + 1];
      h, d := CopiesHappen(num, h1, d1, x, plan[1..], id);
    }
  }

  // ---- A row without a key ----------------------------------------------------------------

  const ROW: Row := [Some("a")]

  function InsertLine(): string
  {
    LineOf(LogInsert("t", ROW))
  }

  function Copy(n: nat): Suffix
  {
    Suffix.Insertion("t", ROW, n)
  }

  /** The table is empty, and the INSERT of the row was logged `n` times. */
  function Waiting(n: nat): DiskState
  {
    DiskState([], Copies(n, InsertLine()), [TableLine("t", 1, KEYLESS)])
  }

  lemma CopyIsKeyless()
    ensures RowText(ROW) == "a" && Keyless(KEYLESS, ROW) && SuffixLoggable(Copy(1))
            && forall n: nat :: SuffixLoggable(Copy(n))
  {
    ShortIsHealthy(KEYLESS, "a");
    TableNameOk();
  }

  lemma NoPages()
    ensures PagesOk([]) && Bag([], 1) == multiset{} && forall id :: Bag([], id) == multiset{}
  {
  }

  lemma WaitingTable(n: nat)
    ensures IsTable(Waiting(n).catalog, "t", 1) && SchemeOf(Waiting(n).catalog, "t") == KEYLESS
            && LineFor(Waiting(n).catalog, "t").Some?
  {
    assert Waiting(n).catalog[..0] == [];
  }

  lemma {:induction false} CopiesWait(n: nat)
    ensures Awaits(Copies(n, InsertLine()), Copy(n))
  {
    hide Pending, LineOf, EntryOf, SuffixLoggable, Unflagged;
    CopyIsKeyless();
    if n == 0 {
      EmptyLogWaits();
      assert Copies(0, InsertLine()) == [];
    } else {
      CopiesWait(n - 1);
      var lines := Copies(n - 1, InsertLine());
      assert lines + [InsertLine()] == Copies(n, InsertLine());
      BehindNothing(lines, Copy(n - 1));
      InsertPends(lines, Copies(n, InsertLine()), [], Copy(n - 1), InsertLine());
      BehindNothing(Copies(n, InsertLine()), Copy(n));
    }
  }

  lemma EmptyLogWaits()
    ensures Unflagged([]) && Pending([]) == [] && SuffixEntries(Copy(0)) == []
  {
  }

  lemma WaitingIsOk(n: nat)
    ensures DiskOk(Waiting(n)) && (n == 0 ==> Good(Waiting(n)))
  {
    hide Pending, LineOf, EntryOf, Unflagged, Plan, Loggable, HealthyBag;
    CopiesWait(n);
    CopyIsKeyless();
    NoPages();
    EmptyIsHealthy(KEYLESS);
    PlanOfSuffix(Copy(n));
    TableNameOk();
    CopiesAreWritten(n);
  }

  lemma CopiesAreWritten(n: nat)
    ensures Written(SuffixEntries(Copy(n)))
  {
    TableNameOk();
  }

  /** What a state in which `m` copies are stored and `n` are pending recovers to. */
  lemma CopiesRecover(d: DiskState, n: nat)
    requires d.catalog == Waiting(0).catalog && d.lines == Copies(n, InsertLine())
    ensures Recovered(d, 1) == Bag(d.pages, 1) + Times("a", n)
  {
    hide Pending, LineOf, EntryOf, SuffixLoggable, Unflagged, Recovered, Bag;
    CopiesWait(n);
    BehindNothing(d.lines, Copy(n));
    NoLeftovers();
    CopyIsKeyless();
    WaitingTable(0);
    KeylessRecovers(d, [], Copy(n), 1);
  }

  /** An INSERT of the row behind `n` logged ones: another line, then the row on its page, then the COMMIT. */
  lemma CopyIsStored(n: nat, h0: seq<DiskState>, h: seq<DiskState>, d: DiskState, failed: bool) returns (e: DiskState)
    requires InsertDone(h0, Waiting(n), h, d, "t", ROW, failed)
    ensures |h0| + 1 < |h| && h[|h0|] == Waiting(n + 1) && h[|h| - 2] == e
    ensures Recovered(e, 1) == Times("a", n + 2)
  {
    hide Bag, LineOf, RowText, RowError, Keyless, InsertRun, OthersKept, PagesOk, Recovered;
    CopyIsKeyless();
    WaitingTable(n);
    NoPages();
    KeylessHasNoError(KEYLESS, Bag([], 1), ROW);
    KeylessStored(KEYLESS, ROW);
    assert Copies(n, InsertLine()) + [InsertLine()] == Copies(n + 1, InsertLine());
    e := d.(lines := Copies(n + 1, InsertLine()));
    CopiesRecover(e, n + 1);
    assert Bag(e.pages, 1) == multiset{} + multiset{"a"};
    assert multiset{"a"} + Times("a", n + 1) == Times("a", n + 2);
  }

  /** Every recovery that finds `n` copies logs one more, and stores one before it commits: interrupted behind the line,
      it leaves `n + 1` copies, interrupted behind the page, `n + 2` rows, and completed `n` rows. */
  lemma WaitingRecovers(num: NumberParser, n: nat, h0: seq<DiskState>, h: seq<DiskState>, d: DiskState)
    returns (e: DiskState)
    requires n >= 1 && Recovers(num, h0, Waiting(n), h, d)
    ensures Seen(h0, Waiting(n), h, d, Waiting(n + 1))
    ensures Seen(h0, Waiting(n), h, d, e) && Recovered(e, 1) == Times("a", n + 2)
    ensures Bag(d.pages, 1) == Times("a", n)
  {
    hide LineOf, RowText, Plan, Pending, RowError, KeyOf, Loggable, InsertDone, Recovered, Bag, DiskOk;
    CopyIsKeyless();
    CopiesWait(n);
    PlanOfSuffix(Copy(n));
    var plan := Plan(Pending(Waiting(n).lines));
    var h1: seq<DiskState>, d1: DiskState :|
      JobDone(num, h0, Waiting(n), plan[0], h1, d1) && Replayed(num, h1, d1, plan[1..], h, d);
    var h2, d2 := h1[..|h1| - 1], Before(d1);
    e := CopyIsStored(n, h0, h2, d2, !InsertDone(h0, Waiting(n), h2, d2, "t", ROW, false));
    ReplayedExtends(num, h1, d1, plan[1..], h, d);
    assert h[|h0|] == h1[|h0|] == h2[|h0|] && h[|h2| - 2] == h1[|h2| - 2] == h2[|h2| - 2];
    WaitingIsOk(n);
    RecoveryArrives(num, h0, Waiting(n), h, d);
    CopiesRecover(Waiting(n), n);
    NoPages();
    assert multiset{} + Times("a", n) == Times("a", n);
  }

  /** The INSERT of the row into the empty table. */
  lemma FirstCopyIsStored(num: NumberParser, h0: seq<DiskState>, h: seq<DiskState>, d: DiskState) returns (e: DiskState)
    requires Executed(num, false, h0, Waiting(0), h, d, Insert("t", [], ROW))
    ensures Seen(h0, Waiting(0), h, d, Waiting(1)) && Seen(h0, Waiting(0), h, d, e) && Recovered(e, 1) == Times("a", 2)
  {
    hide InsertDone, Recovered;
    e := CopyIsStored(0, h0, h, d, !InsertDone(h0, Waiting(0), h, d, "t", ROW, false));
  }

  /** A row of a table without a key: every INSERT goes through a state, between its page and its COMMIT, in which a
      crash has it stored twice. */
  lemma KeylessRowTwice(num: NumberParser, h0: seq<DiskState>, h: seq<DiskState>, d: DiskState) returns (e: DiskState)
    requires Executed(num, false, h0, Waiting(0), h, d, Insert("t", [], ROW))
    ensures Good(Waiting(0)) && Bag(Waiting(0).pages, 1) == multiset{}
    ensures Seen(h0, Waiting(0), h, d, e) && Recovered(e, 1) == multiset{"a", "a"}
  {
    hide Bag, Recovered, Good, Executed, Seen;
    WaitingIsOk(0);
    NoPages();
    e := FirstCopyIsStored(num, h0, h, d);
    assert Times("a", 2) == multiset{"a", "a"};
  }

  /** A crash before the row reaches its page is harmless, unless recovery is interrupted as well: every recovery goes
      through a state, between the row's page and the COMMIT, from which the next recovery stores it three times. */
  lemma KeylessRowThrice(num: NumberParser, h0: seq<DiskState>, h: seq<DiskState>, d: DiskState)
    requires Executed(num, false, h0, Waiting(0), h, d, Insert("t", [], ROW))
    ensures Seen(h0, Waiting(0), h, d, Waiting(1)) && Recovered(Waiting(1), 1) == multiset{"a"}
    ensures forall h1: seq<DiskState>, h2: seq<DiskState>, d2: DiskState | Recovers(num, h1, Waiting(1), h2, d2) ::
              exists e :: Seen(h1, Waiting(1), h2, d2, e) && Recovered(e, 1) == multiset{"a", "a", "a"}
  {
    hide Bag, Recovered, Executed, Seen, Recovers;
    var _ := FirstCopyIsStored(num, h0, h, d);
    NoPages();
    CopiesRecover(Waiting(1), 1);
    assert multiset{} + Times("a", 1) == multiset{"a"} && Times("a", 3) == multiset{"a", "a", "a"};
    forall h1: seq<DiskState>, h2: seq<DiskState>, d2: DiskState | Recovers(num, h1, Waiting(1), h2, d2)
      ensures exists e :: Seen(h1, Waiting(1), h2, d2, e) && Recovered(e, 1) == multiset{"a", "a", "a"}
    {
      var e := WaitingRecovers(num, 1, h1, h2, d2);
    }
  }

  lemma WaitingIsInterrupted(num: NumberParser, n: nat)
    requires n >= 1
    ensures InterruptedAt(num, Waiting(n), Waiting(n + 1)) && exists d :: Restarted(num, Waiting(n), d)
  {
    hide LineOf, RowText, JobDone, Plan, Pending, Loggable, Keyless, Seen;
    CopyIsKeyless();
    WaitingTable(n);
    NoPages();
    CopiesWait(n);
    PlanOfSuffix(Copy(n));
    var h, d := CopiesHappen(num, [], Waiting(n), Copy(n), Plan(Pending(Waiting(n).lines)), 1);
    assert Recovers(num, [], Waiting(n), h, d);
    var _ := WaitingRecovers(num, n, [], h, d);
    assert Restarted(num, Waiting(n), d);
  }

  /** There is no bound: after a crash behind the first line of the INSERT, recovery that is interrupted often enough,
      each time behind the line that it logs, stores the row any number of times. */
  lemma {:induction false} KeylessRowOften(num: NumberParser, m: nat, n: nat)
    returns (attempts: seq<DiskState>, d: DiskState)
    requires 1 <= m <= n
    ensures RestartedAfter(num, Waiting(m), attempts, d) && |attempts| == n - m && Bag(d.pages, 1) == Times("a", n)
    decreases n - m
  {
    hide Bag, LineOf, Recovered, InterruptedAt, DiskOk, Restarted, Good;
    WaitingIsInterrupted(num, m);
    WaitingIsOk(m);
    if m == n {
      d :| Restarted(num, Waiting(m), d);
      attempts := [];
      RestartArrives(num, Waiting(m), [], d);
      CopiesRecover(Waiting(m), m);
      NoPages();
      assert multiset{} + Times("a", n) == Times("a", n);
    } else {
      var rest;
      rest, d := KeylessRowOften(num, m + 1, n);
      attempts := [Waiting(m + 1)] + rest;
      assert attempts[1..] == rest;
    }
  }

  // ---- Rows that fit no page --------------------------------------------------------------

  function Long(): (s: string)
    ensures |s| == PAGE_SIZE
  {
    seq(PAGE_SIZE, _ => 'x')
  }

  lemma {:induction false} EncodedNotShorter(s: string)
    ensures |Encoded(s)| >= |s|
  {
    if |s| > 0 {
      EncodedNotShorter(s[1..]);
    }
  }

  lemma LongFitsNot()
    ensures !Fits(RowText([Some(Long())])) && ShapeError(KEYLESS, [Some(Long())]).None?
            && KeyOf(KEYLESS, [Some(Long())]).None?
    ensures Survivors(KEYLESS, [[Some(Long())]]) == []
  {
    var long := Long();
    hide Long, Encoded;
    EncodedNotShorter(long);
    assert EncodedFields([Some(long)]) == [Encoded(long)];
    assert [[Some(long)]][1..] == [] && Survivors(KEYLESS, [[Some(long)]][1..]) == [];
  }

  /** What the UPDATE makes of the only row. */
  lemma LongUpdate(num: NumberParser)
    ensures UpdatePreview(num, KEYLESS, None, [Assignment("s", Some(Long()))], ["a"]) == ([[Some(Long())]], 1)
    ensures UpdateAllowed(KEYLESS, [Assignment("s", Some(Long()))], None)
    ensures KeyAssignmentsOk(KEYLESS, [Assignment("s", Some(Long()))], [[Some(Long())]])
  {
    hide Stoi;
    var assignments, row := [Assignment("s", Some(Long()))], [Some("a")];
    ShortIsHealthy(KEYLESS, "a");
    assert ColumnIndex(KEYLESS, "s") == Some(0);
    assert assignments[1..] == [];
    assert row[0 := Some(Long())][0] == Some(Long());
    assert row[0 := Some(Long())] == [Some(Long())];
    assert Assigned(KEYLESS, row[0 := Some(Long())], assignments[1..]) == Some([Some(Long())]);
    assert Assigned(KEYLESS, row, assignments) == Some([Some(Long())]);
    assert ["a"][1..] == [];
    assert Updated(num, KEYLESS, None, assignments, ["a"][1..]) == Some([]);
    assert RowOf(["a"][0]) == row && [[Some(Long())]] + [] == [[Some(Long())]];
    assert Updated(num, KEYLESS, None, assignments, ["a"]) == Some([[Some(Long())]]);
    assert Scanned(num, KEYLESS, None, ["a"][1..]) == [];
    assert |Scanned(num, KEYLESS, None, ["a"])| == 1;
  }

  /** An accepted UPDATE that makes the only row too long for a page leaves an empty table, without an error. */
  lemma OversizedUpdateLosesRow(num: NumberParser)
    ensures var d0, s := Database(KEYLESS, "a", []), Update("t", [Assignment("s", Some(Long()))], None);
            && Good(d0) && Regular(d0, s) && Effective(num, d0, s)
            && Bag(d0.pages, 1) == multiset{"a"} && After(num, d0, s) == multiset{}
  {
    hide Bag, WithRow, StoredTexts, Good, HealthyBag, Healthy, UpdatePreview, UpdateAllowed, KeyAssignmentsOk,
         Survivors;
    var d0 := Database(KEYLESS, "a", []);
    EmptyLogOk(d0.catalog);
    NoLeftovers();
    DatabaseIsGood(KEYLESS, "a", []);
    DatabaseHolds(KEYLESS, "a", []);
    TableNameOk();
    LongUpdate(num);
    LongFitsNot();
  }

  // ---- An INSERT that fits no page, and a DELETE behind it --------------------------------

  function LongLine(): string
  {
    LineOf(LogInsert("t", [Some(Long())]))
  }

  lemma LongLinePends()
    ensures Unflagged([LongLine()]) && Pending([LongLine()]) == [EntryOf(LogInsert("t", [Some(Long())]))]
    ensures Oversized(EntryOf(LogInsert("t", [Some(Long())])))
    ensures forall catalog :: LogOk(catalog, [LongLine()])
  {
    hide Pending, LineOf, EntryOf, Unflagged, LogOk, Long;
    var r := LogInsert("t", [Some(Long())]);
    TableNameOk();
    EmptyLogWaits();
    PendingLogged([], r);
    assert [] + [LongLine()] == [LongLine()] && [] + [EntryOf(r)] == [EntryOf(r)];
    LongFitsNot();
    InsertCopyReads(Suffix.Insertion("t", [Some(Long())], 1));
    forall catalog ensures LogOk(catalog, [LongLine()]) {
      EmptyLogOk(catalog);
      InsertedLogOk(catalog, [], "t", [Some(Long())]);
    }
  }

  /** The DELETE that keeps the row, behind the failed INSERT. */
  function KeepingCondition(): Condition
  {
    Condition("s", Some("b"), "=")
  }

  function DeletingBlock(): Suffix
  {
    Replacement("t", Some(KeepingCondition()), [ROW])
  }

  lemma DeletingBlockIsOk()
    ensures SuffixLoggable(DeletingBlock()) && RowText(ROW) == "a" && Survivors(KEYLESS, [ROW]) == ["a"]
    ensures JobOk([TableLine("t", 1, KEYLESS)], Restore("t", [ROW]))
  {
    ShortIsHealthy(KEYLESS, "a");
    TableNameOk();
    WaitingTable(0);
  }

  lemma LongPending()
    ensures Leftovers(Pending([LongLine()])) && Unflagged([LongLine()])
  {
    hide Pending, Long, LineOf;
    LongLinePends();
  }

  /** The table with its row, behind the failed INSERT. */
  function AfterFailure(): DiskState
  {
    Database(KEYLESS, "a", [LongLine()])
  }

  /** What is pending when a state of the DELETE was reached in which all its lines are logged. */
  lemma DeletingState(num: NumberParser, h0: seq<DiskState>, h: seq<DiskState>, d: DiskState, e: DiskState)
    requires ReplaceDone(h0, AfterFailure(), h, d, "t", Some(KeepingCondition()), [ROW])
    requires Seen(h0, AfterFailure(), h, d, e)
    requires e.lines == [LongLine()] + BlockLines("t", Some(KeepingCondition()), [ROW])
    ensures DiskOk(e) && e.catalog == AfterFailure().catalog && Recovered(e, 1) == multiset{"a"}
    ensures Behind(e.lines, [EntryOf(LogInsert("t", [Some(Long())]))], DeletingBlock())
  {
    hide Bag, WithRow, LineOf, Long, LogOk, Pending, JobOk, Behind, Recovered, Survivors, Unflagged, EntryOf,
         SuffixLoggable, DiskOk, ReplaceStep, Seen, Whole, StoredTexts, IsTable, PagesOk, OthersKept;
    var d0, x := AfterFailure(), DeletingBlock();
    LongLinePends();
    LongPending();
    DatabaseIsGood(KEYLESS, "a", [LongLine()]);
    DatabaseHolds(KEYLESS, "a", [LongLine()]);
    DeletingBlockIsOk();
    GoodIsOk(d0);
    StepOfDelete(h0, d0, h, d, Some(KeepingCondition()), [ROW], e);
    ReplaceStepOk(d0, e, x);
    ReplaceSurvives(d0, e, x, 1);
    var q, y := WholePends(d0, e, x, 1);
  }

  /** A state of a DELETE in which all lines are logged, and not the COMMIT. */
  lemma StepOfDelete(h0: seq<DiskState>, d0: DiskState, h: seq<DiskState>, d: DiskState, condition: Option<Condition>,
                     rows: seq<Row>, e: DiskState)
    requires ReplaceDone(h0, d0, h, d, "t", condition, rows) && Seen(h0, d0, h, d, e) && PagesOk(d0.pages)
    requires e.lines == d0.lines + BlockLines("t", condition, rows)
    ensures var id, block := IdOf(d0.catalog, "t"), BlockLines("t", condition, rows);
            var result := multiset(Survivors(SchemeOf(d0.catalog, "t"), rows));
            ReplaceStep(d0, e, id, block, result) && Whole(d0, e, id, block, result)
  {
    hide Bag, Survivors, BlockLines, PagesOk, OthersKept, BlockFirst;
    var id, block := IdOf(d0.catalog, "t"), BlockLines("t", condition, rows);
    assert |block| > 0 && e != d0;
    assert ReplaceStep(d0, e, id, block, multiset(Survivors(SchemeOf(d0.catalog, "t"), rows)));
    if j: nat :| 0 < j && Torn(d0, e, block, j) {
      TornWhole(d0, e, block, j);
      SamePages(d0, id);
    }
  }

  lemma TornWhole(d0: DiskState, e: DiskState, block: seq<string>, j: nat)
    requires Torn(d0, e, block, j) && e.lines == d0.lines + block
    ensures e.pages == d0.pages && e.catalog == d0.catalog
  {
  }

  /** Recovery of the DELETE, behind the failed INSERT, forgets it, and then empties the table. */
  lemma DeletingIsForgotten(num: NumberParser, h0: seq<DiskState>, d0: DiskState, h: seq<DiskState>, d: DiskState)
    returns (e: DiskState)
    requires DiskOk(d0) && Recovers(num, h0, d0, h, d) && IsTable(d0.catalog, "t", 1)
    requires Behind(d0.lines, [EntryOf(LogInsert("t", [Some(Long())]))], DeletingBlock())
    ensures Seen(h0, d0, h, d, e) && Recovered(e, 1) == multiset{}
  {
    hide Bag, LineOf, Long, Pending, Plan, JobDone, EntryOf, Recovered, DiskOk, SuffixEntries, SuffixLoggable,
         Unflagged, PlanOk;
    var long, x := EntryOf(LogInsert("t", [Some(Long())])), DeletingBlock();
    LongLinePends();
    PlanOfReplacement(x);
    var h1, d1 := OversizedInsertHides(num, h0, d0, h, d, long, SuffixEntries(x));
    assert Plan(SuffixEntries(x)) == [Restore("t", [ROW])] && [Restore("t", [ROW])][1..] == [];
    var h2: seq<DiskState>, d2: DiskState :| JobDone(num, h1, d1, Restore("t", [ROW]), h2, d2)
        && Replayed(num, h2, d2, [], h, d);
    EmptiedByRestore(num, h1, d1, "t", [ROW], h2, d2);
    if Bag(d1.pages, 1) == multiset{} {
      e := d1;
      assert h[|h1| - 1] == h[..|h1|][|h1| - 1];
    } else {
      var k :| |h1| <= k < |h2| && Recovered(h2[k], 1) == Bag(h2[k].pages, 1) == multiset{};
      e := h2[k];
    }
  }

  /** An INSERT failed because its row fits no page. Then a DELETE that matches nothing is interrupted, and so is
      recovery: every such DELETE goes through states, with all lines logged and no page touched, and with the table
      emptied for a moment, that recover to the row. But every recovery from there goes through a state that recovers to
      nothing: the row is lost, although the DELETE was to keep it and had logged it. */
  lemma OversizedInsertLosesRow(num: NumberParser, h0: seq<DiskState>, h: seq<DiskState>, d: DiskState)
    returns (cleared: DiskState)
    requires Executed(num, false, h0, AfterFailure(), h, d, Delete("t", Some(KeepingCondition())))
    ensures var d0, s := AfterFailure(), Delete("t", Some(KeepingCondition()));
            Good(d0) && Regular(d0, s) && Bag(d0.pages, 1) == After(num, d0, s) == multiset{"a"}
    ensures var d0 := AfterFailure();
            var logged := d0.(lines := d0.lines + BlockLines("t", Some(KeepingCondition()), [ROW]));
            && Seen(h0, d0, h, d, logged) && Seen(h0, d0, h, d, cleared) && Bag(cleared.pages, 1) == multiset{}
            && forall e, h1: seq<DiskState>, h2: seq<DiskState>, d2: DiskState |
                 (e == logged || e == cleared) && Recovers(num, h1, e, h2, d2) ::
                 && Recovered(e, 1) == multiset{"a"}
                 && exists e' :: Seen(h1, e, h2, d2, e') && Recovered(e', 1) == multiset{}
  {
    hide Bag, WithRow, StoredTexts, Recovered, Good, LineOf, HealthyBag, Healthy, PagesOk, Whole, IsIdentifier, Seen,
         Kept, Survivors, Long, LogOk, DiskOk, Pending, Behind, BlockLines, Unflagged, ReplaceDone, Recovers, EntryOf;
    var d0, cond := AfterFailure(), Some(KeepingCondition());
    LongLinePends();
    LongPending();
    DatabaseIsGood(KEYLESS, "a", [LongLine()]);
    DatabaseHolds(KEYLESS, "a", [LongLine()]);
    ShortIsHealthy(KEYLESS, "a");
    TableNameOk();
    KeepingDelete(num, KEYLESS, "a", cond.value);
    BlockIsSeen(num, h0, d0, h, d, cond, [ROW]);
    cleared := ClearedIsSeen(h0, d0, h, d, cond, [ROW]);
    var logged := d0.(lines := d0.lines + BlockLines("t", cond, [ROW]));
    forall e, h1: seq<DiskState>, h2: seq<DiskState>, d2: DiskState |
      (e == logged || e == cleared) && Recovers(num, h1, e, h2, d2)
      ensures Recovered(e, 1) == multiset{"a"}
      ensures exists e' :: Seen(h1, e, h2, d2, e') && Recovered(e', 1) == multiset{}
    {
      DeletingState(num, h0, h, d, e);
      var e' := DeletingIsForgotten(num, h1, e, h2, d2);
    }
  }

  lemma ClearedIsSeen(h0: seq<DiskState>, d0: DiskState, h: seq<DiskState>, d: DiskState, condition: Option<Condition>,
                      rows: seq<Row>) returns (e: DiskState)
    requires ReplaceDone(h0, d0, h, d, "t", condition, rows)
    ensures Seen(h0, d0, h, d, e) && e.lines == d0.lines + BlockLines("t", condition, rows)
    ensures Bag(e.pages, IdOf(d0.catalog, "t")) == multiset{}
  {
    hide Bag, BlockLines, ReplaceRun, Whole, Survivors, BlockLogged;
    var k :| |h0| <= k < |h| && h[k].lines == d0.lines + BlockLines("t", condition, rows)
             && Bag(h[k].pages, IdOf(d0.catalog, "t")) == multiset{};
    e := h[k];
  }

  // ---- An INSERT that fits no page, and another behind it ---------------------------------

  /** The empty table, behind the failed INSERT. */
  function EmptyAfterFailure(): DiskState
  {
    DiskState([], [LongLine()], [TableLine("t", 1, KEYLESS)])
  }

  /** The same with an INSERT: every one goes through a state, behind its line, that recovers to its row, and every
      recovery from there goes through a state that has forgotten it. */
  lemma OversizedInsertLosesInsert(num: NumberParser, h0: seq<DiskState>, h: seq<DiskState>, d: DiskState)
    requires Executed(num, false, h0, EmptyAfterFailure(), h, d, Insert("t", [], ROW))
    ensures var e := EmptyAfterFailure().(lines := [LongLine(), InsertLine()]);
            && Seen(h0, EmptyAfterFailure(), h, d, e) && Recovered(e, 1) == multiset{"a"}
            && forall h1: seq<DiskState>, h2: seq<DiskState>, d2: DiskState | Recovers(num, h1, e, h2, d2) ::
                 exists e' :: Seen(h1, e, h2, d2, e') && Recovered(e', 1) == multiset{}
  {
    hide Bag, LineOf, RowText, RowError, Keyless, InsertRun, InsertStep, Long, Recovered, DiskOk, Recovers, Pending,
         EntryOf, Behind;
    CopyIsKeyless();
    WaitingTable(0);
    NoPages();
    KeylessHasNoError(KEYLESS, Bag([], 1), ROW);
    var d0, e := EmptyAfterFailure(), EmptyAfterFailure().(lines := [LongLine(), InsertLine()]);
    assert [LongLine()] + [InsertLine()] == [LongLine(), InsertLine()];
    assert h[|h0|] == e;
    var long := HiddenCopy();
    forall h1: seq<DiskState>, h2: seq<DiskState>, d2: DiskState | Recovers(num, h1, e, h2, d2)
      ensures exists e' :: Seen(h1, e, h2, d2, e') && Recovered(e', 1) == multiset{}
    {
      var h3, d3 := OversizedInsertHides(num, h1, e, h2, d2, long, SuffixEntries(Copy(1)));
      assert h2[|h3| - 1] == h2[..|h3|][|h3| - 1];
      assert Seen(h1, e, h2, d2, d3);
    }
  }

  lemma HiddenCopy() returns (long: Entry)
    ensures var e := EmptyAfterFailure().(lines := [LongLine(), InsertLine()]);
            && DiskOk(e) && Oversized(long) && Pending(e.lines) == [long] + SuffixEntries(Copy(1))
            && Recovered(e, 1) == multiset{"a"}
  {
    hide Bag, LineOf, RowText, Keyless, Long, Pending, EntryOf, Plan, Unflagged, Loggable, HealthyBag, IsIdentifier;
    var lines, catalog := [LongLine(), InsertLine()], [TableLine("t", 1, KEYLESS)];
    long := EntryOf(LogInsert("t", [Some(Long())]));
    LongLinePends();
    CopyIsKeyless();
    WaitingTable(0);
    NoPages();
    EmptyIsHealthy(KEYLESS);
    TableNameOk();
    assert [LongLine()] + [InsertLine()] == lines;
    InsertedLogOk(catalog, [LongLine()], "t", ROW);
    PendingLogged([LongLine()], LogInsert("t", ROW));
    assert Copies(1, EntryOf(LogInsert("t", ROW))) == [EntryOf(LogInsert("t", ROW))];
    KeylessRecovers(DiskState([], lines, catalog), [long], Copy(1), 1);
    assert multiset{} + Times("a", 1) == multiset{"a"};
  }

  // ---- A DROP TABLE -----------------------------------------------------------------------

  /** Every DROP of a table with a row goes through a state in which the table is still there and its row is not. */
  lemma DropLosesRowFirst(h0: seq<DiskState>, h: seq<DiskState>, d: DiskState) returns (e: DiskState)
    requires TableDropped(h0, Database(KEYED, "1", []), h, d, "t")
    ensures var d0 := Database(KEYED, "1", []);
            && Good(d0) && Bag(d0.pages, 1) == multiset{"1"}
            && Seen(h0, d0, h, d, e) && LineFor(e.catalog, "t") == LineFor(d0.catalog, "t")
            && Recovered(e, 1) == multiset{}
  {
    hide Bag, WithRow, Good, Recovered, TableDropped, LogOk;
    var d0 := Database(KEYED, "1", []);
    EmptyLogOk(d0.catalog);
    NoLeftovers();
    DatabaseIsGood(KEYED, "1", []);
    DatabaseHolds(KEYED, "1", []);
    e := DropEmptiesFirst(h0, d0, h, d, "t");
    NothingPends(e, 1);
  }
}
