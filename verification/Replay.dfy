// Recovery: replaying what the log still asks for.
module Replays {
  import opened Wrappers
  import opened StringUtils
  import opened Sql
  import opened Lexers
  import opened Parsers
  import opened SqlText
  import opened SqlRoundTrip
  import opened Storage
  import opened TableRows
  import opened Values
  import opened Rewrites
  import opened Catalogs
  import opened WalFormat
  import opened Wal
  import opened Recovery
  import opened Statements
  import opened Engines

  // ---- What recovery does -----------------------------------------------------------------

  /** What recovery does for an entry of the log, or for a block of entries: it executes a statement as a client would,
      or restores the rows of a block. An entry whose text is no statement is skipped, but for the COMMIT. */
  datatype Job = Run(statement: Statement) | Restore(table: string, rows: seq<Row>) | Skip

  function JobOf(sql: string): Job
  {
    var meant := StatementOf(Tokens(sql));
    if meant.Accepted? then Run(meant.statement) else Skip
  }

  /** The jobs for the entries that are not committed, in order. */
  function Plan(es: seq<Entry>): seq<Job>
    decreases |es|
  {
    if |es| == 0 then []
    else if es[0].kind == "REPLACE_BEGIN" then
      var n := RowEntries(es[1..]);
      [Restore(es[0].table, RowsIn(es[1..1 + n]))] + Plan(es[1 + n..])
    else
      match SqlOf(es[0])
      case None => Plan(es[1..])
      case Some(sql) => [JobOf(sql)] + Plan(es[1..])
  }

  /** The disk as it was before the last line of its log. */
  function Before(d: DiskState): DiskState
  {
    d.(lines := if |d.lines| > 0 then d.lines[..|d.lines| - 1] else [])
  }

  /** The last step was a COMMIT. */
  ghost predicate EndsInCommit(h: seq<DiskState>, d: DiskState)
  {
    && |h| > 0 && h[|h| - 1] == d
    && |d.lines| > 0 && d.lines[|d.lines| - 1] == COMMIT
  }

  /** What one job does to the disk: every state since `h0`, and the last one. */
  ghost predicate JobDone(num: NumberParser, h0: seq<DiskState>, d0: DiskState, job: Job, h: seq<DiskState>,
                          d: DiskState)
  {
    && EndsInCommit(h, d)
    && var h1, d1 := h[..|h| - 1], Before(d);
       match job
       case Run(s) => Executable(s) && Executed(num, false, h0, d0, h1, d1, s)
       case Restore(table, rows) => RewriteReplayed(h0, d0, h1, d1, table, rows)
       case Skip => Untouched(h0, d0, h1, d1)
  }

  /** What one recovery does to the disk: it carries out the jobs one after another, from memory, whatever becomes of
      the log meanwhile. */
  ghost predicate Replayed(num: NumberParser, h0: seq<DiskState>, d0: DiskState, plan: seq<Job>, h: seq<DiskState>,
                           d: DiskState)
    decreases |plan|
  {
    if |plan| == 0 then Untouched(h0, d0, h, d)
    else
      exists h1: seq<DiskState>, d1: DiskState ::
        JobDone(num, h0, d0, plan[0], h1, d1) && Replayed(num, h1, d1, plan[1..], h, d)
  }

  /** Whatever completes `rest` from here completes the whole plan. */
  ghost predicate Continues(num: NumberParser, h0: seq<DiskState>, d0: DiskState, plan: seq<Job>,
                            h1: seq<DiskState>, d1: DiskState, rest: seq<Job>)
  {
    forall h: seq<DiskState>, d: DiskState | Replayed(num, h1, d1, rest, h, d) :: Replayed(num, h0, d0, plan, h, d)
  }

  lemma ContinuesOn(num: NumberParser, h0: seq<DiskState>, d0: DiskState, plan: seq<Job>, h1: seq<DiskState>,
                    d1: DiskState, rest: seq<Job>, h2: seq<DiskState>, d2: DiskState)
    requires Continues(num, h0, d0, plan, h1, d1, rest) && rest != [] && JobDone(num, h1, d1, rest[0], h2, d2)
    ensures Continues(num, h0, d0, plan, h2, d2, rest[1..])
  {
    hide JobDone;
    forall h: seq<DiskState>, d: DiskState | Replayed(num, h2, d2, rest[1..], h, d)
      ensures Replayed(num, h0, d0, plan, h, d) {
      assert Replayed(num, h1, d1, rest, h, d);
    }
  }

  /** Every block in the log names a table that SQL text can name. */
  ghost predicate Named(es: seq<Entry>)
  {
    forall i | 0 <= i < |es| :: es[i].kind == "REPLACE_BEGIN" ==> IsIdentifier(es[i].table)
  }

  // ---- Replaying --------------------------------------------------------------------------

  lemma ParsedIsExecutable(sql: string)
    ensures StatementOf(Tokens(sql)).Accepted? ==> Executable(StatementOf(Tokens(sql)).statement)
  {
  }

  /** The text is a statement that changes rows, or none. */
  predicate MeansRows(sql: string)
  {
    StatementOf(Tokens(sql)).Accepted? || StatementOf(Tokens(sql)).Rejected?
  }

  lemma FirstTokenTells(ts: seq<Token>)
    requires At(ts, 0) == Token(KEYWORD, "INSERT") || At(ts, 0) == Token(KEYWORD, "DELETE")
             || At(ts, 0) == Token(KEYWORD, "UPDATE")
    ensures StatementOf(ts).Accepted? || StatementOf(ts).Rejected?
  {
    hide InsertAt, DeleteAt, UpdateAt;
  }

  lemma RowKeywords()
    ensures IsKeyword("INSERT") && IsKeyword("DELETE") && IsKeyword("UPDATE")
  {
  }

  lemma FirstWordTells(w: string, rest: string)
    requires w == "INSERT" || w == "DELETE" || w == "UPDATE"
    requires |rest| > 0 && rest[0] == ' '
    ensures MeansRows(w + rest)
  {
    hide StatementOf, Tokens, ToUpper, Lexers.Step;
    RowKeywords();
    WordStep(w, rest);
    LexOne(w, rest, [WordToken(w)]);
    var ts := Tokens(w + rest);
    assert ts[0] == Token(KEYWORD, w);
    FirstTokenTells(ts);
  }

  /** The texts that recovery builds create and drop no tables. */
  lemma ReplayTextMeansRows(e: Entry)
    ensures SqlOf(e).Some? ==> MeansRows(SqlOf(e).value)
  {
    hide MeansRows, ValuesText, WhereTextOf, AssignmentsOf, SetText, Fields, Pieces;
    if SqlOf(e).Some? {
      var sql := SqlOf(e).value;
      var w := if e.kind == "INSERT" then "INSERT" else if e.kind == "DELETE" then "DELETE" else "UPDATE";
      assert sql[..6] == w && sql[6..][0] == ' ';
      assert sql == w + sql[6..];
      FirstWordTells(w, sql[6..]);
    }
  }

  lemma RestoringTextMeansRows(head: string, rest: string)
    requires head == "DELETE FROM " || head == "INSERT INTO "
    ensures MeansRows(head + rest)
  {
    hide MeansRows;
    var sql := head + rest;
    assert sql == head[..6] + sql[6..];
    FirstWordTells(head[..6], sql[6..]);
  }

  /** Executes the statement that `sql` means; one that fails, or is none, is skipped. */
  method ReplaySQL(engine: Engine, sql: string)
    requires engine.Valid() && MeansRows(sql)
    modifies engine`lastAffected, engine.storage, engine.storage.disk`pages, engine.storage.disk`lines,
             engine.storage.disk`history
    ensures engine.Valid()
    ensures var h0, d0 := old(engine.storage.disk.history), old(engine.storage.disk.State());
            var h, d := engine.storage.disk.history, engine.storage.disk.State();
            var meant := StatementOf(Tokens(sql));
            if meant.Accepted?
            then Executable(meant.statement) && Executed(engine.num, engine.inRecovery, h0, d0, h, d, meant.statement)
            else Untouched(h0, d0, h, d)
  {
    hide Engine.Valid, StatementOf, Tokens, Executed, Executable;
    ParsedIsExecutable(sql);
    var lexer := new Lexer(sql);
    var tokens := lexer.Tokenize();
    var parser := new Parser(tokens);
    var parsed := parser.Parse();
    if parsed.Accepted? {
      var _ := engine.Execute(parsed.statement);
    }
  }

  /** The statement in the SQL text of a row that is restored. */
  lemma RestoredRowParses(table: string, row: Row)
    requires IsIdentifier(table) && row != []
    ensures StatementOf(Tokens("INSERT INTO " + (table + (" VALUES (" + (Csv(row) + ")")))))
            == Accepted(Insert(table, [], row))
    ensures Executable(Insert(table, [], row))
  {
    InsertRoundTrip(table, row);
  }

  lemma ClearingParses(table: string)
    requires IsIdentifier(table)
    ensures StatementOf(Tokens("DELETE FROM " + table)) == Accepted(Delete(table, None))
            && Executable(Delete(table, None))
  {
    DeleteRoundTrip(table, None);
    assert table + "" == table;
  }

  lemma ClearingKeepsNothing(num: NumberParser, scheme: seq<Column>, texts: seq<string>)
    ensures Kept(num, scheme, None, texts) == [] && Survivors(scheme, []) == [] && ConditionValid(scheme, None)
  {
    KeepsNothing(num, scheme, texts);
  }

  lemma OneSurvivorMore(scheme: seq<Column>, rows: seq<Row>, i: nat)
    requires i < |rows|
    ensures multiset(Survivors(scheme, rows[..i + 1])) == multiset(Survivors(scheme, rows[..i]))
            + StoredOf(scheme, rows[i])
    ensures multiset(Survivors(scheme, rows[..i + 1])) <= multiset(Survivors(scheme, rows))
  {
    hide Storable, RowText, Survivors;
    SurvivorsNext(scheme, rows[..i], rows[i]);
    assert rows[..i + 1] == rows[..i] + [rows[i]];
    var before := Survivors(scheme, rows[..i]);
    assert multiset(before + [RowText(rows[i])]) == multiset(before) + multiset{RowText(rows[i])};
    assert before + [] == before && multiset(before) + multiset{} == multiset(before);
    SurvivorsOfPart(scheme, rows, i + 1);
  }

  lemma InsertExtends(h0: seq<DiskState>, d0: DiskState, h: seq<DiskState>, d: DiskState, table: string, row: Row)
    requires InsertReplayed(h0, d0, h, d, table, row)
    ensures |h0| <= |h| && h[..|h0|] == h0
  {
  }

  /** One more row of a block. */
  lemma RowReplayed(h0: seq<DiskState>, d0: DiskState, h1: seq<DiskState>, d1: DiskState, h2: seq<DiskState>,
                    d2: DiskState, table: string, rows: seq<Row>, i: nat)
    requires i < |rows|
    requires var id := IdOf(d0.catalog, table);
             && Refilled(h0, d0, h1, d1, id, multiset(Survivors(SchemeOf(d0.catalog, table), rows)))
             && Bag(d1.pages, id) == multiset(Survivors(SchemeOf(d0.catalog, table), rows[..i]))
    requires InsertReplayed(h1, d1, h2, d2, table, rows[i])
    ensures var id := IdOf(d0.catalog, table);
            && Refilled(h0, d0, h2, d2, id, multiset(Survivors(SchemeOf(d0.catalog, table), rows)))
            && Bag(d2.pages, id) == multiset(Survivors(SchemeOf(d0.catalog, table), rows[..i + 1]))
  {
    hide Bag, Survivors, StoredOf, OthersKept, PagesOk, Rewriting, Within, HasPart, Emptied;
    var id, scheme := IdOf(d0.catalog, table), SchemeOf(d0.catalog, table);
    InsertExtends(h1, d1, h2, d2, table, rows[i]);
    EndsTwice(h0, d0, h1, d1, h2, d2);
    EmptiedLonger(h0, h1, h2, d0, id);
    OthersKeptTwice(d0.pages, d1.pages, d2.pages, id);
    OneSurvivorMore(scheme, rows, i);
    RewritingOn(h0, d0, h1, d1, h2, id, multiset(Survivors(scheme, rows)));
  }

  lemma ClearedRewrites(h0: seq<DiskState>, d0: DiskState, h: seq<DiskState>, d: DiskState, id: int,
                        rows: multiset<string>)
    requires Refilled(h0, d0, h, d, id, multiset{})
    ensures Refilled(h0, d0, h, d, id, rows)
  {
    hide Bag, Within, Emptied, OnlyRows;
  }

  /** Restores the rows of a block: the table is cleared, and the rows are inserted, without logging. */
  method RestoreRows(engine: Engine, table: string, csvs: seq<string>, ghost rows: seq<Row>)
    requires engine.Valid() && engine.inRecovery
    requires |csvs| == |rows| && forall i | 0 <= i < |rows| :: csvs[i] == Csv(rows[i]) && rows[i] != []
    modifies engine`lastAffected, engine.storage, engine.storage.disk`pages, engine.storage.disk`lines,
             engine.storage.disk`history
    ensures engine.Valid()
    ensures IsIdentifier(table) ==>
              RewriteReplayed(old(engine.storage.disk.history), old(engine.storage.disk.State()),
                              engine.storage.disk.history, engine.storage.disk.State(), table, rows)
  {
    hide Engine.Valid, StatementOf, Tokens, Refilled, OnlyRows, Bag, Survivors, Kept, StoredTexts, InsertReplayed,
         IsIdentifier, MeansRows;
    ghost var h0, d0 := engine.storage.disk.history, engine.storage.disk.State();
    ghost var scheme, id := SchemeOf(d0.catalog, table), IdOf(d0.catalog, table);
    ghost var all := multiset(Survivors(scheme, rows));
    if IsIdentifier(table) {
      ClearingParses(table);
      ClearingKeepsNothing(engine.num, scheme, StoredTexts(d0.pages, id));
    }
    RestoringTextMeansRows("DELETE FROM ", table);
    ReplaySQL(engine, "DELETE FROM " + table);
    if IsIdentifier(table) {
      ClearedRewrites(h0, d0, engine.storage.disk.history, engine.storage.disk.State(), id, all);
    }
    var i := 0;
    assert rows[..0] == [];
    while i < |csvs|
      invariant i <= |csvs| && engine.Valid() && engine.inRecovery
      invariant engine.storage.disk.catalog == d0.catalog
      invariant IsIdentifier(table) ==>
                  && Refilled(h0, d0, engine.storage.disk.history, engine.storage.disk.State(), id, all)
                  && Bag(engine.storage.disk.pages, id) == multiset(Survivors(scheme, rows[..i]))
    {
      ghost var h1, d1 := engine.storage.disk.history, engine.storage.disk.State();
      if IsIdentifier(table) {
        RestoredRowParses(table, rows[i]);
      }
      RestoringTextMeansRows("INSERT INTO ", table + (" VALUES (" + (csvs[i] + ")")));
      ReplaySQL(engine, "INSERT INTO " + (table + (" VALUES (" + (csvs[i] + ")"))));
      if IsIdentifier(table) {
        RowReplayed(h0, d0, h1, d1, engine.storage.disk.history, engine.storage.disk.State(), table, rows, i);
      }
      i := i + 1;
    }
    assert rows[..i] == rows;
  }

  lemma ThenCommitted(h: seq<DiskState>, d: DiskState)
    ensures var d' := d.(lines := d.lines + [COMMIT]);
            EndsInCommit(h + [d'], d') && Before(d') == d && (h + [d'])[..|h + [d']| - 1] == h
  {
    assert (d.lines + [COMMIT])[..|d.lines|] == d.lines;
  }

  /** Replays a block in recovery mode, and commits. */
  method ReplayBlock(engine: Engine, table: string, csvs: seq<string>, ghost rows: seq<Row>)
    requires engine.Valid() && !engine.inRecovery
    requires |csvs| == |rows| && forall i | 0 <= i < |rows| :: csvs[i] == Csv(rows[i]) && rows[i] != []
    modifies engine, engine.storage, engine.storage.disk`pages, engine.storage.disk`lines, engine.storage.disk`history
    ensures engine.Valid() && !engine.inRecovery
    ensures IsIdentifier(table) ==>
              JobDone(engine.num, old(engine.storage.disk.history), old(engine.storage.disk.State()),
                      Restore(table, rows), engine.storage.disk.history, engine.storage.disk.State())
  {
    hide StorageFile.Valid, Catalog.Valid, RewriteReplayed, IsIdentifier, EndsInCommit, Before;
    engine.inRecovery := true;
    RestoreRows(engine, table, csvs, rows);
    engine.inRecovery := false;
    ThenCommitted(engine.storage.disk.history, engine.storage.disk.State());
    engine.wal.Commit();
  }

  /** The VALUES lists of the REPLACE_ROW entries from `start` on, and where they end. */
  method CollectRows(entries: seq<Entry>, start: nat) returns (csvs: seq<string>, next: nat, ghost rows: seq<Row>)
    requires start <= |entries|
    ensures next == start + RowEntries(entries[start..])
    ensures rows == RowsIn(entries[start..next]) && |csvs| == |rows|
    ensures forall i | 0 <= i < |rows| :: csvs[i] == Csv(rows[i]) && rows[i] != []
  {
    hide ValuesText, Csv, RowOf;
    csvs, next := [], start;
    while next < |entries| && entries[next].kind == "REPLACE_ROW"
      invariant start <= next <= |entries| && |csvs| == next - start
      invariant RowEntries(entries[start..]) == next - start + RowEntries(entries[next..])
      invariant forall i | 0 <= i < |csvs| :: csvs[i] == ValuesText(entries[start + i].rowData)
    {
      assert entries[next..][1..] == entries[next + 1..];
      var csv := ValuesSQL(entries[next].rowData);
      csvs := csvs + [csv];
      next := next + 1;
    }
    rows := RowsIn(entries[start..next]);
    forall i | 0 <= i < |rows| ensures csvs[i] == Csv(rows[i]) && rows[i] != [] {
      assert entries[start..next][i] == entries[start + i];
      TextOfValues(entries[start + i].rowData);
    }
  }

  lemma TextOfValues(rowData: string)
    ensures ValuesText(rowData) == Csv(RowOf(rowData)) && RowOf(rowData) != []
  {
  }

  /** Replays an entry that is not a block, and commits; one that has no text is passed over. */
  method ReplayEntry(engine: Engine, e: Entry)
    requires engine.Valid() && !engine.inRecovery
    modifies engine`lastAffected, engine.storage, engine.storage.disk`pages, engine.storage.disk`lines,
             engine.storage.disk`history
    ensures engine.Valid()
    ensures var h0, d0 := old(engine.storage.disk.history), old(engine.storage.disk.State());
            var h, d := engine.storage.disk.history, engine.storage.disk.State();
            if SqlOf(e).None? then Untouched(h0, d0, h, d) else JobDone(engine.num, h0, d0, JobOf(SqlOf(e).value), h, d)
  {
    hide StorageFile.Valid, Catalog.Valid, Executed, Executable, StatementOf, Tokens, SqlOf, EndsInCommit, Before,
         MeansRows;
    var sql := ReplaySQLOf(e);
    if sql.None? {
      return;
    }
    ReplayTextMeansRows(e);
    ReplaySQL(engine, sql.value);
    ThenCommitted(engine.storage.disk.history, engine.storage.disk.State());
    engine.wal.Commit();
  }

  lemma LoggedRowParses(e: Entry)
    requires IsIdentifier(e.table) && e.kind == "INSERT"
    ensures SqlOf(e).Some? && StatementOf(Tokens(SqlOf(e).value)) == Accepted(Insert(e.table, [], RowOf(e.rowData)))
    ensures Executable(Insert(e.table, [], RowOf(e.rowData)))
  {
    RestoredRowParses(e.table, RowOf(e.rowData));
  }

  // ---- Recovery ---------------------------------------------------------------------------

  lemma PlanOfBlock(es: seq<Entry>)
    requires es != [] && es[0].kind == "REPLACE_BEGIN"
    ensures var n := RowEntries(es[1..]);
            Plan(es) != [] && Plan(es)[0] == Restore(es[0].table, RowsIn(es[1..1 + n]))
                && Plan(es)[1..] == Plan(es[1 + n..])
  {
  }

  lemma PlanOfEntry(es: seq<Entry>)
    requires es != [] && es[0].kind != "REPLACE_BEGIN"
    ensures SqlOf(es[0]).None? ==> Plan(es) == Plan(es[1..])
    ensures SqlOf(es[0]).Some? ==>
              Plan(es) != [] && Plan(es)[0] == JobOf(SqlOf(es[0]).value) && Plan(es)[1..] == Plan(es[1..])
  {
    hide SqlOf, JobOf;
  }

  /** The first job of what `entries` ask for from `i` on is done, or there was none; `next` is where the rest
      begins. */
  ghost predicate Advanced(num: NumberParser, h0: seq<DiskState>, d0: DiskState, entries: seq<Entry>, i: nat,
                           h: seq<DiskState>, d: DiskState, next: nat)
    requires i < next <= |entries|
  {
    var plan, rest := Plan(entries[i..]), Plan(entries[next..]);
    || (plan == rest && Untouched(h0, d0, h, d))
    || (plan != [] && plan[1..] == rest && JobDone(num, h0, d0, plan[0], h, d))
  }

  /** Replays the entry at `i`, with all the rows behind it if it begins a block. */
  method ReplayNext(engine: Engine, entries: seq<Entry>, i: nat) returns (next: nat)
    requires engine.Valid() && !engine.inRecovery && i < |entries|
    modifies engine, engine.storage, engine.storage.disk`pages, engine.storage.disk`lines, engine.storage.disk`history
    ensures engine.Valid() && !engine.inRecovery && i < next <= |entries|
    ensures (entries[i].kind == "REPLACE_BEGIN" ==> IsIdentifier(entries[i].table)) ==>
              Advanced(engine.num, old(engine.storage.disk.history), old(engine.storage.disk.State()), entries, i,
                       engine.storage.disk.history, engine.storage.disk.State(), next)
  {
    hide Engine.Valid, JobDone, Plan, JobOf, SqlOf, RowsIn, IsIdentifier, Untouched;
    var e := entries[i];
    if e.kind == "REPLACE_BEGIN" {
      var csvs;
      ghost var rows;
      csvs, next, rows := CollectRows(entries, i + 1);
      RestOf(entries, i, next);
      PlanOfBlock(entries[i..]);
      ReplayBlock(engine, e.table, csvs, rows);
    } else {
      next := i + 1;
      RestOf(entries, i, next);
      PlanOfEntry(entries[i..]);
      ReplayEntry(engine, e);
    }
  }

  lemma AdvancedContinues(num: NumberParser, h0: seq<DiskState>, d0: DiskState, plan: seq<Job>, h1: seq<DiskState>,
                          d1: DiskState, entries: seq<Entry>, i: nat, h: seq<DiskState>, d: DiskState, next: nat)
    requires i < next <= |entries| && Continues(num, h0, d0, plan, h1, d1, Plan(entries[i..]))
    requires Advanced(num, h1, d1, entries, i, h, d, next)
    ensures Continues(num, h0, d0, plan, h, d, Plan(entries[next..]))
  {
    hide JobDone, Plan, Replayed;
    if Plan(entries[i..]) != Plan(entries[next..]) || !Untouched(h1, d1, h, d) {
      ContinuesOn(num, h0, d0, plan, h1, d1, Plan(entries[i..]), h, d);
    }
  }

  /** Replays what no COMMIT follows. Whatever the log asks for: the disk goes through exactly the states of its
      jobs. */
  method Recover(engine: Engine)
    requires engine.Valid() && !engine.inRecovery
    modifies engine, engine.storage, engine.storage.disk`pages, engine.storage.disk`lines, engine.storage.disk`history
    ensures engine.Valid() && !engine.inRecovery
    ensures var h0, d0 := old(engine.storage.disk.history), old(engine.storage.disk.State());
            Unflagged(d0.lines) && Named(Pending(d0.lines)) ==>
              Replayed(engine.num, h0, d0, Plan(Pending(d0.lines)), engine.storage.disk.history,
                       engine.storage.disk.State())
  {
    hide Engine.Valid, Plan, IsIdentifier, Pending, Unflagged, Continues, Advanced, Named, Replayed;
    ghost var num, h0, d0 := engine.num, engine.storage.disk.history, engine.storage.disk.State();
    engine.OneDisk();
    var entries := engine.wal.ReadLog();
    ghost var ok, es, n := Unflagged(d0.lines) && Named(Pending(d0.lines)), Pending(d0.lines), 0;
    if ok {
      n := SplitLog(d0.lines, entries);
      PlanBegins(num, h0, d0, Plan(es));
    }
    var i := 0;
    while i < |entries|
      invariant i <= |entries| && engine.Valid() && !engine.inRecovery
      invariant ok && i <= n ==> engine.storage.disk.history == h0 && engine.storage.disk.State() == d0
      invariant ok && i >= n ==>
                  Continues(num, h0, d0, Plan(es), engine.storage.disk.history, engine.storage.disk.State(),
                            Plan(entries[i..]))
    {
      if entries[i].committed {
        i := i + 1;
        continue;
      }
      ghost var h1, d1 := engine.storage.disk.history, engine.storage.disk.State();
      var next := ReplayNext(engine, entries, i);
      if ok {
        AdvancedContinues(num, h0, d0, Plan(es), h1, d1, entries, i, engine.storage.disk.history,
                          engine.storage.disk.State(), next);
      }
      i := next;
    }
    if ok {
      assert entries[i..] == [];
      PlanEnds(num, h0, d0, Plan(es), engine.storage.disk.history, engine.storage.disk.State(), entries[i..]);
    }
  }

  /** Where the entries begin that are to be replayed. */
  lemma SplitLog(lines: seq<string>, entries: seq<Entry>) returns (n: nat)
    requires Unflagged(lines) && Named(Pending(lines)) && entries == Entries(lines)
    ensures n <= |entries| && entries[n..] == Pending(lines)
    ensures forall i | 0 <= i < |entries| :: entries[i].committed <==> i < n
    ensures forall i | n <= i < |entries| :: entries[i].kind == "REPLACE_BEGIN" ==> IsIdentifier(entries[i].table)
  {
    hide Unflagged, IsIdentifier;
    PendingIsTail(lines);
    var es := Pending(lines);
    n := |entries| - |es|;
    forall i | n <= i < |entries|
      ensures !entries[i].committed && (entries[i].kind == "REPLACE_BEGIN" ==> IsIdentifier(entries[i].table))
    {
      assert entries[n..][i - n] == es[i - n];
    }
  }

  lemma PlanBegins(num: NumberParser, h0: seq<DiskState>, d0: DiskState, plan: seq<Job>)
    ensures Continues(num, h0, d0, plan, h0, d0, plan)
  {
  }

  lemma PlanEnds(num: NumberParser, h0: seq<DiskState>, d0: DiskState, plan: seq<Job>, h: seq<DiskState>, d: DiskState,
                 rest: seq<Entry>)
    requires rest == [] && Continues(num, h0, d0, plan, h, d, Plan(rest))
    ensures Replayed(num, h0, d0, plan, h, d)
  {
    assert Replayed(num, h, d, [], h, d);
  }

  lemma RestOf(entries: seq<Entry>, i: nat, next: nat)
    requires i < next <= |entries|
    ensures entries[i..][1..] == entries[i + 1..] && entries[i..][next - i..] == entries[next..]
    ensures entries[i..][1..next - i] == entries[i + 1..next] && entries[i..][0] == entries[i]
  {
  }
}
