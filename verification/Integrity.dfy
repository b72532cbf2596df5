// What holds of every state that the disk is ever in, whatever is executed, interrupted and recovered.
module Integrity {
  import opened StringUtils
  import opened Sql
  import opened Lexers
  import opened Parsers
  import opened SqlText
  import opened SqlRoundTrip
  import opened Storage
  import opened TableRows
  import opened Values
  import opened TableIndex
  import opened Rewrites
  import opened Catalogs
  import opened WalFormat
  import opened Recovery
  import opened Crashes
  import opened Statements
  import opened Engines
  import opened Replays
  import opened Meanings

  // ---- The log ----------------------------------------------------------------------------

  /** The entries are of the kinds that the engine writes. */
  ghost predicate Kinds(es: seq<Entry>)
  {
    forall i | 0 <= i < |es| ::
      IsIdentifier(es[i].table)
          && (es[i].kind == "INSERT" || es[i].kind == "REPLACE_BEGIN" || es[i].kind == "REPLACE_ROW")
  }

  /** The entries are ones that the engine writes: no row comes before the beginning of its block. */
  ghost predicate Written(es: seq<Entry>)
  {
    Kinds(es) && (es != [] ==> es[0].kind != "REPLACE_ROW")
  }

  /** The job is an INSERT, whose row will be checked, or it restores rows that may stand in a table together. */
  ghost predicate JobOk(lines: seq<TableLine>, job: Job)
  {
    match job
    case Run(s) => s.Insert? && s.columns == [] && IsIdentifier(s.table)
    case Restore(table, rows) =>
      LineFor(lines, table).Some?
          && HealthyBag(SchemeOf(lines, table), multiset(Survivors(SchemeOf(lines, table), rows)))
    case Skip => true
  }

  ghost predicate PlanOk(lines: seq<TableLine>, plan: seq<Job>)
  {
    forall i | 0 <= i < |plan| :: JobOk(lines, plan[i])
  }

  /** What the log asks for can be done without harm. */
  ghost predicate LogOk(catalog: seq<TableLine>, lines: seq<string>)
  {
    Unflagged(lines) && Written(Pending(lines)) && PlanOk(catalog, Plan(Pending(lines)))
  }

  /** Pages, rows and log are in order. */
  ghost predicate DiskOk(d: DiskState)
  {
    TablesOk(d) && LogOk(d.catalog, d.lines)
  }

  lemma WrittenIsNamed(es: seq<Entry>)
    requires Written(es)
    ensures Named(es)
  {
  }

  lemma {:induction false} RowEntriesBefore(a: seq<Entry>, b: seq<Entry>)
    requires b == [] || b[0].kind != "REPLACE_ROW"
    ensures RowEntries(a + b) == RowEntries(a)
  {
    if |a| == 0 {
      assert a + b == b;
    } else {
      assert (a + b)[1..] == a[1..] + b && (a + b)[0] == a[0];
      RowEntriesBefore(a[1..], b);
    }
  }

  /** What is appended is done last, unless it continues a block. */
  lemma {:induction false} PlanAppend(a: seq<Entry>, b: seq<Entry>)
    requires b == [] || b[0].kind != "REPLACE_ROW"
    ensures Plan(a + b) == Plan(a) + Plan(b)
    decreases |a|
  {
    hide Plan, SqlOf, JobOf, RowsIn;
    if |a| == 0 {
      PlanOfNothing();
      assert a + b == b && [] + Plan(b) == Plan(b);
    } else {
      var n := if a[0].kind == "REPLACE_BEGIN" then 1 + RowEntries(a[1..]) else 1;
      assert (a + b)[1..] == a[1..] + b && (a + b)[0] == a[0];
      assert (a + b)[1..n] == a[1..n] && (a + b)[n..] == a[n..] + b;
      RowEntriesBefore(a[1..], b);
      PlanAppend(a[n..], b);
      if a[0].kind == "REPLACE_BEGIN" {
        PlanOfBlock(a);
        PlanOfBlock(a + b);
        SameFirst(Plan(a + b), Plan(a), Plan(b));
      } else {
        PlanOfEntry(a);
        PlanOfEntry(a + b);
        if SqlOf(a[0]).Some? {
          SameFirst(Plan(a + b), Plan(a), Plan(b));
        }
      }
    }
  }

  lemma PlanOfNothing()
    ensures Plan([]) == []
  {
  }

  lemma SameFirst<T>(ab: seq<T>, a: seq<T>, b: seq<T>)
    requires ab != [] && a != [] && ab[0] == a[0] && ab[1..] == a[1..] + b
    ensures ab == a + b
  {
    assert ab == [ab[0]] + ab[1..] && a == [a[0]] + a[1..];
  }

  lemma PlanOfInsert(r: Record)
    requires r.LogInsert? && Loggable(r)
    ensures Plan([EntryOf(r)]) == [Run(Insert(r.table, [], r.values))]
  {
    hide SqlOf, StatementOf, Tokens;
    var e := EntryOf(r);
    RowRoundTrip(r.values);
    LoggedRowParses(e);
    assert [e][1..] == [] && Plan([e][1..]) == [];
  }

  lemma PlanOfReplacement(x: Suffix)
    requires x.Replacement? && SuffixLoggable(x)
    ensures Plan(SuffixEntries(x)) == [Restore(x.table, x.rows)]
  {
    var es, rows := SuffixEntries(x), RowRecords(x.table, x.rows);
    assert es[1..] == rows;
    AllRowEntries(rows);
    assert es[1..1 + |rows|] == rows && es[1 + |rows|..] == [];
    BlockReadsBack(x.table, x.rows);
    PlanOfBlock(es);
  }

  lemma PlanOkAppend(lines: seq<TableLine>, plan: seq<Job>, job: Job)
    requires PlanOk(lines, plan) && JobOk(lines, job)
    ensures PlanOk(lines, plan + [job])
  {
    hide JobOk;
  }

  lemma WrittenAppend(a: seq<Entry>, b: seq<Entry>)
    requires Written(a) && Written(b)
    ensures Written(a + b)
  {
    forall i | 0 <= i < |a + b|
      ensures IsIdentifier((a + b)[i].table)
      ensures (a + b)[i].kind == "INSERT" || (a + b)[i].kind == "REPLACE_BEGIN" || (a + b)[i].kind == "REPLACE_ROW"
    {
      assert (a + b)[i] == if i < |a| then a[i] else b[i - |a|];
    }
  }

  /** After a COMMIT nothing is asked for. */
  lemma CommittedLogOk(catalog: seq<TableLine>, lines: seq<string>)
    requires Unflagged(lines)
    ensures LogOk(catalog, lines + [COMMIT])
  {
    PendingCommitted(lines);
  }

  lemma InsertedLogOk(catalog: seq<TableLine>, lines: seq<string>, table: string, row: Row)
    requires LogOk(catalog, lines) && IsIdentifier(table) && row != []
    ensures LogOk(catalog, lines + [LineOf(LogInsert(table, row))])
  {
    hide Pending, Plan, LineOf, Unflagged, IsIdentifier, RowText;
    var r := LogInsert(table, row);
    PendingLogged(lines, r);
    PlanOfInsert(r);
    assert Written([EntryOf(r)]);
    WrittenAppend(Pending(lines), [EntryOf(r)]);
    PlanAppend(Pending(lines), [EntryOf(r)]);
    PlanOkAppend(catalog, Plan(Pending(lines)), Run(Insert(table, [], row)));
  }

  lemma SuffixIsWritten(x: Suffix)
    requires x.Replacement? && SuffixLoggable(x)
    ensures Written(SuffixEntries(x)) && SuffixEntries(x)[0].kind != "REPLACE_ROW"
  {
  }

  /** A part of a block of rows that may stand together can be restored, too. */
  lemma PartCanBeRestored(catalog: seq<TableLine>, x: Suffix, j: nat)
    requires x.Replacement? && 0 < j <= |x.rows| + 1 && JobOk(catalog, Restore(x.table, x.rows))
    ensures JobOk(catalog, Restore(Part(x, j).table, Part(x, j).rows))
  {
    hide Survivors, HealthyBag;
    var scheme := SchemeOf(catalog, x.table);
    SurvivorsOfPart(scheme, x.rows, j - 1);
    HealthyPart(scheme, multiset(Survivors(scheme, x.rows[..j - 1])), multiset(Survivors(scheme, x.rows)));
  }

  lemma AppendedLogOk(catalog: seq<TableLine>, lines: seq<string>, lines': seq<string>, y: Suffix)
    requires LogOk(catalog, lines) && y.Replacement? && Behind(lines', Pending(lines), y)
    requires JobOk(catalog, Restore(y.table, y.rows))
    ensures LogOk(catalog, lines')
  {
    hide Pending, Plan, Unflagged, SuffixEntries, SuffixLoggable, JobOk, Written, PlanOk;
    SuffixIsWritten(y);
    WrittenAppend(Pending(lines), SuffixEntries(y));
    PlanAppend(Pending(lines), SuffixEntries(y));
    PlanOfReplacement(y);
    PlanOkAppend(catalog, Plan(Pending(lines)), Restore(y.table, y.rows));
  }

  lemma BlockLogOk(catalog: seq<TableLine>, lines: seq<string>, x: Suffix, j: nat)
    requires LogOk(catalog, lines) && x.Replacement? && SuffixLoggable(x) && 0 < j <= |x.rows| + 1
    requires JobOk(catalog, Restore(x.table, x.rows))
    ensures LogOk(catalog, lines + BlockLines(x.table, x.condition, x.rows)[..j])
  {
    hide LogOk, BlockLines, Behind, Pending, JobOk;
    LogOkIsUnflagged(catalog, lines);
    PartPends(lines, x, j);
    PartCanBeRestored(catalog, x, j);
    AppendedLogOk(catalog, lines, lines + BlockLines(x.table, x.condition, x.rows)[..j], Part(x, j));
  }

  // ---- Statements -------------------------------------------------------------------------

  lemma RowNotEmpty(scheme: seq<Column>, b: multiset<string>, row: Row)
    requires RowError(scheme, b, row).None? && scheme != []
    ensures row != []
  {
  }

  /** A state that an INSERT goes through. */
  lemma InsertStepOk(d0: DiskState, d: DiskState, table: string, row: Row)
    requires DiskOk(d0) && LineFor(d0.catalog, table).Some? && IsIdentifier(table)
    requires RowError(SchemeOf(d0.catalog, table), Bag(d0.pages, IdOf(d0.catalog, table)), row).None?
    requires InsertStep(d0, d, IdOf(d0.catalog, table), LineOf(LogInsert(table, row)), RowText(row))
    ensures DiskOk(d) && d.catalog == d0.catalog
  {
    hide Bag, HealthyBag, RowText, Fits, LineOf, RowError, OthersKept, LogOk;
    TableFacts(d0, table);
    var id, scheme, line := IdOf(d0.catalog, table), SchemeOf(d0.catalog, table), LineOf(LogInsert(table, row));
    RowNotEmpty(scheme, Bag(d0.pages, id), row);
    InsertKeepsKeys(scheme, Bag(d0.pages, id), row);
    TablesStayOk(d0, d, table);
    InsertedLogOk(d0.catalog, d0.lines, table, row);
    LogOkIsUnflagged(d0.catalog, d0.lines + [line]);
    CommittedLogOk(d0.catalog, d0.lines + [line]);
    assert d0.lines + [line] + [COMMIT] == d0.lines + [line, COMMIT];
  }

  lemma LogOkIsUnflagged(catalog: seq<TableLine>, lines: seq<string>)
    requires LogOk(catalog, lines)
    ensures Unflagged(lines)
  {
  }

  /** A table that has a part of its old rows, or of rows that are in order, is in order. */
  lemma PartStaysOk(d0: DiskState, d: DiskState, table: string, rows: multiset<string>)
    requires TablesOk(d0) && LineFor(d0.catalog, table).Some? && d.catalog == d0.catalog && PagesOk(d.pages)
    requires OthersKept(d0.pages, d.pages, IdOf(d0.catalog, table)) && HasPart(d0, d, IdOf(d0.catalog, table), rows)
    requires HealthyBag(SchemeOf(d0.catalog, table), rows)
    ensures TablesOk(d)
  {
    hide Bag, HealthyBag, OthersKept, PagesOk, TablesOk;
    TableFacts(d0, table);
    var id, scheme := IdOf(d0.catalog, table), SchemeOf(d0.catalog, table);
    if Bag(d.pages, id) <= rows {
      HealthyPart(scheme, Bag(d.pages, id), rows);
    } else {
      HealthyPart(scheme, Bag(d.pages, id), Bag(d0.pages, id));
    }
    TablesStayOk(d0, d, table);
  }

  /** A state that a DELETE or an UPDATE goes through. */
  lemma ReplaceStepOk(d0: DiskState, d: DiskState, x: Suffix)
    requires DiskOk(d0) && x.Replacement? && SuffixLoggable(x) && JobOk(d0.catalog, Restore(x.table, x.rows))
    requires ReplaceStep(d0, d, IdOf(d0.catalog, x.table), BlockLines(x.table, x.condition, x.rows),
                         multiset(Survivors(SchemeOf(d0.catalog, x.table), x.rows)))
    ensures DiskOk(d) && d.catalog == d0.catalog
  {
    hide Bag, HealthyBag, Survivors, BlockLines, OthersKept, PagesOk, LogOk, TablesOk, Loggable, HasPart;
    var id, scheme, block := IdOf(d0.catalog, x.table), SchemeOf(d0.catalog, x.table),
        BlockLines(x.table, x.condition, x.rows);
    var all := multiset(Survivors(scheme, x.rows));
    if Whole(d0, d, id, block, all) {
      assert block[..|block|] == block;
      BlockLogOk(d0.catalog, d0.lines, x, |block|);
      LogOkIsUnflagged(d0.catalog, d0.lines + block);
      CommittedLogOk(d0.catalog, d0.lines + block);
      PartStaysOk(d0, d, x.table, all);
    } else {
      var j: nat :| 0 < j && Torn(d0, d, block, j);
      BlockLogOk(d0.catalog, d0.lines, x, j);
      SameTablesOk(d0, d);
    }
  }

  lemma SameTablesOk(d0: DiskState, d: DiskState)
    requires TablesOk(d0) && d == d0.(lines := d.lines)
    ensures TablesOk(d)
  {
  }

  /** Everything since `h0`, and the disk now, is in order; the catalog is what it was. */
  ghost predicate StaysOk(h0: seq<DiskState>, d0: DiskState, h: seq<DiskState>, d: DiskState)
  {
    && |h0| <= |h| && h[..|h0|] == h0
    && (forall k | |h0| <= k < |h| :: DiskOk(h[k]) && h[k].catalog == d0.catalog)
    && DiskOk(d) && d.catalog == d0.catalog
  }

  lemma InsertStaysOk(h0: seq<DiskState>, d0: DiskState, h: seq<DiskState>, d: DiskState, table: string, row: Row,
                      failed: bool)
    requires DiskOk(d0) && IsIdentifier(table) && row != []
    requires InsertDone(h0, d0, h, d, table, row, failed)
    ensures StaysOk(h0, d0, h, d)
  {
    hide DiskOk, LineOf, RowText, InsertStep, Bag, RowError;
    if RowError(SchemeOf(d0.catalog, table), Bag(d0.pages, IdOf(d0.catalog, table)), row).None? {
      NoTableNoRow(d0, table, row);
      forall k | |h0| <= k < |h| ensures DiskOk(h[k]) && h[k].catalog == d0.catalog {
        InsertStepOk(d0, h[k], table, row);
      }
      InsertStepOk(d0, d, table, row);
    }
  }

  lemma NoTableNoRow(d: DiskState, table: string, row: Row)
    requires RowError(SchemeOf(d.catalog, table), Bag(d.pages, IdOf(d.catalog, table)), row).None? && row != []
    ensures LineFor(d.catalog, table).Some?
  {
  }

  lemma ReplaceStaysOk(h0: seq<DiskState>, d0: DiskState, h: seq<DiskState>, d: DiskState, x: Suffix)
    requires DiskOk(d0) && x.Replacement? && SuffixLoggable(x) && JobOk(d0.catalog, Restore(x.table, x.rows))
    requires ReplaceDone(h0, d0, h, d, x.table, x.condition, x.rows)
    ensures StaysOk(h0, d0, h, d)
  {
    hide DiskOk, BlockLines, Survivors, SuffixLoggable, JobOk, Torn, Whole;
    forall k | |h0| <= k < |h| ensures DiskOk(h[k]) && h[k].catalog == d0.catalog {
      ReplaceStepOk(d0, h[k], x);
    }
    ReplaceStepOk(d0, d, x);
  }

  /** A statement that has nothing to do writes nothing, or just a COMMIT. */
  lemma IneffectiveIsIdle(num: NumberParser, h0: seq<DiskState>, d0: DiskState, h: seq<DiskState>, d: DiskState,
                          s: Statement)
    requires Executable(s) && !Effective(num, d0, s) && Executed(num, false, h0, d0, h, d, s)
    ensures (h == h0 && d == d0) || (h == h0 + [d] && d == d0.(lines := d0.lines + [COMMIT]))
  {
    hide ReplaceDone, Kept, UpdatePreview, StoredTexts, KeyAssignmentsOk, InsertRun, InsertStep, RowError;
  }

  lemma EffectiveIsDone(num: NumberParser, h0: seq<DiskState>, d0: DiskState, h: seq<DiskState>, d: DiskState,
                        s: Statement)
    requires Executable(s) && Effective(num, d0, s) && Executed(num, false, h0, d0, h, d, s)
    ensures s.Insert? ==>
              var row := RowMeant(SchemeOf(d0.catalog, s.table), s);
              InsertDone(h0, d0, h, d, s.table, row, true) || InsertDone(h0, d0, h, d, s.table, row, false)
    ensures !s.Insert? ==> ReplaceDone(h0, d0, h, d, s.table, s.condition, RowsMeant(num, d0, s))
  {
    hide ReplaceDone, InsertDone, Kept, UpdatePreview, StoredTexts, KeyAssignmentsOk, RowError;
  }

  lemma IdleStaysOk(h0: seq<DiskState>, d0: DiskState, h: seq<DiskState>, d: DiskState)
    requires DiskOk(d0)
    requires (h == h0 && d == d0) || (h == h0 + [d] && d == d0.(lines := d0.lines + [COMMIT]))
    ensures StaysOk(h0, d0, h, d)
  {
    hide TablesOk, LogOk;
    LogOkIsUnflagged(d0.catalog, d0.lines);
    CommittedLogOk(d0.catalog, d0.lines);
    SameTablesOk(d0, d);
  }

  function Block(s: Statement, rows: seq<Row>): Suffix
    requires !s.Insert?
  {
    Replacement(s.table, s.condition, rows)
  }

  /** The rows that a statement leaves can be logged as a block, and restored from it. */
  lemma BlockIsOk(num: NumberParser, d0: DiskState, s: Statement)
    requires !s.Insert? && TablesOk(d0) && Regular(d0, s) && Effective(num, d0, s)
    ensures SuffixLoggable(Block(s, RowsMeant(num, d0, s)))
            && JobOk(d0.catalog, Restore(s.table, RowsMeant(num, d0, s)))
  {
    hide RowsMeant, HealthyBag, Survivors, Effective;
    RowsMeantAreHealthy(num, d0, s);
    var rows, scheme := RowsMeant(num, d0, s), SchemeOf(d0.catalog, s.table);
    forall i | 0 <= i < |rows| ensures Loggable(LogReplaceRow(s.table, rows[i])) {
      assert rows[i] in rows;
    }
    PartIsHealthy(scheme, rows, |rows|);
    assert rows[..|rows|] == rows;
  }

  lemma RowMeantIsSome(num: NumberParser, d0: DiskState, s: Statement)
    requires s.Insert? && Executable(s) && Effective(num, d0, s)
    ensures LineFor(d0.catalog, s.table).Some?
            && (s.columns == [] || ColumnsFit(SchemeOf(d0.catalog, s.table), s.columns))
    ensures RowMeant(SchemeOf(d0.catalog, s.table), s) != []
  {
    if s.columns != [] {
      assert ColumnIndex(SchemeOf(d0.catalog, s.table), s.columns[0]).Some?;
    }
  }

  lemma InsertedStaysOk(num: NumberParser, h0: seq<DiskState>, d0: DiskState, h: seq<DiskState>, d: DiskState,
                        s: Statement)
    requires DiskOk(d0) && Executable(s) && s.Insert? && IsIdentifier(s.table) && Effective(num, d0, s)
    requires Executed(num, false, h0, d0, h, d, s)
    ensures StaysOk(h0, d0, h, d)
  {
    hide DiskOk, Executed, InsertDone, StaysOk, IsIdentifier, RowError;
    EffectiveIsDone(num, h0, d0, h, d, s);
    RowMeantIsSome(num, d0, s);
    var row := RowMeant(SchemeOf(d0.catalog, s.table), s);
    InsertStaysOk(h0, d0, h, d, s.table, row, !InsertDone(h0, d0, h, d, s.table, row, false));
  }

  /** Whatever a statement does, accepted or not, with a key or without, and whether its rows fit a page or not: every
      state of the disk on the way is in order. */
  lemma ExecutedStaysOk(num: NumberParser, h0: seq<DiskState>, d0: DiskState, h: seq<DiskState>, d: DiskState,
                        s: Statement)
    requires DiskOk(d0) && Executable(s) && IsIdentifier(s.table) && (s.Insert? || Regular(d0, s))
    requires Executed(num, false, h0, d0, h, d, s)
    ensures StaysOk(h0, d0, h, d)
  {
    hide DiskOk, Effective, Executed, RowsMeant, RowMeant, InsertDone, ReplaceDone, StaysOk, Regular, IsIdentifier,
         SuffixLoggable, JobOk;
    if !Effective(num, d0, s) {
      IneffectiveIsIdle(num, h0, d0, h, d, s);
      IdleStaysOk(h0, d0, h, d);
    } else {
      if s.Insert? {
        InsertedStaysOk(num, h0, d0, h, d, s);
      } else {
        DiskHasTables(d0);
        EffectiveIsDone(num, h0, d0, h, d, s);
        BlockIsOk(num, d0, s);
        ReplaceStaysOk(h0, d0, h, d, Block(s, RowsMeant(num, d0, s)));
      }
    }
  }

  lemma DiskHasTables(d: DiskState)
    requires DiskOk(d)
    ensures TablesOk(d) && LogOk(d.catalog, d.lines)
  {
  }

  // ---- Recovery ---------------------------------------------------------------------------

  lemma CommitStaysOk(h0: seq<DiskState>, d0: DiskState, h: seq<DiskState>, d: DiskState)
    requires EndsInCommit(h, d) && StaysOk(h0, d0, h[..|h| - 1], Before(d))
    ensures StaysOk(h0, d0, h, d)
  {
    hide DiskOk;
    var h1, d1 := h[..|h| - 1], Before(d);
    assert d.lines == d1.lines + [COMMIT];
    IdleStaysOk(h1, d1, h1 + [d], d);
    assert h == h1 + [d];
    forall k | |h0| <= k < |h| ensures DiskOk(h[k]) && h[k].catalog == d0.catalog {
      assert k < |h1| ==> h[k] == h1[k];
    }
    assert h[..|h0|] == h1[..|h0|];
  }

  lemma RestoreStaysOk(h0: seq<DiskState>, d0: DiskState, h: seq<DiskState>, d: DiskState, table: string,
                       rows: seq<Row>)
    requires DiskOk(d0) && JobOk(d0.catalog, Restore(table, rows)) && RewriteReplayed(h0, d0, h, d, table, rows)
    ensures StaysOk(h0, d0, h, d)
  {
    hide Bag, HealthyBag, Survivors, OthersKept, PagesOk, LogOk, TablesOk;
    var id, all := IdOf(d0.catalog, table), multiset(Survivors(SchemeOf(d0.catalog, table), rows));
    forall k | |h0| <= k < |h| ensures DiskOk(h[k]) && h[k].catalog == d0.catalog {
      assert OnlyRows(d0, h[k], id) && HasPart(d0, h[k], id, all);
      PartStaysOk(d0, h[k], table, all);
    }
    PartStaysOk(d0, d, table, all);
  }

  lemma JobStaysOk(num: NumberParser, h0: seq<DiskState>, d0: DiskState, job: Job, h: seq<DiskState>, d: DiskState)
    requires DiskOk(d0) && JobOk(d0.catalog, job) && JobDone(num, h0, d0, job, h, d)
    ensures StaysOk(h0, d0, h, d)
  {
    hide DiskOk, Executed, RewriteReplayed, StaysOk, Before, HealthyBag, Survivors, LineFor;
    var h1, d1 := h[..|h| - 1], Before(d);
    match job {
      case Run(s) => ExecutedStaysOk(num, h0, d0, h1, d1, s);
      case Restore(table, rows) => RestoreStaysOk(h0, d0, h1, d1, table, rows);
      case Skip => IdleStaysOk(h0, d0, h1, d1);
    }
    CommitStaysOk(h0, d0, h, d);
  }

  lemma StaysOkTwice(h0: seq<DiskState>, d0: DiskState, h1: seq<DiskState>, d1: DiskState, h: seq<DiskState>,
                     d: DiskState)
    requires StaysOk(h0, d0, h1, d1) && StaysOk(h1, d1, h, d)
    ensures StaysOk(h0, d0, h, d)
  {
    hide DiskOk;
    assert h[..|h0|] == h1[..|h0|];
    forall k | |h0| <= k < |h| ensures DiskOk(h[k]) && h[k].catalog == d0.catalog {
      assert k < |h1| ==> h[k] == h1[k];
    }
  }

  lemma {:induction false} PlanStaysOk(num: NumberParser, h0: seq<DiskState>, d0: DiskState, plan: seq<Job>,
                                       h: seq<DiskState>, d: DiskState)
    requires DiskOk(d0) && PlanOk(d0.catalog, plan) && Replayed(num, h0, d0, plan, h, d)
    ensures StaysOk(h0, d0, h, d)
    decreases |plan|
  {
    hide DiskOk, JobOk, JobDone;
    if |plan| > 0 {
      var h1: seq<DiskState>, d1: DiskState :|
        JobDone(num, h0, d0, plan[0], h1, d1) && Replayed(num, h1, d1, plan[1..], h, d);
      JobStaysOk(num, h0, d0, plan[0], h1, d1);
      assert forall i | 0 <= i < |plan[1..]| :: plan[1..][i] == plan[i + 1];
      PlanStaysOk(num, h1, d1, plan[1..], h, d);
      StaysOkTwice(h0, d0, h1, d1, h, d);
    }
  }

  /** Recovery keeps the disk in order at every step, from every state that is in order, whatever is pending. */
  lemma RecoveryStaysOk(num: NumberParser, h0: seq<DiskState>, d0: DiskState, h: seq<DiskState>, d: DiskState)
    requires DiskOk(d0) && Replayed(num, h0, d0, Plan(Pending(d0.lines)), h, d)
    ensures StaysOk(h0, d0, h, d)
  {
    PlanStaysOk(num, h0, d0, Plan(Pending(d0.lines)), h, d);
  }

  // ---- From a client's text to what recovery does -----------------------------------------

  /** The lines that are written for a statement before any page is touched. */
  ghost function LinesFor(num: NumberParser, d0: DiskState, s: Statement): seq<string>
    requires Executable(s) && Effective(num, d0, s)
  {
    if s.Insert? then [LineOf(LogInsert(s.table, RowMeant(SchemeOf(d0.catalog, s.table), s)))]
    else BlockLines(s.table, s.condition, RowsMeant(num, d0, s))
  }

  /** What recovery is to do if the statement is interrupted then: insert the row, its columns in the order of the
      table, or restore the rows that were to be left. */
  ghost function JobFor(num: NumberParser, d0: DiskState, s: Statement): Job
    requires Executable(s) && Effective(num, d0, s)
  {
    if s.Insert? then Run(Insert(s.table, [], RowMeant(SchemeOf(d0.catalog, s.table), s)))
    else Restore(s.table, RowsMeant(num, d0, s))
  }

  lemma LinesAreSeen(num: NumberParser, h0: seq<DiskState>, d0: DiskState, h: seq<DiskState>, d: DiskState,
                     s: Statement) returns (k: nat)
    requires Executable(s) && Effective(num, d0, s) && Executed(num, false, h0, d0, h, d, s)
    ensures |h0| <= k < |h| && h[k] == d0.(lines := d0.lines + LinesFor(num, d0, s))
  {
    hide Effective, Executed, RowMeant, RowsMeant, LineOf, InsertRun, InsertStep, ReplaceRun, Whole, RowError, RowText;
    EffectiveIsDone(num, h0, d0, h, d, s);
    if s.Insert? {
      InsertIsEffective(num, d0, s);
      k := |h0|;
    } else {
      var block := LinesFor(num, d0, s);
      k := |h0| + |block| - 1;
      assert block[..|block|] == block;
      assert h[k] == h[..|h0| + |block|][k];
    }
  }

  lemma InsertIsEffective(num: NumberParser, d0: DiskState, s: Statement)
    requires s.Insert? && Executable(s) && Effective(num, d0, s)
    ensures var scheme := SchemeOf(d0.catalog, s.table);
            && (s.columns == [] || ColumnsFit(scheme, s.columns))
            && RowError(scheme, Bag(d0.pages, IdOf(d0.catalog, s.table)), RowMeant(scheme, s)).None?
  {
  }

  /** A statement that a client sends as text and that has something to do is logged first. If it is interrupted then,
      what recovery reads back from the log, builds SQL from, lexes and parses asks for that statement, behind what was
      pending already. */
  lemma ClientStatementReplays(num: NumberParser, sql: string, s: Statement, h0: seq<DiskState>, d0: DiskState,
                               h: seq<DiskState>, d: DiskState) returns (k: nat)
    requires DiskOk(d0) && StatementOf(Tokens(sql)) == Accepted(s) && LineFor(d0.catalog, s.table).Some?
    requires Executable(s) && Effective(num, d0, s) && Executed(num, false, h0, d0, h, d, s)
    ensures |h0| <= k < |h| && h[k] == d0.(lines := d0.lines + LinesFor(num, d0, s))
    ensures Plan(Pending(h[k].lines)) == Plan(Pending(d0.lines)) + [JobFor(num, d0, s)]
  {
    hide Effective, Executed, RowMeant, RowsMeant, LineOf, Pending, Plan, StatementOf, Tokens, DiskOk, BlockLines,
         RowError, JobOk, SuffixLoggable, Unflagged, EntryOf, SuffixEntries;
    k := LinesAreSeen(num, h0, d0, h, d, s);
    ParsedIsWellFormed(sql, s);
    DiskHasTables(d0);
    LogOkIsUnflagged(d0.catalog, d0.lines);
    if s.Insert? {
      RowMeantIsSome(num, d0, s);
      var r := LogInsert(s.table, RowMeant(SchemeOf(d0.catalog, s.table), s));
      PendingLogged(d0.lines, r);
      PlanOfInsert(r);
      LoggedEntry(r);
      PlanAppend(Pending(d0.lines), [EntryOf(r)]);
    } else {
      BlockIsOk(num, d0, s);
      var x := Block(s, RowsMeant(num, d0, s));
      var block := BlockLines(s.table, s.condition, x.rows);
      assert block[..|x.rows| + 1] == block && x.rows[..|x.rows|] == x.rows;
      PartPends(d0.lines, x, |x.rows| + 1);
      PlanOfReplacement(x);
      SuffixIsWritten(x);
      PlanAppend(Pending(d0.lines), SuffixEntries(x));
    }
  }
}
