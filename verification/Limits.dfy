// Where the promises end: exactly when a statement, or a repeated recovery, does less than it should.
module Limits {
  import opened StringUtils
  import opened Sql
  import opened Pages
  import opened SqlText
  import opened Storage
  import opened TableRows
  import opened Values
  import opened TableIndex
  import opened Rewrites
  import opened Catalogs
  import opened WalFormat
  import opened Recovery
  import opened Crashes
  import opened Statements
  import opened Engines
  import opened Replays
  import opened Meanings
  import opened Integrity
  import opened Restarts
  import opened Safety
  import opened Runs

  // ---- A crash during a statement ---------------------------------------------------------

  /** A row of an accepted DELETE or UPDATE has the table's shape, so it can be stored if and only if it fits a page. */
  lemma RowsMeantHaveShape(num: NumberParser, d0: DiskState, s: Statement)
    requires !s.Insert? && TablesOk(d0) && LineFor(d0.catalog, s.table).Some? && Executable(s) && Effective(num, d0, s)
    ensures forall row | row in RowsMeant(num, d0, s) ::
              Storable(SchemeOf(d0.catalog, s.table), row) <==> Fits(RowText(row))
    ensures s.Delete? ==> forall row | row in RowsMeant(num, d0, s) :: Fits(RowText(row))
  {
    hide Fits, RowText, Healthy;
    TextFacts(d0, s.table);
    var scheme, texts := SchemeOf(d0.catalog, s.table), StoredTexts(d0.pages, IdOf(d0.catalog, s.table));
    match s {
      case Delete(_, condition) =>
        DeleteLeavesFailing(num, scheme, condition, texts);
        AllSurvive(scheme, Kept(num, scheme, condition, texts));
      case Update(_, assignments, condition) => UpdateKeepsShape(num, scheme, condition, assignments, texts);
    }
  }

  /** README.md:264-265 promises of DELETE and UPDATE that a crash leaves the state before or after the statement. Of a
      statement that has something to do, this holds in `e`, a state of the disk while it runs, if and only if none of
      its block's lines was logged, or all of them but for rows that fit no page; of an INSERT, if and only if its row
      has a key, or has not reached its page, or is committed. */
  lemma AtomicIff(num: NumberParser, h0: seq<DiskState>, d0: DiskState, h: seq<DiskState>, d: DiskState, s: Statement,
                  e: DiskState)
    requires Good(d0) && Regular(d0, s) && Effective(num, d0, s)
    requires Executed(num, false, h0, d0, h, d, s) && Seen(h0, d0, h, d, e)
    ensures var id, scheme, n := IdOf(d0.catalog, s.table), SchemeOf(d0.catalog, s.table), Logged(d0, e);
            Recovered(e, id) == Bag(d0.pages, id) || Recovered(e, id) == After(num, d0, s)
            <==> if s.Insert?
                 then n != 1 || !Keyless(scheme, RowMeant(scheme, s)) || Bag(e.pages, id) == Bag(d0.pages, id)
                 else n == 0 || forall i | n - 1 <= i < |RowsMeant(num, d0, s)| ::
                     !Fits(RowText(RowsMeant(num, d0, s)[i]))
  {
    hide Good, Executed, CrashSafe, Ended, Recovered, Bag, Regular, Effective, Survivors, Storable, RowsMeant,
         RowMeant, After, Promised, DiskOk, Keyless, Fits, RowText;
    StatementIsSafe(num, h0, d0, h, d, s);
    IdleIsCrashSafe(num, d0, s, d0);
    RegularFacts(d0, s);
    GoodFacts(d0);
    CrashPromise(num, d0, s, e);
    if s.Insert? {
      InsertAtomicIff(num, h0, d0, h, d, s, e);
    } else {
      ReplaceAtomicIff(num, d0, s, e);
    }
  }

  lemma CrashPromise(num: NumberParser, d0: DiskState, s: Statement, e: DiskState)
    requires Executable(s) && CrashSafe(num, d0, s, e)
    ensures Recovered(e, IdOf(d0.catalog, s.table)) == Promised(num, d0, s, e)
  {
  }

  lemma ReplaceAtomicIff(num: NumberParser, d0: DiskState, s: Statement, e: DiskState)
    requires !s.Insert? && TablesOk(d0) && Regular(d0, s) && Effective(num, d0, s)
    ensures var rows, n := RowsMeant(num, d0, s), Logged(d0, e);
            Promised(num, d0, s, e) == Bag(d0.pages, IdOf(d0.catalog, s.table))
                || Promised(num, d0, s, e) == After(num, d0, s)
            <==> n == 0 || forall i | n - 1 <= i < |rows| :: !Fits(RowText(rows[i]))
  {
    hide Bag, Survivors, Storable, Effective, TablesOk, RowsMeant, Fits, RowText;
    RegularFacts(d0, s);
    NotMoreRows(num, d0, s);
    RowsMeantHaveShape(num, d0, s);
    var scheme, rows, n := SchemeOf(d0.catalog, s.table), RowsMeant(num, d0, s), Logged(d0, e);
    if 0 < n <= |rows| {
      PartIsComplete(scheme, rows, n - 1, Bag(d0.pages, IdOf(d0.catalog, s.table)));
      assert rows[n - 1] in rows;
      assert forall i | n - 1 <= i < |rows| ::
               rows[i] in rows && (Storable(scheme, rows[i]) <==> Fits(RowText(rows[i])));
    }
  }

  /** Every state while an INSERT runs is the one that it found, or one of its steps. */
  lemma InsertSteps(num: NumberParser, h0: seq<DiskState>, d0: DiskState, h: seq<DiskState>, d: DiskState,
                    s: Statement, e: DiskState)
    requires s.Insert? && Executable(s) && Effective(num, d0, s) && Executed(num, false, h0, d0, h, d, s)
             && Seen(h0, d0, h, d, e)
    ensures var row := RowMeant(SchemeOf(d0.catalog, s.table), s);
            e == d0 || InsertStep(d0, e, IdOf(d0.catalog, s.table), LineOf(LogInsert(s.table, row)), RowText(row))
  {
    hide Executed, Effective, InsertStep, RowMeant, LineOf, RowText, Bag, RowError;
    EffectiveIsDone(num, h0, d0, h, d, s);
    InsertMeans(num, d0, s);
  }

  lemma InsertAtomicIff(num: NumberParser, h0: seq<DiskState>, d0: DiskState, h: seq<DiskState>, d: DiskState,
                        s: Statement, e: DiskState)
    requires s.Insert? && Executable(s) && Effective(num, d0, s) && Executed(num, false, h0, d0, h, d, s)
             && Seen(h0, d0, h, d, e)
    ensures var id, scheme := IdOf(d0.catalog, s.table), SchemeOf(d0.catalog, s.table);
            Promised(num, d0, s, e) == Bag(d0.pages, id) || Promised(num, d0, s, e) == After(num, d0, s)
            <==> Logged(d0, e) != 1 || !Keyless(scheme, RowMeant(scheme, s)) || Bag(e.pages, id) == Bag(d0.pages, id)
  {
    hide Executed, Effective, RowMeant, LineOf, RowText, Bag, RowError, Keyless, Fits, OthersKept, PagesOk, Repeats,
         Inserted;
    InsertSteps(num, h0, d0, h, d, s, e);
    RowMeantIsSome(num, d0, s);
    InsertMeans(num, d0, s);
    var id, scheme := IdOf(d0.catalog, s.table), SchemeOf(d0.catalog, s.table);
    var row := RowMeant(scheme, s);
    if Keyless(scheme, row) {
      KeylessStored(scheme, row);
      var b0, t := Bag(d0.pages, id), RowText(row);
      assert (b0 + multiset{t} + multiset{t})[t] == (b0 + multiset{t})[t] + 1 == b0[t] + 2;
    }
  }

  // ---- An UPDATE that makes rows too long -------------------------------------------------

  /** An UPDATE keeps the number of rows if and only if all its new rows fit a page; the others are lost. */
  lemma UpdateKeepsCountIff(num: NumberParser, d0: DiskState, s: Statement)
    requires s.Update? && TablesOk(d0) && Regular(d0, s) && Effective(num, d0, s)
    ensures |After(num, d0, s)| == |Bag(d0.pages, IdOf(d0.catalog, s.table))|
            <==> forall row | row in RowsMeant(num, d0, s) :: Fits(RowText(row))
  {
    hide Bag, Survivors, Storable, Effective, TablesOk, RowsMeant, Fits, RowText;
    RegularFacts(d0, s);
    RowsMeantHaveShape(num, d0, s);
    UpdatedAsMany(num, d0, s);
    var scheme, rows := SchemeOf(d0.catalog, s.table), RowsMeant(num, d0, s);
    AllSurvive(scheme, rows);
    assert |multiset(Survivors(scheme, rows))| == |Survivors(scheme, rows)|;
  }

  lemma UpdatedAsMany(num: NumberParser, d0: DiskState, s: Statement)
    requires s.Update? && TablesOk(d0) && LineFor(d0.catalog, s.table).Some? && Effective(num, d0, s)
    ensures |RowsMeant(num, d0, s)| == |Bag(d0.pages, IdOf(d0.catalog, s.table))|
  {
    hide Bag, StoredTexts, Healthy, Fits, KeyAssignmentsOk, Updated, Scanned;
    TextFacts(d0, s.table);
    var scheme, texts := SchemeOf(d0.catalog, s.table), StoredTexts(d0.pages, IdOf(d0.catalog, s.table));
    assert |multiset(texts)| == |texts|;
    UpdatedCount(num, scheme, s.condition, s.assignments, texts);
  }

  // ---- A row without a key ----------------------------------------------------------------

  /** The entry that an INSERT leaves in the log. */
  function CopyOf(x: Suffix): Entry
    requires x.Insertion?
  {
    EntryOf(LogInsert(x.table, x.row))
  }

  /** Only copies of the INSERT are pending, and INSERTs that failed, in any order. */
  ghost predicate Mixed(es: seq<Entry>, x: Suffix)
    requires x.Insertion?
  {
    forall i | 0 <= i < |es| :: Oversized(es[i]) || es[i] == CopyOf(x)
  }

  /** Against `d0`, the table has `m` copies of the row more; no other table has changed. */
  ghost predicate Multiplied(d0: DiskState, x: Suffix, d: DiskState, m: nat)
    requires x.Insertion?
  {
    var id := IdOf(d0.catalog, x.table);
    && d.catalog == d0.catalog && Mixed(Pending(d.lines), x)
    && Bag(d.pages, id) == Bag(d0.pages, id) + Times(RowText(x.row), m)
    && forall other | other != id && other != 0 :: Bag(d.pages, other) == Bag(d0.pages, other)
  }

  ghost predicate Multiplies(d0: DiskState, x: Suffix, d: DiskState)
    requires x.Insertion?
  {
    exists m: nat :: Multiplied(d0, x, d, m)
  }

  /** The row can be inserted without a key, and its INSERT can be logged. */
  ghost predicate KeylessIn(d0: DiskState, x: Suffix)
  {
    && x.Insertion? && SuffixLoggable(x) && Keyless(SchemeOf(d0.catalog, x.table), x.row)
    && IsTable(d0.catalog, x.table, IdOf(d0.catalog, x.table))
  }

  /** A step of the INSERT, the first or a replayed one. */
  lemma StepMultiplies(d0: DiskState, x: Suffix, d: DiskState, e: DiskState)
    requires x.Insertion? && KeylessIn(d0, x) && Multiplies(d0, x, d)
    requires InsertStep(d, e, IdOf(d0.catalog, x.table), LineOf(LogInsert(x.table, x.row)), RowText(x.row))
    ensures Multiplies(d0, x, e)
  {
    hide LineOf, RowText, Bag, OthersKept, PagesOk, Fits, Pending, EntryOf, Keyless;
    var m: nat :| Multiplied(d0, x, d, m);
    var id, t, line := IdOf(d0.catalog, x.table), RowText(x.row), LineOf(LogInsert(x.table, x.row));
    PendingLogged(d.lines, LogInsert(x.table, x.row));
    PendingCommitted(d.lines + [line]);
    assert d.lines + [line] + [COMMIT] == d.lines + [line, COMMIT];
    assert Times(t, m) + multiset{t} == Times(t, m + 1);
    assert Bag(d0.pages, id) + Times(t, m) + multiset{t} == Bag(d0.pages, id) + Times(t, m + 1);
    forall other | other != id && other != 0 ensures Bag(e.pages, other) == Bag(d0.pages, other) {
      BagOfOthers(d.pages, e.pages, id, other);
    }
    assert Multiplied(d0, x, e, if Bag(e.pages, id) == Bag(d.pages, id) then m else m + 1);
  }

  /** A step of an INSERT that fails again. */
  lemma FailingStepMultiplies(d0: DiskState, x: Suffix, d: DiskState, table: string, row: Row, e: DiskState)
    requires x.Insertion? && KeylessIn(d0, x) && Multiplies(d0, x, d)
    requires IsIdentifier(table) && row != [] && !Fits(RowText(row))
    requires InsertStep(d, e, IdOf(d.catalog, table), LineOf(LogInsert(table, row)), RowText(row))
    ensures Multiplies(d0, x, e)
  {
    hide LineOf, RowText, Bag, OthersKept, PagesOk, Fits, Pending, EntryOf, Keyless;
    var m: nat :| Multiplied(d0, x, d, m);
    PendingLogged(d.lines, LogInsert(table, row));
    InsertCopyReads(Suffix.Insertion(table, row, 0));
    assert Oversized(EntryOf(LogInsert(table, row)));
    forall id | id != 0 ensures Bag(e.pages, id) == Bag(d.pages, id) {
      if id != IdOf(d.catalog, table) {
        BagOfOthers(d.pages, e.pages, IdOf(d.catalog, table), id);
      }
    }
    assert Multiplied(d0, x, e, m);
  }

  lemma CommitMultiplies(d0: DiskState, x: Suffix, d: DiskState)
    requires x.Insertion? && KeylessIn(d0, x) && Multiplies(d0, x, d)
    ensures Multiplies(d0, x, d.(lines := d.lines + [COMMIT]))
  {
    hide Bag, RowText, Pending, Keyless;
    var m: nat :| Multiplied(d0, x, d, m);
    PendingCommitted(d.lines);
    assert Multiplied(d0, x, d.(lines := d.lines + [COMMIT]), m);
  }

  /** Everything since `h0` has copies of the row, and so has the disk now. */
  ghost predicate AllMultiply(d0: DiskState, x: Suffix, h0: seq<DiskState>, h: seq<DiskState>, d: DiskState)
    requires x.Insertion?
  {
    && |h0| <= |h| && h[..|h0|] == h0 && Multiplies(d0, x, d)
    && forall k | |h0| <= k < |h| :: Multiplies(d0, x, h[k])
  }

  /** An INSERT that recovery replays: of the row, or one that failed. */
  lemma InsertMultiplies(d0: DiskState, x: Suffix, h0: seq<DiskState>, d: DiskState, f: Entry, h: seq<DiskState>,
                         e: DiskState, failed: bool)
    requires x.Insertion? && KeylessIn(d0, x) && Multiplies(d0, x, d) && IsIdentifier(f.table)
             && (Oversized(f) || f == CopyOf(x))
    requires InsertDone(h0, d, h, e, f.table, RowOf(f.rowData), failed)
    ensures AllMultiply(d0, x, h0, h, e)
  {
    hide LineOf, RowText, Bag, InsertStep, Multiplied, Fits, RowError, Keyless, RowOf, EntryOf, LineFirst,
         IsIdentifier;
    var row := RowOf(f.rowData);
    SameCatalogAs(d0, x, d);
    InsertCopyReads(x);
    RowIsNotEmpty(f.rowData);
    if RowError(SchemeOf(d.catalog, f.table), Bag(d.pages, IdOf(d.catalog, f.table)), row).None? {
      forall s | s == e || exists k :: |h0| <= k < |h| && h[k] == s ensures Multiplies(d0, x, s) {
        if Oversized(f) {
          FailingStepMultiplies(d0, x, d, f.table, row, s);
        } else {
          StepMultiplies(d0, x, d, s);
        }
      }
    }
  }

  lemma RowIsNotEmpty(rowData: string)
    ensures RowOf(rowData) != []
  {
  }

  lemma SameCatalogAs(d0: DiskState, x: Suffix, d: DiskState)
    requires x.Insertion? && Multiplies(d0, x, d)
    ensures d.catalog == d0.catalog
  {
  }

  lemma JobMultiplies(num: NumberParser, d0: DiskState, x: Suffix, h0: seq<DiskState>, d: DiskState, f: Entry,
                      h: seq<DiskState>, e: DiskState)
    requires x.Insertion? && KeylessIn(d0, x) && Multiplies(d0, x, d) && IsIdentifier(f.table)
             && (Oversized(f) || f == CopyOf(x))
    requires JobDone(num, h0, d, Run(Insert(f.table, [], RowOf(f.rowData))), h, e)
    ensures AllMultiply(d0, x, h0, h, e)
  {
    hide InsertDone, Multiplies, KeylessIn, RowOf, Oversized, CopyOf, IsIdentifier;
    var row, h1, e1 := RowOf(f.rowData), h[..|h| - 1], Before(e);
    InsertMultiplies(d0, x, h0, d, f, h1, e1, !InsertDone(h0, d, h1, e1, f.table, row, false));
    CommitMultiplies(d0, x, e1);
    assert e1.(lines := e1.lines + [COMMIT]) == e;
    forall k | |h0| <= k < |h| ensures Multiplies(d0, x, h[k]) {
      assert k < |h1| ==> h[k] == h1[k];
    }
    assert h[..|h0|] == h1[..|h0|];
  }

  lemma {:induction false} PlanMultiplies(num: NumberParser, d0: DiskState, x: Suffix, h0: seq<DiskState>, d: DiskState,
                                          es: seq<Entry>, h: seq<DiskState>, e: DiskState)
    requires x.Insertion? && KeylessIn(d0, x) && Multiplies(d0, x, d) && Kinds(es) && Mixed(es, x)
    requires Replayed(num, h0, d, Plan(es), h, e)
    ensures AllMultiply(d0, x, h0, h, e)
    decreases |es|
  {
    hide Multiplies, JobDone, KeylessIn, Plan, SqlOf, JobOf, IsIdentifier, RowOf, CopyOf, Oversized;
    if |es| == 0 {
      PlanOfNothing();
      NothingReplayed(num, h0, d, Plan(es), h, e);
    } else {
      MixedIsInsert(es[0], d0, x);
      PlanOfEntry(es);
      JobOfInsert(es[0]);
      var h1: seq<DiskState>, d1: DiskState :|
        JobDone(num, h0, d, Plan(es)[0], h1, d1) && Replayed(num, h1, d1, Plan(es)[1..], h, e);
      JobMultiplies(num, d0, x, h0, d, es[0], h1, d1);
      assert forall i | 0 <= i < |es[1..]| :: es[1..][i] == es[i + 1];
      PlanMultiplies(num, d0, x, h1, d1, es[1..], h, e);
      assert h[..|h0|] == h1[..|h0|];
      forall k | |h0| <= k < |h| ensures Multiplies(d0, x, h[k]) {
        assert k < |h1| ==> h[k] == h1[k];
      }
    }
  }

  lemma MixedIsInsert(f: Entry, d0: DiskState, x: Suffix)
    requires KeylessIn(d0, x) && (Oversized(f) || f == CopyOf(x))
    ensures f.kind == "INSERT"
  {
  }

  /** Recovery with copies of the INSERT pending leaves copies stored and pending wherever it is interrupted. */
  lemma InterruptionMultiplies(num: NumberParser, d0: DiskState, x: Suffix, e: DiskState, e': DiskState)
    requires x.Insertion? && KeylessIn(d0, x) && Multiplies(d0, x, e) && DiskOk(e) && InterruptedAt(num, e, e')
    ensures Multiplies(d0, x, e')
  {
    hide Bag, RowText, KeylessIn, Plan, Replayed, TablesOk, PlanOk, Oversized, IsIdentifier, Unflagged;
    var m: nat :| Multiplied(d0, x, e, m);
    var h0: seq<DiskState>, h: seq<DiskState>, d: DiskState :| Recovers(num, h0, e, h, d) && Seen(h0, e, h, d, e');
    PlanMultiplies(num, d0, x, h0, e, Pending(e.lines), h, d);
  }

  lemma {:induction false} LastMultiplies(num: NumberParser, d0: DiskState, x: Suffix, e: DiskState,
                                          attempts: seq<DiskState>, d1: DiskState)
    requires x.Insertion? && KeylessIn(d0, x) && Multiplies(d0, x, e) && DiskOk(e)
             && RestartedAfter(num, e, attempts, d1)
    ensures Multiplies(d0, x, Last(e, attempts))
    decreases |attempts|
  {
    hide Multiplies, KeylessIn, InterruptedAt, Restarted, DiskOk;
    if |attempts| > 0 {
      InterruptionMultiplies(num, d0, x, e, attempts[0]);
      InterruptionStaysOk(num, e, attempts[0]);
      LastMultiplies(num, d0, x, attempts[0], attempts[1..], d1);
    }
  }

  lemma FirstOfMixed(lines: seq<TableLine>, id: int, b: multiset<string>, es: seq<Entry>, x: Suffix)
    requires x.Insertion? && SuffixLoggable(x) && Keyless(SchemeOf(lines, x.table), x.row) && IdOf(lines, x.table) == id
    requires es != [] && (Oversized(es[0]) || es[0] == CopyOf(x))
    ensures Outcome(lines, id, b, es)
            == Outcome(lines, id, if es[0] == CopyOf(x) then b + multiset{RowText(x.row)} else b, es[1..])
  {
    hide Outcome, Keyless, RowText, RowOf, Loggable, EntryOf, Accepts, RowsIn, Survivors, Oversized;
    InsertCopyReads(x);
    if Oversized(es[0]) {
      OversizedIsRefused(SchemeOf(lines, es[0].table), b, es[0]);
      CopyIsNotOversized(SchemeOf(lines, x.table), x);
    } else {
      KeylessParts(SchemeOf(lines, x.table), x.row);
      KeylessIsAccepted(SchemeOf(lines, x.table), b, x.row);
    }
    OutcomeFirst(lines, id, b, es);
  }

  lemma CountFirst<T>(es: seq<T>, e: T)
    requires es != []
    ensures multiset(es)[e] == multiset(es[1..])[e] + if es[0] == e then 1 else 0
  {
    assert es == [es[0]] + es[1..];
    assert multiset([es[0]] + es[1..]) == multiset{es[0]} + multiset(es[1..]);
  }

  /** Every pending copy will be stored, and nothing else. */
  lemma {:induction false} OutcomeOfMixed(lines: seq<TableLine>, id: int, b: multiset<string>, es: seq<Entry>,
                                          x: Suffix)
    requires x.Insertion? && SuffixLoggable(x) && Keyless(SchemeOf(lines, x.table), x.row) && IdOf(lines, x.table) == id
    requires Mixed(es, x)
    ensures Outcome(lines, id, b, es) == b + Times(RowText(x.row), multiset(es)[CopyOf(x)])
    decreases |es|
  {
    hide Outcome, Keyless, RowText, Loggable, Oversized, CopyOf, Times;
    var t := RowText(x.row);
    if |es| == 0 {
      NoOutcomeOf(lines, id);
      NoTimes(b, t);
    } else {
      var rest := es[1..];
      assert forall i | 0 <= i < |rest| :: rest[i] == es[i + 1];
      FirstOfMixed(lines, id, b, es, x);
      CountFirst(es, CopyOf(x));
      TimesNext(b, t, multiset(rest)[CopyOf(x)]);
      OutcomeOfMixed(lines, id, if es[0] == CopyOf(x) then b + multiset{t} else b, rest, x);
    }
  }

  lemma NoTimes(b: multiset<string>, t: string)
    ensures b + Times(t, 0) == b
  {
  }

  lemma TimesNext(b: multiset<string>, t: string, n: nat)
    ensures b + multiset{t} + Times(t, n) == b + Times(t, n + 1)
  {
  }

  lemma KeylessParts(scheme: seq<Column>, row: Row)
    requires Keyless(scheme, row)
    ensures KeyOf(scheme, row).None? && Storable(scheme, row) && !KeyOverflows(scheme, row)
  {
  }

  lemma CopyIsNotOversized(scheme: seq<Column>, x: Suffix)
    requires x.Insertion? && SuffixLoggable(x) && Keyless(scheme, x.row)
    ensures !Oversized(CopyOf(x))
  {
    InsertCopyReads(x);
  }

  lemma OversizedIsRefused(scheme: seq<Column>, b: multiset<string>, e: Entry)
    requires Oversized(e)
    ensures !Accepts(scheme, b, RowOf(e.rowData)) && e.kind == "INSERT"
  {
  }

  lemma CrashMultiplies(num: NumberParser, h0: seq<DiskState>, d0: DiskState, h: seq<DiskState>, d: DiskState,
                        s: Statement, e: DiskState)
    requires Good(d0) && Regular(d0, s) && s.Insert? && Effective(num, d0, s)
    requires Keyless(SchemeOf(d0.catalog, s.table), RowMeant(SchemeOf(d0.catalog, s.table), s))
    requires Executed(num, false, h0, d0, h, d, s) && Seen(h0, d0, h, d, e)
    ensures var x := Suffix.Insertion(s.table, RowMeant(SchemeOf(d0.catalog, s.table), s), 0);
            KeylessIn(d0, x) && Multiplies(d0, x, e)
  {
    hide Executed, Effective, RowMeant, Bag, InsertStep, Pending, IsIdentifier, Keyless, RowText, TablesOk, LogOk,
         CatalogOk;
    RegularFacts(d0, s);
    GoodIsOk(d0);
    TableIsLive(d0.catalog, s.table);
    RowMeantIsSome(num, d0, s);
    var row := RowMeant(SchemeOf(d0.catalog, s.table), s);
    var x, id, t := Suffix.Insertion(s.table, row, 0), IdOf(d0.catalog, s.table), RowText(row);
    assert Bag(d0.pages, id) + Times(t, 0) == Bag(d0.pages, id);
    assert Multiplied(d0, x, d0, 0);
    InsertSteps(num, h0, d0, h, d, s, e);
    if e != d0 {
      StepMultiplies(d0, x, d0, e);
    }
  }

  /** A crash while a row without a key is inserted, and recovery, interrupted any number of times: the row is stored as
      many times as it was on its pages and in the log when the last interruption happened. So it is stored exactly once
      if and only if those are one. */
  lemma KeylessStoredOnceIff(num: NumberParser, h0: seq<DiskState>, d0: DiskState, h: seq<DiskState>, d: DiskState,
                             s: Statement, e: DiskState, attempts: seq<DiskState>, d1: DiskState)
    requires Good(d0) && Regular(d0, s) && s.Insert? && Effective(num, d0, s)
    requires Keyless(SchemeOf(d0.catalog, s.table), RowMeant(SchemeOf(d0.catalog, s.table), s))
    requires Executed(num, false, h0, d0, h, d, s) && Seen(h0, d0, h, d, e) && RestartedAfter(num, e, attempts, d1)
    ensures var row, id, last := RowMeant(SchemeOf(d0.catalog, s.table), s), IdOf(d0.catalog, s.table),
            Last(e, attempts);
            var text, waiting := RowText(row), multiset(Pending(last.lines))[EntryOf(LogInsert(s.table, row))];
            && Bag(d1.pages, id)[text] == Bag(last.pages, id)[text] + waiting
            && (Bag(d1.pages, id) == Bag(d0.pages, id) + multiset{text}
                <==> Bag(last.pages, id)[text] + waiting == Bag(d0.pages, id)[text] + 1)
  {
    hide Executed, Effective, RowMeant, Good, Bag, Pending, RestartedAfter, Seen, Keyless, RowText, DiskOk, Regular,
         Loggable, EntryOf, Mixed;
    RegularFacts(d0, s);
    RowMeantIsSome(num, d0, s);
    CrashMultiplies(num, h0, d0, h, d, s, e);
    ActionStaysOk(num, h0, d0, h, d, Execute(s), e);
    RestartArrives(num, e, attempts, d1);
    var x, last, id := Suffix.Insertion(s.table, RowMeant(SchemeOf(d0.catalog, s.table), s), 0), Last(e, attempts),
                       IdOf(d0.catalog, s.table);
    LastMultiplies(num, d0, x, e, attempts, d1);
    MultipliedRecovers(d0, x, last);
  }

  /** What the table of the row recovers to: the copies on its pages and those in the log. */
  lemma MultipliedRecovers(d0: DiskState, x: Suffix, d: DiskState)
    requires KeylessIn(d0, x) && Multiplies(d0, x, d)
    ensures var id, text, waiting := IdOf(d0.catalog, x.table), RowText(x.row), multiset(Pending(d.lines))[CopyOf(x)];
            && Recovered(d, id)[text] == Bag(d.pages, id)[text] + waiting
            && (Recovered(d, id) == Bag(d0.pages, id) + multiset{text}
                <==> Bag(d.pages, id)[text] + waiting == Bag(d0.pages, id)[text] + 1)
  {
    hide Bag, RowText, Pending, Keyless, Loggable, Mixed, CopyOf, Outcome;
    var m: nat :| Multiplied(d0, x, d, m);
    var id := IdOf(d0.catalog, x.table);
    OutcomeOfMixed(d0.catalog, id, Bag(d.pages, id), Pending(d.lines), x);
    TimesTwice(Bag(d0.pages, id), RowText(x.row), m, multiset(Pending(d.lines))[CopyOf(x)]);
  }

  lemma TimesTwice(b: multiset<string>, t: string, m: nat, n: nat)
    ensures (b + Times(t, m))[t] == b[t] + m && (b + Times(t, m) + Times(t, n))[t] == b[t] + m + n
    ensures b + Times(t, m) + Times(t, n) == b + multiset{t} <==> m + n == 1
  {
    if m + n == 1 {
      assert Times(t, m) + Times(t, n) == multiset{t};
      assert b + Times(t, m) + Times(t, n) == b + (Times(t, m) + Times(t, n));
    } else {
      assert (b + multiset{t})[t] == b[t] + 1;
    }
  }

  // ---- An INSERT that fits no page --------------------------------------------------------

  /** Carrying out the job changes nothing in the table `id` while its rows are `b`. */
  ghost predicate Calm(lines: seq<TableLine>, id: int, b: multiset<string>, job: Job)
  {
    match job
    case Run(s) =>
      s.Insert? && IdOf(lines, s.table) == id ==> !Accepts(SchemeOf(lines, s.table), b, s.values)
    case Restore(table, rows) =>
      IdOf(lines, table) == id ==> b == multiset{} && Survivors(SchemeOf(lines, table), rows) == []
    case Skip => true
  }

  ghost predicate PlanCalm(lines: seq<TableLine>, id: int, b: multiset<string>, plan: seq<Job>)
  {
    forall i | 0 <= i < |plan| :: Calm(lines, id, b, plan[i])
  }

  /** The table has the rows `b`, and recovers to them. */
  ghost predicate Steady(lines: seq<TableLine>, id: int, b: multiset<string>, d: DiskState)
  {
    d.catalog == lines && Bag(d.pages, id) == b && Recovered(d, id) == b
  }

  ghost predicate AllSteady(lines: seq<TableLine>, id: int, b: multiset<string>, h0: seq<DiskState>,
                            h: seq<DiskState>, d: DiskState)
  {
    && |h0| <= |h| && h[..|h0|] == h0 && Steady(lines, id, b, d)
    && forall k | |h0| <= k < |h| :: Steady(lines, id, b, h[k])
  }

  /** An INSERT that is logged behind other entries acts last. */
  lemma {:induction false} OutcomeOfLast(lines: seq<TableLine>, id: int, b: multiset<string>, es: seq<Entry>, f: Entry)
    requires f.kind == "INSERT"
    ensures var b' := Outcome(lines, id, b, es);
            Outcome(lines, id, b, es + [f])
            == if IdOf(lines, f.table) == id then Inserted(SchemeOf(lines, f.table), b', RowOf(f.rowData)) else b'
    decreases |es|
  {
    hide Outcome, Inserted, RowsIn, Survivors, RowOf;
    if |es| == 0 {
      assert es + [f] == [f] && [f][1..] == [];
      NoOutcomeOf(lines, id);
      OutcomeFirst(lines, id, b, [f]);
    } else {
      var n := if es[0].kind == "REPLACE_BEGIN" then 1 + RowEntries(es[1..]) else 1;
      assert (es + [f])[1..] == es[1..] + [f] && (es + [f])[0] == es[0];
      assert (es + [f])[1..n] == es[1..n] && (es + [f])[n..] == es[n..] + [f];
      RowEntriesBefore(es[1..], [f]);
      var b1 := OutcomeOfFirst(lines, id, b, es, n);
      var b2 := OutcomeOfFirst(lines, id, b, es + [f], n);
      OutcomeOfLast(lines, id, b1, es[n..], f);
    }
  }

  lemma NoOutcomeOf(lines: seq<TableLine>, id: int)
    ensures forall b :: Outcome(lines, id, b, []) == b
  {
  }

  /** What the first entry, or block, makes of the rows. */
  lemma OutcomeOfFirst(lines: seq<TableLine>, id: int, b: multiset<string>, es: seq<Entry>, n: nat)
    returns (b': multiset<string>)
    requires es != [] && n == if es[0].kind == "REPLACE_BEGIN" then 1 + RowEntries(es[1..]) else 1
    ensures Outcome(lines, id, b, es) == Outcome(lines, id, b', es[n..])
    ensures b' == if IdOf(lines, es[0].table) != id then b
                  else if es[0].kind == "REPLACE_BEGIN"
                  then multiset(Survivors(SchemeOf(lines, es[0].table), RowsIn(es[1..n])))
                  else if es[0].kind == "INSERT" then Inserted(SchemeOf(lines, es[0].table), b, RowOf(es[0].rowData))
                  else b
  {
    hide Inserted, RowsIn, Survivors, RowOf;
    b' := if IdOf(lines, es[0].table) != id then b
          else if es[0].kind == "REPLACE_BEGIN"
          then multiset(Survivors(SchemeOf(lines, es[0].table), RowsIn(es[1..n])))
          else if es[0].kind == "INSERT" then Inserted(SchemeOf(lines, es[0].table), b, RowOf(es[0].rowData))
          else b;
  }

  lemma SteadyCommitted(lines: seq<TableLine>, id: int, b: multiset<string>, d: DiskState)
    requires d.catalog == lines && Bag(d.pages, id) == b
    ensures Steady(lines, id, b, d.(lines := d.lines + [COMMIT]))
  {
    hide Bag, Recovered;
    PendingCommitted(d.lines);
    NothingPends(d.(lines := d.lines + [COMMIT]), id);
  }

  /** A step of an INSERT that adds nothing to the table. */
  lemma InsertStepSteady(lines: seq<TableLine>, id: int, b: multiset<string>, d: DiskState, table: string, row: Row,
                         e: DiskState)
    requires Steady(lines, id, b, d) && id != 0 && IsIdentifier(table) && row != []
    requires Calm(lines, id, b, Run(Insert(table, [], row)))
    requires RowError(SchemeOf(lines, table), Bag(d.pages, IdOf(lines, table)), row).None?
    requires InsertStep(d, e, IdOf(lines, table), LineOf(LogInsert(table, row)), RowText(row))
    ensures Steady(lines, id, b, e)
  {
    hide Bag, LineOf, RowText, OthersKept, PagesOk, RowError, Pending, EntryOf, Outcome, IsIdentifier, Fits;
    var line := LineOf(LogInsert(table, row));
    if IdOf(lines, table) != id {
      BagOfOthers(d.pages, e.pages, IdOf(lines, table), id);
    }
    if e.lines == d.lines + [line, COMMIT] {
      assert e.lines == d.lines + [line] + [COMMIT];
      SteadyCommitted(lines, id, b, e.(lines := d.lines + [line]));
      assert e.(lines := d.lines + [line]).(lines := d.lines + [line] + [COMMIT]) == e;
    } else {
      PendingLogged(d.lines, LogInsert(table, row));
      InsertCopyReads(Suffix.Insertion(table, row, 0));
      OutcomeOfLast(lines, id, b, Pending(d.lines), EntryOf(LogInsert(table, row)));
    }
  }

  lemma InsertSteady(lines: seq<TableLine>, id: int, b: multiset<string>, h0: seq<DiskState>, d0: DiskState,
                     table: string, row: Row, h: seq<DiskState>, d: DiskState, failed: bool)
    requires Steady(lines, id, b, d0) && id != 0 && IsIdentifier(table) && row != []
    requires Calm(lines, id, b, Run(Insert(table, [], row)))
    requires InsertDone(h0, d0, h, d, table, row, failed)
    ensures AllSteady(lines, id, b, h0, h, d)
  {
    hide Bag, LineOf, RowText, RowError, Calm, Recovered, IsIdentifier, InsertStep, Fits, LineFirst;
    if RowError(SchemeOf(lines, table), Bag(d0.pages, IdOf(lines, table)), row).None? {
      forall s | s == d || exists k :: |h0| <= k < |h| && h[k] == s ensures Steady(lines, id, b, s) {
        InsertStepSteady(lines, id, b, d0, table, row, s);
      }
    }
  }

  lemma RestoreSteady(lines: seq<TableLine>, id: int, b: multiset<string>, h0: seq<DiskState>, d0: DiskState,
                      table: string, rows: seq<Row>, h: seq<DiskState>, d: DiskState)
    requires Steady(lines, id, b, d0) && id != 0 && Calm(lines, id, b, Restore(table, rows))
    requires RewriteReplayed(h0, d0, h, d, table, rows)
    ensures AllSteady(lines, id, b, h0, h, d)
  {
    hide Bag, Survivors, OthersKept, PagesOk, Pending, Outcome, Emptied, EndsIn;
    var mine := IdOf(lines, table);
    forall s | s == d || exists k :: |h0| <= k < |h| && h[k] == s ensures Steady(lines, id, b, s) {
      if mine == id {
        assert multiset(Survivors(SchemeOf(lines, table), rows)) == multiset{};
        assert Bag(s.pages, id) <= multiset{};
      } else {
        BagOfOthers(d0.pages, s.pages, mine, id);
      }
    }
  }

  lemma JobSteady(num: NumberParser, lines: seq<TableLine>, id: int, b: multiset<string>, h0: seq<DiskState>,
                  d0: DiskState, job: Job, h: seq<DiskState>, d: DiskState)
    requires Steady(lines, id, b, d0) && id != 0 && Calm(lines, id, b, job) && JobOk(lines, job)
    requires JobDone(num, h0, d0, job, h, d)
    ensures AllSteady(lines, id, b, h0, h, d)
  {
    hide Steady, Calm, InsertDone, RewriteReplayed, HealthyBag, Survivors, IsIdentifier, Recovered, Bag, LineFor;
    var h1, d1 := h[..|h| - 1], Before(d);
    match job {
      case Run(s) =>
        InsertSteady(lines, id, b, h0, d0, s.table, s.values, h1, d1,
                     !InsertDone(h0, d0, h1, d1, s.table, s.values, false));
      case Restore(table, rows) => RestoreSteady(lines, id, b, h0, d0, table, rows, h1, d1);
      case Skip =>
    }
    SteadyIs(lines, id, b, d1);
    SteadyCommitted(lines, id, b, d1);
    assert d1.(lines := d1.lines + [COMMIT]) == d;
    assert h[..|h0|] == h1[..|h0|];
    forall k | |h0| <= k < |h| ensures Steady(lines, id, b, h[k]) {
      assert k < |h1| ==> h[k] == h1[k];
    }
  }

  lemma SteadyIs(lines: seq<TableLine>, id: int, b: multiset<string>, d: DiskState)
    requires Steady(lines, id, b, d)
    ensures d.catalog == lines && Bag(d.pages, id) == b && Recovered(d, id) == b
  {
  }

  /** While no job would change the table, every state of the recovery has the same rows and recovers to them. */
  lemma {:induction false} PlanSteady(num: NumberParser, lines: seq<TableLine>, id: int, b: multiset<string>,
                                      h0: seq<DiskState>, d0: DiskState, plan: seq<Job>, h: seq<DiskState>,
                                      d: DiskState)
    requires Steady(lines, id, b, d0) && id != 0 && PlanCalm(lines, id, b, plan) && PlanOk(lines, plan)
    requires Replayed(num, h0, d0, plan, h, d)
    ensures AllSteady(lines, id, b, h0, h, d)
    decreases |plan|
  {
    hide Steady, Calm, JobDone, JobOk;
    if |plan| > 0 {
      var h1: seq<DiskState>, d1: DiskState :|
        JobDone(num, h0, d0, plan[0], h1, d1) && Replayed(num, h1, d1, plan[1..], h, d);
      JobSteady(num, lines, id, b, h0, d0, plan[0], h1, d1);
      assert forall i | 0 <= i < |plan[1..]| :: plan[1..][i] == plan[i + 1];
      PlanSteady(num, lines, id, b, h1, d1, plan[1..], h, d);
      assert h[..|h0|] == h1[..|h0|];
      forall k | |h0| <= k < |h| ensures Steady(lines, id, b, h[k]) {
        assert k < |h1| ==> h[k] == h1[k];
      }
    }
  }

  /** Every state since `h0`, and the disk now, recovers to the rows `b`. */
  ghost predicate AllRecover(id: int, b: multiset<string>, h0: seq<DiskState>, h: seq<DiskState>)
  {
    forall k | |h0| <= k < |h| :: Recovered(h[k], id) == b
  }

  /** A job that finds nothing pending, and after which the table has the same rows. */
  lemma JobMustBeCalm(num: NumberParser, id: int, b: multiset<string>, h0: seq<DiskState>, d0: DiskState, job: Job,
                      h: seq<DiskState>, d: DiskState)
    requires Pending(d0.lines) == [] && Bag(d0.pages, id) == b && id != 0 && JobOk(d0.catalog, job)
    requires JobDone(num, h0, d0, job, h, d) && AllRecover(id, b, h0, h)
    ensures Calm(d0.catalog, id, b, job) && Bag(d.pages, id) == b && d.catalog == d0.catalog && Pending(d.lines) == []
  {
    hide Bag, RowText, RowError, Survivors, Pending, Outcome, InsertDone, HealthyBag, Executable, IsIdentifier, LineFor,
         Fits, Rewriting;
    JobSettles(num, h0, d0, job, h, d);
    match job {
      case Run(s) =>
        JobAdds(num, h0, d0, s.table, s.values, h, d);
        InsertJobArrives(num, h0, d0, s.table, s.values, h, d);
        NothingPends(h[|h| - 1], id);
        if IdOf(d0.catalog, s.table) == id {
          MoreIsNotSame(b, RowText(s.values));
        }
      case Restore(table, rows) =>
        RestoreJobArrives(num, h0, d0, table, rows, h, d);
        var mine := IdOf(d0.catalog, table);
        NothingPends(h[|h| - 1], id);
        if mine == id {
          EmptiedByRestore(num, h0, d0, table, rows, h, d);
          var left := Survivors(SchemeOf(d0.catalog, table), rows);
          assert |multiset(left)| == |left|;
        }
      case Skip =>
    }
  }

  lemma MoreIsNotSame(b: multiset<string>, t: string)
    ensures b + multiset{t} != b
  {
    assert (b + multiset{t})[t] == b[t] + 1;
  }

  /** A block that is restored with nothing pending: for a moment the table is empty, and would stay so. */
  lemma EmptiedByRestore(num: NumberParser, h0: seq<DiskState>, d0: DiskState, table: string, rows: seq<Row>,
                         h: seq<DiskState>, d: DiskState)
    requires Pending(d0.lines) == [] && JobDone(num, h0, d0, Restore(table, rows), h, d)
    ensures var id := IdOf(d0.catalog, table);
            Bag(d0.pages, id) == multiset{}
            || exists k :: |h0| <= k < |h| && Recovered(h[k], id) == Bag(h[k].pages, id) == multiset{}
  {
    hide Bag, Survivors, Pending, Outcome, HasPart;
    var id, h1 := IdOf(d0.catalog, table), h[..|h| - 1];
    if Bag(d0.pages, id) != multiset{} {
      var k :| |h0| <= k < |h1| && Bag(h1[k].pages, id) == multiset{};
      assert h[k] == h1[k];
      NothingPends(h[k], id);
    }
  }

  lemma {:induction false} PlanMustBeCalm(num: NumberParser, id: int, b: multiset<string>, h0: seq<DiskState>,
                                          d0: DiskState, plan: seq<Job>, h: seq<DiskState>, d: DiskState)
    requires Pending(d0.lines) == [] && Bag(d0.pages, id) == b && id != 0 && PlanOk(d0.catalog, plan)
    requires Replayed(num, h0, d0, plan, h, d) && AllRecover(id, b, h0, h)
    ensures PlanCalm(d0.catalog, id, b, plan)
    decreases |plan|
  {
    hide JobDone, Bag, Pending, Recovered, Calm, JobOk;
    if |plan| > 0 {
      var h1: seq<DiskState>, d1: DiskState :|
        JobDone(num, h0, d0, plan[0], h1, d1) && Replayed(num, h1, d1, plan[1..], h, d);
      ReplayedExtends(num, h1, d1, plan[1..], h, d);
      JobExtends(num, h0, d0, plan[0], h1, d1);
      forall k | |h0| <= k < |h1| ensures Recovered(h1[k], id) == b {
        assert h1[k] == h[..|h1|][k] == h[k];
      }
      JobMustBeCalm(num, id, b, h0, d0, plan[0], h1, d1);
      assert forall i | 0 <= i < |plan[1..]| :: plan[1..][i] == plan[i + 1];
      PlanMustBeCalm(num, id, b, h1, d1, plan[1..], h, d);
      assert forall i | 0 < i < |plan| :: plan[i] == plan[1..][i - 1];
    }
  }

  lemma JobExtends(num: NumberParser, h0: seq<DiskState>, d0: DiskState, job: Job, h: seq<DiskState>, d: DiskState)
    requires JobDone(num, h0, d0, job, h, d)
    ensures |h0| <= |h| && h[..|h0|] == h0
  {
    hide JobDone;
    ReplayedExtends(num, h0, d0, [job], h, d) by {
      assert Replayed(num, h, d, [job][1..], h, d);
    }
  }

  /** What recovery does first, when a failed INSERT is pending in front: it fails again, and is committed. */
  lemma FailedInsertFirst(num: NumberParser, h0: seq<DiskState>, d0: DiskState, h: seq<DiskState>, d: DiskState,
                          e: Entry)
    requires DiskOk(d0) && Oversized(e) && IsIdentifier(e.table)
    requires JobDone(num, h0, d0, Run(Insert(e.table, [], RowOf(e.rowData))), h, d)
    ensures StaysOk(h0, d0, h, d) && |h0| < |h| && h[|h| - 1] == d
    ensures Pending(d.lines) == [] && SameRows(d0, d)
  {
    hide DiskOk, Executed, Pending, Bag, RowText, Fits, RowError, Executable;
    var job := Run(Insert(e.table, [], RowOf(e.rowData)));
    assert JobOk(d0.catalog, job);
    JobStaysOk(num, h0, d0, job, h, d);
    JobSettles(num, h0, d0, job, h, d);
    InsertJobArrives(num, h0, d0, e.table, RowOf(e.rowData), h, d);
    JobAdds(num, h0, d0, e.table, RowOf(e.rowData), h, d);
  }

  lemma JobAdds(num: NumberParser, h0: seq<DiskState>, d0: DiskState, table: string, row: Row, h: seq<DiskState>,
                d: DiskState)
    requires JobDone(num, h0, d0, Run(Insert(table, [], row)), h, d)
    ensures |h0| < |h|
  {
    hide InsertStep, LineOf, RowText, RowError, Fits;
  }

  lemma PlanOkRest(lines: seq<TableLine>, plan: seq<Job>)
    requires PlanOk(lines, plan) && plan != []
    ensures PlanOk(lines, plan[1..])
  {
    hide JobOk;
  }

  lemma PlanOfEntryIs(e: Entry, es: seq<Entry>)
    requires Oversized(e) && Written([e] + es)
    ensures IsIdentifier(e.table)
    ensures Plan([e] + es) == [Run(Insert(e.table, [], RowOf(e.rowData)))] + Plan(es)
  {
    hide Plan, SqlOf, JobOf, IsIdentifier, RowOf;
    var all := [e] + es;
    assert all[0] == e && all[1..] == es;
    OversizedIsRefused([], multiset{}, e);
    PlanOfEntry(all);
    JobOfInsert(e);
    assert Plan(all) == [Plan(all)[0]] + Plan(all)[1..];
  }

  /** An INSERT that fits no page was logged, and `es` behind it. Recovery deals with that INSERT first, and its COMMIT
      covers `es`, too: recovery always goes through a state in which nothing is pending and every table has the rows
      that recovery found there. The jobs for `es` come after that. */
  lemma OversizedInsertHides(num: NumberParser, h0: seq<DiskState>, d0: DiskState, h: seq<DiskState>, d: DiskState,
                             first: Entry, es: seq<Entry>) returns (h1: seq<DiskState>, d1: DiskState)
    requires DiskOk(d0) && Recovers(num, h0, d0, h, d) && Pending(d0.lines) == [first] + es && Oversized(first)
    ensures |h0| < |h1| <= |h| && h[..|h1|] == h1 && h1[|h1| - 1] == d1 && h1[..|h0|] == h0
    ensures Pending(d1.lines) == [] && SameRows(d0, d1) && forall id | id != 0 :: Recovered(d1, id) == Bag(d0.pages, id)
    ensures PlanOk(d0.catalog, Plan(es)) && Replayed(num, h1, d1, Plan(es), h, d)
  {
    hide DiskOk, JobDone, Pending, Bag, Recovered, IsIdentifier, Plan, SqlOf, JobOf, PlanOk, Unflagged, Oversized;
    DiskHasTables(d0);
    var pending := Pending(d0.lines);
    PlanOfEntryIs(first, es);
    assert Plan(pending)[1..] == Plan(es);
    h1, d1 :| JobDone(num, h0, d0, Plan(pending)[0], h1, d1) && Replayed(num, h1, d1, Plan(pending)[1..], h, d);
    FailedInsertFirst(num, h0, d0, h1, d1, first);
    PlanOkRest(d0.catalog, Plan(pending));
    ReplayedExtends(num, h1, d1, Plan(es), h, d);
    forall id | id != 0 ensures Recovered(d1, id) == Bag(d0.pages, id) {
      NothingPends(d1, id);
    }
  }

  lemma {:induction false} OutcomeOfCalm(lines: seq<TableLine>, id: int, b: multiset<string>, es: seq<Entry>)
    requires Kinds(es) && PlanCalm(lines, id, b, Plan(es))
    ensures Outcome(lines, id, b, es) == b
    decreases |es|
  {
    hide Plan, Outcome, SqlOf, JobOf, RowsIn, Survivors, Inserted, IsIdentifier, RowOf;
    if |es| == 0 {
      NoOutcomeOf(lines, id);
    } else {
      var n := if es[0].kind == "REPLACE_BEGIN" then 1 + RowEntries(es[1..]) else 1;
      var b' := OutcomeOfFirst(lines, id, b, es, n);
      if es[0].kind == "REPLACE_BEGIN" {
        PlanOfBlock(es);
        assert Calm(lines, id, b, Plan(es)[0]);
      } else if es[0].kind == "INSERT" {
        PlanOfEntry(es);
        JobOfInsert(es[0]);
        assert Calm(lines, id, b, Plan(es)[0]);
        RefusedAddsNothing(SchemeOf(lines, es[0].table), b, RowOf(es[0].rowData));
      } else {
        PlanOfEntry(es);
        NoTextOfRow(es[0]);
      }
      CalmRest(lines, id, b, Plan(es), Plan(es[n..]));
      OutcomeOfCalm(lines, id, b, es[n..]);
    }
  }

  lemma RefusedAddsNothing(scheme: seq<Column>, b: multiset<string>, row: Row)
    ensures Accepts(scheme, b, row) || Inserted(scheme, b, row) == b
  {
  }

  lemma CalmRest(lines: seq<TableLine>, id: int, b: multiset<string>, plan: seq<Job>, rest: seq<Job>)
    requires PlanCalm(lines, id, b, plan) && (rest == plan || (plan != [] && rest == plan[1..]))
    ensures PlanCalm(lines, id, b, rest)
  {
    hide Calm;
  }

  /** Every state of the recovery recovers to the same rows of the table as the state that it found. */
  ghost predicate Harmless(h0: seq<DiskState>, d0: DiskState, h: seq<DiskState>, d: DiskState, id: int)
  {
    forall e | Seen(h0, d0, h, d, e) :: Recovered(e, id) == Recovered(d0, id)
  }

  lemma CalmIsHarmless(num: NumberParser, h0: seq<DiskState>, d0: DiskState, h: seq<DiskState>, d: DiskState,
                       first: Entry, es: seq<Entry>, id: int)
    requires DiskOk(d0) && Recovers(num, h0, d0, h, d) && Pending(d0.lines) == [first] + es && Oversized(first)
    requires id != 0 && PlanCalm(d0.catalog, id, Bag(d0.pages, id), Plan(es))
    ensures Harmless(h0, d0, h, d, id)
  {
    hide Calm, Pending, Bag, Plan, Outcome, Replayed, TablesOk, JobOk, Unflagged, Oversized, Steady, IsIdentifier;
    var b, plan := Bag(d0.pages, id), Plan(Pending(d0.lines));
    PlanOfEntryIs(first, es);
    FailedIsCalm(d0.catalog, id, b, first);
    assert forall i | 0 <= i < |plan| :: plan[i] == if i == 0 then plan[0] else Plan(es)[i - 1];
    OutcomeOfCalm(d0.catalog, id, b, Pending(d0.lines));
    StartsSteady(d0, id);
    PlanSteady(num, d0.catalog, id, b, h0, d0, plan, h, d);
    forall e | Seen(h0, d0, h, d, e) ensures Recovered(e, id) == Recovered(d0, id) {
      SteadyIs(d0.catalog, id, b, e);
    }
  }

  lemma StartsSteady(d: DiskState, id: int)
    requires Recovered(d, id) == Bag(d.pages, id)
    ensures Steady(d.catalog, id, Bag(d.pages, id), d)
  {
  }

  lemma FailedIsCalm(lines: seq<TableLine>, id: int, b: multiset<string>, e: Entry)
    requires Oversized(e)
    ensures Calm(lines, id, b, Run(Insert(e.table, [], RowOf(e.rowData))))
  {
  }

  lemma HarmlessIsCalm(num: NumberParser, h0: seq<DiskState>, d0: DiskState, h: seq<DiskState>, d: DiskState,
                       first: Entry, es: seq<Entry>, id: int)
    requires DiskOk(d0) && Recovers(num, h0, d0, h, d) && Pending(d0.lines) == [first] + es && Oversized(first)
    requires id != 0 && Harmless(h0, d0, h, d, id)
    ensures PlanCalm(d0.catalog, id, Bag(d0.pages, id), Plan(es))
  {
    hide Calm, Pending, Bag, Plan, Recovered, Replayed, DiskOk, JobOk, Oversized;
    var h1, d1 := OversizedInsertHides(num, h0, d0, h, d, first, es);
    var b := Bag(d0.pages, id);
    ReplayedExtends(num, h1, d1, Plan(es), h, d);
    assert h[|h1| - 1] == h[..|h1|][|h1| - 1] == d1;
    assert Seen(h0, d0, h, d, d1);
    forall k | |h1| <= k < |h| ensures Recovered(h[k], id) == b {
      assert Seen(h0, d0, h, d, h[k]);
    }
    PlanMustBeCalm(num, id, b, h1, d1, Plan(es), h, d);
  }

  /** An INSERT that fits no page was logged, and `es` behind it. Recovery can be interrupted anywhere without making a
      difference to a table if and only if `es` would not change the table at all: each INSERT into it is refused, and
      it is empty and each block for it leaves it so. This holds of every single recovery, and of all of them. */
  lemma HiddenIff(num: NumberParser, h0: seq<DiskState>, d0: DiskState, h: seq<DiskState>, d: DiskState,
                  first: Entry, es: seq<Entry>, id: int)
    requires DiskOk(d0) && Recovers(num, h0, d0, h, d) && Pending(d0.lines) == [first] + es && Oversized(first)
             && id != 0
    ensures Harmless(h0, d0, h, d, id) <==> PlanCalm(d0.catalog, id, Bag(d0.pages, id), Plan(es))
    ensures (forall e | InterruptedAt(num, d0, e) :: Recovered(e, id) == Recovered(d0, id))
            <==> PlanCalm(d0.catalog, id, Bag(d0.pages, id), Plan(es))
  {
    hide PlanCalm, Pending, Bag, Plan, Recovered, Recovers, DiskOk, Oversized;
    if PlanCalm(d0.catalog, id, Bag(d0.pages, id), Plan(es)) {
      CalmIsHarmless(num, h0, d0, h, d, first, es, id);
      forall e | InterruptedAt(num, d0, e) ensures Recovered(e, id) == Recovered(d0, id) {
        var h0': seq<DiskState>, h': seq<DiskState>, d': DiskState :|
          Recovers(num, h0', d0, h', d') && Seen(h0', d0, h', d', e);
        CalmIsHarmless(num, h0', d0, h', d', first, es, id);
      }
    } else {
      if Harmless(h0, d0, h, d, id) {
        HarmlessIsCalm(num, h0, d0, h, d, first, es, id);
      }
      var e :| Seen(h0, d0, h, d, e) && Recovered(e, id) != Recovered(d0, id);
      assert InterruptedAt(num, d0, e);
    }
  }

  lemma {:induction false} LeftoversAreCalm(lines: seq<TableLine>, id: int, b: multiset<string>, es: seq<Entry>)
    requires Kinds(es) && Leftovers(es)
    ensures PlanCalm(lines, id, b, Plan(es))
    decreases |es|
  {
    hide Plan, Calm, IsIdentifier, Oversized, RowOf;
    if |es| == 0 {
      PlanOfNothing();
    } else {
      var rest := es[1..];
      assert es == [es[0]] + rest && forall i | 0 <= i < |rest| :: rest[i] == es[i + 1];
      assert Oversized(es[0]);
      OversizedIsRefused([], multiset{}, es[0]);
      PlanOfEntryIs(es[0], rest);
      FailedIsCalm(lines, id, b, es[0]);
      LeftoversAreCalm(lines, id, b, rest);
      assert forall i | 0 < i < |Plan(es)| :: Plan(es)[i] == Plan(rest)[i - 1];
    }
  }

  /** The same, when failed INSERTs come first and one statement behind them. */
  lemma HiddenBehind(num: NumberParser, h0: seq<DiskState>, d0: DiskState, h: seq<DiskState>, d: DiskState,
                     q: seq<Entry>, x: Suffix, id: int)
    requires DiskOk(d0) && Recovers(num, h0, d0, h, d) && q != [] && Leftovers(q) && Behind(d0.lines, q, x) && id != 0
    ensures Harmless(h0, d0, h, d, id) <==> PlanCalm(d0.catalog, id, Bag(d0.pages, id), Plan(SuffixEntries(x)))
    ensures (forall e | InterruptedAt(num, d0, e) :: Recovered(e, id) == Recovered(d0, id))
            <==> PlanCalm(d0.catalog, id, Bag(d0.pages, id), Plan(SuffixEntries(x)))
  {
    hide Calm, Pending, Bag, Plan, Recovered, Recovers, TablesOk, PlanOk, Oversized, IsIdentifier, Harmless,
         InterruptedAt, Unflagged, SuffixLoggable, SuffixEntries;
    var rest, xs, b := q[1..], SuffixEntries(x), Bag(d0.pages, id);
    assert q + xs == [q[0]] + (rest + xs) && Oversized(q[0]);
    HiddenIff(num, h0, d0, h, d, q[0], rest + xs, id);
    assert Kinds(q + xs);
    forall i | 0 <= i < |rest| ensures Oversized(rest[i]) && IsIdentifier(rest[i].table) && rest[i].kind == "INSERT" {
      assert rest[i] == q[i + 1] == (q + xs)[i + 1];
      OversizedIsRefused([], multiset{}, rest[i]);
    }
    LeftoversAreCalm(d0.catalog, id, b, rest);
    SuffixBegins(x);
    PlanAppend(rest, xs);
    CalmAppend(d0.catalog, id, b, Plan(rest), Plan(xs));
  }

  lemma SuffixBegins(x: Suffix)
    ensures SuffixEntries(x) == [] || SuffixEntries(x)[0].kind != "REPLACE_ROW"
  {
  }

  lemma CalmAppend(lines: seq<TableLine>, id: int, b: multiset<string>, plan: seq<Job>, rest: seq<Job>)
    requires PlanCalm(lines, id, b, plan)
    ensures PlanCalm(lines, id, b, plan + rest) <==> PlanCalm(lines, id, b, rest)
  {
    hide Calm;
    forall i | 0 <= i < |rest| ensures (plan + rest)[|plan| + i] == rest[i] {
    }
    if PlanCalm(lines, id, b, plan + rest) {
      forall i | 0 <= i < |rest| ensures Calm(lines, id, b, rest[i]) {
        assert Calm(lines, id, b, (plan + rest)[|plan| + i]);
      }
    }
  }

  /** A block behind failed INSERTs, however many: recovery may be interrupted anywhere if and only if the table is
      empty and the block leaves it so. */
  lemma HiddenBlockIff(num: NumberParser, h0: seq<DiskState>, d0: DiskState, h: seq<DiskState>, d: DiskState,
                       q: seq<Entry>, x: Suffix, id: int)
    requires DiskOk(d0) && Recovers(num, h0, d0, h, d) && q != [] && Leftovers(q) && Behind(d0.lines, q, x)
    requires x.Replacement? && IsTable(d0.catalog, x.table, id)
    ensures Harmless(h0, d0, h, d, id)
            <==> Bag(d0.pages, id) == multiset{} && Survivors(SchemeOf(d0.catalog, x.table), x.rows) == []
    ensures (forall e | InterruptedAt(num, d0, e) :: Recovered(e, id) == Recovered(d0, id))
            <==> Bag(d0.pages, id) == multiset{} && Survivors(SchemeOf(d0.catalog, x.table), x.rows) == []
  {
    hide Pending, Bag, Plan, Recovered, Recovers, DiskOk, Leftovers, Harmless, InterruptedAt, SuffixEntries,
         SuffixLoggable, Survivors, Unflagged;
    HiddenBehind(num, h0, d0, h, d, q, x, id);
    PlanOfReplacement(x);
    var plan := Plan(SuffixEntries(x));
    assert plan[0] == Restore(x.table, x.rows);
  }

  /** An INSERT behind failed ones, pending once or more often: recovery may be interrupted anywhere if and only if its
      row is refused, for its key is there already, or fits no page. */
  lemma HiddenInsertIff(num: NumberParser, h0: seq<DiskState>, d0: DiskState, h: seq<DiskState>, d: DiskState,
                        q: seq<Entry>, x: Suffix, id: int)
    requires DiskOk(d0) && Recovers(num, h0, d0, h, d) && q != [] && Leftovers(q) && Behind(d0.lines, q, x)
    requires x.Insertion? && x.copies > 0 && IsTable(d0.catalog, x.table, id)
    ensures Harmless(h0, d0, h, d, id) <==> !Accepts(SchemeOf(d0.catalog, x.table), Bag(d0.pages, id), x.row)
    ensures (forall e | InterruptedAt(num, d0, e) :: Recovered(e, id) == Recovered(d0, id))
            <==> !Accepts(SchemeOf(d0.catalog, x.table), Bag(d0.pages, id), x.row)
  {
    hide Pending, Bag, Plan, Recovered, Recovers, DiskOk, Leftovers, Harmless, InterruptedAt, SuffixEntries,
         SuffixLoggable, Unflagged, Accepts;
    HiddenBehind(num, h0, d0, h, d, q, x, id);
    PlanOfSuffix(x);
    var plan := Plan(SuffixEntries(x));
    assert plan[0] == Run(Insert(x.table, [], x.row));
  }

  // ---- A DROP TABLE that is interrupted ---------------------------------------------------

  lemma {:induction false} SumPartIff<T>(a: seq<multiset<T>>, b: seq<multiset<T>>)
    requires |a| == |b| && forall i | 0 <= i < |a| :: a[i] <= b[i]
    ensures Sum(a) == Sum(b) <==> a == b
  {
    if |a| > 0 {
      var n := |a| - 1;
      SumPart(a[..n], b[..n]);
      SumPartIff(a[..n], b[..n]);
      PartsAreEqual(Sum(a[..n]), a[n], Sum(b[..n]), b[n]);
      assert a == a[..n] + [a[n]] && b == b[..n] + [b[n]];
    }
  }

  lemma PartsAreEqual<T>(a: multiset<T>, x: multiset<T>, b: multiset<T>, y: multiset<T>)
    requires a <= b && x <= y
    ensures a + x == b + y <==> a == b && x == y
  {
    if a + x == b + y {
      forall t ensures a[t] == b[t] && x[t] == y[t] {
        assert (a + x)[t] == (b + y)[t];
      }
    }
  }

  /** A table that lost pages has all its rows if and only if there were none on those pages. */
  lemma FreedKeepsIff(pages: seq<Image>, pages': seq<Image>, tableId: int)
    requires Freed(pages, pages', tableId) && tableId != 0
    ensures Bag(pages', tableId) == Bag(pages, tableId)
            <==> forall i: nat | i < |pages| && pages'[i] != pages[i] :: Rows(pages[i]) == []
  {
    var a, b := Holdings(pages', tableId), Holdings(pages, tableId);
    SumPartIff(a, b);
    forall i: nat | i < |pages| ensures a[i] == b[i] <==> pages'[i] == pages[i] || Rows(pages[i]) == [] {
      assert |multiset(Rows(pages[i]))| == |Rows(pages[i])|;
    }
    if Bag(pages', tableId) == Bag(pages, tableId) {
      forall i: nat | i < |pages| && pages'[i] != pages[i] ensures Rows(pages[i]) == [] {
        assert a[i] == b[i];
      }
    }
  }

  /** DROP TABLE is not logged. After a crash and a recovery, interrupted or not, the database is as it was before, or
      the table is gone, if and only if its name was already taken from the catalog, or none of the pages freed so far
      held a row. */
  lemma DropAtomicIff(num: NumberParser, h0: seq<DiskState>, d0: DiskState, h: seq<DiskState>, d: DiskState,
                      table: string, e: DiskState, attempts: seq<DiskState>, d1: DiskState)
    requires Good(d0) && LineFor(d0.catalog, table).Some? && TableDropped(h0, d0, h, d, table)
    requires Seen(h0, d0, h, d, e) && RestartedAfter(num, e, attempts, d1)
    ensures LineFor(e.catalog, table).Some? ==> |e.pages| == |d0.pages|
    ensures SameRows(d0, d1) || LineFor(d1.catalog, table).None?
            <==> LineFor(e.catalog, table).None?
                 || forall i: nat | i < |e.pages| && e.pages[i] != d0.pages[i] :: Rows(d0.pages[i]) == []
  {
    hide Good, Bag, LineFor, RestartedAfter, TableDropped, Freed, IsDropping, Recovered, Seen, SameRows;
    DropIsSafe(h0, d0, h, d, table);
    DroppingState(h0, d0, h, d, table, e);
    GoodIsOk(e);
    RestartArrives(num, e, attempts, d1);
    RestartOfGood(num, e, attempts, d1);
    if LineFor(e.catalog, table).Some? {
      var id := IdOf(d0.catalog, table);
      GoodIsOk(d0);
      TableIsLive(d0.catalog, table);
      FreedSize(d0.pages, e.pages, id);
      FreedKeepsIff(d0.pages, e.pages, id);
      DropSameIff(d0, e, d1, table);
    }
  }

  lemma DroppingState(h0: seq<DiskState>, d0: DiskState, h: seq<DiskState>, d: DiskState, table: string, e: DiskState)
    requires Good(d0) && LineFor(d0.catalog, table).Some? && TableDropped(h0, d0, h, d, table) && Seen(h0, d0, h, d, e)
    ensures Good(e) && IsDropping(d0, e, table)
    ensures LineFor(e.catalog, table).Some? ==>
              e.catalog == d0.catalog && Freed(d0.pages, e.pages, IdOf(d0.catalog, table))
  {
    hide Good, Bag, LineFor, OnlyRows, CatalogOk, Freed, IsDropping;
    DropIsSafe(h0, d0, h, d, table);
    NothingFreed(d0.pages, IdOf(d0.catalog, table));
    NotYetDropping(d0, table);
    if e != d0 {
      var k :| |h0| <= k < |h| && h[k] == e;
      assert k < |h| - 1 ==> h[..|h| - 1][k] == h[k] && OnlyRows(d0, e, IdOf(d0.catalog, table));
      SameFile(d0, e, IdOf(d0.catalog, table));
    }
  }

  lemma SameFile(d0: DiskState, d: DiskState, id: int)
    ensures OnlyRows(d0, d, id) ==> d.catalog == d0.catalog
  {
  }

  lemma NothingFreed(pages: seq<Image>, id: int)
    ensures Freed(pages, pages, id)
  {
  }

  lemma FreedSize(pages: seq<Image>, pages': seq<Image>, id: int)
    requires Freed(pages, pages', id)
    ensures |pages'| == |pages|
  {
  }

  lemma DropSameIff(d0: DiskState, e: DiskState, d1: DiskState, table: string)
    requires IsDropping(d0, e, table) && e.catalog == d0.catalog && LineFor(d0.catalog, table).Some? && SameRows(e, d1)
    requires IdOf(d0.catalog, table) != 0
    ensures SameRows(d0, d1) <==> Bag(e.pages, IdOf(d0.catalog, table)) == Bag(d0.pages, IdOf(d0.catalog, table))
    ensures d1.catalog == d0.catalog
  {
    hide Bag, LineFor;
  }

  /** Every DROP TABLE goes through a state in which the table is still there, without rows. */
  lemma DropEmptiesFirst(h0: seq<DiskState>, d0: DiskState, h: seq<DiskState>, d: DiskState, table: string)
    returns (e: DiskState)
    requires LineFor(d0.catalog, table).Some? && TableDropped(h0, d0, h, d, table)
    ensures Seen(h0, d0, h, d, e) && e.catalog == d0.catalog && e.lines == d0.lines
    ensures Bag(e.pages, IdOf(d0.catalog, table)) == multiset{}
  {
    hide Bag, LineFor, PagesOk, OthersKept, CatalogOk, Freed;
    e := d.(catalog := d0.catalog);
    var h1 := h[..|h| - 1];
    NoRows(e.pages, IdOf(d0.catalog, table));
    assert |h1| > |h0| ==> h[|h1| - 1] == h1[|h1| - 1];
  }
}
