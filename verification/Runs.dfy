// Whole runs: statements, tables that come and go, crashes at any step, and restarts.
module Runs {
  import opened StringUtils
  import opened Sql
  import opened SqlText
  import opened Storage
  import opened TableRows
  import opened Values
  import opened TableIndex
  import opened Catalogs
  import opened WalFormat
  import opened Recovery
  import opened Crashes
  import opened Statements
  import opened Engines
  import opened Replays
  import opened Meanings
  import opened Integrity
  import opened Restarts
  import opened Safety

  // ---- Recovery of a good state -----------------------------------------------------------

  ghost predicate SameRows(d0: DiskState, d: DiskState)
  {
    d.catalog == d0.catalog && forall id | id != 0 :: Bag(d.pages, id) == Bag(d0.pages, id)
  }

  /** Everything since `h0`, and the disk now, is good, and no table has other rows than before. */
  ghost predicate StaysGood(h0: seq<DiskState>, d0: DiskState, h: seq<DiskState>, d: DiskState)
  {
    && |h0| <= |h| && h[..|h0|] == h0
    && (forall k | |h0| <= k < |h| :: Good(h[k]) && SameRows(d0, h[k]))
    && Good(d) && SameRows(d0, d)
  }

  lemma StaysGoodTwice(h0: seq<DiskState>, d0: DiskState, h1: seq<DiskState>, d1: DiskState, h: seq<DiskState>,
                       d: DiskState)
    requires StaysGood(h0, d0, h1, d1) && StaysGood(h1, d1, h, d)
    ensures StaysGood(h0, d0, h, d)
  {
    hide Good, Bag;
    assert h[..|h0|] == h1[..|h0|];
    forall k | |h0| <= k < |h| ensures Good(h[k]) && SameRows(d0, h[k]) {
      if k < |h1| {
        assert h[k] == h1[k];
      } else {
        assert SameRows(d1, h[k]);
      }
    }
  }

  /** A step of an INSERT that fits no page. */
  lemma FailingStepIsGood(d0: DiskState, d: DiskState, table: string, row: Row)
    requires Good(d0) && DiskOk(d) && IsIdentifier(table) && row != [] && !Fits(RowText(row))
    requires InsertStep(d0, d, IdOf(d0.catalog, table), LineOf(LogInsert(table, row)), RowText(row))
    ensures Good(d) && SameRows(d0, d)
  {
    hide DiskOk, Bag, LineOf, Pending, RowText, EntryOf, OthersKept, PagesOk, Fits;
    GoodFacts(d0);
    PendingLogged(d0.lines, LogInsert(table, row));
    InsertCopyReads(Suffix.Insertion(table, row, 0));
    assert Oversized(EntryOf(LogInsert(table, row)));
    forall id | id != 0 ensures Bag(d.pages, id) == Bag(d0.pages, id) {
      if id != IdOf(d0.catalog, table) {
        BagOfOthers(d0.pages, d.pages, IdOf(d0.catalog, table), id);
      }
    }
  }

  /** An INSERT that failed fails again when it is replayed. */
  lemma FailingInsertStaysGood(h0: seq<DiskState>, d0: DiskState, h: seq<DiskState>, d: DiskState, table: string,
                               row: Row, failed: bool)
    requires Good(d0) && IsIdentifier(table) && row != [] && !Fits(RowText(row))
    requires InsertDone(h0, d0, h, d, table, row, failed)
    ensures StaysGood(h0, d0, h, d)
  {
    hide Good, InsertStep, RowText, LineOf, Fits, SameRows, Bag, RowError;
    GoodIsOk(d0);
    SameAsBefore(d0);
    if RowError(SchemeOf(d0.catalog, table), Bag(d0.pages, IdOf(d0.catalog, table)), row).None? {
      InsertStaysOk(h0, d0, h, d, table, row, failed);
      forall k | |h0| <= k < |h| ensures Good(h[k]) && SameRows(d0, h[k]) {
        FailingStepIsGood(d0, h[k], table, row);
      }
      FailingStepIsGood(d0, d, table, row);
    }
  }

  lemma SameAsBefore(d: DiskState)
    ensures SameRows(d, d)
  {
  }

  lemma CommitStaysGood(h0: seq<DiskState>, d0: DiskState, h: seq<DiskState>, d: DiskState)
    requires EndsInCommit(h, d) && StaysGood(h0, d0, h[..|h| - 1], Before(d))
    ensures StaysGood(h0, d0, h, d)
  {
    hide DiskOk, Bag, Pending, Leftovers, Unflagged, LogOk;
    var h1, d1 := h[..|h| - 1], Before(d);
    assert d.lines == d1.lines + [COMMIT];
    PendingCommitted(d1.lines);
    IdleStaysOk(h1, d1, h1 + [d], d);
    SettledIsGood(d);
    assert h == h1 + [d] && h[..|h0|] == h1[..|h0|];
    forall k | |h0| <= k < |h| ensures Good(h[k]) && SameRows(d0, h[k]) {
      assert k < |h1| ==> h[k] == h1[k];
    }
  }

  lemma FailingJobStaysGood(num: NumberParser, h0: seq<DiskState>, d0: DiskState, e: Entry, h: seq<DiskState>,
                            d: DiskState)
    requires Good(d0) && Oversized(e) && IsIdentifier(e.table)
    requires JobDone(num, h0, d0, Run(Insert(e.table, [], RowOf(e.rowData))), h, d)
    ensures StaysGood(h0, d0, h, d)
  {
    hide Good, InsertDone, StaysGood, RowText, Fits;
    var row, h1, d1 := RowOf(e.rowData), h[..|h| - 1], Before(d);
    FailingInsertStaysGood(h0, d0, h1, d1, e.table, row, !InsertDone(h0, d0, h1, d1, e.table, row, false));
    CommitStaysGood(h0, d0, h, d);
  }

  lemma {:induction false} LeftoversStayGood(num: NumberParser, h0: seq<DiskState>, d0: DiskState, es: seq<Entry>,
                                             h: seq<DiskState>, d: DiskState)
    requires Good(d0) && Kinds(es) && Leftovers(es) && Replayed(num, h0, d0, Plan(es), h, d)
    ensures StaysGood(h0, d0, h, d)
    decreases |es|
  {
    hide Good, Plan, JobDone, StaysGood, SqlOf, JobOf, IsIdentifier;
    if |es| == 0 {
      PlanOfNothing();
      NothingReplayed(num, h0, d0, Plan(es), h, d);
      NothingStaysGood(h0, d0);
    } else {
      assert Oversized(es[0]);
      PlanOfEntry(es);
      JobOfInsert(es[0]);
      var h1: seq<DiskState>, d1: DiskState :|
        JobDone(num, h0, d0, Plan(es)[0], h1, d1) && Replayed(num, h1, d1, Plan(es)[1..], h, d);
      FailingJobStaysGood(num, h0, d0, es[0], h1, d1);
      ItsEndIsGood(h0, d0, h1, d1);
      assert forall i | 0 <= i < |es[1..]| :: es[1..][i] == es[i + 1];
      LeftoversStayGood(num, h1, d1, es[1..], h, d);
      StaysGoodTwice(h0, d0, h1, d1, h, d);
    }
  }

  lemma NothingStaysGood(h0: seq<DiskState>, d0: DiskState)
    requires Good(d0)
    ensures StaysGood(h0, d0, h0, d0)
  {
  }

  lemma ItsEndIsGood(h0: seq<DiskState>, d0: DiskState, h: seq<DiskState>, d: DiskState)
    requires StaysGood(h0, d0, h, d)
    ensures Good(d)
  {
  }

  /** Recovery of a good state changes no rows, and passes through good states only. */
  lemma RecoveryOfGood(num: NumberParser, h0: seq<DiskState>, d0: DiskState, h: seq<DiskState>, d: DiskState)
    requires Good(d0) && Recovers(num, h0, d0, h, d)
    ensures StaysGood(h0, d0, h, d)
  {
    LeftoversStayGood(num, h0, d0, Pending(d0.lines), h, d);
  }

  // ---- Restarts ---------------------------------------------------------------------------

  /** `e` was on the disk on the way from `d0` to `d`. */
  ghost predicate Seen(h0: seq<DiskState>, d0: DiskState, h: seq<DiskState>, d: DiskState, e: DiskState)
  {
    e == d0 || e == d || exists k :: |h0| <= k < |h| && h[k] == e
  }

  /** A recovery that found `e` was interrupted in `e'`. */
  ghost predicate InterruptedAt(num: NumberParser, e: DiskState, e': DiskState)
  {
    exists h0: seq<DiskState>, h: seq<DiskState>, d: DiskState :: Recovers(num, h0, e, h, d) && Seen(h0, e, h, d, e')
  }

  /** A recovery that found `e` was completed in `d`. */
  ghost predicate Restarted(num: NumberParser, e: DiskState, d: DiskState)
  {
    exists h0: seq<DiskState>, h: seq<DiskState> :: Recovers(num, h0, e, h, d)
  }

  /** Recovery may itself be interrupted, any number of times: `attempts` are the states in which that happened. */
  ghost predicate RestartedAfter(num: NumberParser, e: DiskState, attempts: seq<DiskState>, d: DiskState)
    decreases |attempts|
  {
    if |attempts| == 0 then Restarted(num, e, d)
    else InterruptedAt(num, e, attempts[0]) && RestartedAfter(num, attempts[0], attempts[1..], d)
  }

  function Last(e: DiskState, attempts: seq<DiskState>): DiskState
  {
    if |attempts| == 0 then e else attempts[|attempts| - 1]
  }

  lemma InterruptionStaysOk(num: NumberParser, e: DiskState, e': DiskState)
    requires DiskOk(e) && InterruptedAt(num, e, e')
    ensures DiskOk(e') && e'.catalog == e.catalog
    ensures CanRepeat(e) ==> SameOutcome(e, e')
    ensures Good(e) ==> Good(e') && SameRows(e, e')
  {
    hide DiskOk, Recovers, CanRepeat, Recovered, Leftovers, SameRows;
    var h0: seq<DiskState>, h: seq<DiskState>, d: DiskState :| Recovers(num, h0, e, h, d) && Seen(h0, e, h, d, e');
    RecoveryArrives(num, h0, e, h, d);
    SameAsBefore(e);
    if CanRepeat(e) {
      RecoveryKeepsOutcome(num, h0, e, h, d);
    }
    if Good(e) {
      RecoveryOfGood(num, h0, e, h, d);
    }
  }

  /** However often recovery is interrupted: when it is completed at last, nothing is pending, everything is in order,
      and every table has the rows that `Recovered` tells of the state in which the last interruption happened. */
  lemma {:induction false} RestartArrives(num: NumberParser, e: DiskState, attempts: seq<DiskState>, d: DiskState)
    requires DiskOk(e) && RestartedAfter(num, e, attempts, d)
    ensures Good(d) && Pending(d.lines) == [] && d.catalog == e.catalog
    ensures forall id | id != 0 :: Bag(d.pages, id) == Recovered(Last(e, attempts), id)
    decreases |attempts|
  {
    hide DiskOk, InterruptedAt, Recovers, Recovered, Bag, Leftovers, Pending;
    if |attempts| == 0 {
      var h0: seq<DiskState>, h: seq<DiskState> :| Recovers(num, h0, e, h, d);
      RecoveryArrives(num, h0, e, h, d);
      SettledIsGood(d);
    } else {
      InterruptionStaysOk(num, e, attempts[0]);
      RestartArrives(num, attempts[0], attempts[1..], d);
    }
  }

  /** With one statement pending that may be repeated, the interruptions make no difference. */
  lemma {:induction false} InterruptionsDoNotMatter(num: NumberParser, e: DiskState, attempts: seq<DiskState>,
                                                    d: DiskState)
    requires DiskOk(e) && CanRepeat(e) && RestartedAfter(num, e, attempts, d)
    ensures forall id | id != 0 :: Bag(d.pages, id) == Recovered(e, id)
    decreases |attempts|
  {
    hide DiskOk, InterruptedAt, CanRepeat, Recovered, Bag, Restarted;
    if |attempts| == 0 {
      RestartArrives(num, e, attempts, d);
    } else {
      InterruptionStaysOk(num, e, attempts[0]);
      InterruptionsDoNotMatter(num, attempts[0], attempts[1..], d);
    }
  }

  /** The same with nothing pending but failed INSERTs. */
  lemma {:induction false} RestartOfGood(num: NumberParser, e: DiskState, attempts: seq<DiskState>, d: DiskState)
    requires Good(e) && RestartedAfter(num, e, attempts, d)
    ensures SameRows(e, d)
    decreases |attempts|
  {
    hide Good, InterruptedAt, Recovers, Bag;
    GoodIsOk(e);
    if |attempts| == 0 {
      var h0: seq<DiskState>, h: seq<DiskState> :| Recovers(num, h0, e, h, d);
      RecoveryOfGood(num, h0, e, h, d);
    } else {
      InterruptionStaysOk(num, e, attempts[0]);
      RestartOfGood(num, attempts[0], attempts[1..], d);
    }
  }

  // ---- CREATE TABLE and DROP TABLE --------------------------------------------------------

  lemma {:induction false} LeftoversPlanOk(catalog: seq<TableLine>, es: seq<Entry>)
    requires Kinds(es) && Leftovers(es)
    ensures PlanOk(catalog, Plan(es))
    decreases |es|
  {
    hide Plan, SqlOf, JobOf, IsIdentifier, LineFor, HealthyBag;
    if |es| == 0 {
      PlanOfNothing();
    } else {
      assert Oversized(es[0]);
      PlanOfEntry(es);
      JobOfInsert(es[0]);
      assert forall i | 0 <= i < |es[1..]| :: es[1..][i] == es[i + 1];
      LeftoversPlanOk(catalog, es[1..]);
      assert forall i | 0 < i < |Plan(es)| :: Plan(es)[i] == Plan(es[1..])[i - 1];
      assert JobOk(catalog, Plan(es)[0]);
    }
  }

  /** Tables may come and go while failed INSERTs are pending. */
  lemma CatalogMayChange(d0: DiskState, d: DiskState)
    requires Good(d0) && d.lines == d0.lines && TablesOk(d)
    ensures Good(d)
  {
    hide Plan, JobOk, TablesOk;
    LeftoversPlanOk(d.catalog, Pending(d.lines));
  }

  ghost predicate OthersNamed(d0: DiskState, d: DiskState, table: string)
  {
    forall other | other != table :: LineFor(d.catalog, other) == LineFor(d0.catalog, other)
  }

  /** The new table is empty, also under an id that was used before, and the others are as they were. */
  ghost predicate IsCreated(d0: DiskState, d: DiskState, table: string, columns: seq<Column>)
  {
    && LineFor(d0.catalog, table).None? && LineFor(d.catalog, table).Some? && SchemeOf(d.catalog, table) == columns
    && OthersNamed(d0, d, table) && (forall id | id != 0 :: Bag(d.pages, id) == Bag(d0.pages, id))
    && !Live(d0.catalog, IdOf(d.catalog, table)) && Bag(d.pages, IdOf(d.catalog, table)) == multiset{}
  }

  lemma NewTableIsOk(d0: DiskState, d: DiskState, table: string)
    requires TablesOk(d0) && d == d0.(catalog := d.catalog) && CatalogOk(d.catalog) && OthersNamed(d0, d, table)
    requires LineFor(d0.catalog, table).None? && LineFor(d.catalog, table).Some?
             && !Live(d0.catalog, IdOf(d.catalog, table))
    ensures TablesOk(d) && Bag(d.pages, IdOf(d.catalog, table)) == multiset{}
  {
    hide Bag, Tagged, LineFor;
    CreatedOwned(d0, d, table, IdOf(d.catalog, table));
    forall i | 0 <= i < |d.catalog| ensures HealthyBag(d.catalog[i].columns, Bag(d.pages, d.catalog[i].id)) {
      FindIs(d.catalog, i);
      if d.catalog[i].name == table {
        EmptyIsHealthy(d.catalog[i].columns);
      } else {
        FoundIsLine(d0.catalog, d.catalog[i].name);
      }
    }
  }

  lemma EmptyIsHealthy(scheme: seq<Column>)
    ensures HealthyBag(scheme, multiset{})
  {
  }

  lemma CreateIsSafe(h0: seq<DiskState>, d0: DiskState, h: seq<DiskState>, d: DiskState, table: string,
                     columns: seq<Column>)
    requires Good(d0) && TableCreated(h0, d0, h, d, table, columns)
    ensures (h == h0 && d == d0) || (h == h0 + [d] && Good(d) && IsCreated(d0, d, table, columns))
    ensures d != d0 || (DifferentNames(columns) && columns != [] && LineFor(d0.catalog, table).None?) ==>
              IsCreated(d0, d, table, columns)
  {
    hide Good, Bag, LineFor, Live, CatalogOk, TablesOk;
    if DifferentNames(columns) && columns != [] && LineFor(d0.catalog, table).None? {
      GoodFacts(d0);
      NewTableIsOk(d0, d, table);
      CatalogMayChange(d0, d);
    }
  }

  /** The table is gone, or some of its rows are; the others are as they were. */
  ghost predicate IsDropping(d0: DiskState, d: DiskState, table: string)
  {
    var mine := IdOf(d0.catalog, table);
    && LineFor(d0.catalog, table).Some? && OthersNamed(d0, d, table)
    && (forall id | id != 0 && id != mine :: Bag(d.pages, id) == Bag(d0.pages, id))
    && (if LineFor(d.catalog, table).None? then Bag(d.pages, mine) == multiset{} && !Live(d.catalog, mine)
        else d.catalog == d0.catalog && Bag(d.pages, mine) <= Bag(d0.pages, mine))
  }

  lemma FreeingStepIsGood(d0: DiskState, d: DiskState, table: string)
    requires Good(d0) && LineFor(d0.catalog, table).Some?
    requires OnlyRows(d0, d, IdOf(d0.catalog, table)) && Freed(d0.pages, d.pages, IdOf(d0.catalog, table))
    ensures Good(d) && IsDropping(d0, d, table)
  {
    hide Good, Bag, LineFor, HealthyBag, TablesOk, OthersKept, Freed, PagesOk;
    var mine := IdOf(d0.catalog, table);
    GoodFacts(d0);
    FreedPart(d0.pages, d.pages, mine);
    EmptyIsHealthy(SchemeOf(d0.catalog, table));
    PartStaysOk(d0, d, table, multiset{});
    CatalogMayChange(d0, d);
    forall id | id != 0 && id != mine ensures Bag(d.pages, id) == Bag(d0.pages, id) {
      BagOfOthers(d0.pages, d.pages, mine, id);
    }
  }

  lemma OldTablesAreOk(d0: DiskState, d: DiskState, table: string)
    requires TablesOk(d0) && LineFor(d0.catalog, table).Some?
    requires d == d0.(catalog := d.catalog) && CatalogOk(d.catalog) && OthersNamed(d0, d, table)
             && LineFor(d.catalog, table).None?
    requires forall i: nat | i < |d0.pages| :: d0.pages[i].tableId != IdOf(d0.catalog, table)
    ensures TablesOk(d) && !Live(d.catalog, IdOf(d0.catalog, table))
            && Bag(d.pages, IdOf(d0.catalog, table)) == multiset{}
  {
    hide Bag, LineFor;
    DroppedOwned(d0, d, table);
    NoRows(d.pages, IdOf(d0.catalog, table));
    forall i | 0 <= i < |d.catalog|
      ensures HealthyBag(d.catalog[i].columns, Bag(d.pages, d.catalog[i].id))
              && d.catalog[i].id != IdOf(d0.catalog, table)
    {
      FindIs(d.catalog, i);
      assert d.catalog[i].name != table;
      FoundIsLine(d0.catalog, d.catalog[i].name);
      IdsDiffer(d0.catalog, table, d.catalog[i].name);
    }
  }

  lemma DroppedIsGood(d0: DiskState, d1: DiskState, d: DiskState, table: string)
    requires Good(d1) && IsDropping(d0, d1, table) && d1.catalog == d0.catalog
    requires d == d1.(catalog := d.catalog) && CatalogOk(d.catalog) && OthersNamed(d0, d, table)
             && LineFor(d.catalog, table).None?
    requires forall i: nat | i < |d.pages| :: d.pages[i].tableId != IdOf(d0.catalog, table)
    ensures Good(d) && IsDropping(d0, d, table)
  {
    hide Good, Bag, LineFor, TablesOk, Live, CatalogOk;
    GoodFacts(d1);
    OldTablesAreOk(d1, d, table);
    CatalogMayChange(d1, d);
  }

  /** Every state of a DROP TABLE is good, and at its end the table is gone. */
  lemma DropIsSafe(h0: seq<DiskState>, d0: DiskState, h: seq<DiskState>, d: DiskState, table: string)
    requires Good(d0) && TableDropped(h0, d0, h, d, table)
    ensures |h0| <= |h| && h[..|h0|] == h0 && Good(d) && LineFor(d.catalog, table).None?
    ensures LineFor(d0.catalog, table).None? ==> h == h0 && d == d0
    ensures LineFor(d0.catalog, table).Some? ==>
              IsDropping(d0, d, table) && forall k | |h0| <= k < |h| :: Good(h[k]) && IsDropping(d0, h[k], table)
  {
    hide Good, LineFor, OnlyRows, Freed, CatalogOk, IsDropping;
    if LineFor(d0.catalog, table).Some? {
      var h1, d1 := h[..|h| - 1], d.(catalog := d0.catalog);
      EmptiedByDrop(d0, d1, table);
      DroppedIsGood(d0, d1, d, table);
      forall k | |h0| <= k < |h| ensures Good(h[k]) && IsDropping(d0, h[k], table) {
        if k < |h1| {
          assert h[k] == h1[k];
          FreeingStepIsGood(d0, h1[k], table);
        }
      }
      assert h[..|h0|] == h1[..|h0|];
    }
  }

  /** All pages freed: the table is empty but still there. */
  lemma EmptiedByDrop(d0: DiskState, d1: DiskState, table: string)
    requires Good(d0) && LineFor(d0.catalog, table).Some? && OnlyRows(d0, d1, IdOf(d0.catalog, table))
    requires forall i: nat | i < |d1.pages| :: d1.pages[i].tableId != IdOf(d0.catalog, table)
    ensures Good(d1) && IsDropping(d0, d1, table) && d1.catalog == d0.catalog
  {
    hide Good, Bag, LineFor, HealthyBag, TablesOk, OthersKept, PagesOk;
    var mine := IdOf(d0.catalog, table);
    GoodFacts(d0);
    NoRows(d1.pages, mine);
    EmptyIsHealthy(SchemeOf(d0.catalog, table));
    PartStaysOk(d0, d1, table, multiset{});
    CatalogMayChange(d0, d1);
    forall id | id != 0 && id != mine ensures Bag(d1.pages, id) == Bag(d0.pages, id) {
      BagOfOthers(d0.pages, d1.pages, mine, id);
    }
  }

  // ---- Turns ------------------------------------------------------------------------------

  /** What a client can ask for. */
  datatype Action =
    | Execute(statement: Statement)
    | Create(table: string, columns: seq<Column>)
    | Drop(table: string)

  /** A statement about rows is one that the parser produces, on a table that exists. */
  ghost predicate Allowed(d0: DiskState, a: Action)
  {
    a.Execute? ==> Regular(d0, a.statement)
  }

  /** What the engine does for it. */
  ghost predicate Acted(num: NumberParser, h0: seq<DiskState>, d0: DiskState, h: seq<DiskState>, d: DiskState,
                        a: Action)
  {
    match a
    case Execute(s) => Executable(s) && Executed(num, false, h0, d0, h, d, s)
    case Create(table, columns) => TableCreated(h0, d0, h, d, table, columns)
    case Drop(table) => TableDropped(h0, d0, h, d, table)
  }

  /** An action is carried out to its end, or a crash in the state `e` interrupts it and recovery is completed, perhaps
      at the third try. */
  datatype Turn =
    | Completed(action: Action)
    | Interrupted(action: Action, e: DiskState, attempts: seq<DiskState>)

  ghost predicate TurnEnds(num: NumberParser, h0: seq<DiskState>, d0: DiskState, h: seq<DiskState>, d: DiskState,
                           turn: Turn, d1: DiskState)
  {
    match turn
    case Completed(_) => d1 == d
    case Interrupted(_, e, attempts) => Seen(h0, d0, h, d, e) && RestartedAfter(num, e, attempts, d1)
  }

  ghost predicate Takes(num: NumberParser, d0: DiskState, turn: Turn, d1: DiskState)
  {
    exists h0: seq<DiskState>, h: seq<DiskState>, d: DiskState ::
      Acted(num, h0, d0, h, d, turn.action) && TurnEnds(num, h0, d0, h, d, turn, d1)
  }

  /** The rows of the statement's table are `rows`, and no other table is touched. */
  ghost predicate LeavesRows(d0: DiskState, s: Statement, d1: DiskState, rows: multiset<string>)
  {
    var id := IdOf(d0.catalog, s.table);
    && d1.catalog == d0.catalog && Bag(d1.pages, id) == rows
    && forall other | other != id && other != 0 :: Bag(d1.pages, other) == Bag(d0.pages, other)
  }

  /** A completed statement has its effect. An interrupted one has what was promised for the state of the crash, if
      recovery is not interrupted as well, or may be, or finds nothing pending but failed INSERTs; in any case every
      table has the rows that `Recovered` tells of the last interruption. */
  ghost predicate StatementSerial(num: NumberParser, d0: DiskState, turn: Turn, d1: DiskState)
    requires turn.action.Execute? && Executable(turn.action.statement)
  {
    var s := turn.action.statement;
    match turn
    case Completed(_) => LeavesRows(d0, s, d1, After(num, d0, s))
    case Interrupted(_, e, attempts) =>
      && d1.catalog == d0.catalog && (forall id | id != 0 :: Bag(d1.pages, id) == Recovered(Last(e, attempts), id))
      && (attempts == [] || Repeatable(num, d0, s) || Leftovers(Pending(e.lines)) ==>
          LeavesRows(d0, s, d1, Promised(num, d0, s, e)))
  }

  ghost predicate CreateSerial(d0: DiskState, turn: Turn, d1: DiskState)
    requires turn.action.Create?
  {
    var table, columns := turn.action.table, turn.action.columns;
    || IsCreated(d0, d1, table, columns)
    || (SameRows(d0, d1)
        && (turn.Completed? ==> !DifferentNames(columns) || columns == [] || LineFor(d0.catalog, table).Some?))
  }

  ghost predicate DropSerial(d0: DiskState, turn: Turn, d1: DiskState)
    requires turn.action.Drop?
  {
    var table := turn.action.table;
    if LineFor(d0.catalog, table).None? then SameRows(d0, d1)
    else IsDropping(d0, d1, table) && (turn.Completed? ==> LineFor(d1.catalog, table).None?)
  }

  /** The turn has the effect it should, and no other. */
  ghost predicate Serial(num: NumberParser, d0: DiskState, turn: Turn, d1: DiskState)
  {
    match turn.action
    case Execute(s) => Executable(s) && StatementSerial(num, d0, turn, d1)
    case Create(_, _) => CreateSerial(d0, turn, d1)
    case Drop(_) => DropSerial(d0, turn, d1)
  }

  lemma CrashedStatement(num: NumberParser, d0: DiskState, s: Statement, e: DiskState, attempts: seq<DiskState>,
                         d1: DiskState)
    requires Good(d0) && Regular(d0, s) && CrashSafe(num, d0, s, e) && RestartedAfter(num, e, attempts, d1)
    ensures Good(d1) && StatementSerial(num, d0, Interrupted(Execute(s), e, attempts), d1)
  {
    hide DiskOk, Bag, Recovered, Promised, CanRepeat, RestartedAfter, Regular, Leftovers, Pending, Repeatable, Good,
         SameRows;
    RegularFacts(d0, s);
    RestartArrives(num, e, attempts, d1);
    GoodIsOk(d0);
    TableIsLive(d0.catalog, s.table);
    if Repeatable(num, d0, s) {
      InterruptionsDoNotMatter(num, e, attempts, d1);
    } else if Leftovers(Pending(e.lines)) {
      GoodAtCrash(e);
      RestartOfGood(num, e, attempts, d1);
      SameAsRecovered(e, d1);
    }
  }

  lemma GoodAtCrash(e: DiskState)
    requires DiskOk(e) && Leftovers(Pending(e.lines))
    ensures Good(e)
  {
  }

  lemma SameAsRecovered(e: DiskState, d: DiskState)
    requires Good(e) && SameRows(e, d)
    ensures forall id | id != 0 :: Bag(d.pages, id) == Recovered(e, id)
  {
    GoodFacts(e);
  }

  lemma StatementTurn(num: NumberParser, h0: seq<DiskState>, d0: DiskState, h: seq<DiskState>, d: DiskState,
                      turn: Turn, d1: DiskState)
    requires Good(d0) && turn.action.Execute? && Regular(d0, turn.action.statement)
    requires Acted(num, h0, d0, h, d, turn.action) && TurnEnds(num, h0, d0, h, d, turn, d1)
    ensures Good(d1) && Executable(turn.action.statement) && StatementSerial(num, d0, turn, d1)
  {
    hide Executed, RestartedAfter, CrashSafe, Good, Bag, After, Regular, Recovered, Leftovers, Pending, Repeatable,
         Promised;
    var s := turn.action.statement;
    StatementIsSafe(num, h0, d0, h, d, s);
    match turn {
      case Completed(_) =>
      case Interrupted(_, e, attempts) =>
        IdleIsCrashSafe(num, d0, s, d0);
        CrashedStatement(num, d0, s, e, attempts, d1);
    }
  }

  lemma CreateTurn(num: NumberParser, h0: seq<DiskState>, d0: DiskState, h: seq<DiskState>, d: DiskState, turn: Turn,
                   d1: DiskState)
    requires Good(d0) && turn.action.Create?
    requires Acted(num, h0, d0, h, d, turn.action) && TurnEnds(num, h0, d0, h, d, turn, d1)
    ensures Good(d1) && CreateSerial(d0, turn, d1)
  {
    hide RestartedAfter, Good, Bag, LineFor, Live, CatalogOk, OthersNamed;
    var table, columns := turn.action.table, turn.action.columns;
    CreateIsSafe(h0, d0, h, d, table, columns);
    SameAsBefore(d0);
    match turn {
      case Completed(_) =>
      case Interrupted(_, e, attempts) =>
        assert e == d0 || e == d;
        RestartOfGood(num, e, attempts, d1);
        GoodIsOk(e);
        RestartArrives(num, e, attempts, d1);
        if e != d0 {
          CreatedStays(d0, e, d1, table, columns);
        }
    }
  }

  lemma CreatedStays(d0: DiskState, e: DiskState, d1: DiskState, table: string, columns: seq<Column>)
    requires IsCreated(d0, e, table, columns) && SameRows(e, d1) && CatalogOk(e.catalog)
    ensures IsCreated(d0, d1, table, columns)
  {
    hide Bag, LineFor, Live;
    TableIsLive(e.catalog, table);
  }

  lemma DropTurn(num: NumberParser, h0: seq<DiskState>, d0: DiskState, h: seq<DiskState>, d: DiskState, turn: Turn,
                 d1: DiskState)
    requires Good(d0) && turn.action.Drop?
    requires Acted(num, h0, d0, h, d, turn.action) && TurnEnds(num, h0, d0, h, d, turn, d1)
    ensures Good(d1) && DropSerial(d0, turn, d1)
  {
    hide RestartedAfter, Good, Bag, LineFor, Live, CatalogOk, IsDropping, SameRows;
    var table := turn.action.table;
    DropIsSafe(h0, d0, h, d, table);
    SameAsBefore(d0);
    match turn {
      case Completed(_) =>
      case Interrupted(_, e, attempts) =>
        if LineFor(d0.catalog, table).Some? {
          NotYetDropping(d0, table);
        }
        RestartOfGood(num, e, attempts, d1);
        GoodIsOk(e);
        GoodIsOk(d0);
        RestartArrives(num, e, attempts, d1);
        if LineFor(d0.catalog, table).Some? {
          DroppingStays(d0, e, d1, table);
        }
    }
  }

  lemma NotYetDropping(d: DiskState, table: string)
    requires LineFor(d.catalog, table).Some?
    ensures IsDropping(d, d, table)
  {
    hide Bag, LineFor;
  }

  lemma DroppingStays(d0: DiskState, e: DiskState, d1: DiskState, table: string)
    requires IsDropping(d0, e, table) && SameRows(e, d1) && CatalogOk(d0.catalog)
    ensures IsDropping(d0, d1, table)
  {
    hide Bag, LineFor, Live;
    TableIsLive(d0.catalog, table);
  }

  /** One turn of a run: good states stay good, and the turn has the effect it should. */
  lemma TurnIsSafe(num: NumberParser, d0: DiskState, turn: Turn, d1: DiskState)
    requires Good(d0) && Allowed(d0, turn.action) && Takes(num, d0, turn, d1)
    ensures Good(d1) && Serial(num, d0, turn, d1)
  {
    hide Acted, TurnEnds, Good, Regular, StatementSerial, CreateSerial, DropSerial;
    var h0: seq<DiskState>, h: seq<DiskState>, d: DiskState :|
      Acted(num, h0, d0, h, d, turn.action) && TurnEnds(num, h0, d0, h, d, turn, d1);
    match turn.action {
      case Execute(_) => StatementTurn(num, h0, d0, h, d, turn, d1);
      case Create(_, _) => CreateTurn(num, h0, d0, h, d, turn, d1);
      case Drop(_) => DropTurn(num, h0, d0, h, d, turn, d1);
    }
  }

  // ---- Runs -------------------------------------------------------------------------------

  /** A run: the states between the turns. */
  ghost predicate IsRun(num: NumberParser, states: seq<DiskState>, turns: seq<Turn>)
  {
    && |states| == |turns| + 1
    && forall i | 0 <= i < |turns| ::
         Allowed(states[i], turns[i].action) && Takes(num, states[i], turns[i], states[i + 1])
  }

  /** Over every run that begins in a good state, with tables created and dropped, rows with and without keys, rows that
      fit a page or not, and crashes at any step of any action and of any recovery: every state between the turns is
      good, and every turn has the effect it should. */
  lemma {:induction false} RunsAreSafe(num: NumberParser, states: seq<DiskState>, turns: seq<Turn>)
    requires IsRun(num, states, turns) && Good(states[0])
    ensures forall i | 0 <= i < |states| :: Good(states[i])
    ensures forall i | 0 <= i < |turns| :: Serial(num, states[i], turns[i], states[i + 1])
    decreases |turns|
  {
    hide Good, Allowed, Takes, Serial;
    if |turns| > 0 {
      var n := |turns| - 1;
      assert forall i | 0 <= i <= n :: states[..n + 1][i] == states[i];
      assert forall i | 0 <= i < n :: turns[..n][i] == turns[i];
      RunsAreSafe(num, states[..n + 1], turns[..n]);
      assert Good(states[n]);
      TurnIsSafe(num, states[n], turns[n], states[n + 1]);
    }
  }

  /** A new database is good. */
  lemma NewDatabaseIsGood()
    ensures Good(DiskState([], [], []))
  {
    PlanOfNothing();
  }

  // ---- Runs with an empty log tail --------------------------------------------------------

  /** The action is not an INSERT that is logged and then fails, because its row fits no page. */
  ghost predicate Fitting(num: NumberParser, d0: DiskState, a: Action)
    requires Allowed(d0, a)
  {
    a.Execute? && a.statement.Insert? && Effective(num, d0, a.statement) ==>
      Fits(RowText(RowMeant(SchemeOf(d0.catalog, a.statement.table), a.statement)))
  }

  /** The action has something to do, which ends in a COMMIT. */
  ghost predicate Commits(num: NumberParser, d0: DiskState, a: Action)
    requires Allowed(d0, a)
  {
    a.Execute? && Effective(num, d0, a.statement) && Fitting(num, d0, a)
  }

  lemma InsertSettles(h0: seq<DiskState>, d0: DiskState, h: seq<DiskState>, d: DiskState, table: string, row: Row,
                      failed: bool)
    requires InsertDone(h0, d0, h, d, table, row, failed) && Fits(RowText(row))
    requires RowError(SchemeOf(d0.catalog, table), Bag(d0.pages, IdOf(d0.catalog, table)), row).None?
    ensures Pending(d.lines) == []
  {
    hide Bag, LineOf, RowText, RowError, Pending, InsertRun, InsertStep, Fits, LineFirst;
    var line := LineOf(LogInsert(table, row));
    assert d0.lines + [line, COMMIT] == d0.lines + [line] + [COMMIT];
    PendingCommitted(d0.lines + [line]);
  }

  lemma ReplaceSettles(h0: seq<DiskState>, d0: DiskState, h: seq<DiskState>, d: DiskState, s: Statement, rows: seq<Row>)
    requires !s.Insert? && ReplaceDone(h0, d0, h, d, s.table, s.condition, rows)
    ensures Pending(d.lines) == []
  {
    hide ReplaceRun, Whole, BlockLines, Pending, BlockFirst;
    PendingCommitted(d0.lines + BlockLines(s.table, s.condition, rows));
  }

  /** A statement that is completed leaves nothing pending, if it commits, or if nothing was pending and it does not
      fail. */
  lemma StatementSettles(num: NumberParser, h0: seq<DiskState>, d0: DiskState, h: seq<DiskState>, d: DiskState,
                         s: Statement)
    requires Good(d0) && Regular(d0, s) && Executed(num, false, h0, d0, h, d, s) && Fitting(num, d0, Execute(s))
    ensures Effective(num, d0, s) || Pending(d0.lines) == [] ==> Pending(d.lines) == []
  {
    hide Executed, Effective, RowMeant, RowsMeant, RowText, Fits, Pending, InsertDone, ReplaceDone, Good, Bag, RowError,
         LineFor;
    if Effective(num, d0, s) {
      EffectiveIsDone(num, h0, d0, h, d, s);
      if s.Insert? {
        RowMeantIsSome(num, d0, s);
        InsertMeans(num, d0, s);
        var row := RowMeant(SchemeOf(d0.catalog, s.table), s);
        InsertSettles(h0, d0, h, d, s.table, row, !InsertDone(h0, d0, h, d, s.table, row, false));
      } else {
        ReplaceSettles(h0, d0, h, d, s, RowsMeant(num, d0, s));
      }
    } else {
      IneffectiveIsIdle(num, h0, d0, h, d, s);
      PendingCommitted(d0.lines);
    }
  }

  /** A turn leaves nothing pending, if it was interrupted, for recovery ends in a COMMIT; if it commits; or if nothing
      was pending and it does not fail. */
  lemma TurnSettles(num: NumberParser, d0: DiskState, turn: Turn, d1: DiskState)
    requires Good(d0) && Allowed(d0, turn.action) && Takes(num, d0, turn, d1)
    requires turn.Interrupted? || Commits(num, d0, turn.action)
             || (Pending(d0.lines) == [] && Fitting(num, d0, turn.action))
    ensures Pending(d1.lines) == []
  {
    hide Executed, Good, Regular, RestartedAfter, TableCreated, TableDropped, Pending, Fitting, Effective, Leftovers,
         DiskOk, LineFor, IsCreated, IsDropping;
    var h0: seq<DiskState>, h: seq<DiskState>, d: DiskState :|
      Acted(num, h0, d0, h, d, turn.action) && TurnEnds(num, h0, d0, h, d, turn, d1);
    match turn {
      case Interrupted(a, e, attempts) =>
        ActionStaysOk(num, h0, d0, h, d, a, e);
        RestartArrives(num, e, attempts, d1);
      case Completed(a) =>
        match a {
          case Execute(s) => StatementSettles(num, h0, d0, h, d, s);
          case Create(table, columns) => CreateKeepsLog(h0, d0, h, d, table, columns);
          case Drop(table) => DropKeepsLog(h0, d0, h, d, table);
        }
    }
  }

  lemma CreateKeepsLog(h0: seq<DiskState>, d0: DiskState, h: seq<DiskState>, d: DiskState, table: string,
                       columns: seq<Column>)
    requires TableCreated(h0, d0, h, d, table, columns)
    ensures d.lines == d0.lines
  {
  }

  lemma DropKeepsLog(h0: seq<DiskState>, d0: DiskState, h: seq<DiskState>, d: DiskState, table: string)
    requires TableDropped(h0, d0, h, d, table)
    ensures d.lines == d0.lines
  {
    hide PagesOk, OthersKept, Freeing;
  }

  /** No INSERT has failed since the last COMMIT before the turn `n`. */
  ghost predicate Clean(num: NumberParser, states: seq<DiskState>, turns: seq<Turn>, n: nat)
    requires IsRun(num, states, turns) && n <= |turns|
  {
    n == 0 || turns[n - 1].Interrupted? || Commits(num, states[n - 1], turns[n - 1].action)
    || (Clean(num, states, turns, n - 1) && Fitting(num, states[n - 1], turns[n - 1].action))
  }

  /** If no INSERT failed at all, none has since the last COMMIT. */
  lemma {:induction false} FittingIsClean(num: NumberParser, states: seq<DiskState>, turns: seq<Turn>, n: nat)
    requires IsRun(num, states, turns) && n <= |turns|
    requires forall i | 0 <= i < n :: Fitting(num, states[i], turns[i].action)
    ensures Clean(num, states, turns, n)
  {
    hide Fitting, Takes, Allowed;
    if n > 0 {
      FittingIsClean(num, states, turns, n - 1);
    }
  }

  lemma {:induction false} CleanIsSettled(num: NumberParser, states: seq<DiskState>, turns: seq<Turn>, n: nat)
    requires IsRun(num, states, turns) && Good(states[0]) && Pending(states[0].lines) == []
    requires n <= |turns| && Clean(num, states, turns, n)
    ensures Pending(states[n].lines) == []
  {
    hide Good, Pending, Fitting, Commits, Takes, Allowed, Serial;
    if n > 0 {
      if Clean(num, states, turns, n - 1) {
        CleanIsSettled(num, states, turns, n - 1);
      }
      RunsAreSafe(num, states, turns);
      TurnSettles(num, states[n - 1], turns[n - 1], states[n]);
    }
  }

  /** What the rows of the table of an INSERT, DELETE or UPDATE are after the turn does not depend on how often recovery
      was interrupted: recovery was not, or the row of an INSERT has a key or fits no page. */
  ghost predicate Repeated(num: NumberParser, d0: DiskState, turn: Turn)
    requires turn.action.Execute? && Executable(turn.action.statement)
  {
    var s := turn.action.statement;
    turn.Completed? || turn.attempts == []
    || (s.Insert? && Effective(num, d0, s) ==>
          var scheme := SchemeOf(d0.catalog, s.table); Repeats(scheme, RowMeant(scheme, s)))
  }

  /** An acknowledged statement has its whole effect; one that a crash interrupted, as much of it as was promised. */
  ghost predicate Exact(num: NumberParser, d0: DiskState, turn: Turn, d1: DiskState)
    requires turn.action.Execute? && Executable(turn.action.statement)
  {
    var s := turn.action.statement;
    LeavesRows(d0, s, d1, if turn.Completed? then After(num, d0, s) else Promised(num, d0, s, turn.e))
  }

  /** Over every run that begins with nothing pending, with crashes at any step and recoveries that are interrupted any
      number of times at any of their steps: each table has exactly the rows of the statements that were completed, and
      what was promised of those that were interrupted. Only where an INSERT has failed since the last COMMIT, because
      its row fits no page, and where a row without a key is inserted, does an interrupted recovery matter; `Limits`
      says how. */
  lemma RunsAreExact(num: NumberParser, states: seq<DiskState>, turns: seq<Turn>, i: nat)
    requires IsRun(num, states, turns) && Good(states[0]) && Pending(states[0].lines) == []
    requires i < |turns| && turns[i].action.Execute?
    requires Clean(num, states, turns, i) || turns[i].Completed? || turns[i].attempts == []
    ensures Executable(turns[i].action.statement)
    ensures Repeated(num, states[i], turns[i]) ==> Exact(num, states[i], turns[i], states[i + 1])
  {
    hide Good, Pending, Takes, Regular, Clean, Promised, After, LeavesRows, Leftovers, Repeats, Effective, RowMeant;
    RunsAreSafe(num, states, turns);
    assert Serial(num, states[i], turns[i], states[i + 1]) && Allowed(states[i], turns[i].action);
    RegularFacts(states[i], turns[i].action.statement);
    if Clean(num, states, turns, i) {
      CleanIsSettled(num, states, turns, i);
    }
  }

  // ---- Every state of a run ---------------------------------------------------------------

  /** What a state in order is worth: the free pages and the pages of the tables add up to the file; an id that no table
      has, also one that a dropped table had, owns no page and shows no row; and in every table no two rows share a key,
      and every key fits an int. */
  lemma DiskOkMeans(d: DiskState)
    requires DiskOk(d)
    ensures |Tagged(d.pages, 0)| + PagesOwned(d.pages, d.catalog) == |d.pages|
    ensures forall id | id != 0 && !Live(d.catalog, id) :: Tagged(d.pages, id) == [] && Bag(d.pages, id) == multiset{}
    ensures forall table | LineFor(d.catalog, table).Some? ::
              var scheme, b := SchemeOf(d.catalog, table), Bag(d.pages, IdOf(d.catalog, table));
              KeysUnique(scheme, b) && forall t | t in b :: !KeyOverflows(scheme, RowOf(t))
  {
    hide Bag, Tagged, LogOk, LineFor, KeysUnique, KeyOverflows, PagesOwned;
    PagesAddUp(d.pages, d.catalog);
    forall id | id != 0 && !Live(d.catalog, id) ensures Tagged(d.pages, id) == [] && Bag(d.pages, id) == multiset{} {
      FreshIdIsEmpty(d, id);
    }
    forall table | LineFor(d.catalog, table).Some?
      ensures var scheme, b := SchemeOf(d.catalog, table), Bag(d.pages, IdOf(d.catalog, table));
              KeysUnique(scheme, b) && forall t | t in b :: !KeyOverflows(scheme, RowOf(t))
    {
      TableFacts(d, table);
    }
  }

  /** Everything that an action puts on the disk is in order. */
  lemma ActionStaysOk(num: NumberParser, h0: seq<DiskState>, d0: DiskState, h: seq<DiskState>, d: DiskState,
                      a: Action, e: DiskState)
    requires Good(d0) && Allowed(d0, a) && Acted(num, h0, d0, h, d, a) && Seen(h0, d0, h, d, e)
    ensures DiskOk(e)
  {
    hide DiskOk, Executed, Leftovers, Pending, TableCreated, TableDropped, LineFor, Bag, Regular, IsDropping, IsCreated;
    match a {
      case Execute(s) =>
        RegularFacts(d0, s);
        ExecutedStaysOk(num, h0, d0, h, d, s);
      case Create(table, columns) => CreateIsSafe(h0, d0, h, d, table, columns);
      case Drop(table) => DropIsSafe(h0, d0, h, d, table);
    }
  }

  /** `e` was on the disk in one of the recoveries after a crash in `e0`. */
  ghost predicate SeenInRestart(num: NumberParser, e0: DiskState, attempts: seq<DiskState>, d1: DiskState, e: DiskState)
    decreases |attempts|
  {
    if |attempts| == 0 then
      exists h0: seq<DiskState>, h: seq<DiskState> :: Recovers(num, h0, e0, h, d1) && Seen(h0, e0, h, d1, e)
    else
      || (InterruptedAt(num, e0, attempts[0]) && InterruptedAt(num, e0, e))
      || (InterruptedAt(num, e0, attempts[0]) && SeenInRestart(num, attempts[0], attempts[1..], d1, e))
  }

  lemma {:induction false} RestartStaysOk(num: NumberParser, e0: DiskState, attempts: seq<DiskState>, d1: DiskState,
                                          e: DiskState)
    requires DiskOk(e0) && SeenInRestart(num, e0, attempts, d1, e)
    ensures DiskOk(e)
    decreases |attempts|
  {
    hide DiskOk, Recovers, InterruptedAt;
    if |attempts| == 0 {
      var h0: seq<DiskState>, h: seq<DiskState> :| Recovers(num, h0, e0, h, d1) && Seen(h0, e0, h, d1, e);
      RecoveryArrives(num, h0, e0, h, d1);
    } else {
      InterruptionStaysOk(num, e0, attempts[0]);
      if InterruptedAt(num, e0, e) {
        InterruptionStaysOk(num, e0, e);
      } else {
        RestartStaysOk(num, attempts[0], attempts[1..], d1, e);
      }
    }
  }

  /** `e` was on the disk at some moment of the turn. */
  ghost predicate SeenInTurn(num: NumberParser, d0: DiskState, turn: Turn, d1: DiskState, e: DiskState)
  {
    || (exists h0: seq<DiskState>, h: seq<DiskState>, d: DiskState ::
          Acted(num, h0, d0, h, d, turn.action) && TurnEnds(num, h0, d0, h, d, turn, d1) && Seen(h0, d0, h, d, e))
    || (turn.Interrupted? && SeenInRestart(num, turn.e, turn.attempts, d1, e))
  }

  /** No state that the disk is ever in during a run, in the middle of a statement, of a DROP TABLE or of an interrupted
      recovery, has two rows of a table with the same key or a key that fits no int, a page without an owner, or an id
      that shows rows of a table that is gone. */
  lemma EveryStateIsOk(num: NumberParser, states: seq<DiskState>, turns: seq<Turn>, i: nat, e: DiskState)
    requires IsRun(num, states, turns) && Good(states[0])
    requires i < |turns| && SeenInTurn(num, states[i], turns[i], states[i + 1], e)
    ensures DiskOk(e)
  {
    hide Good, Acted, Allowed, DiskOk, SeenInRestart, Serial, Seen, RestartedAfter;
    RunsAreSafe(num, states, turns);
    assert Allowed(states[i], turns[i].action) && Good(states[i]);
    var turn := turns[i];
    if h0: seq<DiskState>, h: seq<DiskState>, d: DiskState :|
        Acted(num, h0, states[i], h, d, turn.action) && TurnEnds(num, h0, states[i], h, d, turn, states[i + 1])
        && Seen(h0, states[i], h, d, e) {
      ActionStaysOk(num, h0, states[i], h, d, turn.action, e);
    } else {
      assert Takes(num, states[i], turn, states[i + 1]);
      var h0: seq<DiskState>, h: seq<DiskState>, d: DiskState :|
        Acted(num, h0, states[i], h, d, turn.action) && TurnEnds(num, h0, states[i], h, d, turn, states[i + 1]);
      ActionStaysOk(num, h0, states[i], h, d, turn.action, turn.e);
      RestartStaysOk(num, turn.e, turn.attempts, states[i + 1], e);
    }
  }
}
