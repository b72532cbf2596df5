// What recovery achieves: every run of it, interrupted or not.
module Restarts {
  import opened StringUtils
  import opened Sql
  import opened SqlText
  import opened Storage
  import opened TableRows
  import opened Values
  import opened TableIndex
  import opened Rewrites
  import opened Catalogs
  import opened WalFormat
  import opened Recovery
  import opened Crashes
  import opened Statements
  import opened Engines
  import opened Replays
  import opened Meanings
  import opened Integrity

  // ---- Completed recovery -----------------------------------------------------------------

  /** What an INSERT leaves: its row, if it is accepted and fits a page; nothing else changes. */
  lemma InsertArrives(h0: seq<DiskState>, d0: DiskState, h: seq<DiskState>, d: DiskState, table: string, row: Row,
                      failed: bool)
    requires InsertDone(h0, d0, h, d, table, row, failed)
    ensures d.catalog == d0.catalog
    ensures forall id | id != 0 ::
              Bag(d.pages, id) == if IdOf(d0.catalog, table) == id
                                  then Inserted(SchemeOf(d0.catalog, table), Bag(d0.pages, id), row)
                                  else Bag(d0.pages, id)
  {
    hide Bag, RowText, LineOf, RowError, Fits, OthersKept, PagesOk, InsertRun;
    var mine := IdOf(d0.catalog, table);
    if RowError(SchemeOf(d0.catalog, table), Bag(d0.pages, mine), row).None? {
      assert d.lines == d0.lines + [LineOf(LogInsert(table, row))] ==> |d.lines| == |d0.lines| + 1;
      forall id | id != 0 && id != mine ensures Bag(d.pages, id) == Bag(d0.pages, id) {
        BagOfOthers(d0.pages, d.pages, mine, id);
      }
    }
  }

  lemma InsertJobArrives(num: NumberParser, h0: seq<DiskState>, d0: DiskState, table: string, row: Row,
                         h: seq<DiskState>, d: DiskState)
    requires JobDone(num, h0, d0, Run(Insert(table, [], row)), h, d)
    ensures d.catalog == d0.catalog
    ensures forall id | id != 0 ::
              Bag(d.pages, id) == if IdOf(d0.catalog, table) == id
                                  then Inserted(SchemeOf(d0.catalog, table), Bag(d0.pages, id), row)
                                  else Bag(d0.pages, id)
  {
    hide Bag, InsertDone, Inserted;
    var h1, d1 := h[..|h| - 1], Before(d);
    InsertArrives(h0, d0, h1, d1, table, row, !InsertDone(h0, d0, h1, d1, table, row, false));
  }

  lemma RestoreJobArrives(num: NumberParser, h0: seq<DiskState>, d0: DiskState, table: string, rows: seq<Row>,
                          h: seq<DiskState>, d: DiskState)
    requires JobDone(num, h0, d0, Restore(table, rows), h, d)
    ensures d.catalog == d0.catalog
    ensures forall id | id != 0 ::
              Bag(d.pages, id) == if IdOf(d0.catalog, table) == id
                                  then multiset(Survivors(SchemeOf(d0.catalog, table), rows))
                                  else Bag(d0.pages, id)
  {
    hide Bag, Survivors, Rewriting, OthersKept;
    forall id | id != 0 && id != IdOf(d0.catalog, table) ensures Bag(d.pages, id) == Bag(d0.pages, id) {
      BagOfOthers(d0.pages, Before(d).pages, IdOf(d0.catalog, table), id);
    }
  }

  /** What `Outcome` makes of the first entry, or block, of what is pending, and what is left then. */
  lemma OutcomeFirst(lines: seq<TableLine>, id: int, b: multiset<string>, es: seq<Entry>)
    requires es != []
    ensures es[0].kind == "REPLACE_BEGIN" ==>
              var n := RowEntries(es[1..]);
              Outcome(lines, id, b, es)
              == Outcome(lines, id, if IdOf(lines, es[0].table) == id
                                    then multiset(Survivors(SchemeOf(lines, es[0].table), RowsIn(es[1..1 + n])))
                                    else b, es[1 + n..])
    ensures es[0].kind == "INSERT" ==>
              Outcome(lines, id, b, es)
              == Outcome(lines, id, if IdOf(lines, es[0].table) == id
                                    then Inserted(SchemeOf(lines, es[0].table), b, RowOf(es[0].rowData))
                                    else b, es[1..])
    ensures es[0].kind == "REPLACE_ROW" ==> Outcome(lines, id, b, es) == Outcome(lines, id, b, es[1..])
  {
    hide Inserted, Survivors, RowsIn;
  }

  lemma JobOfInsert(e: Entry)
    requires e.kind == "INSERT" && IsIdentifier(e.table)
    ensures SqlOf(e).Some? && JobOf(SqlOf(e).value) == Run(Insert(e.table, [], RowOf(e.rowData)))
  {
    hide SqlOf;
    LoggedRowParses(e);
  }

  lemma NoTextOfRow(e: Entry)
    requires e.kind == "REPLACE_ROW"
    ensures SqlOf(e).None?
  {
  }

  /** Recovery that is completed leaves in every table exactly what `Outcome` says, whatever is pending: INSERTs with
      keys or without, of rows that fit a page or not, and blocks, in any order and number. */
  lemma {:induction false} PlanArrives(num: NumberParser, h0: seq<DiskState>, d0: DiskState, es: seq<Entry>,
                                       h: seq<DiskState>, d: DiskState)
    requires Kinds(es) && Replayed(num, h0, d0, Plan(es), h, d)
    ensures d.catalog == d0.catalog
    ensures forall id | id != 0 :: Bag(d.pages, id) == Outcome(d0.catalog, id, Bag(d0.pages, id), es)
    decreases |es|
  {
    hide Plan, Outcome, Bag, JobDone, SqlOf, JobOf, RowsIn, Survivors, Inserted, IsIdentifier;
    if |es| == 0 {
      PlanOfNothing();
      NoOutcome(d0);
    } else {
      if es[0].kind == "REPLACE_ROW" {
        PlanOfEntry(es);
        NoTextOfRow(es[0]);
        PlanArrives(num, h0, d0, es[1..], h, d);
      } else {
        var n := if es[0].kind == "REPLACE_BEGIN" then 1 + RowEntries(es[1..]) else 1;
        if es[0].kind == "REPLACE_BEGIN" {
          PlanOfBlock(es);
        } else {
          PlanOfEntry(es);
          JobOfInsert(es[0]);
        }
        var h1: seq<DiskState>, d1: DiskState :|
          JobDone(num, h0, d0, Plan(es)[0], h1, d1) && Replayed(num, h1, d1, Plan(es)[1..], h, d);
        if es[0].kind == "REPLACE_BEGIN" {
          RestoreJobArrives(num, h0, d0, es[0].table, RowsIn(es[1..n]), h1, d1);
        } else {
          InsertJobArrives(num, h0, d0, es[0].table, RowOf(es[0].rowData), h1, d1);
        }
        PlanArrives(num, h1, d1, es[n..], h, d);
      }
      forall id | id != 0 ensures Bag(d.pages, id) == Outcome(d0.catalog, id, Bag(d0.pages, id), es) {
        OutcomeFirst(d0.catalog, id, Bag(d0.pages, id), es);
      }
    }
  }

  lemma NoOutcome(d: DiskState)
    ensures forall id :: Outcome(d.catalog, id, Bag(d.pages, id), []) == Bag(d.pages, id)
  {
  }

  lemma {:induction false} PlanSettles(num: NumberParser, h0: seq<DiskState>, d0: DiskState, plan: seq<Job>,
                                       h: seq<DiskState>, d: DiskState)
    requires Replayed(num, h0, d0, plan, h, d) && plan != []
    ensures Pending(d.lines) == []
    decreases |plan|
  {
    var h1: seq<DiskState>, d1: DiskState :|
      JobDone(num, h0, d0, plan[0], h1, d1) && Replayed(num, h1, d1, plan[1..], h, d);
    hide JobDone;
    if |plan| == 1 {
      JobSettles(num, h0, d0, plan[0], h1, d1);
    } else {
      PlanSettles(num, h1, d1, plan[1..], h, d);
    }
  }

  lemma JobSettles(num: NumberParser, h0: seq<DiskState>, d0: DiskState, job: Job, h: seq<DiskState>, d: DiskState)
    requires JobDone(num, h0, d0, job, h, d)
    ensures Pending(d.lines) == []
  {
    hide Executed, RewriteReplayed, Untouched, Pending;
    PendingCommitted(Before(d).lines);
    assert d.lines == Before(d).lines + [COMMIT];
  }

  /** Every pending entry that the engine wrote leads to a job. */
  lemma SomethingToDo(es: seq<Entry>)
    requires Written(es) && es != []
    ensures Plan(es) != []
  {
    hide Plan, JobOf, SqlOf, RowsIn;
    if es[0].kind == "REPLACE_BEGIN" {
      PlanOfBlock(es);
    } else {
      PlanOfEntry(es);
      JobOfInsert(es[0]);
    }
  }

  /** What one recovery does, from the state that it finds. */
  ghost predicate Recovers(num: NumberParser, h0: seq<DiskState>, d0: DiskState, h: seq<DiskState>, d: DiskState)
  {
    Replayed(num, h0, d0, Plan(Pending(d0.lines)), h, d)
  }

  /** From every state in order, whatever is pending, completed recovery ends in order with nothing pending, and every
      table holds exactly the rows that `Recovered` tells of the state that recovery found. */
  lemma RecoveryArrives(num: NumberParser, h0: seq<DiskState>, d0: DiskState, h: seq<DiskState>, d: DiskState)
    requires DiskOk(d0) && Recovers(num, h0, d0, h, d)
    ensures StaysOk(h0, d0, h, d) && Pending(d.lines) == []
    ensures forall id | id != 0 :: Bag(d.pages, id) == Recovered(d0, id)
  {
    hide Pending, TablesOk, PlanOk, Replayed, Plan, Outcome, StaysOk, Unflagged;
    var es := Pending(d0.lines);
    RecoveryStaysOk(num, h0, d0, h, d);
    PlanArrives(num, h0, d0, es, h, d);
    if es == [] {
      PlanOfNothing();
      NothingReplayed(num, h0, d0, Plan(es), h, d);
    } else {
      SomethingToDo(es);
      PlanSettles(num, h0, d0, Plan(es), h, d);
    }
  }

  lemma NothingReplayed(num: NumberParser, h0: seq<DiskState>, d0: DiskState, plan: seq<Job>, h: seq<DiskState>,
                        d: DiskState)
    requires Replayed(num, h0, d0, plan, h, d) && plan == []
    ensures h == h0 && d == d0
  {
  }

  /** What was on the disk stays in its history. */
  lemma ExecutedExtends(num: NumberParser, h0: seq<DiskState>, d0: DiskState, h: seq<DiskState>, d: DiskState,
                        s: Statement)
    requires Executable(s) && Executed(num, false, h0, d0, h, d, s)
    ensures |h0| <= |h| && h[..|h0|] == h0
  {
    hide InsertStep, ReplaceStep, Whole, RowError, UpdatePreview, Kept, StoredTexts, KeyAssignmentsOk, LineOf, RowText,
         Bag;
  }

  lemma {:induction false} ReplayedExtends(num: NumberParser, h0: seq<DiskState>, d0: DiskState, plan: seq<Job>,
                                           h: seq<DiskState>, d: DiskState)
    requires Replayed(num, h0, d0, plan, h, d)
    ensures |h0| <= |h| && h[..|h0|] == h0
    decreases |plan|
  {
    hide Executed, Bag, Survivors, OnlyRows, HasPart;
    if |plan| > 0 {
      var h1: seq<DiskState>, d1: DiskState :|
        JobDone(num, h0, d0, plan[0], h1, d1) && Replayed(num, h1, d1, plan[1..], h, d);
      ReplayedExtends(num, h1, d1, plan[1..], h, d);
      if plan[0].Run? {
        ExecutedExtends(num, h0, d0, h1[..|h1| - 1], Before(d1), plan[0].statement);
      }
      assert h[..|h0|] == h1[..|h1| - 1][..|h0|];
    }
  }

  // ---- On the way to the recovered state --------------------------------------------------

  /** Recovery of `d` may be interrupted and repeated: what is pending comes from one statement on a table of the
      catalog, and if that is an INSERT, its row has a key, or fits no page. */
  ghost predicate Recoverable(d: DiskState, x: Suffix)
  {
    && Owned(d) && Awaits(d.lines, x)
    && match x
       case Nothing => true
       case Insertion(table, row, n) =>
         n > 0 && LineFor(d.catalog, table).Some? && Repeats(SchemeOf(d.catalog, table), row)
       case Replacement(table, _, _) => LineFor(d.catalog, table).Some?
  }

  /** The tables that `x` is not about have their final rows. */
  ghost predicate OthersDone(d0: DiskState, x: Suffix, d: DiskState)
  {
    forall id | id != 0 && (x.Nothing? || id != IdOf(d0.catalog, x.table)) :: Bag(d.pages, id) == Recovered(d0, id)
  }

  /** `d` lies between `d0`, where `x` was pending, and the state that recovery from `d0` ends in. */
  ghost predicate OnTheWay(d0: DiskState, x: Suffix, d: DiskState)
  {
    && d.catalog == d0.catalog && Owned(d) && OthersDone(d0, x, d)
    && match x
       case Nothing => Awaits(d.lines, Nothing)
       case Insertion(table, row, _) =>
         var id, scheme := IdOf(d0.catalog, table), SchemeOf(d0.catalog, table);
         && Inserted(scheme, Bag(d.pages, id), row) == Recovered(d0, id)
         && exists n: nat :: Awaits(d.lines, x.(copies := n)) && (n == 0 ==> Bag(d.pages, id) == Recovered(d0, id))
       case Replacement(table, _, rows) =>
         var id, scheme := IdOf(d0.catalog, table), SchemeOf(d0.catalog, table);
         && Recovered(d0, id) == multiset(Survivors(scheme, rows))
         && (Awaits(d.lines, x) || (Awaits(d.lines, Nothing) && Bag(d.pages, id) == Recovered(d0, id)))
  }

  lemma EmptyCopies(x: Suffix, lines: seq<string>)
    requires x.Insertion?
    ensures Awaits(lines, x.(copies := 0)) ==> Pending(lines) == [] && Awaits(lines, Nothing)
    ensures SuffixLoggable(x) && Awaits(lines, Nothing) ==> Awaits(lines, x.(copies := 0))
  {
  }

  lemma OthersStart(d0: DiskState, x: Suffix)
    requires Recoverable(d0, x)
    ensures OthersDone(d0, x, d0)
  {
    forall id | id != 0 && (x.Nothing? || id != IdOf(d0.catalog, x.table))
      ensures Bag(d0.pages, id) == Recovered(d0, id) {
      BehindNothing(d0.lines, x);
      OthersRecover(d0, [], x, id);
    }
  }

  lemma InsertionStarts(d0: DiskState, x: Suffix)
    requires Recoverable(d0, x) && x.Insertion?
    ensures OnTheWay(d0, x, d0)
  {
    hide Bag, Recovered, KeyOf, RowText;
    OthersStart(d0, x);
    TableIsLive(d0.catalog, x.table);
    var id := IdOf(d0.catalog, x.table);
    BehindNothing(d0.lines, x);
    InsertionRecovers(d0, [], x, id);
    InsertedTwice(SchemeOf(d0.catalog, x.table), Bag(d0.pages, id), x.row);
    assert x == x.(copies := x.copies);
  }

  /** Where recovery starts is on the way. */
  lemma StartsOnTheWay(d0: DiskState, x: Suffix)
    requires Recoverable(d0, x)
    ensures OnTheWay(d0, x, d0)
  {
    hide Bag, Recovered, Survivors, Inserted;
    OthersStart(d0, x);
    match x
    case Nothing =>
    case Insertion(_, _, _) => InsertionStarts(d0, x);
    case Replacement(table, _, _) =>
      TableIsLive(d0.catalog, table);
      BehindNothing(d0.lines, x);
      BlockRecovers(d0, [], x, IdOf(d0.catalog, table));
  }

  /** Every state on the way recovers to the same rows of every table. */
  lemma OnTheWayRecovers(d0: DiskState, x: Suffix, d: DiskState)
    requires Recoverable(d0, x) && OnTheWay(d0, x, d)
    ensures forall id | id != 0 :: Recovered(d, id) == Recovered(d0, id)
    ensures exists y :: Recoverable(d, y)
  {
    hide Recovered, Bag, Awaits, Owned, Inserted;
    match x
    case Nothing => NothingOnTheWay(d0, x, d);
    case Insertion(table, row, _) => InsertionOnTheWay(d0, x, d);
    case Replacement(table, _, rows) => BlockOnTheWay(d0, x, d);
  }

  lemma NothingOnTheWay(d0: DiskState, x: Suffix, d: DiskState)
    requires x.Nothing? && Recoverable(d0, x) && OnTheWay(d0, x, d)
    ensures forall id | id != 0 :: Recovered(d, id) == Recovered(d0, id)
    ensures Recoverable(d, Nothing)
  {
    forall id | id != 0 ensures Recovered(d, id) == Recovered(d0, id) {
      NothingPends(d, id);
    }
  }

  lemma InsertionOnTheWay(d0: DiskState, x: Suffix, d: DiskState)
    requires x.Insertion? && Recoverable(d0, x) && OnTheWay(d0, x, d)
    ensures forall id | id != 0 :: Recovered(d, id) == Recovered(d0, id)
    ensures exists y :: Recoverable(d, y)
  {
    TableIsLive(d0.catalog, x.table);
    var mine := IdOf(d0.catalog, x.table);
    var n: nat :| Awaits(d.lines, x.(copies := n)) && (n == 0 ==> Bag(d.pages, mine) == Recovered(d0, mine));
    var y := x.(copies := n);
    EmptyCopies(x, d.lines);
    BehindNothing(d.lines, y);
    assert Recoverable(d, if n == 0 then Nothing else y);
    forall id | id != 0 ensures Recovered(d, id) == Recovered(d0, id) {
      if id == mine {
        InsertionRecovers(d, [], y, id);
      } else {
        OthersRecover(d, [], y, id);
      }
    }
  }

  lemma BlockOnTheWay(d0: DiskState, x: Suffix, d: DiskState)
    requires x.Replacement? && Recoverable(d0, x) && OnTheWay(d0, x, d)
    ensures forall id | id != 0 :: Recovered(d, id) == Recovered(d0, id)
    ensures exists y :: Recoverable(d, y)
  {
    TableIsLive(d0.catalog, x.table);
    var mine, y := IdOf(d0.catalog, x.table), if Awaits(d.lines, x) then x else Nothing;
    assert Recoverable(d, y);
    BehindNothing(d.lines, x);
    forall id | id != 0 ensures Recovered(d, id) == Recovered(d0, id) {
      if Awaits(d.lines, x) {
        if id == mine {
          BlockRecovers(d, [], x, id);
        } else {
          OthersRecover(d, [], x, id);
        }
      } else {
        NothingPends(d, id);
      }
    }
  }

  // ---- Steps on the way -------------------------------------------------------------------

  lemma OthersStayDone(d0: DiskState, x: Suffix, d: DiskState, e: DiskState)
    requires !x.Nothing? && OthersDone(d0, x, d) && OthersKept(d.pages, e.pages, IdOf(d0.catalog, x.table))
    ensures OthersDone(d0, x, e)
  {
    forall id | id != 0 && id != IdOf(d0.catalog, x.table) ensures Bag(e.pages, id) == Recovered(d0, id) {
      BagOfOthers(d.pages, e.pages, IdOf(d0.catalog, x.table), id);
    }
  }

  /** Replaying a logged INSERT stays on the way at each of its steps. */
  lemma InsertStaysOnTheWay(d0: DiskState, x: Suffix, d: DiskState, e: DiskState)
    requires x.Insertion? && Recoverable(d0, x) && OnTheWay(d0, x, d)
    requires var id := IdOf(d0.catalog, x.table);
             && RowError(SchemeOf(d0.catalog, x.table), Bag(d.pages, id), x.row).None?
             && InsertStep(d, e, id, LineOf(LogInsert(x.table, x.row)), RowText(x.row))
    ensures OnTheWay(d0, x, e)
  {
    hide LineOf, RowText, RowError, Fits, Bag, Recovered, KeyOf, Behind, Live;
    TableIsLive(d0.catalog, x.table);
    var mine, scheme := IdOf(d0.catalog, x.table), SchemeOf(d0.catalog, x.table);
    var n: nat :| Awaits(d.lines, x.(copies := n)) && (n == 0 ==> Bag(d.pages, mine) == Recovered(d0, mine));
    var y := x.(copies := n);
    BehindNothing(d.lines, y);
    InsertPends(d.lines, e.lines, [], y, LineOf(LogInsert(x.table, x.row)));
    BehindNothing(e.lines, y.(copies := n + 1));
    var m := if e.lines == d.lines + [LineOf(LogInsert(x.table, x.row))] then n + 1 else 0;
    assert Awaits(e.lines, x.(copies := m));
    OwnedWithin(d, e, mine);
    OthersStayDone(d0, x, d, e);
    InsertedTwice(scheme, Bag(d.pages, mine), x.row);
  }

  /** A COMMIT when the row is stored, or cannot be, ends the way. */
  lemma CommitEndsInsert(d0: DiskState, x: Suffix, d: DiskState)
    requires x.Insertion? && Recoverable(d0, x) && OnTheWay(d0, x, d)
    requires var id, scheme := IdOf(d0.catalog, x.table), SchemeOf(d0.catalog, x.table);
             Inserted(scheme, Bag(d.pages, id), x.row) == Bag(d.pages, id)
    ensures var e := d.(lines := d.lines + [COMMIT]); OnTheWay(d0, x, e) && Awaits(e.lines, Nothing)
  {
    hide Bag, Recovered, Inserted, KeyOf, RowText;
    var e := d.(lines := d.lines + [COMMIT]);
    var n: nat :| Awaits(d.lines, x.(copies := n));
    PendingCommitted(d.lines);
    EmptyCopies(x, e.lines);
    assert Awaits(e.lines, x.(copies := 0));
  }

  /** Rewriting the pages of a block's table stays on the way. */
  lemma BlockStaysOnTheWay(d0: DiskState, x: Suffix, d: DiskState, e: DiskState)
    requires x.Replacement? && Recoverable(d0, x) && OnTheWay(d0, x, d) && Awaits(d.lines, x)
    requires OnlyRows(d, e, IdOf(d0.catalog, x.table))
    ensures OnTheWay(d0, x, e) && Awaits(e.lines, x)
  {
    TableIsLive(d0.catalog, x.table);
    OwnedWithin(d, e, IdOf(d0.catalog, x.table));
    OthersStayDone(d0, x, d, e);
  }

  lemma CommitEndsBlock(d0: DiskState, x: Suffix, d: DiskState)
    requires x.Replacement? && Recoverable(d0, x) && OnTheWay(d0, x, d)
    requires Bag(d.pages, IdOf(d0.catalog, x.table)) == Recovered(d0, IdOf(d0.catalog, x.table))
    ensures var e := d.(lines := d.lines + [COMMIT]); OnTheWay(d0, x, e) && Awaits(e.lines, Nothing)
  {
    hide Bag, Recovered, Survivors;
    PendingCommitted(d.lines);
  }

  // ---- Repeated recovery ------------------------------------------------------------------

  ghost predicate CanRepeat(d: DiskState)
  {
    exists x :: Recoverable(d, x)
  }

  /** `d` recovers to the same rows of every table as `d0`, and recovery may be repeated. */
  ghost predicate SameOutcome(d0: DiskState, d: DiskState)
  {
    CanRepeat(d) && d.catalog == d0.catalog && forall id | id != 0 :: Recovered(d, id) == Recovered(d0, id)
  }

  /** The job is one that `x` asks for. */
  ghost predicate Asks(x: Suffix, job: Job)
  {
    match x
    case Nothing => false
    case Insertion(table, row, _) => job == Run(Insert(table, [], row))
    case Replacement(table, _, rows) => job == Restore(table, rows)
  }

  /** Everything since `h0`, and the disk now, is on the way from `d0`. */
  ghost predicate Travelled(h0: seq<DiskState>, d0: DiskState, x: Suffix, h: seq<DiskState>, d: DiskState)
  {
    && |h0| <= |h| && h[..|h0|] == h0 && OnTheWay(d0, x, d)
    && forall k | |h0| <= k < |h| :: OnTheWay(d0, x, h[k])
  }

  lemma TravelledOn(h0: seq<DiskState>, d0: DiskState, x: Suffix, h1: seq<DiskState>, d1: DiskState,
                    h: seq<DiskState>, d: DiskState)
    requires Travelled(h0, d0, x, h1, d1) && Travelled(h1, d0, x, h, d)
    ensures Travelled(h0, d0, x, h, d)
  {
    hide OnTheWay;
    assert h[..|h0|] == h1[..|h0|];
    forall k | |h0| <= k < |h| ensures OnTheWay(d0, x, h[k]) {
      assert k < |h1| ==> h[k] == h1[k];
    }
  }

  lemma TravelledLast(h0: seq<DiskState>, d0: DiskState, x: Suffix, h1: seq<DiskState>, h: seq<DiskState>, d: DiskState)
    requires EndsInCommit(h, d) && h1 == h[..|h| - 1] && |h0| <= |h1| && h1[..|h0|] == h0 && OnTheWay(d0, x, d)
    requires forall k | |h0| <= k < |h1| :: OnTheWay(d0, x, h1[k])
    ensures Travelled(h0, d0, x, h, d)
  {
    hide OnTheWay;
    assert h[..|h0|] == h1[..|h0|];
    forall k | |h0| <= k < |h| ensures OnTheWay(d0, x, h[k]) {
      assert k < |h1| ==> h[k] == h1[k];
    }
  }

  /** The steps of a replayed INSERT up to its own COMMIT; afterwards inserting the row again would change nothing. */
  lemma InsertTravels(h0: seq<DiskState>, d0: DiskState, x: Suffix, d: DiskState, h: seq<DiskState>, e: DiskState,
                      failed: bool)
    requires x.Insertion? && Recoverable(d0, x) && OnTheWay(d0, x, d) && d.catalog == d0.catalog
    requires InsertDone(h0, d, h, e, x.table, x.row, failed)
    ensures Travelled(h0, d0, x, h, e)
    ensures var id, scheme := IdOf(d0.catalog, x.table), SchemeOf(d0.catalog, x.table);
            Inserted(scheme, Bag(e.pages, id), x.row) == Bag(e.pages, id)
  {
    hide OnTheWay, Bag, RowText, Fits, RowError, LineOf, Recovered, Owned, KeyOf;
    var id, scheme := IdOf(d0.catalog, x.table), SchemeOf(d0.catalog, x.table);
    if RowError(scheme, Bag(d.pages, id), x.row).None? {
      forall k | |h0| <= k < |h| ensures OnTheWay(d0, x, h[k]) {
        InsertStaysOnTheWay(d0, x, d, h[k]);
      }
      InsertStaysOnTheWay(d0, x, d, e);
      InsertedTwice(scheme, Bag(d.pages, id), x.row);
    }
  }

  lemma InsertJobTravels(num: NumberParser, d0: DiskState, x: Suffix, h1: seq<DiskState>, d1: DiskState,
                         h: seq<DiskState>, d: DiskState)
    requires x.Insertion? && Recoverable(d0, x) && OnTheWay(d0, x, d1)
    requires JobDone(num, h1, d1, Run(Insert(x.table, [], x.row)), h, d)
    ensures Travelled(h1, d0, x, h, d)
  {
    hide OnTheWay, Bag, InsertDone, Recovered, Inserted, Recoverable, Awaits;
    var h2, d2 := h[..|h| - 1], Before(d);
    SameCatalog(d0, x, d1);
    InsertTravels(h1, d0, x, d1, h2, d2, !InsertDone(h1, d1, h2, d2, x.table, x.row, false));
    CommitEndsInsert(d0, x, d2);
    assert d2.(lines := d2.lines + [COMMIT]) == d;
    TravelledLast(h1, d0, x, h2, h, d);
  }

  lemma SameCatalog(d0: DiskState, x: Suffix, d: DiskState)
    requires OnTheWay(d0, x, d)
    ensures d.catalog == d0.catalog
  {
  }

  lemma BlockJobTravels(num: NumberParser, d0: DiskState, x: Suffix, h0: seq<DiskState>, h: seq<DiskState>,
                        d: DiskState)
    requires x.Replacement? && Recoverable(d0, x) && JobDone(num, h0, d0, Restore(x.table, x.rows), h, d)
    ensures Travelled(h0, d0, x, h, d)
  {
    hide OnTheWay, Bag, Survivors, OnlyRows, Recovered, PagesOk, Awaits, HasPart, LineFor, SchemeOf, IdOf, Behind,
         Leftovers;
    StartsOnTheWay(d0, x);
    TableIsLive(d0.catalog, x.table);
    RecoverableIsBehind(d0, x);
    BlockRecovers(d0, [], x, IdOf(d0.catalog, x.table));
    var h1, d1 := h[..|h| - 1], Before(d);
    forall k | |h0| <= k < |h1| ensures OnTheWay(d0, x, h1[k]) {
      BlockStaysOnTheWay(d0, x, d0, h1[k]);
    }
    BlockStaysOnTheWay(d0, x, d0, d1);
    CommitEndsBlock(d0, x, d1);
    assert d1.(lines := d1.lines + [COMMIT]) == d;
    TravelledLast(h0, d0, x, h1, h, d);
  }

  lemma RecoverableIsBehind(d: DiskState, x: Suffix)
    requires Recoverable(d, x)
    ensures Behind(d.lines, [], x) && Leftovers([])
  {
    BehindNothing(d.lines, x);
  }

  /** Copies of an INSERT are replayed one after another. */
  lemma {:induction false} CopiesTravel(num: NumberParser, d0: DiskState, x: Suffix, h1: seq<DiskState>, d1: DiskState,
                                        plan: seq<Job>, h: seq<DiskState>, d: DiskState)
    requires x.Insertion? && Recoverable(d0, x) && OnTheWay(d0, x, d1)
    requires forall i | 0 <= i < |plan| :: Asks(x, plan[i])
    requires Replayed(num, h1, d1, plan, h, d)
    ensures Travelled(h1, d0, x, h, d)
    decreases |plan|
  {
    hide OnTheWay, JobDone, Recoverable;
    if |plan| > 0 {
      var h2: seq<DiskState>, d2: DiskState :|
        JobDone(num, h1, d1, plan[0], h2, d2) && Replayed(num, h2, d2, plan[1..], h, d);
      InsertJobTravels(num, d0, x, h1, d1, h2, d2);
      assert forall i | 0 <= i < |plan[1..]| :: plan[1..][i] == plan[i + 1];
      CopiesTravel(num, d0, x, h2, d2, plan[1..], h, d);
      TravelledOn(h1, d0, x, h2, d2, h, d);
    }
  }

  /** What `x` asks for: its INSERT for every copy, or its block. */
  lemma {:induction false} PlanOfSuffix(x: Suffix)
    requires SuffixLoggable(x)
    ensures var plan := Plan(SuffixEntries(x));
            && (forall i | 0 <= i < |plan| :: Asks(x, plan[i]))
            && |plan| == match x case Nothing => 0 case Insertion(_, _, n) => n case Replacement(_, _, _) => 1
    decreases if x.Insertion? then x.copies else 0
  {
    hide Plan, EntryOf, Loggable, JobOf, SqlOf;
    PlanOfNothing();
    match x {
      case Nothing =>
      case Insertion(table, row, n) =>
        if n > 0 {
          var e, rest := EntryOf(LogInsert(table, row)), x.(copies := n - 1);
          assert SuffixEntries(x)[0] == e && SuffixEntries(x)[1..] == SuffixEntries(rest);
          PlanOfSuffix(rest);
          InsertCopyReads(x);
          InsertEntryIsNamed(x);
          JobOfInsert(e);
          PlanOfEntry(SuffixEntries(x));
        }
      case Replacement(_, _, _) => PlanOfReplacement(x);
    }
  }

  lemma InsertEntryIsNamed(x: Suffix)
    requires x.Insertion? && SuffixLoggable(x)
    ensures IsIdentifier(EntryOf(LogInsert(x.table, x.row)).table)
  {
  }

  lemma RecoveryTravels(num: NumberParser, h0: seq<DiskState>, d0: DiskState, x: Suffix, h: seq<DiskState>,
                        d: DiskState)
    requires Recoverable(d0, x) && Recovers(num, h0, d0, h, d)
    ensures Travelled(h0, d0, x, h, d)
  {
    hide OnTheWay, JobDone, Plan;
    StartsOnTheWay(d0, x);
    PlanOfSuffix(x);
    var plan := Plan(SuffixEntries(x));
    match x {
      case Nothing =>
      case Insertion(_, _, _) => CopiesTravel(num, d0, x, h0, d0, plan, h, d);
      case Replacement(_, _, _) =>
        var h1: seq<DiskState>, d1: DiskState :| JobDone(num, h0, d0, plan[0], h1, d1)
            && Replayed(num, h1, d1, plan[1..], h, d);
        BlockJobTravels(num, d0, x, h0, h1, d1);
    }
  }

  lemma OutcomeOfWay(d0: DiskState, x: Suffix, d: DiskState)
    requires Recoverable(d0, x) && OnTheWay(d0, x, d)
    ensures SameOutcome(d0, d)
  {
    hide Recovered, Bag, Recoverable;
    OnTheWayRecovers(d0, x, d);
    SameCatalog(d0, x, d);
  }

  /** With one statement pending, every state that recovery passes through recovers to the same rows of every table as
      the state that it found, so it may be interrupted anywhere and started again. */
  lemma RecoveryKeepsOutcome(num: NumberParser, h0: seq<DiskState>, d0: DiskState, h: seq<DiskState>, d: DiskState)
    requires CanRepeat(d0) && Recovers(num, h0, d0, h, d)
    ensures |h0| <= |h| && h[..|h0|] == h0 && SameOutcome(d0, d)
    ensures forall k | |h0| <= k < |h| :: SameOutcome(d0, h[k])
  {
    hide OnTheWay, Recoverable, Recovers, SameOutcome;
    var x :| Recoverable(d0, x);
    RecoveryTravels(num, h0, d0, x, h, d);
    forall k | |h0| <= k < |h| ensures SameOutcome(d0, h[k]) {
      OutcomeOfWay(d0, x, h[k]);
    }
    OutcomeOfWay(d0, x, d);
  }
}
