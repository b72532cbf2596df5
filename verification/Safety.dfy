// One statement: what it ends in, and what a crash at any of its steps recovers to.
module Safety {
  import opened StringUtils
  import opened Sql
  import opened SqlText
  import opened Storage
  import opened TableRows
  import opened Values
  import opened TableIndex
  import opened Rewrites
  import opened Catalogs
  import opened WalFormat
  import opened Recovery
  import opened Crashes
  import opened Statements
  import opened Engines
  import opened Meanings
  import opened Integrity
  import opened Restarts

  // ---- States between statements ----------------------------------------------------------

  /** The disk is in order, and nothing is pending but INSERTs that failed because their rows fit no page. */
  ghost predicate Good(d: DiskState)
  {
    DiskOk(d) && Leftovers(Pending(d.lines))
  }

  lemma GoodFacts(d: DiskState)
    requires Good(d)
    ensures TablesOk(d) && LogOk(d.catalog, d.lines) && Unflagged(d.lines) && Leftovers(Pending(d.lines))
    ensures forall id :: Recovered(d, id) == Bag(d.pages, id)
  {
    hide TablesOk, Bag, Recovered;
    forall id ensures Recovered(d, id) == Bag(d.pages, id) {
      LeftoversRecover(d, id);
    }
  }

  lemma SettledIsGood(d: DiskState)
    requires DiskOk(d) && Pending(d.lines) == []
    ensures Good(d)
  {
  }

  // ---- One statement ----------------------------------------------------------------------

  /** How many lines were appended to the log. */
  function Logged(d0: DiskState, e: DiskState): nat
  {
    if |e.lines| <= |d0.lines| then 0 else |e.lines| - |d0.lines|
  }

  /** What the statement's table recovers to after a crash in `e`: its old rows if no line was logged, its new ones if
      all lines were; in between, the rows of the block logged so far. A row without a key is there once more if it
      reached its page and was not committed. */
  ghost function Promised(num: NumberParser, d0: DiskState, s: Statement, e: DiskState): multiset<string>
    requires Executable(s)
  {
    var n, id, scheme := Logged(d0, e), IdOf(d0.catalog, s.table), SchemeOf(d0.catalog, s.table);
    if n == 0 then Bag(d0.pages, id)
    else if !Effective(num, d0, s) then After(num, d0, s)
    else if s.Insert? then
      if n == 1 && Keyless(scheme, RowMeant(scheme, s)) then Bag(e.pages, id) + multiset{RowText(RowMeant(scheme, s))}
      else After(num, d0, s)
    else if n <= |RowsMeant(num, d0, s)| then multiset(Survivors(scheme, RowsMeant(num, d0, s)[..n - 1]))
    else After(num, d0, s)
  }

  /** After a crash, recovery may itself be interrupted without loss: no failed INSERT is pending, and a row that is
      inserted has a key, or fits no page. */
  ghost predicate Repeatable(num: NumberParser, d0: DiskState, s: Statement)
    requires Executable(s)
  {
    && Pending(d0.lines) == []
    && (s.Insert? && Effective(num, d0, s) ==>
          var scheme := SchemeOf(d0.catalog, s.table); Repeats(scheme, RowMeant(scheme, s)))
  }

  /** What a crash in `e`, while `s` runs that started in `d0`, recovers to. */
  ghost predicate CrashSafe(num: NumberParser, d0: DiskState, s: Statement, e: DiskState)
    requires Executable(s)
  {
    var id := IdOf(d0.catalog, s.table);
    && DiskOk(e) && e.catalog == d0.catalog
    && Recovered(e, id) == Promised(num, d0, s, e)
    && (forall other | other != id && other != 0 :: Recovered(e, other) == Bag(d0.pages, other))
    && (Repeatable(num, d0, s) ==> CanRepeat(e))
  }

  lemma BehindStart(d: DiskState, table: string, row: Row)
    requires Good(d) && IsIdentifier(table) && row != []
    ensures var x := Suffix.Insertion(table, row, 0);
            Leftovers(Pending(d.lines)) && Behind(d.lines, Pending(d.lines), x)
  {
    assert Pending(d.lines) + [] == Pending(d.lines);
  }

  lemma InsertMeans(num: NumberParser, d0: DiskState, s: Statement)
    requires s.Insert? && Executable(s) && Effective(num, d0, s)
    ensures var scheme, b := SchemeOf(d0.catalog, s.table), Bag(d0.pages, IdOf(d0.catalog, s.table));
            var row := RowMeant(scheme, s);
            && RowError(scheme, b, row).None? && Inserted(scheme, b, row) == After(num, d0, s)
            && (Repeats(scheme, row) || Keyless(scheme, row)) && !(Repeats(scheme, row) && Keyless(scheme, row))
  {
    hide Bag, RowText, Fits;
    var scheme, b := SchemeOf(d0.catalog, s.table), Bag(d0.pages, IdOf(d0.catalog, s.table));
    assert b + multiset{} == b;
  }

  lemma InsertKeepsPromise(num: NumberParser, d0: DiskState, s: Statement, e: DiskState)
    requires s.Insert? && Good(d0) && Regular(d0, s) && Effective(num, d0, s)
    requires var row := RowMeant(SchemeOf(d0.catalog, s.table), s);
             InsertStep(d0, e, IdOf(d0.catalog, s.table), LineOf(LogInsert(s.table, row)), RowText(row))
    ensures var id := IdOf(d0.catalog, s.table);
            && Recovered(e, id) == Promised(num, d0, s, e)
            && forall other | other != id && other != 0 :: Recovered(e, other) == Bag(d0.pages, other)
  {
    hide LineOf, RowText, Bag, Recovered, RowError, OthersKept, PagesOk, Good, Effective, After, RowMeant, Behind,
         Leftovers, Keyless, Repeats, Inserted, Pending, Fits, IsTable, Regular, Owned, CatalogOk;
    RegularFacts(d0, s);
    GoodIsOk(d0);
    TableIsLive(d0.catalog, s.table);
    RowMeantIsSome(num, d0, s);
    InsertMeans(num, d0, s);
    var id, scheme := IdOf(d0.catalog, s.table), SchemeOf(d0.catalog, s.table);
    var row := RowMeant(scheme, s);
    var x := Suffix.Insertion(s.table, row, 0);
    BehindStart(d0, s.table, row);
    if Repeats(scheme, row) {
      InsertSurvives(d0, e, Pending(d0.lines), x, id);
    } else {
      KeylessInsertSurvives(d0, e, Pending(d0.lines), x, id);
      KeylessStored(scheme, row);
      KeylessAfter(num, d0, s, e);
    }
  }

  /** Every step of an INSERT recovers to what is promised. */
  lemma InsertIsCrashSafe(num: NumberParser, d0: DiskState, s: Statement, e: DiskState)
    requires s.Insert? && Good(d0) && Regular(d0, s) && Effective(num, d0, s)
    requires var row := RowMeant(SchemeOf(d0.catalog, s.table), s);
             InsertStep(d0, e, IdOf(d0.catalog, s.table), LineOf(LogInsert(s.table, row)), RowText(row))
    ensures CrashSafe(num, d0, s, e)
  {
    hide InsertStep, LineOf, RowText, Bag, Recovered, RowError, Good, Effective, DiskOk, RowMeant, Behind, Leftovers,
         Repeats, CanRepeat, Promised, Pending, Owned, CatalogOk, IsIdentifier, Regular;
    RegularFacts(d0, s);
    GoodIsOk(d0);
    RowMeantIsSome(num, d0, s);
    InsertMeans(num, d0, s);
    InsertKeepsPromise(num, d0, s, e);
    var row := RowMeant(SchemeOf(d0.catalog, s.table), s);
    InsertStepOk(d0, e, s.table, row);
    if Repeatable(num, d0, s) {
      BehindStart(d0, s.table, row);
      GoodIsOwned(e);
      InsertCanRepeat(d0, e, Suffix.Insertion(s.table, row, 0), IdOf(d0.catalog, s.table));
    }
  }

  lemma GoodIsOk(d: DiskState)
    requires Good(d)
    ensures DiskOk(d) && Owned(d) && CatalogOk(d.catalog)
  {
  }

  lemma RegularFacts(d: DiskState, s: Statement)
    requires Regular(d, s)
    ensures Executable(s) && IsIdentifier(s.table) && LineFor(d.catalog, s.table).Some?
  {
  }

  lemma KeylessStored(scheme: seq<Column>, row: Row)
    requires Keyless(scheme, row)
    ensures StoredOf(scheme, row) == multiset{RowText(row)} && Fits(RowText(row))
  {
  }

  /** Two lines logged: the row is stored and committed. */
  lemma KeylessAfter(num: NumberParser, d0: DiskState, s: Statement, e: DiskState)
    requires s.Insert? && Executable(s) && Effective(num, d0, s)
             && Fits(RowText(RowMeant(SchemeOf(d0.catalog, s.table), s)))
    requires Keyless(SchemeOf(d0.catalog, s.table), RowMeant(SchemeOf(d0.catalog, s.table), s))
    requires var row := RowMeant(SchemeOf(d0.catalog, s.table), s);
             InsertStep(d0, e, IdOf(d0.catalog, s.table), LineOf(LogInsert(s.table, row)), RowText(row))
    ensures |e.lines| == |d0.lines| + 1 || |e.lines| == |d0.lines| + 2
    ensures |e.lines| == |d0.lines| + 2 ==> Bag(e.pages, IdOf(d0.catalog, s.table)) + multiset{} == After(num, d0, s)
  {
    hide Bag, RowText, LineOf, OthersKept, PagesOk, Effective, RowMeant;
    RowMeantIsSome(num, d0, s);
    KeylessStored(SchemeOf(d0.catalog, s.table), RowMeant(SchemeOf(d0.catalog, s.table), s));
  }

  lemma InsertCanRepeat(d0: DiskState, e: DiskState, x: Suffix, id: int)
    requires x.Insertion? && x.copies == 0 && Behind(d0.lines, [], x) && LineFor(d0.catalog, x.table).Some?
    requires Repeats(SchemeOf(d0.catalog, x.table), x.row) && Owned(e) && e.catalog == d0.catalog
    requires InsertStep(d0, e, id, LineOf(LogInsert(x.table, x.row)), RowText(x.row))
    ensures CanRepeat(e)
  {
    hide LineOf, RowText, Bag, Behind, Leftovers, Pending, Repeats;
    NoLeftovers();
    var q, n := InsertStepPends(d0, e, [], x, id);
    BehindNothing(e.lines, x.(copies := n));
    EmptyCopies(x, e.lines);
    assert Recoverable(e, if n == 0 then Nothing else x.(copies := n));
  }

  /** Every step of a DELETE or an UPDATE recovers to what is promised. */
  lemma ReplaceIsCrashSafe(num: NumberParser, d0: DiskState, s: Statement, e: DiskState)
    requires !s.Insert? && Good(d0) && Regular(d0, s) && Effective(num, d0, s)
    requires var scheme, rows := SchemeOf(d0.catalog, s.table), RowsMeant(num, d0, s);
             ReplaceStep(d0, e, IdOf(d0.catalog, s.table), BlockLines(s.table, s.condition, rows),
                         multiset(Survivors(scheme, rows)))
    ensures CrashSafe(num, d0, s, e)
  {
    hide Recovered, Bag, Survivors, HealthyBag, SuffixLoggable, RowsMeant, Regular, Whole, Torn, Good, Effective,
         JobOk, DiskOk, CrashSafe;
    RegularFacts(d0, s);
    GoodFacts(d0);
    GoodIsOk(d0);
    BlockIsOk(num, d0, s);
    var id, scheme, rows := IdOf(d0.catalog, s.table), SchemeOf(d0.catalog, s.table), RowsMeant(num, d0, s);
    ReplaceStepOk(d0, e, Block(s, rows));
    var block := BlockLines(s.table, s.condition, rows);
    if Whole(d0, e, id, block, multiset(Survivors(scheme, rows))) {
      WholeIsCrashSafe(num, d0, s, e);
    } else {
      var j: nat :| 0 < j && Torn(d0, e, block, j);
      TornIsCrashSafe(num, d0, s, e, j);
    }
  }

  lemma WholeIsCrashSafe(num: NumberParser, d0: DiskState, s: Statement, e: DiskState)
    requires !s.Insert? && Good(d0) && Regular(d0, s) && Effective(num, d0, s) && DiskOk(e) && e.catalog == d0.catalog
    requires var rows := RowsMeant(num, d0, s);
             && SuffixLoggable(Block(s, rows))
             && Whole(d0, e, IdOf(d0.catalog, s.table), BlockLines(s.table, s.condition, rows),
                      multiset(Survivors(SchemeOf(d0.catalog, s.table), rows)))
    ensures CrashSafe(num, d0, s, e)
  {
    hide Recovered, Bag, Survivors, HasPart, LineOf, SuffixLoggable, RowsMeant, Regular, Awaits, Good, Effective,
         DiskOk, Behind, Leftovers, Unflagged, Pending, OthersKept, PagesOk;
    RegularFacts(d0, s);
    GoodFacts(d0);
    GoodIsOk(d0);
    GoodIsOwned(e);
    TableIsLive(d0.catalog, s.table);
    var id, rows := IdOf(d0.catalog, s.table), RowsMeant(num, d0, s);
    var x := Block(s, rows);
    ReplaceSurvives(d0, e, x, id);
    var q, y := WholePends(d0, e, x, id);
    if Pending(d0.lines) == [] {
      BehindNothing(e.lines, y);
      assert Recoverable(e, y);
    }
  }

  lemma GoodIsOwned(d: DiskState)
    requires DiskOk(d)
    ensures Owned(d)
  {
  }

  lemma TornKeepsPromise(num: NumberParser, d0: DiskState, s: Statement, e: DiskState, j: nat)
    requires !s.Insert? && Good(d0) && Regular(d0, s) && Effective(num, d0, s)
    requires var rows := RowsMeant(num, d0, s);
             && SuffixLoggable(Block(s, rows)) && 0 < j && Torn(d0, e, BlockLines(s.table, s.condition, rows), j)
    ensures var id := IdOf(d0.catalog, s.table);
            && Recovered(e, id) == Promised(num, d0, s, e)
            && forall other | other != id && other != 0 :: Recovered(e, other) == Bag(d0.pages, other)
    ensures Behind(e.lines, Pending(d0.lines), Part(Block(s, RowsMeant(num, d0, s)), j))
  {
    hide Recovered, Bag, Survivors, LineOf, SuffixLoggable, RowsMeant, Regular, Good, Effective, Behind, Leftovers,
         Unflagged, Pending, Owned, CatalogOk, IsTable, Live, DiskOk;
    RegularFacts(d0, s);
    GoodFacts(d0);
    GoodIsOk(d0);
    TableIsLive(d0.catalog, s.table);
    var rows := RowsMeant(num, d0, s);
    TornBlockRecovers(d0, e, Block(s, rows), IdOf(d0.catalog, s.table), j);
    TornPromises(num, d0, s, e, j);
  }

  lemma TornPromises(num: NumberParser, d0: DiskState, s: Statement, e: DiskState, j: nat)
    requires Executable(s) && !s.Insert? && Effective(num, d0, s) && 0 < j <= |RowsMeant(num, d0, s)| + 1
    requires |e.lines| == |d0.lines| + j
    ensures var scheme := SchemeOf(d0.catalog, s.table);
            Promised(num, d0, s, e) == multiset(Survivors(scheme, RowsMeant(num, d0, s)[..j - 1]))
  {
    hide Effective, RowsMeant, SchemeOf, IdOf, Bag, Survivors;
    var rows := RowsMeant(num, d0, s);
    assert Logged(d0, e) == j;
    if j == |rows| + 1 {
      assert rows[..j - 1] == rows;
    }
  }

  lemma TornIsCrashSafe(num: NumberParser, d0: DiskState, s: Statement, e: DiskState, j: nat)
    requires !s.Insert? && Good(d0) && Regular(d0, s) && Effective(num, d0, s) && DiskOk(e) && e.catalog == d0.catalog
    requires var rows := RowsMeant(num, d0, s);
             && SuffixLoggable(Block(s, rows)) && 0 < j && Torn(d0, e, BlockLines(s.table, s.condition, rows), j)
    ensures CrashSafe(num, d0, s, e)
  {
    hide Recovered, Bag, Survivors, BlockLines, SuffixLoggable, RowsMeant, Good, Effective, DiskOk, Behind, Leftovers,
         Unflagged, Pending, Awaits, Promised, Owned;
    RegularFacts(d0, s);
    GoodIsOwned(e);
    TornKeepsPromise(num, d0, s, e, j);
    if Pending(d0.lines) == [] {
      BehindNothing(e.lines, Part(Block(s, RowsMeant(num, d0, s)), j));
      assert Recoverable(e, Part(Block(s, RowsMeant(num, d0, s)), j));
    }
  }

  /** A state in which nothing happened, or nothing but a COMMIT. */
  lemma IdleIsCrashSafe(num: NumberParser, d0: DiskState, s: Statement, e: DiskState)
    requires Good(d0) && Regular(d0, s)
    requires e == d0 || (e == d0.(lines := d0.lines + [COMMIT]) && !Effective(num, d0, s))
    ensures CrashSafe(num, d0, s, e) && Good(e)
  {
    hide Bag, Recovered, Effective, DiskOk, LogOk, Leftovers;
    GoodFacts(d0);
    GoodIsOk(d0);
    if e != d0 {
      PendingCommitted(d0.lines);
      IdleStaysOk([], d0, [e], e);
      assert [] + [e] == [e];
      SettledIsGood(e);
    }
    GoodFacts(e);
    GoodIsOk(e);
    if Pending(d0.lines) == [] {
      assert Recoverable(e, Nothing);
    }
  }

  // ---- The end of a statement -------------------------------------------------------------

  /** The statement is over: its table has the rows it should, the others are as they were. */
  ghost predicate Ended(num: NumberParser, d0: DiskState, s: Statement, d: DiskState)
    requires Executable(s)
  {
    var id := IdOf(d0.catalog, s.table);
    && Good(d) && d.catalog == d0.catalog && Bag(d.pages, id) == After(num, d0, s)
    && forall other | other != id && other != 0 :: Bag(d.pages, other) == Bag(d0.pages, other)
  }

  /** What is pending after an INSERT: nothing, or one failed INSERT more. */
  lemma InsertLeavesGood(d0: DiskState, h0: seq<DiskState>, h: seq<DiskState>, d: DiskState, table: string, row: Row,
                         failed: bool)
    requires Good(d0) && DiskOk(d) && IsIdentifier(table) && row != []
    requires RowError(SchemeOf(d0.catalog, table), Bag(d0.pages, IdOf(d0.catalog, table)), row).None?
    requires InsertDone(h0, d0, h, d, table, row, failed)
    ensures Good(d)
  {
    hide DiskOk, Bag, LineOf, RowError, Pending, InsertRun, InsertStep, RowText, EntryOf;
    var line, x := LineOf(LogInsert(table, row)), Suffix.Insertion(table, row, 0);
    GoodFacts(d0);
    PendingLogged(d0.lines, LogInsert(table, row));
    if failed {
      InsertCopyReads(x);
      assert Oversized(EntryOf(LogInsert(table, row)));
    } else {
      assert d0.lines + [line, COMMIT] == d0.lines + [line] + [COMMIT];
      PendingCommitted(d0.lines + [line]);
    }
  }

  lemma InsertEnds(num: NumberParser, h0: seq<DiskState>, d0: DiskState, h: seq<DiskState>, d: DiskState, s: Statement)
    requires s.Insert? && Good(d0) && Regular(d0, s) && Effective(num, d0, s) && DiskOk(d)
    requires Executed(num, false, h0, d0, h, d, s)
    ensures Ended(num, d0, s, d)
  {
    hide DiskOk, Executed, InsertDone, Bag, Good, After, RowMeant, RowError, Effective, IsIdentifier, Inserted,
         Keyless, Repeats;
    RegularFacts(d0, s);
    RowMeantIsSome(num, d0, s);
    var row := RowMeant(SchemeOf(d0.catalog, s.table), s);
    EffectiveIsDone(num, h0, d0, h, d, s);
    InsertMeans(num, d0, s);
    GoodIsOk(d0);
    TableIsLive(d0.catalog, s.table);
    var failed := !InsertDone(h0, d0, h, d, s.table, row, false);
    InsertArrives(h0, d0, h, d, s.table, row, failed);
    InsertLeavesGood(d0, h0, h, d, s.table, row, failed);
  }

  lemma ReplaceEnds(num: NumberParser, h0: seq<DiskState>, d0: DiskState, h: seq<DiskState>, d: DiskState, s: Statement)
    requires !s.Insert? && Good(d0) && Regular(d0, s) && Effective(num, d0, s) && DiskOk(d)
    requires ReplaceDone(h0, d0, h, d, s.table, s.condition, RowsMeant(num, d0, s))
    ensures Ended(num, d0, s, d)
  {
    hide DiskOk, Bag, Survivors, BlockLines, ReplaceRun, Pending, OthersKept, HasPart, Effective, RowsMeant, PagesOk;
    var id, block := IdOf(d0.catalog, s.table), BlockLines(s.table, s.condition, RowsMeant(num, d0, s));
    PendingCommitted(d0.lines + block);
    assert |d0.lines + block| < |d.lines|;
    SettledIsGood(d);
    forall other | other != id && other != 0 ensures Bag(d.pages, other) == Bag(d0.pages, other) {
      BagOfOthers(d0.pages, d.pages, id, other);
    }
  }

  /** Every state that an effective statement goes through recovers to what is promised. */
  lemma EffectiveIsSafe(num: NumberParser, h0: seq<DiskState>, d0: DiskState, h: seq<DiskState>, d: DiskState,
                        s: Statement, e: DiskState)
    requires Good(d0) && Regular(d0, s) && Effective(num, d0, s) && Executed(num, false, h0, d0, h, d, s)
    requires |h0| <= |h| && (e == d || exists k :: |h0| <= k < |h| && h[k] == e)
    ensures CrashSafe(num, d0, s, e)
  {
    hide CrashSafe, Good, Executed, Effective, RowsMeant, RowMeant, BlockLines, Survivors, LineOf, RowText, Bag,
         RowError, InsertStep, Whole, Torn;
    EffectiveIsDone(num, h0, d0, h, d, s);
    if s.Insert? {
      InsertMeans(num, d0, s);
      InsertIsCrashSafe(num, d0, s, e);
    } else {
      ReplaceIsCrashSafe(num, d0, s, e);
    }
  }

  /** A statement that starts in a good state ends in a good state with the rows it means. Every state in between is in
      order, and recovers to those rows, or to what else is promised for the lines logged so far. */
  lemma StatementIsSafe(num: NumberParser, h0: seq<DiskState>, d0: DiskState, h: seq<DiskState>, d: DiskState,
                        s: Statement)
    requires Good(d0) && Regular(d0, s) && Executed(num, false, h0, d0, h, d, s)
    ensures |h0| <= |h| && h[..|h0|] == h0 && forall k | |h0| <= k < |h| :: CrashSafe(num, d0, s, h[k])
    ensures Ended(num, d0, s, d) && CrashSafe(num, d0, s, d)
  {
    hide Executed, CrashSafe, Ended, Good, Effective, Regular, DiskOk, ReplaceDone;
    RegularFacts(d0, s);
    GoodIsOk(d0);
    ExecutedStaysOk(num, h0, d0, h, d, s);
    if Effective(num, d0, s) {
      forall k | |h0| <= k < |h| ensures CrashSafe(num, d0, s, h[k]) {
        EffectiveIsSafe(num, h0, d0, h, d, s, h[k]);
      }
      EffectiveIsSafe(num, h0, d0, h, d, s, d);
      if s.Insert? {
        InsertEnds(num, h0, d0, h, d, s);
      } else {
        EffectiveIsDone(num, h0, d0, h, d, s);
        ReplaceEnds(num, h0, d0, h, d, s);
      }
    } else {
      IneffectiveIsIdle(num, h0, d0, h, d, s);
      IdleIsCrashSafe(num, d0, s, d);
      IdleIsEnded(num, d0, s, d);
    }
  }

  lemma IdleIsEnded(num: NumberParser, d0: DiskState, s: Statement, d: DiskState)
    requires Regular(d0, s) && !Effective(num, d0, s) && Good(d) && d.pages == d0.pages && d.catalog == d0.catalog
    ensures Ended(num, d0, s, d)
  {
  }
}
