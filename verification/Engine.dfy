// The engine: statements that check, log, store and commit.
module Engines {
  import opened Wrappers
  import opened StringUtils
  import opened Sql
  import opened Storage
  import opened TableRows
  import opened PageManagers
  import opened Values
  import opened TableIndex
  import opened Rewrites
  import opened Tables
  import opened Catalogs
  import opened WalFormat
  import opened Wal
  import opened Crashes
  import opened Statements

  /** Why a statement failed; the source throws these. */
  datatype EngineError =
    | TableFailed(error: TableError)
    | InvalidColumnList
    | InvalidCondition
    | InvalidAssignment
    | TableExists
    | NoSuchTable
    | ParseFailed

  // ---- What a statement does to the disk --------------------------------------------------

  /** Nothing was written. */
  ghost predicate Untouched(h0: seq<DiskState>, d0: DiskState, h: seq<DiskState>, d: DiskState)
  {
    h == h0 && d == d0
  }

  /** An INSERT of `row`: refused without a trace, or logged, stored and committed. A row that fits no page is logged
      and then fails, and its line stays uncommitted. */
  ghost predicate InsertDone(h0: seq<DiskState>, d0: DiskState, h: seq<DiskState>, d: DiskState, table: string,
                             row: Row, failed: bool)
  {
    var id, scheme := IdOf(d0.catalog, table), SchemeOf(d0.catalog, table);
    var line, text := LineOf(LogInsert(table, row)), RowText(row);
    if RowError(scheme, Bag(d0.pages, id), row).Some? then failed && Untouched(h0, d0, h, d)
    else
      && (failed <==> !Fits(text))
      && InsertRun(h0, h, d0, id, line, text) && InsertStep(d0, d, id, line, text)
      && LineFirst(h0, h, d0, d, line, !failed)
      && d.lines == if failed then d0.lines + [line] else d0.lines + [line, COMMIT]
  }

  /** An INSERT while a block is replayed: nothing is logged, and the key is not looked at. */
  ghost predicate InsertReplayed(h0: seq<DiskState>, d0: DiskState, h: seq<DiskState>, d: DiskState, table: string,
                                 row: Row)
  {
    var id, scheme := IdOf(d0.catalog, table), SchemeOf(d0.catalog, table);
    && Within(h0, h, d0, id) && OnlyRows(d0, d, id) && EndsIn(h0, d0, h, d)
    && (forall k | |h0| <= k < |h| :: Bag(h[k].pages, id) <= Bag(d0.pages, id) + StoredOf(scheme, row))
    && Bag(d.pages, id) == Bag(d0.pages, id) + StoredOf(scheme, row)
  }

  /** What storing the row without looking at its key adds to a table. */
  function StoredOf(scheme: seq<Column>, row: Row): multiset<string>
  {
    if Storable(scheme, row) then multiset{RowText(row)} else multiset{}
  }

  lemma StoredQuietly(h0: seq<DiskState>, d0: DiskState, h: seq<DiskState>, id: int, scheme: seq<Column>, row: Row)
    requires RowWithin(h0, h, d0, id, RowText(row)) && (ShapeError(scheme, row).Some? ==> h == h0)
    ensures forall k | |h0| <= k < |h| :: Bag(h[k].pages, id) <= Bag(d0.pages, id) + StoredOf(scheme, row)
  {
    hide Bag, RowText, Fits, ShapeError;
  }

  /** A DELETE or UPDATE that leaves `rows`: all of them are logged, then the pages are rewritten, then that is
      committed. */
  ghost predicate ReplaceDone(h0: seq<DiskState>, d0: DiskState, h: seq<DiskState>, d: DiskState, table: string,
                              condition: Option<Condition>, rows: seq<Row>)
  {
    var id, scheme, block := IdOf(d0.catalog, table), SchemeOf(d0.catalog, table), BlockLines(table, condition, rows);
    var result := multiset(Survivors(scheme, rows));
    && ReplaceRun(h0, h, d0, id, block, result) && Whole(d0, d, id, block, result)
    && d.lines == d0.lines + block + [COMMIT] && BlockFirst(h0, h, d0, d, id, block)
  }

  /** A rewrite while a block is replayed: nothing is logged. */
  ghost predicate RewriteReplayed(h0: seq<DiskState>, d0: DiskState, h: seq<DiskState>, d: DiskState, table: string,
                                  rows: seq<Row>)
  {
    var id, scheme := IdOf(d0.catalog, table), SchemeOf(d0.catalog, table);
    && Refilled(h0, d0, h, d, id, multiset(Survivors(scheme, rows)))
    && Bag(d.pages, id) == multiset(Survivors(scheme, rows))
  }

  /** What the parser promises of an INSERT. */
  predicate Executable(s: Statement)
  {
    s.Insert? ==> s.values != [] && (s.columns != [] ==> |s.columns| == |s.values|)
  }

  /** What executing a statement does; `quiet` while a block is replayed. */
  ghost predicate Executed(num: NumberParser, quiet: bool, h0: seq<DiskState>, d0: DiskState, h: seq<DiskState>,
                           d: DiskState, s: Statement)
    requires Executable(s)
  {
    var scheme, texts := SchemeOf(d0.catalog, s.table), StoredTexts(d0.pages, IdOf(d0.catalog, s.table));
    match s
    case Insert(table, columns, values) =>
      if columns != [] && !ColumnsFit(scheme, columns) then Untouched(h0, d0, h, d)
      else
        var row := if columns == [] then values else RowFor(scheme, columns, values);
        if quiet then InsertReplayed(h0, d0, h, d, table, row)
        else InsertDone(h0, d0, h, d, table, row, true) || InsertDone(h0, d0, h, d, table, row, false)
    case Delete(table, condition) =>
      var rows := Kept(num, scheme, condition, texts);
      if !ConditionValid(scheme, condition) then Untouched(h0, d0, h, d)
      else if quiet then RewriteReplayed(h0, d0, h, d, table, rows)
      else ReplaceDone(h0, d0, h, d, table, condition, rows)
    case Update(table, assignments, condition) =>
      var rows := UpdatePreview(num, scheme, condition, assignments, texts).0;
      if !UpdateAllowed(scheme, assignments, condition) || (!quiet && !KeyAssignmentsOk(scheme, assignments, rows))
      then Untouched(h0, d0, h, d)
      else if rows == [] then
        if quiet then Untouched(h0, d0, h, d) else d == d0.(lines := d0.lines + [COMMIT]) && h == h0 + [d]
      else if quiet then RewriteReplayed(h0, d0, h, d, table, rows)
      else ReplaceDone(h0, d0, h, d, table, condition, rows)
  }

  // ---- What a statement answers -----------------------------------------------------------

  /** Why a row is not stored; `quiet` while a block is replayed. */
  ghost function InsertError(scheme: seq<Column>, b: multiset<string>, row: Row, quiet: bool): Option<TableError>
  {
    var refused := if quiet then ShapeError(scheme, row) else RowError(scheme, b, row);
    if refused.Some? then refused else if Fits(RowText(row)) then None else Some(PAGE_MANAGER_FULL)
  }

  function Failure(error: Option<TableError>): Option<EngineError>
  {
    if error.None? then None else Some(TableFailed(error.value))
  }

  /** The error that executing the statement reports, or None for a success. */
  ghost function AnswerOf(num: NumberParser, quiet: bool, d0: DiskState, s: Statement): Option<EngineError>
    requires Executable(s)
  {
    var scheme, id := SchemeOf(d0.catalog, s.table), IdOf(d0.catalog, s.table);
    match s
    case Insert(_, columns, values) =>
      if columns != [] && !ColumnsFit(scheme, columns) then Some(InvalidColumnList)
      else
        var row := if columns == [] then values else RowFor(scheme, columns, values);
        Failure(InsertError(scheme, Bag(d0.pages, id), row, quiet))
    case Delete(_, condition) => if ConditionValid(scheme, condition) then None else Some(InvalidCondition)
    case Update(_, assignments, condition) =>
      var rows := UpdatePreview(num, scheme, condition, assignments, StoredTexts(d0.pages, id)).0;
      if quiet then StatementError(scheme, assignments, condition)
      else UpdateError(scheme, assignments, condition, rows)
  }

  /** How many rows a statement that succeeds is reported to have inserted, removed or matched. */
  ghost function AffectedBy(num: NumberParser, d0: DiskState, s: Statement): int
  {
    var scheme, texts := SchemeOf(d0.catalog, s.table), StoredTexts(d0.pages, IdOf(d0.catalog, s.table));
    match s
    case Insert(_, _, _) => 1
    case Delete(_, condition) => |texts| - |Kept(num, scheme, condition, texts)|
    case Update(_, assignments, condition) => UpdatePreview(num, scheme, condition, assignments, texts).1
  }

  /** A CREATE TABLE: the catalog gets another table, under an id that no table has, or nothing happens. */
  ghost predicate TableCreated(h0: seq<DiskState>, d0: DiskState, h: seq<DiskState>, d: DiskState, table: string,
                               columns: seq<Column>)
  {
    if !DifferentNames(columns) || columns == [] || LineFor(d0.catalog, table).Some? then Untouched(h0, d0, h, d)
    else
      && h == h0 + [d] && d == d0.(catalog := d.catalog) && CatalogOk(d.catalog)
      && LineFor(d.catalog, table).Some? && SchemeOf(d.catalog, table) == columns
      && !Live(d0.catalog, IdOf(d.catalog, table))
      && forall other | other != table :: LineFor(d.catalog, other) == LineFor(d0.catalog, other)
  }

  /** A DROP TABLE: the pages of the table are freed one after another, and then its name goes. */
  ghost predicate TableDropped(h0: seq<DiskState>, d0: DiskState, h: seq<DiskState>, d: DiskState, table: string)
  {
    if LineFor(d0.catalog, table).None? then Untouched(h0, d0, h, d)
    else
      var id, d1 := IdOf(d0.catalog, table), d.(catalog := d0.catalog);
      && |h| > 0 && h[|h| - 1] == d && Freeing(h0, h[..|h| - 1], d0, id) && OnlyRows(d0, d1, id)
      && EndsIn(h0, d0, h[..|h| - 1], d1)
      && (forall i: nat | i < |d.pages| :: d.pages[i].tableId != id)
      && CatalogOk(d.catalog) && LineFor(d.catalog, table).None?
      && forall other | other != table :: LineFor(d.catalog, other) == LineFor(d0.catalog, other)
  }

  class Engine {
    constructor (num: NumberParser, catalog: Catalog, storage: StorageFile, wal: WALManager, cacheCapacity: nat)
      ensures this.num == num && this.catalog == catalog && this.storage == storage && this.wal == wal
      ensures this.cacheCapacity == cacheCapacity && !inRecovery
    {
      this.num, this.catalog, this.storage, this.wal, this.cacheCapacity := num, catalog, storage, wal, cacheCapacity;
      inRecovery, lastAffected := false, None;
    }

    const num: NumberParser
    const catalog: Catalog
    const storage: StorageFile
    const wal: WALManager
    const cacheCapacity: nat
    var inRecovery: bool
    var lastAffected: Option<int>

    ghost predicate Valid()
      reads this, storage, storage.disk`pages, catalog, catalog.disk`catalog
    {
      && storage.Valid() && catalog.Valid()
      && catalog.disk == storage.disk && wal.disk == storage.disk && cacheCapacity >= 1
    }

    lemma OneDisk()
      requires Valid()
      ensures wal.disk == storage.disk && catalog.disk == storage.disk
    {
    }

    method ResetAffected()
      requires Valid()
      modifies this`lastAffected
      ensures Valid() && lastAffected == None
    {
      lastAffected := None;
    }

    method HasTable(table: string) returns (known: bool)
      requires Valid()
      ensures known == LineFor(storage.disk.catalog, table).Some?
    {
      hide StorageFile.Valid, LineFor;
      known := catalog.TableExists(table);
    }

    /** The table of that name; without one, a table without columns. */
    method OpenTable(table: string) returns (t: Table)
      requires Valid()
      modifies storage.disk`pages, storage.disk`history
      ensures Valid() && t.Valid()
      ensures fresh(t) && fresh(t.pageManager) && fresh(t.pageManager.cache.repr) && fresh(t.index)
              && fresh(t.index.g.Keys)
      ensures storage.disk.State() == old(storage.disk.State()) && storage.disk.history == old(storage.disk.history)
      ensures t.num == num && t.pageManager.storage == storage
      ensures t.scheme == SchemeOf(storage.disk.catalog, table)
      ensures t.pageManager.tableId == IdOf(storage.disk.catalog, table) != 0
      ensures InFile(storage.disk.pages, t.pageManager.pageIds)
      ensures t.Rows() == StoredTexts(storage.disk.pages, IdOf(storage.disk.catalog, table))
    {
      hide Table.Valid, StorageFile.Valid, Catalog.Valid;
      catalog.InOrder();
      var scheme := catalog.GetColumns(table);
      var id := catalog.GetTableId(table);
      IdIsNotZero(storage.disk.catalog, table);
      t := new Table(num, scheme, storage, id, cacheCapacity);
      t.RowsAreBag();
    }

    /** Checks, logs, stores and commits a row. */
    method InsertLogged(t: Table, table: string, row: Row) returns (failed: Option<TableError>)
      requires t.Valid() && t.pageManager.storage == storage && wal.disk == storage.disk
      requires t.pageManager.tableId == IdOf(storage.disk.catalog, table)
               && t.scheme == SchemeOf(storage.disk.catalog, table)
      modifies t.pageManager, t.pageManager.cache.repr, t.index, t.index.g.Keys
      modifies storage, storage.disk`pages, storage.disk`lines, storage.disk`history
      ensures storage.Valid()
      ensures InsertDone(old(storage.disk.history), old(storage.disk.State()), storage.disk.history,
                         storage.disk.State(), table, row, failed.Some?)
      ensures failed == InsertError(t.scheme, Bag(old(storage.disk.pages), t.pageManager.tableId), row, false)
    {
      hide Table.Valid, RowError, RowText, Fits, OnlyRows, Within, Bag, InsertRun, InsertStep, LineOf, StoreOk,
           ShapeError, InFile, PagesOk;
      ghost var h0, d0 := storage.disk.history, storage.disk.State();
      t.RowsAreBag();
      failed := t.CheckRow(row);
      if failed.Some? {
        return;
      }
      wal.LogInsert(table, row);
      ghost var d1 := storage.disk.State();
      failed := t.InsertRow(row, true);
      t.RowsAreBag();
      LoggedThenStored(h0, d0, d1, storage.disk.history, storage.disk.State(), t.pageManager.tableId,
                       LineOf(LogInsert(table, row)), RowText(row));
      if failed.Some? {
        return;
      }
      wal.Commit();
    }

    /** Stores a row of a block that is replayed. */
    method InsertQuietly(t: Table, table: string, row: Row) returns (failed: Option<TableError>)
      requires t.Valid() && t.pageManager.storage == storage
      requires t.pageManager.tableId == IdOf(storage.disk.catalog, table)
               && t.scheme == SchemeOf(storage.disk.catalog, table)
      modifies t.pageManager, t.pageManager.cache.repr, t.index, t.index.g.Keys
      modifies storage, storage.disk`pages, storage.disk`history
      ensures storage.Valid()
      ensures InsertReplayed(old(storage.disk.history), old(storage.disk.State()), storage.disk.history,
                             storage.disk.State(), table, row)
      ensures failed == InsertError(t.scheme, Bag(old(storage.disk.pages), t.pageManager.tableId), row, true)
    {
      hide Table.Valid, RowText, Fits, OnlyRows, Within, Bag, StoreOk;
      t.RowsAreBag();
      ghost var h0, d0 := storage.disk.history, storage.disk.State();
      failed := t.InsertRow(row, false);
      StoredQuietly(h0, d0, storage.disk.history, t.pageManager.tableId, t.scheme, row);
      t.RowsAreBag();
    }

    /** INSERT; nothing is logged while a block is replayed. */
    method ExecuteInsert(table: string, columns: seq<string>, values: seq<Value>) returns (err: Option<EngineError>)
      requires Valid() && values != [] && (columns != [] ==> |columns| == |values|)
      modifies this`lastAffected, storage, storage.disk`pages, storage.disk`lines, storage.disk`history
      ensures Valid()
      ensures var h0, d0, h, d := old(storage.disk.history), old(storage.disk.State()), storage.disk.history,
              storage.disk.State();
              var scheme := SchemeOf(d0.catalog, table);
              if columns != [] && !ColumnsFit(scheme, columns) then
                err == Some(InvalidColumnList) && Untouched(h0, d0, h, d)
              else
                var row := if columns == [] then values else RowFor(scheme, columns, values);
                && err == Failure(InsertError(scheme, Bag(d0.pages, IdOf(d0.catalog, table)), row, inRecovery))
                && if inRecovery then InsertReplayed(h0, d0, h, d, table, row)
                   else InsertDone(h0, d0, h, d, table, row, err.Some?)
      ensures lastAffected == if err.None? then Some(1) else old(lastAffected)
    {
      hide Table.Valid, StorageFile.Valid, Catalog.Valid, InsertDone, InsertReplayed, Table.Rows, StoredTexts,
           InsertError, Bag;
      var t := OpenTable(table);
      var row := values;
      if columns != [] {
        var placed := PlaceValues(t.scheme, columns, values);
        if placed.None? {
          return Some(InvalidColumnList);
        }
        row := placed.value;
      }
      var failed;
      if inRecovery {
        failed := InsertQuietly(t, table, row);
      } else {
        failed := InsertLogged(t, table, row);
      }
      if failed.Some? {
        return Some(TableFailed(failed.value));
      }
      lastAffected := Some(1);
      return None;
    }

    /** Logs the rows that a table is going to have. */
    method LogBlock(table: string, condition: Option<Condition>, rows: seq<Row>)
      requires wal.disk == storage.disk
      modifies storage.disk`lines, storage.disk`history
      ensures storage.disk.lines == old(storage.disk.lines) + BlockLines(table, condition, rows)
      ensures BlockLogged(old(storage.disk.history), storage.disk.history, old(storage.disk.State()),
                          BlockLines(table, condition, rows), |rows| + 1)
    {
      hide LineOf, BlockLogged, BlockLines;
      ghost var h0, d0, block := storage.disk.history, storage.disk.State(), BlockLines(table, condition, rows);
      BlockAt(table, condition, rows);
      LoggingBegins(h0, d0, block);
      wal.LogReplaceBegin(table, condition);
      assert block[..1] == [block[0]];
      var i := 0;
      while i < |rows|
        invariant i <= |rows|
        invariant storage.disk.State() == d0.(lines := d0.lines + block[..i + 1])
        invariant BlockLogged(h0, storage.disk.history, d0, block, i + 1)
      {
        LoggingGoesOn(h0, storage.disk.history, d0, block, i + 1);
        wal.LogReplaceRow(table, rows[i]);
        i := i + 1;
      }
      assert block[..i + 1] == block;
    }

    method DeleteLogged(t: Table, table: string, condition: Option<Condition>) returns (deleted: int)
      requires t.Valid() && t.pageManager.storage == storage && wal.disk == storage.disk
      requires t.pageManager.tableId == IdOf(storage.disk.catalog, table)
               && t.scheme == SchemeOf(storage.disk.catalog, table)
      modifies t.pageManager, t.pageManager.cache.repr, t.index, t.index.g.Keys
      modifies storage, storage.disk`pages, storage.disk`lines, storage.disk`history
      ensures storage.Valid() && InFile(old(storage.disk.pages), old(t.pageManager.pageIds))
      ensures var rows := Kept(t.num, t.scheme, condition, old(t.Rows()));
              && ReplaceDone(old(storage.disk.history), old(storage.disk.State()), storage.disk.history,
                             storage.disk.State(), table, condition, rows)
              && deleted == |old(t.Rows())| - |rows|
    {
      hide Table.Valid, Survivors, Kept, OnlyRows, Within, Rewriting, Refilled, Bag, ReplaceRun, Whole, BlockLines,
           BlockLogged, StoreOk;
      ghost var h0, d0 := storage.disk.history, storage.disk.State();
      t.RowsAreBag();
      var toKeep := t.PreviewDelete(condition);
      LogBlock(table, condition, toKeep);
      ghost var h1 := storage.disk.history;
      deleted := t.DeleteRow(condition);
      t.RowsAreBag();
      BlockThenReplaced(h0, d0, h1, storage.disk.history, storage.disk.State(), t.pageManager.tableId,
                        BlockLines(table, condition, toKeep), multiset(Survivors(t.scheme, toKeep)));
      wal.Commit();
    }

    /** A DELETE while a block is replayed. */
    method DeleteQuietly(t: Table, table: string, condition: Option<Condition>) returns (deleted: int)
      requires t.Valid() && t.pageManager.storage == storage
      requires t.pageManager.tableId == IdOf(storage.disk.catalog, table)
               && t.scheme == SchemeOf(storage.disk.catalog, table)
      modifies t.pageManager, t.pageManager.cache.repr, t.index, t.index.g.Keys
      modifies storage, storage.disk`pages, storage.disk`history
      ensures storage.Valid() && InFile(old(storage.disk.pages), old(t.pageManager.pageIds))
      ensures var rows := Kept(t.num, t.scheme, condition, old(t.Rows()));
              && RewriteReplayed(old(storage.disk.history), old(storage.disk.State()), storage.disk.history,
                                 storage.disk.State(), table, rows)
              && deleted == |old(t.Rows())| - |rows|
    {
      hide Table.Valid, Survivors, Kept, OnlyRows, Within, Rewriting, Refilled, Bag, StoreOk;
      t.RowsAreBag();
      deleted := t.DeleteRow(condition);
      t.RowsAreBag();
    }

    /** DELETE; the rows that stay are logged first, unless a block is being replayed. */
    method ExecuteDelete(table: string, condition: Option<Condition>) returns (err: Option<EngineError>)
      requires Valid()
      modifies this`lastAffected, storage, storage.disk`pages, storage.disk`lines, storage.disk`history
      ensures Valid()
      ensures var h0, d0, h, d := old(storage.disk.history), old(storage.disk.State()), storage.disk.history,
              storage.disk.State();
              var scheme, texts := SchemeOf(d0.catalog, table), StoredTexts(d0.pages, IdOf(d0.catalog, table));
              var rows := Kept(num, scheme, condition, texts);
              if !ConditionValid(scheme, condition) then
                err == Some(InvalidCondition) && lastAffected == old(lastAffected) && Untouched(h0, d0, h, d)
              else
                && err.None? && lastAffected == Some(|texts| - |rows|)
                && if inRecovery then RewriteReplayed(h0, d0, h, d, table, rows)
                   else ReplaceDone(h0, d0, h, d, table, condition, rows)
    {
      hide Table.Valid, StorageFile.Valid, Catalog.Valid, ReplaceDone, RewriteReplayed, Kept, StoredTexts;
      var t := OpenTable(table);
      var valid := CheckCondition(t.scheme, condition);
      if !valid {
        return Some(InvalidCondition);
      }
      var deleted;
      if inRecovery {
        deleted := DeleteQuietly(t, table, condition);
      } else {
        deleted := DeleteLogged(t, table, condition);
      }
      lastAffected := Some(deleted);
      return None;
    }

    /** An UPDATE whose statement was checked: the new rows are logged, stored and committed, unless a key would be
        taken twice. Without any match nothing is logged but the COMMIT. */
    method UpdateLogged(t: Table, table: string, condition: Option<Condition>, assignments: seq<Assignment>)
      returns (failed: Option<TableError>, matched: nat)
      requires t.Valid() && t.pageManager.storage == storage && wal.disk == storage.disk
      requires t.pageManager.tableId == IdOf(storage.disk.catalog, table)
               && t.scheme == SchemeOf(storage.disk.catalog, table)
      modifies t.pageManager, t.pageManager.cache.repr, t.index, t.index.g.Keys
      modifies storage, storage.disk`pages, storage.disk`lines, storage.disk`history
      ensures storage.Valid() && InFile(old(storage.disk.pages), old(t.pageManager.pageIds))
      ensures var h0, d0, h, d := old(storage.disk.history), old(storage.disk.State()), storage.disk.history,
              storage.disk.State();
              var (rows, n) := UpdatePreview(t.num, t.scheme, condition, assignments, old(t.Rows()));
              if !KeyAssignmentsOk(t.scheme, assignments, rows)
              then failed.Some? && failed == KeyError(t.scheme, assignments, rows) && Untouched(h0, d0, h, d)
              else
                && failed.None? && matched == n
                && if rows == [] then d == d0.(lines := d0.lines + [COMMIT]) && h == h0 + [d]
                   else ReplaceDone(h0, d0, h, d, table, condition, rows)
    {
      hide Table.Valid, Survivors, UpdatePreview, KeyAssignmentsOk, KeyError, OnlyRows, Within, Rewriting, Refilled,
           Bag, ReplaceRun, Whole, BlockLines, BlockLogged, StoreOk;
      ghost var h0, d0 := storage.disk.history, storage.disk.State();
      t.RowsAreBag();
      var newState, _ := t.PreviewUpdate(condition, assignments);
      matched := 0;
      failed := CheckKeyAssignments(t.scheme, assignments, newState);
      KeyErrorTells(t.scheme, assignments, newState);
      if failed.Some? {
        return;
      }
      if newState != [] {
        LogBlock(table, condition, newState);
      }
      ghost var h1 := storage.disk.history;
      matched := t.UpdateRow(condition, assignments);
      t.RowsAreBag();
      if newState != [] {
        BlockThenReplaced(h0, d0, h1, storage.disk.history, storage.disk.State(), t.pageManager.tableId,
                          BlockLines(table, condition, newState), multiset(Survivors(t.scheme, newState)));
      }
      wal.Commit();
    }

    /** An UPDATE while a block is replayed. */
    method UpdateQuietly(t: Table, table: string, condition: Option<Condition>, assignments: seq<Assignment>)
      returns (matched: nat)
      requires t.Valid() && t.pageManager.storage == storage
      requires t.pageManager.tableId == IdOf(storage.disk.catalog, table)
               && t.scheme == SchemeOf(storage.disk.catalog, table)
      modifies t.pageManager, t.pageManager.cache.repr, t.index, t.index.g.Keys
      modifies storage, storage.disk`pages, storage.disk`history
      ensures storage.Valid() && InFile(old(storage.disk.pages), old(t.pageManager.pageIds))
      ensures var h0, d0, h, d := old(storage.disk.history), old(storage.disk.State()), storage.disk.history,
              storage.disk.State();
              var (rows, n) := UpdatePreview(t.num, t.scheme, condition, assignments, old(t.Rows()));
              && matched == n
              && if rows == [] then Untouched(h0, d0, h, d) else RewriteReplayed(h0, d0, h, d, table, rows)
    {
      hide Table.Valid, Survivors, UpdatePreview, OnlyRows, Within, Rewriting, Refilled, Bag, StoreOk;
      t.RowsAreBag();
      matched := t.UpdateRow(condition, assignments);
      t.RowsAreBag();
    }

    /** UPDATE; its checks come before anything is logged or stored. */
    method ExecuteUpdate(table: string, assignments: seq<Assignment>, condition: Option<Condition>)
      returns (err: Option<EngineError>)
      requires Valid()
      modifies this`lastAffected, storage, storage.disk`pages, storage.disk`lines, storage.disk`history
      ensures Valid()
      ensures var h0, d0, h, d := old(storage.disk.history), old(storage.disk.State()), storage.disk.history,
              storage.disk.State();
              var scheme, texts := SchemeOf(d0.catalog, table), StoredTexts(d0.pages, IdOf(d0.catalog, table));
              var (rows, matched) := UpdatePreview(num, scheme, condition, assignments, texts);
              if !UpdateAllowed(scheme, assignments, condition)
                || (!inRecovery && !KeyAssignmentsOk(scheme, assignments, rows))
              then
                && err.Some? && err == UpdateError(scheme, assignments, condition, rows)
                && lastAffected == old(lastAffected) && Untouched(h0, d0, h, d)
              else
                && err.None? && lastAffected == Some(matched)
                && if rows == [] then
                     if inRecovery then Untouched(h0, d0, h, d)
                     else d == d0.(lines := d0.lines + [COMMIT]) && h == h0 + [d]
                   else if inRecovery then RewriteReplayed(h0, d0, h, d, table, rows)
                   else ReplaceDone(h0, d0, h, d, table, condition, rows)
    {
      hide Table.Valid, StorageFile.Valid, Catalog.Valid, ReplaceDone, RewriteReplayed, UpdatePreview, StoredTexts,
           KeyAssignmentsOk, KeyError, StatementError, UpdateAllowed;
      var t := OpenTable(table);
      var allowed := CheckUpdate(t.scheme, assignments, condition);
      if allowed.Some? {
        return allowed;
      }
      var matched;
      if inRecovery {
        matched := UpdateQuietly(t, table, condition, assignments);
      } else {
        var failed;
        failed, matched := UpdateLogged(t, table, condition, assignments);
        if failed.Some? {
          return Some(TableFailed(failed.value));
        }
      }
      lastAffected := Some(matched);
      return None;
    }

    /** Executes a statement that changes rows. */
    method Execute(s: Statement) returns (err: Option<EngineError>)
      requires Valid() && Executable(s)
      modifies this`lastAffected, storage, storage.disk`pages, storage.disk`lines, storage.disk`history
      ensures Valid()
      ensures Executed(num, inRecovery, old(storage.disk.history), old(storage.disk.State()), storage.disk.history,
                       storage.disk.State(), s)
      ensures err == AnswerOf(num, inRecovery, old(storage.disk.State()), s)
      ensures lastAffected == if err.None? then Some(AffectedBy(num, old(storage.disk.State()), s))
              else old(lastAffected)
    {
      hide StorageFile.Valid, Catalog.Valid, ReplaceDone, RewriteReplayed, InsertDone, InsertReplayed, UpdatePreview,
           Kept, StoredTexts, KeyAssignmentsOk, UpdateAllowed, ConditionValid;
      match s {
        case Insert(table, columns, values) => err := ExecuteInsert(table, columns, values);
        case Delete(table, condition) => err := ExecuteDelete(table, condition);
        case Update(table, assignments, condition) =>
          ghost var scheme, id := SchemeOf(storage.disk.catalog, table), IdOf(storage.disk.catalog, table);
          ghost var texts := StoredTexts(storage.disk.pages, id);
          UpdateAnswers(scheme, assignments, condition, UpdatePreview(num, scheme, condition, assignments, texts).0);
          err := ExecuteUpdate(table, assignments, condition);
      }
    }

    /** CREATE TABLE. */
    method ExecuteCreate(table: string, columns: seq<Column>) returns (err: Option<EngineError>)
      requires Valid()
      modifies catalog, storage.disk`catalog, storage.disk`history
      ensures Valid()
      ensures TableCreated(old(storage.disk.history), old(storage.disk.State()), storage.disk.history,
                           storage.disk.State(), table, columns)
      ensures err == if !DifferentNames(columns) then Some(InvalidColumnList)
                     else if columns == [] || LineFor(old(storage.disk.catalog), table).Some? then Some(TableExists)
                     else None
    {
      hide StorageFile.Valid, Live, CatalogOk, Catalogs.Shows;
      var names := seq(|columns|, i requires 0 <= i < |columns| => columns[i].name);
      assert forall k | 0 <= k < |columns| :: names[k] == columns[k].name;
      var unique := CheckUniqueNames(names);
      if !unique {
        return Some(InvalidColumnList);
      }
      var created := catalog.CreateTable(table, columns);
      if !created {
        return Some(TableExists);
      }
      catalog.InOrder();
      return None;
    }

    /** DROP TABLE. A crash before the last step leaves the table with some of its rows, or none. */
    method ExecuteDrop(table: string) returns (err: Option<EngineError>)
      requires Valid()
      modifies catalog, storage, storage.disk`pages, storage.disk`catalog, storage.disk`history
      ensures Valid()
      ensures TableDropped(old(storage.disk.history), old(storage.disk.State()), storage.disk.history,
                           storage.disk.State(), table)
      ensures err == if LineFor(old(storage.disk.catalog), table).Some? then None else Some(NoSuchTable)
    {
      hide StorageFile.Valid, CatalogOk, Catalogs.Shows, Live, OthersKept, Freeing, PagesOk;
      ghost var d0 := storage.disk.State();
      var known := HasTable(table);
      if !known {
        return Some(NoSuchTable);
      }
      catalog.InOrder();
      IdIsNotZero(d0.catalog, table);
      var id := catalog.GetTableId(table);
      ghost var s := storage.Contents();
      storage.FreePagesForTable(id);
      NoPageLeft(s, id);
      ghost var h1 := storage.disk.history;
      catalog.DropTable(table);
      catalog.InOrder();
      assert storage.disk.history[..|storage.disk.history| - 1] == h1;
      return None;
    }
  }

  predicate DifferentNames(columns: seq<Column>)
  {
    forall j, k | 0 <= j < k < |columns| :: columns[j].name != columns[k].name
  }

  lemma NoPageLeft(s: Store, id: int)
    requires id != 0
    ensures forall i: nat | i < |s.pages| :: FreeAll(s, Tagged(s.pages, id)).pages[i].tableId != id
  {
    TaggedCovers(s.pages, id);
    AllFreed(s, Tagged(s.pages, id), id);
  }

  /** The assigned columns exist, are different and can take their values, and the condition makes sense. */
  predicate UpdateAllowed(scheme: seq<Column>, assignments: seq<Assignment>, condition: Option<Condition>)
  {
    AssignmentsFit(scheme, assignments) && DifferentColumns(assignments) && ConditionValid(scheme, condition)
  }

  predicate DifferentColumns(assignments: seq<Assignment>)
  {
    forall j, k | 0 <= j < k < |assignments| :: assignments[j].column != assignments[k].column
  }

  /** Which of the checks of the statement itself is reported. */
  function StatementError(scheme: seq<Column>, assignments: seq<Assignment>,
                          condition: Option<Condition>): (err: Option<EngineError>)
    ensures err.None? <==> UpdateAllowed(scheme, assignments, condition)
  {
    if !AssignmentsFit(scheme, assignments) || !DifferentColumns(assignments) then Some(InvalidAssignment)
    else if !ConditionValid(scheme, condition) then Some(InvalidCondition)
    else None
  }

  /** Which of the checks that an UPDATE fails is reported. */
  function UpdateError(scheme: seq<Column>, assignments: seq<Assignment>, condition: Option<Condition>,
                       newState: seq<Row>):
    Option<EngineError>
  {
    var err, keyErr := StatementError(scheme, assignments, condition), KeyError(scheme, assignments, newState);
    if err.Some? then err else if keyErr.Some? then Some(TableFailed(keyErr.value)) else None
  }

  lemma UpdateAnswers(scheme: seq<Column>, assignments: seq<Assignment>, condition: Option<Condition>,
                      newState: seq<Row>)
    ensures var err := UpdateError(scheme, assignments, condition, newState);
            && (err.None? <==> UpdateAllowed(scheme, assignments, condition)
                               && KeyAssignmentsOk(scheme, assignments, newState))
            && (!UpdateAllowed(scheme, assignments, condition) ==>
                  err == StatementError(scheme, assignments, condition) != None)
  {
    hide StatementError, UpdateAllowed, KeyError, KeyAssignmentsOk;
    KeyErrorTells(scheme, assignments, newState);
  }

  method CheckUpdate(scheme: seq<Column>, assignments: seq<Assignment>, condition: Option<Condition>)
    returns (err: Option<EngineError>)
    ensures err == StatementError(scheme, assignments, condition)
  {
    var fit := CheckAssignments(scheme, assignments);
    if !fit {
      return Some(InvalidAssignment);
    }
    var names := seq(|assignments|, i requires 0 <= i < |assignments| => assignments[i].column);
    assert forall k | 0 <= k < |assignments| :: names[k] == assignments[k].column;
    var unique := CheckUniqueNames(names);
    if !unique {
      return Some(InvalidAssignment);
    }
    var valid := CheckCondition(scheme, condition);
    if !valid {
      return Some(InvalidCondition);
    }
    return None;
  }

  lemma BlockAt(table: string, condition: Option<Condition>, rows: seq<Row>)
    ensures var block := BlockLines(table, condition, rows);
            && |block| == |rows| + 1 && block[0] == LineOf(LogReplaceBegin(table, condition))
            && forall i | 0 <= i < |rows| :: block[i + 1] == LineOf(LogReplaceRow(table, rows[i]))
  {
  }

  lemma LoggingBegins(h0: seq<DiskState>, d0: DiskState, block: seq<string>)
    requires |block| > 0
    ensures BlockLogged(h0, h0 + [d0.(lines := d0.lines + [block[0]])], d0, block, 1)
  {
    assert block[..1] == [block[0]];
  }

  /** One more line of a block. */
  lemma LoggingGoesOn(h0: seq<DiskState>, h: seq<DiskState>, d0: DiskState, block: seq<string>, n: nat)
    requires BlockLogged(h0, h, d0, block, n) && n < |block|
    ensures d0.lines + block[..n] + [block[n]] == d0.lines + block[..n + 1]
    ensures BlockLogged(h0, h + [d0.(lines := d0.lines + block[..n + 1])], d0, block, n + 1)
  {
    assert block[..n + 1] == block[..n] + [block[n]];
  }

  lemma IdIsNotZero(lines: seq<TableLine>, name: string)
    requires CatalogOk(lines)
    ensures IdOf(lines, name) != 0
  {
    FoundIsLine(lines, name);
  }
}
