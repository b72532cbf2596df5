// A database that clients use: opening it, which recovers it, and executing what they send.
module Sessions {
  import opened Wrappers
  import opened Lexers
  import opened Parsers
  import opened SqlText
  import opened SqlRoundTrip
  import opened Storage
  import opened TableRows
  import opened Values
  import opened Catalogs
  import opened Wal
  import opened Recovery
  import opened Engines
  import opened Replays
  import opened Meanings
  import opened Integrity
  import opened Restarts
  import opened Safety
  import opened Runs

  /** Opens the database that a crash, or an orderly end, left, and recovers it. */
  method Open(num: NumberParser, state: DiskState, cacheCapacity: nat) returns (engine: Engine)
    requires Owned(state) && cacheCapacity >= 1
    ensures engine.Valid() && !engine.inRecovery && fresh(engine) && engine.num == num
    ensures var h, d := engine.storage.disk.history, engine.storage.disk.State();
            DiskOk(state) ==>
              && Restarted(num, state, d)
              && (forall e | Seen([], state, h, d, e) :: InterruptedAt(num, state, e) && DiskOk(e))
              && Good(d) && Pending(d.lines) == [] && d.catalog == state.catalog
              && forall id | id != 0 :: Bag(d.pages, id) == Recovered(state, id)
  {
    hide Catalogs.Shows, StoreOk, DiskOk, Pending, Plan, Unflagged, Named, Replayed, Owned, Bag, Recovered, Leftovers;
    var disk := new Disk(state);
    OwnedFacts(state);
    var catalog := new Catalog(disk);
    var storage := new StorageFile(disk);
    var wal := new WALManager(disk);
    engine := new Engine(num, catalog, storage, wal, cacheCapacity);
    Recover(engine);
    if DiskOk(state) {
      OpenedIsGood(num, state, engine.storage.disk.history, engine.storage.disk.State());
    }
  }

  lemma OwnedFacts(d: DiskState)
    requires Owned(d)
    ensures PagesOk(d.pages) && CatalogOk(d.catalog)
  {
  }

  lemma OpenedIsGood(num: NumberParser, state: DiskState, h: seq<DiskState>, d: DiskState)
    requires DiskOk(state)
    requires Unflagged(state.lines) && Named(Pending(state.lines)) ==>
               Replayed(num, [], state, Plan(Pending(state.lines)), h, d)
    ensures Restarted(num, state, d) && forall e | Seen([], state, h, d, e) :: InterruptedAt(num, state, e) && DiskOk(e)
    ensures Good(d) && Pending(d.lines) == [] && d.catalog == state.catalog
    ensures forall id | id != 0 :: Bag(d.pages, id) == Recovered(state, id)
  {
    hide TablesOk, PlanOk, Plan, Replayed, Bag, Recovered, Pending, Leftovers, Written, IsIdentifier, Unflagged;
    WrittenIsNamed(Pending(state.lines));
    assert Recovers(num, [], state, h, d);
    RecoveryArrives(num, [], state, h, d);
    SettledIsGood(d);
    forall e | Seen([], state, h, d, e) ensures InterruptedAt(num, state, e) && DiskOk(e) {
      assert Recovers(num, [], state, h, d) && Seen([], state, h, d, e);
    }
  }

  /** What the text asks for, if it is to change the disk. */
  function ActionOf(sql: string): Option<Action>
  {
    match StatementOf(Tokens(sql))
    case Accepted(s) => Some(Execute(s))
    case Creates(table, columns) => Some(Create(table, columns))
    case Drops(table) => Some(Action.Drop(table))
    case Rejected(_) => None
    case Other => None
  }

  /** A statement about rows, or a DROP TABLE, needs its table. */
  predicate HasTable(lines: seq<TableLine>, a: Action)
  {
    match a
    case Execute(s) => LineFor(lines, s.table).Some?
    case Create(_, _) => true
    case Drop(table) => LineFor(lines, table).Some?
  }

  lemma ClientsAreAllowed(sql: string, d: DiskState)
    requires ActionOf(sql).Some? && HasTable(d.catalog, ActionOf(sql).value)
    ensures Allowed(d, ActionOf(sql).value)
    ensures ActionOf(sql).value.Execute? ==> Executable(ActionOf(sql).value.statement)
  {
    hide StatementOf, Tokens;
    ParsedIsExecutable(sql);
    if StatementOf(Tokens(sql)).Accepted? {
      ParsedIsWellFormed(sql, StatementOf(Tokens(sql)).statement);
    }
  }

  /** The turns of a run that the action and what follows can be. */
  lemma ActedIsTurn(num: NumberParser, h0: seq<DiskState>, d0: DiskState, h: seq<DiskState>, d: DiskState, a: Action)
    requires Acted(num, h0, d0, h, d, a)
    ensures Takes(num, d0, Completed(a), d)
    ensures forall e, attempts, d1 | Seen(h0, d0, h, d, e) && RestartedAfter(num, e, attempts, d1) ::
              Takes(num, d0, Interrupted(a, e, attempts), d1)
  {
    hide Acted, Seen, RestartedAfter;
    assert TurnEnds(num, h0, d0, h, d, Completed(a), d);
    forall e, attempts, d1 | Seen(h0, d0, h, d, e) && RestartedAfter(num, e, attempts, d1)
      ensures Takes(num, d0, Interrupted(a, e, attempts), d1)
    {
      assert TurnEnds(num, h0, d0, h, d, Interrupted(a, e, attempts), d1);
    }
  }

  /** The answer to a client: an error, or None for a success. */
  ghost function Reply(num: NumberParser, d0: DiskState, sql: string): Option<EngineError>
  {
    match StatementOf(Tokens(sql))
    case Accepted(s) =>
      ParsedIsExecutable(sql);
      if LineFor(d0.catalog, s.table).None? then Some(NoSuchTable) else AnswerOf(num, false, d0, s)
    case Creates(table, columns) =>
      if !DifferentNames(columns) then Some(InvalidColumnList)
      else if LineFor(d0.catalog, table).Some? then Some(TableExists)
      else None
    case Drops(table) => if LineFor(d0.catalog, table).None? then Some(NoSuchTable) else None
    case Rejected(_) => Some(ParseFailed)
    case Other => None
  }

  /** A client is told of a success exactly if the text is a statement that can be carried out: on a table that exists,
      or with a free name and different columns. */
  lemma ReplyMeans(num: NumberParser, d0: DiskState, sql: string)
    requires !StatementOf(Tokens(sql)).Other?
    ensures ActionOf(sql).Some? && ActionOf(sql).value.Execute? ==> Executable(ActionOf(sql).value.statement)
    ensures Reply(num, d0, sql).None?
            <==> match ActionOf(sql)
                 case None => false
                 case Some(Execute(s)) => LineFor(d0.catalog, s.table).Some? && Succeeds(num, d0, s)
                 case Some(Create(table, columns)) =>
                   && (forall j, k | 0 <= j < k < |columns| :: columns[j].name != columns[k].name)
                   && LineFor(d0.catalog, table).None?
                 case Some(Drop(table)) => LineFor(d0.catalog, table).Some?
  {
    hide StatementOf, Tokens, AnswerOf, Succeeds, LineFor, Executable;
    ParsedIsExecutable(sql);
    if StatementOf(Tokens(sql)).Accepted? {
      AnswerMeans(num, d0, StatementOf(Tokens(sql)).statement);
    }
  }

  /** A CREATE TABLE has a column. */
  lemma CreatesColumns(sql: string)
    ensures StatementOf(Tokens(sql)).Creates? ==> StatementOf(Tokens(sql)).columns != []
  {
    hide Tokens;
  }

  /** Executes what a client sends, if the table exists that it is about. Whether it is completed, or a crash interrupts
      it at any step and the database is opened again, as often as it takes: that is a turn of a run. A SELECT, or a
      statement about databases, is not executed here. */
  method Query(engine: Engine, sql: string) returns (err: Option<EngineError>)
    requires engine.Valid() && !engine.inRecovery
    modifies engine`lastAffected, engine.catalog, engine.storage, engine.storage.disk
    ensures engine.Valid()
    ensures var h0, d0 := old(engine.storage.disk.history), old(engine.storage.disk.State());
            var h, d, a := engine.storage.disk.history, engine.storage.disk.State(), ActionOf(sql);
            if a.Some? && HasTable(d0.catalog, a.value) then
              && Allowed(d0, a.value) && Takes(engine.num, d0, Completed(a.value), d)
              && forall e, attempts, d1 | Seen(h0, d0, h, d, e) && RestartedAfter(engine.num, e, attempts, d1) ::
                   Takes(engine.num, d0, Interrupted(a.value, e, attempts), d1)
            else Untouched(h0, d0, h, d)
    ensures err == Reply(engine.num, old(engine.storage.disk.State()), sql)
    ensures match StatementOf(Tokens(sql))
            case Rejected(_) => engine.lastAffected == old(engine.lastAffected)
            case Accepted(s) =>
              engine.lastAffected == if err.None? then Some(AffectedBy(engine.num, old(engine.storage.disk.State()), s))
                                     else None
            case _ => engine.lastAffected == None
  {
    hide Engine.Valid, StatementOf, Tokens, Executed, Executable, TableCreated, TableDropped, Allowed, Seen,
         RestartedAfter, Takes, LineFor, AnswerOf, AffectedBy, DifferentNames;
    engine.OneDisk();
    ghost var h0, d0 := engine.storage.disk.history, engine.storage.disk.State();
    var lexer := new Lexer(sql);
    var tokens := lexer.Tokenize();
    var parser := new Parser(tokens);
    var parsed := parser.Parse();
    if parsed.Rejected? {
      return Some(ParseFailed);
    }
    engine.ResetAffected();
    match parsed {
      case Accepted(s) =>
        var known := engine.HasTable(s.table);
        if !known {
          return Some(NoSuchTable);
        }
        ClientsAreAllowed(sql, d0);
        err := engine.Execute(s);
        ActedIsTurn(engine.num, h0, d0, engine.storage.disk.history, engine.storage.disk.State(), Execute(s));
      case Creates(table, columns) =>
        ClientsAreAllowed(sql, d0);
        CreatesColumns(sql);
        err := engine.ExecuteCreate(table, columns);
        ActedIsTurn(engine.num, h0, d0, engine.storage.disk.history, engine.storage.disk.State(),
                    Create(table, columns));
      case Drops(table) =>
        var known := engine.HasTable(table);
        if !known {
          return Some(NoSuchTable);
        }
        ClientsAreAllowed(sql, d0);
        err := engine.ExecuteDrop(table);
        ActedIsTurn(engine.num, h0, d0, engine.storage.disk.history, engine.storage.disk.State(), Action.Drop(table));
      case Other => err := None;
    }
  }
}
