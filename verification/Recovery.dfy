// What a crash leaves, and what recovery makes of it: a theory of disk states.
module Recovery {
  import opened Wrappers
  import opened StringUtils
  import opened Sql
  import opened Storage
  import opened TableRows
  import opened Values
  import opened TableIndex
  import opened Rewrites
  import opened Catalogs
  import opened WalFormat

  // ---- What the log still asks for --------------------------------------------------------

  /** The entries that no COMMIT follows. */
  function Pending(lines: seq<string>): seq<Entry>
  {
    if |lines| == 0 then []
    else
      var before, line := Pending(lines[..|lines| - 1]), lines[|lines| - 1];
      if line == "" then before
      else if line == COMMIT then []
      else
        match ParseLine(line)
        case None => before
        case Some(e) => if e.committed then before else before + [e]
  }

  /** No line is flagged as committed by itself; the engine never writes such a line. */
  ghost predicate Unflagged(lines: seq<string>)
  {
    forall i | 0 <= i < |lines| :: ParseLine(lines[i]).Some? ==> !ParseLine(lines[i]).value.committed
  }

  /** The pending entries are the last ones of the log, behind the committed ones. */
  lemma {:induction false} PendingIsTail(lines: seq<string>)
    requires Unflagged(lines)
    ensures var entries, p := Entries(lines), Pending(lines);
            && |p| <= |entries| && entries[|entries| - |p|..] == p
            && (forall i | 0 <= i < |entries| - |p| :: entries[i].committed)
            && (forall i | 0 <= i < |p| :: !p[i].committed)
  {
    hide ParseLine;
    if |lines| > 0 {
      var n := |lines| - 1;
      assert forall i | 0 <= i < n :: lines[..n][i] == lines[i];
      PendingIsTail(lines[..n]);
      var entries, p, line := Entries(lines[..n]), Pending(lines[..n]), lines[n];
      if line != "" && line != COMMIT && ParseLine(line).Some? {
        var e := ParseLine(line).value;
        assert !e.committed;
        assert (entries + [e])[|entries| - |p|..] == p + [e];
      }
    }
  }

  function EntryOf(r: Record): Entry
  {
    Entry(Kind(r), r.table, Payload(r), false)
  }

  lemma PendingLogged(lines: seq<string>, r: Record)
    requires Loggable(r)
    ensures Pending(lines + [LineOf(r)]) == Pending(lines) + [EntryOf(r)]
    ensures Unflagged(lines) ==> Unflagged(lines + [LineOf(r)])
  {
    hide ParseLine, LineOf, Loggable, EntryOf;
    LineIsOneLine(r);
    LineReadsBack(r);
    LoggedEntry(r);
    assert (lines + [LineOf(r)])[..|lines|] == lines;
  }

  lemma LoggedEntry(r: Record)
    ensures EntryOf(r) == Entry(Kind(r), r.table, Payload(r), false) && !EntryOf(r).committed
  {
  }

  lemma PendingCommitted(lines: seq<string>)
    ensures Pending(lines + [COMMIT]) == []
    ensures Unflagged(lines) ==> Unflagged(lines + [COMMIT])
  {
    assert (lines + [COMMIT])[..|lines|] == lines;
    assert Pieces(COMMIT, '|') == ["COMMIT"] by {
      FieldsOfOne(COMMIT, '|');
    }
    assert ParseLine(COMMIT) == None;
  }

  // ---- What recovery makes of it ----------------------------------------------------------

  /** The row is stored by an INSERT that finds the rows `b` in the table. */
  ghost predicate Accepts(scheme: seq<Column>, b: multiset<string>, row: Row)
  {
    RowError(scheme, b, row).None? && Fits(RowText(row))
  }

  ghost function Inserted(scheme: seq<Column>, b: multiset<string>, row: Row): multiset<string>
  {
    if Accepts(scheme, b, row) then b + multiset{RowText(row)} else b
  }

  /** How many REPLACE_ROW entries come first. */
  function RowEntries(es: seq<Entry>): (n: nat)
    ensures n <= |es|
  {
    if |es| > 0 && es[0].kind == "REPLACE_ROW" then 1 + RowEntries(es[1..]) else 0
  }

  function RowsIn(es: seq<Entry>): (rows: seq<Row>)
    ensures |rows| == |es| && forall i | 0 <= i < |es| :: rows[i] == RowOf(es[i].rowData)
  {
    seq(|es|, i requires 0 <= i < |es| => RowOf(es[i].rowData))
  }

  /** What replaying the entries makes of the rows `b` of a table: an INSERT adds its row if that is accepted, a block
      replaces all rows. Other entries are not written by the engine. */
  ghost function Outcome(lines: seq<TableLine>, tableId: int, b: multiset<string>, es: seq<Entry>): multiset<string>
    decreases |es|
  {
    if |es| == 0 then b
    else
      var e, mine, scheme := es[0], IdOf(lines, es[0].table) == tableId, SchemeOf(lines, es[0].table);
      if e.kind == "REPLACE_BEGIN" then
        var n := RowEntries(es[1..]);
        Outcome(lines, tableId, if mine then multiset(Survivors(scheme, RowsIn(es[1..1 + n]))) else b, es[1 + n..])
      else if e.kind == "INSERT" then
        Outcome(lines, tableId, if mine then Inserted(scheme, b, RowOf(e.rowData)) else b, es[1..])
      else Outcome(lines, tableId, b, es[1..])
  }

  /** The rows that the table has once recovery has completed: a function of what is on the disk now. */
  ghost function Recovered(d: DiskState, tableId: int): multiset<string>
  {
    Outcome(d.catalog, tableId, Bag(d.pages, tableId), Pending(d.lines))
  }

  // ---- The pending part of one statement --------------------------------------------------

  /** What may be pending: nothing, copies of one INSERT (recovery logs it again), or a block or a part of it. */
  datatype Suffix =
    | Nothing
    | Insertion(table: string, row: Row, copies: nat)
    | Replacement(table: string, condition: Option<Condition>, rows: seq<Row>)

  function Copies<T>(n: nat, x: T): (r: seq<T>)
    ensures |r| == n && forall i | 0 <= i < n :: r[i] == x
  {
    seq(n, _ => x)
  }

  function RowRecords(table: string, rows: seq<Row>): (r: seq<Entry>)
    ensures |r| == |rows| && forall i | 0 <= i < |rows| :: r[i] == EntryOf(LogReplaceRow(table, rows[i]))
  {
    seq(|rows|, i requires 0 <= i < |rows| => EntryOf(LogReplaceRow(table, rows[i])))
  }

  function SuffixEntries(x: Suffix): seq<Entry>
  {
    match x
    case Nothing => []
    case Insertion(table, row, n) => Copies(n, EntryOf(LogInsert(table, row)))
    case Replacement(table, c, rows) => [EntryOf(LogReplaceBegin(table, c))] + RowRecords(table, rows)
  }

  predicate SuffixLoggable(x: Suffix)
  {
    match x
    case Nothing => true
    case Insertion(table, row, _) => Loggable(LogInsert(table, row))
    case Replacement(table, c, rows) =>
      Loggable(LogReplaceBegin(table, c)) && forall i | 0 <= i < |rows| :: Loggable(LogReplaceRow(table, rows[i]))
  }

  ghost predicate Awaits(lines: seq<string>, x: Suffix)
  {
    Unflagged(lines) && SuffixLoggable(x) && Pending(lines) == SuffixEntries(x)
  }

  /** The same behind other pending entries. */
  ghost predicate Behind(lines: seq<string>, q: seq<Entry>, x: Suffix)
  {
    Unflagged(lines) && SuffixLoggable(x) && Pending(lines) == q + SuffixEntries(x)
  }

  lemma BehindNothing(lines: seq<string>, x: Suffix)
    ensures Awaits(lines, x) <==> Behind(lines, [], x)
  {
    assert [] + SuffixEntries(x) == SuffixEntries(x);
  }

  /** An INSERT that fits no page: it was logged, and then it failed. */
  predicate Oversized(e: Entry)
  {
    e.kind == "INSERT" && !Fits(RowText(RowOf(e.rowData)))
  }

  /** All these INSERTs failed; no COMMIT has followed them yet. */
  predicate Leftovers(es: seq<Entry>)
  {
    forall i | 0 <= i < |es| :: Oversized(es[i])
  }

  /** Failed INSERTs fail again when they are replayed. */
  lemma {:induction false} OutcomeSkips(lines: seq<TableLine>, tableId: int, b: multiset<string>, q: seq<Entry>,
                                        es: seq<Entry>)
    requires Leftovers(q)
    ensures Outcome(lines, tableId, b, q + es) == Outcome(lines, tableId, b, es)
  {
    hide RowError;
    if |q| == 0 {
      assert q + es == es;
    } else {
      assert (q + es)[1..] == q[1..] + es && (q + es)[0] == q[0];
      assert Oversized(q[0]);
      OutcomeSkips(lines, tableId, b, q[1..], es);
    }
  }

  lemma InsertedTwice(scheme: seq<Column>, b: multiset<string>, row: Row)
    requires KeyOf(scheme, row).Some? || !Accepts(scheme, b, row)
    ensures Inserted(scheme, Inserted(scheme, b, row), row) == Inserted(scheme, b, row)
  {
    if Accepts(scheme, b, row) {
      var text, b' := RowText(row), Inserted(scheme, b, row);
      RowRoundTrip(row);
      assert text in b' && TextKey(scheme, text) == KeyOf(scheme, row);
    }
  }

  /** Replaying an INSERT any number of times has the effect of replaying it once, if the row has a key. */
  lemma {:induction false} OutcomeOfCopies(lines: seq<TableLine>, tableId: int, b: multiset<string>, x: Suffix)
    requires x.Insertion? && SuffixLoggable(x)
    requires KeyOf(SchemeOf(lines, x.table), x.row).Some? || !Accepts(SchemeOf(lines, x.table), b, x.row)
    ensures Outcome(lines, tableId, b, SuffixEntries(x))
            == if IdOf(lines, x.table) == tableId && x.copies > 0 then Inserted(SchemeOf(lines, x.table), b, x.row)
                else b
    decreases x.copies
  {
    if x.copies > 0 {
      var scheme, rest := SchemeOf(lines, x.table), x.(copies := x.copies - 1);
      assert SuffixEntries(x)[1..] == SuffixEntries(rest);
      RowRoundTrip(x.row);
      InsertedTwice(scheme, b, x.row);
      var b' := if IdOf(lines, x.table) == tableId then Inserted(scheme, b, x.row) else b;
      InsertedTwice(scheme, b', x.row);
      OutcomeOfCopies(lines, tableId, b', rest);
    }
  }

  function Times(text: string, n: nat): multiset<string>
  {
    multiset{}[text := n]
  }

  /** A row without a key is accepted whatever is stored already. */
  lemma KeylessIsAccepted(scheme: seq<Column>, b: multiset<string>, row: Row)
    requires KeyOf(scheme, row).None? && Storable(scheme, row) && !KeyOverflows(scheme, row)
    ensures Accepts(scheme, b, row)
  {
  }

  /** Without a key, every copy that is replayed is stored. */
  lemma {:induction false} OutcomeOfKeyless(lines: seq<TableLine>, tableId: int, b: multiset<string>, x: Suffix)
    requires x.Insertion? && SuffixLoggable(x) && IdOf(lines, x.table) == tableId
    requires var scheme := SchemeOf(lines, x.table);
             KeyOf(scheme, x.row).None? && Storable(scheme, x.row) && !KeyOverflows(scheme, x.row)
    ensures Outcome(lines, tableId, b, SuffixEntries(x)) == b + Times(RowText(x.row), x.copies)
    decreases x.copies
  {
    hide Accepts, Storable, KeyOverflows, KeyOf, RowText, RowOf, Loggable;
    if x.copies == 0 {
      assert b + Times(RowText(x.row), 0) == b;
    } else {
      var scheme, rest := SchemeOf(lines, x.table), x.(copies := x.copies - 1);
      assert SuffixEntries(x)[1..] == SuffixEntries(rest);
      InsertCopyReads(x);
      KeylessIsAccepted(scheme, b, x.row);
      OutcomeOfKeyless(lines, tableId, b + multiset{RowText(x.row)}, rest);
      assert b + multiset{RowText(x.row)} + Times(RowText(x.row), rest.copies) == b + Times(RowText(x.row), x.copies);
    }
  }

  lemma InsertCopyReads(x: Suffix)
    requires x.Insertion? && SuffixLoggable(x)
    ensures var e := EntryOf(LogInsert(x.table, x.row));
            e.kind == "INSERT" && e.table == x.table && RowOf(e.rowData) == x.row && !e.committed
  {
    RowRoundTrip(x.row);
  }

  lemma {:induction false} AllRowEntries(es: seq<Entry>)
    requires forall i | 0 <= i < |es| :: es[i].kind == "REPLACE_ROW"
    ensures RowEntries(es) == |es|
  {
    if |es| > 0 {
      AllRowEntries(es[1..]);
    }
  }

  /** Replaying a block, or as much of it as was logged, leaves the logged rows, whatever was in the table. */
  lemma OutcomeOfBlock(lines: seq<TableLine>, tableId: int, b: multiset<string>, x: Suffix)
    requires x.Replacement? && SuffixLoggable(x)
    ensures Outcome(lines, tableId, b, SuffixEntries(x))
            == if IdOf(lines, x.table) == tableId then multiset(Survivors(SchemeOf(lines, x.table), x.rows)) else b
  {
    var es, rows := SuffixEntries(x), RowRecords(x.table, x.rows);
    assert es[1..] == rows;
    AllRowEntries(rows);
    assert es[1..1 + |rows|] == rows && es[1 + |rows|..] == [];
    BlockReadsBack(x.table, x.rows);
  }

  lemma BlockReadsBack(table: string, rows: seq<Row>)
    requires forall i | 0 <= i < |rows| :: Loggable(LogReplaceRow(table, rows[i]))
    ensures RowsIn(RowRecords(table, rows)) == rows
  {
    forall i | 0 <= i < |rows| ensures RowsIn(RowRecords(table, rows))[i] == rows[i] {
      RowRoundTrip(rows[i]);
    }
  }
}
