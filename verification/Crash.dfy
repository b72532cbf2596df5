// What every crash point of a statement recovers to.
module Crashes {
  import opened Sequences
  import opened Wrappers
  import opened StringUtils
  import opened Sql
  import opened Storage
  import opened TableRows
  import opened Values
  import opened TableIndex
  import opened Rewrites
  import opened Catalogs
  import opened WalFormat
  import opened Recovery

  // ---- INSERT, step by step ---------------------------------------------------------------

  /** A state of the disk while an INSERT runs that started at `d0`: the line is logged, then the row is stored, then
      both are committed. */
  ghost predicate InsertStep(d0: DiskState, d: DiskState, tableId: int, line: string, text: string)
  {
    && OnlyRows(d0.(lines := d.lines), d, tableId)
    && var b0, b := Bag(d0.pages, tableId), Bag(d.pages, tableId);
       || (d.lines == d0.lines + [line] && (b == b0 || (Fits(text) && b == b0 + multiset{text})))
       || (d.lines == d0.lines + [line, COMMIT] && Fits(text) && b == b0 + multiset{text})
  }

  lemma {:induction false} CopiesNext<T>(n: nat, x: T)
    ensures Copies(n, x) + [x] == Copies(n + 1, x)
  {
  }

  /** What is pending at a step of an INSERT: one copy more than before, or nothing. */
  lemma InsertPends(lines0: seq<string>, lines: seq<string>, q: seq<Entry>, x: Suffix, line: string)
    requires x.Insertion? && Behind(lines0, q, x) && line == LineOf(LogInsert(x.table, x.row))
    requires lines == lines0 + [line] || lines == lines0 + [line, COMMIT]
    ensures if lines == lines0 + [line] then Behind(lines, q, x.(copies := x.copies + 1))
            else Awaits(lines, x.(copies := 0))
  {
    hide LineOf, Pending, ParseLine, Loggable, EntryOf, SuffixLoggable;
    InsertLoggable(x);
    PendingLogged(lines0, LogInsert(x.table, x.row));
    CopiesNext(x.copies, EntryOf(LogInsert(x.table, x.row)));
    Regroups(q, SuffixEntries(x), [EntryOf(LogInsert(x.table, x.row))]);
    if lines != lines0 + [line] {
      assert lines == lines0 + [line] + [COMMIT];
      PendingCommitted(lines0 + [line]);
    }
  }

  lemma InsertLoggable(x: Suffix)
    requires x.Insertion? && SuffixLoggable(x)
    ensures Loggable(LogInsert(x.table, x.row)) && forall n: nat :: SuffixLoggable(x.(copies := n))
  {
  }

  /** The table that an entry names. */
  ghost predicate IsTable(lines: seq<TableLine>, name: string, tableId: int)
  {
    IdOf(lines, name) == tableId && tableId != 0
  }

  /** Replaying the INSERT again and again stores its row once at most: it has a key, or it fits no page. */
  predicate Repeats(scheme: seq<Column>, row: Row)
  {
    KeyOf(scheme, row).Some? || !Fits(RowText(row))
  }

  /** With `x` pending, the table of `x` recovers to the rows it has and that row, once; the other tables keep
      theirs. */
  lemma InsertionRecovers(d: DiskState, q: seq<Entry>, x: Suffix, tableId: int)
    requires x.Insertion? && Leftovers(q) && Behind(d.lines, q, x) && IsTable(d.catalog, x.table, tableId)
    requires Repeats(SchemeOf(d.catalog, x.table), x.row)
    ensures Recovered(d, tableId) == if x.copies == 0 then Bag(d.pages, tableId)
                                     else Inserted(SchemeOf(d.catalog, x.table), Bag(d.pages, tableId), x.row)
  {
    OutcomeSkips(d.catalog, tableId, Bag(d.pages, tableId), q, SuffixEntries(x));
    OutcomeOfCopies(d.catalog, tableId, Bag(d.pages, tableId), x);
  }

  /** Without a key, its table recovers to the rows it has and the row once for every pending copy. */
  lemma KeylessRecovers(d: DiskState, q: seq<Entry>, x: Suffix, tableId: int)
    requires x.Insertion? && Leftovers(q) && Behind(d.lines, q, x) && IsTable(d.catalog, x.table, tableId)
    requires Keyless(SchemeOf(d.catalog, x.table), x.row)
    ensures Recovered(d, tableId) == Bag(d.pages, tableId) + Times(RowText(x.row), x.copies)
  {
    OutcomeSkips(d.catalog, tableId, Bag(d.pages, tableId), q, SuffixEntries(x));
    OutcomeOfKeyless(d.catalog, tableId, Bag(d.pages, tableId), x);
  }

  /** A row without a key that can be stored. */
  predicate Keyless(scheme: seq<Column>, row: Row)
  {
    KeyOf(scheme, row).None? && Storable(scheme, row) && !KeyOverflows(scheme, row)
  }

  lemma {:induction false} OutcomeOfOthers(lines: seq<TableLine>, tableId: int, b: multiset<string>, es: seq<Entry>)
    requires forall i | 0 <= i < |es| :: IdOf(lines, es[i].table) != tableId
    ensures Outcome(lines, tableId, b, es) == b
    decreases |es|
  {
    if |es| > 0 {
      var n := if es[0].kind == "REPLACE_BEGIN" then 1 + RowEntries(es[1..]) else 1;
      assert forall i | 0 <= i < |es[n..]| :: es[n..][i] == es[n + i];
      OutcomeOfOthers(lines, tableId, b, es[n..]);
    }
  }

  /** A table that only failed INSERTs name keeps its rows. */
  lemma OthersRecover(d: DiskState, q: seq<Entry>, x: Suffix, tableId: int)
    requires !x.Nothing? ==> IdOf(d.catalog, x.table) != tableId
    requires Leftovers(q) && Behind(d.lines, q, x)
    ensures Recovered(d, tableId) == Bag(d.pages, tableId)
  {
    OutcomeSkips(d.catalog, tableId, Bag(d.pages, tableId), q, SuffixEntries(x));
    OutcomeOfOthers(d.catalog, tableId, Bag(d.pages, tableId), SuffixEntries(x));
  }

  /** What is pending at a step of an INSERT, with failed INSERTs in front. */
  lemma InsertStepPends(d0: DiskState, d: DiskState, q: seq<Entry>, x: Suffix, tableId: int)
    returns (q': seq<Entry>, n: nat)
    requires x.Insertion? && Leftovers(q) && Behind(d0.lines, q, x)
    requires InsertStep(d0, d, tableId, LineOf(LogInsert(x.table, x.row)), RowText(x.row))
    ensures Leftovers(q') && Behind(d.lines, q', x.(copies := n)) && (q == [] ==> q' == [])
    ensures n == if |d.lines| == |d0.lines| + 1 then x.copies + 1 else 0
    ensures n == 0 ==> Pending(d.lines) == []
  {
    hide LineOf, RowText, Bag, Behind, Leftovers, Pending;
    InsertPends(d0.lines, d.lines, q, x, LineOf(LogInsert(x.table, x.row)));
    if |d.lines| == |d0.lines| + 1 {
      q', n := q, x.copies + 1;
    } else {
      q', n := [], 0;
      BehindNothing(d.lines, x.(copies := 0));
      NoCopies(d.lines, x);
    }
  }

  lemma NoCopies(lines: seq<string>, x: Suffix)
    requires x.Insertion? && Awaits(lines, x.(copies := 0))
    ensures Pending(lines) == [] && Leftovers([])
  {
  }

  lemma OthersAtStep(d0: DiskState, d: DiskState, q: seq<Entry>, x: Suffix, tableId: int)
    requires Leftovers(q) && Behind(d.lines, q, x) && d.catalog == d0.catalog && OthersKept(d0.pages, d.pages, tableId)
    requires !x.Nothing? ==> IsTable(d0.catalog, x.table, tableId)
    ensures forall other | other != tableId && other != 0 :: Recovered(d, other) == Bag(d0.pages, other)
  {
    hide Recovered, Bag, Behind, Leftovers, OthersKept;
    forall other | other != tableId && other != 0 ensures Recovered(d, other) == Bag(d0.pages, other) {
      OthersRecover(d, q, x, other);
      BagOfOthers(d0.pages, d.pages, tableId, other);
    }
  }

  /** Once the line of an INSERT with a key is logged, every later state recovers to the row stored exactly once,
      whether or not its page was written, and however often the line is already pending. All other tables keep their
      rows. */
  lemma InsertSurvives(d0: DiskState, d: DiskState, q: seq<Entry>, x: Suffix, tableId: int)
    requires x.Insertion? && Leftovers(q) && Behind(d0.lines, q, x) && IsTable(d0.catalog, x.table, tableId)
    requires Repeats(SchemeOf(d0.catalog, x.table), x.row)
    requires RowError(SchemeOf(d0.catalog, x.table), Bag(d0.pages, tableId), x.row).None?
    requires InsertStep(d0, d, tableId, LineOf(LogInsert(x.table, x.row)), RowText(x.row))
    ensures Recovered(d, tableId) == Inserted(SchemeOf(d0.catalog, x.table), Bag(d0.pages, tableId), x.row)
    ensures forall other | other != tableId && other != 0 :: Recovered(d, other) == Bag(d0.pages, other)
  {
    hide LineOf, RowText, Bag, Recovered, Behind, Leftovers, RowError, KeyOf, Fits, OthersKept;
    var scheme, b0 := SchemeOf(d0.catalog, x.table), Bag(d0.pages, tableId);
    var q', n := InsertStepPends(d0, d, q, x, tableId);
    InsertionRecovers(d, q', x.(copies := n), tableId);
    InsertedTwice(scheme, b0, x.row);
    OthersAtStep(d0, d, q', x.(copies := n), tableId);
  }

  /** Without a key, a step of the INSERT recovers to the rows that are stored and, while the INSERT is not committed,
      one copy of its row more: one in all if its page was not written yet or the COMMIT was, and otherwise two. */
  lemma KeylessInsertSurvives(d0: DiskState, d: DiskState, q: seq<Entry>, x: Suffix, tableId: int)
    requires x.Insertion? && x.copies == 0 && Leftovers(q) && Behind(d0.lines, q, x)
             && IsTable(d0.catalog, x.table, tableId)
    requires Keyless(SchemeOf(d0.catalog, x.table), x.row)
    requires InsertStep(d0, d, tableId, LineOf(LogInsert(x.table, x.row)), RowText(x.row))
    ensures Recovered(d, tableId)
            == Bag(d.pages, tableId) + if |d.lines| == |d0.lines| + 1 then multiset{RowText(x.row)} else multiset{}
    ensures Recovered(d, tableId) == Bag(d0.pages, tableId) + multiset{RowText(x.row)}
            <==> |d.lines| == |d0.lines| + 2 || Bag(d.pages, tableId) == Bag(d0.pages, tableId)
    ensures forall other | other != tableId && other != 0 :: Recovered(d, other) == Bag(d0.pages, other)
  {
    hide LineOf, RowText, Bag, Recovered, Behind, Leftovers, RowError, KeyOf, Fits, OthersKept, Keyless;
    var q', n := InsertStepPends(d0, d, q, x, tableId);
    KeylessRecovers(d, q', x.(copies := n), tableId);
    assert Times(RowText(x.row), n) == if n == 1 then multiset{RowText(x.row)} else multiset{};
    var b0, t := Bag(d0.pages, tableId), RowText(x.row);
    assert (b0 + multiset{t} + multiset{t})[t] == (b0 + multiset{t})[t] + 1 == b0[t] + 2;
    OthersAtStep(d0, d, q', x.(copies := n), tableId);
  }

  // ---- DELETE and UPDATE, step by step ----------------------------------------------------

  /** The lines of a REPLACE block. */
  function BlockLines(table: string, condition: Option<Condition>, rows: seq<Row>): (lines: seq<string>)
    ensures |lines| == |rows| + 1 && lines[0] == LineOf(LogReplaceBegin(table, condition))
    ensures forall i | 0 <= i < |rows| :: lines[i + 1] == LineOf(LogReplaceRow(table, rows[i]))
  {
    [LineOf(LogReplaceBegin(table, condition))]
    + seq(|rows|, i requires 0 <= i < |rows| => LineOf(LogReplaceRow(table, rows[i])))
  }

  /** The block is being logged: the first `j` of its lines are on the disk, and nothing else has happened. */
  ghost predicate Torn(d0: DiskState, d: DiskState, block: seq<string>, j: nat)
  {
    j <= |block| && d == d0.(lines := d0.lines + block[..j])
  }

  /** The block is logged; the rows are being replaced, or that is committed. */
  ghost predicate Whole(d0: DiskState, d: DiskState, tableId: int, block: seq<string>, result: multiset<string>)
  {
    && OnlyRows(d0.(lines := d.lines), d, tableId) && HasPart(d0, d, tableId, result)
    && (|| d.lines == d0.lines + block
        || (d.lines == d0.lines + block + [COMMIT] && Bag(d.pages, tableId) == result))
  }

  lemma {:induction false} BlockPends(lines: seq<string>, x: Suffix, j: nat)
    requires x.Replacement? && SuffixLoggable(x) && j <= |x.rows| + 1
    requires Unflagged(lines)
    ensures var logged := lines + BlockLines(x.table, x.condition, x.rows)[..j];
            Unflagged(logged) && Pending(logged) == Pending(lines) + SuffixEntries(x)[..j]
  {
    hide Pending, ParseLine, LineOf, EntryOf, Loggable, Unflagged;
    var block, es := BlockLines(x.table, x.condition, x.rows), SuffixEntries(x);
    if j == 0 {
      assert lines + block[..0] == lines && es[..0] == [];
    } else {
      BlockPends(lines, x, j - 1);
      var r := if j == 1 then LogReplaceBegin(x.table, x.condition) else LogReplaceRow(x.table, x.rows[j - 2]);
      assert block[..j] == block[..j - 1] + [LineOf(r)] && es[..j] == es[..j - 1] + [EntryOf(r)];
      Regroups(lines, block[..j - 1], [LineOf(r)]);
      PendingLogged(lines + block[..j - 1], r);
      Regroups(Pending(lines), es[..j - 1], [EntryOf(r)]);
    }
  }

  /** The part of a block that the first `j` lines are. */
  function Part(x: Suffix, j: nat): Suffix
    requires x.Replacement? && 0 < j <= |x.rows| + 1
  {
    x.(rows := x.rows[..j - 1])
  }

  lemma PartPends(lines: seq<string>, x: Suffix, j: nat)
    requires x.Replacement? && SuffixLoggable(x) && 0 < j <= |x.rows| + 1
    requires Unflagged(lines)
    ensures Behind(lines + BlockLines(x.table, x.condition, x.rows)[..j], Pending(lines), Part(x, j))
  {
    hide EntryOf, LineOf, Loggable, Pending, Unflagged, BlockLines;
    BlockPends(lines, x, j);
    assert RowRecords(x.table, x.rows)[..j - 1] == RowRecords(x.table, x.rows[..j - 1]);
    assert SuffixEntries(x)[..j] == SuffixEntries(Part(x, j));
  }

  /** With a block, or a part of one, pending, its table recovers to the logged rows; the others keep theirs. */
  lemma BlockRecovers(d: DiskState, q: seq<Entry>, x: Suffix, tableId: int)
    requires x.Replacement? && Leftovers(q) && Behind(d.lines, q, x) && IsTable(d.catalog, x.table, tableId)
    ensures Recovered(d, tableId) == multiset(Survivors(SchemeOf(d.catalog, x.table), x.rows))
  {
    OutcomeSkips(d.catalog, tableId, Bag(d.pages, tableId), q, SuffixEntries(x));
    OutcomeOfBlock(d.catalog, tableId, Bag(d.pages, tableId), x);
  }

  lemma PartUnflagged(lines: seq<string>, q: seq<Entry>, x: Suffix)
    requires Behind(lines, q, x)
    ensures Unflagged(lines) && Pending(lines) == q + SuffixEntries(x)
  {
  }

  lemma NothingAwaits(lines: seq<string>)
    requires Unflagged(lines) && Pending(lines) == []
    ensures Awaits(lines, Nothing)
  {
  }

  /** What is pending once a block is fully logged: the block, or nothing. */
  lemma WholePends(d0: DiskState, d: DiskState, x: Suffix, tableId: int) returns (q: seq<Entry>, y: Suffix)
    requires x.Replacement? && SuffixLoggable(x) && Unflagged(d0.lines) && Leftovers(Pending(d0.lines))
    requires Whole(d0, d, tableId, BlockLines(x.table, x.condition, x.rows),
                   multiset(Survivors(SchemeOf(d0.catalog, x.table), x.rows)))
    ensures Leftovers(q) && Behind(d.lines, q, y) && Unflagged(d.lines)
    ensures (q, y) == if |d.lines| == |d0.lines| + |x.rows| + 1 then (Pending(d0.lines), x) else ([], Nothing)
  {
    hide LineOf, Survivors, Bag, Pending, Behind, Loggable, Leftovers, EntryOf, Unflagged, HasPart;
    var block := BlockLines(x.table, x.condition, x.rows);
    assert x.rows[..|x.rows|] == x.rows;
    assert block[..|block|] == block && Part(x, |block|) == x;
    PartPends(d0.lines, x, |block|);
    q, y := Pending(d0.lines), x;
    PartUnflagged(d0.lines + block, q, x);
    if |d.lines| != |d0.lines| + |block| {
      q, y := [], Nothing;
      PendingCommitted(d0.lines + block);
      NothingAwaits(d.lines);
      BehindNothing(d.lines, Nothing);
      NoLeftovers();
    }
  }

  lemma NoLeftovers()
    ensures Leftovers([])
  {
  }

  /** Once a block is fully logged, every later state of the statement recovers to exactly the logged rows, whatever
      pages have been freed or rewritten. All other tables keep their rows. */
  lemma ReplaceSurvives(d0: DiskState, d: DiskState, x: Suffix, tableId: int)
    requires x.Replacement? && SuffixLoggable(x) && IsTable(d0.catalog, x.table, tableId)
    requires Unflagged(d0.lines) && Leftovers(Pending(d0.lines))
    requires var result := multiset(Survivors(SchemeOf(d0.catalog, x.table), x.rows));
             Whole(d0, d, tableId, BlockLines(x.table, x.condition, x.rows), result)
    ensures Recovered(d, tableId) == multiset(Survivors(SchemeOf(d0.catalog, x.table), x.rows))
    ensures forall other | other != tableId && other != 0 :: Recovered(d, other) == Bag(d0.pages, other)
  {
    hide Survivors, Bag, Recovered, Pending, Behind, Loggable, Leftovers, Unflagged, OthersKept, HasPart;
    var q, y := WholePends(d0, d, x, tableId);
    if y == x {
      BlockRecovers(d, q, x, tableId);
    } else {
      PartUnflagged(d.lines, q, y);
      NothingPends(d, tableId);
    }
    OthersAtStep(d0, d, q, y, tableId);
  }

  /** A crash inside the logging of a block recovers to the rows logged so far, which is not what DELETE and UPDATE are
      for: README.md:264-265 promises the complete state before or after the statement. */
  lemma TornBlockRecovers(d0: DiskState, d: DiskState, x: Suffix, tableId: int, j: nat)
    requires x.Replacement? && SuffixLoggable(x) && IsTable(d0.catalog, x.table, tableId)
    requires Unflagged(d0.lines) && Leftovers(Pending(d0.lines))
    requires 0 < j && Torn(d0, d, BlockLines(x.table, x.condition, x.rows), j)
    ensures Recovered(d, tableId) == multiset(Survivors(SchemeOf(d0.catalog, x.table), x.rows[..j - 1]))
    ensures forall other | other != tableId && other != 0 :: Recovered(d, other) == Bag(d0.pages, other)
    ensures Behind(d.lines, Pending(d0.lines), Part(x, j))
  {
    hide Survivors, Bag, Recovered, Pending, Behind, Loggable, Leftovers, Unflagged, LineOf;
    PartPends(d0.lines, x, j);
    BlockRecovers(d, Pending(d0.lines), Part(x, j), tableId);
    SamePages(d0, tableId);
    OthersAtStep(d0, d, Pending(d0.lines), Part(x, j), tableId);
  }

  lemma SamePages(d: DiskState, tableId: int)
    ensures OthersKept(d.pages, d.pages, tableId)
  {
  }

  /** With nothing pending, recovery leaves every table as it is. */
  lemma NothingPends(d: DiskState, tableId: int)
    requires Pending(d.lines) == []
    ensures Recovered(d, tableId) == Bag(d.pages, tableId)
  {
  }

  /** The same with only failed INSERTs pending. */
  lemma LeftoversRecover(d: DiskState, tableId: int)
    requires Leftovers(Pending(d.lines))
    ensures Recovered(d, tableId) == Bag(d.pages, tableId)
  {
    OutcomeSkips(d.catalog, tableId, Bag(d.pages, tableId), Pending(d.lines), []);
    assert Pending(d.lines) + [] == Pending(d.lines);
  }

  // ---- Whole statements -------------------------------------------------------------------

  /** Everything the disk held since `h0` is a step of the INSERT that started at `d0`. */
  ghost predicate InsertRun(h0: seq<DiskState>, h: seq<DiskState>, d0: DiskState, tableId: int, line: string,
                            text: string)
  {
    && |h0| <= |h| && h[..|h0|] == h0
    && forall k | |h0| <= k < |h| :: InsertStep(d0, h[k], tableId, line, text)
  }

  /** Everything the disk held since `h0` is a step of the DELETE or UPDATE that started at `d0`. */
  ghost predicate ReplaceRun(h0: seq<DiskState>, h: seq<DiskState>, d0: DiskState, tableId: int, block: seq<string>,
                             result: multiset<string>)
  {
    && |h0| <= |h| && h[..|h0|] == h0
    && forall k | |h0| <= k < |h| :: ReplaceStep(d0, h[k], tableId, block, result)
  }

  ghost predicate ReplaceStep(d0: DiskState, d: DiskState, tableId: int, block: seq<string>, result: multiset<string>)
  {
    (exists j: nat :: 0 < j && Torn(d0, d, block, j)) || Whole(d0, d, tableId, block, result)
  }

  /** The line is the first thing that is written, and what is committed was on the disk before without the COMMIT. */
  ghost predicate LineFirst(h0: seq<DiskState>, h: seq<DiskState>, d0: DiskState, d: DiskState, line: string,
                            committed: bool)
  {
    && |h0| < |h| && h[|h0|] == d0.(lines := d0.lines + [line]) && h[|h| - 1] == d
    && (committed ==> |h0| + 1 < |h| && h[|h| - 2] == d.(lines := d0.lines + [line]))
  }

  lemma LoggedThenStored(h0: seq<DiskState>, d0: DiskState, d1: DiskState, h2: seq<DiskState>, d2: DiskState,
                         tableId: int, line: string, text: string)
    requires PagesOk(d0.pages) && d1 == d0.(lines := d0.lines + [line])
    requires Within(h0 + [d1], h2, d1, tableId) && OnlyRows(d1, d2, tableId) && EndsIn(h0 + [d1], d1, h2, d2)
    requires forall k | |h0| + 1 <= k < |h2| ::
               || Bag(h2[k].pages, tableId) == Bag(d0.pages, tableId)
               || (Fits(text) && Bag(h2[k].pages, tableId) == Bag(d0.pages, tableId) + multiset{text})
    requires Bag(d2.pages, tableId) == Bag(d0.pages, tableId) + if Fits(text) then multiset{text} else multiset{}
    ensures InsertRun(h0, h2, d0, tableId, line, text) && InsertStep(d0, d2, tableId, line, text)
    ensures LineFirst(h0, h2, d0, d2, line, false)
    ensures var d3 := d2.(lines := d2.lines + [COMMIT]);
            && (Fits(text) ==>
                  InsertRun(h0, h2 + [d3], d0, tableId, line, text) && InsertStep(d0, d3, tableId, line, text))
            && LineFirst(h0, h2 + [d3], d0, d3, line, true)
  {
    hide Bag, Fits;
    assert h2[..|h0|] == (h0 + [d1])[..|h0|];
    assert h2[|h0|] == h2[..|h0| + 1][|h0|] == d1;
    forall k | |h0| <= k < |h2| ensures InsertStep(d0, h2[k], tableId, line, text) {
    }
    var d3 := d2.(lines := d2.lines + [COMMIT]);
    assert d0.lines + [line] + [COMMIT] == d0.lines + [line, COMMIT];
    assert (h2 + [d3])[..|h0|] == h2[..|h0|];
    assert Bag(d0.pages, tableId) + multiset{} == Bag(d0.pages, tableId);
  }

  /** `h` continues `h0` with the lines of the block, one at a time. */
  ghost predicate BlockLogged(h0: seq<DiskState>, h: seq<DiskState>, d0: DiskState, block: seq<string>, n: nat)
  {
    && |h| == |h0| + n && n <= |block| && h[..|h0|] == h0
    && forall k | |h0| <= k < |h| :: h[k] == d0.(lines := d0.lines + block[..k - |h0| + 1])
  }

  /** The lines of the block come first, then the pages are rewritten, the table being empty for a moment, and what is
      committed was on the disk before without the COMMIT. */
  ghost predicate BlockFirst(h0: seq<DiskState>, h: seq<DiskState>, d0: DiskState, d: DiskState, tableId: int,
                             block: seq<string>)
  {
    && block != [] && |h0| + |block| < |h| && BlockLogged(h0, h[..|h0| + |block|], d0, block, |block|)
    && h[|h| - 1] == d && h[|h| - 2] == d.(lines := d0.lines + block)
    && exists k :: |h0| <= k < |h| && h[k].lines == d0.lines + block && Bag(h[k].pages, tableId) == multiset{}
  }

  lemma BlockIsFirst(h0: seq<DiskState>, d0: DiskState, h1: seq<DiskState>, h2: seq<DiskState>, d2: DiskState,
                     tableId: int, block: seq<string>)
    requires block != [] && BlockLogged(h0, h1, d0, block, |block|) && |h1| <= |h2| && h2[..|h1|] == h1
    requires var d1 := d0.(lines := d0.lines + block);
             && Emptied(h1, h2, d1, tableId) && EndsIn(h1, d1, h2, d2)
             && forall k | |h1| <= k < |h2| :: h2[k].lines == d1.lines
    ensures var d3 := d2.(lines := d2.lines + [COMMIT]);
            d2.lines == d0.lines + block ==> BlockFirst(h0, h2 + [d3], d0, d3, tableId, block)
  {
    hide Bag;
    var d1, d3 := d0.(lines := d0.lines + block), d2.(lines := d2.lines + [COMMIT]);
    var h := h2 + [d3];
    assert block[..|block|] == block;
    assert h1[|h1| - 1] == d1 && h2[|h1| - 1] == h2[..|h1|][|h1| - 1];
    assert h[..|h0| + |block|] == h1;
    if Bag(d1.pages, tableId) == multiset{} {
      assert h[|h1| - 1] == d1;
    } else {
      var k :| |h1| <= k < |h2| && Bag(h2[k].pages, tableId) == multiset{};
      assert h[k] == h2[k];
    }
  }

  lemma BlockThenReplaced(h0: seq<DiskState>, d0: DiskState, h1: seq<DiskState>, h2: seq<DiskState>, d2: DiskState,
                          tableId: int, block: seq<string>, result: multiset<string>)
    requires PagesOk(d0.pages) && BlockLogged(h0, h1, d0, block, |block|)
    requires block != [] && Refilled(h1, d0.(lines := d0.lines + block), h2, d2, tableId, result)
             && Bag(d2.pages, tableId) == result
    ensures ReplaceRun(h0, h2, d0, tableId, block, result)
    ensures var d3 := d2.(lines := d2.lines + [COMMIT]);
            && ReplaceRun(h0, h2 + [d3], d0, tableId, block, result) && Whole(d0, d3, tableId, block, result)
            && BlockFirst(h0, h2 + [d3], d0, d3, tableId, block)
  {
    hide Bag, PagesOk, OthersKept, BlockFirst;
    BlockIsFirst(h0, d0, h1, h2, d2, tableId, block);
    assert h2[..|h0|] == h1[..|h0|];
    forall k | |h0| <= k < |h2| ensures ReplaceStep(d0, h2[k], tableId, block, result) {
      if k < |h1| {
        assert h2[k] == h1[k];
        assert Torn(d0, h2[k], block, k - |h0| + 1);
      } else {
        assert OnlyRows(d0.(lines := d0.lines + block), h2[k], tableId);
        assert HasPart(d0.(lines := d0.lines + block), h2[k], tableId, result);
        assert d0.(lines := d0.lines + block) == d0.(lines := h2[k].lines);
      }
    }
    var d3 := d2.(lines := d2.lines + [COMMIT]);
    assert (h2 + [d3])[..|h0|] == h2[..|h0|];
  }
}
