// The rows of one table, on whichever pages of the file they lie.
module TableRows {
  import opened Sequences
  import opened Pages
  import opened Storage

  /** Where a row is stored. */
  datatype Stored = Stored(pageId: nat, offset: nat, text: string)

  ghost predicate InFile(pages: seq<Image>, ids: seq<nat>)
  {
    forall k | 0 <= k < |ids| :: ids[k] < |pages|
  }

  function OnPage(id: nat, rows: seq<string>): (r: seq<Stored>)
    ensures |r| == |rows|
    ensures forall k | 0 <= k < |rows| :: r[k] == Stored(id, k, rows[k])
  {
    seq(|rows|, k requires 0 <= k < |rows| => Stored(id, k, rows[k]))
  }

  /** The rows of the listed pages, page by page. */
  function Located(pages: seq<Image>, ids: seq<nat>): seq<Stored>
    requires InFile(pages, ids)
  {
    if |ids| == 0 then [] else OnPage(ids[0], Rows(pages[ids[0]])) + Located(pages, ids[1..])
  }

  function Texts(rows: seq<Stored>): (r: seq<string>)
    ensures |r| == |rows|
    ensures forall k | 0 <= k < |rows| :: r[k] == rows[k].text
  {
    seq(|rows|, k requires 0 <= k < |rows| => rows[k].text)
  }

  function RowsOf(pages: seq<Image>, ids: seq<nat>): seq<string>
    requires InFile(pages, ids)
  {
    Texts(Located(pages, ids))
  }

  /** `ids` lists each page of the table once. */
  ghost predicate Covers(pages: seq<Image>, ids: seq<nat>, tableId: int)
  {
    && Distinct(ids) && InFile(pages, ids)
    && (forall k | 0 <= k < |ids| :: pages[ids[k]].tableId == tableId)
    && (forall i: nat | i < |pages| && pages[i].tableId == tableId :: i in ids)
  }

  lemma RowsOfNone(pages: seq<Image>)
    ensures RowsOf(pages, []) == []
  {
  }

  // ---- The rows as a bag ------------------------------------------------------------------

  function Held(p: Image, tableId: int): multiset<string>
  {
    if p.tableId == tableId then multiset(Rows(p)) else multiset{}
  }

  function Sum<T>(parts: seq<multiset<T>>): multiset<T>
  {
    if |parts| == 0 then multiset{} else Sum(parts[..|parts| - 1]) + parts[|parts| - 1]
  }

  function Holdings(pages: seq<Image>, tableId: int): (r: seq<multiset<string>>)
    ensures |r| == |pages|
    ensures forall i | 0 <= i < |pages| :: r[i] == Held(pages[i], tableId)
  {
    seq(|pages|, i requires 0 <= i < |pages| => Held(pages[i], tableId))
  }

  /** The rows of a table, in no order: what a crash and a restart cannot blur. */
  function Bag(pages: seq<Image>, tableId: int): multiset<string>
  {
    Sum(Holdings(pages, tableId))
  }

  lemma SwapLast<T>(a: multiset<T>, b: multiset<T>, c: multiset<T>)
    ensures a + b + c == a + c + b
  {
  }

  lemma {:induction false} SumReplace<T>(parts: seq<multiset<T>>, i: nat, x: multiset<T>)
    requires i < |parts|
    ensures Sum(parts[i := x]) + parts[i] == Sum(parts) + x
  {
    var n, changed := |parts| - 1, parts[i := x];
    assert Sum(changed) == Sum(changed[..n]) + changed[n];
    if i == n {
      assert changed[..n] == parts[..n];
      SwapLast(Sum(parts[..n]), x, parts[i]);
    } else {
      assert changed[..n] == parts[..n][i := x];
      SumReplace(parts[..n], i, x);
      SwapLast(Sum(changed[..n]), parts[n], parts[i]);
      SwapLast(Sum(parts[..n]), x, parts[n]);
    }
  }

  lemma {:induction false} SumOfNothing<T>(parts: seq<multiset<T>>)
    requires forall i | 0 <= i < |parts| :: parts[i] == multiset{}
    ensures Sum(parts) == multiset{}
  {
    if |parts| > 0 {
      SumOfNothing(parts[..|parts| - 1]);
    }
  }

  lemma {:induction false} SumPadded<T>(a: seq<multiset<T>>, b: seq<multiset<T>>)
    requires |a| <= |b| && b[..|a|] == a && forall i | |a| <= i < |b| :: b[i] == multiset{}
    ensures Sum(b) == Sum(a)
  {
    if |a| == |b| {
      assert b == a;
    } else {
      assert b[..|b| - 1][..|a|] == a;
      SumPadded(a, b[..|b| - 1]);
    }
  }

  lemma BagPut(pages: seq<Image>, id: nat, page: Image, tableId: int)
    requires id <= |pages|
    ensures Bag(Put(pages, id, page), tableId) + (if id < |pages| then Held(pages[id], tableId) else multiset{})
            == Bag(pages, tableId) + Held(page, tableId)
  {
    var parts, x := Holdings(pages, tableId), Held(page, tableId);
    if id < |pages| {
      assert Holdings(Put(pages, id, page), tableId) == parts[id := x];
      SumReplace(parts, id, x);
    } else {
      assert Holdings(Put(pages, id, page), tableId) == parts + [x];
      assert (parts + [x])[..id] == parts;
    }
  }

  /** Pages that hold nothing of the table make no difference to it. */
  lemma BagSame(a: seq<Image>, b: seq<Image>, tableId: int)
    requires |a| <= |b|
    requires forall i: nat {:trigger b[i]} | i < |b| ::
               Held(b[i], tableId) == if i < |a| then Held(a[i], tableId) else multiset{}
    ensures Bag(a, tableId) == Bag(b, tableId)
  {
    SumPadded(Holdings(a, tableId), Holdings(b, tableId));
  }

  lemma BagOfOthers(pages: seq<Image>, pages': seq<Image>, tableId: int, other: int)
    requires OthersKept(pages, pages', tableId) && other != tableId && other != 0
    ensures Bag(pages', other) == Bag(pages, other)
  {
    BagSame(pages, pages', other);
  }

  lemma NoRows(pages: seq<Image>, tableId: int)
    requires forall i: nat | i < |pages| :: pages[i].tableId != tableId
    ensures Bag(pages, tableId) == multiset{}
  {
    BagSame([], pages, tableId);
  }

  lemma {:induction false} SumPart<T>(a: seq<multiset<T>>, b: seq<multiset<T>>)
    requires |a| == |b| && forall i | 0 <= i < |a| :: a[i] <= b[i]
    ensures Sum(a) <= Sum(b)
  {
    if |a| > 0 {
      SumPart(a[..|a| - 1], b[..|a| - 1]);
    }
  }

  /** A table that lost pages has a part of its rows. */
  lemma FreedPart(pages: seq<Image>, pages': seq<Image>, tableId: int)
    requires Freed(pages, pages', tableId)
    ensures Bag(pages', tableId) <= Bag(pages, tableId)
  {
    SumPart(Holdings(pages', tableId), Holdings(pages, tableId));
  }

  // ---- Replacing all rows -----------------------------------------------------------------

  /** The table has a part of the rows that it had, or of those that it is going to have. */
  ghost predicate HasPart(d0: DiskState, d: DiskState, tableId: int, rows: multiset<string>)
  {
    Bag(d.pages, tableId) <= Bag(d0.pages, tableId) || Bag(d.pages, tableId) <= rows
  }

  /** Everything the disk held since `h0`, when it held `d0`, differs from `d0` only in pages of the table, and has a
      part of its old rows or of its new ones. */
  ghost predicate Rewriting(h0: seq<DiskState>, h: seq<DiskState>, d0: DiskState, tableId: int, rows: multiset<string>)
  {
    && Within(h0, h, d0, tableId)
    && forall k | |h0| <= k < |h| :: HasPart(d0, h[k], tableId, rows)
  }

  /** The table has no row in `d0`, or in a state since `h0`. */
  ghost predicate Emptied(h0: seq<DiskState>, h: seq<DiskState>, d0: DiskState, tableId: int)
  {
    Bag(d0.pages, tableId) == multiset{} || exists k :: |h0| <= k < |h| && Bag(h[k].pages, tableId) == multiset{}
  }

  lemma EmptiedNow(h0: seq<DiskState>, d0: DiskState, h: seq<DiskState>, d: DiskState, tableId: int)
    requires EndsIn(h0, d0, h, d) && Bag(d.pages, tableId) == multiset{}
    ensures Emptied(h0, h, d0, tableId)
  {
    hide Bag;
  }

  lemma EmptiedLonger(h0: seq<DiskState>, h1: seq<DiskState>, h: seq<DiskState>, d0: DiskState, tableId: int)
    requires Emptied(h0, h1, d0, tableId) && |h1| <= |h| && h[..|h1|] == h1
    ensures Emptied(h0, h, d0, tableId)
  {
    hide Bag;
    if k :| |h0| <= k < |h1| && Bag(h1[k].pages, tableId) == multiset{} {
      assert h[k] == h1[k];
    }
  }

  /** The table was emptied and given the rows `rows`, or some of them so far. */
  ghost predicate Refilled(h0: seq<DiskState>, d0: DiskState, h: seq<DiskState>, d: DiskState, tableId: int,
                           rows: multiset<string>)
  {
    && Rewriting(h0, h, d0, tableId, rows) && OnlyRows(d0, d, tableId)
    && Emptied(h0, h, d0, tableId) && EndsIn(h0, d0, h, d)
  }

  /** Once the pages are freed, the table can be filled. */
  lemma FreedForRows(h0: seq<DiskState>, d0: DiskState, h: seq<DiskState>, d: DiskState, tableId: int,
                     rows: multiset<string>)
    requires Freeing(h0, h, d0, tableId) && EndsIn(h0, d0, h, d) && OnlyRows(d0, d, tableId)
    requires Bag(d.pages, tableId) == multiset{}
    ensures Refilled(h0, d0, h, d, tableId, rows)
  {
    hide Bag, OnlyRows, HasPart, Freed;
    FreeingRewrites(h0, h, d0, tableId, rows);
    EmptiedNow(h0, d0, h, d, tableId);
  }

  lemma FreeingRewrites(h0: seq<DiskState>, h: seq<DiskState>, d0: DiskState, tableId: int, rows: multiset<string>)
    requires Freeing(h0, h, d0, tableId)
    ensures Rewriting(h0, h, d0, tableId, rows)
  {
    forall k | |h0| <= k < |h| ensures HasPart(d0, h[k], tableId, rows) {
      FreedPart(d0.pages, h[k].pages, tableId);
    }
  }

  /** A rewrite that goes on: what is on the disk now is a part of the new rows. */
  lemma RewritingOn(h0: seq<DiskState>, d0: DiskState, h1: seq<DiskState>, d1: DiskState, h2: seq<DiskState>,
                    tableId: int, rows: multiset<string>)
    requires Rewriting(h0, h1, d0, tableId, rows) && OnlyRows(d0, d1, tableId) && Within(h1, h2, d1, tableId)
    requires forall k | |h1| <= k < |h2| :: Bag(h2[k].pages, tableId) <= rows
    ensures Rewriting(h0, h2, d0, tableId, rows)
  {
    WithinTwice(h0, d0, h1, d1, h2, tableId);
    forall k | |h0| <= k < |h2| ensures HasPart(d0, h2[k], tableId, rows) {
      if k < |h1| {
        assert h2[k] == h1[k];
      }
    }
  }

  // ---- Lists of pages ---------------------------------------------------------------------

  lemma {:induction false} LocatedAppend(pages: seq<Image>, a: seq<nat>, b: seq<nat>)
    requires InFile(pages, a + b)
    ensures InFile(pages, a) && InFile(pages, b)
    ensures Located(pages, a + b) == Located(pages, a) + Located(pages, b)
  {
    InFilePieces(pages, a, b);
    if |a| == 0 {
      assert a + b == b;
    } else {
      assert (a + b)[1..] == a[1..] + b;
      LocatedAppend(pages, a[1..], b);
    }
  }

  lemma InFilePieces(pages: seq<Image>, a: seq<nat>, b: seq<nat>)
    requires InFile(pages, a + b)
    ensures InFile(pages, a) && InFile(pages, b)
  {
    forall k | 0 <= k < |a| ensures a[k] < |pages| {
      assert (a + b)[k] == a[k];
    }
    forall k | 0 <= k < |b| ensures b[k] < |pages| {
      assert (a + b)[|a| + k] == b[k];
    }
  }

  lemma {:induction false} LocatedSame(pages: seq<Image>, pages': seq<Image>, ids: seq<nat>)
    requires InFile(pages, ids) && |pages| <= |pages'|
    requires forall k | 0 <= k < |ids| :: pages'[ids[k]] == pages[ids[k]]
    ensures InFile(pages', ids) && Located(pages', ids) == Located(pages, ids)
  {
    if |ids| > 0 {
      var rest := ids[1..];
      assert forall k | 0 <= k < |rest| :: rest[k] == ids[k + 1];
      LocatedSame(pages, pages', rest);
    }
  }

  lemma TextsAppend(a: seq<Stored>, b: seq<Stored>)
    ensures Texts(a + b) == Texts(a) + Texts(b)
  {
  }

  /** In whatever order the pages are listed, the rows are the same bag. */
  lemma {:induction false} BagIsRows(pages: seq<Image>, ids: seq<nat>, tableId: int)
    requires Covers(pages, ids, tableId) && tableId != 0
    ensures multiset(RowsOf(pages, ids)) == Bag(pages, tableId)
    decreases |ids|
  {
    if |ids| == 0 {
      NoRows(pages, tableId);
    } else {
      var id, rest := ids[0], ids[1..];
      var pages' := Put(pages, id, Blank());
      CoversRest(pages, ids, tableId);
      BagIsRows(pages', rest, tableId);
      BagPut(pages, id, Blank(), tableId);
      RowsOfFirst(pages, ids);
      var here, others := Rows(pages[id]), RowsOf(pages, rest);
      assert multiset(here + others) == multiset(others) + multiset(here);
      assert Held(pages[id], tableId) == multiset(here) && Held(Blank(), tableId) == multiset{};
    }
  }

  lemma RowsOfFirst(pages: seq<Image>, ids: seq<nat>)
    requires InFile(pages, ids) && ids != []
    ensures InFile(pages, ids[1..]) && RowsOf(pages, ids) == Rows(pages[ids[0]]) + RowsOf(pages, ids[1..])
  {
    var here := OnPage(ids[0], Rows(pages[ids[0]]));
    TextsAppend(here, Located(pages, ids[1..]));
    assert Texts(here) == Rows(pages[ids[0]]);
  }

  lemma CoversRest(pages: seq<Image>, ids: seq<nat>, tableId: int)
    requires Covers(pages, ids, tableId) && tableId != 0 && ids != []
    ensures InFile(pages, ids[1..]) && Covers(Put(pages, ids[0], Blank()), ids[1..], tableId)
    ensures Located(Put(pages, ids[0], Blank()), ids[1..]) == Located(pages, ids[1..])
  {
    var rest := ids[1..];
    assert forall k | 0 <= k < |rest| :: rest[k] == ids[k + 1];
    LocatedSame(pages, Put(pages, ids[0], Blank()), rest);
  }

  lemma TaggedCovers(pages: seq<Image>, tableId: int)
    ensures Covers(pages, Tagged(pages, tableId), tableId)
  {
  }

  /** The rows of a table in the order in which a reopened table lists them. */
  ghost function StoredTexts(pages: seq<Image>, tableId: int): seq<string>
  {
    TaggedCovers(pages, tableId);
    RowsOf(pages, Tagged(pages, tableId))
  }

  lemma StoredTextsAreBag(pages: seq<Image>, tableId: int)
    requires tableId != 0
    ensures multiset(StoredTexts(pages, tableId)) == Bag(pages, tableId)
  {
    TaggedCovers(pages, tableId);
    BagIsRows(pages, Tagged(pages, tableId), tableId);
  }

  // ---- Storing a row ----------------------------------------------------------------------

  /** A page of its own has room for the row. */
  predicate Fits(row: string)
  {
    |row| + 1 <= PAGE_SIZE - HEADER_SIZE
  }

  datatype Placed = Placed(success: bool, pageId: int, rowIndex: int)

  /** The file, the list of the table's pages, and where the row went. */
  datatype Insertion = Insertion(store: Store, ids: seq<nat>, placed: Placed)

  /** Stores a row at the end of the table's last page, or on a new page. */
  ghost function StoreRow(s: Store, ids: seq<nat>, tableId: int, row: string): Insertion
    requires StoreOk(s) && Covers(s.pages, ids, tableId) && tableId != 0
  {
    if |ids| > 0 && HasRoom(s.pages[ids[|ids| - 1]], |row| + 1) then
      var last := ids[|ids| - 1];
      Insertion(s.(pages := s.pages[last := WithRow(s.pages[last], row)]), ids,
                Placed(true, last, s.pages[last].rowNumber))
    else
      AllocateOk(s, tableId);
      var (s1, id) := Allocate(s, tableId);
      EmptyInUse(id, tableId);
      if HasRoom(Empty(id, tableId), |row| + 1) then
        Insertion(s1.(pages := s1.pages[id := WithRow(Empty(id, tableId), row)]), ids + [id], Placed(true, id, 0))
      else Insertion(Free(s1, id), ids, Placed(false, -1, -1))
  }

  /** The rows that were there stay in place; the new one, if it fits a page at all, is behind them. */
  ghost predicate RowStored(s: Store, ids: seq<nat>, tableId: int, row: string, r: Insertion)
    requires StoreOk(s) && Covers(s.pages, ids, tableId) && tableId != 0
  {
    && StoreOk(r.store) && Covers(r.store.pages, r.ids, tableId)
    && OthersKept(s.pages, r.store.pages, tableId)
    && r.placed.success == Fits(row)
    && if Fits(row)
       then && r.placed.pageId >= 0 && r.placed.rowIndex >= 0
            && Located(r.store.pages, r.ids) == Located(s.pages, ids)
               + [Stored(r.placed.pageId, r.placed.rowIndex, row)]
       else r.ids == ids && Located(r.store.pages, ids) == Located(s.pages, ids)
  }

  lemma StoreRowOk(s: Store, ids: seq<nat>, tableId: int, row: string)
    requires StoreOk(s) && Covers(s.pages, ids, tableId) && tableId != 0 && '\n' !in row
    ensures RowStored(s, ids, tableId, row, StoreRow(s, ids, tableId, row))
  {
    if |ids| > 0 && HasRoom(s.pages[ids[|ids| - 1]], |row| + 1) {
      StoredOnLast(s, ids, tableId, row);
    } else {
      AllocateOk(s, tableId);
      var (s1, id) := Allocate(s, tableId);
      EmptyInUse(id, tableId);
      AllocatedCovers(s, ids, tableId);
      if Fits(row) {
        StoredOnNew(s, s1, ids, id, tableId, row);
      } else {
        FreedAgain(s, s1, ids, id, tableId);
      }
    }
  }

  /** A row goes to the last page of the table as long as that has the space, and otherwise to a page of its own, which
      is a free one if there is any. A page takes rows of up to 4075 characters. */
  lemma StoreRowPlaces(s: Store, ids: seq<nat>, tableId: int, row: string)
    requires StoreOk(s) && Covers(s.pages, ids, tableId) && tableId != 0
    ensures Fits(row) <==> |row| <= 4075
    ensures var r, last := StoreRow(s, ids, tableId, row), |ids| - 1;
            if last >= 0 && |row| < s.pages[ids[last]].freeSpace then
              && r.placed.pageId == ids[last] && r.ids == ids && |r.store.pages| == |s.pages|
              && r.store.freeList == s.freeList
            else
              && (Fits(row) ==> r.ids == ids + [r.placed.pageId] && r.placed.rowIndex == 0)
              && |r.store.pages| == |s.pages| + if HasFreePage(s.pages) then 0 else 1
  {
    hide WithRow, Located;
    AllocateOk(s, tableId);
    AllocateReuses(s, tableId);
    EmptyInUse(Allocate(s, tableId).1, tableId);
  }

  /** The last page of the table is replaced by one with a row more. */
  lemma LastReplaced(s: Store, ids: seq<nat>, tableId: int, page: Image, row: string)
    requires StoreOk(s) && Covers(s.pages, ids, tableId) && tableId != 0 && |ids| > 0
    requires var was := s.pages[ids[|ids| - 1]];
             InUse(was) && InUse(page) && page.tableId == tableId && Rows(page) == Rows(was) + [row]
    ensures var last := ids[|ids| - 1];
            var pages', at := s.pages[last := page], Stored(last, |Rows(s.pages[last])|, row);
            && StoreOk(s.(pages := pages')) && Covers(pages', ids, tableId) && OthersKept(s.pages, pages', tableId)
            && Located(pages', ids) == Located(s.pages, ids) + [at]
  {
    var n := |ids| - 1;
    var last, front := ids[n], ids[..n];
    var was, pages' := s.pages[last], s.pages[last := page];
    var at := Stored(last, |Rows(was)|, row);
    WriteOk(s, last, page);
    assert ids == front + [last];
    LocatedAppend(s.pages, front, [last]);
    LocatedSame(s.pages, pages', front);
    LocatedAppend(pages', front, [last]);
    LocatedOne(s.pages, last);
    LocatedOne(pages', last);
    OnPageAppend(last, Rows(was), row);
    Regroups(Located(s.pages, front), OnPage(last, Rows(was)), [at]);
  }

  lemma OnPageAppend(id: nat, rows: seq<string>, row: string)
    ensures OnPage(id, rows + [row]) == OnPage(id, rows) + [Stored(id, |rows|, row)]
  {
  }

  lemma StoredOnLast(s: Store, ids: seq<nat>, tableId: int, row: string)
    requires StoreOk(s) && Covers(s.pages, ids, tableId) && tableId != 0 && '\n' !in row
    requires |ids| > 0 && HasRoom(s.pages[ids[|ids| - 1]], |row| + 1)
    ensures RowStored(s, ids, tableId, row, StoreRow(s, ids, tableId, row))
  {
    var page := s.pages[ids[|ids| - 1]];
    AddedRowReadsBack(page, row);
    LastReplaced(s, ids, tableId, WithRow(page, row), row);
  }

  lemma LocatedOne(pages: seq<Image>, id: nat)
    requires id < |pages|
    ensures Located(pages, [id]) == OnPage(id, Rows(pages[id]))
  {
    assert [id][1..] == [];
    assert Located(pages, [id][1..]) == [];
  }

  /** The new page is not one of those the table had. */
  lemma AllocatedCovers(s: Store, ids: seq<nat>, tableId: int)
    requires StoreOk(s) && Covers(s.pages, ids, tableId) && tableId != 0
    ensures var (s1, id) := Allocate(s, tableId);
            && id !in ids && OthersKept(s.pages, s1.pages, tableId)
            && Covers(s1.pages, ids + [id], tableId) && InFile(s1.pages, ids)
            && Located(s1.pages, ids) == Located(s.pages, ids)
  {
    AllocateOk(s, tableId);
    var (s1, id) := Allocate(s, tableId);
    assert forall k | 0 <= k < |ids| :: ids[k] != id;
    LocatedSame(s.pages, s1.pages, ids);
    forall i: nat | i < |s1.pages| && s1.pages[i].tableId == tableId ensures i in ids + [id] {
      assert i == id || i in ids;
    }
  }

  lemma RowOnNew(s: Store, s1: Store, ids: seq<nat>, id: nat, tableId: int, row: string)
    requires StoreOk(s) && Covers(s.pages, ids, tableId) && tableId != 0 && Fits(row)
    requires (s1, id) == Allocate(s, tableId) && !(|ids| > 0 && HasRoom(s.pages[ids[|ids| - 1]], |row| + 1))
    requires id < |s1.pages| && InUse(Empty(id, tableId))
    ensures HasRoom(Empty(id, tableId), |row| + 1)
    ensures StoreRow(s, ids, tableId, row)
         == Insertion(s1.(pages := s1.pages[id := WithRow(Empty(id, tableId), row)]), ids + [id], Placed(true, id, 0))
  {
    hide WithRow, StoreOk, Covers, Allocate;
    EmptyInUse(id, tableId);
  }

  lemma StoredOnNew(s: Store, s1: Store, ids: seq<nat>, id: nat, tableId: int, row: string)
    requires StoreOk(s) && Covers(s.pages, ids, tableId) && tableId != 0 && '\n' !in row && Fits(row)
    requires (s1, id) == Allocate(s, tableId) && !(|ids| > 0 && HasRoom(s.pages[ids[|ids| - 1]], |row| + 1))
    requires StoreOk(s1) && Covers(s1.pages, ids + [id], tableId) && InFile(s1.pages, ids) && id !in ids
    requires id < |s1.pages| && s1.pages[id] == Empty(id, tableId) && InUse(Empty(id, tableId))
    requires OthersKept(s.pages, s1.pages, tableId)
    requires Located(s1.pages, ids) == Located(s.pages, ids)
    ensures RowStored(s, ids, tableId, row, StoreRow(s, ids, tableId, row))
  {
    var page := WithRow(Empty(id, tableId), row);
    EmptyInUse(id, tableId);
    AddedRowReadsBack(Empty(id, tableId), row);
    RowOnNew(s, s1, ids, id, tableId, row);
    RowBehind(s, s1, ids, id, tableId, page, row);
  }

  /** A new page with one row. */
  lemma RowBehind(s: Store, s1: Store, ids: seq<nat>, id: nat, tableId: int, page: Image, row: string)
    requires StoreOk(s) && Covers(s.pages, ids, tableId) && tableId != 0 && Fits(row)
    requires StoreOk(s1) && Covers(s1.pages, ids + [id], tableId) && InFile(s1.pages, ids) && id < |s1.pages|
    requires InUse(s1.pages[id]) && InUse(page) && page.tableId == tableId
    requires Rows(s1.pages[id]) == [] && Rows(page) == [row]
    requires OthersKept(s.pages, s1.pages, tableId) && Located(s1.pages, ids) == Located(s.pages, ids)
    ensures RowStored(s, ids, tableId, row,
                      Insertion(s1.(pages := s1.pages[id := page]), ids + [id], Placed(true, id, 0)))
  {
    hide InUse, StoreOk, OthersKept, Covers, Fits, Located;
    LocatedAppend(s1.pages, ids, [id]);
    LocatedOne(s1.pages, id);
    LastReplaced(s1, ids + [id], tableId, page, row);
    OthersKeptTwice(s.pages, s1.pages, s1.pages[id := page], tableId);
  }

  lemma FreedAgain(s: Store, s1: Store, ids: seq<nat>, id: nat, tableId: int)
    requires StoreOk(s) && Covers(s.pages, ids, tableId) && tableId != 0
    requires StoreOk(s1) && Covers(s1.pages, ids + [id], tableId) && InFile(s1.pages, ids) && id !in ids
    requires id < |s1.pages| && s1.pages[id].tableId == tableId && OthersKept(s.pages, s1.pages, tableId)
    requires Located(s1.pages, ids) == Located(s.pages, ids)
    ensures var s2 := Free(s1, id);
            && StoreOk(s2) && Covers(s2.pages, ids, tableId) && OthersKept(s.pages, s2.pages, tableId)
            && Located(s2.pages, ids) == Located(s.pages, ids)
  {
    FreeOk(s1, id);
    LocatedSame(s1.pages, Free(s1, id).pages, ids);
    forall i: nat | i < |s1.pages| && s1.pages[i].tableId == tableId && i != id ensures i in ids {
      assert i in ids + [id];
    }
    assert forall k | 0 <= k < |ids| :: (ids + [id])[k] == ids[k];
  }
}
