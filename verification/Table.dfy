// A table: its rows on the pages of the file, and an index over its key.
module Tables {
  import opened Sequences
  import opened Wrappers
  import opened StringUtils
  import opened Sql
  import opened Pages
  import opened Storage
  import opened TableRows
  import opened LRUCaches
  import opened PageManagers
  import opened BPlusGraph
  import opened BPlusTrees
  import opened Values
  import opened TableIndex
  import opened Rewrites

  // ---- Rows as text -----------------------------------------------------------------------

  method Serialize(row: Row) returns (serialized: string)
    ensures serialized == RowText(row)
  {
    serialized := "";
    var fields := EncodedFields(row);
    var i := 0;
    while i < |row|
      invariant i <= |row|
      invariant serialized + Join(fields[i..], '|') == Join(fields, '|')
    {
      assert fields[i..][1..] == fields[i + 1..];
      var field := EncodeValue(row[i]);
      if i + 1 < |row| {
        Regroups(serialized, field + "|", Join(fields[i + 1..], '|'));
        serialized := serialized + (field + "|");
      } else {
        serialized := serialized + field;
      }
      i := i + 1;
    }
    assert fields[i..] == [];
  }

  method DecodeRow(text: string) returns (row: Row)
    ensures row == RowOf(text)
  {
    var fields := SplitFields(text, '|');
    row := [];
    var i := 0;
    while i < |fields|
      invariant i <= |fields| && row == DecodedFields(fields)[..i]
    {
      row := row + [DecodeValue(fields[i])];
      i := i + 1;
    }
  }

  method FilterRows(num: NumberParser, scheme: seq<Column>, cond: Option<Condition>, rawRows: seq<string>)
    returns (result: seq<Row>)
    ensures result == Scanned(num, scheme, cond, rawRows)
  {
    hide Holds, RowOf;
    result := [];
    var i := 0;
    while i < |rawRows|
      invariant i <= |rawRows|
      invariant result + Scanned(num, scheme, cond, rawRows[i..]) == Scanned(num, scheme, cond, rawRows)
    {
      assert rawRows[i..][1..] == rawRows[i + 1..];
      ghost var rest := Scanned(num, scheme, cond, rawRows[i + 1..]);
      var row := DecodeRow(rawRows[i]);
      var selected := true;
      if cond.Some? {
        selected := EvaluateCondition(num, cond.value, row, scheme);
      }
      if selected {
        Regroup(result, row, rest);
        result := result + [row];
      } else {
        assert [] + rest == rest;
      }
      i := i + 1;
    }
    assert rawRows[i..] == [];
  }

  lemma SearchTells(contents: seq<IndexRecord>, scheme: seq<Column>, rows: seq<Stored>, key: int)
    requires Indexes(contents, scheme, rows)
    ensures HasKey(contents, key) <==> KeyTaken(scheme, multiset(Texts(rows)), key)
  {
    EntriesCorrespond(contents, scheme, rows);
    if i :| 0 <= i < |contents| && contents[i].key == key {
      var rec := contents[i];
      assert rec in contents;
      var j :| 0 <= j < |rows| && rows[j].pageId == rec.pageId && rows[j].offset == rec.offset
               && TextKey(scheme, rows[j].text) == Some(rec.key);
      assert Texts(rows)[j] in multiset(Texts(rows));
    }
    if t :| t in multiset(Texts(rows)) && TextKey(scheme, t) == Some(key) {
      var j :| 0 <= j < |rows| && Texts(rows)[j] == t;
      assert IndexRecord(key, rows[j].pageId, rows[j].offset) in contents;
    }
  }

  // ---- The table --------------------------------------------------------------------------

  class Table {
    const num: NumberParser
    const scheme: seq<Column>
    const pageManager: PageManager
    const index: BPlusTree

    /** The parts of the table share no object. */
    ghost predicate Apart()
      reads pageManager.cache, index
    {
      && index !in pageManager.cache.repr && index.g.Keys !! pageManager.cache.repr
      && pageManager.cache in pageManager.cache.repr
      && {pageManager, pageManager.storage, pageManager.storage.disk} !! pageManager.cache.repr
    }

    ghost predicate Sound()
      reads pageManager, pageManager.storage, pageManager.storage.disk`pages, pageManager.cache, pageManager.cache.repr
      reads index, index.g.Keys
    {
      Apart() && pageManager.Valid() && index.Valid() && index.order == 4
    }

    /** The rows, and where they lie. */
    ghost function Places(): seq<Stored>
      requires InFile(pageManager.storage.disk.pages, pageManager.pageIds)
      reads pageManager, pageManager.storage.disk`pages
    {
      Located(pageManager.storage.disk.pages, pageManager.pageIds)
    }

    /** The index has one entry for each row with a key, and no other. */
    ghost predicate Valid()
      reads pageManager, pageManager.storage, pageManager.storage.disk`pages, pageManager.cache, pageManager.cache.repr
      reads index, index.g.Keys
    {
      Sound() && Indexes(index.Contents(), scheme, Places())
    }

    ghost function Rows(): seq<string>
      requires InFile(pageManager.storage.disk.pages, pageManager.pageIds)
      reads pageManager, pageManager.storage.disk`pages
    {
      Texts(Places())
    }

    lemma Placed()
      requires Sound()
      ensures Covers(pageManager.storage.disk.pages, pageManager.pageIds, pageManager.tableId)
      ensures StoreOk(pageManager.storage.Contents()) && pageManager.tableId != 0
    {
      pageManager.Facts();
    }

    /** Enters a row of a page into the index. */
    method AddEntry(key: int, pageId: int, rowIndex: int)
      requires Sound()
      modifies index, index.g.Keys
      ensures Sound() && fresh(index.g.Keys - old(index.g.Keys))
      ensures Added(old(index.Contents()), index.Contents(), IndexRecord(key, pageId, rowIndex))
    {
      index.Insert(key, pageId, rowIndex);
    }

    constructor (num: NumberParser, scheme: seq<Column>, storage: StorageFile, tableId: int, cacheCapacity: nat)
      requires storage.Valid() && tableId != 0 && cacheCapacity >= 1
      modifies storage.disk`pages, storage.disk`history
      ensures Valid() && fresh(pageManager) && fresh(index) && fresh(pageManager.cache.repr) && fresh(index.g.Keys)
      ensures storage.disk.State() == old(storage.disk.State()) && storage.disk.history == old(storage.disk.history)
      ensures this.num == num && this.scheme == scheme
      ensures pageManager.storage == storage && pageManager.tableId == tableId
      ensures pageManager.pageIds == Tagged(storage.disk.pages, tableId)
    {
      hide LRUCache.Valid, StorageFile.Valid, BPlusTree.Valid, Covers, Coherent, Indexes, Tagged;
      this.num, this.scheme := num, scheme;
      pageManager := new PageManager(storage, tableId, cacheCapacity);
      index := new BPlusTree(4);
      new;
      RebuildIndex();
    }

    /** Enters the rows of one page, of which those in `before` are already entered. */
    method IndexRows(gid: nat, rows: seq<string>, ghost before: seq<Stored>)
      requires Sound() && Indexes(index.Contents(), scheme, before)
      modifies index, index.g.Keys
      ensures Sound() && fresh(index.g.Keys - old(index.g.Keys))
      ensures Indexes(index.Contents(), scheme, before + OnPage(gid, rows))
    {
      hide Table.Sound, Indexes, Added, KeyOf;
      ghost var here := OnPage(gid, rows);
      var r := 0;
      assert before + here[..0] == before;
      while r < |rows|
        invariant r <= |rows| && Sound() && fresh(index.g.Keys - old(index.g.Keys))
        invariant Indexes(index.Contents(), scheme, before + here[..r])
      {
        ghost var contents := index.Contents();
        var row := DecodeRow(rows[r]);
        var key := KeyOf(scheme, row);
        if key.Some? {
          AddEntry(key.value, gid, r);
        }
        IndexesNext(contents, index.Contents(), scheme, before + here[..r], here[r]);
        assert before + here[..r] + [here[r]] == before + here[..r + 1];
        r := r + 1;
      }
      assert here[..r] == here;
    }

    /** Builds the index anew from the pages. */
    method RebuildIndex()
      requires Sound()
      modifies index, index.g.Keys, pageManager.cache.repr
      modifies pageManager.storage.disk`pages, pageManager.storage.disk`history
      ensures Valid() && fresh(index.g.Keys - old(index.g.Keys))
      ensures fresh(pageManager.cache.repr - old(pageManager.cache.repr))
      ensures pageManager.storage.disk.State() == old(pageManager.storage.disk.State())
      ensures pageManager.storage.disk.history == old(pageManager.storage.disk.history)
    {
      hide Table.Sound, Indexes, Located;
      Placed();
      ghost var pages := pageManager.storage.disk.pages;
      LocatedNone(pages);
      ClearIndex();
      var pageIds := pageManager.pageIds;
      var i := 0;
      while i < |pageIds|
        invariant i <= |pageIds| && pageManager.pageIds == pageIds && Sound() && fresh(index.g.Keys - old(index.g.Keys))
        invariant fresh(pageManager.cache.repr - old(pageManager.cache.repr))
        invariant pageManager.storage.disk.pages == pages
                  && pageManager.storage.disk.State() == old(pageManager.storage.disk.State())
        invariant pageManager.storage.disk.history == old(pageManager.storage.disk.history)
        invariant Indexes(index.Contents(), scheme, Located(pages, pageIds[..i]))
      {
        var rows := PageRows(pageIds[i]);
        IndexRows(pageIds[i], rows, Located(pages, pageIds[..i]));
        LocatedNext(pages, pageIds, i);
        i := i + 1;
      }
      assert pageIds[..i] == pageIds;
    }

    method ClearIndex()
      requires Sound()
      modifies index
      ensures Sound() && index.g == map[] && Indexes(index.Contents(), scheme, [])
    {
      index.Clear();
    }

    /** The rows of one page of the table. */
    method PageRows(gid: nat) returns (rows: seq<string>)
      requires Sound() && gid in pageManager.pageIds
      modifies pageManager.cache.repr, pageManager.storage.disk`pages, pageManager.storage.disk`history
      ensures Sound() && fresh(pageManager.cache.repr - old(pageManager.cache.repr))
      ensures pageManager.storage.disk.State() == old(pageManager.storage.disk.State())
      ensures pageManager.storage.disk.history == old(pageManager.storage.disk.history)
      ensures pageManager.pageIds == old(pageManager.pageIds)
      ensures index.g == old(index.g) && index.Contents() == old(index.Contents())
      ensures gid < |pageManager.storage.disk.pages| && rows == Pages.Rows(pageManager.storage.disk.pages[gid])
    {
      pageManager.OwnedPage(gid);
      var page := pageManager.ReadPage(gid);
      rows := ReadRows(page);
    }

    // ---- Insertion ------------------------------------------------------------------------

    /** Refuses a row of the wrong shape. */
    method CheckShape(row: Row) returns (err: Option<TableError>)
      ensures err == ShapeError(scheme, row)
    {
      if |row| != |scheme| {
        return Some(SCHEME_MISMATCH);
      }
      var i := 0;
      while i < |row|
        invariant i <= |row| && forall j | 0 <= j < i :: HasType(row[j], scheme[j].kind)
      {
        var valid := ValidateValueForType(row[i], scheme[i].kind);
        if !valid {
          return Some(TYPE_VALIDATION_FAILED);
        }
        i := i + 1;
      }
      return None;
    }

    /** Refuses a row of the wrong shape, with a key that fits no int, or with a key that is taken. */
    method CheckRow(row: Row) returns (err: Option<TableError>)
      requires Valid()
      ensures InFile(pageManager.storage.disk.pages, pageManager.pageIds)
              && err == RowError(scheme, multiset(Rows()), row)
    {
      Placed();
      err := CheckShape(row);
      if err.Some? {
        return;
      }
      if KeyOverflows(scheme, row) {
        return Some(INDEX_INSERTION_FAILED);
      }
      var key := KeyOf(scheme, row);
      if key.Some? {
        SearchTells(index.Contents(), scheme, Places(), key.value);
        var found := index.Search(key.value);
        if found.Some? {
          return Some(DUPLICATE_KEY);
        }
      }
      return None;
    }

    /** Stores the text of a row, and enters it into the index. */
    method StoreRow(row: Row) returns (stored: bool)
      requires Valid()
      modifies pageManager, pageManager.cache.repr, pageManager.storage
      modifies pageManager.storage.disk`pages, pageManager.storage.disk`history, index, index.g.Keys
      ensures Valid() && fresh(index.g.Keys - old(index.g.Keys))
      ensures fresh(pageManager.cache.repr - old(pageManager.cache.repr))
      ensures stored == Fits(RowText(row))
      ensures InFile(pageManager.storage.disk.pages, pageManager.pageIds)
      ensures Rows() == old(Rows()) + if stored then [RowText(row)] else []
      ensures RowWithin(old(pageManager.storage.disk.history), pageManager.storage.disk.history,
                        old(pageManager.storage.disk.State()), pageManager.tableId, RowText(row))
      ensures EndsIn(old(pageManager.storage.disk.history), old(pageManager.storage.disk.State()),
                     pageManager.storage.disk.history, pageManager.storage.disk.State())
      ensures OnlyRows(old(pageManager.storage.disk.State()), pageManager.storage.disk.State(), pageManager.tableId)
    {
      hide Table.Sound, Indexes, RowWithin, OnlyRows, EntriesFor, RowText, KeyOf, Added;
      Placed();
      var serialized := Serialize(row);
      RowTextOneLine(row);
      ghost var places, contents := Places(), index.Contents();
      var res := PlaceText(serialized);
      if !res.success {
        assert places + [] == places;
        return false;
      }
      ghost var x := Stored(res.pageId, res.rowIndex, serialized);
      TextsAppend(places, [x]);
      assert Texts([x]) == [serialized];
      Entered(row);
      var key := KeyOf(scheme, row);
      if key.Some? {
        AddEntry(key.value, res.pageId, res.rowIndex);
      }
      IndexesNext(contents, index.Contents(), scheme, places, x);
      return true;
    }

    lemma Entered(row: Row)
      ensures TextKey(scheme, RowText(row)) == KeyOf(scheme, row)
    {
      RowRoundTrip(row);
    }

    method PlaceText(text: string) returns (placed: TableRows.Placed)
      requires Sound() && '\n' !in text
      modifies pageManager, pageManager.cache.repr, pageManager.storage
      modifies pageManager.storage.disk`pages, pageManager.storage.disk`history
      ensures Sound() && index.Contents() == old(index.Contents()) && index.g == old(index.g)
      ensures fresh(pageManager.cache.repr - old(pageManager.cache.repr))
      ensures placed.success == Fits(text) && (placed.success ==> placed.pageId >= 0 && placed.rowIndex >= 0)
      ensures InFile(pageManager.storage.disk.pages, pageManager.pageIds)
      ensures Places() == old(Places()) + if placed.success then [Stored(placed.pageId, placed.rowIndex, text)] else []
      ensures RowWithin(old(pageManager.storage.disk.history), pageManager.storage.disk.history,
                        old(pageManager.storage.disk.State()), pageManager.tableId, text)
      ensures EndsIn(old(pageManager.storage.disk.history), old(pageManager.storage.disk.State()),
                     pageManager.storage.disk.history, pageManager.storage.disk.State())
      ensures OnlyRows(old(pageManager.storage.disk.State()), pageManager.storage.disk.State(), pageManager.tableId)
    {
      hide Indexes, Located;
      Placed();
      ghost var d, s, ids := pageManager.storage.disk.State(), pageManager.storage.Contents(), pageManager.pageIds;
      StoreRowOk(s, ids, pageManager.tableId, text);
      StoredBag(d, s, ids, pageManager.tableId, text, TableRows.StoreRow(s, ids, pageManager.tableId, text));
      placed := pageManager.InsertRowWithLocation(text);
    }

    /** Stores a row unless it is refused; `enforceUnique` says whether its key is looked at. */
    method InsertRow(row: Row, enforceUnique: bool) returns (err: Option<TableError>)
      requires Valid()
      modifies pageManager, pageManager.cache.repr, pageManager.storage
      modifies pageManager.storage.disk`pages, pageManager.storage.disk`history, index, index.g.Keys
      ensures Valid() && fresh(index.g.Keys - old(index.g.Keys))
      ensures fresh(pageManager.cache.repr - old(pageManager.cache.repr))
      ensures InFile(old(pageManager.storage.disk.pages), old(pageManager.pageIds))
      ensures InFile(pageManager.storage.disk.pages, pageManager.pageIds)
      ensures var refused := if enforceUnique then RowError(scheme, multiset(old(Rows())), row)
              else ShapeError(scheme, row);
              && err == (if refused.Some? then refused else if Fits(RowText(row)) then None
                         else Some(PAGE_MANAGER_FULL))
              && (refused.Some? ==> pageManager.storage.disk.State() == old(pageManager.storage.disk.State())
                                    && pageManager.storage.disk.history == old(pageManager.storage.disk.history))
      ensures Rows() == old(Rows()) + if err.None? then [RowText(row)] else []
      ensures RowWithin(old(pageManager.storage.disk.history), pageManager.storage.disk.history,
                        old(pageManager.storage.disk.State()), pageManager.tableId, RowText(row))
      ensures EndsIn(old(pageManager.storage.disk.history), old(pageManager.storage.disk.State()),
                     pageManager.storage.disk.history, pageManager.storage.disk.State())
      ensures OnlyRows(old(pageManager.storage.disk.State()), pageManager.storage.disk.State(), pageManager.tableId)
    {
      hide Indexes, Located, RowText, PageManager.Valid, BPlusTree.Valid;
      Placed();
      if enforceUnique {
        err := CheckRow(row);
      } else {
        err := CheckShape(row);
      }
      if err.Some? {
        return;
      }
      var stored := StoreRow(row);
      err := if stored then None else Some(PAGE_MANAGER_FULL);
    }

    // ---- Selection ------------------------------------------------------------------------

    /** All rows, as texts. */
    method AllTexts() returns (texts: seq<string>)
      requires Valid()
      modifies pageManager.cache.repr, pageManager.storage.disk`pages, pageManager.storage.disk`history
      ensures Valid() && fresh(pageManager.cache.repr - old(pageManager.cache.repr))
      ensures pageManager.storage.disk.State() == old(pageManager.storage.disk.State())
      ensures pageManager.storage.disk.history == old(pageManager.storage.disk.history)
      ensures pageManager.pageIds == old(pageManager.pageIds) && index.g == old(index.g)
      ensures InFile(pageManager.storage.disk.pages, pageManager.pageIds) && texts == Rows()
    {
      Placed();
      texts := pageManager.GetAllRows();
    }

    /** Reads every row. */
    method ScanRows(cond: Option<Condition>) returns (result: seq<Row>)
      requires Valid()
      modifies pageManager.cache.repr, pageManager.storage.disk`pages, pageManager.storage.disk`history
      ensures Valid() && fresh(pageManager.cache.repr - old(pageManager.cache.repr))
      ensures pageManager.storage.disk.State() == old(pageManager.storage.disk.State())
      ensures pageManager.storage.disk.history == old(pageManager.storage.disk.history)
      ensures pageManager.pageIds == old(pageManager.pageIds) && index.g == old(index.g)
      ensures InFile(pageManager.storage.disk.pages, pageManager.pageIds)
      ensures result == Scanned(num, scheme, cond, Rows())
    {
      hide Table.Valid, Scanned;
      var rawRows := AllTexts();
      result := FilterRows(num, scheme, cond, rawRows);
    }

    /** The row that the index knows under a key. */
    method LookUp(key: int) returns (found: Option<IndexRecord>, result: seq<Row>)
      requires Valid()
      modifies pageManager.cache.repr, pageManager.storage.disk`pages, pageManager.storage.disk`history
      ensures Valid() && fresh(pageManager.cache.repr - old(pageManager.cache.repr))
      ensures pageManager.storage.disk.State() == old(pageManager.storage.disk.State())
      ensures pageManager.storage.disk.history == old(pageManager.storage.disk.history)
      ensures pageManager.pageIds == old(pageManager.pageIds) && index.g == old(index.g)
      ensures InFile(pageManager.storage.disk.pages, pageManager.pageIds)
      ensures index.Contents() == old(index.Contents())
      ensures found.None? ==> !HasKey(index.Contents(), key) && result == []
      ensures found.Some? ==> found.value in index.Contents() && found.value.key == key
      ensures found.Some? ==> ShowsRow(pageManager.storage.disk.pages, found.value, result)
    {
      hide Indexes, Located, Covers, PageManager.Valid;
      Placed();
      found := index.Search(key);
      result := [];
      if found.Some? {
        var rec := found.value;
        EntryPlace(index.Contents(), scheme, pageManager.storage.disk.pages, pageManager.pageIds, rec);
        var pageRows := PageRows(rec.pageId);
        var localIndex := rec.offset;
        if 0 <= localIndex < |pageRows| {
          var row := DecodeRow(pageRows[localIndex]);
          result := [row];
        } else {
          assert false;
        }
      }
    }

    /** What the condition selects. A key is looked up in the index, and as long as keys are unique and in range the
        answer is the one that a full scan would give. */
    method SelectRow(cond: Option<Condition>) returns (result: seq<Row>)
      requires Valid()
      modifies pageManager.cache.repr, pageManager.storage.disk`pages, pageManager.storage.disk`history
      ensures Valid() && fresh(pageManager.cache.repr - old(pageManager.cache.repr))
      ensures pageManager.storage.disk.State() == old(pageManager.storage.disk.State())
      ensures pageManager.storage.disk.history == old(pageManager.storage.disk.history)
      ensures pageManager.pageIds == old(pageManager.pageIds) && index.g == old(index.g)
      ensures InFile(pageManager.storage.disk.pages, pageManager.pageIds)
      ensures cond.None? || (ExactOnInts(num) && AllHealthy(scheme, Rows()) && KeysUnique(scheme, multiset(Rows()))) ==>
                result == Scanned(num, scheme, cond, Rows())
    {
      hide PageManager.Valid, BPlusTree.Valid, Indexes, Located, Scanned, LiteralKey, AllHealthy, KeysUnique;
      Placed();
      if cond.Some? && cond.value.op == "=" && |scheme| > 0 && cond.value.column == scheme[0].name
        && scheme[0].kind == "INT" {
        if cond.value.value.None? {
          NullSelectsNothing(num, scheme, cond.value, Rows());
          return [];
        }
        var literal := cond.value.value.value;
        var key := LiteralKey(num, literal);
        if key.Some? {
          ghost var places := Places();
          var found;
          found, result := LookUp(key.value);
          LookupAgrees(num, scheme, literal, index.Contents(), pageManager.storage.disk.pages, pageManager.pageIds,
                       found, result);
          assert cond == Some(KeyCondition(scheme, literal));
          return;
        }
      }
      result := ScanRows(cond);
    }

    // ---- DELETE and UPDATE ----------------------------------------------------------------

    /** The rows that a DELETE would leave. */
    method PreviewDelete(cond: Option<Condition>) returns (toKeep: seq<Row>)
      requires Valid()
      modifies pageManager.cache.repr, pageManager.storage.disk`pages, pageManager.storage.disk`history
      ensures Valid() && fresh(pageManager.cache.repr - old(pageManager.cache.repr))
      ensures pageManager.storage.disk.State() == old(pageManager.storage.disk.State())
      ensures pageManager.storage.disk.history == old(pageManager.storage.disk.history)
      ensures pageManager.pageIds == old(pageManager.pageIds) && index.g == old(index.g)
      ensures InFile(pageManager.storage.disk.pages, pageManager.pageIds)
      ensures toKeep == Kept(num, scheme, cond, Rows())
    {
      hide Table.Sound, Indexes, Located;
      Placed();
      if cond.None? {
        KeepsNothing(num, scheme, Rows());
        return [];
      }
      var allRows := SelectRow(None);
      ScannedAll(num, scheme, Rows());
      toKeep := KeepRows(num, scheme, cond.value, allRows, Rows());
    }

    /** The rows that an UPDATE would leave, and how many of them it would match. */
    method PreviewUpdate(cond: Option<Condition>, assignments: seq<Assignment>)
      returns (newState: seq<Row>, matched: nat)
      requires Valid()
      modifies pageManager.cache.repr, pageManager.storage.disk`pages, pageManager.storage.disk`history
      ensures Valid() && fresh(pageManager.cache.repr - old(pageManager.cache.repr))
      ensures pageManager.storage.disk.State() == old(pageManager.storage.disk.State())
      ensures pageManager.storage.disk.history == old(pageManager.storage.disk.history)
      ensures pageManager.pageIds == old(pageManager.pageIds) && index.g == old(index.g)
      ensures InFile(pageManager.storage.disk.pages, pageManager.pageIds)
      ensures (newState, matched) == UpdatePreview(num, scheme, cond, assignments, Rows())
    {
      hide Table.Sound, Indexes, Located;
      Placed();
      var fit := CheckAssignments(scheme, assignments);
      if !fit {
        return [], 0;
      }
      var allRows := SelectRow(None);
      ScannedAll(num, scheme, Rows());
      newState, matched := UpdateRows(num, scheme, cond, assignments, allRows, Rows());
    }

    /** Gives all pages back and empties the index. */
    method DropStorage()
      requires Valid()
      modifies pageManager, pageManager.cache.repr, pageManager.storage
      modifies pageManager.storage.disk`pages, pageManager.storage.disk`history, index, index.g.Keys
      ensures Valid() && fresh(index.g.Keys - old(index.g.Keys))
      ensures fresh(pageManager.cache.repr - old(pageManager.cache.repr))
      ensures InFile(pageManager.storage.disk.pages, pageManager.pageIds) && Rows() == []
      ensures Freeing(old(pageManager.storage.disk.history), pageManager.storage.disk.history,
                      old(pageManager.storage.disk.State()), pageManager.tableId)
      ensures EndsIn(old(pageManager.storage.disk.history), old(pageManager.storage.disk.State()),
                     pageManager.storage.disk.history, pageManager.storage.disk.State())
      ensures OnlyRows(old(pageManager.storage.disk.State()), pageManager.storage.disk.State(), pageManager.tableId)
    {
      ClearPages();
      ClearIndex();
    }

    method ClearPages()
      requires Sound()
      modifies pageManager, pageManager.cache.repr, pageManager.storage
      modifies pageManager.storage.disk`pages, pageManager.storage.disk`history
      ensures Sound() && pageManager.pageIds == []
      ensures fresh(pageManager.cache.repr - old(pageManager.cache.repr))
      ensures index.g == old(index.g)
      ensures Freeing(old(pageManager.storage.disk.history), pageManager.storage.disk.history,
                      old(pageManager.storage.disk.State()), pageManager.tableId)
      ensures EndsIn(old(pageManager.storage.disk.history), old(pageManager.storage.disk.State()),
                     pageManager.storage.disk.history, pageManager.storage.disk.State())
      ensures OnlyRows(old(pageManager.storage.disk.State()), pageManager.storage.disk.State(), pageManager.tableId)
    {
      hide BPlusTree.Valid, Within, OnlyRows, FreeAll;
      pageManager.ClearAll();
    }

    /** Replaces all rows of the table. A row that is refused, or does not fit a page, is left out without notice. */
    method Rewrite(rows: seq<Row>)
      requires Valid()
      modifies pageManager, pageManager.cache.repr, pageManager.storage
      modifies pageManager.storage.disk`pages, pageManager.storage.disk`history, index, index.g.Keys
      ensures Valid() && fresh(index.g.Keys - old(index.g.Keys))
      ensures fresh(pageManager.cache.repr - old(pageManager.cache.repr))
      ensures InFile(pageManager.storage.disk.pages, pageManager.pageIds) && Rows() == Survivors(scheme, rows)
      ensures Refilled(old(pageManager.storage.disk.history), old(pageManager.storage.disk.State()),
                       pageManager.storage.disk.history, pageManager.storage.disk.State(), pageManager.tableId,
                       multiset(Survivors(scheme, rows)))
    {
      hide Table.Valid, Survivors, RowText, OnlyRows, Within, Located, Refilled, RowWithin, EndsIn, Freeing,
           ShapeError, Fits, Bag, BPlusTree.Valid;
      ghost var d0, h0 := pageManager.storage.disk.State(), pageManager.storage.disk.history;
      ghost var all := multiset(Survivors(scheme, rows));
      DropStorage();
      RowsAreBag();
      FreedForRows(h0, d0, pageManager.storage.disk.history, pageManager.storage.disk.State(), pageManager.tableId,
                   all);
      SurvivorsNone(scheme);
      var i := 0;
      assert rows[..0] == [];
      while i < |rows|
        invariant i <= |rows| && Valid() && fresh(index.g.Keys - old(index.g.Keys))
        invariant fresh(pageManager.cache.repr - old(pageManager.cache.repr))
        invariant InFile(pageManager.storage.disk.pages, pageManager.pageIds) && Rows() == Survivors(scheme, rows[..i])
        invariant Refilled(h0, d0, pageManager.storage.disk.history, pageManager.storage.disk.State(),
                           pageManager.tableId, all)
      {
        ghost var d1, h1 := pageManager.storage.disk.State(), pageManager.storage.disk.history;
        RowsAreBag();
        var _ := InsertRow(rows[i], false);
        RewriteStep(h0, d0, h1, d1, pageManager.storage.disk.history, pageManager.storage.disk.State(),
                    pageManager.tableId, scheme, rows, i);
        SurvivorsNext(scheme, rows[..i], rows[i]);
        assert rows[..i] + [rows[i]] == rows[..i + 1];
        i := i + 1;
      }
      assert rows[..i] == rows;
    }

    /** Returns how many rows were deleted. */
    method DeleteRow(cond: Option<Condition>) returns (deleted: int)
      requires Valid()
      modifies pageManager, pageManager.cache.repr, pageManager.storage
      modifies pageManager.storage.disk`pages, pageManager.storage.disk`history, index, index.g.Keys
      ensures Valid() && fresh(index.g.Keys - old(index.g.Keys))
      ensures fresh(pageManager.cache.repr - old(pageManager.cache.repr))
      ensures InFile(old(pageManager.storage.disk.pages), old(pageManager.pageIds))
      ensures InFile(pageManager.storage.disk.pages, pageManager.pageIds)
      ensures Rows() == Survivors(scheme, Kept(num, scheme, cond, old(Rows())))
      ensures deleted == |old(Rows())| - |Kept(num, scheme, cond, old(Rows()))|
      ensures Refilled(old(pageManager.storage.disk.history), old(pageManager.storage.disk.State()),
                       pageManager.storage.disk.history, pageManager.storage.disk.State(), pageManager.tableId,
                           multiset(Rows()))
    {
      hide Table.Valid, Survivors, Kept, OnlyRows, Within, Located;
      StateInOrder();
      var all := AllTexts();
      var toKeep := PreviewDelete(cond);
      Rewrite(toKeep);
      deleted := |all| - |toKeep|;
    }

    /** Returns how many rows matched. */
    method UpdateRow(cond: Option<Condition>, assignments: seq<Assignment>) returns (matched: nat)
      requires Valid()
      modifies pageManager, pageManager.cache.repr, pageManager.storage
      modifies pageManager.storage.disk`pages, pageManager.storage.disk`history, index, index.g.Keys
      ensures Valid() && fresh(index.g.Keys - old(index.g.Keys))
      ensures fresh(pageManager.cache.repr - old(pageManager.cache.repr))
      ensures InFile(old(pageManager.storage.disk.pages), old(pageManager.pageIds))
      ensures InFile(pageManager.storage.disk.pages, pageManager.pageIds)
      ensures var (rows, n) := UpdatePreview(num, scheme, cond, assignments, old(Rows()));
              && matched == n
              && (rows == [] ==>
                    && Rows() == old(Rows())
                    && pageManager.storage.disk.history == old(pageManager.storage.disk.history)
                    && pageManager.storage.disk.pages == old(pageManager.storage.disk.pages))
              && (rows != [] ==> Rows() == Survivors(scheme, rows))
      ensures UpdatePreview(num, scheme, cond, assignments, old(Rows())).0 != [] ==>
                Refilled(old(pageManager.storage.disk.history), old(pageManager.storage.disk.State()),
                         pageManager.storage.disk.history, pageManager.storage.disk.State(), pageManager.tableId,
                             multiset(Rows()))
    {
      hide Table.Valid, Survivors, UpdatePreview, Located;
      StateInOrder();
      var newState;
      newState, matched := PreviewUpdate(cond, assignments);
      PreviewCounts(num, scheme, cond, assignments, old(Rows()));
      if newState == [] {
        return 0;
      }
      Rewrite(newState);
    }

    /** As a bag, the rows are what the file holds of the table. */
    lemma RowsAreBag()
      requires Valid()
      ensures Apart() && pageManager.storage.Valid() && pageManager.tableId != 0
      ensures InFile(pageManager.storage.disk.pages, pageManager.pageIds)
      ensures multiset(Rows()) == Bag(pageManager.storage.disk.pages, pageManager.tableId)
      ensures PagesOk(pageManager.storage.disk.pages)
    {
      Placed();
      BagIsRows(pageManager.storage.disk.pages, pageManager.pageIds, pageManager.tableId);
    }

    lemma StateInOrder()
      requires Valid()
      ensures OnlyRows(pageManager.storage.disk.State(), pageManager.storage.disk.State(), pageManager.tableId)
      ensures InFile(pageManager.storage.disk.pages, pageManager.pageIds)
    {
      Placed();
    }
  }

  lemma PreviewCounts(num: NumberParser, scheme: seq<Column>, cond: Option<Condition>, assignments: seq<Assignment>,
                      texts: seq<string>)
    ensures UpdatePreview(num, scheme, cond, assignments, texts).0 == [] ==>
              UpdatePreview(num, scheme, cond, assignments, texts).1 == 0
  {
    if AssignmentsFit(scheme, assignments) && Updated(num, scheme, cond, assignments, texts).Some? {
      UpdatedCount(num, scheme, cond, assignments, texts);
      if |texts| == 0 {
        assert Scanned(num, scheme, cond, texts) == [];
      }
    }
  }

  lemma RewriteStep(h0: seq<DiskState>, d0: DiskState, h1: seq<DiskState>, d1: DiskState, h2: seq<DiskState>,
                    d2: DiskState, tableId: int, scheme: seq<Column>, rows: seq<Row>, i: nat)
    requires i < |rows| && Bag(d1.pages, tableId) == multiset(Survivors(scheme, rows[..i]))
    requires Refilled(h0, d0, h1, d1, tableId, multiset(Survivors(scheme, rows)))
    requires RowWithin(h1, h2, d1, tableId, RowText(rows[i])) && OnlyRows(d1, d2, tableId) && EndsIn(h1, d1, h2, d2)
    requires ShapeError(scheme, rows[i]).Some? ==> h2 == h1
    ensures Refilled(h0, d0, h2, d2, tableId, multiset(Survivors(scheme, rows)))
  {
    hide Bag, Survivors, RowText, Fits, ShapeError, Emptied;
    OthersKeptTwice(d0.pages, d1.pages, d2.pages, tableId);
    EndsTwice(h0, d0, h1, d1, h2, d2);
    EmptiedLonger(h0, h1, h2, d0, tableId);
    SurvivorsOfPart(scheme, rows, i);
    SurvivorsOfPart(scheme, rows, i + 1);
    assert rows[..i + 1] == rows[..i] + [rows[i]];
    SurvivorsNext(scheme, rows[..i], rows[i]);
    var before, text := Survivors(scheme, rows[..i]), RowText(rows[i]);
    assert multiset(before + [text]) == multiset(before) + multiset{text};
    RewritingOn(h0, d0, h1, d1, h2, tableId, multiset(Survivors(scheme, rows)));
  }

  /** `result` is the row that the entry points at. */
  ghost predicate ShowsRow(pages: seq<Image>, rec: IndexRecord, result: seq<Row>)
  {
    && 0 <= rec.pageId < |pages| && 0 <= rec.offset < |Pages.Rows(pages[rec.pageId])|
    && result == [RowOf(Pages.Rows(pages[rec.pageId])[rec.offset])]
  }

  lemma EntryPlace(contents: seq<IndexRecord>, scheme: seq<Column>, pages: seq<Image>, ids: seq<nat>, rec: IndexRecord)
    requires InFile(pages, ids) && Indexes(contents, scheme, Located(pages, ids)) && rec in contents
    ensures rec.pageId >= 0 && rec.pageId in ids && rec.pageId < |pages|
    ensures 0 <= rec.offset < |Pages.Rows(pages[rec.pageId])|
  {
    var rows := Located(pages, ids);
    EntriesCorrespond(contents, scheme, rows);
    var i :| 0 <= i < |rows| && rows[i].pageId == rec.pageId && rows[i].offset == rec.offset
             && TextKey(scheme, rows[i].text) == Some(rec.key);
    RowIsThere(pages, ids, rows[i]);
  }

  lemma LookupAgrees(num: NumberParser, scheme: seq<Column>, literal: string, contents: seq<IndexRecord>,
                     pages: seq<Image>, ids: seq<nat>, found: Option<IndexRecord>, result: seq<Row>)
    requires Keyed(scheme) && LiteralKey(num, literal).Some?
    requires InFile(pages, ids) && Indexes(contents, scheme, Located(pages, ids))
    requires found.None? ==> !HasKey(contents, LiteralKey(num, literal).value) && result == []
    requires found.Some? ==> found.value in contents && found.value.key == LiteralKey(num, literal).value
    requires found.Some? ==> ShowsRow(pages, found.value, result)
    ensures var texts := RowsOf(pages, ids);
            ExactOnInts(num) && AllHealthy(scheme, texts) && KeysUnique(scheme, multiset(texts)) ==>
              result == Scanned(num, scheme, Some(KeyCondition(scheme, literal)), texts)
  {
    var rows, texts := Located(pages, ids), RowsOf(pages, ids);
    if ExactOnInts(num) && AllHealthy(scheme, texts) && KeysUnique(scheme, multiset(texts)) {
      match found
      case None => MissAgrees(num, scheme, literal, contents, rows);
      case Some(rec) =>
        var i := HitAgrees(num, scheme, literal, contents, rows, rec);
        RowIsThere(pages, ids, rows[i]);
    }
  }

  lemma NullSelectsNothing(num: NumberParser, scheme: seq<Column>, cond: Condition, texts: seq<string>)
    requires cond.value.None? && cond.op == "="
    ensures Scanned(num, scheme, Some(cond), texts) == []
  {
    ScanFindsNothing(num, scheme, Some(cond), texts);
  }

  lemma LocatedNone(pages: seq<Image>)
    ensures Located(pages, []) == []
  {
  }

  lemma LocatedNext(pages: seq<Image>, ids: seq<nat>, i: nat)
    requires InFile(pages, ids) && i < |ids|
    ensures Located(pages, ids[..i + 1]) == Located(pages, ids[..i]) + OnPage(ids[i], Pages.Rows(pages[ids[i]]))
  {
    assert ids[..i + 1] == ids[..i] + [ids[i]];
    LocatedAppend(pages, ids[..i], [ids[i]]);
    LocatedOne(pages, ids[i]);
  }
}
