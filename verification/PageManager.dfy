// The pages of one table, read and written through a cache.
module PageManagers {
  import opened Sequences
  import opened Wrappers
  import opened Pages
  import opened Storage
  import opened LRUCaches
  import opened TableRows

  // ---- The cache agrees with the file -----------------------------------------------------

  /** Every cached page is a page of the table, has nothing to be written back and is what the file holds. */
  ghost predicate Coherent(c: Cached, pages: seq<Image>, ids: seq<nat>)
  {
    forall e | e in c :: !e.isDirty && e.pageId in ids && e.pageId < |pages| && pages[e.pageId] == e.page
  }

  lemma {:induction false} WithoutIdIn(c: Cached, id: nat)
    ensures forall e | e in WithoutId(c, id) :: e in c && e.pageId != id
  {
    if |c| > 0 {
      WithoutIdIn(c[1..], id);
    }
  }

  lemma {:induction false} LookupIn(c: Cached, id: nat)
    ensures Lookup(c, id).Some? ==> Lookup(c, id).value in c && Lookup(c, id).value.pageId == id
    ensures Lookup(c, id).None? ==> forall e | e in c :: e.pageId != id
  {
    if |c| > 0 {
      LookupIn(c[1..], id);
      assert c == [c[0]] + c[1..];
    }
  }

  lemma CoherentTouched(c: Cached, pages: seq<Image>, ids: seq<nat>, id: nat)
    requires Coherent(c, pages, ids)
    ensures Coherent(Touched(c, id), pages, ids)
    ensures Lookup(c, id).Some? ==> id < |pages| && Lookup(c, id).value.page == pages[id]
  {
    WithoutIdIn(c, id);
    LookupIn(c, id);
  }

  lemma CoherentClean(c: Cached, pages: seq<Image>, ids: seq<nat>, capacity: nat)
    requires Coherent(c, pages, ids)
    ensures !DropsDirty(c, capacity) && forall d :: WithRoom(c, capacity, d) == d
  {
    assert |c| > 0 ==> c[|c| - 1] in c;
  }

  /** Putting in what the file holds, or will hold next. */
  lemma CoherentPut(c: Cached, pages: seq<Image>, ids: seq<nat>, capacity: nat, id: nat, page: Image)
    requires Coherent(c, pages, ids) && Distinct(Ids(c)) && id in ids && id < |pages|
    ensures Coherent(PutIn(c, capacity, CacheEntry(id, page, false)), pages[id := page], ids)
  {
    hide Ids, Distinct;
    LookupIn(c, id);
    WithoutIdIn(c, id);
    var added, put := CacheEntry(id, page, false), PutIn(c, capacity, CacheEntry(id, page, false));
    forall e | e in put && e != added ensures e in c && e.pageId != id {
      assert Lookup(c, id).None? ==> e in Trimmed(c, capacity);
    }
  }

  // ---- What a crash can leave -------------------------------------------------------------

  /** Everything the disk held since `h0` is `d0` with or without the row. */
  ghost predicate RowWithin(h0: seq<DiskState>, h: seq<DiskState>, d0: DiskState, tableId: int, row: string)
  {
    && Within(h0, h, d0, tableId)
    && forall k | |h0| <= k < |h| ::
         || Bag(h[k].pages, tableId) == Bag(d0.pages, tableId)
         || (Fits(row) && Bag(h[k].pages, tableId) == Bag(d0.pages, tableId) + multiset{row})
  }

  ghost predicate WithOrWithout(d0: DiskState, d: DiskState, tableId: int, row: string)
  {
    && OnlyRows(d0, d, tableId)
    && (|| Bag(d.pages, tableId) == Bag(d0.pages, tableId)
        || (Fits(row) && Bag(d.pages, tableId) == Bag(d0.pages, tableId) + multiset{row}))
  }

  lemma RowWithinNext(h0: seq<DiskState>, h: seq<DiskState>, d0: DiskState, d: DiskState, tableId: int, row: string)
    requires RowWithin(h0, h, d0, tableId, row) && WithOrWithout(d0, d, tableId, row)
    ensures RowWithin(h0, h + [d], d0, tableId, row)
  {
    WithinStep(h0, d0, h, d, tableId);
  }

  /** What storing a row does to the disk, step by step. */
  lemma StoringSteps(h: seq<DiskState>, d: DiskState, s: Store, ids: seq<nat>, tableId: int, row: string)
    requires StoreOk(s) && Covers(s.pages, ids, tableId) && tableId != 0 && s.pages == d.pages && '\n' !in row
    ensures var d1, d2 := d.(pages := Allocate(s, tableId).0.pages),
            d.(pages := StoreRow(s, ids, tableId, row).store.pages);
            RowWithin(h, h + [d2], d, tableId, row) && RowWithin(h, h + [d1, d2], d, tableId, row)
  {
    hide StoreRow, Allocate, OnlyRows, RowStored;
    StoreRowOk(s, ids, tableId, row);
    StoredBag(d, s, ids, tableId, row, StoreRow(s, ids, tableId, row));
    AllocationHoldsNothing(d, s, tableId);
    var d1, d2 := d.(pages := Allocate(s, tableId).0.pages), d.(pages := StoreRow(s, ids, tableId, row).store.pages);
    RowWithinNext(h, h, d, d2, tableId, row);
    RowWithinNext(h, h, d, d1, tableId, row);
    RowWithinNext(h, h + [d1], d, d2, tableId, row);
    assert h + [d1] + [d2] == h + [d1, d2];
  }

  lemma PutNothing(pages: seq<Image>, id: nat, page: Image, tableId: int)
    requires id <= |pages| && Held(page, tableId) == multiset{}
    requires id < |pages| ==> Held(pages[id], tableId) == multiset{}
    ensures Bag(Put(pages, id, page), tableId) == Bag(pages, tableId)
  {
    BagPut(pages, id, page, tableId);
    var a, b := Bag(Put(pages, id, page), tableId), Bag(pages, tableId);
    assert a + multiset{} == a && b + multiset{} == b;
  }

  lemma AllocationHoldsNothing(d: DiskState, s: Store, tableId: int)
    requires StoreOk(s) && s.pages == d.pages && tableId != 0
    ensures var d1 := d.(pages := Allocate(s, tableId).0.pages);
            OnlyRows(d, d1, tableId) && Bag(d1.pages, tableId) == Bag(d.pages, tableId)
  {
    AllocateOk(s, tableId);
    var (s1, id) := Allocate(s, tableId);
    EmptyInUse(id, tableId);
    PutNothing(s.pages, id, Empty(id, tableId), tableId);
    OnlyRowsStep(d, d, id, Empty(id, tableId), tableId);
  }

  lemma StoredBag(d: DiskState, s: Store, ids: seq<nat>, tableId: int, row: string, r: Insertion)
    requires StoreOk(s) && Covers(s.pages, ids, tableId) && tableId != 0 && s.pages == d.pages
    requires RowStored(s, ids, tableId, row, r)
    ensures OnlyRows(d, d.(pages := r.store.pages), tableId)
    ensures Bag(r.store.pages, tableId) == Bag(s.pages, tableId) + if Fits(row) then multiset{row} else multiset{}
  {
    BagIsRows(s.pages, ids, tableId);
    BagIsRows(r.store.pages, r.ids, tableId);
    var rows := RowsOf(s.pages, ids);
    if Fits(row) {
      var at := Stored(r.placed.pageId, r.placed.rowIndex, row);
      TextsAppend(Located(s.pages, ids), [at]);
      assert Texts([at]) == [row];
      assert multiset(rows + [row]) == multiset(rows) + multiset{row};
    } else {
      assert multiset(rows) + multiset{} == multiset(rows);
    }
  }

  // ---- Single pages -----------------------------------------------------------------------

  /** A copy of the page with one row more, if that has room. */
  method Extended(image: Image, row: string) returns (extended: Option<Image>)
    requires InUse(image)
    ensures extended == if HasRoom(image, |row| + 1) then Some(WithRow(image, row)) else None
  {
    var page := new Page.Copy(image);
    var added := page.AddRow(row);
    extended := if added then Some(page.View()) else None;
  }

  /** A new page with one row, if that has room. */
  method FirstRow(pageId: int, tableId: int, row: string) returns (page: Option<Image>)
    requires InUse(Empty(pageId, tableId))
    ensures page == if HasRoom(Empty(pageId, tableId), |row| + 1) then Some(WithRow(Empty(pageId, tableId), row))
            else None
  {
    var newPage := new Page(pageId, tableId);
    var added := newPage.AddRow(row);
    page := if added then Some(newPage.View()) else None;
  }

  method ReadRows(image: Image) returns (rows: seq<string>)
    requires Sized(image)
    ensures rows == Rows(image)
  {
    var page := new Page.Copy(image);
    rows := page.GetRows();
  }

  lemma Extends(p: Image, row: string)
    requires InUse(p) && HasRoom(p, |row| + 1) && '\n' !in row
    ensures InUse(WithRow(p, row)) && WithRow(p, row).tableId == p.tableId
  {
    AddedRowReadsBack(p, row);
  }

  // ---- The page manager -------------------------------------------------------------------

  class PageManager {
    const storage: StorageFile
    const tableId: int
    const cache: LRUCache
    var pageIds: seq<nat>

    /** The pages of the table are those in `ids`, and the cache shows some of them. */
    ghost predicate Owns(ids: seq<nat>)
      reads this, storage, storage.disk`pages, cache, cache.repr
    {
      && tableId != 0 && cache.storage == storage && storage.Valid() && cache.Valid()
      && cache in cache.repr && {this, storage, storage.disk} !! cache.repr
      && Covers(storage.disk.pages, ids, tableId)
      && Coherent(cache.View(), storage.disk.pages, ids)
    }

    ghost predicate Valid()
      reads this, storage, storage.disk`pages, cache, cache.repr
    {
      Owns(pageIds)
    }

    lemma OwnedPage(id: nat)
      requires Valid() && id in pageIds
      ensures id < |storage.disk.pages| && storage.disk.pages[id].tableId == tableId && InUse(storage.disk.pages[id])
    {
    }

    lemma NothingDirty()
      requires Valid()
      ensures cache.Flushable() && Distinct(Ids(cache.View()))
    {
      cache.IdsDistinct();
      forall n | n in cache.lruList ensures !n.isDirty {
        var i :| 0 <= i < |cache.lruList| && cache.lruList[i] == n;
        assert cache.View()[i] in cache.View();
      }
    }

    lemma Facts()
      requires Valid()
      ensures tableId != 0 && StoreOk(storage.Contents()) && Covers(storage.disk.pages, pageIds, tableId)
    {
    }

    constructor (storage: StorageFile, tableId: int, cacheCapacity: nat)
      requires storage.Valid() && tableId != 0 && cacheCapacity >= 1
      ensures Valid() && fresh(cache.repr)
      ensures this.storage == storage && this.tableId == tableId
      ensures pageIds == Tagged(storage.disk.pages, tableId)
    {
      this.storage := storage;
      this.tableId := tableId;
      cache := new LRUCache(cacheCapacity, storage);
      pageIds := [];
      new;
      pageIds := storage.GetPagesForTable(tableId);
      TaggedCovers(storage.disk.pages, tableId);
    }

    /** Reads a page of the table. The file is not touched. */
    method ReadPage(globalPageId: nat) returns (page: Image)
      requires Valid() && globalPageId in pageIds
      modifies cache.repr, storage.disk`pages, storage.disk`history
      ensures Valid()
      ensures fresh(cache.repr - old(cache.repr))
      ensures storage.disk.pages == old(storage.disk.pages) && storage.disk.history == old(storage.disk.history)
      ensures globalPageId < |storage.disk.pages| && page == storage.disk.pages[globalPageId]
    {
      var cached := Recall(globalPageId);
      if cached != null {
        return cached.page;
      }
      page := storage.ReadPage(globalPageId);
      assert storage.disk.pages[globalPageId := page] == storage.disk.pages;
      Remember(globalPageId, page);
    }

    method Recall(globalPageId: nat) returns (cached: CacheNode?)
      requires Valid() && globalPageId in pageIds
      modifies cache`lruList, cache`uses
      ensures Valid()
      ensures globalPageId < |storage.disk.pages|
      ensures cached != null ==> cached.page == storage.disk.pages[globalPageId]
    {
      CoherentTouched(cache.View(), storage.disk.pages, pageIds, globalPageId);
      cached := cache.Get(globalPageId);
    }

    /** Puts a page into the cache that the file holds or will hold next. */
    method Remember(globalPageId: nat, page: Image)
      requires Valid() && globalPageId in pageIds
      modifies cache.repr, storage.disk`pages, storage.disk`history
      ensures storage.disk.pages == old(storage.disk.pages) && storage.disk.history == old(storage.disk.history)
      ensures fresh(cache.repr - old(cache.repr))
      ensures cache.Valid() && cache in cache.repr && {this, storage, storage.disk} !! cache.repr
              && globalPageId < |storage.disk.pages|
      ensures Coherent(cache.View(), storage.disk.pages[globalPageId := page], pageIds)
    {
      hide LRUCache.Flushable, LRUCache.View, Coherent, WithRoom, Lookup, PutIn, DropsDirty;
      ghost var c, pages := cache.View(), storage.disk.pages;
      NothingDirty();
      CoherentClean(c, pages, pageIds, cache.capacity);
      CoherentPut(c, pages, pageIds, cache.capacity, globalPageId, page);
      cache.Put(globalPageId, page, false);
    }

    /** Writes a page of the table through the cache to the file. */
    method WritePage(globalPageId: nat, page: Image)
      requires Valid() && globalPageId in pageIds && InUse(page) && page.tableId == tableId
      modifies cache.repr, storage.disk`pages, storage.disk`history
      ensures fresh(cache.repr - old(cache.repr))
      ensures Valid() && globalPageId < |old(storage.disk.pages)|
      ensures storage.disk.pages == old(storage.disk.pages)[globalPageId := page]
      ensures storage.disk.history == old(storage.disk.history) + [storage.disk.State()]
    {
      hide LRUCache.Valid, LRUCache.View, InUse;

      WriteOk(storage.Contents(), globalPageId, page);
      Remember(globalPageId, page);
      storage.WritePage(globalPageId, page);
    }

    /** Adds a row to the last page of the table, if it has room. */
    method AppendToLast(row: string) returns (placed: Option<Placed>)
      requires Valid() && '\n' !in row
      modifies cache.repr, storage.disk`pages, storage.disk`history
      ensures Valid()
      ensures fresh(cache.repr - old(cache.repr))
      ensures placed.None? ==>
                storage.disk.pages == old(storage.disk.pages) && storage.disk.history == old(storage.disk.history)
      ensures placed.Some? ==> storage.disk.history == old(storage.disk.history) + [storage.disk.State()]
      ensures var s, ids := old(storage.Contents()), pageIds;
              && (placed.Some? <==> |ids| > 0 && HasRoom(s.pages[ids[|ids| - 1]], |row| + 1))
              && (placed.Some? ==> StoreRow(s, ids, tableId, row) == Insertion(storage.Contents(), ids, placed.value))
    {
      hide LRUCache.Valid, Coherent, InUse, WithRow;

      Facts();
      if |pageIds| == 0 {
        return None;
      }
      OwnedPage(pageIds[|pageIds| - 1]);
      var lastGlobalId := pageIds[|pageIds| - 1];
      var lastPage := ReadPage(lastGlobalId);
      var extended := Extended(lastPage, row);
      if extended.None? {
        return None;
      }
      Extends(lastPage, row);
      WritePage(lastGlobalId, extended.value);
      return Some(Placed(true, lastGlobalId, lastPage.rowNumber));
    }

    /** Adds a row on a new page. */
    method AddPage(row: string) returns (placed: Placed)
      requires Valid() && '\n' !in row
      requires !(|pageIds| > 0 && HasRoom(storage.disk.pages[pageIds[|pageIds| - 1]], |row| + 1))
      modifies this, cache.repr, storage, storage.disk`pages, storage.disk`history
      ensures Valid()
      ensures fresh(cache.repr - old(cache.repr))
      ensures Insertion(storage.Contents(), pageIds, placed)
              == StoreRow(old(storage.Contents()), old(pageIds), tableId, row)
      ensures var d0 := old(storage.disk.State());
              storage.disk.history == old(storage.disk.history)
                + [d0.(pages := Allocate(old(storage.Contents()), tableId).0.pages), storage.disk.State()]
    {
      hide LRUCache.Valid, LRUCache.View, WithRow, Coherent, Covers, StoreOk;

      var newGlobalId := AllocateNew();
      var newPage := FirstRow(newGlobalId, tableId, row);
      if newPage.None? {
        FreeNew(newGlobalId);
        return Placed(false, -1, -1);
      }
      pageIds := pageIds + [newGlobalId];
      Extends(Empty(newGlobalId, tableId), row);
      WritePage(newGlobalId, newPage.value);
      return Placed(true, newGlobalId, 0);
    }

    method AllocateNew() returns (id: nat)
      requires Valid()
      modifies storage, storage.disk`pages, storage.disk`history
      ensures Owns(pageIds + [id]) && InUse(Empty(id, tableId)) && id < |storage.disk.pages|
      ensures forall e | e in cache.View() :: e.pageId in pageIds
      ensures (storage.Contents(), id) == Allocate(old(storage.Contents()), tableId)
      ensures storage.disk.history == old(storage.disk.history) + [storage.disk.State()]
    {
      AllocatedOwned(storage.Contents(), pageIds, tableId, cache.View());
      id := storage.AllocatePage(tableId);
    }

    method FreeNew(id: nat)
      requires Owns(pageIds + [id]) && id < |storage.disk.pages|
      requires forall e | e in cache.View() :: e.pageId in pageIds
      modifies storage, storage.disk`pages, storage.disk`history
      ensures Valid() && storage.Contents() == Free(old(storage.Contents()), id)
      ensures storage.disk.history == old(storage.disk.history) + [storage.disk.State()]
    {
      assert (pageIds + [id])[|pageIds|] == id;
      FreedCovers(storage.Contents(), pageIds, id, tableId);
      storage.FreePage(id);
    }

    /** Stores a row, as if there were no cache. */
    method InsertRowWithLocation(row: string) returns (placed: Placed)
      requires Valid() && '\n' !in row
      modifies this, cache.repr, storage, storage.disk`pages, storage.disk`history
      ensures Valid()
      ensures fresh(cache.repr - old(cache.repr))
      ensures Insertion(storage.Contents(), pageIds, placed)
              == StoreRow(old(storage.Contents()), old(pageIds), tableId, row)
      ensures RowWithin(old(storage.disk.history), storage.disk.history, old(storage.disk.State()), tableId, row)
      ensures EndsIn(old(storage.disk.history), old(storage.disk.State()), storage.disk.history, storage.disk.State())
    {

      Facts();
      ghost var d, s, ids, h := storage.disk.State(), storage.Contents(), pageIds, storage.disk.history;
      StoringSteps(h, d, s, ids, tableId, row);
      var onLast := AppendToLast(row);
      if onLast.Some? {
        return onLast.value;
      }
      placed := AddPage(row);
    }

    /** Gives all pages of the table back. */
    method ClearAll()
      requires Valid()
      modifies this, cache.repr, storage, storage.disk`pages, storage.disk`history
      ensures Valid()
      ensures fresh(cache.repr - old(cache.repr))
      ensures pageIds == [] && storage.Contents() == FreeAll(old(storage.Contents()), old(pageIds))
      ensures Freeing(old(storage.disk.history), storage.disk.history, old(storage.disk.State()), tableId)
      ensures EndsIn(old(storage.disk.history), old(storage.disk.State()), storage.disk.history, storage.disk.State())
      ensures OnlyRows(old(storage.disk.State()), storage.disk.State(), tableId)
    {
      cache.Clear();
      storage.FreePages(pageIds, tableId);
      AllFreed(old(storage.Contents()), pageIds, tableId);
      pageIds := [];
    }

    /** All rows of the table, page by page. */
    method GetAllRows() returns (rows: seq<string>)
      requires Valid()
      modifies cache.repr, storage.disk`pages, storage.disk`history
      ensures Valid()
      ensures fresh(cache.repr - old(cache.repr))
      ensures storage.disk.pages == old(storage.disk.pages) && storage.disk.history == old(storage.disk.history)
      ensures rows == RowsOf(storage.disk.pages, pageIds)
    {

      Facts();
      RowsOfNone(storage.disk.pages);
      rows := [];
      ghost var pages := storage.disk.pages;
      var i := 0;
      while i < |pageIds|
        invariant i <= |pageIds| && Valid()
        invariant fresh(cache.repr - old(cache.repr))
        invariant storage.disk.pages == pages && storage.disk.history == old(storage.disk.history)
        invariant InFile(pages, pageIds[i..]) && rows + RowsOf(pages, pageIds[i..]) == RowsOf(pages, pageIds)
      {
        var page := ReadPage(pageIds[i]);
        var pageRows := ReadRows(page);
        RowsOfFirst(pages, pageIds[i..]);
        Regroups(rows, pageRows, RowsOf(pages, pageIds[i + 1..]));
        rows := rows + pageRows;
        i := i + 1;
      }
    }

    /** The end of the page manager; there is nothing to be written back. */
    method Destroy()
      requires Valid()
      modifies cache.repr, storage.disk`pages, storage.disk`history
      ensures storage.disk.pages == old(storage.disk.pages) && storage.disk.history == old(storage.disk.history)
    {
      cache.FlushAll();
    }
  }

  lemma AllocatedOwned(s: Store, ids: seq<nat>, tableId: int, c: Cached)
    requires StoreOk(s) && Covers(s.pages, ids, tableId) && tableId != 0 && Coherent(c, s.pages, ids)
    ensures var (s1, id) := Allocate(s, tableId);
            && StoreOk(s1) && Covers(s1.pages, ids + [id], tableId) && Coherent(c, s1.pages, ids + [id])
            && id < |s1.pages| && InUse(Empty(id, tableId))
    ensures forall e | e in c :: e.pageId in ids
  {
    AllocatedCovers(s, ids, tableId);
    AllocateOk(s, tableId);
    var (s1, id) := Allocate(s, tableId);
    EmptyInUse(id, tableId);
  }

  lemma FreedCovers(s: Store, ids: seq<nat>, id: nat, tableId: int)
    requires StoreOk(s) && Covers(s.pages, ids + [id], tableId) && tableId != 0 && id < |s.pages|
    ensures Covers(Free(s, id).pages, ids, tableId) && id !in ids
    ensures forall k | 0 <= k < |ids| :: ids[k] < |s.pages| && Free(s, id).pages[ids[k]] == s.pages[ids[k]]
  {
    var all := ids + [id];
    assert all[|ids|] == id && forall k | 0 <= k < |ids| :: all[k] == ids[k];
    forall i: nat | i < |s.pages| && s.pages[i].tableId == tableId && i != id ensures i in ids {
      assert i in all;
    }
  }

  lemma AllFreed(s: Store, ids: seq<nat>, tableId: int)
    requires Covers(s.pages, ids, tableId) && tableId != 0
    ensures Covers(FreeAll(s, ids).pages, [], tableId)
    decreases |ids|
  {
  }
}
