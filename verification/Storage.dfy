// The database file: pages tagged with the table they belong to, and a list of the free ones.
module Storage {
  import opened Sequences
  import opened Pages
  import opened Sql

  // ---- The disk ---------------------------------------------------------------------------

  /** One line of the catalog file. */
  datatype TableLine = TableLine(name: string, id: int, columns: seq<Column>)

  /** What survives a crash: the database file, the log and the catalog file. */
  datatype DiskState = DiskState(pages: seq<Image>, lines: seq<string>, catalog: seq<TableLine>)

  function Put(pages: seq<Image>, id: nat, page: Image): seq<Image>
    requires id <= |pages|
  {
    if id < |pages| then pages[id := page] else pages + [page]
  }

  /** The files of one database. A page write, a line appended to the log and a rewrite of the catalog are single steps;
      `history` is what the disk held after each of them. */
  class Disk {
    var pages: seq<Image>
    var lines: seq<string>
    var catalog: seq<TableLine>
    ghost var history: seq<DiskState>

    function State(): DiskState
      reads this
    {
      DiskState(pages, lines, catalog)
    }

    /** The disk after a crash, or a new one. */
    constructor (state: DiskState)
      ensures State() == state && history == []
    {
      pages, lines, catalog := state.pages, state.lines, state.catalog;
      history := [];
    }

    method WritePage(id: nat, page: Image)
      requires id <= |pages|
      modifies this`pages, this`history
      ensures pages == Put(old(pages), id, page)
      ensures history == old(history) + [State()]
    {
      pages := Put(pages, id, page);
      history := history + [State()];
    }

    method AppendLine(line: string)
      modifies this`lines, this`history
      ensures lines == old(lines) + [line]
      ensures history == old(history) + [State()]
    {
      lines := lines + [line];
      history := history + [State()];
    }

    method WriteCatalog(catalog: seq<TableLine>)
      modifies this`catalog, this`history
      ensures this.catalog == catalog
      ensures history == old(history) + [State()]
    {
      this.catalog := catalog;
      history := history + [State()];
    }
  }

  // ---- What the file holds, as a value ----------------------------------------------------

  datatype Store = Store(pages: seq<Image>, freeList: seq<nat>)

  /** The pages that carry a tag, in the order of the file. */
  function Tagged(pages: seq<Image>, tableId: int): (ids: seq<nat>)
    ensures forall k | 0 <= k < |ids| :: ids[k] < |pages| && pages[ids[k]].tableId == tableId
    ensures forall i: nat | i < |pages| && pages[i].tableId == tableId :: i in ids
    ensures Distinct(ids) && forall j, k | 0 <= j < k < |ids| :: ids[j] < ids[k]
  {
    if |pages| == 0 then []
    else
      var n := |pages| - 1;
      Tagged(pages[..n], tableId) + if pages[n].tableId == tableId then [n] else []
  }

  function Allocate(s: Store, tableId: int): (Store, nat)
    requires forall k | 0 <= k < |s.freeList| :: s.freeList[k] < |s.pages|
  {
    if |s.freeList| > 0 then
      var n := |s.freeList| - 1;
      var id := s.freeList[n];
      (Store(s.pages[id := Empty(id, tableId)], s.freeList[..n]), id)
    else
      var id := |s.pages|;
      (Store(s.pages + [Empty(id, tableId)], []), id)
  }

  function Free(s: Store, id: nat): Store
    requires id < |s.pages|
  {
    Store(s.pages[id := Blank()], s.freeList + [id])
  }

  function FreeAll(s: Store, ids: seq<nat>): (s': Store)
    requires forall k | 0 <= k < |ids| :: ids[k] < |s.pages|
    ensures |s'.pages| == |s.pages|
    decreases |ids|
  {
    if |ids| == 0 then s else FreeAll(Free(s, ids[0]), ids[1..])
  }

  /** The free list has no duplicates and names exactly the pages that no table owns; every other page is in use. */
  ghost predicate StoreOk(s: Store)
  {
    && Distinct(s.freeList)
    && (forall k | 0 <= k < |s.freeList| :: s.freeList[k] < |s.pages| && s.pages[s.freeList[k]].tableId == 0)
    && (forall i: nat | i < |s.pages| && s.pages[i].tableId == 0 :: i in s.freeList)
    && (forall i: nat | i < |s.pages| :: Sized(s.pages[i]))
    && (forall i: nat | i < |s.pages| && s.pages[i].tableId != 0 :: InUse(s.pages[i]))
  }

  /** The file alone tells the free pages, so any free list can be rebuilt from it. */
  ghost predicate PagesOk(pages: seq<Image>)
  {
    forall i: nat | i < |pages| :: Sized(pages[i]) && (pages[i].tableId != 0 ==> InUse(pages[i]))
  }

  lemma ScannedOk(pages: seq<Image>)
    requires PagesOk(pages)
    ensures StoreOk(Store(pages, Tagged(pages, 0)))
  {
  }

  lemma AllocateOk(s: Store, tableId: int)
    requires StoreOk(s) && tableId != 0
    ensures var (s', id) := Allocate(s, tableId);
            && StoreOk(s') && id <= |s.pages| && id < |s'.pages|
            && s'.pages == Put(s.pages, id, Empty(id, tableId))
            && (id < |s.pages| ==> s.pages[id].tableId == 0)
  {
    EmptyInUse(0, 0);
    var n := |s.freeList| - 1;
    if n >= 0 {
      var id := s.freeList[n];
      EmptyInUse(id, tableId);
      var rest := s.freeList[..n];
      assert s.freeList == rest + [id];
      assert id !in rest;
    } else {
      EmptyInUse(|s.pages|, tableId);
    }
  }

  ghost predicate HasFreePage(pages: seq<Image>)
  {
    exists i :: 0 <= i < |pages| && pages[i].tableId == 0
  }

  /** The file grows only if no page is free. */
  lemma AllocateReuses(s: Store, tableId: int)
    requires StoreOk(s)
    ensures |Allocate(s, tableId).0.pages| == |s.pages| + if HasFreePage(s.pages) then 0 else 1
  {
    if |s.freeList| > 0 {
      assert s.pages[s.freeList[0]].tableId == 0;
    }
  }

  lemma FreeOk(s: Store, id: nat)
    requires StoreOk(s) && id < |s.pages| && s.pages[id].tableId != 0
    ensures StoreOk(Free(s, id))
  {
    assert id !in s.freeList;
  }

  lemma WriteOk(s: Store, id: nat, page: Image)
    requires StoreOk(s) && id < |s.pages| && page.tableId == s.pages[id].tableId && page.tableId != 0 && InUse(page)
    ensures StoreOk(s.(pages := s.pages[id := page]))
  {
  }

  // ---- What a crash can leave -------------------------------------------------------------

  /** No page of another table changed, and none was given to or taken from another table. */
  ghost predicate OthersKept(pages: seq<Image>, pages': seq<Image>, tableId: int)
  {
    && |pages| <= |pages'|
    && (forall i: nat {:trigger pages[i]} {:trigger pages'[i]} | i < |pages| && pages[i].tableId != tableId
        && pages[i].tableId != 0 :: pages'[i] == pages[i])
    && (forall i: nat {:trigger pages'[i]} | i < |pages'| && pages'[i].tableId != tableId && pages'[i].tableId != 0 ::
          i < |pages| && pages'[i] == pages[i])
  }

  lemma OthersKeptTwice(a: seq<Image>, b: seq<Image>, c: seq<Image>, tableId: int)
    requires OthersKept(a, b, tableId) && OthersKept(b, c, tableId)
    ensures OthersKept(a, c, tableId)
  {
  }

  /** Against `d0`, `d` differs only in pages of one table, and its pages are in order. */
  ghost predicate OnlyRows(d0: DiskState, d: DiskState, tableId: int)
  {
    d.lines == d0.lines && d.catalog == d0.catalog && PagesOk(d.pages) && OthersKept(d0.pages, d.pages, tableId)
  }

  /** Everything the disk held since `h0`, when it held `d0`, differs from `d0` only in pages of one table. */
  ghost predicate Within(h0: seq<DiskState>, h: seq<DiskState>, d0: DiskState, tableId: int)
  {
    && |h0| <= |h| && h[..|h0|] == h0
    && forall k | |h0| <= k < |h| :: OnlyRows(d0, h[k], tableId)
  }

  /** The disk went from `d0` to `d`: that is the last state recorded since `h0`, if any was. */
  ghost predicate EndsIn(h0: seq<DiskState>, d0: DiskState, h: seq<DiskState>, d: DiskState)
  {
    |h0| <= |h| && if |h| == |h0| then d == d0 else h[|h| - 1] == d
  }

  lemma EndsTwice(h0: seq<DiskState>, d0: DiskState, h1: seq<DiskState>, d1: DiskState, h: seq<DiskState>, d: DiskState)
    requires EndsIn(h0, d0, h1, d1) && EndsIn(h1, d1, h, d) && h[..|h1|] == h1
    ensures EndsIn(h0, d0, h, d)
  {
    assert |h1| > 0 && |h| == |h1| ==> h[|h| - 1] == h1[|h1| - 1];
  }

  /** Some pages of the table were blanked, and nothing else happened. */
  ghost predicate Freed(pages: seq<Image>, pages': seq<Image>, tableId: int)
  {
    && |pages| == |pages'|
    && forall i: nat {:trigger pages'[i]} | i < |pages| ::
         pages'[i] == pages[i] || (pages[i].tableId == tableId && pages'[i] == Blank())
  }

  /** Everything the disk held since `h0`, when it held `d0`, is `d0` without some pages of the table. */
  ghost predicate Freeing(h0: seq<DiskState>, h: seq<DiskState>, d0: DiskState, tableId: int)
  {
    && Within(h0, h, d0, tableId)
    && forall k | |h0| <= k < |h| :: Freed(d0.pages, h[k].pages, tableId)
  }

  lemma FreeingStep(h0: seq<DiskState>, d0: DiskState, h: seq<DiskState>, d: DiskState, tableId: int)
    requires Freeing(h0, h, d0, tableId) && OnlyRows(d0, d, tableId) && Freed(d0.pages, d.pages, tableId)
    ensures Freeing(h0, h + [d], d0, tableId)
  {
    WithinStep(h0, d0, h, d, tableId);
  }

  /** One page of the table, or a free one, is given a new content, or freed. */
  ghost predicate RowStep(pages: seq<Image>, id: nat, page: Image, tableId: int)
  {
    && id <= |pages| && (id < |pages| ==> pages[id].tableId == tableId || pages[id].tableId == 0)
    && (page.tableId == tableId || page.tableId == 0) && Sized(page) && (page.tableId != 0 ==> InUse(page))
  }

  lemma OnlyRowsStep(d0: DiskState, d: DiskState, id: nat, page: Image, tableId: int)
    requires OnlyRows(d0, d, tableId) && RowStep(d.pages, id, page, tableId)
    ensures OnlyRows(d0, d.(pages := Put(d.pages, id, page)), tableId)
  {
  }

  lemma WithinStep(h0: seq<DiskState>, d0: DiskState, h: seq<DiskState>, d: DiskState, tableId: int)
    requires Within(h0, h, d0, tableId) && OnlyRows(d0, d, tableId)
    ensures Within(h0, h + [d], d0, tableId)
  {
    assert (h + [d])[..|h0|] == h[..|h0|];
  }

  lemma WithinTwice(h0: seq<DiskState>, d0: DiskState, h1: seq<DiskState>, d1: DiskState, h2: seq<DiskState>,
                    tableId: int)
    requires Within(h0, h1, d0, tableId) && OnlyRows(d0, d1, tableId) && Within(h1, h2, d1, tableId)
    ensures Within(h0, h2, d0, tableId)
  {
    assert h2[..|h0|] == h1[..|h0|];
    forall k | |h0| <= k < |h2| ensures OnlyRows(d0, h2[k], tableId) {
      if k < |h1| {
        assert h2[k] == h1[k];
      }
    }
  }

  // ---- The storage file -------------------------------------------------------------------

  class StorageFile {
    const disk: Disk
    var totalPages: nat
    var freeList: seq<nat>

    ghost predicate Valid()
      reads this, disk`pages
    {
      totalPages == |disk.pages| && StoreOk(Contents())
    }

    function Contents(): Store
      reads this, disk`pages
    {
      Store(disk.pages, freeList)
    }

    constructor (disk: Disk)
      requires PagesOk(disk.pages)
      ensures this.disk == disk && Valid() && Contents() == Store(disk.pages, Tagged(disk.pages, 0))
    {
      this.disk := disk;
      totalPages := |disk.pages|;
      freeList := [];
      new;
      Scan();
      ScannedOk(disk.pages);
    }

    method Scan()
      requires totalPages == |disk.pages|
      modifies this`freeList
      ensures freeList == Tagged(disk.pages, 0)
    {
      freeList := GetPagesForTable(0);
    }

    method GetPagesForTable(tableId: int) returns (result: seq<nat>)
      requires totalPages == |disk.pages|
      ensures result == Tagged(disk.pages, tableId)
    {
      result := [];
      var i := 0;
      while i < totalPages
        invariant i <= totalPages && result == Tagged(disk.pages[..i], tableId)
      {
        assert disk.pages[..i + 1][..i] == disk.pages[..i];
        if disk.pages[i].tableId == tableId {
          result := result + [i];
        }
        i := i + 1;
      }
      assert disk.pages[..i] == disk.pages;
    }

    method AllocatePage(tableId: int) returns (globalPageId: nat)
      requires Valid() && tableId != 0
      modifies this, disk`pages, disk`history
      ensures Valid() && (Contents(), globalPageId) == Allocate(old(Contents()), tableId)
      ensures disk.history == old(disk.history) + [disk.State()]
    {
      AllocateOk(Contents(), tableId);
      if |freeList| > 0 {
        globalPageId := freeList[|freeList| - 1];
        freeList := freeList[..|freeList| - 1];
      } else {
        globalPageId := totalPages;
        totalPages := totalPages + 1;
      }
      disk.WritePage(globalPageId, Empty(globalPageId, tableId));
    }

    method FreePage(globalPageId: nat)
      requires Valid() && globalPageId < |disk.pages| && disk.pages[globalPageId].tableId != 0
      modifies this, disk`pages, disk`history
      ensures Valid() && Contents() == Free(old(Contents()), globalPageId)
      ensures disk.history == old(disk.history) + [disk.State()]
    {
      FreeOk(Contents(), globalPageId);
      disk.WritePage(globalPageId, Blank());
      freeList := freeList + [globalPageId];
    }

    /** Frees every page of a table, found by its tag. */
    method FreePagesForTable(tableId: int)
      requires Valid() && tableId != 0
      modifies this, disk`pages, disk`history
      ensures Valid() && Contents() == FreeAll(old(Contents()), Tagged(old(disk.pages), tableId))
      ensures Freeing(old(disk.history), disk.history, old(disk.State()), tableId)
      ensures EndsIn(old(disk.history), old(disk.State()), disk.history, disk.State())
      ensures OnlyRows(old(disk.State()), disk.State(), tableId)
    {
      var toFree := GetPagesForTable(tableId);
      FreePages(toFree, tableId);
    }

    /** Frees the pages in `ids`, all of which belong to the table. */
    method FreePages(ids: seq<nat>, tableId: int)
      requires Valid() && tableId != 0 && Distinct(ids)
      requires forall k | 0 <= k < |ids| :: ids[k] < |disk.pages| && disk.pages[ids[k]].tableId == tableId
      modifies this, disk`pages, disk`history
      ensures Valid() && Contents() == FreeAll(old(Contents()), ids)
      ensures Freeing(old(disk.history), disk.history, old(disk.State()), tableId)
      ensures EndsIn(old(disk.history), old(disk.State()), disk.history, disk.State())
      ensures OnlyRows(old(disk.State()), disk.State(), tableId)
    {
      ghost var d0, h0 := disk.State(), disk.history;
      var i := 0;
      while i < |ids|
        invariant i <= |ids| && Valid() && |disk.pages| == |d0.pages|
        invariant forall k | i <= k < |ids| :: disk.pages[ids[k]].tableId == tableId
        invariant FreeAll(Contents(), ids[i..]) == FreeAll(old(Contents()), ids)
        invariant OnlyRows(d0, disk.State(), tableId) && EndsIn(h0, d0, disk.history, disk.State())
        invariant Freed(d0.pages, disk.pages, tableId) && Freeing(h0, disk.history, d0, tableId)
      {
        OnlyRowsStep(d0, disk.State(), ids[i], Blank(), tableId);
        ghost var h := disk.history;
        FreePage(ids[i]);
        FreeingStep(h0, d0, h, disk.State(), tableId);
        i := i + 1;
      }
    }

    method ReadPage(globalPageId: nat) returns (page: Image)
      requires globalPageId < |disk.pages|
      ensures page == disk.pages[globalPageId]
    {
      page := disk.pages[globalPageId];
    }

    method WritePage(globalPageId: nat, page: Image)
      requires globalPageId < |disk.pages|
      modifies disk`pages, disk`history
      ensures Contents() == old(Contents()).(pages := old(disk.pages)[globalPageId := page])
      ensures disk.history == old(disk.history) + [disk.State()]
    {
      disk.WritePage(globalPageId, page);
    }
  }
}
