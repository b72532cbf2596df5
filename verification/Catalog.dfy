// The tables of a database: their columns, and the ids that tag their pages.
module Catalogs {
  import opened Wrappers
  import opened Sql
  import opened Pages
  import opened Storage
  import opened TableRows

  // ---- The catalog file -------------------------------------------------------------------

  /** The line that describes a table; a later line replaces an earlier one. */
  function LineFor(lines: seq<TableLine>, name: string): Option<TableLine>
  {
    if |lines| == 0 then None
    else
      var l := lines[|lines| - 1];
      if l.name == name && l.columns != [] then Some(l) else LineFor(lines[..|lines| - 1], name)
  }

  function SchemeOf(lines: seq<TableLine>, name: string): seq<Column>
  {
    match LineFor(lines, name)
    case None => []
    case Some(l) => l.columns
  }

  function IdOf(lines: seq<TableLine>, name: string): int
  {
    match LineFor(lines, name)
    case None => -1
    case Some(l) => l.id
  }

  /** The largest id in use, or 0. */
  function MaxId(lines: seq<TableLine>): (m: nat)
    ensures forall i | 0 <= i < |lines| && lines[i].columns != [] :: lines[i].id <= m
  {
    if |lines| == 0 then 0
    else
      var l, m := lines[|lines| - 1], MaxId(lines[..|lines| - 1]);
      if l.columns != [] && l.id > m then l.id else m
  }

  /** Every table has columns, a name of its own and a positive id of its own. */
  ghost predicate CatalogOk(lines: seq<TableLine>)
  {
    && (forall i | 0 <= i < |lines| :: lines[i].columns != [] && lines[i].id > 0)
    && (forall i, j | 0 <= i < j < |lines| :: lines[i].name != lines[j].name && lines[i].id != lines[j].id)
  }

  ghost predicate Live(lines: seq<TableLine>, id: int)
  {
    exists i :: 0 <= i < |lines| && lines[i].id == id
  }

  lemma {:induction false} FindIs(lines: seq<TableLine>, i: nat)
    requires CatalogOk(lines) && i < |lines|
    ensures LineFor(lines, lines[i].name) == Some(lines[i])
  {
    var n := |lines| - 1;
    if i < n {
      assert lines[i].name != lines[n].name;
      FindIs(lines[..n], i);
    }
  }

  lemma {:induction false} FoundIsLine(lines: seq<TableLine>, name: string)
    ensures LineFor(lines, name).Some? ==>
              exists i :: 0 <= i < |lines| && lines[i] == LineFor(lines, name).value && lines[i].name == name
                  && lines[i].columns != []
    ensures LineFor(lines, name).None? ==>
              forall i | 0 <= i < |lines| && lines[i].columns != [] :: lines[i].name != name
  {
    if |lines| > 0 {
      FoundIsLine(lines[..|lines| - 1], name);
    }
  }

  /** Different tables have different ids. */
  lemma IdsDiffer(lines: seq<TableLine>, a: string, b: string)
    requires CatalogOk(lines) && LineFor(lines, a).Some? && LineFor(lines, b).Some? && a != b
    ensures IdOf(lines, a) != IdOf(lines, b) && IdOf(lines, a) > 0
  {
    FoundIsLine(lines, a);
    FoundIsLine(lines, b);
  }

  // ---- Who owns which page ----------------------------------------------------------------

  /** Every page in the file is free or belongs to exactly one table of the catalog. */
  ghost predicate Owned(d: DiskState)
  {
    && PagesOk(d.pages) && CatalogOk(d.catalog)
    && forall i: nat | i < |d.pages| && d.pages[i].tableId != 0 :: Live(d.catalog, d.pages[i].tableId)
  }

  /** Whatever a statement does to the pages of a table of the catalog, pages stay owned. */
  lemma OwnedWithin(d0: DiskState, d: DiskState, tableId: int)
    requires Owned(d0) && d.catalog == d0.catalog && PagesOk(d.pages) && OthersKept(d0.pages, d.pages, tableId)
    requires Live(d0.catalog, tableId)
    ensures Owned(d)
  {
  }

  /** An id that no table has owns no page and shows no rows, even if a table had it before the last restart. */
  lemma FreshIdIsEmpty(d: DiskState, id: int)
    requires Owned(d) && !Live(d.catalog, id) && id != 0
    ensures Bag(d.pages, id) == multiset{} && Tagged(d.pages, id) == []
  {
    forall i: nat | i < |d.pages| ensures d.pages[i].tableId != id {
      assert d.pages[i].tableId != 0 ==> Live(d.catalog, d.pages[i].tableId);
    }
    NoRows(d.pages, id);
    TaggedNone(d.pages, id);
  }

  lemma {:induction false} TaggedNone(pages: seq<Image>, id: int)
    requires forall i: nat | i < |pages| :: pages[i].tableId != id
    ensures Tagged(pages, id) == []
  {
    if |pages| > 0 {
      TaggedNone(pages[..|pages| - 1], id);
    }
  }

  /** CREATE TABLE gives no page away: the new table starts empty, also under an id that was used before. */
  lemma CreatedOwned(d0: DiskState, d: DiskState, name: string, id: int)
    requires Owned(d0) && d == d0.(catalog := d.catalog) && CatalogOk(d.catalog) && !Live(d0.catalog, id)
    requires LineFor(d0.catalog, name).None? && LineFor(d.catalog, name).Some? && IdOf(d.catalog, name) == id
    requires forall other | other != name :: LineFor(d.catalog, other) == LineFor(d0.catalog, other)
    ensures Owned(d) && Bag(d.pages, id) == multiset{} && Tagged(d.pages, id) == []
  {
    FoundIsLine(d.catalog, name);
    FreshIdIsEmpty(d0, id);
    forall i: nat | i < |d.pages| && d.pages[i].tableId != 0 ensures Live(d.catalog, d.pages[i].tableId) {
      StillLive(d0.catalog, d.catalog, name, d.pages[i].tableId);
    }
  }

  /** A table other than `name` keeps its line, and so its id. */
  lemma StillLive(lines: seq<TableLine>, lines': seq<TableLine>, name: string, id: int)
    requires CatalogOk(lines) && Live(lines, id) && (LineFor(lines, name).Some? ==> IdOf(lines, name) != id)
    requires forall other | other != name :: LineFor(lines', other) == LineFor(lines, other)
    ensures Live(lines', id)
  {
    var i :| 0 <= i < |lines| && lines[i].id == id;
    FindIs(lines, i);
    FoundIsLine(lines', lines[i].name);
  }

  /** DROP TABLE frees the pages before the name goes, so no page is left without an owner. */
  lemma DroppedOwned(d0: DiskState, d: DiskState, name: string)
    requires Owned(d0) && LineFor(d0.catalog, name).Some? && d == d0.(catalog := d.catalog) && CatalogOk(d.catalog)
    requires forall i: nat | i < |d0.pages| :: d0.pages[i].tableId != IdOf(d0.catalog, name)
    requires forall other | other != name :: LineFor(d.catalog, other) == LineFor(d0.catalog, other)
    ensures Owned(d)
  {
    forall i: nat | i < |d.pages| && d.pages[i].tableId != 0 ensures Live(d.catalog, d.pages[i].tableId) {
      StillLive(d0.catalog, d.catalog, name, d.pages[i].tableId);
    }
  }

  /** How many pages the listed tables own. */
  function PagesOwned(pages: seq<Image>, lines: seq<TableLine>): nat
  {
    if |lines| == 0 then 0 else PagesOwned(pages, lines[..|lines| - 1]) + |Tagged(pages, lines[|lines| - 1].id)|
  }

  /** One page more is one more for its table, if a table owns it. */
  lemma {:induction false} OneOwnerMore(pages: seq<Image>, page: Image, lines: seq<TableLine>)
    requires forall i, j | 0 <= i < j < |lines| :: lines[i].id != lines[j].id
    ensures PagesOwned(pages + [page], lines) == PagesOwned(pages, lines) + if Live(lines, page.tableId) then 1 else 0
  {
    if |lines| > 0 {
      var n := |lines| - 1;
      OneOwnerMore(pages, page, lines[..n]);
      assert (pages + [page])[..|pages|] == pages;
      assert Live(lines, page.tableId) <==> Live(lines[..n], page.tableId) || lines[n].id == page.tableId by {
        if Live(lines, page.tableId) {
          var i :| 0 <= i < |lines| && lines[i].id == page.tableId;
          assert i < n ==> lines[..n][i].id == page.tableId;
        }
        if Live(lines[..n], page.tableId) {
          var i :| 0 <= i < n && lines[..n][i].id == page.tableId;
          assert lines[i].id == page.tableId;
        }
      }
    }
  }

  lemma {:induction false} NoPagesNoOwners(lines: seq<TableLine>)
    ensures PagesOwned([], lines) == 0
  {
    if |lines| > 0 {
      NoPagesNoOwners(lines[..|lines| - 1]);
    }
  }

  lemma TablesHaveIds(lines: seq<TableLine>)
    requires CatalogOk(lines)
    ensures !Live(lines, 0) && forall i, j | 0 <= i < j < |lines| :: lines[i].id != lines[j].id
  {
  }

  /** The free pages and the pages of the tables are all pages of the file, each counted once. */
  lemma {:induction false} PagesAddUp(pages: seq<Image>, lines: seq<TableLine>)
    requires CatalogOk(lines)
    requires forall i: nat | i < |pages| && pages[i].tableId != 0 :: Live(lines, pages[i].tableId)
    ensures |Tagged(pages, 0)| + PagesOwned(pages, lines) == |pages|
  {
    hide Live, CatalogOk;
    TablesHaveIds(lines);
    if |pages| == 0 {
      NoPagesNoOwners(lines);
    } else {
      var n := |pages| - 1;
      assert forall i: nat | i < n :: pages[..n][i] == pages[i];
      PagesAddUp(pages[..n], lines);
      assert pages == pages[..n] + [pages[n]];
      OneOwnerMore(pages[..n], pages[n], lines);
    }
  }

  // ---- The catalog ------------------------------------------------------------------------

  /** The maps say what the file says. */
  ghost predicate Shows(lines: seq<TableLine>, columns: map<string, seq<Column>>, tableIds: map<string, int>)
  {
    && (forall name: string :: name in columns <==> LineFor(lines, name).Some?)
    && (forall name: string :: name in tableIds <==> LineFor(lines, name).Some?)
    && (forall name: string | name in columns :: columns[name] == SchemeOf(lines, name))
    && (forall name: string | name in tableIds :: tableIds[name] == IdOf(lines, name))
  }

  lemma ShowsNothing()
    ensures Shows([], map[], map[]) && MaxId([]) == 0
  {
  }

  lemma ShowsNext(lines: seq<TableLine>, l: TableLine, columns: map<string, seq<Column>>, tableIds: map<string, int>)
    requires Shows(lines, columns, tableIds)
    ensures if l.columns == [] then Shows(lines + [l], columns, tableIds)
            else Shows(lines + [l], columns[l.name := l.columns], tableIds[l.name := l.id])
    ensures MaxId(lines + [l]) == if l.columns != [] && l.id > MaxId(lines) then l.id else MaxId(lines)
  {
    assert (lines + [l])[..|lines|] == lines;
    forall name: string
      ensures LineFor(lines + [l], name) == if l.name == name && l.columns != [] then Some(l) else LineFor(lines, name)
    {
    }
  }

  class Catalog {
    const disk: Disk
    var columns: map<string, seq<Column>>
    var tableIds: map<string, int>
    var nextTableId: int

    ghost predicate Valid()
      reads this, disk`catalog
    {
      && Shows(disk.catalog, columns, tableIds) && CatalogOk(disk.catalog)
      && MaxId(disk.catalog) < nextTableId
    }

    lemma InOrder()
      requires Valid()
      ensures CatalogOk(disk.catalog)
    {
    }

    constructor (disk: Disk)
      requires CatalogOk(disk.catalog)
      ensures Valid() && this.disk == disk
      ensures nextTableId == MaxId(disk.catalog) + 1
    {
      this.disk := disk;
      columns, tableIds, nextTableId := map[], map[], 1;
      new;
      Load();
    }

    method Load()
      requires columns == map[] && tableIds == map[]
      modifies this
      ensures Shows(disk.catalog, columns, tableIds) && nextTableId == MaxId(disk.catalog) + 1
    {
      hide Shows, MaxId;
      var lines := disk.catalog;
      var maxId := 0;
      var i := 0;
      ShowsNothing();
      assert lines[..0] == [];
      while i < |lines|
        invariant i <= |lines| && lines == disk.catalog
        invariant Shows(lines[..i], columns, tableIds) && maxId == MaxId(lines[..i])
      {
        var l := lines[i];
        ShowsNext(lines[..i], l, columns, tableIds);
        assert lines[..i + 1] == lines[..i] + [l];
        if l.columns != [] {
          columns := columns[l.name := l.columns];
          tableIds := tableIds[l.name := l.id];
          if l.id > maxId {
            maxId := l.id;
          }
        }
        i := i + 1;
      }
      assert lines[..i] == lines;
      nextTableId := maxId + 1;
    }

    method GetColumns(name: string) returns (found: seq<Column>)
      requires Valid()
      ensures found == SchemeOf(disk.catalog, name)
    {
      found := if name in columns then columns[name] else [];
    }

    method GetTableId(name: string) returns (id: int)
      requires Valid()
      ensures id == IdOf(disk.catalog, name)
    {
      id := if name in tableIds then tableIds[name] else -1;
    }

    method TableExists(name: string) returns (known: bool)
      requires Valid()
      ensures known == LineFor(disk.catalog, name).Some?
    {
      known := name in columns;
    }

    /** Writes the file anew, one line a table. */
    method Save()
      requires columns.Keys == tableIds.Keys
      modifies disk`catalog, disk`history
      ensures Lists(disk.catalog, columns, tableIds, columns.Keys)
      ensures disk.history == old(disk.history) + [disk.State()]
    {
      hide Lists;
      var lines := [];
      var rest := columns.Keys;
      ListsNothing(columns, tableIds);
      while rest != {}
        invariant disk.history == old(disk.history)
        invariant rest <= columns.Keys && Lists(lines, columns, tableIds, columns.Keys - rest)
        decreases |rest|
      {
        var name :| name in rest;
        var line := TableLine(name, tableIds[name], columns[name]);
        ListsNext(lines, columns, tableIds, columns.Keys - rest, name);
        assert columns.Keys - (rest - {name}) == columns.Keys - rest + {name};
        lines := lines + [line];
        rest := rest - {name};
      }
      assert columns.Keys - rest == columns.Keys;
      disk.WriteCatalog(lines);
    }

    /** Adds a table, unless the name is taken or there are no columns. Its id is one that no table has had since the
        catalog was loaded. */
    method CreateTable(name: string, columns: seq<Column>) returns (created: bool)
      requires Valid()
      modifies this, disk`catalog, disk`history
      ensures Valid()
      ensures created == (LineFor(old(disk.catalog), name).None? && columns != [])
      ensures !created ==> disk.catalog == old(disk.catalog) && disk.history == old(disk.history)
      ensures created ==>
                && disk.history == old(disk.history) + [disk.State()]
                && LineFor(disk.catalog, name) == Some(TableLine(name, old(nextTableId), columns))
                && !Live(old(disk.catalog), old(nextTableId))
                && (forall other | other != name :: LineFor(disk.catalog, other) == LineFor(old(disk.catalog), other))
    {
      if name in this.columns || columns == [] {
        return false;
      }
      ghost var lines, cols, ids, id := disk.catalog, this.columns, tableIds, nextTableId;
      this.columns := this.columns[name := columns];
      tableIds := tableIds[name := nextTableId];
      nextTableId := nextTableId + 1;
      Save();
      CreatedShows(lines, cols, ids, id, name, columns, disk.catalog);
      return true;
    }

    /** Removes a table; its id goes with it. */
    method DropTable(name: string)
      requires Valid()
      modifies this, disk`catalog, disk`history
      ensures Valid()
      ensures LineFor(disk.catalog, name).None?
      ensures forall other | other != name :: LineFor(disk.catalog, other) == LineFor(old(disk.catalog), other)
      ensures if LineFor(old(disk.catalog), name).None?
              then disk.catalog == old(disk.catalog) && disk.history == old(disk.history)
              else disk.history == old(disk.history) + [disk.State()]
    {
      if name !in columns {
        return;
      }
      ghost var lines, cols, ids := disk.catalog, columns, tableIds;
      columns := columns - {name};
      tableIds := tableIds - {name};
      Save();
      DroppedShows(lines, cols, ids, name, disk.catalog);
    }
  }

  /** One line for each of `names`, and no other. */
  ghost predicate Lists(lines: seq<TableLine>, columns: map<string, seq<Column>>, tableIds: map<string, int>,
                        names: set<string>)
  {
    && (forall i | 0 <= i < |lines| ::
          && lines[i].name in names && lines[i].name in tableIds && lines[i].name in columns
          && lines[i].id == tableIds[lines[i].name] && lines[i].columns == columns[lines[i].name])
    && (forall i, j | 0 <= i < j < |lines| :: lines[i].name != lines[j].name)
    && (forall name | name in names :: exists i :: 0 <= i < |lines| && lines[i].name == name)
  }

  lemma ListsNothing(columns: map<string, seq<Column>>, tableIds: map<string, int>)
    ensures Lists([], columns, tableIds, columns.Keys - columns.Keys)
  {
  }

  lemma ListsNext(lines: seq<TableLine>, columns: map<string, seq<Column>>, tableIds: map<string, int>,
                  names: set<string>, name: string)
    requires Lists(lines, columns, tableIds, names) && name !in names && name in columns && name in tableIds
    ensures Lists(lines + [TableLine(name, tableIds[name], columns[name])], columns, tableIds, names + {name})
  {
    var lines' := lines + [TableLine(name, tableIds[name], columns[name])];
    forall n | n in names + {name} ensures exists i :: 0 <= i < |lines'| && lines'[i].name == n {
      if n == name {
        assert lines'[|lines|].name == n;
      } else {
        var i :| 0 <= i < |lines| && lines[i].name == n;
        assert lines'[i].name == n;
      }
    }
  }

  /** The file lists the maps, so it finds in itself what the maps say. */
  lemma ListedIsFound(lines: seq<TableLine>, columns: map<string, seq<Column>>, tableIds: map<string, int>)
    requires Lists(lines, columns, tableIds, columns.Keys) && columns.Keys == tableIds.Keys
    requires forall name: string | name in columns :: columns[name] != []
    ensures forall name: string ::
              LineFor(lines, name) == if name in columns then Some(TableLine(name, tableIds[name], columns[name]))
                  else None
  {
    forall name: string
      ensures LineFor(lines, name) == if name in columns then Some(TableLine(name, tableIds[name], columns[name]))
              else None
    {
      if name in columns {
        var i :| 0 <= i < |lines| && lines[i].name == name;
        FoundAt(lines, i);
      } else {
        FoundIsLine(lines, name);
      }
    }
  }

  lemma {:induction false} FoundAt(lines: seq<TableLine>, i: nat)
    requires i < |lines| && lines[i].columns != []
    requires forall j | i < j < |lines| :: lines[j].name != lines[i].name
    ensures LineFor(lines, lines[i].name) == Some(lines[i])
  {
    if i < |lines| - 1 {
      FoundAt(lines[..|lines| - 1], i);
    }
  }

  /** What `Shows` and `CatalogOk` say of one table. */
  lemma ShownTable(lines: seq<TableLine>, columns: map<string, seq<Column>>, tableIds: map<string, int>, name: string)
    requires Shows(lines, columns, tableIds) && CatalogOk(lines) && name in columns
    ensures name in tableIds && 0 < tableIds[name] <= MaxId(lines) && columns[name] != []
    ensures LineFor(lines, name) == Some(TableLine(name, tableIds[name], columns[name]))
  {
    FoundIsLine(lines, name);
  }

  lemma ListedIsOk(lines: seq<TableLine>, columns: map<string, seq<Column>>, tableIds: map<string, int>)
    requires Lists(lines, columns, tableIds, columns.Keys) && columns.Keys == tableIds.Keys
    requires forall name: string | name in columns :: columns[name] != [] && tableIds[name] > 0
    requires forall a: string, b: string | a in columns && b in columns && a != b :: tableIds[a] != tableIds[b]
    ensures CatalogOk(lines) && Shows(lines, columns, tableIds)
  {
    forall i, j | 0 <= i < j < |lines| ensures lines[i].name != lines[j].name && lines[i].id != lines[j].id {
      assert lines[i].name in columns && lines[j].name in columns;
    }
    ListedShows(lines, columns, tableIds);
  }

  lemma ListedShows(lines: seq<TableLine>, columns: map<string, seq<Column>>, tableIds: map<string, int>)
    requires Lists(lines, columns, tableIds, columns.Keys) && columns.Keys == tableIds.Keys
    requires forall name: string | name in columns :: columns[name] != []
    ensures Shows(lines, columns, tableIds)
  {
    ListedIsFound(lines, columns, tableIds);
    hide Lists, LineFor;
  }

  lemma {:induction false} MaxIdAtMost(lines: seq<TableLine>, m: nat)
    requires forall i | 0 <= i < |lines| :: lines[i].id <= m
    ensures MaxId(lines) <= m
  {
    if |lines| > 0 {
      MaxIdAtMost(lines[..|lines| - 1], m);
    }
  }

  lemma CreatedShows(lines: seq<TableLine>, cols: map<string, seq<Column>>, ids: map<string, int>, id: int,
                     name: string, columns: seq<Column>, lines': seq<TableLine>)
    requires Shows(lines, cols, ids) && CatalogOk(lines) && MaxId(lines) < id && name !in cols && columns != []
    requires Lists(lines', cols[name := columns], ids[name := id], cols[name := columns].Keys)
    ensures CatalogOk(lines') && Shows(lines', cols[name := columns], ids[name := id]) && MaxId(lines') < id + 1
    ensures LineFor(lines, name).None? && !Live(lines, id)
    ensures LineFor(lines', name) == Some(TableLine(name, id, columns))
    ensures forall other | other != name :: LineFor(lines', other) == LineFor(lines, other)
  {
    var cols', ids' := cols[name := columns], ids[name := id];
    forall n | n in cols ensures n in ids && 0 < ids[n] <= MaxId(lines) && cols[n] != []
      && LineFor(lines, n) == Some(TableLine(n, ids[n], cols[n]))
    {
      ShownTable(lines, cols, ids, n);
    }
    assert cols'.Keys == ids'.Keys;
    forall a: string, b: string | a in cols' && b in cols' && a != b ensures ids'[a] != ids'[b] {
      if a in cols && b in cols {
        IdsDiffer(lines, a, b);
      }
    }
    ListedIsOk(lines', cols', ids');
    ListedIsFound(lines', cols', ids');
    MaxIdAtMost(lines', id);
  }

  lemma DroppedShows(lines: seq<TableLine>, cols: map<string, seq<Column>>, ids: map<string, int>, name: string,
                     lines': seq<TableLine>)
    requires Shows(lines, cols, ids) && CatalogOk(lines)
    requires Lists(lines', cols - {name}, ids - {name}, (cols - {name}).Keys)
    ensures CatalogOk(lines') && Shows(lines', cols - {name}, ids - {name}) && MaxId(lines') <= MaxId(lines)
    ensures LineFor(lines', name).None?
    ensures forall other | other != name :: LineFor(lines', other) == LineFor(lines, other)
  {
    hide LineFor;
    var cols', ids' := cols - {name}, ids - {name};
    forall n | n in cols ensures n in ids && 0 < ids[n] <= MaxId(lines) && cols[n] != []
      && LineFor(lines, n) == Some(TableLine(n, ids[n], cols[n]))
    {
      ShownTable(lines, cols, ids, n);
    }
    assert cols'.Keys == ids'.Keys;
    forall a: string, b: string | a in cols' && b in cols' && a != b ensures ids'[a] != ids'[b] {
      IdsDiffer(lines, a, b);
    }
    ListedIsOk(lines', cols', ids');
    ListedIsFound(lines', cols', ids');
    MaxIdAtMost(lines', MaxId(lines));
  }
}
