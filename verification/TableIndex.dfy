// How the index of a table and the rows on its pages belong together.
module TableIndex {
  import opened Sequences
  import opened Wrappers
  import opened StringUtils
  import opened Sql
  import opened Pages
  import opened TableRows
  import opened BPlusGraph
  import opened Values

  // ---- Entries for rows -------------------------------------------------------------------

  function EntryFor(scheme: seq<Column>, x: Stored): seq<IndexRecord>
  {
    match TextKey(scheme, x.text)
    case None => []
    case Some(key) => [IndexRecord(key, x.pageId, x.offset)]
  }

  /** One entry for each row that has a key. */
  function EntriesFor(scheme: seq<Column>, rows: seq<Stored>): seq<IndexRecord>
  {
    if |rows| == 0 then [] else EntryFor(scheme, rows[0]) + EntriesFor(scheme, rows[1..])
  }

  lemma {:induction false} EntriesAppend(scheme: seq<Column>, a: seq<Stored>, b: seq<Stored>)
    ensures EntriesFor(scheme, a + b) == EntriesFor(scheme, a) + EntriesFor(scheme, b)
  {
    if |a| == 0 {
      assert a + b == b;
    } else {
      assert (a + b)[1..] == a[1..] + b;
      EntriesAppend(scheme, a[1..], b);
      Regroups(EntryFor(scheme, a[0]), EntriesFor(scheme, a[1..]), EntriesFor(scheme, b));
    }
  }

  lemma EntriesNext(scheme: seq<Column>, rows: seq<Stored>, x: Stored)
    ensures EntriesFor(scheme, rows + [x]) == EntriesFor(scheme, rows) + EntryFor(scheme, x)
  {
    EntriesAppend(scheme, rows, [x]);
    assert [x][1..] == [];
    assert EntriesFor(scheme, [x]) == EntryFor(scheme, x) + EntriesFor(scheme, []);
  }

  /** The index holds exactly the entries for these rows, each as often as it should. */
  ghost predicate Indexes(contents: seq<IndexRecord>, scheme: seq<Column>, rows: seq<Stored>)
  {
    multiset(contents) == multiset(EntriesFor(scheme, rows))
  }

  lemma AddedIsBag(before: seq<IndexRecord>, after: seq<IndexRecord>, rec: IndexRecord)
    requires Added(before, after, rec)
    ensures multiset(after) == multiset(before) + multiset{rec}
  {
    var p: nat :| p <= |before| && after == InsertAt(before, p, rec);
    assert before == before[..p] + before[p..];
  }

  lemma IndexesNext(contents: seq<IndexRecord>, contents': seq<IndexRecord>, scheme: seq<Column>, rows: seq<Stored>,
                    x: Stored)
    requires Indexes(contents, scheme, rows)
    requires match TextKey(scheme, x.text)
             case None => contents' == contents
             case Some(key) => Added(contents, contents', IndexRecord(key, x.pageId, x.offset))
    ensures Indexes(contents', scheme, rows + [x])
  {
    EntriesNext(scheme, rows, x);
    if TextKey(scheme, x.text).Some? {
      var rec := IndexRecord(TextKey(scheme, x.text).value, x.pageId, x.offset);
      AddedIsBag(contents, contents', rec);
      assert multiset(EntriesFor(scheme, rows) + [rec]) == multiset(EntriesFor(scheme, rows)) + multiset{rec};
    } else {
      assert EntriesFor(scheme, rows) + [] == EntriesFor(scheme, rows);
    }
  }

  lemma {:induction false} EntryHasRow(scheme: seq<Column>, rows: seq<Stored>, rec: IndexRecord) returns (i: nat)
    requires rec in EntriesFor(scheme, rows)
    ensures i < |rows| && EntryFor(scheme, rows[i]) == [rec]
  {
    if rec in EntryFor(scheme, rows[0]) {
      i := 0;
    } else {
      i := EntryHasRow(scheme, rows[1..], rec);
      i := i + 1;
    }
  }

  lemma {:induction false} RowHasEntry(scheme: seq<Column>, rows: seq<Stored>, i: nat)
    requires i < |rows|
    ensures forall rec | rec in EntryFor(scheme, rows[i]) :: rec in EntriesFor(scheme, rows)
  {
    if i > 0 {
      RowHasEntry(scheme, rows[1..], i - 1);
    }
  }

  /** Entries and rows correspond: every entry points at a row with its key, and every row with a key has its entry. */
  lemma EntriesCorrespond(contents: seq<IndexRecord>, scheme: seq<Column>, rows: seq<Stored>)
    requires Indexes(contents, scheme, rows)
    ensures forall rec | rec in contents ::
              exists i :: 0 <= i < |rows| && rows[i].pageId == rec.pageId && rows[i].offset == rec.offset
                          && TextKey(scheme, rows[i].text) == Some(rec.key)
    ensures forall i, key {:trigger rows[i], IndexRecord(key, rows[i].pageId, rows[i].offset)} |
              0 <= i < |rows| && TextKey(scheme, rows[i].text) == Some(key) ::
              IndexRecord(key, rows[i].pageId, rows[i].offset) in contents
  {
    var entries := EntriesFor(scheme, rows);
    forall rec | rec in contents
      ensures exists i :: 0 <= i < |rows| && rows[i].pageId == rec.pageId && rows[i].offset == rec.offset
                          && TextKey(scheme, rows[i].text) == Some(rec.key)
    {
      assert rec in multiset(contents) && rec in multiset(entries);
      var i := EntryHasRow(scheme, rows, rec);
      assert EntryFor(scheme, rows[i])[0] == rec;
    }
    forall i, key | 0 <= i < |rows| && TextKey(scheme, rows[i].text) == Some(key)
      ensures IndexRecord(key, rows[i].pageId, rows[i].offset) in contents
    {
      RowHasEntry(scheme, rows, i);
      assert IndexRecord(key, rows[i].pageId, rows[i].offset) in EntryFor(scheme, rows[i]);
      assert IndexRecord(key, rows[i].pageId, rows[i].offset) in multiset(entries);
      assert IndexRecord(key, rows[i].pageId, rows[i].offset) in multiset(contents);
    }
  }

  /** No two rows lie at the same place, so the correspondence is one to one. */
  lemma {:induction false} PlacesDiffer(pages: seq<Image>, ids: seq<nat>, i: nat, j: nat)
    requires InFile(pages, ids) && Distinct(ids) && i < j < |Located(pages, ids)|
    ensures var rows := Located(pages, ids);
            rows[i].pageId != rows[j].pageId || rows[i].offset != rows[j].offset
    decreases |ids|
  {
    var here, rest := OnPage(ids[0], Rows(pages[ids[0]])), ids[1..];
    assert forall k | 0 <= k < |rest| :: rest[k] == ids[k + 1];
    if i < |here| {
      if |here| <= j {
        var x := Located(pages, rest)[j - |here|];
        RowIsThere(pages, rest, x);
        assert x.pageId != ids[0];
      }
    } else {
      PlacesDiffer(pages, rest, i - |here|, j - |here|);
    }
  }

  /** A located row is read back from its place. */
  lemma {:induction false} RowIsThere(pages: seq<Image>, ids: seq<nat>, x: Stored)
    requires InFile(pages, ids) && x in Located(pages, ids)
    ensures x.pageId in ids && x.pageId < |pages|
    ensures x.offset < |Rows(pages[x.pageId])| && Rows(pages[x.pageId])[x.offset] == x.text
    decreases |ids|
  {
    var here := OnPage(ids[0], Rows(pages[ids[0]]));
    if x !in here {
      assert x in Located(pages, ids[1..]);
      RowIsThere(pages, ids[1..], x);
    }
  }

  // ---- Unique keys ------------------------------------------------------------------------

  /** No two rows share a key. */
  ghost predicate KeysUnique(scheme: seq<Column>, bag: multiset<string>)
  {
    forall s, t | s in bag && t in bag && TextKey(scheme, s).Some? && TextKey(scheme, s) == TextKey(scheme, t) ::
      s == t && bag[s] == 1
  }

  lemma TwiceInBag<T>(s: seq<T>, i: nat, j: nat)
    requires i < j < |s| && s[i] == s[j]
    ensures multiset(s)[s[i]] >= 2
  {
    assert s == s[..j] + s[j..];
    assert multiset(s) == multiset(s[..j]) + multiset(s[j..]);
    assert s[..j][i] == s[i] && s[j..][0] == s[j];
    assert s[i] in s[..j] && s[j] in s[j..];
  }

  lemma KeyOnce(scheme: seq<Column>, texts: seq<string>, i: nat, j: nat)
    requires KeysUnique(scheme, multiset(texts)) && i < |texts| && j < |texts| && i != j
    requires TextKey(scheme, texts[i]).Some?
    ensures TextKey(scheme, texts[i]) != TextKey(scheme, texts[j])
  {
    assert texts[i] in multiset(texts) && texts[j] in multiset(texts);
    if texts[i] == texts[j] {
      TwiceInBag(texts, if i < j then i else j, if i < j then j else i);
    }
  }

  // ---- What an insertion answers ----------------------------------------------------------

  /** Why a row is refused before anything is written. */
  ghost function RowError(scheme: seq<Column>, stored: multiset<string>, row: Row): Option<TableError>
  {
    if ShapeError(scheme, row).Some? then ShapeError(scheme, row)
    else if KeyOverflows(scheme, row) then Some(INDEX_INSERTION_FAILED)
    else if KeyOf(scheme, row).Some? && KeyTaken(scheme, stored, KeyOf(scheme, row).value) then Some(DUPLICATE_KEY)
    else None
  }

  ghost predicate KeyTaken(scheme: seq<Column>, stored: multiset<string>, key: int)
  {
    exists t :: t in stored && TextKey(scheme, t) == Some(key)
  }

  // ---- Scanning ---------------------------------------------------------------------------

  /** What a full scan selects. */
  function Scanned(num: NumberParser, scheme: seq<Column>, cond: Option<Condition>, texts: seq<string>): seq<Row>
  {
    if |texts| == 0 then []
    else
      var row := RowOf(texts[0]);
      (if Selects(num, scheme, cond, row) then [row] else []) + Scanned(num, scheme, cond, texts[1..])
  }

  lemma {:induction false} ScannedAppend(num: NumberParser, scheme: seq<Column>, cond: Option<Condition>,
                                         a: seq<string>, b: seq<string>)
    ensures Scanned(num, scheme, cond, a + b) == Scanned(num, scheme, cond, a) + Scanned(num, scheme, cond, b)
  {
    if |a| == 0 {
      assert a + b == b;
    } else {
      assert (a + b)[1..] == a[1..] + b;
      ScannedAppend(num, scheme, cond, a[1..], b);
    }
  }

  lemma {:induction false} ScanFindsNothing(num: NumberParser, scheme: seq<Column>, cond: Option<Condition>,
                                            texts: seq<string>)
    requires forall i | 0 <= i < |texts| :: !Selects(num, scheme, cond, RowOf(texts[i]))
    ensures Scanned(num, scheme, cond, texts) == []
  {
    if |texts| > 0 {
      assert !Selects(num, scheme, cond, RowOf(texts[0]));
      ScanFindsNothing(num, scheme, cond, texts[1..]);
    }
  }

  lemma ScanFindsOne(num: NumberParser, scheme: seq<Column>, cond: Option<Condition>, texts: seq<string>, i: nat)
    requires i < |texts|
    requires forall j | 0 <= j < |texts| :: Selects(num, scheme, cond, RowOf(texts[j])) <==> j == i
    ensures Scanned(num, scheme, cond, texts) == [RowOf(texts[i])]
  {
    var a, x, b := texts[..i], [texts[i]], texts[i + 1..];
    assert texts == a + (x + b);
    ScannedAppend(num, scheme, cond, a, x + b);
    ScannedAppend(num, scheme, cond, x, b);
    ScanFindsNothing(num, scheme, cond, a);
    forall j | 0 <= j < |b| ensures !Selects(num, scheme, cond, RowOf(b[j])) {
      assert b[j] == texts[i + 1 + j];
    }
    ScanFindsNothing(num, scheme, cond, b);
    assert x[1..] == [];
  }

  ghost predicate AllHealthy(scheme: seq<Column>, texts: seq<string>)
  {
    forall i | 0 <= i < |texts| :: Healthy(scheme, texts[i])
  }

  function KeyCondition(scheme: seq<Column>, literal: string): Condition
    requires Keyed(scheme)
  {
    Condition(scheme[0].name, Some(literal), "=")
  }

  /** No entry for the key of the literal: a scan finds nothing either. */
  lemma MissAgrees(num: NumberParser, scheme: seq<Column>, literal: string, contents: seq<IndexRecord>,
                   rows: seq<Stored>)
    requires ExactOnInts(num) && Keyed(scheme) && LiteralKey(num, literal).Some?
    requires Indexes(contents, scheme, rows) && AllHealthy(scheme, Texts(rows))
    requires !HasKey(contents, LiteralKey(num, literal).value)
    ensures Scanned(num, scheme, Some(KeyCondition(scheme, literal)), Texts(rows)) == []
  {
    var key, texts := LiteralKey(num, literal).value, Texts(rows);
    EntriesCorrespond(contents, scheme, rows);
    forall i | 0 <= i < |texts| ensures !Selects(num, scheme, Some(KeyCondition(scheme, literal)), RowOf(texts[i])) {
      KeyLookupIsCondition(num, scheme, literal, texts[i]);
      assert Healthy(scheme, texts[i]);
      var x := rows[i];
      var rec := IndexRecord(key, x.pageId, x.offset);
      assert TextKey(scheme, x.text) == Some(key) ==> rec in contents;
    }
    ScanFindsNothing(num, scheme, Some(KeyCondition(scheme, literal)), texts);
  }

  /** The row that the entry points at is exactly what a scan finds, provided that keys are unique. */
  lemma HitAgrees(num: NumberParser, scheme: seq<Column>, literal: string, contents: seq<IndexRecord>,
                  rows: seq<Stored>, rec: IndexRecord) returns (i: nat)
    requires ExactOnInts(num) && Keyed(scheme) && LiteralKey(num, literal).Some?
    requires Indexes(contents, scheme, rows) && AllHealthy(scheme, Texts(rows))
    requires KeysUnique(scheme, multiset(Texts(rows)))
    requires rec in contents && rec.key == LiteralKey(num, literal).value
    ensures i < |rows| && rows[i].pageId == rec.pageId && rows[i].offset == rec.offset
    ensures Scanned(num, scheme, Some(KeyCondition(scheme, literal)), Texts(rows)) == [RowOf(rows[i].text)]
  {
    var texts := Texts(rows);
    EntriesCorrespond(contents, scheme, rows);
    i :| 0 <= i < |rows| && rows[i].pageId == rec.pageId && rows[i].offset == rec.offset
         && TextKey(scheme, rows[i].text) == Some(rec.key);
    forall j | 0 <= j < |texts|
      ensures Selects(num, scheme, Some(KeyCondition(scheme, literal)), RowOf(texts[j])) <==> j == i
    {
      KeyLookupIsCondition(num, scheme, literal, texts[j]);
      if j != i {
        KeyOnce(scheme, texts, i, j);
      }
    }
    ScanFindsOne(num, scheme, Some(KeyCondition(scheme, literal)), texts, i);
  }
}
