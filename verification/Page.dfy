// A page: a header and the rows behind it, each ended by a line break.
module Pages {
  import opened Sequences

  const PAGE_SIZE: nat := 4096
  const HEADER_SIZE: nat := 20

  /** A page as a value: the fields of its header, and its bytes. The first `HEADER_SIZE` of them are where the header
      itself lies; the fields stand for those. */
  datatype Image = Image(pageId: int, tableId: int, freeSpace: int, rowNumber: int, nextRowOffset: int, data: seq<char>)

  predicate Sized(p: Image)
  {
    |p.data| == PAGE_SIZE
  }

  function Zeros(n: nat): (s: seq<char>)
    ensures |s| == n
  {
    seq(n, _ => 0 as char)
  }

  /** What a freed page is overwritten with. */
  function Blank(): Image
  {
    Image(0, 0, 0, 0, 0, Zeros(PAGE_SIZE))
  }

  function Empty(pageId: int, tableId: int): Image
  {
    Image(pageId, tableId, PAGE_SIZE - HEADER_SIZE, 0, HEADER_SIZE, Zeros(PAGE_SIZE))
  }

  // ---- Reading rows -----------------------------------------------------------------------

  /** The first line break at or behind `offset`, or the length of the data. */
  function LineEnd(data: seq<char>, offset: nat): (e: nat)
    requires offset <= |data|
    ensures offset <= e <= |data| && '\n' !in data[offset..e] && (e < |data| ==> data[e] == '\n')
    decreases |data| - offset
  {
    if offset == |data| || data[offset] == '\n' then offset
    else
      var e := LineEnd(data, offset + 1);
      assert data[offset..e] == [data[offset]] + data[offset + 1..e];
      e
  }

  /** The next `count` rows; a row that no line break ends does not count. */
  function RowsFrom(data: seq<char>, offset: nat, count: nat): seq<string>
    decreases count
  {
    if count == 0 || offset >= |data| then []
    else
      var e := LineEnd(data, offset);
      if e == |data| then [] else [data[offset..e]] + RowsFrom(data, e + 1, count - 1)
  }

  function Rows(p: Image): seq<string>
  {
    RowsFrom(p.data, HEADER_SIZE, if p.rowNumber < 0 then 0 else p.rowNumber)
  }

  // ---- What a page in use looks like ------------------------------------------------------

  /** The rows as they lie behind each other. */
  function Lined(rows: seq<string>): seq<char>
  {
    if |rows| == 0 then [] else rows[0] + ['\n'] + Lined(rows[1..])
  }

  /** The header accounts for the rows, which fill the page from its start. */
  ghost predicate InUse(p: Image)
  {
    && Sized(p) && HEADER_SIZE <= p.nextRowOffset <= PAGE_SIZE
    && p.freeSpace + p.nextRowOffset == PAGE_SIZE
    && 0 <= p.rowNumber == |Rows(p)|
    && p.data[HEADER_SIZE..p.nextRowOffset] == Lined(Rows(p))
  }

  lemma {:induction false} RowsOfLined(data: seq<char>, offset: nat, rows: seq<string>)
    requires offset + |Lined(rows)| <= |data| && data[offset..offset + |Lined(rows)|] == Lined(rows)
    requires forall r | r in rows :: '\n' !in r
    ensures RowsFrom(data, offset, |rows|) == rows
    decreases |rows|
  {
    hide RowsFrom, LineEnd;
    RowsEnd(data);
    if |rows| > 0 {
      var e := offset + |rows[0]|;
      LinedHead(data, offset, rows[0], Lined(rows[1..]));
      LineEndIs(data, offset, e);
      RowsStep(data, offset, |rows|);
      RowsOfLined(data, e + 1, rows[1..]);
      assert [rows[0]] + rows[1..] == rows;
    }
  }

  lemma LinedHead(data: seq<char>, offset: nat, row: string, rest: seq<char>)
    requires offset + |row + ['\n'] + rest| <= |data|
    requires data[offset..offset + |row + ['\n'] + rest|] == row + ['\n'] + rest
    ensures var e := offset + |row|;
            && data[offset..e] == row && data[e] == '\n'
            && e + 1 + |rest| <= |data| && data[e + 1..e + 1 + |rest|] == rest
  {
    var here, e := data[offset..offset + |row + ['\n'] + rest|], offset + |row|;
    assert here[..|row|] == row && here[|row|] == '\n' && here[|row| + 1..] == rest;
    assert data[offset..e] == here[..|row|] && data[e] == here[|row|];
    assert data[e + 1..e + 1 + |rest|] == here[|row| + 1..];
  }

  lemma RowsStep(data: seq<char>, offset: nat, count: nat)
    requires count > 0 && offset < |data|
    ensures var e := LineEnd(data, offset);
            RowsFrom(data, offset, count)
            == if e == |data| then [] else [data[offset..e]] + RowsFrom(data, e + 1, count - 1)
  {
  }

  lemma RowsEnd(data: seq<char>)
    ensures forall offset: nat, count: nat | count == 0 || offset >= |data| :: RowsFrom(data, offset, count) == []
  {
  }

  lemma LineEndIs(data: seq<char>, offset: nat, e: nat)
    requires offset <= e < |data| && '\n' !in data[offset..e] && data[e] == '\n'
    ensures LineEnd(data, offset) == e
  {
    var f := LineEnd(data, offset);
    forall i | offset <= i < e ensures data[i] != '\n' {
      assert data[offset..e][i - offset] == data[i];
    }
    forall i | offset <= i < f ensures data[i] != '\n' {
      assert data[offset..f][i - offset] == data[i];
    }
  }

  lemma {:induction false} RowsHaveNoBreak(data: seq<char>, offset: nat, count: nat)
    ensures forall r | r in RowsFrom(data, offset, count) :: '\n' !in r
    decreases count
  {
    if count > 0 && offset < |data| && LineEnd(data, offset) < |data| {
      RowsHaveNoBreak(data, LineEnd(data, offset) + 1, count - 1);
    }
  }

  lemma {:induction false} LinedAppend(rows: seq<string>, row: string)
    ensures Lined(rows + [row]) == Lined(rows) + (row + ['\n'])
  {
    var line := row + ['\n'];
    if |rows| == 0 {
      assert Lined([row]) == line + Lined([row][1..]);
    } else {
      assert (rows + [row])[1..] == rows[1..] + [row];
      LinedAppend(rows[1..], row);
      Regroups(rows[0] + ['\n'], Lined(rows[1..]), line);
    }
  }

  // ---- Adding a row -----------------------------------------------------------------------

  predicate HasRoom(p: Image, rowSize: int)
  {
    p.freeSpace >= rowSize
  }

  function WithRow(p: Image, row: string): Image
    requires InUse(p) && HasRoom(p, |row| + 1)
  {
    var o := p.nextRowOffset;
    p.(data := p.data[..o] + (row + ['\n']) + p.data[o + |row| + 1..],
       nextRowOffset := o + |row| + 1, freeSpace := p.freeSpace - (|row| + 1), rowNumber := p.rowNumber + 1)
  }

  lemma EmptyInUse(pageId: int, tableId: int)
    ensures InUse(Empty(pageId, tableId)) && Rows(Empty(pageId, tableId)) == []
  {
  }

  /** A row without a line break that fits is read back behind the rows that were there. */
  lemma AddedRowReadsBack(p: Image, row: string)
    requires InUse(p) && HasRoom(p, |row| + 1) && '\n' !in row
    ensures InUse(WithRow(p, row)) && Rows(WithRow(p, row)) == Rows(p) + [row]
  {
    var o, q, rows := p.nextRowOffset, WithRow(p, row), Rows(p) + [row];
    LinedAppend(Rows(p), row);
    RowsHaveNoBreak(p.data, HEADER_SIZE, p.rowNumber);
    assert q.data[HEADER_SIZE..q.nextRowOffset] == p.data[HEADER_SIZE..o] + (row + ['\n']);
    assert Lined(rows) == Lined(Rows(p)) + (row + ['\n']);
    RowsOfLined(q.data, HEADER_SIZE, rows);
  }

  // ---- The page buffer --------------------------------------------------------------------

  class Page {
    var pageId: int
    var tableId: int
    var freeSpace: int
    var rowNumber: int
    var nextRowOffset: int
    const data: array<char>

    ghost predicate Valid()
      reads this
    {
      data.Length == PAGE_SIZE
    }

    function View(): Image
      reads this, data
    {
      Image(pageId, tableId, freeSpace, rowNumber, nextRowOffset, data[..])
    }

    constructor (pageId: int, tableId: int)
      ensures Valid() && fresh(data) && View() == Empty(pageId, tableId)
    {
      this.pageId, this.tableId := pageId, tableId;
      freeSpace, rowNumber, nextRowOffset := PAGE_SIZE - HEADER_SIZE, 0, HEADER_SIZE;
      data := new char[PAGE_SIZE](_ => 0 as char);
    }

    /** A copy of a page that was read. */
    constructor Copy(image: Image)
      requires Sized(image)
      ensures Valid() && fresh(data) && View() == image
    {
      pageId, tableId, freeSpace := image.pageId, image.tableId, image.freeSpace;
      rowNumber, nextRowOffset := image.rowNumber, image.nextRowOffset;
      data := new char[PAGE_SIZE](i requires 0 <= i < PAGE_SIZE => image.data[i]);
    }

    method AddRow(row: string) returns (added: bool)
      requires Valid() && InUse(View())
      modifies this, data
      ensures Valid() && added == HasRoom(old(View()), |row| + 1)
      ensures View() == if added then WithRow(old(View()), row) else old(View())
    {
      if freeSpace < |row| + 1 {
        return false;
      }
      var offset := nextRowOffset;
      CopyIn(offset, row);
      data[offset + |row|] := '\n';
      assert data[..] == old(data[..offset]) + (row + ['\n']) + old(data[offset + |row| + 1..]);
      nextRowOffset := nextRowOffset + |row| + 1;
      freeSpace := freeSpace - (|row| + 1);
      rowNumber := rowNumber + 1;
      return true;
    }

    method CopyIn(offset: nat, row: string)
      requires Valid() && offset + |row| <= PAGE_SIZE
      modifies data
      ensures data[..] == old(data[..offset]) + row + old(data[offset + |row|..])
    {
      var i := 0;
      while i < |row|
        invariant i <= |row|
        invariant data[..] == old(data[..offset]) + row[..i] + old(data[offset + i..])
      {
        data[offset + i] := row[i];
        assert row[..i + 1] == row[..i] + [row[i]];
        i := i + 1;
      }
      assert row[..i] == row;
    }

    method GetRows() returns (rows: seq<string>)
      requires Valid()
      ensures rows == Rows(View())
    {
      hide RowsFrom;
      rows := [];
      var currentOffset, i := HEADER_SIZE, 0;
      RowsEnd(data[..]);
      ghost var d, n := data[..], if rowNumber < 0 then 0 else rowNumber;
      while i < rowNumber
        invariant HEADER_SIZE <= currentOffset <= PAGE_SIZE && i <= n
        invariant rows + RowsFrom(d, currentOffset, n - i) == RowsFrom(d, HEADER_SIZE, n)
      {
        if currentOffset >= PAGE_SIZE {
          break;
        }
        var start := currentOffset;
        currentOffset := ReadRow(start);
        RowsStep(d, start, n - i);
        if currentOffset < PAGE_SIZE {
          Regroup(rows, d[start..currentOffset], RowsFrom(d, currentOffset + 1, n - i - 1));
          rows := rows + [data[start..currentOffset]];
          currentOffset := currentOffset + 1;
        }
        i := i + 1;
      }
    }

    /** The inner loop: the end of the row at `start`. */
    method ReadRow(start: nat) returns (e: nat)
      requires Valid() && start < PAGE_SIZE
      ensures start <= e && e == LineEnd(data[..], start)
    {
      e := start;
      while e < PAGE_SIZE && data[e] != '\n'
        invariant start <= e <= PAGE_SIZE && LineEnd(data[..], e) == LineEnd(data[..], start)
      {
        e := e + 1;
      }
    }
  }
}
