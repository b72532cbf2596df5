// Text encodings shared by the row store and the write-ahead log.
module StringUtils {
  import opened Sequences
  import opened Wrappers

  /** A column value; `None` is SQL NULL. */
  type Value = Option<string>

  // ---- Percent-encoding -------------------------------------------------------------------

  function EncodeChar(c: char): string
  {
    if c == '%' then "%25"
    else if c == '|' then "%7C"
    else if c == '~' then "%7E"
    else if c == '\n' then "%0A"
    else if c == '\r' then "%0D"
    else [c]
  }

  function Encoded(s: string): string
  {
    if |s| == 0 then "" else EncodeChar(s[0]) + Encoded(s[1..])
  }

  function HexVal(c: char): (h: int)
    ensures -1 <= h < 16
  {
    if '0' <= c <= '9' then c as int - '0' as int
    else if 'a' <= c <= 'f' then c as int - 'a' as int + 10
    else if 'A' <= c <= 'F' then c as int - 'A' as int + 10
    else -1
  }

  /** `s` begins with an escape: '%' and two hexadecimal digits. */
  predicate StartsEscape(s: string)
  {
    |s| > 2 && s[0] == '%' && HexVal(s[1]) >= 0 && HexVal(s[2]) >= 0
  }

  function Decoded(s: string): string
  {
    if |s| == 0 then ""
    else if StartsEscape(s) then [(16 * HexVal(s[1]) + HexVal(s[2])) as char] + Decoded(s[3..])
    else [s[0]] + Decoded(s[1..])
  }

  method WalEncode(s: string) returns (out: string)
    ensures out == Encoded(s)
  {
    out := "";
    var i := 0;
    while i < |s|
      invariant i <= |s| && out + Encoded(s[i..]) == Encoded(s)
    {
      assert s[i..][0] == s[i] && s[i..][1..] == s[i + 1..];
      out := out + EncodeChar(s[i]);
      i := i + 1;
    }
    assert s[i..] == [];
  }

  method WalDecode(s: string) returns (out: string)
    ensures out == Decoded(s)
  {
    out := "";
    var i := 0;
    while i < |s|
      invariant i <= |s| && out + Decoded(s[i..]) == Decoded(s)
    {
      DecodedAt(s, i);
      if s[i] == '%' && i + 2 < |s| {
        var h, l := HexVal(s[i + 1]), HexVal(s[i + 2]);
        if h >= 0 && l >= 0 {
          Regroup(out, (16 * h + l) as char, Decoded(s[i + 3..]));
          out := out + [(16 * h + l) as char];
          i := i + 2;
        } else {
          Regroup(out, s[i], Decoded(s[i + 1..]));
          out := out + [s[i]];
        }
      } else {
        Regroup(out, s[i], Decoded(s[i + 1..]));
        out := out + [s[i]];
      }
      i := i + 1;
    }
    assert s[i..] == [];
  }

  lemma DecodedAt(s: string, i: nat)
    requires i < |s|
    ensures Decoded(s[i..]) ==
            if s[i] == '%' && i + 2 < |s| && HexVal(s[i + 1]) >= 0 && HexVal(s[i + 2]) >= 0
            then [(16 * HexVal(s[i + 1]) + HexVal(s[i + 2])) as char] + Decoded(s[i + 3..])
            else [s[i]] + Decoded(s[i + 1..])
  {
    assert i + 2 < |s| ==> s[i..][3..] == s[i + 3..];
    assert s[i..][1..] == s[i + 1..];
  }

  /** An escape stands for the character with that number, in hexadecimal digits of either kind. */
  lemma EscapeMeans(i: nat, j: nat, h: char, l: char, rest: string)
    requires i < 16 && j < 16
    requires (h == "0123456789ABCDEF"[i] || h == "0123456789abcdef"[i])
             && (l == "0123456789ABCDEF"[j] || l == "0123456789abcdef"[j])
    ensures Decoded(['%', h, l] + rest) == [(16 * i + j) as char] + Decoded(rest)
  {
    hide Decoded;
    assert HexVal(h) == i && HexVal(l) == j;
    EscapeDecodes(h, l, rest);
  }

  lemma EscapeDecodes(h: char, l: char, rest: string)
    requires HexVal(h) >= 0 && HexVal(l) >= 0
    ensures Decoded(['%', h, l] + rest) == [(16 * HexVal(h) + HexVal(l)) as char] + Decoded(rest)
  {
    assert (['%', h, l] + rest)[3..] == rest;
  }

  lemma {:induction false} DecodeEncode(s: string)
    ensures Decoded(Encoded(s)) == s
  {
    if |s| > 0 {
      DecodeEncode(s[1..]);
      DecodeOne(s[0], Encoded(s[1..]));
    }
  }

  lemma DecodeOne(c: char, rest: string)
    ensures Decoded(EncodeChar(c) + rest) == [c] + Decoded(rest)
  {
    var s := EncodeChar(c) + rest;
    if |EncodeChar(c)| == 3 {
      assert StartsEscape(s) && s[3..] == rest;
    } else {
      assert s[1..] == rest;
    }
  }

  /** No delimiter and no line break survives in an encoded text. */
  lemma {:induction false} EncodedIsClean(s: string)
    ensures forall c | c in Encoded(s) :: c != '|' && c != '~' && c != '\n' && c != '\r'
  {
    if |s| > 0 {
      EncodedIsClean(s[1..]);
    }
  }

  // ---- Values -----------------------------------------------------------------------------

  /** Stands for NULL; no encoded string can be equal to it. */
  const NULL_MARKER: string := "%N"

  function EncodeValue(v: Value): string
  {
    match v
    case Some(s) => Encoded(s)
    case None => NULL_MARKER
  }

  function DecodeValue(s: string): Value
  {
    if s == NULL_MARKER then None else Some(Decoded(s))
  }

  lemma MarkerIsUnambiguous(s: string)
    ensures Encoded(s) != NULL_MARKER
  {
    if |s| > 0 {
      if s[0] == '%' {
        assert |Encoded(s)| >= 3;
      } else if EncodeChar(s[0]) == [s[0]] {
        assert Encoded(s)[0] == s[0];
      } else {
        assert |Encoded(s)| >= 3;
      }
    }
  }

  lemma ValueRoundTrip(v: Value)
    ensures DecodeValue(EncodeValue(v)) == v
  {
    if v.Some? {
      MarkerIsUnambiguous(v.value);
      DecodeEncode(v.value);
    }
  }

  lemma ValueIsClean(v: Value)
    ensures forall c | c in EncodeValue(v) :: c != '|' && c != '~' && c != '\n' && c != '\r'
  {
    if v.Some? {
      EncodedIsClean(v.value);
    }
  }

  // ---- Splitting and joining --------------------------------------------------------------

  /** The fields between the delimiters; there is always at least one, perhaps empty. */
  function Fields(s: string, delimiter: char): (fields: seq<string>)
    ensures |fields| >= 1
  {
    if |s| == 0 then [""]
    else
      var rest := Fields(s[1..], delimiter);
      if s[0] == delimiter then [""] + rest else [[s[0]] + rest[0]] + rest[1..]
  }

  /** Like `Fields`, but an empty field at the very end is dropped. */
  function Pieces(s: string, delimiter: char): seq<string>
  {
    var fields := Fields(s, delimiter);
    if fields[|fields| - 1] == "" then fields[..|fields| - 1] else fields
  }

  function Join(fields: seq<string>, delimiter: char): string
  {
    if |fields| == 0 then ""
    else if |fields| == 1 then fields[0]
    else fields[0] + [delimiter] + Join(fields[1..], delimiter)
  }

  lemma {:induction false} FieldsOfPrefix(a: string, delimiter: char, rest: string)
    requires delimiter !in a
    ensures Fields(a + [delimiter] + rest, delimiter) == [a] + Fields(rest, delimiter)
  {
    var s := a + [delimiter] + rest;
    if |a| == 0 {
      assert s[1..] == rest;
    } else {
      assert s[1..] == a[1..] + [delimiter] + rest;
      FieldsOfPrefix(a[1..], delimiter, rest);
      assert ([a[1..]] + Fields(rest, delimiter))[1..] == Fields(rest, delimiter);
      assert [a[0]] + a[1..] == a;
    }
  }

  lemma {:induction false} FieldsOfOne(a: string, delimiter: char)
    requires delimiter !in a
    ensures Fields(a, delimiter) == [a]
  {
    if |a| > 0 {
      FieldsOfOne(a[1..], delimiter);
      assert [a[0]] + a[1..] == a;
    }
  }

  lemma {:induction false} FieldsOfJoin(fields: seq<string>, delimiter: char)
    requires |fields| >= 1 && forall f | f in fields :: delimiter !in f
    ensures Fields(Join(fields, delimiter), delimiter) == fields
  {
    if |fields| == 1 {
      FieldsOfOne(fields[0], delimiter);
    } else {
      FieldsOfPrefix(fields[0], delimiter, Join(fields[1..], delimiter));
      FieldsOfJoin(fields[1..], delimiter);
    }
  }

  lemma {:induction false} JoinOfFields(s: string, delimiter: char)
    ensures Join(Fields(s, delimiter), delimiter) == s
  {
    if |s| > 0 {
      var rest := Fields(s[1..], delimiter);
      JoinOfFields(s[1..], delimiter);
      if s[0] == delimiter {
        assert ([""] + rest)[1..] == rest;
      } else {
        assert ([[s[0]] + rest[0]] + rest[1..])[1..] == rest[1..];
      }
      assert [s[0]] + s[1..] == s;
    }
  }

  method SplitFields(s: string, delimiter: char) returns (fields: seq<string>)
    ensures fields == Fields(s, delimiter)
  {
    fields := [];
    var start := 0;
    while true
      invariant start <= |s| && fields + Fields(s[start..], delimiter) == Fields(s, delimiter)
      decreases |s| - start
    {
      var pos := Find(s, delimiter, start);
      if pos == |s| {
        FieldsOfOne(s[start..], delimiter);
        return fields + [s[start..]];
      }
      assert s[start..] == s[start..pos] + [delimiter] + s[pos + 1..];
      FieldsOfPrefix(s[start..pos], delimiter, s[pos + 1..]);
      Regroup(fields, s[start..pos], Fields(s[pos + 1..], delimiter));
      fields := fields + [s[start..pos]];
      start := pos + 1;
    }
  }

  /** The first place of `c` in `s` at or after `start`, or the length of `s`. */
  method Find(s: string, c: char, start: nat) returns (pos: nat)
    requires start <= |s|
    ensures start <= pos <= |s| && c !in s[start..pos] && (pos < |s| ==> s[pos] == c)
  {
    pos := start;
    while pos < |s| && s[pos] != c
      invariant start <= pos <= |s| && c !in s[start..pos]
    {
      pos := pos + 1;
    }
  }

  lemma PiecesOfPrefix(a: string, delimiter: char, rest: string)
    requires delimiter !in a
    ensures Pieces(a + [delimiter] + rest, delimiter) == [a] + Pieces(rest, delimiter)
  {
    FieldsOfPrefix(a, delimiter, rest);
  }

  function PiecesFrom(s: string, delimiter: char, start: nat): seq<string>
  {
    if start <= |s| then Pieces(s[start..], delimiter) else []
  }

  lemma PiecesStep(s: string, delimiter: char, start: nat, pos: nat)
    requires start < |s| && start <= pos <= |s| && delimiter !in s[start..pos] && (pos < |s| ==> s[pos] == delimiter)
    ensures PiecesFrom(s, delimiter, start) == [s[start..pos]] + PiecesFrom(s, delimiter, pos + 1)
  {
    if pos < |s| {
      assert s[start..] == s[start..pos] + [delimiter] + s[pos + 1..];
      PiecesOfPrefix(s[start..pos], delimiter, s[pos + 1..]);
    } else {
      assert s[start..pos] == s[start..];
      FieldsOfOne(s[start..], delimiter);
    }
  }

  method Split(s: string, delimiter: char) returns (tokens: seq<string>)
    ensures tokens == Pieces(s, delimiter)
  {
    tokens := [];
    var start := 0;
    assert s[0..] == s;
    ghost var all := PiecesFrom(s, delimiter, 0);
    while start < |s|
      invariant start <= |s| + 1
      invariant tokens + PiecesFrom(s, delimiter, start) == all
      decreases |s| - start
    {
      var pos := Find(s, delimiter, start);
      PiecesStep(s, delimiter, start, pos);
      Regroup(tokens, s[start..pos], PiecesFrom(s, delimiter, pos + 1));
      tokens := tokens + [s[start..pos]];
      start := pos + 1;
    }
    PiecesAtEnd(s, delimiter, start);
  }

  lemma PiecesAtEnd(s: string, delimiter: char, start: nat)
    requires |s| <= start
    ensures PiecesFrom(s, delimiter, start) == []
  {
  }

  /** Nothing is lost when the text does not end in the delimiter. */
  lemma PiecesOfJoin(fields: seq<string>, delimiter: char)
    requires |fields| >= 1 && forall f | f in fields :: delimiter !in f
    requires fields[|fields| - 1] != ""
    ensures Pieces(Join(fields, delimiter), delimiter) == fields
  {
    FieldsOfJoin(fields, delimiter);
  }

  // ---- Rows -------------------------------------------------------------------------------

  function EncodedFields(values: seq<Value>): (fields: seq<string>)
    ensures |fields| == |values|
    ensures forall i | 0 <= i < |values| :: fields[i] == EncodeValue(values[i])
  {
    seq(|values|, i requires 0 <= i < |values| => EncodeValue(values[i]))
  }

  /** A row as it is stored on a page and in the log. */
  function RowText(values: seq<Value>): string
  {
    Join(EncodedFields(values), '|')
  }

  function DecodedFields(fields: seq<string>): (values: seq<Value>)
    ensures |values| == |fields|
    ensures forall i | 0 <= i < |fields| :: values[i] == DecodeValue(fields[i])
  {
    seq(|fields|, i requires 0 <= i < |fields| => DecodeValue(fields[i]))
  }

  function RowOf(text: string): seq<Value>
  {
    DecodedFields(Fields(text, '|'))
  }

  lemma EncodedFieldsClean(values: seq<Value>)
    ensures forall f, c | f in EncodedFields(values) && c in f :: c != '|' && c != '~' && c != '\n' && c != '\r'
  {
    forall f, c | f in EncodedFields(values) && c in f ensures c != '|' && c != '~' && c != '\n' && c != '\r' {
      var i :| 0 <= i < |values| && f == EncodeValue(values[i]);
      ValueIsClean(values[i]);
    }
  }

  /** Reading a stored row gives the same values back, for every row that has any. */
  lemma RowRoundTrip(values: seq<Value>)
    ensures RowOf(RowText(values)) == values <==> values != []
  {
    if values != [] {
      EncodedFieldsClean(values);
      FieldsOfJoin(EncodedFields(values), '|');
      forall i | 0 <= i < |values| ensures RowOf(RowText(values))[i] == values[i] {
        ValueRoundTrip(values[i]);
      }
    } else {
      assert RowOf(RowText(values)) != [];
    }
  }

  lemma {:induction false} JoinIsClean(fields: seq<string>, delimiter: char, bad: char)
    requires delimiter != bad && forall f | f in fields :: bad !in f
    ensures bad !in Join(fields, delimiter)
  {
    if |fields| > 1 {
      JoinIsClean(fields[1..], delimiter, bad);
    }
  }

  /** A stored row never contains the line break that ends it. */
  lemma RowTextOneLine(values: seq<Value>)
    ensures '\n' !in RowText(values)
  {
    EncodedFieldsClean(values);
    JoinIsClean(EncodedFields(values), '|', '\n');
  }
}
