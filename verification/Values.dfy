// Column types, keys and conditions.
module Values {
  import opened Wrappers
  import opened StringUtils
  import opened Sql
  import opened Lexers

  type Row = seq<Value>

  /** How a text is read as a number (`std::stod`). The tables work with any reading that is exact on what fits an
      int. */
  type NumberParser = string -> Option<real>

  // ---- Numbers ----------------------------------------------------------------------------

  const INT_MIN: int := -0x8000_0000
  const INT_MAX: int := 0x7fff_ffff

  function DigitValue(c: char): int
    requires IsDigit(c)
  {
    c as int - '0' as int
  }

  /** The number that the leading digits spell, continued from `n`. */
  function LeadingNumber(s: string, n: int): int
  {
    if |s| == 0 || !IsDigit(s[0]) then n else LeadingNumber(s[1..], 10 * n + DigitValue(s[0]))
  }

  function WithoutSpace(s: string): string
  {
    if |s| > 0 && IsSpace(s[0]) then WithoutSpace(s[1..]) else s
  }

  predicate Signed(s: string)
  {
    |s| > 0 && (s[0] == '-' || s[0] == '+')
  }

  /** `std::stoi`: leading space, a sign, digits; what follows is ignored. None where it throws. */
  function Stoi(text: string): Option<int>
  {
    var s := WithoutSpace(text);
    var digits := if Signed(s) then s[1..] else s;
    if |digits| == 0 || !IsDigit(digits[0]) then None
    else
      var n := LeadingNumber(digits, 0);
      var value := if |s| > 0 && s[0] == '-' then -n else n;
      if INT_MIN <= value <= INT_MAX then Some(value) else None
  }

  // ---- Column types -----------------------------------------------------------------------

  function BoolValue(value: string): Option<bool>
  {
    if value == "true" || value == "TRUE" || value == "1" then Some(true)
    else if value == "false" || value == "FALSE" || value == "0" then Some(false)
    else None
  }

  predicate AllDigits(s: string)
  {
    forall i | 0 <= i < |s| :: IsDigit(s[i])
  }

  /** Digits with at most one dot among them; `hasDot` says that there was one before. */
  predicate DigitsAndDot(s: string, hasDot: bool)
  {
    |s| == 0
    || (if s[0] == '.' then !hasDot && DigitsAndDot(s[1..], true) else IsDigit(s[0]) && DigitsAndDot(s[1..], hasDot))
  }

  function AfterSign(s: string): string
  {
    if Signed(s) then s[1..] else s
  }

  predicate IsInt(s: string)
  {
    AfterSign(s) != "" && AllDigits(AfterSign(s))
  }

  predicate IsFloat(s: string)
  {
    AfterSign(s) != "" && DigitsAndDot(AfterSign(s), false)
  }

  /** NULL is a value of every type. */
  predicate HasType(v: Value, kind: string)
  {
    match v
    case None => true
    case Some(text) =>
      if kind == "INT" then IsInt(text)
      else if kind == "FLOAT" then IsFloat(text)
      else if kind == "BOOL" then BoolValue(text).Some?
      else kind == "STRING"
  }

  method ValidateValueForType(maybeValue: Value, kind: string) returns (valid: bool)
    ensures valid == HasType(maybeValue, kind)
  {
    if maybeValue.None? {
      return true;
    }
    var value := maybeValue.value;
    if kind == "INT" {
      valid := CheckDigits(value);
    } else if kind == "FLOAT" {
      valid := CheckDigitsAndDot(value);
    } else if kind == "BOOL" {
      valid := BoolValue(value).Some?;
    } else {
      valid := kind == "STRING";
    }
  }

  method CheckDigits(value: string) returns (valid: bool)
    ensures valid == IsInt(value)
  {
    var start := if Signed(value) then 1 else 0;
    assert AfterSign(value) == value[start..];
    if start == |value| {
      return false;
    }
    var i := start;
    while i < |value|
      invariant start <= i <= |value|
      invariant forall j | start <= j < i :: IsDigit(value[j])
    {
      if !IsDigit(value[i]) {
        assert !IsDigit(AfterSign(value)[i - start]);
        return false;
      }
      i := i + 1;
    }
    return true;
  }

  method CheckDigitsAndDot(value: string) returns (valid: bool)
    ensures valid == IsFloat(value)
  {
    var start := if Signed(value) then 1 else 0;
    if start == |value| {
      return false;
    }
    var hasDot := false;
    var i := start;
    while i < |value|
      invariant start <= i <= |value|
      invariant DigitsAndDot(value[start..], false) == DigitsAndDot(value[i..], hasDot)
    {
      assert value[i..][1..] == value[i + 1..];
      if value[i] == '.' {
        if hasDot {
          return false;
        }
        hasDot := true;
      } else if !IsDigit(value[i]) {
        return false;
      }
      i := i + 1;
    }
    return true;
  }

  // ---- Columns ----------------------------------------------------------------------------

  /** The first column of that name. */
  function ColumnIndex(scheme: seq<Column>, name: string): (i: Option<nat>)
    ensures i.Some? ==> i.value < |scheme| && scheme[i.value].name == name
    ensures i.None? ==> forall j | 0 <= j < |scheme| :: scheme[j].name != name
    ensures i.Some? ==> forall j | 0 <= j < i.value :: scheme[j].name != name
  {
    if |scheme| == 0 then None
    else if scheme[0].name == name then Some(0)
    else
      match ColumnIndex(scheme[1..], name)
      case None => None
      case Some(i) => Some(i + 1)
  }

  method GetColumnIndex(scheme: seq<Column>, name: string) returns (index: Option<nat>)
    ensures index == ColumnIndex(scheme, name)
  {
    var i := 0;
    while i < |scheme|
      invariant i <= |scheme|
      invariant forall j | 0 <= j < i :: scheme[j].name != name
    {
      if scheme[i].name == name {
        return Some(i);
      }
      i := i + 1;
    }
    return None;
  }

  // ---- Conditions -------------------------------------------------------------------------

  predicate Compares(op: string, l: real, r: real)
  {
    if op == "=" then l == r
    else if op == "!=" then l != r
    else if op == ">" then l > r
    else if op == "<" then l < r
    else if op == ">=" then l >= r
    else op == "<=" && l <= r
  }

  predicate NumbersCompare(num: NumberParser, op: string, left: string, right: string)
  {
    num(left).Some? && num(right).Some? && Compares(op, num(left).value, num(right).value)
  }

  predicate TextsCompare(num: NumberParser, kind: string, op: string, left: string, right: string)
  {
    if kind == "INT" || kind == "FLOAT" then NumbersCompare(num, op, left, right)
    else if kind == "BOOL" && (op == "=" || op == "!=") then
      && BoolValue(left).Some? && BoolValue(right).Some?
      && if op == "=" then BoolValue(left) == BoolValue(right) else BoolValue(left) != BoolValue(right)
    else if op == "=" then left == right
    else if op == "!=" then left != right
    else NumbersCompare(num, op, left, right)
  }

  /** The row satisfies the condition; a comparison with NULL never does. */
  predicate Holds(num: NumberParser, scheme: seq<Column>, cond: Condition, row: Row)
  {
    match ColumnIndex(scheme, cond.column)
    case None => false
    case Some(i) =>
      i < |row|
      && if cond.op == "IS NULL" then row[i].None?
         else if cond.op == "IS NOT NULL" then row[i].Some?
         else row[i].Some? && cond.value.Some?
              && TextsCompare(num, scheme[i].kind, cond.op, row[i].value, cond.value.value)
  }

  method EvaluateCondition(num: NumberParser, cond: Condition, row: Row, scheme: seq<Column>) returns (holds: bool)
    ensures holds == Holds(num, scheme, cond, row)
  {
    var colIndex := GetColumnIndex(scheme, cond.column);
    if colIndex.None? {
      return false;
    }
    if |row| == 0 || colIndex.value >= |row| {
      return false;
    }
    var rowValue := row[colIndex.value];
    if cond.op == "IS NULL" {
      return rowValue.None?;
    }
    if cond.op == "IS NOT NULL" {
      return rowValue.Some?;
    }
    if rowValue.None? || cond.value.None? {
      return false;
    }
    holds := TextsCompare(num, scheme[colIndex.value].kind, cond.op, rowValue.value, cond.value.value);
  }

  predicate Selects(num: NumberParser, scheme: seq<Column>, cond: Option<Condition>, row: Row)
  {
    cond.None? || Holds(num, scheme, cond.value, row)
  }

  // ---- Keys -------------------------------------------------------------------------------

  /** Column 0 is the key of the table if it is an INT. */
  predicate Keyed(scheme: seq<Column>)
  {
    |scheme| > 0 && scheme[0].kind == "INT"
  }

  function KeyText(scheme: seq<Column>, row: Row): Value
  {
    if Keyed(scheme) && |row| > 0 then row[0] else None
  }

  /** The key of a row as the index sees it. */
  function KeyOf(scheme: seq<Column>, row: Row): Option<int>
  {
    match KeyText(scheme, row)
    case None => None
    case Some(text) => Stoi(text)
  }

  /** The key has digits, but does not fit an int. */
  predicate KeyOverflows(scheme: seq<Column>, row: Row)
  {
    KeyText(scheme, row).Some? && KeyOf(scheme, row).None?
  }

  // ---- What a table accepts ---------------------------------------------------------------

  datatype TableError =
    SCHEME_MISMATCH | TYPE_VALIDATION_FAILED | PAGE_MANAGER_FULL | INDEX_INSERTION_FAILED | DUPLICATE_KEY

  predicate TypesFit(scheme: seq<Column>, row: Row)
  {
    |row| == |scheme| && forall i | 0 <= i < |row| :: HasType(row[i], scheme[i].kind)
  }

  function ShapeError(scheme: seq<Column>, row: Row): Option<TableError>
  {
    if |row| != |scheme| then Some(SCHEME_MISMATCH)
    else if !TypesFit(scheme, row) then Some(TYPE_VALIDATION_FAILED)
    else None
  }

  /** A row that the tables themselves wrote: it reads back as it was, fits the columns, and its key fits an int. */
  predicate Healthy(scheme: seq<Column>, text: string)
  {
    && RowText(RowOf(text)) == text
    && ShapeError(scheme, RowOf(text)).None?
    && !KeyOverflows(scheme, RowOf(text))
  }

  function TextKey(scheme: seq<Column>, text: string): Option<int>
  {
    KeyOf(scheme, RowOf(text))
  }

  // ---- Looking a row up by its key --------------------------------------------------------

  /** Reading a number is exact on everything that is an int. */
  ghost predicate ExactOnInts(num: NumberParser)
  {
    forall s | IsInt(s) && Stoi(s).Some? :: num(s) == Some(Stoi(s).value as real)
  }

  /** The literal is a whole number that fits an int: the key to look up. */
  function LiteralKey(num: NumberParser, literal: string): Option<int>
  {
    match num(literal)
    case None => None
    case Some(x) =>
      if x == x.Floor as real && INT_MIN as real <= x <= INT_MAX as real then Some(x.Floor) else None
  }

  /** `key = literal` selects exactly the rows with that key, however the literal is spelled. */
  lemma KeyLookupIsCondition(num: NumberParser, scheme: seq<Column>, literal: string, text: string)
    requires ExactOnInts(num) && Keyed(scheme) && Healthy(scheme, text) && LiteralKey(num, literal).Some?
    ensures Holds(num, scheme, Condition(scheme[0].name, Some(literal), "="), RowOf(text))
            <==> TextKey(scheme, text) == LiteralKey(num, literal)
  {
    var row := RowOf(text);
    assert ColumnIndex(scheme, scheme[0].name) == Some(0);
    if row[0].Some? {
      assert HasType(row[0], "INT");
      assert num(row[0].value) == Some(Stoi(row[0].value).value as real);
    }
  }
}
