// What conditions select and which keys collide, in terms of the values that the texts stand for.
module Comparisons {
  import opened Wrappers
  import opened StringUtils
  import opened Sql
  import opened Values
  import opened Decimals
  import opened TableIndex
  import opened Statements

  // ---- Conditions -------------------------------------------------------------------------

  /** Column `i`, of the given type, is the first of its name, and the row has the value there. */
  ghost predicate Shows(scheme: seq<Column>, row: Row, i: nat, kind: string, v: Value)
  {
    && i < |scheme| && i < |row| && scheme[i].kind == kind && row[i] == v
    && forall j | 0 <= j < i :: scheme[j].name != scheme[i].name
  }

  /** The row is selected by a comparison of the column with the literal. */
  predicate Meets(num: NumberParser, scheme: seq<Column>, row: Row, i: nat, op: string, literal: Value)
    requires i < |scheme|
  {
    Holds(num, scheme, Condition(scheme[i].name, literal, op), row)
  }

  lemma FirstOfName(scheme: seq<Column>, row: Row, i: nat, kind: string, v: Value)
    requires Shows(scheme, row, i, kind, v)
    ensures ColumnIndex(scheme, scheme[i].name) == Some(i)
  {
  }

  /** The comparisons of two numbers; each row satisfies exactly one of <, = and >. */
  lemma NumbersDecide(num: NumberParser, scheme: seq<Column>, row: Row, i: nat, kind: string, l: string, r: string)
    requires Shows(scheme, row, i, kind, Some(l)) && (kind == "INT" || kind == "FLOAT")
    requires num(l).Some? && num(r).Some?
    ensures Meets(num, scheme, row, i, "<", Some(r)) <==> num(l).value < num(r).value
    ensures Meets(num, scheme, row, i, "=", Some(r)) <==> num(l).value == num(r).value
    ensures Meets(num, scheme, row, i, ">", Some(r)) <==> num(l).value > num(r).value
    ensures Meets(num, scheme, row, i, "!=", Some(r)) <==> !Meets(num, scheme, row, i, "=", Some(r))
    ensures Meets(num, scheme, row, i, ">=", Some(r)) <==> !Meets(num, scheme, row, i, "<", Some(r))
    ensures Meets(num, scheme, row, i, "<=", Some(r)) <==> !Meets(num, scheme, row, i, ">", Some(r))
  {
    FirstOfName(scheme, row, i, kind, Some(l));
  }

  lemma ExactOnSpelled(num: NumberParser, s: string, n: int)
    requires ExactOnInts(num) && Spells(s, n) && FitsInt(n)
    ensures num(s) == Some(n as real)
  {
    hide Stoi, Spells;
    IntTextSpells(s);
    StoiOfSpelled(s, n);
  }

  /** An INT column is compared as the ints that the texts spell, whatever signs and zeros they are written with. */
  lemma IntsDecide(num: NumberParser, scheme: seq<Column>, row: Row, i: nat, l: string, m: int, r: string, n: int)
    requires ExactOnInts(num) && Shows(scheme, row, i, "INT", Some(l))
    requires Spells(l, m) && Spells(r, n) && FitsInt(m) && FitsInt(n)
    ensures Meets(num, scheme, row, i, "<", Some(r)) <==> m < n
    ensures Meets(num, scheme, row, i, "=", Some(r)) <==> m == n
    ensures Meets(num, scheme, row, i, ">", Some(r)) <==> m > n
    ensures Meets(num, scheme, row, i, "!=", Some(r)) <==> m != n
    ensures Meets(num, scheme, row, i, ">=", Some(r)) <==> m >= n
    ensures Meets(num, scheme, row, i, "<=", Some(r)) <==> m <= n
  {
    hide Meets, Shows, Spells, ExactOnInts;
    ExactOnSpelled(num, l, m);
    ExactOnSpelled(num, r, n);
    NumbersDecide(num, scheme, row, i, "INT", l, r);
  }

  predicate IsTestForNull(op: string)
  {
    op == "IS NULL" || op == "IS NOT NULL"
  }

  /** Where a text does not read as a number, a comparison of numbers selects nothing, != included. */
  lemma UnreadableSelectsNothing(num: NumberParser, scheme: seq<Column>, row: Row, i: nat, kind: string, l: string,
                                 op: string, r: string)
    requires Shows(scheme, row, i, kind, Some(l)) && (kind == "INT" || kind == "FLOAT") && !IsTestForNull(op)
    requires num(l).None? || num(r).None?
    ensures !Meets(num, scheme, row, i, op, Some(r))
  {
    FirstOfName(scheme, row, i, kind, Some(l));
  }

  /** Texts are equal or not; the other comparisons are those of the numbers that they read as, if they do. */
  lemma TextsDecide(num: NumberParser, scheme: seq<Column>, row: Row, i: nat, l: string, r: string)
    requires Shows(scheme, row, i, "STRING", Some(l))
    ensures Meets(num, scheme, row, i, "=", Some(r)) <==> l == r
    ensures Meets(num, scheme, row, i, "!=", Some(r)) <==> l != r
    ensures OrdersNumbers(num, scheme, row, i, l, r)
  {
    FirstOfName(scheme, row, i, "STRING", Some(l));
  }

  /** The four orderings are those of the numbers that the texts read as; without two numbers none of them holds. */
  ghost predicate OrdersNumbers(num: NumberParser, scheme: seq<Column>, row: Row, i: nat, l: string, r: string)
    requires i < |scheme|
  {
    var both := num(l).Some? && num(r).Some?;
    && (Meets(num, scheme, row, i, "<", Some(r)) <==> both && num(l).value < num(r).value)
    && (Meets(num, scheme, row, i, ">", Some(r)) <==> both && num(l).value > num(r).value)
    && (Meets(num, scheme, row, i, "<=", Some(r)) <==> both && num(l).value <= num(r).value)
    && (Meets(num, scheme, row, i, ">=", Some(r)) <==> both && num(l).value >= num(r).value)
  }

  /** Truth values are equal or not, however they are spelled; a text that is none of the six is neither. */
  lemma TruthsDecide(num: NumberParser, scheme: seq<Column>, row: Row, i: nat, l: string, r: string)
    requires Shows(scheme, row, i, "BOOL", Some(l))
    ensures Meets(num, scheme, row, i, "=", Some(r))
            <==> (l in TRUE_TEXTS && r in TRUE_TEXTS) || (l in FALSE_TEXTS && r in FALSE_TEXTS)
    ensures Meets(num, scheme, row, i, "!=", Some(r))
            <==> (l in TRUE_TEXTS && r in FALSE_TEXTS) || (l in FALSE_TEXTS && r in TRUE_TEXTS)
    ensures OrdersNumbers(num, scheme, row, i, l, r)
  {
    FirstOfName(scheme, row, i, "BOOL", Some(l));
  }

  /** IS NULL and IS NOT NULL select exactly the NULLs and the others; no comparison selects a NULL, or holds with
      one. */
  lemma NullsDecide(num: NumberParser, scheme: seq<Column>, row: Row, i: nat, kind: string, v: Value, literal: Value)
    requires Shows(scheme, row, i, kind, v)
    ensures Meets(num, scheme, row, i, "IS NULL", literal) <==> v == None
    ensures Meets(num, scheme, row, i, "IS NOT NULL", literal) <==> v != None
    ensures forall op | (v == None || literal == None) && !IsTestForNull(op) :: !Meets(num, scheme, row, i, op, literal)
  {
    FirstOfName(scheme, row, i, kind, v);
  }

  const COMPARISONS: set<string> := {"=", "!=", "<", ">", "<=", ">="}

  /** An unknown operator selects nothing, and neither does a condition on a column that there is not. */
  lemma UnknownSelectsNothing(num: NumberParser, scheme: seq<Column>, c: Condition, row: Row)
    requires (c.op !in COMPARISONS && !IsTestForNull(c.op)) || forall i | 0 <= i < |scheme| ::
             scheme[i].name != c.column
    ensures !Holds(num, scheme, c, row)
  {
  }

  /** A condition is accepted exactly if its column exists and its literal is NULL or one that the column could be equal
      to: a number, with or without a dot, for INT and FLOAT, a truth value for BOOL, any text for STRING. */
  lemma ConditionAcceptedIff(scheme: seq<Column>, c: Condition, i: nat)
    requires i < |scheme| && forall j | 0 <= j < i :: scheme[j].name != scheme[i].name
    ensures c.column == scheme[i].name ==>
              (ConditionValid(scheme, Some(c))
               <==> match c.value
                    case None => true
                    case Some(s) =>
                      if scheme[i].kind == "INT" || scheme[i].kind == "FLOAT" then IsNumberText(s)
                      else if scheme[i].kind == "BOOL" then s in TRUE_TEXTS || s in FALSE_TEXTS
                      else scheme[i].kind == "STRING")
    ensures (forall j | 0 <= j < |scheme| :: scheme[j].name != c.column) ==> !ConditionValid(scheme, Some(c))
    ensures ConditionValid(scheme, None)
  {
    if c.value.Some? {
      FloatTexts(c.value.value);
      OtherTexts(c.value.value, scheme[i].kind);
    }
  }

  // ---- Keys -------------------------------------------------------------------------------

  /** The first value of a stored row spells the number. */
  ghost predicate HasKey(text: string, n: int)
  {
    RowOf(text)[0].Some? && Spells(RowOf(text)[0].value, n)
  }

  lemma StoredKey(scheme: seq<Column>, text: string, n: int)
    requires |scheme| > 0 && scheme[0].kind == "INT" && Healthy(scheme, text) && FitsInt(n)
    ensures TextKey(scheme, text) == Some(n) <==> HasKey(text, n)
  {
    hide Spells, Stoi, IsInt;
    var row := RowOf(text);
    if row[0].Some? {
      var s := row[0].value;
      assert HasType(row[0], scheme[0].kind);
      IntTextSpells(s);
      var m :| Spells(s, m);
      StoiOfSpelled(s, m);
    }
  }

  /** A row of the right shape is refused exactly if its key is a number that fits no int, or the number that the key of
      a stored row is, too: 007 and 7 collide, 12 and 21 do not. */
  lemma KeysCollideIff(scheme: seq<Column>, stored: multiset<string>, row: Row, n: int)
    requires |scheme| > 0 && scheme[0].kind == "INT" && ShapeError(scheme, row).None?
    requires forall t | t in stored :: Healthy(scheme, t)
    requires row[0].Some? && Spells(row[0].value, n)
    ensures RowError(scheme, stored, row) == if !FitsInt(n) then Some(INDEX_INSERTION_FAILED)
                                             else if exists t :: t in stored && HasKey(t, n) then Some(DUPLICATE_KEY)
                                             else None
  {
    hide Spells, Stoi, Healthy, HasKey, TextKey;
    StoiOfSpelled(row[0].value, n);
    if FitsInt(n) {
      forall t | t in stored ensures TextKey(scheme, t) == Some(n) <==> HasKey(t, n) {
        StoredKey(scheme, t, n);
      }
    }
  }

  /** Every row of the right shape falls under that law, or has no key: then it is accepted. */
  lemma OtherRowsAccepted(scheme: seq<Column>, stored: multiset<string>, row: Row)
    requires ShapeError(scheme, row).None?
    ensures |scheme| == 0 || scheme[0].kind != "INT" || row[0].None? ==> RowError(scheme, stored, row).None?
    ensures |scheme| > 0 && scheme[0].kind == "INT" && row[0].Some? ==> exists n :: Spells(row[0].value, n)
  {
    hide Spells, IsInt;
    if |scheme| > 0 && scheme[0].kind == "INT" && row[0].Some? {
      assert HasType(row[0], scheme[0].kind);
      IntTextSpells(row[0].value);
    }
  }

  /** The shape is right exactly if there is a value for each column, of the column's type. */
  lemma ShapeIsRightIff(scheme: seq<Column>, row: Row)
    ensures ShapeError(scheme, row) == Some(SCHEME_MISMATCH) <==> |row| != |scheme|
    ensures ShapeError(scheme, row).None?
            <==> |row| == |scheme| && forall i | 0 <= i < |scheme| :: HasType(row[i], scheme[i].kind)
    ensures ShapeError(scheme, row) in {None, Some(SCHEME_MISMATCH), Some(TYPE_VALIDATION_FAILED)}
  {
  }
}
