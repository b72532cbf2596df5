// Which numbers and truth values the texts of a column stand for, in terms of decimal notation.
module Decimals {
  import opened Sequences
  import opened Wrappers
  import opened Lexers
  import opened SqlText
  import opened Values

  // ---- Decimal notation -------------------------------------------------------------------

  /** The decimal digits of `n`, without leading zeros. */
  function Digits(n: nat): (s: string)
    ensures |s| > 0
  {
    if n < 10 then [NUMERALS[n]] else Digits(n / 10) + [NUMERALS[n % 10]]
  }

  function Decimal(n: int): string
  {
    if n < 0 then "-" + Digits(-n) else Digits(n)
  }

  function WithSign(sign: string, n: int): int
  {
    if sign == "-" then -n else n
  }

  function Zeros(k: nat): (s: string)
    ensures |s| == k && forall i | 0 <= i < k :: s[i] == '0'
  {
    seq(k, _ => '0')
  }

  /** An optional sign, zeros, and the digits of a number: all the ways to write `n`. */
  ghost predicate Spells(s: string, n: int)
  {
    exists sign: string, k: nat, m: nat :: SpelledBy(s, sign, k, m) && n == WithSign(sign, m)
  }

  ghost predicate SpelledBy(s: string, sign: string, k: nat, m: nat)
  {
    IsSign(sign) && s == sign + (Zeros(k) + Digits(m))
  }

  // ---- Reading digits ---------------------------------------------------------------------

  lemma NumeralValue(d: nat)
    requires d < 10
    ensures IsDigit(NUMERALS[d]) && DigitValue(NUMERALS[d]) == d
  {
  }

  lemma {:induction false} NumeralsAreDigits(s: string)
    ensures IsNumerals(s) <==> AllDigits(s)
  {
    forall c ensures c in NUMERALS <==> IsDigit(c) {
      NumeralIsDigit(c);
    }
    if IsNumerals(s) {
      forall i | 0 <= i < |s| ensures IsDigit(s[i]) {
        assert s[i] in s;
      }
    }
  }

  lemma {:induction false} ReadsOn(a: string, b: string, n: int)
    requires AllDigits(a)
    ensures LeadingNumber(a + b, n) == LeadingNumber(b, LeadingNumber(a, n))
    decreases |a|
  {
    if |a| == 0 {
      assert a + b == b;
    } else {
      assert (a + b)[1..] == a[1..] + b;
      ReadsOn(a[1..], b, 10 * n + DigitValue(a[0]));
    }
  }

  lemma ReadsNumeral(d: nat, n: int)
    requires d < 10
    ensures LeadingNumber([NUMERALS[d]], n) == 10 * n + d
  {
    NumeralValue(d);
    var s := [NUMERALS[d]];
    assert s[1..] == "";
    assert LeadingNumber(s[1..], 10 * n + d) == 10 * n + d;
  }

  lemma {:induction false} DigitsAreDigits(n: nat)
    ensures AllDigits(Digits(n))
  {
    NumeralValue(n % 10);
    if n >= 10 {
      DigitsAreDigits(n / 10);
    } else {
      NumeralValue(n);
    }
  }

  /** Reading the digits of a number gives the number. */
  lemma {:induction false} DigitsRead(n: nat)
    ensures LeadingNumber(Digits(n), 0) == n
  {
    if n < 10 {
      ReadsNumeral(n, 0);
    } else {
      DigitsRead(n / 10);
      DigitsAreDigits(n / 10);
      ReadsOn(Digits(n / 10), [NUMERALS[n % 10]], 0);
      ReadsNumeral(n % 10, n / 10);
    }
  }

  lemma {:induction false} ZerosRead(k: nat)
    ensures AllDigits(Zeros(k)) && LeadingNumber(Zeros(k), 0) == 0
  {
    if k > 0 {
      assert Zeros(k)[1..] == Zeros(k - 1);
      ZerosRead(k - 1);
    }
  }

  lemma StopsReading(rest: string, n: int)
    requires |rest| == 0 || rest[0] !in NUMERALS
    ensures LeadingNumber(rest, n) == n
  {
    if |rest| > 0 {
      NumeralIsDigit(rest[0]);
    }
  }

  lemma PaddedReads(k: nat, m: nat, rest: string)
    requires |rest| == 0 || rest[0] !in NUMERALS
    ensures LeadingNumber(Zeros(k) + Digits(m) + rest, 0) == m
    ensures AllDigits(Zeros(k) + Digits(m))
  {
    ZerosRead(k);
    DigitsRead(m);
    DigitsAreDigits(m);
    ReadsOn(Zeros(k), Digits(m), 0);
    ReadsOn(Zeros(k) + Digits(m), rest, 0);
    StopsReading(rest, m);
  }

  // ---- Ints -------------------------------------------------------------------------------

  predicate FitsInt(n: int)
  {
    -2147483648 <= n <= 2147483647
  }

  /** What the conversion makes of a sign and digits, if nothing is in front. */
  lemma StoiOfSigned(sign: string, k: nat, m: nat, rest: string)
    requires IsSign(sign) && (|rest| == 0 || rest[0] !in NUMERALS)
    ensures var n := WithSign(sign, m);
            Stoi(sign + (Zeros(k) + Digits(m)) + rest) == if FitsInt(n) then Some(n) else None
  {
    var digits := Zeros(k) + Digits(m) + rest;
    var s := sign + (Zeros(k) + Digits(m)) + rest;
    assert s == sign + digits;
    PaddedReads(k, m, rest);
    assert IsDigit(digits[0]) by {
      assert digits[0] == (Zeros(k) + Digits(m))[0];
    }
    assert !IsSpace(s[0]);
    assert WithoutSpace(s) == s;
    assert sign != "" ==> s[1..] == digits;
    assert sign == "" ==> s == digits;
  }

  lemma {:induction false} SpaceIsSkipped(space: string, s: string)
    requires IsBlank(space)
    ensures WithoutSpace(space + s) == WithoutSpace(s)
  {
    if |space| == 0 {
      assert space + s == s;
    } else {
      assert space[0] in space && IsSpace(space[0]);
      assert (space + s)[1..] == space[1..] + s;
      SpaceIsSkipped(space[1..], s);
    }
  }

  lemma StoiSkips(space: string, s: string)
    requires IsBlank(space)
    ensures Stoi(space + s) == Stoi(s)
  {
    SpaceIsSkipped(space, s);
  }

  /** A key text is read as the number that it spells, if that fits an int, and otherwise as none; neither space in
      front nor what follows the digits matters. */
  lemma StoiReads(space: string, s: string, n: int, rest: string)
    requires IsBlank(space) && Spells(s, n)
    requires |rest| == 0 || rest[0] !in NUMERALS
    ensures Stoi(space + (s + rest)) == if FitsInt(n) then Some(n) else None
  {
    hide Stoi;
    var sign: string, k: nat, m: nat :| SpelledBy(s, sign, k, m) && n == WithSign(sign, m);
    StoiOfSigned(sign, k, m, rest);
    StoiSkips(space, s + rest);
  }

  lemma StoiOfSpelled(s: string, n: int)
    requires Spells(s, n)
    ensures Stoi(s) == if FitsInt(n) then Some(n) else None
  {
    StoiReads("", s, n, "");
    assert "" + (s + "") == s;
  }

  lemma DecimalSpells(n: int)
    ensures Spells(Decimal(n), n)
  {
    var sign, m: nat := if n < 0 then "-" else "", if n < 0 then -n else n;
    assert Zeros(0) + Digits(m) == Digits(m);
    assert "" + (Zeros(0) + Digits(m)) == Digits(m);
    assert SpelledBy(Decimal(n), sign, 0, m);
  }

  /** Written in decimal notation, every number that fits an int is read as itself, and no other is read at all. */
  lemma StoiOfDecimal(n: int)
    ensures Stoi(Decimal(n)) == if -2147483648 <= n <= 2147483647 then Some(n) else None
  {
    DecimalSpells(n);
    StoiOfSpelled(Decimal(n), n);
  }

  /** Numerals are zeros and the digits of a number. */
  lemma {:induction false} NumeralsSpell(s: string) returns (k: nat, m: nat)
    requires AllDigits(s) && s != ""
    ensures s == Zeros(k) + Digits(m)
  {
    var n := |s| - 1;
    var d := DigitValue(s[n]);
    assert NUMERALS[d] == s[n] && s == s[..n] + [s[n]];
    if n == 0 {
      k, m := 0, d;
    } else {
      k, m := NumeralsSpell(s[..n]);
      if m == 0 {
        assert Digits(0) == "0" && Zeros(k) + "0" == Zeros(k + 1);
        k, m := k + 1, d;
        assert s == Zeros(k) + Digits(d);
      } else {
        assert (10 * m + d) / 10 == m && (10 * m + d) % 10 == d;
        Regroups(Zeros(k), Digits(m), [NUMERALS[d]]);
        m := 10 * m + d;
      }
    }
  }

  /** An INT column accepts exactly the texts that spell a number, and each of them spells just one. */
  lemma IntTextSpells(s: string)
    ensures HasType(Some(s), "INT") <==> exists n :: Spells(s, n)
    ensures forall m, n | Spells(s, m) && Spells(s, n) :: m == n
  {
    if IsInt(s) {
      var k, m := NumeralsSpell(AfterSign(s));
      var sign := if Signed(s) then s[..1] else "";
      assert s == sign + AfterSign(s);
      assert SpelledBy(s, sign, k, m);
      assert Spells(s, WithSign(sign, m));
    }
    forall n | Spells(s, n) ensures IsInt(s) && n == Denoted(s) {
      var sign: string, k: nat, m: nat :| SpelledBy(s, sign, k, m) && n == WithSign(sign, m);
      PaddedReads(k, m, "");
      SpelledParts(s, sign, k, m);
      assert Zeros(k) + Digits(m) + "" == Zeros(k) + Digits(m);
    }
  }

  /** The number that an INT text spells. */
  function Denoted(s: string): int
  {
    WithSign(if Signed(s) && s[0] == '-' then "-" else "", LeadingNumber(AfterSign(s), 0))
  }

  lemma SpelledParts(s: string, sign: string, k: nat, m: nat)
    requires SpelledBy(s, sign, k, m) && AllDigits(Zeros(k) + Digits(m))
    ensures AfterSign(s) == Zeros(k) + Digits(m) && (sign == "-" <==> Signed(s) && s[0] == '-')
  {
    var digits := Zeros(k) + Digits(m);
    assert IsDigit(digits[0]);
    if sign == "" {
      assert s == digits;
    } else {
      assert s[0] == sign[0] && s[1..] == digits;
    }
  }

  // ---- Other types ------------------------------------------------------------------------

  lemma {:induction false} DigitsNoDot(s: string)
    ensures DigitsAndDot(s, true) <==> IsNumerals(s)
  {
    if |s| > 0 {
      NumeralIsDigit(s[0]);
      DigitsNoDot(s[1..]);
      assert s == [s[0]] + s[1..];
    }
  }

  /** Numerals, or two groups of them with a dot between, either of which may be empty. */
  ghost predicate IsNumeral(s: string)
  {
    IsNumerals(s) || exists a: string, b: string :: IsNumerals(a) && IsNumerals(b) && s == a + "." + b
  }

  lemma {:induction false} DigitsOneDot(s: string)
    ensures DigitsAndDot(s, false) <==> IsNumeral(s)
  {
    if |s| > 0 {
      var rest := s[1..];
      NumeralIsDigit(s[0]);
      DigitsNoDot(rest);
      DigitsOneDot(rest);
      assert s == [s[0]] + rest;
      if s[0] == '.' {
        DotFirst(s);
      } else {
        DigitFirst(s);
      }
    }
  }

  lemma FirstOfTwo(a: string, b: string)
    ensures (a + "." + b)[0] == if a == "" then '.' else a[0]
    ensures IsNumerals(a) && a != "" ==> a[0] in NUMERALS && a[0] != '.'
  {
    if IsNumerals(a) && a != "" {
      assert a[0] in a;
    }
  }

  lemma DotFirst(s: string)
    requires |s| > 0 && s[0] == '.'
    ensures IsNumeral(s) <==> IsNumerals(s[1..])
  {
    assert '.' in s;
    if IsNumerals(s[1..]) {
      assert s == "" + "." + s[1..];
    }
    if a: string, b: string :| IsNumerals(a) && IsNumerals(b) && s == a + "." + b {
      FirstOfTwo(a, b);
      assert a == "" && s[1..] == b;
    }
  }

  lemma DigitFirst(s: string)
    requires |s| > 0 && s[0] != '.'
    ensures IsNumeral(s) <==> s[0] in NUMERALS && IsNumeral(s[1..])
  {
    var rest := s[1..];
    assert s == [s[0]] + rest;
    if s[0] in NUMERALS && IsNumeral(rest) && !IsNumerals(rest) {
      var a: string, b: string :| IsNumerals(a) && IsNumerals(b) && rest == a + "." + b;
      assert s == ([s[0]] + a) + "." + b && IsNumerals([s[0]] + a);
    }
    if a: string, b: string :| IsNumerals(a) && IsNumerals(b) && s == a + "." + b {
      FirstOfTwo(a, b);
      assert a == [a[0]] + a[1..];
      assert rest == a[1..] + "." + b && IsNumerals(a[1..]);
    }
  }

  /** An optional sign and numerals with at most one dot among them; the dot alone will do. */
  ghost predicate IsNumberText(s: string)
  {
    exists sign: string, t: string :: IsSign(sign) && s == sign + t && t != "" && IsNumeral(t)
  }

  /** These are the texts that a FLOAT column accepts. */
  lemma FloatTexts(s: string)
    ensures HasType(Some(s), "FLOAT") <==> IsNumberText(s)
  {
    DigitsOneDot(AfterSign(s));
    if IsFloat(s) {
      var sign := if Signed(s) then s[..1] else "";
      assert s == sign + AfterSign(s);
    }
    if sign: string, t: string :| IsSign(sign) && s == sign + t && t != "" && IsNumeral(t) {
      DigitsOneDot(t);
      assert AfterSign(s) == t by {
        assert sign == "" ==> s == t;
        assert sign != "" ==> s[0] == sign[0] && s[1..] == t;
      }
    }
  }

  const TRUE_TEXTS: set<string> := {"true", "TRUE", "1"}
  const FALSE_TEXTS: set<string> := {"false", "FALSE", "0"}

  /** A BOOL column accepts six texts; a STRING column accepts every text; NULL is accepted everywhere, and no text by a
      column of another type. */
  lemma OtherTexts(s: string, kind: string)
    ensures HasType(Some(s), "BOOL") <==> s in TRUE_TEXTS || s in FALSE_TEXTS
    ensures BoolValue(s) == Some(true) <==> s in TRUE_TEXTS
    ensures BoolValue(s) == Some(false) <==> s in FALSE_TEXTS
    ensures HasType(Some(s), "STRING") && HasType(None, kind)
    ensures kind !in {"INT", "FLOAT", "BOOL", "STRING"} ==> !HasType(Some(s), kind)
  {
  }
}
