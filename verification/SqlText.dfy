// SQL text and the tokens it lexes to.
module SqlText {
  import opened Sequences
  import opened Wrappers
  import opened StringUtils
  import opened Sql
  import opened Lexers

  // ---- Literals ---------------------------------------------------------------------------

  function Doubled(s: string): string
  {
    if |s| == 0 then "" else (if s[0] == '\'' then "''" else [s[0]]) + Doubled(s[1..])
  }

  function Literal(v: Value): string
  {
    match v
    case None => "NULL"
    case Some(s) => "'" + Doubled(s) + "'"
  }

  method SqlLiteral(v: Value) returns (text: string)
    ensures text == Literal(v)
  {
    if v.None? {
      return "NULL";
    }
    var out, s := "'", v.value;
    var i := 0;
    assert s[0..] == s;
    while i < |s|
      invariant i <= |s| && out + Doubled(s[i..]) == "'" + Doubled(s)
    {
      assert s[i..][1..] == s[i + 1..];
      if s[i] == '\'' {
        Regroups(out, "''", Doubled(s[i + 1..]));
        out := out + "''";
      } else {
        Regroups(out, [s[i]], Doubled(s[i + 1..]));
        out := out + [s[i]];
      }
      i := i + 1;
    }
    assert s[i..] == [];
    return out + "'";
  }

  function LiteralToken(v: Value): Token
  {
    match v
    case None => Token(KEYWORD, "NULL")
    case Some(s) => Token(STRING, s)
  }

  // ---- Pieces of SQL text -----------------------------------------------------------------

  predicate AllWordChars(s: string)
  {
    forall c | c in s :: IsWordChar(c)
  }

  /** What the lexer reads as one word. */
  predicate IsWord(w: string)
  {
    |w| > 0 && (IsAlpha(w[0]) || w[0] == '_') && AllWordChars(w)
  }

  predicate IsIdentifier(w: string)
  {
    IsWord(w) && ToUpper(w) !in KEYWORDS
  }

  const BLANKS: string := " \t\n\U{000B}\U{000C}\r"

  /** Nothing but white space. */
  predicate IsBlank(s: string)
  {
    forall c | c in s :: c in BLANKS
  }

  const NUMERALS: string := "0123456789"

  /** Nothing but numerals. */
  predicate IsNumerals(s: string)
  {
    forall c | c in s :: c in NUMERALS
  }

  predicate IsSign(sign: string)
  {
    sign == "" || sign == "-" || sign == "+"
  }

  /** Numerals, and perhaps a dot and more of them. */
  function NumeralText(whole: string, fraction: Option<string>): string
  {
    whole + if fraction.None? then "" else "." + fraction.value
  }

  /** What the lexer passes over: no part of a word, and no sign of any other kind. */
  predicate IsSkipped(c: char)
  {
    !IsWordChar(c) && c !in BLANKS && c !in "'=<>!(),*"
  }

  /** =, <, >, ! and each of these followed by = */
  predicate IsOperator(op: string)
  {
    && (|op| == 1 || (|op| == 2 && op[1] == '='))
    && (op[0] == '=' || op[0] == '<' || op[0] == '>' || op[0] == '!')
  }

  /** Text is put together from words, single spaces and other white space, punctuation, operators, literals, unquoted
      numbers, stars, and characters that mean nothing. */
  datatype Piece =
    | Word(word: string)
    | Space
    | Blank(space: string)
    | Punctuation(c: char)
    | Operator(op: string)
    | Lit(v: Value)
    | Number(sign: string, whole: string, fraction: Option<string>)
    | Star
    | Skipped(c: char)
  {
    function Text(): string
    {
      match this
      case Word(w) => w
      case Space => " "
      case Punctuation(c) => [c]
      case Operator(op) => op
      case Lit(v) => Literal(v)
      case Blank(space) => space
      case Number(sign, whole, fraction) => sign + NumeralText(whole, fraction)
      case Star => "*"
      case Skipped(c) => [c]
    }

    predicate Ok()
    {
      match this
      case Word(w) => IsWord(w)
      case Space => true
      case Punctuation(c) => c == '(' || c == ')' || c == ','
      case Operator(op) => IsOperator(op)
      case Lit(_) => true
      case Blank(space) => space != "" && IsBlank(space)
      case Number(sign, whole, fraction) =>
        IsSign(sign) && whole != "" && IsNumerals(whole) && (fraction.Some? ==> IsNumerals(fraction.value))
      case Star => true
      case Skipped(c) => IsSkipped(c)
    }

    function Found(): seq<Token>
    {
      match this
      case Word(w) => [WordToken(w)]
      case Space => []
      case Punctuation(c) => [Token(PUNCTUATION, [c])]
      case Operator(op) => [Token(OPERATOR, op)]
      case Lit(v) => [LiteralToken(v)]
      case Blank(_) => []
      case Number(sign, whole, fraction) =>
        [Token(NUMBER, if sign == "-" then "-" + NumeralText(whole, fraction) else NumeralText(whole, fraction))]
      case Star => [Token(WILDCARD, "*")]
      case Skipped(_) => []
    }

    /** The lexer sees that this piece is over when `rest` follows. */
    predicate EndsBefore(rest: string)
    {
      match this
      case Word(_) => EndsWord(rest)
      case Space => |rest| > 0 && !IsSpace(rest[0])
      case Punctuation(_) => true
      case Operator(_) => |rest| > 0 && rest[0] != '='
      case Lit(_) => EndsWord(rest) && (|rest| == 0 || rest[0] != '\'')
      case Blank(_) => |rest| == 0 || !IsSpace(rest[0])
      case Number(_, _, fraction) =>
        |rest| == 0 || (rest[0] !in NUMERALS && (rest[0] == '.' ==> fraction.Some?))
      case Star => true
      case Skipped(c) => (c == '-' || c == '+') && |rest| > 0 ==> rest[0] !in NUMERALS
    }
  }

  function TextOf(pieces: seq<Piece>): string
  {
    if |pieces| == 0 then "" else pieces[0].Text() + TextOf(pieces[1..])
  }

  function FoundIn(pieces: seq<Piece>): seq<Token>
  {
    if |pieces| == 0 then [] else pieces[0].Found() + FoundIn(pieces[1..])
  }

  /** No two neighbours run together. */
  predicate Separable(pieces: seq<Piece>)
  {
    |pieces| == 0 || (pieces[0].Ok() && pieces[0].EndsBefore(TextOf(pieces[1..])) && Separable(pieces[1..]))
  }

  // ---- Lexing the pieces ------------------------------------------------------------------

  /** No word goes on into `rest`. */
  predicate EndsWord(rest: string)
  {
    |rest| == 0 || !IsWordChar(rest[0])
  }

  lemma {:induction false} WordLengthOf(w: string, rest: string)
    requires AllWordChars(w) && EndsWord(rest)
    ensures WordLength(w + rest) == |w|
  {
    if |w| > 0 {
      assert (w + rest)[1..] == w[1..] + rest;
      WordLengthOf(w[1..], rest);
    } else {
      assert w + rest == rest;
    }
  }

  lemma WordStep(w: string, rest: string)
    requires IsWord(w) && EndsWord(rest)
    ensures Step(w + rest) == ([WordToken(w)], |w|)
  {
    WordLengthOf(w, rest);
    assert (w + rest)[..|w|] == w;
  }

  lemma SpaceStep(rest: string)
    requires |rest| > 0 && !IsSpace(rest[0])
    ensures Step(" " + rest) == ([], 1)
  {
    assert (" " + rest)[1..] == rest;
  }

  lemma OperatorStep(op: string, rest: string)
    requires IsOperator(op) && |rest| > 0 && rest[0] != '='
    ensures Step(op + rest) == ([Token(OPERATOR, op)], |op|)
  {
    var s := op + rest;
    assert s[..|op|] == op;
  }

  lemma {:induction false} QuotedOf(s: string, rest: string)
    requires |rest| == 0 || rest[0] != '\''
    ensures QuotedLength(Doubled(s) + "'" + rest) == |Doubled(s)|
    ensures QuotedValue(Doubled(s) + "'" + rest) == s
  {
    var text := Doubled(s) + "'" + rest;
    if |s| == 0 {
      assert text == "'" + rest;
    } else {
      QuotedOf(s[1..], rest);
      var tail := Doubled(s[1..]) + "'" + rest;
      if s[0] == '\'' {
        assert text[2..] == tail;
      } else {
        assert text[1..] == tail;
      }
    }
  }

  lemma StringStep(s: string, rest: string)
    requires |rest| == 0 || rest[0] != '\''
    ensures var piece := "'" + Doubled(s) + "'"; Step(piece + rest) == ([Token(STRING, s)], |piece|)
  {
    var text := "'" + Doubled(s) + "'" + rest;
    hide Doubled, QuotedLength, QuotedValue;
    QuotedOf(s, rest);
    assert text[1..] == Doubled(s) + "'" + rest;
  }

  lemma NullStep(rest: string)
    requires EndsWord(rest)
    ensures Step("NULL" + rest) == ([Token(KEYWORD, "NULL")], 4)
  {
    assert ToUpper("NULL") == "NULL";
    WordStep("NULL", rest);
  }

  lemma BlankIsSpace(c: char)
    ensures c in BLANKS <==> IsSpace(c)
  {
    assert IsSpace(c) ==> c == ' ' || c in "\t\n\U{000B}\U{000C}\r" by {
      if IsSpace(c) && c != ' ' {
        assert "\t\n\U{000B}\U{000C}\r"[c as int - '\t' as int] == c;
      }
    }
  }

  lemma {:induction false} SpaceLengthOf(space: string, rest: string)
    requires IsBlank(space) && (|rest| == 0 || !IsSpace(rest[0]))
    ensures SpaceLength(space + rest) == |space|
  {
    if |space| == 0 {
      assert space + rest == rest;
    } else {
      assert space[0] in space;
      BlankIsSpace(space[0]);
      assert (space + rest)[1..] == space[1..] + rest;
      SpaceLengthOf(space[1..], rest);
    }
  }

  lemma BlankStep(space: string, rest: string)
    requires space != "" && IsBlank(space) && (|rest| == 0 || !IsSpace(rest[0]))
    ensures Step(space + rest) == ([], |space|)
  {
    SpaceLengthOf(space, rest);
    assert space[0] in space;
    BlankIsSpace(space[0]);
  }

  lemma NumeralIsDigit(c: char)
    ensures c in NUMERALS <==> IsDigit(c)
  {
    if IsDigit(c) {
      assert NUMERALS[c as int - '0' as int] == c;
    }
  }

  lemma {:induction false} NumeralsTaken(a: string, rest: string, hasDot: bool)
    requires IsNumerals(a)
    ensures NumberLength(a + rest, hasDot) == |a| + NumberLength(rest, hasDot)
  {
    if |a| == 0 {
      assert a + rest == rest;
    } else {
      assert a[0] in a;
      NumeralIsDigit(a[0]);
      assert (a + rest)[1..] == a[1..] + rest;
      NumeralsTaken(a[1..], rest, hasDot);
    }
  }

  lemma NumeralLength(whole: string, fraction: Option<string>, rest: string)
    requires Number("", whole, fraction).Ok() && Number("", whole, fraction).EndsBefore(rest)
    ensures NumberLength(NumeralText(whole, fraction) + rest, false) == |NumeralText(whole, fraction)|
  {
    if |rest| > 0 {
      NumeralIsDigit(rest[0]);
    }
    match fraction {
      case None =>
        assert whole + "" + rest == whole + rest;
        NumeralsTaken(whole, rest, false);
      case Some(f) =>
        var tail := "." + f + rest;
        assert whole + ("." + f) + rest == whole + tail && tail[1..] == f + rest;
        NumeralsTaken(whole, tail, false);
        NumeralsTaken(f, rest, true);
    }
  }

  lemma NumeralBegins(whole: string, fraction: Option<string>)
    requires whole != "" && IsNumerals(whole)
    ensures var n := NumeralText(whole, fraction); |n| > 0 && IsDigit(n[0])
  {
    assert whole[0] in whole && NumeralText(whole, fraction)[0] == whole[0];
    NumeralIsDigit(whole[0]);
  }

  lemma UnsignedStep(n: string, rest: string)
    requires |n| > 0 && IsDigit(n[0]) && NumberLength(n + rest, false) == |n|
    ensures Step(n + rest) == ([Token(NUMBER, n)], |n|)
  {
    hide WordToken, QuotedLength, QuotedValue, SpaceLength, WordLength;
    var s := n + rest;
    assert s[..|n|] == n && s[0] == n[0];
    assert NumberLength(s, false) == 1 + NumberLength(s[1..], false);
  }

  lemma SignedStep(sign: char, n: string, rest: string)
    requires (sign == '-' || sign == '+') && |n| > 0 && IsDigit(n[0]) && NumberLength(n + rest, false) == |n|
    ensures Step([sign] + n + rest) == ([Token(NUMBER, if sign == '-' then "-" + n else n)], 1 + |n|)
  {
    hide WordToken, QuotedLength, QuotedValue, SpaceLength, WordLength, NumberLength;
    var s := [sign] + n + rest;
    assert s[1..] == n + rest && s[0] == sign && s[1] == n[0];
    assert s[1..|n| + 1] == n && s[..|n| + 1] == [sign] + n;
  }

  /** A sign directly in front of a numeral belongs to the number; a plus sign is dropped. */
  lemma NumberStep(sign: string, whole: string, fraction: Option<string>, rest: string)
    requires Number(sign, whole, fraction).Ok() && Number(sign, whole, fraction).EndsBefore(rest)
    ensures var piece := Number(sign, whole, fraction);
            Step(piece.Text() + rest) == (piece.Found(), |piece.Text()|)
  {
    hide Step, NumberLength;
    var n := NumeralText(whole, fraction);
    NumeralBegins(whole, fraction);
    NumeralLength(whole, fraction, rest);
    if sign == "" {
      UnsignedStep(n, rest);
      assert "" + n == n;
    } else {
      SignedStep(sign[0], n, rest);
      assert [sign[0]] == sign;
    }
  }

  lemma SkippedStep(c: char, rest: string)
    requires IsSkipped(c) && Skipped(c).EndsBefore(rest)
    ensures Step([c] + rest) == ([], 1)
  {
    BlankIsSpace(c);
    var s := [c] + rest;
    if |rest| > 0 {
      NumeralIsDigit(rest[0]);
      assert s[1] == rest[0];
    }
    assert forall x | x in "'=<>!(),*" :: x != c;
    var marks := "'=<>!(),*";
    assert marks[0] == '\'' && marks[1] == '=' && marks[2] == '<' && marks[3] == '>' && marks[4] == '!'
           && marks[5] == '(' && marks[6] == ')' && marks[7] == ',' && marks[8] == '*';
  }

  /** The lexer's next step takes exactly the piece that stands in front. */
  lemma PieceStep(piece: Piece, rest: string)
    requires piece.Ok() && piece.EndsBefore(rest)
    ensures |piece.Text()| > 0 && Step(piece.Text() + rest) == (piece.Found(), |piece.Text()|)
  {
    match piece {
      case Word(w) => WordStep(w, rest);
      case Space => SpaceStep(rest);
      case Punctuation(c) =>
      case Operator(op) => OperatorStep(op, rest);
      case Lit(v) =>
        if v.None? {
          NullStep(rest);
        } else {
          StringStep(v.value, rest);
        }
      case Blank(space) => BlankStep(space, rest);
      case Number(sign, whole, fraction) => NumberStep(sign, whole, fraction, rest);
      case Star =>
      case Skipped(c) => SkippedStep(c, rest);
    }
  }

  lemma LexOne(text: string, rest: string, found: seq<Token>)
    requires |text| > 0 && Step(text + rest) == (found, |text|)
    ensures Tokens(text + rest) == found + Tokens(rest)
  {
    assert Drop(text + rest, |text|) == rest;
  }

  /** The lexer finds in a text exactly the tokens of the pieces it was put together from. */
  lemma {:induction false} LexPieces(pieces: seq<Piece>)
    requires Separable(pieces)
    ensures Tokens(TextOf(pieces)) == FoundIn(pieces) + [EOF]
  {
    if |pieces| > 0 {
      PieceStep(pieces[0], TextOf(pieces[1..]));
      LexOne(pieces[0].Text(), TextOf(pieces[1..]), pieces[0].Found());
      LexPieces(pieces[1..]);
      Regroups(pieces[0].Found(), FoundIn(pieces[1..]), [EOF]);
    }
  }

  lemma {:induction false} QuotedToTheEnd(s: string)
    ensures QuotedLength(Doubled(s)) == |Doubled(s)| && QuotedValue(Doubled(s)) == s
  {
    if |s| > 0 {
      QuotedToTheEnd(s[1..]);
      assert Doubled(s)[if s[0] == '\'' then 2 else 1..] == Doubled(s[1..]);
    }
  }

  /** A string that is not closed goes on to the end of the text. */
  lemma UnclosedString(s: string)
    ensures Tokens("'" + Doubled(s)) == [Token(STRING, s), EOF]
  {
    hide Doubled, QuotedLength, QuotedValue;
    var text := "'" + Doubled(s);
    assert text[1..] == Doubled(s);
    QuotedToTheEnd(s);
    assert Drop(text, 2 + |Doubled(s)|) == "";
    assert Tokens("") == [EOF];
  }

  // ---- Keywords in any spelling -----------------------------------------------------------

  /** `d` is `c`, but for a small letter the capital at the same place of the alphabet. */
  predicate IsCapitalOf(c: char, d: char)
  {
    if 'a' <= c <= 'z' then 'A' <= d <= 'Z' && d as int - 'A' as int == c as int - 'a' as int else d == c
  }

  /** The word is `capitals` in small letters, capitals, or both. */
  predicate IsSpellingOf(word: string, capitals: string)
  {
    |word| == |capitals| && forall i | 0 <= i < |word| :: IsCapitalOf(word[i], capitals[i])
  }

  lemma {:induction false} ToUpperIs(word: string, capitals: string)
    ensures IsSpellingOf(word, capitals) <==> ToUpper(word) == capitals
  {
    if |word| > 0 && |capitals| > 0 {
      ToUpperIs(word[1..], capitals[1..]);
      assert word == [word[0]] + word[1..] && capitals == [capitals[0]] + capitals[1..];
    }
  }

  /** A keyword may be spelled with small letters and capitals; any other word is an identifier, as it is spelled. */
  lemma KeywordInAnySpelling(word: string, keyword: string)
    ensures keyword in KEYWORDS && IsSpellingOf(word, keyword) ==> WordToken(word) == Token(KEYWORD, keyword)
    ensures (forall k | k in KEYWORDS :: !IsSpellingOf(word, k)) ==> WordToken(word) == Token(IDENTIFIER, word)
  {
    ToUpperIs(word, keyword);
    ToUpperIs(word, ToUpper(word));
  }

  // ---- Putting piece lists together -------------------------------------------------------

  lemma {:induction false} TextAppend(a: seq<Piece>, b: seq<Piece>)
    ensures TextOf(a + b) == TextOf(a) + TextOf(b)
  {
    hide Piece.Text;
    if |a| == 0 {
      assert a + b == b;
    } else {
      assert (a + b)[1..] == a[1..] + b;
      TextAppend(a[1..], b);
    }
  }

  lemma {:induction false} FoundAppend(a: seq<Piece>, b: seq<Piece>)
    ensures FoundIn(a + b) == FoundIn(a) + FoundIn(b)
  {
    hide Piece.Found;
    if |a| == 0 {
      assert a + b == b;
    } else {
      assert (a + b)[1..] == a[1..] + b;
      FoundAppend(a[1..], b);
    }
  }

  /** Every piece is over before its neighbour begins. */
  predicate Chain(pieces: seq<Piece>)
  {
    forall i | 0 <= i < |pieces| ::
      pieces[i].Ok() && (i + 1 < |pieces| ==> pieces[i].EndsBefore(pieces[i + 1].Text()))
  }

  /** `b` may follow `a`. */
  predicate Meets(a: seq<Piece>, b: seq<Piece>)
  {
    a != [] && b != [] && a[|a| - 1].EndsBefore(b[0].Text())
  }

  lemma ChainAppend(a: seq<Piece>, b: seq<Piece>)
    requires Chain(a) && Chain(b) && Meets(a, b)
    ensures Chain(a + b) && TextOf(a + b) == TextOf(a) + TextOf(b) && FoundIn(a + b) == FoundIn(a) + FoundIn(b)
  {
    TextAppend(a, b);
    FoundAppend(a, b);
  }

  lemma {:induction false} ChainSeparable(pieces: seq<Piece>)
    requires Chain(pieces) && pieces != [] && pieces[|pieces| - 1].EndsBefore("")
    ensures Separable(pieces) && |TextOf(pieces)| > 0 && TextOf(pieces)[0] == pieces[0].Text()[0]
  {
    PieceText(pieces[0]);
    if |pieces| > 1 {
      assert Chain(pieces[1..]) by {
        forall i | 0 <= i < |pieces[1..]|
          ensures pieces[1..][i].Ok()
          ensures i + 1 < |pieces[1..]| ==> pieces[1..][i].EndsBefore(pieces[1..][i + 1].Text())
        {
          assert pieces[1..][i] == pieces[i + 1];
        }
      }
      ChainSeparable(pieces[1..]);
      assert pieces[0].EndsBefore(pieces[1].Text());
      PieceText(pieces[1]);
    }
  }

  lemma PieceText(p: Piece)
    requires p.Ok()
    ensures |p.Text()| > 0
  {
  }

  /** A word and the space behind it. */
  function Spaced(w: string): seq<Piece>
  {
    [Word(w), Space]
  }

  lemma SpacedWord(w: string)
    requires IsWord(w)
    ensures Chain(Spaced(w)) && TextOf(Spaced(w)) == w + " " && FoundIn(Spaced(w)) == [WordToken(w)]
  {
    assert Spaced(w)[1..] == [Space] && [Space][1..] == [];
    assert TextOf([Space]) == " " && FoundIn([Space]) == [];
  }

  lemma SinglePiece(p: Piece)
    requires p.Ok()
    ensures Chain([p]) && TextOf([p]) == p.Text() && FoundIn([p]) == p.Found()
  {
    assert [p][1..] == [];
  }

  /** Pieces, the text they give and the tokens the lexer finds in it. */
  datatype Writing = Writing(pieces: seq<Piece>, text: string, found: seq<Token>)
  {
    ghost predicate Ok()
    {
      Chain(pieces) && pieces != [] && TextOf(pieces) == text && FoundIn(pieces) == found
    }

    function First(): Piece
      requires pieces != []
    {
      pieces[0]
    }

    function Last(): Piece
      requires pieces != []
    {
      pieces[|pieces| - 1]
    }

    function Then(next: Writing): Writing
    {
      Writing(pieces + next.pieces, text + next.text, found + next.found)
    }
  }

  function One(p: Piece): Writing
  {
    Writing([p], p.Text(), p.Found())
  }

  function AWord(w: string): Writing
  {
    Writing(Spaced(w), w + " ", [WordToken(w)])
  }

  lemma OneOk(p: Piece)
    requires p.Ok()
    ensures One(p).Ok()
  {
    SinglePiece(p);
  }

  /** A word and a space may stand in front of anything but a space. */
  lemma WordThen(w: string, rest: Writing)
    requires IsWord(w) && rest.Ok() && Space.EndsBefore(rest.First().Text())
    ensures var r := AWord(w).Then(rest); r.Ok() && r.First() == Word(w) && r.Last() == rest.Last()
  {
    SpacedWord(w);
    ChainAppend(Spaced(w), rest.pieces);
  }

  lemma ThenOk(a: Writing, b: Writing)
    requires a.Ok() && b.Ok() && a.Last().EndsBefore(b.First().Text())
    ensures a.Then(b).Ok() && a.Then(b).First() == a.First() && a.Then(b).Last() == b.Last()
  {
    ChainAppend(a.pieces, b.pieces);
  }

  lemma Lexes(w: Writing)
    requires w.Ok() && w.Last().EndsBefore("")
    ensures Tokens(w.text) == w.found + [EOF]
  {
    ChainSeparable(w.pieces);
    LexPieces(w.pieces);
  }
}
