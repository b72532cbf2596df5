// Splitting SQL text into tokens.
module Lexers {
  import opened Sequences
  import opened Sql

  // ---- Character classes ------------------------------------------------------------------

  predicate IsSpace(c: char) { c == ' ' || '\t' <= c <= '\r' }

  predicate IsDigit(c: char) { '0' <= c <= '9' }

  predicate IsAlpha(c: char) { 'a' <= c <= 'z' || 'A' <= c <= 'Z' }

  predicate IsWordChar(c: char) { IsAlpha(c) || IsDigit(c) || c == '_' }

  function ToUpper(s: string): string
  {
    if |s| == 0 then ""
    else [if 'a' <= s[0] <= 'z' then (s[0] as int - 'a' as int + 'A' as int) as char else s[0]] + ToUpper(s[1..])
  }

  const KEYWORDS: set<string> := {
    "SELECT", "INSERT", "DELETE", "FROM", "WHERE", "INTO", "VALUES", "CREATE", "TABLE", "INT", "STRING", "DROP",
    "UPDATE", "SET", "USE", "DATABASE", "FLOAT", "BOOL", "NULL", "IS", "NOT" }

  // ---- What each kind of token is ---------------------------------------------------------

  function SpaceLength(s: string): (n: nat)
    ensures n <= |s|
  {
    if |s| == 0 || !IsSpace(s[0]) then 0 else 1 + SpaceLength(s[1..])
  }

  function WordLength(s: string): (n: nat)
    ensures n <= |s|
  {
    if |s| == 0 || !IsWordChar(s[0]) then 0 else 1 + WordLength(s[1..])
  }

  function WordToken(word: string): Token
  {
    if ToUpper(word) in KEYWORDS then Token(KEYWORD, ToUpper(word)) else Token(IDENTIFIER, word)
  }

  function NumberLength(s: string, hasDot: bool): (n: nat)
    ensures n <= |s|
  {
    if |s| == 0 || !(IsDigit(s[0]) || (s[0] == '.' && !hasDot)) then 0
    else 1 + NumberLength(s[1..], hasDot || s[0] == '.')
  }

  /** What stands between quotes: `s` follows the opening quote, and a doubled quote is a literal one. */
  function QuotedLength(s: string): (n: nat)
    ensures n <= |s|
  {
    if |s| == 0 then 0
    else if s[0] != '\'' then 1 + QuotedLength(s[1..])
    else if |s| > 1 && s[1] == '\'' then 2 + QuotedLength(s[2..])
    else 0
  }

  function QuotedValue(s: string): string
  {
    if |s| == 0 then ""
    else if s[0] != '\'' then [s[0]] + QuotedValue(s[1..])
    else if |s| > 1 && s[1] == '\'' then "'" + QuotedValue(s[2..])
    else ""
  }

  predicate StartsSignedNumber(s: string)
  {
    |s| > 1 && (s[0] == '-' || s[0] == '+') && IsDigit(s[1])
  }

  /** The tokens that the next piece of `s` stands for, none or one, and how much of `s` it takes. */
  function Step(s: string): (r: (seq<Token>, nat))
    requires |s| > 0
    ensures r.1 >= 1
  {
    var c := s[0];
    if IsSpace(c) then ([], 1 + SpaceLength(s[1..]))
    else if IsAlpha(c) || c == '_' then ([WordToken(s[..WordLength(s)])], 1 + WordLength(s[1..]))
    else if IsDigit(c) then ([Token(NUMBER, s[..NumberLength(s, false)])], 1 + NumberLength(s[1..], false))
    else if StartsSignedNumber(s) then
      var n := NumberLength(s[1..], false);
      ([Token(NUMBER, if c == '-' then s[..n + 1] else s[1..n + 1])], 1 + n)
    else if c == '\'' then ([Token(STRING, QuotedValue(s[1..]))], 2 + QuotedLength(s[1..]))
    else if c == '=' || c == '>' || c == '<' || c == '!' then
      var n := if |s| > 1 && s[1] == '=' then 2 else 1; ([Token(OPERATOR, s[..n])], n)
    else if c == '(' || c == ')' || c == ',' then ([Token(PUNCTUATION, [c])], 1)
    else if c == '*' then ([Token(WILDCARD, [c])], 1)
    else ([], 1)
  }

  function Drop(s: string, n: nat): string
  {
    if n <= |s| then s[n..] else ""
  }

  function Tokens(s: string): seq<Token>
    decreases |s|
  {
    if |s| == 0 then [EOF] else Step(s).0 + Tokens(Drop(s, Step(s).1))
  }

  // ---- The lexer --------------------------------------------------------------------------

  class Lexer {
    const input: string
    var position: nat

    constructor (input: string)
      ensures this.input == input && position == 0
    {
      this.input := input;
      position := 0;
    }

    method SkipWhitespace()
      requires position <= |input|
      modifies this
      ensures position == old(position) + SpaceLength(input[old(position)..])
    {
      while position < |input| && IsSpace(input[position])
        invariant old(position) <= position <= |input|
        invariant position + SpaceLength(input[position..]) == old(position) + SpaceLength(input[old(position)..])
      {
        assert input[position..][1..] == input[position + 1..];
        position := position + 1;
      }
    }

    method ReadWord() returns (token: Token)
      requires position <= |input|
      modifies this
      ensures position == old(position) + WordLength(input[old(position)..])
      ensures token == WordToken(input[old(position)..position])
    {
      var word := "";
      while position < |input| && IsWordChar(input[position])
        invariant old(position) <= position <= |input| && word == input[old(position)..position]
        invariant position + WordLength(input[position..]) == old(position) + WordLength(input[old(position)..])
      {
        assert input[position..][1..] == input[position + 1..];
        word := word + [input[position]];
        position := position + 1;
      }
      var uppercaseWord := ToUpper(word);
      if uppercaseWord in KEYWORDS {
        return Token(KEYWORD, uppercaseWord);
      } else {
        return Token(IDENTIFIER, word);
      }
    }

    method ReadNumber() returns (token: Token)
      requires position <= |input|
      modifies this
      ensures position == old(position) + NumberLength(input[old(position)..], false)
      ensures token == Token(NUMBER, input[old(position)..position])
    {
      var number, hasDot := "", false;
      while position < |input| && (IsDigit(input[position]) || (input[position] == '.' && !hasDot))
        invariant old(position) <= position <= |input| && number == input[old(position)..position]
        invariant position + NumberLength(input[position..], hasDot)
                  == old(position) + NumberLength(input[old(position)..], false)
      {
        assert input[position..][1..] == input[position + 1..];
        if input[position] == '.' {
          hasDot := true;
        }
        number := number + [input[position]];
        position := position + 1;
      }
      return Token(NUMBER, number);
    }

    method ReadString() returns (token: Token)
      requires position < |input|
      modifies this
      ensures position == old(position) + 2 + QuotedLength(input[old(position) + 1..])
      ensures token == Token(STRING, QuotedValue(input[old(position) + 1..]))
    {
      hide QuotedLength, QuotedValue;
      QuotedEnd();
      position := position + 1;
      ghost var start := position;
      var str := "";
      while position < |input|
        invariant start <= position <= |input|
        invariant position + QuotedLength(input[position..]) == start + QuotedLength(input[start..])
        invariant str + QuotedValue(input[position..]) == QuotedValue(input[start..])
        decreases |input| - position
      {
        QuotedStep(input, position);
        if input[position] == '\'' {
          if position + 1 < |input| && input[position + 1] == '\'' {
            Regroup(str, '\'', QuotedValue(input[position + 2..]));
            str := str + "'";
            position := position + 2;
            continue;
          }
          break;
        }
        Regroup(str, input[position], QuotedValue(input[position + 1..]));
        str := str + [input[position]];
        position := position + 1;
      }
      position := position + 1;
      return Token(STRING, str);
    }

    method ReadOperator() returns (token: Token)
      requires position < |input|
      modifies this
      ensures position == old(position) + if old(position) + 1 < |input| && input[old(position) + 1] == '=' then 2
              else 1
      ensures token == Token(OPERATOR, input[old(position)..position])
    {
      var op := [input[position]];
      position := position + 1;
      if position < |input| && input[position] == '=' {
        op := op + "=";
        position := position + 1;
      }
      return Token(OPERATOR, op);
    }

    method ReadSymbol(kind: TokenType) returns (token: Token)
      requires position < |input|
      modifies this
      ensures position == old(position) + 1 && token == Token(kind, [input[old(position)]])
    {
      token := Token(kind, [input[position]]);
      position := position + 1;
    }

    /** A sign and the number behind it; a plus sign is not part of the token. */
    method ReadSignedNumber() returns (token: Token)
      requires position < |input| && StartsSignedNumber(input[position..])
      modifies this
      ensures var s := input[old(position)..];
              Step(s) == ([token], position - old(position)) && position > old(position)
    {
      ghost var s := input[position..];
      var sign := input[position];
      position := position + 1;
      assert input[position..] == s[1..];
      token := ReadNumber();
      ghost var n := NumberLength(s[1..], false);
      assert token.value == s[1..n + 1];
      if sign == '-' {
        assert "-" + s[1..n + 1] == s[..n + 1];
        token := Token(NUMBER, "-" + token.value);
      }
    }

    /** One round of the lexer's loop. */
    method ReadStep() returns (found: seq<Token>)
      requires position < |input|
      modifies this
      ensures var s := input[old(position)..]; Step(s) == (found, position - old(position)) && position > old(position)
    {
      ghost var start, s := position, input[position..];
      assert s[1..] == input[position + 1..];
      var c := input[position];
      found := [];
      if IsSpace(c) {
        SkipWhitespace();
      } else if IsAlpha(c) || c == '_' {
        var token := ReadWord();
        found := [token];
      } else if IsDigit(c) {
        var token := ReadNumber();
        found := [token];
      } else if (c == '-' || c == '+') && position + 1 < |input| && IsDigit(input[position + 1]) {
        var token := ReadSignedNumber();
        found := [token];
      } else if c == '\'' {
        var token := ReadString();
        found := [token];
      } else if c == '=' || c == '>' || c == '<' || c == '!' {
        var token := ReadOperator();
        found := [token];
      } else if c == '(' || c == ')' || c == ',' {
        var token := ReadSymbol(PUNCTUATION);
        found := [token];
      } else if c == '*' {
        var token := ReadSymbol(WILDCARD);
        found := [token];
      } else {
        position := position + 1;
      }
      assert position <= |input| ==> s[..position - start] == input[start..position];
    }

    method Tokenize() returns (tokens: seq<Token>)
      requires position == 0
      modifies this
      ensures tokens == Tokens(input)
    {
      tokens := [];
      assert input[0..] == input;
      while position < |input|
        invariant tokens + Tokens(Drop(input, position)) == Tokens(input)
        decreases |input| - position
      {
        ghost var start := position;
        var found := ReadStep();
        TokensStep(input, start, position);
        Regroups(tokens, found, Tokens(Drop(input, position)));
        tokens := tokens + found;
      }
      tokens := tokens + [EOF];
    }
  }

  lemma QuotedStep(s: string, i: nat)
    requires i < |s|
    ensures if s[i] != '\'' then
              && QuotedLength(s[i..]) == 1 + QuotedLength(s[i + 1..])
              && QuotedValue(s[i..]) == [s[i]] + QuotedValue(s[i + 1..])
            else if i + 1 < |s| && s[i + 1] == '\'' then
              && QuotedLength(s[i..]) == 2 + QuotedLength(s[i + 2..])
              && QuotedValue(s[i..]) == "'" + QuotedValue(s[i + 2..])
            else QuotedLength(s[i..]) == 0 && QuotedValue(s[i..]) == ""
  {
    assert s[i..][1..] == s[i + 1..];
    if i + 1 < |s| {
      assert s[i..][2..] == s[i + 2..];
    }
  }

  lemma QuotedEnd()
    ensures QuotedLength("") == 0 && QuotedValue("") == ""
  {
  }

  lemma TokensStep(input: string, start: nat, next: nat)
    requires start < |input| && start <= next && Step(input[start..]).1 == next - start
    ensures Tokens(Drop(input, start)) == Step(input[start..]).0 + Tokens(Drop(input, next))
  {
    assert Drop(input[start..], next - start) == Drop(input, next);
  }
}
