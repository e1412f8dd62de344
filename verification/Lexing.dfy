/** From text to tokens. Positions for messages are left out. */
module Lexing {
  import opened Common
  import opened Int32
  import T = Tokens

  type Token = T.Token

  predicate IsDigit(c: char) {
    '0' <= c <= '9'
  }

  function DigitValue(c: char): (v: nat)
    requires IsDigit(c)
    ensures v < 10
  {
    c as int - '0' as int
  }

  predicate IsWordStart(c: char) {
    'a' <= c <= 'z' || 'A' <= c <= 'Z' || c == '_'
  }

  predicate IsWordChar(c: char) {
    IsWordStart(c) || IsDigit(c)
  }

  predicate IsBlank(c: char) {
    c == ' ' || c == '\t' || c == '\n' || c == '\r'
  }

  // ---------------------------------------------------------------- what the lexer sees in a text

  /** The text from the next newline on. */
  function SkipLine(s: string): (r: string)
    ensures |r| <= |s|
  {
    if s == [] || s[0] == '\n' then s else SkipLine(s[1..])
  }

  /** The text without leading blanks and comments. */
  function Skip(s: string): (r: string)
    ensures |r| <= |s|
    ensures r != [] ==> !IsBlank(r[0]) && !(|r| >= 2 && r[0] == '/' && r[1] == '/')
    decreases |s|
  {
    if s == [] then s
    else if IsBlank(s[0]) then Skip(s[1..])
    else if |s| >= 2 && s[0] == '/' && s[1] == '/' then Skip(SkipLine(s[1..]))
    else s
  }

  /** How many characters of a kind a text begins with. */
  function Span(kind: char -> bool, s: string): (n: nat)
    ensures n <= |s| && (forall i :: 0 <= i < n ==> kind(s[i])) && (n < |s| ==> !kind(s[n]))
  {
    if s == [] || !kind(s[0]) then 0 else 1 + Span(kind, s[1..])
  }

  /** The value of decimal digits in wrapping i32 arithmetic. */
  function NumberOf(digits: string): I32
    requires forall i :: 0 <= i < |digits| ==> IsDigit(digits[i])
  {
    if digits == [] then 0
    else
      var n := |digits| - 1;
      NextDigit(NumberOf(digits[..n]), digits[n])
  }

  function NextDigit(value: I32, c: char): I32
    requires IsDigit(c)
  {
    NormalizeI32(NormalizeI32(value * 10) + DigitValue(c))
  }

  function WordToken(text: string): Token {
    if text == "int" then T.IntType
    else if text == "bool" then T.BoolType
    else if text == "if" then T.If
    else if text == "else" then T.Else
    else if text == "while" then T.While
    else if text == "func" then T.Func
    else if text == "return" then T.Return
    else if text == "print" then T.Print
    else if text == "true" then T.BoolLiteral(true)
    else if text == "false" then T.BoolLiteral(false)
    else T.Identifier(text)
  }

  function TwoCharToken(c: char, d: char): Option<Token> {
    if c == '=' && d == '=' then Some(T.Eq)
    else if c == '!' && d == '=' then Some(T.Ne)
    else if c == '<' && d == '=' then Some(T.Le)
    else if c == '>' && d == '=' then Some(T.Ge)
    else if c == '&' && d == '&' then Some(T.And)
    else if c == '|' && d == '|' then Some(T.Or)
    else None
  }

  function OneCharToken(c: char): Token {
    match c
    case '+' => T.Plus
    case '-' => T.Minus
    case '*' => T.Star
    case '/' => T.Slash
    case '<' => T.Lt
    case '>' => T.Gt
    case '!' => T.Not
    case '=' => T.Assign
    case '(' => T.LParen
    case ')' => T.RParen
    case '{' => T.LBrace
    case '}' => T.RBrace
    case '[' => T.LBracket
    case ']' => T.RBracket
    case ';' => T.Semicolon
    case ',' => T.Comma
    case _ => T.Error(c)
  }

  /** The first token of a text that begins with one, and its length. */
  function First(s: string): (r: (Token, nat))
    requires s != []
    ensures 0 < r.1 <= |s| && r.0 != T.Eof
  {
    if IsDigit(s[0]) then
      var n := Span(IsDigit, s);
      (T.IntLiteral(NumberOf(s[..n])), n)
    else if IsWordStart(s[0]) then
      var n := Span(IsWordChar, s);
      (WordToken(s[..n]), n)
    else if |s| >= 2 && TwoCharToken(s[0], s[1]).Some? then (TwoCharToken(s[0], s[1]).value, 2)
    else (OneCharToken(s[0]), 1)
  }

  /** The tokens of a text, up to and with the end of the text. */
  function Lex(s: string): (tokens: seq<Token>)
    ensures tokens != [] && tokens[|tokens| - 1] == T.Eof
    ensures forall i :: 0 <= i < |tokens| - 1 ==> tokens[i] != T.Eof
    decreases |s|
  {
    var r := Skip(s);
    if r == [] then [T.Eof] else [First(r).0] + Lex(r[First(r).1..])
  }

  // ---------------------------------------------------------------- the lexer

  class Lexer {
    const source: string
    var pos: nat

    predicate Valid()
      reads this
    {
      pos <= |source|
    }

    function Rest(): string
      requires Valid()
      reads this
    {
      source[pos..]
    }

    constructor (source: string)
      ensures Valid() && this.source == source && Rest() == source
    {
      this.source := source;
      pos := 0;
    }

    function Current(): Option<char>
      requires Valid()
      reads this
    {
      if pos < |source| then Some(source[pos]) else None
    }

    function Peek(): Option<char>
      requires Valid()
      reads this
    {
      if pos + 1 < |source| then Some(source[pos + 1]) else None
    }

    method Advance()
      requires Valid() && pos < |source|
      modifies this`pos
      ensures Valid() && pos == old(pos) + 1 && Rest() == old(Rest())[1..]
    {
      pos := pos + 1;
    }

    method SkipWhitespaceAndComments()
      requires Valid()
      modifies this`pos
      ensures Valid() && Rest() == Skip(old(Rest()))
    {
      while true
        invariant Valid() && Skip(Rest()) == Skip(old(Rest()))
        decreases |source| - pos
      {
        while Current().Some? && IsBlank(Current().value)
          invariant Valid() && pos >= old(pos) && Skip(Rest()) == Skip(old(Rest()))
          decreases |source| - pos
        {
          Advance();
        }
        if Current() != Some('/') || Peek() != Some('/') {
          return;
        }
        ghost var comment := Rest();
        Advance();
        while Current().Some? && Current() != Some('\n')
          invariant Valid() && |Rest()| < |comment| && SkipLine(Rest()) == SkipLine(comment[1..])
          decreases |source| - pos
        {
          Advance();
        }
      }
    }

    method ScanNumber() returns (token: Token)
      requires Valid() && pos < |source| && IsDigit(source[pos])
      modifies this`pos
      ensures Valid() && var n := Span(IsDigit, old(Rest())); Rest() == old(Rest())[n..] && token == T.IntLiteral(NumberOf(old(Rest())[..n]))
    {
      hide NextDigit, NormalizeI32;
      var value: I32 := 0;
      ghost var s := Rest();
      ghost var start := pos;
      while Current().Some? && IsDigit(Current().value)
        invariant Valid() && start <= pos && (forall i :: 0 <= i < pos - start ==> IsDigit(s[i]))
        invariant value == NumberOf(s[..pos - start])
        decreases |source| - pos
      {
        assert s[pos - start] == Current().value;
        assert s[..pos + 1 - start][..pos - start] == s[..pos - start];
        value := NextDigit(value, Current().value);
        Advance();
      }
      SpanIs(IsDigit, s, pos - start);
      return T.IntLiteral(value);
    }

    method ScanIdentifierOrKeyword() returns (token: Token)
      requires Valid() && pos < |source| && IsWordStart(source[pos])
      modifies this`pos
      ensures Valid() && var n := Span(IsWordChar, old(Rest())); Rest() == old(Rest())[n..] && token == WordToken(old(Rest())[..n])
    {
      var start := pos;
      ghost var s := Rest();
      while Current().Some? && IsWordChar(Current().value)
        invariant Valid() && start <= pos && forall i :: 0 <= i < pos - start ==> IsWordChar(s[i])
        decreases |source| - pos
      {
        assert s[pos - start] == Current().value;
        Advance();
      }
      SpanIs(IsWordChar, s, pos - start);
      assert source[start..pos] == s[..pos - start];
      return WordToken(source[start..pos]);
    }

    method NextToken() returns (token: Token)
      requires Valid()
      modifies this`pos
      ensures Valid()
      ensures
        var s := Skip(old(Rest()));
        if s == [] then token == T.Eof && Rest() == []
        else token == First(s).0 && Rest() == s[First(s).1..]
    {
      SkipWhitespaceAndComments();
      if Current().None? {
        return T.Eof;
      }
      var c := Current().value;
      ghost var s := Rest();
      if IsDigit(c) {
        token := ScanNumber();
        return;
      }
      if IsWordStart(c) {
        token := ScanIdentifierOrKeyword();
        return;
      }
      if Peek().Some? && TwoCharToken(c, Peek().value).Some? {
        token := TwoCharToken(c, Peek().value).value;
        Advance();
        Advance();
        return;
      }
      Advance();
      return OneCharToken(c);
    }

    /** The whole text as tokens. */
    method Tokenize() returns (tokens: seq<Token>)
      requires Valid()
      modifies this`pos
      ensures tokens == Lex(old(Rest()))
    {
      hide Skip, First, Lex;
      ghost var all := Lex(Rest());
      tokens := [];
      while true
        invariant Valid() && tokens + Lex(Rest()) == all
        decreases |source| - pos
      {
        ghost var s := Rest();
        LexStep(s);
        var token := NextToken();
        assert Lex(s) == [token] + (if token == T.Eof then [] else Lex(Rest()));
        Assoc(tokens, [token], if token == T.Eof then [] else Lex(Rest()));
        tokens := tokens + [token];
        if token == T.Eof {
          return;
        }
      }
    }
  }

  lemma {:induction false} SpanIs(kind: char -> bool, s: string, n: nat)
    requires n <= |s| && (forall i :: 0 <= i < n ==> kind(s[i])) && (n < |s| ==> !kind(s[n]))
    ensures Span(kind, s) == n
  {
    if n > 0 {
      SpanIs(kind, s[1..], n - 1);
    }
  }

  lemma LexStep(s: string)
    ensures
      var r := Skip(s);
      Lex(s) == if r == [] then [T.Eof] else [First(r).0] + Lex(r[First(r).1..])
  {
  }

  lemma Assoc<A>(a: seq<A>, b: seq<A>, c: seq<A>)
    ensures a + (b + c) == a + b + c
  {
  }
}
