/**
 * What the lexer makes of comments, blanks and single words, said about whole texts: comments are as good as their line
 * ends, blanks separate, and every token is read from its own spelling.
 */
module Lexemes {
  import opened Common
  import opened Int32
  import opened Lexing
  import opened Operators
  import P = PrintedTokens
  import T = Tokens

  // ---------------------------------------------------------------- single tokens in any surroundings

  predicate OpensComment(s: string) {
    |s| >= 2 && s[0] == '/' && s[1] == '/'
  }

  /** What follows a token goes on as it did, or breaks off. */
  predicate GoesOn(s: string, n: nat, rest: string)
    requires n <= |s|
  {
    rest == [] || IsBlank(rest[0]) || (n < |s| && rest[0] == s[n])
  }

  lemma SpanStays(kind: char -> bool, s: string, rest: string)
    requires GoesOn(s, Span(kind, s), rest) && forall c | IsBlank(c) :: !kind(c)
    ensures Span(kind, s[..Span(kind, s)] + rest) == Span(kind, s)
  {
    SpanIs(kind, s[..Span(kind, s)] + rest, Span(kind, s));
  }

  /** The first token depends on nothing behind the character that ends it. */
  lemma FirstStays(s: string, rest: string)
    requires s != [] && GoesOn(s, First(s).1, rest)
    ensures First(s[..First(s).1] + rest) == First(s)
  {
    hide NumberOf, WordToken;
    var n := First(s).1;
    var u := s[..n] + rest;
    assert u[..n] == s[..n] && u[0] == s[0];
    if IsDigit(s[0]) {
      SpanStays(IsDigit, s, rest);
    } else if IsWordStart(s[0]) {
      SpanStays(IsWordChar, s, rest);
    } else if n == 2 {
      assert u[1] == s[1];
    }
  }

  lemma SkipStays(s: string, rest: string)
    requires s != [] && !IsBlank(s[0]) && !OpensComment(s) && GoesOn(s, First(s).1, rest)
    ensures var u := s[..First(s).1] + rest; Skip(s) == s && Skip(u) == u
  {
    hide NumberOf, WordToken;
    var u := s[..First(s).1] + rest;
    assert u[0] == s[0];
    if s[0] == '/' && |u| >= 2 {
      assert First(s).1 == 1 && u[1] == rest[0];
    }
  }

  /** A text that begins with a token, whatever follows it. */
  lemma LexStays(s: string, rest: string)
    requires s != [] && !IsBlank(s[0]) && !OpensComment(s) && GoesOn(s, First(s).1, rest)
    ensures Lex(s) == [First(s).0] + Lex(s[First(s).1..])
    ensures Lex(s[..First(s).1] + rest) == [First(s).0] + Lex(rest)
  {
    hide First, Skip, Lex;
    var n := First(s).1;
    var u := s[..n] + rest;
    SkipStays(s, rest);
    FirstStays(s, rest);
    LexStep(s);
    LexStep(u);
    assert u[n..] == rest;
  }

  lemma LexBlank(c: char, s: string)
    requires IsBlank(c)
    ensures Lex([c] + s) == Lex(s)
  {
    hide Lex, First;
    assert ([c] + s)[1..] == s;
    LexStep([c] + s);
    LexStep(s);
  }

  // ---------------------------------------------------------------- comments

  /** A text without its comments: two slashes drop what follows up to the end of the line. */
  function Uncommented(s: string, inside: bool): string {
    if s == [] then []
    else if s[0] == '\n' then [s[0]] + Uncommented(s[1..], false)
    else if inside || (|s| >= 2 && s[0] == '/' && s[1] == '/') then Uncommented(s[1..], true)
    else [s[0]] + Uncommented(s[1..], false)
  }

  lemma {:induction false} LineSkipped(s: string)
    ensures Uncommented(s, true) == Uncommented(SkipLine(s), false)
  {
    if s != [] && s[0] != '\n' {
      LineSkipped(s[1..]);
    }
  }

  /** No comment begins among the first characters. */
  predicate NoneOpens(s: string, n: nat)
    requires n <= |s|
  {
    forall i :: 0 <= i < n && i + 1 < |s| ==> !(s[i] == '/' && s[i + 1] == '/')
  }

  lemma Shifted(s: string, n: nat)
    requires 0 < n <= |s| && NoneOpens(s, n)
    ensures NoneOpens(s[1..], n - 1)
  {
    var t := s[1..];
    forall i | 0 <= i < n - 1 && i + 1 < |t| ensures !(t[i] == '/' && t[i + 1] == '/') {
      assert t[i] == s[i + 1] && t[i + 1] == s[i + 1 + 1];
    }
  }

  lemma {:induction false} Kept(s: string, n: nat)
    requires n <= |s| && NoneOpens(s, n)
    ensures Uncommented(s, false) == s[..n] + Uncommented(s[n..], false)
  {
    if n > 0 {
      Shifted(s, n);
      Kept(s[1..], n - 1);
      assert s[1..][n - 1..] == s[n..];
      assert s[..n] == [s[0]] + s[1..][..n - 1];
      assert !OpensComment(s);
      assert Uncommented(s, false) == [s[0]] + Uncommented(s[1..], false);
    } else {
      assert s[..0] == [] && s[0..] == s;
    }
  }

  lemma {:induction false} UncommentedBegins(s: string)
    ensures GoesOn(s, 0, Uncommented(s, false))
  {
    if s != [] {
      DroppedBegins(s[1..]);
    }
  }

  lemma {:induction false} DroppedBegins(s: string)
    ensures var u := Uncommented(s, true); u == [] || u[0] == '\n'
  {
    if s != [] && s[0] != '\n' {
      DroppedBegins(s[1..]);
    }
  }

  lemma TokenOpensNone(s: string)
    requires s != [] && !OpensComment(s)
    ensures NoneOpens(s, First(s).1)
  {
    hide NumberOf, WordToken;
  }

  /** A text has the tokens of the text without its comments. */
  lemma {:induction false} CommentsVanish(s: string)
    ensures Lex(s) == Lex(Uncommented(s, false))
    decreases |s|
  {
    hide Lex, First, Skip, NoneOpens;
    if s == [] {
      return;
    }
    if IsBlank(s[0]) {
      assert s == [s[0]] + s[1..];
      LexBlank(s[0], s[1..]);
      LexBlank(s[0], Uncommented(s[1..], false));
      CommentsVanish(s[1..]);
    } else if OpensComment(s) {
      LexComment(s);
      LineSkipped(s[1..]);
      CommentsVanish(SkipLine(s[1..]));
    } else {
      var n := First(s).1;
      var rest := Uncommented(s[n..], false);
      TokenOpensNone(s);
      Kept(s, n);
      UncommentedBegins(s[n..]);
      LexStays(s, rest);
      CommentsVanish(s[n..]);
    }
  }

  lemma LexComment(s: string)
    requires OpensComment(s)
    ensures Lex(s) == Lex(SkipLine(s[1..]))
  {
    hide Lex, First;
    LexStep(s);
    LexStep(SkipLine(s[1..]));
  }

  // ---------------------------------------------------------------- blanks

  /** No token reaches over a blank: the tokens on its sides are those of the texts on its sides. */
  lemma {:induction false} BlanksSeparate(a: string, c: char, b: string)
    requires c in {' ', '\t', '\n', '\r'} && NoneOpens(a, |a|)
    ensures Lex(a + ([c] + b)) == Lex(a)[..|Lex(a)| - 1] + Lex(b)
    decreases |a|
  {
    hide Lex, First, Skip;
    var behind := [c] + b;
    if a == [] {
      assert a + behind == behind;
      LexBlank(c, b);
      LexNothing();
    } else if IsBlank(a[0]) {
      assert a == [a[0]] + a[1..] && a + behind == [a[0]] + (a[1..] + behind);
      LexBlank(a[0], a[1..]);
      LexBlank(a[0], a[1..] + behind);
      BlanksSeparate(a[1..], c, b);
    } else {
      var n := First(a).1;
      var more := a[n..];
      LexStays(a, more + behind);
      assert a[..n] + (more + behind) == a + behind;
      BlanksSeparate(more, c, b);
      OneMoreToken(First(a).0, Lex(more), Lex(b));
    }
  }

  lemma LexNothing()
    ensures Lex([]) == [T.Eof]
  {
  }

  lemma OneMoreToken(t: Token, x: seq<Token>, y: seq<Token>)
    requires x != []
    ensures [t] + (x[..|x| - 1] + y) == ([t] + x)[..|[t] + x| - 1] + y
  {
  }

  // ---------------------------------------------------------------- spellings

  /** How a token without content is written. */
  function Spelling(t: Token): string {
    match t
    case IntType => "int"
    case BoolType => "bool"
    case If => "if"
    case Else => "else"
    case While => "while"
    case Func => "func"
    case Return => "return"
    case Print => "print"
    case BoolLiteral(b) => if b then "true" else "false"
    case Plus => "+"
    case Minus => "-"
    case Star => "*"
    case Slash => "/"
    case Eq => "=="
    case Ne => "!="
    case Lt => "<"
    case Gt => ">"
    case Le => "<="
    case Ge => ">="
    case And => "&&"
    case Or => "||"
    case Not => "!"
    case Assign => "="
    case LParen => "("
    case RParen => ")"
    case LBrace => "{"
    case RBrace => "}"
    case LBracket => "["
    case RBracket => "]"
    case Semicolon => ";"
    case Comma => ","
    case IntLiteral(_) => ""
    case Identifier(name) => name
    case Eof => ""
    case Error(c) => [c]
  }

  predicate IsSymbol(t: Token) {
    !t.IntLiteral? && !t.Identifier? && !t.Eof? && !t.Error? && !IsKeyword(t)
  }

  predicate IsKeyword(t: Token) {
    t in {T.IntType, T.BoolType, T.If, T.Else, T.While, T.Func, T.Return, T.Print, T.BoolLiteral(true), T.BoolLiteral(false)}
  }

  lemma Alone(s: string)
    requires s != [] && !IsBlank(s[0]) && !OpensComment(s) && First(s).1 == |s|
    ensures Lex(s) == [First(s).0, T.Eof]
  {
    hide First, Skip, Lex, WordToken, IsBlank;
    SkipNothing(s);
    LexStep(s);
    LexNothing();
    assert s[|s|..] == [];
  }

  lemma SkipNothing(s: string)
    requires s != [] && !IsBlank(s[0]) && !OpensComment(s)
    ensures Skip(s) == s
  {
  }

  /** Every operator and bracket is read from its spelling. */
  lemma SymbolsAreRead(t: Token)
    requires IsSymbol(t)
    ensures Lex(Spelling(t)) == [t, T.Eof]
  {
    hide Lex, Skip, WordToken;
    SymbolFirst(t);
    Alone(Spelling(t));
  }

  predicate IsLongSymbol(t: Token) {
    t in {T.Eq, T.Ne, T.Le, T.Ge, T.And, T.Or}
  }

  lemma LongSymbolFirst(t: Token)
    requires IsLongSymbol(t)
    ensures var s := Spelling(t); |s| == 2 && !IsBlank(s[0]) && !OpensComment(s) && First(s) == (t, 2)
  {
    hide NumberOf, WordToken, Span, OneCharToken;
  }

  lemma ShortSymbolFirst(t: Token)
    requires IsSymbol(t) && !IsLongSymbol(t)
    ensures var s := Spelling(t); |s| == 1 && !IsBlank(s[0]) && First(s) == (t, 1)
  {
    hide NumberOf, WordToken, Span, TwoCharToken;
  }

  lemma SymbolFirst(t: Token)
    requires IsSymbol(t)
    ensures var s := Spelling(t); s != [] && !IsBlank(s[0]) && !OpensComment(s) && First(s) == (t, |s|)
  {
    hide Spelling, First, IsSymbol, IsBlank;
    if IsLongSymbol(t) {
      LongSymbolFirst(t);
    } else {
      ShortSymbolFirst(t);
    }
  }

  /** A letter or an underscore, then letters, underscores and digits. */
  predicate IsWord(w: string) {
    && w != []
    && !('0' <= w[0] <= '9')
    && forall i :: 0 <= i < |w| ==> ('a' <= w[i] <= 'z' || 'A' <= w[i] <= 'Z' || w[i] == '_' || '0' <= w[i] <= '9')
  }

  lemma WordFirst(w: string)
    requires IsWord(w)
    ensures First(w) == (WordToken(w), |w|) && !IsBlank(w[0]) && !OpensComment(w)
  {
    hide WordToken;
    SpanIs(IsWordChar, w, |w|);
    assert w[..|w|] == w;
  }

  /** Every word is read as the keyword it spells, and as a name if it spells none. */
  lemma WordsAreRead(w: string)
    requires IsWord(w)
    ensures forall t :: IsKeyword(t) && Spelling(t) == w ==> Lex(w) == [t, T.Eof]
    ensures (forall t :: IsKeyword(t) ==> Spelling(t) != w) ==> Lex(w) == [T.Identifier(w), T.Eof]
  {
    hide Lex, Skip, First, WordToken, Spelling, IsKeyword;
    WordFirst(w);
    Alone(w);
    WordSpelt(w);
    forall t | IsKeyword(t) && Spelling(t) == w ensures WordToken(w) == t {
      KeywordSpelt(t);
    }
  }

  /** The names a program may have are the words that are no keywords. */
  lemma NamesAreWords(w: string)
    ensures P.LegalName(w) <==> IsWord(w) && forall t :: IsKeyword(t) ==> Spelling(t) != w
  {
    hide WordToken, Spelling, IsKeyword;
    WordSpelt(w);
    forall t | IsKeyword(t) && Spelling(t) == w ensures WordToken(w) == t && !t.Identifier? {
      KeywordSpelt(t);
    }
  }

  lemma KeywordSpelt(t: Token)
    requires IsKeyword(t)
    ensures WordToken(Spelling(t)) == t && !t.Identifier?
  {
  }

  lemma WordSpelt(w: string)
    ensures var t := WordToken(w); t == T.Identifier(w) || (IsKeyword(t) && Spelling(t) == w)
  {
  }

  /** Any other character is an error of its own. */
  lemma StrangersAreErrors(c: char)
    requires !IsWord([c]) && !('0' <= c <= '9') && c !in {' ', '\t', '\n', '\r'}
    requires c !in {'+', '-', '*', '/', '<', '>', '!', '=', '(', ')', '{', '}', '[', ']', ';', ','}
    ensures Lex([c]) == [T.Error(c), T.Eof]
  {
    hide Lex, Skip, WordToken, NumberOf;
    Alone([c]);
  }

  // ---------------------------------------------------------------- numbers

  /** The number some decimal digits stand for. */
  function Number(digits: string): nat
    requires forall i :: 0 <= i < |digits| ==> '0' <= digits[i] <= '9'
  {
    if digits == [] then 0
    else
      var n := |digits| - 1;
      10 * Number(digits[..n]) + (digits[n] as int - '0' as int)
  }

  /** Reading digits in wrapping arithmetic gives the i32 that the number narrows to. */
  lemma {:induction false} DigitsNarrow(digits: string)
    requires forall i :: 0 <= i < |digits| ==> '0' <= digits[i] <= '9'
    ensures Narrows(NumberOf(digits), Number(digits))
  {
    hide NormalizeI32;
    if digits == [] {
      assert 0 == 0 + 0 * TWO_32;
    } else {
      var n := |digits| - 1;
      DigitsNarrow(digits[..n]);
      NextNarrows(NumberOf(digits[..n]), Number(digits[..n]), digits[n]);
    }
  }

  lemma NextNarrows(value: I32, number: int, c: char)
    requires Narrows(value, number) && '0' <= c <= '9'
    ensures Narrows(NextDigit(value, c), 10 * number + (c as int - '0' as int))
  {
    hide NormalizeI32;
    var d := c as int - '0' as int;
    NormalizeNarrows(value * 10);
    NormalizeNarrows(NormalizeI32(value * 10) + d);
    var i: int :| value == number + i * TWO_32;
    var j: int :| NormalizeI32(value * 10) == value * 10 + j * TWO_32;
    var k: int :| NextDigit(value, c) == NormalizeI32(value * 10) + d + k * TWO_32;
    assert NextDigit(value, c) == 10 * number + d + (10 * i + j + k) * TWO_32;
  }

  /** Digits are read as that i32. */
  lemma NumbersAreRead(w: string)
    requires w != [] && forall i :: 0 <= i < |w| ==> '0' <= w[i] <= '9'
    ensures exists v: I32 :: Lex(w) == [T.IntLiteral(v), T.Eof] && Narrows(v, Number(w))
  {
    hide Lex, Skip, NumberOf, Number, Narrows;
    SpanIs(IsDigit, w, |w|);
    assert w[..|w|] == w;
    DigitsNarrow(w);
    Alone(w);
  }
}
