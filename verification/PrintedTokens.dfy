/** The lexer reads printed programs as the tokens they stand for. */
module PrintedTokens {
  import opened Common
  import opened Int32
  import opened Ast
  import opened Lexing
  import opened Printing
  import T = Tokens

  // ---------------------------------------------------------------- names that can be printed

  /** A word that is no keyword. */
  predicate LegalName(name: string) {
    && name != [] && IsWordStart(name[0]) && (forall i :: 0 <= i < |name| ==> IsWordChar(name[i]))
    && WordToken(name) == T.Identifier(name)
  }

  predicate LegalExpr(e: Expr)
    decreases e
  {
    match e
    case IntLiteral(_) => true
    case BoolLiteral(_) => true
    case Identifier(name) => LegalName(name)
    case Binary(_, left, right) => LegalExpr(left) && LegalExpr(right)
    case Unary(_, operand) => LegalExpr(operand)
    case Call(name, args) => LegalName(name) && forall i :: 0 <= i < |args| ==> LegalExpr(args[i])
    case ArrayIndex(name, index) => LegalName(name) && LegalExpr(index)
  }

  predicate LegalOpt(e: Option<Expr>) {
    e.Some? ==> LegalExpr(e.value)
  }

  predicate LegalStmt(s: Stmt)
    decreases s, 0
  {
    match s
    case VarDecl(_, name, init, _) => LegalName(name) && LegalOpt(init)
    case Assign(target, index, value) => LegalName(target) && LegalOpt(index) && LegalExpr(value)
    case If(condition, thenBody, elseBody) =>
      LegalExpr(condition) && LegalBlock(thenBody) && (elseBody.Else? ==> LegalBlock(elseBody.body))
    case While(condition, body) => LegalExpr(condition) && LegalBlock(body)
    case Return(value) => LegalExpr(value)
    case Print(value) => LegalExpr(value)
    case ExprStmt(e) => LegalExpr(e)
  }

  predicate LegalBlock(stmts: seq<Stmt>)
    decreases stmts, 0
  {
    stmts == [] || (LegalStmt(stmts[0]) && LegalBlock(stmts[1..]))
  }

  predicate LegalFunction(f: Function) {
    LegalName(f.name) && (forall i :: 0 <= i < |f.params| ==> LegalName(f.params[i].name)) && LegalBlock(f.body)
  }

  /** All names are identifiers of the language. */
  predicate LegalProgram(p: Program) {
    && (forall i :: 0 <= i < |p.globals| ==> LegalName(p.globals[i].name) && LegalOpt(p.globals[i].init))
    && (forall i :: 0 <= i < |p.functions| ==> LegalFunction(p.functions[i]))
  }

  // ---------------------------------------------------------------- texts and what they read as

  /** Nothing that could go on with a word. */
  predicate Breaks(s: string) {
    s == [] || !IsWordChar(s[0])
  }

  /** In front of any text this reads as these tokens; a loose end needs a break behind it. */
  ghost predicate Reads(text: string, tokens: seq<Token>, loose: bool) {
    forall rest: string {:trigger text + rest} :: (loose ==> Breaks(rest)) ==> Lex(text + rest) == tokens + Lex(rest)
  }

  lemma Join(a: string, x: seq<Token>, looseA: bool, b: string, y: seq<Token>, looseB: bool)
    requires Reads(a, x, looseA) && Reads(b, y, looseB) && (looseA ==> b != [] && Breaks(b))
    ensures Reads(a + b, x + y, looseB)
  {
    hide Lex, Breaks;
    forall rest: string | looseB ==> Breaks(rest) ensures Lex(a + b + rest) == x + y + Lex(rest) {
      Assoc(a, b, rest);
      BreaksBefore(b, rest);
      assert Lex(a + (b + rest)) == x + Lex(b + rest);
      Assoc(x, y, Lex(rest));
    }
  }

  lemma BreaksBefore(b: string, rest: string)
    ensures b != [] && Breaks(b) ==> Breaks(b + rest)
  {
  }

  lemma Nothing()
    ensures Reads("", [], false)
  {
    hide Lex;
    forall rest: string ensures Lex("" + rest) == [] + Lex(rest) {
      assert "" + rest == rest;
    }
  }

  lemma Blank(c: char)
    requires IsBlank(c)
    ensures Reads([c], [], false)
  {
    hide Lex;
    forall rest: string ensures Lex([c] + rest) == [] + Lex(rest) {
      var s := [c] + rest;
      assert s[1..] == rest;
      assert Skip(s) == Skip(rest);
      LexStep(s);
      LexStep(rest);
    }
  }

  /** One token at the beginning of a text. */
  lemma Begins(s: string, token: Token, n: nat)
    requires s != [] && Skip(s) == s && First(s) == (token, n)
    ensures Lex(s) == [token] + Lex(s[n..])
  {
    LexStep(s);
  }

  lemma NoSkip(s: string)
    requires s != [] && !IsBlank(s[0]) && s[0] != '/'
    ensures Skip(s) == s
  {
  }

  /** A symbol that begins no longer one. */
  predicate Alone(c: char) {
    c in {'+', '-', '*', '(', ')', '{', '}', '[', ']', ';', ','}
  }

  lemma Symbol(c: char)
    requires Alone(c)
    ensures Reads([c], [OneCharToken(c)], false)
  {
    hide Lex, Skip;
    forall rest: string ensures Lex([c] + rest) == [OneCharToken(c)] + Lex(rest) {
      var s := [c] + rest;
      assert s[1..] == rest;
      NoSkip(s);
      SymbolFirst(s);
      Begins(s, OneCharToken(c), 1);
    }
  }

  lemma SymbolFirst(s: string)
    requires s != [] && Alone(s[0])
    ensures First(s) == (OneCharToken(s[0]), 1)
  {
  }

  lemma Word(w: string)
    requires w != [] && IsWordStart(w[0]) && forall i :: 0 <= i < |w| ==> IsWordChar(w[i])
    ensures Reads(w, [WordToken(w)], true)
  {
    hide Lex, Skip, WordToken;
    forall rest: string | Breaks(rest) ensures Lex(w + rest) == [WordToken(w)] + Lex(rest) {
      var s := w + rest;
      assert s[0] == w[0];
      NoSkip(s);
      SpanIs(IsWordChar, s, |w|);
      assert s[..|w|] == w && s[|w|..] == rest;
      Begins(s, WordToken(w), |w|);
    }
  }

  lemma Digits(w: string)
    requires w != [] && forall i :: 0 <= i < |w| ==> IsDigit(w[i])
    ensures Reads(w, [T.IntLiteral(NumberOf(w))], true)
  {
    hide Lex, Skip, NumberOf;
    forall rest: string | Breaks(rest) ensures Lex(w + rest) == [T.IntLiteral(NumberOf(w))] + Lex(rest) {
      var s := w + rest;
      assert s[0] == w[0];
      NoSkip(s);
      SpanIs(IsDigit, s, |w|);
      assert s[..|w|] == w && s[|w|..] == rest;
      Begins(s, T.IntLiteral(NumberOf(w)), |w|);
    }
  }

  /** A symbol with a blank behind it. */
  predicate IsSign(sym: string, token: Token, rest: string) {
    var t := sym + " " + rest;
    t != [] && Skip(t) == t && |t| >= |sym| > 0 && First(t) == (token, |sym|)
  }

  lemma Sign(sym: string, token: Token)
    requires forall rest: string :: IsSign(sym, token, rest)
    ensures Reads(" " + sym + " ", [token], false)
  {
    hide Lex, Skip, First;
    Blank(' ');
    forall rest: string ensures Lex(" " + sym + " " + rest) == [token] + Lex(rest) {
      assert IsSign(sym, token, rest);
      BetweenBlanks(sym, rest);
      var t := sym + " " + rest;
      assert Lex([' '] + t) == [] + Lex(t);
      assert Lex([' '] + rest) == [] + Lex(rest);
      Begins(t, token, |sym|);
    }
  }

  /** An operator between blanks. */
  lemma Operator(op: BinaryOp)
    ensures Reads(" " + BinarySymbol(op) + " ", [BinaryToken(op)], false)
  {
    hide Reads, IsSign;
    forall rest: string ensures IsSign(BinarySymbol(op), BinaryToken(op), rest) {
      OperatorFirst(op, rest);
    }
    Sign(BinarySymbol(op), BinaryToken(op));
  }

  lemma AssignSign()
    ensures Reads(" = ", [T.Assign], false)
  {
    hide Reads, IsSign;
    forall rest: string ensures IsSign("=", T.Assign, rest) {
      AssignFirst(rest);
    }
    Sign("=", T.Assign);
    assert " = " == " " + "=" + " ";
  }

  lemma AssignFirst(rest: string)
    ensures IsSign("=", T.Assign, rest)
  {
    var t := "=" + " " + rest;
    assert t[0] == '=' && t[1] == ("=" + " ")[1];
  }

  lemma BetweenBlanks(sym: string, rest: string)
    ensures " " + sym + " " + rest == [' '] + (sym + " " + rest)
    ensures (sym + " " + rest)[|sym|..] == [' '] + rest
  {
  }

  lemma OperatorFirst(op: BinaryOp, rest: string)
    ensures IsSign(BinarySymbol(op), BinaryToken(op), rest)
  {
    var t := BinarySymbol(op) + " " + rest;
    assert t[0] == BinarySymbol(op)[0] && t[1] == (BinarySymbol(op) + " ")[1];
  }

  lemma Bang(text: string, tokens: seq<Token>, loose: bool)
    requires Reads(text, tokens, loose) && text != [] && text[0] != '='
    ensures Reads("!" + text, [T.Not] + tokens, loose)
  {
    hide Lex, Skip, Breaks;
    forall rest: string | loose ==> Breaks(rest) ensures Lex("!" + text + rest) == [T.Not] + tokens + Lex(rest) {
      var s := "!" + text + rest;
      assert s[1..] == text + rest && s[1] == text[0];
      NoSkip(s);
      BangFirst(s);
      Begins(s, T.Not, 1);
      Assoc([T.Not], tokens, Lex(rest));
    }
  }

  lemma BangFirst(s: string)
    requires |s| >= 2 && s[0] == '!' && s[1] != '='
    ensures First(s) == (T.Not, 1)
  {
  }

  // ---------------------------------------------------------------- numbers

  /** Reading decimal digits undoes writing them, up to the least i32's magnitude. */
  lemma {:induction false} DecimalValue(n: nat)
    requires n <= -I32_MIN
    ensures (forall i :: 0 <= i < |Decimal(n)| ==> IsDigit(Decimal(n)[i])) && NumberOf(Decimal(n)) == NormalizeI32(n)
  {
    hide NextDigit, NormalizeI32;
    var digits := Decimal(n);
    var m := |digits| - 1;
    if n < 10 {
      assert digits[..m] == [];
      DigitAppended(0, n);
    } else {
      DecimalValue(n / 10);
      assert digits[..m] == Decimal(n / 10);
      DigitAppended(n / 10, n % 10);
    }
  }

  lemma DigitAppended(n: nat, d: nat)
    requires d < 10 && 10 * n + d <= -I32_MIN
    ensures NextDigit(n, Digit(d)) == NormalizeI32(10 * n + d)
  {
  }

  lemma IntReads(v: I32)
    ensures Reads(IntText(v), IntTokens(v), true)
  {
    hide Reads, Decimal, NumberOf, NormalizeI32;
    var n: nat := if v < 0 then -(v as int) else v;
    DecimalValue(n);
    Digits(Decimal(n));
    if v < 0 {
      Symbol('-');
      Join("-", [T.Minus], false, Decimal(n), [T.IntLiteral(NormalizeI32(n))], true);
    }
  }

  // ---------------------------------------------------------------- expressions

  lemma Loosen(text: string, tokens: seq<Token>)
    requires Reads(text, tokens, false)
    ensures Reads(text, tokens, true)
  {
    hide Lex;
  }

  lemma {:induction false} ExprBegins(e: Expr)
    requires LegalExpr(e)
    ensures ExprText(e) != [] && ExprText(e)[0] != '='
  {
  }

  lemma NameReads(name: string)
    requires LegalName(name)
    ensures Reads(name, [T.Identifier(name)], true)
  {
    hide Reads, WordToken;
    Word(name);
  }

  lemma BoolReads(b: bool)
    ensures Reads(if b then "true" else "false", [T.BoolLiteral(b)], true)
  {
    hide Reads;
    Word(if b then "true" else "false");
  }

  /** Text between an opening and a closing symbol. */
  lemma Enclosed(open: char, text: string, tokens: seq<Token>, close: char)
    requires Alone(open) && Alone(close) && Reads(text, tokens, true)
    ensures Reads([open] + text + [close], [OneCharToken(open)] + tokens + [OneCharToken(close)], false)
  {
    hide Reads, OneCharToken;
    Symbol(open);
    Symbol(close);
    Join([open], [OneCharToken(open)], false, text, tokens, true);
    Join([open] + text, [OneCharToken(open)] + tokens, true, [close], [OneCharToken(close)], false);
  }

  lemma {:induction false} ExprReads(e: Expr)
    requires LegalExpr(e)
    ensures Reads(ExprText(e), ExprTokens(e), true)
    decreases e, 0
  {
    hide Reads, LegalName, IntText, IntTokens;
    match e {
      case IntLiteral(v) => IntReads(v);
      case BoolLiteral(b) => BoolReads(b);
      case Identifier(name) => NameReads(name);
      case Binary(op, left, right) =>
        ExprReads(left);
        ExprReads(right);
        BinaryReads(op, left, right);
      case Unary(op, operand) =>
        ExprReads(operand);
        UnaryReads(op, operand);
      case Call(name, args) =>
        NameReads(name);
        ArgsRead(args);
        CallReads(name, args);
      case ArrayIndex(name, index) =>
        NameReads(name);
        ExprReads(index);
        IndexReads(name, index);
    }
  }

  lemma BinaryReads(op: BinaryOp, left: Expr, right: Expr)
    requires Reads(ExprText(left), ExprTokens(left), true) && Reads(ExprText(right), ExprTokens(right), true)
    ensures Reads(ExprText(Binary(op, left, right)), ExprTokens(Binary(op, left, right)), true)
  {
    hide Reads, BinarySymbol, BinaryToken;
    var l, x, r, y := ExprText(left), ExprTokens(left), ExprText(right), ExprTokens(right);
    var sign, z := " " + BinarySymbol(op) + " ", [BinaryToken(op)];
    Operator(op);
    Symbol('(');
    Symbol(')');
    Join("(", [T.LParen], false, l, x, true);
    Join("(" + l, [T.LParen] + x, true, sign, z, false);
    Join("(" + l + sign, [T.LParen] + x + z, false, r, y, true);
    Join("(" + l + sign + r, [T.LParen] + x + z + y, true, ")", [T.RParen], false);
    Loosen("(" + l + sign + r + ")", [T.LParen] + x + z + y + [T.RParen]);
  }

  lemma UnaryReads(op: UnaryOp, operand: Expr)
    requires LegalExpr(operand) && Reads(ExprText(operand), ExprTokens(operand), true)
    ensures Reads(ExprText(Unary(op, operand)), ExprTokens(Unary(op, operand)), true)
  {
    hide Reads, LegalExpr;
    var t, x := ExprText(operand), ExprTokens(operand);
    ExprBegins(operand);
    if op == UnaryOp.Neg {
      Symbol('-');
      Join("-", [T.Minus], false, t, x, true);
    } else {
      Bang(t, x, true);
    }
    var signed, y := UnarySymbol(op) + t, [if op == UnaryOp.Neg then T.Minus else T.Not] + x;
    Enclosed('(', signed, y, ')');
    Loosen("(" + signed + ")", [T.LParen] + y + [T.RParen]);
  }

  lemma CallReads(name: string, args: seq<Expr>)
    requires Reads(name, [T.Identifier(name)], true) && Reads(ArgsText(args), ArgsTokens(args), true)
    ensures Reads(ExprText(Call(name, args)), ExprTokens(Call(name, args)), true)
  {
    hide Reads;
    NamedReads(name, '(', ArgsText(args), ArgsTokens(args), ')');
    Loosen(name + "(" + ArgsText(args) + ")", [T.Identifier(name)] + [T.LParen] + ArgsTokens(args) + [T.RParen]);
  }

  lemma IndexReads(name: string, index: Expr)
    requires Reads(name, [T.Identifier(name)], true) && Reads(ExprText(index), ExprTokens(index), true)
    ensures Reads(ExprText(ArrayIndex(name, index)), ExprTokens(ArrayIndex(name, index)), true)
  {
    hide Reads;
    NamedReads(name, '[', ExprText(index), ExprTokens(index), ']');
    Loosen(name + "[" + ExprText(index) + "]", [T.Identifier(name)] + [T.LBracket] + ExprTokens(index) + [T.RBracket]);
  }

  /** A name and something in brackets. */
  lemma NamedReads(name: string, open: char, text: string, tokens: seq<Token>, close: char)
    requires Reads(name, [T.Identifier(name)], true) && Alone(open) && Alone(close) && Reads(text, tokens, true)
    ensures Reads(name + [open] + text + [close], [T.Identifier(name)] + [OneCharToken(open)] + tokens + [OneCharToken(close)], false)
  {
    hide Reads, OneCharToken;
    var x, o, c := [T.Identifier(name)], [OneCharToken(open)], [OneCharToken(close)];
    Symbol(open);
    Symbol(close);
    Join(name, x, true, [open], o, false);
    Join(name + [open], x + o, false, text, tokens, true);
    Join(name + [open] + text, x + o + tokens, true, [close], c, false);
  }

  lemma {:induction false} ArgsRead(args: seq<Expr>)
    requires forall i :: 0 <= i < |args| ==> LegalExpr(args[i])
    ensures Reads(ArgsText(args), ArgsTokens(args), true)
    decreases args, 0
  {
    hide Reads, LegalExpr;
    if args == [] {
      Nothing();
      Loosen("", []);
    } else {
      ExprReads(args[0]);
      if |args| > 1 {
        ArgsRead(args[1..]);
        CommaReads();
        var t, x := ExprText(args[0]), ExprTokens(args[0]);
        Join(t, x, true, ", ", [T.Comma], false);
        Join(t + ", ", x + [T.Comma], false, ArgsText(args[1..]), ArgsTokens(args[1..]), true);
      }
    }
  }

  lemma CommaReads()
    ensures Reads(", ", [T.Comma], false)
  {
    hide Reads;
    Symbol(',');
    Blank(' ');
    assert ", " == "," + " " && [T.Comma] + [] == [T.Comma];
    Join(",", [T.Comma], false, " ", [], false);
  }

  // ---------------------------------------------------------------- fixed texts

  /** White space behind a text. */
  lemma JoinBlanks(a: string, x: seq<Token>, loose: bool, b: string)
    requires Reads(a, x, loose) && Reads(b, [], false) && (loose ==> b != [] && Breaks(b))
    ensures Reads(a + b, x, false)
  {
    hide Reads, Breaks;
    Join(a, x, loose, b, [], false);
    assert x + [] == x;
  }

  lemma KeywordReads(w: string)
    requires w != [] && IsWordStart(w[0]) && forall i :: 0 <= i < |w| ==> IsWordChar(w[i])
    ensures Reads(w + " ", [WordToken(w)], false)
  {
    hide Reads, WordToken;
    Word(w);
    Blank(' ');
    JoinBlanks(w, [WordToken(w)], true, " ");
  }

  lemma TypeReads(ty: Type)
    ensures Reads(TypeText(ty) + " ", [TypeToken(ty)], false)
  {
    hide Reads;
    KeywordReads(TypeText(ty));
  }

  lemma LineEnd()
    ensures Reads(";\n", [T.Semicolon], false) && Reads("}\n", [T.RBrace], false)
  {
    hide Reads;
    Symbol(';');
    Symbol('}');
    Blank('\n');
    assert ";\n" == ";" + "\n" && "}\n" == "}" + "\n";
    JoinBlanks(";", [T.Semicolon], false, "\n");
    JoinBlanks("}", [T.RBrace], false, "\n");
  }

  /** ` {` and the end of the line. */
  lemma BlockOpens()
    ensures Reads(" {\n", [T.LBrace], false)
  {
    hide Reads;
    Blank(' ');
    Symbol('{');
    Blank('\n');
    assert " {" == " " + "{" && " {\n" == " {" + "\n" && [] + [T.LBrace] == [T.LBrace];
    Join(" ", [], false, "{", [T.LBrace], false);
    JoinBlanks(" {", [T.LBrace], false, "\n");
  }

  lemma HeadEnds()
    ensures Reads(") {\n", [T.RParen, T.LBrace], false)
  {
    hide Reads;
    BlockOpens();
    Symbol(')');
    assert ") {\n" == ")" + " {\n" && [T.RParen] + [T.LBrace] == [T.RParen, T.LBrace];
    Join(")", [T.RParen], false, " {\n", [T.LBrace], false);
  }

  lemma ElseOpens()
    ensures Reads(" else {\n", [T.Else, T.LBrace], false)
  {
    hide Reads;
    Blank(' ');
    Word("else");
    BlockOpens();
    assert " else" == " " + "else" && " else {\n" == " else" + " {\n" && [] + [T.Else] == [T.Else] && [T.Else] + [T.LBrace] == [T.Else, T.LBrace];
    Join(" ", [], false, "else", [T.Else], true);
    Join(" else", [T.Else], true, " {\n", [T.LBrace], false);
  }

  /** `if (` or `while (`. */
  lemma HeadBegins(w: string)
    requires w != [] && IsWordStart(w[0]) && forall i :: 0 <= i < |w| ==> IsWordChar(w[i])
    ensures Reads(w + " (", [WordToken(w), T.LParen], false)
  {
    hide Reads, WordToken;
    KeywordReads(w);
    Symbol('(');
    assert w + " (" == w + " " + "(" && [WordToken(w)] + [T.LParen] == [WordToken(w), T.LParen];
    Join(w + " ", [WordToken(w)], false, "(", [T.LParen], false);
  }

  lemma {:induction false} IndentReads(n: nat)
    ensures Reads(Indent(n), [], false)
  {
    hide Reads;
    if n == 0 {
      Nothing();
    } else {
      IndentReads(n - 1);
      Blank(' ');
      assert "  " == " " + " ";
      JoinBlanks(" ", [], false, " ");
      JoinBlanks(Indent(n - 1), [], false, "  ");
    }
  }

  // ---------------------------------------------------------------- statements

  /** A name in front of a sign, with or without an index. */
  lemma TargetReads(target: string, index: Option<Expr>)
    requires LegalName(target) && LegalOpt(index)
    ensures Reads(target + (if index.Some? then "[" + ExprText(index.value) + "]" else ""),
                  [T.Identifier(target)] + (if index.Some? then [T.LBracket] + ExprTokens(index.value) + [T.RBracket] else []), true)
  {
    hide Reads, LegalName, LegalExpr;
    NameReads(target);
    if index.Some? {
      var t, x := ExprText(index.value), ExprTokens(index.value);
      ExprReads(index.value);
      Enclosed('[', t, x, ']');
      Join(target, [T.Identifier(target)], true, "[" + t + "]", [T.LBracket] + x + [T.RBracket], false);
      Loosen(target + ("[" + t + "]"), [T.Identifier(target)] + ([T.LBracket] + x + [T.RBracket]));
    } else {
      assert target + "" == target && [T.Identifier(target)] + [] == [T.Identifier(target)];
    }
  }

  lemma AssignReads(target: string, index: Option<Expr>, value: Expr)
    requires LegalName(target) && LegalOpt(index) && LegalExpr(value)
    ensures Reads(target + (if index.Some? then "[" + ExprText(index.value) + "]" else "") + " = " + ExprText(value) + ";\n",
                  StmtTokens(Assign(target, index, value)), false)
  {
    hide Reads, LegalName, LegalExpr;
    TargetReads(target, index);
    AssignSign();
    ExprReads(value);
    LineEnd();
    var a := target + (if index.Some? then "[" + ExprText(index.value) + "]" else "");
    var x := [T.Identifier(target)] + (if index.Some? then [T.LBracket] + ExprTokens(index.value) + [T.RBracket] else []);
    var t, y := ExprText(value), ExprTokens(value);
    Join(a, x, true, " = ", [T.Assign], false);
    Join(a + " = ", x + [T.Assign], false, t, y, true);
    Join(a + " = " + t, x + [T.Assign] + y, true, ";\n", [T.Semicolon], false);
  }

  lemma DeclReads(ty: Type, name: string, init: Option<Expr>, size: Option<I32>)
    requires LegalName(name) && LegalOpt(init)
    ensures Reads(DeclText(ty, name, init, size), DeclTokens(ty, name, init, size), false)
  {
    hide Reads, LegalName, LegalExpr, TypeText, TypeToken, IntText, IntTokens;
    TypeReads(ty);
    NameReads(name);
    LineEnd();
    var a, x := TypeText(ty) + " " + name, [TypeToken(ty)] + [T.Identifier(name)];
    Join(TypeText(ty) + " ", [TypeToken(ty)], false, name, [T.Identifier(name)], true);
    if size.Some? {
      var t, y := IntText(size.value), IntTokens(size.value);
      IntReads(size.value);
      Enclosed('[', t, y, ']');
      Join(a, x, true, "[" + t + "]", [T.LBracket] + y + [T.RBracket], false);
      Join(a + ("[" + t + "]"), x + ([T.LBracket] + y + [T.RBracket]), false, ";\n", [T.Semicolon], false);
    } else if init.Some? {
      var t, y := ExprText(init.value), ExprTokens(init.value);
      AssignSign();
      ExprReads(init.value);
      Join(" = ", [T.Assign], false, t, y, true);
      Join(a, x, true, " = " + t, [T.Assign] + y, true);
      Join(a + (" = " + t), x + ([T.Assign] + y), true, ";\n", [T.Semicolon], false);
    } else {
      assert a + "" == a && x + [] == x;
      Join(a, x, true, ";\n", [T.Semicolon], false);
    }
  }

  /** A keyword, an expression and the end of the statement. */
  lemma SimpleReads(word: string, token: Token, e: Expr)
    requires Reads(word, [token], false) && LegalExpr(e)
    ensures Reads(word + ExprText(e) + ";\n", [token] + ExprTokens(e) + [T.Semicolon], false)
  {
    hide Reads, LegalExpr;
    ExprReads(e);
    LineEnd();
    Join(word, [token], false, ExprText(e), ExprTokens(e), true);
    Join(word + ExprText(e), [token] + ExprTokens(e), true, ";\n", [T.Semicolon], false);
  }

  /** A head with its condition, up to the statements of the block. */
  lemma HeadReads(w: string, condition: Expr)
    requires w == "if" || w == "while"
    requires LegalExpr(condition)
    ensures Reads(w + " (" + ExprText(condition) + ") {\n", [WordToken(w), T.LParen] + ExprTokens(condition) + [T.RParen, T.LBrace], false)
  {
    hide Reads, LegalExpr, WordToken;
    var t, x := ExprText(condition), ExprTokens(condition);
    HeadBegins(w);
    ExprReads(condition);
    HeadEnds();
    Join(w + " (", [WordToken(w), T.LParen], false, t, x, true);
    Join(w + " (" + t, [WordToken(w), T.LParen] + x, true, ") {\n", [T.RParen, T.LBrace], false);
  }

  /** An opened block, its statements, and its closing brace. */
  lemma BlockReads(head: string, x: seq<Token>, body: string, y: seq<Token>, indent: nat, close: string)
    requires Reads(head, x, false) && Reads(body, y, false) && Reads(close, [T.RBrace], false)
    ensures Reads(head + body + Indent(indent) + close, x + y + [T.RBrace], false)
  {
    hide Reads;
    IndentReads(indent);
    Join(head, x, false, body, y, false);
    JoinBlanks(head + body, x + y, false, Indent(indent));
    Join(head + body + Indent(indent), x + y, false, close, [T.RBrace], false);
  }

  lemma {:induction false} StmtReads(s: Stmt, indent: nat)
    requires LegalStmt(s)
    ensures Reads(StmtText(s, indent), StmtTokens(s), false)
    decreases s, 0
  {
    hide Reads, LegalName, LegalExpr;
    IndentReads(indent);
    match s {
      case VarDecl(ty, name, init, size) =>
        DeclReads(ty, name, init, size);
        Indented(indent, DeclText(ty, name, init, size), StmtTokens(s));
      case Assign(target, index, value) =>
        AssignReads(target, index, value);
        Indented(indent, target + (if index.Some? then "[" + ExprText(index.value) + "]" else "") + " = " + ExprText(value) + ";\n", StmtTokens(s));
      case If(condition, thenBody, elseBody) =>
        StmtsRead(thenBody, indent + 1);
        if elseBody.Else? {
          StmtsRead(elseBody.body, indent + 1);
        }
        IfReads(s, indent);
      case While(condition, body) =>
        StmtsRead(body, indent + 1);
        WhileReads(s, indent);
      case Return(value) =>
        KeywordReads("return");
        assert "return " == "return" + " ";
        SimpleReads("return ", T.Return, value);
        Indented(indent, "return " + ExprText(value) + ";\n", StmtTokens(s));
      case Print(value) =>
        KeywordReads("print");
        assert "print " == "print" + " ";
        SimpleReads("print ", T.Print, value);
        Indented(indent, "print " + ExprText(value) + ";\n", StmtTokens(s));
      case ExprStmt(e) =>
        ExprReads(e);
        LineEnd();
        Join(ExprText(e), ExprTokens(e), true, ";\n", [T.Semicolon], false);
        Indented(indent, ExprText(e) + ";\n", StmtTokens(s));
    }
  }

  lemma Indented(indent: nat, text: string, tokens: seq<Token>)
    requires Reads(text, tokens, false)
    ensures Reads(Indent(indent) + text, tokens, false)
  {
    hide Reads;
    IndentReads(indent);
    Join(Indent(indent), [], false, text, tokens, false);
    assert [] + tokens == tokens;
  }

  lemma WhileReads(s: Stmt, indent: nat)
    requires s.While? && LegalStmt(s) && Reads(BlockText(s.body, indent + 1), BlockTokens(s.body), false)
    ensures Reads(StmtText(s, indent), StmtTokens(s), false)
  {
    hide Reads, LegalExpr, LegalBlock;
    HeadReads("while", s.condition);
    LineEnd();
    var head, x := "while (" + ExprText(s.condition) + ") {\n", [T.While, T.LParen] + ExprTokens(s.condition) + [T.RParen, T.LBrace];
    assert "while (" == "while" + " (";
    BlockReads(head, x, BlockText(s.body, indent + 1), BlockTokens(s.body), indent, "}\n");
    Indented(indent, head + BlockText(s.body, indent + 1) + Indent(indent) + "}\n", StmtTokens(s));
  }

  lemma IfReads(s: Stmt, indent: nat)
    requires s.If? && LegalStmt(s) && Reads(BlockText(s.thenBody, indent + 1), BlockTokens(s.thenBody), false)
    requires s.elseBody.Else? ==> Reads(BlockText(s.elseBody.body, indent + 1), BlockTokens(s.elseBody.body), false)
    ensures Reads(StmtText(s, indent), StmtTokens(s), false)
  {
    hide Reads, LegalExpr, LegalBlock;
    HeadReads("if", s.condition);
    Symbol('}');
    Blank('\n');
    var head, x := "if (" + ExprText(s.condition) + ") {\n", [T.If, T.LParen] + ExprTokens(s.condition) + [T.RParen, T.LBrace];
    assert "if (" == "if" + " (";
    BlockReads(head, x, BlockText(s.thenBody, indent + 1), BlockTokens(s.thenBody), indent, "}");
    var front, y := head + BlockText(s.thenBody, indent + 1) + Indent(indent) + "}", x + BlockTokens(s.thenBody) + [T.RBrace];
    if s.elseBody.Else? {
      var body, z := BlockText(s.elseBody.body, indent + 1), BlockTokens(s.elseBody.body);
      ElseOpens();
      BlockReads(" else {\n", [T.Else, T.LBrace], body, z, indent, "}");
      Join(front, y, false, " else {\n" + body + Indent(indent) + "}", [T.Else, T.LBrace] + z + [T.RBrace], false);
      JoinBlanks(front + (" else {\n" + body + Indent(indent) + "}"), StmtTokens(s), false, "\n");
      Indented(indent, front + (" else {\n" + body + Indent(indent) + "}") + "\n", StmtTokens(s));
    } else {
      assert front + "" == front && y + [] == y;
      JoinBlanks(front, y, false, "\n");
      Indented(indent, front + "\n", StmtTokens(s));
    }
  }

  lemma {:induction false} StmtsRead(stmts: seq<Stmt>, indent: nat)
    requires LegalBlock(stmts)
    ensures Reads(BlockText(stmts, indent), BlockTokens(stmts), false)
    decreases stmts, 0
  {
    hide Reads, LegalStmt, StmtText, StmtTokens;
    if stmts == [] {
      Nothing();
    } else {
      StmtReads(stmts[0], indent);
      StmtsRead(stmts[1..], indent);
      Join(StmtText(stmts[0], indent), StmtTokens(stmts[0]), false, BlockText(stmts[1..], indent), BlockTokens(stmts[1..]), false);
    }
  }

  // ---------------------------------------------------------------- programs

  lemma {:induction false} ParamsRead(params: seq<Param>)
    requires forall i :: 0 <= i < |params| ==> LegalName(params[i].name)
    ensures Reads(ParamsText(params), ParamsTokens(params), true)
  {
    hide Reads, LegalName, TypeText, TypeToken;
    if params == [] {
      Nothing();
      Loosen("", []);
    } else {
      var q := params[0];
      var t, x := ParamText(q), ParamTokens(q);
      TypeReads(q.paramType);
      NameReads(q.name);
      Join(TypeText(q.paramType) + " ", [TypeToken(q.paramType)], false, q.name, [T.Identifier(q.name)], true);
      if |params| > 1 {
        ParamsRead(params[1..]);
        CommaReads();
        Join(t, x, true, ", ", [T.Comma], false);
        Join(t + ", ", x + [T.Comma], false, ParamsText(params[1..]), ParamsTokens(params[1..]), true);
      }
    }
  }

  lemma FunctionReads(f: Function)
    requires LegalFunction(f)
    ensures Reads(FunctionText(f), FunctionTokens(f), false)
  {
    hide Reads, LegalName, LegalBlock, ParamsText, ParamsTokens, BlockText, BlockTokens;
    var a, x := "func " + f.name, [T.Func] + [T.Identifier(f.name)];
    KeywordReads("func");
    assert "func " == "func" + " ";
    NameReads(f.name);
    Join("func ", [T.Func], false, f.name, [T.Identifier(f.name)], true);
    Symbol('(');
    Join(a, x, true, "(", [T.LParen], false);
    ParamsRead(f.params);
    Join(a + "(", x + [T.LParen], false, ParamsText(f.params), ParamsTokens(f.params), true);
    HeadEnds();
    var b, y := a + "(" + ParamsText(f.params), x + [T.LParen] + ParamsTokens(f.params);
    Join(b, y, true, ") {\n", [T.RParen, T.LBrace], false);
    StmtsRead(f.body, 1);
    LineEnd();
    var c, z := b + ") {\n", y + [T.RParen, T.LBrace];
    Join(c, z, false, BlockText(f.body, 1), BlockTokens(f.body), false);
    Join(c + BlockText(f.body, 1), z + BlockTokens(f.body), false, "}\n", [T.RBrace], false);
  }

  lemma {:induction false} GlobalsRead(globals: seq<GlobalVar>)
    requires forall i :: 0 <= i < |globals| ==> LegalName(globals[i].name) && LegalOpt(globals[i].init)
    ensures Reads(GlobalsText(globals), GlobalsTokens(globals), false)
  {
    hide Reads, LegalName, LegalOpt, DeclText, DeclTokens;
    if globals == [] {
      Nothing();
    } else {
      var g := globals[0];
      DeclReads(g.varType, g.name, g.init, g.size);
      GlobalsRead(globals[1..]);
      Join(DeclText(g.varType, g.name, g.init, g.size), DeclTokens(g.varType, g.name, g.init, g.size), false,
           GlobalsText(globals[1..]), GlobalsTokens(globals[1..]), false);
    }
  }

  lemma {:induction false} FunctionsRead(functions: seq<Function>)
    requires forall i :: 0 <= i < |functions| ==> LegalFunction(functions[i])
    ensures Reads(FunctionsText(functions), FunctionsTokens(functions), false)
  {
    hide Reads, LegalFunction, FunctionText, FunctionTokens;
    if functions == [] {
      Nothing();
    } else {
      var t, x := FunctionText(functions[0]), FunctionTokens(functions[0]);
      FunctionReads(functions[0]);
      if |functions| == 1 {
        assert x + [] == x;
      } else {
        FunctionsRead(functions[1..]);
        Blank('\n');
        JoinBlanks(t, x, false, "\n");
        Join(t + "\n", x, false, FunctionsText(functions[1..]), FunctionsTokens(functions[1..]), false);
      }
    }
  }

  /** The lexer reads a printed program as its tokens. */
  lemma ProgramReads(p: Program)
    requires LegalProgram(p)
    ensures Lex(ProgramText(p)) == ProgramTokens(p) + [T.Eof]
  {
    hide Reads, LegalFunction, GlobalsText, FunctionsText, GlobalsTokens, FunctionsTokens;
    GlobalsRead(p.globals);
    FunctionsRead(p.functions);
    var line := if p.globals != [] && p.functions != [] then "\n" else "";
    Blank('\n');
    Nothing();
    JoinBlanks(GlobalsText(p.globals), GlobalsTokens(p.globals), false, line);
    Join(GlobalsText(p.globals) + line, GlobalsTokens(p.globals), false, FunctionsText(p.functions), FunctionsTokens(p.functions), false);
    WholeText(ProgramText(p), ProgramTokens(p));
  }

  lemma WholeText(text: string, tokens: seq<Token>)
    requires Reads(text, tokens, false)
    ensures Lex(text) == tokens + [T.Eof]
  {
    assert text + "" == text;
    assert Lex("") == [T.Eof];
  }
}
