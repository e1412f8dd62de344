/** Parsing a printed program gives the program back. */
module RoundTrip {
  import opened Common
  import opened Int32
  import opened Ast
  import opened Parsing
  import opened Printing
  import opened PrintedTokens
  import opened Rereading
  import G = Grammar
  import Lexing
  import T = Tokens

  // ---------------------------------------------------------------- sizes the grammar can express

  predicate SizedStmt(s: Stmt)
    decreases s, 0
  {
    match s
    case VarDecl(_, _, _, size) => size.Some? ==> size.value >= 0
    case If(_, thenBody, elseBody) => SizedBlock(thenBody) && (elseBody.Else? ==> SizedBlock(elseBody.body))
    case While(_, body) => SizedBlock(body)
    case _ => true
  }

  predicate SizedBlock(stmts: seq<Stmt>)
    decreases stmts, 0
  {
    stmts == [] || (SizedStmt(stmts[0]) && SizedBlock(stmts[1..]))
  }

  predicate SizedGlobals(globals: seq<GlobalVar>) {
    forall i :: 0 <= i < |globals| && globals[i].size.Some? ==> globals[i].size.value >= 0
  }

  predicate SizedFunctions(functions: seq<Function>) {
    forall i :: 0 <= i < |functions| ==> SizedBlock(functions[i].body)
  }

  /** No declared size is negative. */
  predicate Sized(p: Program) {
    SizedGlobals(p.globals) && SizedFunctions(p.functions)
  }

  // ---------------------------------------------------------------- expressions

  /** Tokens that end an expression. */
  predicate Ends(ts: seq<Token>) {
    Current(ts) in {T.RParen, T.RBracket, T.Comma, T.Semicolon}
  }

  predicate NoOpFrom(level: nat, until: nat, token: Token) {
    forall k :: level <= k < until ==> OpAt(k, token).None?
  }

  /** Levels whose operators do not follow leave an operand alone. */
  lemma {:induction false} Through(level: nat, until: nat, ts: seq<Token>, e: Expr, rest: seq<Token>)
    requires level <= until <= LEVELS && ParseLevel(until, ts) == Parsed(e, rest) && NoOpFrom(level, until, Current(rest))
    ensures ParseLevel(level, ts) == Parsed(e, rest)
    decreases until - level
  {
    hide ParseUnary, OpAt;
    if level < until {
      Through(level + 1, until, ts, e, rest);
    }
  }

  lemma WholeExpr(ts: seq<Token>, e: Expr, rest: seq<Token>)
    requires ParseUnary(ts) == Parsed(e, rest) && Ends(rest)
    ensures ParseExpr(ts) == Parsed(e, rest)
  {
    hide ParseUnary;
    assert ParseLevel(LEVELS, ts) == ParseUnary(ts);
    Through(0, LEVELS, ts, e, rest);
  }

  lemma Closed(ts: seq<Token>, e: Expr, close: Token, rest: seq<Token>)
    requires ParseExpr(ts) == Parsed(e, [close] + rest)
    ensures ParseClosed(ts, close) == Parsed(e, rest)
  {
    hide ParseExpr;
    assert ([close] + rest)[1..] == rest;
  }

  /** An operator between two operands, and a bracket. */
  lemma BinaryParsed(op: BinaryOp, ts: seq<Token>, left: Expr, mid: seq<Token>, right: Expr, rest: seq<Token>)
    requires ParseUnary(ts) == Parsed(left, [BinaryToken(op)] + mid) && ParseUnary(mid) == Parsed(right, rest) && Ends(rest)
    ensures ParseExpr(ts) == Parsed(Binary(op, left, right), rest)
  {
    hide ParseUnary, BinaryToken;
    var level, behind := G.Strength(op) - 1, [BinaryToken(op)] + mid;
    OnlyLevel(op);
    assert behind[1..] == mid;
    assert ParseLevel(LEVELS, ts) == ParseUnary(ts) && ParseLevel(LEVELS, mid) == ParseUnary(mid);
    Through(level + 1, LEVELS, ts, left, behind);
    EndsNoOp(rest);
    Through(level + 1, LEVELS, mid, right, rest);
    MoreOnce(level, op, left, behind, right, rest);
    Through(0, level, ts, Binary(op, left, right), rest);
  }

  lemma OnlyLevel(op: BinaryOp)
    ensures OpAt(G.Strength(op) - 1, BinaryToken(op)) == Some(op)
    ensures forall k: nat :: k != G.Strength(op) - 1 ==> OpAt(k, BinaryToken(op)).None?
  {
  }

  lemma EndsNoOp(rest: seq<Token>)
    requires Ends(rest)
    ensures forall level: nat :: OpAt(level, Current(rest)).None?
  {
  }

  lemma MoreOnce(level: nat, op: BinaryOp, left: Expr, ts: seq<Token>, right: Expr, rest: seq<Token>)
    requires level < LEVELS && OpAt(level, Current(ts)) == Some(op) && Ends(rest)
    requires ParseLevel(level + 1, Tail(ts)) == Parsed(right, rest)
    ensures ParseMore(level, left, ts) == Parsed(Binary(op, left, right), rest)
  {
    hide ParseLevel;
    EndsNoOp(rest);
  }

  lemma {:induction false} ExprParsed(e: Expr, rest: seq<Token>)
    requires G.NoBracket(rest)
    ensures ParseUnary(ExprTokens(e) + rest) == Parsed(RereadExpr(e), rest)
    decreases e, 0
  {
    hide ParseExpr, ParseUnary, ParsePrimary, ParseNamed, BinaryToken;
    var ts := ExprTokens(e) + rest;
    match e {
      case IntLiteral(v) => LiteralParsed(v, rest);
      case BoolLiteral(b) => PrimaryParsed(ts, e, rest);
      case Identifier(name) =>
        assert ts[1..] == rest;
        NamedParsed(ts, name, e, rest);
        NoneFollows(name, rest);
      case Binary(op, left, right) =>
        var behind := [T.RParen] + rest;
        OpNoBracket(op);
        ExprParsed(right, behind);
        ExprParsed(left, [BinaryToken(op)] + (ExprTokens(right) + behind));
        BinaryGrouped(op, left, right, rest);
      case Unary(op, operand) =>
        ExprParsed(operand, [T.RParen] + rest);
        UnaryGrouped(op, operand, rest);
      case Call(name, args) =>
        ArgsParsed(args, [T.RParen] + rest);
        CallParsed(name, args, rest);
      case ArrayIndex(name, index) =>
        ExprParsed(index, [T.RBracket] + rest);
        IndexParsed(name, index, rest);
    }
  }

  lemma OpNoBracket(op: BinaryOp)
    ensures BinaryToken(op) != T.LParen && BinaryToken(op) != T.LBracket
  {
  }

  lemma BinaryGrouped(op: BinaryOp, left: Expr, right: Expr, rest: seq<Token>)
    requires
      var behind := [T.RParen] + rest;
      var mid := ExprTokens(right) + behind;
      && ParseUnary(mid) == Parsed(RereadExpr(right), behind)
      && ParseUnary(ExprTokens(left) + ([BinaryToken(op)] + mid)) == Parsed(RereadExpr(left), [BinaryToken(op)] + mid)
    ensures ParseUnary(ExprTokens(Binary(op, left, right)) + rest) == Parsed(RereadExpr(Binary(op, left, right)), rest)
  {
    hide ParseExpr, ParseUnary, BinaryToken;
    var behind := [T.RParen] + rest;
    var mid := ExprTokens(right) + behind;
    var inner := ExprTokens(left) + ([BinaryToken(op)] + mid);
    BinaryParsed(op, inner, RereadExpr(left), mid, RereadExpr(right), behind);
    InParens(ExprTokens(left), [BinaryToken(op)], ExprTokens(right), rest);
    GroupParsed(inner, RereadExpr(Binary(op, left, right)), rest);
  }

  lemma InParens(a: seq<Token>, b: seq<Token>, c: seq<Token>, rest: seq<Token>)
    ensures [T.LParen] + a + b + c + [T.RParen] + rest == [T.LParen] + (a + (b + (c + ([T.RParen] + rest))))
  {
  }

  lemma InParensSigned(sign: Token, a: seq<Token>, rest: seq<Token>)
    ensures [T.LParen] + ([sign] + a) + [T.RParen] + rest == [T.LParen] + ([sign] + (a + ([T.RParen] + rest)))
  {
  }

  lemma UnaryGrouped(op: UnaryOp, operand: Expr, rest: seq<Token>)
    requires ParseUnary(ExprTokens(operand) + ([T.RParen] + rest)) == Parsed(RereadExpr(operand), [T.RParen] + rest)
    ensures ParseUnary(ExprTokens(Unary(op, operand)) + rest) == Parsed(RereadExpr(Unary(op, operand)), rest)
  {
    hide ParseExpr, ParseUnary;
    var behind := [T.RParen] + rest;
    var sign := if op == UnaryOp.Neg then T.Minus else T.Not;
    var inner := [sign] + (ExprTokens(operand) + behind);
    SignedParsed(op, ExprTokens(operand) + behind, RereadExpr(operand), behind);
    WholeExpr(inner, RereadExpr(Unary(op, operand)), behind);
    InParensSigned(sign, ExprTokens(operand), rest);
    GroupParsed(inner, RereadExpr(Unary(op, operand)), rest);
  }

  lemma CallParsed(name: string, args: seq<Expr>, rest: seq<Token>)
    requires ParseArgs(ArgsTokens(args) + ([T.RParen] + rest)) == Parsed(RereadArgs(args), [T.RParen] + rest)
    ensures ParseUnary(ExprTokens(Call(name, args)) + rest) == Parsed(RereadExpr(Call(name, args)), rest)
  {
    hide ParseArgs, ParseUnary, ParseNamed;
    var inner, ts := ArgsTokens(args) + ([T.RParen] + rest), ExprTokens(Call(name, args)) + rest;
    assert ts == [T.Identifier(name)] + ([T.LParen] + inner);
    CallFollows(name, inner, RereadArgs(args), rest);
    NamedParsed(ts, name, RereadExpr(Call(name, args)), rest);
  }

  lemma IndexParsed(name: string, index: Expr, rest: seq<Token>)
    requires ParseUnary(ExprTokens(index) + ([T.RBracket] + rest)) == Parsed(RereadExpr(index), [T.RBracket] + rest)
    ensures ParseUnary(ExprTokens(ArrayIndex(name, index)) + rest) == Parsed(RereadExpr(ArrayIndex(name, index)), rest)
  {
    hide ParseExpr, ParseUnary, ParseNamed;
    var inner, ts := ExprTokens(index) + ([T.RBracket] + rest), ExprTokens(ArrayIndex(name, index)) + rest;
    WholeExpr(inner, RereadExpr(index), [T.RBracket] + rest);
    assert ts == [T.Identifier(name)] + ([T.LBracket] + inner);
    IndexFollows(name, inner, RereadExpr(index), rest);
    NamedParsed(ts, name, RereadExpr(ArrayIndex(name, index)), rest);
  }

  lemma LiteralParsed(v: I32, rest: seq<Token>)
    ensures ParseUnary(IntTokens(v) + rest) == Parsed(RereadExpr(IntLiteral(v)), rest)
  {
    hide NormalizeI32;
    var ts := IntTokens(v) + rest;
    if v < 0 {
      var n := NormalizeI32(-(v as int));
      assert ts[1..] == [T.IntLiteral(n)] + rest;
      PrimaryParsed([T.IntLiteral(n)] + rest, IntLiteral(n), rest);
    } else {
      PrimaryParsed(ts, IntLiteral(v), rest);
    }
  }

  lemma PrimaryParsed(ts: seq<Token>, e: Expr, rest: seq<Token>)
    requires ts == (if e.IntLiteral? then [T.IntLiteral(e.value)] else if e.BoolLiteral? then [T.BoolLiteral(e.flag)] else []) + rest
    requires e.IntLiteral? || e.BoolLiteral?
    ensures ParseUnary(ts) == Parsed(e, rest)
  {
    hide ParseExpr;
    assert ts[1..] == rest;
  }

  /** A name is a primary expression of its own. */
  lemma NamedParsed(ts: seq<Token>, name: string, e: Expr, rest: seq<Token>)
    requires ts != [] && ts[0] == T.Identifier(name)
    ensures ParseNamed(name, ts[1..]) == Parsed(e, rest) ==> ParseUnary(ts) == Parsed(e, rest)
  {
    hide ParseNamed;
  }

  lemma NoneFollows(name: string, rest: seq<Token>)
    requires G.NoBracket(rest)
    ensures ParseNamed(name, rest) == Parsed(Identifier(name), rest)
  {
  }

  lemma CallFollows(name: string, inner: seq<Token>, args: seq<Expr>, rest: seq<Token>)
    requires ParseArgs(inner) == Parsed(args, [T.RParen] + rest)
    ensures ParseNamed(name, [T.LParen] + inner) == Parsed(Call(name, args), rest)
  {
    hide ParseArgs, ParseClosed;
    assert ([T.LParen] + inner)[1..] == inner && ([T.RParen] + rest)[1..] == rest;
  }

  lemma IndexFollows(name: string, inner: seq<Token>, index: Expr, rest: seq<Token>)
    requires ParseExpr(inner) == Parsed(index, [T.RBracket] + rest)
    ensures ParseNamed(name, [T.LBracket] + inner) == Parsed(ArrayIndex(name, index), rest)
  {
    hide ParseArgs, ParseExpr, ParseClosed;
    assert ([T.LBracket] + inner)[1..] == inner;
    Closed(inner, index, T.RBracket, rest);
  }

  lemma GroupParsed(inner: seq<Token>, e: Expr, rest: seq<Token>)
    requires ParseExpr(inner) == Parsed(e, [T.RParen] + rest)
    ensures ParseUnary([T.LParen] + inner) == Parsed(e, rest)
  {
    hide ParseExpr, ParseClosed, ParseNamed;
    assert ([T.LParen] + inner)[1..] == inner;
    Closed(inner, e, T.RParen, rest);
  }

  lemma SignedParsed(op: UnaryOp, inner: seq<Token>, e: Expr, rest: seq<Token>)
    requires ParseUnary(inner) == Parsed(e, rest)
    ensures ParseUnary([if op == UnaryOp.Neg then T.Minus else T.Not] + inner) == Parsed(Unary(op, e), rest)
  {
    hide ParsePrimary;
    var ts := [if op == UnaryOp.Neg then T.Minus else T.Not] + inner;
    assert ts[1..] == inner;
  }

  lemma {:induction false} ExprStarts(e: Expr)
    ensures ExprTokens(e) != [] && BeginsExpr(ExprTokens(e)[0])
  {
  }

  lemma {:induction false} ArgsParsed(args: seq<Expr>, rest: seq<Token>)
    requires Current(rest) == T.RParen
    ensures ParseArgs(ArgsTokens(args) + rest) == Parsed(RereadArgs(args), rest)
    ensures args != [] ==> ParseArgList(ArgsTokens(args) + rest) == Parsed(RereadArgs(args), rest)
    decreases args, 0
  {
    hide ParseExpr, ParseUnary, ParseArgList, ParseArgs, BeginsExpr;
    var ts := ArgsTokens(args) + rest;
    if args == [] {
      assert ts == rest;
      NoArgs(rest);
      return;
    }
    var first, behind := ExprTokens(args[0]), if |args| == 1 then rest else [T.Comma] + (ArgsTokens(args[1..]) + rest);
    ExprStarts(args[0]);
    CommaApart(first, ArgsTokens(args[1..]), rest);
    assert ts == first + behind;
    ExprParsed(args[0], behind);
    WholeExpr(ts, RereadExpr(args[0]), behind);
    SomeArgs(first, behind);
    if |args| > 1 {
      CommaTail(ArgsTokens(args[1..]) + rest);
      ArgsParsed(args[1..], rest);
      ArgListMore(ts, RereadExpr(args[0]), behind, RereadArgs(args[1..]), rest);
    } else {
      ArgListOne(ts, RereadExpr(args[0]), rest);
      assert args[1..] == [] && RereadArgs(args) == [RereadExpr(args[0])];
    }
  }

  lemma NoArgs(rest: seq<Token>)
    requires Current(rest) == T.RParen
    ensures ParseArgs(rest) == Parsed([], rest)
  {
  }

  lemma SomeArgs(first: seq<Token>, behind: seq<Token>)
    requires first != [] && BeginsExpr(first[0])
    ensures ParseArgs(first + behind) == ParseArgList(first + behind)
  {
    hide ParseArgList;
  }

  lemma CommaApart(a: seq<Token>, b: seq<Token>, rest: seq<Token>)
    ensures a + [T.Comma] + b + rest == a + ([T.Comma] + (b + rest))
  {
  }

  lemma CommaTail(rest: seq<Token>)
    ensures Current([T.Comma] + rest) == T.Comma && Tail([T.Comma] + rest) == rest
  {
  }

  lemma ArgListOne(ts: seq<Token>, e: Expr, rest: seq<Token>)
    requires ParseExpr(ts) == Parsed(e, rest) && Current(rest) == T.RParen
    ensures ParseArgList(ts) == Parsed([e], rest)
  {
    hide ParseExpr;
  }

  lemma ArgListMore(ts: seq<Token>, e: Expr, behind: seq<Token>, more: seq<Expr>, rest: seq<Token>)
    requires ParseExpr(ts) == Parsed(e, behind) && Current(behind) == T.Comma && ParseArgList(Tail(behind)) == Parsed(more, rest)
    ensures ParseArgList(ts) == Parsed([e] + more, rest)
  {
    hide ParseExpr;
  }

  lemma WholeParsed(e: Expr, rest: seq<Token>)
    requires Ends(rest)
    ensures ParseExpr(ExprTokens(e) + rest) == Parsed(RereadExpr(e), rest)
  {
    hide ParseUnary, ParseExpr;
    ExprParsed(e, rest);
    WholeExpr(ExprTokens(e) + rest, RereadExpr(e), rest);
  }

  lemma ClosedParsed(e: Expr, close: Token, rest: seq<Token>)
    requires close in {T.RParen, T.RBracket, T.Comma, T.Semicolon}
    ensures ParseClosed(ExprTokens(e) + ([close] + rest), close) == Parsed(RereadExpr(e), rest)
  {
    hide ParseExpr, ParseClosed;
    WholeParsed(e, [close] + rest);
    Closed(ExprTokens(e) + ([close] + rest), RereadExpr(e), close, rest);
  }

  // ---------------------------------------------------------------- brackets

  /** Tokens whose brackets match, and that do not end the text. */
  ghost predicate Skips(ts: seq<Token>) {
    forall depth: nat, rest: seq<Token> {:trigger AssignBehind(depth, ts + rest)} :: depth > 0 ==> AssignBehind(depth, ts + rest) == AssignBehind(depth, rest)
  }

  lemma SkipsBoth(a: seq<Token>, b: seq<Token>)
    requires Skips(a) && Skips(b)
    ensures Skips(a + b)
  {
    forall depth: nat, rest: seq<Token> | depth > 0 ensures AssignBehind(depth, a + b + rest) == AssignBehind(depth, rest) {
      assert a + b + rest == a + (b + rest);
    }
  }

  lemma SkipsOne(t: Token)
    requires t != T.LBracket && t != T.RBracket && t != T.Eof
    ensures Skips([t])
  {
    forall depth: nat, rest: seq<Token> | depth > 0 ensures AssignBehind(depth, [t] + rest) == AssignBehind(depth, rest) {
      assert ([t] + rest)[1..] == rest;
    }
  }

  lemma SkipsNone()
    ensures Skips([])
  {
    forall depth: nat, rest: seq<Token> | depth > 0 ensures AssignBehind(depth, [] + rest) == AssignBehind(depth, rest) {
      assert [] + rest == rest;
    }
  }

  lemma SkipsIndexed(ts: seq<Token>)
    requires Skips(ts)
    ensures Skips([T.LBracket] + ts + [T.RBracket])
  {
    forall depth: nat, rest: seq<Token> | depth > 0 ensures AssignBehind(depth, [T.LBracket] + ts + [T.RBracket] + rest) == AssignBehind(depth, rest) {
      IndexSkipped(depth, ts, rest);
    }
  }

  lemma IndexSkipped(depth: nat, ts: seq<Token>, rest: seq<Token>)
    requires Skips(ts)
    ensures
      AssignBehind(depth, [T.LBracket] + ts + [T.RBracket] + rest)
      == if depth == 0 then Current(rest) == T.Assign else AssignBehind(depth, rest)
  {
    var behind := [T.RBracket] + rest;
    assert [T.LBracket] + ts + [T.RBracket] + rest == [T.LBracket] + (ts + behind);
    assert ([T.LBracket] + (ts + behind))[1..] == ts + behind;
    assert AssignBehind(depth + 1, ts + behind) == AssignBehind(depth + 1, behind);
    assert behind[1..] == rest;
  }

  lemma {:induction false} ExprSkipped(e: Expr)
    ensures Skips(ExprTokens(e))
    decreases e, 0
  {
    hide Skips, IntTokens, BinaryToken;
    match e {
      case IntLiteral(v) => LiteralSkipped(v);
      case BoolLiteral(b) => SkipsOne(T.BoolLiteral(b));
      case Identifier(name) => SkipsOne(T.Identifier(name));
      case Binary(op, left, right) =>
        ExprSkipped(left);
        ExprSkipped(right);
        BinarySkipped(op, ExprTokens(left), ExprTokens(right));
      case Unary(op, operand) =>
        var sign := if op == UnaryOp.Neg then T.Minus else T.Not;
        ExprSkipped(operand);
        SkipsOne(sign);
        SkipsBoth([sign], ExprTokens(operand));
        SkipsInParens([sign] + ExprTokens(operand));
      case Call(name, args) =>
        ArgsSkipped(args);
        SkipsInParens(ArgsTokens(args));
        NamedSkipped(name, T.LParen, ArgsTokens(args), T.RParen);
      case ArrayIndex(name, index) =>
        ExprSkipped(index);
        SkipsIndexed(ExprTokens(index));
        NamedSkipped(name, T.LBracket, ExprTokens(index), T.RBracket);
    }
  }

  lemma LiteralSkipped(v: I32)
    ensures Skips(IntTokens(v))
  {
    hide Skips, NormalizeI32;
    var n := if v < 0 then NormalizeI32(-(v as int)) else v;
    SkipsOne(T.IntLiteral(n));
    SkipsOne(T.Minus);
    SkipsBoth([T.Minus], [T.IntLiteral(n)]);
  }

  lemma BinarySkipped(op: BinaryOp, left: seq<Token>, right: seq<Token>)
    requires Skips(left) && Skips(right)
    ensures Skips([T.LParen] + left + [BinaryToken(op)] + right + [T.RParen])
  {
    hide Skips;
    SkipsOne(BinaryToken(op));
    SkipsBoth(left, [BinaryToken(op)]);
    SkipsBoth(left + [BinaryToken(op)], right);
    SkipsInParens(left + [BinaryToken(op)] + right);
    assert [T.LParen] + left + [BinaryToken(op)] + right + [T.RParen] == [T.LParen] + (left + [BinaryToken(op)] + right) + [T.RParen];
  }

  lemma NamedSkipped(name: string, open: Token, ts: seq<Token>, close: Token)
    requires Skips([open] + ts + [close])
    ensures Skips([T.Identifier(name)] + [open] + ts + [close])
  {
    hide Skips;
    SkipsOne(T.Identifier(name));
    SkipsBoth([T.Identifier(name)], [open] + ts + [close]);
    assert [T.Identifier(name)] + [open] + ts + [close] == [T.Identifier(name)] + ([open] + ts + [close]);
  }

  lemma SkipsInParens(ts: seq<Token>)
    requires Skips(ts)
    ensures Skips([T.LParen] + ts + [T.RParen])
  {
    hide Skips;
    SkipsOne(T.LParen);
    SkipsOne(T.RParen);
    SkipsBoth([T.LParen], ts);
    SkipsBoth([T.LParen] + ts, [T.RParen]);
  }

  lemma {:induction false} ArgsSkipped(args: seq<Expr>)
    ensures Skips(ArgsTokens(args))
    decreases args, 0
  {
    hide Skips;
    if args == [] {
      SkipsNone();
    } else {
      ExprSkipped(args[0]);
      if |args| > 1 {
        ArgsSkipped(args[1..]);
        SkipsOne(T.Comma);
        SkipsBoth(ExprTokens(args[0]), [T.Comma]);
        SkipsBoth(ExprTokens(args[0]) + [T.Comma], ArgsTokens(args[1..]));
      }
    }
  }

  // ---------------------------------------------------------------- declarations and assignments

  lemma Cons(t: Token, ts: seq<Token>)
    ensures Current([t] + ts) == t && Tail([t] + ts) == ts && Expect([t] + ts, t) == Some(ts)
    ensures forall u: Token :: u != t ==> Expect([t] + ts, u) == None
  {
    assert ([t] + ts)[1..] == ts;
  }

  /** The tokens behind a declared name. */
  function DeclaredTokens(init: Option<Expr>, size: Option<I32>, rest: seq<Token>): seq<Token> {
    var end := [T.Semicolon] + rest;
    if size.Some? then [T.LBracket] + (IntTokens(size.value) + ([T.RBracket] + end))
    else if init.Some? then [T.Assign] + (ExprTokens(init.value) + end)
    else end
  }

  lemma DeclShape(ty: Type, name: string, init: Option<Expr>, size: Option<I32>, rest: seq<Token>)
    ensures DeclTokens(ty, name, init, size) + rest == [TypeToken(ty)] + ([T.Identifier(name)] + DeclaredTokens(init, size, rest))
  {
    hide ExprTokens, IntTokens;
  }

  lemma DeclParsed(ty: Type, name: string, init: Option<Expr>, size: Option<I32>, rest: seq<Token>)
    ensures
      ParseDeclaration(DeclTokens(ty, name, init, size) + rest)
      == if size.Some? && size.value < 0 then NoParse else Parsed(Declared(ty, name, RereadInit(init, size), size), rest)
  {
    hide DeclTokens, DeclaredTokens, ParseDeclared, RereadInit;
    DeclShape(ty, name, init, size, rest);
    var behind := DeclaredTokens(init, size, rest);
    Cons(TypeToken(ty), [T.Identifier(name)] + behind);
    Cons(T.Identifier(name), behind);
    DeclaredParsed(ty, name, init, size, rest);
  }

  lemma DeclaredParsed(ty: Type, name: string, init: Option<Expr>, size: Option<I32>, rest: seq<Token>)
    ensures
      ParseDeclared(ty, name, DeclaredTokens(init, size, rest))
      == if size.Some? && size.value < 0 then NoParse else Parsed(Declared(ty, name, RereadInit(init, size), size), rest)
  {
    hide ExprTokens, IntTokens, ParseClosed;
    var end := [T.Semicolon] + rest;
    Cons(T.Semicolon, rest);
    if size.Some? {
      Cons(T.LBracket, IntTokens(size.value) + ([T.RBracket] + end));
      SizeParsed(size.value, [T.RBracket] + end);
      Cons(T.RBracket, end);
    } else if init.Some? {
      Cons(T.Assign, ExprTokens(init.value) + end);
      ClosedParsed(init.value, T.Semicolon, rest);
    }
  }

  lemma SizeParsed(v: I32, rest: seq<Token>)
    ensures v >= 0 ==> Current(IntTokens(v) + rest) == T.IntLiteral(v) && Tail(IntTokens(v) + rest) == rest
    ensures v < 0 ==> Current(IntTokens(v) + rest) == T.Minus
  {
    hide NormalizeI32;
  }

  lemma AssignShape(target: string, index: Option<Expr>, value: Expr, rest: seq<Token>)
    ensures
      var last := [T.Assign] + (ExprTokens(value) + ([T.Semicolon] + rest));
      StmtTokens(Assign(target, index, value)) + rest
      == [T.Identifier(target)] + (if index.Some? then [T.LBracket] + (ExprTokens(index.value) + ([T.RBracket] + last)) else last)
  {
    hide ExprTokens;
  }

  lemma AssignParsed(target: string, index: Option<Expr>, value: Expr, rest: seq<Token>)
    ensures
      var ts := StmtTokens(Assign(target, index, value)) + rest;
      && Current(ts) == T.Identifier(target) && IsAssignmentStart(ts)
      && ParseAssignment(ts) == Parsed(Assign(target, RereadOpt(index), RereadExpr(value)), rest)
  {
    hide ExprTokens, ParseClosed, StmtTokens, AssignBehind;
    AssignShape(target, index, value, rest);
    var last := [T.Assign] + (ExprTokens(value) + ([T.Semicolon] + rest));
    Cons(T.Assign, ExprTokens(value) + ([T.Semicolon] + rest));
    ClosedParsed(value, T.Semicolon, rest);
    if index.Some? {
      var inner := ExprTokens(index.value) + ([T.RBracket] + last);
      Cons(T.Identifier(target), [T.LBracket] + inner);
      Cons(T.LBracket, inner);
      ClosedParsed(index.value, T.RBracket, last);
      IndexAhead(index.value, last);
    } else {
      Cons(T.Identifier(target), last);
    }
  }

  /** Looking for an assignment behind a bracketed expression. */
  lemma IndexAhead(index: Expr, rest: seq<Token>)
    ensures AssignBehind(0, [T.LBracket] + (ExprTokens(index) + ([T.RBracket] + rest))) <==> Current(rest) == T.Assign
  {
    hide ExprTokens, Skips, AssignBehind;
    ExprSkipped(index);
    IndexSkipped(0, ExprTokens(index), rest);
    assert [T.LBracket] + ExprTokens(index) + [T.RBracket] + rest == [T.LBracket] + (ExprTokens(index) + ([T.RBracket] + rest));
  }

  /** An expression statement is not taken for an assignment. */
  lemma NoAssignment(e: Expr, rest: seq<Token>)
    ensures !IsAssignmentStart(ExprTokens(e) + ([T.Semicolon] + rest))
  {
    hide AssignBehind;
    var end := [T.Semicolon] + rest;
    match e {
      case Identifier(name) => Cons(T.Identifier(name), end);
      case Call(name, args) =>
        NamedShape(name, T.LParen, ArgsTokens(args), T.RParen, end);
        Cons(T.Identifier(name), [T.LParen] + (ArgsTokens(args) + ([T.RParen] + end)));
      case ArrayIndex(name, index) =>
        NamedShape(name, T.LBracket, ExprTokens(index), T.RBracket, end);
        Cons(T.Identifier(name), [T.LBracket] + (ExprTokens(index) + ([T.RBracket] + end)));
        IndexAhead(index, end);
      case _ => NoNameFirst(e);
    }
  }

  lemma NamedShape(name: string, open: Token, ts: seq<Token>, close: Token, rest: seq<Token>)
    ensures [T.Identifier(name)] + [open] + ts + [close] + rest == [T.Identifier(name)] + ([open] + (ts + ([close] + rest)))
  {
  }

  lemma NoNameFirst(e: Expr)
    requires !e.Identifier? && !e.Call? && !e.ArrayIndex?
    ensures ExprTokens(e) != [] && !ExprTokens(e)[0].Identifier?
  {
  }

  // ---------------------------------------------------------------- statements

  /** A keyword with an expression behind it. */
  lemma KeywordShape(word: Token, ts: seq<Token>, rest: seq<Token>)
    ensures [word] + ts + [T.Semicolon] + rest == [word] + (ts + ([T.Semicolon] + rest))
  {
  }

  lemma ReturnParsed(value: Expr, rest: seq<Token>)
    ensures ParseStmt(StmtTokens(Return(value)) + rest) == Parsed(Return(RereadExpr(value)), rest)
    ensures ParseStmt(StmtTokens(Stmt.Print(value)) + rest) == Parsed(Stmt.Print(RereadExpr(value)), rest)
  {
    hide ExprTokens, ParseClosed, ParseDeclaration, ParseAssignment, ParseCondition, ParseBlock;
    var behind := ExprTokens(value) + ([T.Semicolon] + rest);
    ClosedParsed(value, T.Semicolon, rest);
    KeywordShape(T.Return, ExprTokens(value), rest);
    KeywordShape(T.Print, ExprTokens(value), rest);
    Cons(T.Return, behind);
    Cons(T.Print, behind);
  }

  lemma ExprStmtParsed(e: Expr, rest: seq<Token>)
    ensures ParseStmt(StmtTokens(ExprStmt(e)) + rest) == Parsed(ExprStmt(RereadExpr(e)), rest)
  {
    hide ExprTokens, ParseClosed, ParseDeclaration, ParseAssignment, ParseCondition, ParseBlock, IsAssignmentStart;
    assert StmtTokens(ExprStmt(e)) + rest == ExprTokens(e) + ([T.Semicolon] + rest);
    ExprStarts(e);
    ClosedParsed(e, T.Semicolon, rest);
    NoAssignment(e, rest);
  }

  lemma AssignStmtParsed(target: string, index: Option<Expr>, value: Expr, rest: seq<Token>)
    ensures
      var s := Assign(target, index, value);
      ParseStmt(StmtTokens(s) + rest) == Parsed(RereadStmt(s), rest)
  {
    hide StmtTokens, ParseClosed, ParseDeclaration, ParseAssignment, ParseCondition, ParseBlock, IsAssignmentStart;
    AssignParsed(target, index, value, rest);
  }

  lemma DeclStmtParsed(ty: Type, name: string, init: Option<Expr>, size: Option<I32>, rest: seq<Token>)
    ensures
      var s := VarDecl(ty, name, init, size);
      ParseStmt(StmtTokens(s) + rest) == if SizedStmt(s) then Parsed(RereadStmt(s), rest) else NoParse
  {
    hide DeclTokens, ParseClosed, ParseDeclaration, ParseAssignment, ParseCondition, ParseBlock, IsAssignmentStart, DeclaredTokens, RereadInit;
    DeclShape(ty, name, init, size, rest);
    DeclParsed(ty, name, init, size, rest);
    Cons(TypeToken(ty), [T.Identifier(name)] + DeclaredTokens(init, size, rest));
  }

  /** A head with its condition and the opening brace. */
  function HeadTokens(word: Token, condition: Expr, behind: seq<Token>): seq<Token> {
    [word] + ([T.LParen] + (ExprTokens(condition) + ([T.RParen] + ([T.LBrace] + behind))))
  }

  lemma HeadParsed(word: Token, condition: Expr, behind: seq<Token>)
    ensures
      var ts := HeadTokens(word, condition, behind);
      Current(ts) == word && ParseCondition(ts) == Parsed(RereadExpr(condition), [T.LBrace] + behind)
  {
    hide ExprTokens, ParseClosed;
    var inner := ExprTokens(condition) + ([T.RParen] + ([T.LBrace] + behind));
    Cons(word, [T.LParen] + inner);
    Cons(T.LParen, inner);
    ClosedParsed(condition, T.RParen, [T.LBrace] + behind);
  }

  /** A block from its opening to its closing brace. */
  lemma BlockParsed(stmts: seq<Stmt>, rest: seq<Token>)
    requires
      ParseStmts(BlockTokens(stmts) + ([T.RBrace] + rest))
      == if SizedBlock(stmts) then Parsed(RereadBlock(stmts), [T.RBrace] + rest) else NoParse
    ensures
      ParseBlock([T.LBrace] + (BlockTokens(stmts) + ([T.RBrace] + rest)))
      == if SizedBlock(stmts) then Parsed(RereadBlock(stmts), rest) else NoParse
  {
    hide ParseStmts, BlockTokens, SizedBlock, RereadBlock;
    Cons(T.LBrace, BlockTokens(stmts) + ([T.RBrace] + rest));
    Cons(T.RBrace, rest);
  }

  lemma WhileShape(condition: Expr, body: seq<Stmt>, rest: seq<Token>)
    ensures StmtTokens(While(condition, body)) + rest == HeadTokens(T.While, condition, BlockTokens(body) + ([T.RBrace] + rest))
  {
    hide ExprTokens, BlockTokens;
    var head := [T.While, T.LParen] + ExprTokens(condition) + [T.RParen, T.LBrace];
    Lexing.Assoc(head + BlockTokens(body), [T.RBrace], rest);
    Lexing.Assoc(head, BlockTokens(body), [T.RBrace] + rest);
    HeadShape(T.While, ExprTokens(condition), BlockTokens(body) + ([T.RBrace] + rest));
  }

  lemma HeadShape(word: Token, condition: seq<Token>, behind: seq<Token>)
    ensures [word, T.LParen] + condition + [T.RParen, T.LBrace] + behind
         == [word] + ([T.LParen] + (condition + ([T.RParen] + ([T.LBrace] + behind))))
  {
  }

  lemma IfShape(condition: Expr, thenBody: seq<Stmt>, elseBody: ElseBody, rest: seq<Token>)
    ensures
      StmtTokens(If(condition, thenBody, elseBody)) + rest
      == HeadTokens(T.If, condition, BlockTokens(thenBody) + ([T.RBrace] + ElseTokens(elseBody, rest)))
  {
    hide ExprTokens, BlockTokens;
    var other := if elseBody.Else? then [T.Else, T.LBrace] + BlockTokens(elseBody.body) + [T.RBrace] else [];
    var head := [T.If, T.LParen] + ExprTokens(condition) + [T.RParen, T.LBrace];
    assert StmtTokens(If(condition, thenBody, elseBody)) == head + BlockTokens(thenBody) + [T.RBrace] + other;
    FourAndRest(head, BlockTokens(thenBody), [T.RBrace], other, rest);
    ElseShape(elseBody, rest);
    HeadShape(T.If, ExprTokens(condition), BlockTokens(thenBody) + ([T.RBrace] + ElseTokens(elseBody, rest)));
  }

  lemma FourAndRest(a: seq<Token>, b: seq<Token>, c: seq<Token>, d: seq<Token>, rest: seq<Token>)
    ensures a + b + c + d + rest == a + (b + (c + (d + rest)))
  {
    Lexing.Assoc(a + b + c, d, rest);
    Lexing.Assoc(a + b, c, d + rest);
    Lexing.Assoc(a, b, c + (d + rest));
  }

  lemma Regrouped(a: seq<Token>, b: seq<Token>, c: seq<Token>, d: seq<Token>)
    ensures a + b + c + d == a + (b + c + d) == a + (b + (c + d))
  {
  }

  /** What stands behind the closing brace of a conditional's first block. */
  function ElseTokens(elseBody: ElseBody, rest: seq<Token>): seq<Token> {
    if elseBody.Else? then [T.Else] + ([T.LBrace] + (BlockTokens(elseBody.body) + ([T.RBrace] + rest))) else rest
  }

  lemma ElseShape(elseBody: ElseBody, rest: seq<Token>)
    ensures (if elseBody.Else? then [T.Else, T.LBrace] + BlockTokens(elseBody.body) + [T.RBrace] else []) + rest == ElseTokens(elseBody, rest)
  {
    hide BlockTokens;
  }

  lemma WhileParsed(condition: Expr, body: seq<Stmt>, rest: seq<Token>)
    requires
      ParseBlock([T.LBrace] + (BlockTokens(body) + ([T.RBrace] + rest)))
      == if SizedBlock(body) then Parsed(RereadBlock(body), rest) else NoParse
    ensures
      var s := While(condition, body);
      ParseStmt(StmtTokens(s) + rest) == if SizedStmt(s) then Parsed(RereadStmt(s), rest) else NoParse
  {
    hide ExprTokens, BlockTokens, ParseClosed, ParseCondition, ParseDeclaration, ParseAssignment, ParseBlock, SizedBlock, RereadBlock, HeadTokens, StmtTokens;
    WhileShape(condition, body, rest);
    HeadParsed(T.While, condition, BlockTokens(body) + ([T.RBrace] + rest));
  }

  lemma IfParsed(condition: Expr, thenBody: seq<Stmt>, elseBody: ElseBody, rest: seq<Token>)
    requires Current(rest) != T.Else
    requires
      ParseBlock([T.LBrace] + (BlockTokens(thenBody) + ([T.RBrace] + ElseTokens(elseBody, rest))))
      == if SizedBlock(thenBody) then Parsed(RereadBlock(thenBody), ElseTokens(elseBody, rest)) else NoParse
    requires elseBody.Else? ==>
      ParseBlock([T.LBrace] + (BlockTokens(elseBody.body) + ([T.RBrace] + rest)))
      == if SizedBlock(elseBody.body) then Parsed(RereadBlock(elseBody.body), rest) else NoParse
    ensures
      var s := If(condition, thenBody, elseBody);
      ParseStmt(StmtTokens(s) + rest) == if SizedStmt(s) then Parsed(RereadStmt(s), rest) else NoParse
  {
    hide ExprTokens, BlockTokens, ParseClosed, ParseCondition, ParseDeclaration, ParseAssignment, ParseBlock, SizedBlock, RereadBlock, HeadTokens, StmtTokens;
    IfShape(condition, thenBody, elseBody, rest);
    HeadParsed(T.If, condition, BlockTokens(thenBody) + ([T.RBrace] + ElseTokens(elseBody, rest)));
    if elseBody.Else? {
      Cons(T.Else, [T.LBrace] + (BlockTokens(elseBody.body) + ([T.RBrace] + rest)));
    }
  }

  lemma StmtStarts(s: Stmt)
    ensures StmtTokens(s) != [] && StmtTokens(s)[0] != T.Else && StmtTokens(s)[0] != T.RBrace && StmtTokens(s)[0] != T.Eof
  {
    if s.ExprStmt? {
      ExprStarts(s.expr);
    }
  }

  lemma {:induction false} StmtParsed(s: Stmt, rest: seq<Token>)
    requires Current(rest) != T.Else
    ensures ParseStmt(StmtTokens(s) + rest) == if SizedStmt(s) then Parsed(RereadStmt(s), rest) else NoParse
    decreases s, 0
  {
    hide ParseStmt, ParseStmts, ParseBlock, StmtTokens, BlockTokens, ElseTokens, SizedBlock, RereadBlock;
    match s {
      case VarDecl(ty, name, init, size) => DeclStmtParsed(ty, name, init, size, rest);
      case Assign(target, index, value) => AssignStmtParsed(target, index, value, rest);
      case If(condition, thenBody, elseBody) =>
        StmtsParsed(thenBody, [T.RBrace] + ElseTokens(elseBody, rest));
        BlockParsed(thenBody, ElseTokens(elseBody, rest));
        if elseBody.Else? {
          StmtsParsed(elseBody.body, [T.RBrace] + rest);
          BlockParsed(elseBody.body, rest);
        }
        IfParsed(condition, thenBody, elseBody, rest);
      case While(condition, body) =>
        StmtsParsed(body, [T.RBrace] + rest);
        BlockParsed(body, rest);
        WhileParsed(condition, body, rest);
      case Return(value) => ReturnParsed(value, rest);
      case Print(value) => ReturnParsed(value, rest);
      case ExprStmt(e) => ExprStmtParsed(e, rest);
    }
  }

  lemma {:induction false} StmtsParsed(stmts: seq<Stmt>, rest: seq<Token>)
    requires Current(rest) == T.RBrace
    ensures ParseStmts(BlockTokens(stmts) + rest) == if SizedBlock(stmts) then Parsed(RereadBlock(stmts), rest) else NoParse
    decreases stmts, 0
  {
    hide ParseStmt, StmtTokens, SizedStmt, RereadStmt;
    if stmts == [] {
      assert BlockTokens(stmts) + rest == rest;
      return;
    }
    var behind := BlockTokens(stmts[1..]) + rest;
    Lexing.Assoc(StmtTokens(stmts[0]), BlockTokens(stmts[1..]), rest);
    StmtStarts(stmts[0]);
    StmtsBegin(stmts[1..], rest);
    StmtParsed(stmts[0], behind);
    StmtsParsed(stmts[1..], rest);
  }

  lemma StmtsBegin(stmts: seq<Stmt>, rest: seq<Token>)
    requires Current(rest) == T.RBrace
    ensures Current(BlockTokens(stmts) + rest) != T.Else
  {
    hide StmtTokens;
    if stmts == [] {
      assert BlockTokens(stmts) + rest == rest;
    } else {
      StmtStarts(stmts[0]);
    }
  }

  // ---------------------------------------------------------------- functions and programs

  lemma {:induction false} ParamsParsed(params: seq<Param>, rest: seq<Token>)
    requires params != [] && Current(rest) == T.RParen
    ensures ParseParamList(ParamsTokens(params) + rest) == Parsed(params, rest)
    ensures ParamsTokens(params) != [] && ParamsTokens(params)[0] != T.RParen
  {
    hide ParseParam, TypeToken;
    var q := params[0];
    var behind := if |params| == 1 then rest else [T.Comma] + (ParamsTokens(params[1..]) + rest);
    CommaApart(ParamTokens(q), ParamsTokens(params[1..]), rest);
    ParamParsed(q, behind);
    if |params| > 1 {
      Cons(T.Comma, ParamsTokens(params[1..]) + rest);
      ParamsParsed(params[1..], rest);
      assert params == [q] + params[1..];
    } else {
      assert params == [q];
    }
  }

  lemma ParamParsed(q: Param, rest: seq<Token>)
    ensures ParseParam(ParamTokens(q) + rest) == Parsed(q, rest) && ParamTokens(q)[0] != T.RParen
  {
    assert ParamTokens(q) + rest == [TypeToken(q.paramType)] + ([T.Identifier(q.name)] + rest);
    Cons(TypeToken(q.paramType), [T.Identifier(q.name)] + rest);
    Cons(T.Identifier(q.name), rest);
  }

  lemma FunctionShape(f: Function, rest: seq<Token>)
    ensures
      FunctionTokens(f) + rest
      == [T.Func] + ([T.Identifier(f.name)] + ([T.LParen] + (ParamsTokens(f.params) + ([T.RParen] + ([T.LBrace] + (BlockTokens(f.body) + ([T.RBrace] + rest)))))))
  {
    hide ParamsTokens, BlockTokens;
    var a, b := [T.Func] + [T.Identifier(f.name)] + [T.LParen], BlockTokens(f.body) + [T.RBrace];
    Regrouped(a + ParamsTokens(f.params) + [T.RParen, T.LBrace], BlockTokens(f.body), [T.RBrace], rest);
    Regrouped(a, ParamsTokens(f.params), [T.RParen, T.LBrace], BlockTokens(f.body) + ([T.RBrace] + rest));
    assert [T.RParen, T.LBrace] + (BlockTokens(f.body) + ([T.RBrace] + rest)) == [T.RParen] + ([T.LBrace] + (BlockTokens(f.body) + ([T.RBrace] + rest)));
  }

  lemma FunctionParsed(f: Function, rest: seq<Token>)
    ensures
      ParseFunction(FunctionTokens(f) + rest)
      == if SizedBlock(f.body) then Parsed(f.(body := RereadBlock(f.body)), rest) else NoParse
    ensures Current(FunctionTokens(f) + rest) == T.Func
  {
    hide ParamsTokens, BlockTokens, ParseBlock, ParseParamList, SizedBlock, RereadBlock, FunctionTokens;
    FunctionShape(f, rest);
    var body := [T.LBrace] + (BlockTokens(f.body) + ([T.RBrace] + rest));
    var params := ParamsTokens(f.params) + ([T.RParen] + body);
    Cons(T.Func, [T.Identifier(f.name)] + ([T.LParen] + params));
    Cons(T.Identifier(f.name), [T.LParen] + params);
    Cons(T.LParen, params);
    Cons(T.RParen, body);
    StmtsParsed(f.body, [T.RBrace] + rest);
    BlockParsed(f.body, rest);
    if f.params == [] {
      NoParams([T.RParen] + body);
    } else {
      ParamsParsed(f.params, [T.RParen] + body);
    }
  }

  lemma NoParams(rest: seq<Token>)
    ensures ParamsTokens([]) + rest == rest
  {
  }

  lemma {:induction false} FunctionsParsed(functions: seq<Function>)
    ensures
      ParseProgram(FunctionsTokens(functions) + [T.Eof])
      == if SizedFunctions(functions) then Some(Program([], RereadFunctions(functions))) else None
  {
    hide FunctionTokens, ParseFunction, SizedBlock, RereadBlock, ParseDeclaration;
    if functions == [] {
      assert FunctionsTokens(functions) + [T.Eof] == [T.Eof];
      return;
    }
    var f := functions[0];
    var rest := FunctionsTokens(functions[1..]) + [T.Eof];
    Lexing.Assoc(FunctionTokens(f), FunctionsTokens(functions[1..]), [T.Eof]);
    FunctionParsed(f, rest);
    FunctionsParsed(functions[1..]);
    assert SizedFunctions(functions) <==> SizedBlock(f.body) && SizedFunctions(functions[1..]) by {
      assert functions == [f] + functions[1..];
    }
  }

  lemma {:induction false} GlobalsParsed(globals: seq<GlobalVar>, functions: seq<Function>)
    ensures
      ParseProgram(GlobalsTokens(globals) + (FunctionsTokens(functions) + [T.Eof]))
      == if SizedGlobals(globals) && SizedFunctions(functions) then Some(Program(RereadGlobals(globals), RereadFunctions(functions))) else None
  {
    hide DeclTokens, ParseFunction, ParseDeclaration, FunctionsTokens, SizedFunctions, RereadFunctions, RereadInit;
    var end := FunctionsTokens(functions) + [T.Eof];
    if globals == [] {
      assert GlobalsTokens(globals) + end == end;
      FunctionsParsed(functions);
      return;
    }
    var g := globals[0];
    var rest := GlobalsTokens(globals[1..]) + end;
    Lexing.Assoc(DeclTokens(g.varType, g.name, g.init, g.size), GlobalsTokens(globals[1..]), end);
    DeclParsed(g.varType, g.name, g.init, g.size, rest);
    DeclStarts(g.varType, g.name, g.init, g.size, rest);
    GlobalsParsed(globals[1..], functions);
    assert SizedGlobals(globals) <==> (g.size.Some? ==> g.size.value >= 0) && SizedGlobals(globals[1..]) by {
      assert globals == [g] + globals[1..];
    }
  }

  lemma DeclStarts(ty: Type, name: string, init: Option<Expr>, size: Option<I32>, rest: seq<Token>)
    ensures Current(DeclTokens(ty, name, init, size) + rest) == TypeToken(ty)
  {
    hide ExprTokens, IntTokens;
  }

  /**
   * Printing, then lexing and parsing: a program with legal names is read back exactly if no size is negative, and then
   * as itself, but for negative literals, which come back as negations, and for initializers beside a size.
   */
  lemma PrintedIsParsed(p: Program)
    requires LegalProgram(p)
    ensures ParseProgram(Lexing.Lex(ProgramText(p))) == if Sized(p) then Some(Reread(p)) else None
  {
    hide LegalProgram, ParseProgram, GlobalsTokens, FunctionsTokens, SizedGlobals, SizedFunctions, RereadGlobals, RereadFunctions, ProgramText, Lexing.Lex;
    ProgramReads(p);
    GlobalsParsed(p.globals, p.functions);
    Lexing.Assoc(GlobalsTokens(p.globals), FunctionsTokens(p.functions), [T.Eof]);
  }

  // ---------------------------------------------------------------- when the tree itself comes back

  predicate PlainExpr(e: Expr)
    decreases e
  {
    match e
    case IntLiteral(v) => v >= 0
    case Binary(_, left, right) => PlainExpr(left) && PlainExpr(right)
    case Unary(_, operand) => PlainExpr(operand)
    case Call(_, args) => forall i :: 0 <= i < |args| ==> PlainExpr(args[i])
    case ArrayIndex(_, index) => PlainExpr(index)
    case _ => true
  }

  predicate PlainOpt(e: Option<Expr>) {
    e.Some? ==> PlainExpr(e.value)
  }

  predicate PlainInit(init: Option<Expr>, size: Option<I32>) {
    PlainOpt(init) && (init.None? || size.None?)
  }

  predicate PlainStmt(s: Stmt)
    decreases s, 0
  {
    match s
    case VarDecl(_, _, init, size) => PlainInit(init, size)
    case Assign(_, index, value) => PlainOpt(index) && PlainExpr(value)
    case If(condition, thenBody, elseBody) =>
      PlainExpr(condition) && PlainBlock(thenBody) && (elseBody.Else? ==> PlainBlock(elseBody.body))
    case While(condition, body) => PlainExpr(condition) && PlainBlock(body)
    case Return(value) => PlainExpr(value)
    case Print(value) => PlainExpr(value)
    case ExprStmt(e) => PlainExpr(e)
  }

  predicate PlainBlock(stmts: seq<Stmt>)
    decreases stmts, 0
  {
    stmts == [] || (PlainStmt(stmts[0]) && PlainBlock(stmts[1..]))
  }

  /** No negative literal, and no declaration with both a size and an initializer. */
  predicate Plain(p: Program) {
    && (forall i :: 0 <= i < |p.globals| ==> PlainInit(p.globals[i].init, p.globals[i].size))
    && (forall i :: 0 <= i < |p.functions| ==> PlainBlock(p.functions[i].body))
  }

  lemma {:induction false} ExprItself(e: Expr)
    ensures RereadExpr(e) == e <==> PlainExpr(e)
    decreases e, 0
  {
    match e {
      case Binary(_, left, right) =>
        ExprItself(left);
        ExprItself(right);
      case Unary(_, operand) => ExprItself(operand);
      case Call(_, args) => ArgsItself(args);
      case ArrayIndex(_, index) => ExprItself(index);
      case _ =>
    }
  }

  lemma {:induction false} ArgsItself(args: seq<Expr>)
    ensures RereadArgs(args) == args <==> forall i :: 0 <= i < |args| ==> PlainExpr(args[i])
    decreases args, 0
  {
    hide RereadExpr, PlainExpr;
    if args != [] {
      ExprItself(args[0]);
      ArgsItself(args[1..]);
      assert args == [args[0]] + args[1..];
    }
  }

  lemma OptItself(e: Option<Expr>)
    ensures RereadOpt(e) == e <==> PlainOpt(e)
  {
    if e.Some? {
      ExprItself(e.value);
    }
  }

  lemma {:induction false} StmtItself(s: Stmt)
    ensures RereadStmt(s) == s <==> PlainStmt(s)
    decreases s, 0
  {
    hide RereadExpr, PlainExpr;
    match s {
      case VarDecl(_, _, init, _) => OptItself(init);
      case Assign(_, index, value) =>
        OptItself(index);
        ExprItself(value);
      case If(condition, thenBody, elseBody) =>
        ExprItself(condition);
        BlockItself(thenBody);
        if elseBody.Else? {
          BlockItself(elseBody.body);
        }
      case While(condition, body) =>
        ExprItself(condition);
        BlockItself(body);
      case Return(value) => ExprItself(value);
      case Print(value) => ExprItself(value);
      case ExprStmt(e) => ExprItself(e);
    }
  }

  lemma {:induction false} BlockItself(stmts: seq<Stmt>)
    ensures RereadBlock(stmts) == stmts <==> PlainBlock(stmts)
    decreases stmts, 0
  {
    hide RereadStmt, PlainStmt;
    if stmts != [] {
      StmtItself(stmts[0]);
      BlockItself(stmts[1..]);
      assert stmts == [stmts[0]] + stmts[1..];
    }
  }

  lemma {:induction false} GlobalsThemselves(globals: seq<GlobalVar>)
    ensures RereadGlobals(globals) == globals <==> forall i :: 0 <= i < |globals| ==> PlainInit(globals[i].init, globals[i].size)
  {
    hide RereadExpr, PlainExpr;
    if globals != [] {
      var g := globals[0];
      OptItself(g.init);
      assert g.(init := RereadInit(g.init, g.size)) == g <==> PlainInit(g.init, g.size);
      GlobalsThemselves(globals[1..]);
      assert globals == [g] + globals[1..];
    }
  }

  lemma {:induction false} FunctionsThemselves(functions: seq<Function>)
    ensures RereadFunctions(functions) == functions <==> forall i :: 0 <= i < |functions| ==> PlainBlock(functions[i].body)
  {
    hide RereadBlock, PlainBlock;
    if functions != [] {
      BlockItself(functions[0].body);
      FunctionsThemselves(functions[1..]);
      assert functions == [functions[0]] + functions[1..];
    }
  }

  /** A printed program is parsed as itself exactly if it is plain and no size is negative. */
  lemma PlainComesBack(p: Program)
    requires LegalProgram(p)
    ensures ParseProgram(Lexing.Lex(ProgramText(p))) == Some(p) <==> Sized(p) && Plain(p)
  {
    hide LegalProgram, ParseProgram, Sized, ProgramText, Lexing.Lex, RereadGlobals, RereadFunctions, PlainInit, PlainBlock;
    PrintedIsParsed(p);
    GlobalsThemselves(p.globals);
    FunctionsThemselves(p.functions);
  }
}
