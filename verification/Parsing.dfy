/** From tokens to syntax trees: recursive descent with six levels of binary operators. */
module Parsing {
  import opened Common
  import opened Int32
  import opened Ast
  import T = Tokens

  type Token = T.Token

  datatype Parsed<+A> = Parsed(value: A, rest: seq<Token>) | NoParse

  // ---------------------------------------------------------------- what the parser finds in front of some tokens

  /** The next token; the end of the text repeats for ever. */
  function Current(ts: seq<Token>): Token {
    if ts == [] then T.Eof else ts[0]
  }

  function Tail(ts: seq<Token>): (r: seq<Token>)
    ensures |r| <= |ts|
  {
    if ts == [] then [] else ts[1..]
  }

  /** The tokens behind the expected one. */
  function Expect(ts: seq<Token>, token: Token): (r: Option<seq<Token>>)
    ensures r.Some? ==> |r.value| < |ts|
  {
    if ts != [] && ts[0] == token then Some(ts[1..]) else None
  }

  // Or, And, equality, comparison, sums, products.
  const LEVELS: nat := 6

  /** The operator a token stands for on a level. */
  function OpAt(level: nat, token: Token): Option<BinaryOp> {
    match token
    case Or => if level == 0 then Some(BinaryOp.Or) else None
    case And => if level == 1 then Some(BinaryOp.And) else None
    case Eq => if level == 2 then Some(BinaryOp.Eq) else None
    case Ne => if level == 2 then Some(BinaryOp.Ne) else None
    case Lt => if level == 3 then Some(BinaryOp.Lt) else None
    case Gt => if level == 3 then Some(BinaryOp.Gt) else None
    case Le => if level == 3 then Some(BinaryOp.Le) else None
    case Ge => if level == 3 then Some(BinaryOp.Ge) else None
    case Plus => if level == 4 then Some(BinaryOp.Add) else None
    case Minus => if level == 4 then Some(BinaryOp.Sub) else None
    case Star => if level == 5 then Some(BinaryOp.Mul) else None
    case Slash => if level == 5 then Some(BinaryOp.Div) else None
    case _ => None
  }

  function ParseExpr(ts: seq<Token>): (r: Parsed<Expr>)
    ensures r.Parsed? ==> |r.rest| < |ts|
    decreases |ts|, LEVELS + 4
  {
    ParseLevel(0, ts)
  }

  function ParseLevel(level: nat, ts: seq<Token>): (r: Parsed<Expr>)
    requires level <= LEVELS
    ensures r.Parsed? ==> |r.rest| < |ts|
    decreases |ts|, LEVELS + 3 - level
  {
    if level == LEVELS then ParseUnary(ts)
    else
      var left := ParseLevel(level + 1, ts);
      if left.NoParse? then NoParse else ParseMore(level, left.value, left.rest)
  }

  /** Further operands of a level, to the left. */
  function ParseMore(level: nat, left: Expr, ts: seq<Token>): (r: Parsed<Expr>)
    requires level < LEVELS
    ensures r.Parsed? ==> |r.rest| <= |ts|
    decreases |ts|, 0
  {
    var op := OpAt(level, Current(ts));
    if op.None? then Parsed(left, ts)
    else
      var right := ParseLevel(level + 1, Tail(ts));
      if right.NoParse? then NoParse else ParseMore(level, Binary(op.value, left, right.value), right.rest)
  }

  function ParseUnary(ts: seq<Token>): (r: Parsed<Expr>)
    ensures r.Parsed? ==> |r.rest| < |ts|
    decreases |ts|, 2
  {
    if Current(ts) == T.Minus || Current(ts) == T.Not then
      var operand := ParseUnary(Tail(ts));
      if operand.NoParse? then NoParse
      else Parsed(Unary(if Current(ts) == T.Minus then UnaryOp.Neg else UnaryOp.Not, operand.value), operand.rest)
    else ParsePrimary(ts)
  }

  function ParsePrimary(ts: seq<Token>): (r: Parsed<Expr>)
    ensures r.Parsed? ==> |r.rest| < |ts|
    decreases |ts|, 1
  {
    match Current(ts)
    case IntLiteral(v) => Parsed(IntLiteral(v), Tail(ts))
    case BoolLiteral(b) => Parsed(BoolLiteral(b), Tail(ts))
    case Identifier(name) => ParseNamed(name, Tail(ts))
    case LParen => ParseClosed(Tail(ts), T.RParen)
    case _ => NoParse
  }

  /** An expression and the bracket that closes it. */
  function ParseClosed(ts: seq<Token>, close: Token): (r: Parsed<Expr>)
    ensures r.Parsed? ==> |r.rest| < |ts|
    decreases |ts|, LEVELS + 5
  {
    var e := ParseExpr(ts);
    if e.NoParse? then NoParse
    else
      var rest := Expect(e.rest, close);
      if rest.None? then NoParse else Parsed(e.value, rest.value)
  }

  /** What a name begins: a call, an element of an array, or a variable. */
  function ParseNamed(name: string, ts: seq<Token>): (r: Parsed<Expr>)
    ensures r.Parsed? ==> |r.rest| <= |ts|
    decreases |ts|, LEVELS + 6
  {
    if Current(ts) == T.LParen then
      var args := ParseArgs(Tail(ts));
      if args.NoParse? then NoParse
      else
        var rest := Expect(args.rest, T.RParen);
        if rest.None? then NoParse else Parsed(Call(name, args.value), rest.value)
    else if Current(ts) == T.LBracket then
      var index := ParseClosed(Tail(ts), T.RBracket);
      if index.NoParse? then NoParse else Parsed(ArrayIndex(name, index.value), index.rest)
    else Parsed(Identifier(name), ts)
  }

  function ParseArgs(ts: seq<Token>): (r: Parsed<seq<Expr>>)
    ensures r.Parsed? ==> |r.rest| <= |ts|
    decreases |ts|, LEVELS + 6
  {
    if Current(ts) == T.RParen then Parsed([], ts) else ParseArgList(ts)
  }

  function ParseArgList(ts: seq<Token>): (r: Parsed<seq<Expr>>)
    ensures r.Parsed? ==> |r.rest| < |ts|
    decreases |ts|, LEVELS + 5
  {
    var e := ParseExpr(ts);
    if e.NoParse? then NoParse
    else if Current(e.rest) != T.Comma then Parsed([e.value], e.rest)
    else
      var more := ParseArgList(Tail(e.rest));
      if more.NoParse? then NoParse else Parsed([e.value] + more.value, more.rest)
  }

  // ---------------------------------------------------------------- statements

  /** Whether the bracket that closes `depth` open ones is followed by an assignment sign. */
  predicate AssignBehind(depth: nat, ts: seq<Token>)
    decreases |ts|
  {
    match Current(ts)
    case Eof => false
    case LBracket => AssignBehind(depth + 1, Tail(ts))
    case RBracket => if depth <= 1 then Current(Tail(ts)) == T.Assign else AssignBehind(depth - 1, Tail(ts))
    case _ => AssignBehind(depth, Tail(ts))
  }

  predicate IsAssignmentStart(ts: seq<Token>) {
    && Current(ts).Identifier?
    && (Current(Tail(ts)) == T.Assign || (Current(Tail(ts)) == T.LBracket && AssignBehind(0, Tail(ts))))
  }

  function TypeOf(token: Token): Option<Type> {
    if token == T.IntType then Some(IntType) else if token == T.BoolType then Some(BoolType) else None
  }

  // A declared name with its type and what follows it: a size, an initializer, or neither.
  datatype Declared = Declared(ty: Type, name: string, init: Option<Expr>, size: Option<I32>)

  /** A declaration, global or local. */
  function ParseDeclaration(ts: seq<Token>): (r: Parsed<Declared>)
    ensures r.Parsed? ==> |r.rest| < |ts|
  {
    var ty := TypeOf(Current(ts));
    if ty.None? || !Current(Tail(ts)).Identifier? then NoParse
    else ParseDeclared(ty.value, Current(Tail(ts)).name, Tail(Tail(ts)))
  }

  /** A number and the closing bracket. */
  function ParseSize(ts: seq<Token>): (r: Parsed<I32>)
    ensures r.Parsed? ==> |r.rest| < |ts|
  {
    if !Current(ts).IntLiteral? then NoParse
    else
      var rest := Expect(Tail(ts), T.RBracket);
      if rest.None? then NoParse else Parsed(Current(ts).value, rest.value)
  }

  /** What follows a declared name. */
  function ParseDeclared(ty: Type, name: string, ts: seq<Token>): (r: Parsed<Declared>)
    ensures r.Parsed? ==> |r.rest| < |ts|
  {
    if Current(ts) == T.LBracket then
      (var size := ParseSize(Tail(ts));
       if size.NoParse? then NoParse
       else
         var rest := Expect(size.rest, T.Semicolon);
         if rest.None? then NoParse else Parsed(Declared(ty, name, None, Some(size.value)), rest.value))
    else if Current(ts) == T.Assign then
      (var init := ParseClosed(Tail(ts), T.Semicolon);
       if init.NoParse? then NoParse else Parsed(Declared(ty, name, Some(init.value), None), init.rest))
    else
      var rest := Expect(ts, T.Semicolon);
      if rest.None? then NoParse else Parsed(Declared(ty, name, None, None), rest.value)
  }

  function ParseAssignment(ts: seq<Token>): (r: Parsed<Stmt>)
    ensures r.Parsed? ==> |r.rest| < |ts|
  {
    if !Current(ts).Identifier? then NoParse
    else
      var name, behind := Current(ts).name, Tail(ts);
      if Current(behind) == T.LBracket then
        var index := ParseClosed(Tail(behind), T.RBracket);
        if index.NoParse? then NoParse else ParseAssigned(name, Some(index.value), index.rest)
      else ParseAssigned(name, None, behind)
  }

  /** The assigned value behind its sign. */
  function ParseAssigned(name: string, index: Option<Expr>, ts: seq<Token>): (r: Parsed<Stmt>)
    ensures r.Parsed? ==> |r.rest| < |ts|
  {
    var sign := Expect(ts, T.Assign);
    if sign.None? then NoParse
    else
      var value := ParseClosed(sign.value, T.Semicolon);
      if value.NoParse? then NoParse else Parsed(Assign(name, index, value.value), value.rest)
  }

  /** A keyword, a parenthesized condition. */
  function ParseCondition(ts: seq<Token>): (r: Parsed<Expr>)
    ensures r.Parsed? ==> |r.rest| < |ts|
  {
    var open := Expect(Tail(ts), T.LParen);
    if open.None? then NoParse else ParseClosed(open.value, T.RParen)
  }

  function ParseStmt(ts: seq<Token>): (r: Parsed<Stmt>)
    ensures r.Parsed? ==> |r.rest| < |ts|
    decreases |ts|, 0
  {
    match Current(ts)
    case IntType => DeclStmt(ParseDeclaration(ts))
    case BoolType => DeclStmt(ParseDeclaration(ts))
    case If =>
      var condition := ParseCondition(ts);
      if condition.NoParse? then NoParse
      else
        var thenBody := ParseBlock(condition.rest);
        if thenBody.NoParse? then NoParse
        else if Current(thenBody.rest) != T.Else then Parsed(If(condition.value, thenBody.value, NoElse), thenBody.rest)
        else
          var elseBody := ParseBlock(Tail(thenBody.rest));
          if elseBody.NoParse? then NoParse
          else Parsed(If(condition.value, thenBody.value, Else(elseBody.value)), elseBody.rest)
    case While =>
      var condition := ParseCondition(ts);
      if condition.NoParse? then NoParse
      else
        var body := ParseBlock(condition.rest);
        if body.NoParse? then NoParse else Parsed(While(condition.value, body.value), body.rest)
    case Return =>
      var e := ParseClosed(Tail(ts), T.Semicolon);
      if e.NoParse? then NoParse else Parsed(Return(e.value), e.rest)
    case Print =>
      var e := ParseClosed(Tail(ts), T.Semicolon);
      if e.NoParse? then NoParse else Parsed(Stmt.Print(e.value), e.rest)
    case _ =>
      if IsAssignmentStart(ts) then ParseAssignment(ts)
      else if BeginsExpr(Current(ts)) then
        var e := ParseClosed(ts, T.Semicolon);
        if e.NoParse? then NoParse else Parsed(ExprStmt(e.value), e.rest)
      else NoParse
  }

  function DeclStmt(d: Parsed<Declared>): Parsed<Stmt> {
    if d.NoParse? then NoParse else Parsed(VarDecl(d.value.ty, d.value.name, d.value.init, d.value.size), d.rest)
  }

  predicate BeginsExpr(token: Token) {
    token.Identifier? || token.IntLiteral? || token.BoolLiteral? || token == T.LParen || token == T.Minus || token == T.Not
  }

  function ParseBlock(ts: seq<Token>): (r: Parsed<seq<Stmt>>)
    ensures r.Parsed? ==> |r.rest| < |ts|
    decreases |ts|, 2
  {
    var open := Expect(ts, T.LBrace);
    if open.None? then NoParse
    else
      var stmts := ParseStmts(open.value);
      if stmts.NoParse? then NoParse
      else
        var rest := Expect(stmts.rest, T.RBrace);
        if rest.None? then NoParse else Parsed(stmts.value, rest.value)
  }

  /** Statements up to a closing brace or the end of the text. */
  function ParseStmts(ts: seq<Token>): (r: Parsed<seq<Stmt>>)
    ensures r.Parsed? ==> |r.rest| <= |ts|
    decreases |ts|, 1
  {
    if Current(ts) == T.RBrace || Current(ts) == T.Eof then Parsed([], ts)
    else
      var s := ParseStmt(ts);
      if s.NoParse? then NoParse
      else
        var more := ParseStmts(s.rest);
        if more.NoParse? then NoParse else Parsed([s.value] + more.value, more.rest)
  }

  // ---------------------------------------------------------------- programs

  function ParseParam(ts: seq<Token>): (r: Parsed<Param>)
    ensures r.Parsed? ==> |r.rest| < |ts|
  {
    var ty := TypeOf(Current(ts));
    if ty.None? || !Current(Tail(ts)).Identifier? then NoParse
    else Parsed(Param(ty.value, Current(Tail(ts)).name), Tail(Tail(ts)))
  }

  function ParseParamList(ts: seq<Token>): (r: Parsed<seq<Param>>)
    ensures r.Parsed? ==> |r.rest| < |ts|
    decreases |ts|
  {
    var param := ParseParam(ts);
    if param.NoParse? then NoParse
    else if Current(param.rest) != T.Comma then Parsed([param.value], param.rest)
    else
      var more := ParseParamList(Tail(param.rest));
      if more.NoParse? then NoParse else Parsed([param.value] + more.value, more.rest)
  }

  /** Parameters in parentheses. */
  function ParseParams(ts: seq<Token>): (r: Parsed<seq<Param>>)
    ensures r.Parsed? ==> |r.rest| < |ts|
  {
    var open := Expect(ts, T.LParen);
    if open.None? then NoParse
    else
      var params := if Current(open.value) == T.RParen then Parsed([], open.value) else ParseParamList(open.value);
      if params.NoParse? then NoParse
      else
        var close := Expect(params.rest, T.RParen);
        if close.None? then NoParse else Parsed(params.value, close.value)
  }

  function ParseFunction(ts: seq<Token>): (r: Parsed<Function>)
    ensures r.Parsed? ==> |r.rest| < |ts|
  {
    if Current(ts) != T.Func || !Current(Tail(ts)).Identifier? then NoParse
    else
      var params := ParseParams(Tail(Tail(ts)));
      if params.NoParse? then NoParse
      else
        var body := ParseBlock(params.rest);
        if body.NoParse? then NoParse else Parsed(Function(Current(Tail(ts)).name, params.value, body.value), body.rest)
  }

  /** Globals and functions in any order, up to the end of the text. */
  function ParseProgram(ts: seq<Token>): Option<Program>
    decreases |ts|
  {
    if Current(ts) == T.Eof then Some(Program([], []))
    else if Current(ts) == T.Func then
      var f := ParseFunction(ts);
      if f.NoParse? then None
      else
        var more := ParseProgram(f.rest);
        if more.None? then None else Some(more.value.(functions := [f.value] + more.value.functions))
    else if TypeOf(Current(ts)).Some? then
      var g := ParseDeclaration(ts);
      if g.NoParse? then None
      else
        var more := ParseProgram(g.rest);
        if more.None? then None
        else
          var d := g.value;
          Some(more.value.(globals := [GlobalVar(d.ty, d.name, d.init, d.size)] + more.value.globals))
    else None
  }
}
