/** The fuzzer's printer: syntax trees as text, and the tokens that text stands for. */
module Printing {
  import opened Common
  import opened Int32
  import opened Ast
  import T = Tokens

  type Token = T.Token

  // ---------------------------------------------------------------- text

  function Digit(d: nat): (c: char)
    requires d < 10
    ensures '0' <= c <= '9' && c as int == '0' as int + d
  {
    (d + '0' as int) as char
  }

  function Decimal(n: nat): (s: string)
    ensures s != [] && forall i :: 0 <= i < |s| ==> '0' <= s[i] <= '9'
  {
    if n < 10 then [Digit(n)] else Decimal(n / 10) + [Digit(n % 10)]
  }

  function IntText(v: int): string {
    if v < 0 then "-" + Decimal(-v) else Decimal(v)
  }

  function TypeText(ty: Type): string {
    if ty == IntType then "int" else "bool"
  }

  function BinarySymbol(op: BinaryOp): string {
    match op
    case Add => "+"
    case Sub => "-"
    case Mul => "*"
    case Div => "/"
    case Eq => "=="
    case Ne => "!="
    case Lt => "<"
    case Gt => ">"
    case Le => "<="
    case Ge => ">="
    case And => "&&"
    case Or => "||"
  }

  function UnarySymbol(op: UnaryOp): string {
    if op == UnaryOp.Neg then "-" else "!"
  }

  function ExprText(e: Expr): string
    decreases e, 0
  {
    match e
    case IntLiteral(v) => IntText(v)
    case BoolLiteral(b) => if b then "true" else "false"
    case Identifier(name) => name
    case Binary(op, left, right) => "(" + ExprText(left) + (" " + BinarySymbol(op) + " ") + ExprText(right) + ")"
    case Unary(op, operand) => "(" + (UnarySymbol(op) + ExprText(operand)) + ")"
    case Call(name, args) => name + "(" + ArgsText(args) + ")"
    case ArrayIndex(name, index) => name + "[" + ExprText(index) + "]"
  }

  function ArgsText(args: seq<Expr>): string
    decreases args, 0
  {
    if args == [] then ""
    else if |args| == 1 then ExprText(args[0])
    else ExprText(args[0]) + ", " + ArgsText(args[1..])
  }

  function Indent(n: nat): string {
    if n == 0 then "" else Indent(n - 1) + "  "
  }

  /** Two blanks for each level. */
  lemma {:induction false} IndentBlanks(n: nat)
    ensures |Indent(n)| == 2 * n && forall i :: 0 <= i < |Indent(n)| ==> Indent(n)[i] == ' '
  {
    if n > 0 {
      IndentBlanks(n - 1);
    }
  }

  /** A declaration, global or local; a size leaves no room for an initializer. */
  function DeclText(ty: Type, name: string, init: Option<Expr>, size: Option<I32>): string {
    TypeText(ty) + " " + name
    + (if size.Some? then "[" + IntText(size.value) + "]" else if init.Some? then " = " + ExprText(init.value) else "")
    + ";\n"
  }

  function StmtText(s: Stmt, indent: nat): string
    decreases s, 1
  {
    Indent(indent) + BareText(s, indent)
  }

  /** A statement without the blanks in front of it. */
  function BareText(s: Stmt, indent: nat): string
    decreases s, 0
  {
    match s
    case VarDecl(ty, name, init, size) => DeclText(ty, name, init, size)
    case Assign(target, index, value) =>
      target + (if index.Some? then "[" + ExprText(index.value) + "]" else "") + " = " + ExprText(value) + ";\n"
    case If(condition, thenBody, elseBody) =>
      "if (" + ExprText(condition) + ") {\n" + BlockText(thenBody, indent + 1) + Indent(indent) + "}"
      + (if elseBody.Else? then " else {\n" + BlockText(elseBody.body, indent + 1) + Indent(indent) + "}" else "")
      + "\n"
    case While(condition, body) =>
      "while (" + ExprText(condition) + ") {\n" + BlockText(body, indent + 1) + Indent(indent) + "}\n"
    case Return(value) => "return " + ExprText(value) + ";\n"
    case Print(value) => "print " + ExprText(value) + ";\n"
    case ExprStmt(e) => ExprText(e) + ";\n"
  }

  function BlockText(stmts: seq<Stmt>, indent: nat): string
    decreases stmts, 0
  {
    if stmts == [] then "" else StmtText(stmts[0], indent) + BlockText(stmts[1..], indent)
  }

  function ParamText(p: Param): string {
    TypeText(p.paramType) + " " + p.name
  }

  function ParamsText(params: seq<Param>): string {
    if params == [] then ""
    else if |params| == 1 then ParamText(params[0])
    else ParamText(params[0]) + ", " + ParamsText(params[1..])
  }

  function FunctionText(f: Function): string {
    "func " + f.name + "(" + ParamsText(f.params) + ") {\n" + BlockText(f.body, 1) + "}\n"
  }

  function GlobalsText(globals: seq<GlobalVar>): string {
    if globals == [] then ""
    else DeclText(globals[0].varType, globals[0].name, globals[0].init, globals[0].size) + GlobalsText(globals[1..])
  }

  function FunctionsText(functions: seq<Function>): string {
    if functions == [] then ""
    else if |functions| == 1 then FunctionText(functions[0])
    else FunctionText(functions[0]) + "\n" + FunctionsText(functions[1..])
  }

  function ProgramText(p: Program): string {
    GlobalsText(p.globals) + (if p.globals != [] && p.functions != [] then "\n" else "") + FunctionsText(p.functions)
  }

  // ---------------------------------------------------------------- the tokens of that text

  function TypeToken(ty: Type): Token {
    if ty == IntType then T.IntType else T.BoolType
  }

  function BinaryToken(op: BinaryOp): Token {
    match op
    case Add => T.Plus
    case Sub => T.Minus
    case Mul => T.Star
    case Div => T.Slash
    case Eq => T.Eq
    case Ne => T.Ne
    case Lt => T.Lt
    case Gt => T.Gt
    case Le => T.Le
    case Ge => T.Ge
    case And => T.And
    case Or => T.Or
  }

  function IntTokens(v: I32): seq<Token> {
    if v < 0 then [T.Minus] + [T.IntLiteral(NormalizeI32(-(v as int)))] else [T.IntLiteral(v)]
  }

  function ExprTokens(e: Expr): seq<Token>
    decreases e, 0
  {
    match e
    case IntLiteral(v) => IntTokens(v)
    case BoolLiteral(b) => [T.BoolLiteral(b)]
    case Identifier(name) => [T.Identifier(name)]
    case Binary(op, left, right) => [T.LParen] + ExprTokens(left) + [BinaryToken(op)] + ExprTokens(right) + [T.RParen]
    case Unary(op, operand) => [T.LParen] + ([if op == UnaryOp.Neg then T.Minus else T.Not] + ExprTokens(operand)) + [T.RParen]
    case Call(name, args) => [T.Identifier(name)] + [T.LParen] + ArgsTokens(args) + [T.RParen]
    case ArrayIndex(name, index) => [T.Identifier(name)] + [T.LBracket] + ExprTokens(index) + [T.RBracket]
  }

  function ArgsTokens(args: seq<Expr>): seq<Token>
    decreases args, 0
  {
    if args == [] then []
    else if |args| == 1 then ExprTokens(args[0])
    else ExprTokens(args[0]) + [T.Comma] + ArgsTokens(args[1..])
  }

  function DeclTokens(ty: Type, name: string, init: Option<Expr>, size: Option<I32>): seq<Token> {
    [TypeToken(ty)] + [T.Identifier(name)]
    + (if size.Some? then [T.LBracket] + IntTokens(size.value) + [T.RBracket]
       else if init.Some? then [T.Assign] + ExprTokens(init.value)
       else [])
    + [T.Semicolon]
  }

  function StmtTokens(s: Stmt): seq<Token>
    decreases s, 0
  {
    match s
    case VarDecl(ty, name, init, size) => DeclTokens(ty, name, init, size)
    case Assign(target, index, value) =>
      [T.Identifier(target)] + (if index.Some? then [T.LBracket] + ExprTokens(index.value) + [T.RBracket] else [])
      + [T.Assign] + ExprTokens(value) + [T.Semicolon]
    case If(condition, thenBody, elseBody) =>
      [T.If, T.LParen] + ExprTokens(condition) + [T.RParen, T.LBrace] + BlockTokens(thenBody) + [T.RBrace]
      + (if elseBody.Else? then [T.Else, T.LBrace] + BlockTokens(elseBody.body) + [T.RBrace] else [])
    case While(condition, body) =>
      [T.While, T.LParen] + ExprTokens(condition) + [T.RParen, T.LBrace] + BlockTokens(body) + [T.RBrace]
    case Return(value) => [T.Return] + ExprTokens(value) + [T.Semicolon]
    case Print(value) => [T.Print] + ExprTokens(value) + [T.Semicolon]
    case ExprStmt(e) => ExprTokens(e) + [T.Semicolon]
  }

  function BlockTokens(stmts: seq<Stmt>): seq<Token>
    decreases stmts, 0
  {
    if stmts == [] then [] else StmtTokens(stmts[0]) + BlockTokens(stmts[1..])
  }

  function ParamTokens(p: Param): seq<Token> {
    [TypeToken(p.paramType)] + [T.Identifier(p.name)]
  }

  function ParamsTokens(params: seq<Param>): seq<Token> {
    if params == [] then []
    else if |params| == 1 then ParamTokens(params[0])
    else ParamTokens(params[0]) + [T.Comma] + ParamsTokens(params[1..])
  }

  function FunctionTokens(f: Function): seq<Token> {
    [T.Func] + [T.Identifier(f.name)] + [T.LParen] + ParamsTokens(f.params) + [T.RParen, T.LBrace] + BlockTokens(f.body) + [T.RBrace]
  }

  function GlobalsTokens(globals: seq<GlobalVar>): seq<Token> {
    if globals == [] then []
    else DeclTokens(globals[0].varType, globals[0].name, globals[0].init, globals[0].size) + GlobalsTokens(globals[1..])
  }

  function FunctionsTokens(functions: seq<Function>): seq<Token> {
    if functions == [] then [] else FunctionTokens(functions[0]) + FunctionsTokens(functions[1..])
  }

  function ProgramTokens(p: Program): seq<Token> {
    GlobalsTokens(p.globals) + FunctionsTokens(p.functions)
  }
}
