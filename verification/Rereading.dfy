/** What a printed tree is read as: itself, but for negative literals and for initializers beside a size. */
module Rereading {
  import opened Common
  import opened Int32
  import opened Ast

  /** A negative literal comes back as the negation of its magnitude. */
  function RereadExpr(e: Expr): Expr
    decreases e, 0
  {
    match e
    case IntLiteral(v) => if v < 0 then Unary(UnaryOp.Neg, IntLiteral(NormalizeI32(-(v as int)))) else e
    case BoolLiteral(_) => e
    case Identifier(_) => e
    case Binary(op, left, right) => Binary(op, RereadExpr(left), RereadExpr(right))
    case Unary(op, operand) => Unary(op, RereadExpr(operand))
    case Call(name, args) => Call(name, RereadArgs(args))
    case ArrayIndex(name, index) => ArrayIndex(name, RereadExpr(index))
  }

  function RereadArgs(args: seq<Expr>): seq<Expr>
    decreases args, 0
  {
    if args == [] then [] else [RereadExpr(args[0])] + RereadArgs(args[1..])
  }

  function RereadOpt(e: Option<Expr>): Option<Expr> {
    if e.Some? then Some(RereadExpr(e.value)) else None
  }

  /** The initializer beside a size is not printed. */
  function RereadInit(init: Option<Expr>, size: Option<I32>): Option<Expr> {
    if size.Some? then None else RereadOpt(init)
  }

  function RereadStmt(s: Stmt): Stmt
    decreases s, 0
  {
    match s
    case VarDecl(ty, name, init, size) => VarDecl(ty, name, RereadInit(init, size), size)
    case Assign(target, index, value) => Assign(target, RereadOpt(index), RereadExpr(value))
    case If(condition, thenBody, elseBody) =>
      If(RereadExpr(condition), RereadBlock(thenBody), if elseBody.Else? then Else(RereadBlock(elseBody.body)) else NoElse)
    case While(condition, body) => While(RereadExpr(condition), RereadBlock(body))
    case Return(value) => Return(RereadExpr(value))
    case Print(value) => Stmt.Print(RereadExpr(value))
    case ExprStmt(e) => ExprStmt(RereadExpr(e))
  }

  function RereadBlock(stmts: seq<Stmt>): seq<Stmt>
    decreases stmts, 0
  {
    if stmts == [] then [] else [RereadStmt(stmts[0])] + RereadBlock(stmts[1..])
  }

  function RereadGlobals(globals: seq<GlobalVar>): seq<GlobalVar> {
    if globals == [] then []
    else [globals[0].(init := RereadInit(globals[0].init, globals[0].size))] + RereadGlobals(globals[1..])
  }

  function RereadFunctions(functions: seq<Function>): seq<Function> {
    if functions == [] then []
    else [functions[0].(body := RereadBlock(functions[0].body))] + RereadFunctions(functions[1..])
  }

  function Reread(p: Program): Program {
    Program(RereadGlobals(p.globals), RereadFunctions(p.functions))
  }
}
