/** The syntax tree the parser hands to the analyzer, the compiler and the oracle. */
module Ast {
  import opened Common
  import opened Int32

  datatype Type = IntType | BoolType

  datatype BinaryOp = Add | Sub | Mul | Div | Eq | Ne | Lt | Gt | Le | Ge | And | Or

  datatype UnaryOp = Neg | Not

  datatype Expr =
    | IntLiteral(value: I32)
    | BoolLiteral(flag: bool)
    | Identifier(name: string)
    | Binary(op: BinaryOp, left: Expr, right: Expr)
    | Unary(uop: UnaryOp, operand: Expr)
    | Call(callee: string, args: seq<Expr>)
    | ArrayIndex(arrayName: string, index: Expr)

  datatype Stmt =
    | VarDecl(varType: Type, name: string, init: Option<Expr>, size: Option<I32>)
    | Assign(target: string, indexExpr: Option<Expr>, value: Expr)
    | If(condition: Expr, thenBody: seq<Stmt>, elseBody: ElseBody)
    | While(condition: Expr, body: seq<Stmt>)
    | Return(value: Expr)
    | Print(value: Expr)
    | ExprStmt(expr: Expr)

  datatype ElseBody = NoElse | Else(body: seq<Stmt>)

  datatype Param = Param(paramType: Type, name: string)

  datatype Function = Function(name: string, params: seq<Param>, body: seq<Stmt>)

  datatype GlobalVar = GlobalVar(varType: Type, name: string, init: Option<Expr>, size: Option<I32>)

  datatype Program = Program(globals: seq<GlobalVar>, functions: seq<Function>)
}
