/** The seven rewrites by which the fuzzer varies a program. */
module Rewrites {
  import opened Common
  import opened Ast
  import opened Similar

  datatype Binding = Binding(ty: Type, isArray: bool)

  type Bindings = map<string, Binding>

  // ---------------------------------------------------------------- returned values wrapped

  // Wrapped in a sum with zero, or in a call of a helper.
  datatype Wrapper = PlusZero | InCall(helper: string)

  function Wrap(w: Wrapper, e: Expr): Expr {
    if w.PlusZero? then AddZero(e) else Call(w.helper, [e])
  }

  function WrapReturnsIn(w: Wrapper, s: Stmt): Stmt
    decreases s, 0
  {
    match s
    case Return(value) => Return(Wrap(w, value))
    case If(condition, thenBody, elseBody) =>
      If(condition, WrapReturns(w, thenBody), if elseBody.Else? then Else(WrapReturns(w, elseBody.body)) else NoElse)
    case While(condition, body) => While(condition, WrapReturns(w, body))
    case _ => s
  }

  function WrapReturns(w: Wrapper, stmts: seq<Stmt>): (r: seq<Stmt>)
    ensures |r| == |stmts|
    decreases stmts, 0
  {
    if stmts == [] then [] else [WrapReturnsIn(w, stmts[0])] + WrapReturns(w, stmts[1..])
  }

  predicate ReturnsIn(s: Stmt)
    decreases s, 0
  {
    match s
    case Return(_) => true
    case If(_, thenBody, elseBody) => Returns(thenBody) || (elseBody.Else? && Returns(elseBody.body))
    case While(_, body) => Returns(body)
    case _ => false
  }

  predicate Returns(stmts: seq<Stmt>)
    decreases stmts, 0
  {
    stmts != [] && (ReturnsIn(stmts[0]) || Returns(stmts[1..]))
  }

  // ---------------------------------------------------------------- neutral arithmetic

  function InferType(b: Bindings, e: Expr): Option<Type> {
    match e
    case IntLiteral(_) => Some(IntType)
    case BoolLiteral(_) => Some(BoolType)
    case Identifier(name) => if name in b && !b[name].isArray then Some(b[name].ty) else None
    case Binary(op, left, right) =>
      var ints := InferType(b, left) == Some(IntType) && InferType(b, right) == Some(IntType);
      if op in {BinaryOp.Add, BinaryOp.Sub, BinaryOp.Mul, BinaryOp.Div} then (if ints then Some(IntType) else None)
      else if op in {BinaryOp.Lt, BinaryOp.Gt, BinaryOp.Le, BinaryOp.Ge} then (if ints then Some(BoolType) else None)
      else Some(BoolType)
    case Unary(op, operand) =>
      if op == UnaryOp.Neg then (if InferType(b, operand) == Some(IntType) then Some(IntType) else None) else Some(BoolType)
    case Call(_, _) => Some(IntType)
    case ArrayIndex(name, _) => if name in b && b[name].isArray then Some(b[name].ty) else None
  }

  function Bound(b: Bindings, s: Stmt): Bindings {
    if s.VarDecl? then b[s.name := Binding(s.varType, s.size.Some?)] else b
  }

  function NeutralIn(b: Bindings, s: Stmt): Stmt
    decreases s, 0
  {
    match s
    case VarDecl(ty, name, init, size) =>
      VarDecl(ty, name, if size.None? && ty == IntType && init.Some? then Some(MulOne(init.value)) else init, size)
    case Assign(target, index, value) =>
      Assign(target, if index.Some? then Some(AddZero(index.value)) else None,
             if target in b && b[target].ty == IntType then SubZero(value) else value)
    case If(condition, thenBody, elseBody) =>
      If(NotOf(NotOf(condition)), NeutralBlock(b, thenBody),
         if elseBody.Else? then Else(NeutralBlock(b, elseBody.body)) else NoElse)
    case While(condition, body) => While(NotOf(NotOf(condition)), NeutralBlock(b, body))
    case Return(value) => Return(MulOne(value))
    case Print(value) => Stmt.Print(if InferType(b, value) == Some(IntType) then AddZero(value) else value)
    case ExprStmt(e) => ExprStmt(if InferType(b, e) == Some(IntType) then MulOne(e) else e)
  }

  /** Names are bound in order; those of an inner block are forgotten behind it. */
  function NeutralBlock(b: Bindings, stmts: seq<Stmt>): (r: seq<Stmt>)
    ensures |r| == |stmts|
    decreases stmts, 0
  {
    if stmts == [] then [] else [NeutralIn(b, stmts[0])] + NeutralBlock(Bound(b, stmts[0]), stmts[1..])
  }

  /** Whether the rewrite changes a statement. */
  predicate NeutralChanges(b: Bindings, s: Stmt) {
    match s
    case VarDecl(ty, _, init, size) => size.None? && ty == IntType && init.Some?
    case Assign(target, index, _) => index.Some? || (target in b && b[target].ty == IntType)
    case Print(value) => InferType(b, value) == Some(IntType)
    case ExprStmt(e) => InferType(b, e) == Some(IntType)
    case _ => true
  }

  predicate NeutralChangesAny(b: Bindings, stmts: seq<Stmt>)
    decreases stmts
  {
    stmts != [] && (NeutralChanges(b, stmts[0]) || NeutralChangesAny(Bound(b, stmts[0]), stmts[1..]))
  }

  function GlobalBindings(globals: seq<GlobalVar>): Bindings {
    if globals == [] then map[]
    else
      var g := globals[|globals| - 1];
      GlobalBindings(globals[..|globals| - 1])[g.name := Binding(g.varType, g.size.Some?)]
  }

  function ParamBindings(b: Bindings, params: seq<Param>): Bindings {
    if params == [] then b
    else
      var q := params[|params| - 1];
      ParamBindings(b, params[..|params| - 1])[q.name := Binding(q.paramType, false)]
  }

  function NeutralGlobal(g: GlobalVar): GlobalVar {
    if g.varType == IntType && g.init.Some? then g.(init := Some(MulOne(g.init.value))) else g
  }

  // ---------------------------------------------------------------- one branch inverted

  function Inverted(s: Stmt): Stmt
    requires s.If?
  {
    If(NotOf(s.condition), ElseStmts(s.elseBody), Else(s.thenBody))
  }

  /** The first conditional inverted, in the order of the text; loops are searched, branches are not. */
  function InvertFirst(stmts: seq<Stmt>): Option<seq<Stmt>>
    decreases stmts
  {
    if stmts == [] then None
    else if stmts[0].If? then Some([Inverted(stmts[0])] + stmts[1..])
    else
      var inner := if stmts[0].While? then InvertFirst(stmts[0].body) else None;
      if inner.Some? then Some([stmts[0].(body := inner.value)] + stmts[1..])
      else
        var rest := InvertFirst(stmts[1..]);
        if rest.Some? then Some([stmts[0]] + rest.value) else None
  }

  // ---------------------------------------------------------------- two writes exchanged

  /** The first neighbours that may change places. */
  function SwapFirst(stmts: seq<Stmt>): Option<seq<Stmt>> {
    if |stmts| < 2 then None
    else if CanReorder(stmts[0], stmts[1]) then Some([stmts[1], stmts[0]] + stmts[2..])
    else
      var rest := SwapFirst(stmts[1..]);
      if rest.Some? then Some([stmts[0]] + rest.value) else None
  }

  /** In this block, or else in the first block inside it that has such neighbours. */
  function ReorderFirst(stmts: seq<Stmt>): Option<seq<Stmt>>
    decreases stmts, 1
  {
    if SwapFirst(stmts).Some? then SwapFirst(stmts) else ReorderInside(stmts)
  }

  function ReorderInside(stmts: seq<Stmt>): Option<seq<Stmt>>
    decreases stmts, 0
  {
    if stmts == [] then None
    else
      var first := ReorderIn(stmts[0]);
      if first.Some? then Some([first.value] + stmts[1..])
      else
        var rest := ReorderInside(stmts[1..]);
        if rest.Some? then Some([stmts[0]] + rest.value) else None
  }

  function ReorderIn(s: Stmt): Option<Stmt>
    decreases s, 0
  {
    match s
    case If(condition, thenBody, elseBody) =>
      var t := ReorderFirst(thenBody);
      if t.Some? then Some(If(condition, t.value, elseBody))
      else if elseBody.NoElse? then None
      else
        var e := ReorderFirst(elseBody.body);
        if e.Some? then Some(If(condition, thenBody, Else(e.value))) else None
    case While(condition, body) =>
      var b := ReorderFirst(body);
      if b.Some? then Some(While(condition, b.value)) else None
    case _ => None
  }

  // ---------------------------------------------------------------- programs

  /** The functions with every body mapped. */
  function MapBodies(f: Function -> seq<Stmt>, functions: seq<Function>): (r: seq<Function>)
    ensures |r| == |functions|
    ensures forall i :: 0 <= i < |functions| ==> r[i] == functions[i].(body := f(functions[i]))
  {
    seq(|functions|, i requires 0 <= i < |functions| => functions[i].(body := f(functions[i])))
  }

  /** The first function whose body the rewrite changes gets the changed body. */
  function ChangeFirst(f: seq<Stmt> -> Option<seq<Stmt>>, functions: seq<Function>): Option<seq<Function>> {
    if functions == [] then None
    else
      var body := f(functions[0].body);
      if body.Some? then Some([functions[0].(body := body.value)] + functions[1..])
      else
        var rest := ChangeFirst(f, functions[1..]);
        if rest.Some? then Some([functions[0]] + rest.value) else None
  }

  /** Statements put in front of the first function called `main`. */
  function OpenMain(opening: seq<Stmt>, functions: seq<Function>): seq<Function> {
    if functions == [] then []
    else if functions[0].name == "main" then [functions[0].(body := opening + functions[0].body)] + functions[1..]
    else [functions[0]] + OpenMain(opening, functions[1..])
  }

  predicate HasMain(p: Program) {
    exists i :: 0 <= i < |p.functions| && p.functions[i].name == "main"
  }

  predicate NeutralChangesProgram(p: Program) {
    || (exists i :: 0 <= i < |p.globals| && NeutralGlobal(p.globals[i]) != p.globals[i])
    || (exists i :: 0 <= i < |p.functions| &&
          NeutralChangesAny(ParamBindings(GlobalBindings(p.globals), p.functions[i].params), p.functions[i].body))
  }

  predicate AnyReturn(p: Program) {
    exists i :: 0 <= i < |p.functions| && Returns(p.functions[i].body)
  }

  function ReturnNeutral(p: Program): Program {
    p.(functions := MapBodies((f: Function) => WrapReturns(PlusZero, f.body), p.functions))
  }

  function DeadBranch(p: Program): Program {
    p.(functions := OpenMain([DeadPrint()], p.functions))
  }

  function UnusedLocal(p: Program, name: string): Program {
    p.(functions := OpenMain(NeutralLocal(name), p.functions))
  }

  function AlgebraicNeutral(p: Program): Program {
    var b := GlobalBindings(p.globals);
    Program(seq(|p.globals|, i requires 0 <= i < |p.globals| => NeutralGlobal(p.globals[i])),
            MapBodies((f: Function) => NeutralBlock(ParamBindings(b, f.params), f.body), p.functions))
  }

  function BranchInversion(p: Program): Option<Program> {
    var changed := ChangeFirst(InvertFirst, p.functions);
    if changed.Some? then Some(p.(functions := changed.value)) else None
  }

  function HelperFunction(name: string, param: string): Function {
    Function(name, [Param(IntType, param)], [Return(Identifier(param))])
  }

  function HelperWrapping(p: Program, helper: string, param: string): Program {
    p.(functions := [HelperFunction(helper, param)] + MapBodies((f: Function) => WrapReturns(InCall(helper), f.body), p.functions))
  }

  function StatementReordering(p: Program): Option<Program> {
    var changed := ChangeFirst(ReorderFirst, p.functions);
    if changed.Some? then Some(p.(functions := changed.value)) else None
  }

  // ---------------------------------------------------------------- new names

  predicate TopLevelName(p: Program, name: string) {
    || (exists i :: 0 <= i < |p.globals| && p.globals[i].name == name)
    || (exists i :: 0 <= i < |p.functions| && p.functions[i].name == name)
  }

  predicate DeclaresIn(name: string, s: Stmt)
    decreases s, 0
  {
    match s
    case VarDecl(_, declared, _, _) => declared == name
    case If(_, thenBody, elseBody) => Declares(name, thenBody) || (elseBody.Else? && Declares(name, elseBody.body))
    case While(_, body) => Declares(name, body)
    case _ => false
  }

  predicate Declares(name: string, stmts: seq<Stmt>)
    decreases stmts, 0
  {
    stmts != [] && (DeclaresIn(name, stmts[0]) || Declares(name, stmts[1..]))
  }

  predicate LocalName(p: Program, f: Function, name: string) {
    || TopLevelName(p, name)
    || (exists i :: 0 <= i < |f.params| && f.params[i].name == name)
    || Declares(name, f.body)
  }
}
