/** Which programs the semantic analyzer accepts: no recorded error on any path of its traversal. */
module Sema {
  import opened Common
  import opened Int32
  import opened Limits
  import opened Ast

  datatype Symbol = Symbol(ty: Type, isArray: bool, isFunction: bool)

  // The visible symbols. Shadowing is rejected, so the chain of scopes flattens to one map.
  type Visible = map<string, Symbol>

  type Signatures = map<string, seq<Type>>

  // What the traversal of one function carries: visible symbols, distinct local names, slots used.
  datatype Walk = Walk(vis: Visible, names: set<string>, slots: nat)

  function TypeOf(vis: Visible, fs: Signatures, e: Expr): Option<Type>
    decreases e, 0
  {
    match e
    case IntLiteral(_) => Some(IntType)
    case BoolLiteral(_) => Some(BoolType)
    case Identifier(name) =>
      if name in vis && !vis[name].isFunction && !vis[name].isArray then Some(vis[name].ty) else None
    case Binary(op, left, right) =>
      var l := TypeOf(vis, fs, left);
      var r := TypeOf(vis, fs, right);
      if l.None? || r.None? then None
      else if op in {BinaryOp.Add, BinaryOp.Sub, BinaryOp.Mul, BinaryOp.Div} then
        (if l.value == IntType && r.value == IntType then Some(IntType) else None)
      else if op in {BinaryOp.Lt, BinaryOp.Gt, BinaryOp.Le, BinaryOp.Ge} then
        (if l.value == IntType && r.value == IntType then Some(BoolType) else None)
      else if op in {BinaryOp.Eq, BinaryOp.Ne} then
        (if l.value == r.value then Some(BoolType) else None)
      else Some(BoolType)
    case Unary(op, operand) =>
      var v := TypeOf(vis, fs, operand);
      if v.None? then None
      else if op == UnaryOp.Neg then (if v.value == IntType then Some(IntType) else None)
      else Some(BoolType)
    case Call(name, args) =>
      if name in fs && |args| == |fs[name]| && ArgsMatch(vis, fs, args, fs[name]) then Some(IntType) else None
    case ArrayIndex(name, index) =>
      if name in vis && vis[name].isArray && TypeOf(vis, fs, index) == Some(IntType) then Some(vis[name].ty) else None
  }

  predicate ArgsMatch(vis: Visible, fs: Signatures, args: seq<Expr>, types: seq<Type>)
    requires |args| == |types|
    decreases args, 0
  {
    args == [] || (TypeOf(vis, fs, args[0]) == Some(types[0]) && ArgsMatch(vis, fs, args[1..], types[1..]))
  }

  function AddLocal(w: Walk, name: string, sym: Symbol): Walk {
    Walk(w.vis[name := sym], w.names + {name}, if name in w.names then w.slots else w.slots + 1)
  }

  predicate InitMatches(vis: Visible, fs: Signatures, init: Option<Expr>, ty: Type) {
    init.Some? ==> TypeOf(vis, fs, init.value) == Some(ty)
  }

  function CheckDecl(fs: Signatures, w: Walk, ty: Type, name: string, init: Option<Expr>, size: Option<I32>): Option<Walk> {
    if name in w.vis || (size.Some? && size.value <= 0) then None
    else
      var w' := AddLocal(w, name, Symbol(ty, size.Some?, false));
      if w'.slots <= MAX_LOCAL_SLOTS && InitMatches(w'.vis, fs, init, ty) then Some(w') else None
  }

  predicate AssignAccepted(vis: Visible, fs: Signatures, target: string, index: Option<Expr>, value: Expr) {
    && target in vis
    && !vis[target].isFunction
    && vis[target].isArray == index.Some?
    && (index.Some? ==> TypeOf(vis, fs, index.value) == Some(IntType))
    && TypeOf(vis, fs, value) == Some(vis[target].ty)
  }

  function CheckStmt(fs: Signatures, w: Walk, s: Stmt): Option<Walk>
    decreases s, 0
  {
    match s
    case VarDecl(ty, name, init, size) => CheckDecl(fs, w, ty, name, init, size)
    case Assign(target, index, value) => if AssignAccepted(w.vis, fs, target, index, value) then Some(w) else None
    case If(condition, thenBody, elseBody) =>
      if TypeOf(w.vis, fs, condition).None? then None
      else
        var t := CheckBlock(fs, w, thenBody);
        if t.None? then None
        else if elseBody.NoElse? then Some(t.value.(vis := w.vis))
        else
          var e := CheckBlock(fs, t.value.(vis := w.vis), elseBody.body);
          if e.None? then None else Some(e.value.(vis := w.vis))
    case While(condition, body) =>
      if TypeOf(w.vis, fs, condition).None? then None
      else
        var b := CheckBlock(fs, w, body);
        if b.None? then None else Some(b.value.(vis := w.vis))
    case Return(value) => if TypeOf(w.vis, fs, value) == Some(IntType) then Some(w) else None
    case Print(value) => if TypeOf(w.vis, fs, value).Some? then Some(w) else None
    case ExprStmt(e) => if TypeOf(w.vis, fs, e).Some? then Some(w) else None
  }

  function CheckBlock(fs: Signatures, w: Walk, stmts: seq<Stmt>): Option<Walk>
    decreases stmts, 0
  {
    if stmts == [] then Some(w)
    else
      var s := CheckStmt(fs, w, stmts[0]);
      if s.None? then None else CheckBlock(fs, s.value, stmts[1..])
  }

  function CheckParams(vis: Visible, params: seq<Param>): Option<Visible> {
    if params == [] then Some(vis)
    else
      var m := |params| - 1;
      var rest := CheckParams(vis, params[..m]);
      if rest.None? || params[m].name in rest.value then None
      else Some(rest.value[params[m].name := Symbol(params[m].paramType, false, false)])
  }

  function ParamNames(params: seq<Param>): set<string> {
    set i | 0 <= i < |params| :: params[i].name
  }

  function ParamTypes(params: seq<Param>): seq<Type> {
    seq(|params|, i requires 0 <= i < |params| => params[i].paramType)
  }

  function Analyze(vis: Visible, fs: Signatures, f: Function): Option<Walk> {
    var params := CheckParams(vis, f.params);
    if params.None? || |f.params| > MAX_LOCAL_SLOTS then None
    else CheckBlock(fs, Walk(params.value, ParamNames(f.params), |f.params|), f.body)
  }

  /** Globals in order: positive sizes, no duplicates, at most 256 slots. */
  function CheckGlobals(globals: seq<GlobalVar>): Option<(Visible, nat)> {
    if globals == [] then Some((map[], 0))
    else
      var m := |globals| - 1;
      var g := globals[m];
      var rest := CheckGlobals(globals[..m]);
      if rest.None? || g.name in rest.value.0 || (g.size.Some? && g.size.value <= 0) then None
      else
        var slots := rest.value.1 + (if g.size.Some? then AsUsize(g.size.value) else 1);
        if slots > MAX_GLOBAL_SLOTS then None
        else Some((rest.value.0[g.name := Symbol(g.varType, g.size.Some?, false)], slots))
  }

  /** Function names join the globals' namespace. */
  function CheckFunctions(vis: Visible, functions: seq<Function>): Option<(Visible, Signatures)> {
    if functions == [] then Some((vis, map[]))
    else
      var m := |functions| - 1;
      var f := functions[m];
      var rest := CheckFunctions(vis, functions[..m]);
      if rest.None? || f.name in rest.value.0 || f.name in rest.value.1 then None
      else Some((rest.value.0[f.name := Symbol(IntType, false, true)], rest.value.1[f.name := ParamTypes(f.params)]))
  }

  function TopLevel(p: Program): Option<(Visible, Signatures)> {
    var g := CheckGlobals(p.globals);
    if g.None? then None else CheckFunctions(g.value.0, p.functions)
  }

  predicate Accepts(p: Program) {
    var top := TopLevel(p);
    && top.Some?
    && (forall i :: 0 <= i < |p.globals| ==> InitMatches(top.value.0, top.value.1, p.globals[i].init, p.globals[i].varType))
    && "main" in top.value.1
    && top.value.1["main"] == []
    && (forall i :: 0 <= i < |p.functions| ==> Analyze(top.value.0, top.value.1, p.functions[i]).Some?)
  }
}
