/**
 * What the analyzer's acceptance means for the oracle: no run of an accepted program misuses a name, whatever limits it
 * meets, and stores whose value is silent are never rejected visibly.
 */
module TypeSafety {
  import opened Common
  import opened Int32
  import opened Limits
  import opened Ast
  import opened CodeGen
  import opened Correctness
  import opened Linking
  import M = Machine
  import O = Oracle
  import S = Sema

  // ---------------------------------------------------------------- silent values and tame stores

  /** Evaluating this prints nothing and cannot trap: literals, operators but division, and the given scalars. */
  predicate Silent(scalars: set<string>, e: Expr) {
    match e
    case IntLiteral(_) => true
    case BoolLiteral(_) => true
    case Identifier(name) => name in scalars
    case Binary(op, left, right) => op != BinaryOp.Div && Silent(scalars, left) && Silent(scalars, right)
    case Unary(_, operand) => Silent(scalars, operand)
    case Call(_, _) => false
    case ArrayIndex(_, _) => false
  }

  predicate TameStmt(scalars: set<string>, s: Stmt)
    decreases s, 0
  {
    match s
    case Assign(_, index, value) =>
      index.Some? ==> (index.value.IntLiteral? && index.value.value >= 0) || Silent(scalars, value)
    case If(_, thenBody, elseBody) => TameBlock(scalars, thenBody) && (elseBody.Else? ==> TameBlock(scalars, elseBody.body))
    case While(_, body) => TameBlock(scalars, body)
    case _ => true
  }

  /** Every array store has a literal index that is not negative, or a silent value. */
  predicate TameBlock(scalars: set<string>, stmts: seq<Stmt>)
    decreases stmts, 0
  {
    stmts == [] || (TameStmt(scalars, stmts[0]) && TameBlock(scalars, stmts[1..]))
  }

  function ScalarGlobals(globals: seq<GlobalVar>): set<string> {
    set i | 0 <= i < |globals| && globals[i].size.None? :: globals[i].name
  }

  /** The scalars that always have a value in a function: its parameters and the scalar globals. */
  function Defined(p: Program, f: Function): set<string> {
    S.ParamNames(f.params) + ScalarGlobals(p.globals)
  }

  predicate TameStores(p: Program) {
    forall i :: 0 <= i < |p.functions| ==> TameBlock(Defined(p, p.functions[i]), p.functions[i].body)
  }

  // ---------------------------------------------------------------- typed states

  // The program, what is visible at the top level, and the functions' signatures. A tame context promises tame stores.
  datatype Ctx = Ctx(p: Program, top: S.Visible, fs: S.Signatures, tame: bool)

  // One function's declarations and parameters; none of either for a global initializer.
  datatype Locals = Locals(decls: seq<(string, Option<I32>)>, params: set<string>)

  predicate Sound(x: Ctx) {
    && S.TopLevel(x.p) == Some((x.top, x.fs))
    && (forall i :: 0 <= i < |x.p.functions| ==> S.Analyze(x.top, x.fs, x.p.functions[i]).Some? && OneShape(x.p.functions[i]))
    && (x.tame ==> TameStores(x.p))
  }

  predicate HasValue(slot: O.Slot) {
    slot.Scalar? ==> slot.content.Some?
  }

  predicate IsGlobal(top: S.Visible, y: string) {
    y in top && !top[y].isFunction
  }

  ghost predicate GlobalsTyped(top: S.Visible, globals: O.Scope) {
    && (forall y :: y in globals <==> IsGlobal(top, y))
    && (forall y <- globals :: globals[y].Array? == top[y].isArray && HasValue(globals[y]))
  }

  /** A local has the one shape its declarations give it. */
  predicate Shaped(loc: Locals, y: string, slot: O.Slot) {
    forall d <- loc.decls :: d.0 == y ==> slot.Array? == d.1.Some?
  }

  ghost predicate ScopeTyped(x: Ctx, loc: Locals, vis: S.Visible, scope: O.Scope) {
    && (forall y <- scope :: y !in x.top && Shaped(loc, y, scope[y]))
    && (forall y <- vis :: y !in x.top ==> y in scope && !vis[y].isFunction && scope[y].Array? == vis[y].isArray)
    && (forall y <- loc.params :: y in scope && scope[y].Scalar? && scope[y].content.Some?)
  }

  /** What is visible includes the top level. */
  predicate Extends(top: S.Visible, vis: S.Visible) {
    forall y <- top :: y in vis && vis[y] == top[y]
  }

  ghost predicate Typed(x: Ctx, loc: Locals, vis: S.Visible, st: O.State) {
    Extends(x.top, vis) && GlobalsTyped(x.top, st.globals) && ScopeTyped(x, loc, vis, O.Top(st))
  }

  predicate Misuse(code: TrapCode) {
    code == InvalidInstruction || code == UndefinedFunction
  }

  /** Not a misuse of a name; and in a tame context not a store rejected visibly. */
  predicate Fine<T>(x: Ctx, r: O.Result<T>) {
    r.Fail? ==> !Misuse(r.code) && (x.tame ==> r.site != O.BeforeStoredValue(O.Observable))
  }

  // ---------------------------------------------------------------- slots

  lemma Found(x: Ctx, loc: Locals, vis: S.Visible, st: O.State, y: string)
    requires Typed(x, loc, vis, st) && y in vis && !vis[y].isFunction
    ensures O.LookupSlot(st, y).Some? && O.LookupSlot(st, y).value.Array? == vis[y].isArray
    ensures y in x.top ==> HasValue(O.LookupSlot(st, y).value)
    ensures y in loc.params ==> HasValue(O.LookupSlot(st, y).value)
  {
  }

  /** Overwriting a visible slot by one of the same kind that has a value. */
  lemma Updated(x: Ctx, loc: Locals, vis: S.Visible, st: O.State, y: string, slot: O.Slot)
    requires Typed(x, loc, vis, st) && y in vis && !vis[y].isFunction
    requires O.LookupSlot(st, y).Some? && slot.Array? == O.LookupSlot(st, y).value.Array? && HasValue(slot)
    ensures Typed(x, loc, vis, O.UpdateSlot(st, y, slot))
    ensures |O.UpdateSlot(st, y, slot).frames| == |st.frames|
  {
    Found(x, loc, vis, st, y);
  }

  lemma ScalarAssigned(x: Ctx, loc: Locals, vis: S.Visible, st: O.State, y: string, value: int)
    requires Typed(x, loc, vis, st) && y in vis && !vis[y].isFunction && !vis[y].isArray
    ensures var r := O.AssignScalar(st, y, value); r.res.Ok? && Typed(x, loc, vis, r.st) && |r.st.frames| == |st.frames|
  {
    hide NormalizeI32;
    Found(x, loc, vis, st, y);
    Updated(x, loc, vis, st, y, O.Scalar(Some(NormalizeI32(value))));
  }

  lemma ElementAssigned(x: Ctx, loc: Locals, vis: S.Visible, st: O.State, y: string, index: nat, value: int)
    requires Typed(x, loc, vis, st) && y in vis && !vis[y].isFunction && vis[y].isArray
    ensures var r := O.AssignArray(st, y, index, value);
      Fine(x, r.res) && (r.res.Ok? ==> Typed(x, loc, vis, r.st) && |r.st.frames| == |st.frames|)
  {
    hide NormalizeI32;
    Found(x, loc, vis, st, y);
    var values := O.LookupSlot(st, y).value.values;
    if index < |values| {
      Updated(x, loc, vis, st, y, O.Array(values[index := NormalizeI32(value)]));
    }
  }

  /** Counting and printing touch no slot. */
  lemma SameSlots(x: Ctx, loc: Locals, vis: S.Visible, st: O.State, st': O.State)
    requires Typed(x, loc, vis, st) && st'.globals == st.globals && st'.frames == st.frames
    ensures Typed(x, loc, vis, st')
  {
  }

  lemma NewGlobals(x: Ctx, loc: Locals, vis: S.Visible, st: O.State, st': O.State)
    requires Typed(x, loc, vis, st) && st'.frames == st.frames && GlobalsTyped(x.top, st'.globals)
    ensures Typed(x, loc, vis, st')
  {
  }

  lemma TypedGlobals(x: Ctx, loc: Locals, vis: S.Visible, st: O.State)
    requires Typed(x, loc, vis, st)
    ensures GlobalsTyped(x.top, st.globals)
  {
  }

  /** Less may be visible. */
  lemma Narrowed(x: Ctx, loc: Locals, vis: S.Visible, vis': S.Visible, st: O.State)
    requires Typed(x, loc, vis, st) && Extends(x.top, vis') && forall y <- vis' :: y in vis && vis[y] == vis'[y]
    ensures Typed(x, loc, vis', st)
  {
  }

  // ---------------------------------------------------------------- silent values

  /** A silent value prints nothing, changes nothing, and can only run out of cycles. */
  lemma {:induction false} SilentRuns(x: Ctx, loc: Locals, vis: S.Visible, scalars: set<string>, st: O.State, e: Expr)
    requires Typed(x, loc, vis, st) && S.TypeOf(vis, x.fs, e).Some? && Silent(scalars, e)
    requires forall y <- scalars :: y in loc.params || y in x.top
    ensures var r := O.Eval(x.p, st, e); r.st.output == st.output && (r.res.Fail? ==> r.res.code == CycleLimit)
    ensures var r := O.Eval(x.p, st, e); r.st.globals == st.globals && r.st.frames == st.frames
    decreases e
  {
    hide O.EvalBinary, O.EvalUnary, Typed;
    var t := O.Tick(st);
    if t.res.Ok? {
      SameSlots(x, loc, vis, st, t.st);
      match e {
        case IntLiteral(_) =>
        case BoolLiteral(_) =>
        case Identifier(name) => Found(x, loc, vis, t.st, name);
        case Binary(op, left, right) =>
          SilentRuns(x, loc, vis, scalars, t.st, left);
          var l := O.Eval(x.p, t.st, left);
          SameSlots(x, loc, vis, t.st, l.st);
          SilentRuns(x, loc, vis, scalars, l.st, right);
          if op != BinaryOp.And && op != BinaryOp.Or {
            NoDivision(op);
          }
        case Unary(_, operand) => SilentRuns(x, loc, vis, scalars, t.st, operand);
      }
    }
  }

  lemma NoDivision(op: BinaryOp)
    requires op != BinaryOp.Div && op != BinaryOp.And && op != BinaryOp.Or
    ensures forall a, b :: O.EvalBinary(op, a, b).Ok?
  {
  }

  lemma BinaryFine(x: Ctx, op: BinaryOp, a: int, b: int)
    requires op != BinaryOp.And && op != BinaryOp.Or
    ensures Fine(x, O.EvalBinary(op, a, b))
  {
  }

  // ---------------------------------------------------------------- expressions and calls

  lemma {:induction false} EvalSafe(x: Ctx, loc: Locals, vis: S.Visible, st: O.State, e: Expr)
    requires Sound(x) && Typed(x, loc, vis, st) && S.TypeOf(vis, x.fs, e).Some?
    ensures var r := O.Eval(x.p, st, e); Fine(x, r.res) && (r.res.Ok? ==> Typed(x, loc, vis, r.st))
    decreases O.Fuel(st), 0
  {
    hide O.EvalBinary, O.EvalUnary, Typed, Sound, O.CallFunction, O.EvalArgs;
    var t := O.Tick(st);
    if t.res.Fail? {
      return;
    }
    SameSlots(x, loc, vis, st, t.st);
    match e {
      case IntLiteral(_) =>
      case BoolLiteral(_) =>
      case Identifier(name) => Found(x, loc, vis, t.st, name);
      case Binary(op, left, right) =>
        EvalSafe(x, loc, vis, t.st, left);
        var l := O.Eval(x.p, t.st, left);
        if l.res.Ok? {
          EvalSafe(x, loc, vis, l.st, right);
          var r := O.Eval(x.p, l.st, right);
          if op != BinaryOp.And && op != BinaryOp.Or && r.res.Ok? {
            BinaryFine(x, op, l.res.value, r.res.value);
          }
        }
      case Unary(_, operand) => EvalSafe(x, loc, vis, t.st, operand);
      case Call(name, args) =>
        CallTyped(x, vis, name, args);
        ArgsSafe(x, loc, vis, t.st, args, x.fs[name]);
        var vs := O.EvalArgs(x.p, t.st, args);
        if vs.res.Ok? {
          TypedGlobals(x, loc, vis, vs.st);
          CallSafe(x, vs.st, name, vs.res.value);
          var r := O.CallFunction(x.p, vs.st, name, vs.res.value);
          if r.res.Ok? {
            NewGlobals(x, loc, vis, vs.st, r.st);
          }
        }
      case ArrayIndex(name, index) =>
        EvalSafe(x, loc, vis, t.st, index);
        var i := O.Eval(x.p, t.st, index);
        if i.res.Ok? {
          ArrayIsVariable(x, loc, vis, i.st, name);
          Found(x, loc, vis, i.st, name);
        }
    }
  }

  lemma CallTyped(x: Ctx, vis: S.Visible, name: string, args: seq<Expr>)
    requires S.TypeOf(vis, x.fs, Call(name, args)).Some?
    ensures name in x.fs && |args| == |x.fs[name]| && S.ArgsMatch(vis, x.fs, args, x.fs[name])
  {
  }

  /** Only variables are arrays. */
  lemma ArrayIsVariable(x: Ctx, loc: Locals, vis: S.Visible, st: O.State, name: string)
    requires Typed(x, loc, vis, st) && name in vis && vis[name].isArray
    requires Sound(x) || (name in x.top ==> !x.top[name].isFunction)
    ensures !vis[name].isFunction
  {
    if Sound(x) {
      TopKinds(x);
    }
  }

  lemma TopKinds(x: Ctx)
    requires Sound(x)
    ensures forall y <- x.top :: x.top[y].isFunction == (y in x.fs) && (x.top[y].isFunction ==> !x.top[y].isArray)
  {
    var globals := S.CheckGlobals(x.p.globals).value.0;
    GlobalsLaidOut(x.p.globals);
    FunctionsKnown(globals, x.p.functions);
  }

  lemma {:induction false} ArgsSafe(x: Ctx, loc: Locals, vis: S.Visible, st: O.State, args: seq<Expr>, types: seq<Type>)
    requires Sound(x) && Typed(x, loc, vis, st) && |args| == |types| && S.ArgsMatch(vis, x.fs, args, types)
    ensures var r := O.EvalArgs(x.p, st, args); Fine(x, r.res) && (r.res.Ok? ==> Typed(x, loc, vis, r.st))
    decreases O.Fuel(st), |args| + 1
  {
    hide Typed, Sound, O.Eval;
    if args != [] {
      EvalSafe(x, loc, vis, st, args[0]);
      var v := O.Eval(x.p, st, args[0]);
      if v.res.Ok? {
        ArgsSafe(x, loc, vis, v.st, args[1..], types[1..]);
      }
    }
  }

  /** The locals of a function, and what is visible where its body begins. */
  function LocalsOf(f: Function): Locals {
    Locals(Decls(f.body), S.ParamNames(f.params))
  }

  lemma {:induction false} ParamsVisible(vis: S.Visible, params: seq<Param>)
    requires S.CheckParams(vis, params).Some?
    ensures var inner := S.CheckParams(vis, params).value;
      && (forall y <- vis :: y in inner && inner[y] == vis[y] && y !in S.ParamNames(params))
      && (forall y <- inner :: y !in vis ==> y in S.ParamNames(params) && !inner[y].isFunction && !inner[y].isArray)
      && (forall y <- S.ParamNames(params) :: y in inner)
  {
    if params != [] {
      var m := |params| - 1;
      ParamsVisible(vis, params[..m]);
      assert forall y <- S.ParamNames(params) :: y in S.ParamNames(params[..m]) || y == params[m].name;
    }
  }

  lemma {:induction false} ParamsBound(params: seq<Param>, args: seq<int>)
    requires |params| == |args|
    ensures O.BindParams(params, args).Keys == S.ParamNames(params)
    ensures forall y <- O.BindParams(params, args) :: O.BindParams(params, args)[y].Scalar? && O.BindParams(params, args)[y].content.Some?
  {
    if params != [] {
      var m := |params| - 1;
      ParamsBound(params[..m], args[..m]);
      assert forall y <- S.ParamNames(params) :: y in S.ParamNames(params[..m]) || y == params[m].name;
      assert params[m].name in S.ParamNames(params);
      assert forall y <- S.ParamNames(params[..m]) :: y in S.ParamNames(params);
    }
  }

  /** Where names may be declared: not where they are visible already. */
  predicate Unseen(vis: S.Visible, decls: seq<(string, Option<I32>)>) {
    forall d <- decls :: d.0 !in vis
  }

  lemma {:induction false} StmtDeclaresUnseen(fs: S.Signatures, w: S.Walk, s: Stmt)
    requires S.CheckStmt(fs, w, s).Some?
    ensures Unseen(w.vis, StmtDecls(s)) && forall y <- w.vis :: y in S.CheckStmt(fs, w, s).value.vis && S.CheckStmt(fs, w, s).value.vis[y] == w.vis[y]
    decreases s, 0
  {
    match s {
      case If(_, thenBody, elseBody) =>
        BlockDeclaresUnseen(fs, w, thenBody);
        if elseBody.Else? {
          BlockDeclaresUnseen(fs, S.CheckBlock(fs, w, thenBody).value.(vis := w.vis), elseBody.body);
        }
      case While(_, body) => BlockDeclaresUnseen(fs, w, body);
      case _ =>
    }
  }

  lemma {:induction false} BlockDeclaresUnseen(fs: S.Signatures, w: S.Walk, stmts: seq<Stmt>)
    requires S.CheckBlock(fs, w, stmts).Some?
    ensures Unseen(w.vis, Decls(stmts)) && forall y <- w.vis :: y in S.CheckBlock(fs, w, stmts).value.vis && S.CheckBlock(fs, w, stmts).value.vis[y] == w.vis[y]
    decreases stmts, 0
  {
    hide S.CheckStmt, StmtDecls;
    if stmts != [] {
      StmtDeclaresUnseen(fs, w, stmts[0]);
      BlockDeclaresUnseen(fs, S.CheckStmt(fs, w, stmts[0]).value, stmts[1..]);
    }
  }

  lemma {:induction false} CallSafe(x: Ctx, st: O.State, name: string, args: seq<int>)
    requires Sound(x) && GlobalsTyped(x.top, st.globals) && name in x.fs && |args| == |x.fs[name]|
    ensures var r := O.CallFunction(x.p, st, name, args); Fine(x, r.res) && (r.res.Ok? ==> GlobalsTyped(x.top, r.st.globals))
    decreases O.Fuel(st), 0
  {
    hide O.ExecBlock, GlobalsTyped, Typed, OneShape, TameBlock, NormalizeI32;
    var t := O.Tick(st);
    if t.res.Fail? || |t.st.frames| >= MAX_FRAMES {
      return;
    }
    FunctionFound(S.CheckGlobals(x.p.globals).value.0, x.p.functions, name);
    var i := O.FindFunction(x.p.functions, name).value;
    var f := x.p.functions[i];
    var entered := t.st.(frames := t.st.frames + [O.BindParams(f.params, args)]);
    Entered(x, i, t.st, args);
    var w := S.Walk(S.CheckParams(x.top, f.params).value, S.ParamNames(f.params), |f.params|);
    TameHere(x, i);
    assert Ready(x, LocalsOf(f), Defined(x.p, f), w, entered) by {
      StartsReady(x, i, entered);
    }
    BlockSafe(x, LocalsOf(f), Defined(x.p, f), w, entered, f.body);
  }

  lemma StartsReady(x: Ctx, i: nat, st: O.State)
    requires Sound(x) && i < |x.p.functions| && st.frames != []
    requires var f := x.p.functions[i];
      S.CheckParams(x.top, f.params).Some? && Typed(x, LocalsOf(f), S.CheckParams(x.top, f.params).value, st)
    ensures var f := x.p.functions[i];
      Ready(x, LocalsOf(f), Defined(x.p, f), S.Walk(S.CheckParams(x.top, f.params).value, S.ParamNames(f.params), |f.params|), st)
  {
    hide Typed;
    ParamsVisible(x.top, x.p.functions[i].params);
    TameHere(x, i);
    assert OneShape(x.p.functions[i]);
  }

  lemma TameHere(x: Ctx, i: nat)
    requires Sound(x) && i < |x.p.functions|
    ensures x.tame ==> TameBlock(Defined(x.p, x.p.functions[i]), x.p.functions[i].body)
    ensures forall y <- Defined(x.p, x.p.functions[i]) :: y in S.ParamNames(x.p.functions[i].params) || y in x.top
  {
    hide TameBlock;
    forall y <- ScalarGlobals(x.p.globals) ensures y in x.top {
      var k :| 0 <= k < |x.p.globals| && x.p.globals[k].size.None? && x.p.globals[k].name == y;
      GlobalIn(x.p.globals, k);
      GlobalsLaidOut(x.p.globals);
      FunctionsKnown(S.CheckGlobals(x.p.globals).value.0, x.p.functions);
    }
  }

  lemma Entered(x: Ctx, i: nat, st: O.State, args: seq<int>)
    requires Sound(x) && i < |x.p.functions| && GlobalsTyped(x.top, st.globals) && |args| == |x.p.functions[i].params|
    ensures var f := x.p.functions[i];
      && S.CheckParams(x.top, f.params).Some?
      && S.CheckBlock(x.fs, S.Walk(S.CheckParams(x.top, f.params).value, S.ParamNames(f.params), |f.params|), f.body).Some?
      && Typed(x, LocalsOf(f), S.CheckParams(x.top, f.params).value, st.(frames := st.frames + [O.BindParams(f.params, args)]))
  {
    hide GlobalsTyped, OneShape, TameStores, Decls;
    var f := x.p.functions[i];
    assert S.Analyze(x.top, x.fs, f).Some?;
    ParamsVisible(x.top, f.params);
    ParamsBound(f.params, args);
    var w := S.Walk(S.CheckParams(x.top, f.params).value, S.ParamNames(f.params), |f.params|);
    BlockDeclaresUnseen(x.fs, w, f.body);
  }

  // ---------------------------------------------------------------- statements

  /** A statement's outcome: names fit whether control goes on or returns. */
  ghost predicate Leaves(x: Ctx, loc: Locals, vis: S.Visible, st: O.State, r: O.Eff<O.Control>) {
    && Fine(x, r.res)
    && (r.res.Ok? ==> GlobalsTyped(x.top, r.st.globals) && |r.st.frames| == |st.frames|)
    && (r.res.Ok? && r.res.value.Continue? ==> Typed(x, loc, vis, r.st))
  }

  /** The block lies in the function: its declarations are among the function's. */
  predicate Inside(loc: Locals, stmts: seq<Stmt>) {
    forall d <- Decls(stmts) :: d in loc.decls
  }

  predicate OneShapeEach(loc: Locals) {
    forall d <- loc.decls, e <- loc.decls :: d.0 == e.0 ==> d.1 == e.1
  }

  ghost predicate Ready(x: Ctx, loc: Locals, scalars: set<string>, w: S.Walk, st: O.State) {
    && Sound(x) && Typed(x, loc, w.vis, st) && st.frames != [] && OneShapeEach(loc)
    && (forall y <- loc.params :: y in w.vis)
    && (forall y <- scalars :: y in loc.params || y in x.top)
  }

  lemma ReadyParts(x: Ctx, loc: Locals, scalars: set<string>, w: S.Walk, st: O.State)
    requires Ready(x, loc, scalars, w, st)
    ensures Sound(x) && Typed(x, loc, w.vis, st) && st.frames != [] && Extends(x.top, w.vis)
    ensures forall y <- scalars :: y in loc.params || y in x.top
  {
  }

  /** The same place, with another state or with more visible. */
  lemma ReadyOn(x: Ctx, loc: Locals, scalars: set<string>, w: S.Walk, st: O.State, w': S.Walk, st': O.State)
    requires Ready(x, loc, scalars, w, st) && Typed(x, loc, w'.vis, st') && |st'.frames| == |st.frames|
    requires forall y <- w.vis :: y in w'.vis && w'.vis[y] == w.vis[y]
    ensures Ready(x, loc, scalars, w', st')
  {
    hide Typed, Sound;
  }

  lemma {:induction false} BlockSafe(x: Ctx, loc: Locals, scalars: set<string>, w: S.Walk, st: O.State, stmts: seq<Stmt>)
    requires Ready(x, loc, scalars, w, st) && S.CheckBlock(x.fs, w, stmts).Some? && Inside(loc, stmts)
    requires x.tame ==> TameBlock(scalars, stmts)
    ensures Leaves(x, loc, S.CheckBlock(x.fs, w, stmts).value.vis, st, O.ExecBlock(x.p, st, stmts))
    decreases O.Fuel(st), |stmts| + 1
  {
    hide Typed, Sound, Ready, O.ExecStmt, S.CheckStmt, TameStmt, StmtDecls, GlobalsTyped, OneShapeEach;
    ReadyParts(x, loc, scalars, w, st);
    TypedGlobals(x, loc, w.vis, st);
    if stmts != [] {
      assert Decls(stmts) == StmtDecls(stmts[0]) + Decls(stmts[1..]);
      StmtSafe(x, loc, scalars, w, st, stmts[0]);
      var s := O.ExecStmt(x.p, st, stmts[0]);
      if s.res.Ok? && s.res.value.Continue? {
        var w' := S.CheckStmt(x.fs, w, stmts[0]).value;
        StmtDeclaresUnseen(x.fs, w, stmts[0]);
        ReadyOn(x, loc, scalars, w, st, w', s.st);
        BlockSafe(x, loc, scalars, w', s.st, stmts[1..]);
      }
    }
  }

  predicate StmtInside(loc: Locals, s: Stmt) {
    forall d <- StmtDecls(s) :: d in loc.decls
  }

  lemma {:induction false} StmtSafe(x: Ctx, loc: Locals, scalars: set<string>, w: S.Walk, st: O.State, s: Stmt)
    requires Ready(x, loc, scalars, w, st) && S.CheckStmt(x.fs, w, s).Some? && StmtInside(loc, s)
    requires x.tame ==> TameStmt(scalars, s)
    ensures Leaves(x, loc, S.CheckStmt(x.fs, w, s).value.vis, st, O.ExecStmt(x.p, st, s))
    decreases O.Fuel(st), 0
  {
    hide Typed, Sound, Ready, O.ExecBlock, O.ExecWhile, O.ExecAssign, O.ExecDecl, O.Eval, GlobalsTyped, S.CheckBlock, S.CheckDecl,
      S.AssignAccepted, TameBlock, Decls, OneShapeEach, Silent;
    ReadyParts(x, loc, scalars, w, st);
    var t := O.Tick(st);
    if t.res.Fail? {
      return;
    }
    SameSlots(x, loc, w.vis, st, t.st);
    ReadyOn(x, loc, scalars, w, st, w, t.st);
    match s {
      case VarDecl(ty, name, init, size) => DeclSafe(x, loc, scalars, w, t.st, s);
      case Assign(target, index, value) => AssignSafe(x, loc, scalars, w, t.st, target, index, value);
      case If(condition, thenBody, elseBody) => IfSafe(x, loc, scalars, w, t.st, s);
      case While(condition, body) => WhileSafe(x, loc, scalars, w, t.st, condition, body);
      case Return(value) => ValueSafe(x, loc, w.vis, t.st, value);
      case Print(value) =>
        ValueSafe(x, loc, w.vis, t.st, value);
        var v := O.Eval(x.p, t.st, value);
        if v.res.Ok? {
          SameSlots(x, loc, w.vis, v.st, v.st.(output := v.st.output + [v.res.value]));
        }
      case ExprStmt(e) => ValueSafe(x, loc, w.vis, t.st, e);
    }
  }

  lemma {:induction false} ValueSafe(x: Ctx, loc: Locals, vis: S.Visible, st: O.State, e: Expr)
    requires Sound(x) && Typed(x, loc, vis, st) && S.TypeOf(vis, x.fs, e).Some?
    ensures var r := O.Eval(x.p, st, e);
      Fine(x, r.res) && (r.res.Ok? ==> Typed(x, loc, vis, r.st) && GlobalsTyped(x.top, r.st.globals) && r.st.frames == st.frames)
    decreases O.Fuel(st), 1
  {
    hide Typed, Sound, O.Eval, GlobalsTyped;
    EvalSafe(x, loc, vis, st, e);
    var r := O.Eval(x.p, st, e);
    if r.res.Ok? {
      TypedGlobals(x, loc, vis, r.st);
    }
  }

  lemma {:induction false} IfSafe(x: Ctx, loc: Locals, scalars: set<string>, w: S.Walk, st: O.State, s: Stmt)
    requires s.If? && Ready(x, loc, scalars, w, st) && S.CheckStmt(x.fs, w, s).Some? && StmtInside(loc, s)
    requires x.tame ==> TameStmt(scalars, s)
    ensures Fine(x, O.Eval(x.p, st, s.condition).res)
    ensures var c := O.Eval(x.p, st, s.condition);
      c.res.Ok? ==>
        && (c.res.value != 0 ==> Leaves(x, loc, w.vis, st, O.ExecBlock(x.p, c.st, s.thenBody)))
        && (c.res.value == 0 && s.elseBody.Else? ==> Leaves(x, loc, w.vis, st, O.ExecBlock(x.p, c.st, s.elseBody.body)))
        && Typed(x, loc, w.vis, c.st) && GlobalsTyped(x.top, c.st.globals) && c.st.frames == st.frames
    decreases O.Fuel(st), 2
  {
    hide Typed, Sound, Ready, O.ExecBlock, O.Eval, GlobalsTyped, S.CheckBlock, TameBlock, Decls, OneShapeEach;
    ReadyParts(x, loc, scalars, w, st);
    ValueSafe(x, loc, w.vis, st, s.condition);
    var c := O.Eval(x.p, st, s.condition);
    if c.res.Ok? {
      var thenWalk := S.CheckBlock(x.fs, w, s.thenBody).value;
      if c.res.value != 0 {
        BranchSafe(x, loc, scalars, w, w, st, c.st, s.thenBody);
      } else if s.elseBody.Else? {
        BranchSafe(x, loc, scalars, w, thenWalk.(vis := w.vis), st, c.st, s.elseBody.body);
      }
    }
  }

  /** A nested block: what it declares is not visible behind it. */
  lemma {:induction false} BranchSafe(x: Ctx, loc: Locals, scalars: set<string>, w: S.Walk, inner: S.Walk, st: O.State, st': O.State, stmts: seq<Stmt>)
    requires Ready(x, loc, scalars, w, st) && inner.vis == w.vis && Typed(x, loc, w.vis, st') && st'.frames == st.frames
    requires st'.cycles > st.cycles && st.cycles <= MAX_CYCLES
    requires S.CheckBlock(x.fs, inner, stmts).Some? && Inside(loc, stmts) && (x.tame ==> TameBlock(scalars, stmts))
    ensures Leaves(x, loc, w.vis, st, O.ExecBlock(x.p, st', stmts))
    decreases O.Fuel(st), 0
  {
    hide Typed, Sound, Ready, O.ExecBlock, GlobalsTyped, S.CheckBlock, TameBlock, Decls, OneShapeEach;
    ReadyParts(x, loc, scalars, w, st);
    ReadyOn(x, loc, scalars, w, st, inner, st');
    BlockSafe(x, loc, scalars, inner, st', stmts);
    BlockDeclaresUnseen(x.fs, inner, stmts);
    var r := O.ExecBlock(x.p, st', stmts);
    if r.res.Ok? && r.res.value.Continue? {
      Narrowed(x, loc, S.CheckBlock(x.fs, inner, stmts).value.vis, w.vis, r.st);
    }
  }

  lemma {:induction false} WhileSafe(x: Ctx, loc: Locals, scalars: set<string>, w: S.Walk, st: O.State, condition: Expr, body: seq<Stmt>)
    requires Ready(x, loc, scalars, w, st) && S.TypeOf(w.vis, x.fs, condition).Some?
    requires S.CheckBlock(x.fs, w, body).Some? && Inside(loc, body) && (x.tame ==> TameBlock(scalars, body))
    ensures Leaves(x, loc, w.vis, st, O.ExecWhile(x.p, st, condition, body))
    decreases O.Fuel(st), 2
  {
    hide Typed, Sound, Ready, O.ExecBlock, O.Eval, GlobalsTyped, S.CheckBlock, TameBlock, Decls, OneShapeEach;
    ReadyParts(x, loc, scalars, w, st);
    ValueSafe(x, loc, w.vis, st, condition);
    var c := O.Eval(x.p, st, condition);
    if c.res.Ok? && c.res.value != 0 {
      BranchSafe(x, loc, scalars, w, w, st, c.st, body);
      var b := O.ExecBlock(x.p, c.st, body);
      if b.res.Ok? && b.res.value.Continue? {
        ReadyOn(x, loc, scalars, w, st, w, b.st);
        WhileSafe(x, loc, scalars, w, b.st, condition, body);
      }
    }
  }

  lemma {:induction false} AssignSafe(x: Ctx, loc: Locals, scalars: set<string>, w: S.Walk, st: O.State, target: string, index: Option<Expr>, value: Expr)
    requires Ready(x, loc, scalars, w, st) && S.AssignAccepted(w.vis, x.fs, target, index, value)
    requires x.tame ==> TameStmt(scalars, Assign(target, index, value))
    ensures Leaves(x, loc, w.vis, st, O.ExecAssign(x.p, st, target, index, value))
    decreases O.Fuel(st), 2
  {
    hide Typed, Sound, Ready, O.Eval, GlobalsTyped, O.AssignScalar, O.AssignArray, Silent;
    ReadyParts(x, loc, scalars, w, st);
    if index.None? {
      ValueSafe(x, loc, w.vis, st, value);
      var v := O.Eval(x.p, st, value);
      if v.res.Ok? {
        ScalarAssigned(x, loc, w.vis, v.st, target, v.res.value);
        TypedGlobals(x, loc, w.vis, O.AssignScalar(v.st, target, v.res.value).st);
      }
    } else {
      ValueSafe(x, loc, w.vis, st, index.value);
      var i := O.Eval(x.p, st, index.value);
      if i.res.Ok? {
        ValueSafe(x, loc, w.vis, i.st, value);
        var v := O.Eval(x.p, i.st, value);
        if i.res.value < 0 {
          if x.tame {
            NegativeIndex(x, st, index.value);
            SilentRuns(x, loc, w.vis, scalars, i.st, value);
          }
        } else if v.res.Ok? {
          ElementAssigned(x, loc, w.vis, v.st, target, i.res.value, v.res.value);
          var r := O.AssignArray(v.st, target, i.res.value, v.res.value);
          if r.res.Ok? {
            TypedGlobals(x, loc, w.vis, r.st);
          }
        }
      }
    }
  }

  lemma NegativeIndex(x: Ctx, st: O.State, e: Expr)
    requires O.Eval(x.p, st, e).res.Ok? && O.Eval(x.p, st, e).res.value < 0
    ensures !(e.IntLiteral? && e.value >= 0)
  {
  }

  /** Declaring an unseen name, once more or for the first time, gives it a slot of the declared kind. */
  lemma Declares(x: Ctx, loc: Locals, scalars: set<string>, w: S.Walk, st: O.State, name: string, sym: S.Symbol, slot: O.Slot, st': O.State)
    requires Ready(x, loc, scalars, w, st) && name !in w.vis && !sym.isFunction
    requires exists d <- loc.decls :: d.0 == name && d.1.Some? == sym.isArray
    requires slot.Array? == sym.isArray
    requires if O.LookupSlot(st, name).Some? then st' == O.UpdateSlot(st, name, slot) || st' == st
             else st' == O.WithTop(st, O.Top(st)[name := slot])
    ensures Typed(x, loc, w.vis[name := sym], st') && |st'.frames| == |st.frames|
  {
    hide Sound;
  }

  lemma DeclSafe(x: Ctx, loc: Locals, scalars: set<string>, w: S.Walk, st: O.State, s: Stmt)
    requires s.VarDecl? && Ready(x, loc, scalars, w, st) && StmtInside(loc, s)
    requires S.CheckDecl(x.fs, w, s.varType, s.name, s.init, s.size).Some?
    ensures Leaves(x, loc, S.CheckDecl(x.fs, w, s.varType, s.name, s.init, s.size).value.vis, st, O.ExecDecl(x.p, st, s.name, s.init, s.size))
    decreases O.Fuel(st), 2
  {
    hide Typed, Sound, Ready, O.Eval, GlobalsTyped, O.AssignScalar;
    var sym := S.Symbol(s.varType, s.size.Some?, false);
    var vis := w.vis[s.name := sym];
    var d := (s.name, s.size);
    assert StmtDecls(s) == [d] && d in StmtDecls(s) && d in loc.decls;
    ReadyParts(x, loc, scalars, w, st);
    if s.size.Some? {
      var slot := O.Array(O.Zeros(s.size.value));
      var st' := O.DeclareOrUpdate(st, s.name, slot).st;
      Declares(x, loc, scalars, w, st, s.name, sym, slot, st');
      TypedGlobals(x, loc, vis, st');
    } else {
      var st' := O.DeclareScalar(st, s.name).st;
      Declares(x, loc, scalars, w, st, s.name, sym, O.Scalar(None), st');
      TypedGlobals(x, loc, vis, st');
      if s.init.Some? {
        ValueSafe(x, loc, vis, st', s.init.value);
        var v := O.Eval(x.p, st', s.init.value);
        if v.res.Ok? {
          ScalarAssigned(x, loc, vis, v.st, s.name, v.res.value);
          TypedGlobals(x, loc, vis, O.AssignScalar(v.st, s.name, v.res.value).st);
        }
      }
    }
  }

  // ---------------------------------------------------------------- whole programs

  lemma {:induction false} InitialTyped(globals: seq<GlobalVar>)
    requires S.CheckGlobals(globals).Some?
    ensures var vis, scope := S.CheckGlobals(globals).value.0, O.InitialGlobals(globals);
      && scope.Keys == vis.Keys && (forall y <- vis :: !vis[y].isFunction)
      && (forall y <- scope :: scope[y].Array? == vis[y].isArray && HasValue(scope[y]))
  {
    if globals != [] {
      InitialTyped(globals[..|globals| - 1]);
    }
  }

  /** The context of an accepted program. */
  function ContextOf(p: Program, tame: bool): Ctx
    requires S.Accepts(p)
  {
    Ctx(p, S.TopLevel(p).value.0, S.TopLevel(p).value.1, tame)
  }

  /** Accepted programs in the comparable part of the language: one shape per name, no initialized array. */
  predicate Regular(p: Program) {
    && S.Accepts(p) && (forall i :: 0 <= i < |p.functions| ==> OneShape(p.functions[i]))
    && (forall i :: 0 <= i < |p.globals| ==> p.globals[i].init.None? || p.globals[i].size.None?)
  }

  lemma StartTyped(p: Program, tame: bool)
    requires Regular(p) && (tame ==> TameStores(p))
    ensures var x := ContextOf(p, tame); Sound(x) && Typed(x, Locals([], {}), x.top, O.Start(p))
  {
    hide S.Analyze, OneShape, TameStores;
    var gvis := S.CheckGlobals(p.globals).value.0;
    InitialTyped(p.globals);
    FunctionsKnown(gvis, p.functions);
  }

  /** A global with an initializer is a scalar that the initializer's type fits. */
  lemma InitializedGlobal(p: Program, i: nat)
    requires Regular(p) && i < |p.globals| && p.globals[i].init.Some?
    ensures var top := S.TopLevel(p).value.0; var g := p.globals[i];
      g.name in top && !top[g.name].isFunction && !top[g.name].isArray
    ensures S.TypeOf(S.TopLevel(p).value.0, S.TopLevel(p).value.1, p.globals[i].init.value).Some?
  {
    hide S.Analyze;
    GlobalIn(p.globals, i);
    GlobalsLaidOut(p.globals);
    FunctionsKnown(S.CheckGlobals(p.globals).value.0, p.functions);
    assert S.InitMatches(S.TopLevel(p).value.0, S.TopLevel(p).value.1, p.globals[i].init, p.globals[i].varType);
  }

  lemma {:induction false} InitializersSafe(x: Ctx, st: O.State, k: nat)
    requires Regular(x.p) && Sound(x) && Typed(x, Locals([], {}), x.top, st) && k <= |x.p.globals|
    ensures var r := O.InitializeGlobals(x.p, st, x.p.globals[k..]);
      Fine(x, r.res) && (r.res.Ok? ==> Typed(x, Locals([], {}), x.top, r.st))
    decreases |x.p.globals| - k
  {
    hide Regular, Sound, Typed, NormalizeI32;
    if k < |x.p.globals| {
      var rest := x.p.globals[k..];
      assert rest[1..] == x.p.globals[k + 1..];
      if rest[0].init.None? {
        InitializersSafe(x, st, k + 1);
      } else {
        InitializedGlobal(x.p, k);
        TopOf(x);
        ValueSafe(x, Locals([], {}), x.top, st, rest[0].init.value);
        var v := O.Eval(x.p, st, rest[0].init.value);
        if v.res.Ok? {
          GlobalAssigned(x, v.st, rest[0].name, v.res.value);
          InitializersSafe(x, O.AssignGlobalScalar(v.st, rest[0].name, v.res.value).st, k + 1);
        }
      }
    }
  }

  lemma TopOf(x: Ctx)
    requires Sound(x)
    ensures S.TopLevel(x.p) == Some((x.top, x.fs))
  {
  }

  lemma GlobalAssigned(x: Ctx, st: O.State, y: string, value: int)
    requires Typed(x, Locals([], {}), x.top, st) && IsGlobal(x.top, y) && !x.top[y].isArray
    ensures var r := O.AssignGlobalScalar(st, y, value); r.res.Ok? && Typed(x, Locals([], {}), x.top, r.st)
  {
    hide NormalizeI32;
  }

  lemma RunFine(p: Program, tame: bool)
    requires Regular(p) && (tame ==> TameStores(p))
    ensures S.Accepts(p) && Fine(ContextOf(p, tame), O.RunEffect(p).res)
  {
    hide Regular, Sound, Typed, TameStores, O.InitializeGlobals, O.CallFunction;
    Accepted(p);
    var x := ContextOf(p, tame);
    StartTyped(p, tame);
    InitializersSafe(x, O.Start(p), 0);
    assert p.globals[0..] == p.globals;
    var g := O.InitializeGlobals(p, O.Start(p), p.globals);
    if g.res.Ok? {
      TypedGlobals(x, Locals([], {}), x.top, g.st);
      MainKnown(p);
      CallSafe(x, g.st, "main", []);
    }
  }

  lemma Accepted(p: Program)
    requires Regular(p)
    ensures S.Accepts(p)
  {
  }

  lemma MainKnown(p: Program)
    requires Regular(p)
    ensures S.Accepts(p) && "main" in S.TopLevel(p).value.1 && S.TopLevel(p).value.1["main"] == []
  {
  }

  /**
   * Type soundness of the analyzer: no run of an accepted program, whatever limit it meets, misuses a name: it never
   * ends in InvalidInstruction or UndefinedFunction.
   */
  lemma AcceptedNamesAreNeverMisused(p: Program)
    requires Regular(p)
    ensures O.Run(p).trap != InvalidInstruction && O.Run(p).trap != UndefinedFunction
  {
    hide Regular, O.RunEffect;
    RunFine(p, false);
  }

  /**
   * A condition on the text alone under which compiled code always shows the oracle's outcome: every array store has a
   * literal index that is not negative, or a value that neither prints nor traps.
   */
  lemma TameStoresShowTheOracle(p: Program)
    requires Comparable(p) && !HitsLimit(p) && TameStores(p)
    ensures Shown(M.Run(Compile(p))) == O.Run(p)
  {
    hide O.RunEffect, M.Run, O.Run, TameStores, Compile, Regular, Comparable, HitsLimit;
    ComparableIsRegular(p);
    RunFine(p, true);
    CompiledCodeShowsTheOracle(p);
  }

  lemma ComparableIsRegular(p: Program)
    requires Comparable(p)
    ensures Regular(p)
  {
    hide S.Accepts, OneShape;
  }
}
