/** From source to result: the compiler object and the VM object together show what the oracle shows. */
module Pipeline {
  import opened Common
  import opened Ast
  import opened CodeGen
  import opened Linking
  import opened Correctness
  import C = Compiler
  import R = ReferenceVm
  import O = Oracle
  import M = Machine
  import S = Sema

  // ---------------------------------------------------------------- accepted programs only call registered functions

  lemma {:induction false} TypedKnown(vis: S.Visible, fs: S.Signatures, funcs: map<string, nat>, e: Expr)
    requires fs.Keys <= funcs.Keys && S.TypeOf(vis, fs, e).Some?
    ensures C.CallsKnown(funcs, e)
    decreases e, 0
  {
    match e
    case Binary(_, left, right) =>
      TypedKnown(vis, fs, funcs, left);
      TypedKnown(vis, fs, funcs, right);
    case Unary(_, operand) => TypedKnown(vis, fs, funcs, operand);
    case Call(name, args) => ArgsTypedKnown(vis, fs, funcs, args, fs[name]);
    case ArrayIndex(_, index) => TypedKnown(vis, fs, funcs, index);
    case _ =>
  }

  lemma {:induction false} ArgsTypedKnown(vis: S.Visible, fs: S.Signatures, funcs: map<string, nat>, args: seq<Expr>, types: seq<Type>)
    requires fs.Keys <= funcs.Keys && |args| == |types| && S.ArgsMatch(vis, fs, args, types)
    ensures C.ArgsKnown(funcs, args)
    decreases args, 0
  {
    if args != [] {
      TypedKnown(vis, fs, funcs, args[0]);
      ArgsTypedKnown(vis, fs, funcs, args[1..], types[1..]);
    }
  }

  lemma {:induction false} StmtChecked(fs: S.Signatures, funcs: map<string, nat>, w: S.Walk, s: Stmt)
    requires fs.Keys <= funcs.Keys && S.CheckStmt(fs, w, s).Some?
    ensures C.StmtKnown(funcs, s)
    decreases s, 0
  {
    hide S.TypeOf, C.CallsKnown;
    match s {
      case VarDecl(ty, name, init, size) =>
        if init.Some? {
          TypedKnown(S.CheckDecl(fs, w, ty, name, init, size).value.vis, fs, funcs, init.value);
        }
      case Assign(_, index, value) =>
        if index.Some? {
          TypedKnown(w.vis, fs, funcs, index.value);
        }
        TypedKnown(w.vis, fs, funcs, value);
      case If(condition, thenBody, elseBody) =>
        TypedKnown(w.vis, fs, funcs, condition);
        BlockChecked(fs, funcs, w, thenBody);
        if elseBody.Else? {
          BlockChecked(fs, funcs, S.CheckBlock(fs, w, thenBody).value.(vis := w.vis), elseBody.body);
        }
      case While(condition, body) =>
        TypedKnown(w.vis, fs, funcs, condition);
        BlockChecked(fs, funcs, w, body);
      case Return(value) => TypedKnown(w.vis, fs, funcs, value);
      case Print(value) => TypedKnown(w.vis, fs, funcs, value);
      case ExprStmt(e) => TypedKnown(w.vis, fs, funcs, e);
    }
  }

  lemma {:induction false} BlockChecked(fs: S.Signatures, funcs: map<string, nat>, w: S.Walk, stmts: seq<Stmt>)
    requires fs.Keys <= funcs.Keys && S.CheckBlock(fs, w, stmts).Some?
    ensures C.BlockKnown(funcs, stmts)
    decreases stmts, 0
  {
    hide S.CheckStmt, C.StmtKnown;
    if stmts != [] {
      StmtChecked(fs, funcs, w, stmts[0]);
      BlockChecked(fs, funcs, S.CheckStmt(fs, w, stmts[0]).value, stmts[1..]);
    }
  }

  /** The compiler never looks up a function that is not there. */
  lemma AcceptedIsKnown(p: Program)
    requires S.Accepts(p)
    ensures C.ProgramKnown(p)
  {
    hide S.CheckBlock, S.TypeOf, C.CallsKnown, C.BlockKnown;
    var (vis, fs) := S.TopLevel(p).value;
    FunctionsKnown(S.CheckGlobals(p.globals).value.0, p.functions);
    forall g | g in p.globals && g.init.Some? ensures C.CallsKnown(FunctionIds(p.functions), g.init.value) {
      TypedKnown(vis, fs, FunctionIds(p.functions), g.init.value);
    }
    forall f | f in p.functions ensures C.BlockKnown(FunctionIds(p.functions), f.body) {
      var params := S.CheckParams(vis, f.params);
      BlockChecked(fs, FunctionIds(p.functions), S.Walk(params.value, S.ParamNames(f.params), |f.params|), f.body);
    }
  }

  // ---------------------------------------------------------------- compile and run

  /** Compiles an accepted program and runs it. */
  method CompileAndRun(p: Program) returns (result: M.Result)
    requires S.Accepts(p)
    ensures Comparable(p) && !HitsLimit(p) ==> (Shown(result) == O.Run(p) <==> !RejectsVisibleStore(p))
  {
    hide Comparable, HitsLimit, RejectsVisibleStore, Compile, M.Run, O.Run, Shown, C.ProgramKnown;
    AcceptedIsKnown(p);
    var compiler := new C.Compiler();
    var code := compiler.Compile(p);
    var vm := new R.Vm(code);
    result := vm.Run();
    if Comparable(p) && !HitsLimit(p) {
      Validated(p);
      NotLimitedIsValid(p);
      CompiledCodeShowsTheOracle(p);
    }
  }

  lemma NotLimitedIsValid(p: Program)
    requires !HitsLimit(p) && (M.Validate(Compile(p)).None? || M.Validate(Compile(p)) == Some(StackOverflow))
    ensures M.Validate(Compile(p)).None?
  {
    hide M.Validate, Compile, O.RunEffect;
  }
}
