/** Accepted programs are linked: the code lies where the tables say, and the tables say what the analyzer saw. */
module Linking {
  import opened Common
  import opened Int32
  import opened Limits
  import opened Ast
  import opened Bytecode
  import opened CodeGen
  import opened Simulation
  import opened CallSteps
  import O = Oracle
  import M = Machine
  import S = Sema

  // ---------------------------------------------------------------- the programs compared

  /** All declarations in the statements, in textual order. */
  function Decls(stmts: seq<Stmt>): seq<(string, Option<I32>)>
    decreases stmts, 0
  {
    if stmts == [] then [] else StmtDecls(stmts[0]) + Decls(stmts[1..])
  }

  function StmtDecls(s: Stmt): seq<(string, Option<I32>)>
    decreases s, 0
  {
    match s
    case VarDecl(_, name, _, size) => [(name, size)]
    case If(_, thenBody, elseBody) => Decls(thenBody) + (if elseBody.Else? then Decls(elseBody.body) else [])
    case While(_, body) => Decls(body)
    case _ => []
  }

  /** Sibling blocks may declare a name again, but with the same shape. */
  predicate OneShape(f: Function) {
    forall d <- Decls(f.body), e <- Decls(f.body) :: d.0 == e.0 ==> d.1 == e.1
  }

  predicate CallsMain(p: Program) {
    || (exists i :: 0 <= i < |p.functions| && BlockCalls("main", p.functions[i].body))
    || (exists i :: 0 <= i < |p.globals| && p.globals[i].init.Some? && Calls("main", p.globals[i].init.value))
  }

  /**
   * The programs on which compiled code and oracle are compared: accepted, at most 10,000 instructions, one shape per
   * name and function, no global with both a size and an initializer (the grammar has none), and no call of `main` that
   * would run the global initializers again: compiled code has them in `main`, the oracle runs them once.
   */
  predicate Comparable(p: Program) {
    && S.Accepts(p)
    && |CodeOf(p, |p.functions|)| <= MAX_INSTRUCTIONS
    && (forall i :: 0 <= i < |p.functions| ==> OneShape(p.functions[i]))
    && (forall i :: 0 <= i < |p.globals| ==> p.globals[i].init.None? || p.globals[i].size.None?)
    && (InitFree(p.globals) || !CallsMain(p))
  }

  function LinkOf(p: Program): Link
    requires S.Accepts(p)
  {
    Link(p, Compile(p), NamesOf(p), S.TopLevel(p).value.0, S.TopLevel(p).value.1)
  }

  // ---------------------------------------------------------------- globals

  lemma {:induction false} GlobalsLaidOut(globals: seq<GlobalVar>)
    requires S.CheckGlobals(globals).Some?
    ensures var (vis, slots) := S.CheckGlobals(globals).value; var table := GlobalTable(globals);
      && slots == GlobalSlots(globals) <= MAX_GLOBAL_SLOTS
      && vis.Keys == table.Keys
      && LayoutOk(table)
      && (forall y :: y in table ==> table[y].slot + M.GlobalWidth(table[y]) <= slots && !vis[y].isFunction && vis[y].isArray == table[y].isArray)
  {
    if globals != [] {
      GlobalsLaidOut(globals[..|globals| - 1]);
    }
  }

  lemma {:induction false} GlobalIn(globals: seq<GlobalVar>, i: nat)
    requires i < |globals| && S.CheckGlobals(globals).Some?
    ensures var g := globals[i]; var table := GlobalTable(globals);
      g.name in table && table[g.name].isArray == g.size.Some?
  {
    var m := |globals| - 1;
    GlobalsLaidOut(globals[..m]);
    if i < m {
      GlobalIn(globals[..m], i);
    }
  }

  // ---------------------------------------------------------------- functions

  lemma {:induction false} FunctionsKnown(vis: S.Visible, functions: seq<Function>)
    requires S.CheckFunctions(vis, functions).Some?
    ensures var (vis', fs) := S.CheckFunctions(vis, functions).value;
      && (forall y :: y in vis' <==> y in vis || y in fs)
      && (forall y :: y in vis ==> y !in fs && vis'[y] == vis[y])
      && (forall y :: y in fs ==> vis'[y].isFunction && !vis'[y].isArray)
      && fs.Keys == FunctionIds(functions).Keys
  {
    if functions != [] {
      FunctionsKnown(vis, functions[..|functions| - 1]);
    }
  }

  lemma {:induction false} FunctionFound(vis: S.Visible, functions: seq<Function>, name: string)
    requires S.CheckFunctions(vis, functions).Some? && name in S.CheckFunctions(vis, functions).value.1
    ensures name in FunctionIds(functions)
    ensures var i := FunctionIds(functions)[name];
      && i < |functions| && functions[i].name == name
      && O.FindFunction(functions, name) == Some(i)
      && S.CheckFunctions(vis, functions).value.1[name] == S.ParamTypes(functions[i].params)
  {
    var m := |functions| - 1;
    FunctionsKnown(vis, functions);
    if functions[m].name != name {
      FunctionFound(vis, functions[..m], name);
    }
  }

  lemma {:induction false} FunctionNamed(vis: S.Visible, functions: seq<Function>, i: nat)
    requires S.CheckFunctions(vis, functions).Some? && i < |functions|
    ensures functions[i].name in FunctionIds(functions) && FunctionIds(functions)[functions[i].name] == i
    ensures functions[i].name in S.CheckFunctions(vis, functions).value.1
  {
    var m := |functions| - 1;
    if i < m {
      FunctionNamed(vis, functions[..m], i);
    }
  }

  lemma {:induction false} MainFound(functions: seq<Function>)
    requires "main" in FunctionIds(functions)
    ensures MainId(functions) == Some(FunctionIds(functions)["main"])
  {
    if functions[|functions| - 1].name != "main" {
      MainFound(functions[..|functions| - 1]);
    }
  }

  // ---------------------------------------------------------------- code

  lemma {:induction false} CodeGrows(p: Program, i: nat, k: nat)
    requires i <= k <= |p.functions|
    ensures CodeOf(p, i) <= CodeOf(p, k)
    decreases k
  {
    hide FunctionCode;
    if i < k {
      CodeGrows(p, i, k - 1);
    }
  }

  lemma FunctionPlaced(p: Program, i: nat)
    requires i < |p.functions|
    ensures CodeAt(Compile(p), |CodeOf(p, i)|, FunctionCode(p, p.functions[i], |CodeOf(p, i)|))
  {
    hide FunctionCode;
    var before, code := CodeOf(p, i), FunctionCode(p, p.functions[i], |CodeOf(p, i)|);
    CodeGrows(p, i + 1, |p.functions|);
    assert CodeOf(p, i + 1) == before + code;
    var all := CodeOf(p, |p.functions|);
    assert all[|before|..|before| + |code|] == (before + code)[|before|..] == code;
  }

  lemma {:induction false} InfoPlaced(p: Program, i: nat, k: nat)
    requires i < k <= |p.functions|
    requires forall j :: 0 <= j < |p.functions| ==> IdOf(p, p.functions[j].name) == j
    ensures var f := p.functions[i];
      && i in InfosOf(p, k)
      && InfosOf(p, k)[i] == FunctionInfo(f.name, i, |CodeOf(p, i)|, |f.params|, LocalTable(f).next)
    decreases k
  {
    hide CodeOf, LocalTable, IdOf;
    if i < k - 1 {
      InfoPlaced(p, i, k - 1);
    }
  }

  lemma {:induction false} InfosKeys(p: Program, k: nat)
    requires k <= |p.functions|
    requires forall j :: 0 <= j < |p.functions| ==> IdOf(p, p.functions[j].name) == j
    ensures forall i :: i in InfosOf(p, k) ==> i < k
  {
    hide CodeOf, LocalTable, IdOf;
    if k > 0 {
      InfosKeys(p, k - 1);
    }
  }

  // ---------------------------------------------------------------- locals

  /** Declarations of an accepted body make a good table that avoids the top-level names. */
  ghost predicate Separate(t: Table, top: S.Visible, vis: S.Visible) {
    && TableOk(t)
    && (forall y :: y in t.locals ==> y !in top)
    && top.Keys <= vis.Keys
  }

  lemma {:induction false} CollectStmtSeparate(fs: S.Signatures, top: S.Visible, t: Table, w: S.Walk, s: Stmt)
    requires S.CheckStmt(fs, w, s).Some? && Separate(t, top, w.vis)
    ensures Separate(CollectStmt(t, s), top, S.CheckStmt(fs, w, s).value.vis)
    decreases s, 0
  {
    match s
    case If(_, thenBody, elseBody) =>
      CollectSeparate(fs, top, t, w, thenBody);
      if elseBody.Else? {
        var w1 := S.CheckBlock(fs, w, thenBody).value.(vis := w.vis);
        CollectSeparate(fs, top, CollectBlock(t, thenBody), w1, elseBody.body);
      }
    case While(_, body) => CollectSeparate(fs, top, t, w, body);
    case _ =>
  }

  lemma {:induction false} CollectSeparate(fs: S.Signatures, top: S.Visible, t: Table, w: S.Walk, stmts: seq<Stmt>)
    requires S.CheckBlock(fs, w, stmts).Some? && Separate(t, top, w.vis)
    ensures Separate(CollectBlock(t, stmts), top, S.CheckBlock(fs, w, stmts).value.vis)
    decreases stmts, 0
  {
    if stmts != [] {
      CollectStmtSeparate(fs, top, t, w, stmts[0]);
      CollectSeparate(fs, top, CollectStmt(t, stmts[0]), S.CheckStmt(fs, w, stmts[0]).value, stmts[1..]);
    }
  }

  // ---------------------------------------------------------------- shapes

  predicate HasShape(v: LocalVar, size: Option<I32>) {
    v.isArray == size.Some? && (size.Some? ==> v.arraySize == AsUsize(size.value))
  }

  /** A table entry made by the statements has the shape of one of their declarations. */
  lemma {:induction false} CollectStmtShape(t: Table, s: Stmt, y: string)
    requires y in CollectStmt(t, s).locals && y !in t.locals
    ensures exists d <- StmtDecls(s) :: d.0 == y && HasShape(CollectStmt(t, s).locals[y], d.1)
    decreases s, 0
  {
    match s
    case VarDecl(_, name, _, size) =>
      assert StmtDecls(s) == [(name, size)] && (name, size) in StmtDecls(s);
    case If(_, thenBody, elseBody) =>
      var t1 := CollectBlock(t, thenBody);
      if y in t1.locals {
        CollectShape(t, thenBody, y);
        if elseBody.Else? { CollectGrows(t1, elseBody.body); }
      } else {
        CollectShape(t1, elseBody.body, y);
      }
    case While(_, body) => CollectShape(t, body, y);
  }

  lemma {:induction false} CollectShape(t: Table, stmts: seq<Stmt>, y: string)
    requires y in CollectBlock(t, stmts).locals && y !in t.locals
    ensures exists d <- Decls(stmts) :: d.0 == y && HasShape(CollectBlock(t, stmts).locals[y], d.1)
    decreases stmts, 0
  {
    var t1 := CollectStmt(t, stmts[0]);
    CollectGrows(t1, stmts[1..]);
    if y in t1.locals {
      CollectStmtShape(t, stmts[0], y);
    } else {
      CollectShape(t1, stmts[1..], y);
    }
  }

  /** Every declared name gets an entry, and none of them is visible before. */
  lemma {:induction false} DeclaredStmt(fs: S.Signatures, t: Table, w: S.Walk, s: Stmt, top: S.Visible)
    requires S.CheckStmt(fs, w, s).Some? && top.Keys <= w.vis.Keys
    ensures forall d <- StmtDecls(s) :: d.0 in CollectStmt(t, s).locals && d.0 !in top
    ensures top.Keys <= S.CheckStmt(fs, w, s).value.vis.Keys
    decreases s, 0
  {
    match s
    case If(_, thenBody, elseBody) =>
      Declared(fs, t, w, thenBody, top);
      if elseBody.Else? {
        var t1 := CollectBlock(t, thenBody);
        Declared(fs, t1, S.CheckBlock(fs, w, thenBody).value.(vis := w.vis), elseBody.body, top);
        CollectGrows(t1, elseBody.body);
      }
    case While(_, body) => Declared(fs, t, w, body, top);
    case _ =>
  }

  lemma {:induction false} Declared(fs: S.Signatures, t: Table, w: S.Walk, stmts: seq<Stmt>, top: S.Visible)
    requires S.CheckBlock(fs, w, stmts).Some? && top.Keys <= w.vis.Keys
    ensures forall d <- Decls(stmts) :: d.0 in CollectBlock(t, stmts).locals && d.0 !in top
    ensures top.Keys <= S.CheckBlock(fs, w, stmts).value.vis.Keys
    decreases stmts, 0
  {
    if stmts != [] {
      var t1, w1 := CollectStmt(t, stmts[0]), S.CheckStmt(fs, w, stmts[0]).value;
      DeclaredStmt(fs, t, w, stmts[0], top);
      Declared(fs, t1, w1, stmts[1..], top);
      CollectGrows(t1, stmts[1..]);
    }
  }

  lemma {:induction false} ShapesOfStmt(full: Table, s: Stmt)
    requires forall d <- StmtDecls(s) :: d.0 in full.locals && HasShape(full.locals[d.0], d.1)
    ensures StmtShapes(full, s)
    decreases s, 0
  {
    match s
    case VarDecl(_, name, _, size) => assert (name, size) in StmtDecls(s);
    case If(_, thenBody, elseBody) =>
      ShapesOf(full, thenBody);
      if elseBody.Else? { ShapesOf(full, elseBody.body); }
    case While(_, body) => ShapesOf(full, body);
    case _ =>
  }

  lemma {:induction false} ShapesOf(full: Table, stmts: seq<Stmt>)
    requires forall d <- Decls(stmts) :: d.0 in full.locals && HasShape(full.locals[d.0], d.1)
    ensures BlockShapes(full, stmts)
    decreases stmts, 0
  {
    if stmts != [] {
      ShapesOfStmt(full, stmts[0]);
      ShapesOf(full, stmts[1..]);
    }
  }

  // ---------------------------------------------------------------- together

  lemma LocalsLinked(top: S.Visible, fs: S.Signatures, f: Function)
    requires S.Analyze(top, fs, f).Some? && OneShape(f)
    ensures TableOk(LocalTable(f)) && BlockShapes(LocalTable(f), f.body)
    ensures forall y :: y in LocalTable(f).locals ==> y !in top
  {
    var vis := S.CheckParams(top, f.params).value;
    var w := S.Walk(vis, S.ParamNames(f.params), |f.params|);
    var t := ParamTable(f.params);
    ParamsKnown(top, f.params);
    ParamsBound(top, f.params, seq(|f.params|, _ => 0));
    CollectSeparate(fs, top, t, w, f.body);
    Declared(fs, t, w, f.body, vis);
    var full := LocalTable(f);
    forall d | d in Decls(f.body) ensures d.0 in full.locals && HasShape(full.locals[d.0], d.1) {
      CollectShape(t, f.body, d.0);
    }
    ShapesOf(full, f.body);
  }

  lemma AcceptedIsLinked(p: Program)
    requires Comparable(p)
    ensures Linked(LinkOf(p))
  {
    var x := LinkOf(p);
    var (gvis, slots) := S.CheckGlobals(p.globals).value;
    GlobalsLaidOut(p.globals);
    FunctionsKnown(gvis, p.functions);
    forall i | 0 <= i < |p.functions| ensures IdOf(p, p.functions[i].name) == i {
      FunctionNamed(gvis, p.functions, i);
    }
    forall i | 0 <= i < |p.functions| ensures FunctionLinked(x, i) {
      FunctionPlaced(p, i);
      InfoPlaced(p, i, |p.functions|);
      LocalsLinked(x.top, x.fs, p.functions[i]);
    }
    forall name | name in x.fs ensures SignatureLinked(x, name) {
      FunctionFound(gvis, p.functions, name);
      CountsFit(p, x.n.funcs[name]);
      assert S.Analyze(x.top, x.fs, p.functions[x.n.funcs[name]]).Some?;
    }
  }

  lemma FunctionLong(p: Program, f: Function, pc: nat)
    ensures |FunctionCode(p, f, pc)| >= 2
  {
    hide BlockCode, PrefixCode;
  }

  /** Function ids stay small: every function has at least two instructions. */
  lemma {:induction false} CodeLong(p: Program, k: nat)
    requires k <= |p.functions|
    ensures |CodeOf(p, k)| >= 2 * k
  {
    hide FunctionCode;
    if k > 0 {
      CodeLong(p, k - 1);
      FunctionLong(p, p.functions[k - 1], |CodeOf(p, k - 1)|);
    }
  }

  lemma CountsFit(p: Program, i: nat)
    requires i < |p.functions| && |CodeOf(p, |p.functions|)| <= MAX_INSTRUCTIONS
    ensures i <= I32_MAX
  {
    CodeLong(p, |p.functions|);
  }
}
