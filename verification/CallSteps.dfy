/** Entering and leaving a function. */
module CallSteps {
  import opened Common
  import opened Int32
  import opened Limits
  import opened Ast
  import opened Bytecode
  import opened CodeGen
  import opened Simulation
  import opened ExprSteps
  import opened StmtSteps
  import O = Oracle
  import M = Machine
  import S = Sema

  // ---------------------------------------------------------------- tables

  lemma {:induction false} ParamsKnown(vis: S.Visible, params: seq<Param>)
    requires S.CheckParams(vis, params).Some?
    ensures var vis' := S.CheckParams(vis, params).value;
      && (forall y :: y in vis' <==> y in vis || y in ParamTable(params).locals)
      && (forall y :: y in vis ==> y !in ParamTable(params).locals && vis'[y] == vis[y])
      && (forall y :: y in ParamTable(params).locals ==> !vis'[y].isArray && !vis'[y].isFunction)
  {
    if params != [] {
      ParamsKnown(vis, params[..|params| - 1]);
    }
  }

  lemma {:induction false} ParamsTable(vis: S.Visible, params: seq<Param>)
    requires S.CheckParams(vis, params).Some?
    ensures var t := ParamTable(params);
      TableOk(t) && forall y :: y in t.locals ==> t.locals[y].slot < |params| && !t.locals[y].isArray
  {
    if params != [] {
      ParamsTable(vis, params[..|params| - 1]);
    }
  }

  lemma {:induction false} ParamsBound(vis: S.Visible, params: seq<Param>, args: seq<int>)
    requires S.CheckParams(vis, params).Some? && |args| == |params|
    ensures var t := ParamTable(params); var scope := O.BindParams(params, args);
      && TableOk(t)
      && scope.Keys == t.locals.Keys
      && forall y :: y in t.locals ==>
           && t.locals[y].slot < |params| && !t.locals[y].isArray
           && scope[y] == O.Scalar(Some(NormalizeI32(args[t.locals[y].slot])))
  {
    hide TableOk, NormalizeI32;
    ParamsTable(vis, params);
    if params != [] {
      var m := |params| - 1;
      ParamsBound(vis, params[..m], args[..m]);
      ParamsKnown(vis, params[..m]);
    }
  }

  /** Collecting declarations only adds names, in fresh slots. */
  ghost predicate Grows(t: Table, t': Table) {
    && t.next <= t'.next
    && Extends(t.locals, t'.locals)
    && forall y :: y in t'.locals && y !in t.locals ==> t'.locals[y].slot >= t.next
  }

  lemma {:induction false} CollectStmtGrows(t: Table, s: Stmt)
    ensures Grows(t, CollectStmt(t, s))
    decreases s, 0
  {
    match s
    case If(_, thenBody, elseBody) =>
      CollectGrows(t, thenBody);
      if elseBody.Else? { CollectGrows(CollectBlock(t, thenBody), elseBody.body); }
    case While(_, body) => CollectGrows(t, body);
    case _ =>
  }

  lemma {:induction false} CollectGrows(t: Table, stmts: seq<Stmt>)
    ensures Grows(t, CollectBlock(t, stmts))
    decreases stmts, 0
  {
    if stmts != [] {
      CollectStmtGrows(t, stmts[0]);
      CollectGrows(CollectStmt(t, stmts[0]), stmts[1..]);
    }
  }

  // ---------------------------------------------------------------- entering

  /** The activation a call opens. */
  function Callee(x: Link, a: Act, s: M.State, i: nat): Act
    requires i < |x.p.functions|
  {
    Act(LocalTable(x.p.functions[i]), a.base + a.full.next, |s.locals|)
  }

  function EnteredState(x: Link, a: Act, s: M.State, i: nat, rest: seq<int>, args: seq<int>): M.State
    requires i < |x.p.functions| && i in x.c.functions
    requires |args| <= LocalTable(x.p.functions[i]).next
    requires Callee(x, a, s, i).base + LocalTable(x.p.functions[i]).next <= |s.locals|
  {
    var callee := Callee(x, a, s, i);
    Tock(s).(
      stack := rest,
      locals := M.EnterFrame(s.locals, callee.base, args, callee.full.next),
      calls := s.calls + [M.Frame(Some(s.pc + 1), callee.base, i)],
      pc := x.c.functions[i].entryPc)
  }

  /** The parameters are the callee's first locals; every other slot of its window is marked undefined. */
  lemma EntryScope(x: Link, i: nat, callee: Act, cells: seq<int>, args: seq<int>)
    requires i < |x.p.functions| && FunctionLinked(x, i) && callee.full == LocalTable(x.p.functions[i])
    requires |args| == |x.p.functions[i].params| && AllI32(args)
    requires callee.base + callee.full.next <= MAX_LOCAL_SLOTS <= callee.floor == |cells|
    ensures |args| <= callee.full.next
    ensures ScopeMatches(callee, O.BindParams(x.p.functions[i].params, args), M.EnterFrame(cells, callee.base, args, callee.full.next))
  {
    hide FunctionLinked, TableOk, LocalMatches, M.EnterFrame, NormalizeI32, Grows, ParamTable, O.BindParams;
    var f := x.p.functions[i];
    CalleeAnalyzed(x, i);
    ParamsBound(x.top, f.params, args);
    CollectGrows(ParamTable(f.params), f.body);
    GrowsNext(ParamTable(f.params), callee.full);
    var scope := O.BindParams(f.params, args);
    var cells' := M.EnterFrame(cells, callee.base, args, callee.full.next);
    forall y | y in callee.full.locals
      ensures LocalMatches(callee.full.locals[y], scope, y, cells', callee.base, callee.floor)
    {
      EntryLocal(callee, f.params, scope, y, cells, args);
    }
    forall y | y in scope ensures y in callee.full.locals && !callee.full.locals[y].isArray {
      GrowsKeeps(ParamTable(f.params), callee.full, y);
    }
  }

  lemma CalleeAnalyzed(x: Link, i: nat)
    requires i < |x.p.functions| && FunctionLinked(x, i)
    ensures S.CheckParams(x.top, x.p.functions[i].params).Some? && TableOk(LocalTable(x.p.functions[i]))
  {
    hide CodeAt, FunctionCode, BlockShapes, BlockCalls, S.CheckBlock, TableOk, LocalTable;
  }

  lemma GrowsNext(t: Table, t': Table)
    requires Grows(t, t')
    ensures t.next <= t'.next
  {
  }

  lemma GrowsKeeps(t: Table, t': Table, y: string)
    requires Grows(t, t') && y in t.locals
    ensures y in t'.locals && t'.locals[y] == t.locals[y]
  {
  }

  /** One local of an entered frame: a parameter holds its argument, anything else is undefined. */
  lemma EntryLocal(callee: Act, params: seq<Param>, scope: O.Scope, y: string, cells: seq<int>, args: seq<int>)
    requires TableOk(callee.full) && y in callee.full.locals && Grows(ParamTable(params), callee.full)
    requires |params| == |args| <= callee.full.next && callee.base + callee.full.next <= |cells| && AllI32(args)
    requires y in scope <==> y in ParamTable(params).locals
    requires y in scope ==>
      var v := ParamTable(params).locals[y];
      v.slot < |params| && !v.isArray && scope[y] == O.Scalar(Some(NormalizeI32(args[v.slot])))
    ensures LocalMatches(callee.full.locals[y], scope, y, M.EnterFrame(cells, callee.base, args, callee.full.next), callee.base, callee.floor)
  {
    hide NormalizeI32, ParamTable, M.EnterFrame;
    if y in scope {
      GrowsKeeps(ParamTable(params), callee.full, y);
    }
  }

  /** The machine's half of a call: it opens the frame, or hits a limit. */
  lemma CallRuns(x: Link, a: Act, s: M.State, i: nat, rest: seq<int>, args: seq<int>)
    requires InFrame(x, a, s) && s.stack == rest + args && MAX_LOCAL_SLOTS <= |s.locals|
    requires i < |x.p.functions| && i in x.c.functions && i <= I32_MAX
    requires x.c.functions[i].paramCount == |args| <= I32_MAX
    requires x.c.functions[i].localCount == LocalTable(x.p.functions[i]).next >= |args|
    requires CodeAt(x.c, s.pc, [Ins(Opcode.Call, i, |args|)])
    ensures Cut(x.c, s) || (Callee(x, a, s, i).base + LocalTable(x.p.functions[i]).next <= MAX_LOCAL_SLOTS
                            && Goes(x.c, s, EnteredState(x, a, s, i, rest, args)))
  {
    hide M.RunFrom, Runs, LocalTable;
    var callee := Callee(x, a, s, i);
    FetchCall(x.c, s, i, |args|);
    var e := M.ExecCall(x.c, Tock(s), i, |args|);
    assert s.stack[|s.stack| - |args|..] == args && s.stack[..|s.stack| - |args|] == rest;
    assert M.NextBase(x.c, Tock(s)) == callee.base;
    if |s.calls| >= MAX_FRAMES || callee.base + callee.full.next > MAX_LOCAL_SLOTS {
      Overflows(x.c, s, e);
    } else {
      Jumps(x.c, s, e, EnteredState(x, a, s, i, rest, args));
    }
  }

  lemma CallStep(x: Link, a: Act, st: O.State, s: M.State, i: nat, rest: seq<int>, args: seq<int>)
    requires Match(x, a, st, s) && s.stack == rest + args && AllI32(args)
    requires i < |x.p.functions| && FunctionLinked(x, i) && i <= I32_MAX
    requires |args| == |x.p.functions[i].params| <= I32_MAX
    requires CodeAt(x.c, s.pc, [Ins(Opcode.Call, i, |args|)])
    ensures var callee := Callee(x, a, s, i);
      Cut(x.c, s) ||
      (&& |args| <= callee.full.next && callee.base + callee.full.next <= MAX_LOCAL_SLOTS <= |s.locals|
       && var s' := EnteredState(x, a, s, i, rest, args);
          && Goes(x.c, s, s')
          && Match(x, callee, st.(frames := st.frames + [O.BindParams(x.p.functions[i].params, args)]), s')
          && Spares(callee, s.locals, s'.locals))
  {
    hide M.RunFrom, Runs, ScopeMatches, GlobalsMatch, CodeAt, LocalTable, O.BindParams;
    var callee := Callee(x, a, s, i);
    MatchSizes(x, a, st, s);
    ParamsFit(x, i);
    CallRuns(x, a, s, i, rest, args);
    if !Cut(x.c, s) {
      EntryScope(x, i, callee, s.locals, args);
    }
  }

  lemma MatchSizes(x: Link, a: Act, st: O.State, s: M.State)
    requires Match(x, a, st, s)
    ensures a.base + a.full.next <= MAX_LOCAL_SLOTS <= a.floor <= |s.locals|
  {
  }

  lemma ParamsFit(x: Link, i: nat)
    requires i < |x.p.functions|
    ensures |x.p.functions[i].params| <= LocalTable(x.p.functions[i]).next
  {
    CollectGrows(ParamTable(x.p.functions[i].params), x.p.functions[i].body);
  }

  // ---------------------------------------------------------------- leaving

  lemma ReturnStep(x: Link, s: M.State, calls: seq<M.Frame>, frame: M.Frame, rest: seq<int>, v: int)
    requires s.calls == calls + [frame] && calls != [] && frame.returnPc.Some? && s.stack == rest + [v]
    requires CodeAt(x.c, s.pc, [Simple(Opcode.Return)])
    ensures Goes(x.c, s, Tock(s).(calls := calls, pc := frame.returnPc.value))
  {
    hide M.RunFrom, Runs;
    FetchReturn(x.c, s);
    assert s.calls[..|s.calls| - 1] == calls;
    Jumps(x.c, s, M.ExecReturn(Tock(s)), Tock(s).(calls := calls, pc := frame.returnPc.value));
  }

  /** The caller's memory still corresponds once the callee has spared it. */
  lemma BackInCaller(x: Link, a: Act, callee: Act, st: O.State, st': O.State, s: M.State, s': M.State)
    requires Match(x, a, st, s)
    requires callee.base == a.base + a.full.next && callee.floor == |s.locals| && Spares(callee, s.locals, s'.locals)
    requires O.Top(st') == O.Top(st) && GlobalsMatch(x.n.globals, st'.globals, s'.globals)
    requires s'.calls == s.calls && s'.output == st'.output
    ensures Match(x, a, st', s') && Spares(a, s.locals, s'.locals)
  {
    hide GlobalsMatch;
    Windows(a, O.Top(st), s.locals);
    var scope := O.Top(st);
    assert Apart(a.full, scope, s.locals, a.base);
    forall y | y in a.full.locals ensures LocalMatches(a.full.locals[y], scope, y, s'.locals, a.base, a.floor) {
      StillMatches(a.full.locals[y], scope, scope, y, s.locals, s'.locals, a.base, a.floor);
    }
    StillApart(a, scope, scope, s.locals, s'.locals);
  }
}
