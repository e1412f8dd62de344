/** Whole programs: what the machine shows is what the oracle shows. */
module Correctness {
  import opened Common
  import opened Int32
  import opened Limits
  import opened Ast
  import opened Bytecode
  import opened CodeGen
  import opened Simulation
  import opened ExprSteps
  import opened StmtSteps
  import opened CallSteps
  import opened CompilerCorrect
  import opened Linking
  import O = Oracle
  import M = Machine
  import S = Sema

  // ---------------------------------------------------------------- start-up

  /** Global storage is all zeros, and so is the oracle's. */
  lemma {:induction false} BlankGlobals(globals: seq<GlobalVar>, cells: seq<int>)
    requires S.CheckGlobals(globals).Some?
    requires |cells| == MAX_GLOBAL_SLOTS && forall i :: 0 <= i < |cells| ==> cells[i] == 0
    ensures GlobalsMatch(GlobalTable(globals), O.InitialGlobals(globals), cells)
  {
    GlobalsLaidOut(globals);
    if globals != [] {
      var m := |globals| - 1;
      BlankGlobals(globals[..m], cells);
      var g := globals[m];
      var table, og := GlobalTable(globals), O.InitialGlobals(globals);
      assert GlobalMatches(table[g.name], og[g.name], cells);
      forall y | y in table ensures GlobalMatches(table[y], og[y], cells) {
        if y != g.name {
          assert GlobalMatches(GlobalTable(globals[..m])[y], O.InitialGlobals(globals[..m])[y], cells);
        }
      }
    }
  }

  /** Compiled functions: ids count up from 0, and the parameters are among the locals. */
  lemma FunctionsValid(p: Program)
    requires Comparable(p)
    ensures forall id :: id in InfosOf(p, |p.functions|) <==> 0 <= id < |p.functions|
    ensures forall id :: 0 <= id < |p.functions| ==>
      InfosOf(p, |p.functions|)[id].paramCount <= InfosOf(p, |p.functions|)[id].localCount
  {
    var gvis := S.CheckGlobals(p.globals).value.0;
    forall i | 0 <= i < |p.functions| ensures IdOf(p, p.functions[i].name) == i {
      FunctionNamed(gvis, p.functions, i);
    }
    hide Comparable, IdOf, InfosOf;
    InfosKeys(p, |p.functions|);
    forall i | 0 <= i < |p.functions|
      ensures i in InfosOf(p, |p.functions|) && InfosOf(p, |p.functions|)[i].paramCount <= InfosOf(p, |p.functions|)[i].localCount
    {
      InfoPlaced(p, i, |p.functions|);
      CollectGrows(ParamTable(p.functions[i].params), p.functions[i].body);
    }
  }

  /** The program passes the machine's checks, except perhaps a local-storage limit. */
  lemma Validated(p: Program)
    requires Comparable(p)
    ensures var bad := M.Validate(Compile(p)); bad.None? || bad == Some(StackOverflow)
  {
    GlobalsLaidOut(p.globals);
    FunctionsValid(p);
    MainIndex(p);
    SizeOk(p);
    hide Comparable, CodeOf, InfosOf, GlobalTable, MainId;
  }

  lemma SizeOk(p: Program)
    requires Comparable(p)
    ensures |CodeOf(p, |p.functions|)| <= MAX_INSTRUCTIONS && S.CheckGlobals(p.globals).Some?
  {
  }

  /** `main`'s activation, before anything ran. */
  function MainAct(x: Link, i: nat): Act
    requires i < |x.p.functions|
  {
    Act(LocalTable(x.p.functions[i]), 0, MAX_LOCAL_SLOTS)
  }

  lemma MainIndex(p: Program)
    requires Comparable(p)
    ensures var i := Compile(p).mainFuncId;
      && i < |p.functions| && p.functions[i].name == "main" && p.functions[i].params == []
      && O.FindFunction(p.functions, "main") == Some(i)
  {
    var gvis := S.CheckGlobals(p.globals).value.0;
    FunctionsKnown(gvis, p.functions);
    FunctionFound(gvis, p.functions, "main");
    MainFound(p.functions);
    assert |S.ParamTypes(p.functions[Compile(p).mainFuncId].params)| == 0;
  }

  lemma Booted(p: Program)
    requires Comparable(p) && M.Validate(Compile(p)).None?
    ensures var x := LinkOf(p); var i := x.c.mainFuncId;
      && i < |p.functions| && i in x.c.functions
      && Match(x, MainAct(x, i), O.Start(p), M.Boot(x.c))
      && Sees(x, MainAct(x, i), ParamTable([]), x.top, map[])
  {
    hide Comparable, Compile, GlobalsMatch, Linked, S.Accepts, Match, Sees, M.Boot, S.CheckGlobals, GlobalTable, M.Validate;
    ComparableParts(p);
    SizeOk(p);
    MainIndex(p);
    AcceptedIsLinked(p);
    var x := LinkOf(p);
    MainHasInfo(x, x.c.mainFuncId);
    BlankGlobals(p.globals, M.Blank().globals);
    FunctionValid(x.c, x.c.mainFuncId);
    MainStarts(x, x.c.mainFuncId);
  }

  lemma MainHasInfo(x: Link, i: nat)
    requires Linked(x) && i < |x.p.functions|
    ensures i in x.c.functions
  {
    hide CodeAt, BlockShapes, SignatureLinked;
    assert FunctionLinked(x, i);
  }

  lemma ComparableParts(p: Program)
    requires Comparable(p)
    ensures S.Accepts(p)
  {
  }

  lemma FunctionValid(c: CompiledProgram, i: nat)
    requires M.Validate(c).None? && i in c.functions
    ensures c.functions[i].localCount <= MAX_LOCAL_SLOTS
  {
  }

  lemma MainStarts(x: Link, i: nat)
    requires Linked(x) && i < |x.p.functions| && i == x.c.mainFuncId && i in x.c.functions
    requires x.c.functions[i].localCount <= MAX_LOCAL_SLOTS
    requires GlobalsMatch(x.n.globals, O.Start(x.p).globals, M.Blank().globals)
    ensures Match(x, MainAct(x, i), O.Start(x.p), M.Boot(x.c))
    ensures Sees(x, MainAct(x, i), ParamTable([]), x.top, map[])
  {
    hide CodeAt, GlobalsMatch, LayoutOk, ScopeMatches, SignatureLinked, BlockShapes, LocalTable;
    assert FunctionLinked(x, i);
    MainScope(MainAct(x, i), M.Boot(x.c).locals);
  }

  lemma MainScope(a: Act, cells: seq<int>)
    requires TableOk(a.full) && a.base == 0 && a.full.next <= MAX_LOCAL_SLOTS <= a.floor <= |cells|
    requires forall i :: 0 <= i < MAX_LOCAL_SLOTS ==> cells[i] == I64_MIN
    ensures ScopeMatches(a, map[], cells)
  {
  }

  // ---------------------------------------------------------------- global initializers

  ghost predicate InitReady(x: Link, globals: seq<GlobalVar>) {
    forall i :: 0 <= i < |globals| && globals[i].init.Some? ==>
      && Static(x, x.top, globals[i].init.value)
      && globals[i].name in x.n.globals && !x.n.globals[globals[i].name].isArray
  }

  lemma InitIsReady(p: Program)
    requires Comparable(p)
    ensures InitReady(LinkOf(p), p.globals)
  {
    var x := LinkOf(p);
    forall i | 0 <= i < |p.globals| && p.globals[i].init.Some?
      ensures Static(x, x.top, p.globals[i].init.value)
      ensures p.globals[i].name in x.n.globals && !x.n.globals[p.globals[i].name].isArray
    {
      GlobalIn(p.globals, i);
      assert S.InitMatches(x.top, x.fs, p.globals[i].init, p.globals[i].varType);
    }
  }

  /** How the initializers end. */
  ghost predicate InitDone(x: Link, a: Act, s: M.State, s': M.State, r: O.Eff<()>, len: nat) {
    Cut(x.c, s) ||
    match r.res
    case Fail(code, site) => Fails(x.c, s, code, site, r.st.output)
    case Ok(_) => Reaches(x, a, r.st, s, s') && r.st.frames == [] && s'.stack == s.stack && s'.pc == s.pc + len
  }

  lemma {:induction false} InitSim(x: Link, a: Act, st: O.State, s: M.State, globals: seq<GlobalVar>) returns (s': M.State)
    requires Linked(x) && Match(x, a, st, s) && st.frames == [] && Sees(x, a, ParamTable([]), x.top, map[])
    requires InitReady(x, globals)
    requires CodeAt(x.c, s.pc, InitCode(x.n, ParamTable([]), s.pc, globals))
    ensures InitDone(x, a, s, s', O.InitializeGlobals(x.p, st, globals), |InitCode(x.n, ParamTable([]), s.pc, globals)|)
    decreases |globals|
  {
    hide M.RunFrom, Runs, Goes, Cut, Match, Spares, CodeAt, Linked, Fails, Static, Sees, O.Eval, ExprCode;
    s' := s;
    if Cut(x.c, s) {
    } else if globals == [] {
      Stay(x, a, st, s);
    } else if globals[0].init.None? {
      s' := InitSim(x, a, st, s, globals[1..]);
    } else {
      var init, name := globals[0].init.value, globals[0].name;
      var code, store := ExprCode(x.n, ParamTable([]), s.pc, init), [Ins(StoreGlobal, x.n.globals[name].slot, 0)];
      CodeSplit(x.c, s.pc, code + store, InitCode(x.n, ParamTable([]), s.pc + |code| + 1, globals[1..]));
      CodeSplit(x.c, s.pc, code, store);
      var s1 := EvalSim(x, a, ParamTable([]), x.top, st, s, init);
      var v := O.Eval(x.p, st, init);
      s' := s1;
      if v.res.Ok? && !Cut(x.c, s) {
        SmallProgram(x);
        var s2 := StoreGlobalStep(x, a, v.st, s1, name, s.stack, v.res.value);
        var st2 := O.AssignScalar(v.st, name, v.res.value).st;
        Chain(x, a, v.st, st2, s, s1, s2);
        s' := InitSim(x, a, st2, s2, globals[1..]);
        var r := O.InitializeGlobals(x.p, st2, globals[1..]);
        if r.res.Ok? {
          Chain(x, a, st2, r.st, s, s2, s');
        } else {
          FailChain(x, s, s2, r.res.code, r.res.site, r.st.output);
        }
      }
    }
  }

  // ---------------------------------------------------------------- main

  /** The machine's last step: `main` returns and the loop ends. */
  lemma ExitStep(c: CompiledProgram, s: M.State, rest: seq<int>, v: int)
    requires s.stack == rest + [v] && |s.calls| == 1 && s.calls[0].returnPc.None?
    requires CodeAt(c, s.pc, [Simple(Opcode.Return)])
    ensures Cut(c, s) || (var r := M.RunFrom(c, s); r.success && r.returnValue == v && r.trap == NoTrap && r.output == s.output)
  {
    FetchReturn(c, s);
    hide M.Exec;
  }

  /** What a run shows, seen from the oracle: its own outcome, unless a rejected store hid something. */
  ghost predicate Shows(v: M.Result, r: O.Eff<int>) {
    match r.res
    case Ok(value) => v.success && v.returnValue == value && v.trap == NoTrap && v.output == r.st.output
    case Fail(code, site) => ShowsTrap(v, code, site, r.st.output)
  }

  ghost predicate RunDone(x: Link, s: M.State, r: O.Eff<int>) {
    || Cut(x.c, s)
    || (r.res.Fail? && OverLimit(r.res.code, r.res.site))
    || Shows(M.RunFrom(x.c, s), r)
  }

  lemma MainPieces(x: Link, i: nat)
    requires i < |x.p.functions| && FunctionLinked(x, i) && x.n == NamesOf(x.p)
    requires x.p.functions[i].name == "main" && x.p.functions[i].params == []
    ensures i in x.c.functions
    ensures var pc := x.c.functions[i].entryPc; var t := ParamTable([]);
      var init := InitCode(x.n, t, pc, x.p.globals);
      var body := BlockCode(x.n, t, pc + |init|, x.p.functions[i].body);
      && CodeAt(x.c, pc, init) && CodeAt(x.c, pc + |init|, body)
      && CodeAt(x.c, pc + |init| + |body|, [Ins(LoadConst, 0, 0)]) && CodeAt(x.c, pc + |init| + |body| + 1, [Simple(Opcode.Return)])
  {
    hide FunctionLinked, BlockCode, InitCode, CodeAt;
    FunctionIndex(x, i);
    var f := x.p.functions[i];
    var pc, t := x.c.functions[i].entryPc, ParamTable([]);
    var init := InitCode(x.n, t, pc, x.p.globals);
    var body := BlockCode(x.n, t, pc + |init|, f.body);
    var k, ret := [Ins(LoadConst, 0, 0)], [Simple(Opcode.Return)];
    assert k + ret == [Ins(LoadConst, 0, 0), Simple(Opcode.Return)];
    assert FunctionCode(x.p, f, pc) == init + body + (k + ret);
    CodeSplit(x.c, pc, init + body, k + ret);
    CodeSplit(x.c, pc, init, body);
    CodeSplit(x.c, pc + |init + body|, k, ret);
  }

  /** The oracle calls `main`; the machine is already inside it. */
  lemma MainSim(x: Link, i: nat, st: O.State, s: M.State)
    requires Linked(x) && i < |x.p.functions| && x.p.functions[i].name == "main" && x.p.functions[i].params == []
    requires O.FindFunction(x.p.functions, "main") == Some(i) && (InitFree(x.p.globals) || !BlockCalls("main", x.p.functions[i].body))
    requires var a := MainAct(x, i); Match(x, a, st, s) && Sees(x, a, ParamTable([]), x.top, map[])
    requires st.frames == [] && s.stack == [] && |s.calls| == 1 && s.calls[0].returnPc.None?
    requires i in x.c.functions && var pc := x.c.functions[i].entryPc;
      s.pc == pc + |InitCode(x.n, ParamTable([]), pc, x.p.globals)|
    ensures RunDone(x, s, O.CallFunction(x.p, st, "main", []))
  {
    hide M.RunFrom, Runs, Goes, Cut, Match, Spares, CodeAt, Linked, Fails, Sees, Shows, O.ExecBlock, BlockReady, BlockCode, InitCode, FunctionLinked;
    if Cut(x.c, s) {
      return;
    }
    var a, f := MainAct(x, i), x.p.functions[i];
    var tick := O.Tick(st);
    if tick.res.Fail? {
      return;
    }
    var entered := tick.st.(frames := [map[]]);
    MainEntered(x, i, st, s);
    var w := S.Walk(x.top, {}, 0);
    var s1 := BlockSim(x, a, ParamTable([]), w, entered, s, f.body);
    var b := O.ExecBlock(x.p, entered, f.body);
    assert O.BindParams(f.params, []) == map[];
    assert tick.st.frames + [map[]] == [map[]];
    if b.res.Fail? {
      FailsShows(x, s, b.res.code, b.res.site, b.st);
    } else {
      MainExit(x, a, b.st, s, s1, b.res.value);
    }
  }

  lemma MainEntered(x: Link, i: nat, st: O.State, s: M.State)
    requires Linked(x) && i < |x.p.functions| && x.p.functions[i].name == "main" && x.p.functions[i].params == []
    requires InitFree(x.p.globals) || !BlockCalls("main", x.p.functions[i].body)
    requires Match(x, MainAct(x, i), st, s) && st.frames == []
    requires i in x.c.functions && var pc := x.c.functions[i].entryPc;
      s.pc == pc + |InitCode(x.n, ParamTable([]), pc, x.p.globals)|
    ensures var body := BlockCode(x.n, ParamTable([]), s.pc, x.p.functions[i].body);
      && Match(x, MainAct(x, i), O.Tick(st).st.(frames := [map[]]), s)
      && BlockReady(x, MainAct(x, i), ParamTable([]), S.Walk(x.top, {}, 0), x.p.functions[i].body)
      && CodeAt(x.c, s.pc, body)
      && CodeAt(x.c, s.pc + |body|, [Ins(LoadConst, 0, 0)]) && CodeAt(x.c, s.pc + |body| + 1, [Simple(Opcode.Return)])
  {
    hide Linked, BlockCode, InitCode, FunctionCode, CodeAt, FunctionLinked, BlockReady;
    IsLinked(x, i);
    MainPieces(x, i);
    MainReady(x, i);
    MainMatch(x, i, st, s);
  }

  lemma MainReady(x: Link, i: nat)
    requires i < |x.p.functions| && FunctionLinked(x, i) && x.p.functions[i].params == []
    requires InitFree(x.p.globals) || !BlockCalls("main", x.p.functions[i].body)
    ensures BlockReady(x, MainAct(x, i), ParamTable([]), S.Walk(x.top, {}, 0), x.p.functions[i].body)
  {
    hide CodeAt;
    assert S.CheckParams(x.top, []) == Some(x.top);
    assert S.ParamNames([]) == {};
  }

  lemma MainMatch(x: Link, i: nat, st: O.State, s: M.State)
    requires i < |x.p.functions| && Match(x, MainAct(x, i), st, s) && st.frames == []
    ensures Match(x, MainAct(x, i), O.Tick(st).st.(frames := [map[]]), s)
  {
  }

  lemma FailsShows(x: Link, s: M.State, code: TrapCode, site: O.Site, st: O.State)
    requires Fails(x.c, s, code, site, st.output)
    ensures RunDone(x, s, O.Eff(st, O.Fail(code, site)))
  {
  }

  lemma MainExit(x: Link, a: Act, st: O.State, s: M.State, s1: M.State, control: O.Control)
    requires Reaches(x, a, st, s, s1) && |s.calls| == 1 && s.calls[0].returnPc.None? && s.stack == [] && !Cut(x.c, s)
    requires control.Continue? ==> s1.stack == [] && CodeAt(x.c, s1.pc, [Ins(LoadConst, 0, 0)]) && CodeAt(x.c, s1.pc + 1, [Simple(Opcode.Return)])
    requires control.ReturnValue? ==> IsI32(control.value) && s1.stack == [] + [control.value] && CodeAt(x.c, s1.pc, [Simple(Opcode.Return)])
    ensures var v := if control.Continue? then 0 else control.value;
      RunDone(x, s, O.Eff(O.PopFrame(st), O.Ok(NormalizeI32(v))))
  {
    hide M.RunFrom, Runs, Match, Spares, CodeAt;
    var v := if control.Continue? then 0 else control.value;
    var s2 := s1;
    if control.Continue? {
      ConstStep(x, a, st, s1, 0);
      s2 := Then(s1, [] + [0]);
      Chain(x, a, st, st, s, s1, s2);
    }
    SameOutput(x, a, st, s2);
    ExitStep(x.c, s2, [], v);
  }

  // ---------------------------------------------------------------- the theorem

  /** The machine's result, as the oracle reports its own. */
  function Shown(v: M.Result): O.Outcome {
    O.Outcome(v.success, v.returnValue, v.trap, v.output)
  }

  /** One of the two runs ended in a resource limit. */
  predicate HitsLimit(p: Program) {
    var r := O.RunEffect(p);
    || IsLimit(M.Run(Compile(p)).trap)
    || (r.res.Fail? && OverLimit(r.res.code, r.res.site))
  }

  /** The oracle rejected a store for its negative index before evaluating a value that prints or traps differently. */
  predicate RejectsVisibleStore(p: Program) {
    var r := O.RunEffect(p);
    r.res.Fail? && r.res.site == O.BeforeStoredValue(O.Observable)
  }

  /**
   * Compiler correctness. On every comparable program the machine shows exactly the oracle's outcome
   * (success, return value, trap code, output), unless a resource limit ends one of the runs; the one
   * disagreement is a store rejected before a value whose evaluation would have shown.
   */
  lemma CompiledCodeShowsTheOracle(p: Program)
    requires Comparable(p) && !HitsLimit(p)
    ensures Shown(M.Run(Compile(p))) == O.Run(p) <==> !RejectsVisibleStore(p)
  {
    hide Linked, Match, Sees, M.Validate, M.RunFrom, O.RunEffect, Comparable, Compile;
    ComparableParts(p);
    var x := LinkOf(p);
    AcceptedIsLinked(p);
    Validated(p);
    Booted(p);
    MainIndex(p);
    WholeRun(x, x.c.mainFuncId);
  }

  lemma WholeRun(x: Link, i: nat)
    requires Comparable(x.p) && x == LinkOf(x.p) && Linked(x) && M.Validate(x.c).None? && i == x.c.mainFuncId
    requires i < |x.p.functions| && i in x.c.functions && x.p.functions[i].name == "main" && x.p.functions[i].params == []
    requires O.FindFunction(x.p.functions, "main") == Some(i)
    requires Match(x, MainAct(x, i), O.Start(x.p), M.Boot(x.c)) && Sees(x, MainAct(x, i), ParamTable([]), x.top, map[])
    ensures RunDone(x, M.Boot(x.c), O.RunEffect(x.p))
  {
    hide M.RunFrom, Runs, Goes, Cut, Match, Spares, CodeAt, Linked, Fails, Sees, O.CallFunction, O.InitializeGlobals, InitCode, BlockCode, Shows, M.Validate, FunctionLinked;
    var s, a := M.Boot(x.c), MainAct(x, i);
    IsLinked(x, i);
    MainPieces(x, i);
    InitIsReady(x.p);
    var s1 := InitSim(x, a, O.Start(x.p), s, x.p.globals);
    var g := O.InitializeGlobals(x.p, O.Start(x.p), x.p.globals);
    if g.res.Ok? && !Cut(x.c, s) {
      MainSim(x, i, g.st, s1);
      RunDoneChain(x, s, s1, O.CallFunction(x.p, g.st, "main", []));
    } else if g.res.Fail? && !Cut(x.c, s) {
      FailsShows(x, s, g.res.code, g.res.site, g.st);
    }
  }

  lemma IsLinked(x: Link, i: nat)
    requires Linked(x) && i < |x.p.functions|
    ensures FunctionLinked(x, i) && x.n == NamesOf(x.p)
  {
  }

  lemma RunDoneChain(x: Link, s: M.State, s1: M.State, r: O.Eff<int>)
    requires Goes(x.c, s, s1) && RunDone(x, s1, r)
    ensures RunDone(x, s, r)
  {
  }
}
