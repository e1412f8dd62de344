/** Every compiled program is disciplined, and the verifier accepts it when its expressions are not too high. */
module CompiledOrder {
  import opened Common
  import opened Int32
  import opened Limits
  import opened Ast
  import opened Bytecode
  import opened CodeGen
  import opened Simulation
  import opened Linking
  import opened Correctness
  import opened Discipline
  import opened CompiledShapes
  import C = Compiler
  import K = CallSteps
  import V = Verifier
  import W = Worklist
  import S = Sema
  import P = ProgramVerifier
  import M = Machine

  // ---------------------------------------------------------------- slots

  /** Compiler and analyzer count the same names. */
  predicate Counts(t: Table, w: S.Walk) {
    t.locals.Keys == w.names && t.next == w.slots
  }

  lemma {:induction false} StmtCounts(fs: S.Signatures, t: Table, w: S.Walk, s: Stmt)
    requires S.CheckStmt(fs, w, s).Some? && Counts(t, w) && w.slots <= MAX_LOCAL_SLOTS
    ensures Counts(CollectStmt(t, s), S.CheckStmt(fs, w, s).value) && S.CheckStmt(fs, w, s).value.slots <= MAX_LOCAL_SLOTS
    decreases s, 0
  {
    hide S.TypeOf;
    match s {
      case If(_, thenBody, elseBody) =>
        BlockCounts(fs, t, w, thenBody);
        if elseBody.Else? {
          BlockCounts(fs, CollectBlock(t, thenBody), S.CheckBlock(fs, w, thenBody).value.(vis := w.vis), elseBody.body);
        }
      case While(_, body) => BlockCounts(fs, t, w, body);
      case _ =>
    }
  }

  lemma {:induction false} BlockCounts(fs: S.Signatures, t: Table, w: S.Walk, stmts: seq<Stmt>)
    requires S.CheckBlock(fs, w, stmts).Some? && Counts(t, w) && w.slots <= MAX_LOCAL_SLOTS
    ensures Counts(CollectBlock(t, stmts), S.CheckBlock(fs, w, stmts).value) && S.CheckBlock(fs, w, stmts).value.slots <= MAX_LOCAL_SLOTS
    decreases stmts, 0
  {
    hide S.CheckStmt, CollectStmt;
    if stmts != [] {
      StmtCounts(fs, t, w, stmts[0]);
      BlockCounts(fs, CollectStmt(t, stmts[0]), S.CheckStmt(fs, w, stmts[0]).value, stmts[1..]);
    }
  }

  lemma {:induction false} ParamsCount(vis: S.Visible, params: seq<Param>)
    requires S.CheckParams(vis, params).Some?
    ensures ParamTable(params).locals.Keys == S.ParamNames(params)
  {
    if params != [] {
      var m := |params| - 1;
      ParamsCount(vis, params[..m]);
      assert S.ParamNames(params) == S.ParamNames(params[..m]) + {params[m].name};
    }
  }

  /** An analyzed function needs no more slots than a frame may have. */
  lemma LocalsFit(top: S.Visible, fs: S.Signatures, f: Function)
    requires S.Analyze(top, fs, f).Some?
    ensures LocalTable(f).next <= MAX_LOCAL_SLOTS
  {
    hide S.CheckBlock, CollectBlock;
    ParamsCount(top, f.params);
    BlockCounts(fs, ParamTable(f.params), S.Walk(S.CheckParams(top, f.params).value, S.ParamNames(f.params), |f.params|), f.body);
  }

  // ---------------------------------------------------------------- one function

  function Size(p: Program, i: nat): nat
    requires i < |p.functions|
  {
    |FunctionCode(p, p.functions[i], |CodeOf(p, i)|)|
  }

  /** The stretch of code of a compiled function. */
  function RangeOf(p: Program, i: nat): V.Range
    requires i < |p.functions|
  {
    var f, entry := p.functions[i], |CodeOf(p, i)|;
    V.Range(i, FunctionInfo(f.name, i, entry, |f.params|, LocalTable(f).next), entry, entry + Size(p, i))
  }

  function SiteOf(p: Program, i: nat, limit: nat): Site
    requires S.Accepts(p) && i < |p.functions|
  {
    Site(LinkOf(p), RangeOf(p, i), LocalTable(p.functions[i]), limit)
  }

  function InitHeight(globals: seq<GlobalVar>): nat {
    if globals == [] then 0 else Max(if globals[0].init.Some? then Height(globals[0].init.value) else 0, InitHeight(globals[1..]))
  }

  /** Operand slots a function needs. */
  function FunctionHeight(p: Program, f: Function): nat {
    Max(1, Max(BlockHeight(f.body), if f.name == "main" then InitHeight(p.globals) else 0))
  }

  ghost predicate InitSite(z: Site, globals: seq<GlobalVar>) {
    forall i :: 0 <= i < |globals| && globals[i].init.Some? ==>
      && S.TypeOf(z.x.top, z.x.fs, globals[i].init.value).Some?
      && globals[i].name in z.x.n.globals && !z.x.n.globals[globals[i].name].isArray
  }

  lemma InitStoreFits(z: Site, vis: S.Visible, pc: nat, name: string) returns (shapes: Shapes)
    requires SiteOk(z) && Within(z, pc, pc + 1) && 1 <= z.limit && name in z.x.n.globals && !z.x.n.globals[name].isArray
    requires CodeAt(z.x.c, pc, [Ins(StoreGlobal, z.x.n.globals[name].slot, 0)])
    ensures FitsAt(z, shapes, pc, pc + 1, At(z, vis, 1), At(z, vis, 0))
  {
    hide Ready, Linked, Fits, Kinds;
    SlotsFit(z);
    PlainGlobalName(z, name);
    CodeIndex(z.x.c, pc, [Ins(StoreGlobal, z.x.n.globals[name].slot, 0)], 0);
    shapes := map[pc := At(z, vis, 1)];
    FitsOne(z.x.c, z.r, Kinds(z), z.limit, pc, At(z, vis, 1), At(z, vis, 0));
  }

  lemma {:induction false} InitFits(z: Site, t: Table, pc: nat, globals: seq<GlobalVar>) returns (shapes: Shapes)
    requires SiteOk(z) && Sighted(z, t, z.x.top) && InitSite(z, globals) && InitHeight(globals) <= z.limit && 1 <= z.limit
    requires CodeAt(z.x.c, pc, InitCode(z.x.n, t, pc, globals)) && Within(z, pc, pc + |InitCode(z.x.n, t, pc, globals)|)
    ensures FitsAt(z, shapes, pc, pc + |InitCode(z.x.n, t, pc, globals)|, At(z, z.x.top, 0), At(z, z.x.top, 0))
    decreases |globals|
  {
    hide Ready, FitsAt, Linked, CodeAt, SiteOk, Sighted, Ins, ExprCode, S.TypeOf, Height;
    var top := z.x.top;
    if globals == [] {
      NoneFits(z, pc, At(z, top, 0));
      shapes := map[];
    } else if globals[0].init.None? {
      shapes := InitFits(z, t, pc, globals[1..]);
    } else {
      var init, name := globals[0].init.value, globals[0].name;
      var code, store := ExprCode(z.x.n, t, pc, init), [Ins(StoreGlobal, z.x.n.globals[name].slot, 0)];
      var pc1 := pc + |code| + 1;
      CodeSplit(z.x.c, pc, code + store, InitCode(z.x.n, t, pc1, globals[1..]));
      CodeSplit(z.x.c, pc, code, store);
      var v := ExprFits(z, t, top, pc, init, 0);
      var st := InitStoreFits(z, top, pc + |code|, name);
      var rest := InitFits(z, t, pc1, globals[1..]);
      var end := pc1 + |InitCode(z.x.n, t, pc1, globals[1..])|;
      Append(z, v, st, pc, pc + |code|, pc1, At(z, top, 0), At(z, top, 1), At(z, top, 0));
      Append(z, v + st, rest, pc, pc1, end, At(z, top, 0), At(z, top, 0), At(z, top, 0));
      shapes := v + st + rest;
    }
  }

  /** The implicit `return 0` closes the function. */
  lemma TailFits(z: Site, vis: S.Visible, pc: nat) returns (shapes: Shapes)
    requires SiteOk(z) && Within(z, pc, pc + 1) && 1 <= z.limit && CodeAt(z.x.c, pc, [Ins(LoadConst, 0, 0), Simple(Opcode.Return)])
    ensures FitsAt(z, shapes, pc, pc + 2, At(z, vis, 0), At(z, vis, 0))
  {
    hide Ready, FitsAt, Linked, CodeAt, SiteOk, Ins;
    assert [Ins(LoadConst, 0, 0), Simple(Opcode.Return)] == [Ins(LoadConst, 0, 0)] + [Simple(Opcode.Return)];
    CodeSplit(z.x.c, pc, [Ins(LoadConst, 0, 0)], [Simple(Opcode.Return)]);
    var a := PlainFits(z, vis, pc, LoadConst, 0, 0);
    var b := ReturnFits(z, vis, pc + 1);
    Append(z, a, b, pc, pc + 1, pc + 2, At(z, vis, 0), At(z, vis, 1), At(z, vis, 0));
    shapes := a + b;
  }

  /** Nothing leaves a function's code at its end. */
  lemma FitsClosed(z: Site, shapes: Shapes, from: nat, first: Shape, last: Shape)
    requires FitsAt(z, shapes, from, z.r.end, first, last)
    ensures forall pc <- shapes :: shapes[pc].depth <= z.limit && Keeps(z.x.c, z.r, Kinds(z), shapes[pc], shapes, pc)
  {
    hide V.StepInstruction, ArraysOk, Kinds;
    forall pc | pc in shapes ensures Keeps(z.x.c, z.r, Kinds(z), shapes[pc], shapes, pc) {
      assert Keeps(z.x.c, z.r, Kinds(z), shapes[pc], shapes[z.r.end := last], pc);
    }
  }

  /** Where a compiled function lies. */
  lemma SitePlaced(p: Program, i: nat, limit: nat)
    requires S.Accepts(p) && i < |p.functions|
    ensures var z := SiteOf(p, i, limit); var f := p.functions[i]; var c := Compile(p);
      && z.x == LinkOf(p) && z.x.c == c && z.x.p == p && z.full == LocalTable(f) && z.limit == limit && z.r == RangeOf(p, i)
      && i in c.functions && c.functions[i] == z.r.info && z.r.start == c.functions[i].entryPc && z.r.id == i
      && z.r.info.paramCount == |f.params| && z.r.info.localCount == z.full.next
      && CodeAt(c, z.r.start, FunctionCode(p, f, z.r.start)) && z.r.end == z.r.start + |FunctionCode(p, f, z.r.start)| <= |c.instructions|
      && c.globals == z.x.n.globals && z.x.n == NamesOf(p)
  {
    hide FunctionCode, CodeOf, LocalTable, S.TopLevel, IdOf;
    FunctionPlaced(p, i);
    Placed(p, i);
  }

  /** What linking says about one function. */
  lemma SiteReady(p: Program, i: nat, limit: nat)
    requires Comparable(p) && i < |p.functions|
    ensures S.Accepts(p)
    ensures var z := SiteOf(p, i, limit);
      SiteOk(z) && FunctionLinked(z.x, i) && Linked(z.x) && S.Analyze(z.x.top, z.x.fs, p.functions[i]).Some?
  {
    hide FunctionCode, CodeOf, LocalTable, S.Analyze, S.TopLevel, NamesOf, IdOf, RangeOf, LinkOf, Comparable, S.Accepts, CodeAt;
    ComparableParts(p);
    SitePlaced(p, i, limit);
    AcceptedIsLinked(p);
    assert FunctionLinked(LinkOf(p), i);
    LocalsFit(LinkOf(p).top, LinkOf(p).fs, p.functions[i]);
    MakeSite(SiteOf(p, i, limit), i);
  }

  lemma MakeSite(z: Site, i: nat)
    requires Linked(z.x) && i < |z.x.p.functions| && z.full == LocalTable(z.x.p.functions[i]) && z.full.next <= MAX_LOCAL_SLOTS
    requires z.r.info.localCount == z.full.next && z.r.end <= |z.x.c.instructions| && z.x.c.globals == z.x.n.globals
    ensures SiteOk(z)
  {
    hide LocalTable, CodeAt, BlockShapes, BlockCalls, S.Analyze, SignatureLinked;
    assert FunctionLinked(z.x, i);
  }

  lemma Placed(p: Program, i: nat)
    requires S.Accepts(p) && i < |p.functions|
    ensures i in InfosOf(p, |p.functions|) && InfosOf(p, |p.functions|)[i] == RangeOf(p, i).info
  {
    hide CodeOf, LocalTable;
    forall j | 0 <= j < |p.functions| ensures IdOf(p, p.functions[j].name) == j {
      FunctionNamed(S.CheckGlobals(p.globals).value.0, p.functions, j);
    }
    InfoPlaced(p, i, |p.functions|);
  }

  function ParamWalk(z: Site, f: Function): S.Walk
    requires S.CheckParams(z.x.top, f.params).Some?
  {
    S.Walk(S.CheckParams(z.x.top, f.params).value, S.ParamNames(f.params), |f.params|)
  }

  /** At the entry only parameters and top-level names are in scope, and no local array. */
  lemma EntrySighted(z: Site, f: Function)
    requires SiteOk(z) && S.CheckParams(z.x.top, f.params).Some? && z.full == LocalTable(f)
    ensures Sighted(z, ParamTable(f.params), ParamWalk(z, f).vis) && Ready(z, ParamWalk(z, f).vis) == {}
    ensures f.params == [] ==> ParamWalk(z, f).vis == z.x.top
    ensures forall slot: nat :: slot < |f.params| ==> KindOf(z.full, slot) == ScalarSlot
  {
    hide FunctionLinked, SignatureLinked, CollectBlock;
    K.ParamsKnown(z.x.top, f.params);
    K.CollectGrows(ParamTable(f.params), f.body);
    C.ParamSlots(f.params);
    ParamsScalar(f.params);
    forall slot: nat | slot < |f.params| ensures KindOf(z.full, slot) == ScalarSlot {
      ParamKind(z, f, slot);
    }
  }

  lemma ParamKind(z: Site, f: Function, slot: nat)
    requires S.CheckParams(z.x.top, f.params).Some? && z.full == LocalTable(f) && slot < |f.params|
    ensures KindOf(z.full, slot) == ScalarSlot
  {
    hide CollectBlock;
    K.CollectGrows(ParamTable(f.params), f.body);
    C.ParamSlots(f.params);
    ParamsScalar(f.params);
  }

  lemma {:induction false} ParamsScalar(params: seq<Param>)
    ensures forall y <- ParamTable(params).locals :: !ParamTable(params).locals[y].isArray
  {
    if params != [] {
      ParamsScalar(params[..|params| - 1]);
    }
  }

  lemma PrefixFits(z: Site, f: Function) returns (shapes: Shapes)
    requires SiteOk(z) && Comparable(z.x.p) && z.x == LinkOf(z.x.p) && S.CheckParams(z.x.top, f.params).Some? && z.full == LocalTable(f)
    requires f in z.x.p.functions && FunctionHeight(z.x.p, f) <= z.limit
    requires CodeAt(z.x.c, z.r.start, PrefixCode(z.x.p, f, z.r.start)) && Within(z, z.r.start, z.r.start + |PrefixCode(z.x.p, f, z.r.start)|)
    ensures FitsAt(z, shapes, z.r.start, z.r.start + |PrefixCode(z.x.p, f, z.r.start)|, At(z, ParamWalk(z, f).vis, 0), At(z, ParamWalk(z, f).vis, 0))
  {
    hide Ready, FitsAt, Linked, CodeAt, SiteOk, Sighted, InitCode, Comparable, LinkOf, BlockHeight, InitHeight, CollectBlock;
    EntrySighted(z, f);
    if f.name == "main" {
      MainHasNoParams(z.x.p, f);
      InitSites(z);
      shapes := InitFits(z, ParamTable(f.params), z.r.start, z.x.p.globals);
    } else {
      NoneFits(z, z.r.start, At(z, ParamWalk(z, f).vis, 0));
      shapes := map[];
    }
  }

  lemma InitSites(z: Site)
    requires Comparable(z.x.p) && z.x == LinkOf(z.x.p)
    ensures InitSite(z, z.x.p.globals)
  {
    InitIsReady(z.x.p);
  }

  lemma MainHasNoParams(p: Program, f: Function)
    requires Comparable(p) && f in p.functions && f.name == "main"
    ensures f.params == [] && LinkOf(p).n == NamesOf(p)
  {
    ComparableParts(p);
    var (gvis, fs) := (S.CheckGlobals(p.globals).value.0, S.TopLevel(p).value.1);
    var i :| 0 <= i < |p.functions| && p.functions[i] == f;
    FunctionNamed(gvis, p.functions, i);
    FunctionFound(gvis, p.functions, "main");
  }

  /** The three parts of a function's code. */
  lemma FunctionParts(z: Site, f: Function)
    requires CodeAt(z.x.c, z.r.start, FunctionCode(z.x.p, f, z.r.start)) && z.r.end == z.r.start + |FunctionCode(z.x.p, f, z.r.start)|
    requires z.x.n == NamesOf(z.x.p)
    ensures var prefix := PrefixCode(z.x.p, f, z.r.start); var pc1 := z.r.start + |prefix|;
      var body := BlockCode(z.x.n, ParamTable(f.params), pc1, f.body); var pc2 := pc1 + |body|;
      && CodeAt(z.x.c, z.r.start, prefix) && CodeAt(z.x.c, pc1, body)
      && CodeAt(z.x.c, pc2, [Ins(LoadConst, 0, 0), Simple(Opcode.Return)]) && z.r.end == pc2 + 2
  {
    hide CodeAt, PrefixCode, BlockCode, ParamTable, Ins;
    var prefix := PrefixCode(z.x.p, f, z.r.start);
    var body := BlockCode(z.x.n, ParamTable(f.params), z.r.start + |prefix|, f.body);
    var tail := [Ins(LoadConst, 0, 0), Simple(Opcode.Return)];
    CodeSplit(z.x.c, z.r.start, prefix + body, tail);
    CodeSplit(z.x.c, z.r.start, prefix, body);
  }

  /** The whole code of a function fits, from its entry to its end. */
  lemma FunctionFits(z: Site, i: nat) returns (shapes: Shapes, last: Shape)
    requires SiteOk(z) && Linked(z.x) && Comparable(z.x.p) && z.x == LinkOf(z.x.p) && z.x.n == NamesOf(z.x.p)
    requires i < |z.x.p.functions| && z.full == LocalTable(z.x.p.functions[i]) && FunctionLinked(z.x, i)
    requires S.Analyze(z.x.top, z.x.fs, z.x.p.functions[i]).Some? && FunctionHeight(z.x.p, z.x.p.functions[i]) <= z.limit
    requires CodeAt(z.x.c, z.r.start, FunctionCode(z.x.p, z.x.p.functions[i], z.r.start))
    requires z.r.end == z.r.start + |FunctionCode(z.x.p, z.x.p.functions[i], z.r.start)|
    ensures FitsAt(z, shapes, z.r.start, z.r.end, Shape(0, {}, None), last) && z.r.start < z.r.end
  {
    hide Ready, FitsAt, Linked, CodeAt, SiteOk, Sighted, BlockCode, PrefixCode, FunctionCode, Comparable, LinkOf, BlockHeight, InitHeight, CollectBlock,
         S.CheckBlock, S.CheckParams, BlockSite, FunctionLinked, NamesOf, ParamTable, Ins;
    var f := z.x.p.functions[i];
    FunctionParts(z, f);
    var w := ParamWalk(z, f);
    var pc1 := z.r.start + |PrefixCode(z.x.p, f, z.r.start)|;
    var pc2 := pc1 + |BlockCode(z.x.n, ParamTable(f.params), pc1, f.body)|;
    EntrySighted(z, f);
    assert At(z, w.vis, 0) == Shape(0, {}, None);
    var a := PrefixFits(z, f);
    BodySite(z, i, w, pc1);
    var b := BlockFits(z, ParamTable(f.params), w, pc1, f.body);
    var vis' := S.CheckBlock(z.x.fs, w, f.body).value.vis;
    var c := TailFits(z, vis', pc2);
    Append(z, a, b, z.r.start, pc1, pc2, At(z, w.vis, 0), At(z, w.vis, 0), At(z, vis', 0));
    Append(z, a + b, c, z.r.start, pc2, pc2 + 2, At(z, w.vis, 0), At(z, vis', 0), At(z, vis', 0));
    shapes, last := a + b + c, At(z, vis', 0);
  }

  /** A compiled function has a plan of the height its expressions need. */
  lemma FunctionPlan(p: Program, i: nat, limit: nat) returns (plan: Plan)
    requires Comparable(p) && i < |p.functions| && FunctionHeight(p, p.functions[i]) <= limit
    ensures PlanOk(Compile(p), i, plan) && plan.range == RangeOf(p, i)
    ensures forall pc <- plan.shapes :: plan.shapes[pc].depth <= limit
  {
    hide FitsAt, Linked, CodeAt, SiteOk, Comparable, LinkOf, Compile, FunctionLinked, CodeOf, RangeOf, S.TopLevel, S.Analyze, S.Accepts, Kinds, PlanOk,
         FunctionCode, FunctionHeight, LocalTable, KindOf;
    ComparableParts(p);
    SitePlaced(p, i, limit);
    SiteReady(p, i, limit);
    var z, f := SiteOf(p, i, limit), p.functions[i];
    var shapes, last := FunctionFits(z, i);
    Edges(z, shapes, z.r.start, z.r.end, Shape(0, {}, None), last);
    FitsClosed(z, shapes, z.r.start, Shape(0, {}, None), last);
    plan := Plan(z.r, Kinds(z), shapes);
    AnalyzedParams(z.x.top, z.x.fs, f);
    EntrySighted(z, f);
    MakePlan(z, i, plan);
  }

  lemma AnalyzedParams(top: S.Visible, fs: S.Signatures, f: Function)
    requires S.Analyze(top, fs, f).Some?
    ensures S.CheckParams(top, f.params).Some? && |f.params| <= LocalTable(f).next
  {
    hide S.CheckBlock, CollectBlock;
    K.CollectGrows(ParamTable(f.params), f.body);
  }

  lemma BodySite(z: Site, i: nat, w: S.Walk, pc: nat)
    requires SiteOk(z) && Linked(z.x) && i < |z.x.p.functions| && z.full == LocalTable(z.x.p.functions[i]) && FunctionLinked(z.x, i)
    requires var f := z.x.p.functions[i];
      && S.Analyze(z.x.top, z.x.fs, f).Some? && w == ParamWalk(z, f) && Sighted(z, ParamTable(f.params), w.vis)
      && FunctionHeight(z.x.p, f) <= z.limit
      && CodeAt(z.x.c, pc, BlockCode(z.x.n, ParamTable(f.params), pc, f.body))
      && Within(z, pc, pc + |BlockCode(z.x.n, ParamTable(f.params), pc, f.body)|)
    ensures BlockSite(z, ParamTable(z.x.p.functions[i].params), w, pc, z.x.p.functions[i].body)
  {
    hide SiteOk, Linked, CodeAt, Sighted, BlockCode, CollectBlock, S.CheckBlock;
  }

  lemma MakePlan(z: Site, i: nat, plan: Plan)
    requires SiteOk(z) && i in z.x.c.functions && z.x.c.functions[i] == z.r.info && z.r.start == z.x.c.functions[i].entryPc && z.r.id == i
    requires plan.range == z.r && plan.kinds == Kinds(z) && z.r.start < z.r.end
    requires z.r.info.paramCount <= z.full.next
    requires forall slot: nat :: slot < z.r.info.paramCount ==> KindOf(z.full, slot) == ScalarSlot
    requires Arrives(plan.shapes, z.r.start, 0, {}, None)
    requires forall pc <- plan.shapes :: z.r.start <= pc < z.r.end && Keeps(z.x.c, z.r, Kinds(z), plan.shapes[pc], plan.shapes, pc)
    ensures PlanOk(z.x.c, i, plan)
  {
    hide Linked, Keeps, KindOf;
  }

  // ---------------------------------------------------------------- whole programs

  /** No function needs more operand slots than the limit. */
  predicate HeightWithin(p: Program, limit: nat) {
    forall i :: 0 <= i < |p.functions| ==> FunctionHeight(p, p.functions[i]) <= limit
  }

  ghost predicate PlannedBy(p: Program, plans: Plans, limit: nat) {
    Orderly(Compile(p), plans)
    && forall i :: 0 <= i < |p.functions| ==>
         i in plans && plans[i].range == RangeOf(p, i) && forall pc <- plans[i].shapes :: plans[i].shapes[pc].depth <= limit
  }

  /** Compiled programs are disciplined, at the height their expressions have. */
  lemma CompiledIsOrderly(p: Program, limit: nat) returns (plans: Plans)
    requires Comparable(p) && HeightWithin(p, limit)
    ensures PlannedBy(p, plans, limit)
  {
    hide Comparable, Compile, RangeOf, PlanOk, FunctionHeight;
    plans := map[];
    for i := 0 to |p.functions|
      invariant forall j :: j in plans <==> 0 <= j < i
      invariant forall j :: 0 <= j < i ==>
        j in plans && PlanOk(Compile(p), j, plans[j]) && plans[j].range == RangeOf(p, j)
        && forall pc <- plans[j].shapes :: plans[j].shapes[pc].depth <= limit
    {
      var plan := FunctionPlan(p, i, limit);
      plans := plans[i := plan];
    }
    FunctionIdsAre(p);
  }

  lemma FunctionIdsAre(p: Program)
    requires Comparable(p)
    ensures forall id :: id in Compile(p).functions <==> 0 <= id < |p.functions|
    ensures Compile(p).mainFuncId in Compile(p).functions
  {
    hide Comparable, InfosOf, CodeOf, GlobalTable, MainId;
    FunctionsValid(p);
    MainIndex(p);
  }

  /** Functions lie one behind the other. */
  lemma {:induction false} CodeRises(p: Program, i: nat, k: nat)
    requires i < k <= |p.functions|
    ensures |CodeOf(p, i)| + Size(p, i) <= |CodeOf(p, k)| && Size(p, i) >= 2
    decreases k
  {
    hide FunctionCode;
    FunctionLong(p, p.functions[i], |CodeOf(p, i)|);
    if i < k - 1 {
      CodeRises(p, i, k - 1);
    }
  }

  /** No other function starts inside a function's code. */
  lemma EntriesApart(p: Program, i: nat, j: nat)
    requires Comparable(p) && i < |p.functions| && j < |p.functions| && j in Compile(p).functions
    ensures !(RangeOf(p, i).start < Compile(p).functions[j].entryPc < RangeOf(p, i).end)
  {
    hide Comparable, FunctionCode, LocalTable, CodeOf, Size;
    ComparableParts(p);
    Placed(p, j);
    if j < i {
      CodeRises(p, j, i);
    } else if i < j {
      CodeRises(p, i, j);
    }
  }

  lemma NextEntry(p: Program, i: nat)
    requires Comparable(p) && i < |p.functions|
    ensures var end := RangeOf(p, i).end; var c := Compile(p);
      end == |c.instructions| || (i + 1 < |p.functions| && i + 1 in c.functions && c.functions[i + 1].entryPc == end)
  {
    hide Comparable, FunctionCode, LocalTable;
    ComparableParts(p);
    assert CodeOf(p, i + 1) == CodeOf(p, i) + FunctionCode(p, p.functions[i], |CodeOf(p, i)|);
    if i + 1 < |p.functions| {
      Placed(p, i + 1);
    }
  }

  lemma CompiledRange(p: Program, i: nat)
    requires Comparable(p) && i < |p.functions|
    ensures P.OwnRange(Compile(p), i, RangeOf(p, i))
  {
    hide Comparable, FunctionCode, LocalTable, CodeOf, InfosOf, Compile;
    ComparableParts(p);
    SitePlaced(p, i, 0);
    FunctionIdsAre(p);
    var c, r := Compile(p), RangeOf(p, i);
    CodeRises(p, i, |p.functions|);
    forall j | j in c.functions ensures !(r.start < c.functions[j].entryPc < r.end) {
      EntriesApart(p, i, j);
    }
    NextEntry(p, i);
  }

  lemma CompiledMetadata(p: Program)
    requires Comparable(p)
    ensures P.MetadataOk(Compile(p), Compile(p).functions.Keys)
  {
    hide Comparable, CodeOf, LocalTable, FunctionCode;
    ComparableParts(p);
    FunctionIdsAre(p);
    var c := Compile(p);
    forall i, j | i in c.functions && j in c.functions
      ensures P.InfoOk(c, i) && (i != j ==> c.functions[i].entryPc != c.functions[j].entryPc)
    {
      Placed(p, i);
      Placed(p, j);
      CodeRises(p, i, |p.functions|);
      SiteReady(p, i, 0);
      AnalyzedParams(LinkOf(p).top, LinkOf(p).fs, p.functions[i]);
      LocalsFit(LinkOf(p).top, LinkOf(p).fs, p.functions[i]);
      if i < j {
        CodeRises(p, i, j);
      } else if j < i {
        CodeRises(p, j, i);
      }
    }
  }

  lemma CompiledGlobals(p: Program)
    requires Comparable(p)
    ensures P.GlobalsOk(Compile(p).globals, Compile(p).globals.Keys)
  {
    ComparableParts(p);
    GlobalsLaidOut(p.globals);
    hide CodeOf, InfosOf, MainId;
  }

  /**
   * The verifier accepts every compiled program whose expressions need at most 1000 operand slots: it has disjoint
   * globals, separate functions, and one stack depth at every instruction control can reach.
   */
  lemma CompiledIsValid(p: Program)
    requires Comparable(p) && HeightWithin(p, MAX_OPERAND_STACK)
    ensures P.Valid(Compile(p))
  {
    hide Comparable, Compile, P.GlobalsOk, P.MetadataOk, P.OwnRange, PlanOk, RangeOf, FunctionHeight, W.Balanced;
    CompiledGlobals(p);
    CompiledMetadata(p);
    FunctionIdsAre(p);
    CompiledSize(p);
    var c := Compile(p);
    var plans := CompiledIsOrderly(p, MAX_OPERAND_STACK);
    forall i | i in c.functions ensures P.FunctionSound(c, i) {
      CompiledRange(p, i);
      PlannedIsBalanced(c, i, plans[i]);
    }
  }

  lemma CompiledSize(p: Program)
    requires Comparable(p)
    ensures |Compile(p).instructions| <= MAX_INSTRUCTIONS
  {
  }
}
