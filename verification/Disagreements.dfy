/** Source programs outside the premises of compiler correctness, on which compiled code and oracle really disagree. */
module Disagreements {
  import opened Common
  import opened Int32
  import opened Limits
  import opened Ast
  import opened Bytecode
  import opened CodeGen
  import opened Simulation
  import opened Linking
  import opened Correctness
  import M = Machine
  import O = Oracle
  import S = Sema

  // ---------------------------------------------------------------- a store that is rejected visibly

  function MinusOne(): Expr {
    Unary(UnaryOp.Neg, IntLiteral(1))
  }

  function OneByZero(): Expr {
    Binary(BinaryOp.Div, IntLiteral(1), IntLiteral(0))
  }

  function StoreStmt(): Stmt {
    Assign("a", Some(MinusOne()), OneByZero())
  }

  function StoreMain(): Function {
    Function("main", [], [StoreStmt()])
  }

  /** `int a[1]; func main() { a[-1] = 1 / 0; }` */
  function StoreProgram(): Program {
    Program([GlobalVar(IntType, "a", None, Some(1))], [StoreMain()])
  }

  function StoreGlobals(): map<string, GlobalInfo> {
    map["a" := GlobalInfo("a", 0, true, 1)]
  }

  lemma StoreTables()
    ensures GlobalTable(StoreProgram().globals) == StoreGlobals()
    ensures FunctionIds(StoreProgram().functions) == map["main" := 0] && MainId(StoreProgram().functions) == Some(0)
    ensures LocalTable(StoreMain()) == Table(map[], 0)
  {
    var g := StoreProgram().globals;
    assert g[..0] == [];
    assert GlobalTable(g[..0]) == map[] && GlobalSlots(g[..0]) == 0;
    var f := StoreProgram().functions;
    assert f[..0] == [];
    assert FunctionIds(f[..0]) == map[];
    assert [StoreStmt()][1..] == [];
  }

  function StoreCodeIs(): seq<Instruction> {
    [Instruction(LoadConst, 1, 0), Instruction(Opcode.Neg, 0, 0), Instruction(LoadConst, 1, 0), Instruction(LoadConst, 0, 0),
     Instruction(Opcode.Div, 0, 0), Instruction(ArrayStore, 0, 1), Instruction(LoadConst, 0, 0), Instruction(Opcode.Return, 0, 0)]
  }

  lemma StoreCompiled()
    ensures Compile(StoreProgram()) == CompiledProgram(StoreCodeIs(), map[0 := FunctionInfo("main", 0, 0, 0, 0)], StoreGlobals(), 0)
  {
    hide GlobalTable, FunctionIds, LocalTable, MainId;
    StoreTables();
    var p, n, t := StoreProgram(), NamesOf(StoreProgram()), Table(map[], 0);
    assert n == Names(StoreGlobals(), map["main" := 0]);
    assert ExprCode(n, t, 0, MinusOne()) == StoreCodeIs()[..2];
    assert ExprCode(n, t, 2, OneByZero()) == StoreCodeIs()[2..5];
    assert StmtCode(n, t, 0, StoreStmt()) == StoreCodeIs()[..6];
    assert [StoreStmt()][1..] == [];
    assert BlockCode(n, t, 0, [StoreStmt()]) == StoreCodeIs()[..6];
    assert p.globals[1..] == [];
    assert PrefixCode(p, StoreMain(), 0) == [];
    assert FunctionCode(p, StoreMain(), 0) == StoreCodeIs();
    assert CodeOf(p, 0) == [] && CodeOf(p, 1) == StoreCodeIs();
    assert InfosOf(p, 0) == map[];
  }

  lemma StoreRuns()
    ensures M.Run(Compile(StoreProgram())).trap == DivideByZero
  {
    hide Compile;
    StoreCompiled();
    var c := Compile(StoreProgram());
    assert M.Validate(c).None?;
    var s := M.Boot(c);
    assert M.TakeTurn(c, s) == M.Next(s.(stack := [1], pc := 1, cycles := 1));
    var s1 := s.(stack := [1], pc := 1, cycles := 1);
    assert NormalizeI32(Wrap64(-1)) == -1;
    assert M.TakeTurn(c, s1) == M.Next(s.(stack := [-1], pc := 2, cycles := 2));
    var s2 := s.(stack := [-1], pc := 2, cycles := 2);
    assert M.TakeTurn(c, s2) == M.Next(s.(stack := [-1, 1], pc := 3, cycles := 3));
    var s3 := s.(stack := [-1, 1], pc := 3, cycles := 3);
    assert M.TakeTurn(c, s3) == M.Next(s.(stack := [-1, 1, 0], pc := 4, cycles := 4));
    var s4 := s.(stack := [-1, 1, 0], pc := 4, cycles := 4);
    assert M.TakeTurn(c, s4).Stop?;
  }

  lemma StoreAnalyzed()
    ensures S.Accepts(StoreProgram())
  {
    var p := StoreProgram();
    assert p.globals[..0] == [] && p.functions[..0] == [];
    var vis: S.Visible := map["a" := S.Symbol(IntType, true, false)];
    assert S.CheckGlobals(p.globals[..0]) == Some((map[], 0));
    assert S.CheckGlobals(p.globals) == Some((vis, 1));
    assert S.CheckFunctions(vis, p.functions[..0]) == Some((vis, map[]));
    var top: S.Visible := vis["main" := S.Symbol(IntType, false, true)];
    var fs: S.Signatures := map["main" := []];
    assert S.ParamTypes([]) == [];
    assert S.TopLevel(p) == Some((top, fs));
    assert S.TypeOf(top, fs, MinusOne()) == Some(IntType) && S.TypeOf(top, fs, OneByZero()) == Some(IntType);
    var w := S.Walk(top, S.ParamNames([]), 0);
    assert S.CheckStmt(fs, w, StoreStmt()) == Some(w);
    assert [StoreStmt()][1..] == [];
    assert S.Analyze(top, fs, StoreMain()).Some?;
  }

  lemma StoreComparable()
    ensures Comparable(StoreProgram())
  {
    hide S.Accepts, CodeOf, InfosOf, GlobalTable, MainId;
    StoreAnalyzed();
    StoreCompiled();
    assert [StoreStmt()][1..] == [];
    assert Decls([StoreStmt()]) == [];
  }

  lemma StoreRejected(p: Program, st: O.State)
    requires st.cycles + 6 <= MAX_CYCLES
    ensures O.ExecStmt(p, st, StoreStmt()).res == O.Fail(ArrayOutOfBounds, O.BeforeStoredValue(O.Observable))
  {
    hide O.Eval;
    IndexIsMinusOne(p, st.(cycles := st.cycles + 1));
    ValueDivides(p, st.(cycles := st.cycles + 3));
  }

  lemma StoreCalled(st: O.State)
    requires st.cycles + 7 <= MAX_CYCLES && st.frames == []
    ensures O.CallFunction(StoreProgram(), st, "main", []).res == O.Fail(ArrayOutOfBounds, O.BeforeStoredValue(O.Observable))
  {
    hide O.ExecStmt;
    assert O.FindFunction(StoreProgram().functions, "main") == Some(0);
    var t := O.Tick(st).st;
    var entered := t.(frames := t.frames + [O.BindParams([], [])]);
    StoreRejected(StoreProgram(), entered);
    assert O.ExecBlock(StoreProgram(), entered, StoreMain().body) == O.ExecStmt(StoreProgram(), entered, StoreStmt());
  }

  lemma StoreOracle()
    ensures O.RunEffect(StoreProgram()).res == O.Fail(ArrayOutOfBounds, O.BeforeStoredValue(O.Observable))
  {
    hide O.CallFunction, O.InitialGlobals;
    var p := StoreProgram();
    assert p.globals[1..] == [];
    StoreCalled(O.Start(p));
  }

  lemma IndexIsMinusOne(p: Program, st: O.State)
    requires st.cycles + 2 <= MAX_CYCLES
    ensures O.Eval(p, st, MinusOne()) == O.Eff(st.(cycles := st.cycles + 2), O.Ok(-1))
  {
    assert NormalizeI32(Wrap64(-1)) == -1;
    assert O.Eval(p, st.(cycles := st.cycles + 1), IntLiteral(1)) == O.Eff(st.(cycles := st.cycles + 2), O.Ok(1));
  }

  lemma ValueDivides(p: Program, st: O.State)
    requires st.cycles + 3 <= MAX_CYCLES
    ensures O.Eval(p, st, OneByZero()) == O.Eff(st.(cycles := st.cycles + 3), O.Fail(DivideByZero, O.Elsewhere))
  {
    assert O.Eval(p, st.(cycles := st.cycles + 1), IntLiteral(1)) == O.Eff(st.(cycles := st.cycles + 2), O.Ok(1));
    assert O.Eval(p, st.(cycles := st.cycles + 2), IntLiteral(0)) == O.Eff(st.(cycles := st.cycles + 3), O.Ok(0));
  }

  /**
   * The one disagreement compiler correctness leaves open does occur: the oracle rejects this store for its index,
   * compiled code divides by zero first.
   */
  lemma RejectedStoreShows()
    ensures var p := StoreProgram();
      && Comparable(p) && !HitsLimit(p) && RejectsVisibleStore(p)
      && O.Run(p).trap == ArrayOutOfBounds && M.Run(Compile(p)).trap == DivideByZero
  {
    hide Comparable, Compile, M.Run, O.RunEffect;
    StoreComparable();
    StoreRuns();
    StoreOracle();
  }

  // ---------------------------------------------------------------- main, entered again

  function GuardStmt(): Stmt {
    If(Identifier("c"), [Stmt.Return(Identifier("g"))], NoElse)
  }

  function SetStmt(): Stmt {
    Assign("c", None, IntLiteral(1))
  }

  function AgainStmt(): Stmt {
    Stmt.Return(Expr.Call("main", []))
  }

  function AgainMain(): Function {
    Function("main", [], [GuardStmt(), SetStmt(), AgainStmt()])
  }

  /** `int c; int g = c; func main() { if (c) { return g; } c = 1; return main(); }` */
  function AgainProgram(): Program {
    Program([GlobalVar(IntType, "c", None, None), GlobalVar(IntType, "g", Some(Identifier("c")), None)], [AgainMain()])
  }

  function AgainGlobals(): map<string, GlobalInfo> {
    map["c" := GlobalInfo("c", 0, false, 0), "g" := GlobalInfo("g", 1, false, 0)]
  }

  function AgainCode(): seq<Instruction> {
    [Instruction(LoadGlobal, 0, 0), Instruction(StoreGlobal, 1, 0), Instruction(LoadGlobal, 0, 0), Instruction(JumpIfFalse, 6, 0),
     Instruction(LoadGlobal, 1, 0), Instruction(Opcode.Return, 0, 0), Instruction(LoadConst, 1, 0), Instruction(StoreGlobal, 0, 0),
     Instruction(Opcode.Call, 0, 0), Instruction(Opcode.Return, 0, 0), Instruction(LoadConst, 0, 0), Instruction(Opcode.Return, 0, 0)]
  }

  lemma AgainTables()
    ensures GlobalTable(AgainProgram().globals) == AgainGlobals()
    ensures FunctionIds(AgainProgram().functions) == map["main" := 0] && MainId(AgainProgram().functions) == Some(0)
    ensures LocalTable(AgainMain()) == Table(map[], 0)
  {
    var g := AgainProgram().globals;
    assert g[..1][..0] == [] && g[..1][0] == g[0];
    assert GlobalTable(g[..1][..0]) == map[] && GlobalSlots(g[..1][..0]) == 0;
    assert GlobalTable(g[..1]) == map["c" := GlobalInfo("c", 0, false, 0)] && GlobalSlots(g[..1]) == 1;
    var f := AgainProgram().functions;
    assert f[..0] == [];
    assert FunctionIds(f[..0]) == map[];
    var t := Table(map[], 0);
    var body := AgainMain().body;
    assert CollectStmt(t, GuardStmt()) == t by {
      assert [Stmt.Return(Identifier("g"))][1..] == [];
    }
    assert body[1..] == [SetStmt(), AgainStmt()] && body[1..][1..] == [AgainStmt()] && [AgainStmt()][1..] == [];
    assert CollectBlock(t, [AgainStmt()]) == t;
    assert CollectBlock(t, body[1..]) == t;
  }

  lemma AgainGuard(n: Names)
    requires n == Names(AgainGlobals(), map["main" := 0])
    ensures StmtCode(n, Table(map[], 0), 2, GuardStmt()) == AgainCode()[2..6]
  {
    hide BlockCode;
    var t := Table(map[], 0);
    AgainInner(n);
    assert ExprCode(n, t, 2, Identifier("c")) == AgainCode()[2..3];
    assert AgainCode()[2..3] + [Ins(JumpIfFalse, 6, 0)] + AgainCode()[4..6] == AgainCode()[2..6];
  }

  lemma AgainInner(n: Names)
    requires n == Names(AgainGlobals(), map["main" := 0])
    ensures BlockCode(n, Table(map[], 0), 4, [Stmt.Return(Identifier("g"))]) == AgainCode()[4..6]
  {
    var t, inner := Table(map[], 0), [Stmt.Return(Identifier("g"))];
    assert inner[1..] == [];
    assert StmtCode(n, t, 4, inner[0]) == AgainCode()[4..6];
  }

  lemma AgainRest(n: Names)
    requires n == Names(AgainGlobals(), map["main" := 0])
    ensures StmtCode(n, Table(map[], 0), 6, SetStmt()) == AgainCode()[6..8]
    ensures StmtCode(n, Table(map[], 0), 8, AgainStmt()) == AgainCode()[8..10]
  {
  }

  lemma AgainBody(n: Names)
    requires n == Names(AgainGlobals(), map["main" := 0])
    ensures BlockCode(n, Table(map[], 0), 2, AgainMain().body) == AgainCode()[2..10]
  {
    hide StmtCode;
    var t, body := Table(map[], 0), AgainMain().body;
    AgainGuard(n);
    AgainRest(n);
    AgainCollects();
    assert body[1..] == [SetStmt(), AgainStmt()] && body[1..][1..] == [AgainStmt()] && [AgainStmt()][1..] == [];
    assert BlockCode(n, t, 8, [AgainStmt()]) == AgainCode()[8..10];
    assert BlockCode(n, t, 6, body[1..]) == AgainCode()[6..8] + AgainCode()[8..10];
    assert AgainCode()[6..8] + AgainCode()[8..10] == AgainCode()[6..10];
    assert AgainCode()[2..6] + AgainCode()[6..10] == AgainCode()[2..10];
  }

  lemma AgainCollects()
    ensures CollectStmt(Table(map[], 0), GuardStmt()) == Table(map[], 0)
    ensures CollectStmt(Table(map[], 0), SetStmt()) == Table(map[], 0)
  {
    assert [Stmt.Return(Identifier("g"))][1..] == [];
  }

  lemma AgainCompiled()
    ensures Compile(AgainProgram()) == CompiledProgram(AgainCode(), map[0 := FunctionInfo("main", 0, 0, 0, 0)], AgainGlobals(), 0)
  {
    hide GlobalTable, FunctionIds, LocalTable, MainId, BlockCode;
    AgainTables();
    var p, n, t := AgainProgram(), NamesOf(AgainProgram()), Table(map[], 0);
    AgainBody(n);
    assert p.globals[1..][1..] == [];
    assert InitCode(n, t, 0, p.globals[1..]) == AgainCode()[..2];
    assert PrefixCode(p, AgainMain(), 0) == AgainCode()[..2];
    assert FunctionCode(p, AgainMain(), 0) == AgainCode();
    assert CodeOf(p, 0) == [] && CodeOf(p, 1) == AgainCode();
    assert InfosOf(p, 0) == map[];
  }

  /** The machine in this program: operands, the two globals, and how often `main` is entered. */
  function AgainState(stack: seq<int>, c: int, g: int, depth: nat, pc: nat, cycles: nat): M.State {
    M.State(stack, seq(MAX_LOCAL_SLOTS, _ => I64_MIN), seq(MAX_GLOBAL_SLOTS, i => if i == 0 then c else if i == 1 then g else 0),
            [M.Frame(None, 0, 0)] + seq(depth, _ => M.Frame(Some(9), 0, 0)), pc, cycles, [])
  }

  function AgainBytecode(): CompiledProgram {
    CompiledProgram(AgainCode(), map[0 := FunctionInfo("main", 0, 0, 0, 0)], AgainGlobals(), 0)
  }

  lemma AgainLoads(c: int, g: int, depth: nat, pc: nat, cycles: nat)
    requires cycles < MAX_CYCLES && (pc == 0 || pc == 2)
    ensures M.TakeTurn(AgainBytecode(), AgainState([], c, g, depth, pc, cycles)) == M.Next(AgainState([c], c, g, depth, pc + 1, cycles + 1))
  {
    hide M.ExecCall, M.ExecReturn, M.Branch, M.StoreGlobal;
  }

  lemma AgainStores(c: int, g: int, depth: nat, cycles: nat)
    requires cycles < MAX_CYCLES
    ensures M.TakeTurn(AgainBytecode(), AgainState([c], c, g, depth, 1, cycles)) == M.Next(AgainState([], c, c, depth, 2, cycles + 1))
  {
    hide M.ExecCall, M.ExecReturn, M.Branch, M.LoadGlobal;
  }

  lemma AgainBranches(c: int, g: int, depth: nat, cycles: nat)
    requires cycles < MAX_CYCLES
    ensures M.TakeTurn(AgainBytecode(), AgainState([c], c, g, depth, 3, cycles))
         == M.Next(AgainState([], c, g, depth, if c == 0 then 6 else 4, cycles + 1))
  {
    hide M.ExecCall, M.ExecReturn, M.StoreGlobal, M.LoadGlobal;
  }

  /** `g = c`, then the guard: four turns that end at 4 when c holds, and at 6 when it does not. */
  lemma AgainEnters(c: int, g: int, depth: nat, cycles: nat)
    requires cycles + 4 <= MAX_CYCLES
    ensures M.RunFrom(AgainBytecode(), AgainState([], c, g, depth, 0, cycles))
         == M.RunFrom(AgainBytecode(), AgainState([], c, c, depth, if c == 0 then 6 else 4, cycles + 4))
  {
    hide M.TakeTurn, AgainState, AgainBytecode;
    AgainLoads(c, g, depth, 0, cycles);
    AgainStores(c, g, depth, cycles + 1);
    AgainLoads(c, c, depth, 2, cycles + 2);
    AgainBranches(c, c, depth, cycles + 3);
    assert M.RunFrom(AgainBytecode(), AgainState([], c, c, depth, 2, cycles + 2))
        == M.RunFrom(AgainBytecode(), AgainState([], c, c, depth, if c == 0 then 6 else 4, cycles + 4));
  }

  lemma AgainSets()
    ensures M.RunFrom(AgainBytecode(), AgainState([], 0, 0, 0, 6, 4)) == M.RunFrom(AgainBytecode(), AgainState([], 1, 0, 0, 8, 6))
  {
    var p := AgainBytecode();
    assert M.TakeTurn(p, AgainState([], 0, 0, 0, 6, 4)) == M.Next(AgainState([1], 0, 0, 0, 7, 5));
    assert M.TakeTurn(p, AgainState([1], 0, 0, 0, 7, 5)) == M.Next(AgainState([], 1, 0, 0, 8, 6));
  }

  lemma EntersNothing(locals: seq<int>)
    ensures M.EnterFrame(locals, 0, [], 0) == locals
  {
  }

  lemma AgainCalls()
    ensures M.RunFrom(AgainBytecode(), AgainState([], 1, 0, 0, 8, 6)) == M.RunFrom(AgainBytecode(), AgainState([], 1, 0, 1, 0, 7))
  {
    hide M.EnterFrame;
    var p, s := AgainBytecode(), AgainState([], 1, 0, 0, 8, 6);
    EntersNothing(s.locals);
    assert s.stack[|s.stack| - 0..] == [] && s.stack[..|s.stack| - 0] == [];
    assert M.TakeTurn(p, s) == M.Next(AgainState([], 1, 0, 1, 0, 7));
  }

  lemma AgainReturns()
    ensures var r := M.RunFrom(AgainBytecode(), AgainState([], 1, 1, 1, 4, 11)); r.success && r.returnValue == 1 && r.trap == NoTrap
  {
    var p := AgainBytecode();
    assert M.TakeTurn(p, AgainState([], 1, 1, 1, 4, 11)) == M.Next(AgainState([1], 1, 1, 1, 5, 12));
    assert M.TakeTurn(p, AgainState([1], 1, 1, 1, 5, 12)) == M.Next(AgainState([1], 1, 1, 0, 9, 13));
    assert M.TakeTurn(p, AgainState([1], 1, 1, 0, 9, 13)).Stop?;
  }

  lemma AgainRuns()
    ensures M.Run(Compile(AgainProgram())).returnValue == 1 && M.Run(Compile(AgainProgram())).trap == NoTrap
  {
    hide M.RunFrom, Compile;
    AgainCompiled();
    var p := AgainBytecode();
    assert M.Validate(p).None?;
    assert M.Boot(p) == AgainState([], 0, 0, 0, 0, 0);
    AgainEnters(0, 0, 0, 0);
    AgainSets();
    AgainCalls();
    AgainEnters(1, 0, 1, 7);
    AgainReturns();
  }

  // ---------------------------------------------------------------- the same program in the oracle

  function AgainSource(c: int, frames: seq<O.Scope>, cycles: nat): O.State {
    O.State(map["c" := O.Scalar(Some(c)), "g" := O.Scalar(Some(0))], frames, [], cycles)
  }

  lemma ReadsGlobal(st: O.State, c: int, frames: seq<O.Scope>, cycles: nat, name: string)
    requires st == AgainSource(c, frames, cycles) && (name == "c" || name == "g") && cycles < MAX_CYCLES && O.Top(st) == map[]
    ensures O.Eval(AgainProgram(), st, Identifier(name))
         == O.Eff(AgainSource(c, frames, cycles + 1), O.Ok(if name == "c" then c else 0))
  {
  }

  /** Entered with c set, `main` returns g. */
  lemma SecondMain(frames: seq<O.Scope>, cycles: nat)
    requires |frames| < MAX_FRAMES && cycles + 5 <= MAX_CYCLES
    ensures O.CallFunction(AgainProgram(), AgainSource(1, frames, cycles), "main", []).res == O.Ok(0)
  {
    hide O.Eval;
    var p, inner := AgainProgram(), frames + [O.BindParams([], [])];
    assert O.FindFunction(p.functions, "main") == Some(0);
    var entered := AgainSource(1, inner, cycles + 1);
    ReadsGlobal(AgainSource(1, inner, cycles + 2), 1, inner, cycles + 2, "c");
    ReadsGlobal(AgainSource(1, inner, cycles + 4), 1, inner, cycles + 4, "g");
    var ret := O.ExecStmt(p, AgainSource(1, inner, cycles + 3), Stmt.Return(Identifier("g")));
    assert ret == O.Eff(AgainSource(1, inner, cycles + 5), O.Ok(O.ReturnValue(0)));
    assert O.ExecBlock(p, AgainSource(1, inner, cycles + 3), [Stmt.Return(Identifier("g"))]) == ret;
    assert O.ExecStmt(p, entered, GuardStmt()) == ret;
    assert O.ExecBlock(p, entered, AgainMain().body) == ret;
  }

  lemma FirstMain(cycles: nat)
    requires cycles + 20 <= MAX_CYCLES
    ensures O.CallFunction(AgainProgram(), AgainSource(0, [], cycles), "main", []).res == O.Ok(0)
  {
    hide O.Eval, O.ExecStmt;
    var p, inner := AgainProgram(), [map[]];
    assert O.FindFunction(p.functions, "main") == Some(0);
    assert O.BindParams([], []) == map[] && [] + [O.BindParams([], [])] == inner;
    GuardPasses(inner, cycles + 1);
    SetsC(inner, cycles + 3);
    CallsAgain(inner, cycles + 5);
    var body := AgainMain().body;
    assert body[1..] == [SetStmt(), AgainStmt()] && body[1..][1..] == [AgainStmt()];
    assert O.ExecBlock(p, AgainSource(1, inner, cycles + 5), [AgainStmt()]).res == O.Ok(O.ReturnValue(0));
    assert O.ExecBlock(p, AgainSource(0, inner, cycles + 3), body[1..]).res == O.Ok(O.ReturnValue(0));
    assert O.ExecBlock(p, AgainSource(0, inner, cycles + 1), body).res == O.Ok(O.ReturnValue(0));
  }

  lemma GuardPasses(frames: seq<O.Scope>, cycles: nat)
    requires frames == [map[]] && cycles + 2 <= MAX_CYCLES
    ensures O.ExecStmt(AgainProgram(), AgainSource(0, frames, cycles), GuardStmt()) == O.Eff(AgainSource(0, frames, cycles + 2), O.Ok(O.Continue))
  {
    hide O.Eval;
    ReadsGlobal(AgainSource(0, frames, cycles + 1), 0, frames, cycles + 1, "c");
  }

  lemma SetsC(frames: seq<O.Scope>, cycles: nat)
    requires frames == [map[]] && cycles + 2 <= MAX_CYCLES
    ensures O.ExecStmt(AgainProgram(), AgainSource(0, frames, cycles), SetStmt()) == O.Eff(AgainSource(1, frames, cycles + 2), O.Ok(O.Continue))
  {
    assert O.Eval(AgainProgram(), AgainSource(0, frames, cycles + 1), IntLiteral(1)) == O.Eff(AgainSource(0, frames, cycles + 2), O.Ok(1));
  }

  lemma CallsAgain(frames: seq<O.Scope>, cycles: nat)
    requires frames == [map[]] && cycles + 8 <= MAX_CYCLES
    ensures O.ExecStmt(AgainProgram(), AgainSource(1, frames, cycles), AgainStmt()).res == O.Ok(O.ReturnValue(0))
  {
    hide O.CallFunction;
    SecondMain(frames, cycles + 2);
    var st := AgainSource(1, frames, cycles + 2);
    assert O.EvalArgs(AgainProgram(), st, []) == O.Eff(st, O.Ok([]));
    assert O.Eval(AgainProgram(), AgainSource(1, frames, cycles + 1), Expr.Call("main", [])).res == O.Ok(0);
  }

  lemma AgainOracle()
    ensures O.RunEffect(AgainProgram()).res == O.Ok(0)
  {
    hide O.CallFunction, O.Eval;
    var p := AgainProgram();
    var g := p.globals;
    assert g[..1][..0] == [] && g[..1][0] == g[0];
    assert O.InitialGlobals(g[..1]) == map["c" := O.Scalar(Some(0))];
    assert O.Start(p) == AgainSource(0, [], 0);
    assert g[1..] == [g[1]] && g[1..][1..] == [];
    ReadsGlobal(AgainSource(0, [], 0), 0, [], 0, "c");
    assert O.AssignGlobalScalar(AgainSource(0, [], 1), "g", 0).st == AgainSource(0, [], 1);
    assert O.InitializeGlobals(p, O.Start(p), g) == O.Eff(AgainSource(0, [], 1), O.Ok(()));
    FirstMain(1);
  }

  lemma AgainAnalyzed()
    ensures S.Accepts(AgainProgram())
  {
    var p := AgainProgram();
    var g := p.globals;
    assert g[..1][..0] == [] && g[..1][0] == g[0] && p.functions[..0] == [];
    var one: S.Visible := map["c" := S.Symbol(IntType, false, false)];
    var vis: S.Visible := one["g" := S.Symbol(IntType, false, false)];
    assert S.CheckGlobals(g[..1]) == Some((one, 1));
    assert S.CheckGlobals(g) == Some((vis, 2));
    assert S.CheckFunctions(vis, p.functions[..0]) == Some((vis, map[]));
    var top: S.Visible := vis["main" := S.Symbol(IntType, false, true)];
    var fs: S.Signatures := map["main" := []];
    assert S.ParamTypes([]) == [];
    assert S.TopLevel(p) == Some((top, fs));
    AgainBodyAnalyzed(top, fs);
  }

  lemma AgainBodyAnalyzed(top: S.Visible, fs: S.Signatures)
    requires top == map["c" := S.Symbol(IntType, false, false), "g" := S.Symbol(IntType, false, false), "main" := S.Symbol(IntType, false, true)]
    requires fs == map["main" := []]
    ensures S.Analyze(top, fs, AgainMain()).Some?
  {
    var w, body := S.Walk(top, S.ParamNames([]), 0), AgainMain().body;
    assert body[1..] == [SetStmt(), AgainStmt()] && body[1..][1..] == [AgainStmt()] && [AgainStmt()][1..] == [];
    assert [Stmt.Return(Identifier("g"))][1..] == [];
    assert S.CheckBlock(fs, w, [Stmt.Return(Identifier("g"))]) == Some(w);
    assert S.CheckStmt(fs, w, GuardStmt()) == Some(w);
    assert S.CheckStmt(fs, w, SetStmt()) == Some(w);
    assert S.CheckStmt(fs, w, AgainStmt()) == Some(w);
    assert S.CheckBlock(fs, w, [AgainStmt()]) == Some(w);
    assert S.CheckBlock(fs, w, body[1..]) == Some(w);
  }

  /** Every premise of comparability but the last. */
  predicate ComparableButForMain(p: Program) {
    && S.Accepts(p) && |CodeOf(p, |p.functions|)| <= MAX_INSTRUCTIONS
    && (forall i :: 0 <= i < |p.functions| ==> OneShape(p.functions[i]))
    && (forall i :: 0 <= i < |p.globals| ==> p.globals[i].init.None? || p.globals[i].size.None?)
  }

  /** Entering `main` again runs compiled initializers again: both runs succeed, with different values. */
  lemma EnteringMainAgainShows()
    ensures var p := AgainProgram();
      && ComparableButForMain(p) && !InitFree(p.globals) && CallsMain(p) && !HitsLimit(p)
      && O.Run(p).success && O.Run(p).returnValue == 0
      && M.Run(Compile(p)).trap == NoTrap && M.Run(Compile(p)).returnValue == 1
  {
    hide S.Accepts, CodeOf, InfosOf, GlobalTable, MainId, M.Run, O.RunEffect, Decls, BlockCalls;
    AgainAnalyzed();
    AgainCompiled();
    AgainRuns();
    AgainOracle();
    AgainDeclares();
    AgainCallsMain();
    assert BlockCalls("main", AgainProgram().functions[0].body);
    assert AgainProgram().globals[1].init.Some?;
  }

  lemma AgainDeclares()
    ensures Decls(AgainMain().body) == []
  {
    var body := AgainMain().body;
    assert body[1..] == [SetStmt(), AgainStmt()] && body[1..][1..] == [AgainStmt()] && [AgainStmt()][1..] == [];
    assert [Stmt.Return(Identifier("g"))][1..] == [];
    assert Decls([AgainStmt()]) == [] && Decls(body[1..]) == [] && Decls([Stmt.Return(Identifier("g"))]) == [];
  }

  lemma AgainCallsMain()
    ensures BlockCalls("main", AgainMain().body)
  {
    var body := AgainMain().body;
    assert body[1..] == [SetStmt(), AgainStmt()] && body[1..][1..] == [AgainStmt()];
    assert StmtCalls("main", AgainStmt()) && BlockCalls("main", [AgainStmt()]) && BlockCalls("main", body[1..]);
  }

  // ---------------------------------------------------------------- one name, two shapes

  function ArrayBlock(): Stmt {
    If(BoolLiteral(true), [VarDecl(IntType, "x", None, Some(1))], NoElse)
  }

  function ScalarBlock(): Stmt {
    If(BoolLiteral(true), [VarDecl(IntType, "x", Some(IntLiteral(1)), None)], NoElse)
  }

  function TwoShapesMain(): Function {
    Function("main", [], [ArrayBlock(), ScalarBlock()])
  }

  /** `func main() { if (true) { int x[1]; } if (true) { int x = 1; } }` */
  function TwoShapesProgram(): Program {
    Program([], [TwoShapesMain()])
  }

  lemma TwoShapesAnalyzed()
    ensures S.Accepts(TwoShapesProgram())
  {
    var p := TwoShapesProgram();
    assert p.functions[..0] == [];
    assert S.CheckFunctions(map[], p.functions[..0]) == Some((map[], map[]));
    var top: S.Visible := map["main" := S.Symbol(IntType, false, true)];
    var fs: S.Signatures := map["main" := []];
    assert S.ParamTypes([]) == [];
    assert S.TopLevel(p) == Some((top, fs));
    var w := S.Walk(top, {}, 0);
    assert S.ParamNames([]) == {};
    var a, b := [VarDecl(IntType, "x", None, Some(1))], [VarDecl(IntType, "x", Some(IntLiteral(1)), None)];
    assert a[1..] == [] && b[1..] == [] && [ScalarBlock()][1..] == [];
    assert S.CheckBlock(fs, w, a).Some?;
    var w' := S.Walk(top, {"x"}, 1);
    assert w.names + {"x"} == {"x"};
    assert S.CheckStmt(fs, w, ArrayBlock()) == Some(w');
    assert S.CheckBlock(fs, w', b).Some?;
    assert S.CheckStmt(fs, w', ScalarBlock()).Some?;
    assert [ArrayBlock(), ScalarBlock()][1..] == [ScalarBlock()];
    assert S.CheckBlock(fs, w', [ScalarBlock()]).Some?;
  }

  lemma TrueHolds(st: O.State)
    requires st.cycles < MAX_CYCLES
    ensures O.Eval(TwoShapesProgram(), st, BoolLiteral(true)) == O.Eff(st.(cycles := st.cycles + 1), O.Ok(1))
  {
  }

  lemma OneIsOne(st: O.State)
    requires st.cycles < MAX_CYCLES
    ensures O.Eval(TwoShapesProgram(), st, IntLiteral(1)) == O.Eff(st.(cycles := st.cycles + 1), O.Ok(1))
  {
  }

  lemma DeclaresArray(st: O.State)
    requires st.frames == [map[]] && st.globals == map[] && st.cycles + 3 <= MAX_CYCLES
    ensures O.ExecStmt(TwoShapesProgram(), st, ArrayBlock())
         == O.Eff(st.(frames := [map["x" := O.Array([0])]], cycles := st.cycles + 3), O.Ok(O.Continue))
  {
    hide O.Eval, O.ExecWhile, O.ExecAssign;
    var p, a := TwoShapesProgram(), [VarDecl(IntType, "x", None, Some(1))];
    TrueHolds(st.(cycles := st.cycles + 1));
    var st2, st3 := st.(cycles := st.cycles + 2), st.(frames := [map["x" := O.Array([0])]], cycles := st.cycles + 3);
    ArrayDeclared(st2);
    assert a[1..] == [];
    assert O.ExecBlock(p, st2, a) == O.Eff(st3, O.Ok(O.Continue));
  }

  lemma ArrayDeclared(st: O.State)
    requires st.frames == [map[]] && st.globals == map[] && st.cycles < MAX_CYCLES
    ensures O.ExecStmt(TwoShapesProgram(), st, VarDecl(IntType, "x", None, Some(1)))
         == O.Eff(st.(frames := [map["x" := O.Array([0])]], cycles := st.cycles + 1), O.Ok(O.Continue))
  {
    hide O.Eval, O.ExecBlock;
    var empty: O.Scope := map[];
    assert O.Zeros(1) == [0];
    assert [empty][0 := empty["x" := O.Array([0])]] == [map["x" := O.Array([0])]];
  }

  lemma FindsArray(st: O.State)
    requires st.frames == [map["x" := O.Array([0])]] && st.cycles + 4 <= MAX_CYCLES
    ensures O.ExecStmt(TwoShapesProgram(), st, ScalarBlock()).res == O.Fail(InvalidInstruction, O.Elsewhere)
  {
    hide O.Eval, O.ExecWhile, O.ExecAssign, O.ExecDecl;
    var p, b := TwoShapesProgram(), [VarDecl(IntType, "x", Some(IntLiteral(1)), None)];
    TrueHolds(st.(cycles := st.cycles + 1));
    DeclaresScalar(st.(cycles := st.cycles + 3));
    assert O.ExecStmt(p, st.(cycles := st.cycles + 2), b[0]).res == O.Fail(InvalidInstruction, O.Elsewhere);
  }

  lemma DeclaresScalar(st: O.State)
    requires st.frames == [map["x" := O.Array([0])]] && st.cycles + 1 <= MAX_CYCLES
    ensures O.ExecDecl(TwoShapesProgram(), st, "x", Some(IntLiteral(1)), None).res == O.Fail(InvalidInstruction, O.Elsewhere)
  {
    hide O.Eval;
    OneIsOne(st);
  }

  lemma TwoShapesOracle()
    ensures O.Run(TwoShapesProgram()).trap == InvalidInstruction
  {
    hide O.ExecStmt;
    var p, body := TwoShapesProgram(), TwoShapesMain().body;
    assert O.FindFunction(p.functions, "main") == Some(0);
    assert O.BindParams([], []) == map[] && [] + [O.BindParams([], [])] == [map[]];
    var st := O.State(map[], [map[]], [], 1);
    DeclaresArray(st);
    FindsArray(O.State(map[], [map["x" := O.Array([0])]], [], 4));
    assert body[1..] == [ScalarBlock()];
    assert O.ExecBlock(p, O.State(map[], [map["x" := O.Array([0])]], [], 4), [ScalarBlock()]).res == O.Fail(InvalidInstruction, O.Elsewhere);
    assert O.ExecBlock(p, st, body).res == O.Fail(InvalidInstruction, O.Elsewhere);
    assert O.CallFunction(p, O.State(map[], [], [], 0), "main", []).res == O.Fail(InvalidInstruction, O.Elsewhere);
  }

  /** The analyzer accepts a name declared with two shapes in sibling blocks, and then the oracle does misuse it. */
  lemma TwoShapesShow()
    ensures var p := TwoShapesProgram();
      S.Accepts(p) && !OneShape(p.functions[0]) && O.Run(p).trap == InvalidInstruction
  {
    hide S.Accepts, O.Run;
    TwoShapesAnalyzed();
    TwoShapesOracle();
    var body := TwoShapesMain().body;
    assert body[1..] == [ScalarBlock()] && [ScalarBlock()][1..] == [];
    var a, b := VarDecl(IntType, "x", None, Some(1)), VarDecl(IntType, "x", Some(IntLiteral(1)), None);
    assert [a][1..] == [] && [b][1..] == [];
    assert Decls([a]) == [("x", Some(1 as I32))] && Decls([b]) == [("x", None)];
    assert Decls([ScalarBlock()]) == [("x", None)];
    assert Decls(body) == [("x", Some(1 as I32)), ("x", None)];
    assert Decls(body)[0] in Decls(body) && Decls(body)[1] in Decls(body);
  }
}
