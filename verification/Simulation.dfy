/**
 * How a state of the oracle and a state of the machine correspond while compiled code runs,
 * and what one machine instruction does to a run.
 */
module Simulation {
  import opened Common
  import opened Int32
  import opened Limits
  import opened Ast
  import opened Bytecode
  import opened CodeGen
  import O = Oracle
  import M = Machine
  import S = Sema

  // ---------------------------------------------------------------- runs

  /** Runs that end in a resource limit are outside the comparison. */
  predicate IsLimit(code: TrapCode) {
    code == CycleLimit || code == StackOverflow
  }

  predicate Cut(c: CompiledProgram, s: M.State) {
    IsLimit(M.RunFrom(c, s).trap)
  }

  /** The run from s is the run from s', unless it hits a limit on the way. */
  predicate Goes(c: CompiledProgram, s: M.State, s': M.State) {
    Cut(c, s) || M.RunFrom(c, s) == M.RunFrom(c, s')
  }

  /** A machine result shows the trap the oracle raised, except after a store whose value would have been observable. */
  predicate ShowsTrap(v: M.Result, code: TrapCode, site: O.Site, output: seq<int>) {
    && !v.success && v.returnValue == 0 && output <= v.output
    && ((v.trap == code && v.output == output) <==> site != O.BeforeStoredValue(O.Observable))
  }

  predicate OverLimit(code: TrapCode, site: O.Site) {
    IsLimit(code) || site == O.BeforeStoredValue(O.OverLimit)
  }

  predicate Fails(c: CompiledProgram, s: M.State, code: TrapCode, site: O.Site, output: seq<int>) {
    Cut(c, s) || OverLimit(code, site) || ShowsTrap(M.RunFrom(c, s), code, site, output)
  }

  function Tock(s: M.State): M.State {
    s.(cycles := s.cycles + 1)
  }

  // ---------------------------------------------------------------- code in place

  predicate CodeAt(c: CompiledProgram, pc: nat, code: seq<Instruction>) {
    pc + |code| <= |c.instructions| && c.instructions[pc..pc + |code|] == code
  }

  lemma CodeSplit(c: CompiledProgram, pc: nat, a: seq<Instruction>, b: seq<Instruction>)
    requires CodeAt(c, pc, a + b)
    ensures CodeAt(c, pc, a) && CodeAt(c, pc + |a|, b)
  {
    var whole := c.instructions[pc..pc + |a + b|];
    assert c.instructions[pc..pc + |a|] == whole[..|a|] == a;
    assert c.instructions[pc + |a|..pc + |a| + |b|] == whole[|a|..] == b;
  }

  lemma CodeIndex(c: CompiledProgram, pc: nat, code: seq<Instruction>, i: nat)
    requires CodeAt(c, pc, code) && i < |code|
    ensures pc + i < |c.instructions| && c.instructions[pc + i] == code[i]
  {
    assert c.instructions[pc..pc + |code|][i] == code[i];
  }

  // ---------------------------------------------------------------- one turn

  /** The machine's next instruction does e. */
  predicate Runs(c: CompiledProgram, s: M.State, e: M.Step) {
    s.pc < |c.instructions| && M.Exec(c, c.instructions[s.pc], Tock(s)) == e
  }

  lemma Advances(c: CompiledProgram, s: M.State, e: M.Step, x: M.State)
    requires Runs(c, s, e) && x.calls != [] && x.cycles == s.cycles + 1
    requires e == M.Advance(x) || (e.Trapped? && e.code == StackOverflow)
    ensures Goes(c, s, x.(pc := x.pc + 1))
  {
    hide M.Exec;
  }

  lemma Jumps(c: CompiledProgram, s: M.State, e: M.Step, x: M.State)
    requires Runs(c, s, e) && x.calls != [] && x.cycles == s.cycles + 1
    requires e == M.Jumped(x) || (e.Trapped? && e.code == StackOverflow)
    ensures Goes(c, s, x)
  {
    hide M.Exec;
  }

  lemma Stops(c: CompiledProgram, s: M.State, e: M.Step)
    requires Runs(c, s, e) && e.Trapped?
    ensures Fails(c, s, e.code, O.Elsewhere, s.output)
  {
    hide M.Exec;
  }

  lemma Overflows(c: CompiledProgram, s: M.State, e: M.Step)
    requires Runs(c, s, e) && e.Trapped? && IsLimit(e.code)
    ensures Cut(c, s)
  {
    hide M.Exec;
  }

  lemma FetchConst(c: CompiledProgram, s: M.State, v: I32)
    requires CodeAt(c, s.pc, [Ins(LoadConst, v, 0)])
    ensures Runs(c, s, M.Push(Tock(s), v))
  {
    CodeIndex(c, s.pc, [Ins(LoadConst, v, 0)], 0);
  }

  lemma FetchLoadLocal(c: CompiledProgram, s: M.State, slot: nat)
    requires slot <= I32_MAX && CodeAt(c, s.pc, [Ins(LoadLocal, slot, 0)])
    ensures Runs(c, s, M.LoadLocal(c, Tock(s), slot))
  {
    CodeIndex(c, s.pc, [Ins(LoadLocal, slot, 0)], 0);
  }

  lemma FetchStoreLocal(c: CompiledProgram, s: M.State, slot: nat)
    requires slot <= I32_MAX && CodeAt(c, s.pc, [Ins(StoreLocal, slot, 0)])
    ensures Runs(c, s, M.StoreLocal(c, Tock(s), slot))
  {
    CodeIndex(c, s.pc, [Ins(StoreLocal, slot, 0)], 0);
  }

  lemma FetchLoadGlobal(c: CompiledProgram, s: M.State, slot: nat)
    requires slot <= I32_MAX && CodeAt(c, s.pc, [Ins(LoadGlobal, slot, 0)])
    ensures Runs(c, s, M.LoadGlobal(Tock(s), slot))
  {
    CodeIndex(c, s.pc, [Ins(LoadGlobal, slot, 0)], 0);
  }

  lemma FetchStoreGlobal(c: CompiledProgram, s: M.State, slot: nat)
    requires slot <= I32_MAX && CodeAt(c, s.pc, [Ins(StoreGlobal, slot, 0)])
    ensures Runs(c, s, M.StoreGlobal(Tock(s), slot))
  {
    CodeIndex(c, s.pc, [Ins(StoreGlobal, slot, 0)], 0);
  }

  lemma FetchArrayLoad(c: CompiledProgram, s: M.State, slot: nat, size: nat)
    requires slot <= I32_MAX && size <= I32_MAX && CodeAt(c, s.pc, [Ins(ArrayLoad, slot, size)])
    ensures Runs(c, s, M.ArrayLoad(Tock(s), slot, size))
  {
    CodeIndex(c, s.pc, [Ins(ArrayLoad, slot, size)], 0);
  }

  lemma FetchArrayStore(c: CompiledProgram, s: M.State, slot: nat, size: nat)
    requires slot <= I32_MAX && size <= I32_MAX && CodeAt(c, s.pc, [Ins(ArrayStore, slot, size)])
    ensures Runs(c, s, M.ArrayStore(Tock(s), slot, size))
  {
    CodeIndex(c, s.pc, [Ins(ArrayStore, slot, size)], 0);
  }

  lemma FetchLocalArrayLoad(c: CompiledProgram, s: M.State, slot: nat, size: nat)
    requires slot <= I32_MAX && size <= I32_MAX && CodeAt(c, s.pc, [Ins(LocalArrayLoad, slot, size)])
    ensures Runs(c, s, M.LocalArrayLoad(c, Tock(s), slot, size))
  {
    CodeIndex(c, s.pc, [Ins(LocalArrayLoad, slot, size)], 0);
  }

  lemma FetchLocalArrayStore(c: CompiledProgram, s: M.State, slot: nat, size: nat)
    requires slot <= I32_MAX && size <= I32_MAX && CodeAt(c, s.pc, [Ins(LocalArrayStore, slot, size)])
    ensures Runs(c, s, M.LocalArrayStore(c, Tock(s), slot, size))
  {
    CodeIndex(c, s.pc, [Ins(LocalArrayStore, slot, size)], 0);
  }

  lemma FetchAllocArray(c: CompiledProgram, s: M.State, size: nat)
    requires size <= I32_MAX && CodeAt(c, s.pc, [Ins(AllocArray, size, 0)])
    ensures Runs(c, s, M.AllocArray(Tock(s), size))
  {
    CodeIndex(c, s.pc, [Ins(AllocArray, size, 0)], 0);
  }

  lemma FetchBinary(c: CompiledProgram, s: M.State, op: BinaryOp)
    requires op != BinaryOp.And && op != BinaryOp.Or && CodeAt(c, s.pc, [Simple(BinaryOpcode(op))])
    ensures Runs(c, s, M.ExecBinary(BinaryOpcode(op), Tock(s)))
  {
    CodeIndex(c, s.pc, [Simple(BinaryOpcode(op))], 0);
  }

  lemma FetchUnary(c: CompiledProgram, s: M.State, op: UnaryOp)
    requires CodeAt(c, s.pc, [Simple(UnaryOpcode(op))])
    ensures Runs(c, s, M.ExecUnary(UnaryOpcode(op), Tock(s)))
  {
    CodeIndex(c, s.pc, [Simple(UnaryOpcode(op))], 0);
  }

  lemma FetchJump(c: CompiledProgram, s: M.State, target: nat)
    requires target <= I32_MAX && CodeAt(c, s.pc, [Ins(Jump, target, 0)])
    ensures Runs(c, s, M.Jumped(Tock(s).(pc := target)))
  {
    CodeIndex(c, s.pc, [Ins(Jump, target, 0)], 0);
  }

  lemma FetchBranch(c: CompiledProgram, s: M.State, jump: Opcode, target: nat)
    requires target <= I32_MAX && (jump == JumpIfFalse || jump == JumpIfTrue) && CodeAt(c, s.pc, [Ins(jump, target, 0)])
    ensures Runs(c, s, M.Branch(Tock(s), target, jump == JumpIfFalse))
  {
    CodeIndex(c, s.pc, [Ins(jump, target, 0)], 0);
  }

  lemma FetchCall(c: CompiledProgram, s: M.State, id: nat, count: nat)
    requires id <= I32_MAX && count <= I32_MAX && CodeAt(c, s.pc, [Ins(Opcode.Call, id, count)])
    ensures Runs(c, s, M.ExecCall(c, Tock(s), id, count))
  {
    CodeIndex(c, s.pc, [Ins(Opcode.Call, id, count)], 0);
  }

  lemma FetchReturn(c: CompiledProgram, s: M.State)
    requires CodeAt(c, s.pc, [Simple(Opcode.Return)])
    ensures Runs(c, s, M.ExecReturn(Tock(s)))
  {
    CodeIndex(c, s.pc, [Simple(Opcode.Return)], 0);
  }

  lemma FetchPop(c: CompiledProgram, s: M.State)
    requires CodeAt(c, s.pc, [Simple(Pop)])
    ensures Runs(c, s, if s.stack == [] then M.Trapped(StackUnderflow, 0) else M.Advance(M.Drop(Tock(s), 1)))
  {
    CodeIndex(c, s.pc, [Simple(Pop)], 0);
  }

  lemma FetchPrint(c: CompiledProgram, s: M.State)
    requires CodeAt(c, s.pc, [Simple(Opcode.Print)])
    ensures Runs(c, s, if s.stack == [] then M.Trapped(StackUnderflow, 0)
                   else M.Advance(M.Drop(Tock(s), 1).(output := s.output + [M.Top(s)])))
  {
    CodeIndex(c, s.pc, [Simple(Opcode.Print)], 0);
  }

  // ---------------------------------------------------------------- static facts

  ghost predicate Injective(locals: map<string, LocalVar>) {
    forall x, y :: x in locals && y in locals && x != y ==> locals[x].slot != locals[y].slot
  }

  ghost predicate TableOk(t: Table) {
    && Injective(t.locals)
    && forall x :: x in t.locals ==>
        && t.locals[x].slot < t.next
        && t.locals[x].arraySize <= I32_MAX
        && (t.locals[x].isArray <==> t.locals[x].arraySize > 0)
  }

  /** Global storage: positive widths inside the 256 slots, pairwise disjoint. */
  ghost predicate LayoutOk(globals: map<string, GlobalInfo>) {
    && (forall x :: x in globals ==>
          && globals[x].slot + M.GlobalWidth(globals[x]) <= MAX_GLOBAL_SLOTS
          && (globals[x].isArray <==> globals[x].arraySize > 0))
    && forall x, y :: x in globals && y in globals && x != y ==>
          || globals[x].slot + M.GlobalWidth(globals[x]) <= globals[y].slot
          || globals[y].slot + M.GlobalWidth(globals[y]) <= globals[x].slot
  }

  predicate InitFree(globals: seq<GlobalVar>) {
    forall i :: 0 <= i < |globals| ==> globals[i].init.None?
  }

  predicate Calls(name: string, e: Expr)
    decreases e, 0
  {
    match e
    case Binary(_, left, right) => Calls(name, left) || Calls(name, right)
    case Unary(_, operand) => Calls(name, operand)
    case Call(callee, args) => callee == name || ArgsCall(name, args)
    case ArrayIndex(_, index) => Calls(name, index)
    case _ => false
  }

  predicate ArgsCall(name: string, args: seq<Expr>)
    decreases args, 0
  {
    args != [] && (Calls(name, args[0]) || ArgsCall(name, args[1..]))
  }

  predicate StmtCalls(name: string, s: Stmt)
    decreases s, 0
  {
    match s
    case VarDecl(_, _, init, _) => init.Some? && Calls(name, init.value)
    case Assign(_, index, value) => (index.Some? && Calls(name, index.value)) || Calls(name, value)
    case If(condition, thenBody, elseBody) =>
      Calls(name, condition) || BlockCalls(name, thenBody) || (elseBody.Else? && BlockCalls(name, elseBody.body))
    case While(condition, body) => Calls(name, condition) || BlockCalls(name, body)
    case Return(value) => Calls(name, value)
    case Print(value) => Calls(name, value)
    case ExprStmt(e) => Calls(name, e)
  }

  predicate BlockCalls(name: string, stmts: seq<Stmt>)
    decreases stmts, 0
  {
    stmts != [] && (StmtCalls(name, stmts[0]) || BlockCalls(name, stmts[1..]))
  }

  /** Every declaration in the statements has the shape its table entry was made with. */
  predicate StmtShapes(full: Table, s: Stmt)
    decreases s, 0
  {
    match s
    case VarDecl(_, name, _, size) =>
      name in full.locals && full.locals[name].isArray == size.Some?
      && (size.Some? ==> full.locals[name].arraySize == AsUsize(size.value))
    case If(_, thenBody, elseBody) => BlockShapes(full, thenBody) && (elseBody.Else? ==> BlockShapes(full, elseBody.body))
    case While(_, body) => BlockShapes(full, body)
    case _ => true
  }

  predicate BlockShapes(full: Table, stmts: seq<Stmt>)
    decreases stmts, 0
  {
    stmts == [] || (StmtShapes(full, stmts[0]) && BlockShapes(full, stmts[1..]))
  }

  ghost predicate Extends(small: map<string, LocalVar>, big: map<string, LocalVar>) {
    forall x :: x in small ==> x in big && small[x] == big[x]
  }

  // A program with its code, and what the analyzer learned about its top level.
  datatype Link = Link(p: Program, c: CompiledProgram, n: Names, top: S.Visible, fs: S.Signatures)

  ghost predicate FunctionLinked(x: Link, i: nat)
    requires i < |x.p.functions|
  {
    var f := x.p.functions[i];
    var full := LocalTable(f);
    && i in x.c.functions
    && x.c.functions[i].id == i
    && x.c.functions[i].paramCount == |f.params|
    && x.c.functions[i].localCount == full.next
    && CodeAt(x.c, x.c.functions[i].entryPc, FunctionCode(x.p, f, x.c.functions[i].entryPc))
    && TableOk(full)
    && BlockShapes(full, f.body)
    && (forall y :: y in full.locals ==> y !in x.n.globals)
    && S.Analyze(x.top, x.fs, f).Some?
    && (InitFree(x.p.globals) || !BlockCalls("main", f.body))
  }

  ghost predicate SignatureLinked(x: Link, name: string)
    requires name in x.fs
  {
    && name in x.n.funcs
    && x.n.funcs[name] < |x.p.functions|
    && x.n.funcs[name] <= I32_MAX
    && O.FindFunction(x.p.functions, name) == Some(x.n.funcs[name])
    && |x.fs[name]| == |x.p.functions[x.n.funcs[name]].params|
    && |x.fs[name]| <= I32_MAX
  }

  ghost predicate Linked(x: Link) {
    && x.n == NamesOf(x.p)
    && |x.c.instructions| <= MAX_INSTRUCTIONS
    && LayoutOk(x.n.globals)
    && (forall i :: 0 <= i < |x.p.functions| ==> FunctionLinked(x, i))
    && (forall name :: name in x.fs ==> SignatureLinked(x, name))
    && (forall y :: y in x.top && x.top[y].isFunction ==> !x.top[y].isArray)
    && (forall y :: y in x.top && !x.top[y].isFunction ==> y in x.n.globals && x.n.globals[y].isArray == x.top[y].isArray)
  }

  // ---------------------------------------------------------------- states

  // One activation: its complete table of locals, the first slot of its window, and where the
  // array storage began when it was entered. Cells below `base`, and array cells below `floor`,
  // belong to its callers.
  datatype Act = Act(full: Table, base: nat, floor: nat)

  predicate AllI32(values: seq<int>) {
    forall i :: 0 <= i < |values| ==> IsI32(values[i])
  }

  /** An array lies in the cells from `at` on. */
  predicate Holds(cells: seq<int>, at: nat, values: seq<int>) {
    && AllI32(values)
    && at + |values| <= |cells|
    && forall i :: 0 <= i < |values| ==> cells[at + i] == values[i]
  }

  predicate GlobalMatches(g: GlobalInfo, slot: O.Slot, cells: seq<int>) {
    g.slot + M.GlobalWidth(g) <= |cells| &&
    match slot
    case Scalar(Some(v)) => !g.isArray && IsI32(v) && cells[g.slot] == v
    case Scalar(None) => false
    case Array(values) => g.isArray && |values| == g.arraySize > 0 && Holds(cells, g.slot, values)
  }

  ghost predicate GlobalsMatch(globals: map<string, GlobalInfo>, og: O.Scope, cells: seq<int>) {
    && |cells| == MAX_GLOBAL_SLOTS
    && og.Keys == globals.Keys
    && forall x :: x in globals ==> GlobalMatches(globals[x], og[x], cells)
  }

  predicate LocalMatches(v: LocalVar, scope: O.Scope, name: string, cells: seq<int>, base: nat, floor: nat) {
    base + v.slot < |cells| &&
    var cell := cells[base + v.slot];
    if name !in scope then cell == I64_MIN
    else match scope[name]
      case Scalar(None) => !v.isArray && cell == I64_MIN
      case Scalar(Some(w)) => !v.isArray && IsI32(w) && cell == w
      case Array(values) =>
        v.isArray && |values| == v.arraySize && floor <= cell && Holds(cells, cell, values)
  }

  predicate ApartCells(v: LocalVar, w: LocalVar, cells: seq<int>, base: nat) {
    base + v.slot < |cells| && base + w.slot < |cells| ==>
      || cells[base + v.slot] + v.arraySize <= cells[base + w.slot]
      || cells[base + w.slot] + w.arraySize <= cells[base + v.slot]
  }

  /** The arrays of different locals do not overlap. */
  ghost predicate Apart(full: Table, scope: O.Scope, cells: seq<int>, base: nat) {
    forall x, y :: x in full.locals && y in full.locals && x != y && x in scope && y in scope
                   && full.locals[x].isArray && full.locals[y].isArray ==>
      ApartCells(full.locals[x], full.locals[y], cells, base)
  }

  ghost predicate ScopeMatches(a: Act, scope: O.Scope, cells: seq<int>) {
    && TableOk(a.full)
    && a.base + a.full.next <= MAX_LOCAL_SLOTS <= a.floor <= |cells|
    && (forall x :: x in scope ==> x in a.full.locals)
    && (forall x :: x in a.full.locals ==> LocalMatches(a.full.locals[x], scope, x, cells, a.base, a.floor))
    && Apart(a.full, scope, cells, a.base)
  }

  ghost predicate InFrame(x: Link, a: Act, s: M.State) {
    && s.calls != []
    && var frame := M.CurrentFrame(s);
       frame.basePtr == a.base && frame.funcId in x.c.functions && x.c.functions[frame.funcId].localCount == a.full.next
  }

  ghost predicate Match(x: Link, a: Act, st: O.State, s: M.State) {
    && s.output == st.output
    && GlobalsMatch(x.n.globals, st.globals, s.globals)
    && ScopeMatches(a, O.Top(st), s.locals)
    && InFrame(x, a, s)
  }

  /** Callers' cells keep their contents. */
  predicate Spares(a: Act, cells: seq<int>, cells': seq<int>) {
    && a.floor <= |cells| <= |cells'|
    && (forall i :: 0 <= i < a.base && i < |cells| ==> cells'[i] == cells[i])
    && (forall i :: MAX_LOCAL_SLOTS <= i < a.floor ==> cells'[i] == cells[i])
  }

  /** What the analyzer sees is what the compiler and the oracle find. */
  ghost predicate Sees(x: Link, a: Act, t: Table, vis: S.Visible, scope: O.Scope) {
    && Extends(t.locals, a.full.locals)
    && (forall y :: y in a.full.locals ==> y !in x.n.globals)
    && (forall y :: y in vis && vis[y].isFunction ==> !vis[y].isArray)
    && forall y :: y in vis && !vis[y].isFunction ==>
        if y in x.n.globals then x.n.globals[y].isArray == vis[y].isArray
        else y in t.locals && y in scope && t.locals[y].isArray == vis[y].isArray
  }
}
