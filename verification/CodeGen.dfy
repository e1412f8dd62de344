/** What the compiler emits, as a function of the source. The Compiler class is proved to build exactly this. */
module CodeGen {
  import opened Common
  import opened Int32
  import opened Ast
  import B = Bytecode
  import opened Bytecode

  datatype LocalVar = LocalVar(slot: nat, isArray: bool, arraySize: nat)

  // The name tables that stay fixed while function bodies are compiled.
  datatype Names = Names(globals: map<string, GlobalInfo>, funcs: map<string, nat>)

  // The locals known so far in the current function, and the next free slot.
  datatype Table = Table(locals: map<string, LocalVar>, next: nat)

  function Ins(op: Opcode, arg1: int, arg2: int): Instruction {
    Instruction(op, NormalizeI32(arg1), NormalizeI32(arg2))
  }

  function Simple(op: Opcode): Instruction {
    Ins(op, 0, 0)
  }

  function BinaryOpcode(op: BinaryOp): Opcode
    requires op != BinaryOp.And && op != BinaryOp.Or
  {
    match op
    case Add => Opcode.Add
    case Sub => Opcode.Sub
    case Mul => Opcode.Mul
    case Div => Opcode.Div
    case Eq => Opcode.Eq
    case Ne => Opcode.Ne
    case Lt => Opcode.Lt
    case Gt => Opcode.Gt
    case Le => Opcode.Le
    case Ge => Opcode.Ge
  }

  function UnaryOpcode(op: UnaryOp): Opcode {
    match op
    case Neg => Opcode.Neg
    case Not => Opcode.Not
  }

  // ---------------------------------------------------------------- expressions

  function ReadCode(n: Names, t: Table, name: string): seq<Instruction> {
    if name in t.locals then [Ins(LoadLocal, t.locals[name].slot, 0)]
    else if name in n.globals then [Ins(LoadGlobal, n.globals[name].slot, 0)]
    else []
  }

  function IndexCode(n: Names, t: Table, name: string): seq<Instruction> {
    if name in t.locals then [Ins(LocalArrayLoad, t.locals[name].slot, t.locals[name].arraySize)]
    else if name in n.globals then [Ins(ArrayLoad, n.globals[name].slot, n.globals[name].arraySize)]
    else []
  }

  predicate IsShort(op: BinaryOp) {
    op == BinaryOp.And || op == BinaryOp.Or
  }

  /** The jump that leaves a short circuit early, and the result it then has. */
  function ShortJump(op: BinaryOp): (jump: Opcode)
    ensures jump == JumpIfFalse || jump == JumpIfTrue
    ensures jump == JumpIfFalse <==> op == BinaryOp.And
  {
    if op == BinaryOp.And then JumpIfFalse else JumpIfTrue
  }

  function ShortResult(op: BinaryOp): I32 {
    if op == BinaryOp.And then 0 else 1
  }

  /** Short-circuit code: the left value decides whether the right one runs; `short` is the result when it does not. */
  function ShortCode(jump: Opcode, short: int, pc: nat, left: seq<Instruction>, right: seq<Instruction>): seq<Instruction> {
    var shortPc := pc + |left| + 1 + |right| + 3;
    left + [Ins(jump, shortPc, 0)] + right
    + [Ins(LoadConst, 0, 0), Simple(Opcode.Ne), Ins(Jump, shortPc + 1, 0), Ins(LoadConst, short, 0)]
  }

  function ExprCode(n: Names, t: Table, pc: nat, e: Expr): seq<Instruction>
    decreases e, 0
  {
    match e
    case IntLiteral(v) => [Ins(LoadConst, v, 0)]
    case BoolLiteral(b) => [Ins(LoadConst, BoolValue(b), 0)]
    case Identifier(name) => ReadCode(n, t, name)
    case Binary(op, left, right) =>
      var l := ExprCode(n, t, pc, left);
      if IsShort(op) then ShortCode(ShortJump(op), ShortResult(op), pc, l, ExprCode(n, t, pc + |l| + 1, right))
      else l + ExprCode(n, t, pc + |l|, right) + [Simple(BinaryOpcode(op))]
    case Unary(op, operand) => ExprCode(n, t, pc, operand) + [Simple(UnaryOpcode(op))]
    case Call(name, args) => ArgsCode(n, t, pc, args) + [CallIns(n, name, |args|)]
    case ArrayIndex(name, index) => ExprCode(n, t, pc, index) + IndexCode(n, t, name)
  }

  // A call of a name that is not registered has no code; the compiler's methods require the name to be there.
  function CallIns(n: Names, name: string, count: nat): Instruction {
    Ins(Opcode.Call, if name in n.funcs then n.funcs[name] else 0, count)
  }

  function ArgsCode(n: Names, t: Table, pc: nat, args: seq<Expr>): seq<Instruction>
    decreases args, 0
  {
    if args == [] then []
    else
      var first := ExprCode(n, t, pc, args[0]);
      first + ArgsCode(n, t, pc + |first|, args[1..])
  }

  // ---------------------------------------------------------------- local tables

  function Declare(t: Table, name: string, size: Option<I32>): Table {
    if name in t.locals then t
    else Table(t.locals[name := LocalVar(t.next, size.Some?, if size.Some? then AsUsize(size.value) else 0)], t.next + 1)
  }

  function CollectStmt(t: Table, s: Stmt): Table
    decreases s, 0
  {
    match s
    case VarDecl(_, name, _, size) => Declare(t, name, size)
    case If(_, thenBody, elseBody) =>
      var t1 := CollectBlock(t, thenBody);
      if elseBody.Else? then CollectBlock(t1, elseBody.body) else t1
    case While(_, body) => CollectBlock(t, body)
    case _ => t
  }

  function CollectBlock(t: Table, stmts: seq<Stmt>): Table
    decreases stmts, 0
  {
    if stmts == [] then t else CollectBlock(CollectStmt(t, stmts[0]), stmts[1..])
  }

  function ParamTable(params: seq<Param>): (t: Table)
    ensures t.next == |params|
  {
    if params == [] then Table(map[], 0)
    else
      var m := |params| - 1;
      var t := ParamTable(params[..m]);
      Table(t.locals[params[m].name := LocalVar(t.next, false, 0)], t.next + 1)
  }

  // ---------------------------------------------------------------- statements

  function StoreCode(n: Names, t: Table, name: string): seq<Instruction> {
    if name in t.locals then [Ins(StoreLocal, t.locals[name].slot, 0)]
    else if name in n.globals then [Ins(StoreGlobal, n.globals[name].slot, 0)]
    else []
  }

  function StoreElementCode(n: Names, t: Table, name: string): seq<Instruction> {
    if name in t.locals then [Ins(LocalArrayStore, t.locals[name].slot, t.locals[name].arraySize)]
    else if name in n.globals then [Ins(ArrayStore, n.globals[name].slot, n.globals[name].arraySize)]
    else []
  }

  function AssignCode(n: Names, t: Table, pc: nat, target: string, index: Option<Expr>, value: Expr): seq<Instruction> {
    if target !in t.locals && target !in n.globals then []
    else if index.Some? then
      var i := ExprCode(n, t, pc, index.value);
      i + ExprCode(n, t, pc + |i|, value) + StoreElementCode(n, t, target)
    else
      ExprCode(n, t, pc, value) + StoreCode(n, t, target)
  }

  function DeclCode(n: Names, t: Table, pc: nat, name: string, init: Option<Expr>): seq<Instruction>
    requires name in t.locals
  {
    var local := t.locals[name];
    if local.isArray then [Ins(AllocArray, local.arraySize, 0), Ins(StoreLocal, local.slot, 0)]
    else if init.Some? then ExprCode(n, t, pc, init.value) + [Ins(StoreLocal, local.slot, 0)]
    else []
  }

  function StmtCode(n: Names, t: Table, pc: nat, s: Stmt): seq<Instruction>
    decreases s, 0
  {
    match s
    case VarDecl(_, name, init, size) => DeclCode(n, Declare(t, name, size), pc, name, init)
    case Assign(target, index, value) => AssignCode(n, t, pc, target, index, value)
    case If(condition, thenBody, elseBody) =>
      var c := ExprCode(n, t, pc, condition);
      var thn := BlockCode(n, t, pc + |c| + 1, thenBody);
      var elsePc := pc + |c| + 1 + |thn|;
      if elseBody.NoElse? then c + [Ins(JumpIfFalse, elsePc, 0)] + thn
      else
        var els := BlockCode(n, CollectBlock(t, thenBody), elsePc + 1, elseBody.body);
        c + [Ins(JumpIfFalse, elsePc + 1, 0)] + thn + [Ins(Jump, elsePc + 1 + |els|, 0)] + els
    case While(condition, body) =>
      var c := ExprCode(n, t, pc, condition);
      var b := BlockCode(n, t, pc + |c| + 1, body);
      c + [Ins(JumpIfFalse, pc + |c| + 1 + |b| + 1, 0)] + b + [Ins(Jump, pc, 0)]
    case Return(value) => ExprCode(n, t, pc, value) + [Simple(Opcode.Return)]
    case Print(value) => ExprCode(n, t, pc, value) + [Simple(Opcode.Print)]
    case ExprStmt(e) => ExprCode(n, t, pc, e) + [Simple(Pop)]
  }

  function BlockCode(n: Names, t: Table, pc: nat, stmts: seq<Stmt>): seq<Instruction>
    decreases stmts, 0
  {
    if stmts == [] then []
    else
      var first := StmtCode(n, t, pc, stmts[0]);
      first + BlockCode(n, CollectStmt(t, stmts[0]), pc + |first|, stmts[1..])
  }

  // ---------------------------------------------------------------- functions and programs

  /** Global tables: slots are handed out in declaration order. */
  function GlobalSlots(globals: seq<GlobalVar>): nat {
    if globals == [] then 0
    else
      var g := globals[|globals| - 1];
      GlobalSlots(globals[..|globals| - 1]) + (if g.size.Some? then AsUsize(g.size.value) else 1)
  }

  function GlobalTable(globals: seq<GlobalVar>): map<string, GlobalInfo> {
    if globals == [] then map[]
    else
      var m := |globals| - 1;
      var g := globals[m];
      GlobalTable(globals[..m])[g.name :=
        GlobalInfo(g.name, GlobalSlots(globals[..m]), g.size.Some?, if g.size.Some? then AsUsize(g.size.value) else 0)]
  }

  function FunctionIds(functions: seq<Function>): map<string, nat> {
    if functions == [] then map[]
    else FunctionIds(functions[..|functions| - 1])[functions[|functions| - 1].name := |functions| - 1]
  }

  function MainId(functions: seq<Function>): Option<nat> {
    if functions == [] then None
    else if functions[|functions| - 1].name == "main" then Some(|functions| - 1)
    else MainId(functions[..|functions| - 1])
  }

  function NamesOf(p: Program): Names {
    Names(GlobalTable(p.globals), FunctionIds(p.functions))
  }

  /** The global initializers, compiled in front of `main`'s body. */
  function InitCode(n: Names, t: Table, pc: nat, globals: seq<GlobalVar>): seq<Instruction>
    decreases |globals|
  {
    if globals == [] then []
    else if globals[0].init.None? then InitCode(n, t, pc, globals[1..])
    else
      var slot := if globals[0].name in n.globals then n.globals[globals[0].name].slot else 0;
      var first := ExprCode(n, t, pc, globals[0].init.value) + [Ins(StoreGlobal, slot, 0)];
      first + InitCode(n, t, pc + |first|, globals[1..])
  }

  function PrefixCode(p: Program, f: Function, pc: nat): seq<Instruction> {
    if f.name == "main" then InitCode(NamesOf(p), ParamTable(f.params), pc, p.globals) else []
  }

  function FunctionCode(p: Program, f: Function, pc: nat): seq<Instruction> {
    var prefix := PrefixCode(p, f, pc);
    prefix + BlockCode(NamesOf(p), ParamTable(f.params), pc + |prefix|, f.body)
    + [Ins(LoadConst, 0, 0), Simple(Opcode.Return)]
  }

  function LocalTable(f: Function): Table {
    CollectBlock(ParamTable(f.params), f.body)
  }

  /** The code of the first k functions. */
  function CodeOf(p: Program, k: nat): seq<Instruction>
    requires k <= |p.functions|
  {
    if k == 0 then []
    else CodeOf(p, k - 1) + FunctionCode(p, p.functions[k - 1], |CodeOf(p, k - 1)|)
  }

  function IdOf(p: Program, name: string): nat {
    var ids := FunctionIds(p.functions);
    if name in ids then ids[name] else 0
  }

  function InfosOf(p: Program, k: nat): map<nat, FunctionInfo>
    requires k <= |p.functions|
  {
    if k == 0 then map[]
    else
      var f := p.functions[k - 1];
      var id := IdOf(p, f.name);
      InfosOf(p, k - 1)[id := FunctionInfo(f.name, id, |CodeOf(p, k - 1)|, |f.params|, LocalTable(f).next)]
  }

  function Compile(p: Program): CompiledProgram {
    var main := MainId(p.functions);
    CompiledProgram(
      CodeOf(p, |p.functions|),
      InfosOf(p, |p.functions|),
      GlobalTable(p.globals),
      if main.Some? then main.value else 0)
  }
}
