/**
 * The reference stack machine. Its instructions are total: an index past the end of a vector or a return with no frame,
 * which no verified program reaches, traps with InvalidInstruction here.
 */
module Machine {
  import opened Common
  import opened Int32
  import opened Limits
  import opened Bytecode

  // A frame with no return address is the one that runs `main`.
  datatype Frame = Frame(returnPc: Option<nat>, basePtr: nat, funcId: nat)

  datatype State = State(
    stack: seq<int>,
    locals: seq<int>,
    globals: seq<int>,
    calls: seq<Frame>,
    pc: nat,
    cycles: nat,
    output: seq<int>)

  // Advance: the run loop moves to the next instruction. Jumped: pc is already set.
  // Trapped keeps the operand stack depth at the moment of the trap.
  datatype Step = Advance(st: State) | Jumped(st: State) | Trapped(code: TrapCode, depth: nat)

  datatype Result = Result(
    success: bool, returnValue: int, trap: TrapCode,
    cycles: nat, output: seq<int>, pc: nat, stackDepth: nat, frameDepth: nat)

  // ---------------------------------------------------------------- addressing

  datatype Slot = At(slot: nat) | Bad(code: TrapCode)

  function CurrentFrame(st: State): Frame
    requires st.calls != []
  {
    st.calls[|st.calls| - 1]
  }

  function LocalSlot(p: CompiledProgram, st: State, raw: int): (r: Slot)
    ensures r.At? ==> r.slot < MAX_LOCAL_SLOTS
  {
    if raw < 0 || st.calls == [] then Bad(InvalidInstruction)
    else
      var frame := CurrentFrame(st);
      if frame.funcId !in p.functions then Bad(UndefinedFunction)
      else if raw >= p.functions[frame.funcId].localCount then Bad(InvalidInstruction)
      else if frame.basePtr + raw >= MAX_LOCAL_SLOTS then Bad(StackOverflow)
      else At(frame.basePtr + raw)
  }

  function GlobalSlot(st: State, raw: int): (r: Slot)
    ensures r.At? ==> r.slot < |st.globals|
  {
    if raw < 0 || raw >= |st.globals| then Bad(InvalidInstruction) else At(raw)
  }

  /** The first slot of a global array, when the whole range fits. */
  function GlobalArrayBase(st: State, rawBase: int, rawSize: int): (r: Slot)
    ensures r.At? ==> 0 <= rawSize && r.slot + rawSize <= |st.globals|
  {
    var base := GlobalSlot(st, rawBase);
    if base.Bad? then base
    else if rawSize < 0 || base.slot + rawSize > |st.globals| then Bad(InvalidInstruction)
    else base
  }

  function LocalArrayBase(st: State, refSlot: nat, size: nat): (r: Slot)
    requires refSlot < |st.locals|
    ensures r.At? ==> r.slot + size <= |st.locals|
  {
    var base := st.locals[refSlot];
    if base == I64_MIN then Bad(UndefinedLocal)
    else if base < 0 || base + size > |st.locals| then Bad(InvalidInstruction)
    else At(base)
  }

  // ---------------------------------------------------------------- instructions

  function Push(st: State, v: int): Step {
    if |st.stack| >= MAX_OPERAND_STACK then Trapped(StackOverflow, |st.stack|)
    else Advance(st.(stack := st.stack + [v]))
  }

  function Top(st: State): int
    requires st.stack != []
  {
    st.stack[|st.stack| - 1]
  }

  function Drop(st: State, n: nat): State
    requires n <= |st.stack|
  {
    st.(stack := st.stack[..|st.stack| - n])
  }

  function IsBinary(op: Opcode): bool {
    op in {Opcode.Add, Opcode.Sub, Opcode.Mul, Opcode.Div, Opcode.Eq, Opcode.Ne, Opcode.Lt, Opcode.Gt,
           Opcode.Le, Opcode.Ge, Opcode.And, Opcode.Or}
  }

  function Arith(op: Opcode, a: int, b: int): int
    requires IsBinary(op) && (op == Opcode.Div ==> b != 0)
  {
    match op
    case Add => NormalizeI32(Wrap64(a + b))
    case Sub => NormalizeI32(Wrap64(a - b))
    case Mul => NormalizeI32(Wrap64(a * b))
    case Div => NormalizeI32(TruncDiv(a, b))
    case Eq => BoolValue(a == b)
    case Ne => BoolValue(a != b)
    case Lt => BoolValue(a < b)
    case Gt => BoolValue(a > b)
    case Le => BoolValue(a <= b)
    case Ge => BoolValue(a >= b)
    case And => BoolValue(a != 0 && b != 0)
    case Or => BoolValue(a != 0 || b != 0)
  }

  function ExecBinary(op: Opcode, st: State): Step
    requires IsBinary(op)
  {
    if |st.stack| < 2 then Trapped(StackUnderflow, 0)
    else
      var b := Top(st);
      var a := st.stack[|st.stack| - 2];
      if op == Opcode.Div && b == 0 then Trapped(DivideByZero, |st.stack| - 2)
      else Push(Drop(st, 2), Arith(op, a, b))
  }

  function ExecUnary(op: Opcode, st: State): Step
    requires op == Opcode.Neg || op == Opcode.Not
  {
    if st.stack == [] then Trapped(StackUnderflow, 0)
    else Push(Drop(st, 1), if op == Opcode.Neg then NormalizeI32(Wrap64(-Top(st))) else BoolValue(Top(st) == 0))
  }

  function LoadLocal(p: CompiledProgram, st: State, raw: int): Step {
    var slot := LocalSlot(p, st, raw);
    if slot.Bad? then Trapped(slot.code, |st.stack|)
    else if slot.slot >= |st.locals| then Trapped(InvalidInstruction, |st.stack|)
    else if st.locals[slot.slot] == I64_MIN then Trapped(UndefinedLocal, |st.stack|)
    else Push(st, st.locals[slot.slot])
  }

  function StoreLocal(p: CompiledProgram, st: State, raw: int): Step {
    if st.stack == [] then Trapped(StackUnderflow, 0)
    else
      var slot := LocalSlot(p, st, raw);
      if slot.Bad? then Trapped(slot.code, |st.stack| - 1)
      else if slot.slot >= |st.locals| then Trapped(InvalidInstruction, |st.stack| - 1)
      else Advance(Drop(st, 1).(locals := st.locals[slot.slot := Top(st)]))
  }

  function LoadGlobal(st: State, raw: int): Step {
    var slot := GlobalSlot(st, raw);
    if slot.Bad? then Trapped(slot.code, |st.stack|) else Push(st, st.globals[slot.slot])
  }

  function StoreGlobal(st: State, raw: int): Step {
    var slot := GlobalSlot(st, raw);
    if slot.Bad? then Trapped(slot.code, |st.stack|)
    else if st.stack == [] then Trapped(StackUnderflow, 0)
    else Advance(Drop(st, 1).(globals := st.globals[slot.slot := Top(st)]))
  }

  function Branch(st: State, target: I32, onZero: bool): Step {
    if st.stack == [] then Trapped(StackUnderflow, 0)
    else if (Top(st) == 0) == onZero then Jumped(Drop(st, 1).(pc := AsUsize(target)))
    else Advance(Drop(st, 1))
  }

  /** The locals after a call: arguments first, then undefined markers up to the callee's count. */
  function EnterFrame(locals: seq<int>, base: nat, args: seq<int>, localCount: nat): (r: seq<int>)
    requires |args| <= localCount && base + localCount <= |locals|
    ensures |r| == |locals|
    ensures forall i :: 0 <= i < |locals| && !(base <= i < base + localCount) ==> r[i] == locals[i]
    ensures forall i :: base <= i < base + |args| ==> r[i] == args[i - base]
    ensures forall i :: base + |args| <= i < base + localCount ==> r[i] == I64_MIN
  {
    seq(|locals|, i requires 0 <= i < |locals| =>
      if base <= i < base + |args| then args[i - base]
      else if base + |args| <= i < base + localCount then I64_MIN
      else locals[i])
  }

  function NextBase(p: CompiledProgram, st: State): nat {
    if st.calls == [] then (if 0 in p.functions then p.functions[0].localCount else 0)
    else
      var frame := CurrentFrame(st);
      frame.basePtr + (if frame.funcId in p.functions then p.functions[frame.funcId].localCount else 0)
  }

  function ExecCall(p: CompiledProgram, st: State, rawId: int, rawCount: int): Step {
    if rawId < 0 || rawCount < 0 then Trapped(InvalidInstruction, |st.stack|)
    else if rawId !in p.functions then Trapped(UndefinedFunction, |st.stack|)
    else
      var f := p.functions[rawId];
      if rawCount != f.paramCount then Trapped(InvalidInstruction, |st.stack|)
      else if |st.calls| >= MAX_FRAMES then Trapped(StackOverflow, |st.stack|)
      else
        var base := NextBase(p, st);
        if base + f.localCount > MAX_LOCAL_SLOTS then Trapped(StackOverflow, |st.stack|)
        else if |st.stack| < rawCount then Trapped(StackUnderflow, 0)
        else if f.localCount < rawCount || base + f.localCount > |st.locals| then Trapped(InvalidInstruction, |st.stack|)
        else
          var args := st.stack[|st.stack| - rawCount..];
          Jumped(Drop(st, rawCount).(
            locals := EnterFrame(st.locals, base, args, f.localCount),
            calls := st.calls + [Frame(Some(st.pc + 1), base, rawId)],
            pc := f.entryPc))
  }

  function ExecReturn(st: State): Step {
    if st.stack == [] then Trapped(StackUnderflow, 0)
    else if st.calls == [] then Trapped(InvalidInstruction, |st.stack| - 1)
    else
      var frame := CurrentFrame(st);
      var popped := st.(calls := st.calls[..|st.calls| - 1]);
      Jumped(if frame.returnPc.None? then popped else popped.(pc := frame.returnPc.value))
  }

  function ArrayLoad(st: State, rawBase: int, rawSize: int): Step {
    var base := GlobalArrayBase(st, rawBase, rawSize);
    if base.Bad? then Trapped(base.code, |st.stack|)
    else if st.stack == [] then Trapped(StackUnderflow, 0)
    else if Top(st) < 0 || Top(st) >= rawSize then Trapped(ArrayOutOfBounds, |st.stack| - 1)
    else Push(Drop(st, 1), st.globals[base.slot + Top(st)])
  }

  function ArrayStore(st: State, rawBase: int, rawSize: int): Step {
    var base := GlobalArrayBase(st, rawBase, rawSize);
    if base.Bad? then Trapped(base.code, |st.stack|)
    else if |st.stack| < 2 then Trapped(StackUnderflow, 0)
    else
      var index := st.stack[|st.stack| - 2];
      if index < 0 || index >= rawSize then Trapped(ArrayOutOfBounds, |st.stack| - 2)
      else Advance(Drop(st, 2).(globals := st.globals[base.slot + index := Top(st)]))
  }

  /** Where a local array access lands, checked in the machine's order. */
  function LocalArrayCell(p: CompiledProgram, st: State, raw: int, size: int, index: int): (r: Slot)
    ensures r.At? ==> r.slot < |st.locals|
  {
    if index < 0 || index >= size then Bad(ArrayOutOfBounds)
    else
      var slot := LocalSlot(p, st, raw);
      if slot.Bad? then slot
      else if slot.slot >= |st.locals| then Bad(InvalidInstruction)
      else
        var base := LocalArrayBase(st, slot.slot, size);
        if base.Bad? then base else At(base.slot + index)
  }

  function LocalArrayLoad(p: CompiledProgram, st: State, raw: int, rawSize: int): Step {
    if rawSize < 0 then Trapped(InvalidInstruction, |st.stack|)
    else if st.stack == [] then Trapped(StackUnderflow, 0)
    else
      var cell := LocalArrayCell(p, st, raw, rawSize, Top(st));
      if cell.Bad? then Trapped(cell.code, |st.stack| - 1) else Push(Drop(st, 1), st.locals[cell.slot])
  }

  function LocalArrayStore(p: CompiledProgram, st: State, raw: int, rawSize: int): Step {
    if rawSize < 0 then Trapped(InvalidInstruction, |st.stack|)
    else if |st.stack| < 2 then Trapped(StackUnderflow, 0)
    else
      var cell := LocalArrayCell(p, st, raw, rawSize, st.stack[|st.stack| - 2]);
      if cell.Bad? then Trapped(cell.code, |st.stack| - 2)
      else Advance(Drop(st, 2).(locals := st.locals[cell.slot := Top(st)]))
  }

  /** Arrays are appended behind the slots of the frames and never reused. */
  function AllocArray(st: State, rawSize: int): Step {
    if rawSize < 0 then Trapped(InvalidInstruction, |st.stack|)
    else Push(st.(locals := st.locals + seq(rawSize, _ => 0)), |st.locals|)
  }

  function ExecHalt(st: State): Step {
    Jumped(st.(calls := [], stack := if st.stack == [] then [0] else st.stack))
  }

  function Exec(p: CompiledProgram, instr: Instruction, st: State): Step {
    match instr.opcode
    case LoadConst => Push(st, instr.arg1)
    case LoadLocal => LoadLocal(p, st, instr.arg1)
    case StoreLocal => StoreLocal(p, st, instr.arg1)
    case LoadGlobal => LoadGlobal(st, instr.arg1)
    case StoreGlobal => StoreGlobal(st, instr.arg1)
    case Add => ExecBinary(instr.opcode, st)
    case Sub => ExecBinary(instr.opcode, st)
    case Mul => ExecBinary(instr.opcode, st)
    case Div => ExecBinary(instr.opcode, st)
    case Eq => ExecBinary(instr.opcode, st)
    case Ne => ExecBinary(instr.opcode, st)
    case Lt => ExecBinary(instr.opcode, st)
    case Gt => ExecBinary(instr.opcode, st)
    case Le => ExecBinary(instr.opcode, st)
    case Ge => ExecBinary(instr.opcode, st)
    case And => ExecBinary(instr.opcode, st)
    case Or => ExecBinary(instr.opcode, st)
    case Neg => ExecUnary(instr.opcode, st)
    case Not => ExecUnary(instr.opcode, st)
    case Jump => Jumped(st.(pc := AsUsize(instr.arg1)))
    case JumpIfFalse => Branch(st, instr.arg1, true)
    case JumpIfTrue => Branch(st, instr.arg1, false)
    case Call => ExecCall(p, st, instr.arg1, instr.arg2)
    case Return => ExecReturn(st)
    case ArrayLoad => ArrayLoad(st, instr.arg1, instr.arg2)
    case ArrayStore => ArrayStore(st, instr.arg1, instr.arg2)
    case LocalArrayLoad => LocalArrayLoad(p, st, instr.arg1, instr.arg2)
    case LocalArrayStore => LocalArrayStore(p, st, instr.arg1, instr.arg2)
    case AllocArray => AllocArray(st, instr.arg1)
    case ArrayNew => AllocArray(st, instr.arg1)
    case Print =>
      if st.stack == [] then Trapped(StackUnderflow, 0)
      else Advance(Drop(st, 1).(output := st.output + [Top(st)]))
    case Pop => if st.stack == [] then Trapped(StackUnderflow, 0) else Advance(Drop(st, 1))
    case Dup => if st.stack == [] then Trapped(StackUnderflow, 0) else Push(st, Top(st))
    case Halt => ExecHalt(st)
  }

  // ---------------------------------------------------------------- running

  function TrapResult(st: State, code: TrapCode, depth: nat): Result {
    Result(false, 0, code, st.cycles, st.output, st.pc, depth, |st.calls|)
  }

  /** One turn of the run loop: the next state, or the final result. */
  datatype Turn = Next(st: State) | Stop(result: Result)

  function TakeTurn(p: CompiledProgram, st: State): (t: Turn)
    ensures t.Next? ==> st.cycles < MAX_CYCLES && t.st.cycles == st.cycles + 1
  {
    if st.cycles >= MAX_CYCLES then Stop(TrapResult(st, CycleLimit, |st.stack|))
    else if st.pc >= |p.instructions| then Stop(TrapResult(st, InvalidInstruction, |st.stack|))
    else
      var fetched := st.(cycles := st.cycles + 1);
      match Exec(p, p.instructions[st.pc], fetched)
      case Trapped(code, depth) => Stop(TrapResult(fetched, code, depth))
      case Advance(st') => Arrive(st'.(pc := st'.pc + 1, cycles := fetched.cycles))
      case Jumped(st') => Arrive(st'.(cycles := fetched.cycles))
  }

  function Arrive(st: State): Turn {
    if st.calls == [] then
      var depth := if st.stack == [] then 0 else |st.stack| - 1;
      Stop(Result(true, if st.stack == [] then 0 else Top(st), NoTrap, st.cycles, st.output, st.pc, depth, 0))
    else Next(st)
  }

  function RunFrom(p: CompiledProgram, st: State): Result
    decreases MAX_CYCLES - st.cycles
  {
    match TakeTurn(p, st)
    case Stop(result) => result
    case Next(st') => RunFrom(p, st')
  }

  function GlobalWidth(g: GlobalInfo): nat {
    if g.isArray then g.arraySize else 1
  }

  /** The checks made before the first instruction; None when they pass. */
  function Validate(p: CompiledProgram): Option<TrapCode> {
    if |p.instructions| > MAX_INSTRUCTIONS then Some(InvalidInstruction)
    else if exists id <- p.functions :: p.functions[id].paramCount > p.functions[id].localCount then Some(InvalidInstruction)
    else if exists id <- p.functions :: p.functions[id].localCount > MAX_LOCAL_SLOTS then Some(StackOverflow)
    else if exists x <- p.globals :: (p.globals[x].isArray && p.globals[x].arraySize == 0)
                                 || p.globals[x].slot + GlobalWidth(p.globals[x]) > MAX_GLOBAL_SLOTS then Some(InvalidInstruction)
    else if p.mainFuncId !in p.functions then Some(UndefinedFunction)
    else None
  }

  function Blank(): State {
    State([], seq(MAX_LOCAL_SLOTS, _ => I64_MIN), seq(MAX_GLOBAL_SLOTS, _ => 0), [], 0, 0, [])
  }

  function Boot(p: CompiledProgram): State
    requires p.mainFuncId in p.functions
  {
    var main := p.functions[p.mainFuncId];
    Blank().(pc := main.entryPc, calls := [Frame(None, 0, main.id)])
  }

  function Run(p: CompiledProgram): Result {
    var bad := Validate(p);
    if bad.Some? then TrapResult(Blank(), bad.value, 0) else RunFrom(p, Boot(p))
  }
}
