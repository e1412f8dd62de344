/**
 * The garbage-collected machine: frames own their locals, arrays live in a heap of recycled ids, and a collection
 * runs when eight arrays are alive. A return with no frame, which no run
 * reaches, traps with InvalidInstruction here.
 */
module GcMachine {
  import opened Common
  import opened Int32
  import opened Limits
  import opened Bytecode
  import M = Machine

  datatype Value = Int(number: int) | ArrayRef(id: nat)

  datatype Frame = Frame(returnPc: Option<nat>, locals: seq<Value>, init: seq<bool>)

  type Heap = seq<Option<seq<int>>>

  datatype State = State(
    stack: seq<Value>,
    globals: seq<Value>,
    calls: seq<Frame>,
    heap: Heap,
    free: seq<nat>,
    nextId: nat,
    pc: nat,
    cycles: nat,
    output: seq<int>)

  datatype Step = Advance(st: State) | Jumped(st: State) | Trapped(code: TrapCode, depth: nat)

  function ToInt(v: Value): int {
    match v
    case Int(i) => i
    case ArrayRef(id) => id
  }

  predicate Truthy(v: Value) {
    v.Int? ==> v.number != 0
  }

  // ---------------------------------------------------------------- roots and collections

  /** The array ids held by a sequence of values. */
  function Refs(values: seq<Value>): (ids: set<nat>)
    ensures forall id :: id in ids <==> ArrayRef(id) in values
  {
    set v <- values | v.ArrayRef? :: v.id
  }

  function Initialized(f: Frame): seq<Value>
    requires |f.init| == |f.locals|
  {
    seq(|f.locals|, i requires 0 <= i < |f.locals| => if f.init[i] then f.locals[i] else Int(0))
  }

  predicate FrameOk(f: Frame) {
    |f.init| == |f.locals|
  }

  /** Only initialized locals are roots. */
  function LocalRefs(f: Frame): set<nat> {
    if FrameOk(f) then Refs(Initialized(f)) else {}
  }

  function FrameRefs(calls: seq<Frame>): set<nat> {
    set f <- calls, id <- LocalRefs(f) :: id
  }

  function Roots(st: State): set<nat> {
    Refs(st.stack) + Refs(st.globals) + FrameRefs(st.calls)
  }

  function Sweep(heap: Heap, marked: set<nat>): (swept: Heap)
    ensures |swept| == |heap|
    ensures forall i :: 0 <= i < |heap| ==> swept[i] == if i in marked then heap[i] else None
  {
    seq(|heap|, i requires 0 <= i < |heap| => if i in marked then heap[i] else None)
  }

  /** The ids a sweep frees, in ascending order. */
  function Freed(heap: Heap, marked: set<nat>): (ids: seq<nat>)
    ensures forall id: nat :: id in ids <==> id < |heap| && heap[id].Some? && id !in marked
  {
    if heap == [] then []
    else
      var last := |heap| - 1;
      var before := Freed(heap[..last], marked);
      if heap[last].Some? && last !in marked then before + [last] else before
  }

  /** Arrays that no root refers to become free ids; all others keep their contents. */
  function Collect(st: State): State {
    var marked := Roots(st);
    st.(heap := Sweep(st.heap, marked), free := st.free + Freed(st.heap, marked))
  }

  function Zeros(size: nat): seq<int> {
    seq(size, _ => 0)
  }

  /** A free id is reused, the last one first; otherwise the heap grows. */
  function Place(st: State, size: nat): (State, nat) {
    if st.free != [] then
      var id := st.free[|st.free| - 1];
      (st.(free := st.free[..|st.free| - 1], heap := if id < |st.heap| then st.heap[id := Some(Zeros(size))] else st.heap), id)
    else
      var id := st.nextId;
      (st.(nextId := id + 1,
           heap := if id < |st.heap| then st.heap[id := Some(Zeros(size))] else st.heap + [Some(Zeros(size))]), id)
  }

  function Alloc(st: State, size: nat): (State, nat) {
    Place(if |st.heap| - |st.free| >= GC_THRESHOLD then Collect(st) else st, size)
  }

  lemma AllocKeepsStack(st: State, size: nat)
    ensures var after := Alloc(st, size).0;
      && after.stack == st.stack && after.globals == st.globals && after.calls == st.calls
      && after.pc == st.pc && after.cycles == st.cycles && after.output == st.output
  {
  }

  // ---------------------------------------------------------------- addressing

  function CurrentFrame(st: State): Frame
    requires st.calls != []
  {
    st.calls[|st.calls| - 1]
  }

  function LocalSlot(st: State, raw: int): M.Slot {
    if raw < 0 || st.calls == [] || raw >= |CurrentFrame(st).locals| then M.Bad(InvalidInstruction) else M.At(raw)
  }

  function GlobalSlot(st: State, raw: int): M.Slot {
    if raw < 0 || raw >= |st.globals| then M.Bad(InvalidInstruction) else M.At(raw)
  }

  function GlobalArrayBase(st: State, rawBase: int, rawSize: int): M.Slot {
    var base := GlobalSlot(st, rawBase);
    if base.Bad? then base
    else if rawSize < 0 || base.slot + rawSize > |st.globals| then M.Bad(InvalidInstruction)
    else base
  }

  function ReadLocal(f: Frame, slot: nat): Option<Value> {
    if slot < |f.locals| && slot < |f.init| && f.init[slot] then Some(f.locals[slot]) else None
  }

  function WriteLocal(f: Frame, slot: nat, v: Value): Frame {
    if slot < |f.locals| && slot < |f.init| then f.(locals := f.locals[slot := v], init := f.init[slot := true]) else f
  }

  function WithFrame(st: State, f: Frame): State
    requires st.calls != []
  {
    st.(calls := st.calls[|st.calls| - 1 := f])
  }

  // ---------------------------------------------------------------- instructions

  function Push(st: State, v: Value): Step {
    if |st.stack| >= MAX_OPERAND_STACK then Trapped(StackOverflow, |st.stack|) else Advance(st.(stack := st.stack + [v]))
  }

  function Top(st: State): Value
    requires st.stack != []
  {
    st.stack[|st.stack| - 1]
  }

  function Drop(st: State, n: nat): State
    requires n <= |st.stack|
  {
    st.(stack := st.stack[..|st.stack| - n])
  }

  function Arith(op: Opcode, a: Value, b: Value): int
    requires M.IsBinary(op) && (op == Opcode.Div ==> ToInt(b) != 0)
  {
    if op == Opcode.And then BoolValue(Truthy(a) && Truthy(b))
    else if op == Opcode.Or then BoolValue(Truthy(a) || Truthy(b))
    else M.Arith(op, ToInt(a), ToInt(b))
  }

  function ExecBinary(op: Opcode, st: State): Step
    requires M.IsBinary(op)
  {
    if |st.stack| < 2 then Trapped(StackUnderflow, 0)
    else
      var b := Top(st);
      var a := st.stack[|st.stack| - 2];
      if op == Opcode.Div && ToInt(b) == 0 then Trapped(DivideByZero, |st.stack| - 2)
      else Push(Drop(st, 2), Int(Arith(op, a, b)))
  }

  function ExecUnary(op: Opcode, st: State): Step
    requires op == Opcode.Neg || op == Opcode.Not
  {
    if st.stack == [] then Trapped(StackUnderflow, 0)
    else Push(Drop(st, 1), Int(if op == Opcode.Neg then NormalizeI32(Wrap64(-ToInt(Top(st)))) else BoolValue(!Truthy(Top(st)))))
  }

  function LoadLocal(st: State, raw: int): Step {
    var slot := LocalSlot(st, raw);
    if slot.Bad? then Trapped(slot.code, |st.stack|)
    else
      match ReadLocal(CurrentFrame(st), slot.slot)
      case None => Trapped(UndefinedLocal, |st.stack|)
      case Some(v) => Push(st, v)
  }

  function StoreLocal(st: State, raw: int): Step {
    var slot := LocalSlot(st, raw);
    if slot.Bad? then Trapped(slot.code, |st.stack|)
    else if st.stack == [] then Trapped(StackUnderflow, 0)
    else Advance(WithFrame(Drop(st, 1), WriteLocal(CurrentFrame(st), slot.slot, Top(st))))
  }

  function LoadGlobal(st: State, raw: int): Step {
    var slot := GlobalSlot(st, raw);
    if slot.Bad? then Trapped(slot.code, |st.stack|)
    else Push(st, st.globals[slot.slot])
  }

  function StoreGlobal(st: State, raw: int): Step {
    var slot := GlobalSlot(st, raw);
    if slot.Bad? then Trapped(slot.code, |st.stack|)
    else if st.stack == [] then Trapped(StackUnderflow, 0)
    else Advance(Drop(st, 1).(globals := st.globals[slot.slot := Top(st)]))
  }

  function Branch(st: State, target: I32, onZero: bool): Step {
    if st.stack == [] then Trapped(StackUnderflow, 0)
    else if !Truthy(Top(st)) == onZero then Jumped(Drop(st, 1).(pc := AsUsize(target)))
    else Advance(Drop(st, 1))
  }

  /** A fresh frame: the arguments are its initialized locals. */
  function NewFrame(args: seq<Value>, localCount: nat, returnPc: Option<nat>): Frame {
    Frame(returnPc,
          seq(localCount, i requires 0 <= i < localCount => if i < |args| then args[i] else Int(0)),
          seq(localCount, i requires 0 <= i < localCount => i < |args|))
  }

  function ExecCall(p: CompiledProgram, st: State, rawId: int, rawCount: int): Step {
    if rawId < 0 || rawCount < 0 then Trapped(InvalidInstruction, |st.stack|)
    else if rawId !in p.functions then Trapped(UndefinedFunction, |st.stack|)
    else
      var f := p.functions[rawId];
      if |st.calls| >= MAX_FRAMES then Trapped(StackOverflow, |st.stack|)
      else if rawCount != f.paramCount then Trapped(InvalidInstruction, |st.stack|)
      else if |st.stack| < rawCount then Trapped(StackUnderflow, 0)
      else
        var args := st.stack[|st.stack| - rawCount..];
        Jumped(Drop(st, rawCount).(calls := st.calls + [NewFrame(args, f.localCount, Some(st.pc + 1))], pc := f.entryPc))
  }

  function ExecReturn(st: State): Step {
    if st.stack == [] then Trapped(StackUnderflow, 0)
    else if st.calls == [] then Trapped(InvalidInstruction, |st.stack| - 1)
    else
      var frame := CurrentFrame(st);
      var popped := st.(calls := st.calls[..|st.calls| - 1]);
      Jumped(if frame.returnPc.None? then popped else popped.(pc := frame.returnPc.value))
  }

  /** An element of the array a reference stands for. */
  function Element(st: State, id: nat, index: nat): M.Slot {
    if id >= |st.heap| || st.heap[id].None? then M.Bad(InvalidInstruction)
    else if index >= |st.heap[id].value| then M.Bad(ArrayOutOfBounds)
    else M.At(index)
  }

  function SetElement(st: State, id: nat, index: nat, v: int): State
    requires Element(st, id, index).At?
  {
    st.(heap := st.heap[id := Some(st.heap[id].value[index := v])])
  }

  function LoadElement(st: State, id: nat, index: nat, depth: nat): Step {
    var at := Element(st, id, index);
    if at.Bad? then Trapped(at.code, depth) else Push(st, Int(st.heap[id].value[index]))
  }

  function StoreElement(st: State, id: nat, index: nat, v: int, depth: nat): Step {
    var at := Element(st, id, index);
    if at.Bad? then Trapped(at.code, depth) else Advance(SetElement(st, id, index, v))
  }

  function ArrayLoad(st: State, rawBase: int, rawSize: int): Step {
    var base := GlobalArrayBase(st, rawBase, rawSize);
    if base.Bad? then Trapped(base.code, |st.stack|)
    else if st.stack == [] then Trapped(StackUnderflow, 0)
    else
      var index := ToInt(Top(st));
      if index < 0 || index >= rawSize then Trapped(ArrayOutOfBounds, |st.stack| - 1)
      else
        match st.globals[base.slot]
        case ArrayRef(id) => LoadElement(Drop(st, 1), id, index, |st.stack| - 1)
        case Int(_) => Push(Drop(st, 1), st.globals[base.slot + index])
  }

  function ArrayStore(st: State, rawBase: int, rawSize: int): Step {
    var base := GlobalArrayBase(st, rawBase, rawSize);
    if base.Bad? then Trapped(base.code, |st.stack|)
    else if |st.stack| < 2 then Trapped(StackUnderflow, 0)
    else
      var index, v := ToInt(st.stack[|st.stack| - 2]), ToInt(Top(st));
      if index < 0 || index >= rawSize then Trapped(ArrayOutOfBounds, |st.stack| - 2)
      else
        match st.globals[base.slot]
        case ArrayRef(id) => StoreElement(Drop(st, 2), id, index, v, |st.stack| - 2)
        case Int(_) => Advance(Drop(st, 2).(globals := st.globals[base.slot + index := Int(v)]))
  }

  function LocalArrayLoad(st: State, raw: int, rawSize: int): Step {
    var slot := LocalSlot(st, raw);
    if slot.Bad? then Trapped(slot.code, |st.stack|)
    else if rawSize < 0 then Trapped(InvalidInstruction, |st.stack|)
    else if st.stack == [] then Trapped(StackUnderflow, 0)
    else
      var index := ToInt(Top(st));
      if index < 0 || index >= rawSize then Trapped(ArrayOutOfBounds, |st.stack| - 1)
      else
        match ReadLocal(CurrentFrame(st), slot.slot)
        case Some(ArrayRef(id)) => LoadElement(Drop(st, 1), id, index, |st.stack| - 1)
        case Some(Int(v)) => Push(Drop(st, 1), Int(v))
        case None => Trapped(UndefinedLocal, |st.stack| - 1)
  }

  /** A store through a slot that holds no array is an invalid instruction, even when the slot is undefined. */
  function LocalArrayStore(st: State, raw: int, rawSize: int): Step {
    var slot := LocalSlot(st, raw);
    if slot.Bad? then Trapped(slot.code, |st.stack|)
    else if rawSize < 0 then Trapped(InvalidInstruction, |st.stack|)
    else if |st.stack| < 2 then Trapped(StackUnderflow, 0)
    else
      var index, v := ToInt(st.stack[|st.stack| - 2]), ToInt(Top(st));
      if index < 0 || index >= rawSize then Trapped(ArrayOutOfBounds, |st.stack| - 2)
      else
        match ReadLocal(CurrentFrame(st), slot.slot)
        case Some(ArrayRef(id)) => StoreElement(Drop(st, 2), id, index, v, |st.stack| - 2)
        case _ => Trapped(InvalidInstruction, |st.stack| - 2)
  }

  function AllocArray(st: State, rawSize: int): Step {
    if rawSize < 0 then Trapped(InvalidInstruction, |st.stack|)
    else
      var (st', id) := Alloc(st, rawSize);
      Push(st', ArrayRef(id))
  }

  function Exec(p: CompiledProgram, instr: Instruction, st: State): Step {
    match instr.opcode
    case LoadConst => Push(st, Int(instr.arg1))
    case LoadLocal => LoadLocal(st, instr.arg1)
    case StoreLocal => StoreLocal(st, instr.arg1)
    case LoadGlobal => LoadGlobal(st, instr.arg1)
    case StoreGlobal => StoreGlobal(st, instr.arg1)
    case Neg => ExecUnary(instr.opcode, st)
    case Not => ExecUnary(instr.opcode, st)
    case Jump => Jumped(st.(pc := AsUsize(instr.arg1)))
    case JumpIfFalse => Branch(st, instr.arg1, true)
    case JumpIfTrue => Branch(st, instr.arg1, false)
    case Call => ExecCall(p, st, instr.arg1, instr.arg2)
    case Return => ExecReturn(st)
    case ArrayLoad => ArrayLoad(st, instr.arg1, instr.arg2)
    case ArrayStore => ArrayStore(st, instr.arg1, instr.arg2)
    case LocalArrayLoad => LocalArrayLoad(st, instr.arg1, instr.arg2)
    case LocalArrayStore => LocalArrayStore(st, instr.arg1, instr.arg2)
    case AllocArray => AllocArray(st, instr.arg1)
    case ArrayNew => AllocArray(st, instr.arg1)
    case Print =>
      if st.stack == [] then Trapped(StackUnderflow, 0)
      else Advance(Drop(st, 1).(output := st.output + [ToInt(Top(st))]))
    case Pop => if st.stack == [] then Trapped(StackUnderflow, 0) else Advance(Drop(st, 1))
    case Dup => if st.stack == [] then Trapped(StackUnderflow, 0) else Push(st, Top(st))
    case Halt => Jumped(st.(calls := []))
    case _ => ExecBinary(instr.opcode, st)
  }

  // ---------------------------------------------------------------- running

  datatype Turn = Next(st: State) | Stop(result: M.Result)

  function TrapResult(st: State, code: TrapCode, depth: nat): M.Result {
    M.Result(false, 0, code, st.cycles, st.output, st.pc, depth, |st.calls|)
  }

  function TakeTurn(p: CompiledProgram, st: State): (t: Turn)
    ensures t.Next? ==> st.cycles < MAX_CYCLES && t.st.cycles == st.cycles + 1
  {
    if st.cycles >= MAX_CYCLES then Stop(TrapResult(st, CycleLimit, |st.stack|))
    else if st.pc >= |p.instructions| then Stop(TrapResult(st, InvalidInstruction, |st.stack|))
    else
      var fetched := st.(cycles := st.cycles + 1);
      match Exec(p, p.instructions[st.pc], fetched)
      case Trapped(code, depth) => Stop(TrapResult(fetched, code, depth))
      case Advance(st') => Arrive(st'.(pc := st'.pc + 1, cycles := fetched.cycles))
      case Jumped(st') => Arrive(st'.(cycles := fetched.cycles))
  }

  function Arrive(st: State): Turn {
    if st.calls == [] then
      var depth := if st.stack == [] then 0 else |st.stack| - 1;
      Stop(M.Result(true, if st.stack == [] then 0 else ToInt(Top(st)), NoTrap, st.cycles, st.output, st.pc, depth, 0))
    else Next(st)
  }

  function RunFrom(p: CompiledProgram, st: State): M.Result
    decreases MAX_CYCLES - st.cycles
  {
    match TakeTurn(p, st)
    case Stop(result) => result
    case Next(st') => RunFrom(p, st')
  }

  // ---------------------------------------------------------------- starting

  function Blank(): State {
    State([], seq(MAX_GLOBAL_SLOTS, _ => Int(0)), [], [], [], 0, 0, 0, [])
  }

  /** Each global array gets a heap array; the order is that of a hash map, so any order may occur. */
  function AllocGlobals(st: State, arrays: seq<GlobalInfo>): State
    decreases |arrays|
  {
    if arrays == [] then st
    else
      var (st', id) := Alloc(st, arrays[0].arraySize);
      AllocGlobals(if arrays[0].slot < |st'.globals| then st'.(globals := st'.globals[arrays[0].slot := ArrayRef(id)]) else st', arrays[1..])
  }

  /** The global arrays of a program, in some order. */
  ghost predicate ArraysOf(p: CompiledProgram, arrays: seq<GlobalInfo>) {
    && (forall g <- arrays :: exists x <- p.globals :: p.globals[x] == g && g.isArray)
    && (forall x <- p.globals :: p.globals[x].isArray ==> p.globals[x] in arrays)
    && (forall i, j :: 0 <= i < j < |arrays| ==> arrays[i].slot != arrays[j].slot)
  }

  function Boot(p: CompiledProgram, arrays: seq<GlobalInfo>): State
    requires p.mainFuncId in p.functions
  {
    var main := p.functions[p.mainFuncId];
    AllocGlobals(Blank(), arrays).(pc := main.entryPc, calls := [NewFrame([], main.localCount, None)])
  }

  function Run(p: CompiledProgram, arrays: seq<GlobalInfo>): M.Result {
    var bad := M.Validate(p);
    if bad.Some? then TrapResult(Blank(), bad.value, 0) else RunFrom(p, Boot(p, arrays))
  }
}
