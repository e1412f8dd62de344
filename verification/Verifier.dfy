/** The bytecode verifier: an abstract machine over operand depth and definitely initialized locals. */
module Verifier {
  import opened Common
  import opened Int32
  import opened Limits
  import opened Bytecode

  datatype AbstractState = AbstractState(depth: nat, init: seq<bool>)

  // One function's stretch of code, [start, end).
  datatype Range = Range(id: nat, info: FunctionInfo, start: nat, end: nat)

  // Rejected: one error is reported. Traps are the runtime traps noticed on the way.
  datatype AbstractStep =
    | Rejected(traps: set<TrapCode>)
    | Stepped(st: AbstractState, succs: seq<nat>, callees: seq<nat>, traps: set<TrapCode>)

  predicate InRange(r: Range, pc: int) {
    r.start <= pc < r.end
  }

  // ---------------------------------------------------------------- operand checks

  function Goto(st: AbstractState, succs: seq<nat>, traps: set<TrapCode>): AbstractStep {
    Stepped(st, succs, [], traps)
  }

  /** Pop some operands, push some results, go on with the next instruction. */
  function Effect(pc: nat, st: AbstractState, pops: nat, pushes: nat, traps: set<TrapCode>): AbstractStep {
    if st.depth < pops then Rejected({}) else Goto(st.(depth := st.depth - pops + pushes), [pc + 1], traps)
  }

  predicate LocalSlotOk(r: Range, raw: int) {
    0 <= raw < r.info.localCount
  }

  predicate GlobalSlotOk(raw: int) {
    0 <= raw < MAX_GLOBAL_SLOTS
  }

  predicate GlobalRangeOk(raw: int, size: int) {
    GlobalSlotOk(raw) && 0 < size && raw + size <= MAX_GLOBAL_SLOTS
  }

  predicate TargetOk(r: Range, raw: int) {
    0 <= raw && InRange(r, raw)
  }

  function UndefinedIf(st: AbstractState, slot: nat): set<TrapCode>
    requires slot < |st.init|
  {
    if st.init[slot] then {} else {UndefinedLocal}
  }

  function LoopTrap(target: int, pc: nat): set<TrapCode> {
    if target <= pc then {CycleLimit} else {}
  }

  function StepBranch(r: Range, pc: nat, target: int, st: AbstractState): AbstractStep {
    if st.depth < 1 || !TargetOk(r, target) then Rejected({})
    else Goto(st.(depth := st.depth - 1), [target, pc + 1], LoopTrap(target, pc))
  }

  function StepCall(p: CompiledProgram, pc: nat, id: int, argc: int, st: AbstractState): AbstractStep {
    if id < 0 || argc < 0 || id !in p.functions then Rejected({})
    else if argc != p.functions[id].paramCount || st.depth < argc then Rejected({})
    else Stepped(st.(depth := st.depth - argc + 1), [pc + 1], [id], {})
  }

  function StepLocalArray(r: Range, pc: nat, raw: int, size: int, st: AbstractState, pops: nat, pushes: nat): AbstractStep
    requires |st.init| == r.info.localCount
  {
    if size <= 0 || !LocalSlotOk(r, raw) then Rejected({})
    else if st.depth < pops then Rejected(UndefinedIf(st, raw))
    else Effect(pc, st, pops, pushes, UndefinedIf(st, raw) + {ArrayOutOfBounds})
  }

  /** The abstract effect of one instruction. */
  function StepInstruction(p: CompiledProgram, r: Range, pc: nat, instr: Instruction, st: AbstractState): (s: AbstractStep)
    requires |st.init| == r.info.localCount
  {
    match instr.opcode
    case LoadConst => Effect(pc, st, 0, 1, {})
    case LoadLocal =>
      if !LocalSlotOk(r, instr.arg1) then Rejected({}) else Effect(pc, st, 0, 1, UndefinedIf(st, instr.arg1))
    case StoreLocal =>
      if st.depth < 1 || !LocalSlotOk(r, instr.arg1) then Rejected({})
      else Goto(AbstractState(st.depth - 1, st.init[instr.arg1 := true]), [pc + 1], {})
    case LoadGlobal => if !GlobalSlotOk(instr.arg1) then Rejected({}) else Effect(pc, st, 0, 1, {})
    case StoreGlobal => if !GlobalSlotOk(instr.arg1) then Rejected({}) else Effect(pc, st, 1, 0, {})
    case Add => Effect(pc, st, 2, 1, {})
    case Sub => Effect(pc, st, 2, 1, {})
    case Mul => Effect(pc, st, 2, 1, {})
    case Eq => Effect(pc, st, 2, 1, {})
    case Ne => Effect(pc, st, 2, 1, {})
    case Lt => Effect(pc, st, 2, 1, {})
    case Gt => Effect(pc, st, 2, 1, {})
    case Le => Effect(pc, st, 2, 1, {})
    case Ge => Effect(pc, st, 2, 1, {})
    case And => Effect(pc, st, 2, 1, {})
    case Or => Effect(pc, st, 2, 1, {})
    case Div => Effect(pc, st, 2, 1, {DivideByZero})
    case Neg => Effect(pc, st, 1, 1, {})
    case Not => Effect(pc, st, 1, 1, {})
    case Jump =>
      if !TargetOk(r, instr.arg1) then Rejected({}) else Goto(st, [instr.arg1 as nat], LoopTrap(instr.arg1, pc))
    case JumpIfFalse => StepBranch(r, pc, instr.arg1, st)
    case JumpIfTrue => StepBranch(r, pc, instr.arg1, st)
    case Call => StepCall(p, pc, instr.arg1, instr.arg2, st)
    case Return => if st.depth < 1 then Rejected({}) else Goto(st.(depth := st.depth - 1), [], {})
    case ArrayLoad =>
      if !GlobalRangeOk(instr.arg1, instr.arg2) then Rejected({}) else Effect(pc, st, 1, 1, {ArrayOutOfBounds})
    case ArrayStore =>
      if !GlobalRangeOk(instr.arg1, instr.arg2) then Rejected({}) else Effect(pc, st, 2, 0, {ArrayOutOfBounds})
    case LocalArrayLoad => StepLocalArray(r, pc, instr.arg1, instr.arg2, st, 1, 1)
    case LocalArrayStore => StepLocalArray(r, pc, instr.arg1, instr.arg2, st, 2, 0)
    case ArrayNew => if instr.arg1 <= 0 then Rejected({}) else Effect(pc, st, 0, 1, {})
    case AllocArray => if instr.arg1 <= 0 then Rejected({}) else Effect(pc, st, 0, 1, {})
    case Print => Effect(pc, st, 1, 0, {})
    case Pop => Effect(pc, st, 1, 0, {})
    case Dup => Effect(pc, st, 1, 2, {})
    case Halt => Goto(st, [], {})
  }

  // ---------------------------------------------------------------- facts about a step

  /** Every bit set in `low` is set in `high`. */
  predicate Below(low: seq<bool>, high: seq<bool>) {
    |low| == |high| && forall i :: 0 <= i < |low| ==> low[i] ==> high[i]
  }

  function Meet(a: seq<bool>, b: seq<bool>): (m: seq<bool>)
    requires |a| == |b|
    ensures |m| == |a| && forall i :: 0 <= i < |m| ==> m[i] == (a[i] && b[i])
  {
    seq(|a|, i requires 0 <= i < |a| => a[i] && b[i])
  }

  /** Where control can go, whatever the state. */
  function Successors(instr: Instruction, pc: nat): seq<nat> {
    match instr.opcode
    case Jump => [AsUsize(instr.arg1)]
    case JumpIfFalse => [AsUsize(instr.arg1), pc + 1]
    case JumpIfTrue => [AsUsize(instr.arg1), pc + 1]
    case Return => []
    case Halt => []
    case _ => [pc + 1]
  }

  function Stored(instr: Instruction, init: seq<bool>): (r: seq<bool>)
    ensures |r| == |init|
  {
    if instr.opcode == StoreLocal && 0 <= instr.arg1 < |init| then init[instr.arg1 := true] else init
  }

  lemma StepShape(p: CompiledProgram, r: Range, pc: nat, instr: Instruction, st: AbstractState)
    requires |st.init| == r.info.localCount
    ensures var s := StepInstruction(p, r, pc, instr, st);
      s.Stepped? ==> s.succs == Successors(instr, pc) && s.st.init == Stored(instr, st.init)
  {
  }

  /** Two steps agree in everything but the locals. */
  predicate SameDepth(s: AbstractStep, s': AbstractStep) {
    s.Stepped? == s'.Stepped? && (s.Stepped? ==> s.st.depth == s'.st.depth && s.callees == s'.callees)
  }

  predicate UsesLocal(op: Opcode) {
    op in {LoadLocal, StoreLocal, LocalArrayLoad, LocalArrayStore}
  }

  lemma LocalDepthOnly(p: CompiledProgram, r: Range, pc: nat, instr: Instruction, st: AbstractState, st': AbstractState)
    requires |st.init| == |st'.init| == r.info.localCount && st.depth == st'.depth && UsesLocal(instr.opcode)
    ensures SameDepth(StepInstruction(p, r, pc, instr, st), StepInstruction(p, r, pc, instr, st'))
  {
  }

  lemma OtherDepthOnly(p: CompiledProgram, r: Range, pc: nat, instr: Instruction, st: AbstractState, st': AbstractState)
    requires |st.init| == |st'.init| == r.info.localCount && st.depth == st'.depth && !UsesLocal(instr.opcode)
    ensures SameDepth(StepInstruction(p, r, pc, instr, st), StepInstruction(p, r, pc, instr, st'))
  {
  }

  /** Rejection, depth and callees depend on the depth alone. */
  lemma StepDepthOnly(p: CompiledProgram, r: Range, pc: nat, instr: Instruction, st: AbstractState, st': AbstractState)
    requires |st.init| == |st'.init| == r.info.localCount && st.depth == st'.depth
    ensures var s, s' := StepInstruction(p, r, pc, instr, st), StepInstruction(p, r, pc, instr, st');
      && s.Stepped? == s'.Stepped?
      && (s.Stepped? ==> s.st.depth == s'.st.depth && s.callees == s'.callees)
  {
    hide StepInstruction;
    if UsesLocal(instr.opcode) {
      LocalDepthOnly(p, r, pc, instr, st, st');
    } else {
      OtherDepthOnly(p, r, pc, instr, st, st');
    }
  }
}
