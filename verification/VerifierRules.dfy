/** What the verifier demands of an instruction and what it takes it to do, in one table that the machine obeys too. */
module VerifierRules {
  import opened Common
  import opened Int32
  import opened Limits
  import opened Bytecode
  import opened Verifier
  import M = Machine

  /** How many operands an instruction takes. */
  function Takes(instr: Instruction): int {
    match instr.opcode
    case StoreLocal => 1
    case StoreGlobal => 1
    case Neg => 1
    case Not => 1
    case JumpIfFalse => 1
    case JumpIfTrue => 1
    case Return => 1
    case ArrayLoad => 1
    case LocalArrayLoad => 1
    case Print => 1
    case Pop => 1
    case Dup => 1
    case ArrayStore => 2
    case LocalArrayStore => 2
    case Call => instr.arg2
    case LoadConst => 0
    case LoadLocal => 0
    case LoadGlobal => 0
    case AllocArray => 0
    case ArrayNew => 0
    case Jump => 0
    case Halt => 0
    case _ => 2
  }

  /** How many operands it leaves; a call, what its callee returns. */
  function Leaves(op: Opcode): nat {
    match op
    case StoreLocal => 0
    case StoreGlobal => 0
    case ArrayStore => 0
    case LocalArrayStore => 0
    case Jump => 0
    case JumpIfFalse => 0
    case JumpIfTrue => 0
    case Return => 0
    case Print => 0
    case Pop => 0
    case Halt => 0
    case Dup => 2
    case _ => 1
  }

  /** Whether the numbers of an instruction name what the program has. */
  predicate Legal(p: CompiledProgram, r: Range, instr: Instruction) {
    match instr.opcode
    case LoadLocal => 0 <= instr.arg1 < r.info.localCount
    case StoreLocal => 0 <= instr.arg1 < r.info.localCount
    case LoadGlobal => 0 <= instr.arg1 < MAX_GLOBAL_SLOTS
    case StoreGlobal => 0 <= instr.arg1 < MAX_GLOBAL_SLOTS
    case ArrayLoad => 0 <= instr.arg1 && 0 < instr.arg2 && instr.arg1 + instr.arg2 <= MAX_GLOBAL_SLOTS
    case ArrayStore => 0 <= instr.arg1 && 0 < instr.arg2 && instr.arg1 + instr.arg2 <= MAX_GLOBAL_SLOTS
    case LocalArrayLoad => 0 <= instr.arg1 < r.info.localCount && 0 < instr.arg2
    case LocalArrayStore => 0 <= instr.arg1 < r.info.localCount && 0 < instr.arg2
    case AllocArray => 0 < instr.arg1
    case ArrayNew => 0 < instr.arg1
    case Jump => r.start <= instr.arg1 < r.end
    case JumpIfFalse => r.start <= instr.arg1 < r.end
    case JumpIfTrue => r.start <= instr.arg1 < r.end
    case Call => 0 <= instr.arg1 && instr.arg1 in p.functions && instr.arg2 == p.functions[instr.arg1].paramCount
    case _ => true
  }

  predicate Holds(p: CompiledProgram, r: Range, pc: nat, instr: Instruction, st: AbstractState)
    requires |st.init| == r.info.localCount
  {
    var s := StepInstruction(p, r, pc, instr, st);
    && (s.Stepped? <==> Legal(p, r, instr) && Takes(instr) <= st.depth)
    && (s.Stepped? ==> s.st.depth == st.depth - Takes(instr) + Leaves(instr.opcode))
  }

  lemma OperatorStep(p: CompiledProgram, r: Range, pc: nat, instr: Instruction, st: AbstractState)
    requires |st.init| == r.info.localCount && (M.IsBinary(instr.opcode) || instr.opcode in {Opcode.Neg, Opcode.Not})
    ensures Holds(p, r, pc, instr, st)
  {
  }

  lemma AccessStep(p: CompiledProgram, r: Range, pc: nat, instr: Instruction, st: AbstractState)
    requires |st.init| == r.info.localCount
    requires instr.opcode in {LoadLocal, StoreLocal, LoadGlobal, StoreGlobal, ArrayLoad, ArrayStore, LocalArrayLoad, LocalArrayStore}
    ensures Holds(p, r, pc, instr, st)
  {
  }

  lemma OtherStep(p: CompiledProgram, r: Range, pc: nat, instr: Instruction, st: AbstractState)
    requires |st.init| == r.info.localCount && !M.IsBinary(instr.opcode) && instr.opcode !in {Opcode.Neg, Opcode.Not}
    requires instr.opcode !in {LoadLocal, StoreLocal, LoadGlobal, StoreGlobal, ArrayLoad, ArrayStore, LocalArrayLoad, LocalArrayStore}
    ensures Holds(p, r, pc, instr, st)
  {
  }

  /** The verifier accepts an instruction exactly when it is legal and finds its operands, and moves the depth as the table says. */
  lemma StepsFollowTheTable(p: CompiledProgram, r: Range, pc: nat, instr: Instruction, st: AbstractState)
    requires |st.init| == r.info.localCount
    ensures var s := StepInstruction(p, r, pc, instr, st);
      && (s.Stepped? <==> Legal(p, r, instr) && Takes(instr) <= st.depth)
      && (s.Stepped? ==> s.st.depth == st.depth - Takes(instr) + Leaves(instr.opcode))
  {
    hide StepInstruction, Legal, Takes, Leaves;
    if M.IsBinary(instr.opcode) || instr.opcode in {Opcode.Neg, Opcode.Not} {
      OperatorStep(p, r, pc, instr, st);
    } else if instr.opcode in {LoadLocal, StoreLocal, LoadGlobal, StoreGlobal, ArrayLoad, ArrayStore, LocalArrayLoad, LocalArrayStore} {
      AccessStep(p, r, pc, instr, st);
    } else {
      OtherStep(p, r, pc, instr, st);
    }
  }

  // ---------------------------------------------------------------- the machine

  predicate Moves(instr: Instruction, st: M.State, step: M.Step) {
    match step
    case Advance(after) => |after.stack| == |st.stack| - Takes(instr) + Leaves(instr.opcode)
    case Jumped(after) => |after.stack| == |st.stack| - Takes(instr) + Leaves(instr.opcode)
    case Trapped(_, _) => true
  }

  lemma OperatorsMove(p: CompiledProgram, instr: Instruction, st: M.State)
    requires M.IsBinary(instr.opcode) || instr.opcode in {Opcode.Neg, Opcode.Not}
    ensures Takes(instr) > |st.stack| ==> M.Exec(p, instr, st) == M.Trapped(StackUnderflow, 0)
    ensures Takes(instr) <= |st.stack| ==> Moves(instr, st, M.Exec(p, instr, st))
  {
    hide M.Arith, NormalizeI32, Wrap64;
  }

  /** Away from calls and returns the machine moves its operands by the same table. */
  lemma OthersMove(p: CompiledProgram, instr: Instruction, st: M.State)
    requires !M.IsBinary(instr.opcode) && instr.opcode !in {Opcode.Neg, Opcode.Not, Opcode.Call, Opcode.Return, Halt}
    ensures Takes(instr) > |st.stack| ==> M.Exec(p, instr, st).Trapped?
    ensures Takes(instr) <= |st.stack| ==> Moves(instr, st, M.Exec(p, instr, st))
  {
  }

  /** The machine traps for want of operands, and otherwise moves them by the same table; a return hands its operand on. */
  lemma MachineFollowsTheTable(p: CompiledProgram, instr: Instruction, st: M.State)
    requires instr.opcode !in {Opcode.Call, Opcode.Return, Halt}
    ensures Takes(instr) > |st.stack| ==> M.Exec(p, instr, st).Trapped?
    ensures Takes(instr) <= |st.stack| ==> Moves(instr, st, M.Exec(p, instr, st))
  {
    hide M.Exec, Takes, Moves;
    if M.IsBinary(instr.opcode) || instr.opcode in {Opcode.Neg, Opcode.Not} {
      OperatorsMove(p, instr, st);
    } else {
      OthersMove(p, instr, st);
    }
  }
}
