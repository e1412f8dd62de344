/** Running the same instructions at other addresses: what the reference machine does not notice. */
module Relocation {
  import opened Common
  import opened Int32
  import opened Limits
  import opened Bytecode
  import M = Machine

  // Which address of the rewritten code stands for which address of the original.
  type Landing = iset<(nat, nat)>

  /** Both programs lay out this function's parameters and locals alike, or both lack it. */
  predicate SameLayout(p: CompiledProgram, q: CompiledProgram, id: nat) {
    && (id in p.functions <==> id in q.functions)
    && (id in p.functions ==>
          q.functions[id].paramCount == p.functions[id].paramCount && q.functions[id].localCount == p.functions[id].localCount)
  }

  ghost predicate SameFrame(p: CompiledProgram, q: CompiledProgram, at: Landing, f: M.Frame, g: M.Frame) {
    && g.basePtr == f.basePtr && g.funcId == f.funcId && SameLayout(p, q, f.funcId)
    && match (f.returnPc, g.returnPc)
       case (None, None) => true
       case (Some(a), Some(b)) => (a, b) in at
       case _ => false
  }

  ghost predicate SameCalls(p: CompiledProgram, q: CompiledProgram, at: Landing, fs: seq<M.Frame>, gs: seq<M.Frame>) {
    fs != [] && |gs| == |fs| && forall k :: 0 <= k < |fs| ==> SameFrame(p, q, at, fs[k], gs[k])
  }

  /** The same machine state, with addresses moved. */
  ghost predicate Moved(p: CompiledProgram, q: CompiledProgram, at: Landing, s: M.State, t: M.State) {
    && t == s.(pc := t.pc, calls := t.calls, cycles := t.cycles)
    && (s.pc, t.pc) in at && SameCalls(p, q, at, s.calls, t.calls)
  }

  /** What a run shows, leaving out how long it took and the address it stopped at. */
  predicate SameOutcome(r: M.Result, q: M.Result) {
    && q.success == r.success && q.returnValue == r.returnValue && q.trap == r.trap && q.output == r.output
    && q.stackDepth == r.stackDepth && q.frameDepth == r.frameDepth
  }

  predicate Plain(op: Opcode) {
    op !in {Opcode.Jump, Opcode.JumpIfFalse, Opcode.JumpIfTrue, Opcode.Call, Opcode.Return, Opcode.Halt}
  }

  /** A step's effect, made at the addresses of another state. */
  function Repoint(step: M.Step, t: M.State): M.Step {
    match step
    case Advance(st) => M.Advance(st.(pc := t.pc, calls := t.calls, cycles := t.cycles))
    case Jumped(st) => M.Jumped(st.(pc := t.pc, calls := t.calls, cycles := t.cycles))
    case Trapped(code, depth) => step
  }

  ghost predicate SameTop(p: CompiledProgram, q: CompiledProgram, s: M.State, t: M.State) {
    && t == s.(pc := t.pc, calls := t.calls, cycles := t.cycles)
    && s.calls != [] && t.calls != [] && M.CurrentFrame(s).funcId == M.CurrentFrame(t).funcId
    && M.CurrentFrame(s).basePtr == M.CurrentFrame(t).basePtr
    && SameLayout(p, q, M.CurrentFrame(s).funcId)
  }

  lemma SlotsAlike(p: CompiledProgram, q: CompiledProgram, s: M.State, t: M.State, raw: int)
    requires SameTop(p, q, s, t)
    ensures M.LocalSlot(q, t, raw) == M.LocalSlot(p, s, raw)
  {
  }

  predicate TouchesLocals(op: Opcode) {
    op in {Opcode.LoadLocal, Opcode.StoreLocal, Opcode.LocalArrayLoad, Opcode.LocalArrayStore}
  }

  lemma LocalsPlain(p: CompiledProgram, q: CompiledProgram, instr: Instruction, s: M.State, t: M.State)
    requires SameTop(p, q, s, t) && TouchesLocals(instr.opcode)
    ensures M.Exec(q, instr, t) == Repoint(M.Exec(p, instr, s), t)
    ensures M.Exec(p, instr, s).Trapped? || M.Exec(p, instr, s).Advance?
    ensures M.Exec(p, instr, s).Advance? ==> var st := M.Exec(p, instr, s).st; st.pc == s.pc && st.calls == s.calls
  {
    hide M.LocalSlot;
    SlotsAlike(p, q, s, t, instr.arg1);
  }

  predicate TouchesGlobals(op: Opcode) {
    op in {Opcode.LoadGlobal, Opcode.StoreGlobal, Opcode.ArrayLoad, Opcode.ArrayStore}
  }

  lemma GlobalsPlain(p: CompiledProgram, q: CompiledProgram, instr: Instruction, s: M.State, t: M.State)
    requires SameTop(p, q, s, t) && TouchesGlobals(instr.opcode)
    ensures M.Exec(q, instr, t) == Repoint(M.Exec(p, instr, s), t)
    ensures M.Exec(p, instr, s).Trapped? || M.Exec(p, instr, s).Advance?
    ensures M.Exec(p, instr, s).Advance? ==> var st := M.Exec(p, instr, s).st; st.pc == s.pc && st.calls == s.calls
  {
  }

  lemma OperatorsPlain(p: CompiledProgram, q: CompiledProgram, instr: Instruction, s: M.State, t: M.State)
    requires SameTop(p, q, s, t) && (M.IsBinary(instr.opcode) || instr.opcode == Opcode.Neg || instr.opcode == Opcode.Not)
    ensures M.Exec(q, instr, t) == Repoint(M.Exec(p, instr, s), t)
    ensures M.Exec(p, instr, s).Trapped? || M.Exec(p, instr, s).Advance?
    ensures M.Exec(p, instr, s).Advance? ==> var st := M.Exec(p, instr, s).st; st.pc == s.pc && st.calls == s.calls
  {
    hide M.Arith, NormalizeI32, Wrap64;
  }

  /** An instruction that leaves control alone does the same wherever it stands. */
  lemma PlainStep(p: CompiledProgram, q: CompiledProgram, instr: Instruction, s: M.State, t: M.State)
    requires SameTop(p, q, s, t) && Plain(instr.opcode)
    ensures M.Exec(q, instr, t) == Repoint(M.Exec(p, instr, s), t)
    ensures M.Exec(p, instr, s).Trapped? || M.Exec(p, instr, s).Advance?
    ensures M.Exec(p, instr, s).Advance? ==> var st := M.Exec(p, instr, s).st; st.pc == s.pc && st.calls == s.calls
  {
    hide M.LoadLocal, M.StoreLocal, M.LocalArrayLoad, M.LocalArrayStore, M.ExecBinary, M.ExecUnary,
      M.LoadGlobal, M.StoreGlobal, M.ArrayLoad, M.ArrayStore;
    if TouchesLocals(instr.opcode) {
      LocalsPlain(p, q, instr, s, t);
    } else if TouchesGlobals(instr.opcode) {
      GlobalsPlain(p, q, instr, s, t);
    } else if M.IsBinary(instr.opcode) || instr.opcode == Opcode.Neg || instr.opcode == Opcode.Not {
      OperatorsPlain(p, q, instr, s, t);
    }
  }

  lemma TopAlike(p: CompiledProgram, q: CompiledProgram, at: Landing, s: M.State, t: M.State)
    requires Moved(p, q, at, s, t)
    ensures SameTop(p, q, s, t)
  {
    assert SameFrame(p, q, at, s.calls[|s.calls| - 1], t.calls[|s.calls| - 1]);
  }

  // ---------------------------------------------------------------- one turn of the run loop

  predicate IsJump(op: Opcode) {
    op in {Opcode.Jump, Opcode.JumpIfFalse, Opcode.JumpIfTrue}
  }

  /** The same instruction, or a jump to where the original target has moved. */
  ghost predicate InstrAlike(at: Landing, i: Instruction, j: Instruction) {
    if IsJump(i.opcode) then j.opcode == i.opcode && (AsUsize(i.arg1), AsUsize(j.arg1)) in at else j == i
  }

  /** Control may go on to the next address. */
  predicate FallsThrough(op: Opcode) {
    op !in {Opcode.Jump, Opcode.Return, Opcode.Halt}
  }

  /** The functions the second program still has are the first program's, entered where their entries moved to. */
  ghost predicate FunctionsAlike(p: CompiledProgram, q: CompiledProgram, at: Landing) {
    forall id <- q.functions :: SameLayout(p, q, id) && (p.functions[id].entryPc, q.functions[id].entryPc) in at
  }

  /** This instruction does not call a function the second program lacks. */
  predicate CallsKept(p: CompiledProgram, q: CompiledProgram, instr: Instruction) {
    instr.opcode == Opcode.Call && (instr.arg1 as int) in p.functions ==> (instr.arg1 as int) in q.functions
  }

  ghost predicate StepsAlike(p: CompiledProgram, q: CompiledProgram, at: Landing, a: M.Step, b: M.Step) {
    match a
    case Trapped(code, depth) => b == a
    case Advance(s) => b.Advance? && Moved(p, q, at, s.(pc := s.pc + 1), b.st.(pc := b.st.pc + 1))
    case Jumped(s) =>
      b.Jumped? && (if s.calls == [] then b.st == s.(pc := b.st.pc, cycles := b.st.cycles) else Moved(p, q, at, s, b.st))
  }

  lemma BranchMoves(p: CompiledProgram, q: CompiledProgram, at: Landing, s: M.State, t: M.State, i: Instruction, j: Instruction)
    requires Moved(p, q, at, s, t) && IsJump(i.opcode) && InstrAlike(at, i, j)
    requires FallsThrough(i.opcode) ==> (s.pc + 1, t.pc + 1) in at
    ensures StepsAlike(p, q, at, M.Exec(p, i, s), M.Exec(q, j, t))
  {
    hide SameFrame;
  }

  lemma CallMoves(p: CompiledProgram, q: CompiledProgram, at: Landing, s: M.State, t: M.State, i: Instruction)
    requires Moved(p, q, at, s, t) && i.opcode == Opcode.Call
    requires FunctionsAlike(p, q, at) && CallsKept(p, q, i) && (s.pc + 1, t.pc + 1) in at
    ensures StepsAlike(p, q, at, M.Exec(p, i, s), M.Exec(q, i, t))
  {
    hide M.EnterFrame;
    TopAlike(p, q, at, s, t);
  }

  lemma ReturnMoves(p: CompiledProgram, q: CompiledProgram, at: Landing, s: M.State, t: M.State, i: Instruction)
    requires Moved(p, q, at, s, t) && (i.opcode == Opcode.Return || i.opcode == Opcode.Halt)
    ensures StepsAlike(p, q, at, M.Exec(p, i, s), M.Exec(q, i, t))
  {
    assert SameFrame(p, q, at, s.calls[|s.calls| - 1], t.calls[|s.calls| - 1]);
  }

  lemma PlainMoves(p: CompiledProgram, q: CompiledProgram, at: Landing, s: M.State, t: M.State, i: Instruction)
    requires Moved(p, q, at, s, t) && Plain(i.opcode) && (s.pc + 1, t.pc + 1) in at
    ensures StepsAlike(p, q, at, M.Exec(p, i, s), M.Exec(q, i, t))
  {
    hide M.Exec, SameCalls;
    TopAlike(p, q, at, s, t);
    PlainStep(p, q, i, s, t);
  }

  lemma StepMoves(p: CompiledProgram, q: CompiledProgram, at: Landing, s: M.State, t: M.State, i: Instruction, j: Instruction)
    requires Moved(p, q, at, s, t) && InstrAlike(at, i, j)
    requires FunctionsAlike(p, q, at) && CallsKept(p, q, i)
    requires FallsThrough(i.opcode) ==> (s.pc + 1, t.pc + 1) in at
    ensures StepsAlike(p, q, at, M.Exec(p, i, s), M.Exec(q, j, t))
  {
    hide M.Exec, Moved, StepsAlike, FunctionsAlike;
    if IsJump(i.opcode) {
      BranchMoves(p, q, at, s, t, i, j);
    } else if i.opcode == Opcode.Call {
      CallMoves(p, q, at, s, t, i);
    } else if i.opcode == Opcode.Return || i.opcode == Opcode.Halt {
      ReturnMoves(p, q, at, s, t, i);
    } else {
      PlainMoves(p, q, at, s, t, i);
    }
  }

  ghost predicate TurnsAlike(p: CompiledProgram, q: CompiledProgram, at: Landing, a: M.Turn, b: M.Turn) {
    match a
    case Next(s) => b.Next? && Moved(p, q, at, s, b.st)
    case Stop(r) => b.Stop? && SameOutcome(r, b.result)
  }

  predicate Took(turn: M.Turn, cycles: nat) {
    match turn case Next(s) => s.cycles == cycles case Stop(r) => r.cycles == cycles
  }

  /** Fetched at related addresses, related instructions take related turns. */
  lemma TurnMoves(p: CompiledProgram, q: CompiledProgram, at: Landing, s: M.State, t: M.State)
    requires Moved(p, q, at, s, t) && s.cycles < MAX_CYCLES && t.cycles < MAX_CYCLES
    requires s.pc < |p.instructions| && t.pc < |q.instructions|
    requires InstrAlike(at, p.instructions[s.pc], q.instructions[t.pc])
    requires FunctionsAlike(p, q, at) && CallsKept(p, q, p.instructions[s.pc])
    requires FallsThrough(p.instructions[s.pc].opcode) ==> (s.pc + 1, t.pc + 1) in at
    ensures TurnsAlike(p, q, at, M.TakeTurn(p, s), M.TakeTurn(q, t))
    ensures Took(M.TakeTurn(p, s), s.cycles + 1) && Took(M.TakeTurn(q, t), t.cycles + 1)
  {
    hide M.Exec, InstrAlike, FunctionsAlike, CallsKept, SameFrame;
    StepMoves(p, q, at, s.(cycles := s.cycles + 1), t.(cycles := t.cycles + 1), p.instructions[s.pc], q.instructions[t.pc]);
  }
}
