/**
 * When the two machines may report a limit: a run is cut only where the next instruction does not fit the operand stack,
 * the call stack or the storage for locals, or with the last allowed cycle spent; and no run passes a limit.
 */
module MachineLimits {
  import opened Common
  import opened Int32
  import opened Limits
  import opened Bytecode
  import M = Machine
  import G = GcMachine

  /** The instructions that leave more operands than they find. */
  predicate Grows(op: Opcode) {
    op in {LoadConst, LoadLocal, LoadGlobal, AllocArray, ArrayNew, Dup}
  }

  // ---------------------------------------------------------------- the reference machine

  predicate FrameFits(p: CompiledProgram, f: M.Frame) {
    f.funcId in p.functions ==> f.basePtr + p.functions[f.funcId].localCount <= MAX_LOCAL_SLOTS
  }

  /** A running state inside all limits. */
  predicate Bounded(p: CompiledProgram, st: M.State) {
    && |st.stack| <= MAX_OPERAND_STACK && st.cycles <= MAX_CYCLES
    && 0 < |st.calls| <= MAX_FRAMES && forall f <- st.calls :: FrameFits(p, f)
  }

  /** The locals of the function behind those of the running frame. */
  predicate LocalsFit(p: CompiledProgram, st: M.State, id: nat)
    requires st.calls != [] && id in p.functions
  {
    var f := st.calls[|st.calls| - 1];
    var end := if f.funcId in p.functions then f.basePtr + p.functions[f.funcId].localCount else f.basePtr;
    end + p.functions[id].localCount <= MAX_LOCAL_SLOTS
  }

  /** The next instruction needs room that is not there. */
  predicate Full(p: CompiledProgram, st: M.State) {
    && st.calls != [] && st.pc < |p.instructions|
    && var instr := p.instructions[st.pc];
      || (Grows(instr.opcode) && |st.stack| == MAX_OPERAND_STACK)
      || (instr.opcode == Opcode.Call && instr.arg1 in p.functions
          && (|st.calls| == MAX_FRAMES || !LocalsFit(p, st, instr.arg1)))
  }

  /** What an instruction may do at a limit. */
  predicate Keeps(p: CompiledProgram, st: M.State, step: M.Step) {
    match step
    case Trapped(code, _) => (code == StackOverflow ==> Full(p, st)) && code != CycleLimit
    case Advance(after) => !Full(p, st) && |after.stack| <= MAX_OPERAND_STACK && after.calls == st.calls
    case Jumped(after) =>
      && !Full(p, st) && |after.stack| <= MAX_OPERAND_STACK && |after.calls| <= MAX_FRAMES
      && forall f <- after.calls :: FrameFits(p, f)
  }

  lemma OperatorsKeep(p: CompiledProgram, st: M.State)
    requires Bounded(p, st) && st.pc < |p.instructions|
    requires var op := p.instructions[st.pc].opcode; M.IsBinary(op) || op == Opcode.Neg || op == Opcode.Not
    ensures Keeps(p, st, M.Exec(p, p.instructions[st.pc], st))
  {
    hide NormalizeI32, Wrap64, M.Arith, FrameFits, LocalsFit;
  }

  lemma NamesKeep(p: CompiledProgram, st: M.State)
    requires Bounded(p, st) && st.pc < |p.instructions|
    requires p.instructions[st.pc].opcode in {LoadConst, LoadLocal, StoreLocal, LoadGlobal, StoreGlobal, Opcode.Pop, Dup, Opcode.Print}
    ensures Keeps(p, st, M.Exec(p, p.instructions[st.pc], st))
  {
    hide LocalsFit;
    assert FrameFits(p, st.calls[|st.calls| - 1]);
  }

  lemma ArraysKeep(p: CompiledProgram, st: M.State)
    requires Bounded(p, st) && st.pc < |p.instructions|
    requires p.instructions[st.pc].opcode in {ArrayLoad, ArrayStore, LocalArrayLoad, LocalArrayStore, AllocArray, ArrayNew}
    ensures Keeps(p, st, M.Exec(p, p.instructions[st.pc], st))
  {
    hide LocalsFit;
    assert FrameFits(p, st.calls[|st.calls| - 1]);
  }

  lemma JumpsKeep(p: CompiledProgram, st: M.State)
    requires Bounded(p, st) && st.pc < |p.instructions|
    requires p.instructions[st.pc].opcode in {Jump, JumpIfFalse, JumpIfTrue, Opcode.Return, Halt}
    ensures Keeps(p, st, M.Exec(p, p.instructions[st.pc], st))
  {
    hide LocalsFit, FrameFits;
  }

  lemma CallKeeps(p: CompiledProgram, st: M.State)
    requires Bounded(p, st) && st.pc < |p.instructions|
    requires p.instructions[st.pc].opcode == Opcode.Call
    ensures Keeps(p, st, M.Exec(p, p.instructions[st.pc], st))
  {
  }

  lemma InstructionKeeps(p: CompiledProgram, st: M.State)
    requires Bounded(p, st) && st.pc < |p.instructions|
    ensures Keeps(p, st, M.Exec(p, p.instructions[st.pc], st))
  {
    hide Keeps, M.Exec, FrameFits;
    var op := p.instructions[st.pc].opcode;
    if M.IsBinary(op) || op == Opcode.Neg || op == Opcode.Not {
      OperatorsKeep(p, st);
    } else if op in {LoadConst, LoadLocal, StoreLocal, LoadGlobal, StoreGlobal, Opcode.Pop, Dup, Opcode.Print} {
      NamesKeep(p, st);
    } else if op in {ArrayLoad, ArrayStore, LocalArrayLoad, LocalArrayStore, AllocArray, ArrayNew} {
      ArraysKeep(p, st);
    } else if op == Opcode.Call {
      CallKeeps(p, st);
    } else {
      JumpsKeep(p, st);
    }
  }

  /**
   * A turn is cut by a limit only where it is met, and never gets past one: the cycle limit exactly with all cycles
   * spent, and a turn that goes on has room for its instruction.
   */
  lemma TurnsAreCutByTheirLimit(p: CompiledProgram, st: M.State)
    requires Bounded(p, st)
    ensures M.TakeTurn(p, st).Next? ==> Bounded(p, M.TakeTurn(p, st).st) && !Full(p, st)
    ensures M.TakeTurn(p, st).Stop? ==> var r := M.TakeTurn(p, st).result;
      && (r.trap == StackOverflow ==> Full(p, st) && st.cycles < MAX_CYCLES)
      && (r.trap == CycleLimit <==> st.cycles == MAX_CYCLES)
      && (r.success ==> !Full(p, st) && r.trap == NoTrap)
  {
    hide M.Exec, FrameFits;
    if st.cycles < MAX_CYCLES && st.pc < |p.instructions| {
      InstructionKeeps(p, st.(cycles := st.cycles + 1));
    }
  }

  /** A limit is where a run stopped, not only what it says. */
  ghost predicate StoppedFull(p: CompiledProgram, r: M.Result) {
    exists st: M.State :: Bounded(p, st) && Full(p, st) && M.TakeTurn(p, st) == M.Stop(r)
  }

  lemma {:induction false} RunsFromAreCut(p: CompiledProgram, st: M.State)
    requires Bounded(p, st)
    ensures var r := M.RunFrom(p, st);
      && (r.trap == StackOverflow ==> StoppedFull(p, r))
      && (r.trap == CycleLimit ==> r.cycles == MAX_CYCLES)
    decreases MAX_CYCLES - st.cycles
  {
    hide Full, Bounded;
    BoundedParts(p, st);
    TurnsAreCutByTheirLimit(p, st);
    match M.TakeTurn(p, st) {
      case Next(after) => RunsFromAreCut(p, after);
      case Stop(r) =>
        if r.trap == CycleLimit {
          LastCycle(p, st);
        }
    }
  }

  lemma BoundedParts(p: CompiledProgram, st: M.State)
    requires Bounded(p, st)
    ensures st.cycles <= MAX_CYCLES && st.calls != []
  {
  }

  lemma LastCycle(p: CompiledProgram, st: M.State)
    requires st.cycles == MAX_CYCLES
    ensures M.TakeTurn(p, st) == M.Stop(M.TrapResult(st, CycleLimit, |st.stack|))
  {
  }

  /** A run reports a full stack only where it stopped full or when a function alone has too many locals. */
  lemma RunsAreCutByTheirLimit(p: CompiledProgram)
    ensures var r := M.Run(p);
      && (r.trap == StackOverflow ==>
            StoppedFull(p, r) || exists id <- p.functions :: p.functions[id].localCount > MAX_LOCAL_SLOTS)
      && (r.trap == CycleLimit ==> r.cycles == MAX_CYCLES)
  {
    hide M.TakeTurn, Full;
    if M.Validate(p).None? {
      RunsFromAreCut(p, M.Boot(p));
    }
  }

  lemma ValidatedRunsAreCut(p: CompiledProgram)
    ensures M.Validate(p).None? && M.Run(p).trap == StackOverflow ==> StoppedFull(p, M.Run(p))
    ensures M.Run(p).trap == CycleLimit ==> M.Run(p).cycles == MAX_CYCLES
  {
    hide StoppedFull, M.RunFrom;
    RunsAreCutByTheirLimit(p);
  }

  // ---------------------------------------------------------------- the collecting machine

  predicate GcBounded(st: G.State) {
    |st.stack| <= MAX_OPERAND_STACK && st.cycles <= MAX_CYCLES && 0 < |st.calls| <= MAX_FRAMES
  }

  predicate GcFull(p: CompiledProgram, st: G.State) {
    && st.pc < |p.instructions|
    && var instr := p.instructions[st.pc];
      || (Grows(instr.opcode) && |st.stack| == MAX_OPERAND_STACK)
      || (instr.opcode == Opcode.Call && instr.arg1 in p.functions && |st.calls| == MAX_FRAMES)
  }

  predicate GcKeeps(p: CompiledProgram, st: G.State, step: G.Step) {
    match step
    case Trapped(code, _) => (code == StackOverflow ==> GcFull(p, st)) && code != CycleLimit
    case Advance(after) => !GcFull(p, st) && |after.stack| <= MAX_OPERAND_STACK && |after.calls| == |st.calls|
    case Jumped(after) => !GcFull(p, st) && |after.stack| <= MAX_OPERAND_STACK && |after.calls| <= MAX_FRAMES
  }

  lemma GcOperatorsKeep(p: CompiledProgram, st: G.State)
    requires GcBounded(st) && st.pc < |p.instructions|
    requires var op := p.instructions[st.pc].opcode; M.IsBinary(op) || op == Opcode.Neg || op == Opcode.Not
    ensures GcKeeps(p, st, G.Exec(p, p.instructions[st.pc], st))
  {
    hide NormalizeI32, Wrap64, G.Arith;
  }

  lemma GcAllocKeeps(p: CompiledProgram, st: G.State)
    requires GcBounded(st) && st.pc < |p.instructions|
    requires p.instructions[st.pc].opcode in {AllocArray, ArrayNew}
    ensures GcKeeps(p, st, G.Exec(p, p.instructions[st.pc], st))
  {
    hide G.Alloc;
    var size := p.instructions[st.pc].arg1;
    if size >= 0 {
      G.AllocKeepsStack(st, size);
    }
  }

  lemma GcNamesKeep(p: CompiledProgram, st: G.State)
    requires GcBounded(st) && st.pc < |p.instructions|
    requires p.instructions[st.pc].opcode in {LoadConst, LoadLocal, StoreLocal, LoadGlobal, StoreGlobal, Opcode.Pop, Dup, Opcode.Print}
    ensures GcKeeps(p, st, G.Exec(p, p.instructions[st.pc], st))
  {
    hide G.Alloc;
  }

  lemma GcArraysKeep(p: CompiledProgram, st: G.State)
    requires GcBounded(st) && st.pc < |p.instructions|
    requires p.instructions[st.pc].opcode in {ArrayLoad, ArrayStore, LocalArrayLoad, LocalArrayStore}
    ensures GcKeeps(p, st, G.Exec(p, p.instructions[st.pc], st))
  {
    hide G.Alloc;
  }

  lemma GcJumpsKeep(p: CompiledProgram, st: G.State)
    requires GcBounded(st) && st.pc < |p.instructions|
    requires p.instructions[st.pc].opcode in {Jump, JumpIfFalse, JumpIfTrue, Opcode.Call, Opcode.Return, Halt}
    ensures GcKeeps(p, st, G.Exec(p, p.instructions[st.pc], st))
  {
    hide G.Alloc, G.NewFrame;
  }

  lemma GcTurnsAreCutByTheirLimit(p: CompiledProgram, st: G.State)
    requires GcBounded(st)
    ensures G.TakeTurn(p, st).Next? ==> GcBounded(G.TakeTurn(p, st).st) && !GcFull(p, st)
    ensures G.TakeTurn(p, st).Stop? ==> var r := G.TakeTurn(p, st).result;
      && (r.trap == StackOverflow ==> GcFull(p, st) && st.cycles < MAX_CYCLES)
      && (r.trap == CycleLimit <==> st.cycles == MAX_CYCLES)
      && (r.success ==> !GcFull(p, st) && r.trap == NoTrap)
  {
    hide G.Exec;
    if st.cycles < MAX_CYCLES && st.pc < |p.instructions| {
      var fetched := st.(cycles := st.cycles + 1);
      var op := p.instructions[st.pc].opcode;
      if M.IsBinary(op) || op == Opcode.Neg || op == Opcode.Not {
        GcOperatorsKeep(p, fetched);
      } else if op in {LoadConst, LoadLocal, StoreLocal, LoadGlobal, StoreGlobal, Opcode.Pop, Dup, Opcode.Print} {
        GcNamesKeep(p, fetched);
      } else if op in {ArrayLoad, ArrayStore, LocalArrayLoad, LocalArrayStore} {
        GcArraysKeep(p, fetched);
      } else if op == AllocArray || op == ArrayNew {
        GcAllocKeeps(p, fetched);
      } else {
        GcJumpsKeep(p, fetched);
      }
    }
  }
}
