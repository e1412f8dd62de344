/** The optimizer: three size-changing passes on jump-free single functions, then dead-code elimination on everything. */
module Optimizer {
  import opened Common
  import opened Int32
  import opened Limits
  import opened Bytecode
  import opened Relocation
  import opened Windows
  import opened WindowsCorrect
  import DeadCode
  import DeadCodeCorrect
  import M = Machine
  import P = ProgramVerifier
  import V = VerifierSound
  import R = VerifiedRuns

  // ---------------------------------------------------------------- the optimizer as it runs

  predicate CanRunSizeChangingPasses(p: CompiledProgram) {
    |p.functions| == 1 && NoJumps(p.instructions)
  }

  function Shrunk(p: CompiledProgram): CompiledProgram {
    if CanRunSizeChangingPasses(p) then Rewrite(Peephole, Rewrite(Reducing, Rewrite(Folding, p))) else p
  }

  ghost function Optimized(p: CompiledProgram): CompiledProgram {
    DeadCode.Pruned(Shrunk(p))
  }

  method AnyJump(code: seq<Instruction>) returns (found: bool)
    ensures found == !NoJumps(code)
  {
    for i := 0 to |code|
      invariant forall k :: 0 <= k < i ==> !IsJump(code[k].opcode)
    {
      if code[i].opcode == Opcode.Jump || code[i].opcode == Opcode.JumpIfFalse || code[i].opcode == Opcode.JumpIfTrue {
        return true;
      }
    }
    return false;
  }

  /** The three passes in turn when the program is one function without jumps, and the pruning in any case. */
  method Optimize(p: CompiledProgram) returns (q: CompiledProgram)
    ensures q == Optimized(p)
    ensures |p.functions| == 1 && NoJumps(p.instructions) ==>
      q == DeadCode.Pruned(Rewrite(Peephole, Rewrite(Reducing, Rewrite(Folding, p))))
    ensures |p.functions| != 1 || !NoJumps(p.instructions) ==> q == DeadCode.Pruned(p)
  {
    hide DeadCode.Pruned, Rewritten;
    var code := p.instructions;
    var jumps := AnyJump(code);
    if |p.functions| == 1 && !jumps {
      code := ConstantFolding(code);
      code := StrengthReduction(code);
      code := PeepholeOptimization(code);
    }
    var removed;
    q, removed := DeadCode.DeadCodeElimination(p.(instructions := code));
  }

  // ---------------------------------------------------------------- one pass on whole runs

  lemma PassAgrees(pass: Pass, p: CompiledProgram)
    requires |p.instructions| <= MAX_INSTRUCTIONS && NoJumps(p.instructions) && EntersAtZero(p)
    requires M.Validate(p).None? && Proper(M.Run(p)) && OperandsFit(p, M.Boot(p))
    ensures var q := Rewrite(pass, p);
      && |q.instructions| <= |p.instructions| && NoJumps(q.instructions) && EntersAtZero(q)
      && M.Validate(q).None? && SameOutcome(M.Run(p), M.Run(q)) && M.Run(q).cycles <= M.Run(p).cycles
      && Proper(M.Run(q)) && OperandsFit(q, M.Boot(q))
  {
    hide M.RunFrom, OperandsFit, Rewritten;
    var q := Rewrite(pass, p);
    RewrittenJumpFree(pass, p.instructions, 0);
    assert M.Validate(q) == M.Validate(p);
    StartsTracked(pass, p);
    RewrittenRunsFrom(pass, p, M.Boot(p), M.Boot(q));
  }

  lemma StartsTracked(pass: Pass, p: CompiledProgram)
    requires EntersAtZero(p) && p.mainFuncId in p.functions
    ensures Tracks(pass, p, M.Boot(p), M.Boot(Rewrite(pass, p)))
  {
    assert (0, 0) in Boundaries(pass, p.instructions);
  }

  lemma ShrunkAgrees(p: CompiledProgram)
    requires |p.instructions| <= MAX_INSTRUCTIONS && NoJumps(p.instructions) && EntersAtZero(p)
    requires M.Validate(p).None? && Proper(M.Run(p)) && OperandsFit(p, M.Boot(p))
    ensures var q := Shrunk(p);
      && |q.instructions| <= |p.instructions| && EntersAtZero(q)
      && M.Validate(q).None? && SameOutcome(M.Run(p), M.Run(q)) && M.Run(q).cycles <= M.Run(p).cycles
  {
    hide M.Run, M.Validate, M.Boot, OperandsFit, Rewrite;
    if CanRunSizeChangingPasses(p) {
      PassAgrees(Folding, p);
      PassAgrees(Reducing, Rewrite(Folding, p));
      PassAgrees(Peephole, Rewrite(Reducing, Rewrite(Folding, p)));
    }
  }

  // ---------------------------------------------------------------- the whole optimizer

  /** Code with jumps or several functions only loses what it cannot reach, and keeps even its cycle counts. */
  lemma OptimizedKeepsCycles(p: CompiledProgram)
    requires |p.instructions| <= MAX_INSTRUCTIONS && DeadCodeCorrect.EntriesInRange(p)
    requires !CanRunSizeChangingPasses(p)
    ensures DeadCodeCorrect.Agrees(M.Run(p), M.Run(Optimized(p)))
  {
    hide DeadCode.Pruned, M.Run;
    DeadCodeCorrect.PrunedRunsAgree(p);
  }

  /**
   * Optimized programs show what the original shows: success, value, trap code, output and depths, in no more cycles.
   * The passes move code without moving entries, so a single function must start at address 0.
   */
  lemma OptimizedRunsAgree(p: CompiledProgram)
    requires M.Validate(p).None? && DeadCodeCorrect.EntriesInRange(p)
    requires CanRunSizeChangingPasses(p) ==> EntersAtZero(p) && Proper(M.Run(p)) && OperandsFit(p, M.Boot(p))
    ensures var q := Optimized(p); SameOutcome(M.Run(p), M.Run(q)) && M.Run(q).cycles <= M.Run(p).cycles
  {
    hide M.Run, M.Boot, OperandsFit, Shrunk, DeadCode.Live, DeadCode.Compact, DeadCode.MoveEntries;
    if CanRunSizeChangingPasses(p) {
      ShrunkAgrees(p);
      var q := Shrunk(p);
      if q.instructions != [] {
        DeadCodeCorrect.PrunedRunsAgree(q);
      }
    } else {
      assert Shrunk(p) == p by {
        NotShrunk(p);
      }
      DeadCodeCorrect.PrunedRunsAgree(p);
    }
  }

  lemma NotShrunk(p: CompiledProgram)
    requires !CanRunSizeChangingPasses(p)
    ensures Shrunk(p) == p
  {
  }

  // ---------------------------------------------------------------- when arithmetic sees i32 values

  /** No arrays in local storage, whose bases are not i32 values. */
  predicate NoLocalArrays(code: seq<Instruction>) {
    forall i :: 0 <= i < |code| ==>
      code[i].opcode !in {Opcode.AllocArray, Opcode.ArrayNew, Opcode.LocalArrayLoad, Opcode.LocalArrayStore}
  }

  predicate AllNarrow(values: seq<int>) {
    forall i :: 0 <= i < |values| ==> IsI32(values[i])
  }

  /** Every value of the machine is an i32; locals may be undefined. */
  predicate NarrowState(s: M.State) {
    && AllNarrow(s.stack) && AllNarrow(s.globals)
    && forall i :: 0 <= i < |s.locals| ==> s.locals[i] == I64_MIN || IsI32(s.locals[i])
  }

  lemma ArithNarrow(op: Opcode, a: int, b: int)
    requires M.IsBinary(op) && (op == Opcode.Div ==> b != 0)
    ensures IsI32(M.Arith(op, a, b))
  {
    hide NormalizeI32, Wrap64, TruncDiv;
  }

  lemma OperatorNarrow(p: CompiledProgram, instr: Instruction, s: M.State)
    requires NarrowState(s) && (M.IsBinary(instr.opcode) || instr.opcode == Opcode.Neg || instr.opcode == Opcode.Not)
    ensures !M.Exec(p, instr, s).Jumped?
    ensures M.Exec(p, instr, s).Advance? ==> NarrowState(M.Exec(p, instr, s).st)
  {
    hide NormalizeI32, Wrap64, M.Arith;
    if M.IsBinary(instr.opcode) && |s.stack| >= 2 && !(instr.opcode == Opcode.Div && M.Top(s) == 0) {
      ArithNarrow(instr.opcode, s.stack[|s.stack| - 2], M.Top(s));
    }
  }

  lemma ControlNarrow(p: CompiledProgram, instr: Instruction, s: M.State)
    requires NarrowState(s) && !Plain(instr.opcode)
    ensures M.Exec(p, instr, s).Jumped? ==> NarrowState(M.Exec(p, instr, s).st)
    ensures M.Exec(p, instr, s).Advance? ==> NarrowState(M.Exec(p, instr, s).st)
  {
  }

  lemma StepNarrow(p: CompiledProgram, instr: Instruction, s: M.State)
    requires NarrowState(s) && NoLocalArrays([instr])
    ensures M.Exec(p, instr, s).Jumped? ==> NarrowState(M.Exec(p, instr, s).st)
    ensures M.Exec(p, instr, s).Advance? ==> NarrowState(M.Exec(p, instr, s).st)
  {
    hide M.ExecCall, M.ExecReturn, M.ExecHalt, M.Branch, M.ExecBinary, M.ExecUnary;
    assert [instr][0] == instr;
    if !Plain(instr.opcode) {
      ControlNarrow(p, instr, s);
    } else if M.IsBinary(instr.opcode) || instr.opcode == Opcode.Neg || instr.opcode == Opcode.Not {
      OperatorNarrow(p, instr, s);
    }
  }

  lemma {:induction false} NarrowRunsFit(p: CompiledProgram, s: M.State)
    requires NarrowState(s) && NoLocalArrays(p.instructions)
    ensures OperandsFit(p, s)
    decreases MAX_CYCLES - s.cycles
  {
    hide M.Exec;
    if s.cycles < MAX_CYCLES && s.pc < |p.instructions| {
      StepNarrow(p, p.instructions[s.pc], s.(cycles := s.cycles + 1));
      if M.TakeTurn(p, s).Next? {
        NarrowRunsFit(p, M.TakeTurn(p, s).st);
      }
    }
  }

  lemma NeverMisuses(p: CompiledProgram, s: M.State)
    requires NoLocalArrays(p.instructions)
    ensures !V.Misuses(p, s)
  {
  }

  lemma {:induction false} NoArraysIsDisciplined(p: CompiledProgram, s: M.State)
    requires NoLocalArrays(p.instructions)
    ensures V.Disciplined(p, s)
    decreases MAX_CYCLES - s.cycles
  {
    hide V.Misuses, M.TakeTurn;
    NeverMisuses(p, s);
    if M.TakeTurn(p, s).Next? {
      NoArraysIsDisciplined(p, M.TakeTurn(p, s).st);
    }
  }

  /**
   * Verified programs without local arrays need no further premise than the limits: unless the original overflows or
   * runs out of cycles, optimizing changes nothing it shows.
   */
  lemma VerifiedOptimizedRunsAgree(p: CompiledProgram, w: V.Proof)
    requires P.Valid(p) && V.Verified(p, w) && V.PlainMain(p) && NoLocalArrays(p.instructions)
    requires CanRunSizeChangingPasses(p) ==> EntersAtZero(p)
    requires M.Run(p).trap != StackOverflow && M.Run(p).trap != CycleLimit
    ensures var q := Optimized(p); SameOutcome(M.Run(p), M.Run(q)) && M.Run(q).cycles <= M.Run(p).cycles
  {
    hide P.Valid, V.Verified, V.Inv, V.Disciplined, OperandsFit, M.RunFrom, Optimized, R.StorageRunsOut, R.FramesRunOut;
    R.ValidRuns(p);
    VerifiedEntries(p, w);
    BootNarrow(p);
    NarrowRunsFit(p, M.Boot(p));
    NoArraysIsDisciplined(p, M.Boot(p));
    V.BootInv(p, w);
    SuccessIsNoTrap(p, M.Boot(p));
    R.RunExplained(p, w, M.Boot(p));
    OptimizedRunsAgree(p);
  }

  lemma {:induction false} SuccessIsNoTrap(p: CompiledProgram, s: M.State)
    ensures M.RunFrom(p, s).success ==> M.RunFrom(p, s).trap == NoTrap
    decreases MAX_CYCLES - s.cycles
  {
    hide M.Exec;
    if M.TakeTurn(p, s).Next? {
      SuccessIsNoTrap(p, M.TakeTurn(p, s).st);
    }
  }

  lemma BootNarrow(p: CompiledProgram)
    requires p.mainFuncId in p.functions
    ensures NarrowState(M.Boot(p))
  {
  }

  lemma VerifiedEntries(p: CompiledProgram, w: V.Proof)
    requires V.Verified(p, w)
    ensures DeadCodeCorrect.EntriesInRange(p)
  {
    forall id <- p.functions ensures p.functions[id].entryPc < |p.instructions| {
      assert V.FunctionVerified(p, w, id);
    }
  }

  // ---------------------------------------------------------------- where the passes show

  /** A function that does not start at address 0: folding moves its code, but not its entry. */
  function StartsLate(): CompiledProgram {
    CompiledProgram(
      [Load(1), Load(2), Instruction(Opcode.Add, 0, 0), Load(7), Instruction(Opcode.Return, 0, 0)],
      map[0 := FunctionInfo("main", 0, 3, 0, 0)], map[], 0)
  }

  lemma StartsLateFolds()
    ensures Rewrite(Folding, StartsLate()).instructions == [Load(3), Load(7), Instruction(Opcode.Return, 0, 0)]
  {
    var code := StartsLate().instructions;
    assert Folded(Opcode.Add, 1, 2) == Some(3);
    assert WindowAt(Folding, code, 0) == Window(3, [Load(3)]);
    assert Rewritten(Folding, code, 4) == [code[4]] + Rewritten(Folding, code, 5);
    assert Rewritten(Folding, code, 3) == [code[3]] + Rewritten(Folding, code, 4);
  }

  /** Without the premise on the entry, folding alone turns a result into a trap. */
  lemma FoldingMissesTheEntry()
    ensures var p := StartsLate();
      && CanRunSizeChangingPasses(p)
      && M.Run(p).success && M.Run(p).returnValue == 7
      && M.Run(Rewrite(Folding, p)).trap == InvalidInstruction
  {
    hide Rewrite;
    var p := StartsLate();
    assert M.Validate(p).None?;
    var s := M.Boot(p);
    assert M.TakeTurn(p, s).Next?;
    assert M.TakeTurn(p, M.TakeTurn(p, s).st).Stop?;
    StartsLateFolds();
    FoldedStops();
  }

  lemma FoldedStops()
    requires Rewrite(Folding, StartsLate()).instructions == [Load(3), Load(7), Instruction(Opcode.Return, 0, 0)]
    ensures M.Run(Rewrite(Folding, StartsLate())).trap == InvalidInstruction
  {
    hide M.Exec, Rewritten, NormalizeI32;
    var q := Rewrite(Folding, StartsLate());
    assert M.Validate(q).None?;
    assert M.TakeTurn(q, M.Boot(q)).Stop?;
  }
}
