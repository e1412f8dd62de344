/** Whole runs of verified programs: which traps they can end with, and how deep their calls go. */
module VerifiedRuns {
  import opened Common
  import opened Limits
  import opened Bytecode
  import opened VerifierSound
  import opened ProgramVerifier
  import FrameDepth
  import V = Verifier
  import W = Worklist
  import M = Machine

  // ---------------------------------------------------------------- the call stack is a chain of calls

  function Functions(calls: seq<M.Frame>): (ids: seq<nat>)
    ensures |ids| == |calls|
  {
    seq(|calls|, i requires 0 <= i < |calls| => calls[i].funcId)
  }

  /** Local slots that a chain of calls needs. */
  function Storage(p: CompiledProgram, path: seq<nat>): nat {
    if path == [] then 0
    else
      var last := path[|path| - 1];
      Storage(p, path[..|path| - 1]) + if last in p.functions then p.functions[last].localCount else 0
  }

  lemma CallsChain(p: CompiledProgram, w: Proof, s: M.State)
    requires Inv(p, w, s)
    ensures FrameDepth.Chain(w.edges, p.mainFuncId, Functions(s.calls))
  {
    hide FrameOk, Owed;
    var path := Functions(s.calls);
    forall k | 0 <= k < |path| - 1 ensures (path[k], path[k + 1]) in w.edges {
      assert LinkOk(p, w, s.calls[k], s.calls[k + 1], s.locals);
    }
  }

  lemma {:induction false} StorageUsed(p: CompiledProgram, w: Proof, calls: seq<M.Frame>, locals: seq<int>)
    requires calls != [] && calls[0].basePtr == 0
    requires forall k :: 0 <= k < |calls| - 1 ==> LinkOk(p, w, calls[k], calls[k + 1], locals)
    ensures Storage(p, Functions(calls)) == FrameEnd(p, calls[|calls| - 1])
    decreases |calls|
  {
    hide WindowOk;
    var before := calls[..|calls| - 1];
    assert Functions(calls)[..|calls| - 1] == Functions(before);
    if |calls| > 1 {
      StorageUsed(p, w, before, locals);
      assert LinkOk(p, w, calls[|calls| - 2], calls[|calls| - 1], locals);
    }
  }

  /** The call stack is never deeper than the longest chain of calls. */
  lemma DepthBounded(p: CompiledProgram, w: Proof, s: M.State, depth: nat)
    requires Inv(p, w, s) && FrameDepth.Longest(w.edges, p.mainFuncId, depth)
    ensures |s.calls| <= depth
  {
    hide LinkOk, FrameOk, Owed;
    CallsChain(p, w, s);
  }

  // ---------------------------------------------------------------- causes of overflow

  /** Some chain of calls from main needs more local slots than there are. */
  ghost predicate StorageRunsOut(p: CompiledProgram, edges: FrameDepth.Edges) {
    exists path :: FrameDepth.Chain(edges, p.mainFuncId, path) && Storage(p, path) > MAX_LOCAL_SLOTS
  }

  /** Some chain of calls from main needs more frames than there are. */
  ghost predicate FramesRunOut(p: CompiledProgram, edges: FrameDepth.Edges) {
    exists path :: FrameDepth.Chain(edges, p.mainFuncId, path) && |path| > MAX_FRAMES
  }

  /** How a run may end: with a result, out of cycles, out of a resource, or with a trap the verifier announced. */
  ghost predicate Explained(p: CompiledProgram, w: Proof, r: M.Result) {
    MayStop(w, r) && (r.trap == StackOverflow ==>
      r.stackDepth >= MAX_OPERAND_STACK || StorageRunsOut(p, w.edges) || FramesRunOut(p, w.edges))
  }

  /** One call beyond the frames that are there. */
  lemma CallTooDeep(p: CompiledProgram, w: Proof, s: M.State, callee: nat)
    requires Inv(p, w, s) && (M.CurrentFrame(s).funcId, callee) in w.edges && callee in p.functions
    ensures |s.calls| >= MAX_FRAMES ==> FramesRunOut(p, w.edges)
    ensures FrameEnd(p, M.CurrentFrame(s)) + p.functions[callee].localCount > MAX_LOCAL_SLOTS ==> StorageRunsOut(p, w.edges)
  {
    hide LinkOk, FrameOk, Owed;
    CallsChain(p, w, s);
    StorageUsed(p, w, s.calls, s.locals);
    var path := Functions(s.calls);
    var longer := path + [callee];
    assert longer[..|path|] == path;
    forall k | 0 <= k < |longer| - 1 ensures (longer[k], longer[k + 1]) in w.edges {
      if k < |path| - 1 {
        assert longer[k] == path[k] && longer[k + 1] == path[k + 1];
      }
    }
    assert FrameDepth.Chain(w.edges, p.mainFuncId, longer);
  }

  lemma OverflowOfCall(p: CompiledProgram, s: M.State, instr: Instruction)
    requires s.calls != [] && instr.opcode == Opcode.Call && instr.arg1 in p.functions && instr.arg1 >= 0
    requires M.Exec(p, instr, s).Trapped? && M.Exec(p, instr, s).code == StackOverflow
    ensures |s.calls| >= MAX_FRAMES || FrameEnd(p, M.CurrentFrame(s)) + p.functions[instr.arg1].localCount > MAX_LOCAL_SLOTS
  {
    assert M.Exec(p, instr, s) == M.ExecCall(p, s, instr.arg1, instr.arg2);
  }

  lemma OverflowOfOthers(p: CompiledProgram, s: M.State, r: V.Range, st: V.AbstractState, instr: Instruction)
    requires Starts(p, s, r, st) && V.StepInstruction(p, r, s.pc, instr, st).Stepped? && instr.opcode != Opcode.Call
    requires M.Exec(p, instr, s).Trapped? && M.Exec(p, instr, s).code == StackOverflow
    ensures M.Exec(p, instr, s).depth >= MAX_OPERAND_STACK
  {
  }

  lemma OverflowExplained(p: CompiledProgram, w: Proof, s: M.State)
    requires Verified(p, w) && Inv(p, w, s) && !Misuses(p, s)
    requires M.TakeTurn(p, s).Stop?
    ensures Explained(p, w, M.TakeTurn(p, s).result)
  {
    hide V.StepInstruction, M.Exec, Starts, FrameOk, LinkOk, Owed, Verified, FunctionVerified, Misuses, W.Flows, W.Solved, Inv,
         StorageRunsOut, FramesRunOut, MayStop;
    StepSound(p, w, s);
    if M.TakeTurn(p, s).result.trap == StackOverflow {
      InvParts(p, w, s);
      AtInstruction(p, w, s);
      var instr, id := p.instructions[s.pc], M.CurrentFrame(s).funcId;
      if instr.opcode == Opcode.Call {
        CallChecked(p, w, s);
        CallTooDeep(p, w, s, instr.arg1);
        OverflowOfCall(p, Ticked(s), instr);
      } else {
        OverflowOfOthers(p, Ticked(s), w.ranges[id], w.states[id][s.pc], instr);
      }
    }
  }

  // ---------------------------------------------------------------- runs

  /** The traps of code that makes no sense. */
  predicate Malformed(code: TrapCode) {
    code == StackUnderflow || code == InvalidInstruction || code == UndefinedFunction
  }

  function StateAfter(p: CompiledProgram, s: M.State, turns: nat): Option<M.State>
    decreases turns
  {
    if turns == 0 then Some(s)
    else
      match M.TakeTurn(p, s)
      case Stop(_) => None
      case Next(s') => StateAfter(p, s', turns - 1)
  }

  lemma {:induction false} InvAfter(p: CompiledProgram, w: Proof, s: M.State, turns: nat)
    requires Verified(p, w) && Inv(p, w, s) && Disciplined(p, s)
    ensures StateAfter(p, s, turns).Some? ==> Inv(p, w, StateAfter(p, s, turns).value)
    decreases turns
  {
    hide M.TakeTurn, Inv, Verified, Misuses;
    if turns > 0 {
      StepSound(p, w, s);
      match M.TakeTurn(p, s) {
        case Stop(_) =>
        case Next(s') => InvAfter(p, w, s', turns - 1);
      }
    }
  }

  /** Control is in the running function's own stretch of code, with the operands its next instruction takes. */
  ghost predicate InsideFunction(p: CompiledProgram, w: Proof, s: M.State) {
    && s.calls != []
    && var id := M.CurrentFrame(s).funcId;
       && id in p.functions && id in w.ranges
       && W.RangeOk(p, w.ranges[id]) && w.ranges[id].start == p.functions[id].entryPc
       && V.InRange(w.ranges[id], s.pc)
       && |s.stack| >= StateAt(w, id, s.pc).depth
  }

  /** On every reachable state of a verified program the invariant holds and control is inside the running function. */
  lemma ControlStaysInside(p: CompiledProgram, w: Proof, turns: nat)
    requires Verified(p, w) && PlainMain(p) && Disciplined(p, M.Boot(p))
    ensures var s := StateAfter(p, M.Boot(p), turns); s.Some? ==> Inv(p, w, s.value) && InsideFunction(p, w, s.value)
  {
    hide Inv, Disciplined, FunctionVerified, W.Flows, V.StepInstruction;
    BootInv(p, w);
    InvAfter(p, w, M.Boot(p), turns);
    var s := StateAfter(p, M.Boot(p), turns);
    if s.Some? {
      InvIsInside(p, w, s.value);
    }
  }

  lemma InvIsInside(p: CompiledProgram, w: Proof, s: M.State)
    requires Verified(p, w) && Inv(p, w, s)
    ensures InsideFunction(p, w, s)
  {
    hide W.Flows, V.StepInstruction, LinkOk;
    InvParts(p, w, s);
    assert FunctionVerified(p, w, M.CurrentFrame(s).funcId);
  }

  lemma {:induction false} RunExplained(p: CompiledProgram, w: Proof, s: M.State)
    requires Verified(p, w) && Inv(p, w, s) && Disciplined(p, s)
    ensures Explained(p, w, M.RunFrom(p, s))
    decreases MAX_CYCLES - s.cycles
  {
    hide M.TakeTurn, M.Exec, Inv, Verified, Misuses, Explained;
    StepSound(p, w, s);
    match M.TakeTurn(p, s) {
      case Stop(_) => OverflowExplained(p, w, s);
      case Next(s') => RunExplained(p, w, s');
    }
  }

  /** A result reports the depth of the last state's call stack. */
  lemma {:induction false} RunDepth(p: CompiledProgram, w: Proof, s: M.State, depth: nat)
    requires Verified(p, w) && Inv(p, w, s) && Disciplined(p, s) && FrameDepth.Longest(w.edges, p.mainFuncId, depth)
    ensures M.RunFrom(p, s).frameDepth <= depth
    decreases MAX_CYCLES - s.cycles
  {
    hide M.TakeTurn, M.Exec, Inv, Verified, Misuses, FrameDepth.Longest;
    StepSound(p, w, s);
    match M.TakeTurn(p, s) {
      case Stop(_) =>
        DepthBounded(p, w, s, depth);
        StopDepth(p, s);
      case Next(s') => RunDepth(p, w, s', depth);
    }
  }

  lemma StopDepth(p: CompiledProgram, s: M.State)
    requires M.TakeTurn(p, s).Stop?
    ensures M.TakeTurn(p, s).result.frameDepth <= |s.calls|
  {
    hide M.Exec;
  }

  lemma ValidRuns(p: CompiledProgram)
    requires Valid(p)
    ensures M.Validate(p) == None
  {
    hide FunctionSound;
    forall id | id in p.functions ensures p.functions[id].paramCount <= p.functions[id].localCount <= MAX_LOCAL_SLOTS {
      assert InfoOk(p, id);
    }
    forall x | x in p.globals ensures GlobalOk(p.globals[x]) {
    }
  }

  /**
   * A valid program that respects its array slots succeeds, runs out of cycles, or ends with a trap the report
   * announced; it never underflows the stack, meets an invalid instruction, or calls a function that is not there. The
   * one trap the report can miss is StackOverflow, and then the operand stack was full or a chain of calls needs more
   * than all local slots.
   */
  lemma VerifiedRunsAreSafe(p: CompiledProgram, report: Report, w: Proof)
    requires Valid(p) && Backed(p, report, w) && PlainMain(p) && Disciplined(p, M.Boot(p))
    requires report.maxFrameDepth.Some? ==> FrameDepth.Longest(report.edges, p.mainFuncId, report.maxFrameDepth.value)
    requires report.maxFrameDepth.None? || report.maxFrameDepth.value > MAX_FRAMES ==> StackOverflow in report.traps
    ensures var r := M.Run(p);
      && (r.success || r.trap == CycleLimit || (r.trap in report.traps && !Malformed(r.trap))
          || (r.trap == StackOverflow && (r.stackDepth >= MAX_OPERAND_STACK || StorageRunsOut(p, report.edges))))
      && (!r.success ==> !Malformed(r.trap))
      && (report.maxFrameDepth.Some? ==> r.frameDepth <= report.maxFrameDepth.value)
  {
    hide Valid, Verified, Inv, Disciplined, M.RunFrom, StorageRunsOut;
    ValidRuns(p);
    BootInv(p, w);
    RunExplained(p, w, M.Boot(p));
    if report.maxFrameDepth.Some? {
      RunDepth(p, w, M.Boot(p), report.maxFrameDepth.value);
    }
  }
}
