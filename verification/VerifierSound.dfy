/** What verified bytecode cannot do on the machine. */
module VerifierSound {
  import opened Common
  import opened Int32
  import opened Limits
  import opened Bytecode
  import opened Verifier
  import opened Worklist
  import M = Machine

  // ---------------------------------------------------------------- verified programs

  // What the verifier found out: one range and one solution per function, the possible traps and the call edges.
  datatype Proof = Proof(ranges: map<nat, Range>, states: map<nat, States>, traps: set<TrapCode>, edges: set<(nat, nat)>)

  ghost predicate FunctionVerified(p: CompiledProgram, w: Proof, id: nat)
    requires id in p.functions
  {
    && id in w.ranges && id in w.states
    && var r := w.ranges[id];
       && r.id == id && r.info == p.functions[id] && r.start == p.functions[id].entryPc
       && RangeOk(p, r)
       && r.info.paramCount <= r.info.localCount <= MAX_LOCAL_SLOTS
       && Solved(p, r, w.states[id], w.traps, w.edges)
  }

  ghost predicate Verified(p: CompiledProgram, w: Proof) {
    p.mainFuncId in p.functions && forall id <- p.functions :: FunctionVerified(p, w, id)
  }

  /** What the machine takes for granted about main: its own id is its key, and it has no parameters to receive. */
  predicate PlainMain(p: CompiledProgram) {
    p.mainFuncId in p.functions && p.functions[p.mainFuncId].id == p.mainFuncId && p.functions[p.mainFuncId].paramCount == 0
  }

  // ---------------------------------------------------------------- the invariant

  predicate Defined(values: seq<int>) {
    forall i :: 0 <= i < |values| ==> values[i] != I64_MIN
  }

  /** The verifier's state for a frame that is at pc. */
  function StateAt(w: Proof, id: nat, pc: nat): AbstractState {
    if id in w.states && pc in w.states[id] then w.states[id][pc] else AbstractState(0, [])
  }

  /** Marked locals of a frame really are defined. */
  predicate WindowOk(init: seq<bool>, base: nat, locals: seq<int>) {
    forall l :: 0 <= l < |init| && init[l] && base + l < |locals| ==> locals[base + l] != I64_MIN
  }

  ghost predicate FrameOk(p: CompiledProgram, w: Proof, frame: M.Frame, pc: nat, locals: seq<int>) {
    && frame.funcId in p.functions
    && frame.funcId in w.states && pc in w.states[frame.funcId]
    && frame.basePtr + p.functions[frame.funcId].localCount <= MAX_LOCAL_SLOTS
    && WindowOk(w.states[frame.funcId][pc].init, frame.basePtr, locals)
  }

  /** A suspended frame resumes where its callee returns to, with the callee's result on top. */
  ghost predicate LinkOk(p: CompiledProgram, w: Proof, caller: M.Frame, callee: M.Frame, locals: seq<int>) {
    && callee.returnPc.Some?
    && FrameOk(p, w, caller, callee.returnPc.value, locals)
    && StateAt(w, caller.funcId, callee.returnPc.value).depth >= 1
    && callee.basePtr == caller.basePtr + p.functions[caller.funcId].localCount
    && (caller.funcId, callee.funcId) in w.edges
  }

  /** Operands the suspended frames have on the stack, below the running frame's. */
  function Owed(w: Proof, calls: seq<M.Frame>): nat
  {
    if |calls| <= 1 then 0
    else
      var callee, caller := calls[|calls| - 1], calls[|calls| - 2];
      var depth := if callee.returnPc.Some? then StateAt(w, caller.funcId, callee.returnPc.value).depth else 0;
      Owed(w, calls[..|calls| - 1]) + (if depth >= 1 then depth - 1 else 0)
  }

  ghost predicate Inv(p: CompiledProgram, w: Proof, s: M.State) {
    && s.calls != [] && s.calls[0].returnPc.None? && s.calls[0].funcId == p.mainFuncId && s.calls[0].basePtr == 0
    && (forall k :: 0 <= k < |s.calls| - 1 ==> LinkOk(p, w, s.calls[k], s.calls[k + 1], s.locals))
    && FrameOk(p, w, M.CurrentFrame(s), s.pc, s.locals)
    && |s.stack| >= Owed(w, s.calls) + StateAt(w, M.CurrentFrame(s).funcId, s.pc).depth
    && |s.locals| >= MAX_LOCAL_SLOTS && |s.globals| == MAX_GLOBAL_SLOTS
    && Defined(s.stack) && Defined(s.globals) && Defined(s.locals[MAX_LOCAL_SLOTS..])
  }

  /**
   * A local array access whose slot holds something other than the base of an allocated array of that size. The
   * verifier does not track which slots hold arrays; compiled code never does this.
   */
  predicate Misuses(p: CompiledProgram, s: M.State) {
    s.pc < |p.instructions| && s.calls != []
    && var i := p.instructions[s.pc];
    && (i.opcode == LocalArrayLoad || i.opcode == LocalArrayStore)
    && var slot := M.CurrentFrame(s).basePtr + i.arg1;
    && 0 <= slot < |s.locals|
    && s.locals[slot] != I64_MIN
    && !(MAX_LOCAL_SLOTS <= s.locals[slot] && s.locals[slot] + i.arg2 <= |s.locals|)
  }

  /** How a verified program may stop: with a result, at a resource limit, or with a trap the verifier announced. */
  predicate MayStop(w: Proof, r: M.Result) {
    || r.success
    || r.trap == CycleLimit || r.trap == StackOverflow
    || (r.trap in {DivideByZero, UndefinedLocal, ArrayOutOfBounds} && r.trap in w.traps)
  }

  // ---------------------------------------------------------------- single instructions

  /** Values written to memory are defined, and memory only grows. */
  predicate Writes(locals: seq<int>, locals': seq<int>) {
    && |locals| <= |locals'|
    && (forall i :: 0 <= i < |locals| ==> locals'[i] == locals[i] || locals'[i] != I64_MIN)
    && (forall i :: |locals| <= i < |locals'| ==> locals'[i] != I64_MIN)
  }

  /** The instruction did what its abstract step says, inside the running frame. */
  ghost predicate Moved(s: M.State, instr: Instruction, abs: AbstractStep, depth: nat, s': M.State, pc: nat) {
    && abs.Stepped? && pc in abs.succs
    && s.calls != [] && s'.calls == s.calls
    && |s'.stack| + depth == |s.stack| + abs.st.depth
    && |s'.globals| == |s.globals|
    && Defined(s'.stack) && Defined(s'.globals) && Writes(s.locals, s'.locals)
    && (instr.opcode == StoreLocal ==>
          var slot := M.CurrentFrame(s).basePtr + instr.arg1; 0 <= slot < |s'.locals| && s'.locals[slot] != I64_MIN)
  }

  ghost predicate Behaves(p: CompiledProgram, w: Proof, s: M.State, instr: Instruction, abs: AbstractStep, depth: nat) {
    match M.Exec(p, instr, s)
    case Trapped(code, _) => code == StackOverflow || (code in {DivideByZero, UndefinedLocal, ArrayOutOfBounds} && code in abs.traps)
    case Advance(s') => s'.pc == s.pc && Moved(s, instr, abs, depth, s', s.pc + 1)
    case Jumped(s') => Moved(s, instr, abs, depth, s', s'.pc)
  }

  /** What is known when an instruction of a verified function starts. */
  ghost predicate Starts(p: CompiledProgram, s: M.State, r: Range, st: AbstractState) {
    && s.calls != [] && M.CurrentFrame(s).funcId == r.id && r.id in p.functions && p.functions[r.id] == r.info
    && M.CurrentFrame(s).basePtr + r.info.localCount <= MAX_LOCAL_SLOTS <= |s.locals|
    && |st.init| == r.info.localCount
    && WindowOk(st.init, M.CurrentFrame(s).basePtr, s.locals)
    && |s.stack| >= st.depth && |s.globals| == MAX_GLOBAL_SLOTS
    && Defined(s.stack) && Defined(s.globals) && Defined(s.locals[MAX_LOCAL_SLOTS..])
  }

  lemma PushBehaves(p: CompiledProgram, w: Proof, r: Range, s: M.State, instr: Instruction, st: AbstractState)
    requires Starts(p, s, r, st) && StepInstruction(p, r, s.pc, instr, st).Stepped?
    requires instr.opcode in {LoadConst, LoadLocal, LoadGlobal, Dup, AllocArray, ArrayNew}
    ensures Behaves(p, w, s, instr, StepInstruction(p, r, s.pc, instr, st), st.depth)
  {
  }

  lemma BinaryBehaves(p: CompiledProgram, w: Proof, r: Range, s: M.State, instr: Instruction, st: AbstractState)
    requires Starts(p, s, r, st) && StepInstruction(p, r, s.pc, instr, st).Stepped?
    requires M.IsBinary(instr.opcode)
    ensures Behaves(p, w, s, instr, StepInstruction(p, r, s.pc, instr, st), st.depth)
  {
  }

  lemma PopBehaves(p: CompiledProgram, w: Proof, r: Range, s: M.State, instr: Instruction, st: AbstractState)
    requires Starts(p, s, r, st) && StepInstruction(p, r, s.pc, instr, st).Stepped?
    requires instr.opcode in {StoreLocal, StoreGlobal, Print, Pop, Opcode.Neg, Opcode.Not}
    ensures Behaves(p, w, s, instr, StepInstruction(p, r, s.pc, instr, st), st.depth)
  {
  }

  lemma JumpBehaves(p: CompiledProgram, w: Proof, r: Range, s: M.State, instr: Instruction, st: AbstractState)
    requires Starts(p, s, r, st) && StepInstruction(p, r, s.pc, instr, st).Stepped?
    requires instr.opcode in {Jump, JumpIfFalse, JumpIfTrue}
    ensures Behaves(p, w, s, instr, StepInstruction(p, r, s.pc, instr, st), st.depth)
  {
  }

  lemma GlobalArrayBehaves(p: CompiledProgram, w: Proof, r: Range, s: M.State, instr: Instruction, st: AbstractState)
    requires Starts(p, s, r, st) && StepInstruction(p, r, s.pc, instr, st).Stepped?
    requires instr.opcode in {ArrayLoad, ArrayStore}
    ensures Behaves(p, w, s, instr, StepInstruction(p, r, s.pc, instr, st), st.depth)
  {
  }

  lemma LocalArrayBehaves(p: CompiledProgram, w: Proof, r: Range, s: M.State, instr: Instruction, st: AbstractState)
    requires Starts(p, s, r, st) && StepInstruction(p, r, s.pc, instr, st).Stepped?
    requires instr.opcode in {LocalArrayLoad, LocalArrayStore} && s.pc < |p.instructions| && p.instructions[s.pc] == instr && !Misuses(p, s)
    ensures Behaves(p, w, s, instr, StepInstruction(p, r, s.pc, instr, st), st.depth)
  {
  }

  // ---------------------------------------------------------------- one step

  function Ticked(s: M.State): M.State {
    s.(cycles := s.cycles + 1)
  }

  /** The verifier's view of the instruction about to run. */
  lemma AtInstruction(p: CompiledProgram, w: Proof, s: M.State)
    requires Verified(p, w) && Inv(p, w, s)
    ensures var id := M.CurrentFrame(s).funcId;
      && id in p.functions && FunctionVerified(p, w, id) && id in w.ranges && id in w.states && s.pc in w.states[id] && s.pc < |p.instructions|
      && var r, st := w.ranges[id], w.states[id][s.pc];
         && |st.init| == r.info.localCount
         && Starts(p, Ticked(s), r, st) && r.info == p.functions[id]
         && Flows(p, r, w.states[id], s.pc, w.traps, w.edges)
         && StepAt(p, r, s.pc, st).Stepped? && StepAt(p, r, s.pc, st).traps <= w.traps
  {
    hide StepInstruction;
  }

  /** The marked locals at a successor are defined after the instruction. */
  lemma WindowMoved(p: CompiledProgram, w: Proof, r: Range, states: States, s: M.State, s': M.State, pc: nat)
    requires s.calls != [] && s.pc in states && s.pc < |p.instructions| && |states[s.pc].init| == r.info.localCount
    requires M.CurrentFrame(s).basePtr + r.info.localCount <= MAX_LOCAL_SLOTS <= |s.locals|
    requires Flows(p, r, states, s.pc, w.traps, w.edges)
    requires Moved(s, p.instructions[s.pc], StepAt(p, r, s.pc, states[s.pc]), states[s.pc].depth, s', pc)
    requires WindowOk(states[s.pc].init, M.CurrentFrame(s).basePtr, s.locals)
    ensures pc in states && WindowOk(states[pc].init, M.CurrentFrame(s).basePtr, s'.locals)
    ensures states[pc].depth == StepAt(p, r, s.pc, states[s.pc]).st.depth
  {
    StepShape(p, r, s.pc, p.instructions[s.pc], states[s.pc]);
    hide StepInstruction;
    var abs := StepAt(p, r, s.pc, states[s.pc]);
    assert Covers(states, pc, abs.st);
  }

  /** Suspended frames are not disturbed by writes of defined values. */
  lemma LinksKept(p: CompiledProgram, w: Proof, calls: seq<M.Frame>, locals: seq<int>, locals': seq<int>)
    requires Verified(p, w) && Writes(locals, locals') && |locals| >= MAX_LOCAL_SLOTS
    requires forall k :: 0 <= k < |calls| - 1 ==> LinkOk(p, w, calls[k], calls[k + 1], locals)
    ensures forall k :: 0 <= k < |calls| - 1 ==> LinkOk(p, w, calls[k], calls[k + 1], locals')
  {
    hide StepInstruction, Solved;
    forall k | 0 <= k < |calls| - 1 ensures LinkOk(p, w, calls[k], calls[k + 1], locals') {
      LinkKept(p, w, calls[k], calls[k + 1], locals, locals');
    }
  }

  lemma LinkKept(p: CompiledProgram, w: Proof, caller: M.Frame, callee: M.Frame, locals: seq<int>, locals': seq<int>)
    requires LinkOk(p, w, caller, callee, locals) && Writes(locals, locals') && |locals| >= MAX_LOCAL_SLOTS
    requires Verified(p, w)
    ensures LinkOk(p, w, caller, callee, locals')
  {
    hide StepInstruction;
    assert FunctionVerified(p, w, caller.funcId);
  }

  /** The parts of the invariant. */
  lemma InvParts(p: CompiledProgram, w: Proof, s: M.State)
    requires Inv(p, w, s)
    ensures s.calls != [] && s.calls[0].returnPc.None? && s.calls[0].funcId == p.mainFuncId && s.calls[0].basePtr == 0
    ensures forall k :: 0 <= k < |s.calls| - 1 ==> LinkOk(p, w, s.calls[k], s.calls[k + 1], s.locals)
    ensures FrameOk(p, w, M.CurrentFrame(s), s.pc, s.locals)
    ensures |s.stack| >= Owed(w, s.calls) + StateAt(w, M.CurrentFrame(s).funcId, s.pc).depth
    ensures |s.locals| >= MAX_LOCAL_SLOTS && |s.globals| == MAX_GLOBAL_SLOTS
    ensures Defined(s.stack) && Defined(s.globals) && Defined(s.locals[MAX_LOCAL_SLOTS..])
  {
  }

  lemma WritesDefined(locals: seq<int>, locals': seq<int>)
    requires Writes(locals, locals') && |locals| >= MAX_LOCAL_SLOTS && Defined(locals[MAX_LOCAL_SLOTS..])
    ensures |locals'| >= |locals| && Defined(locals'[MAX_LOCAL_SLOTS..])
  {
    forall i | 0 <= i < |locals'[MAX_LOCAL_SLOTS..]| ensures locals'[MAX_LOCAL_SLOTS..][i] != I64_MIN {
      var j := MAX_LOCAL_SLOTS + i;
      if j < |locals| {
        assert locals[MAX_LOCAL_SLOTS..][i] == locals[j];
      }
    }
  }

  /** After an instruction that stays in its frame. */
  lemma MovedInv(p: CompiledProgram, w: Proof, s: M.State, s': M.State, pc: nat)
    requires Verified(p, w) && Inv(p, w, s) && s.pc < |p.instructions|
    requires var id := M.CurrentFrame(s).funcId;
      && id in p.functions && id in w.states && id in w.ranges && s.pc in w.states[id]
      && var r, st := w.ranges[id], w.states[id][s.pc];
         && |st.init| == r.info.localCount && r.info == p.functions[id]
         && Flows(p, r, w.states[id], s.pc, w.traps, w.edges)
         && Moved(s, p.instructions[s.pc], StepAt(p, r, s.pc, st), st.depth, s', pc)
    ensures Inv(p, w, s'.(pc := pc, cycles := s.cycles + 1))
  {
    hide StepInstruction, Verified, Inv, LinkOk, Owed, WindowOk, Flows, Solved, Defined, Writes;
    InvParts(p, w, s);
    var frame := M.CurrentFrame(s);
    WindowMoved(p, w, w.ranges[frame.funcId], w.states[frame.funcId], s, s', pc);
    LinksKept(p, w, s.calls, s.locals, s'.locals);
    WritesDefined(s.locals, s'.locals);
    MakeInv(p, w, s'.(pc := pc, cycles := s.cycles + 1), |s.locals|);
  }

  lemma MakeInv(p: CompiledProgram, w: Proof, s: M.State, width: nat)
    requires s.calls != [] && s.calls[0].returnPc.None? && s.calls[0].funcId == p.mainFuncId && s.calls[0].basePtr == 0
    requires forall k :: 0 <= k < |s.calls| - 1 ==> LinkOk(p, w, s.calls[k], s.calls[k + 1], s.locals)
    requires FrameOk(p, w, M.CurrentFrame(s), s.pc, s.locals)
    requires |s.stack| >= Owed(w, s.calls) + StateAt(w, M.CurrentFrame(s).funcId, s.pc).depth
    requires |s.locals| >= width >= MAX_LOCAL_SLOTS && |s.globals| == MAX_GLOBAL_SLOTS
    requires Defined(s.stack) && Defined(s.globals) && Defined(s.locals[MAX_LOCAL_SLOTS..])
    ensures Inv(p, w, s)
  {
  }

  // ---------------------------------------------------------------- calls and returns

  /** Where the next frame's window starts. */
  function FrameEnd(p: CompiledProgram, frame: M.Frame): nat {
    frame.basePtr + (if frame.funcId in p.functions then p.functions[frame.funcId].localCount else 0)
  }

  function CallState(s: M.State, f: FunctionInfo, id: nat, base: nat): M.State
    requires f.paramCount <= |s.stack| && f.paramCount <= f.localCount && base + f.localCount <= |s.locals|
  {
    s.(stack := s.stack[..|s.stack| - f.paramCount],
       locals := M.EnterFrame(s.locals, base, s.stack[|s.stack| - f.paramCount..], f.localCount),
       calls := s.calls + [M.Frame(Some(s.pc + 1), base, id)],
       pc := f.entryPc)
  }

  /** What the verifier checked about a call. */
  lemma CallChecked(p: CompiledProgram, w: Proof, s: M.State)
    requires Verified(p, w) && Inv(p, w, s) && s.pc < |p.instructions| && p.instructions[s.pc].opcode == Opcode.Call
    ensures var instr, id := p.instructions[s.pc], M.CurrentFrame(s).funcId;
      && id in p.functions && id in w.states && s.pc in w.states[id]
      && instr.arg1 >= 0 && instr.arg1 in p.functions && (id, instr.arg1) in w.edges
      && instr.arg2 == p.functions[instr.arg1].paramCount <= w.states[id][s.pc].depth
      && s.pc + 1 in w.states[id] && w.states[id][s.pc + 1].depth == w.states[id][s.pc].depth - instr.arg2 + 1
      && Below(w.states[id][s.pc + 1].init, w.states[id][s.pc].init)
      && |w.states[id][s.pc].init| == p.functions[id].localCount
  {
    hide StepInstruction, Verified, Inv, Starts, Solved, FrameOk, LinkOk, Owed;
    InvParts(p, w, s);
    AtInstruction(p, w, s);
    var instr, id := p.instructions[s.pc], M.CurrentFrame(s).funcId;
    var r, st := w.ranges[id], w.states[id][s.pc];
    var abs := StepAt(p, r, s.pc, st);
    CallStepped(p, r, s.pc, instr, st);
    assert s.pc + 1 in abs.succs && instr.arg1 in abs.callees;
    assert Covers(w.states[id], s.pc + 1, abs.st);
  }

  lemma CallStepped(p: CompiledProgram, r: Range, pc: nat, instr: Instruction, st: AbstractState)
    requires |st.init| == r.info.localCount && instr.opcode == Opcode.Call && StepInstruction(p, r, pc, instr, st).Stepped?
    ensures instr.arg1 >= 0 && instr.arg1 in p.functions && instr.arg2 == p.functions[instr.arg1].paramCount <= st.depth
    ensures StepInstruction(p, r, pc, instr, st) == Stepped(st.(depth := st.depth - instr.arg2 + 1), [pc + 1], [instr.arg1 as nat], {})
  {
  }

  /** What the machine does with a checked call. */
  lemma CallExecutes(p: CompiledProgram, s: M.State)
    requires s.pc < |p.instructions| && s.calls != [] && |s.locals| >= MAX_LOCAL_SLOTS
    requires var instr := p.instructions[s.pc];
      && instr.opcode == Opcode.Call && instr.arg1 >= 0 && instr.arg1 in p.functions
      && instr.arg2 == p.functions[instr.arg1].paramCount <= |s.stack|
      && p.functions[instr.arg1].paramCount <= p.functions[instr.arg1].localCount
    ensures var instr := p.instructions[s.pc]; var f := p.functions[instr.arg1]; var base := FrameEnd(p, M.CurrentFrame(s));
      match M.Exec(p, instr, s)
      case Trapped(code, _) => code == StackOverflow
      case Advance(_) => false
      case Jumped(s') => base + f.localCount <= MAX_LOCAL_SLOTS && s' == CallState(s, f, instr.arg1, base)
  {
    var instr := p.instructions[s.pc];
    assert M.Exec(p, instr, s) == M.ExecCall(p, s, instr.arg1, instr.arg2);
  }

  /** The new frame, and the caller waiting for its result. */
  lemma CallEnters(p: CompiledProgram, w: Proof, s: M.State, id: nat)
    requires Verified(p, w) && Inv(p, w, s) && id in p.functions
    requires var caller, f := M.CurrentFrame(s), p.functions[id];
      && caller.funcId in p.functions && caller.funcId in w.states && s.pc in w.states[caller.funcId]
      && f.paramCount <= w.states[caller.funcId][s.pc].depth
      && s.pc + 1 in w.states[caller.funcId]
      && w.states[caller.funcId][s.pc + 1].depth == w.states[caller.funcId][s.pc].depth - f.paramCount + 1
      && Below(w.states[caller.funcId][s.pc + 1].init, w.states[caller.funcId][s.pc].init)
      && |w.states[caller.funcId][s.pc].init| == p.functions[caller.funcId].localCount
      && (caller.funcId, id) in w.edges
      && FrameEnd(p, caller) + f.localCount <= MAX_LOCAL_SLOTS && f.paramCount <= f.localCount && f.paramCount <= |s.stack|
      && |s.locals| >= MAX_LOCAL_SLOTS
    ensures Inv(p, w, CallState(s, p.functions[id], id, FrameEnd(p, M.CurrentFrame(s))).(cycles := s.cycles + 1))
  {
    hide StepInstruction, Solved, Verified, Inv, Owed;
    InvParts(p, w, s);
    var caller, f := M.CurrentFrame(s), p.functions[id];
    var base := FrameEnd(p, caller);
    var s' := CallState(s, f, id, base);
    EntryOk(p, w, id, base, s.locals, s.stack[|s.stack| - f.paramCount..]);
    forall k | 0 <= k < |s'.calls| - 1 ensures LinkOk(p, w, s'.calls[k], s'.calls[k + 1], s'.locals) {
      if k < |s.calls| - 1 {
        LinkBelow(p, w, s.calls, k, s.locals, s'.locals, base);
      }
    }
    OwedMore(w, s.calls, M.Frame(Some(s.pc + 1), base, id));
    assert s'.locals[MAX_LOCAL_SLOTS..] == s.locals[MAX_LOCAL_SLOTS..];
    MakeInv(p, w, s'.(cycles := s.cycles + 1), |s'.locals|);
  }

  lemma OwedMore(w: Proof, calls: seq<M.Frame>, callee: M.Frame)
    requires calls != [] && callee.returnPc.Some?
    requires StateAt(w, calls[|calls| - 1].funcId, callee.returnPc.value).depth >= 1
    ensures Owed(w, calls + [callee]) == Owed(w, calls) + StateAt(w, calls[|calls| - 1].funcId, callee.returnPc.value).depth - 1
  {
    assert (calls + [callee])[..|calls|] == calls;
  }

  /** A fresh frame: its parameters are its only marked locals. */
  lemma EntryOk(p: CompiledProgram, w: Proof, id: nat, base: nat, locals: seq<int>, args: seq<int>)
    requires Verified(p, w) && id in p.functions && |args| == p.functions[id].paramCount <= p.functions[id].localCount
    requires base + p.functions[id].localCount <= MAX_LOCAL_SLOTS <= |locals| && Defined(args)
    ensures FrameOk(p, w, M.Frame(None, base, id), p.functions[id].entryPc, M.EnterFrame(locals, base, args, p.functions[id].localCount))
    ensures StateAt(w, id, p.functions[id].entryPc).depth == 0
  {
    hide StepInstruction, Flows;
    assert FunctionVerified(p, w, id);
  }

  /** Windows below the new frame are untouched. */
  lemma LinkBelow(p: CompiledProgram, w: Proof, calls: seq<M.Frame>, k: nat, locals: seq<int>, locals': seq<int>, base: nat)
    requires Verified(p, w) && k < |calls| - 1 && |locals'| == |locals| >= MAX_LOCAL_SLOTS
    requires forall j :: 0 <= j < |calls| - 1 ==> LinkOk(p, w, calls[j], calls[j + 1], locals)
    requires base >= calls[|calls| - 1].basePtr
    requires forall i :: 0 <= i < base && i < |locals| ==> locals'[i] == locals[i]
    ensures LinkOk(p, w, calls[k], calls[k + 1], locals')
  {
    hide StepInstruction, Solved;
    BasesRise(p, w, calls, k + 1, locals);
    assert FunctionVerified(p, w, calls[k].funcId);
    InitLength(p, w, calls[k].funcId, calls[k + 1].returnPc.value);
  }

  lemma InitLength(p: CompiledProgram, w: Proof, id: nat, pc: nat)
    requires Verified(p, w) && id in p.functions && id in w.states && pc in w.states[id]
    ensures |w.states[id][pc].init| == p.functions[id].localCount
  {
    hide StepInstruction, Flows;
    assert FunctionVerified(p, w, id);
  }

  lemma {:induction false} BasesRise(p: CompiledProgram, w: Proof, calls: seq<M.Frame>, k: nat, locals: seq<int>)
    requires k < |calls| && forall j :: 0 <= j < |calls| - 1 ==> LinkOk(p, w, calls[j], calls[j + 1], locals)
    ensures calls[k].basePtr <= calls[|calls| - 1].basePtr
    decreases |calls| - k
  {
    hide WindowOk;
    if k < |calls| - 1 {
      assert LinkOk(p, w, calls[k], calls[k + 1], locals);
      BasesRise(p, w, calls, k + 1, locals);
    }
  }

  lemma ReturnInv(p: CompiledProgram, w: Proof, s: M.State)
    requires Verified(p, w) && Inv(p, w, s) && s.stack != [] && |s.calls| > 1
    requires StateAt(w, M.CurrentFrame(s).funcId, s.pc).depth >= 1
    ensures M.CurrentFrame(s).returnPc.Some?
    ensures Inv(p, w, s.(calls := s.calls[..|s.calls| - 1], pc := M.CurrentFrame(s).returnPc.value, cycles := s.cycles + 1))
  {
    hide StepInstruction, Solved, Verified, Inv, WindowOk;
    InvParts(p, w, s);
    var n := |s.calls|;
    assert LinkOk(p, w, s.calls[n - 2], s.calls[n - 1], s.locals);
    var s' := s.(calls := s.calls[..n - 1], pc := M.CurrentFrame(s).returnPc.value, cycles := s.cycles + 1);
    forall k | 0 <= k < |s'.calls| - 1 ensures LinkOk(p, w, s'.calls[k], s'.calls[k + 1], s'.locals) {
      assert LinkOk(p, w, s.calls[k], s.calls[k + 1], s.locals);
    }
    MakeInv(p, w, s', |s'.locals|);
  }

  /** A call of verified code either runs into a limit or enters the callee. */
  lemma CallInv(p: CompiledProgram, w: Proof, s: M.State)
    requires Verified(p, w) && Inv(p, w, s) && s.pc < |p.instructions| && p.instructions[s.pc].opcode == Opcode.Call
    ensures match M.Exec(p, p.instructions[s.pc], Ticked(s))
      case Trapped(code, _) => code == StackOverflow
      case Advance(_) => false
      case Jumped(s') => s'.cycles == s.cycles + 1 && s'.calls != [] && Inv(p, w, s')
  {
    hide StepInstruction, M.Exec, Inv, FunctionVerified, FrameOk, LinkOk, Owed;
    CallChecked(p, w, s);
    InvParts(p, w, s);
    var id := p.instructions[s.pc].arg1;
    Sized(p, w, id);
    assert StateAt(w, M.CurrentFrame(s).funcId, s.pc) == w.states[M.CurrentFrame(s).funcId][s.pc];
    CallExecutes(p, Ticked(s));
    if M.Exec(p, p.instructions[s.pc], Ticked(s)).Jumped? {
      CallEnters(p, w, s, id);
    }
  }

  lemma Sized(p: CompiledProgram, w: Proof, id: nat)
    requires Verified(p, w) && id in p.functions
    ensures p.functions[id].paramCount <= p.functions[id].localCount
  {
    assert FunctionVerified(p, w, id);
  }

  // ---------------------------------------------------------------- a turn of the machine

  predicate IsLocalArrayAccess(op: Opcode) {
    op == LocalArrayLoad || op == LocalArrayStore
  }

  /** Every instruction that stays in its frame does what the verifier computed. */
  lemma StaysBehaves(p: CompiledProgram, w: Proof, r: Range, s: M.State, instr: Instruction, st: AbstractState)
    requires Starts(p, s, r, st) && StepInstruction(p, r, s.pc, instr, st).Stepped?
    requires instr.opcode !in {Opcode.Call, Opcode.Return, Halt}
    requires IsLocalArrayAccess(instr.opcode) ==> s.pc < |p.instructions| && p.instructions[s.pc] == instr && !Misuses(p, s)
    ensures Behaves(p, w, s, instr, StepInstruction(p, r, s.pc, instr, st), st.depth)
  {
    hide StepInstruction, M.Exec, Starts, Behaves, Misuses;
    match instr.opcode
    case LoadConst => PushBehaves(p, w, r, s, instr, st);
    case LoadLocal => PushBehaves(p, w, r, s, instr, st);
    case LoadGlobal => PushBehaves(p, w, r, s, instr, st);
    case Dup => PushBehaves(p, w, r, s, instr, st);
    case AllocArray => PushBehaves(p, w, r, s, instr, st);
    case ArrayNew => PushBehaves(p, w, r, s, instr, st);
    case StoreLocal => PopBehaves(p, w, r, s, instr, st);
    case StoreGlobal => PopBehaves(p, w, r, s, instr, st);
    case Print => PopBehaves(p, w, r, s, instr, st);
    case Pop => PopBehaves(p, w, r, s, instr, st);
    case Neg => PopBehaves(p, w, r, s, instr, st);
    case Not => PopBehaves(p, w, r, s, instr, st);
    case Jump => JumpBehaves(p, w, r, s, instr, st);
    case JumpIfFalse => JumpBehaves(p, w, r, s, instr, st);
    case JumpIfTrue => JumpBehaves(p, w, r, s, instr, st);
    case ArrayLoad => GlobalArrayBehaves(p, w, r, s, instr, st);
    case ArrayStore => GlobalArrayBehaves(p, w, r, s, instr, st);
    case LocalArrayLoad => LocalArrayBehaves(p, w, r, s, instr, st);
    case LocalArrayStore => LocalArrayBehaves(p, w, r, s, instr, st);
    case _ => BinaryBehaves(p, w, r, s, instr, st);
  }

  /** What a turn leads to. */
  ghost predicate TurnOk(p: CompiledProgram, w: Proof, t: M.Turn) {
    match t
    case Stop(r) => MayStop(w, r)
    case Next(s') => Inv(p, w, s')
  }

  /** What an instruction leads to, before the run loop counts it. */
  ghost predicate StepOk(p: CompiledProgram, w: Proof, s: M.State, step: M.Step) {
    match step
    case Trapped(code, _) => code == StackOverflow || (code in {DivideByZero, UndefinedLocal, ArrayOutOfBounds} && code in w.traps)
    case Advance(s') => s'.calls != [] && Inv(p, w, s'.(pc := s'.pc + 1, cycles := s.cycles + 1))
    case Jumped(s') => s'.calls == [] || Inv(p, w, s'.(cycles := s.cycles + 1))
  }

  lemma TurnFollows(p: CompiledProgram, w: Proof, s: M.State)
    requires s.cycles < MAX_CYCLES && s.pc < |p.instructions|
    requires StepOk(p, w, s, M.Exec(p, p.instructions[s.pc], Ticked(s)))
    ensures TurnOk(p, w, M.TakeTurn(p, s))
  {
    hide M.Exec, Inv;
  }

  lemma BehavesParts(p: CompiledProgram, w: Proof, s: M.State, instr: Instruction, abs: AbstractStep, depth: nat)
    requires Behaves(p, w, s, instr, abs, depth) && abs.traps <= w.traps
    ensures match M.Exec(p, instr, s)
      case Trapped(code, _) => code == StackOverflow || (code in {DivideByZero, UndefinedLocal, ArrayOutOfBounds} && code in w.traps)
      case Advance(s') => s'.pc == s.pc && Moved(s, instr, abs, depth, s', s.pc + 1)
      case Jumped(s') => Moved(s, instr, abs, depth, s', s'.pc)
  {
    hide M.Exec, Moved;
  }

  lemma StaysInv(p: CompiledProgram, w: Proof, s: M.State)
    requires Verified(p, w) && Inv(p, w, s) && !Misuses(p, s)
    requires s.pc < |p.instructions| && p.instructions[s.pc].opcode !in {Opcode.Call, Opcode.Return, Halt}
    ensures StepOk(p, w, s, M.Exec(p, p.instructions[s.pc], Ticked(s)))
  {
    hide StepInstruction, Verified, FunctionVerified, Flows, Solved, M.Exec, Starts, FrameOk, LinkOk, Owed, Inv, WindowOk, Defined, Behaves, Misuses, Moved;
    InvParts(p, w, s);
    AtInstruction(p, w, s);
    var instr, id := p.instructions[s.pc], M.CurrentFrame(s).funcId;
    var r, st := w.ranges[id], w.states[id][s.pc];
    var abs := StepAt(p, r, s.pc, st);
    TickedMisuses(p, s);
    StaysBehaves(p, w, r, Ticked(s), instr, st);
    BehavesParts(p, w, Ticked(s), instr, abs, st.depth);
    match M.Exec(p, instr, Ticked(s)) {
      case Trapped(_, _) =>
      case Advance(s') => StaysMoved(p, w, s, s', s.pc + 1);
      case Jumped(s') => StaysMoved(p, w, s, s', s'.pc);
    }
  }

  lemma TickedMisuses(p: CompiledProgram, s: M.State)
    ensures Misuses(p, Ticked(s)) == Misuses(p, s)
  {
  }

  lemma StaysMoved(p: CompiledProgram, w: Proof, s: M.State, s': M.State, pc: nat)
    requires Verified(p, w) && Inv(p, w, s) && s.pc < |p.instructions|
    requires var id := M.CurrentFrame(s).funcId;
      && id in p.functions && id in w.states && id in w.ranges && s.pc in w.states[id]
      && var r, st := w.ranges[id], w.states[id][s.pc];
         && |st.init| == r.info.localCount && r.info == p.functions[id]
         && Flows(p, r, w.states[id], s.pc, w.traps, w.edges)
         && Moved(Ticked(s), p.instructions[s.pc], StepAt(p, r, s.pc, st), st.depth, s', pc)
    ensures s'.calls != [] && Inv(p, w, s'.(pc := pc, cycles := s.cycles + 1))
  {
    hide StepInstruction, Verified, Inv, LinkOk, Owed, WindowOk, Flows, Solved, Defined, Writes;
    InvParts(p, w, s);
    MovedInv(p, w, s, s', pc);
  }

  /** Returning needs a value; the last frame's return ends the run. */
  lemma ReturnOk(p: CompiledProgram, w: Proof, s: M.State)
    requires Verified(p, w) && Inv(p, w, s)
    requires s.pc < |p.instructions| && p.instructions[s.pc].opcode == Opcode.Return
    ensures StepOk(p, w, s, M.Exec(p, p.instructions[s.pc], Ticked(s)))
  {
    hide StepInstruction, Verified, Inv, FunctionVerified, Flows, FrameOk, LinkOk, Owed, Defined;
    InvParts(p, w, s);
    ReturnNeeds(p, w, s);
    if |s.calls| > 1 {
      ReturnInv(p, w, s);
    }
  }

  lemma ReturnNeeds(p: CompiledProgram, w: Proof, s: M.State)
    requires Verified(p, w) && Inv(p, w, s)
    requires s.pc < |p.instructions| && p.instructions[s.pc].opcode == Opcode.Return
    ensures StateAt(w, M.CurrentFrame(s).funcId, s.pc).depth >= 1
  {
    hide Verified, Inv, FunctionVerified, FrameOk, LinkOk, Owed, Starts, Solved;
    InvParts(p, w, s);
    AtInstruction(p, w, s);
  }

  /**
   * A turn of the machine on verified code keeps the invariant, or stops with a result, at a resource limit, or
   * with a trap the verifier announced; it never underflows the stack, leaves the code, or calls a missing function.
   */
  lemma StepSound(p: CompiledProgram, w: Proof, s: M.State)
    requires Verified(p, w) && Inv(p, w, s) && !Misuses(p, s)
    ensures TurnOk(p, w, M.TakeTurn(p, s))
  {
    hide StepInstruction, M.Exec, M.TakeTurn, Starts, FrameOk, LinkOk, Owed, Inv, Verified, TurnOk, StepOk, FunctionVerified, Misuses, Flows;
    InvParts(p, w, s);
    AtInstruction(p, w, s);
    if s.cycles >= MAX_CYCLES {
      OutOfCycles(p, w, s);
    } else {
      match p.instructions[s.pc].opcode {
        case Call => CallOk(p, w, s);
        case Return => ReturnOk(p, w, s);
        case Halt => HaltOk(p, w, s);
        case _ => StaysInv(p, w, s);
      }
      TurnFollows(p, w, s);
    }
  }

  lemma OutOfCycles(p: CompiledProgram, w: Proof, s: M.State)
    requires s.cycles >= MAX_CYCLES
    ensures TurnOk(p, w, M.TakeTurn(p, s))
  {
    hide M.Exec, Inv;
  }

  lemma HaltOk(p: CompiledProgram, w: Proof, s: M.State)
    requires s.pc < |p.instructions| && p.instructions[s.pc].opcode == Halt
    ensures StepOk(p, w, s, M.Exec(p, p.instructions[s.pc], Ticked(s)))
  {
    hide Inv;
  }

  lemma CallOk(p: CompiledProgram, w: Proof, s: M.State)
    requires Verified(p, w) && Inv(p, w, s)
    requires s.pc < |p.instructions| && p.instructions[s.pc].opcode == Opcode.Call
    ensures StepOk(p, w, s, M.Exec(p, p.instructions[s.pc], Ticked(s)))
  {
    hide M.Exec, Inv, Verified;
    CallInv(p, w, s);
  }

  // ---------------------------------------------------------------- whole runs

  /** No state of the run misuses a local array. */
  ghost predicate Disciplined(p: CompiledProgram, s: M.State)
    decreases MAX_CYCLES - s.cycles
  {
    !Misuses(p, s) && match M.TakeTurn(p, s) case Stop(_) => true case Next(s') => Disciplined(p, s')
  }

  lemma BootInv(p: CompiledProgram, w: Proof)
    requires Verified(p, w) && PlainMain(p)
    ensures Inv(p, w, M.Boot(p))
  {
    hide StepInstruction, Flows;
    assert FunctionVerified(p, w, p.mainFuncId);
  }
}
