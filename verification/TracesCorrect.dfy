/** The traces of the reference machine and of the collecting machine differ in no field once references are normalized. */
module TracesCorrect {
  import opened Common
  import opened Int32
  import opened Limits
  import opened Bytecode
  import opened Discipline
  import opened Lockstep
  import opened Traces
  import GcCorrect
  import G = GcMachine
  import H = GcHeap
  import L = Relocation
  import M = Machine
  import P = ProgramVerifier
  import V = VerifierSound

  // ---------------------------------------------------------------- what is recorded

  /** The operands left at a trap: an instruction pops before it traps. */
  function Kept(stack: seq<int>, depth: nat): seq<int> {
    if depth <= |stack| then stack[..depth] else stack
  }

  function VmEvent(p: CompiledProgram, s: M.State): TraceEvent
    requires s.pc < |p.instructions|
  {
    var instr, cycle, depth := p.instructions[s.pc], s.cycles + 1, |s.calls|;
    match M.Exec(p, instr, s.(cycles := cycle))
    case Trapped(code, left) => TraceEvent(cycle, s.pc, instr, s.stack, Kept(s.stack, left), depth, depth, s.pc, Trapping(code))
    case Advance(t) =>
      TraceEvent(cycle, s.pc, instr, s.stack, t.stack, depth, |t.calls|, t.pc + 1, if t.calls == [] then Exit else Continued)
    case Jumped(t) =>
      TraceEvent(cycle, s.pc, instr, s.stack, t.stack, depth, |t.calls|, t.pc, if t.calls == [] then Exit else Jumping)
  }

  /** One event for every instruction that is executed. */
  function VmTrace(p: CompiledProgram, s: M.State): seq<TraceEvent>
    decreases MAX_CYCLES - s.cycles
  {
    if s.cycles >= MAX_CYCLES || s.pc >= |p.instructions| then []
    else [VmEvent(p, s)] + match M.TakeTurn(p, s) case Stop(_) => [] case Next(t) => VmTrace(p, t)
  }

  /** The collecting machine's operands as numbers: of a reference, the heap id. */
  function Raw(stack: seq<G.Value>): (r: seq<int>)
    ensures |r| == |stack| && forall i :: 0 <= i < |r| ==> r[i] == G.ToInt(stack[i])
  {
    seq(|stack|, i requires 0 <= i < |stack| => G.ToInt(stack[i]))
  }

  function GcEvent(p: CompiledProgram, s: G.State): TraceEvent
    requires s.pc < |p.instructions|
  {
    var instr, cycle, depth := p.instructions[s.pc], s.cycles + 1, |s.calls|;
    match G.Exec(p, instr, s.(cycles := cycle))
    case Trapped(code, left) =>
      TraceEvent(cycle, s.pc, instr, Raw(s.stack), Kept(Raw(s.stack), left), depth, depth, s.pc, Trapping(code))
    case Advance(t) =>
      TraceEvent(cycle, s.pc, instr, Raw(s.stack), Raw(t.stack), depth, |t.calls|, t.pc + 1, if t.calls == [] then Exit else Continued)
    case Jumped(t) =>
      TraceEvent(cycle, s.pc, instr, Raw(s.stack), Raw(t.stack), depth, |t.calls|, t.pc, if t.calls == [] then Exit else Jumping)
  }

  function GcTrace(p: CompiledProgram, s: G.State): seq<TraceEvent>
    decreases MAX_CYCLES - s.cycles
  {
    if s.cycles >= MAX_CYCLES || s.pc >= |p.instructions| then []
    else [GcEvent(p, s)] + match G.TakeTurn(p, s) case Stop(_) => [] case Next(t) => GcTrace(p, t)
  }

  /** Each event takes up the cycle, address, operands and depth that the one before it left. */
  predicate Connected(trace: seq<TraceEvent>, cycle: nat, pc: nat, stack: seq<int>, depth: nat)
    decreases |trace|
  {
    trace == [] ||
      (&& trace[0].cycle == cycle + 1 && trace[0].pc == pc && trace[0].before == stack && trace[0].depthBefore == depth
       && (trace[0].outcome in {Continued, Jumping} || |trace| == 1)
       && Connected(trace[1..], trace[0].cycle, trace[0].nextPc, trace[0].after, trace[0].depthAfter))
  }

  /** The last event says how the run ended, and there is one for every cycle. */
  predicate Tells(trace: seq<TraceEvent>, cycle: nat, r: M.Result) {
    && r.cycles == cycle + |trace|
    && (r.success <==> trace != [] && trace[|trace| - 1].outcome == Exit)
    && (trace != [] ==> var last := trace[|trace| - 1];
          && (last.outcome == Exit ==> r.returnValue == if last.after == [] then 0 else last.after[|last.after| - 1])
          && (last.outcome.Trapping? ==> r.trap == last.outcome.code && r.pc == last.pc && |last.after| <= r.stackDepth)
          && (last.outcome in {Continued, Jumping} ==> r.trap in {CycleLimit, InvalidInstruction} && r.pc == last.nextPc))
  }

  lemma TellsMore(e: TraceEvent, trace: seq<TraceEvent>, r: M.Result)
    requires Tells(trace, e.cycle, r) && e.cycle > 0 && (trace == [] ==> r.trap in {CycleLimit, InvalidInstruction} && r.pc == e.nextPc)
    requires trace == [] ==> e.outcome in {Continued, Jumping}
    ensures Tells([e] + trace, e.cycle - 1, r)
  {
    if trace != [] {
      assert ([e] + trace)[|trace|] == trace[|trace| - 1];
    }
  }

  lemma ConnectedNone(cycle: nat, pc: nat, stack: seq<int>, depth: nat)
    ensures Connected([], cycle, pc, stack, depth)
  {
  }

  lemma ConnectedLast(e: TraceEvent)
    requires e.cycle > 0
    ensures Connected([e], e.cycle - 1, e.pc, e.before, e.depthBefore)
  {
  }

  lemma ConnectedMore(e: TraceEvent, trace: seq<TraceEvent>)
    requires e.cycle > 0 && e.outcome in {Continued, Jumping} && Connected(trace, e.cycle, e.nextPc, e.after, e.depthAfter)
    ensures Connected([e] + trace, e.cycle - 1, e.pc, e.before, e.depthBefore)
  {
    assert ([e] + trace)[1..] == trace;
  }

  /** The reference machine's trace is its run, event by event. */
  lemma {:induction false} VmTraceTells(p: CompiledProgram, s: M.State)
    requires s.calls != []
    ensures Connected(VmTrace(p, s), s.cycles, s.pc, s.stack, |s.calls|) && Tells(VmTrace(p, s), s.cycles, M.RunFrom(p, s))
    decreases MAX_CYCLES - s.cycles
  {
    hide M.Exec, Tells, Connected;
    ConnectedNone(s.cycles, s.pc, s.stack, |s.calls|);
    if s.cycles >= MAX_CYCLES || s.pc >= |p.instructions| {
      TellsNothing(M.RunFrom(p, s), s.cycles);
    } else {
      var e := VmEvent(p, s);
      match M.TakeTurn(p, s) {
        case Next(t) =>
          VmTraceTells(p, t);
          VmStops(p, t);
          TellsMore(e, VmTrace(p, t), M.RunFrom(p, t));
          ConnectedMore(e, VmTrace(p, t));
        case Stop(r) =>
          TellsLast(e, r);
          ConnectedLast(e);
          assert VmTrace(p, s) == [e];
      }
    }
  }

  lemma VmStops(p: CompiledProgram, s: M.State)
    ensures VmTrace(p, s) == [] ==> M.RunFrom(p, s).trap in {CycleLimit, InvalidInstruction} && M.RunFrom(p, s).pc == s.pc
  {
    hide M.Exec, VmEvent;
  }

  /** So is the collecting machine's, with references as the numbers of their arrays. */
  lemma {:induction false} GcTraceTells(p: CompiledProgram, s: G.State)
    requires s.calls != []
    ensures Connected(GcTrace(p, s), s.cycles, s.pc, Raw(s.stack), |s.calls|) && Tells(GcTrace(p, s), s.cycles, G.RunFrom(p, s))
    decreases MAX_CYCLES - s.cycles
  {
    hide G.Exec, Tells, Connected;
    ConnectedNone(s.cycles, s.pc, Raw(s.stack), |s.calls|);
    if s.cycles >= MAX_CYCLES || s.pc >= |p.instructions| {
      TellsNothing(G.RunFrom(p, s), s.cycles);
    } else {
      var e := GcEvent(p, s);
      match G.TakeTurn(p, s) {
        case Next(t) =>
          GcTraceTells(p, t);
          GcStops(p, t);
          TellsMore(e, GcTrace(p, t), G.RunFrom(p, t));
          ConnectedMore(e, GcTrace(p, t));
        case Stop(r) =>
          TellsLast(e, r);
          ConnectedLast(e);
          assert GcTrace(p, s) == [e];
      }
    }
  }

  lemma GcStops(p: CompiledProgram, s: G.State)
    ensures GcTrace(p, s) == [] ==> G.RunFrom(p, s).trap in {CycleLimit, InvalidInstruction} && G.RunFrom(p, s).pc == s.pc
  {
    hide G.Exec, GcEvent;
  }

  lemma TellsNothing(r: M.Result, cycle: nat)
    requires r.cycles == cycle && !r.success
    ensures Tells([], cycle, r)
  {
  }

  lemma TellsLast(e: TraceEvent, r: M.Result)
    requires e.cycle > 0 && r.cycles == e.cycle && (r.success <==> e.outcome == Exit)
    requires e.outcome == Exit ==> r.returnValue == if e.after == [] then 0 else e.after[|e.after| - 1]
    requires e.outcome.Trapping? ==> r.trap == e.outcome.code && r.pc == e.pc && |e.after| <= r.stackDepth
    requires e.outcome == Exit || e.outcome.Trapping?
    ensures Tells([e], e.cycle - 1, r)
  {
  }

  // ---------------------------------------------------------------- the normalizers

  /** Everything is taken for a number, but for the reference an allocation has just pushed. */
  predicate SeenOk(pending: Option<nat>, seen: Seen, stack: seq<int>) {
    && |seen.stack| == |stack|
    && forall i :: 0 <= i < |stack| - (if pending.Some? then 1 else 0) ==> seen.stack[i] == Number(stack[i])
  }

  lemma Preserved(raw: seq<int>, before: seq<NormalizedValue>, depth: nat)
    requires |before| == |raw| && depth <= |raw|
    ensures PreserveStackPrefix(raw, before, raw[..depth]) == before[..depth]
  {
  }

  lemma PreservedMore(raw: seq<int>, before: seq<NormalizedValue>, x: int)
    requires |before| == |raw|
    ensures PreserveStackPrefix(raw, before, raw + [x]) == before + [Number(x)]
  {
  }

  lemma PreservedNumbers(raw: seq<int>, after: seq<int>)
    ensures PreserveStackPrefix(raw, Numbers(raw), after) == Numbers(after)
  {
  }

  /** Only right before the store of a fresh array is there a reference among the operands. */
  predicate HaltsEmpty(p: CompiledProgram, s: M.State) {
    s.pc < |p.instructions| && p.instructions[s.pc].opcode == Halt && s.stack == []
  }

  // How one instruction changes the operands on both sides.
  datatype Change = Popped(left: nat) | Allocated | Plain

  /** What the recorded stacks are, case by case. */
  ghost predicate StacksChange(pending: Option<nat>, change: Change, a: TraceEvent, b: TraceEvent) {
    && |b.before| == |a.before|
    && match change
       case Popped(left) => left <= |a.before| && a.after == a.before[..left] && b.after == b.before[..left]
       case Allocated =>
         && pending.None? && (a.instr.opcode == AllocArray || a.instr.opcode == ArrayNew)
         && |a.after| == |a.before| + 1 && a.after[..|a.before|] == a.before
         && |b.after| == |b.before| + 1 && b.after[..|b.before|] == b.before
       case Plain => pending.None? && a.before == b.before && a.after == b.after && a.instr.opcode != AllocArray && a.instr.opcode != ArrayNew
  }

  /** Equal but for the stacks. */
  predicate SameFields(a: TraceEvent, b: TraceEvent) {
    b == a.(before := b.before, after := b.after)
  }

  lemma EventsCompare(pending: Option<nat>, change: Change, seen: Seen, a: TraceEvent, b: TraceEvent)
    requires SameFields(a, b) && StacksChange(pending, change, a, b) && SeenOk(pending, seen, a.before)
    ensures NormalizeBefore(seen, a) == NormalizeBefore(seen, b) == seen.stack
    ensures NormalizeAfter(seen, a) == NormalizeAfter(seen, b)
    ensures
      var after := NormalizeAfter(seen, a);
      match change
      case Popped(left) => SeenOk(if left == |a.before| then pending else None, after, a.after)
      case Allocated => SeenOk(Some(0), after, a.after)
      case Plain => SeenOk(None, after, a.after)
  {
    hide PreserveStackPrefix;
    match change {
      case Popped(left) =>
        Preserved(a.before, seen.stack, left);
        Preserved(b.before, seen.stack, left);
      case Allocated =>
        var n := |a.before|;
        assert a.after == a.before + [a.after[n]] && b.after == b.before + [b.after[n]];
        PreservedMore(a.before, seen.stack, a.after[n]);
        PreservedMore(b.before, seen.stack, b.after[n]);
        assert (seen.stack + [Number(a.after[n])])[n := ArrayRef(seen.nextArrayRef)] == seen.stack + [ArrayRef(seen.nextArrayRef)];
        assert (seen.stack + [Number(b.after[n])])[n := ArrayRef(seen.nextArrayRef)] == seen.stack + [ArrayRef(seen.nextArrayRef)];
      case Plain =>
        assert seen.stack == Numbers(a.before);
        PreservedNumbers(a.before, a.after);
    }
  }

  // ---------------------------------------------------------------- what waits behind an instruction

  predicate Allocates(instr: Instruction) {
    instr.opcode == AllocArray || instr.opcode == ArrayNew
  }

  /** Calls and addresses after an instruction, by its kind. */
  lemma Moves(p: CompiledProgram, instr: Instruction, s: M.State)
    requires s.calls != []
    ensures
      match M.Exec(p, instr, s)
      case Trapped(_, _) => true
      case Advance(t) => t.calls == s.calls && t.pc == s.pc && instr.opcode !in {Jump, Opcode.Call, Opcode.Return, Halt}
      case Jumped(t) =>
        if instr.opcode in {Jump, JumpIfFalse, JumpIfTrue} then t.calls == s.calls && t.pc == AsUsize(instr.arg1)
        else if instr.opcode == Opcode.Call then
          && instr.arg1 in p.functions && t.pc == p.functions[instr.arg1].entryPc
          && |t.calls| == |s.calls| + 1 && t.calls[|s.calls|].funcId == instr.arg1
        else if instr.opcode == Opcode.Return then
          t.calls == s.calls[..|s.calls| - 1] && (s.calls[|s.calls| - 1].returnPc.Some? ==> t.pc == s.calls[|s.calls| - 1].returnPc.value)
        else instr.opcode == Halt && t.calls == []
  {
    hide M.Exec;
    if L.Plain(instr.opcode) {
      L.PlainStep(p, p, instr, s, s);
    } else {
      JumpMoves(p, instr, s);
    }
  }

  lemma JumpMoves(p: CompiledProgram, instr: Instruction, s: M.State)
    requires s.calls != [] && !L.Plain(instr.opcode)
    ensures
      match M.Exec(p, instr, s)
      case Trapped(_, _) => true
      case Advance(t) => t.calls == s.calls && t.pc == s.pc && instr.opcode in {JumpIfFalse, JumpIfTrue}
      case Jumped(t) =>
        if instr.opcode in {Jump, JumpIfFalse, JumpIfTrue} then t.calls == s.calls && t.pc == AsUsize(instr.arg1)
        else if instr.opcode == Opcode.Call then
          && instr.arg1 in p.functions && t.pc == p.functions[instr.arg1].entryPc
          && |t.calls| == |s.calls| + 1 && t.calls[|s.calls|].funcId == instr.arg1
        else if instr.opcode == Opcode.Return then
          t.calls == s.calls[..|s.calls| - 1] && (s.calls[|s.calls| - 1].returnPc.Some? ==> t.pc == s.calls[|s.calls| - 1].returnPc.value)
        else instr.opcode == Halt && t.calls == []
  {
    hide AsUsize;
  }

  /** Where control goes on, no reference is expected, unless the instruction has just allocated an array. */
  lemma PendingBehind(p: CompiledProgram, plans: Plans, mu: Spots, s: M.State, g: G.State, plan: Plan, instr: Instruction)
    requires Orderly(p, plans) && Ready(p, plans, mu, s, g, plan, instr) && s.cycles < MAX_CYCLES
    requires Keeps(p, plan.range, plan.kinds, plan.shapes[s.pc], plan.shapes, s.pc)
    ensures
      match M.TakeTurn(p, s)
      case Stop(_) => true
      case Next(t) => CurrentShape(plans, t.calls, t.pc).pending == NextPending(instr)
  {
    hide M.Exec, Keeps, Related, Ready, ArraysOk, PlanOk, Orderly, M.TakeTurn, CurrentShape, Leads;
    ReadyParts(p, plans, mu, s, g, plan, instr);
    ReadyRelated(p, plans, mu, s, g, plan, instr);
    Onward(p, plan, s.pc, instr);
    Moves(p, instr, s.(cycles := s.cycles + 1));
    var turn := M.TakeTurn(p, s);
    TurnTo(p, s);
    if turn.Next? {
      if instr.opcode == Opcode.Call {
        EntryPending(p, plans, instr.arg1);
        ShapeOf(plans, turn.st.calls, turn.st.pc);
      } else if instr.opcode == Opcode.Return {
        ReturnPending(p, plans, mu, s, g);
        ShapeOf(plans, turn.st.calls, turn.st.pc);
      } else {
        StaysIn(plans, plan, s, turn.st.pc, NextReady(plan.shapes[s.pc], instr), NextPending(instr));
      }
    }
  }

  lemma ReadyRelated(p: CompiledProgram, plans: Plans, mu: Spots, s: M.State, g: G.State, plan: Plan, instr: Instruction)
    requires Ready(p, plans, mu, s, g, plan, instr)
    ensures Related(p, plans, mu, s, g)
  {
    hide Related, ArraysOk, StackSame;
  }

  /** Where a turn leads, from what its instruction does. */
  lemma TurnTo(p: CompiledProgram, s: M.State)
    requires s.pc < |p.instructions| && s.cycles < MAX_CYCLES
    ensures
      match M.Exec(p, p.instructions[s.pc], s.(cycles := s.cycles + 1))
      case Trapped(_, _) => M.TakeTurn(p, s).Stop?
      case Advance(t) => if t.calls == [] then M.TakeTurn(p, s).Stop? else M.TakeTurn(p, s) == M.Next(t.(pc := t.pc + 1, cycles := s.cycles + 1))
      case Jumped(t) => if t.calls == [] then M.TakeTurn(p, s).Stop? else M.TakeTurn(p, s) == M.Next(t.(cycles := s.cycles + 1))
  {
    hide M.Exec;
  }

  lemma ShapeOf(plans: Plans, calls: seq<M.Frame>, pc: nat)
    requires calls != [] && calls[|calls| - 1].funcId in plans && pc in plans[calls[|calls| - 1].funcId].shapes
    ensures CurrentShape(plans, calls, pc) == plans[calls[|calls| - 1].funcId].shapes[pc]
  {
  }

  lemma StaysIn(plans: Plans, plan: Plan, s: M.State, pc: nat, ready: set<nat>, pending: Option<nat>)
    requires s.calls != [] && Current(s) in plans && plans[Current(s)] == plan
    ensures Leads(plan, pc, ready, pending) ==> CurrentShape(plans, s.calls, pc).pending == pending
  {
  }

  lemma EntryPending(p: CompiledProgram, plans: Plans, id: nat)
    requires Orderly(p, plans) && id in p.functions
    ensures id in plans && p.functions[id].entryPc in plans[id].shapes && plans[id].shapes[p.functions[id].entryPc].pending == None
  {
    OtherPlan(p, plans, id);
  }

  lemma ReturnPending(p: CompiledProgram, plans: Plans, mu: Spots, s: M.State, g: G.State)
    requires Related(p, plans, mu, s, g) && |s.calls| > 1
    ensures
      var caller, callee := s.calls[|s.calls| - 2], s.calls[|s.calls| - 1];
      && callee.returnPc.Some? && caller.funcId in plans && callee.returnPc.value in plans[caller.funcId].shapes
      && plans[caller.funcId].shapes[callee.returnPc.value].pending == None
  {
    hide FrameSame, GlobalsSame, ArraysSame, StackSame;
    assert LinkSame(plans, mu, s.calls[|s.calls| - 2], g.calls[|s.calls| - 2], s.calls[|s.calls| - 1], s.locals);
  }

  // ---------------------------------------------------------------- one turn

  /** The two machines are at the same place, and the instruction there has corresponding effects. */
  ghost predicate Stepping(p: CompiledProgram, plans: Plans, mu: Spots, s: M.State, g: G.State) {
    && s.pc < |p.instructions| && s.pc == g.pc && s.cycles == g.cycles && s.calls != [] && |g.calls| == |s.calls| && |g.stack| == |s.stack|
    && Paired(p, plans, mu, M.Exec(p, p.instructions[s.pc], s.(cycles := s.cycles + 1)), G.Exec(p, p.instructions[s.pc], g.(cycles := g.cycles + 1)))
  }

  lemma FieldsSame(p: CompiledProgram, plans: Plans, mu: Spots, s: M.State, g: G.State)
    requires Stepping(p, plans, mu, s, g)
    ensures SameFields(VmEvent(p, s), GcEvent(p, g)) && |GcEvent(p, g).before| == |VmEvent(p, s).before|
  {
    hide M.Exec, G.Exec, Related;
    var instr := p.instructions[s.pc];
    match M.Exec(p, instr, s.(cycles := s.cycles + 1)) {
      case Trapped(_, _) =>
      case Advance(t) =>
        var u := G.Exec(p, instr, g.(cycles := g.cycles + 1)).st;
        Alike(p, plans, mu, t.(pc := t.pc + 1), u.(pc := u.pc + 1));
      case Jumped(t) =>
        if t.calls != [] {
          Alike(p, plans, mu, t, G.Exec(p, instr, g.(cycles := g.cycles + 1)).st);
        }
    }
  }

  lemma Alike(p: CompiledProgram, plans: Plans, mu: Spots, s: M.State, g: G.State)
    requires Related(p, plans, mu, s, g)
    ensures s.pc == g.pc && |g.calls| == |s.calls| && s.calls != [] && |g.stack| == |s.stack|
  {
    hide FrameSame, GlobalsSame, ArraysSame;
  }

  lemma TrapChange(p: CompiledProgram, plans: Plans, mu: Spots, s: M.State, g: G.State, pending: Option<nat>) returns (change: Change)
    requires Stepping(p, plans, mu, s, g) && M.Exec(p, p.instructions[s.pc], s.(cycles := s.cycles + 1)).Trapped?
    ensures StacksChange(pending, change, VmEvent(p, s), GcEvent(p, g))
  {
    hide M.Exec, G.Exec, Related;
    var left := M.Exec(p, p.instructions[s.pc], s.(cycles := s.cycles + 1)).depth;
    change := Popped(if left <= |s.stack| then left else |s.stack|);
    assert s.stack[..|s.stack|] == s.stack && Raw(g.stack)[..|s.stack|] == Raw(g.stack);
  }

  /** The store of a fresh array pops the reference. */
  lemma StoreChange(p: CompiledProgram, plans: Plans, mu: Spots, s: M.State, g: G.State, pending: Option<nat>) returns (change: Change)
    requires Stepping(p, plans, mu, s, g) && p.instructions[s.pc].opcode == StoreLocal
    requires !M.Exec(p, p.instructions[s.pc], s.(cycles := s.cycles + 1)).Trapped?
    ensures change.Popped? && change.left < |s.stack| && StacksChange(pending, change, VmEvent(p, s), GcEvent(p, g))
  {
    hide Related, M.LocalSlot;
    var instr := p.instructions[s.pc];
    var step, other := M.Exec(p, instr, s.(cycles := s.cycles + 1)), G.Exec(p, instr, g.(cycles := g.cycles + 1));
    assert step == M.StoreLocal(p, s.(cycles := s.cycles + 1), instr.arg1) && step.Advance?;
    assert step.st.stack == s.stack[..|s.stack| - 1];
    StorePops(p, instr, g.(cycles := g.cycles + 1));
    change := Popped(|s.stack| - 1);
    assert Raw(other.st.stack) == Raw(g.stack)[..|s.stack| - 1];
  }

  lemma StorePops(p: CompiledProgram, instr: Instruction, g: G.State)
    requires instr.opcode == StoreLocal
    ensures var step := G.Exec(p, instr, g); step.Advance? ==> g.stack != [] && step.st.stack == g.stack[..|g.stack| - 1]
  {
  }

  lemma AllocChange(p: CompiledProgram, plans: Plans, mu: Spots, s: M.State, g: G.State) returns (change: Change)
    requires Stepping(p, plans, mu, s, g) && Allocates(p.instructions[s.pc]) && p.instructions[s.pc].arg1 >= 0
    requires !M.Exec(p, p.instructions[s.pc], s.(cycles := s.cycles + 1)).Trapped?
    ensures change == Allocated && StacksChange(None, change, VmEvent(p, s), GcEvent(p, g))
  {
    hide Related, H.HeapOk, G.Alloc;
    var instr := p.instructions[s.pc];
    var g1 := g.(cycles := g.cycles + 1);
    var (u, id) := G.Alloc(g1, instr.arg1);
    AllocStack(g1, instr.arg1);
    AllocRuns(p, s.(cycles := s.cycles + 1), g1, instr, u, id);
    change := Allocated;
    var a, b := VmEvent(p, s), GcEvent(p, g);
    assert a.after == s.stack + [|s.locals|];
    assert b.after == Raw(g.stack + [G.ArrayRef(id)]);
    assert a.after[..|a.before|] == a.before && b.after[..|b.before|] == b.before;
  }

  lemma AllocStack(g: G.State, size: nat)
    ensures G.Alloc(g, size).0.stack == g.stack
  {
  }

  /** Elsewhere the operands are the same numbers before and after. */
  lemma PlainChange(p: CompiledProgram, plans: Plans, mu: Spots, mu0: Spots, s: M.State, g: G.State) returns (change: Change)
    requires Stepping(p, plans, mu, s, g) && !Allocates(p.instructions[s.pc]) && !HaltsEmpty(p, s) && s.cycles < MAX_CYCLES
    requires StackSame(mu0, None, s.stack, g.stack)
    requires !M.Exec(p, p.instructions[s.pc], s.(cycles := s.cycles + 1)).Trapped?
    requires match M.TakeTurn(p, s) case Stop(_) => true case Next(t) => CurrentShape(plans, t.calls, t.pc).pending == None
    ensures change == Plain && StacksChange(None, change, VmEvent(p, s), GcEvent(p, g))
  {
    hide M.Exec, G.Exec, Related, StackSame, CurrentShape, M.TakeTurn;
    change := Plain;
    NumbersBefore(mu0, s, g);
    TurnTo(p, s);
    var instr := p.instructions[s.pc];
    var step, other := M.Exec(p, instr, s.(cycles := s.cycles + 1)), G.Exec(p, instr, g.(cycles := g.cycles + 1));
    match step {
      case Advance(t) => NumbersAfter(p, plans, mu, t.(pc := t.pc + 1), other.st.(pc := other.st.pc + 1));
      case Jumped(t) =>
        if t.calls != [] {
          NumbersAfter(p, plans, mu, t, other.st);
        } else {
          ExitStacks(p, instr, s.(cycles := s.cycles + 1), g.(cycles := g.cycles + 1));
        }
    }
  }

  lemma NumbersBefore(mu: Spots, s: M.State, g: G.State)
    requires StackSame(mu, None, s.stack, g.stack)
    ensures Raw(g.stack) == s.stack
  {
  }

  lemma NumbersAfter(p: CompiledProgram, plans: Plans, mu: Spots, s: M.State, g: G.State)
    requires Related(p, plans, mu, s, g) && CurrentShape(plans, s.calls, s.pc).pending == None
    ensures Raw(g.stack) == s.stack
  {
    hide CallsSame, GlobalsSame, ArraysSame;
  }

  /** The run's last instruction leaves the operands alone. */
  lemma ExitStacks(p: CompiledProgram, instr: Instruction, s: M.State, g: G.State)
    requires s.calls != [] && g.calls != [] && (instr.opcode == Halt ==> s.stack != [])
    requires M.Exec(p, instr, s).Jumped? && M.Exec(p, instr, s).st.calls == [] && G.Exec(p, instr, g).Jumped? && |g.stack| == |s.stack|
    ensures M.Exec(p, instr, s).st.stack == s.stack && G.Exec(p, instr, g).st.stack == g.stack
  {
    hide M.Exec, G.Exec;
    Moves(p, instr, s);
    ReturnOrHalt(p, instr, s, g);
  }

  lemma ReturnOrHalt(p: CompiledProgram, instr: Instruction, s: M.State, g: G.State)
    requires s.calls != [] && g.calls != [] && (instr.opcode == Halt ==> s.stack != [])
    ensures instr.opcode == Opcode.Return || instr.opcode == Halt ==>
      && (M.Exec(p, instr, s).Jumped? ==> M.Exec(p, instr, s).st.stack == s.stack)
      && (G.Exec(p, instr, g).Jumped? ==> G.Exec(p, instr, g).st.stack == g.stack)
  {
  }

  lemma EventChange(p: CompiledProgram, plans: Plans, mu: Spots, mu': Spots, s: M.State, g: G.State, plan: Plan, instr: Instruction)
    returns (change: Change)
    requires Orderly(p, plans) && Ready(p, plans, mu, s, g, plan, instr) && s.cycles < MAX_CYCLES && !HaltsEmpty(p, s)
    requires Keeps(p, plan.range, plan.kinds, plan.shapes[s.pc], plan.shapes, s.pc)
    requires Stepping(p, plans, mu', s, g)
    ensures s.pc in plan.shapes && StacksChange(plan.shapes[s.pc].pending, change, VmEvent(p, s), GcEvent(p, g))
    ensures
      match M.TakeTurn(p, s)
      case Stop(_) => true
      case Next(t) =>
        && (change.Popped? ==> change.left < |s.stack|)
        && (CurrentShape(plans, t.calls, t.pc).pending.Some? <==> change.Allocated?)
  {
    hide M.Exec, Related, Ready, ArraysOk, Orderly, Keeps, Stepping, CurrentShape, VmEvent, GcEvent, StackSame, StacksChange, M.TakeTurn;
    ReadyParts(p, plans, mu, s, g, plan, instr);
    ReadyStacks(p, plans, mu, s, g, plan, instr);
    Onward(p, plan, s.pc, instr);
    PendingBehind(p, plans, mu, s, g, plan, instr);
    TurnTo(p, s);
    var pending := plan.shapes[s.pc].pending;
    PendingIsStored(p, plan, s.pc, instr);
    if M.Exec(p, instr, s.(cycles := s.cycles + 1)).Trapped? {
      change := TrapChange(p, plans, mu', s, g, pending);
    } else if pending.Some? {
      change := StoreChange(p, plans, mu', s, g, pending);
    } else if Allocates(instr) {
      change := AllocChange(p, plans, mu', s, g);
    } else {
      change := PlainChange(p, plans, mu', mu, s, g);
    }
  }

  lemma PendingIsStored(p: CompiledProgram, plan: Plan, pc: nat, instr: Instruction)
    requires pc in plan.shapes && ArraysOk(p, plan.kinds, plan.shapes[pc], instr)
    ensures plan.shapes[pc].pending.Some? ==> instr.opcode == StoreLocal
  {
  }

  lemma ReadyStacks(p: CompiledProgram, plans: Plans, mu: Spots, s: M.State, g: G.State, plan: Plan, instr: Instruction)
    requires Ready(p, plans, mu, s, g, plan, instr)
    ensures StackSame(mu, plan.shapes[s.pc].pending, s.stack, g.stack)
  {
  }

  /** One turn: the events compare equal, and the normalizers stay equal. */
  lemma TurnCompared(p: CompiledProgram, plans: Plans, mu: Spots, s: M.State, g: G.State, seen: Seen) returns (mu': Spots)
    requires Orderly(p, plans) && Related(p, plans, mu, s, g) && H.HeapOk(g) && !StorageFull(p, s) && s.cycles < MAX_CYCLES
    requires SeenOk(CurrentShape(plans, s.calls, s.pc).pending, seen, s.stack) && !HaltsEmpty(p, s)
    ensures s.pc < |p.instructions| && s.pc == g.pc && g.cycles == s.cycles
    ensures
      var a, b := VmEvent(p, s), GcEvent(p, g);
      && NormalizeAfter(seen, a) == NormalizeAfter(seen, b)
      && CompareEvents(a, b, NormalizeBefore(seen, a) == NormalizeBefore(seen, b), true).None?
    ensures TurnsPaired(p, plans, mu', M.TakeTurn(p, s), G.TakeTurn(p, g))
    ensures
      match M.TakeTurn(p, s)
      case Stop(_) => true
      case Next(t) => SeenOk(CurrentShape(plans, t.calls, t.pc).pending, NormalizeAfter(seen, VmEvent(p, s)), t.stack)
  {
    hide M.Exec, G.Exec, Related, Orderly, Keeps, Ready, Paired, StorageFull, H.HeapOk, StacksChange, VmEvent, GcEvent, SameFields,
      M.TakeTurn, G.TakeTurn, CurrentShape;
    var plan, instr := MakeReady(p, plans, mu, s, g);
    Alike(p, plans, mu, s, g);
    SameCycles(p, plans, mu, s, g);
    var s1, g1 := s.(cycles := s.cycles + 1), g.(cycles := g.cycles + 1);
    Tick(p, plans, mu, s, g);
    mu' := StepPaired(p, plans, mu, s1, g1);
    H.TurnKeepsHeap(p, g);
    TurnFollows(p, plans, mu', s, g);
    var change := EventChange(p, plans, mu, mu', s, g, plan, instr);
    FieldsSame(p, plans, mu', s, g);
    EventStacks(p, s, g);
    var a, b := VmEvent(p, s), GcEvent(p, g);
    EventsCompare(plan.shapes[s.pc].pending, change, seen, a, b);
    NoDifference(a, b);
    AnyPending(CurrentShape(plans, s.calls, s.pc).pending, NormalizeAfter(seen, a), a.after);
    AfterTurn(p, s);
  }

  lemma SameCycles(p: CompiledProgram, plans: Plans, mu: Spots, s: M.State, g: G.State)
    requires Related(p, plans, mu, s, g)
    ensures s.cycles == g.cycles && s.output == g.output
  {
  }

  lemma EventStacks(p: CompiledProgram, s: M.State, g: G.State)
    requires s.pc < |p.instructions| && g.pc < |p.instructions|
    ensures VmEvent(p, s).before == s.stack && GcEvent(p, g).before == Raw(g.stack)
  {
    hide M.Exec, G.Exec;
  }

  lemma NoDifference(a: TraceEvent, b: TraceEvent)
    requires SameFields(a, b)
    ensures CompareEvents(a, b, true, true).None?
  {
  }

  /** Which reference is expected does not matter to the normalizer. */
  lemma AnyPending(pending: Option<nat>, seen: Seen, stack: seq<int>)
    ensures SeenOk(Some(0), seen, stack) ==> forall size: nat :: SeenOk(Some(size), seen, stack)
  {
  }

  lemma AfterTurn(p: CompiledProgram, s: M.State)
    requires s.pc < |p.instructions| && s.cycles < MAX_CYCLES
    ensures match M.TakeTurn(p, s) case Stop(_) => true case Next(t) => t.stack == VmEvent(p, s).after
  {
    hide M.Exec;
  }

  // ---------------------------------------------------------------- runs

  /** Somewhere on the run a Halt finds no operand. */
  ghost predicate HaltsOnNothing(p: CompiledProgram, s: M.State)
    decreases MAX_CYCLES - s.cycles
  {
    || (s.cycles < MAX_CYCLES && HaltsEmpty(p, s))
    || match M.TakeTurn(p, s) case Stop(_) => false case Next(t) => HaltsOnNothing(p, t)
  }

  lemma HaltDiffers(p: CompiledProgram, s: M.State, g: G.State, seen: Seen)
    requires HaltsEmpty(p, s) && g.pc == s.pc && g.stack == []
    ensures NormalizeAfter(seen, VmEvent(p, s)).stack != NormalizeAfter(seen, GcEvent(p, g)).stack
  {
    assert |VmEvent(p, s).after| == 1 && |GcEvent(p, g).after| == 0;
  }

  /** Corresponding states leave traces that differ exactly if a Halt finds no operand. */
  lemma {:induction false} TracesFrom(p: CompiledProgram, plans: Plans, mu: Spots, s: M.State, g: G.State, seen: Seen, index: nat)
    requires Orderly(p, plans) && Related(p, plans, mu, s, g) && H.HeapOk(g) && !StorageEnds(p, s)
    requires SeenOk(CurrentShape(plans, s.calls, s.pc).pending, seen, s.stack)
    ensures SemanticDivergenceFrom(index, seen, seen, VmTrace(p, s), GcTrace(p, g)).None? <==> !HaltsOnNothing(p, s)
    decreases MAX_CYCLES - s.cycles
  {
    hide Related, Orderly, M.TakeTurn, G.TakeTurn, StorageFull, H.HeapOk, CurrentShape, SeenOk, VmEvent, GcEvent, CompareEvents, NormalizeAfter, NormalizeBefore;
    SameCycles(p, plans, mu, s, g);
    Alike(p, plans, mu, s, g);
    if s.cycles >= MAX_CYCLES {
      InsideCode(p, plans, mu, s, g);
    } else if HaltsEmpty(p, s) {
      HaltDiffers(p, s, g, seen);
      Differs(VmEvent(p, s), GcEvent(p, g));
    } else {
      var mu' := TurnCompared(p, plans, mu, s, g, seen);
      match M.TakeTurn(p, s) {
        case Stop(_) => TracesStep(index, seen, VmEvent(p, s), GcEvent(p, g), [], []);
        case Next(t) =>
          var u := G.TakeTurn(p, g).st;
          TracesFrom(p, plans, mu', t, u, NormalizeAfter(seen, VmEvent(p, s)), index + 1);
          TracesStep(index, seen, VmEvent(p, s), GcEvent(p, g), VmTrace(p, t), GcTrace(p, u));
      }
    }
  }

  lemma Differs(a: TraceEvent, b: TraceEvent)
    ensures forall sameBefore: bool :: CompareEvents(a, b, sameBefore, false).Some?
  {
  }

  lemma TracesStep(index: nat, seen: Seen, a: TraceEvent, b: TraceEvent, left: seq<TraceEvent>, right: seq<TraceEvent>)
    requires NormalizeAfter(seen, a) == NormalizeAfter(seen, b)
    requires CompareEvents(a, b, NormalizeBefore(seen, a) == NormalizeBefore(seen, b), true).None?
    ensures
      var seen' := NormalizeAfter(seen, a);
      SemanticDivergenceFrom(index, seen, seen, [a] + left, [b] + right) == SemanticDivergenceFrom(index + 1, seen', seen', left, right)
  {
    hide CompareEvents, NormalizeAfter, NormalizeBefore;
    assert ([a] + left)[1..] == left && ([b] + right)[1..] == right;
  }

  /**
   * The semantic comparison of the two machines' traces finds no difference, on every program with a plan whose frames fit
   * the shared storage, exactly if the run does not end in a Halt without operand: there the reference machine pushes a
   * zero, which the collecting one does not.
   */
  lemma TracesAgree(p: CompiledProgram, plans: Plans, arrays: seq<GlobalInfo>)
    requires Orderly(p, plans) && V.PlainMain(p) && P.GlobalsOk(p.globals, p.globals.Keys) && G.ArraysOf(p, arrays)
    requires !StorageEnds(p, M.Boot(p))
    ensures
      var left, right := VmTrace(p, M.Boot(p)), GcTrace(p, G.Boot(p, arrays));
      SemanticDivergenceFrom(0, Seen([], 0), Seen([], 0), left, right).None? <==> !HaltsOnNothing(p, M.Boot(p))
  {
    hide Orderly, P.GlobalsOk, Related, H.HeapOk, StorageEnds, G.Boot, HaltsOnNothing, VmTrace, GcTrace, CurrentShape;
    var mu := GcCorrect.BootRelated(p, plans, arrays);
    BootPending(p, plans);
    TracesFrom(p, plans, mu, M.Boot(p), G.Boot(p, arrays), Seen([], 0), 0);
  }

  lemma BootPending(p: CompiledProgram, plans: Plans)
    requires Orderly(p, plans) && V.PlainMain(p)
    ensures SeenOk(CurrentShape(plans, M.Boot(p).calls, M.Boot(p).pc).pending, Seen([], 0), M.Boot(p).stack)
  {
    EntryPending(p, plans, p.mainFuncId);
  }

  lemma {:induction false} NoHaltNoTrouble(p: CompiledProgram, s: M.State)
    requires forall i :: 0 <= i < |p.instructions| ==> p.instructions[i].opcode != Halt
    ensures !HaltsOnNothing(p, s)
    decreases MAX_CYCLES - s.cycles
  {
    hide M.TakeTurn;
    match M.TakeTurn(p, s) {
      case Stop(_) =>
      case Next(t) => NoHaltNoTrouble(p, t);
    }
  }

  /** A program of a single Halt. */
  function OnlyHalt(): CompiledProgram {
    CompiledProgram([Instruction(Halt, 0, 0)], map[0 := FunctionInfo("main", 0, 0, 0, 0)], map[], 0)
  }

  /** Its traces differ in the operands left. */
  lemma HaltShows()
    ensures
      var p := OnlyHalt();
      && M.Validate(p).None? && HaltsOnNothing(p, M.Boot(p))
      && SemanticDivergenceFrom(0, Seen([], 0), Seen([], 0), VmTrace(p, M.Boot(p)), GcTrace(p, G.Boot(p, [])))
         == Some(TraceDivergence(0, StackAfter))
  {
    var p, seen := OnlyHalt(), Seen([], 0);
    var s, g := M.Boot(p), G.Boot(p, []);
    var a, b := VmEvent(p, s), GcEvent(p, g);
    assert VmTrace(p, s) == [a] + [] && GcTrace(p, g) == [b] + [];
    HaltDiffers(p, s, g, seen);
    assert a == b.(after := a.after);
  }
}
