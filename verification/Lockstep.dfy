/**
 * The garbage-collected machine runs in lockstep with the reference machine: recycled heap ids on one side stand for
 * array bases that are never reused on the other.
 */
module Lockstep {
  import opened Common
  import opened Int32
  import opened Limits
  import opened Bytecode
  import opened Discipline
  import M = Machine
  import G = GcMachine
  import H = GcHeap
  import V = Verifier
  import W = Worklist

  // ---------------------------------------------------------------- arrays on both sides

  // Where the reference machine keeps an array: behind its frames, or among its globals.
  datatype Spot = LocalAt(base: nat, size: nat) | GlobalAt(slot: nat, size: nat)

  // The heap ids in use, and the arrays they stand for.
  type Spots = map<nat, Spot>

  predicate InBounds(spot: Spot, locals: seq<int>, globals: seq<int>) {
    match spot
    case LocalAt(base, size) => MAX_LOCAL_SLOTS <= base && base + size <= |locals|
    case GlobalAt(slot, size) => slot + size <= |globals|
  }

  function Content(spot: Spot, locals: seq<int>, globals: seq<int>): seq<int>
    requires InBounds(spot, locals, globals)
  {
    match spot
    case LocalAt(base, size) => locals[base..base + size]
    case GlobalAt(slot, size) => globals[slot..slot + size]
  }

  predicate Apart(a: Spot, b: Spot) {
    match (a, b)
    case (LocalAt(i, m), LocalAt(j, n)) => i + m <= j || j + n <= i
    case (GlobalAt(i, m), GlobalAt(j, n)) => i + m <= j || j + n <= i
    case _ => true
  }

  predicate SpotOk(heap: G.Heap, id: nat, spot: Spot, locals: seq<int>, globals: seq<int>) {
    H.Alive(heap, id) && InBounds(spot, locals, globals) && heap[id].value == Content(spot, locals, globals)
  }

  /** Arrays have equal contents on both sides, and do not overlap. */
  ghost predicate ArraysSame(mu: Spots, heap: G.Heap, locals: seq<int>, globals: seq<int>) {
    && (forall id <- mu :: SpotOk(heap, id, mu[id], locals, globals))
    && (forall i <- mu, j <- mu :: i != j ==> Apart(mu[i], mu[j]))
  }

  // ---------------------------------------------------------------- values on both sides

  predicate RefSame(mu: Spots, v: G.Value, w: int, size: nat) {
    v.ArrayRef? && v.id in mu && w >= 0 && mu[v.id] == LocalAt(w, size)
  }

  /** A local of the frame that owns it, and the cell of the shared storage. */
  predicate LocalSame(mu: Spots, kind: Kind, v: G.Value, init: bool, w: int) {
    init == (w != I64_MIN) && (init ==> match kind case ScalarSlot => v == G.Int(w) case ArraySlot(size) => RefSame(mu, v, w, size))
  }

  predicate FrameSame(mu: Spots, kinds: seq<Kind>, f: M.Frame, gf: G.Frame, locals: seq<int>) {
    && |gf.locals| == |gf.init| == |kinds| && gf.returnPc == f.returnPc
    && f.basePtr + |kinds| <= MAX_LOCAL_SLOTS <= |locals|
    && forall i :: 0 <= i < |kinds| ==> LocalSame(mu, kinds[i], gf.locals[i], gf.init[i], locals[f.basePtr + i])
  }

  predicate ReadyOk(ready: set<nat>, gf: G.Frame) {
    forall i <- ready :: i < |gf.init| && gf.init[i]
  }

  /** A frame that is at pc, with the array slots ready that its plan promises. */
  predicate FrameAt(plans: Plans, mu: Spots, f: M.Frame, gf: G.Frame, pc: nat, locals: seq<int>) {
    && f.funcId in plans && pc in plans[f.funcId].shapes
    && FrameSame(mu, plans[f.funcId].kinds, f, gf, locals)
    && ReadyOk(plans[f.funcId].shapes[pc].ready, gf)
  }

  /** A suspended frame waits where its callee returns to, and its window ends where the callee's begins. */
  predicate LinkSame(plans: Plans, mu: Spots, f: M.Frame, gf: G.Frame, callee: M.Frame, locals: seq<int>) {
    && callee.returnPc.Some? && FrameAt(plans, mu, f, gf, callee.returnPc.value, locals)
    && plans[f.funcId].shapes[callee.returnPc.value].pending == None
    && callee.basePtr == f.basePtr + |plans[f.funcId].kinds|
  }

  predicate CallsSame(plans: Plans, mu: Spots, calls: seq<M.Frame>, gcalls: seq<G.Frame>, pc: nat, locals: seq<int>) {
    && calls != [] && |gcalls| == |calls| && calls[0].returnPc.None?
    && FrameAt(plans, mu, calls[|calls| - 1], gcalls[|calls| - 1], pc, locals)
    && forall k :: 0 <= k < |calls| - 1 ==> LinkSame(plans, mu, calls[k], gcalls[k], calls[k + 1], locals)
  }

  /** Operands are equal numbers; only right after an allocation is there a reference on top. */
  predicate StackSame(mu: Spots, pending: Option<nat>, stack: seq<int>, gstack: seq<G.Value>) {
    && |gstack| == |stack|
    && match pending
       case None => forall i :: 0 <= i < |stack| ==> gstack[i] == G.Int(stack[i])
       case Some(size) =>
         && stack != [] && RefSame(mu, gstack[|stack| - 1], stack[|stack| - 1], size)
         && forall i :: 0 <= i < |stack| - 1 ==> gstack[i] == G.Int(stack[i])
  }

  predicate GlobalArraySame(mu: Spots, info: GlobalInfo, gglobals: seq<G.Value>) {
    && info.slot < |gglobals| && gglobals[info.slot].ArrayRef? && gglobals[info.slot].id in mu
    && mu[gglobals[info.slot].id] == GlobalAt(info.slot, info.arraySize)
  }

  ghost predicate GlobalsSame(p: CompiledProgram, mu: Spots, globals: seq<int>, gglobals: seq<G.Value>) {
    && |globals| == |gglobals| == MAX_GLOBAL_SLOTS
    && (forall slot :: 0 <= slot < MAX_GLOBAL_SLOTS && PlainGlobal(p, slot) ==> gglobals[slot] == G.Int(globals[slot]))
    && (forall x <- p.globals :: p.globals[x].isArray ==> GlobalArraySame(mu, p.globals[x], gglobals))
    && GlobalsDeclared(p, mu)
  }

  predicate Defined(values: seq<int>) {
    forall i :: 0 <= i < |values| ==> values[i] != I64_MIN
  }

  function CurrentShape(plans: Plans, calls: seq<M.Frame>, pc: nat): Shape {
    if calls != [] && calls[|calls| - 1].funcId in plans && pc in plans[calls[|calls| - 1].funcId].shapes
    then plans[calls[|calls| - 1].funcId].shapes[pc] else Shape(0, {}, None)
  }

  /** Both machines are at the same point of the same run. */
  ghost predicate Related(p: CompiledProgram, plans: Plans, mu: Spots, s: M.State, g: G.State) {
    && s.pc == g.pc && s.cycles == g.cycles && s.output == g.output
    && CallsSame(plans, mu, s.calls, g.calls, s.pc, s.locals)
    && StackSame(mu, CurrentShape(plans, s.calls, s.pc).pending, s.stack, g.stack)
    && GlobalsSame(p, mu, s.globals, g.globals)
    && ArraysSame(mu, g.heap, s.locals, s.globals)
    && |s.locals| >= MAX_LOCAL_SLOTS
    && Defined(s.stack) && Defined(s.globals) && Defined(s.locals[MAX_LOCAL_SLOTS..])
  }

  // ---------------------------------------------------------------- the instruction at hand

  function Current(s: M.State): nat
    requires s.calls != []
  {
    M.CurrentFrame(s).funcId
  }

  /** The plan at the instruction about to run. */
  lemma Here(p: CompiledProgram, plans: Plans, mu: Spots, s: M.State, g: G.State)
    requires Orderly(p, plans) && Related(p, plans, mu, s, g)
    ensures s.calls != [] && g.calls != [] && Current(s) in p.functions && Current(s) in plans
    ensures var plan := plans[Current(s)];
      && PlanOk(p, Current(s), plan) && s.pc in plan.shapes && s.pc < |p.instructions|
      && |plan.kinds| == p.functions[Current(s)].localCount
      && Keeps(p, plan.range, plan.kinds, plan.shapes[s.pc], plan.shapes, s.pc)
      && CurrentShape(plans, s.calls, s.pc) == plan.shapes[s.pc]
  {
    hide V.StepInstruction, FrameSame, StackSame, GlobalsSame, ArraysSame, ReadyOk;
    assert PlanOk(p, Current(s), plans[Current(s)]);
  }

  /** What the plan says about an accepted instruction. */
  lemma KeepsParts(p: CompiledProgram, plan: Plan, pc: nat)
    requires pc in plan.shapes && Keeps(p, plan.range, plan.kinds, plan.shapes[pc], plan.shapes, pc)
    ensures pc < |p.instructions|
    ensures var instr, shape := p.instructions[pc], plan.shapes[pc];
      && Step(p, plan.range, pc, shape).Stepped? && ArraysOk(p, plan.kinds, shape, instr)
      && Step(p, plan.range, pc, shape).succs == V.Successors(instr, pc)
      && forall succ <- V.Successors(instr, pc) ::
           Arrives(plan.shapes, succ, Step(p, plan.range, pc, shape).st.depth, NextReady(shape, instr), NextPending(instr))
  {
    V.StepShape(p, plan.range, pc, p.instructions[pc], V.AbstractState(plan.shapes[pc].depth, W.EntryInit(plan.range)));
    hide V.StepInstruction, ArraysOk;
  }

  // ---------------------------------------------------------------- how two steps correspond

  /** Both steps trap alike, end the run with the same result, or lead to corresponding states. */
  ghost predicate Paired(p: CompiledProgram, plans: Plans, mu: Spots, vm: M.Step, gc: G.Step) {
    match vm
    case Trapped(code, depth) => gc == G.Trapped(code, depth)
    case Advance(s) => gc.Advance? && s.calls != [] && Related(p, plans, mu, s.(pc := s.pc + 1), gc.st.(pc := gc.st.pc + 1))
    case Jumped(s) =>
      gc.Jumped? && (if s.calls == [] then Ended(s, gc.st) else Related(p, plans, mu, s, gc.st))
  }

  /** Both runs are over, with the same value, output and depth. */
  predicate Ended(s: M.State, g: G.State) {
    && s.calls == [] && g.calls == [] && s.pc == g.pc && s.output == g.output
    && (if g.stack == [] then 0 else G.ToInt(G.Top(g))) == (if s.stack == [] then 0 else M.Top(s))
    && (if g.stack == [] then 0 else |g.stack| - 1) == (if s.stack == [] then 0 else |s.stack| - 1)
  }

  /** What every case starts from. */
  ghost predicate Ready(p: CompiledProgram, plans: Plans, mu: Spots, s: M.State, g: G.State, plan: Plan, instr: Instruction) {
    && Related(p, plans, mu, s, g)
    && s.calls != [] && g.calls != [] && Current(s) in p.functions && Current(s) in plans && plans[Current(s)] == plan
    && |plan.kinds| == p.functions[Current(s)].localCount
    && s.pc in plan.shapes && s.pc < |p.instructions| && p.instructions[s.pc] == instr
    && ArraysOk(p, plan.kinds, plan.shapes[s.pc], instr)
    && StackSame(mu, plan.shapes[s.pc].pending, s.stack, g.stack)
  }

  /** A successor in the plan, whatever its depth. */
  predicate Leads(plan: Plan, pc: nat, ready: set<nat>, pending: Option<nat>) {
    pc in plan.shapes && plan.shapes[pc].ready <= ready && plan.shapes[pc].pending == pending
  }

  /** Only operands and output changed. */
  lemma StackMoves(p: CompiledProgram, plans: Plans, mu: Spots, s: M.State, g: G.State, plan: Plan, instr: Instruction,
                   s': M.State, g': G.State)
    requires Ready(p, plans, mu, s, g, plan, instr) && plan.shapes[s.pc].pending == None
    requires s'.calls == s.calls && s'.locals == s.locals && s'.globals == s.globals
    requires g'.calls == g.calls && g'.heap == g.heap && g'.globals == g.globals
    requires s'.pc == g'.pc && s'.cycles == g'.cycles && s'.output == g'.output
    requires Leads(plan, s'.pc, plan.shapes[s.pc].ready, None)
    requires StackSame(mu, None, s'.stack, g'.stack) && Defined(s'.stack)
    ensures Related(p, plans, mu, s', g')
  {
    hide FrameSame, GlobalsSame, ArraysSame, ArraysOk;
    assert FrameAt(plans, mu, s.calls[|s.calls| - 1], g.calls[|g.calls| - 1], s'.pc, s.locals);
  }

  lemma ArithDefined(op: Opcode, a: int, b: int)
    requires M.IsBinary(op) && (op == Opcode.Div ==> b != 0)
    ensures M.Arith(op, a, b) != I64_MIN && G.Arith(op, G.Int(a), G.Int(b)) == M.Arith(op, a, b)
  {
  }

  /** Some operands are replaced by one number. */
  lemma Pushed(p: CompiledProgram, plans: Plans, mu: Spots, s: M.State, g: G.State, plan: Plan, instr: Instruction, n: nat, v: int)
    requires Ready(p, plans, mu, s, g, plan, instr) && plan.shapes[s.pc].pending == None && n <= |s.stack| && |g.stack| == |s.stack| && v != I64_MIN
    requires Leads(plan, s.pc + 1, plan.shapes[s.pc].ready, None)
    ensures Paired(p, plans, mu, M.Push(M.Drop(s, n), v), G.Push(G.Drop(g, n), G.Int(v)))
  {
    hide CallsSame, GlobalsSame, ArraysSame, Related, ArraysOk, Leads;
    Whole(p, plans, mu, s, g);
    if |s.stack| - n < MAX_OPERAND_STACK {
      var low := |s.stack| - n;
      StackMoves(p, plans, mu, s, g, plan, instr,
        s.(stack := s.stack[..low] + [v], pc := s.pc + 1), g.(stack := g.stack[..low] + [G.Int(v)], pc := s.pc + 1));
    }
  }

  /** Some operands are dropped, perhaps with output, perhaps with a jump. */
  lemma Dropped(p: CompiledProgram, plans: Plans, mu: Spots, s: M.State, g: G.State, plan: Plan, instr: Instruction, n: nat, pc: nat, output: seq<int>)
    requires Ready(p, plans, mu, s, g, plan, instr) && plan.shapes[s.pc].pending == None && n <= |s.stack| && |g.stack| == |s.stack|
    requires Leads(plan, pc, plan.shapes[s.pc].ready, None)
    ensures Related(p, plans, mu, M.Drop(s, n).(pc := pc, output := output), G.Drop(g, n).(pc := pc, output := output))
  {
    hide CallsSame, GlobalsSame, ArraysSame, Related, ArraysOk, Leads;
    Whole(p, plans, mu, s, g);
    var low := |s.stack| - n;
    StackMoves(p, plans, mu, s, g, plan, instr,
      s.(stack := s.stack[..low], pc := pc, output := output), g.(stack := g.stack[..low], pc := pc, output := output));
  }

  lemma DroppedAdvance(p: CompiledProgram, plans: Plans, mu: Spots, s: M.State, g: G.State, plan: Plan, instr: Instruction, n: nat, output: seq<int>)
    requires Ready(p, plans, mu, s, g, plan, instr) && plan.shapes[s.pc].pending == None && n <= |s.stack| && |g.stack| == |s.stack|
    requires Leads(plan, s.pc + 1, plan.shapes[s.pc].ready, None)
    ensures Paired(p, plans, mu, M.Advance(M.Drop(s, n).(output := output)), G.Advance(G.Drop(g, n).(output := output)))
  {
    hide Related, Leads, ArraysOk;
    Whole(p, plans, mu, s, g);
    Dropped(p, plans, mu, s, g, plan, instr, n, s.pc + 1, output);
  }

  lemma DroppedJump(p: CompiledProgram, plans: Plans, mu: Spots, s: M.State, g: G.State, plan: Plan, instr: Instruction, n: nat, target: nat)
    requires Ready(p, plans, mu, s, g, plan, instr) && plan.shapes[s.pc].pending == None && n <= |s.stack| && |g.stack| == |s.stack|
    requires Leads(plan, target, plan.shapes[s.pc].ready, None)
    ensures Paired(p, plans, mu, M.Jumped(M.Drop(s, n).(pc := target)), G.Jumped(G.Drop(g, n).(pc := target)))
  {
    hide Related, Leads, ArraysOk;
    Whole(p, plans, mu, s, g);
    Dropped(p, plans, mu, s, g, plan, instr, n, target, s.output);
  }

  lemma BinaryRuns(p: CompiledProgram, s: M.State, g: G.State, instr: Instruction)
    requires M.IsBinary(instr.opcode) && StackSame(map[], None, s.stack, g.stack)
    ensures |s.stack| < 2 ==> M.Exec(p, instr, s) == M.Trapped(StackUnderflow, 0) && G.Exec(p, instr, g) == G.Trapped(StackUnderflow, 0)
    ensures |s.stack| >= 2 ==>
      var a, b := s.stack[|s.stack| - 2], s.stack[|s.stack| - 1];
      if instr.opcode == Opcode.Div && b == 0 then
        M.Exec(p, instr, s) == M.Trapped(DivideByZero, |s.stack| - 2) && G.Exec(p, instr, g) == G.Trapped(DivideByZero, |s.stack| - 2)
      else
        && M.Exec(p, instr, s) == M.Push(M.Drop(s, 2), M.Arith(instr.opcode, a, b))
        && G.Exec(p, instr, g) == G.Push(G.Drop(g, 2), G.Int(M.Arith(instr.opcode, a, b)))
  {
    hide M.Arith, G.Arith;
    assert M.Exec(p, instr, s) == M.ExecBinary(instr.opcode, s) && G.Exec(p, instr, g) == G.ExecBinary(instr.opcode, g);
    if |s.stack| >= 2 {
      var a, b := s.stack[|s.stack| - 2], s.stack[|s.stack| - 1];
      if !(instr.opcode == Opcode.Div && b == 0) {
        ArithDefined(instr.opcode, a, b);
      }
    }
  }

  lemma BinaryPaired(p: CompiledProgram, plans: Plans, mu: Spots, s: M.State, g: G.State, plan: Plan, instr: Instruction)
    requires Ready(p, plans, mu, s, g, plan, instr) && M.IsBinary(instr.opcode)
    requires Leads(plan, s.pc + 1, plan.shapes[s.pc].ready, None)
    ensures Paired(p, plans, mu, M.Exec(p, instr, s), G.Exec(p, instr, g))
  {
    hide Related, Leads, M.Exec, G.Exec, M.Arith, M.Push, G.Push, M.Drop, G.Drop;
    BinaryRuns(p, s, g, instr);
    if |s.stack| >= 2 {
      var a, b := s.stack[|s.stack| - 2], s.stack[|s.stack| - 1];
      if !(instr.opcode == Opcode.Div && b == 0) {
        ArithDefined(instr.opcode, a, b);
        Pushed(p, plans, mu, s, g, plan, instr, 2, M.Arith(instr.opcode, a, b));
      }
    }
  }

  /** The parts of the relation that the cases use directly. */
  lemma Whole(p: CompiledProgram, plans: Plans, mu: Spots, s: M.State, g: G.State)
    requires Related(p, plans, mu, s, g)
    ensures s.pc == g.pc && s.cycles == g.cycles && s.output == g.output
    ensures CallsSame(plans, mu, s.calls, g.calls, s.pc, s.locals)
    ensures StackSame(mu, CurrentShape(plans, s.calls, s.pc).pending, s.stack, g.stack)
    ensures GlobalsSame(p, mu, s.globals, g.globals) && ArraysSame(mu, g.heap, s.locals, s.globals)
    ensures |s.locals| >= MAX_LOCAL_SLOTS && Defined(s.stack) && Defined(s.globals) && Defined(s.locals[MAX_LOCAL_SLOTS..])
  {
  }

  lemma PushRuns(p: CompiledProgram, s: M.State, g: G.State, instr: Instruction)
    requires (instr.opcode == LoadConst || instr.opcode == Dup) && StackSame(map[], None, s.stack, g.stack)
    ensures instr.opcode == LoadConst ==> M.Exec(p, instr, s) == M.Push(M.Drop(s, 0), instr.arg1) && G.Exec(p, instr, g) == G.Push(G.Drop(g, 0), G.Int(instr.arg1))
    ensures instr.opcode == Dup && s.stack == [] ==> M.Exec(p, instr, s) == M.Trapped(StackUnderflow, 0) && G.Exec(p, instr, g) == G.Trapped(StackUnderflow, 0)
    ensures instr.opcode == Dup && s.stack != [] ==>
      M.Exec(p, instr, s) == M.Push(M.Drop(s, 0), M.Top(s)) && G.Exec(p, instr, g) == G.Push(G.Drop(g, 0), G.Int(M.Top(s)))
  {
    assert M.Drop(s, 0) == s && G.Drop(g, 0) == g;
  }

  lemma PushPaired(p: CompiledProgram, plans: Plans, mu: Spots, s: M.State, g: G.State, plan: Plan, instr: Instruction)
    requires Ready(p, plans, mu, s, g, plan, instr) && (instr.opcode == LoadConst || instr.opcode == Dup)
    requires Leads(plan, s.pc + 1, plan.shapes[s.pc].ready, None)
    ensures Paired(p, plans, mu, M.Exec(p, instr, s), G.Exec(p, instr, g))
  {
    hide Related, Leads, M.Exec, G.Exec, M.Push, G.Push, M.Drop, G.Drop;
    Whole(p, plans, mu, s, g);
    PushRuns(p, s, g, instr);
    if instr.opcode == LoadConst {
      Pushed(p, plans, mu, s, g, plan, instr, 0, instr.arg1);
    } else if s.stack != [] {
      Pushed(p, plans, mu, s, g, plan, instr, 0, M.Top(s));
    }
  }

  lemma PopRuns(p: CompiledProgram, s: M.State, g: G.State, instr: Instruction)
    requires (instr.opcode == Opcode.Print || instr.opcode == Pop) && StackSame(map[], None, s.stack, g.stack) && s.output == g.output
    ensures s.stack == [] ==> M.Exec(p, instr, s) == M.Trapped(StackUnderflow, 0) && G.Exec(p, instr, g) == G.Trapped(StackUnderflow, 0)
    ensures s.stack != [] ==>
      var output := if instr.opcode == Pop then s.output else s.output + [M.Top(s)];
      M.Exec(p, instr, s) == M.Advance(M.Drop(s, 1).(output := output)) && G.Exec(p, instr, g) == G.Advance(G.Drop(g, 1).(output := output))
  {
  }

  lemma PopPaired(p: CompiledProgram, plans: Plans, mu: Spots, s: M.State, g: G.State, plan: Plan, instr: Instruction)
    requires Ready(p, plans, mu, s, g, plan, instr) && (instr.opcode == Opcode.Print || instr.opcode == Pop)
    requires Leads(plan, s.pc + 1, plan.shapes[s.pc].ready, None)
    ensures Paired(p, plans, mu, M.Exec(p, instr, s), G.Exec(p, instr, g))
  {
    hide Related, Leads, M.Exec, G.Exec, M.Drop, G.Drop;
    Whole(p, plans, mu, s, g);
    PopRuns(p, s, g, instr);
    if s.stack != [] {
      DroppedAdvance(p, plans, mu, s, g, plan, instr, 1, if instr.opcode == Pop then s.output else s.output + [M.Top(s)]);
    }
  }

  lemma UnaryRuns(p: CompiledProgram, s: M.State, g: G.State, instr: Instruction)
    requires (instr.opcode == Opcode.Neg || instr.opcode == Opcode.Not) && StackSame(map[], None, s.stack, g.stack)
    ensures s.stack == [] ==> M.Exec(p, instr, s) == M.Trapped(StackUnderflow, 0) && G.Exec(p, instr, g) == G.Trapped(StackUnderflow, 0)
    ensures s.stack != [] ==>
      var v := if instr.opcode == Opcode.Neg then NormalizeI32(Wrap64(-M.Top(s))) else BoolValue(M.Top(s) == 0);
      v != I64_MIN && M.Exec(p, instr, s) == M.Push(M.Drop(s, 1), v) && G.Exec(p, instr, g) == G.Push(G.Drop(g, 1), G.Int(v))
  {
    hide Wrap64;
    assert M.Exec(p, instr, s) == M.ExecUnary(instr.opcode, s) && G.Exec(p, instr, g) == G.ExecUnary(instr.opcode, g);
  }

  lemma UnaryPaired(p: CompiledProgram, plans: Plans, mu: Spots, s: M.State, g: G.State, plan: Plan, instr: Instruction)
    requires Ready(p, plans, mu, s, g, plan, instr) && (instr.opcode == Opcode.Neg || instr.opcode == Opcode.Not)
    requires Leads(plan, s.pc + 1, plan.shapes[s.pc].ready, None)
    ensures Paired(p, plans, mu, M.Exec(p, instr, s), G.Exec(p, instr, g))
  {
    hide Related, Leads, M.Exec, G.Exec, M.Push, G.Push, M.Drop, G.Drop, Wrap64, NormalizeI32;
    UnaryRuns(p, s, g, instr);
    if s.stack != [] {
      Pushed(p, plans, mu, s, g, plan, instr, 1, if instr.opcode == Opcode.Neg then NormalizeI32(Wrap64(-M.Top(s))) else BoolValue(M.Top(s) == 0));
    }
  }

  lemma JumpRuns(p: CompiledProgram, s: M.State, g: G.State, instr: Instruction)
    requires instr.opcode == Jump
    ensures M.Exec(p, instr, s) == M.Jumped(M.Drop(s, 0).(pc := AsUsize(instr.arg1)))
    ensures G.Exec(p, instr, g) == G.Jumped(G.Drop(g, 0).(pc := AsUsize(instr.arg1)))
  {
    assert M.Drop(s, 0) == s && G.Drop(g, 0) == g;
  }

  lemma BranchRuns(p: CompiledProgram, s: M.State, g: G.State, instr: Instruction)
    requires (instr.opcode == JumpIfFalse || instr.opcode == JumpIfTrue) && StackSame(map[], None, s.stack, g.stack)
    ensures s.stack == [] ==> M.Exec(p, instr, s) == M.Trapped(StackUnderflow, 0) && G.Exec(p, instr, g) == G.Trapped(StackUnderflow, 0)
    ensures s.stack != [] ==>
      if (M.Top(s) == 0) == (instr.opcode == JumpIfFalse) then
        M.Exec(p, instr, s) == M.Jumped(M.Drop(s, 1).(pc := AsUsize(instr.arg1)))
        && G.Exec(p, instr, g) == G.Jumped(G.Drop(g, 1).(pc := AsUsize(instr.arg1)))
      else
        M.Exec(p, instr, s) == M.Advance(M.Drop(s, 1)) && G.Exec(p, instr, g) == G.Advance(G.Drop(g, 1))
  {
    assert M.Exec(p, instr, s) == M.Branch(s, instr.arg1, instr.opcode == JumpIfFalse);
    assert G.Exec(p, instr, g) == G.Branch(g, instr.arg1, instr.opcode == JumpIfFalse);
    hide M.Exec, G.Exec;
  }

  lemma DropKeeps(s: M.State, g: G.State, n: nat)
    requires n <= |s.stack| && n <= |g.stack| && s.output == g.output
    ensures M.Drop(s, n) == M.Drop(s, n).(output := s.output) && G.Drop(g, n) == G.Drop(g, n).(output := s.output)
  {
  }

  lemma JumpPaired(p: CompiledProgram, plans: Plans, mu: Spots, s: M.State, g: G.State, plan: Plan, instr: Instruction)
    requires Ready(p, plans, mu, s, g, plan, instr) && instr.opcode in {Jump, JumpIfFalse, JumpIfTrue}
    requires Leads(plan, AsUsize(instr.arg1), plan.shapes[s.pc].ready, None)
    requires instr.opcode != Jump ==> Leads(plan, s.pc + 1, plan.shapes[s.pc].ready, None)
    ensures Paired(p, plans, mu, M.Exec(p, instr, s), G.Exec(p, instr, g))
  {
    hide Related, Leads, M.Exec, G.Exec, M.Drop, G.Drop;
    Whole(p, plans, mu, s, g);
    if instr.opcode == Jump {
      JumpRuns(p, s, g, instr);
      DroppedJump(p, plans, mu, s, g, plan, instr, 0, AsUsize(instr.arg1));
    } else {
      BranchRuns(p, s, g, instr);
      if s.stack != [] {
        if (M.Top(s) == 0) == (instr.opcode == JumpIfFalse) {
          DroppedJump(p, plans, mu, s, g, plan, instr, 1, AsUsize(instr.arg1));
        } else {
          DropKeeps(s, g, 1);
          DroppedAdvance(p, plans, mu, s, g, plan, instr, 1, s.output);
        }
      }
    }
  }

  // ---------------------------------------------------------------- locals

  /** A slot of the current frame, seen from both sides. */
  lemma SlotHere(p: CompiledProgram, plans: Plans, mu: Spots, s: M.State, g: G.State, plan: Plan, instr: Instruction, slot: int)
    requires Ready(p, plans, mu, s, g, plan, instr) && 0 <= slot < |plan.kinds|
    ensures M.LocalSlot(p, s, slot) == M.At(M.CurrentFrame(s).basePtr + slot) && M.CurrentFrame(s).basePtr + slot < |s.locals|
    ensures G.LocalSlot(g, slot) == M.At(slot) && slot < |G.CurrentFrame(g).locals| == |G.CurrentFrame(g).init|
    ensures LocalSame(mu, plan.kinds[slot], G.CurrentFrame(g).locals[slot], G.CurrentFrame(g).init[slot], s.locals[M.CurrentFrame(s).basePtr + slot])
    ensures FrameAt(plans, mu, M.CurrentFrame(s), G.CurrentFrame(g), s.pc, s.locals)
  {
    hide GlobalsSame, ArraysSame, ArraysOk;
  }

  lemma LoadLocalRuns(p: CompiledProgram, s: M.State, g: G.State, instr: Instruction, at: nat)
    requires instr.opcode == LoadLocal && instr.arg1 >= 0 && |g.stack| == |s.stack| && g.calls != []
    requires M.LocalSlot(p, s, instr.arg1) == M.At(at) && at < |s.locals| && G.LocalSlot(g, instr.arg1) == M.At(instr.arg1)
    requires instr.arg1 < |G.CurrentFrame(g).locals| == |G.CurrentFrame(g).init|
    requires LocalSame(map[], ScalarSlot, G.CurrentFrame(g).locals[instr.arg1], G.CurrentFrame(g).init[instr.arg1], s.locals[at])
    ensures s.locals[at] == I64_MIN ==> M.Exec(p, instr, s) == M.Trapped(UndefinedLocal, |s.stack|) && G.Exec(p, instr, g) == G.Trapped(UndefinedLocal, |s.stack|)
    ensures s.locals[at] != I64_MIN ==>
      M.Exec(p, instr, s) == M.Push(M.Drop(s, 0), s.locals[at]) && G.Exec(p, instr, g) == G.Push(G.Drop(g, 0), G.Int(s.locals[at]))
  {
    hide M.LocalSlot, G.LocalSlot;
    assert M.Drop(s, 0) == s && G.Drop(g, 0) == g;
  }

  lemma LoadLocalPaired(p: CompiledProgram, plans: Plans, mu: Spots, s: M.State, g: G.State, plan: Plan, instr: Instruction)
    requires Ready(p, plans, mu, s, g, plan, instr) && instr.opcode == LoadLocal
    requires Leads(plan, s.pc + 1, plan.shapes[s.pc].ready, None)
    ensures Paired(p, plans, mu, M.Exec(p, instr, s), G.Exec(p, instr, g))
  {
    hide CallsSame, GlobalsSame, ArraysSame, Related, FrameSame, FrameAt, Leads, M.Exec, G.Exec, M.LocalSlot, G.LocalSlot, M.Push, G.Push, M.Drop, G.Drop;
    SlotHere(p, plans, mu, s, g, plan, instr, instr.arg1);
    Whole(p, plans, mu, s, g);
    var w := s.locals[M.CurrentFrame(s).basePtr + instr.arg1];
    LoadLocalRuns(p, s, g, instr, M.CurrentFrame(s).basePtr + instr.arg1);
    if w != I64_MIN {
      Pushed(p, plans, mu, s, g, plan, instr, 0, w);
    }
  }

  predicate Within(mu: Spots, mu': Spots) {
    forall id <- mu :: id in mu' && mu'[id] == mu[id]
  }

  /** Windows of suspended frames end before the running frame's. */
  lemma {:induction false} WindowsBelow(plans: Plans, mu: Spots, calls: seq<M.Frame>, gcalls: seq<G.Frame>, locals: seq<int>, k: nat)
    requires |gcalls| == |calls| && k < |calls| - 1
    requires forall j :: 0 <= j < |calls| - 1 ==> LinkSame(plans, mu, calls[j], gcalls[j], calls[j + 1], locals)
    ensures calls[k].funcId in plans && calls[k].basePtr + |plans[calls[k].funcId].kinds| <= calls[|calls| - 1].basePtr
    decreases |calls| - k
  {
    assert LinkSame(plans, mu, calls[k], gcalls[k], calls[k + 1], locals);
    if k + 1 < |calls| - 1 {
      WindowsBelow(plans, mu, calls, gcalls, locals, k + 1);
    }
  }

  /** Suspended frames are not disturbed by what happens above their windows. */
  lemma LinksKept(plans: Plans, mu: Spots, mu': Spots, calls: seq<M.Frame>, gcalls: seq<G.Frame>, locals: seq<int>, locals': seq<int>, floor: nat)
    requires |gcalls| == |calls| && calls != [] && Within(mu, mu') && |locals'| >= |locals|
    requires forall k :: 0 <= k < |calls| - 1 ==> LinkSame(plans, mu, calls[k], gcalls[k], calls[k + 1], locals)
    requires floor >= calls[|calls| - 1].basePtr && forall i :: 0 <= i < floor && i < |locals| ==> locals'[i] == locals[i]
    ensures forall k :: 0 <= k < |calls| - 1 ==> LinkSame(plans, mu', calls[k], gcalls[k], calls[k + 1], locals')
  {
    forall k | 0 <= k < |calls| - 1 ensures LinkSame(plans, mu', calls[k], gcalls[k], calls[k + 1], locals') {
      WindowsBelow(plans, mu, calls, gcalls, locals, k);
      assert LinkSame(plans, mu, calls[k], gcalls[k], calls[k + 1], locals);
      FrameKept(mu, mu', plans[calls[k].funcId].kinds, calls[k], gcalls[k], locals, locals');
    }
  }

  lemma FrameKept(mu: Spots, mu': Spots, kinds: seq<Kind>, f: M.Frame, gf: G.Frame, locals: seq<int>, locals': seq<int>)
    requires FrameSame(mu, kinds, f, gf, locals) && Within(mu, mu') && |locals'| >= |locals|
    requires forall i :: f.basePtr <= i < f.basePtr + |kinds| ==> i < |locals| && locals'[i] == locals[i]
    ensures FrameSame(mu', kinds, f, gf, locals')
  {
    forall i | 0 <= i < |kinds| ensures LocalSame(mu', kinds[i], gf.locals[i], gf.init[i], locals'[f.basePtr + i]) {
      assert LocalSame(mu, kinds[i], gf.locals[i], gf.init[i], locals[f.basePtr + i]);
    }
  }

  /** Arrays lie behind the frames: writing a window leaves them alone. */
  lemma ArraysBehind(mu: Spots, heap: G.Heap, locals: seq<int>, locals': seq<int>, globals: seq<int>)
    requires ArraysSame(mu, heap, locals, globals) && |locals'| >= |locals|
    requires forall i :: MAX_LOCAL_SLOTS <= i < |locals| ==> locals'[i] == locals[i]
    ensures ArraysSame(mu, heap, locals', globals)
  {
    forall id | id in mu ensures SpotOk(heap, id, mu[id], locals', globals) {
      assert SpotOk(heap, id, mu[id], locals, globals);
    }
  }

  /** A local is stored on both sides. */
  lemma LocalStored(p: CompiledProgram, plans: Plans, mu: Spots, s: M.State, g: G.State, plan: Plan, instr: Instruction,
                    slot: int, w: int, v: G.Value, ready: set<nat>)
    requires Ready(p, plans, mu, s, g, plan, instr) && 0 <= slot < |plan.kinds| && s.stack != []
    requires LocalSame(mu, plan.kinds[slot], v, true, w) && Leads(plan, s.pc + 1, ready, None)
    requires ready <= plan.shapes[s.pc].ready + {slot as nat}
    requires StackSame(mu, None, s.stack[..|s.stack| - 1], g.stack[..|g.stack| - 1])
    ensures M.CurrentFrame(s).basePtr + slot < |s.locals| && slot < |G.CurrentFrame(g).locals|
    ensures Related(p, plans, mu,
      s.(stack := s.stack[..|s.stack| - 1], locals := s.locals[M.CurrentFrame(s).basePtr + slot := w], pc := s.pc + 1),
      G.WithFrame(g.(stack := g.stack[..|g.stack| - 1]), G.WriteLocal(G.CurrentFrame(g), slot, v)).(pc := s.pc + 1))
  {
    hide GlobalsSame, ArraysSame, ArraysOk, Related;
    Whole(p, plans, mu, s, g);
    SlotHere(p, plans, mu, s, g, plan, instr, slot);
    var f, gf := M.CurrentFrame(s), G.CurrentFrame(g);
    var locals' := s.locals[f.basePtr + slot := w];
    var gf' := G.WriteLocal(gf, slot, v);
    var gcalls := g.calls[|g.calls| - 1 := gf'];
    LinksKept(plans, mu, mu, s.calls, g.calls, s.locals, locals', f.basePtr);
    FrameWritten(mu, plan.kinds, f, gf, s.locals, slot, w, v);
    forall k | 0 <= k < |s.calls| - 1 ensures LinkSame(plans, mu, s.calls[k], gcalls[k], s.calls[k + 1], locals') {
      assert LinkSame(plans, mu, s.calls[k], g.calls[k], s.calls[k + 1], locals');
    }
    ArraysBehind(mu, g.heap, s.locals, locals', s.globals);
    assert locals'[MAX_LOCAL_SLOTS..] == s.locals[MAX_LOCAL_SLOTS..];
    assert ReadyOk(plan.shapes[s.pc + 1].ready, gf');
    Combine(p, plans, mu,
      s.(stack := s.stack[..|s.stack| - 1], locals := locals', pc := s.pc + 1),
      G.WithFrame(g.(stack := g.stack[..|g.stack| - 1]), gf').(pc := s.pc + 1));
  }

  /** The relation, from its parts. */
  lemma Combine(p: CompiledProgram, plans: Plans, mu: Spots, s: M.State, g: G.State)
    requires s.pc == g.pc && s.cycles == g.cycles && s.output == g.output
    requires CallsSame(plans, mu, s.calls, g.calls, s.pc, s.locals)
    requires StackSame(mu, CurrentShape(plans, s.calls, s.pc).pending, s.stack, g.stack)
    requires GlobalsSame(p, mu, s.globals, g.globals) && ArraysSame(mu, g.heap, s.locals, s.globals)
    requires |s.locals| >= MAX_LOCAL_SLOTS && Defined(s.stack) && Defined(s.globals) && Defined(s.locals[MAX_LOCAL_SLOTS..])
    ensures Related(p, plans, mu, s, g)
  {
  }

  lemma FrameWritten(mu: Spots, kinds: seq<Kind>, f: M.Frame, gf: G.Frame, locals: seq<int>, slot: nat, w: int, v: G.Value)
    requires FrameSame(mu, kinds, f, gf, locals) && slot < |kinds| && LocalSame(mu, kinds[slot], v, true, w)
    ensures FrameSame(mu, kinds, f, G.WriteLocal(gf, slot, v), locals[f.basePtr + slot := w])
  {
    var gf', locals' := G.WriteLocal(gf, slot, v), locals[f.basePtr + slot := w];
    forall i | 0 <= i < |kinds| ensures LocalSame(mu, kinds[i], gf'.locals[i], gf'.init[i], locals'[f.basePtr + i]) {
      assert LocalSame(mu, kinds[i], gf.locals[i], gf.init[i], locals[f.basePtr + i]);
    }
  }

  lemma StoreLocalRuns(p: CompiledProgram, s: M.State, g: G.State, instr: Instruction, at: nat)
    requires instr.opcode == StoreLocal && instr.arg1 >= 0 && |g.stack| == |s.stack| && g.calls != []
    requires M.LocalSlot(p, s, instr.arg1) == M.At(at) && at < |s.locals| && G.LocalSlot(g, instr.arg1) == M.At(instr.arg1)
    ensures s.stack == [] ==> M.Exec(p, instr, s) == M.Trapped(StackUnderflow, 0) && G.Exec(p, instr, g) == G.Trapped(StackUnderflow, 0)
    ensures s.stack != [] ==> var last := |s.stack| - 1;
      && M.Exec(p, instr, s) == M.Advance(s.(stack := s.stack[..last], locals := s.locals[at := s.stack[last]]))
      && G.Exec(p, instr, g) == G.Advance(G.WithFrame(g.(stack := g.stack[..last]), G.WriteLocal(G.CurrentFrame(g), instr.arg1, g.stack[last])))
  {
  }

  lemma StoreLocalPaired(p: CompiledProgram, plans: Plans, mu: Spots, s: M.State, g: G.State, plan: Plan, instr: Instruction)
    requires Ready(p, plans, mu, s, g, plan, instr) && instr.opcode == StoreLocal
    requires Leads(plan, s.pc + 1, NextReady(plan.shapes[s.pc], instr), None)
    ensures Paired(p, plans, mu, M.Exec(p, instr, s), G.Exec(p, instr, g))
  {
    hide CallsSame, GlobalsSame, ArraysSame, Related, FrameSame, FrameAt, M.Exec, G.Exec, M.LocalSlot, G.LocalSlot, G.WriteLocal;
    SlotHere(p, plans, mu, s, g, plan, instr, instr.arg1);
    Whole(p, plans, mu, s, g);
    StoreLocalRuns(p, s, g, instr, M.CurrentFrame(s).basePtr + instr.arg1);
    if s.stack != [] {
      var last := |s.stack| - 1;
      assert StackSame(mu, None, s.stack[..last], g.stack[..last]);
      LocalStored(p, plans, mu, s, g, plan, instr, instr.arg1, s.stack[last], g.stack[last], NextReady(plan.shapes[s.pc], instr));
    }
  }

  // ---------------------------------------------------------------- globals

  lemma LoadGlobalRuns(p: CompiledProgram, s: M.State, g: G.State, instr: Instruction)
    requires instr.opcode == LoadGlobal && 0 <= instr.arg1 < |s.globals| == |g.globals| && g.globals[instr.arg1] == G.Int(s.globals[instr.arg1])
    ensures M.Exec(p, instr, s) == M.Push(M.Drop(s, 0), s.globals[instr.arg1])
    ensures G.Exec(p, instr, g) == G.Push(G.Drop(g, 0), G.Int(s.globals[instr.arg1]))
  {
    assert M.Drop(s, 0) == s && G.Drop(g, 0) == g;
  }

  lemma LoadGlobalPaired(p: CompiledProgram, plans: Plans, mu: Spots, s: M.State, g: G.State, plan: Plan, instr: Instruction)
    requires Ready(p, plans, mu, s, g, plan, instr) && instr.opcode == LoadGlobal && 0 <= instr.arg1 < MAX_GLOBAL_SLOTS
    requires Leads(plan, s.pc + 1, plan.shapes[s.pc].ready, None)
    ensures Paired(p, plans, mu, M.Exec(p, instr, s), G.Exec(p, instr, g))
  {
    hide CallsSame, ArraysSame, Related, PlainGlobal, Leads, M.Exec, G.Exec, M.Push, G.Push, M.Drop, G.Drop;
    Whole(p, plans, mu, s, g);
    LoadGlobalRuns(p, s, g, instr);
    Pushed(p, plans, mu, s, g, plan, instr, 0, s.globals[instr.arg1]);
  }

  /** A slot outside the global arrays is stored on both sides. */
  lemma GlobalStored(p: CompiledProgram, mu: Spots, heap: G.Heap, locals: seq<int>, globals: seq<int>, gglobals: seq<G.Value>, slot: nat, w: int)
    requires GlobalsSame(p, mu, globals, gglobals) && ArraysSame(mu, heap, locals, globals)
    requires slot < MAX_GLOBAL_SLOTS && PlainGlobal(p, slot)
    ensures GlobalsSame(p, mu, globals[slot := w], gglobals[slot := G.Int(w)]) && ArraysSame(mu, heap, locals, globals[slot := w])
  {
    var globals', gglobals' := globals[slot := w], gglobals[slot := G.Int(w)];
    forall x | x in p.globals && p.globals[x].isArray ensures GlobalArraySame(mu, p.globals[x], gglobals') {
      assert GlobalArraySame(mu, p.globals[x], gglobals);
    }
    forall id | id in mu ensures SpotOk(heap, id, mu[id], locals, globals') {
      assert SpotOk(heap, id, mu[id], locals, globals);
      if mu[id].GlobalAt? {
        assert Declared(p, mu[id]);
      }
    }
  }

  /** Global arrays stand where the program declares them. */
  ghost predicate Declared(p: CompiledProgram, spot: Spot) {
    spot.GlobalAt? ==> exists x <- p.globals :: p.globals[x].isArray && p.globals[x].slot == spot.slot && p.globals[x].arraySize == spot.size
  }

  ghost predicate GlobalsDeclared(p: CompiledProgram, mu: Spots) {
    forall id <- mu :: Declared(p, mu[id])
  }

  lemma StoreGlobalRuns(p: CompiledProgram, s: M.State, g: G.State, instr: Instruction)
    requires instr.opcode == StoreGlobal && 0 <= instr.arg1 < MAX_GLOBAL_SLOTS && |s.globals| == |g.globals| == MAX_GLOBAL_SLOTS
    requires |g.stack| == |s.stack|
    ensures s.stack == [] ==> M.Exec(p, instr, s) == M.Trapped(StackUnderflow, 0) && G.Exec(p, instr, g) == G.Trapped(StackUnderflow, 0)
    ensures s.stack != [] ==> var last := |s.stack| - 1;
      && M.Exec(p, instr, s) == M.Advance(s.(stack := s.stack[..last], globals := s.globals[instr.arg1 := s.stack[last]]))
      && G.Exec(p, instr, g) == G.Advance(g.(stack := g.stack[..last], globals := g.globals[instr.arg1 := g.stack[last]]))
  {
  }

  lemma StoreGlobalPaired(p: CompiledProgram, plans: Plans, mu: Spots, s: M.State, g: G.State, plan: Plan, instr: Instruction)
    requires Ready(p, plans, mu, s, g, plan, instr) && instr.opcode == StoreGlobal && 0 <= instr.arg1 < MAX_GLOBAL_SLOTS
    requires Leads(plan, s.pc + 1, plan.shapes[s.pc].ready, None)
    ensures Paired(p, plans, mu, M.Exec(p, instr, s), G.Exec(p, instr, g))
  {
    hide ArraysSame, Related, FrameSame, PlainGlobal, GlobalsDeclared, M.Exec, G.Exec, LinkSame;
    Whole(p, plans, mu, s, g);
    StoreGlobalRuns(p, s, g, instr);
    if s.stack != [] {
      var last := |s.stack| - 1;
      GlobalStored(p, mu, g.heap, s.locals, s.globals, g.globals, instr.arg1, s.stack[last]);
      var s', g' := s.(stack := s.stack[..last], globals := s.globals[instr.arg1 := s.stack[last]], pc := s.pc + 1),
                    g.(stack := g.stack[..last], globals := g.globals[instr.arg1 := g.stack[last]], pc := s.pc + 1);
      Combine(p, plans, mu, s', g');
    }
  }

  // ---------------------------------------------------------------- elements of global arrays

  /** A declared global array, seen from both sides. */
  lemma ArrayHere(p: CompiledProgram, mu: Spots, s: M.State, g: G.State, slot: int, size: int)
    requires GlobalsSame(p, mu, s.globals, g.globals) && ArraysSame(mu, g.heap, s.locals, s.globals) && DeclaredArray(p, slot, size)
    ensures 0 <= slot && 0 <= size && slot + size <= MAX_GLOBAL_SLOTS && slot < |g.globals| && g.globals[slot].ArrayRef?
    ensures var id := g.globals[slot].id;
      id in mu && mu[id] == GlobalAt(slot, size) && H.Alive(g.heap, id) && g.heap[id].value == s.globals[slot..slot + size]
  {
    var x :| x in p.globals && p.globals[x].isArray && p.globals[x].slot == slot && p.globals[x].arraySize == size;
    assert GlobalArraySame(mu, p.globals[x], g.globals);
    var id := g.globals[slot].id;
    assert SpotOk(g.heap, id, mu[id], s.locals, s.globals);
  }

  lemma ArrayLoadRuns(p: CompiledProgram, s: M.State, g: G.State, instr: Instruction, id: nat)
    requires instr.opcode == ArrayLoad && 0 <= instr.arg1 && 0 <= instr.arg2 && instr.arg1 + instr.arg2 <= MAX_GLOBAL_SLOTS && instr.arg1 < MAX_GLOBAL_SLOTS
    requires |s.globals| == |g.globals| == MAX_GLOBAL_SLOTS && g.globals[instr.arg1] == G.ArrayRef(id) && H.Alive(g.heap, id)
    requires g.heap[id].value == s.globals[instr.arg1..instr.arg1 + instr.arg2]
    requires StackSame(map[], None, s.stack, g.stack)
    ensures s.stack == [] ==> M.Exec(p, instr, s) == M.Trapped(StackUnderflow, 0) && G.Exec(p, instr, g) == G.Trapped(StackUnderflow, 0)
    ensures s.stack != [] ==>
      var last := |s.stack| - 1; var index := s.stack[last];
      if index < 0 || index >= instr.arg2 then
        M.Exec(p, instr, s) == M.Trapped(ArrayOutOfBounds, last) && G.Exec(p, instr, g) == G.Trapped(ArrayOutOfBounds, last)
      else
        && M.Exec(p, instr, s) == M.Push(M.Drop(s, 1), s.globals[instr.arg1 + index])
        && G.Exec(p, instr, g) == G.Push(G.Drop(g, 1), G.Int(s.globals[instr.arg1 + index]))
  {
  }

  lemma ArrayLoadPaired(p: CompiledProgram, plans: Plans, mu: Spots, s: M.State, g: G.State, plan: Plan, instr: Instruction)
    requires Ready(p, plans, mu, s, g, plan, instr) && instr.opcode == ArrayLoad && 0 <= instr.arg1 < MAX_GLOBAL_SLOTS
    requires Leads(plan, s.pc + 1, plan.shapes[s.pc].ready, None)
    ensures Paired(p, plans, mu, M.Exec(p, instr, s), G.Exec(p, instr, g))
  {
    hide CallsSame, ArraysSame, Related, PlainGlobal, M.Exec, G.Exec, DeclaredArray, Leads, M.Push, G.Push, M.Drop, G.Drop;
    Whole(p, plans, mu, s, g);
    ArrayHere(p, mu, s, g, instr.arg1, instr.arg2);
    ArrayLoadRuns(p, s, g, instr, g.globals[instr.arg1].id);
    if s.stack != [] && 0 <= s.stack[|s.stack| - 1] < instr.arg2 {
      Pushed(p, plans, mu, s, g, plan, instr, 1, s.globals[instr.arg1 + s.stack[|s.stack| - 1]]);
    }
  }

  lemma ArrayStoreRuns(p: CompiledProgram, s: M.State, g: G.State, instr: Instruction, id: nat)
    requires instr.opcode == ArrayStore && 0 <= instr.arg1 && 0 <= instr.arg2 && instr.arg1 + instr.arg2 <= MAX_GLOBAL_SLOTS && instr.arg1 < MAX_GLOBAL_SLOTS
    requires |s.globals| == |g.globals| == MAX_GLOBAL_SLOTS && g.globals[instr.arg1] == G.ArrayRef(id) && H.Alive(g.heap, id)
    requires |g.heap[id].value| == instr.arg2
    requires StackSame(map[], None, s.stack, g.stack)
    ensures |s.stack| < 2 ==> M.Exec(p, instr, s) == M.Trapped(StackUnderflow, 0) && G.Exec(p, instr, g) == G.Trapped(StackUnderflow, 0)
    ensures |s.stack| >= 2 ==>
      var low := |s.stack| - 2; var index, v := s.stack[low], s.stack[low + 1];
      if index < 0 || index >= instr.arg2 then
        M.Exec(p, instr, s) == M.Trapped(ArrayOutOfBounds, low) && G.Exec(p, instr, g) == G.Trapped(ArrayOutOfBounds, low)
      else
        && M.Exec(p, instr, s) == M.Advance(s.(stack := s.stack[..low], globals := s.globals[instr.arg1 + index := v]))
        && G.Exec(p, instr, g) == G.Advance(g.(stack := g.stack[..low], heap := g.heap[id := Some(g.heap[id].value[index := v])]))
  {
  }

  /** An element of a global array is stored on both sides. */
  lemma GlobalElementStored(mu: Spots, heap: G.Heap, locals: seq<int>, globals: seq<int>, id: nat, slot: nat, size: nat, index: nat, v: int)
    requires ArraysSame(mu, heap, locals, globals)
    requires id in mu && mu[id] == GlobalAt(slot, size) && index < size && H.Alive(heap, id)
    requires heap[id].value == globals[slot..slot + size] && slot + size <= |globals|
    ensures ArraysSame(mu, heap[id := Some(heap[id].value[index := v])], locals, globals[slot + index := v])
  {
    var globals', heap' := globals[slot + index := v], heap[id := Some(heap[id].value[index := v])];
    forall other | other in mu ensures SpotOk(heap', other, mu[other], locals, globals') {
      assert SpotOk(heap, other, mu[other], locals, globals);
      if other == id {
        assert heap[id].value[index := v] == globals'[slot..slot + size];
      } else {
        assert Apart(mu[id], mu[other]);
      }
    }
  }

  /** A cell inside an array is no global of its own. */
  lemma GlobalCellStored(p: CompiledProgram, mu: Spots, globals: seq<int>, gglobals: seq<G.Value>, id: nat, slot: nat, size: nat, index: nat, v: int)
    requires GlobalsSame(p, mu, globals, gglobals) && id in mu && mu[id] == GlobalAt(slot, size) && index < size && slot + size <= |globals|
    ensures GlobalsSame(p, mu, globals[slot + index := v], gglobals)
  {
    hide GlobalArraySame;
    assert Declared(p, mu[id]);
    assert !PlainGlobal(p, slot + index);
  }

  lemma ArrayStorePaired(p: CompiledProgram, plans: Plans, mu: Spots, s: M.State, g: G.State, plan: Plan, instr: Instruction)
    requires Ready(p, plans, mu, s, g, plan, instr) && instr.opcode == ArrayStore && 0 <= instr.arg1 < MAX_GLOBAL_SLOTS
    requires Leads(plan, s.pc + 1, plan.shapes[s.pc].ready, None)
    ensures Paired(p, plans, mu, M.Exec(p, instr, s), G.Exec(p, instr, g))
  {
    hide ArraysSame, Related, FrameSame, PlainGlobal, M.Exec, G.Exec, DeclaredArray, GlobalsDeclared, LinkSame;
    Whole(p, plans, mu, s, g);
    ArrayHere(p, mu, s, g, instr.arg1, instr.arg2);
    var id := g.globals[instr.arg1].id;
    ArrayStoreRuns(p, s, g, instr, id);
    if |s.stack| >= 2 && 0 <= s.stack[|s.stack| - 2] < instr.arg2 {
      var low := |s.stack| - 2;
      var index, v := s.stack[low], s.stack[low + 1];
      GlobalElementStored(mu, g.heap, s.locals, s.globals, id, instr.arg1, instr.arg2, index, v);
      GlobalCellStored(p, mu, s.globals, g.globals, id, instr.arg1, instr.arg2, index, v);
      Combine(p, plans, mu,
        s.(stack := s.stack[..low], globals := s.globals[instr.arg1 + index := v], pc := s.pc + 1),
        g.(stack := g.stack[..low], heap := g.heap[id := Some(g.heap[id].value[index := v])], pc := s.pc + 1));
    }
  }

  // ---------------------------------------------------------------- elements of local arrays

  /** A ready array slot of the current frame, seen from both sides. */
  lemma LocalArrayHere(p: CompiledProgram, plans: Plans, mu: Spots, s: M.State, g: G.State, plan: Plan, instr: Instruction)
    requires Ready(p, plans, mu, s, g, plan, instr) && (instr.opcode == LocalArrayLoad || instr.opcode == LocalArrayStore)
    ensures 0 <= instr.arg1 < |plan.kinds| && instr.arg2 >= 0 && plan.shapes[s.pc].pending == None
    ensures var at := M.CurrentFrame(s).basePtr + instr.arg1;
      && M.LocalSlot(p, s, instr.arg1) == M.At(at) && G.LocalSlot(g, instr.arg1) == M.At(instr.arg1) && at < |s.locals|
      && var v := G.ReadLocal(G.CurrentFrame(g), instr.arg1);
         && v.Some? && v.value.ArrayRef? && v.value.id in mu && s.locals[at] >= 0 && mu[v.value.id] == LocalAt(s.locals[at], instr.arg2)
         && H.Alive(g.heap, v.value.id) && MAX_LOCAL_SLOTS <= s.locals[at] && s.locals[at] + instr.arg2 <= |s.locals|
         && g.heap[v.value.id].value == s.locals[s.locals[at]..s.locals[at] + instr.arg2]
  {
    hide Related, FrameSame, GlobalsSame, StackSame, CallsSame, ArraysSame, M.LocalSlot, G.LocalSlot;
    Whole(p, plans, mu, s, g);
    SlotHere(p, plans, mu, s, g, plan, instr, instr.arg1);
    RefHere(mu, g.heap, s.locals, s.globals, G.CurrentFrame(g).locals[instr.arg1], s.locals[M.CurrentFrame(s).basePtr + instr.arg1], instr.arg2);
  }

  /** A reference and the base it stands for lead to equal arrays. */
  lemma RefHere(mu: Spots, heap: G.Heap, locals: seq<int>, globals: seq<int>, v: G.Value, w: int, size: nat)
    requires ArraysSame(mu, heap, locals, globals) && RefSame(mu, v, w, size)
    ensures v.ArrayRef? && w >= MAX_LOCAL_SLOTS && w + size <= |locals| && v.id in mu && mu[v.id] == LocalAt(w, size)
    ensures H.Alive(heap, v.id) && heap[v.id].value == locals[w..w + size]
  {
    assert SpotOk(heap, v.id, mu[v.id], locals, globals);
  }

  lemma LocalArrayLoadRuns(p: CompiledProgram, s: M.State, g: G.State, instr: Instruction, at: nat, id: nat)
    requires instr.opcode == LocalArrayLoad && instr.arg2 >= 0 && instr.arg1 >= 0 && g.calls != []
    requires M.LocalSlot(p, s, instr.arg1) == M.At(at) && G.LocalSlot(g, instr.arg1) == M.At(instr.arg1) && at < |s.locals|
    requires G.ReadLocal(G.CurrentFrame(g), instr.arg1) == Some(G.ArrayRef(id)) && H.Alive(g.heap, id)
    requires 0 <= s.locals[at] && s.locals[at] + instr.arg2 <= |s.locals|
    requires g.heap[id].value == s.locals[s.locals[at]..s.locals[at] + instr.arg2]
    requires StackSame(map[], None, s.stack, g.stack)
    ensures s.stack == [] ==> M.Exec(p, instr, s) == M.Trapped(StackUnderflow, 0) && G.Exec(p, instr, g) == G.Trapped(StackUnderflow, 0)
    ensures s.stack != [] ==>
      var last := |s.stack| - 1; var index := s.stack[last];
      if index < 0 || index >= instr.arg2 then
        M.Exec(p, instr, s) == M.Trapped(ArrayOutOfBounds, last) && G.Exec(p, instr, g) == G.Trapped(ArrayOutOfBounds, last)
      else
        && M.Exec(p, instr, s) == M.Push(M.Drop(s, 1), s.locals[s.locals[at] + index])
        && G.Exec(p, instr, g) == G.Push(G.Drop(g, 1), G.Int(s.locals[s.locals[at] + index]))
  {
    hide M.LocalSlot, G.LocalSlot, G.ReadLocal;
  }

  lemma LocalArrayLoadPaired(p: CompiledProgram, plans: Plans, mu: Spots, s: M.State, g: G.State, plan: Plan, instr: Instruction)
    requires Ready(p, plans, mu, s, g, plan, instr) && instr.opcode == LocalArrayLoad
    requires Leads(plan, s.pc + 1, plan.shapes[s.pc].ready, None)
    ensures Paired(p, plans, mu, M.Exec(p, instr, s), G.Exec(p, instr, g))
  {
    hide CallsSame, ArraysSame, Related, M.Exec, G.Exec, M.LocalSlot, G.LocalSlot, G.ReadLocal, GlobalsSame, Leads, M.Push, G.Push, M.Drop, G.Drop;
    Whole(p, plans, mu, s, g);
    LocalArrayHere(p, plans, mu, s, g, plan, instr);
    var at := M.CurrentFrame(s).basePtr + instr.arg1;
    LocalArrayLoadRuns(p, s, g, instr, at, G.ReadLocal(G.CurrentFrame(g), instr.arg1).value.id);
    if s.stack != [] && 0 <= s.stack[|s.stack| - 1] < instr.arg2 {
      var v := s.locals[s.locals[at] + s.stack[|s.stack| - 1]];
      assert v == s.locals[MAX_LOCAL_SLOTS..][s.locals[at] + s.stack[|s.stack| - 1] - MAX_LOCAL_SLOTS];
      Pushed(p, plans, mu, s, g, plan, instr, 1, v);
    }
  }

  lemma LocalArrayStoreRuns(p: CompiledProgram, s: M.State, g: G.State, instr: Instruction, at: nat, id: nat)
    requires instr.opcode == LocalArrayStore && instr.arg2 >= 0 && instr.arg1 >= 0 && g.calls != []
    requires M.LocalSlot(p, s, instr.arg1) == M.At(at) && G.LocalSlot(g, instr.arg1) == M.At(instr.arg1) && at < |s.locals|
    requires G.ReadLocal(G.CurrentFrame(g), instr.arg1) == Some(G.ArrayRef(id)) && H.Alive(g.heap, id)
    requires 0 <= s.locals[at] && s.locals[at] + instr.arg2 <= |s.locals| && |g.heap[id].value| == instr.arg2
    requires StackSame(map[], None, s.stack, g.stack)
    ensures |s.stack| < 2 ==> M.Exec(p, instr, s) == M.Trapped(StackUnderflow, 0) && G.Exec(p, instr, g) == G.Trapped(StackUnderflow, 0)
    ensures |s.stack| >= 2 ==>
      var low := |s.stack| - 2; var index, v := s.stack[low], s.stack[low + 1];
      if index < 0 || index >= instr.arg2 then
        M.Exec(p, instr, s) == M.Trapped(ArrayOutOfBounds, low) && G.Exec(p, instr, g) == G.Trapped(ArrayOutOfBounds, low)
      else
        && M.Exec(p, instr, s) == M.Advance(s.(stack := s.stack[..low], locals := s.locals[s.locals[at] + index := v]))
        && G.Exec(p, instr, g) == G.Advance(g.(stack := g.stack[..low], heap := g.heap[id := Some(g.heap[id].value[index := v])]))
  {
    hide M.LocalSlot, G.LocalSlot, G.ReadLocal;
  }

  /** An element of a local array is stored on both sides: no frame and no other array notices. */
  lemma LocalElementStored(mu: Spots, heap: G.Heap, locals: seq<int>, globals: seq<int>, id: nat, base: nat, size: nat, index: nat, v: int)
    requires ArraysSame(mu, heap, locals, globals)
    requires id in mu && mu[id] == LocalAt(base, size) && index < size && H.Alive(heap, id)
    requires MAX_LOCAL_SLOTS <= base && base + size <= |locals| && heap[id].value == locals[base..base + size]
    ensures ArraysSame(mu, heap[id := Some(heap[id].value[index := v])], locals[base + index := v], globals)
  {
    var locals', heap' := locals[base + index := v], heap[id := Some(heap[id].value[index := v])];
    forall other | other in mu ensures SpotOk(heap', other, mu[other], locals', globals) {
      assert SpotOk(heap, other, mu[other], locals, globals);
      if other == id {
        assert heap[id].value[index := v] == locals'[base..base + size];
      } else {
        assert Apart(mu[id], mu[other]);
      }
    }
  }

  /** Nothing in the frames changed. */
  lemma FramesKept(plans: Plans, mu: Spots, calls: seq<M.Frame>, gcalls: seq<G.Frame>, pc: nat, pc': nat, locals: seq<int>, locals': seq<int>, plan: Plan)
    requires CallsSame(plans, mu, calls, gcalls, pc, locals) && |locals'| >= |locals|
    requires forall i :: 0 <= i < MAX_LOCAL_SLOTS && i < |locals| ==> locals'[i] == locals[i]
    requires plans[calls[|calls| - 1].funcId] == plan && pc' in plan.shapes && plan.shapes[pc'].ready <= plan.shapes[pc].ready
    ensures CallsSame(plans, mu, calls, gcalls, pc', locals')
  {
    hide LinkSame, FrameSame;
    var last := |calls| - 1;
    FrameBounds(mu, plan.kinds, calls[last], gcalls[last], locals);
    LinksKept(plans, mu, mu, calls, gcalls, locals, locals', calls[last].basePtr);
    FrameKept(mu, mu, plan.kinds, calls[last], gcalls[last], locals, locals');
  }

  lemma FrameBounds(mu: Spots, kinds: seq<Kind>, f: M.Frame, gf: G.Frame, locals: seq<int>)
    requires FrameSame(mu, kinds, f, gf, locals)
    ensures f.basePtr + |kinds| <= MAX_LOCAL_SLOTS <= |locals|
  {
  }

  lemma LocalArrayStorePaired(p: CompiledProgram, plans: Plans, mu: Spots, s: M.State, g: G.State, plan: Plan, instr: Instruction)
    requires Ready(p, plans, mu, s, g, plan, instr) && instr.opcode == LocalArrayStore
    requires Leads(plan, s.pc + 1, plan.shapes[s.pc].ready, None)
    ensures Paired(p, plans, mu, M.Exec(p, instr, s), G.Exec(p, instr, g))
  {
    hide CallsSame, ArraysSame, Related, FrameSame, M.Exec, G.Exec, M.LocalSlot, G.LocalSlot, G.ReadLocal, GlobalsSame;
    Whole(p, plans, mu, s, g);
    LocalArrayHere(p, plans, mu, s, g, plan, instr);
    var at := M.CurrentFrame(s).basePtr + instr.arg1;
    var id := G.ReadLocal(G.CurrentFrame(g), instr.arg1).value.id;
    LocalArrayStoreRuns(p, s, g, instr, at, id);
    if |s.stack| >= 2 && 0 <= s.stack[|s.stack| - 2] < instr.arg2 {
      var low := |s.stack| - 2;
      var index, v := s.stack[low], s.stack[low + 1];
      var locals' := s.locals[s.locals[at] + index := v];
      LocalElementStored(mu, g.heap, s.locals, s.globals, id, s.locals[at], instr.arg2, index, v);
      FramesKept(plans, mu, s.calls, g.calls, s.pc, s.pc + 1, s.locals, locals', plan);
      assert Defined(locals'[MAX_LOCAL_SLOTS..]) by {
        assert locals'[MAX_LOCAL_SLOTS..] == s.locals[MAX_LOCAL_SLOTS..][s.locals[at] + index - MAX_LOCAL_SLOTS := v];
      }
      Combine(p, plans, mu,
        s.(stack := s.stack[..low], locals := locals', pc := s.pc + 1),
        g.(stack := g.stack[..low], heap := g.heap[id := Some(g.heap[id].value[index := v])], pc := s.pc + 1));
    }
  }

  // ---------------------------------------------------------------- allocation

  function Restrict(mu: Spots, live: set<nat>): Spots {
    map id | id in mu && id in live :: mu[id]
  }

  /** The relation only speaks of referenced arrays: the others may be forgotten. */
  lemma Forget(p: CompiledProgram, plans: Plans, mu: Spots, s: M.State, g: G.State)
    requires Related(p, plans, mu, s, g) && CurrentShape(plans, s.calls, s.pc).pending == None
    ensures Related(p, plans, Restrict(mu, G.Roots(g)), s, g)
  {
    hide G.Roots, FrameSame, GlobalsSame, ArraysSame, Related, ReadyOk;
    var mu' := Restrict(mu, G.Roots(g));
    Whole(p, plans, mu, s, g);
    ForgetArrays(mu, G.Roots(g), g.heap, s.locals, s.globals);
    ForgetGlobals(p, mu, G.Roots(g), s.globals, g);
    forall k | 0 <= k < |s.calls| ensures s.calls[k].funcId in plans && FrameSame(mu', plans[s.calls[k].funcId].kinds, s.calls[k], g.calls[k], s.locals) {
      if k < |s.calls| - 1 {
        assert LinkSame(plans, mu, s.calls[k], g.calls[k], s.calls[k + 1], s.locals);
      }
      ForgetFrame(mu, g, plans[s.calls[k].funcId].kinds, s.calls[k], k, s.locals);
    }
    forall k | 0 <= k < |s.calls| - 1 ensures LinkSame(plans, mu', s.calls[k], g.calls[k], s.calls[k + 1], s.locals) {
      assert LinkSame(plans, mu, s.calls[k], g.calls[k], s.calls[k + 1], s.locals);
    }
    Combine(p, plans, mu', s, g);
  }

  lemma ForgetArrays(mu: Spots, live: set<nat>, heap: G.Heap, locals: seq<int>, globals: seq<int>)
    requires ArraysSame(mu, heap, locals, globals)
    ensures ArraysSame(Restrict(mu, live), heap, locals, globals)
  {
    hide SpotOk;
  }

  lemma ForgetGlobals(p: CompiledProgram, mu: Spots, live: set<nat>, globals: seq<int>, g: G.State)
    requires GlobalsSame(p, mu, globals, g.globals) && G.Roots(g) <= live
    ensures GlobalsSame(p, Restrict(mu, live), globals, g.globals)
  {
    hide PlainGlobal, G.FrameRefs;
    forall x | x in p.globals && p.globals[x].isArray ensures GlobalArraySame(Restrict(mu, live), p.globals[x], g.globals) {
      assert GlobalArraySame(mu, p.globals[x], g.globals);
      assert g.globals[p.globals[x].slot] in g.globals;
    }
  }

  lemma ForgetFrame(mu: Spots, g: G.State, kinds: seq<Kind>, f: M.Frame, k: nat, locals: seq<int>)
    requires k < |g.calls| && FrameSame(mu, kinds, f, g.calls[k], locals)
    ensures FrameSame(Restrict(mu, G.Roots(g)), kinds, f, g.calls[k], locals)
  {
    hide G.Roots;
    var gf, mu' := g.calls[k], Restrict(mu, G.Roots(g));
    forall i | 0 <= i < |kinds| ensures LocalSame(mu', kinds[i], gf.locals[i], gf.init[i], locals[f.basePtr + i]) {
      assert LocalSame(mu, kinds[i], gf.locals[i], gf.init[i], locals[f.basePtr + i]);
      if gf.init[i] && gf.locals[i].ArrayRef? {
        LocalIsRoot(g, k, i);
      }
    }
  }

  lemma LocalIsRoot(g: G.State, k: nat, i: nat)
    requires k < |g.calls| && G.FrameOk(g.calls[k]) && i < |g.calls[k].locals| && g.calls[k].init[i] && g.calls[k].locals[i].ArrayRef?
    ensures g.calls[k].locals[i].id in G.Roots(g)
  {
    assert g.calls[k] in g.calls;
    assert G.Initialized(g.calls[k])[i] == g.calls[k].locals[i];
    assert g.calls[k].locals[i].id in G.LocalRefs(g.calls[k]);
  }

  /** A new array, behind everything on one side and under a fresh id on the other. */
  lemma Remember(p: CompiledProgram, plans: Plans, mu: Spots, s: M.State, g: G.State, plan: Plan, id: nat, size: nat, g1: G.State)
    requires Related(p, plans, mu, s, g) && plans[Current(s)] == plan && s.calls != [] && id !in mu && Current(s) in plans
    requires g1.calls == g.calls && g1.globals == g.globals && g1.stack == g.stack && g1.output == g.output && g1.pc == g.pc && g1.cycles == g.cycles
    requires id < |g1.heap| && g1.heap[id] == Some(G.Zeros(size))
    requires forall other <- mu :: other < |g1.heap| && g1.heap[other] == g.heap[other]
    requires s.pc in plan.shapes && plan.shapes[s.pc].pending == None && Leads(plan, s.pc + 1, plan.shapes[s.pc].ready, Some(size))
    ensures var base := |s.locals|;
      Related(p, plans, mu[id := LocalAt(base, size)],
        s.(locals := s.locals + seq(size, _ => 0), stack := s.stack + [base], pc := s.pc + 1),
        g1.(stack := g.stack + [G.ArrayRef(id)], pc := s.pc + 1))
  {
    hide FrameSame, GlobalsSame, ArraysSame, Related, ReadyOk;
    Whole(p, plans, mu, s, g);
    var base := |s.locals|;
    var mu', locals' := mu[id := LocalAt(base, size)], s.locals + seq(size, _ => 0);
    RememberArrays(mu, g.heap, g1.heap, s.locals, s.globals, id, size);
    RememberGlobals(p, mu, mu', s.globals, g.globals, id);
    var last := |s.calls| - 1;
    FrameBounds(mu, plan.kinds, s.calls[last], g.calls[last], s.locals);
    LinksKept(plans, mu, mu', s.calls, g.calls, s.locals, locals', s.calls[last].basePtr);
    FrameKept(mu, mu', plan.kinds, s.calls[last], g.calls[last], s.locals, locals');
    assert ReadyOk(plan.shapes[s.pc + 1].ready, g.calls[last]) by {
      LessReady(plan.shapes[s.pc].ready, plan.shapes[s.pc + 1].ready, g.calls[last]);
    }
    assert Defined(locals'[MAX_LOCAL_SLOTS..]) by {
      assert locals'[MAX_LOCAL_SLOTS..] == s.locals[MAX_LOCAL_SLOTS..] + seq(size, _ => 0);
    }
    Combine(p, plans, mu',
      s.(locals := locals', stack := s.stack + [base], pc := s.pc + 1), g1.(stack := g.stack + [G.ArrayRef(id)], pc := s.pc + 1));
  }

  lemma LessReady(more: set<nat>, less: set<nat>, gf: G.Frame)
    requires ReadyOk(more, gf) && less <= more
    ensures ReadyOk(less, gf)
  {
  }

  lemma RememberArrays(mu: Spots, heap: G.Heap, heap': G.Heap, locals: seq<int>, globals: seq<int>, id: nat, size: nat)
    requires ArraysSame(mu, heap, locals, globals) && id !in mu && |locals| >= MAX_LOCAL_SLOTS
    requires id < |heap'| && heap'[id] == Some(G.Zeros(size))
    requires forall other <- mu :: other < |heap'| && heap'[other] == heap[other]
    ensures ArraysSame(mu[id := LocalAt(|locals|, size)], heap', locals + seq(size, _ => 0), globals)
  {
    var mu', locals' := mu[id := LocalAt(|locals|, size)], locals + seq(size, _ => 0);
    forall other | other in mu' ensures SpotOk(heap', other, mu'[other], locals', globals) {
      if other == id {
        assert locals'[|locals|..|locals| + size] == G.Zeros(size);
      } else {
        assert SpotOk(heap, other, mu[other], locals, globals);
        if mu[other].LocalAt? {
          assert locals'[mu[other].base..mu[other].base + mu[other].size] == locals[mu[other].base..mu[other].base + mu[other].size];
        }
      }
    }
    forall i, j | i in mu' && j in mu' && i != j ensures Apart(mu'[i], mu'[j]) {
      if i != id { assert SpotOk(heap, i, mu[i], locals, globals); }
      if j != id { assert SpotOk(heap, j, mu[j], locals, globals); }
    }
  }

  lemma RememberGlobals(p: CompiledProgram, mu: Spots, mu': Spots, globals: seq<int>, gglobals: seq<G.Value>, id: nat)
    requires GlobalsSame(p, mu, globals, gglobals) && Within(mu, mu') && forall other <- mu' :: other in mu || mu'[other].LocalAt?
    ensures GlobalsSame(p, mu', globals, gglobals)
  {
    hide PlainGlobal;
    forall x | x in p.globals && p.globals[x].isArray ensures GlobalArraySame(mu', p.globals[x], gglobals) {
      assert GlobalArraySame(mu, p.globals[x], gglobals);
    }
    forall other | other in mu' ensures Declared(p, mu'[other]) {
      if other in mu {
        assert Declared(p, mu[other]);
      }
    }
  }

  lemma AllocPaired(p: CompiledProgram, plans: Plans, mu: Spots, s: M.State, g: G.State, plan: Plan, instr: Instruction) returns (mu': Spots)
    requires Ready(p, plans, mu, s, g, plan, instr) && (instr.opcode == AllocArray || instr.opcode == ArrayNew) && instr.arg1 >= 0
    requires plan.shapes[s.pc].pending == None && Leads(plan, s.pc + 1, plan.shapes[s.pc].ready, Some(instr.arg1))
    requires CurrentShape(plans, s.calls, s.pc) == plan.shapes[s.pc]
    requires H.HeapOk(g)
    ensures Paired(p, plans, mu', M.Exec(p, instr, s), G.Exec(p, instr, g))
  {
    hide CallsSame, GlobalsSame, ArraysSame, Related, FrameSame, H.HeapOk, G.Roots, G.Alloc, Restrict, M.Exec, G.Exec;
    Whole(p, plans, mu, s, g);
    Forget(p, plans, mu, s, g);
    H.AllocIsFresh(g, instr.arg1);
    var (g1, id) := G.Alloc(g, instr.arg1);
    AllocRuns(p, s, g, instr, g1, id);
    RestrictIn(mu, G.Roots(g), id);
    var mu1 := Restrict(mu, G.Roots(g));
    Remember(p, plans, mu1, s, g, plan, id, instr.arg1, g1);
    mu' := mu1[id := LocalAt(|s.locals|, instr.arg1)];
  }

  lemma RestrictIn(mu: Spots, live: set<nat>, id: nat)
    ensures (id !in live ==> id !in Restrict(mu, live)) && forall other <- Restrict(mu, live) :: other in live
  {
  }

  lemma AllocRuns(p: CompiledProgram, s: M.State, g: G.State, instr: Instruction, g1: G.State, id: nat)
    requires (instr.opcode == AllocArray || instr.opcode == ArrayNew) && instr.arg1 >= 0 && |g.stack| == |s.stack|
    requires G.Alloc(g, instr.arg1) == (g1, id) && g1.stack == g.stack
    ensures if |s.stack| >= MAX_OPERAND_STACK then
        M.Exec(p, instr, s) == M.Trapped(StackOverflow, |s.stack|) && G.Exec(p, instr, g) == G.Trapped(StackOverflow, |s.stack|)
      else
        && M.Exec(p, instr, s) == M.Advance(s.(locals := s.locals + seq(instr.arg1, _ => 0), stack := s.stack + [|s.locals|]))
        && G.Exec(p, instr, g) == G.Advance(g1.(stack := g.stack + [G.ArrayRef(id)]))
  {
    hide G.Alloc;
  }

  // ---------------------------------------------------------------- calls and returns

  /** The reference machine's frames share 1024 slots; the next frame does not fit any more. */
  predicate StorageFull(p: CompiledProgram, s: M.State) {
    && s.pc < |p.instructions| && s.calls != []
    && var instr := p.instructions[s.pc];
    && instr.opcode == Opcode.Call && instr.arg1 in p.functions && |s.calls| < MAX_FRAMES
    && M.NextBase(p, s) + p.functions[instr.arg1].localCount > MAX_LOCAL_SLOTS
  }

  lemma CallRuns(p: CompiledProgram, s: M.State, g: G.State, instr: Instruction)
    requires instr.opcode == Opcode.Call && instr.arg1 >= 0 && instr.arg1 in p.functions && s.pc < |p.instructions| && p.instructions[s.pc] == instr
    requires instr.arg2 == p.functions[instr.arg1].paramCount <= p.functions[instr.arg1].localCount && s.pc == g.pc
    requires |g.stack| == |s.stack| && s.calls != [] && |g.calls| == |s.calls| && |s.locals| >= MAX_LOCAL_SLOTS && !StorageFull(p, s)
    ensures var f := p.functions[instr.arg1]; var base := M.NextBase(p, s);
      if |s.calls| >= MAX_FRAMES then
        M.Exec(p, instr, s) == M.Trapped(StackOverflow, |s.stack|) && G.Exec(p, instr, g) == G.Trapped(StackOverflow, |s.stack|)
      else if |s.stack| < f.paramCount then
        M.Exec(p, instr, s) == M.Trapped(StackUnderflow, 0) && G.Exec(p, instr, g) == G.Trapped(StackUnderflow, 0)
      else
        var low := |s.stack| - f.paramCount;
        && base + f.localCount <= MAX_LOCAL_SLOTS
        && M.Exec(p, instr, s) == M.Jumped(s.(stack := s.stack[..low], locals := M.EnterFrame(s.locals, base, s.stack[low..], f.localCount),
             calls := s.calls + [M.Frame(Some(s.pc + 1), base, instr.arg1)], pc := f.entryPc))
        && G.Exec(p, instr, g) == G.Jumped(g.(stack := g.stack[..low],
             calls := g.calls + [G.NewFrame(g.stack[low..], f.localCount, Some(s.pc + 1))], pc := f.entryPc))
  {
    assert M.Exec(p, instr, s) == M.ExecCall(p, s, instr.arg1, instr.arg2) && G.Exec(p, instr, g) == G.ExecCall(p, g, instr.arg1, instr.arg2);
    hide M.EnterFrame, G.NewFrame;
  }

  /** A fresh frame is the same on both sides: the arguments are defined, nothing else is. */
  lemma EntrySame(mu: Spots, kinds: seq<Kind>, locals: seq<int>, base: nat, args: seq<int>, gargs: seq<G.Value>, returnPc: Option<nat>, id: nat)
    requires |args| == |gargs| <= |kinds| && base + |kinds| <= MAX_LOCAL_SLOTS <= |locals| && Defined(args)
    requires forall i :: 0 <= i < |args| ==> gargs[i] == G.Int(args[i]) && kinds[i] == ScalarSlot
    ensures FrameSame(mu, kinds, M.Frame(returnPc, base, id), G.NewFrame(gargs, |kinds|, returnPc), M.EnterFrame(locals, base, args, |kinds|))
  {
    var gf, locals' := G.NewFrame(gargs, |kinds|, returnPc), M.EnterFrame(locals, base, args, |kinds|);
    forall i | 0 <= i < |kinds| ensures LocalSame(mu, kinds[i], gf.locals[i], gf.init[i], locals'[base + i]) {
    }
  }

  /** The new frame goes on top of the caller, which waits at the next instruction. */
  lemma CallsPushed(plans: Plans, mu: Spots, calls: seq<M.Frame>, gcalls: seq<G.Frame>, pc: nat, locals: seq<int>, plan: Plan,
                    callee: M.Frame, gcallee: G.Frame, entry: nat, locals': seq<int>)
    requires CallsSame(plans, mu, calls, gcalls, pc, locals) && plans[calls[|calls| - 1].funcId] == plan && |locals'| >= |locals|
    requires callee.returnPc == Some(pc + 1) && callee.basePtr == calls[|calls| - 1].basePtr + |plan.kinds|
    requires forall i :: 0 <= i < callee.basePtr && i < |locals| ==> locals'[i] == locals[i]
    requires pc in plan.shapes && Leads(plan, pc + 1, plan.shapes[pc].ready, None)
    requires FrameAt(plans, mu, callee, gcallee, entry, locals')
    ensures CallsSame(plans, mu, calls + [callee], gcalls + [gcallee], entry, locals')
  {
    hide FrameSame;
    var last := |calls| - 1;
    var calls', gcalls' := calls + [callee], gcalls + [gcallee];
    FrameBounds(mu, plan.kinds, calls[last], gcalls[last], locals);
    LinksKept(plans, mu, mu, calls, gcalls, locals, locals', callee.basePtr);
    FrameKept(mu, mu, plan.kinds, calls[last], gcalls[last], locals, locals');
    forall k | 0 <= k < |calls'| - 1 ensures LinkSame(plans, mu, calls'[k], gcalls'[k], calls'[k + 1], locals') {
      if k < last {
        assert LinkSame(plans, mu, calls[k], gcalls[k], calls[k + 1], locals');
      }
    }
  }

  lemma CallPaired(p: CompiledProgram, plans: Plans, mu: Spots, s: M.State, g: G.State, plan: Plan, instr: Instruction)
    requires Ready(p, plans, mu, s, g, plan, instr) && instr.opcode == Opcode.Call && plan.shapes[s.pc].pending == None
    requires instr.arg1 >= 0 && instr.arg1 in p.functions && instr.arg2 == p.functions[instr.arg1].paramCount
    requires Leads(plan, s.pc + 1, plan.shapes[s.pc].ready, None) && !StorageFull(p, s)
    requires instr.arg1 in plans && PlanOk(p, instr.arg1, plans[instr.arg1])
    ensures Paired(p, plans, mu, M.Exec(p, instr, s), G.Exec(p, instr, g))
  {
    hide CallsSame, GlobalsSame, ArraysSame, Related, FrameSame, M.Exec, G.Exec, StorageFull, M.EnterFrame, G.NewFrame, Keeps;
    Whole(p, plans, mu, s, g);
    CallsParts(plans, mu, s.calls, g.calls, s.pc, s.locals);
    var f, base, other := p.functions[instr.arg1], M.NextBase(p, s), plans[instr.arg1];
    CallRuns(p, s, g, instr);
    if |s.calls| < MAX_FRAMES && |s.stack| >= f.paramCount {
      var low := |s.stack| - f.paramCount;
      var args, gargs := s.stack[low..], g.stack[low..];
      var locals' := M.EnterFrame(s.locals, base, args, f.localCount);
      var callee, gcallee := M.Frame(Some(s.pc + 1), base, instr.arg1), G.NewFrame(gargs, f.localCount, Some(s.pc + 1));
      EntrySame(mu, other.kinds, s.locals, base, args, gargs, Some(s.pc + 1), instr.arg1);
      EnterLeaves(s.locals, base, args, f.localCount);
      CallsPushed(plans, mu, s.calls, g.calls, s.pc, s.locals, plan, callee, gcallee, f.entryPc, locals');
      ArraysBehind(mu, g.heap, s.locals, locals', s.globals);
      assert locals'[MAX_LOCAL_SLOTS..] == s.locals[MAX_LOCAL_SLOTS..];
      Combine(p, plans, mu,
        s.(stack := s.stack[..low], locals := locals', calls := s.calls + [callee], pc := f.entryPc),
        g.(stack := g.stack[..low], calls := g.calls + [gcallee], pc := f.entryPc));
    }
  }

  lemma CallsParts(plans: Plans, mu: Spots, calls: seq<M.Frame>, gcalls: seq<G.Frame>, pc: nat, locals: seq<int>)
    requires CallsSame(plans, mu, calls, gcalls, pc, locals)
    ensures calls != [] && |gcalls| == |calls| && FrameAt(plans, mu, calls[|calls| - 1], gcalls[|calls| - 1], pc, locals)
    ensures gcalls[|calls| - 1].returnPc == calls[|calls| - 1].returnPc
    ensures |calls| == 1 ==> calls[0].returnPc == None
    ensures |calls| > 1 ==> LinkSame(plans, mu, calls[|calls| - 2], gcalls[|calls| - 2], calls[|calls| - 1], locals)
  {
  }

  lemma EnterLeaves(locals: seq<int>, base: nat, args: seq<int>, localCount: nat)
    requires |args| <= localCount && base + localCount <= |locals|
    ensures var locals' := M.EnterFrame(locals, base, args, localCount);
      && |locals'| == |locals| && (forall i :: 0 <= i < base ==> locals'[i] == locals[i])
      && forall i :: base + localCount <= i < |locals| ==> locals'[i] == locals[i]
  {
  }

  lemma ReturnPaired(p: CompiledProgram, plans: Plans, mu: Spots, s: M.State, g: G.State, plan: Plan, instr: Instruction)
    requires Ready(p, plans, mu, s, g, plan, instr) && instr.opcode == Opcode.Return && plan.shapes[s.pc].pending == None
    ensures Paired(p, plans, mu, M.Exec(p, instr, s), G.Exec(p, instr, g))
  {
    hide CallsSame, GlobalsSame, ArraysSame, Related, FrameSame;
    Whole(p, plans, mu, s, g);
    CallsParts(plans, mu, s.calls, g.calls, s.pc, s.locals);
    if s.stack != [] && |s.calls| > 1 {
      var n := |s.calls|;
      var calls', gcalls', pc' := s.calls[..n - 1], g.calls[..n - 1], s.calls[n - 1].returnPc.value;
      CallsPopped(plans, mu, s.calls, g.calls, s.pc, s.locals);
      Combine(p, plans, mu, s.(calls := calls', pc := pc'), g.(calls := gcalls', pc := pc'));
    }
  }

  lemma CallsPopped(plans: Plans, mu: Spots, calls: seq<M.Frame>, gcalls: seq<G.Frame>, pc: nat, locals: seq<int>)
    requires CallsSame(plans, mu, calls, gcalls, pc, locals) && |calls| > 1
    ensures calls[|calls| - 1].returnPc.Some?
    ensures CallsSame(plans, mu, calls[..|calls| - 1], gcalls[..|calls| - 1], calls[|calls| - 1].returnPc.value, locals)
  {
    hide FrameSame, ReadyOk;
    var n := |calls|;
    assert LinkSame(plans, mu, calls[n - 2], gcalls[n - 2], calls[n - 1], locals);
    var calls', gcalls' := calls[..n - 1], gcalls[..n - 1];
    forall k | 0 <= k < |calls'| - 1 ensures LinkSame(plans, mu, calls'[k], gcalls'[k], calls'[k + 1], locals) {
      assert LinkSame(plans, mu, calls[k], gcalls[k], calls[k + 1], locals);
    }
  }

  lemma HaltPaired(p: CompiledProgram, plans: Plans, mu: Spots, s: M.State, g: G.State, plan: Plan, instr: Instruction)
    requires Ready(p, plans, mu, s, g, plan, instr) && instr.opcode == Halt && plan.shapes[s.pc].pending == None
    ensures Paired(p, plans, mu, M.Exec(p, instr, s), G.Exec(p, instr, g))
  {
    hide CallsSame, GlobalsSame, ArraysSame, Related;
    Whole(p, plans, mu, s, g);
  }

  // ---------------------------------------------------------------- any instruction

  /** What the verifier checked about the operands of an accepted instruction. */
  lemma AcceptedOperands(p: CompiledProgram, r: V.Range, pc: nat, instr: Instruction, st: V.AbstractState)
    requires |st.init| == r.info.localCount && V.StepInstruction(p, r, pc, instr, st).Stepped?
    ensures instr.opcode in {LoadGlobal, StoreGlobal, ArrayLoad, ArrayStore} ==> 0 <= instr.arg1 < MAX_GLOBAL_SLOTS
    ensures instr.opcode == Opcode.Call ==> instr.arg1 >= 0 && instr.arg1 in p.functions && instr.arg2 == p.functions[instr.arg1].paramCount
    ensures instr.opcode in {AllocArray, ArrayNew} ==> instr.arg1 > 0
    ensures instr.opcode in {Jump, JumpIfFalse, JumpIfTrue} ==> instr.arg1 >= 0
  {
  }

  /** The successors of an instruction in an orderly program are where the cases expect them. */
  lemma Onward(p: CompiledProgram, plan: Plan, pc: nat, instr: Instruction)
    requires pc in plan.shapes && pc < |p.instructions| && p.instructions[pc] == instr
    requires Keeps(p, plan.range, plan.kinds, plan.shapes[pc], plan.shapes, pc)
    ensures ArraysOk(p, plan.kinds, plan.shapes[pc], instr)
    ensures instr.opcode !in {Jump, Opcode.Return, Halt} ==> Leads(plan, pc + 1, NextReady(plan.shapes[pc], instr), NextPending(instr))
    ensures instr.opcode in {Jump, JumpIfFalse, JumpIfTrue} ==> Leads(plan, AsUsize(instr.arg1), NextReady(plan.shapes[pc], instr), NextPending(instr))
    ensures instr.opcode in {LoadGlobal, StoreGlobal, ArrayLoad, ArrayStore} ==> 0 <= instr.arg1 < MAX_GLOBAL_SLOTS
    ensures instr.opcode == Opcode.Call ==> instr.arg1 >= 0 && instr.arg1 in p.functions && instr.arg2 == p.functions[instr.arg1].paramCount
    ensures instr.opcode in {AllocArray, ArrayNew} ==> instr.arg1 > 0
  {
    hide V.StepInstruction, Keeps, ArraysOk;
    KeepsParts(p, plan, pc);
    assert instr.opcode !in {Jump, Opcode.Return, Halt} ==> pc + 1 in V.Successors(instr, pc);
    assert instr.opcode in {Jump, JumpIfFalse, JumpIfTrue} ==> AsUsize(instr.arg1) in V.Successors(instr, pc);
    AcceptedOperands(p, plan.range, pc, instr, V.AbstractState(plan.shapes[pc].depth, W.EntryInit(plan.range)));
  }

  lemma MakeReady(p: CompiledProgram, plans: Plans, mu: Spots, s: M.State, g: G.State) returns (plan: Plan, instr: Instruction)
    requires Orderly(p, plans) && Related(p, plans, mu, s, g)
    ensures Ready(p, plans, mu, s, g, plan, instr) && Keeps(p, plan.range, plan.kinds, plan.shapes[s.pc], plan.shapes, s.pc)
    ensures CurrentShape(plans, s.calls, s.pc) == plan.shapes[s.pc]
  {
    hide Keeps, CallsSame, GlobalsSame, ArraysSame, StackSame, Related, PlanOk, ArraysOk, Orderly;
    Here(p, plans, mu, s, g);
    Whole(p, plans, mu, s, g);
    plan := plans[Current(s)];
    instr := p.instructions[s.pc];
    Onward(p, plan, s.pc, instr);
  }

  /** One instruction on both machines, unless the shared storage is full. */
  lemma StepPaired(p: CompiledProgram, plans: Plans, mu: Spots, s: M.State, g: G.State) returns (mu': Spots)
    requires Orderly(p, plans) && Related(p, plans, mu, s, g) && H.HeapOk(g) && !StorageFull(p, s)
    ensures s.pc < |p.instructions| && Paired(p, plans, mu', M.Exec(p, p.instructions[s.pc], s), G.Exec(p, p.instructions[s.pc], g))
  {
    hide Keeps, Related, PlanOk, Orderly, M.Exec, G.Exec, Paired, StorageFull, H.HeapOk, Leads, Ready;
    var plan, instr := MakeReady(p, plans, mu, s, g);
    ReadyParts(p, plans, mu, s, g, plan, instr);
    Onward(p, plan, s.pc, instr);
    mu' := mu;
    match instr.opcode {
      case LoadConst => PushPaired(p, plans, mu, s, g, plan, instr);
      case Dup => PushPaired(p, plans, mu, s, g, plan, instr);
      case LoadLocal => LoadLocalPaired(p, plans, mu, s, g, plan, instr);
      case StoreLocal => StoreLocalPaired(p, plans, mu, s, g, plan, instr);
      case LoadGlobal => LoadGlobalPaired(p, plans, mu, s, g, plan, instr);
      case StoreGlobal => StoreGlobalPaired(p, plans, mu, s, g, plan, instr);
      case Neg => UnaryPaired(p, plans, mu, s, g, plan, instr);
      case Not => UnaryPaired(p, plans, mu, s, g, plan, instr);
      case Jump => JumpPaired(p, plans, mu, s, g, plan, instr);
      case JumpIfFalse => JumpPaired(p, plans, mu, s, g, plan, instr);
      case JumpIfTrue => JumpPaired(p, plans, mu, s, g, plan, instr);
      case Call =>
        OtherPlan(p, plans, instr.arg1);
        CallPaired(p, plans, mu, s, g, plan, instr);
      case Return => ReturnPaired(p, plans, mu, s, g, plan, instr);
      case Halt => HaltPaired(p, plans, mu, s, g, plan, instr);
      case ArrayLoad => ArrayLoadPaired(p, plans, mu, s, g, plan, instr);
      case ArrayStore => ArrayStorePaired(p, plans, mu, s, g, plan, instr);
      case LocalArrayLoad => LocalArrayLoadPaired(p, plans, mu, s, g, plan, instr);
      case LocalArrayStore => LocalArrayStorePaired(p, plans, mu, s, g, plan, instr);
      case AllocArray => mu' := AllocPaired(p, plans, mu, s, g, plan, instr);
      case ArrayNew => mu' := AllocPaired(p, plans, mu, s, g, plan, instr);
      case Print => PopPaired(p, plans, mu, s, g, plan, instr);
      case Pop => PopPaired(p, plans, mu, s, g, plan, instr);
      case _ => BinaryPaired(p, plans, mu, s, g, plan, instr);
    }
  }

  lemma ReadyParts(p: CompiledProgram, plans: Plans, mu: Spots, s: M.State, g: G.State, plan: Plan, instr: Instruction)
    requires Ready(p, plans, mu, s, g, plan, instr)
    ensures s.calls != [] && g.calls != [] && Current(s) in plans && plans[Current(s)] == plan && s.pc in plan.shapes
    ensures s.pc < |p.instructions| && p.instructions[s.pc] == instr && ArraysOk(p, plan.kinds, plan.shapes[s.pc], instr)
  {
  }

  lemma OtherPlan(p: CompiledProgram, plans: Plans, id: nat)
    requires Orderly(p, plans) && id in p.functions
    ensures id in plans && PlanOk(p, id, plans[id])
  {
  }

  // ---------------------------------------------------------------- runs

  /** Both turns end the run with the same result, or lead to corresponding states. */
  ghost predicate TurnsPaired(p: CompiledProgram, plans: Plans, mu: Spots, vm: M.Turn, gc: G.Turn) {
    match vm
    case Stop(result) => gc == G.Stop(result)
    case Next(s) => gc.Next? && Related(p, plans, mu, s, gc.st) && H.HeapOk(gc.st)
  }

  lemma TurnPaired(p: CompiledProgram, plans: Plans, mu: Spots, s: M.State, g: G.State) returns (mu': Spots)
    requires Orderly(p, plans) && Related(p, plans, mu, s, g) && H.HeapOk(g) && (s.cycles < MAX_CYCLES ==> !StorageFull(p, s))
    ensures TurnsPaired(p, plans, mu', M.TakeTurn(p, s), G.TakeTurn(p, g))
  {
    hide Related, Orderly, M.Exec, G.Exec, StorageFull, H.HeapOk;
    mu' := mu;
    Whole(p, plans, mu, s, g);
    WholeSizes(p, plans, mu, s, g);
    H.TurnKeepsHeap(p, g);
    if s.cycles < MAX_CYCLES {
      var s1, g1 := s.(cycles := s.cycles + 1), g.(cycles := g.cycles + 1);
      Tick(p, plans, mu, s, g);
      mu' := StepPaired(p, plans, mu, s1, g1);
      TurnFollows(p, plans, mu', s, g);
    } else {
      InsideCode(p, plans, mu, s, g);
    }
  }

  lemma WholeSizes(p: CompiledProgram, plans: Plans, mu: Spots, s: M.State, g: G.State)
    requires Related(p, plans, mu, s, g)
    ensures |g.stack| == |s.stack| && |g.calls| == |s.calls|
  {
    hide GlobalsSame, ArraysSame, FrameAt, LinkSame;
  }

  lemma Tick(p: CompiledProgram, plans: Plans, mu: Spots, s: M.State, g: G.State)
    requires Related(p, plans, mu, s, g) && H.HeapOk(g)
    ensures var s1, g1 := s.(cycles := s.cycles + 1), g.(cycles := g.cycles + 1);
      Related(p, plans, mu, s1, g1) && H.HeapOk(g1) && StorageFull(p, s1) == StorageFull(p, s)
  {
    hide CallsSame, GlobalsSame, ArraysSame, StackSame, G.Roots;
    H.RootsOf(g, g.(cycles := g.cycles + 1));
  }

  lemma InsideCode(p: CompiledProgram, plans: Plans, mu: Spots, s: M.State, g: G.State)
    requires Orderly(p, plans) && Related(p, plans, mu, s, g) && s.cycles >= MAX_CYCLES
    ensures M.TakeTurn(p, s) == M.Stop(M.TrapResult(s, CycleLimit, |s.stack|)) && G.TakeTurn(p, g) == G.Stop(M.TrapResult(s, CycleLimit, |s.stack|))
  {
    hide Orderly, M.Exec, G.Exec, CallsSame, GlobalsSame, ArraysSame, StackSame;
    WholeSizes(p, plans, mu, s, g);
  }

  lemma TurnFollows(p: CompiledProgram, plans: Plans, mu: Spots, s: M.State, g: G.State)
    requires s.cycles < MAX_CYCLES && s.pc < |p.instructions| && s.pc == g.pc && s.cycles == g.cycles && s.output == g.output && |g.calls| == |s.calls|
    requires var instr := p.instructions[s.pc];
      Paired(p, plans, mu, M.Exec(p, instr, s.(cycles := s.cycles + 1)), G.Exec(p, instr, g.(cycles := g.cycles + 1)))
    requires G.TakeTurn(p, g).Next? ==> H.HeapOk(G.TakeTurn(p, g).st)
    ensures TurnsPaired(p, plans, mu, M.TakeTurn(p, s), G.TakeTurn(p, g))
  {
    hide M.Exec, G.Exec, H.HeapOk, Related;
    var instr, c := p.instructions[s.pc], s.cycles + 1;
    match M.Exec(p, instr, s.(cycles := c)) {
      case Trapped(_, _) =>
      case Advance(s') =>
        var g' := G.Exec(p, instr, g.(cycles := c)).st;
        Recount(p, plans, mu, s'.(pc := s'.pc + 1), g'.(pc := g'.pc + 1), c);
      case Jumped(s') =>
        if s'.calls != [] {
          Recount(p, plans, mu, s', G.Exec(p, instr, g.(cycles := c)).st, c);
        }
    }
  }

  lemma Recount(p: CompiledProgram, plans: Plans, mu: Spots, s: M.State, g: G.State, c: nat)
    requires Related(p, plans, mu, s, g)
    ensures Related(p, plans, mu, s.(cycles := c), g.(cycles := c)) && s.calls != [] && g.calls != []
  {
    hide GlobalsSame, ArraysSame, StackSame, FrameAt, LinkSame;
  }

  /** Somewhere on the reference machine's run the shared storage is full. */
  ghost predicate StorageEnds(p: CompiledProgram, s: M.State)
    decreases MAX_CYCLES - s.cycles
  {
    (s.cycles < MAX_CYCLES && StorageFull(p, s)) ||
    match M.TakeTurn(p, s) case Stop(_) => false case Next(s') => StorageEnds(p, s')
  }

  /** Corresponding states lead to the same result, unless the shared storage fills up. */
  lemma {:induction false} RunsPaired(p: CompiledProgram, plans: Plans, mu: Spots, s: M.State, g: G.State)
    requires Orderly(p, plans) && Related(p, plans, mu, s, g) && H.HeapOk(g) && !StorageEnds(p, s)
    ensures M.RunFrom(p, s) == G.RunFrom(p, g)
    decreases MAX_CYCLES - s.cycles
  {
    hide Related, Orderly, M.TakeTurn, G.TakeTurn, StorageFull, H.HeapOk;
    var mu' := TurnPaired(p, plans, mu, s, g);
    match M.TakeTurn(p, s) {
      case Stop(_) =>
      case Next(s') => RunsPaired(p, plans, mu', s', G.TakeTurn(p, g).st);
    }
  }
}
