/**
 * Disciplined bytecode: every pc has one operand depth, array references go from AllocArray straight into the slot
 * that is kept for arrays of that size, and array slots are used only as arrays, once they hold one.
 */
module Discipline {
  import opened Common
  import opened Limits
  import opened Bytecode
  import opened Verifier
  import W = Worklist
  import M = Machine

  datatype Kind = ScalarSlot | ArraySlot(size: nat)

  // What is known when control reaches a pc: the depth, the array slots that hold an array, and the size of the
  // array whose reference is on top of the stack (only between an allocation and the store that follows it).
  datatype Shape = Shape(depth: nat, ready: set<nat>, pending: Option<nat>)

  type Shapes = map<nat, Shape>

  // ---------------------------------------------------------------- arrays

  /** A slot that belongs to no global array. */
  ghost predicate PlainGlobal(p: CompiledProgram, slot: int) {
    forall x <- p.globals :: p.globals[x].isArray ==> !(p.globals[x].slot <= slot < p.globals[x].slot + p.globals[x].arraySize)
  }

  predicate DeclaredArray(p: CompiledProgram, slot: int, size: int) {
    exists x <- p.globals :: p.globals[x].isArray && p.globals[x].slot == slot && p.globals[x].arraySize == size
  }

  predicate HasKind(kinds: seq<Kind>, slot: int, kind: Kind) {
    0 <= slot < |kinds| && kinds[slot] == kind
  }

  ghost predicate ArraysOk(p: CompiledProgram, kinds: seq<Kind>, shape: Shape, instr: Instruction) {
    match shape.pending
    case Some(size) => instr.opcode == StoreLocal && HasKind(kinds, instr.arg1, ArraySlot(size))
    case None =>
      match instr.opcode
      case LoadLocal => HasKind(kinds, instr.arg1, ScalarSlot)
      case StoreLocal => HasKind(kinds, instr.arg1, ScalarSlot)
      case LocalArrayLoad => instr.arg1 in shape.ready && instr.arg2 >= 0 && HasKind(kinds, instr.arg1, ArraySlot(instr.arg2))
      case LocalArrayStore => instr.arg1 in shape.ready && instr.arg2 >= 0 && HasKind(kinds, instr.arg1, ArraySlot(instr.arg2))
      case LoadGlobal => PlainGlobal(p, instr.arg1)
      case StoreGlobal => PlainGlobal(p, instr.arg1)
      case ArrayLoad => DeclaredArray(p, instr.arg1, instr.arg2)
      case ArrayStore => DeclaredArray(p, instr.arg1, instr.arg2)
      case _ => true
  }

  function NextReady(shape: Shape, instr: Instruction): set<nat> {
    if shape.pending.Some? && instr.arg1 >= 0 then shape.ready + {instr.arg1 as nat} else shape.ready
  }

  function NextPending(instr: Instruction): Option<nat> {
    if (instr.opcode == AllocArray || instr.opcode == ArrayNew) && instr.arg1 >= 0 then Some(instr.arg1) else None
  }

  // ---------------------------------------------------------------- one instruction, one function, one program

  predicate Arrives(shapes: Shapes, pc: nat, depth: nat, ready: set<nat>, pending: Option<nat>) {
    pc in shapes && shapes[pc].depth == depth && shapes[pc].ready <= ready && shapes[pc].pending == pending
  }

  function Step(p: CompiledProgram, r: Range, pc: nat, shape: Shape): AbstractStep
    requires pc < |p.instructions|
  {
    StepInstruction(p, r, pc, p.instructions[pc], AbstractState(shape.depth, W.EntryInit(r)))
  }

  /** The instruction is accepted, handles arrays properly, and all its successors have the shape it leaves. */
  ghost predicate Keeps(p: CompiledProgram, r: Range, kinds: seq<Kind>, shape: Shape, shapes: Shapes, pc: nat) {
    pc < |p.instructions| &&
    var instr, s := p.instructions[pc], Step(p, r, pc, shape);
    && s.Stepped? && ArraysOk(p, kinds, shape, instr)
    && forall succ <- s.succs ::
         InRange(r, succ) && Arrives(shapes, succ, s.st.depth, NextReady(shape, instr), NextPending(instr))
  }

  // A function's slots and the shapes at its instructions.
  datatype Plan = Plan(range: Range, kinds: seq<Kind>, shapes: Shapes)

  ghost predicate PlanOk(p: CompiledProgram, id: nat, plan: Plan) {
    && id in p.functions && plan.range.id == id && plan.range.info == p.functions[id]
    && plan.range.start == p.functions[id].entryPc && W.RangeOk(p, plan.range)
    && |plan.kinds| == p.functions[id].localCount
    && p.functions[id].paramCount <= p.functions[id].localCount <= MAX_LOCAL_SLOTS
    && (forall i :: 0 <= i < p.functions[id].paramCount ==> plan.kinds[i] == ScalarSlot)
    && Arrives(plan.shapes, plan.range.start, 0, {}, None)
    && forall pc <- plan.shapes :: InRange(plan.range, pc) && Keeps(p, plan.range, plan.kinds, plan.shapes[pc], plan.shapes, pc)
  }

  type Plans = map<nat, Plan>

  ghost predicate Orderly(p: CompiledProgram, plans: Plans) {
    && p.mainFuncId in p.functions && plans.Keys == p.functions.Keys
    && forall id <- p.functions :: PlanOk(p, id, plans[id])
  }

  /** Only Return and Halt have no successor, and neither adds operands. */
  lemma EndsShallow(p: CompiledProgram, r: Range, pc: nat, instr: Instruction, st: AbstractState)
    requires |st.init| == r.info.localCount
    ensures var s := StepInstruction(p, r, pc, instr, st); s.Stepped? && s.succs == [] ==> s.st.depth <= st.depth
  {
  }

  /** Code with a plan of moderate depth is balanced: the verifier accepts it. */
  lemma PlannedIsBalanced(p: CompiledProgram, id: nat, plan: Plan)
    requires PlanOk(p, id, plan) && forall pc <- plan.shapes :: plan.shapes[pc].depth <= MAX_OPERAND_STACK
    ensures W.Balanced(p, plan.range, map pc <- plan.shapes :: plan.shapes[pc].depth)
  {
    hide StepInstruction, ArraysOk;
    var depths := map pc <- plan.shapes :: plan.shapes[pc].depth;
    forall pc | pc in depths ensures InRange(plan.range, pc) && pc < |p.instructions| && W.BalancedAt(p, plan.range, depths, pc) {
      assert Keeps(p, plan.range, plan.kinds, plan.shapes[pc], plan.shapes, pc);
      var s := Step(p, plan.range, pc, plan.shapes[pc]);
      EndsShallow(p, plan.range, pc, p.instructions[pc], AbstractState(depths[pc], W.EntryInit(plan.range)));
      if s.succs != [] {
        assert s.succs[0] in s.succs;
      }
    }
  }

  // ---------------------------------------------------------------- fragments of code

  /**
   * The code in [from, to) keeps its shapes, provided control reaches `from` with shape `first` and what follows
   * takes over at `to` with shape `last`. No depth is above the limit.
   */
  ghost predicate Fits(p: CompiledProgram, r: Range, kinds: seq<Kind>, limit: nat, shapes: Shapes,
                       from: nat, to: nat, first: Shape, last: Shape) {
    && from <= to && (from == to ==> first == last)
    && (forall pc :: pc in shapes <==> from <= pc < to)
    && (from < to ==> shapes[from] == first)
    && last.depth <= limit
    && forall pc <- shapes :: shapes[pc].depth <= limit && Keeps(p, r, kinds, shapes[pc], shapes[to := last], pc)
  }

  /** The shapes of a larger piece of code agree with those of a fragment, and with what the fragment leaves. */
  predicate Includes(whole: Shapes, shapes: Shapes, to: nat, last: Shape) {
    && (forall pc <- shapes :: pc in whole && whole[pc] == shapes[pc])
    && to in whole && whole[to].depth == last.depth && whole[to].pending == last.pending && whole[to].ready <= last.ready
  }

  lemma FitsInside(p: CompiledProgram, r: Range, kinds: seq<Kind>, limit: nat, shapes: Shapes,
                   from: nat, to: nat, first: Shape, last: Shape, whole: Shapes)
    requires Fits(p, r, kinds, limit, shapes, from, to, first, last) && Includes(whole, shapes, to, last)
    ensures forall pc <- shapes :: whole[pc] == shapes[pc] && Keeps(p, r, kinds, whole[pc], whole, pc)
  {
    hide StepInstruction, ArraysOk, NextReady, NextPending;
    forall pc | pc in shapes ensures Keeps(p, r, kinds, whole[pc], whole, pc) {
      assert Keeps(p, r, kinds, shapes[pc], shapes[to := last], pc);
    }
  }

  /** One fragment after another. */
  lemma FitsAppend(p: CompiledProgram, r: Range, kinds: seq<Kind>, limit: nat, a: Shapes, b: Shapes,
                   from: nat, mid: nat, to: nat, first: Shape, middle: Shape, last: Shape)
    requires Fits(p, r, kinds, limit, a, from, mid, first, middle) && Fits(p, r, kinds, limit, b, mid, to, middle, last)
    ensures Fits(p, r, kinds, limit, a + b, from, to, first, last)
  {
    hide Keeps;
    var whole := (a + b)[to := last];
    FitsInside(p, r, kinds, limit, a, from, mid, first, middle, whole);
    FitsInside(p, r, kinds, limit, b, mid, to, middle, last, whole);
  }

  /** One instruction whose only successor is the next one. */
  lemma FitsOne(p: CompiledProgram, r: Range, kinds: seq<Kind>, limit: nat, pc: nat, first: Shape, last: Shape)
    requires pc < |p.instructions| && InRange(r, pc) && InRange(r, pc + 1) && first.depth <= limit && last.depth <= limit
    requires Step(p, r, pc, first).Stepped? && ArraysOk(p, kinds, first, p.instructions[pc])
    requires Step(p, r, pc, first).succs == [pc + 1] && Step(p, r, pc, first).st.depth == last.depth
    requires last.ready <= NextReady(first, p.instructions[pc]) && last.pending == NextPending(p.instructions[pc])
    ensures Fits(p, r, kinds, limit, map[pc := first], pc, pc + 1, first, last)
  {
    hide StepInstruction, ArraysOk;
  }
}
