/**
 * The garbage-collected VM as an object: a heap of marked arrays and a free list, updated in place by mark-sweep
 * collections and by every instruction, proved to follow the collecting machine.
 */
module CollectingVm {
  import opened Common
  import opened Fallibles
  import opened Int32
  import opened Limits
  import opened Bytecode
  import M = Machine
  import G = GcMachine
  import H = GcHeap

  /** An array in the heap, with the mark bit the collector uses. */
  datatype HeapArray = HeapArray(data: seq<int>, marked: bool)

  function Data(cell: Option<HeapArray>): Option<seq<int>> {
    match cell case None => None case Some(a) => Some(a.data)
  }

  /** The heap without its marks. */
  function Contents(arrays: seq<Option<HeapArray>>): (heap: G.Heap)
    ensures |heap| == |arrays|
    ensures forall i :: 0 <= i < |arrays| ==> heap[i] == Data(arrays[i])
  {
    seq(|arrays|, i requires 0 <= i < |arrays| => Data(arrays[i]))
  }

  /** Exactly the arrays of these ids are marked. */
  predicate MarkedAre(arrays: seq<Option<HeapArray>>, ids: set<nat>) {
    forall i :: 0 <= i < |arrays| && arrays[i].Some? ==> (arrays[i].value.marked <==> i in ids)
  }

  lemma FreedStep(heap: G.Heap, marked: set<nat>, i: nat)
    requires i < |heap|
    ensures G.Freed(heap[..i + 1], marked)
         == if heap[i].Some? && i !in marked then G.Freed(heap[..i], marked) + [i] else G.Freed(heap[..i], marked)
  {
    assert heap[..i + 1][..i] == heap[..i];
  }

  lemma FreedNone(marked: set<nat>)
    ensures G.Freed([], marked) == []
  {
  }

  lemma ContentsUpdate(arrays: seq<Option<HeapArray>>, i: nat, cell: Option<HeapArray>)
    requires i < |arrays|
    ensures Contents(arrays[i := cell]) == Contents(arrays)[i := Data(cell)]
  {
  }

  lemma ContentsGrow(arrays: seq<Option<HeapArray>>, cell: Option<HeapArray>)
    ensures Contents(arrays + [cell]) == Contents(arrays) + [Data(cell)]
  {
  }

  class GcVm {
    const program: CompiledProgram
    var stack: seq<G.Value>
    var globals: seq<G.Value>
    var callStack: seq<G.Frame>
    var heapArrays: seq<Option<HeapArray>>
    var freeArraySlots: seq<nat>
    var nextArrayId: nat
    var pc: nat
    var cycles: nat
    var output: seq<int>
    var gcCollections: nat
    var gcObjectsFreed: nat

    /** The fields, as a state of the collecting machine. */
    function Now(): G.State
      reads this
    {
      G.State(stack, globals, callStack, Contents(heapArrays), freeArraySlots, nextArrayId, pc, cycles, output)
    }

    ghost predicate Valid()
      reads this
    {
      H.HeapOk(Now())
    }

    predicate Follows(step: G.Step, outcome: Fallible<bool>)
      reads this
    {
      match step
      case Advance(s) => outcome == Ok(true) && Now() == s
      case Jumped(s) => outcome == Ok(false) && Now() == s
      case Trapped(code, depth) => outcome == Trap(code) && |stack| == depth
    }

    constructor (program: CompiledProgram)
      ensures this.program == program && Now() == G.Blank() && Valid()
      ensures gcCollections == 0 && gcObjectsFreed == 0
    {
      this.program := program;
      stack := [];
      globals := seq(MAX_GLOBAL_SLOTS, _ => G.Int(0));
      callStack := [];
      heapArrays := [];
      freeArraySlots := [];
      nextArrayId := 0;
      pc := 0;
      cycles := 0;
      output := [];
      gcCollections := 0;
      gcObjectsFreed := 0;
      new;
      assert Now() == G.Blank();
      H.BlankHeap();
    }

    // -------------------------------------------------------------- mark and sweep

    /** The array ids among some values. */
    static method RefsIn(values: seq<G.Value>) returns (ids: seq<nat>)
      ensures forall id :: id in ids <==> id in G.Refs(values)
    {
      ids := [];
      for i := 0 to |values|
        invariant forall id :: id in ids <==> id in G.Refs(values[..i])
      {
        assert values[..i + 1] == values[..i] + [values[i]];
        if values[i].ArrayRef? {
          ids := ids + [values[i].id];
        }
      }
      assert values[..|values|] == values;
    }

    /** The array ids among a frame's initialized locals. */
    static method RefsInFrame(f: G.Frame) returns (ids: seq<nat>)
      requires G.FrameOk(f)
      ensures forall id :: id in ids <==> id in G.LocalRefs(f)
    {
      ids := [];
      ghost var live := G.Initialized(f);
      for i := 0 to |f.locals|
        invariant forall id :: id in ids <==> id in G.Refs(live[..i])
      {
        assert live[..i + 1] == live[..i] + [live[i]];
        if f.init[i] {
          if f.locals[i].ArrayRef? {
            ids := ids + [f.locals[i].id];
          }
        }
      }
      assert live[..|f.locals|] == live;
    }

    method ClearMarks()
      modifies this`heapArrays
      ensures Contents(heapArrays) == old(Contents(heapArrays)) && MarkedAre(heapArrays, {})
    {
      for i := 0 to |heapArrays|
        invariant Contents(heapArrays) == old(Contents(heapArrays))
        invariant forall k :: 0 <= k < i && heapArrays[k].Some? ==> !heapArrays[k].value.marked
      {
        if heapArrays[i].Some? {
          heapArrays := heapArrays[i := Some(heapArrays[i].value.(marked := false))];
        }
      }
    }

    /** Everything the machine can still use: operands, globals, and the initialized locals of all frames. */
    method RootIds() returns (ids: seq<nat>)
      requires H.FramesOk(callStack)
      ensures forall id :: id in ids <==> id in G.Roots(Now())
    {
      var onStack := RefsIn(stack);
      var inGlobals := RefsIn(globals);
      ids := onStack + inGlobals;
      ghost var before := ids;
      for i := 0 to |callStack|
        invariant forall id :: id in ids <==> id in before || id in G.FrameRefs(callStack[..i])
      {
        H.FrameRefsParts(callStack[..i], callStack[i]);
        assert callStack[..i + 1] == callStack[..i] + [callStack[i]];
        var local := RefsInFrame(callStack[i]);
        ids := ids + local;
      }
      assert callStack[..|callStack|] == callStack;
    }

    method Mark(ids: seq<nat>)
      requires MarkedAre(heapArrays, {})
      modifies this`heapArrays
      ensures Contents(heapArrays) == old(Contents(heapArrays))
      ensures MarkedAre(heapArrays, set id <- ids)
    {
      for i := 0 to |ids|
        invariant Contents(heapArrays) == old(Contents(heapArrays))
        invariant MarkedAre(heapArrays, set id <- ids[..i])
      {
        assert ids[..i + 1] == ids[..i] + [ids[i]];
        var id := ids[i];
        if id < |heapArrays| && heapArrays[id].Some? {
          heapArrays := heapArrays[id := Some(heapArrays[id].value.(marked := true))];
        }
      }
      assert ids[..|ids|] == ids;
    }

    /** Frees every unmarked array; the freed ids join the free list in ascending order. */
    method Sweep(ghost marked: set<nat>) returns (freed: nat)
      requires MarkedAre(heapArrays, marked)
      modifies this`heapArrays, this`freeArraySlots
      ensures Contents(heapArrays) == G.Sweep(old(Contents(heapArrays)), marked)
      ensures freeArraySlots == old(freeArraySlots) + G.Freed(old(Contents(heapArrays)), marked)
      ensures freed == |G.Freed(old(Contents(heapArrays)), marked)|
    {
      hide G.Freed;
      freed := 0;
      ghost var heap := Contents(heapArrays);
      FreedNone(marked);
      for i := 0 to |heapArrays|
        invariant |heapArrays| == |heap|
        invariant forall k :: 0 <= k < i ==> Data(heapArrays[k]) == (if k in marked then heap[k] else None)
        invariant forall k :: i <= k < |heap| ==> heapArrays[k] == old(heapArrays)[k]
        invariant freeArraySlots == old(freeArraySlots) + G.Freed(heap[..i], marked)
        invariant freed == |G.Freed(heap[..i], marked)|
      {
        FreedStep(heap, marked, i);
        if heapArrays[i].Some? {
          if !heapArrays[i].value.marked {
            heapArrays := heapArrays[i := None];
            freeArraySlots := freeArraySlots + [i];
            freed := freed + 1;
          }
        }
      }
      assert heap[..|heap|] == heap;
    }

    method CollectGarbage()
      requires Valid()
      modifies this`heapArrays, this`freeArraySlots, this`gcCollections, this`gcObjectsFreed
      ensures Now() == G.Collect(old(Now())) && Valid()
      ensures gcCollections == old(gcCollections) + 1
      ensures gcObjectsFreed == old(gcObjectsFreed) + |G.Freed(old(Contents(heapArrays)), old(G.Roots(Now())))|
    {
      hide G.Roots, G.Freed, H.HeapOk;
      H.HeapParts(Now());
      H.CollectKeepsTheReferenced(Now());
      gcCollections := gcCollections + 1;
      ClearMarks();
      var ids := RootIds();
      Mark(ids);
      ghost var marked := old(G.Roots(Now()));
      assert (set id <- ids) == marked;
      var freed := Sweep(marked);
      gcObjectsFreed := gcObjectsFreed + freed;
    }

    /** A free id is reused, the last one first; otherwise the heap grows. */
    method AllocArray(size: nat) returns (id: nat)
      requires Valid()
      modifies this`heapArrays, this`freeArraySlots, this`nextArrayId, this`gcCollections, this`gcObjectsFreed
      ensures G.Alloc(old(Now()), size) == (Now(), id)
    {
      hide G.Collect, H.HeapOk, G.Roots, H.FreeOk;
      if |heapArrays| - |freeArraySlots| >= GC_THRESHOLD {
        CollectGarbage();
      }
      H.FreeParts(Now());
      var blank := HeapArray(G.Zeros(size), false);
      if freeArraySlots != [] {
        id := freeArraySlots[|freeArraySlots| - 1];
        assert id in Now().free;
        freeArraySlots := freeArraySlots[..|freeArraySlots| - 1];
        ContentsUpdate(heapArrays, id, Some(blank));
        heapArrays := heapArrays[id := Some(blank)];
      } else {
        id := nextArrayId;
        nextArrayId := nextArrayId + 1;
        // The next id is the heap's length, so the store always appends.
        ContentsGrow(heapArrays, Some(blank));
        heapArrays := heapArrays + [Some(blank)];
      }
    }

    // -------------------------------------------------------------- operand stack and addressing

    method Pop() returns (r: Fallible<G.Value>)
      modifies this`stack
      ensures old(stack) == [] ==> r == Trap(StackUnderflow) && stack == []
      ensures old(stack) != [] ==> r == Ok(old(stack)[|old(stack)| - 1]) && stack == old(stack)[..|old(stack)| - 1]
    {
      if stack == [] {
        return Trap(StackUnderflow);
      }
      r := Ok(stack[|stack| - 1]);
      stack := stack[..|stack| - 1];
    }

    method PopInt() returns (r: Fallible<int>)
      modifies this`stack
      ensures old(stack) == [] ==> r == Trap(StackUnderflow) && stack == []
      ensures old(stack) != [] ==> r == Ok(G.ToInt(old(stack)[|old(stack)| - 1])) && stack == old(stack)[..|old(stack)| - 1]
    {
      var v :- Pop();
      return Ok(G.ToInt(v));
    }

    method Push(v: G.Value) returns (r: Fallible<bool>)
      modifies this`stack
      ensures Follows(G.Push(old(Now()), v), r)
    {
      if |stack| >= MAX_OPERAND_STACK {
        return Trap(StackOverflow);
      }
      stack := stack + [v];
      return Ok(true);
    }

    static function Lift(slot: M.Slot): Fallible<nat> {
      match slot
      case At(i) => Ok(i)
      case Bad(code) => Trap(code)
    }

    function CurrentLocalSlot(raw: int): (r: Fallible<nat>)
      reads this
      ensures r == Lift(G.LocalSlot(Now(), raw))
    {
      if raw < 0 then Trap(InvalidInstruction)
      else if callStack == [] then Trap(InvalidInstruction)
      else if raw >= |callStack[|callStack| - 1].locals| then Trap(InvalidInstruction)
      else Ok(raw)
    }

    function CheckedGlobalSlot(raw: int): (r: Fallible<nat>)
      reads this
      ensures r == Lift(G.GlobalSlot(Now(), raw))
    {
      if raw < 0 then Trap(InvalidInstruction) else if raw >= |globals| then Trap(InvalidInstruction) else Ok(raw)
    }

    static function ArraySize(raw: int): Fallible<nat> {
      if raw < 0 then Trap(InvalidInstruction) else Ok(raw)
    }

    static function ArrayIndex(raw: int, size: nat): Fallible<nat> {
      if raw < 0 then Trap(ArrayOutOfBounds) else if raw >= size then Trap(ArrayOutOfBounds) else Ok(raw)
    }

    function GlobalArrayRange(rawBase: int, rawSize: int): (r: Fallible<(nat, nat)>)
      reads this
      ensures r == match G.GlobalArrayBase(Now(), rawBase, rawSize)
                   case At(base) => (if rawSize >= 0 then Ok((base, rawSize)) else Trap(InvalidInstruction))
                   case Bad(code) => Trap(code)
    {
      var base :- CheckedGlobalSlot(rawBase);
      var size :- ArraySize(rawSize);
      if base + size > |globals| then Trap(InvalidInstruction) else Ok((base, size))
    }

    // -------------------------------------------------------------- instructions

    method LoadLocal(raw: int) returns (r: Fallible<bool>)
      modifies this`stack
      ensures Follows(G.LoadLocal(old(Now()), raw), r)
    {
      var slot :- CurrentLocalSlot(raw);
      var local := G.ReadLocal(callStack[|callStack| - 1], slot);
      if local.None? {
        return Trap(UndefinedLocal);
      }
      r := Push(local.value);
    }

    method StoreLocal(raw: int) returns (r: Fallible<bool>)
      modifies this`stack, this`callStack
      ensures Follows(G.StoreLocal(old(Now()), raw), r)
      ensures r.Trap? ==> callStack == old(callStack)
    {
      var slot :- CurrentLocalSlot(raw);
      var value :- Pop();
      callStack := callStack[|callStack| - 1 := G.WriteLocal(callStack[|callStack| - 1], slot, value)];
      return Ok(true);
    }

    method LoadGlobal(raw: int) returns (r: Fallible<bool>)
      modifies this`stack
      ensures Follows(G.LoadGlobal(old(Now()), raw), r)
    {
      var slot :- CheckedGlobalSlot(raw);
      r := Push(globals[slot]);
    }

    method StoreGlobal(raw: int) returns (r: Fallible<bool>)
      modifies this`stack, this`globals
      ensures Follows(G.StoreGlobal(old(Now()), raw), r)
    {
      var slot :- CheckedGlobalSlot(raw);
      var value :- Pop();
      globals := globals[slot := value];
      return Ok(true);
    }

    method Binary(op: Opcode) returns (r: Fallible<bool>)
      requires M.IsBinary(op)
      modifies this`stack
      ensures Follows(G.ExecBinary(op, old(Now())), r)
    {
      hide G.Arith, M.IsBinary, Contents;
      var b :- Pop();
      var a :- Pop();
      assert stack == old(stack)[..|old(stack)| - 2];
      if op == Opcode.Div && G.ToInt(b) == 0 {
        return Trap(DivideByZero);
      }
      r := Push(G.Int(G.Arith(op, a, b)));
    }

    method Unary(op: Opcode) returns (r: Fallible<bool>)
      requires op == Opcode.Neg || op == Opcode.Not
      modifies this`stack
      ensures Follows(G.ExecUnary(op, old(Now())), r)
    {
      hide NormalizeI32, Wrap64;
      var a :- Pop();
      if op == Opcode.Neg {
        r := Push(G.Int(NormalizeI32(Wrap64(-G.ToInt(a)))));
      } else {
        r := Push(G.Int(if !G.Truthy(a) then 1 else 0));
      }
    }

    method Branch(target: I32, onZero: bool) returns (r: Fallible<bool>)
      modifies this`stack, this`pc
      ensures Follows(G.Branch(old(Now()), target, onZero), r)
      ensures r.Trap? ==> pc == old(pc)
    {
      var condition :- Pop();
      if !G.Truthy(condition) == onZero {
        pc := AsUsize(target);
        return Ok(false);
      }
      return Ok(true);
    }

    /** Pops arguments, the last one first, and puts them back in order. */
    method TakeArguments(count: nat) returns (r: Fallible<seq<G.Value>>)
      modifies this`stack
      ensures if |old(stack)| < count then r == Trap(StackUnderflow) && stack == [] else
        r == Ok(old(stack)[|old(stack)| - count..]) && stack == old(stack)[..|old(stack)| - count]
    {
      var args: seq<G.Value> := [];
      for i := 0 to count
        invariant i <= |old(stack)| && stack == old(stack)[..|old(stack)| - i]
        invariant args == old(stack)[|old(stack)| - i..]
      {
        var argument :- Pop();
        args := [argument] + args;
      }
      return Ok(args);
    }

    /** A frame whose first locals are the arguments; the rest is undefined. */
    static method EnterFrame(args: seq<G.Value>, localCount: nat, returnPc: Option<nat>) returns (f: G.Frame)
      ensures f == G.NewFrame(args, localCount, returnPc)
    {
      f := G.Frame(returnPc, seq(localCount, _ => G.Int(0)), seq(localCount, _ => false));
      for i := 0 to |args|
        invariant |f.locals| == |f.init| == localCount && f.returnPc == returnPc
        invariant forall k :: 0 <= k < localCount ==>
          f.locals[k] == (if k < i then args[k] else G.Int(0)) && f.init[k] == (k < i)
      {
        f := G.WriteLocal(f, i, args[i]);
      }
    }

    method Call(rawId: int, rawCount: int) returns (r: Fallible<bool>)
      modifies this`stack, this`callStack, this`pc
      ensures Follows(G.ExecCall(program, old(Now()), rawId, rawCount), r)
      ensures r.Trap? ==> pc == old(pc) && callStack == old(callStack)
    {
      hide G.NewFrame;
      if rawId < 0 {
        return Trap(InvalidInstruction);
      }
      if rawCount < 0 {
        return Trap(InvalidInstruction);
      }
      if rawId !in program.functions {
        return Trap(UndefinedFunction);
      }
      var f := program.functions[rawId];
      if |callStack| >= MAX_FRAMES {
        return Trap(StackOverflow);
      }
      if rawCount != f.paramCount {
        return Trap(InvalidInstruction);
      }
      var args :- TakeArguments(rawCount);
      var frame := EnterFrame(args, f.localCount, Some(pc + 1));
      callStack := callStack + [frame];
      pc := f.entryPc;
      return Ok(false);
    }

    method Return() returns (r: Fallible<bool>)
      requires callStack != []
      modifies this`stack, this`callStack, this`pc
      ensures Follows(G.ExecReturn(old(Now())), r)
      ensures r.Trap? ==> pc == old(pc) && callStack == old(callStack)
    {
      var value :- Pop();
      var frame := callStack[|callStack| - 1];
      callStack := callStack[..|callStack| - 1];
      if frame.returnPc.Some? {
        pc := frame.returnPc.value;
      }
      stack := stack + [value];
      return Ok(false);
    }

    /** An element of a heap array, or the trap for a dead reference or an index past its end. */
    function ElementOf(id: nat, index: nat): (r: Fallible<int>)
      reads this
      ensures r == match G.Element(Now(), id, index)
                   case At(_) => Ok(Now().heap[id].value[index])
                   case Bad(code) => Trap(code)
    {
      if id >= |heapArrays| || heapArrays[id].None? then Trap(InvalidInstruction)
      else if index >= |heapArrays[id].value.data| then Trap(ArrayOutOfBounds)
      else Ok(heapArrays[id].value.data[index])
    }

    method SetElement(id: nat, index: nat, v: int) returns (r: Fallible<bool>)
      modifies this`heapArrays
      ensures Follows(G.StoreElement(old(Now()), id, index, v, |stack|), r)
    {
      var _ :- ElementOf(id, index);
      var a := heapArrays[id].value;
      ContentsUpdate(heapArrays, id, Some(a.(data := a.data[index := v])));
      heapArrays := heapArrays[id := Some(a.(data := a.data[index := v]))];
      return Ok(true);
    }

    method LoadElement(rawBase: int, rawSize: int) returns (r: Fallible<bool>)
      modifies this`stack
      ensures Follows(G.ArrayLoad(old(Now()), rawBase, rawSize), r)
    {
      var range :- GlobalArrayRange(rawBase, rawSize);
      var raw :- PopInt();
      var index :- ArrayIndex(raw, range.1);
      var value := globals[range.0 + index];
      match globals[range.0] {
        case ArrayRef(id) =>
          var element :- ElementOf(id, index);
          value := G.Int(element);
        case Int(_) =>
      }
      r := Push(value);
    }

    method StoreElement(rawBase: int, rawSize: int) returns (r: Fallible<bool>)
      modifies this`stack, this`globals, this`heapArrays
      ensures Follows(G.ArrayStore(old(Now()), rawBase, rawSize), r)
    {
      var range :- GlobalArrayRange(rawBase, rawSize);
      var value :- PopInt();
      var raw :- PopInt();
      var index :- ArrayIndex(raw, range.1);
      match globals[range.0] {
        case ArrayRef(id) => r := SetElement(id, index, value);
        case Int(_) =>
          globals := globals[range.0 + index := G.Int(value)];
          r := Ok(true);
      }
    }

    method LoadLocalElement(rawSlot: int, rawSize: int) returns (r: Fallible<bool>)
      modifies this`stack
      ensures Follows(G.LocalArrayLoad(old(Now()), rawSlot, rawSize), r)
    {
      var slot :- CurrentLocalSlot(rawSlot);
      var size :- ArraySize(rawSize);
      var raw :- PopInt();
      var index :- ArrayIndex(raw, size);
      var local := G.ReadLocal(callStack[|callStack| - 1], slot);
      match local {
        case Some(ArrayRef(id)) =>
          var element :- ElementOf(id, index);
          r := Push(G.Int(element));
        case Some(Int(v)) => r := Push(G.Int(v));
        case None => r := Trap(UndefinedLocal);
      }
    }

    method StoreLocalElement(rawSlot: int, rawSize: int) returns (r: Fallible<bool>)
      modifies this`stack, this`heapArrays
      ensures Follows(G.LocalArrayStore(old(Now()), rawSlot, rawSize), r)
    {
      var slot :- CurrentLocalSlot(rawSlot);
      var size :- ArraySize(rawSize);
      var value :- PopInt();
      var raw :- PopInt();
      var index :- ArrayIndex(raw, size);
      var local := G.ReadLocal(callStack[|callStack| - 1], slot);
      match local {
        case Some(ArrayRef(id)) => r := SetElement(id, index, value);
        case _ => r := Trap(InvalidInstruction);
      }
    }

    method NewArray(rawSize: int) returns (r: Fallible<bool>)
      requires Valid()
      modifies this`stack, this`heapArrays, this`freeArraySlots, this`nextArrayId, this`gcCollections, this`gcObjectsFreed
      ensures Follows(G.AllocArray(old(Now()), rawSize), r)
    {
      hide G.Alloc, H.HeapOk;
      var size :- ArraySize(rawSize);
      var id := AllocArray(size);
      G.AllocKeepsStack(old(Now()), size);
      r := Push(G.ArrayRef(id));
    }

    method Print() returns (r: Fallible<bool>)
      modifies this`stack, this`output
      ensures Follows(if old(stack) == [] then G.Trapped(StackUnderflow, 0)
                      else G.Advance(G.Drop(old(Now()), 1).(output := old(output) + [G.ToInt(G.Top(old(Now())))])), r)
      ensures r.Trap? ==> output == old(output)
    {
      var value :- PopInt();
      output := output + [value];
      return Ok(true);
    }

    method Dup() returns (r: Fallible<bool>)
      modifies this`stack
      ensures Follows(if old(stack) == [] then G.Trapped(StackUnderflow, 0) else G.Push(old(Now()), G.Top(old(Now()))), r)
    {
      if stack == [] {
        return Trap(StackUnderflow);
      }
      r := Push(stack[|stack| - 1]);
    }

    method ExecuteInstruction(instr: Instruction) returns (r: Fallible<bool>)
      requires Valid() && callStack != []
      modifies this`stack, this`globals, this`callStack, this`heapArrays, this`freeArraySlots, this`nextArrayId, this`pc,
        this`output, this`gcCollections, this`gcObjectsFreed
      ensures Follows(G.Exec(program, instr, old(Now())), r)
      ensures r.Trap? ==> pc == old(pc) && callStack == old(callStack) && output == old(output)
    {
      hide H.HeapOk;
      match instr.opcode {
        case LoadConst => r := Push(G.Int(instr.arg1));
        case LoadLocal => r := LoadLocal(instr.arg1);
        case StoreLocal => r := StoreLocal(instr.arg1);
        case LoadGlobal => r := LoadGlobal(instr.arg1);
        case StoreGlobal => r := StoreGlobal(instr.arg1);
        case Neg => r := Unary(instr.opcode);
        case Not => r := Unary(instr.opcode);
        case Jump =>
          pc := AsUsize(instr.arg1);
          r := Ok(false);
        case JumpIfFalse => r := Branch(instr.arg1, true);
        case JumpIfTrue => r := Branch(instr.arg1, false);
        case Call => r := Call(instr.arg1, instr.arg2);
        case Return => r := Return();
        case ArrayLoad => r := LoadElement(instr.arg1, instr.arg2);
        case ArrayStore => r := StoreElement(instr.arg1, instr.arg2);
        case LocalArrayLoad => r := LoadLocalElement(instr.arg1, instr.arg2);
        case LocalArrayStore => r := StoreLocalElement(instr.arg1, instr.arg2);
        case AllocArray => r := NewArray(instr.arg1);
        case ArrayNew => r := NewArray(instr.arg1);
        case Print => r := Print();
        case Pop =>
          var dropped := Pop();
          r := if dropped.Ok? then Ok(true) else Trap(dropped.code);
        case Dup => r := Dup();
        case Halt =>
          callStack := [];
          r := Ok(false);
        case _ => r := Binary(instr.opcode);
      }
    }

    // -------------------------------------------------------------- whole runs

    method TrapResult(code: TrapCode) returns (result: M.Result)
      ensures result == G.TrapResult(Now(), code, |stack|)
    {
      return M.Result(false, 0, code, cycles, output, pc, |stack|, |callStack|);
    }

    /** One turn of the run loop; a result when the run is over. The heap stays sound. */
    method TakeTurn() returns (result: Option<M.Result>)
      requires Valid() && callStack != []
      modifies this
      ensures match G.TakeTurn(program, old(Now()))
        case Next(s) => result == None && Now() == s && Valid() && callStack != []
        case Stop(r) => result == Some(r)
    {
      hide G.Exec, H.HeapOk, G.Roots;
      H.TurnKeepsHeap(program, Now());
      if cycles >= MAX_CYCLES {
        var limit := TrapResult(CycleLimit);
        return Some(limit);
      }
      if pc >= |program.instructions| {
        var outside := TrapResult(InvalidInstruction);
        return Some(outside);
      }
      H.Ticks(Now(), Now().(cycles := cycles + 1));
      cycles := cycles + 1;
      var outcome := ExecuteInstruction(program.instructions[pc]);
      if outcome.Trap? {
        var trapped := TrapResult(outcome.code);
        return Some(trapped);
      }
      if outcome.value {
        pc := pc + 1;
      }
      if callStack == [] {
        var value := 0;
        if stack != [] {
          value := G.ToInt(stack[|stack| - 1]);
          stack := stack[..|stack| - 1];
        }
        return Some(M.Result(true, value, NoTrap, cycles, output, pc, |stack|, |callStack|));
      }
      return None;
    }

    /** Gives every global array a heap array, visiting the globals in the order `arrays` reports. */
    method InitializeGlobals() returns (ghost arrays: seq<GlobalInfo>)
      requires Now() == G.Blank() && Valid() && M.Validate(program).None?
      modifies this`globals, this`heapArrays, this`freeArraySlots, this`nextArrayId, this`gcCollections, this`gcObjectsFreed
      ensures Now() == G.AllocGlobals(G.Blank(), arrays) && Valid()
      ensures forall g <- arrays :: g.isArray && exists x <- program.globals :: program.globals[x] == g
      ensures forall x <- program.globals :: program.globals[x].isArray ==> program.globals[x] in arrays
    {
      hide H.HeapOk, G.Alloc, G.AllocGlobals;
      arrays := [];
      H.NoGlobals(G.Blank());
      var names := program.globals.Keys;
      while names != {}
        invariant names <= program.globals.Keys
        invariant Now() == G.AllocGlobals(G.Blank(), arrays) && Valid() && |globals| == MAX_GLOBAL_SLOTS
        invariant forall g <- arrays :: g.isArray && exists x <- program.globals :: program.globals[x] == g
        invariant forall x <- program.globals.Keys - names :: program.globals[x].isArray ==> program.globals[x] in arrays
        decreases |names|
      {
        var name :| name in names;
        var info := program.globals[name];
        if info.isArray {
          H.GlobalsSnoc(G.Blank(), arrays, info);
          H.GlobalsKeepHeap(G.Blank(), arrays + [info]);
          H.BlankHeap();
          var id := AllocArray(info.arraySize);
          G.AllocKeepsStack(G.AllocGlobals(G.Blank(), arrays), info.arraySize);
          assert info.slot < MAX_GLOBAL_SLOTS;
          globals := globals[info.slot := G.ArrayRef(id)];
          arrays := arrays + [info];
        }
        names := names - {name};
      }
    }

    /**
     * A fresh VM whose program passes the checks runs it as the machine does, for some order of the global arrays.
     * The checks themselves are those of the reference VM.
     */
    method Run() returns (result: M.Result, ghost arrays: seq<GlobalInfo>)
      requires Now() == G.Blank() && Valid() && M.Validate(program).None?
      modifies this
      ensures result == G.Run(program, arrays)
      ensures forall g <- arrays :: g.isArray && exists x <- program.globals :: program.globals[x] == g
      ensures forall x <- program.globals :: program.globals[x].isArray ==> program.globals[x] in arrays
    {
      hide G.TakeTurn, H.HeapOk, G.AllocGlobals, M.Validate, G.NewFrame;
      CheckedMain(program);
      var main := program.functions[program.mainFuncId];
      arrays := InitializeGlobals();
      H.BootHeap(program, arrays);
      H.GlobalsKeepFrames(G.Blank(), arrays);
      pc := main.entryPc;
      var frame := EnterFrame([], main.localCount, None);
      callStack := callStack + [frame];
      assert Now() == G.Boot(program, arrays);
      while true
        invariant Valid() && callStack != []
        invariant G.RunFrom(program, Now()) == G.RunFrom(program, G.Boot(program, arrays))
        decreases MAX_CYCLES - cycles
      {
        var done := TakeTurn();
        if done.Some? {
          result := done.value;
          return;
        }
      }
    }
  }

  lemma CheckedMain(p: CompiledProgram)
    requires M.Validate(p).None?
    ensures p.mainFuncId in p.functions
  {
  }
}
