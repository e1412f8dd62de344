/** The reference VM as an object: fields updated in place by each instruction, proved to follow the state machine. */
module ReferenceVm {
  import opened Common
  import opened Fallibles
  import opened Int32
  import opened Limits
  import opened Bytecode
  import L = MachineLimits
  import M = Machine

  function Lift(slot: M.Slot): Fallible<nat> {
    match slot
    case At(i) => Ok(i)
    case Bad(code) => Trap(code)
  }

  predicate Checked(p: CompiledProgram) {
    forall id <- p.functions :: p.functions[id].paramCount <= p.functions[id].localCount <= MAX_LOCAL_SLOTS
  }

  lemma EnteredIs(locals: seq<int>, base: nat, args: seq<int>, localCount: nat, locals': seq<int>)
    requires |args| <= localCount && base + localCount <= |locals| == |locals'|
    requires forall k :: 0 <= k < |locals| ==>
      locals'[k] == (if base <= k < base + |args| then args[k - base] else if base + |args| <= k < base + localCount then I64_MIN else locals[k])
    ensures locals' == M.EnterFrame(locals, base, args, localCount)
  {
  }

  class Vm {
    const program: CompiledProgram
    var stack: seq<int>
    var locals: seq<int>
    var globals: seq<int>
    var callStack: seq<M.Frame>
    var pc: nat
    var cycles: nat
    var output: seq<int>

    /** The fields, as a state of the machine. */
    function Now(): M.State
      reads this
    {
      M.State(stack, locals, globals, callStack, pc, cycles, output)
    }

    predicate Valid()
      reads this
    {
      |locals| >= MAX_LOCAL_SLOTS && callStack != [] && Checked(program)
    }

    /** The outcome of an instruction is the machine's: Ok(true) to advance, Ok(false) after a jump. */
    predicate Follows(step: M.Step, outcome: Fallible<bool>)
      reads this
    {
      match step
      case Advance(s) => outcome == Ok(true) && Now() == s
      case Jumped(s) => outcome == Ok(false) && Now() == s
      case Trapped(code, depth) => outcome == Trap(code) && |stack| == depth
    }

    constructor (program: CompiledProgram)
      ensures this.program == program && Now() == M.Blank()
    {
      this.program := program;
      stack := [];
      locals := seq(MAX_LOCAL_SLOTS, _ => I64_MIN);
      globals := seq(MAX_GLOBAL_SLOTS, _ => 0);
      callStack := [];
      pc := 0;
      cycles := 0;
      output := [];
    }

    // -------------------------------------------------------------- operand stack and addressing

    method Pop() returns (r: Fallible<int>)
      modifies this`stack
      ensures old(stack) == [] ==> r == Trap(StackUnderflow) && stack == []
      ensures old(stack) != [] ==> r == Ok(old(stack)[|old(stack)| - 1]) && stack == old(stack)[..|old(stack)| - 1]
    {
      if stack == [] {
        return Trap(StackUnderflow);
      }
      r := Ok(stack[|stack| - 1]);
      stack := stack[..|stack| - 1];
    }

    method Push(v: int) returns (r: Fallible<bool>)
      modifies this`stack
      ensures Follows(M.Push(old(Now()), v), r)
    {
      if |stack| >= MAX_OPERAND_STACK {
        return Trap(StackOverflow);
      }
      stack := stack + [v];
      return Ok(true);
    }

    function CurrentLocalSlot(raw: int): (r: Fallible<nat>)
      reads this
      ensures r == Lift(M.LocalSlot(program, Now(), raw))
    {
      if raw < 0 then Trap(InvalidInstruction)
      else if callStack == [] then Trap(InvalidInstruction)
      else
        var frame := callStack[|callStack| - 1];
        if frame.funcId !in program.functions then Trap(UndefinedFunction)
        else if raw >= program.functions[frame.funcId].localCount then Trap(InvalidInstruction)
        else
          var slot := frame.basePtr + raw;
          if slot >= MAX_LOCAL_SLOTS then Trap(StackOverflow) else Ok(slot)
    }

    function CheckedGlobalSlot(raw: int): (r: Fallible<nat>)
      reads this
      ensures r == Lift(M.GlobalSlot(Now(), raw))
    {
      if raw < 0 then Trap(InvalidInstruction) else if raw >= |globals| then Trap(InvalidInstruction) else Ok(raw)
    }

    static function ArraySize(raw: int): Fallible<nat> {
      if raw < 0 then Trap(InvalidInstruction) else Ok(raw)
    }

    static function ArrayIndex(raw: int, size: nat): Fallible<nat> {
      if raw < 0 then Trap(ArrayOutOfBounds) else if raw >= size then Trap(ArrayOutOfBounds) else Ok(raw)
    }

    function GlobalArrayRange(rawBase: int, rawSize: int): (r: Fallible<(nat, nat)>)
      reads this
      ensures r == match M.GlobalArrayBase(Now(), rawBase, rawSize) case At(base) => Ok((base, rawSize)) case Bad(code) => Trap(code)
    {
      var base :- CheckedGlobalSlot(rawBase);
      var size :- ArraySize(rawSize);
      if base + size > |globals| then Trap(InvalidInstruction) else Ok((base, size))
    }

    function CheckedArrayBase(refSlot: nat, size: nat): (r: Fallible<nat>)
      requires refSlot < |locals|
      reads this
      ensures r == Lift(M.LocalArrayBase(Now(), refSlot, size))
    {
      var base := locals[refSlot];
      if base == I64_MIN then Trap(UndefinedLocal)
      else if base < 0 then Trap(InvalidInstruction)
      else if base + size > |locals| then Trap(InvalidInstruction)
      else Ok(base)
    }

    // -------------------------------------------------------------- instructions

    method LoadLocal(raw: int) returns (r: Fallible<bool>)
      requires Valid()
      modifies this`stack
      ensures Follows(M.LoadLocal(program, old(Now()), raw), r)
    {
      var slot :- CurrentLocalSlot(raw);
      var value := locals[slot];
      if value == I64_MIN {
        return Trap(UndefinedLocal);
      }
      r := Push(value);
    }

    method StoreLocal(raw: int) returns (r: Fallible<bool>)
      requires Valid()
      modifies this`stack, this`locals
      ensures |locals| >= |old(locals)|
      ensures Follows(M.StoreLocal(program, old(Now()), raw), r)
    {
      var value :- Pop();
      var slot :- CurrentLocalSlot(raw);
      locals := locals[slot := value];
      return Ok(true);
    }

    method LoadGlobal(raw: int) returns (r: Fallible<bool>)
      modifies this`stack
      ensures Follows(M.LoadGlobal(old(Now()), raw), r)
    {
      var slot :- CheckedGlobalSlot(raw);
      r := Push(globals[slot]);
    }

    method StoreGlobal(raw: int) returns (r: Fallible<bool>)
      modifies this`stack, this`globals
      ensures Follows(M.StoreGlobal(old(Now()), raw), r)
    {
      var slot :- CheckedGlobalSlot(raw);
      var value :- Pop();
      globals := globals[slot := value];
      return Ok(true);
    }

    method Binary(op: Opcode) returns (r: Fallible<bool>)
      requires M.IsBinary(op)
      modifies this`stack
      ensures Follows(M.ExecBinary(op, old(Now())), r)
    {
      var b :- Pop();
      var a :- Pop();
      if op == Opcode.Div && b == 0 {
        return Trap(DivideByZero);
      }
      r := Push(M.Arith(op, a, b));
    }

    method Unary(op: Opcode) returns (r: Fallible<bool>)
      requires op == Opcode.Neg || op == Opcode.Not
      modifies this`stack
      ensures Follows(M.ExecUnary(op, old(Now())), r)
    {
      var a :- Pop();
      if op == Opcode.Neg {
        r := Push(NormalizeI32(Wrap64(-a)));
      } else {
        r := Push(if a == 0 then 1 else 0);
      }
    }

    method Branch(target: I32, onZero: bool) returns (r: Fallible<bool>)
      modifies this`stack, this`pc
      ensures Follows(M.Branch(old(Now()), target, onZero), r)
      ensures r.Trap? ==> pc == old(pc)
    {
      var condition :- Pop();
      if (condition == 0) == onZero {
        pc := AsUsize(target);
        return Ok(false);
      }
      return Ok(true);
    }

    /** Moves the topmost operands into the new frame, the last one first. */
    method TakeArguments(base: nat, count: nat) returns (r: Fallible<bool>)
      requires base + count <= |locals|
      modifies this`stack, this`locals
      ensures |locals| == |old(locals)|
      ensures if |old(stack)| < count then r == Trap(StackUnderflow) && stack == [] else
        && r == Ok(true) && stack == old(stack)[..|old(stack)| - count]
        && forall k :: 0 <= k < |locals| ==>
          locals[k] == if base <= k < base + count then old(stack)[|old(stack)| - count + k - base] else old(locals)[k]
    {
      var i: nat := count;
      while i > 0
        invariant i <= count && |locals| == |old(locals)|
        invariant count - i <= |old(stack)| && stack == old(stack)[..|old(stack)| - (count - i)]
        invariant forall k :: 0 <= k < |locals| ==>
          locals[k] == if base + i <= k < base + count then old(stack)[|old(stack)| - count + k - base] else old(locals)[k]
      {
        var argument :- Pop();
        i := i - 1;
        locals := locals[base + i := argument];
      }
      return Ok(true);
    }

    method ClearLocals(from: nat, to: nat)
      requires from <= to <= |locals|
      modifies this`locals
      ensures |locals| == |old(locals)|
      ensures forall k :: 0 <= k < |locals| ==> locals[k] == if from <= k < to then I64_MIN else old(locals)[k]
    {
      for i := from to to
        invariant |locals| == |old(locals)|
        invariant forall k :: 0 <= k < |locals| ==> locals[k] == if from <= k < i then I64_MIN else old(locals)[k]
      {
        locals := locals[i := I64_MIN];
      }
    }

    method Call(rawId: int, rawCount: int) returns (r: Fallible<bool>)
      requires Valid()
      modifies this`stack, this`locals, this`callStack, this`pc
      ensures |locals| >= |old(locals)|
      ensures Follows(M.ExecCall(program, old(Now()), rawId, rawCount), r)
      ensures r.Trap? ==> pc == old(pc) && callStack == old(callStack)
    {
      hide M.EnterFrame;
      if rawId < 0 {
        return Trap(InvalidInstruction);
      }
      if rawCount < 0 {
        return Trap(InvalidInstruction);
      }
      if rawId !in program.functions {
        return Trap(UndefinedFunction);
      }
      var f := program.functions[rawId];
      if rawCount != f.paramCount {
        return Trap(InvalidInstruction);
      }
      if |callStack| >= MAX_FRAMES {
        return Trap(StackOverflow);
      }
      var caller := callStack[|callStack| - 1];
      var base := caller.basePtr + if caller.funcId in program.functions then program.functions[caller.funcId].localCount else 0;
      if base + f.localCount > MAX_LOCAL_SLOTS {
        return Trap(StackOverflow);
      }
      var _ :- TakeArguments(base, rawCount);
      ClearLocals(base + rawCount, base + f.localCount);
      EnteredIs(old(locals), base, old(stack)[|old(stack)| - rawCount..], f.localCount, locals);
      callStack := callStack + [M.Frame(Some(pc + 1), base, rawId)];
      pc := f.entryPc;
      return Ok(false);
    }

    method Return() returns (r: Fallible<bool>)
      requires callStack != []
      modifies this`stack, this`callStack, this`pc
      ensures Follows(M.ExecReturn(old(Now())), r)
      ensures r.Trap? ==> pc == old(pc) && callStack == old(callStack)
    {
      var value :- Pop();
      var frame := callStack[|callStack| - 1];
      callStack := callStack[..|callStack| - 1];
      stack := stack + [value];
      if frame.returnPc.Some? {
        pc := frame.returnPc.value;
      }
      return Ok(false);
    }

    method LoadElement(rawBase: int, rawSize: int) returns (r: Fallible<bool>)
      modifies this`stack
      ensures Follows(M.ArrayLoad(old(Now()), rawBase, rawSize), r)
    {
      var range :- GlobalArrayRange(rawBase, rawSize);
      var raw :- Pop();
      var index :- ArrayIndex(raw, range.1);
      r := Push(globals[range.0 + index]);
    }

    method StoreElement(rawBase: int, rawSize: int) returns (r: Fallible<bool>)
      modifies this`stack, this`globals
      ensures Follows(M.ArrayStore(old(Now()), rawBase, rawSize), r)
    {
      var range :- GlobalArrayRange(rawBase, rawSize);
      var value :- Pop();
      var raw :- Pop();
      var index :- ArrayIndex(raw, range.1);
      globals := globals[range.0 + index := value];
      return Ok(true);
    }

    method LoadLocalElement(rawSlot: int, rawSize: int) returns (r: Fallible<bool>)
      requires Valid()
      modifies this`stack
      ensures Follows(M.LocalArrayLoad(program, old(Now()), rawSlot, rawSize), r)
    {
      var size :- ArraySize(rawSize);
      var raw :- Pop();
      var index :- ArrayIndex(raw, size);
      var slot :- CurrentLocalSlot(rawSlot);
      var base :- CheckedArrayBase(slot, size);
      r := Push(locals[base + index]);
    }

    method StoreLocalElement(rawSlot: int, rawSize: int) returns (r: Fallible<bool>)
      requires Valid()
      modifies this`stack, this`locals
      ensures |locals| >= |old(locals)|
      ensures Follows(M.LocalArrayStore(program, old(Now()), rawSlot, rawSize), r)
    {
      var size :- ArraySize(rawSize);
      var value :- Pop();
      var raw :- Pop();
      var index :- ArrayIndex(raw, size);
      var slot :- CurrentLocalSlot(rawSlot);
      var base :- CheckedArrayBase(slot, size);
      locals := locals[base + index := value];
      return Ok(true);
    }

    method AllocArray(rawSize: int) returns (r: Fallible<bool>)
      modifies this`stack, this`locals
      ensures |locals| >= |old(locals)|
      ensures Follows(M.AllocArray(old(Now()), rawSize), r)
    {
      var size :- ArraySize(rawSize);
      var base := |locals|;
      locals := locals + seq(size, _ => 0);
      r := Push(base);
    }

    method Print() returns (r: Fallible<bool>)
      modifies this`stack, this`output
      ensures Follows(if old(stack) == [] then M.Trapped(StackUnderflow, 0)
                      else M.Advance(M.Drop(old(Now()), 1).(output := old(output) + [M.Top(old(Now()))])), r)
      ensures r.Trap? ==> output == old(output)
    {
      var value :- Pop();
      output := output + [value];
      return Ok(true);
    }

    method Dup() returns (r: Fallible<bool>)
      modifies this`stack
      ensures Follows(if old(stack) == [] then M.Trapped(StackUnderflow, 0) else M.Push(old(Now()), M.Top(old(Now()))), r)
    {
      if stack == [] {
        return Trap(StackUnderflow);
      }
      r := Push(stack[|stack| - 1]);
    }

    method Halt() returns (r: Fallible<bool>)
      modifies this`stack, this`callStack
      ensures r == Ok(false) && Now() == M.ExecHalt(old(Now())).st
    {
      var value := 0;
      if stack != [] {
        value := stack[|stack| - 1];
        stack := stack[..|stack| - 1];
      }
      callStack := [];
      stack := stack + [value];
      return Ok(false);
    }

    method ExecuteInstruction(instr: Instruction) returns (r: Fallible<bool>)
      requires Valid()
      modifies this`stack, this`locals, this`globals, this`callStack, this`pc, this`output
      ensures Follows(M.Exec(program, instr, old(Now())), r)
      ensures r.Trap? ==> pc == old(pc) && callStack == old(callStack) && output == old(output)
      ensures |locals| >= |old(locals)|
    {
      match instr.opcode {
        case LoadConst => r := Push(instr.arg1);
        case LoadLocal => r := LoadLocal(instr.arg1);
        case StoreLocal => r := StoreLocal(instr.arg1);
        case LoadGlobal => r := LoadGlobal(instr.arg1);
        case StoreGlobal => r := StoreGlobal(instr.arg1);
        case Neg => r := Unary(instr.opcode);
        case Not => r := Unary(instr.opcode);
        case Jump =>
          pc := AsUsize(instr.arg1);
          r := Ok(false);
        case JumpIfFalse => r := Branch(instr.arg1, true);
        case JumpIfTrue => r := Branch(instr.arg1, false);
        case Call => r := Call(instr.arg1, instr.arg2);
        case Return => r := Return();
        case ArrayLoad => r := LoadElement(instr.arg1, instr.arg2);
        case ArrayStore => r := StoreElement(instr.arg1, instr.arg2);
        case LocalArrayLoad => r := LoadLocalElement(instr.arg1, instr.arg2);
        case LocalArrayStore => r := StoreLocalElement(instr.arg1, instr.arg2);
        case AllocArray => r := AllocArray(instr.arg1);
        case ArrayNew => r := AllocArray(instr.arg1);
        case Print => r := Print();
        case Pop =>
          var dropped := Pop();
          r := if dropped.Ok? then Ok(true) else Trap(dropped.code);
        case Dup => r := Dup();
        case Halt => r := Halt();
        case _ => r := Binary(instr.opcode);
      }
    }

    // -------------------------------------------------------------- whole runs

    /** The checks before the first instruction. Functions are visited in no particular order. */
    method ValidateProgram() returns (bad: Option<TrapCode>)
      ensures bad.None? && program.mainFuncId in program.functions <==> M.Validate(program).None?
      ensures bad.None? ==> Checked(program)
      ensures bad.Some? ==> bad.value == InvalidInstruction || bad.value == StackOverflow
    {
      if |program.instructions| > MAX_INSTRUCTIONS {
        return Some(InvalidInstruction);
      }
      var ids := program.functions.Keys;
      while ids != {}
        invariant ids <= program.functions.Keys
        invariant forall id <- program.functions.Keys - ids ::
          program.functions[id].paramCount <= program.functions[id].localCount <= MAX_LOCAL_SLOTS
      {
        var id :| id in ids;
        if program.functions[id].paramCount > program.functions[id].localCount {
          return Some(InvalidInstruction);
        }
        if program.functions[id].localCount > MAX_LOCAL_SLOTS {
          return Some(StackOverflow);
        }
        ids := ids - {id};
      }
      var needed := RequiredGlobalSlots();
      if needed.None? || needed.value > MAX_GLOBAL_SLOTS {
        return Some(InvalidInstruction);
      }
      return None;
    }

    /** One past the highest slot a global takes; None for an array of no elements. */
    method RequiredGlobalSlots() returns (needed: Option<nat>)
      ensures needed.None? <==> exists x <- program.globals :: program.globals[x].isArray && program.globals[x].arraySize == 0
      ensures needed.Some? ==> forall x <- program.globals :: program.globals[x].slot + M.GlobalWidth(program.globals[x]) <= needed.value
      ensures needed.Some? && needed.value != 0 ==>
        exists x <- program.globals :: program.globals[x].slot + M.GlobalWidth(program.globals[x]) == needed.value
    {
      var max := 0;
      var names := program.globals.Keys;
      while names != {}
        invariant names <= program.globals.Keys
        invariant forall x <- program.globals.Keys - names :: !(program.globals[x].isArray && program.globals[x].arraySize == 0)
        invariant forall x <- program.globals.Keys - names :: program.globals[x].slot + M.GlobalWidth(program.globals[x]) <= max
        invariant max == 0 || exists x <- program.globals :: program.globals[x].slot + M.GlobalWidth(program.globals[x]) == max
      {
        var x :| x in names;
        var g := program.globals[x];
        if g.isArray && g.arraySize == 0 {
          return None;
        }
        var end := g.slot + if g.isArray then g.arraySize else 1;
        if end > max {
          max := end;
        }
        names := names - {x};
      }
      return Some(max);
    }

    method TrapResult(code: TrapCode) returns (result: M.Result)
      ensures result == M.TrapResult(Now(), code, |stack|)
    {
      return M.Result(false, 0, code, cycles, output, pc, |stack|, |callStack|);
    }

    /** One turn of the run loop; a result when the run is over. */
    method TakeTurn() returns (result: Option<M.Result>)
      requires Valid()
      modifies this
      ensures match M.TakeTurn(program, old(Now()))
        case Next(s) => result == None && Now() == s && Valid()
        case Stop(r) => result == Some(r)
    {
      hide M.Exec;
      if cycles >= MAX_CYCLES {
        var limit := TrapResult(CycleLimit);
        return Some(limit);
      }
      if pc >= |program.instructions| {
        var outside := TrapResult(InvalidInstruction);
        return Some(outside);
      }
      cycles := cycles + 1;
      var outcome := ExecuteInstruction(program.instructions[pc]);
      if outcome.Trap? {
        var trapped := TrapResult(outcome.code);
        return Some(trapped);
      }
      if outcome.value {
        pc := pc + 1;
      }
      if callStack == [] {
        var value := 0;
        if stack != [] {
          value := stack[|stack| - 1];
          stack := stack[..|stack| - 1];
        }
        return Some(M.Result(true, value, NoTrap, cycles, output, pc, |stack|, |callStack|));
      }
      return None;
    }

    /**
     * A fresh VM runs its program as the machine does, and reports a full stack only where the next instruction did not
     * fit; a program that fails the checks does not start.
     */
    method Run() returns (result: M.Result)
      requires Now() == M.Blank()
      modifies this
      ensures M.Validate(program).None? ==> result == M.Run(program)
      ensures M.Validate(program).None? && result.trap == StackOverflow ==> L.StoppedFull(program, result)
      ensures result.trap == CycleLimit ==> result.cycles == MAX_CYCLES
      ensures M.Validate(program).Some? ==>
        !result.success && result.cycles == 0 && result.output == [] && result.trap in {InvalidInstruction, StackOverflow, UndefinedFunction}
    {
      hide M.Exec, M.Validate, M.TakeTurn, L.StoppedFull;
      L.ValidatedRunsAreCut(program);
      var bad := ValidateProgram();
      if bad.Some? {
        result := TrapResult(bad.value);
        return;
      }
      if program.mainFuncId !in program.functions {
        result := TrapResult(UndefinedFunction);
        return;
      }
      var main := program.functions[program.mainFuncId];
      pc := main.entryPc;
      callStack := callStack + [M.Frame(None, 0, main.id)];
      assert Now() == M.Boot(program);
      while true
        invariant Valid()
        invariant M.RunFrom(program, Now()) == M.RunFrom(program, M.Boot(program))
        decreases MAX_CYCLES - cycles
      {
        var done := TakeTurn();
        if done.Some? {
          return done.value;
        }
      }
    }
  }
}
