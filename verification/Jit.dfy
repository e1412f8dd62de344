/** The JIT: which programs it takes, and the native code it makes of them. */
module Jit {
  import opened Common
  import opened Fallibles
  import opened Int32
  import opened Limits
  import opened Bytecode
  import opened X86
  import opened Cpu

  // ---------------------------------------------------------------- the gate

  predicate SupportsOpcode(op: Opcode) {
    op in {Opcode.LoadConst, Opcode.LoadLocal, Opcode.StoreLocal, Opcode.Add, Opcode.Sub, Opcode.Mul, Opcode.Neg, Opcode.Eq,
           Opcode.Ne, Opcode.Lt, Opcode.Gt, Opcode.Le, Opcode.Ge, Opcode.Not, Opcode.Pop, Opcode.Dup, Opcode.Return}
  }

  /** From entry to end, supported instructions only, and the first return is the last of them. */
  predicate StraightTo(code: seq<Instruction>, entry: nat, end: nat) {
    && entry <= end < |code| && code[end].opcode == Opcode.Return
    && forall k :: entry <= k < end ==> SupportsOpcode(code[k].opcode) && code[k].opcode != Opcode.Return
  }

  ghost predicate Supported(p: CompiledProgram, entry: nat) {
    |p.functions| == 1 && exists end :: StraightTo(p.instructions, entry, end)
  }

  /** The verifier's promise to the JIT: no possible trap, one function, and supported code up to its return. */
  ghost predicate Eligible(p: CompiledProgram, traps: set<TrapCode>) {
    traps == {} && p.mainFuncId in p.functions && Supported(p, p.functions[p.mainFuncId].entryPc)
  }

  /** What native code does not cover: division, logic, globals, arrays, control flow, calls and output. */
  lemma UnsupportedOpcodes(op: Opcode)
    ensures !SupportsOpcode(op) <==>
      op in {Opcode.Div, Opcode.And, Opcode.Or, Opcode.LoadGlobal, Opcode.StoreGlobal, Opcode.Jump, Opcode.JumpIfFalse,
             Opcode.JumpIfTrue, Opcode.Call, Opcode.ArrayLoad, Opcode.ArrayStore, Opcode.LocalArrayLoad, Opcode.LocalArrayStore,
             Opcode.AllocArray, Opcode.ArrayNew, Opcode.Print, Opcode.Halt}
  {
  }

  /** The scan both the verifier and the JIT make: the address of the first return, if nothing before it is in the way. */
  method FindReturn(code: seq<Instruction>, entry: nat) returns (end: Option<nat>)
    ensures match end
            case Some(e) => StraightTo(code, entry, e)
            case None => forall e :: !StraightTo(code, entry, e)
  {
    var pc := entry;
    while pc < |code|
      invariant entry <= pc
      invariant forall k :: entry <= k < pc && k < |code| ==> SupportsOpcode(code[k].opcode) && code[k].opcode != Opcode.Return
    {
      if !SupportsOpcode(code[pc].opcode) {
        return None;
      }
      if code[pc].opcode == Opcode.Return {
        return Some(pc);
      }
      pc := pc + 1;
    }
    return None;
  }

  method JitStatus(p: CompiledProgram, traps: set<TrapCode>) returns (ok: bool)
    ensures ok <==> Eligible(p, traps)
  {
    if traps != {} {
      return false;
    }
    if |p.functions| != 1 {
      return false;
    }
    if p.mainFuncId !in p.functions {
      return false;
    }
    var end := FindReturn(p.instructions, p.functions[p.mainFuncId].entryPc);
    return end.Some?;
  }

  // ---------------------------------------------------------------- lowering

  /** The displacement of a local from the frame pointer. */
  function LocalOffset(slot: I32): I32 {
    NormalizeI32(-(8 + slot * 8))
  }

  function Prologue(): seq<Native> {
    [PushReg(RBP), Move(RBP, RSP), SubImm(RSP, 8192)]
  }

  function Epilogue(): seq<Native> {
    [Move(RSP, RBP), PopReg(RBP), Ret]
  }

  function LowerArithmetic(n: Native): seq<Native> {
    [PopReg(RCX), PopReg(RAX), n, SignExtend(RAX, RAX), PushReg(RAX)]
  }

  function LowerComparison(c: Condition): seq<Native> {
    [PopReg(RCX), PopReg(RAX), CmpReg(RAX, RCX), SetByte(c, RAX), ZeroExtend(RAX, RAX), PushReg(RAX)]
  }

  /** The native code of one instruction. */
  function Lower(instr: Instruction): seq<Native>
    requires SupportsOpcode(instr.opcode)
  {
    match instr.opcode
    case LoadConst => [MoveImm(RAX, instr.arg1), PushReg(RAX)]
    case LoadLocal => [Load(RAX, RBP, LocalOffset(instr.arg1)), PushReg(RAX)]
    case StoreLocal => [PopReg(RAX), Store(RBP, LocalOffset(instr.arg1), RAX)]
    case Add => LowerArithmetic(AddReg(RAX, RCX))
    case Sub => LowerArithmetic(SubReg(RAX, RCX))
    case Mul => LowerArithmetic(ImulReg(RAX, RCX))
    case Neg => [PopReg(RAX), NegReg(RAX), PushReg(RAX)]
    case Eq => LowerComparison(IfEqual)
    case Ne => LowerComparison(IfNotEqual)
    case Lt => LowerComparison(IfLess)
    case Gt => LowerComparison(IfGreater)
    case Le => LowerComparison(IfLessEqual)
    case Ge => LowerComparison(IfGreaterEqual)
    case Not => [PopReg(RAX), TestReg(RAX, RAX), SetByte(IfEqual, RAX), ZeroExtend(RAX, RAX), PushReg(RAX)]
    case Return => [PopReg(RAX)] + Epilogue()
    case Pop => [PopReg(RAX)]
    case Dup => [PopReg(RAX), PushReg(RAX), PushReg(RAX)]
  }

  /** The native code of the instructions from pc up to and including end. */
  function LowerAll(code: seq<Instruction>, pc: nat, end: nat): seq<Native>
    requires pc <= end < |code| && forall k :: pc <= k <= end ==> SupportsOpcode(code[k].opcode)
    decreases end - pc
  {
    Lower(code[pc]) + if pc == end then [] else LowerAll(code, pc + 1, end)
  }

  // ---------------------------------------------------------------- the compiler as it runs

  /** The code buffer, to which every emitter appends. */
  class MachineCode {
    var code: seq<Byte>

    constructor ()
      ensures code == []
    {
      code := [];
    }

    method Emit(bytes: seq<Byte>)
      modifies this
      ensures code == old(code) + bytes
    {
      code := code + bytes;
    }

    method EmitRex(w: bool, r: Reg, b: Reg)
      modifies this
      ensures code == old(code) + Rex(w, r, b)
    {
      var rex := 0x40;
      if w {
        rex := rex + 0x08;
      }
      if r >= 8 {
        rex := rex + 0x04;
      }
      if b >= 8 {
        rex := rex + 0x01;
      }
      if rex != 0x40 {
        Emit([rex]);
      }
    }

    method EmitModRm(mode: nat, reg: Reg, rm: Reg)
      requires mode < 4
      modifies this
      ensures code == old(code) + [ModRm(mode, reg, rm)]
    {
      Emit([64 * mode + 8 * (reg % 8) + rm % 8]);
    }

    method Push(reg: Reg)
      modifies this
      ensures code == old(code) + Encode(PushReg(reg))
    {
      if reg >= 8 {
        Emit([0x41]);
      }
      Emit([0x50 + reg % 8]);
    }

    method Pop(reg: Reg)
      modifies this
      ensures code == old(code) + Encode(PopReg(reg))
    {
      if reg >= 8 {
        Emit([0x41]);
      }
      Emit([0x58 + reg % 8]);
    }

    method MovImm32(dst: Reg, imm: I32)
      modifies this
      ensures code == old(code) + Encode(MoveImm(dst, imm))
    {
      EmitRex(true, RAX, dst);
      Emit([0xC7]);
      EmitModRm(3, RAX, dst);
      Emit(LittleEndian(imm));
    }

    /** An operation on two registers: prefix, opcode bytes, operands. */
    method EmitRegisters(reg: Reg, op: seq<Byte>, rm: Reg)
      modifies this
      ensures code == old(code) + Rex(true, reg, rm) + op + [ModRm(3, reg, rm)]
    {
      EmitRex(true, reg, rm);
      Emit(op);
      EmitModRm(3, reg, rm);
    }

    method Mov(dst: Reg, src: Reg)
      modifies this
      ensures code == old(code) + Encode(Move(dst, src))
    {
      EmitRegisters(src, [0x89], dst);
    }

    method EmitMemory(reg: Reg, base: Reg, disp: I32)
      modifies this
      ensures code == old(code) + MemBytes(reg, base, disp)
    {
      if disp == 0 && base != RBP {
        EmitModRm(0, reg, base);
      } else if -128 <= disp <= 127 {
        EmitModRm(1, reg, base);
        Emit([AsByte(disp)]);
      } else {
        EmitModRm(2, reg, base);
        Emit(LittleEndian(disp));
      }
      if base % 8 == 4 {
        Emit([0x24]);
      }
    }

    method MovLoad(dst: Reg, base: Reg, disp: I32)
      modifies this
      ensures code == old(code) + Encode(Native.Load(dst, base, disp))
    {
      EmitRex(true, dst, base);
      Emit([0x8B]);
      EmitMemory(dst, base, disp);
    }

    method MovStore(base: Reg, disp: I32, src: Reg)
      modifies this
      ensures code == old(code) + Encode(Native.Store(base, disp, src))
    {
      EmitRex(true, src, base);
      Emit([0x89]);
      EmitMemory(src, base, disp);
    }

    method SubImmediate(dst: Reg, imm: I32)
      modifies this
      ensures code == old(code) + Encode(SubImm(dst, imm))
    {
      EmitRex(true, RAX, dst);
      if -128 <= imm <= 127 {
        Emit([0x83]);
        EmitModRm(3, 5, dst);
        Emit([AsByte(imm)]);
      } else {
        Emit([0x81]);
        EmitModRm(3, 5, dst);
        Emit(LittleEndian(imm));
      }
    }

    method SetCondition(c: Condition, dst: Reg)
      modifies this
      ensures code == old(code) + Encode(SetByte(c, dst))
    {
      if dst >= 8 {
        Emit([0x41]);
      }
      Emit([0x0F, ConditionByte(c)]);
      EmitModRm(3, RAX, dst);
    }

    method Return()
      modifies this
      ensures code == old(code) + Encode(Ret)
    {
      Emit([0xC3]);
    }
  }

  // Bytes appended one instruction at a time are the encoding of the list.

  lemma EncodeTwo(done: seq<Byte>, a: Native, b: Native)
    ensures done + Encode(a) + Encode(b) == done + EncodeAll([a, b])
  {
    hide Encode;
    assert [a, b][1..] == [b] && [b][1..] == [];
    assert EncodeAll([b]) == Encode(b) + EncodeAll([]);
  }

  lemma EncodeThree(done: seq<Byte>, a: Native, b: Native, c: Native)
    ensures done + Encode(a) + Encode(b) + Encode(c) == done + EncodeAll([a, b, c])
  {
    hide Encode;
    assert [a, b, c][1..] == [b, c];
    EncodeTwo(done + Encode(a), b, c);
  }

  lemma EncodeFive(done: seq<Byte>, a: Native, b: Native, c: Native, d: Native, e: Native)
    ensures done + Encode(a) + Encode(b) + Encode(c) + Encode(d) + Encode(e) == done + EncodeAll([a, b, c, d, e])
  {
    hide Encode;
    assert [a, b, c, d, e] == [a, b] + [c, d, e];
    EncodeConcat([a, b], [c, d, e]);
    EncodeTwo(done, a, b);
    EncodeThree(done + Encode(a) + Encode(b), c, d, e);
  }

  lemma EncodeSix(done: seq<Byte>, a: Native, b: Native, c: Native, d: Native, e: Native, f: Native)
    ensures done + Encode(a) + Encode(b) + Encode(c) + Encode(d) + Encode(e) + Encode(f) == done + EncodeAll([a, b, c, d, e, f])
  {
    hide Encode;
    assert [a, b, c, d, e, f] == [a, b, c] + [d, e, f];
    EncodeConcat([a, b, c], [d, e, f]);
    EncodeThree(done, a, b, c);
    EncodeThree(done + Encode(a) + Encode(b) + Encode(c), d, e, f);
  }

  class JitCompiler {
    const asm: MachineCode

    constructor ()
      ensures fresh(asm) && asm.code == []
    {
      asm := new MachineCode();
    }

    method EmitPrologue()
      modifies asm
      ensures asm.code == old(asm.code) + EncodeAll(Prologue())
    {
      hide Encode;
      asm.Push(RBP);
      asm.Mov(RBP, RSP);
      asm.SubImmediate(RSP, 8192);
      EncodeThree(old(asm.code), PushReg(RBP), Move(RBP, RSP), SubImm(RSP, 8192));
    }

    method EmitEpilogue()
      modifies asm
      ensures asm.code == old(asm.code) + EncodeAll(Epilogue())
    {
      hide Encode;
      asm.Mov(RSP, RBP);
      asm.Pop(RBP);
      asm.Return();
      EncodeThree(old(asm.code), Move(RSP, RBP), PopReg(RBP), Ret);
    }

    method CompileArithmetic(ghost n: Native, op: seq<Byte>, reg: Reg, rm: Reg)
      requires Rex(true, reg, rm) + op + [ModRm(3, reg, rm)] == Encode(n)
      modifies asm
      ensures asm.code == old(asm.code) + EncodeAll(LowerArithmetic(n))
    {
      hide Encode, Rex, ModRm;
      asm.Pop(RCX);
      asm.Pop(RAX);
      asm.EmitRegisters(reg, op, rm);
      assert asm.code == old(asm.code) + Encode(PopReg(RCX)) + Encode(PopReg(RAX)) + Encode(n);
      asm.EmitRegisters(RAX, [0x63], RAX);
      SignExtendIs();
      assert asm.code == old(asm.code) + Encode(PopReg(RCX)) + Encode(PopReg(RAX)) + Encode(n) + Encode(SignExtend(RAX, RAX));
      asm.Push(RAX);
      EncodeFive(old(asm.code), PopReg(RCX), PopReg(RAX), n, SignExtend(RAX, RAX), PushReg(RAX));
    }

    static lemma SignExtendIs()
      ensures Rex(true, RAX, RAX) + [0x63] + [ModRm(3, RAX, RAX)] == Encode(SignExtend(RAX, RAX))
    {
    }

    static lemma ComparisonIs()
      ensures Rex(true, RCX, RAX) + [0x39] + [ModRm(3, RCX, RAX)] == Encode(CmpReg(RAX, RCX))
      ensures Rex(true, RAX, RAX) + [0x85] + [ModRm(3, RAX, RAX)] == Encode(TestReg(RAX, RAX))
      ensures Rex(true, RAX, RAX) + [0x0F, 0xB6] + [ModRm(3, RAX, RAX)] == Encode(ZeroExtend(RAX, RAX))
    {
    }

    method CompileComparison(c: Condition)
      modifies asm
      ensures asm.code == old(asm.code) + EncodeAll(LowerComparison(c))
    {
      hide Encode, Rex, ModRm;
      ComparisonIs();
      asm.Pop(RCX);
      asm.Pop(RAX);
      asm.EmitRegisters(RCX, [0x39], RAX);
      assert asm.code == old(asm.code) + Encode(PopReg(RCX)) + Encode(PopReg(RAX)) + Encode(CmpReg(RAX, RCX));
      asm.SetCondition(c, RAX);
      ghost var before := asm.code;
      asm.EmitRegisters(RAX, [0x0F, 0xB6], RAX);
      assert asm.code == before + Encode(ZeroExtend(RAX, RAX));
      asm.Push(RAX);
      EncodeSix(old(asm.code), PopReg(RCX), PopReg(RAX), CmpReg(RAX, RCX), SetByte(c, RAX), ZeroExtend(RAX, RAX), PushReg(RAX));
    }

    method CompileNot()
      modifies asm
      ensures asm.code == old(asm.code) + EncodeAll([PopReg(RAX), TestReg(RAX, RAX), SetByte(IfEqual, RAX), ZeroExtend(RAX, RAX), PushReg(RAX)])
    {
      hide Encode, Rex, ModRm;
      ComparisonIs();
      asm.Pop(RAX);
      asm.EmitRegisters(RAX, [0x85], RAX);
      assert asm.code == old(asm.code) + Encode(PopReg(RAX)) + Encode(TestReg(RAX, RAX));
      asm.SetCondition(IfEqual, RAX);
      ghost var before := asm.code;
      asm.EmitRegisters(RAX, [0x0F, 0xB6], RAX);
      assert asm.code == before + Encode(ZeroExtend(RAX, RAX));
      asm.Push(RAX);
      EncodeFive(old(asm.code), PopReg(RAX), TestReg(RAX, RAX), SetByte(IfEqual, RAX), ZeroExtend(RAX, RAX), PushReg(RAX));
    }

    static lemma ArithmeticIs()
      ensures Rex(true, RCX, RAX) + [0x01] + [ModRm(3, RCX, RAX)] == Encode(AddReg(RAX, RCX))
      ensures Rex(true, RCX, RAX) + [0x29] + [ModRm(3, RCX, RAX)] == Encode(SubReg(RAX, RCX))
      ensures Rex(true, RAX, RCX) + [0x0F, 0xAF] + [ModRm(3, RAX, RCX)] == Encode(ImulReg(RAX, RCX))
      ensures Rex(true, RAX, RAX) + [0xF7] + [ModRm(3, 3, RAX)] == Encode(NegReg(RAX))
    {
    }

    method CompileNeg()
      modifies asm
      ensures asm.code == old(asm.code) + EncodeAll([PopReg(RAX), NegReg(RAX), PushReg(RAX)])
    {
      hide Encode, ModRm;
      ArithmeticIs();
      asm.Pop(RAX);
      ghost var before := asm.code;
      asm.EmitRex(true, RAX, RAX);
      asm.Emit([0xF7]);
      asm.EmitModRm(3, 3, RAX);
      assert asm.code == before + Encode(NegReg(RAX));
      asm.Push(RAX);
      EncodeThree(old(asm.code), PopReg(RAX), NegReg(RAX), PushReg(RAX));
    }

    /** Appends the native code of one instruction. */
    method CompileInstruction(instr: Instruction)
      requires SupportsOpcode(instr.opcode)
      modifies asm
      ensures asm.code == old(asm.code) + EncodeAll(Lower(instr))
    {
      hide Encode, Rex, ModRm, LocalOffset, LowerArithmetic, LowerComparison;
      ghost var before := asm.code;
      match instr.opcode {
        case LoadConst =>
          asm.MovImm32(RAX, instr.arg1);
          asm.Push(RAX);
          EncodeTwo(before, MoveImm(RAX, instr.arg1), PushReg(RAX));
        case LoadLocal =>
          asm.MovLoad(RAX, RBP, LocalOffset(instr.arg1));
          asm.Push(RAX);
          EncodeTwo(before, Native.Load(RAX, RBP, LocalOffset(instr.arg1)), PushReg(RAX));
        case StoreLocal =>
          asm.Pop(RAX);
          asm.MovStore(RBP, LocalOffset(instr.arg1), RAX);
          EncodeTwo(before, PopReg(RAX), Native.Store(RBP, LocalOffset(instr.arg1), RAX));
        case Add =>
          ArithmeticIs();
          CompileArithmetic(AddReg(RAX, RCX), [0x01], RCX, RAX);
        case Sub =>
          ArithmeticIs();
          CompileArithmetic(SubReg(RAX, RCX), [0x29], RCX, RAX);
        case Mul =>
          ArithmeticIs();
          CompileArithmetic(ImulReg(RAX, RCX), [0x0F, 0xAF], RAX, RCX);
        case Neg => CompileNeg();
        case Eq => CompileComparison(IfEqual);
        case Ne => CompileComparison(IfNotEqual);
        case Lt => CompileComparison(IfLess);
        case Gt => CompileComparison(IfGreater);
        case Le => CompileComparison(IfLessEqual);
        case Ge => CompileComparison(IfGreaterEqual);
        case Not => CompileNot();
        case Return =>
          asm.Pop(RAX);
          EmitEpilogue();
          EncodeConcat([PopReg(RAX)], Epilogue());
          assert EncodeAll([PopReg(RAX)]) == Encode(PopReg(RAX));
          assert before + Encode(PopReg(RAX)) + EncodeAll(Epilogue()) == before + (Encode(PopReg(RAX)) + EncodeAll(Epilogue()));
        case Pop =>
          asm.Pop(RAX);
          assert EncodeAll([PopReg(RAX)]) == Encode(PopReg(RAX));
        case Dup =>
          asm.Pop(RAX);
          asm.Push(RAX);
          asm.Push(RAX);
          EncodeThree(before, PopReg(RAX), PushReg(RAX), PushReg(RAX));
      }
    }

    static lemma LowerStep(code: seq<Instruction>, pc: nat, end: nat, done: seq<Native>)
      requires pc <= end < |code| && forall k :: pc <= k <= end ==> SupportsOpcode(code[k].opcode)
      ensures pc < end ==> done + LowerAll(code, pc, end) == done + Lower(code[pc]) + LowerAll(code, pc + 1, end)
      ensures pc == end ==> done + LowerAll(code, pc, end) == done + Lower(code[pc])
    {
      hide Lower;
    }

    method CompileBody(code: seq<Instruction>, entry: nat, ghost end: nat)
      requires StraightTo(code, entry, end)
      modifies asm
      ensures asm.code == old(asm.code) + EncodeAll(LowerAll(code, entry, end))
    {
      hide Encode, EncodeAll, Lower, LowerAll, SupportsOpcode;
      ReturnSupported();
      ghost var before := asm.code;
      ghost var natives := LowerAll(code, entry, end);
      ghost var done: seq<Native> := [];
      EncodeNothing();
      var pc: nat := entry;
      while pc < |code|
        invariant entry <= pc <= end
        invariant asm.code == before + EncodeAll(done)
        invariant natives == done + LowerAll(code, pc, end)
        decreases |code| - pc
      {
        var instr := code[pc];
        LowerStep(code, pc, end, done);
        EncodeConcat(done, Lower(instr));
        CompileInstruction(instr);
        done := done + Lower(instr);
        assert asm.code == before + EncodeAll(done);
        if instr.opcode == Opcode.Return {
          break;
        }
        pc := pc + 1;
      }
      assert done == natives;
    }

    static lemma ReturnSupported()
      ensures SupportsOpcode(Opcode.Return)
    {
    }

    /** No code for a program it does not support; otherwise main's code, up to its first return. */
    method Compile(p: CompiledProgram) returns (code: Option<seq<Byte>>)
      requires asm.code == []
      modifies asm
      ensures var entry := if p.mainFuncId in p.functions then p.functions[p.mainFuncId].entryPc else 0;
        match code
        case None => !Supported(p, entry)
        case Some(bytes) => |p.functions| == 1 && exists end :: StraightTo(p.instructions, entry, end) && bytes == JitCode(p.instructions, entry, end)
    {
      hide Encode, EncodeAll, LowerAll, Prologue, StraightTo;
      var entry := if p.mainFuncId in p.functions then p.functions[p.mainFuncId].entryPc else 0;
      if |p.functions| != 1 {
        return None;
      }
      var found := FindReturn(p.instructions, entry);
      if found.None? {
        return None;
      }
      ghost var end := found.value;
      EmitPrologue();
      CompileBody(p.instructions, entry, end);
      JitCodeParts(p.instructions, entry, end);
      return Some(asm.code);
    }
  }

  lemma JitCodeParts(code: seq<Instruction>, entry: nat, end: nat)
    requires StraightTo(code, entry, end)
    ensures forall k :: entry <= k <= end ==> SupportsOpcode(code[k].opcode)
    ensures JitCode(code, entry, end) == EncodeAll(Prologue()) + EncodeAll(LowerAll(code, entry, end))
  {
    hide EncodeAll, LowerAll, Prologue;
    EncodeConcat(Prologue(), LowerAll(code, entry, end));
  }

  /** All of main's native code. */
  function JitCode(code: seq<Instruction>, entry: nat, end: nat): seq<Byte>
    requires StraightTo(code, entry, end)
  {
    EncodeAll(Prologue() + LowerAll(code, entry, end))
  }
}
