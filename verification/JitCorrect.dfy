/** Native code and the reference machine agree on every program the verifier lets the JIT have. */
module JitCorrect {
  import opened Common
  import opened Int32
  import opened Limits
  import opened Bytecode
  import opened X86
  import opened Cpu
  import opened Jit
  import M = Machine
  import V = Verifier
  import W = Worklist
  import S = VerifierSound
  import P = ProgramVerifier
  import R = VerifiedRuns
  import Z = Optimizer

  // ---------------------------------------------------------------- the native frame

  // Where the frame lies, and what the caller left in it: its frame pointer and the return address.
  datatype Base = Base(rbp: int, saved: int, back: int)

  // Words below the frame pointer: 1 to 1024 are locals, the operand stack starts at 1025.
  const OPERANDS: nat := 1025

  function Cell(b: Base, k: nat): int {
    b.rbp - 8 * k
  }

  predicate Mapped(b: Base, mem: map<int, int>) {
    && b.rbp + 8 in mem && mem[b.rbp + 8] == b.back
    && b.rbp in mem && mem[b.rbp] == b.saved
    && forall k: nat :: k < OPERANDS + MAX_OPERAND_STACK ==> Cell(b, k) in mem
  }

  predicate LocalsMirrored(b: Base, locals: seq<int>, mem: map<int, int>) {
    |locals| >= MAX_LOCAL_SLOTS && forall i: nat :: i < MAX_LOCAL_SLOTS && locals[i] != I64_MIN && Cell(b, 1 + i) in mem ==> mem[Cell(b, 1 + i)] == locals[i]
  }

  predicate StackMirrored(b: Base, stack: seq<int>, mem: map<int, int>) {
    forall k: nat :: k < |stack| && Cell(b, OPERANDS + k) in mem ==> mem[Cell(b, OPERANDS + k)] == stack[k]
  }

  /** The operand stack and the defined locals, as the native code keeps them. */
  predicate Mirrors(b: Base, stack: seq<int>, locals: seq<int>, c: Machine) {
    && |c.regs| == 16 && c.regs[RBP] == b.rbp && c.regs[RSP] == b.rbp - 8192 - 8 * |stack|
    && |stack| <= MAX_OPERAND_STACK
    && Mapped(b, c.mem) && LocalsMirrored(b, locals, c.mem) && StackMirrored(b, stack, c.mem)
  }

  /** One native instruction, the instruction pointer included. */
  function Do(n: Native, c: Machine): Outcome
    requires |c.regs| == 16
  {
    Exec(n, c.(ip := c.ip + |Encode(n)|))
  }

  lemma Then(n: Native, rest: seq<Native>, c: Machine)
    requires |c.regs| == 16 && Do(n, c).Running?
    ensures ExecAll([n] + rest, c) == ExecAll(rest, Do(n, c).cpu)
  {
    hide Exec, Encode;
    assert ([n] + rest)[1..] == rest;
  }

  lemma Last(n: Native, c: Machine)
    requires |c.regs| == 16
    ensures ExecAll([n], c) == Do(n, c)
  {
    hide Exec, Encode, ExecAll;
    if Do(n, c).Running? {
      Then(n, [], c);
      assert [n] + [] == [n];
      NoMore(Do(n, c).cpu);
    } else {
      Stops([n], c);
    }
  }

  lemma NoMore(c: Machine)
    requires |c.regs| == 16
    ensures ExecAll([], c) == Running(c)
  {
  }

  lemma Stops(ns: seq<Native>, c: Machine)
    requires |c.regs| == 16 && ns != [] && !Do(ns[0], c).Running?
    ensures ExecAll(ns, c) == Do(ns[0], c)
  {
    hide Exec, Encode;
    var o := Do(ns[0], c);
    assert o == Exec(ns[0], c.(ip := c.ip + |Encode(ns[0])|));
  }

  // ---------------------------------------------------------------- pushing, popping, and work in registers

  lemma Pushes(b: Base, stack: seq<int>, locals: seq<int>, c: Machine)
    requires Mirrors(b, stack, locals, c) && |stack| < MAX_OPERAND_STACK
    ensures var o := Do(PushReg(RAX), c);
      o.Running? && Mirrors(b, stack + [c.regs[RAX]], locals, o.cpu)
  {
    hide Encode;
    assert Cell(b, OPERANDS + |stack|) == c.regs[RSP] - 8;
    var mem := c.mem[c.regs[RSP] - 8 := c.regs[RAX]];
    assert StackMirrored(b, stack + [c.regs[RAX]], mem);
  }

  lemma Pops(b: Base, stack: seq<int>, locals: seq<int>, c: Machine, r: Reg)
    requires Mirrors(b, stack, locals, c) && stack != [] && (r == RAX || r == RCX)
    ensures var o := Do(PopReg(r), c); var n := |stack|;
      && o.Running? && Mirrors(b, stack[..n - 1], locals, o.cpu)
      && o.cpu.regs[r] == stack[n - 1] && (r == RAX ==> o.cpu.regs[RCX] == c.regs[RCX])
  {
    hide Encode;
    assert Cell(b, OPERANDS + (|stack| - 1)) == c.regs[RSP];
  }

  /** Only RAX, the flags and the instruction pointer differ. */
  predicate OnlyRax(c: Machine, c': Machine) {
    && |c.regs| == |c'.regs| == 16 && c' == c.(regs := c'.regs, zf := c'.zf, sf := c'.sf, of := c'.of, ip := c'.ip)
    && c'.regs == c.regs[RAX := c'.regs[RAX]]
  }

  lemma RaxIsScratch(b: Base, stack: seq<int>, locals: seq<int>, c: Machine, c': Machine)
    requires Mirrors(b, stack, locals, c) && |c'.regs| == 16 && OnlyRax(c, c')
    ensures Mirrors(b, stack, locals, c')
  {
  }

  /** Instructions that work in RAX, reading at most RCX besides. */
  predicate InRax(n: Native) {
    match n
    case MoveImm(dst, _) => dst == RAX
    case AddReg(dst, src) => dst == RAX && src == RCX
    case SubReg(dst, src) => dst == RAX && src == RCX
    case ImulReg(dst, src) => dst == RAX && src == RCX
    case NegReg(dst) => dst == RAX
    case CmpReg(dst, src) => dst == RAX && src == RCX
    case TestReg(dst, src) => dst == RAX && src == RAX
    case SetByte(_, dst) => dst == RAX
    case ZeroExtend(dst, src) => dst == RAX && src == RAX
    case SignExtend(dst, src) => dst == RAX && src == RAX
    case _ => false
  }

  lemma Works(b: Base, stack: seq<int>, locals: seq<int>, c: Machine, n: Native)
    requires Mirrors(b, stack, locals, c) && InRax(n)
    ensures Do(n, c).Running? && OnlyRax(c, Do(n, c).cpu) && Mirrors(b, stack, locals, Do(n, c).cpu)
  {
    hide Mirrors, Encode, Wrap64, NormalizeI32;
    assert |c.regs| == 16 by {
      Sized(b, stack, locals, c);
    }
    assert Do(n, c).Running?;
    var c' := Do(n, c).cpu;
    assert c.regs[RAX := c'.regs[RAX]] == c'.regs;
    RaxIsScratch(b, stack, locals, c, c');
  }

  lemma Sized(b: Base, stack: seq<int>, locals: seq<int>, c: Machine)
    requires Mirrors(b, stack, locals, c)
    ensures |c.regs| == 16
  {
  }

  // ---------------------------------------------------------------- one instruction of straight-line code

  /** The native code of an instruction runs through and leaves these operands and locals. */
  predicate RunsTo(ns: seq<Native>, b: Base, stack: seq<int>, locals: seq<int>, c: Machine) {
    |c.regs| == 16 && var o := ExecAll(ns, c); o.Running? && Mirrors(b, stack, locals, o.cpu)
  }

  lemma LoadConstRuns(b: Base, stack: seq<int>, locals: seq<int>, c: Machine, imm: I32)
    requires Mirrors(b, stack, locals, c) && |stack| < MAX_OPERAND_STACK
    ensures RunsTo([MoveImm(RAX, imm), PushReg(RAX)], b, stack + [imm], locals, c)
  {
    hide Mirrors, Encode, ExecAll;
    Works(b, stack, locals, c, MoveImm(RAX, imm));
    var c1 := Do(MoveImm(RAX, imm), c).cpu;
    assert c1.regs[RAX] == imm;
    Pushes(b, stack, locals, c1);
    Then(MoveImm(RAX, imm), [PushReg(RAX)], c);
    Last(PushReg(RAX), c1);
    assert [MoveImm(RAX, imm)] + [PushReg(RAX)] == [MoveImm(RAX, imm), PushReg(RAX)];
  }

  lemma PopRuns(b: Base, stack: seq<int>, locals: seq<int>, c: Machine)
    requires Mirrors(b, stack, locals, c) && stack != []
    ensures RunsTo([PopReg(RAX)], b, stack[..|stack| - 1], locals, c)
  {
    hide Mirrors, Encode, ExecAll;
    Sized(b, stack, locals, c);
    Pops(b, stack, locals, c, RAX);
    Last(PopReg(RAX), c);
  }

  /** Both operands popped: the right one in RCX, the left one in RAX. */
  lemma TwoPops(b: Base, stack: seq<int>, locals: seq<int>, c: Machine, rest: seq<Native>) returns (c2: Machine)
    requires Mirrors(b, stack, locals, c) && |stack| >= 2
    ensures |c.regs| == 16 && Mirrors(b, stack[..|stack| - 2], locals, c2) && |c2.regs| == 16
    ensures c2.regs[RCX] == stack[|stack| - 1] && c2.regs[RAX] == stack[|stack| - 2]
    ensures ExecAll([PopReg(RCX), PopReg(RAX)] + rest, c) == ExecAll(rest, c2)
  {
    hide Mirrors, Encode, ExecAll, Exec;
    var n := |stack|;
    Sized(b, stack, locals, c);
    Pops(b, stack, locals, c, RCX);
    var c1 := Do(PopReg(RCX), c).cpu;
    Pops(b, stack[..n - 1], locals, c1, RAX);
    c2 := Do(PopReg(RAX), c1).cpu;
    Sized(b, stack[..n - 1][..n - 2], locals, c2);
    assert stack[..n - 1][..n - 2] == stack[..n - 2];
    Then(PopReg(RCX), [PopReg(RAX)] + rest, c);
    Then(PopReg(RAX), rest, c1);
    assert [PopReg(RCX), PopReg(RAX)] + rest == [PopReg(RCX)] + ([PopReg(RAX)] + rest);
  }

  /** Work in RAX, then go on. */
  lemma WorkThen(b: Base, stack: seq<int>, locals: seq<int>, c: Machine, n: Native, rest: seq<Native>) returns (c': Machine)
    requires Mirrors(b, stack, locals, c) && InRax(n)
    ensures |c.regs| == 16 && Do(n, c) == Running(c') && OnlyRax(c, c') && Mirrors(b, stack, locals, c')
    ensures ExecAll([n] + rest, c) == ExecAll(rest, c')
  {
    hide Mirrors, Encode, ExecAll, Exec;
    Works(b, stack, locals, c, n);
    c' := Do(n, c).cpu;
    Then(n, rest, c);
  }

  lemma PushRuns(b: Base, stack: seq<int>, locals: seq<int>, c: Machine)
    requires Mirrors(b, stack, locals, c) && |stack| < MAX_OPERAND_STACK
    ensures |c.regs| == 16 && RunsTo([PushReg(RAX)], b, stack + [c.regs[RAX]], locals, c)
  {
    hide Mirrors, Encode, ExecAll;
    Sized(b, stack, locals, c);
    Pushes(b, stack, locals, c);
    Last(PushReg(RAX), c);
  }

  function Exact(n: Native, a: int, b: int): int {
    if n.AddReg? then a + b else if n.SubReg? then a - b else a * b
  }

  lemma ArithmeticRuns(b: Base, stack: seq<int>, locals: seq<int>, c: Machine, n: Native)
    requires Mirrors(b, stack, locals, c) && |stack| >= 2
    requires n == AddReg(RAX, RCX) || n == SubReg(RAX, RCX) || n == ImulReg(RAX, RCX)
    ensures var k := |stack|;
      RunsTo(LowerArithmetic(n), b, stack[..k - 2] + [NormalizeI32(Wrap64(Exact(n, stack[k - 2], stack[k - 1])))], locals, c)
  {
    hide Mirrors, Encode, ExecAll, Wrap64, NormalizeI32;
    var k := |stack|;
    MirrorsSmall(b, stack, locals, c);
    var c2 := TwoPops(b, stack, locals, c, [n, SignExtend(RAX, RAX), PushReg(RAX)]);
    var c3 := WorkThen(b, stack[..k - 2], locals, c2, n, [SignExtend(RAX, RAX), PushReg(RAX)]);
    assert c3.regs[RAX] == Wrap64(Exact(n, stack[k - 2], stack[k - 1]));
    var c4 := WorkThen(b, stack[..k - 2], locals, c3, SignExtend(RAX, RAX), [PushReg(RAX)]);
    PushRuns(b, stack[..k - 2], locals, c4);
    assert LowerArithmetic(n) == [PopReg(RCX), PopReg(RAX)] + [n, SignExtend(RAX, RAX), PushReg(RAX)];
    assert [n] + [SignExtend(RAX, RAX), PushReg(RAX)] == [n, SignExtend(RAX, RAX), PushReg(RAX)];
    assert [SignExtend(RAX, RAX)] + [PushReg(RAX)] == [SignExtend(RAX, RAX), PushReg(RAX)];
  }

  lemma MirrorsSmall(b: Base, stack: seq<int>, locals: seq<int>, c: Machine)
    requires Mirrors(b, stack, locals, c)
    ensures |stack| <= MAX_OPERAND_STACK && |c.regs| == 16 && |locals| >= MAX_LOCAL_SLOTS
  {
  }

  predicate Compares(condition: Condition, a: int, b: int) {
    match condition
    case IfEqual => a == b
    case IfNotEqual => a != b
    case IfLess => a < b
    case IfGreater => a > b
    case IfLessEqual => a <= b
    case IfGreaterEqual => a >= b
  }

  /** The flags of a comparison of i32 values say how they compare. */
  lemma FlagsCompare(c: Machine, condition: Condition, a: int, b: int)
    requires IsI32(a) && IsI32(b)
    ensures Holds(Flagged(c, a - b), condition) <==> Compares(condition, a, b)
  {
    assert Wrap64(a - b) == a - b;
  }

  lemma LowByteSet(x: int, bit: int)
    requires 0 <= bit < 0x100
    ensures (x - x % 0x100 + bit) % 0x100 == bit
  {
    assert x - x % 0x100 == 0x100 * (x / 0x100);
  }

  /** A condition becomes 0 or 1 in RAX and is pushed. */
  lemma ConditionRuns(b: Base, stack: seq<int>, locals: seq<int>, c: Machine, condition: Condition)
    requires Mirrors(b, stack, locals, c) && |stack| < MAX_OPERAND_STACK
    ensures RunsTo([SetByte(condition, RAX), ZeroExtend(RAX, RAX), PushReg(RAX)], b, stack + [BoolValue(Holds(c, condition))], locals, c)
  {
    hide Mirrors, Encode, ExecAll, Holds;
    MirrorsSmall(b, stack, locals, c);
    var bit := BoolValue(Holds(c, condition));
    var c1 := WorkThen(b, stack, locals, c, SetByte(condition, RAX), [ZeroExtend(RAX, RAX), PushReg(RAX)]);
    assert Holds(c.(ip := c.ip + |Encode(SetByte(condition, RAX))|), condition) == Holds(c, condition) by {
      IpIsNoFlag(c, c.ip + |Encode(SetByte(condition, RAX))|, condition);
    }
    assert c1.regs[RAX] == c.regs[RAX] - c.regs[RAX] % 0x100 + bit;
    LowByteSet(c.regs[RAX], bit);
    var c2 := WorkThen(b, stack, locals, c1, ZeroExtend(RAX, RAX), [PushReg(RAX)]);
    assert c2.regs[RAX] == bit;
    PushRuns(b, stack, locals, c2);
    assert [SetByte(condition, RAX)] + [ZeroExtend(RAX, RAX), PushReg(RAX)] == [SetByte(condition, RAX), ZeroExtend(RAX, RAX), PushReg(RAX)];
    assert [ZeroExtend(RAX, RAX)] + [PushReg(RAX)] == [ZeroExtend(RAX, RAX), PushReg(RAX)];
  }

  lemma IpIsNoFlag(c: Machine, ip: nat, condition: Condition)
    ensures Holds(c.(ip := ip), condition) == Holds(c, condition)
  {
  }

  lemma ComparisonRuns(b: Base, stack: seq<int>, locals: seq<int>, c: Machine, condition: Condition)
    requires Mirrors(b, stack, locals, c) && |stack| >= 2 && IsI32(stack[|stack| - 2]) && IsI32(stack[|stack| - 1])
    ensures var k := |stack|;
      RunsTo(LowerComparison(condition), b, stack[..k - 2] + [BoolValue(Compares(condition, stack[k - 2], stack[k - 1]))], locals, c)
  {
    hide Mirrors, Encode, ExecAll, Holds, Flagged, Compares;
    var k := |stack|;
    MirrorsSmall(b, stack, locals, c);
    var tail := [SetByte(condition, RAX), ZeroExtend(RAX, RAX), PushReg(RAX)];
    var c2 := TwoPops(b, stack, locals, c, [CmpReg(RAX, RCX)] + tail);
    var c3 := WorkThen(b, stack[..k - 2], locals, c2, CmpReg(RAX, RCX), tail);
    FlagsCompare(c2.(ip := c2.ip + |Encode(CmpReg(RAX, RCX))|), condition, stack[k - 2], stack[k - 1]);
    ConditionRuns(b, stack[..k - 2], locals, c3, condition);
    assert LowerComparison(condition) == [PopReg(RCX), PopReg(RAX)] + ([CmpReg(RAX, RCX)] + tail);
  }

  lemma NotRuns(b: Base, stack: seq<int>, locals: seq<int>, c: Machine)
    requires Mirrors(b, stack, locals, c) && stack != [] && IsI32(stack[|stack| - 1])
    ensures var k := |stack|;
      RunsTo([PopReg(RAX), TestReg(RAX, RAX), SetByte(IfEqual, RAX), ZeroExtend(RAX, RAX), PushReg(RAX)],
             b, stack[..k - 1] + [BoolValue(stack[k - 1] == 0)], locals, c)
  {
    hide Mirrors, Encode, ExecAll, Flagged;
    var k := |stack|;
    MirrorsSmall(b, stack, locals, c);
    var tail := [SetByte(IfEqual, RAX), ZeroExtend(RAX, RAX), PushReg(RAX)];
    Pops(b, stack, locals, c, RAX);
    var c1 := Do(PopReg(RAX), c).cpu;
    Then(PopReg(RAX), [TestReg(RAX, RAX)] + tail, c);
    var c2 := WorkThen(b, stack[..k - 1], locals, c1, TestReg(RAX, RAX), tail);
    FlagsCompare(c1.(ip := c1.ip + |Encode(TestReg(RAX, RAX))|), IfEqual, stack[k - 1], 0);
    ConditionRuns(b, stack[..k - 1], locals, c2, IfEqual);
    assert [PopReg(RAX), TestReg(RAX, RAX)] + tail == [PopReg(RAX)] + ([TestReg(RAX, RAX)] + tail);
    assert [PopReg(RAX), TestReg(RAX, RAX)] + tail
      == [PopReg(RAX), TestReg(RAX, RAX), SetByte(IfEqual, RAX), ZeroExtend(RAX, RAX), PushReg(RAX)];
  }

  /** Negation is not narrowed. */
  lemma NegRuns(b: Base, stack: seq<int>, locals: seq<int>, c: Machine)
    requires Mirrors(b, stack, locals, c) && stack != []
    ensures var k := |stack|;
      RunsTo([PopReg(RAX), NegReg(RAX), PushReg(RAX)], b, stack[..k - 1] + [Wrap64(-stack[k - 1])], locals, c)
  {
    hide Mirrors, Encode, ExecAll, Wrap64;
    var k := |stack|;
    MirrorsSmall(b, stack, locals, c);
    Pops(b, stack, locals, c, RAX);
    var c1 := Do(PopReg(RAX), c).cpu;
    Then(PopReg(RAX), [NegReg(RAX), PushReg(RAX)], c);
    var c2 := WorkThen(b, stack[..k - 1], locals, c1, NegReg(RAX), [PushReg(RAX)]);
    assert c2.regs[RAX] == Wrap64(-stack[k - 1]);
    PushRuns(b, stack[..k - 1], locals, c2);
    assert [PopReg(RAX)] + [NegReg(RAX), PushReg(RAX)] == [PopReg(RAX), NegReg(RAX), PushReg(RAX)];
    assert [NegReg(RAX)] + [PushReg(RAX)] == [NegReg(RAX), PushReg(RAX)];
  }

  /** The native negation of an i32 is the machine's for all but the least one. */
  lemma NegationAgrees(x: int)
    requires IsI32(x)
    ensures Wrap64(-x) == NormalizeI32(Wrap64(-x)) <==> x != I32_MIN
  {
    assert Wrap64(-x) == -x;
    if x != I32_MIN {
      assert IsI32(-x);
    }
  }

  lemma DupRuns(b: Base, stack: seq<int>, locals: seq<int>, c: Machine)
    requires Mirrors(b, stack, locals, c) && stack != [] && |stack| < MAX_OPERAND_STACK
    ensures RunsTo([PopReg(RAX), PushReg(RAX), PushReg(RAX)], b, stack + [stack[|stack| - 1]], locals, c)
  {
    hide Mirrors, Encode, ExecAll;
    var k := |stack|;
    MirrorsSmall(b, stack, locals, c);
    Pops(b, stack, locals, c, RAX);
    var c1 := Do(PopReg(RAX), c).cpu;
    Sized(b, stack[..k - 1], locals, c1);
    Then(PopReg(RAX), [PushReg(RAX), PushReg(RAX)], c);
    Pushes(b, stack[..k - 1], locals, c1);
    var c2 := Do(PushReg(RAX), c1).cpu;
    assert stack[..k - 1] + [stack[k - 1]] == stack;
    Then(PushReg(RAX), [PushReg(RAX)], c1);
    PushRuns(b, stack, locals, c2);
    assert c2.regs[RAX] == c1.regs[RAX];
    assert [PopReg(RAX)] + [PushReg(RAX), PushReg(RAX)] == [PopReg(RAX), PushReg(RAX), PushReg(RAX)];
    assert [PushReg(RAX)] + [PushReg(RAX)] == [PushReg(RAX), PushReg(RAX)];
  }

  lemma OffsetIs(b: Base, slot: I32)
    requires 0 <= slot < MAX_LOCAL_SLOTS
    ensures b.rbp + LocalOffset(slot) == Cell(b, 1 + slot)
  {
  }

  lemma LoadLocalRuns(b: Base, stack: seq<int>, locals: seq<int>, c: Machine, slot: I32)
    requires Mirrors(b, stack, locals, c) && |stack| < MAX_OPERAND_STACK
    requires 0 <= slot < MAX_LOCAL_SLOTS <= |locals| && locals[slot] != I64_MIN
    ensures RunsTo([Native.Load(RAX, RBP, LocalOffset(slot)), PushReg(RAX)], b, stack + [locals[slot]], locals, c)
  {
    hide Encode, ExecAll, LocalOffset;
    var n := Native.Load(RAX, RBP, LocalOffset(slot));
    OffsetIs(b, slot);
    LoadDone(b, stack, locals, c, slot);
    var c1 := Do(n, c).cpu;
    PushRuns(b, stack, locals, c1);
    Then(n, [PushReg(RAX)], c);
    assert [n] + [PushReg(RAX)] == [n, PushReg(RAX)];
  }

  lemma LoadDone(b: Base, stack: seq<int>, locals: seq<int>, c: Machine, slot: I32)
    requires Mirrors(b, stack, locals, c)
    requires 0 <= slot < MAX_LOCAL_SLOTS <= |locals| && locals[slot] != I64_MIN
    requires b.rbp + LocalOffset(slot) == Cell(b, 1 + slot)
    ensures var o := Do(Native.Load(RAX, RBP, LocalOffset(slot)), c);
      o.Running? && Mirrors(b, stack, locals, o.cpu) && o.cpu.regs[RAX] == locals[slot]
  {
    hide Encode, LocalOffset;
  }

  lemma StoreLocalRuns(b: Base, stack: seq<int>, locals: seq<int>, c: Machine, slot: I32)
    requires Mirrors(b, stack, locals, c) && stack != [] && 0 <= slot < MAX_LOCAL_SLOTS <= |locals|
    ensures var k := |stack|;
      RunsTo([PopReg(RAX), Native.Store(RBP, LocalOffset(slot), RAX)], b, stack[..k - 1], locals[slot := stack[k - 1]], c)
  {
    hide Encode, ExecAll, LocalOffset, Mirrors;
    var k := |stack|;
    var n := Native.Store(RBP, LocalOffset(slot), RAX);
    OffsetIs(b, slot);
    Sized(b, stack, locals, c);
    Pops(b, stack, locals, c, RAX);
    var c1 := Do(PopReg(RAX), c).cpu;
    StoreDone(b, stack[..k - 1], locals, c1, slot);
    Then(PopReg(RAX), [n], c);
    Last(n, c1);
    assert [PopReg(RAX)] + [n] == [PopReg(RAX), n];
  }

  lemma StoreDone(b: Base, stack: seq<int>, locals: seq<int>, c: Machine, slot: I32)
    requires Mirrors(b, stack, locals, c) && 0 <= slot < MAX_LOCAL_SLOTS <= |locals|
    requires b.rbp + LocalOffset(slot) == Cell(b, 1 + slot)
    ensures var o := Do(Native.Store(RBP, LocalOffset(slot), RAX), c);
      o.Running? && Mirrors(b, stack, locals[slot := c.regs[RAX]], o.cpu)
  {
    hide Encode, LocalOffset;
    var mem := c.mem[Cell(b, 1 + slot) := c.regs[RAX]];
    assert Mapped(b, mem);
    assert LocalsMirrored(b, locals[slot := c.regs[RAX]], mem);
    assert StackMirrored(b, stack, mem);
  }

  // ---------------------------------------------------------------- what both machines make of an instruction

  function Takes(op: Opcode): nat {
    if M.IsBinary(op) then 2
    else if op == Opcode.LoadConst || op == Opcode.LoadLocal then 0
    else 1
  }

  /** What verification without possible traps grants an instruction before it runs. */
  predicate Granted(localCount: nat, instr: Instruction, stack: seq<int>, locals: seq<int>) {
    && SupportsOpcode(instr.opcode) && instr.opcode != Opcode.Return
    && |stack| >= Takes(instr.opcode) && Z.AllNarrow(stack) && localCount <= MAX_LOCAL_SLOTS <= |locals|
    && (instr.opcode in {Opcode.LoadConst, Opcode.LoadLocal, Opcode.Dup} ==> |stack| < MAX_OPERAND_STACK)
    && |stack| <= MAX_OPERAND_STACK
    && (instr.opcode in {Opcode.LoadLocal, Opcode.StoreLocal} ==> 0 <= instr.arg1 < localCount)
    && (instr.opcode == Opcode.LoadLocal ==> locals[instr.arg1] != I64_MIN)
  }

  /** Operands and locals after an instruction. */
  function After(localCount: nat, instr: Instruction, stack: seq<int>, locals: seq<int>): (seq<int>, seq<int>)
    requires Granted(localCount, instr, stack, locals)
  {
    var n := |stack|;
    if instr.opcode == Opcode.LoadConst then (stack + [instr.arg1], locals)
    else if instr.opcode == Opcode.LoadLocal then (stack + [locals[instr.arg1]], locals)
    else if instr.opcode == Opcode.StoreLocal then (stack[..n - 1], locals[instr.arg1 := stack[n - 1]])
    else if instr.opcode == Opcode.Pop then (stack[..n - 1], locals)
    else if instr.opcode == Opcode.Dup then (stack + [stack[n - 1]], locals)
    else if instr.opcode == Opcode.Neg then (stack[..n - 1] + [NormalizeI32(Wrap64(-stack[n - 1]))], locals)
    else if instr.opcode == Opcode.Not then (stack[..n - 1] + [BoolValue(stack[n - 1] == 0)], locals)
    else (stack[..n - 2] + [M.Arith(instr.opcode, stack[n - 2], stack[n - 1])], locals)
  }

  lemma MachineDoes(p: CompiledProgram, instr: Instruction, s: M.State)
    requires s.calls != [] && M.CurrentFrame(s).funcId in p.functions && M.CurrentFrame(s).basePtr == 0
    requires Granted(p.functions[M.CurrentFrame(s).funcId].localCount, instr, s.stack, s.locals)
    ensures var (stack, locals) := After(p.functions[M.CurrentFrame(s).funcId].localCount, instr, s.stack, s.locals);
      M.Exec(p, instr, s) == M.Advance(s.(stack := stack, locals := locals))
  {
    hide M.ExecBinary, M.ExecUnary, M.LoadLocal, M.StoreLocal, M.Arith, NormalizeI32, Wrap64, Z.AllNarrow;
    if M.IsBinary(instr.opcode) {
      BinaryDoes(p, instr, s);
    } else if instr.opcode == Opcode.LoadLocal || instr.opcode == Opcode.StoreLocal {
      LocalDoes(p, instr, s);
    } else if instr.opcode == Opcode.Neg || instr.opcode == Opcode.Not {
      UnaryDoes(p, instr, s);
    }
  }

  lemma UnaryDoes(p: CompiledProgram, instr: Instruction, s: M.State)
    requires instr.opcode == Opcode.Neg || instr.opcode == Opcode.Not
    requires 1 <= |s.stack| <= MAX_OPERAND_STACK
    ensures var n := |s.stack|;
      var v := if instr.opcode == Opcode.Neg then NormalizeI32(Wrap64(-s.stack[n - 1])) else BoolValue(s.stack[n - 1] == 0);
      M.ExecUnary(instr.opcode, s) == M.Advance(s.(stack := s.stack[..n - 1] + [v]))
  {
    hide NormalizeI32, Wrap64;
  }

  lemma LocalDoes(p: CompiledProgram, instr: Instruction, s: M.State)
    requires s.calls != [] && M.CurrentFrame(s).funcId in p.functions && M.CurrentFrame(s).basePtr == 0
    requires instr.opcode == Opcode.LoadLocal || instr.opcode == Opcode.StoreLocal
    requires Granted(p.functions[M.CurrentFrame(s).funcId].localCount, instr, s.stack, s.locals)
    ensures var n := |s.stack|;
      if instr.opcode == Opcode.LoadLocal then
        M.LoadLocal(p, s, instr.arg1) == M.Advance(s.(stack := s.stack + [s.locals[instr.arg1]]))
      else
        M.StoreLocal(p, s, instr.arg1) == M.Advance(s.(stack := s.stack[..n - 1], locals := s.locals[instr.arg1 := s.stack[n - 1]]))
  {
    hide Z.AllNarrow;
  }

  lemma BinaryDoes(p: CompiledProgram, instr: Instruction, s: M.State)
    requires M.IsBinary(instr.opcode) && instr.opcode != Opcode.Div && 2 <= |s.stack| <= MAX_OPERAND_STACK
    ensures var n := |s.stack|;
      M.ExecBinary(instr.opcode, s) == M.Advance(s.(stack := s.stack[..n - 2] + [M.Arith(instr.opcode, s.stack[n - 2], s.stack[n - 1])]))
  {
    hide M.Arith;
  }

  /** The comparison an opcode asks for. */
  function ConditionOf(op: Opcode): Condition
    requires op in {Opcode.Eq, Opcode.Ne, Opcode.Lt, Opcode.Gt, Opcode.Le, Opcode.Ge}
  {
    match op
    case Eq => IfEqual
    case Ne => IfNotEqual
    case Lt => IfLess
    case Gt => IfGreater
    case Le => IfLessEqual
    case Ge => IfGreaterEqual
  }

  lemma NativeBinary(b: Base, localCount: nat, instr: Instruction, stack: seq<int>, locals: seq<int>, c: Machine)
    requires Granted(localCount, instr, stack, locals) && Mirrors(b, stack, locals, c) && M.IsBinary(instr.opcode)
    ensures var (stack', locals') := After(localCount, instr, stack, locals); RunsTo(Lower(instr), b, stack', locals', c)
  {
    hide Mirrors, RunsTo, NormalizeI32, Wrap64, LowerArithmetic, LowerComparison;
    if instr.opcode == Opcode.Add {
      ArithmeticRuns(b, stack, locals, c, AddReg(RAX, RCX));
    } else if instr.opcode == Opcode.Sub {
      ArithmeticRuns(b, stack, locals, c, SubReg(RAX, RCX));
    } else if instr.opcode == Opcode.Mul {
      ArithmeticRuns(b, stack, locals, c, ImulReg(RAX, RCX));
    } else {
      ComparisonRuns(b, stack, locals, c, ConditionOf(instr.opcode));
    }
  }

  lemma NativeDoes(b: Base, localCount: nat, instr: Instruction, stack: seq<int>, locals: seq<int>, c: Machine)
    requires Granted(localCount, instr, stack, locals) && Mirrors(b, stack, locals, c)
    requires instr.opcode == Opcode.Neg ==> stack[|stack| - 1] != I32_MIN
    ensures var (stack', locals') := After(localCount, instr, stack, locals); RunsTo(Lower(instr), b, stack', locals', c)
  {
    hide Mirrors, RunsTo, NormalizeI32, Wrap64, LocalOffset, LowerArithmetic, LowerComparison;
    match instr.opcode {
      case LoadConst => LoadConstRuns(b, stack, locals, c, instr.arg1);
      case LoadLocal => LoadLocalRuns(b, stack, locals, c, instr.arg1);
      case StoreLocal => StoreLocalRuns(b, stack, locals, c, instr.arg1);
      case Pop => PopRuns(b, stack, locals, c);
      case Dup => DupRuns(b, stack, locals, c);
      case Neg =>
        NegationAgrees(stack[|stack| - 1]);
        NegRuns(b, stack, locals, c);
      case Not => NotRuns(b, stack, locals, c);
      case _ => NativeBinary(b, localCount, instr, stack, locals, c);
    }
  }

  // ---------------------------------------------------------------- the machine's run

  /** The machine in main, as the verifier sees it, after one cycle per instruction and without output. */
  ghost predicate VmAt(p: CompiledProgram, w: S.Proof, s: M.State, entry: nat, end: nat) {
    var id := p.mainFuncId;
    && s.calls == [M.Frame(None, 0, id)] && id in p.functions && id in w.states && s.pc in w.states[id]
    && |s.stack| == w.states[id][s.pc].depth <= MAX_OPERAND_STACK
    && |s.locals| >= MAX_LOCAL_SLOTS && Z.NarrowState(s)
    && S.WindowOk(w.states[id][s.pc].init, 0, s.locals)
    && entry <= s.pc <= end && s.cycles == s.pc - entry && s.output == []
  }

  /** The premises about the program, in one place. */
  ghost predicate Trusted(p: CompiledProgram, w: S.Proof, end: nat) {
    && S.Verified(p, w) && w.traps == {} && S.PlainMain(p) && |p.instructions| <= MAX_INSTRUCTIONS
    && StraightTo(p.instructions, p.functions[p.mainFuncId].entryPc, end)
  }

  /** An accepted step without traps. */
  predicate Clean(p: CompiledProgram, r: V.Range, pc: nat, instr: Instruction, st: V.AbstractState)
    requires |st.init| == r.info.localCount
  {
    var step := V.StepInstruction(p, r, pc, instr, st);
    step.Stepped? && step.traps == {} && step.st.depth <= MAX_OPERAND_STACK
  }

  /** The concrete operands and locals an abstract state speaks of. */
  predicate Concrete(r: V.Range, st: V.AbstractState, stack: seq<int>, locals: seq<int>) {
    && |st.init| == r.info.localCount <= MAX_LOCAL_SLOTS <= |locals|
    && |stack| == st.depth <= MAX_OPERAND_STACK && Z.AllNarrow(stack) && S.WindowOk(st.init, 0, locals)
  }

  lemma StepGrants(p: CompiledProgram, r: V.Range, pc: nat, instr: Instruction, st: V.AbstractState, stack: seq<int>, locals: seq<int>)
    requires Concrete(r, st, stack, locals) && Clean(p, r, pc, instr, st)
    requires SupportsOpcode(instr.opcode) && instr.opcode != Opcode.Return
    ensures Granted(r.info.localCount, instr, stack, locals)
    ensures V.StepInstruction(p, r, pc, instr, st).succs == [pc + 1]
  {
    hide Z.AllNarrow;
  }

  lemma StepLeaves(p: CompiledProgram, r: V.Range, pc: nat, instr: Instruction, st: V.AbstractState, stack: seq<int>, locals: seq<int>)
    requires Concrete(r, st, stack, locals) && Clean(p, r, pc, instr, st)
    requires Granted(r.info.localCount, instr, stack, locals)
    ensures var (stack', locals') := After(r.info.localCount, instr, stack, locals);
      var st' := V.StepInstruction(p, r, pc, instr, st).st;
      |stack'| == st'.depth && |locals'| == |locals| && S.WindowOk(st'.init, 0, locals')
  {
    hide NormalizeI32, Wrap64, M.Arith;
    V.StepShape(p, r, pc, instr, st);
  }

  /** What a proof without traps says about one address of main. */
  lemma FlowsHere(p: CompiledProgram, w: S.Proof, end: nat, pc: nat)
    requires Trusted(p, w, end) && p.mainFuncId in w.states && pc in w.states[p.mainFuncId]
    ensures p.mainFuncId in w.ranges && p.mainFuncId in p.functions
    ensures var r, states := w.ranges[p.mainFuncId], w.states[p.mainFuncId];
      && r.info == p.functions[p.mainFuncId] && r.info.localCount <= MAX_LOCAL_SLOTS
      && pc < |p.instructions| && |states[pc].init| == r.info.localCount
      && Clean(p, r, pc, p.instructions[pc], states[pc])
      && var step := V.StepInstruction(p, r, pc, p.instructions[pc], states[pc]);
      forall next <- step.succs :: W.Covers(states, next, step.st)
  {
    hide V.StepInstruction, StraightTo;
    var id := p.mainFuncId;
    assert S.FunctionVerified(p, w, id);
    assert W.Flows(p, w.ranges[id], w.states[id], pc, w.traps, w.edges);
  }

  lemma GrantedHere(p: CompiledProgram, w: S.Proof, s: M.State, end: nat)
    requires Trusted(p, w, end) && VmAt(p, w, s, p.functions[p.mainFuncId].entryPc, end) && s.pc < end
    ensures Granted(p.functions[p.mainFuncId].localCount, p.instructions[s.pc], s.stack, s.locals)
    ensures s.pc + 1 in w.states[p.mainFuncId]
    ensures var (stack, locals) := After(p.functions[p.mainFuncId].localCount, p.instructions[s.pc], s.stack, s.locals);
      && |stack| == w.states[p.mainFuncId][s.pc + 1].depth <= MAX_OPERAND_STACK && |locals| == |s.locals|
      && S.WindowOk(w.states[p.mainFuncId][s.pc + 1].init, 0, locals)
  {
    hide V.StepInstruction, Z.NarrowState, Z.AllNarrow, After, Granted, SupportsOpcode, Trusted, Clean;
    var id := p.mainFuncId;
    FlowsHere(p, w, end, s.pc);
    var st, r, instr := w.states[id][s.pc], w.ranges[id], p.instructions[s.pc];
    StackNarrow(s);
    BeforeReturn(p, w, end, s.pc);
    StepGrants(p, r, s.pc, instr, st, s.stack, s.locals);
    StepLeaves(p, r, s.pc, instr, st, s.stack, s.locals);
    CleanDepth(p, r, s.pc, instr, st);
    assert s.pc + 1 in V.StepInstruction(p, r, s.pc, instr, st).succs;
  }

  lemma CleanDepth(p: CompiledProgram, r: V.Range, pc: nat, instr: Instruction, st: V.AbstractState)
    requires |st.init| == r.info.localCount && Clean(p, r, pc, instr, st)
    ensures V.StepInstruction(p, r, pc, instr, st).Stepped? && V.StepInstruction(p, r, pc, instr, st).st.depth <= MAX_OPERAND_STACK
  {
    hide V.StepInstruction;
  }

  lemma BeforeReturn(p: CompiledProgram, w: S.Proof, end: nat, pc: nat)
    requires Trusted(p, w, end) && p.functions[p.mainFuncId].entryPc <= pc < end
    ensures pc < |p.instructions| && SupportsOpcode(p.instructions[pc].opcode) && p.instructions[pc].opcode != Opcode.Return
  {
    hide SupportsOpcode;
  }

  lemma StackNarrow(s: M.State)
    requires Z.NarrowState(s)
    ensures Z.AllNarrow(s.stack)
  {
  }

  lemma SupportedIsPlain(instr: Instruction)
    requires SupportsOpcode(instr.opcode)
    ensures Z.NoLocalArrays([instr])
  {
  }

  /** One instruction before the return. */
  lemma TurnBefore(p: CompiledProgram, w: S.Proof, s: M.State, end: nat)
    requires Trusted(p, w, end) && VmAt(p, w, s, p.functions[p.mainFuncId].entryPc, end) && s.pc < end
    ensures var count := p.functions[p.mainFuncId].localCount;
      && Granted(count, p.instructions[s.pc], s.stack, s.locals)
      && var (stack, locals) := After(count, p.instructions[s.pc], s.stack, s.locals);
      var s' := s.(stack := stack, locals := locals, pc := s.pc + 1, cycles := s.cycles + 1);
      M.TakeTurn(p, s) == M.Next(s') && VmAt(p, w, s', p.functions[p.mainFuncId].entryPc, end)
  {
    hide Z.NarrowState, After, Granted, M.Exec, S.Verified, StraightTo, S.WindowOk;
    GrantedHere(p, w, s, end);
    InCode(p, w, s, end);
    var fetched := s.(cycles := s.cycles + 1);
    MachineDoes(p, p.instructions[s.pc], fetched);
    GrantedParts(p.functions[p.mainFuncId].localCount, p.instructions[s.pc], s.stack, s.locals);
    SupportedIsPlain(p.instructions[s.pc]);
    TickNarrow(s);
    Z.StepNarrow(p, p.instructions[s.pc], fetched);
    var (stack, locals) := After(p.functions[p.mainFuncId].localCount, p.instructions[s.pc], s.stack, s.locals);
    MovedNarrow(fetched.(stack := stack, locals := locals), s.pc + 1);
  }

  lemma InCode(p: CompiledProgram, w: S.Proof, s: M.State, end: nat)
    requires Trusted(p, w, end) && s.pc <= end
    ensures s.pc < |p.instructions| <= MAX_CYCLES && end < MAX_CYCLES
  {
  }

  lemma GrantedParts(localCount: nat, instr: Instruction, stack: seq<int>, locals: seq<int>)
    requires Granted(localCount, instr, stack, locals)
    ensures SupportsOpcode(instr.opcode)
  {
  }

  lemma TickNarrow(s: M.State)
    requires Z.NarrowState(s)
    ensures Z.NarrowState(s.(cycles := s.cycles + 1))
  {
  }

  lemma MovedNarrow(s: M.State, pc: nat)
    requires Z.NarrowState(s)
    ensures Z.NarrowState(s.(pc := pc))
  {
  }

  /** The return ends the run with the operand on top. */
  lemma TurnAtReturn(p: CompiledProgram, w: S.Proof, s: M.State, end: nat)
    requires Trusted(p, w, end) && VmAt(p, w, s, p.functions[p.mainFuncId].entryPc, end) && s.pc == end
    ensures s.stack != []
    ensures M.TakeTurn(p, s).Stop?
    ensures var r := M.TakeTurn(p, s).result;
      r.success && r.trap == NoTrap && r.output == [] && r.returnValue == s.stack[|s.stack| - 1]
  {
    hide Z.NarrowState, S.WindowOk, V.StepInstruction, M.Exec, S.Verified, W.Covers;
    var id := p.mainFuncId;
    FlowsHere(p, w, end, s.pc);
    ReturnNeedsValue(p, w.ranges[id], s.pc, p.instructions[s.pc], w.states[id][s.pc]);
    InCode(p, w, s, end);
    ReturnLeaves(p, p.instructions[s.pc], s.(cycles := s.cycles + 1));
  }

  lemma ReturnNeedsValue(p: CompiledProgram, r: V.Range, pc: nat, instr: Instruction, st: V.AbstractState)
    requires |st.init| == r.info.localCount && instr.opcode == Opcode.Return
    ensures V.StepInstruction(p, r, pc, instr, st).Stepped? ==> st.depth >= 1
  {
  }

  lemma ReturnLeaves(p: CompiledProgram, instr: Instruction, s: M.State)
    requires instr.opcode == Opcode.Return && s.stack != [] && |s.calls| == 1 && s.calls[0].returnPc.None?
    ensures M.Exec(p, instr, s) == M.Jumped(s.(calls := []))
  {
  }

  /** An eligible program runs to its return: it succeeds without output, whatever it computes. */
  lemma {:induction false} EligibleRunsFrom(p: CompiledProgram, w: S.Proof, s: M.State, end: nat)
    requires Trusted(p, w, end) && VmAt(p, w, s, p.functions[p.mainFuncId].entryPc, end)
    ensures var r := M.RunFrom(p, s); r.success && r.trap == NoTrap && r.output == []
    decreases end - s.pc
  {
    hide M.TakeTurn, Trusted, After, Granted;
    if s.pc == end {
      TurnAtReturn(p, w, s, end);
    } else {
      TurnBefore(p, w, s, end);
      EligibleRunsFrom(p, w, M.TakeTurn(p, s).st, end);
    }
  }

  lemma BootsAt(p: CompiledProgram, w: S.Proof, end: nat)
    requires Trusted(p, w, end)
    ensures VmAt(p, w, M.Boot(p), p.functions[p.mainFuncId].entryPc, end)
  {
    hide W.Flows;
    assert S.FunctionVerified(p, w, p.mainFuncId);
  }

  // ---------------------------------------------------------------- both runs

  /** Negation never meets the least i32 on this run. */
  predicate NegationFits(p: CompiledProgram, s: M.State)
    decreases MAX_CYCLES - s.cycles
  {
    && (s.pc < |p.instructions| && p.instructions[s.pc].opcode == Opcode.Neg && s.stack != [] ==> M.Top(s) != I32_MIN)
    && match M.TakeTurn(p, s)
       case Next(s') => NegationFits(p, s')
       case Stop(_) => true
  }

  lemma NegationNow(p: CompiledProgram, localCount: nat, s: M.State)
    requires NegationFits(p, s) && s.pc < |p.instructions| && Granted(localCount, p.instructions[s.pc], s.stack, s.locals)
    ensures p.instructions[s.pc].opcode == Opcode.Neg ==> s.stack != [] && s.stack[|s.stack| - 1] != I32_MIN
    ensures M.TakeTurn(p, s).Next? ==> NegationFits(p, M.TakeTurn(p, s).st)
  {
    hide M.TakeTurn;
  }

  /** Control is back at the caller: its frame pointer restored, its return address taken, the result in RAX. */
  predicate BackWith(b: Base, value: int, o: Outcome) {
    && o.Returned? && |o.cpu.regs| == 16
    && o.cpu.regs[RAX] == value && o.cpu.regs[RBP] == b.saved && o.cpu.regs[RSP] == b.rbp + 16
    && b.rbp + 8 in o.cpu.mem && o.cpu.mem[b.rbp + 8] == b.back
  }

  lemma FrameWords(b: Base, stack: seq<int>, locals: seq<int>, c: Machine)
    requires Mirrors(b, stack, locals, c)
    ensures |c.regs| == 16 && c.regs[RBP] == b.rbp
    ensures b.rbp in c.mem && c.mem[b.rbp] == b.saved && b.rbp + 8 in c.mem && c.mem[b.rbp + 8] == b.back
  {
  }

  lemma LeavesFrame(b: Base, c: Machine)
    requires |c.regs| == 16 && c.regs[RBP] == b.rbp
    requires b.rbp in c.mem && c.mem[b.rbp] == b.saved && b.rbp + 8 in c.mem && c.mem[b.rbp + 8] == b.back
    ensures BackWith(b, c.regs[RAX], ExecAll(Epilogue(), c))
  {
    hide Encode, ExecAll;
    var c2 := Do(Move(RSP, RBP), c).cpu;
    Then(Move(RSP, RBP), [PopReg(RBP), Ret], c);
    var c3 := Do(PopReg(RBP), c2).cpu;
    Then(PopReg(RBP), [Ret], c2);
    Last(Ret, c3);
    assert Epilogue() == [Move(RSP, RBP)] + [PopReg(RBP), Ret];
    assert [PopReg(RBP)] + [Ret] == [PopReg(RBP), Ret];
  }

  lemma EpilogueReturns(b: Base, stack: seq<int>, locals: seq<int>, c: Machine)
    requires Mirrors(b, stack, locals, c) && stack != []
    ensures |c.regs| == 16 && BackWith(b, stack[|stack| - 1], ExecAll([PopReg(RAX)] + Epilogue(), c))
  {
    hide Encode, ExecAll, Exec, Mirrors, Epilogue, BackWith;
    Sized(b, stack, locals, c);
    Pops(b, stack, locals, c, RAX);
    var c1 := Do(PopReg(RAX), c).cpu;
    Then(PopReg(RAX), Epilogue(), c);
    FrameWords(b, stack[..|stack| - 1], locals, c1);
    LeavesFrame(b, c1);
  }

  lemma {:induction false} BodiesAgree(b: Base, p: CompiledProgram, w: S.Proof, s: M.State, c: Machine, end: nat)
    requires Trusted(p, w, end) && VmAt(p, w, s, p.functions[p.mainFuncId].entryPc, end)
    requires Mirrors(b, s.stack, s.locals, c) && NegationFits(p, s)
    requires s.pc <= end < |p.instructions| && forall k :: s.pc <= k <= end ==> SupportsOpcode(p.instructions[k].opcode)
    ensures |c.regs| == 16 && BackWith(b, M.RunFrom(p, s).returnValue, ExecAll(LowerAll(p.instructions, s.pc, end), c))
    decreases end - s.pc
  {
    hide M.TakeTurn, Trusted, VmAt, After, Granted, ExecAll, Lower, Mirrors, BackWith;
    Sized(b, s.stack, s.locals, c);
    var instr := p.instructions[s.pc];
    if s.pc == end {
      TurnAtReturn(p, w, s, end);
      EpilogueReturns(b, s.stack, s.locals, c);
      LoweredReturn(p, w, end);
      assert Lower(instr) + [] == Lower(instr);
    } else {
      TurnBefore(p, w, s, end);
      TrustedParts(p, w, end);
      var count := p.functions[p.mainFuncId].localCount;
      NegationNow(p, count, s);
      NativeDoes(b, count, instr, s.stack, s.locals, c);
      var s' := M.TakeTurn(p, s).st;
      var c' := ExecAll(Lower(instr), c).cpu;
      BodiesAgree(b, p, w, s', c', end);
      ExecConcat(Lower(instr), LowerAll(p.instructions, s.pc + 1, end), c);
    }
  }

  lemma LoweredReturn(p: CompiledProgram, w: S.Proof, end: nat)
    requires Trusted(p, w, end)
    ensures end < |p.instructions| && SupportsOpcode(p.instructions[end].opcode)
    ensures Lower(p.instructions[end]) == [PopReg(RAX)] + Epilogue()
  {
    hide S.Verified;
  }

  /** How native code is entered: the return address on top of a mapped stack of 64-bit addresses. */
  predicate Entered(c: Machine) {
    && |c.regs| == 16 && c.ip == 0
    && 8 * (OPERANDS + MAX_OPERAND_STACK + 1) <= c.regs[RSP] <= -I64_MIN - 1
    && (forall k: nat :: k <= OPERANDS + MAX_OPERAND_STACK ==> Slot(c, k) in c.mem)
  }

  function Slot(c: Machine, k: nat): int
    requires |c.regs| == 16
  {
    c.regs[RSP] - 8 * k
  }

  lemma PrologueRuns(c: Machine, locals: seq<int>)
    requires Entered(c) && |locals| >= MAX_LOCAL_SLOTS && forall i :: 0 <= i < MAX_LOCAL_SLOTS ==> locals[i] == I64_MIN
    ensures Slot(c, 0) in c.mem
    ensures var b := Base(c.regs[RSP] - 8, c.regs[RBP], c.mem[Slot(c, 0)]);
      RunsTo(Prologue(), b, [], locals, c)
  {
    hide Encode, ExecAll;
    assert Slot(c, 0) in c.mem && Slot(c, 1) in c.mem;
    var b := Base(c.regs[RSP] - 8, c.regs[RBP], c.mem[Slot(c, 0)]);
    var c1 := Do(PushReg(RBP), c).cpu;
    var c2 := Do(Move(RBP, RSP), c1).cpu;
    assert Wrap64(c2.regs[RSP] - 8192) == c2.regs[RSP] - 8192;
    var c3 := Do(SubImm(RSP, 8192), c2).cpu;
    forall k: nat | k < OPERANDS + MAX_OPERAND_STACK ensures Cell(b, k) in c3.mem {
      assert Cell(b, k) == Slot(c, k + 1);
    }
    Then(PushReg(RBP), [Move(RBP, RSP), SubImm(RSP, 8192)], c);
    Then(Move(RBP, RSP), [SubImm(RSP, 8192)], c1);
    Last(SubImm(RSP, 8192), c2);
    assert Prologue() == [PushReg(RBP)] + [Move(RBP, RSP), SubImm(RSP, 8192)];
    assert [Move(RBP, RSP)] + [SubImm(RSP, 8192)] == [Move(RBP, RSP), SubImm(RSP, 8192)];
  }

  lemma LowerEncodable(instr: Instruction)
    requires SupportsOpcode(instr.opcode)
    ensures forall i :: 0 <= i < |Lower(instr)| ==> Encodable(Lower(instr)[i])
  {
    hide LocalOffset;
  }

  lemma {:induction false} AllEncodable(code: seq<Instruction>, pc: nat, end: nat)
    requires pc <= end < |code| && forall k :: pc <= k <= end ==> SupportsOpcode(code[k].opcode)
    ensures forall i :: 0 <= i < |LowerAll(code, pc, end)| ==> Encodable(LowerAll(code, pc, end)[i])
    decreases end - pc
  {
    hide Lower, Encodable;
    LowerEncodable(code[pc]);
    if pc < end {
      AllEncodable(code, pc + 1, end);
    }
  }

  /** Executing the bytes emitted for main, from this entry, comes back with a value in RAX and the caller's frame intact. */
  ghost predicate Returns(p: CompiledProgram, end: nat, c: Machine, value: int) {
    && |c.regs| == 16 && Slot(c, 0) in c.mem && p.mainFuncId in p.functions
    && StraightTo(p.instructions, p.functions[p.mainFuncId].entryPc, end)
    && exists fuel ::
         BackWith(Base(c.regs[RSP] - 8, c.regs[RBP], c.mem[Slot(c, 0)]), value,
                  Run(JitCode(p.instructions, p.functions[p.mainFuncId].entryPc, end), c, fuel))
  }

  /**
   * What the verifier lets the JIT have always succeeds on the machine, without output; and as long as negation never
   * meets the least i32, executing the emitted bytes returns the machine's value in RAX, with the caller's frame intact.
   */
  lemma JitReturnsTheVmValue(p: CompiledProgram, w: S.Proof, end: nat, c: Machine)
    requires Trusted(p, w, end) && M.Validate(p).None? && Entered(c)
    ensures M.Run(p).success && M.Run(p).output == []
    ensures Slot(c, 0) in c.mem
    ensures NegationFits(p, M.Boot(p)) ==> Returns(p, end, c, M.Run(p).returnValue)
  {
    hide Trusted, VmAt, NegationFits, Encode, ExecAll, EncodeAll, Mirrors, M.RunFrom, LowerAll, Prologue, BackWith;
    BootsAt(p, w, end);
    EligibleRunsFrom(p, w, M.Boot(p), end);
    TrustedParts(p, w, end);
    var entry := p.functions[p.mainFuncId].entryPc;
    assert Slot(c, 0) in c.mem;
    if NegationFits(p, M.Boot(p)) {
      var b := Base(c.regs[RSP] - 8, c.regs[RBP], c.mem[Slot(c, 0)]);
      PrologueRuns(c, M.Boot(p).locals);
      var c1 := ExecAll(Prologue(), c).cpu;
      BodiesAgree(b, p, w, M.Boot(p), c1, end);
      var natives := Prologue() + LowerAll(p.instructions, entry, end);
      ExecConcat(Prologue(), LowerAll(p.instructions, entry, end), c);
      PrologueEncodable();
      AllEncodable(p.instructions, entry, end);
      var code := JitCode(p.instructions, entry, end);
      assert code == EncodeAll(natives) && code[0..] == code;
      EncodedRuns(code, natives, c);
      assert BackWith(b, M.Run(p).returnValue, Run(code, c, |natives|));
    }
  }

  /** The same from the verifier's report: a valid program that its gate passes. */
  lemma EligibleProgramsRunNatively(p: CompiledProgram, report: P.Report, w: S.Proof, c: Machine)
    requires P.Valid(p) && P.Backed(p, report, w) && S.PlainMain(p) && Eligible(p, report.traps) && Entered(c)
    ensures M.Run(p).success && M.Run(p).output == [] && Slot(c, 0) in c.mem
    ensures exists end :: StraightTo(p.instructions, p.functions[p.mainFuncId].entryPc, end)
    ensures NegationFits(p, M.Boot(p)) ==>
      forall end | StraightTo(p.instructions, p.functions[p.mainFuncId].entryPc, end) :: Returns(p, end, c, M.Run(p).returnValue)
  {
    hide P.FunctionSound, S.FunctionVerified, NegationFits, Returns, M.Run, StraightTo, M.Boot;
    R.ValidRuns(p);
    var entry := p.functions[p.mainFuncId].entryPc;
    assert w.traps == {};
    var some :| StraightTo(p.instructions, entry, some);
    JitReturnsTheVmValue(p, w, some, c);
    forall end | StraightTo(p.instructions, entry, end)
      ensures NegationFits(p, M.Boot(p)) ==> Returns(p, end, c, M.Run(p).returnValue)
    {
      JitReturnsTheVmValue(p, w, end, c);
    }
  }

  lemma TrustedParts(p: CompiledProgram, w: S.Proof, end: nat)
    requires Trusted(p, w, end)
    ensures p.mainFuncId in p.functions
    ensures var entry := p.functions[p.mainFuncId].entryPc;
      && StraightTo(p.instructions, entry, end) && entry <= end < |p.instructions|
      && forall k :: entry <= k <= end ==> SupportsOpcode(p.instructions[k].opcode)
  {
  }

  lemma PrologueEncodable()
    ensures forall i :: 0 <= i < |Prologue()| ==> Encodable(Prologue()[i])
  {
  }

  // ---------------------------------------------------------------- where native code shows

  function NegatesLeast(): seq<Instruction> {
    [Instruction(Opcode.LoadConst, I32_MIN, 0), Instruction(Opcode.Neg, 0, 0), Instruction(Opcode.Return, 0, 0)]
  }

  function NegatesLeastProgram(): CompiledProgram {
    CompiledProgram(NegatesLeast(), map[0 := FunctionInfo("main", 0, 0, 0, 0)], map[], 0)
  }

  lemma MachineNegatesLeast()
    ensures M.Run(NegatesLeastProgram()).returnValue == I32_MIN
  {
    var p := NegatesLeastProgram();
    assert M.Validate(p).None?;
    var s := M.Boot(p);
    assert M.TakeTurn(p, s).Next?;
    var s1 := M.TakeTurn(p, s).st;
    assert s1.stack == [I32_MIN];
    assert Wrap64(-I32_MIN) == 0x8000_0000 && NormalizeI32(0x8000_0000) == I32_MIN;
    assert M.TakeTurn(p, s1).Next?;
    var s2 := M.TakeTurn(p, s1).st;
    assert s2.stack == [I32_MIN];
    assert M.TakeTurn(p, s2).Stop?;
  }

  /** Without the premise on negation the two results differ: the machine wraps to the least i32, native code does not. */
  lemma NegationShows(c: Machine)
    requires Entered(c)
    ensures Slot(c, 0) in c.mem && StraightTo(NegatesLeast(), 0, 2)
    ensures M.Run(NegatesLeastProgram()).returnValue == I32_MIN
    ensures exists fuel ::
      BackWith(Base(c.regs[RSP] - 8, c.regs[RBP], c.mem[Slot(c, 0)]), 0x8000_0000, Run(JitCode(NegatesLeast(), 0, 2), c, fuel))
  {
    hide Encode, ExecAll, EncodeAll, Mirrors, Prologue, Epilogue, BackWith, M.Run;
    assert Slot(c, 0) in c.mem;
    MachineNegatesLeast();
    var b := Base(c.regs[RSP] - 8, c.regs[RBP], c.mem[Slot(c, 0)]);
    var locals := seq(MAX_LOCAL_SLOTS, _ => I64_MIN);
    var load, neg, ret := Lower(NegatesLeast()[0]), Lower(NegatesLeast()[1]), Lower(NegatesLeast()[2]);
    PrologueRuns(c, locals);
    var c1 := ExecAll(Prologue(), c).cpu;
    LoadConstRuns(b, [], locals, c1, I32_MIN);
    var c2 := ExecAll(load, c1).cpu;
    assert [] + [I32_MIN as int] == [I32_MIN];
    NegRuns(b, [I32_MIN], locals, c2);
    var c3 := ExecAll(neg, c2).cpu;
    assert [I32_MIN as int][..0] + [Wrap64(-I32_MIN)] == [0x8000_0000];
    EpilogueReturns(b, [0x8000_0000], locals, c3);
    ExecConcat(neg, ret, c2);
    ExecConcat(load, neg + ret, c1);
    ExecConcat(Prologue(), load + (neg + ret), c);
    LoweredThree();
    PrologueEncodable();
    AllEncodable(NegatesLeast(), 0, 2);
    var code := JitCode(NegatesLeast(), 0, 2);
    var natives := Prologue() + LowerAll(NegatesLeast(), 0, 2);
    assert code[0..] == code;
    EncodedRuns(code, natives, c);
    assert BackWith(b, 0x8000_0000, Run(code, c, |natives|));
  }

  lemma LoweredThree()
    ensures StraightTo(NegatesLeast(), 0, 2)
    ensures LowerAll(NegatesLeast(), 0, 2) == Lower(NegatesLeast()[0]) + (Lower(NegatesLeast()[1]) + Lower(NegatesLeast()[2]))
  {
    hide Lower;
    assert LowerAll(NegatesLeast(), 2, 2) == Lower(NegatesLeast()[2]) + [];
    assert LowerAll(NegatesLeast(), 1, 2) == Lower(NegatesLeast()[1]) + LowerAll(NegatesLeast(), 2, 2);
  }
}
