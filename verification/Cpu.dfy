/** Executing the bytes the JIT emits, on registers and a stack of eight-byte words. */
module Cpu {
  import opened Common
  import opened Int32
  import opened X86

  // Registers hold i64 values; memory is the words that are mapped, by address.
  datatype Machine = Machine(regs: seq<int>, mem: map<int, int>, zf: bool, sf: bool, of: bool, ip: nat)

  datatype Outcome = Running(cpu: Machine) | Returned(cpu: Machine) | Fault

  /** The flags of a result, given its value before wrapping. */
  function Flagged(c: Machine, exact: int): Machine {
    var v := Wrap64(exact);
    c.(zf := v == 0, sf := v < 0, of := v != exact)
  }

  predicate Holds(c: Machine, condition: Condition) {
    match condition
    case IfEqual => c.zf
    case IfNotEqual => !c.zf
    case IfLess => c.sf != c.of
    case IfGreater => !c.zf && c.sf == c.of
    case IfLessEqual => c.zf || c.sf != c.of
    case IfGreaterEqual => c.sf == c.of
  }

  function Set(c: Machine, r: Reg, v: int): Machine
    requires |c.regs| == 16
  {
    c.(regs := c.regs[r := v])
  }

  /** The effect of one instruction, apart from the instruction pointer. Only TEST of a register with itself is known. */
  function Exec(n: Native, c: Machine): (o: Outcome)
    requires |c.regs| == 16
    ensures o.Running? ==> |o.cpu.regs| == 16
  {
    match n
    case PushReg(reg) =>
      var a := c.regs[RSP] - 8;
      if a !in c.mem then Fault else Running(Set(c, RSP, a).(mem := c.mem[a := c.regs[reg]]))
    case PopReg(reg) =>
      var a := c.regs[RSP];
      if a !in c.mem then Fault else Running(Set(Set(c, RSP, a + 8), reg, c.mem[a]))
    case MoveImm(dst, imm) => Running(Set(c, dst, imm))
    case Move(dst, src) => Running(Set(c, dst, c.regs[src]))
    case Load(dst, base, disp) =>
      var a := c.regs[base] + disp;
      if a !in c.mem then Fault else Running(Set(c, dst, c.mem[a]))
    case Store(base, disp, src) =>
      var a := c.regs[base] + disp;
      if a !in c.mem then Fault else Running(c.(mem := c.mem[a := c.regs[src]]))
    case AddReg(dst, src) =>
      var exact := c.regs[dst] + c.regs[src];
      Running(Set(Flagged(c, exact), dst, Wrap64(exact)))
    case SubReg(dst, src) =>
      var exact := c.regs[dst] - c.regs[src];
      Running(Set(Flagged(c, exact), dst, Wrap64(exact)))
    case SubImm(dst, imm) =>
      var exact := c.regs[dst] - imm;
      Running(Set(Flagged(c, exact), dst, Wrap64(exact)))
    case ImulReg(dst, src) =>
      var exact := c.regs[dst] * c.regs[src];
      Running(Set(Flagged(c, exact), dst, Wrap64(exact)))
    case NegReg(dst) =>
      var exact := -c.regs[dst];
      Running(Set(Flagged(c, exact), dst, Wrap64(exact)))
    case CmpReg(dst, src) => Running(Flagged(c, c.regs[dst] - c.regs[src]))
    case TestReg(dst, src) => if dst == src then Running(Flagged(c, c.regs[dst])) else Fault
    case SetByte(condition, dst) =>
      Running(Set(c, dst, c.regs[dst] - c.regs[dst] % 0x100 + BoolValue(Holds(c, condition))))
    case ZeroExtend(dst, src) => Running(Set(c, dst, c.regs[src] % 0x100))
    case SignExtend(dst, src) => Running(Set(c, dst, NormalizeI32(c.regs[src])))
    case Ret =>
      var a := c.regs[RSP];
      if a !in c.mem then Fault else Returned(Set(c, RSP, a + 8))
  }

  /** Fetch, decode, execute. */
  function Step(code: seq<Byte>, c: Machine): (o: Outcome)
    requires |c.regs| == 16
    ensures o.Running? ==> |o.cpu.regs| == 16
  {
    if c.ip >= |code| then Fault
    else
      match Decode(code[c.ip..])
      case Undecodable => Fault
      case Decoded(n, size) => Exec(n, c.(ip := c.ip + size))
  }

  /** At most so many instructions. */
  function Run(code: seq<Byte>, c: Machine, fuel: nat): Outcome
    requires |c.regs| == 16
    decreases fuel
  {
    if fuel == 0 then Running(c)
    else
      match Step(code, c)
      case Running(c') => Run(code, c', fuel - 1)
      case Returned(c') => Returned(c')
      case Fault => Fault
  }

  // ---------------------------------------------------------------- straight-line code

  function EncodeAll(ns: seq<Native>): seq<Byte> {
    if ns == [] then [] else Encode(ns[0]) + EncodeAll(ns[1..])
  }

  /** The instructions one after the other. */
  function ExecAll(ns: seq<Native>, c: Machine): (o: Outcome)
    requires |c.regs| == 16
    ensures o.Running? ==> |o.cpu.regs| == 16
  {
    if ns == [] then Running(c)
    else
      match Exec(ns[0], c.(ip := c.ip + |Encode(ns[0])|))
      case Running(c') => ExecAll(ns[1..], c')
      case Returned(c') => Returned(c')
      case Fault => Fault
  }

  lemma EncodeCons(n: Native, ns: seq<Native>)
    ensures EncodeAll([n] + ns) == Encode(n) + EncodeAll(ns)
  {
    hide Encode;
    assert ([n] + ns)[1..] == ns;
  }

  lemma {:induction false} EncodeConcat(a: seq<Native>, b: seq<Native>)
    ensures EncodeAll(a + b) == EncodeAll(a) + EncodeAll(b)
  {
    hide Encode, EncodeAll;
    if a == [] {
      assert a + b == b;
      EncodeNothing();
    } else {
      var n, rest := a[0], a[1..];
      EncodeConcat(rest, b);
      assert a == [n] + rest && a + b == [n] + (rest + b);
      EncodeCons(n, rest);
      EncodeCons(n, rest + b);
      assert Encode(n) + (EncodeAll(rest) + EncodeAll(b)) == Encode(n) + EncodeAll(rest) + EncodeAll(b);
    }
  }

  lemma EncodeNothing()
    ensures EncodeAll([]) == []
  {
  }

  lemma {:induction false} ExecConcat(a: seq<Native>, b: seq<Native>, c: Machine)
    requires |c.regs| == 16 && ExecAll(a, c).Running?
    ensures ExecAll(a + b, c) == ExecAll(b, ExecAll(a, c).cpu)
    decreases |a|
  {
    hide Encode, Exec;
    if a == [] {
      assert a + b == b;
    } else {
      assert (a + b)[0] == a[0] && (a + b)[1..] == a[1..] + b;
      ExecConcat(a[1..], b, Exec(a[0], c.(ip := c.ip + |Encode(a[0])|)).cpu);
    }
  }

  lemma EncodedNotEmpty(n: Native)
    ensures |Encode(n)| > 0
  {
  }

  /** Bytes that encode some instructions run as those instructions. */
  lemma {:induction false} EncodedRuns(code: seq<Byte>, ns: seq<Native>, c: Machine)
    requires |c.regs| == 16 && (forall i :: 0 <= i < |ns| ==> Encodable(ns[i]))
    requires c.ip <= |code| && EncodeAll(ns) <= code[c.ip..]
    ensures Run(code, c, |ns|) == ExecAll(ns, c)
    decreases |ns|
  {
    hide Encode, Decode, Exec, Encodable;
    if ns != [] {
      var n := ns[0];
      var here := code[c.ip..];
      EncodedNotEmpty(n);
      assert EncodeAll(ns) == Encode(n) + EncodeAll(ns[1..]);
      var rest := here[|Encode(n)|..];
      assert here == Encode(n) + rest;
      assert EncodeAll(ns[1..]) <= rest;
      DecodeInvertsEncode(n, rest);
      assert code[c.ip + |Encode(n)|..] == rest;
      var after := Exec(n, c.(ip := c.ip + |Encode(n)|));
      if after.Running? {
        ExecKeepsIp(n, c.(ip := c.ip + |Encode(n)|));
        EncodedRuns(code, ns[1..], after.cpu);
      }
    }
  }

  lemma ExecKeepsIp(n: Native, c: Machine)
    requires |c.regs| == 16
    ensures Exec(n, c).Running? ==> Exec(n, c).cpu.ip == c.ip
  {
  }
}
