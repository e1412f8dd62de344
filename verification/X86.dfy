/**
 * The x86-64 instructions the JIT emits: an encoder as the JIT writes it, a decoder and an executor after the Intel
 * Software Developer's Manual, volume 2 (sections 2.1.3 and 2.2.1 for ModR/M and REX).
 */
module X86 {
  import opened Common
  import opened Int32

  type Byte = x: int | 0 <= x < 0x100

  // Register numbers: 0 is RAX, 1 RCX, 4 RSP, 5 RBP.
  type Reg = x: int | 0 <= x < 16

  const RAX: Reg := 0
  const RCX: Reg := 1
  const RSP: Reg := 4
  const RBP: Reg := 5

  datatype Condition = IfEqual | IfNotEqual | IfLess | IfGreater | IfLessEqual | IfGreaterEqual

  datatype Native =
    | PushReg(reg: Reg)
    | PopReg(reg: Reg)
    | MoveImm(dst: Reg, imm: I32)
    | Move(dst: Reg, src: Reg)
    | Load(dst: Reg, base: Reg, disp: I32)
    | Store(base: Reg, disp: I32, src: Reg)
    | AddReg(dst: Reg, src: Reg)
    | SubReg(dst: Reg, src: Reg)
    | SubImm(dst: Reg, imm: I32)
    | ImulReg(dst: Reg, src: Reg)
    | NegReg(dst: Reg)
    | CmpReg(dst: Reg, src: Reg)
    | TestReg(dst: Reg, src: Reg)
    | SetByte(condition: Condition, dst: Reg)
    | ZeroExtend(dst: Reg, src: Reg)
    | SignExtend(dst: Reg, src: Reg)
    | Ret

  // ---------------------------------------------------------------- numbers as bytes

  /** The four bytes of an i32, lowest first. */
  function LittleEndian(v: I32): (bytes: seq<Byte>)
    ensures |bytes| == 4
  {
    var u := v % TWO_32;
    [u % 0x100, u / 0x100 % 0x100, u / 0x1_0000 % 0x100, u / 0x100_0000]
  }

  function FromBytes(a: Byte, b: Byte, c: Byte, d: Byte): I32 {
    var u := a + 0x100 * b + 0x1_0000 * c + 0x100_0000 * d;
    if u > I32_MAX then u - TWO_32 else u
  }

  function SignedByte(b: Byte): I32 {
    if b >= 0x80 then b - 0x100 else b
  }

  predicate FitsByte(v: I32) {
    -0x80 <= v < 0x80
  }

  function AsByte(v: I32): Byte {
    v % 0x100
  }

  lemma BytesRoundTrip(v: I32)
    ensures var b := LittleEndian(v); FromBytes(b[0], b[1], b[2], b[3]) == v
  {
    var u := v % TWO_32;
    assert u == u % 0x100 + 0x100 * (u / 0x100);
    var h := u / 0x100;
    assert h == h % 0x100 + 0x100 * (h / 0x100);
    assert u / 0x1_0000 == h / 0x100;
    var k := h / 0x100;
    assert k == k % 0x100 + 0x100 * (k / 0x100);
    assert u / 0x100_0000 == k / 0x100;
  }

  lemma ByteRoundTrip(v: I32)
    requires FitsByte(v)
    ensures SignedByte(AsByte(v)) == v
  {
  }

  // ---------------------------------------------------------------- encoding

  function Rex(w: bool, r: Reg, b: Reg): seq<Byte> {
    var rex := 0x40 + (if w then 8 else 0) + (if r >= 8 then 4 else 0) + (if b >= 8 then 1 else 0);
    if rex == 0x40 then [] else [rex]
  }

  function ModRm(mode: nat, reg: Reg, rm: Reg): Byte
    requires mode < 4
  {
    64 * mode + 8 * (reg % 8) + rm % 8
  }

  function Extended(reg: Reg): seq<Byte> {
    if reg >= 8 then [0x41] else []
  }

  function ImmBytes(imm: I32): seq<Byte> {
    if FitsByte(imm) then [AsByte(imm)] else LittleEndian(imm)
  }

  /** A memory operand as the JIT writes it: the SIB byte comes after the displacement. */
  function MemBytes(reg: Reg, base: Reg, disp: I32): seq<Byte> {
    (if disp == 0 && base != RBP then [ModRm(0, reg, base)]
     else if FitsByte(disp) then [ModRm(1, reg, base), AsByte(disp)]
     else [ModRm(2, reg, base)] + LittleEndian(disp))
    + (if base % 8 == RSP then [0x24] else [])
  }

  function ConditionByte(c: Condition): Byte {
    match c
    case IfEqual => 0x94
    case IfNotEqual => 0x95
    case IfLess => 0x9C
    case IfGreater => 0x9F
    case IfLessEqual => 0x9E
    case IfGreaterEqual => 0x9D
  }

  function Encode(n: Native): seq<Byte> {
    match n
    case PushReg(reg) => Extended(reg) + [0x50 + reg % 8]
    case PopReg(reg) => Extended(reg) + [0x58 + reg % 8]
    case MoveImm(dst, imm) => Rex(true, RAX, dst) + [0xC7, ModRm(3, RAX, dst)] + LittleEndian(imm)
    case Move(dst, src) => Rex(true, src, dst) + [0x89, ModRm(3, src, dst)]
    case Load(dst, base, disp) => Rex(true, dst, base) + [0x8B] + MemBytes(dst, base, disp)
    case Store(base, disp, src) => Rex(true, src, base) + [0x89] + MemBytes(src, base, disp)
    case AddReg(dst, src) => Rex(true, src, dst) + [0x01, ModRm(3, src, dst)]
    case SubReg(dst, src) => Rex(true, src, dst) + [0x29, ModRm(3, src, dst)]
    case SubImm(dst, imm) => Rex(true, RAX, dst) + [if FitsByte(imm) then 0x83 else 0x81, ModRm(3, 5, dst)] + ImmBytes(imm)
    case ImulReg(dst, src) => Rex(true, dst, src) + [0x0F, 0xAF, ModRm(3, dst, src)]
    case NegReg(dst) => Rex(true, RAX, dst) + [0xF7, ModRm(3, 3, dst)]
    case CmpReg(dst, src) => Rex(true, src, dst) + [0x39, ModRm(3, src, dst)]
    case TestReg(dst, src) => Rex(true, src, dst) + [0x85, ModRm(3, src, dst)]
    case SetByte(condition, dst) => Extended(dst) + [0x0F, ConditionByte(condition), ModRm(3, RAX, dst)]
    case ZeroExtend(dst, src) => Rex(true, dst, src) + [0x0F, 0xB6, ModRm(3, dst, src)]
    case SignExtend(dst, src) => Rex(true, dst, src) + [0x63, ModRm(3, dst, src)]
    case Ret => [0xC3]
  }

  // The instructions on the JIT's registers, byte for byte as the manual's tables give them.

  lemma KnownStackBytes()
    ensures Encode(PushReg(RAX)) == [0x50] && Encode(PushReg(RBP)) == [0x55] && Encode(Ret) == [0xC3]
    ensures Encode(PopReg(RAX)) == [0x58] && Encode(PopReg(RCX)) == [0x59] && Encode(PopReg(RBP)) == [0x5D]
  {
  }

  lemma KnownMoveBytes(imm: I32)
    ensures Encode(MoveImm(RAX, imm)) == [0x48, 0xC7, 0xC0] + LittleEndian(imm)
    ensures Encode(Move(RBP, RSP)) == [0x48, 0x89, 0xE5] && Encode(Move(RSP, RBP)) == [0x48, 0x89, 0xEC]
    ensures Encode(SubImm(RSP, 8192)) == [0x48, 0x81, 0xEC] + LittleEndian(8192)
  {
    hide LittleEndian;
  }

  lemma KnownMemoryBytes()
    ensures Encode(Load(RAX, RBP, -8)) == [0x48, 0x8B, 0x45, 0xF8]
    ensures Encode(Store(RBP, -8, RAX)) == [0x48, 0x89, 0x45, 0xF8]
  {
  }

  lemma KnownArithmeticBytes()
    ensures Encode(AddReg(RAX, RCX)) == [0x48, 0x01, 0xC8] && Encode(SubReg(RAX, RCX)) == [0x48, 0x29, 0xC8]
    ensures Encode(ImulReg(RAX, RCX)) == [0x48, 0x0F, 0xAF, 0xC1] && Encode(NegReg(RAX)) == [0x48, 0xF7, 0xD8]
  {
  }

  lemma KnownTestBytes()
    ensures Encode(CmpReg(RAX, RCX)) == [0x48, 0x39, 0xC8] && Encode(TestReg(RAX, RAX)) == [0x48, 0x85, 0xC0]
    ensures Encode(ZeroExtend(RAX, RAX)) == [0x48, 0x0F, 0xB6, 0xC0] && Encode(SignExtend(RAX, RAX)) == [0x48, 0x63, 0xC0]
  {
  }

  lemma KnownConditionBytes()
    ensures Encode(SetByte(IfEqual, RAX)) == [0x0F, 0x94, 0xC0] && Encode(SetByte(IfNotEqual, RAX)) == [0x0F, 0x95, 0xC0]
    ensures Encode(SetByte(IfLess, RAX)) == [0x0F, 0x9C, 0xC0] && Encode(SetByte(IfGreater, RAX)) == [0x0F, 0x9F, 0xC0]
    ensures Encode(SetByte(IfLessEqual, RAX)) == [0x0F, 0x9E, 0xC0] && Encode(SetByte(IfGreaterEqual, RAX)) == [0x0F, 0x9D, 0xC0]
  {
  }

  // ---------------------------------------------------------------- decoding

  // A REX prefix: operand width, and what it adds to the two register fields.
  datatype Prefix = Prefix(size: nat, w: bool, r: int, b: int)

  function Prefixed(bytes: seq<Byte>): (p: Prefix)
    ensures p.size <= |bytes| && p.size <= 1 && p.r in {0, 8} && p.b in {0, 8}
  {
    if bytes != [] && 0x40 <= bytes[0] < 0x50 then
      var rex := bytes[0] - 0x40;
      Prefix(1, rex >= 8, if rex % 8 >= 4 then 8 else 0, if rex % 2 == 1 then 8 else 0)
    else Prefix(0, false, 0, 0)
  }

  // A decoded operand field: the register field, the base or register in the r/m field, and the bytes it took.
  datatype Operand = Direct(reg: Reg, rm: Reg) | Memory(reg: Reg, base: Reg, disp: I32, size: nat) | Unknown

  /** ModR/M, with a SIB byte before the displacement when the r/m field asks for one; only SIB 0x24 is understood. */
  function DecodeOperand(p: Prefix, bytes: seq<Byte>): (o: Operand)
    requires p.r in {0, 8} && p.b in {0, 8}
    ensures o.Memory? ==> 0 < o.size <= |bytes|
    ensures o.Direct? ==> bytes != []
  {
    if bytes == [] then Unknown
    else
      var mode, reg, low := bytes[0] / 64, bytes[0] / 8 % 8 + p.r, bytes[0] % 8;
      if mode == 3 then Direct(reg, low + p.b)
      else if low == 4 && (|bytes| < 2 || bytes[1] != 0x24) then Unknown
      else
        var at := if low == 4 then 2 else 1;
        if mode == 0 then (if low == 5 then Unknown else Memory(reg, low + p.b, 0, at))
        else if mode == 1 then
          (if |bytes| < at + 1 then Unknown else Memory(reg, low + p.b, SignedByte(bytes[at]), at + 1))
        else if |bytes| < at + 4 then Unknown
        else Memory(reg, low + p.b, FromBytes(bytes[at], bytes[at + 1], bytes[at + 2], bytes[at + 3]), at + 4)
  }

  function DecodeCondition(b: Byte): Option<Condition> {
    if b == 0x94 then Some(IfEqual)
    else if b == 0x95 then Some(IfNotEqual)
    else if b == 0x9C then Some(IfLess)
    else if b == 0x9F then Some(IfGreater)
    else if b == 0x9E then Some(IfLessEqual)
    else if b == 0x9D then Some(IfGreaterEqual)
    else None
  }

  // An instruction and the number of bytes it takes.
  datatype Decoded = Decoded(native: Native, size: nat) | Undecodable

  /** Opcodes behind the escape byte 0F. Without a REX prefix, byte registers 4 to 7 are AH to BH. */
  function DecodeEscaped(p: Prefix, bytes: seq<Byte>): (d: Decoded)
    requires p.r in {0, 8} && p.b in {0, 8} && p.size <= 1
    ensures d.Decoded? ==> d.size <= p.size + 1 + |bytes|
  {
    if |bytes| < 2 then Undecodable
    else
      match DecodeOperand(p, bytes[1..])
      case Direct(reg, rm) =>
        if DecodeCondition(bytes[0]).Some? then
          (if p.size == 0 && rm >= 4 then Undecodable else Decoded(SetByte(DecodeCondition(bytes[0]).value, rm), p.size + 3))
        else if bytes[0] == 0xAF && p.w then Decoded(ImulReg(reg, rm), p.size + 3)
        else if bytes[0] == 0xB6 && p.w then Decoded(ZeroExtend(reg, rm), p.size + 3)
        else Undecodable
      case _ => Undecodable
  }

  /** Opcodes with an immediate operand. */
  function DecodeImmediate(p: Prefix, op: Byte, reg: Reg, rm: Reg, bytes: seq<Byte>): (d: Decoded)
    ensures d.Decoded? ==> d.size <= p.size + 2 + |bytes|
  {
    if op == 0x83 then
      (if reg % 8 == 5 && |bytes| >= 1 then Decoded(SubImm(rm, SignedByte(bytes[0])), p.size + 3) else Undecodable)
    else if |bytes| < 4 then Undecodable
    else
      var imm := FromBytes(bytes[0], bytes[1], bytes[2], bytes[3]);
      if op == 0xC7 && reg % 8 == 0 then Decoded(MoveImm(rm, imm), p.size + 6)
      else if op == 0x81 && reg % 8 == 5 then Decoded(SubImm(rm, imm), p.size + 6)
      else Undecodable
  }

  function DecodeDirect(p: Prefix, op: Byte, reg: Reg, rm: Reg, bytes: seq<Byte>): (d: Decoded)
    ensures d.Decoded? ==> d.size <= p.size + 2 + |bytes|
  {
    if op in {0x81, 0x83, 0xC7} then DecodeImmediate(p, op, reg, rm, bytes)
    else if op == 0x89 then Decoded(Move(rm, reg), p.size + 2)
    else if op == 0x8B then Decoded(Move(reg, rm), p.size + 2)
    else if op == 0x01 then Decoded(AddReg(rm, reg), p.size + 2)
    else if op == 0x29 then Decoded(SubReg(rm, reg), p.size + 2)
    else if op == 0x39 then Decoded(CmpReg(rm, reg), p.size + 2)
    else if op == 0x85 then Decoded(TestReg(rm, reg), p.size + 2)
    else if op == 0x63 then Decoded(SignExtend(reg, rm), p.size + 2)
    else if op == 0xF7 && reg % 8 == 3 then Decoded(NegReg(rm), p.size + 2)
    else Undecodable
  }

  function DecodeOp(p: Prefix, op: Byte, rest: seq<Byte>): (d: Decoded)
    requires p.r in {0, 8} && p.b in {0, 8} && p.size <= 1
    ensures d.Decoded? ==> 0 < d.size <= p.size + 1 + |rest|
  {
    if 0x50 <= op < 0x58 then Decoded(PushReg(op - 0x50 + p.b), p.size + 1)
    else if 0x58 <= op < 0x60 then Decoded(PopReg(op - 0x58 + p.b), p.size + 1)
    else if op == 0xC3 then Decoded(Ret, p.size + 1)
    else if op == 0x0F then DecodeEscaped(p, rest)
    else if !p.w then Undecodable
    else
      match DecodeOperand(p, rest)
      case Direct(reg, rm) => DecodeDirect(p, op, reg, rm, rest[1..])
      case Memory(reg, base, disp, size) =>
        if op == 0x89 then Decoded(Store(base, disp, reg), p.size + 1 + size)
        else if op == 0x8B then Decoded(Load(reg, base, disp), p.size + 1 + size)
        else Undecodable
      case Unknown => Undecodable
  }

  /** The instruction a stream of bytes begins with. */
  function Decode(bytes: seq<Byte>): (d: Decoded)
    ensures d.Decoded? ==> 0 < d.size <= |bytes|
  {
    var p := Prefixed(bytes);
    if |bytes| == p.size then Undecodable else DecodeOp(p, bytes[p.size], bytes[p.size + 1..])
  }

  // ---------------------------------------------------------------- the encoder is inverted by the decoder

  /**
   * Memory operands the encoder gets right. A base whose number ends in 100 needs its SIB byte first, and R13 with no
   * displacement means something else; the JIT uses RBP alone.
   */
  predicate MemEncodable(base: Reg, disp: I32) {
    if base % 8 == RSP then disp == 0 || disp == 0x24 || disp == 0x2424_2424 else !(base == 13 && disp == 0)
  }

  predicate Encodable(n: Native) {
    match n
    case Load(_, base, disp) => MemEncodable(base, disp)
    case Store(base, disp, _) => MemEncodable(base, disp)
    case SetByte(_, dst) => !(4 <= dst < 8)
    case _ => true
  }

  /** Behind a wide prefix. */
  lemma DecodeWide(r: Reg, b: Reg, op: Byte, rest: seq<Byte>)
    ensures var p := Prefix(1, true, r - r % 8, b - b % 8);
      p.r in {0, 8} && p.b in {0, 8} && Decode(Rex(true, r, b) + [op] + rest) == DecodeOp(p, op, rest)
  {
    hide DecodeOp;
    HighBit(r);
    HighBit(b);
    var bytes := Rex(true, r, b) + [op] + rest;
    assert bytes[2..] == rest;
  }

  /** Behind a prefix that only extends a register. */
  lemma DecodeNarrow(reg: Reg, op: Byte, rest: seq<Byte>)
    requires op < 0x40 || op >= 0x50
    ensures var p := Prefix(|Extended(reg)|, false, 0, reg - reg % 8);
      p.b in {0, 8} && Decode(Extended(reg) + [op] + rest) == DecodeOp(p, op, rest)
  {
    hide DecodeOp;
    HighBit(reg);
    var bytes := Extended(reg) + [op] + rest;
    assert bytes[|Extended(reg)| + 1..] == rest;
  }

  lemma ModRmParts(mode: nat, reg: Reg, rm: Reg)
    requires mode < 4
    ensures var b := ModRm(mode, reg, rm); b / 64 == mode && b / 8 % 8 == reg % 8 && b % 8 == rm % 8
  {
    var b := ModRm(mode, reg, rm);
    var r, s := reg % 8, rm % 8;
    assert b == 64 * mode + 8 * r + s && 0 <= r < 8 && 0 <= s < 8;
    assert b / 8 == 8 * mode + r;
  }

  /** The prefix that carries the high bits of two registers. */
  predicate Extends(p: Prefix, reg: Reg, rm: Reg) {
    p.r == reg - reg % 8 && p.b == rm - rm % 8
  }

  lemma HighBit(reg: Reg)
    ensures reg - reg % 8 == if reg >= 8 then 8 else 0
  {
  }

  lemma DirectIs(p: Prefix, reg: Reg, rm: Reg, rest: seq<Byte>)
    requires Extends(p, reg, rm)
    ensures p.r in {0, 8} && p.b in {0, 8}
    ensures DecodeOperand(p, [ModRm(3, reg, rm)] + rest) == Direct(reg, rm)
  {
    hide ModRm;
    ModRmParts(3, reg, rm);
    HighBit(reg);
    HighBit(rm);
  }

  lemma BytesDiffer(a: Byte, b: Byte, c: Byte, d: Byte, a': Byte, b': Byte, c': Byte, d': Byte)
    requires FromBytes(a, b, c, d) == FromBytes(a', b', c', d')
    ensures a == a' && b == b' && c == c' && d == d'
  {
    var k, k' := c + 0x100 * d, c' + 0x100 * d';
    var h, h' := b + 0x100 * k, b' + 0x100 * k';
    LowByte(a, h, a', h');
    LowByte(b, k, b', k');
    LowByte(c, d, c', d');
  }

  lemma LowByte(a: Byte, h: int, a': Byte, h': int)
    requires a + 0x100 * h == a' + 0x100 * h'
    ensures a == a' && h == h'
  {
  }

  /** Read with its first byte taken for the SIB byte, a displacement is unchanged only if all its bytes are 0x24. */
  lemma SibLast(disp: I32)
    ensures var b := LittleEndian(disp);
      b[0] == 0x24 && FromBytes(b[1], b[2], b[3], 0x24) == disp <==> disp == 0x2424_2424
  {
    hide FromBytes, LittleEndian;
    var b := LittleEndian(disp);
    BytesRoundTrip(disp);
    AllEqual();
    if b[0] == 0x24 && FromBytes(b[1], b[2], b[3], 0x24) == disp {
      BytesDiffer(b[1], b[2], b[3], 0x24, b[0], b[1], b[2], b[3]);
    }
    if disp == 0x2424_2424 {
      BytesDiffer(b[0], b[1], b[2], b[3], 0x24, 0x24, 0x24, 0x24);
    }
  }

  lemma AllEqual()
    ensures FromBytes(0x24, 0x24, 0x24, 0x24) == 0x2424_2424
  {
  }

  lemma MemoryIs(p: Prefix, reg: Reg, base: Reg, disp: I32, rest: seq<Byte>)
    requires Extends(p, reg, base)
    ensures p.r in {0, 8} && p.b in {0, 8}
    ensures var bytes := MemBytes(reg, base, disp);
      DecodeOperand(p, bytes + rest) == Memory(reg, base, disp, |bytes|) <==> MemEncodable(base, disp)
  {
    hide ModRm, LittleEndian, FromBytes;
    var mode := if disp == 0 && base != RBP then 0 else if FitsByte(disp) then 1 else 2;
    ModRmParts(mode, reg, base);
    HighBit(reg);
    HighBit(base);
    if FitsByte(disp) {
      ByteRoundTrip(disp);
    } else {
      BytesRoundTrip(disp);
      SibLast(disp);
    }
  }

  lemma ConditionIs(c: Condition)
    ensures DecodeCondition(ConditionByte(c)) == Some(c)
  {
  }

  lemma SetByteIs(n: Native, rest: seq<Byte>)
    requires n.SetByte?
    ensures Decode(Encode(n) + rest) == Decoded(n, |Encode(n)|) <==> Encodable(n)
  {
    hide Decode, ModRm, DecodeOperand, ConditionByte, DecodeCondition;
    ConditionIs(n.condition);
    var operand := [ModRm(3, RAX, n.dst)] + rest;
    var tail := [ConditionByte(n.condition)] + operand;
    DecodeNarrow(n.dst, 0x0F, tail);
    assert Encode(n) + rest == Extended(n.dst) + [0x0F] + tail;
    DirectIs(Prefix(|Extended(n.dst)|, false, 0, n.dst - n.dst % 8), RAX, n.dst, rest);
    assert tail[1..] == operand;
  }

  lemma StackIs(n: Native, rest: seq<Byte>)
    requires n.PushReg? || n.PopReg? || n.Ret?
    ensures Decode(Encode(n) + rest) == Decoded(n, |Encode(n)|)
  {
    hide Decode;
    if n.Ret? {
      DecodeNarrow(RAX, 0xC3, rest);
      assert Encode(n) + rest == Extended(RAX) + [0xC3] + rest;
    } else {
      DecodeNarrow(n.reg, (if n.PushReg? then 0x50 else 0x58) + n.reg % 8, rest);
    }
  }

  lemma MemIs(n: Native, rest: seq<Byte>)
    requires n.Load? || n.Store?
    ensures Decode(Encode(n) + rest) == Decoded(n, |Encode(n)|) <==> Encodable(n)
  {
    hide Decode, DecodeOperand, MemEncodable, MemBytes;
    var reg := if n.Load? then n.dst else n.src;
    var op := if n.Load? then 0x8B else 0x89;
    var mem := MemBytes(reg, n.base, n.disp);
    DecodeWide(reg, n.base, op, mem + rest);
    assert Encode(n) + rest == Rex(true, reg, n.base) + [op] + (mem + rest);
    MemoryIs(Prefix(1, true, reg - reg % 8, n.base - n.base % 8), reg, n.base, n.disp, rest);
  }

  lemma ImmediateIs(n: Native, rest: seq<Byte>)
    requires n.MoveImm? || n.SubImm?
    ensures Decode(Encode(n) + rest) == Decoded(n, |Encode(n)|)
  {
    hide Decode, DecodeOperand, ModRm, FromBytes, LittleEndian;
    var op := if n.MoveImm? then 0xC7 else if FitsByte(n.imm) then 0x83 else 0x81;
    var reg: Reg := if n.MoveImm? then RAX else 5;
    var imm := if n.MoveImm? then LittleEndian(n.imm) else ImmBytes(n.imm);
    var operand := [ModRm(3, reg, n.dst)] + (imm + rest);
    DecodeWide(RAX, n.dst, op, operand);
    assert Encode(n) + rest == Rex(true, RAX, n.dst) + [op] + operand;
    DirectIs(Prefix(1, true, 0, n.dst - n.dst % 8), reg, n.dst, imm + rest);
    assert operand[1..] == imm + rest;
    BytesRoundTrip(n.imm);
    if FitsByte(n.imm) {
      ByteRoundTrip(n.imm);
    }
  }

  /** The register operands of an instruction on two registers, and its opcode. */
  function Operands(n: Native): (Byte, Reg, Reg)
    requires n.Move? || n.AddReg? || n.SubReg? || n.NegReg? || n.CmpReg? || n.TestReg? || n.SignExtend?
  {
    match n
    case Move(dst, src) => (0x89, src, dst)
    case AddReg(dst, src) => (0x01, src, dst)
    case SubReg(dst, src) => (0x29, src, dst)
    case NegReg(dst) => (0xF7, 3, dst)
    case CmpReg(dst, src) => (0x39, src, dst)
    case TestReg(dst, src) => (0x85, src, dst)
    case SignExtend(dst, src) => (0x63, dst, src)
  }

  lemma OperandsAre(n: Native, p: Prefix, rest: seq<Byte>)
    requires n.Move? || n.AddReg? || n.SubReg? || n.NegReg? || n.CmpReg? || n.TestReg? || n.SignExtend?
    ensures var (op, reg, rm) := Operands(n);
      && DecodeDirect(p, op, reg, rm, rest) == Decoded(n, p.size + 2)
      && op in {0x89, 0x01, 0x29, 0xF7, 0x39, 0x85, 0x63}
      && (n.NegReg? ==> reg == 3)
      && (n.NegReg? ==> Encode(n) == Rex(true, RAX, rm) + [op] + [ModRm(3, reg, rm)])
      && (!n.NegReg? ==> Encode(n) == Rex(true, reg, rm) + [op] + [ModRm(3, reg, rm)])
  {
    hide ModRm;
  }

  lemma RegisterIs(n: Native, rest: seq<Byte>)
    requires n.Move? || n.AddReg? || n.SubReg? || n.NegReg? || n.CmpReg? || n.TestReg? || n.SignExtend?
    ensures Decode(Encode(n) + rest) == Decoded(n, |Encode(n)|)
  {
    hide Decode, DecodeOperand, DecodeDirect, ModRm, Encode, Operands, Rex;
    var (op, reg, rm) := Operands(n);
    OperandsAre(n, Prefix(1, true, reg - reg % 8, rm - rm % 8), rest);
    var operand := [ModRm(3, reg, rm)] + rest;
    SmallRex(rm);
    DecodeWide(reg, rm, op, operand);
    DirectIs(Prefix(1, true, reg - reg % 8, rm - rm % 8), reg, rm, rest);
    assert Encode(n) + rest == Rex(true, reg, rm) + [op] + operand;
    assert operand[1..] == rest;
    assert |Encode(n)| == 3;
  }

  lemma SmallRex(rm: Reg)
    ensures Rex(true, 3, rm) == Rex(true, RAX, rm)
    ensures forall r: Reg :: |Rex(true, r, rm)| == 1
  {
  }

  lemma EscapedIs(n: Native, rest: seq<Byte>)
    requires n.ImulReg? || n.ZeroExtend?
    ensures Decode(Encode(n) + rest) == Decoded(n, |Encode(n)|)
  {
    hide Decode, DecodeOperand, ModRm;
    var op := if n.ImulReg? then 0xAF else 0xB6;
    var operand := [ModRm(3, n.dst, n.src)] + rest;
    var tail := [op] + operand;
    DecodeWide(n.dst, n.src, 0x0F, tail);
    DirectIs(Prefix(1, true, n.dst - n.dst % 8, n.src - n.src % 8), n.dst, n.src, rest);
    assert Encode(n) + rest == Rex(true, n.dst, n.src) + [0x0F] + tail;
    assert tail[1..] == operand;
  }

  /** What the JIT emits decodes to the instruction it meant, exactly for the encodable ones. */
  lemma DecodeInvertsEncode(n: Native, rest: seq<Byte>)
    ensures Decode(Encode(n) + rest) == Decoded(n, |Encode(n)|) <==> Encodable(n)
  {
    hide Decode, Encode, MemEncodable;
    match n {
      case PushReg(_) => StackIs(n, rest);
      case PopReg(_) => StackIs(n, rest);
      case Ret => StackIs(n, rest);
      case MoveImm(_, _) => ImmediateIs(n, rest);
      case SubImm(_, _) => ImmediateIs(n, rest);
      case Load(_, _, _) => MemIs(n, rest);
      case Store(_, _, _) => MemIs(n, rest);
      case SetByte(_, _) => SetByteIs(n, rest);
      case ImulReg(_, _) => EscapedIs(n, rest);
      case ZeroExtend(_, _) => EscapedIs(n, rest);
      case _ => RegisterIs(n, rest);
    }
  }
}
