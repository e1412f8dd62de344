/**
 * The size-changing passes keep what a program shows, on jump-free code whose arithmetic sees i32 values and whose run
 * neither under- nor overflows the operand stack nor reaches the cycle limit.
 */
module WindowsCorrect {
  import opened Common
  import opened Int32
  import opened Limits
  import opened Bytecode
  import opened Relocation
  import opened Windows
  import M = Machine

  /** The run ends in none of the traps that depend on how many instructions there are. */
  predicate Proper(r: M.Result) {
    r.trap != CycleLimit && r.trap != StackOverflow && r.trap != StackUnderflow
  }

  predicate IsArithmetic(op: Opcode) {
    op in {Opcode.Add, Opcode.Sub, Opcode.Mul, Opcode.Div}
  }

  /** Both operands of the arithmetic about to be done are i32 values. */
  predicate Narrow(code: seq<Instruction>, s: M.State) {
    s.pc < |code| && IsArithmetic(code[s.pc].opcode) && |s.stack| >= 2 ==>
      IsI32(M.Top(s)) && IsI32(s.stack[|s.stack| - 2])
  }

  /** Arithmetic sees only i32 values, on the whole run. */
  predicate OperandsFit(p: CompiledProgram, s: M.State)
    decreases MAX_CYCLES - s.cycles
  {
    && Narrow(p.instructions, s)
    && match M.TakeTurn(p, s)
       case Next(s') => OperandsFit(p, s')
       case Stop(_) => true
  }

  // ---------------------------------------------------------------- straight-line instructions

  function Needs(op: Opcode): nat {
    if M.IsBinary(op) then 2 else if op == Opcode.LoadConst then 0 else 1
  }

  predicate Straight(op: Opcode) {
    M.IsBinary(op) || op in {Opcode.LoadConst, Opcode.Neg, Opcode.Not, Opcode.Pop}
  }

  /** What a straight-line instruction does to the operands. */
  function Effect(instr: Instruction, stack: seq<int>): (r: seq<int>)
    requires Straight(instr.opcode) && |stack| >= Needs(instr.opcode)
    requires instr.opcode == Opcode.Div ==> stack[|stack| - 1] != 0
  {
    var n := |stack|;
    if instr.opcode == Opcode.LoadConst then stack + [instr.arg1]
    else if instr.opcode == Opcode.Pop then stack[..n - 1]
    else if instr.opcode == Opcode.Neg then stack[..n - 1] + [NormalizeI32(Wrap64(-stack[n - 1]))]
    else if instr.opcode == Opcode.Not then stack[..n - 1] + [BoolValue(stack[n - 1] == 0)]
    else stack[..n - 2] + [M.Arith(instr.opcode, stack[n - 2], stack[n - 1])]
  }

  function After(instr: Instruction, s: M.State): M.State
    requires Straight(instr.opcode) && |s.stack| >= Needs(instr.opcode)
    requires instr.opcode == Opcode.Div ==> s.stack[|s.stack| - 1] != 0
  {
    s.(stack := Effect(instr, s.stack), pc := s.pc + 1, cycles := s.cycles + 1)
  }

  predicate Enabled(p: CompiledProgram, instr: Instruction, s: M.State) {
    && s.pc < |p.instructions| && p.instructions[s.pc] == instr && Straight(instr.opcode) && s.calls != []
    && |s.stack| >= Needs(instr.opcode) && (instr.opcode == Opcode.Div ==> s.stack[|s.stack| - 1] != 0)
  }

  /** There is room for the result. */
  predicate Room(instr: Instruction, s: M.State) {
    instr.opcode == Opcode.Pop || |s.stack| < MAX_OPERAND_STACK + Needs(instr.opcode)
  }

  function StraightStep(instr: Instruction, s: M.State): M.Step
    requires Straight(instr.opcode)
  {
    if instr.opcode == Opcode.LoadConst then M.Push(s, instr.arg1)
    else if instr.opcode == Opcode.Pop then (if s.stack == [] then M.Trapped(StackUnderflow, 0) else M.Advance(M.Drop(s, 1)))
    else if M.IsBinary(instr.opcode) then M.ExecBinary(instr.opcode, s)
    else M.ExecUnary(instr.opcode, s)
  }

  lemma StraightExec(p: CompiledProgram, instr: Instruction, s: M.State)
    requires Straight(instr.opcode)
    ensures M.Exec(p, instr, s) == StraightStep(instr, s)
  {
    hide M.ExecBinary, M.ExecUnary, M.Push, M.Drop;
  }

  lemma BinaryStep(instr: Instruction, s: M.State)
    requires M.IsBinary(instr.opcode) && |s.stack| >= 2 && Room(instr, s)
    requires instr.opcode == Opcode.Div ==> s.stack[|s.stack| - 1] != 0
    ensures StraightStep(instr, s) == M.Advance(s.(stack := Effect(instr, s.stack)))
  {
    hide M.Arith;
  }

  lemma StepEffect(p: CompiledProgram, instr: Instruction, s: M.State)
    requires Enabled(p, instr, s) && Room(instr, s)
    ensures StraightStep(instr, s) == M.Advance(s.(stack := Effect(instr, s.stack)))
  {
    hide M.ExecBinary, M.Arith, NormalizeI32, Wrap64;
    if M.IsBinary(instr.opcode) {
      BinaryStep(instr, s);
    }
  }

  lemma StraightTurn(p: CompiledProgram, instr: Instruction, s: M.State)
    requires Enabled(p, instr, s) && s.cycles < MAX_CYCLES && Room(instr, s)
    ensures M.TakeTurn(p, s) == M.Next(After(instr, s))
  {
    hide M.Exec, StraightStep, Effect;
    var fetched := s.(cycles := s.cycles + 1);
    StraightExec(p, instr, fetched);
    StepEffect(p, instr, fetched);
  }

  lemma ImproperTurn(p: CompiledProgram, s: M.State)
    requires s.pc < |p.instructions| && Straight(p.instructions[s.pc].opcode)
    requires s.cycles >= MAX_CYCLES || |s.stack| < Needs(p.instructions[s.pc].opcode)
          || (!Room(p.instructions[s.pc], s) && (p.instructions[s.pc].opcode == Opcode.Div ==> M.Top(s) != 0))
    ensures M.TakeTurn(p, s).Stop? && !Proper(M.TakeTurn(p, s).result)
  {
    hide M.Exec, M.Arith, NormalizeI32, Wrap64;
    StraightExec(p, p.instructions[s.pc], s.(cycles := s.cycles + 1));
  }

  /** A run that ends properly takes this turn. */
  lemma ProperTurn(p: CompiledProgram, s: M.State)
    requires s.pc < |p.instructions| && Straight(p.instructions[s.pc].opcode) && s.calls != []
    requires Proper(M.RunFrom(p, s))
    requires p.instructions[s.pc].opcode == Opcode.Div && s.stack != [] ==> M.Top(s) != 0
    ensures var instr := p.instructions[s.pc];
      && Enabled(p, instr, s) && s.cycles < MAX_CYCLES && Room(instr, s)
      && M.TakeTurn(p, s) == M.Next(After(instr, s))
      && M.RunFrom(p, s) == M.RunFrom(p, After(instr, s))
  {
    hide M.TakeTurn, Effect;
    var instr := p.instructions[s.pc];
    if s.cycles >= MAX_CYCLES || |s.stack| < Needs(instr.opcode) || !Room(instr, s) {
      ImproperTurn(p, s);
    } else {
      StraightTurn(p, instr, s);
    }
  }

  // ---------------------------------------------------------------- what a window computes

  /** What the replacement of a window makes of the operands; it needs no more room than the window. */
  predicate Yields(emit: seq<Instruction>, before: seq<int>, after: seq<int>) {
    if emit == [] then after == before
    else if |emit| == 1 then
      emit[0].opcode == Opcode.LoadConst && |before| < MAX_OPERAND_STACK && after == before + [emit[0].arg1]
    else
      && |emit| == 2 && emit[0].opcode == Opcode.Pop && emit[1].opcode == Opcode.LoadConst
      && 0 < |before| <= MAX_OPERAND_STACK && after == before[..|before| - 1] + [emit[1].arg1]
  }

  /** The run from s passes through s', n instructions later. */
  ghost predicate Passes(p: CompiledProgram, s: M.State, s': M.State, n: nat) {
    && s' == s.(stack := s'.stack, pc := s.pc + n, cycles := s.cycles + n)
    && s'.cycles <= MAX_CYCLES
    && M.RunFrom(p, s') == M.RunFrom(p, s)
    && (OperandsFit(p, s) ==> OperandsFit(p, s'))
  }

  lemma OneTurn(p: CompiledProgram, s: M.State)
    requires s.pc < |p.instructions| && Straight(p.instructions[s.pc].opcode) && s.calls != []
    requires Proper(M.RunFrom(p, s))
    requires p.instructions[s.pc].opcode == Opcode.Div && s.stack != [] ==> M.Top(s) != 0
    ensures var instr := p.instructions[s.pc];
      && Enabled(p, instr, s) && Room(instr, s) && Passes(p, s, After(instr, s), 1)
  {
    hide M.TakeTurn, Effect;
    ProperTurn(p, s);
  }

  lemma TwoTurns(p: CompiledProgram, s: M.State)
    requires s.pc + 1 < |p.instructions| && s.calls != []
    requires var (a, b) := (p.instructions[s.pc], p.instructions[s.pc + 1]);
      a.opcode == Opcode.LoadConst && Straight(b.opcode) && (b.opcode == Opcode.Div ==> a.arg1 != 0)
    requires Proper(M.RunFrom(p, s))
    ensures var (a, b) := (p.instructions[s.pc], p.instructions[s.pc + 1]);
      && |s.stack| < MAX_OPERAND_STACK && |s.stack| + 1 >= Needs(b.opcode)
      && Passes(p, s, s.(stack := Effect(b, s.stack + [a.arg1]), pc := s.pc + 2, cycles := s.cycles + 2), 2)
  {
    hide M.TakeTurn, M.RunFrom, Effect, OperandsFit;
    var a := p.instructions[s.pc];
    OneTurn(p, s);
    LoadEffect(a, s.stack);
    OneTurn(p, After(a, s));
  }

  lemma LoadEffect(instr: Instruction, stack: seq<int>)
    requires instr.opcode == Opcode.LoadConst
    ensures Effect(instr, stack) == stack + [instr.arg1]
  {
  }

  lemma BinaryEffect(instr: Instruction, stack: seq<int>, value: int)
    requires M.IsBinary(instr.opcode) && stack != [] && (instr.opcode == Opcode.Div ==> value != 0)
    ensures var n := |stack|;
      Effect(instr, stack + [value]) == stack[..n - 1] + [M.Arith(instr.opcode, stack[n - 1], value)]
  {
    hide M.Arith;
    var full := stack + [value];
    assert full[..|full| - 2] == stack[..|stack| - 1];
  }

  lemma ThreeTurns(p: CompiledProgram, s: M.State)
    requires s.pc + 2 < |p.instructions| && s.calls != []
    requires var (a, b, c) := (p.instructions[s.pc], p.instructions[s.pc + 1], p.instructions[s.pc + 2]);
      a.opcode == Opcode.LoadConst && b.opcode == Opcode.LoadConst && M.IsBinary(c.opcode) && (c.opcode == Opcode.Div ==> b.arg1 != 0)
    requires Proper(M.RunFrom(p, s))
    ensures var (a, b, c) := (p.instructions[s.pc], p.instructions[s.pc + 1], p.instructions[s.pc + 2]);
      && |s.stack| < MAX_OPERAND_STACK
      && Passes(p, s, s.(stack := s.stack + [M.Arith(c.opcode, a.arg1, b.arg1)], pc := s.pc + 3, cycles := s.cycles + 3), 3)
  {
    hide M.TakeTurn, M.RunFrom, OperandsFit, M.Arith, Effect;
    var a, b, c := p.instructions[s.pc], p.instructions[s.pc + 1], p.instructions[s.pc + 2];
    OneTurn(p, s);
    LoadEffect(a, s.stack);
    TwoTurns(p, After(a, s));
    BinaryEffect(c, s.stack + [a.arg1 as int], b.arg1);
    assert (s.stack + [a.arg1 as int])[..|s.stack|] == s.stack;
  }

  // ---------------------------------------------------------------- the arithmetic of the windows

  lemma FoldedIsArith(op: Opcode, a: I32, b: I32)
    requires Folded(op, a, b).Some?
    ensures M.IsBinary(op) && (op == Opcode.Div ==> b != 0)
    ensures M.Arith(op, a, b) == Folded(op, a, b).value
  {
    hide Wrap64, TruncDiv;
  }

  lemma NegFits(a: I32)
    ensures NormalizeI32(Wrap64(0 - a)) == NormalizeI32(0 - a)
  {
    hide NormalizeI32;
    assert Wrap64(0 - a) == 0 - a;
  }

  lemma NeutralArith(op: Opcode, x: int, value: I32)
    requires Neutral(op, value) && IsI32(x)
    ensures M.IsBinary(op) && (op == Opcode.Div ==> value != 0)
    ensures M.Arith(op, x, value) == x
  {
    assert x * 1 == x;
  }

  lemma TimesZero(x: int)
    ensures M.Arith(Opcode.Mul, x, 0) == 0
  {
    assert x * 0 == 0;
  }

  lemma FoldWindow(p: CompiledProgram, s: M.State) returns (s': M.State)
    requires s.pc < |p.instructions| && s.calls != [] && Proper(M.RunFrom(p, s))
    requires FoldAt(p.instructions, s.pc) != Copy(p.instructions, s.pc)
    ensures Passes(p, s, s', FoldAt(p.instructions, s.pc).take)
    ensures Yields(FoldAt(p.instructions, s.pc).emit, s.stack, s'.stack)
  {
    hide M.RunFrom, OperandsFit, M.Arith, Passes, NormalizeI32, Wrap64, Folded;
    var code, i := p.instructions, s.pc;
    var w := FoldAt(code, i);
    if w.take == 3 {
      FoldedIsArith(code[i + 2].opcode, code[i].arg1, code[i + 1].arg1);
      ThreeTurns(p, s);
      s' := s.(stack := s.stack + [M.Arith(code[i + 2].opcode, code[i].arg1, code[i + 1].arg1)], pc := i + 3, cycles := s.cycles + 3);
    } else {
      TwoTurns(p, s);
      NegFits(code[i].arg1);
      var full := s.stack + [code[i].arg1 as int];
      assert full[..|full| - 1] == s.stack;
      s' := s.(stack := Effect(code[i + 1], full), pc := i + 2, cycles := s.cycles + 2);
    }
  }

  lemma SecondNarrow(p: CompiledProgram, s: M.State)
    requires s.pc + 1 < |p.instructions| && p.instructions[s.pc].opcode == Opcode.LoadConst
    requires s.calls != [] && Proper(M.RunFrom(p, s)) && OperandsFit(p, s) && s.stack != []
    ensures IsArithmetic(p.instructions[s.pc + 1].opcode) ==> IsI32(M.Top(s))
  {
    hide M.RunFrom, M.TakeTurn;
    OneTurn(p, s);
    LoadEffect(p.instructions[s.pc], s.stack);
    var s1 := After(p.instructions[s.pc], s);
    assert Narrow(p.instructions, s1);
    assert s1.stack[|s1.stack| - 2] == M.Top(s);
  }

  lemma ReduceWindow(p: CompiledProgram, s: M.State) returns (s': M.State)
    requires s.pc < |p.instructions| && s.calls != [] && Proper(M.RunFrom(p, s)) && OperandsFit(p, s)
    requires ReduceAt(p.instructions, s.pc) != Copy(p.instructions, s.pc)
    ensures Passes(p, s, s', ReduceAt(p.instructions, s.pc).take)
    ensures Yields(ReduceAt(p.instructions, s.pc).emit, s.stack, s'.stack)
  {
    hide M.RunFrom, M.TakeTurn, M.Arith, OperandsFit, Proper, Effect, Passes;
    var code, i := p.instructions, s.pc;
    var a, b := code[i], code[i + 1];
    TwoTurns(p, s);
    SecondNarrow(p, s);
    var n := |s.stack|;
    BinaryEffect(b, s.stack, a.arg1);
    s' := s.(stack := Effect(b, s.stack + [a.arg1 as int]), pc := i + 2, cycles := s.cycles + 2);
    if a.arg1 == 0 && b.opcode == Opcode.Mul {
      TimesZero(s.stack[n - 1]);
    } else {
      NeutralArith(b.opcode, s.stack[n - 1], a.arg1);
      assert s.stack[..n - 1] + [s.stack[n - 1]] == s.stack;
    }
  }

  lemma PeepWindow(p: CompiledProgram, s: M.State) returns (s': M.State)
    requires s.pc < |p.instructions| && s.calls != [] && Proper(M.RunFrom(p, s))
    requires PeepAt(p.instructions, s.pc) != Copy(p.instructions, s.pc) && !IsJump(p.instructions[s.pc].opcode)
    ensures Passes(p, s, s', PeepAt(p.instructions, s.pc).take)
    ensures Yields(PeepAt(p.instructions, s.pc).emit, s.stack, s'.stack)
  {
    hide M.RunFrom, M.TakeTurn, OperandsFit;
    TwoTurns(p, s);
    var full := s.stack + [p.instructions[s.pc].arg1 as int];
    assert full[..|full| - 1] == s.stack;
    s' := s.(stack := s.stack, pc := s.pc + 2, cycles := s.cycles + 2);
  }

  // ---------------------------------------------------------------- runs

  function Rewrite(pass: Pass, p: CompiledProgram): CompiledProgram {
    p.(instructions := Rewritten(pass, p.instructions, 0))
  }

  /** Address b of the new code is where the rest from a on has gone. */
  predicate Boundary(pass: Pass, code: seq<Instruction>, a: nat, b: nat) {
    && a <= |code| && b <= |Rewritten(pass, code, 0)|
    && Rewritten(pass, code, 0)[b..] == Rewritten(pass, code, a)
  }

  ghost function Boundaries(pass: Pass, code: seq<Instruction>): Landing {
    iset a: nat, b: nat | Boundary(pass, code, a, b) :: (a, b)
  }

  lemma WindowLands(pass: Pass, code: seq<Instruction>, a: nat, b: nat)
    requires Boundary(pass, code, a, b) && a < |code|
    ensures var w := WindowAt(pass, code, a);
      && b + |w.emit| <= |Rewritten(pass, code, 0)|
      && Rewritten(pass, code, 0)[b..b + |w.emit|] == w.emit
      && Boundary(pass, code, a + w.take, b + |w.emit|)
  {
    var w := WindowAt(pass, code, a);
    var all := Rewritten(pass, code, 0);
    var rest := Rewritten(pass, code, a + w.take);
    assert all[b..] == w.emit + rest;
    assert all[b..][..|w.emit|] == w.emit && all[b..][|w.emit|..] == rest;
  }

  /** The machine does what the replacement says, unless it was replaced by nothing. */
  lemma EmitRuns(q: CompiledProgram, t: M.State, emit: seq<Instruction>, after: seq<int>)
    requires t.pc + |emit| <= |q.instructions| && q.instructions[t.pc..t.pc + |emit|] == emit
    requires t.calls != [] && t.cycles + |emit| <= MAX_CYCLES && Yields(emit, t.stack, after)
    ensures var t' := t.(stack := after, pc := t.pc + |emit|, cycles := t.cycles + |emit|);
      && M.RunFrom(q, t) == M.RunFrom(q, t') && (OperandsFit(q, t') ==> OperandsFit(q, t))
  {
    hide M.TakeTurn, M.Exec;
    if |emit| > 0 {
      assert q.instructions[t.pc] == emit[0];
      StraightTurn(q, emit[0], t);
      if |emit| == 2 {
        assert q.instructions[t.pc + 1] == emit[1];
        StraightTurn(q, emit[1], After(emit[0], t));
      }
    }
  }

  lemma WindowRuns(pass: Pass, p: CompiledProgram, s: M.State) returns (s': M.State)
    requires s.pc < |p.instructions| && s.calls != [] && Proper(M.RunFrom(p, s)) && OperandsFit(p, s)
    requires WindowAt(pass, p.instructions, s.pc) != Copy(p.instructions, s.pc) && NoJumps(p.instructions)
    ensures Passes(p, s, s', WindowAt(pass, p.instructions, s.pc).take)
    ensures Yields(WindowAt(pass, p.instructions, s.pc).emit, s.stack, s'.stack)
  {
    hide M.RunFrom, M.TakeTurn, OperandsFit, Proper, Passes, Yields, FoldAt, ReduceAt, PeepAt;
    match pass
    case Folding => s' := FoldWindow(p, s);
    case Reducing => s' := ReduceWindow(p, s);
    case Peephole => s' := PeepWindow(p, s);
  }

  ghost predicate Tracks(pass: Pass, p: CompiledProgram, s: M.State, t: M.State) {
    Moved(p, Rewrite(pass, p), Boundaries(pass, p.instructions), s, t) && t.cycles <= s.cycles <= MAX_CYCLES
  }

  predicate Shows(p: CompiledProgram, q: CompiledProgram, s: M.State, t: M.State) {
    && SameOutcome(M.RunFrom(p, s), M.RunFrom(q, t)) && M.RunFrom(q, t).cycles <= M.RunFrom(p, s).cycles
    && OperandsFit(q, t)
  }

  lemma TracksParts(pass: Pass, p: CompiledProgram, s: M.State, t: M.State)
    requires Tracks(pass, p, s, t)
    ensures s.calls != [] && t.calls != [] && t.stack == s.stack && Boundary(pass, p.instructions, s.pc, t.pc)
    ensures t == s.(pc := t.pc, calls := t.calls, cycles := t.cycles) && t.cycles <= s.cycles <= MAX_CYCLES
  {
  }

  lemma TracksOn(pass: Pass, p: CompiledProgram, s: M.State, t: M.State, n: nat, m: nat, stack: seq<int>)
    requires Tracks(pass, p, s, t) && m <= n && s.cycles + n <= MAX_CYCLES
    requires Boundary(pass, p.instructions, s.pc + n, t.pc + m)
    ensures Tracks(pass, p, s.(stack := stack, pc := s.pc + n, cycles := s.cycles + n),
                   t.(stack := stack, pc := t.pc + m, cycles := t.cycles + m))
  {
    hide SameCalls, Rewrite, Boundary;
  }

  /** A copied instruction does the same on both sides. */
  lemma CopyTurn(pass: Pass, p: CompiledProgram, s: M.State, t: M.State)
    requires Tracks(pass, p, s, t) && NoJumps(p.instructions) && EntersAtZero(p)
    requires s.pc < |p.instructions| && WindowAt(pass, p.instructions, s.pc) == Copy(p.instructions, s.pc)
    requires s.cycles < MAX_CYCLES
    ensures var q := Rewrite(pass, p);
      && t.pc < |q.instructions| && q.instructions[t.pc] == p.instructions[s.pc]
      && TurnsAlike(p, q, Boundaries(pass, p.instructions), M.TakeTurn(p, s), M.TakeTurn(q, t))
      && Took(M.TakeTurn(p, s), s.cycles + 1) && Took(M.TakeTurn(q, t), t.cycles + 1)
  {
    hide M.TakeTurn, SameCalls;
    var q := Rewrite(pass, p);
    WindowLands(pass, p.instructions, s.pc, t.pc);
    var w := WindowAt(pass, p.instructions, s.pc);
    assert q.instructions[t.pc..t.pc + |w.emit|][0] == q.instructions[t.pc];
    assert (0, 0) in Boundaries(pass, p.instructions);
    TurnMoves(p, q, Boundaries(pass, p.instructions), s, t);
  }

  predicate EntersAtZero(p: CompiledProgram) {
    forall id <- p.functions :: p.functions[id].entryPc == 0
  }

  lemma {:induction false} RewrittenRunsFrom(pass: Pass, p: CompiledProgram, s: M.State, t: M.State)
    requires Tracks(pass, p, s, t) && NoJumps(p.instructions) && EntersAtZero(p)
    requires Proper(M.RunFrom(p, s)) && OperandsFit(p, s)
    ensures Shows(p, Rewrite(pass, p), s, t)
    decreases MAX_CYCLES - s.cycles
  {
    hide M.TakeTurn, Tracks, WindowAt, Boundary, Yields, Rewritten;
    var q := Rewrite(pass, p);
    TracksParts(pass, p, s, t);
    if s.pc >= |p.instructions| || s.cycles >= MAX_CYCLES {
      EndReached(pass, p, s, t);
    } else if WindowAt(pass, p.instructions, s.pc) == Copy(p.instructions, s.pc) {
      CopyTurn(pass, p, s, t);
      if M.TakeTurn(p, s).Next? {
        TracksNext(pass, p, s, t);
        RewrittenRunsFrom(pass, p, M.TakeTurn(p, s).st, M.TakeTurn(q, t).st);
      }
    } else {
      var w := WindowAt(pass, p.instructions, s.pc);
      WindowLands(pass, p.instructions, s.pc, t.pc);
      var s' := WindowRuns(pass, p, s);
      var t' := t.(stack := s'.stack, pc := t.pc + |w.emit|, cycles := t.cycles + |w.emit|);
      TracksOn(pass, p, s, t, w.take, |w.emit|, s'.stack);
      RewrittenRunsFrom(pass, p, s', t');
      EmitRuns(q, t, w.emit, s'.stack);
    }
  }

  lemma EndReached(pass: Pass, p: CompiledProgram, s: M.State, t: M.State)
    requires Tracks(pass, p, s, t) && Proper(M.RunFrom(p, s))
    requires s.pc >= |p.instructions| || s.cycles >= MAX_CYCLES
    ensures Shows(p, Rewrite(pass, p), s, t)
  {
  }

  lemma TracksNext(pass: Pass, p: CompiledProgram, s: M.State, t: M.State)
    requires var (a, b) := (M.TakeTurn(p, s), M.TakeTurn(Rewrite(pass, p), t));
      && a.Next? && TurnsAlike(p, Rewrite(pass, p), Boundaries(pass, p.instructions), a, b)
      && Took(a, s.cycles + 1) && Took(b, t.cycles + 1)
    requires t.cycles <= s.cycles < MAX_CYCLES
    ensures Tracks(pass, p, M.TakeTurn(p, s).st, M.TakeTurn(Rewrite(pass, p), t).st)
  {
  }
}
