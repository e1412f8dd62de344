/**
 * The optimizer's size-changing passes: constant folding, strength reduction and the peephole pass. Each walks the code
 * once and replaces short windows of instructions.
 */
module Windows {
  import opened Common
  import opened Int32
  import opened Bytecode
  import opened Relocation

  datatype Pass = Folding | Reducing | Peephole

  // How many instructions a window takes from the code, and what it leaves instead.
  datatype Window = Window(take: nat, emit: seq<Instruction>)

  function Load(value: I32): Instruction {
    Instruction(Opcode.LoadConst, value, 0)
  }

  /** The value of an operator on two constants, where the optimizer knows it. */
  function Folded(op: Opcode, a: I32, b: I32): Option<I32> {
    match op
    case Add => Some(NormalizeI32(Wrap64(a + b)))
    case Sub => Some(NormalizeI32(Wrap64(a - b)))
    case Mul => Some(NormalizeI32(Wrap64(a * b)))
    case Div => if b != 0 && !(a == I32_MIN && b == -1) then Some(NormalizeI32(TruncDiv(a, b))) else None
    case Eq => Some(if a == b then 1 else 0)
    case Ne => Some(if a != b then 1 else 0)
    case Lt => Some(if a < b then 1 else 0)
    case Gt => Some(if a > b then 1 else 0)
    case Le => Some(if a <= b then 1 else 0)
    case Ge => Some(if a >= b then 1 else 0)
    case _ => None
  }

  predicate LoadsAt(code: seq<Instruction>, i: nat) {
    i < |code| && code[i].opcode == Opcode.LoadConst
  }

  function Copy(code: seq<Instruction>, i: nat): Window
    requires i < |code|
  {
    Window(1, [code[i]])
  }

  function FoldAt(code: seq<Instruction>, i: nat): Window
    requires i < |code|
  {
    if !LoadsAt(code, i) then Copy(code, i)
    else if i + 2 < |code| && LoadsAt(code, i + 1) && Folded(code[i + 2].opcode, code[i].arg1, code[i + 1].arg1).Some? then
      Window(3, [Load(Folded(code[i + 2].opcode, code[i].arg1, code[i + 1].arg1).value)])
    else if i + 1 < |code| && code[i + 1].opcode == Opcode.Neg then Window(2, [Load(NormalizeI32(0 - code[i].arg1))])
    else if i + 1 < |code| && code[i + 1].opcode == Opcode.Not then Window(2, [Load(if code[i].arg1 == 0 then 1 else 0)])
    else Copy(code, i)
  }

  /** Operators that leave their left operand alone when the right one is this constant. */
  predicate Neutral(op: Opcode, value: I32) {
    (value == 1 && (op == Opcode.Mul || op == Opcode.Div)) || (value == 0 && (op == Opcode.Add || op == Opcode.Sub))
  }

  function ReduceAt(code: seq<Instruction>, i: nat): Window
    requires i < |code|
  {
    if !LoadsAt(code, i) || i + 1 >= |code| then Copy(code, i)
    else if code[i].arg1 == 0 && code[i + 1].opcode == Opcode.Mul then Window(2, [Instruction(Opcode.Pop, 0, 0), Load(0)])
    else if Neutral(code[i + 1].opcode, code[i].arg1) then Window(2, [])
    else Copy(code, i)
  }

  function PeepAt(code: seq<Instruction>, i: nat): Window
    requires i < |code|
  {
    if i + 1 >= |code| then Copy(code, i)
    else if LoadsAt(code, i) && code[i + 1].opcode == Opcode.Pop then Window(2, [])
    else if code[i].opcode == Opcode.Jump && code[i].arg1 == NormalizeI32(i + 1) then Window(1, [])
    else Copy(code, i)
  }

  function WindowAt(pass: Pass, code: seq<Instruction>, i: nat): (w: Window)
    requires i < |code|
    ensures 0 < w.take && i + w.take <= |code| && |w.emit| <= w.take
  {
    match pass
    case Folding => FoldAt(code, i)
    case Reducing => ReduceAt(code, i)
    case Peephole => PeepAt(code, i)
  }

  /** What a pass makes of the code from i on. */
  function Rewritten(pass: Pass, code: seq<Instruction>, i: nat): (r: seq<Instruction>)
    requires i <= |code|
    ensures |r| <= |code| - i
    decreases |code| - i
  {
    if i == |code| then []
    else
      var w := WindowAt(pass, code, i);
      w.emit + Rewritten(pass, code, i + w.take)
  }

  /** One window further: what is written so far, and what is still to come. */
  lemma WindowDone(pass: Pass, code: seq<Instruction>, i: nat, done: seq<Instruction>)
    requires i < |code|
    ensures var w := WindowAt(pass, code, i);
      && done + Rewritten(pass, code, i) == done + w.emit + Rewritten(pass, code, i + w.take)
      && (w.emit == [] ==> done + w.emit == done)
  {
    var w := WindowAt(pass, code, i);
    var rest := Rewritten(pass, code, i + w.take);
    assert done + (w.emit + rest) == done + w.emit + rest;
  }

  lemma RewrittenEnds(pass: Pass, code: seq<Instruction>, done: seq<Instruction>)
    ensures done + Rewritten(pass, code, |code|) == done
  {
  }

  method ConstantFolding(code: seq<Instruction>) returns (result: seq<Instruction>)
    ensures result == Rewritten(Folding, code, 0)
  {
    hide Rewritten, NormalizeI32, Wrap64, TruncDiv;
    result := [];
    var i: nat := 0;
    while i < |code|
      invariant i <= |code|
      invariant result + Rewritten(Folding, code, i) == Rewritten(Folding, code, 0)
    {
      WindowDone(Folding, code, i, result);
      if i + 2 < |code| {
        if code[i].opcode == Opcode.LoadConst && code[i + 1].opcode == Opcode.LoadConst {
          var folded := Folded(code[i + 2].opcode, code[i].arg1, code[i + 1].arg1);
          if folded.Some? {
            result := result + [Instruction(Opcode.LoadConst, folded.value, 0)];
            i := i + 3;
            continue;
          }
        }
      }
      if i + 1 < |code| {
        if code[i].opcode == Opcode.LoadConst && code[i + 1].opcode == Opcode.Neg {
          result := result + [Instruction(Opcode.LoadConst, NormalizeI32(0 - code[i].arg1), 0)];
          i := i + 2;
          continue;
        }
        if code[i].opcode == Opcode.LoadConst && code[i + 1].opcode == Opcode.Not {
          result := result + [Instruction(Opcode.LoadConst, if code[i].arg1 == 0 then 1 else 0, 0)];
          i := i + 2;
          continue;
        }
      }
      result := result + [code[i]];
      i := i + 1;
    }
    RewrittenEnds(Folding, code, result);
  }

  method StrengthReduction(code: seq<Instruction>) returns (result: seq<Instruction>)
    ensures result == Rewritten(Reducing, code, 0)
  {
    hide Rewritten, NormalizeI32, Wrap64, TruncDiv;
    result := [];
    var i: nat := 0;
    while i < |code|
      invariant i <= |code|
      invariant result + Rewritten(Reducing, code, i) == Rewritten(Reducing, code, 0)
    {
      WindowDone(Reducing, code, i, result);
      if i + 1 < |code| {
        var first, second := code[i], code[i + 1];
        if first.opcode == Opcode.LoadConst && first.arg1 == 0 && second.opcode == Opcode.Mul {
          result := result + [Instruction(Opcode.Pop, 0, 0), Instruction(Opcode.LoadConst, 0, 0)];
          i := i + 2;
          continue;
        }
        if first.opcode == Opcode.LoadConst && first.arg1 == 1 && second.opcode == Opcode.Mul {
          i := i + 2;
          continue;
        }
        if first.opcode == Opcode.LoadConst && first.arg1 == 0 && second.opcode == Opcode.Add {
          i := i + 2;
          continue;
        }
        if first.opcode == Opcode.LoadConst && first.arg1 == 0 && second.opcode == Opcode.Sub {
          i := i + 2;
          continue;
        }
        if first.opcode == Opcode.LoadConst && first.arg1 == 1 && second.opcode == Opcode.Div {
          i := i + 2;
          continue;
        }
      }
      result := result + [code[i]];
      i := i + 1;
    }
    RewrittenEnds(Reducing, code, result);
  }

  method PeepholeOptimization(code: seq<Instruction>) returns (result: seq<Instruction>)
    ensures result == Rewritten(Peephole, code, 0)
  {
    hide Rewritten, NormalizeI32, Wrap64, TruncDiv;
    result := [];
    var i: nat := 0;
    while i < |code|
      invariant i <= |code|
      invariant result + Rewritten(Peephole, code, i) == Rewritten(Peephole, code, 0)
    {
      WindowDone(Peephole, code, i, result);
      if i + 1 < |code| {
        if code[i].opcode == Opcode.LoadConst && code[i + 1].opcode == Opcode.Pop {
          i := i + 2;
          continue;
        }
        if code[i].opcode == Opcode.Jump && code[i].arg1 == NormalizeI32(i + 1) {
          i := i + 1;
          continue;
        }
      }
      result := result + [code[i]];
      i := i + 1;
    }
    RewrittenEnds(Peephole, code, result);
  }

  // ---------------------------------------------------------------- when the passes may run

  predicate NoJumps(code: seq<Instruction>) {
    forall i :: 0 <= i < |code| ==> !IsJump(code[i].opcode)
  }

  lemma {:induction false} RewrittenJumpFree(pass: Pass, code: seq<Instruction>, i: nat)
    requires i <= |code| && NoJumps(code)
    ensures NoJumps(Rewritten(pass, code, i))
    decreases |code| - i
  {
    if i < |code| {
      var w := WindowAt(pass, code, i);
      assert NoJumps(w.emit);
      RewrittenJumpFree(pass, code, i + w.take);
    }
  }
}
