/** Where the size-changing passes find something to do, and that they do it: the patterns, and what stands for each of them. */
module WindowRules {
  import opened Common
  import opened Int32
  import opened Bytecode
  import opened Windows
  import M = Machine

  predicate Loads(code: seq<Instruction>, i: nat) {
    i < |code| && code[i].opcode == Opcode.LoadConst
  }

  predicate Is(code: seq<Instruction>, i: nat, ops: set<Opcode>) {
    i < |code| && code[i].opcode in ops
  }

  /** Two constants and an operator whose result is known. */
  predicate FoldsBinary(code: seq<Instruction>, i: nat) {
    && Loads(code, i) && Loads(code, i + 1)
    && (Is(code, i + 2, {Opcode.Add, Opcode.Sub, Opcode.Mul, Opcode.Eq, Opcode.Ne, Opcode.Lt, Opcode.Gt, Opcode.Le, Opcode.Ge})
        || (Is(code, i + 2, {Opcode.Div}) && code[i + 1].arg1 != 0 && !(code[i].arg1 == I32_MIN && code[i + 1].arg1 == -1)))
  }

  /** Whether a pass finds a pattern at an address. */
  predicate Matches(pass: Pass, code: seq<Instruction>, i: nat) {
    match pass
    case Folding => FoldsBinary(code, i) || (Loads(code, i) && Is(code, i + 1, {Opcode.Neg, Opcode.Not}))
    case Reducing =>
      && Loads(code, i)
      && ((code[i].arg1 == 0 && Is(code, i + 1, {Opcode.Mul, Opcode.Add, Opcode.Sub}))
          || (code[i].arg1 == 1 && Is(code, i + 1, {Opcode.Mul, Opcode.Div})))
    case Peephole =>
      || (Loads(code, i) && Is(code, i + 1, {Opcode.Pop}))
      || (i + 1 < |code| && code[i].opcode == Opcode.Jump && code[i].arg1 == NormalizeI32(i + 1))
  }

  /** How many instructions the pattern has. */
  function Width(pass: Pass, code: seq<Instruction>, i: nat): nat
    requires Matches(pass, code, i)
  {
    if pass == Folding && FoldsBinary(code, i) then 3 else if pass == Peephole && code[i].opcode == Opcode.Jump then 1 else 2
  }

  /** What stands for it: the constant the machine would compute, a zero for what is dropped, or nothing. */
  function Image(pass: Pass, code: seq<Instruction>, i: nat): seq<Instruction>
    requires Matches(pass, code, i)
  {
    match pass
    case Folding =>
      var a := code[i].arg1;
      var value :=
        if FoldsBinary(code, i) then M.Arith(code[i + 2].opcode, a, code[i + 1].arg1)
        else if code[i + 1].opcode == Opcode.Neg then NormalizeI32(-(a as int)) else BoolValue(a == 0);
      [Instruction(Opcode.LoadConst, NormalizeI32(value), 0)]
    case Reducing =>
      if code[i].arg1 == 0 && code[i + 1].opcode == Opcode.Mul then [Instruction(Opcode.Pop, 0, 0), Instruction(Opcode.LoadConst, 0, 0)]
      else []
    case Peephole => []
  }

  lemma FoldWindow(code: seq<Instruction>, i: nat)
    requires i < |code|
    ensures FoldAt(code, i) == if Matches(Folding, code, i) then Window(Width(Folding, code, i), Image(Folding, code, i)) else Window(1, [code[i]])
  {
    hide Wrap64, TruncDiv, NormalizeI32;
  }

  lemma OtherWindow(pass: Pass, code: seq<Instruction>, i: nat)
    requires i < |code| && pass != Folding
    ensures WindowAt(pass, code, i) ==
      if Matches(pass, code, i) then Window(Width(pass, code, i), Image(pass, code, i)) else Window(1, [code[i]])
  {
    hide NormalizeI32;
  }

  /** From left to right, a pattern is replaced where it is found, and anything else is copied. */
  lemma PassesScan(pass: Pass, code: seq<Instruction>, i: nat)
    requires i < |code|
    ensures Matches(pass, code, i) ==> i + Width(pass, code, i) <= |code|
    ensures Matches(pass, code, i) ==>
      Rewritten(pass, code, i) == Image(pass, code, i) + Rewritten(pass, code, i + Width(pass, code, i))
    ensures !Matches(pass, code, i) ==> Rewritten(pass, code, i) == [code[i]] + Rewritten(pass, code, i + 1)
  {
    hide FoldAt, ReduceAt, PeepAt, Image, NormalizeI32;
    if pass == Folding {
      FoldWindow(code, i);
    } else {
      OtherWindow(pass, code, i);
    }
  }

  lemma ImageDiffers(pass: Pass, code: seq<Instruction>, i: nat)
    requires Matches(pass, code, i) && i + Width(pass, code, i) <= |code|
    ensures |Image(pass, code, i)| <= Width(pass, code, i) && 0 < Width(pass, code, i)
    ensures |Image(pass, code, i)| == Width(pass, code, i) ==> Image(pass, code, i)[0] != code[i]
  {
    hide Wrap64, TruncDiv, NormalizeI32, M.Arith;
  }

  /** A pass changes the code exactly when there is something to do anywhere. */
  lemma {:induction false} PassesAct(pass: Pass, code: seq<Instruction>, i: nat)
    requires i <= |code|
    ensures Rewritten(pass, code, i) != code[i..] <==> exists k :: i <= k < |code| && Matches(pass, code, k)
    decreases |code| - i
  {
    hide Matches, Rewritten, Image, Width;
    if i == |code| {
      NothingRewritten(pass, code);
    } else {
      PassesScan(pass, code, i);
      if Matches(pass, code, i) {
        var w := Width(pass, code, i);
        ImageDiffers(pass, code, i);
        Shorter(pass, code, i + w);
        var image, rest := Image(pass, code, i), Rewritten(pass, code, i + w);
        assert |image| == w ==> (image + rest)[0] == image[0] != code[i..][0];
        assert |image| < w ==> |image + rest| < |code[i..]|;
      } else {
        PassesAct(pass, code, i + 1);
        assert code[i..] == [code[i]] + code[i + 1..];
      }
    }
  }

  lemma NothingRewritten(pass: Pass, code: seq<Instruction>)
    ensures Rewritten(pass, code, |code|) == []
  {
  }

  lemma Shorter(pass: Pass, code: seq<Instruction>, i: nat)
    requires i <= |code|
    ensures |Rewritten(pass, code, i)| <= |code| - i
  {
  }
}
