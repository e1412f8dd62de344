/**
 * What the operators compute, in whole numbers: the one i32 that is the exact result up to a multiple of 2^32, the
 * quotient that truncates toward zero, and one or zero for a condition.
 */
module Operators {
  import opened Common
  import opened Int32
  import opened Limits
  import opened Ast
  import opened Bytecode
  import O = Oracle
  import M = Machine
  import G = GcMachine

  // ---------------------------------------------------------------- numbers

  /** The i32 that differs from a number by a multiple of 2^32. */
  ghost predicate Narrows(r: int, x: int) {
    IsI32(r) && exists k: int :: r == x + k * TWO_32
  }

  /** A quotient that leaves a remainder closer to zero than the divisor, on the dividend's side. */
  predicate Truncates(q: int, a: int, b: int) {
    var r := a - q * b;
    && (if b < 0 then b < r < -b else -b < r < b)
    && (r < 0 ==> a < 0) && (r > 0 ==> a > 0)
  }

  predicate Decides(r: int, condition: bool) {
    if condition then r == 1 else r == 0
  }

  /** Only one number narrows another. */
  lemma NarrowedOnce(x: int, r: int, r': int)
    requires Narrows(r, x) && Narrows(r', x)
    ensures r == r'
  {
    var k: int :| r == x + k * TWO_32;
    var k': int :| r' == x + k' * TWO_32;
    assert r - r' == (k - k') * TWO_32;
  }

  /** Only one quotient truncates. */
  lemma TruncatedOnce(a: int, b: int, q: int, q': int)
    requires b != 0 && Truncates(q, a, b) && Truncates(q', a, b)
    ensures q == q'
  {
    var d := q - q';
    assert d * b == (a - q' * b) - (a - q * b);
    Multiples(d, b);
  }

  lemma Multiples(d: int, b: int)
    ensures d >= 1 && b > 0 ==> d * b >= b
    ensures d >= 1 && b < 0 ==> d * b <= b
    ensures d <= -1 && b > 0 ==> d * b <= -b
    ensures d <= -1 && b < 0 ==> d * b >= -b
  {
  }

  lemma {:induction false} ProductGrows(q: nat, k: nat, n: nat)
    requires k <= n
    ensures q * k <= q * n
  {
    if k < n {
      ProductGrows(q, k, n - 1);
      assert q * n == q * (n - 1) + q;
    }
  }

  lemma Divided(m: nat, n: nat)
    requires n > 0
    ensures m / n >= 0 && m == (m / n) * n + m % n && 0 <= m % n < n
  {
  }

  lemma QuotientBelow(m: nat, n: nat)
    requires n > 0
    ensures 0 <= m / n <= m
    ensures n >= 2 ==> 2 * (m / n) <= m
  {
    Divided(m, n);
    ProductGrows(m / n, 1, n);
    if n >= 2 {
      ProductGrows(m / n, 2, n);
    }
  }

  lemma Signs(k: int, n: int)
    ensures (-k) * n == -(k * n) && k * (-n) == -(k * n) && (-k) * (-n) == k * n
  {
  }

  lemma NormalizeNarrows(x: int)
    ensures Narrows(NormalizeI32(x), x)
  {
    var k := x / TWO_32;
    assert x == k * TWO_32 + x % TWO_32;
    assert NormalizeI32(x) == x + (-k) * TWO_32 || NormalizeI32(x) == x + (-k - 1) * TWO_32;
  }

  /** Wrapping at 64 bits first makes no difference. */
  lemma WrapNarrows(x: int)
    ensures Narrows(NormalizeI32(Wrap64(x)), x)
  {
    var k := x / TWO_64;
    assert x == k * TWO_64 + x % TWO_64;
    var w := Wrap64(x);
    var j := if w == x - k * TWO_64 then -k else -k - 1;
    assert w == x + j * TWO_64;
    NormalizeNarrows(w);
    var i: int :| NormalizeI32(w) == w + i * TWO_32;
    assert NormalizeI32(w) == x + (j * TWO_32 + i) * TWO_32;
  }

  lemma TruncDivTruncates(a: int, b: int)
    requires b != 0
    ensures Truncates(TruncDiv(a, b), a, b)
  {
    var m, n := if a >= 0 then a else -a, if b > 0 then b else -b;
    Divided(m, n);
    Signs(m / n, n);
  }

  /** Only the least i32 divided by -1 has a quotient that is no i32; it narrows to the least i32 again. */
  lemma QuotientFits(a: I32, b: I32)
    requires b != 0
    ensures !(a == I32_MIN && b == -1) ==> NormalizeI32(TruncDiv(a, b)) == TruncDiv(a, b)
    ensures a == I32_MIN && b == -1 ==> NormalizeI32(TruncDiv(a, b)) == I32_MIN
  {
    var m, n := if a >= 0 then a as int else -(a as int), if b > 0 then b as int else -(b as int);
    QuotientBelow(m, n);
    assert n == 1 ==> m / n == m;
  }

  // ---------------------------------------------------------------- the language

  /** What the source language's binary operators yield on two i32s. */
  lemma OracleOperators(op: BinaryOp, a: I32, b: I32)
    requires op != BinaryOp.And && op != BinaryOp.Or
    ensures O.EvalBinary(op, a, b).Fail? <==> op == BinaryOp.Div && b == 0
    ensures op == BinaryOp.Div && b == 0 ==> O.EvalBinary(op, a, b).code == DivideByZero
    ensures op == BinaryOp.Add ==> Narrows(O.EvalBinary(op, a, b).value, a + b)
    ensures op == BinaryOp.Sub ==> Narrows(O.EvalBinary(op, a, b).value, a - b)
    ensures op == BinaryOp.Mul ==> Narrows(O.EvalBinary(op, a, b).value, a * b)
    ensures op == BinaryOp.Div && b != 0 && !(a == I32_MIN && b == -1) ==> Truncates(O.EvalBinary(op, a, b).value, a, b)
    ensures op == BinaryOp.Div && b == -1 && a == I32_MIN ==> O.EvalBinary(op, a, b).value == I32_MIN
    ensures op == BinaryOp.Eq ==> Decides(O.EvalBinary(op, a, b).value, a == b)
    ensures op == BinaryOp.Ne ==> Decides(O.EvalBinary(op, a, b).value, a != b)
    ensures op == BinaryOp.Lt ==> Decides(O.EvalBinary(op, a, b).value, a < b)
    ensures op == BinaryOp.Gt ==> Decides(O.EvalBinary(op, a, b).value, a > b)
    ensures op == BinaryOp.Le ==> Decides(O.EvalBinary(op, a, b).value, a <= b)
    ensures op == BinaryOp.Ge ==> Decides(O.EvalBinary(op, a, b).value, a >= b)
  {
    hide NormalizeI32, Wrap64, TruncDiv, Narrows, Truncates;
    WrapNarrows(a + b);
    WrapNarrows(a - b);
    WrapNarrows(a * b);
    if op == BinaryOp.Div && b != 0 {
      QuotientFits(a, b);
      TruncDivTruncates(a, b);
    }
  }

  lemma OracleNegates(a: I32)
    ensures Narrows(O.EvalUnary(UnaryOp.Neg, a), -(a as int))
    ensures Decides(O.EvalUnary(UnaryOp.Not, a), a == 0)
  {
    WrapNarrows(-(a as int));
  }

  /** What the machine's operators leave for two i32s. */
  lemma MachineOperators(op: Opcode, a: I32, b: I32)
    requires M.IsBinary(op) && (op == Opcode.Div ==> b != 0)
    ensures op == Opcode.Add ==> Narrows(M.Arith(op, a, b), a + b)
    ensures op == Opcode.Sub ==> Narrows(M.Arith(op, a, b), a - b)
    ensures op == Opcode.Mul ==> Narrows(M.Arith(op, a, b), a * b)
    ensures op == Opcode.Div && !(a == I32_MIN && b == -1) ==> Truncates(M.Arith(op, a, b), a, b)
    ensures op == Opcode.Div && b == -1 && a == I32_MIN ==> M.Arith(op, a, b) == I32_MIN
    ensures op == Opcode.Eq ==> Decides(M.Arith(op, a, b), a == b)
    ensures op == Opcode.Ne ==> Decides(M.Arith(op, a, b), a != b)
    ensures op == Opcode.Lt ==> Decides(M.Arith(op, a, b), a < b)
    ensures op == Opcode.Gt ==> Decides(M.Arith(op, a, b), a > b)
    ensures op == Opcode.Le ==> Decides(M.Arith(op, a, b), a <= b)
    ensures op == Opcode.Ge ==> Decides(M.Arith(op, a, b), a >= b)
    ensures op == Opcode.And ==> Decides(M.Arith(op, a, b), a != 0 && b != 0)
    ensures op == Opcode.Or ==> Decides(M.Arith(op, a, b), a != 0 || b != 0)
  {
    hide NormalizeI32, Wrap64, TruncDiv, Narrows, Truncates;
    WrapNarrows(a + b);
    WrapNarrows(a - b);
    WrapNarrows(a * b);
    if op == Opcode.Div {
      QuotientFits(a, b);
      TruncDivTruncates(a, b);
    }
  }

  lemma MachineNegates(p: CompiledProgram, instr: Instruction, st: M.State)
    requires instr.opcode == Opcode.Neg || instr.opcode == Opcode.Not
    requires st.stack != [] && IsI32(M.Top(st)) && |st.stack| <= MAX_OPERAND_STACK
    ensures var after, rest := M.Exec(p, instr, st), st.stack[..|st.stack| - 1];
      && after.Advance? && after.st == st.(stack := rest + [M.Top(after.st)])
      && (instr.opcode == Opcode.Neg ==> Narrows(M.Top(after.st), -M.Top(st)))
      && (instr.opcode == Opcode.Not ==> Decides(M.Top(after.st), M.Top(st) == 0))
  {
    hide NormalizeI32, Wrap64, Narrows;
    WrapNarrows(-M.Top(st));
  }

  /** Both machines replace the two topmost values by one, unless they divide by zero. */
  lemma MachineReplacesOperands(p: CompiledProgram, instr: Instruction, st: M.State)
    requires M.IsBinary(instr.opcode) && 2 <= |st.stack| <= MAX_OPERAND_STACK
    ensures var after, rest, b := M.Exec(p, instr, st), st.stack[..|st.stack| - 2], M.Top(st);
      var a := st.stack[|st.stack| - 2];
      if instr.opcode == Opcode.Div && b == 0 then after == M.Trapped(DivideByZero, |rest|)
      else after == M.Advance(st.(stack := rest + [M.Arith(instr.opcode, a, b)]))
  {
  }

  lemma CollectingReplacesOperands(p: CompiledProgram, instr: Instruction, st: G.State, a: int, b: int)
    requires M.IsBinary(instr.opcode) && 2 <= |st.stack| <= MAX_OPERAND_STACK
    requires st.stack[|st.stack| - 2] == G.Int(a) && G.Top(st) == G.Int(b)
    ensures var after, rest := G.Exec(p, instr, st), st.stack[..|st.stack| - 2];
      if instr.opcode == Opcode.Div && b == 0 then after == G.Trapped(DivideByZero, |rest|)
      else after == G.Advance(st.(stack := rest + [G.Int(M.Arith(instr.opcode, a, b))]))
  {
  }
}
