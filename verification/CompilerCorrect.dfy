/**
 * Compiled code does on the machine what the source does on the oracle: expressions, calls,
 * statements. Each lemma follows the oracle's own recursion.
 */
module CompilerCorrect {
  import opened Common
  import opened Int32
  import opened Limits
  import opened Ast
  import opened Bytecode
  import opened CodeGen
  import opened Simulation
  import opened ExprSteps
  import opened StmtSteps
  import opened CallSteps
  import O = Oracle
  import M = Machine
  import S = Sema

  /** How expression code ends: with the value on the stack, or with the oracle's trap. */
  ghost predicate ExprDone(x: Link, a: Act, s: M.State, s': M.State, r: O.Eff<int>, len: nat) {
    Cut(x.c, s) ||
    match r.res
    case Fail(code, site) => Fails(x.c, s, code, site, r.st.output)
    case Ok(v) => Reaches(x, a, r.st, s, s') && s'.stack == s.stack + [v] && IsI32(v) && s'.pc == s.pc + len
  }

  /** How argument code ends: with all values on the stack, left to right. */
  ghost predicate ArgsDone(x: Link, a: Act, s: M.State, s': M.State, r: O.Eff<seq<int>>, len: nat) {
    Cut(x.c, s) ||
    match r.res
    case Fail(code, site) => Fails(x.c, s, code, site, r.st.output)
    case Ok(vs) => Reaches(x, a, r.st, s, s') && s'.stack == s.stack + vs && AllI32(vs) && s'.pc == s.pc + len
  }

  /** `main` is not re-entered where that would run the global initializers again. */
  predicate Reentrant(x: Link, callsMain: bool) {
    InitFree(x.p.globals) || !callsMain
  }

  /** What the static phases established about an expression. */
  predicate Static(x: Link, vis: S.Visible, e: Expr) {
    S.TypeOf(vis, x.fs, e).Some? && Reentrant(x, Calls("main", e))
  }

  lemma StaticParts(x: Link, vis: S.Visible, e: Expr)
    requires Static(x, vis, e)
    ensures e.Identifier? ==> e.name in vis && !vis[e.name].isFunction && !vis[e.name].isArray
    ensures e.Binary? ==> Static(x, vis, e.left) && Static(x, vis, e.right)
    ensures e.Unary? ==> Static(x, vis, e.operand)
    ensures e.ArrayIndex? ==> e.arrayName in vis && vis[e.arrayName].isArray && Static(x, vis, e.index)
    ensures e.Call? ==> (
      && e.callee in x.fs && |e.args| == |x.fs[e.callee]| && S.ArgsMatch(vis, x.fs, e.args, x.fs[e.callee])
      && Reentrant(x, ArgsCall("main", e.args)) && Reentrant(x, e.callee == "main"))
  {
  }

  /** An expression ready to run where its code lies. */
  ghost predicate ExprReady(x: Link, a: Act, t: Table, vis: S.Visible, st: O.State, s: M.State, e: Expr) {
    && Match(x, a, st, s)
    && Sees(x, a, t, vis, O.Top(st))
    && Static(x, vis, e)
    && CodeAt(x.c, s.pc, ExprCode(x.n, t, s.pc, e))
  }

  lemma SmallProgram(x: Link)
    requires Linked(x)
    ensures |x.c.instructions| <= MAX_INSTRUCTIONS && x.n == NamesOf(x.p) && LayoutOk(x.n.globals)
  {
  }

  // ---------------------------------------------------------------- leaves

  lemma ReadSim(x: Link, a: Act, t: Table, vis: S.Visible, st: O.State, s: M.State, name: string) returns (s': M.State)
    requires Match(x, a, st, s) && Sees(x, a, t, vis, O.Top(st))
    requires name in vis && !vis[name].isFunction && !vis[name].isArray
    requires CodeAt(x.c, s.pc, ReadCode(x.n, t, name))
    ensures ExprDone(x, a, s, s', O.Eff(st, O.ReadScalar(st, name)), |ReadCode(x.n, t, name)|)
  {
    hide M.RunFrom, Runs, Goes, Cut, Match, CodeAt;
    TopInTable(x, a, st, s);
    if name in x.n.globals {
      s' := ReadGlobalStep(x, a, st, s, name);
    } else {
      s' := ReadLocalStep(x, a, st, s, name);
    }
  }

  lemma TopInTable(x: Link, a: Act, st: O.State, s: M.State)
    requires Match(x, a, st, s)
    ensures forall y :: y in O.Top(st) ==> y in a.full.locals
    ensures st.globals.Keys == x.n.globals.Keys && s.output == st.output
  {
  }

  lemma IndexSim(x: Link, a: Act, t: Table, vis: S.Visible, st: O.State, s: M.State, name: string, rest: seq<int>, index: int)
    returns (s': M.State)
    requires Match(x, a, st, s) && Sees(x, a, t, vis, O.Top(st)) && s.stack == rest + [index]
    requires name in vis && vis[name].isArray
    requires CodeAt(x.c, s.pc, IndexCode(x.n, t, name))
    ensures Indexed(x, a, st, s, s', name, rest, index) && |IndexCode(x.n, t, name)| == 1
  {
    hide M.RunFrom, Runs, Goes, Cut, Match, CodeAt, Indexed;
    TopInTable(x, a, st, s);
    if name in x.n.globals {
      s' := IndexGlobalStep(x, a, st, s, name, rest, index);
    } else {
      s' := IndexLocalStep(x, a, st, s, name, rest, index);
    }
  }

  // ---------------------------------------------------------------- short circuits

  /** The right operand of a short circuit has been evaluated: compare it with zero and skip the constant. */
  lemma TruthTail(x: Link, a: Act, st: O.State, s: M.State, rest: seq<int>, v: int, short: int) returns (s': M.State)
    requires Match(x, a, st, s) && s.stack == rest + [v] && s.pc + 4 <= MAX_INSTRUCTIONS
    requires CodeAt(x.c, s.pc, [Ins(LoadConst, 0, 0), Simple(Opcode.Ne), Ins(Jump, s.pc + 4, 0), Ins(LoadConst, short, 0)])
    ensures Reaches(x, a, st, s, s') && s'.stack == rest + [BoolValue(v != 0)] && s'.pc == s.pc + 4
  {
    hide M.RunFrom, Runs, Goes, Cut, Match, Spares, CodeAt;
    var code := [Ins(LoadConst, 0, 0), Simple(Opcode.Ne), Ins(Jump, s.pc + 4, 0), Ins(LoadConst, short, 0)];
    assert code == [code[0]] + ([code[1]] + ([code[2]] + [code[3]]));
    CodeSplit(x.c, s.pc, [code[0]], [code[1]] + ([code[2]] + [code[3]]));
    CodeSplit(x.c, s.pc + 1, [code[1]], [code[2]] + [code[3]]);
    CodeSplit(x.c, s.pc + 2, [code[2]], [code[3]]);
    ConstStep(x, a, st, s, 0);
    var s1 := Then(s, s.stack + [0]);
    BinaryStep(x, a, BinaryOp.Ne, st, s1, rest, v, 0);
    var s2 := Then(s1, rest + [BoolValue(v != 0)]);
    Chain(x, a, st, st, s, s1, s2);
    JumpStep(x, a, s.pc + 4, st, s2);
    s' := Tock(s2).(pc := s.pc + 4);
    Chain(x, a, st, st, s, s2, s');
  }

  /** The left operand decided: jump to the constant and push it. */
  lemma ShortTail(x: Link, a: Act, jump: Opcode, short: I32, target: nat, st: O.State, s: M.State, rest: seq<int>, v: int)
    returns (s': M.State)
    requires Match(x, a, st, s) && s.stack == rest + [v] && target <= I32_MAX
    requires jump == JumpIfFalse || jump == JumpIfTrue
    requires (v == 0) == (jump == JumpIfFalse)
    requires CodeAt(x.c, s.pc, [Ins(jump, target, 0)]) && CodeAt(x.c, target, [Ins(LoadConst, short, 0)])
    ensures Reaches(x, a, st, s, s') && s'.stack == rest + [short] && s'.pc == target + 1
  {
    hide M.RunFrom, Runs, Goes, Cut, Match, Spares, CodeAt;
    BranchStep(x, a, jump, target, st, s, rest, v);
    var s1 := Branched(s, jump, target, rest, v);
    ConstStep(x, a, st, s1, short);
    s' := Then(s1, rest + [short]);
    Chain(x, a, st, st, s, s1, s');
  }

  lemma ShortLayout(jump: Opcode, short: int, pc: nat, left: seq<Instruction>, right: seq<Instruction>)
    ensures var shortPc := pc + |left| + 1 + |right| + 3;
      ShortCode(jump, short, pc, left, right)
        == left + [Ins(jump, shortPc, 0)] + right + ([Ins(LoadConst, 0, 0), Simple(Opcode.Ne), Ins(Jump, shortPc + 1, 0)] + [Ins(LoadConst, short, 0)])
  {
    hide Ins, Simple;
  }

  /** The pieces of short-circuit code. */
  lemma ShortPieces(c: CompiledProgram, pc: nat, jump: Opcode, short: int, left: seq<Instruction>, right: seq<Instruction>)
    requires CodeAt(c, pc, ShortCode(jump, short, pc, left, right)) && |c.instructions| <= MAX_INSTRUCTIONS
    ensures var shortPc := pc + |left| + 1 + |right| + 3;
      && shortPc + 1 <= MAX_INSTRUCTIONS
      && |ShortCode(jump, short, pc, left, right)| == |left| + |right| + 5
      && CodeAt(c, pc, left) && CodeAt(c, pc + |left|, [Ins(jump, shortPc, 0)]) && CodeAt(c, pc + |left| + 1, right)
      && CodeAt(c, shortPc - 3, [Ins(LoadConst, 0, 0), Simple(Opcode.Ne), Ins(Jump, shortPc + 1, 0), Ins(LoadConst, short, 0)])
      && CodeAt(c, shortPc, [Ins(LoadConst, short, 0)])
  {
    var shortPc := pc + |left| + 1 + |right| + 3;
    var j := [Ins(jump, shortPc, 0)];
    var tail := [Ins(LoadConst, 0, 0), Simple(Opcode.Ne), Ins(Jump, shortPc + 1, 0)];
    var last := [Ins(LoadConst, short, 0)];
    ShortLayout(jump, short, pc, left, right);
    hide ShortCode, CodeAt, Ins;
    CodeSplit(c, pc, left + j + right, tail + last);
    CodeSplit(c, pc, left + j, right);
    CodeSplit(c, pc, left, j);
    CodeSplit(c, pc + |left + j + right|, tail, last);
    CodeFits(c, shortPc, last);
    assert tail + last == [Ins(LoadConst, 0, 0), Simple(Opcode.Ne), Ins(Jump, shortPc + 1, 0), Ins(LoadConst, short, 0)];
  }

  // ---------------------------------------------------------------- expressions

  lemma {:induction false} EvalSim(x: Link, a: Act, t: Table, vis: S.Visible, st: O.State, s: M.State, e: Expr) returns (s': M.State)
    requires Linked(x) && ExprReady(x, a, t, vis, st, s, e)
    ensures ExprDone(x, a, s, s', O.Eval(x.p, st, e), |ExprCode(x.n, t, s.pc, e)|)
    decreases O.Fuel(st), 0
  {
    hide M.RunFrom, Runs, Goes, Cut, Match, Spares, CodeAt, Linked, Sees, Fails, Static;
    StaticParts(x, vis, e);
    s' := s;
    if Cut(x.c, s) {
      return;
    }
    var tick := O.Tick(st);
    if tick.res.Fail? {
      LimitFails(x.c, s, tick.res.code, tick.res.site, tick.st.output);
      return;
    }
    Ticked(x, a, st, s);
    match e
    case IntLiteral(v) =>
      ConstStep(x, a, tick.st, s, v);
      s' := Then(s, s.stack + [v]);
    case BoolLiteral(b) =>
      ConstStep(x, a, tick.st, s, BoolValue(b));
      s' := Then(s, s.stack + [BoolValue(b)]);
    case Identifier(name) =>
      s' := ReadSim(x, a, t, vis, tick.st, s, name);
    case Binary(op, left, right) =>
      if op == BinaryOp.And || op == BinaryOp.Or {
        s' := ShortSim(x, a, t, vis, tick.st, s, op, left, right);
      } else {
        s' := ArithSim(x, a, t, vis, tick.st, s, op, left, right);
      }
    case Unary(op, operand) =>
      s' := UnarySim(x, a, t, vis, tick.st, s, op, operand);
    case Call(name, args) =>
      s' := CallExprSim(x, a, t, vis, tick.st, s, name, args);
    case ArrayIndex(name, index) =>
      s' := ArrayIndexSim(x, a, t, vis, tick.st, s, name, index);
  }

  lemma UnaryCode(n: Names, t: Table, pc: nat, op: UnaryOp, operand: Expr)
    ensures ExprCode(n, t, pc, Unary(op, operand)) == ExprCode(n, t, pc, operand) + [Simple(UnaryOpcode(op))]
  {
    hide UnaryOpcode, Ins;
  }

  lemma {:induction false} UnarySim(x: Link, a: Act, t: Table, vis: S.Visible, st: O.State, s: M.State, op: UnaryOp, operand: Expr)
    returns (s': M.State)
    requires Linked(x) && ExprReady(x, a, t, vis, st, s, Unary(op, operand))
    ensures var v := O.Eval(x.p, st, operand);
      ExprDone(x, a, s, s', if v.res.Fail? then v else O.Eff(v.st, O.Ok(O.EvalUnary(op, v.res.value))), |ExprCode(x.n, t, s.pc, Unary(op, operand))|)
    decreases O.Fuel(st), 1
  {
    hide M.RunFrom, Runs, Goes, Cut, Match, Spares, CodeAt, Linked, Sees, Fails, Static, O.Eval, O.EvalUnary, ExprCode;
    UnaryCode(x.n, t, s.pc, op, operand);
    StaticParts(x, vis, Unary(op, operand));
    var code := ExprCode(x.n, t, s.pc, operand);
    CodeSplit(x.c, s.pc, code, [Simple(UnaryOpcode(op))]);
    var s1 := EvalSim(x, a, t, vis, st, s, operand);
    s' := s1;
    var v := O.Eval(x.p, st, operand);
    if v.res.Ok? && !Cut(x.c, s) {
      UnaryStep(x, a, op, v.st, s1, s.stack, v.res.value);
      s' := Then(s1, s.stack + [O.EvalUnary(op, v.res.value)]);
      Chain(x, a, v.st, v.st, s, s1, s');
    }
  }

  lemma LimitFails(c: CompiledProgram, s: M.State, code: TrapCode, site: O.Site, output: seq<int>)
    requires OverLimit(code, site)
    ensures Fails(c, s, code, site, output)
  {
  }

  /** Ticking changes neither what corresponds nor what is visible. */
  lemma Ticked(x: Link, a: Act, st: O.State, s: M.State)
    requires Match(x, a, st, s)
    ensures Match(x, a, O.Tick(st).st, s) && O.Top(O.Tick(st).st) == O.Top(st)
  {
  }

  lemma ArithCode(n: Names, t: Table, pc: nat, op: BinaryOp, left: Expr, right: Expr)
    requires op != BinaryOp.And && op != BinaryOp.Or
    ensures var l := ExprCode(n, t, pc, left);
      ExprCode(n, t, pc, Binary(op, left, right)) == l + ExprCode(n, t, pc + |l|, right) + [Simple(BinaryOpcode(op))]
  {
    hide BinaryOpcode, Ins;
  }

  lemma {:induction false} ArithSim(x: Link, a: Act, t: Table, vis: S.Visible, st: O.State, s: M.State, op: BinaryOp, left: Expr, right: Expr)
    returns (s': M.State)
    requires Linked(x) && op != BinaryOp.And && op != BinaryOp.Or
    requires ExprReady(x, a, t, vis, st, s, Binary(op, left, right))
    ensures var l := O.Eval(x.p, st, left);
      var r := if l.res.Fail? then l
               else var r := O.Eval(x.p, l.st, right);
                    if r.res.Fail? then r else O.Eff(r.st, O.EvalBinary(op, l.res.value, r.res.value));
      ExprDone(x, a, s, s', r, |ExprCode(x.n, t, s.pc, Binary(op, left, right))|)
    decreases O.Fuel(st), 1
  {
    hide M.RunFrom, Runs, Goes, Cut, Match, Spares, CodeAt, Linked, Fails, Sees, Static, O.Eval, O.EvalBinary, ExprCode;
    ArithCode(x.n, t, s.pc, op, left, right);
    StaticParts(x, vis, Binary(op, left, right));
    var lcode := ExprCode(x.n, t, s.pc, left);
    var rcode := ExprCode(x.n, t, s.pc + |lcode|, right);
    CodeSplit(x.c, s.pc, lcode + rcode, [Simple(BinaryOpcode(op))]);
    CodeSplit(x.c, s.pc, lcode, rcode);
    var l := O.Eval(x.p, st, left);
    var s1 := EvalSim(x, a, t, vis, st, s, left);
    s' := s1;
    if l.res.Ok? && !Cut(x.c, s) {
      var r := O.Eval(x.p, l.st, right);
      var s2 := EvalSim(x, a, t, vis, l.st, s1, right);
      if r.res.Fail? {
        FailChain(x, s, s1, r.res.code, r.res.site, r.st.output);
      } else {
        BinaryStep(x, a, op, r.st, s2, s.stack, l.res.value, r.res.value);
        var v := O.EvalBinary(op, l.res.value, r.res.value);
        Chain(x, a, l.st, r.st, s, s1, s2);
        if v.Ok? {
          s' := Then(s2, s.stack + [v.value]);
          Chain(x, a, r.st, r.st, s, s2, s');
        } else {
          FailChain(x, s, s2, v.code, v.site, r.st.output);
        }
      }
    }
  }

  /** The left operand did not decide: the right one does. */
  lemma {:induction false} RightSim(x: Link, a: Act, t: Table, vis: S.Visible, st: O.State, s: M.State, jump: Opcode, short: int,
                                    right: Expr, rest: seq<int>, v: int, target: nat) returns (s': M.State)
    requires Linked(x) && Match(x, a, st, s) && Sees(x, a, t, vis, O.Top(st)) && Static(x, vis, right)
    requires s.stack == rest + [v] && (jump == JumpIfFalse || jump == JumpIfTrue) && (v == 0) != (jump == JumpIfFalse)
    requires target + 1 <= MAX_INSTRUCTIONS && CodeAt(x.c, s.pc, [Ins(jump, target, 0)])
    requires var rcode := ExprCode(x.n, t, s.pc + 1, right);
      && CodeAt(x.c, s.pc + 1, rcode) && s.pc + 1 + |rcode| + 3 == target
      && CodeAt(x.c, target - 3, [Ins(LoadConst, 0, 0), Simple(Opcode.Ne), Ins(Jump, target + 1, 0), Ins(LoadConst, short, 0)])
    ensures var r := O.Truth(O.Eval(x.p, st, right));
      Cut(x.c, s) ||
      match r.res
      case Fail(code, site) => Fails(x.c, s, code, site, r.st.output)
      case Ok(w) => Reaches(x, a, r.st, s, s') && s'.stack == rest + [w] && IsI32(w) && s'.pc == target + 1
    decreases O.Fuel(st), 1
  {
    hide M.RunFrom, Runs, Goes, Cut, Match, Spares, CodeAt, Fails, Sees, Static, Linked, O.Eval, ExprCode;
    BranchStep(x, a, jump, target, st, s, rest, v);
    var s1 := Branched(s, jump, target, rest, v);
    var r := O.Eval(x.p, st, right);
    var s2 := EvalSim(x, a, t, vis, st, s1, right);
    s' := s2;
    if Cut(x.c, s) {
    } else if r.res.Fail? {
      FailChain(x, s, s1, r.res.code, r.res.site, r.st.output);
    } else {
      Chain(x, a, st, r.st, s, s1, s2);
      s' := TruthTail(x, a, r.st, s2, rest, r.res.value, short);
      Chain(x, a, r.st, r.st, s, s2, s');
    }
  }

  lemma ShortExprCode(n: Names, t: Table, pc: nat, op: BinaryOp, left: Expr, right: Expr)
    requires op == BinaryOp.And || op == BinaryOp.Or
    ensures var l := ExprCode(n, t, pc, left);
      ExprCode(n, t, pc, Binary(op, left, right)) == ShortCode(ShortJump(op), ShortResult(op), pc, l, ExprCode(n, t, pc + |l| + 1, right))
  {
    hide ShortCode, ShortJump, ShortResult;
  }

  lemma {:induction false} ShortSim(x: Link, a: Act, t: Table, vis: S.Visible, st: O.State, s: M.State, op: BinaryOp, left: Expr, right: Expr)
    returns (s': M.State)
    requires Linked(x) && (op == BinaryOp.And || op == BinaryOp.Or)
    requires ExprReady(x, a, t, vis, st, s, Binary(op, left, right))
    ensures var l := O.Eval(x.p, st, left);
      var r := if l.res.Fail? then l
               else if (l.res.value == 0) == (op == BinaryOp.And) then O.Eff(l.st, O.Ok(ShortResult(op)))
               else O.Truth(O.Eval(x.p, l.st, right));
      ExprDone(x, a, s, s', r, |ExprCode(x.n, t, s.pc, Binary(op, left, right))|)
    decreases O.Fuel(st), 2
  {
    hide M.RunFrom, Runs, Goes, Cut, Match, Spares, CodeAt, Fails, Sees, Static, ShortCode, O.Eval, ShortJump, ShortResult, Linked, ExprCode, Ins;
    SmallProgram(x);
    ShortExprCode(x.n, t, s.pc, op, left, right);
    StaticParts(x, vis, Binary(op, left, right));
    var jump, short := ShortJump(op), ShortResult(op);
    var lcode := ExprCode(x.n, t, s.pc, left);
    var rcode := ExprCode(x.n, t, s.pc + |lcode| + 1, right);
    ShortPieces(x.c, s.pc, jump, short, lcode, rcode);
    var target := s.pc + |lcode| + 1 + |rcode| + 3;
    var l := O.Eval(x.p, st, left);
    var s1 := EvalSim(x, a, t, vis, st, s, left);
    s' := s1;
    if l.res.Ok? && !Cut(x.c, s) {
      if (l.res.value == 0) == (op == BinaryOp.And) {
        s' := ShortTail(x, a, jump, short, target, l.st, s1, s.stack, l.res.value);
        Chain(x, a, l.st, l.st, s, s1, s');
      } else {
        s' := RightSim(x, a, t, vis, l.st, s1, jump, short, right, s.stack, l.res.value, target);
        var r := O.Eval(x.p, l.st, right);
        if r.res.Fail? {
          FailChain(x, s, s1, r.res.code, r.res.site, r.st.output);
        } else {
          Chain(x, a, l.st, r.st, s, s1, s');
        }
      }
    }
  }

  lemma {:induction false} ArrayIndexSim(x: Link, a: Act, t: Table, vis: S.Visible, st: O.State, s: M.State, name: string, index: Expr)
    returns (s': M.State)
    requires Linked(x) && ExprReady(x, a, t, vis, st, s, ArrayIndex(name, index))
    ensures var i := O.Eval(x.p, st, index);
      var r := if i.res.Fail? then i
               else if i.res.value < 0 then O.Trap(i.st, ArrayOutOfBounds)
               else O.Eff(i.st, O.ReadArray(i.st, name, i.res.value));
      ExprDone(x, a, s, s', r, |ExprCode(x.n, t, s.pc, ArrayIndex(name, index))|)
    decreases O.Fuel(st), 1
  {
    hide M.RunFrom, Runs, Goes, Cut, Match, Spares, CodeAt, Linked, Fails, Sees, Static, O.Eval, O.ReadArray;
    StaticParts(x, vis, ArrayIndex(name, index));
    var code := ExprCode(x.n, t, s.pc, index);
    CodeSplit(x.c, s.pc, code, IndexCode(x.n, t, name));
    var i := O.Eval(x.p, st, index);
    var s1 := EvalSim(x, a, t, vis, st, s, index);
    s' := s1;
    if i.res.Ok? && !Cut(x.c, s) {
      s' := IndexSim(x, a, t, vis, i.st, s1, name, s.stack, i.res.value);
      if i.res.value < 0 {
        FailChain(x, s, s1, ArrayOutOfBounds, O.Elsewhere, i.st.output);
      } else {
        var r := O.ReadArray(i.st, name, i.res.value);
        if r.Ok? {
          Chain(x, a, i.st, i.st, s, s1, s');
        } else {
          FailChain(x, s, s1, r.code, r.site, i.st.output);
        }
      }
    }
  }

  lemma {:induction false} ArgsSim(x: Link, a: Act, t: Table, vis: S.Visible, st: O.State, s: M.State, args: seq<Expr>, types: seq<Type>)
    returns (s': M.State)
    requires Linked(x) && Match(x, a, st, s) && Sees(x, a, t, vis, O.Top(st))
    requires |args| == |types| && S.ArgsMatch(vis, x.fs, args, types) && Reentrant(x, ArgsCall("main", args))
    requires CodeAt(x.c, s.pc, ArgsCode(x.n, t, s.pc, args))
    ensures ArgsDone(x, a, s, s', O.EvalArgs(x.p, st, args), |ArgsCode(x.n, t, s.pc, args)|)
    decreases O.Fuel(st), |args| + 1
  {
    hide M.RunFrom, Runs, Goes, Cut, Match, Spares, CodeAt, Linked, Fails, Sees, O.Eval, ExprCode, S.TypeOf, Calls;
    s' := s;
    if args == [] {
      Stay(x, a, st, s);
    } else {
      var code := ExprCode(x.n, t, s.pc, args[0]);
      CodeSplit(x.c, s.pc, code, ArgsCode(x.n, t, s.pc + |code|, args[1..]));
      var v := O.Eval(x.p, st, args[0]);
      var s1 := EvalSim(x, a, t, vis, st, s, args[0]);
      if v.res.Ok? && !Cut(x.c, s) {
        var rest := O.EvalArgs(x.p, v.st, args[1..]);
        s' := ArgsSim(x, a, t, vis, v.st, s1, args[1..], types[1..]);
        if rest.res.Ok? {
          Chain(x, a, v.st, rest.st, s, s1, s');
          assert s'.stack == s.stack + ([v.res.value] + rest.res.value);
        } else {
          FailChain(x, s, s1, rest.res.code, rest.res.site, rest.st.output);
        }
      }
    }
  }

  lemma Stay(x: Link, a: Act, st: O.State, s: M.State)
    requires Match(x, a, st, s)
    ensures Reaches(x, a, st, s, s)
  {
  }

  // ---------------------------------------------------------------- calls

  lemma SignatureFacts(x: Link, name: string)
    requires Linked(x) && name in x.fs
    ensures SignatureLinked(x, name) && FunctionLinked(x, x.n.funcs[name])
  {
  }

  lemma {:induction false} CallExprSim(x: Link, a: Act, t: Table, vis: S.Visible, st: O.State, s: M.State, name: string, args: seq<Expr>)
    returns (s': M.State)
    requires Linked(x) && ExprReady(x, a, t, vis, st, s, Expr.Call(name, args))
    ensures var vs := O.EvalArgs(x.p, st, args);
      var r := if vs.res.Fail? then O.Eff(vs.st, O.Fail(vs.res.code, vs.res.site)) else O.CallFunction(x.p, vs.st, name, vs.res.value);
      ExprDone(x, a, s, s', r, |ExprCode(x.n, t, s.pc, Expr.Call(name, args))|)
    decreases O.Fuel(st), |args| + 2
  {
    hide M.RunFrom, Runs, Goes, Cut, Match, Spares, CodeAt, Linked, Fails, Sees, Static, O.EvalArgs, O.CallFunction, FunctionLinked;
    StaticParts(x, vis, Expr.Call(name, args));
    SignatureFacts(x, name);
    var code := ArgsCode(x.n, t, s.pc, args);
    CodeSplit(x.c, s.pc, code, [CallIns(x.n, name, |args|)]);
    var vs := O.EvalArgs(x.p, st, args);
    var s1 := ArgsSim(x, a, t, vis, st, s, args, x.fs[name]);
    s' := s1;
    if vs.res.Ok? && !Cut(x.c, s) {
      s' := CallSim(x, a, vs.st, s1, name, s.stack, vs.res.value);
      var r := O.CallFunction(x.p, vs.st, name, vs.res.value);
      if r.res.Ok? {
        Chain(x, a, vs.st, r.st, s, s1, s');
      } else {
        FailChain(x, s, s1, r.res.code, r.res.site, r.st.output);
      }
    }
  }

  lemma {:induction false} CallSim(x: Link, a: Act, st: O.State, s: M.State, name: string, rest: seq<int>, args: seq<int>)
    returns (s': M.State)
    requires Linked(x) && Match(x, a, st, s) && s.stack == rest + args && AllI32(args)
    requires name in x.fs && |args| == |x.fs[name]| && Reentrant(x, name == "main")
    requires CodeAt(x.c, s.pc, [CallIns(x.n, name, |args|)])
    ensures var r := O.CallFunction(x.p, st, name, args);
      Cut(x.c, s) ||
      match r.res
      case Fail(code, site) => Fails(x.c, s, code, site, r.st.output)
      case Ok(v) => Reaches(x, a, r.st, s, s') && s'.stack == rest + [v] && IsI32(v) && s'.pc == s.pc + 1
    decreases O.Fuel(st), 0
  {
    hide M.RunFrom, Runs, Goes, Cut, Match, Spares, CodeAt, Linked, Fails, FunctionLinked, ScopeMatches, LocalTable, O.ExecBlock, O.BindParams,
         FunctionCode, BlockCode, BlockReady, Sees;
    s' := s;
    if Cut(x.c, s) {
      return;
    }
    var tick := O.Tick(st);
    if tick.res.Fail? || |st.frames| >= MAX_FRAMES {
      LimitFails(x.c, s, if tick.res.Fail? then CycleLimit else StackOverflow, O.Elsewhere, tick.st.output);
      return;
    }
    Ticked(x, a, st, s);
    SignatureFacts(x, name);
    var i := x.n.funcs[name];
    var f := x.p.functions[i];
    CallStep(x, a, tick.st, s, i, rest, args);
    FunctionIndex(x, i);
    var callee, s1 := Callee(x, a, s, i), EnteredState(x, a, s, i, rest, args);
    var entered := tick.st.(frames := tick.st.frames + [O.BindParams(f.params, args)]);
    var w := EntrySees(x, callee, i, args);
    BodyPieces(x, i);
    GoesCut(x.c, s, s1);
    var s2 := BlockSim(x, callee, ParamTable(f.params), w, entered, s1, f.body);
    var b := O.ExecBlock(x.p, entered, f.body);
    if b.res.Fail? {
      FailChain(x, s, s1, b.res.code, b.res.site, b.st.output);
    } else {
      s' := FinishCall(x, a, callee, tick.st, s, s1, i, rest, args, b.st, b.res.value, s2);
    }
  }

  lemma GoesCut(c: CompiledProgram, s: M.State, s': M.State)
    requires Goes(c, s, s')
    ensures Cut(c, s') ==> Cut(c, s)
  {
  }

  lemma FunctionIndex(x: Link, i: nat)
    requires i < |x.p.functions| && FunctionLinked(x, i)
    ensures i in x.c.functions
    ensures CodeAt(x.c, x.c.functions[i].entryPc, FunctionCode(x.p, x.p.functions[i], x.c.functions[i].entryPc))
  {
    hide CodeAt, FunctionCode;
  }

  /** A function that may be called has no code in front of its body, and ends in `return 0`. */
  lemma BodyPieces(x: Link, i: nat)
    requires Linked(x) && i < |x.p.functions| && FunctionLinked(x, i)
    ensures var f := x.p.functions[i];
      && i in x.c.functions
      && (Reentrant(x, f.name == "main") ==>
          var pc := x.c.functions[i].entryPc;
          var code := BlockCode(x.n, ParamTable(f.params), pc, f.body);
          CodeAt(x.c, pc, code) && CodeAt(x.c, pc + |code|, [Ins(LoadConst, 0, 0)]) && CodeAt(x.c, pc + |code| + 1, [Simple(Opcode.Return)]))
  {
    hide FunctionLinked, Linked, BlockCode, InitCode, CodeAt;
    FunctionIndex(x, i);
    SmallProgram(x);
    var f := x.p.functions[i];
    var pc := x.c.functions[i].entryPc;
    if Reentrant(x, f.name == "main") {
      if f.name == "main" {
        NoInitCode(x.n, ParamTable(f.params), pc, x.p.globals);
      }
      var prefix := PrefixCode(x.p, f, pc);
      var code := BlockCode(x.n, ParamTable(f.params), pc, f.body);
      assert prefix + code == code;
      assert FunctionCode(x.p, f, pc) == code + ([Ins(LoadConst, 0, 0)] + [Simple(Opcode.Return)]);
      CodeSplit(x.c, pc, code, [Ins(LoadConst, 0, 0)] + [Simple(Opcode.Return)]);
      CodeSplit(x.c, pc + |code|, [Ins(LoadConst, 0, 0)], [Simple(Opcode.Return)]);
    }
  }

  lemma {:induction false} NoInitCode(n: Names, t: Table, pc: nat, globals: seq<GlobalVar>)
    requires InitFree(globals)
    ensures InitCode(n, t, pc, globals) == []
    decreases |globals|
  {
    if globals != [] {
      NoInitCode(n, t, pc, globals[1..]);
    }
  }

  /** At the start of a body the parameters are visible, and nothing else of the function is. */
  lemma EntrySees(x: Link, callee: Act, i: nat, args: seq<int>) returns (w: S.Walk)
    requires Linked(x) && i < |x.p.functions| && FunctionLinked(x, i) && callee.full == LocalTable(x.p.functions[i])
    requires |args| == |x.p.functions[i].params|
    ensures var f := x.p.functions[i];
      && Sees(x, callee, ParamTable(f.params), w.vis, O.BindParams(f.params, args))
      && S.CheckBlock(x.fs, w, f.body).Some?
      && BlockReady(x, callee, ParamTable(f.params), w, f.body)
  {
    var f := x.p.functions[i];
    w := S.Walk(S.CheckParams(x.top, f.params).value, S.ParamNames(f.params), |f.params|);
    ParamsKnown(x.top, f.params);
    ParamsBound(x.top, f.params, args);
    CollectGrows(ParamTable(f.params), f.body);
  }

  /** The caller resumes: the callee's frame is gone and its result is on the stack. */
  lemma FinishCall(x: Link, a: Act, callee: Act, st: O.State, s: M.State, s1: M.State, i: nat, rest: seq<int>, args: seq<int>,
                   st2: O.State, control: O.Control, s2: M.State) returns (s': M.State)
    requires Match(x, a, st, s) && i < |x.p.functions| && i in x.c.functions
    requires callee == Callee(x, a, s, i) && |args| <= callee.full.next && callee.base + callee.full.next <= |s.locals|
    requires s1 == EnteredState(x, a, s, i, rest, args) && Goes(x.c, s, s1) && Spares(callee, s.locals, s1.locals)
    requires Reaches(x, callee, st2, s1, s2)
    requires |st2.frames| == |st.frames| + 1 && forall k :: 0 <= k < |st.frames| ==> st2.frames[k] == st.frames[k]
    requires control.Continue? ==> s2.stack == rest && CodeAt(x.c, s2.pc, [Ins(LoadConst, 0, 0)]) && CodeAt(x.c, s2.pc + 1, [Simple(Opcode.Return)])
    requires control.ReturnValue? ==> IsI32(control.value) && s2.stack == rest + [control.value] && CodeAt(x.c, s2.pc, [Simple(Opcode.Return)])
    ensures var v := if control.Continue? then 0 else control.value;
      && Reaches(x, a, O.PopFrame(st2), s, s') && s'.stack == rest + [v] && IsI32(v) && s'.pc == s.pc + 1
  {
    hide M.RunFrom, Runs, Match, ScopeMatches, GlobalsMatch, CodeAt, LocalTable;
    var v := if control.Continue? then 0 else control.value;
    var s3 := s2;
    if control.Continue? {
      ConstStep(x, callee, st2, s2, 0);
      s3 := Then(s2, rest + [0]);
      Chain(x, callee, st2, st2, s1, s2, s3);
    }
    CallsKept(x, a, st, s);
    CallsKept(x, callee, st2, s3);
    ReturnStep(x, s3, s.calls, M.Frame(Some(s.pc + 1), callee.base, i), rest, v);
    s' := Tock(s3).(calls := s.calls, pc := s.pc + 1);
    assert O.PopFrame(st2).frames == st.frames;
    BackInCaller(x, a, callee, st, O.PopFrame(st2), s, s');
  }

  lemma CallsKept(x: Link, a: Act, st: O.State, s: M.State)
    requires Match(x, a, st, s)
    ensures s.calls != [] && GlobalsMatch(x.n.globals, st.globals, s.globals) && s.output == st.output
  {
  }

  // ---------------------------------------------------------------- statements

  /** What the static phases established about statements, and where the locals live. */
  ghost predicate BlockReady(x: Link, a: Act, t: Table, w: S.Walk, stmts: seq<Stmt>) {
    && S.CheckBlock(x.fs, w, stmts).Some?
    && BlockShapes(a.full, stmts)
    && Extends(CollectBlock(t, stmts).locals, a.full.locals)
    && Reentrant(x, BlockCalls("main", stmts))
  }

  ghost predicate StmtReady(x: Link, a: Act, t: Table, w: S.Walk, s: Stmt) {
    && S.CheckStmt(x.fs, w, s).Some?
    && StmtShapes(a.full, s)
    && Extends(CollectStmt(t, s).locals, a.full.locals)
    && Reentrant(x, StmtCalls("main", s))
  }

  /** How statement code ends: behind itself, at a return instruction, or with the oracle's trap. */
  ghost predicate StmtDone(x: Link, a: Act, st: O.State, s: M.State, s': M.State, r: O.Eff<O.Control>, len: nat) {
    Cut(x.c, s) ||
    match r.res
    case Fail(code, site) => Fails(x.c, s, code, site, r.st.output)
    case Ok(control) =>
      && Reaches(x, a, r.st, s, s')
      && O.Top(st).Keys <= O.Top(r.st).Keys
      && (control.Continue? ==> s'.stack == s.stack && s'.pc == s.pc + len)
      && (control.ReturnValue? ==>
            IsI32(control.value) && s'.stack == s.stack + [control.value] && CodeAt(x.c, s'.pc, [Simple(Opcode.Return)]))
  }

  lemma {:induction false} BlockSim(x: Link, a: Act, t: Table, w: S.Walk, st: O.State, s: M.State, stmts: seq<Stmt>) returns (s': M.State)
    requires Linked(x) && Match(x, a, st, s) && st.frames != [] && Sees(x, a, t, w.vis, O.Top(st))
    requires BlockReady(x, a, t, w, stmts)
    requires CodeAt(x.c, s.pc, BlockCode(x.n, t, s.pc, stmts))
    ensures StmtDone(x, a, st, s, s', O.ExecBlock(x.p, st, stmts), |BlockCode(x.n, t, s.pc, stmts)|)
    decreases O.Fuel(st), |stmts| + 2
  {
    hide M.RunFrom, Runs, Goes, Cut, Match, Spares, CodeAt, Linked, Fails, Sees, O.ExecStmt, StmtCode, CollectStmt, BlockReady, StmtReady;
    s' := s;
    if Cut(x.c, s) {
    } else if stmts == [] {
      Stay(x, a, st, s);
    } else {
      BlockParts(x, a, t, w, stmts);
      var code := StmtCode(x.n, t, s.pc, stmts[0]);
      var t1, w1 := CollectStmt(t, stmts[0]), S.CheckStmt(x.fs, w, stmts[0]).value;
      CodeSplit(x.c, s.pc, code, BlockCode(x.n, t1, s.pc + |code|, stmts[1..]));
      var r := O.ExecStmt(x.p, st, stmts[0]);
      var s1 := StmtSim(x, a, t, w, st, s, stmts[0]);
      s' := s1;
      if r.res.Ok? && r.res.value.Continue? {
        SeesAfter(x, a, t, w, stmts[0], O.Top(st), O.Top(r.st));
        var r2 := O.ExecBlock(x.p, r.st, stmts[1..]);
        s' := BlockSim(x, a, t1, w1, r.st, s1, stmts[1..]);
        if r2.res.Ok? {
          Chain(x, a, r.st, r2.st, s, s1, s');
        } else {
          FailChain(x, s, s1, r2.res.code, r2.res.site, r2.st.output);
        }
      }
    }
  }

  lemma BlockParts(x: Link, a: Act, t: Table, w: S.Walk, stmts: seq<Stmt>)
    requires BlockReady(x, a, t, w, stmts) && stmts != []
    ensures S.CheckStmt(x.fs, w, stmts[0]).Some?
    ensures StmtReady(x, a, t, w, stmts[0])
    ensures BlockReady(x, a, CollectStmt(t, stmts[0]), S.CheckStmt(x.fs, w, stmts[0]).value, stmts[1..])
  {
    CollectGrows(CollectStmt(t, stmts[0]), stmts[1..]);
  }

  /** What is visible after a statement is still found. */
  lemma SeesAfter(x: Link, a: Act, t: Table, w: S.Walk, s: Stmt, scope: O.Scope, scope': O.Scope)
    requires Sees(x, a, t, w.vis, scope) && StmtReady(x, a, t, w, s) && scope.Keys <= scope'.Keys
    requires s.VarDecl? ==> s.name in scope'
    ensures Sees(x, a, CollectStmt(t, s), S.CheckStmt(x.fs, w, s).value.vis, scope')
  {
    CollectStmtGrows(t, s);
  }

  lemma SeesMore(x: Link, a: Act, t: Table, t': Table, vis: S.Visible, scope: O.Scope, scope': O.Scope)
    requires Sees(x, a, t, vis, scope) && Extends(t.locals, t'.locals) && Extends(t'.locals, a.full.locals) && scope.Keys <= scope'.Keys
    ensures Sees(x, a, t', vis, scope')
  {
  }

  lemma SeesStill(x: Link, a: Act, t: Table, vis: S.Visible, scope: O.Scope, scope': O.Scope)
    requires Sees(x, a, t, vis, scope) && scope.Keys <= scope'.Keys
    ensures Sees(x, a, t, vis, scope')
  {
  }

  lemma {:induction false} StmtSim(x: Link, a: Act, t: Table, w: S.Walk, st: O.State, s: M.State, stmt: Stmt) returns (s': M.State)
    requires Linked(x) && Match(x, a, st, s) && st.frames != [] && Sees(x, a, t, w.vis, O.Top(st))
    requires StmtReady(x, a, t, w, stmt)
    requires CodeAt(x.c, s.pc, StmtCode(x.n, t, s.pc, stmt))
    ensures var r := O.ExecStmt(x.p, st, stmt);
      && StmtDone(x, a, st, s, s', r, |StmtCode(x.n, t, s.pc, stmt)|)
      && (r.res.Ok? && stmt.VarDecl? && !Cut(x.c, s) ==> stmt.name in O.Top(r.st))
    decreases O.Fuel(st), 0
  {
    hide M.RunFrom, Runs, Goes, Cut, Match, Spares, CodeAt, Linked, Fails, Sees, StmtReady, StmtCode,
         O.Eval, O.ExecDecl, O.ExecAssign, O.ExecBlock, O.ExecWhile;
    s' := s;
    if Cut(x.c, s) {
      return;
    }
    var tick := O.Tick(st);
    if tick.res.Fail? {
      LimitFails(x.c, s, tick.res.code, tick.res.site, tick.st.output);
      return;
    }
    Ticked(x, a, st, s);
    match stmt
    case VarDecl(_, name, init, size) =>
      s' := DeclSim(x, a, t, w, tick.st, s, stmt);
    case Assign(target, index, value) =>
      s' := AssignSim(x, a, t, w, tick.st, s, target, index, value);
    case If(condition, thenBody, elseBody) =>
      s' := IfSim(x, a, t, w, tick.st, s, condition, thenBody, elseBody);
    case While(condition, body) =>
      s' := WhileSim(x, a, t, w, tick.st, s, condition, body);
    case Return(value) =>
      s' := ReturnSim(x, a, t, w, tick.st, s, value);
    case Print(value) =>
      s' := PrintSim(x, a, t, w, tick.st, s, value);
    case ExprStmt(e) =>
      s' := DiscardSim(x, a, t, w, tick.st, s, e);
  }

  lemma StmtParts(x: Link, a: Act, t: Table, w: S.Walk, stmt: Stmt)
    requires StmtReady(x, a, t, w, stmt)
    ensures stmt.Return? ==> Static(x, w.vis, stmt.value)
    ensures stmt.Print? ==> Static(x, w.vis, stmt.value)
    ensures stmt.ExprStmt? ==> Static(x, w.vis, stmt.expr)
    ensures stmt.While? ==> Static(x, w.vis, stmt.condition) && BlockReady(x, a, t, w, stmt.body)
    ensures stmt.If? ==> (
      && Static(x, w.vis, stmt.condition)
      && BlockReady(x, a, t, w, stmt.thenBody)
      && Extends(t.locals, CollectBlock(t, stmt.thenBody).locals)
      && Extends(CollectBlock(t, stmt.thenBody).locals, a.full.locals)
      && (stmt.elseBody.Else? ==>
            BlockReady(x, a, CollectBlock(t, stmt.thenBody), S.CheckBlock(x.fs, w, stmt.thenBody).value.(vis := w.vis), stmt.elseBody.body)))
    ensures stmt.Assign? ==> (
      && S.AssignAccepted(w.vis, x.fs, stmt.target, stmt.indexExpr, stmt.value)
      && Static(x, w.vis, stmt.value) && (stmt.indexExpr.Some? ==> Static(x, w.vis, stmt.indexExpr.value)))
  {
    if stmt.If? {
      CollectGrows(t, stmt.thenBody);
      if stmt.elseBody.Else? {
        CollectGrows(CollectBlock(t, stmt.thenBody), stmt.elseBody.body);
      }
    }
  }

  lemma {:induction false} ReturnSim(x: Link, a: Act, t: Table, w: S.Walk, st: O.State, s: M.State, value: Expr) returns (s': M.State)
    requires Linked(x) && Match(x, a, st, s) && Sees(x, a, t, w.vis, O.Top(st)) && StmtReady(x, a, t, w, Stmt.Return(value))
    requires CodeAt(x.c, s.pc, StmtCode(x.n, t, s.pc, Stmt.Return(value)))
    ensures var v := O.Eval(x.p, st, value);
      StmtDone(x, a, st, s, s', if v.res.Fail? then O.Failed(v) else O.Eff(v.st, O.Ok(O.ReturnValue(v.res.value))),
               |StmtCode(x.n, t, s.pc, Stmt.Return(value))|)
    decreases O.Fuel(st), 1
  {
    hide M.RunFrom, Runs, Goes, Cut, Match, Spares, CodeAt, Linked, Fails, Sees, StmtReady, Static, O.Eval, ExprCode;
    StmtParts(x, a, t, w, Stmt.Return(value));
    CodeSplit(x.c, s.pc, ExprCode(x.n, t, s.pc, value), [Simple(Opcode.Return)]);
    s' := EvalSim(x, a, t, w.vis, st, s, value);
  }

  lemma {:induction false} PrintSim(x: Link, a: Act, t: Table, w: S.Walk, st: O.State, s: M.State, value: Expr) returns (s': M.State)
    requires Linked(x) && Match(x, a, st, s) && Sees(x, a, t, w.vis, O.Top(st)) && StmtReady(x, a, t, w, Stmt.Print(value))
    requires CodeAt(x.c, s.pc, StmtCode(x.n, t, s.pc, Stmt.Print(value)))
    ensures var v := O.Eval(x.p, st, value);
      StmtDone(x, a, st, s, s', if v.res.Fail? then O.Failed(v) else O.Eff(v.st.(output := v.st.output + [v.res.value]), O.Ok(O.Continue)),
               |StmtCode(x.n, t, s.pc, Stmt.Print(value))|)
    decreases O.Fuel(st), 1
  {
    hide M.RunFrom, Runs, Goes, Cut, Match, Spares, CodeAt, Linked, Fails, Sees, StmtReady, Static, O.Eval, ExprCode;
    StmtParts(x, a, t, w, Stmt.Print(value));
    CodeSplit(x.c, s.pc, ExprCode(x.n, t, s.pc, value), [Simple(Opcode.Print)]);
    var s1 := EvalSim(x, a, t, w.vis, st, s, value);
    s' := s1;
    var v := O.Eval(x.p, st, value);
    if v.res.Ok? && !Cut(x.c, s) {
      s' := PrintStep(x, a, v.st, s1, s.stack, v.res.value);
      Chain(x, a, v.st, v.st.(output := v.st.output + [v.res.value]), s, s1, s');
    }
  }

  lemma {:induction false} DiscardSim(x: Link, a: Act, t: Table, w: S.Walk, st: O.State, s: M.State, e: Expr) returns (s': M.State)
    requires Linked(x) && Match(x, a, st, s) && Sees(x, a, t, w.vis, O.Top(st)) && StmtReady(x, a, t, w, ExprStmt(e))
    requires CodeAt(x.c, s.pc, StmtCode(x.n, t, s.pc, ExprStmt(e)))
    ensures var v := O.Eval(x.p, st, e);
      StmtDone(x, a, st, s, s', if v.res.Fail? then O.Failed(v) else O.Eff(v.st, O.Ok(O.Continue)), |StmtCode(x.n, t, s.pc, ExprStmt(e))|)
    decreases O.Fuel(st), 1
  {
    hide M.RunFrom, Runs, Goes, Cut, Match, Spares, CodeAt, Linked, Fails, Sees, StmtReady, Static, O.Eval, ExprCode;
    StmtParts(x, a, t, w, ExprStmt(e));
    CodeSplit(x.c, s.pc, ExprCode(x.n, t, s.pc, e), [Simple(Pop)]);
    var s1 := EvalSim(x, a, t, w.vis, st, s, e);
    s' := s1;
    var v := O.Eval(x.p, st, e);
    if v.res.Ok? && !Cut(x.c, s) {
      PopStep(x, a, v.st, s1, s.stack, v.res.value);
      s' := Then(s1, s.stack);
      Chain(x, a, v.st, v.st, s, s1, s');
    }
  }

  // ---------------------------------------------------------------- declarations

  /** A declaration without a size: the oracle's scope gains an undefined scalar, the machine does nothing. */
  lemma DeclareSim(x: Link, a: Act, st: O.State, s: M.State, name: string)
    requires Match(x, a, st, s) && st.frames != [] && name in a.full.locals && !a.full.locals[name].isArray && name !in x.n.globals
    ensures var d := O.DeclareScalar(st, name);
      && d.res.Ok? && Match(x, a, d.st, s) && name in O.Top(d.st) && O.Top(st).Keys <= O.Top(d.st).Keys && d.st.frames != []
      && O.Fuel(d.st) == O.Fuel(st) && d.st.output == st.output
  {
    if name !in O.Top(st) {
      DeclareFresh(a, O.Top(st), s.locals, name);
    }
  }

  lemma DeclParts(x: Link, a: Act, t: Table, w: S.Walk, stmt: Stmt, scope: O.Scope)
    requires stmt.VarDecl? && StmtReady(x, a, t, w, stmt) && Sees(x, a, t, w.vis, scope)
    ensures var t1 := Declare(t, stmt.name, stmt.size);
      && stmt.name in t1.locals && stmt.name in a.full.locals && a.full.locals[stmt.name] == t1.locals[stmt.name]
      && stmt.name !in x.n.globals
      && t1.locals[stmt.name].isArray == stmt.size.Some?
      && (stmt.size.Some? ==> stmt.size.value > 0 && t1.locals[stmt.name].arraySize == stmt.size.value)
      && S.CheckStmt(x.fs, w, stmt).Some?
      && (stmt.size.None? && stmt.init.Some? ==> Static(x, S.CheckStmt(x.fs, w, stmt).value.vis, stmt.init.value))
  {
  }

  lemma {:induction false} DeclSim(x: Link, a: Act, t: Table, w: S.Walk, st: O.State, s: M.State, stmt: Stmt) returns (s': M.State)
    requires Linked(x) && Match(x, a, st, s) && st.frames != [] && Sees(x, a, t, w.vis, O.Top(st))
    requires stmt.VarDecl? && StmtReady(x, a, t, w, stmt)
    requires CodeAt(x.c, s.pc, StmtCode(x.n, t, s.pc, stmt))
    ensures var r := O.ExecDecl(x.p, st, stmt.name, stmt.init, stmt.size);
      && StmtDone(x, a, st, s, s', r, |StmtCode(x.n, t, s.pc, stmt)|)
      && (r.res.Ok? && !Cut(x.c, s) ==> stmt.name in O.Top(r.st))
    decreases O.Fuel(st), 2
  {
    hide M.RunFrom, Runs, Goes, Cut, Match, Spares, CodeAt, Linked, Fails, Sees, StmtReady, Static, O.Eval, ExprCode, O.DeclareScalar;
    DeclParts(x, a, t, w, stmt, O.Top(st));
    TopInTable(x, a, st, s);
    var t1 := Declare(t, stmt.name, stmt.size);
    if stmt.size.Some? {
      s' := DeclareArrayStep(x, a, st, s, stmt.name, stmt.size.value);
    } else {
      DeclareSim(x, a, st, s, stmt.name);
      var d := O.DeclareScalar(st, stmt.name);
      s' := s;
      Stay(x, a, d.st, s);
      if stmt.init.Some? {
        SeesAfter(x, a, t, w, stmt, O.Top(st), O.Top(d.st));
        s' := InitSim(x, a, t1, S.CheckStmt(x.fs, w, stmt).value.vis, d.st, s, stmt.name, stmt.init.value);
      }
    }
  }

  lemma {:induction false} InitSim(x: Link, a: Act, t: Table, vis: S.Visible, st: O.State, s: M.State, name: string, init: Expr)
    returns (s': M.State)
    requires Linked(x) && Match(x, a, st, s) && st.frames != [] && Sees(x, a, t, vis, O.Top(st)) && Static(x, vis, init)
    requires name in t.locals && name in a.full.locals && a.full.locals[name] == t.locals[name]
    requires name in O.Top(st) && !t.locals[name].isArray
    requires CodeAt(x.c, s.pc, ExprCode(x.n, t, s.pc, init) + [Ins(StoreLocal, t.locals[name].slot, 0)])
    ensures var v := O.Eval(x.p, st, init);
      var r := if v.res.Fail? then O.Failed(v) else O.Done(O.AssignScalar(v.st, name, v.res.value));
      && StmtDone(x, a, st, s, s', r, |ExprCode(x.n, t, s.pc, init)| + 1)
      && (r.res.Ok? && !Cut(x.c, s) ==> name in O.Top(r.st))
    decreases O.Fuel(st), 1
  {
    hide M.RunFrom, Runs, Goes, Cut, Match, Spares, CodeAt, Linked, Fails, Sees, Static, O.Eval, ExprCode;
    CodeSplit(x.c, s.pc, ExprCode(x.n, t, s.pc, init), [Ins(StoreLocal, t.locals[name].slot, 0)]);
    var s1 := EvalSim(x, a, t, vis, st, s, init);
    s' := s1;
    var v := O.Eval(x.p, st, init);
    if v.res.Ok? && !Cut(x.c, s) {
      s' := StoreLocalStep(x, a, v.st, s1, name, s.stack, v.res.value);
      Chain(x, a, v.st, O.AssignScalar(v.st, name, v.res.value).st, s, s1, s');
    }
  }

  // ---------------------------------------------------------------- assignments

  lemma {:induction false} AssignSim(x: Link, a: Act, t: Table, w: S.Walk, st: O.State, s: M.State, target: string, index: Option<Expr>, value: Expr)
    returns (s': M.State)
    requires Linked(x) && Match(x, a, st, s) && st.frames != [] && Sees(x, a, t, w.vis, O.Top(st))
    requires StmtReady(x, a, t, w, Assign(target, index, value))
    requires CodeAt(x.c, s.pc, StmtCode(x.n, t, s.pc, Assign(target, index, value)))
    ensures StmtDone(x, a, st, s, s', O.ExecAssign(x.p, st, target, index, value), |StmtCode(x.n, t, s.pc, Assign(target, index, value))|)
    decreases O.Fuel(st), 2
  {
    hide M.RunFrom, Runs, Goes, Cut, Match, Spares, CodeAt, Linked, Fails, StmtReady, Static, O.Eval, ExprCode;
    StmtParts(x, a, t, w, Assign(target, index, value));
    if index.Some? {
      s' := AssignElementSim(x, a, t, w.vis, st, s, target, index.value, value);
    } else {
      s' := AssignScalarSim(x, a, t, w.vis, st, s, target, value);
    }
  }

  lemma {:induction false} AssignScalarSim(x: Link, a: Act, t: Table, vis: S.Visible, st: O.State, s: M.State, target: string, value: Expr)
    returns (s': M.State)
    requires Linked(x) && Match(x, a, st, s) && st.frames != [] && Sees(x, a, t, vis, O.Top(st))
    requires target in vis && !vis[target].isFunction && !vis[target].isArray && Static(x, vis, value)
    requires CodeAt(x.c, s.pc, ExprCode(x.n, t, s.pc, value) + StoreCode(x.n, t, target))
    ensures var v := O.Eval(x.p, st, value);
      var r := if v.res.Fail? then O.Failed(v) else O.Done(O.AssignScalar(v.st, target, v.res.value));
      StmtDone(x, a, st, s, s', r, |ExprCode(x.n, t, s.pc, value)| + |StoreCode(x.n, t, target)|)
    decreases O.Fuel(st), 1
  {
    hide M.RunFrom, Runs, Goes, Cut, Match, Spares, CodeAt, Linked, Fails, Static, Sees, O.Eval, O.AssignScalar, ExprCode, StoreCode;
    CodeSplit(x.c, s.pc, ExprCode(x.n, t, s.pc, value), StoreCode(x.n, t, target));
    var s1 := EvalSim(x, a, t, vis, st, s, value);
    s' := s1;
    var v := O.Eval(x.p, st, value);
    if v.res.Ok? && !Cut(x.c, s) {
      SmallProgram(x);
      s' := StoreScalarSim(x, a, t, vis, v.st, s1, target, s.stack, v.res.value);
      Chain(x, a, v.st, O.AssignScalar(v.st, target, v.res.value).st, s, s1, s');
    }
  }

  lemma StoreScalarSim(x: Link, a: Act, t: Table, vis: S.Visible, st: O.State, s: M.State, name: string, rest: seq<int>, v: int)
    returns (s': M.State)
    requires LayoutOk(x.n.globals) && Match(x, a, st, s) && st.frames != [] && Sees(x, a, t, vis, O.Top(st))
    requires s.stack == rest + [v] && IsI32(v) && name in vis && !vis[name].isFunction && !vis[name].isArray
    requires CodeAt(x.c, s.pc, StoreCode(x.n, t, name))
    ensures var r := O.AssignScalar(st, name, v);
      && r.res.Ok? && Reaches(x, a, r.st, s, s') && s'.stack == rest && s'.pc == s.pc + |StoreCode(x.n, t, name)|
      && O.Top(st).Keys <= O.Top(r.st).Keys
  {
    hide M.RunFrom, Runs, Goes, Match, CodeAt, LayoutOk;
    TopInTable(x, a, st, s);
    if name in x.n.globals {
      s' := StoreGlobalStep(x, a, st, s, name, rest, v);
    } else {
      s' := StoreLocalStep(x, a, st, s, name, rest, v);
    }
  }

  lemma StoreElementSim(x: Link, a: Act, t: Table, vis: S.Visible, st: O.State, s: M.State, name: string, rest: seq<int>, index: int, v: int)
    returns (s': M.State)
    requires LayoutOk(x.n.globals) && Match(x, a, st, s) && st.frames != [] && Sees(x, a, t, vis, O.Top(st))
    requires s.stack == rest + [index] + [v] && IsI32(v) && name in vis && vis[name].isArray
    requires CodeAt(x.c, s.pc, StoreElementCode(x.n, t, name))
    ensures StoresElement(x, a, st, s, s', name, rest, index, v) && |StoreElementCode(x.n, t, name)| == 1
  {
    hide M.RunFrom, Runs, Goes, Match, CodeAt, StoresElement, LayoutOk;
    TopInTable(x, a, st, s);
    if name in x.n.globals {
      s' := StoreGlobalElementStep(x, a, st, s, name, rest, index, v);
    } else {
      s' := StoreLocalElementStep(x, a, st, s, name, rest, index, v);
    }
  }

  /**
   * A negative index: the oracle stops before the value, the machine evaluates it first. The outcomes
   * agree exactly when evaluating the value would not have shown.
   */
  lemma PreviewFails(c: CompiledProgram, s: M.State, st: O.State, v: O.Eff<int>)
    requires st.output <= v.st.output && O.Sited(v.res)
    requires v.res.Fail? ==> Fails(c, s, v.res.code, v.res.site, v.st.output)
    requires v.res.Ok? ==> Fails(c, s, ArrayOutOfBounds, O.Elsewhere, v.st.output)
    ensures Fails(c, s, ArrayOutOfBounds, O.BeforeStoredValue(O.Preview(st, v)), st.output)
  {
    hide M.RunFrom;
    var run := M.RunFrom(c, s);
    if !Cut(c, s) && O.Preview(st, v) != O.OverLimit {
      assert ShowsTrap(run, if v.res.Ok? then ArrayOutOfBounds else v.res.code, if v.res.Ok? then O.Elsewhere else v.res.site, v.st.output);
      assert st.output <= run.output;
      assert v.st.output != st.output ==> |st.output| < |v.st.output|;
    }
  }

  /** What an assignment to an element does once its index and its value were evaluated. */
  function ElementAssigned(i: O.Eff<int>, v: O.Eff<int>, target: string): O.Eff<O.Control>
    requires i.res.Ok?
  {
    if i.res.value < 0 then O.Eff(i.st, O.Fail(ArrayOutOfBounds, O.BeforeStoredValue(O.Preview(i.st, v))))
    else if v.res.Fail? then O.Failed(v)
    else O.Done(O.AssignArray(v.st, target, i.res.value, v.res.value))
  }

  /** The machine evaluates the value first; only then does it look at the index. */
  lemma AssignTail(x: Link, a: Act, t: Table, vis: S.Visible, st: O.State, i: O.Eff<int>, v: O.Eff<int>, s: M.State, s1: M.State, s2: M.State,
                   target: string, icode: nat, vcode: nat) returns (s': M.State)
    requires Linked(x) && !Cut(x.c, s) && i.res.Ok? && st.frames != [] && O.Top(i.st) == O.Top(st) && i.st.frames == st.frames
    requires v.res.Ok? ==> v.st.frames == st.frames
    requires i.st.output <= v.st.output && O.Sited(v.res)
    requires Sees(x, a, t, vis, O.Top(st)) && target in vis && vis[target].isArray
    requires ExprDone(x, a, s, s1, i, icode) && ExprDone(x, a, s1, s2, v, vcode)
    requires CodeAt(x.c, s.pc + icode + vcode, StoreElementCode(x.n, t, target))
    ensures StmtDone(x, a, st, s, s', ElementAssigned(i, v, target), icode + vcode + |StoreElementCode(x.n, t, target)|)
  {
    hide M.RunFrom, Runs, Goes, Cut, Match, Spares, CodeAt, Linked, Fails, Sees, StoreElementCode, O.Preview;
    s' := s2;
    if v.res.Fail? {
      FailChain(x, s, s1, v.res.code, v.res.site, v.st.output);
      if i.res.value < 0 {
        PreviewFails(x.c, s, i.st, v);
      }
    } else {
      Chain(x, a, i.st, v.st, s, s1, s2);
      SmallProgram(x);
      s' := StoreElementSim(x, a, t, vis, v.st, s2, target, s.stack, i.res.value, v.res.value);
      if i.res.value < 0 {
        FailChain(x, s, s2, ArrayOutOfBounds, O.Elsewhere, v.st.output);
        PreviewFails(x.c, s, i.st, v);
      } else {
        var r := O.AssignArray(v.st, target, i.res.value, v.res.value);
        if r.res.Ok? {
          Chain(x, a, v.st, r.st, s, s2, s');
        } else {
          FailChain(x, s, s2, r.res.code, r.res.site, v.st.output);
        }
      }
    }
  }

  lemma {:induction false} AssignElementSim(x: Link, a: Act, t: Table, vis: S.Visible, st: O.State, s: M.State, target: string, index: Expr, value: Expr)
    returns (s': M.State)
    requires Linked(x) && Match(x, a, st, s) && st.frames != [] && Sees(x, a, t, vis, O.Top(st))
    requires target in vis && vis[target].isArray && Static(x, vis, index) && Static(x, vis, value)
    requires var icode := ExprCode(x.n, t, s.pc, index);
      CodeAt(x.c, s.pc, icode + ExprCode(x.n, t, s.pc + |icode|, value) + StoreElementCode(x.n, t, target))
    ensures var icode := ExprCode(x.n, t, s.pc, index);
      StmtDone(x, a, st, s, s', O.ExecAssign(x.p, st, target, Some(index), value),
               |icode| + |ExprCode(x.n, t, s.pc + |icode|, value)| + |StoreElementCode(x.n, t, target)|)
    decreases O.Fuel(st), 1
  {
    hide M.RunFrom, Runs, Goes, Cut, Match, Spares, CodeAt, Linked, Fails, Static, Sees, O.Eval, ExprCode, StoreElementCode, O.Preview;
    var icode := ExprCode(x.n, t, s.pc, index);
    var vcode := ExprCode(x.n, t, s.pc + |icode|, value);
    CodeSplit(x.c, s.pc, icode + vcode, StoreElementCode(x.n, t, target));
    CodeSplit(x.c, s.pc, icode, vcode);
    var s1 := EvalSim(x, a, t, vis, st, s, index);
    s' := s1;
    var i := O.Eval(x.p, st, index);
    if i.res.Ok? && !Cut(x.c, s) {
      var s2 := EvalSim(x, a, t, vis, i.st, s1, value);
      s' := AssignTail(x, a, t, vis, st, i, O.Eval(x.p, i.st, value), s, s1, s2, target, |icode|, |vcode|);
    }
  }

  // ---------------------------------------------------------------- branches and loops

  lemma CodeFits(c: CompiledProgram, pc: nat, code: seq<Instruction>)
    requires CodeAt(c, pc, code)
    ensures pc + |code| <= |c.instructions|
  {
  }

  lemma IfPieces(c: CompiledProgram, n: Names, t: Table, pc: nat, condition: Expr, thenBody: seq<Stmt>)
    requires CodeAt(c, pc, StmtCode(n, t, pc, If(condition, thenBody, NoElse))) && |c.instructions| <= MAX_INSTRUCTIONS
    ensures var ccode := ExprCode(n, t, pc, condition);
      var thn := BlockCode(n, t, pc + |ccode| + 1, thenBody);
      var end := pc + |ccode| + 1 + |thn|;
      && CodeAt(c, pc, ccode) && CodeAt(c, pc + |ccode|, [Ins(JumpIfFalse, end, 0)]) && CodeAt(c, pc + |ccode| + 1, thn)
      && end <= MAX_INSTRUCTIONS && |StmtCode(n, t, pc, If(condition, thenBody, NoElse))| == end - pc
  {
    hide ExprCode, BlockCode;
    var ccode := ExprCode(n, t, pc, condition);
    var thn := BlockCode(n, t, pc + |ccode| + 1, thenBody);
    var jf := [Ins(JumpIfFalse, pc + |ccode| + 1 + |thn|, 0)];
    CodeSplit(c, pc, ccode + jf, thn);
    CodeSplit(c, pc, ccode, jf);
  }

  lemma IfElseCode(n: Names, t: Table, pc: nat, condition: Expr, thenBody: seq<Stmt>, elseBody: seq<Stmt>)
    ensures var ccode := ExprCode(n, t, pc, condition);
      var thn := BlockCode(n, t, pc + |ccode| + 1, thenBody);
      var elsePc := pc + |ccode| + 1 + |thn|;
      var els := BlockCode(n, CollectBlock(t, thenBody), elsePc + 1, elseBody);
      StmtCode(n, t, pc, If(condition, thenBody, Else(elseBody)))
      == ccode + [Ins(JumpIfFalse, elsePc + 1, 0)] + thn + [Ins(Jump, elsePc + 1 + |els|, 0)] + els
  {
    hide ExprCode, BlockCode, CollectBlock;
  }

  lemma IfElsePieces(c: CompiledProgram, n: Names, t: Table, pc: nat, condition: Expr, thenBody: seq<Stmt>, elseBody: seq<Stmt>)
    requires CodeAt(c, pc, StmtCode(n, t, pc, If(condition, thenBody, Else(elseBody)))) && |c.instructions| <= MAX_INSTRUCTIONS
    ensures var ccode := ExprCode(n, t, pc, condition);
      var thn := BlockCode(n, t, pc + |ccode| + 1, thenBody);
      var elsePc := pc + |ccode| + 1 + |thn|;
      var els := BlockCode(n, CollectBlock(t, thenBody), elsePc + 1, elseBody);
      && CodeAt(c, pc, ccode) && CodeAt(c, pc + |ccode|, [Ins(JumpIfFalse, elsePc + 1, 0)]) && CodeAt(c, pc + |ccode| + 1, thn)
      && CodeAt(c, elsePc, [Ins(Jump, elsePc + 1 + |els|, 0)]) && CodeAt(c, elsePc + 1, els)
      && elsePc + 1 + |els| <= MAX_INSTRUCTIONS
      && |StmtCode(n, t, pc, If(condition, thenBody, Else(elseBody)))| == elsePc + 1 + |els| - pc
  {
    hide ExprCode, BlockCode, StmtCode, CollectBlock, CodeAt, Ins;
    IfElseCode(n, t, pc, condition, thenBody, elseBody);
    var ccode := ExprCode(n, t, pc, condition);
    var thn := BlockCode(n, t, pc + |ccode| + 1, thenBody);
    var elsePc := pc + |ccode| + 1 + |thn|;
    var els := BlockCode(n, CollectBlock(t, thenBody), elsePc + 1, elseBody);
    var jf, j := [Ins(JumpIfFalse, elsePc + 1, 0)], [Ins(Jump, elsePc + 1 + |els|, 0)];
    CodeSplit(c, pc, ccode + jf + thn + j, els);
    CodeSplit(c, pc, ccode + jf + thn, j);
    CodeSplit(c, pc, ccode + jf, thn);
    CodeSplit(c, pc, ccode, jf);
    CodeFits(c, elsePc + 1, els);
  }

  lemma {:induction false} IfSim(x: Link, a: Act, t: Table, w: S.Walk, st: O.State, s: M.State, condition: Expr, thenBody: seq<Stmt>, elseBody: ElseBody)
    returns (s': M.State)
    requires Linked(x) && Match(x, a, st, s) && st.frames != [] && Sees(x, a, t, w.vis, O.Top(st))
    requires StmtReady(x, a, t, w, If(condition, thenBody, elseBody))
    requires CodeAt(x.c, s.pc, StmtCode(x.n, t, s.pc, If(condition, thenBody, elseBody)))
    ensures var c := O.Eval(x.p, st, condition);
      var r := if c.res.Fail? then O.Failed(c)
               else if c.res.value != 0 then O.ExecBlock(x.p, c.st, thenBody)
               else if elseBody.Else? then O.ExecBlock(x.p, c.st, elseBody.body)
               else O.Eff(c.st, O.Ok(O.Continue));
      StmtDone(x, a, st, s, s', r, |StmtCode(x.n, t, s.pc, If(condition, thenBody, elseBody))|)
    decreases O.Fuel(st), 2
  {
    hide M.RunFrom, Runs, Goes, Cut, Match, Spares, CodeAt, Linked, Fails, Static, Sees, O.Eval, O.ExecBlock,
         ExprCode, StmtCode, BlockCode, StmtReady, BlockReady, CollectBlock, S.CheckBlock, Ins;
    SmallProgram(x);
    StmtParts(x, a, t, w, If(condition, thenBody, elseBody));
    if elseBody.Else? {
      IfElsePieces(x.c, x.n, t, s.pc, condition, thenBody, elseBody.body);
    } else {
      IfPieces(x.c, x.n, t, s.pc, condition, thenBody);
    }
    var ccode := ExprCode(x.n, t, s.pc, condition);
    var thn := BlockCode(x.n, t, s.pc + |ccode| + 1, thenBody);
    var elsePc := s.pc + |ccode| + 1 + |thn|;
    var target := if elseBody.NoElse? then elsePc else elsePc + 1;
    var s1 := EvalSim(x, a, t, w.vis, st, s, condition);
    s' := s1;
    var c := O.Eval(x.p, st, condition);
    if c.res.Ok? && !Cut(x.c, s) {
      BranchStep(x, a, JumpIfFalse, target, c.st, s1, s.stack, c.res.value);
      var s2 := Branched(s1, JumpIfFalse, target, s.stack, c.res.value);
      Chain(x, a, c.st, c.st, s, s1, s2);
      if c.res.value != 0 {
        s' := BlockSim(x, a, t, w, c.st, s2, thenBody);
        s' := AfterThen(x, a, c.st, s, s2, s', O.ExecBlock(x.p, c.st, thenBody), |thn|, elseBody.Else?,
                        s.pc + |StmtCode(x.n, t, s.pc, If(condition, thenBody, elseBody))|);
      } else if elseBody.Else? {
        var t1 := CollectBlock(t, thenBody);
        SeesMore(x, a, t, t1, w.vis, O.Top(c.st), O.Top(c.st));
        s' := BlockSim(x, a, t1, S.CheckBlock(x.fs, w, thenBody).value.(vis := w.vis), c.st, s2, elseBody.body);
        AfterBlock(x, a, c.st, s, s2, s', O.ExecBlock(x.p, c.st, elseBody.body), |BlockCode(x.n, t1, elsePc + 1, elseBody.body)|);
      } else {
        s' := s2;
      }
    }
  }

  /** A block that ran after s2 ran after s. */
  lemma AfterBlock(x: Link, a: Act, st: O.State, s: M.State, s2: M.State, s3: M.State, r: O.Eff<O.Control>, len: nat)
    requires Reaches(x, a, st, s, s2) && s2.stack == s.stack && StmtDone(x, a, st, s2, s3, r, len) && !Cut(x.c, s)
    ensures match r.res
      case Fail(code, site) => Fails(x.c, s, code, site, r.st.output)
      case Ok(control) =>
        && Reaches(x, a, r.st, s, s3) && O.Top(st).Keys <= O.Top(r.st).Keys
        && (control.Continue? ==> s3.stack == s.stack && s3.pc == s2.pc + len)
        && (control.ReturnValue? ==>
              IsI32(control.value) && s3.stack == s.stack + [control.value] && CodeAt(x.c, s3.pc, [Simple(Opcode.Return)]))
  {
    hide M.RunFrom, Runs, Goes, Cut, Match, Spares, CodeAt, Fails;
    match r.res
    case Fail(code, site) => FailChain(x, s, s2, code, site, r.st.output);
    case Ok(control) => Chain(x, a, st, r.st, s, s2, s3);
  }

  /** After the then-branch: jump over the else-branch, if there is one. */
  lemma AfterThen(x: Link, a: Act, st: O.State, s: M.State, s2: M.State, s3: M.State, r: O.Eff<O.Control>, len: nat, jump: bool, end: nat)
    returns (s': M.State)
    requires Reaches(x, a, st, s, s2) && s2.stack == s.stack && StmtDone(x, a, st, s2, s3, r, len) && !Cut(x.c, s)
    requires end <= MAX_INSTRUCTIONS && s.pc <= end
    requires if jump then CodeAt(x.c, s2.pc + len, [Ins(Jump, end, 0)]) else end == s2.pc + len
    ensures StmtDone(x, a, st, s, s', r, end - s.pc)
  {
    hide M.RunFrom, Runs, Goes, Cut, Match, Spares, CodeAt, Fails;
    AfterBlock(x, a, st, s, s2, s3, r, len);
    s' := s3;
    if jump && r.res.Ok? && r.res.value.Continue? {
      JumpStep(x, a, end, r.st, s3);
      s' := Tock(s3).(pc := end);
      Chain(x, a, r.st, r.st, s, s3, s');
    }
  }

  lemma WhilePieces(c: CompiledProgram, n: Names, t: Table, pc: nat, condition: Expr, body: seq<Stmt>)
    requires CodeAt(c, pc, StmtCode(n, t, pc, While(condition, body))) && |c.instructions| <= MAX_INSTRUCTIONS
    ensures var ccode := ExprCode(n, t, pc, condition);
      var bcode := BlockCode(n, t, pc + |ccode| + 1, body);
      var exit := pc + |ccode| + 1 + |bcode| + 1;
      && CodeAt(c, pc, ccode) && CodeAt(c, pc + |ccode|, [Ins(JumpIfFalse, exit, 0)])
      && CodeAt(c, pc + |ccode| + 1, bcode) && CodeAt(c, pc + |ccode| + 1 + |bcode|, [Ins(Jump, pc, 0)])
      && exit <= MAX_INSTRUCTIONS && |StmtCode(n, t, pc, While(condition, body))| == exit - pc
  {
    hide ExprCode, BlockCode;
    var ccode := ExprCode(n, t, pc, condition);
    var bcode := BlockCode(n, t, pc + |ccode| + 1, body);
    var exit := pc + |ccode| + 1 + |bcode| + 1;
    var jf, j := [Ins(JumpIfFalse, exit, 0)], [Ins(Jump, pc, 0)];
    CodeSplit(c, pc, ccode + jf + bcode, j);
    CodeSplit(c, pc, ccode + jf, bcode);
    CodeSplit(c, pc, ccode, jf);
  }

  lemma {:induction false} WhileSim(x: Link, a: Act, t: Table, w: S.Walk, st: O.State, s: M.State, condition: Expr, body: seq<Stmt>)
    returns (s': M.State)
    requires Linked(x) && Match(x, a, st, s) && st.frames != [] && Sees(x, a, t, w.vis, O.Top(st))
    requires StmtReady(x, a, t, w, While(condition, body))
    requires CodeAt(x.c, s.pc, StmtCode(x.n, t, s.pc, While(condition, body)))
    ensures StmtDone(x, a, st, s, s', O.ExecWhile(x.p, st, condition, body), |StmtCode(x.n, t, s.pc, While(condition, body))|)
    decreases O.Fuel(st), 3
  {
    hide M.RunFrom, Runs, Goes, Cut, Match, Spares, CodeAt, Linked, Fails, Static, Sees, O.Eval, O.ExecBlock,
         ExprCode, StmtCode, BlockCode, StmtReady, BlockReady;
    SmallProgram(x);
    StmtParts(x, a, t, w, While(condition, body));
    WhilePieces(x.c, x.n, t, s.pc, condition, body);
    var ccode := ExprCode(x.n, t, s.pc, condition);
    var bcode := BlockCode(x.n, t, s.pc + |ccode| + 1, body);
    var exit := s.pc + |ccode| + 1 + |bcode| + 1;
    var s1 := EvalSim(x, a, t, w.vis, st, s, condition);
    s' := s1;
    var c := O.Eval(x.p, st, condition);
    if c.res.Ok? && !Cut(x.c, s) {
      BranchStep(x, a, JumpIfFalse, exit, c.st, s1, s.stack, c.res.value);
      var s2 := Branched(s1, JumpIfFalse, exit, s.stack, c.res.value);
      Chain(x, a, c.st, c.st, s, s1, s2);
      s' := s2;
      if c.res.value != 0 {
        var b := O.ExecBlock(x.p, c.st, body);
        var s3 := BlockSim(x, a, t, w, c.st, s2, body);
        AfterBlock(x, a, c.st, s, s2, s3, b, |bcode|);
        s' := s3;
        if b.res.Ok? && b.res.value.Continue? {
          JumpStep(x, a, s.pc, b.st, s3);
          var s4 := Tock(s3).(pc := s.pc);
          Chain(x, a, b.st, b.st, s, s3, s4);
          SeesStill(x, a, t, w.vis, O.Top(c.st), O.Top(b.st));
          s' := WhileSim(x, a, t, w, b.st, s4, condition, body);
          AfterBlock(x, a, b.st, s, s4, s', O.ExecWhile(x.p, b.st, condition, body), exit - s.pc);
        }
      }
    }
  }
}
