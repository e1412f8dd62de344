/** Compiled code never halts, so both machines' traces of it always compare equal. */
module CompiledTraces {
  import opened Common
  import opened Int32
  import opened Limits
  import opened Ast
  import opened Bytecode
  import opened CodeGen
  import opened Correctness
  import opened Discipline
  import opened Linking
  import opened Traces
  import opened TracesCorrect
  import CompiledRuns
  import GcCorrect
  import G = GcMachine
  import H = GcHeap
  import L = Lockstep
  import M = Machine
  import P = ProgramVerifier
  import V = VerifierSound

  predicate NoHalt(code: seq<Instruction>) {
    forall instr <- code :: instr.opcode != Halt
  }

  lemma Joined(a: seq<Instruction>, b: seq<Instruction>)
    requires NoHalt(a) && NoHalt(b)
    ensures NoHalt(a + b)
  {
  }

  lemma {:induction false} ExprNoHalt(n: Names, t: Table, pc: nat, e: Expr)
    ensures NoHalt(ExprCode(n, t, pc, e))
    decreases e, 0
  {
    hide NoHalt, ArgsCode, ShortCode, IndexCode, ReadCode, CallIns;
    match e {
      case Binary(op, left, right) =>
        var l := ExprCode(n, t, pc, left);
        ExprNoHalt(n, t, pc, left);
        if IsShort(op) {
          ExprNoHalt(n, t, pc + |l| + 1, right);
          ShortNoHalt(op, pc, l, ExprCode(n, t, pc + |l| + 1, right));
        } else {
          var r := ExprCode(n, t, pc + |l|, right);
          ExprNoHalt(n, t, pc + |l|, right);
          OperatorNoHalt(op, UnaryOp.Neg);
          Joined(l, r);
          Joined(l + r, [Simple(BinaryOpcode(op))]);
        }
      case Unary(op, operand) =>
        ExprNoHalt(n, t, pc, operand);
        OperatorNoHalt(BinaryOp.Add, op);
        Joined(ExprCode(n, t, pc, operand), [Simple(UnaryOpcode(op))]);
      case Call(name, args) =>
        ArgsNoHalt(n, t, pc, args);
        NamesNoHalt(n, t, name, |args|);
        Joined(ArgsCode(n, t, pc, args), [CallIns(n, name, |args|)]);
      case ArrayIndex(name, index) =>
        ExprNoHalt(n, t, pc, index);
        NamesNoHalt(n, t, name, 0);
        Joined(ExprCode(n, t, pc, index), IndexCode(n, t, name));
      case Identifier(name) => NamesNoHalt(n, t, name, 0);
      case IntLiteral(v) => LiteralNoHalt(v);
      case BoolLiteral(b) => LiteralNoHalt(BoolValue(b));
    }
  }

  lemma LiteralNoHalt(v: int)
    ensures NoHalt([Ins(LoadConst, v, 0)])
  {
  }

  lemma OperatorNoHalt(op: BinaryOp, unary: UnaryOp)
    ensures !IsShort(op) ==> NoHalt([Simple(BinaryOpcode(op))])
    ensures NoHalt([Simple(UnaryOpcode(unary))])
  {
  }

  lemma NamesNoHalt(n: Names, t: Table, name: string, count: nat)
    ensures NoHalt([CallIns(n, name, count)]) && NoHalt(IndexCode(n, t, name)) && NoHalt(ReadCode(n, t, name))
  {
  }

  lemma ShortNoHalt(op: BinaryOp, pc: nat, left: seq<Instruction>, right: seq<Instruction>)
    requires NoHalt(left) && NoHalt(right)
    ensures NoHalt(ShortCode(ShortJump(op), ShortResult(op), pc, left, right))
  {
  }

  lemma {:induction false} ArgsNoHalt(n: Names, t: Table, pc: nat, args: seq<Expr>)
    ensures NoHalt(ArgsCode(n, t, pc, args))
    decreases args, 0
  {
    hide ExprCode;
    if args != [] {
      ExprNoHalt(n, t, pc, args[0]);
      ArgsNoHalt(n, t, pc + |ExprCode(n, t, pc, args[0])|, args[1..]);
    }
  }

  lemma AssignNoHalt(n: Names, t: Table, pc: nat, target: string, index: Option<Expr>, value: Expr)
    ensures NoHalt(AssignCode(n, t, pc, target, index, value))
  {
    hide ExprCode;
    ExprNoHalt(n, t, pc, value);
    if index.Some? {
      ExprNoHalt(n, t, pc, index.value);
      ExprNoHalt(n, t, pc + |ExprCode(n, t, pc, index.value)|, value);
    }
  }

  lemma {:induction false} StmtNoHalt(n: Names, t: Table, pc: nat, s: Stmt)
    ensures NoHalt(StmtCode(n, t, pc, s))
    decreases s, 1
  {
    hide ExprCode, AssignCode, CollectBlock, BlockCode, NoHalt, DeclCode;
    match s {
      case VarDecl(_, name, init, size) => DeclNoHalt(n, Declare(t, name, size), pc, name, init);
      case Assign(target, index, value) => AssignNoHalt(n, t, pc, target, index, value);
      case If(_, _, _) => IfNoHalt(n, t, pc, s);
      case While(_, _) => WhileNoHalt(n, t, pc, s);
      case Return(value) =>
        ExprNoHalt(n, t, pc, value);
        Ends(ExprCode(n, t, pc, value), Opcode.Return);
      case Print(value) =>
        ExprNoHalt(n, t, pc, value);
        Ends(ExprCode(n, t, pc, value), Opcode.Print);
      case ExprStmt(e) =>
        ExprNoHalt(n, t, pc, e);
        Ends(ExprCode(n, t, pc, e), Pop);
    }
  }

  lemma {:induction false} IfNoHalt(n: Names, t: Table, pc: nat, s: Stmt)
    requires s.If?
    ensures NoHalt(StmtCode(n, t, pc, s))
    decreases s, 0
  {
    hide ExprCode, CollectBlock, BlockCode, NoHalt;
    var c := ExprCode(n, t, pc, s.condition);
    var thn := BlockCode(n, t, pc + |c| + 1, s.thenBody);
    var elsePc := pc + |c| + 1 + |thn|;
    ExprNoHalt(n, t, pc, s.condition);
    BlockNoHalt(n, t, pc + |c| + 1, s.thenBody);
    if s.elseBody.Else? {
      var els := BlockCode(n, CollectBlock(t, s.thenBody), elsePc + 1, s.elseBody.body);
      BlockNoHalt(n, CollectBlock(t, s.thenBody), elsePc + 1, s.elseBody.body);
      Jumps(c, JumpIfFalse, elsePc + 1, thn);
      Jumps(c + [Ins(JumpIfFalse, elsePc + 1, 0)] + thn, Jump, elsePc + 1 + |els|, els);
    } else {
      Jumps(c, JumpIfFalse, elsePc, thn);
    }
  }

  lemma {:induction false} WhileNoHalt(n: Names, t: Table, pc: nat, s: Stmt)
    requires s.While?
    ensures NoHalt(StmtCode(n, t, pc, s))
    decreases s, 0
  {
    hide ExprCode, BlockCode, NoHalt;
    var c := ExprCode(n, t, pc, s.condition);
    var b := BlockCode(n, t, pc + |c| + 1, s.body);
    var exit := pc + |c| + 1 + |b| + 1;
    ExprNoHalt(n, t, pc, s.condition);
    BlockNoHalt(n, t, pc + |c| + 1, s.body);
    Jumps(c, JumpIfFalse, exit, b);
    LoopEnds(c + [Ins(JumpIfFalse, exit, 0)] + b, pc);
  }

  lemma LoopEnds(a: seq<Instruction>, target: int)
    requires NoHalt(a)
    ensures NoHalt(a + [Ins(Jump, target, 0)])
  {
  }

  lemma Jumps(a: seq<Instruction>, jump: Opcode, target: int, b: seq<Instruction>)
    requires NoHalt(a) && NoHalt(b) && jump != Halt
    ensures NoHalt(a + [Ins(jump, target, 0)] + b)
  {
  }

  lemma Ends(a: seq<Instruction>, op: Opcode)
    requires NoHalt(a) && op != Halt
    ensures NoHalt(a + [Simple(op)])
  {
  }

  lemma DeclNoHalt(n: Names, t: Table, pc: nat, name: string, init: Option<Expr>)
    requires name in t.locals
    ensures NoHalt(DeclCode(n, t, pc, name, init))
  {
    hide ExprCode;
    if init.Some? {
      ExprNoHalt(n, t, pc, init.value);
    }
  }

  lemma {:induction false} BlockNoHalt(n: Names, t: Table, pc: nat, stmts: seq<Stmt>)
    ensures NoHalt(BlockCode(n, t, pc, stmts))
    decreases stmts, 0
  {
    hide StmtCode, CollectStmt;
    if stmts != [] {
      StmtNoHalt(n, t, pc, stmts[0]);
      BlockNoHalt(n, CollectStmt(t, stmts[0]), pc + |StmtCode(n, t, pc, stmts[0])|, stmts[1..]);
    }
  }

  lemma {:induction false} InitNoHalt(n: Names, t: Table, pc: nat, globals: seq<GlobalVar>)
    ensures NoHalt(InitCode(n, t, pc, globals))
    decreases |globals|
  {
    hide ExprCode;
    if globals != [] {
      var g := globals[0];
      if g.init.None? {
        InitNoHalt(n, t, pc, globals[1..]);
      } else {
        ExprNoHalt(n, t, pc, g.init.value);
        InitNoHalt(n, t, pc + |ExprCode(n, t, pc, g.init.value)| + 1, globals[1..]);
      }
    }
  }

  lemma FunctionNoHalt(p: Program, f: Function, pc: nat)
    ensures NoHalt(FunctionCode(p, f, pc))
  {
    hide BlockCode, InitCode;
    InitNoHalt(NamesOf(p), ParamTable(f.params), pc, p.globals);
    BlockNoHalt(NamesOf(p), ParamTable(f.params), pc + |PrefixCode(p, f, pc)|, f.body);
  }

  lemma {:induction false} CodeNoHalt(p: Program, k: nat)
    requires k <= |p.functions|
    ensures NoHalt(CodeOf(p, k))
  {
    hide FunctionCode;
    if k > 0 {
      CodeNoHalt(p, k - 1);
      FunctionNoHalt(p, p.functions[k - 1], |CodeOf(p, k - 1)|);
    }
  }

  /**
   * On compiled comparable programs the semantic comparison of both machines' traces finds no difference, in whatever order
   * the global arrays are allocated, unless the reference machine ends in StackOverflow.
   */
  lemma CompiledTracesAgree(p: Program, arrays: seq<GlobalInfo>)
    requires Comparable(p) && G.ArraysOf(Compile(p), arrays) && M.Run(Compile(p)).trap != StackOverflow
    ensures
      var c := Compile(p);
      && c.mainFuncId in c.functions
      && SemanticDivergenceFrom(0, Seen([], 0), Seen([], 0), VmTrace(c, M.Boot(c)), GcTrace(c, G.Boot(c, arrays))).None?
  {
    hide Comparable, Compile, Orderly, P.GlobalsOk, G.Boot, M.Boot, VmTrace, GcTrace, L.Related, L.StorageEnds, H.HeapOk, M.Validate, HaltsOnNothing, M.RunFrom;
    var c := Compile(p);
    var plans := CompiledRuns.PlansOf(p);
    Validated(p);
    if L.StorageEnds(c, M.Boot(c)) {
      var mu := GcCorrect.BootRelated(c, plans, arrays);
      GcCorrect.StorageEndsRun(c, plans, mu, M.Boot(c), G.Boot(c, arrays));
    }
    CompiledNoHalt(p);
    NoHaltNoTrouble(c, M.Boot(c));
    TracesAgree(c, plans, arrays);
  }

  lemma CompiledNoHalt(p: Program)
    ensures forall i :: 0 <= i < |Compile(p).instructions| ==> Compile(p).instructions[i].opcode != Halt
  {
    hide CodeOf;
    CodeNoHalt(p, |p.functions|);
  }
}
