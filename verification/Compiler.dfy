/** The compiler as an object: it appends instructions and patches jumps in place, and builds exactly the code of CodeGen. */
module Compiler {
  import opened Common
  import opened Int32
  import opened Ast
  import opened Bytecode
  import opened CodeGen

  // ---------------------------------------------------------------- what the compiler relies on

  // Looking up a function that was never registered makes the compiler panic.
  predicate CallsKnown(funcs: map<string, nat>, e: Expr)
    decreases e, 0
  {
    match e
    case Binary(_, left, right) => CallsKnown(funcs, left) && CallsKnown(funcs, right)
    case Unary(_, operand) => CallsKnown(funcs, operand)
    case Call(name, args) => name in funcs && ArgsKnown(funcs, args)
    case ArrayIndex(_, index) => CallsKnown(funcs, index)
    case _ => true
  }

  predicate ArgsKnown(funcs: map<string, nat>, args: seq<Expr>)
    decreases args, 0
  {
    args == [] || (CallsKnown(funcs, args[0]) && ArgsKnown(funcs, args[1..]))
  }

  predicate StmtKnown(funcs: map<string, nat>, s: Stmt)
    decreases s, 0
  {
    match s
    case VarDecl(_, _, init, _) => init.Some? ==> CallsKnown(funcs, init.value)
    case Assign(_, index, value) => (index.Some? ==> CallsKnown(funcs, index.value)) && CallsKnown(funcs, value)
    case If(condition, thenBody, elseBody) =>
      && CallsKnown(funcs, condition) && BlockKnown(funcs, thenBody)
      && (elseBody.Else? ==> BlockKnown(funcs, elseBody.body))
    case While(condition, body) => CallsKnown(funcs, condition) && BlockKnown(funcs, body)
    case Return(value) => CallsKnown(funcs, value)
    case Print(value) => CallsKnown(funcs, value)
    case ExprStmt(e) => CallsKnown(funcs, e)
  }

  predicate BlockKnown(funcs: map<string, nat>, stmts: seq<Stmt>)
    decreases stmts, 0
  {
    stmts == [] || (StmtKnown(funcs, stmts[0]) && BlockKnown(funcs, stmts[1..]))
  }

  predicate ProgramKnown(p: Program) {
    && (forall g <- p.globals :: g.init.Some? ==> CallsKnown(FunctionIds(p.functions), g.init.value))
    && (forall f <- p.functions :: BlockKnown(FunctionIds(p.functions), f.body))
  }

  // ---------------------------------------------------------------- code, piece by piece

  lemma ArgsCodeOf(n: Names, t: Table, pc: nat, args: seq<Expr>)
    ensures args == [] ==> ArgsCode(n, t, pc, args) == []
    ensures args != [] ==> var first := ExprCode(n, t, pc, args[0]);
      ArgsCode(n, t, pc, args) == first + ArgsCode(n, t, pc + |first|, args[1..])
  {
    hide ExprCode;
  }

  lemma ArgsCodeEnd(n: Names, t: Table, pc: nat, args: seq<Expr>, k: nat)
    requires k < |args|
    ensures ArgsCode(n, t, pc, args[..k + 1])
         == ArgsCode(n, t, pc, args[..k]) + ExprCode(n, t, pc + |ArgsCode(n, t, pc, args[..k])|, args[k])
    decreases k
  {
    hide ExprCode, ArgsCode;
    ArgsCodeOf(n, t, pc, args[..k + 1]);
    ArgsCodeOf(n, t, pc, args[..k]);
    if k == 0 {
      assert args[..1][1..] == [];
      ArgsCodeOf(n, t, pc + |ExprCode(n, t, pc, args[0])|, []);
    } else {
      var first := ExprCode(n, t, pc, args[0]);
      assert args[..k + 1][1..] == args[1..][..k] && args[..k][1..] == args[1..][..k - 1];
      ArgsCodeEnd(n, t, pc + |first|, args[1..], k - 1);
    }
  }

  lemma CollectEnd(t: Table, stmts: seq<Stmt>, k: nat)
    requires k < |stmts|
    ensures CollectBlock(t, stmts[..k + 1]) == CollectStmt(CollectBlock(t, stmts[..k]), stmts[k])
    decreases k
  {
    if k == 0 {
      assert stmts[..1][1..] == [];
    } else {
      assert stmts[..k + 1][1..] == stmts[1..][..k] && stmts[..k][1..] == stmts[1..][..k - 1];
      CollectEnd(CollectStmt(t, stmts[0]), stmts[1..], k - 1);
    }
  }

  lemma BlockCodeOf(n: Names, t: Table, pc: nat, stmts: seq<Stmt>)
    ensures stmts == [] ==> BlockCode(n, t, pc, stmts) == []
    ensures stmts != [] ==> var first := StmtCode(n, t, pc, stmts[0]);
      BlockCode(n, t, pc, stmts) == first + BlockCode(n, CollectStmt(t, stmts[0]), pc + |first|, stmts[1..])
  {
    hide StmtCode;
  }

  lemma BlockCodeEnd(n: Names, t: Table, pc: nat, stmts: seq<Stmt>, k: nat)
    requires k < |stmts|
    ensures BlockCode(n, t, pc, stmts[..k + 1])
         == BlockCode(n, t, pc, stmts[..k]) + StmtCode(n, CollectBlock(t, stmts[..k]), pc + |BlockCode(n, t, pc, stmts[..k])|, stmts[k])
    decreases k
  {
    hide StmtCode, BlockCode, CollectStmt;
    BlockCodeOf(n, t, pc, stmts[..k + 1]);
    BlockCodeOf(n, t, pc, stmts[..k]);
    if k == 0 {
      assert stmts[..1][1..] == [];
      BlockCodeOf(n, CollectStmt(t, stmts[0]), pc + |StmtCode(n, t, pc, stmts[0])|, []);
    } else {
      var first := StmtCode(n, t, pc, stmts[0]);
      assert stmts[..k + 1][1..] == stmts[1..][..k] && stmts[..k][1..] == stmts[1..][..k - 1];
      BlockCodeEnd(n, CollectStmt(t, stmts[0]), pc + |first|, stmts[1..], k - 1);
    }
  }

  lemma NoInitializers(n: Names, t: Table, pc: nat)
    ensures InitCode(n, t, pc, []) == []
  {
  }

  /** The code of an expression in terms of its parts. */
  lemma ExprCodeOf(n: Names, t: Table, pc: nat, e: Expr)
    ensures ExprCode(n, t, pc, e) ==
      match e
      case IntLiteral(v) => [Ins(LoadConst, v, 0)]
      case BoolLiteral(b) => [Ins(LoadConst, BoolValue(b), 0)]
      case Identifier(name) => ReadCode(n, t, name)
      case Binary(op, left, right) =>
        var l := ExprCode(n, t, pc, left);
        if IsShort(op) then ShortCode(ShortJump(op), ShortResult(op), pc, l, ExprCode(n, t, pc + |l| + 1, right))
        else l + ExprCode(n, t, pc + |l|, right) + [Simple(BinaryOpcode(op))]
      case Unary(op, operand) => ExprCode(n, t, pc, operand) + [Simple(UnaryOpcode(op))]
      case Call(name, args) => ArgsCode(n, t, pc, args) + [CallIns(n, name, |args|)]
      case ArrayIndex(name, index) => ExprCode(n, t, pc, index) + IndexCode(n, t, name)
  {
    hide ShortCode, ReadCode, IndexCode, CallIns, Ins;
  }

  lemma StmtCodeOf(n: Names, t: Table, pc: nat, s: Stmt)
    ensures StmtCode(n, t, pc, s) ==
      match s
      case VarDecl(_, name, init, size) => DeclCode(n, Declare(t, name, size), pc, name, init)
      case Assign(target, index, value) => AssignCode(n, t, pc, target, index, value)
      case If(condition, thenBody, elseBody) =>
        var c := ExprCode(n, t, pc, condition);
        var thn := BlockCode(n, t, pc + |c| + 1, thenBody);
        var elsePc := pc + |c| + 1 + |thn|;
        if elseBody.NoElse? then c + [Ins(JumpIfFalse, elsePc, 0)] + thn
        else
          var els := BlockCode(n, CollectBlock(t, thenBody), elsePc + 1, elseBody.body);
          c + [Ins(JumpIfFalse, elsePc + 1, 0)] + thn + [Ins(Jump, elsePc + 1 + |els|, 0)] + els
      case While(condition, body) =>
        var c := ExprCode(n, t, pc, condition);
        var b := BlockCode(n, t, pc + |c| + 1, body);
        c + [Ins(JumpIfFalse, pc + |c| + 1 + |b| + 1, 0)] + b + [Ins(Jump, pc, 0)]
      case Return(value) => ExprCode(n, t, pc, value) + [Simple(Opcode.Return)]
      case Print(value) => ExprCode(n, t, pc, value) + [Simple(Opcode.Print)]
      case ExprStmt(e) => ExprCode(n, t, pc, e) + [Simple(Pop)]
  {
    hide ExprCode, AssignCode, DeclCode, CollectBlock, Ins;
  }

  /** Filling in both targets of a short circuit turns the emitted code into the intended one. */
  lemma ShortPatched(code: seq<Instruction>, left: seq<Instruction>, right: seq<Instruction>, jump: Opcode, short: I32, emitted: seq<Instruction>)
    requires emitted == code + left + [Ins(jump, 0, 0)] + right + [Ins(LoadConst, 0, 0)] + [Simple(Opcode.Ne)] + [Ins(Jump, 0, 0)]
    ensures var first := emitted[|code| + |left| := Ins(jump, |emitted|, 0)] + [Ins(LoadConst, short, 0)];
      first[|emitted| - 1 := Ins(Jump, |emitted| + 1, 0)] == code + ShortCode(jump, short, |code|, left, right)
  {
    hide Ins;
  }

  /** Filling in the target of a forward jump. */
  lemma JumpPatched(before: seq<Instruction>, jump: Instruction, after: seq<Instruction>, jump': Instruction)
    ensures (before + [jump] + after)[|before| := jump'] == before + [jump'] + after
  {
  }

  lemma StmtParts(funcs: map<string, nat>, s: Stmt)
    requires StmtKnown(funcs, s)
    ensures s.VarDecl? && s.init.Some? ==> CallsKnown(funcs, s.init.value)
    ensures s.Assign? ==> (s.indexExpr.Some? ==> CallsKnown(funcs, s.indexExpr.value)) && CallsKnown(funcs, s.value)
    ensures s.If? ==> CallsKnown(funcs, s.condition) && BlockKnown(funcs, s.thenBody)
    ensures s.If? && s.elseBody.Else? ==> BlockKnown(funcs, s.elseBody.body)
    ensures s.While? ==> CallsKnown(funcs, s.condition) && BlockKnown(funcs, s.body)
    ensures s.Return? || s.Print? ==> CallsKnown(funcs, s.value)
    ensures s.ExprStmt? ==> CallsKnown(funcs, s.expr)
  {
    hide CallsKnown;
  }

  lemma CollectParts(t: Table, s: Stmt)
    ensures CollectStmt(t, s) ==
      match s
      case VarDecl(_, name, _, size) => Declare(t, name, size)
      case If(_, thenBody, elseBody) =>
        var t1 := CollectBlock(t, thenBody);
        if elseBody.Else? then CollectBlock(t1, elseBody.body) else t1
      case While(_, body) => CollectBlock(t, body)
      case _ => t
    ensures CollectBlock(t, []) == t
  {
    hide Declare;
  }

  lemma BlockKnownAt(funcs: map<string, nat>, stmts: seq<Stmt>, k: nat)
    requires BlockKnown(funcs, stmts) && k < |stmts|
    ensures StmtKnown(funcs, stmts[k])
  {
    if k > 0 {
      BlockKnownAt(funcs, stmts[1..], k - 1);
    }
  }

  lemma KnownParts(funcs: map<string, nat>, e: Expr)
    requires CallsKnown(funcs, e)
    ensures e.Binary? ==> CallsKnown(funcs, e.left) && CallsKnown(funcs, e.right)
    ensures e.Unary? ==> CallsKnown(funcs, e.operand)
    ensures e.Call? ==> e.callee in funcs && ArgsKnown(funcs, e.args)
    ensures e.ArrayIndex? ==> CallsKnown(funcs, e.index)
  {
  }

  lemma ArgsKnownAt(funcs: map<string, nat>, args: seq<Expr>, k: nat)
    requires ArgsKnown(funcs, args) && k < |args|
    ensures CallsKnown(funcs, args[k])
  {
    if k > 0 {
      ArgsKnownAt(funcs, args[1..], k - 1);
    }
  }

  // ---------------------------------------------------------------- tables, piece by piece

  /** The first pass only adds names, with fresh slots. */
  lemma CollectAdds(t: Table, stmts: seq<Stmt>)
    ensures var t' := CollectBlock(t, stmts);
      && t'.next >= t.next
      && (forall x <- t.locals :: x in t'.locals && t'.locals[x] == t.locals[x])
      && (forall x <- t'.locals :: x in t.locals || t'.locals[x].slot >= t.next)
    decreases stmts
  {
    if stmts != [] {
      var t1 := CollectStmt(t, stmts[0]);
      match stmts[0] {
        case If(_, thenBody, elseBody) =>
          CollectAdds(t, thenBody);
          if elseBody.Else? {
            CollectAdds(CollectBlock(t, thenBody), elseBody.body);
          }
        case While(_, body) => CollectAdds(t, body);
        case _ =>
      }
      CollectAdds(t1, stmts[1..]);
    }
  }

  lemma ParamSlots(params: seq<Param>)
    ensures forall x <- ParamTable(params).locals :: ParamTable(params).locals[x].slot < |params|
  {
  }

  /** Dropping what the first pass added leaves the parameters. */
  lemma RetainParams(f: Function)
    ensures (map x | x in LocalTable(f).locals && LocalTable(f).locals[x].slot < |f.params| :: LocalTable(f).locals[x])
         == ParamTable(f.params).locals
  {
    ParamSlots(f.params);
    CollectAdds(ParamTable(f.params), f.body);
  }

  lemma GlobalNamed(globals: seq<GlobalVar>, i: nat)
    requires i < |globals|
    ensures globals[i].name in GlobalTable(globals)
  {
    if i < |globals| - 1 {
      GlobalNamed(globals[..|globals| - 1], i);
    }
  }

  lemma FunctionNamed(functions: seq<Function>, i: nat)
    requires i < |functions|
    ensures functions[i].name in FunctionIds(functions)
  {
    if i < |functions| - 1 {
      FunctionNamed(functions[..|functions| - 1], i);
    }
  }

  function InitPart(n: Names, t: Table, pc: nat, g: GlobalVar): seq<Instruction> {
    if g.init.None? then []
    else ExprCode(n, t, pc, g.init.value) + [Ins(StoreGlobal, if g.name in n.globals then n.globals[g.name].slot else 0, 0)]
  }

  lemma InitCodeEnd(n: Names, t: Table, pc: nat, globals: seq<GlobalVar>, k: nat)
    requires k < |globals|
    ensures InitCode(n, t, pc, globals[..k + 1])
         == InitCode(n, t, pc, globals[..k]) + InitPart(n, t, pc + |InitCode(n, t, pc, globals[..k])|, globals[k])
    decreases k
  {
    hide ExprCode, Ins;
    if k == 0 {
      assert globals[..1][1..] == [];
    } else {
      var first := InitPart(n, t, pc, globals[0]);
      assert globals[..k + 1][1..] == globals[1..][..k] && globals[..k][1..] == globals[1..][..k - 1];
      InitCodeEnd(n, t, pc + |first|, globals[1..], k - 1);
    }
  }

  class Compiler {
    var instructions: seq<Instruction>
    var functions: map<nat, FunctionInfo>
    var globals: map<string, GlobalInfo>
    var funcNameToId: map<string, nat>
    var currentLocals: map<string, LocalVar>
    var nextLocalSlot: nat
    var nextGlobalSlot: nat
    var nextFuncId: nat
    var mainFuncId: Option<nat>

    constructor ()
      ensures instructions == [] && functions == map[] && globals == map[] && funcNameToId == map[]
      ensures nextGlobalSlot == 0 && nextFuncId == 0 && mainFuncId == None
    {
      instructions := [];
      functions := map[];
      globals := map[];
      funcNameToId := map[];
      currentLocals := map[];
      nextLocalSlot := 0;
      nextGlobalSlot := 0;
      nextFuncId := 0;
      mainFuncId := None;
    }

    function Scope(): Names
      reads this`globals, this`funcNameToId
    {
      Names(globals, funcNameToId)
    }

    function Locals(): Table
      reads this`currentLocals, this`nextLocalSlot
    {
      Table(currentLocals, nextLocalSlot)
    }

    method Emit(opcode: Opcode, arg1: int, arg2: int) returns (pc: nat)
      modifies this`instructions
      ensures pc == |old(instructions)| && instructions == old(instructions) + [Ins(opcode, arg1, arg2)]
    {
      pc := |instructions|;
      instructions := instructions + [Instruction(opcode, NormalizeI32(arg1), NormalizeI32(arg2))];
    }

    method EmitSimple(opcode: Opcode) returns (pc: nat)
      modifies this`instructions
      ensures pc == |old(instructions)| && instructions == old(instructions) + [Simple(opcode)]
    {
      pc := Emit(opcode, 0, 0);
    }

    method Patch(pc: nat, arg1: int)
      requires pc < |instructions|
      modifies this`instructions
      ensures instructions == old(instructions)[pc := old(instructions)[pc].(arg1 := NormalizeI32(arg1))]
      ensures forall op :: old(instructions)[pc] == Ins(op, 0, 0) ==> instructions == old(instructions)[pc := Ins(op, arg1, 0)]
    {
      instructions := instructions[pc := instructions[pc].(arg1 := NormalizeI32(arg1))];
    }

    // -------------------------------------------------------------- expressions

    method CompileExpr(e: Expr)
      requires CallsKnown(funcNameToId, e)
      modifies this`instructions
      ensures instructions == old(instructions) + ExprCode(Scope(), Locals(), |old(instructions)|, e)
      decreases e, 1
    {
      hide ExprCode, CallsKnown, Ins;
      ExprCodeOf(Scope(), Locals(), |instructions|, e);
      KnownParts(funcNameToId, e);
      match e {
        case IntLiteral(v) =>
          var _ := Emit(LoadConst, v, 0);
        case BoolLiteral(b) =>
          var _ := Emit(LoadConst, if b then 1 else 0, 0);
        case Identifier(name) =>
          if name in currentLocals {
            var _ := Emit(LoadLocal, currentLocals[name].slot, 0);
          } else if name in globals {
            var _ := Emit(LoadGlobal, globals[name].slot, 0);
          }
        case Binary(op, left, right) =>
          if op == BinaryOp.And {
            CompileShort(e, JumpIfFalse, 0);
          } else if op == BinaryOp.Or {
            CompileShort(e, JumpIfTrue, 1);
          } else {
            CompileExpr(left);
            CompileExpr(right);
            var _ := EmitSimple(BinaryOpcode(op));
          }
        case Unary(op, operand) =>
          CompileExpr(operand);
          var _ := EmitSimple(UnaryOpcode(op));
        case Call(name, args) =>
          CompileArgs(args);
          var _ := Emit(Opcode.Call, funcNameToId[name], |args|);
        case ArrayIndex(name, index) =>
          CompileExpr(index);
          if name in currentLocals {
            var _ := Emit(LocalArrayLoad, currentLocals[name].slot, currentLocals[name].arraySize);
          } else if name in globals {
            var _ := Emit(ArrayLoad, globals[name].slot, globals[name].arraySize);
          }
      }
    }

    /** Both jumps are emitted without a target and patched once it is known. */
    method CompileShort(e: Expr, jump: Opcode, short: int)
      requires e.Binary? && IsShort(e.op) && jump == ShortJump(e.op) && short == ShortResult(e.op)
      requires CallsKnown(funcNameToId, e)
      modifies this`instructions
      ensures instructions == old(instructions) + ExprCode(Scope(), Locals(), |old(instructions)|, e)
      decreases e, 0
    {
      hide ExprCode, CallsKnown, ShortCode, Ins, ShortJump, ShortResult;
      ghost var code, pc := instructions, |instructions|;
      ExprCodeOf(Scope(), Locals(), pc, e);
      KnownParts(funcNameToId, e);
      ghost var left := ExprCode(Scope(), Locals(), pc, e.left);
      ghost var right := ExprCode(Scope(), Locals(), pc + |left| + 1, e.right);
      CompileExpr(e.left);
      var jumpShort := Emit(jump, 0, 0);
      CompileExpr(e.right);
      FinishShort(jumpShort, jump, short, code, left, right);
    }

    /** The right operand's truth value, the short result, and the targets of both jumps. */
    method FinishShort(jumpShort: nat, jump: Opcode, short: int, ghost code: seq<Instruction>, ghost left: seq<Instruction>, ghost right: seq<Instruction>)
      requires instructions == code + left + [Ins(jump, 0, 0)] + right && jumpShort == |code| + |left| && IsI32(short)
      modifies this`instructions
      ensures instructions == code + ShortCode(jump, short, |code|, left, right)
    {
      hide ShortCode, Ins;
      var _ := Emit(LoadConst, 0, 0);
      var _ := EmitSimple(Opcode.Ne);
      var jumpEnd := Emit(Jump, 0, 0);
      var shortPc := |instructions|;
      ShortPatched(code, left, right, jump, short, instructions);
      Patch(jumpShort, shortPc);
      var _ := Emit(LoadConst, short, 0);
      var endPc := |instructions|;
      Patch(jumpEnd, endPc);
    }

    method CompileArgs(args: seq<Expr>)
      requires ArgsKnown(funcNameToId, args)
      modifies this`instructions
      ensures instructions == old(instructions) + ArgsCode(Scope(), Locals(), |old(instructions)|, args)
      decreases args, 0
    {
      hide ExprCode, ArgsCode, ArgsKnown, CallsKnown;
      ArgsCodeOf(Scope(), Locals(), |instructions|, []);
      assert args[..0] == [];
      for i := 0 to |args|
        invariant instructions == old(instructions) + ArgsCode(Scope(), Locals(), |old(instructions)|, args[..i])
      {
        ArgsKnownAt(funcNameToId, args, i);
        CompileExpr(args[i]);
        ArgsCodeEnd(Scope(), Locals(), |old(instructions)|, args, i);
      }
      assert args[..|args|] == args;
    }

    // -------------------------------------------------------------- declarations

    method DeclareLocal(name: string, size: Option<I32>)
      modifies this`currentLocals, this`nextLocalSlot
      ensures Locals() == Declare(old(Locals()), name, size)
    {
      if name !in currentLocals {
        var slot := nextLocalSlot;
        nextLocalSlot := nextLocalSlot + 1;
        currentLocals := currentLocals[name := LocalVar(slot, size.Some?, if size.Some? then AsUsize(size.value) else 0)];
      }
    }

    /** The first pass over a body: a slot for every declared name. */
    method CollectLocalDecls(stmts: seq<Stmt>)
      modifies this`currentLocals, this`nextLocalSlot
      ensures Locals() == CollectBlock(old(Locals()), stmts)
      decreases stmts
    {
      hide CollectBlock, CollectStmt, Declare;
      ghost var start := Locals();
      assert stmts[..0] == [];
      CollectParts(start, Stmt.Return(IntLiteral(0)));
      for i := 0 to |stmts|
        invariant Locals() == CollectBlock(start, stmts[..i])
      {
        CollectParts(Locals(), stmts[i]);
        CollectEnd(start, stmts, i);
        match stmts[i] {
          case VarDecl(_, name, _, size) => DeclareLocal(name, size);
          case If(_, thenBody, elseBody) =>
            CollectLocalDecls(thenBody);
            if elseBody.Else? {
              CollectLocalDecls(elseBody.body);
            }
          case While(_, body) => CollectLocalDecls(body);
          case _ =>
        }
      }
      assert stmts[..|stmts|] == stmts;
    }

    // -------------------------------------------------------------- statements

    method CompileStmt(s: Stmt)
      requires StmtKnown(funcNameToId, s)
      modifies this`instructions, this`currentLocals, this`nextLocalSlot
      ensures instructions == old(instructions) + StmtCode(Scope(), old(Locals()), |old(instructions)|, s)
      ensures Locals() == CollectStmt(old(Locals()), s)
      decreases s, 1
    {
      hide ExprCode, StmtCode, BlockCode, CollectStmt, CollectBlock, StmtKnown, CallsKnown, Ins, Declare, AssignCode, DeclCode;
      StmtCodeOf(Scope(), Locals(), |instructions|, s);
      CollectParts(Locals(), s);
      StmtParts(funcNameToId, s);
      match s {
        case VarDecl(_, name, init, size) => CompileDecl(name, init, size);
        case Assign(target, index, value) => CompileAssign(target, index, value);
        case If(_, _, _) => CompileIf(s);
        case While(_, _) => CompileWhile(s);
        case Return(value) =>
          CompileExpr(value);
          var _ := EmitSimple(Opcode.Return);
        case Print(value) =>
          CompileExpr(value);
          var _ := EmitSimple(Opcode.Print);
        case ExprStmt(e) =>
          CompileExpr(e);
          var _ := EmitSimple(Pop);
      }
    }

    method CompileDecl(name: string, init: Option<Expr>, size: Option<I32>)
      requires init.Some? ==> CallsKnown(funcNameToId, init.value)
      modifies this`instructions, this`currentLocals, this`nextLocalSlot
      ensures Locals() == Declare(old(Locals()), name, size)
      ensures instructions == old(instructions) + DeclCode(Scope(), Locals(), |old(instructions)|, name, init)
    {
      hide ExprCode, CallsKnown, Ins;
      DeclareLocal(name, size);
      var local := currentLocals[name];
      if local.isArray {
        var _ := Emit(AllocArray, local.arraySize, 0);
        var _ := Emit(StoreLocal, local.slot, 0);
      } else if init.Some? {
        CompileExpr(init.value);
        var _ := Emit(StoreLocal, local.slot, 0);
      }
    }

    method CompileAssign(target: string, index: Option<Expr>, value: Expr)
      requires (index.Some? ==> CallsKnown(funcNameToId, index.value)) && CallsKnown(funcNameToId, value)
      modifies this`instructions
      ensures instructions == old(instructions) + AssignCode(Scope(), Locals(), |old(instructions)|, target, index, value)
    {
      hide ExprCode, CallsKnown, Ins;
      if target in currentLocals {
        var local := currentLocals[target];
        if index.Some? {
          CompileExpr(index.value);
          CompileExpr(value);
          var _ := Emit(LocalArrayStore, local.slot, local.arraySize);
        } else {
          CompileExpr(value);
          var _ := Emit(StoreLocal, local.slot, 0);
        }
      } else if target in globals {
        var global := globals[target];
        if index.Some? {
          CompileExpr(index.value);
          CompileExpr(value);
          var _ := Emit(ArrayStore, global.slot, global.arraySize);
        } else {
          CompileExpr(value);
          var _ := Emit(StoreGlobal, global.slot, 0);
        }
      }
    }

    method CompileIf(s: Stmt)
      requires s.If? && StmtKnown(funcNameToId, s)
      modifies this`instructions, this`currentLocals, this`nextLocalSlot
      ensures instructions == old(instructions) + StmtCode(Scope(), old(Locals()), |old(instructions)|, s)
      ensures Locals() == CollectStmt(old(Locals()), s)
      decreases s, 0
    {
      hide ExprCode, StmtCode, BlockCode, CollectStmt, CollectBlock, StmtKnown, CallsKnown, Ins, Declare, AssignCode, DeclCode;
      ghost var code, pc, t := instructions, |instructions|, Locals();
      StmtCodeOf(Scope(), t, pc, s);
      CollectParts(t, s);
      StmtParts(funcNameToId, s);
      ghost var c := ExprCode(Scope(), t, pc, s.condition);
      ghost var thn := BlockCode(Scope(), t, pc + |c| + 1, s.thenBody);
      CompileExpr(s.condition);
      var jumpToElse := Emit(JumpIfFalse, 0, 0);
      CompileBlock(s.thenBody);
      assert instructions == (code + c) + [Ins(JumpIfFalse, 0, 0)] + thn;
      if s.elseBody.Else? {
        CompileElse(jumpToElse, s.elseBody.body, code + c, thn);
      } else {
        var endPc := |instructions|;
        Patch(jumpToElse, endPc);
        JumpPatched(code + c, Ins(JumpIfFalse, 0, 0), thn, Ins(JumpIfFalse, endPc, 0));
      }
    }

    /** The jump over the else branch, the branch itself, and the targets of both jumps. */
    method CompileElse(jumpToElse: nat, body: seq<Stmt>, ghost front: seq<Instruction>, ghost thn: seq<Instruction>)
      requires BlockKnown(funcNameToId, body)
      requires jumpToElse == |front| && instructions == front + [Ins(JumpIfFalse, 0, 0)] + thn
      modifies this`instructions, this`currentLocals, this`nextLocalSlot
      ensures var els := BlockCode(Scope(), old(Locals()), |old(instructions)| + 1, body);
        instructions == front + [Ins(JumpIfFalse, |old(instructions)| + 1, 0)] + thn + [Ins(Jump, |old(instructions)| + 1 + |els|, 0)] + els
      ensures Locals() == CollectBlock(old(Locals()), body)
      decreases body, 1
    {
      hide BlockCode, CollectBlock, Ins;
      var jumpToEnd := Emit(Jump, 0, 0);
      var elsePc := |instructions|;
      assert instructions == front + [Ins(JumpIfFalse, 0, 0)] + (thn + [Ins(Jump, 0, 0)]);
      Patch(jumpToElse, elsePc);
      JumpPatched(front, Ins(JumpIfFalse, 0, 0), thn + [Ins(Jump, 0, 0)], Ins(JumpIfFalse, elsePc, 0));
      ghost var before := front + [Ins(JumpIfFalse, elsePc, 0)] + thn;
      assert instructions == before + [Ins(Jump, 0, 0)];
      ghost var els := BlockCode(Scope(), Locals(), elsePc, body);
      CompileBlock(body);
      var endPc := |instructions|;
      assert instructions == before + [Ins(Jump, 0, 0)] + els;
      Patch(jumpToEnd, endPc);
      JumpPatched(before, Ins(Jump, 0, 0), els, Ins(Jump, endPc, 0));
    }

    method CompileWhile(s: Stmt)
      requires s.While? && StmtKnown(funcNameToId, s)
      modifies this`instructions, this`currentLocals, this`nextLocalSlot
      ensures instructions == old(instructions) + StmtCode(Scope(), old(Locals()), |old(instructions)|, s)
      ensures Locals() == CollectStmt(old(Locals()), s)
      decreases s, 0
    {
      hide ExprCode, StmtCode, BlockCode, CollectStmt, CollectBlock, StmtKnown, CallsKnown, Ins, Declare, AssignCode, DeclCode;
      ghost var code, t := instructions, Locals();
      var loopPc := |instructions|;
      StmtCodeOf(Scope(), t, loopPc, s);
      CollectParts(t, s);
      StmtParts(funcNameToId, s);
      ghost var c := ExprCode(Scope(), t, loopPc, s.condition);
      ghost var b := BlockCode(Scope(), t, loopPc + |c| + 1, s.body);
      CompileExpr(s.condition);
      var jumpToExit := Emit(JumpIfFalse, 0, 0);
      CompileBlock(s.body);
      var _ := Emit(Jump, loopPc, 0);
      var exitPc := |instructions|;
      assert instructions == (code + c) + [Ins(JumpIfFalse, 0, 0)] + (b + [Ins(Jump, loopPc, 0)]);
      Patch(jumpToExit, exitPc);
      JumpPatched(code + c, Ins(JumpIfFalse, 0, 0), b + [Ins(Jump, loopPc, 0)], Ins(JumpIfFalse, exitPc, 0));
    }

    method CompileBlock(stmts: seq<Stmt>)
      requires BlockKnown(funcNameToId, stmts)
      modifies this`instructions, this`currentLocals, this`nextLocalSlot
      ensures instructions == old(instructions) + BlockCode(Scope(), old(Locals()), |old(instructions)|, stmts)
      ensures Locals() == CollectBlock(old(Locals()), stmts)
      decreases stmts, 0
    {
      hide StmtCode, BlockCode, CollectStmt, CollectBlock, StmtKnown, BlockKnown;
      ghost var code, t := instructions, Locals();
      assert stmts[..0] == [];
      BlockCodeOf(Scope(), t, |code|, []);
      CollectParts(t, Stmt.Return(IntLiteral(0)));
      for i := 0 to |stmts|
        invariant instructions == code + BlockCode(Scope(), t, |code|, stmts[..i])
        invariant Locals() == CollectBlock(t, stmts[..i])
      {
        BlockKnownAt(funcNameToId, stmts, i);
        BlockCodeEnd(Scope(), t, |code|, stmts, i);
        CollectEnd(t, stmts, i);
        CompileStmt(stmts[i]);
      }
      assert stmts[..|stmts|] == stmts;
    }

    // -------------------------------------------------------------- functions and programs

    method CollectGlobals(p: Program)
      requires globals == map[] && nextGlobalSlot == 0
      modifies this`globals, this`nextGlobalSlot
      ensures globals == GlobalTable(p.globals)
    {
      for i := 0 to |p.globals|
        invariant globals == GlobalTable(p.globals[..i]) && nextGlobalSlot == GlobalSlots(p.globals[..i])
      {
        assert p.globals[..i + 1][..i] == p.globals[..i];
        var g := p.globals[i];
        var slot, size := nextGlobalSlot, 0;
        if g.size.Some? {
          nextGlobalSlot := nextGlobalSlot + AsUsize(g.size.value);
          size := AsUsize(g.size.value);
        } else {
          nextGlobalSlot := nextGlobalSlot + 1;
        }
        globals := globals[g.name := GlobalInfo(g.name, slot, g.size.Some?, size)];
      }
      assert p.globals[..|p.globals|] == p.globals;
    }

    method RegisterFunctions(p: Program)
      requires funcNameToId == map[] && nextFuncId == 0 && mainFuncId == None
      modifies this`funcNameToId, this`nextFuncId, this`mainFuncId
      ensures funcNameToId == FunctionIds(p.functions) && mainFuncId == MainId(p.functions)
    {
      for i := 0 to |p.functions|
        invariant nextFuncId == i && funcNameToId == FunctionIds(p.functions[..i]) && mainFuncId == MainId(p.functions[..i])
      {
        assert p.functions[..i + 1][..i] == p.functions[..i];
        var id := nextFuncId;
        nextFuncId := nextFuncId + 1;
        funcNameToId := funcNameToId[p.functions[i].name := id];
        if p.functions[i].name == "main" {
          mainFuncId := Some(id);
        }
      }
      assert p.functions[..|p.functions|] == p.functions;
    }

    method AllocateParams(params: seq<Param>)
      modifies this`currentLocals, this`nextLocalSlot
      ensures Locals() == ParamTable(params)
    {
      currentLocals, nextLocalSlot := map[], 0;
      for i := 0 to |params|
        invariant Locals() == ParamTable(params[..i])
      {
        assert params[..i + 1][..i] == params[..i];
        currentLocals := currentLocals[params[i].name := LocalVar(nextLocalSlot, false, 0)];
        nextLocalSlot := nextLocalSlot + 1;
      }
      assert params[..|params|] == params;
    }

    /** Code for the initializers of the globals. */
    method CompileInitializers(p: Program)
      requires Scope() == NamesOf(p) && ProgramKnown(p)
      modifies this`instructions
      ensures instructions == old(instructions) + InitCode(Scope(), Locals(), |old(instructions)|, p.globals)
    {
      hide ExprCode, InitCode, CallsKnown, StmtKnown, BlockKnown;
      ghost var code := instructions;
      assert p.globals[..0] == [];
      NoInitializers(Scope(), Locals(), |code|);
      for i := 0 to |p.globals|
        invariant instructions == code + InitCode(Scope(), Locals(), |code|, p.globals[..i])
      {
        InitCodeEnd(Scope(), Locals(), |code|, p.globals, i);
        GlobalNamed(p.globals, i);
        var g := p.globals[i];
        assert g in p.globals;
        if g.init.Some? {
          CompileExpr(g.init.value);
          var slot := globals[g.name].slot;
          var _ := Emit(StoreGlobal, slot, 0);
        }
      }
      assert p.globals[..|p.globals|] == p.globals;
    }

    /** Counts the slots of a function, then forgets all locals but the parameters. */
    method PrepareLocals(f: Function) returns (localCount: nat)
      modifies this`currentLocals, this`nextLocalSlot
      ensures Locals() == ParamTable(f.params) && localCount == LocalTable(f).next
    {
      hide CollectBlock;
      AllocateParams(f.params);
      CollectLocalDecls(f.body);
      localCount := nextLocalSlot;
      RetainParams(f);
      assert Locals() == LocalTable(f);
      nextLocalSlot := |f.params|;
      currentLocals := map x | x in currentLocals && currentLocals[x].slot < |f.params| :: currentLocals[x];
    }

    method CompileBody(f: Function, p: Program)
      requires Scope() == NamesOf(p) && ProgramKnown(p) && f in p.functions && Locals() == ParamTable(f.params)
      modifies this`instructions, this`currentLocals, this`nextLocalSlot
      ensures instructions == old(instructions) + FunctionCode(p, f, |old(instructions)|)
    {
      hide ExprCode, StmtCode, BlockCode, InitCode, CollectBlock, CallsKnown, StmtKnown, BlockKnown, Ins, ParamTable;
      ghost var code := instructions;
      if f.name == "main" {
        CompileInitializers(p);
      }
      assert instructions == code + PrefixCode(p, f, |code|);
      CompileBlock(f.body);
      var _ := Emit(LoadConst, 0, 0);
      var _ := EmitSimple(Opcode.Return);
    }

    method CompileFunction(f: Function, p: Program)
      requires Scope() == NamesOf(p) && ProgramKnown(p) && f in p.functions
      modifies this`instructions, this`functions, this`currentLocals, this`nextLocalSlot
      ensures instructions == old(instructions) + FunctionCode(p, f, |old(instructions)|)
      ensures functions == old(functions)[IdOf(p, f.name) :=
        FunctionInfo(f.name, IdOf(p, f.name), |old(instructions)|, |f.params|, LocalTable(f).next)]
    {
      hide FunctionCode, ProgramKnown;
      var i :| 0 <= i < |p.functions| && p.functions[i] == f;
      FunctionNamed(p.functions, i);
      var funcId := funcNameToId[f.name];
      var entryPc := |instructions|;
      var localCount := PrepareLocals(f);
      CompileBody(f, p);
      functions := functions[funcId := FunctionInfo(f.name, funcId, entryPc, |f.params|, localCount)];
    }

    /** A fresh compiler builds exactly the program that CodeGen describes. */
    method Compile(p: Program) returns (compiled: CompiledProgram)
      requires instructions == [] && functions == map[] && globals == map[] && funcNameToId == map[]
      requires nextGlobalSlot == 0 && nextFuncId == 0 && mainFuncId == None
      requires ProgramKnown(p)
      modifies this
      ensures compiled == CodeGen.Compile(p)
    {
      hide FunctionCode, ProgramKnown;
      CollectGlobals(p);
      RegisterFunctions(p);
      for i := 0 to |p.functions|
        invariant Scope() == NamesOf(p) && mainFuncId == MainId(p.functions)
        invariant instructions == CodeOf(p, i) && functions == InfosOf(p, i)
      {
        CompileFunction(p.functions[i], p);
      }
      return CompiledProgram(instructions, functions, globals, if mainFuncId.Some? then mainFuncId.value else 0);
    }
  }
}
