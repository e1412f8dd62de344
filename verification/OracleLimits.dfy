/**
 * When the oracle may report a limit, and what a tick is: a run is cut only with all frames in use or with the last
 * allowed cycle spent, and each evaluated node, executed statement and call costs one cycle.
 */
module OracleLimits {
  import opened Common
  import opened Int32
  import opened Limits
  import opened Ast
  import O = Oracle

  /** A state no limit has cut yet. */
  predicate Within(st: O.State) {
    |st.frames| <= MAX_FRAMES && st.cycles <= MAX_CYCLES
  }

  /** A limit is reported only where it is met, and the frames of the calls in progress are left in place. */
  predicate CutByItsLimit<T>(st: O.State, r: O.Eff<T>) {
    && |st.frames| <= |r.st.frames| <= MAX_FRAMES
    && (r.res.Ok? ==> |r.st.frames| == |st.frames| && r.st.cycles <= MAX_CYCLES)
    && (r.res.Fail? ==>
          && (r.res.code == StackOverflow ==> |r.st.frames| == MAX_FRAMES)
          && (r.res.code == CycleLimit <==> r.st.cycles == MAX_CYCLES + 1)
          && r.st.cycles <= MAX_CYCLES + 1
          && r.res.code != NoTrap && r.res.code != StackUnderflow)
  }

  // ---------------------------------------------------------------- names

  lemma AccessCut(st: O.State, name: string, index: nat, value: int)
    requires Within(st)
    ensures CutByItsLimit(st, O.Eff(st, O.ReadScalar(st, name)))
    ensures CutByItsLimit(st, O.Eff(st, O.ReadArray(st, name, index)))
    ensures CutByItsLimit(st, O.AssignScalar(st, name, value))
    ensures CutByItsLimit(st, O.AssignGlobalScalar(st, name, value))
    ensures CutByItsLimit(st, O.AssignArray(st, name, index, value))
  {
  }

  lemma DeclareCut(st: O.State, name: string, slot: O.Slot)
    requires Within(st)
    ensures CutByItsLimit(st, O.DeclareScalar(st, name))
    ensures CutByItsLimit(st, O.DeclareOrUpdate(st, name, slot))
  {
  }

  // ---------------------------------------------------------------- evaluation

  lemma {:induction false} EvalCut(p: Program, st: O.State, e: Expr)
    requires Within(st)
    ensures CutByItsLimit(st, O.Eval(p, st, e))
    decreases O.Fuel(st), 0
  {
    hide O.EvalArgs, O.CallFunction, O.ReadScalar, O.ReadArray, O.EvalBinary, O.EvalUnary;
    var t := O.Tick(st);
    if t.res.Ok? {
      match e {
        case IntLiteral(_) =>
        case BoolLiteral(_) =>
        case Identifier(name) => AccessCut(t.st, name, 0, 0);
        case Binary(op, left, right) =>
          EvalCut(p, t.st, left);
          var l := O.Eval(p, t.st, left);
          if l.res.Ok? {
            EvalCut(p, l.st, right);
            var r := O.Eval(p, l.st, right);
            if op != And && op != Or && r.res.Ok? {
              BinaryCut(op, l.res.value, r);
            }
          }
        case Unary(_, operand) => EvalCut(p, t.st, operand);
        case Call(name, args) =>
          ArgsCut(p, t.st, args);
          var vs := O.EvalArgs(p, t.st, args);
          if vs.res.Ok? {
            CallCut(p, vs.st, name, vs.res.value);
          }
        case ArrayIndex(name, index) =>
          EvalCut(p, t.st, index);
          var i := O.Eval(p, t.st, index);
          if i.res.Ok? && i.res.value >= 0 {
            AccessCut(i.st, name, i.res.value, 0);
          }
      }
    }
  }

  lemma BinaryCut(op: BinaryOp, left: int, r: O.Eff<int>)
    requires op != And && op != Or && r.res.Ok? && Within(r.st)
    ensures CutByItsLimit(r.st, O.Eff(r.st, O.EvalBinary(op, left, r.res.value)))
  {
  }

  lemma {:induction false} ArgsCut(p: Program, st: O.State, args: seq<Expr>)
    requires Within(st)
    ensures CutByItsLimit(st, O.EvalArgs(p, st, args))
    decreases O.Fuel(st), |args| + 1
  {
    hide O.Eval;
    if args != [] {
      EvalCut(p, st, args[0]);
      var v := O.Eval(p, st, args[0]);
      if v.res.Ok? {
        ArgsCut(p, v.st, args[1..]);
      }
    }
  }

  lemma {:induction false} CallCut(p: Program, st: O.State, name: string, args: seq<int>)
    requires Within(st)
    ensures CutByItsLimit(st, O.CallFunction(p, st, name, args))
    decreases O.Fuel(st), 0
  {
    hide O.ExecBlock, O.BindParams, O.FindFunction;
    var t := O.Tick(st);
    var found := O.FindFunction(p.functions, name);
    if t.res.Ok? && |t.st.frames| < MAX_FRAMES && found.Some? {
      var f := p.functions[found.value];
      if |args| == |f.params| {
        BlockCut(p, t.st.(frames := t.st.frames + [O.BindParams(f.params, args)]), f.body);
      }
    }
  }

  lemma {:induction false} BlockCut(p: Program, st: O.State, stmts: seq<Stmt>)
    requires Within(st)
    ensures CutByItsLimit(st, O.ExecBlock(p, st, stmts))
    decreases O.Fuel(st), |stmts| + 1
  {
    hide O.ExecStmt;
    if stmts != [] {
      StmtCut(p, st, stmts[0]);
      var s := O.ExecStmt(p, st, stmts[0]);
      if s.res.Ok? {
        BlockCut(p, s.st, stmts[1..]);
      }
    }
  }

  lemma {:induction false} StmtCut(p: Program, st: O.State, s: Stmt)
    requires Within(st)
    ensures CutByItsLimit(st, O.ExecStmt(p, st, s))
    decreases O.Fuel(st), 0
  {
    hide O.Eval, O.ExecBlock, O.ExecDecl, O.ExecAssign, O.ExecWhile;
    var t := O.Tick(st);
    if t.res.Ok? {
      match s {
        case VarDecl(_, name, init, size) => DeclCut(p, t.st, name, init, size);
        case Assign(target, indexExpr, value) => AssignCut(p, t.st, target, indexExpr, value);
        case If(condition, thenBody, elseBody) =>
          EvalCut(p, t.st, condition);
          var c := O.Eval(p, t.st, condition);
          if c.res.Ok? {
            BlockCut(p, c.st, thenBody);
            if elseBody.Else? {
              BlockCut(p, c.st, elseBody.body);
            }
          }
        case While(condition, body) => WhileCut(p, t.st, condition, body);
        case Return(value) => EvalCut(p, t.st, value);
        case Print(value) => EvalCut(p, t.st, value);
        case ExprStmt(value) => EvalCut(p, t.st, value);
      }
    }
  }

  lemma {:induction false} DeclCut(p: Program, st: O.State, name: string, init: Option<Expr>, size: Option<I32>)
    requires Within(st)
    ensures CutByItsLimit(st, O.ExecDecl(p, st, name, init, size))
    decreases O.Fuel(st), 1
  {
    hide O.Eval, O.AssignScalar, O.DeclareScalar, O.DeclareOrUpdate;
    if size.Some? {
      DeclareCut(st, name, O.Array(O.Zeros(size.value)));
    } else {
      DeclareCut(st, name, O.Array([]));
      var d := O.DeclareScalar(st, name);
      DeclareTakesNoTime(st, name);
      if d.res.Ok? && init.Some? {
        EvalCut(p, d.st, init.value);
        var v := O.Eval(p, d.st, init.value);
        if v.res.Ok? {
          AccessCut(v.st, name, 0, v.res.value);
        }
      }
    }
  }

  lemma DeclareTakesNoTime(st: O.State, name: string)
    ensures O.DeclareScalar(st, name).st.cycles == st.cycles
  {
  }

  lemma {:induction false} AssignCut(p: Program, st: O.State, target: string, indexExpr: Option<Expr>, value: Expr)
    requires Within(st)
    ensures CutByItsLimit(st, O.ExecAssign(p, st, target, indexExpr, value))
    decreases O.Fuel(st), 1
  {
    hide O.Eval, O.AssignScalar, O.AssignArray, O.Preview;
    if indexExpr.None? {
      EvalCut(p, st, value);
      var v := O.Eval(p, st, value);
      if v.res.Ok? {
        AccessCut(v.st, target, 0, v.res.value);
      }
    } else {
      EvalCut(p, st, indexExpr.value);
      var i := O.Eval(p, st, indexExpr.value);
      if i.res.Ok? && i.res.value >= 0 {
        EvalCut(p, i.st, value);
        var v := O.Eval(p, i.st, value);
        if v.res.Ok? {
          AccessCut(v.st, target, i.res.value, v.res.value);
        }
      }
    }
  }

  lemma {:induction false} WhileCut(p: Program, st: O.State, condition: Expr, body: seq<Stmt>)
    requires Within(st)
    ensures CutByItsLimit(st, O.ExecWhile(p, st, condition, body))
    decreases O.Fuel(st), 1
  {
    hide O.Eval, O.ExecBlock;
    EvalCut(p, st, condition);
    var c := O.Eval(p, st, condition);
    if c.res.Ok? {
      BlockCut(p, c.st, body);
      var b := O.ExecBlock(p, c.st, body);
      if b.res.Ok? {
        WhileCut(p, b.st, condition, body);
      }
    }
  }

  // ---------------------------------------------------------------- whole runs

  lemma {:induction false} InitCut(p: Program, st: O.State, globals: seq<GlobalVar>)
    requires Within(st)
    ensures CutByItsLimit(st, O.InitializeGlobals(p, st, globals))
    decreases |globals|
  {
    hide O.Eval, O.AssignGlobalScalar;
    if globals != [] {
      if globals[0].init.None? {
        InitCut(p, st, globals[1..]);
      } else {
        EvalCut(p, st, globals[0].init.value);
        var v := O.Eval(p, st, globals[0].init.value);
        if v.res.Ok? {
          AccessCut(v.st, globals[0].name, 0, v.res.value);
          var a := O.AssignGlobalScalar(v.st, globals[0].name, v.res.value);
          if a.res.Ok? {
            InitCut(p, a.st, globals[1..]);
          }
        }
      }
    }
  }

  /** A run reports a full call stack only with all frames in use, and the cycle limit exactly when it is passed. */
  lemma RunsAreCutByTheirLimit(p: Program)
    ensures var r := O.RunEffect(p);
      && (O.Run(p).trap == StackOverflow ==> |r.st.frames| == MAX_FRAMES)
      && (O.Run(p).trap == CycleLimit <==> r.st.cycles == MAX_CYCLES + 1)
      && |r.st.frames| <= MAX_FRAMES && r.st.cycles <= MAX_CYCLES + 1
      && (O.Run(p).success <==> O.Run(p).trap == NoTrap)
      && (O.Run(p).success ==> r.st.frames == [])
  {
    hide O.InitializeGlobals, O.CallFunction;
    InitCut(p, O.Start(p), p.globals);
    var g := O.InitializeGlobals(p, O.Start(p), p.globals);
    if g.res.Ok? {
      CallCut(p, g.st, "main", []);
    }
  }

  /** With all frames in use a call only spends its cycle. */
  lemma FullStackRefusesCalls(p: Program, st: O.State, name: string, args: seq<int>)
    requires |st.frames| >= MAX_FRAMES && st.cycles < MAX_CYCLES
    ensures O.CallFunction(p, st, name, args) == O.Trap(st.(cycles := st.cycles + 1), StackOverflow)
  {
  }

  // ---------------------------------------------------------------- what a tick is

  /** No call and no operator that may skip its second operand. */
  predicate Straight(e: Expr) {
    match e
    case IntLiteral(_) => true
    case BoolLiteral(_) => true
    case Identifier(_) => true
    case Binary(op, left, right) => op != And && op != Or && Straight(left) && Straight(right)
    case Unary(_, operand) => Straight(operand)
    case Call(_, _) => false
    case ArrayIndex(_, index) => Straight(index)
  }

  function Nodes(e: Expr): nat {
    match e
    case IntLiteral(_) => 1
    case BoolLiteral(_) => 1
    case Identifier(_) => 1
    case Binary(_, left, right) => 1 + Nodes(left) + Nodes(right)
    case Unary(_, operand) => 1 + Nodes(operand)
    case Call(_, args) => 1 + AllNodes(args)
    case ArrayIndex(_, index) => 1 + Nodes(index)
  }

  function AllNodes(args: seq<Expr>): nat {
    if args == [] then 0 else Nodes(args[0]) + AllNodes(args[1..])
  }

  /** Evaluating an expression takes a cycle for each of its nodes, and is cut exactly when they do not suffice. */
  lemma {:induction false} NodesAreCycles(p: Program, st: O.State, e: Expr)
    requires Straight(e) && st.cycles <= MAX_CYCLES
    ensures var r := O.Eval(p, st, e);
      && (r.res.Ok? ==> r.st == st.(cycles := st.cycles + Nodes(e)))
      && (r.res.Fail? && r.res.code == CycleLimit ==> st.cycles + Nodes(e) > MAX_CYCLES)
    decreases e
  {
    hide O.ReadScalar, O.ReadArray, O.EvalUnary;
    var t := O.Tick(st);
    if t.res.Ok? {
      match e {
        case IntLiteral(_) =>
        case BoolLiteral(_) =>
        case Identifier(name) => ReadsMeetNoLimit(t.st, name, 0);
        case Binary(_, left, right) =>
          NodesAreCycles(p, t.st, left);
          var l := O.Eval(p, t.st, left);
          if l.res.Ok? {
            NodesAreCycles(p, l.st, right);
          }
        case Unary(_, operand) => NodesAreCycles(p, t.st, operand);
        case ArrayIndex(name, index) =>
          NodesAreCycles(p, t.st, index);
          var i := O.Eval(p, t.st, index);
          if i.res.Ok? && i.res.value >= 0 {
            ReadsMeetNoLimit(i.st, name, i.res.value);
          }
      }
    }
  }

  lemma ReadsMeetNoLimit(st: O.State, name: string, index: nat)
    ensures var r := O.ReadScalar(st, name); r.Fail? ==> r.code != CycleLimit
    ensures var r := O.ReadArray(st, name, index); r.Fail? ==> r.code != CycleLimit
  {
  }
}
