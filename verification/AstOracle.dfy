/** The AST oracle as an object whose scopes, output and cycle count are updated in place. */
module AstOracle {
  import opened Common
  import opened Fallibles
  import opened Int32
  import opened Limits
  import opened Ast
  import O = Oracle
  import L = OracleLimits

  /** The values of the first arguments, in front of those of the others. */
  function Prepend(values: seq<int>, r: O.Eff<seq<int>>): O.Eff<seq<int>> {
    if r.res.Fail? then r else O.Eff(r.st, O.Ok(values + r.res.value))
  }

  lemma PrependNothing(r: O.Eff<seq<int>>)
    ensures Prepend([], r) == r
  {
    if r.res.Ok? {
      assert [] + r.res.value == r.res.value;
    }
  }

  ghost predicate TableOk(functions: seq<Function>, table: map<string, Function>) {
    forall name :: match O.FindFunction(functions, name)
      case None => name !in table
      case Some(i) => name in table && table[name] == functions[i]
  }

  /** What evaluating a binary expression does after its own tick. */
  function EvalBinaryFrom(p: Program, st: O.State, op: BinaryOp, left: Expr, right: Expr): O.Eff<int> {
    var l := O.Eval(p, st, left);
    if l.res.Fail? then l
    else if op == BinaryOp.And then
      if l.res.value == 0 then O.Eff(l.st, O.Ok(0)) else O.Truth(O.Eval(p, l.st, right))
    else if op == BinaryOp.Or then
      if l.res.value != 0 then O.Eff(l.st, O.Ok(1)) else O.Truth(O.Eval(p, l.st, right))
    else
      var r := O.Eval(p, l.st, right);
      if r.res.Fail? then r else O.Eff(r.st, O.EvalBinary(op, l.res.value, r.res.value))
  }

  // ---------------------------------------------------------------- one round of each loop

  lemma ArgsFrom(p: Program, st: O.State, args: seq<Expr>, values: seq<int>)
    ensures args == [] ==> Prepend(values, O.EvalArgs(p, st, args)) == O.Eff(st, O.Ok(values))
    ensures args != [] ==> var v := O.Eval(p, st, args[0]);
      Prepend(values, O.EvalArgs(p, st, args)) ==
        if v.res.Fail? then O.Eff(v.st, O.Fail(v.res.code, v.res.site))
        else Prepend(values + [v.res.value], O.EvalArgs(p, v.st, args[1..]))
  {
    hide O.Eval, O.Sited;
    if args != [] {
      var v := O.Eval(p, st, args[0]);
      if v.res.Ok? {
        var rest := O.EvalArgs(p, v.st, args[1..]);
        if rest.res.Ok? {
          assert values + ([v.res.value] + rest.res.value) == values + [v.res.value] + rest.res.value;
        }
      }
    } else {
      assert O.EvalArgs(p, st, args) == O.Eff(st, O.Ok([])) && values + [] == values;
    }
  }

  lemma BlockFrom(p: Program, st: O.State, stmts: seq<Stmt>)
    ensures stmts == [] ==> O.ExecBlock(p, st, stmts) == O.Eff(st, O.Ok(O.Continue))
    ensures stmts != [] ==> var s := O.ExecStmt(p, st, stmts[0]);
      O.ExecBlock(p, st, stmts) == if s.res.Fail? || s.res.value.ReturnValue? then s else O.ExecBlock(p, s.st, stmts[1..])
  {
    hide O.ExecStmt, O.Sited, O.SameBelow;
  }

  lemma WhileFrom(p: Program, st: O.State, condition: Expr, body: seq<Stmt>)
    ensures var c := O.Eval(p, st, condition);
      O.ExecWhile(p, st, condition, body) ==
        if c.res.Fail? then O.Failed(c)
        else if c.res.value == 0 then O.Eff(c.st, O.Ok(O.Continue))
        else
          var b := O.ExecBlock(p, c.st, body);
          if b.res.Fail? || b.res.value.ReturnValue? then b else O.ExecWhile(p, b.st, condition, body)
  {
    hide O.Eval, O.ExecBlock, O.Sited, O.SameBelow;
  }

  lemma InitFrom(p: Program, st: O.State, globals: seq<GlobalVar>)
    ensures globals == [] ==> O.InitializeGlobals(p, st, globals) == O.Eff(st, O.Ok(()))
    ensures globals != [] && globals[0].init.None? ==>
      O.InitializeGlobals(p, st, globals) == O.InitializeGlobals(p, st, globals[1..])
    ensures globals != [] && globals[0].init.Some? ==>
      var v := O.Eval(p, st, globals[0].init.value);
      O.InitializeGlobals(p, st, globals) ==
        if v.res.Fail? then O.Eff(v.st, O.Fail(v.res.code, v.res.site))
        else
          var a := O.AssignGlobalScalar(v.st, globals[0].name, v.res.value);
          if a.res.Fail? then a else O.InitializeGlobals(p, a.st, globals[1..])
  {
    hide O.Eval, O.AssignGlobalScalar, O.Sited;
  }

  class AstOracle {
    const program: Program
    var functions: map<string, Function>
    var globals: O.Scope
    var frames: seq<O.Scope>
    var output: seq<int>
    var cycles: nat

    function Now(): O.State
      reads this`globals, this`frames, this`output, this`cycles
    {
      O.State(globals, frames, output, cycles)
    }

    ghost predicate Valid()
      reads this`functions
    {
      TableOk(program.functions, functions)
    }

    /** The outcome and the new state are those of the semantics. */
    predicate Follows<T(==)>(e: O.Eff<T>, r: Fallible<T>)
      reads this`globals, this`frames, this`output, this`cycles
    {
      && Now() == e.st
      && r == match e.res case Ok(value) => Ok(value) case Fail(code, _) => Trap(code)
    }

    constructor (program: Program)
      ensures this.program == program && Valid() && Now() == O.Start(program)
    {
      this.program := program;
      var table: map<string, Function> := map[];
      for i := 0 to |program.functions|
        invariant TableOk(program.functions[..i], table)
      {
        assert program.functions[..i + 1][..i] == program.functions[..i];
        table := table[program.functions[i].name := program.functions[i]];
      }
      assert program.functions[..|program.functions|] == program.functions;
      var scope: O.Scope := map[];
      for i := 0 to |program.globals|
        invariant scope == O.InitialGlobals(program.globals[..i])
      {
        assert program.globals[..i + 1][..i] == program.globals[..i];
        var g := program.globals[i];
        scope := scope[g.name := if g.size.Some? then O.Array(O.Zeros(g.size.value)) else O.Scalar(Some(0))];
      }
      assert program.globals[..|program.globals|] == program.globals;
      functions := table;
      globals := scope;
      frames := [];
      output := [];
      cycles := 0;
    }

    // -------------------------------------------------------------- names

    method Tick() returns (r: Fallible<()>)
      modifies this`cycles
      ensures Follows(O.Tick(old(Now())), r)
    {
      cycles := cycles + 1;
      return if cycles > MAX_CYCLES then Trap(CycleLimit) else Ok(());
    }

    function Lookup(name: string): (slot: Option<O.Slot>)
      reads this
      ensures slot == O.LookupSlot(Now(), name)
    {
      if frames != [] && name in frames[|frames| - 1] then Some(frames[|frames| - 1][name])
      else if name in globals then Some(globals[name])
      else None
    }

    /** Overwrites the slot a name refers to. */
    method Update(name: string, slot: O.Slot)
      requires Lookup(name).Some?
      modifies this`globals, this`frames
      ensures Now() == O.UpdateSlot(old(Now()), name, slot)
    {
      if frames != [] && name in frames[|frames| - 1] {
        frames := frames[|frames| - 1 := frames[|frames| - 1][name := slot]];
      } else {
        globals := globals[name := slot];
      }
    }

    method Insert(name: string, slot: O.Slot) returns (r: Fallible<()>)
      modifies this`frames
      ensures old(frames) == [] ==> r == Trap(InvalidInstruction) && frames == []
      ensures old(frames) != [] ==> r == Ok(()) && Now() == O.WithTop(old(Now()), O.Top(old(Now()))[name := slot])
    {
      if frames == [] {
        return Trap(InvalidInstruction);
      }
      frames := frames[|frames| - 1 := frames[|frames| - 1][name := slot]];
      return Ok(());
    }

    method ReadScalar(name: string) returns (r: Fallible<int>)
      ensures Follows(O.Eff(Now(), O.ReadScalar(Now(), name)), r)
    {
      match Lookup(name) {
        case Some(Scalar(Some(value))) => return Ok(value);
        case Some(Scalar(None)) => return Trap(UndefinedLocal);
        case Some(Array(_)) => return Trap(InvalidInstruction);
        case None => return Trap(InvalidInstruction);
      }
    }

    method ReadArray(name: string, index: nat) returns (r: Fallible<int>)
      ensures Follows(O.Eff(Now(), O.ReadArray(Now(), name, index)), r)
    {
      match Lookup(name) {
        case Some(Array(values)) => return if index < |values| then Ok(values[index]) else Trap(ArrayOutOfBounds);
        case Some(Scalar(_)) => return Trap(InvalidInstruction);
        case None => return Trap(InvalidInstruction);
      }
    }

    method AssignScalar(name: string, value: int) returns (r: Fallible<()>)
      modifies this`globals, this`frames
      ensures Follows(O.AssignScalar(old(Now()), name, value), r)
    {
      match Lookup(name) {
        case Some(Scalar(_)) =>
          Update(name, O.Scalar(Some(NormalizeI32(value))));
          return Ok(());
        case Some(Array(_)) => return Trap(InvalidInstruction);
        case None => return Trap(InvalidInstruction);
      }
    }

    method AssignGlobalScalar(name: string, value: int) returns (r: Fallible<()>)
      modifies this`globals
      ensures Follows(O.AssignGlobalScalar(old(Now()), name, value), r)
    {
      if name !in globals || globals[name].Array? {
        return Trap(InvalidInstruction);
      }
      globals := globals[name := O.Scalar(Some(NormalizeI32(value)))];
      return Ok(());
    }

    method AssignArray(name: string, index: nat, value: int) returns (r: Fallible<()>)
      modifies this`globals, this`frames
      ensures Follows(O.AssignArray(old(Now()), name, index, value), r)
    {
      match Lookup(name) {
        case Some(Array(values)) =>
          if index >= |values| {
            return Trap(ArrayOutOfBounds);
          }
          Update(name, O.Array(values[index := NormalizeI32(value)]));
          return Ok(());
        case Some(Scalar(_)) => return Trap(InvalidInstruction);
        case None => return Trap(InvalidInstruction);
      }
    }

    method DeclareScalar(name: string) returns (r: Fallible<()>)
      modifies this`frames
      ensures Follows(O.DeclareScalar(old(Now()), name), r)
    {
      if Lookup(name).None? {
        r := Insert(name, O.Scalar(None));
      } else {
        r := Ok(());
      }
    }

    method DeclareOrUpdate(name: string, slot: O.Slot) returns (r: Fallible<()>)
      modifies this`globals, this`frames
      ensures Follows(O.DeclareOrUpdate(old(Now()), name, slot), r)
    {
      if Lookup(name).Some? {
        Update(name, slot);
        r := Ok(());
      } else {
        r := Insert(name, slot);
      }
    }

    static function CheckedIndex(raw: int): Fallible<nat> {
      if raw < 0 then Trap(ArrayOutOfBounds) else Ok(raw)
    }

    // -------------------------------------------------------------- expressions

    method EvalExpr(e: Expr) returns (r: Fallible<int>)
      requires Valid()
      modifies this`globals, this`frames, this`output, this`cycles
      ensures Follows(O.Eval(program, old(Now()), e), r)
      decreases O.Fuel(Now()), 0
    {
      hide O.CallFunction, O.EvalArgs, O.Sited;
      var _ :- Tick();
      match e {
        case IntLiteral(value) => return Ok(value);
        case BoolLiteral(flag) => return Ok(BoolValue(flag));
        case Identifier(name) => r := ReadScalar(name);
        case Binary(op, left, right) => r := EvalOperands(op, left, right);
        case Unary(op, operand) =>
          var value :- EvalExpr(operand);
          return Ok(O.EvalUnary(op, value));
        case Call(name, args) =>
          var values :- EvalArgs(args);
          r := CallFunction(name, values);
        case ArrayIndex(name, index) =>
          var raw :- EvalExpr(index);
          var checked :- CheckedIndex(raw);
          r := ReadArray(name, checked);
      }
    }

    /** Short-circuit operators leave the right operand alone when the left one decides. */
    method EvalOperands(op: BinaryOp, left: Expr, right: Expr) returns (r: Fallible<int>)
      requires Valid() && cycles <= MAX_CYCLES
      modifies this`globals, this`frames, this`output, this`cycles
      ensures Follows(EvalBinaryFrom(program, old(Now()), op, left, right), r)
      decreases O.Fuel(Now()), 1
    {
      hide O.CallFunction, O.EvalArgs, O.Sited, O.Eval;
      var l :- EvalExpr(left);
      if op == BinaryOp.And {
        if l == 0 {
          return Ok(0);
        }
        var v :- EvalExpr(right);
        return Ok(BoolValue(v != 0));
      }
      if op == BinaryOp.Or {
        if l != 0 {
          return Ok(1);
        }
        var v :- EvalExpr(right);
        return Ok(BoolValue(v != 0));
      }
      var v :- EvalExpr(right);
      if op == BinaryOp.Div && v == 0 {
        return Trap(DivideByZero);
      }
      return Ok(O.EvalBinary(op, l, v).value);
    }

    method EvalArgs(args: seq<Expr>) returns (r: Fallible<seq<int>>)
      requires Valid()
      modifies this`globals, this`frames, this`output, this`cycles
      ensures Follows(O.EvalArgs(program, old(Now()), args), r)
      decreases O.Fuel(Now()), |args| + 1
    {
      hide O.CallFunction, O.Sited, O.Eval, O.EvalArgs;
      ghost var start := Now();
      var values := [];
      PrependNothing(O.EvalArgs(program, start, args));
      assert args[0..] == args;
      for i := 0 to |args|
        invariant cycles >= start.cycles
        invariant O.EvalArgs(program, start, args) == Prepend(values, O.EvalArgs(program, Now(), args[i..]))
      {
        ArgsFrom(program, Now(), args[i..], values);
        assert args[i..][1..] == args[i + 1..];
        var value :- EvalExpr(args[i]);
        values := values + [value];
      }
      ArgsFrom(program, Now(), [], values);
      return Ok(values);
    }

    // -------------------------------------------------------------- calls

    method BindParams(params: seq<Param>, args: seq<int>) returns (scope: O.Scope)
      requires |params| == |args|
      ensures scope == O.BindParams(params, args)
    {
      scope := map[];
      for i := 0 to |params|
        invariant scope == O.BindParams(params[..i], args[..i])
      {
        assert params[..i + 1][..i] == params[..i] && args[..i + 1][..i] == args[..i];
        scope := scope[params[i].name := O.Scalar(Some(NormalizeI32(args[i])))];
      }
      assert params[..|params|] == params && args[..|params|] == args;
    }

    method CallFunction(name: string, args: seq<int>) returns (r: Fallible<int>)
      requires Valid()
      modifies this`globals, this`frames, this`output, this`cycles
      ensures Follows(O.CallFunction(program, old(Now()), name, args), r)
      decreases O.Fuel(Now()), 0
    {
      hide O.ExecBlock, O.Sited, O.BindParams;
      var _ :- Tick();
      if |frames| >= MAX_FRAMES {
        return Trap(StackOverflow);
      }
      if name !in functions {
        return Trap(UndefinedFunction);
      }
      var callee := functions[name];
      if |args| != |callee.params| {
        return Trap(InvalidInstruction);
      }
      var rootScope := BindParams(callee.params, args);
      frames := frames + [rootScope];
      var control :- ExecBlock(callee.body);
      var value := match control case Continue => 0 case ReturnValue(v) => v;
      if frames != [] {
        frames := frames[..|frames| - 1];
      }
      return Ok(NormalizeI32(value));
    }

    // -------------------------------------------------------------- statements

    method ExecBlock(stmts: seq<Stmt>) returns (r: Fallible<O.Control>)
      requires Valid()
      modifies this`globals, this`frames, this`output, this`cycles
      ensures Follows(O.ExecBlock(program, old(Now()), stmts), r)
      decreases O.Fuel(Now()), |stmts| + 1
    {
      hide O.ExecStmt, O.ExecBlock, O.Sited, O.SameBelow;
      ghost var start := Now();
      for i := 0 to |stmts|
        invariant cycles >= start.cycles
        invariant O.ExecBlock(program, start, stmts) == O.ExecBlock(program, Now(), stmts[i..])
      {
        BlockFrom(program, Now(), stmts[i..]);
        assert stmts[i..][1..] == stmts[i + 1..];
        var control :- ExecStmt(stmts[i]);
        if control.ReturnValue? {
          return Ok(control);
        }
      }
      BlockFrom(program, Now(), []);
      return Ok(O.Continue);
    }

    method ExecStmt(s: Stmt) returns (r: Fallible<O.Control>)
      requires Valid()
      modifies this`globals, this`frames, this`output, this`cycles
      ensures Follows(O.ExecStmt(program, old(Now()), s), r)
      decreases O.Fuel(Now()), 0
    {
      hide O.Eval, O.ExecBlock, O.ExecWhile, O.ExecDecl, O.ExecAssign, O.Sited, O.SameBelow;
      var _ :- Tick();
      match s {
        case VarDecl(_, name, init, size) => r := ExecDecl(name, init, size);
        case Assign(target, index, value) => r := ExecAssign(target, index, value);
        case If(condition, thenBody, elseBody) =>
          var v :- EvalExpr(condition);
          if v != 0 {
            r := ExecBlock(thenBody);
          } else if elseBody.Else? {
            r := ExecBlock(elseBody.body);
          } else {
            r := Ok(O.Continue);
          }
        case While(condition, body) => r := ExecWhile(condition, body);
        case Return(value) =>
          var v :- EvalExpr(value);
          r := Ok(O.ReturnValue(v));
        case Print(value) =>
          var v :- EvalExpr(value);
          output := output + [v];
          r := Ok(O.Continue);
        case ExprStmt(e) =>
          var _ :- EvalExpr(e);
          r := Ok(O.Continue);
      }
    }

    method ExecDecl(name: string, init: Option<Expr>, size: Option<I32>) returns (r: Fallible<O.Control>)
      requires Valid()
      modifies this`globals, this`frames, this`output, this`cycles
      ensures Follows(O.ExecDecl(program, old(Now()), name, init, size), r)
      decreases O.Fuel(Now()), 1
    {
      hide O.Eval, O.Sited, O.SameBelow;
      if size.Some? {
        var _ :- DeclareOrUpdate(name, O.Array(O.Zeros(size.value)));
        return Ok(O.Continue);
      }
      var _ :- DeclareScalar(name);
      if init.Some? {
        var v :- EvalExpr(init.value);
        var _ :- AssignScalar(name, v);
      }
      return Ok(O.Continue);
    }

    /** The index is checked before the value is evaluated. */
    method ExecAssign(target: string, index: Option<Expr>, value: Expr) returns (r: Fallible<O.Control>)
      requires Valid()
      modifies this`globals, this`frames, this`output, this`cycles
      ensures Follows(O.ExecAssign(program, old(Now()), target, index, value), r)
      decreases O.Fuel(Now()), 1
    {
      hide O.Eval, O.Sited, O.SameBelow, O.Preview;
      if index.Some? {
        var raw :- EvalExpr(index.value);
        var checked :- CheckedIndex(raw);
        var v :- EvalExpr(value);
        var _ :- AssignArray(target, checked, v);
      } else {
        var v :- EvalExpr(value);
        var _ :- AssignScalar(target, v);
      }
      return Ok(O.Continue);
    }

    method ExecWhile(condition: Expr, body: seq<Stmt>) returns (r: Fallible<O.Control>)
      requires Valid()
      modifies this`globals, this`frames, this`output, this`cycles
      ensures Follows(O.ExecWhile(program, old(Now()), condition, body), r)
      decreases O.Fuel(Now()), 1
    {
      hide O.Eval, O.ExecBlock, O.ExecWhile, O.Sited, O.SameBelow;
      ghost var start := Now();
      while true
        invariant cycles >= start.cycles
        invariant O.ExecWhile(program, start, condition, body) == O.ExecWhile(program, Now(), condition, body)
        decreases O.Fuel(Now())
      {
        WhileFrom(program, Now(), condition, body);
        var v :- EvalExpr(condition);
        if v == 0 {
          return Ok(O.Continue);
        }
        var control :- ExecBlock(body);
        if control.ReturnValue? {
          return Ok(control);
        }
      }
    }

    // -------------------------------------------------------------- programs

    method InitializeGlobals() returns (r: Fallible<()>)
      requires Valid()
      modifies this`globals, this`frames, this`output, this`cycles
      ensures Follows(O.InitializeGlobals(program, old(Now()), program.globals), r)
    {
      hide O.Eval, O.InitializeGlobals, O.Sited, O.AssignGlobalScalar;
      ghost var start := Now();
      for i := 0 to |program.globals|
        invariant O.InitializeGlobals(program, start, program.globals) == O.InitializeGlobals(program, Now(), program.globals[i..])
      {
        InitFrom(program, Now(), program.globals[i..]);
        assert program.globals[i..][1..] == program.globals[i + 1..];
        if program.globals[i].init.Some? {
          var value :- EvalExpr(program.globals[i].init.value);
          var _ :- AssignGlobalScalar(program.globals[i].name, value);
        }
      }
      InitFrom(program, Now(), []);
      return Ok(());
    }

    /** A fresh oracle reports the outcome of the semantics, and a limit only with all frames or all cycles used. */
    method Run() returns (outcome: O.Outcome)
      requires Valid() && Now() == O.Start(program)
      modifies this`globals, this`frames, this`output, this`cycles
      ensures outcome == O.Run(program)
      ensures outcome.trap == StackOverflow ==> |frames| == MAX_FRAMES
      ensures outcome.trap == CycleLimit <==> cycles == MAX_CYCLES + 1
    {
      hide O.InitializeGlobals, O.CallFunction;
      L.RunsAreCutByTheirLimit(program);
      var ready := InitializeGlobals();
      if ready.Trap? {
        return O.Outcome(false, 0, ready.code, output);
      }
      var result := CallFunction("main", []);
      match result {
        case Ok(value) => return O.Outcome(true, value, NoTrap, output);
        case Trap(code) => return O.Outcome(false, 0, code, output);
      }
    }
  }
}
