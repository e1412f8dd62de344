/** The oracle's runs on similar programs, in lockstep: same globals, output, depth, values and traps. */
module SimilarRuns {
  import opened Common
  import opened Int32
  import opened Limits
  import opened Ast
  import opened Oracle
  import opened Similar
  import opened Rereading
  import R = Reordering

  // ---------------------------------------------------------------- functions found

  lemma {:induction false} FindSame(fs: seq<Function>, fs': seq<Function>, name: string)
    requires |fs'| == |fs| && forall i :: 0 <= i < |fs| ==> fs'[i].name == fs[i].name
    ensures FindFunction(fs', name) == FindFunction(fs, name)
  {
    if fs != [] && fs[|fs| - 1].name != name {
      FindSame(fs[..|fs| - 1], fs'[..|fs| - 1], name);
    }
  }

  lemma {:induction false} FindBehind(f: Function, fs: seq<Function>, name: string)
    ensures FindFunction([f] + fs, name)
         == match FindFunction(fs, name) case Some(i) => Some(i + 1) case None => if f.name == name then Some(0) else None
  {
    if fs == [] {
      assert [f] + fs == [f];
    } else if fs[|fs| - 1].name != name {
      assert ([f] + fs)[..|fs|] == [f] + fs[..|fs| - 1];
      FindBehind(f, fs[..|fs| - 1], name);
    }
  }

  lemma NamesSame(p: Program, q: Program, x: Rewriting)
    requires ProgramSimilar(x, p, q)
    ensures var extra := if x.helper.Some? then 1 else 0;
      |q.functions| == |p.functions| + extra && forall i :: 0 <= i < |p.functions| ==> q.functions[i + extra].name == p.functions[i].name
    ensures x.helper.Some? ==> IsHelper(q.functions[0], x.helper.value) && FindFunction(p.functions, x.helper.value).None?
  {
    var extra := if x.helper.Some? then 1 else 0;
    forall i | 0 <= i < |p.functions| ensures q.functions[i + extra].name == p.functions[i].name {
      assert FunctionSimilar(x, p.functions[i], q.functions[i + extra]);
    }
  }

  /** A name leads to the same function in both programs, with the helper's place taken into account. */
  lemma PlacesSame(p: Program, q: Program, x: Rewriting, name: string)
    requires ProgramSimilar(x, p, q)
    ensures FindFunction(q.functions, name)
         == if x.helper.None? then FindFunction(p.functions, name)
            else match FindFunction(p.functions, name)
              case Some(i) => Some(i + 1)
              case None => if x.helper.value == name then Some(0) else None
  {
    hide ProgramSimilar, IsHelper, FindFunction;
    NamesSame(p, q, x);
    HelperName(p, q, x);
    if x.helper.None? {
      FindSame(p.functions, q.functions, name);
    } else {
      var rest := q.functions[1..];
      assert q.functions == [q.functions[0]] + rest;
      FindBehind(q.functions[0], rest, name);
      FindSame(p.functions, rest, name);
    }
  }

  lemma HelperName(p: Program, q: Program, x: Rewriting)
    requires ProgramSimilar(x, p, q)
    ensures x.helper.Some? ==> q.functions != [] && q.functions[0].name == x.helper.value
  {
  }

  lemma FunctionsSame(p: Program, q: Program, x: Rewriting, name: string)
    requires ProgramSimilar(x, p, q) && x.helper != Some(name)
    ensures
      var found, found' := FindFunction(p.functions, name), FindFunction(q.functions, name);
      found'.Some? == found.Some? && (found.Some? ==> FunctionSimilar(x, p.functions[found.value], q.functions[found'.value]))
  {
    hide FunctionSimilar, IsHelper, GlobalSimilar, FindFunction;
    PlacesSame(p, q, x, name);
  }

  lemma HelperFound(p: Program, q: Program, x: Rewriting)
    requires ProgramSimilar(x, p, q) && x.helper.Some?
    ensures FindFunction(q.functions, x.helper.value) == Some(0) && IsHelper(q.functions[0], x.helper.value)
  {
    NamesSame(p, q, x);
    PlacesSame(p, q, x, x.helper.value);
  }

  // ---------------------------------------------------------------- wrapped expressions

  lemma LiteralEval(q: Program, st: State, v: I32)
    ensures Eval(q, st, IntLiteral(v))
         == if st.cycles + 1 > MAX_CYCLES then Trap(st.(cycles := st.cycles + 1), CycleLimit)
            else Eff(st.(cycles := st.cycles + 1), Ok(v))
  {
  }

  lemma NeutralValues(v: int)
    requires IsI32(v)
    ensures EvalBinary(BinaryOp.Add, v, 0) == Ok(v) && EvalBinary(BinaryOp.Sub, v, 0) == Ok(v)
    ensures EvalBinary(BinaryOp.Mul, v, 1) == Ok(v)
  {
  }

  /** A neutral operation gives its operand's value, a little later. */
  lemma NeutralEval(q: Program, st: State, e: Expr, op: BinaryOp, unit: I32)
    requires op != BinaryOp.And && op != BinaryOp.Or
    requires st.cycles < MAX_CYCLES ==>
      var l := Eval(q, st.(cycles := st.cycles + 1), e);
      l.res.Ok? ==> EvalBinary(op, l.res.value, unit) == Ok(l.res.value)
    ensures
      var r := Eval(q, st, Binary(op, e, IntLiteral(unit)));
      || AtLimit(r)
      || (st.cycles < MAX_CYCLES
          && var l := Eval(q, st.(cycles := st.cycles + 1), e);
             if l.res.Ok? then r == Eff(l.st.(cycles := l.st.cycles + 1), Ok(l.res.value)) else r == l)
  {
    hide Eval, EvalBinary;
    BinaryEval(q, st, op, e, IntLiteral(unit));
    if st.cycles < MAX_CYCLES {
      var l := Eval(q, st.(cycles := st.cycles + 1), e);
      if l.res.Ok? {
        LiteralEval(q, l.st, unit);
      }
    }
  }

  /** So does the helper. */
  lemma HelperReturns(q: Program, st: State, name: string, v: int)
    requires FindFunction(q.functions, name) == Some(0) && IsHelper(q.functions[0], name) && IsI32(v)
    ensures var r := CallFunction(q, st, name, [v]); AtLimit(r) || r == Eff(st.(cycles := st.cycles + 3), Ok(v))
  {
    var t := Tick(st);
    if t.res.Ok? && |st.frames| < MAX_FRAMES {
      var f := q.functions[0];
      var scope: Scope := BindParams(f.params, [v]);
      BoundOne(f.params, v);
      var entered := t.st.(frames := t.st.frames + [scope]);
      var s := ExecStmt(q, entered, f.body[0]);
      ReturnsIt(q, entered, f.params[0].name, v);
      if s.res.Ok? {
        assert s.st.frames[..|s.st.frames| - 1] == st.frames;
      }
    }
  }

  lemma BoundOne(params: seq<Param>, v: int)
    requires |params| == 1 && IsI32(v)
    ensures BindParams(params, [v]) == map[params[0].name := Scalar(Some(v))]
  {
    assert params[..0] == [] && [v][..0] == [];
  }

  lemma ReturnsIt(q: Program, st: State, name: string, v: int)
    requires st.frames != [] && Top(st) == map[name := Scalar(Some(v))]
    ensures var r := ExecStmt(q, st, Return(Identifier(name)));
      AtLimit(r) || r == Eff(st.(cycles := st.cycles + 2), Ok(ReturnValue(v)))
  {
    var t := Tick(st);
    if t.res.Ok? {
      var e := Eval(q, t.st, Identifier(name));
      if t.st.cycles < MAX_CYCLES {
        assert e == Eff(t.st.(cycles := st.cycles + 2), Ok(v));
      }
    }
  }

  lemma HelperEval(q: Program, st: State, name: string, e: Expr)
    requires FindFunction(q.functions, name) == Some(0) && IsHelper(q.functions[0], name)
    requires st.cycles < MAX_CYCLES ==>
      var l := Eval(q, st.(cycles := st.cycles + 1), e);
      l.res.Ok? ==> IsI32(l.res.value)
    ensures
      var r := Eval(q, st, Call(name, [e]));
      || AtLimit(r)
      || (st.cycles < MAX_CYCLES
          && var l := Eval(q, st.(cycles := st.cycles + 1), e);
             if l.res.Ok? then r == Eff(l.st.(cycles := l.st.cycles + 3), Ok(l.res.value))
             else r == Eff(l.st, Fail(l.res.code, l.res.site)))
  {
    hide CallFunction;
    if st.cycles < MAX_CYCLES {
      var t := st.(cycles := st.cycles + 1);
      var l := Eval(q, t, e);
      OneArg(q, t, e);
      if l.res.Ok? {
        HelperReturns(q, l.st, name, l.res.value);
      }
    }
  }

  lemma OneArg(q: Program, st: State, e: Expr)
    ensures
      var l := Eval(q, st, e);
      EvalArgs(q, st, [e]) == Eff(l.st, if l.res.Ok? then Ok([l.res.value]) else Fail(l.res.code, l.res.site))
  {
    var l := Eval(q, st, e);
    assert [e][1..] == [];
    assert EvalArgs(q, l.st, []) == Eff(l.st, Ok([]));
    if l.res.Ok? {
      assert [l.res.value] + [] == [l.res.value];
    }
  }

  lemma NotTwice(q: Program, st: State, e: Expr)
    ensures
      var r := Eval(q, st, NotOf(NotOf(e)));
      || AtLimit(r)
      || (st.cycles + 1 < MAX_CYCLES
          && var l := Eval(q, st.(cycles := st.cycles + 2), e);
             if l.res.Ok? then r == Eff(l.st, Ok(BoolValue(l.res.value != 0))) else r == l)
  {
    hide Eval;
    NotOnce(q, st, NotOf(e));
    NotOnce(q, st.(cycles := st.cycles + 1), e);
  }

  lemma NotOnce(q: Program, st: State, e: Expr)
    ensures
      var r := Eval(q, st, NotOf(e));
      || AtLimit(r)
      || (st.cycles < MAX_CYCLES
          && var l := Eval(q, st.(cycles := st.cycles + 1), e);
             if l.res.Ok? then r == Eff(l.st, Ok(BoolValue(l.res.value == 0))) else r == l)
  {
  }

  // ---------------------------------------------------------------- expressions

  lemma {:induction false} EvalSame(p: Program, q: Program, x: Rewriting, hidden: Option<string>, st: State, st': State, e: Expr)
    requires ProgramSimilar(x, p, q) && Close(x, hidden, st, st') && Avoids(x.helper, hidden, e)
    ensures ValueMatches(x, hidden, Eval(p, st, e), Eval(q, st', e))
    decreases Fuel(st), 1
  {
    hide ProgramSimilar, Close, EvalUnary, ReadScalar;
    if st'.cycles >= MAX_CYCLES {
      return;
    }
    Ticked(x, hidden, st, st');
    var t, t' := Tick(st).st, Tick(st').st;
    match e {
      case IntLiteral(_) =>
      case BoolLiteral(_) =>
      case Identifier(name) => ReadSame(x, hidden, t, t', name);
      case Binary(op, left, right) => BinarySame(p, q, x, hidden, st, st', op, left, right);
      case Unary(op, operand) =>
        EvalSame(p, q, x, hidden, t, t', operand);
        UnaryResult(op);
      case Call(name, args) => CallExprSame(p, q, x, hidden, st, st', name, args);
      case ArrayIndex(name, index) => IndexSame(p, q, x, hidden, st, st', name, index);
    }
  }

  lemma Ticked(x: Rewriting, hidden: Option<string>, st: State, st': State)
    requires Close(x, hidden, st, st') && st'.cycles < MAX_CYCLES
    ensures Tick(st).res.Ok? && Tick(st').res.Ok? && Close(x, hidden, Tick(st).st, Tick(st').st)
    ensures Tick(st).st == st.(cycles := st.cycles + 1) && Tick(st').st == st'.(cycles := st'.cycles + 1)
    ensures st'.output == st.output && |st'.frames| == |st.frames| && Fuel(Tick(st).st) < Fuel(st)
  {
  }

  lemma {:induction false} BinarySame(p: Program, q: Program, x: Rewriting, hidden: Option<string>, st: State, st': State,
                                      op: BinaryOp, left: Expr, right: Expr)
    requires ProgramSimilar(x, p, q) && Close(x, hidden, st, st') && Avoids(x.helper, hidden, Binary(op, left, right))
    requires st'.cycles < MAX_CYCLES
    ensures ValueMatches(x, hidden, Eval(p, st, Binary(op, left, right)), Eval(q, st', Binary(op, left, right)))
    decreases Fuel(st), 0
  {
    hide ProgramSimilar, Close, Eval, EvalBinary;
    Ticked(x, hidden, st, st');
    var t, t' := Tick(st).st, Tick(st').st;
    BinaryEval(p, st, op, left, right);
    BinaryEval(q, st', op, left, right);
    EvalSame(p, q, x, hidden, t, t', left);
    var l, l' := Eval(p, t, left), Eval(q, t', left);
    if l.res.Ok? && l'.res.Ok? {
      EvalSame(p, q, x, hidden, l.st, l'.st, right);
      CombinedSame(x, hidden, op, l.res.value, l.st, l'.st, Eval(p, l.st, right), Eval(q, l'.st, right));
    }
  }

  /** What an operator makes of its left operand's value and of evaluating the right one. */
  function Combined(op: BinaryOp, left: int, st: State, r: Eff<int>): Eff<int> {
    if op == And then (if left == 0 then Eff(st, Ok(0)) else Truth(r))
    else if op == Or then (if left != 0 then Eff(st, Ok(1)) else Truth(r))
    else if r.res.Fail? then r
    else Eff(r.st, EvalBinary(op, left, r.res.value))
  }

  lemma BinaryEval(q: Program, st: State, op: BinaryOp, left: Expr, right: Expr)
    ensures st.cycles >= MAX_CYCLES ==> AtLimit(Eval(q, st, Binary(op, left, right)))
    ensures st.cycles < MAX_CYCLES ==>
      var l := Eval(q, Tick(st).st, left);
      Eval(q, st, Binary(op, left, right))
      == if l.res.Fail? then l else Combined(op, l.res.value, l.st, Eval(q, l.st, right))
  {
    hide EvalBinary;
  }

  lemma CombinedSame(x: Rewriting, hidden: Option<string>, op: BinaryOp, left: int, st: State, st': State, r: Eff<int>, r': Eff<int>)
    requires Close(x, hidden, st, st') && ValueMatches(x, hidden, r, r')
    ensures ValueMatches(x, hidden, Combined(op, left, st, r), Combined(op, left, st', r'))
  {
    hide Close, EvalBinary;
    BinaryResult(op, left);
    if r.res.Ok? && r'.res.Ok? && Close(x, hidden, r.st, r'.st) {
      SameOutput(x, hidden, r.st, r'.st);
    }
  }

  lemma {:induction false} CallExprSame(p: Program, q: Program, x: Rewriting, hidden: Option<string>, st: State, st': State,
                                        name: string, args: seq<Expr>)
    requires ProgramSimilar(x, p, q) && Close(x, hidden, st, st') && Avoids(x.helper, hidden, Call(name, args))
    requires st'.cycles < MAX_CYCLES
    ensures ValueMatches(x, hidden, Eval(p, st, Call(name, args)), Eval(q, st', Call(name, args)))
    decreases Fuel(st), 0
  {
    hide ProgramSimilar, Close, CallFunction, EvalArgs;
    Ticked(x, hidden, st, st');
    var t, t' := Tick(st).st, Tick(st').st;
    ArgsSame(p, q, x, hidden, t, t', args);
    var vs, vs' := EvalArgs(p, t, args), EvalArgs(q, t', args);
    if vs.res.Ok? && vs'.res.Ok? {
      CallSame(p, q, x, hidden, vs.st, vs'.st, name, vs.res.value);
    }
  }

  lemma {:induction false} IndexSame(p: Program, q: Program, x: Rewriting, hidden: Option<string>, st: State, st': State,
                                     name: string, index: Expr)
    requires ProgramSimilar(x, p, q) && Close(x, hidden, st, st') && Avoids(x.helper, hidden, ArrayIndex(name, index))
    requires st'.cycles < MAX_CYCLES
    ensures ValueMatches(x, hidden, Eval(p, st, ArrayIndex(name, index)), Eval(q, st', ArrayIndex(name, index)))
    decreases Fuel(st), 0
  {
    hide ProgramSimilar, Close, ReadArray;
    Ticked(x, hidden, st, st');
    var t, t' := Tick(st).st, Tick(st').st;
    EvalSame(p, q, x, hidden, t, t', index);
    var i, i' := Eval(p, t, index), Eval(q, t', index);
    if i.res.Ok? && i'.res.Ok? {
      SameOutput(x, hidden, i.st, i'.st);
      if i.res.value >= 0 {
        ReadArraySame(x, hidden, i.st, i'.st, name, i.res.value);
      }
    }
  }

  /** Matching results whose value is an i32. */
  predicate ValueMatches(x: Rewriting, hidden: Option<string>, r: Eff<int>, r': Eff<int>) {
    Matches(x, hidden, r, r') && (r.res.Ok? && r'.res.Ok? ==> IsI32(r.res.value))
  }

  lemma BinaryResult(op: BinaryOp, l: int)
    ensures op != BinaryOp.And && op != BinaryOp.Or ==>
      forall r: int :: EvalBinary(op, l, r).Ok? ==> IsI32(EvalBinary(op, l, r).value)
  {
  }

  lemma UnaryResult(op: UnaryOp)
    ensures forall v: int :: IsI32(EvalUnary(op, v))
  {
  }

  lemma ReadSame(x: Rewriting, hidden: Option<string>, st: State, st': State, name: string)
    requires Close(x, hidden, st, st') && hidden != Some(name)
    ensures ReadScalar(st', name) == ReadScalar(st, name)
    ensures ReadScalar(st, name).Ok? ==> IsI32(ReadScalar(st, name).value)
  {
    LookupSame(x, hidden, st, st', name);
  }

  lemma ReadArraySame(x: Rewriting, hidden: Option<string>, st: State, st': State, name: string, index: nat)
    requires Close(x, hidden, st, st') && hidden != Some(name)
    ensures ReadArray(st', name, index) == ReadArray(st, name, index)
    ensures ReadArray(st, name, index).Ok? ==> IsI32(ReadArray(st, name, index).value)
  {
    LookupSame(x, hidden, st, st', name);
  }

  lemma {:induction false} ArgsSame(p: Program, q: Program, x: Rewriting, hidden: Option<string>, st: State, st': State, args: seq<Expr>)
    requires ProgramSimilar(x, p, q) && Close(x, hidden, st, st')
    requires forall i :: 0 <= i < |args| ==> Avoids(x.helper, hidden, args[i])
    ensures Matches(x, hidden, EvalArgs(p, st, args), EvalArgs(q, st', args))
    decreases Fuel(st), |args| + 2
  {
    hide ProgramSimilar, Close, Eval;
    if args != [] {
      EvalSame(p, q, x, hidden, st, st', args[0]);
      var v, v' := Eval(p, st, args[0]), Eval(q, st', args[0]);
      if v.res.Ok? && v'.res.Ok? {
        ArgsSame(p, q, x, hidden, v.st, v'.st, args[1..]);
      }
    }
  }

  // ---------------------------------------------------------------- calls

  lemma BoundSane(params: seq<Param>, args: seq<int>)
    requires |params| == |args|
    ensures Sane(BindParams(params, args)) && BoundBy(params, BindParams(params, args))
  {
    hide NormalizeI32;
    if params != [] {
      BoundSane(params[..|params| - 1], args[..|args| - 1]);
    }
  }

  /** The opening statements of a rewritten body show nothing and leave at most the hidden local. */
  lemma Opened(q: Program, x: Rewriting, st: State, st': State, entry: Entry, f: Function, f': Function)
    requires Close(x, None, st, st') && st.frames != [] && BodySimilar(x, entry, f, f')
    requires entry.LocalFirst? ==> entry.name !in Top(st)
    ensures
      var rest := f'.body[|Opening(entry)|..];
      || AtLimit(ExecBlock(q, st', f'.body))
      || exists t' :: ExecBlock(q, st', f'.body) == ExecBlock(q, t', rest) && Close(x, Hidden(entry), st, t')
  {
    match entry {
      case Plain =>
        assert f'.body[0..] == f'.body;
        assert ExecBlock(q, st', f'.body) == ExecBlock(q, st', f'.body[0..]) && Close(x, Hidden(entry), st, st');
      case DeadPrintFirst =>
        hide Close;
        assert f'.body[0] == DeadPrint() && f'.body[1..] == f'.body[|Opening(entry)|..];
        DeadPrintRuns(q, st');
        var t' := ExecStmt(q, st', DeadPrint()).st;
        SameOutput(x, None, st, st');
        if !AtLimit(ExecStmt(q, st', DeadPrint())) {
          CloseAfter(x, None, st, st', st, t');
        }
      case LocalFirst(name) =>
        LocalOpened(q, x, st, st', name, f'.body);
    }
  }

  lemma DeadPrintRuns(q: Program, st: State)
    ensures
      var r := ExecStmt(q, st, DeadPrint());
      AtLimit(r) || r == Eff(st.(cycles := st.cycles + 2), Ok(Continue))
  {
    if st.cycles < MAX_CYCLES {
      LiteralEval(q, st.(cycles := st.cycles + 1), 0);
    }
  }

  lemma TwoThenRest(q: Program, st: State, stmts: seq<Stmt>)
    requires |stmts| >= 2
    ensures
      var r := ExecBlock(q, st, stmts[..2]);
      ExecBlock(q, st, stmts) == if r.res.Fail? || r.res.value.ReturnValue? then r else ExecBlock(q, r.st, stmts[2..])
  {
    hide ExecStmt;
    assert stmts[..2] == [stmts[0], stmts[1]] && stmts[1..][1..] == stmts[2..];
    R.PairRuns(q, st, stmts[0], stmts[1]);
    var r := ExecStmt(q, st, stmts[0]);
    R.OneRuns(q, r.st, stmts[1]);
  }

  lemma LocalOpened(q: Program, x: Rewriting, st: State, st': State, name: string, body: seq<Stmt>)
    requires Close(x, None, st, st') && st.frames != [] && x.hidden == Some(name) && name !in Top(st)
    requires |body| >= 2 && body[..2] == NeutralLocal(name)
    ensures
      || AtLimit(ExecBlock(q, st', body))
      || exists t' :: ExecBlock(q, st', body) == ExecBlock(q, t', body[2..]) && Close(x, Some(name), st, t')
  {
    hide ExecBlock;
    TwoThenRest(q, st', body);
    NeutralLocalRuns(q, st', name);
    var r := ExecBlock(q, st', body[..2]);
    if r.res.Ok? {
      var top := Top(st')[name := Scalar(Some(0))];
      assert Top(r.st) == top && top - {name} == Top(st);
      assert ExecBlock(q, st', body) == ExecBlock(q, r.st, body[2..]) && Close(x, Some(name), st, r.st);
    }
  }

  lemma NeutralLocalRuns(q: Program, st: State, name: string)
    requires st.frames != [] && name !in Top(st) && name !in st.globals
    ensures
      var r := ExecBlock(q, st, NeutralLocal(name));
      || AtLimit(r)
      || (r.res == Ok(Continue) && r.st.cycles >= st.cycles
          && r.st == WithTop(st, Top(st)[name := Scalar(Some(0))]).(cycles := r.st.cycles))
  {
    hide ExecBlock, ExecStmt;
    var decl, write := NeutralLocal(name)[0], NeutralLocal(name)[1];
    R.PairRuns(q, st, decl, write);
    R.WriteRuns(q, st, decl);
    var d := ExecStmt(q, st, decl);
    if d.res.Ok? {
      var top := Top(st)[name := Scalar(Some(0))];
      assert d.st == WithTop(st, top).(cycles := st.cycles + 2);
      assert Top(d.st) == top;
      R.OneRuns(q, d.st, write);
      WriteBackRuns(q, d.st, name);
      assert top[name := Scalar(Some(0))] == top;
      assert WithTop(d.st, top) == d.st;
    }
  }

  lemma WriteBackRuns(q: Program, st: State, name: string)
    requires st.frames != [] && name in Top(st) && Top(st)[name] == Scalar(Some(0))
    ensures
      var r := ExecStmt(q, st, Assign(name, None, AddZero(Identifier(name))));
      AtLimit(r) || r == Eff(WithTop(st, Top(st)[name := Scalar(Some(0))]).(cycles := st.cycles + 4), Ok(Continue))
  {
    hide Eval, ExecAssign;
    var t := st.(cycles := st.cycles + 1);
    if st.cycles < MAX_CYCLES {
      SumRuns(q, t, name);
      SetRuns(q, t, name, AddZero(Identifier(name)));
    }
  }

  lemma SumRuns(q: Program, st: State, name: string)
    requires name in Top(st) && Top(st)[name] == Scalar(Some(0))
    ensures
      var v := Eval(q, st, AddZero(Identifier(name)));
      AtLimit(v) || v == Eff(st.(cycles := st.cycles + 3), Ok(0))
  {
    hide Eval;
    ReadEval(q, st.(cycles := st.cycles + 1), name);
    NeutralValues(0);
    NeutralEval(q, st, Identifier(name), BinaryOp.Add, 0);
  }

  lemma ReadEval(q: Program, st: State, name: string)
    ensures
      Eval(q, st, Identifier(name))
      == if st.cycles + 1 > MAX_CYCLES then Trap(st.(cycles := st.cycles + 1), CycleLimit)
         else Eff(st.(cycles := st.cycles + 1), ReadScalar(st, name))
  {
  }

  lemma {:induction false} CallSame(p: Program, q: Program, x: Rewriting, hidden: Option<string>, st: State, st': State, name: string, args: seq<int>)
    requires ProgramSimilar(x, p, q) && Close(x, hidden, st, st') && x.helper != Some(name)
    ensures ValueMatches(x, hidden, CallFunction(p, st, name, args), CallFunction(q, st', name, args))
    decreases Fuel(st), 0
  {
    hide ProgramSimilar, Close, FunctionSimilar, ExecBlock, FindFunction, NormalizeI32, BindParams, BoundBy;
    if st'.cycles >= MAX_CYCLES {
      return;
    }
    Ticked(x, hidden, st, st');
    var t, t' := Tick(st).st, Tick(st').st;
    if |t'.frames| >= MAX_FRAMES {
      return;
    }
    FunctionsSame(p, q, x, name);
    var found, found' := FindFunction(p.functions, name), FindFunction(q.functions, name);
    if found.Some? {
      var f, f' := p.functions[found.value], q.functions[found'.value];
      SameParams(x, f, f');
      if |args| == |f.params| {
        var scope := BindParams(f.params, args);
        Entered(x, hidden, t, t', f.params, args);
        var entered, entered' := t.(frames := t.frames + [scope]), t'.(frames := t'.frames + [scope]);
        var inner := BodySame(p, q, x, entered, entered', f, f');
        var b, b' := ExecBlock(p, entered, f.body), ExecBlock(q, entered', f'.body);
        if b.res.Ok? && b'.res.Ok? {
          Left(x, hidden, inner, t, t', b.st, b'.st, scope);
        }
      }
    }
  }

  lemma SameParams(x: Rewriting, f: Function, f': Function)
    requires FunctionSimilar(x, f, f')
    ensures f'.params == f.params
  {
  }

  predicate BoundBy(params: seq<Param>, scope: Scope) {
    forall y <- scope :: exists i :: 0 <= i < |params| && params[i].name == y
  }

  lemma Entered(x: Rewriting, hidden: Option<string>, st: State, st': State, params: seq<Param>, args: seq<int>)
    requires Close(x, hidden, st, st') && |params| == |args|
    ensures
      var scope := BindParams(params, args);
      var entered, entered' := st.(frames := st.frames + [scope]), st'.(frames := st'.frames + [scope]);
      Close(x, None, entered, entered') && Top(entered) == scope && BoundBy(params, scope)
  {
    BoundSane(params, args);
    var scope := BindParams(params, args);
    assert Top(st.(frames := st.frames + [scope])) == scope == Top(st'.(frames := st'.frames + [scope]));
  }

  /** Back in the caller. */
  lemma Left(x: Rewriting, hidden: Option<string>, inner: Option<string>, st: State, st': State, b: State, b': State, scope: Scope)
    requires Close(x, hidden, st, st') && Close(x, inner, b, b')
    requires SameBelow(st.(frames := st.frames + [scope]), b) && SameBelow(st'.(frames := st'.frames + [scope]), b')
    ensures Close(x, hidden, PopFrame(b), PopFrame(b'))
  {
    hide Close;
    assert b.frames[..|b.frames| - 1] == st.frames && b'.frames[..|b'.frames| - 1] == st'.frames;
    FramesKept(x, hidden, inner, st, st', b, b');
  }

  /** The bodies of similar functions match. */
  lemma {:induction false} BodySame(p: Program, q: Program, x: Rewriting, st: State, st': State, f: Function, f': Function)
    returns (inner: Option<string>)
    requires ProgramSimilar(x, p, q) && Close(x, None, st, st') && st.frames != [] && FunctionSimilar(x, f, f')
    requires BoundBy(f.params, Top(st))
    ensures Matches(x, inner, ExecBlock(p, st, f.body), ExecBlock(q, st', f'.body))
    decreases Fuel(st), |f.body| + 4
  {
    hide ProgramSimilar, Close, ExecBlock, BodySimilar;
    var entry :=
      if BodySimilar(x, Plain, f, f') then Plain
      else if BodySimilar(x, DeadPrintFirst, f, f') then DeadPrintFirst
      else LocalFirst(x.hidden.value);
    inner := Hidden(entry);
    HiddenUnbound(x, entry, f, f');
    Opened(q, x, st, st', entry, f, f');
    if !AtLimit(ExecBlock(q, st', f'.body)) {
      var rest := f'.body[|Opening(entry)|..];
      var t' :| ExecBlock(q, st', f'.body) == ExecBlock(q, t', rest) && Close(x, inner, st, t');
      BodyParts(x, entry, f, f');
      BlockSame(p, q, x, inner, st, t', f.body, rest);
    }
  }

  lemma HiddenUnbound(x: Rewriting, entry: Entry, f: Function, f': Function)
    requires BodySimilar(x, entry, f, f')
    ensures |f'.body| >= |Opening(entry)|
    ensures entry.LocalFirst? ==> forall i :: 0 <= i < |f.params| ==> f.params[i].name != entry.name
  {
  }

  lemma BodyParts(x: Rewriting, entry: Entry, f: Function, f': Function)
    requires BodySimilar(x, entry, f, f')
    ensures |f'.body| >= |Opening(entry)| && BlockSimilar(x, f.body, f'.body[|Opening(entry)|..])
    ensures BlockAvoids(x.helper, Hidden(entry), f.body)
  {
  }

  // ---------------------------------------------------------------- rewritten expressions

  lemma {:induction false} WrappedSame(p: Program, q: Program, x: Rewriting, hidden: Option<string>, st: State, st': State, e: Expr, e': Expr)
    requires ProgramSimilar(x, p, q) && Close(x, hidden, st, st') && Avoids(x.helper, hidden, e) && ValueSimilar(x, e, e')
    ensures ValueMatches(x, hidden, Eval(p, st, e), Eval(q, st', e'))
    decreases Fuel(st), 3
  {
    if e' == e {
      EvalSame(p, q, x, hidden, st, st', e);
    } else if e' == AddZero(e) {
      NeutralSame(p, q, x, hidden, st, st', e, BinaryOp.Add, 0);
    } else if e' == SubZero(e) {
      NeutralSame(p, q, x, hidden, st, st', e, BinaryOp.Sub, 0);
    } else if e' == MulOne(e) {
      NeutralSame(p, q, x, hidden, st, st', e, BinaryOp.Mul, 1);
    } else if x.rereads && e' == RereadExpr(e) {
      RereadSame(p, q, x, hidden, st, st', e);
    } else {
      HelpedSame(p, q, x, hidden, st, st', e);
    }
  }

  predicate Neutral(op: BinaryOp, unit: I32) {
    (op == BinaryOp.Add && unit == 0) || (op == BinaryOp.Sub && unit == 0) || (op == BinaryOp.Mul && unit == 1)
  }

  lemma {:induction false} NeutralSame(p: Program, q: Program, x: Rewriting, hidden: Option<string>, st: State, st': State,
                                       e: Expr, op: BinaryOp, unit: I32)
    requires ProgramSimilar(x, p, q) && Close(x, hidden, st, st') && Avoids(x.helper, hidden, e) && Neutral(op, unit)
    ensures ValueMatches(x, hidden, Eval(p, st, e), Eval(q, st', Binary(op, e, IntLiteral(unit))))
    decreases Fuel(st), 2
  {
    hide ProgramSimilar, Close, Eval, EvalBinary;
    Earlier(x, hidden, st, st', 1);
    EvalSame(p, q, x, hidden, st, st'.(cycles := st'.cycles + 1), e);
    var l, l' := Eval(p, st, e), Eval(q, st'.(cycles := st'.cycles + 1), e);
    if l.res.Ok? && l'.res.Ok? {
      NeutralValues(l.res.value);
      Earlier(x, hidden, l.st, l'.st, 1);
    }
    NeutralEval(q, st', e, op, unit);
  }

  lemma {:induction false} HelpedSame(p: Program, q: Program, x: Rewriting, hidden: Option<string>, st: State, st': State, e: Expr)
    requires ProgramSimilar(x, p, q) && Close(x, hidden, st, st') && Avoids(x.helper, hidden, e) && x.helper.Some?
    ensures ValueMatches(x, hidden, Eval(p, st, e), Eval(q, st', Call(x.helper.value, [e])))
    decreases Fuel(st), 2
  {
    hide ProgramSimilar, Close, Eval;
    Earlier(x, hidden, st, st', 1);
    EvalSame(p, q, x, hidden, st, st'.(cycles := st'.cycles + 1), e);
    var l, l' := Eval(p, st, e), Eval(q, st'.(cycles := st'.cycles + 1), e);
    if l.res.Ok? && l'.res.Ok? {
      Earlier(x, hidden, l.st, l'.st, 3);
    }
    HelperFound(p, q, x);
    HelperEval(q, st', x.helper.value, e);
  }

  /** The rewritten program may have used more cycles. */
  lemma Earlier(x: Rewriting, hidden: Option<string>, st: State, st': State, more: nat)
    requires Close(x, hidden, st, st')
    ensures Close(x, hidden, st, st'.(cycles := st'.cycles + more)) && st'.output == st.output
  {
  }

  // ---------------------------------------------------------------- expressions printed and read back

  lemma {:induction false} RereadSame(p: Program, q: Program, x: Rewriting, hidden: Option<string>, st: State, st': State, e: Expr)
    requires ProgramSimilar(x, p, q) && Close(x, hidden, st, st') && Avoids(x.helper, hidden, e)
    ensures ValueMatches(x, hidden, Eval(p, st, e), Eval(q, st', RereadExpr(e)))
    decreases Fuel(st), 1
  {
    hide ProgramSimilar, Close, EvalUnary, ReadScalar;
    if st'.cycles >= MAX_CYCLES {
      return;
    }
    Ticked(x, hidden, st, st');
    var t, t' := Tick(st).st, Tick(st').st;
    match e {
      case IntLiteral(v) => LiteralReread(x, hidden, st, st', p, q, v);
      case BoolLiteral(_) =>
      case Identifier(name) => ReadSame(x, hidden, t, t', name);
      case Binary(op, left, right) => BinaryReread(p, q, x, hidden, st, st', op, left, right);
      case Unary(op, operand) =>
        RereadSame(p, q, x, hidden, t, t', operand);
        UnaryResult(op);
      case Call(name, args) => CallReread(p, q, x, hidden, st, st', name, args);
      case ArrayIndex(name, index) => IndexReread(p, q, x, hidden, st, st', name, index);
    }
  }

  /** The negation of a negative literal's magnitude, in wrapping arithmetic, is the literal. */
  lemma NegatedMagnitude(v: I32)
    requires v < 0
    ensures EvalUnary(UnaryOp.Neg, NormalizeI32(-(v as int))) == v
  {
    hide NormalizeI32, Wrap64;
    if v == I32_MIN {
      LeastMagnitude();
    } else {
      WrapsToItself(v);
    }
  }

  lemma LeastMagnitude()
    ensures NormalizeI32(0x8000_0000) == I32_MIN && Wrap64(0x8000_0000) == 0x8000_0000
  {
  }

  lemma WrapsToItself(v: int)
    requires IsI32(v)
    ensures Wrap64(v) == v
  {
  }

  lemma LiteralReread(x: Rewriting, hidden: Option<string>, st: State, st': State, p: Program, q: Program, v: I32)
    requires Close(x, hidden, st, st')
    ensures ValueMatches(x, hidden, Eval(p, st, IntLiteral(v)), Eval(q, st', RereadExpr(IntLiteral(v))))
  {
    hide Close, EvalUnary, NormalizeI32;
    SameOutput(x, hidden, st, st');
    if st'.cycles >= MAX_CYCLES {
      return;
    }
    Ticked(x, hidden, st, st');
    var t, t' := Tick(st).st, Tick(st').st;
    if v < 0 {
      LiteralEval(q, t', NormalizeI32(-(v as int)));
      Earlier(x, hidden, t, t', 1);
      NegatedMagnitude(v);
    }
  }

  lemma {:induction false} BinaryReread(p: Program, q: Program, x: Rewriting, hidden: Option<string>, st: State, st': State,
                                        op: BinaryOp, left: Expr, right: Expr)
    requires ProgramSimilar(x, p, q) && Close(x, hidden, st, st') && Avoids(x.helper, hidden, Binary(op, left, right))
    requires st'.cycles < MAX_CYCLES
    ensures ValueMatches(x, hidden, Eval(p, st, Binary(op, left, right)), Eval(q, st', RereadExpr(Binary(op, left, right))))
    decreases Fuel(st), 0
  {
    hide ProgramSimilar, Close, Eval, EvalBinary;
    Ticked(x, hidden, st, st');
    var t, t' := Tick(st).st, Tick(st').st;
    BinaryEval(p, st, op, left, right);
    BinaryEval(q, st', op, RereadExpr(left), RereadExpr(right));
    RereadSame(p, q, x, hidden, t, t', left);
    var l, l' := Eval(p, t, left), Eval(q, t', RereadExpr(left));
    if l.res.Ok? && l'.res.Ok? {
      RereadSame(p, q, x, hidden, l.st, l'.st, right);
      CombinedSame(x, hidden, op, l.res.value, l.st, l'.st, Eval(p, l.st, right), Eval(q, l'.st, RereadExpr(right)));
    }
  }

  lemma {:induction false} CallReread(p: Program, q: Program, x: Rewriting, hidden: Option<string>, st: State, st': State,
                                      name: string, args: seq<Expr>)
    requires ProgramSimilar(x, p, q) && Close(x, hidden, st, st') && Avoids(x.helper, hidden, Call(name, args))
    requires st'.cycles < MAX_CYCLES
    ensures ValueMatches(x, hidden, Eval(p, st, Call(name, args)), Eval(q, st', RereadExpr(Call(name, args))))
    decreases Fuel(st), 0
  {
    hide ProgramSimilar, Close, CallFunction, EvalArgs;
    Ticked(x, hidden, st, st');
    var t, t' := Tick(st).st, Tick(st').st;
    ArgsReread(p, q, x, hidden, t, t', args);
    var vs, vs' := EvalArgs(p, t, args), EvalArgs(q, t', RereadArgs(args));
    if vs.res.Ok? && vs'.res.Ok? {
      CallSame(p, q, x, hidden, vs.st, vs'.st, name, vs.res.value);
    }
  }

  lemma {:induction false} IndexReread(p: Program, q: Program, x: Rewriting, hidden: Option<string>, st: State, st': State,
                                       name: string, index: Expr)
    requires ProgramSimilar(x, p, q) && Close(x, hidden, st, st') && Avoids(x.helper, hidden, ArrayIndex(name, index))
    requires st'.cycles < MAX_CYCLES
    ensures ValueMatches(x, hidden, Eval(p, st, ArrayIndex(name, index)), Eval(q, st', RereadExpr(ArrayIndex(name, index))))
    decreases Fuel(st), 0
  {
    hide ProgramSimilar, Close, ReadArray;
    Ticked(x, hidden, st, st');
    var t, t' := Tick(st).st, Tick(st').st;
    RereadSame(p, q, x, hidden, t, t', index);
    var i, i' := Eval(p, t, index), Eval(q, t', RereadExpr(index));
    if i.res.Ok? && i'.res.Ok? {
      SameOutput(x, hidden, i.st, i'.st);
      if i.res.value >= 0 {
        ReadArraySame(x, hidden, i.st, i'.st, name, i.res.value);
      }
    }
  }

  lemma {:induction false} ArgsReread(p: Program, q: Program, x: Rewriting, hidden: Option<string>, st: State, st': State, args: seq<Expr>)
    requires ProgramSimilar(x, p, q) && Close(x, hidden, st, st')
    requires forall i :: 0 <= i < |args| ==> Avoids(x.helper, hidden, args[i])
    ensures Matches(x, hidden, EvalArgs(p, st, args), EvalArgs(q, st', RereadArgs(args)))
    decreases Fuel(st), |args| + 2
  {
    hide ProgramSimilar, Close, Eval, RereadExpr;
    if args != [] {
      RereadSame(p, q, x, hidden, st, st', args[0]);
      var v, v' := Eval(p, st, args[0]), Eval(q, st', RereadExpr(args[0]));
      assert RereadArgs(args)[1..] == RereadArgs(args[1..]);
      if v.res.Ok? && v'.res.Ok? {
        ArgsReread(p, q, x, hidden, v.st, v'.st, args[1..]);
      }
    }
  }

  // ---------------------------------------------------------------- conditions

  /** Matching conditions: the same truth, in states side by side. */
  predicate TestMatches(x: Rewriting, hidden: Option<string>, r: Eff<int>, r': Eff<int>) {
    || AtLimit(r') || Exchanged(x, r, r')
    || (if r.res.Ok? then r'.res.Ok? && (r'.res.value == 0 <==> r.res.value == 0) && Close(x, hidden, r.st, r'.st)
        else r'.res.Fail? && r'.res.code == r.res.code && r'.st.output == r.st.output)
  }

  lemma {:induction false} TestSame(p: Program, q: Program, x: Rewriting, hidden: Option<string>, st: State, st': State, e: Expr, e': Expr)
    requires ProgramSimilar(x, p, q) && Close(x, hidden, st, st') && Avoids(x.helper, hidden, e) && TestSimilar(x, e, e')
    ensures TestMatches(x, hidden, Eval(p, st, e), Eval(q, st', e'))
    decreases Fuel(st), 2
  {
    hide ProgramSimilar, Close, Eval;
    if e' == e {
      EvalSame(p, q, x, hidden, st, st', e);
    } else if x.rereads && e' == RereadExpr(e) {
      RereadSame(p, q, x, hidden, st, st', e);
    } else {
      Earlier(x, hidden, st, st', 2);
      EvalSame(p, q, x, hidden, st, st'.(cycles := st'.cycles + 2), e);
      NotTwice(q, st', e);
    }
  }

  /** A negated condition has the opposite truth. */
  lemma {:induction false} NegatedSame(p: Program, q: Program, x: Rewriting, hidden: Option<string>, st: State, st': State, e: Expr)
    requires ProgramSimilar(x, p, q) && Close(x, hidden, st, st') && Avoids(x.helper, hidden, e)
    ensures
      var r, r' := Eval(p, st, e), Eval(q, st', NotOf(e));
      TestMatches(x, hidden, r, if r'.res.Ok? then r'.(res := Ok(BoolValue(r'.res.value == 0))) else r')
    decreases Fuel(st), 2
  {
    hide ProgramSimilar, Close, Eval;
    Earlier(x, hidden, st, st', 1);
    EvalSame(p, q, x, hidden, st, st'.(cycles := st'.cycles + 1), e);
    NotOnce(q, st', e);
  }

  // ---------------------------------------------------------------- statements

  lemma {:induction false} BlockSame(p: Program, q: Program, x: Rewriting, hidden: Option<string>, st: State, st': State,
                                     stmts: seq<Stmt>, stmts': seq<Stmt>)
    requires ProgramSimilar(x, p, q) && Close(x, hidden, st, st') && st.frames != []
    requires BlockSimilar(x, stmts, stmts') && BlockAvoids(x.helper, hidden, stmts)
    ensures Matches(x, hidden, ExecBlock(p, st, stmts), ExecBlock(q, st', stmts'))
    decreases Fuel(st), |stmts| + 3
  {
    hide ProgramSimilar, Close, ExecStmt, StmtSimilar, StmtAvoids, CanReorder;
    if stmts == [] {
      NothingRuns(p, st);
      NothingRuns(q, st');
    } else if StmtSimilar(x, stmts[0], stmts'[0]) && BlockSimilar(x, stmts[1..], stmts'[1..]) {
      StmtSame(p, q, x, hidden, st, st', stmts[0], stmts'[0]);
      var s, s' := ExecStmt(p, st, stmts[0]), ExecStmt(q, st', stmts'[0]);
      if s.res.Ok? && s'.res.Ok? && s.res.value.Continue? && s'.res.value.Continue? {
        BlockSame(p, q, x, hidden, s.st, s'.st, stmts[1..], stmts'[1..]);
      }
    } else {
      assert stmts[1..][1..] == stmts[2..] && stmts[..2] == [stmts[0], stmts[1]];
      AvoidsTwo(x, hidden, stmts);
      PairSame(p, q, x, hidden, st, st', stmts[0], stmts[1]);
      TwoThenRest(p, st, stmts);
      TwoThenRest(q, st', stmts');
      var s, s' := ExecBlock(p, st, stmts[..2]), ExecBlock(q, st', stmts'[..2]);
      if s.res.Ok? && s'.res.Ok? && s.res.value.Continue? && s'.res.value.Continue? {
        BlockSame(p, q, x, hidden, s.st, s'.st, stmts[2..], stmts'[2..]);
      }
    }
  }

  lemma NothingRuns(q: Program, st: State)
    ensures ExecBlock(q, st, []) == Eff(st, Ok(Continue))
  {
  }

  lemma AvoidsTwo(x: Rewriting, hidden: Option<string>, stmts: seq<Stmt>)
    requires |stmts| >= 2 && BlockAvoids(x.helper, hidden, stmts)
    ensures StmtAvoids(x.helper, hidden, stmts[0]) && StmtAvoids(x.helper, hidden, stmts[1])
    ensures BlockAvoids(x.helper, hidden, stmts[2..])
  {
    assert stmts[1..][1..] == stmts[2..] && stmts[1..][0] == stmts[1];
  }

  /** Two exchanged constant writes. */
  lemma PairSame(p: Program, q: Program, x: Rewriting, hidden: Option<string>, st: State, st': State, a: Stmt, b: Stmt)
    requires Close(x, hidden, st, st') && st.frames != [] && x.swaps && CanReorder(a, b)
    requires StmtAvoids(x.helper, hidden, a) && StmtAvoids(x.helper, hidden, b)
    ensures Matches(x, hidden, ExecBlock(p, st, [a, b]), ExecBlock(q, st', [b, a]))
    ensures var r := ExecBlock(p, st, [a, b]); r.res.Ok? ==> r.st.cycles > st.cycles && r.st.frames != []
  {
    hide Close, ExecBlock, ExecStmt, ConstantWrite;
    SameOutput(x, hidden, st, st');
    WritesAvoid(x, hidden, a);
    WritesAvoid(x, hidden, b);
    R.WritesCommute(p, st, a, b);
    R.PairRuns(p, st, a, b);
    R.PairRuns(p, st, b, a);
    R.PairRuns(q, st', b, a);
    R.WriteSame(p, q, x, hidden, st, st', b);
    var s, s' := ExecStmt(p, st, b), ExecStmt(q, st', b);
    R.OneRuns(p, ExecStmt(p, st, a).st, b);
    R.OneRuns(p, s.st, a);
    R.OneRuns(q, s'.st, a);
    if s.res.Ok? && s'.res.Ok? {
      R.WriteSame(p, q, x, hidden, s.st, s'.st, a);
      OutputKept(x, hidden, st, st', ExecBlock(p, st, [b, a]), ExecBlock(q, st', [b, a]));
    }
  }

  lemma OutputKept(x: Rewriting, hidden: Option<string>, st: State, st': State, r: Eff<Control>, r': Eff<Control>)
    ensures Agree(x, hidden, r, r') && r.res.Ok? ==> r'.st.output == r.st.output
  {
  }

  lemma WritesAvoid(x: Rewriting, hidden: Option<string>, s: Stmt)
    requires ConstantWrite(s).Some? && StmtAvoids(x.helper, hidden, s)
    ensures ConstantWrite(s) != hidden
  {
  }

  lemma {:induction false} StmtSame(p: Program, q: Program, x: Rewriting, hidden: Option<string>, st: State, st': State, s: Stmt, s': Stmt)
    requires ProgramSimilar(x, p, q) && Close(x, hidden, st, st') && st.frames != []
    requires StmtSimilar(x, s, s') && StmtAvoids(x.helper, hidden, s)
    ensures Matches(x, hidden, ExecStmt(p, st, s), ExecStmt(q, st', s'))
    decreases Fuel(st), 0
  {
    hide ProgramSimilar, Close, Eval, ExecDecl, ExecAssign, ExecWhile, ExecBlock, BlockSimilar, BlockAvoids, Avoids, ValueSimilar, TestSimilar;
    if st'.cycles >= MAX_CYCLES {
      return;
    }
    Ticked(x, hidden, st, st');
    var t, t' := Tick(st).st, Tick(st').st;
    match s {
      case VarDecl(_, name, init, size) => DeclStmtSame(p, q, x, hidden, t, t', name, init, s'.init, size);
      case Assign(target, index, value) => AssignStmtSame(p, q, x, hidden, t, t', target, index, s'.indexExpr, value, s'.value);
      case If(_, _, _) =>
        IfRuns(p, st, s);
        IfRuns(q, st', s');
        IfSame(p, q, x, hidden, t, t', s, s');
      case While(condition, body) => WhileSame(p, q, x, hidden, t, t', condition, s'.condition, body, s'.body);
      case Return(value) => WrappedSame(p, q, x, hidden, t, t', value, s'.value);
      case Print(value) =>
        WrappedSame(p, q, x, hidden, t, t', value, s'.value);
        var v, v' := Eval(p, t, value), Eval(q, t', s'.value);
        if v.res.Ok? && v'.res.Ok? && Close(x, hidden, v.st, v'.st) {
          PrintedSame(x, hidden, v.st, v'.st, v.res.value);
        }
      case ExprStmt(e) => WrappedSame(p, q, x, hidden, t, t', e, s'.expr);
    }
  }

  lemma PrintedSame(x: Rewriting, hidden: Option<string>, st: State, st': State, value: int)
    requires Close(x, hidden, st, st')
    ensures Close(x, hidden, st.(output := st.output + [value]), st'.(output := st'.output + [value]))
  {
  }

  /** A conditional after its first cycle. */
  function Branch(p: Program, c: Eff<int>, thenBody: seq<Stmt>, elseStmts: seq<Stmt>): Eff<Control> {
    if c.res.Fail? then Failed(c) else ExecBlock(p, c.st, if c.res.value != 0 then thenBody else elseStmts)
  }

  lemma IfRuns(p: Program, st: State, s: Stmt)
    requires s.If? && Tick(st).res.Ok?
    ensures ExecStmt(p, st, s) == Branch(p, Eval(p, Tick(st).st, s.condition), s.thenBody, ElseStmts(s.elseBody))
  {
    var c := Eval(p, Tick(st).st, s.condition);
    NothingRuns(p, c.st);
  }

  lemma {:induction false} IfSame(p: Program, q: Program, x: Rewriting, hidden: Option<string>, st: State, st': State, s: Stmt, s': Stmt)
    requires ProgramSimilar(x, p, q) && Close(x, hidden, st, st') && st.frames != []
    requires s.If? && StmtSimilar(x, s, s') && StmtAvoids(x.helper, hidden, s)
    ensures Matches(x, hidden, Branch(p, Eval(p, st, s.condition), s.thenBody, ElseStmts(s.elseBody)),
                    Branch(q, Eval(q, st', s'.condition), s'.thenBody, ElseStmts(s'.elseBody)))
    decreases Fuel(st), 3
  {
    hide ProgramSimilar, Close, Eval, ExecBlock;
    IfParts(x, hidden, s, s');
    var c, c' := Eval(p, st, s.condition), Eval(q, st', s'.condition);
    var thenBody, elseStmts := s.thenBody, ElseStmts(s.elseBody);
    var swapped := s'.condition == NotOf(s.condition);
    if swapped {
      NegatedSame(p, q, x, hidden, st, st', s.condition);
    } else {
      TestSame(p, q, x, hidden, st, st', s.condition, s'.condition);
    }
    if c.res.Ok? && c'.res.Ok? {
      if c.res.value != 0 {
        BlockSame(p, q, x, hidden, c.st, c'.st, thenBody, if swapped then ElseStmts(s'.elseBody) else s'.thenBody);
      } else {
        BlockSame(p, q, x, hidden, c.st, c'.st, elseStmts, if swapped then s'.thenBody else ElseStmts(s'.elseBody));
      }
    }
  }

  lemma IfParts(x: Rewriting, hidden: Option<string>, s: Stmt, s': Stmt)
    requires s.If? && StmtSimilar(x, s, s') && StmtAvoids(x.helper, hidden, s)
    ensures s'.If? && Avoids(x.helper, hidden, s.condition)
    ensures BlockAvoids(x.helper, hidden, s.thenBody) && BlockAvoids(x.helper, hidden, ElseStmts(s.elseBody))
    ensures var swapped := s'.condition == NotOf(s.condition);
      && (!swapped ==> TestSimilar(x, s.condition, s'.condition))
      && BlockSimilar(x, s.thenBody, if swapped then ElseStmts(s'.elseBody) else s'.thenBody)
      && BlockSimilar(x, ElseStmts(s.elseBody), if swapped then s'.thenBody else ElseStmts(s'.elseBody))
  {
    assert BlockSimilar(x, [], []) && BlockAvoids(x.helper, hidden, []);
  }

  /** A loop after its condition. */
  function Looped(p: Program, c: Eff<int>, condition: Expr, body: seq<Stmt>): Eff<Control> {
    if c.res.Fail? then Failed(c)
    else if c.res.value == 0 then Eff(c.st, Ok(Continue))
    else
      var b := ExecBlock(p, c.st, body);
      if b.res.Fail? || b.res.value.ReturnValue? then b else ExecWhile(p, b.st, condition, body)
  }

  lemma WhileRuns(p: Program, st: State, condition: Expr, body: seq<Stmt>)
    ensures ExecWhile(p, st, condition, body) == Looped(p, Eval(p, st, condition), condition, body)
  {
    hide ExecBlock, Eval;
  }

  lemma {:induction false} WhileSame(p: Program, q: Program, x: Rewriting, hidden: Option<string>, st: State, st': State,
                                     condition: Expr, condition': Expr, body: seq<Stmt>, body': seq<Stmt>)
    requires ProgramSimilar(x, p, q) && Close(x, hidden, st, st') && st.frames != []
    requires Avoids(x.helper, hidden, condition) && TestSimilar(x, condition, condition')
    requires BlockSimilar(x, body, body') && BlockAvoids(x.helper, hidden, body)
    ensures Matches(x, hidden, ExecWhile(p, st, condition, body), ExecWhile(q, st', condition', body'))
    decreases Fuel(st), 3
  {
    hide ProgramSimilar, Close, Eval, ExecWhile, ExecBlock, BlockSimilar, BlockAvoids, Avoids, TestSimilar;
    WhileRuns(p, st, condition, body);
    WhileRuns(q, st', condition', body');
    TestSame(p, q, x, hidden, st, st', condition, condition');
    var c, c' := Eval(p, st, condition), Eval(q, st', condition');
    if c.res.Ok? && c'.res.Ok? && c.res.value != 0 && c'.res.value != 0 {
      BlockSame(p, q, x, hidden, c.st, c'.st, body, body');
      var b, b' := ExecBlock(p, c.st, body), ExecBlock(q, c'.st, body');
      if b.res.Ok? && b'.res.Ok? && b.res.value.Continue? && b'.res.value.Continue? {
        WhileSame(p, q, x, hidden, b.st, b'.st, condition, condition', body, body');
      }
    }
  }

  lemma {:induction false} DeclStmtSame(p: Program, q: Program, x: Rewriting, hidden: Option<string>, st: State, st': State,
                                        name: string, init: Option<Expr>, init': Option<Expr>, size: Option<I32>)
    requires ProgramSimilar(x, p, q) && Close(x, hidden, st, st') && hidden != Some(name)
    requires (size.None? ==> OptSimilar(x, init, init')) && OptAvoids(x.helper, hidden, init)
    ensures Matches(x, hidden, ExecDecl(p, st, name, init, size), ExecDecl(q, st', name, init', size))
    decreases Fuel(st), 4
  {
    hide ProgramSimilar, Close, Eval, AssignScalar, DeclareScalar, DeclareOrUpdate, ValueSimilar, Avoids;
    if size.Some? {
      DeclareOrUpdateSame(x, hidden, st, st', name, Array(Zeros(size.value)));
    } else {
      DeclareSame(x, hidden, st, st', name);
      DeclareKeeps(st, name);
      DeclareKeeps(st', name);
      var d, d' := DeclareScalar(st, name), DeclareScalar(st', name);
      if d.res.Ok? && d'.res.Ok? && init.Some? {
        WrappedSame(p, q, x, hidden, d.st, d'.st, init.value, init'.value);
        var v, v' := Eval(p, d.st, init.value), Eval(q, d'.st, init'.value);
        if v.res.Ok? && v'.res.Ok? && Close(x, hidden, v.st, v'.st) {
          AssignSame(x, hidden, v.st, v'.st, name, v.res.value);
        }
      }
    }
  }

  lemma DeclareKeeps(st: State, name: string)
    ensures var d := DeclareScalar(st, name); d.st.cycles == st.cycles && d.st.output == st.output && Fuel(d.st) == Fuel(st)
    ensures var d := DeclareScalar(st, name); d.res.Fail? ==> !AtLimit(d)
  {
  }

  lemma {:induction false} AssignStmtSame(p: Program, q: Program, x: Rewriting, hidden: Option<string>, st: State, st': State,
                                          target: string, index: Option<Expr>, index': Option<Expr>, value: Expr, value': Expr)
    requires ProgramSimilar(x, p, q) && Close(x, hidden, st, st') && hidden != Some(target)
    requires OptSimilar(x, index, index') && OptAvoids(x.helper, hidden, index)
    requires ValueSimilar(x, value, value') && Avoids(x.helper, hidden, value)
    ensures Matches(x, hidden, ExecAssign(p, st, target, index, value), ExecAssign(q, st', target, index', value'))
    decreases Fuel(st), 5
  {
    hide ProgramSimilar, Close, ExecAssign, ValueSimilar, Avoids;
    if index.Some? {
      ElementSame(p, q, x, hidden, st, st', target, index.value, index'.value, value, value');
    } else {
      ScalarSame(p, q, x, hidden, st, st', target, value, value');
    }
  }

  /** A store into a scalar after its value. */
  function Set(v: Eff<int>, target: string): Eff<Control> {
    if v.res.Fail? then Failed(v) else Done(AssignScalar(v.st, target, v.res.value))
  }

  lemma SetRuns(p: Program, st: State, target: string, value: Expr)
    ensures ExecAssign(p, st, target, None, value) == Set(Eval(p, st, value), target)
  {
    hide Eval;
  }

  lemma {:induction false} ScalarSame(p: Program, q: Program, x: Rewriting, hidden: Option<string>, st: State, st': State,
                                      target: string, value: Expr, value': Expr)
    requires ProgramSimilar(x, p, q) && Close(x, hidden, st, st') && hidden != Some(target)
    requires ValueSimilar(x, value, value') && Avoids(x.helper, hidden, value)
    ensures Matches(x, hidden, ExecAssign(p, st, target, None, value), ExecAssign(q, st', target, None, value'))
    decreases Fuel(st), 4
  {
    hide ProgramSimilar, Close, Eval, ExecAssign, AssignScalar, ValueSimilar, Avoids;
    SetRuns(p, st, target, value);
    SetRuns(q, st', target, value');
    WrappedSame(p, q, x, hidden, st, st', value, value');
    var v, v' := Eval(p, st, value), Eval(q, st', value');
    if v.res.Ok? && v'.res.Ok? && Close(x, hidden, v.st, v'.st) {
      AssignSame(x, hidden, v.st, v'.st, target, v.res.value);
    }
  }

  /** A store into an array after its index. */
  function Stored(p: Program, i: Eff<int>, target: string, value: Expr): Eff<Control> {
    if i.res.Fail? then Failed(i)
    else
      var v := Eval(p, i.st, value);
      if i.res.value < 0 then Eff(i.st, Fail(ArrayOutOfBounds, BeforeStoredValue(Preview(i.st, v))))
      else if v.res.Fail? then Failed(v)
      else Done(AssignArray(v.st, target, i.res.value, v.res.value))
  }

  lemma StoreRuns(p: Program, st: State, target: string, index: Expr, value: Expr)
    ensures ExecAssign(p, st, target, Some(index), value) == Stored(p, Eval(p, st, index), target, value)
  {
    hide Eval;
  }

  lemma {:induction false} ElementSame(p: Program, q: Program, x: Rewriting, hidden: Option<string>, st: State, st': State,
                                       target: string, index: Expr, index': Expr, value: Expr, value': Expr)
    requires ProgramSimilar(x, p, q) && Close(x, hidden, st, st') && hidden != Some(target)
    requires ValueSimilar(x, index, index') && Avoids(x.helper, hidden, index)
    requires ValueSimilar(x, value, value') && Avoids(x.helper, hidden, value)
    ensures Matches(x, hidden, ExecAssign(p, st, target, Some(index), value), ExecAssign(q, st', target, Some(index'), value'))
    decreases Fuel(st), 4
  {
    hide ProgramSimilar, Close, Eval, ExecAssign, AssignArray, ValueSimilar, Avoids, Preview;
    StoreRuns(p, st, target, index, value);
    StoreRuns(q, st', target, index', value');
    WrappedSame(p, q, x, hidden, st, st', index, index');
    var i, i' := Eval(p, st, index), Eval(q, st', index');
    if i.res.Ok? && i'.res.Ok? && Close(x, hidden, i.st, i'.st) {
      SameOutput(x, hidden, i.st, i'.st);
      WrappedSame(p, q, x, hidden, i.st, i'.st, value, value');
      var v, v' := Eval(p, i.st, value), Eval(q, i'.st, value');
      if v.res.Ok? && v'.res.Ok? && Close(x, hidden, v.st, v'.st) && i.res.value >= 0 {
        AssignArraySame(x, hidden, v.st, v'.st, target, i.res.value, v.res.value);
      }
    }
  }

  // ---------------------------------------------------------------- programs

  lemma {:induction false} InitSame(p: Program, q: Program, x: Rewriting, st: State, st': State, globals: seq<GlobalVar>, globals': seq<GlobalVar>)
    requires ProgramSimilar(x, p, q) && Close(x, None, st, st')
    requires |globals'| == |globals| && forall i :: 0 <= i < |globals| ==> GlobalSimilar(x, globals[i], globals'[i])
    ensures Matches(x, None, InitializeGlobals(p, st, globals), InitializeGlobals(q, st', globals'))
    decreases |globals|
  {
    hide ProgramSimilar, Close, Eval, AssignGlobalScalar, ValueSimilar, Avoids;
    if globals == [] {
      return;
    }
    var g, g' := globals[0], globals'[0];
    assert GlobalSimilar(x, g, g');
    if g.init.None? {
      InitSame(p, q, x, st, st', globals[1..], globals'[1..]);
      return;
    }
    WrappedSame(p, q, x, None, st, st', g.init.value, g'.init.value);
    var v, v' := Eval(p, st, g.init.value), Eval(q, st', g'.init.value);
    if v.res.Ok? && v'.res.Ok? && Close(x, None, v.st, v'.st) {
      AssignGlobalSame(x, v.st, v'.st, g.name, v.res.value);
      var a, a' := AssignGlobalScalar(v.st, g.name, v.res.value), AssignGlobalScalar(v'.st, g.name, v.res.value);
      if a.res.Ok? && a'.res.Ok? {
        InitSame(p, q, x, a.st, a'.st, globals[1..], globals'[1..]);
      }
    }
  }

  lemma AssignGlobalSame(x: Rewriting, st: State, st': State, name: string, value: int)
    requires Close(x, None, st, st')
    ensures
      var a, a' := AssignGlobalScalar(st, name, value), AssignGlobalScalar(st', name, value);
      Agree(x, None, a, a') && (a.res.Fail? ==> !AtLimit(a))
  {
    hide NormalizeI32;
  }

  lemma {:induction false} InitialSame(x: Rewriting, globals: seq<GlobalVar>, globals': seq<GlobalVar>)
    requires |globals'| == |globals| && forall i :: 0 <= i < |globals| ==> GlobalSimilar(x, globals[i], globals'[i])
    ensures InitialGlobals(globals') == InitialGlobals(globals) && Sane(InitialGlobals(globals))
    ensures x.hidden.Some? ==> x.hidden.value !in InitialGlobals(globals)
  {
    hide OptSimilar, OptAvoids;
    if globals != [] {
      var m := |globals| - 1;
      assert GlobalSimilar(x, globals[m], globals'[m]);
      InitialSame(x, globals[..m], globals'[..m]);
    }
  }

  /** Similar programs have the same outcome, unless the rewritten one meets a limit. */
  lemma RunSame(p: Program, q: Program, x: Rewriting)
    requires ProgramSimilar(x, p, q) && x.helper != Some("main")
    ensures AtLimit(RunEffect(q)) || Exchanged(x, RunEffect(p), RunEffect(q)) || Run(q) == Run(p)
  {
    hide ProgramSimilar, Close, InitializeGlobals, CallFunction;
    GlobalsSimilar(p, q, x);
    InitialSame(x, p.globals, q.globals);
    Started(p, q, x);
    InitSame(p, q, x, Start(p), Start(q), p.globals, q.globals);
    var g, g' := InitializeGlobals(p, Start(p), p.globals), InitializeGlobals(q, Start(q), q.globals);
    if g.res.Ok? && g'.res.Ok? && Close(x, None, g.st, g'.st) {
      CallSame(p, q, x, None, g.st, g'.st, "main", []);
      var r, r' := CallFunction(p, g.st, "main", []), CallFunction(q, g'.st, "main", []);
      if r.res.Ok? && r'.res.Ok? && Close(x, None, r.st, r'.st) {
        SameOutput(x, None, r.st, r'.st);
      }
    }
  }

  lemma GlobalsSimilar(p: Program, q: Program, x: Rewriting)
    requires ProgramSimilar(x, p, q)
    ensures |q.globals| == |p.globals| && forall i :: 0 <= i < |p.globals| ==> GlobalSimilar(x, p.globals[i], q.globals[i])
  {
  }

  lemma Started(p: Program, q: Program, x: Rewriting)
    requires InitialGlobals(q.globals) == InitialGlobals(p.globals) && Sane(InitialGlobals(p.globals))
    requires x.hidden.Some? ==> x.hidden.value !in InitialGlobals(p.globals)
    ensures Close(x, None, Start(p), Start(q))
  {
  }
}
