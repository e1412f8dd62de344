/** Laws of the oracle's language, said about states and outcomes: what a write leaves, which way control goes, what a call sees. */
module OracleLaws {
  import opened Common
  import opened Int32
  import opened Limits
  import opened Ast
  import O = Oracle
  import Sema
  import Typing

  // ---------------------------------------------------------------- memory

  /** What a name refers to in a state: its slot in the running call, or else in the globals. */
  ghost predicate Refers(st: O.State, name: string, slot: O.Slot) {
    if st.frames != [] && name in st.frames[|st.frames| - 1] then st.frames[|st.frames| - 1][name] == slot
    else name in st.globals && st.globals[name] == slot
  }

  /** Only what this name refers to may differ, and no suspended call is touched. */
  ghost predicate OnlyWrites(st: O.State, name: string, st': O.State) {
    && (forall other: string, slot :: other != name ==> (Refers(st, other, slot) <==> Refers(st', other, slot)))
    && |st'.frames| == |st.frames|
    && (forall i :: 0 <= i < |st.frames| - 1 ==> st'.frames[i] == st.frames[i])
    && st'.output == st.output && st'.cycles == st.cycles
  }

  lemma SlotUpdated(st: O.State, name: string, slot: O.Slot)
    requires O.LookupSlot(st, name).Some?
    ensures var st' := O.UpdateSlot(st, name, slot); OnlyWrites(st, name, st') && Refers(st', name, slot)
  {
  }

  /** A scalar is assigned exactly when there is one of that name, and then holds the narrowed value. */
  lemma ScalarWritten(st: O.State, name: string, value: int)
    ensures var r := O.AssignScalar(st, name, value);
      && (r.res.Ok? <==> exists content :: Refers(st, name, O.Scalar(content)))
      && (r.res.Ok? ==> OnlyWrites(st, name, r.st) && Refers(r.st, name, O.Scalar(Some(NormalizeI32(value)))))
      && (r.res.Fail? ==> r.st == st && r.res.code == InvalidInstruction)
  {
    hide O.UpdateSlot, OnlyWrites, NormalizeI32;
    if O.LookupSlot(st, name).Some? {
      SlotUpdated(st, name, O.Scalar(Some(NormalizeI32(value))));
    }
  }

  /** An element is assigned exactly when the array is long enough, and then only that element changes. */
  lemma ElementWritten(st: O.State, name: string, values: seq<int>, index: nat, value: int)
    requires Refers(st, name, O.Array(values))
    ensures var r := O.AssignArray(st, name, index, value);
      if index >= |values| then r == O.Trap(st, ArrayOutOfBounds)
      else r.res.Ok? && OnlyWrites(st, name, r.st) && Refers(r.st, name, O.Array(values[index := NormalizeI32(value)]))
  {
    hide O.UpdateSlot, OnlyWrites, NormalizeI32;
    if index < |values| {
      SlotUpdated(st, name, O.Array(values[index := NormalizeI32(value)]));
    }
  }

  /** Reading finds what is there, element by element. */
  lemma ReadsWhatIsThere(st: O.State, name: string, index: nat)
    ensures forall v :: O.ReadScalar(st, name) == O.Ok(v) <==> Refers(st, name, O.Scalar(Some(v)))
    ensures O.ReadScalar(st, name) == O.Fail(UndefinedLocal, O.Elsewhere) <==> Refers(st, name, O.Scalar(None))
    ensures forall v :: O.ReadArray(st, name, index) == O.Ok(v) <==>
      exists values :: Refers(st, name, O.Array(values)) && index < |values| && values[index] == v
    ensures O.ReadArray(st, name, index) == O.Fail(ArrayOutOfBounds, O.Elsewhere) <==>
      exists values :: Refers(st, name, O.Array(values)) && index >= |values|
  {
    match O.LookupSlot(st, name) {
      case Some(Array(values)) => assert Refers(st, name, O.Array(values));
      case Some(Scalar(content)) => assert Refers(st, name, O.Scalar(content));
      case None =>
    }
  }

  // ---------------------------------------------------------------- control

  /** A loop that ends without returning has just found its condition to be zero. */
  lemma {:induction false} LoopsEndOnZero(p: Program, st: O.State, condition: Expr, body: seq<Stmt>)
    requires O.ExecWhile(p, st, condition, body).res == O.Ok(O.Continue)
    ensures exists last: O.State :: O.Eval(p, last, condition) == O.Eff(O.ExecWhile(p, st, condition, body).st, O.Ok(0))
    decreases O.Fuel(st)
  {
    hide O.Eval, O.ExecBlock;
    var c := O.Eval(p, st, condition);
    if c.res.value != 0 {
      LoopsEndOnZero(p, O.ExecBlock(p, c.st, body).st, condition, body);
    }
  }

  /** A conditional does what the branch chosen by its condition does. */
  lemma BranchesFollowConditions(p: Program, st: O.State, condition: Expr, thenBody: seq<Stmt>, elseBody: seq<Stmt>)
    requires O.Tick(st).res.Ok?
    ensures var c := O.Eval(p, O.Tick(st).st, condition);
      c.res.Ok? ==>
        O.ExecStmt(p, st, If(condition, thenBody, Else(elseBody))) == O.ExecBlock(p, c.st, if c.res.value == 0 then elseBody else thenBody)
    ensures O.ExecStmt(p, st, If(condition, thenBody, NoElse)) == O.ExecStmt(p, st, If(condition, thenBody, Else([])))
  {
    hide O.Eval;
  }

  /** The second operand is evaluated only when the first leaves the value open, and values are 0 or 1. */
  lemma SecondOperandsAreSkipped(p: Program, st: O.State, left: Expr, right: Expr)
    requires O.Tick(st).res.Ok? && O.Eval(p, O.Tick(st).st, left).res.Ok?
    ensures var l := O.Eval(p, O.Tick(st).st, left);
      var r, both, either := O.Eval(p, l.st, right), O.Eval(p, st, Binary(And, left, right)), O.Eval(p, st, Binary(Or, left, right));
      && (l.res.value == 0 ==> both == O.Eff(l.st, O.Ok(0)))
      && (l.res.value != 0 ==> either == O.Eff(l.st, O.Ok(1)))
      && (l.res.value != 0 ==> both.st == r.st && (r.res.Ok? ==> both.res == O.Ok(if r.res.value == 0 then 0 else 1)))
      && (l.res.value == 0 ==> either.st == r.st && (r.res.Ok? ==> either.res == O.Ok(if r.res.value == 0 then 0 else 1)))
  {
    hide O.EvalBinary;
  }

  /** Printing appends the value to the output and changes nothing else. */
  lemma PrintsAppend(p: Program, st: O.State, value: Expr)
    requires O.ExecStmt(p, st, Stmt.Print(value)).res.Ok?
    ensures var v, after := O.Eval(p, O.Tick(st).st, value), O.ExecStmt(p, st, Stmt.Print(value));
      v.res.Ok? && after == O.Eff(v.st.(output := v.st.output + [v.res.value]), O.Ok(O.Continue))
  {
    hide O.Eval;
  }

  // ---------------------------------------------------------------- calls

  predicate NamesApart(params: seq<Param>) {
    forall i, j :: 0 <= i < j < |params| ==> params[i].name != params[j].name
  }

  /** A call's scope holds each parameter with its argument, narrowed, and nothing else. */
  lemma {:induction false} ArgumentsAreBound(params: seq<Param>, args: seq<int>)
    requires |params| == |args| && NamesApart(params)
    ensures var scope := O.BindParams(params, args);
      && (forall i :: 0 <= i < |params| ==> params[i].name in scope && scope[params[i].name] == O.Scalar(Some(NormalizeI32(args[i]))))
      && scope.Keys == Sema.ParamNames(params)
  {
    hide NormalizeI32, Sema.ParamNames;
    if params == [] {
      NoNames();
    } else {
      var n := |params| - 1;
      ArgumentsAreBound(params[..n], args[..n]);
      Typing.NamesOfMore(params);
      assert forall i :: 0 <= i < n ==> params[..n][i] == params[i] && args[..n][i] == args[i];
    }
  }

  lemma NoNames()
    ensures Sema.ParamNames([]) == {}
  {
  }

  /** A call runs the body of the last function of that name over its arguments and the globals alone, and returns an i32. */
  lemma CallsRunTheirBody(p: Program, st: O.State, name: string, args: seq<int>, f: nat)
    requires st.cycles < MAX_CYCLES && |st.frames| < MAX_FRAMES
    requires f < |p.functions| && p.functions[f].name == name && forall i :: f < i < |p.functions| ==> p.functions[i].name != name
    ensures var r, function' := O.CallFunction(p, st, name, args), p.functions[f];
      if |args| != |function'.params| then r == O.Trap(st.(cycles := st.cycles + 1), InvalidInstruction)
      else
        var b := O.ExecBlock(p, st.(cycles := st.cycles + 1, frames := st.frames + [O.BindParams(function'.params, args)]), function'.body);
        if b.res.Fail? then r.st == b.st && r.res == O.Fail(b.res.code, b.res.site)
        else r.st == b.st.(frames := st.frames) && r.res == O.Ok(NormalizeI32(if b.res.value.ReturnValue? then b.res.value.value else 0))
  {
    hide O.ExecBlock, O.FindFunction, NormalizeI32, O.BindParams;
    LastIsFound(p.functions, name, f);
    if |args| == |p.functions[f].params| {
      var b := O.ExecBlock(p, st.(cycles := st.cycles + 1, frames := st.frames + [O.BindParams(p.functions[f].params, args)]), p.functions[f].body);
      if b.res.Ok? {
        assert b.st.frames[..|b.st.frames| - 1] == st.frames;
      }
    }
  }

  lemma {:induction false} LastIsFound(functions: seq<Function>, name: string, f: nat)
    requires f < |functions| && functions[f].name == name && forall i :: f < i < |functions| ==> functions[i].name != name
    ensures O.FindFunction(functions, name) == Some(f)
  {
    if f < |functions| - 1 {
      LastIsFound(functions[..|functions| - 1], name, f);
    }
  }

  /** Before the first initializer, arrays hold zeros and scalars are zero. */
  lemma {:induction false} GlobalsStartAtZero(globals: seq<GlobalVar>, g: nat)
    requires g < |globals| && forall i :: g < i < |globals| ==> globals[i].name != globals[g].name
    ensures var scope := O.InitialGlobals(globals);
      && globals[g].name in scope
      && (globals[g].size.None? ==> scope[globals[g].name] == O.Scalar(Some(0)))
      && (globals[g].size.Some? && globals[g].size.value >= 0 ==>
            exists values :: scope[globals[g].name] == O.Array(values) && |values| == globals[g].size.value && forall v <- values :: v == 0)
  {
    var m := |globals| - 1;
    if g < m {
      GlobalsStartAtZero(globals[..m], g);
    } else if globals[g].size.Some? {
      var values := O.Zeros(globals[g].size.value);
      assert O.InitialGlobals(globals)[globals[g].name] == O.Array(values);
    }
  }
}
