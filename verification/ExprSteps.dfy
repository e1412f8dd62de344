/** Single pieces of expression code, from the machine's side. */
module ExprSteps {
  import opened Common
  import opened Int32
  import opened Limits
  import opened Ast
  import opened Bytecode
  import opened CodeGen
  import opened Simulation
  import O = Oracle
  import M = Machine

  /** The run gets from s to s', which corresponds to the oracle state st, inside the same activation. */
  ghost predicate Reaches(x: Link, a: Act, st: O.State, s: M.State, s': M.State) {
    && Goes(x.c, s, s')
    && (Cut(x.c, s') ==> Cut(x.c, s))
    && Match(x, a, st, s')
    && s'.calls == s.calls
    && Spares(a, s.locals, s'.locals)
  }

  lemma Chain(x: Link, a: Act, st1: O.State, st2: O.State, s: M.State, s1: M.State, s2: M.State)
    requires Reaches(x, a, st1, s, s1) && Reaches(x, a, st2, s1, s2)
    ensures Reaches(x, a, st2, s, s2)
  {
    hide M.RunFrom, Match;
    forall i | 0 <= i < a.base && i < |s.locals| ensures s2.locals[i] == s.locals[i] {
      assert s1.locals[i] == s.locals[i];
    }
    forall i | MAX_LOCAL_SLOTS <= i < a.floor ensures s2.locals[i] == s.locals[i] {
      assert s1.locals[i] == s.locals[i];
    }
  }

  lemma FailChain(x: Link, s: M.State, s1: M.State, code: TrapCode, site: O.Site, output: seq<int>)
    requires Goes(x.c, s, s1) && Fails(x.c, s1, code, site, output)
    ensures Fails(x.c, s, code, site, output)
  {
    hide M.RunFrom;
  }

  /** The state after an instruction that leaves this operand stack. */
  function Then(s: M.State, stack: seq<int>): M.State {
    Tock(s).(stack := stack, pc := s.pc + 1)
  }

  /** States that differ only in stack, pc and cycles correspond to the same oracle state. */
  lemma SameMemory(x: Link, a: Act, st: O.State, s: M.State, s': M.State)
    requires Match(x, a, st, s)
    requires s'.locals == s.locals && s'.globals == s.globals && s'.calls == s.calls && s'.output == s.output
    ensures Match(x, a, st, s') && Spares(a, s.locals, s'.locals) && s.calls != []
  {
  }

  lemma StackStep(x: Link, a: Act, st: O.State, s: M.State, e: M.Step, stack: seq<int>)
    requires Match(x, a, st, s) && Runs(x.c, s, e)
    requires e == M.Advance(Tock(s).(stack := stack)) || (e.Trapped? && e.code == StackOverflow)
    ensures Reaches(x, a, st, s, Then(s, stack))
  {
    hide M.RunFrom, Runs;
    SameMemory(x, a, st, s, Then(s, stack));
    Advances(x.c, s, e, Tock(s).(stack := stack));
  }

  lemma ConstStep(x: Link, a: Act, st: O.State, s: M.State, v: I32)
    requires Match(x, a, st, s) && CodeAt(x.c, s.pc, [Ins(LoadConst, v, 0)])
    ensures Reaches(x, a, st, s, Then(s, s.stack + [v]))
  {
    hide M.RunFrom, Runs, Match;
    FetchConst(x.c, s, v);
    StackStep(x, a, st, s, M.Push(Tock(s), v), s.stack + [v]);
  }

  // ---------------------------------------------------------------- reads

  lemma LocalFacts(x: Link, a: Act, st: O.State, s: M.State, name: string)
    requires Match(x, a, st, s) && name in a.full.locals
    ensures var v := a.full.locals[name];
      && LocalMatches(v, O.Top(st), name, s.locals, a.base, a.floor)
      && M.LocalSlot(x.c, Tock(s), v.slot) == M.At(a.base + v.slot)
      && a.base + v.slot < MAX_LOCAL_SLOTS <= |s.locals| && v.arraySize <= I32_MAX
      && s.output == st.output
  {
  }

  lemma GlobalFacts(x: Link, a: Act, st: O.State, s: M.State, name: string)
    requires Match(x, a, st, s) && name in x.n.globals
    ensures var g := x.n.globals[name];
      && name in st.globals && GlobalMatches(g, st.globals[name], s.globals) && |s.globals| == MAX_GLOBAL_SLOTS
      && M.GlobalSlot(Tock(s), g.slot) == M.At(g.slot)
      && (g.isArray ==> M.GlobalArrayBase(Tock(s), g.slot, g.arraySize) == M.At(g.slot))
      && s.output == st.output
  {
  }

  /** A visible local scalar. */
  lemma ReadLocalStep(x: Link, a: Act, st: O.State, s: M.State, name: string) returns (s': M.State)
    requires Match(x, a, st, s) && name in a.full.locals && name in O.Top(st) && !a.full.locals[name].isArray
    requires CodeAt(x.c, s.pc, [Ins(LoadLocal, a.full.locals[name].slot, 0)])
    ensures var r := O.ReadScalar(st, name);
      if r.Ok? then Reaches(x, a, st, s, s') && s' == Then(s, s.stack + [r.value]) && IsI32(r.value)
      else Fails(x.c, s, r.code, r.site, st.output)
  {
    hide M.RunFrom, Runs, Match;
    LocalFacts(x, a, st, s, name);
    var v := a.full.locals[name];
    FetchLoadLocal(x.c, s, v.slot);
    var e := M.LoadLocal(x.c, Tock(s), v.slot);
    var cell := s.locals[a.base + v.slot];
    s' := Then(s, s.stack + [cell]);
    if cell == I64_MIN {
      Stops(x.c, s, e);
    } else {
      StackStep(x, a, st, s, e, s.stack + [cell]);
    }
  }

  /** A global scalar. */
  lemma ReadGlobalStep(x: Link, a: Act, st: O.State, s: M.State, name: string) returns (s': M.State)
    requires Match(x, a, st, s) && name in x.n.globals && name !in O.Top(st) && !x.n.globals[name].isArray
    requires CodeAt(x.c, s.pc, [Ins(LoadGlobal, x.n.globals[name].slot, 0)])
    ensures var r := O.ReadScalar(st, name);
      r.Ok? && Reaches(x, a, st, s, s') && s' == Then(s, s.stack + [r.value]) && IsI32(r.value)
  {
    hide M.RunFrom, Runs, Match;
    GlobalFacts(x, a, st, s, name);
    var g := x.n.globals[name];
    FetchLoadGlobal(x.c, s, g.slot);
    s' := Then(s, s.stack + [s.globals[g.slot]]);
    StackStep(x, a, st, s, M.LoadGlobal(Tock(s), g.slot), s.stack + [s.globals[g.slot]]);
  }

  /** Where the machine finds an element of a local array. */
  lemma LocalCell(x: Link, a: Act, st: O.State, s: M.State, name: string, index: int)
    requires Match(x, a, st, s) && name in a.full.locals && name in O.Top(st) && a.full.locals[name].isArray
    ensures var v := a.full.locals[name];
      var cell := M.LocalArrayCell(x.c, Tock(s), v.slot, v.arraySize, index);
      && O.Top(st)[name].Array?
      && var values := O.Top(st)[name].values;
      && |values| == v.arraySize && AllI32(values)
      && a.base + v.slot < |s.locals|
      && if 0 <= index < |values| then
           cell == M.At(s.locals[a.base + v.slot] + index) && s.locals[cell.slot] == values[index]
         else cell == M.Bad(ArrayOutOfBounds)
  {
    hide Match, M.LocalSlot;
    LocalFacts(x, a, st, s, name);
  }

  /** What both kinds of array read do with an index. */
  ghost predicate Indexed(x: Link, a: Act, st: O.State, s: M.State, s': M.State, name: string, rest: seq<int>, index: int) {
    if index < 0 then Fails(x.c, s, ArrayOutOfBounds, O.Elsewhere, st.output)
    else
      var r := O.ReadArray(st, name, index);
      if r.Fail? then Fails(x.c, s, r.code, r.site, st.output)
      else Reaches(x, a, st, s, s') && s' == Then(s, rest + [r.value]) && IsI32(r.value)
  }

  lemma IndexLocalStep(x: Link, a: Act, st: O.State, s: M.State, name: string, rest: seq<int>, index: int) returns (s': M.State)
    requires Match(x, a, st, s) && s.stack == rest + [index]
    requires name in a.full.locals && name in O.Top(st) && a.full.locals[name].isArray
    requires var v := a.full.locals[name]; CodeAt(x.c, s.pc, [Ins(LocalArrayLoad, v.slot, v.arraySize)])
    ensures Indexed(x, a, st, s, s', name, rest, index)
  {
    hide M.RunFrom, Runs, Match, M.LocalArrayCell;
    LocalFacts(x, a, st, s, name);
    LocalCell(x, a, st, s, name, index);
    var v := a.full.locals[name];
    FetchLocalArrayLoad(x.c, s, v.slot, v.arraySize);
    var e := M.LocalArrayLoad(x.c, Tock(s), v.slot, v.arraySize);
    assert s.stack[..|s.stack| - 1] == rest;
    var values := O.Top(st)[name].values;
    if 0 <= index < |values| {
      s' := Then(s, rest + [values[index]]);
      StackStep(x, a, st, s, e, rest + [values[index]]);
    } else {
      s' := s;
      Stops(x.c, s, e);
    }
  }

  lemma IndexGlobalStep(x: Link, a: Act, st: O.State, s: M.State, name: string, rest: seq<int>, index: int) returns (s': M.State)
    requires Match(x, a, st, s) && s.stack == rest + [index]
    requires name in x.n.globals && name !in O.Top(st) && x.n.globals[name].isArray
    requires var g := x.n.globals[name]; CodeAt(x.c, s.pc, [Ins(ArrayLoad, g.slot, g.arraySize)])
    ensures Indexed(x, a, st, s, s', name, rest, index)
  {
    hide M.RunFrom, Runs, Match, M.GlobalArrayBase;
    GlobalFacts(x, a, st, s, name);
    var g := x.n.globals[name];
    FetchArrayLoad(x.c, s, g.slot, g.arraySize);
    var e := M.ArrayLoad(Tock(s), g.slot, g.arraySize);
    assert s.stack[..|s.stack| - 1] == rest;
    var values := st.globals[name].values;
    if 0 <= index < |values| {
      s' := Then(s, rest + [values[index]]);
      StackStep(x, a, st, s, e, rest + [values[index]]);
    } else {
      s' := s;
      Stops(x.c, s, e);
    }
  }

  // ---------------------------------------------------------------- operators and jumps

  /** The two implementations of the operators agree. */
  lemma SameArithmetic(op: BinaryOp, left: int, right: int)
    requires op != BinaryOp.And && op != BinaryOp.Or && !(op == BinaryOp.Div && right == 0)
    ensures M.IsBinary(BinaryOpcode(op)) && (BinaryOpcode(op) == Opcode.Div ==> right != 0)
    ensures O.EvalBinary(op, left, right) == O.Ok(M.Arith(BinaryOpcode(op), left, right))
    ensures IsI32(M.Arith(BinaryOpcode(op), left, right))
  {
  }

  lemma BinaryStep(x: Link, a: Act, op: BinaryOp, st: O.State, s: M.State, rest: seq<int>, left: int, right: int)
    requires Match(x, a, st, s) && op != BinaryOp.And && op != BinaryOp.Or
    requires s.stack == rest + [left] + [right] && CodeAt(x.c, s.pc, [Simple(BinaryOpcode(op))])
    ensures var r := O.EvalBinary(op, left, right);
      if r.Fail? then Fails(x.c, s, r.code, r.site, st.output)
      else Reaches(x, a, st, s, Then(s, rest + [r.value])) && IsI32(r.value)
  {
    hide M.RunFrom, Runs, Goes, Cut, Match, Fails, CodeAt, M.Arith;
    SameOutput(x, a, st, s);
    FetchBinary(x.c, s, op);
    var e := M.ExecBinary(BinaryOpcode(op), Tock(s));
    assert s.stack[..|s.stack| - 2] == rest;
    if op == BinaryOp.Div && right == 0 {
      Stops(x.c, s, e);
    } else {
      SameArithmetic(op, left, right);
      StackStep(x, a, st, s, e, rest + [M.Arith(BinaryOpcode(op), left, right)]);
    }
  }

  lemma SameOutput(x: Link, a: Act, st: O.State, s: M.State)
    requires Match(x, a, st, s)
    ensures s.output == st.output
  {
  }

  lemma UnaryStep(x: Link, a: Act, op: UnaryOp, st: O.State, s: M.State, rest: seq<int>, v: int)
    requires Match(x, a, st, s) && s.stack == rest + [v] && CodeAt(x.c, s.pc, [Simple(UnaryOpcode(op))])
    ensures Reaches(x, a, st, s, Then(s, rest + [O.EvalUnary(op, v)])) && IsI32(O.EvalUnary(op, v))
  {
    hide M.RunFrom, Runs, Match;
    FetchUnary(x.c, s, op);
    assert s.stack[..|s.stack| - 1] == rest;
    StackStep(x, a, st, s, M.ExecUnary(UnaryOpcode(op), Tock(s)), rest + [O.EvalUnary(op, v)]);
  }

  lemma JumpStep(x: Link, a: Act, target: nat, st: O.State, s: M.State)
    requires Match(x, a, st, s) && target <= I32_MAX && CodeAt(x.c, s.pc, [Ins(Jump, target, 0)])
    ensures Reaches(x, a, st, s, Tock(s).(pc := target))
  {
    hide M.RunFrom, Runs;
    FetchJump(x.c, s, target);
    SameMemory(x, a, st, s, Tock(s).(pc := target));
    Jumps(x.c, s, M.Jumped(Tock(s).(pc := target)), Tock(s).(pc := target));
  }

  /** Where a conditional jump goes. */
  function Branched(s: M.State, jump: Opcode, target: nat, rest: seq<int>, v: int): M.State {
    Tock(s).(stack := rest, pc := if (v == 0) == (jump == JumpIfFalse) then target else s.pc + 1)
  }

  lemma BranchStep(x: Link, a: Act, jump: Opcode, target: nat, st: O.State, s: M.State, rest: seq<int>, v: int)
    requires Match(x, a, st, s) && s.stack == rest + [v]
    requires jump == JumpIfFalse || jump == JumpIfTrue
    requires target <= I32_MAX && CodeAt(x.c, s.pc, [Ins(jump, target, 0)])
    ensures Reaches(x, a, st, s, Branched(s, jump, target, rest, v))
  {
    hide M.RunFrom, Runs;
    FetchBranch(x.c, s, jump, target);
    var e := M.Branch(Tock(s), target, jump == JumpIfFalse);
    assert s.stack[..|s.stack| - 1] == rest;
    SameMemory(x, a, st, s, Branched(s, jump, target, rest, v));
    hide Match;
    if (v == 0) == (jump == JumpIfFalse) {
      Jumps(x.c, s, e, Tock(s).(stack := rest, pc := target));
    } else {
      Advances(x.c, s, e, Tock(s).(stack := rest));
    }
  }
}
