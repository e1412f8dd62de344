/** Writing constants to different scalars: the order does not show. */
module Reordering {
  import opened Common
  import opened Int32
  import opened Limits
  import opened Ast
  import opened Oracle
  import opened Similar

  // ---------------------------------------------------------------- constants

  function ConstantValue(e: Expr): int
    requires IsConstant(e)
  {
    match e
    case IntLiteral(v) => v
    case BoolLiteral(b) => BoolValue(b)
    case Unary(op, operand) => EvalUnary(op, ConstantValue(operand))
    case Binary(op, left, right) =>
      var l, r := ConstantValue(left), ConstantValue(right);
      if op == And then (if l == 0 then 0 else BoolValue(r != 0))
      else if op == Or then (if l != 0 then 1 else BoolValue(r != 0))
      else EvalBinary(op, l, r).value
  }

  function ConstantCost(e: Expr): nat
    requires IsConstant(e)
  {
    match e
    case IntLiteral(_) => 1
    case BoolLiteral(_) => 1
    case Unary(_, operand) => 1 + ConstantCost(operand)
    case Binary(op, left, right) =>
      var l := ConstantValue(left);
      1 + ConstantCost(left) + (if (op == And && l == 0) || (op == Or && l != 0) then 0 else ConstantCost(right))
  }

  /** A constant has its value in every state, after its own number of cycles. */
  lemma {:induction false} ConstantEval(p: Program, st: State, e: Expr)
    requires IsConstant(e)
    ensures
      var r := Eval(p, st, e);
      if st.cycles + ConstantCost(e) > MAX_CYCLES then AtLimit(r)
      else r == Eff(st.(cycles := st.cycles + ConstantCost(e)), Ok(ConstantValue(e)))
    decreases e
  {
    hide EvalUnary, EvalBinary;
    var t := Tick(st);
    if t.res.Ok? {
      match e {
        case Unary(_, operand) => ConstantEval(p, t.st, operand);
        case Binary(op, left, right) =>
          ConstantEval(p, t.st, left);
          var l := Eval(p, t.st, left);
          if l.res.Ok? {
            ConstantEval(p, l.st, right);
            NoDivision(op, l.res.value);
          }
        case _ =>
      }
    }
  }

  lemma NoDivision(op: BinaryOp, left: int)
    requires op != BinaryOp.Div
    ensures op != BinaryOp.And && op != BinaryOp.Or ==> forall right: int :: EvalBinary(op, left, right).Ok?
  {
  }

  // ---------------------------------------------------------------- writes

  /** What a write leaves in its slot; none if it traps. */
  function NewSlot(s: Stmt, was: Option<Slot>): Option<Slot>
    requires ConstantWrite(s).Some?
  {
    match s
    case VarDecl(_, _, init, _) =>
      if init.None? then (if was.Some? then was else Some(Scalar(None)))
      else if was.Some? && was.value.Array? then None
      else Some(Scalar(Some(NormalizeI32(ConstantValue(init.value)))))
    case Assign(_, _, value) =>
      if was.Some? && was.value.Scalar? then Some(Scalar(Some(NormalizeI32(ConstantValue(value))))) else None
  }

  function WriteCost(s: Stmt): nat
    requires ConstantWrite(s).Some?
  {
    match s
    case VarDecl(_, _, init, _) => if init.None? then 1 else 1 + ConstantCost(init.value)
    case Assign(_, _, value) => 1 + ConstantCost(value)
  }

  /** Where a slot is put: over the one that is visible, or in the running function's scope. */
  function Put(st: State, name: string, slot: Slot): State
    requires st.frames != []
  {
    if LookupSlot(st, name).Some? then UpdateSlot(st, name, slot) else WithTop(st, Top(st)[name := slot])
  }

  predicate Written(st: State, s: Stmt, r: Eff<Control>)
    requires st.frames != [] && ConstantWrite(s).Some?
  {
    var name := ConstantWrite(s).value;
    if st.cycles + WriteCost(s) > MAX_CYCLES then AtLimit(r)
    else
      match NewSlot(s, LookupSlot(st, name))
      case None => r.res.Fail? && r.res.code == InvalidInstruction && r.st.output == st.output
      case Some(slot) => r == Eff(Put(st, name, slot).(cycles := st.cycles + WriteCost(s)), Ok(Continue))
  }

  lemma WriteRuns(p: Program, st: State, s: Stmt)
    requires st.frames != [] && ConstantWrite(s).Some?
    ensures Written(st, s, ExecStmt(p, st, s))
  {
    if s.VarDecl? {
      DeclRuns(p, st, s);
    } else {
      AssignRuns(p, st, s);
    }
  }

  lemma AssignRuns(p: Program, st: State, s: Stmt)
    requires st.frames != [] && ConstantWrite(s).Some? && s.Assign?
    ensures Written(st, s, ExecStmt(p, st, s))
  {
    hide Eval, NormalizeI32, ConstantValue, ConstantCost;
    var t := Tick(st);
    if t.res.Ok? {
      ConstantEval(p, t.st, s.value);
      CostPositive(s.value);
    }
  }

  lemma CostPositive(e: Expr)
    requires IsConstant(e)
    ensures ConstantCost(e) >= 1
  {
  }

  lemma DeclRuns(p: Program, st: State, s: Stmt)
    requires st.frames != [] && ConstantWrite(s).Some? && s.VarDecl?
    ensures Written(st, s, ExecStmt(p, st, s))
  {
    hide Eval, NormalizeI32, ConstantValue, ConstantCost;
    var t := Tick(st);
    if t.res.Ok? {
      var d := DeclareScalar(t.st, s.name);
      if s.init.Some? {
        ConstantEval(p, d.st, s.init.value);
        CostPositive(s.init.value);
        if LookupSlot(st, s.name).None? {
          Overwritten(t.st, s.name, Scalar(None), NewSlot(s, None).value);
        }
      } else if LookupSlot(st, s.name).Some? {
        Rewritten(t.st, s.name);
      }
    }
  }

  lemma Overwritten(st: State, name: string, slot: Slot, slot': Slot)
    requires st.frames != [] && LookupSlot(st, name).None?
    ensures var once := Put(st, name, slot);
      LookupSlot(once, name) == Some(slot) && UpdateSlot(once, name, slot') == Put(st, name, slot')
  {
    var once := Put(st, name, slot);
    assert Top(once) == Top(st)[name := slot];
    assert Top(once)[name := slot'] == Top(st)[name := slot'];
  }

  lemma Rewritten(st: State, name: string)
    requires st.frames != [] && LookupSlot(st, name).Some?
    ensures Put(st, name, LookupSlot(st, name).value) == st
  {
    var slot := LookupSlot(st, name).value;
    if name in Top(st) {
      assert Top(st)[name := slot] == Top(st);
      assert st.frames[|st.frames| - 1 := Top(st)] == st.frames;
    } else {
      assert st.globals[name := slot] == st.globals;
    }
  }

  // ---------------------------------------------------------------- two writes

  lemma PutsCommute(st: State, n: string, a: Slot, m: string, b: Slot)
    requires st.frames != [] && n != m
    ensures LookupSlot(Put(st, n, a), m) == LookupSlot(st, m)
    ensures Put(Put(st, n, a), m, b) == Put(Put(st, m, b), n, a)
  {
    var top := Top(st);
    assert top[n := a][m := b] == top[m := b][n := a];
    assert st.globals[n := a][m := b] == st.globals[m := b][n := a];
  }

  lemma PutLater(st: State, name: string, slot: Slot, cycles: nat)
    requires st.frames != []
    ensures Put(st.(cycles := cycles), name, slot) == Put(st, name, slot).(cycles := cycles)
    ensures LookupSlot(st.(cycles := cycles), name) == LookupSlot(st, name)
    ensures Put(st, name, slot).frames != [] && Put(st, name, slot).output == st.output && Put(st, name, slot).cycles == st.cycles
  {
  }

  lemma PairRuns(p: Program, st: State, first: Stmt, second: Stmt)
    ensures
      var r := ExecStmt(p, st, first);
      ExecBlock(p, st, [first, second])
      == if r.res.Fail? || r.res.value.ReturnValue? then r else ExecBlock(p, r.st, [second])
  {
    assert [first, second][1..] == [second];
  }

  lemma OneRuns(p: Program, st: State, s: Stmt)
    ensures ExecBlock(p, st, [s]) == ExecStmt(p, st, s)
  {
    assert [s][1..] == [];
    var r := ExecStmt(p, st, s);
    if r.res.Ok? && r.res.value.Continue? {
      assert ExecBlock(p, r.st, []) == Eff(r.st, Ok(Continue));
    }
  }

  /** What two writes do, one after the other. */
  lemma BothWritten(p: Program, st: State, first: Stmt, second: Stmt)
    requires st.frames != [] && CanReorder(first, second)
    ensures
      var r := ExecBlock(p, st, [first, second]);
      var n, m := ConstantWrite(first).value, ConstantWrite(second).value;
      var a, b := NewSlot(first, LookupSlot(st, n)), NewSlot(second, LookupSlot(st, m));
      var cycles := st.cycles + WriteCost(first) + WriteCost(second);
      if a.None? || b.None? then AtLimit(r) || (r.res.Fail? && r.res.code == InvalidInstruction && r.st.output == st.output)
      else if cycles > MAX_CYCLES then AtLimit(r)
      else r == Eff(Put(Put(st, n, a.value), m, b.value).(cycles := cycles), Ok(Continue))
  {
    hide ExecStmt, ExecBlock, NewSlot, WriteCost, Put, ConstantWrite, LookupSlot;
    var n, m := ConstantWrite(first).value, ConstantWrite(second).value;
    PairRuns(p, st, first, second);
    WriteRuns(p, st, first);
    var r := ExecStmt(p, st, first);
    if r.res.Ok? {
      var a := NewSlot(first, LookupSlot(st, n)).value;
      var put := Put(st, n, a);
      PutLater(st, n, a, st.cycles + WriteCost(first));
      OneRuns(p, r.st, second);
      WriteRuns(p, r.st, second);
      var b := NewSlot(second, LookupSlot(st, m));
      PutLater(put, m, Scalar(None), r.st.cycles);
      PutsCommute(st, n, a, m, Scalar(None));
      if b.Some? {
        PutLater(put, m, b.value, r.st.cycles);
      }
    }
  }

  /** A limit, or the trap of a write into an array. */
  predicate Misplaced(st: State, r: Eff<Control>) {
    AtLimit(r) || (r.res.Fail? && r.res.code == InvalidInstruction && r.st.output == st.output)
  }

  /** Two writes of constants to different scalars, exchanged. */
  lemma WritesCommute(p: Program, st: State, a: Stmt, b: Stmt)
    requires st.frames != [] && CanReorder(a, b)
    ensures
      var r, r' := ExecBlock(p, st, [a, b]), ExecBlock(p, st, [b, a]);
      || r' == r || (AtLimit(r) && AtLimit(r'))
      || (Misplaced(st, r) && Misplaced(st, r'))
  {
    hide ExecBlock, NewSlot, WriteCost, Put, ConstantWrite, LookupSlot;
    BothWritten(p, st, a, b);
    BothWritten(p, st, b, a);
    var n, m := ConstantWrite(a).value, ConstantWrite(b).value;
    var s, t := NewSlot(a, LookupSlot(st, n)), NewSlot(b, LookupSlot(st, m));
    if s.Some? && t.Some? {
      PutsCommute(st, n, s.value, m, t.value);
    }
  }

  // ---------------------------------------------------------------- writes in similar programs

  lemma PutSame(x: Rewriting, hidden: Option<string>, st: State, st': State, name: string, slot: Slot)
    requires Close(x, hidden, st, st') && hidden != Some(name) && st.frames != [] && st'.frames != [] && SaneSlot(slot)
    ensures Close(x, hidden, Put(st, name, slot), Put(st', name, slot))
  {
    hide Close, UpdateSlot, WithTop, SaneSlot;
    LookupSame(x, hidden, st, st', name);
    if LookupSlot(st, name).Some? {
      UpdateSame(x, hidden, st, st', name, slot);
    } else {
      TopWritten(x, hidden, st, st', name, slot);
    }
  }

  lemma WriteSame(p: Program, q: Program, x: Rewriting, hidden: Option<string>, st: State, st': State, s: Stmt)
    requires Close(x, hidden, st, st') && st.frames != [] && ConstantWrite(s).Some? && ConstantWrite(s) != hidden
    ensures
      var r, r' := ExecStmt(p, st, s), ExecStmt(q, st', s);
      AtLimit(r') || Agree(x, hidden, r, r')
  {
    hide Close, ExecStmt, NewSlot, WriteCost, Put, ConstantWrite, SaneSlot;
    var name := ConstantWrite(s).value;
    SameOutput(x, hidden, st, st');
    WriteRuns(p, st, s);
    WriteRuns(q, st', s);
    LookupSame(x, hidden, st, st', name);
    var slot := NewSlot(s, LookupSlot(st, name));
    if slot.Some? {
      NewSlotSane(s, LookupSlot(st, name));
      PutSame(x, hidden, st, st', name, slot.value);
      PutLater(st, name, slot.value, st.cycles);
      PutLater(st', name, slot.value, st'.cycles);
      var t, t' := Put(st, name, slot.value), Put(st', name, slot.value);
      SameOutput(x, hidden, t, t');
      CloseAfter(x, hidden, t, t', t.(cycles := st.cycles + WriteCost(s)), t'.(cycles := st'.cycles + WriteCost(s)));
    }
  }

  lemma NewSlotSane(s: Stmt, was: Option<Slot>)
    requires ConstantWrite(s).Some? && NewSlot(s, was).Some? && (was.Some? ==> SaneSlot(was.value))
    ensures SaneSlot(NewSlot(s, was).value)
  {
    hide NormalizeI32, ConstantValue;
  }
}
