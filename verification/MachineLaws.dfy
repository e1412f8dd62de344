/** Laws of the reference machine, over two or more instructions: what is stored is loaded, and a call returns behind itself. */
module MachineLaws {
  import opened Common
  import opened Int32
  import opened Limits
  import opened Bytecode
  import M = Machine

  function I(op: Opcode, a: I32, b: I32): Instruction {
    Instruction(op, a, b)
  }

  /** A value that can be loaded where there is room for it. */
  predicate Loadable(st: M.State, v: int) {
    |st.stack| < MAX_OPERAND_STACK && v != I64_MIN
  }

  predicate Pushes(step: M.Step, st: M.State, v: int) {
    step == M.Advance(st.(stack := st.stack + [v]))
  }

  /** A stored local is loaded again, and no other local of the frame is touched. */
  lemma StoredLocalsAreLoaded(p: CompiledProgram, st: M.State, k: I32, j: I32)
    requires st.stack != [] && M.Exec(p, I(StoreLocal, k, 0), st).Advance? && Loadable(M.Drop(st, 1), M.Top(st))
    ensures var after := M.Exec(p, I(StoreLocal, k, 0), st).st;
      && Pushes(M.Exec(p, I(LoadLocal, k, 0), after), after, M.Top(st))
      && (j != k ==> forall v :: Pushes(M.Exec(p, I(LoadLocal, j, 0), M.Drop(st, 1)), M.Drop(st, 1), v)
                            <==> Pushes(M.Exec(p, I(LoadLocal, j, 0), after), after, v))
  {
    var after := M.Exec(p, I(StoreLocal, k, 0), st).st;
    forall v | j != k
      ensures Pushes(M.Exec(p, I(LoadLocal, j, 0), M.Drop(st, 1)), M.Drop(st, 1), v)
         <==> Pushes(M.Exec(p, I(LoadLocal, j, 0), after), after, v)
    {
      LoadedIs(p, M.Drop(st, 1), j, v);
      LoadedIs(p, after, j, v);
    }
  }

  lemma LoadedIs(p: CompiledProgram, st: M.State, j: I32, v: int)
    requires |st.stack| < MAX_OPERAND_STACK
    ensures Pushes(M.Exec(p, I(LoadLocal, j, 0), st), st, v) <==>
      var slot := M.LocalSlot(p, st, j);
      slot.At? && slot.slot < |st.locals| && v != I64_MIN && st.locals[slot.slot] == v
  {
    if Pushes(M.Exec(p, I(LoadLocal, j, 0), st), st, v) {
      assert (st.stack + [v])[|st.stack|] == v;
    }
  }

  /** A stored global is loaded again, and no other global is touched. */
  lemma StoredGlobalsAreLoaded(p: CompiledProgram, st: M.State, k: I32, j: I32)
    requires st.stack != [] && M.Exec(p, I(StoreGlobal, k, 0), st).Advance? && |st.stack| <= MAX_OPERAND_STACK
    requires 0 <= j < |st.globals|
    ensures var after := M.Exec(p, I(StoreGlobal, k, 0), st).st;
      Pushes(M.Exec(p, I(LoadGlobal, j, 0), after), after, if j == k then M.Top(st) else st.globals[j])
  {
  }

  /** A stored element is loaded again, and no other element of the array is touched. */
  lemma StoredElementsAreLoaded(p: CompiledProgram, st: M.State, base: I32, size: I32, j: I32)
    requires 2 <= |st.stack| <= MAX_OPERAND_STACK && M.Exec(p, I(ArrayStore, base, size), st).Advance?
    requires 0 <= j < size
    ensures var index, after := st.stack[|st.stack| - 2], M.Exec(p, I(ArrayStore, base, size), st).st;
      && 0 <= index < size && after.stack == st.stack[..|st.stack| - 2]
      && base >= 0 && base + size <= |st.globals|
      && var indexed := after.(stack := after.stack + [j as int]);
         Pushes(M.Exec(p, I(ArrayLoad, base, size), indexed), after, if j == index then M.Top(st) else st.globals[base + j])
  {
  }

  /** An index outside the array traps, for loads and stores, and nothing else of an array access does so. */
  lemma ArraysAreGuarded(p: CompiledProgram, st: M.State, base: I32, size: I32)
    requires 0 <= base && 0 <= size && base + size <= |st.globals| && base < |st.globals|
    requires 2 <= |st.stack| <= MAX_OPERAND_STACK
    ensures (M.Exec(p, I(ArrayLoad, base, size), st).Trapped? <==> !(0 <= M.Top(st) < size))
    ensures (M.Exec(p, I(ArrayStore, base, size), st).Trapped? <==> !(0 <= st.stack[|st.stack| - 2] < size))
    ensures !(0 <= M.Top(st) < size) ==> M.Exec(p, I(ArrayLoad, base, size), st) == M.Trapped(ArrayOutOfBounds, |st.stack| - 1)
    ensures !(0 <= st.stack[|st.stack| - 2] < size) ==> M.Exec(p, I(ArrayStore, base, size), st) == M.Trapped(ArrayOutOfBounds, |st.stack| - 2)
  {
  }

  /** A conditional jump is taken on zero or on anything else, and uses up what it tests. */
  lemma JumpsFollowTheirTest(p: CompiledProgram, st: M.State, target: I32)
    requires st.stack != [] && target >= 0
    ensures var rest := st.(stack := st.stack[..|st.stack| - 1]);
      && M.Exec(p, I(JumpIfFalse, target, 0), st) == (if M.Top(st) == 0 then M.Jumped(rest.(pc := target)) else M.Advance(rest))
      && M.Exec(p, I(JumpIfTrue, target, 0), st) == (if M.Top(st) == 0 then M.Advance(rest) else M.Jumped(rest.(pc := target)))
  {
  }

  /** A call finds its arguments as its first locals, in order, and the others undefined. */
  lemma CallsPassTheirArguments(p: CompiledProgram, st: M.State, id: I32, count: I32, k: nat)
    requires st.calls != [] && M.Exec(p, I(Opcode.Call, id, count), st).Jumped?
    requires 0 <= id && id in p.functions && k < p.functions[id].localCount
    ensures var after := M.Exec(p, I(Opcode.Call, id, count), st).st;
      && 0 <= count <= |st.stack| && after.pc == p.functions[id].entryPc && |after.calls| == |st.calls| + 1
      && M.CurrentFrame(after).basePtr + k < |after.locals|
      && after.locals[M.CurrentFrame(after).basePtr + k] == if k < count then st.stack[|st.stack| - count + k] else I64_MIN
  {
  }

  /** A return gives back the frame of the call, behind which it goes on with the value on top. */
  lemma ReturnsUndoCalls(p: CompiledProgram, st: M.State, id: I32, count: I32, callee: M.State)
    requires M.Exec(p, I(Opcode.Call, id, count), st).Jumped? && callee.stack != []
    requires callee.calls == M.Exec(p, I(Opcode.Call, id, count), st).st.calls
    ensures M.Exec(p, I(Opcode.Return, 0, 0), callee) == M.Jumped(callee.(calls := st.calls, pc := st.pc + 1))
  {
    assert callee.calls[..|callee.calls| - 1] == st.calls;
  }
}
