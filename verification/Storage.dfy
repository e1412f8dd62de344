/** Who owns which local slot: frames tile the storage below the arrays, and an instruction writes only what it owns. */
module Storage {
  import opened Common
  import opened Int32
  import opened Limits
  import opened Bytecode
  import opened VerifierSound
  import opened VerifiedRuns
  import M = Machine
  import V = Verifier
  import W = Worklist

  /** The slots of a frame. */
  predicate Owns(p: CompiledProgram, f: M.Frame, i: nat) {
    f.basePtr <= i < FrameEnd(p, f)
  }

  /** The windows of the frames follow one another from slot 0 and end below the arrays. */
  predicate WindowsTile(p: CompiledProgram, calls: seq<M.Frame>) {
    && calls != [] && calls[0].basePtr == 0
    && (forall k :: 0 <= k < |calls| - 1 ==> calls[k + 1].basePtr == FrameEnd(p, calls[k]))
    && (forall k :: 0 <= k < |calls| ==> FrameEnd(p, calls[k]) <= MAX_LOCAL_SLOTS)
  }

  lemma InvTiles(p: CompiledProgram, w: Proof, s: M.State)
    requires Inv(p, w, s)
    ensures WindowsTile(p, s.calls)
  {
    hide Owed;
    InvParts(p, w, s);
    forall k | 0 <= k < |s.calls| ensures FrameEnd(p, s.calls[k]) <= MAX_LOCAL_SLOTS {
      if k < |s.calls| - 1 {
        assert LinkOk(p, w, s.calls[k], s.calls[k + 1], s.locals);
      }
    }
    forall k | 0 <= k < |s.calls| - 1 ensures s.calls[k + 1].basePtr == FrameEnd(p, s.calls[k]) {
      assert LinkOk(p, w, s.calls[k], s.calls[k + 1], s.locals);
    }
  }

  lemma {:induction false} WindowsRise(p: CompiledProgram, calls: seq<M.Frame>, j: nat, k: nat)
    requires WindowsTile(p, calls) && j < k < |calls|
    ensures FrameEnd(p, calls[j]) <= calls[k].basePtr
    decreases k - j
  {
    if j + 1 < k {
      WindowsRise(p, calls, j, k - 1);
      assert calls[k].basePtr == FrameEnd(p, calls[k - 1]);
    }
  }

  /** No slot belongs to two frames, and none of a frame's slots is an array cell. */
  lemma WindowsAreDisjoint(p: CompiledProgram, w: Proof, s: M.State, j: nat, k: nat, i: nat)
    requires Inv(p, w, s) && j < |s.calls| && k < |s.calls|
    requires Owns(p, s.calls[j], i) && Owns(p, s.calls[k], i)
    ensures j == k && i < MAX_LOCAL_SLOTS <= |s.locals|
  {
    hide Owed, FrameOk, LinkOk;
    InvParts(p, w, s);
    InvTiles(p, w, s);
    if j < k {
      WindowsRise(p, s.calls, j, k);
    } else if k < j {
      WindowsRise(p, s.calls, k, j);
    }
  }

  /** The array a local array store writes to: the cells from the base in the slot. */
  predicate InStoredArray(s: M.State, instr: Instruction, i: nat)
    requires s.calls != []
  {
    && instr.opcode == LocalArrayStore
    && var slot := M.CurrentFrame(s).basePtr + instr.arg1;
       0 <= slot < |s.locals| && s.locals[slot] >= MAX_LOCAL_SLOTS && s.locals[slot] <= i < s.locals[slot] + instr.arg2
  }

  /** What this instruction may write: its frame's slot, the frame it enters, or the array it stores into. */
  predicate MayWrite(p: CompiledProgram, s: M.State, instr: Instruction, s': M.State, i: nat)
    requires s.calls != []
  {
    || (instr.opcode == StoreLocal && i == M.CurrentFrame(s).basePtr + instr.arg1 && Owns(p, M.CurrentFrame(s), i))
    || (instr.opcode == Opcode.Call && |s'.calls| == |s.calls| + 1 && Owns(p, M.CurrentFrame(s'), i))
    || InStoredArray(s, instr, i)
  }

  ghost predicate WritesOwn(p: CompiledProgram, s: M.State, instr: Instruction, s': M.State)
    requires s.calls != []
  {
    && |s.locals| <= |s'.locals|
    && forall i :: 0 <= i < |s.locals| ==> s'.locals[i] == s.locals[i] || MayWrite(p, s, instr, s', i)
  }

  predicate Written(step: M.Step, s': M.State) {
    match step
    case Advance(st) => s'.locals == st.locals && s'.calls == st.calls
    case Jumped(st) => s'.locals == st.locals && s'.calls == st.calls
    case Trapped(_, _) => false
  }

  predicate WritesLocals(op: Opcode) {
    op in {StoreLocal, Opcode.Call, LocalArrayStore, AllocArray, ArrayNew}
  }

  lemma OthersWriteNothing(p: CompiledProgram, s: M.State, instr: Instruction, s': M.State)
    requires !WritesLocals(instr.opcode) && Written(M.Exec(p, instr, s), s')
    ensures s'.locals == s.locals
  {
    hide M.ExecBinary, M.ExecUnary, M.ArrayLoad, M.ArrayStore, M.LocalArrayLoad, M.LoadLocal, M.LoadGlobal, M.StoreGlobal;
    OperatorsKeepLocals(p, s, instr);
    GlobalsKeepLocals(p, s, instr);
    LoadsKeepLocals(p, s, instr);
  }

  predicate KeepsLocals(s: M.State, step: M.Step) {
    match step case Advance(st) => st.locals == s.locals case Jumped(st) => st.locals == s.locals case Trapped(_, _) => true
  }

  lemma OperatorsKeepLocals(p: CompiledProgram, s: M.State, instr: Instruction)
    ensures M.IsBinary(instr.opcode) ==> KeepsLocals(s, M.ExecBinary(instr.opcode, s))
    ensures instr.opcode == Opcode.Neg || instr.opcode == Opcode.Not ==> KeepsLocals(s, M.ExecUnary(instr.opcode, s))
  {
    hide M.Arith, NormalizeI32, Wrap64;
  }

  lemma GlobalsKeepLocals(p: CompiledProgram, s: M.State, instr: Instruction)
    ensures KeepsLocals(s, M.ArrayLoad(s, instr.arg1, instr.arg2)) && KeepsLocals(s, M.ArrayStore(s, instr.arg1, instr.arg2))
    ensures KeepsLocals(s, M.LoadGlobal(s, instr.arg1)) && KeepsLocals(s, M.StoreGlobal(s, instr.arg1))
  {
  }

  lemma LoadsKeepLocals(p: CompiledProgram, s: M.State, instr: Instruction)
    ensures KeepsLocals(s, M.LocalArrayLoad(p, s, instr.arg1, instr.arg2)) && KeepsLocals(s, M.LoadLocal(p, s, instr.arg1))
  {
  }

  lemma StoreWritesOwn(p: CompiledProgram, s: M.State, instr: Instruction, s': M.State)
    requires s.calls != [] && instr.opcode == StoreLocal && Written(M.Exec(p, instr, s), s')
    ensures WritesOwn(p, s, instr, s')
  {
  }

  lemma CallWritesOwn(p: CompiledProgram, s: M.State, instr: Instruction, s': M.State)
    requires s.calls != [] && instr.opcode == Opcode.Call && Written(M.Exec(p, instr, s), s')
    ensures WritesOwn(p, s, instr, s')
  {
  }

  lemma AllocWritesOwn(p: CompiledProgram, s: M.State, instr: Instruction, s': M.State)
    requires s.calls != [] && (instr.opcode == AllocArray || instr.opcode == ArrayNew) && Written(M.Exec(p, instr, s), s')
    ensures WritesOwn(p, s, instr, s') && |s'.locals| == |s.locals| + instr.arg1
  {
  }

  lemma ElementWritesOwn(p: CompiledProgram, s: M.State, instr: Instruction, s': M.State)
    requires s.calls != [] && instr.opcode == LocalArrayStore && Written(M.Exec(p, instr, s), s')
    requires s.pc < |p.instructions| && p.instructions[s.pc] == instr && !Misuses(p, s)
    ensures WritesOwn(p, s, instr, s')
  {
  }

  /**
   * Storage separation: a turn of a verified program writes only the slot its frame owns, the window of the frame it
   * enters, or cells of the array it stores into; nothing is ever given up, so a new array lies behind all others.
   */
  lemma TurnsWriteTheirOwn(p: CompiledProgram, w: Proof, s: M.State)
    requires Verified(p, w) && Inv(p, w, s) && !Misuses(p, s) && M.TakeTurn(p, s).Next?
    ensures s.pc < |p.instructions| && WritesOwn(p, s, p.instructions[s.pc], M.TakeTurn(p, s).st)
  {
    hide M.Exec, Inv, Verified, Misuses, WritesOwn, FrameOk, LinkOk, Owed, FunctionVerified, Starts, W.Flows;
    InvParts(p, w, s);
    AtInstruction(p, w, s);
    var instr, t, s' := p.instructions[s.pc], Ticked(s), M.TakeTurn(p, s).st;
    TickedMisuses(p, s);
    assert Written(M.Exec(p, instr, t), s');
    if instr.opcode == StoreLocal {
      StoreWritesOwn(p, t, instr, s');
    } else if instr.opcode == Opcode.Call {
      CallWritesOwn(p, t, instr, s');
    } else if instr.opcode == LocalArrayStore {
      ElementWritesOwn(p, t, instr, s');
    } else if instr.opcode == AllocArray || instr.opcode == ArrayNew {
      AllocWritesOwn(p, t, instr, s');
    } else {
      OthersWriteNothing(p, t, instr, s');
      NothingWritten(p, t, instr, s');
    }
    SameWrites(p, s, instr, s');
  }

  lemma NothingWritten(p: CompiledProgram, s: M.State, instr: Instruction, s': M.State)
    requires s.calls != [] && s'.locals == s.locals
    ensures WritesOwn(p, s, instr, s')
  {
  }

  lemma SameWrites(p: CompiledProgram, s: M.State, instr: Instruction, s': M.State)
    requires s.calls != [] && WritesOwn(p, Ticked(s), instr, s')
    ensures WritesOwn(p, s, instr, s')
  {
  }

  /** Suspended frames keep their locals: whatever the running function does, its callers' slots stay as they were. */
  lemma CallersKeepTheirLocals(p: CompiledProgram, w: Proof, s: M.State, k: nat, i: nat)
    requires Verified(p, w) && Inv(p, w, s) && !Misuses(p, s) && M.TakeTurn(p, s).Next?
    requires k < |s.calls| - 1 && Owns(p, s.calls[k], i)
    ensures i < |s.locals| <= |M.TakeTurn(p, s).st.locals| && M.TakeTurn(p, s).st.locals[i] == s.locals[i]
  {
    hide M.TakeTurn, Inv, Verified, Misuses, FrameOk, LinkOk, Owed;
    InvParts(p, w, s);
    InvTiles(p, w, s);
    WindowsRise(p, s.calls, k, |s.calls| - 1);
    TurnsWriteTheirOwn(p, w, s);
    var s' := M.TakeTurn(p, s).st;
    if p.instructions[s.pc].opcode == Opcode.Call {
      EnteredBehind(p, s);
    }
  }

  /** A frame that is entered begins where the caller's ends. */
  lemma EnteredBehind(p: CompiledProgram, s: M.State)
    requires s.calls != [] && s.pc < |p.instructions| && p.instructions[s.pc].opcode == Opcode.Call && M.TakeTurn(p, s).Next?
    ensures var s' := M.TakeTurn(p, s).st; s'.calls != [] && M.CurrentFrame(s').basePtr == FrameEnd(p, M.CurrentFrame(s))
  {
    hide M.EnterFrame;
  }
}
