/** The heap of the garbage-collected machine: what a collection keeps, and what every run keeps. */
module GcHeap {
  import opened Common
  import opened Limits
  import opened Bytecode
  import opened GcMachine
  import M = Machine

  // ---------------------------------------------------------------- the invariant

  predicate Distinct(ids: seq<nat>) {
    forall i, j :: 0 <= i < j < |ids| ==> ids[i] != ids[j]
  }

  predicate Alive(heap: Heap, id: nat) {
    id < |heap| && heap[id].Some?
  }

  /** The free list holds exactly the empty ids, each once, and the next id is the heap's length. */
  ghost predicate FreeOk(st: State) {
    && st.nextId == |st.heap|
    && Distinct(st.free)
    && forall id: nat :: id in st.free <==> id < |st.heap| && st.heap[id].None?
  }

  predicate FramesOk(calls: seq<Frame>) {
    forall f <- calls :: FrameOk(f)
  }

  /** Every reference a run can still use leads to an array. */
  ghost predicate HeapOk(st: State) {
    && FreeOk(st) && FramesOk(st.calls)
    && forall id <- Roots(st) :: Alive(st.heap, id)
  }

  // ---------------------------------------------------------------- collecting

  lemma {:induction false} FreedDistinct(heap: Heap, marked: set<nat>)
    ensures Distinct(Freed(heap, marked))
  {
    if heap != [] {
      FreedDistinct(heap[..|heap| - 1], marked);
      var before := Freed(heap[..|heap| - 1], marked);
      assert forall i :: 0 <= i < |before| ==> before[i] in before;
    }
  }

  lemma DistinctAppend(a: seq<nat>, b: seq<nat>)
    requires Distinct(a) && Distinct(b) && forall id <- a :: id !in b
    ensures Distinct(a + b)
  {
    forall i, j | 0 <= i < j < |a + b| ensures (a + b)[i] != (a + b)[j] {
      if i < |a| <= j {
        assert (a + b)[i] in a && (a + b)[j] in b;
      }
    }
  }

  /**
   * A collection keeps exactly the referenced arrays, with their contents; it frees exactly the others, leaves the
   * references alone, and keeps the invariant.
   */
  lemma CollectKeepsTheReferenced(st: State)
    requires HeapOk(st)
    ensures var after := Collect(st);
      && HeapOk(after) && Roots(after) == Roots(st) && |after.heap| == |st.heap|
      && (forall id: nat :: Alive(after.heap, id) <==> id in Roots(st))
      && (forall id <- Roots(st) :: after.heap[id] == st.heap[id])
      && after.stack == st.stack && after.globals == st.globals && after.calls == st.calls && after.output == st.output
      && after.nextId == st.nextId && after.pc == st.pc && after.cycles == st.cycles
  {
    var freed := Freed(st.heap, Roots(st));
    FreedDistinct(st.heap, Roots(st));
    DistinctAppend(st.free, freed);
  }

  /** A place is found: an id that was empty, or the next one. */
  lemma PlaceIsFresh(st: State, size: nat)
    requires FreeOk(st)
    ensures var (after, id) := Place(st, size);
      && FreeOk(after) && !Alive(st.heap, id) && id < |after.heap| && after.heap[id] == Some(Zeros(size))
      && |after.heap| >= |st.heap| && (forall other: nat :: other < |st.heap| && other != id ==> after.heap[other] == st.heap[other])
      && after.stack == st.stack && after.globals == st.globals && after.calls == st.calls && after.output == st.output
      && after.pc == st.pc && after.cycles == st.cycles
  {
    if st.free != [] {
      var last := |st.free| - 1;
      var id := st.free[last];
      assert id in st.free;
      forall other: nat ensures other in st.free[..last] <==> other in st.free && other != id {
        if other in st.free && other != id {
          var i :| 0 <= i < |st.free| && st.free[i] == other;
          assert st.free[..last][i] == other;
        }
      }
    }
  }

  /** Allocation: the new array is empty of anything else, and referenced arrays keep their contents. */
  lemma AllocIsFresh(st: State, size: nat)
    requires HeapOk(st)
    ensures var (after, id) := Alloc(st, size);
      && HeapOk(after) && Roots(after) == Roots(st) && id !in Roots(st)
      && id < |after.heap| && after.heap[id] == Some(Zeros(size))
      && (forall other <- Roots(st) :: other < |after.heap| && after.heap[other] == st.heap[other])
      && after.stack == st.stack && after.globals == st.globals && after.calls == st.calls && after.output == st.output
      && after.pc == st.pc && after.cycles == st.cycles
  {
    var before := if |st.heap| - |st.free| >= GC_THRESHOLD then Collect(st) else st;
    if |st.heap| - |st.free| >= GC_THRESHOLD {
      CollectKeepsTheReferenced(st);
    }
    hide Collect, Roots;
    PlaceIsFresh(before, size);
    RootsOf(before, Place(before, size).0);
    var (after, id) := Alloc(st, size);
    assert Roots(before) == Roots(st);
    forall other | other in Roots(st) ensures other < |after.heap| && after.heap[other] == st.heap[other] && other != id {
      assert Alive(before.heap, other);
    }
  }

  /** The ids below n whose array is alive. */
  function Live(heap: Heap, n: nat): set<nat>
    requires n <= |heap|
  {
    set id: nat | id < n && heap[id].Some?
  }

  lemma LiveMore(heap: Heap, n: nat)
    requires 0 < n <= |heap|
    ensures Live(heap, n) == if heap[n - 1].Some? then Live(heap, n - 1) + {n - 1} else Live(heap, n - 1)
    ensures n - 1 !in Live(heap, n - 1)
  {
  }

  lemma {:induction false} CountLive(heap: Heap, n: nat, dead: set<nat>)
    requires n <= |heap| && forall id: nat :: id in dead <==> id < n && heap[id].None?
    ensures |Live(heap, n)| + |dead| == n
  {
    if n == 0 {
      assert dead == {} && Live(heap, 0) == {};
    } else {
      hide Live;
      var last := n - 1;
      LiveMore(heap, n);
      CountLive(heap, last, dead - {last});
      assert dead == if heap[last].Some? then dead - {last} else dead - {last} + {last};
    }
  }

  function Elements(ids: seq<nat>): (s: set<nat>)
    ensures forall id :: id in s <==> id in ids
  {
    set id <- ids
  }

  lemma {:induction false} CountDistinct(ids: seq<nat>)
    requires Distinct(ids)
    ensures |Elements(ids)| == |ids|
  {
    hide Elements;
    if ids == [] {
      assert Elements(ids) == {};
    } else {
      var n := |ids| - 1;
      var before := ids[..n];
      CountDistinct(before);
      assert ids == before + [ids[n]];
      assert Elements(ids) == Elements(before) + {ids[n]};
      assert ids[n] !in before;
    }
  }

  lemma LiveCounted(st: State)
    requires HeapOk(st)
    ensures |st.heap| - |st.free| == |Live(st.heap, |st.heap|)|
  {
    hide Roots, Elements;
    CountDistinct(st.free);
    CountLive(st.heap, |st.heap|, Elements(st.free));
  }

  /** With fewer than eight arrays alive, an allocation keeps all of them. */
  lemma AllocKeepsBelowEight(st: State, size: nat)
    requires HeapOk(st) && |Live(st.heap, |st.heap|)| < 8
    ensures var (after, id) := Alloc(st, size);
      && !Alive(st.heap, id)
      && forall other: nat :: Alive(st.heap, other) ==> other < |after.heap| && after.heap[other] == st.heap[other]
  {
    hide Roots, Collect;
    LiveCounted(st);
    PlaceIsFresh(st, size);
  }

  /** With eight or more alive, exactly the referenced ones and the new one are alive afterwards. */
  lemma AllocCollectsFromEight(st: State, size: nat)
    requires HeapOk(st) && |Live(st.heap, |st.heap|)| >= 8
    ensures var (after, id) := Alloc(st, size);
      forall other: nat :: Alive(after.heap, other) <==> other in Roots(st) || other == id
  {
    hide Roots, Collect;
    LiveCounted(st);
    CollectKeepsTheReferenced(st);
    PlaceIsFresh(Collect(st), size);
    PlaceGrowsNoMore(Collect(st), size);
  }

  /** The heap grows only when it has no empty place, and then by one. */
  lemma PlaceGrowsNoMore(st: State, size: nat)
    requires HeapOk(st)
    ensures var (after, id) := Place(st, size);
      && (|after.heap| > |st.heap| ==> |after.heap| == |st.heap| + 1 && id == |st.heap| && forall other: nat :: other < |st.heap| ==> Alive(st.heap, other))
      && (|after.heap| == |st.heap| ==> id == st.free[|st.free| - 1])
  {
    hide Roots;
  }

  lemma AllocAlive(st: State, id: nat)
    requires id < |st.heap| && st.heap[id].Some?
    ensures Alive(st.heap, id)
  {
  }

  lemma RootsOf(a: State, b: State)
    requires a.stack == b.stack && a.globals == b.globals && a.calls == b.calls
    ensures Roots(a) == Roots(b)
  {
  }

  // ---------------------------------------------------------------- instructions

  /** No reference appears from nowhere, and no array disappears. */
  ghost predicate Spares(st: State, st': State) {
    && Roots(st') <= Roots(st) && FramesOk(st'.calls)
    && st'.free == st.free && st'.nextId == st.nextId && |st'.heap| == |st.heap|
    && forall id: nat :: Alive(st'.heap, id) <==> Alive(st.heap, id)
  }

  lemma SparesKeeps(st: State, st': State)
    requires HeapOk(st) && Spares(st, st')
    ensures HeapOk(st')
  {
    hide Roots;
    forall id: nat ensures id in st'.free <==> id < |st'.heap| && st'.heap[id].None? {
      assert Alive(st'.heap, id) <==> Alive(st.heap, id);
    }
  }

  ghost predicate Keeps(step: Step) {
    match step
    case Advance(st) => HeapOk(st)
    case Jumped(st) => HeapOk(st)
    case Trapped(_, _) => true
  }

  ghost predicate StepSpares(st: State, step: Step) {
    match step
    case Advance(st') => Spares(st, st')
    case Jumped(st') => Spares(st, st')
    case Trapped(_, _) => true
  }

  lemma SparingKeeps(st: State, step: Step)
    requires HeapOk(st) && StepSpares(st, step)
    ensures Keeps(step)
  {
    hide HeapOk, Spares;
    match step
    case Advance(st') => SparesKeeps(st, st');
    case Jumped(st') => SparesKeeps(st, st');
    case Trapped(_, _) =>
  }

  /** Only the operands change, and each is a number or was there before. */
  lemma StackOnly(st: State, st': State)
    requires HeapOk(st)
    requires st'.globals == st.globals && st'.calls == st.calls && st'.heap == st.heap && st'.free == st.free && st'.nextId == st.nextId
    requires forall v <- st'.stack :: v.Int? || v.id in Roots(st)
    ensures Spares(st, st')
  {
    hide FreeOk, FrameRefs;
  }

  lemma OnStack(st: State)
    ensures forall v <- st.stack :: v.Int? || v.id in Roots(st)
    ensures forall v <- st.globals :: v.Int? || v.id in Roots(st)
  {
  }

  lemma BinarySpares(p: CompiledProgram, instr: Instruction, st: State)
    requires HeapOk(st) && M.IsBinary(instr.opcode)
    ensures StepSpares(st, Exec(p, instr, st))
  {
    hide HeapOk, Roots, Spares, Arith;
    OnStack(st);
    var step := ExecBinary(instr.opcode, st);
    assert Exec(p, instr, st) == step;
    if step.Advance? {
      StackOnly(st, step.st);
    }
  }

  lemma PushSpares(p: CompiledProgram, instr: Instruction, st: State)
    requires HeapOk(st) && instr.opcode in {LoadConst, LoadGlobal, Dup}
    ensures StepSpares(st, Exec(p, instr, st))
  {
    hide HeapOk, Roots, Spares;
    OnStack(st);
    var step := Exec(p, instr, st);
    if step.Advance? {
      StackOnly(st, step.st);
    }
  }

  lemma PopSpares(p: CompiledProgram, instr: Instruction, st: State)
    requires HeapOk(st) && instr.opcode in {Print, Pop, Jump, JumpIfFalse, JumpIfTrue, Opcode.Neg, Opcode.Not}
    ensures StepSpares(st, Exec(p, instr, st))
  {
    hide HeapOk, Roots, Spares;
    OnStack(st);
    var step := Exec(p, instr, st);
    if !step.Trapped? {
      StackOnly(st, step.st);
    }
  }

  lemma HeapParts(st: State)
    requires HeapOk(st)
    ensures FramesOk(st.calls)
  {
  }

  lemma FreeParts(st: State)
    requires HeapOk(st)
    ensures st.nextId == |st.heap| && forall id <- st.free :: id < |st.heap|
  {
  }

  lemma StoreGlobalSpares(p: CompiledProgram, instr: Instruction, st: State)
    requires HeapOk(st) && instr.opcode == StoreGlobal
    ensures StepSpares(st, Exec(p, instr, st))
  {
    hide HeapOk, FrameRefs;
    HeapParts(st);
  }

  /** Dropping or replacing the last frame. */
  lemma FrameRefsParts(calls: seq<Frame>, f: Frame)
    ensures FrameRefs(calls + [f]) == FrameRefs(calls) + LocalRefs(f)
  {
    hide LocalRefs;
    var all := calls + [f];
    assert f in all && forall g <- calls :: g in all;
    forall id | id in FrameRefs(all) ensures id in FrameRefs(calls) + LocalRefs(f) {
      var g :| g in all && id in LocalRefs(g);
    }
  }

  lemma LastFrame(calls: seq<Frame>)
    requires calls != []
    ensures FrameRefs(calls) == FrameRefs(calls[..|calls| - 1]) + LocalRefs(calls[|calls| - 1])
    ensures forall f :: FrameRefs(calls[|calls| - 1 := f]) == FrameRefs(calls[..|calls| - 1]) + LocalRefs(f)
  {
    hide LocalRefs, FrameRefs;
    var before, last := calls[..|calls| - 1], calls[|calls| - 1];
    FrameRefsParts(before, last);
    assert calls == before + [last];
    forall f ensures FrameRefs(calls[|calls| - 1 := f]) == FrameRefs(before) + LocalRefs(f) {
      FrameRefsParts(before, f);
      assert calls[|calls| - 1 := f] == before + [f];
    }
  }

  lemma LocalSpares(p: CompiledProgram, instr: Instruction, st: State)
    requires HeapOk(st) && (instr.opcode == LoadLocal || instr.opcode == StoreLocal)
    ensures StepSpares(st, Exec(p, instr, st))
  {
    hide HeapOk, FrameRefs;
    HeapParts(st);
    if st.calls != [] && instr.arg1 >= 0 {
      LastFrame(st.calls);
      var f := CurrentFrame(st);
      assert f in st.calls;
      if st.stack != [] {
        WrittenRefs(f, instr.arg1, Top(st));
      }
      ReadRef(f, instr.arg1);
    }
  }

  lemma WrittenRefs(f: Frame, slot: nat, v: Value)
    requires FrameOk(f)
    ensures FrameOk(WriteLocal(f, slot, v)) && LocalRefs(WriteLocal(f, slot, v)) <= LocalRefs(f) + Refs([v])
  {
    var g := WriteLocal(f, slot, v);
    forall id | id in LocalRefs(g) ensures id in LocalRefs(f) + Refs([v]) {
      var i :| 0 <= i < |Initialized(g)| && Initialized(g)[i] == ArrayRef(id);
      if i != slot {
        assert Initialized(f)[i] == ArrayRef(id);
      } else if slot < |f.locals| {
        assert [v][0] == ArrayRef(id);
      }
    }
  }

  lemma ReadRef(f: Frame, slot: nat)
    requires FrameOk(f)
    ensures var v := ReadLocal(f, slot); v.Some? && v.value.ArrayRef? ==> v.value.id in LocalRefs(f)
  {
    if slot < |f.locals| && f.init[slot] {
      assert Initialized(f)[slot] == f.locals[slot];
    }
  }

  lemma CallSpares(p: CompiledProgram, instr: Instruction, st: State)
    requires HeapOk(st) && instr.opcode == Opcode.Call
    ensures StepSpares(st, Exec(p, instr, st))
  {
    hide HeapOk, FrameRefs, LocalRefs;
    HeapParts(st);
    var step := ExecCall(p, st, instr.arg1, instr.arg2);
    assert Exec(p, instr, st) == step;
    if step.Jumped? {
      var args := st.stack[|st.stack| - instr.arg2..];
      var f := NewFrame(args, p.functions[instr.arg1].localCount, Some(st.pc + 1));
      FrameRefsParts(st.calls, f);
      NewFrameRefs(args, p.functions[instr.arg1].localCount, Some(st.pc + 1));
      assert forall v <- args :: v in st.stack;
    }
  }

  lemma NewFrameRefs(args: seq<Value>, localCount: nat, returnPc: Option<nat>)
    ensures FrameOk(NewFrame(args, localCount, returnPc)) && LocalRefs(NewFrame(args, localCount, returnPc)) <= Refs(args)
  {
    var f := NewFrame(args, localCount, returnPc);
    forall id | id in LocalRefs(f) ensures id in Refs(args) {
      var i :| 0 <= i < |Initialized(f)| && Initialized(f)[i] == ArrayRef(id);
      assert i < |args| && args[i] == ArrayRef(id);
    }
  }

  lemma ReturnSpares(p: CompiledProgram, instr: Instruction, st: State)
    requires HeapOk(st) && (instr.opcode == Opcode.Return || instr.opcode == Halt)
    ensures StepSpares(st, Exec(p, instr, st))
  {
    hide HeapOk, LocalRefs, FrameRefs;
    HeapParts(st);
    NoFrames();
    if st.calls != [] {
      LastFrame(st.calls);
    }
  }

  lemma NoFrames()
    ensures FrameRefs([]) == {}
  {
  }

  /** Array elements are numbers: reading and writing them moves no reference. */
  lemma ArrayLoadSpares(p: CompiledProgram, instr: Instruction, st: State)
    requires HeapOk(st) && instr.opcode in {ArrayLoad, LocalArrayLoad}
    ensures StepSpares(st, Exec(p, instr, st))
  {
    hide HeapOk, Roots, Spares;
    OnStack(st);
    var step := Exec(p, instr, st);
    if step.Advance? {
      StackOnly(st, step.st);
    }
  }

  lemma ArrayStoreSpares(p: CompiledProgram, instr: Instruction, st: State)
    requires HeapOk(st) && instr.opcode == ArrayStore
    ensures StepSpares(st, Exec(p, instr, st))
  {
    hide HeapOk, FrameRefs;
    HeapParts(st);
  }

  lemma LocalArrayStoreSpares(p: CompiledProgram, instr: Instruction, st: State)
    requires HeapOk(st) && instr.opcode == LocalArrayStore
    ensures StepSpares(st, Exec(p, instr, st))
  {
    hide HeapOk, FrameRefs;
    HeapParts(st);
  }

  lemma AllocKeeps(p: CompiledProgram, instr: Instruction, st: State)
    requires HeapOk(st) && (instr.opcode == AllocArray || instr.opcode == ArrayNew)
    ensures Keeps(Exec(p, instr, st))
  {
    hide Roots, Alloc;
    if instr.arg1 >= 0 {
      AllocIsFresh(st, instr.arg1);
      var (after, id) := Alloc(st, instr.arg1);
      PushedRoots(after, id);
    }
  }

  lemma PushedRoots(st: State, id: nat)
    ensures Roots(st.(stack := st.stack + [ArrayRef(id)])) == Roots(st) + {id}
  {
    var after := st.stack + [ArrayRef(id)];
    assert after[|st.stack|] == ArrayRef(id);
    assert forall v <- st.stack :: v in after;
  }

  /** Every instruction of every program, verified or not, keeps the heap sound. */
  lemma StepKeepsHeap(p: CompiledProgram, instr: Instruction, st: State)
    requires HeapOk(st)
    ensures Keeps(Exec(p, instr, st))
  {
    hide HeapOk, Exec, Keeps, StepSpares;
    match instr.opcode {
      case AllocArray => AllocKeeps(p, instr, st);
      case ArrayNew => AllocKeeps(p, instr, st);
      case LoadLocal => LocalSpares(p, instr, st);
      case StoreLocal => LocalSpares(p, instr, st);
      case StoreGlobal => StoreGlobalSpares(p, instr, st);
      case Call => CallSpares(p, instr, st);
      case Return => ReturnSpares(p, instr, st);
      case Halt => ReturnSpares(p, instr, st);
      case ArrayLoad => ArrayLoadSpares(p, instr, st);
      case LocalArrayLoad => ArrayLoadSpares(p, instr, st);
      case ArrayStore => ArrayStoreSpares(p, instr, st);
      case LocalArrayStore => LocalArrayStoreSpares(p, instr, st);
      case LoadConst => PushSpares(p, instr, st);
      case LoadGlobal => PushSpares(p, instr, st);
      case Dup => PushSpares(p, instr, st);
      case Print => PopSpares(p, instr, st);
      case Pop => PopSpares(p, instr, st);
      case Jump => PopSpares(p, instr, st);
      case JumpIfFalse => PopSpares(p, instr, st);
      case JumpIfTrue => PopSpares(p, instr, st);
      case Neg => PopSpares(p, instr, st);
      case Not => PopSpares(p, instr, st);
      case _ => BinarySpares(p, instr, st);
    }
    if instr.opcode != AllocArray && instr.opcode != ArrayNew {
      SparingKeeps(st, Exec(p, instr, st));
    }
  }

  // ---------------------------------------------------------------- runs

  /** The state after a number of turns; None when the run ended before. */
  function StateAfter(p: CompiledProgram, st: State, turns: nat): Option<State>
    decreases turns
  {
    if turns == 0 then Some(st)
    else
      match TakeTurn(p, st)
      case Stop(_) => None
      case Next(st') => StateAfter(p, st', turns - 1)
  }

  lemma TurnKeepsHeap(p: CompiledProgram, st: State)
    requires HeapOk(st)
    ensures TakeTurn(p, st).Next? ==> HeapOk(TakeTurn(p, st).st)
  {
    hide Exec, Roots;
    if st.pc < |p.instructions| {
      var fetched := st.(cycles := st.cycles + 1);
      RootsOf(st, fetched);
      StepKeepsHeap(p, p.instructions[st.pc], fetched);
      match Exec(p, p.instructions[st.pc], fetched) {
        case Trapped(_, _) =>
        case Advance(st') => RootsOf(st', st'.(pc := st'.pc + 1, cycles := fetched.cycles));
        case Jumped(st') => RootsOf(st', st'.(cycles := fetched.cycles));
      }
    }
  }

  /** Storing a fresh array in a global. */
  lemma GlobalStored(st: State, slot: nat, id: nat)
    requires HeapOk(st) && Alive(st.heap, id) && slot < |st.globals|
    ensures HeapOk(st.(globals := st.globals[slot := ArrayRef(id)]))
  {
    hide FrameRefs, FreeOk;
    var st' := st.(globals := st.globals[slot := ArrayRef(id)]);
    forall root | root in Roots(st') ensures Alive(st'.heap, root) {
      if root !in Roots(st) {
        assert root == id;
      }
    }
    assert FreeOk(st') by {
      SameFree(st, st');
    }
  }

  lemma SameFree(st: State, st': State)
    requires FreeOk(st) && st'.free == st.free && st'.nextId == st.nextId && st'.heap == st.heap
    ensures FreeOk(st')
  {
  }

  lemma {:induction false} GlobalsKeepHeap(st: State, arrays: seq<GlobalInfo>)
    requires HeapOk(st)
    ensures HeapOk(AllocGlobals(st, arrays))
    decreases |arrays|
  {
    hide Alloc, HeapOk, Roots;
    if arrays != [] {
      AllocIsFresh(st, arrays[0].arraySize);
      var (st', id) := Alloc(st, arrays[0].arraySize);
      if arrays[0].slot < |st'.globals| {
        GlobalStored(st', arrays[0].slot, id);
        GlobalsKeepHeap(st'.(globals := st'.globals[arrays[0].slot := ArrayRef(id)]), arrays[1..]);
      } else {
        GlobalsKeepHeap(st', arrays[1..]);
      }
    }
  }

  lemma NoGlobals(st: State)
    ensures AllocGlobals(st, []) == st
  {
  }

  /** Allocating one more global array, as the machine's loop does. */
  lemma {:induction false} GlobalsSnoc(st: State, arrays: seq<GlobalInfo>, info: GlobalInfo)
    ensures var before := AllocGlobals(st, arrays);
      var (after, id) := Alloc(before, info.arraySize);
      AllocGlobals(st, arrays + [info])
        == if info.slot < |after.globals| then after.(globals := after.globals[info.slot := ArrayRef(id)]) else after
    decreases |arrays|
  {
    hide Alloc;
    if arrays == [] {
      assert arrays + [info] == [info] && [info][1..] == [];
    } else {
      var (st', id) := Alloc(st, arrays[0].arraySize);
      GlobalsSnoc(if arrays[0].slot < |st'.globals| then st'.(globals := st'.globals[arrays[0].slot := ArrayRef(id)]) else st', arrays[1..], info);
      assert (arrays + [info])[1..] == arrays[1..] + [info];
    }
  }

  /** The clock is no part of the heap. */
  lemma Ticks(st: State, st': State)
    requires HeapOk(st) && st' == st.(cycles := st'.cycles)
    ensures HeapOk(st')
  {
    hide FrameRefs, FreeOk;
    SameFree(st, st');
  }

  lemma BootHeap(p: CompiledProgram, arrays: seq<GlobalInfo>)
    requires p.mainFuncId in p.functions
    ensures HeapOk(Boot(p, arrays))
  {
    hide FrameRefs, LocalRefs, AllocGlobals;
    NoFrames();
    BlankHeap();
    GlobalsKeepHeap(Blank(), arrays);
    var st := AllocGlobals(Blank(), arrays);
    GlobalsKeepFrames(Blank(), arrays);
    var f := NewFrame([], p.functions[p.mainFuncId].localCount, None);
    NewFrameRefs([], p.functions[p.mainFuncId].localCount, None);
    FrameRefsParts([], f);
    assert [] + [f] == [f];
  }

  lemma BlankHeap()
    ensures HeapOk(Blank())
  {
    NoFrames();
  }

  lemma {:induction false} GlobalsKeepFrames(st: State, arrays: seq<GlobalInfo>)
    ensures AllocGlobals(st, arrays).calls == st.calls
    decreases |arrays|
  {
    if arrays != [] {
      var (st', id) := Alloc(st, arrays[0].arraySize);
      GlobalsKeepFrames(if arrays[0].slot < |st'.globals| then st'.(globals := st'.globals[arrays[0].slot := ArrayRef(id)]) else st', arrays[1..]);
    }
  }

  lemma {:induction false} HeapAfter(p: CompiledProgram, st: State, turns: nat)
    requires HeapOk(st)
    ensures StateAfter(p, st, turns).Some? ==> HeapOk(StateAfter(p, st, turns).value)
    decreases turns
  {
    hide HeapOk, TakeTurn;
    if turns > 0 {
      TurnKeepsHeap(p, st);
      match TakeTurn(p, st) {
        case Stop(_) =>
        case Next(st') => HeapAfter(p, st', turns - 1);
      }
    }
  }

  /**
   * The heap invariant, on every state that any run of any program reaches: the free list is exact, the next id is
   * the heap's length, and every reference on the stack, in a global or in an initialized local leads to an array.
   */
  lemma HeapIsSoundOnEveryRun(p: CompiledProgram, arrays: seq<GlobalInfo>, turns: nat)
    requires p.mainFuncId in p.functions
    ensures StateAfter(p, Boot(p, arrays), turns).Some? ==> HeapOk(StateAfter(p, Boot(p, arrays), turns).value)
  {
    hide HeapOk, Boot;
    BootHeap(p, arrays);
    HeapAfter(p, Boot(p, arrays), turns);
  }
}
