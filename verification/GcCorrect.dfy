/** The garbage-collected machine gives the reference machine's results, and disciplined code never misuses an array slot. */
module GcCorrect {
  import opened Common
  import opened Int32
  import opened Limits
  import opened Bytecode
  import opened Discipline
  import opened Lockstep
  import M = Machine
  import G = GcMachine
  import H = GcHeap
  import P = ProgramVerifier
  import V = VerifierSound

  // ---------------------------------------------------------------- global arrays

  function ZeroGlobals(): seq<int> {
    seq(MAX_GLOBAL_SLOTS, _ => 0)
  }

  predicate IsGlobalArray(p: CompiledProgram, g: GlobalInfo) {
    g.isArray && exists x <- p.globals :: p.globals[x] == g
  }

  /** The heap array stands for one of the global arrays, whose global refers to it. */
  predicate Backs(spot: Spot, id: nat, globals: seq<G.Value>, done: seq<GlobalInfo>) {
    exists g <- done :: spot == GlobalAt(g.slot, g.arraySize) && g.slot < |globals| && globals[g.slot] == G.ArrayRef(id)
  }

  predicate Untouched(globals: seq<G.Value>, done: seq<GlobalInfo>) {
    forall slot :: 0 <= slot < |globals| ==> globals[slot] == G.Int(0) || exists g <- done :: g.slot == slot
  }

  /** The global arrays that were allocated so far, and the heap arrays that stand for them. */
  ghost predicate Booting(p: CompiledProgram, mu: Spots, st: G.State, done: seq<GlobalInfo>, locals: seq<int>) {
    && H.HeapOk(st) && |st.globals| == MAX_GLOBAL_SLOTS && st.calls == [] && st.stack == [] && st.output == [] && st.cycles == 0
    && Untouched(st.globals, done)
    && (forall g <- done :: GlobalArraySame(mu, g, st.globals) && IsGlobalArray(p, g))
    && (forall id <- mu :: Backs(mu[id], id, st.globals, done))
    && ArraysSame(mu, st.heap, locals, ZeroGlobals())
  }

  lemma BackedIsRoot(spot: Spot, id: nat, st: G.State, done: seq<GlobalInfo>)
    requires Backs(spot, id, st.globals, done)
    ensures id in G.Roots(st)
  {
    hide G.FrameRefs;
  }

  lemma BootOne(p: CompiledProgram, mu: Spots, st: G.State, done: seq<GlobalInfo>, locals: seq<int>, g: GlobalInfo) returns (mu': Spots, st': G.State)
    requires Booting(p, mu, st, done, locals) && P.GlobalsOk(p.globals, p.globals.Keys)
    requires IsGlobalArray(p, g) && forall d <- done :: d.slot != g.slot
    ensures g.slot < MAX_GLOBAL_SLOTS
    ensures var (after, id) := G.Alloc(st, g.arraySize); st' == after.(globals := st.globals[g.slot := G.ArrayRef(id)])
    ensures Booting(p, mu', st', done + [g], locals)
  {
    hide G.Alloc, H.HeapOk, G.Roots, P.GlobalsOk, ArraysSame, Untouched, Backs, GlobalArraySame, IsGlobalArray;
    H.AllocIsFresh(st, g.arraySize);
    ArrayFits(p, g);
    var (after, id) := G.Alloc(st, g.arraySize);
    H.AllocAlive(after, id);
    st' := after.(globals := st.globals[g.slot := G.ArrayRef(id)]);
    mu' := mu[id := GlobalAt(g.slot, g.arraySize)];
    H.GlobalStored(after, g.slot, id);
    forall other | other in mu ensures other in G.Roots(st) {
      BackedIsRoot(mu[other], other, st, done);
    }
    BootArrays(p, mu, st, done, locals, g, after, id);
    BootGlobals(p, mu, st, done, g, id, st'.globals);
  }

  lemma ArrayFits(p: CompiledProgram, g: GlobalInfo)
    requires P.GlobalsOk(p.globals, p.globals.Keys) && IsGlobalArray(p, g)
    ensures g.arraySize > 0 && g.slot + g.arraySize <= MAX_GLOBAL_SLOTS
  {
    assert P.GlobalOk(g);
  }

  lemma BootArrays(p: CompiledProgram, mu: Spots, st: G.State, done: seq<GlobalInfo>, locals: seq<int>, g: GlobalInfo, after: G.State, id: nat)
    requires ArraysSame(mu, st.heap, locals, ZeroGlobals()) && P.GlobalsOk(p.globals, p.globals.Keys)
    requires (forall d <- done :: IsGlobalArray(p, d) && d.slot != g.slot) && IsGlobalArray(p, g)
    requires forall other <- mu :: Backs(mu[other], other, st.globals, done)
    requires id !in mu && id < |after.heap| && after.heap[id] == Some(G.Zeros(g.arraySize)) && g.slot + g.arraySize <= MAX_GLOBAL_SLOTS
    requires forall other <- mu :: other < |after.heap| && after.heap[other] == st.heap[other]
    ensures ArraysSame(mu[id := GlobalAt(g.slot, g.arraySize)], after.heap, locals, ZeroGlobals())
  {
    hide P.GlobalsOk, IsGlobalArray;
    var mu' := mu[id := GlobalAt(g.slot, g.arraySize)];
    forall other | other in mu' ensures SpotOk(after.heap, other, mu'[other], locals, ZeroGlobals()) {
      if other == id {
        assert ZeroGlobals()[g.slot..g.slot + g.arraySize] == G.Zeros(g.arraySize);
      } else {
        assert SpotOk(st.heap, other, mu[other], locals, ZeroGlobals());
      }
    }
    forall other | other in mu && other != id ensures Apart(mu'[other], mu'[id]) && Apart(mu'[id], mu'[other]) {
      var d :| d in done && mu[other] == GlobalAt(d.slot, d.arraySize);
      DeclaredApart(p, d, g);
    }
  }

  lemma DeclaredApart(p: CompiledProgram, d: GlobalInfo, g: GlobalInfo)
    requires P.GlobalsOk(p.globals, p.globals.Keys) && d.slot != g.slot && IsGlobalArray(p, d) && IsGlobalArray(p, g)
    ensures d.slot + d.arraySize <= g.slot || g.slot + g.arraySize <= d.slot
  {
    var x :| x in p.globals && p.globals[x] == d && d.isArray;
    var y :| y in p.globals && p.globals[y] == g && g.isArray;
    assert P.Apart(p.globals[x], p.globals[y]);
  }

  lemma BootGlobals(p: CompiledProgram, mu: Spots, st: G.State, done: seq<GlobalInfo>, g: GlobalInfo, id: nat, globals': seq<G.Value>)
    requires Untouched(st.globals, done) && (forall d <- done :: GlobalArraySame(mu, d, st.globals) && d.slot != g.slot)
    requires (forall other <- mu :: Backs(mu[other], other, st.globals, done))
    requires id !in mu && g.slot < |st.globals| && globals' == st.globals[g.slot := G.ArrayRef(id)]
    ensures var mu' := mu[id := GlobalAt(g.slot, g.arraySize)];
      && Untouched(globals', done + [g]) && (forall d <- done + [g] :: GlobalArraySame(mu', d, globals'))
      && (forall other <- mu' :: Backs(mu'[other], other, globals', done + [g]))
  {
    var mu' := mu[id := GlobalAt(g.slot, g.arraySize)];
    assert (done + [g])[|done|] == g;
    forall slot | 0 <= slot < |globals'| ensures globals'[slot] == G.Int(0) || exists d <- done + [g] :: d.slot == slot {
      if slot != g.slot && st.globals[slot] != G.Int(0) {
        var d :| d in done && d.slot == slot;
        assert d in done + [g];
      }
    }
    forall d | d in done + [g] ensures GlobalArraySame(mu', d, globals') {
      if d != g {
        assert GlobalArraySame(mu, d, st.globals);
      }
    }
    forall other | other in mu' ensures Backs(mu'[other], other, globals', done + [g]) {
      if other != id {
        var d :| d in done && mu[other] == GlobalAt(d.slot, d.arraySize) && d.slot < |st.globals| && st.globals[d.slot] == G.ArrayRef(other);
        assert d in done + [g];
      }
    }
  }

  lemma {:induction false} BootAll(p: CompiledProgram, mu: Spots, st: G.State, done: seq<GlobalInfo>, locals: seq<int>, arrays: seq<GlobalInfo>)
    returns (mu': Spots)
    requires Booting(p, mu, st, done, locals) && P.GlobalsOk(p.globals, p.globals.Keys)
    requires forall g <- arrays :: IsGlobalArray(p, g)
    requires forall i, j :: 0 <= i < j < |done + arrays| ==> (done + arrays)[i].slot != (done + arrays)[j].slot
    ensures Booting(p, mu', G.AllocGlobals(st, arrays), done + arrays, locals)
    decreases |arrays|
  {
    hide Booting, G.Alloc, P.GlobalsOk, IsGlobalArray;
    if arrays == [] {
      mu' := mu;
      assert done + arrays == done;
    } else {
      var g := arrays[0];
      forall d | d in done ensures d.slot != g.slot {
        var i :| 0 <= i < |done| && done[i] == d;
        assert (done + arrays)[i] == d && (done + arrays)[|done|] == g;
      }
      var mu1, st1 := BootOne(p, mu, st, done, locals, g);
      BootSizes(p, mu, st, done, locals);
      assert done + [g] + arrays[1..] == done + arrays;
      H.GlobalsKeepFrames(st, arrays);
      AllocKeepsGlobals(st, g.arraySize);
      mu' := BootAll(p, mu1, st1, done + [g], locals, arrays[1..]);
    }
  }

  lemma BootSizes(p: CompiledProgram, mu: Spots, st: G.State, done: seq<GlobalInfo>, locals: seq<int>)
    requires Booting(p, mu, st, done, locals)
    ensures |st.globals| == MAX_GLOBAL_SLOTS
  {
  }

  lemma AllocKeepsGlobals(st: G.State, size: nat)
    ensures G.Alloc(st, size).0.globals == st.globals
  {
    hide G.Roots;
  }

  // ---------------------------------------------------------------- starting

  lemma BlankBooting(p: CompiledProgram)
    ensures Booting(p, map[], G.Blank(), [], M.Blank().locals)
  {
    H.BlankHeap();
  }

  lemma BootedPlain(p: CompiledProgram, mu: Spots, st: G.State, arrays: seq<GlobalInfo>, locals: seq<int>, slot: nat)
    requires Booting(p, mu, st, arrays, locals) && P.GlobalsOk(p.globals, p.globals.Keys)
    requires slot < MAX_GLOBAL_SLOTS && PlainGlobal(p, slot)
    ensures st.globals[slot] == G.Int(0)
  {
    hide H.HeapOk, ArraysSame, P.GlobalsOk, Backs;
    if st.globals[slot] != G.Int(0) {
      var g :| g in arrays && g.slot == slot;
      ArrayFits(p, g);
    }
  }

  lemma BootedSpots(p: CompiledProgram, mu: Spots, st: G.State, arrays: seq<GlobalInfo>, locals: seq<int>)
    requires Booting(p, mu, st, arrays, locals)
    ensures GlobalsDeclared(p, mu)
  {
    hide H.HeapOk, ArraysSame, Untouched, GlobalArraySame;
    forall id | id in mu ensures Declared(p, mu[id]) {
      var g :| g in arrays && mu[id] == GlobalAt(g.slot, g.arraySize);
      assert IsGlobalArray(p, g);
    }
  }

  /** A booted heap agrees with the reference machine's zeroed globals. */
  lemma BootedGlobals(p: CompiledProgram, mu: Spots, st: G.State, arrays: seq<GlobalInfo>, locals: seq<int>)
    requires Booting(p, mu, st, arrays, locals) && G.ArraysOf(p, arrays) && P.GlobalsOk(p.globals, p.globals.Keys)
    ensures GlobalsSame(p, mu, ZeroGlobals(), st.globals)
  {
    hide H.HeapOk, ArraysSame, P.GlobalsOk, GlobalArraySame, Backs, Untouched, PlainGlobal, GlobalsDeclared, IsGlobalArray;
    BootedSpots(p, mu, st, arrays, locals);
    forall slot: nat | slot < MAX_GLOBAL_SLOTS && PlainGlobal(p, slot) ensures st.globals[slot] == G.Int(0) {
      BootedPlain(p, mu, st, arrays, locals, slot);
    }
  }

  /** Both machines start in corresponding states. */
  lemma BootRelated(p: CompiledProgram, plans: Plans, arrays: seq<GlobalInfo>) returns (mu: Spots)
    requires Orderly(p, plans) && V.PlainMain(p) && P.GlobalsOk(p.globals, p.globals.Keys) && G.ArraysOf(p, arrays)
    ensures Related(p, plans, mu, M.Boot(p), G.Boot(p, arrays)) && H.HeapOk(G.Boot(p, arrays))
  {
    hide H.HeapOk, P.GlobalsOk, Keeps, G.AllocGlobals, Untouched, Backs, GlobalArraySame, ArraysSame, GlobalsSame;
    BlankBooting(p);
    assert [] + arrays == arrays;
    mu := BootAll(p, map[], G.Blank(), [], M.Blank().locals, arrays);
    var st := G.AllocGlobals(G.Blank(), arrays);
    BootedGlobals(p, mu, st, arrays, M.Blank().locals);
    H.BootHeap(p, arrays);
    OtherPlan(p, plans, p.mainFuncId);
    var plan, main := plans[p.mainFuncId], p.functions[p.mainFuncId];
    var s, g := M.Boot(p), G.Boot(p, arrays);
    assert s.globals == ZeroGlobals();
    MainSame(mu, plan.kinds, s.locals, p.mainFuncId);
    assert CallsSame(plans, mu, s.calls, g.calls, s.pc, s.locals);
    AllocKeepsOutput(G.Blank(), arrays);
    Combine(p, plans, mu, s, g);
  }

  lemma MainSame(mu: Spots, kinds: seq<Kind>, locals: seq<int>, id: nat)
    requires |kinds| <= MAX_LOCAL_SLOTS <= |locals| && forall i :: 0 <= i < |locals| ==> locals[i] == I64_MIN
    ensures FrameSame(mu, kinds, M.Frame(None, 0, id), G.NewFrame([], |kinds|, None), locals)
  {
  }

  lemma {:induction false} AllocKeepsOutput(st: G.State, arrays: seq<GlobalInfo>)
    ensures var st' := G.AllocGlobals(st, arrays); st'.output == st.output && st'.cycles == st.cycles && st'.stack == st.stack
    decreases |arrays|
  {
    hide G.Roots;
    if arrays != [] {
      var (st', id) := G.Alloc(st, arrays[0].arraySize);
      AllocKeepsOutput(if arrays[0].slot < |st'.globals| then st'.(globals := st'.globals[arrays[0].slot := G.ArrayRef(id)]) else st', arrays[1..]);
    }
  }

  // ---------------------------------------------------------------- results

  /**
   * The garbage-collected machine gives the reference machine's result (success, value, trap, cycles, output, pc and
   * depths) on every disciplined program, unless the local slots that the reference machine's frames share run out.
   */
  lemma CollectedRunsAgree(p: CompiledProgram, plans: Plans, arrays: seq<GlobalInfo>)
    requires Orderly(p, plans) && V.PlainMain(p) && P.GlobalsOk(p.globals, p.globals.Keys) && G.ArraysOf(p, arrays)
    requires !StorageEnds(p, M.Boot(p))
    ensures G.Run(p, arrays) == M.Run(p)
  {
    hide Orderly, P.GlobalsOk, Related, H.HeapOk, StorageEnds, M.Boot, G.Boot, M.RunFrom, G.RunFrom, M.Validate;
    var mu := BootRelated(p, plans, arrays);
    RunsPaired(p, plans, mu, M.Boot(p), G.Boot(p, arrays));
  }

  // ---------------------------------------------------------------- discipline at run time

  lemma RelatedIsNoMisuse(p: CompiledProgram, plans: Plans, mu: Spots, s: M.State, g: G.State)
    requires Orderly(p, plans) && Related(p, plans, mu, s, g)
    ensures !V.Misuses(p, s)
  {
    hide Related, Orderly, Keeps;
    var plan, instr := MakeReady(p, plans, mu, s, g);
    ReadyParts(p, plans, mu, s, g, plan, instr);
    if instr.opcode == LocalArrayLoad || instr.opcode == LocalArrayStore {
      LocalArrayHere(p, plans, mu, s, g, plan, instr);
      hide Ready;
    }
  }

  lemma FullTraps(p: CompiledProgram, s: M.State, instr: Instruction)
    requires instr.opcode == Opcode.Call && instr.arg1 >= 0 && instr.arg1 in p.functions && instr.arg2 == p.functions[instr.arg1].paramCount
    requires s.pc < |p.instructions| && p.instructions[s.pc] == instr && StorageFull(p, s)
    ensures var step := M.Exec(p, instr, s.(cycles := s.cycles + 1)); step.Trapped? && step.code == StackOverflow
  {
    assert M.Exec(p, instr, s.(cycles := s.cycles + 1)) == M.ExecCall(p, s.(cycles := s.cycles + 1), instr.arg1, instr.arg2);
  }

  /** A call that does not fit ends the run. */
  lemma FullStops(p: CompiledProgram, plans: Plans, mu: Spots, s: M.State, g: G.State)
    requires Orderly(p, plans) && Related(p, plans, mu, s, g) && StorageFull(p, s) && s.cycles < MAX_CYCLES
    ensures M.TakeTurn(p, s).Stop? && M.TakeTurn(p, s).result.trap == StackOverflow
  {
    hide Related, Orderly, Keeps, Ready, M.Exec, ArraysOk, NextReady, Leads;
    var plan, instr := MakeReady(p, plans, mu, s, g);
    ReadyParts(p, plans, mu, s, g, plan, instr);
    Onward(p, plan, s.pc, instr);
    FullTraps(p, s, instr);
  }

  /** Running out of shared storage shows as StackOverflow. */
  lemma {:induction false} StorageEndsRun(p: CompiledProgram, plans: Plans, mu: Spots, s: M.State, g: G.State)
    requires Orderly(p, plans) && Related(p, plans, mu, s, g) && H.HeapOk(g) && StorageEnds(p, s)
    ensures M.RunFrom(p, s).trap == StackOverflow
    decreases MAX_CYCLES - s.cycles
  {
    hide Related, Orderly, M.TakeTurn, G.TakeTurn, StorageFull, H.HeapOk;
    if s.cycles < MAX_CYCLES && StorageFull(p, s) {
      FullStops(p, plans, mu, s, g);
    } else {
      var mu' := TurnPaired(p, plans, mu, s, g);
      match M.TakeTurn(p, s) {
        case Stop(_) =>
        case Next(s') => StorageEndsRun(p, plans, mu', s', G.TakeTurn(p, g).st);
      }
    }
  }

  lemma {:induction false} RelatedIsDisciplined(p: CompiledProgram, plans: Plans, mu: Spots, s: M.State, g: G.State)
    requires Orderly(p, plans) && Related(p, plans, mu, s, g) && H.HeapOk(g)
    ensures V.Disciplined(p, s)
    decreases MAX_CYCLES - s.cycles
  {
    hide Related, Orderly, M.TakeTurn, G.TakeTurn, StorageFull, H.HeapOk, V.Misuses;
    RelatedIsNoMisuse(p, plans, mu, s, g);
    if s.cycles < MAX_CYCLES && StorageFull(p, s) {
      FullStops(p, plans, mu, s, g);
    } else {
      var mu' := TurnPaired(p, plans, mu, s, g);
      match M.TakeTurn(p, s) {
        case Stop(_) =>
        case Next(s') => RelatedIsDisciplined(p, plans, mu', s', G.TakeTurn(p, g).st);
      }
    }
  }

  /** Runs of disciplined programs never use a slot as an array that does not hold one of that size. */
  lemma OrderlyIsDisciplined(p: CompiledProgram, plans: Plans, arrays: seq<GlobalInfo>)
    requires Orderly(p, plans) && V.PlainMain(p) && P.GlobalsOk(p.globals, p.globals.Keys) && G.ArraysOf(p, arrays)
    ensures V.Disciplined(p, M.Boot(p))
  {
    hide Orderly, P.GlobalsOk, Related, H.HeapOk, M.Boot, G.Boot, V.Disciplined;
    var mu := BootRelated(p, plans, arrays);
    RelatedIsDisciplined(p, plans, mu, M.Boot(p), G.Boot(p, arrays));
  }

  // ---------------------------------------------------------------- the order of global arrays

  /** There is an order to allocate the global arrays in. */
  lemma {:induction false} SomeOrder(p: CompiledProgram, names: set<string>) returns (arrays: seq<GlobalInfo>)
    requires names <= p.globals.Keys && P.GlobalsOk(p.globals, p.globals.Keys)
    ensures forall g <- arrays :: IsGlobalArray(p, g) && exists x <- names :: p.globals[x] == g
    ensures forall x <- names :: p.globals[x].isArray ==> p.globals[x] in arrays
    ensures forall i, j :: 0 <= i < j < |arrays| ==> arrays[i].slot != arrays[j].slot
    decreases |names|
  {
    arrays := [];
    if names != {} {
      var x :| x in names;
      arrays := SomeOrder(p, names - {x});
      if p.globals[x].isArray {
        forall i | 0 <= i < |arrays| ensures arrays[i].slot != p.globals[x].slot {
          assert arrays[i] in arrays;
          var y :| y in names - {x} && p.globals[y] == arrays[i];
          assert P.Apart(p.globals[x], p.globals[y]) && P.GlobalOk(p.globals[x]) && P.GlobalOk(p.globals[y]);
        }
        arrays := arrays + [p.globals[x]];
      }
    }
  }

  /** Any order of the global arrays gives the same result, and a difference needs a StackOverflow. */
  lemma CollectedRunsAgreeUnlessFull(p: CompiledProgram, plans: Plans, arrays: seq<GlobalInfo>)
    requires Orderly(p, plans) && V.PlainMain(p) && P.GlobalsOk(p.globals, p.globals.Keys) && G.ArraysOf(p, arrays)
    requires M.Run(p).trap != StackOverflow
    ensures G.Run(p, arrays) == M.Run(p)
  {
    hide Orderly, P.GlobalsOk, Related, H.HeapOk, StorageEnds, M.Boot, G.Boot, M.RunFrom, G.RunFrom, M.Validate;
    if M.Validate(p).None? && StorageEnds(p, M.Boot(p)) {
      var mu := BootRelated(p, plans, arrays);
      StorageEndsRun(p, plans, mu, M.Boot(p), G.Boot(p, arrays));
    } else if M.Validate(p).None? {
      CollectedRunsAgree(p, plans, arrays);
    }
  }
}
