/** Dead-code elimination is an exact lockstep: the pruned program takes the same number of cycles through the same states. */
module DeadCodeCorrect {
  import opened Common
  import opened Int32
  import opened Limits
  import opened Bytecode
  import opened Relocation
  import opened DeadCode
  import M = Machine

  predicate EntriesInRange(p: CompiledProgram) {
    forall id <- p.functions :: p.functions[id].entryPc < |p.instructions|
  }

  /** Nothing was removed. */
  ghost predicate Untouched(p: CompiledProgram) {
    p.instructions == [] || Live(p.instructions, p.functions) == Addresses(|p.instructions|)
  }

  ghost predicate Lands(p: CompiledProgram, a: nat, b: nat) {
    var live := Live(p.instructions, p.functions);
    if Untouched(p) then b == a && (a < |p.instructions| ==> a in live)
    else if a < |p.instructions| then a in live && b == Rank(live, a)
    else b >= |Pruned(p).instructions|
  }

  ghost function Landings(p: CompiledProgram): Landing {
    iset a: nat, b: nat | Lands(p, a, b) :: (a, b)
  }

  // ---------------------------------------------------------------- addresses

  lemma {:induction false} CompactAt(code: seq<Instruction>, live: set<nat>, n: nat, pc: nat)
    requires pc < n <= |code| && pc in live
    ensures Rank(live, pc) < Rank(live, n)
    ensures Compact(code, live, n)[Rank(live, pc)] == Remap(live, |code|, code[pc])
  {
    RankGrows(live, pc, n);
    if pc < n - 1 {
      CompactAt(code, live, n - 1, pc);
    }
  }

  lemma EntryLands(p: CompiledProgram, pc: nat)
    requires IsEntry(p.functions, pc) && pc < |p.instructions|
    ensures pc in Live(p.instructions, p.functions)
  {
    EntryReached(p.instructions, p.functions, pc);
  }

  lemma NextLands(p: CompiledProgram, a: nat, b: nat)
    requires a < |p.instructions| && Lands(p, a, b) && FallsThrough(p.instructions[a].opcode)
    ensures Lands(p, a + 1, b + 1)
  {
    if a + 1 < |p.instructions| {
      WalkOn(p.instructions, p.functions, a, a + 1);
    }
  }

  lemma TargetLands(p: CompiledProgram, a: nat, b: nat)
    requires |p.instructions| <= MAX_INSTRUCTIONS
    requires a < |p.instructions| && Lands(p, a, b) && IsJump(p.instructions[a].opcode)
    ensures Untouched(p) ==> Lands(p, AsUsize(p.instructions[a].arg1), AsUsize(p.instructions[a].arg1))
    ensures !Untouched(p) ==>
              var live := Live(p.instructions, p.functions);
              Lands(p, AsUsize(p.instructions[a].arg1), AsUsize(Remap(live, |p.instructions|, p.instructions[a]).arg1))
  {
    var target := AsUsize(p.instructions[a].arg1);
    if target < |p.instructions| {
      WalkOn(p.instructions, p.functions, a, target);
    }
  }

  lemma FetchesAlike(p: CompiledProgram, a: nat, b: nat)
    requires |p.instructions| <= MAX_INSTRUCTIONS
    requires a < |p.instructions| && (a, b) in Landings(p)
    ensures b < |Pruned(p).instructions|
    ensures InstrAlike(Landings(p), p.instructions[a], Pruned(p).instructions[b])
    ensures FallsThrough(p.instructions[a].opcode) ==> (a + 1, b + 1) in Landings(p)
  {
    hide Live;
    if FallsThrough(p.instructions[a].opcode) {
      NextLands(p, a, b);
    }
    if IsJump(p.instructions[a].opcode) {
      TargetLands(p, a, b);
    }
    if !Untouched(p) {
      CompactAt(p.instructions, Live(p.instructions, p.functions), |p.instructions|, a);
    }
  }

  lemma PrunedFunctions(p: CompiledProgram)
    ensures FunctionsAlike(p, Pruned(p), Landings(p))
    ensures forall id <- p.functions :: p.functions[id].entryPc < |p.instructions| ==> id in Pruned(p).functions
  {
    hide Live;
    forall id <- p.functions | p.functions[id].entryPc < |p.instructions|
      ensures p.functions[id].entryPc in Live(p.instructions, p.functions)
    {
      EntryLands(p, p.functions[id].entryPc);
    }
  }

  // ---------------------------------------------------------------- runs

  predicate Agrees(r: M.Result, q: M.Result) {
    SameOutcome(r, q) && q.cycles == r.cycles
  }

  /** The original fails on entering a function whose code does not exist; the pruned program has lost that function. */
  predicate LostFunction(r: M.Result, q: M.Result) {
    !r.success && !q.success && q.trap == UndefinedFunction && q.cycles == r.cycles && q.output == r.output
  }

  /** A call of a function that was dropped ends both runs at the same cycle. */
  lemma DroppedCall(p: CompiledProgram, s: M.State, t: M.State)
    requires |p.instructions| <= MAX_INSTRUCTIONS
    requires Moved(p, Pruned(p), Landings(p), s, t) && t.cycles == s.cycles < MAX_CYCLES
    requires s.pc < |p.instructions| && !CallsKept(p, Pruned(p), p.instructions[s.pc])
    ensures var (r, q) := (M.RunFrom(p, s), M.RunFrom(Pruned(p), t)); Agrees(r, q) || LostFunction(r, q)
  {
    hide Live, Pruned, Landings;
    PrunedFunctions(p);
    FetchesAlike(p, s.pc, t.pc);
    var instr := p.instructions[s.pc];
    assert M.TakeTurn(Pruned(p), t).Stop?;
    if M.TakeTurn(p, s).Next? {
      var s' := M.TakeTurn(p, s).st;
      assert s'.pc >= |p.instructions|;
      assert M.TakeTurn(p, s').Stop?;
    }
  }

  lemma {:induction false} PrunedRunsFrom(p: CompiledProgram, s: M.State, t: M.State)
    requires |p.instructions| <= MAX_INSTRUCTIONS
    requires Moved(p, Pruned(p), Landings(p), s, t) && t.cycles == s.cycles
    ensures var (r, q) := (M.RunFrom(p, s), M.RunFrom(Pruned(p), t)); Agrees(r, q) || LostFunction(r, q)
    ensures EntriesInRange(p) ==> Agrees(M.RunFrom(p, s), M.RunFrom(Pruned(p), t))
    decreases MAX_CYCLES - s.cycles
  {
    hide Live, Pruned, M.Exec, FunctionsAlike, InstrAlike, SameFrame;
    PrunedFunctions(p);
    if s.cycles >= MAX_CYCLES {
    } else if s.pc >= |p.instructions| {
      PastTheEnd(p, s.pc, t.pc);
    } else if !CallsKept(p, Pruned(p), p.instructions[s.pc]) {
      DroppedCall(p, s, t);
    } else {
      FetchesAlike(p, s.pc, t.pc);
      TurnMoves(p, Pruned(p), Landings(p), s, t);
      if M.TakeTurn(p, s).Next? {
        PrunedRunsFrom(p, M.TakeTurn(p, s).st, M.TakeTurn(Pruned(p), t).st);
      }
    }
  }

  lemma PastTheEnd(p: CompiledProgram, a: nat, b: nat)
    requires (a, b) in Landings(p) && a >= |p.instructions|
    ensures b >= |Pruned(p).instructions|
  {
  }

  // ---------------------------------------------------------------- whole runs

  lemma EntriesKept(p: CompiledProgram)
    requires EntriesInRange(p)
    ensures Pruned(p).functions.Keys == p.functions.Keys
  {
    hide Live;
    PrunedFunctions(p);
  }

  /** Every program whose functions start inside the code runs exactly as before. */
  lemma PrunedRunsAgree(p: CompiledProgram)
    requires |p.instructions| <= MAX_INSTRUCTIONS && EntriesInRange(p)
    ensures Agrees(M.Run(p), M.Run(Pruned(p)))
  {
    hide Live, M.RunFrom;
    EntriesKept(p);
    PrunedFunctions(p);
    RankGrows(Live(p.instructions, p.functions), 0, |p.instructions|);
    var q := Pruned(p);
    assert M.Validate(q) == M.Validate(p);
    if M.Validate(p).None? {
      assert SameLayout(p, q, p.mainFuncId);
      assert SameLayout(p, q, p.functions[p.mainFuncId].id);
      assert q.functions[p.mainFuncId].id == p.functions[p.mainFuncId].id;
      PrunedRunsFrom(p, M.Boot(p), M.Boot(q));
    }
  }

  /** For any other program the pass can only replace one failure by another: a function with no code becomes an undefined one. */
  lemma PrunedRunsAgreeOrLoseAFunction(p: CompiledProgram)
    requires M.Validate(p).None? && p.functions[p.mainFuncId].id == p.mainFuncId
    ensures var (r, q) := (M.Run(p), M.Run(Pruned(p))); Agrees(r, q) || LostFunction(r, q)
  {
    hide Live, M.RunFrom;
    PrunedFunctions(p);
    var q := Pruned(p);
    if q.mainFuncId in q.functions {
      assert SameLayout(p, q, p.mainFuncId);
      assert M.Validate(q).None?;
      PrunedRunsFrom(p, M.Boot(p), M.Boot(q));
    } else {
      MainLost(p);
    }
  }

  lemma MainLost(p: CompiledProgram)
    requires M.Validate(p).None? && p.mainFuncId !in Pruned(p).functions
    ensures LostFunction(M.Run(p), M.Run(Pruned(p)))
  {
    hide Live, Pruned, M.Exec;
    PrunedFunctions(p);
    assert M.Boot(p).pc >= |p.instructions|;
    assert M.TakeTurn(p, M.Boot(p)).Stop?;
    PrunedLayout(p);
    assert M.Validate(Pruned(p)) == Some(UndefinedFunction);
  }

  lemma PrunedLayout(p: CompiledProgram)
    ensures |Pruned(p).instructions| <= |p.instructions| && Pruned(p).globals == p.globals
    ensures Pruned(p).mainFuncId == p.mainFuncId
    ensures forall id <- Pruned(p).functions :: SameLayout(p, Pruned(p), id)
  {
  }

  // ---------------------------------------------------------------- nothing dead is left

  lemma EdgeMoves(p: CompiledProgram, a: nat, next: nat)
    requires |p.instructions| <= MAX_INSTRUCTIONS && !Untouched(p)
    requires a in Live(p.instructions, p.functions) && next < |p.instructions| && Edge(p.instructions, a, next)
    ensures var live := Live(p.instructions, p.functions);
      && next in live && Rank(live, next) < |Pruned(p).instructions|
      && Edge(Pruned(p).instructions, Rank(live, a), Rank(live, next))
  {
    var live := Live(p.instructions, p.functions);
    WalkOn(p.instructions, p.functions, a, next);
    FetchesAlike(p, a, Rank(live, a));
    RankGrows(live, next, |p.instructions|);
  }

  lemma {:induction false} WalkMoves(p: CompiledProgram, path: seq<nat>)
    requires |p.instructions| <= MAX_INSTRUCTIONS && !Untouched(p) && Walk(p.instructions, p.functions, path)
    ensures path[|path| - 1] in Live(p.instructions, p.functions)
    ensures Reached(Pruned(p).instructions, Pruned(p).functions,
                    Rank(Live(p.instructions, p.functions), path[|path| - 1]))
  {
    hide Live, Reached, Edge, Compact, Pruned;
    var live, q := Live(p.instructions, p.functions), Pruned(p);
    if |path| == 1 {
      EntryLands(p, path[0]);
      MovedEntry(p, path[0]);
      RankGrows(live, path[0], |p.instructions|);
      EntryReached(q.instructions, q.functions, Rank(live, path[0]));
    } else {
      var a, next := path[|path| - 2], path[|path| - 1];
      assert Walk(p.instructions, p.functions, path[..|path| - 1]);
      WalkMoves(p, path[..|path| - 1]);
      assert Edge(p.instructions, a, next);
      EdgeMoves(p, a, next);
      WalkOn(q.instructions, q.functions, Rank(live, a), Rank(live, next));
    }
  }

  lemma MovedEntry(p: CompiledProgram, pc: nat)
    requires !Untouched(p) && IsEntry(p.functions, pc) && pc < |p.instructions|
    requires pc in Live(p.instructions, p.functions)
    ensures IsEntry(Pruned(p).functions, Rank(Live(p.instructions, p.functions), pc))
    ensures Rank(Live(p.instructions, p.functions), pc) < |Pruned(p).instructions|
  {
    var live := Live(p.instructions, p.functions);
    var id :| id in p.functions && p.functions[id].entryPc == pc;
    assert id in Pruned(p).functions && Pruned(p).functions[id].entryPc == Rank(live, pc);
    RankGrows(live, pc, |p.instructions|);
  }

  lemma {:induction false} RankOnto(live: set<nat>, n: nat, b: nat) returns (pc: nat)
    requires b < Rank(live, n)
    ensures pc < n && pc in live && Rank(live, pc) == b
  {
    if b < Rank(live, n - 1) {
      pc := RankOnto(live, n - 1, b);
    } else {
      pc := n - 1;
    }
  }

  /** The pass removes everything it can: all that is left can be reached, so a second run changes nothing. */
  lemma NothingDeadIsLeft(p: CompiledProgram)
    requires |p.instructions| <= MAX_INSTRUCTIONS
    ensures Untouched(Pruned(p)) && Pruned(Pruned(p)) == Pruned(p)
  {
    hide Compact;
    var live, q := Live(p.instructions, p.functions), Pruned(p);
    if !Untouched(p) {
      forall b: nat | b < |q.instructions| ensures Reached(q.instructions, q.functions, b) {
        var pc := RankOnto(live, |p.instructions|, b);
        var path :| Walk(p.instructions, p.functions, path) && path[|path| - 1] == pc;
        WalkMoves(p, path);
      }
    }
  }

  // ---------------------------------------------------------------- where the pass shows

  /** `main` calls a function whose entry lies behind the code; the last instruction is dead. */
  function CallsNowhere(): CompiledProgram {
    CompiledProgram(
      [Instruction(Opcode.Call, 1, 0), Instruction(Opcode.Return, 0, 0), Instruction(Opcode.Pop, 0, 0)],
      map[0 := FunctionInfo("main", 0, 0, 0, 0), 1 := FunctionInfo("f", 1, 9, 0, 0)],
      map[], 0)
  }

  lemma NowhereLive()
    ensures var p := CallsNowhere(); 2 !in Live(p.instructions, p.functions)
  {
    var p := CallsNowhere();
    if 2 in Live(p.instructions, p.functions) {
      var path :| Walk(p.instructions, p.functions, path) && path[|path| - 1] == 2;
      ClosedHoldsWalks(p.instructions, p.functions, {0, 1}, path);
    }
  }

  /** Without the premise on entries the pass does change a trap code: it drops the function. */
  lemma DroppingAFunctionShows()
    ensures M.Run(CallsNowhere()).trap == InvalidInstruction
    ensures M.Run(Pruned(CallsNowhere())).trap == UndefinedFunction
  {
    hide Live, Compact;
    var p := CallsNowhere();
    var q := Pruned(p);
    NowhereLive();
    assert p.functions[0].entryPc == 0;
    EntryLands(p, 0);
    CompactAt(p.instructions, Live(p.instructions, p.functions), 3, 0);
    assert q.instructions[0] == p.instructions[0];
    assert q.functions.Keys == {0};
    assert M.Validate(p).None? && M.Validate(q).None?;
    assert M.TakeTurn(q, M.Boot(q)).Stop?;
    var s := M.Boot(p);
    assert M.NextBase(p, s.(cycles := 1)) == 0;
    assert M.TakeTurn(p, s).Next? && M.TakeTurn(p, s).st.pc == 9;
  }
}
