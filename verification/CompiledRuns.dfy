/** What all of this means for compiled programs. */
module CompiledRuns {
  import opened Common
  import opened Limits
  import opened Ast
  import opened Bytecode
  import opened CodeGen
  import opened Linking
  import opened Correctness
  import opened Discipline
  import opened CompiledOrder
  import opened GcCorrect
  import M = Machine
  import G = GcMachine
  import O = Oracle
  import P = ProgramVerifier
  import V = VerifierSound
  import R = VerifiedRuns
  import F = FrameDepth
  import Z = Optimizer
  import D = DeadCodeCorrect
  import N = WindowsCorrect

  lemma MainIsPlain(p: Program)
    requires Comparable(p)
    ensures V.PlainMain(Compile(p))
  {
    ComparableParts(p);
    MainIndex(p);
    Placed(p, Compile(p).mainFuncId);
    hide Comparable, CodeOf, GlobalTable, MainId, LocalTable;
  }

  /** Some height bounds every function. */
  lemma {:induction false} SomeHeight(p: Program, k: nat) returns (limit: nat)
    requires k <= |p.functions|
    ensures forall i :: 0 <= i < k ==> FunctionHeight(p, p.functions[i]) <= limit
  {
    hide FunctionHeight;
    limit := 0;
    for i := 0 to k
      invariant forall j :: 0 <= j < i ==> FunctionHeight(p, p.functions[j]) <= limit
    {
      if FunctionHeight(p, p.functions[i]) > limit {
        limit := FunctionHeight(p, p.functions[i]);
      }
    }
  }

  lemma PlansOf(p: Program) returns (plans: Plans)
    requires Comparable(p)
    ensures Orderly(Compile(p), plans) && V.PlainMain(Compile(p)) && P.GlobalsOk(Compile(p).globals, Compile(p).globals.Keys)
  {
    hide Comparable, Compile, FunctionHeight, Orderly, P.GlobalsOk;
    var limit := SomeHeight(p, |p.functions|);
    plans := CompiledIsOrderly(p, limit);
    MainIsPlain(p);
    CompiledGlobals(p);
  }

  /** No run of a compiled program uses a slot as an array that does not hold one of that size. */
  lemma CompiledRunsAreDisciplined(p: Program)
    requires Comparable(p)
    ensures Compile(p).mainFuncId in Compile(p).functions && V.Disciplined(Compile(p), M.Boot(Compile(p)))
  {
    hide Comparable, Compile, Orderly, P.GlobalsOk, V.Disciplined, M.Boot, G.Run, IsGlobalArray;
    var plans := PlansOf(p);
    var c := Compile(p);
    var arrays := SomeOrder(c, c.globals.Keys);
    ArraysFound(c, arrays);
    OrderlyIsDisciplined(c, plans, arrays);
  }

  lemma ArraysFound(c: CompiledProgram, arrays: seq<GlobalInfo>)
    requires forall g <- arrays :: IsGlobalArray(c, g)
    requires forall x <- c.globals.Keys :: c.globals[x].isArray ==> c.globals[x] in arrays
    requires forall i, j :: 0 <= i < j < |arrays| ==> arrays[i].slot != arrays[j].slot
    ensures G.ArraysOf(c, arrays)
  {
  }

  /** Compiled programs behave alike on both machines, whatever the order of the global arrays. */
  lemma CompiledCodeNeedsNoCollector(p: Program, arrays: seq<GlobalInfo>)
    requires Comparable(p) && G.ArraysOf(Compile(p), arrays) && M.Run(Compile(p)).trap != StackOverflow
    ensures G.Run(Compile(p), arrays) == M.Run(Compile(p))
  {
    hide Comparable, Compile, Orderly, P.GlobalsOk, M.Run, G.Run;
    var plans := PlansOf(p);
    CollectedRunsAgreeUnlessFull(Compile(p), plans, arrays);
  }

  /** The garbage-collected machine, too, shows the oracle's outcome. */
  lemma CollectedCodeShowsTheOracle(p: Program, arrays: seq<GlobalInfo>)
    requires Comparable(p) && !HitsLimit(p) && G.ArraysOf(Compile(p), arrays)
    ensures Shown(G.Run(Compile(p), arrays)) == O.Run(p) <==> !RejectsVisibleStore(p)
  {
    hide Comparable, Compile, M.Run, G.Run, O.RunEffect, O.Run;
    CompiledCodeNeedsNoCollector(p, arrays);
    CompiledCodeShowsTheOracle(p);
  }

  /**
   * Compiled programs of moderate height are accepted by the verifier, and whatever its report says holds of their
   * runs: they succeed, run out of cycles, or trap as announced, and are never malformed.
   */
  lemma CompiledRunsAreSafe(p: Program, report: P.Report, w: V.Proof)
    requires Comparable(p) && HeightWithin(p, MAX_OPERAND_STACK) && P.Backed(Compile(p), report, w)
    requires report.maxFrameDepth.Some? ==> F.Longest(report.edges, Compile(p).mainFuncId, report.maxFrameDepth.value)
    requires report.maxFrameDepth.None? || report.maxFrameDepth.value > MAX_FRAMES ==> StackOverflow in report.traps
    ensures P.Valid(Compile(p))
    ensures var r := M.Run(Compile(p));
      && (r.success || r.trap == CycleLimit || (r.trap in report.traps && !R.Malformed(r.trap))
          || (r.trap == StackOverflow && (r.stackDepth >= MAX_OPERAND_STACK || R.StorageRunsOut(Compile(p), report.edges))))
      && (!r.success ==> !R.Malformed(r.trap))
      && (report.maxFrameDepth.Some? ==> r.frameDepth <= report.maxFrameDepth.value)
  {
    hide Comparable, Compile, P.Valid, P.Backed, HeightWithin, V.Disciplined, M.Run, F.Longest, R.StorageRunsOut;
    CompiledIsValid(p);
    MainIsPlain(p);
    CompiledRunsAreDisciplined(p);
    R.VerifiedRunsAreSafe(Compile(p), report, w);
  }

  lemma CompiledEntries(p: Program)
    requires Comparable(p)
    ensures D.EntriesInRange(Compile(p))
  {
    hide Comparable, Compile, RangeOf;
    FunctionIdsAre(p);
    forall i <- Compile(p).functions ensures Compile(p).functions[i].entryPc < |Compile(p).instructions| {
      CompiledRange(p, i);
    }
  }

  lemma OnlyKey(keys: set<nat>, a: nat, b: nat)
    requires |keys| == 1 && a in keys && b in keys
    ensures a == b
  {
    assert |keys - {a}| == 0;
    assert b !in keys - {a};
  }

  /** A program of one function starts at address 0. */
  lemma SingleEntersAtZero(p: Program)
    requires Comparable(p) && |Compile(p).functions| == 1
    ensures N.EntersAtZero(Compile(p))
  {
    hide Comparable, Compile, Size, LocalTable;
    FunctionIdsAre(p);
    forall id <- Compile(p).functions ensures Compile(p).functions[id].entryPc == 0 {
      OnlyKey(Compile(p).functions.Keys, id, 0);
      CompiledRange(p, id);
    }
  }

  /**
   * Optimized code still shows the oracle's outcome. Only programs of a single jump-free function need a premise
   * beyond the compiler's: that their run was verified and keeps no arrays among its locals.
   */
  lemma OptimizedCodeShowsTheOracle(p: Program, w: V.Proof)
    requires Comparable(p) && !HitsLimit(p)
    requires Z.CanRunSizeChangingPasses(Compile(p)) ==>
      P.Valid(Compile(p)) && V.Verified(Compile(p), w) && Z.NoLocalArrays(Compile(p).instructions)
    ensures Shown(M.Run(Z.Optimized(Compile(p)))) == O.Run(p) <==> !RejectsVisibleStore(p)
  {
    hide Comparable, Compile, M.Run, O.RunEffect, O.Run, P.Valid, V.Verified, Z.NoLocalArrays, Z.Optimized, D.EntriesInRange,
      N.EntersAtZero;
    var c := Compile(p);
    CompiledCodeShowsTheOracle(p);
    if Z.CanRunSizeChangingPasses(c) {
      MainIsPlain(p);
      SingleEntersAtZero(p);
      Z.VerifiedOptimizedRunsAgree(c, w);
    } else {
      CompiledEntries(p);
      CompiledSize(p);
      Z.OptimizedKeepsCycles(c);
    }
  }
}
