/** Programs that show why the theorems' premises are there: each fails one of them, and the conclusion with it. */
module Counterexamples {
  import opened Common
  import opened Int32
  import opened Limits
  import opened Bytecode
  import M = Machine
  import V = Verifier
  import W = Worklist
  import P = ProgramVerifier
  import S = VerifierSound
  import J = Jit

  // ---------------------------------------------------------------- a main with parameters

  /** `main` takes a parameter that nobody passes. */
  function UnpreparedMain(): CompiledProgram {
    CompiledProgram(
      [Instruction(LoadLocal, 0, 0), Instruction(Opcode.Return, 0, 0)],
      map[0 := FunctionInfo("main", 0, 0, 1, 1)], map[], 0)
  }

  function UnpreparedRange(): V.Range {
    V.Range(0, FunctionInfo("main", 0, 0, 1, 1), 0, 2)
  }

  function UnpreparedProof(): S.Proof {
    S.Proof(map[0 := UnpreparedRange()],
            map[0 := map[0 := V.AbstractState(0, [true]), 1 := V.AbstractState(1, [true])]], {}, {})
  }

  lemma UnpreparedSteps()
    ensures W.EntryInit(UnpreparedRange()) == [true]
    ensures W.StepAt(UnpreparedMain(), UnpreparedRange(), 0, V.AbstractState(0, [true])) == V.Stepped(V.AbstractState(1, [true]), [1], [], {})
    ensures W.StepAt(UnpreparedMain(), UnpreparedRange(), 1, V.AbstractState(1, [true])) == V.Stepped(V.AbstractState(0, [true]), [], [], {})
  {
    assert W.EntryInit(UnpreparedRange()) == [true];
  }

  lemma UnpreparedFlows(pc: nat)
    requires pc < 2
    ensures W.Flows(UnpreparedMain(), UnpreparedRange(), UnpreparedProof().states[0], pc, {}, {})
  {
    hide W.StepAt;
    UnpreparedSteps();
  }

  lemma UnpreparedIsVerified()
    ensures S.Verified(UnpreparedMain(), UnpreparedProof())
  {
    hide W.StepAt, W.Flows;
    var p, w, r := UnpreparedMain(), UnpreparedProof(), UnpreparedRange();
    UnpreparedSteps();
    UnpreparedFlows(0);
    UnpreparedFlows(1);
    assert W.Solved(p, r, w.states[0], {}, {});
    assert S.FunctionVerified(p, w, 0);
  }

  lemma UnpreparedIsValid()
    ensures P.Valid(UnpreparedMain())
  {
    hide W.StepAt;
    var p, r := UnpreparedMain(), UnpreparedRange();
    var depths: map<nat, nat> := map[0 := 0, 1 := 1];
    UnpreparedSteps();
    assert W.BalancedAt(p, r, depths, 0) && W.BalancedAt(p, r, depths, 1);
    assert P.OwnRange(p, 0, r) && W.Balanced(p, r, depths);
    assert P.FunctionSound(p, 0);
    assert P.InfoOk(p, 0);
  }

  /**
   * The verifier takes the parameters of every function for initialized, but nobody passes any to `main`: this program
   * is valid, announces no trap and is let through to the JIT, yet it traps. The safety theorems require a plain main.
   */
  lemma ParametersOfMainAreUndefined()
    ensures var p := UnpreparedMain();
      && P.Valid(p) && S.Verified(p, UnpreparedProof()) && UnpreparedProof().traps == {} && J.Eligible(p, {})
      && M.Run(p).trap == UndefinedLocal && !S.PlainMain(p)
  {
    hide P.Valid, S.Verified;
    UnpreparedIsVerified();
    UnpreparedIsValid();
    UnpreparedTraps();
    assert J.StraightTo(UnpreparedMain().instructions, 0, 1);
  }

  lemma UnpreparedTraps()
    ensures M.Run(UnpreparedMain()).trap == UndefinedLocal
  {
    var p := UnpreparedMain();
    assert M.Validate(p).None?;
    var s := M.Boot(p);
    assert M.TakeTurn(p, s).Stop?;
  }
}
