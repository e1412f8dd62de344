/** The verifier's worklist: it reaches a fixed point, the fixed point is exact, and an error is reported only for unbalanced code. */
module Worklist {
  import opened Common
  import opened Limits
  import opened Bytecode
  import opened Verifier

  type States = map<nat, AbstractState>

  datatype Check = Check(errors: seq<nat>, traps: set<TrapCode>, edges: set<(nat, nat)>, reachable: nat, maxDepth: nat)

  // ---------------------------------------------------------------- solutions

  predicate RangeOk(p: CompiledProgram, r: Range) {
    r.start < r.end <= |p.instructions|
  }

  /** Parameters are initialized on entry, nothing else is. */
  function EntryInit(r: Range): seq<bool> {
    seq(r.info.localCount, i => i < r.info.paramCount)
  }

  predicate WellTyped(p: CompiledProgram, r: Range, states: States) {
    forall pc <- states :: InRange(r, pc) && pc < |p.instructions| && |states[pc].init| == r.info.localCount
  }

  function StepAt(p: CompiledProgram, r: Range, pc: nat, st: AbstractState): AbstractStep
    requires pc < |p.instructions| && |st.init| == r.info.localCount
  {
    StepInstruction(p, r, pc, p.instructions[pc], st)
  }

  /** What a step passes on is accounted for in the successor's state. */
  predicate Covers(states: States, succ: nat, st: AbstractState) {
    succ in states && states[succ].depth == st.depth && Below(states[succ].init, st.init)
  }

  /** The step of pc is accepted and everything it yields is accounted for. */
  ghost predicate Flows(p: CompiledProgram, r: Range, states: States, pc: nat, traps: set<TrapCode>, edges: set<(nat, nat)>)
    requires pc in states && pc < |p.instructions| && |states[pc].init| == r.info.localCount
  {
    var s := StepAt(p, r, pc, states[pc]);
    && s.Stepped?
    && s.traps <= traps
    && (forall callee <- s.callees :: (r.id, callee) in edges)
    && s.st.depth <= MAX_OPERAND_STACK
    && (forall succ <- s.succs :: InRange(r, succ) && Covers(states, succ, s.st))
  }

  /** The states are stable under every instruction: an inductive description of all runs of the function. */
  ghost predicate Solved(p: CompiledProgram, r: Range, states: States, traps: set<TrapCode>, edges: set<(nat, nat)>) {
    && WellTyped(p, r, states)
    && Covers(states, r.start, AbstractState(0, EntryInit(r)))
    && forall pc <- states :: Flows(p, r, states, pc, traps, edges)
  }

  // ---------------------------------------------------------------- paths

  ghost predicate IsPath(p: CompiledProgram, r: Range, path: seq<nat>) {
    && path != [] && path[0] == r.start
    && forall k :: 0 <= k < |path| - 1 ==>
         path[k] < |p.instructions| && path[k + 1] in Successors(p.instructions[path[k]], path[k])
  }

  predicate Stores(p: CompiledProgram, pc: nat, local: nat) {
    pc < |p.instructions| && p.instructions[pc].opcode == StoreLocal && p.instructions[pc].arg1 == local
  }

  /** A way to pc, from the entry, on which the local is never stored. */
  ghost predicate Avoids(p: CompiledProgram, r: Range, path: seq<nat>, pc: nat, local: nat) {
    && IsPath(p, r, path) && path[|path| - 1] == pc
    && forall k :: 0 <= k < |path| - 1 ==> !Stores(p, path[k], local)
  }

  ghost predicate Avoidable(p: CompiledProgram, r: Range, pc: nat, local: nat) {
    exists path :: Avoids(p, r, path, pc, local)
  }

  ghost predicate Reachable(p: CompiledProgram, r: Range, pc: nat) {
    exists path :: IsPath(p, r, path) && path[|path| - 1] == pc
  }

  /** Nothing in the states is invented: each state, and each cleared bit, is witnessed by a path. */
  ghost predicate Witnessed(p: CompiledProgram, r: Range, states: States) {
    && (forall pc <- states :: Reachable(p, r, pc))
    && forall pc, l :: pc in states && 0 <= l < |states[pc].init| && !states[pc].init[l] ==>
         l >= r.info.paramCount && Avoidable(p, r, pc, l)
  }

  lemma EntryReachable(p: CompiledProgram, r: Range, l: nat)
    ensures Reachable(p, r, r.start) && Avoidable(p, r, r.start, l)
  {
    assert Avoids(p, r, [r.start], r.start, l);
  }

  lemma ReachNext(p: CompiledProgram, r: Range, pc: nat, succ: nat)
    requires pc < |p.instructions| && succ in Successors(p.instructions[pc], pc) && Reachable(p, r, pc)
    ensures Reachable(p, r, succ)
  {
    var path :| IsPath(p, r, path) && path[|path| - 1] == pc;
    assert IsPath(p, r, path + [succ]);
    assert (path + [succ])[|path|] == succ;
  }

  lemma AvoidNext(p: CompiledProgram, r: Range, pc: nat, succ: nat, l: nat)
    requires pc < |p.instructions| && succ in Successors(p.instructions[pc], pc) && Avoidable(p, r, pc, l) && !Stores(p, pc, l)
    ensures Avoidable(p, r, succ, l)
  {
    var path :| Avoids(p, r, path, pc, l);
    assert Avoids(p, r, path + [succ], succ, l);
  }

  /** A step from a witnessed state yields witnessed bits at its successors. */
  lemma StepWitnessed(p: CompiledProgram, r: Range, states: States, pc: nat, succ: nat)
    requires WellTyped(p, r, states) && Witnessed(p, r, states) && pc in states
    requires var s := StepAt(p, r, pc, states[pc]); s.Stepped? && succ in s.succs
    ensures var s := StepAt(p, r, pc, states[pc]);
      && |s.st.init| == r.info.localCount
      && Reachable(p, r, succ)
      && forall l :: 0 <= l < |s.st.init| && !s.st.init[l] ==> l >= r.info.paramCount && Avoidable(p, r, succ, l)
  {
    StepShape(p, r, pc, p.instructions[pc], states[pc]);
    hide StepInstruction;
    ReachNext(p, r, pc, succ);
    var s := StepAt(p, r, pc, states[pc]);
    forall l | 0 <= l < |s.st.init| && !s.st.init[l] ensures l >= r.info.paramCount && Avoidable(p, r, succ, l) {
      AvoidNext(p, r, pc, succ, l);
    }
  }

  /** Along every path the solution is right: a marked local was stored on the way, or is a parameter. */
  lemma {:induction false} PathsCovered(p: CompiledProgram, r: Range, states: States, traps: set<TrapCode>, edges: set<(nat, nat)>,
                                        path: seq<nat>, l: nat)
    requires Solved(p, r, states, traps, edges) && IsPath(p, r, path)
    ensures var pc := path[|path| - 1];
      pc in states && (l < |states[pc].init| && states[pc].init[l] ==> l < r.info.paramCount || exists k :: 0 <= k < |path| - 1 && Stores(p, path[k], l))
    decreases |path|
  {
    hide StepInstruction;
    if |path| > 1 {
      var before := path[..|path| - 1];
      assert IsPath(p, r, before);
      PathsCovered(p, r, states, traps, edges, before, l);
      var last, pc := path[|path| - 2], path[|path| - 1];
      assert Flows(p, r, states, last, traps, edges);
      StepShape(p, r, last, p.instructions[last], states[last]);
      assert Covers(states, pc, StepAt(p, r, last, states[last]).st);
      if l < |states[pc].init| && states[pc].init[l] && l >= r.info.paramCount {
        if states[last].init[l] {
          var k :| 0 <= k < |before| - 1 && Stores(p, before[k], l);
          assert Stores(p, path[k], l);
        } else {
          assert Stores(p, path[|path| - 2], l);
        }
      }
    }
  }

  /**
   * The fixed point is exact: the verifier has a state for a pc exactly when control can reach it, and marks a
   * local there exactly when it is a parameter or every path from the entry stores it.
   */
  lemma FixedPointIsExact(p: CompiledProgram, r: Range, states: States, traps: set<TrapCode>, edges: set<(nat, nat)>, pc: nat)
    requires Solved(p, r, states, traps, edges) && Witnessed(p, r, states)
    ensures pc in states <==> Reachable(p, r, pc)
    ensures pc in states ==> forall l :: 0 <= l < |states[pc].init| ==>
      (states[pc].init[l] <==> l < r.info.paramCount || !Avoidable(p, r, pc, l))
  {
    if Reachable(p, r, pc) {
      var path :| IsPath(p, r, path) && path[|path| - 1] == pc;
      PathsCovered(p, r, states, traps, edges, path, 0);
    }
    if pc in states {
      forall l | 0 <= l < |states[pc].init|
        ensures states[pc].init[l] <==> l < r.info.paramCount || !Avoidable(p, r, pc, l)
      {
        if Avoidable(p, r, pc, l) {
          var path :| Avoids(p, r, path, pc, l);
          PathsCovered(p, r, states, traps, edges, path, l);
        }
      }
    }
  }

  // ---------------------------------------------------------------- balanced code

  /** A depth for every pc control may reach, consistent along every edge: what error-free code means. */
  ghost predicate Balanced(p: CompiledProgram, r: Range, depths: map<nat, nat>) {
    && r.start in depths && depths[r.start] == 0
    && forall pc <- depths :: InRange(r, pc) && pc < |p.instructions| && BalancedAt(p, r, depths, pc)
  }

  ghost predicate BalancedAt(p: CompiledProgram, r: Range, depths: map<nat, nat>, pc: nat)
    requires pc in depths && pc < |p.instructions|
  {
    var s := StepAt(p, r, pc, AbstractState(depths[pc], EntryInit(r)));
    && s.Stepped? && s.st.depth <= MAX_OPERAND_STACK
    && forall succ <- s.succs :: InRange(r, succ) && succ in depths && depths[succ] == s.st.depth
  }

  /** A solution makes the code balanced. */
  lemma SolvedIsBalanced(p: CompiledProgram, r: Range, states: States, traps: set<TrapCode>, edges: set<(nat, nat)>)
    requires Solved(p, r, states, traps, edges)
    ensures Balanced(p, r, map pc <- states :: states[pc].depth)
  {
    var depths := map pc <- states :: states[pc].depth;
    forall pc | pc in depths ensures BalancedAt(p, r, depths, pc) {
      assert Flows(p, r, states, pc, traps, edges);
      var st := AbstractState(depths[pc], EntryInit(r));
      StepDepthOnly(p, r, pc, p.instructions[pc], states[pc], st);
      StepShape(p, r, pc, p.instructions[pc], states[pc]);
      StepShape(p, r, pc, p.instructions[pc], st);
      hide StepInstruction;
    }
  }

  // ---------------------------------------------------------------- passing a state on

  function Pcs(r: Range): set<nat> {
    set pc: nat | pc < r.end && InRange(r, pc)
  }

  /** The set bits still to lose. */
  function Bits(states: States): set<(nat, nat)> {
    set pc <- states, l: nat | l < |states[pc].init| && states[pc].init[l] :: (pc, l)
  }

  predicate Cleared(states: States, q: nat, l: int) {
    q in states && 0 <= l < |states[q].init| && !states[q].init[l]
  }

  /** The states only lose bits, gain only successors, and whatever changed is queued again. */
  ghost predicate Passed(r: Range, states: States, states': States, queue: seq<nat>, queue': seq<nat>, st: AbstractState, succs: seq<nat>) {
    && (forall q <- states :: q in states' && states'[q].depth == states[q].depth && Below(states'[q].init, states[q].init))
    && (forall q <- states :: states'[q] != states[q] ==> q in queue')
    && (forall q <- states' :: q !in states ==> q in queue' && q in succs && InRange(r, q) && states'[q].depth == st.depth)
    && (forall q <- states', l :: Cleared(states', q, l) ==> Cleared(states, q, l) || (q in succs && 0 <= l < |st.init| && !st.init[l]))
    && (forall q <- queue :: q in queue')
    && (forall q <- queue' :: q in states')
  }

  /** The worklist measure went down, or nothing happened. */
  ghost predicate Shrinks(r: Range, states: States, states': States, queue: seq<nat>, queue': seq<nat>) {
    || (states' == states && queue' == queue)
    || Pcs(r) - states'.Keys < Pcs(r) - states.Keys
    || (states'.Keys == states.Keys && Bits(states') < Bits(states))
  }

  lemma ShrinksOn(r: Range, s0: States, s1: States, s2: States, q0: seq<nat>, q1: seq<nat>, q2: seq<nat>)
    requires Shrinks(r, s0, s1, q0, q1) && Shrinks(r, s1, s2, q1, q2)
    requires s0.Keys <= s1.Keys <= s2.Keys
    ensures Shrinks(r, s0, s2, q0, q2)
  {
    hide Bits;
  }

  lemma LostBits(states: States, q: nat, st: AbstractState)
    requires q in states && Below(st.init, states[q].init) && st.init != states[q].init
    ensures Bits(states[q := st]) < Bits(states)
  {
    var states' := states[q := st];
    var l :| 0 <= l < |st.init| && states[q].init[l] && !st.init[l];
    assert (q, l) in Bits(states) && (q, l) !in Bits(states');
    forall b | b in Bits(states') ensures b in Bits(states) {
    }
  }

  /** One successor: insert its state, or meet with the one it has. */
  method PassTo(p: CompiledProgram, r: Range, states: States, queue: seq<nat>, st: AbstractState, succ: nat)
    returns (states': States, queue': seq<nat>, error: bool)
    requires RangeOk(p, r) && WellTyped(p, r, states) && |st.init| == r.info.localCount && forall q <- queue :: q in states
    ensures WellTyped(p, r, states')
    ensures Passed(r, states, states', queue, queue', st, [succ]) && Shrinks(r, states, states', queue, queue')
    ensures error <==> !InRange(r, succ) || (succ in states && states[succ].depth != st.depth)
    ensures !error ==> Covers(states', succ, st)
  {
    states', queue', error := states, queue, false;
    if !InRange(r, succ) {
      error := true;
    } else if succ in states {
      var existing := states[succ];
      if existing.depth != st.depth {
        error := true;
      } else {
        var merged := Meet(existing.init, st.init);
        if merged != existing.init {
          LostBits(states, succ, AbstractState(existing.depth, merged));
          states' := states[succ := AbstractState(existing.depth, merged)];
          queue' := queue + [succ];
        }
      }
    } else {
      states' := states[succ := st];
      queue' := queue + [succ];
      assert succ in Pcs(r) - states.Keys && succ !in Pcs(r) - states'.Keys;
    }
  }

  /** All successors of one step. */
  method PassOn(p: CompiledProgram, r: Range, states: States, queue: seq<nat>, st: AbstractState, succs: seq<nat>)
    returns (states': States, queue': seq<nat>, errors: nat)
    requires RangeOk(p, r) && WellTyped(p, r, states) && |st.init| == r.info.localCount && forall q <- queue :: q in states
    ensures WellTyped(p, r, states')
    ensures Passed(r, states, states', queue, queue', st, succs) && Shrinks(r, states, states', queue, queue')
    ensures errors == 0 ==> forall succ <- succs :: InRange(r, succ) && Covers(states', succ, st)
    ensures (forall succ <- succs :: InRange(r, succ) && (succ in states ==> states[succ].depth == st.depth)) ==> errors == 0
  {
    states', queue', errors := states, queue, 0;
    for i := 0 to |succs|
      invariant WellTyped(p, r, states')
      invariant Passed(r, states, states', queue, queue', st, succs) && Shrinks(r, states, states', queue, queue')
      invariant errors == 0 ==> forall j :: 0 <= j < i ==> InRange(r, succs[j]) && Covers(states', succs[j], st)
      invariant (forall succ <- succs :: InRange(r, succ) && (succ in states ==> states[succ].depth == st.depth)) ==> errors == 0
    {
      var next, more, error := PassTo(p, r, states', queue', st, succs[i]);
      PassedOn(r, states, states', next, queue, queue', more, st, succs, succs[i]);
      ShrinksOn(r, states, states', next, queue, queue', more);
      StillCovered(r, states', next, queue', more, st, succs[i], succs[..i]);
      if error {
        errors := errors + 1;
      }
      states', queue' := next, more;
    }
  }

  lemma PassedOn(r: Range, s0: States, s1: States, s2: States, q0: seq<nat>, q1: seq<nat>, q2: seq<nat>, st: AbstractState, succs: seq<nat>, succ: nat)
    requires Passed(r, s0, s1, q0, q1, st, succs) && Passed(r, s1, s2, q1, q2, st, [succ]) && succ in succs
    ensures Passed(r, s0, s2, q0, q2, st, succs)
  {
    forall q | q in s0 ensures Below(s2[q].init, s0[q].init) && (s2[q] != s0[q] ==> q in q2) {
      assert Below(s2[q].init, s1[q].init) && Below(s1[q].init, s0[q].init);
    }
  }

  lemma StillCovered(r: Range, s1: States, s2: States, q1: seq<nat>, q2: seq<nat>, st: AbstractState, succ: nat, done: seq<nat>)
    requires Passed(r, s1, s2, q1, q2, st, [succ])
    ensures forall j :: 0 <= j < |done| && Covers(s1, done[j], st) ==> Covers(s2, done[j], st)
  {
  }

  // ---------------------------------------------------------------- the loop

  /** Every reported trap and call edge comes from the final state of some instruction. */
  ghost predicate Justified(p: CompiledProgram, r: Range, states: States, traps: set<TrapCode>, edges: set<(nat, nat)>)
    requires WellTyped(p, r, states)
  {
    && (forall t <- traps :: exists pc <- states :: t in StepAt(p, r, pc, states[pc]).traps)
    && (forall e <- edges :: e.0 == r.id && exists pc <- states ::
          var s := StepAt(p, r, pc, states[pc]); s.Stepped? && e.1 in s.callees)
  }

  /** Balanced code raises no error, and the states carry its depths. */
  ghost predicate FollowsBalance(p: CompiledProgram, r: Range, states: States, errors: seq<nat>) {
    forall depths :: Balanced(p, r, depths) ==>
      errors == [] && forall pc <- states :: pc in depths && states[pc].depth == depths[pc]
  }

  /** The part of the loop invariant that holds whatever was reported. */
  ghost predicate LoopInv(p: CompiledProgram, r: Range, states: States, queue: seq<nat>) {
    && WellTyped(p, r, states)
    && Witnessed(p, r, states)
    && Covers(states, r.start, AbstractState(0, EntryInit(r)))
    && forall q <- queue :: q in states
  }

  ghost predicate Settled(p: CompiledProgram, r: Range, states: States, queue: seq<nat>, traps: set<TrapCode>, edges: set<(nat, nat)>)
    requires WellTyped(p, r, states)
  {
    forall pc <- states :: pc in queue || Flows(p, r, states, pc, traps, edges)
  }

  /**
   * Verifies one function. No error is reported exactly when the code is balanced, and then the states are a
   * solution, each of them and each cleared bit is witnessed by a path, and each trap and edge by an instruction; the
   * depth reported is the greatest of a state.
   */
  method VerifyFunction(p: CompiledProgram, r: Range) returns (check: Check, states: States)
    requires RangeOk(p, r)
    ensures check.errors == [] <==> exists depths :: Balanced(p, r, depths)
    ensures check.errors == [] ==> Solved(p, r, states, check.traps, check.edges) && Witnessed(p, r, states)
    ensures check.errors == [] ==> Justified(p, r, states, check.traps, check.edges)
    ensures check.errors == [] ==> check.reachable == |states| && Greatest(states, check.maxDepth)
  {
    hide StepInstruction, Justified, FollowsBalance, Balanced, Witnessed, Settled, Bits, Solved, Passed, Visited, LoopInv, Covers, Met, Greatest;
    states := map[r.start := AbstractState(0, EntryInit(r))];
    var queue := [r.start];
    var errors: seq<nat>, traps: set<TrapCode>, edges: set<(nat, nat)>, reachable: set<nat>, maxDepth := [], {}, {}, {}, 0;
    AtEntry(p, r, states);
    MetAtEntry(p, r, states);
    assert Visited(states, queue, reachable, maxDepth) by {
      NothingVisited(states, r.start);
    }
    while queue != []
      invariant WellTyped(p, r, states) && LoopInv(p, r, states, queue)
      invariant errors == [] ==> Settled(p, r, states, queue, traps, edges)
      invariant Justified(p, r, states, traps, edges)
      invariant FollowsBalance(p, r, states, errors)
      invariant Visited(states, queue, reachable, maxDepth)
      invariant Met(p, r, states, maxDepth)
      decreases Pcs(r) - states.Keys, Bits(states), |queue|
    {
      var pc := queue[0];
      LoopParts(p, r, states, queue);
      var state := states[pc];
      ghost var reachable0, maxDepth0 := reachable, maxDepth;
      StillThere(states, queue, reachable, maxDepth);
      reachable := reachable + {pc};
      maxDepth := Max(maxDepth, state.depth);
      var step := StepAt(p, r, pc, state);
      ghost var states0, queue0, traps0, edges0, errors0 := states, queue, traps, edges, errors;
      queue := queue[1..];
      traps := traps + step.traps;
      if step.Rejected? {
        errors := errors + [pc];
        RejectedStep(p, r, states, errors0, pc);
        VisitedOne(states, queue0, reachable0, maxDepth0, reachable, maxDepth);
        LessQueued(p, r, states, queue0);
        StillJustified(p, r, states, states, pc, traps0, traps, edges0, edges);
        MetAgain(p, r, states, pc, maxDepth0);
      } else {
        maxDepth := Max(maxDepth, step.st.depth);
        edges := edges + (set callee <- step.callees :: (r.id, callee));
        if step.st.depth > MAX_OPERAND_STACK {
          errors := errors + [pc];
        }
        StepShape(p, r, pc, p.instructions[pc], state);
        var bad;
        states, queue, bad := PassOn(p, r, states, queue, step.st, step.succs);
        errors := errors + seq(bad, _ => pc);
        VisitedMore(r, states0, states, queue0, queue, step.st, step.succs, reachable0, maxDepth0, reachable, maxDepth);
        PassedKeeps(p, r, states0, states, queue0, queue, pc, traps0, traps, edges0, edges, errors0, errors, bad);
        MetMore(p, r, states0, states, queue0[1..], queue, pc, maxDepth0);
      }
    }
    check := Check(errors, traps, edges, |reachable|, maxDepth);
    AtExit(p, r, states, errors, traps, edges);
    if errors == [] {
      AllVisited(p, r, states, reachable, traps, edges, maxDepth);
    }
  }

  /** Some state has the depth, or a step passes it on. */
  ghost predicate Met(p: CompiledProgram, r: Range, states: States, depth: nat)
    requires WellTyped(p, r, states)
  {
    exists pc <- states ::
      || states[pc].depth == depth
      || (var s := StepAt(p, r, pc, states[pc]); s.Stepped? && s.succs != [] && s.st.depth == depth)
  }

  lemma MetAtEntry(p: CompiledProgram, r: Range, states: States)
    requires RangeOk(p, r) && states == map[r.start := AbstractState(0, EntryInit(r))]
    ensures Met(p, r, states, 0)
  {
    assert states[r.start].depth == 0;
  }

  lemma MetAgain(p: CompiledProgram, r: Range, states: States, pc: nat, depth: nat)
    requires WellTyped(p, r, states) && pc in states && Met(p, r, states, depth)
    ensures Met(p, r, states, Max(depth, states[pc].depth))
  {
    hide StepInstruction;
  }

  /** A step that raises the depth goes on somewhere. */
  lemma RaisingGoesOn(p: CompiledProgram, r: Range, pc: nat, st: AbstractState)
    requires pc < |p.instructions| && |st.init| == r.info.localCount
    ensures var s := StepAt(p, r, pc, st); s.Stepped? && s.st.depth > st.depth ==> s.succs != []
  {
  }

  lemma MetMore(p: CompiledProgram, r: Range, states: States, states': States, queue: seq<nat>, queue': seq<nat>, pc: nat, depth: nat)
    requires WellTyped(p, r, states) && WellTyped(p, r, states') && pc in states && Met(p, r, states, depth)
    requires var s := StepAt(p, r, pc, states[pc]); s.Stepped? && Passed(r, states, states', queue, queue', s.st, s.succs)
    ensures Met(p, r, states', Max(Max(depth, states[pc].depth), StepAt(p, r, pc, states[pc]).st.depth))
  {
    hide StepInstruction;
    RaisingGoesOn(p, r, pc, states[pc]);
    var q :| q in states && (states[q].depth == depth
      || (var s := StepAt(p, r, q, states[q]); s.Stepped? && s.succs != [] && s.st.depth == depth));
    SameSuccessors(p, r, q, states[q], states'[q]);
    SameSuccessors(p, r, pc, states[pc], states'[pc]);
    assert states'[q].depth == states[q].depth && states'[pc].depth == states[pc].depth;
  }

  lemma SameSuccessors(p: CompiledProgram, r: Range, pc: nat, st: AbstractState, st': AbstractState)
    requires pc < |p.instructions| && |st.init| == |st'.init| == r.info.localCount && st.depth == st'.depth
    ensures var s, s' := StepAt(p, r, pc, st), StepAt(p, r, pc, st');
      s.Stepped? ==> s'.Stepped? && s'.succs == s.succs && s'.st.depth == s.st.depth
  {
    StepDepthOnly(p, r, pc, p.instructions[pc], st, st');
    StepShape(p, r, pc, p.instructions[pc], st);
    StepShape(p, r, pc, p.instructions[pc], st');
    hide StepInstruction;
  }

  lemma MetByState(p: CompiledProgram, r: Range, states: States, traps: set<TrapCode>, edges: set<(nat, nat)>, depth: nat)
    requires Solved(p, r, states, traps, edges) && Met(p, r, states, depth)
    ensures exists pc <- states :: states[pc].depth == depth
  {
    hide StepInstruction;
    var pc :| pc in states && (states[pc].depth == depth
      || (var s := StepAt(p, r, pc, states[pc]); s.Stepped? && s.succs != [] && s.st.depth == depth));
    if states[pc].depth != depth {
      assert Flows(p, r, states, pc, traps, edges);
      var s := StepAt(p, r, pc, states[pc]);
      assert Covers(states, s.succs[0], s.st);
    }
  }

  // ---------------------------------------------------------------- what is reported

  /** The instruction at pc can trap so; a load of a local only if some way from the entry does not store it. */
  ghost predicate Raises(p: CompiledProgram, r: Range, pc: nat, t: TrapCode)
    requires pc < |p.instructions|
  {
    var instr := p.instructions[pc];
    match t
    case DivideByZero => instr.opcode == Opcode.Div
    case ArrayOutOfBounds => instr.opcode in {ArrayLoad, ArrayStore, LocalArrayLoad, LocalArrayStore}
    case CycleLimit => instr.opcode in {Jump, JumpIfFalse, JumpIfTrue} && instr.arg1 <= pc
    case UndefinedLocal =>
      && instr.opcode in {LoadLocal, LocalArrayLoad, LocalArrayStore}
      && r.info.paramCount <= instr.arg1 && Avoidable(p, r, pc, instr.arg1)
    case _ => false
  }

  ghost predicate RangeRaises(p: CompiledProgram, r: Range, t: TrapCode) {
    exists pc: nat :: pc < |p.instructions| && Reachable(p, r, pc) && Raises(p, r, pc, t)
  }

  /** Control can reach a call of the function. */
  ghost predicate RangeCalls(p: CompiledProgram, r: Range, callee: nat) {
    exists pc: nat :: pc < |p.instructions| && Reachable(p, r, pc)
      && p.instructions[pc].opcode == Opcode.Call && p.instructions[pc].arg1 == callee
  }

  /** Control can reach an instruction with that many operands on the stack. */
  ghost predicate RangeHolds(p: CompiledProgram, r: Range, depth: nat) {
    exists depths, pc: nat :: Balanced(p, r, depths) && pc in depths && Reachable(p, r, pc) && depths[pc] == depth
  }

  /** The greatest such depth. */
  ghost predicate RangePeak(p: CompiledProgram, r: Range, peak: nat) {
    RangeHolds(p, r, peak) && forall depth: nat :: RangeHolds(p, r, depth) ==> depth <= peak
  }

  predicate Greatest(states: States, peak: nat) {
    (forall pc <- states :: states[pc].depth <= peak) && exists pc <- states :: states[pc].depth == peak
  }

  lemma StepRaises(p: CompiledProgram, r: Range, pc: nat, st: AbstractState, t: TrapCode)
    requires pc < |p.instructions| && |st.init| == r.info.localCount && StepAt(p, r, pc, st).Stepped?
    requires forall l :: 0 <= l < |st.init| ==> (st.init[l] <==> l < r.info.paramCount || !Avoidable(p, r, pc, l))
    ensures t in StepAt(p, r, pc, st).traps <==> Raises(p, r, pc, t)
  {
    hide Avoidable;
  }

  lemma StepCalls(p: CompiledProgram, r: Range, pc: nat, st: AbstractState, callee: nat)
    requires pc < |p.instructions| && |st.init| == r.info.localCount && StepAt(p, r, pc, st).Stepped?
    ensures callee in StepAt(p, r, pc, st).callees <==>
      p.instructions[pc].opcode == Opcode.Call && p.instructions[pc].arg1 == callee
  {
  }

  /** The traps and calls found are exactly those of the instructions control can reach. */
  lemma CheckIsExact(p: CompiledProgram, r: Range, states: States, traps: set<TrapCode>, edges: set<(nat, nat)>)
    requires Solved(p, r, states, traps, edges) && Witnessed(p, r, states) && Justified(p, r, states, traps, edges)
    ensures forall t :: t in traps <==> RangeRaises(p, r, t)
    ensures forall e :: e in edges <==> e.0 == r.id && RangeCalls(p, r, e.1)
  {
    hide StepInstruction, Raises, Reachable, Witnessed;
    forall pc: nat, t | pc < |p.instructions| && pc in states
      ensures t in StepAt(p, r, pc, states[pc]).traps <==> Raises(p, r, pc, t)
      ensures Flows(p, r, states, pc, traps, edges)
    {
      FixedPointIsExact(p, r, states, traps, edges, pc);
      StepRaises(p, r, pc, states[pc], t);
    }
    forall t ensures t in traps <==> RangeRaises(p, r, t) {
      if t in traps {
        var pc :| pc in states && t in StepAt(p, r, pc, states[pc]).traps;
        FixedPointIsExact(p, r, states, traps, edges, pc);
      }
      if RangeRaises(p, r, t) {
        var pc: nat :| pc < |p.instructions| && Reachable(p, r, pc) && Raises(p, r, pc, t);
        FixedPointIsExact(p, r, states, traps, edges, pc);
        assert Flows(p, r, states, pc, traps, edges);
      }
    }
    forall e: (nat, nat) ensures e in edges <==> e.0 == r.id && RangeCalls(p, r, e.1) {
      if e in edges {
        var pc :| pc in states && var s := StepAt(p, r, pc, states[pc]); s.Stepped? && e.1 in s.callees;
        FixedPointIsExact(p, r, states, traps, edges, pc);
        StepCalls(p, r, pc, states[pc], e.1);
      }
      if e.0 == r.id && RangeCalls(p, r, e.1) {
        var pc: nat :| pc < |p.instructions| && Reachable(p, r, pc)
          && p.instructions[pc].opcode == Opcode.Call && p.instructions[pc].arg1 == e.1;
        FixedPointIsExact(p, r, states, traps, edges, pc);
        assert Flows(p, r, states, pc, traps, edges);
        StepCalls(p, r, pc, states[pc], e.1);
        assert e == (r.id, e.1);
      }
    }
  }

  /** All assignments of depths agree where control can go. */
  lemma {:induction false} DepthsAgree(p: CompiledProgram, r: Range, depths: map<nat, nat>, depths': map<nat, nat>, path: seq<nat>)
    requires Balanced(p, r, depths) && Balanced(p, r, depths') && IsPath(p, r, path)
    ensures var pc := path[|path| - 1]; pc in depths && pc in depths' && depths[pc] == depths'[pc]
    decreases |path|
  {
    hide StepInstruction;
    if |path| > 1 {
      var before := path[..|path| - 1];
      assert IsPath(p, r, before);
      DepthsAgree(p, r, depths, depths', before);
      var last := path[|path| - 2];
      assert BalancedAt(p, r, depths, last) && BalancedAt(p, r, depths', last);
      StepShape(p, r, last, p.instructions[last], AbstractState(depths[last], EntryInit(r)));
    }
  }

  /** The greatest depth of a state is the greatest control can meet. */
  lemma PeakIsExact(p: CompiledProgram, r: Range, states: States, traps: set<TrapCode>, edges: set<(nat, nat)>, peak: nat)
    requires Solved(p, r, states, traps, edges) && Witnessed(p, r, states) && Greatest(states, peak)
    ensures RangePeak(p, r, peak)
  {
    hide StepInstruction, Solved, Balanced, Witnessed, IsPath;
    SolvedIsBalanced(p, r, states, traps, edges);
    var own := map pc <- states :: states[pc].depth;
    var pc :| pc in states && states[pc].depth == peak;
    FixedPointIsExact(p, r, states, traps, edges, pc);
    assert Balanced(p, r, own) && pc in own && own[pc] == peak;
    forall depth: nat | RangeHolds(p, r, depth) ensures depth <= peak {
      var depths, q: nat :| Balanced(p, r, depths) && q in depths && Reachable(p, r, q) && depths[q] == depth;
      DepthsAgreeAt(p, r, depths, own, q);
    }
  }

  lemma DepthsAgreeAt(p: CompiledProgram, r: Range, depths: map<nat, nat>, depths': map<nat, nat>, pc: nat)
    requires Balanced(p, r, depths) && Balanced(p, r, depths') && Reachable(p, r, pc)
    ensures pc in depths && pc in depths' && depths[pc] == depths'[pc]
  {
    hide Balanced;
    var path :| IsPath(p, r, path) && path[|path| - 1] == pc;
    DepthsAgree(p, r, depths, depths', path);
  }

  /** Every state is queued, or was visited at a depth that was counted. */
  predicate Visited(states: States, queue: seq<nat>, reachable: set<nat>, maxDepth: nat) {
    && reachable <= states.Keys
    && forall pc <- states :: pc in queue || (pc in reachable && states[pc].depth <= maxDepth)
  }

  lemma NothingVisited(states: States, start: nat)
    requires states.Keys == {start}
    ensures Visited(states, [start], {}, 0)
  {
  }

  lemma AllVisited(p: CompiledProgram, r: Range, states: States, reachable: set<nat>, traps: set<TrapCode>, edges: set<(nat, nat)>, maxDepth: nat)
    requires Visited(states, [], reachable, maxDepth) && Solved(p, r, states, traps, edges) && Met(p, r, states, maxDepth)
    ensures |reachable| == |states| && Greatest(states, maxDepth)
  {
    hide Solved, Met;
    assert reachable == states.Keys;
    MetByState(p, r, states, traps, edges, maxDepth);
  }

  lemma LoopParts(p: CompiledProgram, r: Range, states: States, queue: seq<nat>)
    requires LoopInv(p, r, states, queue)
    ensures WellTyped(p, r, states) && forall q <- queue :: q in states
  {
  }

  lemma LessQueued(p: CompiledProgram, r: Range, states: States, queue: seq<nat>)
    requires LoopInv(p, r, states, queue) && queue != []
    ensures LoopInv(p, r, states, queue[1..])
  {
  }

  lemma StillThere(states: States, queue: seq<nat>, reachable: set<nat>, maxDepth: nat)
    requires Visited(states, queue, reachable, maxDepth)
    ensures reachable <= states.Keys
  {
  }

  lemma VisitedOne(states: States, queue: seq<nat>, before: set<nat>, depth: nat, reachable: set<nat>, maxDepth: nat)
    requires queue != [] && queue[0] in reachable && queue[0] in states && states[queue[0]].depth <= maxDepth && reachable <= states.Keys
    requires Visited(states, queue, before, depth) && before <= reachable && depth <= maxDepth
    ensures Visited(states, queue[1..], reachable, maxDepth)
  {
  }

  lemma VisitedMore(r: Range, states: States, states': States, queue: seq<nat>, queue': seq<nat>, st: AbstractState, succs: seq<nat>,
                    before: set<nat>, depth: nat, reachable: set<nat>, maxDepth: nat)
    requires queue != [] && Passed(r, states, states', queue[1..], queue', st, succs)
    requires queue[0] in reachable && queue[0] in states && states[queue[0]].depth <= maxDepth && reachable <= states.Keys
    requires Visited(states, queue, before, depth) && before <= reachable && depth <= maxDepth
    ensures Visited(states', queue', reachable, maxDepth)
  {
    VisitedOne(states, queue, before, depth, reachable, maxDepth);
  }

  /** One turn of the loop keeps its invariants. */
  lemma PassedKeeps(p: CompiledProgram, r: Range, states: States, states': States, queue: seq<nat>, queue': seq<nat>, pc: nat,
                    traps: set<TrapCode>, traps': set<TrapCode>, edges: set<(nat, nat)>, edges': set<(nat, nat)>,
                    errors: seq<nat>, errors': seq<nat>, bad: nat)
    requires LoopInv(p, r, states, queue) && WellTyped(p, r, states') && pc in states && queue != [] && queue[0] == pc
    requires var s := StepAt(p, r, pc, states[pc]);
      && s.Stepped? && Passed(r, states, states', queue[1..], queue', s.st, s.succs)
      && (bad == 0 ==> forall succ <- s.succs :: InRange(r, succ) && Covers(states', succ, s.st))
      && ((forall succ <- s.succs :: InRange(r, succ) && (succ in states ==> states[succ].depth == s.st.depth)) ==> bad == 0)
      && traps' == traps + s.traps && edges' == edges + (set callee <- s.callees :: (r.id, callee))
      && errors' == (if s.st.depth > MAX_OPERAND_STACK then errors + [pc] else errors) + seq(bad, _ => pc)
    requires Justified(p, r, states, traps, edges) && FollowsBalance(p, r, states, errors)
    requires errors == [] ==> Settled(p, r, states, queue, traps, edges)
    ensures LoopInv(p, r, states', queue') && Justified(p, r, states', traps', edges') && FollowsBalance(p, r, states', errors')
    ensures errors' == [] ==> Settled(p, r, states', queue', traps', edges')
  {
    hide StepInstruction, Justified, FollowsBalance, Witnessed, Settled;
    PassedWitnessed(p, r, states, states', queue[1..], queue', pc);
    PassedSettled(p, r, states, states', queue, queue', pc, traps, traps', edges, edges', bad);
    StillJustified(p, r, states, states', pc, traps, traps', edges, edges');
    PassedBalanced(p, r, states, states', queue[1..], queue', pc, errors, errors', bad);
  }

  lemma AtEntry(p: CompiledProgram, r: Range, states: States)
    requires RangeOk(p, r) && states == map[r.start := AbstractState(0, EntryInit(r))]
    ensures LoopInv(p, r, states, [r.start]) && Settled(p, r, states, [r.start], {}, {})
    ensures Justified(p, r, states, {}, {}) && FollowsBalance(p, r, states, [])
  {
    EntryReachable(p, r, 0);
    forall l: nat ensures Avoidable(p, r, r.start, l) {
      EntryReachable(p, r, l);
    }
  }

  lemma AtExit(p: CompiledProgram, r: Range, states: States, errors: seq<nat>, traps: set<TrapCode>, edges: set<(nat, nat)>)
    requires LoopInv(p, r, states, []) && FollowsBalance(p, r, states, errors)
    requires errors == [] ==> Settled(p, r, states, [], traps, edges)
    ensures errors == [] <==> exists depths :: Balanced(p, r, depths)
    ensures errors == [] ==> Solved(p, r, states, traps, edges)
    ensures Witnessed(p, r, states)
  {
    if errors == [] {
      SolvedIsBalanced(p, r, states, traps, edges);
    }
  }

  function Max(a: nat, b: nat): nat {
    if a < b then b else a
  }

  lemma RejectedStep(p: CompiledProgram, r: Range, states: States, errors: seq<nat>, pc: nat)
    requires WellTyped(p, r, states) && pc in states && StepAt(p, r, pc, states[pc]).Rejected?
    requires FollowsBalance(p, r, states, errors)
    ensures FollowsBalance(p, r, states, errors + [pc])
  {
    forall depths | Balanced(p, r, depths) ensures false {
      assert BalancedAt(p, r, depths, pc);
      StepDepthOnly(p, r, pc, p.instructions[pc], states[pc], AbstractState(depths[pc], EntryInit(r)));
    }
  }

  /** A bit cleared while passing on was clear in the state passed on. */
  lemma ClearedBit(r: Range, states: States, states': States, queue: seq<nat>, queue': seq<nat>, st: AbstractState, succs: seq<nat>, q: nat, l: nat)
    requires Passed(r, states, states', queue, queue', st, succs)
    requires Cleared(states', q, l) && !Cleared(states, q, l)
    ensures q in succs && l < |st.init| && !st.init[l]
  {
  }

  lemma PassedWitnessed(p: CompiledProgram, r: Range, states: States, states': States, queue: seq<nat>, queue': seq<nat>, pc: nat)
    requires LoopInv(p, r, states, queue) && pc in states && WellTyped(p, r, states')
    requires var s := StepAt(p, r, pc, states[pc]); s.Stepped? && Passed(r, states, states', queue, queue', s.st, s.succs)
    ensures LoopInv(p, r, states', queue')
  {
    hide StepInstruction, Reachable, Avoidable;
    var s := StepAt(p, r, pc, states[pc]);
    forall q | q in states' ensures Reachable(p, r, q) {
      if q !in states { StepWitnessed(p, r, states, pc, q); }
    }
    forall q, l | q in states' && 0 <= l < |states'[q].init| && !states'[q].init[l]
      ensures l >= r.info.paramCount && Avoidable(p, r, q, l)
    {
      if !Cleared(states, q, l) {
        ClearedBit(r, states, states', queue, queue', s.st, s.succs, q, l);
        StepWitnessed(p, r, states, pc, q);
      }
    }
    assert Below(states'[r.start].init, EntryInit(r)) by {
      assert Below(states'[r.start].init, states[r.start].init);
    }
  }

  lemma PassedSettled(p: CompiledProgram, r: Range, states: States, states': States, queue: seq<nat>, queue': seq<nat>, pc: nat,
                      traps: set<TrapCode>, traps': set<TrapCode>, edges: set<(nat, nat)>, edges': set<(nat, nat)>, bad: nat)
    requires WellTyped(p, r, states) && WellTyped(p, r, states') && pc in states && queue != [] && queue[0] == pc
    requires var s := StepAt(p, r, pc, states[pc]);
      && s.Stepped? && Passed(r, states, states', queue[1..], queue', s.st, s.succs)
      && (bad == 0 ==> forall succ <- s.succs :: InRange(r, succ) && Covers(states', succ, s.st))
      && traps' == traps + s.traps && edges' == edges + (set callee <- s.callees :: (r.id, callee))
    ensures Settled(p, r, states, queue, traps, edges) && bad == 0 && StepAt(p, r, pc, states[pc]).st.depth <= MAX_OPERAND_STACK
      ==> Settled(p, r, states', queue', traps', edges')
  {
    hide StepInstruction;
    var s := StepAt(p, r, pc, states[pc]);
    if Settled(p, r, states, queue, traps, edges) && bad == 0 && s.st.depth <= MAX_OPERAND_STACK {
      forall q | q in states' && q !in queue' ensures Flows(p, r, states', q, traps', edges') {
        assert q in states && states'[q] == states[q];
        if q != pc {
          assert q !in queue;
          assert Flows(p, r, states, q, traps, edges);
          var t := StepAt(p, r, q, states[q]);
          forall succ | succ in t.succs ensures Covers(states', succ, t.st) {
            assert Covers(states, succ, t.st);
            assert Below(states'[succ].init, states[succ].init);
          }
        }
      }
    }
  }

  lemma StillJustified(p: CompiledProgram, r: Range, states: States, states': States, pc: nat,
                       traps: set<TrapCode>, traps': set<TrapCode>, edges: set<(nat, nat)>, edges': set<(nat, nat)>)
    requires WellTyped(p, r, states) && WellTyped(p, r, states') && pc in states && Justified(p, r, states, traps, edges)
    requires forall q <- states :: q in states' && states'[q].depth == states[q].depth && Below(states'[q].init, states[q].init)
    requires var s := StepAt(p, r, pc, states[pc]);
      && traps' == traps + s.traps
      && (s.Rejected? ==> states' == states && edges' == edges)
      && (s.Stepped? ==> edges' == edges + (set callee <- s.callees :: (r.id, callee)))
    ensures Justified(p, r, states', traps', edges')
  {
    hide StepInstruction;
    forall t | t in traps' ensures exists q <- states' :: t in StepAt(p, r, q, states'[q]).traps {
      var q := pc;
      if t in traps {
        q :| q in states && t in StepAt(p, r, q, states[q]).traps;
      }
      TrapsKept(p, r, q, states[q], states'[q]);
    }
    forall e | e in edges'
      ensures e.0 == r.id && exists q <- states' :: var s := StepAt(p, r, q, states'[q]); s.Stepped? && e.1 in s.callees
    {
      var q := pc;
      if e in edges {
        q :| q in states && var s := StepAt(p, r, q, states[q]); s.Stepped? && e.1 in s.callees;
      }
      StepDepthOnly(p, r, q, p.instructions[q], states[q], states'[q]);
    }
  }

  /** Losing bits keeps the traps of a step. */
  lemma TrapsKept(p: CompiledProgram, r: Range, pc: nat, high: AbstractState, low: AbstractState)
    requires pc < |p.instructions| && |low.init| == |high.init| == r.info.localCount && low.depth == high.depth && Below(low.init, high.init)
    ensures StepAt(p, r, pc, high).traps <= StepAt(p, r, pc, low).traps
  {
  }

  lemma PassedBalanced(p: CompiledProgram, r: Range, states: States, states': States, queue: seq<nat>, queue': seq<nat>, pc: nat,
                       errors: seq<nat>, errors': seq<nat>, bad: nat)
    requires WellTyped(p, r, states) && pc in states && FollowsBalance(p, r, states, errors)
    requires var s := StepAt(p, r, pc, states[pc]);
      && s.Stepped? && Passed(r, states, states', queue, queue', s.st, s.succs)
      && ((forall succ <- s.succs :: InRange(r, succ) && (succ in states ==> states[succ].depth == s.st.depth)) ==> bad == 0)
      && errors' == (if s.st.depth > MAX_OPERAND_STACK then errors + [pc] else errors) + seq(bad, _ => pc)
    ensures FollowsBalance(p, r, states', errors')
  {
    var s := StepAt(p, r, pc, states[pc]);
    forall depths | Balanced(p, r, depths) ensures errors' == [] && forall q <- states' :: q in depths && states'[q].depth == depths[q] {
      assert BalancedAt(p, r, depths, pc);
      var st := AbstractState(depths[pc], EntryInit(r));
      StepDepthOnly(p, r, pc, p.instructions[pc], states[pc], st);
      StepShape(p, r, pc, p.instructions[pc], states[pc]);
      StepShape(p, r, pc, p.instructions[pc], st);
      hide StepInstruction;
    }
  }
}
