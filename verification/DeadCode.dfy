/** Removal of unreachable instructions, with every address moved to where its instruction went. */
module DeadCode {
  import opened Common
  import opened Int32
  import opened Limits
  import opened Bytecode
  import opened Relocation
  import M = Machine

  // ---------------------------------------------------------------- reachability

  /** Control can pass from one address to the other in one step, calls being stepped over. */
  predicate Edge(code: seq<Instruction>, pc: nat, next: nat) {
    && pc < |code|
    && ((FallsThrough(code[pc].opcode) && next == pc + 1) || (IsJump(code[pc].opcode) && next == AsUsize(code[pc].arg1)))
  }

  predicate IsEntry(functions: map<nat, FunctionInfo>, pc: nat) {
    exists id <- functions :: functions[id].entryPc == pc
  }

  /** A walk through the code from a function's entry. */
  predicate Walk(code: seq<Instruction>, functions: map<nat, FunctionInfo>, path: seq<nat>) {
    && path != [] && IsEntry(functions, path[0])
    && (forall i :: 0 <= i < |path| ==> path[i] < |code|)
    && (forall i :: 0 <= i < |path| - 1 ==> Edge(code, path[i], path[i + 1]))
  }

  ghost predicate Reached(code: seq<Instruction>, functions: map<nat, FunctionInfo>, pc: nat) {
    exists path :: Walk(code, functions, path) && path[|path| - 1] == pc
  }

  ghost function Live(code: seq<Instruction>, functions: map<nat, FunctionInfo>): (r: set<nat>) {
    set pc: nat | pc < |code| && Reached(code, functions, pc)
  }

  lemma WalkOn(code: seq<Instruction>, functions: map<nat, FunctionInfo>, pc: nat, next: nat)
    requires Reached(code, functions, pc) && Edge(code, pc, next) && next < |code|
    ensures Reached(code, functions, next)
  {
    var path :| Walk(code, functions, path) && path[|path| - 1] == pc;
    assert Walk(code, functions, path + [next]);
  }

  lemma EntryReached(code: seq<Instruction>, functions: map<nat, FunctionInfo>, pc: nat)
    requires IsEntry(functions, pc) && pc < |code|
    ensures Reached(code, functions, pc)
  {
    assert Walk(code, functions, [pc]);
  }

  lemma {:induction false} ClosedHoldsWalks(code: seq<Instruction>, functions: map<nat, FunctionInfo>, found: set<nat>, path: seq<nat>)
    requires forall pc: nat :: pc < |code| && IsEntry(functions, pc) ==> pc in found
    requires forall pc: nat, next: nat :: pc in found && next < |code| && Edge(code, pc, next) ==> next in found
    requires Walk(code, functions, path)
    ensures path[|path| - 1] in found
  {
    if |path| > 1 {
      ClosedHoldsWalks(code, functions, found, path[..|path| - 1]);
      assert Edge(code, path[|path| - 2], path[|path| - 1]);
    }
  }

  /** The addresses the optimizer follows from an instruction, in the order it pushes them. */
  function Successors(code: seq<Instruction>, pc: nat): (r: seq<nat>)
    requires pc < |code|
    ensures forall next :: next in r <==> Edge(code, pc, next)
  {
    match code[pc].opcode
    case Jump => [AsUsize(code[pc].arg1)]
    case JumpIfFalse => [pc + 1, AsUsize(code[pc].arg1)]
    case JumpIfTrue => [pc + 1, AsUsize(code[pc].arg1)]
    case Return => []
    case Halt => []
    case _ => [pc + 1]
  }

  function Addresses(n: nat): (r: set<nat>)
    ensures forall pc: nat :: pc in r <==> pc < n
  {
    if n == 0 then {} else Addresses(n - 1) + {n - 1}
  }

  /** What the search keeps: it finds only reached addresses, and whatever is still to follow is on the worklist. */
  ghost predicate Searching(code: seq<Instruction>, functions: map<nat, FunctionInfo>, found: set<nat>, worklist: seq<nat>) {
    && (forall pc <- found :: pc < |code| && Reached(code, functions, pc))
    && (forall pc <- worklist :: pc < |code| ==> Reached(code, functions, pc))
    && (forall pc: nat :: IsEntry(functions, pc) && pc < |code| ==> pc in found || pc in worklist)
    && (forall pc: nat, next: nat ::
          pc in found && Edge(code, pc, next) && next < |code| ==> next in found || next in worklist)
  }

  lemma SearchSkips(code: seq<Instruction>, functions: map<nat, FunctionInfo>, found: set<nat>, worklist: seq<nat>, pc: nat)
    requires Searching(code, functions, found, worklist + [pc]) && (pc >= |code| || pc in found)
    ensures Searching(code, functions, found, worklist)
  {
    hide Reached, Edge, IsEntry;
    assert forall x <- worklist :: x in worklist + [pc];
  }

  lemma SearchFinds(code: seq<Instruction>, functions: map<nat, FunctionInfo>, found: set<nat>, worklist: seq<nat>, pc: nat)
    requires Searching(code, functions, found, worklist + [pc]) && pc < |code|
    ensures Searching(code, functions, found + {pc}, worklist + Successors(code, pc))
  {
    hide Reached, Edge, IsEntry, Successors;
    assert pc in worklist + [pc];
    assert forall x <- worklist :: x in worklist + [pc];
    forall next: nat | next in Successors(code, pc) && next < |code| ensures Reached(code, functions, next) {
      WalkOn(code, functions, pc, next);
    }
  }

  lemma SearchEnds(code: seq<Instruction>, functions: map<nat, FunctionInfo>, found: set<nat>)
    requires Searching(code, functions, found, [])
    ensures found == Live(code, functions)
  {
    forall pc: nat | pc < |code| && Reached(code, functions, pc) ensures pc in found {
      var path :| Walk(code, functions, path) && path[|path| - 1] == pc;
      ClosedHoldsWalks(code, functions, found, path);
    }
  }

  method FunctionEntries(functions: map<nat, FunctionInfo>) returns (entries: seq<nat>)
    ensures forall pc :: pc in entries <==> IsEntry(functions, pc)
  {
    entries := [];
    var ids := functions.Keys;
    while ids != {}
      invariant ids <= functions.Keys
      invariant forall pc <- entries :: IsEntry(functions, pc)
      invariant forall id <- functions :: id in ids || functions[id].entryPc in entries
      decreases |ids|
    {
      var id :| id in ids;
      entries := entries + [functions[id].entryPc];
      ids := ids - {id};
    }
  }

  /** The worklist search finds exactly the addresses some walk reaches. */
  method FindReachable(code: seq<Instruction>, functions: map<nat, FunctionInfo>) returns (reachable: set<nat>)
    ensures reachable == Live(code, functions)
  {
    hide Searching, Reached, IsEntry, Edge, Successors, Live;
    var worklist := FunctionEntries(functions);
    reachable := {};
    assert Searching(code, functions, reachable, worklist) by {
      SearchStarts(code, functions, worklist);
    }
    while worklist != []
      invariant reachable <= Addresses(|code|)
      invariant Searching(code, functions, reachable, worklist)
      decreases Addresses(|code|) - reachable, |worklist|
    {
      var pc := worklist[|worklist| - 1];
      assert worklist == worklist[..|worklist| - 1] + [pc];
      worklist := worklist[..|worklist| - 1];
      if pc >= |code| || pc in reachable {
        SearchSkips(code, functions, reachable, worklist, pc);
        continue;
      }
      SearchFinds(code, functions, reachable, worklist, pc);
      reachable := reachable + {pc};
      worklist := worklist + Successors(code, pc);
    }
    SearchEnds(code, functions, reachable);
  }

  lemma SearchStarts(code: seq<Instruction>, functions: map<nat, FunctionInfo>, entries: seq<nat>)
    requires forall pc :: pc in entries <==> IsEntry(functions, pc)
    ensures Searching(code, functions, {}, entries)
  {
    forall pc <- entries | pc < |code| ensures Reached(code, functions, pc) {
      EntryReached(code, functions, pc);
    }
  }

  // ---------------------------------------------------------------- the new program

  /** How many live addresses lie below pc: where a live instruction goes. */
  function Rank(live: set<nat>, pc: nat): (r: nat)
    ensures r <= pc
  {
    if pc == 0 then 0 else Rank(live, pc - 1) + (if pc - 1 in live then 1 else 0)
  }

  lemma {:induction false} RankGrows(live: set<nat>, a: nat, b: nat)
    requires a <= b
    ensures Rank(live, a) <= Rank(live, b)
    ensures a < b && a in live ==> Rank(live, a) < Rank(live, b)
  {
    if a < b {
      RankGrows(live, a, b - 1);
    }
  }

  function Remap(live: set<nat>, size: nat, instr: Instruction): Instruction {
    if IsJump(instr.opcode) then
      var target := AsUsize(instr.arg1);
      instr.(arg1 := NormalizeI32(if target < size && target in live then Rank(live, target) else target))
    else instr
  }

  /** The live instructions below n, in order, with their jumps moved. */
  function Compact(code: seq<Instruction>, live: set<nat>, n: nat): (r: seq<Instruction>)
    requires n <= |code|
    ensures |r| == Rank(live, n)
  {
    if n == 0 then []
    else if n - 1 in live then Compact(code, live, n - 1) + [Remap(live, |code|, code[n - 1])]
    else Compact(code, live, n - 1)
  }

  function MoveEntries(functions: map<nat, FunctionInfo>, live: set<nat>, size: nat): map<nat, FunctionInfo> {
    map id | id in functions && functions[id].entryPc < size && functions[id].entryPc in live
      :: functions[id].(entryPc := Rank(live, functions[id].entryPc))
  }

  /** The program the pass leaves: untouched when everything can be reached. */
  ghost function Pruned(p: CompiledProgram): CompiledProgram {
    var live := Live(p.instructions, p.functions);
    if p.instructions == [] || live == Addresses(|p.instructions|) then p
    else p.(instructions := Compact(p.instructions, live, |p.instructions|),
            functions := MoveEntries(p.functions, live, |p.instructions|))
  }

  method NewAddresses(size: nat, reachable: set<nat>) returns (oldToNew: map<nat, nat>)
    ensures forall pc: nat :: pc in oldToNew <==> pc < size && pc in reachable
    ensures forall pc <- oldToNew :: oldToNew[pc] == Rank(reachable, pc)
  {
    oldToNew := map[];
    var newPc: nat := 0;
    for oldPc := 0 to size
      invariant newPc == Rank(reachable, oldPc)
      invariant forall pc: nat :: pc in oldToNew <==> pc < oldPc && pc in reachable
      invariant forall pc <- oldToNew :: oldToNew[pc] == Rank(reachable, pc)
    {
      if oldPc in reachable {
        oldToNew := oldToNew[oldPc := newPc];
        newPc := newPc + 1;
      }
    }
  }

  method NewInstructions(code: seq<Instruction>, reachable: set<nat>, oldToNew: map<nat, nat>)
    returns (newCode: seq<Instruction>, removed: nat)
    requires forall pc: nat :: pc in oldToNew <==> pc < |code| && pc in reachable
    requires forall pc <- oldToNew :: oldToNew[pc] == Rank(reachable, pc)
    ensures newCode == Compact(code, reachable, |code|)
    ensures removed == |code| - |newCode|
  {
    newCode := [];
    removed := 0;
    for oldPc := 0 to |code|
      invariant newCode == Compact(code, reachable, oldPc)
      invariant removed == oldPc - |newCode|
    {
      if oldPc !in reachable {
        removed := removed + 1;
        continue;
      }
      var instr := code[oldPc];
      if instr.opcode == Opcode.Jump || instr.opcode == Opcode.JumpIfFalse || instr.opcode == Opcode.JumpIfTrue {
        var target := AsUsize(instr.arg1);
        var newTarget := if target in oldToNew then oldToNew[target] else target;
        instr := Instruction(instr.opcode, NormalizeI32(newTarget), instr.arg2);
      }
      newCode := newCode + [instr];
    }
  }

  predicate Placed(functions: map<nat, FunctionInfo>, moved: map<nat, FunctionInfo>, live: set<nat>, size: nat, id: nat)
    requires id in functions
  {
    var entry := functions[id].entryPc;
    if entry < size && entry in live then id in moved && moved[id] == functions[id].(entryPc := Rank(live, entry))
    else id !in moved
  }

  method NewFunctions(functions: map<nat, FunctionInfo>, size: nat, reachable: set<nat>, oldToNew: map<nat, nat>)
    returns (newFunctions: map<nat, FunctionInfo>)
    requires forall pc: nat :: pc in oldToNew <==> pc < size && pc in reachable
    requires forall pc <- oldToNew :: oldToNew[pc] == Rank(reachable, pc)
    ensures newFunctions == MoveEntries(functions, reachable, size)
  {
    newFunctions := map[];
    var ids := functions.Keys;
    while ids != {}
      invariant ids <= functions.Keys
      invariant newFunctions.Keys <= functions.Keys
      invariant forall id <- functions :: if id in ids then id !in newFunctions else Placed(functions, newFunctions, reachable, size, id)
      decreases ids
    {
      hide Rank;
      var id :| id in ids;
      var entry := functions[id].entryPc;
      if entry in oldToNew {
        newFunctions := newFunctions[id := functions[id].(entryPc := oldToNew[entry])];
      }
      ids := ids - {id};
    }
    forall id <- functions ensures Placed(functions, newFunctions, reachable, size, id) {
    }
  }

  /** The pass as the optimizer runs it. */
  method DeadCodeElimination(p: CompiledProgram) returns (q: CompiledProgram, removed: nat)
    ensures q == Pruned(p)
    ensures removed == |p.instructions| - |q.instructions|
  {
    if p.instructions == [] {
      return p, 0;
    }
    var reachable := FindReachable(p.instructions, p.functions);
    assert reachable <= Addresses(|p.instructions|);
    AddressCount(|p.instructions|);
    if |reachable| == |p.instructions| {
      SubsetFills(reachable, Addresses(|p.instructions|));
      return p, 0;
    }
    var oldToNew := NewAddresses(|p.instructions|, reachable);
    var code, dropped := NewInstructions(p.instructions, reachable, oldToNew);
    var functions := NewFunctions(p.functions, |p.instructions|, reachable, oldToNew);
    q, removed := p.(instructions := code, functions := functions), dropped;
  }

  lemma {:induction false} AddressCount(n: nat)
    ensures |Addresses(n)| == n
  {
    if n > 0 {
      AddressCount(n - 1);
    }
  }

  lemma {:induction false} SubsetFills(a: set<nat>, b: set<nat>)
    requires a <= b && |a| == |b|
    ensures a == b
    decreases |a|
  {
    if a != {} {
      var x :| x in a;
      SubsetFills(a - {x}, b - {x});
      assert a == a - {x} + {x} && b == b - {x} + {x};
    }
  }
}
