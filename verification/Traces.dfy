/** Execution traces, and the comparison that normalizes array references. Trap messages and fingerprints are left out. */
module Traces {
  import opened Common
  import opened Bytecode

  datatype TraceOutcome = Continued | Jumping | Exit | Trapping(code: TrapCode)

  // What is recorded of one instruction; stacks as raw numbers.
  datatype TraceEvent = TraceEvent(
    cycle: nat,
    pc: nat,
    instr: Instruction,
    before: seq<int>,
    after: seq<int>,
    depthBefore: nat,
    depthAfter: nat,
    nextPc: nat,
    outcome: TraceOutcome)

  datatype Field = Cycle | Pc | Opcode | Arg1 | Arg2 | StackBefore | StackAfter | DepthBefore | DepthAfter | NextPc | Outcome | Length

  datatype TraceDivergence = TraceDivergence(index: nat, field: Field)

  datatype NormalizedValue = Number(value: int) | ArrayRef(index: nat)

  datatype NormalizedStacks = NormalizedStacks(before: seq<NormalizedValue>, after: seq<NormalizedValue>)

  // What the normalizer knows: the stack as it is, and how many references it has seen made.
  datatype Seen = Seen(stack: seq<NormalizedValue>, nextArrayRef: nat)

  function Numbers(raw: seq<int>): (r: seq<NormalizedValue>)
    ensures |r| == |raw| && forall i :: 0 <= i < |raw| ==> r[i] == Number(raw[i])
  {
    seq(|raw|, i requires 0 <= i < |raw| => Number(raw[i]))
  }

  function NormalizeBefore(seen: Seen, e: TraceEvent): (r: seq<NormalizedValue>)
    ensures |r| == |e.before|
  {
    if |seen.stack| == |e.before| then seen.stack else Numbers(e.before)
  }

  /** A value that is where it was keeps what it was taken for. */
  function PreserveStackPrefix(rawBefore: seq<int>, before: seq<NormalizedValue>, rawAfter: seq<int>): (r: seq<NormalizedValue>)
    ensures |r| == |rawAfter|
  {
    seq(|rawAfter|, i requires 0 <= i < |rawAfter| =>
      if i < |rawBefore| && rawBefore[i] == rawAfter[i] && i < |before| then before[i] else Number(rawAfter[i]))
  }

  predicate MakesArray(e: TraceEvent) {
    (e.instr.opcode == AllocArray || e.instr.opcode == ArrayNew) && |e.after| == |e.before| + 1
  }

  function NormalizeAfter(seen: Seen, e: TraceEvent): Seen {
    var after := PreserveStackPrefix(e.before, NormalizeBefore(seen, e), e.after);
    if MakesArray(e) then Seen(after[|after| - 1 := ArrayRef(seen.nextArrayRef)], seen.nextArrayRef + 1)
    else Seen(after, seen.nextArrayRef)
  }

  /** The first field in which two events differ, when their stacks are read like this. */
  function CompareEvents(a: TraceEvent, b: TraceEvent, sameBefore: bool, sameAfter: bool): Option<Field> {
    if a.cycle != b.cycle then Some(Cycle)
    else if a.pc != b.pc then Some(Pc)
    else if a.instr.opcode != b.instr.opcode then Some(Opcode)
    else if a.instr.arg1 != b.instr.arg1 then Some(Arg1)
    else if a.instr.arg2 != b.instr.arg2 then Some(Arg2)
    else if !sameBefore then Some(StackBefore)
    else if !sameAfter then Some(StackAfter)
    else if a.depthBefore != b.depthBefore then Some(DepthBefore)
    else if a.depthAfter != b.depthAfter then Some(DepthAfter)
    else if a.nextPc != b.nextPc then Some(NextPc)
    else if a.outcome != b.outcome then Some(Outcome)
    else None
  }

  /** The first difference of two traces from some index on. */
  function DivergenceFrom(index: nat, left: seq<TraceEvent>, right: seq<TraceEvent>): Option<TraceDivergence>
    decreases |left|
  {
    if left == [] || right == [] then
      if |left| == |right| then None else Some(TraceDivergence(index, Length))
    else
      var field := CompareEvents(left[0], right[0], left[0].before == right[0].before, left[0].after == right[0].after);
      if field.Some? then Some(TraceDivergence(index, field.value)) else DivergenceFrom(index + 1, left[1..], right[1..])
  }

  /** The same, with both sides normalized. */
  function SemanticDivergenceFrom(index: nat, a: Seen, b: Seen, left: seq<TraceEvent>, right: seq<TraceEvent>): Option<TraceDivergence>
    decreases |left|
  {
    if left == [] || right == [] then
      if |left| == |right| then None else Some(TraceDivergence(index, Length))
    else
      var a', b' := NormalizeAfter(a, left[0]), NormalizeAfter(b, right[0]);
      var field := CompareEvents(left[0], right[0], NormalizeBefore(a, left[0]) == NormalizeBefore(b, right[0]), a'.stack == b'.stack);
      if field.Some? then Some(TraceDivergence(index, field.value))
      else SemanticDivergenceFrom(index + 1, a', b', left[1..], right[1..])
  }

  /** The raw comparison finds a difference exactly when the traces differ. */
  lemma {:induction false} DivergenceIsExact(index: nat, left: seq<TraceEvent>, right: seq<TraceEvent>)
    ensures DivergenceFrom(index, left, right).None? <==> left == right
    ensures DivergenceFrom(index, left, right).Some? ==>
      var at := DivergenceFrom(index, left, right).value.index - index;
      0 <= at <= |left| && at <= |right| && left[..at] == right[..at]
    decreases |left|
  {
    if left != [] && right != [] {
      var field := CompareEvents(left[0], right[0], left[0].before == right[0].before, left[0].after == right[0].after);
      assert field.None? <==> left[0] == right[0];
      DivergenceIsExact(index + 1, left[1..], right[1..]);
      assert left == [left[0]] + left[1..] && right == [right[0]] + right[1..];
      if field.None? && DivergenceFrom(index, left, right).Some? {
        var at := DivergenceFrom(index, left, right).value.index - index;
        assert left[..at] == [left[0]] + left[1..][..at - 1] && right[..at] == [right[0]] + right[1..][..at - 1];
      }
    }
  }

  /** Each instruction finds the stack the one before it left, the first one an empty stack, and none makes an array. */
  predicate PlainFrom(stack: seq<int>, trace: seq<TraceEvent>)
    decreases |trace|
  {
    trace == [] || (trace[0].before == stack && !MakesArray(trace[0]) && PlainFrom(trace[0].after, trace[1..]))
  }

  lemma NumbersStay(stack: seq<int>, n: nat, e: TraceEvent)
    requires e.before == stack && !MakesArray(e)
    ensures NormalizeBefore(Seen(Numbers(stack), n), e) == Numbers(e.before)
    ensures NormalizeAfter(Seen(Numbers(stack), n), e) == Seen(Numbers(e.after), n)
  {
    assert PreserveStackPrefix(e.before, Numbers(stack), e.after) == Numbers(e.after);
  }

  lemma NumbersApart(a: seq<int>, b: seq<int>)
    ensures Numbers(a) == Numbers(b) <==> a == b
  {
    if Numbers(a) == Numbers(b) {
      assert |a| == |b| && forall i :: 0 <= i < |a| ==> Numbers(a)[i] == Number(a[i]) && Numbers(b)[i] == Number(b[i]);
    }
  }

  /** Where no arrays are made, the semantic comparison finds just what the raw one finds. */
  lemma {:induction false} PlainTracesAreComparedRaw(index: nat, a: seq<int>, b: seq<int>, m: nat, n: nat, left: seq<TraceEvent>, right: seq<TraceEvent>)
    requires PlainFrom(a, left) && PlainFrom(b, right)
    ensures SemanticDivergenceFrom(index, Seen(Numbers(a), m), Seen(Numbers(b), n), left, right) == DivergenceFrom(index, left, right)
    decreases |left|
  {
    hide NormalizeAfter, NormalizeBefore, MakesArray, Numbers;
    if left != [] && right != [] {
      NumbersStay(a, m, left[0]);
      NumbersStay(b, n, right[0]);
      NumbersApart(left[0].before, right[0].before);
      NumbersApart(left[0].after, right[0].after);
      PlainTracesAreComparedRaw(index + 1, left[0].after, right[0].after, m, n, left[1..], right[1..]);
    }
  }

  // ---------------------------------------------------------------- the comparison as it runs

  class TraceNormalizer {
    var stack: seq<NormalizedValue>
    var nextArrayRef: nat

    function State(): Seen
      reads this
    {
      Seen(stack, nextArrayRef)
    }

    constructor ()
      ensures State() == Seen([], 0)
    {
      stack := [];
      nextArrayRef := 0;
    }

    method NormalizeEvent(e: TraceEvent) returns (stacks: NormalizedStacks)
      modifies this
      ensures State() == NormalizeAfter(old(State()), e)
      ensures stacks == NormalizedStacks(NormalizeBefore(old(State()), e), State().stack)
    {
      var before := if |stack| == |e.before| then stack else Numbers(e.before);
      var after := PreserveStackPrefix(e.before, before, e.after);
      if MakesArray(e) {
        after := after[|after| - 1 := ArrayRef(nextArrayRef)];
        nextArrayRef := nextArrayRef + 1;
      }
      stack := after;
      return NormalizedStacks(before, after);
    }
  }

  method FirstSemanticTraceDivergence(left: seq<TraceEvent>, right: seq<TraceEvent>) returns (r: Option<TraceDivergence>)
    ensures r == SemanticDivergenceFrom(0, Seen([], 0), Seen([], 0), left, right)
  {
    hide NormalizeAfter, NormalizeBefore, CompareEvents;
    var leftNormalizer := new TraceNormalizer();
    var rightNormalizer := new TraceNormalizer();
    var index := 0;
    while index < |left| && index < |right|
      invariant 0 <= index <= |left| && index <= |right|
      invariant SemanticDivergenceFrom(index, leftNormalizer.State(), rightNormalizer.State(), left[index..], right[index..])
             == SemanticDivergenceFrom(0, Seen([], 0), Seen([], 0), left, right)
      decreases |left| - index
    {
      assert left[index..][1..] == left[index + 1..] && right[index..][1..] == right[index + 1..];
      var l := leftNormalizer.NormalizeEvent(left[index]);
      var q := rightNormalizer.NormalizeEvent(right[index]);
      var field := CompareEvents(left[index], right[index], l.before == q.before, l.after == q.after);
      if field.Some? {
        return Some(TraceDivergence(index, field.value));
      }
      index := index + 1;
    }
    if |left| == |right| {
      return None;
    }
    return Some(TraceDivergence(if |left| < |right| then |left| else |right|, Length));
  }
}
