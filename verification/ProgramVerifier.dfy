/** Verifying a whole program: global storage, function metadata, every function, and the depth of the call graph. */
module ProgramVerifier {
  import opened Common
  import opened Limits
  import opened Bytecode
  import opened Verifier
  import opened Worklist
  import opened VerifierSound
  import FrameDepth
  import M = Machine

  datatype Report = Report(
    valid: bool, traps: set<TrapCode>, edges: set<(nat, nat)>, maxStackDepth: nat, maxFrameDepth: Option<nat>)

  // ---------------------------------------------------------------- global storage

  predicate Occupies(g: GlobalInfo, slot: int) {
    g.slot <= slot < g.slot + M.GlobalWidth(g)
  }

  predicate GlobalOk(g: GlobalInfo) {
    (g.isArray ==> g.arraySize > 0) && g.slot + M.GlobalWidth(g) <= MAX_GLOBAL_SLOTS
  }

  predicate Apart(g: GlobalInfo, h: GlobalInfo) {
    g.slot + M.GlobalWidth(g) <= h.slot || h.slot + M.GlobalWidth(h) <= g.slot
  }

  /** Every global fits, and no two share a slot. */
  ghost predicate GlobalsOk(globals: map<string, GlobalInfo>, names: set<string>)
    requires names <= globals.Keys
  {
    && (forall x <- names :: GlobalOk(globals[x]))
    && (forall x <- names, y <- names :: x != y ==> Apart(globals[x], globals[y]))
  }

  /** Claims the slots of one global and counts those already taken. */
  method Claim(claimed: array<bool>, g: GlobalInfo) returns (clashes: nat)
    requires g.slot + M.GlobalWidth(g) <= claimed.Length
    modifies claimed
    ensures clashes == 0 <==> forall i :: 0 <= i < claimed.Length && Occupies(g, i) ==> !old(claimed[i])
    ensures forall i :: 0 <= i < claimed.Length ==> claimed[i] == (old(claimed[i]) || Occupies(g, i))
  {
    clashes := 0;
    var end := g.slot + M.GlobalWidth(g);
    for slot := g.slot to end
      invariant clashes == 0 <==> forall i :: g.slot <= i < slot ==> !old(claimed[i])
      invariant forall i :: 0 <= i < claimed.Length ==> claimed[i] == (old(claimed[i]) || g.slot <= i < slot)
    {
      if claimed[slot] {
        clashes := clashes + 1;
      }
      claimed[slot] := true;
    }
    assert forall i :: g.slot <= i < end <==> Occupies(g, i);
  }

  lemma Clash(globals: map<string, GlobalInfo>, done: set<string>, x: string, claimed: seq<bool>, claimed': seq<bool>)
    requires done <= globals.Keys && x in globals && x !in done && Table(globals, done, claimed) && |claimed'| == |claimed|
    requires GlobalsOk(globals, done) && GlobalOk(globals[x])
    requires forall i :: 0 <= i < |claimed| ==> claimed'[i] == (claimed[i] || Occupies(globals[x], i))
    ensures (forall i :: 0 <= i < |claimed| && Occupies(globals[x], i) ==> !claimed[i]) <==> GlobalsOk(globals, done + {x})
    ensures Table(globals, done + {x}, claimed')
  {
    var free := forall i :: 0 <= i < MAX_GLOBAL_SLOTS && Occupies(globals[x], i) ==> !claimed[i];
    if free {
      forall y | y in done ensures Apart(globals[x], globals[y]) && Apart(globals[y], globals[x]) {
        if !Apart(globals[x], globals[y]) {
          var i := if globals[x].slot < globals[y].slot then globals[y].slot else globals[x].slot;
          assert Occupies(globals[x], i) && Occupies(globals[y], i);
        }
      }
    } else {
      var i :| 0 <= i < MAX_GLOBAL_SLOTS && Occupies(globals[x], i) && claimed[i];
      var y :| y in done && Occupies(globals[y], i);
      assert !Apart(globals[x], globals[y]);
    }
  }

  lemma Spoilt(globals: map<string, GlobalInfo>, done: set<string>, x: string)
    requires done <= globals.Keys && x in globals && (!GlobalOk(globals[x]) || !GlobalsOk(globals, done))
    ensures !GlobalsOk(globals, done + {x})
  {
    assert x in done + {x} && forall y <- done :: y in done + {x};
  }

  /** The table of claimed slots is right for the globals done so far. */
  ghost predicate Table(globals: map<string, GlobalInfo>, done: set<string>, claimed: seq<bool>)
    requires done <= globals.Keys
  {
    |claimed| == MAX_GLOBAL_SLOTS && forall i :: 0 <= i < MAX_GLOBAL_SLOTS ==> (claimed[i] <==> exists y <- done :: Occupies(globals[y], i))
  }

  method VerifyGlobals(globals: map<string, GlobalInfo>) returns (errors: nat)
    ensures errors == 0 <==> GlobalsOk(globals, globals.Keys)
  {
    hide GlobalsOk, GlobalOk, Table;
    errors := 0;
    var claimed := new bool[MAX_GLOBAL_SLOTS](_ => false);
    var todo := globals.Keys;
    NothingClaimed(globals, claimed[..]);
    assert globals.Keys - todo == {};
    while todo != {}
      invariant todo <= globals.Keys
      invariant errors == 0 <==> GlobalsOk(globals, globals.Keys - todo)
      invariant errors == 0 ==> Table(globals, globals.Keys - todo, claimed[..])
      decreases |todo|
    {
      var x :| x in todo;
      var g := globals[x];
      ghost var done := globals.Keys - todo;
      todo := todo - {x};
      assert globals.Keys - todo == done + {x};
      if !GlobalOk(g) {
        errors := errors + 1;
        Spoilt(globals, done, x);
      } else {
        ghost var before := claimed[..];
        Fits(g);
        var clashes := Claim(claimed, g);
        if errors == 0 {
          Clash(globals, done, x, before, claimed[..]);
        } else {
          Spoilt(globals, done, x);
        }
        errors := errors + clashes;
      }
    }
    assert globals.Keys - todo == globals.Keys;
  }

  lemma Fits(g: GlobalInfo)
    requires GlobalOk(g)
    ensures g.slot + M.GlobalWidth(g) <= MAX_GLOBAL_SLOTS
  {
  }

  lemma NothingClaimed(globals: map<string, GlobalInfo>, claimed: seq<bool>)
    requires |claimed| == MAX_GLOBAL_SLOTS && forall i :: 0 <= i < |claimed| ==> !claimed[i]
    ensures GlobalsOk(globals, {}) && Table(globals, {}, claimed)
  {
  }

  // ---------------------------------------------------------------- function metadata

  predicate InfoOk(p: CompiledProgram, id: nat)
    requires id in p.functions
  {
    p.functions[id].paramCount <= p.functions[id].localCount <= MAX_LOCAL_SLOTS && p.functions[id].entryPc < |p.instructions|
  }

  ghost predicate MetadataOk(p: CompiledProgram, ids: set<nat>)
    requires ids <= p.functions.Keys
  {
    && (forall id <- ids :: InfoOk(p, id))
    && (forall id <- ids, other <- ids :: id != other ==> p.functions[id].entryPc != p.functions[other].entryPc)
  }

  // What the entry table holds: an entry pc, and the function that starts there.
  type Entry = (nat, nat)

  predicate Sorted(entries: seq<Entry>) {
    forall i, j :: 0 <= i < j < |entries| ==> entries[i].0 <= entries[j].0
  }

  predicate AllApart(entries: seq<Entry>) {
    forall i, j :: 0 <= i < j < |entries| ==> entries[i].0 != entries[j].0
  }

  /** Puts an entry behind those that do not start after it, which keeps equal entries in order. */
  method Insert(entries: seq<Entry>, e: Entry) returns (sorted: seq<Entry>)
    requires Sorted(entries)
    ensures Sorted(sorted) && multiset(sorted) == multiset(entries) + multiset{e}
    ensures (forall x :: x in sorted <==> x in entries || x == e)
    ensures AllApart(entries) && (forall x <- entries :: x.0 != e.0) ==> AllApart(sorted)
  {
    var i := |entries|;
    while i > 0 && entries[i - 1].0 > e.0
      invariant 0 <= i <= |entries|
      invariant forall j :: i <= j < |entries| ==> entries[j].0 > e.0
    {
      i := i - 1;
    }
    InsertedSorted(entries, e, i);
    sorted := entries[..i] + [e] + entries[i..];
  }

  lemma InsertedSorted(entries: seq<Entry>, e: Entry, i: nat)
    requires Sorted(entries) && i <= |entries|
    requires forall j :: i <= j < |entries| ==> entries[j].0 > e.0
    requires i > 0 ==> entries[i - 1].0 <= e.0
    ensures var sorted := entries[..i] + [e] + entries[i..];
      && Sorted(sorted) && multiset(sorted) == multiset(entries) + multiset{e} && (forall x :: x in sorted <==> x in entries || x == e)
      && (AllApart(entries) && (forall x <- entries :: x.0 != e.0) ==> AllApart(sorted))
  {
    hide Sorted, AllApart;
    var sorted := entries[..i] + [e] + entries[i..];
    InsertedApart(entries, e, i, sorted);
    InsertedElements(entries, e, i);
  }

  lemma InsertedElements(entries: seq<Entry>, e: Entry, i: nat)
    requires i <= |entries|
    ensures var sorted := entries[..i] + [e] + entries[i..];
      multiset(sorted) == multiset(entries) + multiset{e} && (forall x :: x in sorted <==> x in entries || x == e)
  {
    assert entries == entries[..i] + entries[i..];
    forall x ensures x in entries[..i] + [e] + entries[i..] <==> x in entries || x == e {
      assert x in entries <==> x in entries[..i] || x in entries[i..];
    }
  }

  function Place(entries: seq<Entry>, e: Entry, i: nat, j: nat): Entry
    requires i <= |entries| && j <= |entries|
  {
    if j < i then entries[j] else if j == i then e else entries[j - 1]
  }

  lemma InsertedApart(entries: seq<Entry>, e: Entry, i: nat, sorted: seq<Entry>)
    requires Sorted(entries) && i <= |entries|
    requires forall j :: i <= j < |entries| ==> entries[j].0 > e.0
    requires i > 0 ==> entries[i - 1].0 <= e.0
    requires |sorted| == |entries| + 1 && forall j :: 0 <= j < |sorted| ==> sorted[j] == Place(entries, e, i, j)
    ensures Sorted(sorted) && (AllApart(entries) && (forall x <- entries :: x.0 != e.0) ==> AllApart(sorted))
  {
    forall j, k | 0 <= j < k < |sorted|
      ensures sorted[j].0 <= sorted[k].0
      ensures AllApart(entries) && (forall x <- entries :: x.0 != e.0) ==> sorted[j].0 != sorted[k].0
    {
      assert sorted[j] == Place(entries, e, i, j) && sorted[k] == Place(entries, e, i, k);
      assert j != i ==> sorted[j] in entries;
      assert k != i ==> sorted[k] in entries;
    }
  }

  method SortByEntry(entries: seq<Entry>) returns (sorted: seq<Entry>)
    ensures Sorted(sorted) && multiset(sorted) == multiset(entries)
    ensures (forall x :: x in sorted <==> x in entries) && (AllApart(entries) ==> AllApart(sorted))
  {
    sorted := [];
    for i := 0 to |entries|
      invariant Sorted(sorted) && multiset(sorted) == multiset(entries[..i])
      invariant (forall x :: x in sorted <==> x in entries[..i]) && (AllApart(entries) ==> AllApart(sorted))
    {
      sorted := Insert(sorted, entries[i]);
      assert entries[..i + 1] == entries[..i] + [entries[i]];
    }
    assert entries[..|entries|] == entries;
  }

  /** A function's stretch of code goes up to the next entry. */
  function RangeAt(p: CompiledProgram, entries: seq<Entry>, i: nat): Range
    requires i < |entries| && entries[i].1 in p.functions
  {
    Range(entries[i].1, p.functions[entries[i].1], entries[i].0, if i + 1 < |entries| then entries[i + 1].0 else |p.instructions|)
  }

  /** The stretch from a function's entry to the next entry, or to the end of the code. */
  ghost predicate OwnRange(p: CompiledProgram, id: nat, r: Range) {
    && id in p.functions && r.id == id && r.info == p.functions[id] && r.start == r.info.entryPc
    && RangeOk(p, r)
    && (forall other <- p.functions :: !(r.start < p.functions[other].entryPc < r.end))
    && (r.end == |p.instructions| || exists other <- p.functions :: p.functions[other].entryPc == r.end)
  }

  lemma OwnRangeIsUnique(p: CompiledProgram, id: nat, r: Range, r': Range)
    requires OwnRange(p, id, r) && OwnRange(p, id, r')
    ensures r == r'
  {
  }

  /** The table lists the functions in `ids`, each under its entry. */
  ghost predicate Lists(p: CompiledProgram, entries: seq<Entry>, ids: set<nat>)
    requires ids <= p.functions.Keys
  {
    && (forall e <- entries :: e.1 in ids && e.0 == p.functions[e.1].entryPc)
    && (forall id <- ids :: (p.functions[id].entryPc, id) in entries)
  }

  lemma SortedOwn(p: CompiledProgram, entries: seq<Entry>, i: nat)
    requires Sorted(entries) && i < |entries| && Lists(p, entries, p.functions.Keys) && MetadataOk(p, p.functions.Keys)
    requires forall j :: 0 <= j < |entries| && j != i ==> entries[j].0 != entries[i].0
    ensures OwnRange(p, entries[i].1, RangeAt(p, entries, i))
  {
    assert entries[i] in entries;
    assert i + 1 < |entries| ==> entries[i + 1] in entries && entries[i + 1].0 > entries[i].0;
    var r := RangeAt(p, entries, i);
    forall other | other in p.functions ensures !(r.start < p.functions[other].entryPc < r.end) {
      var j :| 0 <= j < |entries| && entries[j] == (p.functions[other].entryPc, other);
    }
  }

  /** Reads the entries of all functions and checks their metadata. */
  method CollectEntries(p: CompiledProgram) returns (entries: seq<Entry>, errors: nat)
    ensures errors == 0 <==> MetadataOk(p, p.functions.Keys)
    ensures forall e <- entries :: e.1 in p.functions && e.0 < |p.instructions|
    ensures errors == 0 ==> Lists(p, entries, p.functions.Keys) && AllApart(entries)
  {
    errors, entries := 0, [];
    var seen: set<nat> := {};
    var todo := p.functions.Keys;
    while todo != {}
      invariant todo <= p.functions.Keys
      invariant errors == 0 <==> MetadataOk(p, p.functions.Keys - todo)
      invariant forall e <- entries :: e.1 in p.functions && e.0 < |p.instructions|
      invariant errors == 0 ==> Collected(p, p.functions.Keys - todo, seen, entries)
      decreases |todo|
    {
      var id :| id in todo;
      var info := p.functions[id];
      ghost var done, errors0, seen0, entries0 := p.functions.Keys - todo, errors, seen, entries;
      todo := todo - {id};
      assert p.functions.Keys - todo == done + {id};
      if info.paramCount > info.localCount {
        errors := errors + 1;
      }
      if info.localCount > MAX_LOCAL_SLOTS {
        errors := errors + 1;
      }
      if info.entryPc >= |p.instructions| {
        errors := errors + 1;
        NotAll(p, done, id);
        continue;
      }
      if info.entryPc in seen {
        errors := errors + 1;
      }
      seen := seen + {info.entryPc};
      entries := entries + [(info.entryPc, id)];
      OneMore(p, done, id, seen0, entries0, errors0, errors);
    }
    assert p.functions.Keys - todo == p.functions.Keys;
  }

  /** What the loop knows while no error was found. */
  ghost predicate Collected(p: CompiledProgram, done: set<nat>, seen: set<nat>, entries: seq<Entry>)
    requires done <= p.functions.Keys
  {
    && Lists(p, entries, done) && AllApart(entries)
    && forall e :: e in seen <==> exists id <- done :: p.functions[id].entryPc == e
  }

  lemma NotAll(p: CompiledProgram, done: set<nat>, id: nat)
    requires done <= p.functions.Keys && id in p.functions && !InfoOk(p, id)
    ensures !MetadataOk(p, done + {id})
  {
    assert id in done + {id};
  }

  lemma OneMore(p: CompiledProgram, done: set<nat>, id: nat, seen: set<nat>, entries: seq<Entry>, errors: nat, errors': nat)
    requires done <= p.functions.Keys && id in p.functions && id !in done
    requires errors == 0 <==> MetadataOk(p, done)
    requires errors == 0 ==> Collected(p, done, seen, entries)
    requires errors' == 0 <==> errors == 0 && InfoOk(p, id) && p.functions[id].entryPc !in seen
    ensures errors' == 0 <==> MetadataOk(p, done + {id})
    ensures errors' == 0 ==> Collected(p, done + {id}, seen + {p.functions[id].entryPc}, entries + [(p.functions[id].entryPc, id)])
  {
    if errors == 0 && p.functions[id].entryPc in seen {
      var other :| other in done && p.functions[other].entryPc == p.functions[id].entryPc;
      assert other in done + {id} && id in done + {id};
    }
    if errors' == 0 {
      var e := (p.functions[id].entryPc, id);
      assert Lists(p, entries + [e], done + {id}) by {
        assert (entries + [e])[|entries|] == e;
        forall x | x in done + {id} ensures (p.functions[x].entryPc, x) in entries + [e] {
          assert x in done ==> (p.functions[x].entryPc, x) in entries;
        }
      }
      forall i | 0 <= i < |entries| ensures entries[i].0 != e.0 {
        assert entries[i] in entries;
      }
    } else if errors != 0 && MetadataOk(p, done + {id}) {
      assert forall x <- done :: x in done + {id};
    }
  }

  lemma SameLists(p: CompiledProgram, a: seq<Entry>, b: seq<Entry>)
    requires Lists(p, a, p.functions.Keys) && forall x :: x in a <==> x in b
    ensures Lists(p, b, p.functions.Keys)
  {
  }

  method FunctionRanges(p: CompiledProgram) returns (ranges: seq<Range>, errors: nat)
    ensures errors == 0 <==> MetadataOk(p, p.functions.Keys)
    ensures forall r <- ranges :: r.start <= r.end <= |p.instructions|
    ensures errors == 0 ==> (forall r <- ranges :: OwnRange(p, r.id, r)) && forall id <- p.functions :: exists r <- ranges :: r.id == id
  {
    hide OwnRange, MetadataOk, Lists, AllApart, Sorted;
    var collected;
    collected, errors := CollectEntries(p);
    var entries := SortByEntry(collected);
    ranges := [];
    assert forall e <- entries :: e.1 in p.functions && e.0 < |p.instructions|;
    if errors == 0 {
      SameLists(p, collected, entries);
    }
    for i := 0 to |entries|
      invariant |ranges| == i && forall j :: 0 <= j < i ==> entries[j].1 in p.functions && ranges[j] == RangeAt(p, entries, j)
    {
      assert entries[i] in entries;
      ranges := ranges + [RangeAt(p, entries, i)];
    }
    RangesFit(p, entries, ranges);
    if errors == 0 {
      RangesOwn(p, entries, ranges);
    }
  }

  /** The ranges are those of the sorted entries. */
  predicate RangesAre(p: CompiledProgram, entries: seq<Entry>, ranges: seq<Range>) {
    |ranges| == |entries| && forall i :: 0 <= i < |entries| ==> entries[i].1 in p.functions && ranges[i] == RangeAt(p, entries, i)
  }

  lemma RangesFit(p: CompiledProgram, entries: seq<Entry>, ranges: seq<Range>)
    requires Sorted(entries) && (forall e <- entries :: e.0 < |p.instructions|) && RangesAre(p, entries, ranges)
    ensures forall r <- ranges :: r.start <= r.end <= |p.instructions|
  {
    forall r | r in ranges ensures r.start <= r.end <= |p.instructions| {
      var i :| 0 <= i < |entries| && ranges[i] == r;
      assert entries[i] in entries && (i + 1 < |entries| ==> entries[i + 1] in entries);
    }
  }

  lemma RangesOwn(p: CompiledProgram, entries: seq<Entry>, ranges: seq<Range>)
    requires Sorted(entries) && AllApart(entries) && RangesAre(p, entries, ranges)
    requires MetadataOk(p, p.functions.Keys) && Lists(p, entries, p.functions.Keys)
    ensures (forall r <- ranges :: OwnRange(p, r.id, r)) && forall id <- p.functions :: exists r <- ranges :: r.id == id
  {
    hide OwnRange, MetadataOk, Sorted, Lists;
    forall r | r in ranges ensures OwnRange(p, r.id, r) {
      var i :| 0 <= i < |entries| && ranges[i] == r;
      SortedOwn(p, entries, i);
    }
    forall id | id in p.functions ensures exists r <- ranges :: r.id == id {
      Listed(p, entries, id);
      var i :| 0 <= i < |entries| && entries[i] == (p.functions[id].entryPc, id);
      assert ranges[i].id == id;
    }
  }

  lemma Listed(p: CompiledProgram, entries: seq<Entry>, id: nat)
    requires Lists(p, entries, p.functions.Keys) && id in p.functions
    ensures (p.functions[id].entryPc, id) in entries
  {
  }

  // ---------------------------------------------------------------- the program

  /** A function is sound when its stretch of code has a consistent stack depth everywhere control can reach. */
  ghost predicate FunctionSound(p: CompiledProgram, id: nat) {
    exists r, depths :: OwnRange(p, id, r) && Balanced(p, r, depths)
  }

  /** What it takes to be valid, without reference to how the verifier finds out. */
  ghost predicate Valid(p: CompiledProgram) {
    && GlobalsOk(p.globals, p.globals.Keys)
    && p.functions != map[] && p.mainFuncId in p.functions
    && |p.instructions| <= MAX_INSTRUCTIONS
    && MetadataOk(p, p.functions.Keys)
    && forall id <- p.functions :: FunctionSound(p, id)
  }

  /** The report is backed by a proof about every function, whose depths it bounds. */
  ghost predicate Backed(p: CompiledProgram, report: Report, w: Proof) {
    && Verified(p, w) && w.traps <= report.traps <= w.traps + {StackOverflow} && w.edges == report.edges
    && forall id <- p.functions, pc <- w.states[id] :: w.states[id][pc].depth <= report.maxStackDepth
  }

  /** What control can meet in the functions of a program. */
  ghost predicate MayRaise(p: CompiledProgram, t: TrapCode) {
    exists r: Range :: OwnRange(p, r.id, r) && RangeRaises(p, r, t)
  }

  ghost predicate MayCall(p: CompiledProgram, caller: nat, callee: nat) {
    exists r :: OwnRange(p, caller, r) && RangeCalls(p, r, callee)
  }

  ghost predicate MayHold(p: CompiledProgram, depth: nat) {
    exists r: Range :: OwnRange(p, r.id, r) && RangeHolds(p, r, depth)
  }

  /** What was found in some ranges is what control can meet there. */
  ghost predicate Found(p: CompiledProgram, ranges: seq<Range>, traps: set<TrapCode>, edges: set<(nat, nat)>, peak: nat) {
    && (forall t :: t in traps <==> exists r <- ranges :: RangeRaises(p, r, t))
    && (forall e :: e in edges <==> exists r <- ranges :: e.0 == r.id && RangeCalls(p, r, e.1))
    && (forall r <- ranges, depth: nat :: RangeHolds(p, r, depth) ==> depth <= peak)
    && (if ranges == [] then peak == 0 else exists r <- ranges :: RangeHolds(p, r, peak))
  }

  lemma FoundMore(p: CompiledProgram, ranges: seq<Range>, traps: set<TrapCode>, edges: set<(nat, nat)>, peak: nat,
                  r: Range, check: Check, states: States)
    requires Found(p, ranges, traps, edges, peak)
    requires Solved(p, r, states, check.traps, check.edges) && Witnessed(p, r, states)
    requires Justified(p, r, states, check.traps, check.edges) && Greatest(states, check.maxDepth)
    ensures Found(p, ranges + [r], traps + check.traps, edges + check.edges, FrameDepth.Max(peak, check.maxDepth))
  {
    hide Solved, Witnessed, Justified, RangeRaises, RangeCalls, RangeHolds;
    CheckIsExact(p, r, states, check.traps, check.edges);
    PeakIsExact(p, r, states, check.traps, check.edges, check.maxDepth);
    var more := ranges + [r];
    assert r in more && forall q :: q in more <==> q in ranges || q == r;
  }

  lemma SolvedMore(p: CompiledProgram, r: Range, states: States, traps: set<TrapCode>, edges: set<(nat, nat)>,
                   traps': set<TrapCode>, edges': set<(nat, nat)>)
    requires Solved(p, r, states, traps, edges) && traps <= traps' && edges <= edges'
    ensures Solved(p, r, states, traps', edges')
  {
    hide StepInstruction, Covers;
    forall pc | pc in states ensures Flows(p, r, states, pc, traps', edges') {
      assert Flows(p, r, states, pc, traps, edges);
    }
  }

  ghost predicate RangeHandled(p: CompiledProgram, r: Range, w: Proof, maxStackDepth: nat) {
    && r.id in w.ranges && r.id in w.states && w.ranges[r.id] == r && RangeOk(p, r)
    && Solved(p, r, w.states[r.id], w.traps, w.edges)
    && forall pc <- w.states[r.id] :: w.states[r.id][pc].depth <= maxStackDepth
  }

  ghost predicate RangeBalanced(p: CompiledProgram, r: Range) {
    RangeOk(p, r) && exists depths :: Balanced(p, r, depths)
  }

  /** One more range handled; what was handled before stays so. */
  lemma HandledMore(p: CompiledProgram, r: Range, w: Proof, check: Check, states: States, depth: nat, w': Proof, depth': nat, other: Range)
    requires RangeOk(p, r) && Solved(p, r, states, check.traps, check.edges) && forall pc <- states :: states[pc].depth <= check.maxDepth
    requires w' == Proof(w.ranges[r.id := r], w.states[r.id := states], w.traps + check.traps, w.edges + check.edges)
    requires depth <= depth' && check.maxDepth <= depth'
    requires other == r || (other.id != r.id && RangeHandled(p, other, w, depth))
    ensures RangeHandled(p, other, w', depth')
  {
    hide Solved;
    if other == r {
      SolvedMore(p, r, states, check.traps, check.edges, w'.traps, w'.edges);
    } else {
      SolvedMore(p, other, w.states[other.id], w.traps, w.edges, w'.traps, w'.edges);
    }
  }

  lemma HandledVerified(p: CompiledProgram, ranges: seq<Range>, w: Proof, depth: nat)
    requires MetadataOk(p, p.functions.Keys) && p.mainFuncId in p.functions
    requires forall r <- ranges :: OwnRange(p, r.id, r) && RangeHandled(p, r, w, depth)
    requires forall id <- p.functions :: exists r <- ranges :: r.id == id
    ensures Verified(p, w) && forall id <- p.functions, pc <- w.states[id] :: w.states[id][pc].depth <= depth
  {
    hide Solved, RangeHandled, OwnRange;
    forall id | id in p.functions ensures FunctionVerified(p, w, id) && forall pc <- w.states[id] :: w.states[id][pc].depth <= depth {
      var r :| r in ranges && r.id == id;
      OneVerified(p, r, w, depth);
    }
  }

  lemma OneVerified(p: CompiledProgram, r: Range, w: Proof, depth: nat)
    requires MetadataOk(p, p.functions.Keys) && OwnRange(p, r.id, r) && RangeHandled(p, r, w, depth)
    ensures FunctionVerified(p, w, r.id) && forall pc <- w.states[r.id] :: w.states[r.id][pc].depth <= depth
  {
    hide Solved;
    assert InfoOk(p, r.id);
  }

  lemma AllSound(p: CompiledProgram, ranges: seq<Range>)
    requires forall r <- ranges :: OwnRange(p, r.id, r)
    requires forall id <- p.functions :: exists r <- ranges :: r.id == id
    ensures (forall r <- ranges :: RangeBalanced(p, r)) <==> forall id <- p.functions :: FunctionSound(p, id)
  {
    hide Balanced;
    if forall r <- ranges :: RangeBalanced(p, r) {
      forall id | id in p.functions ensures FunctionSound(p, id) {
        var r :| r in ranges && r.id == id;
        assert RangeBalanced(p, r);
      }
    }
    if forall id <- p.functions :: FunctionSound(p, id) {
      forall r | r in ranges ensures RangeBalanced(p, r) {
        assert FunctionSound(p, r.id);
        var own, depths :| OwnRange(p, r.id, own) && Balanced(p, own, depths);
        OwnRangeIsUnique(p, r.id, r, own);
      }
    }
  }

  /** Verifies every range in turn. */
  method VerifyRanges(p: CompiledProgram, ranges: seq<Range>)
    returns (errors: nat, traps: set<TrapCode>, edges: set<(nat, nat)>, maxStackDepth: nat, ghost w: Proof)
    requires forall r <- ranges :: r.start <= r.end <= |p.instructions|
    ensures errors == 0 <==> forall r <- ranges :: RangeBalanced(p, r)
    ensures w.traps == traps && w.edges == edges
    ensures errors == 0 && (forall r <- ranges :: OwnRange(p, r.id, r)) ==> forall r <- ranges :: RangeHandled(p, r, w, maxStackDepth)
    ensures errors == 0 ==> Found(p, ranges, traps, edges, maxStackDepth)
  {
    hide OwnRange, RangeHandled, Balanced, Solved, Witnessed, Justified, Found;
    errors, traps, edges, maxStackDepth, w := 0, {}, {}, 0, Proof(map[], map[], {}, {});
    FoundNothing(p);
    for i := 0 to |ranges|
      invariant errors == 0 <==> forall j :: 0 <= j < i ==> RangeBalanced(p, ranges[j])
      invariant w.traps == traps && w.edges == edges
      invariant errors == 0 ==> Found(p, ranges[..i], traps, edges, maxStackDepth)
      invariant errors == 0 && (forall r <- ranges :: OwnRange(p, r.id, r)) ==>
        forall j :: 0 <= j < i ==> RangeHandled(p, ranges[j], w, maxStackDepth)
    {
      var r := ranges[i];
      if r.start >= r.end {
        errors := errors + 1;
      } else {
        var check, states := VerifyFunction(p, r);
        ghost var w0, depth0 := w, maxStackDepth;
        assert ranges[..i + 1] == ranges[..i] + [r];
        if errors == 0 && check.errors == [] {
          FoundMore(p, ranges[..i], traps, edges, maxStackDepth, r, check, states);
        }
        errors := errors + |check.errors|;
        traps := traps + check.traps;
        edges := edges + check.edges;
        maxStackDepth := FrameDepth.Max(maxStackDepth, check.maxDepth);
        w := Proof(w0.ranges[r.id := r], w0.states[r.id := states], traps, edges);
        if errors == 0 && forall r <- ranges :: OwnRange(p, r.id, r) {
          forall j | 0 <= j < i + 1 ensures RangeHandled(p, ranges[j], w, maxStackDepth) {
            if ranges[j].id == r.id {
              OwnRangeIsUnique(p, r.id, ranges[j], r);
            }
            HandledMore(p, r, w0, check, states, depth0, w, maxStackDepth, ranges[j]);
          }
        }
      }
    }
    assert ranges[..|ranges|] == ranges;
  }

  lemma FoundNothing(p: CompiledProgram)
    ensures Found(p, [], {}, {}, 0)
  {
  }

  /** The ranges are the functions' own, so that what was found in them is what the program can meet. */
  lemma FoundIsAll(p: CompiledProgram, ranges: seq<Range>, traps: set<TrapCode>, edges: set<(nat, nat)>, peak: nat)
    requires Found(p, ranges, traps, edges, peak) && p.functions != map[]
    requires forall r <- ranges :: OwnRange(p, r.id, r)
    requires forall id <- p.functions :: exists r <- ranges :: r.id == id
    ensures forall t :: t in traps <==> MayRaise(p, t)
    ensures forall e :: e in edges <==> MayCall(p, e.0, e.1)
    ensures MayHold(p, peak) && forall depth: nat :: MayHold(p, depth) ==> depth <= peak
  {
    hide OwnRange, RangeRaises, RangeCalls, RangeHolds;
    forall r: Range | OwnRange(p, r.id, r) ensures r in ranges {
      OwnIsListed(p, ranges, r);
    }
    forall e: (nat, nat) ensures e in edges <==> MayCall(p, e.0, e.1) {
      if MayCall(p, e.0, e.1) {
        var r :| OwnRange(p, e.0, r) && RangeCalls(p, r, e.1);
        OwnIsNamed(p, e.0, r);
      }
    }
    var id :| id in p.functions;
    assert ranges != [];
  }

  lemma OwnIsNamed(p: CompiledProgram, id: nat, r: Range)
    requires OwnRange(p, id, r)
    ensures r.id == id && id in p.functions
  {
  }

  lemma OwnIsListed(p: CompiledProgram, ranges: seq<Range>, r: Range)
    requires OwnRange(p, r.id, r)
    requires forall r <- ranges :: OwnRange(p, r.id, r)
    requires forall id <- p.functions :: exists r <- ranges :: r.id == id
    ensures r in ranges
  {
    var own :| own in ranges && own.id == r.id;
    OwnRangeIsUnique(p, r.id, r, own);
  }

  /**
   * Verifies a program. The report is valid exactly when the program is; a valid report is backed by a proof about
   * every function, its traps, calls and operand depth are exactly those control can meet in the functions' code, and
   * its frame depth is the longest chain of calls from main.
   */
  method Verify(p: CompiledProgram) returns (report: Report)
    ensures report.valid <==> Valid(p)
    ensures report.valid ==> exists w :: Backed(p, report, w)
    ensures report.maxFrameDepth.Some? <==> !FrameDepth.Recursive(report.edges, p.mainFuncId)
    ensures report.maxFrameDepth.Some? ==> FrameDepth.Longest(report.edges, p.mainFuncId, report.maxFrameDepth.value)
    ensures report.valid ==> forall t :: t in report.traps <==>
      MayRaise(p, t) || (t == StackOverflow && (report.maxFrameDepth.None? || report.maxFrameDepth.value > MAX_FRAMES))
    ensures report.maxFrameDepth.None? || report.maxFrameDepth.value > MAX_FRAMES ==> StackOverflow in report.traps
    ensures report.valid ==> forall e :: e in report.edges <==> MayCall(p, e.0, e.1)
    ensures report.valid ==> MayHold(p, report.maxStackDepth) && forall depth: nat :: MayHold(p, depth) ==> depth <= report.maxStackDepth
  {
    hide GlobalsOk, MetadataOk, OwnRange, RangeHandled, RangeBalanced, FunctionSound, Verified, Found, MayRaise, MayCall, MayHold;
    var errors := VerifyGlobals(p.globals);
    if p.functions == map[] {
      errors := errors + 1;
    }
    if p.mainFuncId !in p.functions {
      errors := errors + 1;
    }
    if |p.instructions| > MAX_INSTRUCTIONS {
      errors := errors + 1;
    }
    var ranges, bad := FunctionRanges(p);
    ghost var w;
    var more, traps, edges, maxStackDepth;
    more, traps, edges, maxStackDepth, w := VerifyRanges(p, ranges);
    errors := errors + bad + more;
    var maxFrameDepth := FrameDepth.MaxFrameDepth(edges, p.mainFuncId);
    ghost var found := traps;
    if maxFrameDepth.None? || maxFrameDepth.value > MAX_FRAMES {
      traps := traps + {StackOverflow};
    }
    report := Report(errors == 0, traps, edges, maxStackDepth, maxFrameDepth);
    if bad == 0 {
      AllSound(p, ranges);
      if errors == 0 {
        HandledVerified(p, ranges, w, maxStackDepth);
        FoundIsAll(p, ranges, found, edges, maxStackDepth);
        assert Backed(p, report, w);
      }
    }
  }
}
