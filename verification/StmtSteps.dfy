/** Single pieces of statement code: stores, allocations, output. */
module StmtSteps {
  import opened Common
  import opened Int32
  import opened Limits
  import opened Ast
  import opened Bytecode
  import opened CodeGen
  import opened Simulation
  import opened ExprSteps
  import O = Oracle
  import M = Machine

  // ---------------------------------------------------------------- memory lemmas

  lemma Windows(a: Act, scope: O.Scope, cells: seq<int>)
    requires ScopeMatches(a, scope, cells)
    ensures forall y :: y in a.full.locals ==> a.base + a.full.locals[y].slot < MAX_LOCAL_SLOTS <= a.floor <= |cells|
  {
  }

  /** A name whose slot, and whose array cells, are untouched still matches. */
  lemma StillMatches(v: LocalVar, scope: O.Scope, scope': O.Scope, y: string, cells: seq<int>, cells': seq<int>, base: nat, floor: nat)
    requires LocalMatches(v, scope, y, cells, base, floor) && |cells| <= |cells'|
    requires cells'[base + v.slot] == cells[base + v.slot]
    requires y in scope <==> y in scope'
    requires y in scope ==> scope'[y] == scope[y]
    requires y in scope && scope[y].Array? ==>
      var at := cells[base + v.slot]; forall i :: at <= i < at + |scope[y].values| ==> cells'[i] == cells[i]
    ensures LocalMatches(v, scope', y, cells', base, floor)
  {
    if y in scope && scope[y].Array? {
      assert Holds(cells', cells[base + v.slot], scope[y].values);
    }
  }

  lemma StillApart(a: Act, scope: O.Scope, scope': O.Scope, cells: seq<int>, cells': seq<int>)
    requires Apart(a.full, scope, cells, a.base) && |cells| <= |cells'|
    requires forall y :: y in a.full.locals ==> a.base + a.full.locals[y].slot < |cells|
    requires forall y :: y in a.full.locals && a.full.locals[y].isArray && y in scope' ==>
      y in scope && cells'[a.base + a.full.locals[y].slot] == cells[a.base + a.full.locals[y].slot]
    ensures Apart(a.full, scope', cells', a.base)
  {
    forall y, z | y in a.full.locals && z in a.full.locals && y != z && y in scope' && z in scope'
                  && a.full.locals[y].isArray && a.full.locals[z].isArray
      ensures ApartCells(a.full.locals[y], a.full.locals[z], cells', a.base)
    {
      assert ApartCells(a.full.locals[y], a.full.locals[z], cells, a.base);
    }
  }

  lemma WriteScalar(a: Act, scope: O.Scope, cells: seq<int>, name: string, v: int)
    requires ScopeMatches(a, scope, cells) && name in a.full.locals && !a.full.locals[name].isArray && IsI32(v)
    ensures var cell := a.base + a.full.locals[name].slot;
      && cell < MAX_LOCAL_SLOTS <= |cells|
      && ScopeMatches(a, scope[name := O.Scalar(Some(v))], cells[cell := v])
      && Spares(a, cells, cells[cell := v])
  {
    var cell := a.base + a.full.locals[name].slot;
    var scope', cells' := scope[name := O.Scalar(Some(v))], cells[cell := v];
    forall y | y in a.full.locals ensures LocalMatches(a.full.locals[y], scope', y, cells', a.base, a.floor) {
      if y != name {
        StillMatches(a.full.locals[y], scope, scope', y, cells, cells', a.base, a.floor);
      }
    }
    StillApart(a, scope, scope', cells, cells');
  }

  /** A declaration without a value: the cell is already marked undefined. */
  lemma DeclareFresh(a: Act, scope: O.Scope, cells: seq<int>, name: string)
    requires ScopeMatches(a, scope, cells) && name in a.full.locals && !a.full.locals[name].isArray && name !in scope
    ensures ScopeMatches(a, scope[name := O.Scalar(None)], cells)
  {
    var scope' := scope[name := O.Scalar(None)];
    forall y | y in a.full.locals ensures LocalMatches(a.full.locals[y], scope', y, cells, a.base, a.floor) {
      assert LocalMatches(a.full.locals[y], scope, y, cells, a.base, a.floor);
    }
  }

  /** Writing one element of an array leaves every other local as it was. */
  lemma OtherLocals(a: Act, scope: O.Scope, scope': O.Scope, cells: seq<int>, name: string, y: string, index: nat, v: int)
    requires ScopeMatches(a, scope, cells) && name in a.full.locals && name in scope && scope[name].Array?
    requires a.base + a.full.locals[name].slot < |cells| && index < |scope[name].values|
    requires y in a.full.locals && y != name && (y in scope <==> y in scope') && (y in scope ==> scope'[y] == scope[y])
    ensures var cell := cells[a.base + a.full.locals[name].slot] + index;
      a.floor <= cell < |cells| && LocalMatches(a.full.locals[y], scope', y, cells[cell := v], a.base, a.floor)
  {
    assert LocalMatches(a.full.locals[name], scope, name, cells, a.base, a.floor);
    assert LocalMatches(a.full.locals[y], scope, y, cells, a.base, a.floor);
    assert y in scope && scope[y].Array? ==> ApartCells(a.full.locals[name], a.full.locals[y], cells, a.base);
    var cell := cells[a.base + a.full.locals[name].slot] + index;
    hide ScopeMatches;
    StillMatches(a.full.locals[y], scope, scope', y, cells, cells[cell := v], a.base, a.floor);
  }

  lemma WriteElement(a: Act, scope: O.Scope, cells: seq<int>, name: string, index: nat, v: int)
    requires ScopeMatches(a, scope, cells) && name in a.full.locals && name in scope && scope[name].Array? && IsI32(v)
    requires index < |scope[name].values|
    ensures a.base + a.full.locals[name].slot < |cells|
    ensures var cell := cells[a.base + a.full.locals[name].slot] + index;
      && a.floor <= cell < |cells|
      && ScopeMatches(a, scope[name := O.Array(scope[name].values[index := v])], cells[cell := v])
      && Spares(a, cells, cells[cell := v])
  {
    hide Apart, TableOk;
    Windows(a, scope, cells);
    assert LocalMatches(a.full.locals[name], scope, name, cells, a.base, a.floor);
    var at, values := cells[a.base + a.full.locals[name].slot], scope[name].values;
    var scope', cells' := scope[name := O.Array(values[index := v])], cells[at + index := v];
    assert Holds(cells', at, values[index := v]);
    hide Holds;
    forall y | y in a.full.locals && y != name ensures LocalMatches(a.full.locals[y], scope', y, cells', a.base, a.floor) {
      OtherLocals(a, scope, scope', cells, name, y, index, v);
    }
    StillApart(a, scope, scope', cells, cells');
  }

  /** A declared array takes fresh cells behind everything allocated so far. */
  lemma PlaceArray(a: Act, scope: O.Scope, cells: seq<int>, name: string, fresh': seq<int>)
    requires ScopeMatches(a, scope, cells) && name in a.full.locals && a.full.locals[name].isArray
    requires |fresh'| == a.full.locals[name].arraySize && AllI32(fresh')
    ensures var cell := a.base + a.full.locals[name].slot;
      && cell < MAX_LOCAL_SLOTS <= |cells|
      && ScopeMatches(a, scope[name := O.Array(fresh')], (cells + fresh')[cell := |cells|])
      && Spares(a, cells, (cells + fresh')[cell := |cells|])
  {
    var cell := a.base + a.full.locals[name].slot;
    var scope', cells' := scope[name := O.Array(fresh')], (cells + fresh')[cell := |cells|];
    assert Holds(cells', |cells|, fresh');
    forall y | y in a.full.locals ensures LocalMatches(a.full.locals[y], scope', y, cells', a.base, a.floor) {
      if y != name {
        assert LocalMatches(a.full.locals[y], scope, y, cells, a.base, a.floor);
        StillMatches(a.full.locals[y], scope, scope', y, cells, cells', a.base, a.floor);
      }
    }
    PlacedApart(a, scope, cells, name, fresh', cells');
  }

  /** The new array lies behind all others. */
  lemma PlacedApart(a: Act, scope: O.Scope, cells: seq<int>, name: string, fresh': seq<int>, cells': seq<int>)
    requires ScopeMatches(a, scope, cells) && name in a.full.locals && a.full.locals[name].isArray
    requires |cells'| >= |cells| && forall i :: 0 <= i < |cells| && i != a.base + a.full.locals[name].slot ==> cells'[i] == cells[i]
    requires a.base + a.full.locals[name].slot < |cells| && cells'[a.base + a.full.locals[name].slot] == |cells|
    ensures Apart(a.full, scope[name := O.Array(fresh')], cells', a.base)
  {
    var scope' := scope[name := O.Array(fresh')];
    forall y, z | y in a.full.locals && z in a.full.locals && y != z && y in scope' && z in scope'
                  && a.full.locals[y].isArray && a.full.locals[z].isArray
      ensures ApartCells(a.full.locals[y], a.full.locals[z], cells', a.base)
    {
      assert ApartCells(a.full.locals[y], a.full.locals[z], cells, a.base) || y == name || z == name;
      assert LocalMatches(a.full.locals[y], scope, y, cells, a.base, a.floor);
      assert LocalMatches(a.full.locals[z], scope, z, cells, a.base, a.floor);
    }
  }

  lemma WriteGlobal(globals: map<string, GlobalInfo>, og: O.Scope, cells: seq<int>, name: string, v: int)
    requires LayoutOk(globals) && GlobalsMatch(globals, og, cells) && name in globals && !globals[name].isArray && IsI32(v)
    ensures globals[name].slot < |cells|
    ensures GlobalsMatch(globals, og[name := O.Scalar(Some(v))], cells[globals[name].slot := v])
  {
    assert GlobalMatches(globals[name], og[name], cells);
    var og', cells' := og[name := O.Scalar(Some(v))], cells[globals[name].slot := v];
    forall y | y in globals ensures GlobalMatches(globals[y], og'[y], cells') {
      assert GlobalMatches(globals[y], og[y], cells);
    }
  }

  lemma WriteGlobalElement(globals: map<string, GlobalInfo>, og: O.Scope, cells: seq<int>, name: string, index: nat, v: int)
    requires LayoutOk(globals) && GlobalsMatch(globals, og, cells) && name in globals && globals[name].isArray && IsI32(v)
    requires index < globals[name].arraySize
    ensures globals[name].slot + index < |cells| && og[name].Array? && |og[name].values| == globals[name].arraySize
    ensures GlobalsMatch(globals, og[name := O.Array(og[name].values[index := v])], cells[globals[name].slot + index := v])
  {
    assert GlobalMatches(globals[name], og[name], cells);
    var og', cells' := og[name := O.Array(og[name].values[index := v])], cells[globals[name].slot + index := v];
    forall y | y in globals ensures GlobalMatches(globals[y], og'[y], cells') {
      assert GlobalMatches(globals[y], og[y], cells);
    }
  }

  // ---------------------------------------------------------------- stores

  lemma Parts(x: Link, a: Act, st: O.State, s: M.State)
    requires Match(x, a, st, s)
    ensures s.calls != [] && s.output == st.output && ScopeMatches(a, O.Top(st), s.locals)
    ensures GlobalsMatch(x.n.globals, st.globals, s.globals) && InFrame(x, a, s) && Spares(a, s.locals, s.locals)
  {
  }

  /** The instruction e leads to s', whose memory corresponds to st'. */
  lemma MemoryStep(x: Link, a: Act, st: O.State, st': O.State, s: M.State, e: M.Step, after: M.State)
    requires Match(x, a, st, s) && Runs(x.c, s, e)
    requires e == M.Advance(after) || (e.Trapped? && e.code == StackOverflow)
    requires after.calls == s.calls && after.cycles == s.cycles + 1 && after.output == st'.output
    requires GlobalsMatch(x.n.globals, st'.globals, after.globals)
    requires ScopeMatches(a, O.Top(st'), after.locals) && Spares(a, s.locals, after.locals)
    ensures Reaches(x, a, st', s, after.(pc := after.pc + 1))
  {
    hide M.RunFrom, Runs, ScopeMatches, GlobalsMatch, Spares;
    Advances(x.c, s, e, after);
  }

  lemma StoreLocalStep(x: Link, a: Act, st: O.State, s: M.State, name: string, rest: seq<int>, v: int) returns (s': M.State)
    requires Match(x, a, st, s) && s.stack == rest + [v] && IsI32(v) && st.frames != []
    requires name in a.full.locals && name in O.Top(st) && !a.full.locals[name].isArray
    requires CodeAt(x.c, s.pc, [Ins(StoreLocal, a.full.locals[name].slot, 0)])
    ensures var r := O.AssignScalar(st, name, v);
      r.res.Ok? && Reaches(x, a, r.st, s, s') && s'.stack == rest && s'.pc == s.pc + 1
  {
    hide M.RunFrom, Runs, ScopeMatches, Match, GlobalsMatch, Spares;
    Parts(x, a, st, s);
    LocalFacts(x, a, st, s, name);
    var slot := a.full.locals[name].slot;
    WriteScalar(a, O.Top(st), s.locals, name, v);
    FetchStoreLocal(x.c, s, slot);
    assert s.stack[..|s.stack| - 1] == rest;
    var after := Tock(s).(stack := rest, locals := s.locals[a.base + slot := v]);
    s' := after.(pc := s.pc + 1);
    MemoryStep(x, a, st, O.AssignScalar(st, name, v).st, s, M.StoreLocal(x.c, Tock(s), slot), after);
  }

  lemma StoreGlobalStep(x: Link, a: Act, st: O.State, s: M.State, name: string, rest: seq<int>, v: int) returns (s': M.State)
    requires Match(x, a, st, s) && LayoutOk(x.n.globals) && s.stack == rest + [v] && IsI32(v)
    requires name in x.n.globals && name !in O.Top(st) && !x.n.globals[name].isArray
    requires CodeAt(x.c, s.pc, [Ins(StoreGlobal, x.n.globals[name].slot, 0)])
    ensures var r := O.AssignScalar(st, name, v);
      r.res.Ok? && Reaches(x, a, r.st, s, s') && s'.stack == rest && s'.pc == s.pc + 1
    ensures O.AssignGlobalScalar(st, name, v) == O.AssignScalar(st, name, v)
  {
    hide M.RunFrom, Runs, ScopeMatches, Match, GlobalsMatch, Spares, LayoutOk;
    Parts(x, a, st, s);
    GlobalFacts(x, a, st, s, name);
    var slot := x.n.globals[name].slot;
    WriteGlobal(x.n.globals, st.globals, s.globals, name, v);
    FetchStoreGlobal(x.c, s, slot);
    assert s.stack[..|s.stack| - 1] == rest;
    var after := Tock(s).(stack := rest, globals := s.globals[slot := v]);
    s' := after.(pc := s.pc + 1);
    MemoryStep(x, a, st, O.AssignScalar(st, name, v).st, s, M.StoreGlobal(Tock(s), slot), after);
  }

  /** What both kinds of array store do, with index and value on the stack. */
  ghost predicate StoresElement(x: Link, a: Act, st: O.State, s: M.State, s': M.State, name: string, rest: seq<int>, index: int, v: int) {
    if index < 0 then Fails(x.c, s, ArrayOutOfBounds, O.Elsewhere, st.output)
    else
      var r := O.AssignArray(st, name, index, v);
      if r.res.Fail? then r.st == st && Fails(x.c, s, r.res.code, r.res.site, st.output)
      else Reaches(x, a, r.st, s, s') && s'.stack == rest && s'.pc == s.pc + 1
  }

  lemma StoreLocalElementStep(x: Link, a: Act, st: O.State, s: M.State, name: string, rest: seq<int>, index: int, v: int)
    returns (s': M.State)
    requires Match(x, a, st, s) && s.stack == rest + [index] + [v] && IsI32(v) && st.frames != []
    requires name in a.full.locals && name in O.Top(st) && a.full.locals[name].isArray
    requires var w := a.full.locals[name]; CodeAt(x.c, s.pc, [Ins(LocalArrayStore, w.slot, w.arraySize)])
    ensures StoresElement(x, a, st, s, s', name, rest, index, v)
  {
    hide M.RunFrom, Runs, ScopeMatches, Match, GlobalsMatch, Spares, M.LocalArrayCell;
    Parts(x, a, st, s);
    LocalFacts(x, a, st, s, name);
    LocalCell(x, a, st, s, name, index);
    var local := a.full.locals[name];
    FetchLocalArrayStore(x.c, s, local.slot, local.arraySize);
    var e := M.LocalArrayStore(x.c, Tock(s), local.slot, local.arraySize);
    assert s.stack[..|s.stack| - 2] == rest;
    if 0 <= index < |O.Top(st)[name].values| {
      WriteElement(a, O.Top(st), s.locals, name, index, v);
      var after := Tock(s).(stack := rest, locals := s.locals[s.locals[a.base + local.slot] + index := v]);
      s' := after.(pc := s.pc + 1);
      MemoryStep(x, a, st, O.AssignArray(st, name, index, v).st, s, e, after);
    } else {
      s' := s;
      Stops(x.c, s, e);
    }
  }

  lemma StoreGlobalElementStep(x: Link, a: Act, st: O.State, s: M.State, name: string, rest: seq<int>, index: int, v: int)
    returns (s': M.State)
    requires Match(x, a, st, s) && LayoutOk(x.n.globals) && s.stack == rest + [index] + [v] && IsI32(v)
    requires name in x.n.globals && name !in O.Top(st) && x.n.globals[name].isArray
    requires var g := x.n.globals[name]; CodeAt(x.c, s.pc, [Ins(ArrayStore, g.slot, g.arraySize)])
    ensures StoresElement(x, a, st, s, s', name, rest, index, v)
  {
    hide M.RunFrom, Runs, ScopeMatches, Match, GlobalsMatch, Spares, LayoutOk, M.GlobalArrayBase;
    Parts(x, a, st, s);
    GlobalFacts(x, a, st, s, name);
    var g := x.n.globals[name];
    FetchArrayStore(x.c, s, g.slot, g.arraySize);
    var e := M.ArrayStore(Tock(s), g.slot, g.arraySize);
    assert s.stack[..|s.stack| - 2] == rest;
    if 0 <= index < g.arraySize {
      WriteGlobalElement(x.n.globals, st.globals, s.globals, name, index, v);
      var after := Tock(s).(stack := rest, globals := s.globals[g.slot + index := v]);
      s' := after.(pc := s.pc + 1);
      MemoryStep(x, a, st, O.AssignArray(st, name, index, v).st, s, e, after);
    } else {
      s' := s;
      Stops(x.c, s, e);
    }
  }

  // ---------------------------------------------------------------- allocation, output, discard

  /** Allocating an array and storing its base: two instructions. */
  lemma DeclareArrayStep(x: Link, a: Act, st: O.State, s: M.State, name: string, size: I32) returns (s': M.State)
    requires Match(x, a, st, s) && st.frames != [] && name !in x.n.globals
    requires name in a.full.locals && a.full.locals[name].isArray && a.full.locals[name].arraySize == size
    requires CodeAt(x.c, s.pc, [Ins(AllocArray, size, 0), Ins(StoreLocal, a.full.locals[name].slot, 0)])
    ensures var r := O.DeclareOrUpdate(st, name, O.Array(O.Zeros(size)));
      r.res.Ok? && Reaches(x, a, r.st, s, s') && s'.stack == s.stack && s'.pc == s.pc + 2
  {
    hide M.RunFrom, Runs, ScopeMatches, GlobalsMatch, Spares;
    Parts(x, a, st, s);
    LocalFacts(x, a, st, s, name);
    var slot := a.full.locals[name].slot;
    var zeros := O.Zeros(size);
    PlaceArray(a, O.Top(st), s.locals, name, zeros);
    var code := [Ins(AllocArray, size, 0), Ins(StoreLocal, slot, 0)];
    assert code == [code[0]] + [code[1]];
    CodeSplit(x.c, s.pc, [code[0]], [code[1]]);
    FetchAllocArray(x.c, s, size);
    assert seq(size, _ => 0) == zeros;
    var alloc := Tock(s).(locals := s.locals + zeros, stack := s.stack + [|s.locals|]);
    Advances(x.c, s, M.AllocArray(Tock(s), size), alloc);
    var mid := alloc.(pc := s.pc + 1);
    s' := StoreBase(x, a, mid, slot, s.stack, |s.locals|);
  }

  /** Storing an array base: the machine's half. */
  lemma StoreBase(x: Link, a: Act, s: M.State, slot: nat, rest: seq<int>, base: int) returns (s': M.State)
    requires InFrame(x, a, s) && s.stack == rest + [base] && slot < a.full.next
    requires a.base + a.full.next <= MAX_LOCAL_SLOTS <= |s.locals|
    requires CodeAt(x.c, s.pc, [Ins(StoreLocal, slot, 0)])
    ensures s' == Then(s, rest).(locals := s.locals[a.base + slot := base]) && Goes(x.c, s, s')
  {
    hide M.RunFrom, Runs;
    FetchStoreLocal(x.c, s, slot);
    assert s.stack[..|s.stack| - 1] == rest;
    var after := Tock(s).(stack := rest, locals := s.locals[a.base + slot := base]);
    s' := after.(pc := s.pc + 1);
    Advances(x.c, s, M.StoreLocal(x.c, Tock(s), slot), after);
  }

  lemma PrintStep(x: Link, a: Act, st: O.State, s: M.State, rest: seq<int>, v: int) returns (s': M.State)
    requires Match(x, a, st, s) && s.stack == rest + [v] && CodeAt(x.c, s.pc, [Simple(Opcode.Print)])
    ensures Reaches(x, a, st.(output := st.output + [v]), s, s') && s'.stack == rest && s'.pc == s.pc + 1
  {
    hide M.RunFrom, Runs, ScopeMatches, Match, GlobalsMatch, Spares;
    Parts(x, a, st, s);
    FetchPrint(x.c, s);
    assert s.stack[..|s.stack| - 1] == rest;
    var after := Tock(s).(stack := rest, output := s.output + [v]);
    s' := after.(pc := s.pc + 1);
    MemoryStep(x, a, st, st.(output := st.output + [v]), s, M.Advance(after), after);
  }

  lemma PopStep(x: Link, a: Act, st: O.State, s: M.State, rest: seq<int>, v: int)
    requires Match(x, a, st, s) && s.stack == rest + [v] && CodeAt(x.c, s.pc, [Simple(Pop)])
    ensures Reaches(x, a, st, s, Then(s, rest))
  {
    hide M.RunFrom, Runs, Match;
    FetchPop(x.c, s);
    assert s.stack[..|s.stack| - 1] == rest;
    StackStep(x, a, st, s, M.Advance(Tock(s).(stack := rest)), rest);
  }
}
