/** The fuzzer's rewriting loops, and how it collects the variants of a source text. */
module Fuzzer {
  import opened Common
  import opened Int32
  import opened Ast
  import opened Similar
  import opened Metamorphic
  import opened PrintedTokens
  import opened Linking
  import RewritesCorrect
  import R = Rewrites
  import Printing
  import Lexing
  import Parser
  import Analyzer
  import Printer
  import P = Parsing
  import S = Sema
  import T = Tokens

  // ---------------------------------------------------------------- rewriting statements

  /** Every returned value wrapped; `changed` if there was one. */
  method WrapReturns(w: R.Wrapper, stmts: seq<Stmt>) returns (r: seq<Stmt>, changed: bool)
    ensures r == R.WrapReturns(w, stmts) && (changed <==> R.Returns(stmts))
    decreases stmts
  {
    hide R.WrapReturnsIn, R.ReturnsIn;
    r, changed := [], false;
    for i := 0 to |stmts|
      invariant r + R.WrapReturns(w, stmts[i..]) == R.WrapReturns(w, stmts)
      invariant changed || R.Returns(stmts[i..]) <==> R.Returns(stmts)
    {
      assert stmts[i..][1..] == stmts[i + 1..];
      var s, c := WrapReturnsIn(w, stmts[i]);
      Lexing.Assoc(r, [s], R.WrapReturns(w, stmts[i + 1..]));
      r, changed := r + [s], changed || c;
    }
    assert r + [] == r;
  }

  method WrapReturnsIn(w: R.Wrapper, s: Stmt) returns (r: Stmt, changed: bool)
    ensures r == R.WrapReturnsIn(w, s) && (changed <==> R.ReturnsIn(s))
    decreases s
  {
    match s {
      case Return(value) => r, changed := Return(R.Wrap(w, value)), true;
      case If(condition, thenBody, elseBody) =>
        var t, c := WrapReturns(w, thenBody);
        if elseBody.Else? {
          var e, d := WrapReturns(w, elseBody.body);
          r, changed := If(condition, t, Else(e)), c || d;
        } else {
          r, changed := If(condition, t, NoElse), c;
        }
      case While(condition, body) =>
        var b, c := WrapReturns(w, body);
        r, changed := While(condition, b), c;
      case _ => r, changed := s, false;
    }
  }

  /** Neutral operations in a body; names are bound as they are declared. */
  method ApplyAlgebraicNeutral(bindings: R.Bindings, stmts: seq<Stmt>) returns (r: seq<Stmt>, changed: bool)
    ensures r == R.NeutralBlock(bindings, stmts) && (changed <==> R.NeutralChangesAny(bindings, stmts))
    decreases stmts
  {
    hide R.NeutralIn, R.NeutralChanges, R.Bound;
    r, changed := [], false;
    var b := bindings;
    for i := 0 to |stmts|
      invariant r + R.NeutralBlock(b, stmts[i..]) == R.NeutralBlock(bindings, stmts)
      invariant changed || R.NeutralChangesAny(b, stmts[i..]) <==> R.NeutralChangesAny(bindings, stmts)
    {
      assert stmts[i..][1..] == stmts[i + 1..];
      var s := NeutralStmt(b, stmts[i]);
      Lexing.Assoc(r, [s], R.NeutralBlock(R.Bound(b, stmts[i]), stmts[i + 1..]));
      r, changed := r + [s], changed || R.NeutralChanges(b, stmts[i]);
      b := R.Bound(b, stmts[i]);
    }
    assert r + [] == r;
  }

  method NeutralStmt(b: R.Bindings, s: Stmt) returns (r: Stmt)
    ensures r == R.NeutralIn(b, s)
    decreases s
  {
    match s {
      case If(condition, thenBody, elseBody) =>
        var t, _ := ApplyAlgebraicNeutral(b, thenBody);
        if elseBody.Else? {
          var e, _ := ApplyAlgebraicNeutral(b, elseBody.body);
          r := If(NotOf(NotOf(condition)), t, Else(e));
        } else {
          r := If(NotOf(NotOf(condition)), t, NoElse);
        }
      case While(condition, body) =>
        var t, _ := ApplyAlgebraicNeutral(b, body);
        r := While(NotOf(NotOf(condition)), t);
      case _ => r := R.NeutralIn(b, s);
    }
  }

  // What the search for the first place gives on the whole, from what it gives behind some statements.
  ghost function Behind(front: seq<Stmt>, r: Option<seq<Stmt>>): Option<seq<Stmt>> {
    if r.Some? then Some(front + r.value) else None
  }

  lemma BehindNothing(stmts: seq<Stmt>, r: Option<seq<Stmt>>)
    ensures Behind(stmts[..0], r) == r && stmts[0..] == stmts
  {
    if r.Some? {
      assert stmts[..0] + r.value == r.value;
    }
  }

  lemma BehindNext(stmts: seq<Stmt>, i: nat, rest: Option<seq<Stmt>>)
    requires i < |stmts|
    ensures Behind(stmts[..i], if rest.Some? then Some([stmts[i]] + rest.value) else None) == Behind(stmts[..i + 1], rest)
  {
    assert stmts[..i + 1] == stmts[..i] + [stmts[i]];
    if rest.Some? {
      Lexing.Assoc(stmts[..i], [stmts[i]], rest.value);
    }
  }

  lemma BehindHere(stmts: seq<Stmt>, i: nat, s: Stmt)
    requires i < |stmts|
    ensures Behind(stmts[..i], Some([s] + stmts[i + 1..])) == Some(stmts[i := s])
  {
    assert stmts[..i] + ([s] + stmts[i + 1..]) == stmts[i := s];
  }

  lemma Suffix(stmts: seq<Stmt>, i: nat)
    requires i < |stmts|
    ensures stmts[i..] != [] && stmts[i..][0] == stmts[i] && stmts[i..][1..] == stmts[i + 1..]
    ensures i + 1 < |stmts| ==> stmts[i..][1] == stmts[i + 1] && stmts[i..][2..] == stmts[i + 2..]
  {
  }

  /** The first conditional inverted, if there is one outside of branches. */
  method InvertFirstBranch(stmts: seq<Stmt>) returns (r: Option<seq<Stmt>>)
    ensures r == R.InvertFirst(stmts)
    decreases stmts
  {
    hide Behind;
    BehindNothing(stmts, R.InvertFirst(stmts));
    for i := 0 to |stmts|
      invariant R.InvertFirst(stmts) == Behind(stmts[..i], R.InvertFirst(stmts[i..]))
    {
      Suffix(stmts, i);
      BehindNext(stmts, i, R.InvertFirst(stmts[i + 1..]));
      if stmts[i].If? {
        BehindHere(stmts, i, R.Inverted(stmts[i]));
        return Some(stmts[i := R.Inverted(stmts[i])]);
      }
      if stmts[i].While? {
        var inner := InvertFirstBranch(stmts[i].body);
        if inner.Some? {
          BehindHere(stmts, i, stmts[i].(body := inner.value));
          return Some(stmts[i := stmts[i].(body := inner.value)]);
        }
      }
    }
    BehindNone(stmts);
    return None;
  }

  lemma BehindNone(stmts: seq<Stmt>)
    ensures Behind(stmts[..|stmts|], R.InvertFirst(stmts[|stmts|..])).None?
    ensures Behind(stmts[..|stmts|], R.ReorderInside(stmts[|stmts|..])).None?
    ensures forall i: nat :: i <= |stmts| <= i + 1 ==> Behind(stmts[..i], R.SwapFirst(stmts[i..])).None?
  {
  }

  /** The first neighbours that may change places, here or in an inner block. */
  method ReorderFirst(stmts: seq<Stmt>) returns (r: Option<seq<Stmt>>)
    ensures r == R.ReorderFirst(stmts)
    decreases stmts, 1
  {
    hide R.ReorderIn, R.ReorderInside;
    r := SwapFirst(stmts);
    if r.Some? {
      return;
    }
    r := ReorderInside(stmts);
  }

  method SwapFirst(stmts: seq<Stmt>) returns (r: Option<seq<Stmt>>)
    ensures r == R.SwapFirst(stmts)
  {
    hide CanReorder, Behind;
    BehindNothing(stmts, R.SwapFirst(stmts));
    var i := 0;
    while i + 1 < |stmts|
      invariant 0 <= i <= |stmts|
      invariant R.SwapFirst(stmts) == Behind(stmts[..i], R.SwapFirst(stmts[i..]))
    {
      Suffix(stmts, i);
      BehindNext(stmts, i, R.SwapFirst(stmts[i + 1..]));
      if CanReorder(stmts[i], stmts[i + 1]) {
        SwapHere(stmts, i);
        return Some(stmts[i := stmts[i + 1]][i + 1 := stmts[i]]);
      }
      i := i + 1;
    }
    BehindNone(stmts);
    return None;
  }

  lemma SwapHere(stmts: seq<Stmt>, i: nat)
    requires i + 1 < |stmts|
    ensures Behind(stmts[..i], Some([stmts[i + 1], stmts[i]] + stmts[i + 2..])) == Some(stmts[i := stmts[i + 1]][i + 1 := stmts[i]])
  {
    assert stmts[..i] + ([stmts[i + 1], stmts[i]] + stmts[i + 2..]) == stmts[i := stmts[i + 1]][i + 1 := stmts[i]];
  }

  method ReorderInside(stmts: seq<Stmt>) returns (r: Option<seq<Stmt>>)
    ensures r == R.ReorderInside(stmts)
    decreases stmts, 0
  {
    hide R.ReorderIn, Behind;
    BehindNothing(stmts, R.ReorderInside(stmts));
    for i := 0 to |stmts|
      invariant R.ReorderInside(stmts) == Behind(stmts[..i], R.ReorderInside(stmts[i..]))
    {
      Suffix(stmts, i);
      BehindNext(stmts, i, R.ReorderInside(stmts[i + 1..]));
      var s := ReorderIn(stmts[i]);
      if s.Some? {
        BehindHere(stmts, i, s.value);
        return Some(stmts[i := s.value]);
      }
    }
    BehindNone(stmts);
    return None;
  }

  method ReorderIn(s: Stmt) returns (r: Option<Stmt>)
    ensures r == R.ReorderIn(s)
    decreases s, 0
  {
    hide R.ReorderFirst;
    match s {
      case If(condition, thenBody, elseBody) =>
        var t := ReorderFirst(thenBody);
        if t.Some? {
          return Some(If(condition, t.value, elseBody));
        }
        if elseBody.NoElse? {
          return None;
        }
        var e := ReorderFirst(elseBody.body);
        return if e.Some? then Some(If(condition, thenBody, Else(e.value))) else None;
      case While(condition, body) =>
        var b := ReorderFirst(body);
        return if b.Some? then Some(While(condition, b.value)) else None;
      case _ => return None;
    }
  }

  // ---------------------------------------------------------------- new names

  /** Different numbers are written differently. */
  lemma {:induction false} DecimalInjective(m: nat, n: nat)
    requires Printing.Decimal(m) == Printing.Decimal(n)
    ensures m == n
  {
    var a, b := Printing.Decimal(m), Printing.Decimal(n);
    assert a[|a| - 1] == b[|b| - 1];
    if m >= 10 && n >= 10 {
      assert a[..|a| - 1] == Printing.Decimal(m / 10) && b[..|b| - 1] == Printing.Decimal(n / 10);
      DecimalInjective(m / 10, n / 10);
    }
  }

  function Numbered(prefix: string, index: nat): string {
    prefix + Printing.Decimal(index)
  }

  /** More numbered names than taken ones cannot all be taken. */
  lemma {:induction false} NamesRunOut(names: set<string>, prefix: string, count: nat)
    requires forall k: nat :: k < count ==> Numbered(prefix, k) in names
    ensures count <= |names|
  {
    if count > 0 {
      var last := Numbered(prefix, count - 1);
      forall k: nat | k < count - 1 ensures Numbered(prefix, k) in names - {last} {
        if Numbered(prefix, k) == last {
          assert Numbered(prefix, k)[|prefix|..] == Printing.Decimal(k) && last[|prefix|..] == Printing.Decimal(count - 1);
          DecimalInjective(k, count - 1);
        }
      }
      NamesRunOut(names - {last}, prefix, count - 1);
    }
  }

  /** The first of the numbered names that is not taken. */
  ghost predicate FirstFree(prefix: string, names: set<string>, name: string) {
    name !in names && exists index: nat :: name == Numbered(prefix, index) && forall k: nat :: k < index ==> Numbered(prefix, k) in names
  }

  lemma OneFirstFree(prefix: string, names: set<string>, a: string, b: string)
    requires FirstFree(prefix, names, a) && FirstFree(prefix, names, b)
    ensures a == b
  {
    hide Numbered;
    var i: nat :| a == Numbered(prefix, i) && forall k: nat :: k < i ==> Numbered(prefix, k) in names;
    var j: nat :| b == Numbered(prefix, j) && forall k: nat :: k < j ==> Numbered(prefix, k) in names;
    assert i == j;
  }

  method UniqueName(prefix: string, names: set<string>) returns (name: string)
    ensures FirstFree(prefix, names, name)
  {
    var index: nat := 0;
    NamesRunOut(names, prefix, 0);
    while Numbered(prefix, index) in names
      invariant index <= |names| && forall k: nat :: k < index ==> Numbered(prefix, k) in names
      decreases |names| - index
    {
      NamesRunOut(names, prefix, index + 1);
      index := index + 1;
    }
    return Numbered(prefix, index);
  }

  lemma NumberedLegal(prefix: string, index: nat)
    requires prefix == "__qydrel_mm" || prefix == "__qydrel_wrap" || prefix == "__qydrel_arg"
    ensures LegalName(Numbered(prefix, index))
  {
    var name := Numbered(prefix, index);
    forall i | 0 <= i < |name| ensures Lexing.IsWordChar(name[i]) {
      if i >= |prefix| {
        assert name[i] == Printing.Decimal(index)[i - |prefix|];
      }
    }
    assert name[0] == '_';
  }

  function TopLevelNames(p: Program): set<string> {
    (set i | 0 <= i < |p.globals| :: p.globals[i].name) + (set i | 0 <= i < |p.functions| :: p.functions[i].name)
  }

  function LocalNames(p: Program, f: Function): set<string> {
    TopLevelNames(p) + (set i | 0 <= i < |f.params| :: f.params[i].name) + (set i | 0 <= i < |Decls(f.body)| :: Decls(f.body)[i].0)
  }

  lemma {:induction false} DeclaredInStmt(name: string, s: Stmt)
    ensures R.DeclaresIn(name, s) <==> Among(name, StmtDecls(s))
    decreases s, 0
  {
    match s {
      case If(_, thenBody, elseBody) =>
        DeclaredInBlock(name, thenBody);
        if elseBody.Else? {
          DeclaredInBlock(name, elseBody.body);
        }
        InEither(name, Decls(thenBody), if elseBody.Else? then Decls(elseBody.body) else []);
      case While(_, body) => DeclaredInBlock(name, body);
      case VarDecl(_, _, _, _) => assert StmtDecls(s)[0].0 == s.name;
      case _ =>
    }
  }

  lemma {:induction false} DeclaredInBlock(name: string, stmts: seq<Stmt>)
    ensures R.Declares(name, stmts) <==> Among(name, Decls(stmts))
    decreases stmts, 0
  {
    hide R.DeclaresIn, StmtDecls;
    if stmts != [] {
      DeclaredInStmt(name, stmts[0]);
      DeclaredInBlock(name, stmts[1..]);
      InEither(name, StmtDecls(stmts[0]), Decls(stmts[1..]));
    }
  }

  predicate Among(name: string, decls: seq<(string, Option<I32>)>) {
    exists i :: 0 <= i < |decls| && decls[i].0 == name
  }

  lemma InEither(name: string, a: seq<(string, Option<I32>)>, b: seq<(string, Option<I32>)>)
    ensures Among(name, a + b) <==> Among(name, a) || Among(name, b)
  {
    if Among(name, a) {
      var i :| 0 <= i < |a| && a[i].0 == name;
      assert (a + b)[i].0 == name;
    }
    if Among(name, b) {
      var i :| 0 <= i < |b| && b[i].0 == name;
      assert (a + b)[|a| + i].0 == name;
    }
  }

  lemma NewLocal(p: Program, f: Function, name: string)
    ensures name !in LocalNames(p, f) ==> !R.LocalName(p, f, name)
  {
    hide Decls, R.Declares;
    DeclaredInBlock(name, f.body);
  }

  lemma NewTopLevel(p: Program, name: string)
    ensures name !in TopLevelNames(p) ==> !R.TopLevelName(p, name)
  {
  }

  // ---------------------------------------------------------------- texts

  method ParseText(source: string) returns (p: Option<Program>)
    ensures p == ParseSource(source)
  {
    var lexer := new Lexing.Lexer(source);
    var tokens := lexer.Tokenize();
    var parser := new Parser.Parser(tokens);
    p := parser.Parse();
  }

  method ParseAccepted(source: string) returns (p: Option<Program>)
    ensures p == ParseChecked(source)
  {
    p := ParseText(source);
    if p.Some? {
      var analyzer := new Analyzer.SemanticAnalyzer();
      var ok := analyzer.Analyze(p.value);
      if !ok {
        return None;
      }
    }
  }

  method TextOf(p: Program) returns (text: string)
    ensures text == Printing.ProgramText(p)
  {
    var printer := new Printer.Printer();
    printer.EmitProgram(p);
    assert "" + Printing.ProgramText(p) == Printing.ProgramText(p);
    return printer.out;
  }

  // ---------------------------------------------------------------- programs

  /** A list of variants with one more, if the candidate's text is parsed and accepted. */
  function Pushed(variants: seq<Variant>, family: Family, candidate: Program): seq<Variant> {
    var text := Printing.ProgramText(candidate);
    if ParseChecked(text).Some? then variants + [Variant(family, text)] else variants
  }

  method PushVariant(variants: seq<Variant>, family: Family, candidate: Program) returns (r: seq<Variant>)
    ensures r == Pushed(variants, family, candidate)
  {
    var text := TextOf(candidate);
    var checked := ParseAccepted(text);
    return if checked.Some? then variants + [Variant(family, text)] else variants;
  }

  /** The bodies of all functions wrapped. */
  method WrapAll(w: R.Wrapper, functions: seq<Function>) returns (r: seq<Function>, changed: bool)
    ensures |r| == |functions| && forall i :: 0 <= i < |r| ==> r[i] == functions[i].(body := R.WrapReturns(w, functions[i].body))
    ensures changed <==> exists i :: 0 <= i < |functions| && R.Returns(functions[i].body)
  {
    hide R.WrapReturns, R.Returns;
    r, changed := [], false;
    for i := 0 to |functions|
      invariant |r| == i && forall k :: 0 <= k < i ==> r[k] == functions[k].(body := R.WrapReturns(w, functions[k].body))
      invariant changed <==> exists k :: 0 <= k < i && R.Returns(functions[k].body)
    {
      var body, c := WrapReturns(w, functions[i].body);
      r, changed := r + [functions[i].(body := body)], changed || c;
    }
  }

  /** One of the first functions is changed by the neutral operations. */
  ghost predicate NeutralBefore(p: Program, bindings: R.Bindings, i: nat)
    requires i <= |p.functions|
  {
    exists k :: 0 <= k < i && R.NeutralChangesAny(R.ParamBindings(bindings, p.functions[k].params), p.functions[k].body)
  }

  method NeutralAll(p: Program) returns (q: Program, changed: bool)
    ensures q == R.AlgebraicNeutral(p) && (changed <==> R.NeutralChangesProgram(p))
  {
    hide R.NeutralBlock, R.NeutralChangesAny, R.ParamBindings, R.GlobalBindings, R.NeutralGlobal;
    var globals: seq<GlobalVar> := [];
    changed := false;
    for i := 0 to |p.globals|
      invariant |globals| == i && forall k :: 0 <= k < i ==> globals[k] == R.NeutralGlobal(p.globals[k])
      invariant changed <==> exists k :: 0 <= k < i && R.NeutralGlobal(p.globals[k]) != p.globals[k]
    {
      var g := R.NeutralGlobal(p.globals[i]);
      globals, changed := globals + [g], changed || g != p.globals[i];
    }
    var bindings := R.GlobalBindings(p.globals);
    var functions: seq<Function> := [];
    ghost var globalsChanged := changed;
    for i := 0 to |p.functions|
      invariant |functions| == i
      invariant forall k :: 0 <= k < i ==>
        functions[k] == p.functions[k].(body := R.NeutralBlock(R.ParamBindings(bindings, p.functions[k].params), p.functions[k].body))
      invariant changed <==> globalsChanged || NeutralBefore(p, bindings, i)
    {
      var f := p.functions[i];
      var body, c := ApplyAlgebraicNeutral(R.ParamBindings(bindings, f.params), f.body);
      functions, changed := functions + [f.(body := body)], changed || c;
    }
    q := Program(globals, functions);
    assert q.globals == R.AlgebraicNeutral(p).globals && q.functions == R.AlgebraicNeutral(p).functions;
  }

  /** Statements in front of the first `main`. */
  method OpenMain(opening: seq<Stmt>, functions: seq<Function>) returns (r: seq<Function>, at: Option<nat>)
    ensures r == R.OpenMain(opening, functions)
    ensures at.Some? <==> exists i :: 0 <= i < |functions| && functions[i].name == "main"
    ensures at.Some? ==> RewritesCorrect.FirstMain(functions, at.value)
  {
    for i := 0 to |functions|
      invariant forall k :: 0 <= k < i ==> functions[k].name != "main"
    {
      if functions[i].name == "main" {
        OpenedHere(opening, functions, i);
        return functions[i := functions[i].(body := opening + functions[i].body)], Some(i);
      }
    }
    NothingOpened(opening, functions);
    return functions, None;
  }

  lemma OpenedHere(opening: seq<Stmt>, functions: seq<Function>, i: nat)
    requires RewritesCorrect.FirstMain(functions, i)
    ensures R.OpenMain(opening, functions) == functions[i := functions[i].(body := opening + functions[i].body)]
  {
    RewritesCorrect.OpenedLength(opening, functions);
    forall k | 0 <= k < |functions|
      ensures R.OpenMain(opening, functions)[k] == functions[i := functions[i].(body := opening + functions[i].body)][k]
    {
      RewritesCorrect.OpenedAt(opening, functions, k);
    }
  }

  lemma {:induction false} NothingOpened(opening: seq<Stmt>, functions: seq<Function>)
    requires forall k :: 0 <= k < |functions| ==> functions[k].name != "main"
    ensures R.OpenMain(opening, functions) == functions
  {
    if functions != [] {
      NothingOpened(opening, functions[1..]);
    }
  }

  lemma {:induction false} ChangedHere(f: seq<Stmt> -> Option<seq<Stmt>>, functions: seq<Function>, i: nat)
    requires i < |functions| && f(functions[i].body).Some? && forall k :: 0 <= k < i ==> f(functions[k].body).None?
    ensures R.ChangeFirst(f, functions) == Some(functions[i := functions[i].(body := f(functions[i].body).value)])
  {
    var changed := functions[i].(body := f(functions[i].body).value);
    if i == 0 {
      assert [changed] + functions[1..] == functions[0 := changed];
    } else {
      ChangedHere(f, functions[1..], i - 1);
      assert [functions[0]] + functions[1..][i - 1 := changed] == functions[i := changed];
    }
  }

  lemma {:induction false} NothingChanged(f: seq<Stmt> -> Option<seq<Stmt>>, functions: seq<Function>)
    requires forall k :: 0 <= k < |functions| ==> f(functions[k].body).None?
    ensures R.ChangeFirst(f, functions).None?
  {
    if functions != [] {
      NothingChanged(f, functions[1..]);
    }
  }

  method InvertInFirst(functions: seq<Function>) returns (r: Option<seq<Function>>)
    ensures r == R.ChangeFirst(R.InvertFirst, functions)
  {
    hide R.InvertFirst, R.ChangeFirst;
    for i := 0 to |functions|
      invariant forall k :: 0 <= k < i ==> R.InvertFirst(functions[k].body).None?
    {
      var body := InvertFirstBranch(functions[i].body);
      if body.Some? {
        ChangedHere(R.InvertFirst, functions, i);
        return Some(functions[i := functions[i].(body := body.value)]);
      }
    }
    NothingChanged(R.InvertFirst, functions);
    return None;
  }

  method ReorderInFirst(functions: seq<Function>) returns (r: Option<seq<Function>>)
    ensures r == R.ChangeFirst(R.ReorderFirst, functions)
  {
    hide R.ReorderFirst, R.ChangeFirst;
    for i := 0 to |functions|
      invariant forall k :: 0 <= k < i ==> R.ReorderFirst(functions[k].body).None?
    {
      var body := ReorderFirst(functions[i].body);
      if body.Some? {
        ChangedHere(R.ReorderFirst, functions, i);
        return Some(functions[i := functions[i].(body := body.value)]);
      }
    }
    NothingChanged(R.ReorderFirst, functions);
    return None;
  }

  // ---------------------------------------------------------------- the variants of a text

  /** The candidate of a family, with the first free names where it needs new ones. */
  ghost predicate Chosen(p: Program, family: Family, q: Program) {
    match family
    case UnusedLocal =>
      exists m: nat, name ::
        && RewritesCorrect.FirstMain(p.functions, m) && FirstFree("__qydrel_mm", LocalNames(p, p.functions[m]), name)
        && q == R.UnusedLocal(p, name)
    case HelperWrapping =>
      && R.AnyReturn(p)
      && exists helper, param ::
           && FirstFree("__qydrel_wrap", TopLevelNames(p), helper) && FirstFree("__qydrel_arg", TopLevelNames(p), param)
           && q == R.HelperWrapping(p, helper, param)
    case _ => IsCandidate(p, family, q)
  }

  /** No family has two candidates. */
  lemma ChosenOnce(p: Program, family: Family, q: Program, q': Program)
    requires Chosen(p, family, q) && Chosen(p, family, q')
    ensures q == q'
  {
    hide FirstFree, LocalNames, TopLevelNames;
    if family == UnusedLocal {
      var m: nat, name :|
        && RewritesCorrect.FirstMain(p.functions, m) && FirstFree("__qydrel_mm", LocalNames(p, p.functions[m]), name)
        && q == R.UnusedLocal(p, name);
      var m': nat, name' :|
        && RewritesCorrect.FirstMain(p.functions, m') && FirstFree("__qydrel_mm", LocalNames(p, p.functions[m']), name')
        && q' == R.UnusedLocal(p, name');
      assert m == m';
      OneFirstFree("__qydrel_mm", LocalNames(p, p.functions[m]), name, name');
    } else if family == HelperWrapping {
      var helper, param :|
        && FirstFree("__qydrel_wrap", TopLevelNames(p), helper) && FirstFree("__qydrel_arg", TopLevelNames(p), param)
        && q == R.HelperWrapping(p, helper, param);
      var helper', param' :|
        && FirstFree("__qydrel_wrap", TopLevelNames(p), helper') && FirstFree("__qydrel_arg", TopLevelNames(p), param')
        && q' == R.HelperWrapping(p, helper', param');
      OneFirstFree("__qydrel_wrap", TopLevelNames(p), helper, helper');
      OneFirstFree("__qydrel_arg", TopLevelNames(p), param, param');
    }
  }

  /** What is chosen is a candidate: the chosen names are legal and new. */
  lemma ChosenIsCandidate(p: Program, family: Family, q: Program)
    requires Chosen(p, family, q)
    ensures IsCandidate(p, family, q)
  {
    hide LegalName, R.LocalName, R.TopLevelName, LocalNames, TopLevelNames, Numbered;
    if family == UnusedLocal {
      var m: nat, name :|
        && RewritesCorrect.FirstMain(p.functions, m) && FirstFree("__qydrel_mm", LocalNames(p, p.functions[m]), name)
        && q == R.UnusedLocal(p, name);
      NewLocal(p, p.functions[m], name);
      var index: nat :| name == Numbered("__qydrel_mm", index);
      NumberedLegal("__qydrel_mm", index);
      assert RewritesCorrect.NewInMain(p, name);
    } else if family == HelperWrapping {
      var helper, param :|
        && FirstFree("__qydrel_wrap", TopLevelNames(p), helper) && FirstFree("__qydrel_arg", TopLevelNames(p), param)
        && q == R.HelperWrapping(p, helper, param);
      NewTopLevel(p, helper);
      var i: nat, j: nat :| helper == Numbered("__qydrel_wrap", i) && param == Numbered("__qydrel_arg", j);
      NumberedLegal("__qydrel_wrap", i);
      NumberedLegal("__qydrel_arg", j);
    }
  }

  /** The text of a family's candidate that is parsed and accepted again. */
  ghost predicate Kept(p: Program, v: Variant) {
    exists q :: Chosen(p, v.family, q) && v.source == Printing.ProgramText(q) && ParseChecked(v.source).Some?
  }

  /** What is kept is a variant in the sense of the soundness theorem. */
  lemma KeptIsVariant(p: Program, v: Variant)
    requires Kept(p, v)
    ensures IsVariant(p, v)
  {
    hide Chosen, IsCandidate, ParseChecked, Printing.ProgramText;
    var q :| Chosen(p, v.family, q) && v.source == Printing.ProgramText(q) && ParseChecked(v.source).Some?;
    ChosenIsCandidate(p, v.family, q);
  }

  ghost predicate Sound(p: Program, variants: seq<Variant>) {
    forall v <- variants :: Kept(p, v)
  }

  /** Every variant of a family is there. */
  ghost predicate Complete(p: Program, variants: seq<Variant>, family: Family) {
    forall v: Variant :: v.family == family && Kept(p, v) ==> v in variants
  }

  /** The family's candidate, if it has one. */
  ghost predicate Offered(p: Program, family: Family, candidate: Option<Program>) {
    forall q :: Chosen(p, family, q) <==> candidate == Some(q)
  }

  /** One family tried: what was there stays, and the candidate is added if its text is parsed and accepted. */
  method Keep(p: Program, variants: seq<Variant>, family: Family, candidate: Option<Program>) returns (r: seq<Variant>)
    requires Offered(p, family, candidate) && Sound(p, variants)
    ensures Sound(p, r) && variants <= r && Complete(p, r, family)
  {
    hide Chosen, ParseChecked, Printing.ProgramText;
    r := variants;
    if candidate.Some? {
      r := PushVariant(variants, family, candidate.value);
      ghost var text := Printing.ProgramText(candidate.value);
      assert ParseChecked(text).Some? ==> Kept(p, Variant(family, text)) && Variant(family, text) in r;
    }
  }

  method ReturnNeutralOf(p: Program) returns (q: Option<Program>)
    ensures Offered(p, ReturnNeutral, q)
  {
    hide R.WrapReturns, R.Returns;
    var functions, changed := WrapAll(R.PlusZero, p.functions);
    if !changed {
      return None;
    }
    assert functions == R.ReturnNeutral(p).functions;
    return Some(p.(functions := functions));
  }

  method DeadBranchOf(p: Program) returns (q: Option<Program>)
    ensures Offered(p, DeadBranch, q)
  {
    var functions, at := OpenMain([DeadPrint()], p.functions);
    return if at.Some? then Some(p.(functions := functions)) else None;
  }

  method UnusedLocalOf(p: Program) returns (q: Option<Program>)
    ensures Offered(p, UnusedLocal, q)
  {
    hide R.OpenMain, R.LocalName, LegalName, FirstFree, LocalNames;
    var _, at := OpenMain([], p.functions);
    if at.None? {
      return None;
    }
    var f := p.functions[at.value];
    var name := UniqueName("__qydrel_mm", LocalNames(p, f));
    var functions, _ := OpenMain(NeutralLocal(name), p.functions);
    q := Some(p.(functions := functions));
    assert q.value == R.UnusedLocal(p, name);
    OnlyChosen(p, UnusedLocal, q.value);
  }

  lemma OnlyChosen(p: Program, family: Family, q: Program)
    requires Chosen(p, family, q)
    ensures Offered(p, family, Some(q))
  {
    hide Chosen;
    forall other | Chosen(p, family, other) ensures other == q {
      ChosenOnce(p, family, q, other);
    }
  }

  method HelperWrappingOf(p: Program) returns (q: Option<Program>)
    ensures Offered(p, HelperWrapping, q)
  {
    hide R.WrapReturns, R.Returns, LegalName, FirstFree, TopLevelNames, R.TopLevelName;
    var helper := UniqueName("__qydrel_wrap", TopLevelNames(p));
    var param := UniqueName("__qydrel_arg", TopLevelNames(p));
    var functions, changed := WrapAll(R.InCall(helper), p.functions);
    if !changed {
      return None;
    }
    q := Some(p.(functions := [R.HelperFunction(helper, param)] + functions));
    assert q.value == R.HelperWrapping(p, helper, param);
    OnlyChosen(p, HelperWrapping, q.value);
  }

  method AlgebraicNeutralOf(p: Program) returns (q: Option<Program>)
    ensures Offered(p, AlgebraicNeutral, q)
  {
    hide R.AlgebraicNeutral, R.NeutralChangesProgram;
    var neutral, changed := NeutralAll(p);
    return if changed then Some(neutral) else None;
  }

  method BranchInversionOf(p: Program) returns (q: Option<Program>)
    ensures Offered(p, BranchInversion, q)
  {
    hide R.ChangeFirst;
    var functions := InvertInFirst(p.functions);
    return if functions.Some? then Some(p.(functions := functions.value)) else None;
  }

  method StatementReorderingOf(p: Program) returns (q: Option<Program>)
    ensures Offered(p, StatementReordering, q)
  {
    hide R.ChangeFirst;
    var functions := ReorderInFirst(p.functions);
    return if functions.Some? then Some(p.(functions := functions.value)) else None;
  }

  /**
   * The variants of a source text, in the order in which they are tried: exactly the families' candidates whose text is
   * parsed and accepted again.
   */
  method MetamorphicVariants(source: string) returns (variants: seq<Variant>)
    ensures ParseSource(source).None? ==> variants == []
    ensures ParseSource(source).Some? ==> forall v: Variant :: v in variants <==> Kept(ParseSource(source).value, v)
  {
    hide Kept, Offered, ParseSource, Complete, Sound;
    var parsed := ParseText(source);
    if parsed.None? {
      return [];
    }
    var p := parsed.value;
    NoneSound(p);
    var candidate := ReturnNeutralOf(p);
    var v1 := Keep(p, [], ReturnNeutral, candidate);
    candidate := DeadBranchOf(p);
    var v2 := Keep(p, v1, DeadBranch, candidate);
    candidate := UnusedLocalOf(p);
    var v3 := Keep(p, v2, UnusedLocal, candidate);
    candidate := AlgebraicNeutralOf(p);
    var v4 := Keep(p, v3, AlgebraicNeutral, candidate);
    candidate := BranchInversionOf(p);
    var v5 := Keep(p, v4, BranchInversion, candidate);
    candidate := HelperWrappingOf(p);
    var v6 := Keep(p, v5, HelperWrapping, candidate);
    candidate := StatementReorderingOf(p);
    variants := Keep(p, v6, StatementReordering, candidate);
    StillComplete(p, v1, variants, ReturnNeutral);
    StillComplete(p, v2, variants, DeadBranch);
    StillComplete(p, v3, variants, UnusedLocal);
    StillComplete(p, v4, variants, AlgebraicNeutral);
    StillComplete(p, v5, variants, BranchInversion);
    StillComplete(p, v6, variants, HelperWrapping);
    AllKept(p, variants);
  }

  lemma AllKept(p: Program, variants: seq<Variant>)
    requires Sound(p, variants)
    requires Complete(p, variants, ReturnNeutral) && Complete(p, variants, DeadBranch) && Complete(p, variants, UnusedLocal)
    requires Complete(p, variants, AlgebraicNeutral) && Complete(p, variants, BranchInversion)
    requires Complete(p, variants, HelperWrapping) && Complete(p, variants, StatementReordering)
    ensures forall v: Variant :: v in variants <==> Kept(p, v)
  {
    hide Kept;
    forall v: Variant | Kept(p, v) ensures v in variants {
      assert v.family in {ReturnNeutral, DeadBranch, UnusedLocal, AlgebraicNeutral, BranchInversion, HelperWrapping, StatementReordering};
    }
  }

  lemma NoneSound(p: Program)
    ensures Sound(p, [])
  {
  }

  lemma StillComplete(p: Program, a: seq<Variant>, b: seq<Variant>, family: Family)
    requires Complete(p, a, family) && a <= b
    ensures Complete(p, b, family)
  {
    hide Kept;
    assert forall v <- a :: v in b;
  }
}
