/** Every rewrite of the fuzzer keeps the outcome of the oracle's run. */
module RewritesCorrect {
  import opened Common
  import opened Ast
  import opened Similar
  import opened Rewrites
  import SimilarRuns
  import TypeSafety
  import opened Linking
  import O = Oracle
  import S = Sema

  // ---------------------------------------------------------------- what is similar to itself

  const NOTHING: Rewriting := Rewriting(None, None, false, false)

  lemma {:induction false} NotItself(e: Expr)
    ensures NotOf(e) != e && NotOf(NotOf(e)) != NotOf(e)
  {
    if e.Unary? {
      NotItself(e.operand);
    }
  }

  lemma {:induction false} StmtItself(x: Rewriting, s: Stmt)
    ensures StmtSimilar(x, s, s)
    decreases s, 0
  {
    match s {
      case If(condition, thenBody, elseBody) =>
        NotItself(condition);
        BlockItself(x, thenBody);
        if elseBody.Else? {
          BlockItself(x, elseBody.body);
        }
      case While(_, body) => BlockItself(x, body);
      case _ =>
    }
  }

  lemma {:induction false} BlockItself(x: Rewriting, stmts: seq<Stmt>)
    ensures BlockSimilar(x, stmts, stmts)
    decreases stmts, 0
  {
    hide StmtSimilar;
    if stmts != [] {
      StmtItself(x, stmts[0]);
      BlockItself(x, stmts[1..]);
    }
  }

  lemma {:induction false} ExprAvoidsNone(e: Expr)
    ensures Avoids(None, None, e)
    decreases e
  {
    match e {
      case Binary(_, left, right) =>
        ExprAvoidsNone(left);
        ExprAvoidsNone(right);
      case Unary(_, operand) => ExprAvoidsNone(operand);
      case Call(_, args) =>
        forall i | 0 <= i < |args| ensures Avoids(None, None, args[i]) {
          ExprAvoidsNone(args[i]);
        }
      case ArrayIndex(_, index) => ExprAvoidsNone(index);
      case _ =>
    }
  }

  lemma OptAvoidsNone(e: Option<Expr>)
    ensures OptAvoids(None, None, e)
  {
    if e.Some? {
      ExprAvoidsNone(e.value);
    }
  }

  lemma {:induction false} StmtAvoidsNone(s: Stmt)
    ensures StmtAvoids(None, None, s)
    decreases s, 0
  {
    hide Avoids;
    match s {
      case VarDecl(_, _, init, _) => OptAvoidsNone(init);
      case Assign(_, index, value) =>
        OptAvoidsNone(index);
        ExprAvoidsNone(value);
      case If(condition, thenBody, elseBody) =>
        ExprAvoidsNone(condition);
        BlockAvoidsNone(thenBody);
        if elseBody.Else? {
          BlockAvoidsNone(elseBody.body);
        }
      case While(condition, body) =>
        ExprAvoidsNone(condition);
        BlockAvoidsNone(body);
      case Return(value) => ExprAvoidsNone(value);
      case Print(value) => ExprAvoidsNone(value);
      case ExprStmt(e) => ExprAvoidsNone(e);
    }
  }

  lemma {:induction false} BlockAvoidsNone(stmts: seq<Stmt>)
    ensures BlockAvoids(None, None, stmts)
    decreases stmts, 0
  {
    hide StmtAvoids;
    if stmts != [] {
      StmtAvoidsNone(stmts[0]);
      BlockAvoidsNone(stmts[1..]);
    }
  }

  /** A program whose functions change one by one, without helper and hidden local. */
  lemma SimilarInPlace(x: Rewriting, p: Program, q: Program)
    requires x.helper.None? && x.hidden.None?
    requires |q.globals| == |p.globals| && |q.functions| == |p.functions|
    requires forall i :: 0 <= i < |p.globals| ==>
      q.globals[i] == p.globals[i].(init := q.globals[i].init) && OptSimilar(x, p.globals[i].init, q.globals[i].init)
    requires forall i :: 0 <= i < |p.functions| ==>
      q.functions[i] == p.functions[i].(body := q.functions[i].body) && BlockSimilar(x, p.functions[i].body, q.functions[i].body)
    ensures ProgramSimilar(x, p, q)
  {
    hide BlockSimilar, BlockAvoids, OptSimilar, OptAvoids;
    forall i | 0 <= i < |p.globals| ensures GlobalSimilar(x, p.globals[i], q.globals[i]) {
      OptAvoidsNone(p.globals[i].init);
    }
    forall i | 0 <= i < |p.functions| ensures FunctionSimilar(x, p.functions[i], q.functions[i]) {
      BlockAvoidsNone(p.functions[i].body);
      assert q.functions[i].body[0..] == q.functions[i].body;
      assert BodySimilar(x, Plain, p.functions[i], q.functions[i]);
    }
  }

  // ---------------------------------------------------------------- wrapped returns

  function Helper(w: Wrapper): Option<string> {
    if w.PlusZero? then None else Some(w.helper)
  }

  lemma {:induction false} WrapStmtSimilar(x: Rewriting, w: Wrapper, s: Stmt)
    requires x.helper == Helper(w)
    ensures StmtSimilar(x, s, WrapReturnsIn(w, s))
    decreases s, 0
  {
    match s {
      case If(condition, thenBody, elseBody) =>
        NotItself(condition);
        WrapBlockSimilar(x, w, thenBody);
        if elseBody.Else? {
          WrapBlockSimilar(x, w, elseBody.body);
        }
      case While(_, body) => WrapBlockSimilar(x, w, body);
      case _ =>
    }
  }

  lemma {:induction false} WrapBlockSimilar(x: Rewriting, w: Wrapper, stmts: seq<Stmt>)
    requires x.helper == Helper(w)
    ensures BlockSimilar(x, stmts, WrapReturns(w, stmts))
    decreases stmts, 0
  {
    hide StmtSimilar, WrapReturnsIn;
    if stmts != [] {
      WrapStmtSimilar(x, w, stmts[0]);
      WrapBlockSimilar(x, w, stmts[1..]);
      assert WrapReturns(w, stmts)[1..] == WrapReturns(w, stmts[1..]);
    }
  }

  lemma ReturnNeutralSimilar(p: Program)
    ensures ProgramSimilar(NOTHING, p, ReturnNeutral(p))
  {
    hide ProgramSimilar, WrapReturns, BlockSimilar;
    forall i | 0 <= i < |p.functions| ensures BlockSimilar(NOTHING, p.functions[i].body, ReturnNeutral(p).functions[i].body) {
      WrapBlockSimilar(NOTHING, PlusZero, p.functions[i].body);
    }
    SimilarInPlace(NOTHING, p, ReturnNeutral(p));
  }

  /** Adding zero to every returned value. */
  lemma ReturnNeutralKeeps(p: Program)
    ensures !Limited(ReturnNeutral(p)) ==> O.Run(ReturnNeutral(p)) == O.Run(p)
  {
    hide ProgramSimilar, ReturnNeutral;
    ReturnNeutralSimilar(p);
    SimilarRuns.RunSame(p, ReturnNeutral(p), NOTHING);
  }

  /** The oracle's run ends in a resource limit. */
  predicate Limited(p: Program) {
    O.Run(p).trap in {CycleLimit, StackOverflow}
  }

  // ---------------------------------------------------------------- neutral arithmetic

  lemma {:induction false} NeutralStmtSimilar(b: Bindings, s: Stmt)
    ensures StmtSimilar(NOTHING, s, NeutralIn(b, s))
    decreases s, 0
  {
    match s {
      case If(condition, thenBody, elseBody) =>
        NotItself(condition);
        NeutralBlockSimilar(b, thenBody);
        if elseBody.Else? {
          NeutralBlockSimilar(b, elseBody.body);
        }
      case While(_, body) => NeutralBlockSimilar(b, body);
      case _ =>
    }
  }

  lemma {:induction false} NeutralBlockSimilar(b: Bindings, stmts: seq<Stmt>)
    ensures BlockSimilar(NOTHING, stmts, NeutralBlock(b, stmts))
    decreases stmts, 0
  {
    hide StmtSimilar, NeutralIn;
    if stmts != [] {
      NeutralStmtSimilar(b, stmts[0]);
      NeutralBlockSimilar(Bound(b, stmts[0]), stmts[1..]);
      assert NeutralBlock(b, stmts)[1..] == NeutralBlock(Bound(b, stmts[0]), stmts[1..]);
    }
  }

  lemma AlgebraicNeutralSimilar(p: Program)
    ensures ProgramSimilar(NOTHING, p, AlgebraicNeutral(p))
  {
    hide ProgramSimilar, NeutralBlock, BlockSimilar;
    var q := AlgebraicNeutral(p);
    forall i | 0 <= i < |p.functions| ensures BlockSimilar(NOTHING, p.functions[i].body, q.functions[i].body) {
      NeutralBlockSimilar(ParamBindings(GlobalBindings(p.globals), p.functions[i].params), p.functions[i].body);
    }
    SimilarInPlace(NOTHING, p, q);
  }

  /** Neutral operations on initializers, indices, assigned, printed and returned values, and double negation of conditions. */
  lemma AlgebraicNeutralKeeps(p: Program)
    ensures !Limited(AlgebraicNeutral(p)) ==> O.Run(AlgebraicNeutral(p)) == O.Run(p)
  {
    hide ProgramSimilar, AlgebraicNeutral;
    AlgebraicNeutralSimilar(p);
    SimilarRuns.RunSame(p, AlgebraicNeutral(p), NOTHING);
  }

  // ---------------------------------------------------------------- one function changed

  predicate Similars(x: Rewriting, functions: seq<Function>, changed: seq<Function>) {
    && |changed| == |functions|
    && forall i :: 0 <= i < |functions| ==>
         changed[i] == functions[i].(body := changed[i].body) && BlockSimilar(x, functions[i].body, changed[i].body)
  }

  lemma {:induction false} ChangedSimilar(x: Rewriting, f: seq<Stmt> -> Option<seq<Stmt>>, functions: seq<Function>)
    requires forall body :: f(body).Some? ==> BlockSimilar(x, body, f(body).value)
    requires ChangeFirst(f, functions).Some?
    ensures Similars(x, functions, ChangeFirst(f, functions).value)
  {
    hide BlockSimilar;
    if f(functions[0].body).None? {
      ChangedSimilar(x, f, functions[1..]);
    }
    forall i | 0 <= i < |functions| ensures BlockSimilar(x, functions[i].body, functions[i].body) {
      BlockItself(x, functions[i].body);
    }
  }

  lemma {:induction false} InvertedSimilar(stmts: seq<Stmt>)
    requires InvertFirst(stmts).Some?
    ensures BlockSimilar(NOTHING, stmts, InvertFirst(stmts).value)
    decreases stmts
  {
    hide StmtSimilar;
    var changed := InvertFirst(stmts).value;
    if stmts[0].If? {
      InvertedIf(stmts[0]);
      BlockItself(NOTHING, stmts[1..]);
    } else {
      var inner := if stmts[0].While? then InvertFirst(stmts[0].body) else None;
      if inner.Some? {
        InvertedSimilar(stmts[0].body);
        InsideLoop(NOTHING, stmts[0], inner.value);
        BlockItself(NOTHING, stmts[1..]);
      } else {
        StmtItself(NOTHING, stmts[0]);
        InvertedSimilar(stmts[1..]);
        assert changed[1..] == InvertFirst(stmts[1..]).value;
      }
    }
  }

  lemma InvertedIf(s: Stmt)
    requires s.If?
    ensures StmtSimilar(NOTHING, s, Inverted(s))
  {
    BlockItself(NOTHING, s.thenBody);
    BlockItself(NOTHING, ElseStmts(s.elseBody));
  }

  lemma InsideLoop(x: Rewriting, s: Stmt, body: seq<Stmt>)
    requires s.While? && BlockSimilar(x, s.body, body)
    ensures StmtSimilar(x, s, s.(body := body))
  {
  }

  lemma BranchInversionSimilar(p: Program)
    requires BranchInversion(p).Some?
    ensures ProgramSimilar(NOTHING, p, BranchInversion(p).value)
  {
    hide ProgramSimilar, InvertFirst, BlockSimilar;
    forall body | InvertFirst(body).Some? ensures BlockSimilar(NOTHING, body, InvertFirst(body).value) {
      InvertedSimilar(body);
    }
    ChangedSimilar(NOTHING, InvertFirst, p.functions);
    SimilarInPlace(NOTHING, p, BranchInversion(p).value);
  }

  /** Negating the first conditional and exchanging its branches. */
  lemma BranchInversionKeeps(p: Program)
    requires BranchInversion(p).Some?
    ensures var q := BranchInversion(p).value; !Limited(q) ==> O.Run(q) == O.Run(p)
  {
    hide ProgramSimilar, BranchInversion;
    BranchInversionSimilar(p);
    SimilarRuns.RunSame(p, BranchInversion(p).value, NOTHING);
  }

  // ---------------------------------------------------------------- exchanged writes

  const SWAPS: Rewriting := Rewriting(None, None, true, false)

  lemma {:induction false} SwapSimilar(stmts: seq<Stmt>)
    requires SwapFirst(stmts).Some?
    ensures BlockSimilar(SWAPS, stmts, SwapFirst(stmts).value)
  {
    hide StmtSimilar, CanReorder;
    var changed := SwapFirst(stmts).value;
    if CanReorder(stmts[0], stmts[1]) {
      BlockItself(SWAPS, stmts[2..]);
      assert changed[..2] == [stmts[1], stmts[0]] && changed[2..] == stmts[2..];
    } else {
      StmtItself(SWAPS, stmts[0]);
      SwapSimilar(stmts[1..]);
      assert changed[1..] == SwapFirst(stmts[1..]).value;
    }
  }

  lemma {:induction false} ReorderSimilar(stmts: seq<Stmt>)
    requires ReorderFirst(stmts).Some?
    ensures BlockSimilar(SWAPS, stmts, ReorderFirst(stmts).value)
    decreases stmts, 1
  {
    hide BlockSimilar;
    if SwapFirst(stmts).Some? {
      SwapSimilar(stmts);
    } else {
      ReorderInsideSimilar(stmts);
    }
  }

  lemma {:induction false} ReorderInsideSimilar(stmts: seq<Stmt>)
    requires ReorderInside(stmts).Some?
    ensures BlockSimilar(SWAPS, stmts, ReorderInside(stmts).value)
    decreases stmts, 0
  {
    hide StmtSimilar, ReorderIn;
    if ReorderIn(stmts[0]).Some? {
      ReorderStmtSimilar(stmts[0]);
      BlockItself(SWAPS, stmts[1..]);
    } else {
      StmtItself(SWAPS, stmts[0]);
      ReorderInsideSimilar(stmts[1..]);
      assert ReorderInside(stmts).value[1..] == ReorderInside(stmts[1..]).value;
    }
  }

  lemma {:induction false} ReorderStmtSimilar(s: Stmt)
    requires ReorderIn(s).Some?
    ensures StmtSimilar(SWAPS, s, ReorderIn(s).value)
    decreases s, 0
  {
    hide BlockSimilar, ReorderFirst;
    if s.While? {
      ReorderSimilar(s.body);
    } else {
      NotItself(s.condition);
      BlockItself(SWAPS, s.thenBody);
      BlockItself(SWAPS, ElseStmts(s.elseBody));
      BlockItself(SWAPS, []);
      if ReorderFirst(s.thenBody).Some? {
        ReorderSimilar(s.thenBody);
      } else {
        ReorderSimilar(s.elseBody.body);
      }
    }
  }

  /**
   * Exchanging the first two neighbouring writes of constants to different scalars. Either the outcome stays, or the
   * name of a write is an array's, and the limit that stopped the original came before the trap.
   */
  lemma StatementReorderingKeeps(p: Program)
    requires StatementReordering(p).Some?
    ensures
      var q := StatementReordering(p).value;
      !Limited(q) ==> O.Run(q) == O.Run(p) || (Limited(p) && O.Run(q).trap == InvalidInstruction)
  {
    hide ProgramSimilar, StatementReordering;
    StatementReorderingSimilar(p);
    SimilarRuns.RunSame(p, StatementReordering(p).value, SWAPS);
  }

  lemma StatementReorderingSimilar(p: Program)
    requires StatementReordering(p).Some?
    ensures ProgramSimilar(SWAPS, p, StatementReordering(p).value)
  {
    hide BlockSimilar, ProgramSimilar;
    ReorderedSimilar(p);
    SimilarInPlace(SWAPS, p, StatementReordering(p).value);
  }

  lemma ReorderedSimilar(p: Program)
    requires StatementReordering(p).Some?
    ensures Similars(SWAPS, p.functions, StatementReordering(p).value.functions)
  {
    hide ReorderFirst, BlockSimilar;
    forall body | ReorderFirst(body).Some? ensures BlockSimilar(SWAPS, body, ReorderFirst(body).value) {
      ReorderSimilar(body);
    }
    ChangedSimilar(SWAPS, ReorderFirst, p.functions);
  }

  /** Exchanged writes never show when the variant is accepted and no name has two shapes. */
  lemma AcceptedReorderingKeeps(p: Program)
    requires TypeSafety.Regular(p) && StatementReordering(p).Some? && S.Accepts(StatementReordering(p).value)
    ensures var q := StatementReordering(p).value; !Limited(q) ==> O.Run(q) == O.Run(p)
  {
    hide BlockSimilar, Decls, S.Accepts, ChangeFirst;
    var q := StatementReordering(p).value;
    StatementReorderingKeeps(p);
    ReorderedSimilar(p);
    forall i | 0 <= i < |q.functions| ensures OneShape(q.functions[i]) {
      assert OneShape(p.functions[i]) && BlockSimilar(SWAPS, p.functions[i].body, q.functions[i].body);
      BlockDeclsSame(SWAPS, p.functions[i].body, q.functions[i].body);
    }
    TypeSafety.AcceptedNamesAreNeverMisused(q);
  }

  /** Similar statements declare the same names in the same shapes. */
  lemma {:induction false} StmtDeclsSame(x: Rewriting, s: Stmt, s': Stmt)
    requires StmtSimilar(x, s, s')
    ensures forall d :: d in StmtDecls(s') <==> d in StmtDecls(s)
    decreases s, 0
  {
    match s {
      case If(condition, thenBody, elseBody) =>
        var swapped := s'.condition == NotOf(condition);
        BlockDeclsSame(x, thenBody, if swapped then ElseStmts(s'.elseBody) else s'.thenBody);
        if elseBody.Else? {
          BlockDeclsSame(x, elseBody.body, if swapped then s'.thenBody else ElseStmts(s'.elseBody));
        }
      case While(_, body) => BlockDeclsSame(x, body, s'.body);
      case _ =>
    }
  }

  lemma {:induction false} BlockDeclsSame(x: Rewriting, stmts: seq<Stmt>, stmts': seq<Stmt>)
    requires BlockSimilar(x, stmts, stmts')
    ensures forall d :: d in Decls(stmts') <==> d in Decls(stmts)
    decreases stmts, 0
  {
    hide StmtSimilar, StmtDecls, CanReorder;
    if stmts == [] {
    } else if StmtSimilar(x, stmts[0], stmts'[0]) && BlockSimilar(x, stmts[1..], stmts'[1..]) {
      StmtDeclsSame(x, stmts[0], stmts'[0]);
      BlockDeclsSame(x, stmts[1..], stmts'[1..]);
    } else {
      BlockDeclsSame(x, stmts[2..], stmts'[2..]);
      DeclsOfTwo(stmts);
      DeclsOfTwo(stmts');
      assert stmts'[0] == stmts'[..2][0] && stmts'[1] == stmts'[..2][1];
    }
  }

  lemma DeclsOfTwo(stmts: seq<Stmt>)
    requires |stmts| >= 2
    ensures Decls(stmts) == StmtDecls(stmts[0]) + StmtDecls(stmts[1]) + Decls(stmts[2..])
  {
    assert stmts[1..][1..] == stmts[2..];
  }

  // ---------------------------------------------------------------- statements in front of main

  predicate FirstMain(functions: seq<Function>, i: nat) {
    i < |functions| && functions[i].name == "main" && forall j :: 0 <= j < i ==> functions[j].name != "main"
  }

  lemma {:induction false} OpenedAt(opening: seq<Stmt>, functions: seq<Function>, i: nat)
    requires i < |functions|
    ensures |OpenMain(opening, functions)| == |functions|
    ensures OpenMain(opening, functions)[i]
         == if FirstMain(functions, i) then functions[i].(body := opening + functions[i].body) else functions[i]
  {
    if functions[0].name == "main" {
      assert i != 0 ==> !FirstMain(functions, i);
    } else if i > 0 {
      OpenedAt(opening, functions[1..], i - 1);
      assert FirstMain(functions, i) <==> FirstMain(functions[1..], i - 1);
    } else {
      OpenedLength(opening, functions);
    }
  }

  lemma {:induction false} OpenedLength(opening: seq<Stmt>, functions: seq<Function>)
    ensures |OpenMain(opening, functions)| == |functions|
  {
    if functions != [] && functions[0].name != "main" {
      OpenedLength(opening, functions[1..]);
    }
  }

  lemma OpenedSimilar(x: Rewriting, entry: Entry, f: Function, f': Function)
    requires f' == f.(body := Opening(entry) + f.body) && BlockAvoids(x.helper, Hidden(entry), f.body)
    requires entry.LocalFirst? ==> x.hidden == Hidden(entry) && forall i :: 0 <= i < |f.params| ==> f.params[i].name != entry.name
    ensures FunctionSimilar(x, f, f')
  {
    hide BlockSimilar, BlockAvoids, Opening;
    BlockItself(x, f.body);
    assert f'.body[..|Opening(entry)|] == Opening(entry) && f'.body[|Opening(entry)|..] == f.body;
    assert BodySimilar(x, entry, f, f');
  }

  lemma ItselfSimilar(x: Rewriting, f: Function)
    requires BlockAvoids(x.helper, None, f.body)
    ensures FunctionSimilar(x, f, f)
  {
    hide BlockSimilar, BlockAvoids;
    assert f.body == [] + f.body;
    OpenedSimilar(x, Plain, f, f);
  }

  lemma GlobalItself(x: Rewriting, p: Program)
    requires x.helper.None? && (x.hidden.Some? ==> !TopLevelName(p, x.hidden.value))
    ensures forall i :: 0 <= i < |p.globals| ==> GlobalSimilar(x, p.globals[i], p.globals[i])
  {
    forall i | 0 <= i < |p.globals| ensures GlobalSimilar(x, p.globals[i], p.globals[i]) {
      OptAvoidsNone(p.globals[i].init);
    }
  }

  lemma DeadBranchSimilar(p: Program)
    ensures ProgramSimilar(NOTHING, p, DeadBranch(p))
  {
    hide BlockSimilar, BlockAvoids, FunctionSimilar, OpenMain, GlobalSimilar;
    var q := DeadBranch(p);
    OpenedLength([DeadPrint()], p.functions);
    forall i | 0 <= i < |p.functions| ensures FunctionSimilar(NOTHING, p.functions[i], q.functions[i]) {
      var f := p.functions[i];
      BlockAvoidsNone(f.body);
      OpenedAt([DeadPrint()], p.functions, i);
      if FirstMain(p.functions, i) {
        OpenedSimilar(NOTHING, DeadPrintFirst, f, q.functions[i]);
      } else {
        ItselfSimilar(NOTHING, f);
      }
    }
    GlobalItself(NOTHING, p);
  }

  /** A branch that is never taken, in front of `main`. */
  lemma DeadBranchKeeps(p: Program)
    ensures !Limited(DeadBranch(p)) ==> O.Run(DeadBranch(p)) == O.Run(p)
  {
    hide ProgramSimilar, DeadBranch;
    DeadBranchSimilar(p);
    SimilarRuns.RunSame(p, DeadBranch(p), NOTHING);
  }

  // ---------------------------------------------------------------- what accepted programs avoid

  lemma {:induction false} TypedAvoids(vis: S.Visible, fs: S.Signatures, helper: Option<string>, hidden: Option<string>, e: Expr)
    requires S.TypeOf(vis, fs, e).Some?
    requires (helper.Some? ==> helper.value !in fs) && (hidden.Some? ==> hidden.value !in vis)
    ensures Avoids(helper, hidden, e)
    decreases e
  {
    match e {
      case Binary(_, left, right) =>
        TypedAvoids(vis, fs, helper, hidden, left);
        TypedAvoids(vis, fs, helper, hidden, right);
      case Unary(_, operand) => TypedAvoids(vis, fs, helper, hidden, operand);
      case Call(name, args) =>
        forall i | 0 <= i < |args| ensures Avoids(helper, hidden, args[i]) {
          ArgTyped(vis, fs, args, fs[name], i);
          TypedAvoids(vis, fs, helper, hidden, args[i]);
        }
      case ArrayIndex(_, index) => TypedAvoids(vis, fs, helper, hidden, index);
      case _ =>
    }
  }

  lemma {:induction false} ArgTyped(vis: S.Visible, fs: S.Signatures, args: seq<Expr>, types: seq<Type>, i: nat)
    requires |args| == |types| && S.ArgsMatch(vis, fs, args, types) && i < |args|
    ensures S.TypeOf(vis, fs, args[i]).Some?
  {
    hide S.TypeOf;
    if i > 0 {
      ArgTyped(vis, fs, args[1..], types[1..], i - 1);
    }
  }

  lemma {:induction false} CheckedStmtAvoids(fs: S.Signatures, w: S.Walk, helper: Option<string>, hidden: Option<string>, s: Stmt)
    requires S.CheckStmt(fs, w, s).Some?
    requires helper.Some? ==> helper.value !in fs
    requires hidden.Some? ==> hidden.value !in w.vis && !DeclaresIn(hidden.value, s)
    ensures StmtAvoids(helper, hidden, s)
    ensures hidden.Some? ==> hidden.value !in S.CheckStmt(fs, w, s).value.vis
    decreases s, 0
  {
    hide S.TypeOf, Avoids;
    match s {
      case VarDecl(ty, name, init, size) =>
        if init.Some? {
          TypedAvoids(S.CheckDecl(fs, w, ty, name, init, size).value.vis, fs, helper, hidden, init.value);
        }
      case Assign(_, index, value) =>
        TypedAvoids(w.vis, fs, helper, hidden, value);
        if index.Some? {
          TypedAvoids(w.vis, fs, helper, hidden, index.value);
        }
      case If(condition, thenBody, elseBody) =>
        TypedAvoids(w.vis, fs, helper, hidden, condition);
        CheckedBlockAvoids(fs, w, helper, hidden, thenBody);
        if elseBody.Else? {
          CheckedBlockAvoids(fs, S.CheckBlock(fs, w, thenBody).value.(vis := w.vis), helper, hidden, elseBody.body);
        }
      case While(condition, body) =>
        TypedAvoids(w.vis, fs, helper, hidden, condition);
        CheckedBlockAvoids(fs, w, helper, hidden, body);
      case Return(value) => TypedAvoids(w.vis, fs, helper, hidden, value);
      case Print(value) => TypedAvoids(w.vis, fs, helper, hidden, value);
      case ExprStmt(e) => TypedAvoids(w.vis, fs, helper, hidden, e);
    }
  }

  lemma {:induction false} CheckedBlockAvoids(fs: S.Signatures, w: S.Walk, helper: Option<string>, hidden: Option<string>, stmts: seq<Stmt>)
    requires S.CheckBlock(fs, w, stmts).Some?
    requires helper.Some? ==> helper.value !in fs
    requires hidden.Some? ==> hidden.value !in w.vis && !Declares(hidden.value, stmts)
    ensures BlockAvoids(helper, hidden, stmts)
    decreases stmts, 0
  {
    hide S.CheckStmt, StmtAvoids, DeclaresIn;
    if stmts != [] {
      CheckedStmtAvoids(fs, w, helper, hidden, stmts[0]);
      CheckedBlockAvoids(fs, S.CheckStmt(fs, w, stmts[0]).value, helper, hidden, stmts[1..]);
    }
  }

  lemma {:induction false} GlobalNames(globals: seq<GlobalVar>)
    requires S.CheckGlobals(globals).Some?
    ensures forall y <- S.CheckGlobals(globals).value.0 :: exists i :: 0 <= i < |globals| && globals[i].name == y
  {
    if globals != [] {
      GlobalNames(globals[..|globals| - 1]);
    }
  }

  lemma {:induction false} FunctionNames(vis: S.Visible, functions: seq<Function>)
    requires S.CheckFunctions(vis, functions).Some?
    ensures forall y <- S.CheckFunctions(vis, functions).value.0 ::
              y in vis || exists i :: 0 <= i < |functions| && functions[i].name == y
    ensures forall y <- S.CheckFunctions(vis, functions).value.1 :: exists i :: 0 <= i < |functions| && functions[i].name == y
  {
    if functions != [] {
      FunctionNames(vis, functions[..|functions| - 1]);
    }
  }

  lemma {:induction false} ParamNames(vis: S.Visible, params: seq<Param>)
    requires S.CheckParams(vis, params).Some?
    ensures forall y <- S.CheckParams(vis, params).value :: y in vis || exists i :: 0 <= i < |params| && params[i].name == y
  {
    if params != [] {
      ParamNames(vis, params[..|params| - 1]);
    }
  }

  lemma NewAtTop(p: Program, name: string)
    requires S.TopLevel(p).Some? && !TopLevelName(p, name)
    ensures name !in S.TopLevel(p).value.0 && name !in S.TopLevel(p).value.1
  {
    GlobalNames(p.globals);
    FunctionNames(S.CheckGlobals(p.globals).value.0, p.functions);
  }

  /** The bodies of an accepted program call no function with a new name, and mention no new local name. */
  lemma AcceptedAvoids(p: Program, i: nat, helper: Option<string>, hidden: Option<string>)
    requires S.Accepts(p) && i < |p.functions|
    requires helper.Some? ==> !TopLevelName(p, helper.value)
    requires hidden.Some? ==> !LocalName(p, p.functions[i], hidden.value)
    ensures BlockAvoids(helper, hidden, p.functions[i].body)
  {
    hide S.CheckBlock, Declares, BlockAvoids, S.InitMatches;
    var f := p.functions[i];
    var (vis, fs) := S.TopLevel(p).value;
    assert S.Analyze(vis, fs, f).Some?;
    if helper.Some? {
      NewAtTop(p, helper.value);
    }
    if hidden.Some? {
      NewAtTop(p, hidden.value);
      ParamNames(vis, f.params);
    }
    CheckedBlockAvoids(fs, S.Walk(S.CheckParams(vis, f.params).value, S.ParamNames(f.params), |f.params|), helper, hidden, f.body);
  }

  // ---------------------------------------------------------------- a new local, a new function

  /** No name of the program that could be visible in its `main`. */
  predicate NewInMain(p: Program, name: string) {
    forall i: nat :: i < |p.functions| && FirstMain(p.functions, i) ==> !LocalName(p, p.functions[i], name)
  }

  lemma UnusedLocalSimilar(p: Program, name: string)
    requires S.Accepts(p) && NewInMain(p, name)
    ensures ProgramSimilar(Rewriting(None, Some(name), false, false), p, UnusedLocal(p, name))
  {
    hide BlockSimilar, BlockAvoids, FunctionSimilar, OpenMain, GlobalSimilar, Declares, S.Accepts;
    var q, x := UnusedLocal(p, name), Rewriting(None, Some(name), false, false);
    OpenedLength(NeutralLocal(name), p.functions);
    forall i | 0 <= i < |p.functions| ensures FunctionSimilar(x, p.functions[i], q.functions[i]) {
      var f := p.functions[i];
      OpenedAt(NeutralLocal(name), p.functions, i);
      if FirstMain(p.functions, i) {
        AcceptedAvoids(p, i, None, Some(name));
        OpenedSimilar(x, LocalFirst(name), f, q.functions[i]);
      } else {
        BlockAvoidsNone(f.body);
        ItselfSimilar(x, f);
      }
    }
    MainExists(p);
    var main :| FirstMain(p.functions, main);
    GlobalItself(x, p);
  }

  /** A new local in `main`, declared and written back. */
  lemma UnusedLocalKeeps(p: Program, name: string)
    requires S.Accepts(p) && NewInMain(p, name)
    ensures !Limited(UnusedLocal(p, name)) ==> O.Run(UnusedLocal(p, name)) == O.Run(p)
  {
    hide ProgramSimilar, UnusedLocal, NewInMain, S.Accepts;
    UnusedLocalSimilar(p, name);
    SimilarRuns.RunSame(p, UnusedLocal(p, name), Rewriting(None, Some(name), false, false));
  }

  lemma MainExists(p: Program)
    requires S.Accepts(p)
    ensures exists i: nat :: FirstMain(p.functions, i)
    ensures TopLevelName(p, "main")
  {
    var (vis, fs) := S.TopLevel(p).value;
    FunctionNames(S.CheckGlobals(p.globals).value.0, p.functions);
    var i :| 0 <= i < |p.functions| && p.functions[i].name == "main";
    FirstAmong(p.functions, i);
  }

  lemma {:induction false} FirstAmong(functions: seq<Function>, i: nat)
    requires i < |functions| && functions[i].name == "main"
    ensures exists k: nat :: FirstMain(functions, k)
    decreases i
  {
    if !FirstMain(functions, i) {
      var j: nat :| j < i && functions[j].name == "main";
      FirstAmong(functions, j);
    }
  }

  /** Passing every returned value through a new function that returns its argument. */
  lemma HelperWrappingKeeps(p: Program, helper: string, param: string)
    requires S.Accepts(p) && !TopLevelName(p, helper)
    ensures !Limited(HelperWrapping(p, helper, param)) ==> O.Run(HelperWrapping(p, helper, param)) == O.Run(p)
  {
    hide ProgramSimilar, TopLevelName, HelperWrapping;
    HelperSimilar(p, helper, param);
    MainExists(p);
    SimilarRuns.RunSame(p, HelperWrapping(p, helper, param), Rewriting(Some(helper), None, false, false));
  }

  lemma HelperSimilar(p: Program, helper: string, param: string)
    requires S.Accepts(p) && !TopLevelName(p, helper)
    ensures ProgramSimilar(Rewriting(Some(helper), None, false, false), p, HelperWrapping(p, helper, param))
  {
    hide FunctionSimilar, WrapReturns, GlobalSimilar, S.Accepts, TopLevelName, HelperWrapping;
    var q, x := HelperWrapping(p, helper, param), Rewriting(Some(helper), None, false, false);
    HelpedParts(p, helper, param);
    forall i | 0 <= i < |p.functions| ensures FunctionSimilar(x, p.functions[i], q.functions[i + 1]) {
      HelpedFunction(p, i, helper);
    }
    NewFunction(p, helper);
    InitializersAvoid(p, helper);
  }

  lemma HelpedParts(p: Program, helper: string, param: string)
    ensures
      var q := HelperWrapping(p, helper, param);
      && q.globals == p.globals && |q.functions| == |p.functions| + 1
      && IsHelper(q.functions[0], helper)
      && forall i :: 0 <= i < |p.functions| ==>
           q.functions[i + 1] == p.functions[i].(body := WrapReturns(InCall(helper), p.functions[i].body))
  {
    hide WrapReturns;
  }

  lemma NewFunction(p: Program, name: string)
    requires !TopLevelName(p, name)
    ensures forall i :: 0 <= i < |p.functions| ==> p.functions[i].name != name
  {
  }

  lemma HelpedFunction(p: Program, i: nat, helper: string)
    requires S.Accepts(p) && !TopLevelName(p, helper) && i < |p.functions|
    ensures
      var f := p.functions[i];
      FunctionSimilar(Rewriting(Some(helper), None, false, false), f, f.(body := WrapReturns(InCall(helper), f.body)))
  {
    hide BlockSimilar, BlockAvoids, WrapReturns, S.Accepts, TopLevelName;
    var f, x := p.functions[i], Rewriting(Some(helper), None, false, false);
    var f' := f.(body := WrapReturns(InCall(helper), f.body));
    AcceptedAvoids(p, i, Some(helper), None);
    WrapBlockSimilar(x, InCall(helper), f.body);
    assert f'.body[0..] == f'.body;
    assert BodySimilar(x, Plain, f, f');
  }

  lemma InitializersAvoid(p: Program, helper: string)
    requires S.Accepts(p) && !TopLevelName(p, helper)
    ensures forall i :: 0 <= i < |p.globals| ==> GlobalSimilar(Rewriting(Some(helper), None, false, false), p.globals[i], p.globals[i])
  {
    hide S.Analyze, Avoids, S.TypeOf;
    var (vis, fs) := S.TopLevel(p).value;
    NewAtTop(p, helper);
    forall i | 0 <= i < |p.globals| ensures GlobalSimilar(Rewriting(Some(helper), None, false, false), p.globals[i], p.globals[i]) {
      var g := p.globals[i];
      assert S.InitMatches(vis, fs, g.init, g.varType);
      if g.init.Some? {
        TypedAvoids(vis, fs, Some(helper), None, g.init.value);
      }
    }
  }
}
