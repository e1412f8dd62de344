/** Rewritten programs can be printed when the original can. */
module SimilarTrees {
  import opened Common
  import opened Ast
  import opened PrintedTokens
  import opened PrintedRuns
  import opened Similar

  /** The names a rewriting brings along are identifiers. */
  predicate LegalRewriting(x: Rewriting) {
    (x.helper.Some? ==> LegalName(x.helper.value)) && (x.hidden.Some? ==> LegalName(x.hidden.value)) && !x.rereads
  }

  lemma ValueLegal(x: Rewriting, e: Expr, e': Expr)
    requires LegalRewriting(x) && ValueSimilar(x, e, e') && LegalExpr(e)
    ensures LegalExpr(e')
  {
    hide LegalName;
    assert LegalExpr(Expr.IntLiteral(0)) && LegalExpr(Expr.IntLiteral(1));
  }

  lemma OptLegal(x: Rewriting, e: Option<Expr>, e': Option<Expr>)
    requires LegalRewriting(x) && OptSimilar(x, e, e') && LegalOpt(e)
    ensures LegalOpt(e')
  {
    hide ValueSimilar, LegalExpr, LegalRewriting;
    if e.Some? {
      ValueLegal(x, e.value, e'.value);
    }
  }

  lemma {:induction false} StmtLegalToo(x: Rewriting, s: Stmt, s': Stmt)
    requires LegalRewriting(x) && StmtSimilar(x, s, s') && LegalStmt(s)
    ensures LegalStmt(s')
    decreases s, 0
  {
    hide ValueSimilar, LegalName, OptSimilar;
    match s {
      case VarDecl(_, _, init, size) =>
        if size.None? {
          OptLegal(x, init, s'.init);
        }
      case Assign(_, index, value) =>
        OptLegal(x, index, s'.indexExpr);
        ValueLegal(x, value, s'.value);
      case If(condition, thenBody, elseBody) =>
        var swapped := s'.condition == NotOf(condition);
        assert LegalBlock([]) && LegalExpr(NotOf(condition)) && LegalExpr(NotOf(NotOf(condition)));
        BlockLegalToo(x, thenBody, if swapped then ElseStmts(s'.elseBody) else s'.thenBody);
        if elseBody.Else? {
          BlockLegalToo(x, elseBody.body, if swapped then s'.thenBody else ElseStmts(s'.elseBody));
        }
      case While(condition, body) =>
        assert LegalExpr(NotOf(condition)) && LegalExpr(NotOf(NotOf(condition)));
        BlockLegalToo(x, body, s'.body);
      case Return(value) => ValueLegal(x, value, s'.value);
      case Print(value) => ValueLegal(x, value, s'.value);
      case ExprStmt(e) => ValueLegal(x, e, s'.expr);
    }
  }

  lemma {:induction false} BlockLegalToo(x: Rewriting, stmts: seq<Stmt>, stmts': seq<Stmt>)
    requires LegalRewriting(x) && BlockSimilar(x, stmts, stmts') && LegalBlock(stmts)
    ensures LegalBlock(stmts')
    decreases stmts, 0
  {
    hide StmtSimilar, LegalStmt, CanReorder, LegalRewriting;
    if stmts == [] {
    } else if StmtSimilar(x, stmts[0], stmts'[0]) && BlockSimilar(x, stmts[1..], stmts'[1..]) {
      StmtLegalToo(x, stmts[0], stmts'[0]);
      BlockLegalToo(x, stmts[1..], stmts'[1..]);
    } else {
      assert stmts[1..][1..] == stmts[2..] && stmts'[1..][1..] == stmts'[2..];
      assert stmts'[0] == stmts'[..2][0] && stmts'[1] == stmts'[..2][1];
      BlockLegalToo(x, stmts[2..], stmts'[2..]);
    }
  }

  lemma {:induction false} LegalJoined(a: seq<Stmt>, b: seq<Stmt>)
    requires LegalBlock(a) && LegalBlock(b)
    ensures LegalBlock(a + b)
  {
    hide LegalStmt;
    if a == [] {
      assert a + b == b;
    } else {
      LegalJoined(a[1..], b);
      assert (a + b)[1..] == a[1..] + b;
    }
  }

  lemma OpeningLegal(entry: Entry)
    requires entry.LocalFirst? ==> LegalName(entry.name)
    ensures LegalBlock(Opening(entry))
  {
    hide LegalName;
    match entry {
      case Plain =>
      case DeadPrintFirst => DeadPrintLegal();
      case LocalFirst(name) =>
        var local := NeutralLocal(name);
        assert LegalExpr(IntLiteral(0)) && LegalExpr(Identifier(name)) && LegalExpr(AddZero(Identifier(name)));
        assert LegalStmt(local[0]) && LegalStmt(local[1]);
        assert local[1..] == [local[1]] && local[1..][1..] == [];
        assert LegalBlock(local[1..]) && LegalBlock(local);
    }
  }

  lemma DeadPrintLegal()
    ensures LegalBlock([DeadPrint()])
  {
    var body := DeadPrint().thenBody;
    assert LegalStmt(body[0]) && body[1..] == [];
    assert LegalBlock(body);
    assert [DeadPrint()][1..] == [];
  }

  lemma BodyLegal(x: Rewriting, entry: Entry, f: Function, f': Function)
    requires LegalRewriting(x) && BodySimilar(x, entry, f, f') && LegalFunction(f)
    ensures LegalBlock(f'.body)
  {
    hide LegalBlock, BlockSimilar, LegalName, Opening, BlockAvoids;
    var opening := Opening(entry);
    OpeningLegal(entry);
    BlockLegalToo(x, f.body, f'.body[|opening|..]);
    LegalJoined(opening, f'.body[|opening|..]);
    assert f'.body == opening + f'.body[|opening|..];
  }

  lemma FunctionLegalToo(x: Rewriting, f: Function, f': Function)
    requires LegalRewriting(x) && FunctionSimilar(x, f, f') && LegalFunction(f)
    ensures LegalFunction(f')
  {
    hide BodySimilar, LegalBlock, LegalName;
    var entry :=
      if BodySimilar(x, Plain, f, f') then Plain
      else if BodySimilar(x, DeadPrintFirst, f, f') then DeadPrintFirst
      else LocalFirst(x.hidden.value);
    BodyLegal(x, entry, f, f');
  }

  /** A program similar to one with legal names has legal names, if the helper and its parameter have. */
  lemma SimilarIsLegal(x: Rewriting, p: Program, q: Program)
    requires LegalRewriting(x) && ProgramSimilar(x, p, q) && LegalProgram(p) && InitOrSize(p.globals)
    requires x.helper.Some? ==> LegalName(q.functions[0].params[0].name)
    ensures LegalProgram(q) && InitOrSize(q.globals)
  {
    hide LegalFunction, FunctionSimilar, LegalName, OptSimilar, LegalOpt, LegalRewriting;
    forall i | 0 <= i < |q.globals| ensures LegalName(q.globals[i].name) && LegalOpt(q.globals[i].init) {
      assert GlobalSimilar(x, p.globals[i], q.globals[i]);
      OptLegal(x, p.globals[i].init, q.globals[i].init);
    }
    SameInits(x, p, q);
    var extra := if x.helper.Some? then 1 else 0;
    forall i | 0 <= i < |q.functions| ensures LegalFunction(q.functions[i]) {
      if i < extra {
        HelperLegal(x, q.functions[0]);
      } else {
        FunctionLegalToo(x, p.functions[i - extra], q.functions[i - extra + extra]);
      }
    }
  }

  lemma SameInits(x: Rewriting, p: Program, q: Program)
    requires ProgramSimilar(x, p, q) && InitOrSize(p.globals)
    ensures InitOrSize(q.globals)
  {
    hide FunctionSimilar;
    forall i | 0 <= i < |q.globals| ensures q.globals[i].init.None? || q.globals[i].size.None? {
      assert GlobalSimilar(x, p.globals[i], q.globals[i]);
    }
  }

  lemma HelperLegal(x: Rewriting, f: Function)
    requires LegalRewriting(x) && x.helper.Some? && IsHelper(f, x.helper.value) && LegalName(f.params[0].name)
    ensures LegalFunction(f)
  {
    hide LegalName;
    assert LegalExpr(f.body[0].value) && LegalStmt(f.body[0]) && f.body[1..] == [];
    assert LegalBlock(f.body);
  }
}
