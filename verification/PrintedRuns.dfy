/** A program printed and read back has the outcome of the program itself. */
module PrintedRuns {
  import opened Common
  import opened Ast
  import opened Similar
  import opened Rereading
  import opened RewritesCorrect
  import Lexing
  import Parsing
  import Printing
  import PrintedTokens
  import RoundTrip
  import SimilarRuns
  import O = Oracle

  const READ: Rewriting := Rewriting(None, None, false, true)

  lemma {:induction false} NoNegation(e: Expr)
    ensures RereadExpr(e) != NotOf(e)
    decreases e
  {
    if e.Unary? {
      NoNegation(e.operand);
    }
  }

  lemma {:induction false} StmtReread(s: Stmt)
    ensures StmtSimilar(READ, s, RereadStmt(s))
    decreases s, 0
  {
    hide RereadExpr;
    match s {
      case If(condition, thenBody, elseBody) =>
        NoNegation(condition);
        BlockReread(thenBody);
        if elseBody.Else? {
          BlockReread(elseBody.body);
        }
      case While(_, body) => BlockReread(body);
      case _ =>
    }
  }

  lemma {:induction false} BlockReread(stmts: seq<Stmt>)
    ensures BlockSimilar(READ, stmts, RereadBlock(stmts))
    decreases stmts, 0
  {
    hide StmtSimilar, RereadStmt;
    if stmts != [] {
      StmtReread(stmts[0]);
      BlockReread(stmts[1..]);
      assert RereadBlock(stmts)[1..] == RereadBlock(stmts[1..]);
    }
  }

  lemma {:induction false} GlobalReread(globals: seq<GlobalVar>, i: nat)
    requires i < |globals|
    ensures |RereadGlobals(globals)| == |globals|
    ensures RereadGlobals(globals)[i] == globals[i].(init := RereadInit(globals[i].init, globals[i].size))
  {
    GlobalsLength(globals);
    if i > 0 {
      GlobalReread(globals[1..], i - 1);
    }
  }

  lemma {:induction false} GlobalsLength(globals: seq<GlobalVar>)
    ensures |RereadGlobals(globals)| == |globals|
  {
    if globals != [] {
      GlobalsLength(globals[1..]);
    }
  }

  lemma {:induction false} FunctionReread(functions: seq<Function>, i: nat)
    requires i < |functions|
    ensures |RereadFunctions(functions)| == |functions|
    ensures RereadFunctions(functions)[i] == functions[i].(body := RereadBlock(functions[i].body))
  {
    FunctionsLength(functions);
    if i > 0 {
      FunctionReread(functions[1..], i - 1);
    }
  }

  lemma {:induction false} FunctionsLength(functions: seq<Function>)
    ensures |RereadFunctions(functions)| == |functions|
  {
    if functions != [] {
      FunctionsLength(functions[1..]);
    }
  }

  /** No global has both a size and an initializer; the grammar has none. */
  predicate InitOrSize(globals: seq<GlobalVar>) {
    forall i :: 0 <= i < |globals| ==> globals[i].init.None? || globals[i].size.None?
  }

  lemma RereadKeeps(p: Program)
    requires InitOrSize(p.globals)
    ensures !Limited(Reread(p)) ==> O.Run(Reread(p)) == O.Run(p)
  {
    hide BlockSimilar, RereadBlock, RereadExpr, RereadGlobals, RereadFunctions, ProgramSimilar;
    var q := Reread(p);
    GlobalsLength(p.globals);
    FunctionsLength(p.functions);
    forall i | 0 <= i < |p.globals|
      ensures q.globals[i] == p.globals[i].(init := q.globals[i].init) && OptSimilar(READ, p.globals[i].init, q.globals[i].init)
    {
      GlobalReread(p.globals, i);
    }
    forall i | 0 <= i < |p.functions|
      ensures q.functions[i] == p.functions[i].(body := q.functions[i].body)
      ensures BlockSimilar(READ, p.functions[i].body, q.functions[i].body)
    {
      FunctionReread(p.functions, i);
      BlockReread(p.functions[i].body);
    }
    SimilarInPlace(READ, p, q);
    SimilarRuns.RunSame(p, q, READ);
  }

  /** Printing and parsing keeps the outcome, of whatever the printer can write and the grammar can read. */
  lemma PrintedRunsAgree(p: Program)
    requires PrintedTokens.LegalProgram(p) && RoundTrip.Sized(p) && InitOrSize(p.globals)
    ensures
      var q := Parsing.ParseProgram(Lexing.Lex(Printing.ProgramText(p)));
      q.Some? && (!Limited(q.value) ==> O.Run(q.value) == O.Run(p))
  {
    hide PrintedTokens.LegalProgram, RoundTrip.Sized, Parsing.ParseProgram, Lexing.Lex, Printing.ProgramText, Reread;
    RoundTrip.PrintedIsParsed(p);
    RereadKeeps(p);
  }
}
