/** The fuzzer's metamorphic variants of a source text: every one that is kept runs like the original. */
module Metamorphic {
  import opened Common
  import opened Ast
  import opened Similar
  import opened RewritesCorrect
  import opened PrintedTokens
  import opened PrintedRuns
  import opened SimilarTrees
  import R = Rewrites
  import L = Lexing
  import P = Parsing
  import Printing
  import ParsedTrees
  import RoundTrip
  import Rereading
  import O = Oracle
  import S = Sema

  datatype Family =
    | ReturnNeutral
    | DeadBranch
    | UnusedLocal
    | AlgebraicNeutral
    | BranchInversion
    | HelperWrapping
    | StatementReordering

  datatype Variant = Variant(family: Family, source: string)

  function ParseSource(source: string): Option<Program> {
    P.ParseProgram(L.Lex(source))
  }

  /** Parsed and accepted by the analyzer. */
  function ParseChecked(source: string): Option<Program> {
    var p := ParseSource(source);
    if p.Some? && S.Accepts(p.value) then p else None
  }

  /** What a family makes of a program; two of the families choose new names. */
  ghost predicate IsCandidate(p: Program, family: Family, q: Program) {
    match family
    case ReturnNeutral => R.AnyReturn(p) && q == R.ReturnNeutral(p)
    case DeadBranch => R.HasMain(p) && q == R.DeadBranch(p)
    case UnusedLocal => R.HasMain(p) && exists name :: LegalName(name) && NewInMain(p, name) && q == R.UnusedLocal(p, name)
    case AlgebraicNeutral => R.NeutralChangesProgram(p) && q == R.AlgebraicNeutral(p)
    case BranchInversion => R.BranchInversion(p) == Some(q)
    case HelperWrapping =>
      && R.AnyReturn(p)
      && exists helper, param :: LegalName(helper) && LegalName(param) && !R.TopLevelName(p, helper) && q == R.HelperWrapping(p, helper, param)
    case StatementReordering => R.StatementReordering(p) == Some(q)
  }

  /** Candidates are similar to the program they are made of, and can be printed. */
  lemma CandidateIsSimilar(p: Program, family: Family, q: Program) returns (x: Rewriting)
    requires S.Accepts(p) && LegalProgram(p) && InitOrSize(p.globals) && IsCandidate(p, family, q)
    ensures ProgramSimilar(x, p, q) && LegalRewriting(x) && LegalProgram(q) && InitOrSize(q.globals)
  {
    hide ProgramSimilar, S.Accepts, LegalProgram, LegalName;
    match family {
      case ReturnNeutral =>
        x := NOTHING;
        ReturnNeutralSimilar(p);
      case DeadBranch =>
        x := NOTHING;
        DeadBranchSimilar(p);
      case UnusedLocal =>
        var name :| LegalName(name) && NewInMain(p, name) && q == R.UnusedLocal(p, name);
        x := Rewriting(None, Some(name), false, false);
        UnusedLocalSimilar(p, name);
      case AlgebraicNeutral =>
        x := NOTHING;
        AlgebraicNeutralSimilar(p);
      case BranchInversion =>
        x := NOTHING;
        BranchInversionSimilar(p);
      case HelperWrapping =>
        var helper, param :| LegalName(helper) && LegalName(param) && !R.TopLevelName(p, helper) && q == R.HelperWrapping(p, helper, param);
        x := Rewriting(Some(helper), None, false, false);
        HelperSimilar(p, helper, param);
      case StatementReordering =>
        x := SWAPS;
        StatementReorderingSimilar(p);
    }
    SimilarIsLegal(x, p, q);
  }

  lemma CandidateKeeps(p: Program, family: Family, q: Program)
    requires S.Accepts(p) && IsCandidate(p, family, q)
    ensures !Limited(q) ==> O.Run(q) == O.Run(p) || (family == StatementReordering && Limited(p) && O.Run(q).trap == InvalidInstruction)
  {
    hide S.Accepts, Limited, LegalName;
    match family {
      case ReturnNeutral => ReturnNeutralKeeps(p);
      case DeadBranch => DeadBranchKeeps(p);
      case UnusedLocal =>
        var name :| LegalName(name) && NewInMain(p, name) && q == R.UnusedLocal(p, name);
        UnusedLocalKeeps(p, name);
      case AlgebraicNeutral => AlgebraicNeutralKeeps(p);
      case BranchInversion => BranchInversionKeeps(p);
      case HelperWrapping =>
        var helper, param :| LegalName(helper) && LegalName(param) && !R.TopLevelName(p, helper) && q == R.HelperWrapping(p, helper, param);
        HelperWrappingKeeps(p, helper, param);
      case StatementReordering => StatementReorderingKeeps(p);
    }
  }

  /** The text of a candidate that is parsed and accepted. */
  ghost predicate IsVariant(p: Program, v: Variant) {
    exists q :: IsCandidate(p, v.family, q) && v.source == Printing.ProgramText(q) && ParseChecked(v.source).Some?
  }

  /**
   * Metamorphic soundness: whatever accepted text the fuzzer starts from, every variant it keeps, read back from its own
   * text, has the oracle's outcome of the original, unless the variant's run ends in a resource limit. Of a reordered
   * program, when the limit stopped the original instead, the variant may end in the trap behind it.
   */
  lemma VariantsAgree(source: string, v: Variant)
    requires ParseChecked(source).Some? && IsVariant(ParseChecked(source).value, v)
    ensures
      var p, q := ParseChecked(source).value, ParseChecked(v.source).value;
      !Limited(q) ==>
        || O.Run(q) == O.Run(p)
        || (v.family == StatementReordering && Limited(p) && O.Run(q).trap == InvalidInstruction)
  {
    hide S.Accepts, P.ParseProgram, L.Lex, Printing.ProgramText, IsCandidate, LegalProgram, RoundTrip.Sized, Rereading.Reread, ProgramSimilar;
    var p := ParseChecked(source).value;
    ParsedTrees.ParsedIsLegal(source);
    var q :| IsCandidate(p, v.family, q) && v.source == Printing.ProgramText(q) && ParseChecked(v.source).Some?;
    var x := CandidateIsSimilar(p, v.family, q);
    RoundTrip.PrintedIsParsed(q);
    RereadKeeps(q);
    CandidateKeeps(p, v.family, q);
  }
}
