/** What the parser makes of a text has legal names, and no declaration with both a size and an initializer. */
module ParsedTrees {
  import opened Common
  import opened Ast
  import opened Lexing
  import opened Parsing
  import opened PrintedTokens
  import opened PrintedRuns
  import T = Tokens

  predicate LegalTokens(ts: seq<T.Token>) {
    forall i :: 0 <= i < |ts| && ts[i].Identifier? ==> LegalName(ts[i].name)
  }

  lemma {:induction false} LexedLegal(s: string)
    ensures LegalTokens(Lex(s))
    decreases |s|
  {
    hide WordToken;
    var r := Skip(s);
    if r != [] {
      if First(r).0.Identifier? {
        FirstLegal(r);
      }
      LexedLegal(r[First(r).1..]);
    }
  }

  lemma FirstLegal(s: string)
    requires s != [] && First(s).0.Identifier?
    ensures LegalName(First(s).0.name)
  {
    NotWord(s);
    var n := Span(IsWordChar, s);
    assert s[..n][0] == s[0];
  }

  lemma NotWord(s: string)
    requires s != [] && First(s).0.Identifier?
    ensures IsWordStart(s[0])
  {
  }

  lemma TailLegal(ts: seq<T.Token>)
    requires LegalTokens(ts)
    ensures LegalTokens(Tail(ts)) && (Current(ts).Identifier? ==> LegalName(Current(ts).name))
    ensures forall t: T.Token :: Expect(ts, t).Some? ==> LegalTokens(Expect(ts, t).value)
  {
  }

  // ---------------------------------------------------------------- expressions

  predicate LegalParsed(r: Parsed<Expr>) {
    r.Parsed? ==> LegalExpr(r.value) && LegalTokens(r.rest)
  }

  lemma {:induction false} ExprLegal(ts: seq<T.Token>)
    requires LegalTokens(ts)
    ensures LegalParsed(ParseExpr(ts))
    decreases |ts|, LEVELS + 4
  {
    hide LegalTokens, LegalExpr, ParseLevel;
    LevelLegal(0, ts);
  }

  lemma {:induction false} LevelLegal(level: nat, ts: seq<T.Token>)
    requires LegalTokens(ts) && level <= LEVELS
    ensures LegalParsed(ParseLevel(level, ts))
    decreases |ts|, LEVELS + 3 - level
  {
    hide LegalTokens, LegalExpr, ParseUnary, ParseMore;
    if level == LEVELS {
      UnaryLegal(ts);
    } else {
      LevelLegal(level + 1, ts);
      var left := ParseLevel(level + 1, ts);
      if left.Parsed? {
        MoreLegal(level, left.value, left.rest);
      }
    }
  }

  lemma {:induction false} MoreLegal(level: nat, left: Expr, ts: seq<T.Token>)
    requires LegalTokens(ts) && LegalExpr(left) && level < LEVELS
    ensures LegalParsed(ParseMore(level, left, ts))
    decreases |ts|, 0
  {
    hide LegalTokens, ParseLevel;
    TailLegal(ts);
    var op := OpAt(level, Current(ts));
    if op.Some? {
      LevelLegal(level + 1, Tail(ts));
      var right := ParseLevel(level + 1, Tail(ts));
      if right.Parsed? {
        MoreLegal(level, Binary(op.value, left, right.value), right.rest);
      }
    }
  }

  lemma {:induction false} UnaryLegal(ts: seq<T.Token>)
    requires LegalTokens(ts)
    ensures LegalParsed(ParseUnary(ts))
    decreases |ts|, 2
  {
    hide LegalTokens, ParsePrimary;
    TailLegal(ts);
    if Current(ts) == T.Minus || Current(ts) == T.Not {
      UnaryLegal(Tail(ts));
    } else {
      PrimaryLegal(ts);
    }
  }

  lemma {:induction false} PrimaryLegal(ts: seq<T.Token>)
    requires LegalTokens(ts)
    ensures LegalParsed(ParsePrimary(ts))
    decreases |ts|, 1
  {
    hide LegalTokens, ParseNamed, ParseClosed;
    TailLegal(ts);
    match Current(ts) {
      case Identifier(name) => NamedLegal(name, Tail(ts));
      case LParen => ClosedLegal(Tail(ts), T.RParen);
      case _ =>
    }
  }

  lemma {:induction false} ClosedLegal(ts: seq<T.Token>, close: T.Token)
    requires LegalTokens(ts)
    ensures LegalParsed(ParseClosed(ts, close))
    decreases |ts|, LEVELS + 5
  {
    hide LegalTokens, ParseExpr, LegalExpr;
    ExprLegal(ts);
    var e := ParseExpr(ts);
    if e.Parsed? {
      TailLegal(e.rest);
    }
  }

  lemma {:induction false} NamedLegal(name: string, ts: seq<T.Token>)
    requires LegalTokens(ts) && LegalName(name)
    ensures LegalParsed(ParseNamed(name, ts))
    decreases |ts|, LEVELS + 6
  {
    hide LegalTokens, ParseArgs, ParseClosed, LegalName;
    TailLegal(ts);
    if Current(ts) == T.LParen {
      ArgsLegal(Tail(ts));
      var args := ParseArgs(Tail(ts));
      if args.Parsed? {
        TailLegal(args.rest);
      }
    } else if Current(ts) == T.LBracket {
      ClosedLegal(Tail(ts), T.RBracket);
    }
  }

  predicate LegalArgs(r: Parsed<seq<Expr>>) {
    r.Parsed? ==> (forall i :: 0 <= i < |r.value| ==> LegalExpr(r.value[i])) && LegalTokens(r.rest)
  }

  lemma {:induction false} ArgsLegal(ts: seq<T.Token>)
    requires LegalTokens(ts)
    ensures LegalArgs(ParseArgs(ts))
    decreases |ts|, LEVELS + 6
  {
    hide LegalTokens, ParseArgList;
    if Current(ts) != T.RParen {
      ArgListLegal(ts);
    }
  }

  lemma {:induction false} ArgListLegal(ts: seq<T.Token>)
    requires LegalTokens(ts)
    ensures LegalArgs(ParseArgList(ts))
    decreases |ts|, LEVELS + 5
  {
    hide LegalTokens, LegalExpr, ParseExpr;
    ExprLegal(ts);
    var e := ParseExpr(ts);
    if e.Parsed? {
      TailLegal(e.rest);
      if Current(e.rest) == T.Comma {
        ArgListLegal(Tail(e.rest));
      }
    }
  }

  // ---------------------------------------------------------------- statements

  predicate LegalDeclared(r: Parsed<Declared>) {
    r.Parsed? ==>
      && LegalName(r.value.name) && LegalOpt(r.value.init) && (r.value.init.None? || r.value.size.None?)
      && LegalTokens(r.rest)
  }

  lemma DeclarationLegal(ts: seq<T.Token>)
    requires LegalTokens(ts)
    ensures LegalDeclared(ParseDeclaration(ts))
  {
    hide LegalTokens, ParseDeclared, LegalName, LegalExpr;
    TailLegal(ts);
    TailLegal(Tail(ts));
    if TypeOf(Current(ts)).Some? && Current(Tail(ts)).Identifier? {
      DeclaredLegal(TypeOf(Current(ts)).value, Current(Tail(ts)).name, Tail(Tail(ts)));
    }
  }

  lemma DeclaredLegal(ty: Type, name: string, ts: seq<T.Token>)
    requires LegalTokens(ts) && LegalName(name)
    ensures LegalDeclared(ParseDeclared(ty, name, ts))
  {
    hide LegalTokens, ParseClosed, LegalName, LegalExpr;
    TailLegal(ts);
    if Current(ts) == T.LBracket {
      TailLegal(Tail(ts));
      TailLegal(Tail(Tail(ts)));
      var size := ParseSize(Tail(ts));
      if size.Parsed? {
        TailLegal(size.rest);
      }
    } else if Current(ts) == T.Assign {
      ClosedLegal(Tail(ts), T.Semicolon);
    }
  }

  predicate LegalStmts(r: Parsed<seq<Stmt>>) {
    r.Parsed? ==> LegalBlock(r.value) && LegalTokens(r.rest)
  }

  predicate LegalOne(r: Parsed<Stmt>) {
    r.Parsed? ==> LegalStmt(r.value) && LegalTokens(r.rest)
  }

  lemma AssignmentLegal(ts: seq<T.Token>)
    requires LegalTokens(ts)
    ensures LegalOne(ParseAssignment(ts))
  {
    hide LegalTokens, ParseClosed, ParseAssigned, LegalName, LegalExpr;
    TailLegal(ts);
    if Current(ts).Identifier? {
      var name, behind := Current(ts).name, Tail(ts);
      TailLegal(behind);
      if Current(behind) == T.LBracket {
        ClosedLegal(Tail(behind), T.RBracket);
        var index := ParseClosed(Tail(behind), T.RBracket);
        if index.Parsed? {
          AssignedLegal(name, Some(index.value), index.rest);
        }
      } else {
        AssignedLegal(name, None, behind);
      }
    }
  }

  lemma AssignedLegal(name: string, index: Option<Expr>, ts: seq<T.Token>)
    requires LegalTokens(ts) && LegalName(name) && LegalOpt(index)
    ensures LegalOne(ParseAssigned(name, index, ts))
  {
    hide LegalTokens, ParseClosed, LegalName, LegalExpr;
    TailLegal(ts);
    var sign := Expect(ts, T.Assign);
    if sign.Some? {
      ClosedLegal(sign.value, T.Semicolon);
    }
  }

  lemma ConditionLegal(ts: seq<T.Token>)
    requires LegalTokens(ts)
    ensures LegalParsed(ParseCondition(ts))
  {
    hide LegalTokens, ParseClosed, LegalExpr;
    TailLegal(ts);
    TailLegal(Tail(ts));
    var open := Expect(Tail(ts), T.LParen);
    if open.Some? {
      ClosedLegal(open.value, T.RParen);
    }
  }

  lemma {:induction false} StmtLegal(ts: seq<T.Token>)
    requires LegalTokens(ts)
    ensures LegalOne(ParseStmt(ts))
    decreases |ts|, 1
  {
    hide LegalTokens, ParseClosed, ParseDeclaration, ParseAssignment, ParseCondition, ParseBlock, IsAssignmentStart, LegalName, LegalExpr;
    TailLegal(ts);
    match Current(ts) {
      case IntType => DeclarationLegal(ts);
      case BoolType => DeclarationLegal(ts);
      case If => IfLegal(ts);
      case While =>
        ConditionLegal(ts);
        var condition := ParseCondition(ts);
        if condition.Parsed? {
          BlockLegal(condition.rest);
        }
      case Return => ClosedLegal(Tail(ts), T.Semicolon);
      case Print => ClosedLegal(Tail(ts), T.Semicolon);
      case _ =>
        AssignmentLegal(ts);
        ClosedLegal(ts, T.Semicolon);
    }
  }

  lemma {:induction false} IfLegal(ts: seq<T.Token>)
    requires LegalTokens(ts) && Current(ts) == T.If
    ensures LegalOne(ParseStmt(ts))
    decreases |ts|, 0
  {
    hide LegalTokens, ParseClosed, ParseDeclaration, ParseAssignment, ParseCondition, ParseBlock, IsAssignmentStart, LegalExpr;
    ConditionLegal(ts);
    var condition := ParseCondition(ts);
    if condition.Parsed? {
      BlockLegal(condition.rest);
      var thenBody := ParseBlock(condition.rest);
      if thenBody.Parsed? {
        TailLegal(thenBody.rest);
        BlockLegal(Tail(thenBody.rest));
      }
    }
  }

  lemma {:induction false} BlockLegal(ts: seq<T.Token>)
    requires LegalTokens(ts)
    ensures LegalStmts(ParseBlock(ts))
    decreases |ts|, 3
  {
    hide LegalTokens, ParseStmts, LegalBlock;
    TailLegal(ts);
    var open := Expect(ts, T.LBrace);
    if open.Some? {
      StmtsLegal(open.value);
      var stmts := ParseStmts(open.value);
      if stmts.Parsed? {
        TailLegal(stmts.rest);
      }
    }
  }

  lemma {:induction false} StmtsLegal(ts: seq<T.Token>)
    requires LegalTokens(ts)
    ensures LegalStmts(ParseStmts(ts))
    decreases |ts|, 2
  {
    hide LegalTokens, ParseStmt, LegalStmt;
    if Current(ts) != T.RBrace && Current(ts) != T.Eof {
      StmtLegal(ts);
      var s := ParseStmt(ts);
      if s.Parsed? {
        StmtsLegal(s.rest);
        var more := ParseStmts(s.rest);
        if more.Parsed? {
          assert ([s.value] + more.value)[1..] == more.value;
        }
      }
    }
  }

  // ---------------------------------------------------------------- programs

  predicate LegalParams(r: Parsed<seq<Param>>) {
    r.Parsed? ==> (forall i :: 0 <= i < |r.value| ==> LegalName(r.value[i].name)) && LegalTokens(r.rest)
  }

  lemma {:induction false} ParamListLegal(ts: seq<T.Token>)
    requires LegalTokens(ts)
    ensures LegalParams(ParseParamList(ts))
    decreases |ts|
  {
    hide LegalTokens, LegalName;
    TailLegal(ts);
    TailLegal(Tail(ts));
    var param := ParseParam(ts);
    if param.Parsed? {
      TailLegal(param.rest);
      if Current(param.rest) == T.Comma {
        ParamListLegal(Tail(param.rest));
      }
    }
  }

  lemma ParamsLegal(ts: seq<T.Token>)
    requires LegalTokens(ts)
    ensures LegalParams(ParseParams(ts))
  {
    hide LegalTokens, LegalName, ParseParamList;
    TailLegal(ts);
    var open := Expect(ts, T.LParen);
    if open.Some? {
      ParamListLegal(open.value);
      var params := if Current(open.value) == T.RParen then Parsed([], open.value) else ParseParamList(open.value);
      if params.Parsed? {
        TailLegal(params.rest);
      }
    }
  }

  lemma FunctionLegal(ts: seq<T.Token>)
    requires LegalTokens(ts)
    ensures var f := ParseFunction(ts); f.Parsed? ==> LegalFunction(f.value) && LegalTokens(f.rest)
  {
    hide LegalTokens, LegalName, ParseParams, ParseBlock, LegalBlock;
    TailLegal(ts);
    TailLegal(Tail(ts));
    if Current(ts) == T.Func && Current(Tail(ts)).Identifier? {
      ParamsLegal(Tail(Tail(ts)));
      var params := ParseParams(Tail(Tail(ts)));
      if params.Parsed? {
        BlockLegal(params.rest);
      }
    }
  }

  lemma {:induction false} ProgramLegal(ts: seq<T.Token>)
    requires LegalTokens(ts)
    ensures var p := ParseProgram(ts); p.Some? ==> LegalProgram(p.value) && InitOrSize(p.value.globals)
    decreases |ts|
  {
    hide LegalTokens, LegalName, LegalFunction, LegalOpt, ParseFunction, ParseDeclaration;
    if Current(ts) == T.Func {
      FunctionLegal(ts);
      var f := ParseFunction(ts);
      if f.Parsed? {
        ProgramLegal(f.rest);
      }
    } else if Current(ts) != T.Eof && TypeOf(Current(ts)).Some? {
      DeclarationLegal(ts);
      var d := ParseDeclaration(ts);
      if d.Parsed? {
        ProgramLegal(d.rest);
      }
    }
  }

  /** Whatever text is parsed, the tree can be printed. */
  lemma ParsedIsLegal(source: string)
    ensures var p := ParseProgram(Lex(source)); p.Some? ==> LegalProgram(p.value) && InitOrSize(p.value.globals)
  {
    LexedLegal(source);
    ProgramLegal(Lex(source));
  }
}
