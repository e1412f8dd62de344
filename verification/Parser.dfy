/** The parser as an object: a position that advances through the tokens, proved to find what Parsing says. */
module Parser {
  import opened Common
  import opened Int32
  import opened Ast
  import G = ProgramGrammar
  import P = Parsing
  import T = Tokens

  class Parser {
    const tokens: seq<T.Token>
    var pos: nat

    ghost predicate Valid()
      reads this
    {
      pos <= |tokens|
    }

    function Rest(): seq<T.Token>
      requires Valid()
      reads this
    {
      tokens[pos..]
    }

    /** What a method found is what is there, and the parser stands behind it. */
    ghost predicate Found<A>(r: Option<A>, there: P.Parsed<A>)
      reads this
    {
      Valid() && if r.Some? then there == P.Parsed(r.value, Rest()) else there.NoParse?
    }

    constructor (tokens: seq<T.Token>)
      ensures Valid() && this.tokens == tokens && Rest() == tokens
    {
      this.tokens := tokens;
      pos := 0;
    }

    function Current(): T.Token
      requires Valid()
      reads this
    {
      if pos < |tokens| then tokens[pos] else T.Eof
    }

    function TokenAt(offset: nat): T.Token
      reads this
    {
      if pos + offset < |tokens| then tokens[pos + offset] else T.Eof
    }

    method Advance()
      requires Valid()
      modifies this`pos
      ensures Valid() && Rest() == P.Tail(old(Rest())) && pos >= old(pos)
    {
      if pos < |tokens| {
        pos := pos + 1;
      }
    }

    method MatchToken(token: T.Token) returns (matched: bool)
      requires Valid()
      modifies this`pos
      ensures Valid() && pos >= old(pos)
      ensures matched <==> P.Expect(old(Rest()), token).Some?
      ensures if matched then Rest() == P.Expect(old(Rest()), token).value && pos == old(pos) + 1 else pos == old(pos)
    {
      if pos < |tokens| && tokens[pos] == token {
        pos := pos + 1;
        return true;
      }
      return false;
    }

    // -------------------------------------------------------------- expressions

    method ParseExpr() returns (e: Option<Expr>)
      requires Valid()
      modifies this`pos
      ensures Found(e, P.ParseExpr(old(Rest())))
      decreases |tokens| - pos, P.LEVELS + 4
    {
      e := ParseLevel(0);
    }

    /** One level of operators, taken from left to right. */
    method ParseLevel(level: nat) returns (e: Option<Expr>)
      requires Valid() && level <= P.LEVELS
      modifies this`pos
      ensures Found(e, P.ParseLevel(level, old(Rest())))
      decreases |tokens| - pos, P.LEVELS + 3 - level
    {
      if level == P.LEVELS {
        e := ParseUnary();
      } else {
        e := ParseOperators(level);
      }
    }

    method ParseOperators(level: nat) returns (e: Option<Expr>)
      requires Valid() && level < P.LEVELS
      modifies this`pos
      ensures Found(e, P.ParseLevel(level, old(Rest())))
      decreases |tokens| - pos, P.LEVELS + 3 - level, 0
    {
      hide P.ParseLevel, P.ParseMore, P.OpAt;
      ghost var there := P.ParseLevel(level, Rest());
      LevelOpens(level, Rest());
      var first := ParseLevel(level + 1);
      if first.None? {
        return None;
      }
      var left := first.value;
      var op := P.OpAt(level, Current());
      while op.Some?
        invariant Valid() && op == P.OpAt(level, Current()) && |tokens| - pos < old(|tokens| - pos)
        invariant P.ParseMore(level, left, Rest()) == there
        decreases |tokens| - pos
      {
        EofIsNoOp(level);
        MoreStep(level, left, Rest());
        Advance();
        var right := ParseLevel(level + 1);
        if right.None? {
          return None;
        }
        left := Binary(op.value, left, right.value);
        op := P.OpAt(level, Current());
      }
      MoreStep(level, left, Rest());
      return Some(left);
    }

    method ParseUnary() returns (e: Option<Expr>)
      requires Valid()
      modifies this`pos
      ensures Found(e, P.ParseUnary(old(Rest())))
      decreases |tokens| - pos, 2
    {
      hide P.ParsePrimary;
      var minus := MatchToken(T.Minus);
      if minus {
        var operand := ParseUnary();
        return if operand.Some? then Some(Unary(UnaryOp.Neg, operand.value)) else None;
      }
      var not := MatchToken(T.Not);
      if not {
        var operand := ParseUnary();
        return if operand.Some? then Some(Unary(UnaryOp.Not, operand.value)) else None;
      }
      e := ParsePrimary();
    }

    method ParsePrimary() returns (e: Option<Expr>)
      requires Valid()
      modifies this`pos
      ensures Found(e, P.ParsePrimary(old(Rest())))
      decreases |tokens| - pos, 1
    {
      hide P.ParseExpr, P.ParseArgs;
      var token := Current();
      if token.IntLiteral? {
        Advance();
        return Some(IntLiteral(token.value));
      }
      if token.BoolLiteral? {
        Advance();
        return Some(BoolLiteral(token.flag));
      }
      if token.Identifier? {
        Advance();
        var call := MatchToken(T.LParen);
        if call {
          var args := ParseArgs();
          if args.None? {
            return None;
          }
          var closed := MatchToken(T.RParen);
          return if closed then Some(Call(token.name, args.value)) else None;
        }
        var indexed := MatchToken(T.LBracket);
        if indexed {
          var index := ParseClosed(T.RBracket);
          return if index.Some? then Some(ArrayIndex(token.name, index.value)) else None;
        }
        return Some(Identifier(token.name));
      }
      var open := MatchToken(T.LParen);
      if open {
        e := ParseClosed(T.RParen);
        return;
      }
      return None;
    }

    /** An expression and the expected token behind it. */
    method ParseClosed(close: T.Token) returns (e: Option<Expr>)
      requires Valid()
      modifies this`pos
      ensures Found(e, P.ParseClosed(old(Rest()), close))
      decreases |tokens| - pos, P.LEVELS + 5
    {
      hide P.ParseExpr;
      e := ParseExpr();
      if e.Some? {
        var closed := MatchToken(close);
        if !closed {
          return None;
        }
      }
    }

    method ParseArgs() returns (args: Option<seq<Expr>>)
      requires Valid()
      modifies this`pos
      ensures Found(args, P.ParseArgs(old(Rest())))
      decreases |tokens| - pos, P.LEVELS + 6
    {
      hide P.ParseExpr;
      if Current() == T.RParen {
        return Some([]);
      }
      ghost var there := P.ParseArgList(Rest());
      var first := ParseExpr();
      if first.None? {
        return None;
      }
      var found := [first.value];
      while Current() == T.Comma
        invariant Valid() && |tokens| - pos < old(|tokens| - pos) && found != []
        invariant there == Listed(found, Rest())
        decreases |tokens| - pos
      {
        ghost var before := Rest();
        Advance();
        var more := ParseExpr();
        ListedMore(found, before);
        if more.None? {
          return None;
        }
        found := found + [more.value];
      }
      return Some(found);
    }

    // -------------------------------------------------------------- statements

    /** Looks ahead without moving. */
    method IsAssignmentStart() returns (found: bool)
      requires Valid()
      ensures found <==> P.IsAssignmentStart(Rest())
    {
      hide P.AssignBehind;
      if !Current().Identifier? {
        return false;
      }
      if TokenAt(1) == T.Assign {
        return true;
      }
      if TokenAt(1) != T.LBracket {
        return false;
      }
      found := AssignsBehindBrackets();
    }

    /** Whether an assignment sign follows the bracket that closes the next one. */
    method AssignsBehindBrackets() returns (found: bool)
      requires Valid() && pos < |tokens|
      ensures found <==> P.AssignBehind(0, P.Tail(Rest()))
    {
      hide P.AssignBehind, P.Current, P.Tail;
      var depth: nat := 0;
      var offset: nat := 1;
      ghost var next: nat := pos + 1;
      Ahead(tokens, pos);
      ghost var there := P.AssignBehind(0, tokens[next..]);
      while true
        invariant next == pos + offset <= |tokens| && P.AssignBehind(depth, tokens[next..]) == there
        decreases |tokens| - next
      {
        AheadStep(depth, tokens[next..]);
        Ahead(tokens, next);
        var token := TokenAt(offset);
        if token == T.Eof {
          return false;
        } else if token == T.LBracket {
          depth := depth + 1;
        } else if token == T.RBracket {
          if depth <= 1 {
            Ahead(tokens, next + 1);
            return TokenAt(offset + 1) == T.Assign;
          }
          depth := depth - 1;
        }
        offset, next := offset + 1, next + 1;
      }
    }

    /** A type, a name, and a size or an initializer. */
    method ParseDeclaration() returns (d: Option<P.Declared>)
      requires Valid()
      modifies this`pos
      ensures Found(d, P.ParseDeclaration(old(Rest())))
    {
      hide P.ParseDeclared;
      var ty := P.TypeOf(Current());
      if ty.None? {
        return None;
      }
      Advance();
      var token := Current();
      if !token.Identifier? {
        return None;
      }
      Advance();
      d := ParseDeclared(ty.value, token.name);
    }

    method ParseDeclared(ty: Type, name: string) returns (d: Option<P.Declared>)
      requires Valid()
      modifies this`pos
      ensures Found(d, P.ParseDeclared(ty, name, old(Rest())))
    {
      hide P.ParseClosed, P.ParseSize;
      var init: Option<Expr>, size: Option<I32> := None, None;
      var sized := MatchToken(T.LBracket);
      if sized {
        size := ParseSize();
        if size.None? {
          return None;
        }
      } else {
        var initialized := MatchToken(T.Assign);
        if initialized {
          init := ParseClosed(T.Semicolon);
          return if init.Some? then Some(P.Declared(ty, name, init, None)) else None;
        }
      }
      var ended := MatchToken(T.Semicolon);
      return if ended then Some(P.Declared(ty, name, None, size)) else None;
    }

    method ParseSize() returns (size: Option<I32>)
      requires Valid()
      modifies this`pos
      ensures Found(size, P.ParseSize(old(Rest())))
    {
      var number := Current();
      if !number.IntLiteral? {
        return None;
      }
      Advance();
      var closed := MatchToken(T.RBracket);
      return if closed then Some(number.value) else None;
    }

    method ParseAssignment() returns (s: Option<Stmt>)
      requires Valid()
      modifies this`pos
      ensures Found(s, P.ParseAssignment(old(Rest())))
    {
      hide P.ParseClosed, P.ParseAssigned;
      var token := Current();
      if !token.Identifier? {
        return None;
      }
      Advance();
      var index: Option<Expr> := None;
      var indexed := MatchToken(T.LBracket);
      if indexed {
        index := ParseClosed(T.RBracket);
        if index.None? {
          return None;
        }
      }
      s := ParseAssigned(token.name, index);
    }

    method ParseAssigned(name: string, index: Option<Expr>) returns (s: Option<Stmt>)
      requires Valid()
      modifies this`pos
      ensures Found(s, P.ParseAssigned(name, index, old(Rest())))
    {
      hide P.ParseClosed;
      var sign := MatchToken(T.Assign);
      if !sign {
        return None;
      }
      var value := ParseClosed(T.Semicolon);
      return if value.Some? then Some(Assign(name, index, value.value)) else None;
    }

    method ParseCondition() returns (e: Option<Expr>)
      requires Valid()
      modifies this`pos
      ensures Found(e, P.ParseCondition(old(Rest())))
    {
      hide P.ParseClosed;
      Advance();
      var open := MatchToken(T.LParen);
      if !open {
        return None;
      }
      e := ParseClosed(T.RParen);
    }

    method ParseStmt() returns (s: Option<Stmt>)
      requires Valid()
      modifies this`pos
      ensures Found(s, P.ParseStmt(old(Rest())))
      decreases |tokens| - pos, 1
    {
      hide P.ParseClosed, P.ParseDeclaration, P.ParseAssignment, P.ParseCondition, P.ParseBlock, P.IsAssignmentStart;
      match Current() {
        case IntType =>
          var d := ParseDeclaration();
          return if d.Some? then Some(VarDecl(d.value.ty, d.value.name, d.value.init, d.value.size)) else None;
        case BoolType =>
          var d := ParseDeclaration();
          return if d.Some? then Some(VarDecl(d.value.ty, d.value.name, d.value.init, d.value.size)) else None;
        case If => s := ParseIf();
        case While => s := ParseWhile();
        case Return => s := ParseReturn();
        case Print => s := ParsePrint();
        case _ => s := ParseOther();
      }
    }

    /** A statement without keyword. */
    method ParseOther() returns (s: Option<Stmt>)
      requires Valid() && !Keyword(Current())
      modifies this`pos
      ensures Found(s, P.ParseStmt(old(Rest())))
    {
      hide P.ParseClosed, P.ParseAssignment, P.IsAssignmentStart;
      NoName(Rest());
      var token := Current();
      if token.Identifier? {
        s := ParseNamedStmt();
      } else if P.BeginsExpr(token) {
        s := ParseExprStmt();
      } else {
        return None;
      }
    }

    /** A statement that begins with a name: an assignment, or else an expression. */
    method ParseNamedStmt() returns (s: Option<Stmt>)
      requires Valid() && Current().Identifier?
      modifies this`pos
      ensures Found(s, P.ParseStmt(old(Rest())))
    {
      hide P.ParseAssignment, P.IsAssignmentStart, P.ParseClosed;
      var assigns := IsAssignmentStart();
      if assigns {
        s := ParseAssignment();
      } else {
        s := ParseExprStmt();
      }
    }

    method ParseReturn() returns (s: Option<Stmt>)
      requires Valid() && Current() == T.Return
      modifies this`pos
      ensures Found(s, P.ParseStmt(old(Rest())))
    {
      hide P.ParseClosed;
      Advance();
      var e := ParseClosed(T.Semicolon);
      return if e.Some? then Some(Return(e.value)) else None;
    }

    method ParsePrint() returns (s: Option<Stmt>)
      requires Valid() && Current() == T.Print
      modifies this`pos
      ensures Found(s, P.ParseStmt(old(Rest())))
    {
      hide P.ParseClosed;
      Advance();
      var e := ParseClosed(T.Semicolon);
      return if e.Some? then Some(Stmt.Print(e.value)) else None;
    }

    method ParseExprStmt() returns (s: Option<Stmt>)
      requires Valid() && P.BeginsExpr(Current()) && !P.IsAssignmentStart(Rest())
      modifies this`pos
      ensures Found(s, P.ParseStmt(old(Rest())))
    {
      hide P.ParseClosed, P.IsAssignmentStart;
      var e := ParseClosed(T.Semicolon);
      return if e.Some? then Some(ExprStmt(e.value)) else None;
    }

    method ParseWhile() returns (s: Option<Stmt>)
      requires Valid() && Current() == T.While
      modifies this`pos
      ensures Found(s, P.ParseStmt(old(Rest())))
      decreases |tokens| - pos, 0
    {
      hide P.ParseClosed, P.ParseCondition, P.ParseBlock;
      var condition := ParseCondition();
      if condition.None? {
        return None;
      }
      var body := ParseBlock();
      return if body.Some? then Some(While(condition.value, body.value)) else None;
    }

    method ParseIf() returns (s: Option<Stmt>)
      requires Valid() && Current() == T.If
      modifies this`pos
      ensures Found(s, P.ParseStmt(old(Rest())))
      decreases |tokens| - pos, 0
    {
      hide P.ParseClosed, P.ParseDeclaration, P.ParseAssignment, P.ParseCondition, P.ParseBlock, P.IsAssignmentStart;
      var condition := ParseCondition();
      if condition.None? {
        return None;
      }
      var thenBody := ParseBlock();
      if thenBody.None? {
        return None;
      }
      var other := MatchToken(T.Else);
      if !other {
        return Some(If(condition.value, thenBody.value, NoElse));
      }
      var elseBody := ParseBlock();
      return if elseBody.Some? then Some(If(condition.value, thenBody.value, Else(elseBody.value))) else None;
    }

    method ParseBlock() returns (stmts: Option<seq<Stmt>>)
      requires Valid()
      modifies this`pos
      ensures Found(stmts, P.ParseBlock(old(Rest())))
      decreases |tokens| - pos, 1
    {
      hide P.ParseStmt, P.ParseStmts, Blocked;
      var open := MatchToken(T.LBrace);
      if !open {
        return None;
      }
      ghost var there := P.ParseStmts(Rest());
      var found: seq<Stmt> := [];
      StmtsBegin(Rest());
      while Current() != T.RBrace && Current() != T.Eof
        invariant Valid() && |tokens| - pos < old(|tokens| - pos)
        invariant there == Blocked(found, Rest())
        decreases |tokens| - pos
      {
        ghost var before := Rest();
        var s := ParseStmt();
        BlockedMore(found, before);
        if s.None? {
          return None;
        }
        found := found + [s.value];
      }
      BlockedEnd(found, Rest());
      var closed := MatchToken(T.RBrace);
      return if closed then Some(found) else None;
    }

    // -------------------------------------------------------------- functions and programs

    method ParseParam() returns (param: Option<Param>)
      requires Valid()
      modifies this`pos
      ensures Found(param, P.ParseParam(old(Rest())))
    {
      var ty := P.TypeOf(Current());
      if ty.None? {
        return None;
      }
      Advance();
      var token := Current();
      if !token.Identifier? {
        return None;
      }
      Advance();
      return Some(Param(ty.value, token.name));
    }

    /** The parameters in their parentheses. */
    method ParseParams() returns (params: Option<seq<Param>>)
      requires Valid()
      modifies this`pos
      ensures Found(params, P.ParseParams(old(Rest())))
    {
      hide P.ParseParamList;
      var open := MatchToken(T.LParen);
      if !open {
        return None;
      }
      params := Some([]);
      if Current() != T.RParen {
        params := ParseParamList();
      }
      if params.Some? {
        var closed := MatchToken(T.RParen);
        if !closed {
          return None;
        }
      }
    }

    method ParseParamList() returns (params: Option<seq<Param>>)
      requires Valid()
      modifies this`pos
      ensures Found(params, P.ParseParamList(old(Rest())))
    {
      hide P.ParseParam, P.ParseParamList, ParamsListed;
      ghost var there := P.ParseParamList(Rest());
      ParamsOpen(Rest());
      var first := ParseParam();
      if first.None? {
        return None;
      }
      var found := [first.value];
      while Current() == T.Comma
        invariant Valid() && there == ParamsListed(found, Rest())
        decreases |tokens| - pos
      {
        ghost var before := Rest();
        Advance();
        ParamsMore(found, before);
        var more := ParseParam();
        if more.None? {
          return None;
        }
        found := found + [more.value];
      }
      ParamsEnd(found, Rest());
      return Some(found);
    }

    method ParseFunction() returns (f: Option<Function>)
      requires Valid()
      modifies this`pos
      ensures Found(f, P.ParseFunction(old(Rest())))
    {
      hide P.ParseParams, P.ParseBlock;
      var keyword := MatchToken(T.Func);
      if !keyword {
        return None;
      }
      var token := Current();
      if !token.Identifier? {
        return None;
      }
      Advance();
      var params := ParseParams();
      if params.None? {
        return None;
      }
      var body := ParseBlock();
      return if body.Some? then Some(Function(token.name, params.value, body.value)) else None;
    }

    /** Globals and functions up to the end of the text: the program whose tree the grammar writes so, if there is one. */
    method Parse() returns (p: Option<Program>)
      requires Valid()
      modifies this`pos
      ensures p == P.ParseProgram(old(Rest()))
      ensures forall q :: p == Some(q) <==> G.Written(old(Rest()), q)
    {
      hide P.ParseProgram, P.ParseFunction, P.ParseDeclaration, Collected, G.Written;
      ghost var text := Rest();
      forall q ensures P.ParseProgram(text) == Some(q) <==> G.Written(text, q) {
        G.ProgramsAreExact(text, q);
      }
      ghost var there := P.ParseProgram(Rest());
      var globals: seq<GlobalVar>, functions: seq<Function> := [], [];
      CollectedNone(Rest());
      while Current() != T.Eof
        invariant Valid() && there == Collected(globals, functions, Rest())
        decreases |tokens| - pos
      {
        CollectedMore(globals, functions, Rest());
        if Current() == T.Func {
          var f := ParseFunction();
          if f.None? {
            return None;
          }
          functions := functions + [f.value];
        } else if P.TypeOf(Current()).Some? {
          var d := ParseDeclaration();
          if d.None? {
            return None;
          }
          globals := globals + [GlobalVar(d.value.ty, d.value.name, d.value.init, d.value.size)];
        } else {
          return None;
        }
      }
      CollectedEnd(globals, functions, Rest());
      return Some(Program(globals, functions));
    }
  }

  /** The tokens that begin a statement of their own kind. */
  predicate Keyword(token: T.Token) {
    token in {T.IntType, T.BoolType, T.If, T.While, T.Return, T.Print}
  }

  lemma EofIsNoOp(level: nat)
    ensures P.OpAt(level, T.Eof).None?
  {
  }

  // ---------------------------------------------------------------- lists found so far

  /** The whole list of arguments, when some are found and what follows stands at a comma or behind the last. */
  ghost function Listed(found: seq<Expr>, ts: seq<T.Token>): P.Parsed<seq<Expr>> {
    if P.Current(ts) != T.Comma then P.Parsed(found, ts)
    else
      var more := P.ParseArgList(P.Tail(ts));
      if more.NoParse? then P.NoParse else P.Parsed(found + more.value, more.rest)
  }

  lemma ListedMore(found: seq<Expr>, ts: seq<T.Token>)
    requires P.Current(ts) == T.Comma
    ensures
      var e := P.ParseExpr(P.Tail(ts));
      Listed(found, ts) == if e.NoParse? then P.NoParse else Listed(found + [e.value], e.rest)
  {
    hide P.ParseExpr;
    var e := P.ParseExpr(P.Tail(ts));
    if e.Parsed? {
      var more := P.ParseArgList(P.Tail(e.rest));
      if more.Parsed? {
        assert found + ([e.value] + more.value) == found + [e.value] + more.value;
      }
    }
  }

  ghost function Blocked(found: seq<Stmt>, ts: seq<T.Token>): P.Parsed<seq<Stmt>> {
    var more := P.ParseStmts(ts);
    if more.NoParse? then P.NoParse else P.Parsed(found + more.value, more.rest)
  }

  lemma StmtsBegin(ts: seq<T.Token>)
    ensures P.ParseStmts(ts) == Blocked([], ts)
  {
    hide P.ParseStmts;
    var more := P.ParseStmts(ts);
    if more.Parsed? {
      assert [] + more.value == more.value;
    }
  }

  lemma BlockedMore(found: seq<Stmt>, ts: seq<T.Token>)
    requires P.Current(ts) != T.RBrace && P.Current(ts) != T.Eof
    ensures
      var s := P.ParseStmt(ts);
      Blocked(found, ts) == if s.NoParse? then P.NoParse else Blocked(found + [s.value], s.rest)
  {
    hide P.ParseStmt;
    var s := P.ParseStmt(ts);
    if s.Parsed? {
      var more := P.ParseStmts(s.rest);
      if more.Parsed? {
        assert found + ([s.value] + more.value) == found + [s.value] + more.value;
      }
    }
  }

  lemma BlockedEnd(found: seq<Stmt>, ts: seq<T.Token>)
    requires P.Current(ts) == T.RBrace || P.Current(ts) == T.Eof
    ensures Blocked(found, ts) == P.Parsed(found, ts)
  {
    assert found + [] == found;
  }

  /** One token further on the way to a closing bracket. */
  lemma AheadStep(depth: nat, ts: seq<T.Token>)
    ensures
      var token := P.Current(ts);
      P.AssignBehind(depth, ts)
      == if token == T.Eof then false
         else if token == T.RBracket && depth <= 1 then P.Current(P.Tail(ts)) == T.Assign
         else P.AssignBehind(if token == T.LBracket then depth + 1 else if token == T.RBracket then depth - 1 else depth, P.Tail(ts))
  {
  }

  lemma Ahead(tokens: seq<T.Token>, k: nat)
    requires k <= |tokens|
    ensures P.Current(tokens[k..]) == if k < |tokens| then tokens[k] else T.Eof
    ensures k < |tokens| ==> P.Tail(tokens[k..]) == tokens[k + 1..]
  {
  }

  lemma NoName(ts: seq<T.Token>)
    ensures P.IsAssignmentStart(ts) ==> P.Current(ts).Identifier?
  {
  }

  lemma LevelOpens(level: nat, ts: seq<T.Token>)
    requires level < P.LEVELS
    ensures
      var left := P.ParseLevel(level + 1, ts);
      P.ParseLevel(level, ts) == if left.NoParse? then P.NoParse else P.ParseMore(level, left.value, left.rest)
  {
  }

  lemma MoreStep(level: nat, left: Expr, ts: seq<T.Token>)
    requires level < P.LEVELS
    ensures
      var op := P.OpAt(level, P.Current(ts));
      P.ParseMore(level, left, ts)
      == if op.None? then P.Parsed(left, ts)
         else
           var right := P.ParseLevel(level + 1, P.Tail(ts));
           if right.NoParse? then P.NoParse else P.ParseMore(level, Binary(op.value, left, right.value), right.rest)
  {
    hide P.OpAt;
  }

  ghost function ParamsListed(found: seq<Param>, ts: seq<T.Token>): P.Parsed<seq<Param>> {
    if P.Current(ts) != T.Comma then P.Parsed(found, ts)
    else
      var more := P.ParseParamList(P.Tail(ts));
      if more.NoParse? then P.NoParse else P.Parsed(found + more.value, more.rest)
  }

  lemma ParamsOpen(ts: seq<T.Token>)
    ensures
      var q := P.ParseParam(ts);
      P.ParseParamList(ts) == if q.NoParse? then P.NoParse else ParamsListed([q.value], q.rest)
  {
    hide P.ParseParam;
  }

  lemma ParamsMore(found: seq<Param>, ts: seq<T.Token>)
    requires P.Current(ts) == T.Comma
    ensures
      var q := P.ParseParam(P.Tail(ts));
      ParamsListed(found, ts) == if q.NoParse? then P.NoParse else ParamsListed(found + [q.value], q.rest)
  {
    hide P.ParseParam;
    var q := P.ParseParam(P.Tail(ts));
    if q.Parsed? {
      var more := P.ParseParamList(P.Tail(q.rest));
      if more.Parsed? {
        assert found + ([q.value] + more.value) == found + [q.value] + more.value;
      }
    }
  }

  lemma ParamsEnd(found: seq<Param>, ts: seq<T.Token>)
    requires P.Current(ts) != T.Comma
    ensures ParamsListed(found, ts) == P.Parsed(found, ts)
  {
  }

  /** The whole program, when some globals and functions are collected already. */
  ghost function Collected(globals: seq<GlobalVar>, functions: seq<Function>, ts: seq<T.Token>): Option<Program> {
    var more := P.ParseProgram(ts);
    if more.None? then None else Some(Program(globals + more.value.globals, functions + more.value.functions))
  }

  lemma CollectedNone(ts: seq<T.Token>)
    ensures P.ParseProgram(ts) == Collected([], [], ts)
  {
    hide P.ParseProgram;
    var more := P.ParseProgram(ts);
    if more.Some? {
      assert [] + more.value.globals == more.value.globals && [] + more.value.functions == more.value.functions;
    }
  }

  lemma CollectedEnd(globals: seq<GlobalVar>, functions: seq<Function>, ts: seq<T.Token>)
    requires P.Current(ts) == T.Eof
    ensures Collected(globals, functions, ts) == Some(Program(globals, functions))
  {
    assert globals + [] == globals && functions + [] == functions;
  }

  lemma CollectedMore(globals: seq<GlobalVar>, functions: seq<Function>, ts: seq<T.Token>)
    requires P.Current(ts) != T.Eof
    ensures
      Collected(globals, functions, ts)
      == if P.Current(ts) == T.Func then
           (var f := P.ParseFunction(ts);
            if f.NoParse? then None else Collected(globals, functions + [f.value], f.rest))
         else if P.TypeOf(P.Current(ts)).Some? then
           (var d := P.ParseDeclaration(ts);
            if d.NoParse? then None
            else Collected(globals + [GlobalVar(d.value.ty, d.value.name, d.value.init, d.value.size)], functions, d.rest))
         else None
  {
    hide P.ParseFunction, P.ParseDeclaration;
    if P.Current(ts) == T.Func {
      var f := P.ParseFunction(ts);
      if f.Parsed? {
        var more := P.ParseProgram(f.rest);
        if more.Some? {
          assert functions + ([f.value] + more.value.functions) == functions + [f.value] + more.value.functions;
        }
      }
    } else if P.TypeOf(P.Current(ts)).Some? {
      var d := P.ParseDeclaration(ts);
      if d.Parsed? {
        var more := P.ParseProgram(d.rest);
        if more.Some? {
          var g := GlobalVar(d.value.ty, d.value.name, d.value.init, d.value.size);
          assert globals + ([g] + more.value.globals) == globals + [g] + more.value.globals;
        }
      }
    }
  }
}
