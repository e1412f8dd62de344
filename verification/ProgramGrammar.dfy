/** The grammar of statements and programs: the parser accepts exactly the documented language, tree for tree. */
module ProgramGrammar {
  import opened Common
  import opened Int32
  import opened Ast
  import opened Parsing
  import opened Grammar
  import T = Tokens
  import P = Printing

  // ---------------------------------------------------------------- trees

  // A declared name with its size or its initializer.
  datatype DeclForm = DeclForm(ty: Type, name: string, size: Option<I32>, init: Option<Form>)

  datatype StmtForm =
    | Declare(decl: DeclForm)
    | Set(target: string, index: Option<Form>, value: Form)
    | Choose(condition: Form, thenBody: seq<StmtForm>, otherwise: Otherwise)
    | Repeat(condition: Form, body: seq<StmtForm>)
    | Give(value: Form)
    | Show(value: Form)
    | Do(value: Form)

  datatype Otherwise = Nothing | Instead(body: seq<StmtForm>)

  datatype Item = Variable(decl: DeclForm) | Routine(name: string, params: seq<Param>, body: seq<StmtForm>)

  // ---------------------------------------------------------------- which trees are written

  predicate FitsDecl(d: DeclForm) {
    (d.init.Some? ==> Fits(d.init.value)) && !(d.size.Some? && d.init.Some?)
  }

  predicate FitsStmt(s: StmtForm)
    decreases s, 0
  {
    match s
    case Declare(decl) => FitsDecl(decl)
    case Set(_, index, value) => (index.Some? ==> Fits(index.value)) && Fits(value)
    case Choose(condition, thenBody, otherwise) =>
      Fits(condition) && FitsBlock(thenBody) && (otherwise.Instead? ==> FitsBlock(otherwise.body))
    case Repeat(condition, body) => Fits(condition) && FitsBlock(body)
    case Give(value) => Fits(value)
    case Show(value) => Fits(value)
    case Do(value) => Fits(value)
  }

  predicate FitsBlock(stmts: seq<StmtForm>)
    decreases stmts, 0
  {
    stmts == [] || (FitsStmt(stmts[0]) && FitsBlock(stmts[1..]))
  }

  predicate FitsItem(item: Item) {
    match item case Variable(decl) => FitsDecl(decl) case Routine(_, _, body) => FitsBlock(body)
  }

  predicate FitsItems(items: seq<Item>) {
    forall item <- items :: FitsItem(item)
  }

  // ---------------------------------------------------------------- what they stand for

  function MeaningOf(f: Option<Form>): Option<Expr> {
    if f.None? then None else Some(Meaning(f.value))
  }

  function StmtMeaning(s: StmtForm): Stmt
    decreases s, 0
  {
    match s
    case Declare(d) => VarDecl(d.ty, d.name, MeaningOf(d.init), d.size)
    case Set(target, index, value) => Assign(target, MeaningOf(index), Meaning(value))
    case Choose(condition, thenBody, otherwise) =>
      If(Meaning(condition), BlockMeaning(thenBody), if otherwise.Nothing? then NoElse else Else(BlockMeaning(otherwise.body)))
    case Repeat(condition, body) => While(Meaning(condition), BlockMeaning(body))
    case Give(value) => Return(Meaning(value))
    case Show(value) => Print(Meaning(value))
    case Do(value) => ExprStmt(Meaning(value))
  }

  function BlockMeaning(stmts: seq<StmtForm>): seq<Stmt>
    decreases stmts, 0
  {
    if stmts == [] then [] else [StmtMeaning(stmts[0])] + BlockMeaning(stmts[1..])
  }

  function ItemsMeaning(items: seq<Item>): Program {
    if items == [] then Program([], [])
    else
      var more := ItemsMeaning(items[1..]);
      match items[0]
      case Variable(d) => more.(globals := [GlobalVar(d.ty, d.name, MeaningOf(d.init), d.size)] + more.globals)
      case Routine(name, params, body) => more.(functions := [Function(name, params, BlockMeaning(body))] + more.functions)
  }

  // ---------------------------------------------------------------- how they are written

  function SpellDecl(d: DeclForm, rest: seq<Token>): seq<Token> {
    [P.TypeToken(d.ty)] + ([T.Identifier(d.name)] + SpellDeclared(d, [T.Semicolon] + rest))
  }

  function SpellDeclared(d: DeclForm, rest: seq<Token>): seq<Token> {
    if d.size.Some? then [T.LBracket] + ([T.IntLiteral(d.size.value)] + ([T.RBracket] + rest))
    else if d.init.Some? then [T.Assign] + Spell(d.init.value, rest)
    else rest
  }

  function SpellStmt(s: StmtForm, rest: seq<Token>): seq<Token>
    decreases s, 0
  {
    match s
    case Declare(d) => SpellDecl(d, rest)
    case Set(target, index, value) =>
      var written := [T.Assign] + Spell(value, [T.Semicolon] + rest);
      [T.Identifier(target)] + (if index.None? then written else [T.LBracket] + Spell(index.value, [T.RBracket] + written))
    case Choose(condition, thenBody, otherwise) =>
      [T.If] + SpellCondition(condition, SpellBlock(thenBody,
        if otherwise.Nothing? then rest else [T.Else] + SpellBlock(otherwise.body, rest)))
    case Repeat(condition, body) => [T.While] + SpellCondition(condition, SpellBlock(body, rest))
    case Give(value) => [T.Return] + Spell(value, [T.Semicolon] + rest)
    case Show(value) => [T.Print] + Spell(value, [T.Semicolon] + rest)
    case Do(value) => Spell(value, [T.Semicolon] + rest)
  }

  function SpellCondition(condition: Form, rest: seq<Token>): seq<Token> {
    [T.LParen] + Spell(condition, [T.RParen] + rest)
  }

  function SpellBlock(stmts: seq<StmtForm>, rest: seq<Token>): seq<Token>
    decreases stmts, 1
  {
    [T.LBrace] + SpellStmts(stmts, [T.RBrace] + rest)
  }

  function SpellStmts(stmts: seq<StmtForm>, rest: seq<Token>): seq<Token>
    decreases stmts, 0
  {
    if stmts == [] then rest else SpellStmt(stmts[0], SpellStmts(stmts[1..], rest))
  }

  function SpellParam(p: Param, rest: seq<Token>): seq<Token> {
    [P.TypeToken(p.paramType)] + ([T.Identifier(p.name)] + rest)
  }

  function SpellParams(params: seq<Param>, rest: seq<Token>): seq<Token> {
    if params == [] then rest
    else if |params| == 1 then SpellParam(params[0], rest)
    else SpellParam(params[0], [T.Comma] + SpellParams(params[1..], rest))
  }

  function SpellItem(item: Item, rest: seq<Token>): seq<Token> {
    match item
    case Variable(d) => SpellDecl(d, rest)
    case Routine(name, params, body) =>
      [T.Func] + ([T.Identifier(name)] + ([T.LParen] + SpellParams(params, [T.RParen] + SpellBlock(body, rest))))
  }

  function SpellItems(items: seq<Item>, rest: seq<Token>): seq<Token> {
    if items == [] then rest else SpellItem(items[0], SpellItems(items[1..], rest))
  }

  // ---------------------------------------------------------------- telling assignments from expressions

  /** Looking for the closing bracket passes over whole expressions. */
  lemma {:induction false} PassesOver(depth: nat, f: Form, rest: seq<Token>)
    requires depth > 0
    ensures AssignBehind(depth, Spell(f, rest)) == AssignBehind(depth, rest)
    decreases f, 0
  {
    hide Spell, AssignBehind, P.BinaryToken;
    PassesOne(depth, if f.Number? then T.IntLiteral(f.value) else if f.Truth? then T.BoolLiteral(f.flag) else T.RParen, rest);
    match f {
      case Number(v) => SpellsLeaf(f, rest);
      case Truth(b) => SpellsLeaf(f, rest);
      case Name(name) =>
        SpellsLeaf(f, rest);
        PassesOne(depth, T.Identifier(name), rest);
      case Infix(op, left, right) =>
        InfixSpells(op, left, right, rest);
        PassesOver(depth, left, [P.BinaryToken(op)] + Spell(right, rest));
        OperatorPasses(depth, op, Spell(right, rest));
        PassesOver(depth, right, rest);
      case Prefix(sign, operand) =>
        SpellsMore(f, rest);
        PassesOne(depth, SignToken(sign), Spell(operand, rest));
        PassesOver(depth, operand, rest);
      case Group(inner) =>
        SpellsMore(f, rest);
        PassesOne(depth, T.LParen, Spell(inner, [T.RParen] + rest));
        PassesOver(depth, inner, [T.RParen] + rest);
      case Invoke(name, args) =>
        SpellsMore(f, rest);
        PassesOne(depth, T.Identifier(name), [T.LParen] + SpellArgs(args, [T.RParen] + rest));
        PassesOne(depth, T.LParen, SpellArgs(args, [T.RParen] + rest));
        PassesArgs(depth, args, [T.RParen] + rest);
      case Element(name, index) =>
        SpellsMore(f, rest);
        PassesOne(depth, T.Identifier(name), [T.LBracket] + Spell(index, [T.RBracket] + rest));
        PassesBrackets(depth, index, rest);
    }
  }

  lemma SpellsLeaf(f: Form, rest: seq<Token>)
    ensures f.Number? ==> Spell(f, rest) == [T.IntLiteral(f.value)] + rest
    ensures f.Truth? ==> Spell(f, rest) == [T.BoolLiteral(f.flag)] + rest
    ensures f.Name? ==> Spell(f, rest) == [T.Identifier(f.name)] + rest
  {
  }

  lemma SpellsMore(f: Form, rest: seq<Token>)
    ensures f.Prefix? ==> Spell(f, rest) == [SignToken(f.sign)] + Spell(f.operand, rest)
    ensures f.Group? ==> Spell(f, rest) == [T.LParen] + Spell(f.inner, [T.RParen] + rest)
    ensures f.Invoke? ==> Spell(f, rest) == [T.Identifier(f.callee)] + ([T.LParen] + SpellArgs(f.args, [T.RParen] + rest))
    ensures f.Element? ==> Spell(f, rest) == [T.Identifier(f.arrayName)] + ([T.LBracket] + Spell(f.index, [T.RBracket] + rest))
  {
  }

  lemma PassesOne(depth: nat, t: Token, rest: seq<Token>)
    requires t != T.LBracket && t != T.RBracket && t != T.Eof
    ensures AssignBehind(depth, [t] + rest) == AssignBehind(depth, rest)
  {
    Front(t, rest);
  }

  lemma OperatorPasses(depth: nat, op: BinaryOp, rest: seq<Token>)
    ensures AssignBehind(depth, [P.BinaryToken(op)] + rest) == AssignBehind(depth, rest)
  {
    hide AssignBehind;
    PassesOne(depth, P.BinaryToken(op), rest);
  }

  lemma {:induction false} PassesBrackets(depth: nat, index: Form, rest: seq<Token>)
    requires depth > 0
    ensures AssignBehind(depth, [T.LBracket] + Spell(index, [T.RBracket] + rest)) == AssignBehind(depth, rest)
    decreases index, 1
  {
    hide Spell;
    Front(T.LBracket, Spell(index, [T.RBracket] + rest));
    Front(T.RBracket, rest);
    PassesOver(depth + 1, index, [T.RBracket] + rest);
  }

  lemma {:induction false} PassesArgs(depth: nat, args: seq<Form>, rest: seq<Token>)
    requires depth > 0
    ensures AssignBehind(depth, SpellArgs(args, rest)) == AssignBehind(depth, rest)
    decreases args, 1
  {
    hide Spell, AssignBehind;
    if |args| == 1 {
      PassesOver(depth, args[0], rest);
    } else if |args| > 1 {
      PassesOver(depth, args[0], [T.Comma] + SpellArgs(args[1..], rest));
      PassesOne(depth, T.Comma, SpellArgs(args[1..], rest));
      PassesArgs(depth, args[1..], rest);
    }
  }

  /** Behind the first bracketed index stands what decides. */
  lemma IndexDecides(name: string, index: Form, rest: seq<Token>)
    ensures IsAssignmentStart([T.Identifier(name)] + ([T.LBracket] + Spell(index, [T.RBracket] + rest))) <==> Current(rest) == T.Assign
  {
    hide Spell;
    var behind := Spell(index, [T.RBracket] + rest);
    Front(T.Identifier(name), [T.LBracket] + behind);
    Front(T.LBracket, behind);
    Front(T.RBracket, rest);
    PassesOver(1, index, [T.RBracket] + rest);
  }

  /** An expression is not taken for an assignment. */
  lemma {:induction false} NoAssignment(f: Form, rest: seq<Token>)
    requires Current(rest) != T.Assign && (EndsInName(f) ==> NoBracket(rest))
    ensures !IsAssignmentStart(Spell(f, rest))
  {
    hide AssignBehind;
    match f {
      case Infix(op, left, right) =>
        OperatorAlone(op, Spell(right, rest), 7);
        Front(P.BinaryToken(op), Spell(right, rest));
        NoAssignment(left, [P.BinaryToken(op)] + Spell(right, rest));
      case Element(name, index) => IndexDecides(name, index, rest);
      case Name(name) => Front(T.Identifier(name), rest);
      case Invoke(name, args) =>
        Front(T.Identifier(name), [T.LParen] + SpellArgs(args, [T.RParen] + rest));
      case _ =>
    }
  }

  // ---------------------------------------------------------------- what is written is found

  lemma TypeFound(ty: Type)
    ensures TypeOf(P.TypeToken(ty)) == Some(ty)
  {
  }

  lemma DeclaredFound(d: DeclForm, rest: seq<Token>)
    requires FitsDecl(d)
    ensures ParseDeclared(d.ty, d.name, SpellDeclared(d, [T.Semicolon] + rest)) == Parsed(Declared(d.ty, d.name, MeaningOf(d.init), d.size), rest)
  {
    hide ParseClosed, Spell;
    var behind := [T.Semicolon] + rest;
    Front(T.Semicolon, rest);
    if d.size.Some? {
      var number := T.IntLiteral(d.size.value);
      Front(T.LBracket, [number] + ([T.RBracket] + behind));
      Front(number, [T.RBracket] + behind);
      Front(T.RBracket, behind);
    } else if d.init.Some? {
      Front(T.Assign, Spell(d.init.value, behind));
      ClosedFound(d.init.value, T.Semicolon, rest);
    }
  }

  lemma DeclFound(d: DeclForm, rest: seq<Token>)
    requires FitsDecl(d)
    ensures ParseDeclaration(SpellDecl(d, rest)) == Parsed(Declared(d.ty, d.name, MeaningOf(d.init), d.size), rest)
  {
    hide ParseDeclared, SpellDeclared, TypeOf, P.TypeToken;
    var behind := SpellDeclared(d, [T.Semicolon] + rest);
    Front(P.TypeToken(d.ty), [T.Identifier(d.name)] + behind);
    Front(T.Identifier(d.name), behind);
    TypeFound(d.ty);
    DeclaredFound(d, rest);
  }

  lemma ConditionFound(keyword: Token, condition: Form, rest: seq<Token>)
    requires Fits(condition)
    ensures ParseCondition([keyword] + SpellCondition(condition, rest)) == Parsed(Meaning(condition), rest)
  {
    hide ParseClosed, Spell;
    Front(keyword, SpellCondition(condition, rest));
    Front(T.LParen, Spell(condition, [T.RParen] + rest));
    ClosedFound(condition, T.RParen, rest);
  }

  lemma AssignedFound(name: string, index: Option<Expr>, value: Form, rest: seq<Token>)
    requires Fits(value)
    ensures ParseAssigned(name, index, [T.Assign] + Spell(value, [T.Semicolon] + rest)) == Parsed(Assign(name, index, Meaning(value)), rest)
  {
    hide ParseClosed, Spell;
    Front(T.Assign, Spell(value, [T.Semicolon] + rest));
    ClosedFound(value, T.Semicolon, rest);
  }

  lemma SetFound(s: StmtForm, rest: seq<Token>)
    requires s.Set? && FitsStmt(s)
    ensures ParseStmt(SpellStmt(s, rest)) == Parsed(StmtMeaning(s), rest)
  {
    hide ParseClosed, ParseAssigned, Spell, AssignBehind;
    var written := [T.Assign] + Spell(s.value, [T.Semicolon] + rest);
    Front(T.Assign, Spell(s.value, [T.Semicolon] + rest));
    AssignedFound(s.target, MeaningOf(s.index), s.value, rest);
    if s.index.None? {
      Front(T.Identifier(s.target), written);
    } else {
      var behind := Spell(s.index.value, [T.RBracket] + written);
      Front(T.Identifier(s.target), [T.LBracket] + behind);
      Front(T.LBracket, behind);
      IndexDecides(s.target, s.index.value, written);
      ClosedFound(s.index.value, T.RBracket, written);
    }
  }

  lemma DoFound(f: Form, rest: seq<Token>)
    requires Fits(f)
    ensures ParseStmt(Spell(f, [T.Semicolon] + rest)) == Parsed(ExprStmt(Meaning(f)), rest)
  {
    hide ParseClosed, Spell, IsAssignmentStart;
    SpellStarts(f, [T.Semicolon] + rest);
    NoAssignment(f, [T.Semicolon] + rest);
    ClosedFound(f, T.Semicolon, rest);
  }

  lemma KeywordFound(s: StmtForm, rest: seq<Token>)
    requires s.Declare? || s.Give? || s.Show?
    requires FitsStmt(s)
    ensures ParseStmt(SpellStmt(s, rest)) == Parsed(StmtMeaning(s), rest)
  {
    hide ParseClosed, Spell, IsAssignmentStart, ParseDeclaration, SpellDeclared;
    match s {
      case Declare(d) =>
        DeclFound(d, rest);
        Front(P.TypeToken(d.ty), [T.Identifier(d.name)] + SpellDeclared(d, [T.Semicolon] + rest));
      case Give(value) =>
        Front(T.Return, Spell(value, [T.Semicolon] + rest));
        ClosedFound(value, T.Semicolon, rest);
      case Show(value) =>
        Front(T.Print, Spell(value, [T.Semicolon] + rest));
        ClosedFound(value, T.Semicolon, rest);
      case _ =>
    }
  }

  /** The first token of a statement. */
  lemma StmtStarts(s: StmtForm, rest: seq<Token>)
    ensures var t := Current(SpellStmt(s, rest)); t != T.RBrace && t != T.Eof && t != T.Else
  {
    hide SpellCondition, SpellDeclared, SpellBlock, Spell;
    if s.Do? {
      SpellStarts(s.value, [T.Semicolon] + rest);
    }
  }

  lemma {:induction false} StmtFound(s: StmtForm, rest: seq<Token>)
    requires FitsStmt(s) && Current(rest) != T.Else
    ensures ParseStmt(SpellStmt(s, rest)) == Parsed(StmtMeaning(s), rest)
    decreases s, 0
  {
    hide ParseStmt, SpellStmt, Spell, ParseBlock, SpellBlock, SpellCondition;
    match s {
      case Declare(_) => KeywordFound(s, rest);
      case Give(_) => KeywordFound(s, rest);
      case Show(_) => KeywordFound(s, rest);
      case Set(_, _, _) => SetFound(s, rest);
      case Do(value) =>
        DoFound(value, rest);
        SpellsDo(value, rest);
      case Repeat(condition, body) =>
        BlockFound(body, rest);
        RepeatFound(condition, body, rest);
      case Choose(condition, thenBody, otherwise) =>
        if otherwise.Nothing? {
          BlockFound(thenBody, rest);
        } else {
          BlockFound(thenBody, [T.Else] + SpellBlock(otherwise.body, rest));
          BlockFound(otherwise.body, rest);
        }
        ChooseFound(condition, thenBody, otherwise, rest);
    }
  }

  lemma SpellsDo(f: Form, rest: seq<Token>)
    ensures SpellStmt(Do(f), rest) == Spell(f, [T.Semicolon] + rest)
  {
  }

  lemma RepeatFound(condition: Form, body: seq<StmtForm>, rest: seq<Token>)
    requires Fits(condition) && ParseBlock(SpellBlock(body, rest)) == Parsed(BlockMeaning(body), rest)
    ensures ParseStmt(SpellStmt(Repeat(condition, body), rest)) == Parsed(StmtMeaning(Repeat(condition, body)), rest)
  {
    hide ParseBlock, ParseCondition, SpellCondition, SpellBlock;
    ConditionFound(T.While, condition, SpellBlock(body, rest));
    Front(T.While, SpellCondition(condition, SpellBlock(body, rest)));
  }

  lemma ChooseFound(condition: Form, thenBody: seq<StmtForm>, otherwise: Otherwise, rest: seq<Token>)
    requires Fits(condition) && (otherwise.Nothing? ==> Current(rest) != T.Else)
    requires
      var behind := if otherwise.Nothing? then rest else [T.Else] + SpellBlock(otherwise.body, rest);
      ParseBlock(SpellBlock(thenBody, behind)) == Parsed(BlockMeaning(thenBody), behind)
    requires otherwise.Instead? ==> ParseBlock(SpellBlock(otherwise.body, rest)) == Parsed(BlockMeaning(otherwise.body), rest)
    ensures ParseStmt(SpellStmt(Choose(condition, thenBody, otherwise), rest)) == Parsed(StmtMeaning(Choose(condition, thenBody, otherwise)), rest)
  {
    hide ParseBlock, ParseCondition, SpellCondition, SpellBlock;
    var behind := if otherwise.Nothing? then rest else [T.Else] + SpellBlock(otherwise.body, rest);
    ConditionFound(T.If, condition, SpellBlock(thenBody, behind));
    Front(T.If, SpellCondition(condition, SpellBlock(thenBody, behind)));
    if otherwise.Instead? {
      Front(T.Else, SpellBlock(otherwise.body, rest));
    }
  }

  lemma {:induction false} BlockFound(stmts: seq<StmtForm>, rest: seq<Token>)
    requires FitsBlock(stmts)
    ensures ParseBlock(SpellBlock(stmts, rest)) == Parsed(BlockMeaning(stmts), rest)
    decreases stmts, 2
  {
    hide ParseStmts, SpellStmts;
    Front(T.LBrace, SpellStmts(stmts, [T.RBrace] + rest));
    Front(T.RBrace, rest);
    StmtsFound(stmts, [T.RBrace] + rest);
  }

  lemma {:induction false} StmtsFound(stmts: seq<StmtForm>, rest: seq<Token>)
    requires FitsBlock(stmts) && Current(rest) == T.RBrace
    ensures ParseStmts(SpellStmts(stmts, rest)) == Parsed(BlockMeaning(stmts), rest)
    ensures Current(SpellStmts(stmts, rest)) != T.Else
    decreases stmts, 1
  {
    hide ParseStmt, SpellStmt;
    if stmts != [] {
      var behind := SpellStmts(stmts[1..], rest);
      StmtsFound(stmts[1..], rest);
      StmtFound(stmts[0], behind);
      StmtStarts(stmts[0], behind);
    }
  }

  // ---------------------------------------------------------------- what is found is written

  lemma SplitType(ts: seq<Token>)
    requires TypeOf(Current(ts)).Some?
    ensures ts == [P.TypeToken(TypeOf(Current(ts)).value)] + Tail(ts)
  {
    Split(ts);
  }

  lemma DeclRead(ts: seq<Token>) returns (d: DeclForm)
    requires ParseDeclaration(ts).Parsed?
    ensures var r := ParseDeclaration(ts);
      && FitsDecl(d) && ts == SpellDecl(d, r.rest) && r.value == Declared(d.ty, d.name, MeaningOf(d.init), d.size)
  {
    hide TypeOf, ParseDeclared, SpellDeclared, P.TypeToken, MeaningOf, FitsDecl;
    SplitType(ts);
    Split(Tail(ts));
    d := DeclaredRead(TypeOf(Current(ts)).value, Current(Tail(ts)).name, Tail(Tail(ts)));
  }

  lemma DeclaredRead(ty: Type, name: string, ts: seq<Token>) returns (d: DeclForm)
    requires ParseDeclared(ty, name, ts).Parsed?
    ensures var r := ParseDeclared(ty, name, ts);
      && FitsDecl(d) && d.ty == ty && d.name == name
      && ts == SpellDeclared(d, [T.Semicolon] + r.rest) && r.value == Declared(ty, name, MeaningOf(d.init), d.size)
  {
    hide ParseClosed, Spell;
    if Current(ts) == T.LBracket {
      Split(ts);
      Split(Tail(ts));
      SplitClosed(Tail(Tail(ts)), T.RBracket);
      var size := ParseSize(Tail(ts));
      SplitClosed(size.rest, T.Semicolon);
      d := DeclForm(ty, name, Some(size.value), None);
    } else if Current(ts) == T.Assign {
      Split(ts);
      var init := ClosedRead(Tail(ts), T.Semicolon);
      d := DeclForm(ty, name, None, Some(init));
    } else {
      SplitClosed(ts, T.Semicolon);
      d := DeclForm(ty, name, None, None);
    }
  }

  lemma ConditionRead(ts: seq<Token>) returns (f: Form)
    requires Current(ts) != T.Eof && ParseCondition(ts).Parsed?
    ensures var r := ParseCondition(ts); Fits(f) && Meaning(f) == r.value && ts == [Current(ts)] + SpellCondition(f, r.rest)
  {
    hide ParseClosed, Spell;
    Split(ts);
    SplitClosed(Tail(ts), T.LParen);
    f := ClosedRead(Expect(Tail(ts), T.LParen).value, T.RParen);
  }

  lemma AssignmentRead(ts: seq<Token>) returns (s: StmtForm)
    requires ParseAssignment(ts).Parsed?
    ensures var r := ParseAssignment(ts); FitsStmt(s) && StmtMeaning(s) == r.value && ts == SpellStmt(s, r.rest)
  {
    hide ParseClosed, Spell;
    var name, behind := Current(ts).name, Tail(ts);
    Split(ts);
    if Current(behind) == T.LBracket {
      Split(behind);
      var index := ClosedRead(Tail(behind), T.RBracket);
      var sign := ParseClosed(Tail(behind), T.RBracket).rest;
      SplitClosed(sign, T.Assign);
      var value := ClosedRead(Expect(sign, T.Assign).value, T.Semicolon);
      s := Set(name, Some(index), value);
    } else {
      SplitClosed(behind, T.Assign);
      var value := ClosedRead(Expect(behind, T.Assign).value, T.Semicolon);
      s := Set(name, None, value);
    }
  }

  predicate ReadsStmt(s: StmtForm, ts: seq<Token>, r: Parsed<Stmt>) {
    r.Parsed? && FitsStmt(s) && StmtMeaning(s) == r.value && ts == SpellStmt(s, r.rest)
  }

  predicate ReadsStmts(stmts: seq<StmtForm>, ts: seq<Token>, rest: seq<Token>, r: Parsed<seq<Stmt>>) {
    r.Parsed? && FitsBlock(stmts) && BlockMeaning(stmts) == r.value && ts == SpellStmts(stmts, rest)
  }

  /** The statements that are neither conditionals nor loops. */
  lemma SimpleRead(ts: seq<Token>) returns (s: StmtForm)
    requires ParseStmt(ts).Parsed? && Current(ts) != T.If && Current(ts) != T.While
    ensures ReadsStmt(s, ts, ParseStmt(ts))
  {
    hide ParseClosed, ParseBlock, ParseDeclaration, ParseAssignment, IsAssignmentStart, Spell, SpellDecl, FitsDecl, MeaningOf;
    match Current(ts) {
      case IntType =>
        var d := DeclRead(ts);
        s := Declare(d);
      case BoolType =>
        var d := DeclRead(ts);
        s := Declare(d);
      case Return =>
        Split(ts);
        var value := ClosedRead(Tail(ts), T.Semicolon);
        s := Give(value);
      case Print =>
        Split(ts);
        var value := ClosedRead(Tail(ts), T.Semicolon);
        s := Show(value);
      case _ =>
        if IsAssignmentStart(ts) {
          s := AssignmentRead(ts);
        } else {
          var value := ClosedRead(ts, T.Semicolon);
          s := Do(value);
        }
    }
  }

  lemma {:induction false} StmtRead(ts: seq<Token>) returns (s: StmtForm)
    requires ParseStmt(ts).Parsed?
    ensures ReadsStmt(s, ts, ParseStmt(ts))
    decreases |ts|, 0
  {
    hide ParseBlock, SpellBlock, SpellCondition, ParseCondition, ReadsStmt;
    if Current(ts) == T.If {
      var condition := ConditionRead(ts);
      var thenBody := BlockRead(ParseCondition(ts).rest);
      var behind := ParseBlock(ParseCondition(ts).rest).rest;
      if Current(behind) == T.Else {
        var elseBody := BlockRead(Tail(behind));
        Split(behind);
        s := Choose(condition, thenBody, Instead(elseBody));
      } else {
        s := Choose(condition, thenBody, Nothing);
      }
      ChooseReads(ts, s);
    } else if Current(ts) == T.While {
      var condition := ConditionRead(ts);
      var body := BlockRead(ParseCondition(ts).rest);
      s := Repeat(condition, body);
      RepeatReads(ts, s);
    } else {
      s := SimpleRead(ts);
    }
  }

  predicate ReadsBlock(stmts: seq<StmtForm>, ts: seq<Token>) {
    var r := ParseBlock(ts);
    r.Parsed? && FitsBlock(stmts) && BlockMeaning(stmts) == r.value && ts == SpellBlock(stmts, r.rest)
  }

  predicate ReadsCondition(f: Form, keyword: Token, ts: seq<Token>) {
    var r := ParseCondition(ts);
    r.Parsed? && Fits(f) && Meaning(f) == r.value && ts == [keyword] + SpellCondition(f, r.rest)
  }

  lemma RepeatReads(ts: seq<Token>, s: StmtForm)
    requires Current(ts) == T.While && ParseStmt(ts).Parsed? && s.Repeat?
    requires ReadsCondition(s.condition, T.While, ts) && ReadsBlock(s.body, ParseCondition(ts).rest)
    ensures ReadsStmt(s, ts, ParseStmt(ts))
  {
    hide ParseBlock, SpellBlock, SpellCondition, ParseCondition;
  }

  lemma ChooseReads(ts: seq<Token>, s: StmtForm)
    requires Current(ts) == T.If && ParseStmt(ts).Parsed? && s.Choose?
    requires ReadsCondition(s.condition, T.If, ts) && ReadsBlock(s.thenBody, ParseCondition(ts).rest)
    requires var behind := ParseBlock(ParseCondition(ts).rest).rest;
      if Current(behind) == T.Else then s.otherwise.Instead? && ReadsBlock(s.otherwise.body, Tail(behind)) && behind == [T.Else] + Tail(behind)
      else s.otherwise.Nothing?
    ensures ReadsStmt(s, ts, ParseStmt(ts))
  {
    hide ParseBlock, SpellBlock, SpellCondition, ParseCondition;
  }

  lemma {:induction false} BlockRead(ts: seq<Token>) returns (stmts: seq<StmtForm>)
    requires ParseBlock(ts).Parsed?
    ensures ReadsBlock(stmts, ts)
    decreases |ts|, 2
  {
    hide ParseStmts, SpellStmts;
    SplitClosed(ts, T.LBrace);
    var inner := Expect(ts, T.LBrace).value;
    stmts := StmtsRead(inner);
    SplitClosed(ParseStmts(inner).rest, T.RBrace);
  }

  lemma {:induction false} StmtsRead(ts: seq<Token>) returns (stmts: seq<StmtForm>)
    requires ParseStmts(ts).Parsed?
    ensures ReadsStmts(stmts, ts, ParseStmts(ts).rest, ParseStmts(ts))
    decreases |ts|, 1
  {
    hide ParseStmt, SpellStmt;
    if Current(ts) == T.RBrace || Current(ts) == T.Eof {
      stmts := [];
    } else {
      var s := StmtRead(ts);
      var more := StmtsRead(ParseStmt(ts).rest);
      stmts := [s] + more;
      assert stmts[1..] == more;
    }
  }

  // ---------------------------------------------------------------- programs

  lemma {:induction false} ParamListFound(params: seq<Param>, rest: seq<Token>)
    requires params != []
    ensures ParseParamList(SpellParams(params, [T.RParen] + rest)) == Parsed(params, [T.RParen] + rest)
    ensures Current(SpellParams(params, [T.RParen] + rest)) != T.RParen
  {
    hide ParseParam, SpellParam;
    var behind := if |params| == 1 then [T.RParen] + rest else [T.Comma] + SpellParams(params[1..], [T.RParen] + rest);
    ParamFound(params[0], behind);
    if |params| > 1 {
      ParamListFound(params[1..], rest);
      Front(T.Comma, SpellParams(params[1..], [T.RParen] + rest));
      assert [params[0]] + params[1..] == params;
    } else {
      assert params == [params[0]];
    }
  }

  lemma ParamFound(p: Param, rest: seq<Token>)
    ensures ParseParam(SpellParam(p, rest)) == Parsed(p, rest)
    ensures Current(SpellParam(p, rest)) != T.RParen
  {
    TypeFound(p.paramType);
    Front(P.TypeToken(p.paramType), [T.Identifier(p.name)] + rest);
    Front(T.Identifier(p.name), rest);
  }

  lemma RoutineFound(item: Item, rest: seq<Token>)
    requires item.Routine? && FitsItem(item)
    ensures ParseFunction(SpellItem(item, rest)) == Parsed(Function(item.name, item.params, BlockMeaning(item.body)), rest)
  {
    hide ParseBlock, SpellBlock, ParseParamList, SpellParams;
    var body := SpellBlock(item.body, rest);
    var params := SpellParams(item.params, [T.RParen] + body);
    Front(T.Func, [T.Identifier(item.name)] + ([T.LParen] + params));
    Front(T.Identifier(item.name), [T.LParen] + params);
    BlockFound(item.body, rest);
    ParamsFound(item.params, body);
  }

  lemma ParamsFound(params: seq<Param>, rest: seq<Token>)
    ensures ParseParams([T.LParen] + SpellParams(params, [T.RParen] + rest)) == Parsed(params, rest)
  {
    hide ParseParamList;
    Front(T.LParen, SpellParams(params, [T.RParen] + rest));
    Front(T.RParen, rest);
    if params != [] {
      ParamListFound(params, rest);
    }
  }

  lemma {:induction false} ItemsFound(items: seq<Item>, rest: seq<Token>)
    requires FitsItems(items) && Current(rest) == T.Eof
    ensures ParseProgram(SpellItems(items, rest)) == Some(ItemsMeaning(items))
    decreases |items|
  {
    hide ParseFunction, ParseDeclaration, SpellItem;
    if items != [] {
      var behind := SpellItems(items[1..], rest);
      ItemsFound(items[1..], rest);
      ItemStarts(items[0], behind);
      assert FitsItem(items[0]);
      if items[0].Variable? {
        DeclFound(items[0].decl, behind);
      } else {
        RoutineFound(items[0], behind);
      }
    }
  }

  lemma ItemStarts(item: Item, rest: seq<Token>)
    ensures item.Routine? ==> Current(SpellItem(item, rest)) == T.Func
    ensures item.Variable? ==> SpellItem(item, rest) == SpellDecl(item.decl, rest) && Current(SpellItem(item, rest)) == P.TypeToken(item.decl.ty)
  {
    hide SpellDeclared, SpellBlock, SpellParams;
  }

  lemma {:induction false} ParamListRead(ts: seq<Token>)
    requires ParseParamList(ts).Parsed?
    ensures var r := ParseParamList(ts); r.value != [] && ts == SpellParams(r.value, r.rest)
    decreases |ts|
  {
    hide TypeOf, P.TypeToken;
    SplitType(ts);
    Split(Tail(ts));
    var param := ParseParam(ts);
    if Current(param.rest) == T.Comma {
      Split(param.rest);
      ParamListRead(Tail(param.rest));
      var more := ParseParamList(Tail(param.rest)).value;
      assert ([param.value] + more)[1..] == more;
    }
  }

  lemma ParamsRead(ts: seq<Token>)
    requires ParseParams(ts).Parsed?
    ensures var r := ParseParams(ts); ts == [T.LParen] + SpellParams(r.value, [T.RParen] + r.rest)
  {
    hide ParseParamList;
    SplitClosed(ts, T.LParen);
    var open := Expect(ts, T.LParen).value;
    if Current(open) == T.RParen {
      SplitClosed(open, T.RParen);
    } else {
      ParamListRead(open);
      SplitClosed(ParseParamList(open).rest, T.RParen);
    }
  }

  lemma RoutineRead(ts: seq<Token>) returns (item: Item)
    requires ParseFunction(ts).Parsed?
    ensures var r := ParseFunction(ts);
      && item.Routine? && FitsItem(item) && ts == SpellItem(item, r.rest)
      && r.value == Function(item.name, item.params, BlockMeaning(item.body))
  {
    hide ParseParams, ParseBlock, SpellParams, SpellBlock;
    Split(ts);
    Split(Tail(ts));
    ParamsRead(Tail(Tail(ts)));
    var params := ParseParams(Tail(Tail(ts)));
    var body := BlockRead(params.rest);
    item := Routine(Current(Tail(ts)).name, params.value, body);
  }

  lemma {:induction false} ItemsRead(ts: seq<Token>) returns (items: seq<Item>, rest: seq<Token>)
    requires ParseProgram(ts).Some?
    ensures FitsItems(items) && ItemsMeaning(items) == ParseProgram(ts).value
    ensures ts == SpellItems(items, rest) && Current(rest) == T.Eof
    decreases |ts|
  {
    hide ParseFunction, ParseDeclaration, SpellItem, FitsItem, MeaningOf;
    if Current(ts) == T.Eof {
      items, rest := [], ts;
    } else {
      var item, more;
      if Current(ts) == T.Func {
        item := RoutineRead(ts);
        more, rest := ItemsRead(ParseFunction(ts).rest);
      } else {
        var d := DeclRead(ts);
        item := Variable(d);
        DeclItem(d, ParseDeclaration(ts).rest);
        more, rest := ItemsRead(ParseDeclaration(ts).rest);
      }
      items := [item] + more;
      assert items[1..] == more;
    }
  }

  lemma DeclItem(d: DeclForm, rest: seq<Token>)
    ensures SpellItem(Variable(d), rest) == SpellDecl(d, rest) && FitsItem(Variable(d)) == FitsDecl(d)
  {
  }

  // ---------------------------------------------------------------- the parser

  /** The tokens are those of some tree of the program, in front of an end mark. */
  ghost predicate Written(ts: seq<Token>, p: Program) {
    exists items, rest :: FitsItems(items) && ItemsMeaning(items) == p && ts == SpellItems(items, rest) && Current(rest) == T.Eof
  }

  /** The parser accepts exactly the tokens of the grammar's trees in front of an end mark, and gives their meaning. */
  lemma ProgramsAreExact(ts: seq<Token>, p: Program)
    ensures ParseProgram(ts) == Some(p) <==> Written(ts, p)
  {
    hide ParseProgram, FitsItems, ItemsMeaning, SpellItems;
    if ParseProgram(ts) == Some(p) {
      var items, rest := ItemsRead(ts);
    }
    if Written(ts, p) {
      var items, rest :| FitsItems(items) && ItemsMeaning(items) == p && ts == SpellItems(items, rest) && Current(rest) == T.Eof;
      ItemsFound(items, rest);
    }
  }

  /** The grammar is unambiguous: trees that are written alike stand for the same program. */
  lemma WrittenAlikeMeansAlike(items: seq<Item>, items': seq<Item>)
    requires FitsItems(items) && FitsItems(items') && SpellItems(items, [T.Eof]) == SpellItems(items', [T.Eof])
    ensures ItemsMeaning(items) == ItemsMeaning(items')
  {
    hide FitsItems, ItemsMeaning, SpellItems;
    ItemsFound(items, [T.Eof]);
    ItemsFound(items', [T.Eof]);
  }
}
