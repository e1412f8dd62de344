/**
 * The grammar of expressions as trees of their own: how strongly each operator binds, where parentheses stand, and which
 * tokens a tree spells. The parser finds exactly the trees of this grammar.
 */
module Grammar {
  import opened Common
  import opened Int32
  import opened Ast
  import opened Parsing
  import T = Tokens
  import P = Printing

  // ---------------------------------------------------------------- trees

  // An expression as it is written: with its parentheses.
  datatype Form =
    | Number(value: I32)
    | Truth(flag: bool)
    | Name(name: string)
    | Infix(op: BinaryOp, left: Form, right: Form)
    | Prefix(sign: UnaryOp, operand: Form)
    | Group(inner: Form)
    | Invoke(callee: string, args: seq<Form>)
    | Element(arrayName: string, index: Form)

  /** How strongly a binary operator binds its operands. */
  function Strength(op: BinaryOp): (s: nat)
    ensures 0 < s < PREFIXED
  {
    match op
    case Or => 1
    case And => 2
    case Eq => 3
    case Ne => 3
    case Lt => 4
    case Gt => 4
    case Le => 4
    case Ge => 4
    case Add => 5
    case Sub => 5
    case Mul => 6
    case Div => 6
  }

  // What binds more strongly than any binary operator.
  const PREFIXED: nat := 7

  function Binding(f: Form): nat {
    match f
    case Infix(op, _, _) => Strength(op)
    case Prefix(_, _) => PREFIXED
    case _ => PREFIXED + 1
  }

  /**
   * Operands bind at least as strongly as their operator, and right operands of binary operators more strongly:
   * equally strong operators group to the left.
   */
  predicate Fits(f: Form) {
    match f
    case Number(_) => true
    case Truth(_) => true
    case Name(_) => true
    case Infix(op, left, right) => Fits(left) && Fits(right) && Strength(op) <= Binding(left) && Strength(op) < Binding(right)
    case Prefix(_, operand) => Fits(operand) && PREFIXED <= Binding(operand)
    case Group(inner) => Fits(inner)
    case Invoke(_, args) => forall a <- args :: Fits(a)
    case Element(_, index) => Fits(index)
  }

  /** The expression a tree stands for. */
  function Meaning(f: Form): Expr {
    match f
    case Number(v) => IntLiteral(v)
    case Truth(b) => BoolLiteral(b)
    case Name(name) => Identifier(name)
    case Infix(op, left, right) => Binary(op, Meaning(left), Meaning(right))
    case Prefix(sign, operand) => Unary(sign, Meaning(operand))
    case Group(inner) => Meaning(inner)
    case Invoke(name, args) => Call(name, Meanings(args))
    case Element(name, index) => ArrayIndex(name, Meaning(index))
  }

  function Meanings(args: seq<Form>): seq<Expr> {
    if args == [] then [] else [Meaning(args[0])] + Meanings(args[1..])
  }

  function SignToken(sign: UnaryOp): Token {
    if sign == UnaryOp.Neg then T.Minus else T.Not
  }

  /** The tokens of a tree in front of others. */
  function Spell(f: Form, rest: seq<Token>): seq<Token>
    decreases f, 0
  {
    match f
    case Number(v) => [T.IntLiteral(v)] + rest
    case Truth(b) => [T.BoolLiteral(b)] + rest
    case Name(name) => [T.Identifier(name)] + rest
    case Infix(op, left, right) => Spell(left, [P.BinaryToken(op)] + Spell(right, rest))
    case Prefix(sign, operand) => [SignToken(sign)] + Spell(operand, rest)
    case Group(inner) => [T.LParen] + Spell(inner, [T.RParen] + rest)
    case Invoke(name, args) => [T.Identifier(name)] + ([T.LParen] + SpellArgs(args, [T.RParen] + rest))
    case Element(name, index) => [T.Identifier(name)] + ([T.LBracket] + Spell(index, [T.RBracket] + rest))
  }

  function SpellArgs(args: seq<Form>, rest: seq<Token>): seq<Token>
    decreases args, 0
  {
    if args == [] then rest
    else if |args| == 1 then Spell(args[0], rest)
    else Spell(args[0], [T.Comma] + SpellArgs(args[1..], rest))
  }

  // ---------------------------------------------------------------- where a tree ends

  predicate EndsInName(f: Form) {
    match f
    case Name(_) => true
    case Infix(_, _, right) => EndsInName(right)
    case Prefix(_, operand) => EndsInName(operand)
    case _ => false
  }

  /** No operator of this strength or more follows. */
  predicate NoOperator(strength: nat, rest: seq<Token>) {
    forall op: BinaryOp :: Current(rest) == P.BinaryToken(op) ==> Strength(op) < strength
  }

  predicate NoBracket(rest: seq<Token>) {
    Current(rest) != T.LParen && Current(rest) != T.LBracket
  }

  /** What follows does not continue the tree. */
  predicate Stops(f: Form, strength: nat, rest: seq<Token>) {
    NoOperator(strength, rest) && (EndsInName(f) ==> NoBracket(rest))
  }

  lemma Front(t: Token, rest: seq<Token>)
    ensures Current([t] + rest) == t && Tail([t] + rest) == rest
  {
  }

  /** A level of the parser takes the operators of one strength. */
  lemma OpOfStrength(level: nat, token: Token, op: BinaryOp)
    ensures OpAt(level, token) == Some(op) <==> token == P.BinaryToken(op) && Strength(op) == level + 1
  {
  }

  lemma OperatorAlone(op: BinaryOp, rest: seq<Token>, strength: nat)
    requires Strength(op) < strength
    ensures NoOperator(strength, [P.BinaryToken(op)] + rest) && NoBracket([P.BinaryToken(op)] + rest)
  {
  }

  // ---------------------------------------------------------------- what is written is found

  /** An operand of a level, and what the level makes of it. */
  lemma {:induction false} LevelBegins(level: nat, f: Form, rest: seq<Token>)
    requires level < LEVELS && Fits(f) && level + 1 <= Binding(f) && Stops(f, level + 2, rest)
    ensures ParseLevel(level, Spell(f, rest)) == ParseMore(level, Meaning(f), rest)
    decreases f, LEVELS + 1 - level, 0
  {
    hide ParseUnary, P.BinaryToken, OpAt, Stops;
    if Binding(f) > level + 1 {
      LevelFound(level + 1, f, rest);
    } else {
      var op, left, right := f.op, f.left, f.right;
      var behind := Spell(right, rest);
      var ts := [P.BinaryToken(op)] + behind;
      Front(P.BinaryToken(op), behind);
      StopsAtOperator(f, rest);
      LevelBegins(level, left, ts);
      LevelFound(level + 1, right, rest);
      OpOfStrength(level, P.BinaryToken(op), op);
    }
  }

  lemma StopsAtOperator(f: Form, rest: seq<Token>)
    requires f.Infix? && Fits(f) && Stops(f, Strength(f.op) + 1, rest)
    ensures Stops(f.left, Strength(f.op) + 1, [P.BinaryToken(f.op)] + Spell(f.right, rest))
    ensures Stops(f.right, Strength(f.op) + 1, rest)
  {
    hide Spell;
    OperatorAlone(f.op, Spell(f.right, rest), Strength(f.op) + 1);
  }

  lemma {:induction false} LevelFound(level: nat, f: Form, rest: seq<Token>)
    requires level <= LEVELS && Fits(f) && level + 1 <= Binding(f) && Stops(f, level + 1, rest)
    ensures ParseLevel(level, Spell(f, rest)) == Parsed(Meaning(f), rest)
    decreases f, LEVELS + 1 - level, 1
  {
    hide ParseUnary, P.BinaryToken, OpAt, Spell;
    if level == LEVELS {
      UnaryFound(f, rest);
    } else {
      LevelBegins(level, f, rest);
      if OpAt(level, Current(rest)).Some? {
        OpOfStrength(level, Current(rest), OpAt(level, Current(rest)).value);
      }
    }
  }

  lemma {:induction false} UnaryFound(f: Form, rest: seq<Token>)
    requires Fits(f) && PREFIXED <= Binding(f) && (EndsInName(f) ==> NoBracket(rest))
    ensures ParseUnary(Spell(f, rest)) == Parsed(Meaning(f), rest)
    decreases f, 0, 0
  {
    hide ParseExpr, ParseUnary, ParseNamed, ParseClosed, ParseArgs, Meanings, SpellArgs;
    match f {
      case Number(v) => LiteralAt(T.IntLiteral(v), rest);
      case Truth(b) => LiteralAt(T.BoolLiteral(b), rest);
      case Name(name) =>
        NamedAt(name, rest);
        NameFound(name, rest);
      case Prefix(sign, operand) =>
        UnaryFound(operand, rest);
        PrefixAt(sign, Spell(operand, rest));
      case Group(inner) =>
        ClosedFound(inner, T.RParen, rest);
        GroupAt(Spell(inner, [T.RParen] + rest));
      case Invoke(name, args) =>
        var behind := SpellArgs(args, [T.RParen] + rest);
        NamedAt(name, [T.LParen] + behind);
        ArgsFound(args, rest);
        InvokeFound(name, behind, Meanings(args), rest);
      case Element(name, index) =>
        var behind := Spell(index, [T.RBracket] + rest);
        NamedAt(name, [T.LBracket] + behind);
        ClosedFound(index, T.RBracket, rest);
        ElementFound(name, behind, Meaning(index), rest);
    }
  }

  lemma LiteralAt(t: Token, rest: seq<Token>)
    ensures t.IntLiteral? ==> ParseUnary([t] + rest) == Parsed(IntLiteral(t.value), rest)
    ensures t.BoolLiteral? ==> ParseUnary([t] + rest) == Parsed(BoolLiteral(t.flag), rest)
  {
    hide ParseNamed, ParseClosed;
    Front(t, rest);
  }

  lemma NamedAt(name: string, rest: seq<Token>)
    ensures ParseUnary([T.Identifier(name)] + rest) == ParseNamed(name, rest)
  {
    hide ParseNamed, ParseClosed;
    Front(T.Identifier(name), rest);
  }

  lemma GroupAt(rest: seq<Token>)
    ensures ParseUnary([T.LParen] + rest) == ParseClosed(rest, T.RParen)
  {
    hide ParseNamed, ParseClosed;
    Front(T.LParen, rest);
  }

  lemma PrefixAt(sign: UnaryOp, rest: seq<Token>)
    ensures var r := ParseUnary(rest);
      ParseUnary([SignToken(sign)] + rest) == if r.NoParse? then NoParse else Parsed(Unary(sign, r.value), r.rest)
  {
    hide ParsePrimary;
    Front(SignToken(sign), rest);
  }

  lemma NameFound(name: string, rest: seq<Token>)
    requires NoBracket(rest)
    ensures ParseNamed(name, rest) == Parsed(Identifier(name), rest)
  {
  }

  lemma InvokeFound(name: string, ts: seq<Token>, args: seq<Expr>, rest: seq<Token>)
    requires ParseArgs(ts) == Parsed(args, [T.RParen] + rest)
    ensures ParseNamed(name, [T.LParen] + ts) == Parsed(Call(name, args), rest)
  {
    hide ParseArgs, ParseClosed;
    Front(T.LParen, ts);
    Front(T.RParen, rest);
  }

  lemma ElementFound(name: string, ts: seq<Token>, index: Expr, rest: seq<Token>)
    requires ParseClosed(ts, T.RBracket) == Parsed(index, rest)
    ensures ParseNamed(name, [T.LBracket] + ts) == Parsed(ArrayIndex(name, index), rest)
  {
    hide ParseArgs, ParseClosed;
    Front(T.LBracket, ts);
  }

  predicate Closes(t: Token) {
    t in {T.RParen, T.RBracket, T.Comma, T.Semicolon}
  }

  lemma ClosingStops(f: Form, close: Token, rest: seq<Token>)
    requires Closes(close)
    ensures Stops(f, 1, [close] + rest)
  {
  }

  lemma {:induction false} ExprFound(f: Form, rest: seq<Token>)
    requires Fits(f) && Stops(f, 1, rest)
    ensures ParseExpr(Spell(f, rest)) == Parsed(Meaning(f), rest)
    decreases f, LEVELS + 2, 0
  {
    hide ParseLevel, Spell;
    assert Binding(f) >= 1;
    LevelFound(0, f, rest);
  }

  lemma {:induction false} ClosedFound(f: Form, close: Token, rest: seq<Token>)
    requires Fits(f) && Closes(close)
    ensures ParseClosed(Spell(f, [close] + rest), close) == Parsed(Meaning(f), rest)
    decreases f, LEVELS + 3, 0
  {
    hide ParseExpr, Spell;
    ClosingStops(f, close, rest);
    ExprFound(f, [close] + rest);
    Front(close, rest);
  }

  predicate Starts(t: Token) {
    t.IntLiteral? || t.BoolLiteral? || t.Identifier? || t == T.Minus || t == T.Not || t == T.LParen
  }

  lemma {:induction false} SpellStarts(f: Form, rest: seq<Token>)
    ensures Spell(f, rest) != [] && Starts(Spell(f, rest)[0])
  {
    if f.Infix? {
      SpellStarts(f.left, [P.BinaryToken(f.op)] + Spell(f.right, rest));
    }
  }

  lemma {:induction false} ArgsFound(args: seq<Form>, rest: seq<Token>)
    requires forall a <- args :: Fits(a)
    ensures ParseArgs(SpellArgs(args, [T.RParen] + rest)) == Parsed(Meanings(args), [T.RParen] + rest)
    decreases args, LEVELS + 4, 1
  {
    hide ParseArgList, Spell;
    var behind := [T.RParen] + rest;
    if args != [] {
      SpellStarts(args[0], if |args| == 1 then behind else [T.Comma] + SpellArgs(args[1..], behind));
      ArgListFound(args, rest);
    }
  }

  lemma {:induction false} ArgListFound(args: seq<Form>, rest: seq<Token>)
    requires args != [] && forall a <- args :: Fits(a)
    ensures ParseArgList(SpellArgs(args, [T.RParen] + rest)) == Parsed(Meanings(args), [T.RParen] + rest)
    decreases args, LEVELS + 4, 0
  {
    hide ParseExpr, Spell;
    var behind := [T.RParen] + rest;
    if |args| == 1 {
      ClosingStops(args[0], T.RParen, rest);
      ExprFound(args[0], behind);
      assert Meanings(args) == [Meaning(args[0])];
    } else {
      var more := SpellArgs(args[1..], behind);
      ClosingStops(args[0], T.Comma, more);
      ExprFound(args[0], [T.Comma] + more);
      Front(T.Comma, more);
      ArgListFound(args[1..], rest);
    }
  }

  // ---------------------------------------------------------------- what is found is written

  /** A parser's answer is the meaning of a tree that spells the tokens taken. */
  predicate Reads(f: Form, strength: nat, ts: seq<Token>, r: Parsed<Expr>) {
    && r.Parsed? && Fits(f) && strength <= Binding(f) && Meaning(f) == r.value
    && ts == Spell(f, r.rest) && Stops(f, strength, r.rest)
  }

  lemma Split(ts: seq<Token>)
    requires Current(ts) != T.Eof
    ensures ts == [Current(ts)] + Tail(ts)
  {
  }

  lemma {:induction false} ExprRead(ts: seq<Token>) returns (f: Form)
    requires ParseExpr(ts).Parsed?
    ensures Reads(f, 1, ts, ParseExpr(ts))
    decreases |ts|, LEVELS + 4
  {
    hide ParseLevel, Reads;
    f := LevelRead(0, ts);
  }

  lemma {:induction false} LevelRead(level: nat, ts: seq<Token>) returns (f: Form)
    requires level <= LEVELS && ParseLevel(level, ts).Parsed?
    ensures Reads(f, level + 1, ts, ParseLevel(level, ts))
    decreases |ts|, LEVELS + 3 - level
  {
    hide ParseUnary, ParseMore, Spell;
    if level == LEVELS {
      f := UnaryRead(ts);
    } else {
      var left := LevelRead(level + 1, ts);
      f := MoreRead(level, left, ts, ParseLevel(level + 1, ts).rest);
    }
  }

  /** Further operands, behind those read so far. */
  lemma {:induction false} MoreRead(level: nat, left: Form, ts: seq<Token>, behind: seq<Token>) returns (f: Form)
    requires level < LEVELS && ParseMore(level, Meaning(left), behind).Parsed?
    requires Fits(left) && level + 1 <= Binding(left) && ts == Spell(left, behind) && Stops(left, level + 2, behind)
    ensures Reads(f, level + 1, ts, ParseMore(level, Meaning(left), behind))
    decreases |behind|, 0
  {
    hide ParseLevel, Spell, OpAt, P.BinaryToken;
    var op := OpAt(level, Current(behind));
    if op.None? {
      f := left;
      NoneAtLevel(level, left, behind);
    } else {
      OpOfStrength(level, Current(behind), op.value);
      SplitOperator(op.value, behind);
      var right := LevelRead(level + 1, Tail(behind));
      var rest := ParseLevel(level + 1, Tail(behind)).rest;
      InfixSpells(op.value, left, right, rest);
      f := MoreRead(level, Infix(op.value, left, right), ts, rest);
    }
  }

  lemma NoneAtLevel(level: nat, f: Form, rest: seq<Token>)
    requires OpAt(level, Current(rest)).None? && Stops(f, level + 2, rest)
    ensures Stops(f, level + 1, rest)
  {
    hide OpAt;
    forall op: BinaryOp | Current(rest) == P.BinaryToken(op) ensures Strength(op) < level + 1 {
      OpOfStrength(level, Current(rest), op);
    }
  }

  lemma SplitOperator(op: BinaryOp, ts: seq<Token>)
    requires Current(ts) == P.BinaryToken(op)
    ensures ts == [P.BinaryToken(op)] + Tail(ts)
  {
    Split(ts);
  }

  lemma InfixSpells(op: BinaryOp, left: Form, right: Form, rest: seq<Token>)
    ensures Spell(Infix(op, left, right), rest) == Spell(left, [P.BinaryToken(op)] + Spell(right, rest))
    ensures EndsInName(Infix(op, left, right)) == EndsInName(right)
  {
  }

  lemma {:induction false} UnaryRead(ts: seq<Token>) returns (f: Form)
    requires ParseUnary(ts).Parsed?
    ensures Reads(f, PREFIXED, ts, ParseUnary(ts))
    decreases |ts|, 2
  {
    hide ParsePrimary;
    if Current(ts) == T.Minus || Current(ts) == T.Not {
      var operand := UnaryRead(Tail(ts));
      Split(ts);
      f := Prefix(if Current(ts) == T.Minus then UnaryOp.Neg else UnaryOp.Not, operand);
    } else {
      f := PrimaryRead(ts);
    }
  }

  lemma {:induction false} PrimaryRead(ts: seq<Token>) returns (f: Form)
    requires ParsePrimary(ts).Parsed?
    ensures Reads(f, PREFIXED, ts, ParsePrimary(ts))
    decreases |ts|, 1
  {
    hide ParseNamed, ParseClosed;
    Split(ts);
    match Current(ts) {
      case IntLiteral(v) => f := Number(v);
      case BoolLiteral(b) => f := Truth(b);
      case Identifier(name) => f := NamedRead(name, Tail(ts));
      case LParen =>
        var inner := ClosedRead(Tail(ts), T.RParen);
        f := Group(inner);
      case _ =>
    }
  }

  predicate AllFit(args: seq<Form>) {
    forall a <- args :: Fits(a)
  }

  lemma SplitClosed(ts: seq<Token>, close: Token)
    requires Expect(ts, close).Some?
    ensures ts == [close] + Expect(ts, close).value
  {
  }

  lemma {:induction false} ClosedRead(ts: seq<Token>, close: Token) returns (f: Form)
    requires ParseClosed(ts, close).Parsed?
    ensures var r := ParseClosed(ts, close); Fits(f) && Meaning(f) == r.value && ts == Spell(f, [close] + r.rest)
    decreases |ts|, LEVELS + 5
  {
    hide ParseExpr, Spell;
    f := ExprRead(ts);
    SplitClosed(ParseExpr(ts).rest, close);
  }

  lemma {:induction false} NamedRead(name: string, ts: seq<Token>) returns (f: Form)
    requires ParseNamed(name, ts).Parsed?
    ensures Reads(f, PREFIXED, [T.Identifier(name)] + ts, ParseNamed(name, ts))
    decreases |ts|, LEVELS + 6
  {
    hide ParseArgs, ParseClosed, Meanings, SpellArgs;
    if Current(ts) == T.LParen {
      var args := ArgsRead(Tail(ts));
      Split(ts);
      SplitClosed(ParseArgs(Tail(ts)).rest, T.RParen);
      f := Invoke(name, args);
    } else if Current(ts) == T.LBracket {
      var index := ClosedRead(Tail(ts), T.RBracket);
      Split(ts);
      f := Element(name, index);
    } else {
      f := Name(name);
    }
  }

  lemma {:induction false} ArgsRead(ts: seq<Token>) returns (args: seq<Form>)
    requires ParseArgs(ts).Parsed?
    ensures var r := ParseArgs(ts); AllFit(args) && Meanings(args) == r.value && ts == SpellArgs(args, r.rest)
    decreases |ts|, LEVELS + 6
  {
    hide ParseArgList;
    if Current(ts) == T.RParen {
      args := [];
    } else {
      args := ArgListRead(ts);
    }
  }

  lemma {:induction false} ArgListRead(ts: seq<Token>) returns (args: seq<Form>)
    requires ParseArgList(ts).Parsed?
    ensures var r := ParseArgList(ts); AllFit(args) && args != [] && Meanings(args) == r.value && ts == SpellArgs(args, r.rest)
    decreases |ts|, LEVELS + 5
  {
    hide ParseExpr, Spell, Reads;
    var f := ExprRead(ts);
    var r := ParseExpr(ts);
    ReadParts(f, 1, ts, r);
    if Current(r.rest) != T.Comma {
      args := [f];
      assert Meanings([f]) == [Meaning(f)];
    } else {
      var more := ArgListRead(Tail(r.rest));
      Split(r.rest);
      args := [f] + more;
      assert args[1..] == more;
    }
  }

  lemma ReadParts(f: Form, strength: nat, ts: seq<Token>, r: Parsed<Expr>)
    requires Reads(f, strength, ts, r)
    ensures Fits(f) && Meaning(f) == r.value && ts == Spell(f, r.rest)
  {
  }

  // ---------------------------------------------------------------- the parser of expressions

  /** The parser finds exactly the expressions of the grammar, each as far as it goes. */
  lemma ExpressionsAreExact(ts: seq<Token>, e: Expr, rest: seq<Token>)
    ensures ParseExpr(ts) == Parsed(e, rest) <==>
      exists f: Form :: Fits(f) && Meaning(f) == e && ts == Spell(f, rest) && Stops(f, 1, rest)
  {
    hide ParseExpr, Spell, Stops, Fits, Meaning;
    if ParseExpr(ts) == Parsed(e, rest) {
      var f := ExprRead(ts);
    }
    if exists f: Form :: Fits(f) && Meaning(f) == e && ts == Spell(f, rest) && Stops(f, 1, rest) {
      var f: Form :| Fits(f) && Meaning(f) == e && ts == Spell(f, rest) && Stops(f, 1, rest);
      ExprFound(f, rest);
    }
  }

  /** Of two operators in a row the stronger one takes the operand between them, and of equal ones the first. */
  lemma StrongerTakesTheOperand(op1: BinaryOp, op2: BinaryOp, a: Form, b: Form, c: Form, rest: seq<Token>)
    requires Fits(a) && Fits(b) && Fits(c) && PREFIXED <= Binding(a) && PREFIXED <= Binding(b) && PREFIXED <= Binding(c)
    requires Stops(c, 1, rest)
    ensures ParseExpr(Spell(a, [P.BinaryToken(op1)] + Spell(b, [P.BinaryToken(op2)] + Spell(c, rest)))) ==
      Parsed(if Strength(op1) < Strength(op2) then Binary(op1, Meaning(a), Binary(op2, Meaning(b), Meaning(c)))
             else Binary(op2, Binary(op1, Meaning(a), Meaning(b)), Meaning(c)), rest)
  {
    hide ParseExpr, P.BinaryToken;
    InfixSpells(op1, a, b, [P.BinaryToken(op2)] + Spell(c, rest));
    InfixSpells(op2, b, c, rest);
    if Strength(op1) < Strength(op2) {
      assert Binding(Infix(op2, b, c)) == Strength(op2) && EndsInName(Infix(op2, b, c)) == EndsInName(c);
      ExprFound(Infix(op1, a, Infix(op2, b, c)), rest);
    } else {
      ExprFound(Infix(op2, Infix(op1, a, b), c), rest);
    }
  }
}
