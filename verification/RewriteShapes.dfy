/**
 * What the fuzzer's rewrites change, and that they change it: every expression keeps its place in the program, each family
 * puts its operation around just the expressions it is for, and the rewrites of one place find the first there is.
 */
module RewriteShapes {
  import opened Common
  import opened Ast
  import opened Rewrites
  import Similar

  // ---------------------------------------------------------------- expressions and their places

  datatype Role =
    | Initial(ty: Type, sized: bool)
    | Index
    | Assigned(target: string)
    | Condition
    | Returned
    | Printed
    | Discarded

  // An expression of a statement, with what it is there for.
  datatype Placed = Placed(role: Role, e: Expr)

  /** The expressions of a statement, in the order of the text. */
  function PlacedIn(s: Stmt): seq<Placed>
    decreases s, 0
  {
    match s
    case VarDecl(ty, _, init, size) => if init.Some? then [Placed(Initial(ty, size.Some?), init.value)] else []
    case Assign(target, index, value) =>
      (if index.Some? then [Placed(Index, index.value)] else []) + [Placed(Assigned(target), value)]
    case If(condition, thenBody, elseBody) =>
      [Placed(Condition, condition)] + PlacedAll(thenBody) + (if elseBody.Else? then PlacedAll(elseBody.body) else [])
    case While(condition, body) => [Placed(Condition, condition)] + PlacedAll(body)
    case Return(value) => [Placed(Returned, value)]
    case Print(value) => [Placed(Printed, value)]
    case ExprStmt(e) => [Placed(Discarded, e)]
  }

  function PlacedAll(stmts: seq<Stmt>): seq<Placed>
    decreases stmts, 0
  {
    if stmts == [] then [] else PlacedIn(stmts[0]) + PlacedAll(stmts[1..])
  }

  const HOLE: Expr := IntLiteral(0)

  /** A statement with all its expressions taken out. */
  function Bare(s: Stmt): Stmt
    decreases s, 0
  {
    match s
    case VarDecl(ty, name, init, size) => VarDecl(ty, name, if init.Some? then Some(HOLE) else None, size)
    case Assign(target, index, _) => Assign(target, if index.Some? then Some(HOLE) else None, HOLE)
    case If(_, thenBody, elseBody) => If(HOLE, BareAll(thenBody), if elseBody.Else? then Else(BareAll(elseBody.body)) else NoElse)
    case While(_, body) => While(HOLE, BareAll(body))
    case Return(_) => Return(HOLE)
    case Print(_) => Stmt.Print(HOLE)
    case ExprStmt(_) => ExprStmt(HOLE)
  }

  function BareAll(stmts: seq<Stmt>): seq<Stmt>
    decreases stmts, 0
  {
    if stmts == [] then [] else [Bare(stmts[0])] + BareAll(stmts[1..])
  }

  /** The same places with the same roles, and each expression changed as its role demands. */
  ghost predicate Changed(rule: (Role, Expr, Expr) -> bool, before: seq<Placed>, after: seq<Placed>) {
    |after| == |before| && forall i :: 0 <= i < |before| ==> after[i].role == before[i].role && rule(before[i].role, before[i].e, after[i].e)
  }

  lemma ChangedBoth(rule: (Role, Expr, Expr) -> bool, a: seq<Placed>, a': seq<Placed>, b: seq<Placed>, b': seq<Placed>)
    requires Changed(rule, a, a') && Changed(rule, b, b')
    ensures Changed(rule, a + b, a' + b')
  {
  }

  lemma ChangedOne(rule: (Role, Expr, Expr) -> bool, role: Role, e: Expr, e': Expr)
    requires rule(role, e, e')
    ensures Changed(rule, [Placed(role, e)], [Placed(role, e')])
  {
  }

  // ---------------------------------------------------------------- returned values

  /** A returned value in a sum with zero or in a call of the helper; everything else as it was. */
  function ReturnRule(helper: Option<string>): (Role, Expr, Expr) -> bool {
    (role: Role, e: Expr, e': Expr) =>
      e' == if !role.Returned? then e else if helper.Some? then Call(helper.value, [e]) else Binary(BinaryOp.Add, e, IntLiteral(0))
  }

  function HelperOf(w: Wrapper): Option<string> {
    if w.PlusZero? then None else Some(w.helper)
  }

  lemma {:induction false} ReturnsWrappedIn(w: Wrapper, s: Stmt)
    ensures Bare(WrapReturnsIn(w, s)) == Bare(s)
    ensures Changed(ReturnRule(HelperOf(w)), PlacedIn(s), PlacedIn(WrapReturnsIn(w, s)))
    decreases s, 0
  {
    hide Changed, PlacedAll, BareAll, WrapReturns;
    var rule := ReturnRule(HelperOf(w));
    match s {
      case If(condition, thenBody, elseBody) =>
        ReturnsWrapped(w, thenBody);
        ChangedOne(rule, Condition, condition, condition);
        ChangedBoth(rule, [Placed(Condition, condition)], [Placed(Condition, condition)], PlacedAll(thenBody), PlacedAll(WrapReturns(w, thenBody)));
        var before := [Placed(Condition, condition)] + PlacedAll(thenBody);
        var after := [Placed(Condition, condition)] + PlacedAll(WrapReturns(w, thenBody));
        if elseBody.Else? {
          ReturnsWrapped(w, elseBody.body);
          ChangedBoth(rule, before, after, PlacedAll(elseBody.body), PlacedAll(WrapReturns(w, elseBody.body)));
        } else {
          assert before + [] == before && after + [] == after;
        }
      case While(condition, body) =>
        ReturnsWrapped(w, body);
        ChangedOne(rule, Condition, condition, condition);
        ChangedBoth(rule, [Placed(Condition, condition)], [Placed(Condition, condition)], PlacedAll(body), PlacedAll(WrapReturns(w, body)));
      case Return(value) => ChangedOne(rule, Returned, value, Wrap(w, value));
      case _ => Unchanged(w, s);
    }
  }

  lemma Unchanged(w: Wrapper, s: Stmt)
    requires !s.If? && !s.While? && !s.Return?
    ensures WrapReturnsIn(w, s) == s && Changed(ReturnRule(HelperOf(w)), PlacedIn(s), PlacedIn(s))
  {
  }

  /** Every returned value of a body is wrapped, and nothing else is touched. */
  lemma {:induction false} ReturnsWrapped(w: Wrapper, stmts: seq<Stmt>)
    ensures BareAll(WrapReturns(w, stmts)) == BareAll(stmts)
    ensures Changed(ReturnRule(HelperOf(w)), PlacedAll(stmts), PlacedAll(WrapReturns(w, stmts)))
    decreases stmts, 1
  {
    hide Changed, PlacedIn, Bare, WrapReturnsIn;
    var rule := ReturnRule(HelperOf(w));
    if stmts == [] {
      ChangedNothing(rule);
    } else {
      ReturnsWrappedIn(w, stmts[0]);
      ReturnsWrapped(w, stmts[1..]);
      ChangedBoth(rule, PlacedIn(stmts[0]), PlacedIn(WrapReturnsIn(w, stmts[0])), PlacedAll(stmts[1..]), PlacedAll(WrapReturns(w, stmts[1..])));
    }
  }

  lemma ChangedNothing(rule: (Role, Expr, Expr) -> bool)
    ensures Changed(rule, [], [])
  {
  }

  /** A function with the expressions of its body changed by a rule. */
  ghost predicate FunctionChanged(rule: (Role, Expr, Expr) -> bool, f: Function, f': Function) {
    && f'.name == f.name && f'.params == f.params
    && BareAll(f'.body) == BareAll(f.body) && Changed(rule, PlacedAll(f.body), PlacedAll(f'.body))
  }

  lemma FunctionWrapped(w: Wrapper, f: Function)
    ensures FunctionChanged(ReturnRule(HelperOf(w)), f, f.(body := WrapReturns(w, f.body)))
  {
    hide Changed, PlacedAll, BareAll, WrapReturns;
    ReturnsWrapped(w, f.body);
  }

  /** Adding zero changes every function's returned values, and nothing else of the program. */
  lemma ReturnNeutralReaches(p: Program)
    ensures var q := ReturnNeutral(p);
      && q.globals == p.globals && |q.functions| == |p.functions|
      && forall i :: 0 <= i < |p.functions| ==> FunctionChanged(ReturnRule(None), p.functions[i], q.functions[i])
  {
    hide FunctionChanged, WrapReturns;
    forall i | 0 <= i < |p.functions| {
      FunctionWrapped(PlusZero, p.functions[i]);
    }
  }

  /** So does passing returned values through a new function, which stands in front and returns its argument. */
  lemma HelperWrappingReaches(p: Program, helper: string, param: string)
    ensures var q := HelperWrapping(p, helper, param);
      && q.globals == p.globals && |q.functions| == |p.functions| + 1
      && q.functions[0] == Function(helper, [Param(IntType, param)], [Return(Identifier(param))])
      && forall i :: 0 <= i < |p.functions| ==> FunctionChanged(ReturnRule(Some(helper)), p.functions[i], q.functions[1..][i])
  {
    hide FunctionChanged, WrapReturns;
    var mapped := MapBodies((f: Function) => WrapReturns(InCall(helper), f.body), p.functions);
    assert HelperWrapping(p, helper, param).functions[1..] == mapped;
    forall i | 0 <= i < |p.functions| {
      FunctionWrapped(InCall(helper), p.functions[i]);
    }
  }

  // ---------------------------------------------------------------- neutral operations

  function Doubled(e: Expr): Expr {
    Unary(UnaryOp.Not, Unary(UnaryOp.Not, e))
  }

  /** Which neutral operation stands around an expression; values whose type is not known to be int may stay. */
  function NeutralRule(): (Role, Expr, Expr) -> bool {
    (role: Role, e: Expr, e': Expr) =>
      match role
      case Initial(ty, sized) => e' == if ty == IntType && !sized then Binary(BinaryOp.Mul, e, IntLiteral(1)) else e
      case Index => e' == Binary(BinaryOp.Add, e, IntLiteral(0))
      case Condition => e' == Unary(UnaryOp.Not, Unary(UnaryOp.Not, e))
      case Returned => e' == Binary(BinaryOp.Mul, e, IntLiteral(1))
      case Assigned(_) => e' == e || e' == Binary(BinaryOp.Sub, e, IntLiteral(0))
      case Printed => e' == e || e' == Binary(BinaryOp.Add, e, IntLiteral(0))
      case Discarded => e' == e || e' == Binary(BinaryOp.Mul, e, IntLiteral(1))
  }

  lemma {:induction false} NeutralReachesIn(b: Bindings, s: Stmt)
    ensures Bare(NeutralIn(b, s)) == Bare(s) && Changed(NeutralRule(), PlacedIn(s), PlacedIn(NeutralIn(b, s)))
    decreases s, 0
  {
    hide Changed, PlacedAll, BareAll, NeutralBlock, InferType;
    var rule := NeutralRule();
    match s {
      case If(condition, thenBody, elseBody) =>
        var head, head' := [Placed(Condition, condition)], [Placed(Condition, Doubled(condition))];
        ChangedOne(rule, Condition, condition, Doubled(condition));
        NeutralReaches(b, thenBody);
        ChangedBoth(rule, head, head', PlacedAll(thenBody), PlacedAll(NeutralBlock(b, thenBody)));
        var before, after := head + PlacedAll(thenBody), head' + PlacedAll(NeutralBlock(b, thenBody));
        if elseBody.Else? {
          NeutralReaches(b, elseBody.body);
          ChangedBoth(rule, before, after, PlacedAll(elseBody.body), PlacedAll(NeutralBlock(b, elseBody.body)));
        } else {
          assert before + [] == before && after + [] == after;
        }
      case While(condition, body) =>
        ChangedOne(rule, Condition, condition, Doubled(condition));
        NeutralReaches(b, body);
        ChangedBoth(rule, [Placed(Condition, condition)], [Placed(Condition, Doubled(condition))], PlacedAll(body), PlacedAll(NeutralBlock(b, body)));
      case _ => SimpleReached(b, s);
    }
  }

  lemma SimpleReached(b: Bindings, s: Stmt)
    requires !s.If? && !s.While?
    ensures Bare(NeutralIn(b, s)) == Bare(s) && Changed(NeutralRule(), PlacedIn(s), PlacedIn(NeutralIn(b, s)))
  {
    hide InferType, Changed;
    var rule, s' := NeutralRule(), NeutralIn(b, s);
    ChangedNothing(rule);
    match s {
      case VarDecl(ty, name, init, size) =>
        if init.Some? {
          ChangedOne(rule, Initial(ty, size.Some?), init.value, s'.init.value);
        }
      case Assign(target, index, value) =>
        ChangedOne(rule, Assigned(target), value, s'.value);
        if index.Some? {
          ChangedOne(rule, Index, index.value, s'.indexExpr.value);
          ChangedBoth(rule, [Placed(Index, index.value)], [Placed(Index, s'.indexExpr.value)],
                      [Placed(Assigned(target), value)], [Placed(Assigned(target), s'.value)]);
        } else {
          ChangedBoth(rule, [], [], [Placed(Assigned(target), value)], [Placed(Assigned(target), s'.value)]);
        }
      case Return(value) => ChangedOne(rule, Returned, value, s'.value);
      case Print(value) => ChangedOne(rule, Printed, value, s'.value);
      case ExprStmt(e) => ChangedOne(rule, Discarded, e, s'.expr);
    }
  }

  /** Every initializer, index, condition and returned value of a body is in its neutral operation, and nothing else moves. */
  lemma {:induction false} NeutralReaches(b: Bindings, stmts: seq<Stmt>)
    ensures BareAll(NeutralBlock(b, stmts)) == BareAll(stmts) && Changed(NeutralRule(), PlacedAll(stmts), PlacedAll(NeutralBlock(b, stmts)))
    decreases stmts, 1
  {
    hide Changed, PlacedIn, Bare, NeutralIn;
    var rule := NeutralRule();
    if stmts == [] {
      ChangedNothing(rule);
    } else {
      NeutralReachesIn(b, stmts[0]);
      NeutralReaches(Bound(b, stmts[0]), stmts[1..]);
      ChangedBoth(rule, PlacedIn(stmts[0]), PlacedIn(NeutralIn(b, stmts[0])),
                  PlacedAll(stmts[1..]), PlacedAll(NeutralBlock(Bound(b, stmts[0]), stmts[1..])));
    }
  }

  predicate GlobalReached(g: GlobalVar, g': GlobalVar) {
    g' == if g.varType == IntType && g.init.Some? then g.(init := Some(Binary(BinaryOp.Mul, g.init.value, IntLiteral(1)))) else g
  }

  lemma FunctionNeutral(b: Bindings, f: Function)
    ensures FunctionChanged(NeutralRule(), f, f.(body := NeutralBlock(b, f.body)))
  {
    hide Changed, PlacedAll, BareAll, NeutralBlock;
    NeutralReaches(b, f.body);
  }

  /** The neutral rewrite reaches the initializers of the globals and every function's body. */
  lemma AlgebraicNeutralReaches(p: Program)
    ensures var q := AlgebraicNeutral(p);
      && |q.globals| == |p.globals| && |q.functions| == |p.functions|
      && (forall i :: 0 <= i < |p.globals| ==> GlobalReached(p.globals[i], q.globals[i]))
      && forall i :: 0 <= i < |p.functions| ==> FunctionChanged(NeutralRule(), p.functions[i], q.functions[i])
  {
    hide FunctionChanged, NeutralBlock;
    var b := GlobalBindings(p.globals);
    forall i | 0 <= i < |p.functions| {
      FunctionNeutral(ParamBindings(b, p.functions[i].params), p.functions[i]);
    }
  }

  // ---------------------------------------------------------------- one place

  /** One statement is replaced by another, in this block or in the body of a loop in it. */
  ghost predicate Replaced(stmts: seq<Stmt>, stmts': seq<Stmt>, s: Stmt, s': Stmt)
    decreases stmts, 1
  {
    |stmts'| == |stmts| && exists i :: 0 <= i < |stmts| && stmts' == stmts[i := stmts'[i]] && ReplacedIn(stmts[i], stmts'[i], s, s')
  }

  ghost predicate ReplacedIn(t: Stmt, t': Stmt, s: Stmt, s': Stmt)
    decreases t, 0
  {
    || (t == s && t' == s')
    || (t.While? && t'.While? && t'.condition == t.condition && Replaced(t.body, t'.body, s, s'))
  }

  /** The conditionals of a block, in the order of the text. */
  function Conditionals(stmts: seq<Stmt>): seq<Stmt>
    decreases stmts, 1
  {
    if stmts == [] then [] else ConditionalsIn(stmts[0]) + Conditionals(stmts[1..])
  }

  function ConditionalsIn(s: Stmt): seq<Stmt>
    decreases s, 0
  {
    match s
    case If(_, thenBody, elseBody) => [s] + Conditionals(thenBody) + (if elseBody.Else? then Conditionals(elseBody.body) else [])
    case While(_, body) => Conditionals(body)
    case _ => []
  }

  /** The conditional with its condition negated and its branches exchanged. */
  predicate InvertedTo(s: Stmt, s': Stmt) {
    && s.If? && s'.If? && s'.condition == Unary(UnaryOp.Not, s.condition)
    && s'.thenBody == (if s.elseBody.Else? then s.elseBody.body else []) && s'.elseBody == Else(s.thenBody)
  }

  lemma ReplacedFirst(stmts: seq<Stmt>, t': Stmt, s: Stmt, s': Stmt)
    requires stmts != [] && ReplacedIn(stmts[0], t', s, s')
    ensures Replaced(stmts, [t'] + stmts[1..], s, s')
  {
    hide ReplacedIn;
    assert ([t'] + stmts[1..])[0] == t';
    assert [t'] + stmts[1..] == stmts[0 := t'];
  }

  lemma ReplacedLater(stmts: seq<Stmt>, rest: seq<Stmt>, s: Stmt, s': Stmt)
    requires stmts != [] && Replaced(stmts[1..], rest, s, s')
    ensures Replaced(stmts, [stmts[0]] + rest, s, s')
  {
    hide ReplacedIn;
    var i :| 0 <= i < |stmts[1..]| && rest == stmts[1..][i := rest[i]] && ReplacedIn(stmts[1..][i], rest[i], s, s');
    var all := [stmts[0]] + rest;
    assert all[i + 1] == rest[i] && stmts[i + 1] == stmts[1..][i];
    assert all == stmts[i + 1 := all[i + 1]];
  }

  /** The inversion fails exactly when there is no conditional, and otherwise inverts the first in the text. */
  lemma {:induction false} InversionFindsTheFirst(stmts: seq<Stmt>)
    ensures InvertFirst(stmts).None? <==> Conditionals(stmts) == []
    ensures InvertFirst(stmts).Some? ==>
      exists s' :: InvertedTo(Conditionals(stmts)[0], s') && Replaced(stmts, InvertFirst(stmts).value, Conditionals(stmts)[0], s')
    decreases stmts
  {
    hide Replaced, ReplacedIn, InvertedTo;
    if stmts != [] {
      var first := stmts[0];
      if first.If? {
        InvertedIs(first);
        ItselfReplaced(first, Inverted(first));
        ReplacedFirst(stmts, Inverted(first), first, Inverted(first));
        assert ConditionalsIn(first)[0] == first && Conditionals(stmts)[0] == ConditionalsIn(first)[0];
      } else {
        if first.While? {
          InversionFindsTheFirst(first.body);
        }
        var inner := if first.While? then InvertFirst(first.body) else None;
        if inner.Some? {
          var s' :| InvertedTo(Conditionals(first.body)[0], s') && Replaced(first.body, inner.value, Conditionals(first.body)[0], s');
          InLoop(first, inner.value, Conditionals(first.body)[0], s');
          ReplacedFirst(stmts, first.(body := inner.value), Conditionals(first.body)[0], s');
          assert Conditionals(stmts)[0] == Conditionals(first.body)[0];
        } else {
          InversionFindsTheFirst(stmts[1..]);
          assert Conditionals(stmts) == Conditionals(stmts[1..]);
          if InvertFirst(stmts[1..]).Some? {
            var c := Conditionals(stmts[1..])[0];
            var s' :| InvertedTo(c, s') && Replaced(stmts[1..], InvertFirst(stmts[1..]).value, c, s');
            ReplacedLater(stmts, InvertFirst(stmts[1..]).value, c, s');
          }
        }
      }
    }
  }

  lemma InvertedIs(s: Stmt)
    requires s.If?
    ensures InvertedTo(s, Inverted(s))
  {
  }

  lemma ItselfReplaced(s: Stmt, s': Stmt)
    ensures ReplacedIn(s, s', s, s')
  {
  }

  lemma InLoop(t: Stmt, body: seq<Stmt>, s: Stmt, s': Stmt)
    requires t.While? && Replaced(t.body, body, s, s')
    ensures ReplacedIn(t, t.(body := body), s, s')
  {
  }

  // ---------------------------------------------------------------- two neighbours exchanged

  /** The name a statement sets to a constant without dividing: a declared scalar or an assigned variable. */
  predicate Sets(s: Stmt, name: string) {
    || (s.VarDecl? && s.name == name && s.size.None? && (s.init.Some? ==> Similar.IsConstant(s.init.value)))
    || (s.Assign? && s.target == name && s.indexExpr.None? && Similar.IsConstant(s.value))
  }

  ghost predicate Exchangeable(a: Stmt, b: Stmt) {
    exists x, y :: Sets(a, x) && Sets(b, y) && x != y
  }

  lemma ExchangeableIs(a: Stmt, b: Stmt)
    ensures Similar.CanReorder(a, b) <==> Exchangeable(a, b)
  {
    hide Similar.IsConstant;
    if Similar.CanReorder(a, b) {
      assert Sets(a, Similar.ConstantWrite(a).value) && Sets(b, Similar.ConstantWrite(b).value);
    }
  }

  /** Two neighbours change places, in this block or in one inside it. */
  ghost predicate Exchanged(stmts: seq<Stmt>, stmts': seq<Stmt>)
    decreases stmts, 1
  {
    && |stmts'| == |stmts|
    && (|| (exists i :: 0 <= i < |stmts| - 1 && Exchangeable(stmts[i], stmts[i + 1]) && stmts' == stmts[i := stmts[i + 1]][i + 1 := stmts[i]])
        || (exists i :: 0 <= i < |stmts| && stmts' == stmts[i := stmts'[i]] && ExchangedIn(stmts[i], stmts'[i])))
  }

  ghost predicate ExchangedIn(s: Stmt, s': Stmt)
    decreases s, 0
  {
    match s
    case If(condition, thenBody, elseBody) =>
      && s'.If? && s'.condition == condition
      && ((s'.elseBody == elseBody && Exchanged(thenBody, s'.thenBody))
          || (s'.thenBody == thenBody && elseBody.Else? && s'.elseBody.Else? && Exchanged(elseBody.body, s'.elseBody.body)))
    case While(condition, body) => s'.While? && s'.condition == condition && Exchanged(body, s'.body)
    case _ => false
  }

  /** Somewhere in the block two neighbours may change places. */
  ghost predicate HasPair(stmts: seq<Stmt>)
    decreases stmts, 1
  {
    || (exists i :: 0 <= i < |stmts| - 1 && Exchangeable(stmts[i], stmts[i + 1]))
    || (exists i :: 0 <= i < |stmts| && HasPairIn(stmts[i]))
  }

  ghost predicate HasPairIn(s: Stmt)
    decreases s, 0
  {
    match s
    case If(_, thenBody, elseBody) => HasPair(thenBody) || (elseBody.Else? && HasPair(elseBody.body))
    case While(_, body) => HasPair(body)
    case _ => false
  }

  lemma SwapLater(stmts: seq<Stmt>, i: nat)
    requires i + 2 < |stmts|
    ensures var rest, j := stmts[1..], i + 1;
      && stmts[j] == rest[i] && stmts[j + 1] == rest[i + 1]
      && [stmts[0]] + rest[i := rest[i + 1]][i + 1 := rest[i]] == stmts[j := stmts[j + 1]][j + 1 := stmts[j]]
  {
  }

  lemma {:induction false} SwapFinds(stmts: seq<Stmt>)
    ensures SwapFirst(stmts).Some? <==> exists i :: 0 <= i < |stmts| - 1 && Exchangeable(stmts[i], stmts[i + 1])
    ensures SwapFirst(stmts).Some? ==>
      exists i :: 0 <= i < |stmts| - 1 && Exchangeable(stmts[i], stmts[i + 1])
        && SwapFirst(stmts).value == stmts[i := stmts[i + 1]][i + 1 := stmts[i]]
  {
    hide Exchangeable, Similar.CanReorder;
    if |stmts| >= 2 {
      ExchangeableIs(stmts[0], stmts[1]);
      var rest := stmts[1..];
      if Similar.CanReorder(stmts[0], stmts[1]) {
        assert SwapFirst(stmts).value == stmts[0 := stmts[0 + 1]][0 + 1 := stmts[0]];
      } else {
        SwapFinds(rest);
        if SwapFirst(rest).Some? {
          var i :| 0 <= i < |rest| - 1 && Exchangeable(rest[i], rest[i + 1]) && SwapFirst(rest).value == rest[i := rest[i + 1]][i + 1 := rest[i]];
          SwapLater(stmts, i);
        } else {
          forall i | 0 <= i < |stmts| - 1 ensures !Exchangeable(stmts[i], stmts[i + 1]) {
            if i > 0 {
              var k := i - 1;
              assert rest[k] == stmts[i] && rest[k + 1] == stmts[i + 1];
            }
          }
        }
      }
    }
  }

  /** The reordering fails exactly when no neighbours anywhere may change places, and otherwise exchanges such a pair. */
  lemma {:induction false} ReorderingFinds(stmts: seq<Stmt>)
    ensures ReorderFirst(stmts).Some? <==> HasPair(stmts)
    ensures ReorderFirst(stmts).Some? ==> Exchanged(stmts, ReorderFirst(stmts).value)
    decreases stmts, 2
  {
    hide SwapFirst, ReorderInside, Exchangeable, ExchangedIn, HasPairIn;
    SwapFinds(stmts);
    ReorderingFindsInside(stmts);
  }

  lemma {:induction false} ReorderingFindsInside(stmts: seq<Stmt>)
    ensures ReorderInside(stmts).Some? <==> exists i :: 0 <= i < |stmts| && HasPairIn(stmts[i])
    ensures ReorderInside(stmts).Some? ==> var r := ReorderInside(stmts).value;
      |r| == |stmts| && exists i :: 0 <= i < |stmts| && r == stmts[i := r[i]] && ExchangedIn(stmts[i], r[i])
    decreases stmts, 1
  {
    hide ReorderIn, ExchangedIn, HasPairIn;
    if stmts != [] {
      ReorderingFindsIn(stmts[0]);
      var first := ReorderIn(stmts[0]);
      if first.Some? {
        var r := ReorderInside(stmts).value;
        assert r == stmts[0 := r[0]];
      } else {
        ReorderingFindsInside(stmts[1..]);
        var rest := ReorderInside(stmts[1..]);
        if rest.Some? {
          var q := rest.value;
          var i :| 0 <= i < |stmts[1..]| && q == stmts[1..][i := q[i]] && ExchangedIn(stmts[1..][i], q[i]);
          var r := ReorderInside(stmts).value;
          assert r[i + 1] == q[i] && stmts[i + 1] == stmts[1..][i];
          assert r == stmts[i + 1 := r[i + 1]];
          var k :| 0 <= k < |stmts[1..]| && HasPairIn(stmts[1..][k]);
          assert HasPairIn(stmts[k + 1]);
        } else {
          forall i | 0 <= i < |stmts| ensures !HasPairIn(stmts[i]) {
            assert i > 0 ==> stmts[i] == stmts[1..][i - 1];
          }
        }
      }
    }
  }

  lemma {:induction false} ReorderingFindsIn(s: Stmt)
    ensures ReorderIn(s).Some? <==> HasPairIn(s)
    ensures ReorderIn(s).Some? ==> ExchangedIn(s, ReorderIn(s).value)
    decreases s, 0
  {
    hide ReorderFirst, HasPair, Exchanged;
    match s {
      case If(_, thenBody, elseBody) =>
        ReorderingFinds(thenBody);
        if elseBody.Else? {
          ReorderingFinds(elseBody.body);
        }
      case While(_, body) => ReorderingFinds(body);
      case _ =>
    }
  }

  // ---------------------------------------------------------------- programs

  /** The function at i is the first that the rewrite changes, and the only one changed. */
  ghost predicate ChangedAt(f: seq<Stmt> -> Option<seq<Stmt>>, functions: seq<Function>, functions': seq<Function>, i: nat) {
    && i < |functions| && f(functions[i].body).Some? && (forall j :: 0 <= j < i ==> f(functions[j].body).None?)
    && functions' == functions[i := functions[i].(body := f(functions[i].body).value)]
  }

  lemma ChangedLater(f: seq<Stmt> -> Option<seq<Stmt>>, functions: seq<Function>, rest: seq<Function>, i: nat)
    requires functions != [] && f(functions[0].body).None? && ChangedAt(f, functions[1..], rest, i)
    ensures ChangedAt(f, functions, [functions[0]] + rest, i + 1)
  {
    assert functions[i + 1] == functions[1..][i];
    forall j | 0 <= j < i + 1 ensures f(functions[j].body).None? {
      assert j > 0 ==> functions[j] == functions[1..][j - 1];
    }
  }

  /** Exactly the first function that the rewrite changes is changed. */
  lemma {:induction false} FirstIsChanged(f: seq<Stmt> -> Option<seq<Stmt>>, functions: seq<Function>)
    ensures ChangeFirst(f, functions).None? <==> forall i :: 0 <= i < |functions| ==> f(functions[i].body).None?
    ensures ChangeFirst(f, functions).Some? ==> exists i: nat :: ChangedAt(f, functions, ChangeFirst(f, functions).value, i)
  {
    if functions != [] {
      var first := f(functions[0].body);
      if first.Some? {
        assert ChangedAt(f, functions, ChangeFirst(f, functions).value, 0);
      } else {
        hide ChangedAt;
        FirstIsChanged(f, functions[1..]);
        if ChangeFirst(f, functions[1..]).Some? {
          var i: nat :| ChangedAt(f, functions[1..], ChangeFirst(f, functions[1..]).value, i);
          ChangedLater(f, functions, ChangeFirst(f, functions[1..]).value, i);
          SomeChanged(f, functions, ChangeFirst(f, functions).value, i + 1);
        } else {
          forall i | 0 <= i < |functions| ensures f(functions[i].body).None? {
            assert i > 0 ==> functions[i] == functions[1..][i - 1];
          }
        }
      }
    }
  }

  lemma SomeChanged(f: seq<Stmt> -> Option<seq<Stmt>>, functions: seq<Function>, functions': seq<Function>, i: nat)
    requires ChangedAt(f, functions, functions', i)
    ensures exists k :: 0 <= k < |functions| && f(functions[k].body).Some?
  {
  }

  /** The opening stands in front of the first function called `main`, and nothing else changes. */
  lemma {:induction false} MainIsOpened(opening: seq<Stmt>, functions: seq<Function>, m: nat)
    requires m < |functions| && functions[m].name == "main" && forall i :: 0 <= i < m ==> functions[i].name != "main"
    ensures OpenMain(opening, functions) == functions[m := functions[m].(body := opening + functions[m].body)]
  {
    if m > 0 {
      MainIsOpened(opening, functions[1..], m - 1);
    }
  }

  /** A branch that is never taken, and a local that is only written back, open `main`. */
  lemma OpeningsReach(p: Program, name: string, m: nat)
    requires m < |p.functions| && p.functions[m].name == "main" && forall i :: 0 <= i < m ==> p.functions[i].name != "main"
    ensures DeadBranch(p) == p.(functions := p.functions[m := p.functions[m].(body :=
      [If(IntLiteral(0), [Stmt.Print(IntLiteral(424242))], NoElse)] + p.functions[m].body)])
    ensures UnusedLocal(p, name) == p.(functions := p.functions[m := p.functions[m].(body :=
      [VarDecl(IntType, name, Some(IntLiteral(0)), None),
       Assign(name, None, Binary(BinaryOp.Add, Identifier(name), IntLiteral(0)))] + p.functions[m].body)])
  {
    hide OpenMain;
    MainIsOpened([Similar.DeadPrint()], p.functions, m);
    MainIsOpened(Similar.NeutralLocal(name), p.functions, m);
  }
}
