/**
 * The static rules of the language, one node at a time: what each expression, statement and declaration demands of what is
 * directly inside it, in the names visible there. The analyzer accepts exactly the programs whose every node obeys.
 */
module Typing {
  import opened Common
  import opened Int32
  import opened Limits
  import opened Ast
  import opened Sema

  // ---------------------------------------------------------------- expressions

  /** The kind of an expression, by its head alone. */
  function Kind(vis: Visible, e: Expr): Type {
    match e
    case IntLiteral(_) => IntType
    case BoolLiteral(_) => BoolType
    case Identifier(name) => if name in vis then vis[name].ty else IntType
    case Binary(op, _, _) => if op in {BinaryOp.Add, BinaryOp.Sub, BinaryOp.Mul, BinaryOp.Div} then IntType else BoolType
    case Unary(op, _) => if op == UnaryOp.Neg then IntType else BoolType
    case Call(_, _) => IntType
    case ArrayIndex(name, _) => if name in vis then vis[name].ty else IntType
  }

  /** What an expression demands of its names and of its immediate operands. */
  predicate ExprRule(vis: Visible, fs: Signatures, e: Expr) {
    match e
    case IntLiteral(_) => true
    case BoolLiteral(_) => true
    case Identifier(name) => name in vis && !vis[name].isFunction && !vis[name].isArray
    case Binary(op, left, right) =>
      if op in {BinaryOp.And, BinaryOp.Or} then true
      else if op in {BinaryOp.Eq, BinaryOp.Ne} then Kind(vis, left) == Kind(vis, right)
      else Kind(vis, left) == IntType && Kind(vis, right) == IntType
    case Unary(op, operand) => op == UnaryOp.Not || Kind(vis, operand) == IntType
    case Call(name, args) =>
      && name in fs && |args| == |fs[name]|
      && forall i :: 0 <= i < |args| ==> Kind(vis, args[i]) == fs[name][i]
    case ArrayIndex(name, index) => name in vis && vis[name].isArray && Kind(vis, index) == IntType
  }

  /** The expressions an expression is built from, itself included. */
  predicate Inside(x: Expr, e: Expr)
    decreases e
  {
    || x == e
    || match e
       case Binary(_, left, right) => Inside(x, left) || Inside(x, right)
       case Unary(_, operand) => Inside(x, operand)
       case Call(_, args) => exists i :: 0 <= i < |args| && Inside(x, args[i])
       case ArrayIndex(_, index) => Inside(x, index)
       case _ => false
  }

  ghost predicate Obeys(vis: Visible, fs: Signatures, e: Expr) {
    forall x :: Inside(x, e) ==> ExprRule(vis, fs, x)
  }

  ghost predicate Holds(vis: Visible, fs: Signatures, e: Expr, ty: Type) {
    Obeys(vis, fs, e) && Kind(vis, e) == ty
  }

  /** An expression obeys when its own node does and its operands do. */
  lemma ObeysByParts(vis: Visible, fs: Signatures, e: Expr)
    ensures Obeys(vis, fs, e) <==>
      ExprRule(vis, fs, e) && match e
        case Binary(_, left, right) => Obeys(vis, fs, left) && Obeys(vis, fs, right)
        case Unary(_, operand) => Obeys(vis, fs, operand)
        case Call(_, args) => forall i :: 0 <= i < |args| ==> Obeys(vis, fs, args[i])
        case ArrayIndex(_, index) => Obeys(vis, fs, index)
        case _ => true
  {
    hide ExprRule;
    assert Inside(e, e);
    match e {
      case Binary(_, left, right) =>
        assert forall x :: Inside(x, left) || Inside(x, right) ==> Inside(x, e);
      case Unary(_, operand) =>
        assert forall x :: Inside(x, operand) ==> Inside(x, e);
      case Call(_, args) =>
        forall i, x | 0 <= i < |args| && Inside(x, args[i]) ensures Inside(x, e) {
        }
      case ArrayIndex(_, index) =>
        assert forall x :: Inside(x, index) ==> Inside(x, e);
      case _ =>
    }
  }

  lemma FourKinds(op: BinaryOp)
    ensures
      || op in {BinaryOp.Add, BinaryOp.Sub, BinaryOp.Mul, BinaryOp.Div}
      || op in {BinaryOp.Lt, BinaryOp.Gt, BinaryOp.Le, BinaryOp.Ge}
      || op in {BinaryOp.Eq, BinaryOp.Ne}
      || op in {BinaryOp.And, BinaryOp.Or}
  {
    match op {
      case Add => case Sub => case Mul => case Div => case Eq => case Ne =>
      case Lt => case Gt => case Le => case Ge => case And => case Or =>
    }
  }

  /** The analyzer gives an expression a type exactly when every node in it obeys, and the type is its kind. */
  lemma {:induction false} TypedExactly(vis: Visible, fs: Signatures, e: Expr)
    ensures TypeOf(vis, fs, e).Some? <==> Obeys(vis, fs, e)
    ensures TypeOf(vis, fs, e).Some? ==> TypeOf(vis, fs, e).value == Kind(vis, e)
    decreases e, 0
  {
    hide Obeys;
    ObeysByParts(vis, fs, e);
    match e {
      case Binary(op, left, right) =>
        TypedExactly(vis, fs, left);
        TypedExactly(vis, fs, right);
        FourKinds(op);
      case Unary(_, operand) => TypedExactly(vis, fs, operand);
      case Call(name, args) =>
        if name in fs && |args| == |fs[name]| {
          ArgsTyped(vis, fs, args, fs[name]);
        }
      case ArrayIndex(_, index) => TypedExactly(vis, fs, index);
      case _ =>
    }
  }

  lemma {:induction false} ArgsTyped(vis: Visible, fs: Signatures, args: seq<Expr>, types: seq<Type>)
    requires |args| == |types|
    ensures ArgsMatch(vis, fs, args, types) <==> forall i :: 0 <= i < |args| ==> Holds(vis, fs, args[i], types[i])
    decreases args, 1
  {
    hide Obeys, TypeOf;
    if args != [] {
      TypedExactly(vis, fs, args[0]);
      ArgsTyped(vis, fs, args[1..], types[1..]);
      assert forall i :: 0 < i < |args| ==> args[i] == args[1..][i - 1] && types[i] == types[1..][i - 1];
    }
  }

  /** The type demanded is held exactly when the analyzer finds it. */
  lemma HoldsExactly(vis: Visible, fs: Signatures, e: Expr, ty: Type)
    ensures TypeOf(vis, fs, e) == Some(ty) <==> Holds(vis, fs, e, ty)
  {
    hide Obeys;
    TypedExactly(vis, fs, e);
  }

  // ---------------------------------------------------------------- statements

  /** The names visible behind a statement. */
  function After(vis: Visible, s: Stmt): Visible {
    if s.VarDecl? then vis[s.name := Symbol(s.varType, s.size.Some?, false)] else vis
  }

  /** What a statement demands of the names visible to it and of its own expressions. */
  ghost predicate StmtRule(vis: Visible, fs: Signatures, s: Stmt) {
    match s
    case VarDecl(ty, name, init, size) =>
      && name !in vis && (size.Some? ==> size.value > 0)
      && (init.Some? ==> Holds(After(vis, s), fs, init.value, ty))
    case Assign(target, index, value) =>
      && target in vis && !vis[target].isFunction && vis[target].isArray == index.Some?
      && (index.Some? ==> Holds(vis, fs, index.value, IntType))
      && Holds(vis, fs, value, vis[target].ty)
    case If(condition, _, _) => Obeys(vis, fs, condition)
    case While(condition, _) => Obeys(vis, fs, condition)
    case Return(value) => Holds(vis, fs, value, IntType)
    case Print(value) => Obeys(vis, fs, value)
    case ExprStmt(e) => Obeys(vis, fs, e)
  }

  /** The statement occurs in the block, at any depth, where `at` is visible. */
  predicate Occurs(vis: Visible, stmts: seq<Stmt>, at: Visible, s: Stmt)
    decreases stmts, 0
  {
    stmts != [] && (OccursIn(vis, stmts[0], at, s) || Occurs(After(vis, stmts[0]), stmts[1..], at, s))
  }

  predicate OccursIn(vis: Visible, stmt: Stmt, at: Visible, s: Stmt)
    decreases stmt, 0
  {
    || (at == vis && s == stmt)
    || match stmt
       case If(_, thenBody, elseBody) => Occurs(vis, thenBody, at, s) || (elseBody.Else? && Occurs(vis, elseBody.body, at, s))
       case While(_, body) => Occurs(vis, body, at, s)
       case _ => false
  }

  ghost predicate BlockObeys(vis: Visible, fs: Signatures, stmts: seq<Stmt>) {
    forall at, s :: Occurs(vis, stmts, at, s) ==> StmtRule(at, fs, s)
  }

  ghost predicate StmtObeys(vis: Visible, fs: Signatures, stmt: Stmt) {
    forall at, s :: OccursIn(vis, stmt, at, s) ==> StmtRule(at, fs, s)
  }

  lemma BlockByParts(vis: Visible, fs: Signatures, stmts: seq<Stmt>)
    ensures BlockObeys(vis, fs, stmts) <==>
      stmts == [] || (StmtObeys(vis, fs, stmts[0]) && BlockObeys(After(vis, stmts[0]), fs, stmts[1..]))
  {
    hide StmtRule, After, OccursIn;
    if stmts != [] {
      forall at, s ensures Occurs(vis, stmts, at, s) <==> OccursIn(vis, stmts[0], at, s) || Occurs(After(vis, stmts[0]), stmts[1..], at, s) {
      }
    }
  }

  lemma StmtByParts(vis: Visible, fs: Signatures, stmt: Stmt)
    ensures StmtObeys(vis, fs, stmt) <==>
      StmtRule(vis, fs, stmt) && match stmt
        case If(_, thenBody, elseBody) => BlockObeys(vis, fs, thenBody) && (elseBody.Else? ==> BlockObeys(vis, fs, elseBody.body))
        case While(_, body) => BlockObeys(vis, fs, body)
        case _ => true
  {
    hide StmtRule, Occurs;
    assert OccursIn(vis, stmt, vis, stmt);
    match stmt {
      case If(_, thenBody, elseBody) =>
        assert forall at, s :: Occurs(vis, thenBody, at, s) ==> OccursIn(vis, stmt, at, s);
        assert elseBody.Else? ==> forall at, s :: Occurs(vis, elseBody.body, at, s) ==> OccursIn(vis, stmt, at, s);
      case While(_, body) =>
        assert forall at, s :: Occurs(vis, body, at, s) ==> OccursIn(vis, stmt, at, s);
      case _ =>
    }
  }

  // ---------------------------------------------------------------- locals

  /** All names a block declares, at any depth. */
  function Locals(stmts: seq<Stmt>): set<string>
    decreases stmts, 0
  {
    if stmts == [] then {} else LocalsOf(stmts[0]) + Locals(stmts[1..])
  }

  function LocalsOf(s: Stmt): set<string>
    decreases s, 0
  {
    match s
    case VarDecl(_, name, _, _) => {name}
    case If(_, thenBody, elseBody) => Locals(thenBody) + (if elseBody.Else? then Locals(elseBody.body) else {})
    case While(_, body) => Locals(body)
    case _ => {}
  }

  /** What the traversal of some statements leaves: their names counted once each. */
  predicate Counted(w: Walk, names: set<string>, w': Walk) {
    w'.names == w.names + names && w'.slots == w.slots + |names - w.names|
  }

  predicate Room(w: Walk, names: set<string>) {
    w.slots + |names - w.names| <= MAX_LOCAL_SLOTS
  }

  lemma CountedOn(w: Walk, a: set<string>, w1: Walk, b: set<string>)
    requires Counted(w, a, w1)
    ensures Room(w, a + b) <==> Room(w1, b)
    ensures Room(w, a + b) ==> Room(w, a)
    ensures forall w2: Walk :: Counted(w1, b, w2) ==> Counted(w, a + b, w2)
  {
    var x, y := a - w.names, b - w1.names;
    assert a + b - w.names == x + y && x * y == {};
    assert |x + y| == |x| + |y|;
    forall w2: Walk | Counted(w1, b, w2) ensures Counted(w, a + b, w2) {
      assert w2.names == w.names + (a + b);
    }
  }

  lemma CountedNone(w: Walk, w': Walk)
    requires w'.names == w.names && w'.slots == w.slots
    ensures Counted(w, {}, w')
  {
    assert {} - w.names == {} && w.names + {} == w.names;
  }

  lemma CountedOne(w: Walk, name: string, sym: Symbol)
    ensures Counted(w, {name}, AddLocal(w, name, sym))
  {
    assert {name} - w.names == if name in w.names then {} else {name};
  }

  /** The same names but other symbols in view. */
  lemma CountedElsewhere(w: Walk, names: set<string>, w': Walk, vis: Visible)
    requires Counted(w, names, w')
    ensures Counted(w, names, w'.(vis := vis))
  {
  }

  /** The traversal succeeds exactly when everything obeys and the locals fit. */
  predicate Checked(w: Walk, names: set<string>, obeys: bool, r: Option<Walk>, vis: Visible) {
    && (r.Some? <==> obeys && Room(w, names))
    && (r.Some? ==> Counted(w, names, r.value) && r.value.vis == vis)
  }

  lemma {:induction false} DeclChecked(fs: Signatures, w: Walk, s: Stmt)
    requires s.VarDecl?
    ensures Checked(w, {s.name}, StmtRule(w.vis, fs, s), CheckStmt(fs, w, s), After(w.vis, s))
  {
    hide Obeys, TypeOf;
    CountedOne(w, s.name, Symbol(s.varType, s.size.Some?, false));
    if s.init.Some? {
      HoldsExactly(After(w.vis, s), fs, s.init.value, s.varType);
    }
  }

  lemma SimpleChecked(fs: Signatures, w: Walk, s: Stmt)
    requires !s.VarDecl? && !s.If? && !s.While? && w.slots <= MAX_LOCAL_SLOTS
    ensures Checked(w, {}, StmtRule(w.vis, fs, s), CheckStmt(fs, w, s), w.vis)
  {
    hide Obeys, TypeOf;
    CountedNone(w, w);
    match s {
      case Assign(target, index, value) =>
        if index.Some? {
          HoldsExactly(w.vis, fs, index.value, IntType);
        }
        if target in w.vis {
          HoldsExactly(w.vis, fs, value, w.vis[target].ty);
        }
      case Return(value) => HoldsExactly(w.vis, fs, value, IntType);
      case Print(value) => TypedExactly(w.vis, fs, value);
      case ExprStmt(e) => TypedExactly(w.vis, fs, e);
      case _ =>
    }
  }

  lemma {:induction false} StmtChecked(fs: Signatures, w: Walk, s: Stmt)
    requires w.slots <= MAX_LOCAL_SLOTS
    ensures Checked(w, LocalsOf(s), StmtObeys(w.vis, fs, s), CheckStmt(fs, w, s), After(w.vis, s))
    decreases s, 0
  {
    hide Obeys, TypeOf, StmtObeys, BlockObeys, Locals, CheckBlock, Room, Counted;
    StmtByParts(w.vis, fs, s);
    if s.VarDecl? {
      DeclChecked(fs, w, s);
    } else if s.If? {
      TypedExactly(w.vis, fs, s.condition);
      BlockChecked(fs, w, s.thenBody);
      var t := CheckBlock(fs, w, s.thenBody);
      if t.Some? {
        var w1 := t.value.(vis := w.vis);
        CountedElsewhere(w, Locals(s.thenBody), t.value, w.vis);
        RoomAfter(w, Locals(s.thenBody), w1);
        if s.elseBody.Else? {
          BlockChecked(fs, w1, s.elseBody.body);
          CountedOn(w, Locals(s.thenBody), w1, Locals(s.elseBody.body));
          var e := CheckBlock(fs, w1, s.elseBody.body);
          if e.Some? {
            CountedElsewhere(w1, Locals(s.elseBody.body), e.value, w.vis);
          }
        } else {
          assert Locals(s.thenBody) + {} == Locals(s.thenBody);
        }
      } else {
        NoRoomForMore(w, Locals(s.thenBody), if s.elseBody.Else? then Locals(s.elseBody.body) else {});
      }
    } else if s.While? {
      TypedExactly(w.vis, fs, s.condition);
      BlockChecked(fs, w, s.body);
      var b := CheckBlock(fs, w, s.body);
      if b.Some? {
        CountedElsewhere(w, Locals(s.body), b.value, w.vis);
      }
    } else {
      SimpleChecked(fs, w, s);
    }
  }

  lemma RoomAfter(w: Walk, names: set<string>, w': Walk)
    requires Counted(w, names, w') && Room(w, names)
    ensures w'.slots <= MAX_LOCAL_SLOTS
  {
  }

  lemma NoRoomForMore(w: Walk, a: set<string>, b: set<string>)
    ensures !Room(w, a) ==> !Room(w, a + b)
  {
    var x, y := a - w.names, a + b - w.names;
    assert y == x + (y - x) && |x + (y - x)| == |x| + |y - x|;
  }

  lemma {:induction false} BlockChecked(fs: Signatures, w: Walk, stmts: seq<Stmt>)
    requires w.slots <= MAX_LOCAL_SLOTS
    ensures var r := CheckBlock(fs, w, stmts);
      && (r.Some? <==> BlockObeys(w.vis, fs, stmts) && Room(w, Locals(stmts)))
      && (r.Some? ==> Counted(w, Locals(stmts), r.value))
    decreases stmts, 1
  {
    hide StmtObeys, BlockObeys, LocalsOf, CheckStmt, Room, Counted, After;
    BlockByParts(w.vis, fs, stmts);
    if stmts == [] {
      CountedNone(w, w);
      CountedOn(w, {}, w, {});
      RoomForNone(w);
    } else {
      var s := CheckStmt(fs, w, stmts[0]);
      StmtChecked(fs, w, stmts[0]);
      if s.Some? {
        RoomAfter(w, LocalsOf(stmts[0]), s.value);
        BlockChecked(fs, s.value, stmts[1..]);
        CountedOn(w, LocalsOf(stmts[0]), s.value, Locals(stmts[1..]));
      } else {
        NoRoomForMore(w, LocalsOf(stmts[0]), Locals(stmts[1..]));
      }
    }
  }

  lemma RoomForNone(w: Walk)
    requires w.slots <= MAX_LOCAL_SLOTS
    ensures Room(w, {})
  {
    assert {} - w.names == {};
  }

  // ---------------------------------------------------------------- functions

  predicate ParamsApart(params: seq<Param>) {
    forall i, j :: 0 <= i < j < |params| ==> params[i].name != params[j].name
  }

  predicate ParamsNew(vis: Visible, params: seq<Param>) {
    forall i :: 0 <= i < |params| ==> params[i].name !in vis
  }

  function WithParams(vis: Visible, params: seq<Param>): Visible {
    if params == [] then vis
    else
      var m := |params| - 1;
      WithParams(vis, params[..m])[params[m].name := Symbol(params[m].paramType, false, false)]
  }

  /** Parameters are new names, everything in the body obeys, and parameters and locals have 1024 names at most. */
  ghost predicate FunctionRule(vis: Visible, fs: Signatures, f: Function) {
    && ParamsApart(f.params) && ParamsNew(vis, f.params)
    && BlockObeys(WithParams(vis, f.params), fs, f.body)
    && |ParamNames(f.params) + Locals(f.body)| <= MAX_LOCAL_SLOTS
  }

  lemma {:induction false} ParamsVisible(vis: Visible, params: seq<Param>)
    ensures WithParams(vis, params).Keys == vis.Keys + ParamNames(params)
  {
    if params != [] {
      var m := |params| - 1;
      ParamsVisible(vis, params[..m]);
      NamesOfMore(params);
    } else {
      assert ParamNames(params) == {};
    }
  }

  lemma NamesOfMore(params: seq<Param>)
    requires params != []
    ensures var m := |params| - 1; ParamNames(params) == ParamNames(params[..m]) + {params[m].name}
  {
    var m := |params| - 1;
    var q := params[..m];
    assert forall i :: 0 <= i < m ==> params[i] == q[i];
    forall x | x in ParamNames(params) ensures x in ParamNames(q) + {params[m].name} {
      var i :| 0 <= i < |params| && params[i].name == x;
      assert i < m ==> q[i].name == x;
    }
    forall x | x in ParamNames(q) ensures x in ParamNames(params) {
      var i :| 0 <= i < m && q[i].name == x;
      assert params[i].name == x;
    }
  }

  lemma {:induction false} ParamsChecked(vis: Visible, params: seq<Param>)
    ensures CheckParams(vis, params) ==
      if ParamsApart(params) && ParamsNew(vis, params) then Some(WithParams(vis, params)) else None
  {
    if params != [] {
      var m := |params| - 1;
      var q := params[..m];
      ParamsChecked(vis, q);
      ParamsVisible(vis, q);
      assert forall i :: 0 <= i < m ==> params[i] == q[i];
      if ParamsApart(q) && ParamsNew(vis, q) && params[m].name in ParamNames(q) {
        var i :| 0 <= i < m && q[i].name == params[m].name;
        assert params[i].name == params[m].name;
      }
      if ParamsApart(q) && params[m].name !in ParamNames(q) {
        assert forall i :: 0 <= i < m ==> q[i].name in ParamNames(q);
      }
    }
  }

  lemma {:induction false} ParamsCounted(params: seq<Param>)
    requires ParamsApart(params)
    ensures |ParamNames(params)| == |params|
  {
    if params == [] {
      assert ParamNames(params) == {};
    } else {
      var m := |params| - 1;
      var q := params[..m];
      assert forall i :: 0 <= i < m ==> params[i] == q[i];
      ParamsCounted(q);
      NamesOfMore(params);
      assert params[m].name !in ParamNames(q);
    }
  }

  /** The analyzer passes a function exactly when it obeys its rule. */
  lemma FunctionChecked(vis: Visible, fs: Signatures, f: Function)
    ensures Analyze(vis, fs, f).Some? <==> FunctionRule(vis, fs, f)
  {
    hide BlockObeys, CheckBlock, Locals, CheckParams;
    ParamsChecked(vis, f.params);
    if ParamsApart(f.params) {
      ParamsCounted(f.params);
      var names, more := ParamNames(f.params), Locals(f.body) - ParamNames(f.params);
      assert ParamNames(f.params) + Locals(f.body) == names + more && |names + more| == |names| + |more|;
      if |f.params| <= MAX_LOCAL_SLOTS {
        BlockChecked(fs, Walk(WithParams(vis, f.params), names, |f.params|), f.body);
      }
    }
  }

  // ---------------------------------------------------------------- programs

  function Width(g: GlobalVar): int {
    if g.size.Some? then g.size.value else 1
  }

  function Storage(globals: seq<GlobalVar>): int {
    if globals == [] then 0 else Storage(globals[..|globals| - 1]) + Width(globals[|globals| - 1])
  }

  predicate GlobalsApart(globals: seq<GlobalVar>) {
    forall i, j :: 0 <= i < j < |globals| ==> globals[i].name != globals[j].name
  }

  predicate SizesPositive(globals: seq<GlobalVar>) {
    forall i :: 0 <= i < |globals| && globals[i].size.Some? ==> globals[i].size.value > 0
  }

  /** The globals by their names. */
  predicate Shows(vis: Visible, globals: seq<GlobalVar>) {
    && (forall i :: 0 <= i < |globals| ==>
          globals[i].name in vis && vis[globals[i].name] == Symbol(globals[i].varType, globals[i].size.Some?, false))
    && (forall x <- vis :: vis[x].isFunction || exists i :: 0 <= i < |globals| && globals[i].name == x)
  }

  lemma {:induction false} StoragePositive(globals: seq<GlobalVar>)
    requires SizesPositive(globals)
    ensures Storage(globals) >= 0
  {
    if globals != [] {
      var q := globals[..|globals| - 1];
      assert forall i :: 0 <= i < |q| ==> q[i] == globals[i];
      StoragePositive(q);
    }
  }

  predicate OnlyVariables(vis: Visible) {
    forall x <- vis :: !vis[x].isFunction
  }

  lemma GlobalsMore(globals: seq<GlobalVar>)
    requires globals != []
    ensures var m := |globals| - 1;
      && (SizesPositive(globals) <==> SizesPositive(globals[..m]) && (globals[m].size.Some? ==> globals[m].size.value > 0))
      && (GlobalsApart(globals) <==> GlobalsApart(globals[..m]) && forall i :: 0 <= i < m ==> globals[i].name != globals[m].name)
  {
    var m := |globals| - 1;
    assert forall i :: 0 <= i < m ==> globals[..m][i] == globals[i];
  }

  lemma ShowsMore(vis: Visible, globals: seq<GlobalVar>)
    requires globals != [] && Shows(vis, globals[..|globals| - 1]) && OnlyVariables(vis)
    ensures var m := |globals| - 1;
      var g := globals[m];
      && (g.name in vis <==> exists i :: 0 <= i < m && globals[i].name == g.name)
      && (g.name !in vis ==> Shows(vis[g.name := Symbol(g.varType, g.size.Some?, false)], globals))
  {
    var m := |globals| - 1;
    var g, q := globals[m], globals[..m];
    assert forall i :: 0 <= i < m ==> q[i] == globals[i];
    if g.name in vis {
      var i :| 0 <= i < |q| && q[i].name == g.name;
      assert globals[i].name == g.name;
    }
    var vis' := vis[g.name := Symbol(g.varType, g.size.Some?, false)];
    forall x | x in vis' ensures exists i :: 0 <= i < |globals| && globals[i].name == x {
      if x in vis {
        var i :| 0 <= i < |q| && q[i].name == x;
        assert globals[i].name == x;
      } else {
        assert globals[m].name == x;
      }
    }
  }

  lemma {:induction false} GlobalsChecked(globals: seq<GlobalVar>)
    ensures var r := CheckGlobals(globals);
      && (r.Some? <==> GlobalsApart(globals) && SizesPositive(globals) && Storage(globals) <= MAX_GLOBAL_SLOTS)
      && (r.Some? ==> Shows(r.value.0, globals) && r.value.1 == Storage(globals) && OnlyVariables(r.value.0))
  {
    hide Shows, GlobalsApart, SizesPositive;
    if globals == [] {
      NoGlobals();
    } else {
      var m := |globals| - 1;
      var q := globals[..m];
      GlobalsChecked(q);
      GlobalsMore(globals);
      var rest := CheckGlobals(q);
      if rest.Some? {
        ShowsMore(rest.value.0, globals);
      } else if SizesPositive(globals) {
        StoragePositive(q);
        assert Width(globals[m]) >= 1;
      }
    }
  }

  lemma NoGlobals()
    ensures Shows(map[], []) && GlobalsApart([]) && SizesPositive([])
  {
  }

  predicate FunctionsApart(functions: seq<Function>) {
    forall i, j :: 0 <= i < j < |functions| ==> functions[i].name != functions[j].name
  }

  predicate FunctionsNew(vis: Visible, functions: seq<Function>) {
    forall i :: 0 <= i < |functions| ==> functions[i].name !in vis
  }

  /** The names visible everywhere: those before, and the functions with the types of their parameters. */
  predicate Joins(vis: Visible, functions: seq<Function>, vis': Visible, fs: Signatures) {
    && vis'.Keys == vis.Keys + fs.Keys && (forall x <- vis :: x !in fs ==> vis'[x] == vis[x])
    && (forall i :: 0 <= i < |functions| ==>
          functions[i].name in fs && fs[functions[i].name] == ParamTypes(functions[i].params))
    && (forall x <- fs :: vis'[x] == Symbol(IntType, false, true) && exists i :: 0 <= i < |functions| && functions[i].name == x)
  }

  lemma {:induction false} FunctionsChecked(vis: Visible, functions: seq<Function>)
    ensures var r := CheckFunctions(vis, functions);
      && (r.Some? <==> FunctionsApart(functions) && FunctionsNew(vis, functions))
      && (r.Some? ==> Joins(vis, functions, r.value.0, r.value.1))
  {
    hide Joins, FunctionsApart, FunctionsNew, ParamTypes;
    if functions == [] {
      NoFunctions(vis);
    } else {
      var m := |functions| - 1;
      FunctionsChecked(vis, functions[..m]);
      FunctionsMore(vis, functions);
      var rest := CheckFunctions(vis, functions[..m]);
      if rest.Some? {
        NamedBefore(vis, functions, rest.value.0, rest.value.1);
        JoinedNames(vis, functions[..m], rest.value.0, rest.value.1);
        if functions[m].name !in rest.value.0 {
          JoinsMore(vis, functions, rest.value.0, rest.value.1);
        }
      }
    }
  }

  lemma NoFunctions(vis: Visible)
    ensures FunctionsApart([]) && FunctionsNew(vis, []) && Joins(vis, [], vis, map[])
  {
  }

  lemma JoinedNames(vis: Visible, functions: seq<Function>, vis': Visible, fs: Signatures)
    requires Joins(vis, functions, vis', fs)
    ensures vis'.Keys == vis.Keys + fs.Keys
  {
  }

  lemma FunctionsMore(vis: Visible, functions: seq<Function>)
    requires functions != []
    ensures var m := |functions| - 1;
      && (FunctionsNew(vis, functions) <==> FunctionsNew(vis, functions[..m]) && functions[m].name !in vis)
      && (FunctionsApart(functions) <==>
            FunctionsApart(functions[..m]) && forall i :: 0 <= i < m ==> functions[i].name != functions[m].name)
  {
    var m := |functions| - 1;
    assert forall i :: 0 <= i < m ==> functions[..m][i] == functions[i];
  }

  lemma NamedBefore(vis: Visible, functions: seq<Function>, vis': Visible, fs: Signatures)
    requires functions != [] && Joins(vis, functions[..|functions| - 1], vis', fs)
    ensures var m := |functions| - 1;
      functions[m].name in fs <==> exists i :: 0 <= i < m && functions[i].name == functions[m].name
  {
    hide ParamTypes;
    var m := |functions| - 1;
    var q := functions[..m];
    assert forall i :: 0 <= i < m ==> q[i] == functions[i];
    if functions[m].name in fs {
      var i :| 0 <= i < |q| && q[i].name == functions[m].name;
      assert functions[i].name == functions[m].name;
    }
  }

  lemma JoinsMore(vis: Visible, functions: seq<Function>, vis': Visible, fs: Signatures)
    requires functions != [] && Joins(vis, functions[..|functions| - 1], vis', fs)
    requires var f := functions[|functions| - 1]; f.name !in vis' && f.name !in fs
    ensures var f := functions[|functions| - 1];
      Joins(vis, functions, vis'[f.name := Symbol(IntType, false, true)], fs[f.name := ParamTypes(f.params)])
  {
    hide ParamTypes;
    var m := |functions| - 1;
    var f, q := functions[m], functions[..m];
    var more := fs[f.name := ParamTypes(f.params)];
    forall i | 0 <= i < |functions| ensures functions[i].name in more && more[functions[i].name] == ParamTypes(functions[i].params) {
      assert i < m ==> functions[i] == q[i] && q[i].name in fs;
    }
    forall x | x in more.Keys ensures exists i :: 0 <= i < |functions| && functions[i].name == x {
      if x in fs {
        var i :| 0 <= i < |q| && q[i].name == x;
        assert functions[i].name == x;
      }
    }
  }

  /** The globals and functions by their names, and the functions' signatures. */
  ghost predicate Environment(p: Program, vis: Visible, fs: Signatures) {
    exists globals: Visible ::
      Shows(globals, p.globals) && OnlyVariables(globals) && Joins(globals, p.functions, vis, fs)
  }

  /** No two globals or functions share a name, and the globals fit their storage. */
  ghost predicate TopLevelRule(p: Program) {
    && GlobalsApart(p.globals) && SizesPositive(p.globals) && Storage(p.globals) <= MAX_GLOBAL_SLOTS
    && FunctionsApart(p.functions)
    && forall i, j :: 0 <= i < |p.globals| && 0 <= j < |p.functions| ==> p.globals[i].name != p.functions[j].name
  }

  lemma ShowsOnce(vis: Visible, vis': Visible, globals: seq<GlobalVar>)
    requires Shows(vis, globals) && Shows(vis', globals)
    requires OnlyVariables(vis) && OnlyVariables(vis')
    ensures vis == vis'
  {
    assert vis.Keys == vis'.Keys;
  }

  lemma JoinsOnce(globals: Visible, functions: seq<Function>, vis: Visible, fs: Signatures, vis': Visible, fs': Signatures)
    requires Joins(globals, functions, vis, fs) && Joins(globals, functions, vis', fs')
    ensures vis == vis' && fs == fs'
  {
    hide ParamTypes;
    assert fs.Keys == fs'.Keys;
    forall x | x in fs ensures fs[x] == fs'[x] {
      var i :| 0 <= i < |functions| && functions[i].name == x;
    }
  }

  /** There is one environment at most. */
  lemma OneEnvironment(p: Program, vis: Visible, fs: Signatures, vis': Visible, fs': Signatures)
    requires Environment(p, vis, fs) && Environment(p, vis', fs')
    ensures vis == vis' && fs == fs'
  {
    hide Shows, Joins;
    var g: Visible :| Shows(g, p.globals) && OnlyVariables(g) && Joins(g, p.functions, vis, fs);
    var g': Visible :| Shows(g', p.globals) && OnlyVariables(g') && Joins(g', p.functions, vis', fs');
    ShowsOnce(g, g', p.globals);
    JoinsOnce(g, p.functions, vis, fs, vis', fs');
  }

  lemma TopLevelChecked(p: Program)
    ensures TopLevel(p).Some? <==> TopLevelRule(p)
    ensures TopLevel(p).Some? ==> Environment(p, TopLevel(p).value.0, TopLevel(p).value.1)
  {
    hide CheckGlobals, CheckFunctions, Joins, Storage, SizesPositive, GlobalsApart, FunctionsApart;
    GlobalsChecked(p.globals);
    var g := CheckGlobals(p.globals);
    if g.Some? {
      FunctionsChecked(g.value.0, p.functions);
      if !FunctionsNew(g.value.0, p.functions) {
        var j :| 0 <= j < |p.functions| && p.functions[j].name in g.value.0;
        var i :| 0 <= i < |p.globals| && p.globals[i].name == p.functions[j].name;
      }
    }
  }

  /** Initializers have the declared kind, `main` exists without parameters, and every function obeys its rule. */
  ghost predicate BodiesRule(p: Program, vis: Visible, fs: Signatures) {
    && (forall i :: 0 <= i < |p.globals| && p.globals[i].init.Some? ==> Holds(vis, fs, p.globals[i].init.value, p.globals[i].varType))
    && "main" in fs && fs["main"] == []
    && (forall i :: 0 <= i < |p.functions| ==> FunctionRule(vis, fs, p.functions[i]))
  }

  /** All declarations and all nodes of the bodies obey their rules. */
  ghost predicate WellFormed(p: Program) {
    TopLevelRule(p) && exists vis, fs :: Environment(p, vis, fs) && BodiesRule(p, vis, fs)
  }

  /** A program is accepted exactly when its declarations and every node of its bodies obey their rules. */
  lemma AcceptedExactly(p: Program)
    ensures Accepts(p) <==> WellFormed(p)
  {
    hide TopLevelRule, Environment, Obeys, TypeOf, Analyze, FunctionRule, TopLevel;
    TopLevelChecked(p);
    var top := TopLevel(p);
    if top.Some? {
      BodiesChecked(p, top.value.0, top.value.1);
      if exists vis, fs :: Environment(p, vis, fs) && BodiesRule(p, vis, fs) {
        var vis, fs :| Environment(p, vis, fs) && BodiesRule(p, vis, fs);
        OneEnvironment(p, vis, fs, top.value.0, top.value.1);
      }
    }
  }

  lemma BodiesChecked(p: Program, vis: Visible, fs: Signatures)
    ensures BodiesRule(p, vis, fs) <==>
      && (forall i :: 0 <= i < |p.globals| ==> InitMatches(vis, fs, p.globals[i].init, p.globals[i].varType))
      && "main" in fs && fs["main"] == []
      && (forall i :: 0 <= i < |p.functions| ==> Analyze(vis, fs, p.functions[i]).Some?)
  {
    hide Obeys, TypeOf, Analyze, FunctionRule;
    forall i | 0 <= i < |p.globals| && p.globals[i].init.Some?
      ensures InitMatches(vis, fs, p.globals[i].init, p.globals[i].varType) <==> Holds(vis, fs, p.globals[i].init.value, p.globals[i].varType)
    {
      HoldsExactly(vis, fs, p.globals[i].init.value, p.globals[i].varType);
    }
    forall i | 0 <= i < |p.functions| ensures Analyze(vis, fs, p.functions[i]).Some? <==> FunctionRule(vis, fs, p.functions[i]) {
      FunctionChecked(vis, fs, p.functions[i]);
    }
  }
}
