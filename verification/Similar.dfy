/** Programs that differ by the rewrites of the fuzzer, and the oracle's runs on them, side by side. */
module Similar {
  import opened Common
  import opened Int32
  import opened Limits
  import opened Ast
  import opened Oracle
  import opened Rereading

  // What a rewriting brings along: a helper function, a local that nothing else mentions, whether constant writes may
  // have changed places, and whether expressions may have been printed and read back.
  datatype Rewriting = Rewriting(helper: Option<string>, hidden: Option<string>, swaps: bool, rereads: bool)

  // ---------------------------------------------------------------- names an expression leaves alone

  /** No call of the helper and no mention of the hidden local. */
  predicate Avoids(helper: Option<string>, hidden: Option<string>, e: Expr)
    decreases e
  {
    match e
    case IntLiteral(_) => true
    case BoolLiteral(_) => true
    case Identifier(name) => hidden != Some(name)
    case Binary(_, left, right) => Avoids(helper, hidden, left) && Avoids(helper, hidden, right)
    case Unary(_, operand) => Avoids(helper, hidden, operand)
    case Call(name, args) => helper != Some(name) && forall i :: 0 <= i < |args| ==> Avoids(helper, hidden, args[i])
    case ArrayIndex(name, index) => hidden != Some(name) && Avoids(helper, hidden, index)
  }

  predicate OptAvoids(helper: Option<string>, hidden: Option<string>, e: Option<Expr>) {
    e.Some? ==> Avoids(helper, hidden, e.value)
  }

  predicate StmtAvoids(helper: Option<string>, hidden: Option<string>, s: Stmt)
    decreases s, 0
  {
    match s
    case VarDecl(_, name, init, _) => hidden != Some(name) && OptAvoids(helper, hidden, init)
    case Assign(target, index, value) =>
      hidden != Some(target) && OptAvoids(helper, hidden, index) && Avoids(helper, hidden, value)
    case If(condition, thenBody, elseBody) =>
      && Avoids(helper, hidden, condition) && BlockAvoids(helper, hidden, thenBody)
      && (elseBody.Else? ==> BlockAvoids(helper, hidden, elseBody.body))
    case While(condition, body) => Avoids(helper, hidden, condition) && BlockAvoids(helper, hidden, body)
    case Return(value) => Avoids(helper, hidden, value)
    case Print(value) => Avoids(helper, hidden, value)
    case ExprStmt(e) => Avoids(helper, hidden, e)
  }

  predicate BlockAvoids(helper: Option<string>, hidden: Option<string>, stmts: seq<Stmt>)
    decreases stmts, 0
  {
    stmts == [] || (StmtAvoids(helper, hidden, stmts[0]) && BlockAvoids(helper, hidden, stmts[1..]))
  }

  // ---------------------------------------------------------------- similar programs

  function AddZero(e: Expr): Expr {
    Binary(BinaryOp.Add, e, IntLiteral(0))
  }

  function SubZero(e: Expr): Expr {
    Binary(BinaryOp.Sub, e, IntLiteral(0))
  }

  function MulOne(e: Expr): Expr {
    Binary(BinaryOp.Mul, e, IntLiteral(1))
  }

  function NotOf(e: Expr): Expr {
    Unary(UnaryOp.Not, e)
  }

  /** The same expression, possibly in a neutral operation or a call of the helper. */
  predicate ValueSimilar(x: Rewriting, e: Expr, e': Expr) {
    || e' == e || e' == AddZero(e) || e' == SubZero(e) || e' == MulOne(e)
    || (x.helper.Some? && e' == Call(x.helper.value, [e]))
    || (x.rereads && e' == RereadExpr(e))
  }

  predicate OptSimilar(x: Rewriting, e: Option<Expr>, e': Option<Expr>) {
    e'.Some? == e.Some? && (e.Some? ==> ValueSimilar(x, e.value, e'.value))
  }

  /** The same condition, possibly negated twice. */
  predicate TestSimilar(x: Rewriting, e: Expr, e': Expr) {
    e' == e || e' == NotOf(NotOf(e)) || (x.rereads && e' == RereadExpr(e))
  }

  function ElseStmts(e: ElseBody): seq<Stmt> {
    if e.Else? then e.body else []
  }

  /** The same statement on similar parts; a conditional may be negated with its branches exchanged. */
  predicate StmtSimilar(x: Rewriting, s: Stmt, s': Stmt)
    decreases s, 0
  {
    match s
    case VarDecl(ty, name, init, size) =>
      && s'.VarDecl? && s' == VarDecl(ty, name, s'.init, size)
      && (if size.Some? then s'.init == init || (x.rereads && s'.init.None?) else OptSimilar(x, init, s'.init))
    case Assign(target, index, value) =>
      && s'.Assign? && s'.target == target
      && OptSimilar(x, index, s'.indexExpr) && ValueSimilar(x, value, s'.value)
    case If(condition, thenBody, elseBody) =>
      && s'.If?
      && if s'.condition == NotOf(condition) then
           && BlockSimilar(x, thenBody, ElseStmts(s'.elseBody))
           && (if elseBody.Else? then BlockSimilar(x, elseBody.body, s'.thenBody) else s'.thenBody == [])
         else
           && TestSimilar(x, condition, s'.condition) && BlockSimilar(x, thenBody, s'.thenBody)
           && (if elseBody.Else? then BlockSimilar(x, elseBody.body, ElseStmts(s'.elseBody)) else ElseStmts(s'.elseBody) == [])
    case While(condition, body) => s'.While? && TestSimilar(x, condition, s'.condition) && BlockSimilar(x, body, s'.body)
    case Return(value) => s'.Return? && ValueSimilar(x, value, s'.value)
    case Print(value) => s'.Print? && ValueSimilar(x, value, s'.value)
    case ExprStmt(e) => s'.ExprStmt? && ValueSimilar(x, e, s'.expr)
  }

  /** Similar statements one by one; two neighbouring constant writes may have changed places. */
  predicate BlockSimilar(x: Rewriting, stmts: seq<Stmt>, stmts': seq<Stmt>)
    decreases stmts, 0
  {
    && |stmts'| == |stmts|
    && (stmts == []
        || (StmtSimilar(x, stmts[0], stmts'[0]) && BlockSimilar(x, stmts[1..], stmts'[1..]))
        || (|stmts| >= 2 && x.swaps && CanReorder(stmts[0], stmts[1])
            && stmts'[..2] == [stmts[1], stmts[0]] && BlockSimilar(x, stmts[2..], stmts'[2..])))
  }

  /** A scalar declared or assigned with a constant. */
  function ConstantWrite(s: Stmt): Option<string> {
    match s
    case VarDecl(_, name, init, size) =>
      if size.None? && (init.Some? ==> IsConstant(init.value)) then Some(name) else None
    case Assign(target, index, value) => if index.None? && IsConstant(value) then Some(target) else None
    case _ => None
  }

  /** Built from literals without division. */
  predicate IsConstant(e: Expr) {
    match e
    case IntLiteral(_) => true
    case BoolLiteral(_) => true
    case Unary(_, operand) => IsConstant(operand)
    case Binary(op, left, right) => op != BinaryOp.Div && IsConstant(left) && IsConstant(right)
    case _ => false
  }

  predicate CanReorder(left: Stmt, right: Stmt) {
    && ConstantWrite(left).Some? && ConstantWrite(right).Some?
    && ConstantWrite(left) != ConstantWrite(right)
  }

  function DeadPrint(): Stmt {
    If(IntLiteral(0), [Stmt.Print(IntLiteral(424242))], NoElse)
  }

  function NeutralLocal(name: string): seq<Stmt> {
    [VarDecl(IntType, name, Some(IntLiteral(0)), None), Assign(name, None, AddZero(Identifier(name)))]
  }

  datatype Entry = Plain | DeadPrintFirst | LocalFirst(name: string)

  function Opening(entry: Entry): seq<Stmt> {
    match entry
    case Plain => []
    case DeadPrintFirst => [DeadPrint()]
    case LocalFirst(name) => NeutralLocal(name)
  }

  /** The body follows what the rewriting put in front of it. */
  predicate BodySimilar(x: Rewriting, entry: Entry, f: Function, f': Function) {
    var opening := Opening(entry);
    && |f'.body| >= |opening| && f'.body[..|opening|] == opening && BlockSimilar(x, f.body, f'.body[|opening|..])
    && BlockAvoids(x.helper, Hidden(entry), f.body)
    && (entry.LocalFirst? ==> x.hidden == Hidden(entry) && forall i :: 0 <= i < |f.params| ==> f.params[i].name != entry.name)
  }

  function Hidden(entry: Entry): Option<string> {
    if entry.LocalFirst? then Some(entry.name) else None
  }

  predicate FunctionSimilar(x: Rewriting, f: Function, f': Function) {
    && f'.name == f.name && f'.params == f.params
    && (BodySimilar(x, Plain, f, f') || BodySimilar(x, DeadPrintFirst, f, f')
        || (x.hidden.Some? && BodySimilar(x, LocalFirst(x.hidden.value), f, f')))
  }

  /** Returns its only argument. */
  predicate IsHelper(f: Function, name: string) {
    f.name == name && |f.params| == 1 && f.body == [Return(Identifier(f.params[0].name))]
  }

  predicate GlobalSimilar(x: Rewriting, g: GlobalVar, g': GlobalVar) {
    && g' == GlobalVar(g.varType, g.name, g'.init, g.size)
    && OptSimilar(x, g.init, g'.init) && OptAvoids(x.helper, None, g.init)
    && x.hidden != Some(g.name)
  }

  /** Similar globals and functions in the same order; the helper, if there is one, in front of the functions. */
  predicate ProgramSimilar(x: Rewriting, p: Program, q: Program) {
    var extra := if x.helper.Some? then 1 else 0;
    && |q.globals| == |p.globals| && |q.functions| == |p.functions| + extra
    && (forall i :: 0 <= i < |p.globals| ==> GlobalSimilar(x, p.globals[i], q.globals[i]))
    && (forall i :: 0 <= i < |p.functions| ==> FunctionSimilar(x, p.functions[i], q.functions[i + extra]))
    && (x.helper.Some? ==>
          && IsHelper(q.functions[0], x.helper.value)
          && forall i :: 0 <= i < |p.functions| ==> p.functions[i].name != x.helper.value)
  }

  // ---------------------------------------------------------------- states side by side

  predicate SaneSlot(slot: Slot) {
    match slot
    case Scalar(Some(v)) => IsI32(v)
    case Scalar(None) => true
    case Array(values) => forall i :: 0 <= i < |values| ==> IsI32(values[i])
  }

  predicate Sane(scope: Scope) {
    forall y <- scope :: SaneSlot(scope[y])
  }

  predicate TopSame(hidden: Option<string>, top: Scope, top': Scope) {
    if hidden.None? then top' == top else hidden.value !in top && top' - {hidden.value} == top
  }

  /** Equal globals, outputs and depths; equal scopes of the running function but for the hidden local. */
  predicate Close(x: Rewriting, hidden: Option<string>, st: State, st': State) {
    && st'.globals == st.globals && st'.output == st.output && st.cycles <= st'.cycles
    && |st'.frames| == |st.frames|
    && Sane(st.globals) && Sane(Top(st))
    && (x.hidden.Some? ==> x.hidden.value !in st.globals)
    && (hidden.Some? ==> hidden == x.hidden)
    && TopSame(hidden, Top(st), Top(st'))
  }

  predicate AtLimit<T>(r: Eff<T>) {
    r.res.Fail? && r.res.code in {CycleLimit, StackOverflow}
  }

  /** Equal results in states side by side, or equal traps after equal outputs. */
  predicate Agree<T(==)>(x: Rewriting, hidden: Option<string>, r: Eff<T>, r': Eff<T>) {
    if r.res.Ok? then r'.res == r.res && Close(x, hidden, r.st, r'.st)
    else r'.res.Fail? && r'.res.code == r.res.code && r'.st.output == r.st.output
  }

  /** Of two exchanged writes, the second traps in the original before the first one's limit is met. */
  predicate Exchanged<T>(x: Rewriting, r: Eff<T>, r': Eff<T>) {
    x.swaps && AtLimit(r) && r'.res.Fail? && r'.res.code == InvalidInstruction
  }

  /** Agreement, unless the rewritten program met a limit or a trap of exchanged writes. */
  predicate Matches<T(==)>(x: Rewriting, hidden: Option<string>, r: Eff<T>, r': Eff<T>) {
    AtLimit(r') || Exchanged(x, r, r') || Agree(x, hidden, r, r')
  }

  lemma CloseAfter(x: Rewriting, hidden: Option<string>, st: State, st': State, t: State, t': State)
    requires Close(x, hidden, st, st')
    requires t.globals == st.globals && t.frames == st.frames && t'.globals == st'.globals && t'.frames == st'.frames
    requires t.output == t'.output && t.cycles <= t'.cycles
    ensures Close(x, hidden, t, t')
  {
  }

  lemma LookupSame(x: Rewriting, hidden: Option<string>, st: State, st': State, name: string)
    requires Close(x, hidden, st, st') && hidden != Some(name)
    ensures LookupSlot(st', name) == LookupSlot(st, name)
    ensures name in Top(st') <==> name in Top(st)
    ensures LookupSlot(st, name).Some? ==> SaneSlot(LookupSlot(st, name).value)
  {
    if hidden.Some? {
      assert name in Top(st') <==> name in Top(st') - {hidden.value};
    }
  }

  /** Writing the same slot in both. */
  lemma TopWritten(x: Rewriting, hidden: Option<string>, st: State, st': State, name: string, slot: Slot)
    requires Close(x, hidden, st, st') && hidden != Some(name) && st.frames != [] && SaneSlot(slot)
    ensures Close(x, hidden, WithTop(st, Top(st)[name := slot]), WithTop(st', Top(st')[name := slot]))
  {
    var t, t' := WithTop(st, Top(st)[name := slot]), WithTop(st', Top(st')[name := slot]);
    assert Top(t) == Top(st)[name := slot] && Top(t') == Top(st')[name := slot];
    if hidden.Some? {
      assert Top(t') - {hidden.value} == (Top(st') - {hidden.value})[name := slot];
    }
  }

  lemma UpdateSame(x: Rewriting, hidden: Option<string>, st: State, st': State, name: string, slot: Slot)
    requires Close(x, hidden, st, st') && hidden != Some(name) && LookupSlot(st, name).Some? && SaneSlot(slot)
    ensures LookupSlot(st', name).Some? && Close(x, hidden, UpdateSlot(st, name, slot), UpdateSlot(st', name, slot))
  {
    LookupSame(x, hidden, st, st', name);
    if name in Top(st) {
      TopWritten(x, hidden, st, st', name, slot);
    }
  }

  lemma AssignSame(x: Rewriting, hidden: Option<string>, st: State, st': State, name: string, value: int)
    requires Close(x, hidden, st, st') && hidden != Some(name)
    ensures Matches(x, hidden, AssignScalar(st, name, value), AssignScalar(st', name, value))
  {
    hide Close, UpdateSlot, NormalizeI32;
    SameOutput(x, hidden, st, st');
    LookupSame(x, hidden, st, st', name);
    if LookupSlot(st, name).Some? {
      UpdateSame(x, hidden, st, st', name, Scalar(Some(NormalizeI32(value))));
    }
  }

  lemma SameOutput(x: Rewriting, hidden: Option<string>, st: State, st': State)
    requires Close(x, hidden, st, st')
    ensures st'.output == st.output && |st'.frames| == |st.frames| && st.cycles <= st'.cycles
  {
  }

  lemma AssignArraySame(x: Rewriting, hidden: Option<string>, st: State, st': State, name: string, index: nat, value: int)
    requires Close(x, hidden, st, st') && hidden != Some(name)
    ensures Matches(x, hidden, AssignArray(st, name, index, value), AssignArray(st', name, index, value))
  {
    hide Close, UpdateSlot, NormalizeI32;
    SameOutput(x, hidden, st, st');
    LookupSame(x, hidden, st, st', name);
    match LookupSlot(st, name) {
      case Some(Array(values)) =>
        if index < |values| {
          UpdateSame(x, hidden, st, st', name, Array(values[index := NormalizeI32(value)]));
        }
      case _ =>
    }
  }

  lemma DeclareSame(x: Rewriting, hidden: Option<string>, st: State, st': State, name: string)
    requires Close(x, hidden, st, st') && hidden != Some(name)
    ensures Matches(x, hidden, DeclareScalar(st, name), DeclareScalar(st', name))
  {
    hide Close, WithTop, LookupSlot;
    SameOutput(x, hidden, st, st');
    LookupSame(x, hidden, st, st', name);
    if LookupSlot(st, name).None? && st.frames != [] {
      TopWritten(x, hidden, st, st', name, Scalar(None));
    }
  }

  lemma DeclareOrUpdateSame(x: Rewriting, hidden: Option<string>, st: State, st': State, name: string, slot: Slot)
    requires Close(x, hidden, st, st') && hidden != Some(name) && SaneSlot(slot)
    ensures Matches(x, hidden, DeclareOrUpdate(st, name, slot), DeclareOrUpdate(st', name, slot))
  {
    hide Close, WithTop, LookupSlot, UpdateSlot, SaneSlot;
    SameOutput(x, hidden, st, st');
    LookupSame(x, hidden, st, st', name);
    if LookupSlot(st, name).Some? {
      UpdateSame(x, hidden, st, st', name, slot);
    } else if st.frames != [] {
      TopWritten(x, hidden, st, st', name, slot);
    }
  }

  /** After calls that left the frames alone. */
  lemma FramesKept(x: Rewriting, hidden: Option<string>, inner: Option<string>, st: State, st': State, r: State, r': State)
    requires Close(x, hidden, st, st') && Close(x, inner, r, r')
    ensures Close(x, hidden, r.(frames := st.frames), r'.(frames := st'.frames))
  {
  }
}
