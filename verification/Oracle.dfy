/** The AST interpreter: the source-level meaning of a program. */
module Oracle {
  import opened Common
  import opened Int32
  import opened Limits
  import opened Ast

  datatype Slot = Scalar(content: Option<int>) | Array(values: seq<int>)

  // A call frame holds one scope for the whole activation: blocks do not open another.
  type Scope = map<string, Slot>

  datatype State = State(globals: Scope, frames: seq<Scope>, output: seq<int>, cycles: nat)

  // What evaluating the value of a rejected store would have shown.
  datatype StoredValue = Quiet | Observable | OverLimit

  // Where a trap was raised; only one place matters: a store whose index is
  // rejected before its value is evaluated.
  datatype Site = Elsewhere | BeforeStoredValue(value: StoredValue)

  datatype Result<+T> = Ok(value: T) | Fail(code: TrapCode, site: Site)

  /** Only an out-of-bounds store is rejected before its value. */
  predicate Sited<T>(r: Result<T>) {
    r.Fail? && r.site.BeforeStoredValue? ==> r.code == ArrayOutOfBounds
  }

  datatype Eff<+T> = Eff(st: State, res: Result<T>)

  datatype Control = Continue | ReturnValue(value: int)

  datatype Outcome = Outcome(success: bool, returnValue: int, trap: TrapCode, output: seq<int>)

  function Fuel(st: State): nat {
    if st.cycles <= MAX_CYCLES then MAX_CYCLES + 1 - st.cycles else 0
  }

  function Trap<T>(st: State, code: TrapCode): Eff<T> {
    Eff(st, Fail(code, Elsewhere))
  }

  function Tick(st: State): Eff<()> {
    var st' := st.(cycles := st.cycles + 1);
    if st'.cycles > MAX_CYCLES then Trap(st', CycleLimit) else Eff(st', Ok(()))
  }

  // ---------------------------------------------------------------- names

  function Top(st: State): Scope {
    if st.frames == [] then map[] else st.frames[|st.frames| - 1]
  }

  function WithTop(st: State, scope: Scope): State
    requires st.frames != []
  {
    st.(frames := st.frames[|st.frames| - 1 := scope])
  }

  function LookupSlot(st: State, name: string): Option<Slot> {
    if name in Top(st) then Some(Top(st)[name])
    else if name in st.globals then Some(st.globals[name])
    else None
  }

  /** Overwrites the slot that LookupSlot finds. */
  function UpdateSlot(st: State, name: string, slot: Slot): State
    requires LookupSlot(st, name).Some?
  {
    if name in Top(st) then WithTop(st, Top(st)[name := slot])
    else st.(globals := st.globals[name := slot])
  }

  function ReadScalar(st: State, name: string): Result<int> {
    match LookupSlot(st, name)
    case Some(Scalar(Some(v))) => Ok(v)
    case Some(Scalar(None)) => Fail(UndefinedLocal, Elsewhere)
    case Some(Array(_)) => Fail(InvalidInstruction, Elsewhere)
    case None => Fail(InvalidInstruction, Elsewhere)
  }

  function ReadArray(st: State, name: string, index: nat): Result<int> {
    match LookupSlot(st, name)
    case Some(Array(values)) => if index < |values| then Ok(values[index]) else Fail(ArrayOutOfBounds, Elsewhere)
    case Some(Scalar(_)) => Fail(InvalidInstruction, Elsewhere)
    case None => Fail(InvalidInstruction, Elsewhere)
  }

  function AssignScalar(st: State, name: string, value: int): Eff<()> {
    match LookupSlot(st, name)
    case Some(Scalar(_)) => Eff(UpdateSlot(st, name, Scalar(Some(NormalizeI32(value)))), Ok(()))
    case Some(Array(_)) => Trap(st, InvalidInstruction)
    case None => Trap(st, InvalidInstruction)
  }

  function AssignGlobalScalar(st: State, name: string, value: int): Eff<()> {
    if name in st.globals && st.globals[name].Scalar? then
      Eff(st.(globals := st.globals[name := Scalar(Some(NormalizeI32(value)))]), Ok(()))
    else Trap(st, InvalidInstruction)
  }

  function AssignArray(st: State, name: string, index: nat, value: int): Eff<()> {
    match LookupSlot(st, name)
    case Some(Array(values)) =>
      if index < |values| then
        Eff(UpdateSlot(st, name, Array(values[index := NormalizeI32(value)])), Ok(()))
      else Trap(st, ArrayOutOfBounds)
    case Some(Scalar(_)) => Trap(st, InvalidInstruction)
    case None => Trap(st, InvalidInstruction)
  }

  function DeclareScalar(st: State, name: string): Eff<()> {
    if LookupSlot(st, name).Some? then Eff(st, Ok(()))
    else if st.frames == [] then Trap(st, InvalidInstruction)
    else Eff(WithTop(st, Top(st)[name := Scalar(None)]), Ok(()))
  }

  function DeclareOrUpdate(st: State, name: string, slot: Slot): Eff<()> {
    if LookupSlot(st, name).Some? then Eff(UpdateSlot(st, name, slot), Ok(()))
    else if st.frames == [] then Trap(st, InvalidInstruction)
    else Eff(WithTop(st, Top(st)[name := slot]), Ok(()))
  }

  // ---------------------------------------------------------------- evaluation

  function EvalBinary(op: BinaryOp, left: int, right: int): Result<int>
    requires op != And && op != Or
  {
    match op
    case Add => Ok(NormalizeI32(Wrap64(left + right)))
    case Sub => Ok(NormalizeI32(Wrap64(left - right)))
    case Mul => Ok(NormalizeI32(Wrap64(left * right)))
    case Div => if right == 0 then Fail(DivideByZero, Elsewhere) else Ok(NormalizeI32(TruncDiv(left, right)))
    case Eq => Ok(BoolValue(left == right))
    case Ne => Ok(BoolValue(left != right))
    case Lt => Ok(BoolValue(left < right))
    case Gt => Ok(BoolValue(left > right))
    case Le => Ok(BoolValue(left <= right))
    case Ge => Ok(BoolValue(left >= right))
  }

  function EvalUnary(op: UnaryOp, operand: int): int {
    match op
    case Neg => NormalizeI32(Wrap64(-operand))
    case Not => BoolValue(operand == 0)
  }

  /** The index of the last function with this name: later entries of the name table win. */
  function FindFunction(functions: seq<Function>, name: string): (r: Option<nat>)
    ensures r.Some? ==> r.value < |functions| && functions[r.value].name == name
    ensures r.None? ==> forall i :: 0 <= i < |functions| ==> functions[i].name != name
  {
    if functions == [] then None
    else if functions[|functions| - 1].name == name then Some(|functions| - 1)
    else FindFunction(functions[..|functions| - 1], name)
  }

  function BindParams(params: seq<Param>, args: seq<int>): Scope
    requires |params| == |args|
  {
    if params == [] then map[]
    else
      var n := |params| - 1;
      BindParams(params[..n], args[..n])[params[n].name := Scalar(Some(NormalizeI32(args[n])))]
  }

  function Eval(p: Program, st: State, e: Expr): (r: Eff<int>)
    ensures r.st.cycles >= st.cycles
    ensures st.output <= r.st.output
    ensures r.res.Ok? ==> st.cycles < r.st.cycles <= MAX_CYCLES
    ensures r.res.Ok? ==> r.st.frames == st.frames
    ensures Sited(r.res)
    decreases Fuel(st), 0
  {
    var t := Tick(st);
    if t.res.Fail? then Trap(t.st, t.res.code) else
    match e
    case IntLiteral(v) => Eff(t.st, Ok(v))
    case BoolLiteral(b) => Eff(t.st, Ok(BoolValue(b)))
    case Identifier(name) => Eff(t.st, ReadScalar(t.st, name))
    case Binary(op, left, right) =>
      var l := Eval(p, t.st, left);
      if l.res.Fail? then l
      else if op == And then
        if l.res.value == 0 then Eff(l.st, Ok(0)) else Truth(Eval(p, l.st, right))
      else if op == Or then
        if l.res.value != 0 then Eff(l.st, Ok(1)) else Truth(Eval(p, l.st, right))
      else
        var r := Eval(p, l.st, right);
        if r.res.Fail? then r else Eff(r.st, EvalBinary(op, l.res.value, r.res.value))
    case Unary(op, operand) =>
      var v := Eval(p, t.st, operand);
      if v.res.Fail? then v else Eff(v.st, Ok(EvalUnary(op, v.res.value)))
    case Call(name, args) =>
      var vs := EvalArgs(p, t.st, args);
      if vs.res.Fail? then Eff(vs.st, Fail(vs.res.code, vs.res.site)) else CallFunction(p, vs.st, name, vs.res.value)
    case ArrayIndex(name, index) =>
      var i := Eval(p, t.st, index);
      if i.res.Fail? then i
      else if i.res.value < 0 then Trap(i.st, ArrayOutOfBounds)
      else Eff(i.st, ReadArray(i.st, name, i.res.value))
  }

  function Truth(r: Eff<int>): (t: Eff<int>)
    ensures t.st == r.st && (t.res.Ok? <==> r.res.Ok?)
  {
    if r.res.Fail? then r else Eff(r.st, Ok(BoolValue(r.res.value != 0)))
  }

  function EvalArgs(p: Program, st: State, args: seq<Expr>): (r: Eff<seq<int>>)
    ensures r.st.cycles >= st.cycles
    ensures st.output <= r.st.output
    ensures r.res.Ok? ==> |r.res.value| == |args|
    ensures r.res.Ok? ==> r.st.frames == st.frames
    ensures Sited(r.res)
    ensures r.res.Ok? && st.cycles <= MAX_CYCLES ==> r.st.cycles <= MAX_CYCLES
    decreases Fuel(st), |args| + 1
  {
    if args == [] then Eff(st, Ok([]))
    else
      var v := Eval(p, st, args[0]);
      if v.res.Fail? then Eff(v.st, Fail(v.res.code, v.res.site))
      else
        var rest := EvalArgs(p, v.st, args[1..]);
        if rest.res.Fail? then rest else Eff(rest.st, Ok([v.res.value] + rest.res.value))
  }

  function CallFunction(p: Program, st: State, name: string, args: seq<int>): (r: Eff<int>)
    ensures r.st.cycles >= st.cycles
    ensures st.output <= r.st.output
    ensures r.res.Ok? ==> st.cycles < r.st.cycles <= MAX_CYCLES
    ensures r.res.Ok? ==> r.st.frames == st.frames
    ensures Sited(r.res)
    decreases Fuel(st), 0
  {
    var t := Tick(st);
    if t.res.Fail? then Trap(t.st, t.res.code)
    else if |t.st.frames| >= MAX_FRAMES then Trap(t.st, StackOverflow)
    else
      var found := FindFunction(p.functions, name);
      if found.None? then Trap(t.st, UndefinedFunction)
      else
        var f := p.functions[found.value];
        if |args| != |f.params| then Trap(t.st, InvalidInstruction)
        else
          var entered := t.st.(frames := t.st.frames + [BindParams(f.params, args)]);
          var b := ExecBlock(p, entered, f.body);
          if b.res.Fail? then Eff(b.st, Fail(b.res.code, b.res.site))
          else
            var value := if b.res.value.Continue? then 0 else b.res.value.value;
            Eff(PopFrame(b.st), Ok(NormalizeI32(value)))
  }

  /** Callers' frames are untouched; only the top scope may differ. */
  predicate SameBelow(st: State, st': State) {
    && |st.frames| == |st'.frames|
    && forall i :: 0 <= i < |st.frames| - 1 ==> st.frames[i] == st'.frames[i]
  }

  function PopFrame(st: State): State {
    if st.frames == [] then st else st.(frames := st.frames[..|st.frames| - 1])
  }

  function ExecBlock(p: Program, st: State, stmts: seq<Stmt>): (r: Eff<Control>)
    ensures r.st.cycles >= st.cycles
    ensures st.output <= r.st.output
    ensures r.res.Ok? ==> SameBelow(st, r.st)
    ensures Sited(r.res)
    ensures r.res.Ok? && st.cycles <= MAX_CYCLES ==> r.st.cycles <= MAX_CYCLES
    decreases Fuel(st), |stmts| + 1
  {
    if stmts == [] then Eff(st, Ok(Continue))
    else
      var s := ExecStmt(p, st, stmts[0]);
      if s.res.Fail? || s.res.value.ReturnValue? then s else ExecBlock(p, s.st, stmts[1..])
  }

  /** What evaluating the stored value at a rejected store would have added to the outcome. */
  function Preview(st: State, r: Eff<int>): StoredValue {
    if r.res.Fail? && (r.res.code in {CycleLimit, StackOverflow} || r.res.site == BeforeStoredValue(OverLimit)) then
      OverLimit
    else if r.st.output == st.output && (r.res.Ok? || (r.res.code == ArrayOutOfBounds && r.res.site != BeforeStoredValue(Observable))) then
      Quiet
    else Observable
  }

  function ExecStmt(p: Program, st: State, s: Stmt): (r: Eff<Control>)
    ensures r.st.cycles >= st.cycles
    ensures st.output <= r.st.output
    ensures r.res.Ok? ==> st.cycles < r.st.cycles <= MAX_CYCLES
    ensures r.res.Ok? ==> SameBelow(st, r.st)
    ensures Sited(r.res)
    decreases Fuel(st), 0
  {
    var t := Tick(st);
    if t.res.Fail? then Trap(t.st, t.res.code) else
    match s
    case VarDecl(_, name, init, size) => ExecDecl(p, t.st, name, init, size)
    case Assign(target, indexExpr, value) => ExecAssign(p, t.st, target, indexExpr, value)
    case If(condition, thenBody, elseBody) =>
      var c := Eval(p, t.st, condition);
      if c.res.Fail? then Failed(c)
      else if c.res.value != 0 then ExecBlock(p, c.st, thenBody)
      else if elseBody.Else? then ExecBlock(p, c.st, elseBody.body)
      else Eff(c.st, Ok(Continue))
    case While(condition, body) => ExecWhile(p, t.st, condition, body)
    case Return(value) =>
      var v := Eval(p, t.st, value);
      if v.res.Fail? then Failed(v) else Eff(v.st, Ok(ReturnValue(v.res.value)))
    case Print(value) =>
      var v := Eval(p, t.st, value);
      if v.res.Fail? then Failed(v) else Eff(v.st.(output := v.st.output + [v.res.value]), Ok(Continue))
    case ExprStmt(e) =>
      var v := Eval(p, t.st, e);
      if v.res.Fail? then Failed(v) else Eff(v.st, Ok(Continue))
  }

  function ExecDecl(p: Program, st: State, name: string, init: Option<Expr>, size: Option<I32>): (r: Eff<Control>)
    ensures r.st.cycles >= st.cycles
    ensures st.output <= r.st.output
    ensures r.res.Ok? ==> SameBelow(st, r.st)
    ensures Sited(r.res)
    ensures r.res.Ok? && st.cycles <= MAX_CYCLES ==> r.st.cycles <= MAX_CYCLES
    decreases Fuel(st), 1
  {
    if size.Some? then Done(DeclareOrUpdate(st, name, Array(Zeros(size.value))))
    else
      var d := DeclareScalar(st, name);
      if d.res.Fail? || init.None? then Done(d)
      else
        var v := Eval(p, d.st, init.value);
        if v.res.Fail? then Failed(v) else Done(AssignScalar(v.st, name, v.res.value))
  }

  function ExecAssign(p: Program, st: State, target: string, indexExpr: Option<Expr>, value: Expr): (r: Eff<Control>)
    ensures r.st.cycles >= st.cycles
    ensures st.output <= r.st.output
    ensures r.res.Ok? ==> SameBelow(st, r.st)
    ensures Sited(r.res)
    ensures r.res.Ok? && st.cycles <= MAX_CYCLES ==> r.st.cycles <= MAX_CYCLES
    decreases Fuel(st), 1
  {
    if indexExpr.None? then
      var v := Eval(p, st, value);
      if v.res.Fail? then Failed(v) else Done(AssignScalar(v.st, target, v.res.value))
    else
      var i := Eval(p, st, indexExpr.value);
      if i.res.Fail? then Failed(i)
      else
        var v := Eval(p, i.st, value);
        if i.res.value < 0 then Eff(i.st, Fail(ArrayOutOfBounds, BeforeStoredValue(Preview(i.st, v))))
        else if v.res.Fail? then Failed(v)
        else Done(AssignArray(v.st, target, i.res.value, v.res.value))
  }

  function ExecWhile(p: Program, st: State, condition: Expr, body: seq<Stmt>): (r: Eff<Control>)
    ensures r.st.cycles >= st.cycles
    ensures st.output <= r.st.output
    ensures r.res.Ok? ==> SameBelow(st, r.st)
    ensures Sited(r.res)
    ensures r.res.Ok? && st.cycles <= MAX_CYCLES ==> r.st.cycles <= MAX_CYCLES
    decreases Fuel(st), 1
  {
    var c := Eval(p, st, condition);
    if c.res.Fail? then Failed(c)
    else if c.res.value == 0 then Eff(c.st, Ok(Continue))
    else
      var b := ExecBlock(p, c.st, body);
      if b.res.Fail? || b.res.value.ReturnValue? then b else ExecWhile(p, b.st, condition, body)
  }

  function Zeros(size: int): (z: seq<int>)
    ensures |z| == (if size < 0 then 0 else size)
    ensures forall i :: 0 <= i < |z| ==> z[i] == 0
  {
    seq(if size < 0 then 0 else size, _ => 0)
  }

  function Done(r: Eff<()>): Eff<Control> {
    Eff(r.st, if r.res.Ok? then Ok(Continue) else Fail(r.res.code, r.res.site))
  }

  function Failed(r: Eff<int>): (c: Eff<Control>)
    requires r.res.Fail?
  {
    Eff(r.st, Fail(r.res.code, r.res.site))
  }

  // ---------------------------------------------------------------- programs

  function InitialGlobals(globals: seq<GlobalVar>): Scope {
    if globals == [] then map[]
    else
      var g := globals[|globals| - 1];
      InitialGlobals(globals[..|globals| - 1])[g.name := if g.size.Some? then Array(Zeros(g.size.value)) else Scalar(Some(0))]
  }

  function InitializeGlobals(p: Program, st: State, globals: seq<GlobalVar>): (r: Eff<()>)
    ensures r.st.cycles >= st.cycles
    decreases |globals|
  {
    if globals == [] then Eff(st, Ok(()))
    else if globals[0].init.None? then InitializeGlobals(p, st, globals[1..])
    else
      var v := Eval(p, st, globals[0].init.value);
      if v.res.Fail? then Eff(v.st, Fail(v.res.code, v.res.site))
      else
        var a := AssignGlobalScalar(v.st, globals[0].name, v.res.value);
        if a.res.Fail? then a else InitializeGlobals(p, a.st, globals[1..])
  }

  function Start(p: Program): State {
    State(InitialGlobals(p.globals), [], [], 0)
  }

  /** The whole run: global initializers with no frame, then `main`. */
  function RunEffect(p: Program): Eff<int> {
    var g := InitializeGlobals(p, Start(p), p.globals);
    if g.res.Fail? then Eff(g.st, Fail(g.res.code, g.res.site)) else CallFunction(p, g.st, "main", [])
  }

  function OutcomeOf(r: Eff<int>): Outcome {
    match r.res
    case Ok(v) => Outcome(true, v, NoTrap, r.st.output)
    case Fail(code, _) => Outcome(false, 0, code, r.st.output)
  }

  function Run(p: Program): Outcome {
    OutcomeOf(RunEffect(p))
  }
}
