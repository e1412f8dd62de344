/** Compiled code is disciplined: the plan of a function follows the structure of its body. */
module CompiledShapes {
  import opened Common
  import opened Int32
  import opened Limits
  import opened Ast
  import opened Bytecode
  import opened CodeGen
  import opened Simulation
  import opened Discipline
  import C = Compiler
  import K = CallSteps
  import V = Verifier
  import W = Worklist
  import S = Sema

  // ---------------------------------------------------------------- operand height

  function Max(a: nat, b: nat): nat {
    if a < b then b else a
  }

  /** Operand slots that evaluating an expression needs. */
  function Height(e: Expr): (h: nat)
    ensures h >= 1
    decreases e, 0
  {
    match e
    case Binary(op, left, right) =>
      if IsShort(op) then Max(Height(left), Max(Height(right), 2)) else Max(Height(left), 1 + Height(right))
    case Unary(_, operand) => Height(operand)
    case Call(_, args) => Max(1, ArgsHeight(args))
    case ArrayIndex(_, index) => Height(index)
    case _ => 1
  }

  function ArgsHeight(args: seq<Expr>): (h: nat)
    ensures h >= |args|
    decreases args, 0
  {
    if args == [] then 0 else Max(Height(args[0]), 1 + ArgsHeight(args[1..]))
  }

  function StmtHeight(s: Stmt): nat
    decreases s, 0
  {
    match s
    case VarDecl(_, _, init, _) => if init.Some? then Height(init.value) else 1
    case Assign(_, index, value) => if index.Some? then Max(Height(index.value), 1 + Height(value)) else Height(value)
    case If(condition, thenBody, elseBody) =>
      Max(Height(condition), Max(BlockHeight(thenBody), if elseBody.Else? then BlockHeight(elseBody.body) else 0))
    case While(condition, body) => Max(Height(condition), BlockHeight(body))
    case Return(value) => Height(value)
    case Print(value) => Height(value)
    case ExprStmt(e) => Height(e)
  }

  function BlockHeight(stmts: seq<Stmt>): nat
    decreases stmts, 0
  {
    if stmts == [] then 0 else Max(StmtHeight(stmts[0]), BlockHeight(stmts[1..]))
  }

  // ---------------------------------------------------------------- what is known while a body is compiled

  // A compiled function: its program, its code range, its complete table and the limit on operands.
  datatype Site = Site(x: Link, r: V.Range, full: Table, limit: nat)

  /** The kind of a slot: that of the name it belongs to. */
  ghost function KindOf(full: Table, slot: nat): Kind {
    if exists y <- full.locals :: full.locals[y].slot == slot && full.locals[y].isArray then
      var y :| y in full.locals && full.locals[y].slot == slot && full.locals[y].isArray;
      ArraySlot(full.locals[y].arraySize)
    else ScalarSlot
  }

  ghost function Kinds(z: Site): (kinds: seq<Kind>)
    ensures |kinds| == z.full.next
  {
    seq(z.full.next, slot requires slot >= 0 => KindOf(z.full, slot))
  }

  ghost predicate SiteOk(z: Site) {
    && Linked(z.x) && TableOk(z.full) && z.full.next <= MAX_LOCAL_SLOTS
    && (forall y <- z.full.locals :: y !in z.x.n.globals)
    && z.r.info.localCount == z.full.next && z.r.end <= |z.x.c.instructions|
    && z.x.c.globals == z.x.n.globals
  }

  /** What the analyzer sees is what the compiler's tables say. */
  ghost predicate Sighted(z: Site, t: Table, vis: S.Visible) {
    && Extends(t.locals, z.full.locals)
    && (forall y :: y in vis && vis[y].isFunction ==> !vis[y].isArray)
    && forall y :: y in vis && !vis[y].isFunction ==>
         if y in z.x.n.globals then z.x.n.globals[y].isArray == vis[y].isArray
         else y in t.locals && t.locals[y].isArray == vis[y].isArray
  }

  /** Slots of the arrays in scope: each holds its array. */
  function Ready(z: Site, vis: S.Visible): set<nat> {
    set y | y in vis && vis[y].isArray && y in z.full.locals :: z.full.locals[y].slot
  }

  function At(z: Site, vis: S.Visible, depth: nat): Shape {
    Shape(depth, Ready(z, vis), None)
  }

  ghost predicate FitsAt(z: Site, shapes: Shapes, from: nat, to: nat, first: Shape, last: Shape) {
    Fits(z.x.c, z.r, Kinds(z), z.limit, shapes, from, to, first, last)
  }

  lemma KindOfName(z: Site, y: string)
    requires TableOk(z.full) && y in z.full.locals
    ensures HasKind(Kinds(z), z.full.locals[y].slot, if z.full.locals[y].isArray then ArraySlot(z.full.locals[y].arraySize) else ScalarSlot)
  {
  }

  lemma SlotsFit(z: Site)
    requires SiteOk(z)
    ensures |z.x.c.instructions| <= MAX_INSTRUCTIONS && LayoutOk(z.x.n.globals)
    ensures forall y <- z.full.locals :: z.full.locals[y].slot < MAX_LOCAL_SLOTS && z.full.locals[y].arraySize <= I32_MAX
    ensures forall y <- z.x.n.globals :: z.x.n.globals[y].slot < MAX_GLOBAL_SLOTS && z.x.n.globals[y].arraySize <= MAX_GLOBAL_SLOTS
  {
    hide FunctionLinked, SignatureLinked;
  }

  predicate Within(z: Site, from: nat, to: nat) {
    z.r.start <= from <= to < z.r.end
  }

  // ---------------------------------------------------------------- single instructions

  predicate Plain(op: Opcode) {
    op in {LoadConst, Pop, Opcode.Print, Opcode.Neg, Opcode.Not, Opcode.Add, Opcode.Sub, Opcode.Mul, Opcode.Div,
           Opcode.Eq, Opcode.Ne, Opcode.Lt, Opcode.Gt, Opcode.Le, Opcode.Ge}
  }

  /** Operands an instruction takes and leaves. */
  function Pops(op: Opcode): nat
    requires Plain(op)
  {
    if op == LoadConst then 0 else if op in {Pop, Opcode.Print, Opcode.Neg, Opcode.Not} then 1 else 2
  }

  function Pushes(op: Opcode): nat
    requires Plain(op)
  {
    if op == Pop || op == Opcode.Print then 0 else 1
  }

  lemma PlainFits(z: Site, vis: S.Visible, pc: nat, op: Opcode, arg: int, d: nat) returns (shapes: Shapes)
    requires SiteOk(z) && Within(z, pc, pc + 1) && Plain(op) && CodeAt(z.x.c, pc, [Ins(op, arg, 0)])
    requires Pops(op) <= d <= z.limit && d - Pops(op) + Pushes(op) <= z.limit
    ensures FitsAt(z, shapes, pc, pc + 1, At(z, vis, d), At(z, vis, d - Pops(op) + Pushes(op)))
  {
    hide Ready, Linked;
    CodeIndex(z.x.c, pc, [Ins(op, arg, 0)], 0);
    shapes := map[pc := At(z, vis, d)];
    FitsOne(z.x.c, z.r, Kinds(z), z.limit, pc, At(z, vis, d), At(z, vis, d - Pops(op) + Pushes(op)));
  }

  /** Reading or storing a scalar. */
  lemma ScalarFits(z: Site, t: Table, vis: S.Visible, pc: nat, name: string, store: bool, d: nat) returns (shapes: Shapes)
    requires SiteOk(z) && Sighted(z, t, vis) && z.r.start <= pc && pc + 1 < z.r.end
    requires name in vis && !vis[name].isFunction && !vis[name].isArray
    requires CodeAt(z.x.c, pc, if store then StoreCode(z.x.n, t, name) else ReadCode(z.x.n, t, name))
    requires d + 1 <= z.limit
    ensures |if store then StoreCode(z.x.n, t, name) else ReadCode(z.x.n, t, name)| == 1
    ensures FitsAt(z, shapes, pc, pc + 1, At(z, vis, if store then d + 1 else d), At(z, vis, if store then d else d + 1))
  {
    hide Ready, Linked, Fits;
    SlotsFit(z);
    var first, last := At(z, vis, if store then d + 1 else d), At(z, vis, if store then d else d + 1);
    shapes := map[pc := first];
    CodeIndex(z.x.c, pc, if store then StoreCode(z.x.n, t, name) else ReadCode(z.x.n, t, name), 0);
    if name in t.locals {
      KindOfName(z, name);
    } else {
      PlainGlobalName(z, name);
    }
    FitsOne(z.x.c, z.r, Kinds(z), z.limit, pc, first, last);
  }

  lemma PlainGlobalName(z: Site, name: string)
    requires SiteOk(z) && name in z.x.n.globals && !z.x.n.globals[name].isArray
    ensures PlainGlobal(z.x.c, z.x.n.globals[name].slot)
  {
    hide FunctionLinked, SignatureLinked;
  }

  lemma LocalElementFits(z: Site, vis: S.Visible, pc: nat, name: string, store: bool, d: nat) returns (shapes: Shapes)
    requires SiteOk(z) && Within(z, pc, pc + 1) && name in vis && vis[name].isArray && name in z.full.locals && z.full.locals[name].isArray
    requires CodeAt(z.x.c, pc, [Ins(if store then LocalArrayStore else LocalArrayLoad, z.full.locals[name].slot, z.full.locals[name].arraySize)])
    requires if store then d + 2 <= z.limit else d + 1 <= z.limit
    ensures FitsAt(z, shapes, pc, pc + 1, At(z, vis, if store then d + 2 else d + 1), At(z, vis, if store then d else d + 1))
  {
    hide Fits, Linked, Kinds;
    SlotsFit(z);
    var first, last := At(z, vis, if store then d + 2 else d + 1), At(z, vis, if store then d else d + 1);
    shapes := map[pc := first];
    CodeIndex(z.x.c, pc, [Ins(if store then LocalArrayStore else LocalArrayLoad, z.full.locals[name].slot, z.full.locals[name].arraySize)], 0);
    KindOfName(z, name);
    FitsOne(z.x.c, z.r, Kinds(z), z.limit, pc, first, last);
  }

  lemma GlobalElementFits(z: Site, vis: S.Visible, pc: nat, name: string, store: bool, d: nat) returns (shapes: Shapes)
    requires SiteOk(z) && Within(z, pc, pc + 1) && name in z.x.n.globals && z.x.n.globals[name].isArray
    requires CodeAt(z.x.c, pc, [Ins(if store then ArrayStore else ArrayLoad, z.x.n.globals[name].slot, z.x.n.globals[name].arraySize)])
    requires if store then d + 2 <= z.limit else d + 1 <= z.limit
    ensures FitsAt(z, shapes, pc, pc + 1, At(z, vis, if store then d + 2 else d + 1), At(z, vis, if store then d else d + 1))
  {
    hide Fits, Linked, Kinds, Ready;
    SlotsFit(z);
    var g := z.x.n.globals[name];
    var first, last := At(z, vis, if store then d + 2 else d + 1), At(z, vis, if store then d else d + 1);
    shapes := map[pc := first];
    CodeIndex(z.x.c, pc, [Ins(if store then ArrayStore else ArrayLoad, g.slot, g.arraySize)], 0);
    assert name in z.x.c.globals && z.x.c.globals[name] == g;
    FitsOne(z.x.c, z.r, Kinds(z), z.limit, pc, first, last);
  }

  /** Reading or storing an element of an array in scope. */
  lemma ElementFits(z: Site, t: Table, vis: S.Visible, pc: nat, name: string, store: bool, d: nat) returns (shapes: Shapes)
    requires SiteOk(z) && Sighted(z, t, vis) && Within(z, pc, pc + 1)
    requires name in vis && vis[name].isArray
    requires CodeAt(z.x.c, pc, if store then StoreElementCode(z.x.n, t, name) else IndexCode(z.x.n, t, name))
    requires if store then d + 2 <= z.limit else d + 1 <= z.limit
    ensures |if store then StoreElementCode(z.x.n, t, name) else IndexCode(z.x.n, t, name)| == 1
    ensures FitsAt(z, shapes, pc, pc + 1, At(z, vis, if store then d + 2 else d + 1), At(z, vis, if store then d else d + 1))
  {
    hide FitsAt, Linked, Kinds, Ready, CodeAt, Ins;
    if name in t.locals {
      shapes := LocalElementFits(z, vis, pc, name, store, d);
    } else {
      shapes := GlobalElementFits(z, vis, pc, name, store, d);
    }
  }

  lemma CallFits(z: Site, vis: S.Visible, pc: nat, name: string, count: nat, d: nat) returns (shapes: Shapes)
    requires SiteOk(z) && Within(z, pc, pc + 1) && name in z.x.fs && count == |z.x.fs[name]|
    requires CodeAt(z.x.c, pc, [CallIns(z.x.n, name, count)]) && d + count <= z.limit && d + 1 <= z.limit
    ensures FitsAt(z, shapes, pc, pc + 1, At(z, vis, d + count), At(z, vis, d + 1))
  {
    hide Ready, Fits;
    CodeIndex(z.x.c, pc, [CallIns(z.x.n, name, count)], 0);
    assert SignatureLinked(z.x, name);
    assert FunctionLinked(z.x, z.x.n.funcs[name]);
    shapes := map[pc := At(z, vis, d + count)];
    FitsOne(z.x.c, z.r, Kinds(z), z.limit, pc, At(z, vis, d + count), At(z, vis, d + 1));
  }

  /** A jump inside larger code. */
  lemma JumpKeeps(z: Site, vis: S.Visible, pc: nat, target: nat, d: nat, whole: Shapes)
    requires SiteOk(z) && CodeAt(z.x.c, pc, [Ins(Jump, target, 0)])
    requires V.InRange(z.r, target) && target in whole && Arrives(whole, target, d, Ready(z, vis), None)
    ensures Keeps(z.x.c, z.r, Kinds(z), At(z, vis, d), whole, pc)
  {
    hide Ready, FunctionLinked, SignatureLinked;
    SlotsFit(z);
    CodeIndex(z.x.c, pc, [Ins(Jump, target, 0)], 0);
  }

  lemma BranchKeeps(z: Site, vis: S.Visible, pc: nat, jump: Opcode, target: nat, d: nat, whole: Shapes)
    requires SiteOk(z) && CodeAt(z.x.c, pc, [Ins(jump, target, 0)]) && (jump == JumpIfFalse || jump == JumpIfTrue)
    requires V.InRange(z.r, target) && Arrives(whole, target, d, Ready(z, vis), None)
    requires V.InRange(z.r, pc + 1) && Arrives(whole, pc + 1, d, Ready(z, vis), None)
    ensures Keeps(z.x.c, z.r, Kinds(z), At(z, vis, d + 1), whole, pc)
  {
    hide Ready, FunctionLinked, SignatureLinked;
    SlotsFit(z);
    CodeIndex(z.x.c, pc, [Ins(jump, target, 0)], 0);
  }

  // ---------------------------------------------------------------- expressions

  /** Fragments side by side. */
  lemma Append(z: Site, a: Shapes, b: Shapes, from: nat, mid: nat, to: nat, first: Shape, middle: Shape, last: Shape)
    requires FitsAt(z, a, from, mid, first, middle) && FitsAt(z, b, mid, to, middle, last)
    ensures FitsAt(z, a + b, from, to, first, last)
  {
    hide Fits;
    FitsAppend(z.x.c, z.r, Kinds(z), z.limit, a, b, from, mid, to, first, middle, last);
  }

  /** A whole piece of code, from the facts about its pcs. */
  lemma Assemble(z: Site, whole: Shapes, from: nat, to: nat)
    requires from < to && forall pc :: pc in whole <==> from <= pc <= to
    requires whole[to].depth <= z.limit
    requires forall pc :: from <= pc < to ==> pc in whole && whole[pc].depth <= z.limit && Keeps(z.x.c, z.r, Kinds(z), whole[pc], whole, pc)
    ensures FitsAt(z, whole - {to}, from, to, whole[from], whole[to])
  {
    hide Keeps, Kinds;
    assert (whole - {to})[to := whole[to]] == whole;
  }

  lemma Inside(z: Site, shapes: Shapes, from: nat, to: nat, first: Shape, last: Shape, whole: Shapes)
    requires FitsAt(z, shapes, from, to, first, last) && Includes(whole, shapes, to, last)
    ensures forall pc :: from <= pc < to ==> pc in whole && whole[pc].depth <= z.limit && Keeps(z.x.c, z.r, Kinds(z), whole[pc], whole, pc)
  {
    hide Keeps, Kinds;
    FitsInside(z.x.c, z.r, Kinds(z), z.limit, shapes, from, to, first, last, whole);
  }

  lemma Edges(z: Site, shapes: Shapes, from: nat, to: nat, first: Shape, last: Shape)
    requires FitsAt(z, shapes, from, to, first, last)
    ensures from <= to && (from == to ==> first == last) && (forall pc :: pc in shapes <==> from <= pc < to) && (from < to ==> shapes[from] == first)
    ensures last.depth <= z.limit
  {
    hide Keeps, Kinds;
  }

  /** Three fragments, an instruction before the second and one before the third, and what follows. */
  lemma DiamondMap(c: Shapes, thn: Shapes, els: Shapes, from: nat, j: nat, e: nat, end: nat, atJ: Shape, atE: Shape, atEnd: Shape)
    returns (whole: Shapes)
    requires from < j < e < end
    requires (forall pc :: pc in c <==> from <= pc < j) && (forall pc :: pc in thn <==> j + 1 <= pc < e) && (forall pc :: pc in els <==> e + 1 <= pc < end)
    ensures forall pc :: pc in whole <==> from <= pc <= end
    ensures whole[j] == atJ && whole[e] == atE && whole[end] == atEnd
    ensures forall pc <- c :: whole[pc] == c[pc]
    ensures forall pc <- thn :: whole[pc] == thn[pc]
    ensures forall pc <- els :: whole[pc] == els[pc]
  {
    whole := map pc: nat | from <= pc <= end ::
      if pc < j then c[pc] else if pc == j then atJ
      else if pc < e then thn[pc] else if pc == e then atE
      else if pc < end then els[pc] else atEnd;
  }

  /** A condition, a branch over one way and a jump over the other: both ways meet at the end. */
  lemma DiamondFits(z: Site, vis: S.Visible, vis1: S.Visible, vis2: S.Visible, jump: Opcode, from: nat, j: nat, e: nat, end: nat,
                    c: Shapes, thn: Shapes, els: Shapes, d: nat, d': nat) returns (shapes: Shapes)
    requires SiteOk(z) && (jump == JumpIfFalse || jump == JumpIfTrue) && from < j < e < end && Within(z, from, end) && d + 1 <= z.limit
    requires CodeAt(z.x.c, j, [Ins(jump, e + 1, 0)]) && CodeAt(z.x.c, e, [Ins(Jump, end, 0)])
    requires FitsAt(z, c, from, j, At(z, vis, d), At(z, vis, d + 1))
    requires FitsAt(z, thn, j + 1, e, At(z, vis, d), At(z, vis1, d')) && FitsAt(z, els, e + 1, end, At(z, vis, d), At(z, vis2, d'))
    requires Ready(z, vis) <= Ready(z, vis1) && Ready(z, vis) <= Ready(z, vis2)
    ensures FitsAt(z, shapes, from, end, At(z, vis, d), At(z, vis, d'))
  {
    hide Ready, Keeps, Linked, SiteOk, CodeAt, FitsAt, Kinds, At;
    Edges(z, c, from, j, At(z, vis, d), At(z, vis, d + 1));
    Edges(z, thn, j + 1, e, At(z, vis, d), At(z, vis1, d'));
    Edges(z, els, e + 1, end, At(z, vis, d), At(z, vis2, d'));
    var first, last1, last2, last := At(z, vis, d), At(z, vis1, d'), At(z, vis2, d'), At(z, vis, d');
    if e + 1 == end {
      EmptyEdge(z, vis, vis2, d, d');
    }
    if j + 1 == e {
      EmptyEdge(z, vis, vis1, d, d');
    }
    DepthAt(z, vis, d);
    DepthAt(z, vis, d + 1);
    DepthAt(z, vis, d');
    DepthAt(z, vis1, d');
    DepthAt(z, vis2, d');
    var whole := DiamondMap(c, thn, els, from, j, e, end, At(z, vis, d + 1), last1, last);
    Inside(z, c, from, j, At(z, vis, d), At(z, vis, d + 1), whole);
    Inside(z, thn, j + 1, e, At(z, vis, d), At(z, vis1, d'), whole);
    Inside(z, els, e + 1, end, At(z, vis, d), At(z, vis2, d'), whole);
    BranchKeeps(z, vis, j, jump, e + 1, d, whole);
    JumpKeeps(z, vis1, e, end, d', whole);
    Assemble(z, whole, from, end);
    shapes := whole - {end};
  }

  lemma DepthAt(z: Site, vis: S.Visible, d: nat)
    ensures At(z, vis, d).depth == d && At(z, vis, d).pending == None && At(z, vis, d).ready == Ready(z, vis)
  {
  }

  lemma EmptyEdge(z: Site, vis: S.Visible, vis2: S.Visible, d: nat, d': nat)
    requires At(z, vis, d) == At(z, vis2, d')
    ensures d == d' && Ready(z, vis) == Ready(z, vis2)
  {
    hide Ready;
  }

  /** Short-circuit code: both ways through it leave one operand more. */
  lemma ShortFits(z: Site, vis: S.Visible, pc: nat, jump: Opcode, short: I32, left: seq<Instruction>, right: seq<Instruction>,
                  l: Shapes, r: Shapes, d: nat) returns (shapes: Shapes)
    requires SiteOk(z) && (jump == JumpIfFalse || jump == JumpIfTrue) && d + 2 <= z.limit
    requires CodeAt(z.x.c, pc, ShortCode(jump, short, pc, left, right)) && Within(z, pc, pc + |left| + |right| + 5)
    requires FitsAt(z, l, pc, pc + |left|, At(z, vis, d), At(z, vis, d + 1)) && left != []
    requires FitsAt(z, r, pc + |left| + 1, pc + |left| + 1 + |right|, At(z, vis, d), At(z, vis, d + 1))
    ensures FitsAt(z, shapes, pc, pc + |left| + |right| + 5, At(z, vis, d), At(z, vis, d + 1))
  {
    hide Ready, FitsAt, ShortCode, Linked, CodeAt;
    var j, k := pc + |left|, pc + |left| + 1 + |right|;
    ShortPlaces(z.x.c, pc, jump, short, left, right);
    var truth := PlainFits(z, vis, k, LoadConst, 0, d + 1);
    var ne := PlainFits(z, vis, k + 1, Opcode.Ne, 0, d + 2);
    Append(z, truth, ne, k, k + 1, k + 2, At(z, vis, d + 1), At(z, vis, d + 2), At(z, vis, d + 1));
    Append(z, r, truth + ne, j + 1, k, k + 2, At(z, vis, d), At(z, vis, d + 1), At(z, vis, d + 1));
    var early := PlainFits(z, vis, k + 3, LoadConst, short, d);
    shapes := DiamondFits(z, vis, vis, vis, jump, pc, j, k + 2, k + 4, l, r + (truth + ne), early, d, d + 1);
  }

  /** Where the pieces of short-circuit code lie. */
  lemma ShortPlaces(c: CompiledProgram, pc: nat, jump: Opcode, short: int, left: seq<Instruction>, right: seq<Instruction>)
    requires CodeAt(c, pc, ShortCode(jump, short, pc, left, right))
    ensures var k := pc + |left| + 1 + |right|;
      && CodeAt(c, pc, left) && CodeAt(c, pc + |left|, [Ins(jump, k + 3, 0)]) && CodeAt(c, pc + |left| + 1, right)
      && CodeAt(c, k, [Ins(LoadConst, 0, 0)]) && CodeAt(c, k + 1, [Ins(Opcode.Ne, 0, 0)])
      && CodeAt(c, k + 2, [Ins(Jump, k + 4, 0)]) && CodeAt(c, k + 3, [Ins(LoadConst, short, 0)])
      && |ShortCode(jump, short, pc, left, right)| == |left| + |right| + 5
  {
    hide CodeAt, Ins;
    var k := pc + |left| + 1 + |right|;
    var j, c0, c1, c2, c3 := [Ins(jump, k + 3, 0)], [Ins(LoadConst, 0, 0)], [Ins(Opcode.Ne, 0, 0)], [Ins(Jump, k + 4, 0)], [Ins(LoadConst, short, 0)];
    assert ShortCode(jump, short, pc, left, right) == left + (j + (right + (c0 + (c1 + (c2 + c3)))));
    CodeSplit(c, pc, left, j + (right + (c0 + (c1 + (c2 + c3)))));
    CodeSplit(c, pc + |left|, j, right + (c0 + (c1 + (c2 + c3))));
    CodeSplit(c, pc + |left| + 1, right, c0 + (c1 + (c2 + c3)));
    CodeSplit(c, k, c0, c1 + (c2 + c3));
    CodeSplit(c, k + 1, c1, c2 + c3);
    CodeSplit(c, k + 2, c2, c3);
  }

  lemma NameHasCode(z: Site, t: Table, vis: S.Visible, name: string)
    requires Sighted(z, t, vis) && name in vis && (!vis[name].isFunction || vis[name].isArray)
    ensures |ReadCode(z.x.n, t, name)| == |StoreCode(z.x.n, t, name)| == 1
    ensures |IndexCode(z.x.n, t, name)| == |StoreElementCode(z.x.n, t, name)| == 1
  {
  }

  /** Two operands and the operation on them. */
  lemma OperationFits(z: Site, vis: S.Visible, pc: nat, op: BinaryOp, left: seq<Instruction>, right: seq<Instruction>,
                      l: Shapes, r: Shapes, d: nat) returns (shapes: Shapes)
    requires SiteOk(z) && !IsShort(op) && d + 2 <= z.limit
    requires CodeAt(z.x.c, pc + |left| + |right|, [Simple(BinaryOpcode(op))]) && Within(z, pc, pc + |left| + |right| + 1)
    requires FitsAt(z, l, pc, pc + |left|, At(z, vis, d), At(z, vis, d + 1))
    requires FitsAt(z, r, pc + |left|, pc + |left| + |right|, At(z, vis, d + 1), At(z, vis, d + 2))
    ensures FitsAt(z, shapes, pc, pc + |left| + |right| + 1, At(z, vis, d), At(z, vis, d + 1))
  {
    hide Ready, FitsAt, Linked, CodeAt, SiteOk;
    var last := PlainFits(z, vis, pc + |left| + |right|, BinaryOpcode(op), 0, d + 2);
    Append(z, l, r, pc, pc + |left|, pc + |left| + |right|, At(z, vis, d), At(z, vis, d + 1), At(z, vis, d + 2));
    Append(z, l + r, last, pc, pc + |left| + |right|, pc + |left| + |right| + 1, At(z, vis, d), At(z, vis, d + 2), At(z, vis, d + 1));
    shapes := l + r + last;
  }

  lemma TypedParts(vis: S.Visible, fs: S.Signatures, e: Expr)
    requires S.TypeOf(vis, fs, e).Some?
    ensures e.Identifier? ==> e.name in vis && !vis[e.name].isFunction && !vis[e.name].isArray
    ensures e.Binary? ==> S.TypeOf(vis, fs, e.left).Some? && S.TypeOf(vis, fs, e.right).Some?
    ensures e.Unary? ==> S.TypeOf(vis, fs, e.operand).Some?
    ensures e.ArrayIndex? ==> e.arrayName in vis && vis[e.arrayName].isArray && S.TypeOf(vis, fs, e.index).Some?
    ensures e.Call? ==> e.callee in fs && |e.args| == |fs[e.callee]| && S.ArgsMatch(vis, fs, e.args, fs[e.callee])
  {
  }

  lemma HeightParts(e: Expr)
    ensures e.Binary? && IsShort(e.op) ==> Height(e) >= 2 && Height(e) >= Height(e.left) && Height(e) >= Height(e.right)
    ensures e.Binary? && !IsShort(e.op) ==> Height(e) >= 2 && Height(e) >= Height(e.left) && Height(e) >= 1 + Height(e.right)
    ensures e.Unary? ==> Height(e) == Height(e.operand)
    ensures e.ArrayIndex? ==> Height(e) == Height(e.index)
    ensures e.Call? ==> Height(e) >= ArgsHeight(e.args)
  {
  }

  /** The code of an expression adds one operand and changes nothing else. */
  lemma {:induction false} ExprFits(z: Site, t: Table, vis: S.Visible, pc: nat, e: Expr, d: nat) returns (shapes: Shapes)
    requires SiteOk(z) && Sighted(z, t, vis) && S.TypeOf(vis, z.x.fs, e).Some? && d + Height(e) <= z.limit
    requires CodeAt(z.x.c, pc, ExprCode(z.x.n, t, pc, e)) && Within(z, pc, pc + |ExprCode(z.x.n, t, pc, e)|)
    ensures FitsAt(z, shapes, pc, pc + |ExprCode(z.x.n, t, pc, e)|, At(z, vis, d), At(z, vis, d + 1))
    ensures ExprCode(z.x.n, t, pc, e) != []
    decreases e, 1
  {
    hide Ready, FitsAt, ShortCode, Linked, CodeAt, SiteOk, Sighted, Ins, ExprCode, ArgsCode, S.TypeOf, Height, At, ReadCode, IndexCode;
    C.ExprCodeOf(z.x.n, t, pc, e);
    TypedParts(vis, z.x.fs, e);
    HeightParts(e);
    match e {
      case IntLiteral(v) => shapes := PlainFits(z, vis, pc, LoadConst, v, d);
      case BoolLiteral(b) => shapes := PlainFits(z, vis, pc, LoadConst, BoolValue(b), d);
      case Identifier(name) =>
        NameHasCode(z, t, vis, name);
        shapes := ScalarFits(z, t, vis, pc, name, false, d);
      case Binary(op, left, right) => shapes := BinaryFits(z, t, vis, pc, e, d);
      case Unary(_, _) => shapes := UnaryFits(z, t, vis, pc, e, d);
      case Call(_, _) => shapes := CallExprFits(z, t, vis, pc, e, d);
      case ArrayIndex(_, _) => shapes := IndexFits(z, t, vis, pc, e, d);
    }
  }

  lemma {:induction false} UnaryFits(z: Site, t: Table, vis: S.Visible, pc: nat, e: Expr, d: nat) returns (shapes: Shapes)
    requires SiteOk(z) && Sighted(z, t, vis) && e.Unary? && S.TypeOf(vis, z.x.fs, e).Some? && d + Height(e) <= z.limit
    requires CodeAt(z.x.c, pc, ExprCode(z.x.n, t, pc, e)) && Within(z, pc, pc + |ExprCode(z.x.n, t, pc, e)|)
    ensures FitsAt(z, shapes, pc, pc + |ExprCode(z.x.n, t, pc, e)|, At(z, vis, d), At(z, vis, d + 1))
    ensures ExprCode(z.x.n, t, pc, e) != []
    decreases e, 0
  {
    hide Ready, FitsAt, Linked, CodeAt, SiteOk, Sighted, Ins, ExprCode, S.TypeOf, Height, At;
    C.ExprCodeOf(z.x.n, t, pc, e);
    TypedParts(vis, z.x.fs, e);
    HeightParts(e);
    var v := ExprCode(z.x.n, t, pc, e.operand);
    CodeSplit(z.x.c, pc, v, [Simple(UnaryOpcode(e.uop))]);
    var vs := ExprFits(z, t, vis, pc, e.operand, d);
    var last := PlainFits(z, vis, pc + |v|, UnaryOpcode(e.uop), 0, d + 1);
    Append(z, vs, last, pc, pc + |v|, pc + |v| + 1, At(z, vis, d), At(z, vis, d + 1), At(z, vis, d + 1));
    shapes := vs + last;
  }

  lemma {:induction false} IndexFits(z: Site, t: Table, vis: S.Visible, pc: nat, e: Expr, d: nat) returns (shapes: Shapes)
    requires SiteOk(z) && Sighted(z, t, vis) && e.ArrayIndex? && S.TypeOf(vis, z.x.fs, e).Some? && d + Height(e) <= z.limit
    requires CodeAt(z.x.c, pc, ExprCode(z.x.n, t, pc, e)) && Within(z, pc, pc + |ExprCode(z.x.n, t, pc, e)|)
    ensures FitsAt(z, shapes, pc, pc + |ExprCode(z.x.n, t, pc, e)|, At(z, vis, d), At(z, vis, d + 1))
    ensures ExprCode(z.x.n, t, pc, e) != []
    decreases e, 0
  {
    hide Ready, FitsAt, Linked, CodeAt, SiteOk, Sighted, Ins, ExprCode, S.TypeOf, Height, At, IndexCode;
    C.ExprCodeOf(z.x.n, t, pc, e);
    TypedParts(vis, z.x.fs, e);
    HeightParts(e);
    NameHasCode(z, t, vis, e.arrayName);
    var i := ExprCode(z.x.n, t, pc, e.index);
    CodeSplit(z.x.c, pc, i, IndexCode(z.x.n, t, e.arrayName));
    var before := ExprFits(z, t, vis, pc, e.index, d);
    var last := ElementFits(z, t, vis, pc + |i|, e.arrayName, false, d);
    Append(z, before, last, pc, pc + |i|, pc + |i| + 1, At(z, vis, d), At(z, vis, d + 1), At(z, vis, d + 1));
    shapes := before + last;
  }

  lemma {:induction false} BinaryFits(z: Site, t: Table, vis: S.Visible, pc: nat, e: Expr, d: nat) returns (shapes: Shapes)
    requires SiteOk(z) && Sighted(z, t, vis) && e.Binary? && S.TypeOf(vis, z.x.fs, e).Some? && d + Height(e) <= z.limit
    requires CodeAt(z.x.c, pc, ExprCode(z.x.n, t, pc, e)) && Within(z, pc, pc + |ExprCode(z.x.n, t, pc, e)|)
    ensures FitsAt(z, shapes, pc, pc + |ExprCode(z.x.n, t, pc, e)|, At(z, vis, d), At(z, vis, d + 1))
    ensures ExprCode(z.x.n, t, pc, e) != []
    decreases e, 0
  {
    hide Ready, FitsAt, ShortCode, Linked, CodeAt, SiteOk, Sighted, Ins, ExprCode, S.TypeOf, Height, At;
    C.ExprCodeOf(z.x.n, t, pc, e);
    TypedParts(vis, z.x.fs, e);
    HeightParts(e);
    var l := ExprCode(z.x.n, t, pc, e.left);
    if IsShort(e.op) {
      var r := ExprCode(z.x.n, t, pc + |l| + 1, e.right);
      ShortPlaces(z.x.c, pc, ShortJump(e.op), ShortResult(e.op), l, r);
      var ls := ExprFits(z, t, vis, pc, e.left, d);
      var rs := ExprFits(z, t, vis, pc + |l| + 1, e.right, d);
      shapes := ShortFits(z, vis, pc, ShortJump(e.op), ShortResult(e.op), l, r, ls, rs, d);
    } else {
      var r := ExprCode(z.x.n, t, pc + |l|, e.right);
      CodeSplit(z.x.c, pc, l + r, [Simple(BinaryOpcode(e.op))]);
      CodeSplit(z.x.c, pc, l, r);
      var ls := ExprFits(z, t, vis, pc, e.left, d);
      var rs := ExprFits(z, t, vis, pc + |l|, e.right, d + 1);
      shapes := OperationFits(z, vis, pc, e.op, l, r, ls, rs, d);
    }
  }

  lemma {:induction false} CallExprFits(z: Site, t: Table, vis: S.Visible, pc: nat, e: Expr, d: nat) returns (shapes: Shapes)
    requires SiteOk(z) && Sighted(z, t, vis) && e.Call? && S.TypeOf(vis, z.x.fs, e).Some? && d + Height(e) <= z.limit
    requires CodeAt(z.x.c, pc, ExprCode(z.x.n, t, pc, e)) && Within(z, pc, pc + |ExprCode(z.x.n, t, pc, e)|)
    ensures FitsAt(z, shapes, pc, pc + |ExprCode(z.x.n, t, pc, e)|, At(z, vis, d), At(z, vis, d + 1))
    ensures ExprCode(z.x.n, t, pc, e) != []
    decreases e, 0
  {
    hide Ready, FitsAt, Linked, CodeAt, SiteOk, Sighted, CallIns, ExprCode, ArgsCode, S.TypeOf, Height, At;
    C.ExprCodeOf(z.x.n, t, pc, e);
    TypedParts(vis, z.x.fs, e);
    HeightParts(e);
    var vs := ArgsCode(z.x.n, t, pc, e.args);
    CodeSplit(z.x.c, pc, vs, [CallIns(z.x.n, e.callee, |e.args|)]);
    var a := ArgsFits(z, t, vis, pc, e.args, z.x.fs[e.callee], d);
    var last := CallFits(z, vis, pc + |vs|, e.callee, |e.args|, d);
    Append(z, a, last, pc, pc + |vs|, pc + |vs| + 1, At(z, vis, d), At(z, vis, d + |e.args|), At(z, vis, d + 1));
    shapes := a + last;
  }

  lemma {:induction false} ArgsFits(z: Site, t: Table, vis: S.Visible, pc: nat, args: seq<Expr>, types: seq<Type>, d: nat) returns (shapes: Shapes)
    requires SiteOk(z) && Sighted(z, t, vis) && |args| == |types| && S.ArgsMatch(vis, z.x.fs, args, types)
    requires d + ArgsHeight(args) <= z.limit
    requires CodeAt(z.x.c, pc, ArgsCode(z.x.n, t, pc, args)) && Within(z, pc, pc + |ArgsCode(z.x.n, t, pc, args)|)
    ensures FitsAt(z, shapes, pc, pc + |ArgsCode(z.x.n, t, pc, args)|, At(z, vis, d), At(z, vis, d + |args|))
    decreases args, 0
  {
    hide Ready, FitsAt, Linked, CodeAt, SiteOk, Sighted;
    if args == [] {
      NoneFits(z, pc, At(z, vis, d));
      shapes := map[];
    } else {
      var first := ExprCode(z.x.n, t, pc, args[0]);
      var rest := ArgsCode(z.x.n, t, pc + |first|, args[1..]);
      CodeSplit(z.x.c, pc, first, rest);
      var a := ExprFits(z, t, vis, pc, args[0], d);
      var b := ArgsFits(z, t, vis, pc + |first|, args[1..], types[1..], d + 1);
      Append(z, a, b, pc, pc + |first|, pc + |first| + |rest|, At(z, vis, d), At(z, vis, d + 1), At(z, vis, d + |args|));
      shapes := a + b;
    }
  }

  lemma NoneFits(z: Site, pc: nat, shape: Shape)
    requires shape.depth <= z.limit
    ensures FitsAt(z, map[], pc, pc, shape, shape)
  {
  }

  // ---------------------------------------------------------------- statements

  /** Two fragments, each followed by one instruction. */
  lemma PairMap(a: Shapes, b: Shapes, from: nat, j: nat, end: nat, atJ: Shape, atEnd: Shape) returns (whole: Shapes)
    requires from < j < end
    requires (forall pc :: pc in a <==> from <= pc < j) && (forall pc :: pc in b <==> j + 1 <= pc < end)
    ensures forall pc :: pc in whole <==> from <= pc <= end
    ensures whole[j] == atJ && whole[end] == atEnd
    ensures forall pc <- a :: whole[pc] == a[pc]
    ensures forall pc <- b :: whole[pc] == b[pc]
  {
    whole := map pc: nat | from <= pc <= end ::
      if pc < j then a[pc] else if pc == j then atJ else if pc < end then b[pc] else atEnd;
  }

  /** A condition and a branch over a body. */
  lemma GuardFits(z: Site, vis: S.Visible, vis1: S.Visible, from: nat, j: nat, end: nat, c: Shapes, body: Shapes) returns (shapes: Shapes)
    requires SiteOk(z) && from < j < end && Within(z, from, end) && 1 <= z.limit
    requires CodeAt(z.x.c, j, [Ins(JumpIfFalse, end, 0)])
    requires FitsAt(z, c, from, j, At(z, vis, 0), At(z, vis, 1)) && FitsAt(z, body, j + 1, end, At(z, vis, 0), At(z, vis1, 0))
    requires Ready(z, vis) <= Ready(z, vis1)
    ensures FitsAt(z, shapes, from, end, At(z, vis, 0), At(z, vis, 0))
  {
    hide Ready, Keeps, Linked, SiteOk, CodeAt, FitsAt, Kinds, At;
    Edges(z, c, from, j, At(z, vis, 0), At(z, vis, 1));
    Edges(z, body, j + 1, end, At(z, vis, 0), At(z, vis1, 0));
    DepthAt(z, vis, 0);
    DepthAt(z, vis, 1);
    DepthAt(z, vis1, 0);
    var whole := PairMap(c, body, from, j, end, At(z, vis, 1), At(z, vis, 0));
    Inside(z, c, from, j, At(z, vis, 0), At(z, vis, 1), whole);
    Inside(z, body, j + 1, end, At(z, vis, 0), At(z, vis1, 0), whole);
    BranchKeeps(z, vis, j, JumpIfFalse, end, 0, whole);
    Assemble(z, whole, from, end);
    shapes := whole - {end};
  }

  /** A condition, a branch to the end, a body, and a jump back. */
  lemma LoopFits(z: Site, vis: S.Visible, vis1: S.Visible, from: nat, j: nat, e: nat, c: Shapes, body: Shapes) returns (shapes: Shapes)
    requires SiteOk(z) && from < j < e && Within(z, from, e + 1) && 1 <= z.limit
    requires CodeAt(z.x.c, j, [Ins(JumpIfFalse, e + 1, 0)]) && CodeAt(z.x.c, e, [Ins(Jump, from, 0)])
    requires FitsAt(z, c, from, j, At(z, vis, 0), At(z, vis, 1)) && FitsAt(z, body, j + 1, e, At(z, vis, 0), At(z, vis1, 0))
    requires Ready(z, vis) <= Ready(z, vis1)
    ensures FitsAt(z, shapes, from, e + 1, At(z, vis, 0), At(z, vis, 0))
  {
    hide Ready, Keeps, Linked, SiteOk, CodeAt, FitsAt, Kinds, At;
    Edges(z, c, from, j, At(z, vis, 0), At(z, vis, 1));
    Edges(z, body, j + 1, e, At(z, vis, 0), At(z, vis1, 0));
    DepthAt(z, vis, 0);
    DepthAt(z, vis, 1);
    DepthAt(z, vis1, 0);
    if j + 1 == e {
      EmptyEdge(z, vis, vis1, 0, 0);
    }
    var inner := PairMap(c, body, from, j, e, At(z, vis, 1), At(z, vis1, 0));
    var whole := inner[e + 1 := At(z, vis, 0)];
    Inside(z, c, from, j, At(z, vis, 0), At(z, vis, 1), whole);
    Inside(z, body, j + 1, e, At(z, vis, 0), At(z, vis1, 0), whole);
    BranchKeeps(z, vis, j, JumpIfFalse, e + 1, 0, whole);
    JumpKeeps(z, vis1, e, from, 0, whole);
    Assemble(z, whole, from, e + 1);
    shapes := whole - {e + 1};
  }

  lemma ReturnFits(z: Site, vis: S.Visible, pc: nat) returns (shapes: Shapes)
    requires SiteOk(z) && Within(z, pc, pc) && 1 <= z.limit && CodeAt(z.x.c, pc, [Simple(Opcode.Return)])
    ensures FitsAt(z, shapes, pc, pc + 1, At(z, vis, 1), At(z, vis, 0))
  {
    hide Ready, Linked;
    CodeIndex(z.x.c, pc, [Simple(Opcode.Return)], 0);
    shapes := map[pc := At(z, vis, 1)];
  }

  /** An allocation and the store of its reference: from here on the slot holds an array. */
  lemma AllocFits(z: Site, vis: S.Visible, vis': S.Visible, pc: nat, name: string) returns (shapes: Shapes)
    requires SiteOk(z) && Within(z, pc, pc + 2) && 1 <= z.limit && name in z.full.locals && z.full.locals[name].isArray
    requires CodeAt(z.x.c, pc, [Ins(AllocArray, z.full.locals[name].arraySize, 0), Ins(StoreLocal, z.full.locals[name].slot, 0)])
    requires Ready(z, vis') == Ready(z, vis) + {z.full.locals[name].slot}
    ensures FitsAt(z, shapes, pc, pc + 2, At(z, vis, 0), At(z, vis', 0))
  {
    hide Ready, Linked, Fits, Kinds;
    SlotsFit(z);
    KindOfName(z, name);
    var local := z.full.locals[name];
    var code := [Ins(AllocArray, local.arraySize, 0), Ins(StoreLocal, local.slot, 0)];
    CodeIndex(z.x.c, pc, code, 0);
    CodeIndex(z.x.c, pc, code, 1);
    var middle := Shape(1, Ready(z, vis), Some(local.arraySize));
    FitsOne(z.x.c, z.r, Kinds(z), z.limit, pc, At(z, vis, 0), middle);
    FitsOne(z.x.c, z.r, Kinds(z), z.limit, pc + 1, middle, At(z, vis', 0));
    Append(z, map[pc := At(z, vis, 0)], map[pc + 1 := middle], pc, pc + 1, pc + 2, At(z, vis, 0), middle, At(z, vis', 0));
    shapes := map[pc := At(z, vis, 0)] + map[pc + 1 := middle];
  }

  /** Storing into a local scalar that was just declared. */
  lemma InitFits(z: Site, vis: S.Visible, pc: nat, name: string) returns (shapes: Shapes)
    requires SiteOk(z) && Within(z, pc, pc + 1) && 1 <= z.limit && name in z.full.locals && !z.full.locals[name].isArray
    requires CodeAt(z.x.c, pc, [Ins(StoreLocal, z.full.locals[name].slot, 0)])
    ensures FitsAt(z, shapes, pc, pc + 1, At(z, vis, 1), At(z, vis, 0))
  {
    hide Ready, Linked, Fits, Kinds;
    SlotsFit(z);
    KindOfName(z, name);
    CodeIndex(z.x.c, pc, [Ins(StoreLocal, z.full.locals[name].slot, 0)], 0);
    shapes := map[pc := At(z, vis, 1)];
    FitsOne(z.x.c, z.r, Kinds(z), z.limit, pc, At(z, vis, 1), At(z, vis, 0));
  }

  // ---------------------------------------------------------------- scopes

  /** A declared name joins the scope with the shape of its declaration. */
  lemma DeclSighted(z: Site, t: Table, w: S.Walk, s: Stmt)
    requires s.VarDecl? && S.CheckStmt(z.x.fs, w, s).Some? && StmtShapes(z.full, s) && SiteOk(z) && Sighted(z, t, w.vis)
    requires Extends(CollectStmt(t, s).locals, z.full.locals)
    ensures var vis' := S.CheckStmt(z.x.fs, w, s).value.vis; var t' := Declare(t, s.name, s.size);
      && Sighted(z, t', vis') && s.name in t'.locals && s.name in z.full.locals && t'.locals[s.name] == z.full.locals[s.name]
      && z.full.locals[s.name].isArray == s.size.Some?
      && Ready(z, vis') == Ready(z, w.vis) + (if s.size.Some? then {z.full.locals[s.name].slot} else {})
      && (s.init.Some? ==> S.TypeOf(vis', z.x.fs, s.init.value).Some?)
  {
    hide Linked, S.TypeOf;
  }

  lemma TableGrows(z: Site, t: Table, t': Table, vis: S.Visible)
    requires Sighted(z, t, vis) && Extends(t.locals, t'.locals) && Extends(t'.locals, z.full.locals)
    ensures Sighted(z, t', vis)
  {
  }

  // ---------------------------------------------------------------- statements and blocks

  /** What is known about a statement whose code lies at pc. */
  ghost predicate StmtSite(z: Site, t: Table, w: S.Walk, pc: nat, s: Stmt) {
    && SiteOk(z) && Sighted(z, t, w.vis) && S.CheckStmt(z.x.fs, w, s).Some? && StmtShapes(z.full, s)
    && Extends(CollectStmt(t, s).locals, z.full.locals)
    && StmtHeight(s) <= z.limit && 1 <= z.limit
    && CodeAt(z.x.c, pc, StmtCode(z.x.n, t, pc, s)) && Within(z, pc, pc + |StmtCode(z.x.n, t, pc, s)|)
  }

  ghost predicate BlockSite(z: Site, t: Table, w: S.Walk, pc: nat, stmts: seq<Stmt>) {
    && SiteOk(z) && Sighted(z, t, w.vis) && S.CheckBlock(z.x.fs, w, stmts).Some? && BlockShapes(z.full, stmts)
    && Extends(CollectBlock(t, stmts).locals, z.full.locals)
    && BlockHeight(stmts) <= z.limit && 1 <= z.limit
    && CodeAt(z.x.c, pc, BlockCode(z.x.n, t, pc, stmts)) && Within(z, pc, pc + |BlockCode(z.x.n, t, pc, stmts)|)
  }

  /** The code fits, from one scope to the next. */
  ghost predicate StmtDone(z: Site, t: Table, w: S.Walk, pc: nat, s: Stmt, shapes: Shapes)
    requires S.CheckStmt(z.x.fs, w, s).Some?
  {
    var vis' := S.CheckStmt(z.x.fs, w, s).value.vis;
    && FitsAt(z, shapes, pc, pc + |StmtCode(z.x.n, t, pc, s)|, At(z, w.vis, 0), At(z, vis', 0))
    && Sighted(z, CollectStmt(t, s), vis') && Ready(z, w.vis) <= Ready(z, vis')
  }

  lemma {:induction false} DeclFits(z: Site, t: Table, w: S.Walk, pc: nat, s: Stmt) returns (shapes: Shapes)
    requires s.VarDecl? && StmtSite(z, t, w, pc, s)
    ensures S.CheckStmt(z.x.fs, w, s).Some? && StmtDone(z, t, w, pc, s, shapes)
  {
    hide Ready, FitsAt, Linked, CodeAt, SiteOk, Sighted, Ins, ExprCode, S.TypeOf, S.CheckStmt, Height, Declare, CollectStmt, StmtCode;
    DeclSighted(z, t, w, s);
    C.StmtCodeOf(z.x.n, t, pc, s);
    C.CollectParts(t, s);
    var vis' := S.CheckStmt(z.x.fs, w, s).value.vis;
    var t' := Declare(t, s.name, s.size);
    if s.size.Some? {
      shapes := AllocFits(z, w.vis, vis', pc, s.name);
    } else {
      assert At(z, w.vis, 0) == At(z, vis', 0) by {
        hide S.CheckStmt;
      }
      if s.init.None? {
        NoneFits(z, pc, At(z, w.vis, 0));
        shapes := map[];
      } else {
        var v := ExprCode(z.x.n, t', pc, s.init.value);
        CodeSplit(z.x.c, pc, v, [Ins(StoreLocal, z.full.locals[s.name].slot, 0)]);
        var vs := ExprFits(z, t', vis', pc, s.init.value, 0);
        var last := InitFits(z, vis', pc + |v|, s.name);
        Append(z, vs, last, pc, pc + |v|, pc + |v| + 1, At(z, vis', 0), At(z, vis', 1), At(z, vis', 0));
        shapes := vs + last;
      }
    }
  }

  lemma {:induction false} AssignFits(z: Site, t: Table, w: S.Walk, pc: nat, s: Stmt) returns (shapes: Shapes)
    requires s.Assign? && StmtSite(z, t, w, pc, s)
    ensures S.CheckStmt(z.x.fs, w, s).Some? && StmtDone(z, t, w, pc, s, shapes)
  {
    hide Ready, FitsAt, Linked, CodeAt, SiteOk, Sighted, Ins, ExprCode, S.TypeOf, Height, CollectStmt, StmtCode, StoreCode, StoreElementCode;
    C.StmtCodeOf(z.x.n, t, pc, s);
    C.CollectParts(t, s);
    NameHasCode(z, t, w.vis, s.target);
    NameIsKnown(z, t, w.vis, s.target);
    if s.indexExpr.Some? {
      var i := ExprCode(z.x.n, t, pc, s.indexExpr.value);
      var v := ExprCode(z.x.n, t, pc + |i|, s.value);
      CodeSplit(z.x.c, pc, i + v, StoreElementCode(z.x.n, t, s.target));
      CodeSplit(z.x.c, pc, i, v);
      var is' := ExprFits(z, t, w.vis, pc, s.indexExpr.value, 0);
      var vs := ExprFits(z, t, w.vis, pc + |i|, s.value, 1);
      var last := ElementFits(z, t, w.vis, pc + |i| + |v|, s.target, true, 0);
      Append(z, is', vs, pc, pc + |i|, pc + |i| + |v|, At(z, w.vis, 0), At(z, w.vis, 1), At(z, w.vis, 2));
      Append(z, is' + vs, last, pc, pc + |i| + |v|, pc + |i| + |v| + 1, At(z, w.vis, 0), At(z, w.vis, 2), At(z, w.vis, 0));
      shapes := is' + vs + last;
    } else {
      var v := ExprCode(z.x.n, t, pc, s.value);
      CodeSplit(z.x.c, pc, v, StoreCode(z.x.n, t, s.target));
      var vs := ExprFits(z, t, w.vis, pc, s.value, 0);
      var last := ScalarFits(z, t, w.vis, pc + |v|, s.target, true, 0);
      Append(z, vs, last, pc, pc + |v|, pc + |v| + 1, At(z, w.vis, 0), At(z, w.vis, 1), At(z, w.vis, 0));
      shapes := vs + last;
    }
  }

  lemma NameIsKnown(z: Site, t: Table, vis: S.Visible, name: string)
    requires Sighted(z, t, vis) && name in vis && !vis[name].isFunction
    ensures name in t.locals || name in z.x.n.globals
  {
  }

  /** An expression and one instruction that consumes it. */
  lemma ConsumeFits(z: Site, t: Table, w: S.Walk, pc: nat, e: Expr, op: Opcode) returns (shapes: Shapes)
    requires SiteOk(z) && Sighted(z, t, w.vis) && S.TypeOf(w.vis, z.x.fs, e).Some? && Height(e) <= z.limit
    requires op == Pop || op == Opcode.Print || op == Opcode.Return
    requires CodeAt(z.x.c, pc, ExprCode(z.x.n, t, pc, e) + [Simple(op)]) && Within(z, pc, pc + |ExprCode(z.x.n, t, pc, e)| + 1)
    ensures FitsAt(z, shapes, pc, pc + |ExprCode(z.x.n, t, pc, e)| + 1, At(z, w.vis, 0), At(z, w.vis, 0))
  {
    hide Ready, FitsAt, Linked, CodeAt, SiteOk, Sighted, Ins, ExprCode, S.TypeOf, Height;
    var v := ExprCode(z.x.n, t, pc, e);
    CodeSplit(z.x.c, pc, v, [Simple(op)]);
    var vs := ExprFits(z, t, w.vis, pc, e, 0);
    HeightPositive(e);
    var last;
    if op == Opcode.Return {
      last := ReturnFits(z, w.vis, pc + |v|);
    } else {
      last := PlainFits(z, w.vis, pc + |v|, op, 0, 1);
    }
    Append(z, vs, last, pc, pc + |v|, pc + |v| + 1, At(z, w.vis, 0), At(z, w.vis, 1), At(z, w.vis, 0));
    shapes := vs + last;
  }

  lemma HeightPositive(e: Expr)
    ensures Height(e) >= 1
  {
  }

  lemma {:induction false} StmtFits(z: Site, t: Table, w: S.Walk, pc: nat, s: Stmt) returns (shapes: Shapes)
    requires StmtSite(z, t, w, pc, s)
    ensures S.CheckStmt(z.x.fs, w, s).Some? && StmtDone(z, t, w, pc, s, shapes)
    decreases s, 1
  {
    hide Ready, FitsAt, Linked, CodeAt, SiteOk, Sighted, ExprCode, BlockCode, StmtCode, S.TypeOf, Height, BlockHeight, CollectStmt, CollectBlock;
    C.StmtCodeOf(z.x.n, t, pc, s);
    C.CollectParts(t, s);
    match s {
      case VarDecl(_, _, _, _) => shapes := DeclFits(z, t, w, pc, s);
      case Assign(_, _, _) => shapes := AssignFits(z, t, w, pc, s);
      case If(_, _, _) => shapes := IfFits(z, t, w, pc, s);
      case While(_, _) => shapes := WhileFits(z, t, w, pc, s);
      case Return(value) => shapes := ConsumeFits(z, t, w, pc, value, Opcode.Return);
      case Print(value) => shapes := ConsumeFits(z, t, w, pc, value, Opcode.Print);
      case ExprStmt(e) => shapes := ConsumeFits(z, t, w, pc, e, Pop);
    }
  }

  /** The parts of a compound statement, each where its code lies. */
  lemma IfParts(z: Site, t: Table, w: S.Walk, pc: nat, s: Stmt)
    requires s.If? && StmtSite(z, t, w, pc, s)
    ensures var c := ExprCode(z.x.n, t, pc, s.condition); var j := pc + |c|;
      && S.TypeOf(w.vis, z.x.fs, s.condition).Some? && Height(s.condition) <= z.limit
      && CodeAt(z.x.c, pc, c)
      && BlockSite(z, t, w, j + 1, s.thenBody)
      && var thn := BlockCode(z.x.n, t, j + 1, s.thenBody); var e := j + 1 + |thn|;
         && (s.elseBody.NoElse? ==> CodeAt(z.x.c, j, [Ins(JumpIfFalse, e, 0)]) && |StmtCode(z.x.n, t, pc, s)| == e - pc)
         && (s.elseBody.Else? ==>
              var t1 := CollectBlock(t, s.thenBody); var w1 := S.CheckBlock(z.x.fs, w, s.thenBody).value.(vis := w.vis);
              var els := BlockCode(z.x.n, t1, e + 1, s.elseBody.body);
              && CodeAt(z.x.c, j, [Ins(JumpIfFalse, e + 1, 0)]) && CodeAt(z.x.c, e, [Ins(Jump, e + 1 + |els|, 0)])
              && BlockSite(z, t1, w1, e + 1, s.elseBody.body)
              && |StmtCode(z.x.n, t, pc, s)| == e + 1 + |els| - pc)
  {
    hide Ready, Linked, CodeAt, SiteOk, Sighted, ExprCode, BlockCode, StmtCode, S.TypeOf, S.CheckBlock, Height, BlockHeight, CollectBlock, CollectStmt, Ins, Extends, BlockShapes;
    C.StmtCodeOf(z.x.n, t, pc, s);
    C.CollectParts(t, s);
    var c := ExprCode(z.x.n, t, pc, s.condition);
    var j := pc + |c|;
    var thn := BlockCode(z.x.n, t, j + 1, s.thenBody);
    var e := j + 1 + |thn|;
    var t1 := CollectBlock(t, s.thenBody);
    if s.elseBody.NoElse? {
      CodeSplit(z.x.c, pc, c + [Ins(JumpIfFalse, e, 0)], thn);
      CodeSplit(z.x.c, pc, c, [Ins(JumpIfFalse, e, 0)]);
    } else {
      var els := BlockCode(z.x.n, t1, e + 1, s.elseBody.body);
      CodeSplit(z.x.c, pc, c + [Ins(JumpIfFalse, e + 1, 0)] + thn + [Ins(Jump, e + 1 + |els|, 0)], els);
      CodeSplit(z.x.c, pc, c + [Ins(JumpIfFalse, e + 1, 0)] + thn, [Ins(Jump, e + 1 + |els|, 0)]);
      CodeSplit(z.x.c, pc, c + [Ins(JumpIfFalse, e + 1, 0)], thn);
      CodeSplit(z.x.c, pc, c, [Ins(JumpIfFalse, e + 1, 0)]);
      Tables(z, t, t1, CollectBlock(t1, s.elseBody.body), s.thenBody, s.elseBody.body, w.vis);
    }
  }

  lemma Tables(z: Site, t: Table, t1: Table, t2: Table, a: seq<Stmt>, b: seq<Stmt>, vis: S.Visible)
    requires t1 == CollectBlock(t, a) && t2 == CollectBlock(t1, b) && Extends(t2.locals, z.full.locals) && Sighted(z, t, vis)
    ensures Extends(t1.locals, z.full.locals) && Sighted(z, t1, vis)
  {
    K.CollectGrows(t, a);
    K.CollectGrows(t1, b);
  }

  lemma {:induction false} IfFits(z: Site, t: Table, w: S.Walk, pc: nat, s: Stmt) returns (shapes: Shapes)
    requires s.If? && StmtSite(z, t, w, pc, s)
    ensures S.CheckStmt(z.x.fs, w, s).Some? && StmtDone(z, t, w, pc, s, shapes)
    decreases s, 0
  {
    hide Ready, FitsAt, Linked, CodeAt, SiteOk, Sighted, ExprCode, BlockCode, StmtCode, S.TypeOf, S.CheckBlock, Height, BlockHeight,
         CollectStmt, CollectBlock, BlockSite, StmtSite, BlockShapes, Extends;
    SiteParts(z, t, w, pc, s);
    IfParts(z, t, w, pc, s);
    CompoundSees(z, t, w, pc, s);
    var c := ExprCode(z.x.n, t, pc, s.condition);
    var j := pc + |c|;
    var e := j + 1 + |BlockCode(z.x.n, t, j + 1, s.thenBody)|;
    var cs := ExprFits(z, t, w.vis, pc, s.condition, 0);
    var thn := BlockFits(z, t, w, j + 1, s.thenBody);
    var vis1 := S.CheckBlock(z.x.fs, w, s.thenBody).value.vis;
    if s.elseBody.NoElse? {
      shapes := GuardFits(z, w.vis, vis1, pc, j, e, cs, thn);
    } else {
      var t1, w1 := CollectBlock(t, s.thenBody), S.CheckBlock(z.x.fs, w, s.thenBody).value.(vis := w.vis);
      var els := BlockFits(z, t1, w1, e + 1, s.elseBody.body);
      var vis2 := S.CheckBlock(z.x.fs, w1, s.elseBody.body).value.vis;
      var end := e + 1 + |BlockCode(z.x.n, t1, e + 1, s.elseBody.body)|;
      shapes := DiamondFits(z, w.vis, vis1, vis2, JumpIfFalse, pc, j, e, end, cs, thn, els, 0, 0);
    }
  }

  lemma SiteParts(z: Site, t: Table, w: S.Walk, pc: nat, s: Stmt)
    requires StmtSite(z, t, w, pc, s)
    ensures SiteOk(z) && Sighted(z, t, w.vis) && 1 <= z.limit && S.CheckStmt(z.x.fs, w, s).Some?
    ensures Within(z, pc, pc + |StmtCode(z.x.n, t, pc, s)|)
  {
  }

  /** A compound statement ends in the scope it began in. */
  lemma CompoundSees(z: Site, t: Table, w: S.Walk, pc: nat, s: Stmt)
    requires (s.If? || s.While?) && StmtSite(z, t, w, pc, s)
    ensures S.CheckStmt(z.x.fs, w, s).value.vis == w.vis && Sighted(z, CollectStmt(t, s), w.vis)
  {
    hide Linked, CodeAt, SiteOk, ExprCode, BlockCode, StmtCode, S.TypeOf, S.CheckBlock, Height, BlockHeight, CollectStmt, BlockShapes;
    K.CollectStmtGrows(t, s);
    TableGrows(z, t, CollectStmt(t, s), w.vis);
  }

  lemma WhileParts(z: Site, t: Table, w: S.Walk, pc: nat, s: Stmt)
    requires s.While? && StmtSite(z, t, w, pc, s)
    ensures var c := ExprCode(z.x.n, t, pc, s.condition); var j := pc + |c|; var e := j + 1 + |BlockCode(z.x.n, t, j + 1, s.body)|;
      && S.TypeOf(w.vis, z.x.fs, s.condition).Some? && Height(s.condition) <= z.limit
      && CodeAt(z.x.c, pc, c) && BlockSite(z, t, w, j + 1, s.body)
      && CodeAt(z.x.c, j, [Ins(JumpIfFalse, e + 1, 0)]) && CodeAt(z.x.c, e, [Ins(Jump, pc, 0)])
      && |StmtCode(z.x.n, t, pc, s)| == e + 1 - pc
  {
    hide Ready, Linked, CodeAt, SiteOk, Sighted, ExprCode, BlockCode, StmtCode, S.TypeOf, S.CheckBlock, Height, BlockHeight, CollectBlock, CollectStmt, Ins, Extends, BlockShapes;
    C.StmtCodeOf(z.x.n, t, pc, s);
    C.CollectParts(t, s);
    var c := ExprCode(z.x.n, t, pc, s.condition);
    var j := pc + |c|;
    var b := BlockCode(z.x.n, t, j + 1, s.body);
    var e := j + 1 + |b|;
    CodeSplit(z.x.c, pc, c + [Ins(JumpIfFalse, e + 1, 0)] + b, [Ins(Jump, pc, 0)]);
    CodeSplit(z.x.c, pc, c + [Ins(JumpIfFalse, e + 1, 0)], b);
    CodeSplit(z.x.c, pc, c, [Ins(JumpIfFalse, e + 1, 0)]);
  }

  lemma {:induction false} WhileFits(z: Site, t: Table, w: S.Walk, pc: nat, s: Stmt) returns (shapes: Shapes)
    requires s.While? && StmtSite(z, t, w, pc, s)
    ensures S.CheckStmt(z.x.fs, w, s).Some? && StmtDone(z, t, w, pc, s, shapes)
    decreases s, 0
  {
    hide Ready, FitsAt, Linked, CodeAt, SiteOk, Sighted, ExprCode, BlockCode, StmtCode, S.TypeOf, S.CheckBlock, Height, BlockHeight,
         CollectStmt, CollectBlock, BlockSite, StmtSite, BlockShapes, Extends;
    SiteParts(z, t, w, pc, s);
    WhileParts(z, t, w, pc, s);
    CompoundSees(z, t, w, pc, s);
    var j := pc + |ExprCode(z.x.n, t, pc, s.condition)|;
    var e := j + 1 + |BlockCode(z.x.n, t, j + 1, s.body)|;
    var c := ExprFits(z, t, w.vis, pc, s.condition, 0);
    var body := BlockFits(z, t, w, j + 1, s.body);
    shapes := LoopFits(z, w.vis, S.CheckBlock(z.x.fs, w, s.body).value.vis, pc, j, e, c, body);
  }

  lemma BlockParts(z: Site, t: Table, w: S.Walk, pc: nat, stmts: seq<Stmt>)
    requires BlockSite(z, t, w, pc, stmts)
    ensures SiteOk(z) && Sighted(z, t, w.vis) && 1 <= z.limit && S.CheckBlock(z.x.fs, w, stmts).Some?
    ensures stmts == [] ==> BlockCode(z.x.n, t, pc, stmts) == [] && S.CheckBlock(z.x.fs, w, stmts) == Some(w) && CollectBlock(t, stmts) == t
    ensures stmts != [] ==>
      && StmtSite(z, t, w, pc, stmts[0])
      && S.CheckBlock(z.x.fs, w, stmts) == S.CheckBlock(z.x.fs, S.CheckStmt(z.x.fs, w, stmts[0]).value, stmts[1..])
      && CollectBlock(t, stmts) == CollectBlock(CollectStmt(t, stmts[0]), stmts[1..])
      && BlockCode(z.x.n, t, pc, stmts) == StmtCode(z.x.n, t, pc, stmts[0])
         + BlockCode(z.x.n, CollectStmt(t, stmts[0]), pc + |StmtCode(z.x.n, t, pc, stmts[0])|, stmts[1..])
  {
    hide Ready, Linked, CodeAt, SiteOk, Sighted, StmtCode, S.TypeOf, S.CheckStmt, StmtHeight, CollectStmt, StmtShapes;
    if stmts != [] {
      var t1 := CollectStmt(t, stmts[0]);
      K.CollectGrows(t1, stmts[1..]);
      CodeSplit(z.x.c, pc, StmtCode(z.x.n, t, pc, stmts[0]), BlockCode(z.x.n, t1, pc + |StmtCode(z.x.n, t, pc, stmts[0])|, stmts[1..]));
    }
  }

  lemma RestSite(z: Site, t: Table, w: S.Walk, pc: nat, stmts: seq<Stmt>)
    requires BlockSite(z, t, w, pc, stmts) && stmts != [] && S.CheckStmt(z.x.fs, w, stmts[0]).Some?
    requires Sighted(z, CollectStmt(t, stmts[0]), S.CheckStmt(z.x.fs, w, stmts[0]).value.vis)
    ensures BlockSite(z, CollectStmt(t, stmts[0]), S.CheckStmt(z.x.fs, w, stmts[0]).value, pc + |StmtCode(z.x.n, t, pc, stmts[0])|, stmts[1..])
  {
    hide Ready, Linked, CodeAt, SiteOk, Sighted, StmtCode, S.TypeOf, S.CheckStmt, StmtHeight, CollectStmt, StmtShapes;
    var t1 := CollectStmt(t, stmts[0]);
    CodeSplit(z.x.c, pc, StmtCode(z.x.n, t, pc, stmts[0]), BlockCode(z.x.n, t1, pc + |StmtCode(z.x.n, t, pc, stmts[0])|, stmts[1..]));
  }

  /** The code of a block leaves the stack as it found it. */
  lemma {:induction false} BlockFits(z: Site, t: Table, w: S.Walk, pc: nat, stmts: seq<Stmt>) returns (shapes: Shapes)
    requires BlockSite(z, t, w, pc, stmts)
    ensures S.CheckBlock(z.x.fs, w, stmts).Some?
    ensures var vis' := S.CheckBlock(z.x.fs, w, stmts).value.vis;
      && FitsAt(z, shapes, pc, pc + |BlockCode(z.x.n, t, pc, stmts)|, At(z, w.vis, 0), At(z, vis', 0))
      && Sighted(z, CollectBlock(t, stmts), vis') && Ready(z, w.vis) <= Ready(z, vis')
    decreases stmts, 0
  {
    hide Ready, FitsAt, Linked, CodeAt, SiteOk, Sighted, StmtCode, BlockCode, S.TypeOf, S.CheckStmt, S.CheckBlock, StmtHeight, CollectStmt, CollectBlock, StmtShapes, BlockSite, StmtSite;
    BlockParts(z, t, w, pc, stmts);
    if stmts == [] {
      NoneFits(z, pc, At(z, w.vis, 0));
      shapes := map[];
    } else {
      var first := StmtFits(z, t, w, pc, stmts[0]);
      StmtSiteParts(z, t, w, pc, stmts[0]);
      RestSite(z, t, w, pc, stmts);
      var t1, w1, pc1 := CollectStmt(t, stmts[0]), S.CheckStmt(z.x.fs, w, stmts[0]).value, pc + |StmtCode(z.x.n, t, pc, stmts[0])|;
      var rest := BlockFits(z, t1, w1, pc1, stmts[1..]);
      var end := pc1 + |BlockCode(z.x.n, t1, pc1, stmts[1..])|;
      Append(z, first, rest, pc, pc1, end, At(z, w.vis, 0), At(z, w1.vis, 0), At(z, S.CheckBlock(z.x.fs, w1, stmts[1..]).value.vis, 0));
      shapes := first + rest;
    }
  }

  lemma StmtSiteParts(z: Site, t: Table, w: S.Walk, pc: nat, s: Stmt)
    requires StmtSite(z, t, w, pc, s)
    ensures S.CheckStmt(z.x.fs, w, s).Some?
  {
  }
}
