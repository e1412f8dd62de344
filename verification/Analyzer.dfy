/** The semantic analyzer as an object: a stack of scopes and a count of errors, proved to accept what Sema accepts. */
module Analyzer {
  import opened Common
  import opened Int32
  import opened Limits
  import opened Ast
  import S = Sema
  import Y = Typing

  // The type of an expression; after an error, any use of it is silently accepted.
  datatype CheckedType = Known(ty: Type) | ErrorType

  // The symbols one scope declares.
  type Scope = map<string, S.Symbol>

  /** What a chain of scopes makes visible: inner symbols hide outer ones. */
  function Flatten(scopes: seq<Scope>): S.Visible {
    if scopes == [] then map[] else Flatten(scopes[..|scopes| - 1]) + scopes[|scopes| - 1]
  }

  lemma FlattenPush(scopes: seq<Scope>, inner: Scope)
    ensures Flatten(scopes + [inner]) == Flatten(scopes) + inner
  {
    assert (scopes + [inner])[..|scopes|] == scopes;
  }

  lemma FlattenDefine(scopes: seq<Scope>, name: string, sym: S.Symbol)
    requires scopes != []
    ensures var last := |scopes| - 1;
      Flatten(scopes[last := scopes[last][name := sym]]) == Flatten(scopes)[name := sym]
  {
    var last := |scopes| - 1;
    assert scopes[last := scopes[last][name := sym]][..last] == scopes[..last];
  }

  /** The outer scopes are as they were. */
  predicate SameOuter(scopes: seq<Scope>, scopes': seq<Scope>) {
    |scopes'| == |scopes| && scopes != [] && scopes'[..|scopes| - 1] == scopes[..|scopes| - 1]
  }

  class SemanticAnalyzer {
    var scopes: seq<Scope>
    var functions: S.Signatures
    var errors: nat
    var currentLocalNames: set<string>
    var currentLocalSlots: nat

    constructor ()
      ensures scopes == [map[]] && functions == map[] && errors == 0
    {
      scopes := [map[]];
      functions := map[];
      errors := 0;
      currentLocalNames := {};
      currentLocalSlots := 0;
    }

    function Vis(): S.Visible
      reads this
    {
      Flatten(scopes)
    }

    function Walk(): S.Walk
      reads this
    {
      S.Walk(Vis(), currentLocalNames, currentLocalSlots)
    }

    method Error()
      modifies this`errors
      ensures errors == old(errors) + 1
    {
      errors := errors + 1;
    }

    method PushScope()
      modifies this`scopes
      ensures scopes == old(scopes) + [map[]] && Vis() == old(Vis())
    {
      scopes := scopes + [map[]];
      FlattenPush(old(scopes), map[]);
    }

    method PopScope()
      requires |scopes| > 1
      modifies this`scopes
      ensures scopes == old(scopes)[..|old(scopes)| - 1]
    {
      scopes := scopes[..|scopes| - 1];
    }

    /** Looks a name up from the innermost scope outwards. */
    method Lookup(name: string) returns (sym: Option<S.Symbol>)
      ensures sym == if name in Vis() then Some(Vis()[name]) else None
    {
      var i := |scopes|;
      assert scopes[..i] == scopes;
      while i > 0
        invariant 0 <= i <= |scopes|
        invariant name in Vis() <==> name in Flatten(scopes[..i])
        invariant name in Vis() ==> Vis()[name] == Flatten(scopes[..i])[name]
      {
        assert scopes[..i][..i - 1] == scopes[..i - 1];
        i := i - 1;
        if name in scopes[i] {
          return Some(scopes[i][name]);
        }
      }
      return None;
    }

    /** Declares a name in the innermost scope, unless it is there already. */
    method Define(name: string, sym: S.Symbol) returns (ok: bool)
      requires scopes != []
      modifies this`scopes
      ensures ok <==> name !in old(scopes)[|old(scopes)| - 1]
      ensures ok ==> Vis() == old(Vis())[name := sym]
      ensures !ok ==> scopes == old(scopes)
      ensures SameOuter(old(scopes), scopes)
    {
      var last := |scopes| - 1;
      if name in scopes[last] {
        return false;
      }
      FlattenDefine(scopes, name, sym);
      scopes := scopes[last := scopes[last][name := sym]];
      return true;
    }

    // -------------------------------------------------------------- expressions

    /** An error if the type is known and not this one. */
    method Expect(found: CheckedType, ty: Type)
      modifies this`errors
      ensures errors >= old(errors)
      ensures errors == old(errors) <==> found == Known(ty) || found.ErrorType?
    {
      if found != Known(ty) && found != ErrorType {
        Error();
      }
    }

    /** Counts an error exactly when the expression has no type. */
    method AnalyzeExpr(e: Expr) returns (ty: CheckedType)
      modifies this`errors
      ensures errors >= old(errors)
      ensures errors == old(errors) <==> S.TypeOf(Vis(), functions, e).Some?
      ensures errors == old(errors) ==> ty == Known(S.TypeOf(Vis(), functions, e).value)
      ensures errors == old(errors) <==> Y.Obeys(Vis(), functions, e)
      ensures errors == old(errors) ==> ty == Known(Y.Kind(Vis(), e))
      decreases e, 0
    {
      hide Y.Obeys, Y.Kind;
      Y.TypedExactly(Vis(), functions, e);
      match e {
        case IntLiteral(_) => ty := Known(IntType);
        case BoolLiteral(_) => ty := Known(BoolType);
        case Identifier(name) =>
          var sym := Lookup(name);
          if sym.None? {
            Error();
            return ErrorType;
          }
          if sym.value.isFunction {
            Error();
            return ErrorType;
          }
          if sym.value.isArray {
            Error();
            return ErrorType;
          }
          ty := Known(sym.value.ty);
        case Binary(op, left, right) =>
          var l := AnalyzeExpr(left);
          var r := AnalyzeExpr(right);
          if op in {BinaryOp.Add, BinaryOp.Sub, BinaryOp.Mul, BinaryOp.Div} {
            Expect(l, IntType);
            Expect(r, IntType);
            ty := Known(IntType);
          } else if op in {BinaryOp.Lt, BinaryOp.Gt, BinaryOp.Le, BinaryOp.Ge} {
            Expect(l, IntType);
            Expect(r, IntType);
            ty := Known(BoolType);
          } else if op in {BinaryOp.Eq, BinaryOp.Ne} {
            if l != r && l != ErrorType && r != ErrorType {
              Error();
            }
            ty := Known(BoolType);
          } else {
            ty := Known(BoolType);
          }
        case Unary(op, operand) =>
          var v := AnalyzeExpr(operand);
          if op == UnaryOp.Neg {
            Expect(v, IntType);
            ty := Known(IntType);
          } else {
            ty := Known(BoolType);
          }
        case Call(name, args) =>
          if name !in functions {
            Error();
            return ErrorType;
          }
          if |args| != |functions[name]| {
            Error();
            return Known(IntType);
          }
          AnalyzeArgs(args, functions[name]);
          ty := Known(IntType);
        case ArrayIndex(name, index) =>
          var sym := Lookup(name);
          if sym.None? {
            Error();
            return ErrorType;
          }
          if !sym.value.isArray {
            Error();
            return ErrorType;
          }
          var i := AnalyzeExpr(index);
          Expect(i, IntType);
          ty := Known(sym.value.ty);
      }
    }

    /** Arguments against parameter types, in order. */
    method AnalyzeArgs(args: seq<Expr>, types: seq<Type>)
      requires |args| == |types|
      modifies this`errors
      ensures errors >= old(errors)
      ensures errors == old(errors) <==> S.ArgsMatch(Vis(), functions, args, types)
      decreases args, 0
    {
      for i := 0 to |args|
        invariant errors >= old(errors)
        invariant S.ArgsMatch(Vis(), functions, args, types) <==> errors == old(errors) && S.ArgsMatch(Vis(), functions, args[i..], types[i..])
      {
        assert args[i..][1..] == args[i + 1..] && types[i..][1..] == types[i + 1..];
        var t := AnalyzeExpr(args[i]);
        Expect(t, types[i]);
      }
    }

    // -------------------------------------------------------------- statements

    method CheckLocalSlotLimit()
      modifies this`errors
      ensures errors == if currentLocalSlots > MAX_LOCAL_SLOTS then old(errors) + 1 else old(errors)
    {
      if currentLocalSlots > MAX_LOCAL_SLOTS {
        Error();
      }
    }

    /** A name takes a slot the first time a function declares it. */
    method AddLocalSlot(name: string)
      modifies this`errors, this`currentLocalNames, this`currentLocalSlots
      ensures currentLocalNames == old(currentLocalNames) + {name}
      ensures currentLocalSlots == if name in old(currentLocalNames) then old(currentLocalSlots) else old(currentLocalSlots) + 1
      ensures errors >= old(errors)
      ensures old(currentLocalSlots) <= MAX_LOCAL_SLOTS ==> (errors == old(errors) <==> currentLocalSlots <= MAX_LOCAL_SLOTS)
    {
      if name !in currentLocalNames {
        currentLocalNames := currentLocalNames + {name};
        currentLocalSlots := currentLocalSlots + 1;
        CheckLocalSlotLimit();
      } else {
        assert currentLocalNames + {name} == currentLocalNames;
      }
    }

    method ValidateArraySize(size: Option<I32>) returns (checked: Option<nat>)
      modifies this`errors
      ensures errors == if size.Some? && size.value <= 0 then old(errors) + 1 else old(errors)
      ensures checked == if size.Some? && size.value > 0 then Some(size.value as nat) else None
    {
      if size.None? {
        return None;
      }
      if size.value > 0 {
        return Some(size.value);
      }
      Error();
      return None;
    }

    /** Counts an error exactly when the statement is not accepted; then scopes, names and slots are as accepted. */
    method AnalyzeStmt(s: Stmt)
      requires scopes != []
      modifies this`errors, this`scopes, this`currentLocalNames, this`currentLocalSlots
      ensures errors >= old(errors) && SameOuter(old(scopes), scopes)
      ensures old(currentLocalSlots) <= MAX_LOCAL_SLOTS ==>
        (errors == old(errors) <==> S.CheckStmt(functions, old(Walk()), s).Some?)
      ensures old(currentLocalSlots) <= MAX_LOCAL_SLOTS && errors == old(errors) ==>
        Walk() == S.CheckStmt(functions, old(Walk()), s).value && currentLocalSlots <= MAX_LOCAL_SLOTS
      decreases s, 0
    {
      match s {
        case VarDecl(ty, name, init, size) => AnalyzeDecl(ty, name, init, size);
        case Assign(target, index, value) => AnalyzeAssign(target, index, value);
        case If(condition, thenBody, elseBody) =>
          var _ := AnalyzeExpr(condition);
          AnalyzeNested(thenBody);
          if elseBody.Else? {
            AnalyzeNested(elseBody.body);
          }
        case While(condition, body) =>
          var _ := AnalyzeExpr(condition);
          AnalyzeNested(body);
        case Return(value) =>
          var t := AnalyzeExpr(value);
          Expect(t, IntType);
        case Print(value) => var _ := AnalyzeExpr(value);
        case ExprStmt(e) => var _ := AnalyzeExpr(e);
      }
    }

    method AnalyzeDecl(ty: Type, name: string, init: Option<Expr>, size: Option<I32>)
      requires scopes != []
      modifies this`errors, this`scopes, this`currentLocalNames, this`currentLocalSlots
      ensures errors >= old(errors) && SameOuter(old(scopes), scopes)
      ensures old(currentLocalSlots) <= MAX_LOCAL_SLOTS ==>
        (errors == old(errors) <==> S.CheckDecl(functions, old(Walk()), ty, name, init, size).Some?)
      ensures old(currentLocalSlots) <= MAX_LOCAL_SLOTS && errors == old(errors) ==>
        Walk() == S.CheckDecl(functions, old(Walk()), ty, name, init, size).value && currentLocalSlots <= MAX_LOCAL_SLOTS
    {
      hide S.TypeOf;
      var shadowed := Lookup(name);
      if shadowed.Some? {
        Error();
        return;
      }
      InnermostVisible(scopes, name);
      var _ := ValidateArraySize(size);
      AddLocalSlot(name);
      var ok := Define(name, S.Symbol(ty, size.Some?, false));
      assert ok;  // a name nothing visible has is new to the innermost scope
      if init.Some? {
        var t := AnalyzeExpr(init.value);
        Expect(t, ty);
      }
    }

    method AnalyzeAssign(target: string, index: Option<Expr>, value: Expr)
      modifies this`errors
      ensures errors >= old(errors)
      ensures errors == old(errors) <==> S.AssignAccepted(Vis(), functions, target, index, value)
    {
      hide S.TypeOf;
      var sym := Lookup(target);
      if sym.None? {
        Error();
        return;
      }
      if sym.value.isFunction {
        Error();
        return;
      }
      if index.Some? {
        var i := AnalyzeExpr(index.value);
        Expect(i, IntType);
        if !sym.value.isArray {
          Error();
        }
      } else if sym.value.isArray {
        Error();
        return;
      }
      var v := AnalyzeExpr(value);
      Expect(v, sym.value.ty);
    }

    /** A block in a scope of its own. */
    method AnalyzeNested(stmts: seq<Stmt>)
      requires scopes != []
      modifies this`errors, this`scopes, this`currentLocalNames, this`currentLocalSlots
      ensures errors >= old(errors) && scopes == old(scopes)
      ensures old(currentLocalSlots) <= MAX_LOCAL_SLOTS ==>
        (errors == old(errors) <==> S.CheckBlock(functions, old(Walk()), stmts).Some?)
      ensures old(currentLocalSlots) <= MAX_LOCAL_SLOTS && errors == old(errors) ==>
        Walk() == S.CheckBlock(functions, old(Walk()), stmts).value.(vis := old(Vis())) && currentLocalSlots <= MAX_LOCAL_SLOTS
      decreases stmts, 1
    {
      PushScope();
      AnalyzeBlock(stmts);
      assert scopes[..|scopes| - 1] == old(scopes);
      PopScope();
    }

    method AnalyzeBlock(stmts: seq<Stmt>)
      requires scopes != []
      modifies this`errors, this`scopes, this`currentLocalNames, this`currentLocalSlots
      ensures errors >= old(errors) && SameOuter(old(scopes), scopes)
      ensures old(currentLocalSlots) <= MAX_LOCAL_SLOTS ==>
        (errors == old(errors) <==> S.CheckBlock(functions, old(Walk()), stmts).Some?)
      ensures old(currentLocalSlots) <= MAX_LOCAL_SLOTS && errors == old(errors) ==>
        Walk() == S.CheckBlock(functions, old(Walk()), stmts).value && currentLocalSlots <= MAX_LOCAL_SLOTS
      decreases stmts, 0
    {
      hide S.CheckStmt;
      for i := 0 to |stmts|
        invariant errors >= old(errors) && SameOuter(old(scopes), scopes)
        invariant old(currentLocalSlots) <= MAX_LOCAL_SLOTS && errors == old(errors) ==>
          && currentLocalSlots <= MAX_LOCAL_SLOTS
          && S.CheckBlock(functions, old(Walk()), stmts) == S.CheckBlock(functions, Walk(), stmts[i..])
        invariant old(currentLocalSlots) <= MAX_LOCAL_SLOTS && errors > old(errors) ==> S.CheckBlock(functions, old(Walk()), stmts).None?
      {
        assert stmts[i..][1..] == stmts[i + 1..];
        AnalyzeStmt(stmts[i]);
      }
    }

    // -------------------------------------------------------------- functions and programs

    method AnalyzeFunction(f: Function)
      requires |scopes| == 1
      modifies this`errors, this`scopes, this`currentLocalNames, this`currentLocalSlots
      ensures errors >= old(errors) && scopes == old(scopes)
      ensures errors == old(errors) <==> S.Analyze(Vis(), functions, f).Some?
    {
      hide S.CheckBlock, S.TypeOf;
      currentLocalNames := S.ParamNames(f.params);
      currentLocalSlots := |f.params|;
      CheckLocalSlotLimit();
      PushScope();
      AnalyzeParams(f.params);
      AnalyzeBlock(f.body);
      assert scopes[..|scopes| - 1] == old(scopes);
      PopScope();
    }

    method AnalyzeParams(params: seq<Param>)
      requires scopes != []
      modifies this`errors, this`scopes
      ensures errors >= old(errors) && SameOuter(old(scopes), scopes)
      ensures errors == old(errors) <==> S.CheckParams(old(Vis()), params).Some?
      ensures errors == old(errors) ==> Vis() == S.CheckParams(old(Vis()), params).value
    {
      for i := 0 to |params|
        invariant errors >= old(errors) && SameOuter(old(scopes), scopes)
        invariant errors == old(errors) <==> S.CheckParams(old(Vis()), params[..i]).Some?
        invariant errors == old(errors) ==> Vis() == S.CheckParams(old(Vis()), params[..i]).value
      {
        assert params[..i + 1][..i] == params[..i];
        var shadowed := Lookup(params[i].name);
        if shadowed.Some? {
          Error();
          continue;
        }
        InnermostVisible(scopes, params[i].name);
        var ok := Define(params[i].name, S.Symbol(params[i].paramType, false, false));
        assert ok;  // a name nothing visible has is new to the innermost scope
      }
      assert params[..|params|] == params;
    }

    method AddGlobalSlots(slots: nat, taken: nat) returns (next: nat)
      modifies this`errors
      ensures errors == if slots > 0 && taken + slots > MAX_GLOBAL_SLOTS then old(errors) + 1 else old(errors)
      ensures next == taken + slots
    {
      if slots == 0 {
        return taken;
      }
      next := taken + slots;
      if next > MAX_GLOBAL_SLOTS {
        Error();
      }
    }

    method CollectGlobals(globals: seq<GlobalVar>)
      requires scopes == [map[]]
      modifies this`errors, this`scopes
      ensures errors >= old(errors) && |scopes| == 1
      ensures errors == old(errors) <==> S.CheckGlobals(globals).Some?
      ensures errors == old(errors) ==> Vis() == S.CheckGlobals(globals).value.0
    {
      var taken: nat := 0;
      OnlyScope(scopes);
      for i := 0 to |globals|
        invariant errors >= old(errors) && |scopes| == 1
        invariant errors == old(errors) <==> S.CheckGlobals(globals[..i]).Some?
        invariant errors == old(errors) ==> S.CheckGlobals(globals[..i]).value == (Vis(), taken)
      {
        assert globals[..i + 1][..i] == globals[..i];
        var g := globals[i];
        var checked := ValidateArraySize(g.size);
        var slots := if g.size.Some? then (if checked.Some? then checked.value else 0) else 1;
        taken := AddGlobalSlots(slots, taken);
        OnlyScope(scopes);
        var ok := Define(g.name, S.Symbol(g.varType, g.size.Some?, false));
        if !ok {
          Error();
        }
      }
      assert globals[..|globals|] == globals;
    }

    method CollectFunctions(fs: seq<Function>)
      requires |scopes| == 1 && functions == map[]
      modifies this`errors, this`scopes, this`functions
      ensures errors >= old(errors) && |scopes| == 1
      ensures errors == old(errors) <==> S.CheckFunctions(old(Vis()), fs).Some?
      ensures errors == old(errors) ==> (Vis(), functions) == S.CheckFunctions(old(Vis()), fs).value
    {
      for i := 0 to |fs|
        invariant errors >= old(errors) && |scopes| == 1
        invariant errors == old(errors) <==> S.CheckFunctions(old(Vis()), fs[..i]).Some?
        invariant errors == old(errors) ==> (Vis(), functions) == S.CheckFunctions(old(Vis()), fs[..i]).value
      {
        assert fs[..i + 1][..i] == fs[..i];
        var f := fs[i];
        if f.name in functions {
          Error();
        } else {
          functions := functions[f.name := S.ParamTypes(f.params)];
          OnlyScope(scopes);
          var ok := Define(f.name, S.Symbol(IntType, false, true));
          if !ok {
            Error();
          }
        }
      }
      assert fs[..|fs|] == fs;
    }

    method CheckInitializers(globals: seq<GlobalVar>)
      modifies this`errors
      ensures errors >= old(errors)
      ensures errors == old(errors) <==>
        forall i :: 0 <= i < |globals| ==> S.InitMatches(Vis(), functions, globals[i].init, globals[i].varType)
    {
      hide S.TypeOf;
      for i := 0 to |globals|
        invariant errors >= old(errors)
        invariant errors == old(errors) <==>
          forall k :: 0 <= k < i ==> S.InitMatches(Vis(), functions, globals[k].init, globals[k].varType)
      {
        if globals[i].init.Some? {
          var t := AnalyzeExpr(globals[i].init.value);
          Expect(t, globals[i].varType);
        }
      }
    }

    /** A fresh analyzer reports no error exactly for the accepted programs, in which every node obeys its rule. */
    method Analyze(p: Program) returns (ok: bool)
      requires scopes == [map[]] && functions == map[] && errors == 0
      modifies this
      ensures ok <==> S.Accepts(p)
      ensures ok <==> Y.WellFormed(p)
    {
      hide Y.WellFormed, S.Analyze, S.CheckGlobals, S.CheckFunctions, S.InitMatches;
      Y.AcceptedExactly(p);
      CollectGlobals(p.globals);
      CollectFunctions(p.functions);
      ghost var declared := errors == 0;
      assert declared <==> S.TopLevel(p).Some?;
      CheckInitializers(p.globals);
      if "main" !in functions {
        Error();
      } else if functions["main"] != [] {
        Error();
      }
      ghost var before, declaredScopes, declaredFunctions := errors, scopes, functions;
      for i := 0 to |p.functions|
        invariant errors >= before && |scopes| == 1 && scopes == declaredScopes && functions == declaredFunctions
        invariant errors == before <==> forall k :: 0 <= k < i ==> S.Analyze(Vis(), functions, p.functions[k]).Some?
      {
        AnalyzeFunction(p.functions[i]);
      }
      return errors == 0;
    }
  }

  lemma InnermostVisible(scopes: seq<Scope>, name: string)
    requires scopes != [] && name !in Flatten(scopes)
    ensures name !in scopes[|scopes| - 1]
  {
  }

  lemma OnlyScope(scopes: seq<Scope>)
    requires |scopes| == 1
    ensures Flatten(scopes) == scopes[0]
  {
    assert scopes[..0] == [];
  }
}
