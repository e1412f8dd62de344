/** The printer as an object that appends to a text, proved to append what Printing says. */
module Printer {
  import opened Common
  import opened Int32
  import opened Ast
  import opened Printing
  import Lexing

  class Printer {
    var out: string

    constructor ()
      ensures out == ""
    {
      out := "";
    }

    method Push(text: string)
      modifies this
      ensures out == old(out) + text
    {
      out := out + text;
    }

    method PushIndent(indent: nat)
      modifies this
      ensures out == old(out) + Indent(indent)
    {
      for i := 0 to indent
        invariant out == old(out) + Indent(i)
      {
        Lexing.Assoc(old(out), Indent(i), "  ");
        Push("  ");
      }
    }

    method EmitDeclaration(ty: Type, name: string, init: Option<Expr>, size: Option<I32>)
      modifies this
      ensures out == old(out) + DeclText(ty, name, init, size)
    {
      hide TypeText, IntText, ExprText;
      ghost var start := out;
      Push(TypeText(ty));
      Push(" ");
      Push(name);
      ghost var tail := if size.Some? then "[" + IntText(size.value) + "]" else if init.Some? then " = " + ExprText(init.value) else "";
      if size.Some? {
        Push("[" + IntText(size.value) + "]");
      } else if init.Some? {
        Push(" = " + ExprText(init.value));
      } else {
        assert out + tail == out;
      }
      Chain(start, TypeText(ty), " ", name, tail);
      Push(";\n");
      Lexing.Assoc(start, TypeText(ty) + " " + name + tail, ";\n");
    }

    method EmitStmt(s: Stmt, indent: nat)
      modifies this
      ensures out == old(out) + StmtText(s, indent)
      decreases s, 2
    {
      hide BareText;
      PushIndent(indent);
      EmitBare(s, indent);
    }

    /** The statement behind its indentation. */
    method EmitBare(s: Stmt, indent: nat)
      modifies this
      ensures out == old(out) + BareText(s, indent)
      decreases s, 1
    {
      hide ExprText, BlockText, DeclText, Indent;
      match s {
        case VarDecl(ty, name, init, size) => EmitDeclaration(ty, name, init, size);
        case Assign(target, index, value) =>
          Push(target);
          if index.Some? {
            Push("[" + ExprText(index.value) + "]");
          }
          Push(" = ");
          Push(ExprText(value));
          Push(";\n");
        case If(_, _, _) => EmitIf(s, indent);
        case While(condition, body) =>
          Push("while (" + ExprText(condition) + ") {\n");
          EmitBlock(body, indent + 1);
          PushIndent(indent);
          Push("}\n");
        case Return(value) => Push("return " + ExprText(value) + ";\n");
        case Print(value) => Push("print " + ExprText(value) + ";\n");
        case ExprStmt(e) => Push(ExprText(e) + ";\n");
      }
    }

    method EmitIf(s: Stmt, indent: nat)
      requires s.If?
      modifies this
      ensures out == old(out) + BareText(s, indent)
      decreases s, 0
    {
      hide ExprText, BlockText, Indent;
      ghost var start := out;
      var head := "if (" + ExprText(s.condition) + ") {\n";
      Push(head);
      EmitBlock(s.thenBody, indent + 1);
      PushIndent(indent);
      Push("}");
      ghost var first := head + BlockText(s.thenBody, indent + 1) + Indent(indent) + "}";
      Chain(start, head, BlockText(s.thenBody, indent + 1), Indent(indent), "}");
      if s.elseBody.Else? {
        Push(" else {\n");
        EmitBlock(s.elseBody.body, indent + 1);
        PushIndent(indent);
        Push("}");
        Chain(start + first, " else {\n", BlockText(s.elseBody.body, indent + 1), Indent(indent), "}");
      }
      ghost var second := if s.elseBody.Else? then " else {\n" + BlockText(s.elseBody.body, indent + 1) + Indent(indent) + "}" else "";
      Push("\n");
      assert s.elseBody.NoElse? ==> first + "" == first;
      Lexing.Assoc(start, first, second);
      Lexing.Assoc(start, first + second, "\n");
    }

    method EmitBlock(stmts: seq<Stmt>, indent: nat)
      modifies this
      ensures out == old(out) + BlockText(stmts, indent)
      decreases stmts, 0
    {
      hide StmtText;
      ghost var goal := out + BlockText(stmts, indent);
      for i := 0 to |stmts|
        invariant out + BlockText(stmts[i..], indent) == goal
      {
        assert stmts[i..][1..] == stmts[i + 1..];
        Lexing.Assoc(out, StmtText(stmts[i], indent), BlockText(stmts[i + 1..], indent));
        EmitStmt(stmts[i], indent);
      }
      assert out + "" == out;
    }

    method EmitParams(params: seq<Param>)
      modifies this
      ensures out == old(out) + ParamsText(params)
    {
      hide ParamText, ParamsText, ParamsLeft;
      ghost var goal := out + ParamsText(params);
      ParamsLeftAll(params);
      for i := 0 to |params|
        invariant out + ParamsLeft(params, i) == goal
      {
        ParamsLeftStep(params, i);
        ghost var separator := if i == 0 then "" else ", ";
        assert out + "" == out;
        Three(out, separator, ParamText(params[i]), ParamsLeft(params, i + 1));
        if i > 0 {
          Push(", ");
        }
        Push(ParamText(params[i]));
      }
      NoneLeft(out, params, []);
    }

    method EmitFunction(f: Function)
      modifies this
      ensures out == old(out) + FunctionText(f)
    {
      hide ParamsText, BlockText;
      Push("func ");
      Push(f.name);
      Push("(");
      EmitParams(f.params);
      Push(") {\n");
      EmitBlock(f.body, 1);
      Push("}\n");
    }

    method EmitGlobals(globals: seq<GlobalVar>)
      modifies this
      ensures out == old(out) + GlobalsText(globals)
    {
      hide DeclText;
      ghost var goal := out + GlobalsText(globals);
      for i := 0 to |globals|
        invariant out + GlobalsText(globals[i..]) == goal
      {
        var g := globals[i];
        assert globals[i..][1..] == globals[i + 1..];
        Lexing.Assoc(out, DeclText(g.varType, g.name, g.init, g.size), GlobalsText(globals[i + 1..]));
        EmitDeclaration(g.varType, g.name, g.init, g.size);
      }
      assert out + "" == out;
    }

    method EmitFunctions(functions: seq<Function>)
      modifies this
      ensures out == old(out) + FunctionsText(functions)
    {
      hide FunctionText, FunctionsText, FunctionsLeft;
      ghost var goal := out + FunctionsText(functions);
      FunctionsLeftAll(functions);
      for i := 0 to |functions|
        invariant out + FunctionsLeft(functions, i) == goal
      {
        FunctionsLeftStep(functions, i);
        ghost var separator := if i == 0 then "" else "\n";
        assert out + "" == out;
        Three(out, separator, FunctionText(functions[i]), FunctionsLeft(functions, i + 1));
        if i > 0 {
          Push("\n");
        }
        EmitFunction(functions[i]);
      }
      NoneLeft(out, [], functions);
    }

    /** Globals, an empty line, and functions with empty lines between them. */
    method EmitProgram(p: Program)
      modifies this
      ensures out == old(out) + ProgramText(p)
    {
      hide GlobalsText, FunctionsText;
      EmitGlobals(p.globals);
      if p.globals != [] && p.functions != [] {
        Push("\n");
      }
      EmitFunctions(p.functions);
    }
  }

  lemma Three(start: string, a: string, b: string, c: string)
    ensures start + (a + b + c) == start + a + b + c
  {
    Lexing.Assoc(start, a, b);
    Lexing.Assoc(start, a + b, c);
  }

  lemma NoneLeft(out: string, params: seq<Param>, functions: seq<Function>)
    ensures out + ParamsLeft(params, |params|) == out && out + FunctionsLeft(functions, |functions|) == out
  {
  }

  /** Four texts appended one after the other. */
  lemma Chain(start: string, a: string, b: string, c: string, d: string)
    ensures start + a + b + c + d == start + (a + b + c + d)
  {
    Lexing.Assoc(start, a, b);
    Lexing.Assoc(start, a + b, c);
    Lexing.Assoc(start, a + b + c, d);
  }

  // ---------------------------------------------------------------- what is left of a list

  ghost function ParamsLeft(params: seq<Param>, i: nat): string
    requires i <= |params|
  {
    if i == |params| then "" else (if i == 0 then "" else ", ") + ParamsText(params[i..])
  }

  lemma ParamsLeftAll(params: seq<Param>)
    ensures ParamsLeft(params, 0) == ParamsText(params)
  {
    assert params[0..] == params;
  }

  lemma ParamsLeftStep(params: seq<Param>, i: nat)
    requires i < |params|
    ensures ParamsLeft(params, i) == (if i == 0 then "" else ", ") + ParamText(params[i]) + ParamsLeft(params, i + 1)
  {
    hide ParamText;
    assert params[i..][1..] == params[i + 1..];
  }

  ghost function FunctionsLeft(functions: seq<Function>, i: nat): string
    requires i <= |functions|
  {
    if i == |functions| then "" else (if i == 0 then "" else "\n") + FunctionsText(functions[i..])
  }

  lemma FunctionsLeftAll(functions: seq<Function>)
    ensures FunctionsLeft(functions, 0) == FunctionsText(functions)
  {
    assert functions[0..] == functions;
  }

  lemma FunctionsLeftStep(functions: seq<Function>, i: nat)
    requires i < |functions|
    ensures FunctionsLeft(functions, i) == (if i == 0 then "" else "\n") + FunctionText(functions[i]) + FunctionsLeft(functions, i + 1)
  {
    hide FunctionText;
    assert functions[i..][1..] == functions[i + 1..];
  }
}
