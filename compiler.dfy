// class Hello_compiler (HelloDll/Hello_compiler.cpp and the generate
// members of HelloDll/AST.cpp) with the state of its base class executable
// (Common/Internals.h): the instruction pipeline, which also holds the
// statement table and the option word it shares with the compiler, and the
// symbol table.  Each method changes them in place and is proved to leave
// the state that the function of the same name in module Codegen (or
// Driver) computes from the state it started in.

module Compilers {

  import opened Wrappers
  import opened Script
  import opened Internals
  import opened Allocator
  import opened Pipeline
  import opened Symbols
  import opened Ast
  import opened Codegen
  import opened Streams
  import opened Parsers
  import Lexer
  import Grammar
  import Driver

  class Compiler {
    /** pipe, with the stmt_table and the options word it refers to. */
    const pipe: InstructionPipeline
    const symbols: SymbolTable
    /** The process environment getenv reads. */
    const env: map<string, CString>

    function State(): CState
      reads pipe, symbols
    {
      CState(pipe.instrs, pipe.stmts, symbols.View())
    }

    function Context(): Ctx
      reads pipe
    {
      Ctx(pipe.options, env, AsWritten)
    }

    /** The layout symbol_table::insert asserts. */
    predicate Valid()
      reads symbols
    {
      symbols.View().Consistent()
    }

    /** Hello_compiler(): an empty pipeline, statement table and symbol
        table.  The options word is left uninitialised by the constructor;
        here it is whatever the caller passes. */
    constructor(options: Options, env: map<string, CString>)
      ensures Valid() && fresh(pipe) && fresh(symbols)
      ensures State() == CState([], [], EmptyTable) && Context() == Ctx(options, env, AsWritten)
    {
      pipe := new InstructionPipeline(options);
      symbols := new SymbolTable();
      this.env := env;
    }

    /** set_options: stores the word and always reports success. */
    method SetOptions(options: Options) returns (ok: bool)
      modifies pipe
      ensures ok && Context() == Ctx(options, env, AsWritten)
      ensures pipe.instrs == old(pipe.instrs) && pipe.stmts == old(pipe.stmts)
    {
      pipe.options := options;
      return true;
    }

    /** executable::reset as written: symbol_table::clear is the map's
        clear, so the vector of names survives. */
    method ResetAsWritten()
      modifies pipe, symbols
      ensures State() == CState([], [], ClearedAsWritten(old(State()).table))
      ensures Context() == old(Context())
    {
      symbols.Clear();
      pipe.stmts := [];
      pipe.instrs := [];
    }

    /** executable::reset with both containers of the symbol table emptied. */
    method Reset()
      modifies pipe, symbols
      ensures Valid() && State() == CState([], [], EmptyTable)
      ensures Context() == old(Context())
    {
      symbols.Reset();
      pipe.stmts := [];
      pipe.instrs := [];
    }

    /** index_of */
    method IndexOf(name: string) returns (idx: nat, found: bool)
      requires Valid()
      modifies symbols
      ensures Valid() && Codegen.IndexOf(old(State()), name) == Ok((State(), idx, found))
    {
      if name in symbols.slots {
        return symbols.slots[name], true;
      }
      InsertFresh(symbols.View(), name);
      var r := symbols.Insert(name);
      return r.value, false;
    }

    /** assign_value_to_variable(name, int) */
    method AssignValueToVariable(name: string, n: int)
      requires Valid()
      modifies pipe, symbols
      ensures Valid() && State() == Codegen.AssignValue(old(State()), name, n, Context())
      ensures Context() == old(Context())
    {
      pipe.EmitInt(n);
      AssignFromTopOfStack(name);
    }

    /** assign_value_to_variable(name, valtype) */
    method AssignBytesToVariable(name: string, v: seq<byte>)
      requires Valid()
      modifies pipe, symbols
      ensures Valid() && State() == Codegen.AssignFromTop(EmitData(old(State()), v), name, Context())
      ensures Context() == old(Context())
    {
      pipe.EmitData(v);
      AssignFromTopOfStack(name);
    }

    /** assign_from_top_of_stack: the requests of AssignRequests for a
        known slot, a single TOALTSTACK for a new variable. */
    method AssignFromTopOfStack(name: string)
      requires Valid()
      modifies pipe, symbols
      ensures Valid() && State() == Codegen.AssignFromTop(old(State()), name, Context())
      ensures Context() == old(Context())
    {
      ghost var st0 := State();
      var idx, found := IndexOf(name);
      var size := symbols.Size();
      if found {
        IndexOfKnown(st0, name);
        EmitOverwrite(idx, size);
      } else {
        IndexOfUnknown(st0, name);
        AppendAllOp(pipe.instrs, OP_TOALTSTACK, [], Tag(pipe.stmts), AsWritten);
        assert NewVariableRequests == [Op(OP_TOALTSTACK)] + [];
        pipe.EmitOp(OP_TOALTSTACK);
      }
    }

    /** The found branch of assign_from_top_of_stack: its two counted loops
        around DROP and the optional CScriptNum, ROLL. */
    method EmitOverwrite(idx: nat, size: nat)
      requires idx < size
      modifies pipe
      ensures pipe.instrs == AppendAll(old(pipe.instrs), AssignRequests(size, idx), Tag(pipe.stmts), AsWritten)
      ensures pipe.stmts == old(pipe.stmts) && pipe.options == old(pipe.options)
    {
      ghost var tag := Tag(pipe.stmts);
      ghost var target := AppendAll(pipe.instrs, AssignRequests(size, idx), tag, AsWritten);
      ghost var pushBack := Repeat([Op(OP_TOALTSTACK)], size - idx);
      ghost var roll := RollRequests(size - 1 - idx) + pushBack;
      assert AssignRequests(size, idx) == Repeat([Op(OP_FROMALTSTACK)], size - idx) + ([Op(OP_DROP)] + roll);
      AppendAllConcat(pipe.instrs, Repeat([Op(OP_FROMALTSTACK)], size - idx), [Op(OP_DROP)] + roll, tag, AsWritten);
      pipe.EmitTimes([Op(OP_FROMALTSTACK)], size - idx);
      AppendAllOp(pipe.instrs, OP_DROP, roll, tag, AsWritten);
      pipe.EmitOp(OP_DROP);
      if size - 1 - idx > 0 {
        RollRequestsThen(size - 1 - idx, pushBack);
        AppendAllData(pipe.instrs, ScriptNumBytes(size - 1 - idx), [Op(OP_ROLL)] + pushBack, tag, AsWritten);
        pipe.EmitData(ScriptNumBytes(size - 1 - idx));
        AppendAllOp(pipe.instrs, OP_ROLL, pushBack, tag, AsWritten);
        pipe.EmitOp(OP_ROLL);
      } else {
        assert roll == pushBack;
      }
      pipe.EmitTimes([Op(OP_TOALTSTACK)], size - idx);
    }

    /** copy_to_top_of_stack: the requests of CopyRequests for a known
        slot; an unknown name has been inserted by index_of when the
        runtime_error is thrown. */
    method CopyToTopOfStack(name: string) returns (failure: Option<Failure>)
      requires Valid()
      modifies pipe, symbols
      ensures Valid() && Effect(State(), failure) == Codegen.CopyToTop(old(State()), name, Context())
      ensures Context() == old(Context())
    {
      ghost var st0 := State();
      var idx, found := IndexOf(name);
      if !found {
        IndexOfUnknown(st0, name);
        return Some(RuntimeError(UninitialisedVariable(name)));
      }
      IndexOfKnown(st0, name);
      var size := symbols.Size();
      EmitCopy(idx, size);
      return None;
    }

    /** The code after the check in copy_to_top_of_stack: a counted loop,
        DUP, TOALTSTACK, and a second counted loop. */
    method EmitCopy(idx: nat, size: nat)
      requires idx < size
      modifies pipe
      ensures pipe.instrs == AppendAll(old(pipe.instrs), CopyRequests(size, idx), Tag(pipe.stmts), AsWritten)
      ensures pipe.stmts == old(pipe.stmts) && pipe.options == old(pipe.options)
    {
      ghost var tag := Tag(pipe.stmts);
      ghost var swaps := Repeat([Op(OP_SWAP), Op(OP_TOALTSTACK)], size - idx - 1);
      assert CopyRequests(size, idx) == Repeat([Op(OP_FROMALTSTACK)], size - idx) + ([Op(OP_DUP)] + ([Op(OP_TOALTSTACK)] + swaps));
      AppendAllConcat(pipe.instrs, Repeat([Op(OP_FROMALTSTACK)], size - idx), [Op(OP_DUP)] + ([Op(OP_TOALTSTACK)] + swaps), tag, AsWritten);
      pipe.EmitTimes([Op(OP_FROMALTSTACK)], size - idx);
      AppendAllOp(pipe.instrs, OP_DUP, [Op(OP_TOALTSTACK)] + swaps, tag, AsWritten);
      pipe.EmitOp(OP_DUP);
      AppendAllOp(pipe.instrs, OP_TOALTSTACK, swaps, tag, AsWritten);
      pipe.EmitOp(OP_TOALTSTACK);
      pipe.EmitTimes([Op(OP_SWAP), Op(OP_TOALTSTACK)], size - idx - 1);
    }

    /** get_extern_value: getenv's string up to and including its NUL.
        For a missing variable the code dereferences the NULL that getenv returns. */
    method GetExternValue(name: string) returns (r: Result<seq<byte>, Failure>)
      ensures r.Ok? <==> name in env
      ensures r.Ok? ==> && |r.value| == |env[name]| + 1 && r.value[|env[name]|] == 0
                        && r.value[..|env[name]|] == env[name]
                        && forall k :: 0 <= k < |env[name]| ==> r.value[k] != 0
      ensures r.Err? ==> r == Err(Abort("get_extern_value: variable not in the environment"))
    {
      if name !in env {
        return Err(Abort("get_extern_value: variable not in the environment"));
      }
      r := Ok(env[name] + [0]);
    }

    // -------------------------------------------------------------------
    // generate, one method per kind of node (HelloDll/AST.cpp).

    /** fill_pipeline / AST_node::generate: the virtual call, dispatched on
        the kind of node.  Calling it on a Null child is an Abort. */
    method Generate(n: Node) returns (r: Result<bool, Failure>)
      requires Valid()
      modifies pipe, symbols
      ensures Valid() && Outcome(State(), r) == Gen(n, old(State()), Context())
      ensures Context() == old(Context())
      decreases n, 2
    {
      match n
      case Null => r := Err(Abort("null AST node"));
      case Const(_, _) => r := GenerateConst(n);
      case RValue(_, _) => r := GenerateRValue(n);
      case Unary => r := Ok(true);
      case Binary(_, _, _) => r := GenerateBinary(n);
      case Assign(_, _, _, _) => r := GenerateAssign(n);
      case IfThenElse(_, _, _, _, _) => r := GenerateIf(n);
      case ForLoop(_, _, _, _, _, _) => r := GenerateFor(n);
      case NativeFunction(_, _, _) => r := GenerateNative(n);
      case Assertion(_, _, _) => r := GenerateAssertion(n);
      case Sequence(_, _) => r := GenerateSequence(n);
    }

    /** const_node::generate */
    method GenerateConst(n: Node) returns (r: Result<bool, Failure>)
      requires Valid() && n.Const?
      modifies pipe
      ensures Valid() && Outcome(State(), r) == GenConst(n, old(State()))
      ensures Context() == old(Context())
    {
      if n.kind == Hex {
        pipe.EmitData(ParseHex(n.value));
      } else if n.kind == Integer {
        var v := Atoi(n.value);
        if !IsInt(v) {
          return Err(Abort(AtoiOutOfRange));
        }
        pipe.EmitInt(v);
      } else {
        return Err(Abort("const_node::generate: unsupported type"));
      }
      return Ok(true);
    }

    /** rvalue_node::generate */
    method GenerateRValue(n: Node) returns (r: Result<bool, Failure>)
      requires Valid() && n.RValue?
      modifies pipe, symbols
      ensures Valid() && Outcome(State(), r) == GenRValue(n, old(State()), Context())
      ensures Context() == old(Context())
    {
      if n.isExtern {
        var v := GetExternValue(n.name);
        if v.Err? {
          return Err(v.error);
        }
        assert v.value == env[n.name] + [0];
        pipe.EmitData(v.value);
      } else if n.name != "tos" {
        var failure := CopyToTopOfStack(n.name);
        if failure.Some? {
          return Err(failure.value);
        }
      } else {
        pipe.EmitOp(OP_DUP);
      }
      return Ok(true);
    }

    /** binary_op::generate */
    method GenerateBinary(n: Node) returns (r: Result<bool, Failure>)
      requires Valid() && n.Binary?
      modifies pipe, symbols
      ensures Valid() && Outcome(State(), r) == GenBinary(n, old(State()), Context())
      ensures Context() == old(Context())
      decreases n, 0
    {
      var a := Generate(n.a);
      if a.Err? {
        return a;
      }
      var ok := a.value;
      if ok {
        var b := Generate(n.b);
        if b.Err? {
          return b;
        }
        ok := b.value;
      }
      var opcode := BinaryOpcode(n.op);
      if opcode.None? {
        return Err(Abort("binary_op::generate: unknown operator"));
      }
      pipe.EmitOp(opcode.value);
      return Ok(true);
    }

    /** assign_op::generate */
    method GenerateAssign(n: Node) returns (r: Result<bool, Failure>)
      requires Valid() && n.Assign?
      modifies pipe, symbols
      ensures Valid() && Outcome(State(), r) == GenAssign(n, old(State()), Context())
      ensures Context() == old(Context())
      decreases n, 0
    {
      pipe.DeclareStmt(Stmt(n.p1, n.p2));
      if n.expr == Null {
        return Err(Abort("assign_op::generate: null expression"));
      }
      var e := Generate(n.expr);
      if e.Err? {
        return e;
      }
      if n.name != "tos" {
        AssignFromTopOfStack(n.name);
      }
      return Ok(true);
    }

    /** if_then_else::generate */
    method GenerateIf(n: Node) returns (r: Result<bool, Failure>)
      requires Valid() && n.IfThenElse?
      modifies pipe, symbols
      ensures Valid() && Outcome(State(), r) == GenIf(n, old(State()), Context())
      ensures Context() == old(Context())
      decreases n, 1
    {
      pipe.DeclareStmt(Stmt(n.p1, n.p2));
      var c := Generate(n.cond);
      if c.Err? {
        return c;
      }
      pipe.EmitOp(OP_IF);
      r := GenerateBranches(n, c.value);
    }

    /** The branches of if_then_else::generate, after OP_IF. */
    method GenerateBranches(n: Node, ok: bool) returns (r: Result<bool, Failure>)
      requires Valid() && n.IfThenElse?
      modifies pipe, symbols
      ensures Valid() && Outcome(State(), r) == GenBranches(n, old(State()), ok, Context())
      ensures Context() == old(Context())
      decreases n, 0
    {
      var ok := ok;
      if n.a != Null && ok {
        var a := Generate(n.a);
        if a.Err? {
          return a;
        }
        ok := a.value;
      }
      if n.b != Null {
        pipe.EmitOp(OP_ELSE);
        if ok {
          var b := Generate(n.b);
          if b.Err? {
            return b;
          }
          ok := b.value;
        }
      }
      pipe.EmitOp(OP_ENDIF);
      return Ok(ok);
    }

    /** for_loop::generate: upwards when first < last and downwards
        otherwise, each turn assigning to `i`. */
    method GenerateFor(n: Node) returns (r: Result<bool, Failure>)
      requires Valid() && n.ForLoop?
      modifies pipe, symbols
      ensures Valid() && Outcome(State(), r) == GenFor(n, old(State()), Context())
      ensures Context() == old(Context())
      decreases n, 0
    {
      pipe.DeclareStmt(Stmt(n.p1, n.p2));
      if n.first < n.last {
        r := CountUp(n.first, n.last, n.block);
      } else {
        r := CountDown(n.last, n.first, n.block);
      }
    }

    /** compile_internal: a parser on f; ws(); then, while the parser is
        not at the end and ok is set, parse a statement and fill the
        pipeline with it.  An exception that escapes ends the method. */
    method CompileInternal(f: InputStream) returns (r: Result<Driver.Report, Failure>)
      requires Valid() && f.Valid()
      modifies pipe, symbols, f
      ensures Valid() && Context() == old(Context())
      ensures Driver.Delivers(r, Driver.CompileInternal(old(f.View()), old(State()), Context()), State())
    {
      var parser := new Parser(f);
      var w := parser.tok.Ws();
      if w.Err? {
        return Err(w.error);
      }
      ghost var ctx := Context();
      ghost var spec := Driver.Statements(parser.View(), State(), ctx);
      assert spec == Driver.CompileInternal(old(f.View()), old(State()), ctx);
      var ok := true;
      var messages: seq<Driver.Diagnostic> := [];
      var escaped: Option<Failure> := None;
      while escaped.None?
        invariant Valid() && Context() == ctx && parser.Valid() && parser.tok.f == f
        invariant fresh(parser) && fresh(parser.tok)
        invariant Driver.Continues(ok, messages, escaped, spec, parser.View(), State(), ctx)
        decreases if escaped.None? && ok then Lexer.Measure(parser.tok.View()) + 1 else 0
      {
        ghost var ps := parser.View();
        var atEnd := parser.tok.Eof();
        if atEnd || !ok {
          break;
        }
        Driver.ContinuesClean(messages, spec, ps, State(), ctx);
        Driver.StatementsNotAtEnd(ps, State(), ctx);
        var m: seq<Driver.Diagnostic>;
        ok, m, escaped := CompileStatement(parser);
        Driver.NoMessageYet(messages, m);
        messages := messages + m;
      }
      if escaped.Some? {
        return Err(escaped.value);
      }
      return Ok(Driver.Report(ok, messages));
    }

    /** The body of compile_internal's loop: ok cleared, eat_statement,
        fill_pipeline, and the two catch clauses. */
    method CompileStatement(parser: Parser) returns (ok: bool, messages: seq<Driver.Diagnostic>, escaped: Option<Failure>)
      requires Valid() && parser.Valid()
      modifies pipe, symbols, parser, parser.tok, parser.tok.f
      ensures Valid() && Context() == old(Context()) && parser.Valid()
      ensures Driver.Continues(ok, messages, escaped,
                Driver.Turn(old(parser.View()), Grammar.Statement(old(parser.View())), old(State()), Context()),
                parser.View(), State(), Context())
      ensures escaped.None? && ok ==> Lexer.Measure(parser.tok.View()) < Lexer.Measure(old(parser.tok.View()))
    {
      ok := false;
      messages := [];
      escaped := None;
      var ast := parser.Statement();
      if ast.Err? {
        match Driver.Caught(ast.error)
        case Some(d) => messages := [d];
        case None => escaped := Some(ast.error);
      } else {
        var g := Generate(ast.value);
        if g.Err? {
          match Driver.Caught(g.error)
          case Some(d) => messages := [d];
          case None => escaped := Some(g.error);
        } else {
          ok := g.value;
        }
      }
    }

    /** for(int i=first; i <= last; i++) of for_loop::generate. */
    method CountUp(first: int, last: int, block: Node) returns (r: Result<bool, Failure>)
      requires Valid()
      modifies pipe, symbols
      ensures Valid() && Outcome(State(), r) == GenLoop(Ascending(first, last), block, old(State()), true, Context())
      ensures Context() == old(Context())
      decreases block, 4
    {
      ghost var ctx := Context();
      ghost var target := GenLoop(Ascending(first, last), block, State(), true, ctx);
      r := Ok(true);
      var i := first;
      while i <= last && r.Ok?
        invariant Valid() && Context() == ctx
        invariant r.Ok? ==> GenLoop(Ascending(i, last), block, State(), r.value, ctx) == target
        invariant r.Err? ==> Outcome(State(), r) == target
        decreases last - i
      {
        AscendingFirst(i, last);
        r := Iteration(Ascending(i, last), i, block, r.value);
        i := i + 1;
      }
    }

    /** for(int i=last; i >= first; i--) of for_loop::generate. */
    method CountDown(last: int, first: int, block: Node) returns (r: Result<bool, Failure>)
      requires Valid()
      modifies pipe, symbols
      ensures Valid() && Outcome(State(), r) == GenLoop(Descending(last, first), block, old(State()), true, Context())
      ensures Context() == old(Context())
      decreases block, 4
    {
      ghost var ctx := Context();
      ghost var target := GenLoop(Descending(last, first), block, State(), true, ctx);
      r := Ok(true);
      var i := last;
      while i >= first && r.Ok?
        invariant Valid() && Context() == ctx
        invariant r.Ok? ==> GenLoop(Descending(i, first), block, State(), r.value, ctx) == target
        invariant r.Err? ==> Outcome(State(), r) == target
        decreases i - first
      {
        DescendingFirst(i, first);
        r := Iteration(Descending(i, first), i, block, r.value);
        i := i - 1;
      }
    }

    /** The body shared by for_loop::generate's two loops. */
    method Iteration(ghost values: seq<int>, i: int, block: Node, ok: bool) returns (r: Result<bool, Failure>)
      requires Valid() && values != [] && values[0] == i
      modifies pipe, symbols
      ensures Valid() && Context() == old(Context())
      ensures r.Err? ==> Outcome(State(), r) == GenLoop(values, block, old(State()), ok, Context())
      ensures r.Ok? ==> GenLoop(values[1..], block, State(), r.value, Context()) == GenLoop(values, block, old(State()), ok, Context())
      decreases block, 3
    {
      AssignValueToVariable("i", i);
      if block != Null && ok {
        r := Generate(block);
      } else {
        r := Ok(ok);
      }
    }

    /** native_function::generate */
    method GenerateNative(n: Node) returns (r: Result<bool, Failure>)
      requires Valid() && n.NativeFunction?
      modifies pipe, symbols
      ensures Valid() && Outcome(State(), r) == GenNative(n, old(State()), Context())
      ensures Context() == old(Context())
      decreases n, 0
    {
      if n.opcode == OP_RETURN {
        pipe.EmitOp(OP_RETURN);
        var a := Generate(n.args);
        if a.Err? {
          return a;
        }
      } else {
        var a := Generate(n.args);
        if a.Err? {
          return a;
        }
        pipe.EmitOp(n.opcode);
      }
      return Ok(false);
    }

    /** assertion::generate */
    method GenerateAssertion(n: Node) returns (r: Result<bool, Failure>)
      requires Valid() && n.Assertion?
      modifies pipe, symbols
      ensures Valid() && Outcome(State(), r) == GenAssertion(n, old(State()), Context())
      ensures Context() == old(Context())
      decreases n, 0
    {
      if pipe.options & ASSERTS_ON == ASSERTS_ON {
        pipe.DeclareStmt(Stmt(n.p1, n.p2));
        var c := Generate(n.cond);
        if c.Err? {
          return c;
        }
        pipe.EmitOp(OP_NOTIF);
        pipe.EmitOp(OP_NOP4);
        pipe.EmitOp(OP_ENDIF);
        return c;
      }
      return Ok(true);
    }

    /** sequence::generate */
    method GenerateSequence(n: Node) returns (r: Result<bool, Failure>)
      requires Valid() && n.Sequence?
      modifies pipe, symbols
      ensures Valid() && Outcome(State(), r) == GenSequence(n, old(State()), Context())
      ensures Context() == old(Context())
      decreases n, 0
    {
      var ok := true;
      if n.a != Null {
        var a := Generate(n.a);
        if a.Err? {
          return a;
        }
        ok := a.value;
      }
      if n.b != Null && ok {
        var b := Generate(n.b);
        if b.Err? {
          return b;
        }
        ok := b.value;
      }
      return Ok(ok);
    }
  }
}
