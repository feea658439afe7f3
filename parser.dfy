// class Hello_parser (HelloDll/parser.h): the parser owns its tokeniser
// (the C++ class inherits from it) and the list of streampoints.  Each rule
// reads tokens in place and is proved to build the node, and leave the
// state, that the function of the same name in module Grammar gives.

module Parsers {

  import opened Wrappers
  import opened Internals
  import opened Ast
  import opened Builtins
  import opened Streams
  import Lexer
  import Grammar
  import opened Tokenisers

  /** The method's result and final state are those the specification
      gives; after an exception only the exception is fixed. */
  predicate Yields(r: Result<Node, Failure>, spec: Result<Grammar.Parsed, Failure>, after: Grammar.PState)
  {
    match spec
    case Ok(p) => r == Ok(p.node) && after == p.ps
    case Err(e) => r == Err(e)
  }

  class Parser {
    const tok: Tokeniser
    var points: seq<StreamPoint>

    function View(): Grammar.PState
      reads this, tok, tok.f
    {
      Grammar.PState(tok.View(), points)
    }

    predicate Valid()
      reads this, tok, tok.f
    {
      tok.Valid()
    }

    /** Hello_parser(istream&): a tokeniser on the stream, no streampoints. */
    constructor(f: InputStream)
      requires f.Valid()
      ensures Valid() && tok.f == f && fresh(tok)
      ensures View() == Grammar.PState(Lexer.TState(f.View(), 0, 0, EmptyToken, StreamPoint(0, 0, 0)), [])
    {
      tok := new Tokeniser(f);
      points := [];
    }

    method DeclareStreampoint() returns (p: StreamPoint)
      requires Valid()
      modifies this, tok.f
      ensures Valid() && (p, View()) == Grammar.DeclareStreampoint(old(View()))
    {
      p := tok.Tellg();
      points := points + [p];
    }

    method Value() returns (r: Result<Node, Failure>)
      requires Valid()
      modifies this, tok, tok.f
      ensures Valid() && Yields(r, Grammar.Value(old(View())), View())
    {
      var t := tok.Peek();
      if t.Err? {
        return Err(t.error);
      }
      if t.value.kind == Integer || t.value.kind == Hex {
        // eat(t) of the token just peeked: the types agree.
        var _ := tok.EatToken(t.value);
      }
      return Ok(Const(t.value.value, t.value.kind));
    }

    method NativeCall(table: map<string, FunctionInfo>) returns (r: Result<Node, Failure>)
      requires Valid()
      modifies this, tok, tok.f
      ensures Valid() && Yields(r, Grammar.NativeCall(old(View()), table), View())
      decreases Lexer.Measure(tok.View()), 1, 0
    {
      ghost var m0 := Lexer.Measure(tok.View());
      var name := tok.EatTokenType(Name);
      if name.Err? {
        return Err(name.error);
      }
      var found := Lookup(table, name.value.value);
      if found.None? {
        return Err(Abort("eat_native_function: not in the table"));
      }
      var info := found.value;
      var e := tok.Eat("(");
      if e.Err? {
        return Err(e.error);
      }
      var args := Args(SizeT(info.arity));
      if args.Err? {
        return args;
      }
      var e2 := tok.Eat(")");
      if e2.Err? {
        return Err(e2.error);
      }
      return Ok(NativeFunction(name.value.value, info.opcode, args.value));
    }

    /** The argument loop of eat_native_function: n arguments separated
        by commas, or, when n is SIZE_MAX, as many as come before ")". */
    method Args(n: nat) returns (r: Result<Node, Failure>)
      requires Valid()
      modifies this, tok, tok.f
      ensures Valid() && Yields(r, Grammar.Args(old(View()), n, 0, EmptySequence), View())
      decreases Lexer.Measure(tok.View()), 5, n
    {
      ghost var m0 := Lexer.Measure(tok.View());
      ghost var v := View();
      var args := EmptySequence;
      var i := 0;
      while i < n
        invariant Valid() && i <= n && args.Sequence?
        invariant Lexer.Measure(tok.View()) <= m0
        invariant Grammar.Args(View(), n, i, args) == Grammar.Args(v, n, 0, EmptySequence)
        decreases n - i
      {
        var t := tok.Peek();
        if t.Err? {
          return Err(t.error);
        }
        if t.value.Is(")") && n == SIZE_MAX {
          break;
        }
        if i != 0 {
          var c := tok.Eat(",");
          if c.Err? {
            return Err(c.error);
          }
        }
        var x := Expression();
        if x.Err? {
          return x;
        }
        args := Append(args, x.value);
        i := i + 1;
      }
      return Ok(args);
    }

    method Factor() returns (r: Result<Node, Failure>)
      requires Valid()
      modifies this, tok, tok.f
      ensures Valid() && Yields(r, Grammar.Factor(old(View())), View())
      decreases Lexer.Measure(tok.View()), 2, 0
    {
      var t := tok.Peek();
      if t.Err? {
        return Err(t.error);
      }
      if t.value.Is("(") {
        // eat("(") of the _std token just peeked.
        var _ := tok.Eat("(");
        var x := Expression();
        if x.Err? {
          return x;
        }
        var e := tok.Eat(")");
        if e.Err? {
          return Err(e.error);
        }
        return x;
      } else if t.value.Is("-") {
        var _ := tok.Eat("-");
        var x := Factor();
        if x.Err? {
          return x;
        }
        return Ok(Unary);
      } else if t.value.value in NativeFunctions {
        r := NativeCall(NativeFunctions);
      } else if t.value.kind == Name || t.value.kind == Extern {
        var name := tok.EatTokenType(Name);
        if name.Err? {
          return Err(name.error);
        }
        return Ok(RValue(name.value.value, t.value.kind == Extern));
      } else {
        r := Value();
      }
    }

    method Term() returns (r: Result<Node, Failure>)
      requires Valid()
      modifies this, tok, tok.f
      ensures Valid() && Yields(r, Grammar.Term(old(View())), View())
      decreases Lexer.Measure(tok.View()), 3, 0
    {
      ghost var m0 := Lexer.Measure(tok.View());
      ghost var spec := Grammar.Term(View());
      var a := Factor();
      if a.Err? {
        return a;
      }
      var p := a.value;
      while true
        invariant Valid() && Lexer.Measure(tok.View()) <= m0
        invariant Grammar.Arithmetic(p) && Grammar.TermRest(View(), p) == spec
        decreases Lexer.Measure(tok.View())
      {
        var t := tok.Peek();
        if t.Err? {
          return Err(t.error);
        }
        var op := t.value.value;
        if op !in Grammar.MulOps {
          return Ok(p);
        }
        var e := tok.Eat(op);
        if e.Err? {
          return Err(e.error);
        }
        var f := Factor();
        if f.Err? {
          return f;
        }
        p := Binary(op, p, f.value);
      }
    }

    method Expression() returns (r: Result<Node, Failure>)
      requires Valid()
      modifies this, tok, tok.f
      ensures Valid() && Yields(r, Grammar.Expression(old(View())), View())
      decreases Lexer.Measure(tok.View()), 4, 0
    {
      ghost var m0 := Lexer.Measure(tok.View());
      ghost var spec := Grammar.Expression(View());
      var a := Term();
      if a.Err? {
        return a;
      }
      var p := a.value;
      while true
        invariant Valid() && Lexer.Measure(tok.View()) <= m0
        invariant Grammar.Arithmetic(p) && Grammar.ExpressionRest(View(), p) == spec
        decreases Lexer.Measure(tok.View())
      {
        var t := tok.Peek();
        if t.Err? {
          return Err(t.error);
        }
        var op := t.value.value;
        if op !in Grammar.AddOps {
          return Ok(p);
        }
        var e := tok.Eat(op);
        if e.Err? {
          return Err(e.error);
        }
        var b := Term();
        if b.Err? {
          return b;
        }
        p := Binary(op, p, b.value);
      }
    }

    method Comparison() returns (r: Result<Node, Failure>)
      requires Valid()
      modifies this, tok, tok.f
      ensures Valid() && Yields(r, Grammar.Comparison(old(View())), View())
    {
      var v := Expression();
      if v.Err? {
        return v;
      }
      var t := tok.Peek();
      if t.Err? {
        return Err(t.error);
      }
      var op := t.value.value;
      if op !in Grammar.Comparisons {
        var p := tok.Tellg();
        return Err(ParseError(UnexpectedText(op), p));
      }
      var e := tok.Eat(op);
      if e.Err? {
        return Err(e.error);
      }
      var w := Expression();
      if w.Err? {
        return w;
      }
      return Ok(Binary(op, v.value, w.value));
    }

    method LogicalExpression() returns (r: Result<Node, Failure>)
      requires Valid()
      modifies this, tok, tok.f
      ensures Valid() && Yields(r, Grammar.LogicalExpression(old(View())), View())
      decreases Lexer.Measure(tok.View()), 1
    {
      var a := LogicalValue();
      if a.Err? {
        return a;
      }
      var t := tok.Peek();
      if t.Err? {
        return Err(t.error);
      }
      var op := t.value.value;
      if op in Grammar.Connectives {
        var e := tok.Eat(op);
        if e.Err? {
          return Err(e.error);
        }
        var b := LogicalValue();
        if b.Err? {
          return b;
        }
        return Ok(Binary(op, a.value, b.value));
      }
      return a;
    }

    method LogicalValue() returns (r: Result<Node, Failure>)
      requires Valid()
      modifies this, tok, tok.f
      ensures Valid() && Yields(r, Grammar.LogicalValue(old(View())), View())
      decreases Lexer.Measure(tok.View()), 0
    {
      var t := tok.Peek();
      if t.Err? {
        return Err(t.error);
      }
      if t.value.Is("(") {
        var _ := tok.Eat("(");
        var v := LogicalExpression();
        if v.Err? {
          return v;
        }
        var e := tok.Eat(")");
        if e.Err? {
          return Err(e.error);
        }
        return v;
      } else if t.value.Is("!") {
        var _ := tok.Eat("!");
        var v := LogicalValue();
        if v.Err? {
          return v;
        }
        return Ok(Unary);
      }
      r := Comparison();
    }

    method Block() returns (r: Result<Node, Failure>)
      requires Valid()
      modifies this, tok, tok.f
      ensures Valid() && Yields(r, Grammar.Block(old(View())), View())
      decreases Lexer.Measure(tok.View()), 0
    {
      ghost var m0 := Lexer.Measure(tok.View());
      var e := tok.Eat("{");
      if e.Err? {
        return Err(e.error);
      }
      ghost var v := View();
      var stmts := EmptySequence;
      while true
        invariant Valid() && stmts.Sequence? && Lexer.Measure(tok.View()) < m0
        invariant Grammar.BlockRest(View(), stmts) == Grammar.BlockRest(v, EmptySequence)
        decreases Lexer.Measure(tok.View())
      {
        var t := tok.Peek();
        if t.Err? {
          return Err(t.error);
        }
        if t.value.Is("}") {
          break;
        }
        var s := Statement();
        if s.Err? {
          return s;
        }
        stmts := Append(stmts, s.value);
      }
      // eat("}") of the _std token just peeked.
      var _ := tok.Eat("}");
      if stmts.a == Null {
        return Ok(Null);
      }
      if stmts.b == Null {
        return Ok(stmts.a);
      }
      return Ok(stmts);
    }

    method Conditional() returns (r: Result<Node, Failure>)
      requires Valid()
      modifies this, tok, tok.f
      ensures Valid() && Yields(r, Grammar.Conditional(old(View())), View())
      decreases Lexer.Measure(tok.View()), 0
    {
      var p1 := DeclareStreampoint();
      var e := tok.Eat("if");
      if e.Err? {
        return Err(e.error);
      }
      e := tok.Eat("(");
      if e.Err? {
        return Err(e.error);
      }
      var cond := LogicalExpression();
      if cond.Err? {
        return cond;
      }
      e := tok.Eat(")");
      if e.Err? {
        return Err(e.error);
      }
      var p2 := DeclareStreampoint();
      var a := Block();
      if a.Err? {
        return a;
      }
      r := ElsePart(cond.value, a.value, p1, p2);
    }

    /** The rest of eat_conditional, after the then-block. */
    method ElsePart(cond: Node, a: Node, p1: StreamPoint, p2: StreamPoint) returns (r: Result<Node, Failure>)
      requires Valid()
      modifies this, tok, tok.f
      ensures Valid() && Yields(r, Grammar.ElsePart(old(View()), cond, a, p1, p2), View())
      decreases Lexer.Measure(tok.View()), 1
    {
      ghost var v0 := View();
      var w := tok.Ws();
      if w.Err? {
        return Err(w.error);
      }
      ghost var v1 := View();
      assert Grammar.SkipWs(v0) == Ok(v1);
      var atEnd := tok.Eof();
      assert (atEnd, tok.View()) == Lexer.Eof(v1.t);
      if atEnd {
        return Ok(IfThenElse(cond, a, Null, p1, p2));
      }
      ghost var v2 := View();
      var t := tok.Peek();
      if t.Err? {
        return Err(t.error);
      }
      assert Grammar.Lookahead(v2) == Ok(Grammar.Scanned(t.value, View()));
      assert Grammar.ElsePart(v0, cond, a, p1, p2) ==
        if t.value.value == "else" then Grammar.ElseBlock(View(), cond, a, p1, p2)
        else Ok(Grammar.Parsed(IfThenElse(cond, a, Null, p1, p2), View()));
      if t.value.value != "else" {
        return Ok(IfThenElse(cond, a, Null, p1, p2));
      }
      r := ElseBlock(cond, a, p1, p2);
    }

    /** The else block, once the next token reads "else". */
    method ElseBlock(cond: Node, a: Node, p1: StreamPoint, p2: StreamPoint) returns (r: Result<Node, Failure>)
      requires Valid()
      modifies this, tok, tok.f
      ensures Valid() && Yields(r, Grammar.ElseBlock(old(View()), cond, a, p1, p2), View())
      decreases Lexer.Measure(tok.View()), 0
    {
      var e := tok.Eat("else");
      if e.Err? {
        return Err(e.error);
      }
      var b := Block();
      if b.Err? {
        return b;
      }
      return Ok(IfThenElse(cond, a, b.value, p1, p2));
    }

    method Loop() returns (r: Result<Node, Failure>)
      requires Valid()
      modifies this, tok, tok.f
      ensures Valid() && Yields(r, Grammar.Loop(old(View())), View())
      decreases Lexer.Measure(tok.View()), 0
    {
      var p1 := DeclareStreampoint();
      var e := tok.Eat("for");
      if e.Err? {
        return Err(e.error);
      }
      var name := tok.EatTokenType(Name);
      if name.Err? {
        return Err(name.error);
      }
      e := tok.Eat("in");
      if e.Err? {
        return Err(e.error);
      }
      r := LoopRange(name.value.value, p1);
    }

    method LoopRange(name: string, p1: StreamPoint) returns (r: Result<Node, Failure>)
      requires Valid()
      modifies this, tok, tok.f
      ensures Valid() && Yields(r, Grammar.LoopRange(old(View()), name, p1), View())
      decreases Lexer.Measure(tok.View()), 0
    {
      var e := tok.Eat("[");
      if e.Err? {
        return Err(e.error);
      }
      var a := tok.EatTokenType(Integer);
      if a.Err? {
        return Err(a.error);
      }
      e := tok.Eat("..");
      if e.Err? {
        return Err(e.error);
      }
      var b := tok.EatTokenType(Integer);
      if b.Err? {
        return Err(b.error);
      }
      r := LoopBody(name, Script.Atoi(a.value.value), Script.Atoi(b.value.value), p1);
    }

    method LoopBody(name: string, first: int, last: int, p1: StreamPoint) returns (r: Result<Node, Failure>)
      requires Valid()
      modifies this, tok, tok.f
      ensures Valid() && Yields(r, Grammar.LoopBody(old(View()), name, first, last, p1), View())
      decreases Lexer.Measure(tok.View()), 0
    {
      var e := tok.Eat("]");
      if e.Err? {
        return Err(e.error);
      }
      var p2 := DeclareStreampoint();
      if !Script.IsInt(first) || !Script.IsInt(last) {
        return Err(Abort(Script.AtoiOutOfRange));
      }
      var block := Block();
      if block.Err? {
        return block;
      }
      return Ok(ForLoop(name, first, last, block.value, p1, p2));
    }

    method Assignment() returns (r: Result<Node, Failure>)
      requires Valid()
      modifies this, tok, tok.f
      ensures Valid() && Yields(r, Grammar.Assignment(old(View())), View())
    {
      var p1 := DeclareStreampoint();
      var name := tok.EatTokenType(Name);
      if name.Err? {
        return Err(name.error);
      }
      var e := tok.Eat("=");
      if e.Err? {
        return Err(e.error);
      }
      var v := Expression();
      if v.Err? {
        return v;
      }
      e := tok.Eat(";");
      if e.Err? {
        return Err(e.error);
      }
      var p2 := DeclareStreampoint();
      return Ok(Assign(name.value.value, v.value, p1, p2));
    }

    method Assert() returns (r: Result<Node, Failure>)
      requires Valid()
      modifies this, tok, tok.f
      ensures Valid() && Yields(r, Grammar.Assert(old(View())), View())
    {
      var p1 := DeclareStreampoint();
      var e := tok.Eat("Assert");
      if e.Err? {
        return Err(e.error);
      }
      e := tok.Eat("(");
      if e.Err? {
        return Err(e.error);
      }
      var cond := LogicalExpression();
      if cond.Err? {
        return cond;
      }
      e := tok.Eat(")");
      if e.Err? {
        return Err(e.error);
      }
      e := tok.Eat(";");
      if e.Err? {
        return Err(e.error);
      }
      var p2 := DeclareStreampoint();
      return Ok(Assertion(cond.value, p1, p2));
    }

    /** eat_statement.  The source peeks once per test; every peek after
        the first returns the buffered token unchanged (Lexer.PeekThenGet),
        so one peek stands for them all. */
    method Statement() returns (r: Result<Node, Failure>)
      requires Valid()
      modifies this, tok, tok.f
      ensures Valid() && Yields(r, Grammar.Statement(old(View())), View())
      decreases Lexer.Measure(tok.View()), 1
    {
      var t := tok.Peek();
      if t.Err? {
        return Err(t.error);
      }
      var v: Result<Node, Failure>;
      if t.value.Is("Assert") {
        v := Assert();
      } else if t.value.value in NativeFunctions {
        var call := NativeCall(SpecialFunctions);
        v := if call.Err? then call else Ok(Null);
      } else if t.value.Is("if") {
        v := Conditional();
      } else if t.value.Is("for") {
        v := Loop();
      } else {
        v := Assignment();
      }
      if v.Err? {
        return v;
      }
      var w := tok.Ws();
      if w.Err? {
        return Err(w.error);
      }
      return v;
    }
  }
}
