// The recursive-descent parser (class Hello_parser, HelloDll/parser.h) as
// functions over the parser's state: the tokeniser's state and the list of
// stream points declare_streampoint records.  Each function returns the
// node it builds with the new state, or the exception the C++ code throws
// (parse_error from the tokeniser or eat_comparison) or the assert that
// fails.  The Parser class in module Parsers is proved to do what these
// functions say.

module Grammar {

  import opened Wrappers
  import opened Script
  import opened Internals
  import opened Ast
  import opened Builtins
  import opened Lexer

  /** The parser's state: its tokeniser and its streampoints. */
  datatype PState = PState(t: TState, points: seq<StreamPoint>)

  /** A node built, and the state after it. */
  datatype Parsed = Parsed(node: Node, ps: PState)

  /** A token read, and the state after it. */
  datatype Scanned = Scanned(tok: Token, ps: PState)

  /** ps1 is ps0 or a later state: the input read no less far. */
  predicate Later(ps0: PState, ps1: PState)
  {
    Progress(ps0.t, ps1.t)
  }

  /** ps1 is strictly later than ps0: some input was consumed. */
  predicate Beyond(ps0: PState, ps1: PState)
  {
    Later(ps0, ps1) && Measure(ps1.t) < Measure(ps0.t)
  }

  // ---------------------------------------------------------------------
  // The tokeniser's operations, on the parser's state.

  /** peek() */
  function Lookahead(ps: PState): (r: Result<Scanned, Failure>)
    requires ps.t.Valid()
    ensures r.Ok? ==> && Later(ps, r.value.ps) && r.value.ps.points == ps.points
                      && r.value.ps.t.stored == r.value.tok && r.value.tok.IsValid()
    ensures ps.t.stored.IsValid() ==> r == Ok(Scanned(ps.t.stored, ps))
  {
    var (tok, t) :- Peek(ps.t);
    Ok(Scanned(tok, ps.(t := t)))
  }

  /** eat(string): a _std token, whatever its text. */
  function Expect(ps: PState, text: string): (r: Result<PState, Failure>)
    requires ps.t.Valid()
    ensures r.Ok? ==> Beyond(ps, r.value) && r.value.points == ps.points
    ensures ps.t.stored.IsValid() ==> (r.Ok? <==> ps.t.stored.kind == Std)
  {
    var t :- Eat(ps.t, text);
    Ok(ps.(t := t))
  }

  /** eat(token): a token of the same type as the given one. */
  function ExpectToken(ps: PState, tok: Token): (r: Result<PState, Failure>)
    requires ps.t.Valid()
    ensures r.Ok? ==> Beyond(ps, r.value) && r.value.points == ps.points
    ensures ps.t.stored.IsValid() ==> (r.Ok? <==> ps.t.stored.SameKind(tok))
  {
    var t :- EatToken(ps.t, tok);
    Ok(ps.(t := t))
  }

  /** eat_token_type (eat_name, eat_integer). */
  function ExpectKind(ps: PState, kind: TokenKind): (r: Result<Scanned, Failure>)
    requires ps.t.Valid()
    ensures r.Ok? ==> Beyond(ps, r.value.ps) && r.value.ps.points == ps.points && r.value.tok.kind == kind
    ensures ps.t.stored.IsValid() ==> (r.Ok? <==> ps.t.stored.kind == kind)
    ensures ps.t.stored.IsValid() && r.Ok? ==> r.value.tok == ps.t.stored
    ensures ps.t.stored.IsValid() && r.Err? && ps.t.stored.kind != Name ==>
      r.error.ParseError? && r.error.what == UnexpectedToken(ps.t.stored)
    ensures ps.t.stored.IsValid() && r.Err? && ps.t.stored.kind == Name ==> r.error == Abort(TypeNameOverrun)
  {
    var (tok, t) :- EatTokenType(ps.t, kind);
    Ok(Scanned(tok, ps.(t := t)))
  }

  /** ws() */
  function SkipWs(ps: PState): (r: Result<PState, Failure>)
    requires ps.t.Valid()
    ensures r.Ok? ==> Later(ps, r.value) && r.value.points == ps.points
  {
    var t :- Ws(ps.t);
    Ok(ps.(t := t))
  }

  /** declare_streampoint: tellg, recorded and returned. */
  function DeclareStreampoint(ps: PState): (r: (StreamPoint, PState))
    requires ps.t.Valid()
    ensures Later(ps, r.1) && r.1.points == ps.points + [r.0] && r.1.t.stored == ps.t.stored
    ensures ps.t.stored.IsValid() ==> r.0 == ps.t.storedPos
  {
    var (p, t) := TellPoint(ps.t);
    (p, PState(t, ps.points + [p]))
  }

  // ---------------------------------------------------------------------
  // What the parser builds.

  const AddOps: set<string> := {"+", "-"}
  const MulOps: set<string> := {"*", "/", "%", "||"}
  const Comparisons: set<string> := {"<", "<=", "==", "!=", ">=", ">"}
  const Connectives: set<string> := {"or", "and"}

  /** The nodes a numeric expression is made of.  A variable read is never
      marked extern: eat_factor reads `$name` with eat_name, which refuses
      the _extern token. */
  predicate Arithmetic(n: Node)
  {
    match n
    case Const(_, _) => true
    case RValue(_, isExtern) => !isExtern
    case Unary => true
    case NativeFunction(_, _, _) => true
    case Binary(op, a, b) => (op in AddOps || op in MulOps) && Arithmetic(a) && Arithmetic(b)
    case _ => false
  }

  /** The nodes a condition (if, Assert) is made of. */
  predicate Condition(n: Node)
  {
    match n
    case Unary => true
    case Binary(op, a, b) =>
      || (op in Comparisons && Arithmetic(a) && Arithmetic(b))
      || (op in Connectives && Condition(a) && Condition(b))
    case _ => false
  }

  /** The nodes eat_statement returns. */
  predicate IsStatement(n: Node)
  {
    n.Assertion? || n.IfThenElse? || n.ForLoop? || n.Assign?
  }

  // ---------------------------------------------------------------------
  // Numeric expressions.

  /** eat_value: a number token is eaten; any other token is left where
      it is and still becomes a constant, of that token's type. */
  function Value(ps: PState): (r: Result<Parsed, Failure>)
    requires ps.t.Valid()
    ensures r.Ok? ==> Later(ps, r.value.ps) && r.value.node.Const?
    ensures r.Ok? ==> r.value.ps.points == ps.points
  {
    var la :- Lookahead(ps);
    if la.tok.kind == Integer || la.tok.kind == Hex then
      var ps1 := ExpectToken(la.ps, la.tok).value;
      Ok(Parsed(Const(la.tok.value, la.tok.kind), ps1))
    else Ok(Parsed(Const(la.tok.value, la.tok.kind), la.ps))
  }

  /** eat_native_function: the name, which must be in the table (an
      assert), then the arguments in parentheses. */
  function NativeCall(ps: PState, table: map<string, FunctionInfo>): (r: Result<Parsed, Failure>)
    requires ps.t.Valid()
    ensures r.Ok? ==> Beyond(ps, r.value.ps) && r.value.node.NativeFunction?
    ensures r.Ok? ==> r.value.ps.points == ps.points
    ensures r.Ok? ==> r.value.node.name in table && r.value.node.opcode == table[r.value.node.name].opcode
    decreases Measure(ps.t), 1, 0
  {
    var name :- ExpectKind(ps, Name);
    match Lookup(table, name.tok.value)
    case None => Err(Abort("eat_native_function: not in the table"))
    case Some(info) =>
      var ps1 :- Expect(name.ps, "(");
      var args :- Args(ps1, SizeT(info.arity), 0, EmptySequence);
      var ps2 :- Expect(args.ps, ")");
      Ok(Parsed(NativeFunction(name.tok.value, info.opcode, args.node), ps2))
  }

  /** The argument loop of eat_native_function, from argument i of n
      (n is the arity as a size_t: -1 becomes SIZE_MAX).  The next token
      is peeked every time; only when n is SIZE_MAX does a ")" end the
      loop early. */
  function Args(ps: PState, n: nat, i: nat, args: Node): (r: Result<Parsed, Failure>)
    requires ps.t.Valid() && i <= n && args.Sequence?
    ensures r.Ok? ==> Later(ps, r.value.ps) && r.value.node.Sequence?
    ensures r.Ok? ==> r.value.ps.points == ps.points
    decreases Measure(ps.t), 5, n - i
  {
    if i == n then Ok(Parsed(args, ps))
    else
      var la :- Lookahead(ps);
      if la.tok.Is(")") && n == SIZE_MAX then Ok(Parsed(args, la.ps))
      else
        var ps1 :- if i != 0 then Expect(la.ps, ",") else Ok(la.ps);
        var x :- Expression(ps1);
        Args(x.ps, n, i + 1, Append(args, x.node))
  }

  /** eat_factor: a parenthesised expression, a negation (whose operand is
      parsed and then dropped, as unary_op keeps nothing), a call of a
      native function, a variable, or a value. */
  function Factor(ps: PState): (r: Result<Parsed, Failure>)
    requires ps.t.Valid()
    ensures r.Ok? ==> Later(ps, r.value.ps) && Arithmetic(r.value.node)
    ensures r.Ok? ==> r.value.ps.points == ps.points
    decreases Measure(ps.t), 2, 0
  {
    var la :- Lookahead(ps);
    if la.tok.Is("(") then
      var ps1 := Expect(la.ps, "(").value;
      var x :- Expression(ps1);
      var ps2 :- Expect(x.ps, ")");
      Ok(Parsed(x.node, ps2))
    else if la.tok.Is("-") then
      var ps1 := Expect(la.ps, "-").value;
      var x :- Factor(ps1);
      Ok(Parsed(Unary, x.ps))
    else if la.tok.value in NativeFunctions then NativeCall(la.ps, NativeFunctions)
    else if la.tok.kind == Name || la.tok.kind == Extern then
      var name :- ExpectKind(la.ps, Name);
      Ok(Parsed(RValue(name.tok.value, la.tok.kind == Extern), name.ps))
    else Value(la.ps)
  }

  /** eat_term: factors joined by * / % ||, grouped to the left. */
  function Term(ps: PState): (r: Result<Parsed, Failure>)
    requires ps.t.Valid()
    ensures r.Ok? ==> Later(ps, r.value.ps) && Arithmetic(r.value.node)
    ensures r.Ok? ==> r.value.ps.points == ps.points
    decreases Measure(ps.t), 3, 0
  {
    var a :- Factor(ps);
    TermRest(a.ps, a.node)
  }

  /** The loop of eat_term, with the term so far. */
  function TermRest(ps: PState, acc: Node): (r: Result<Parsed, Failure>)
    requires ps.t.Valid() && Arithmetic(acc)
    ensures r.Ok? ==> Later(ps, r.value.ps) && Arithmetic(r.value.node)
    ensures r.Ok? ==> r.value.ps.points == ps.points
    decreases Measure(ps.t), 2, 0
  {
    var la :- Lookahead(ps);
    if la.tok.value in MulOps then
      var ps1 :- Expect(la.ps, la.tok.value);
      var f :- Factor(ps1);
      TermRest(f.ps, Binary(la.tok.value, acc, f.node))
    else Ok(Parsed(acc, la.ps))
  }

  /** eat_expression: terms joined by + and -, grouped to the left. */
  function Expression(ps: PState): (r: Result<Parsed, Failure>)
    requires ps.t.Valid()
    ensures r.Ok? ==> Later(ps, r.value.ps) && Arithmetic(r.value.node)
    ensures r.Ok? ==> r.value.ps.points == ps.points
    decreases Measure(ps.t), 4, 0
  {
    var a :- Term(ps);
    ExpressionRest(a.ps, a.node)
  }

  /** The loop of eat_expression, with the expression so far. */
  function ExpressionRest(ps: PState, acc: Node): (r: Result<Parsed, Failure>)
    requires ps.t.Valid() && Arithmetic(acc)
    ensures r.Ok? ==> Later(ps, r.value.ps) && Arithmetic(r.value.node)
    ensures r.Ok? ==> r.value.ps.points == ps.points
    decreases Measure(ps.t), 3, 0
  {
    var la :- Lookahead(ps);
    if la.tok.value in AddOps then
      var ps1 :- Expect(la.ps, la.tok.value);
      var b :- Term(ps1);
      ExpressionRest(b.ps, Binary(la.tok.value, acc, b.node))
    else Ok(Parsed(acc, la.ps))
  }

  // ---------------------------------------------------------------------
  // Logical expressions.

  /** eat_comparison: two expressions around a comparison operator; any
      other token there is a parse_error naming it. */
  function Comparison(ps: PState): (r: Result<Parsed, Failure>)
    requires ps.t.Valid()
    ensures r.Ok? ==> Later(ps, r.value.ps)
    ensures r.Ok? ==> r.value.ps.points == ps.points
    ensures r.Ok? ==> r.value.node.Binary? && r.value.node.op in Comparisons
                      && Arithmetic(r.value.node.a) && Arithmetic(r.value.node.b)
  {
    var v :- Expression(ps);
    var la :- Lookahead(v.ps);
    if la.tok.value !in Comparisons then Err(ParseError(UnexpectedText(la.tok.value), TellPoint(la.ps.t).0))
    else
      var ps1 :- Expect(la.ps, la.tok.value);
      var w :- Expression(ps1);
      Ok(Parsed(Binary(la.tok.value, v.node, w.node), w.ps))
  }

  /** eat_logical_expression: one logical value, or two joined by the
      first `or` or `and` (the loop returns on its first turn). */
  function LogicalExpression(ps: PState): (r: Result<Parsed, Failure>)
    requires ps.t.Valid()
    ensures r.Ok? ==> Later(ps, r.value.ps) && Condition(r.value.node)
    ensures r.Ok? ==> r.value.ps.points == ps.points
    decreases Measure(ps.t), 1
  {
    var a :- LogicalValue(ps);
    var la :- Lookahead(a.ps);
    if la.tok.value in Connectives then
      var ps1 :- Expect(la.ps, la.tok.value);
      var b :- LogicalValue(ps1);
      Ok(Parsed(Binary(la.tok.value, a.node, b.node), b.ps))
    else Ok(Parsed(a.node, la.ps))
  }

  /** eat_logical_value: a parenthesised logical expression, a negation
      (its operand dropped, as unary_op keeps nothing), or a comparison. */
  function LogicalValue(ps: PState): (r: Result<Parsed, Failure>)
    requires ps.t.Valid()
    ensures r.Ok? ==> Later(ps, r.value.ps) && Condition(r.value.node)
    ensures r.Ok? ==> r.value.ps.points == ps.points
    decreases Measure(ps.t), 0
  {
    var la :- Lookahead(ps);
    if la.tok.Is("(") then
      var ps1 := Expect(la.ps, "(").value;
      var v :- LogicalExpression(ps1);
      var ps2 :- Expect(v.ps, ")");
      Ok(Parsed(v.node, ps2))
    else if la.tok.Is("!") then
      var ps1 := Expect(la.ps, "!").value;
      var v :- LogicalValue(ps1);
      Ok(Parsed(Unary, v.ps))
    else Comparison(la.ps)
  }

  // ---------------------------------------------------------------------
  // Statements.

  /** eat_block: statements between braces; none gives a null node, one
      gives that statement, more give the sequence. */
  function Block(ps: PState): (r: Result<Parsed, Failure>)
    requires ps.t.Valid()
    ensures r.Ok? ==> Beyond(ps, r.value.ps)
    decreases Measure(ps.t), 0
    ensures r.Ok? ==> |ps.points| <= |r.value.ps.points|
  {
    var ps1 :- Expect(ps, "{");
    var s :- BlockRest(ps1, EmptySequence);
    var ps2 :- Expect(s.ps, "}");
    if s.node.a == Null then Ok(Parsed(Null, ps2))
    else if s.node.b == Null then Ok(Parsed(s.node.a, ps2))
    else Ok(Parsed(s.node, ps2))
  }

  /** The loop of eat_block: statements until the next token is "}". */
  function BlockRest(ps: PState, stmts: Node): (r: Result<Parsed, Failure>)
    requires ps.t.Valid() && stmts.Sequence?
    ensures r.Ok? ==> Later(ps, r.value.ps) && r.value.node.Sequence?
    decreases Measure(ps.t), 3
    ensures r.Ok? ==> |ps.points| <= |r.value.ps.points|
  {
    var la :- Lookahead(ps);
    if la.tok.Is("}") then Ok(Parsed(stmts, la.ps))
    else
      var s :- Statement(la.ps);
      BlockRest(s.ps, Append(stmts, s.node))
  }

  /** eat_conditional: if ( condition ) block, then, after white space and
      unless the input has ended, an optional else block. */
  function Conditional(ps: PState): (r: Result<Parsed, Failure>)
    requires ps.t.Valid()
    ensures r.Ok? ==> Beyond(ps, r.value.ps) && r.value.node.IfThenElse? && Condition(r.value.node.cond)
    decreases Measure(ps.t), 0
    ensures r.Ok? ==> |ps.points| + 2 <= |r.value.ps.points|
  {
    var (p1, ps1) := DeclareStreampoint(ps);
    var ps2 :- Expect(ps1, "if");
    var ps3 :- Expect(ps2, "(");
    var cond :- LogicalExpression(ps3);
    var ps4 :- Expect(cond.ps, ")");
    var (p2, ps5) := DeclareStreampoint(ps4);
    var a :- Block(ps5);
    ElsePart(a.ps, cond.node, a.node, p1, p2)
  }

  /** The end of eat_conditional, after the then-block: white space, and
      unless the input has ended, an else block if the next token's text
      is "else". */
  function ElsePart(ps: PState, cond: Node, a: Node, p1: StreamPoint, p2: StreamPoint): (r: Result<Parsed, Failure>)
    requires ps.t.Valid()
    ensures r.Ok? ==> Later(ps, r.value.ps) && r.value.node.IfThenElse?
    ensures r.Ok? ==> r.value.node == IfThenElse(cond, a, r.value.node.b, p1, p2)
    decreases Measure(ps.t), 1
    ensures r.Ok? ==> |ps.points| <= |r.value.ps.points|
  {
    var ps1 :- SkipWs(ps);
    var (atEnd, t2) := Eof(ps1.t);
    var ps2 := ps1.(t := t2);
    if atEnd then Ok(Parsed(IfThenElse(cond, a, Null, p1, p2), ps2))
    else
      var la :- Lookahead(ps2);
      if la.tok.value == "else" then ElseBlock(la.ps, cond, a, p1, p2)
      else Ok(Parsed(IfThenElse(cond, a, Null, p1, p2), la.ps))
  }

  /** The else block of eat_conditional, once the next token's text is
      "else". */
  function ElseBlock(ps: PState, cond: Node, a: Node, p1: StreamPoint, p2: StreamPoint): (r: Result<Parsed, Failure>)
    requires ps.t.Valid()
    ensures r.Ok? ==> Later(ps, r.value.ps) && r.value.node.IfThenElse?
    ensures r.Ok? ==> r.value.node == IfThenElse(cond, a, r.value.node.b, p1, p2)
    decreases Measure(ps.t), 0
    ensures r.Ok? ==> |ps.points| <= |r.value.ps.points|
  {
    var ps1 :- Expect(ps, "else");
    var b :- Block(ps1);
    Ok(Parsed(IfThenElse(cond, a, b.node, p1, p2), b.ps))
  }

  /** eat_loop: for name in [ integer .. integer ] block; the bounds are
      the integers' atoi values.  The rule is read in three pieces:
      the head up to "in", the range, and the block. */
  function Loop(ps: PState): (r: Result<Parsed, Failure>)
    requires ps.t.Valid()
    ensures r.Ok? ==> Beyond(ps, r.value.ps) && r.value.node.ForLoop?
    decreases Measure(ps.t), 0
    ensures r.Ok? ==> |ps.points| + 2 <= |r.value.ps.points|
  {
    var (p1, ps1) := DeclareStreampoint(ps);
    var ps2 :- Expect(ps1, "for");
    var name :- ExpectKind(ps2, Name);
    var ps3 :- Expect(name.ps, "in");
    LoopRange(ps3, name.tok.value, p1)
  }

  /** [ integer .. integer of eat_loop. */
  function LoopRange(ps: PState, name: string, p1: StreamPoint): (r: Result<Parsed, Failure>)
    requires ps.t.Valid()
    ensures r.Ok? ==> Beyond(ps, r.value.ps) && r.value.node.ForLoop?
    ensures r.Ok? ==> r.value.node.varName == name && r.value.node.p1 == p1
    decreases Measure(ps.t), 0
    ensures r.Ok? ==> |ps.points| + 1 <= |r.value.ps.points|
  {
    var ps1 :- Expect(ps, "[");
    var a :- ExpectKind(ps1, Integer);
    var ps2 :- Expect(a.ps, "..");
    var b :- ExpectKind(ps2, Integer);
    LoopBody(b.ps, name, Atoi(a.tok.value), Atoi(b.tok.value), p1)
  }

  /** ] block of eat_loop, with the second streampoint before the block.
      The bounds are stored in ints after the streampoint is declared, so a
      bound an int cannot hold is an Abort there. */
  function LoopBody(ps: PState, name: string, first: int, last: int, p1: StreamPoint): (r: Result<Parsed, Failure>)
    requires ps.t.Valid()
    ensures r.Ok? ==> Beyond(ps, r.value.ps) && r.value.node.ForLoop?
    ensures r.Ok? ==> r.value.node == ForLoop(name, first, last, r.value.node.block, p1, r.value.node.p2)
    ensures r.Ok? ==> IsInt(first) && IsInt(last)
    ensures Expect(ps, "]").Ok? && !(IsInt(first) && IsInt(last)) ==> r == Err(Abort(AtoiOutOfRange))
    decreases Measure(ps.t), 0
    ensures r.Ok? ==> |ps.points| + 1 <= |r.value.ps.points|
  {
    var ps1 :- Expect(ps, "]");
    var (p2, ps2) := DeclareStreampoint(ps1);
    if !IsInt(first) || !IsInt(last) then Err(Abort(AtoiOutOfRange)) else
    var block :- Block(ps2);
    Ok(Parsed(ForLoop(name, first, last, block.node, p1, p2), block.ps))
  }

  /** eat_assignment: name = expression ; */
  function Assignment(ps: PState): (r: Result<Parsed, Failure>)
    requires ps.t.Valid()
    ensures r.Ok? ==> Beyond(ps, r.value.ps) && r.value.node.Assign? && Arithmetic(r.value.node.expr)
    ensures r.Ok? ==> r.value.ps.points == ps.points + [r.value.node.p1] + [r.value.node.p2]
  {
    var (p1, ps1) := DeclareStreampoint(ps);
    var name :- ExpectKind(ps1, Name);
    var ps2 :- Expect(name.ps, "=");
    var v :- Expression(ps2);
    var ps3 :- Expect(v.ps, ";");
    var (p2, ps4) := DeclareStreampoint(ps3);
    Ok(Parsed(Assign(name.tok.value, v.node, p1, p2), ps4))
  }

  /** eat_assert: Assert ( condition ) ; */
  function Assert(ps: PState): (r: Result<Parsed, Failure>)
    requires ps.t.Valid()
    ensures r.Ok? ==> Beyond(ps, r.value.ps) && r.value.node.Assertion? && Condition(r.value.node.cond)
    ensures r.Ok? ==> r.value.ps.points == ps.points + [r.value.node.p1] + [r.value.node.p2]
  {
    var (p1, ps1) := DeclareStreampoint(ps);
    var ps2 :- Expect(ps1, "Assert");
    var ps3 :- Expect(ps2, "(");
    var cond :- LogicalExpression(ps3);
    var ps4 :- Expect(cond.ps, ")");
    var ps5 :- Expect(ps4, ";");
    var (p2, ps6) := DeclareStreampoint(ps5);
    Ok(Parsed(Assertion(cond.node, p1, p2), ps6))
  }

  /** eat_statement: chosen by the next token, then white space.  A name
      in the native table is parsed as a call looked up in the special
      table, and its node dropped. */
  function Statement(ps: PState): (r: Result<Parsed, Failure>)
    requires ps.t.Valid()
    ensures r.Ok? ==> Beyond(ps, r.value.ps)
    decreases Measure(ps.t), 2
    ensures r.Ok? ==> |ps.points| <= |r.value.ps.points|
  {
    var la :- Lookahead(ps);
    var v :- Dispatch(la.tok, la.ps);
    var ps1 :- SkipWs(v.ps);
    Ok(Parsed(v.node, ps1))
  }

  /** The choice eat_statement makes on the token it peeked, which is
      still in the slot of ps. */
  function Dispatch(tok: Token, ps: PState): (r: Result<Parsed, Failure>)
    requires ps.t.Valid()
    ensures r.Ok? ==> Beyond(ps, r.value.ps) && |ps.points| <= |r.value.ps.points|
    decreases Measure(ps.t), 1
  {
    if tok.Is("Assert") then Assert(ps)
    else if tok.value in NativeFunctions then
      var call :- NativeCall(ps, SpecialFunctions);
      Ok(Parsed(Null, call.ps))
    else if tok.Is("if") then Conditional(ps)
    else if tok.Is("for") then Loop(ps)
    else Assignment(ps)
  }

  // ---------------------------------------------------------------------
  // What the rules accept.

  /** eat_value eats only a number.  Any other token stays in the slot,
      still to be read by the next rule, and becomes a constant of its
      own type (so `x = ;` assigns a constant ";"). */
  lemma ValueKeepsOtherTokens(ps: PState)
    requires ps.t.Valid() && Lookahead(ps).Ok?
    ensures var la := Lookahead(ps).value;
      && Value(ps).Ok?
      && Value(ps).value.node == Const(la.tok.value, la.tok.kind)
      && (la.tok.kind == Integer || la.tok.kind == Hex ==> !Value(ps).value.ps.t.stored.IsValid())
      && (la.tok.kind != Integer && la.tok.kind != Hex ==> Value(ps).value.ps == la.ps)
  {
  }

  /** eat_factor reads a variable with eat_name, which refuses the _extern
      token: `$name` in an expression is always a parse error naming that
      token, even where the name is a builtin's. */
  lemma ExternFactorFails(ps: PState)
    requires ps.t.Valid() && Lookahead(ps).Ok? && Lookahead(ps).value.tok.kind == Extern
    ensures Factor(ps).Err? && Factor(ps).error.ParseError?
    ensures Factor(ps).error.what == UnexpectedToken(Lookahead(ps).value.tok)
  {
    var la := Lookahead(ps).value;
    if la.tok.value in NativeFunctions {
      assert NativeCall(la.ps, NativeFunctions).Err?;
    }
  }

  /** Every node of xs is a numeric expression. */
  predicate AllArithmetic(xs: seq<Node>)
  {
    forall k :: 0 <= k < |xs| ==> Arithmetic(xs[k])
  }

  lemma AppendArithmetic(args: Node, x: Node)
    requires Built(args) && AllArithmetic(Items(args)) && Arithmetic(x)
    ensures Built(Append(args, x)) && AllArithmetic(Items(Append(args, x)))
    ensures |Items(Append(args, x))| == |Items(args)| + 1
  {
    AppendBuilt(args, x);
  }

  /** One turn of the argument loop with a fixed arity: an expression is
      read and appended. */
  lemma ArgsStep(ps: PState, n: nat, i: nat, args: Node) returns (next: PState, x: Node)
    requires ps.t.Valid() && i < n < SIZE_MAX && args.Sequence?
    requires Args(ps, n, i, args).Ok?
    ensures next.t.Valid() && Arithmetic(x)
    ensures Args(ps, n, i, args) == Args(next, n, i + 1, Append(args, x))
  {
    var la := Lookahead(ps).value;
    var ps1 := if i != 0 then Expect(la.ps, ",").value else la.ps;
    var e := Expression(ps1).value;
    next, x := e.ps, e.node;
  }

  /** The argument loop with a fixed arity n reads exactly n - i more
      arguments, each a numeric expression. */
  lemma {:induction false} ArgsCount(ps: PState, n: nat, i: nat, args: Node)
    requires ps.t.Valid() && i <= n < SIZE_MAX && Built(args) && AllArithmetic(Items(args))
    requires Args(ps, n, i, args).Ok?
    ensures var out := Args(ps, n, i, args).value.node;
      Built(out) && |Items(out)| == |Items(args)| + (n - i) && AllArithmetic(Items(out))
    decreases n - i
  {
    if i < n {
      var next, x := ArgsStep(ps, n, i, args);
      AppendArithmetic(args, x);
      ArgsCount(next, n, i + 1, Append(args, x));
    }
  }

  /** A builtin with arity k >= 0 is called with exactly k numeric
      arguments. */
  lemma NativeCallArity(ps: PState, table: map<string, FunctionInfo>)
    requires ps.t.Valid() && NativeCall(ps, table).Ok?
    requires var name := NativeCall(ps, table).value.node.name; 0 <= table[name].arity < SIZE_MAX
    ensures var call := NativeCall(ps, table).value.node;
      |Items(call.args)| == table[call.name].arity && AllArithmetic(Items(call.args))
  {
    var ps1, name := NativeCallArgs(ps, table);
    ArgsCount(ps1, table[name].arity, 0, EmptySequence);
  }

  /** eat_native_function's node: the name, its opcode, and the arguments
      the loop reads for the name's arity. */
  lemma NativeCallArgs(ps: PState, table: map<string, FunctionInfo>) returns (ps1: PState, name: string)
    requires ps.t.Valid() && NativeCall(ps, table).Ok?
    ensures ps1.t.Valid() && name in table
    ensures Args(ps1, SizeT(table[name].arity), 0, EmptySequence).Ok?
    ensures NativeCall(ps, table).value.node ==
      NativeFunction(name, table[name].opcode, Args(ps1, SizeT(table[name].arity), 0, EmptySequence).value.node)
  {
    var n := ExpectKind(ps, Name).value;
    name := n.tok.value;
    ps1 := Expect(n.ps, "(").value;
  }

  /** With arity -1 (SIZE_MAX once cast), a ")" ends the argument list
      at once, whatever has been read so far. */
  lemma VariadicStopsAtParen(ps: PState, i: nat, args: Node)
    requires ps.t.Valid() && i < SIZE_MAX && args.Sequence?
    requires Lookahead(ps).Ok? && Lookahead(ps).value.tok.Is(")")
    ensures Args(ps, SIZE_MAX, i, args) == Ok(Parsed(args, Lookahead(ps).value.ps))
  {
  }

  /** eat_comparison needs a comparison operator after the first
      expression; any other token there is a parse_error with its text. */
  lemma ComparisonNeedsOperator(ps: PState)
    requires ps.t.Valid() && Expression(ps).Ok?
    requires Lookahead(Expression(ps).value.ps).Ok?
    ensures var tok := Lookahead(Expression(ps).value.ps).value.tok;
      && (tok.value !in Comparisons ==> Comparison(ps).Err? && Comparison(ps).error.ParseError?
                                        && Comparison(ps).error.what == UnexpectedText(tok.value))
      && (Comparison(ps).Ok? ==> Comparison(ps).value.node.op == tok.value)
  {
  }

  /** eat_statement tries the name in the native table, but parses the
      call against the special table, where no native name is: such a
      statement always fails (an assert for a name, a parse_error for any
      other token type). */
  lemma NativeStatementFails(ps: PState)
    requires ps.t.Valid() && Lookahead(ps).Ok?
    requires Lookahead(ps).value.tok.value in NativeFunctions
    ensures Statement(ps).Err?
    ensures Lookahead(ps).value.tok.kind == Name ==> Statement(ps).error == Abort("eat_native_function: not in the table")
    ensures Lookahead(ps).value.tok.kind != Name ==>
      Statement(ps).error.ParseError? && Statement(ps).error.what == UnexpectedToken(Lookahead(ps).value.tok)
  {
    var la := Lookahead(ps).value;
    NativeDispatchFails(la.tok, la.ps);
  }

  lemma NativeDispatchFails(tok: Token, ps: PState)
    requires ps.t.Valid() && ps.t.stored == tok && tok.IsValid() && tok.value in NativeFunctions
    ensures Dispatch(tok, ps).Err?
    ensures tok.kind == Name ==> Dispatch(tok, ps).error == Abort("eat_native_function: not in the table")
    ensures tok.kind != Name ==> Dispatch(tok, ps).error.ParseError? && Dispatch(tok, ps).error.what == UnexpectedToken(tok)
  {
    TablesDisjoint();
    assert "Assert" !in NativeFunctions;
    assert NativeCall(ps, SpecialFunctions).Err?;
  }

  /** A special function's name is not in the native table either, so
      eat_statement reads `Verify ...` as an assignment to a variable of
      that name. */
  lemma SpecialStatementIsAssignment(ps: PState)
    requires ps.t.Valid() && Lookahead(ps).Ok?
    requires Lookahead(ps).value.tok.value in SpecialFunctions
    ensures Statement(ps).Ok? ==> Statement(ps).value.node.Assign?
    ensures Statement(ps).Ok? ==> Statement(ps).value.node.name == Lookahead(ps).value.tok.value
  {
    var la := Lookahead(ps).value;
    if Statement(ps).Ok? {
      assert Dispatch(la.tok, la.ps).Ok? && Statement(ps).value.node == Dispatch(la.tok, la.ps).value.node;
      SpecialDispatch(la.tok, la.ps);
    }
  }

  lemma SpecialDispatch(tok: Token, ps: PState)
    requires ps.t.Valid() && ps.t.stored == tok && tok.IsValid() && tok.value in SpecialFunctions
    ensures Dispatch(tok, ps) == Assignment(ps)
    ensures Assignment(ps).Ok? ==> Assignment(ps).value.node.Assign? && Assignment(ps).value.node.name == tok.value
  {
    TablesDisjoint();
    assert tok.value !in NativeFunctions;
    assert tok.value != "Assert" && tok.value != "if" && tok.value != "for";
    var (p1, ps1) := DeclareStreampoint(ps);
    assert ps1.t.stored == tok;
  }

  /** A statement that parses is an assertion, a conditional, a loop or
      an assignment: the builtin-call branch never succeeds. */
  lemma StatementShape(ps: PState)
    requires ps.t.Valid() && Statement(ps).Ok?
    ensures IsStatement(Statement(ps).value.node)
  {
    var la := Lookahead(ps).value;
    assert Dispatch(la.tok, la.ps).Ok? && Statement(ps).value.node == Dispatch(la.tok, la.ps).value.node;
    DispatchShape(la.tok, la.ps);
  }

  lemma DispatchShape(tok: Token, ps: PState)
    requires ps.t.Valid() && ps.t.stored == tok && tok.IsValid() && Dispatch(tok, ps).Ok?
    ensures IsStatement(Dispatch(tok, ps).value.node)
  {
    if !tok.Is("Assert") && tok.value in NativeFunctions {
      NativeDispatchFails(tok, ps);
    }
  }

  /** Every node of xs is a statement. */
  predicate AllStatements(xs: seq<Node>)
  {
    forall k :: 0 <= k < |xs| ==> IsStatement(xs[k])
  }

  lemma AppendStatement(stmts: Node, x: Node)
    requires Built(stmts) && AllStatements(Items(stmts)) && IsStatement(x)
    ensures Built(Append(stmts, x)) && AllStatements(Items(Append(stmts, x)))
  {
    AppendBuilt(stmts, x);
  }

  /** The loop of eat_block appends statements only. */
  lemma {:induction false} BlockRestBuilt(ps: PState, stmts: Node)
    requires ps.t.Valid() && Built(stmts) && AllStatements(Items(stmts)) && BlockRest(ps, stmts).Ok?
    ensures Built(BlockRest(ps, stmts).value.node) && AllStatements(Items(BlockRest(ps, stmts).value.node))
    decreases Measure(ps.t)
  {
    var la := Lookahead(ps).value;
    if !la.tok.Is("}") {
      var st := Statement(la.ps).value;
      assert BlockRest(ps, stmts) == BlockRest(st.ps, Append(stmts, st.node));
      StatementShape(la.ps);
      AppendStatement(stmts, st.node);
      BlockRestBuilt(st.ps, Append(stmts, st.node));
    }
  }

  /** eat_block gives null for no statement, the statement itself for
      one, and a sequence holding them in order for two or more. */
  lemma BlockShape(ps: PState)
    requires ps.t.Valid() && Block(ps).Ok?
    ensures var n := Block(ps).value.node;
      && (n == Null <==> |Items(n)| == 0)
      && (IsStatement(n) <==> |Items(n)| == 1)
      && (n.Sequence? <==> |Items(n)| >= 2)
      && AllStatements(Items(n))
  {
    var ps1 := Expect(ps, "{").value;
    assert BlockRest(ps1, EmptySequence).Ok?;
    BlockRestBuilt(ps1, EmptySequence);
    var s := BlockRest(ps1, EmptySequence).value.node;
    assert Block(ps).value.node == if s.a == Null then Null else if s.b == Null then s.a else s;
    BuiltShape(s);
  }

  /** What eat_block returns for the sequence its loop built. */
  lemma BuiltShape(s: Node)
    requires Built(s) && AllStatements(Items(s))
    ensures var n := if s.a == Null then Null else if s.b == Null then s.a else s;
      && (n == Null <==> |Items(n)| == 0)
      && (IsStatement(n) <==> |Items(n)| == 1)
      && (n.Sequence? <==> |Items(n)| >= 2)
      && AllStatements(Items(n))
  {
    BuiltCount(s);
  }

  /** eat_expression groups to the left: the expression read so far ends
      up at the bottom of the left spine of + and - nodes, so a-b-c is
      (a-b)-c. */
  predicate LeftSpine(n: Node, acc: Node, ops: set<string>)
  {
    n == acc || (n.Binary? && n.op in ops && LeftSpine(n.a, acc, ops))
  }

  lemma {:induction false} ExpressionRestFoldsLeft(ps: PState, acc: Node)
    requires ps.t.Valid() && Arithmetic(acc) && ExpressionRest(ps, acc).Ok?
    ensures LeftSpine(ExpressionRest(ps, acc).value.node, acc, AddOps)
    decreases Measure(ps.t)
  {
    var la := Lookahead(ps).value;
    if la.tok.value in AddOps {
      var ps1 := Expect(la.ps, la.tok.value).value;
      var b := Term(ps1).value;
      var next := Binary(la.tok.value, acc, b.node);
      ExpressionRestFoldsLeft(b.ps, next);
      LeftSpineTrans(ExpressionRest(b.ps, next).value.node, next, acc, AddOps);
    }
  }

  /** The same for eat_term over * / % ||. */
  lemma {:induction false} TermRestFoldsLeft(ps: PState, acc: Node)
    requires ps.t.Valid() && Arithmetic(acc) && TermRest(ps, acc).Ok?
    ensures LeftSpine(TermRest(ps, acc).value.node, acc, MulOps)
    decreases Measure(ps.t)
  {
    var la := Lookahead(ps).value;
    if la.tok.value in MulOps {
      var ps1 := Expect(la.ps, la.tok.value).value;
      var f := Factor(ps1).value;
      var next := Binary(la.tok.value, acc, f.node);
      TermRestFoldsLeft(f.ps, next);
      LeftSpineTrans(TermRest(f.ps, next).value.node, next, acc, MulOps);
    }
  }

  lemma {:induction false} LeftSpineTrans(n: Node, m: Node, acc: Node, ops: set<string>)
    requires LeftSpine(n, m, ops) && m.Binary? && m.op in ops && m.a == acc
    ensures LeftSpine(n, acc, ops)
  {
    if n != m {
      LeftSpineTrans(n.a, m, acc, ops);
    }
  }
}
