// Hello_compiler::compile_internal (HelloDll/Hello_compiler.cpp) as a
// function: skip leading whitespace, then parse and generate one
// statement at a time until end of input, until a statement's generate
// returns false, or until an exception is caught.  A parse_error becomes
// a "Parsing error" message with a 1-based line, any other runtime_error a
// "Compile error" message; every other exception leaves compile_internal.

module Driver {

  import opened Wrappers
  import opened Internals
  import opened Streams
  import opened Symbols
  import opened Ast
  import Lexer
  import Grammar
  import opened Codegen

  /** One line written to err_msg. */
  datatype Diagnostic =
    | ParsingError(what: Complaint, line: int)   // "Parsing error. <what> at line: <line>"
    | CompileError(what: Complaint)              // "Compile error. <what>"

  /** compile_internal's pair: the ok flag and the lines of err_msg. */
  datatype Report = Report(ok: bool, messages: seq<Diagnostic>)

  /** The two catch clauses: parse_error first, then runtime_error.
      std::out_of_range and a failed assert are not caught. */
  function Caught(f: Failure): (d: Option<Diagnostic>)
    ensures d.Some? <==> f.ParseError? || f.RuntimeError?
    ensures f.ParseError? ==> d == Some(ParsingError(f.what, f.pos.line + 1))
    ensures f.RuntimeError? ==> d == Some(CompileError(f.what))
  {
    match f
    case ParseError(what, pos) => Some(ParsingError(what, pos.line + 1))
    case RuntimeError(what) => Some(CompileError(what))
    case _ => None
  }

  /** A statement threw f: the loop ends with f's message, or f escapes. */
  function Stop(f: Failure, st: CState): Result<(Report, CState), Failure>
  {
    match Caught(f)
    case Some(d) => Ok((Report(false, [d]), st))
    case None => Err(f)
  }

  /** The while loop of compile_internal, from the parser state and the
      compiler state at its test `!parser.eof() && ok` with ok true. */
  function Statements(ps: Grammar.PState, st: CState, ctx: Ctx): (r: Result<(Report, CState), Failure>)
    requires ps.t.Valid() && st.table.Consistent()
    ensures r.Ok? ==> var st' := r.value.1;
      st'.table.Consistent() && Extends(st.table, st'.table) && st.stmts <= st'.stmts
    decreases Lexer.Measure(ps.t), 1
  {
    var (atEnd, t1) := Lexer.Eof(ps.t);
    if atEnd then Ok((Report(true, []), st))
    else Turn(ps.(t := t1), Grammar.Statement(ps.(t := t1)), st, ctx)
  }

  /** The body of the loop once eat_statement has returned the statement
      parsed from ps, or thrown. */
  function Turn(ps: Grammar.PState, parsed: Result<Grammar.Parsed, Failure>, st: CState, ctx: Ctx)
    : (r: Result<(Report, CState), Failure>)
    requires ps.t.Valid() && st.table.Consistent()
    requires parsed.Ok? ==> Grammar.Beyond(ps, parsed.value.ps)
    ensures r.Ok? ==> var st' := r.value.1;
      st'.table.Consistent() && Extends(st.table, st'.table) && st.stmts <= st'.stmts
    decreases Lexer.Measure(ps.t), 0
  {
    match parsed
    case Err(f) => Stop(f, st)
    case Ok(p) =>
      var o := Gen(p.node, st, ctx);
      match o.r
      case Err(f) => Stop(f, o.st)
      case Ok(ok) => if ok then Statements(p.ps, o.st, ctx) else Ok((Report(false, []), o.st))
  }

  /** Away from the end of the input the loop takes another turn, from
      the state eof() left. */
  lemma StatementsNotAtEnd(ps: Grammar.PState, st: CState, ctx: Ctx)
    requires ps.t.Valid() && st.table.Consistent() && !Lexer.Eof(ps.t).0
    ensures Statements(ps, st, ctx)
      == Turn(ps.(t := Lexer.Eof(ps.t).1), Grammar.Statement(ps.(t := Lexer.Eof(ps.t).1)), st, ctx)
  {
  }

  /** The parser's state when it is constructed on the stream s. */
  function Opened(s: Stream): (ps: Grammar.PState)
    requires s.Valid()
    ensures ps.t.Valid() && ps.points == []
  {
    Grammar.PState(Lexer.TState(s, 0, 0, EmptyToken, StreamPoint(0, 0, 0)), [])
  }

  /** compile_internal on the stream s, from the compiler state st.  The
      leading ws() is outside the try block, so its exception escapes. */
  function CompileInternal(s: Stream, st: CState, ctx: Ctx): (r: Result<(Report, CState), Failure>)
    requires s.Valid() && st.table.Consistent()
  {
    var ps := Opened(s);
    var ps1 :- Grammar.SkipWs(ps);
    Statements(ps1, st, ctx)
  }

  /** compile_internal's returned pair r and the compiler state st after
      it are those spec gives; an exception that escapes is spec's. */
  predicate Delivers(r: Result<Report, Failure>, spec: Result<(Report, CState), Failure>, st: CState)
  {
    match spec
    case Ok((rep, st')) => r == Ok(rep) && st == st'
    case Err(e) => r == Err(e)
  }

  /** Where compile_internal's loop stands, as the spec of the rest of the
      loop: an exception e escaped and spec is Err(e); or ok is set, no
      message was written and the rest is Statements from ps and st; or ok
      is clear and the loop is over with messages written. */
  predicate Continues(ok: bool, messages: seq<Diagnostic>, escaped: Option<Failure>,
                      spec: Result<(Report, CState), Failure>, ps: Grammar.PState, st: CState, ctx: Ctx)
  {
    match escaped
    case Some(e) => spec == Err(e)
    case None =>
      if ok then messages == [] && ps.t.Valid() && st.table.Consistent() && spec == Statements(ps, st, ctx)
      else spec == Ok((Report(false, messages), st))
  }

  /** While the loop goes on, no message has been written yet. */
  lemma ContinuesClean(messages: seq<Diagnostic>, spec: Result<(Report, CState), Failure>,
                       ps: Grammar.PState, st: CState, ctx: Ctx)
    requires Continues(true, messages, None, spec, ps, st, ctx)
    ensures messages == [] && ps.t.Valid() && st.table.Consistent() && spec == Statements(ps, st, ctx)
  {
  }

  lemma NoMessageYet(messages: seq<Diagnostic>, m: seq<Diagnostic>)
    requires messages == []
    ensures messages + m == m
  {
  }

  /** What the loop can end with: at most one message, none when ok; a
      parse error's line is 1-based; and only an exception that is neither
      a parse_error nor a runtime_error escapes. */
  predicate WellReported(r: Result<(Report, CState), Failure>)
  {
    match r
    case Err(f) => f.OutOfRange? || f.Abort?
    case Ok((rep, _)) =>
      && |rep.messages| <= 1
      && (rep.ok ==> rep.messages == [])
      && (forall k :: 0 <= k < |rep.messages| && rep.messages[k].ParsingError? ==> rep.messages[k].line >= 1)
  }

  lemma StopReported(f: Failure, st: CState)
    ensures WellReported(Stop(f, st))
    ensures Stop(f, st).Ok? ==> !Stop(f, st).value.0.ok && |Stop(f, st).value.0.messages| == 1
  {
  }

  /** The loop stops at the first statement that fails: its message is the
      only one, and ok is false. */
  lemma {:induction false} StatementsReported(ps: Grammar.PState, st: CState, ctx: Ctx)
    requires ps.t.Valid() && st.table.Consistent()
    ensures WellReported(Statements(ps, st, ctx))
    decreases Lexer.Measure(ps.t), 1
  {
    var (atEnd, t1) := Lexer.Eof(ps.t);
    if !atEnd {
      TurnReported(ps.(t := t1), Grammar.Statement(ps.(t := t1)), st, ctx);
    }
  }

  lemma {:induction false} TurnReported(ps: Grammar.PState, parsed: Result<Grammar.Parsed, Failure>, st: CState, ctx: Ctx)
    requires ps.t.Valid() && st.table.Consistent()
    requires parsed.Ok? ==> Grammar.Beyond(ps, parsed.value.ps)
    ensures WellReported(Turn(ps, parsed, st, ctx))
    decreases Lexer.Measure(ps.t), 0
  {
    match parsed
    case Err(f) => StopReported(f, st);
    case Ok(p) =>
      var o := Gen(p.node, st, ctx);
      match o.r {
        case Err(f) => StopReported(f, o.st);
        case Ok(ok) =>
          if ok {
            StatementsReported(p.ps, o.st, ctx);
          }
      }
  }

  lemma CompileInternalReported(s: Stream, st: CState, ctx: Ctx)
    requires s.Valid() && st.table.Consistent()
    ensures Grammar.SkipWs(Opened(s)).Err? ==>
              CompileInternal(s, st, ctx) == Err(Grammar.SkipWs(Opened(s)).error)
    ensures Grammar.SkipWs(Opened(s)).Ok? ==> WellReported(CompileInternal(s, st, ctx))
  {
    var ps1 := Grammar.SkipWs(Opened(s));
    if ps1.Ok? {
      assert CompileInternal(s, st, ctx) == Statements(ps1.value, st, ctx);
      StatementsReported(ps1.value, st, ctx);
    }
  }

  /** A statement whose generate returns false ends the loop without a
      message, and nothing after it is parsed or generated. */
  lemma FalseStopsSilently(ps: Grammar.PState, p: Grammar.Parsed, st: CState, ctx: Ctx)
    requires ps.t.Valid() && st.table.Consistent() && Grammar.Beyond(ps, p.ps)
    requires Gen(p.node, st, ctx).r == Ok(false)
    ensures Turn(ps, Ok(p), st, ctx) == Ok((Report(false, []), Gen(p.node, st, ctx).st))
  {
  }

  /** A statement that generates true is followed by the rest of the loop
      from where its parse ended, in the state its generate left. */
  lemma TrueContinues(ps: Grammar.PState, p: Grammar.Parsed, st: CState, ctx: Ctx)
    requires ps.t.Valid() && st.table.Consistent() && Grammar.Beyond(ps, p.ps)
    requires Gen(p.node, st, ctx).r == Ok(true)
    ensures Turn(ps, Ok(p), st, ctx) == Statements(p.ps, Gen(p.node, st, ctx).st, ctx)
  {
  }

  /** A parse error in a statement is reported with its line counted from
      one, in the compiler state the statements before it left. */
  lemma ParseErrorReported(ps: Grammar.PState, f: Failure, st: CState, ctx: Ctx)
    requires ps.t.Valid() && st.table.Consistent() && f.ParseError?
    ensures Turn(ps, Err(f), st, ctx) == Ok((Report(false, [ParsingError(f.what, f.pos.line + 1)]), st))
  {
  }

  /** An empty source compiles with ok set, no message and no code. */
  lemma EmptySourceCompiles(st: CState, ctx: Ctx)
    requires st.table.Consistent()
    ensures CompileInternal(Open(""), st, ctx) == Ok((Report(true, []), st))
  {
    var ps := Opened(Open(""));
    var ps1 := Grammar.SkipWs(ps);
    assert ps1.Ok?;
    assert Lexer.Eof(ps1.value.t).0;
  }
}
