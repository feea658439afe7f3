// Code generation (HelloDll/AST.cpp, each node's generate, and the
// allocator half of HelloDll/Hello_compiler.cpp: index_of,
// assign_from_top_of_stack, copy_to_top_of_stack,
// assign_value_to_variable) as functions of the state they change: the
// pipeline, the statement table and the symbol table.  The Compiler class
// in compiler.dfy performs the same steps in place and is proved equal to
// these functions.

module Codegen {

  import opened Wrappers
  import opened Script
  import opened Internals
  import opened StackMachine
  import opened Allocator
  import opened Pipeline
  import opened Symbols
  import opened Ast

  /** What generation changes. */
  datatype CState = CState(instrs: seq<Instruction>, stmts: seq<Stmt>, table: Table)

  /** A C string's bytes, without the terminating NUL. */
  type CString = s: seq<byte> | forall i :: 0 <= i < |s| ==> s[i] != 0

  /** What generation only reads: the option word, the process
      environment that `$name` is looked up in, and the peephole rule the
      pipeline applies (the compiler's is AsWritten; the stack-effect
      lemmas below hold for the Intended one). */
  datatype Ctx = Ctx(options: Options, env: map<string, CString>, peephole: Peephole)

  /** The end of a void operation: the new state, and the exception it
      raised, if any. */
  datatype Effect = Effect(st: CState, failure: Option<Failure>)

  /** The end of a generate call: the new state, and the boolean it
      returned or the exception it raised. */
  datatype Outcome = Outcome(st: CState, r: Result<bool, Failure>)

  function EmitOp(st: CState, op: byte, ctx: Ctx): CState
  {
    st.(instrs := AppendOp(st.instrs, op, Tag(st.stmts), ctx.peephole))
  }

  function EmitAll(st: CState, cs: seq<Code>, ctx: Ctx): CState
  {
    st.(instrs := AppendAll(st.instrs, cs, Tag(st.stmts), ctx.peephole))
  }

  function EmitData(st: CState, v: seq<byte>): CState
  {
    st.(instrs := st.instrs + [Instruction(Data(v), Tag(st.stmts))])
  }

  function EmitInt(st: CState, n: int): CState
  {
    st.(instrs := st.instrs + [Instruction(IntCode(n), Tag(st.stmts))])
  }

  function Declare(st: CState, s: Stmt): CState
  {
    st.(stmts := st.stmts + [s])
  }

  /** Hello_compiler::index_of: the slot and true for a known name;
      otherwise the name is inserted and its new slot returned with false. */
  function IndexOf(st: CState, name: string): Result<(CState, nat, bool), Failure>
  {
    if name in st.table.slots then Ok((st, st.table.slots[name], true))
    else
      match InsertName(st.table, name)
      case Ok((t', idx)) => Ok((st.(table := t'), idx, false))
      case Err(f) => Err(f)
  }

  /** index_of on a known name: its slot, true, and nothing changes. */
  lemma IndexOfKnown(st: CState, name: string)
    requires st.table.Consistent() && name in st.table.slots
    ensures IndexOf(st, name) == Ok((st, st.table.slots[name], true))
    ensures st.table.slots[name] < |st.table.slots|
  {
  }

  /** index_of on an unknown name: the old size, false, and the table grows
      by exactly that one name. */
  lemma IndexOfUnknown(st: CState, name: string)
    requires st.table.Consistent() && name !in st.table.slots
    ensures IndexOf(st, name).Ok?
    ensures var (st', idx, found) := IndexOf(st, name).value;
      && !found && idx == |st.table.slots|
      && st'.table.slots == st.table.slots[name := idx]
      && |st'.table.slots| == |st.table.slots| + 1
      && st'.table.Consistent()
      && st'.instrs == st.instrs && st'.stmts == st.stmts
  {
    InsertFresh(st.table, name);
  }

  /** assign_from_top_of_stack: a known name's slot is overwritten in
      place; an unknown name is inserted and the value becomes its slot. */
  function AssignFromTop(st: CState, name: string, ctx: Ctx): (r: CState)
    requires st.table.Consistent()
    ensures r.table.Consistent() && r.stmts == st.stmts
    ensures st.table.Indexed() ==> r.table.Indexed()
    ensures name in r.table.slots && Extends(st.table, r.table)
  {
    if name in st.table.slots then
      EmitAll(st, AssignRequests(|st.table.slots|, st.table.slots[name]), ctx)
    else
      InsertFresh(st.table, name);
      var (t', _) := InsertName(st.table, name).value;
      EmitAll(st.(table := t'), NewVariableRequests, ctx)
  }

  /** copy_to_top_of_stack: an unknown name is inserted and then reported
      as uninitialised. */
  function CopyToTop(st: CState, name: string, ctx: Ctx): (e: Effect)
    requires st.table.Consistent()
    ensures e.st.table.Consistent() && e.st.stmts == st.stmts
    ensures Extends(st.table, e.st.table)
    ensures e.failure.None? <==> name in st.table.slots
    ensures e.failure.Some? ==> e.failure.value == RuntimeError(UninitialisedVariable(name))
  {
    if name in st.table.slots then
      Effect(EmitAll(st, CopyRequests(|st.table.slots|, st.table.slots[name]), ctx), None)
    else
      InsertFresh(st.table, name);
      var (t', _) := InsertName(st.table, name).value;
      Effect(st.(table := t'), Some(RuntimeError(UninitialisedVariable(name))))
  }

  /** assign_value_to_variable(name, int). */
  function AssignValue(st: CState, name: string, n: int, ctx: Ctx): (r: CState)
    requires st.table.Consistent()
    ensures r.table.Consistent() && r.stmts == st.stmts
    ensures st.table.Indexed() ==> r.table.Indexed()
    ensures name in r.table.slots && Extends(st.table, r.table)
  {
    AssignFromTop(EmitInt(st, n), name, ctx)
  }

  /** Every variable of t keeps its slot in t'. */
  predicate Extends(t: Table, t': Table)
  {
    forall x {:trigger t.slots[x]} :: x in t.slots ==> x in t'.slots && t'.slots[x] == t.slots[x]
  }

  /** The opcode binary_op::generate emits for each operator it knows. */
  function BinaryOpcode(op: string): Option<byte>
  {
    if op == "+" then Some(OP_ADD)
    else if op == "-" then Some(OP_SUB)
    else if op == "*" then Some(OP_MUL)
    else if op == "/" then Some(OP_DIV)
    else if op == "%" then Some(OP_MOD)
    else if op == "<" then Some(OP_LESSTHAN)
    else if op == "<=" then Some(OP_LESSTHANOREQUAL)
    else if op == "==" then Some(OP_EQUAL)
    else if op == "!=" then Some(OP_0NOTEQUAL)
    else if op == ">=" then Some(OP_GREATERTHANOREQUAL)
    else if op == ">" then Some(OP_GREATERTHAN)
    else if op == "||" then Some(OP_CAT)
    else None
  }

  /** The values for_loop::generate assigns to `i`, in order: first up to
      last when first < last, otherwise last down to first. */
  function LoopValues(first: int, last: int): seq<int>
  {
    if first < last then Ascending(first, last) else Descending(last, first)
  }

  function Ascending(lo: int, hi: int): seq<int>
    decreases hi - lo
  {
    if lo > hi then [] else [lo] + Ascending(lo + 1, hi)
  }

  function Descending(hi: int, lo: int): seq<int>
    decreases hi - lo
  {
    if hi < lo then [] else [hi] + Descending(hi - 1, lo)
  }

  /** Exactly last-first+1 iterations, i = first, first+1, ... when
      first <= last, and none otherwise: the downward loop only ever runs
      when first == last. */
  lemma LoopValuesCount(first: int, last: int)
    ensures |LoopValues(first, last)| == if first <= last then last - first + 1 else 0
    ensures forall k :: 0 <= k < |LoopValues(first, last)| ==> LoopValues(first, last)[k] == first + k
  {
    if first < last {
      AscendingSpec(first, last);
    } else if first == last {
      assert Descending(last - 1, first) == [];
    }
  }

  /** The first of the values and the rest, for a loop that counts. */
  lemma AscendingFirst(lo: int, hi: int)
    requires lo <= hi
    ensures Ascending(lo, hi) != [] && Ascending(lo, hi)[0] == lo && Ascending(lo, hi)[1..] == Ascending(lo + 1, hi)
  {
  }

  lemma DescendingFirst(hi: int, lo: int)
    requires lo <= hi
    ensures Descending(hi, lo) != [] && Descending(hi, lo)[0] == hi && Descending(hi, lo)[1..] == Descending(hi - 1, lo)
  {
  }

  lemma {:induction false} AscendingSpec(lo: int, hi: int)
    ensures |Ascending(lo, hi)| == if lo <= hi then hi - lo + 1 else 0
    ensures forall k :: 0 <= k < |Ascending(lo, hi)| ==> Ascending(lo, hi)[k] == lo + k
    decreases hi - lo
  {
    if lo <= hi {
      AscendingSpec(lo + 1, hi);
    }
  }

  /** A generate call's outcome from a sub-result of a void operation. */
  function Raise(st: CState, failure: Option<Failure>): Outcome
  {
    if failure.Some? then Outcome(st, Err(failure.value)) else Outcome(st, Ok(true))
  }

  /** AST_node::generate, dispatched on the node.  A null child that
      generate dereferences is an Abort; so is a failed assert. */
  function Gen(n: Node, st: CState, ctx: Ctx): (o: Outcome)
    requires st.table.Consistent()
    ensures o.st.table.Consistent() && Extends(st.table, o.st.table)
    ensures st.stmts <= o.st.stmts
    decreases n, 2
  {
    match n
    case Null => Outcome(st, Err(Abort("null AST node")))
    case Const(_, _) => GenConst(n, st)
    case RValue(_, _) => GenRValue(n, st, ctx)
    case Unary => Outcome(st, Ok(true))
    case Binary(_, _, _) => GenBinary(n, st, ctx)
    case Assign(_, _, _, _) => GenAssign(n, st, ctx)
    case IfThenElse(_, _, _, _, _) => GenIf(n, st, ctx)
    case ForLoop(_, _, _, _, _, _) => GenFor(n, st, ctx)
    case NativeFunction(_, _, _) => GenNative(n, st, ctx)
    case Assertion(_, _, _) => GenAssertion(n, st, ctx)
    case Sequence(_, _) => GenSequence(n, st, ctx)
  }

  /** const_node::generate: hex literals are pushed as their bytes,
      integers as operator<<(int) of their atoi value; a literal an int
      cannot hold is an Abort. */
  function GenConst(n: Node, st: CState): (o: Outcome)
    requires n.Const?
    ensures o.st.table == st.table && o.st.stmts == st.stmts
    ensures o.r.Ok? <==> n.kind == Hex || (n.kind == Integer && IsInt(Atoi(n.value)))
    ensures o.r.Ok? ==> o.r.value
    ensures n.kind == Integer && !IsInt(Atoi(n.value)) ==> o.r == Err(Abort(AtoiOutOfRange)) && o.st == st
  {
    if n.kind == Hex then Outcome(EmitData(st, ParseHex(n.value)), Ok(true))
    else if n.kind == Integer then
      var v := Atoi(n.value);
      if IsInt(v) then Outcome(EmitInt(st, v), Ok(true))
      else Outcome(st, Err(Abort(AtoiOutOfRange)))
    else Outcome(st, Err(Abort("const_node::generate: unsupported type")))
  }

  /** rvalue_node::generate: `$name` pushes the environment value with its
      NUL, `tos` duplicates the top, any other name is copied from its slot. */
  function GenRValue(n: Node, st: CState, ctx: Ctx): (o: Outcome)
    requires n.RValue? && st.table.Consistent()
    ensures o.st.table.Consistent() && Extends(st.table, o.st.table)
    ensures o.st.stmts == st.stmts
    ensures o.r.Ok? ==> o.r.value
  {
    if n.isExtern then
      if n.name in ctx.env then Outcome(EmitData(st, ctx.env[n.name] + [0]), Ok(true))
      else Outcome(st, Err(Abort("get_extern_value: variable not in the environment")))
    else if n.name != "tos" then
      var e := CopyToTop(st, n.name, ctx);
      Raise(e.st, e.failure)
    else Outcome(EmitOp(st, OP_DUP, ctx), Ok(true))
  }

  /** for_loop::generate: declare the statement, then run the loop body
      over LoopValues. */
  function GenFor(n: Node, st: CState, ctx: Ctx): (o: Outcome)
    requires n.ForLoop? && st.table.Consistent()
    ensures o.st.table.Consistent() && Extends(st.table, o.st.table)
    ensures st.stmts <= o.st.stmts
    decreases n, 0
  {
    GenLoop(LoopValues(n.first, n.last), n.block, Declare(st, Stmt(n.p1, n.p2)), true, ctx)
  }

  /** binary_op::generate: a, then b only if a returned true, then the
      operator's opcode; true unless the operator is unknown. */
  function GenBinary(n: Node, st: CState, ctx: Ctx): (o: Outcome)
    requires n.Binary? && st.table.Consistent()
    ensures o.st.table.Consistent() && Extends(st.table, o.st.table)
    ensures st.stmts <= o.st.stmts
    decreases n, 0
  {
    var oa := Gen(n.a, st, ctx);
    if oa.r.Err? then oa
    else
      var ob := if oa.r.value then Gen(n.b, oa.st, ctx) else oa;
      if ob.r.Err? then ob
      else if BinaryOpcode(n.op).Some? then Outcome(EmitOp(ob.st, BinaryOpcode(n.op).value, ctx), Ok(true))
      else Outcome(ob.st, Err(Abort("binary_op::generate: unknown operator")))
  }

  /** assign_op::generate: declare the statement, generate the right-hand
      side (its result is ignored), and store it unless the target is `tos`. */
  function GenAssign(n: Node, st: CState, ctx: Ctx): (o: Outcome)
    requires n.Assign? && st.table.Consistent()
    ensures o.st.table.Consistent() && Extends(st.table, o.st.table)
    ensures st.stmts <= o.st.stmts
    decreases n, 0
  {
    var s1 := Declare(st, Stmt(n.p1, n.p2));
    if n.expr == Null then Outcome(s1, Err(Abort("assign_op::generate: null expression")))
    else
      var oe := Gen(n.expr, s1, ctx);
      if oe.r.Err? then oe
      else if n.name != "tos" then Outcome(AssignFromTop(oe.st, n.name, ctx), Ok(true))
      else Outcome(oe.st, Ok(true))
  }

  /** if_then_else::generate: cond IF a [ELSE b] ENDIF, each branch
      generated only while everything before it returned true. */
  function GenIf(n: Node, st: CState, ctx: Ctx): (o: Outcome)
    requires n.IfThenElse? && st.table.Consistent()
    ensures o.st.table.Consistent() && Extends(st.table, o.st.table)
    ensures st.stmts <= o.st.stmts
    decreases n, 1
  {
    var oc := Gen(n.cond, Declare(st, Stmt(n.p1, n.p2)), ctx);
    if oc.r.Err? then oc
    else GenBranches(n, EmitOp(oc.st, OP_IF, ctx), oc.r.value, ctx)
  }

  /** The part of if_then_else::generate after OP_IF, given what the
      condition returned. */
  function GenBranches(n: Node, st: CState, ok: bool, ctx: Ctx): (o: Outcome)
    requires n.IfThenElse? && st.table.Consistent()
    ensures o.st.table.Consistent() && Extends(st.table, o.st.table)
    ensures st.stmts <= o.st.stmts
    decreases n, 0
  {
    var oa := if n.a != Null && ok then Gen(n.a, st, ctx) else Outcome(st, Ok(ok));
    if oa.r.Err? then oa
    else
      var s1 := if n.b != Null then EmitOp(oa.st, OP_ELSE, ctx) else oa.st;
      var ob := if n.b != Null && oa.r.value then Gen(n.b, s1, ctx) else Outcome(s1, oa.r);
      if ob.r.Err? then ob
      else Outcome(EmitOp(ob.st, OP_ENDIF, ctx), ob.r)
  }

  /** native_function::generate: OP_RETURN goes before its arguments, any
      other opcode after them; the result is always false. */
  function GenNative(n: Node, st: CState, ctx: Ctx): (o: Outcome)
    requires n.NativeFunction? && st.table.Consistent()
    ensures o.st.table.Consistent() && Extends(st.table, o.st.table)
    ensures st.stmts <= o.st.stmts
    ensures o.r.Ok? ==> !o.r.value
    decreases n, 0
  {
    if n.opcode == OP_RETURN then
      var oa := Gen(n.args, EmitOp(st, OP_RETURN, ctx), ctx);
      if oa.r.Err? then oa else Outcome(oa.st, Ok(false))
    else
      var oa := Gen(n.args, st, ctx);
      if oa.r.Err? then oa else Outcome(EmitOp(oa.st, n.opcode, ctx), Ok(false))
  }

  /** assertion::generate: with ASSERTS_ON, cond NOTIF NOP4 ENDIF under a
      new statement; otherwise nothing at all. */
  function GenAssertion(n: Node, st: CState, ctx: Ctx): (o: Outcome)
    requires n.Assertion? && st.table.Consistent()
    ensures o.st.table.Consistent() && Extends(st.table, o.st.table)
    ensures st.stmts <= o.st.stmts
    ensures !AssertsOn(ctx.options) ==> o == Outcome(st, Ok(true))
    decreases n, 0
  {
    if AssertsOn(ctx.options) then
      var oc := Gen(n.cond, Declare(st, Stmt(n.p1, n.p2)), ctx);
      if oc.r.Err? then oc
      else
        var s1 := EmitOp(EmitOp(EmitOp(oc.st, OP_NOTIF, ctx), OP_NOP4, ctx), OP_ENDIF, ctx);
        Outcome(s1, oc.r)
    else Outcome(st, Ok(true))
  }

  /** sequence::generate: a if present, then b if present and a returned
      true. */
  function GenSequence(n: Node, st: CState, ctx: Ctx): (o: Outcome)
    requires n.Sequence? && st.table.Consistent()
    ensures o.st.table.Consistent() && Extends(st.table, o.st.table)
    ensures st.stmts <= o.st.stmts
    decreases n, 0
  {
    var oa := if n.a != Null then Gen(n.a, st, ctx) else Outcome(st, Ok(true));
    if oa.r.Err? then oa
    else if n.b != Null && oa.r.value then Gen(n.b, oa.st, ctx)
    else oa
  }

  /** The for_loop body: one assign_value_to_variable("i", v) per value,
      then the block while every earlier block succeeded. */
  function GenLoop(values: seq<int>, block: Node, st: CState, ok: bool, ctx: Ctx): (o: Outcome)
    requires st.table.Consistent()
    ensures o.st.table.Consistent() && Extends(st.table, o.st.table)
    ensures st.stmts <= o.st.stmts
    ensures values != [] ==> "i" in o.st.table.slots
    decreases block, 4, |values|
  {
    if values == [] then Outcome(st, Ok(ok))
    else
      var ob := LoopTurn(values[0], block, st, ok, ctx);
      if ob.r.Err? then ob
      else GenLoop(values[1..], block, ob.st, ob.r.value, ctx)
  }

  /** One turn of for_loop::generate's loops with i == v:
      `assign_value_to_variable("i", v); if(block) ok = ok && block->generate(..)`. */
  function LoopTurn(v: int, block: Node, st: CState, ok: bool, ctx: Ctx): (o: Outcome)
    requires st.table.Consistent()
    ensures o.st.table.Consistent() && Extends(st.table, o.st.table)
    ensures st.stmts <= o.st.stmts
    ensures "i" in o.st.table.slots
    decreases block, 3
  {
    var s1 := AssignValue(st, "i", v, ctx);
    if block != Null && ok then Gen(block, s1, ctx) else Outcome(s1, Ok(ok))
  }

  // ---------------------------------------------------------------------
  // A tree of sequences generates as the list of its statements.

  /** Generates statements one after another, stopping at the first that
      fails or returns false. */
  function GenList(items: seq<Node>, st: CState, ctx: Ctx): (o: Outcome)
    requires st.table.Consistent()
    ensures o.st.table.Consistent()
    decreases |items|
  {
    if items == [] then Outcome(st, Ok(true))
    else
      var o1 := Gen(items[0], st, ctx);
      if o1.r != Ok(true) then o1 else GenList(items[1..], o1.st, ctx)
  }

  lemma {:induction false} GenListAppend(xs: seq<Node>, ys: seq<Node>, st: CState, ctx: Ctx)
    requires st.table.Consistent()
    ensures var o := GenList(xs, st, ctx);
      GenList(xs + ys, st, ctx) == if o.r != Ok(true) then o else GenList(ys, o.st, ctx)
    decreases |xs|
  {
    if xs != [] {
      assert (xs + ys)[0] == xs[0] && (xs + ys)[1..] == xs[1..] + ys;
      var o1 := Gen(xs[0], st, ctx);
      if o1.r == Ok(true) {
        GenListAppend(xs[1..], ys, o1.st, ctx);
      }
    } else {
      assert xs + ys == ys;
    }
  }

  /** sequence::generate visits the non-null statements of the tree in
      order and stops after the first one that does not return true. */
  lemma {:induction false} GenSequenceInOrder(n: Node, st: CState, ctx: Ctx)
    requires st.table.Consistent() && n != Null
    ensures Gen(n, st, ctx) == GenList(Items(n), st, ctx)
    decreases n
  {
    if n.Sequence? {
      var (a, b) := (n.a, n.b);
      GenListAppend(Items(a), Items(b), st, ctx);
      var oa := if a != Null then Gen(a, st, ctx) else Outcome(st, Ok(true));
      if a != Null {
        GenSequenceInOrder(a, st, ctx);
      }
      if oa.r == Ok(true) && b != Null {
        GenSequenceInOrder(b, oa.st, ctx);
      }
    } else {
      assert Items(n) == [n];
      assert [n][1..] == [];
    }
  }

  // ---------------------------------------------------------------------
  // What the generated code does to the two stacks.

  /** The code of st, run from s0, leaves the main stack m and one
      alt-stack value per variable, variable x's in slot slots[x]. */
  predicate Models(st: CState, s0: Stacks, m: seq<Value>, alt: seq<Value>)
  {
    Run(Codes(st.instrs), s0) == Some(Stacks(m, alt)) && |alt| == |st.table.slots|
  }

  /** The alt-stack after v is assigned to name. */
  function Assigned(t: Table, alt: seq<Value>, name: string, v: Value): seq<Value>
    requires t.Consistent() && |alt| == |t.slots|
  {
    if name in t.slots then alt[t.slots[name] := v] else alt + [v]
  }

  /** Appending code that runs keeps the run's result. */
  lemma EmitRuns(st: CState, cs: seq<Code>, ctx: Ctx, s0: Stacks, m: seq<Value>, alt: seq<Value>, s1: Stacks)
    requires ctx.peephole.Intended?
    requires Run(Codes(st.instrs), s0) == Some(Stacks(m, alt))
    requires Run(cs, Stacks(m, alt)) == Some(s1)
    ensures Run(Codes(EmitAll(st, cs, ctx).instrs), s0) == Some(s1)
  {
    RunAppend(Codes(st.instrs), cs, s0);
    AppendAllPreservesRun(st.instrs, cs, Tag(st.stmts), ctx.peephole, s0);
  }

  /** operator<<(int) pushes the number's CScriptNum encoding. */
  lemma EmitIntRuns(st: CState, n: int, s0: Stacks, m: seq<Value>, alt: seq<Value>)
    requires Models(st, s0, m, alt)
    ensures Models(EmitInt(st, n), s0, m + [ScriptNumBytes(n)], alt)
  {
    var i := Instruction(IntCode(n), Tag(st.stmts));
    CodesAppend(st.instrs, [i]);
    assert Codes([i]) == [IntCode(n)];
    RunAppend(Codes(st.instrs), [IntCode(n)], s0);
    RunSingle(IntCode(n), Stacks(m, alt));
  }

  /** assign_from_top_of_stack consumes the top of the main stack and
      leaves it in the variable's slot; every other variable keeps its
      slot and its value. */
  lemma AssignFromTopRuns(st: CState, name: string, ctx: Ctx, s0: Stacks, m: seq<Value>, v: Value, alt: seq<Value>)
    requires ctx.peephole.Intended?
    requires st.table.Consistent() && st.table.Indexed() && Models(st, s0, m + [v], alt)
    ensures var r := AssignFromTop(st, name, ctx);
      var alt' := Assigned(st.table, alt, name, v);
      && Models(r, s0, m, alt')
      && alt'[r.table.slots[name]] == v
      && forall x :: x in st.table.slots && x != name ==> alt'[r.table.slots[x]] == alt[st.table.slots[x]]
  {
    if name in st.table.slots {
      AssignRequestsCorrect(m, v, alt, st.table.slots[name]);
      EmitRuns(st, AssignRequests(|alt|, st.table.slots[name]), ctx, s0, m + [v], alt, Stacks(m, alt[st.table.slots[name] := v]));
      forall x | x in st.table.slots && x != name
        ensures st.table.slots[x] != st.table.slots[name]
      {
        assert st.table.names[st.table.slots[x]] == x;
        assert st.table.names[st.table.slots[name]] == name;
      }
    } else {
      InsertFresh(st.table, name);
      var (t', _) := InsertName(st.table, name).value;
      NewVariableRequestsCorrect(m, v, alt);
      EmitRuns(st.(table := t'), NewVariableRequests, ctx, s0, m + [v], alt, Stacks(m, alt + [v]));
    }
  }

  /** copy_to_top_of_stack pushes a copy of a known variable's value and
      leaves the alt-stack as it was. */
  lemma CopyToTopRuns(st: CState, name: string, ctx: Ctx, s0: Stacks, m: seq<Value>, alt: seq<Value>)
    requires ctx.peephole.Intended?
    requires st.table.Consistent() && Models(st, s0, m, alt) && name in st.table.slots
    ensures CopyToTop(st, name, ctx).failure.None?
    ensures Models(CopyToTop(st, name, ctx).st, s0, m + [alt[st.table.slots[name]]], alt)
  {
    CopyRequestsCorrect(m, alt, st.table.slots[name]);
    EmitRuns(st, CopyRequests(|alt|, st.table.slots[name]), ctx, s0, m, alt, Stacks(m + [alt[st.table.slots[name]]], alt));
  }

  /** assign_value_to_variable(name, n): the variable holds n's encoding
      afterwards, the main stack is as before, and the others keep theirs. */
  lemma AssignValueRuns(st: CState, name: string, n: int, ctx: Ctx, s0: Stacks, m: seq<Value>, alt: seq<Value>)
    requires ctx.peephole.Intended?
    requires st.table.Consistent() && st.table.Indexed() && Models(st, s0, m, alt)
    ensures var r := AssignValue(st, name, n, ctx);
      var alt' := Assigned(st.table, alt, name, ScriptNumBytes(n));
      && Models(r, s0, m, alt')
      && alt'[r.table.slots[name]] == ScriptNumBytes(n)
      && forall x :: x in st.table.slots && x != name ==> alt'[r.table.slots[x]] == alt[st.table.slots[x]]
  {
    EmitIntRuns(st, n, s0, m, alt);
    AssignFromTopRuns(EmitInt(st, n), name, ctx, s0, m, ScriptNumBytes(n), alt);
  }

  /** assign_value_to_variable("i", v) for each value in turn. */
  function AssignEach(values: seq<int>, st: CState, ctx: Ctx): (r: CState)
    requires st.table.Consistent()
    ensures r.table.Consistent() && Extends(st.table, r.table) && r.stmts == st.stmts
    ensures st.table.Indexed() ==> r.table.Indexed()
    ensures values != [] ==> "i" in r.table.slots
    decreases |values|
  {
    if values == [] then st else AssignEach(values[1..], AssignValue(st, "i", values[0], ctx), ctx)
  }

  /** With a null block the loop only assigns, and returns the ok it was
      given. */
  lemma {:induction false} GenLoopEmptyBlock(values: seq<int>, st: CState, ok: bool, ctx: Ctx)
    requires st.table.Consistent()
    ensures GenLoop(values, Null, st, ok, ctx) == Outcome(AssignEach(values, st, ctx), Ok(ok))
    decreases |values|
  {
    if values != [] {
      var s1 := AssignValue(st, "i", values[0], ctx);
      assert GenLoop(values, Null, st, ok, ctx) == GenLoop(values[1..], Null, s1, ok, ctx);
      GenLoopEmptyBlock(values[1..], s1, ok, ctx);
    }
  }

  /** AssignValueRuns for `i`, with the new alt-stack returned. */
  lemma AssignLoopVariable(v: int, st: CState, ctx: Ctx, s0: Stacks, m: seq<Value>, alt: seq<Value>)
    returns (alt': seq<Value>)
    requires ctx.peephole.Intended?
    requires st.table.Consistent() && st.table.Indexed() && Models(st, s0, m, alt)
    ensures var r := AssignValue(st, "i", v, ctx);
      && Models(r, s0, m, alt')
      && alt'[r.table.slots["i"]] == ScriptNumBytes(v)
      && forall x :: x in st.table.slots && x != "i" ==> alt'[r.table.slots[x]] == alt[st.table.slots[x]]
  {
    AssignValueRuns(st, "i", v, ctx, s0, m, alt);
    alt' := Assigned(st.table, alt, "i", ScriptNumBytes(v));
  }

  /** Assigning every value to `i` in turn leaves `i` holding the last one
      and the main stack as before; alt' is the alt-stack it leaves. */
  lemma {:induction false} AssignEachRuns(values: seq<int>, st: CState, ctx: Ctx, s0: Stacks, m: seq<Value>, alt: seq<Value>)
    returns (alt': seq<Value>)
    requires ctx.peephole.Intended?
    requires st.table.Consistent() && st.table.Indexed() && Models(st, s0, m, alt)
    ensures Models(AssignEach(values, st, ctx), s0, m, alt')
    ensures values == [] ==> alt' == alt
    ensures values != [] ==> alt'[AssignEach(values, st, ctx).table.slots["i"]] == ScriptNumBytes(values[|values| - 1])
    ensures forall x :: x in st.table.slots && x != "i" ==> alt'[AssignEach(values, st, ctx).table.slots[x]] == alt[st.table.slots[x]]
    decreases |values|
  {
    if values == [] {
      alt' := alt;
    } else {
      var last := values[|values| - 1];
      assert values[1..] == [] ==> last == values[0];
      assert values[1..] != [] ==> values[1..][|values[1..]| - 1] == last;
      var s1 := AssignValue(st, "i", values[0], ctx);
      var alt1 := AssignLoopVariable(values[0], st, ctx, s0, m, alt);
      alt' := AssignEachRuns(values[1..], s1, ctx, s0, m, alt1);
      var r := AssignEach(values[1..], s1, ctx);
      assert AssignEach(values, st, ctx) == r;
      forall x | x in st.table.slots && x != "i"
        ensures alt'[r.table.slots[x]] == alt[st.table.slots[x]]
      {
        assert x in s1.table.slots && s1.table.slots[x] == st.table.slots[x];
      }
    }
  }

  /** `for (v = first to last) {}` (a null block) with first <= last leaves
      `i`, not v, holding last. */
  lemma ForLoopEmptyRuns(v: string, first: int, last: int, block: Node, p1: StreamPoint, p2: StreamPoint,
                         st: CState, ctx: Ctx, s0: Stacks, m: seq<Value>, alt: seq<Value>)
    requires ctx.peephole.Intended?
    requires st.table.Consistent() && st.table.Indexed() && Models(st, s0, m, alt) && first <= last && block == Null
    ensures var o := Gen(ForLoop(v, first, last, block, p1, p2), st, ctx);
      && o.r == Ok(true)
      && Run(Codes(o.st.instrs), s0).Some?
      && var fin := Run(Codes(o.st.instrs), s0).value;
      && Models(o.st, s0, m, fin.alt)
      && "i" in o.st.table.slots
      && fin.alt[o.st.table.slots["i"]] == ScriptNumBytes(last)
      && forall x :: x in st.table.slots && x != "i" ==> fin.alt[o.st.table.slots[x]] == alt[st.table.slots[x]]
  {
    var values := LoopValues(first, last);
    var s1 := Declare(st, Stmt(p1, p2));
    LoopValuesLast(first, last);
    GenForEmptyBlock(v, first, last, block, p1, p2, st, ctx);
    assert Models(s1, s0, m, alt);
    var alt' := AssignEachRuns(values, s1, ctx, s0, m, alt);
  }

  lemma LoopValuesLast(first: int, last: int)
    requires first <= last
    ensures LoopValues(first, last) != [] && LoopValues(first, last)[|LoopValues(first, last)| - 1] == last
  {
    LoopValuesCount(first, last);
  }

  /** A for loop with a null block only assigns its values to `i`. */
  lemma GenForEmptyBlock(v: string, first: int, last: int, block: Node, p1: StreamPoint, p2: StreamPoint, st: CState, ctx: Ctx)
    requires st.table.Consistent() && block == Null
    ensures Gen(ForLoop(v, first, last, block, p1, p2), st, ctx)
         == Outcome(AssignEach(LoopValues(first, last), Declare(st, Stmt(p1, p2)), ctx), Ok(true))
  {
    var n := ForLoop(v, first, last, block, p1, p2);
    assert Gen(n, st, ctx) == GenFor(n, st, ctx);
    GenLoopEmptyBlock(LoopValues(first, last), Declare(st, Stmt(p1, p2)), true, ctx);
  }

  /** `name = y;` for an initialised y copies y's value into name's slot. */
  lemma AssignCopyRuns(name: string, y: string, isExtern: bool, p1: StreamPoint, p2: StreamPoint,
                       st: CState, ctx: Ctx, s0: Stacks, m: seq<Value>, alt: seq<Value>)
    requires ctx.peephole.Intended?
    requires st.table.Consistent() && st.table.Indexed() && Models(st, s0, m, alt)
    requires y in st.table.slots && !isExtern && y != "tos" && name != "tos"
    ensures var o := Gen(Assign(name, RValue(y, isExtern), p1, p2), st, ctx);
      var alt' := Assigned(st.table, alt, name, alt[st.table.slots[y]]);
      && o.r == Ok(true)
      && Models(o.st, s0, m, alt')
      && name in o.st.table.slots
      && alt'[o.st.table.slots[name]] == alt[st.table.slots[y]]
  {
    var n := Assign(name, RValue(y, isExtern), p1, p2);
    var s1 := Declare(st, Stmt(p1, p2));
    var e := CopyToTop(s1, y, ctx);
    assert Gen(n, st, ctx) == GenAssign(n, st, ctx);
    CopyToTopRuns(s1, y, ctx, s0, m, alt);
    assert Gen(RValue(y, isExtern), s1, ctx) == Outcome(e.st, Ok(true));
    assert GenAssign(n, st, ctx) == Outcome(AssignFromTop(e.st, name, ctx), Ok(true));
    assert e.st.table == st.table;
    AssignFromTopRuns(e.st, name, ctx, s0, m, alt[st.table.slots[y]], alt);
  }

  /** `name = <integer literal>;` stores the literal's atoi value when an
      int can hold it, and aborts otherwise. */
  lemma AssignConstRuns(name: string, lit: string, kind: TokenKind, p1: StreamPoint, p2: StreamPoint,
                        st: CState, ctx: Ctx, s0: Stacks, m: seq<Value>, alt: seq<Value>)
    requires ctx.peephole.Intended?
    requires st.table.Consistent() && st.table.Indexed() && Models(st, s0, m, alt) && name != "tos" && kind == Integer
    ensures !IsInt(Atoi(lit)) ==> Gen(Assign(name, Const(lit, kind), p1, p2), st, ctx).r == Err(Abort(AtoiOutOfRange))
    ensures IsInt(Atoi(lit)) ==> var o := Gen(Assign(name, Const(lit, kind), p1, p2), st, ctx);
      var alt' := Assigned(st.table, alt, name, ScriptNumBytes(Atoi(lit)));
      && o.r == Ok(true)
      && Models(o.st, s0, m, alt')
      && name in o.st.table.slots
      && alt'[o.st.table.slots[name]] == ScriptNumBytes(Atoi(lit))
      && forall x :: x in st.table.slots && x != name ==> alt'[o.st.table.slots[x]] == alt[st.table.slots[x]]
  {
    var n := Assign(name, Const(lit, kind), p1, p2);
    var s1 := Declare(st, Stmt(p1, p2));
    assert Gen(n, st, ctx) == GenAssign(n, st, ctx);
    if !IsInt(Atoi(lit)) {
      assert Gen(Const(lit, kind), s1, ctx).r == Err(Abort(AtoiOutOfRange));
      return;
    }
    assert Gen(Const(lit, kind), s1, ctx) == Outcome(EmitInt(s1, Atoi(lit)), Ok(true));
    assert GenAssign(n, st, ctx) == Outcome(AssignValue(s1, name, Atoi(lit), ctx), Ok(true));
    AssignValueRuns(s1, name, Atoi(lit), ctx, s0, m, alt);
  }

  /** binary_op::generate only generates its right operand after the left
      one returned true. */
  lemma LeftNotTrueSkipsRight(op: string, a: Node, b: Node, c: Node, st: CState, ctx: Ctx)
    requires st.table.Consistent() && Gen(a, st, ctx).r != Ok(true)
    ensures Gen(Binary(op, a, b), st, ctx) == Gen(Binary(op, a, c), st, ctx)
  {
    assert Gen(Binary(op, a, b), st, ctx) == GenBinary(Binary(op, a, b), st, ctx);
    assert Gen(Binary(op, a, c), st, ctx) == GenBinary(Binary(op, a, c), st, ctx);
  }

  /** native_function::generate never returns true. */
  lemma NativeNeverTrue(f: string, opcode: byte, args: Node, st: CState, ctx: Ctx)
    requires st.table.Consistent()
    ensures Gen(NativeFunction(f, opcode, args), st, ctx).r != Ok(true)
  {
    assert Gen(NativeFunction(f, opcode, args), st, ctx) == GenNative(NativeFunction(f, opcode, args), st, ctx);
  }

  /** Hence a builtin call on the left of an operator hides its right
      operand: `abs(y) + 1` generates the same code as `abs(y) + z`. */
  lemma NativeLeftSkipsRight(op: string, f: string, opcode: byte, args: Node, b: Node, c: Node, st: CState, ctx: Ctx)
    requires st.table.Consistent()
    ensures Gen(Binary(op, NativeFunction(f, opcode, args), b), st, ctx)
         == Gen(Binary(op, NativeFunction(f, opcode, args), c), st, ctx)
  {
    NativeNeverTrue(f, opcode, args, st, ctx);
    LeftNotTrueSkipsRight(op, NativeFunction(f, opcode, args), b, c, st, ctx);
  }

  /** Reading an undeclared variable reports it as uninitialised, after
      inserting it into the table. */
  lemma ReadUndeclaredFails(name: string, isExtern: bool, st: CState, ctx: Ctx)
    requires st.table.Consistent() && name !in st.table.slots && name != "tos" && !isExtern
    ensures var o := Gen(RValue(name, isExtern), st, ctx);
      o.r == Err(RuntimeError(UninitialisedVariable(name))) && name in o.st.table.slots
  {
  }
}
