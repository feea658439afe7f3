// The instruction pipeline (HelloDll/Hello_compiler.cpp, instruction and
// instruction_pipeline): an append-only list of instructions, each tagged
// with the statement that generated it, and a peephole rule applied when
// an alt-stack transfer is emitted.
//
// The peephole is modelled twice.  AppendOpAsWritten is the rule as the
// code has it: the optimiser mask is replaced by a constant that is always
// on, and `instruction == opcode` compares the parameter with itself, so
// the rule drops whatever opcode instruction precedes a TOALTSTACK or a
// FROMALTSTACK and then appends the new one anyway.  AppendOp is the rule
// the code evidently means: honour OPTIMISER_ON, and let a FROMALTSTACK /
// TOALTSTACK pair (in either order) cancel out.  The pipeline class uses
// the as-written rule, as the compiler does; the corrected rule is what
// the stack-effect lemmas below are proved for.

module Pipeline {

  import opened Wrappers
  import opened Script
  import opened Internals
  import opened StackMachine
  import opened Allocator

  /** `stmts.size() - 1` as a size_t: the index of the most recently
      declared statement, or SIZE_MAX when none has been declared. */
  function Tag(stmts: seq<Stmt>): (t: nat)
    ensures stmts != [] ==> t < |stmts| && t + 1 == |stmts|
    ensures stmts == [] ==> t == SIZE_MAX
  {
    if stmts == [] then SIZE_MAX else |stmts| - 1
  }

  /** The code of every instruction, in order. */
  function Codes(instrs: seq<Instruction>): (cs: seq<Code>)
    ensures |cs| == |instrs|
    ensures forall k :: 0 <= k < |instrs| ==> cs[k] == instrs[k].code
  {
    if instrs == [] then [] else Codes(instrs[..|instrs| - 1]) + [instrs[|instrs| - 1].code]
  }

  lemma CodesAppend(a: seq<Instruction>, b: seq<Instruction>)
    ensures Codes(a + b) == Codes(a) + Codes(b)
  {
  }

  /** instruction::operator==(opcodetype) as written: the parameter shadows
      the member, so only the instruction's kind is compared. */
  predicate EqualsOpcodeAsWritten(instr: Instruction, opcode: byte)
  {
    instr.code.Op?
  }

  /** operator<<(opcodetype) as written.  The back() of an empty pipeline
      is undefined behaviour in the source; here it removes nothing. */
  function AppendOpAsWritten(instrs: seq<Instruction>, op: byte, tag: nat): seq<Instruction>
  {
    var kept :=
      if op == OP_TOALTSTACK && instrs != [] && EqualsOpcodeAsWritten(instrs[|instrs| - 1], OP_FROMALTSTACK) then
        instrs[..|instrs| - 1]
      else if op == OP_FROMALTSTACK && instrs != [] && EqualsOpcodeAsWritten(instrs[|instrs| - 1], OP_TOALTSTACK) then
        instrs[..|instrs| - 1]
      else instrs;
    kept + [Instruction(Op(op), tag)]
  }

  /** The as-written rule removes at most the one preceding instruction and
      only when emitting an alt-stack transfer, never reorders, never
      shrinks the pipeline, and always ends with the new instruction. */
  lemma AsWrittenPeepholeShape(instrs: seq<Instruction>, op: byte, tag: nat)
    ensures var r := AppendOpAsWritten(instrs, op, tag);
      && |r| >= |instrs|
      && r[|r| - 1] == Instruction(Op(op), tag)
      && (r == instrs + [Instruction(Op(op), tag)]
          || (instrs != [] && r == instrs[..|instrs| - 1] + [Instruction(Op(op), tag)]))
      && (op != OP_TOALTSTACK && op != OP_FROMALTSTACK ==> r == instrs + [Instruction(Op(op), tag)])
  {
  }

  /** With a correct comparison, a FROMALTSTACK directly followed by a
      TOALTSTACK (or the reverse) is a no-op that may be elided. */
  predicate Cancels(instrs: seq<Instruction>, op: byte)
  {
    && instrs != []
    && ((op == OP_TOALTSTACK && instrs[|instrs| - 1].code == Op(OP_FROMALTSTACK))
        || (op == OP_FROMALTSTACK && instrs[|instrs| - 1].code == Op(OP_TOALTSTACK)))
  }

  /** Which peephole rule operator<<(opcodetype) applies: the one the code
      has, or the one it evidently means, which honours OPTIMISER_ON. */
  datatype Peephole = AsWritten | Intended(optimise: bool)

  /** operator<<(opcodetype) under either rule. */
  function AppendOp(instrs: seq<Instruction>, op: byte, tag: nat, rule: Peephole): seq<Instruction>
  {
    match rule
    case AsWritten => AppendOpAsWritten(instrs, op, tag)
    case Intended(optimise) =>
      if optimise && Cancels(instrs, op) then instrs[..|instrs| - 1]
      else instrs + [Instruction(Op(op), tag)]
  }

  /** Feeds a whole request sequence through operator<<: opcodes through
      the peephole, data pushes appended as they are. */
  function AppendAll(instrs: seq<Instruction>, cs: seq<Code>, tag: nat, rule: Peephole): seq<Instruction>
    decreases |cs|
  {
    if cs == [] then instrs
    else
      var next := match cs[0]
        case Op(op) => AppendOp(instrs, op, tag, rule)
        case Data(v) => instrs + [Instruction(Data(v), tag)];
      AppendAll(next, cs[1..], tag, rule)
  }

  /** Emitting a request sequence is emitting its first opcode through the
      peephole, then the rest. */
  lemma AppendAllOp(instrs: seq<Instruction>, op: byte, rest: seq<Code>, tag: nat, rule: Peephole)
    ensures AppendAll(instrs, [Op(op)] + rest, tag, rule)
         == AppendAll(AppendOp(instrs, op, tag, rule), rest, tag, rule)
  {
    assert ([Op(op)] + rest)[0] == Op(op) && ([Op(op)] + rest)[1..] == rest;
  }

  /** The same for a leading data push, which is appended as it is. */
  lemma AppendAllData(instrs: seq<Instruction>, v: seq<byte>, rest: seq<Code>, tag: nat, rule: Peephole)
    ensures AppendAll(instrs, [Data(v)] + rest, tag, rule)
         == AppendAll(instrs + [Instruction(Data(v), tag)], rest, tag, rule)
  {
    assert ([Data(v)] + rest)[0] == Data(v) && ([Data(v)] + rest)[1..] == rest;
  }

  /** Emitting a + b is emitting a, then b. */
  lemma {:induction false} AppendAllConcat(instrs: seq<Instruction>, a: seq<Code>, b: seq<Code>, tag: nat, rule: Peephole)
    ensures AppendAll(instrs, a + b, tag, rule) == AppendAll(AppendAll(instrs, a, tag, rule), b, tag, rule)
    decreases |a|
  {
    if a != [] {
      assert a + b == [a[0]] + (a[1..] + b) && a == [a[0]] + a[1..];
      match a[0] {
        case Op(op) =>
          AppendAllOp(instrs, op, a[1..] + b, tag, rule);
          AppendAllOp(instrs, op, a[1..], tag, rule);
          AppendAllConcat(AppendOp(instrs, op, tag, rule), a[1..], b, tag, rule);
        case Data(v) =>
          AppendAllData(instrs, v, a[1..] + b, tag, rule);
          AppendAllData(instrs, v, a[1..], tag, rule);
          AppendAllConcat(instrs + [Instruction(Data(v), tag)], a[1..], b, tag, rule);
      }
    } else {
      assert a + b == b;
    }
  }

  /** Without the optimiser every request is appended verbatim. */
  lemma {:induction false} AppendAllUnoptimised(instrs: seq<Instruction>, cs: seq<Code>, tag: nat)
    ensures Codes(AppendAll(instrs, cs, tag, Intended(false))) == Codes(instrs) + cs
    decreases |cs|
  {
    if cs != [] {
      var next := instrs + [Instruction(cs[0], tag)];
      assert AppendAll(instrs, cs, tag, Intended(false)) == AppendAll(next, cs[1..], tag, Intended(false)) by {
        match cs[0]
        case Op(op) => assert AppendOp(instrs, op, tag, Intended(false)) == next;
        case Data(v) =>
      }
      CodesAppend(instrs, [Instruction(cs[0], tag)]);
      AppendAllUnoptimised(next, cs[1..], tag);
      assert [cs[0]] + cs[1..] == cs;
    }
  }

  /** The second transfer of a pair undoes the first. */
  lemma TransferUndone(a: byte, b: byte, u: Stacks)
    requires (a == OP_FROMALTSTACK && b == OP_TOALTSTACK) || (a == OP_TOALTSTACK && b == OP_FROMALTSTACK)
    requires Step(Op(a), u).Some?
    ensures Step(Op(b), Step(Op(a), u).value) == Some(u)
  {
    if a == OP_FROMALTSTACK {
      assert (u.main + [u.alt[|u.alt| - 1]])[..|u.main|] == u.main;
      assert u.alt[..|u.alt| - 1] + [u.alt[|u.alt| - 1]] == u.alt;
    } else {
      assert (u.alt + [u.main[|u.main| - 1]])[..|u.alt|] == u.alt;
      assert u.main[..|u.main| - 1] + [u.main[|u.main| - 1]] == u.main;
    }
  }

  /** A FROMALTSTACK/TOALTSTACK pair that runs is the identity. */
  lemma TransferPairIdentity(p: seq<Code>, a: byte, b: byte, s: Stacks)
    requires (a == OP_FROMALTSTACK && b == OP_TOALTSTACK) || (a == OP_TOALTSTACK && b == OP_FROMALTSTACK)
    requires Run(p + [Op(a)] + [Op(b)], s).Some?
    ensures Run(p + [Op(a)] + [Op(b)], s) == Run(p, s)
  {
    RunAppend(p + [Op(a)], [Op(b)], s);
    RunAppend(p, [Op(a)], s);
    var u := Run(p, s).value;
    RunSingle(Op(a), u);
    var v := Step(Op(a), u).value;
    RunSingle(Op(b), v);
    TransferUndone(a, b, u);
  }

  /** The corrected rule never changes what the emitted code computes,
      whenever the unruled code runs at all. */
  lemma AppendOpPreservesRun(instrs: seq<Instruction>, op: byte, tag: nat, rule: Peephole, s: Stacks)
    requires rule.Intended? && Run(Codes(instrs) + [Op(op)], s).Some?
    ensures Run(Codes(AppendOp(instrs, op, tag, rule)), s) == Run(Codes(instrs) + [Op(op)], s)
  {
    if rule.optimise && Cancels(instrs, op) {
      var init := instrs[..|instrs| - 1];
      var last := instrs[|instrs| - 1];
      assert instrs == init + [last];
      CodesAppend(init, [last]);
      TransferPairIdentity(Codes(init), if op == OP_TOALTSTACK then OP_FROMALTSTACK else OP_TOALTSTACK, op, s);
    } else {
      CodesAppend(instrs, [Instruction(Op(op), tag)]);
    }
  }

  /** Lifted to a whole request sequence: the pipeline computes what the
      requests compute, whenever the requests run. */
  lemma {:induction false} AppendAllPreservesRun(instrs: seq<Instruction>, cs: seq<Code>, tag: nat, rule: Peephole, s: Stacks)
    requires rule.Intended? && Run(Codes(instrs) + cs, s).Some?
    ensures Run(Codes(AppendAll(instrs, cs, tag, rule)), s) == Run(Codes(instrs) + cs, s)
    decreases |cs|
  {
    if cs == [] {
      assert Codes(instrs) + cs == Codes(instrs);
    } else {
      var next := match cs[0]
        case Op(op) => AppendOp(instrs, op, tag, rule)
        case Data(v) => instrs + [Instruction(Data(v), tag)];
      assert Codes(instrs) + cs == Codes(instrs) + [cs[0]] + cs[1..];
      RunAppend(Codes(instrs) + [cs[0]], cs[1..], s);
      assert Run(Codes(instrs) + [cs[0]], s).Some?;
      assert Run(Codes(next), s) == Run(Codes(instrs) + [cs[0]], s) by {
        match cs[0]
        case Op(op) => AppendOpPreservesRun(instrs, op, tag, rule, s);
        case Data(v) => CodesAppend(instrs, [Instruction(Data(v), tag)]);
      }
      RunAppendSame(Codes(next), Codes(instrs) + [cs[0]], cs[1..], s);
      AppendAllPreservesRun(next, cs[1..], tag, rule, s);
    }
  }

  /** The as-written rule deletes the DUP of a one-variable read: the
      request FROMALTSTACK, DUP, TOALTSTACK comes out as FROMALTSTACK,
      TOALTSTACK, which leaves nothing extra on the main stack. */
  lemma AsWrittenPeepholeLosesRead(v: Value)
    ensures Codes(AppendAll([], CopyRequests(1, 0), 0, AsWritten))
         == [Op(OP_FROMALTSTACK), Op(OP_TOALTSTACK)]
    ensures Run(CopyRequests(1, 0), Stacks([], [v])) == Some(Stacks([v], [v]))
    ensures Run(Codes(AppendAll([], CopyRequests(1, 0), 0, AsWritten)), Stacks([], [v]))
         == Some(Stacks([], [v]))
  {
    CopyOneRequests();
    AsWrittenCopyOne();
    CopyRequestsCorrect([], [v], 0);
    TransferRoundTrip(v);
  }

  /** The as-written pipeline's code for FROMALTSTACK, DUP, TOALTSTACK:
      the TOALTSTACK takes the DUP's place. */
  lemma AsWrittenCopyOne()
    ensures Codes(AppendAll([], [Op(OP_FROMALTSTACK), Op(OP_DUP), Op(OP_TOALTSTACK)], 0, AsWritten))
         == [Op(OP_FROMALTSTACK), Op(OP_TOALTSTACK)]
  {
    var i1 := [Instruction(Op(OP_FROMALTSTACK), 0)];
    var i2 := i1 + [Instruction(Op(OP_DUP), 0)];
    var i3 := i1 + [Instruction(Op(OP_TOALTSTACK), 0)];
    calc {
      AppendAll([], [Op(OP_FROMALTSTACK), Op(OP_DUP), Op(OP_TOALTSTACK)], 0, AsWritten);
      { assert [Op(OP_FROMALTSTACK), Op(OP_DUP), Op(OP_TOALTSTACK)] == [Op(OP_FROMALTSTACK)] + [Op(OP_DUP), Op(OP_TOALTSTACK)];
        AppendAllOp([], OP_FROMALTSTACK, [Op(OP_DUP), Op(OP_TOALTSTACK)], 0, AsWritten); }
      AppendAll(AppendOp([], OP_FROMALTSTACK, 0, AsWritten), [Op(OP_DUP), Op(OP_TOALTSTACK)], 0, AsWritten);
      { assert AppendOp([], OP_FROMALTSTACK, 0, AsWritten) == i1; }
      AppendAll(i1, [Op(OP_DUP), Op(OP_TOALTSTACK)], 0, AsWritten);
      { assert [Op(OP_DUP), Op(OP_TOALTSTACK)] == [Op(OP_DUP)] + [Op(OP_TOALTSTACK)];
        AppendAllOp(i1, OP_DUP, [Op(OP_TOALTSTACK)], 0, AsWritten);
        assert AppendOp(i1, OP_DUP, 0, AsWritten) == i2; }
      AppendAll(i2, [Op(OP_TOALTSTACK)], 0, AsWritten);
      { assert [Op(OP_TOALTSTACK)] == [Op(OP_TOALTSTACK)] + [];
        AppendAllOp(i2, OP_TOALTSTACK, [], 0, AsWritten);
        assert i2[..|i2| - 1] == i1;
        assert AppendOp(i2, OP_TOALTSTACK, 0, AsWritten) == i3; }
      AppendAll(i3, [], 0, AsWritten);
      i3;
    }
    CodesAppend(i1, [Instruction(Op(OP_TOALTSTACK), 0)]);
  }

  /** Reading slot 0 of 1 requests FROMALTSTACK, DUP, TOALTSTACK. */
  lemma CopyOneRequests()
    ensures CopyRequests(1, 0) == [Op(OP_FROMALTSTACK), Op(OP_DUP), Op(OP_TOALTSTACK)]
  {
    assert Repeat([Op(OP_FROMALTSTACK)], 1) == [Op(OP_FROMALTSTACK)];
    assert Repeat([Op(OP_SWAP), Op(OP_TOALTSTACK)], 0) == [];
  }

  /** Taking the only alt-stack value across and back leaves both stacks
      as they were. */
  lemma TransferRoundTrip(v: Value)
    ensures Run([Op(OP_FROMALTSTACK), Op(OP_TOALTSTACK)], Stacks([], [v])) == Some(Stacks([], [v]))
  {
    var t := Stacks([v], []);
    assert [v][..0] == [] && [] + [v] == [v];
    assert Step(Op(OP_FROMALTSTACK), Stacks([], [v])) == Some(t);
    RunPair(Op(OP_FROMALTSTACK), Op(OP_TOALTSTACK), Stacks([], [v]), t);
    assert Step(Op(OP_TOALTSTACK), t) == Some(Stacks([], [v]));
  }

  /** The instruction pipeline with the statement table it shares with the
      compiler and the compiler's option word. */
  class InstructionPipeline {
    var instrs: seq<Instruction>
    var stmts: seq<Stmt>
    var options: Options

    constructor(options: Options)
      ensures this.instrs == [] && this.stmts == [] && this.options == options
    {
      this.instrs := [];
      this.stmts := [];
      this.options := options;
    }

    /** declare_stmt: only appends to the statement table. */
    method DeclareStmt(s: Stmt)
      modifies this
      ensures stmts == old(stmts) + [s]
      ensures instrs == old(instrs) && options == old(options)
    {
      stmts := stmts + [s];
    }

    /** operator<<(opcodetype) as written: the option word is shadowed by
        a local that is always OPTIMISER_ON, and the comparison with back()
        looks only at the instruction's kind. */
    method EmitOp(op: byte)
      modifies this
      ensures instrs == AppendOp(old(instrs), op, Tag(stmts), AsWritten)
      ensures stmts == old(stmts) && options == old(options)
    {
      var options := OPTIMISER_ON;
      if options & OPTIMISER_ON == OPTIMISER_ON {
        if op == OP_TOALTSTACK {
          if instrs != [] && EqualsOpcodeAsWritten(instrs[|instrs| - 1], OP_FROMALTSTACK) {
            instrs := instrs[..|instrs| - 1];
          }
        } else if op == OP_FROMALTSTACK {
          if instrs != [] && EqualsOpcodeAsWritten(instrs[|instrs| - 1], OP_TOALTSTACK) {
            instrs := instrs[..|instrs| - 1];
          }
        }
      }
      instrs := instrs + [Instruction(Op(op), Tag(stmts))];
    }

    /** operator<<(valtype) and operator<<(CScriptNum): a data push, never
        rewritten. */
    method EmitData(v: seq<byte>)
      modifies this
      ensures instrs == old(instrs) + [Instruction(Data(v), Tag(stmts))]
      ensures stmts == old(stmts) && options == old(options)
    {
      instrs := instrs + [Instruction(Data(v), Tag(stmts))];
    }

    /** operator<<(int): OP_0 for zero, bypassing the peephole, and the
        CScriptNum bytes of n otherwise. */
    method EmitInt(n: int)
      modifies this
      ensures instrs == old(instrs) + [Instruction(IntCode(n), Tag(stmts))]
      ensures stmts == old(stmts) && options == old(options)
    {
      if n == 0 {
        instrs := instrs + [Instruction(Op(OP_0), Tag(stmts))];
      } else {
        instrs := instrs + [Instruction(Data(ScriptNumBytes(n)), Tag(stmts))];
      }
    }

    /** Emits a request sequence, opcode by opcode. */
    method EmitAll(cs: seq<Code>)
      modifies this
      ensures instrs == AppendAll(old(instrs), cs, Tag(stmts), AsWritten)
      ensures stmts == old(stmts) && options == old(options)
    {
      var k := 0;
      while k < |cs|
        invariant 0 <= k <= |cs|
        invariant stmts == old(stmts) && options == old(options)
        decreases |cs| - k
        invariant AppendAll(old(instrs), cs, Tag(stmts), AsWritten)
               == AppendAll(instrs, cs[k..], Tag(stmts), AsWritten)
      {
        assert cs[k..][0] == cs[k] && cs[k..][1..] == cs[k + 1..];
        match cs[k] {
          case Op(op) => EmitOp(op);
          case Data(v) => EmitData(v);
        }
        k := k + 1;
      }
    }

    /** A counted loop of emissions: cs, count times. */
    method EmitTimes(cs: seq<Code>, count: nat)
      modifies this
      ensures instrs == AppendAll(old(instrs), Repeat(cs, count), Tag(stmts), AsWritten)
      ensures stmts == old(stmts) && options == old(options)
    {
      var k := 0;
      while k < count
        invariant 0 <= k <= count
        invariant stmts == old(stmts) && options == old(options)
        invariant AppendAll(old(instrs), Repeat(cs, count), Tag(stmts), AsWritten)
               == AppendAll(instrs, Repeat(cs, count - k), Tag(stmts), AsWritten)
      {
        AppendAllConcat(instrs, cs, Repeat(cs, count - k - 1), Tag(stmts), AsWritten);
        EmitAll(cs);
        k := k + 1;
      }
    }
  }

  /** The code operator<<(int) appends: zero is OP_0, anything else is
      pushed as its CScriptNum bytes; either way it pushes the number. */
  function IntCode(n: int): (c: Code)
    ensures n == 0 <==> c == Op(OP_0)
    ensures c.Data? ==> ScriptNumValue(c.bytes) == n
  {
    if n == 0 then Op(OP_0) else (ScriptNumRoundTrip(n); Data(ScriptNumBytes(n)))
  }
}
