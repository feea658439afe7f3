// The builtin function tables (HelloDll/parser.cpp): name -> (number of
// arguments, opcode).  An arity of -1 means "any number, up to the first
// closing parenthesis".

module Builtins {

  import opened Wrappers
  import opened Script

  datatype FunctionInfo = FunctionInfo(arity: int, opcode: byte)

  /** special_functions: the statements that return nothing. */
  const SpecialFunctions: map<string, FunctionInfo> := map[
    "Verify" := FunctionInfo(1, OP_VERIFY),
    "CheckSequenceVerify" := FunctionInfo(1, OP_CHECKSEQUENCEVERIFY),
    "CheckLocktimeVerify" := FunctionInfo(1, OP_CHECKLOCKTIMEVERIFY),
    "CheckSigVerify" := FunctionInfo(2, OP_CHECKSIGVERIFY),
    "CheckMultiSigVerify" := FunctionInfo(-1, OP_CHECKMULTISIGVERIFY),
    "Return" := FunctionInfo(1, OP_RETURN)
  ]

  /** native_functions: the builtins that produce a value. */
  const NativeFunctions: map<string, FunctionInfo> := map[
    "RIPEMD160" := FunctionInfo(1, OP_RIPEMD160),
    "SHA1" := FunctionInfo(1, OP_SHA1),
    "SHA256" := FunctionInfo(1, OP_SHA256),
    "HASH160" := FunctionInfo(1, OP_HASH160),
    "HASH256" := FunctionInfo(1, OP_HASH256),
    "CheckSig" := FunctionInfo(2, OP_CHECKSIG),
    "CheckMultiSig" := FunctionInfo(-1, OP_CHECKMULTISIG),
    "split" := FunctionInfo(2, OP_SPLIT),
    "cat" := FunctionInfo(2, OP_CAT),
    "xor" := FunctionInfo(2, OP_XOR),
    "Bin2Num" := FunctionInfo(1, OP_BIN2NUM),
    "Num2Bin" := FunctionInfo(1, OP_NUM2BIN),
    "abs" := FunctionInfo(1, OP_ABS),
    "max" := FunctionInfo(2, OP_MAX),
    "min" := FunctionInfo(2, OP_MIN),
    "within" := FunctionInfo(3, OP_WITHIN),
    "depth" := FunctionInfo(0, OP_DEPTH),
    "size" := FunctionInfo(1, OP_SIZE)
  ]

  /** unordered_map::find. */
  function Lookup(table: map<string, FunctionInfo>, name: string): (r: Option<FunctionInfo>)
    ensures r.Some? <==> name in table
    ensures r.Some? ==> r.value == table[name]
  {
    if name in table then Some(table[name]) else None
  }

  /** No builtin is both a statement and a value, so eat_statement's
      two table checks never both succeed. */
  lemma TablesDisjoint()
    ensures forall n :: n in SpecialFunctions ==> n !in NativeFunctions
  {
    assert SpecialFunctions.Keys == {"Verify", "CheckSequenceVerify", "CheckLocktimeVerify",
                                     "CheckSigVerify", "CheckMultiSigVerify", "Return"};
  }
}
