// Types shared by the Hello compiler: source positions and statement spans,
// the instruction sum type, compiler option bits, tokens and the failures
// the compiler reports (Common/Internals.h and the type part of
// HelloDll/tokeniser.h).

module Internals {

  import opened Script

  /** size_t's largest value; `stmts.size() - 1` wraps to it on an empty table. */
  const SIZE_MAX: nat := 0xFFFF_FFFF_FFFF_FFFF

  /** The conversion of an int to size_t: modulo 2^64, so -1 becomes
      SIZE_MAX. */
  function SizeT(x: int): (r: nat)
    ensures r <= SIZE_MAX
    ensures 0 <= x <= SIZE_MAX ==> r == x
    ensures -(SIZE_MAX + 1) <= x < 0 ==> r == x + SIZE_MAX + 1
  {
    x % (SIZE_MAX + 1)
  }

  /** A streampoint: stream offset, line number (0-based) and column. */
  datatype StreamPoint = StreamPoint(offset: int, line: nat, column: nat)

  /** A stmt: the source span of one top-level construct. */
  datatype Stmt = Stmt(start: StreamPoint, end: StreamPoint)

  /** The payload of an instruction: exactly one of an opcode or a data push. */
  datatype Code = Op(opcode: byte) | Data(bytes: seq<byte>)

  /** An instruction and the index, in the statement table, of the
      statement that generated it. */
  datatype Instruction = Instruction(code: Code, generatingStmt: nat)

  // Hello_compiler_options: one bit each.
  type Options = bv32
  const ASSERTS_ON: Options := 0x01
  const OPTIMISER_ON: Options := 0x02
  const OUTPUT_ANNOTATED_SCRIPT: Options := 0x04

  predicate AssertsOn(options: Options) { options & ASSERTS_ON == ASSERTS_ON }

  /** token::token_type.  Undefined marks an empty pushback slot. */
  datatype TokenKind = Undefined | Integer | Hex | Bool | Std | Extern | Name

  datatype Token = Token(value: string, kind: TokenKind)
  {
    predicate IsValid() { kind != Undefined }

    /** token == token: compares the types only, and never holds for Undefined. */
    predicate SameKind(other: Token) { kind == other.kind && kind != Undefined }

    /** token == string: a _std token with exactly that text. */
    predicate Is(text: string) { kind == Std && value == text }
  }

  const EmptyToken: Token := Token("", Undefined)

  /** What a parse_error or runtime_error says. */
  datatype Complaint =
    | UnexpectedEof                        // "Unexpected EOF."
    | OddHexDigits                         // hex constant with an odd digit count
    | UnexpectedCharacter(c: char)         // a character no token starts with
    | UnexpectedToken(token: Token)         // eat_token_type on a token of the wrong type
    | UnexpectedText(text: string)         // eat_comparison without a comparison operator
    | Expected(expected: string, found: string) // eat(token) on a token of the wrong type
    | PushbackOccupied                     // push_token while a token is buffered
    | UninitialisedVariable(name: string)  // reading a variable never assigned

  /** How an operation of the compiler can end other than normally:
      a parse_error (with its position), a runtime_error, an exception
      that is neither (std::out_of_range), or a failed assert / undefined
      behaviour, which ends the process. */
  datatype Failure =
    | ParseError(what: Complaint, pos: StreamPoint)
    | RuntimeError(what: Complaint)
    | OutOfRange
    | Abort(reason: string)
}
