// Bitcoin script library pieces the compiler and the assembler rely on:
// opcode values, the CScriptNum byte encoding, hex helpers, EncodeOP_N,
// GetOpName, ReadLE16/32 and the CScript push serialisation.
// The library sources themselves (script.h, script.cpp, utilstrencodings)
// are not part of this model; the definitions here follow Bitcoin's.

module Script {

  import opened Wrappers

  newtype byte = x: int | 0 <= x < 256

  // Opcode values used by the compiler, the builtin tables and the assembler.
  const OP_0: byte := 0x00
  const OP_PUSHDATA1: byte := 0x4c
  const OP_PUSHDATA2: byte := 0x4d
  const OP_PUSHDATA4: byte := 0x4e
  const OP_1NEGATE: byte := 0x4f
  const OP_1: byte := 0x51
  const OP_16: byte := 0x60
  const OP_IF: byte := 0x63
  const OP_NOTIF: byte := 0x64
  const OP_ELSE: byte := 0x67
  const OP_ENDIF: byte := 0x68
  const OP_VERIFY: byte := 0x69
  const OP_RETURN: byte := 0x6a
  const OP_TOALTSTACK: byte := 0x6b
  const OP_FROMALTSTACK: byte := 0x6c
  const OP_DEPTH: byte := 0x74
  const OP_DROP: byte := 0x75
  const OP_DUP: byte := 0x76
  const OP_ROLL: byte := 0x7a
  const OP_SWAP: byte := 0x7c
  const OP_CAT: byte := 0x7e
  const OP_SPLIT: byte := 0x7f
  const OP_NUM2BIN: byte := 0x80
  const OP_BIN2NUM: byte := 0x81
  const OP_SIZE: byte := 0x82
  const OP_XOR: byte := 0x86
  const OP_EQUAL: byte := 0x87
  const OP_ABS: byte := 0x90
  const OP_0NOTEQUAL: byte := 0x92
  const OP_ADD: byte := 0x93
  const OP_SUB: byte := 0x94
  const OP_MUL: byte := 0x95
  const OP_DIV: byte := 0x96
  const OP_MOD: byte := 0x97
  const OP_LESSTHAN: byte := 0x9f
  const OP_GREATERTHAN: byte := 0xa0
  const OP_LESSTHANOREQUAL: byte := 0xa1
  const OP_GREATERTHANOREQUAL: byte := 0xa2
  const OP_MIN: byte := 0xa3
  const OP_MAX: byte := 0xa4
  const OP_WITHIN: byte := 0xa5
  const OP_RIPEMD160: byte := 0xa6
  const OP_SHA1: byte := 0xa7
  const OP_SHA256: byte := 0xa8
  const OP_HASH160: byte := 0xa9
  const OP_HASH256: byte := 0xaa
  const OP_CHECKSIG: byte := 0xac
  const OP_CHECKSIGVERIFY: byte := 0xad
  const OP_CHECKMULTISIG: byte := 0xae
  const OP_CHECKMULTISIGVERIFY: byte := 0xaf
  const OP_CHECKLOCKTIMEVERIFY: byte := 0xb1
  const OP_CHECKSEQUENCEVERIFY: byte := 0xb2
  const OP_NOP4: byte := 0xb3
  /** One past the last defined opcode. */
  const FIRST_UNDEFINED_OP_VALUE: int := 0xba

  /** Names as GetOpName prints them; anything absent is "OP_UNKNOWN". */
  const OpNames: map<byte, string> := map[
    0x00 := "0", 0x4c := "OP_PUSHDATA1", 0x4d := "OP_PUSHDATA2", 0x4e := "OP_PUSHDATA4",
    0x4f := "-1", 0x50 := "OP_RESERVED",
    0x51 := "1", 0x52 := "2", 0x53 := "3", 0x54 := "4", 0x55 := "5", 0x56 := "6",
    0x57 := "7", 0x58 := "8", 0x59 := "9", 0x5a := "10", 0x5b := "11", 0x5c := "12",
    0x5d := "13", 0x5e := "14", 0x5f := "15", 0x60 := "16",
    0x61 := "OP_NOP", 0x62 := "OP_VER", 0x63 := "OP_IF", 0x64 := "OP_NOTIF",
    0x65 := "OP_VERIF", 0x66 := "OP_VERNOTIF", 0x67 := "OP_ELSE", 0x68 := "OP_ENDIF",
    0x69 := "OP_VERIFY", 0x6a := "OP_RETURN", 0x6b := "OP_TOALTSTACK", 0x6c := "OP_FROMALTSTACK",
    0x6d := "OP_2DROP", 0x6e := "OP_2DUP", 0x6f := "OP_3DUP", 0x70 := "OP_2OVER",
    0x71 := "OP_2ROT", 0x72 := "OP_2SWAP", 0x73 := "OP_IFDUP", 0x74 := "OP_DEPTH",
    0x75 := "OP_DROP", 0x76 := "OP_DUP", 0x77 := "OP_NIP", 0x78 := "OP_OVER",
    0x79 := "OP_PICK", 0x7a := "OP_ROLL", 0x7b := "OP_ROT", 0x7c := "OP_SWAP",
    0x7d := "OP_TUCK", 0x7e := "OP_CAT", 0x7f := "OP_SPLIT", 0x80 := "OP_NUM2BIN",
    0x81 := "OP_BIN2NUM", 0x82 := "OP_SIZE", 0x83 := "OP_INVERT", 0x84 := "OP_AND",
    0x85 := "OP_OR", 0x86 := "OP_XOR", 0x87 := "OP_EQUAL", 0x88 := "OP_EQUALVERIFY",
    0x89 := "OP_RESERVED1", 0x8a := "OP_RESERVED2", 0x8b := "OP_1ADD", 0x8c := "OP_1SUB",
    0x8d := "OP_2MUL", 0x8e := "OP_2DIV", 0x8f := "OP_NEGATE", 0x90 := "OP_ABS",
    0x91 := "OP_NOT", 0x92 := "OP_0NOTEQUAL", 0x93 := "OP_ADD", 0x94 := "OP_SUB",
    0x95 := "OP_MUL", 0x96 := "OP_DIV", 0x97 := "OP_MOD", 0x98 := "OP_LSHIFT",
    0x99 := "OP_RSHIFT", 0x9a := "OP_BOOLAND", 0x9b := "OP_BOOLOR", 0x9c := "OP_NUMEQUAL",
    0x9d := "OP_NUMEQUALVERIFY", 0x9e := "OP_NUMNOTEQUAL", 0x9f := "OP_LESSTHAN",
    0xa0 := "OP_GREATERTHAN", 0xa1 := "OP_LESSTHANOREQUAL", 0xa2 := "OP_GREATERTHANOREQUAL",
    0xa3 := "OP_MIN", 0xa4 := "OP_MAX", 0xa5 := "OP_WITHIN", 0xa6 := "OP_RIPEMD160",
    0xa7 := "OP_SHA1", 0xa8 := "OP_SHA256", 0xa9 := "OP_HASH160", 0xaa := "OP_HASH256",
    0xab := "OP_CODESEPARATOR", 0xac := "OP_CHECKSIG", 0xad := "OP_CHECKSIGVERIFY",
    0xae := "OP_CHECKMULTISIG", 0xaf := "OP_CHECKMULTISIGVERIFY", 0xb0 := "OP_NOP1",
    0xb1 := "OP_CHECKLOCKTIMEVERIFY", 0xb2 := "OP_CHECKSEQUENCEVERIFY", 0xb3 := "OP_NOP4",
    0xb4 := "OP_NOP5", 0xb5 := "OP_NOP6", 0xb6 := "OP_NOP7", 0xb7 := "OP_NOP8",
    0xb8 := "OP_NOP9", 0xb9 := "OP_NOP10"
  ]

  function GetOpName(op: byte): (name: string)
    ensures op in OpNames ==> name == OpNames[op]
    ensures op !in OpNames ==> name == "OP_UNKNOWN"
  {
    if op in OpNames then OpNames[op] else "OP_UNKNOWN"
  }

  // ---------------------------------------------------------------------
  // CScriptNum: minimal little-endian sign-magnitude encoding.

  /** 256^k */
  function Pow256(k: nat): (r: nat)
    ensures r >= 1
  {
    if k == 0 then 1 else 256 * Pow256(k - 1)
  }

  /** Unsigned little-endian value of a byte string. */
  function LittleEndian(s: seq<byte>): nat
  {
    if s == [] then 0 else s[0] as nat + 256 * LittleEndian(s[1..])
  }

  /** Little-endian bytes of a magnitude, without trailing zero bytes. */
  function Magnitude(a: nat): (s: seq<byte>)
    ensures a == 0 <==> s == []
    ensures s != [] ==> s[|s| - 1] != 0
  {
    if a == 0 then [] else [(a % 256) as byte] + Magnitude(a / 256)
  }

  /** CScriptNum::serialize. */
  function ScriptNumBytes(n: int): (s: seq<byte>)
    ensures n == 0 <==> s == []
  {
    var m := Magnitude(if n < 0 then -n else n);
    if m == [] then []
    else if m[|m| - 1] >= 0x80 then m + [if n < 0 then 0x80 else 0x00]
    else if n < 0 then m[..|m| - 1] + [m[|m| - 1] + 0x80]
    else m
  }

  /** The value CScriptNum reads back from a byte string (no size limit). */
  function ScriptNumValue(s: seq<byte>): int
  {
    if s == [] then 0
    else if s[|s| - 1] >= 0x80 then
      -(LittleEndian(s[..|s| - 1]) + (s[|s| - 1] as int - 0x80) * Pow256(|s| - 1))
    else LittleEndian(s)
  }

  lemma {:induction false} LittleEndianMagnitude(a: nat)
    ensures LittleEndian(Magnitude(a)) == a
  {
    if a != 0 {
      LittleEndianMagnitude(a / 256);
    }
  }

  lemma {:induction false} LittleEndianSnoc(s: seq<byte>, b: byte)
    ensures LittleEndian(s + [b]) == LittleEndian(s) + b as int * Pow256(|s|)
  {
    if s == [] {
    } else {
      assert (s + [b])[1..] == s[1..] + [b];
      LittleEndianSnoc(s[1..], b);
    }
  }

  /** Decoding a serialised CScriptNum gives the number back. */
  lemma ScriptNumRoundTrip(n: int)
    ensures ScriptNumValue(ScriptNumBytes(n)) == n
  {
    var a: nat := if n < 0 then -n else n;
    var m := Magnitude(a);
    LittleEndianMagnitude(a);
    if m != [] {
      var k := |m| - 1;
      assert m == m[..k] + [m[k]];
      LittleEndianSnoc(m[..k], m[k]);
      if m[k] >= 0x80 {
        var b: byte := if n < 0 then 0x80 else 0x00;
        LittleEndianSnoc(m, b);
        assert (m + [b])[..|m|] == m;
      } else if n < 0 {
        var s := m[..k] + [m[k] + 0x80];
        assert s[..k] == m[..k];
      }
    }
  }

  // ---------------------------------------------------------------------
  // Hex helpers (utilstrencodings).

  /** HexDigit: the value of a hex digit, or -1. */
  function HexDigit(c: char): (v: int)
    ensures -1 <= v < 16
  {
    if '0' <= c <= '9' then c as int - '0' as int
    else if 'a' <= c <= 'f' then c as int - 'a' as int + 10
    else if 'A' <= c <= 'F' then c as int - 'A' as int + 10
    else -1
  }

  predicate IsXDigit(c: char) { HexDigit(c) >= 0 }

  predicate IsSpace(c: char)
  {
    c == ' ' || c == '\t' || c == '\n' || c == '\r' || c as int == 11 || c as int == 12
  }

  /** IsHex: non-empty, even length, hex digits only. */
  predicate IsHex(s: string)
  {
    |s| > 0 && |s| % 2 == 0 && forall i :: 0 <= i < |s| ==> IsXDigit(s[i])
  }

  /** ParseHex: reads digit pairs, skipping blanks before a pair, and stops
      at the first character that does not complete a pair. */
  function ParseHex(s: string): seq<byte>
    decreases |s|
  {
    if s == [] then []
    else if IsSpace(s[0]) then ParseHex(s[1..])
    else if |s| >= 2 && IsXDigit(s[0]) && IsXDigit(s[1]) then
      [(16 * HexDigit(s[0]) + HexDigit(s[1])) as byte] + ParseHex(s[2..])
    else []
  }

  /** The lower-case hex digit for 0 <= d < 16. */
  function HexChar(d: int): (c: char)
    requires 0 <= d < 16
    ensures HexDigit(c) == d
  {
    if d < 10 then ('0' as int + d) as char else ('a' as int + d - 10) as char
  }

  /** HexStr: two lower-case digits per byte. */
  function HexStr(b: seq<byte>): (s: string)
    ensures |s| == 2 * |b|
  {
    if b == [] then []
    else [HexChar(b[0] as int / 16), HexChar(b[0] as int % 16)] + HexStr(b[1..])
  }

  lemma {:induction false} ParseHexLength(s: string)
    requires |s| % 2 == 0 && forall i :: 0 <= i < |s| ==> IsXDigit(s[i])
    ensures |ParseHex(s)| == |s| / 2
  {
    if s != [] {
      assert !IsSpace(s[0]) by { assert IsXDigit(s[0]); }
      ParseHexLength(s[2..]);
    }
  }

  /** HexStr and ParseHex are inverse. */
  lemma {:induction false} ParseHexOfHexStr(b: seq<byte>)
    ensures ParseHex(HexStr(b)) == b
  {
    if b != [] {
      var s := HexStr(b);
      var hi, lo := b[0] as int / 16, b[0] as int % 16;
      assert s[0] == HexChar(hi) && s[1] == HexChar(lo);
      assert s[2..] == HexStr(b[1..]);
      ParseHexOfHexStr(b[1..]);
    }
  }

  // ---------------------------------------------------------------------
  // Small-number opcodes and little-endian reads.

  /** CScript::EncodeOP_N: asserts 0 <= n <= 16; None stands for the
      failed assertion. */
  function EncodeOpN(n: int): (r: Option<byte>)
    ensures r.Some? <==> 0 <= n <= 16
    ensures r.Some? ==> (n == 0 ==> r.value == OP_0) && (n > 0 ==> r.value as int == OP_1 as int + n - 1)
  {
    if 0 <= n <= 16 then Some(if n == 0 then OP_0 else (OP_1 as int + n - 1) as byte) else None
  }

  function ReadLE16(s: seq<byte>): (v: nat)
    requires |s| >= 2
    ensures v < 0x1_0000
  {
    s[0] as nat + 256 * s[1] as nat
  }

  function ReadLE32(s: seq<byte>): (v: nat)
    requires |s| >= 4
    ensures v < 0x1_0000_0000
  {
    s[0] as nat + 256 * (s[1] as nat + 256 * (s[2] as nat + 256 * s[3] as nat))
  }

  /** Little-endian bytes of v in exactly k bytes (v < 256^k). */
  function LittleEndianBytes(v: nat, k: nat): (s: seq<byte>)
    ensures |s| == k
  {
    if k == 0 then [] else [(v % 256) as byte] + LittleEndianBytes(v / 256, k - 1)
  }

  /** CScript << vector: the length prefix followed by the data. */
  function PushPrefix(len: nat): (p: seq<byte>)
    ensures 1 <= |p| <= 5
    ensures len < OP_PUSHDATA1 as int ==> p == [len as byte]
  {
    if len < OP_PUSHDATA1 as int then [len as byte]
    else if len <= 0xff then [OP_PUSHDATA1, len as byte]
    else if len <= 0xffff then [OP_PUSHDATA2] + LittleEndianBytes(len, 2)
    else [OP_PUSHDATA4] + LittleEndianBytes(len % 0x1_0000_0000, 4)
  }

  function PushData(data: seq<byte>): (r: seq<byte>)
    ensures |r| > |data| && r[|r| - |data|..] == data
    ensures |data| < OP_PUSHDATA1 as int ==> r == [|data| as byte] + data
  {
    PushPrefix(|data|) + data
  }

  /** CScript << int64: OP_1NEGATE, OP_0 or OP_1..OP_16 for small values,
      otherwise a data push of the CScriptNum bytes. */
  function PushInt64(n: int): (r: seq<byte>)
    ensures r != []
  {
    if n == -1 then [OP_1NEGATE]
    else if n == 0 then [OP_0]
    else if 1 <= n <= 16 then [(OP_1 as int + n - 1) as byte]
    else PushData(ScriptNumBytes(n))
  }

  // ---------------------------------------------------------------------
  // The C library's atoi.

  predicate IsDigit(c: char) { '0' <= c <= '9' }

  /** The number of leading decimal digits of s. */
  function DigitRun(s: string): (k: nat)
    ensures k <= |s|
    ensures forall i :: 0 <= i < k ==> IsDigit(s[i])
    ensures k < |s| ==> !IsDigit(s[k])
  {
    if s != [] && IsDigit(s[0]) then 1 + DigitRun(s[1..]) else 0
  }

  /** The value of a string of decimal digits. */
  function DecimalValue(s: string): nat
    requires forall i :: 0 <= i < |s| ==> IsDigit(s[i])
  {
    if s == [] then 0
    else
      assert IsDigit(s[|s| - 1]);
      10 * DecimalValue(s[..|s| - 1]) + (s[|s| - 1] as int - '0' as int)
  }

  /** The range of a 32-bit C int. */
  const INT_MIN: int := -0x8000_0000
  const INT_MAX: int := 0x7fff_ffff

  predicate IsInt(n: int) { INT_MIN <= n <= INT_MAX }

  /** An integer converted to a 32-bit int: reduced modulo 2^32 into the
      int range (what every compiler does, and C++20 defines). */
  function Int32(n: int): (r: int)
    ensures IsInt(r)
    ensures (n - r) % 0x1_0000_0000 == 0
    ensures IsInt(n) ==> r == n
  {
    var m := n % 0x1_0000_0000;
    if m > INT_MAX then m - 0x1_0000_0000 else m
  }

  /** What calling atoi on a literal whose value an int cannot hold is
      taken to be: C leaves the result undefined. */
  const AtoiOutOfRange := "atoi: value outside the range of int"

  /** atoi: leading white space, an optional sign, then the longest run of
      digits; no digits gives 0.  The value is the unbounded one: C's atoi
      agrees with it exactly when IsInt holds of it, and its callers check
      that before using it. */
  function Atoi(s: string): int
  {
    if s != [] && IsSpace(s[0]) then Atoi(s[1..])
    else if s != [] && (s[0] == '-' || s[0] == '+') then
      var v: int := DecimalValue(s[1..][..DigitRun(s[1..])]);
      if s[0] == '-' then -v else v
    else DecimalValue(s[..DigitRun(s)])
  }

  /** On a string of digits Atoi is the decimal value (which is C's atoi
      when that value is at most INT_MAX). */
  lemma AtoiOfDigits(s: string)
    requires forall i :: 0 <= i < |s| ==> IsDigit(s[i])
    ensures Atoi(s) == DecimalValue(s) && Atoi(s) >= 0
  {
    if s != [] {
      assert !IsSpace(s[0]) && s[0] != '-' && s[0] != '+';
    }
    assert DigitRun(s) == |s| by { DigitRunAll(s); }
    assert s[..|s|] == s;
  }

  lemma {:induction false} DigitRunAll(s: string)
    requires forall i :: 0 <= i < |s| ==> IsDigit(s[i])
    ensures DigitRun(s) == |s|
  {
    if s != [] {
      DigitRunAll(s[1..]);
    }
  }
}
