// The script assembler of bitcoin/src/core_read.cpp: populate_opcode_names_map
// fills the name table once, and ParseScript turns a line of words into
// script bytes, checking that every declared push length is honoured.
// The static map of ParseScript is an object passed to it; boost::split,
// GetOpName, EncodeOP_N and the CScript << operators are functions of
// modules Script and CoreRead.

module CoreRead {

  import opened Wrappers
  import opened Script

  // ---------------------------------------------------------------------
  // The opcode name table.

  /** The name GetOpName prints for op, with "OP_" in front if it has none. */
  function FullName(op: byte): (name: string)
    ensures |name| >= 3 && name[..3] == "OP_"
  {
    var n := GetOpName(op);
    if |n| >= 3 && n[..3] == "OP_" then n else "OP_" + n
  }

  lemma FullNameStart(op: byte)
    ensures FullName(op)[0] == 'O' && FullName(op)[1] == 'P' && FullName(op)[2] == '_'
  {
    var name := FullName(op);
    assert name[..3][0] == name[0] && name[..3][1] == name[1] && name[..3][2] == name[2];
  }

  /** The full name without its "OP_" (replace_first of the prefix). */
  function ShortName(op: byte): (name: string)
    ensures FullName(op) == "OP_" + name
  {
    FullName(op)[3..]
  }

  /** GetOpName knows op. */
  predicate Known(op: byte)
  {
    GetOpName(op) != "OP_UNKNOWN"
  }

  /** One turn of the loop of populate_opcode_names_map. */
  function Register(m: map<string, byte>, op: byte): map<string, byte>
  {
    if !Known(op) then m else m[FullName(op) := op][ShortName(op) := op]
  }

  /** Register written out as the loop body spells it. */
  lemma RegisterSpelled(m: map<string, byte>, op: byte)
    ensures var n := GetOpName(op);
      var full := if |n| >= 3 && n[..3] == "OP_" then n else "OP_" + n;
      Register(m, op) == if n == "OP_UNKNOWN" then m else m[full := op][full[3..] := op]
  {
  }

  /** The loop over lo <= op < hi. */
  function RegisterRange(m: map<string, byte>, lo: int, hi: int): map<string, byte>
    requires 0 <= lo && hi <= 256
    decreases hi - lo
  {
    if lo >= hi then m else RegisterRange(Register(m, lo as byte), lo + 1, hi)
  }

  /** The table populate_opcode_names_map builds in an empty map. */
  function AllNames(): map<string, byte>
  {
    RegisterRange(map[], OP_PUSHDATA1 as int, FIRST_UNDEFINED_OP_VALUE)
  }

  /** Every entry names its opcode, by its full or its short name, and the
      opcode is a known one of the range the loop visits. */
  predicate Sound(m: map<string, byte>, hi: int)
  {
    forall k :: k in m ==>
      OP_PUSHDATA1 as int <= m[k] as int < hi && Known(m[k]) && (k == FullName(m[k]) || k == ShortName(m[k]))
  }

  lemma {:induction false} RegisterRangeSound(m: map<string, byte>, lo: int, hi: int)
    requires OP_PUSHDATA1 as int <= lo && hi <= 256 && Sound(m, lo)
    ensures Sound(RegisterRange(m, lo, hi), if lo <= hi then hi else lo)
    decreases hi - lo
  {
    if lo < hi {
      RegisterSound(m, lo as byte);
      RegisterRangeSound(Register(m, lo as byte), lo + 1, hi);
    }
  }

  /** One turn keeps the table sound, one opcode further on. */
  lemma RegisterSound(m: map<string, byte>, op: byte)
    requires OP_PUSHDATA1 <= op && Sound(m, op as int)
    ensures Sound(Register(m, op), op as int + 1)
  {
    var m1 := Register(m, op);
    forall k | k in m1
      ensures OP_PUSHDATA1 as int <= m1[k] as int < op as int + 1 && Known(m1[k])
      ensures k == FullName(m1[k]) || k == ShortName(m1[k])
    {
      if k in m && k != FullName(op) && k != ShortName(op) {
        assert m1[k] == m[k];
      }
    }
  }

  lemma {:induction false} RegisterRangeGrows(m: map<string, byte>, lo: int, hi: int)
    requires 0 <= lo && hi <= 256
    ensures m.Keys <= RegisterRange(m, lo, hi).Keys
    decreases hi - lo
  {
    if lo < hi {
      RegisterRangeGrows(Register(m, lo as byte), lo + 1, hi);
    }
  }

  lemma {:induction false} RegisterRangeComplete(m: map<string, byte>, lo: int, hi: int)
    requires 0 <= lo && hi <= 256
    ensures forall op: byte :: lo <= op as int < hi && Known(op) ==>
              FullName(op) in RegisterRange(m, lo, hi) && ShortName(op) in RegisterRange(m, lo, hi)
    decreases hi - lo
  {
    if lo < hi {
      var m1 := Register(m, lo as byte);
      RegisterRangeGrows(m1, lo + 1, hi);
      RegisterRangeComplete(m1, lo + 1, hi);
      var r := RegisterRange(m, lo, hi);
      assert r == RegisterRange(m1, lo + 1, hi);
      forall op: byte | lo <= op as int < hi && Known(op)
        ensures FullName(op) in r && ShortName(op) in r
      {
        if op as int == lo {
          assert FullName(op) in m1 && ShortName(op) in m1;
        }
      }
    }
  }

  /** m holds exactly the full and the short names of the known opcodes
      from OP_PUSHDATA1 up to FIRST_UNDEFINED_OP_VALUE, and each name leads
      to an opcode that bears it. */
  predicate NameTable(m: map<string, byte>)
  {
    && (forall op: byte :: OP_PUSHDATA1 as int <= op as int < FIRST_UNDEFINED_OP_VALUE && Known(op) ==>
          FullName(op) in m && ShortName(op) in m)
    && Sound(m, FIRST_UNDEFINED_OP_VALUE)
  }

  /** The populated table is such a table. */
  lemma AllNamesSpec()
    ensures NameTable(AllNames())
  {
    RegisterRangeComplete(map[], OP_PUSHDATA1 as int, FIRST_UNDEFINED_OP_VALUE);
    RegisterRangeSound(map[], OP_PUSHDATA1 as int, FIRST_UNDEFINED_OP_VALUE);
  }

  /** The static map of ParseScript. */
  class OpNameTable {
    var names: map<string, byte>

    /** The map is either still empty or has been populated. */
    predicate Valid()
      reads this
    {
      names == map[] || names == AllNames()
    }

    constructor()
      ensures Valid() && names == map[]
    {
      names := map[];
    }

    /** populate_opcode_names_map: fills the map only when it is empty. */
    method Populate()
      modifies this
      ensures old(names) != map[] ==> names == old(names)
      ensures old(names) == map[] ==> names == AllNames()
    {
      if names == map[] {
        ghost var start := names;
        var op := OP_PUSHDATA1 as int;
        while op < FIRST_UNDEFINED_OP_VALUE
          invariant OP_PUSHDATA1 as int <= op <= FIRST_UNDEFINED_OP_VALUE
          invariant RegisterRange(names, op, FIRST_UNDEFINED_OP_VALUE)
                 == RegisterRange(start, OP_PUSHDATA1 as int, FIRST_UNDEFINED_OP_VALUE)
          decreases FIRST_UNDEFINED_OP_VALUE - op
        {
          RegisterSpelled(names, op as byte);
          var name := GetOpName(op as byte);
          if name != "OP_UNKNOWN" {
            var strName := name;
            if !(|name| >= 3 && name[..3] == "OP_") {
              strName := "OP_" + strName;
            }
            names := names[strName := op as byte];
            strName := strName[3..];
            names := names[strName := op as byte];
          }
          op := op + 1;
        }
      }
    }
  }

  // ---------------------------------------------------------------------
  // boost::split with is_any_of(" \t\n") and token_compress_on.

  predicate IsSeparator(c: char)
  {
    c == ' ' || c == '\t' || c == '\n'
  }

  /** s without its leading run of separators. */
  function DropSeparators(s: string): (r: string)
    ensures |r| <= |s| && r == s[|s| - |r|..]
    ensures r == [] || !IsSeparator(r[0])
  {
    if s != [] && IsSeparator(s[0]) then DropSeparators(s[1..]) else s
  }

  /** The words of s after the word cur read so far: a run of separators
      ends a word, so a leading or trailing run gives an empty word. */
  function Fields(s: string, cur: string): (words: seq<string>)
    ensures |words| >= 1
    decreases |s|
  {
    if s == [] then [cur]
    else if IsSeparator(s[0]) then [cur] + Fields(DropSeparators(s[1..]), [])
    else Fields(s[1..], cur + [s[0]])
  }

  function Split(s: string): (words: seq<string>)
    ensures |words| >= 1
  {
    Fields(s, [])
  }

  /** The characters of s that are not separators. */
  function Unseparated(s: string): string
  {
    if s == [] then []
    else if IsSeparator(s[0]) then Unseparated(s[1..])
    else [s[0]] + Unseparated(s[1..])
  }

  predicate NoSeparator(s: string)
  {
    forall i :: 0 <= i < |s| ==> !IsSeparator(s[i])
  }

  function Concat(words: seq<string>): string
  {
    if words == [] then [] else words[0] + Concat(words[1..])
  }

  lemma {:induction false} ConcatAppend(a: seq<string>, b: seq<string>)
    ensures Concat(a + b) == Concat(a) + Concat(b)
  {
    if a == [] {
      assert a + b == b;
    } else {
      assert (a + b)[0] == a[0] && (a + b)[1..] == a[1..] + b;
      ConcatAppend(a[1..], b);
    }
  }

  lemma {:induction false} UnseparatedDrop(s: string)
    ensures Unseparated(DropSeparators(s)) == Unseparated(s)
  {
    if s != [] && IsSeparator(s[0]) {
      UnseparatedDrop(s[1..]);
    }
  }

  /** Splitting loses the separators and nothing else. */
  lemma {:induction false} FieldsConcat(s: string, cur: string)
    ensures Concat(Fields(s, cur)) == cur + Unseparated(s)
    decreases |s|
  {
    if s == [] {
      assert Concat([cur]) == cur + Concat([]);
    } else if IsSeparator(s[0]) {
      var rest := DropSeparators(s[1..]);
      var f := Fields(rest, []);
      assert Fields(s, cur) == [cur] + f;
      FieldsConcat(rest, []);
      assert Concat(f) == Unseparated(rest) by {
        assert [] + Unseparated(rest) == Unseparated(rest);
      }
      UnseparatedDrop(s[1..]);
      assert Unseparated(s) == Unseparated(rest);
      ConcatAppend([cur], f);
      assert Concat([cur]) == cur by {
        assert Concat([cur]) == cur + Concat([]);
      }
    } else {
      var cur1 := cur + [s[0]];
      assert Fields(s, cur) == Fields(s[1..], cur1);
      FieldsConcat(s[1..], cur1);
      assert Unseparated(s) == [s[0]] + Unseparated(s[1..]);
      assert cur1 + Unseparated(s[1..]) == cur + ([s[0]] + Unseparated(s[1..]));
    }
  }

  /** No word holds a separator. */
  lemma {:induction false} FieldsClean(s: string, cur: string)
    requires NoSeparator(cur)
    ensures forall k :: 0 <= k < |Fields(s, cur)| ==> NoSeparator(Fields(s, cur)[k])
    decreases |s|
  {
    if s == [] {
    } else if IsSeparator(s[0]) {
      FieldsClean(DropSeparators(s[1..]), []);
    } else {
      assert NoSeparator(cur + [s[0]]) by {
        forall i | 0 <= i < |cur + [s[0]]|
          ensures !IsSeparator((cur + [s[0]])[i])
        {
          if i < |cur| {
            assert (cur + [s[0]])[i] == cur[i];
          }
        }
      }
      FieldsClean(s[1..], cur + [s[0]]);
    }
  }

  lemma SplitSpec(s: string)
    ensures Concat(Split(s)) == Unseparated(s)
    ensures forall k :: 0 <= k < |Split(s)| ==> NoSeparator(Split(s)[k])
  {
    FieldsConcat(s, []);
    FieldsClean(s, []);
  }

  /** A string without separators is one word. */
  lemma {:induction false} FieldsOfWord(s: string, cur: string)
    requires NoSeparator(s)
    ensures Fields(s, cur) == [cur + s]
    decreases |s|
  {
    if s == [] {
      assert cur + s == cur;
    } else {
      FieldsOfWord(s[1..], cur + [s[0]]);
      assert s == [s[0]] + s[1..];
      assert cur + [s[0]] + s[1..] == cur + s;
    }
  }

  // ---------------------------------------------------------------------
  // ParseScript.

  /** What ParseScript throws; an EncodeOP_N whose assertion fails aborts. */
  datatype ScriptFailure =
    | LengthTooBig                                 // "Length specifier is too big (>= OP_PUSHDATA1)."
    | HexFormat                                    // "Hex numbers expected to be formatted in full-byte chunks ..."
    | UnparsedWord(script: string)                 // "Error parsing script: " + s
    | WrongPushSize(expected: nat, pushed: nat)    // "Wrong number of bytes being pushed. ..."
    | EncodeOpNAssertion                           // assert(n >= 0 && n <= 16) in CScript::EncodeOP_N

  const INT64_MIN: int := -0x8000_0000_0000_0000
  const INT64_MAX: int := 0x7fff_ffff_ffff_ffff

  /** atoi64: atoi, saturated to the int64_t range as strtoll does. */
  function Atoi64(s: string): (n: int)
    ensures INT64_MIN <= n <= INT64_MAX
  {
    var v := Atoi(s);
    if v < INT64_MIN then INT64_MIN else if v > INT64_MAX then INT64_MAX else v
  }

  predicate AllDigits(s: string)
  {
    forall i :: 0 <= i < |s| ==> IsDigit(s[i])
  }

  /** A char of a std::string converted to uint8_t. */
  function CharByte(c: char): byte
  {
    (c as int % 256) as byte
  }

  function Bytes(s: string): (b: seq<byte>)
    ensures |b| == |s|
    ensures forall i :: 0 <= i < |s| && s[i] as int < 256 ==> b[i] as int == s[i] as int
  {
    if s == [] then [] else [CharByte(s[0])] + Bytes(s[1..])
  }

  /** A decimal word below OP_PUSHDATA1 goes through EncodeOP_N, whose
      int parameter receives the int64_t truncated to 32 bits; larger
      ones go through CScript << int64_t. */
  function NumberBytes(n: int): (r: Result<seq<byte>, ScriptFailure>)
  {
    if n < OP_PUSHDATA1 as int then
      match EncodeOpN(Int32(n))
      case Some(op) => Ok([op])
      case None => Err(EncodeOpNAssertion)
    else Ok(PushInt64(n))
  }

  /** The five kinds of word, tried in the order of the source. */
  datatype WordKind = LengthWord | NumberWord | HexWord | QuotedWord | NameWord

  function Kind(w: string): WordKind
    requires w != []
  {
    if w[0] == 'L' && AllDigits(w[1..]) then LengthWord
    else if AllDigits(w) || (w[0] == '-' && AllDigits(w[1..])) then NumberWord
    else if |w| > 2 && w[..2] == "0x" then HexWord
    else if |w| >= 2 && w[0] == '\'' && w[|w| - 1] == '\'' then QuotedWord
    else NameWord
  }

  /** L<digits>: the digits' value as one byte, below OP_PUSHDATA1. */
  function LengthBytes(digits: string): (r: Result<seq<byte>, ScriptFailure>)
    requires AllDigits(digits)
  {
    var n := Atoi64(digits);
    if n < OP_PUSHDATA1 as int then
      AtoiOfDigits(digits);
      Ok([n as byte])
    else Err(LengthTooBig)
  }

  /** 0x<hex>: the bytes themselves, inserted without a push. */
  function HexBytes(hex: string): (r: Result<seq<byte>, ScriptFailure>)
  {
    if IsHex(hex) then Ok(ParseHex(hex)) else Err(HexFormat)
  }

  /** The bytes one non-empty word appends to the script. */
  function Encode(w: string, names: map<string, byte>, s: string): (r: Result<seq<byte>, ScriptFailure>)
    requires w != []
  {
    match Kind(w)
    case LengthWord => LengthBytes(w[1..])
    case NumberWord => NumberBytes(Atoi64(w))
    case HexWord => HexBytes(w[2..])
    case QuotedWord => Ok(PushData(Bytes(w[1..|w| - 1])))
    case NameWord => if w in names then Ok([names[w]]) else Err(UnparsedWord(s))
  }

  /** The loop's state between words: the script so far, the size the
      next word must add (0 for any) and the width of a PUSHDATA length
      word still to come (0 for none). */
  datatype Assembler = Assembler(result: seq<byte>, nextPushSize: nat, pushDataSize: nat)
  {
    /** A pending PUSHDATA length is always also the pending push size. */
    predicate Valid()
    {
      && (pushDataSize == 0 || pushDataSize == 1 || pushDataSize == 2 || pushDataSize == 4)
      && (pushDataSize != 0 ==> nextPushSize == pushDataSize)
    }
  }

  const Start: Assembler := Assembler([], 0, 0)

  /** The little-endian length a PUSHDATA1/2/4 word declares. */
  function ReadLength(added: seq<byte>, width: nat): (n: nat)
    requires |added| == width && (width == 1 || width == 2 || width == 4)
  {
    if width == 1 then added[0] as nat
    else if width == 2 then ReadLE16(added)
    else ReadLE32(added)
  }

  /** *offset, ReadLE16 and ReadLE32 read the bytes as one little-endian
      number. */
  lemma ReadLengthIsLittleEndian(added: seq<byte>, width: nat)
    requires |added| == width && (width == 1 || width == 2 || width == 4)
    ensures ReadLength(added, width) == LittleEndian(added)
  {
    var s1 := added[1..];
    assert LittleEndian(added) == added[0] as nat + 256 * LittleEndian(s1);
    if width == 1 {
      assert s1 == [];
    } else {
      var s2 := s1[1..];
      assert LittleEndian(s1) == s1[0] as nat + 256 * LittleEndian(s2);
      if width == 2 {
        assert s2 == [];
      } else {
        var s3 := s2[1..];
        var s4 := s3[1..];
        assert LittleEndian(s2) == s2[0] as nat + 256 * LittleEndian(s3);
        assert LittleEndian(s3) == s3[0] as nat + 256 * LittleEndian(s4);
        assert s4 == [];
      }
    }
  }

  /** The PUSHDATA width an opcode announces, 0 for other opcodes. */
  function Width(op: byte): nat
  {
    if op == OP_PUSHDATA1 then 1 else if op == OP_PUSHDATA2 then 2 else if op == OP_PUSHDATA4 then 4 else 0
  }

  /** The checks and the bookkeeping after a word added the bytes added. */
  function Track(st: Assembler, added: seq<byte>): (r: Result<Assembler, ScriptFailure>)
    requires st.Valid()
    ensures r.Ok? ==> r.value.Valid() && r.value.result == st.result + added
    ensures st.nextPushSize != 0 && |added| != st.nextPushSize <==> r == Err(WrongPushSize(st.nextPushSize, |added|))
    ensures r.Ok? || r == Err(WrongPushSize(st.nextPushSize, |added|))
  {
    var pushSize := st.nextPushSize;
    if pushSize != 0 && |added| != pushSize then Err(WrongPushSize(pushSize, |added|))
    else if pushSize != 0 then
      if st.pushDataSize != 0 then Ok(Assembler(st.result + added, ReadLength(added, st.pushDataSize), 0))
      else Ok(Assembler(st.result + added, 0, 0))
    else if |added| == 1 then
      var op := added[0];
      if op < OP_PUSHDATA1 then Ok(Assembler(st.result + added, op as nat, 0))
      else Ok(Assembler(st.result + added, Width(op), Width(op)))
    else Ok(Assembler(st.result + added, 0, 0))
  }

  /** One word of the loop; an empty word is skipped. */
  function Step(st: Assembler, w: string, names: map<string, byte>, s: string): (r: Result<Assembler, ScriptFailure>)
    requires st.Valid()
    ensures r.Ok? ==> r.value.Valid()
  {
    if w == [] then Ok(st)
    else
      var added :- Encode(w, names, s);
      Track(st, added)
  }

  /** The loop over the words. */
  function Assemble(st: Assembler, words: seq<string>, names: map<string, byte>, s: string): (r: Result<Assembler, ScriptFailure>)
    requires st.Valid()
    ensures r.Ok? ==> r.value.Valid()
    decreases |words|
  {
    if words == [] then Ok(st)
    else
      var st1 :- Step(st, words[0], names, s);
      Assemble(st1, words[1..], names, s)
  }

  /** ParseScript on s with the opcode table names. */
  function ParseScriptSpec(s: string, names: map<string, byte>): Result<seq<byte>, ScriptFailure>
  {
    var st :- Assemble(Start, Split(s), names, s);
    Ok(st.result)
  }

  /** ParseScript(s): populate the static table, split s into words and
      assemble them one by one, checking each declared push length. */
  method ParseScript(s: string, table: OpNameTable) returns (r: Result<seq<byte>, ScriptFailure>)
    requires table.Valid()
    modifies table
    ensures table.Valid() && table.names == AllNames()
    ensures r == ParseScriptSpec(s, table.names)
  {
    table.Populate();
    var words := Split(s);
    var st := Ok(Start);
    var k := 0;
    while k < |words| && st.Ok?
      invariant 0 <= k <= |words| && table.Valid() && table.names == AllNames()
      invariant st.Ok? ==> st.value.Valid() && Assemble(st.value, words[k..], table.names, s) == Assemble(Start, words, table.names, s)
      invariant st.Err? ==> st == Assemble(Start, words, table.names, s)
      decreases |words| - k
    {
      assert words[k..][0] == words[k] && words[k..][1..] == words[k + 1..];
      var w := words[k];
      k := k + 1;
      if w != [] {
        st := AddWord(st.value, w, table, s);
      }
    }
    if st.Err? {
      return Err(st.error);
    }
    return Ok(st.value.result);
  }

  /** The body of ParseScript's loop for one non-empty word: encode it,
      append it, check it against the pending push size and note the push
      size it declares for the next word. */
  method AddWord(st: Assembler, w: string, table: OpNameTable, s: string) returns (r: Result<Assembler, ScriptFailure>)
    requires st.Valid() && w != []
    ensures r == Step(st, w, table.names, s)
  {
    var result := st.result;
    var scriptSize := |result|;
    var pushSize := st.nextPushSize;
    var nextPushSize: nat := 0;
    var pushDataSize := st.pushDataSize;
    var added := Encode(w, table.names, s);
    if added.Err? {
      return Err(added.error);
    }
    result := result + added.value;
    var sizeChange := |result| - scriptSize;
    assert result[scriptSize..] == added.value;
    if pushSize != 0 && sizeChange != pushSize {
      return Err(WrongPushSize(pushSize, sizeChange));
    }
    if pushSize != 0 && pushDataSize != 0 {
      nextPushSize := ReadLength(result[scriptSize..], pushDataSize);
      pushDataSize := 0;
    }
    if pushSize == 0 && sizeChange == 1 {
      var op := result[|result| - 1];
      if op < OP_PUSHDATA1 {
        nextPushSize := op as nat;
      } else if op == OP_PUSHDATA1 {
        pushDataSize, nextPushSize := 1, 1;
      } else if op == OP_PUSHDATA2 {
        pushDataSize, nextPushSize := 2, 2;
      } else if op == OP_PUSHDATA4 {
        pushDataSize, nextPushSize := 4, 4;
      }
    }
    return Ok(Assembler(result, nextPushSize, pushDataSize));
  }

  // ---------------------------------------------------------------------
  // What the assembler promises.

  /** The bytes of the non-empty words one after another, or the first
      word that does not assemble. */
  function EncodeAll(words: seq<string>, names: map<string, byte>, s: string): Result<seq<byte>, ScriptFailure>
    decreases |words|
  {
    if words == [] then Ok([])
    else
      var head :- if words[0] == [] then Ok([]) else Encode(words[0], names, s);
      var tail :- EncodeAll(words[1..], names, s);
      Ok(head + tail)
  }

  lemma AppendAssoc<T>(a: seq<T>, b: seq<T>, c: seq<T>)
    ensures (a + b) + c == a + (b + c)
  {
  }

  /** The push checks only accept or reject: when the words assemble,
      the script is each word's bytes in order. */
  lemma {:induction false} AssembleIsConcatenation(st: Assembler, words: seq<string>, names: map<string, byte>, s: string)
    requires st.Valid()
    ensures Assemble(st, words, names, s).Ok? ==>
              EncodeAll(words, names, s).Ok?
              && Assemble(st, words, names, s).value.result == st.result + EncodeAll(words, names, s).value
    decreases |words|
  {
    if words != [] && Assemble(st, words, names, s).Ok? {
      var st1 := Step(st, words[0], names, s).value;
      AssembleIsConcatenation(st1, words[1..], names, s);
      var head := if words[0] == [] then [] else Encode(words[0], names, s).value;
      assert st1.result == st.result + head;
      AppendAssoc(st.result, head, EncodeAll(words[1..], names, s).value);
    }
  }

  /** A word may not leave a declared push short or long: with a push
      pending, a word that assembles is accepted exactly when it adds
      the declared number of bytes. */
  lemma PendingPushChecked(st: Assembler, w: string, names: map<string, byte>, s: string)
    requires st.Valid() && st.nextPushSize != 0 && w != [] && Encode(w, names, s).Ok?
    ensures Step(st, w, names, s).Ok? <==> |Encode(w, names, s).value| == st.nextPushSize
    ensures Step(st, w, names, s).Err? ==>
              Step(st, w, names, s) == Err(WrongPushSize(st.nextPushSize, |Encode(w, names, s).value|))
  {
  }

  /** With no push pending, a one-byte word below OP_PUSHDATA1 declares
      that many bytes for the next word. */
  lemma SmallPushDeclares(st: Assembler, w: string, names: map<string, byte>, s: string, n: byte)
    requires st.Valid() && st.nextPushSize == 0 && w != [] && Encode(w, names, s) == Ok([n]) && n < OP_PUSHDATA1
    ensures Step(st, w, names, s) == Ok(Assembler(st.result + [n], n as nat, 0))
  {
  }

  /** OP_PUSHDATA1/2/4 make the next word a 1-, 2- or 4-byte little-endian
      length, which the word after it must then add; a length word of
      another size is rejected. */
  lemma PushDataDeclares(st: Assembler, w1: string, w2: string, names: map<string, byte>, s: string, op: byte)
    requires st.Valid() && st.nextPushSize == 0 && w1 != [] && w2 != []
    requires op == OP_PUSHDATA1 || op == OP_PUSHDATA2 || op == OP_PUSHDATA4
    requires Encode(w1, names, s) == Ok([op]) && Encode(w2, names, s).Ok?
    ensures Step(st, w1, names, s).Ok?
    ensures var st1 := Step(st, w1, names, s).value;
      var len := Encode(w2, names, s).value;
      && st1.nextPushSize == Width(op) && st1.pushDataSize == Width(op)
      && (|len| == Width(op) ==> Step(st1, w2, names, s) == Ok(Assembler(st1.result + len, LittleEndian(len), 0)))
      && (|len| != Width(op) ==> Step(st1, w2, names, s) == Err(WrongPushSize(Width(op), |len|)))
  {
    var st1 := Step(st, w1, names, s).value;
    var len := Encode(w2, names, s).value;
    if |len| == Width(op) {
      ReadLengthIsLittleEndian(len, Width(op));
    }
  }

  /** A script of one word assembles to that word's bytes: with no push
      pending, the push checks accept any word. */
  lemma OneWordScript(w: string, names: map<string, byte>)
    requires w != [] && NoSeparator(w) && Encode(w, names, w).Ok?
    ensures ParseScriptSpec(w, names) == Ok(Encode(w, names, w).value)
  {
    FieldsOfWord(w, []);
    assert [] + w == w;
    var st1 := Step(Start, w, names, w);
    assert st1.Ok? && st1.value.result == Encode(w, names, w).value;
    assert Assemble(Start, [w], names, w) == st1 by {
      assert [w][1..] == [];
    }
  }

  /** A 0x word is inserted raw, not pushed: the script of "0x" followed
      by the hex of b is b. */
  lemma HexWordIsRaw(b: seq<byte>, names: map<string, byte>)
    requires b != []
    ensures ParseScriptSpec("0x" + HexStr(b), names) == Ok(b)
  {
    var w := "0x" + HexStr(b);
    HexWordEncodes(b, names);
    assert NoSeparator(w) by {
      var hex := HexStr(b);
      HexStrDigits(b);
      forall i | 0 <= i < |w|
        ensures !IsSeparator(w[i])
      {
        if i >= 2 {
          assert w[i] == hex[i - 2];
        }
      }
    }
    OneWordScript(w, names);
  }

  lemma HexWordEncodes(b: seq<byte>, names: map<string, byte>)
    requires b != []
    ensures Encode("0x" + HexStr(b), names, "0x" + HexStr(b)) == Ok(b)
  {
    var w := "0x" + HexStr(b);
    assert w[2..] == HexStr(b) && w[..2] == "0x" && |w| > 2;
    HexWordKind(w);
    HexStrDigits(b);
    assert IsHex(HexStr(b));
    ParseHexOfHexStr(b);
  }

  /** A word of more than two characters starting with "0x" is a hex word. */
  lemma HexWordKind(w: string)
    requires |w| > 2 && w[..2] == "0x"
    ensures Kind(w) == HexWord
  {
    assert w[0] == w[..2][0] && w[1] == w[..2][1];
    assert !AllDigits(w) by {
      assert !IsDigit(w[1]);
    }
  }

  lemma {:induction false} HexStrDigits(b: seq<byte>)
    ensures forall i :: 0 <= i < |HexStr(b)| ==> IsXDigit(HexStr(b)[i]) && !IsSeparator(HexStr(b)[i])
  {
    if b != [] {
      HexStrDigits(b[1..]);
      var h := HexStr(b);
      assert h == [HexChar(b[0] as int / 16), HexChar(b[0] as int % 16)] + HexStr(b[1..]);
      forall i | 0 <= i < |h|
        ensures IsXDigit(h[i]) && !IsSeparator(h[i])
      {
        if i >= 2 {
          assert h[i] == HexStr(b[1..])[i - 2];
        }
      }
    }
  }

  /** A quoted word is pushed as data without its quotes. */
  lemma QuotedWordIsPushed(t: string, names: map<string, byte>)
    requires NoSeparator(t)
    ensures ParseScriptSpec("'" + t + "'", names) == Ok(PushData(Bytes(t)))
  {
    var w := "'" + t + "'";
    assert NoSeparator(w) by {
      forall i | 0 <= i < |w|
        ensures !IsSeparator(w[i])
      {
        if 0 < i < |w| - 1 {
          assert w[i] == t[i - 1];
        }
      }
    }
    QuotedWordEncodes(t, names);
    OneWordScript(w, names);
  }

  lemma QuotedWordEncodes(t: string, names: map<string, byte>)
    ensures Encode("'" + t + "'", names, "'" + t + "'") == Ok(PushData(Bytes(t)))
  {
    var w := "'" + t + "'";
    assert w[0] == '\'' && w[|w| - 1] == '\'' && |w| >= 2;
    assert w[0] != 'L' && w[0] != '-';
    assert !AllDigits(w) by {
      assert !IsDigit(w[0]);
    }
    assert w[..2] != "0x" by {
      assert w[..2][0] == '\'';
    }
    assert Kind(w) == QuotedWord;
    assert w[1..|w| - 1] == t;
  }

  /** A word spelled "OP_..." is looked up as an opcode name. */
  lemma NameWordKind(w: string)
    requires |w| >= 3 && w[0] == 'O' && w[1] == 'P' && w[2] == '_'
    ensures Kind(w) == NameWord
  {
    assert !AllDigits(w) by {
      assert !IsDigit(w[0]);
    }
    assert w[..2] != "0x" by {
      assert w[..2][0] == 'O';
    }
  }

  /** An "OP_..." word in the table assembles to the opcode it names. */
  lemma NameWordLookedUp(w: string, names: map<string, byte>, s: string)
    requires |w| >= 3 && w[0] == 'O' && w[1] == 'P' && w[2] == '_'
    requires w in names && Sound(names, FIRST_UNDEFINED_OP_VALUE)
    ensures Encode(w, names, s) == Ok([names[w]])
    ensures w == FullName(names[w]) || w == ShortName(names[w])
  {
    NameWordKind(w);
  }

  /** A full opcode name assembles to one opcode that bears that name. */
  lemma OpcodeNameWord(op: byte, names: map<string, byte>, s: string)
    requires OP_PUSHDATA1 as int <= op as int < FIRST_UNDEFINED_OP_VALUE && Known(op) && NameTable(names)
    ensures Encode(FullName(op), names, s).Ok?
    ensures var r := Encode(FullName(op), names, s).value;
      |r| == 1 && (FullName(op) == FullName(r[0]) || FullName(op) == ShortName(r[0]))
  {
    var w := FullName(op);
    FullNameStart(op);
    assert w in names;
    NameWordLookedUp(w, names, s);
  }

  // ---------------------------------------------------------------------
  // Decimal words below OP_PUSHDATA1.

  /** The number a single push puts on the stack, for the pushes
      CScript << int64_t writes. */
  function DecodeNumber(r: seq<byte>): Option<int>
  {
    if r == [OP_1NEGATE] then Some(-1)
    else if |r| == 1 && OP_1 <= r[0] <= OP_16 then Some(r[0] as int - OP_1 as int + 1)
    else if |r| >= 1 && r[0] < OP_PUSHDATA1 && |r| == r[0] as int + 1 then Some(ScriptNumValue(r[1..]))
    else None
  }

  /** As written, 17 and -1 reach EncodeOP_N, whose assertion fails. */
  lemma NumberWordsAbort(names: map<string, byte>, s: string)
    ensures Encode("17", names, s) == Err(EncodeOpNAssertion)
    ensures Encode("-1", names, s) == Err(EncodeOpNAssertion)
  {
    assert AllDigits("17");
    AtoiOfDigits("17");
    assert DecimalValue("17") == 17 by {
      assert "17"[..1] == "1";
    }
    assert !AllDigits("-1") by {
      assert "-1"[0] == '-';
    }
    assert "-1"[1..] == "1";
    assert AllDigits("-1"[1..]);
    assert DigitRun("1") == 1;
    assert "1"[..1] == "1";
    assert Atoi("-1") == -1;
  }

  /** The number push upstream Bitcoin writes for every decimal word. */
  function NumberBytesCorrected(n: int): (r: Result<seq<byte>, ScriptFailure>)
    ensures r.Ok?
  {
    Ok(PushInt64(n))
  }

  lemma {:induction false} MagnitudeLength(a: nat, k: nat)
    requires a < Pow256(k)
    ensures |Magnitude(a)| <= k
  {
    if a != 0 {
      assert k > 0;
      MagnitudeLength(a / 256, k - 1);
    }
  }

  /** The corrected push leaves exactly the word's number on the stack,
      over the whole int64_t range. */
  lemma NumberBytesCorrectedDecodes(n: int)
    requires INT64_MIN <= n <= INT64_MAX
    ensures NumberBytesCorrected(n).Ok? && DecodeNumber(NumberBytesCorrected(n).value) == Some(n)
  {
    if !(-1 <= n <= 16) {
      var a: nat := if n < 0 then -n else n;
      assert Pow256(8) == 0x1_0000_0000_0000_0000 by {
        assert Pow256(4) == 0x1_0000_0000;
      }
      MagnitudeLength(a, 8);
      var data := ScriptNumBytes(n);
      assert |data| <= 9;
      ScriptNumRoundTrip(n);
      var r := PushData(data);
      assert r == [|data| as byte] + data;
      assert r[1..] == data;
    }
  }

  /** The as-written and corrected decimal pushes agree on 0..16 and from
      OP_PUSHDATA1 up. Below that the as-written one aborts unless the
      32-bit truncation lands in 0..16: from INT_MIN to -1 and from 17 to
      75 it always aborts, and a word below INT_MIN whose truncation is
      small pushes that small number instead of the word's own. */
  lemma NumberBytesAsWritten(n: int)
    ensures 0 <= n <= 16 || n >= OP_PUSHDATA1 as int ==> NumberBytes(n) == NumberBytesCorrected(n)
    ensures n < OP_PUSHDATA1 as int && !(0 <= Int32(n) <= 16) ==> NumberBytes(n) == Err(EncodeOpNAssertion)
    ensures (INT_MIN <= n < 0 || 16 < n < OP_PUSHDATA1 as int) ==> NumberBytes(n) == Err(EncodeOpNAssertion)
    ensures n < INT_MIN && 0 <= Int32(n) <= 16 ==>
      NumberBytes(n).Ok? && DecodeNumber(NumberBytes(n).value) == Some(Int32(n)) && Int32(n) != n
  {
    if n < INT_MIN && 0 <= Int32(n) <= 16 {
      var r := NumberBytes(n).value;
      if Int32(n) == 0 {
        assert r == [OP_0];
        assert r[1..] == [];
      }
    }
  }

  /** A negative decimal word's value: minus its digits, saturated at
      INT64_MIN. */
  lemma NegativeWord(d: string, names: map<string, byte>, s: string)
    requires d != [] && AllDigits(d)
    ensures Kind("-" + d) == NumberWord
    ensures Atoi64("-" + d) == if DecimalValue(d) > -INT64_MIN then INT64_MIN else -(DecimalValue(d) as int)
    ensures Encode("-" + d, names, s) == NumberBytes(Atoi64("-" + d))
  {
    var w := "-" + d;
    assert w[0] == '-' && w[1..] == d;
    assert !AllDigits(w) by { assert !IsDigit(w[0]); }
    DigitRunAll(d);
    assert d[..DigitRun(d)] == d;
  }

  /** The decimal spelling of n, as a word of the script text. */
  function Decimal(n: nat): (w: string)
    ensures w != [] && AllDigits(w) && DecimalValue(w) == n
  {
    var c := ('0' as int + n % 10) as char;
    if n < 10 then
      DecimalSnoc([], c);
      assert [] + [c] == [c];
      [c]
    else
      var w := Decimal(n / 10);
      DecimalSnoc(w, c);
      w + [c]
  }

  /** As written, a negative word in the int64_t range whose 32-bit
      truncation lies in 0..16 pushes that small number, not its own. */
  lemma NegativeWordWraps(n: nat, names: map<string, byte>, s: string)
    requires 0 < n <= -INT64_MIN && 0 <= Int32(-(n as int)) <= 16
    ensures Encode("-" + Decimal(n), names, s).Ok?
    ensures DecodeNumber(Encode("-" + Decimal(n), names, s).value) == Some(Int32(-(n as int)))
    ensures Int32(-(n as int)) != -(n as int)
  {
    NegativeWordPushes(Decimal(n), names, s);
    NumberBytesAsWritten(-(n as int));
  }

  /** So a word "-" followed by a multiple of 2^32 pushes OP_0, and one
      followed by a multiple of 2^32 less one pushes OP_1: "-4294967296"
      and "-4294967295" among them. */
  lemma NegativeWordsWrap(n: nat, names: map<string, byte>, s: string)
    requires 0 < n <= -INT64_MIN
    ensures n % 0x1_0000_0000 == 0 ==> Encode("-" + Decimal(n), names, s) == Ok([OP_0])
    ensures n % 0x1_0000_0000 == 0xffff_ffff ==> Encode("-" + Decimal(n), names, s) == Ok([OP_1])
  {
    var m := -(n as int);
    NegativeWordPushes(Decimal(n), names, s);
    NegatedRemainder(n);
    if n % 0x1_0000_0000 == 0 {
      assert NumberBytes(m) == Ok([OP_0]) by { assert Int32(m) == 0; }
    } else if n % 0x1_0000_0000 == 0xffff_ffff {
      assert NumberBytes(m) == Ok([OP_1]) by { assert Int32(m) == 1; }
    }
  }

  lemma NegatedRemainder(n: nat)
    ensures n % 0x1_0000_0000 == 0 ==> (-(n as int)) % 0x1_0000_0000 == 0
    ensures n % 0x1_0000_0000 == 0xffff_ffff ==> (-(n as int)) % 0x1_0000_0000 == 1
  {
  }

  /** Decimal(2^32) is "4294967296", digit by digit. */
  lemma TwoToThe32Spelled()
    ensures Decimal(0x1_0000_0000) == "4294967296"
  {
    assert Decimal(4) == "4";
    assert Decimal(42) == "42";
    assert Decimal(429) == "429";
    assert Decimal(4294) == "4294";
    assert Decimal(42949) == "42949";
    assert Decimal(429496) == "429496";
    assert Decimal(4294967) == "4294967";
    assert Decimal(42949672) == "42949672";
    assert Decimal(429496729) == "429496729";
    assert Decimal(4294967296) == "4294967296";
  }

  /** A negative word within the int64_t range goes to NumberBytes with
      minus its digits' value. */
  lemma NegativeWordPushes(d: string, names: map<string, byte>, s: string)
    requires d != [] && AllDigits(d) && DecimalValue(d) <= -INT64_MIN
    ensures Encode("-" + d, names, s) == NumberBytes(-(DecimalValue(d) as int))
  {
    NegativeWord(d, names, s);
  }

  /** Every decimal word below INT64_MIN saturates to -2^63, whose low
      32 bits are zero, and so pushes OP_0. */
  lemma SaturatedWordsWrap(d: string, names: map<string, byte>, s: string)
    requires d != [] && AllDigits(d) && DecimalValue(d) > -INT64_MIN
    ensures Encode("-" + d, names, s) == Ok([OP_0])
  {
    NegativeWord(d, names, s);
    assert Int32(INT64_MIN) == 0;
  }

  /** DecimalValue reads one more digit on the right. */
  lemma DecimalSnoc(d: string, c: char)
    requires AllDigits(d) && IsDigit(c)
    ensures AllDigits(d + [c])
    ensures DecimalValue(d + [c]) == 10 * DecimalValue(d) + (c as int - '0' as int)
  {
    assert (d + [c])[..|d|] == d;
  }
}
