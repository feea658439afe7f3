// The tokeniser (HelloDll/tokeniser.h) as functions over its whole state:
// the stream, the line counter, the offset where the current line starts,
// the one-token pushback slot and the position saved when it was filled.
// Each function returns the new state with its result, or the Failure the
// C++ code throws (parse_error) or aborts with (a failed assert).

module Lexer {

  import opened Wrappers
  import opened Script
  import opened Internals
  import opened Streams

  datatype TState = TState(s: Stream, lineno: nat, lineStart: int, stored: Token, storedPos: StreamPoint)
  {
    predicate Valid() { s.Valid() }
  }

  /** A tokeniser constructed on a freshly opened stream. */
  function Start(text: string): (t: TState)
    ensures t.Valid() && !t.stored.IsValid()
  {
    TState(Open(text), 0, 0, EmptyToken, StreamPoint(0, 0, 0))
  }

  /** Every character left counts twice, a buffered token once: reading a
      character and filling the slot with it still makes the measure fall. */
  function Measure(t: TState): nat
    requires t.Valid()
  {
    2 * (|t.s.text| - t.s.pos) + (if t.stored.IsValid() then 1 else 0)
  }

  /** t1 is t0 read further, at the character level: same text and
      pushback slot, position not behind. */
  predicate ReadOn(t0: TState, t1: TState)
  {
    && t0.Valid() && t1.Valid() && t1.s.text == t0.s.text && t1.s.pos >= t0.s.pos
    && t1.stored == t0.stored && t1.storedPos == t0.storedPos
  }

  /** t1 is t0 or a later state: same text, measure not larger. */
  predicate Progress(t0: TState, t1: TState)
  {
    t0.Valid() && t1.Valid() && t1.s.text == t0.s.text && Measure(t1) <= Measure(t0)
  }

  /** t1 is strictly later than t0. */
  predicate Advance(t0: TState, t1: TState)
  {
    Progress(t0, t1) && Measure(t1) < Measure(t0)
  }

  // ---------------------------------------------------------------------
  // Character classes (the "C" locale; characters beyond ASCII are in none).

  predicate IsAlpha(c: char) { 'a' <= c <= 'z' || 'A' <= c <= 'Z' }

  predicate IsAlnum(c: char) { IsAlpha(c) || IsDigit(c) }

  /** The three accept predicates f_eat is given. */
  datatype CharClass = NameChars | Digits | XDigits

  predicate Accepts(cls: CharClass, c: char)
  {
    match cls
    case NameChars => IsAlnum(c) || c == '_'
    case Digits => IsDigit(c)
    case XDigits => IsXDigit(c)
  }

  /** The words get_ftoken retypes as _std. */
  const Keywords: set<string> := {"if", "else", "for", "in", "true", "false", "and", "or", "Assert"}

  /** The characters that form a token on their own. */
  const Singles: set<char> := {',', '~', '+', '-', '%', '(', ')', '[', ']', '{', '}', ':', ';'}

  /** The characters that may start a two-character operator, with the
      character that completes it. */
  function Partner(c: char): (r: Option<char>)
    ensures r.Some? <==> c in {'=', '<', '>', '|', '&', '.', '!'}
  {
    if c == '=' || c == '<' || c == '>' || c == '!' then Some('=')
    else if c == '|' then Some('|')
    else if c == '&' then Some('&')
    else if c == '.' then Some('.')
    else None
  }

  // ---------------------------------------------------------------------
  // The tokeniser's operations.

  /** tokeniser::tellg: the saved position while a token is buffered;
      otherwise the stream offset (0 if tellg fails), the line number and
      the offset from the line start, as a size_t. */
  function TellPoint(t: TState): (r: (StreamPoint, TState))
    requires t.Valid()
    ensures r.1 == t.(s := r.1.s) && r.1.Valid() && r.1.s.text == t.s.text && r.1.s.pos == t.s.pos
    ensures t.stored.IsValid() ==> r == (t.storedPos, t)
    ensures !t.stored.IsValid() && t.s.Good() ==>
      r.0 == StreamPoint(t.s.pos, t.lineno, (t.s.pos - t.lineStart) % 0x1_0000_0000_0000_0000) && r.1 == t
  {
    if t.stored.IsValid() then (t.storedPos, t)
    else
      var (off, s1) := TellgResult(t.s);
      var pos := if off < 0 then 0 else off;
      (StreamPoint(pos, t.lineno, (pos - t.lineStart) % 0x1_0000_0000_0000_0000), t.(s := s1))
  }

  /** getch: get, and a parse_error if the stream is no longer good. */
  function Getch(t: TState): (r: Result<(char, TState), Failure>)
    requires t.Valid()
    ensures r.Ok? <==> t.s.Good() && t.s.pos < |t.s.text|
    ensures r.Ok? ==> r.value == (t.s.text[t.s.pos], t.(s := t.s.(pos := t.s.pos + 1)))
    ensures r.Err? ==> r.error.ParseError? && r.error.what == UnexpectedEof
  {
    var (c, s1) := GetResult(t.s);
    var t1 := t.(s := s1);
    if !s1.Good() then Err(ParseError(UnexpectedEof, TellPoint(t1).0))
    else Ok((c.c, t1))
  }

  /** The loop of f_eat: read while the class accepts, put back the first
      character it refuses, stop at once if eofbit is set. */
  function EatRun(t: TState, cls: CharClass, acc: string): (r: (string, TState))
    requires t.Valid()
    ensures ReadOn(t, r.1) && r.1 == t.(s := r.1.s)
    ensures r.0 == acc + t.s.text[t.s.pos..r.1.s.pos]
    decreases |t.s.text| - t.s.pos
  {
    if t.s.eofbit then (acc, t)
    else
      var (c, s1) := GetResult(t.s);
      if c.Ch? && Accepts(cls, c.c) then
        var r := EatRun(t.(s := s1), cls, acc + [c.c]);
        assert t.s.text[t.s.pos..r.1.s.pos] == [c.c] + t.s.text[t.s.pos + 1..r.1.s.pos];
        r
      else (acc, t.(s := PutbackResult(s1)))
  }

  /** Every character EatRun takes is one the class accepts. */
  lemma {:induction false} EatRunAccepts(t: TState, cls: CharClass, acc: string)
    requires t.Valid()
    ensures var (v, t1) := EatRun(t, cls, acc);
      forall i :: t.s.pos <= i < t1.s.pos ==> Accepts(cls, t.s.text[i])
    decreases |t.s.text| - t.s.pos
  {
    if !t.s.eofbit {
      var (c, s1) := GetResult(t.s);
      if c.Ch? && Accepts(cls, c.c) {
        EatRunAccepts(t.(s := s1), cls, acc + [c.c]);
      }
    }
  }

  /** f_eat: the run as a token of the given type; an empty run fails the
      assertion that at least one character matched. */
  function FEat(t: TState, cls: CharClass, kind: TokenKind): (r: Result<(Token, TState), Failure>)
    requires t.Valid()
    ensures r.Ok? ==> && ReadOn(t, r.value.1) && r.value.1 == t.(s := r.value.1.s)
                      && r.value.1.s.pos > t.s.pos
                      && r.value.0 == Token(t.s.text[t.s.pos..r.value.1.s.pos], kind)
    ensures r.Err? ==> r.error.Abort?
  {
    var (v, t1) := EatRun(t, cls, "");
    if v == "" then Err(Abort("f_eat: no character accepted"))
    else Ok((Token(v, kind), t1))
  }

  /** f_eat_Hex, after the leading 0: the x, then the digits, which must
      come in pairs. */
  function FEatHex(t: TState): (r: Result<(Token, TState), Failure>)
    requires t.Valid()
    ensures r.Ok? ==> && ReadOn(t, r.value.1) && r.value.1 == t.(s := r.value.1.s)
                      && r.value.1.s.pos > t.s.pos + 1
                      && r.value.0 == Token(t.s.text[t.s.pos + 1..r.value.1.s.pos], Hex)
                      && |r.value.0.value| % 2 == 0
  {
    match Getch(t)
    case Err(f) => Err(f)
    case Ok((ch, t1)) =>
      if ch != 'x' then Err(Abort("f_eat_Hex: expected 'x'"))
      else
        match FEat(t1, XDigits, Hex)
        case Err(f) => Err(f)
        case Ok((tok, t2)) =>
          if |tok.value| % 2 != 0 then Err(ParseError(OddHexDigits, TellPoint(t2).0))
          else Ok((tok, t2))
  }

  /** The loop of ws: skip white space and # comments (to the end of the
      line), counting each newline seen and noting where its line starts. */
  function WsLoop(t: TState, inComment: bool): (r: Result<TState, Failure>)
    requires t.Valid()
    ensures r.Ok? ==> ReadOn(t, r.value) && r.value.lineno >= t.lineno
    decreases |t.s.text| - t.s.pos
  {
    var (c, s1) := PeekResult(t.s);
    var t1 := t.(s := s1);
    if s1.eofbit then Ok(t1)
    else
      var t2 := if c == Ch('\n') then t1.(s := TellgResult(s1).1, lineStart := TellgResult(s1).0, lineno := t1.lineno + 1)
                else t1;
      if inComment || (c.Ch? && IsSpace(c.c)) || c == Ch('#') then
        match Getch(t2)
        case Err(f) => Err(f)
        case Ok((_, t3)) =>
          WsLoop(t3, if c == Ch('\n') then false else if c == Ch('#') then true else inComment)
      else Ok(t2)
  }

  /** ws */
  function Ws(t: TState): (r: Result<TState, Failure>)
    requires t.Valid()
    ensures r.Ok? ==> ReadOn(t, r.value) && r.value.lineno >= t.lineno
  {
    WsLoop(t, false)
  }

  /** The operator cases of get_ftoken's switch: = < > | & ! and '.', with
      the character that may complete them. */
  function LexOperator(ch: char, t: TState): (r: Result<(Token, TState), Failure>)
    requires t.Valid() && Partner(ch).Some?
    ensures r.Ok? ==> ReadOn(t, r.value.1) && r.value.1 == t.(s := r.value.1.s) && r.value.0.IsValid()
  {
    var (c, s1) := PeekResult(t.s);
    var t1 := t.(s := s1);
    if c == Ch(Partner(ch).value) then Ok((Token([ch, c.c], Std), t1.(s := GetResult(s1).1)))
    else if ch == '.' then Err(ParseError(UnexpectedCharacter('.'), TellPoint(t1).0))
    else Ok((Token([ch], Std), t1))
  }

  /** The digit case: "0x" starts a hex constant, anything else a decimal
      one, after putting the digit back. */
  function LexNumber(ch: char, t: TState): (r: Result<(Token, TState), Failure>)
    requires t.Valid() && t.s.Good() && t.s.pos > 0
    ensures r.Ok? ==> ReadOn(t, r.value.1) && r.value.1 == t.(s := r.value.1.s) && r.value.0.IsValid()
  {
    if ch == '0' && PeekResult(t.s).0 == Ch('x') then FEatHex(t)
    else
      var s1 := if ch == '0' then PeekResult(t.s).1 else t.s;
      FEat(t.(s := PutbackResult(s1)), Digits, Integer)
  }

  /** The letter and '$' case: a name, retyped _std for a keyword and
      _extern after a '$' (which is not put back). */
  function LexWord(ch: char, t: TState): (r: Result<(Token, TState), Failure>)
    requires t.Valid() && t.s.Good() && t.s.pos > 0
    ensures r.Ok? ==> ReadOn(t, r.value.1) && r.value.1 == t.(s := r.value.1.s) && r.value.0.IsValid()
  {
    var t1 := if ch != '$' then t.(s := PutbackResult(t.s)) else t;
    match FEat(t1, NameChars, Name)
    case Err(f) => Err(f)
    case Ok((tok, t2)) =>
      var kind := if ch == '$' then Extern else if tok.value in Keywords then Std else Name;
      Ok((Token(tok.value, kind), t2))
  }

  /** The switch of get_ftoken, on the character getch just read. */
  function LexFrom(ch: char, t: TState): (r: Result<(Token, TState), Failure>)
    requires t.Valid() && t.s.Good() && t.s.pos > 0
    ensures r.Ok? ==> ReadOn(t, r.value.1) && r.value.1 == t.(s := r.value.1.s) && r.value.0.IsValid()
  {
    if Partner(ch).Some? then LexOperator(ch, t)
    else if ch in Singles then Ok((Token([ch], Std), t))
    else if IsDigit(ch) then LexNumber(ch, t)
    else if IsAlpha(ch) || ch == '$' then LexWord(ch, t)
    else Err(ParseError(UnexpectedCharacter(ch), TellPoint(t).0))
  }

  /** get_ftoken: white space, one character, then the token it starts. */
  function GetFtoken(t: TState): (r: Result<(Token, TState), Failure>)
    requires t.Valid()
    ensures r.Ok? ==> ReadOn(t, r.value.1) && r.value.1.s.pos > t.s.pos && r.value.0.IsValid()
  {
    match Ws(t)
    case Err(f) => Err(f)
    case Ok(t1) =>
      match Getch(t1)
      case Err(f) => Err(f)
      case Ok((ch, t2)) => LexFrom(ch, t2)
  }

  /** get_token: the buffered token, emptying the slot, or a fresh one. */
  function GetToken(t: TState): (r: Result<(Token, TState), Failure>)
    requires t.Valid()
    ensures r.Ok? ==> Advance(t, r.value.1) && !r.value.1.stored.IsValid() && r.value.0.IsValid()
  {
    if t.stored.IsValid() then Ok((t.stored, t.(stored := EmptyToken)))
    else GetFtoken(t)
  }

  /** peek: fill the slot if it is empty, saving the position first. */
  function Peek(t: TState): (r: Result<(Token, TState), Failure>)
    requires t.Valid()
    ensures r.Ok? ==> Progress(t, r.value.1) && r.value.1.stored == r.value.0 && r.value.0.IsValid()
  {
    if t.stored.IsValid() then Ok((t.stored, t))
    else
      var (p, t1) := TellPoint(t);
      match GetFtoken(t1.(storedPos := p))
      case Err(f) => Err(f)
      case Ok((tok, t2)) => Ok((tok, t2.(stored := tok)))
  }

  /** push_token: only into an empty slot. */
  function PushToken(t: TState, tok: Token): (r: Result<TState, Failure>)
    requires t.Valid()
  {
    if t.stored.IsValid() then Err(ParseError(PushbackOccupied, TellPoint(t).0))
    else Ok(t.(stored := tok))
  }

  /** Formatting a _name token for a message indexes token_type_names, which
      has one entry per type up to _std and then "_name" for _extern: _name
      is one past its end. */
  const TypeNameOverrun := "token::type_name: _name is past the end of token_type_names"

  /** eat_token_type (eat_name and eat_integer are it for _name and
      _integer): the next token, which must have that type.  The message
      for a wrong one formats the token, which overruns the type name
      table for a _name. */
  function EatTokenType(t: TState, kind: TokenKind): (r: Result<(Token, TState), Failure>)
    requires t.Valid()
    ensures r.Ok? <==> GetToken(t).Ok? && GetToken(t).value.0.kind == kind
    ensures r.Ok? ==> Advance(t, r.value.1) && r.value.0.kind == kind
    ensures GetToken(t).Ok? && GetToken(t).value.0.kind != kind ==>
      (r == Err(Abort(TypeNameOverrun)) <==> GetToken(t).value.0.kind == Name)
  {
    match GetToken(t)
    case Err(f) => Err(f)
    case Ok((tok, t1)) =>
      if tok.kind != kind then
        if tok.kind == Name then Err(Abort(TypeNameOverrun))
        else Err(ParseError(UnexpectedToken(tok), TellPoint(t1).0))
      else Ok((tok, t1))
  }

  /** eat(token): the next token, which must have the expected one's type
      (token != token compares types only). */
  function EatToken(t: TState, expected: Token): (r: Result<TState, Failure>)
    requires t.Valid()
    ensures r.Ok? ==> Advance(t, r.value)
  {
    match GetToken(t)
    case Err(f) => Err(f)
    case Ok((tok, t1)) =>
      if !tok.SameKind(expected) then Err(ParseError(Expected(expected.value, tok.value), TellPoint(t1).0))
      else Ok(t1)
  }

  /** eat(string): eat of a _std token with that text. */
  function Eat(t: TState, text: string): (r: Result<TState, Failure>)
    requires t.Valid()
    ensures r.Ok? ==> Advance(t, r.value)
  {
    EatToken(t, Token(text, Std))
  }

  /** eof: false while a token is buffered; otherwise peek at the stream
      and report eofbit. */
  function Eof(t: TState): (r: (bool, TState))
    requires t.Valid()
    ensures Progress(t, r.1) && r.1 == t.(s := r.1.s) && r.1.s.pos == t.s.pos
  {
    if t.stored.IsValid() then (false, t)
    else
      var (_, s1) := PeekResult(t.s);
      (s1.eofbit, t.(s := s1))
  }

  // ---------------------------------------------------------------------
  // What the tokeniser reads.

  /** A stream state positioned on a character that starts a token: good,
      nothing buffered, not at white space or a comment. */
  predicate AtToken(t: TState)
  {
    && t.Valid() && t.s.Good() && !t.stored.IsValid() && t.s.pos < |t.s.text|
    && !IsSpace(t.s.text[t.s.pos]) && t.s.text[t.s.pos] != '#'
  }

  /** t moved on by k characters, nothing else changed. */
  function Skip(t: TState, k: nat): TState
  {
    t.(s := t.s.(pos := t.s.pos + k))
  }

  /** On a token's first character, get_token reads it and dispatches. */
  lemma GetTokenAtToken(t: TState)
    requires AtToken(t)
    ensures Ws(t) == Ok(t)
    ensures GetToken(t) == LexFrom(t.s.text[t.s.pos], Skip(t, 1))
  {
  }

  /** f_eat's loop stops at the first character the class refuses, which
      it puts back. */
  lemma {:induction false} EatRunStops(t: TState, cls: CharClass, acc: string, k: nat)
    requires t.Valid() && t.s.Good() && t.s.pos + k < |t.s.text|
    requires forall i :: t.s.pos <= i < t.s.pos + k ==> Accepts(cls, t.s.text[i])
    requires !Accepts(cls, t.s.text[t.s.pos + k])
    ensures EatRun(t, cls, acc) == (acc + t.s.text[t.s.pos..t.s.pos + k], Skip(t, k))
    decreases k
  {
    var (c, s1) := GetResult(t.s);
    if k == 0 {
      assert !Accepts(cls, c.c);
    } else {
      assert Accepts(cls, c.c);
      EatRunStops(t.(s := s1), cls, acc + [c.c], k - 1);
      assert t.s.text[t.s.pos..t.s.pos + k] == [c.c] + t.s.text[t.s.pos + 1..t.s.pos + k];
    }
  }

  /** A run that reaches the end of the text: the get past the end sets
      eofbit and failbit, and putback clears only eofbit. */
  lemma {:induction false} EatRunToEnd(t: TState, cls: CharClass, acc: string)
    requires t.Valid() && t.s.Good()
    requires forall i :: t.s.pos <= i < |t.s.text| ==> Accepts(cls, t.s.text[i])
    ensures EatRun(t, cls, acc) == (acc + t.s.text[t.s.pos..], t.(s := t.s.(pos := |t.s.text|, failbit := true)))
    decreases |t.s.text| - t.s.pos
  {
    var (c, s1) := GetResult(t.s);
    if t.s.pos < |t.s.text| {
      assert Accepts(cls, c.c);
      assert EatRun(t, cls, acc) == EatRun(t.(s := s1), cls, acc + [c.c]);
      EatRunToEnd(t.(s := s1), cls, acc + [c.c]);
      assert t.s.text[t.s.pos..] == [c.c] + t.s.text[t.s.pos + 1..];
      assert acc + [c.c] + t.s.text[t.s.pos + 1..] == acc + t.s.text[t.s.pos..];
    } else {
      assert t.s.text[t.s.pos..] == [];
    }
  }

  /** The two-character operators win over their one-character prefix. */
  lemma TwoCharOperator(t: TState, op: string)
    requires AtToken(t) && t.s.pos + 2 <= |t.s.text|
    requires op in {"==", "<=", ">=", "||", "&&", "..", "!="}
    requires t.s.text[t.s.pos..t.s.pos + 2] == op
    ensures GetToken(t) == Ok((Token(op, Std), Skip(t, 2)))
  {
    GetTokenAtToken(t);
    assert op == [t.s.text[t.s.pos], t.s.text[t.s.pos + 1]];
  }

  /** = < > | & ! without their partner character are tokens of their
      own; at the very end of the text the peek for the partner sets eofbit. */
  lemma LoneOperator(t: TState)
    requires AtToken(t)
    requires t.s.text[t.s.pos] in {'=', '<', '>', '|', '&', '!'}
    requires t.s.pos + 1 < |t.s.text| ==> t.s.text[t.s.pos + 1] != Partner(t.s.text[t.s.pos]).value
    ensures GetToken(t).Ok?
    ensures GetToken(t).value.0 == Token([t.s.text[t.s.pos]], Std)
    ensures GetToken(t).value.1.s.pos == t.s.pos + 1
    ensures GetToken(t).value.1.s.eofbit <==> t.s.pos + 1 == |t.s.text|
  {
    GetTokenAtToken(t);
  }

  /** A '.' that does not start ".." is an error. */
  lemma LoneDot(t: TState)
    requires AtToken(t) && t.s.text[t.s.pos] == '.'
    requires t.s.pos + 1 < |t.s.text| ==> t.s.text[t.s.pos + 1] != '.'
    ensures GetToken(t).Err? && GetToken(t).error.ParseError?
    ensures GetToken(t).error.what == UnexpectedCharacter('.')
  {
    GetTokenAtToken(t);
  }

  /** , ~ + - % ( ) [ ] { } : ; are tokens by themselves. */
  lemma SingleCharacter(t: TState)
    requires AtToken(t) && t.s.text[t.s.pos] in Singles
    ensures GetToken(t) == Ok((Token([t.s.text[t.s.pos]], Std), Skip(t, 1)))
  {
    GetTokenAtToken(t);
  }

  /** Any other character that starts neither a number nor a name is an
      error; among them are '*', '/' and '_'. */
  lemma UnexpectedCharacterFails(t: TState)
    requires AtToken(t)
    requires var c := t.s.text[t.s.pos];
      c !in Singles && Partner(c).None? && !IsAlnum(c) && c != '$'
    ensures GetToken(t).Err? && GetToken(t).error.ParseError?
    ensures GetToken(t).error.what == UnexpectedCharacter(t.s.text[t.s.pos])
  {
    GetTokenAtToken(t);
  }

  lemma StarSlashUnderscoreRejected(t: TState)
    requires AtToken(t) && t.s.text[t.s.pos] in {'*', '/', '_'}
    ensures GetToken(t).Err? && GetToken(t).error.ParseError?
    ensures GetToken(t).error.what == UnexpectedCharacter(t.s.text[t.s.pos])
  {
    UnexpectedCharacterFails(t);
  }

  /** Digits, letters and '$' are neither operators nor single tokens. */
  lemma WordStartsApart(c: char)
    requires IsDigit(c) || IsAlpha(c) || c == '$'
    ensures Partner(c).None? && c !in Singles
  {
  }

  /** A digit starts a number. */
  lemma GetTokenNumber(t: TState)
    requires AtToken(t) && IsDigit(t.s.text[t.s.pos])
    ensures GetToken(t) == LexNumber(t.s.text[t.s.pos], Skip(t, 1))
  {
    WordStartsApart(t.s.text[t.s.pos]);
    GetTokenAtToken(t);
  }

  /** A letter or '$' starts a word. */
  lemma GetTokenWord(t: TState)
    requires AtToken(t) && (IsAlpha(t.s.text[t.s.pos]) || t.s.text[t.s.pos] == '$')
    ensures GetToken(t) == LexWord(t.s.text[t.s.pos], Skip(t, 1))
  {
    WordStartsApart(t.s.text[t.s.pos]);
    GetTokenAtToken(t);
  }

  /** A run of k digits followed by a non-digit, not starting "0x", is an
      _integer token of exactly those digits. */
  lemma IntegerToken(t: TState, k: nat)
    requires AtToken(t) && k >= 1 && t.s.pos + k < |t.s.text|
    requires forall i :: t.s.pos <= i < t.s.pos + k ==> IsDigit(t.s.text[i])
    requires !IsDigit(t.s.text[t.s.pos + k])
    requires t.s.text[t.s.pos] == '0' ==> t.s.text[t.s.pos + 1] != 'x'
    ensures GetToken(t) == Ok((Token(t.s.text[t.s.pos..t.s.pos + k], Integer), Skip(t, k)))
  {
    var t1 := Skip(t, 1);
    GetTokenNumber(t);
    assert PutbackResult(t1.s) == t.s;
    assert LexNumber(t.s.text[t.s.pos], t1) == FEat(t, Digits, Integer);
    EatRunStops(t, Digits, "", k);
  }

  /** f_eat_Hex on 'x' and k hex digits: no digit fails f_eat's
      assertion, an odd count is an error, an even one the token. */
  lemma FEatHexDigits(t: TState, k: nat)
    requires t.Valid() && t.s.Good() && t.s.pos + 1 + k < |t.s.text| && t.s.text[t.s.pos] == 'x'
    requires forall i :: t.s.pos + 1 <= i < t.s.pos + 1 + k ==> IsXDigit(t.s.text[i])
    requires !IsXDigit(t.s.text[t.s.pos + 1 + k])
    ensures k == 0 ==> FEatHex(t).Err? && FEatHex(t).error.Abort?
    ensures k > 0 && k % 2 == 0 ==>
      FEatHex(t) == Ok((Token(t.s.text[t.s.pos + 1..t.s.pos + 1 + k], Hex), Skip(t, 1 + k)))
    ensures k % 2 != 0 ==> FEatHex(t).Err? && FEatHex(t).error.ParseError? && FEatHex(t).error.what == OddHexDigits
  {
    assert Getch(t) == Ok(('x', Skip(t, 1)));
    EatRunStops(Skip(t, 1), XDigits, "", k);
  }

  /** "0x" followed by k >= 1 hex digits and a non-hex character: a _hex
      token of the digits alone, or an error when k is odd. */
  lemma HexToken(t: TState, k: nat)
    requires AtToken(t) && k >= 1 && t.s.pos + 2 + k < |t.s.text|
    requires t.s.text[t.s.pos] == '0' && t.s.text[t.s.pos + 1] == 'x'
    requires forall i :: t.s.pos + 2 <= i < t.s.pos + 2 + k ==> IsXDigit(t.s.text[i])
    requires !IsXDigit(t.s.text[t.s.pos + 2 + k])
    ensures k % 2 == 0 ==>
      GetToken(t) == Ok((Token(t.s.text[t.s.pos + 2..t.s.pos + 2 + k], Hex), Skip(t, 2 + k)))
    ensures k % 2 != 0 ==> GetToken(t).Err? && GetToken(t).error.ParseError? && GetToken(t).error.what == OddHexDigits
  {
    var t1 := Skip(t, 1);
    GetTokenNumber(t);
    assert LexNumber('0', t1) == FEatHex(t1);
    FEatHexDigits(t1, k);
  }

  /** "0x" with no hex digit after it fails f_eat's assertion. */
  lemma EmptyHexAborts(t: TState)
    requires AtToken(t) && t.s.pos + 2 < |t.s.text|
    requires t.s.text[t.s.pos] == '0' && t.s.text[t.s.pos + 1] == 'x'
    requires !IsXDigit(t.s.text[t.s.pos + 2])
    ensures GetToken(t).Err? && GetToken(t).error.Abort?
  {
    var t1 := Skip(t, 1);
    GetTokenNumber(t);
    assert LexNumber('0', t1) == FEatHex(t1);
    FEatHexDigits(t1, 0);
  }

  predicate NameRun(t: TState, from: nat, k: nat)
    requires t.Valid()
  {
    && from + k < |t.s.text|
    && (forall i :: from <= i < from + k ==> Accepts(NameChars, t.s.text[i]))
    && !Accepts(NameChars, t.s.text[from + k])
  }

  /** A letter and the name characters after it: a keyword is _std, any
      other word a _name. */
  lemma NameToken(t: TState, k: nat)
    requires AtToken(t) && IsAlpha(t.s.text[t.s.pos]) && NameRun(t, t.s.pos, k)
    ensures var w := t.s.text[t.s.pos..t.s.pos + k];
      GetToken(t) == Ok((Token(w, if w in Keywords then Std else Name), Skip(t, k)))
  {
    var t1 := Skip(t, 1);
    GetTokenWord(t);
    assert PutbackResult(t1.s) == t.s;
    EatRunStops(t, NameChars, "", k);
  }

  /** '$' and a name: _extern, without the '$', even for a keyword. */
  lemma ExternToken(t: TState, k: nat)
    requires AtToken(t) && t.s.text[t.s.pos] == '$' && k >= 1 && NameRun(t, t.s.pos + 1, k)
    ensures GetToken(t) == Ok((Token(t.s.text[t.s.pos + 1..t.s.pos + 1 + k], Extern), Skip(t, 1 + k)))
  {
    var t1 := Skip(t, 1);
    GetTokenWord(t);
    EatRunStops(t1, NameChars, "", k);
  }

  /** A lone '$' fails f_eat's assertion. */
  lemma DollarAloneAborts(t: TState)
    requires AtToken(t) && t.s.text[t.s.pos] == '$' && NameRun(t, t.s.pos + 1, 0)
    ensures GetToken(t).Err? && GetToken(t).error.Abort?
  {
    var t1 := Skip(t, 1);
    GetTokenWord(t);
    EatRunStops(t1, NameChars, "", 0);
  }

  // ---------------------------------------------------------------------
  // White space and comments.

  /** The number of newlines in s. */
  function Newlines(s: string): nat
  {
    if s == [] then 0 else (if s[0] == '\n' then 1 else 0) + Newlines(s[1..])
  }

  /** What ws notes on peeking c: a newline is counted, and its offset
      becomes the start of the line. */
  function NoteNewline(t: TState, c: char): TState
  {
    if c == '\n' then t.(lineStart := t.s.pos, lineno := t.lineno + 1) else t
  }

  /** One turn of ws's loop over a character it skips. */
  lemma WsStep(t: TState, inComment: bool)
    requires t.Valid() && t.s.Good() && t.s.pos < |t.s.text|
    requires var c := t.s.text[t.s.pos]; inComment || IsSpace(c) || c == '#'
    ensures var c := t.s.text[t.s.pos];
      WsLoop(t, inComment) ==
      WsLoop(Skip(NoteNewline(t, c), 1), if c == '\n' then false else if c == '#' then true else inComment)
  {
  }

  /** Where ws's loop, outside a comment, ends after skipping the next k
      characters: each newline among them noted, and eofbit set when they
      run to the end of the text. */
  function BlanksEnd(t: TState, k: nat): TState
    requires t.s.pos + k <= |t.s.text|
    decreases k
  {
    if k == 0 then (if t.s.pos == |t.s.text| then t.(s := t.s.(eofbit := true)) else t)
    else BlanksEnd(Skip(NoteNewline(t, t.s.text[t.s.pos]), 1), k - 1)
  }

  /** ws (its loop, started outside a comment) over k white-space
      characters stops at the next token. */
  lemma {:induction false} WsSkipsBlanks(t: TState, k: nat)
    requires t.Valid() && t.s.Good() && t.s.pos + k <= |t.s.text|
    requires forall i :: t.s.pos <= i < t.s.pos + k ==> IsSpace(t.s.text[i])
    requires t.s.pos + k < |t.s.text| ==> !IsSpace(t.s.text[t.s.pos + k]) && t.s.text[t.s.pos + k] != '#'
    ensures WsLoop(t, false) == Ok(BlanksEnd(t, k))
    decreases k
  {
    if k > 0 {
      var c := t.s.text[t.s.pos];
      WsStep(t, false);
      WsSkipsBlanks(Skip(NoteNewline(t, c), 1), k - 1);
    }
  }

  /** Skipping k blanks moves k characters on and counts the newlines
      among them. */
  lemma {:induction false} BlanksEndCounts(t: TState, k: nat)
    requires t.s.pos + k <= |t.s.text|
    ensures BlanksEnd(t, k).s.pos == t.s.pos + k && BlanksEnd(t, k).s.text == t.s.text
    ensures BlanksEnd(t, k).lineno == t.lineno + Newlines(t.s.text[t.s.pos..t.s.pos + k])
    decreases k
  {
    var text, pos := t.s.text, t.s.pos;
    if k == 0 {
      assert text[pos..pos] == [];
    } else {
      BlanksEndCounts(Skip(NoteNewline(t, text[pos]), 1), k - 1);
      NewlinesFront(text, pos, pos + k);
    }
  }

  /** Newlines counted from the first character of a slice. */
  lemma NewlinesFront(text: string, i: nat, j: nat)
    requires i < j <= |text|
    ensures Newlines(text[i..j]) == (if text[i] == '\n' then 1 else 0) + Newlines(text[i + 1..j])
  {
    var w := text[i..j];
    assert w[0] == text[i] && w[1..] == text[i + 1..j];
  }

  /** Inside a comment, ws skips everything up to and including the next
      newline, which it counts, and then goes on as outside a comment. */
  lemma {:induction false} WsSkipsCommentText(t: TState, k: nat)
    requires t.Valid() && t.s.Good() && t.s.pos + k < |t.s.text|
    requires forall i :: t.s.pos <= i < t.s.pos + k ==> t.s.text[i] != '\n'
    requires t.s.text[t.s.pos + k] == '\n'
    ensures WsLoop(t, true) ==
      WsLoop(t.(s := t.s.(pos := t.s.pos + k + 1), lineno := t.lineno + 1, lineStart := t.s.pos + k), false)
    decreases k
  {
    var c := t.s.text[t.s.pos];
    var goal := t.(s := t.s.(pos := t.s.pos + k + 1), lineno := t.lineno + 1, lineStart := t.s.pos + k);
    WsStep(t, true);
    if k > 0 {
      var t1 := Skip(t, 1);
      assert c != '\n' && NoteNewline(t, c) == t;
      assert WsLoop(t, true) == WsLoop(t1, true);
      WsSkipsCommentText(t1, k - 1);
      assert t1.(s := t1.s.(pos := t1.s.pos + (k - 1) + 1), lineno := t1.lineno + 1, lineStart := t1.s.pos + (k - 1)) == goal;
    } else {
      assert Skip(NoteNewline(t, c), 1) == goal;
    }
  }

  /** A '#' comment ending in a newline counts as that one newline. */
  lemma WsSkipsComment(t: TState, k: nat)
    requires t.Valid() && t.s.Good() && t.s.pos + 1 + k < |t.s.text|
    requires t.s.text[t.s.pos] == '#'
    requires forall i :: t.s.pos + 1 <= i < t.s.pos + 1 + k ==> t.s.text[i] != '\n'
    requires t.s.text[t.s.pos + 1 + k] == '\n'
    ensures Ws(t) ==
      Ws(t.(s := t.s.(pos := t.s.pos + k + 2), lineno := t.lineno + 1, lineStart := t.s.pos + k + 1))
  {
    WsStep(t, false);
    WsSkipsCommentText(Skip(t, 1), k);
  }

  // ---------------------------------------------------------------------
  // The pushback slot.

  /** peek fills the slot; a second peek returns the same token and
      changes nothing; get_token then returns it and empties the slot. */
  lemma PeekThenGet(t: TState)
    requires t.Valid() && Peek(t).Ok?
    ensures var (tok, t1) := Peek(t).value;
      && t1.stored == tok
      && Peek(t1) == Ok((tok, t1))
      && GetToken(t1) == Ok((tok, t1.(stored := EmptyToken)))
      && Eof(t1) == (false, t1)
      && TellPoint(t1).0 == t1.storedPos
  {
  }

  /** On a good stream with an empty slot, peek saves the position from
      before the white space the token follows. */
  lemma PeekSavesPosition(t: TState)
    requires t.Valid() && t.s.Good() && !t.stored.IsValid() && Peek(t).Ok?
    ensures Peek(t).value.1.storedPos ==
      StreamPoint(t.s.pos, t.lineno, (t.s.pos - t.lineStart) % 0x1_0000_0000_0000_0000)
  {
  }

  /** push_token fills an empty slot, and fails on an occupied one. */
  lemma PushTokenSlot(t: TState, tok: Token)
    requires t.Valid()
    ensures !t.stored.IsValid() ==> PushToken(t, tok) == Ok(t.(stored := tok))
    ensures t.stored.IsValid() ==> PushToken(t, tok) == Err(ParseError(PushbackOccupied, t.storedPos))
  {
  }

  /** eat(string) accepts any _std token whatever its text, since token
      inequality compares types only, and rejects every other type. */
  lemma EatComparesTypesOnly(t: TState, text: string)
    requires t.Valid() && GetToken(t).Ok?
    ensures GetToken(t).value.0.kind == Std ==> Eat(t, text) == Ok(GetToken(t).value.1)
    ensures GetToken(t).value.0.kind != Std ==>
      Eat(t, text).Err? && Eat(t, text).error.ParseError?
      && Eat(t, text).error.what == Expected(text, GetToken(t).value.0.value)
  {
  }
}
