// class tokeniser (HelloDll/tokeniser.h): the object the parser inherits
// from.  Each method updates the stream and the tokeniser's fields in
// place, and is proved to do what the function of the same name in module
// Lexer says, from the state it started in.

module Tokenisers {

  import opened Wrappers
  import opened Script
  import opened Internals
  import opened Streams
  import Lexer

  /** The method's result r and final state are those the specification
      gives; after an exception only the exception is fixed. */
  predicate Follows<X(==)>(r: Result<X, Failure>, spec: Result<(X, Lexer.TState), Failure>, after: Lexer.TState)
  {
    match spec
    case Ok((x, t)) => r == Ok(x) && after == t
    case Err(e) => r == Err(e)
  }

  /** Follows for an operation that returns nothing. */
  predicate Leads(r: Result<(), Failure>, spec: Result<Lexer.TState, Failure>, after: Lexer.TState)
  {
    match spec
    case Ok(t) => r == Ok(()) && after == t
    case Err(e) => r == Err(e)
  }

  class Tokeniser {
    const f: InputStream
    var lineno: nat
    var lineStart: int
    var stored: Token
    var storedPos: StreamPoint

    function View(): Lexer.TState
      reads this, f
    {
      Lexer.TState(f.View(), lineno, lineStart, stored, storedPos)
    }

    predicate Valid()
      reads this, f
    {
      f.Valid()
    }

    /** tokeniser(istream&): line 0, the line starting at offset 0, an
        empty slot and a zero saved position. */
    constructor(f: InputStream)
      requires f.Valid()
      ensures this.f == f && Valid()
      ensures View() == Lexer.TState(f.View(), 0, 0, EmptyToken, StreamPoint(0, 0, 0))
    {
      this.f := f;
      lineno := 0;
      lineStart := 0;
      stored := EmptyToken;
      storedPos := StreamPoint(0, 0, 0);
    }

    method Tellg() returns (p: StreamPoint)
      requires Valid()
      modifies f
      ensures Valid() && (p, View()) == Lexer.TellPoint(old(View()))
    {
      if stored.IsValid() {
        return storedPos;
      }
      var off := f.Tellg();
      var pos := if off < 0 then 0 else off;
      return StreamPoint(pos, lineno, (pos - lineStart) % 0x1_0000_0000_0000_0000);
    }

    method Getch() returns (r: Result<char, Failure>)
      requires Valid()
      modifies f
      ensures Valid() && Follows(r, Lexer.Getch(old(View())), View())
    {
      var c := f.Get();
      if !(!f.eofbit && !f.failbit) {
        var p := Tellg();
        return Err(ParseError(UnexpectedEof, p));
      }
      return Ok(c.c);
    }

    method FEat(cls: Lexer.CharClass, kind: TokenKind) returns (r: Result<Token, Failure>)
      requires Valid()
      modifies f
      ensures Valid() && Follows(r, Lexer.FEat(old(View()), cls, kind), View())
    {
      var acc := "";
      while true
        invariant Valid()
        invariant View() == old(View()).(s := f.View())
        invariant Lexer.EatRun(View(), cls, acc) == Lexer.EatRun(old(View()), cls, "")
        decreases |f.text| - f.pos
      {
        if f.eofbit {
          break;
        }
        var c := f.Get();
        if c.Ch? && Lexer.Accepts(cls, c.c) {
          acc := acc + [c.c];
        } else {
          f.Putback();
          break;
        }
      }
      if acc == "" {
        return Err(Abort("f_eat: no character accepted"));
      }
      return Ok(Token(acc, kind));
    }

    method FEatHex() returns (r: Result<Token, Failure>)
      requires Valid()
      modifies f
      ensures Valid() && Follows(r, Lexer.FEatHex(old(View())), View())
    {
      var ch := Getch();
      if ch.Err? {
        return Err(ch.error);
      }
      if ch.value != 'x' {
        return Err(Abort("f_eat_Hex: expected 'x'"));
      }
      var t := FEat(Lexer.XDigits, Hex);
      if t.Err? {
        return t;
      }
      if |t.value.value| % 2 != 0 {
        var p := Tellg();
        return Err(ParseError(OddHexDigits, p));
      }
      return t;
    }

    method Ws() returns (r: Result<(), Failure>)
      requires Valid()
      modifies this, f
      ensures Valid() && Leads(r, Lexer.Ws(old(View())), View())
    {
      var inComment := false;
      while true
        invariant Valid()
        invariant Lexer.WsLoop(View(), inComment) == Lexer.Ws(old(View()))
        decreases |f.text| - f.pos
      {
        ghost var v := View();
        var c := f.Peek();
        if f.eofbit {
          assert Lexer.WsLoop(v, inComment) == Ok(View());
          break;
        }
        if c == Ch('\n') {
          var p := f.Tellg();
          lineStart := p;
          lineno := lineno + 1;
        }
        ghost var v2 := View();
        if inComment || (c.Ch? && IsSpace(c.c)) || c == Ch('#') {
          var g := Getch();
          if g.Err? {
            assert Lexer.WsLoop(v, inComment) == Err(g.error);
            return Err(g.error);
          }
          var next := if c == Ch('\n') then false else if c == Ch('#') then true else inComment;
          Lexer.WsStep(v, inComment);
          assert View() == Lexer.Skip(Lexer.NoteNewline(v, c.c), 1);
          inComment := next;
        } else {
          assert Lexer.WsLoop(v, inComment) == Ok(v2);
          break;
        }
      }
      return Ok(());
    }

    method GetFtoken() returns (r: Result<Token, Failure>)
      requires Valid()
      modifies this, f
      ensures Valid() && Follows(r, Lexer.GetFtoken(old(View())), View())
    {
      var w := Ws();
      if w.Err? {
        return Err(w.error);
      }
      var g := Getch();
      if g.Err? {
        return Err(g.error);
      }
      var ch := g.value;
      ghost var t := View();
      assert Lexer.GetFtoken(old(View())) == Lexer.LexFrom(ch, t);
      if Lexer.Partner(ch).Some? {
        var c := f.Peek();
        if c == Ch(Lexer.Partner(ch).value) {
          var _ := f.Get();
          return Ok(Token([ch, c.c], Std));
        }
        if ch == '.' {
          var p := Tellg();
          return Err(ParseError(UnexpectedCharacter('.'), p));
        }
        return Ok(Token([ch], Std));
      }
      if ch in Lexer.Singles {
        return Ok(Token([ch], Std));
      }
      if IsDigit(ch) {
        if ch == '0' {
          var c := f.Peek();
          if c == Ch('x') {
            r := FEatHex();
            return;
          }
        }
        f.Putback();
        r := FEat(Lexer.Digits, Integer);
        return;
      }
      if Lexer.IsAlpha(ch) || ch == '$' {
        if ch != '$' {
          f.Putback();
        }
        var n := FEat(Lexer.NameChars, Name);
        if n.Err? {
          return n;
        }
        var kind := if ch == '$' then Extern else if n.value.value in Lexer.Keywords then Std else Name;
        return Ok(Token(n.value.value, kind));
      }
      var p := Tellg();
      return Err(ParseError(UnexpectedCharacter(ch), p));
    }

    method GetToken() returns (r: Result<Token, Failure>)
      requires Valid()
      modifies this, f
      ensures Valid() && Follows(r, Lexer.GetToken(old(View())), View())
    {
      if stored.IsValid() {
        var t := stored;
        stored := EmptyToken;
        return Ok(t);
      }
      r := GetFtoken();
    }

    method Peek() returns (r: Result<Token, Failure>)
      requires Valid()
      modifies this, f
      ensures Valid() && Follows(r, Lexer.Peek(old(View())), View())
    {
      if !stored.IsValid() {
        var p := Tellg();
        storedPos := p;
        var t := GetFtoken();
        if t.Err? {
          return t;
        }
        stored := t.value;
      }
      return Ok(stored);
    }

    method PushToken(t: Token) returns (r: Result<(), Failure>)
      requires Valid()
      modifies this, f
      ensures Valid() && Leads(r, Lexer.PushToken(old(View()), t), View())
    {
      if stored.IsValid() {
        var p := Tellg();
        return Err(ParseError(PushbackOccupied, p));
      }
      stored := t;
      return Ok(());
    }

    /** eat_token_type; eat_name and eat_integer call it with _name and
        _integer. */
    method EatTokenType(kind: TokenKind) returns (r: Result<Token, Failure>)
      requires Valid()
      modifies this, f
      ensures Valid() && Follows(r, Lexer.EatTokenType(old(View()), kind), View())
    {
      var t := GetToken();
      if t.Err? {
        return t;
      }
      if t.value.kind != kind {
        if t.value.kind == Name {
          return Err(Abort(Lexer.TypeNameOverrun));
        }
        var p := Tellg();
        return Err(ParseError(UnexpectedToken(t.value), p));
      }
      return t;
    }

    /** eat(): the next token, whatever it is. */
    method EatAny() returns (r: Result<(), Failure>)
      requires Valid()
      modifies this, f
      ensures Valid()
      ensures Lexer.GetToken(old(View())).Ok? ==> r == Ok(()) && View() == Lexer.GetToken(old(View())).value.1
      ensures Lexer.GetToken(old(View())).Err? ==> r == Err(Lexer.GetToken(old(View())).error)
    {
      var t := GetToken();
      if t.Err? {
        return Err(t.error);
      }
      return Ok(());
    }

    method EatToken(expected: Token) returns (r: Result<(), Failure>)
      requires Valid()
      modifies this, f
      ensures Valid() && Leads(r, Lexer.EatToken(old(View()), expected), View())
    {
      var t := GetToken();
      if t.Err? {
        return Err(t.error);
      }
      if !t.value.SameKind(expected) {
        var p := Tellg();
        return Err(ParseError(Expected(expected.value, t.value.value), p));
      }
      return Ok(());
    }

    method Eat(text: string) returns (r: Result<(), Failure>)
      requires Valid()
      modifies this, f
      ensures Valid() && Leads(r, Lexer.Eat(old(View()), text), View())
    {
      r := EatToken(Token(text, Std));
    }

    method Eof() returns (b: bool)
      requires Valid()
      modifies f
      ensures Valid() && (b, View()) == Lexer.Eof(old(View()))
    {
      if stored.IsValid() {
        return false;
      }
      var _ := f.Peek();
      return f.eofbit;
    }
  }
}
