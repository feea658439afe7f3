// The input stream the tokeniser reads (HelloDll/tokeniser.h holds an
// istream&): the operations it uses, with the flag behaviour of the C++11
// standard library.  peek/get/putback/tellg construct a sentry, which sets
// failbit when the stream is not good; get at the end sets eofbit and
// failbit, peek at the end only eofbit; putback first clears eofbit.

module Streams {

  /** What peek and get return: a character or traits::eof(). */
  datatype Peeked = EOF | Ch(c: char)

  /** The characters, the read position and the two flags the tokeniser
      can observe.  badbit (putback before the first character) is folded
      into failbit: both make the stream not good. */
  datatype Stream = Stream(text: string, pos: nat, eofbit: bool, failbit: bool)
  {
    predicate Valid() { pos <= |text| }

    predicate Good() { !eofbit && !failbit }
  }

  /** A freshly opened stream. */
  function Open(text: string): (s: Stream)
    ensures s.Valid() && s.Good() && s.pos == 0 && s.text == text
  {
    Stream(text, 0, false, false)
  }

  /** istream::peek */
  function PeekResult(s: Stream): (r: (Peeked, Stream))
    requires s.Valid()
    ensures r.1.Valid() && r.1.text == s.text && r.1.pos == s.pos
    ensures r.0.Ch? <==> s.Good() && s.pos < |s.text|
    ensures r.0.Ch? ==> r.0.c == s.text[s.pos] && r.1 == s
    ensures r.0.EOF? ==> (r.1.eofbit <==> s.eofbit || s.Good()) && (r.1.failbit <==> !s.Good())
  {
    if !s.Good() then (EOF, s.(failbit := true))
    else if s.pos == |s.text| then (EOF, s.(eofbit := true))
    else (Ch(s.text[s.pos]), s)
  }

  /** istream::get */
  function GetResult(s: Stream): (r: (Peeked, Stream))
    requires s.Valid()
    ensures r.1.Valid() && r.1.text == s.text
    ensures r.0.Ch? <==> s.Good() && s.pos < |s.text|
    ensures r.0.Ch? ==> r.0.c == s.text[s.pos] && r.1 == s.(pos := s.pos + 1)
    ensures r.0.EOF? ==> r.1.failbit && r.1.pos == s.pos
    ensures r.1.Good() <==> r.0.Ch?
  {
    if !s.Good() then (EOF, s.(failbit := true))
    else if s.pos == |s.text| then (EOF, s.(eofbit := true, failbit := true))
    else (Ch(s.text[s.pos]), s.(pos := s.pos + 1))
  }

  /** istream::putback of the character just read: eofbit is cleared,
      then a stream that is still not good only gains failbit; otherwise
      the position steps back (before the first character: badbit). */
  function PutbackResult(s: Stream): (r: Stream)
    requires s.Valid()
    ensures r.Valid() && r.text == s.text && !r.eofbit
    ensures r.pos == s.pos || (r.pos + 1 == s.pos && r.Good())
    ensures s.Good() && s.pos > 0 ==> r == s.(pos := s.pos - 1)
    ensures s.failbit ==> r == s.(eofbit := false)
  {
    var s1 := s.(eofbit := false);
    if s1.failbit then s1
    else if s1.pos == 0 then s1.(failbit := true)
    else s1.(pos := s1.pos - 1)
  }

  /** istream::tellg: the position, or -1 (and failbit) when not good. */
  function TellgResult(s: Stream): (r: (int, Stream))
    requires s.Valid()
    ensures r.1.Valid() && r.1.text == s.text && r.1.pos == s.pos && r.1.eofbit == s.eofbit
    ensures s.Good() ==> r == (s.pos, s)
    ensures !s.Good() ==> r.0 == -1 && r.1.failbit
  {
    if s.Good() then (s.pos as int, s) else (-1, s.(failbit := true))
  }

  /** Reading a character and putting it back leaves the stream as it
      was; reading past the end and putting back leaves it failed with
      eofbit clear, at the same position. */
  lemma GetPutback(s: Stream)
    requires s.Valid()
    ensures var (c, s1) := GetResult(s);
      && (c.Ch? ==> PutbackResult(s1) == s)
      && (c.EOF? ==> PutbackResult(s1) == s.(eofbit := false, failbit := true))
  {
  }

  /** The stream the libstdc++ istream is: a text, a position and flags. */
  class InputStream {
    const text: string
    var pos: nat
    var eofbit: bool
    var failbit: bool

    function View(): Stream
      reads this
    {
      Stream(text, pos, eofbit, failbit)
    }

    predicate Valid()
      reads this
    {
      pos <= |text|
    }

    constructor(text: string)
      ensures Valid() && View() == Open(text)
    {
      this.text := text;
      pos := 0;
      eofbit := false;
      failbit := false;
    }

    method Peek() returns (c: Peeked)
      requires Valid()
      modifies this
      ensures Valid() && (c, View()) == PeekResult(old(View()))
    {
      if eofbit || failbit {
        failbit := true;
        return EOF;
      }
      if pos == |text| {
        eofbit := true;
        return EOF;
      }
      return Ch(text[pos]);
    }

    method Get() returns (c: Peeked)
      requires Valid()
      modifies this
      ensures Valid() && (c, View()) == GetResult(old(View()))
    {
      if eofbit || failbit {
        failbit := true;
        return EOF;
      }
      if pos == |text| {
        eofbit, failbit := true, true;
        return EOF;
      }
      c := Ch(text[pos]);
      pos := pos + 1;
    }

    method Putback()
      requires Valid()
      modifies this
      ensures Valid() && View() == PutbackResult(old(View()))
    {
      eofbit := false;
      if failbit {
        return;
      }
      if pos == 0 {
        failbit := true;
      } else {
        pos := pos - 1;
      }
    }

    method Tellg() returns (p: int)
      requires Valid()
      modifies this
      ensures Valid() && (p, View()) == TellgResult(old(View()))
    {
      if eofbit || failbit {
        failbit := true;
        return -1;
      }
      return pos;
    }

    method Eof() returns (b: bool)
      ensures b == eofbit
    {
      return eofbit;
    }
  }
}
