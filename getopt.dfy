// class args (Hello/Hello.cpp): the command-line reader of the Hello
// driver, a cursor over argv that hands out one option per call.
module Getopt {
  import opened Wrappers

  const SWITCH: char := '-'
  const NUL: char := '\0'

  /** The value getopt returns at the end of the options. */
  const END: int := -1
  /** The value getopt returns for a word it cannot use. */
  const QUERY: int := '?' as int

  /** A C string: no character before its terminator is NUL. */
  predicate CString(s: string)
  {
    forall i :: 0 <= i < |s| ==> s[i] != NUL
  }

  /** The character at offset k of a C string, its terminator past the end. */
  function At(s: string, k: nat): char
  {
    if k < |s| then s[k] else NUL
  }

  /** strchr for a character other than NUL: the first offset holding c. */
  function Strchr(s: string, c: char): (r: Option<nat>)
    ensures r.Some? ==> r.value < |s| && s[r.value] == c && forall j :: 0 <= j < r.value ==> s[j] != c
    ensures r.None? ==> forall j :: 0 <= j < |s| ==> s[j] != c
    decreases |s|
  {
    if s == [] then None
    else if s[0] == c then Some(0)
    else match Strchr(s[1..], c)
      case None => None
      case Some(p) => Some(p + 1)
  }

  /** What one call hands back and leaves behind: the return value, the
      cursor, the option word past its switch, and the parameter. */
  datatype Outcome = Outcome(ch: int, index: int, arg: string, optarg: Option<string>)

  /** One call of getopt at cursor index, with arg as the previous call
      left it. */
  function Next(argv: seq<string>, options: string, index: int, arg: string): Outcome
  {
    if 0 <= index < |argv| then
      var w := argv[index];
      if At(w, 0) != SWITCH then Outcome(QUERY, index + 1, w, None)
      else
        var ch := At(w, 1);
        if ch == SWITCH || ch == NUL then Outcome(END, |argv|, w[1..], None)
        else match Strchr(options, ch)
          case None => Outcome(QUERY, |argv|, w[1..], None)
          case Some(p) =>
            if At(options, p + 1) == ':' then
              if index + 1 < |argv| then Outcome(ch as int, index + 2, w[1..], Some(argv[index + 1]))
              else Outcome(QUERY, |argv|, w[1..], None)
            else Outcome(ch as int, index + 1, w[1..], None)
    else Outcome(END, |argv|, arg, None)
  }

  class Args {
    const argv: seq<string>
    const options: string
    /** current_opt_index: the next word to read. */
    var index: int
    /** The last word read, past its switch when it has one. */
    var arg: string
    var optarg: Option<string>

    /** The cursor starts at 1, past the program name, and stays within
        argv afterwards; with no words at all the first call moves it
        back to 0. */
    predicate Valid()
      reads this
    {
      && CString(options)
      && 0 <= index
      && (index <= |argv| || (|argv| == 0 && index == 1))
    }

    constructor(argv: seq<string>, options: string)
      requires CString(options)
      ensures Valid() && this.argv == argv && this.options == options
      ensures index == 1 && arg == [] && optarg == None
    {
      this.argv := argv;
      this.options := options;
      index := 1;
      arg := [];
      optarg := None;
    }

    /** eof(): no more options; every later call ends too. */
    method Eof() returns (ch: int)
      modifies this
      ensures ch == END && index == |argv|
      ensures arg == old(arg) && optarg == old(optarg)
    {
      index := |argv|;
      return END;
    }

    /** parse_error(): a word that is not an option; nothing after it is read. */
    method ParseError() returns (ch: int)
      modifies this
      ensures ch == QUERY && index == |argv|
      ensures arg == old(arg) && optarg == old(optarg)
    {
      index := |argv|;
      return QUERY;
    }

    /** getopt(): read the next option, and its parameter when options
        marks it with ':'. */
    method GetOpt() returns (ch: int)
      requires Valid()
      modifies this
      ensures Valid()
      ensures Outcome(ch, index, arg, optarg) == Next(argv, options, old(index), old(arg))
    {
      optarg := None;
      if index < |argv| {
        var w := argv[index];
        index := index + 1;
        arg := w;
        if At(w, 0) != SWITCH {
          return QUERY;
        }
        arg := w[1..];
        var c := At(w, 1);
        if c == SWITCH || c == NUL {
          ch := Eof();
          return;
        }
        var p := Strchr(options, c);
        if p.None? {
          ch := ParseError();
          return;
        }
        if ':' == At(options, p.value + 1) {
          if index < |argv| {
            optarg := Some(argv[index]);
            index := index + 1;
          } else {
            ch := ParseError();
            return;
          }
        }
        return c as int;
      } else {
        ch := Eof();
      }
    }
  }

  // ---------------------------------------------------------------------
  // What getopt promises.

  /** The cursor never moves back and never passes argc; a call that does
      not end the options reads at least one word. */
  lemma CursorAdvances(argv: seq<string>, options: string, index: int, arg: string)
    requires 0 <= index <= |argv|
    ensures var r := Next(argv, options, index, arg);
      && index <= r.index <= |argv|
      && (r.ch != END ==> index < r.index)
      && (r.index == |argv| ==> Next(argv, options, r.index, r.arg).ch == END)
  {
  }

  /** At argc getopt returns -1, stays there and clears optarg. */
  lemma EndSticks(argv: seq<string>, options: string, arg: string)
    ensures Next(argv, options, |argv|, arg) == Outcome(END, |argv|, arg, None)
  {
  }

  /** optarg is set only when an option marked with ':' has a word after
      it, and then it is that word. */
  lemma OptargOnlyForParameters(argv: seq<string>, options: string, index: int, arg: string)
    requires 0 <= index < |argv|
    ensures var r := Next(argv, options, index, arg);
      r.optarg.Some? <==>
        && At(argv[index], 0) == SWITCH
        && At(argv[index], 1) != SWITCH && At(argv[index], 1) != NUL
        && Strchr(options, At(argv[index], 1)).Some?
        && At(options, Strchr(options, At(argv[index], 1)).value + 1) == ':'
        && index + 1 < |argv|
    ensures var r := Next(argv, options, index, arg);
      r.optarg.Some? ==> r.optarg.value == argv[index + 1] && r.index == index + 2
  {
  }

  /** A word without a leading switch is refused, and only that word is
      skipped. */
  lemma NonOptionSkipped(argv: seq<string>, options: string, index: int, arg: string)
    requires 0 <= index < |argv| && At(argv[index], 0) != SWITCH
    ensures Next(argv, options, index, arg) == Outcome(QUERY, index + 1, argv[index], None)
  {
  }

  /** "-" and any word starting with "--" end the options for good. */
  lemma DoubleDashEnds(argv: seq<string>, options: string, index: int, arg: string)
    requires 0 <= index < |argv| && |argv[index]| >= 1 && argv[index][0] == SWITCH
    requires |argv[index]| == 1 || argv[index][1] == SWITCH
    ensures var r := Next(argv, options, index, arg);
      r.ch == END && r.index == |argv| && Next(argv, options, r.index, r.arg).ch == END
  {
  }

  /** An option character options does not list is a parse error, and
      nothing after it is read. */
  lemma UnknownOptionStops(argv: seq<string>, options: string, index: int, arg: string)
    requires 0 <= index < |argv| && |argv[index]| >= 2 && argv[index][0] == SWITCH
    requires argv[index][1] != SWITCH && argv[index][1] != NUL
    requires forall j :: 0 <= j < |options| ==> options[j] != argv[index][1]
    ensures Next(argv, options, index, arg) == Outcome(QUERY, |argv|, argv[index][1..], None)
  {
  }

  /** An option marked with ':' takes the next word as its parameter,
      or is a parse error when there is none. */
  lemma ParameterTaken(argv: seq<string>, options: string, index: int, arg: string, p: nat)
    requires 0 <= index < |argv| && |argv[index]| >= 2 && argv[index][0] == SWITCH
    requires argv[index][1] != SWITCH && argv[index][1] != NUL
    requires p + 1 < |options| && options[p] == argv[index][1] && options[p + 1] == ':'
    requires forall j :: 0 <= j < p ==> options[j] != argv[index][1]
    ensures index + 1 < |argv| ==>
      Next(argv, options, index, arg) == Outcome(argv[index][1] as int, index + 2, argv[index][1..], Some(argv[index + 1]))
    ensures index + 1 == |argv| ==>
      Next(argv, options, index, arg) == Outcome(QUERY, |argv|, argv[index][1..], None)
  {
    assert Strchr(options, argv[index][1]) == Some(p);
  }

  /** The values successive calls return, up to and including the -1
      that ends them; the cursor's progress makes the list finite. */
  function Calls(argv: seq<string>, options: string, index: int, arg: string): (r: seq<int>)
    requires 0 <= index <= |argv|
    ensures |r| >= 1 && r[|r| - 1] == END
    ensures forall k :: 0 <= k < |r| - 1 ==> r[k] != END
    decreases |argv| - index
  {
    var o := Next(argv, options, index, arg);
    CursorAdvances(argv, options, index, arg);
    if o.ch == END then [END]
    else [o.ch] + Calls(argv, options, o.index, o.arg)
  }

  /** Calls returns one value per call until -1: at most one call per
      word of argv after the cursor, plus the final one. */
  lemma {:induction false} CallsBounded(argv: seq<string>, options: string, index: int, arg: string)
    requires 0 <= index <= |argv|
    ensures |Calls(argv, options, index, arg)| <= |argv| - index + 1
    decreases |argv| - index
  {
    var o := Next(argv, options, index, arg);
    CursorAdvances(argv, options, index, arg);
    if o.ch != END {
      CallsBounded(argv, options, o.index, o.arg);
    }
  }

  // ---------------------------------------------------------------------
  // ':' as an option character.

  /** As written, strchr finds the ':' that marks a parameter, so "-:"
      is accepted as an option with "f:o:O". */
  lemma ColonIsAnOption()
    ensures Next(["Hello", "-:"], "f:o:O", 1, []).ch == ':' as int
  {
    assert ["Hello", "-:"][1] == "-:";
    assert Strchr("f:o:O", ':') == Some(1);
  }

  /** The evidently intended getopt: ':' is a marker, never an option. */
  function NextChecked(argv: seq<string>, options: string, index: int, arg: string): Outcome
  {
    if 0 <= index < |argv| && At(argv[index], 0) == SWITCH && At(argv[index], 1) == ':' then
      Outcome(QUERY, |argv|, argv[index][1..], None)
    else Next(argv, options, index, arg)
  }

  /** With the check, every option returned is a character options lists
      as an option, not its ':' marker. */
  lemma CheckedReturnsDeclared(argv: seq<string>, options: string, index: int, arg: string)
    requires 0 <= index <= |argv|
    ensures var r := NextChecked(argv, options, index, arg);
      r.ch != END && r.ch != QUERY ==>
        r.ch != ':' as int && exists p :: 0 <= p < |options| && options[p] as int == r.ch
  {
    var r := NextChecked(argv, options, index, arg);
    if r.ch != END && r.ch != QUERY {
      var c := At(argv[index], 1);
      var p := Strchr(options, c).value;
      assert options[p] as int == r.ch;
    }
  }

  /** The check changes nothing for an options string without ':'. */
  lemma CheckedAgreesWithoutMarkers(argv: seq<string>, options: string, index: int, arg: string)
    requires forall j :: 0 <= j < |options| ==> options[j] != ':'
    ensures NextChecked(argv, options, index, arg) == Next(argv, options, index, arg)
  {
    if 0 <= index < |argv| && At(argv[index], 0) == SWITCH && At(argv[index], 1) == ':' {
      assert Strchr(options, ':').None?;
    }
  }
}
