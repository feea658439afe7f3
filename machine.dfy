// An abstract two-stack semantics for the part of Bitcoin script the
// variable allocator emits: data pushes, OP_0, OP_TOALTSTACK,
// OP_FROMALTSTACK, OP_DUP, OP_SWAP, OP_DROP and OP_ROLL.  The script
// interpreter itself (EvalScript) is not part of this model; every other
// opcode is treated as undefined here.

module StackMachine {

  import opened Wrappers
  import opened Script
  import opened Internals

  type Value = seq<byte>

  /** The main stack and the alt-stack; the last element is the top. */
  datatype Stacks = Stacks(main: seq<Value>, alt: seq<Value>)

  /** One instruction; None when the instruction fails (stack underflow,
      ROLL out of range) or is outside the modelled subset. */
  function Step(c: Code, s: Stacks): Option<Stacks>
  {
    match c
    case Data(b) => Some(s.(main := s.main + [b]))
    case Op(op) =>
      var m, a := s.main, s.alt;
      if op == OP_0 then Some(Stacks(m + [[]], a))
      else if op == OP_TOALTSTACK then
        if m == [] then None else Some(Stacks(m[..|m| - 1], a + [m[|m| - 1]]))
      else if op == OP_FROMALTSTACK then
        if a == [] then None else Some(Stacks(m + [a[|a| - 1]], a[..|a| - 1]))
      else if op == OP_DUP then
        if m == [] then None else Some(Stacks(m + [m[|m| - 1]], a))
      else if op == OP_SWAP then
        if |m| < 2 then None else Some(Stacks(m[..|m| - 2] + [m[|m| - 1], m[|m| - 2]], a))
      else if op == OP_DROP then
        if m == [] then None else Some(Stacks(m[..|m| - 1], a))
      else if op == OP_ROLL then
        if m == [] then None
        else
          var n := ScriptNumValue(m[|m| - 1]);
          var rest := m[..|m| - 1];
          if n < 0 || n >= |rest| then None
          else
            var i := |rest| - 1 - n;
            Some(Stacks(rest[..i] + rest[i + 1..] + [rest[i]], a))
      else None
  }

  /** Runs a code sequence from left to right, stopping at the first failure. */
  function Run(cs: seq<Code>, s: Stacks): Option<Stacks>
    decreases |cs|, 0
  {
    if cs == [] then Some(s)
    else RunAfter(Step(cs[0], s), cs[1..])
  }

  /** Runs cs from the state o, if there is one. */
  function RunAfter(o: Option<Stacks>, cs: seq<Code>): Option<Stacks>
    decreases |cs|, 1
  {
    if o.Some? then Run(cs, o.value) else None
  }

  lemma RunSingle(c: Code, s: Stacks)
    ensures Run([c], s) == Step(c, s)
  {
    assert [c][0] == c && [c][1..] == [];
    var o := Step(c, s);
    assert Run([c], s) == RunAfter(o, []);
    if o.Some? {
      assert Run([], o.value) == Some(o.value);
    }
  }

  /** One step that succeeds, then the rest of the code. */
  lemma RunCons(c: Code, rest: seq<Code>, s: Stacks, t: Stacks)
    requires Step(c, s) == Some(t)
    ensures Run([c] + rest, s) == Run(rest, t)
  {
    assert ([c] + rest)[0] == c && ([c] + rest)[1..] == rest;
  }

  lemma RunPair(c1: Code, c2: Code, s: Stacks, t: Stacks)
    requires Step(c1, s) == Some(t)
    ensures Run([c1, c2], s) == Step(c2, t)
  {
    assert [c1, c2][0] == c1 && [c1, c2][1..] == [c2];
    assert Run([c1, c2], s) == Run([c2], t);
    RunSingle(c2, t);
  }

  lemma {:induction false} RunAppend(a: seq<Code>, b: seq<Code>, s: Stacks)
    ensures Run(a + b, s) == RunAfter(Run(a, s), b)
  {
    if a == [] {
      assert a + b == b;
    } else {
      assert (a + b)[0] == a[0];
      assert (a + b)[1..] == a[1..] + b;
      var o := Step(a[0], s);
      if o.Some? {
        RunAppend(a[1..], b, o.value);
      }
    }
  }

  /** Two code sequences that end in the same state keep doing so when the
      same code is appended to both. */
  lemma RunAppendSame(a: seq<Code>, a': seq<Code>, b: seq<Code>, s: Stacks)
    requires Run(a, s) == Run(a', s)
    ensures Run(a + b, s) == Run(a' + b, s)
  {
    RunAppend(a, b, s);
    RunAppend(a', b, s);
  }

  function Rev<T>(s: seq<T>): (r: seq<T>)
    ensures |r| == |s|
  {
    if s == [] then [] else Rev(s[1..]) + [s[0]]
  }

  lemma {:induction false} RevAppend<T>(s: seq<T>, t: seq<T>)
    ensures Rev(s + t) == Rev(t) + Rev(s)
  {
    if s == [] {
      assert s + t == t;
    } else {
      assert (s + t)[1..] == s[1..] + t;
      RevAppend(s[1..], t);
    }
  }

  lemma {:induction false} RevRev<T>(s: seq<T>)
    ensures Rev(Rev(s)) == s
  {
    if s != [] {
      RevAppend(Rev(s[1..]), [s[0]]);
      RevRev(s[1..]);
      RevSingle(s[0]);
    }
  }

  lemma RevLast<T>(s: seq<T>)
    requires s != []
    ensures Rev(s) == [s[|s| - 1]] + Rev(s[..|s| - 1])
  {
    var init, last := s[..|s| - 1], s[|s| - 1];
    calc {
      Rev(s);
      { assert s == init + [last]; }
      Rev(init + [last]);
      { RevAppend(init, [last]); }
      Rev([last]) + Rev(init);
      { RevSingle(last); }
      [last] + Rev(init);
    }
  }

  lemma RevSingle<T>(x: T)
    ensures Rev([x]) == [x]
  {
    assert [x][1..] == [];
  }

}
