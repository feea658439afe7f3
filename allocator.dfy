// The stack choreography of the variable allocator
// (HelloDll/Hello_compiler.cpp, assign_from_top_of_stack and
// copy_to_top_of_stack): the opcode sequences each of them requests from
// the pipeline, before any peephole rewriting, and what those sequences do
// to the main stack and the alt-stack.  Every variable lives in a fixed
// slot of the alt-stack, slot 0 deepest.

module Allocator {

  import opened Wrappers
  import opened Script
  import opened Internals
  import opened StackMachine

  function Repeat(c: seq<Code>, k: nat): (r: seq<Code>)
    ensures |r| == k * |c|
  {
    if k == 0 then [] else c + Repeat(c, k - 1)
  }

  /** copy_to_top_of_stack for slot idx of n: (n-idx) x FROMALTSTACK,
      DUP, TOALTSTACK, then (n-idx-1) x (SWAP, TOALTSTACK). */
  function CopyRequests(n: nat, idx: nat): seq<Code>
    requires idx < n
  {
    Repeat([Op(OP_FROMALTSTACK)], n - idx) + [Op(OP_DUP), Op(OP_TOALTSTACK)]
      + Repeat([Op(OP_SWAP), Op(OP_TOALTSTACK)], n - idx - 1)
  }

  /** assign_from_top_of_stack for the existing slot idx of n:
      (n-idx) x FROMALTSTACK, DROP, then CScriptNum(n-1-idx) and ROLL when
      n-1-idx > 0, then (n-idx) x TOALTSTACK. */
  function AssignRequests(n: nat, idx: nat): seq<Code>
    requires idx < n
  {
    Repeat([Op(OP_FROMALTSTACK)], n - idx) + [Op(OP_DROP)]
      + RollRequests(n - 1 - idx)
      + Repeat([Op(OP_TOALTSTACK)], n - idx)
  }

  /** assign_from_top_of_stack for a name not yet in the table. */
  const NewVariableRequests: seq<Code> := [Op(OP_TOALTSTACK)]

  /** Moving the last element of a onto m, then k-1 more: the slicing
      behind RunFromAlt and RunToAlt. */
  lemma MoveLastShape<T>(m: seq<T>, a: seq<T>, k: nat)
    requires 0 < k <= |a|
    ensures a[..|a| - 1][..|a| - 1 - (k - 1)] == a[..|a| - k]
    ensures (m + [a[|a| - 1]]) + Rev(a[..|a| - 1][|a| - 1 - (k - 1)..]) == m + Rev(a[|a| - k..])
  {
    var X := a[|a| - k..];
    assert a[..|a| - 1][|a| - 1 - (k - 1)..] == X[..k - 1];
    RevLast(X);
    assert X[k - 1] == a[|a| - 1];
  }

  /** k FROMALTSTACKs move the top k alt-stack values onto the main stack,
      reversing their order. */
  lemma {:induction false} RunFromAlt(k: nat, m: seq<Value>, a: seq<Value>)
    requires k <= |a|
    ensures Run(Repeat([Op(OP_FROMALTSTACK)], k), Stacks(m, a))
         == Some(Stacks(m + Rev(a[|a| - k..]), a[..|a| - k]))
  {
    var c := Op(OP_FROMALTSTACK);
    if k > 0 {
      var t := Stacks(m + [a[|a| - 1]], a[..|a| - 1]);
      assert Step(c, Stacks(m, a)) == Some(t);
      assert Repeat([c], k) == [c] + Repeat([c], k - 1);
      RunCons(c, Repeat([c], k - 1), Stacks(m, a), t);
      RunFromAlt(k - 1, t.main, t.alt);
      MoveLastShape(m, a, k);
    } else {
      assert a[|a| - k..] == [] && a[..|a| - k] == a;
      assert m + Rev(a[|a| - k..]) == m;
    }
  }

  /** k TOALTSTACKs move the top k main-stack values onto the alt-stack,
      reversing their order. */
  lemma {:induction false} RunToAlt(k: nat, m: seq<Value>, a: seq<Value>)
    requires k <= |m|
    ensures Run(Repeat([Op(OP_TOALTSTACK)], k), Stacks(m, a))
         == Some(Stacks(m[..|m| - k], a + Rev(m[|m| - k..])))
  {
    var c := Op(OP_TOALTSTACK);
    if k > 0 {
      var t := Stacks(m[..|m| - 1], a + [m[|m| - 1]]);
      assert Step(c, Stacks(m, a)) == Some(t);
      assert Repeat([c], k) == [c] + Repeat([c], k - 1);
      RunCons(c, Repeat([c], k - 1), Stacks(m, a), t);
      RunToAlt(k - 1, t.main, t.alt);
      MoveLastShape(a, m, k);
    } else {
      assert m[|m| - k..] == [] && m[..|m| - k] == m;
      assert a + Rev(m[|m| - k..]) == a;
    }
  }

  /** (SWAP, TOALTSTACK) repeated |r| times sinks x under the reversed values
      r and returns those values to the alt-stack in their original order. */
  lemma {:induction false} RunSwapToAlt(r: seq<Value>, x: Value, m: seq<Value>, a: seq<Value>)
    ensures Run(Repeat([Op(OP_SWAP), Op(OP_TOALTSTACK)], |r|), Stacks(m + Rev(r) + [x], a))
         == Some(Stacks(m + [x], a + r))
  {
    if r != [] {
      var st := Stacks(m + Rev(r) + [x], a);
      assert Rev(r) == Rev(r[1..]) + [r[0]];
      var base := m + Rev(r[1..]);
      assert st.main == base + [r[0], x];
      var s1 := Stacks(base + [x, r[0]], a);
      var s2 := Stacks(base + [x], a + [r[0]]);
      assert Step(Op(OP_SWAP), st) == Some(s1) by {
        assert st.main[..|st.main| - 2] == base;
      }
      assert Step(Op(OP_TOALTSTACK), s1) == Some(s2) by {
        assert s1.main[..|s1.main| - 1] == base + [x];
      }
      RunSingle(Op(OP_SWAP), st);
      RunSingle(Op(OP_TOALTSTACK), s1);
      RunAppend([Op(OP_SWAP)], [Op(OP_TOALTSTACK)], st);
      assert [Op(OP_SWAP)] + [Op(OP_TOALTSTACK)] == [Op(OP_SWAP), Op(OP_TOALTSTACK)];
      assert Run([Op(OP_SWAP), Op(OP_TOALTSTACK)], st) == Some(s2);
      var rest := Repeat([Op(OP_SWAP), Op(OP_TOALTSTACK)], |r| - 1);
      assert Repeat([Op(OP_SWAP), Op(OP_TOALTSTACK)], |r|) == [Op(OP_SWAP), Op(OP_TOALTSTACK)] + rest;
      RunAppend([Op(OP_SWAP), Op(OP_TOALTSTACK)], rest, st);
      assert Run(Repeat([Op(OP_SWAP), Op(OP_TOALTSTACK)], |r|), st) == Run(rest, s2);
      RunSwapToAlt(r[1..], x, m, a + [r[0]]);
      assert s2.main == m + Rev(r[1..]) + [x];
      assert a + [r[0]] + r[1..] == a + r;
      assert Run(rest, s2) == Some(Stacks(m + [x], a + r));
    } else {
      assert Repeat([Op(OP_SWAP), Op(OP_TOALTSTACK)], |r|) == [];
      assert Rev(r) == [] && m + Rev(r) + [x] == m + [x] && a + r == a;
    }
  }

  /** Popping the slots above and including idx leaves the reversed upper
      slots and then slot idx on top of the main stack. */
  lemma PopSlots(m: seq<Value>, alt: seq<Value>, idx: nat)
    requires idx < |alt|
    ensures Run(Repeat([Op(OP_FROMALTSTACK)], |alt| - idx), Stacks(m, alt))
         == Some(Stacks(m + Rev(alt[idx + 1..]) + [alt[idx]], alt[..idx]))
  {
    var n := |alt|;
    var x, r := alt[idx], alt[idx + 1..];
    RunFromAlt(n - idx, m, alt);
    assert alt[|alt| - (n - idx)..] == [x] + r;
    assert alt[..|alt| - (n - idx)] == alt[..idx];
    RevAppend([x], r);
    RevSingle(x);
    assert m + Rev([x] + r) == m + Rev(r) + [x];
  }

  /** The post-condition of copy_to_top_of_stack: with one value per
      variable on the alt-stack, the requested sequence leaves the alt-stack
      unchanged and pushes a copy of slot idx onto the main stack. */
  lemma CopyRequestsCorrect(m: seq<Value>, alt: seq<Value>, idx: nat)
    requires idx < |alt|
    ensures Run(CopyRequests(|alt|, idx), Stacks(m, alt)) == Some(Stacks(m + [alt[idx]], alt))
  {
    var n := |alt|;
    var x := alt[idx];
    var r := alt[idx + 1..];
    var pops := Repeat([Op(OP_FROMALTSTACK)], n - idx);
    var mid := [Op(OP_DUP), Op(OP_TOALTSTACK)];
    var swaps := Repeat([Op(OP_SWAP), Op(OP_TOALTSTACK)], n - idx - 1);
    PopSlots(m, alt, idx);
    var s1 := Stacks(m + Rev(r) + [x], alt[..idx]);
    var s2 := Stacks(m + Rev(r) + [x], alt[..idx] + [x]);
    var dup := Stacks(m + Rev(r) + [x] + [x], alt[..idx]);
    assert Step(Op(OP_DUP), s1) == Some(dup);
    assert dup.main[..|dup.main| - 1] == m + Rev(r) + [x];
    assert Step(Op(OP_TOALTSTACK), dup) == Some(s2);
    RunPair(Op(OP_DUP), Op(OP_TOALTSTACK), s1, dup);
    RunSwapToAlt(r, x, m, alt[..idx] + [x]);
    assert alt[..idx] + [x] + r == alt;
    RunAppend(pops, mid, Stacks(m, alt));
    RunAppend(pops + mid, swaps, Stacks(m, alt));
  }

  /** CScriptNum(k) then ROLL, or nothing when k is 0: brings the value
      under the top k values up to the top. */
  function RollRequests(k: nat): seq<Code>
  {
    if k > 0 then [Data(ScriptNumBytes(k)), Op(OP_ROLL)] else []
  }

  /** The roll requests for k > 0 followed by rest, one request at a time. */
  lemma RollRequestsThen(k: nat, rest: seq<Code>)
    requires k > 0
    ensures RollRequests(k) + rest == [Data(ScriptNumBytes(k))] + ([Op(OP_ROLL)] + rest)
  {
  }

  lemma RollRequestsCorrect(m: seq<Value>, v: Value, R: seq<Value>, a: seq<Value>)
    ensures Run(RollRequests(|R|), Stacks(m + [v] + R, a)) == Some(Stacks(m + R + [v], a))
  {
    var k := |R|;
    var s2 := Stacks(m + [v] + R, a);
    var s3 := Stacks(m + R + [v], a);
    if k > 0 {
      var pushed := Stacks(s2.main + [ScriptNumBytes(k)], a);
      ScriptNumRoundTrip(k);
      var rest := pushed.main[..|pushed.main| - 1];
      assert rest == m + [v] + R;
      var i := |rest| - 1 - k;
      assert i == |m|;
      assert rest[..i] == m && rest[i] == v && rest[i + 1..] == R;
      assert pushed.main[|pushed.main| - 1] == ScriptNumBytes(k);
      assert rest[..i] + rest[i + 1..] + [rest[i]] == s3.main;
      assert Step(Op(OP_ROLL), pushed) == Some(s3);
      RunPair(Data(ScriptNumBytes(k)), Op(OP_ROLL), s2, pushed);
    } else {
      assert R == [];
      assert s3 == s2;
      assert Run([], s2) == Some(s2);
    }
  }

  /** The post-condition of assign_from_top_of_stack for an existing
      variable: the requested sequence consumes the new value on top of the
      main stack and replaces slot idx, and only slot idx, with it. */
  lemma AssignRequestsCorrect(m: seq<Value>, v: Value, alt: seq<Value>, idx: nat)
    requires idx < |alt|
    ensures Run(AssignRequests(|alt|, idx), Stacks(m + [v], alt)) == Some(Stacks(m, alt[idx := v]))
  {
    var n := |alt|;
    var r := alt[idx + 1..];
    var R := Rev(r);
    var pops := Repeat([Op(OP_FROMALTSTACK)], n - idx);
    var roll := RollRequests(|R|);
    var pushes := Repeat([Op(OP_TOALTSTACK)], n - idx);
    var s0 := Stacks(m + [v], alt);
    PopSlots(m + [v], alt, idx);
    var s1 := Stacks(m + [v] + R + [alt[idx]], alt[..idx]);
    var s2 := Stacks(m + [v] + R, alt[..idx]);
    assert s1.main[..|s1.main| - 1] == m + [v] + R;
    RunSingle(Op(OP_DROP), s1);
    var s3 := Stacks(m + R + [v], alt[..idx]);
    RollRequestsCorrect(m, v, R, alt[..idx]);
    AssignPushesBack(m, v, alt, idx);
    RunAppend(pops, [Op(OP_DROP)], s0);
    RunAppend(pops + [Op(OP_DROP)], roll, s0);
    RunAppend(pops + [Op(OP_DROP)] + roll, pushes, s0);
  }

  lemma AssignPushesBack(m: seq<Value>, v: Value, alt: seq<Value>, idx: nat)
    requires idx < |alt|
    ensures Run(Repeat([Op(OP_TOALTSTACK)], |alt| - idx), Stacks(m + Rev(alt[idx + 1..]) + [v], alt[..idx]))
         == Some(Stacks(m, alt[idx := v]))
  {
    var main := m + Rev(alt[idx + 1..]) + [v];
    RunToAlt(|alt| - idx, main, alt[..idx]);
    PushBackShape(m, v, alt, idx);
  }

  /** The slicing behind AssignPushesBack. */
  lemma PushBackShape<T>(m: seq<T>, v: T, alt: seq<T>, idx: nat)
    requires idx < |alt|
    ensures var main := m + Rev(alt[idx + 1..]) + [v];
      && main[..|main| - (|alt| - idx)] == m
      && alt[..idx] + Rev(main[|main| - (|alt| - idx)..]) == alt[idx := v]
  {
    var r := alt[idx + 1..];
    var R := Rev(r);
    var k := |alt| - idx;
    var main := m + R + [v];
    var top := main[|main| - k..];
    assert top == R + [v];
    assert main[..|main| - k] == m;
    assert Rev(top) == [v] + r by {
      RevAppend(R, [v]);
      RevRev(r);
      RevSingle(v);
    }
    assert alt[..idx] + ([v] + r) == alt[idx := v];
  }

  /** assign_from_top_of_stack for a new name: the value becomes the new
      top slot. */
  lemma NewVariableRequestsCorrect(m: seq<Value>, v: Value, alt: seq<Value>)
    ensures Run(NewVariableRequests, Stacks(m + [v], alt)) == Some(Stacks(m, alt + [v]))
  {
    assert (m + [v])[..|m + [v]| - 1] == m;
    RunSingle(Op(OP_TOALTSTACK), Stacks(m + [v], alt));
  }
}
