// The syntax tree (HelloDll/AST.h, with sequence::append from
// HelloDll/AST.cpp).  Children are shared_ptr values that may be empty; Null
// stands for an empty one.

module Ast {

  import opened Script
  import opened Internals

  datatype Node =
    | Null
      /** const_node: a literal with the type of the token it came from
          (value_type((int)t.type), so any token kind can reach it). */
    | Const(value: string, kind: TokenKind)
      /** rvalue_node: a variable read; is_extern for `$name`. */
    | RValue(name: string, isExtern: bool)
      /** unary_op: its constructor keeps neither operator nor operand. */
    | Unary
    | Binary(op: string, a: Node, b: Node)
    | Assign(name: string, expr: Node, p1: StreamPoint, p2: StreamPoint)
    | IfThenElse(cond: Node, a: Node, b: Node, p1: StreamPoint, p2: StreamPoint)
      /** for_loop: loop_variable_name is stored but never read. */
    | ForLoop(varName: string, first: int, last: int, block: Node, p1: StreamPoint, p2: StreamPoint)
    | NativeFunction(name: string, opcode: byte, args: Node)
    | Assertion(cond: Node, p1: StreamPoint, p2: StreamPoint)
    | Sequence(a: Node, b: Node)

  /** A default-constructed sequence: both children null. */
  const EmptySequence: Node := Sequence(Null, Null)

  /** The shape append maintains: b is only filled once a is. */
  predicate WellFormedSequence(s: Node)
  {
    s.Sequence? && (s.a == Null ==> s.b == Null)
  }

  /** sequence::append: fill a, then b, then rebind b := sequence(b, x). */
  function Append(s: Node, x: Node): (r: Node)
    requires s.Sequence?
    ensures r.Sequence?
  {
    if s.a == Null then Sequence(x, s.b)
    else if s.b == Null then Sequence(s.a, x)
    else Sequence(s.a, Sequence(s.b, x))
  }

  /** The non-null statements of a tree of sequences, in the order
      sequence::generate visits them. */
  function Items(n: Node): seq<Node>
  {
    match n
    case Null => []
    case Sequence(a, b) => Items(a) + Items(b)
    case _ => [n]
  }

  /** append keeps the shape, and the appended node is visited last:
      appended statements come out in append order. */
  lemma AppendOrder(s: Node, x: Node)
    requires WellFormedSequence(s)
    ensures WellFormedSequence(Append(s, x))
    ensures Items(Append(s, x)) == Items(s) + Items(x)
  {
    if s.a == Null {
      assert Items(s) == [];
    } else if s.b == Null {
    } else {
      assert Items(Append(s, x)) == Items(s.a) + (Items(s.b) + Items(x));
    }
  }

  /** Appending the statements one at a time to an empty sequence. */
  function AppendEach(s: Node, xs: seq<Node>): (r: Node)
    requires s.Sequence?
    ensures r.Sequence?
    decreases |xs|
  {
    if xs == [] then s else AppendEach(Append(s, xs[0]), xs[1..])
  }

  function Concat(xs: seq<Node>): seq<Node>
  {
    if xs == [] then [] else Items(xs[0]) + Concat(xs[1..])
  }

  lemma {:induction false} AppendEachOrder(s: Node, xs: seq<Node>)
    requires WellFormedSequence(s)
    ensures WellFormedSequence(AppendEach(s, xs))
    ensures Items(AppendEach(s, xs)) == Items(s) + Concat(xs)
    decreases |xs|
  {
    if xs != [] {
      AppendOrder(s, xs[0]);
      AppendEachOrder(Append(s, xs[0]), xs[1..]);
    }
  }

  /** The first statement appended to an empty sequence becomes its a,
      the second its b, and later ones nest under b. */
  lemma AppendEachShape(xs: seq<Node>)
    requires forall k :: 0 <= k < |xs| ==> xs[k] != Null
    ensures var s := AppendEach(EmptySequence, xs);
      && (|xs| == 0 <==> s.a == Null)
      && (|xs| <= 1 <==> s.b == Null)
      && (|xs| >= 1 ==> s.a == xs[0])
  {
    if |xs| >= 1 {
      var s1 := Append(EmptySequence, xs[0]);
      assert s1 == Sequence(xs[0], Null);
      AppendEachKeepsFirst(s1, xs[1..]);
      if |xs| >= 2 {
        var s2 := Append(s1, xs[1]);
        assert s2 == Sequence(xs[0], xs[1]);
        assert xs[1..][0] == xs[1] && xs[1..][1..] == xs[2..];
        AppendEachKeepsFirst(s2, xs[2..]);
        AppendEachKeepsSecond(s2, xs[2..]);
      } else {
        assert xs[1..] == [];
      }
    }
  }

  lemma {:induction false} AppendEachKeepsFirst(s: Node, xs: seq<Node>)
    requires s.Sequence? && s.a != Null
    ensures AppendEach(s, xs).a == s.a
    decreases |xs|
  {
    if xs != [] {
      AppendEachKeepsFirst(Append(s, xs[0]), xs[1..]);
    }
  }

  lemma {:induction false} AppendEachKeepsSecond(s: Node, xs: seq<Node>)
    requires s.Sequence? && s.a != Null && s.b != Null
    ensures AppendEach(s, xs).b != Null
    decreases |xs|
  {
    if xs != [] {
      AppendEachKeepsSecond(Append(s, xs[0]), xs[1..]);
    }
  }

  /** A statement-like node: neither null nor a sequence. */
  predicate Leaf(n: Node)
  {
    n != Null && !n.Sequence?
  }

  /** What b becomes once two nodes are in: a left-nested chain of
      sequences over leaves. */
  predicate Chain(n: Node)
  {
    match n
    case Sequence(a, b) => Chain(a) && Leaf(b)
    case _ => Leaf(n)
  }

  /** A sequence built by appending leaves to an empty sequence. */
  predicate Built(s: Node)
  {
    && s.Sequence?
    && (s.a == Null ==> s.b == Null)
    && (s.a != Null ==> Leaf(s.a))
    && (s.b != Null ==> Chain(s.b))
  }

  lemma {:induction false} ChainItems(n: Node)
    requires Chain(n)
    ensures |Items(n)| >= 1
  {
    if n.Sequence? {
      ChainItems(n.a);
    }
  }

  /** Appending a leaf keeps a built sequence built, and adds the leaf as
      its last item. */
  lemma AppendBuilt(s: Node, x: Node)
    requires Built(s) && Leaf(x)
    ensures Built(Append(s, x))
    ensures Items(Append(s, x)) == Items(s) + [x]
  {
    AppendOrder(s, x);
  }

  /** How many leaves a built sequence holds, read off its two children:
      none when a is null, at most one when b is, and the first is a. */
  lemma BuiltCount(s: Node)
    requires Built(s)
    ensures s.a == Null <==> |Items(s)| == 0
    ensures s.b == Null <==> |Items(s)| <= 1
    ensures s.a != Null ==> Items(s)[0] == s.a
  {
    if s.b != Null {
      ChainItems(s.b);
    }
  }
}
