/** Groupings of merges: which operands a store merges first, and what they hold in order. */
module MergeTrees {

  /** A grouping of merges over values. */
  datatype MergeTree<+I> = Leaf(input: I) | Node(parts: seq<MergeTree<I>>)

  function Inputs<I>(t: MergeTree<I>): seq<I>
    decreases t, 1
  {
    match t
    case Leaf(x) => [x]
    case Node(parts) => InputsOf(parts)
  }

  function InputsOf<I>(parts: seq<MergeTree<I>>): seq<I>
    decreases parts, 0
  {
    if parts == [] then [] else Inputs(parts[0]) + InputsOf(parts[1..])
  }

  function Leaves<I>(xs: seq<I>): seq<MergeTree<I>> {
    seq(|xs|, i requires 0 <= i < |xs| => Leaf(xs[i]))
  }

  lemma Regroup<I>(a: seq<I>, b: seq<I>, c: seq<I>)
    ensures a + b + c == a + (b + c)
    ensures c == [] ==> a + b + c == a + b
  {
  }

  /** A grouping without empty merges: a store merges only when it has operands. */
  predicate Solid<T>(t: MergeTree<T>)
    decreases t, 1
  {
    t.Leaf? || (t.parts != [] && AllSolid(t.parts))
  }

  predicate AllSolid<T>(parts: seq<MergeTree<T>>)
    decreases parts, 0
  {
    parts == [] || (Solid(parts[0]) && AllSolid(parts[1..]))
  }

  lemma SolidHasInputs<T>(t: MergeTree<T>)
    requires Solid(t)
    ensures Inputs(t) != []
    decreases t
  {
    if t.Node? { SolidHasInputs(t.parts[0]); }
  }

  lemma PairSolid<T>(a: MergeTree<T>, b: MergeTree<T>)
    requires Solid(a) && Solid(b)
    ensures Solid(Node([a, b]))
  {
    var parts := [a, b];
    var last := parts[1..];
    assert last == [b] && |last[1..]| == 0;
    assert Solid(last[0]) && AllSolid(last[1..]);
    assert AllSolid(last) && AllSolid(parts);
    assert Node(parts).parts != [];
  }

  lemma {:induction false} InputsOfLeaves<I>(xs: seq<I>)
    ensures InputsOf(Leaves(xs)) == xs
  {
    if xs != [] {
      assert Leaves(xs)[1..] == Leaves(xs[1..]);
      InputsOfLeaves(xs[1..]);
    }
  }

  lemma {:induction false} LeavesAreSolid<I>(xs: seq<I>)
    ensures AllSolid(Leaves(xs)) && (xs != [] ==> Solid(Node(Leaves(xs))))
  {
    if xs != [] {
      assert Leaves(xs)[1..] == Leaves(xs[1..]) && Leaves(xs)[0] == Leaf(xs[0]);
      LeavesAreSolid(xs[1..]);
      assert AllSolid(Leaves(xs));
      assert Node(Leaves(xs)).parts == Leaves(xs);
    }
  }
}
