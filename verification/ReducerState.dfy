/** Reducing state: every grouping of the operands agrees with the fold exactly for associative functions. */
module ReducerState {
  import opened Streams
  import opened Bytes
  import opened MergeTrees

  type Reducer<!T> = (T, T) -> T

  function Fold1<T>(f: Reducer<T>, xs: seq<T>): T
    requires xs != []
  {
    if |xs| == 1 then xs[0] else f(Fold1(f, xs[..|xs| - 1]), xs[|xs| - 1])
  }

  /** Folds the decoded operands; `None` stands for a decoding error. */
  function ReduceAll<T>(c: Codec<T>, f: Reducer<T>, sofar: Option<T>, ops: seq<bytes>): Option<Option<T>>
    decreases |ops|
  {
    if ops == [] then Some(sofar)
    else
      match ReadDelimited(c, ops[0])
      case None => None
      case Some((x, _)) => ReduceAll(c, f, Some(match sofar case None => x case Some(a) => f(a, x)), ops[1..])
  }

  /** No operands at all is an error in the source. */
  function Merged<T>(c: Codec<T>, f: Reducer<T>, ops: seq<bytes>): Option<bytes> {
    match ReduceAll(c, f, None, ops)
    case None => None
    case Some(None) => None
    case Some(Some(x)) => Some(Delimited(c, x))
  }

  lemma {:induction false} ReduceAllIff<T>(c: Codec<T>, f: Reducer<T>, sofar: Option<T>, ops: seq<bytes>)
    ensures ReduceAll(c, f, sofar, ops).Some? <==> forall op :: op in ops ==> ReadDelimited(c, op).Some?
    ensures ReduceAll(c, f, sofar, ops) == Some(None) <==> sofar == None && ops == []
    decreases |ops|
  {
    if ops != [] {
      assert forall op :: op in ops <==> op == ops[0] || op in ops[1..];
      match ReadDelimited(c, ops[0])
      case None => assert ops[0] in ops;
      case Some((x, _)) => ReduceAllIff(c, f, Some(match sofar case None => x case Some(a) => f(a, x)), ops[1..]);
    }
  }

  /** A merge fails exactly when there is no operand or one that does not decode. */
  lemma MergeFailsIff<T>(c: Codec<T>, f: Reducer<T>, ops: seq<bytes>)
    ensures Merged(c, f, ops).None? <==> ops == [] || exists op :: op in ops && ReadDelimited(c, op).None?
  {
    ReduceAllIff(c, f, None, ops);
  }

  ghost predicate Associative<T(!new)>(f: Reducer<T>) {
    forall x, y, z :: f(f(x, y), z) == f(x, f(y, z))
  }

  function Eval<T>(c: Codec<T>, f: Reducer<T>, t: MergeTree<T>): Option<bytes>
    decreases t, 1
  {
    match t
    case Leaf(x) => Some(Delimited(c, x))
    case Node(parts) =>
      match EvalAll(c, f, parts)
      case None => None
      case Some(ops) => Merged(c, f, ops)
  }

  function EvalAll<T>(c: Codec<T>, f: Reducer<T>, parts: seq<MergeTree<T>>): Option<seq<bytes>>
    decreases parts, 0
  {
    if parts == [] then Some([])
    else
      match Eval(c, f, parts[0])
      case None => None
      case Some(op) =>
        match EvalAll(c, f, parts[1..])
        case None => None
        case Some(ops) => Some([op] + ops)
  }

  lemma {:induction false} Fold1Concat<T(!new)>(f: Reducer<T>, xs: seq<T>, ys: seq<T>)
    requires Associative(f) && xs != [] && ys != []
    ensures Fold1(f, xs + ys) == f(Fold1(f, xs), Fold1(f, ys))
    decreases |ys|
  {
    var n := |ys| - 1;
    assert (xs + ys)[..|xs| + n] == xs + ys[..n];
    if n > 0 {
      Fold1Concat(f, xs, ys[..n]);
    } else {
      assert xs + ys[..n] == xs;
    }
  }

  lemma ReadBack<T(!new)>(c: Codec<T>, x: T)
    requires Lawful(c)
    ensures ReadDelimited(c, Delimited(c, x)) == Some((x, []))
  {
    DelimitedRoundTrip(c, x, []);
    assert Delimited(c, x) + [] == Delimited(c, x);
  }

  lemma EvalFolds<T(!new)>(c: Codec<T>, f: Reducer<T>, t: MergeTree<T>)
    requires Lawful(c) && Associative(f) && Solid(t)
    ensures Inputs(t) != [] && Eval(c, f, t) == Some(Delimited(c, Fold1(f, Inputs(t))))
    decreases t, 1
  {
    SolidHasInputs(t);
    match t
    case Leaf(x) =>
    case Node(parts) =>
      EvalAllFolds(c, f, None, [], parts);
      assert [] + InputsOf(parts) == InputsOf(parts);
  }

  lemma ReduceOne<T(!new)>(c: Codec<T>, f: Reducer<T>, sofar: Option<T>, x: T, ops: seq<bytes>)
    requires Lawful(c)
    ensures ReduceAll(c, f, sofar, [Delimited(c, x)] + ops) ==
      ReduceAll(c, f, Some(match sofar case None => x case Some(a) => f(a, x)), ops)
  {
    ReadBack(c, x);
    assert ([Delimited(c, x)] + ops)[1..] == ops;
  }

  lemma EvalAllFolds<T(!new)>(c: Codec<T>, f: Reducer<T>, sofar: Option<T>, done: seq<T>, parts: seq<MergeTree<T>>)
    requires Lawful(c) && Associative(f) && AllSolid(parts)
    requires match sofar case None => done == [] case Some(a) => done != [] && a == Fold1(f, done)
    ensures EvalAll(c, f, parts).Some?
    ensures ReduceAll(c, f, sofar, EvalAll(c, f, parts).value) ==
      if parts == [] then Some(sofar)
      else if done + InputsOf(parts) == [] then None
      else Some(Some(Fold1(f, done + InputsOf(parts))))
    decreases parts, 0
  {
    if parts != [] {
      var xs := Inputs(parts[0]);
      EvalFolds(c, f, parts[0]);
      if sofar.Some? { Fold1Concat(f, done, xs); } else { assert done + xs == xs; }
      var later, more := done + xs, parts[1..];
      EvalAllFolds(c, f, Some(Fold1(f, later)), later, more);
      Regroup(done, xs, InputsOf(more));
      ReduceOne(c, f, sofar, Fold1(f, xs), EvalAll(c, f, more).value);
    }
  }

  ghost predicate GroupingsAgree<T(!new)>(c: Codec<T>, f: Reducer<T>) {
    forall t: MergeTree<T> :: Solid(t) ==>
      Inputs(t) != [] && Eval(c, f, t) == Some(Delimited(c, Fold1(f, Inputs(t))))
  }

  lemma PairEval<T(!new)>(c: Codec<T>, f: Reducer<T>, a: MergeTree<T>, b: MergeTree<T>, x: T, y: T)
    requires Lawful(c) && Eval(c, f, a) == Some(Delimited(c, x)) && Eval(c, f, b) == Some(Delimited(c, y))
    ensures Eval(c, f, Node([a, b])) == Some(Delimited(c, f(x, y)))
    ensures Inputs(Node([a, b])) == Inputs(a) + Inputs(b)
  {
    var parts := [a, b];
    assert parts[1..] == [b] && parts[1..][1..] == [];
    var ops := [Delimited(c, x), Delimited(c, y)];
    assert EvalAll(c, f, parts[1..]) == Some([ops[1]] + []);
    assert [ops[0]] + ([ops[1]] + []) == ops;
    ReadBack(c, x);
    ReadBack(c, y);
    var last := ops[1..];
    assert last == [ops[1]] && |last[1..]| == 0;
    assert ReduceAll(c, f, None, ops) == ReduceAll(c, f, Some(x), last);
    assert ReduceAll(c, f, Some(x), last) == ReduceAll(c, f, Some(f(x, y)), last[1..]);
    assert Inputs(b) + [] == Inputs(b);
    assert InputsOf(parts[1..]) == Inputs(b) + [];
  }

  lemma Fold1OfThree<T>(f: Reducer<T>, x: T, y: T, z: T)
    ensures Fold1(f, [x, y, z]) == f(f(x, y), z)
  {
    var xs, ys := [x, y, z], [x, y];
    assert xs[..2] == ys && ys[..1] == [x];
    assert Fold1(f, ys) == f(Fold1(f, ys[..1]), y);
    assert Fold1(f, xs) == f(Fold1(f, xs[..2]), z);
  }

  lemma RightGrouping<T(!new)>(c: Codec<T>, f: Reducer<T>, x: T, y: T, z: T)
    requires Lawful(c)
    ensures var t := Node([Leaf(x), Node([Leaf(y), Leaf(z)])]);
      Solid(t) && Inputs(t) == [x, y, z] && Eval(c, f, t) == Some(Delimited(c, f(x, f(y, z))))
  {
    var right := Node([Leaf(y), Leaf(z)]);
    PairEval(c, f, Leaf(y), Leaf(z), y, z);
    PairEval(c, f, Leaf(x), right, x, f(y, z));
    PairSolid(Leaf(y), Leaf(z));
    PairSolid(Leaf(x), right);
  }

  /** Every grouping reduces to the left fold if and only if the reducer is associative. */
  lemma GroupingsAgreeIffAssociative<T(!new)>(c: Codec<T>, f: Reducer<T>)
    requires Lawful(c)
    ensures GroupingsAgree(c, f) <==> Associative(f)
  {
    if Associative(f) {
      forall t: MergeTree<T> | Solid(t)
        ensures Inputs(t) != [] && Eval(c, f, t) == Some(Delimited(c, Fold1(f, Inputs(t))))
      {
        EvalFolds(c, f, t);
      }
    }
    if GroupingsAgree(c, f) {
      forall x, y, z ensures f(f(x, y), z) == f(x, f(y, z)) {
        RightGrouping(c, f, x, y, z);
        Fold1OfThree(f, x, y, z);
        DelimitedInjective(c, f(x, f(y, z)), f(f(x, y), z));
      }
    }
  }
}
