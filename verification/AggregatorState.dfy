/**
 Aggregating state. RocksDB and Sled keep a list of marked operands, values and
 accumulators, and merge them in whatever grouping they like; the in-memory backend folds
 values in as they come. The two agree for every grouping exactly when merging
 accumulators is a homomorphism.
 */
module AggregatorState {
  import opened Streams
  import opened Bytes
  import opened MergeTrees

  const ACCUMULATOR_MARKER: byte := 0xAC
  const VALUE_MARKER: byte := 0x00

  datatype Aggregator<!In, !Acc> = Aggregator(create: Acc, add: (Acc, In) -> Acc, merge: (Acc, Acc) -> Acc)

  /** An aggregator with the codecs of its inputs and accumulators. */
  datatype Setup<!In, !Acc> = Setup(agg: Aggregator<In, Acc>, ins: Codec<In>, accs: Codec<Acc>)

  ghost predicate Sound<In(!new), Acc(!new)>(s: Setup<In, Acc>) {
    Lawful(s.ins) && Lawful(s.accs)
  }

  function Fold<In, Acc>(agg: Aggregator<In, Acc>, acc: Acc, xs: seq<In>): Acc {
    if xs == [] then acc else agg.add(Fold(agg, acc, xs[..|xs| - 1]), xs[|xs| - 1])
  }

  /** Merging the accumulators of some inputs each is folding the concatenated inputs. */
  ghost predicate Homomorphic<In(!new), Acc(!new)>(agg: Aggregator<In, Acc>) {
    forall xs: seq<In>, ys: seq<In> :: xs != [] && ys != [] ==>
      agg.merge(Fold(agg, agg.create, xs), Fold(agg, agg.create, ys)) == Fold(agg, agg.create, xs + ys)
  }

  // ----- operands -----

  function ValueOperand<In, Acc>(s: Setup<In, Acc>, x: In): bytes { [VALUE_MARKER] + Delimited(s.ins, x) }

  function AccOperand<In, Acc>(s: Setup<In, Acc>, a: Acc): bytes { [ACCUMULATOR_MARKER] + Delimited(s.accs, a) }

  /** Takes one operand into an accumulator; the first one may find no accumulator yet. */
  function TakeOperand<In, Acc>(s: Setup<In, Acc>, sofar: Option<Acc>, op: bytes): Option<Acc> {
    if op == [] then None
    else if op[0] == ACCUMULATOR_MARKER then
      match ReadDelimited(s.accs, op[1..])
      case None => None
      case Some((a, _)) => Some(match sofar case None => a case Some(b) => s.agg.merge(b, a))
    else if op[0] == VALUE_MARKER then
      match ReadDelimited(s.ins, op[1..])
      case None => None
      case Some((x, _)) => Some(s.agg.add(match sofar case None => s.agg.create case Some(b) => b, x))
    else None
  }

  function TakeAll<In, Acc>(s: Setup<In, Acc>, sofar: Option<Acc>, ops: seq<bytes>): Option<Acc>
    decreases |ops|
  {
    if ops == [] then Some(match sofar case None => s.agg.create case Some(a) => a)
    else
      match TakeOperand(s, sofar, ops[0])
      case None => None
      case Some(a) => TakeAll(s, Some(a), ops[1..])
  }

  function Merged<In, Acc>(s: Setup<In, Acc>, ops: seq<bytes>): Option<bytes> {
    match TakeAll(s, None, ops)
    case None => None
    case Some(a) => Some(AccOperand(s, a))
  }

  /** Byte 0xAC and an accumulator, or byte 0 and a value; what follows is ignored. */
  predicate Operand<In, Acc>(s: Setup<In, Acc>, op: bytes) {
    op != [] &&
    ((op[0] == 0xAC && ReadDelimited(s.accs, op[1..]).Some?) || (op[0] == 0 && ReadDelimited(s.ins, op[1..]).Some?))
  }

  lemma {:induction false} TakeAllIff<In, Acc>(s: Setup<In, Acc>, sofar: Option<Acc>, ops: seq<bytes>)
    ensures TakeAll(s, sofar, ops).Some? <==> forall op :: op in ops ==> Operand(s, op)
    decreases |ops|
  {
    if ops != [] {
      var a := TakeOperand(s, sofar, ops[0]);
      assert a.Some? <==> Operand(s, ops[0]);
      if a.Some? {
        TakeAllIff(s, a, ops[1..]);
        assert forall op :: op in ops <==> op == ops[0] || op in ops[1..];
      } else {
        assert ops[0] in ops;
      }
    }
  }

  /** A merge fails exactly when some operand is none of those; it yields an accumulator otherwise. */
  lemma MergeFailsIff<In, Acc>(s: Setup<In, Acc>, ops: seq<bytes>)
    ensures Merged(s, ops).Some? <==> forall op :: op in ops ==> Operand(s, op)
    ensures Merged(s, ops).Some? ==> Merged(s, ops).value[0] == 0xAC
  {
    TakeAllIff(s, None, ops);
  }

  /** The merge operator: the stored value, if any, then the operands, into one accumulator. */
  method Merge<In, Acc>(s: Setup<In, Acc>, first: Option<bytes>, rest: seq<bytes>) returns (r: Option<bytes>)
    ensures r == Merged(s, (if first.Some? then [first.value] else []) + rest)
  {
    var slices := (if first.Some? then [first.value] else []) + rest;
    if slices == [] {
      return Some(AccOperand(s, s.agg.create));
    }
    var head := TakeOperand(s, None, slices[0]);
    if head.None? {
      return None;
    }
    var accumulator := head.value;
    var i := 1;
    while i < |slices|
      invariant 1 <= i <= |slices|
      invariant TakeAll(s, None, slices) == TakeAll(s, Some(accumulator), slices[i..])
    {
      assert slices[i..][0] == slices[i] && slices[i..][1..] == slices[i + 1..];
      var next := TakeOperand(s, Some(accumulator), slices[i]);
      if next.None? {
        return None;
      }
      accumulator := next.value;
      i := i + 1;
    }
    return Some(AccOperand(s, accumulator));
  }

  /** Reading asserts that what is stored is an accumulator. */
  function Get<In, Acc>(s: Setup<In, Acc>, stored: Option<bytes>): (r: Outcome<Acc>)
    ensures r.Panic? <==> stored.Some? && (stored.value == [] || stored.value[0] != 0xAC)
  {
    match stored
    case None => Done(s.agg.create)
    case Some(b) =>
      if b == [] || b[0] != ACCUMULATOR_MARKER then Panic
      else match ReadDelimited(s.accs, b[1..]) case None => Failed case Some((a, _)) => Done(a)
  }

  // ----- groupings -----

  function Eval<In, Acc>(s: Setup<In, Acc>, t: MergeTree<In>): Option<bytes>
    decreases t, 1
  {
    match t
    case Leaf(x) => Some(ValueOperand(s, x))
    case Node(parts) =>
      match EvalAll(s, parts)
      case None => None
      case Some(ops) => Merged(s, ops)
  }

  function EvalAll<In, Acc>(s: Setup<In, Acc>, parts: seq<MergeTree<In>>): Option<seq<bytes>>
    decreases parts, 0
  {
    if parts == [] then Some([])
    else
      match Eval(s, parts[0])
      case None => None
      case Some(op) =>
        match EvalAll(s, parts[1..])
        case None => None
        case Some(ops) => Some([op] + ops)
  }

  lemma FoldSnoc<In, Acc>(agg: Aggregator<In, Acc>, acc: Acc, xs: seq<In>, x: In)
    ensures Fold(agg, acc, xs + [x]) == agg.add(Fold(agg, acc, xs), x)
  {
    assert (xs + [x])[..|xs|] == xs;
  }

  lemma TakeValue<In(!new), Acc(!new)>(s: Setup<In, Acc>, sofar: Option<Acc>, x: In)
    requires Sound(s)
    ensures TakeOperand(s, sofar, ValueOperand(s, x)) ==
      Some(s.agg.add(match sofar case None => s.agg.create case Some(b) => b, x))
  {
    DelimitedRoundTrip(s.ins, x, []);
    assert ValueOperand(s, x)[1..] == Delimited(s.ins, x) + [];
  }

  lemma TakeAccumulator<In(!new), Acc(!new)>(s: Setup<In, Acc>, sofar: Option<Acc>, a: Acc)
    requires Sound(s)
    ensures TakeOperand(s, sofar, AccOperand(s, a)) == Some(match sofar case None => a case Some(b) => s.agg.merge(b, a))
  {
    DelimitedRoundTrip(s.accs, a, []);
    assert AccOperand(s, a)[1..] == Delimited(s.accs, a) + [];
  }

  /** The operand stands for the inputs `xs`: one value, or the accumulator of several. */
  ghost predicate StandsFor<In(!new), Acc(!new)>(s: Setup<In, Acc>, op: bytes, xs: seq<In>) {
    (|xs| == 1 && op == ValueOperand(s, xs[0])) || op == AccOperand(s, Fold(s.agg, s.agg.create, xs))
  }

  lemma TakeStandsFor<In(!new), Acc(!new)>(s: Setup<In, Acc>, sofar: Option<Acc>, done: seq<In>, op: bytes, xs: seq<In>)
    requires Sound(s) && Homomorphic(s.agg) && StandsFor(s, op, xs) && xs != []
    requires match sofar case None => done == [] case Some(a) => done != [] && a == Fold(s.agg, s.agg.create, done)
    ensures TakeOperand(s, sofar, op) == Some(Fold(s.agg, s.agg.create, done + xs))
  {
    if |xs| == 1 && op == ValueOperand(s, xs[0]) {
      TakeValue(s, sofar, xs[0]);
      assert xs == [xs[0]];
      FoldSnoc(s.agg, s.agg.create, done, xs[0]);
    } else {
      TakeAccumulator(s, sofar, Fold(s.agg, s.agg.create, xs));
      if sofar.None? { assert done + xs == xs; }
    }
  }

  lemma TakeOne<In, Acc>(s: Setup<In, Acc>, sofar: Option<Acc>, op: bytes, ops: seq<bytes>, a: Acc)
    requires TakeOperand(s, sofar, op) == Some(a)
    ensures TakeAll(s, sofar, [op] + ops) == TakeAll(s, Some(a), ops)
  {
    assert ([op] + ops)[1..] == ops;
  }

  lemma TakeAllStandsFor<In(!new), Acc(!new)>(s: Setup<In, Acc>, sofar: Option<Acc>, done: seq<In>, parts: seq<MergeTree<In>>)
    requires Sound(s) && Homomorphic(s.agg) && AllSolid(parts)
    requires match sofar case None => done == [] case Some(a) => done != [] && a == Fold(s.agg, s.agg.create, done)
    ensures EvalAll(s, parts).Some?
    ensures TakeAll(s, sofar, EvalAll(s, parts).value) == Some(Fold(s.agg, s.agg.create, done + InputsOf(parts)))
    decreases parts, 0
  {
    if parts == [] {
      assert done + InputsOf(parts) == done;
    } else {
      var xs := Inputs(parts[0]);
      EvalStandsFor(s, parts[0]);
      SolidHasInputs(parts[0]);
      var op := Eval(s, parts[0]).value;
      TakeStandsFor(s, sofar, done, op, xs);
      var more, a, later := parts[1..], Fold(s.agg, s.agg.create, done + xs), done + xs;
      TakeAllStandsFor(s, Some(a), later, more);
      Regroup(done, xs, InputsOf(more));
      TakeOne(s, sofar, op, EvalAll(s, more).value, a);
    }
  }

  lemma EvalStandsFor<In(!new), Acc(!new)>(s: Setup<In, Acc>, t: MergeTree<In>)
    requires Sound(s) && Homomorphic(s.agg) && Solid(t)
    ensures Eval(s, t).Some? && StandsFor(s, Eval(s, t).value, Inputs(t))
    ensures t.Node? ==> Eval(s, t).value == AccOperand(s, Fold(s.agg, s.agg.create, Inputs(t)))
    decreases t, 1
  {
    match t
    case Leaf(x) => assert [x] == Inputs(t);
    case Node(parts) =>
      TakeAllStandsFor(s, None, [], parts);
      assert [] + InputsOf(parts) == Inputs(t);
  }

  /** What the in-memory backend holds after the same values: a left fold. */
  method InMemoryAggregate<In, Acc>(agg: Aggregator<In, Acc>, values: seq<In>) returns (acc: Acc)
    ensures acc == Fold(agg, agg.create, values)
  {
    acc := agg.create;
    var i := 0;
    while i < |values|
      invariant 0 <= i <= |values| && acc == Fold(agg, agg.create, values[..i])
    {
      assert values[..i + 1] == values[..i] + [values[i]];
      FoldSnoc(agg, agg.create, values[..i], values[i]);
      acc := agg.add(acc, values[i]);
      i := i + 1;
    }
    assert values[..i] == values;
  }

  /** Every grouping a store can make agrees with the fold. */
  ghost predicate GroupingsAgree<In(!new), Acc(!new)>(s: Setup<In, Acc>) {
    forall t: MergeTree<In> :: t.Node? && Solid(t) ==>
      Eval(s, t).Some? && Get(s, Eval(s, t)) == Done(Fold(s.agg, s.agg.create, Inputs(t)))
  }

  lemma GetAccumulator<In(!new), Acc(!new)>(s: Setup<In, Acc>, a: Acc)
    requires Sound(s)
    ensures Get(s, Some(AccOperand(s, a))) == Done(a)
  {
    DelimitedRoundTrip(s.accs, a, []);
    assert AccOperand(s, a)[1..] == Delimited(s.accs, a) + [];
  }

  /** Merging only values is folding them, whatever the aggregator's merge does. */
  lemma {:induction false} FlatNodeFolds<In(!new), Acc(!new)>(s: Setup<In, Acc>, sofar: Option<Acc>, done: seq<In>, xs: seq<In>)
    requires Sound(s)
    requires match sofar case None => done == [] case Some(a) => a == Fold(s.agg, s.agg.create, done)
    ensures EvalAll(s, Leaves(xs)).Some?
    ensures TakeAll(s, sofar, EvalAll(s, Leaves(xs)).value) == Some(Fold(s.agg, s.agg.create, done + xs))
    decreases |xs|
  {
    if xs == [] {
      assert done + xs == done;
    } else {
      var x, later, more := xs[0], done + [xs[0]], xs[1..];
      var a := Fold(s.agg, s.agg.create, later);
      TakeOneValue(s, sofar, done, x);
      FlatNodeFolds(s, Some(a), later, more);
      Regroup(done, [x], more);
      assert [x] + more == xs;
      EvalFirstLeaf(s, xs);
      TakeOne(s, sofar, ValueOperand(s, x), EvalAll(s, Leaves(more)).value, a);
    }
  }

  lemma EvalFirstLeaf<In, Acc>(s: Setup<In, Acc>, xs: seq<In>)
    requires xs != [] && EvalAll(s, Leaves(xs[1..])).Some?
    ensures EvalAll(s, Leaves(xs)) == Some([ValueOperand(s, xs[0])] + EvalAll(s, Leaves(xs[1..])).value)
  {
    assert Leaves(xs)[1..] == Leaves(xs[1..]);
    assert Leaves(xs)[0] == Leaf(xs[0]);
  }

  lemma TakeOneValue<In(!new), Acc(!new)>(s: Setup<In, Acc>, sofar: Option<Acc>, done: seq<In>, x: In)
    requires Sound(s)
    requires match sofar case None => done == [] case Some(a) => a == Fold(s.agg, s.agg.create, done)
    ensures TakeOperand(s, sofar, ValueOperand(s, x)) == Some(Fold(s.agg, s.agg.create, done + [x]))
  {
    TakeValue(s, sofar, x);
    FoldSnoc(s.agg, s.agg.create, done, x);
  }

  lemma TakeTwo<In(!new), Acc(!new)>(s: Setup<In, Acc>, a: Acc, b: Acc)
    requires Sound(s)
    ensures Merged(s, [AccOperand(s, a), AccOperand(s, b)]) == Some(AccOperand(s, s.agg.merge(a, b)))
  {
    var p, q := AccOperand(s, a), AccOperand(s, b);
    TakeAccumulator(s, None, a);
    TakeAccumulator(s, Some(a), b);
    assert [p] + [q] == [p, q] && [q] + [] == [q];
    TakeOne(s, None, p, [q], a);
    TakeOne(s, Some(a), q, [], s.agg.merge(a, b));
  }

  lemma EvalPair<In, Acc>(s: Setup<In, Acc>, l: MergeTree<In>, r: MergeTree<In>, p: bytes, q: bytes)
    requires Eval(s, l) == Some(p) && Eval(s, r) == Some(q)
    ensures Eval(s, Node([l, r])) == Merged(s, [p, q])
    ensures Inputs(Node([l, r])) == Inputs(l) + Inputs(r)
  {
    var parts := [l, r];
    var last := parts[1..];
    assert last == [r] && |last[1..]| == 0;
    assert EvalAll(s, last) == Some([q] + []);
    assert [p] + ([q] + []) == [p, q];
    assert InputsOf(last) == Inputs(r) + [] && Inputs(r) + [] == Inputs(r);
  }

  lemma TwoNodesMerge<In(!new), Acc(!new)>(s: Setup<In, Acc>, xs: seq<In>, ys: seq<In>)
    requires Sound(s)
    ensures var t := Node([Node(Leaves(xs)), Node(Leaves(ys))]);
      && Inputs(t) == xs + ys
      && Eval(s, t) == Some(AccOperand(s, s.agg.merge(Fold(s.agg, s.agg.create, xs), Fold(s.agg, s.agg.create, ys))))
  {
    FlatNodeFolds(s, None, [], xs);
    FlatNodeFolds(s, None, [], ys);
    assert [] + xs == xs && [] + ys == ys;
    InputsOfLeaves(xs);
    InputsOfLeaves(ys);
    var a, b := Fold(s.agg, s.agg.create, xs), Fold(s.agg, s.agg.create, ys);
    EvalPair(s, Node(Leaves(xs)), Node(Leaves(ys)), AccOperand(s, a), AccOperand(s, b));
    TakeTwo(s, a, b);
  }

  /** Every grouping a store can make yields the fold if and only if merging is a homomorphism. */
  lemma GroupingsAgreeIffHomomorphic<In(!new), Acc(!new)>(s: Setup<In, Acc>)
    requires Sound(s)
    ensures GroupingsAgree(s) <==> Homomorphic(s.agg)
  {
    if Homomorphic(s.agg) {
      forall t: MergeTree<In> | t.Node? && Solid(t)
        ensures Eval(s, t).Some? && Get(s, Eval(s, t)) == Done(Fold(s.agg, s.agg.create, Inputs(t)))
      {
        EvalStandsFor(s, t);
        GetAccumulator(s, Fold(s.agg, s.agg.create, Inputs(t)));
      }
    }
    if GroupingsAgree(s) {
      forall xs: seq<In>, ys: seq<In> | xs != [] && ys != []
        ensures s.agg.merge(Fold(s.agg, s.agg.create, xs), Fold(s.agg, s.agg.create, ys)) == Fold(s.agg, s.agg.create, xs + ys)
      {
        var t := Node([Node(Leaves(xs)), Node(Leaves(ys))]);
        LeavesAreSolid(xs);
        LeavesAreSolid(ys);
        PairSolid(Node(Leaves(xs)), Node(Leaves(ys)));
        TwoNodesMerge(s, xs, ys);
        GetAccumulator(s, s.agg.merge(Fold(s.agg, s.agg.create, xs), Fold(s.agg, s.agg.create, ys)));
        assert Get(s, Eval(s, t)) == Done(Fold(s.agg, s.agg.create, Inputs(t)));
      }
    }
  }

  // ----- Sled, which merges one new value at a time -----

  /** The merge function of Sled: the stored value, if any, and one new operand. */
  method SledMerge<In, Acc>(s: Setup<In, Acc>, existent: Option<bytes>, op: bytes) returns (r: Option<bytes>)
    ensures r == Merged(s, (if existent.Some? then [existent.value] else []) + [op])
  {
    var slices := (if existent.Some? then [existent.value] else []) + [op];
    var head := TakeOperand(s, None, slices[0]);
    if head.None? {
      return None;
    }
    var accumulator := head.value;
    var i := 1;
    while i < |slices|
      invariant 1 <= i <= |slices|
      invariant TakeAll(s, None, slices) == TakeAll(s, Some(accumulator), slices[i..])
    {
      assert slices[i..][0] == slices[i] && slices[i..][1..] == slices[i + 1..];
      var next := TakeOperand(s, Some(accumulator), slices[i]);
      if next.None? {
        return None;
      }
      accumulator := next.value;
      i := i + 1;
    }
    return Some(AccOperand(s, accumulator));
  }

  /** What is stored after values have been aggregated into a key that was empty. */
  function SledStored<In, Acc>(s: Setup<In, Acc>, values: seq<In>): Option<bytes> {
    if values == [] then None
    else
      var n := |values| - 1;
      var existent := SledStored(s, values[..n]);
      Merged(s, (if existent.Some? then [existent.value] else []) + [ValueOperand(s, values[n])])
  }

  /** For every aggregator, whatever its merge does, the stored accumulator is the fold of the values. */
  lemma {:induction false} SledStoresTheFold<In(!new), Acc(!new)>(s: Setup<In, Acc>, values: seq<In>)
    requires Sound(s)
    ensures SledStored(s, values) == if values == [] then None else Some(AccOperand(s, Fold(s.agg, s.agg.create, values)))
    ensures Get(s, SledStored(s, values)) == Done(Fold(s.agg, s.agg.create, values))
  {
    if values != [] {
      var n := |values| - 1;
      var front, x := values[..n], values[n];
      SledStoresTheFold(s, front);
      var a := Fold(s.agg, s.agg.create, front);
      OneMoreValue(s, front, x);
      GetAccumulator(s, s.agg.add(a, x));
    }
  }

  lemma OneMoreValue<In(!new), Acc(!new)>(s: Setup<In, Acc>, front: seq<In>, x: In)
    requires Sound(s)
    ensures var a := Fold(s.agg, s.agg.create, front);
      Merged(s, (if front == [] then [] else [AccOperand(s, a)]) + [ValueOperand(s, x)]) == Some(AccOperand(s, s.agg.add(a, x)))
  {
    var a, op := Fold(s.agg, s.agg.create, front), ValueOperand(s, x);
    assert [op] + [] == [op];
    if front == [] {
      TakeValue(s, None, x);
      TakeOne(s, None, op, [], s.agg.add(a, x));
      assert [] + [op] == [op];
    } else {
      TakeAccumulator(s, None, a);
      TakeValue(s, Some(a), x);
      TakeOne(s, None, AccOperand(s, a), [op], a);
      TakeOne(s, Some(a), op, [], s.agg.add(a, x));
    }
  }
}
