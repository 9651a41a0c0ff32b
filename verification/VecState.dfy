/**
 The vector state of the RocksDB and Sled backends: a stored vector is its length, eight
 bytes little-endian, followed by its elements with their lengths in front. Appending is
 a merge, which the store may carry out late and in any grouping.
 */
module VecState {
  import opened Streams
  import opened Bytes

  function EncodeAll<T>(c: Codec<T>, xs: seq<T>): bytes {
    if xs == [] then [] else Delimited(c, xs[0]) + EncodeAll(c, xs[1..])
  }

  /** The stored form of a vector. */
  function EncodeVec<T>(c: Codec<T>, xs: seq<T>): bytes {
    Word(|xs|) + EncodeAll(c, xs)
  }

  lemma {:induction false} EncodeAllConcat<T>(c: Codec<T>, xs: seq<T>, ys: seq<T>)
    ensures EncodeAll(c, xs + ys) == EncodeAll(c, xs) + EncodeAll(c, ys)
  {
    if xs == [] {
      assert xs + ys == ys;
    } else {
      assert (xs + ys)[1..] == xs[1..] + ys;
      EncodeAllConcat(c, xs[1..], ys);
    }
  }

  function DecodeAll<T>(c: Codec<T>, b: bytes): Option<seq<T>>
    decreases |b|
  {
    if b == [] then Some([])
    else
      match ReadDelimited(c, b)
      case None => None
      case Some((x, rest)) =>
        match DecodeAll(c, rest)
        case None => None
        case Some(xs) => Some([x] + xs)
  }

  lemma {:induction false} DecodeAllRoundTrip<T(!new)>(c: Codec<T>, xs: seq<T>)
    requires Lawful(c)
    ensures DecodeAll(c, EncodeAll(c, xs)) == Some(xs)
  {
    if xs != [] {
      DelimitedRoundTrip(c, xs[0], EncodeAll(c, xs[1..]));
      DecodeAllRoundTrip(c, xs[1..]);
      assert EncodeAll(c, xs) != [];
      assert [xs[0]] + xs[1..] == xs;
    }
  }

  /** Reads a stored vector; the source panics when the count disagrees with the elements. */
  function DecodeVec<T>(c: Codec<T>, b: bytes): Outcome<seq<T>> {
    match ReadWord(b)
    case None => Failed
    case Some((n, rest)) =>
      match DecodeAll(c, rest)
      case None => Failed
      case Some(xs) => if |xs| == n then Done(xs) else Panic
  }

  lemma VecRoundTrip<T(!new)>(c: Codec<T>, xs: seq<T>)
    requires Lawful(c) && |xs| <= U64_MAX
    ensures DecodeVec(c, EncodeVec(c, xs)) == Done(xs)
  {
    WordRoundTrip(|xs|, EncodeAll(c, xs));
    DecodeAllRoundTrip(c, xs);
  }

  /** Elements behind a count are read when the count is right, and make the source panic when it is not. */
  lemma CountIsChecked<T(!new)>(c: Codec<T>, n: u64, xs: seq<T>)
    requires Lawful(c)
    ensures DecodeVec(c, Word(n) + EncodeAll(c, xs)) == if n == |xs| then Done(xs) else Panic
  {
    WordRoundTrip(n, EncodeAll(c, xs));
    DecodeAllRoundTrip(c, xs);
  }

  function Prefixed<T>(res: seq<T>, o: Option<seq<T>>): Option<seq<T>> {
    match o case None => None case Some(xs) => Some(res + xs)
  }

  lemma PrefixedNothing<T>(o: Option<seq<T>>)
    ensures Prefixed([], o) == o
  {
    if o.Some? { assert [] + o.value == o.value; }
  }

  lemma PrefixedMore<T>(res: seq<T>, x: T, o: Option<seq<T>>)
    ensures Prefixed(res + [x], o) == Prefixed(res, Prefixed([x], o))
  {
    if o.Some? {
      assert res + [x] + o.value == res + ([x] + o.value);
    }
  }

  method VecGet<T(!new)>(c: Codec<T>, stored: Option<bytes>) returns (r: Outcome<seq<T>>)
    ensures r == match stored case None => Done([]) case Some(b) => DecodeVec(c, b)
  {
    if stored.None? {
      return Done([]);
    }
    var header := ReadWord(stored.value);
    if header.None? {
      return Failed;
    }
    var (len, reader) := header.value;
    ghost var all := reader;
    var res := [];
    PrefixedNothing(DecodeAll(c, all));
    while reader != []
      invariant DecodeAll(c, all) == Prefixed(res, DecodeAll(c, reader))
      decreases |reader|
    {
      var next := ReadDelimited(c, reader);
      if next.None? {
        return Failed;
      }
      PrefixedMore(res, next.value.0, DecodeAll(c, next.value.1));
      res := res + [next.value.0];
      reader := next.value.1;
    }
    assert res + [] == res;
    if |res| != len {
      return Panic;
    }
    return Done(res);
  }

  function VecLen(stored: Option<bytes>): (r: Outcome<nat>)
    ensures r.Panic? <==> stored.Some? && 0 < |stored.value| < 8
  {
    match stored
    case None => Done(0)
    case Some(b) => if b == [] then Done(0) else match ReadWord(b) case None => Panic case Some((n, _)) => Done(n)
  }

  /** Writes the elements behind a placeholder for their number, then fills in the number. */
  method Serialize<T>(c: Codec<T>, values: seq<T>) returns (b: bytes)
    ensures b == EncodeVec(c, values)
  {
    b := Word(0);
    var len := 0;
    while len < |values|
      invariant 0 <= len <= |values|
      invariant |b| >= WORD && b[WORD..] == EncodeAll(c, values[..len])
    {
      assert values[..len + 1] == values[..len] + [values[len]];
      EncodeAllConcat(c, values[..len], [values[len]]);
      assert EncodeAll(c, [values[len]]) == Delimited(c, values[len]) + EncodeAll(c, [values[len]][1..]);
      b := Extend(b, Delimited(c, values[len]));
      len := len + 1;
    }
    assert values[..len] == values;
    b := Word(len) + b[WORD..];
  }

  // ----- the merge function -----

  /** The number in front of an operand, and the elements behind it. */
  function Count(op: bytes): nat {
    match ReadWord(op) case None => 0 case Some((n, _)) => n
  }

  function Body(op: bytes): bytes {
    match ReadWord(op) case None => [] case Some((_, rest)) => rest
  }

  function Total(ops: seq<bytes>): nat {
    if ops == [] then 0 else Count(ops[0]) + Total(ops[1..])
  }

  function Tails(ops: seq<bytes>): bytes {
    if ops == [] then [] else Body(ops[0]) + Tails(ops[1..])
  }

  /** Every operand has a length in front; one without makes the merge fail. */
  predicate Sized(ops: seq<bytes>) {
    forall op :: op in ops ==> |op| >= WORD
  }

  function Merged(ops: seq<bytes>): Option<bytes> {
    if Sized(ops) then Some(Word(Total(ops)) + Tails(ops)) else None
  }

  lemma TotalsStep(ops: seq<bytes>, i: nat)
    requires i < |ops| && Sized(ops[..i]) && |ops[i]| >= WORD
    ensures Sized(ops[..i + 1])
    ensures Total(ops[..i + 1]) == Total(ops[..i]) + Count(ops[i])
    ensures Tails(ops[..i + 1]) == Tails(ops[..i]) + Body(ops[i])
  {
    assert ops[..i + 1] == ops[..i] + [ops[i]];
    TotalsSnoc(ops[..i], ops[i]);
  }

  /** The stored value, if there is one, comes before the operands. */
  function Chain(first: Option<bytes>, rest: seq<bytes>): seq<bytes> {
    if first.Some? then [first.value] + rest else rest
  }

  lemma Join(x: bytes, y: bytes, z: bytes)
    ensures x + y + z == x + (y + z)
  {
  }

  lemma {:induction false} TotalsConcat(a: seq<bytes>, b: seq<bytes>)
    ensures Total(a + b) == Total(a) + Total(b) && Tails(a + b) == Tails(a) + Tails(b)
  {
    var s := a + b;
    if a == [] {
      assert s == b;
    } else {
      assert s[0] == a[0] && s[1..] == a[1..] + b;
      TotalsConcat(a[1..], b);
      Join(Body(a[0]), Tails(a[1..]), Tails(b));
    }
  }

  lemma TotalsOne(op: bytes)
    ensures Total([op]) == Count(op) && Tails([op]) == Body(op)
  {
    var ops := [op];
    assert |ops[1..]| == 0;
    assert Body(op) + [] == Body(op);
  }

  lemma TotalsSnoc(ops: seq<bytes>, op: bytes)
    ensures Total(ops + [op]) == Total(ops) + Count(op) && Tails(ops + [op]) == Tails(ops) + Body(op)
  {
    TotalsConcat(ops, [op]);
    TotalsOne(op);
  }

  /** Appending leaves the room for the length alone. */
  function Extend(buffer: bytes, more: bytes): (r: bytes)
    requires |buffer| >= WORD
    ensures |r| >= WORD && r[..WORD] == buffer[..WORD] && r[WORD..] == buffer[WORD..] + more
  {
    buffer + more
  }

  /** The counts of some leading operands add up beyond 64 bits: a checked addition panics there. */
  ghost predicate Overflows(ops: seq<bytes>) {
    exists n :: 0 <= n <= |ops| && Sized(ops[..n]) && Total(ops[..n]) > U64_MAX
  }

  lemma NoOverflow(ops: seq<bytes>, i: nat)
    requires i <= |ops| && Total(ops[..i]) <= U64_MAX && (i < |ops| ==> |ops[i]| < WORD)
    ensures !Overflows(ops)
  {
    forall n | 0 <= n <= |ops| ensures Sized(ops[..n]) ==> Total(ops[..n]) <= U64_MAX {
      if n <= i {
        assert ops[..i] == ops[..n] + ops[n..i];
        TotalsConcat(ops[..n], ops[n..i]);
      } else {
        assert ops[..n][i] == ops[i];
      }
    }
  }

  /** `first` is the stored value, if any, and `rest` are the operands. */
  method VecMerge(first: Option<bytes>, rest: seq<bytes>) returns (r: Outcome<Option<bytes>>)
    ensures r == if Overflows(Chain(first, rest)) then Panic else Done(Merged(Chain(first, rest)))
    ensures r.Done? ==> (r.value.None? <==> exists x :: x in Chain(first, rest) && |x| < 8)
  {
    var ops := Chain(first, rest);
    var result := Word(0);
    var len := 0;
    var i := 0;
    while i < |ops|
      invariant 0 <= i <= |ops|
      invariant Sized(ops[..i])
      invariant len == Total(ops[..i]) <= U64_MAX
      invariant |result| >= WORD && result[WORD..] == Tails(ops[..i])
    {
      var op := ops[i];
      assert op in ops;
      var head := ReadWord(op);
      if head.None? {
        NoOverflow(ops, i);
        return Done(None);
      }
      TotalsStep(ops, i);
      if len + head.value.0 > U64_MAX {
        assert Sized(ops[..i + 1]);
        return Panic;
      }
      len := len + head.value.0;
      result := Extend(result, head.value.1);
      i := i + 1;
    }
    assert ops[..i] == ops;
    NoOverflow(ops, i);
    result := Word(len) + result[WORD..];
    return Done(Some(result));
  }

  /** Sled merges one operand at a time. */
  method SledVecMerge(existent: Option<bytes>, op: bytes) returns (r: Outcome<Option<bytes>>)
    ensures r == if Overflows(Chain(existent, [op])) then Panic else Done(Merged(Chain(existent, [op])))
    ensures r.Done? ==> (r.value.None? <==> exists x :: x in Chain(existent, [op]) && |x| < 8)
  {
    var ops := Chain(existent, [op]);
    var result := Word(0);
    var len := 0;
    var i := 0;
    while i < |ops|
      invariant 0 <= i <= |ops|
      invariant Sized(ops[..i])
      invariant len == Total(ops[..i]) <= U64_MAX
      invariant |result| >= WORD && result[WORD..] == Tails(ops[..i])
    {
      var slice := ops[i];
      assert slice in ops;
      var head := ReadWord(slice);
      if head.None? {
        NoOverflow(ops, i);
        return Done(None);
      }
      TotalsStep(ops, i);
      if len + head.value.0 > U64_MAX {
        assert Sized(ops[..i + 1]);
        return Panic;
      }
      len := len + head.value.0;
      result := Extend(result, head.value.1);
      i := i + 1;
    }
    assert ops[..i] == ops;
    NoOverflow(ops, i);
    result := Word(len) + result[WORD..];
    return Done(Some(result));
  }

  /** When the counts fit, the panic is out of the question. */
  lemma FittingCountsMerge(ops: seq<bytes>)
    requires Total(ops) <= U64_MAX
    ensures !Overflows(ops)
  {
    assert ops[..|ops|] == ops;
    NoOverflow(ops, |ops|);
  }

  lemma {:induction false} TotalsOfVecs<T>(c: Codec<T>, xss: seq<seq<T>>)
    requires |Flatten(xss)| <= U64_MAX
    ensures var ops := seq(|xss|, i requires 0 <= i < |xss| => EncodeVec(c, xss[i]));
      Total(ops) == |Flatten(xss)| && Tails(ops) == EncodeAll(c, Flatten(xss))
  {
    if xss != [] {
      var ops := seq(|xss|, i requires 0 <= i < |xss| => EncodeVec(c, xss[i]));
      var more := xss[1..];
      TotalsOfVecs(c, more);
      assert ops[1..] == seq(|more|, i requires 0 <= i < |more| => EncodeVec(c, more[i]));
      WordRoundTrip(|xss[0]|, EncodeAll(c, xss[0]));
      EncodeAllConcat(c, xss[0], Flatten(more));
    }
  }

  /** Merging stored vectors stores their concatenation. */
  lemma MergeConcatenates<T>(c: Codec<T>, xss: seq<seq<T>>)
    requires |Flatten(xss)| <= U64_MAX
    ensures Merged(seq(|xss|, i requires 0 <= i < |xss| => EncodeVec(c, xss[i]))) == Some(EncodeVec(c, Flatten(xss)))
  {
    TotalsOfVecs(c, xss);
    var ops := seq(|xss|, i requires 0 <= i < |xss| => EncodeVec(c, xss[i]));
    assert forall op :: op in ops ==> |op| >= WORD;
  }

  lemma RegroupTotals(a: seq<bytes>, b: seq<bytes>, c: seq<bytes>, m: bytes)
    requires Count(m) == Total(b) && Body(m) == Tails(b)
    ensures Total(a + [m] + c) == Total(a + b + c) && Tails(a + [m] + c) == Tails(a + b + c)
  {
    TotalsConcat(a, b); TotalsConcat(a + b, c);
    TotalsSnoc(a, m); TotalsConcat(a + [m], c);
  }

  lemma MergedCounts(b: seq<bytes>)
    requires Sized(b) && Total(b) <= U64_MAX
    ensures Merged(b).Some? && Count(Merged(b).value) == Total(b) && Body(Merged(b).value) == Tails(b)
    ensures |Merged(b).value| >= WORD
  {
    WordRoundTrip(Total(b), Tails(b));
  }

  /** On any operands with lengths in front, well-formed or not, merging is associative. */
  lemma MergeIsAssociative(a: seq<bytes>, b: seq<bytes>, c: seq<bytes>)
    requires Sized(a) && Sized(b) && Sized(c) && Total(b) <= U64_MAX
    ensures Merged(b).Some? && Merged(a + [Merged(b).value] + c) == Merged(a + b + c)
  {
    MergedCounts(b);
    RegroupTotals(a, b, c, Merged(b).value);
    assert Sized(a + b + c) && Sized(a + [Merged(b).value] + c);
  }

  // ----- the store refines a sequence -----

  /** What the store keeps under one key: a value, and operands not merged into it yet. */
  datatype Entry = Entry(base: Option<bytes>, operands: seq<bytes>)

  datatype Op<T> =
    | Append(value: T)
    | AddAll(values: seq<T>)
    | Set(values: seq<T>)
    | Clear
    | Combine(from: nat, to: nat)   // the store merges neighbouring operands
    | Compact                       // the store merges everything into the value

  function All(e: Entry): seq<bytes> {
    Chain(e.base, e.operands)
  }

  /** What a read of the key returns. */
  function Stored(e: Entry): Option<bytes> {
    if All(e) == [] then None else if e.operands == [] then e.base else Merged(All(e))
  }

  function CombineOperands(e: Entry, i: nat, j: nat): Entry {
    if i < j <= |e.operands| then
      match Merged(e.operands[i..j])
      case None => e
      case Some(m) => e.(operands := e.operands[..i] + [m] + e.operands[j..])
    else e
  }

  function Apply<T>(c: Codec<T>, e: Entry, op: Op<T>): Entry {
    match op
    case Append(x) => e.(operands := e.operands + [EncodeVec(c, [x])])
    case AddAll(xs) => e.(operands := e.operands + [EncodeVec(c, xs)])
    case Set(xs) => Entry(Some(EncodeVec(c, xs)), [])
    case Clear => Entry(None, [])
    case Combine(i, j) => CombineOperands(e, i, j)
    case Compact => if Stored(e).Some? then Entry(Stored(e), []) else e
  }

  function Abstractly<T>(xs: seq<T>, op: Op<T>): seq<T> {
    match op
    case Append(x) => xs + [x]
    case AddAll(ys) => xs + ys
    case Set(ys) => ys
    case Clear => []
    case Combine(_, _) => xs
    case Compact => xs
  }

  /** The entry stands for `xs`: it is a list of stored vectors that concatenate to it. */
  ghost predicate Represents<T(!new)>(c: Codec<T>, e: Entry, xs: seq<T>, xss: seq<seq<T>>) {
    && |xss| == |All(e)| && Flatten(xss) == xs
    && forall i :: 0 <= i < |xss| ==> All(e)[i] == EncodeVec(c, xss[i])
  }

  lemma FlattenOne<T>(x: seq<T>)
    ensures Flatten([x]) == x
  {
    assert [x][1..] == [];
    assert x + [] == x;
  }

  lemma ApplyRefines<T(!new)>(c: Codec<T>, e: Entry, op: Op<T>, xs: seq<T>, xss: seq<seq<T>>) returns (yss: seq<seq<T>>)
    requires Represents(c, e, xs, xss) && |xs| <= U64_MAX && |Abstractly(xs, op)| <= U64_MAX
    ensures Represents(c, Apply(c, e, op), Abstractly(xs, op), yss)
  {
    match op
    case Append(x) => yss := xss + [[x]]; FlattenSnoc(xss, [x]);
    case AddAll(ys) => yss := xss + [ys]; FlattenSnoc(xss, ys);
    case Set(ys) => yss := [ys]; FlattenOne(ys);
    case Clear => yss := [];
    case Combine(i, j) =>
      if i < j <= |e.operands| {
        var r;
        yss, r := CombineRefines(c, e, i, j, xs, xss);
      } else {
        yss := xss;
      }
    case Compact => yss := CompactRefines(c, e, xs, xss);
  }

  /** Neighbouring operands hold the vectors at their positions, and merge to their concatenation. */
  lemma OperandsMerge<T(!new)>(c: Codec<T>, ops: seq<bytes>, xss: seq<seq<T>>)
    requires |ops| == |xss| && forall n :: 0 <= n < |xss| ==> ops[n] == EncodeVec(c, xss[n])
    requires |Flatten(xss)| <= U64_MAX
    ensures Merged(ops) == Some(EncodeVec(c, Flatten(xss)))
  {
    MergeConcatenates(c, xss);
    assert ops == seq(|xss|, n requires 0 <= n < |xss| => EncodeVec(c, xss[n]));
  }

  lemma SplitThree<T>(xss: seq<seq<T>>, i: nat, j: nat)
    requires i <= j <= |xss|
    ensures Flatten(xss) == Flatten(xss[..i]) + Flatten(xss[i..j]) + Flatten(xss[j..])
    ensures Flatten(xss[..i] + [Flatten(xss[i..j])] + xss[j..]) == Flatten(xss)
  {
    Pieces(xss, i, j);
    Regroup(xss[..i], xss[i..j], xss[j..]);
  }

  lemma Pieces<T>(xss: seq<T>, i: nat, j: nat)
    requires i <= j <= |xss|
    ensures xss[..i] + xss[i..j] + xss[j..] == xss
  {
  }

  lemma Regroup<T>(a: seq<seq<T>>, b: seq<seq<T>>, d: seq<seq<T>>)
    ensures Flatten(a + b + d) == Flatten(a) + Flatten(b) + Flatten(d)
    ensures Flatten(a + [Flatten(b)] + d) == Flatten(a) + Flatten(b) + Flatten(d)
  {
    FlattenThree(a, b, d);
    FlattenThree(a, [Flatten(b)], d);
    FlattenOne(Flatten(b));
  }

  lemma FlattenThree<T>(a: seq<seq<T>>, b: seq<seq<T>>, d: seq<seq<T>>)
    ensures Flatten(a + b + d) == Flatten(a) + Flatten(b) + Flatten(d)
  {
    FlattenConcat(a + b, d);
    FlattenConcat(a, b);
  }

  lemma CombinedOperand<T(!new)>(c: Codec<T>, e: Entry, i: nat, j: nat, xs: seq<T>, xss: seq<seq<T>>, p: nat, q: nat) returns (m: bytes)
    requires Represents(c, e, xs, xss) && |xs| <= U64_MAX && i < j <= |e.operands|
    requires p <= q <= |xss| && e.operands[i..j] == All(e)[p..q]
    ensures m == EncodeVec(c, Flatten(xss[p..q]))
    ensures CombineOperands(e, i, j) == e.(operands := e.operands[..i] + [m] + e.operands[j..])
  {
    SplitThree(xss, p, q);
    OperandsMerge(c, e.operands[i..j], xss[p..q]);
    m := Merged(e.operands[i..j]).value;
  }

  /** The operands i..j sit behind the value, if there is one, so at p..q of all. */
  lemma CombineRefines<T(!new)>(c: Codec<T>, e: Entry, i: nat, j: nat, xs: seq<T>, xss: seq<seq<T>>) returns (yss: seq<seq<T>>, r: Entry)
    requires Represents(c, e, xs, xss) && |xs| <= U64_MAX && i < j <= |e.operands|
    ensures r == CombineOperands(e, i, j) && Represents(c, r, xs, yss)
  {
    var p, q := OperandsInAll(e, i, j);
    var m := CombinedOperand(c, e, i, j, xs, xss, p, q);
    r := e.(operands := e.operands[..i] + [m] + e.operands[j..]);
    CombineAll(e, r, i, j, m, p, q);
    yss := Regrouped(c, e, r, xs, xss, p, q, m);
  }

  lemma OperandsInAll(e: Entry, i: nat, j: nat) returns (p: nat, q: nat)
    requires i <= j <= |e.operands|
    ensures var k := if e.base.Some? then 1 else 0; p == k + i && q == k + j && |All(e)| == k + |e.operands|
    ensures e.operands[i..j] == All(e)[p..q]
  {
    var k := if e.base.Some? then 1 else 0;
    p, q := k + i, k + j;
  }

  lemma CombineAll(e: Entry, r: Entry, i: nat, j: nat, m: bytes, p: nat, q: nat)
    requires i <= j <= |e.operands| && r == e.(operands := e.operands[..i] + [m] + e.operands[j..])
    requires var k := if e.base.Some? then 1 else 0; p == k + i && q == k + j && q <= |All(e)|
    ensures All(r) == All(e)[..p] + [m] + All(e)[q..]
  {
    if e.base.Some? {
      assert All(e)[..p] == [e.base.value] + e.operands[..i];
      assert All(e)[q..] == e.operands[j..];
    }
  }

  lemma Regrouped<T(!new)>(c: Codec<T>, e: Entry, r: Entry, xs: seq<T>, xss: seq<seq<T>>, i: nat, j: nat, m: bytes)
    returns (yss: seq<seq<T>>)
    requires Represents(c, e, xs, xss) && i <= j <= |xss| && m == EncodeVec(c, Flatten(xss[i..j]))
    requires All(r) == All(e)[..i] + [m] + All(e)[j..]
    ensures Represents(c, r, xs, yss)
  {
    SplitThree(xss, i, j);
    yss := xss[..i] + [Flatten(xss[i..j])] + xss[j..];
  }

  lemma CompactRefines<T(!new)>(c: Codec<T>, e: Entry, xs: seq<T>, xss: seq<seq<T>>) returns (yss: seq<seq<T>>)
    requires Represents(c, e, xs, xss) && |xs| <= U64_MAX
    ensures Represents(c, Apply(c, e, Compact), xs, yss)
  {
    StoredIs(c, e, xs, xss);
    if All(e) == [] {
      yss := xss;
    } else {
      yss := [xs];
      FlattenOne(xs);
    }
  }

  lemma StoredIs<T(!new)>(c: Codec<T>, e: Entry, xs: seq<T>, xss: seq<seq<T>>)
    requires Represents(c, e, xs, xss) && |xs| <= U64_MAX
    ensures if All(e) == [] then Stored(e) == None && xs == [] else Stored(e) == Some(EncodeVec(c, xs))
  {
    if All(e) != [] {
      MergeConcatenates(c, xss);
      assert All(e) == seq(|xss|, n requires 0 <= n < |xss| => EncodeVec(c, xss[n]));
      if e.operands == [] {
        assert xss == [xss[0]];
        FlattenOne(xss[0]);
      }
    }
  }

  /** The entry and the abstract vector after a list of operations on a key that was empty. */
  function EntryAfter<T>(c: Codec<T>, ops: seq<Op<T>>): Entry {
    if ops == [] then Entry(None, []) else Apply(c, EntryAfter(c, ops[..|ops| - 1]), ops[|ops| - 1])
  }

  function VectorAfter<T>(ops: seq<Op<T>>): seq<T> {
    if ops == [] then [] else Abstractly(VectorAfter(ops[..|ops| - 1]), ops[|ops| - 1])
  }

  lemma {:induction false} RunRefines<T(!new)>(c: Codec<T>, ops: seq<Op<T>>) returns (xss: seq<seq<T>>)
    requires forall n :: 0 <= n <= |ops| ==> |VectorAfter(ops[..n])| <= U64_MAX
    ensures Represents(c, EntryAfter(c, ops), VectorAfter(ops), xss)
    decreases |ops|
  {
    if ops == [] {
      xss := [];
    } else {
      var front := ops[..|ops| - 1];
      forall n | 0 <= n <= |front| ensures |VectorAfter(front[..n])| <= U64_MAX {
        assert front[..n] == ops[..n];
      }
      assert front == front[..|front|] && ops == ops[..|ops|];
      var yss := RunRefines(c, front);
      xss := ApplyRefines(c, EntryAfter(c, front), ops[|ops| - 1], VectorAfter(front), yss);
    }
  }

  /**
   For any mix of operations, and whatever the store merges in between: reading yields
   the vector, the sanity check never fails, and the length is right.
   */
  lemma VecStateIsASequence<T(!new)>(c: Codec<T>, ops: seq<Op<T>>)
    requires Lawful(c) && forall n :: 0 <= n <= |ops| ==> |VectorAfter(ops[..n])| <= U64_MAX
    ensures VecLen(Stored(EntryAfter(c, ops))) == Done(|VectorAfter(ops)|)
    ensures match Stored(EntryAfter(c, ops))
            case None => VectorAfter(ops) == []
            case Some(b) => DecodeVec(c, b) == Done(VectorAfter(ops))
  {
    var xss := RunRefines(c, ops);
    assert ops[..|ops|] == ops;
    StoredIs(c, EntryAfter(c, ops), VectorAfter(ops), xss);
    VecRoundTrip(c, VectorAfter(ops));
    WordRoundTrip(|VectorAfter(ops)|, EncodeAll(c, VectorAfter(ops)));
  }
}
