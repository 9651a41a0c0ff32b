/**
 Checkpoints of the Sled backend. An export is a list of trees, each with a type, a name
 and a list of lists of byte strings. The list of lists is an iterator, so its length is
 not known in advance: the dump holds a placeholder for it, which is overwritten once
 the elements are out.
 */
module SledDump {
  import opened Streams
  import opened Bytes

  // ----- formats -----

  /** How values are written and read back; `ok` says which values fit. */
  datatype Format<!T> = Format(encode: T -> bytes, read: bytes -> Option<(T, bytes)>, ok: T -> bool)

  ghost predicate Faithful<T(!new)>(f: Format<T>) {
    forall x, rest :: f.ok(x) ==> f.read(f.encode(x) + rest) == Some((x, rest))
  }

  function EncodeBlob(b: bytes): bytes { Word(|b|) + b }

  function ReadBlob(b: bytes): Option<(bytes, bytes)> {
    match ReadWord(b)
    case None => None
    case Some((n, rest)) => if n <= |rest| then Some((rest[..n], rest[n..])) else None
  }

  function Blob(): Format<bytes> { Format(EncodeBlob, ReadBlob, b => |b| <= U64_MAX) }

  function EncodeMany<T>(f: Format<T>, xs: seq<T>): bytes {
    if xs == [] then [] else f.encode(xs[0]) + EncodeMany(f, xs[1..])
  }

  function ReadMany<T>(f: Format<T>, n: nat, b: bytes): Option<(seq<T>, bytes)> {
    if n == 0 then Some(([], b))
    else
      match f.read(b)
      case None => None
      case Some((x, rest)) =>
        match ReadMany(f, n - 1, rest)
        case None => None
        case Some((xs, more)) => Some(([x] + xs, more))
  }

  function ReadList<T>(f: Format<T>, b: bytes): Option<(seq<T>, bytes)> {
    match ReadWord(b)
    case None => None
    case Some((n, rest)) => ReadMany(f, n, rest)
  }

  function ListOf<T>(f: Format<T>): Format<seq<T>> {
    Format((xs: seq<T>) => Word(|xs|) + EncodeMany(f, xs), b => ReadList(f, b),
           (xs: seq<T>) => |xs| <= U64_MAX && forall i :: 0 <= i < |xs| ==> f.ok(xs[i]))
  }

  datatype Tree = Tree(typ: bytes, name: bytes, vvecs: seq<seq<bytes>>)

  function Vecs(): Format<seq<bytes>> { ListOf(Blob()) }

  function VVecs(): Format<seq<seq<bytes>>> { ListOf(Vecs()) }

  function EncodeTree(t: Tree): bytes {
    EncodeBlob(t.typ) + EncodeBlob(t.name) + VVecs().encode(t.vvecs)
  }

  function ReadTree(b: bytes): Option<(Tree, bytes)> {
    match ReadBlob(b)
    case None => None
    case Some((typ, b1)) =>
      match ReadBlob(b1)
      case None => None
      case Some((name, b2)) =>
        match ReadList(Vecs(), b2)
        case None => None
        case Some((vvecs, rest)) => Some((Tree(typ, name, vvecs), rest))
  }

  function Trees(): Format<Tree> {
    Format(EncodeTree, ReadTree, (t: Tree) => |t.typ| <= U64_MAX && |t.name| <= U64_MAX && VVecs().ok(t.vvecs))
  }

  function Export(): Format<seq<Tree>> { ListOf(Trees()) }

  lemma BlobIsFaithful()
    ensures Faithful(Blob())
  {
    forall x: bytes, rest: bytes | |x| <= U64_MAX ensures ReadBlob(EncodeBlob(x) + rest) == Some((x, rest)) {
      WordRoundTrip(|x|, x + rest);
      assert EncodeBlob(x) + rest == Word(|x|) + (x + rest);
    }
  }

  lemma {:induction false} ManyRoundTrip<T(!new)>(f: Format<T>, xs: seq<T>, rest: bytes)
    requires Faithful(f) && forall i :: 0 <= i < |xs| ==> f.ok(xs[i])
    ensures ReadMany(f, |xs|, EncodeMany(f, xs) + rest) == Some((xs, rest))
  {
    if xs == [] {
      assert EncodeMany(f, xs) + rest == rest;
    } else {
      var tail := EncodeMany(f, xs[1..]) + rest;
      ManyRoundTrip(f, xs[1..], rest);
      assert EncodeMany(f, xs) + rest == f.encode(xs[0]) + tail;
      assert f.read(f.encode(xs[0]) + tail) == Some((xs[0], tail));
      assert [xs[0]] + xs[1..] == xs;
    }
  }

  lemma ReadBack<T(!new)>(f: Format<T>, x: T, rest: bytes)
    requires Faithful(f) && f.ok(x)
    ensures f.read(f.encode(x) + rest) == Some((x, rest))
  {
  }

  lemma ListReadsBack<T(!new)>(f: Format<T>, xs: seq<T>, rest: bytes)
    requires Faithful(f) && ListOf(f).ok(xs)
    ensures ReadList(f, ListOf(f).encode(xs) + rest) == Some((xs, rest))
  {
    var items := EncodeMany(f, xs);
    WordRoundTrip(|xs|, items + rest);
    ManyRoundTrip(f, xs, rest);
    Regroup(Word(|xs|), items, rest);
  }

  lemma ListIsFaithful<T(!new)>(f: Format<T>)
    requires Faithful(f)
    ensures Faithful(ListOf(f))
  {
    var l := ListOf(f);
    forall xs: seq<T>, rest: bytes | l.ok(xs) ensures l.read(l.encode(xs) + rest) == Some((xs, rest)) {
      ListReadsBack(f, xs, rest);
    }
  }

  lemma Regroup(a: bytes, b: bytes, c: bytes)
    ensures a + b + c == a + (b + c)
  {
  }

  lemma TreeReadsBack(t: Tree, rest: bytes)
    requires Faithful(Blob()) && Faithful(Vecs()) && Trees().ok(t)
    ensures ReadTree(EncodeTree(t) + rest) == Some((t, rest))
  {
    var typ, name, lists := EncodeBlob(t.typ), EncodeBlob(t.name), VVecs().encode(t.vvecs);
    Regroup(typ + name, lists, rest);
    Regroup(typ, name, lists + rest);
    ReadBack(Blob(), t.typ, name + (lists + rest));
    ReadBack(Blob(), t.name, lists + rest);
    ListReadsBack(Vecs(), t.vvecs, rest);
  }

  lemma TreeIsFaithful()
    ensures Faithful(Trees())
  {
    BlobIsFaithful();
    ListIsFaithful(Blob());
    forall t: Tree, rest: bytes | Trees().ok(t) ensures ReadTree(EncodeTree(t) + rest) == Some((t, rest)) {
      TreeReadsBack(t, rest);
    }
  }

  /** Reading a dump gives back the export, whatever follows the dump. */
  lemma ExportRoundTrip(trees: seq<Tree>, rest: bytes)
    requires Export().ok(trees)
    ensures Export().read(Export().encode(trees) + rest) == Some((trees, rest))
  {
    TreeIsFaithful();
    ListIsFaithful(Trees());
  }

  // ----- a file that was cut off -----

  /** No proper prefix of an encoding can be read. */
  ghost predicate Refuses<T(!new)>(f: Format<T>) {
    forall x, k :: f.ok(x) && 0 <= k < |f.encode(x)| ==> f.read(f.encode(x)[..k]) == None
  }

  lemma Cut(a: bytes, b: bytes, k: nat)
    requires k <= |a + b|
    ensures (a + b)[..k] == if k < |a| then a[..k] else a + b[..k - |a|]
  {
  }

  lemma RefusesOne<T(!new)>(f: Format<T>, x: T, k: nat)
    requires Refuses(f) && f.ok(x) && k < |f.encode(x)|
    ensures f.read(f.encode(x)[..k]) == None
  {
  }

  lemma BlobRefuses()
    ensures Refuses(Blob())
  {
    forall x: bytes, k | |x| <= U64_MAX && 0 <= k < |EncodeBlob(x)| ensures ReadBlob(EncodeBlob(x)[..k]) == None {
      Cut(Word(|x|), x, k);
      if k >= WORD { WordRoundTrip(|x|, x[..k - WORD]); }
    }
  }

  lemma {:induction false} ManyRefuses<T(!new)>(f: Format<T>, xs: seq<T>, k: nat)
    requires Faithful(f) && Refuses(f) && forall i :: 0 <= i < |xs| ==> f.ok(xs[i])
    requires k < |EncodeMany(f, xs)|
    ensures ReadMany(f, |xs|, EncodeMany(f, xs)[..k]) == None
  {
    var head, tail := f.encode(xs[0]), EncodeMany(f, xs[1..]);
    Cut(head, tail, k);
    if k < |head| {
      RefusesOne(f, xs[0], k);
    } else {
      ReadBack(f, xs[0], tail[..k - |head|]);
      ManyRefuses(f, xs[1..], k - |head|);
    }
  }

  lemma ListRefuses<T(!new)>(f: Format<T>, xs: seq<T>, k: nat)
    requires Faithful(f) && Refuses(f) && ListOf(f).ok(xs) && k < |ListOf(f).encode(xs)|
    ensures ReadList(f, ListOf(f).encode(xs)[..k]) == None
  {
    var items := EncodeMany(f, xs);
    Cut(Word(|xs|), items, k);
    if k >= WORD {
      WordRoundTrip(|xs|, items[..k - WORD]);
      ManyRefuses(f, xs, k - WORD);
    }
  }

  lemma ListsRefuse<T(!new)>(f: Format<T>)
    requires Faithful(f) && Refuses(f)
    ensures Refuses(ListOf(f))
  {
    var l := ListOf(f);
    forall xs: seq<T>, k | l.ok(xs) && 0 <= k < |l.encode(xs)| ensures l.read(l.encode(xs)[..k]) == None {
      ListRefuses(f, xs, k);
    }
  }

  lemma TreeCut(t: Tree, typ: bytes, name: bytes, lists: bytes, k: nat)
    requires Faithful(Blob()) && Refuses(Blob()) && |t.typ| <= U64_MAX && |t.name| <= U64_MAX
    requires typ == EncodeBlob(t.typ) && name == EncodeBlob(t.name) && k < |typ + (name + lists)|
    requires forall j :: 0 <= j < |lists| ==> ReadList(Vecs(), lists[..j]) == None
    ensures ReadTree((typ + (name + lists))[..k]) == None
  {
    Cut(typ, name + lists, k);
    if k < |typ| {
      RefusesOne(Blob(), t.typ, k);
    } else {
      var k1 := k - |typ|;
      ReadBack(Blob(), t.typ, (name + lists)[..k1]);
      Cut(name, lists, k1);
      if k1 < |name| {
        RefusesOne(Blob(), t.name, k1);
      } else {
        ReadBack(Blob(), t.name, lists[..k1 - |name|]);
      }
    }
  }

  lemma TreeRefuses(t: Tree, k: nat)
    requires Faithful(Blob()) && Refuses(Blob()) && Faithful(Vecs()) && Refuses(Vecs())
    requires Trees().ok(t) && k < |EncodeTree(t)|
    ensures ReadTree(EncodeTree(t)[..k]) == None
  {
    var typ, name, lists := EncodeBlob(t.typ), EncodeBlob(t.name), VVecs().encode(t.vvecs);
    Regroup(typ, name, lists);
    forall j | 0 <= j < |lists| ensures ReadList(Vecs(), lists[..j]) == None {
      ListRefuses(Vecs(), t.vvecs, j);
    }
    TreeCut(t, typ, name, lists, k);
  }

  lemma TreesRefuse()
    ensures Refuses(Trees())
  {
    BlobIsFaithful();
    BlobRefuses();
    ListIsFaithful(Blob());
    ListsRefuse(Blob());
    forall t: Tree, k | Trees().ok(t) && 0 <= k < |EncodeTree(t)| ensures ReadTree(EncodeTree(t)[..k]) == None {
      TreeRefuses(t, k);
    }
  }

  /** A dump that was cut off anywhere cannot be read. */
  lemma CutOffDumpFails(trees: seq<Tree>, k: nat)
    requires Export().ok(trees) && k < |Export().encode(trees)|
    ensures Export().read(Export().encode(trees)[..k]) == None
  {
    TreeIsFaithful();
    TreesRefuse();
    ListRefuses(Trees(), trees, k);
  }

  lemma EncodeOne<T>(f: Format<T>, x: T)
    ensures EncodeMany(f, [x]) == f.encode(x)
  {
    assert [x][1..] == [];
    assert f.encode(x) + [] == f.encode(x);
  }

  lemma EncodeTwo<T>(f: Format<T>, x: T, y: T)
    ensures EncodeMany(f, [x, y]) == f.encode(x) + f.encode(y)
  {
    EncodeOne(f, y);
    assert [x, y][1..] == [y];
  }

  lemma SmallBlobs()
    ensures EncodeBlob([]) == [0, 0, 0, 0, 0, 0, 0, 0]
    ensures EncodeBlob([5]) == [1, 0, 0, 0, 0, 0, 0, 0, 5] && EncodeBlob([7]) == [1, 0, 0, 0, 0, 0, 0, 0, 7]
    ensures EncodeBlob([8, 9]) == [2, 0, 0, 0, 0, 0, 0, 0, 8, 9]
  {
    Words();
  }

  lemma SmallLists(vvecs: seq<seq<bytes>>)
    requires vvecs == [[[5], []]]
    ensures VVecs().encode(vvecs) ==
      [1, 0, 0, 0, 0, 0, 0, 0] + ([2, 0, 0, 0, 0, 0, 0, 0] + ([1, 0, 0, 0, 0, 0, 0, 0, 5] + [0, 0, 0, 0, 0, 0, 0, 0]))
  {
    Words();
    SmallBlobs();
    EncodeTwo(Blob(), [5], []);
    EncodeOne(Vecs(), [[5], []]);
  }

  lemma SmallTree(t: Tree)
    requires t == Tree([7], [8, 9], [[[5], []]])
    ensures EncodeTree(t) == [1, 0, 0, 0, 0, 0, 0, 0, 7] + [2, 0, 0, 0, 0, 0, 0, 0, 8, 9] +
      ([1, 0, 0, 0, 0, 0, 0, 0] + ([2, 0, 0, 0, 0, 0, 0, 0] + ([1, 0, 0, 0, 0, 0, 0, 0, 5] + [0, 0, 0, 0, 0, 0, 0, 0])))
  {
    SmallBlobs();
    SmallLists(t.vvecs);
  }

  /** The bytes of a small dump: counts and lengths in eight bytes each, the lowest first. */
  lemma SmallDump(t: Tree)
    requires t == Tree([7], [8, 9], [[[5], []]])
    ensures Export().encode([t]) == [1, 0, 0, 0, 0, 0, 0, 0] + Trees().encode(t)
    ensures Trees().encode(t) == [1, 0, 0, 0, 0, 0, 0, 0, 7] + [2, 0, 0, 0, 0, 0, 0, 0, 8, 9] +
      ([1, 0, 0, 0, 0, 0, 0, 0] + ([2, 0, 0, 0, 0, 0, 0, 0] + ([1, 0, 0, 0, 0, 0, 0, 0, 5] + [0, 0, 0, 0, 0, 0, 0, 0])))
  {
    Words();
    SmallBlobs();
    SmallLists(t.vvecs);
    EncodeOne(Trees(), t);
  }

  lemma Words()
    ensures Word(0) == [0, 0, 0, 0, 0, 0, 0, 0]
    ensures Word(1) == [1, 0, 0, 0, 0, 0, 0, 0]
    ensures Word(2) == [2, 0, 0, 0, 0, 0, 0, 0]
  {
    forall n: nat | n < 256 ensures Word(n) == [n as byte, 0, 0, 0, 0, 0, 0, 0] {
      assert ToLE(0, 0) == [] && ToLE(0, 1) == [0] && ToLE(0, 2) == [0, 0] && ToLE(0, 3) == [0, 0, 0];
      assert ToLE(0, 5) == [0, 0, 0, 0, 0] && ToLE(0, 7) == [0, 0, 0, 0, 0, 0, 0];
    }
  }

  lemma {:induction false} EncodeManySnoc<T>(f: Format<T>, xs: seq<T>, x: T)
    ensures EncodeMany(f, xs + [x]) == EncodeMany(f, xs) + f.encode(x)
  {
    if xs == [] {
      assert [x][1..] == [];
      assert f.encode(x) + [] == f.encode(x);
    } else {
      assert (xs + [x])[1..] == xs[1..] + [x];
      EncodeManySnoc(f, xs[1..], x);
    }
  }

  lemma Grow<T>(f: Format<T>, xs: seq<T>, i: nat, start: bytes, contents: bytes)
    requires i < |xs| && contents == start + EncodeMany(f, xs[..i])
    ensures contents + f.encode(xs[i]) == start + EncodeMany(f, xs[..i + 1])
  {
    assert xs[..i + 1] == xs[..i] + [xs[i]];
    EncodeManySnoc(f, xs[..i], xs[i]);
  }

  lemma Grown<T>(f: Format<T>, xs: seq<T>, i: nat, before: bytes, contents: bytes)
    requires i == |xs| && contents == before + Word(|xs|) + EncodeMany(f, xs[..i])
    ensures contents == before + ListOf(f).encode(xs)
  {
    assert xs[..i] == xs;
    Regroup(before, Word(|xs|), EncodeMany(f, xs));
  }

  /** Overwriting the word behind `before` and nothing else. */
  lemma Patch(before: bytes, old1: bytes, new1: bytes, after: bytes)
    requires |old1| == WORD == |new1|
    ensures var all := before + old1 + after;
      all[..|before|] + new1 + (if |before| + WORD < |all| then all[|before| + WORD..] else []) == before + new1 + after
  {
    var all := before + old1 + after;
    assert all[..|before|] == before && all[|before| + WORD..] == after;
  }

  // ----- writing -----

  /** A file with a position. Writing in the middle overwrites; writing at the end extends. */
  class Writer {
    var contents: bytes
    var pos: nat

    constructor ()
      ensures contents == [] && pos == 0
    {
      contents := [];
      pos := 0;
    }

    method WriteAll(b: bytes)
      requires pos <= |contents|
      modifies this
      ensures pos == old(pos) + |b|
      ensures contents == old(contents)[..old(pos)] + b + (if pos < |old(contents)| then old(contents)[pos..] else [])
    {
      contents := contents[..pos] + b + (if pos + |b| < |contents| then contents[pos + |b|..] else []);
      pos := pos + |b|;
    }

    method Append(b: bytes)
      requires pos == |contents|
      modifies this
      ensures contents == old(contents) + b && pos == |contents|
    {
      WriteAll(b);
    }

    method Seek(to: nat)
      requires to <= |contents|
      modifies `pos
      ensures pos == to
    {
      pos := to;
    }

    method WriteLenAndBytes(b: bytes)
      requires pos == |contents|
      modifies this
      ensures contents == old(contents) + EncodeBlob(b) && pos == |contents|
    {
      Regroup(contents, Word(|b|), b);
      Append(Word(|b|));
      Append(b);
    }

    method WriteVecs(vecs: seq<bytes>)
      requires pos == |contents|
      modifies this
      ensures contents == old(contents) + Vecs().encode(vecs) && pos == |contents|
    {
      ghost var f := Blob();
      Append(Word(|vecs|));
      ghost var start := contents;
      var i := 0;
      while i < |vecs|
        invariant 0 <= i <= |vecs| && pos == |contents|
        invariant contents == start + EncodeMany(f, vecs[..i])
      {
        Grow(f, vecs, i, start, contents);
        WriteLenAndBytes(vecs[i]);
        i := i + 1;
      }
      Grown(f, vecs, i, old(contents), contents);
    }

    /** The lists behind a placeholder for their number, which is filled in at the end. */
    method WriteVVecs(vvecs: seq<seq<bytes>>)
      requires pos == |contents|
      modifies this
      ensures contents == old(contents) + VVecs().encode(vvecs) && pos == |contents|
    {
      ghost var f, before := Vecs(), contents;
      var lengthSpot := pos;
      Append(Word(0));
      ghost var start := contents;
      var length := 0;
      while length < |vvecs|
        invariant 0 <= length <= |vvecs| && pos == |contents|
        invariant contents == start + EncodeMany(f, vvecs[..length])
      {
        Grow(f, vvecs, length, start, contents);
        WriteVecs(vvecs[length]);
        length := length + 1;
      }
      FillIn(lengthSpot, length, before, EncodeMany(f, vvecs[..length]));
      Grown(f, vvecs, length, before, contents);
    }

    method FillIn(spot: nat, length: nat, ghost before: bytes, ghost items: bytes)
      requires spot == |before| && contents == before + Word(0) + items && pos == |contents|
      modifies this
      ensures contents == before + Word(length) + items && pos == |contents|
    {
      Patch(before, Word(0), Word(length), items);
      var afterVecs := pos;
      Seek(spot);
      WriteAll(Word(length));
      Seek(afterVecs);
    }

    method WriteTree(t: Tree)
      requires pos == |contents|
      modifies this
      ensures contents == old(contents) + EncodeTree(t) && pos == |contents|
    {
      ghost var typ, name, lists := EncodeBlob(t.typ), EncodeBlob(t.name), VVecs().encode(t.vvecs);
      Regroup(contents, typ, name);
      Regroup(contents, typ + name, lists);
      WriteLenAndBytes(t.typ);
      WriteLenAndBytes(t.name);
      WriteVVecs(t.vvecs);
    }

    method Dump(trees: seq<Tree>)
      requires contents == [] && pos == 0
      modifies this
      ensures contents == Export().encode(trees)
    {
      ghost var f := Trees();
      Append(Word(|trees|));
      ghost var start := contents;
      var i := 0;
      while i < |trees|
        invariant 0 <= i <= |trees| && pos == |contents|
        invariant contents == start + EncodeMany(f, trees[..i])
      {
        Grow(f, trees, i, start, contents);
        WriteTree(trees[i]);
        i := i + 1;
      }
      Grown(f, trees, i, [], contents);
    }
  }

  // ----- reading -----

  /** Reading one more item, or failing to, after the first `i` of `n`. */
  lemma {:induction false} ReadSnoc<T>(f: Format<T>, i: nat, n: nat, start: bytes, xs: seq<T>, b: bytes, next: Option<(T, bytes)>)
    requires i < n && ReadMany(f, i, start) == Some((xs, b)) && next == f.read(b)
    ensures next.None? ==> ReadMany(f, n, start) == None
    ensures next.Some? ==> ReadMany(f, i + 1, start) == Some((xs + [next.value.0], next.value.1))
  {
    if i == 0 {
      if next.Some? {
        assert ReadMany(f, 1 - 1, next.value.1) == Some(([], next.value.1));
        assert xs == [] && [next.value.0] + [] == xs + [next.value.0];
        assert ReadMany(f, 1, start) == Some(([next.value.0] + [], next.value.1));
      }
    } else {
      var first := f.read(start).value;
      ReadSnoc(f, i - 1, n - 1, first.1, xs[1..], b, next);
      if next.Some? { assert [first.0] + (xs[1..] + [next.value.0]) == xs + [next.value.0]; }
    }
  }

  method ParseVecs(b: bytes) returns (r: Option<(seq<bytes>, bytes)>)
    ensures r == ReadList(Blob(), b)
  {
    ghost var f := Blob();
    var head := ReadWord(b);
    if head.None? { return None; }
    var (length, reader) := head.value;
    ghost var start := reader;
    var vecs: seq<bytes> := [];
    for i := 0 to length
      invariant ReadMany(f, i, start) == Some((vecs, reader))
    {
      var next := ReadBlob(reader);
      ReadSnoc(f, i, length, start, vecs, reader, next);
      if next.None? { return None; }
      vecs, reader := vecs + [next.value.0], next.value.1;
    }
    return Some((vecs, reader));
  }

  method ParseVVecs(b: bytes) returns (r: Option<(seq<seq<bytes>>, bytes)>)
    ensures r == ReadList(Vecs(), b)
  {
    ghost var f := Vecs();
    var head := ReadWord(b);
    if head.None? { return None; }
    var (length, reader) := head.value;
    ghost var start := reader;
    var vvecs: seq<seq<bytes>> := [];
    for i := 0 to length
      invariant ReadMany(f, i, start) == Some((vvecs, reader))
    {
      var next := ParseVecs(reader);
      ReadSnoc(f, i, length, start, vvecs, reader, next);
      if next.None? { return None; }
      vvecs, reader := vvecs + [next.value.0], next.value.1;
    }
    return Some((vvecs, reader));
  }

  method ParseTree(b: bytes) returns (r: Option<(Tree, bytes)>)
    ensures r == ReadTree(b)
  {
    var typ := ReadBlob(b);
    if typ.None? { return None; }
    var name := ReadBlob(typ.value.1);
    if name.None? { return None; }
    var vvecs := ParseVVecs(name.value.1);
    if vvecs.None? { return None; }
    return Some((Tree(typ.value.0, name.value.0, vvecs.value.0), vvecs.value.1));
  }

  method ParseTrees(b: bytes) returns (r: Option<(seq<Tree>, bytes)>)
    ensures r == ReadList(Trees(), b)
  {
    ghost var f := Trees();
    var head := ReadWord(b);
    if head.None? { return None; }
    var (length, reader) := head.value;
    ghost var start := reader;
    var res: seq<Tree> := [];
    for i := 0 to length
      invariant ReadMany(f, i, start) == Some((res, reader))
    {
      var next := ParseTree(reader);
      ReadSnoc(f, i, length, start, res, reader, next);
      if next.None? { return None; }
      res, reader := res + [next.value.0], next.value.1;
    }
    return Some((res, reader));
  }

  /** Parses a dump; what follows the last tree is ignored. A short file is an error. */
  method Parse(b: bytes) returns (r: Option<seq<Tree>>)
    ensures r == match Export().read(b) case None => None case Some((trees, _)) => Some(trees)
  {
    var all := ParseTrees(b);
    r := match all case None => None case Some((trees, _)) => Some(trees);
  }

  /** Writing an export to a new file and parsing the file. */
  method CheckpointAndRestore(trees: seq<Tree>) returns (r: Option<seq<Tree>>)
    requires Export().ok(trees)
    ensures r == Some(trees)
  {
    var writer := new Writer();
    writer.Dump(trees);
    ExportRoundTrip(trees, []);
    assert writer.contents + [] == writer.contents;
    r := Parse(writer.contents);
  }
}
