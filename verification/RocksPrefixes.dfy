/** Clearing one of those maps in RocksDB, which deletes a range of its ordered keys. */
module RocksPrefixes {
  import opened Streams
  import opened Bytes
  import opened FixedBytes
  import opened FlatKeys

  /** The order of the store's keys: bytes are compared from the front. */
  predicate Below(a: bytes, b: bytes) {
    b != [] && (a == [] || a[0] < b[0] || (a[0] == b[0] && Below(a[1..], b[1..])))
  }

  predicate InRange(k: bytes, start: bytes, end: bytes) {
    !Below(k, start) && Below(k, end)
  }

  /** An optimised build wraps 255 around to 0; a checked one panics there instead. */
  function Incremented(b: byte): byte {
    if b == 255 then 0 else b + 1
  }

  function RangeEnd(prefix: bytes): bytes
    requires prefix != []
  {
    var last := |prefix| - 1;
    prefix[last := Incremented(prefix[last])]
  }

  predicate StartsWith(k: bytes, prefix: bytes) {
    |prefix| <= |k| && k[..|prefix|] == prefix
  }

  lemma {:induction false} RangeIsThePrefix(k: bytes, prefix: bytes)
    requires prefix != [] && prefix[|prefix| - 1] < 255
    ensures InRange(k, prefix, RangeEnd(prefix)) <==> StartsWith(k, prefix)
  {
    var end := RangeEnd(prefix);
    if |prefix| == 1 {
      if k != [] {
        assert prefix[1..] == [] && k[..1] == [k[0]];
        assert !Below(k[1..], []);
        assert end == [prefix[0] + 1] && prefix == [prefix[0]];
      }
    } else if k != [] {
      var rest := prefix[1..];
      assert end[1..] == RangeEnd(rest) && end[0] == prefix[0];
      StartsWithTail(k, prefix);
      if k[0] == prefix[0] { RangeIsThePrefix(k[1..], rest); }
    }
  }

  lemma StartsWithTail(k: bytes, prefix: bytes)
    requires k != [] && prefix != []
    ensures StartsWith(k, prefix) <==> k[0] == prefix[0] && StartsWith(k[1..], prefix[1..])
  {
    var rest := prefix[1..];
    if k[0] == prefix[0] && StartsWith(k[1..], rest) {
      var tail := k[1..][..|rest|];
      assert k[..|prefix|] == [k[0]] + tail;
      assert prefix == [prefix[0]] + rest;
    }
    if StartsWith(k, prefix) {
      var front := k[..|prefix|];
      assert front[0] == k[0] && front[1..] == k[1..][..|rest|];
    }
  }

  lemma {:induction false} WrappedRangeIsEmpty(k: bytes, prefix: bytes)
    requires prefix != [] && prefix[|prefix| - 1] == 255
    ensures !InRange(k, prefix, RangeEnd(prefix))
  {
    var end := RangeEnd(prefix);
    if |prefix| == 1 {
      assert end == [0] && prefix == [255];
      if k != [] { assert !Below(k[1..], end[1..]); }
    } else if k != [] {
      assert end[1..] == RangeEnd(prefix[1..]) && end[0] == prefix[0];
      WrappedRangeIsEmpty(k[1..], prefix[1..]);
    }
  }

  /** The range delete removes exactly the keys with the prefix if and only if its last byte is below 255. */
  lemma RangeDeletesPrefixIff(prefix: bytes)
    requires prefix != []
    ensures (forall k :: InRange(k, prefix, RangeEnd(prefix)) <==> StartsWith(k, prefix)) <==> prefix[|prefix| - 1] < 255
  {
    if prefix[|prefix| - 1] < 255 {
      forall k ensures InRange(k, prefix, RangeEnd(prefix)) <==> StartsWith(k, prefix) {
        RangeIsThePrefix(k, prefix);
      }
    } else {
      WrappedRangeIsEmpty(prefix, prefix);
      assert StartsWith(prefix, prefix);
    }
  }

  /** Removes the keys with a prefix; without a prefix the whole column family is dropped and made anew. */
  method RemovePrefix<V>(store: map<bytes, V>, prefix: bytes) returns (left: map<bytes, V>)
    ensures prefix == [] ==> left == map[]
    ensures prefix != [] && prefix[|prefix| - 1] < 255 ==> left == map k | k in store && !StartsWith(k, prefix) :: store[k]
    ensures prefix != [] && prefix[|prefix| - 1] == 255 ==> left == store
  {
    if prefix == [] {
      return map[];
    }
    var end := new byte[|prefix|](i requires 0 <= i < |prefix| => prefix[i]);
    var last := |prefix| - 1;
    end[last] := Incremented(end[last]);
    assert end[..] == RangeEnd(prefix);
    left := map k | k in store && !InRange(k, prefix, end[..]) :: store[k];
    forall k | k in store
      ensures InRange(k, prefix, end[..]) <==> prefix[last] < 255 && StartsWith(k, prefix)
    {
      if prefix[last] < 255 { RangeIsThePrefix(k, prefix); } else { WrappedRangeIsEmpty(k, prefix); }
    }
  }

  lemma {:induction false} LastByte(n: nat, size: nat)
    requires size > 0 && n < Pow256(size)
    ensures ToLE(n, size)[size - 1] < 255 <==> n < 255 * Pow256(size - 1)
  {
    if size == 1 {
      assert ToLE(n, 1)[0] == n % 256;
    } else {
      LastByte(n / 256, size - 1);
      assert n / 256 < 255 * Pow256(size - 2) <==> n < 255 * Pow256(size - 2) * 256;
    }
  }

  /**
   With a number of any width as namespace, clearing one map by a range delete removes that
   map's keys and nothing else if and only if the namespace's highest byte is below 255.
   */
  lemma ClearIsExactIff<IK(!new), N(!new), K(!new)>(h: Handle<IK, N, K>, t: Number<N>, ik: IK, ns: N)
    requires Sound(h) && h.namespace == NumberBytes(t) && Faithful(t) && t.width > 0
    ensures var m := Metakeys(h, ik, ns);
      m != [] && ((forall k :: InRange(k, m, RangeEnd(m)) <==> StartsWith(k, m)) <==> t.to(ns) < 255 * Pow256(t.width - 1))
  {
    var m := Metakeys(h, ik, ns);
    assert h.namespace.encode(ns) == ToLE(t.to(ns), t.width);
    LastByte(t.to(ns), t.width);
    assert m[|m| - 1] == ToLE(t.to(ns), t.width)[t.width - 1];
    RangeDeletesPrefixIff(m);
  }
}
