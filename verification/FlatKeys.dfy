/**
 The keys of map states in a flat store: the item key and the namespace, both of fixed
 size, and then the map's own key with its length in front.
 */
module FlatKeys {
  import opened Streams
  import opened Bytes
  import opened FixedBytes

  datatype Handle<!IK, !N, !K> = Handle(itemKey: Fixed<IK>, namespace: Fixed<N>, key: Codec<K>)

  ghost predicate Sound<IK(!new), N(!new), K(!new)>(h: Handle<IK, N, K>) {
    Exact(h.itemKey) && Exact(h.namespace) && Lawful(h.key)
  }

  function Metakeys<IK, N, K>(h: Handle<IK, N, K>, ik: IK, ns: N): bytes {
    h.itemKey.encode(ik) + h.namespace.encode(ns)
  }

  function FullKey<IK, N, K>(h: Handle<IK, N, K>, t: (IK, N, K)): bytes {
    Metakeys(h, t.0, t.1) + Delimited(h.key, t.2)
  }

  /** What the iterators do to a stored key: read the metakeys off, then the key. */
  function Owner<IK, N, K>(h: Handle<IK, N, K>, b: bytes): Option<(IK, N, K)> {
    match h.itemKey.read(b)
    case None => None
    case Some((ik, b1)) =>
      match h.namespace.read(b1)
      case None => None
      case Some((ns, b2)) =>
        match ReadDelimited(h.key, b2)
        case None => None
        case Some((k, _)) => Some((ik, ns, k))
  }

  lemma MetakeysRead<IK(!new), N(!new), K(!new)>(h: Handle<IK, N, K>, ik: IK, ns: N, rest: bytes)
    requires Sound(h)
    ensures |Metakeys(h, ik, ns)| == h.itemKey.size + h.namespace.size
    ensures h.itemKey.read(Metakeys(h, ik, ns) + rest) == Some((ik, h.namespace.encode(ns) + rest))
    ensures h.namespace.read(h.namespace.encode(ns) + rest) == Some((ns, rest))
  {
    var x, y := h.itemKey.encode(ik), h.namespace.encode(ns);
    assert Metakeys(h, ik, ns) + rest == x + (y + rest);
  }

  /** A stored key gives back the item key, the namespace and the key it was made of. */
  lemma KeyRoundTrip<IK(!new), N(!new), K(!new)>(h: Handle<IK, N, K>, t: (IK, N, K))
    requires Sound(h)
    ensures Owner(h, FullKey(h, t)) == Some(t)
  {
    var d := Delimited(h.key, t.2);
    MetakeysRead(h, t.0, t.1, d);
    DelimitedRoundTrip(h.key, t.2, []);
    assert d + [] == d;
  }

  lemma KeysAreInjective<IK(!new), N(!new), K(!new)>(h: Handle<IK, N, K>, s: (IK, N, K), t: (IK, N, K))
    requires Sound(h) && FullKey(h, s) == FullKey(h, t)
    ensures s == t
  {
    KeyRoundTrip(h, s);
    KeyRoundTrip(h, t);
  }

  predicate HasPrefix(b: bytes, prefix: bytes)
    requires |prefix| <= |b|
  {
    b[..|prefix|] == prefix
  }

  /** A stored key starts with given metakeys if and only if it belongs to their map. */
  lemma PrefixIsTheMap<IK(!new), N(!new), K(!new)>(h: Handle<IK, N, K>, t: (IK, N, K), ik: IK, ns: N)
    requires Sound(h)
    ensures |Metakeys(h, ik, ns)| <= |FullKey(h, t)|
    ensures HasPrefix(FullKey(h, t), Metakeys(h, ik, ns)) <==> (t.0 == ik && t.1 == ns)
  {
    var m := Metakeys(h, t.0, t.1);
    MetakeysRead(h, ik, ns, []);
    MetakeysRead(h, t.0, t.1, []);
    assert FullKey(h, t)[..|m|] == m;
    assert Metakeys(h, ik, ns) + [] == Metakeys(h, ik, ns) && m + [] == m;
  }
}
