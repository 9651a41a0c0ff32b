/**
 The in-memory backend keeps all maps of one state in a single hash map. Seen from outside
 there is one map for every item key and namespace.
 */
module InMemoryMaps {
  import opened Streams
  import opened Bytes
  import opened FixedBytes
  import opened FlatKeys

  /** The flat store holds exactly the given triples. */
  ghost predicate Holds<IK(!new), N(!new), K(!new), V>(h: Handle<IK, N, K>, data: map<bytes, V>, c: map<(IK, N, K), V>) {
    && (forall t {:trigger FullKey(h, t)} :: t in c ==> FullKey(h, t) in data && data[FullKey(h, t)] == c[t])
    && (forall b {:trigger Owner(h, b)} :: b in data ==> Owner(h, b).Some? && Owner(h, b).value in c && FullKey(h, Owner(h, b).value) == b)
  }

  /** The map of one item key and namespace. */
  ghost function Slice<IK, N, K, V>(c: map<(IK, N, K), V>, ik: IK, ns: N): (m: map<K, V>) {
    map t | t in c && t.0 == ik && t.1 == ns :: t.2 := c[t]
  }

  ghost function Without<IK, N, K, V>(c: map<(IK, N, K), V>, ik: IK, ns: N): map<(IK, N, K), V> {
    map t | t in c && !(t.0 == ik && t.1 == ns) :: c[t]
  }

  lemma PutHolds<IK(!new), N(!new), K(!new), V>(h: Handle<IK, N, K>, data: map<bytes, V>, c: map<(IK, N, K), V>, t: (IK, N, K), v: V)
    requires Sound(h) && Holds(h, data, c)
    ensures Holds(h, data[FullKey(h, t) := v], c[t := v])
  {
    KeyRoundTrip(h, t);
    forall s | s in c && s != t ensures FullKey(h, s) != FullKey(h, t) {
      KeyRoundTrip(h, s);
    }
  }

  lemma RemoveHolds<IK(!new), N(!new), K(!new), V>(h: Handle<IK, N, K>, data: map<bytes, V>, c: map<(IK, N, K), V>, t: (IK, N, K))
    requires Sound(h) && Holds(h, data, c)
    ensures Holds(h, data - {FullKey(h, t)}, c - {t})
  {
    KeyRoundTrip(h, t);
    forall s | s in c && s != t ensures FullKey(h, s) != FullKey(h, t) {
      KeyRoundTrip(h, s);
    }
  }

  lemma LookupHolds<IK(!new), N(!new), K(!new), V>(h: Handle<IK, N, K>, data: map<bytes, V>, c: map<(IK, N, K), V>, t: (IK, N, K))
    requires Sound(h) && Holds(h, data, c)
    ensures FullKey(h, t) in data <==> t in c
  {
    KeyRoundTrip(h, t);
  }

  /** No stored key is shorter than a prefix, and the prefix singles out the map. */
  lemma EveryKeyIsLong<IK(!new), N(!new), K(!new), V>(h: Handle<IK, N, K>, data: map<bytes, V>, c: map<(IK, N, K), V>, ik: IK, ns: N)
    requires Sound(h) && Holds(h, data, c)
    ensures forall b :: b in data ==> |Metakeys(h, ik, ns)| <= |b|
    ensures forall b :: b in data ==>
      (HasPrefix(b, Metakeys(h, ik, ns)) <==> Owner(h, b).value.0 == ik && Owner(h, b).value.1 == ns)
  {
    forall b | b in data
      ensures |Metakeys(h, ik, ns)| <= |b|
      ensures HasPrefix(b, Metakeys(h, ik, ns)) <==> Owner(h, b).value.0 == ik && Owner(h, b).value.1 == ns
    {
      PrefixIsTheMap(h, Owner(h, b).value, ik, ns);
    }
  }

  lemma RetainHolds<IK(!new), N(!new), K(!new), V>(h: Handle<IK, N, K>, data: map<bytes, V>, c: map<(IK, N, K), V>, ik: IK, ns: N, left: map<bytes, V>)
    requires Sound(h) && Holds(h, data, c)
    requires forall b :: b in left <==> b in data && !(Owner(h, b).value.0 == ik && Owner(h, b).value.1 == ns)
    requires forall b :: b in left ==> left[b] == data[b]
    ensures Holds(h, left, Without(c, ik, ns))
  {
    forall t | t in c ensures Owner(h, FullKey(h, t)) == Some(t) {
      KeyRoundTrip(h, t);
    }
  }

  /** A listing of a map in some order: every entry, and no entry twice. */
  ghost predicate Lists<K, V>(out: seq<Option<(K, V)>>, m: map<K, V>) {
    && |out| == |m|
    && (forall i :: 0 <= i < |out| ==> out[i].Some? && out[i].value.0 in m && out[i].value.1 == m[out[i].value.0])
    && (forall i, j :: 0 <= i < j < |out| ==> out[i] != out[j])
  }

  lemma ListsSnoc<K, V>(out: seq<Option<(K, V)>>, m: map<K, V>, k: K, v: V)
    requires Lists(out, m) && k !in m
    ensures Lists(out + [Some((k, v))], m[k := v])
  {
    assert forall i :: 0 <= i < |out| ==> out[i].value.0 != k;
  }

  ghost function WithAll<IK, N, K, V>(c: map<(IK, N, K), V>, ik: IK, ns: N, pairs: seq<(K, V)>): map<(IK, N, K), V> {
    if pairs == [] then c
    else
      var last := pairs[|pairs| - 1];
      WithAll(c, ik, ns, pairs[..|pairs| - 1])[(ik, ns, last.0) := last.1]
  }

  /** Pair `i` is the last one with its key. */
  ghost predicate LastAt<K(!new), V(!new)>(pairs: seq<(K, V)>, i: nat) {
    i < |pairs| && forall j :: i < j < |pairs| ==> pairs[j].0 != pairs[i].0
  }

  ghost predicate Mentions<K(!new), V(!new)>(pairs: seq<(K, V)>, k: K) {
    exists i :: 0 <= i < |pairs| && pairs[i].0 == k
  }

  /** In the map of `ik` and `ns` each listed key has the value of its last pair; everything else is as before. */
  ghost predicate AddsPairs<IK(!new), N(!new), K(!new), V(!new)>(
    before: map<(IK, N, K), V>, ik: IK, ns: N, pairs: seq<(K, V)>, after: map<(IK, N, K), V>)
  {
    && (forall i: nat :: LastAt(pairs, i) ==> (ik, ns, pairs[i].0) in after && after[(ik, ns, pairs[i].0)] == pairs[i].1)
    && (forall t: (IK, N, K) :: t.0 != ik || t.1 != ns || !Mentions(pairs, t.2) ==>
          (t in after <==> t in before) && (t in after ==> after[t] == before[t]))
  }

  lemma {:induction false} WithAllLast<IK(!new), N(!new), K(!new), V(!new)>(
    c: map<(IK, N, K), V>, ik: IK, ns: N, pairs: seq<(K, V)>, i: nat)
    requires LastAt(pairs, i)
    ensures var after := WithAll(c, ik, ns, pairs); (ik, ns, pairs[i].0) in after && after[(ik, ns, pairs[i].0)] == pairs[i].1
    decreases |pairs|
  {
    var n := |pairs| - 1;
    if i < n {
      assert pairs[n].0 != pairs[i].0;
      assert LastAt(pairs[..n], i);
      WithAllLast(c, ik, ns, pairs[..n], i);
    }
  }

  lemma {:induction false} WithAllOthers<IK(!new), N(!new), K(!new), V(!new)>(
    c: map<(IK, N, K), V>, ik: IK, ns: N, pairs: seq<(K, V)>, t: (IK, N, K))
    requires t.0 != ik || t.1 != ns || !Mentions(pairs, t.2)
    ensures var after := WithAll(c, ik, ns, pairs); (t in after <==> t in c) && (t in after ==> after[t] == c[t])
    decreases |pairs|
  {
    if pairs != [] {
      var n := |pairs| - 1;
      assert t.0 != ik || t.1 != ns || pairs[n].0 != t.2;
      assert Mentions(pairs[..n], t.2) ==> Mentions(pairs, t.2) by {
        if i :| 0 <= i < n && pairs[..n][i].0 == t.2 { assert pairs[i].0 == t.2; }
      }
      WithAllOthers(c, ik, ns, pairs[..n], t);
    }
  }

  lemma WithAllAdds<IK(!new), N(!new), K(!new), V(!new)>(c: map<(IK, N, K), V>, ik: IK, ns: N, pairs: seq<(K, V)>)
    ensures AddsPairs(c, ik, ns, pairs, WithAll(c, ik, ns, pairs))
  {
    var after := WithAll(c, ik, ns, pairs);
    forall i: nat | LastAt(pairs, i)
      ensures (ik, ns, pairs[i].0) in after && after[(ik, ns, pairs[i].0)] == pairs[i].1
    {
      WithAllLast(c, ik, ns, pairs, i);
    }
    forall t: (IK, N, K) | t.0 != ik || t.1 != ns || !Mentions(pairs, t.2)
      ensures (t in after <==> t in c) && (t in after ==> after[t] == c[t])
    {
      WithAllOthers(c, ik, ns, pairs, t);
    }
  }

  ghost function KeyBytes<IK, N, K>(h: Handle<IK, N, K>, keys: set<K>, ik: IK, ns: N): set<bytes> {
    set k | k in keys :: FullKey(h, (ik, ns, k))
  }

  lemma {:induction false} KeyBytesSize<IK(!new), N(!new), K(!new)>(h: Handle<IK, N, K>, keys: set<K>, ik: IK, ns: N)
    requires Sound(h)
    ensures |KeyBytes(h, keys, ik, ns)| == |keys|
    decreases |keys|
  {
    if keys != {} {
      var k :| k in keys;
      var rest, b := keys - {k}, FullKey(h, (ik, ns, k));
      KeyBytesSize(h, rest, ik, ns);
      forall x | x in rest ensures FullKey(h, (ik, ns, x)) != b {
        KeyRoundTrip(h, (ik, ns, k));
        KeyRoundTrip(h, (ik, ns, x));
      }
      assert KeyBytes(h, keys, ik, ns) == KeyBytes(h, rest, ik, ns) + {b};
    }
  }

  lemma SliceKeys<IK(!new), N(!new), K(!new), V>(h: Handle<IK, N, K>, data: map<bytes, V>, c: map<(IK, N, K), V>, ik: IK, ns: N, b: bytes)
    requires Sound(h) && Holds(h, data, c)
    requires forall b :: b in data ==> |Metakeys(h, ik, ns)| <= |b|
    ensures (b in data && HasPrefix(b, Metakeys(h, ik, ns))) <==> b in KeyBytes(h, Slice(c, ik, ns).Keys, ik, ns)
  {
    if b in data {
      PrefixIsTheMap(h, Owner(h, b).value, ik, ns);
    }
    if k :| k in Slice(c, ik, ns) && b == FullKey(h, (ik, ns, k)) {
      PrefixIsTheMap(h, (ik, ns, k), ik, ns);
    }
  }

  lemma SliceSize<IK(!new), N(!new), K(!new), V>(h: Handle<IK, N, K>, data: map<bytes, V>, c: map<(IK, N, K), V>, ik: IK, ns: N)
    requires Sound(h) && Holds(h, data, c)
    requires forall b :: b in data ==> |Metakeys(h, ik, ns)| <= |b|
    ensures |set b | b in data && HasPrefix(b, Metakeys(h, ik, ns))| == |Slice(c, ik, ns)|
  {
    var some := set b | b in data && HasPrefix(b, Metakeys(h, ik, ns));
    var keys := Slice(c, ik, ns).Keys;
    forall b ensures b in some <==> b in KeyBytes(h, keys, ik, ns) {
      SliceKeys(h, data, c, ik, ns, b);
    }
    assert some == KeyBytes(h, keys, ik, ns);
    KeyBytesSize(h, keys, ik, ns);
  }

  /** The triples whose stored keys are not among `rest`. */
  ghost function Except<IK(!new), N(!new), K(!new), V>(h: Handle<IK, N, K>, c: map<(IK, N, K), V>, rest: set<bytes>): map<(IK, N, K), V> {
    map t | t in c && FullKey(h, t) !in rest :: c[t]
  }

  lemma ExceptNone<IK(!new), N(!new), K(!new), V>(h: Handle<IK, N, K>, c: map<(IK, N, K), V>)
    ensures Except(h, c, {}) == c
  {
  }

  lemma ExceptStep<IK(!new), N(!new), K(!new), V>(h: Handle<IK, N, K>, c: map<(IK, N, K), V>, rest: set<bytes>, t: (IK, N, K))
    requires Sound(h) && t in c && FullKey(h, t) in rest
    ensures t !in Except(h, c, rest)
    ensures Except(h, c, rest - {FullKey(h, t)}) == Except(h, c, rest)[t := c[t]]
  {
    forall s | s in c ensures FullKey(h, s) == FullKey(h, t) <==> s == t {
      KeyRoundTrip(h, s);
      KeyRoundTrip(h, t);
    }
  }

  lemma SlicePut<IK, N, K, V>(c: map<(IK, N, K), V>, ik: IK, ns: N, t: (IK, N, K), v: V)
    requires t !in c
    ensures var m, next := Slice(c, ik, ns), Slice(c[t := v], ik, ns);
      if t.0 == ik && t.1 == ns then t.2 !in m && next == m[t.2 := v] else next == m
  {
    var m, next := Slice(c, ik, ns), Slice(c[t := v], ik, ns);
    if t.0 == ik && t.1 == ns {
      assert t == (ik, ns, t.2);
      assert t.2 in next;
      forall k ensures k in next <==> k in m || k == t.2 {
        SliceMember(c, ik, ns, k);
        SliceMember(c[t := v], ik, ns, k);
      }
      forall k | k in next ensures next[k] == m[t.2 := v][k] {
        SliceMember(c, ik, ns, k);
        SliceMember(c[t := v], ik, ns, k);
      }
      assert next == m[t.2 := v];
    } else {
      forall k ensures k in next <==> k in m {
        SliceMember(c, ik, ns, k);
        SliceMember(c[t := v], ik, ns, k);
      }
      assert next == m;
    }
  }

  lemma SliceMember<IK, N, K, V>(c: map<(IK, N, K), V>, ik: IK, ns: N, k: K)
    ensures k in Slice(c, ik, ns) <==> (ik, ns, k) in c
    ensures k in Slice(c, ik, ns) ==> Slice(c, ik, ns)[k] == c[(ik, ns, k)]
  {
    if k in Slice(c, ik, ns) {
      var t :| t in c && t.0 == ik && t.1 == ns && t.2 == k;
      assert t == (ik, ns, k);
    }
    if (ik, ns, k) in c {
      var t := (ik, ns, k);
      assert t in c && t.0 == ik && t.1 == ns && t.2 == k;
    }
  }

  lemma SliceStep<IK(!new), N(!new), K(!new), V>(h: Handle<IK, N, K>, c: map<(IK, N, K), V>, rest: set<bytes>, t: (IK, N, K), ik: IK, ns: N, seen: map<K, V>)
    requires Sound(h) && t in c && FullKey(h, t) in rest && seen == Slice(Except(h, c, rest), ik, ns)
    ensures var next := Slice(Except(h, c, rest - {FullKey(h, t)}), ik, ns);
      if t.0 == ik && t.1 == ns then t.2 !in seen && next == seen[t.2 := c[t]] else next == seen
  {
    ExceptStep(h, c, rest, t);
    SlicePut(Except(h, c, rest), ik, ns, t, c[t]);
  }

  lemma SliceMembers<IK, N, K, V>(c: map<(IK, N, K), V>, ik: IK, ns: N, m: map<K, V>)
    ensures m == Slice(c, ik, ns) <==>
      forall k :: (k in m <==> (ik, ns, k) in c) && (k in m ==> m[k] == c[(ik, ns, k)])
  {
    forall k
      ensures k in Slice(c, ik, ns) <==> (ik, ns, k) in c
      ensures k in Slice(c, ik, ns) ==> Slice(c, ik, ns)[k] == c[(ik, ns, k)]
    {
      SliceMember(c, ik, ns, k);
    }
    if forall k :: (k in m <==> (ik, ns, k) in c) && (k in m ==> m[k] == c[(ik, ns, k)]) {
      assert m == Slice(c, ik, ns);
    }
  }

  /** Inserting, removing and clearing act on the map of the current metakeys, and on no other. */
  lemma InsertActsOnOneMap<IK, N, K, V>(c: map<(IK, N, K), V>, ik: IK, ns: N, k: K, v: V, ik2: IK, ns2: N)
    ensures var m := Slice(c, ik2, ns2);
      Slice(c[(ik, ns, k) := v], ik2, ns2) == if ik2 == ik && ns2 == ns then m[k := v] else m
  {
    var m := Slice(c, ik2, ns2);
    SliceMembers(c, ik2, ns2, m);
    SliceMembers(c[(ik, ns, k) := v], ik2, ns2, if ik2 == ik && ns2 == ns then m[k := v] else m);
  }

  lemma RemoveActsOnOneMap<IK, N, K, V>(c: map<(IK, N, K), V>, ik: IK, ns: N, k: K, ik2: IK, ns2: N)
    ensures var m := Slice(c, ik2, ns2);
      Slice(c - {(ik, ns, k)}, ik2, ns2) == if ik2 == ik && ns2 == ns then m - {k} else m
  {
    var m := Slice(c, ik2, ns2);
    SliceMembers(c, ik2, ns2, m);
    SliceMembers(c - {(ik, ns, k)}, ik2, ns2, if ik2 == ik && ns2 == ns then m - {k} else m);
  }

  lemma ClearActsOnOneMap<IK, N, K, V>(c: map<(IK, N, K), V>, ik: IK, ns: N, ik2: IK, ns2: N)
    ensures var m := Slice(c, ik2, ns2);
      Slice(Without(c, ik, ns), ik2, ns2) == if ik2 == ik && ns2 == ns then map[] else m
  {
    var m := Slice(c, ik2, ns2);
    SliceMembers(c, ik2, ns2, m);
    SliceMembers(Without(c, ik, ns), ik2, ns2, if ik2 == ik && ns2 == ns then map[] else m);
  }

  class InMemoryMap<IK(!new, ==), N(!new, ==), K(!new, ==), V(!new)> {
    const h: Handle<IK, N, K>
    var itemKey: IK
    var namespace: N
    var data: map<bytes, V>
    ghost var contents: map<(IK, N, K), V>

    ghost predicate Valid()
      reads this
    {
      Sound(h) && Holds(h, data, contents)
    }

    constructor (h: Handle<IK, N, K>, itemKey: IK, namespace: N)
      requires Sound(h)
      ensures Valid() && contents == map[] && this.h == h
      ensures this.itemKey == itemKey && this.namespace == namespace
    {
      this.h := h;
      this.itemKey := itemKey;
      this.namespace := namespace;
      data := map[];
      contents := map[];
    }

    method SetItemKey(ik: IK)
      requires Valid()
      modifies `itemKey
      ensures Valid() && itemKey == ik
    {
      itemKey := ik;
    }

    method SetNamespace(ns: N)
      requires Valid()
      modifies `namespace
      ensures Valid() && namespace == ns
    {
      namespace := ns;
    }

    /** Empties the current map and leaves every other one alone. */
    method Clear()
      requires Valid()
      modifies `data, `contents
      ensures Valid() && contents == Without(old(contents), itemKey, namespace)
    {
      var key := Metakeys(h, itemKey, namespace);
      EveryKeyIsLong(h, data, contents, itemKey, namespace);
      var left := map b | b in data && !HasPrefix(b, key) :: data[b];
      RetainHolds(h, data, contents, itemKey, namespace, left);
      data := left;
      contents := Without(contents, itemKey, namespace);
    }

    method Get(k: K) returns (r: Option<V>)
      requires Valid()
      ensures var t := (itemKey, namespace, k); r == if t in contents then Some(contents[t]) else None
    {
      var key := FullKey(h, (itemKey, namespace, k));
      LookupHolds(h, data, contents, (itemKey, namespace, k));
      r := if key in data then Some(data[key]) else None;
    }

    method Contains(k: K) returns (r: bool)
      requires Valid()
      ensures r <==> (itemKey, namespace, k) in contents
    {
      LookupHolds(h, data, contents, (itemKey, namespace, k));
      r := FullKey(h, (itemKey, namespace, k)) in data;
    }

    method FastInsert(k: K, v: V)
      requires Valid()
      modifies `data, `contents
      ensures Valid() && contents == old(contents)[(itemKey, namespace, k) := v]
    {
      ghost var t := (itemKey, namespace, k);
      PutHolds(h, data, contents, t, v);
      data := data[FullKey(h, (itemKey, namespace, k)) := v];
      contents := contents[t := v];
    }

    method Insert(k: K, v: V) returns (r: Option<V>)
      requires Valid()
      modifies `data, `contents
      ensures Valid() && contents == old(contents)[(itemKey, namespace, k) := v]
      ensures var t := (itemKey, namespace, k); r == if t in old(contents) then Some(old(contents)[t]) else None
    {
      r := Get(k);
      FastInsert(k, v);
    }

    method Remove(k: K) returns (r: Option<V>)
      requires Valid()
      modifies `data, `contents
      ensures Valid() && contents == old(contents) - {(itemKey, namespace, k)}
      ensures var t := (itemKey, namespace, k); r == if t in old(contents) then Some(old(contents)[t]) else None
    {
      ghost var t := (itemKey, namespace, k);
      r := Get(k);
      RemoveHolds(h, data, contents, t);
      data := data - {FullKey(h, (itemKey, namespace, k))};
      contents := contents - {t};
    }

    /** The pairs go in one by one; a later pair wins over an earlier one with the same key. */
    method InsertAll(pairs: seq<(K, V)>)
      requires Valid()
      modifies `data, `contents
      ensures Valid() && contents == WithAll(old(contents), itemKey, namespace, pairs)
      ensures AddsPairs(old(contents), itemKey, namespace, pairs, contents)
    {
      WithAllAdds(contents, itemKey, namespace, pairs);
      var i := 0;
      while i < |pairs|
        invariant 0 <= i <= |pairs|
        invariant Valid() && contents == WithAll(old(contents), itemKey, namespace, pairs[..i])
      {
        assert pairs[..i + 1][..i] == pairs[..i];
        FastInsert(pairs[i].0, pairs[i].1);
        i := i + 1;
      }
      assert pairs[..i] == pairs;
    }

    /** Lists the entries of the current map, in whatever order the hash map has. */
    method Iter() returns (out: seq<Option<(K, V)>>)
      requires Valid()
      ensures Lists(out, Slice(contents, itemKey, namespace))
    {
      var prefix := Metakeys(h, itemKey, namespace);
      EveryKeyIsLong(h, data, contents, itemKey, namespace);
      var rest := data.Keys;
      ghost var seen := Slice(Except(h, contents, rest), itemKey, namespace);
      assert seen == map[];
      out := [];
      while rest != {}
        invariant rest <= data.Keys && Lists(out, seen)
        invariant seen == Slice(Except(h, contents, rest), itemKey, namespace)
      {
        var b :| b in rest;
        ghost var t := Owner(h, b).value;
        SliceStep(h, contents, rest, t, itemKey, namespace, seen);
        if HasPrefix(b, prefix) {
          ListsSnoc(out, seen, t.2, data[b]);
          var entry := match Owner(h, b) case None => None case Some((_, _, k)) => Some((k, data[b]));
          out := out + [entry];
          seen := seen[t.2 := data[b]];
        }
        rest := rest - {b};
      }
      ExceptNone(h, contents);
    }

    method Len() returns (n: nat)
      requires Valid()
      ensures n == |Slice(contents, itemKey, namespace)|
    {
      var prefix := Metakeys(h, itemKey, namespace);
      EveryKeyIsLong(h, data, contents, itemKey, namespace);
      SliceSize(h, data, contents, itemKey, namespace);
      n := |set b | b in data && HasPrefix(b, prefix)|;
    }

    method IsEmpty() returns (r: bool)
      requires Valid()
      ensures r <==> Slice(contents, itemKey, namespace) == map[]
    {
      var n := Len();
      r := n == 0;
    }
  }
}
