/**
 The pool of reusable event buffers, shared by one writing node and the readers of its
 messages. The steps below are interleaved arbitrarily. A claim is what the source
 calls a writer until its reader is generated, and that reader afterwards.
 */
module BufferPool {
  import opened Streams

  /** A memory block with its flag; `data` has the block's fixed size. */
  datatype Slot<T> = Slot(free: bool, data: seq<T>)

  datatype Phase = Writing | Reading | Dropped

  /** `pushed` is history: what was pushed or copied through this claim. */
  datatype Claim<T> = Claim(slot: nat, len: nat, phase: Phase, pushed: seq<T>)

  /** `ring` is the capacity at which the cursor wraps around. */
  datatype Pool<T> = Pool(slots: seq<Slot<T>>, ring: nat, curr: nat, claims: seq<Claim<T>>)

  datatype Action<T> =
    | TryGet                       // the writing node probes the slot under the cursor
    | Push(claim: nat, value: T)
    | CopyFrom(claim: nat, source: nat)
    | Publish(claim: nat)          // the writer generates its only reader
    | Drop(claim: nat)             // the reader is dropped, possibly in another thread

  predicate Live<T>(p: Pool<T>, h: int) {
    0 <= h < |p.claims| && !p.claims[h].phase.Dropped?
  }

  /** The discipline under which the pool is used; `TryGet` outside the ring panics in the source. */
  predicate Legal<T>(p: Pool<T>, a: Action<T>) {
    match a
    case TryGet => p.curr < |p.slots|
    case Push(h, _) => Live(p, h) && p.claims[h].phase.Writing?
    case CopyFrom(h, o) => Live(p, h) && p.claims[h].phase.Writing? && Live(p, o) && o != h
    case Publish(h) => Live(p, h) && p.claims[h].phase.Writing?
    case Drop(h) => Live(p, h) && p.claims[h].phase.Reading?
  }

  function Overwrite<T>(block: seq<T>, items: seq<T>): seq<T>
    requires |items| <= |block|
  {
    items + block[|items|..]
  }

  function TryGetStep<T>(p: Pool<T>): Pool<T>
    requires p.curr < |p.slots|
  {
    var next := if p.curr + 1 == p.ring then 0 else p.curr + 1;
    if p.slots[p.curr].free
    then p.(slots := p.slots[p.curr := p.slots[p.curr].(free := false)],
            claims := p.claims + [Claim(p.curr, 0, Writing, [])], curr := next)
    else p.(curr := next)
  }

  /** A push beyond the capacity gives the value back and writes nothing. */
  function PushStep<T>(p: Pool<T>, h: nat, v: T): Pool<T>
    requires h < |p.claims| && p.claims[h].slot < |p.slots|
  {
    var c := p.claims[h];
    var block := p.slots[c.slot].data;
    if c.len >= |block| then p
    else p.(slots := p.slots[c.slot := p.slots[c.slot].(data := block[c.len := v])],
            claims := p.claims[h := c.(len := c.len + 1, pushed := c.pushed + [v])])
  }

  function CopyStep<T>(p: Pool<T>, h: nat, o: nat): Pool<T>
    requires h < |p.claims| && o < |p.claims| && p.claims[h].slot < |p.slots| && p.claims[o].slot < |p.slots|
    requires p.claims[o].len <= |p.slots[p.claims[o].slot].data|
    requires p.claims[o].len <= |p.slots[p.claims[h].slot].data|
  {
    var c, src := p.claims[h], p.claims[o];
    var items := p.slots[src.slot].data[..src.len];
    p.(slots := p.slots[c.slot := p.slots[c.slot].(data := Overwrite(p.slots[c.slot].data, items))],
       claims := p.claims[h := c.(len := src.len, pushed := items)])
  }

  /** The invariant: one live claim a slot, exactly on the slots that are not free. */
  ghost predicate Inv<T(!new)>(p: Pool<T>, size: nat) {
    && p.slots != [] && p.ring == |p.slots| && p.curr < |p.slots|
    && (forall i :: 0 <= i < |p.slots| ==> |p.slots[i].data| == size)
    && (forall h :: 0 <= h < |p.claims| ==> p.claims[h].slot < |p.slots|)
    && (forall h, g :: Live(p, h) && Live(p, g) && h != g ==> p.claims[h].slot != p.claims[g].slot)
    && (forall h :: Live(p, h) ==> !p.slots[p.claims[h].slot].free)
    && (forall i :: 0 <= i < |p.slots| && !p.slots[i].free ==> exists h :: Live(p, h) && p.claims[h].slot == i)
    && (forall h :: Live(p, h) ==>
          p.claims[h].len == |p.claims[h].pushed| <= size &&
          p.slots[p.claims[h].slot].data[..p.claims[h].len] == p.claims[h].pushed)
  }

  function Do<T>(p: Pool<T>, a: Action<T>): Pool<T>
    requires Legal(p, a)
    requires forall h :: 0 <= h < |p.claims| ==> p.claims[h].slot < |p.slots|
    requires forall h, i :: 0 <= h < |p.claims| && 0 <= i < |p.slots| && Live(p, h) ==> p.claims[h].len <= |p.slots[i].data|
  {
    match a
    case TryGet => TryGetStep(p)
    case Push(h, v) => PushStep(p, h, v)
    case CopyFrom(h, o) => CopyStep(p, h, o)
    case Publish(h) => p.(claims := p.claims[h := p.claims[h].(phase := Reading)])
    case Drop(h) =>
      p.(slots := p.slots[p.claims[h].slot := p.slots[p.claims[h].slot].(free := true)],
         claims := p.claims[h := p.claims[h].(phase := Dropped)])
  }

  lemma TryGetKeepsInv<T(!new)>(p: Pool<T>, size: nat)
    requires Inv(p, size)
    ensures Inv(TryGetStep(p), size)
  {
    var r := TryGetStep(p);
    if p.slots[p.curr].free {
      var n := |p.claims|;
      assert Live(r, n) && r.claims[n].slot == p.curr;
      assert forall h :: 0 <= h < n ==> r.claims[h] == p.claims[h] && (Live(r, h) <==> Live(p, h));
      forall i | 0 <= i < |r.slots| && !r.slots[i].free ensures exists h :: Live(r, h) && r.claims[h].slot == i {
        if i != p.curr {
          var h :| Live(p, h) && p.claims[h].slot == i;
          assert Live(r, h);
        }
      }
    } else {
      assert forall h :: Live(r, h) <==> Live(p, h);
    }
  }

  /** A claim rewrites its own block: nobody else's block or flag changes. */
  lemma RewriteKeepsInv<T(!new)>(p: Pool<T>, size: nat, h: nat, data: seq<T>, items: seq<T>)
    requires Inv(p, size) && Live(p, h)
    requires |data| == size && |items| <= size && data[..|items|] == items
    ensures var c := p.claims[h];
      Inv(p.(slots := p.slots[c.slot := p.slots[c.slot].(data := data)],
             claims := p.claims[h := c.(len := |items|, pushed := items)]), size)
  {
    var c := p.claims[h];
    var r := p.(slots := p.slots[c.slot := p.slots[c.slot].(data := data)],
                claims := p.claims[h := c.(len := |items|, pushed := items)]);
    assert forall g :: Live(r, g) <==> Live(p, g);
    assert forall g :: 0 <= g < |r.claims| ==> r.claims[g].slot == p.claims[g].slot;
    assert forall i :: 0 <= i < |r.slots| ==> r.slots[i].free == p.slots[i].free;
    forall i | 0 <= i < |r.slots| && !r.slots[i].free ensures exists g :: Live(r, g) && r.claims[g].slot == i {
      var g :| Live(p, g) && p.claims[g].slot == i;
      assert Live(r, g) && r.claims[g].slot == i;
    }
  }

  lemma PublishKeepsInv<T(!new)>(p: Pool<T>, size: nat, h: nat)
    requires Inv(p, size) && Live(p, h)
    ensures Inv(p.(claims := p.claims[h := p.claims[h].(phase := Reading)]), size)
  {
    var r := p.(claims := p.claims[h := p.claims[h].(phase := Reading)]);
    assert forall g :: Live(r, g) <==> Live(p, g);
    assert forall g :: 0 <= g < |r.claims| ==> r.claims[g].slot == p.claims[g].slot;
    forall i | 0 <= i < |r.slots| && !r.slots[i].free ensures exists g :: Live(r, g) && r.claims[g].slot == i {
      var g :| Live(p, g) && p.claims[g].slot == i;
      assert Live(r, g) && r.claims[g].slot == i;
    }
  }

  lemma DropKeepsInv<T(!new)>(p: Pool<T>, size: nat, h: nat)
    requires Inv(p, size) && Live(p, h)
    ensures Inv(p.(slots := p.slots[p.claims[h].slot := p.slots[p.claims[h].slot].(free := true)],
                   claims := p.claims[h := p.claims[h].(phase := Dropped)]), size)
  {
    var c := p.claims[h];
    var r := p.(slots := p.slots[c.slot := p.slots[c.slot].(free := true)],
                claims := p.claims[h := c.(phase := Dropped)]);
    assert forall g :: Live(r, g) <==> Live(p, g) && g != h;
    assert forall g :: 0 <= g < |r.claims| ==> r.claims[g].slot == p.claims[g].slot;
    forall i | 0 <= i < |r.slots| && !r.slots[i].free ensures exists g :: Live(r, g) && r.claims[g].slot == i {
      var g :| Live(p, g) && p.claims[g].slot == i;
      assert g != h;
      assert Live(r, g) && r.claims[g].slot == i;
    }
  }

  lemma PushKeepsInv<T(!new)>(p: Pool<T>, size: nat, h: nat, v: T)
    requires Inv(p, size) && Live(p, h)
    ensures Inv(PushStep(p, h, v), size)
  {
    var c := p.claims[h];
    var block := p.slots[c.slot].data;
    if c.len < size {
      assert block[c.len := v][..c.len + 1] == block[..c.len] + [v];
      RewriteKeepsInv(p, size, h, block[c.len := v], c.pushed + [v]);
    }
  }

  lemma CopyKeepsInv<T(!new)>(p: Pool<T>, size: nat, h: nat, o: nat)
    requires Inv(p, size) && Live(p, h) && Live(p, o)
    ensures Inv(CopyStep(p, h, o), size)
  {
    var items := p.slots[p.claims[o].slot].data[..p.claims[o].len];
    var block := p.slots[p.claims[h].slot].data;
    assert Overwrite(block, items)[..|items|] == items;
    RewriteKeepsInv(p, size, h, Overwrite(block, items), items);
  }

  lemma DoKeepsInv<T(!new)>(p: Pool<T>, size: nat, a: Action<T>)
    requires Inv(p, size) && Legal(p, a)
    ensures Inv(Do(p, a), size)
  {
    match a
    case TryGet => TryGetKeepsInv(p, size);
    case Push(h, v) => PushKeepsInv(p, size, h, v);
    case CopyFrom(h, o) => CopyKeepsInv(p, size, h, o);
    case Publish(h) => PublishKeepsInv(p, size, h);
    case Drop(h) => DropKeepsInv(p, size, h);
  }

  // ----- runs -----

  /** The state after a run; `None` when the run breaks the discipline. */
  ghost function After<T(!new)>(p: Pool<T>, size: nat, actions: seq<Action<T>>): (r: Option<Pool<T>>)
    requires Inv(p, size)
    ensures r.Some? ==> Inv(r.value, size)
  {
    if actions == [] then Some(p)
    else
      var n := |actions| - 1;
      match After(p, size, actions[..n])
      case None => None
      case Some(q) =>
        if Legal(q, actions[n]) then
          DoKeepsInv(q, size, actions[n]);
          Some(Do(q, actions[n]))
        else None
  }

  function NewPool<T>(count: nat, size: nat, init: T): Pool<T> {
    Pool(seq(count, i => Slot(true, seq(size, j => init))), count, 0, [])
  }

  lemma NewPoolInv<T(!new)>(count: nat, size: nat, init: T)
    requires count > 0
    ensures Inv(NewPool(count, size, init), size)
  {
  }

  /**
   In every run: no buffer has two live owners, a buffer is free exactly when it has
   none, a reader sees what was pushed or copied through its writer, and the cursor
   stays in range, so that probing never fails outright.
   */
  lemma Ownership<T(!new)>(count: nat, size: nat, init: T, actions: seq<Action<T>>)
    requires count > 0
    ensures Inv(NewPool(count, size, init), size)
    ensures var o := After(NewPool(count, size, init), size, actions); o.Some? ==>
      var p := o.value;
      && Legal(p, TryGet)
      && (forall h, g :: Live(p, h) && Live(p, g) && p.claims[h].slot == p.claims[g].slot ==> h == g)
      && (forall i :: 0 <= i < |p.slots| ==> (p.slots[i].free <==> !exists h :: Live(p, h) && p.claims[h].slot == i))
      && (forall h :: Live(p, h) ==>
            p.claims[h].len <= |p.slots[p.claims[h].slot].data| &&
            p.slots[p.claims[h].slot].data[..p.claims[h].len] == p.claims[h].pushed)
  {
    NewPoolInv(count, size, init);
  }

  lemma OneActionLeavesReader<T(!new)>(p: Pool<T>, size: nat, a: Action<T>, h: nat)
    requires Inv(p, size) && Legal(p, a) && Live(p, h) && p.claims[h].phase.Reading? && a != Drop(h)
    ensures var r := Do(p, a);
      && Live(r, h) && r.claims[h] == p.claims[h]
      && r.slots[r.claims[h].slot].data[..r.claims[h].len] == p.slots[p.claims[h].slot].data[..p.claims[h].len]
  {
    DoKeepsInv(p, size, a);
  }

  /** What a reader sees does not change until it is dropped, whatever else happens. */
  lemma {:induction false} ReaderIsStable<T(!new)>(p: Pool<T>, size: nat, actions: seq<Action<T>>, h: nat)
    requires Inv(p, size) && Live(p, h) && p.claims[h].phase.Reading?
    requires After(p, size, actions).Some? && forall k :: 0 <= k < |actions| ==> actions[k] != Drop(h)
    ensures var r := After(p, size, actions).value;
      && Live(r, h) && r.claims[h] == p.claims[h]
      && r.slots[r.claims[h].slot].data[..r.claims[h].len] == p.slots[p.claims[h].slot].data[..p.claims[h].len]
    decreases |actions|
  {
    if actions != [] {
      var n := |actions| - 1;
      ReaderIsStable(p, size, actions[..n], h);
      OneActionLeavesReader(After(p, size, actions[..n]).value, size, actions[n], h);
    }
  }

  // ----- a full rotation of failed probes -----

  function Probes<T>(actions: seq<Action<T>>): nat {
    if actions == [] then 0
    else Probes(actions[..|actions| - 1]) + if actions[|actions| - 1].TryGet? then 1 else 0
  }

  lemma {:induction false} PrefixRuns<T(!new)>(p: Pool<T>, size: nat, actions: seq<Action<T>>, n: nat)
    requires Inv(p, size) && n <= |actions| && After(p, size, actions).Some?
    ensures After(p, size, actions[..n]).Some?
    decreases |actions|
  {
    if n < |actions| {
      var front := actions[..|actions| - 1];
      PrefixRuns(p, size, front, n);
      assert front[..n] == actions[..n];
    } else {
      assert actions[..n] == actions;
    }
  }

  /** The cursor after n probes, starting from c on a ring of m. */
  function Ring(c: nat, n: nat, m: nat): nat {
    if n == 0 then c
    else
      var k := Ring(c, n - 1, m);
      if k + 1 == m then 0 else k + 1
  }

  lemma {:induction false} RingOnce(c: nat, n: nat, m: nat)
    requires c < m && n < m
    ensures Ring(c, n, m) == if c + n < m then c + n else c + n - m
  {
    if n > 0 { RingOnce(c, n - 1, m); }
  }

  lemma OneStepCursor<T(!new)>(p: Pool<T>, size: nat, a: Action<T>)
    requires Inv(p, size) && Legal(p, a)
    ensures |Do(p, a).slots| == |p.slots|
    ensures Do(p, a).curr == if !a.TryGet? then p.curr else if p.curr + 1 == |p.slots| then 0 else p.curr + 1
  {
  }

  lemma AfterSnoc<T(!new)>(p: Pool<T>, size: nat, actions: seq<Action<T>>, q: Pool<T>) returns (q0: Pool<T>)
    requires Inv(p, size) && actions != [] && After(p, size, actions) == Some(q)
    ensures After(p, size, actions[..|actions| - 1]) == Some(q0)
    ensures |q.slots| == |q0.slots|
    ensures q.curr == if !actions[|actions| - 1].TryGet? then q0.curr
                      else if q0.curr + 1 == |q0.slots| then 0 else q0.curr + 1
  {
    var o := After(p, size, actions[..|actions| - 1]);
    q0 := o.value;
    OneStepCursor(q0, size, actions[|actions| - 1]);
  }

  lemma {:induction false} CursorCounts<T(!new)>(p: Pool<T>, size: nat, actions: seq<Action<T>>, q: Pool<T>)
    requires Inv(p, size) && After(p, size, actions) == Some(q)
    ensures |q.slots| == |p.slots| && q.curr == Ring(p.curr, Probes(actions), |p.slots|)
    decreases |actions|
  {
    if actions != [] {
      var q0 := AfterSnoc(p, size, actions, q);
      CursorCounts(p, size, actions[..|actions| - 1], q0);
    }
  }

  lemma {:induction false} ProbeNumber<T>(actions: seq<Action<T>>, k: nat) returns (j: nat)
    requires k < Probes(actions)
    ensures j < |actions| && actions[j].TryGet? && Probes(actions[..j]) == k
    decreases |actions|
  {
    var n := |actions| - 1;
    if k < Probes(actions[..n]) {
      j := ProbeNumber(actions[..n], k);
      assert actions[..n][..j] == actions[..j];
    } else {
      j := n;
    }
  }

  /** The probe at position j of the run finds its buffer taken. */
  ghost predicate FailsAt<T(!new)>(p: Pool<T>, size: nat, actions: seq<Action<T>>, j: int)
    requires Inv(p, size) && 0 <= j < |actions|
  {
    var o := After(p, size, actions[..j]);
    o.Some? && !o.value.slots[o.value.curr].free
  }

  /**
   When as many probes as there are buffers all fail, with readers being dropped in
   between, then each buffer was taken at the moment it was probed.
   */
  lemma FailedRotation<T(!new)>(p: Pool<T>, size: nat, actions: seq<Action<T>>, i: nat) returns (j: nat)
    requires Inv(p, size) && i < |p.slots| && After(p, size, actions).Some?
    requires Probes(actions) == |p.slots|
    requires forall k :: 0 <= k < |actions| && actions[k].TryGet? ==> FailsAt(p, size, actions, k)
    ensures j < |actions| && actions[j].TryGet? && After(p, size, actions[..j]).Some?
    ensures var q := After(p, size, actions[..j]).value; |q.slots| == |p.slots| && q.curr == i && !q.slots[i].free
  {
    var c, m := p.curr, |p.slots|;
    var k := if i >= c then i - c else i + m - c;
    j := ProbeNumber(actions, k);
    PrefixRuns(p, size, actions, j);
    CursorCounts(p, size, actions[..j], After(p, size, actions[..j]).value);
    RingOnce(c, k, m);
    assert FailsAt(p, size, actions, j);
  }

  /** The cursor wraps at the vector's capacity; were that larger than the pool, it would run out of it. */
  lemma LargerRingOverruns<T(!new)>(p: Pool<T>)
    requires p.curr + 1 == |p.slots| < p.ring
    ensures TryGetStep(p).curr == |p.slots| && !Legal(TryGetStep(p), TryGet)
  {
  }
}
