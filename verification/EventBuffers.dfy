/**
 The pool as the source writes it: blocks of memory that writers fill in place, a flag for
 each block, and a cursor. A writer, and the reader it becomes, is named by the number of
 its claim.
 */
module EventBuffers {
  import opened Streams
  import opened BufferPool

  class EventBufferPool<T(!new)> {
    const size: nat
    const blocks: seq<array<T>>
    var free: seq<bool>
    var curr: nat
    var claims: seq<Claim<T>>

    ghost predicate Shape()
      reads this
    {
      |free| == |blocks| && forall i, j :: 0 <= i < j < |blocks| ==> blocks[i] != blocks[j]
    }

    ghost function Slots(): (s: seq<Slot<T>>)
      requires Shape()
      reads this, blocks
      ensures |s| == |blocks| && forall i :: 0 <= i < |s| ==> s[i] == Slot(free[i], blocks[i][..])
    {
      seq(|blocks|, i requires 0 <= i < |blocks| && |free| == |blocks| reads this, blocks => Slot(free[i], blocks[i][..]))
    }

    ghost function State(): Pool<T>
      requires Shape()
      reads this, blocks
    {
      Pool(Slots(), |blocks|, curr, claims)
    }

    ghost predicate Valid()
      reads this, blocks
    {
      Shape() && Inv(State(), size)
    }

    /** Allocates the blocks; `init` stands for whatever the memory holds. */
    constructor (count: nat, size: nat, init: T)
      requires count > 0
      ensures Shape() && State() == NewPool(count, size, init)
      ensures Valid() && this.size == size && fresh(blocks)
    {
      var bs: seq<array<T>> := [];
      while |bs| < count
        invariant |bs| <= count
        invariant forall i :: 0 <= i < |bs| ==> fresh(bs[i]) && bs[i][..] == seq(size, j => init)
        invariant forall i, j :: 0 <= i < j < |bs| ==> bs[i] != bs[j]
      {
        var block := new T[size](j => init);
        assert block[..] == seq(size, j => init);
        bs := bs + [block];
      }
      this.size, blocks, free, curr, claims := size, bs, seq(count, i => true), 0, [];
      new;
      NewPoolInv(count, size, init);
      assert Slots() == NewPool(count, size, init).slots;
    }

    /** Takes the block under the cursor, if it is free, and moves the cursor on. */
    method TryGet() returns (writer: Option<nat>)
      requires Valid()
      modifies this
      ensures Shape() && State() == TryGetStep(old(State()))
      ensures Valid()
      ensures writer == if old(free)[old(curr)] then Some(|old(claims)|) else None
      ensures free == old(free)[old(curr) := false]
      ensures claims == if old(free)[old(curr)] then old(claims) + [Claim(old(curr), 0, Writing, [])] else old(claims)
      ensures curr == if old(curr) + 1 < |blocks| then old(curr) + 1 else 0
    {
      TryGetKeepsInv(State(), size);
      ghost var goal := TryGetStep(State());
      writer := None;
      if free[curr] {
        free := free[curr := false];
        writer := Some(|claims|);
        claims := claims + [Claim(curr, 0, Writing, [])];
      }
      curr := curr + 1;
      if curr == |blocks| {
        curr := 0;
      }
      assert Slots() == goal.slots;
    }

    /** Writes behind what has been pushed so far; a full block gives the value back. */
    method Push(h: nat, v: T) returns (rest: Option<T>)
      requires Valid() && Live(State(), h) && claims[h].phase.Writing?
      modifies this`claims, blocks[claims[h].slot]
      ensures Shape() && State() == PushStep(old(State()), h, v)
      ensures Valid()
      ensures rest == if old(claims[h].len) < size then None else Some(v)
      ensures
        var c := old(claims[h]);
        claims == if c.len < size then old(claims)[h := c.(len := c.len + 1, pushed := c.pushed + [v])] else old(claims)
    {
      PushKeepsInv(State(), size, h, v);
      ghost var goal := PushStep(State(), h, v);
      var c := claims[h];
      var block := blocks[c.slot];
      if c.len >= block.Length {
        return Some(v);
      }
      block[c.len] := v;
      claims := claims[h := c.(len := c.len + 1, pushed := c.pushed + [v])];
      assert block[..] == goal.slots[c.slot].data;
      assert Slots() == goal.slots;
      return None;
    }

    /** Copies another writer's events over the start of the block, and takes over its length. */
    method CopyFromWriter(h: nat, other: nat)
      requires Valid() && Live(State(), h) && claims[h].phase.Writing? && Live(State(), other) && other != h
      modifies this`claims, blocks[claims[h].slot]
      ensures Shape() && State() == CopyStep(old(State()), h, other)
      ensures Valid()
      ensures
        var c, from := old(claims[h]), old(claims[other]);
        claims == old(claims)[h := c.(len := from.len, pushed := from.pushed)]
    {
      CopyKeepsInv(State(), size, h, other);
      ghost var goal := CopyStep(State(), h, other);
      var slot, n := claims[h].slot, claims[other].len;
      var to, from := blocks[slot], blocks[claims[other].slot];
      forall i | 0 <= i < n { to[i] := from[i]; }
      claims := claims[h := claims[h].(len := n, pushed := from[..n])];
      assert to[..] == goal.slots[slot].data;
      assert forall i :: 0 <= i < |blocks| && i != slot ==> blocks[i][..] == old(blocks[i][..]);
      assert Slots() == goal.slots;
    }

    /** Generates the writer's reader. */
    method Reader(h: nat)
      requires Valid() && Live(State(), h) && claims[h].phase.Writing?
      modifies this`claims
      ensures Shape() && State() == Do(old(State()), Publish(h))
      ensures Valid()
      ensures claims == old(claims)[h := old(claims[h]).(phase := Reading)]
    {
      PublishKeepsInv(State(), size, h);
      ghost var goal := Do(State(), Publish(h));
      claims := claims[h := claims[h].(phase := Reading)];
      assert Slots() == goal.slots;
    }

    /** Dropping a reader makes its block free. */
    method Release(h: nat)
      requires Valid() && Live(State(), h) && claims[h].phase.Reading?
      modifies this`free, this`claims
      ensures Shape() && State() == Do(old(State()), Drop(h))
      ensures Valid()
      ensures free == old(free)[old(claims[h].slot) := true]
      ensures claims == old(claims)[h := old(claims[h]).(phase := Dropped)]
    {
      DropKeepsInv(State(), size, h);
      ghost var goal := Do(State(), Drop(h));
      free := free[claims[h].slot := true];
      claims := claims[h := claims[h].(phase := Dropped)];
      assert Slots() == goal.slots;
    }

    /** A reader sees what its writer pushed or copied. */
    method AsSlice(h: nat) returns (s: seq<T>)
      requires Valid() && Live(State(), h)
      ensures s == claims[h].pushed
    {
      s := blocks[claims[h].slot][..claims[h].len];
      assert s == State().slots[claims[h].slot].data[..claims[h].len];
    }
  }
}
