/**
 Channel strategies: batching senders. Whatever is added, each channel's sent batches
 followed by its open buffer are the events routed to it, in order; no batch is larger
 than a buffer, and a control event is the last of its batch.
 */
module Strategies {
  import opened Streams
  import opened Arithmetic

  /** A writer on a reusable buffer of fixed capacity. */
  datatype Writer = Writer(capacity: nat, items: seq<Event>) {
    function Push(e: Event): (r: (Writer, Option<Event>)) {
      if |items| >= capacity then (this, Some(e)) else (this.(items := items + [e]), None)
    }
  }

  ghost predicate GoodBatch(capacity: nat, b: seq<Event>) {
    |b| <= capacity && ControlLast(b)
  }

  /** A buffer that is still open holds elements only. */
  ghost predicate GoodOpen(capacity: nat, w: Writer) {
    w.capacity == capacity && |w.items| <= capacity && forall i :: 0 <= i < |w.items| ==> !IsControl(w.items[i])
  }

  /**
   What adding `e` to an open buffer `buf` sends: nothing while there is room for an element;
   a full buffer before `e` is put into the next one; and what a control event completes.
   `before` and `after` are the batches sent, `rest` is what stays open.
   */
  ghost predicate Sends(capacity: nat, buf: seq<Event>, e: Event,
                        before: seq<seq<Event>>, after: seq<seq<Event>>, rest: seq<Event>)
  {
    && (!IsControl(e) && |buf| < capacity ==> after == before && rest == buf + [e])
    && (!IsControl(e) && |buf| >= capacity ==> after == before + [buf] && rest == [e])
    && (IsControl(e) && |buf| < capacity ==> after == before + [buf + [e]] && rest == [])
    && (IsControl(e) && |buf| >= capacity ==> after == before + [buf] + [[e]] && rest == [])
  }

  class Forward {
    const capacity: nat
    var curr: Writer
    var sent: seq<seq<Event>>
    ghost var added: seq<Event>

    ghost predicate Valid()
      reads this
    {
      && capacity > 0 && GoodOpen(capacity, curr)
      && (forall b :: b in sent ==> GoodBatch(capacity, b))
      && Flatten(sent) + curr.items == added
    }

    constructor (capacity: nat)
      requires capacity > 0
      ensures Valid() && added == [] && this.capacity == capacity
    {
      this.capacity, curr, sent, added := capacity, Writer(capacity, []), [], [];
    }

    /** Sends the open buffer, which may have just been completed by a control event. */
    method Flush()
      requires capacity > 0 && curr.capacity == capacity && GoodBatch(capacity, curr.items)
      requires (forall b :: b in sent ==> GoodBatch(capacity, b)) && Flatten(sent) + curr.items == added
      modifies this`curr, this`sent
      ensures Valid() && curr.items == [] && sent == old(sent) + [old(curr.items)]
    {
      FlattenSnoc(sent, curr.items);
      sent := sent + [curr.items];
      curr := Writer(capacity, []);
    }

    method Add(e: Event)
      requires Valid()
      modifies this
      ensures Valid() && added == old(added) + [e]
      ensures Sends(capacity, old(curr.items), e, old(sent), sent, curr.items)
    {
      var (w, rest) := curr.Push(e);
      if rest.Some? {
        Flush();
        added := added + [e];
        curr := curr.Push(rest.value).0;
        assert curr.items == [e];
        if IsControl(e) {
          Flush();
        }
      } else {
        curr := w;
        added := added + [e];
        if IsControl(e) {
          Flush();
        }
      }
    }
  }

  class Broadcast {
    const capacity: nat
    const channels: nat
    var curr: Writer
    var sent: seq<seq<seq<Event>>>
    ghost var added: seq<Event>

    ghost predicate ChannelsGood()
      reads this
    {
      && capacity > 0 && channels > 1 && |sent| == channels && curr.capacity == capacity
      && (forall i, b :: 0 <= i < channels && b in sent[i] ==> GoodBatch(capacity, b))
      && (forall i :: 0 <= i < channels ==> Flatten(sent[i]) + curr.items == added)
    }

    ghost predicate Valid()
      reads this
    {
      ChannelsGood() && GoodOpen(capacity, curr)
    }

    constructor (capacity: nat, channels: nat)
      requires capacity > 0 && channels > 1
      ensures Valid() && added == [] && this.channels == channels
    {
      this.capacity, this.channels := capacity, channels;
      curr, sent, added := Writer(capacity, []), seq(channels, i => []), [];
    }

    /** Every channel but the last is sent a copy; the last one gets the buffer itself. */
    method Flush()
      requires ChannelsGood() && GoodBatch(capacity, curr.items)
      modifies this`curr, this`sent
      ensures Valid() && curr.items == []
      ensures |sent| == channels && forall i :: 0 <= i < channels ==> sent[i] == old(sent[i]) + [old(curr.items)]
    {
      var i := 0;
      while i < channels
        invariant 0 <= i <= channels && |sent| == channels && curr == old(curr)
        invariant forall j :: 0 <= j < channels ==> sent[j] == if j < i then old(sent[j]) + [curr.items] else old(sent[j])
      {
        if i == channels - 1 {
          sent := sent[i := sent[i] + [curr.items]];
        } else {
          var copy := Writer(capacity, []);
          copy := copy.(items := curr.items);
          sent := sent[i := sent[i] + [copy.items]];
        }
        i := i + 1;
      }
      forall j | 0 <= j < channels ensures Flatten(sent[j]) == added {
        FlattenSnoc(old(sent[j]), curr.items);
      }
      curr := Writer(capacity, []);
    }

    /** All channels carry the same stream. */
    method Add(e: Event)
      requires Valid()
      modifies this
      ensures Valid() && added == old(added) + [e]
      ensures forall i :: 0 <= i < channels ==> Sends(capacity, old(curr.items), e, old(sent[i]), sent[i], curr.items)
    {
      var (w, rest) := curr.Push(e);
      if rest.Some? {
        Flush();
        added := added + [e];
        curr := curr.Push(rest.value).0;
        assert curr.items == [e];
        if IsControl(e) {
          Flush();
        }
      } else {
        curr := w;
        added := added + [e];
        if IsControl(e) {
          Flush();
        }
      }
    }
  }

  class RoundRobin {
    const capacity: nat
    const channels: nat
    var curr: Writer
    var currIndex: nat
    /** The messages in the order they left, and the channel each was sent to. */
    var sent: seq<seq<Event>>
    var target: seq<nat>
    ghost var added: seq<Event>

    /** Message k went to channel k mod n, and the next one goes to channel `currIndex`. */
    ghost predicate Rotates()
      reads this
    {
      channels > 1 && currIndex == |target| % channels && forall k :: 0 <= k < |target| ==> target[k] == k % channels
    }

    ghost predicate Carries()
      reads this
    {
      && capacity > 0 && curr.capacity == capacity && |target| == |sent|
      && (forall b :: b in sent ==> GoodBatch(capacity, b))
      && Flatten(sent) + curr.items == added
    }

    ghost predicate Valid()
      reads this
    {
      Rotates() && Carries() && GoodOpen(capacity, curr)
    }

    constructor (capacity: nat, channels: nat)
      requires capacity > 0 && channels > 1
      ensures Valid() && added == [] && this.channels == channels
    {
      this.capacity, this.channels := capacity, channels;
      curr, currIndex, sent, target, added := Writer(capacity, []), 0, [], [], [];
    }

    /** Records the target of a message and moves on to the next channel. */
    method Rotate()
      requires Rotates()
      modifies this`target, this`currIndex
      ensures Rotates() && target == old(target) + [old(currIndex)]
    {
      NextIndex(|target|, channels);
      target := target + [currIndex];
      currIndex := currIndex + 1;
      if currIndex >= channels {
        currIndex := 0;
      }
    }

    method Flush()
      requires Rotates() && Carries() && GoodBatch(capacity, curr.items)
      modifies this`curr, this`sent, this`currIndex, this`target
      ensures Valid() && curr.items == []
      ensures sent == old(sent) + [old(curr.items)] && target == old(target) + [old(currIndex)]
    {
      FlattenSnoc(sent, curr.items);
      sent := sent + [curr.items];
      Rotate();
      curr := Writer(capacity, []);
    }

    method Add(e: Event)
      requires Valid()
      modifies this
      ensures Valid() && added == old(added) + [e]
      ensures Sends(capacity, old(curr.items), e, old(sent), sent, curr.items)
    {
      var (w, rest) := curr.Push(e);
      if rest.Some? {
        Flush();
        added := added + [e];
        curr := curr.Push(rest.value).0;
        assert curr.items == [e];
        if IsControl(e) {
          Flush();
        }
      } else {
        curr := w;
        added := added + [e];
        if IsControl(e) {
          Flush();
        }
      }
    }
  }

  lemma NextIndex(k: nat, n: nat)
    requires n > 1
    ensures (k + 1) % n == if k % n + 1 >= n then 0 else k % n + 1
  {
    Quotient(k, n);
    var q := k / n;
    assert k == n * q + k % n;
    if k % n + 1 >= n {
      assert k + 1 == (q + 1) * n;
      MulOrder(q + 1, q + 2, n);
      QuotientIs(k + 1, n, q + 1);
    } else {
      QuotientIs(k + 1, n, q);
    }
  }
}
