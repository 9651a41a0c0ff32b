/** The keyed strategy: an element goes to the channel of its key range, a control event to all. */
module KeyedStrategy {
  import opened Streams
  import opened Arithmetic
  import opened Strategies
  import opened KeyRanges

  function Below(n: nat): (s: set<nat>)
    ensures forall i: nat :: i in s <==> i < n
  {
    if n == 0 then {} else Below(n - 1) + {n - 1}
  }

  class KeyBy {
    const capacity: nat
    const maxKey: u64
    const keyRanges: nat
    const keyOf: Data -> u64
    /** The channels' open buffers and sent messages, by range. */
    var open: seq<Writer>
    var sent: seq<seq<seq<Event>>>
    ghost var added: seq<Event>
    ghost var streams: seq<seq<Event>>

    function IndexOf(x: Data): nat
      requires maxKey > 0
    {
      RangeOf(keyOf(x) % maxKey, maxKey, keyRanges)
    }

    /** Channel `i` is responsible for the key of `x`. */
    ghost predicate Owns(i: nat, x: Data)
      requires maxKey > 0 && keyRanges > 0
    {
      First(i, maxKey, keyRanges) <= keyOf(x) % maxKey < First(i + 1, maxKey, keyRanges)
    }

    /** The part of a stream that channel `i` must see: its elements and every control event. */
    ghost function Routed(events: seq<Event>, i: nat): seq<Event>
      requires maxKey > 0
    {
      if events == [] then []
      else
        var n := |events| - 1;
        var e := events[n];
        Routed(events[..n], i) + if IsControl(e) || IndexOf(e.element.data) == i then [e] else []
    }

    lemma RoutedSnoc(events: seq<Event>, e: Event, i: nat)
      requires maxKey > 0
      ensures Routed(events + [e], i) ==
              Routed(events, i) + if IsControl(e) || IndexOf(e.element.data) == i then [e] else []
    {
      assert (events + [e])[..|events|] == events;
    }

    lemma RoutedToOne(events: seq<Event>, ss: seq<seq<Event>>, e: Element, index: nat)
      requires maxKey > 0 && index == IndexOf(e.data) < |ss|
      requires forall i :: 0 <= i < |ss| ==> ss[i] == Routed(events, i)
      ensures forall i :: 0 <= i < |ss| ==> ss[index := ss[index] + [Item(e)]][i] == Routed(events + [Item(e)], i)
    {
      forall i | 0 <= i < |ss| ensures ss[index := ss[index] + [Item(e)]][i] == Routed(events + [Item(e)], i) {
        RoutedSnoc(events, Item(e), i);
        assert ss[i] + [] == ss[i];
      }
    }

    ghost predicate Shape()
      reads this
    {
      capacity > 0 && |open| == |sent| == |streams| == keyRanges
    }

    /** Channel i's messages and open buffer make up its stream. */
    ghost predicate Carries(i: nat)
      requires i < |open| && i < |sent| && i < |streams|
      reads this
    {
      && open[i].capacity == capacity
      && (forall b :: b in sent[i] ==> GoodBatch(capacity, b))
      && Flatten(sent[i]) + open[i].items == streams[i]
    }

    ghost predicate Ready()
      reads this
    {
      Shape() && forall i :: 0 <= i < keyRanges ==> Carries(i) && GoodOpen(capacity, open[i])
    }

    ghost predicate Valid()
      reads this
    {
      maxKey > 0 && keyRanges > 0 && Ready() && forall i :: 0 <= i < keyRanges ==> streams[i] == Routed(added, i)
    }

    constructor (capacity: nat, maxKey: u64, channels: nat, keyOf: Data -> u64)
      requires capacity > 0 && maxKey > 0 && channels > 0
      ensures Valid() && added == []
      ensures this.keyRanges == channels && this.maxKey == maxKey && this.keyOf == keyOf
    {
      this.capacity, this.maxKey, keyRanges, this.keyOf := capacity, maxKey, channels, keyOf;
      open, sent := seq(channels, i => Writer(capacity, [])), seq(channels, i => []);
      added, streams := [], seq(channels, i => []);
    }

    /** Sends channel `i`'s buffer and gives it a new one. */
    method FlushBuffer(i: nat)
      requires Shape() && i < keyRanges && Carries(i) && GoodBatch(capacity, open[i].items)
      modifies this`open, this`sent
      ensures Shape() && Carries(i) && open == old(open)[i := Writer(capacity, [])]
      ensures sent == old(sent)[i := old(sent[i]) + [old(open[i].items)]]
      ensures forall j :: 0 <= j < keyRanges && j != i && old(Carries(j)) ==> Carries(j)
    {
      FlattenSnoc(sent[i], open[i].items);
      sent := sent[i := sent[i] + [open[i].items]];
      open := open[i := Writer(capacity, [])];
    }

    /** Puts an event into channel `i`'s buffer, sending the buffer first when it is full. */
    method PushTo(i: nat, e: Event)
      requires Shape() && i < keyRanges && Carries(i) && GoodOpen(capacity, open[i])
      modifies this`open, this`sent, this`streams
      ensures Shape() && Carries(i) && streams == old(streams)[i := old(streams[i]) + [e]]
      ensures GoodBatch(capacity, open[i].items) && (!IsControl(e) ==> GoodOpen(capacity, open[i]))
      ensures if |old(open[i].items)| < capacity
        then sent[i] == old(sent[i]) && open[i].items == old(open[i].items) + [e]
        else sent[i] == old(sent[i]) + [old(open[i].items)] && open[i].items == [e]
      ensures forall j :: 0 <= j < keyRanges && j != i ==> open[j] == old(open[j]) && sent[j] == old(sent[j])
      ensures forall j :: 0 <= j < keyRanges && j != i && old(Carries(j)) ==> Carries(j)
    {
      var (w, rest) := open[i].Push(e);
      if rest.Some? {
        FlushBuffer(i);
        open := open[i := open[i].Push(rest.value).0];
      } else {
        open := open[i := w];
      }
      streams := streams[i := streams[i] + [e]];
    }

    /** Sends every channel's buffer, in any order. */
    method Flush()
      requires Shape() && forall i :: 0 <= i < keyRanges ==> Carries(i) && GoodBatch(capacity, open[i].items)
      modifies this`open, this`sent
      ensures Ready() && forall i :: 0 <= i < keyRanges ==> open[i].items == [] && sent[i] == old(sent[i]) + [old(open[i].items)]
    {
      var todo := Below(keyRanges);
      while todo != {}
        invariant Shape() && forall i :: 0 <= i < keyRanges ==> Carries(i)
        invariant forall i :: i in todo ==>
          0 <= i < keyRanges && GoodBatch(capacity, open[i].items) && open[i] == old(open[i]) && sent[i] == old(sent[i])
        invariant forall i :: 0 <= i < keyRanges && i !in todo ==>
          open[i] == Writer(capacity, []) && sent[i] == old(sent[i]) + [old(open[i].items)]
      {
        var i :| i in todo;
        FlushBuffer(i);
        todo := todo - {i};
      }
      assert forall i :: 0 <= i < keyRanges ==> i !in todo;
    }

    /** Since the old state, channel `i` and no other was given `e`. */
    twostate predicate OnlyTo(i: nat, e: Event)
      requires old(Valid()) && Valid() && i < keyRanges
      reads this
    {
      && streams == old(streams)[i := old(streams[i]) + [e]]
      && Sends(capacity, old(open[i].items), e, old(sent[i]), sent[i], open[i].items)
      && forall j :: 0 <= j < keyRanges && j != i ==> open[j] == old(open[j]) && sent[j] == old(sent[j])
    }

    /** Since the old state, every channel was given `e`. */
    twostate predicate ToEach(e: Event)
      requires old(Valid()) && Valid()
      reads this
    {
      forall i :: 0 <= i < keyRanges ==>
        && streams[i] == old(streams[i]) + [e]
        && Sends(capacity, old(open[i].items), e, old(sent[i]), sent[i], open[i].items)
    }

    /**
     An element goes to the channel of its key range, the index of which is never out of
     range. The source multiplies with a check; `ok` says whether the product fits.
     */
    method AddElement(e: Element) returns (ok: bool)
      requires Valid()
      modifies this
      ensures Valid() && (ok <==> (keyOf(e.data) % maxKey) * keyRanges <= U64_MAX)
      ensures ok ==> added == old(added) + [Item(e)]
      ensures ok ==> exists i :: 0 <= i < keyRanges && Owns(i, e.data) && OnlyTo(i, Item(e))
      ensures !ok ==> added == old(added) && open == old(open) && sent == old(sent)
    {
      var key := keyOf(e.data) % maxKey;
      if key * keyRanges > U64_MAX {
        return false;
      }
      var index := Div(key * keyRanges, maxKey);
      RangesAreIntervals(key, maxKey, keyRanges, index);
      assert index == IndexOf(e.data);
      RoutedToOne(added, streams, e, index);
      PushTo(index, Item(e));
      added := added + [Item(e)];
      assert Owns(index, e.data) && OnlyTo(index, Item(e));
      return true;
    }

    /** Puts a control event into every channel's buffer, in any order. */
    method PushToAll(e: Event)
      requires Ready()
      modifies this`open, this`sent, this`streams
      ensures Shape() && forall i :: 0 <= i < keyRanges ==>
        Carries(i) && GoodBatch(capacity, open[i].items) && streams[i] == old(streams[i]) + [e] &&
        if |old(open[i].items)| < capacity
        then sent[i] == old(sent[i]) && open[i].items == old(open[i].items) + [e]
        else sent[i] == old(sent[i]) + [old(open[i].items)] && open[i].items == [e]
    {
      var todo := Below(keyRanges);
      while todo != {}
        invariant Shape() && forall i :: 0 <= i < keyRanges ==> Carries(i)
        invariant forall i :: i in todo ==>
          0 <= i < keyRanges && GoodOpen(capacity, open[i]) &&
          streams[i] == old(streams[i]) && open[i] == old(open[i]) && sent[i] == old(sent[i])
        invariant forall i :: 0 <= i < keyRanges && i !in todo ==>
          GoodBatch(capacity, open[i].items) && streams[i] == old(streams[i]) + [e] &&
          if |old(open[i].items)| < capacity
          then sent[i] == old(sent[i]) && open[i].items == old(open[i].items) + [e]
          else sent[i] == old(sent[i]) + [old(open[i].items)] && open[i].items == [e]
      {
        var i :| i in todo;
        PushTo(i, e);
        todo := todo - {i};
      }
    }

    /** A control event goes to every channel, and leaves at once. */
    method AddControl(e: Event)
      requires Valid() && IsControl(e)
      modifies this
      ensures Valid() && added == old(added) + [e] && ToEach(e)
    {
      ghost var before := added;
      PushToAll(e);
      Flush();
      added := added + [e];
      forall i | 0 <= i < keyRanges ensures streams[i] == Routed(added, i) {
        RoutedSnoc(before, e, i);
      }
    }

    method Add(e: Event) returns (ok: bool)
      requires Valid()
      modifies this
      ensures Valid() && (ok <==> (e.Item? ==> (keyOf(e.element.data) % maxKey) * keyRanges <= U64_MAX))
      ensures ok ==> added == old(added) + [e]
      ensures ok && IsControl(e) ==> ToEach(e)
      ensures ok && e.Item? ==> exists i :: 0 <= i < keyRanges && Owns(i, e.element.data) && OnlyTo(i, e)
      ensures !ok ==> added == old(added) && open == old(open) && sent == old(sent)
    {
      ok := true;
      match e {
        case Item(x) => ok := AddElement(x);
        case Watermark(_) => AddControl(e);
        case Epoch(_) => AddControl(e);
        case Death(_) => AddControl(e);
      }
    }
  }
}
