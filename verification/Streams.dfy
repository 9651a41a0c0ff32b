/**
 Vocabulary shared by the stream components: time stamps, events, messages and
 the shape of the batches that channel strategies produce.
 */
module Streams {
  const U64_MAX: int := 0xFFFF_FFFF_FFFF_FFFF
  const U32_MAX: int := 0xFFFF_FFFF

  type u64 = x: int | 0 <= x <= U64_MAX
  type u32 = x: int | 0 <= x <= U32_MAX

  datatype Option<+T> = None | Some(value: T)

  /** The user data carried by an element; nothing is assumed about it. */
  type Data(!new, ==)

  type NodeId = u32

  datatype Element = Element(data: Data, timestamp: Option<u64>)

  datatype Event =
    | Item(element: Element)
    | Watermark(time: u64)
    | Epoch(epoch: u64)
    | Death(reason: string)

  /** A batch of events together with the node that sent it. */
  datatype Message = Message(sender: NodeId, events: seq<Event>)

  /** An element without a time stamp counts as the latest possible one. */
  function TimeOf(e: Element): u64 {
    match e.timestamp
    case Some(ts) => ts
    case None => U64_MAX
  }

  predicate IsControl(ev: Event) {
    !ev.Item?
  }

  /** The batch shape a sender guarantees: a control event is the last event of its batch. */
  predicate ControlLast(events: seq<Event>) {
    forall i :: 0 <= i < |events| - 1 ==> !IsControl(events[i])
  }

  function Items(elements: seq<Element>): seq<Event> {
    seq(|elements|, i requires 0 <= i < |elements| => Item(elements[i]))
  }

  function Flatten<T>(batches: seq<seq<T>>): seq<T> {
    if batches == [] then [] else batches[0] + Flatten(batches[1..])
  }

  lemma {:induction false} FlattenConcat<T>(a: seq<seq<T>>, b: seq<seq<T>>)
    ensures Flatten(a + b) == Flatten(a) + Flatten(b)
  {
    if a == [] {
      assert a + b == b;
    } else {
      assert (a + b)[1..] == a[1..] + b;
      FlattenConcat(a[1..], b);
    }
  }

  lemma FlattenSnoc<T>(a: seq<seq<T>>, last: seq<T>)
    ensures Flatten(a + [last]) == Flatten(a) + last
  {
    FlattenConcat(a, [last]);
    assert Flatten([last]) == last + Flatten<T>([]);
  }
}
