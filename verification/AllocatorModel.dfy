/**
 The accounting of the arcon allocator: a limit in bytes, a map of live blocks, and block
 ids made of an epoch and a counter that starts over when it reaches its maximum. What the
 system allocator answers is a parameter; a pointer to nowhere is `None`.
 */
module AllocatorModel {
  import opened Streams
  import opened Arithmetic

  type usize = u64

  type Pointer(!new, ==)

  datatype AllocId = AllocId(epoch: u32, counter: u64)

  datatype Block = Block(pointer: Pointer, size: usize)

  datatype AllocState = AllocState(
    allocations: map<AllocId, Block>, limit: usize, epoch: u32, counter: u64, current: usize)

  /** `Panic` stands for a checked addition or multiplication that overflows. */
  datatype AllocResult =
    | Alloc(id: AllocId, pointer: Pointer)
    | ArconOOM(remaining: usize)
    | SystemOOM
    | CapacityErr
    | Panic

  function New(limit: usize): AllocState {
    AllocState(map[], limit, 1, 0, 0)
  }

  /** The id given out next; the counter's maximum itself is never given out. */
  function NextId(s: AllocState): Option<AllocId> {
    if s.counter < U64_MAX then Some(AllocId(s.epoch, s.counter))
    else if s.epoch < U32_MAX then Some(AllocId(s.epoch + 1, 0))
    else None
  }

  function TakeBlock(s: AllocState, id: AllocId, b: Block): AllocState
    requires s.current + b.size <= U64_MAX && id.counter < U64_MAX
  {
    AllocState(s.allocations[id := b], s.limit, id.epoch, id.counter + 1, s.current + b.size)
  }

  function DoAlloc(s: AllocState, capacity: usize, size: usize, memory: Option<Pointer>): (AllocResult, AllocState)
    requires s.current <= s.limit
  {
    var required := capacity * size;
    if capacity == 0 || required > U64_MAX then (CapacityErr, s)
    else if s.current + required > U64_MAX then (Panic, s)
    else if s.current + required > s.limit then (ArconOOM(s.limit - s.current), s)
    else
      match memory
      case None => (SystemOOM, s)
      case Some(p) =>
        match NextId(s)
        case None => (Panic, s)
        case Some(id) => (Alloc(id, p), TakeBlock(s, id, Block(p, required)))
  }

  function DoDealloc(s: AllocState, id: AllocId): AllocState
    requires id in s.allocations ==> s.allocations[id].size <= s.current
  {
    if id in s.allocations then
      s.(allocations := s.allocations - {id}, current := s.current - s.allocations[id].size)
    else s
  }

  // ----- invariants -----

  ghost function TotalSize(m: map<AllocId, Block>): nat
    decreases |m|
  {
    if m == map[] then 0
    else
      var id :| id in m;
      m[id].size + TotalSize(m - {id})
  }

  lemma {:induction false} TotalWithout(m: map<AllocId, Block>, id: AllocId)
    requires id in m
    ensures TotalSize(m) == m[id].size + TotalSize(m - {id})
    decreases |m|
  {
    var first :| first in m && TotalSize(m) == m[first].size + TotalSize(m - {first});
    if first != id {
      TotalWithout(m - {first}, id);
      TotalWithout(m - {id}, first);
      assert m - {first} - {id} == m - {id} - {first};
    }
  }

  /** The number of ids given out before this one. */
  function Rank(id: AllocId): int {
    (id.epoch - 1) * U64_MAX + id.counter
  }

  /** The number of successful allocations so far. */
  function Issued(s: AllocState): int {
    (s.epoch - 1) * U64_MAX + s.counter
  }

  ghost predicate Inv(s: AllocState) {
    && s.current == TotalSize(s.allocations) <= s.limit
    && s.epoch >= 1
    && forall id :: id in s.allocations ==> Given(s, id)
  }

  /** The id was given out at some time. */
  predicate Given(s: AllocState, id: AllocId) {
    1 <= id.epoch && id.counter < U64_MAX && Rank(id) < Issued(s)
  }

  lemma NewKeepsInv(limit: usize)
    ensures Inv(New(limit)) && Issued(New(limit)) == 0
  {
  }

  /** The next id has the number of allocations so far as its rank, so it has never been given out. */
  lemma NextIdIsFresh(s: AllocState)
    requires Inv(s) && NextId(s).Some?
    ensures var id := NextId(s).value;
      Rank(id) == Issued(s) && id !in s.allocations && 1 <= id.epoch && id.counter < U64_MAX
  {
  }

  /**
   Which answer an allocation gets. `used` is what the live blocks take up and `required`
   what is asked for; an id is left unless both epoch and counter are at their maximum.
   */
  ghost predicate Outcome(s: AllocState, capacity: usize, size: usize, memory: Option<Pointer>, r: AllocResult) {
    var used, required := TotalSize(s.allocations), capacity * size;
    var sized := capacity > 0 && required <= U64_MAX;
    var exhausted := s.epoch == U32_MAX && s.counter == U64_MAX;
    && (r.CapacityErr? <==> !sized)
    && (r.ArconOOM? <==> sized && s.limit < used + required <= U64_MAX)
    && (r.ArconOOM? ==> r.remaining + used == s.limit)
    && (r.SystemOOM? <==> sized && used + required <= s.limit && memory.None?)
    && (r.Alloc? <==> sized && used + required <= s.limit && memory.Some? && !exhausted)
    && (r.Alloc? ==> r.pointer == memory.value)
    && (r.Panic? <==> sized && (used + required > U64_MAX || (used + required <= s.limit && memory.Some? && exhausted)))
  }

  /** A successful allocation adds one block under a new id; any other outcome changes nothing. */
  lemma AllocKeepsInv(s: AllocState, capacity: usize, size: usize, memory: Option<Pointer>)
    requires Inv(s)
    ensures var (r, t) := DoAlloc(s, capacity, size, memory);
      && Inv(t) && Outcome(s, capacity, size, memory, r)
      && (!r.Alloc? ==> t == s)
      && (r.Alloc? ==> r.id !in s.allocations && Rank(r.id) == Issued(s) && Issued(t) == Issued(s) + 1)
      && (r.Alloc? ==> t.allocations == s.allocations[r.id := Block(r.pointer, capacity * size)])
      && (r.Alloc? ==> t.current == s.current + capacity * size)
  {
    var (r, t) := DoAlloc(s, capacity, size, memory);
    if r.Alloc? {
      NextIdIsFresh(s);
      TotalWithout(t.allocations, r.id);
      assert t.allocations - {r.id} == s.allocations;
      assert Issued(t) == Issued(s) + 1;
      forall id | id in t.allocations ensures Given(t, id) {
        if id != r.id { assert Given(s, id); }
      }
    }
  }

  /** Freeing an id removes that block and no other; an id that is not live is ignored. */
  lemma DeallocKeepsInv(s: AllocState, id: AllocId)
    requires Inv(s)
    ensures id in s.allocations ==> s.allocations[id].size <= s.current
    ensures Inv(DoDealloc(s, id)) && Issued(DoDealloc(s, id)) == Issued(s)
    ensures DoDealloc(s, id).allocations == s.allocations - {id}
    ensures id !in s.allocations ==> DoDealloc(s, id) == s
  {
    if id in s.allocations {
      TotalWithout(s.allocations, id);
      var t := DoDealloc(s, id);
      forall i | i in t.allocations ensures Given(t, i) {
        assert Given(s, i);
      }
    } else {
      assert s.allocations - {id} == s.allocations;
    }
  }

  // ----- runs -----

  datatype Call = Allocate(capacity: usize, size: usize, memory: Option<Pointer>) | Free(id: AllocId)

  ghost function Do(s: AllocState, c: Call): AllocState
    requires Inv(s)
  {
    match c
    case Allocate(capacity, size, memory) => DoAlloc(s, capacity, size, memory).1
    case Free(id) => DeallocKeepsInv(s, id); DoDealloc(s, id)
  }

  lemma DoKeepsInv(s: AllocState, c: Call)
    requires Inv(s)
    ensures Inv(Do(s, c)) && Issued(s) <= Issued(Do(s, c)) <= Issued(s) + 1
  {
    match c
    case Allocate(capacity, size, memory) => AllocKeepsInv(s, capacity, size, memory);
    case Free(id) => DeallocKeepsInv(s, id);
  }

  ghost function After(s: AllocState, calls: seq<Call>): (t: AllocState)
    requires Inv(s)
    ensures Inv(t)
    decreases |calls|
  {
    if calls == [] then s
    else
      DoKeepsInv(s, calls[0]);
      After(Do(s, calls[0]), calls[1..])
  }

  /** The results of the allocations of a run that succeeded, in order. */
  ghost function Ids(s: AllocState, calls: seq<Call>): seq<AllocId>
    requires Inv(s)
    decreases |calls|
  {
    if calls == [] then []
    else
      var c := calls[0];
      DoKeepsInv(s, c);
      var first := if c.Allocate? then DoAlloc(s, c.capacity, c.size, c.memory).0 else SystemOOM;
      (if first.Alloc? then [first.id] else []) + Ids(Do(s, c), calls[1..])
  }

  /** The accounting is right after any run, and never above the limit. */
  lemma {:induction false} EveryRunAccounts(limit: usize, calls: seq<Call>)
    ensures Inv(New(limit))
    ensures var t := After(New(limit), calls);
      && t.current == TotalSize(t.allocations) <= t.limit == limit
      && Issued(t) == |Ids(New(limit), calls)|
  {
    NewKeepsInv(limit);
    IdsAreRanks(New(limit), calls);
    LimitStays(New(limit), calls);
  }

  lemma {:induction false} LimitStays(s: AllocState, calls: seq<Call>)
    requires Inv(s)
    ensures After(s, calls).limit == s.limit
    decreases |calls|
  {
    if calls != [] {
      DoKeepsInv(s, calls[0]);
      LimitStays(Do(s, calls[0]), calls[1..]);
    }
  }

  /** The ids of a run are the consecutive ranks from where it starts, whether or not the counter wraps. */
  lemma {:induction false} IdsAreRanks(s: AllocState, calls: seq<Call>)
    requires Inv(s)
    ensures forall i :: 0 <= i < |Ids(s, calls)| ==> Rank(Ids(s, calls)[i]) == Issued(s) + i
    ensures Issued(After(s, calls)) == Issued(s) + |Ids(s, calls)|
    decreases |calls|
  {
    if calls != [] {
      var c := calls[0];
      DoKeepsInv(s, c);
      IdsAreRanks(Do(s, c), calls[1..]);
      match c
      case Allocate(capacity, size, memory) => AllocKeepsInv(s, capacity, size, memory);
      case Free(id) => DeallocKeepsInv(s, id);
    }
  }

  /** No id is given out twice. */
  lemma IdsAreNeverReused(s: AllocState, calls: seq<Call>, i: nat, j: nat)
    requires Inv(s) && i < j < |Ids(s, calls)|
    ensures Ids(s, calls)[i] != Ids(s, calls)[j]
  {
    IdsAreRanks(s, calls);
  }

  /** An id that was given out and is no longer live never becomes live again. */
  lemma {:induction false} StaleStaysStale(s: AllocState, id: AllocId, calls: seq<Call>)
    requires Inv(s) && Given(s, id) && id !in s.allocations
    ensures id !in After(s, calls).allocations
    decreases |calls|
  {
    if calls != [] {
      StaleStep(s, id, calls[0]);
      StaleStaysStale(Do(s, calls[0]), id, calls[1..]);
    }
  }

  lemma StaleStep(s: AllocState, id: AllocId, c: Call)
    requires Inv(s) && Given(s, id) && id !in s.allocations
    ensures var t := Do(s, c); Inv(t) && Given(t, id) && id !in t.allocations
  {
    DoKeepsInv(s, c);
    match c
    case Allocate(capacity, size, memory) => AllocKeepsInv(s, capacity, size, memory);
    case Free(other) => DeallocKeepsInv(s, other);
  }

  /** Freeing an id a second time, at any later point, frees nobody's block. */
  lemma SecondFreeIsHarmless(s: AllocState, id: AllocId, calls: seq<Call>)
    requires Inv(s) && Given(s, id)
    ensures Inv(Do(s, Free(id)))
    ensures var later := After(Do(s, Free(id)), calls); Do(later, Free(id)) == later
  {
    DoKeepsInv(s, Free(id));
    DeallocKeepsInv(s, id);
    assert Given(Do(s, Free(id)), id);
    StaleStaysStale(Do(s, Free(id)), id, calls);
  }

  /** The total as the code computes it: the product is taken in 64 bits. */
  function TotalAllocations(s: AllocState): nat
    requires s.epoch >= 1
  {
    if s.epoch == 1 then s.counter
    else ((s.epoch - 1) * U64_MAX) % (U64_MAX + 1) + s.counter
  }

  /** The total is the number of successful allocations if and only if the epoch is at most two. */
  lemma TotalIsRightIff(s: AllocState)
    requires s.epoch >= 1
    ensures TotalAllocations(s) == Issued(s) <==> s.epoch <= 2
  {
    var e, m := s.epoch - 1, U64_MAX + 1;
    if e >= 1 {
      assert e * U64_MAX == (e - 1) * m + (m - e);
      QuotientIs(e * U64_MAX, m, e - 1);
    }
  }
}
