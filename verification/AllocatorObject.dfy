/** The allocator as the source writes it, an object whose methods update its fields. */
module AllocatorObject {
  import opened Streams
  import opened AllocatorModel

  class ArconAllocator {
    var allocations: map<AllocId, Block>
    const limit: usize
    var allocEpoch: u32
    var allocCounter: u64
    var currAlloc: usize

    ghost function State(): AllocState
      reads this
    {
      AllocState(allocations, limit, allocEpoch, allocCounter, currAlloc)
    }

    constructor (limit: usize)
      ensures State() == New(limit) && Inv(State())
    {
      allocations := map[];
      this.limit := limit;
      allocEpoch := 1;
      allocCounter := 0;
      currAlloc := 0;
      new;
      NewKeepsInv(limit);
    }

    /** `memory` is what the system allocator answers for `capacity` values of `size` bytes. */
    method Allocate(capacity: usize, size: usize, memory: Option<Pointer>) returns (r: AllocResult)
      requires Inv(State())
      modifies this
      ensures Inv(State())
      ensures (r, State()) == DoAlloc(old(State()), capacity, size, memory)
      ensures Outcome(old(State()), capacity, size, memory, r)
      ensures !r.Alloc? ==> State() == old(State())
      ensures r.Alloc? ==>
        r.id !in old(allocations) && allocations == old(allocations)[r.id := Block(memory.value, capacity * size)]
    {
      AllocKeepsInv(State(), capacity, size, memory);
      if capacity == 0 {
        return CapacityErr;
      }
      var required: nat := capacity * size;
      if required > U64_MAX {
        return CapacityErr;
      }
      if currAlloc + required > U64_MAX {
        return Panic;
      }
      if currAlloc + required > limit {
        var remaining := BytesRemaining();
        return ArconOOM(remaining);
      }
      if memory.None? {
        return SystemOOM;
      }
      if allocCounter == U64_MAX && allocEpoch == U32_MAX {
        return Panic;
      }
      var id := TakeBlock(Block(memory.value, required));
      return Alloc(id, memory.value);
    }

    method TakeBlock(b: Block) returns (id: AllocId)
      requires currAlloc + b.size <= U64_MAX && NextId(State()).Some?
      modifies this
      ensures id == NextId(old(State())).value && id.counter < U64_MAX
      ensures State() == AllocatorModel.TakeBlock(old(State()), id, b)
    {
      currAlloc := currAlloc + b.size;
      if allocCounter == U64_MAX {
        allocEpoch := allocEpoch + 1;
        allocCounter := 0;
      }
      id := AllocId(allocEpoch, allocCounter);
      allocCounter := allocCounter + 1;
      allocations := allocations[id := b];
    }

    method Deallocate(id: AllocId)
      requires Inv(State())
      modifies this
      ensures Inv(State())
      ensures State() == Do(old(State()), Free(id))
      ensures allocations == old(allocations) - {id}
    {
      DeallocKeepsInv(State(), id);
      if id in allocations {
        currAlloc := currAlloc - allocations[id].size;
        allocations := allocations - {id};
      }
    }

    method BytesRemaining() returns (n: usize)
      requires Inv(State())
      ensures n + TotalSize(allocations) == limit
    {
      n := limit - currAlloc;
    }

    /** Dropping the allocator frees every block that is still out. */
    method Drop()
      requires Inv(State())
      modifies this
      ensures Inv(State()) && allocations == map[] && currAlloc == 0
    {
      var ids := allocations.Keys;
      while ids != {}
        invariant Inv(State()) && ids == allocations.Keys
        decreases ids
      {
        var id :| id in ids;
        DeallocKeepsInv(State(), id);
        Deallocate(id);
        ids := ids - {id};
      }
    }
  }
}
