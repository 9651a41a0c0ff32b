/**
 The event timer: a timing wheel, which can skip idle time, and a table of timeouts that
 survives restarts.
 */
module EventTimers {
  import opened Streams
  import opened TimerContract

  type Id = string

  datatype Skip = Empty | Millis(ms: u32) | NoSkip

  /**
   The timing wheel, a library the source uses, by its contract: each entry has ticks
   to go; one may skip only over ticks at which nothing is due; a tick yields what is
   due, in no particular order; an entry without delay is refused as expired.
   */
  class Wheel {
    var remaining: map<Id, int>

    constructor ()
      ensures remaining == map[]
    {
      remaining := map[];
    }

    method InsertWithDelay(id: Id, delay: int) returns (ok: bool)
      requires id !in remaining
      modifies this
      ensures ok <==> delay > 0
      ensures remaining == if ok then old(remaining)[id := delay] else old(remaining)
    {
      ok := delay > 0;
      if ok {
        remaining := remaining[id := delay];
      }
    }

    method CanSkip() returns (s: Skip)
      ensures s == Empty <==> remaining == map[]
      ensures s.Millis? ==> s.ms > 0 && forall id :: id in remaining ==> remaining[id] > s.ms
    {
      if remaining == map[] {
        return Empty;
      }
      var k: u32 := *;
      if 0 < k && forall id :: id in remaining ==> remaining[id] > k {
        return Millis(k);
      }
      return NoSkip;
    }

    method SkipAhead(ticks: u32)
      requires forall id :: id in remaining ==> remaining[id] > ticks
      modifies this
      ensures remaining == map id | id in old(remaining) :: old(remaining)[id] - ticks
    {
      remaining := map id | id in remaining :: remaining[id] - ticks;
    }

    method Tick() returns (due: seq<Id>)
      modifies this
      ensures forall i, j :: 0 <= i < j < |due| ==> due[i] != due[j]
      ensures forall id :: id in due <==> id in old(remaining) && old(remaining)[id] <= 1
      ensures remaining == map id | id in old(remaining) && old(remaining)[id] > 1 :: old(remaining)[id] - 1
    {
      var todo := set id | id in remaining && remaining[id] <= 1;
      due := [];
      ghost var all := todo;
      while todo != {}
        invariant todo <= all && (forall id :: id in due <==> id in all - todo)
        invariant forall i, j :: 0 <= i < j < |due| ==> due[i] != due[j]
      {
        var id :| id in todo;
        assert id !in due;
        todo := todo - {id};
        due := due + [id];
      }
      remaining := map id | id in remaining && remaining[id] > 1 :: remaining[id] - 1;
    }
  }

  /** Stands for the random identifier the source draws: any one that is not in use. */
  method FreshId(used: set<Id>) returns (id: Id)
    ensures id !in used
  {
    var longest := 0;
    var todo := used;
    while todo != {}
      invariant todo <= used && 0 <= longest
      invariant forall u :: u in used && u !in todo ==> |u| <= longest
    {
      var u :| u in todo;
      todo := todo - {u};
      if |u| > longest {
        longest := |u|;
      }
    }
    id := seq(longest + 1, i => '0');
  }

  datatype TimerEvent<E> = TimerEvent(scheduled: u64, timeoutMillis: u64, payload: E) {
    function Deadline(): int { scheduled + timeoutMillis }
    function AsDue(): Due<E> { Due(Deadline(), payload) }
  }

  ghost function Pick<E>(m: map<Id, TimerEvent<E>>): (id: Id)
    requires m != map[]
    ensures id in m
  {
    var id :| id in m;
    id
  }

  lemma Smaller<E>(m: map<Id, TimerEvent<E>>, id: Id)
    requires id in m
    ensures |m - {id}| < |m|
  {
    assert (m - {id}).Keys == m.Keys - {id};
  }

  /** The entries of a timeout table, ids forgotten. */
  ghost function Entries<E>(m: map<Id, TimerEvent<E>>): multiset<Due<E>>
    decreases |m|
  {
    if m == map[] then multiset{}
    else
      var id := Pick(m);
      Smaller(m, id);
      multiset{m[id].AsDue()} + Entries(m - {id})
  }

  lemma {:induction false} EntriesRemove<E>(m: map<Id, TimerEvent<E>>, id: Id)
    requires id in m
    ensures Entries(m) == multiset{m[id].AsDue()} + Entries(m - {id})
    decreases |m|
  {
    var first := Pick(m);
    if first != id {
      Smaller(m, first);
      Smaller(m, id);
      var a, b := m - {first}, m - {id};
      var rest := Entries(m - {first, id});
      assert a - {id} == m - {first, id} && b - {first} == m - {first, id};
      EntriesRemove(a, id);
      EntriesRemove(b, first);
      assert Entries(a) == multiset{m[id].AsDue()} + rest;
      assert Entries(b) == multiset{m[first].AsDue()} + rest;
    }
  }

  lemma {:induction false} EntriesMember<E>(m: map<Id, TimerEvent<E>>, x: Due<E>)
    ensures x in Entries(m) <==> exists id :: id in m && m[id].AsDue() == x
    decreases |m|
  {
    if m != map[] {
      var id :| id in m;
      EntriesRemove(m, id);
      Smaller(m, id);
      EntriesMember(m - {id}, x);
      if exists j :: j in m && m[j].AsDue() == x {
        var j :| j in m && m[j].AsDue() == x;
        assert j == id || j in m - {id};
      }
    }
  }

  lemma EntriesAllAfter<E(!new)>(m: map<Id, TimerEvent<E>>, t: int)
    requires forall id :: id in m ==> m[id].Deadline() > t
    ensures forall x :: x in Entries(m) ==> x.deadline > t
  {
    forall x | x in Entries(m) ensures x.deadline > t {
      EntriesMember(m, x);
    }
  }

  ghost function Taken(ids: seq<Id>): set<Id> {
    set id | id in ids
  }

  /** Taking the next of several entries out of the table. */
  lemma TakeNext<E(!new)>(all: map<Id, TimerEvent<E>>, m: map<Id, TimerEvent<E>>, due: seq<Id>, i: nat, fired: seq<Due<E>>)
    returns (x: Due<E>)
    requires i < |due| && due[i] !in due[..i]
    requires due[i] in all && m == all - Taken(due[..i])
    ensures due[i] in m && x == m[due[i]].AsDue() == all[due[i]].AsDue()
    ensures m - {due[i]} == all - Taken(due[..i + 1])
    ensures Payloads(fired + [x]) == Payloads(fired) + [x.payload]
    ensures Entries(m) + multiset(fired) == Entries(m - {due[i]}) + multiset(fired + [x])
  {
    x := m[due[i]].AsDue();
    EntriesRemove(m, due[i]);
    assert due[..i + 1] == due[..i] + [due[i]];
    PayloadsConcat(fired, [x]);
  }

  class EventTimer<E(!new)> {
    const wheel: Wheel
    var currentTime: u64
    var timeouts: map<Id, TimerEvent<E>>

    /** Every stored timeout is in the wheel, with as many ticks to go as lie before its deadline. */
    ghost predicate Valid()
      reads this, wheel
    {
      && wheel.remaining.Keys == timeouts.Keys
      && forall id :: id in timeouts ==>
           wheel.remaining[id] > 0 && currentTime + wheel.remaining[id] == timeouts[id].Deadline()
    }

    ghost function Pending(): multiset<Due<E>>
      reads this
    {
      Entries(timeouts)
    }

    /** A timer on what the backend stored; its wheel is still empty. */
    constructor (time: Option<u64>, stored: map<Id, TimerEvent<E>>)
      ensures fresh(wheel) && wheel.remaining == map[]
      ensures timeouts == stored
      ensures currentTime == match time case Some(t) => t case None => 0
      ensures stored == map[] ==> Valid()
    {
      wheel := new Wheel();
      currentTime := match time case Some(t) => t case None => 0;
      timeouts := stored;
    }

    /**
     Puts the stored timeouts back into the wheel, in any order. The source panics when
     one is not in the future any more, or when its deadline does not fit 64 bits.
     */
    method ReplayEvents() returns (ok: bool)
      requires wheel.remaining == map[]
      modifies wheel
      ensures ok <==> forall id :: id in timeouts ==> currentTime < timeouts[id].Deadline() <= U64_MAX
      ensures ok ==> Valid()
    {
      var todo := timeouts.Keys;
      while todo != {}
        invariant todo <= timeouts.Keys
        invariant wheel.remaining.Keys == timeouts.Keys - todo
        invariant forall id :: id in timeouts && id !in todo ==>
          currentTime < timeouts[id].Deadline() <= U64_MAX && currentTime + wheel.remaining[id] == timeouts[id].Deadline()
      {
        var id :| id in todo;
        if timeouts[id].Deadline() > U64_MAX || timeouts[id].Deadline() < currentTime {
          return false;
        }
        ok := wheel.InsertWithDelay(id, timeouts[id].Deadline() - currentTime);
        if !ok {
          return false;
        }
        todo := todo - {id};
      }
      return true;
    }

    method AddTime(ticks: u64)
      requires currentTime + ticks <= U64_MAX
      modifies this`currentTime
      ensures currentTime == old(currentTime) + ticks
    {
      currentTime := currentTime + ticks;
    }

    method TakeEntry(id: Id) returns (e: Option<E>)
      modifies this`timeouts
      ensures timeouts == old(timeouts) - {id}
      ensures e == if id in old(timeouts) then Some(old(timeouts)[id].payload) else None
    {
      e := if id in timeouts then Some(timeouts[id].payload) else None;
      timeouts := timeouts - {id};
    }

    /** Takes the entries `due`, all with deadline `d`, out of the store. */
    method TakeAll(due: seq<Id>, acc: seq<E>, ghost d: int) returns (res: seq<E>, ghost fired: seq<Due<E>>)
      requires forall i, j :: 0 <= i < j < |due| ==> due[i] != due[j]
      requires forall id :: id in due ==> id in timeouts && timeouts[id].Deadline() == d
      modifies this`timeouts
      ensures timeouts == old(timeouts) - Taken(due)
      ensures res == acc + Payloads(fired)
      ensures old(Pending()) == Pending() + multiset(fired)
      ensures forall x :: x in fired ==> x.deadline == d
    {
      res, fired := acc, [];
      var i := 0;
      while i < |due|
        invariant 0 <= i <= |due|
        invariant timeouts == old(timeouts) - Taken(due[..i])
        invariant res == acc + Payloads(fired)
        invariant old(Pending()) == Pending() + multiset(fired)
        invariant forall x :: x in fired ==> x.deadline == d
      {
        assert due[i] in due && due[i] !in due[..i];
        ghost var x := TakeNext(old(timeouts), timeouts, due, i, fired);
        var entry := TakeEntry(due[i]);
        if entry.Some? {
          res := res + [entry.value];
        }
        fired := fired + [x];
        i := i + 1;
      }
      assert due[..i] == due;
    }

    /** One tick of the wheel: what is due at the next time leaves the store. */
    method TickOnce(acc: seq<E>, ghost origin: multiset<Due<E>>, ghost sofar: seq<Due<E>>)
      returns (res: seq<E>, ghost fired: seq<Due<E>>)
      requires Valid() && currentTime < U64_MAX
      requires acc == Payloads(sofar) && Advanced(origin, currentTime, sofar, Pending())
      modifies this, wheel
      ensures Valid() && currentTime == old(currentTime) + 1
      ensures res == Payloads(fired) && Advanced(origin, currentTime, fired, Pending())
    {
      ghost var before := Pending();
      var due := wheel.Tick();
      ghost var batch;
      res, batch := TakeAll(due, acc, currentTime + 1);
      AddTime(1);
      EntriesAllAfter(timeouts, currentTime);
      OneTick(before, currentTime, batch, Pending());
      AdvancedTwice(origin, old(currentTime), sofar, before, currentTime, batch, Pending());
      fired := sofar + batch;
      PayloadsConcat(sofar, batch);
    }

    /** Skips ticks at which nothing is due. */
    method SkipOver(ticks: u32)
      requires Valid() && currentTime + ticks <= U64_MAX
      requires forall id :: id in wheel.remaining ==> wheel.remaining[id] > ticks
      modifies this, wheel
      ensures Valid() && currentTime == old(currentTime) + ticks && timeouts == old(timeouts)
      ensures forall x :: x in Pending() ==> x.deadline > currentTime
    {
      wheel.SkipAhead(ticks);
      AddTime(ticks);
      EntriesAllAfter(timeouts, currentTime);
    }

    /** Ticks or skips `timeLeft` ticks ahead, adding what fires to what fired so far. */
    method TickAndCollect(timeLeft: u32, acc: seq<E>, ghost origin: multiset<Due<E>>, ghost sofar: seq<Due<E>>)
      returns (res: seq<E>, ghost fired: seq<Due<E>>)
      requires Valid() && currentTime + timeLeft <= U64_MAX
      requires acc == Payloads(sofar) && Advanced(origin, currentTime, sofar, Pending())
      modifies this, wheel
      ensures Valid() && currentTime == old(currentTime) + timeLeft
      ensures res == Payloads(fired) && Advanced(origin, currentTime, fired, Pending())
    {
      var left := timeLeft;
      res, fired := acc, sofar;
      while left > 0
        invariant Valid() && 0 <= left <= timeLeft && currentTime + left == old(currentTime) + timeLeft
        invariant res == Payloads(fired) && Advanced(origin, currentTime, fired, Pending())
      {
        var skip := wheel.CanSkip();
        match skip {
          case Empty =>
            AddTime(left);
            return;
          case Millis(ms) =>
            ghost var t := currentTime;
            if ms >= left {
              SkipOver(left);
              AdvancedIdle(origin, t, fired, Pending(), currentTime);
              return;
            }
            SkipOver(ms);
            AdvancedIdle(origin, t, fired, Pending(), currentTime);
            left := left - ms;
          case NoSkip =>
            res, fired := TickOnce(res, origin, fired);
            left := left - 1;
        }
      }
    }

    /** Moves the clock to `ts`; the result are the payloads that fired. A time in the past changes nothing. */
    method AdvanceTo(ts: u64) returns (res: seq<E>, ghost fired: seq<Due<E>>)
      requires Valid()
      modifies this, wheel
      ensures Valid() && res == Payloads(fired)
      ensures ts < old(currentTime) ==>
        fired == [] && currentTime == old(currentTime) && Pending() == old(Pending())
      ensures ts >= old(currentTime) ==>
        currentTime == ts && Advanced(old(Pending()), ts, fired, Pending())
    {
      res, fired := [], [];
      if ts < currentTime {
        return;
      }
      ghost var origin := Pending();
      var timeLeft := ts - currentTime;
      EntriesAllAfter(timeouts, currentTime);
      while timeLeft > U32_MAX
        invariant Valid() && timeLeft >= 0 && currentTime + timeLeft == ts
        invariant res == Payloads(fired) && Advanced(origin, currentTime, fired, Pending())
      {
        res, fired := TickAndCollect(U32_MAX, res, origin, fired);
        timeLeft := timeLeft - U32_MAX;
      }
      res, fired := TickAndCollect(timeLeft, res, origin, fired);
    }

    /** `id` is the fresh identifier the source draws. A timeout without delay is handed back. */
    method ScheduleAfter(delay: u64, entry: E, id: Id) returns (ok: bool)
      requires Valid() && id !in timeouts
      modifies this, wheel
      ensures Valid() && currentTime == old(currentTime)
      ensures ok <==> delay > 0
      ensures Pending() == if ok then old(Pending()) + multiset{Due(currentTime + delay, entry)} else old(Pending())
      ensures timeouts == if ok then old(timeouts)[id := TimerEvent(currentTime, delay, entry)] else old(timeouts)
    {
      ok := wheel.InsertWithDelay(id, delay);
      if ok {
        timeouts := timeouts[id := TimerEvent(currentTime, delay, entry)];
        EntriesRemove(timeouts, id);
        assert timeouts - {id} == old(timeouts);
      }
    }

    method ScheduleAt(time: u64, entry: E, id: Id) returns (ok: bool)
      requires Valid() && id !in timeouts
      modifies this, wheel
      ensures Valid() && currentTime == old(currentTime)
      ensures ok <==> time > currentTime
      ensures Pending() == if ok then old(Pending()) + multiset{Due(time, entry)} else old(Pending())
    {
      if time <= currentTime {
        return false;
      }
      ok := ScheduleAfter(time - currentTime, entry, id);
    }
  }

  /**
   What a valid timer has stored can always be replayed by a new one, as long as the
   deadlines fit 64 bits: none of them has passed.
   */
  method SaveAndReplay<E(!new)>(t: EventTimer<E>) returns (copy: EventTimer<E>, ok: bool)
    requires t.Valid()
    ensures ok <==> forall id :: id in t.timeouts ==> t.timeouts[id].Deadline() <= U64_MAX
    ensures ok ==> copy.Valid() && copy.currentTime == t.currentTime && copy.timeouts == t.timeouts &&
                   copy.wheel.remaining == t.wheel.remaining
  {
    copy := new EventTimer(Some(t.currentTime), t.timeouts);
    ok := copy.ReplayEvents();
    assert ok ==> forall id :: id in copy.wheel.remaining ==> copy.wheel.remaining[id] == t.wheel.remaining[id];
  }
}
