/** The assigner as the source writes it, with the windows' buffers and the event timer. */
module WindowAssigner {
  import opened Streams
  import opened Arithmetic
  import opened TimerContract
  import opened EventTimers
  import opened WindowModel

  datatype Output = Output(data: Data, timestamp: int)

  /**
   The constructor establishes the initial state of a run, and each public method takes
   the state on by an `Arrives` or a `Reaches` step; so whatever the calls, `ExactlyOnce`
   holds of the state.
   */
  class EventTimeWindowAssigner {
    const p: Params
    const keyed: bool
    const keyOf: Data -> u64
    const materializer: seq<Data> -> Data
    const timer: EventTimer<WindowEvent>

    var windowStart: map<u64, u64>
    var activeWindows: set<Win>
    var buffers: map<Win, seq<Data>>
    var out: seq<Output>

    ghost var accepted: seq<Accepted>
    ghost var results: seq<Result>

    ghost function Windows(): WindowState
      reads this, timer
    {
      WindowState(windowStart, activeWindows, buffers, timer.Pending(), timer.currentTime)
    }

    ghost function State(): Run
      reads this, timer
    {
      Run(Windows(), accepted, results)
    }

    /** What left the assigner are the materialized results. */
    ghost predicate OutputMatches()
      reads this
    {
      && |out| == |results|
      && forall j :: 0 <= j < |out| ==> out[j] == Output(materializer(results[j].contents), results[j].timestamp)
    }

    ghost predicate Valid()
      reads this, timer, timer.wheel
    {
      Proper(p) && timer.Valid() && OutputMatches()
    }

    constructor (p: Params, keyed: bool, keyOf: Data -> u64, materializer: seq<Data> -> Data)
      requires Proper(p)
      ensures Valid() && fresh(timer) && fresh(timer.wheel)
      ensures State() == INITIAL
    {
      this.p, this.keyed, this.keyOf, this.materializer := p, keyed, keyOf, materializer;
      timer := new EventTimer(None, map[]);
      windowStart, activeWindows, buffers, out := map[], {}, map[], [];
      accepted, results := [], [];
    }

    function KeyOf(x: Data): u64 {
      if keyed then keyOf(x) else 0
    }

    function TimeStampOf(e: Element): u64 {
      match e.timestamp case Some(t) => t case None => 1
    }

    /** One window takes the element; an inactive one is opened and its trigger scheduled. */
    method PutInto(w: Win, x: Data)
      requires timer.Valid() && w.key in windowStart
      requires timer.currentTime < Trigger(p, windowStart[w.key], w).deadline <= U64_MAX
      modifies this`buffers, this`activeWindows, timer, timer.wheel
      ensures timer.Valid() && Windows() == Put(p, old(Windows()), w, x)
    {
      buffers := buffers[w := (if w in buffers then buffers[w] else []) + [x]];
      if w !in activeWindows {
        activeWindows := activeWindows + {w};
        var trigger := Trigger(p, windowStart[w.key], w);
        var id := FreshId(timer.timeouts.Keys);
        var ok := timer.ScheduleAt(trigger.deadline, trigger.payload, id);
        assert ok;  // the source has `unreachable!` for the other case
      }
    }

    /** Inserts the element into windows lo..hi, opening those that are not active. */
    method PutIntoAll(key: u64, lo: nat, hi: nat, x: Data)
      requires timer.Valid() && key in windowStart
      requires forall i :: lo <= i <= hi ==>
        timer.currentTime < Trigger(p, windowStart[key], Win(key, i)).deadline <= U64_MAX
      modifies this`buffers, this`activeWindows, timer, timer.wheel
      ensures timer.Valid() && Windows() == PutFrom(p, old(Windows()), key, lo, hi, x)
    {
      ghost var start := Windows();
      var index := lo;
      while index <= hi
        invariant lo <= index && (lo <= hi ==> index <= hi + 1)
        invariant timer.Valid() && windowStart == start.start && timer.currentTime == start.now
        invariant PutFrom(p, Windows(), key, index, hi, x) == PutFrom(p, start, key, lo, hi, x)
      {
        PutInto(Win(key, index), x);
        index := index + 1;
      }
    }

    /** Where the source's index arithmetic places an element; a key's first element starts its window 0. */
    method IndexRange(key: u64, ts: u64) returns (floor: nat, ceil: nat)
      requires Proper(p) && (key in windowStart ==> windowStart[key] <= ts)
      modifies this`windowStart
      ensures windowStart == if key in old(windowStart) then old(windowStart) else old(windowStart)[key := ts]
      ensures floor == Floor(p, windowStart[key], ts) && ceil == Ceil(p, windowStart[key], ts)
    {
      floor, ceil := 0, 0;
      if key in windowStart {
        ceil := Div(ts - windowStart[key], p.slide);
        if ceil >= Div(p.length, p.slide) {
          floor := ceil - Div(p.length, p.slide) + 1;
        }
      } else {
        windowStart := windowStart[key := ts];
        FirstElement(p, ts);
      }
    }

    /** Puts an element that is not late into its windows; an unsigned subtraction or addition may fail. */
    method Join(key: u64, ts: u64, x: Data) returns (ok: bool)
      requires Valid() && !Late(p, Windows(), ts)
      modifies this`windowStart, this`buffers, this`activeWindows, this`accepted, timer, timer.wheel
      ensures Valid()
      ensures ok <==> Takes(p, old(Windows()), key, ts)
      ensures ok ==> Arrives(p, old(State()), State(), key, ts, x)
    {
      if key in windowStart && ts < windowStart[key] {
        return false;
      }
      var floor, ceil := IndexRange(key, ts);
      var start := windowStart[key];
      if Trigger(p, start, Win(key, ceil)).deadline > U64_MAX {
        return false;
      }
      forall i | floor <= i <= ceil
        ensures timer.currentTime < Trigger(p, start, Win(key, i)).deadline <= U64_MAX
      {
        TriggerIsInTheFuture(p, Windows(), start, ts, Win(key, i));
        EarlierWindowsEndEarlier(p, start, key, i, ceil);
      }
      PutIntoAll(key, floor, ceil, x);
      accepted := accepted + [Accepted(key, ts, x)];
      return true;
    }

    /** `ok` says whether the source gets through. */
    method HandleElement(e: Element) returns (ok: bool)
      requires Valid()
      modifies this, timer, timer.wheel
      ensures Valid()
      ensures ok ==> Arrives(p, old(State()), State(), KeyOf(e.data), TimeStampOf(e), e.data)
      ensures Handles(p, old(State()), State(), if keyed then keyOf(e.data) else 0,
                      if e.timestamp.Some? then e.timestamp.value else 1, e.data, ok)
    {
      var ts := TimeStampOf(e);
      var key := KeyOf(e.data);
      var time := timer.currentTime;
      var lowest := if time >= p.late then time - p.late else 0;
      if ts < lowest {
        ok := true;
      } else {
        ok := Join(key, ts, e.data);
      }
      ArriveHandles(p, old(State()), State(), key, ts, e.data, ok);
    }

    /** Materializes a window that is due, clears it and hands the result on. */
    method HandleTimeout(e: WindowEvent)
      requires OutputMatches()
      modifies this
      ensures State() == CloseOne(old(State()), e) && OutputMatches()
      ensures
        var w := Win(e.key, e.index);
        && out == old(out) + [Output(materializer(if w in old(buffers) then old(buffers)[w] else []), e.timestamp)]
        && w !in buffers && w !in activeWindows
    {
      var w := Win(e.key, e.index);
      var contents := if w in buffers then buffers[w] else [];
      buffers := buffers - {w};
      activeWindows := activeWindows - {w};
      out := out + [Output(materializer(contents), e.timestamp)];
      results := results + [Result(w, contents, e.timestamp)];
    }

    /** What a node does with a risen watermark: advance the timer, then handle every timeout. */
    method ReachTime(ts: u64) returns (ghost fired: seq<Due<WindowEvent>>)
      requires Valid() && timer.currentTime <= ts
      modifies this, timer, timer.wheel
      ensures Valid()
      ensures Reaches(old(State()), State(), ts, fired, timer.Pending())
    {
      var due;
      due, fired := timer.AdvanceTo(ts);
      ghost var start := State();
      var i := 0;
      while i < |due|
        invariant 0 <= i <= |due| && OutputMatches() && timer.Valid()
        invariant timer.Pending() == start.ws.pending && timer.currentTime == ts
        invariant CloseAll(State(), fired[i..]) == CloseAll(start, fired)
      {
        assert fired[i..][0] == fired[i] && fired[i..][1..] == fired[i + 1..];
        HandleTimeout(due[i]);
        i := i + 1;
      }
    }
  }

  lemma FirstElement(p: Params, ts: u64)
    requires Proper(p)
    ensures Ceil(p, ts, ts) == 0 && Floor(p, ts, ts) == 0
  {
    IndexRangeIsExact(p, ts, ts, 0);
    Quotient(0, p.slide);
    MulOrder(Ceil(p, ts, ts), 0, p.slide);
  }
}
