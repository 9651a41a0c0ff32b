/**
 What holds in every run of a node, whatever the messages are: watermarks, the
 timer, blocking, the order of what is forwarded, and that no event is lost,
 duplicated or reordered within its channel.
 */
module NodeInvariants {
  import opened Streams
  import opened NodeModel

  // ----- the timer stays in step with the persisted timeouts -----

  ghost predicate Sorted(wheel: seq<nat>) {
    forall i, j :: 0 <= i < j < |wheel| ==> wheel[i] <= wheel[j]
  }

  ghost predicate InSync(wheel: seq<nat>, timeouts: seq<Timeout>, now: u64) {
    && |wheel| == |timeouts|
    && Sorted(wheel)
    && (forall i :: 0 <= i < |wheel| ==> wheel[i] > 0)
    && (forall i :: 0 <= i < |timeouts| ==> timeouts[i].Deadline() == now + wheel[i])
  }

  ghost predicate TimerInSync(st: NodeState) {
    InSync(st.wheel, st.p.timeouts, st.p.now)
  }

  lemma InsertAt<T>(s: seq<T>, k: nat, x: T)
    requires k <= |s|
    ensures |Insert(s, k, x)| == |s| + 1
    ensures forall i :: 0 <= i < k ==> Insert(s, k, x)[i] == s[i]
    ensures Insert(s, k, x)[k] == x
    ensures forall i :: k < i <= |s| ==> Insert(s, k, x)[i] == s[i - 1]
  {
  }

  lemma InsertSorted(s: seq<nat>, x: nat)
    requires Sorted(s)
    ensures Sorted(Insert(s, Slot(s, x), x))
  {
    var k := Slot(s, x);
    InsertAt(s, k, x);
    var r := Insert(s, k, x);
    forall i, j | 0 <= i < j < |r| ensures r[i] <= r[j] {
      if i < k < j { assert s[i] <= x < s[k] <= s[j - 1]; }
    }
  }

  lemma InsertInSync(wheel: seq<nat>, timeouts: seq<Timeout>, now: u64, t: Timeout, delay: nat,
                     wheel1: seq<nat>, timeouts1: seq<Timeout>)
    requires InSync(wheel, timeouts, now)
    requires delay > 0 && t.Deadline() == now + delay
    requires wheel1 == Insert(wheel, Slot(wheel, delay), delay) && timeouts1 == Insert(timeouts, Slot(wheel, delay), t)
    ensures InSync(wheel1, timeouts1, now)
  {
    var k := Slot(wheel, delay);
    InsertSorted(wheel, delay);
    InsertAt(wheel, k, delay);
    InsertAt(timeouts, k, t);
  }

  lemma ScheduleInSync(st: NodeState, r: Request)
    requires TimerInSync(st)
    ensures TimerInSync(Schedule(st, r))
  {
    if r.at > st.p.now {
      var delay := r.at - st.p.now;
      var t, next := Timeout(st.p.now, delay, r.payload), Schedule(st, r);
      InsertInSync(st.wheel, st.p.timeouts, st.p.now, t, delay, next.wheel, next.p.timeouts);
    }
  }

  lemma {:induction false} ScheduleAllInSync(st: NodeState, rs: seq<Request>)
    requires TimerInSync(st)
    ensures TimerInSync(ScheduleAll(st, rs))
    decreases |rs|
  {
    if rs != [] {
      ScheduleInSync(st, rs[0]);
      ScheduleAllInSync(Schedule(st, rs[0]), rs[1..]);
    }
  }

  lemma ApplyInSync(st: NodeState, eff: Effect)
    requires TimerInSync(st)
    ensures TimerInSync(Apply(st, eff))
  {
    ScheduleAllInSync(st.(p := st.p.(op := eff.state), out := st.out + Items(eff.outputs)), eff.requests);
  }

  lemma InvokeInSync(op: Operator, st: NodeState, input: Input)
    requires TimerInSync(st)
    ensures TimerInSync(Invoke(op, st, input))
  {
    var eff := Respond(op, st.p.op, st.p.now, input);
    ApplyInSync(Record(st, input, eff), eff);
  }

  lemma SlotSplits(wheel: seq<nat>, ticks: int)
    requires Sorted(wheel)
    ensures forall i :: Slot(wheel, ticks) <= i < |wheel| ==> wheel[i] > ticks
  {
    var n := Slot(wheel, ticks);
    forall i | n <= i < |wheel| ensures wheel[i] > ticks {
      assert n == i || wheel[n] <= wheel[i];
    }
  }

  lemma LaterInSync(wheel: seq<nat>, timeouts: seq<Timeout>, now: u64, n: nat, later: u64, rest: seq<nat>)
    requires InSync(wheel, timeouts, now) && n <= |wheel| && now <= later && |rest| == |wheel| - n
    requires forall i :: 0 <= i < |rest| ==> rest[i] > 0 && rest[i] == wheel[n + i] - (later - now)
    ensures InSync(rest, timeouts[n..], later)
  {
    forall i | 0 <= i < |rest| ensures timeouts[n..][i].Deadline() == later + rest[i] {
      assert timeouts[n + i].Deadline() == now + wheel[n + i];
    }
    forall i, j | 0 <= i < j < |rest| ensures rest[i] <= rest[j] {
      assert wheel[n + i] <= wheel[n + j];
    }
  }

  lemma ExpireKeepsSync(st: NodeState, ts: u64)
    requires TimerInSync(st) && st.p.now <= ts
    ensures TimerInSync(Expire(st, ts).0)
  {
    var ticks := ts - st.p.now;
    var n := Slot(st.wheel, ticks);
    var rest := Expire(st, ts).0.wheel;
    SlotSplits(st.wheel, ticks);
    forall i | 0 <= i < |rest| ensures rest[i] > 0 && rest[i] == st.wheel[n + i] - ticks {
      assert st.wheel[n + i] > ticks;
    }
    LaterInSync(st.wheel, st.p.timeouts, st.p.now, n, ts, rest);
  }

  lemma SplitByDeadline(wheel: seq<nat>, timeouts: seq<Timeout>, now: u64, n: nat, ts: u64)
    requires InSync(wheel, timeouts, now) && n <= |wheel|
    requires forall i :: 0 <= i < n ==> wheel[i] <= ts - now
    requires forall i :: n <= i < |wheel| ==> wheel[i] > ts - now
    ensures forall t :: t in timeouts[..n] ==> t.Deadline() <= ts
    ensures forall t :: t in timeouts[n..] ==> t.Deadline() > ts
  {
    forall i | 0 <= i < n ensures timeouts[i].Deadline() <= ts {
      assert timeouts[i].Deadline() == now + wheel[i];
    }
    forall i | n <= i < |timeouts| ensures timeouts[i].Deadline() > ts {
      assert timeouts[i].Deadline() == now + wheel[i];
    }
  }

  /** Expiring takes exactly the timeouts that are due, by deadline, and keeps the others. */
  lemma ExpireIsExact(st: NodeState, ts: u64)
    requires TimerInSync(st) && st.p.now <= ts
    ensures Expire(st, ts).1 + Expire(st, ts).0.p.timeouts == st.p.timeouts
    ensures forall t :: t in Expire(st, ts).1 ==> t.Deadline() <= ts
    ensures forall t :: t in Expire(st, ts).0.p.timeouts ==> t.Deadline() > ts
  {
    var ticks := ts - st.p.now;
    var n := Slot(st.wheel, ticks);
    SlotSplits(st.wheel, ticks);
    SplitByDeadline(st.wheel, st.p.timeouts, st.p.now, n, ts);
    assert st.p.timeouts[..n] + st.p.timeouts[n..] == st.p.timeouts;
  }

  lemma {:induction false} FireAllInSync(cfg: Config, st: NodeState, due: seq<Timeout>)
    requires TimerInSync(st)
    ensures TimerInSync(FireAll(cfg, st, due))
    decreases |due|
  {
    if due != [] {
      InvokeInSync(cfg.op, st, OnTimeout(due[0]));
      FireAllInSync(cfg, Invoke(cfg.op, st, OnTimeout(due[0])), due[1..]);
    }
  }

  lemma AdvanceInSync(cfg: Config, st: NodeState, ts: u64)
    requires TimerInSync(st) && st.p.now <= ts
    ensures var r := AdvanceTimer(cfg, st, ts); TimerInSync(r) && r.p.now == ts
  {
    ExpireKeepsSync(st, ts);
    var (st', due) := Expire(st, ts);
    FireAllInSync(cfg, st', due);
    FireAllFrame(cfg, st', due);
  }

  // ----- what the output may contain -----

  /** The forwarded watermarks increase strictly and none is above `current`; likewise epochs. */
  ghost predicate OutputOrdered(out: seq<Event>, current: u64, epoch: u64) {
    && (forall i, j :: 0 <= i < j < |out| && out[i].Watermark? && out[j].Watermark? ==> out[i].time < out[j].time)
    && (forall i :: 0 <= i < |out| && out[i].Watermark? ==> out[i].time <= current)
    && (forall i, j :: 0 <= i < j < |out| && out[i].Epoch? && out[j].Epoch? ==> out[i].epoch < out[j].epoch)
    && (forall i :: 0 <= i < |out| && out[i].Epoch? ==> out[i].epoch <= epoch)
  }

  /** `b` extends `a` by elements only. */
  ghost predicate ExtendsByItems(a: seq<Event>, b: seq<Event>) {
    a <= b && forall i :: |a| <= i < |b| ==> b[i].Item?
  }

  lemma {:induction false} FireAllOutput(cfg: Config, st: NodeState, due: seq<Timeout>)
    ensures ExtendsByItems(st.out, FireAll(cfg, st, due).out)
    decreases |due|
  {
    if due != [] {
      InvokeFrame(cfg.op, st, OnTimeout(due[0]));
      FireAllOutput(cfg, Invoke(cfg.op, st, OnTimeout(due[0])), due[1..]);
    }
  }

  lemma AdvanceOutput(cfg: Config, st: NodeState, ts: u64)
    ensures ExtendsByItems(st.out, AdvanceTimer(cfg, st, ts).out)
  {
    if st.p.now <= ts && |st.wheel| == |st.p.timeouts| {
      var (st', due) := Expire(st, ts);
      FireAllOutput(cfg, st', due);
    }
  }

  // ----- the invariant -----

  function Elems(s: seq<NodeId>): set<NodeId> {
    set c | c in s
  }

  function ChannelSet(cfg: Config): set<NodeId> {
    Elems(cfg.channels)
  }

  ghost predicate Distinct<T(!new)>(s: seq<T>) {
    forall i, j :: 0 <= i < j < |s| ==> s[i] != s[j]
  }

  ghost predicate Inv(cfg: Config, st: NodeState) {
    && Sane(cfg, st)
    && st.p.watermarks.Keys != {} && IsMin(st.p.watermarks, st.p.current)
    && TimerInSync(st) && st.p.now == st.p.current
    && st.p.blocked <= ChannelSet(cfg) && |st.p.blocked| < |cfg.channels|
    && (forall m :: m in st.p.buffer ==> m.sender in st.p.blocked)
    && OutputOrdered(st.out, st.p.current, st.p.epoch)
  }

  lemma {:induction false} ElemsSize(s: seq<NodeId>)
    ensures |Elems(s)| <= |s|
    ensures Distinct(s) <==> |Elems(s)| == |s|
  {
    if s != [] {
      var n := |s| - 1;
      var rest := s[..n];
      ElemsSize(rest);
      assert s == rest + [s[n]];
      assert Elems(s) == Elems(rest) + {s[n]};
      if s[n] in rest {
        assert Elems(s) == Elems(rest);
        var i :| 0 <= i < n && rest[i] == s[n];
        assert s[i] == s[n];
      } else {
        assert |Elems(s)| == |Elems(rest)| + 1;
        assert Distinct(s) ==> Distinct(rest);
        if Distinct(rest) {
          forall i, j | 0 <= i < j < |s| ensures s[i] != s[j] {
            assert rest[i] in rest && (j < n ==> rest[i] != rest[j]);
          }
        }
      }
    }
  }

  /** A node built on an empty store, with at least one input channel, satisfies the invariant. */
  ghost function FreshNode(cfg: Config, op: OpState): (st: NodeState)
    requires cfg.channels != []
    ensures New(cfg, FreshStore(op)) == Some(st)
    ensures Inv(cfg, st)
    ensures st.log == [] && st.p.buffer == [] && st.out == [] && st.late == [] && st.snapshots == []
    ensures st.p.epoch == 0 && st.p.blocked == {}
  {
    var st := New(cfg, FreshStore(op)).value;
    assert cfg.channels[0] in st.p.watermarks.Keys;
    assert st.p.watermarks[cfg.channels[0]] == 0;
    st
  }

  // ----- watermarks -----

  /**
   Why the two early returns are sound. When the channel's old watermark is above
   the current one, the minimum lies elsewhere and does not move; and a watermark
   above a channel's minimum can never be at or below the current one, so the second
   early return is never taken.
   */
  lemma WatermarkShortcut(m: map<NodeId, u64>, current: u64, s: NodeId, w: u64)
    requires s in m && IsMin(m, current) && w > m[s]
    ensures m[s] > current ==> IsMin(m[s := w], current)
    ensures w > current
  {
    if m[s] > current {
      var k :| k in m && m[k] == current;
      assert m[s := w][k] == current;
    }
  }

  /** Every watermark event, shortcut or not, leaves `current` at the minimum. */
  lemma TakeWatermarkInv(cfg: Config, st: NodeState, s: NodeId, w: u64)
    requires s in st.p.watermarks && Inv(cfg, st)
    ensures Inv(cfg, TakeWatermark(cfg, st, s, w))
  {
    TakeWatermarkFrame(cfg, st, s, w);
    if w > st.p.watermarks[s] {
      WatermarkShortcut(st.p.watermarks, st.p.current, s, w);
      var st1 := st.(p := st.p.(watermarks := st.p.watermarks[s := w]));
      assert s in st1.p.watermarks.Keys;
      if st.p.watermarks[s] <= st.p.current {
        var least := MinOf(st1.p.watermarks);
        if least > st.p.current {
          RaiseInv(cfg, st1, least);
        } else {
          // the minimum cannot fall, as one entry was raised
          var k :| k in st1.p.watermarks && st1.p.watermarks[k] == least;
          assert least >= st.p.current;
        }
      }
    }
  }

  lemma RaiseInv(cfg: Config, st: NodeState, w: u64)
    requires Sane(cfg, st) && TimerInSync(st) && st.p.now == st.p.current < w
    requires OutputOrdered(st.out, st.p.current, st.p.epoch)
    ensures var r := RaiseWatermark(cfg, st, w);
      TimerInSync(r) && r.p.now == r.p.current == w && OutputOrdered(r.out, w, st.p.epoch)
  {
    var st1 := st.(p := st.p.(current := w));
    InvokeInSync(cfg.op, st1, OnWatermark(w));
    InvokeFrame(cfg.op, st1, OnWatermark(w));
    var st2 := Invoke(cfg.op, st1, OnWatermark(w));
    AdvanceInSync(cfg, st2, w);
    AdvanceOutput(cfg, st2, w);
    AdvanceFrame(cfg, st2, w);
    assert ExtendsByItems(st.out, st2.out);
  }

  // ----- one step, then runs -----

  lemma ElementInv(cfg: Config, st: NodeState, s: NodeId, e: Element)
    requires s in cfg.channels && Inv(cfg, st)
    ensures Inv(cfg, TakeElement(cfg, st, s, e))
  {
    InvokeInSync(cfg.op, st, OnElement(e));
    InvokeFrame(cfg.op, st, OnElement(e));
  }

  lemma CompleteInv(cfg: Config, st: NodeState, e: u64)
    requires Sane(cfg, st) && cfg.channels != []
    requires st.p.watermarks.Keys != {} && IsMin(st.p.watermarks, st.p.current)
    requires TimerInSync(st) && st.p.now == st.p.current
    requires OutputOrdered(st.out, st.p.current, st.p.epoch) && e > st.p.epoch
    ensures Inv(cfg, Complete(cfg, st, e))
  {
    var st1 := st.(p := st.p.(epoch := e));
    InvokeInSync(cfg.op, st1, OnEpoch(e));
    InvokeFrame(cfg.op, st1, OnEpoch(e));
  }

  lemma StepInv(cfg: Config, st: NodeState, s: NodeId, ev: Event)
    requires s in cfg.channels && Inv(cfg, st)
    ensures Inv(cfg, Step(cfg, st, s, ev))
  {
    var st0 := st.(log := st.log + [Handled(s, ev)]);
    assert Inv(cfg, st0);
    match ev
    case Item(e) =>
      ElementInv(cfg, st0, s, e);
    case Watermark(w) =>
      TakeWatermarkInv(cfg, st0, s, w);
    case Epoch(e) =>
      BlockedSize(cfg, st, s);
      if Completes(cfg, st, s, ev) {
        CompleteInv(cfg, st0.(p := st0.p.(blocked := st0.p.blocked + {s})), e);
      }
    case Death(_) =>
  }

  lemma BlockedSize(cfg: Config, st: NodeState, s: NodeId)
    requires s in cfg.channels && st.p.blocked <= ChannelSet(cfg)
    ensures st.p.blocked + {s} <= ChannelSet(cfg)
    ensures |st.p.blocked + {s}| <= |ChannelSet(cfg)| <= |cfg.channels|
  {
    SubsetSize(st.p.blocked + {s}, ChannelSet(cfg));
    ElemsSize(cfg.channels);
  }

  lemma {:induction false} SubsetSize<T>(a: set<T>, b: set<T>)
    requires a <= b
    ensures |a| <= |b|
    ensures |a| == |b| ==> a == b
  {
    var rest := b - a;
    assert b == a + rest;
    assert |b| == |a| + |rest|;
    if |a| == |b| { assert rest == {}; }
  }

  /** The steps of a list of events, one after the other, with no further replay. */
  ghost function Steps(cfg: Config, st: NodeState, tr: seq<Handled>): (r: NodeState)
    requires Sane(cfg, st) && forall h :: h in tr ==> h.sender in cfg.channels
    ensures Sane(cfg, r)
    decreases |tr|
  {
    if tr == [] then st
    else
      StepSane(cfg, st, tr[0].sender, tr[0].event);
      Steps(cfg, Step(cfg, st, tr[0].sender, tr[0].event), tr[1..])
  }

  lemma {:induction false} StepsConcat(cfg: Config, st: NodeState, a: seq<Handled>, b: seq<Handled>)
    requires Sane(cfg, st) && forall h :: h in a + b ==> h.sender in cfg.channels
    ensures (forall h :: h in a ==> h.sender in cfg.channels) && (forall h :: h in b ==> h.sender in cfg.channels)
    ensures Steps(cfg, st, a + b) == Steps(cfg, Steps(cfg, st, a), b)
    decreases |a|
  {
    assert forall h :: h in a || h in b ==> h in a + b;
    if a == [] {
      assert a + b == b;
    } else {
      StepSane(cfg, st, a[0].sender, a[0].event);
      assert (a + b)[1..] == a[1..] + b;
      StepsConcat(cfg, Step(cfg, st, a[0].sender, a[0].event), a[1..], b);
    }
  }

  lemma {:induction false} StepsInv(cfg: Config, st: NodeState, tr: seq<Handled>)
    requires Inv(cfg, st) && forall h :: h in tr ==> h.sender in cfg.channels
    ensures Inv(cfg, Steps(cfg, st, tr))
    decreases |tr|
  {
    if tr != [] {
      StepInv(cfg, st, tr[0].sender, tr[0].event);
      StepsInv(cfg, Step(cfg, st, tr[0].sender, tr[0].event), tr[1..]);
    }
  }

  /** The history is the list of the steps taken, so a node's state is a fold over it. */
  lemma {:induction false} StepsLog(cfg: Config, st: NodeState, tr: seq<Handled>)
    requires Sane(cfg, st) && forall h :: h in tr ==> h.sender in cfg.channels
    ensures Steps(cfg, st, tr).log == st.log + tr
    decreases |tr|
  {
    if tr != [] {
      var st1 := Step(cfg, st, tr[0].sender, tr[0].event);
      StepSane(cfg, st, tr[0].sender, tr[0].event);
      StepFrame(cfg, st, tr[0].sender, tr[0].event);
      StepsLog(cfg, st1, tr[1..]);
      assert st.log + tr == st.log + [tr[0]] + tr[1..];
    }
  }

  // ----- per-channel streams -----

  /** The events of channel `c` in a history. */
  function Of(log: seq<Handled>, c: NodeId): seq<Event> {
    if log == [] then []
    else (if log[0].sender == c then [log[0].event] else []) + Of(log[1..], c)
  }

  /** The events channel `c` delivers in a list of messages. */
  function From(msgs: seq<Message>, c: NodeId): seq<Event> {
    if msgs == [] then []
    else (if msgs[0].sender == c then msgs[0].events else []) + From(msgs[1..], c)
  }

  lemma Regroup<T>(a: seq<T>, b: seq<T>, c: seq<T>)
    ensures a + b + c == a + (b + c)
  {
  }

  lemma {:induction false} OfConcat(a: seq<Handled>, b: seq<Handled>, c: NodeId)
    ensures Of(a + b, c) == Of(a, c) + Of(b, c)
  {
    var s := a + b;
    if a == [] {
      assert s == b;
    } else {
      assert s[0] == a[0] && s[1..] == a[1..] + b;
      OfConcat(a[1..], b, c);
      Regroup(if a[0].sender == c then [a[0].event] else [], Of(a[1..], c), Of(b, c));
    }
  }

  lemma {:induction false} FromConcat(a: seq<Message>, b: seq<Message>, c: NodeId)
    ensures From(a + b, c) == From(a, c) + From(b, c)
  {
    var s := a + b;
    if a == [] {
      assert s == b;
    } else {
      assert s[0] == a[0] && s[1..] == a[1..] + b;
      FromConcat(a[1..], b, c);
      Regroup(if a[0].sender == c then a[0].events else [], From(a[1..], c), From(b, c));
    }
  }

  lemma Trim<T>(s: seq<T>)
    ensures s + [] == s && [] + s == s
  {
  }

  lemma {:induction false} FromNobody(msgs: seq<Message>, c: NodeId)
    requires forall m :: m in msgs ==> m.sender != c
    ensures From(msgs, c) == []
  {
    if msgs != [] { FromNobody(msgs[1..], c); }
  }

  /**
   The recursion, laid out flat. Handling an event, a batch or a buffer is the same
   as taking the steps of some list of events; and in that list every channel's
   events stand in the order in which the channel delivered them, none missing,
   those still buffered at the end excepted.
   */
  ghost predicate FlatAs(cfg: Config, st: NodeState, r: NodeState, tr: seq<Handled>) {
    && Sane(cfg, st)
    && (forall h :: h in tr ==> h.sender in cfg.channels)
    && r == Steps(cfg, st, tr)
  }

  lemma FlatEvent(cfg: Config, st: NodeState, s: NodeId, ev: Event) returns (tr: seq<Handled>)
    requires s in cfg.channels && Sane(cfg, st)
    requires forall m :: m in st.p.buffer ==> m.sender != s
    ensures FlatAs(cfg, st, HandleEvent(cfg, st, s, ev), tr)
    ensures forall c :: Of(tr, c) + From(HandleEvent(cfg, st, s, ev).p.buffer, c)
                        == (if c == s then [ev] else []) + From(st.p.buffer, c)
    decreases |st.p.buffer|, 0, 0
  {
    StepFrame(cfg, st, s, ev);
    StepSane(cfg, st, s, ev);
    var st1 := Step(cfg, st, s, ev);
    tr := [Handled(s, ev)];
    assert Steps(cfg, st, tr) == st1;
    if Completes(cfg, st, s, ev) && st.p.buffer != [] {
      var more := FlatReplay(cfg, st1, st.p.buffer);
      StepsConcat(cfg, st, tr, more);
      forall c ensures Of(tr + more, c) == (if c == s then [ev] else []) + From(st.p.buffer, c) {
        OfConcat(tr, more, c);
      }
      tr := tr + more;
    }
  }

  lemma FlatEvents(cfg: Config, st: NodeState, s: NodeId, events: seq<Event>) returns (tr: seq<Handled>)
    requires s in cfg.channels && Sane(cfg, st)
    requires forall m :: m in st.p.buffer ==> m.sender != s
    ensures FlatAs(cfg, st, HandleEvents(cfg, st, s, events), tr)
    ensures forall c :: Of(tr, c) + From(HandleEvents(cfg, st, s, events).p.buffer, c)
                        == (if c == s then events else []) + From(st.p.buffer, c)
    decreases |st.p.buffer|, 1, |events|
  {
    if events == [] {
      tr := [];
    } else {
      var head := FlatEvent(cfg, st, s, events[0]);
      var st1 := HandleEvent(cfg, st, s, events[0]);
      var tail := FlatEvents(cfg, st1, s, events[1..]);
      tr := head + tail;
      StepsConcat(cfg, st, head, tail);
      var r := HandleEvents(cfg, st, s, events);
      FromNobody(st.p.buffer, s);
      FromNobody(st1.p.buffer, s);
      FromNobody(r.p.buffer, s);
      forall c ensures Of(tr, c) + From(r.p.buffer, c) == (if c == s then events else []) + From(st.p.buffer, c) {
        assert Of(head, c) + From(st1.p.buffer, c) == (if c == s then [events[0]] else []) + From(st.p.buffer, c);
        assert Of(tail, c) + From(r.p.buffer, c) == (if c == s then events[1..] else []) + From(st1.p.buffer, c);
        FlatTwo(head, tail, c, s, events, st.p.buffer, st1.p.buffer, r.p.buffer);
      }
    }
  }

  lemma FlatTwo(head: seq<Handled>, tail: seq<Handled>, c: NodeId, s: NodeId, events: seq<Event>,
                start: seq<Message>, mid: seq<Message>, end: seq<Message>)
    requires events != [] && From(start, s) == From(mid, s) == From(end, s) == []
    requires Of(head, c) + From(mid, c) == (if c == s then [events[0]] else []) + From(start, c)
    requires Of(tail, c) + From(end, c) == (if c == s then events[1..] else []) + From(mid, c)
    ensures Of(head + tail, c) + From(end, c) == (if c == s then events else []) + From(start, c)
  {
    OfConcat(head, tail, c);
    Splice(Of(head, c), Of(tail, c), From(end, c), From(mid, c), From(start, c),
           if c == s then [events[0]] else [], if c == s then events[1..] else []);
    assert [events[0]] + events[1..] == events;
  }

  lemma Splice<T>(head: seq<T>, tail: seq<T>, end: seq<T>, mid: seq<T>, start: seq<T>, x: seq<T>, xs: seq<T>)
    requires head + mid == x + start && tail + end == xs + mid
    requires mid == start == end == [] || x == xs == []
    ensures head + tail + end == x + xs + start
  {
    assert head + tail + end == head + (tail + end);
    Trim(head); Trim(tail); Trim(x); Trim(xs); Trim(mid); Trim(start);
    if x == xs == [] {
      assert tail + end == mid;
    } else {
      assert head == x && tail == xs;
    }
  }

  lemma FlatReplay(cfg: Config, st: NodeState, msgs: seq<Message>) returns (tr: seq<Handled>)
    requires Sane(cfg, st) && st.p.buffer == []
    requires forall m :: m in msgs ==> m.sender in cfg.channels
    ensures FlatAs(cfg, st, Replay(cfg, st, msgs), tr)
    ensures forall c :: Of(tr, c) == From(msgs, c)
    decreases |st.p.buffer|, 2, |msgs|
  {
    if msgs == [] {
      tr := [];
    } else {
      var head := FlatEvents(cfg, st, msgs[0].sender, msgs[0].events);
      var st1 := HandleEvents(cfg, st, msgs[0].sender, msgs[0].events);
      var tail := FlatReplay(cfg, st1, msgs[1..]);
      tr := head + tail;
      StepsConcat(cfg, st, head, tail);
      forall c ensures Of(tr, c) == From(msgs, c) {
        OfConcat(head, tail, c);
        assert From(st.p.buffer, c) == From(st1.p.buffer, c) == [];
        assert Of(head, c) + From(st1.p.buffer, c) == (if c == msgs[0].sender then msgs[0].events else []) + From(st.p.buffer, c);
        Trim(Of(head, c)); Trim(msgs[0].events);
      }
    }
  }

  /** Nothing a channel delivered is lost, duplicated or reordered between `st` and `r`. */
  ghost predicate Conserves(cfg: Config, st: NodeState, r: NodeState, msgs: seq<Message>) {
    st.log <= r.log &&
    forall c :: c in cfg.channels ==>
      Of(r.log, c) + From(r.p.buffer, c) == Of(st.log, c) + From(st.p.buffer, c) + From(msgs, c)
  }

  lemma MessageKeepsInv(cfg: Config, st: NodeState, m: Message)
    requires Inv(cfg, st)
    ensures Inv(cfg, HandleMessage(cfg, st, m))
  {
    if m.sender in cfg.channels && m.sender !in st.p.blocked {
      var tr := FlatEvents(cfg, st, m.sender, m.events);
      StepsInv(cfg, st, tr);
    }
  }

  lemma FromOne(m: Message, c: NodeId)
    ensures From([m], c) == if c == m.sender then m.events else []
  {
    assert From([m][1..], c) == [];
  }

  lemma ChannelConserves(cfg: Config, st: NodeState, m: Message, tr: seq<Handled>, c: NodeId)
    requires Sane(cfg, st) && m.sender in cfg.channels && FlatAs(cfg, st, HandleEvents(cfg, st, m.sender, m.events), tr)
    requires forall b :: b in st.p.buffer ==> b.sender != m.sender
    requires var r := HandleEvents(cfg, st, m.sender, m.events);
      Of(tr, c) + From(r.p.buffer, c) == (if c == m.sender then m.events else []) + From(st.p.buffer, c)
    ensures var r := HandleEvents(cfg, st, m.sender, m.events);
      Of(r.log, c) + From(r.p.buffer, c) == Of(st.log, c) + From(st.p.buffer, c) + From([m], c)
  {
    var r := HandleEvents(cfg, st, m.sender, m.events);
    StepsLog(cfg, st, tr);
    OfConcat(st.log, tr, c);
    FromOne(m, c);
    FromNobody(st.p.buffer, m.sender);
    Rejoin(Of(st.log, c), Of(tr, c), From(r.p.buffer, c), From([m], c), From(st.p.buffer, c));
  }

  lemma Rejoin<T>(log: seq<T>, handled: seq<T>, after: seq<T>, mine: seq<T>, before: seq<T>)
    requires handled + after == mine + before && (mine == [] || before == [])
    ensures log + handled + after == log + before + mine
  {
    Trim(mine); Trim(before);
    assert log + handled + after == log + (handled + after);
    assert log + before + mine == log + (before + mine);
  }

  lemma MessageConserves(cfg: Config, st: NodeState, m: Message)
    requires Inv(cfg, st)
    ensures Conserves(cfg, st, HandleMessage(cfg, st, m), [m])
  {
    var r := HandleMessage(cfg, st, m);
    if m.sender in cfg.channels && m.sender !in st.p.blocked {
      var tr := FlatEvents(cfg, st, m.sender, m.events);
      StepsLog(cfg, st, tr);
      forall c | c in cfg.channels
        ensures Of(r.log, c) + From(r.p.buffer, c) == Of(st.log, c) + From(st.p.buffer, c) + From([m], c)
      {
        ChannelConserves(cfg, st, m, tr, c);
      }
    } else {
      forall c | c in cfg.channels
        ensures Of(r.log, c) + From(r.p.buffer, c) == Of(st.log, c) + From(st.p.buffer, c) + From([m], c)
      {
        FromConcat(st.p.buffer, [m], c);
        FromOne(m, c);
        Trim(Of(st.log, c) + From(st.p.buffer, c));
      }
    }
  }

  /** Every run, from any state that satisfies the invariant, keeps it. */
  lemma {:induction false} RunKeepsInv(cfg: Config, st: NodeState, msgs: seq<Message>)
    requires Inv(cfg, st)
    ensures Inv(cfg, Run(cfg, st, msgs))
    decreases |msgs|
  {
    if msgs != [] {
      RunKeepsInv(cfg, st, msgs[..|msgs| - 1]);
      MessageKeepsInv(cfg, Run(cfg, st, msgs[..|msgs| - 1]), msgs[|msgs| - 1]);
    }
  }

  lemma NothingConserves(cfg: Config, st: NodeState)
    ensures Conserves(cfg, st, st, [])
  {
    forall c | c in cfg.channels
      ensures Of(st.log, c) + From(st.p.buffer, c) == Of(st.log, c) + From(st.p.buffer, c) + From([], c)
    {
      Trim(Of(st.log, c) + From(st.p.buffer, c));
    }
  }

  lemma ConservesTwice(cfg: Config, a: NodeState, b: NodeState, c: NodeState, ms: seq<Message>, m: Message, all: seq<Message>)
    requires Conserves(cfg, a, b, ms) && Conserves(cfg, b, c, [m]) && all == ms + [m]
    ensures Conserves(cfg, a, c, all)
  {
    forall ch | ch in cfg.channels
      ensures Of(c.log, ch) + From(c.p.buffer, ch) == Of(a.log, ch) + From(a.p.buffer, ch) + From(all, ch)
    {
      FromConcat(ms, [m], ch);
    }
  }

  /**
   Every run: for every channel, the events handled followed by the events still
   buffered are the events received, in order.
   */
  lemma {:induction false} RunConserves(cfg: Config, st: NodeState, msgs: seq<Message>)
    requires Inv(cfg, st)
    ensures Conserves(cfg, st, Run(cfg, st, msgs), msgs)
    decreases |msgs|
  {
    if msgs == [] {
      NothingConserves(cfg, st);
    } else {
      var front, last := msgs[..|msgs| - 1], msgs[|msgs| - 1];
      var mid := Run(cfg, st, front);
      RunConserves(cfg, st, front);
      RunKeepsInv(cfg, st, front);
      MessageConserves(cfg, mid, last);
      ConservesTwice(cfg, st, mid, Run(cfg, st, msgs), front, last, msgs);
    }
  }

  /** The headline facts about every run that starts with nothing buffered, as a fresh node does. */
  lemma EveryRun(cfg: Config, st: NodeState, msgs: seq<Message>)
    requires Inv(cfg, st) && st.log == [] && st.p.buffer == []
    ensures Inv(cfg, Run(cfg, st, msgs))
    ensures Distinct(cfg.channels) ==> Run(cfg, st, msgs).p.blocked < ChannelSet(cfg)
    ensures forall c :: c in cfg.channels ==>
      Of(Run(cfg, st, msgs).log, c) + From(Run(cfg, st, msgs).p.buffer, c) == From(msgs, c)
  {
    var r := Run(cfg, st, msgs);
    RunKeepsInv(cfg, st, msgs);
    RunConserves(cfg, st, msgs);
    ElemsSize(cfg.channels);
    if Distinct(cfg.channels) { assert r.p.blocked != ChannelSet(cfg); }
    forall c | c in cfg.channels ensures Of(r.log, c) + From(r.p.buffer, c) == From(msgs, c) {
      assert Of(st.log, c) == [] && From(st.p.buffer, c) == [];
      Trim(From(msgs, c));
    }
  }

  /** Listing an input channel twice means that no epoch ever completes. */
  lemma DuplicateChannelNeverCompletes(cfg: Config, st: NodeState, s: NodeId, ev: Event)
    requires s in cfg.channels && Inv(cfg, st) && !Distinct(cfg.channels)
    ensures !Completes(cfg, st, s, ev)
  {
    BlockedSize(cfg, st, s);
    ElemsSize(cfg.channels);
  }

  /** In every run, an element that reaches the operator is later than every forwarded watermark. */
  lemma HandedElementIsNotLate(cfg: Config, st: NodeState, s: NodeId, e: Element)
    requires s in cfg.channels && Inv(cfg, st)
    ensures var r := Step(cfg, st, s, Item(e));
      if r.late == st.late
      then r.p.op == cfg.op.onElement(st.p.op, st.p.now, e).state &&
           forall i :: 0 <= i < |st.out| && st.out[i].Watermark? ==> TimeOf(e) > st.out[i].time
      else r.late == st.late + [e] && r.p == st.p && r.out == st.out && TimeOf(e) <= st.p.watermarks[s]
  {
    var st0 := st.(log := st.log + [Handled(s, Item(e))]);
    InvokeFrame(cfg.op, st0, OnElement(e));
  }

  lemma RaiseOutput(cfg: Config, st: NodeState, w: u64)
    ensures var r := RaiseWatermark(cfg, st, w);
      && r.p.current == w && r.p.epoch == st.p.epoch
      && |r.out| > |st.out| && r.out[|r.out| - 1] == Watermark(w)
      && ExtendsByItems(st.out, r.out[..|r.out| - 1])
  {
    var st1 := st.(p := st.p.(current := w));
    InvokeFrame(cfg.op, st1, OnWatermark(w));
    AdvanceFrame(cfg, Invoke(cfg.op, st1, OnWatermark(w)), w);
    AdvanceOutput(cfg, Invoke(cfg.op, st1, OnWatermark(w)), w);
  }

  /**
   Control events leave a node exactly when its state moves: a watermark when the
   minimum over the channels has risen, an epoch when the last channel reached it,
   and then as the last thing that leaves.
   */
  ghost predicate ForwardsOnChange(st: NodeState, r: NodeState) {
    && st.out <= r.out
    && (forall i :: |st.out| <= i < |r.out| - 1 ==> r.out[i].Item?)
    && (r.p.current != st.p.current <==> exists w :: |r.out| > |st.out| && r.out[|r.out| - 1] == Watermark(w))
    && (r.p.current != st.p.current ==> r.out[|r.out| - 1] == Watermark(r.p.current))
    && (r.p.epoch != st.p.epoch <==> exists e :: |r.out| > |st.out| && r.out[|r.out| - 1] == Epoch(e))
    && (r.p.epoch != st.p.epoch ==> r.out[|r.out| - 1] == Epoch(r.p.epoch))
  }

  lemma ItemsChangeNothing(st: NodeState, r: NodeState)
    requires ExtendsByItems(st.out, r.out) && r.p.current == st.p.current && r.p.epoch == st.p.epoch
    ensures ForwardsOnChange(st, r)
  {
  }

  lemma RaiseForwards(cfg: Config, st: NodeState, w: u64)
    requires w != st.p.current
    ensures ForwardsOnChange(st, RaiseWatermark(cfg, st, w))
  {
    RaiseOutput(cfg, st, w);
  }

  lemma CompleteForwards(cfg: Config, st: NodeState, e: u64)
    requires e != st.p.epoch
    ensures ForwardsOnChange(st, Complete(cfg, st, e))
  {
    var st1 := st.(p := st.p.(epoch := e));
    var eff := cfg.op.onEpoch(st1.p.op, st1.p.now, e);
    InvokeFrame(cfg.op, st1, OnEpoch(e));
    var r := Complete(cfg, st, e);
    assert r.out == st.out + Items(eff.outputs) + [Epoch(e)];
    assert r.out[|r.out| - 1] == Epoch(e);
  }

  lemma ForwardedExactlyOnChange(cfg: Config, st: NodeState, s: NodeId, ev: Event)
    requires s in cfg.channels && Inv(cfg, st)
    ensures ForwardsOnChange(st, Step(cfg, st, s, ev))
  {
    var st0 := st.(log := st.log + [Handled(s, ev)]);
    match ev
    case Item(e) =>
      InvokeFrame(cfg.op, st0, OnElement(e));
      ItemsChangeNothing(st, Step(cfg, st, s, ev));
    case Watermark(w) =>
      var st1 := st0.(p := st0.p.(watermarks := st0.p.watermarks[s := w]));
      assert s in st1.p.watermarks.Keys;
      var least := MinOf(st1.p.watermarks);
      if least != st.p.current { RaiseForwards(cfg, st1, least); }
      ItemsChangeNothing(st, st1);
    case Epoch(e) =>
      var st1 := st0.(p := st0.p.(blocked := st0.p.blocked + {s}));
      if e != st.p.epoch { CompleteForwards(cfg, st1, e); }
      ItemsChangeNothing(st, st1);
    case Death(_) =>
  }
}
