/**
 What a node does with an event, as functions on the node's state.

 A step of the source's event loop is `Step`; `HandleEvents` and `Replay` are the
 mutual recursion between handling a batch and replaying the messages that were
 buffered while their senders were blocked.
 */
module NodeModel {
  import opened Streams

  /** State of the user's operator and payload of its timers; nothing is assumed about them. */
  type OpState(!new, ==)
  type Payload(!new, ==)

  datatype Request = Request(at: u64, payload: Payload)

  /** What one call of an operator does: its new state, timers it schedules, elements it outputs. */
  datatype Effect = Effect(state: OpState, requests: seq<Request>, outputs: seq<Element>)

  /** The four operator callbacks; each is given the operator state and the timer's clock. */
  datatype Operator = Operator(
    onElement: (OpState, u64, Element) -> Effect,
    onWatermark: (OpState, u64, u64) -> Effect,
    onTimeout: (OpState, u64, Payload) -> Effect,
    onEpoch: (OpState, u64, u64) -> Effect)

  datatype Config = Config(channels: seq<NodeId>, op: Operator)

  /** A persisted timeout. The wheel holds, for each of them, the ticks that remain. */
  datatype Timeout = Timeout(scheduled: u64, delay: u64, payload: Payload) {
    function Deadline(): int { scheduled + delay }
  }

  /** What the node calls its operator with, by callback; of a timeout the operator is given the payload. */
  datatype Input =
    | OnElement(element: Element)
    | OnWatermark(time: u64)
    | OnTimeout(timeout: Timeout)
    | OnEpoch(epoch: u64)

  /** One call of the operator: the clock and the operator state it was given, and what it did. */
  datatype Call = Call(now: u64, state: OpState, input: Input, effect: Effect)

  /** Everything the state backend stores, hence everything a checkpoint contains. */
  datatype Persisted = Persisted(
    watermarks: map<NodeId, u64>,
    current: u64,
    epoch: u64,
    blocked: set<NodeId>,
    buffer: seq<Message>,
    op: OpState,
    now: u64,
    timeouts: seq<Timeout>)

  datatype Handled = Handled(sender: NodeId, event: Event)

  datatype Snapshot = Snapshot(state: Persisted, log: seq<Handled>)

  /**
   `p` and `wheel` are the node; `out` is what it gave to its channel strategy and
   `snapshots` what it checkpointed. `log`, `late` and `calls` are history: the events
   the event loop has taken, in order, the elements it dropped as late, and every call
   of the operator.
   */
  datatype NodeState = NodeState(
    p: Persisted,
    wheel: seq<nat>,
    out: seq<Event>,
    log: seq<Handled>,
    late: seq<Element>,
    calls: seq<Call>,
    snapshots: seq<Snapshot>)

  // ----- the timer, as the node drives it -----

  /** How many leading entries of the wheel have at most `ticks` to go. */
  function Slot(wheel: seq<nat>, ticks: int): (n: nat)
    ensures n <= |wheel|
    ensures forall i :: 0 <= i < n ==> wheel[i] <= ticks
    ensures n < |wheel| ==> wheel[n] > ticks
  {
    if wheel == [] || wheel[0] > ticks then 0 else 1 + Slot(wheel[1..], ticks)
  }

  function Insert<T>(s: seq<T>, i: nat, x: T): seq<T>
    requires i <= |s|
  {
    s[..i] + [x] + s[i..]
  }

  /** A request whose time is not in the future is refused; others enter the wheel by deadline. */
  function Schedule(st: NodeState, r: Request): NodeState {
    if r.at <= st.p.now || |st.wheel| != |st.p.timeouts| then st
    else
      var delay := r.at - st.p.now;
      var k := Slot(st.wheel, delay);
      st.(p := st.p.(timeouts := Insert(st.p.timeouts, k, Timeout(st.p.now, delay, r.payload))),
          wheel := Insert(st.wheel, k, delay))
  }

  function ScheduleAll(st: NodeState, rs: seq<Request>): NodeState
    decreases |rs|
  {
    if rs == [] then st else ScheduleAll(Schedule(st, rs[0]), rs[1..])
  }

  function Apply(st: NodeState, eff: Effect): NodeState {
    var st' := st.(p := st.p.(op := eff.state), out := st.out + Items(eff.outputs));
    ScheduleAll(st', eff.requests)
  }

  function Respond(op: Operator, state: OpState, now: u64, input: Input): Effect {
    match input
    case OnElement(e) => op.onElement(state, now, e)
    case OnWatermark(w) => op.onWatermark(state, now, w)
    case OnTimeout(t) => op.onTimeout(state, now, t.payload)
    case OnEpoch(e) => op.onEpoch(state, now, e)
  }

  /** Adds a call with `input` and response `eff`, made in state `st`, to the history. */
  function Record(st: NodeState, input: Input, eff: Effect): NodeState {
    st.(calls := st.calls + [Call(st.p.now, st.p.op, input, eff)])
  }

  /** Calls the operator and does what it asks for. */
  function Invoke(op: Operator, st: NodeState, input: Input): NodeState {
    var eff := Respond(op, st.p.op, st.p.now, input);
    Apply(Record(st, input, eff), eff)
  }

  /** Moves the clock to `ts` and takes the timeouts that are due out of the wheel. */
  function Expire(st: NodeState, ts: u64): (r: (NodeState, seq<Timeout>))
    requires |st.wheel| == |st.p.timeouts| && st.p.now <= ts
  {
    var ticks := ts - st.p.now;
    var n := Slot(st.wheel, ticks);
    var rest := seq(|st.wheel| - n, i requires 0 <= i < |st.wheel| - n =>
      if st.wheel[n + i] > ticks then st.wheel[n + i] - ticks else 0);
    (st.(p := st.p.(now := ts, timeouts := st.p.timeouts[n..]), wheel := rest), st.p.timeouts[..n])
  }

  function FireAll(cfg: Config, st: NodeState, due: seq<Timeout>): NodeState
    decreases |due|
  {
    if due == [] then st
    else FireAll(cfg, Invoke(cfg.op, st, OnTimeout(due[0])), due[1..])
  }

  /** The clock never runs backwards: a lower time stamp leaves the timer alone. */
  function AdvanceTimer(cfg: Config, st: NodeState, ts: u64): NodeState {
    if ts < st.p.now || |st.wheel| != |st.p.timeouts| then st
    else
      var (st', due) := Expire(st, ts);
      FireAll(cfg, st', due)
  }

  // ----- one event -----

  ghost predicate IsMin(m: map<NodeId, u64>, v: u64) {
    (exists k :: k in m && m[k] == v) && (forall k :: k in m ==> v <= m[k])
  }

  lemma {:induction false} MinExists(m: map<NodeId, u64>) returns (v: u64)
    requires m.Keys != {}
    ensures IsMin(m, v)
    decreases |m.Keys|
  {
    var k :| k in m;
    var rest := m - {k};
    if rest.Keys == {} {
      v := m[k];
      assert forall j :: j in m ==> j == k by {
        forall j | j in m ensures j == k { assert j == k || j in rest.Keys; }
      }
    } else {
      assert rest.Keys == m.Keys - {k};
      var u := MinExists(rest);
      v := if m[k] < u then m[k] else u;
      var j :| j in rest && rest[j] == u;
      assert m[j] == u;
      assert forall i :: i in m ==> i == k || i in rest;
    }
  }

  ghost function MinOf(m: map<NodeId, u64>): (v: u64)
    requires m.Keys != {}
    ensures IsMin(m, v)
  {
    assert exists v :: IsMin(m, v) by { var v := MinExists(m); }
    var v :| IsMin(m, v);
    v
  }

  /** Stores the new watermark, tells the operator, fires what is due, forwards it. */
  function RaiseWatermark(cfg: Config, st: NodeState, w: u64): NodeState {
    var st1 := st.(p := st.p.(current := w));
    var st2 := AdvanceTimer(cfg, Invoke(cfg.op, st1, OnWatermark(w)), w);
    st2.(out := st2.out + [Watermark(w)])
  }

  ghost function TakeWatermark(cfg: Config, st: NodeState, s: NodeId, w: u64): NodeState
    requires s in st.p.watermarks
  {
    var prev := st.p.watermarks[s];
    if w <= prev then st
    else
      var st1 := st.(p := st.p.(watermarks := st.p.watermarks[s := w]));
      if prev > st.p.current then st1
      else if w <= st.p.current then st1
      else
        assert s in st1.p.watermarks.Keys;
        var least := MinOf(st1.p.watermarks);
        if least > st.p.current then RaiseWatermark(cfg, st1, least) else st1
  }

  function TakeElement(cfg: Config, st: NodeState, s: NodeId, e: Element): NodeState
    requires s in st.p.watermarks
  {
    if TimeOf(e) <= st.p.watermarks[s] then st.(late := st.late + [e])
    else Invoke(cfg.op, st, OnElement(e))
  }

  predicate Completes(cfg: Config, st: NodeState, s: NodeId, ev: Event) {
    ev.Epoch? && ev.epoch > st.p.epoch && |st.p.blocked + {s}| == |cfg.channels|
  }

  /** Checkpoints and forwards epoch `e`; the blocked set and the buffer end up cleared. */
  function Complete(cfg: Config, st: NodeState, e: u64): NodeState {
    var st1 := st.(p := st.p.(epoch := e));
    var st2 := Invoke(cfg.op, st1, OnEpoch(e));
    st2.(p := st2.p.(blocked := {}, buffer := []),
         out := st2.out + [Epoch(e)],
         snapshots := st2.snapshots + [Snapshot(st2.p, st2.log)])
  }

  /** One round of the event loop, up to but not including the replay of the buffer. */
  ghost function Step(cfg: Config, st: NodeState, s: NodeId, ev: Event): NodeState
    requires s in st.p.watermarks
  {
    var st := st.(log := st.log + [Handled(s, ev)]);
    match ev
    case Item(e) => TakeElement(cfg, st, s, e)
    case Watermark(w) => TakeWatermark(cfg, st, s, w)
    case Epoch(e) =>
      if e <= st.p.epoch then st
      else
        var st1 := st.(p := st.p.(blocked := st.p.blocked + {s}));
        if |st1.p.blocked| == |cfg.channels| then Complete(cfg, st1, e) else st1
    case Death(r) => st.(out := st.out + [Death(r)])
  }

  // ----- batches, replay, messages, runs -----

  /** Every valid sender has a stored watermark and only valid senders are buffered. */
  ghost predicate Sane(cfg: Config, st: NodeState) {
    (forall c :: c in cfg.channels ==> c in st.p.watermarks) &&
    (forall m :: m in st.p.buffer ==> m.sender in cfg.channels)
  }

  lemma ScheduleAllFrame(st: NodeState, rs: seq<Request>)
    ensures var r := ScheduleAll(st, rs);
      r == st.(p := st.p.(timeouts := r.p.timeouts), wheel := r.wheel)
    decreases |rs|
  {
    if rs != [] { ScheduleAllFrame(Schedule(st, rs[0]), rs[1..]); }
  }

  /** An operator call touches nothing but operator state, timers and output. */
  lemma ApplyFrame(st: NodeState, eff: Effect)
    ensures var r := Apply(st, eff);
      r == st.(p := st.p.(op := eff.state, timeouts := r.p.timeouts), wheel := r.wheel, out := st.out + Items(eff.outputs))
  {
    ScheduleAllFrame(st.(p := st.p.(op := eff.state), out := st.out + Items(eff.outputs)), eff.requests);
  }

  lemma InvokeFrame(op: Operator, st: NodeState, input: Input)
    ensures var r := Invoke(op, st, input); var eff := Respond(op, st.p.op, st.p.now, input);
      r == st.(p := st.p.(op := eff.state, timeouts := r.p.timeouts), wheel := r.wheel,
               out := st.out + Items(eff.outputs), calls := st.calls + [Call(st.p.now, st.p.op, input, eff)])
  {
    var eff := Respond(op, st.p.op, st.p.now, input);
    ApplyFrame(Record(st, input, eff), eff);
  }

  lemma FireAllFrame(cfg: Config, st: NodeState, due: seq<Timeout>)
    ensures var r := FireAll(cfg, st, due);
      r == st.(p := st.p.(op := r.p.op, timeouts := r.p.timeouts), wheel := r.wheel, out := r.out, calls := r.calls)
    decreases |due|
  {
    if due != [] {
      InvokeFrame(cfg.op, st, OnTimeout(due[0]));
      FireAllFrame(cfg, Invoke(cfg.op, st, OnTimeout(due[0])), due[1..]);
    }
  }

  lemma AdvanceFrame(cfg: Config, st: NodeState, ts: u64)
    ensures var r := AdvanceTimer(cfg, st, ts);
      r == st.(p := st.p.(op := r.p.op, timeouts := r.p.timeouts, now := r.p.now),
               wheel := r.wheel, out := r.out, calls := r.calls)
  {
    if st.p.now <= ts && |st.wheel| == |st.p.timeouts| {
      var (st', due) := Expire(st, ts);
      FireAllFrame(cfg, st', due);
    }
  }

  lemma TakeWatermarkFrame(cfg: Config, st: NodeState, s: NodeId, w: u64)
    requires s in st.p.watermarks
    ensures var r := TakeWatermark(cfg, st, s, w);
      && r.p.watermarks == (if w <= st.p.watermarks[s] then st.p.watermarks else st.p.watermarks[s := w])
      && r == st.(p := st.p.(watermarks := r.p.watermarks, current := r.p.current, op := r.p.op, timeouts := r.p.timeouts, now := r.p.now),
                  wheel := r.wheel, out := r.out, calls := r.calls)
  {
    var st1 := st.(p := st.p.(watermarks := st.p.watermarks[s := w]));
    assert s in st1.p.watermarks.Keys;
    var least := MinOf(st1.p.watermarks);
    var st2 := st1.(p := st1.p.(current := least));
    InvokeFrame(cfg.op, st2, OnWatermark(least));
    AdvanceFrame(cfg, Invoke(cfg.op, st2, OnWatermark(least)), least);
  }

  /** What a step may change, by kind of event. */
  lemma StepFrame(cfg: Config, st: NodeState, s: NodeId, ev: Event)
    requires s in st.p.watermarks
    ensures var r := Step(cfg, st, s, ev);
      && r.p.watermarks.Keys == st.p.watermarks.Keys
      && r.log == st.log + [Handled(s, ev)]
      && (Completes(cfg, st, s, ev) ==>
            r.p.blocked == {} && r.p.buffer == [] && r.p.epoch == ev.epoch && |r.snapshots| == |st.snapshots| + 1 &&
            r.snapshots[..|st.snapshots|] == st.snapshots &&
            var sn := r.snapshots[|st.snapshots|];
            sn.log == r.log && sn.state == r.p.(blocked := st.p.blocked + {s}, buffer := st.p.buffer))
      && (!Completes(cfg, st, s, ev) ==>
            r.p.buffer == st.p.buffer && r.p.epoch == st.p.epoch && r.snapshots == st.snapshots &&
            r.p.blocked == if ev.Epoch? && ev.epoch > st.p.epoch then st.p.blocked + {s} else st.p.blocked)
  {
    var st0 := st.(log := st.log + [Handled(s, ev)]);
    match ev
    case Item(e) => InvokeFrame(cfg.op, st0, OnElement(e));
    case Watermark(w) => TakeWatermarkFrame(cfg, st0, s, w);
    case Epoch(e) =>
      var st1 := st0.(p := st0.p.(blocked := st0.p.blocked + {s}, epoch := e));
      InvokeFrame(cfg.op, st1, OnEpoch(e));
    case Death(_) =>
  }

  lemma StepSane(cfg: Config, st: NodeState, s: NodeId, ev: Event)
    requires s in cfg.channels && Sane(cfg, st)
    ensures Sane(cfg, Step(cfg, st, s, ev))
  {
    StepFrame(cfg, st, s, ev);
  }

  /**
   One event with its consequences: when it completes an epoch, the messages that
   were buffered until then are replayed. The recursion ends because the buffer
   is empty while its old contents are replayed.
   */
  ghost function HandleEvent(cfg: Config, st: NodeState, s: NodeId, ev: Event): (r: NodeState)
    requires s in cfg.channels && Sane(cfg, st)
    ensures Sane(cfg, r)
    ensures r.p.buffer == st.p.buffer || r.p.buffer == []
    decreases |st.p.buffer|, 0, 0
  {
    StepFrame(cfg, st, s, ev);
    StepSane(cfg, st, s, ev);
    var st1 := Step(cfg, st, s, ev);
    if Completes(cfg, st, s, ev) && st.p.buffer != [] then Replay(cfg, st1, st.p.buffer) else st1
  }

  /** The event loop over one batch. */
  ghost function HandleEvents(cfg: Config, st: NodeState, s: NodeId, events: seq<Event>): (r: NodeState)
    requires s in cfg.channels && Sane(cfg, st)
    ensures Sane(cfg, r)
    ensures r.p.buffer == st.p.buffer || r.p.buffer == []
    decreases |st.p.buffer|, 1, |events|
  {
    if events == [] then st
    else HandleEvents(cfg, HandleEvent(cfg, st, s, events[0]), s, events[1..])
  }

  ghost function Replay(cfg: Config, st: NodeState, msgs: seq<Message>): (r: NodeState)
    requires Sane(cfg, st) && st.p.buffer == []
    requires forall m :: m in msgs ==> m.sender in cfg.channels
    ensures Sane(cfg, r) && r.p.buffer == []
    decreases |st.p.buffer|, 2, |msgs|
  {
    if msgs == [] then st
    else Replay(cfg, HandleEvents(cfg, st, msgs[0].sender, msgs[0].events), msgs[1..])
  }

  /** A message from a stranger is refused; one from a blocked sender is buffered. */
  ghost function HandleMessage(cfg: Config, st: NodeState, m: Message): (r: NodeState)
    requires Sane(cfg, st)
    ensures Sane(cfg, r)
  {
    if m.sender !in cfg.channels then st
    else if m.sender in st.p.blocked then st.(p := st.p.(buffer := st.p.buffer + [m]))
    else HandleEvents(cfg, st, m.sender, m.events)
  }

  ghost function Run(cfg: Config, st: NodeState, msgs: seq<Message>): (r: NodeState)
    requires Sane(cfg, st)
    ensures Sane(cfg, r)
    decreases |msgs|
  {
    if msgs == [] then st
    else HandleMessage(cfg, Run(cfg, st, msgs[..|msgs| - 1]), msgs[|msgs| - 1])
  }

  // ----- starting and restarting -----

  /** What the state backend holds when a node is built: possibly nothing at all yet. */
  datatype Stored = Stored(
    watermarks: map<NodeId, u64>,
    current: Option<u64>,
    epoch: Option<u64>,
    blocked: set<NodeId>,
    buffer: seq<Message>,
    op: OpState,
    now: Option<u64>,
    timeouts: seq<Timeout>)

  function OrZero(o: Option<u64>): u64 {
    match o case Some(v) => v case None => 0
  }

  function FreshStore(op: OpState): Stored {
    Stored(map[], None, None, {}, [], op, None, [])
  }

  function StoreOf(p: Persisted): Stored {
    Stored(p.watermarks, Some(p.current), Some(p.epoch), p.blocked, p.buffer, p.op, Some(p.now), p.timeouts)
  }

  /**
   Building a node on a store: missing entries start at zero, and every stored
   timeout is put back into the wheel. A timeout that is no longer in the future
   makes the source panic, here `None`.
   */
  function New(cfg: Config, s: Stored): Option<NodeState> {
    var now := OrZero(s.now);
    if exists t :: t in s.timeouts && t.Deadline() <= now then None
    else
      var wms := map c | c in s.watermarks.Keys + (set c | c in cfg.channels) ::
        if c in s.watermarks then s.watermarks[c] else 0;
      var wheel: seq<nat> := seq(|s.timeouts|, i requires 0 <= i < |s.timeouts| =>
        (assert s.timeouts[i] in s.timeouts; s.timeouts[i].Deadline() - now));
      Some(NodeState(Persisted(wms, OrZero(s.current), OrZero(s.epoch), s.blocked, s.buffer, s.op, now, s.timeouts),
                     wheel, [], [], [], [], []))
  }

  /** Unblock every channel and replay the buffer. */
  ghost function AfterStateSave(cfg: Config, st: NodeState): NodeState
    requires Sane(cfg, st)
  {
    Replay(cfg, st.(p := st.p.(blocked := {}, buffer := [])), st.p.buffer)
  }

  lemma NewIsSane(cfg: Config, s: Stored)
    requires New(cfg, s).Some?
    requires forall m :: m in s.buffer ==> m.sender in cfg.channels
    ensures Sane(cfg, New(cfg, s).value)
  {
    assert forall c :: c in cfg.channels ==> c in New(cfg, s).value.p.watermarks.Keys;
  }

  /** A node started on a restored store finishes what the checkpoint interrupted. */
  ghost function Restart(cfg: Config, s: Stored): Option<NodeState>
    requires forall m :: m in s.buffer ==> m.sender in cfg.channels
  {
    match New(cfg, s)
    case None => None
    case Some(st) =>
      NewIsSane(cfg, s);
      Some(AfterStateSave(cfg, st))
  }
}
