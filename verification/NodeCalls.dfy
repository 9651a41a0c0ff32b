/**
 What a node calls its operator with. Each event is characterised by the calls it
 leads to, and every run accounts for the operator's timers: a request for a later
 time is handed back to the operator exactly once or is still stored.
 */
module NodeCalls {
  import opened Streams
  import opened NodeModel
  import opened NodeInvariants
  import opened TimerContract
  import opened NodeTimerContract

  // ----- what the history says about timers -----

  /** The requests for a time after `now`. */
  ghost function Ahead(now: u64, rs: seq<Request>): multiset<Due<Payload>> {
    if rs == [] then multiset{}
    else (if rs[0].at > now then multiset{Due(rs[0].at, rs[0].payload)} else multiset{}) + Ahead(now, rs[1..])
  }

  /** What the operator asked for in these calls, each time seen from the clock it was shown. */
  ghost function Made(calls: seq<Call>): multiset<Due<Payload>> {
    if calls == [] then multiset{} else Ahead(calls[0].now, calls[0].effect.requests) + Made(calls[1..])
  }

  ghost function DueOf(t: Timeout): Due<Payload> { Due(t.Deadline(), t.payload) }

  /** What a call of the timeout callback handed over. */
  ghost function Handed(c: Call): multiset<Due<Payload>> {
    if c.input.OnTimeout? then multiset{DueOf(c.input.timeout)} else multiset{}
  }

  /** What the operator was handed by its timeout callback. */
  ghost function Fired(calls: seq<Call>): multiset<Due<Payload>> {
    if calls == [] then multiset{} else Handed(calls[0]) + Fired(calls[1..])
  }

  /** What is stored, apart from when it was scheduled. */
  ghost function Kept(timeouts: seq<Timeout>): multiset<Due<Payload>> {
    multiset(Dues(timeouts))
  }

  /** What the operator put out in these calls. */
  function Outputs(calls: seq<Call>): seq<Event> {
    if calls == [] then [] else Items(calls[0].effect.outputs) + Outputs(calls[1..])
  }

  /** The call was answered by the operator's callback of its kind. */
  ghost predicate AnsweredOne(op: Operator, c: Call) {
    match c.input
    case OnElement(e) => c.effect == op.onElement(c.state, c.now, e)
    case OnWatermark(w) => c.effect == op.onWatermark(c.state, c.now, w)
    case OnTimeout(t) => c.effect == op.onTimeout(c.state, c.now, t.payload)
    case OnEpoch(e) => c.effect == op.onEpoch(c.state, c.now, e)
  }

  ghost predicate Answered(op: Operator, calls: seq<Call>) {
    forall c :: c in calls ==> AnsweredOne(op, c)
  }

  /** Each call sees the operator state that the one before it left. */
  ghost predicate Threaded(calls: seq<Call>, first: OpState, last: OpState)
    decreases |calls|
  {
    if calls == [] then first == last
    else calls[0].state == first && Threaded(calls[1..], calls[0].effect.state, last)
  }

  /** No timeout is handed over before its time. */
  ghost predicate NeverEarly(calls: seq<Call>) {
    forall c :: c in calls && c.input.OnTimeout? ==> c.input.timeout.Deadline() <= c.now
  }

  /**
   `calls` is what happened to the operator and its timers between `st` and `r`: what was
   asked for or stored before has been handed to the operator or is stored afterwards.
   */
  ghost predicate Accounts(op: Operator, st: NodeState, r: NodeState, calls: seq<Call>) {
    && r.calls == st.calls + calls
    && Answered(op, calls)
    && NeverEarly(calls)
    && Threaded(calls, st.p.op, r.p.op)
    && Kept(st.p.timeouts) + Made(calls) == Fired(calls) + Kept(r.p.timeouts)
  }

  lemma AddTo<T>(a: multiset<T>, b: multiset<T>, c: multiset<T>)
    ensures a + b + c == a + (b + c)
  {
  }

  lemma {:induction false} HistoryConcat(a: seq<Call>, b: seq<Call>)
    ensures Made(a + b) == Made(a) + Made(b)
    ensures Fired(a + b) == Fired(a) + Fired(b)
    ensures Outputs(a + b) == Outputs(a) + Outputs(b)
  {
    var all := a + b;
    if a == [] {
      assert all == b;
    } else {
      var c, rest := a[0], a[1..];
      assert all[0] == c && all[1..] == rest + b;
      HistoryConcat(rest, b);
      AddTo(Ahead(c.now, c.effect.requests), Made(rest), Made(b));
      AddTo(Handed(c), Fired(rest), Fired(b));
      Regroup(Items(c.effect.outputs), Outputs(rest), Outputs(b));
    }
  }

  lemma {:induction false} ThreadedConcat(a: seq<Call>, b: seq<Call>, first: OpState, mid: OpState, last: OpState)
    requires Threaded(a, first, mid) && Threaded(b, mid, last)
    ensures Threaded(a + b, first, last)
    decreases |a|
  {
    if a == [] {
      assert a + b == b;
    } else {
      assert (a + b)[0] == a[0] && (a + b)[1..] == a[1..] + b;
      ThreadedConcat(a[1..], b, a[0].effect.state, mid, last);
    }
  }

  lemma Balance<T(!new)>(k0: multiset<T>, m1: multiset<T>, f1: multiset<T>, k1: multiset<T>,
                   m2: multiset<T>, f2: multiset<T>, k2: multiset<T>)
    requires k0 + m1 == f1 + k1 && k1 + m2 == f2 + k2
    ensures k0 + (m1 + m2) == f1 + f2 + k2
  {
    forall x ensures (k0 + (m1 + m2))[x] == (f1 + f2 + k2)[x] {
      assert (k0 + m1)[x] == (f1 + k1)[x] && (k1 + m2)[x] == (f2 + k2)[x];
    }
  }

  lemma AnsweredConcat(op: Operator, a: seq<Call>, b: seq<Call>)
    requires Answered(op, a) && Answered(op, b)
    ensures Answered(op, a + b)
    ensures NeverEarly(a) && NeverEarly(b) ==> NeverEarly(a + b)
  {
  }

  lemma AccountsTwice(op: Operator, st: NodeState, mid: NodeState, r: NodeState, a: seq<Call>, b: seq<Call>)
    requires Accounts(op, st, mid, a) && Accounts(op, mid, r, b)
    ensures Accounts(op, st, r, a + b)
  {
    HistoryConcat(a, b);
    ThreadedConcat(a, b, st.p.op, mid.p.op, r.p.op);
    AnsweredConcat(op, a, b);
    Regroup(st.calls, a, b);
    Balance(Kept(st.p.timeouts), Made(a), Fired(a), Kept(mid.p.timeouts), Made(b), Fired(b), Kept(r.p.timeouts));
  }

  /** Nothing that `Accounts` speaks of differs. */
  ghost predicate SameTimers(a: NodeState, b: NodeState) {
    a.calls == b.calls && a.p.op == b.p.op && a.p.timeouts == b.p.timeouts
  }

  lemma NothingAccounts(op: Operator, st: NodeState, r: NodeState)
    requires SameTimers(st, r)
    ensures Accounts(op, st, r, [])
  {
    Trim(st.calls);
  }

  // ----- one call -----

  lemma SwapLast<T>(a: multiset<T>, b: multiset<T>, c: multiset<T>)
    ensures a + b + c == a + c + b
  {
  }

  lemma InsertKept(ts: seq<Timeout>, k: nat, t: Timeout)
    requires k <= |ts|
    ensures Kept(Insert(ts, k, t)) == Kept(ts) + multiset{DueOf(t)}
  {
    var before, after := Dues(ts[..k]), Dues(ts[k..]);
    assert Dues(ts) == before + after;
    assert Dues(Insert(ts, k, t)) == before + [DueOf(t)] + after;
    SwapLast(multiset(before), multiset{DueOf(t)}, multiset(after));
  }

  lemma ScheduleStores(st: NodeState, rq: Request)
    requires TimerInSync(st)
    ensures rq.at > st.p.now ==> Kept(Schedule(st, rq).p.timeouts) == Kept(st.p.timeouts) + multiset{Due(rq.at, rq.payload)}
    ensures rq.at <= st.p.now ==> Schedule(st, rq) == st
    ensures Schedule(st, rq).p.now == st.p.now
  {
    if rq.at > st.p.now {
      var delay := rq.at - st.p.now;
      var t := Timeout(st.p.now, delay, rq.payload);
      assert DueOf(t) == Due(rq.at, rq.payload);
      InsertKept(st.p.timeouts, Slot(st.wheel, delay), t);
    }
  }

  lemma {:induction false} ScheduleAllStores(st: NodeState, rs: seq<Request>)
    requires TimerInSync(st)
    ensures Kept(ScheduleAll(st, rs).p.timeouts) == Kept(st.p.timeouts) + Ahead(st.p.now, rs)
    decreases |rs|
  {
    if rs != [] {
      ScheduleStores(st, rs[0]);
      ScheduleInSync(st, rs[0]);
      ScheduleAllStores(Schedule(st, rs[0]), rs[1..]);
      var first := if rs[0].at > st.p.now then multiset{Due(rs[0].at, rs[0].payload)} else multiset{};
      AddTo(Kept(st.p.timeouts), first, Ahead(st.p.now, rs[1..]));
    }
  }

  function CallOf(op: Operator, st: NodeState, input: Input): Call {
    Call(st.p.now, st.p.op, input, Respond(op, st.p.op, st.p.now, input))
  }

  lemma One(c: Call)
    ensures Made([c]) == Ahead(c.now, c.effect.requests)
    ensures Fired([c]) == Handed(c)
    ensures Outputs([c]) == Items(c.effect.outputs)
    ensures forall s :: Threaded([c], c.state, s) <==> s == c.effect.state
  {
    assert Made([c][1..]) == multiset{} && Fired([c][1..]) == multiset{} && Outputs([c][1..]) == [];
    Trim(Items(c.effect.outputs));
  }

  /** A call other than of the timeout callback; that one is made with a timeout already taken out. */
  lemma InvokeAccounts(op: Operator, st: NodeState, input: Input)
    requires TimerInSync(st)
    ensures var c := CallOf(op, st, input); var r := Invoke(op, st, input);
      && r.calls == st.calls + [c] && Answered(op, [c]) && Threaded([c], st.p.op, r.p.op)
      && Kept(r.p.timeouts) == Kept(st.p.timeouts) + Made([c])
      && (!input.OnTimeout? ==> Accounts(op, st, r, [c]))
  {
    var c := CallOf(op, st, input);
    InvokeFrame(op, st, input);
    One(c);
    var st1 := Record(st, input, c.effect);
    ScheduleAllStores(st1.(p := st1.p.(op := c.effect.state), out := st1.out + Items(c.effect.outputs)), c.effect.requests);
  }

  // ----- firing what is due -----

  /** One call of the timeout callback for each of `due`, in order, at clock `now`. */
  ghost predicate Hands(calls: seq<Call>, due: seq<Timeout>, now: u64) {
    && |calls| == |due|
    && forall i :: 0 <= i < |due| ==> calls[i].input == OnTimeout(due[i]) && calls[i].now == now
  }

  lemma {:induction false} HandsFires(calls: seq<Call>, due: seq<Timeout>, now: u64)
    requires Hands(calls, due, now)
    ensures Fired(calls) == Kept(due)
    decreases |due|
  {
    if due != [] {
      HandsFires(calls[1..], due[1..], now);
      assert Dues(due) == [DueOf(due[0])] + Dues(due[1..]);
    }
  }

  lemma HandsMore(c: Call, calls: seq<Call>, due: seq<Timeout>, now: u64)
    requires due != [] && c.input == OnTimeout(due[0]) && c.now == now && Hands(calls, due[1..], now)
    ensures Hands([c] + calls, due, now)
  {
    forall i | 0 <= i < |due| ensures ([c] + calls)[i].input == OnTimeout(due[i]) && ([c] + calls)[i].now == now {
      assert i > 0 ==> due[1..][i - 1] == due[i];
    }
  }

  /** `r` is `st` after `calls`, which were made by the timeout callback for what `due` lists. */
  ghost predicate FiredAll(op: Operator, st: NodeState, r: NodeState, due: seq<Timeout>, calls: seq<Call>) {
    && Hands(calls, due, st.p.now)
    && r.calls == st.calls + calls && Answered(op, calls) && Threaded(calls, st.p.op, r.p.op)
    && Kept(r.p.timeouts) == Kept(st.p.timeouts) + Made(calls)
    && r.out == st.out + Outputs(calls)
  }

  lemma FiredMore(op: Operator, st: NodeState, mid: NodeState, r: NodeState, due: seq<Timeout>, c: Call, calls: seq<Call>)
    requires due != [] && c.input == OnTimeout(due[0]) && c.now == st.p.now == mid.p.now
    requires mid.calls == st.calls + [c] && Answered(op, [c]) && Threaded([c], st.p.op, mid.p.op)
    requires Kept(mid.p.timeouts) == Kept(st.p.timeouts) + Made([c]) && mid.out == st.out + Outputs([c])
    requires FiredAll(op, mid, r, due[1..], calls)
    ensures FiredAll(op, st, r, due, [c] + calls)
  {
    HandsMore(c, calls, due, st.p.now);
    HistoryConcat([c], calls);
    ThreadedConcat([c], calls, st.p.op, mid.p.op, r.p.op);
    AnsweredConcat(op, [c], calls);
    Regroup(st.calls, [c], calls);
    Regroup(st.out, Outputs([c]), Outputs(calls));
    AddTo(Kept(st.p.timeouts), Made([c]), Made(calls));
  }

  lemma {:induction false} FireAllCalls(cfg: Config, st: NodeState, due: seq<Timeout>) returns (calls: seq<Call>)
    requires TimerInSync(st)
    ensures FiredAll(cfg.op, st, FireAll(cfg, st, due), due, calls)
    decreases |due|
  {
    calls := [];
    if due == [] {
      Trim(st.calls); Trim(st.out);
    } else {
      var input := OnTimeout(due[0]);
      var c, mid := CallOf(cfg.op, st, input), Invoke(cfg.op, st, input);
      InvokeAccounts(cfg.op, st, input);
      InvokeFrame(cfg.op, st, input);
      InvokeInSync(cfg.op, st, input);
      One(c);
      var rest := FireAllCalls(cfg, mid, due[1..]);
      FiredMore(cfg.op, st, mid, FireAll(cfg, st, due), due, c, rest);
      calls := [c] + rest;
    }
  }

  // ----- a watermark that raises the minimum -----

  lemma KeptSplit(due: seq<Timeout>, rest: seq<Timeout>, w: u64)
    requires forall t :: t in due ==> t.Deadline() <= w
    requires forall t :: t in rest ==> t.Deadline() > w
    ensures forall d :: Kept(due)[d] == if d.deadline <= w then Kept(due + rest)[d] else 0
  {
    DuesConcat(due, rest);
    DuesBounds(due, w);
    DuesBounds(rest, w);
    forall d ensures Kept(due)[d] == if d.deadline <= w then Kept(due + rest)[d] else 0 {
      assert d in Kept(due) ==> d in Dues(due);
    }
  }

  /** Calls of the timeout callback at clock `w`, with timeouts that are due, in the order of their deadlines. */
  ghost predicate HandsInOrder(calls: seq<Call>, w: u64) {
    && (forall i :: 0 <= i < |calls| ==>
          calls[i].now == w && calls[i].input.OnTimeout? && calls[i].input.timeout.Deadline() <= w)
    && (forall i, j :: 0 <= i < j < |calls| ==>
          calls[i].input.OnTimeout? && calls[j].input.OnTimeout? &&
          calls[i].input.timeout.Deadline() <= calls[j].input.timeout.Deadline())
  }

  /** What was stored is handed over once if it is due at `w`, and not at all otherwise. */
  ghost predicate HandsWhatIsDue(calls: seq<Call>, stored: multiset<Due<Payload>>, w: u64) {
    forall d :: Fired(calls)[d] == if d.deadline <= w then stored[d] else 0
  }

  lemma AdvanceCalls(cfg: Config, st: NodeState, w: u64) returns (calls: seq<Call>)
    requires TimerInSync(st) && st.p.now <= w
    ensures var r := AdvanceTimer(cfg, st, w);
      Accounts(cfg.op, st, r, calls) && r.out == st.out + Outputs(calls)
    ensures HandsInOrder(calls, w) && HandsWhatIsDue(calls, Kept(st.p.timeouts), w)
  {
    var (mid, due) := Expire(st, w);
    var rest := mid.p.timeouts;
    ExpireIsExact(st, w);
    ExpireKeepsSync(st, w);
    KeptSplit(due, rest, w);
    DuesConcat(due, rest);
    calls := FireAllCalls(cfg, mid, due);
    HandsFires(calls, due, w);
    AddTo(Kept(due), Kept(rest), Made(calls));
    DuesSorted(st.wheel, st.p.timeouts, st.p.now, |due|);
    assert due == st.p.timeouts[..|due|];
    DueInOrder(calls, due, w);
  }

  lemma DueInOrder(calls: seq<Call>, due: seq<Timeout>, w: u64)
    requires Hands(calls, due, w) && ByDeadline(Dues(due))
    requires forall t :: t in due ==> t.Deadline() <= w
    ensures HandsInOrder(calls, w) && NeverEarly(calls)
  {
    forall i, j | 0 <= i < j < |due| ensures due[i].Deadline() <= due[j].Deadline() {
      assert Dues(due)[i].deadline <= Dues(due)[j].deadline;
    }
    forall i | 0 <= i < |due| ensures due[i].Deadline() <= w {}
  }

  /** What the node does when the minimum over its channels has risen to `w`. */
  ghost predicate Raises(op: Operator, st: NodeState, r: NodeState, w: u64, told: Call, handed: seq<Call>) {
    && told.now == st.p.now && told.input == OnWatermark(w)
    && HandsInOrder(handed, w)
    && HandsWhatIsDue(handed, Kept(st.p.timeouts) + Made([told]), w)
    && Accounts(op, st, r, [told] + handed)
    && r.out == st.out + Outputs([told] + handed) + [Watermark(w)]
    && (forall t :: t in r.p.timeouts ==> t.Deadline() > w)
  }

  lemma RaiseCalls(cfg: Config, st: NodeState, w: u64) returns (told: Call, handed: seq<Call>)
    requires TimerInSync(st) && st.p.now == st.p.current < w && Sane(cfg, st)
    requires OutputOrdered(st.out, st.p.current, st.p.epoch)
    ensures Raises(cfg.op, st, RaiseWatermark(cfg, st, w), w, told, handed)
  {
    var st1, input := st.(p := st.p.(current := w)), OnWatermark(w);
    told := CallOf(cfg.op, st1, input);
    var st2 := Invoke(cfg.op, st1, input);
    InvokeAccounts(cfg.op, st1, input);
    InvokeFrame(cfg.op, st1, input);
    InvokeInSync(cfg.op, st1, input);
    One(told);
    handed := AdvanceCalls(cfg, st2, w);
    var st3 := AdvanceTimer(cfg, st2, w);
    AccountsTwice(cfg.op, st1, st2, st3, [told], handed);
    HistoryConcat([told], handed);
    Regroup(st.out, Outputs([told]), Outputs(handed));
    RaiseInv(cfg, st, w);
    LaterThanNow(RaiseWatermark(cfg, st, w));
  }

  lemma LaterThanNow(st: NodeState)
    requires TimerInSync(st)
    ensures forall t :: t in st.p.timeouts ==> t.Deadline() > st.p.now
  {
    forall t | t in st.p.timeouts ensures t.Deadline() > st.p.now {
      var i :| 0 <= i < |st.p.timeouts| && st.p.timeouts[i] == t;
      assert st.p.timeouts[i].Deadline() == st.p.now + st.wheel[i];
    }
  }

  // ----- one event -----

  function Logged(st: NodeState, s: NodeId, ev: Event): NodeState {
    st.(log := st.log + [Handled(s, ev)])
  }

  /** An element is handed over, once, if it is later than its channel's watermark, and is dropped otherwise. */
  lemma ElementStep(cfg: Config, st: NodeState, s: NodeId, e: Element)
    requires s in cfg.channels && Inv(cfg, st)
    ensures var r, st0 := Step(cfg, st, s, Item(e)), Logged(st, s, Item(e));
      if TimeOf(e) <= st.p.watermarks[s] then r == st0.(late := st.late + [e])
      else
        var told := Call(st.p.now, st.p.op, OnElement(e), cfg.op.onElement(st.p.op, st.p.now, e));
        && Accounts(cfg.op, st, r, [told])
        && r == st0.(p := st.p.(op := told.effect.state, timeouts := r.p.timeouts), wheel := r.wheel,
                     out := st.out + Items(told.effect.outputs), calls := st.calls + [told])
  {
    var st0 := Logged(st, s, Item(e));
    InvokeFrame(cfg.op, st0, OnElement(e));
    InvokeAccounts(cfg.op, st0, OnElement(e));
  }

  lemma RaiseKeeps(cfg: Config, st: NodeState, w: u64)
    requires TimerInSync(st) && st.p.now <= w
    ensures var r := RaiseWatermark(cfg, st, w);
      r == st.(p := st.p.(current := w, now := w, op := r.p.op, timeouts := r.p.timeouts),
               wheel := r.wheel, out := r.out, calls := r.calls)
  {
    var st1, input := st.(p := st.p.(current := w)), OnWatermark(w);
    InvokeFrame(cfg.op, st1, input);
    InvokeInSync(cfg.op, st1, input);
    AdvanceFrame(cfg, Invoke(cfg.op, st1, input), w);
    AdvanceInSync(cfg, Invoke(cfg.op, st1, input), w);
  }

  lemma RaisesSame(op: Operator, a: NodeState, b: NodeState, r: NodeState, w: u64, told: Call, handed: seq<Call>)
    requires Raises(op, a, r, w, told, handed)
    requires SameTimers(a, b) && a.p.now == b.p.now && a.out == b.out
    ensures Raises(op, b, r, w, told, handed)
  {
  }

  /**
   A watermark is stored when it is above its channel's. If the minimum over the channels
   stays, that is all; if it rises, to `w`, the operator is told `w` at the old clock, then
   handed every timeout that is due at `w`, at clock `w`, and `w` is forwarded.
   */
  lemma WatermarkStep(cfg: Config, st: NodeState, s: NodeId, time: u64) returns (told: Option<Call>, handed: seq<Call>)
    requires s in cfg.channels && Inv(cfg, st)
    ensures var r, st0 := Step(cfg, st, s, Watermark(time)), Logged(st, s, Watermark(time));
      var w := r.p.current;
      var stored := if time > st.p.watermarks[s] then st.p.watermarks[s := time] else st.p.watermarks;
      && IsMin(stored, w)
      && (told.None? <==> w == st.p.current)
      && (told.None? ==> r == st0.(p := st.p.(watermarks := stored)))
      && (told.Some? ==>
            && w > st.p.current
            && Raises(cfg.op, st, r, w, told.value, handed)
            && r == st0.(p := st.p.(watermarks := stored, current := w, now := w, op := r.p.op, timeouts := r.p.timeouts),
                         wheel := r.wheel, out := r.out, calls := r.calls))
  {
    var st0 := Logged(st, s, Watermark(time));
    var r := Step(cfg, st, s, Watermark(time));
    assert Inv(cfg, r) by { StepInv(cfg, st, s, Watermark(time)); }
    TakeWatermarkFrame(cfg, st0, s, time);
    told, handed := None, [];
    if r.p.current != st.p.current {
      var st1 := st0.(p := st0.p.(watermarks := st.p.watermarks[s := time]));
      assert s in st1.p.watermarks.Keys;
      var w := MinOf(st1.p.watermarks);
      assert r == RaiseWatermark(cfg, st1, w) && w > st.p.current;
      var c, cs := RaiseCalls(cfg, st1, w);
      RaiseKeeps(cfg, st1, w);
      RaisesSame(cfg.op, st1, st, r, w, c, cs);
      told, handed := Some(c), cs;
    }
  }

  /**
   An epoch above the current one blocks its channel. When as many channels are blocked as
   there are, the operator is told, once, the state is checkpointed as it then is, and the
   epoch is forwarded.
   */
  lemma EpochStep(cfg: Config, st: NodeState, s: NodeId, e: u64)
    requires s in cfg.channels && Inv(cfg, st)
    ensures var r, st0 := Step(cfg, st, s, Epoch(e)), Logged(st, s, Epoch(e));
      var blocked := st.p.blocked + {s};
      if e <= st.p.epoch then r == st0
      else if |blocked| < |cfg.channels| then r == st0.(p := st.p.(blocked := blocked))
      else
        var told := Call(st.p.now, st.p.op, OnEpoch(e), cfg.op.onEpoch(st.p.op, st.p.now, e));
        var saved := st.p.(epoch := e, blocked := blocked, op := told.effect.state, timeouts := r.p.timeouts);
        && Accounts(cfg.op, st, r, [told])
        && r == st0.(p := saved.(blocked := {}, buffer := []), wheel := r.wheel,
                     out := st.out + Items(told.effect.outputs) + [Epoch(e)], calls := st.calls + [told],
                     snapshots := st.snapshots + [Snapshot(saved, st0.log)])
  {
    BlockedSize(cfg, st, s);
    var st0 := Logged(st, s, Epoch(e));
    var st1 := st0.(p := st0.p.(blocked := st.p.blocked + {s}, epoch := e));
    InvokeFrame(cfg.op, st1, OnEpoch(e));
    InvokeAccounts(cfg.op, st1, OnEpoch(e));
  }

  /** A death is forwarded and nothing else happens. */
  lemma DeathStep(cfg: Config, st: NodeState, s: NodeId, reason: string)
    requires s in cfg.channels && Inv(cfg, st)
    ensures Step(cfg, st, s, Death(reason)) == Logged(st, s, Death(reason)).(out := st.out + [Death(reason)])
  {
  }

  // ----- every run -----

  lemma StepAccounts(cfg: Config, st: NodeState, s: NodeId, ev: Event) returns (calls: seq<Call>)
    requires s in cfg.channels && Inv(cfg, st)
    ensures Accounts(cfg.op, st, Step(cfg, st, s, ev), calls)
  {
    var r := Step(cfg, st, s, ev);
    calls := [];
    match ev {
      case Item(e) =>
        ElementStep(cfg, st, s, e);
        if TimeOf(e) > st.p.watermarks[s] {
          return [Call(st.p.now, st.p.op, OnElement(e), cfg.op.onElement(st.p.op, st.p.now, e))];
        }
      case Watermark(w) =>
        var told, handed := WatermarkStep(cfg, st, s, w);
        if told.Some? {
          return [told.value] + handed;
        }
      case Epoch(e) =>
        EpochStep(cfg, st, s, e);
        if e > st.p.epoch && |st.p.blocked + {s}| >= |cfg.channels| {
          return [Call(st.p.now, st.p.op, OnEpoch(e), cfg.op.onEpoch(st.p.op, st.p.now, e))];
        }
      case Death(reason) =>
        DeathStep(cfg, st, s, reason);
    }
    NothingAccounts(cfg.op, st, r);
  }

  lemma {:induction false} StepsAccount(cfg: Config, st: NodeState, tr: seq<Handled>) returns (calls: seq<Call>)
    requires Inv(cfg, st) && forall h :: h in tr ==> h.sender in cfg.channels
    ensures Accounts(cfg.op, st, Steps(cfg, st, tr), calls)
    decreases |tr|
  {
    if tr == [] {
      NothingAccounts(cfg.op, st, st);
      calls := [];
    } else {
      var mid := Step(cfg, st, tr[0].sender, tr[0].event);
      var first := StepAccounts(cfg, st, tr[0].sender, tr[0].event);
      StepInv(cfg, st, tr[0].sender, tr[0].event);
      var more := StepsAccount(cfg, mid, tr[1..]);
      AccountsTwice(cfg.op, st, mid, Steps(cfg, st, tr), first, more);
      calls := first + more;
    }
  }

  lemma MessageAccounts(cfg: Config, st: NodeState, m: Message) returns (calls: seq<Call>)
    requires Inv(cfg, st)
    ensures Accounts(cfg.op, st, HandleMessage(cfg, st, m), calls)
  {
    if m.sender in cfg.channels && m.sender !in st.p.blocked {
      var tr := FlatEvents(cfg, st, m.sender, m.events);
      calls := StepsAccount(cfg, st, tr);
    } else {
      NothingAccounts(cfg.op, st, HandleMessage(cfg, st, m));
      calls := [];
    }
  }

  /**
   Every run, replays included: what the operator asked for or had stored before has been
   handed to it, not before its time, or is stored afterwards; and each call saw the state
   that the one before it left.
   */
  lemma {:induction false} RunAccounts(cfg: Config, st: NodeState, msgs: seq<Message>) returns (calls: seq<Call>)
    requires Inv(cfg, st)
    ensures Accounts(cfg.op, st, Run(cfg, st, msgs), calls)
    decreases |msgs|
  {
    if msgs == [] {
      NothingAccounts(cfg.op, st, st);
      calls := [];
    } else {
      var front, m := msgs[..|msgs| - 1], msgs[|msgs| - 1];
      var mid := Run(cfg, st, front);
      var before := RunAccounts(cfg, st, front);
      RunKeepsInv(cfg, st, front);
      var last := MessageAccounts(cfg, mid, m);
      AccountsTwice(cfg.op, st, mid, Run(cfg, st, msgs), before, last);
      calls := before + last;
    }
  }

  /**
   From a fresh node on: every request for a later time was handed back exactly once or is
   stored for after the current watermark.
   */
  lemma EveryRequestIsHonoured(cfg: Config, op: OpState, msgs: seq<Message>)
    requires cfg.channels != []
    ensures var r := Run(cfg, FreshNode(cfg, op), msgs);
      && Made(r.calls) == Fired(r.calls) + Kept(r.p.timeouts)
      && Answered(cfg.op, r.calls) && Threaded(r.calls, op, r.p.op) && NeverEarly(r.calls)
      && (forall t :: t in r.p.timeouts ==> t.Deadline() > r.p.current)
  {
    var st := FreshNode(cfg, op);
    var calls := RunAccounts(cfg, st, msgs);
    RunKeepsInv(cfg, st, msgs);
    LaterThanNow(Run(cfg, st, msgs));
    assert Run(cfg, st, msgs).calls == calls;
  }
}
