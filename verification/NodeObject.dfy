/** The node as the source writes it: an object whose methods update its fields. */
module NodeObject {
  import opened Streams
  import opened NodeModel

  class Node {
    const cfg: Config

    // persisted through the state backend
    var watermarks: map<NodeId, u64>
    var currentWatermark: u64
    var currentEpoch: u64
    var blockedChannels: set<NodeId>
    var messageBuffer: seq<Message>
    var opState: OpState
    var timerTime: u64
    var timeouts: seq<Timeout>

    // rebuilt on every start; the source panics when a stored timeout has expired
    var wheel: seq<nat>
    const started: bool

    // given to the channel strategy, and written as checkpoints
    var out: seq<Event>
    var checkpoints: seq<Persisted>

    ghost var log: seq<Handled>
    ghost var late: seq<Element>
    ghost var calls: seq<Call>
    ghost var snapshots: seq<Snapshot>

    function Contents(): Persisted
      reads this
    {
      Persisted(watermarks, currentWatermark, currentEpoch, blockedChannels, messageBuffer, opState, timerTime, timeouts)
    }

    ghost function State(): NodeState
      reads this
    {
      NodeState(Contents(), wheel, out, log, late, calls, snapshots)
    }

    ghost predicate Valid()
      reads this
    {
      Sane(cfg, State()) && |checkpoints| == |snapshots| &&
      forall i :: 0 <= i < |checkpoints| ==> checkpoints[i] == snapshots[i].state
    }

    /** Registers state on the store and replays the stored timeouts into the wheel. */
    constructor (cfg: Config, s: Stored)
      ensures this.cfg == cfg && (started <==> New(cfg, s).Some?)
      ensures started ==> State() == New(cfg, s).value
      ensures started <==> forall t :: t in s.timeouts ==> t.Deadline() > if s.now.Some? then s.now.value else 0
      ensures started ==>
        && watermarks.Keys == s.watermarks.Keys + (set c | c in cfg.channels)
        && (forall c :: c in watermarks ==> watermarks[c] == if c in s.watermarks then s.watermarks[c] else 0)
        && currentWatermark == (if s.current.Some? then s.current.value else 0)
        && currentEpoch == (if s.epoch.Some? then s.epoch.value else 0)
        && blockedChannels == s.blocked && messageBuffer == s.buffer && opState == s.op
        && timerTime == (if s.now.Some? then s.now.value else 0) && timeouts == s.timeouts
        && |wheel| == |timeouts| && (forall i :: 0 <= i < |wheel| ==> wheel[i] == timeouts[i].Deadline() - timerTime)
        && out == [] && checkpoints == [] && log == [] && late == [] && calls == []
      ensures started && (forall m :: m in s.buffer ==> m.sender in cfg.channels) ==> Valid()
    {
      this.cfg := cfg;
      var now := OrZero(s.now);
      var wms := Register(cfg, s);
      var live, ws := Rebuild(s.timeouts, now);
      started := live;
      watermarks, currentWatermark, currentEpoch := wms, OrZero(s.current), OrZero(s.epoch);
      blockedChannels, messageBuffer, opState := s.blocked, s.buffer, s.op;
      timerTime, timeouts, wheel := now, s.timeouts, ws;
      out, checkpoints, log, late, calls, snapshots := [], [], [], [], [], [];
      new;
      if live {
        assert wms == New(cfg, s).value.p.watermarks;
        assert ws == New(cfg, s).value.wheel;
        if forall m :: m in s.buffer ==> m.sender in cfg.channels { NewIsSane(cfg, s); }
      }
    }

    /** Gives every channel without a stored watermark the watermark zero. */
    static method Register(cfg: Config, s: Stored) returns (wms: map<NodeId, u64>)
      ensures wms.Keys == s.watermarks.Keys + (set c | c in cfg.channels)
      ensures forall c :: c in wms ==> wms[c] == if c in s.watermarks then s.watermarks[c] else 0
    {
      wms := s.watermarks;
      var i := 0;
      while i < |cfg.channels|
        invariant 0 <= i <= |cfg.channels|
        invariant wms.Keys == s.watermarks.Keys + (set c | c in cfg.channels[..i])
        invariant forall c :: c in wms ==> wms[c] == if c in s.watermarks then s.watermarks[c] else 0
      {
        assert cfg.channels[..i + 1] == cfg.channels[..i] + [cfg.channels[i]];
        if cfg.channels[i] !in wms {
          wms := wms[cfg.channels[i] := 0];
        }
        i := i + 1;
      }
      assert cfg.channels[..i] == cfg.channels;
    }

    /** Puts stored timeouts back into a wheel, unless one of them has expired. */
    static method Rebuild(timeouts: seq<Timeout>, now: u64) returns (live: bool, ws: seq<nat>)
      ensures live <==> forall t :: t in timeouts ==> t.Deadline() > now
      ensures live ==> |ws| == |timeouts| && forall i :: 0 <= i < |ws| ==> ws[i] == timeouts[i].Deadline() - now
    {
      ws := [];
      live := true;
      var i := 0;
      while live && i < |timeouts|
        invariant 0 <= i <= |timeouts| && |ws| == i
        invariant live ==> forall j :: 0 <= j < i ==> timeouts[j].Deadline() > now && ws[j] == timeouts[j].Deadline() - now
        invariant !live ==> exists t :: t in timeouts && t.Deadline() <= now
        decreases |timeouts| - i, live
      {
        if timeouts[i].Deadline() <= now {
          assert timeouts[i] in timeouts;
          live := false;
        } else {
          ws := ws + [timeouts[i].Deadline() - now];
          i := i + 1;
        }
      }
    }

    method ScheduleRequest(r: Request)
      modifies this`timeouts, this`wheel
      ensures State() == Schedule(old(State()), r)
    {
      if timerTime < r.at && |wheel| == |timeouts| {
        var delay := r.at - timerTime;
        var k := Slot(wheel, delay);
        timeouts := Insert(timeouts, k, Timeout(timerTime, delay, r.payload));
        wheel := Insert(wheel, k, delay);
      }
    }

    method ApplyEffect(eff: Effect)
      modifies this`opState, this`out, this`timeouts, this`wheel
      ensures State() == Apply(old(State()), eff)
    {
      opState := eff.state;
      out := out + Items(eff.outputs);
      ghost var start := State();
      var i := 0;
      while i < |eff.requests|
        invariant 0 <= i <= |eff.requests|
        invariant ScheduleAll(State(), eff.requests[i..]) == ScheduleAll(start, eff.requests)
      {
        assert eff.requests[i..][0] == eff.requests[i] && eff.requests[i..][1..] == eff.requests[i + 1..];
        ScheduleRequest(eff.requests[i]);
        i := i + 1;
      }
    }

    /** Calls the operator with `input`, whose response `eff` is, and does what it asks for. */
    method Answer(ghost input: Input, eff: Effect)
      requires eff == Respond(cfg.op, opState, timerTime, input)
      modifies this`opState, this`out, this`timeouts, this`wheel, this`calls
      ensures State() == Invoke(cfg.op, old(State()), input)
    {
      calls := calls + [Call(timerTime, opState, input, eff)];
      ApplyEffect(eff);
    }

    /** Moves the clock and takes out what is due. */
    method TakeDue(ts: u64) returns (due: seq<Timeout>)
      requires timerTime <= ts && |wheel| == |timeouts|
      modifies this`timeouts, this`wheel, this`timerTime
      ensures (State(), due) == Expire(old(State()), ts)
    {
      var ticks := ts - timerTime;
      var n := Slot(wheel, ticks);
      var ws := wheel;
      due := timeouts[..n];
      wheel := seq(|ws| - n, i requires 0 <= i < |ws| - n => if ws[n + i] > ticks then ws[n + i] - ticks else 0);
      timerTime, timeouts := ts, timeouts[n..];
      assert wheel == Expire(old(State()), ts).0.wheel;
    }

    method AdvanceTo(ts: u64)
      modifies this`opState, this`out, this`timeouts, this`wheel, this`timerTime, this`calls
      ensures State() == AdvanceTimer(cfg, old(State()), ts)
    {
      if ts < timerTime || |wheel| != |timeouts| {
        return;
      }
      var due := TakeDue(ts);
      ghost var start := State();
      var i := 0;
      while i < |due|
        invariant 0 <= i <= |due|
        invariant FireAll(cfg, State(), due[i..]) == FireAll(cfg, start, due)
      {
        assert due[i..][0] == due[i] && due[i..][1..] == due[i + 1..];
        Answer(OnTimeout(due[i]), cfg.op.onTimeout(opState, timerTime, due[i].payload));
        i := i + 1;
      }
    }

    /** The lowest of the stored watermarks and `w`. */
    method LowestWatermark(w: u64) returns (least: u64)
      requires w in watermarks.Values
      ensures IsMin(watermarks, least)
    {
      least := w;
      var todo := watermarks.Keys;
      while todo != {}
        invariant todo <= watermarks.Keys
        invariant exists k :: k in watermarks && watermarks[k] == least
        invariant forall k :: k in watermarks && k !in todo ==> least <= watermarks[k]
        invariant least <= w
      {
        var k :| k in todo;
        if watermarks[k] < least {
          least := watermarks[k];
        }
        todo := todo - {k};
      }
    }

    method TakeElementEvent(s: NodeId, e: Element)
      requires s in watermarks
      modifies this
      ensures State() == TakeElement(cfg, old(State()), s, e)
      ensures checkpoints == old(checkpoints)
    {
      if TimeOf(e) <= watermarks[s] {
        late := late + [e];
        return;
      }
      Answer(OnElement(e), cfg.op.onElement(opState, timerTime, e));
    }

    method RaiseTo(w: u64)
      modifies this`currentWatermark, this`opState, this`out, this`timeouts, this`wheel, this`timerTime, this`calls
      ensures State() == RaiseWatermark(cfg, old(State()), w)
    {
      currentWatermark := w;
      Answer(OnWatermark(w), cfg.op.onWatermark(opState, timerTime, w));
      AdvanceTo(w);
      out := out + [Watermark(w)];
    }

    method TakeWatermarkEvent(s: NodeId, w: u64)
      requires s in watermarks
      modifies this
      ensures State() == TakeWatermark(cfg, old(State()), s, w)
      ensures checkpoints == old(checkpoints)
    {
      if w <= watermarks[s] {
        return;
      }
      var current := currentWatermark;
      var prev := watermarks[s];
      watermarks := watermarks[s := w];
      if prev > current {
        return;
      }
      if w <= current {
        return;
      }
      assert watermarks[s] == w && s in watermarks.Keys;
      var least := LowestWatermark(w);
      MinUnique(watermarks, least, MinOf(watermarks));
      if least > current {
        RaiseTo(least);
      }
    }

    /** Checkpoints the state under the current epoch. */
    method SaveState()
      modifies this`checkpoints, this`snapshots
      ensures checkpoints == old(checkpoints) + [Contents()]
      ensures snapshots == old(snapshots) + [Snapshot(Contents(), log)]
    {
      checkpoints := checkpoints + [Contents()];
      snapshots := snapshots + [Snapshot(Contents(), log)];
    }

    /** All channels are blocked on `e`: checkpoint and forward it. */
    method CompleteEpoch(e: u64)
      requires |checkpoints| == |snapshots|
      requires forall i :: 0 <= i < |checkpoints| ==> checkpoints[i] == snapshots[i].state
      modifies this
      ensures State().(p := State().p.(blocked := {}, buffer := [])) == Complete(cfg, old(State()), e)
      ensures messageBuffer == old(messageBuffer)
      ensures |checkpoints| == |snapshots|
      ensures forall i :: 0 <= i < |checkpoints| ==> checkpoints[i] == snapshots[i].state
    {
      currentEpoch := e;
      ghost var st1 := State();
      InvokeFrame(cfg.op, st1, OnEpoch(e));
      Answer(OnEpoch(e), cfg.op.onEpoch(opState, timerTime, e));
      ghost var st2 := State();
      SaveState();
      out := out + [Epoch(e)];
    }

    method TakeEpochEvent(s: NodeId, e: u64)
      requires Valid() && s in cfg.channels
      modifies this
      ensures Valid()
      ensures
        var st := old(State());
        if e <= st.p.epoch then State() == st
        else
          var st1 := st.(p := st.p.(blocked := st.p.blocked + {s}));
          if |st1.p.blocked| != |cfg.channels| then State() == st1
          else
            var st2 := Complete(cfg, st1, e);
            Sane(cfg, st2) && st2.p.buffer == [] && State() == Replay(cfg, st2, st.p.buffer)
      decreases |messageBuffer|, 1
    {
      if e <= currentEpoch {
        return;
      }
      blockedChannels := blockedChannels + {s};
      if |blockedChannels| == |cfg.channels| {
        ghost var st1 := State();
        CompleteEpoch(e);
        InvokeFrame(cfg.op, st1.(p := st1.p.(epoch := e)), OnEpoch(e));
        AfterSave();
      }
    }

    /** One round of the event loop. */
    method HandleEvent(sender: NodeId, event: Event)
      requires Valid() && sender in cfg.channels
      modifies this
      ensures Valid()
      ensures State() == NodeModel.HandleEvent(cfg, old(State()), sender, event)
      decreases |messageBuffer|, 2
    {
      StepSane(cfg, State(), sender, event);
      StepFrame(cfg, State(), sender, event);
      log := log + [Handled(sender, event)];
      match event {
        case Item(e) =>
          TakeElementEvent(sender, e);
        case Watermark(w) =>
          TakeWatermarkEvent(sender, w);
        case Epoch(e) =>
          TakeEpochEvent(sender, e);
        case Death(r) =>
          out := out + [Death(r)];
      }
    }

    /** The event loop over a batch. */
    method HandleEvents(sender: NodeId, events: seq<Event>)
      requires Valid() && sender in cfg.channels
      modifies this
      ensures Valid()
      ensures State() == NodeModel.HandleEvents(cfg, old(State()), sender, events)
      decreases |messageBuffer|, 3
    {
      var i := 0;
      while i < |events|
        invariant 0 <= i <= |events|
        invariant Valid()
        invariant |messageBuffer| <= old(|messageBuffer|)
        invariant NodeModel.HandleEvents(cfg, State(), sender, events[i..]) ==
                  NodeModel.HandleEvents(cfg, old(State()), sender, events)
      {
        assert events[i..][0] == events[i] && events[i..][1..] == events[i + 1..];
        HandleEvent(sender, events[i]);
        i := i + 1;
      }
    }

    method AfterSave()
      requires Valid()
      modifies this
      ensures Valid()
      ensures State() == AfterStateSave(cfg, old(State()))
      decreases |messageBuffer|, 0
    {
      blockedChannels := {};
      if messageBuffer != [] {
        var localBuffer := messageBuffer;
        messageBuffer := [];
        ghost var start := State();
        var i := 0;
        while i < |localBuffer|
          invariant 0 <= i <= |localBuffer|
          invariant Valid() && messageBuffer == []
          invariant Replay(cfg, State(), localBuffer[i..]) == Replay(cfg, start, localBuffer)
        {
          assert localBuffer[i..][0] == localBuffer[i] && localBuffer[i..][1..] == localBuffer[i + 1..];
          HandleEvents(localBuffer[i].sender, localBuffer[i].events);
          i := i + 1;
        }
      }
    }

    /** `ok` is false, and nothing changes, when the sender is not an input channel. */
    method HandleMessage(m: Message) returns (ok: bool)
      requires Valid()
      modifies this
      ensures Valid()
      ensures ok <==> m.sender in cfg.channels
      ensures !ok ==> State() == old(State())
      ensures ok && m.sender in old(blockedChannels) ==>
        State() == old(State()).(p := old(Contents()).(buffer := old(messageBuffer) + [m]))
      ensures State() == NodeModel.HandleMessage(cfg, old(State()), m)
    {
      if m.sender !in cfg.channels {
        return false;
      }
      if m.sender in blockedChannels {
        messageBuffer := messageBuffer + [m];
        return true;
      }
      HandleEvents(m.sender, m.events);
      return true;
    }

    /** A restored node first finishes the epoch it was checkpointed in. */
    method OnStart(wasRestored: bool)
      requires Valid()
      modifies this
      ensures Valid()
      ensures State() == if wasRestored then AfterStateSave(cfg, old(State())) else old(State())
    {
      if wasRestored {
        AfterSave();
      }
    }
  }

  lemma MinUnique(m: map<NodeId, u64>, a: u64, b: u64)
    requires IsMin(m, a) && IsMin(m, b)
    ensures a == b
  {
  }
}
