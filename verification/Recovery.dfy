/**
 Restoring a checkpoint and going on is the same as never having stopped. The
 histories that a state carries are write-only, so everything a node does commutes
 with putting an earlier history in front; a restarted node is then the original one
 with its history cut off at the checkpoint.
 */
module Recovery {
  import opened Streams
  import opened NodeModel
  import opened NodeInvariants
  import opened QuietSteps
  import opened Completions

  function Relog(log: seq<Handled>, sns: seq<Snapshot>): seq<Snapshot> {
    seq(|sns|, i requires 0 <= i < |sns| => sns[i].(log := log + sns[i].log))
  }

  /** `st` with the history of `base` before its own. */
  function After(base: NodeState, st: NodeState): NodeState {
    st.(out := base.out + st.out, log := base.log + st.log, late := base.late + st.late, calls := base.calls + st.calls,
        snapshots := base.snapshots + Relog(base.log, st.snapshots))
  }

  /** `st` without its history. */
  function Bare(st: NodeState): NodeState {
    st.(out := [], log := [], late := [], calls := [], snapshots := [])
  }

  lemma BareAfter(st: NodeState)
    ensures After(st, Bare(st)) == st
  {
    Trim(st.out); Trim(st.log); Trim(st.late); Trim(st.calls); Trim(st.snapshots);
  }

  lemma {:induction false} ScheduleAllAfter(base: NodeState, st: NodeState, rs: seq<Request>)
    ensures ScheduleAll(After(base, st), rs) == After(base, ScheduleAll(st, rs))
    decreases |rs|
  {
    if rs != [] {
      assert Schedule(After(base, st), rs[0]) == After(base, Schedule(st, rs[0]));
      ScheduleAllAfter(base, Schedule(st, rs[0]), rs[1..]);
    }
  }

  lemma ApplyAfter(base: NodeState, st: NodeState, eff: Effect)
    ensures Apply(After(base, st), eff) == After(base, Apply(st, eff))
  {
    var st1 := st.(p := st.p.(op := eff.state), out := st.out + Items(eff.outputs));
    assert base.out + st.out + Items(eff.outputs) == base.out + (st.out + Items(eff.outputs));
    ScheduleAllAfter(base, st1, eff.requests);
  }

  lemma InvokeAfter(op: Operator, base: NodeState, st: NodeState, input: Input)
    ensures Invoke(op, After(base, st), input) == After(base, Invoke(op, st, input))
  {
    var eff := Respond(op, st.p.op, st.p.now, input);
    var c := Call(st.p.now, st.p.op, input, eff);
    assert base.calls + st.calls + [c] == base.calls + (st.calls + [c]);
    ApplyAfter(base, Record(st, input, eff), eff);
  }

  lemma {:induction false} FireAllAfter(cfg: Config, base: NodeState, st: NodeState, due: seq<Timeout>)
    ensures FireAll(cfg, After(base, st), due) == After(base, FireAll(cfg, st, due))
    decreases |due|
  {
    if due != [] {
      InvokeAfter(cfg.op, base, st, OnTimeout(due[0]));
      FireAllAfter(cfg, base, Invoke(cfg.op, st, OnTimeout(due[0])), due[1..]);
    }
  }

  lemma AdvanceAfter(cfg: Config, base: NodeState, st: NodeState, ts: u64)
    ensures AdvanceTimer(cfg, After(base, st), ts) == After(base, AdvanceTimer(cfg, st, ts))
  {
    if st.p.now <= ts && |st.wheel| == |st.p.timeouts| {
      var (st1, due) := Expire(st, ts);
      assert Expire(After(base, st), ts).0.wheel == st1.wheel;
      assert Expire(After(base, st), ts) == (After(base, st1), due);
      FireAllAfter(cfg, base, st1, due);
    }
  }

  lemma RaiseAfter(cfg: Config, base: NodeState, st: NodeState, w: u64)
    ensures RaiseWatermark(cfg, After(base, st), w) == After(base, RaiseWatermark(cfg, st, w))
  {
    var st1 := st.(p := st.p.(current := w));
    InvokeAfter(cfg.op, base, st1, OnWatermark(w));
    AdvanceAfter(cfg, base, Invoke(cfg.op, st1, OnWatermark(w)), w);
    var st2 := AdvanceTimer(cfg, Invoke(cfg.op, st1, OnWatermark(w)), w);
    assert base.out + st2.out + [Watermark(w)] == base.out + (st2.out + [Watermark(w)]);
  }

  lemma TakeWatermarkAfter(cfg: Config, base: NodeState, st: NodeState, s: NodeId, w: u64)
    requires s in st.p.watermarks
    ensures TakeWatermark(cfg, After(base, st), s, w) == After(base, TakeWatermark(cfg, st, s, w))
  {
    var st1 := st.(p := st.p.(watermarks := st.p.watermarks[s := w]));
    assert s in st1.p.watermarks.Keys;
    RaiseAfter(cfg, base, st1, MinOf(st1.p.watermarks));
  }

  lemma TakeElementAfter(cfg: Config, base: NodeState, st: NodeState, s: NodeId, e: Element)
    requires s in st.p.watermarks
    ensures TakeElement(cfg, After(base, st), s, e) == After(base, TakeElement(cfg, st, s, e))
  {
    InvokeAfter(cfg.op, base, st, OnElement(e));
    assert base.late + st.late + [e] == base.late + (st.late + [e]);
  }

  lemma CompleteAfter(cfg: Config, base: NodeState, st: NodeState, e: u64)
    ensures Complete(cfg, After(base, st), e) == After(base, Complete(cfg, st, e))
  {
    var st1 := st.(p := st.p.(epoch := e));
    InvokeAfter(cfg.op, base, st1, OnEpoch(e));
    var st2 := Invoke(cfg.op, st1, OnEpoch(e));
    var sn := Snapshot(st2.p, st2.log);
    assert base.out + st2.out + [Epoch(e)] == base.out + (st2.out + [Epoch(e)]);
    assert Relog(base.log, st2.snapshots + [sn]) == Relog(base.log, st2.snapshots) + [sn.(log := base.log + sn.log)];
    assert base.snapshots + Relog(base.log, st2.snapshots) + [sn.(log := base.log + sn.log)] ==
           base.snapshots + (Relog(base.log, st2.snapshots) + [sn.(log := base.log + sn.log)]);
  }

  lemma StepAfter(cfg: Config, base: NodeState, st: NodeState, s: NodeId, ev: Event)
    requires s in st.p.watermarks
    ensures Step(cfg, After(base, st), s, ev) == After(base, Step(cfg, st, s, ev))
  {
    var st0 := st.(log := st.log + [Handled(s, ev)]);
    assert base.log + st.log + [Handled(s, ev)] == base.log + (st.log + [Handled(s, ev)]);
    match ev
    case Item(e) => TakeElementAfter(cfg, base, st0, s, e);
    case Watermark(w) => TakeWatermarkAfter(cfg, base, st0, s, w);
    case Epoch(e) => CompleteAfter(cfg, base, st0.(p := st0.p.(blocked := st0.p.blocked + {s})), e);
    case Death(r) => assert base.out + st0.out + [Death(r)] == base.out + (st0.out + [Death(r)]);
  }

  lemma HandleEventAfter(cfg: Config, base: NodeState, st: NodeState, s: NodeId, ev: Event)
    requires s in cfg.channels && Sane(cfg, st)
    ensures HandleEvent(cfg, After(base, st), s, ev) == After(base, HandleEvent(cfg, st, s, ev))
    decreases |st.p.buffer|, 0, 0
  {
    StepAfter(cfg, base, st, s, ev);
    StepFrame(cfg, st, s, ev);
    StepSane(cfg, st, s, ev);
    if Completes(cfg, st, s, ev) && st.p.buffer != [] {
      ReplayAfter(cfg, base, Step(cfg, st, s, ev), st.p.buffer);
    }
  }

  lemma HandleEventsAfter(cfg: Config, base: NodeState, st: NodeState, s: NodeId, events: seq<Event>)
    requires s in cfg.channels && Sane(cfg, st)
    ensures HandleEvents(cfg, After(base, st), s, events) == After(base, HandleEvents(cfg, st, s, events))
    decreases |st.p.buffer|, 1, |events|
  {
    if events != [] {
      HandleEventAfter(cfg, base, st, s, events[0]);
      HandleEventsAfter(cfg, base, HandleEvent(cfg, st, s, events[0]), s, events[1..]);
    }
  }

  lemma ReplayAfter(cfg: Config, base: NodeState, st: NodeState, msgs: seq<Message>)
    requires Sane(cfg, st) && st.p.buffer == []
    requires forall m :: m in msgs ==> m.sender in cfg.channels
    ensures Replay(cfg, After(base, st), msgs) == After(base, Replay(cfg, st, msgs))
    decreases |st.p.buffer|, 2, |msgs|
  {
    if msgs != [] {
      HandleEventsAfter(cfg, base, st, msgs[0].sender, msgs[0].events);
      ReplayAfter(cfg, base, HandleEvents(cfg, st, msgs[0].sender, msgs[0].events), msgs[1..]);
    }
  }

  lemma {:induction false} RunAfter(cfg: Config, base: NodeState, st: NodeState, msgs: seq<Message>)
    requires Sane(cfg, st)
    ensures Run(cfg, After(base, st), msgs) == After(base, Run(cfg, st, msgs))
    decreases |msgs|
  {
    if msgs != [] {
      var m := msgs[|msgs| - 1];
      RunAfter(cfg, base, st, msgs[..|msgs| - 1]);
      var mid := Run(cfg, st, msgs[..|msgs| - 1]);
      if m.sender in cfg.channels && m.sender !in mid.p.blocked {
        HandleEventsAfter(cfg, base, mid, m.sender, m.events);
      }
    }
  }

  // ----- restarting from a checkpoint -----

  /**
   A node built on what is stored of a state in sync is that state again: nothing is
   overwritten, no timeout has expired, and the rebuilt wheel is the lost one.
   */
  lemma NewRebuilds(cfg: Config, st: NodeState)
    requires TimerInSync(st) && forall c :: c in cfg.channels ==> c in st.p.watermarks
    ensures New(cfg, StoreOf(st.p)) == Some(Bare(st))
  {
    var s := StoreOf(st.p);
    forall t | t in s.timeouts ensures t.Deadline() > st.p.now {
      var i :| 0 <= i < |st.p.timeouts| && st.p.timeouts[i] == t;
      assert st.p.timeouts[i].Deadline() == st.p.now + st.wheel[i];
    }
    var r := New(cfg, s).value;
    assert s.watermarks.Keys + (set c | c in cfg.channels) == s.watermarks.Keys;
    assert r.p.watermarks == st.p.watermarks;
    assert r.wheel == st.wheel;
  }

  /**
   In any run, at the step that completes an epoch: restarting from the checkpoint
   just written leads to the state the node itself reaches after finishing the epoch,
   replay included, with the same output, and only the earlier history missing. The replay
   completes no further epoch, by `ReplayCompletesNothing`.
   */
  lemma RestoreEqualsContinue(cfg: Config, st: NodeState, s: NodeId, ev: Event)
    requires s in cfg.channels && Inv(cfg, st) && Completes(cfg, st, s, ev)
    ensures var saved := Step(cfg, st, s, ev);
      && |saved.snapshots| == |st.snapshots| + 1
      && var sn := saved.snapshots[|st.snapshots|];
      && (forall m :: m in sn.state.buffer ==> m.sender in cfg.channels)
      && Restart(cfg, StoreOf(sn.state)).Some?
      && HandleEvent(cfg, st, s, ev) == After(saved, Restart(cfg, StoreOf(sn.state)).value)
  {
    var saved := Step(cfg, st, s, ev);
    StepFrame(cfg, st, s, ev);
    StepInv(cfg, st, s, ev);
    var sn := saved.snapshots[|st.snapshots|];
    var full := saved.(p := sn.state);
    NewRebuilds(cfg, full);
    assert Bare(full).(p := Bare(full).p.(blocked := {}, buffer := [])) == Bare(saved);
    BareAfter(saved);
    ReplayAfter(cfg, saved, Bare(saved), st.p.buffer);
  }

  /** From there on the two nodes answer every further message alike. */
  lemma RestoredRunsOn(cfg: Config, st: NodeState, s: NodeId, ev: Event, restored: NodeState, more: seq<Message>)
    requires s in cfg.channels && Inv(cfg, st) && Completes(cfg, st, s, ev) && Sane(cfg, restored)
    requires HandleEvent(cfg, st, s, ev) == After(Step(cfg, st, s, ev), restored)
    ensures var original := Run(cfg, HandleEvent(cfg, st, s, ev), more); var copy := Run(cfg, restored, more);
      && original.p == copy.p && original.wheel == copy.wheel
      && original.out == Step(cfg, st, s, ev).out + copy.out
      && original.late == Step(cfg, st, s, ev).late + copy.late
      && original.calls == Step(cfg, st, s, ev).calls + copy.calls
  {
    RunAfter(cfg, Step(cfg, st, s, ev), restored, more);
  }

  // ----- whole runs -----

  lemma {:induction false} RunConcat(cfg: Config, st: NodeState, a: seq<Message>, b: seq<Message>)
    requires Sane(cfg, st)
    ensures Run(cfg, st, a + b) == Run(cfg, Run(cfg, st, a), b)
    decreases |b|
  {
    var s := a + b;
    if b == [] {
      assert s == a;
    } else {
      var n := |b| - 1;
      assert s[..|s| - 1] == a + b[..n] && s[|s| - 1] == b[n];
      RunConcat(cfg, st, a, b[..n]);
    }
  }

  /** A run only ever adds checkpoints. */
  lemma {:induction false} RunKeepsCheckpoints(cfg: Config, st: NodeState, msgs: seq<Message>)
    requires Inv(cfg, st) && forall m :: m in msgs ==> ControlLast(m.events)
    ensures st.snapshots <= Run(cfg, st, msgs).snapshots
    decreases |msgs|
  {
    if msgs != [] {
      var front, m := msgs[..|msgs| - 1], msgs[|msgs| - 1];
      var mid := Run(cfg, st, front);
      RunKeepsCheckpoints(cfg, st, front);
      RunKeepsInv(cfg, st, front);
      if HandleMessage(cfg, mid, m).snapshots != mid.snapshots {
        var at, ev := CompletingMessage(cfg, mid, m);
        var sn := OneCheckpointAMessage(cfg, mid, m, at, ev);
      }
    }
  }

  /** It is message n of the run that writes checkpoint i. */
  ghost predicate Writes(cfg: Config, st: NodeState, msgs: seq<Message>, n: nat, i: nat)
    requires Sane(cfg, st)
  {
    n < |msgs| && |Run(cfg, st, msgs[..n]).snapshots| == i < |Run(cfg, st, msgs[..n + 1]).snapshots|
  }

  lemma WritesLater(cfg: Config, st: NodeState, front: seq<Message>, msgs: seq<Message>, n: nat, i: nat)
    requires Sane(cfg, st) && Writes(cfg, st, front, n, i) && front <= msgs
    ensures Writes(cfg, st, msgs, n, i)
  {
    assert front[..n] == msgs[..n] && front[..n + 1] == msgs[..n + 1];
  }

  lemma WritesNow(cfg: Config, st: NodeState, msgs: seq<Message>, i: nat)
    requires Sane(cfg, st) && msgs != []
    requires |Run(cfg, st, msgs[..|msgs| - 1]).snapshots| == i < |Run(cfg, st, msgs).snapshots|
    ensures Writes(cfg, st, msgs, |msgs| - 1, i)
  {
    assert msgs[..|msgs|] == msgs;
  }

  lemma OneAtMost(cfg: Config, st: NodeState, m: Message)
    requires Inv(cfg, st) && ControlLast(m.events)
    ensures |st.snapshots| <= |HandleMessage(cfg, st, m).snapshots| <= |st.snapshots| + 1
  {
    if HandleMessage(cfg, st, m).snapshots != st.snapshots {
      var at, ev := CompletingMessage(cfg, st, m);
      var sn := OneCheckpointAMessage(cfg, st, m, at, ev);
    }
  }

  lemma {:induction false} CheckpointMessage(cfg: Config, st: NodeState, msgs: seq<Message>, i: nat) returns (n: nat)
    requires Inv(cfg, st) && forall m :: m in msgs ==> ControlLast(m.events)
    requires |st.snapshots| <= i < |Run(cfg, st, msgs).snapshots|
    ensures Writes(cfg, st, msgs, n, i)
    decreases |msgs|
  {
    var front := msgs[..|msgs| - 1];
    RunKeepsInv(cfg, st, front);
    OneAtMost(cfg, Run(cfg, st, front), msgs[|msgs| - 1]);
    if i < |Run(cfg, st, front).snapshots| {
      n := CheckpointMessage(cfg, st, front, i);
      WritesLater(cfg, st, front, msgs, n, i);
    } else {
      n := |front|;
      WritesNow(cfg, st, msgs, i);
    }
  }

  /** A node restarted from the checkpoint a message has written stands where the message leaves the original. */
  lemma RestoredAtMessage(cfg: Config, st: NodeState, m: Message) returns (base: NodeState, restored: NodeState)
    requires Inv(cfg, st) && ControlLast(m.events) && HandleMessage(cfg, st, m).snapshots != st.snapshots
    ensures var r := HandleMessage(cfg, st, m);
      && |r.snapshots| == |st.snapshots| + 1
      && var sn := r.snapshots[|st.snapshots|];
      && (forall x :: x in sn.state.buffer ==> x.sender in cfg.channels)
      && Restart(cfg, StoreOf(sn.state)) == Some(restored) && Sane(cfg, restored)
      && r == After(base, restored)
  {
    var mid, ev := CompletingMessage(cfg, st, m);
    RestoreEqualsContinue(cfg, mid, m.sender, ev);
    ReplayCompletesNothing(cfg, mid, m.sender, ev);
    base := Step(cfg, mid, m.sender, ev);
    restored := Restart(cfg, StoreOf(base.snapshots[|mid.snapshots|].state)).value;
    RestartIsSane(cfg, StoreOf(base.snapshots[|mid.snapshots|].state));
  }

  lemma RestartIsSane(cfg: Config, s: Stored)
    requires forall m :: m in s.buffer ==> m.sender in cfg.channels
    requires Restart(cfg, s).Some?
    ensures Sane(cfg, Restart(cfg, s).value)
  {
    NewIsSane(cfg, s);
  }

  /**
   Every checkpoint of a run, restored and fed the messages that came after the one that
   wrote it, ends where the original run ends: the same persisted state and wheel, and
   together the same output and the same dropped elements.
   */
  lemma RestoredRunEnds(cfg: Config, st: NodeState, msgs: seq<Message>, i: nat)
    returns (n: nat, base: NodeState, restored: NodeState)
    requires Inv(cfg, st) && forall m :: m in msgs ==> ControlLast(m.events)
    requires |st.snapshots| <= i < |Run(cfg, st, msgs).snapshots|
    ensures Writes(cfg, st, msgs, n, i)
    ensures var original := Run(cfg, st, msgs);
      && var sn := original.snapshots[i];
      && (forall m :: m in sn.state.buffer ==> m.sender in cfg.channels)
      && Restart(cfg, StoreOf(sn.state)) == Some(restored) && Sane(cfg, restored)
      && var copy := Run(cfg, restored, msgs[n + 1..]);
      && original.p == copy.p && original.wheel == copy.wheel
      && original.out == base.out + copy.out && original.late == base.late + copy.late
      && original.calls == base.calls + copy.calls
  {
    n := CheckpointMessage(cfg, st, msgs, i);
    var upto, rest := msgs[..n + 1], msgs[n + 1..];
    var before, after := Run(cfg, st, msgs[..n]), Run(cfg, st, upto);
    assert upto[..n] == msgs[..n] && upto[n] == msgs[n];
    RunKeepsInv(cfg, st, msgs[..n]);
    base, restored := RestoredAtMessage(cfg, before, msgs[n]);
    RunKeepsInv(cfg, st, upto);
    RunKeepsCheckpoints(cfg, after, rest);
    FedTheRest(cfg, st, msgs, n, base, restored);
  }

  lemma FedTheRest(cfg: Config, st: NodeState, msgs: seq<Message>, n: nat, base: NodeState, restored: NodeState)
    requires Sane(cfg, st) && Sane(cfg, restored) && n < |msgs| && Run(cfg, st, msgs[..n + 1]) == After(base, restored)
    ensures Run(cfg, st, msgs) == Run(cfg, Run(cfg, st, msgs[..n + 1]), msgs[n + 1..])
    ensures Run(cfg, st, msgs) == After(base, Run(cfg, restored, msgs[n + 1..]))
  {
    assert msgs == msgs[..n + 1] + msgs[n + 1..];
    RunConcat(cfg, st, msgs[..n + 1], msgs[n + 1..]);
    RunAfter(cfg, base, restored, msgs[n + 1..]);
  }
}
