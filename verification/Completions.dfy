/** How a message completes an epoch: with the last event of its batch, and one epoch at most. */
module Completions {
  import opened Streams
  import opened NodeModel
  import opened NodeInvariants
  import opened QuietSteps

  lemma {:induction false} EventsConcat(cfg: Config, st: NodeState, s: NodeId, a: seq<Event>, b: seq<Event>)
    requires s in cfg.channels && Sane(cfg, st)
    ensures HandleEvents(cfg, st, s, a + b) == HandleEvents(cfg, HandleEvents(cfg, st, s, a), s, b)
    decreases |a|
  {
    if a == [] {
      assert a + b == b;
    } else {
      assert (a + b)[1..] == a[1..] + b;
      EventsConcat(cfg, HandleEvent(cfg, st, s, a[0]), s, a[1..], b);
    }
  }

  lemma BatchSplit(cfg: Config, st: NodeState, s: NodeId, pre: seq<Event>, ev: Event)
    requires s in cfg.channels && Sane(cfg, st)
    ensures HandleEvents(cfg, st, s, pre + [ev]) == HandleEvent(cfg, HandleEvents(cfg, st, s, pre), s, ev)
  {
    EventsConcat(cfg, st, s, pre, [ev]);
  }

  lemma FrontKeepsInv(cfg: Config, st: NodeState, s: NodeId, pre: seq<Event>)
    requires s in cfg.channels && s !in st.p.blocked && Inv(cfg, st)
    ensures Inv(cfg, HandleEvents(cfg, st, s, pre))
  {
    var tr := FlatEvents(cfg, st, s, pre);
    StepsInv(cfg, st, tr);
  }

  /**
   The replay after a checkpoint completes no further epoch: the channel that completed
   this one has nothing in the buffer, and so keeps the next one open.
   */
  lemma ReplayCompletesNothing(cfg: Config, st: NodeState, s: NodeId, ev: Event)
    requires s in cfg.channels && Inv(cfg, st) && Completes(cfg, st, s, ev)
    ensures Distinct(cfg.channels) && s !in st.p.blocked
    ensures var r := HandleEvent(cfg, st, s, ev);
      && r.snapshots == Step(cfg, st, s, ev).snapshots && r.p.epoch == ev.epoch
      && r.log == Step(cfg, st, s, ev).log + Delivered(st.p.buffer)
      && (forall c :: Of(r.log, c) == Of(Step(cfg, st, s, ev).log, c) + From(st.p.buffer, c))
  {
    if !Distinct(cfg.channels) { DuplicateChannelNeverCompletes(cfg, st, s, ev); }
    assert s in st.p.blocked ==> st.p.blocked + {s} == st.p.blocked;
    var saved := Step(cfg, st, s, ev);
    StepFrame(cfg, st, s, ev);
    StepSane(cfg, st, s, ev);
    QuietReplay(cfg, saved, st.p.buffer, s);
  }

  /** `m` makes a node in state `st` write a checkpoint: up to its last event, `mid` is reached. */
  ghost predicate CompletesAt(cfg: Config, st: NodeState, m: Message, mid: NodeState, ev: Event)
    requires Sane(cfg, st)
  {
    && m.sender in cfg.channels && m.sender !in st.p.blocked
    && Sane(cfg, mid) && m.events != [] && ev == m.events[|m.events| - 1]
    && Inv(cfg, mid) && Quiet(st, mid, m.sender, m.events[..|m.events| - 1]) && mid.p.blocked == st.p.blocked
    && Completes(cfg, mid, m.sender, ev)
    && HandleMessage(cfg, st, m) == HandleEvent(cfg, mid, m.sender, ev)
  }

  lemma CompletingMessage(cfg: Config, st: NodeState, m: Message) returns (mid: NodeState, ev: Event)
    requires Inv(cfg, st) && ControlLast(m.events) && HandleMessage(cfg, st, m).snapshots != st.snapshots
    ensures CompletesAt(cfg, st, m, mid, ev)
  {
    var n := |m.events| - 1;
    var front := m.events[..n];
    ev := m.events[n];
    assert m.events == front + [ev];
    BatchSplit(cfg, st, m.sender, front, ev);
    FrontKeepsInv(cfg, st, m.sender, front);
    QuietEvents(cfg, st, m.sender, front, m.sender);
    mid := HandleEvents(cfg, st, m.sender, front);
    if !Completes(cfg, mid, m.sender, ev) { QuietStep(cfg, mid, m.sender, ev); }
  }

  /** Such a message adds one checkpoint; what it absorbed and what it holds back is all that was delivered. */
  lemma OneCheckpointAMessage(cfg: Config, st: NodeState, m: Message, mid: NodeState, ev: Event) returns (sn: Snapshot)
    requires Inv(cfg, st) && CompletesAt(cfg, st, m, mid, ev)
    ensures Distinct(cfg.channels) && HandleMessage(cfg, st, m).snapshots == st.snapshots + [sn]
    ensures HandleMessage(cfg, st, m).p.epoch == ev.epoch == sn.state.epoch
    ensures forall c :: c in cfg.channels ==>
      Of(sn.log, c) + From(sn.state.buffer, c) == Of(st.log, c) + From(st.p.buffer, c) + From([m], c)
  {
    var s := m.sender;
    var saved := Step(cfg, mid, s, ev);
    ReplayCompletesNothing(cfg, mid, s, ev);
    StepFrame(cfg, mid, s, ev);
    sn := saved.snapshots[|st.snapshots|];
    assert saved.snapshots == st.snapshots + [sn];
    forall c | c in cfg.channels
      ensures Of(sn.log, c) + From(sn.state.buffer, c) == Of(st.log, c) + From(st.p.buffer, c) + From([m], c)
    {
      FromOne(m, c);
      OfSnoc(mid.log, s, ev, c);
      CheckpointHolds(st, mid, m, ev, c);
    }
  }

  lemma CheckpointHolds(st: NodeState, mid: NodeState, m: Message, ev: Event, c: NodeId)
    requires m.events != [] && ev == m.events[|m.events| - 1] && Quiet(st, mid, m.sender, m.events[..|m.events| - 1])
    requires forall x :: x in st.p.buffer ==> x.sender != m.sender
    ensures Of(mid.log, c) + (if c == m.sender then [ev] else []) + From(mid.p.buffer, c) ==
      Of(st.log, c) + From(st.p.buffer, c) + if c == m.sender then m.events else []
  {
    var front := m.events[..|m.events| - 1];
    if c == m.sender {
      FromNobody(st.p.buffer, c);
      assert m.events == front + [ev];
      Regroup(Of(st.log, c), front, [ev]);
      Trim(Of(st.log, c) + m.events);
      Trim(Of(st.log, c));
    } else {
      Trim(Of(st.log, c));
      Trim(Of(st.log, c) + From(st.p.buffer, c));
    }
  }

  /**
   The order across channels: a message that is not held back is taken at once and in
   order, and if it completes an epoch the messages held back follow, in the order in
   which they came, whoever sent them.
   */
  lemma TakenInOrder(cfg: Config, st: NodeState, m: Message)
    requires Inv(cfg, st) && ControlLast(m.events) && m.sender in cfg.channels && m.sender !in st.p.blocked
    ensures var r := HandleMessage(cfg, st, m);
      r.log == st.log + Tagged(m.sender, m.events) + if r.snapshots != st.snapshots then Delivered(st.p.buffer) else []
  {
    var r := HandleMessage(cfg, st, m);
    if r.snapshots != st.snapshots {
      var mid, ev := CompletingMessage(cfg, st, m);
      CompletedInOrder(cfg, st, m, mid, ev);
    } else {
      UncompletingMessage(cfg, st, m);
      Trim(st.log + Tagged(m.sender, m.events));
    }
  }

  lemma CompletedInOrder(cfg: Config, st: NodeState, m: Message, mid: NodeState, ev: Event)
    requires Inv(cfg, st) && CompletesAt(cfg, st, m, mid, ev)
    ensures HandleMessage(cfg, st, m).log == st.log + Tagged(m.sender, m.events) + Delivered(st.p.buffer)
  {
    var front := m.events[..|m.events| - 1];
    ReplayCompletesNothing(cfg, mid, m.sender, ev);
    StepFrame(cfg, mid, m.sender, ev);
    TaggedSnoc(m.sender, m.events);
    Regroup(st.log, Tagged(m.sender, front), [Handled(m.sender, ev)]);
  }

  lemma TaggedSnoc(s: NodeId, events: seq<Event>)
    requires events != []
    ensures Tagged(s, events) == Tagged(s, events[..|events| - 1]) + [Handled(s, events[|events| - 1])]
  {
  }

  lemma UncompletingMessage(cfg: Config, st: NodeState, m: Message)
    requires Inv(cfg, st) && ControlLast(m.events) && m.sender in cfg.channels && m.sender !in st.p.blocked
    requires HandleMessage(cfg, st, m).snapshots == st.snapshots
    ensures Quiet(st, HandleMessage(cfg, st, m), m.sender, m.events)
  {
    if m.events == [] {
      QuietEvents(cfg, st, m.sender, m.events, m.sender);
    } else {
      var n := |m.events| - 1;
      var front, ev := m.events[..n], m.events[n];
      assert m.events == front + [ev];
      BatchSplit(cfg, st, m.sender, front, ev);
      FrontKeepsInv(cfg, st, m.sender, front);
      QuietEvents(cfg, st, m.sender, front, m.sender);
      var mid := HandleEvents(cfg, st, m.sender, front);
      if Completes(cfg, mid, m.sender, ev) {
        ReplayCompletesNothing(cfg, mid, m.sender, ev);
        StepFrame(cfg, mid, m.sender, ev);
        assert false;
      }
      QuietStep(cfg, mid, m.sender, ev);
      QuietTwice(st, mid, HandleMessage(cfg, st, m), m.sender, front, [ev]);
    }
  }
}
