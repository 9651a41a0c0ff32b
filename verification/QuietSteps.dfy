/** What a node does between two checkpoints: handling events that complete no epoch. */
module QuietSteps {
  import opened Streams
  import opened NodeModel
  import opened NodeInvariants

  ghost predicate Effective(events: seq<Event>, epoch: u64) {
    exists i :: 0 <= i < |events| && events[i].Epoch? && events[i].epoch > epoch
  }

  /** The history of taking `events` of channel `s`. */
  function Tagged(s: NodeId, events: seq<Event>): (r: seq<Handled>)
    ensures |r| == |events| && forall i :: 0 <= i < |events| ==> r[i] == Handled(s, events[i])
  {
    seq(|events|, i requires 0 <= i < |events| => Handled(s, events[i]))
  }

  /** The history of taking `msgs`, one after the other, whoever sent them. */
  function Delivered(msgs: seq<Message>): seq<Handled> {
    if msgs == [] then [] else Tagged(msgs[0].sender, msgs[0].events) + Delivered(msgs[1..])
  }

  /** `r` has taken `events` of channel `s` and nothing else happened. */
  ghost predicate Quiet(st: NodeState, r: NodeState, s: NodeId, events: seq<Event>) {
    && r.log == st.log + Tagged(s, events)
    && (forall c :: Of(r.log, c) == Of(st.log, c) + if c == s then events else [])
    && r.p.buffer == st.p.buffer && r.p.epoch == st.p.epoch && r.snapshots == st.snapshots
    && r.p.blocked == st.p.blocked + if Effective(events, st.p.epoch) then {s} else {}
  }

  lemma OfSnoc(log: seq<Handled>, s: NodeId, ev: Event, c: NodeId)
    ensures Of(log + [Handled(s, ev)], c) == Of(log, c) + if c == s then [ev] else []
  {
    OfConcat(log, [Handled(s, ev)], c);
    assert Of([Handled(s, ev)][1..], c) == [];
  }

  lemma QuietStep(cfg: Config, st: NodeState, s: NodeId, ev: Event)
    requires s in cfg.channels && Sane(cfg, st) && !Completes(cfg, st, s, ev)
    ensures HandleEvent(cfg, st, s, ev) == Step(cfg, st, s, ev)
    ensures Quiet(st, HandleEvent(cfg, st, s, ev), s, [ev])
  {
    StepFrame(cfg, st, s, ev);
    assert Tagged(s, [ev]) == [Handled(s, ev)];
    forall c ensures Of(st.log + [Handled(s, ev)], c) == Of(st.log, c) + (if c == s then [ev] else []) {
      OfSnoc(st.log, s, ev, c);
    }
    assert Effective([ev], st.p.epoch) <==> (ev.Epoch? && ev.epoch > st.p.epoch) by {
      if ev.Epoch? && ev.epoch > st.p.epoch { assert [ev][0] == ev; }
    }
  }

  lemma QuietTwice(a: NodeState, b: NodeState, c: NodeState, s: NodeId, e1: seq<Event>, e2: seq<Event>)
    requires Quiet(a, b, s, e1) && Quiet(b, c, s, e2)
    ensures Quiet(a, c, s, e1 + e2)
  {
    assert Tagged(s, e1 + e2) == Tagged(s, e1) + Tagged(s, e2);
    Regroup(a.log, Tagged(s, e1), Tagged(s, e2));
    assert Effective(e1 + e2, a.p.epoch) <==> (Effective(e1, a.p.epoch) || Effective(e2, a.p.epoch)) by {
      if Effective(e1, a.p.epoch) {
        var i :| 0 <= i < |e1| && e1[i].Epoch? && e1[i].epoch > a.p.epoch;
        assert (e1 + e2)[i] == e1[i];
      }
      if Effective(e2, a.p.epoch) {
        var i :| 0 <= i < |e2| && e2[i].Epoch? && e2[i].epoch > a.p.epoch;
        assert (e1 + e2)[|e1| + i] == e2[i];
      }
    }
  }

  /** A channel other than `s` that is not blocked keeps the epoch open. */
  ghost predicate HeldOpen(cfg: Config, st: NodeState, s: NodeId, other: NodeId) {
    other in cfg.channels && other !in st.p.blocked && other != s
  }

  lemma OpenEpochDoesNotComplete(cfg: Config, st: NodeState, s: NodeId, other: NodeId, ev: Event)
    requires s in cfg.channels && HeldOpen(cfg, st, s, other)
    requires Distinct(cfg.channels) && st.p.blocked <= ChannelSet(cfg)
    ensures !Completes(cfg, st, s, ev)
  {
    ElemsSize(cfg.channels);
    SubsetSize(st.p.blocked + {s}, ChannelSet(cfg) - {other});
    SubsetSize(ChannelSet(cfg) - {other}, ChannelSet(cfg));
  }

  /** A batch with no markers, or one taken while another channel is open, completes nothing. */
  lemma {:induction false} QuietEvents(cfg: Config, st: NodeState, s: NodeId, events: seq<Event>, other: NodeId)
    requires s in cfg.channels && Sane(cfg, st)
    requires (forall i :: 0 <= i < |events| ==> !events[i].Epoch?) ||
             (HeldOpen(cfg, st, s, other) && Distinct(cfg.channels) && st.p.blocked <= ChannelSet(cfg))
    ensures Quiet(st, HandleEvents(cfg, st, s, events), s, events)
    decreases |events|
  {
    if events == [] {
      Trim(st.log);
      forall c ensures Of(st.log, c) == Of(st.log, c) + if c == s then events else [] { Trim(Of(st.log, c)); }
    } else {
      if HeldOpen(cfg, st, s, other) && Distinct(cfg.channels) && st.p.blocked <= ChannelSet(cfg) {
        OpenEpochDoesNotComplete(cfg, st, s, other, events[0]);
      } else {
        assert !events[0].Epoch?;
        assert forall i :: 0 <= i < |events| - 1 ==> events[1..][i] == events[i + 1];
      }
      QuietStep(cfg, st, s, events[0]);
      var st1 := HandleEvent(cfg, st, s, events[0]);
      QuietEvents(cfg, st1, s, events[1..], other);
      QuietTwice(st, st1, HandleEvents(cfg, st, s, events), s, [events[0]], events[1..]);
      assert [events[0]] + events[1..] == events;
    }
  }

  /** Replaying a buffer while one channel, with nothing in the buffer, is open. */
  lemma {:induction false} QuietReplay(cfg: Config, st: NodeState, msgs: seq<Message>, open: NodeId)
    requires Sane(cfg, st) && st.p.buffer == [] && Distinct(cfg.channels) && st.p.blocked <= ChannelSet(cfg)
    requires open in cfg.channels && open !in st.p.blocked
    requires forall m :: m in msgs ==> m.sender in cfg.channels && m.sender != open
    ensures var r := Replay(cfg, st, msgs);
      && r.log == st.log + Delivered(msgs)
      && (forall c :: Of(r.log, c) == Of(st.log, c) + From(msgs, c))
      && r.p.epoch == st.p.epoch && r.snapshots == st.snapshots
      && (forall c :: c in r.p.blocked <==> c in st.p.blocked || Effective(From(msgs, c), st.p.epoch))
    decreases |msgs|
  {
    if msgs == [] {
      Trim(st.log);
      forall c ensures Of(st.log, c) == Of(st.log, c) + From(msgs, c) { Trim(Of(st.log, c)); }
    } else {
      var m := msgs[0];
      QuietEvents(cfg, st, m.sender, m.events, open);
      var st1 := HandleEvents(cfg, st, m.sender, m.events);
      QuietReplay(cfg, st1, msgs[1..], open);
      var r := Replay(cfg, st, msgs);
      Regroup(st.log, Tagged(m.sender, m.events), Delivered(msgs[1..]));
      forall c
        ensures Of(r.log, c) == Of(st.log, c) + From(msgs, c)
        ensures c in r.p.blocked <==> c in st.p.blocked || Effective(From(msgs, c), st.p.epoch)
      {
        QuietFirst(msgs, c, Of(st.log, c), Of(st1.log, c), st.p.epoch);
      }
    }
  }

  lemma QuietFirst(msgs: seq<Message>, c: NodeId, h: seq<Event>, h1: seq<Event>, epoch: u64)
    requires msgs != []
    requires var mine := if msgs[0].sender == c then msgs[0].events else []; h1 == h + mine
    ensures h1 + From(msgs[1..], c) == h + From(msgs, c)
    ensures Effective(From(msgs, c), epoch) <==>
      (msgs[0].sender == c && Effective(msgs[0].events, epoch)) || Effective(From(msgs[1..], c), epoch)
  {
    var mine := if msgs[0].sender == c then msgs[0].events else [];
    var rest := From(msgs[1..], c);
    assert From(msgs, c) == mine + rest;
    assert h + mine + rest == h + (mine + rest);
    EffectiveConcat(mine, rest, epoch);
  }

  lemma EffectiveConcat(a: seq<Event>, b: seq<Event>, epoch: u64)
    ensures Effective(a + b, epoch) <==> Effective(a, epoch) || Effective(b, epoch)
  {
    if Effective(a, epoch) {
      var i :| 0 <= i < |a| && a[i].Epoch? && a[i].epoch > epoch;
      assert (a + b)[i] == a[i];
    }
    if Effective(b, epoch) {
      var i :| 0 <= i < |b| && b[i].Epoch? && b[i].epoch > epoch;
      assert (a + b)[|a| + i] == b[i];
    }
  }
}
