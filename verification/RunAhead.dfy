/** A run in which one channel runs ahead of another, and a checkpoint that is not aligned. */
module RunAhead {
  import opened Streams
  import opened NodeModel
  import opened NodeInvariants
  import opened EpochMarkers
  import opened QuietSteps
  import opened Completions
  import opened EpochProgress
  import opened AlignedSnapshots

  lemma OneEvent(cfg: Config, st: NodeState, s: NodeId, ev: Event)
    requires Sane(cfg, st) && s in cfg.channels && s !in st.p.blocked
    ensures HandleMessage(cfg, st, Message(s, [ev])) == HandleEvent(cfg, st, s, ev)
  {
    EventsConcat(cfg, st, s, [], [ev]);
    assert [ev][1..] == [];
  }

  /** Channel 1 runs ahead of channel 2 by a marker and an element. */
  function AheadMessages(x: Element): seq<Message> {
    [Message(1, [Epoch(1)]), Message(1, [Epoch(2)]), Message(1, [Item(x)]), Message(2, [Epoch(1)]), Message(2, [Epoch(2)])]
  }

  lemma RunPrefix(cfg: Config, st: NodeState, msgs: seq<Message>, k: nat)
    requires Sane(cfg, st) && k < |msgs|
    ensures Run(cfg, st, msgs[..k + 1]) == HandleMessage(cfg, Run(cfg, st, msgs[..k]), msgs[k])
  {
    assert msgs[..k + 1][..k] == msgs[..k];
  }

  lemma AheadOne(cfg: Config, st: NodeState)
    requires cfg.channels == [1, 2] && Inv(cfg, st) && st.p.blocked == {} && st.p.epoch == 0
    ensures var r := HandleMessage(cfg, st, Message(1, [Epoch(1)]));
      r.p.blocked == {1} && r.p.epoch == 0 && r.p.buffer == st.p.buffer && r.snapshots == st.snapshots
  {
    OneEvent(cfg, st, 1, Epoch(1));
    QuietStep(cfg, st, 1, Epoch(1));
    assert [Epoch(1)][0].Epoch?;
  }

  lemma AheadBuffer(x: Element, c: NodeId)
    ensures From([Message(1, [Epoch(2)]), Message(1, [Item(x)])], c) == if c == 1 then [Epoch(2), Item(x)] else []
  {
    var a, b := Message(1, [Epoch(2)]), Message(1, [Item(x)]);
    FromConcat([a], [b], c);
    FromOne(a, c);
    FromOne(b, c);
    assert [a, b] == [a] + [b];
  }

  lemma AheadReplayed(cfg: Config, st: NodeState, x: Element)
    requires cfg.channels == [1, 2] && Sane(cfg, st)
    requires st.p.blocked == {} && st.p.epoch == 1 && st.p.buffer == []
    ensures var buffer := [Message(1, [Epoch(2)]), Message(1, [Item(x)])];
      && Replay(cfg, st, buffer).p.blocked == {1}
      && Replay(cfg, st, buffer).snapshots == st.snapshots && Replay(cfg, st, buffer).p.epoch == 1
      && !Clean(cfg, buffer)
  {
    var buffer := [Message(1, [Epoch(2)]), Message(1, [Item(x)])];
    AheadEffective(x, buffer);
    AheadBlocks(cfg, st, buffer);
    assert From(buffer, 1)[0] == Epoch(2);
  }

  lemma AheadBlocks(cfg: Config, st: NodeState, buffer: seq<Message>)
    requires cfg.channels == [1, 2] && Sane(cfg, st)
    requires st.p.blocked == {} && st.p.epoch == 1 && st.p.buffer == []
    requires (forall m :: m in buffer ==> m.sender == 1) && forall c :: Effective(From(buffer, c), 1) <==> c == 1
    ensures var r := Replay(cfg, st, buffer); r.p.blocked == {1} && r.snapshots == st.snapshots && r.p.epoch == 1
  {
    QuietReplay(cfg, st, buffer, 2);
    assert forall c :: c in Replay(cfg, st, buffer).p.blocked <==> c == 1;
  }

  lemma AheadEffective(x: Element, buffer: seq<Message>)
    requires buffer == [Message(1, [Epoch(2)]), Message(1, [Item(x)])]
    ensures forall c :: From(buffer, c) == if c == 1 then [Epoch(2), Item(x)] else []
    ensures forall c :: Effective(From(buffer, c), 1) <==> c == 1
  {
    forall c ensures From(buffer, c) == if c == 1 then [Epoch(2), Item(x)] else [] {
      AheadBuffer(x, c);
    }
    assert [Epoch(2), Item(x)][0] == Epoch(2);
  }

  lemma AheadFour(cfg: Config, st: NodeState, x: Element)
    requires cfg.channels == [1, 2] && Sane(cfg, st)
    requires st.p.blocked == {1} && st.p.epoch == 0 && st.snapshots == []
    requires st.p.buffer == [Message(1, [Epoch(2)]), Message(1, [Item(x)])]
    ensures var r := HandleMessage(cfg, st, Message(2, [Epoch(1)]));
      && r.p.blocked == {1} && r.p.epoch == 1 && |r.snapshots| == 1
      && !Clean(cfg, r.snapshots[0].state.buffer)
  {
    OneEvent(cfg, st, 2, Epoch(1));
    StepFrame(cfg, st, 2, Epoch(1));
    StepSane(cfg, st, 2, Epoch(1));
    assert |{1} + {2}| == 2;
    AheadReplayed(cfg, Step(cfg, st, 2, Epoch(1)), x);
  }

  lemma AheadFive(cfg: Config, st: NodeState)
    requires cfg.channels == [1, 2] && Inv(cfg, st) && st.p.blocked == {1} && st.p.epoch == 1 && |st.snapshots| == 1
    ensures var r := HandleMessage(cfg, st, Message(2, [Epoch(2)]));
      |r.snapshots| >= 2 && r.snapshots[0] == st.snapshots[0]
  {
    OneEvent(cfg, st, 2, Epoch(2));
    assert |{1} + {2}| == 2;
    CompletionGrowsSnapshots(cfg, st, 2, Epoch(2));
  }

  lemma AheadMarkers(cfg: Config, x: Element)
    requires cfg.channels == [1, 2]
    ensures InEpochOrder(cfg, AheadMessages(x), [1, 2])
  {
    AheadStreams(x);
    MarkersOne(Epoch(1)); MarkersOne(Epoch(2)); MarkersOne(Item(x));
    MarkersConcat([Epoch(2)], [Item(x)]);
    MarkersConcat([Epoch(1)], [Epoch(2)] + [Item(x)]);
    MarkersConcat([Epoch(1)], [Epoch(2)]);
  }

  lemma AheadStreams(x: Element)
    ensures From(AheadMessages(x), 1) == [Epoch(1)] + ([Epoch(2)] + [Item(x)])
    ensures From(AheadMessages(x), 2) == [Epoch(1)] + [Epoch(2)]
  {
    var ms := AheadMessages(x);
    var a, b := ms[..3], ms[3..];
    assert ms == a + b;
    assert From(a, 1) == [Epoch(1)] + ([Epoch(2)] + [Item(x)]) by { assert a[1..][1..] == [ms[2]]; FromOne(ms[2], 1); }
    assert From(b, 2) == [Epoch(1)] + [Epoch(2)] by { assert b[1..] == [ms[4]]; FromOne(ms[4], 2); }
    FromNobody(b, 1);
    FromNobody(a, 2);
    FromConcat(a, b, 1);
    FromConcat(a, b, 2);
    Trim(From(a, 1)); Trim(From(b, 2));
  }

  lemma AheadThree(cfg: Config, st: NodeState, x: Element)
    requires cfg.channels == [1, 2] && Inv(cfg, st)
    requires st.p.blocked == {} && st.p.epoch == 0 && st.p.buffer == [] && st.snapshots == []
    ensures var ms := AheadMessages(x);
      var r := HandleMessage(cfg, HandleMessage(cfg, HandleMessage(cfg, st, ms[0]), ms[1]), ms[2]);
      Inv(cfg, r) && r.p.blocked == {1} && r.p.epoch == 0 && r.p.buffer == [ms[1], ms[2]] && r.snapshots == []
  {
    var ms := AheadMessages(x);
    AheadOne(cfg, st);
    MessageKeepsInv(cfg, st, ms[0]);
    var r1 := HandleMessage(cfg, st, ms[0]);
    MessageKeepsInv(cfg, r1, ms[1]);
    MessageKeepsInv(cfg, HandleMessage(cfg, r1, ms[1]), ms[2]);
  }

  lemma AheadSnapshots(cfg: Config, st: NodeState, x: Element)
    requires cfg.channels == [1, 2] && Inv(cfg, st)
    requires st.p.blocked == {1} && st.p.epoch == 0 && st.snapshots == []
    requires st.p.buffer == [Message(1, [Epoch(2)]), Message(1, [Item(x)])]
    ensures var sns := HandleMessage(cfg, HandleMessage(cfg, st, Message(2, [Epoch(1)])), Message(2, [Epoch(2)])).snapshots;
      |sns| >= 2 && !Clean(cfg, sns[0].state.buffer)
  {
    AheadFour(cfg, st, x);
    MessageKeepsInv(cfg, st, Message(2, [Epoch(1)]));
    AheadFive(cfg, HandleMessage(cfg, st, Message(2, [Epoch(1)])));
  }

  lemma AheadRun(cfg: Config, st: NodeState, x: Element)
    requires cfg.channels == [1, 2] && Inv(cfg, st)
    requires st.p.blocked == {} && st.p.epoch == 0 && st.p.buffer == [] && st.snapshots == []
    ensures |Run(cfg, st, AheadMessages(x)).snapshots| >= 2
    ensures !Clean(cfg, Run(cfg, st, AheadMessages(x)).snapshots[0].state.buffer)
  {
    var ms := AheadMessages(x);
    AheadThree(cfg, st, x);
    var r := HandleMessage(cfg, HandleMessage(cfg, HandleMessage(cfg, st, ms[0]), ms[1]), ms[2]);
    AheadSnapshots(cfg, r, x);
    forall k: nat | k < 5 ensures Run(cfg, st, ms[..k + 1]) == HandleMessage(cfg, Run(cfg, st, ms[..k]), ms[k]) {
      RunPrefix(cfg, st, ms, k);
    }
    assert ms[..5] == ms;
  }

  lemma UncleanMeansMisaligned(cfg: Config, op: OpState, msgs: seq<Message>, epochs: seq<u64>, sns: seq<Snapshot>)
    requires cfg.channels != [] && Distinct(cfg.channels) && Rising(epochs)
    requires (forall m :: m in msgs ==> ControlLast(m.events)) && InEpochOrder(cfg, msgs, epochs)
    requires sns == Run(cfg, FreshNode(cfg, op), msgs).snapshots
    requires |sns| >= 2 && !Clean(cfg, sns[0].state.buffer)
    ensures !AllAligned(cfg, sns)
  {
    AlignedIffClean(cfg, op, msgs, epochs, sns);
  }

  lemma AheadShape(x: Element)
    ensures forall m :: m in AheadMessages(x) ==> ControlLast(m.events)
    ensures Distinct<u32>([1, 2]) && Rising([1, 2])
  {
  }

  /** Whatever the operator and the element are, some checkpoint of that run is not aligned. */
  lemma RunAheadIsMisaligned(cfg: Config, s: OpState, x: Element, msgs: seq<Message>)
    requires cfg.channels == [1, 2] && msgs == AheadMessages(x)
    ensures !AllAligned(cfg, Run(cfg, FreshNode(cfg, s), msgs).snapshots)
  {
    AheadRun(cfg, FreshNode(cfg, s), x);
    AheadMarkers(cfg, x);
    AheadShape(x);
    UncleanMeansMisaligned(cfg, s, msgs, [1, 2], Run(cfg, FreshNode(cfg, s), msgs).snapshots);
  }
}
