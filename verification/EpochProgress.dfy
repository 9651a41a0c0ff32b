/**
 How far every channel has got, between any two checkpoints of a run: how many markers it
 has passed, and whether a blocked channel has stopped right at its marker.
 */
module EpochProgress {
  import opened Streams
  import opened NodeModel
  import opened NodeInvariants
  import opened EpochMarkers
  import opened QuietSteps
  import opened Completions

  ghost predicate Aligned(cfg: Config, sn: Snapshot) {
    forall c :: c in cfg.channels ==> Cut(Of(sn.log, c), sn.state.epoch)
  }

  /** No channel has delivered anything past the next marker it delivered. */
  ghost predicate Clean(cfg: Config, buffer: seq<Message>) {
    forall c :: c in cfg.channels ==> NothingPastMarker(From(buffer, c))
  }

  /** Every channel delivers the markers `epochs`, as far as it has got. */
  ghost predicate InEpochOrder(cfg: Config, msgs: seq<Message>, epochs: seq<u64>) {
    forall c :: c in cfg.channels ==> Markers(From(msgs, c)) <= epochs
  }

  /**
   With k checkpoints taken, an open channel has handled exactly k markers and a
   blocked one at least one more.
   */
  ghost predicate Phase(cfg: Config, st: NodeState, epochs: seq<u64>) {
    var k := |st.snapshots|;
    && k <= |epochs|
    && st.p.epoch == (if k == 0 then 0 else epochs[k - 1])
    && (forall c :: c in cfg.channels ==>
          var ms := Markers(Of(st.log, c));
          ms <= epochs && (if c in st.p.blocked then |ms| >= k + 1 else |ms| == k))
  }

  /** Every blocked channel has stopped right at its marker. */
  ghost predicate Tight(cfg: Config, st: NodeState, epochs: seq<u64>) {
    forall c :: c in cfg.channels && c in st.p.blocked ==>
      |st.snapshots| < |epochs| && Cut(Of(st.log, c), epochs[|st.snapshots|])
  }

  ghost predicate CleanBefore(cfg: Config, sns: seq<Snapshot>, n: int) {
    forall i :: 0 <= i < n && i < |sns| ==> Clean(cfg, sns[i].state.buffer)
  }

  ghost predicate AllAligned(cfg: Config, sns: seq<Snapshot>) {
    forall i :: 0 <= i < |sns| ==> Aligned(cfg, sns[i])
  }

  ghost predicate Progress(cfg: Config, st: NodeState, epochs: seq<u64>) {
    var n := |st.snapshots|;
    if CleanBefore(cfg, st.snapshots, n - 1)
    then AllAligned(cfg, st.snapshots) && Phase(cfg, st, epochs) && (Tight(cfg, st, epochs) <==> CleanBefore(cfg, st.snapshots, n))
    else !AllAligned(cfg, st.snapshots)
  }

  lemma QuietElsewhere(st: NodeState, r: NodeState, s: NodeId, events: seq<Event>, c: NodeId)
    requires Quiet(st, r, s, events) && c != s
    ensures Of(r.log, c) == Of(st.log, c) && (c in r.p.blocked <==> c in st.p.blocked)
  {
    Trim(Of(st.log, c));
  }

  /** The channel that moved: it is now blocked if and only if it reached its marker. */
  lemma QuietAtSender(cfg: Config, st: NodeState, r: NodeState, s: NodeId, events: seq<Event>, epochs: seq<u64>)
    requires s in cfg.channels && s !in st.p.blocked && Rising(epochs)
    requires Phase(cfg, st, epochs) && Quiet(st, r, s, events) && NothingPastMarker(events)
    requires Markers(Of(r.log, s)) <= epochs
    ensures var k := |st.snapshots|;
      if s in r.p.blocked then k < |epochs| && |Markers(Of(r.log, s))| >= k + 1 && Cut(Of(r.log, s), epochs[k])
      else |Markers(Of(r.log, s))| == k
  {
    var k := |st.snapshots|;
    var h := Of(st.log, s);
    assert Of(r.log, s) == h + events;
    MarkersConcat(h, events);
    NoMarkers(events);
    if Markers(events) == [] {
      assert !Effective(events, st.p.epoch);
      Trim(Markers(h));
    } else {
      var i := FirstMarker(events);
      assert Markers(events)[0] == (Markers(h) + Markers(events))[k] == epochs[k];
      assert events[i].epoch > st.p.epoch;
      assert Effective(events, st.p.epoch);
      CutAfterReplay(h, events, epochs, k);
    }
  }

  /** Taking events that complete nothing: the phase is kept, and so is tightness either way. */
  lemma QuietKeepsPhase(cfg: Config, st: NodeState, r: NodeState, s: NodeId, events: seq<Event>, epochs: seq<u64>)
    requires s in cfg.channels && s !in st.p.blocked && Rising(epochs)
    requires Phase(cfg, st, epochs) && Quiet(st, r, s, events) && NothingPastMarker(events)
    requires Markers(Of(r.log, s)) <= epochs
    ensures Phase(cfg, r, epochs) && (Tight(cfg, st, epochs) <==> Tight(cfg, r, epochs))
  {
    QuietAtSender(cfg, st, r, s, events, epochs);
    forall c | c != s ensures Of(r.log, c) == Of(st.log, c) && (c in r.p.blocked <==> c in st.p.blocked) {
      QuietElsewhere(st, r, s, events, c);
    }
  }

  lemma QuietKeepsProgress(cfg: Config, st: NodeState, r: NodeState, s: NodeId, events: seq<Event>, epochs: seq<u64>)
    requires s in cfg.channels && s !in st.p.blocked && Rising(epochs)
    requires Progress(cfg, st, epochs) && Quiet(st, r, s, events) && NothingPastMarker(events)
    requires Markers(Of(r.log, s)) <= epochs
    ensures Progress(cfg, r, epochs)
  {
    if CleanBefore(cfg, st.snapshots, |st.snapshots| - 1) {
      QuietKeepsPhase(cfg, st, r, s, events, epochs);
    }
  }

  lemma SnapshotsGrow(cfg: Config, st: NodeState, tr: seq<Handled>)
    requires Sane(cfg, st) && forall h :: h in tr ==> h.sender in cfg.channels
    ensures st.snapshots <= Steps(cfg, st, tr).snapshots
    decreases |tr|
  {
    if tr != [] {
      StepSane(cfg, st, tr[0].sender, tr[0].event);
      StepFrame(cfg, st, tr[0].sender, tr[0].event);
      SnapshotsGrow(cfg, Step(cfg, st, tr[0].sender, tr[0].event), tr[1..]);
    }
  }

  lemma MisalignedForGood(cfg: Config, st: NodeState, r: NodeState, epochs: seq<u64>)
    requires st.snapshots <= r.snapshots && !AllAligned(cfg, st.snapshots)
    requires !CleanBefore(cfg, st.snapshots, |st.snapshots| - 1)
    ensures Progress(cfg, r, epochs)
  {
    var i :| 0 <= i < |st.snapshots| && !Aligned(cfg, st.snapshots[i]);
    assert r.snapshots[i] == st.snapshots[i];
    var j :| 0 <= j < |st.snapshots| - 1 && !Clean(cfg, st.snapshots[j].state.buffer);
    assert r.snapshots[j] == st.snapshots[j];
  }

  /** Where the channels stand when `s` completes an epoch. */
  lemma CompletionLogs(cfg: Config, st: NodeState, s: NodeId, ev: Event)
    requires s in cfg.channels && Inv(cfg, st) && Distinct(cfg.channels) && Completes(cfg, st, s, ev)
    ensures var r := Step(cfg, st, s, ev);
      && |r.snapshots| == |st.snapshots| + 1
      && r.snapshots[|st.snapshots|].log == r.log && r.snapshots[|st.snapshots|].state.epoch == ev.epoch
      && Of(r.log, s) == Of(st.log, s) + [ev]
      && forall c :: c in cfg.channels && c != s ==> Of(r.log, c) == Of(st.log, c) && c in st.p.blocked
  {
    var r := Step(cfg, st, s, ev);
    StepFrame(cfg, st, s, ev);
    BlockedSize(cfg, st, s);
    ElemsSize(cfg.channels);
    SubsetSize(st.p.blocked + {s}, ChannelSet(cfg));
    OfSnoc(st.log, s, ev, s);
    forall c | c in cfg.channels && c != s ensures Of(r.log, c) == Of(st.log, c) && c in st.p.blocked {
      OfSnoc(st.log, s, ev, c);
      assert c in ChannelSet(cfg);
      Trim(Of(st.log, c));
    }
  }

  lemma CompletionMarker(cfg: Config, st: NodeState, s: NodeId, ev: Event, epochs: seq<u64>)
    requires s in cfg.channels && s !in st.p.blocked && ev.Epoch? && Rising(epochs) && Phase(cfg, st, epochs)
    requires Markers(Of(st.log, s) + [ev]) <= epochs
    ensures var k := |st.snapshots|;
      && k < |epochs| && ev.epoch == epochs[k]
      && Cut(Of(st.log, s) + [ev], epochs[k]) && Markers(Of(st.log, s) + [ev]) == epochs[..k + 1]
  {
    var h := Of(st.log, s);
    var k := |st.snapshots|;
    MarkersConcat(h, [ev]);
    assert Markers([ev][1..]) == [];
    assert (Markers(h) + [ev.epoch])[k] == ev.epoch;
    CutAtMarker(h, ev.epoch, epochs, k);
  }

  /**
   The step that completes an epoch in a run that was aligned so far: the checkpoint is
   aligned exactly when every blocked channel had stopped right at its marker.
   */
  lemma CheckpointAlignedIffTight(cfg: Config, st: NodeState, s: NodeId, ev: Event, epochs: seq<u64>)
    requires s in cfg.channels && Inv(cfg, st) && Distinct(cfg.channels) && Rising(epochs)
    requires Completes(cfg, st, s, ev) && s !in st.p.blocked && Phase(cfg, st, epochs)
    requires Markers(Of(st.log, s) + [ev]) <= epochs
    ensures var r := Step(cfg, st, s, ev); var k := |st.snapshots|;
      && |r.snapshots| == k + 1 && k < |epochs| && ev.epoch == epochs[k]
      && (Aligned(cfg, r.snapshots[k]) <==> Tight(cfg, st, epochs))
      && (Tight(cfg, st, epochs) ==> forall c :: c in cfg.channels ==> Markers(Of(r.log, c)) == epochs[..k + 1])
  {
    CompletionLogs(cfg, st, s, ev);
    CompletionMarker(cfg, st, s, ev, epochs);
    if Tight(cfg, st, epochs) {
      forall c | c in cfg.channels ensures Markers(Of(Step(cfg, st, s, ev).log, c)) == epochs[..|st.snapshots| + 1] {
        if c != s { CutFixesMarkers(Of(st.log, c), epochs, |st.snapshots|); }
      }
    }
  }

  /** Replaying the buffer after an aligned checkpoint. */
  lemma ReplayAfterCheckpoint(cfg: Config, st: NodeState, buffer: seq<Message>, open: NodeId, epochs: seq<u64>)
    requires Sane(cfg, st) && st.p.buffer == [] && st.p.blocked == {} && Distinct(cfg.channels) && Rising(epochs)
    requires open in cfg.channels && forall m :: m in buffer ==> m.sender in cfg.channels && m.sender != open
    requires 0 < |st.snapshots| <= |epochs| && st.p.epoch == epochs[|st.snapshots| - 1]
    requires forall c :: c in cfg.channels ==> Markers(Of(st.log, c)) == epochs[..|st.snapshots|]
    requires forall c :: c in cfg.channels ==> Markers(Of(st.log, c) + From(buffer, c)) <= epochs
    ensures var r := Replay(cfg, st, buffer);
      r.snapshots == st.snapshots && Phase(cfg, r, epochs) && (Tight(cfg, r, epochs) <==> Clean(cfg, buffer))
  {
    var r := Replay(cfg, st, buffer);
    var k := |st.snapshots|;
    QuietReplay(cfg, st, buffer, open);
    forall c | c in cfg.channels
      ensures Of(r.log, c) == Of(st.log, c) + From(buffer, c)
      ensures Markers(Of(r.log, c)) == epochs[..k] + Markers(From(buffer, c))
      ensures c in r.p.blocked <==> Markers(From(buffer, c)) != []
      ensures c in r.p.blocked ==> k < |epochs| && (Cut(Of(r.log, c), epochs[k]) <==> NothingPastMarker(From(buffer, c)))
      ensures c !in r.p.blocked ==> NothingPastMarker(From(buffer, c))
    {
      var b := From(buffer, c);
      MarkersConcat(Of(st.log, c), b);
      NoMarkers(b);
      if Markers(b) != [] {
        var i := FirstMarker(b);
        assert Markers(b)[0] == (epochs[..k] + Markers(b))[k] == epochs[k];
        assert b[i].epoch > st.p.epoch;
        assert Effective(b, st.p.epoch);
        CutAfterReplay(Of(st.log, c), b, epochs, k);
      }
    }
  }

  lemma CompletionGrowsSnapshots(cfg: Config, st: NodeState, s: NodeId, ev: Event)
    requires s in cfg.channels && Inv(cfg, st) && Completes(cfg, st, s, ev)
    ensures var mid := Step(cfg, st, s, ev);
      && |mid.snapshots| == |st.snapshots| + 1 && st.snapshots <= mid.snapshots
      && mid.snapshots <= HandleEvent(cfg, st, s, ev).snapshots
  {
    var mid := Step(cfg, st, s, ev);
    StepFrame(cfg, st, s, ev);
    StepSane(cfg, st, s, ev);
    if st.p.buffer != [] {
      var tr := FlatReplay(cfg, mid, st.p.buffer);
      SnapshotsGrow(cfg, mid, tr);
    }
  }

  lemma TightCompletion(cfg: Config, st: NodeState, s: NodeId, ev: Event, epochs: seq<u64>)
    requires s in cfg.channels && Inv(cfg, st) && Distinct(cfg.channels) && Rising(epochs)
    requires Completes(cfg, st, s, ev) && s !in st.p.blocked && Phase(cfg, st, epochs) && Tight(cfg, st, epochs)
    requires Markers(Of(st.log, s) + [ev]) <= epochs
    requires forall c :: c in cfg.channels ==>
      Markers(Of(st.log + [Handled(s, ev)], c) + From(st.p.buffer, c)) <= epochs
    ensures var r := HandleEvent(cfg, st, s, ev); var k := |st.snapshots|;
      && |r.snapshots| == k + 1 && st.snapshots == r.snapshots[..k]
      && Aligned(cfg, r.snapshots[k]) && Phase(cfg, r, epochs)
      && (Tight(cfg, r, epochs) <==> Clean(cfg, r.snapshots[k].state.buffer))
  {
    var mid := Step(cfg, st, s, ev);
    StepFrame(cfg, st, s, ev);
    StepSane(cfg, st, s, ev);
    CheckpointAlignedIffTight(cfg, st, s, ev, epochs);
    assert HandleEvent(cfg, st, s, ev) == Replay(cfg, mid, st.p.buffer);
    ReplayAfterCheckpoint(cfg, mid, st.p.buffer, s, epochs);
  }

  lemma ProgressWhenAligned(cfg: Config, st: NodeState, r: NodeState, epochs: seq<u64>)
    requires AllAligned(cfg, st.snapshots) && CleanBefore(cfg, st.snapshots, |st.snapshots|)
    requires |r.snapshots| == |st.snapshots| + 1 && st.snapshots == r.snapshots[..|st.snapshots|]
    requires Aligned(cfg, r.snapshots[|st.snapshots|]) && Phase(cfg, r, epochs)
    requires Tight(cfg, r, epochs) <==> Clean(cfg, r.snapshots[|st.snapshots|].state.buffer)
    ensures Progress(cfg, r, epochs)
  {
    var sns, last := st.snapshots, r.snapshots[|st.snapshots|];
    assert r.snapshots == sns + [last];
    OneMoreSnapshot(cfg, sns, last);
  }

  lemma OneMoreSnapshot(cfg: Config, sns: seq<Snapshot>, last: Snapshot)
    ensures AllAligned(cfg, sns + [last]) <==> AllAligned(cfg, sns) && Aligned(cfg, last)
    ensures CleanBefore(cfg, sns + [last], |sns|) <==> CleanBefore(cfg, sns, |sns|)
    ensures CleanBefore(cfg, sns + [last], |sns| + 1) <==> CleanBefore(cfg, sns, |sns|) && Clean(cfg, last.state.buffer)
  {
    var all := sns + [last];
    assert all[|sns|] == last && forall i :: 0 <= i < |sns| ==> all[i] == sns[i];
    if AllAligned(cfg, all) {
      forall i | 0 <= i < |sns| ensures Aligned(cfg, sns[i]) { assert Aligned(cfg, all[i]); }
    }
    if CleanBefore(cfg, all, |sns|) {
      forall i | 0 <= i < |sns| ensures Clean(cfg, sns[i].state.buffer) { assert Clean(cfg, all[i].state.buffer); }
    }
  }

  lemma ProgressWhenMisaligned(cfg: Config, st: NodeState, r: NodeState, epochs: seq<u64>)
    requires !CleanBefore(cfg, st.snapshots, |st.snapshots|)
    requires |r.snapshots| > |st.snapshots| && st.snapshots <= r.snapshots
    requires !Aligned(cfg, r.snapshots[|st.snapshots|])
    ensures Progress(cfg, r, epochs)
  {
    var i :| 0 <= i < |st.snapshots| && !Clean(cfg, st.snapshots[i].state.buffer);
    assert r.snapshots[i] == st.snapshots[i];
  }

  lemma CompletionKeepsProgress(cfg: Config, st: NodeState, s: NodeId, ev: Event, epochs: seq<u64>)
    requires s in cfg.channels && Inv(cfg, st) && Distinct(cfg.channels) && Rising(epochs)
    requires Completes(cfg, st, s, ev) && s !in st.p.blocked && Progress(cfg, st, epochs)
    requires Markers(Of(st.log, s) + [ev]) <= epochs
    requires forall c :: c in cfg.channels ==>
      Markers(Of(st.log + [Handled(s, ev)], c) + From(st.p.buffer, c)) <= epochs
    ensures Progress(cfg, HandleEvent(cfg, st, s, ev), epochs)
  {
    var r := HandleEvent(cfg, st, s, ev);
    CompletionGrowsSnapshots(cfg, st, s, ev);
    if !CleanBefore(cfg, st.snapshots, |st.snapshots| - 1) {
      MisalignedForGood(cfg, st, r, epochs);
    } else if Tight(cfg, st, epochs) {
      TightCompletion(cfg, st, s, ev, epochs);
      ProgressWhenAligned(cfg, st, r, epochs);
    } else {
      CheckpointAlignedIffTight(cfg, st, s, ev, epochs);
      ProgressWhenMisaligned(cfg, st, r, epochs);
    }
  }

  /** With `events` of channel `s` still to come, every channel keeps to the epochs. */
  ghost predicate Heard(cfg: Config, st: NodeState, s: NodeId, events: seq<Event>, epochs: seq<u64>) {
    forall c :: c in cfg.channels ==>
      Markers(Of(st.log, c) + From(st.p.buffer, c) + if c == s then events else []) <= epochs
  }

  lemma HeardAtSender(cfg: Config, st: NodeState, s: NodeId, events: seq<Event>, epochs: seq<u64>)
    requires s in cfg.channels && Heard(cfg, st, s, events, epochs)
    requires forall m :: m in st.p.buffer ==> m.sender != s
    ensures Markers(Of(st.log, s) + events) <= epochs
  {
    FromNobody(st.p.buffer, s);
    Trim(Of(st.log, s));
  }

  /** The last event of a batch, the only one that may be a marker. */
  lemma LastEventKeepsProgress(cfg: Config, st: NodeState, s: NodeId, ev: Event, epochs: seq<u64>)
    requires s in cfg.channels && s !in st.p.blocked && Inv(cfg, st) && Distinct(cfg.channels) && Rising(epochs)
    requires Progress(cfg, st, epochs) && Heard(cfg, st, s, [ev], epochs)
    ensures Progress(cfg, HandleEvent(cfg, st, s, ev), epochs)
  {
    HeardAtSender(cfg, st, s, [ev], epochs);
    if Completes(cfg, st, s, ev) {
      FromNobody(st.p.buffer, s);
      forall c | c in cfg.channels
        ensures Markers(Of(st.log + [Handled(s, ev)], c) + From(st.p.buffer, c)) <= epochs
      {
        OfSnoc(st.log, s, ev, c);
        Trim(Of(st.log, c)); Trim(Of(st.log, c) + From(st.p.buffer, c)); Trim(Of(st.log, s) + [ev]);
      }
      CompletionKeepsProgress(cfg, st, s, ev, epochs);
    } else {
      QuietStep(cfg, st, s, ev);
      QuietKeepsProgress(cfg, st, HandleEvent(cfg, st, s, ev), s, [ev], epochs);
    }
  }

  lemma HeardOn(cfg: Config, st: NodeState, r: NodeState, s: NodeId, pre: seq<Event>, ev: Event, epochs: seq<u64>)
    requires Quiet(st, r, s, pre) && Heard(cfg, st, s, pre + [ev], epochs)
    requires forall m :: m in st.p.buffer ==> m.sender != s
    ensures Heard(cfg, r, s, [ev], epochs)
  {
    FromNobody(st.p.buffer, s);
    forall c | c in cfg.channels
      ensures Markers(Of(r.log, c) + From(r.p.buffer, c) + if c == s then [ev] else []) <= epochs
    {
      if c == s {
        Trim(Of(st.log, s)); Trim(Of(r.log, s));
        assert Of(st.log, s) + (pre + [ev]) == Of(r.log, s) + [ev];
      } else {
        QuietElsewhere(st, r, s, pre, c);
      }
    }
  }

  /** The events before it. */
  lemma FrontKeepsProgress(cfg: Config, st: NodeState, s: NodeId, pre: seq<Event>, ev: Event, epochs: seq<u64>)
    requires s in cfg.channels && s !in st.p.blocked && Sane(cfg, st) && Rising(epochs)
    requires forall m :: m in st.p.buffer ==> m.sender != s
    requires Progress(cfg, st, epochs) && (forall i :: 0 <= i < |pre| ==> !IsControl(pre[i]))
    requires Heard(cfg, st, s, pre + [ev], epochs)
    ensures var r := HandleEvents(cfg, st, s, pre);
      Progress(cfg, r, epochs) && s !in r.p.blocked && Heard(cfg, r, s, [ev], epochs)
  {
    var r := HandleEvents(cfg, st, s, pre);
    QuietEvents(cfg, st, s, pre, s);
    HeardOn(cfg, st, r, s, pre, ev, epochs);
    HeardAtSender(cfg, r, s, [ev], epochs);
    MarkersConcat(Of(r.log, s), [ev]);
    QuietKeepsProgress(cfg, st, r, s, pre, epochs);
  }

  lemma BatchKeepsProgress(cfg: Config, st: NodeState, s: NodeId, pre: seq<Event>, ev: Event, epochs: seq<u64>)
    requires s in cfg.channels && s !in st.p.blocked
    requires Inv(cfg, st) && Distinct(cfg.channels) && Rising(epochs) && Progress(cfg, st, epochs)
    requires (forall i :: 0 <= i < |pre| ==> !IsControl(pre[i])) && Heard(cfg, st, s, pre + [ev], epochs)
    ensures Progress(cfg, HandleEvents(cfg, st, s, pre + [ev]), epochs)
  {
    var mid := HandleEvents(cfg, st, s, pre);
    BatchSplit(cfg, st, s, pre, ev);
    FrontKeepsProgress(cfg, st, s, pre, ev, epochs);
    FrontKeepsInv(cfg, st, s, pre);
    LastEventKeepsProgress(cfg, mid, s, ev, epochs);
  }

  lemma BufferingKeepsProgress(cfg: Config, st: NodeState, buffer: seq<Message>, epochs: seq<u64>)
    requires Progress(cfg, st, epochs)
    ensures Progress(cfg, st.(p := st.p.(buffer := buffer)), epochs)
  {
  }

  /** One message, in batch shape, of channels that keep to the epochs. */
  lemma MessageKeepsProgress(cfg: Config, st: NodeState, m: Message, epochs: seq<u64>)
    requires Inv(cfg, st) && Distinct(cfg.channels) && Rising(epochs) && Progress(cfg, st, epochs)
    requires ControlLast(m.events) && Heard(cfg, st, m.sender, m.events, epochs)
    ensures Progress(cfg, HandleMessage(cfg, st, m), epochs)
  {
    if m.sender !in cfg.channels {
      assert HandleMessage(cfg, st, m) == st;
    } else if m.sender in st.p.blocked {
      BufferingKeepsProgress(cfg, st, st.p.buffer + [m], epochs);
    } else if m.events == [] {
      assert HandleMessage(cfg, st, m) == st;
    } else {
      var n := |m.events| - 1;
      assert m.events == m.events[..n] + [m.events[n]];
      BatchKeepsProgress(cfg, st, m.sender, m.events[..n], m.events[n], epochs);
    }
  }

  lemma {:induction false} RunKeepsProgress(cfg: Config, st: NodeState, msgs: seq<Message>, epochs: seq<u64>)
    requires Inv(cfg, st) && Distinct(cfg.channels) && Rising(epochs)
    requires st.log == [] && st.p.buffer == [] && st.snapshots == [] && st.p.epoch == 0 && st.p.blocked == {}
    requires (forall m :: m in msgs ==> ControlLast(m.events)) && InEpochOrder(cfg, msgs, epochs)
    ensures Progress(cfg, Run(cfg, st, msgs), epochs)
    decreases |msgs|
  {
    if msgs == [] {
      assert forall c :: Of(st.log, c) == [] && Markers(Of(st.log, c)) == [];
    } else {
      var front, m := msgs[..|msgs| - 1], msgs[|msgs| - 1];
      assert msgs == front + [m];
      forall c | c in cfg.channels ensures Markers(From(front, c)) <= epochs {
        FromConcat(front, [m], c);
        MarkersConcat(From(front, c), From([m], c));
      }
      RunKeepsProgress(cfg, st, front, epochs);
      var mid := Run(cfg, st, front);
      EveryRun(cfg, st, front);
      forall c | c in cfg.channels
        ensures Markers(Of(mid.log, c) + From(mid.p.buffer, c) + if c == m.sender then m.events else []) <= epochs
      {
        FromConcat(front, [m], c);
        FromOne(m, c);
      }
      MessageKeepsProgress(cfg, mid, m, epochs);
    }
  }
}
