/**
 Epoch alignment. A checkpoint for epoch e is aligned when it has absorbed, from every
 channel, exactly the events up to that channel's marker for e. Channels deliver the
 same epochs in the same order, in batches whose control event comes last, and are
 interleaved in any way. The source replays buffered messages without looking at the
 blocked set again, so alignment is not unconditional: all checkpoints of a run are
 aligned if and only if no checkpoint but the last was taken while a channel had
 already delivered something past its next marker.
 */
module AlignedSnapshots {
  import opened Streams
  import opened NodeModel
  import opened NodeInvariants
  import opened EpochMarkers
  import opened QuietSteps
  import opened EpochProgress

  // ----- a checkpoint has absorbed a prefix of what each channel delivered -----

  ghost predicate SnapshotsPast(st: NodeState) {
    forall i :: 0 <= i < |st.snapshots| ==> st.snapshots[i].log <= st.log
  }

  lemma {:induction false} StepsKeepSnapshotsPast(cfg: Config, st: NodeState, tr: seq<Handled>)
    requires Sane(cfg, st) && SnapshotsPast(st) && forall h :: h in tr ==> h.sender in cfg.channels
    ensures SnapshotsPast(Steps(cfg, st, tr))
    decreases |tr|
  {
    if tr != [] {
      var st1 := Step(cfg, st, tr[0].sender, tr[0].event);
      StepSane(cfg, st, tr[0].sender, tr[0].event);
      StepFrame(cfg, st, tr[0].sender, tr[0].event);
      forall i | 0 <= i < |st1.snapshots| ensures st1.snapshots[i].log <= st1.log {
        if i < |st.snapshots| { assert st1.snapshots[i] == st.snapshots[i]; }
      }
      StepsKeepSnapshotsPast(cfg, st1, tr[1..]);
    }
  }

  lemma {:induction false} RunKeepsSnapshotsPast(cfg: Config, st: NodeState, msgs: seq<Message>)
    requires Inv(cfg, st) && SnapshotsPast(st)
    ensures SnapshotsPast(Run(cfg, st, msgs))
    decreases |msgs|
  {
    if msgs != [] {
      var front, m := msgs[..|msgs| - 1], msgs[|msgs| - 1];
      var mid := Run(cfg, st, front);
      RunKeepsSnapshotsPast(cfg, st, front);
      RunKeepsInv(cfg, st, front);
      if m.sender in cfg.channels && m.sender !in mid.p.blocked {
        var tr := FlatEvents(cfg, mid, m.sender, m.events);
        StepsKeepSnapshotsPast(cfg, mid, tr);
      }
    }
  }

  /**
   What an aligned checkpoint has absorbed from a channel: of the events the channel
   ever delivers, exactly those up to and including its first marker for the epoch.
   */
  lemma AlignedIsExact(cfg: Config, op: OpState, msgs: seq<Message>, i: nat, c: NodeId)
    requires cfg.channels != [] && c in cfg.channels && i < |Run(cfg, FreshNode(cfg, op), msgs).snapshots|
    ensures var sn := Run(cfg, FreshNode(cfg, op), msgs).snapshots[i];
      && Of(sn.log, c) <= From(msgs, c)
      && (Aligned(cfg, sn) ==>
            var n := |Of(sn.log, c)| - 1;
            n >= 0 && From(msgs, c)[n] == Epoch(sn.state.epoch) && Epoch(sn.state.epoch) !in From(msgs, c)[..n])
  {
    var sn := Run(cfg, FreshNode(cfg, op), msgs).snapshots[i];
    SnapshotIsPrefix(cfg, op, msgs, i, c);
    if Aligned(cfg, sn) { CutOfPrefix(Of(sn.log, c), From(msgs, c), sn.state.epoch); }
  }

  lemma SnapshotIsPrefix(cfg: Config, op: OpState, msgs: seq<Message>, i: nat, c: NodeId)
    requires cfg.channels != [] && c in cfg.channels && i < |Run(cfg, FreshNode(cfg, op), msgs).snapshots|
    ensures Of(Run(cfg, FreshNode(cfg, op), msgs).snapshots[i].log, c) <= From(msgs, c)
  {
    var st := FreshNode(cfg, op);
    var r := Run(cfg, st, msgs);
    var log := r.snapshots[i].log;
    RunKeepsSnapshotsPast(cfg, st, msgs);
    EveryRun(cfg, st, msgs);
    OfConcat(log, r.log[|log|..], c);
    assert r.log == log + r.log[|log|..];
  }

  lemma CutOfPrefix(h: seq<Event>, s: seq<Event>, e: u64)
    requires Cut(h, e) && h <= s
    ensures var n := |h| - 1; n >= 0 && s[n] == Epoch(e) && Epoch(e) !in s[..n]
  {
    assert s[..|h| - 1] == h[..|h| - 1];
  }

  /**
   All checkpoints of a run are aligned exactly when each checkpoint but the last was
   taken with a clean buffer: no channel past its next marker.
   */
  lemma AlignedIffClean(cfg: Config, op: OpState, msgs: seq<Message>, epochs: seq<u64>, sns: seq<Snapshot>)
    requires cfg.channels != [] && Distinct(cfg.channels) && Rising(epochs)
    requires (forall m :: m in msgs ==> ControlLast(m.events)) && InEpochOrder(cfg, msgs, epochs)
    requires sns == Run(cfg, FreshNode(cfg, op), msgs).snapshots
    ensures (forall i :: 0 <= i < |sns| ==> Aligned(cfg, sns[i])) <==>
            (forall i :: 0 <= i < |sns| - 1 ==> Clean(cfg, sns[i].state.buffer))
  {
    RunKeepsProgress(cfg, FreshNode(cfg, op), msgs, epochs);
    if CleanBefore(cfg, sns, |sns| - 1) {
      assert AllAligned(cfg, sns);
    }
  }
}
