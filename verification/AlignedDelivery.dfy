/**
 Alignment told from the messages alone. Whenever a message raises the number of markers
 that every channel has delivered to k, and every channel is yet to deliver marker k + 1,
 no channel may have delivered anything past its marker k + 1. This holds of the messages
 if and only if every checkpoint of the run is aligned.
 */
module AlignedDelivery {
  import opened Streams
  import opened NodeModel
  import opened NodeInvariants
  import opened EpochMarkers
  import opened QuietSteps
  import opened Completions
  import opened EpochProgress
  import opened AlignedSnapshots

  /** What a stream holds after its first k markers. */
  function AfterMarkers(s: seq<Event>, k: nat): seq<Event> {
    if k == 0 || s == [] then s else AfterMarkers(s[1..], if s[0].Epoch? then k - 1 else k)
  }

  /** Every channel has delivered k markers. */
  ghost predicate Reached(cfg: Config, msgs: seq<Message>, k: nat) {
    forall c :: c in cfg.channels ==> |Markers(From(msgs, c))| >= k
  }

  /** It is message n with which every channel has. */
  ghost predicate Raises(cfg: Config, msgs: seq<Message>, n: nat, k: nat) {
    n < |msgs| && !Reached(cfg, msgs[..n], k) && Reached(cfg, msgs[..n + 1], k)
  }

  /** Up to message n, no channel has delivered anything past its marker k + 1. */
  ghost predicate InStepAt(cfg: Config, msgs: seq<Message>, n: nat, k: nat)
    requires n < |msgs|
  {
    forall c :: c in cfg.channels ==> NothingPastMarker(AfterMarkers(From(msgs[..n + 1], c), k))
  }

  ghost predicate InStep(cfg: Config, msgs: seq<Message>) {
    forall n: nat, k: nat :: Raises(cfg, msgs, n, k) && Reached(cfg, msgs, k + 1) ==> InStepAt(cfg, msgs, n, k)
  }

  // ----- delivered markers -----

  lemma ReachedGrows(cfg: Config, msgs: seq<Message>, n: nat, k: nat)
    requires n <= |msgs| && Reached(cfg, msgs[..n], k)
    ensures Reached(cfg, msgs, k)
  {
    assert msgs == msgs[..n] + msgs[n..];
    forall c | c in cfg.channels ensures |Markers(From(msgs, c))| >= k {
      FromConcat(msgs[..n], msgs[n..], c);
      MarkersConcat(From(msgs[..n], c), From(msgs[n..], c));
    }
  }

  /** Only one message raises the number to k. */
  lemma RaisesOnce(cfg: Config, msgs: seq<Message>, m: nat, n: nat, k: nat)
    requires Raises(cfg, msgs, m, k) && Raises(cfg, msgs, n, k)
    ensures m == n
  {
    if m < n {
      assert msgs[..n][..m + 1] == msgs[..m + 1];
      ReachedGrows(cfg, msgs[..n], m + 1, k);
    }
    if n < m {
      assert msgs[..m][..n + 1] == msgs[..n + 1];
      ReachedGrows(cfg, msgs[..m], n + 1, k);
    }
  }

  lemma RaisesLater(cfg: Config, front: seq<Message>, m: Message, n: nat, k: nat)
    requires Raises(cfg, front, n, k)
    ensures Raises(cfg, front + [m], n, k)
    ensures InStepAt(cfg, front + [m], n, k) <==> InStepAt(cfg, front, n, k)
  {
    var msgs := front + [m];
    assert msgs[..n] == front[..n] && msgs[..n + 1] == front[..n + 1];
  }

  lemma {:induction false} AfterCut(h: seq<Event>, b: seq<Event>)
    requires h != [] && h[|h| - 1].Epoch?
    ensures AfterMarkers(h + b, |Markers(h)|) == b
  {
    var s := h + b;
    assert s[1..] == h[1..] + b;
    if |h| == 1 {
      assert h[1..] == [] && Markers(h[1..]) == [];
      assert s[1..] == b;
    } else {
      AfterCut(h[1..], b);
      LastIsMarker(h[1..]);
    }
  }

  lemma LastIsMarker(h: seq<Event>)
    requires h != [] && h[|h| - 1].Epoch?
    ensures Markers(h) != []
  {
    NoMarkers(h);
  }

  // ----- the node's checkpoints and the delivered markers -----

  /** A run on channels that keep to the epochs, in batches whose control event comes last. */
  ghost predicate Orderly(cfg: Config, msgs: seq<Message>, epochs: seq<u64>) {
    && cfg.channels != [] && Distinct(cfg.channels) && Rising(epochs)
    && (forall m :: m in msgs ==> ControlLast(m.events)) && InEpochOrder(cfg, msgs, epochs)
  }

  lemma OrderlyFront(cfg: Config, front: seq<Message>, m: Message, epochs: seq<u64>)
    requires Orderly(cfg, front + [m], epochs)
    ensures Orderly(cfg, front, epochs) && ControlLast(m.events)
  {
    var msgs := front + [m];
    assert msgs[|front|] == m;
    forall c | c in cfg.channels ensures Markers(From(front, c)) <= epochs {
      FromConcat(front, [m], c);
      MarkersConcat(From(front, c), From([m], c));
    }
  }

  /** In an aligned run the number of checkpoints is the number of markers every channel has delivered. */
  lemma CheckpointsCountMarkers(cfg: Config, op: OpState, msgs: seq<Message>, epochs: seq<u64>, st: NodeState, k: nat)
    requires Orderly(cfg, msgs, epochs) && st == Run(cfg, FreshNode(cfg, op), msgs)
    requires CleanBefore(cfg, st.snapshots, |st.snapshots| - 1)
    ensures Reached(cfg, msgs, k) <==> k <= |st.snapshots|
  {
    RunKeepsProgress(cfg, FreshNode(cfg, op), msgs, epochs);
    EveryRun(cfg, FreshNode(cfg, op), msgs);
    forall c | c in cfg.channels
      ensures |Markers(From(msgs, c))| >= |st.snapshots|
      ensures c !in st.p.blocked ==> |Markers(From(msgs, c))| == |st.snapshots|
    {
      MarkersConcat(Of(st.log, c), From(st.p.buffer, c));
      if c !in st.p.blocked { FromNobody(st.p.buffer, c); }
    }
    var open :| open in ChannelSet(cfg) && open !in st.p.blocked;
    assert open in cfg.channels;
  }

  /** Checkpoint i was taken at message n, and its buffer is what was delivered after i + 1 markers. */
  ghost predicate TakenAt(cfg: Config, msgs: seq<Message>, i: nat, sn: Snapshot, n: nat) {
    && Raises(cfg, msgs, n, i + 1)
    && forall c :: c in cfg.channels ==> From(sn.state.buffer, c) == AfterMarkers(From(msgs[..n + 1], c), i + 1)
  }

  lemma TakenInStep(cfg: Config, msgs: seq<Message>, i: nat, sn: Snapshot, n: nat)
    requires TakenAt(cfg, msgs, i, sn, n)
    ensures Clean(cfg, sn.state.buffer) <==> InStepAt(cfg, msgs, n, i + 1)
  {
    if InStepAt(cfg, msgs, n, i + 1) {
      forall c | c in cfg.channels ensures NothingPastMarker(From(sn.state.buffer, c)) {
        assert NothingPastMarker(AfterMarkers(From(msgs[..n + 1], c), i + 1));
      }
    }
    if Clean(cfg, sn.state.buffer) {
      forall c | c in cfg.channels ensures NothingPastMarker(AfterMarkers(From(msgs[..n + 1], c), i + 1)) {
        assert NothingPastMarker(From(sn.state.buffer, c));
      }
    }
  }

  lemma TakenLater(cfg: Config, front: seq<Message>, m: Message, i: nat, sn: Snapshot, n: nat)
    requires TakenAt(cfg, front, i, sn, n)
    ensures TakenAt(cfg, front + [m], i, sn, n)
  {
    RaisesLater(cfg, front, m, n, i + 1);
    assert (front + [m])[..n + 1] == front[..n + 1];
  }

  ghost predicate Taken(cfg: Config, msgs: seq<Message>, i: nat, sn: Snapshot) {
    exists n: nat :: TakenAt(cfg, msgs, i, sn, n)
  }

  ghost predicate AllTaken(cfg: Config, msgs: seq<Message>, sns: seq<Snapshot>) {
    forall i: nat :: i < |sns| ==> Taken(cfg, msgs, i, sns[i])
  }

  ghost predicate OutOfStep(cfg: Config, msgs: seq<Message>) {
    exists n: nat, k: nat :: Raises(cfg, msgs, n, k) && Reached(cfg, msgs, k + 1) && !InStepAt(cfg, msgs, n, k)
  }

  /** As long as the checkpoints were clean, each is tied to its message; after that the messages are out of step. */
  ghost predicate Tracks(cfg: Config, msgs: seq<Message>, sns: seq<Snapshot>) {
    if CleanBefore(cfg, sns, |sns| - 1) then AllTaken(cfg, msgs, sns) else OutOfStep(cfg, msgs)
  }

  lemma StaysOutOfStep(cfg: Config, front: seq<Message>, m: Message)
    requires OutOfStep(cfg, front)
    ensures OutOfStep(cfg, front + [m])
  {
    var n: nat, k: nat :| Raises(cfg, front, n, k) && Reached(cfg, front, k + 1) && !InStepAt(cfg, front, n, k);
    RaisesLater(cfg, front, m, n, k);
    assert (front + [m])[..|front|] == front;
    ReachedGrows(cfg, front + [m], |front|, k + 1);
  }

  lemma StayTaken(cfg: Config, front: seq<Message>, m: Message, sns: seq<Snapshot>)
    requires AllTaken(cfg, front, sns)
    ensures AllTaken(cfg, front + [m], sns)
  {
    forall i: nat | i < |sns| ensures Taken(cfg, front + [m], i, sns[i]) {
      assert Taken(cfg, front, i, sns[i]);
      var n: nat :| TakenAt(cfg, front, i, sns[i], n);
      TakenLater(cfg, front, m, i, sns[i], n);
    }
  }

  /** A checkpoint that is aligned leaves in the buffer what was delivered after its marker. */
  lemma BufferIsTheRest(sn: Snapshot, s: seq<Event>, c: NodeId, epochs: seq<u64>, k: nat)
    requires Rising(epochs) && k < |epochs| && sn.state.epoch == epochs[k]
    requires Cut(Of(sn.log, c), sn.state.epoch) && Of(sn.log, c) + From(sn.state.buffer, c) == s && Markers(s) <= epochs
    ensures From(sn.state.buffer, c) == AfterMarkers(s, k + 1)
  {
    var h, b := Of(sn.log, c), From(sn.state.buffer, c);
    MarkersConcat(h, b);
    LastIsMarker(h);
    CutFixesMarkers(h, epochs, k);
    AfterCut(h, b);
  }

  /** The message that takes checkpoint k of a run whose earlier checkpoints were clean. */
  lemma CleanCheckpoint(cfg: Config, op: OpState, front: seq<Message>, msgs: seq<Message>, epochs: seq<u64>,
                        st: NodeState, r: NodeState, sn: Snapshot)
    requires Orderly(cfg, front, epochs) && Orderly(cfg, msgs, epochs) && |msgs| == |front| + 1 && front <= msgs
    requires st == Run(cfg, FreshNode(cfg, op), front) && r == Run(cfg, FreshNode(cfg, op), msgs)
    requires CleanBefore(cfg, st.snapshots, |st.snapshots|)
    requires r.snapshots == st.snapshots + [sn] && r.p.epoch == sn.state.epoch
    requires forall c :: c in cfg.channels ==> Of(sn.log, c) + From(sn.state.buffer, c) == From(msgs, c)
    ensures Taken(cfg, msgs, |st.snapshots|, sn)
  {
    var k := |st.snapshots|;
    OneMoreSnapshot(cfg, st.snapshots, sn);
    CheckpointsCountMarkers(cfg, op, front, epochs, st, k + 1);
    CheckpointsCountMarkers(cfg, op, msgs, epochs, r, k + 1);
    CleanRest(cfg, op, msgs, epochs, r, sn, k);
    TakenNow(cfg, front, msgs, k, sn);
  }

  lemma TakenNow(cfg: Config, front: seq<Message>, msgs: seq<Message>, i: nat, sn: Snapshot)
    requires |msgs| == |front| + 1 && front <= msgs
    requires !Reached(cfg, front, i + 1) && Reached(cfg, msgs, i + 1)
    requires forall c :: c in cfg.channels ==> From(sn.state.buffer, c) == AfterMarkers(From(msgs, c), i + 1)
    ensures Taken(cfg, msgs, i, sn)
  {
    var n := |front|;
    assert msgs[..n] == front && msgs[..n + 1] == msgs;
    assert TakenAt(cfg, msgs, i, sn, n);
  }

  lemma CleanRest(cfg: Config, op: OpState, msgs: seq<Message>, epochs: seq<u64>, r: NodeState, sn: Snapshot, k: nat)
    requires Orderly(cfg, msgs, epochs) && r == Run(cfg, FreshNode(cfg, op), msgs)
    requires |r.snapshots| == k + 1 && r.snapshots[k] == sn && r.p.epoch == sn.state.epoch
    requires CleanBefore(cfg, r.snapshots, k)
    requires forall c :: c in cfg.channels ==> Of(sn.log, c) + From(sn.state.buffer, c) == From(msgs, c)
    ensures forall c :: c in cfg.channels ==> From(sn.state.buffer, c) == AfterMarkers(From(msgs, c), k + 1)
  {
    RunKeepsProgress(cfg, FreshNode(cfg, op), msgs, epochs);
    assert Aligned(cfg, r.snapshots[k]);
    forall c | c in cfg.channels ensures From(sn.state.buffer, c) == AfterMarkers(From(msgs, c), k + 1) {
      BufferIsTheRest(sn, From(msgs, c), c, epochs, k);
    }
  }

  /** At a completion, every channel has delivered one marker more than there were checkpoints. */
  lemma CompletionReaches(cfg: Config, op: OpState, front: seq<Message>, m: Message, epochs: seq<u64>,
                          st: NodeState, mid: NodeState, ev: Event)
    requires Orderly(cfg, front, epochs) && st == Run(cfg, FreshNode(cfg, op), front)
    requires CleanBefore(cfg, st.snapshots, |st.snapshots| - 1)
    requires Inv(cfg, st) && CompletesAt(cfg, st, m, mid, ev)
    ensures Reached(cfg, front + [m], |st.snapshots| + 1)
  {
    RunKeepsProgress(cfg, FreshNode(cfg, op), front, epochs);
    EveryRun(cfg, FreshNode(cfg, op), front);
    OthersAreBlocked(cfg, st, m, mid, ev);
    forall c | c in cfg.channels ensures |Markers(From(front + [m], c))| >= |st.snapshots| + 1 {
      DeliveredMarkers(st, front, m, c);
      if c == m.sender { LastIsMarker(m.events); }
    }
  }

  lemma OthersAreBlocked(cfg: Config, st: NodeState, m: Message, mid: NodeState, ev: Event)
    requires Inv(cfg, st) && CompletesAt(cfg, st, m, mid, ev) && Distinct(cfg.channels)
    ensures forall c :: c in cfg.channels && c != m.sender ==> c in st.p.blocked
    ensures m.events[|m.events| - 1].Epoch?
  {
    CompletionLogs(cfg, mid, m.sender, ev);
  }

  lemma DeliveredMarkers(st: NodeState, front: seq<Message>, m: Message, c: NodeId)
    requires Of(st.log, c) + From(st.p.buffer, c) == From(front, c)
    ensures |Markers(From(front + [m], c))| >= |Markers(Of(st.log, c))| + if m.sender == c then |Markers(m.events)| else 0
  {
    FromConcat(front, [m], c);
    FromOne(m, c);
    MarkersConcat(From(front, c), From([m], c));
    MarkersConcat(Of(st.log, c), From(st.p.buffer, c));
  }

  /** The message that takes a checkpoint after an unclean one. */
  lemma UncleanCheckpoint(cfg: Config, msgs: seq<Message>, sns: seq<Snapshot>)
    requires CleanBefore(cfg, sns, |sns| - 1) && !CleanBefore(cfg, sns, |sns|)
    requires AllTaken(cfg, msgs, sns) && Reached(cfg, msgs, |sns| + 1)
    ensures OutOfStep(cfg, msgs)
  {
    var i := |sns| - 1;
    assert !Clean(cfg, sns[i].state.buffer);
    assert Taken(cfg, msgs, i, sns[i]);
    var n: nat :| TakenAt(cfg, msgs, i, sns[i], n);
    TakenInStep(cfg, msgs, i, sns[i], n);
    assert Raises(cfg, msgs, n, |sns|) && !InStepAt(cfg, msgs, n, |sns|);
  }

  lemma UncleanForGood(cfg: Config, sns: seq<Snapshot>, more: seq<Snapshot>)
    requires sns <= more && !CleanBefore(cfg, sns, |sns| - 1)
    ensures !CleanBefore(cfg, more, |more| - 1)
  {
    var j :| 0 <= j < |sns| - 1 && !Clean(cfg, sns[j].state.buffer);
    assert more[j] == sns[j];
  }

  /** The message takes checkpoint k: it is tied to the message, or the one before it was unclean. */
  lemma CheckpointTracks(cfg: Config, op: OpState, front: seq<Message>, m: Message, epochs: seq<u64>, st: NodeState, r: NodeState)
    requires Orderly(cfg, front + [m], epochs) && Inv(cfg, st) && Tracks(cfg, front, st.snapshots)
    requires st == Run(cfg, FreshNode(cfg, op), front) && r == Run(cfg, FreshNode(cfg, op), front + [m])
    requires r == HandleMessage(cfg, st, m) && r.snapshots != st.snapshots
    ensures Tracks(cfg, front + [m], r.snapshots)
  {
    var msgs, sns := front + [m], st.snapshots;
    OrderlyFront(cfg, front, m, epochs);
    var mid, ev := CompletingMessage(cfg, st, m);
    var sn := OneCheckpointAMessage(cfg, st, m, mid, ev);
    EveryRun(cfg, FreshNode(cfg, op), front);
    OneMoreSnapshot(cfg, sns, sn);
    if !CleanBefore(cfg, sns, |sns| - 1) {
      StaysOutOfStep(cfg, front, m);
      UncleanForGood(cfg, sns, r.snapshots);
    } else {
      StayTaken(cfg, front, m, sns);
      if CleanBefore(cfg, sns, |sns|) {
        forall c | c in cfg.channels ensures Of(sn.log, c) + From(sn.state.buffer, c) == From(msgs, c) {
          FromConcat(front, [m], c);
        }
        CleanCheckpoint(cfg, op, front, msgs, epochs, st, r, sn);
        AllTakenSnoc(cfg, msgs, sns, sn);
      } else {
        CompletionReaches(cfg, op, front, m, epochs, st, mid, ev);
        UncleanCheckpoint(cfg, msgs, sns);
      }
    }
  }

  lemma AllTakenSnoc(cfg: Config, msgs: seq<Message>, sns: seq<Snapshot>, sn: Snapshot)
    requires AllTaken(cfg, msgs, sns) && Taken(cfg, msgs, |sns|, sn)
    ensures AllTaken(cfg, msgs, sns + [sn])
  {
    var all := sns + [sn];
    forall i: nat | i < |all| ensures Taken(cfg, msgs, i, all[i]) {
      if i < |sns| { assert Taken(cfg, msgs, i, sns[i]) && all[i] == sns[i]; }
    }
  }

  lemma {:induction false} RunTracks(cfg: Config, op: OpState, msgs: seq<Message>, epochs: seq<u64>)
    requires Orderly(cfg, msgs, epochs)
    ensures Tracks(cfg, msgs, Run(cfg, FreshNode(cfg, op), msgs).snapshots)
    decreases |msgs|
  {
    if msgs != [] {
      var front, m := msgs[..|msgs| - 1], msgs[|msgs| - 1];
      assert msgs == front + [m];
      OrderlyFront(cfg, front, m, epochs);
      RunTracks(cfg, op, front, epochs);
      var st, r := Run(cfg, FreshNode(cfg, op), front), Run(cfg, FreshNode(cfg, op), msgs);
      EveryRun(cfg, FreshNode(cfg, op), front);
      if r.snapshots == st.snapshots {
        if CleanBefore(cfg, st.snapshots, |st.snapshots| - 1) {
          StayTaken(cfg, front, m, st.snapshots);
        } else {
          StaysOutOfStep(cfg, front, m);
        }
      } else {
        CheckpointTracks(cfg, op, front, m, epochs, st, r);
      }
    }
  }

  lemma TakenMeansInStep(cfg: Config, op: OpState, msgs: seq<Message>, epochs: seq<u64>, st: NodeState)
    requires Orderly(cfg, msgs, epochs) && st == Run(cfg, FreshNode(cfg, op), msgs)
    requires CleanBefore(cfg, st.snapshots, |st.snapshots| - 1) && AllTaken(cfg, msgs, st.snapshots)
    ensures InStep(cfg, msgs)
  {
    forall n: nat, k: nat | Raises(cfg, msgs, n, k) && Reached(cfg, msgs, k + 1) ensures InStepAt(cfg, msgs, n, k) {
      CheckpointsCountMarkers(cfg, op, msgs, epochs, st, k + 1);
      assert Reached(cfg, msgs[..n], 0);
      TakenAtLevel(cfg, msgs, st.snapshots, n, k);
    }
  }

  lemma TakenAtLevel(cfg: Config, msgs: seq<Message>, sns: seq<Snapshot>, n: nat, k: nat)
    requires CleanBefore(cfg, sns, |sns| - 1) && AllTaken(cfg, msgs, sns)
    requires Raises(cfg, msgs, n, k) && 0 < k < |sns|
    ensures InStepAt(cfg, msgs, n, k)
  {
    var i: nat := k - 1;
    assert Taken(cfg, msgs, i, sns[i]);
    var m: nat :| TakenAt(cfg, msgs, i, sns[i], m);
    RaisesOnce(cfg, msgs, m, n, k);
    assert Clean(cfg, sns[i].state.buffer);
    TakenInStep(cfg, msgs, i, sns[i], m);
  }

  /**
   All checkpoints of a run are aligned if and only if the messages are delivered in step:
   a condition on the messages, which can be decided before the run.
   */
  lemma AlignedIffInStep(cfg: Config, op: OpState, msgs: seq<Message>, epochs: seq<u64>)
    requires cfg.channels != [] && Distinct(cfg.channels) && Rising(epochs)
    requires (forall m :: m in msgs ==> ControlLast(m.events)) && InEpochOrder(cfg, msgs, epochs)
    ensures AllAligned(cfg, Run(cfg, FreshNode(cfg, op), msgs).snapshots) <==> InStep(cfg, msgs)
  {
    var st := Run(cfg, FreshNode(cfg, op), msgs);
    RunKeepsProgress(cfg, FreshNode(cfg, op), msgs, epochs);
    RunTracks(cfg, op, msgs, epochs);
    if CleanBefore(cfg, st.snapshots, |st.snapshots| - 1) {
      TakenMeansInStep(cfg, op, msgs, epochs, st);
    }
  }

  lemma {:induction false} NoneLeft(s: seq<Event>, k: nat)
    requires |Markers(s)| <= k
    ensures Markers(AfterMarkers(s, k)) == []
  {
    if k > 0 && s != [] { NoneLeft(s[1..], if s[0].Epoch? then k - 1 else k); }
  }

  /** In particular: all are aligned if no channel delivers a marker before the one before it has come from every channel. */
  lemma NoEarlyMarkerMeansAligned(cfg: Config, op: OpState, msgs: seq<Message>, epochs: seq<u64>)
    requires cfg.channels != [] && Distinct(cfg.channels) && Rising(epochs)
    requires (forall m :: m in msgs ==> ControlLast(m.events)) && InEpochOrder(cfg, msgs, epochs)
    requires forall n: nat, k: nat, c :: Raises(cfg, msgs, n, k) && c in cfg.channels ==> |Markers(From(msgs[..n + 1], c))| <= k
    ensures AllAligned(cfg, Run(cfg, FreshNode(cfg, op), msgs).snapshots)
  {
    forall n: nat, k: nat | Raises(cfg, msgs, n, k) ensures InStepAt(cfg, msgs, n, k) {
      forall c | c in cfg.channels ensures NothingPastMarker(AfterMarkers(From(msgs[..n + 1], c), k)) {
        NoneLeft(From(msgs[..n + 1], c), k);
        NoMarkers(AfterMarkers(From(msgs[..n + 1], c), k));
      }
    }
    AlignedIffInStep(cfg, op, msgs, epochs);
  }
}
