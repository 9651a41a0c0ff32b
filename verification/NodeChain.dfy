/**
 Lateness along a chain of nodes. A node drops an element whose time stamp is not
 above the watermark its channel last delivered; here: what nodes running Map,
 Filter or FlatMap send on is such that no node after them ever drops anything.
 */
module NodeChain {
  import opened Streams
  import opened NodeModel
  import opened NodeInvariants
  import opened Strategies

  // ----- the function operators -----

  function Stamped(items: seq<Data>, ts: Option<u64>): (es: seq<Element>)
    ensures forall e :: e in es ==> e.timestamp == ts
  {
    seq(|items|, i requires 0 <= i < |items| => Element(items[i], ts))
  }

  function Ignore(s: OpState): Effect { Effect(s, [], []) }

  /** An operator whose elements keep the time stamp of their input and which outputs nothing else. */
  ghost predicate KeepsTimestamps(op: Operator) {
    && (forall s, now, e :: forall o :: o in op.onElement(s, now, e).outputs ==> o.timestamp == e.timestamp)
    && (forall s, now, w :: op.onWatermark(s, now, w).outputs == [])
    && (forall s, now, p :: op.onTimeout(s, now, p).outputs == [])
    && (forall s, now, ep :: op.onEpoch(s, now, ep).outputs == [])
  }

  function FlatMapped(udf: (OpState, Data) -> (OpState, seq<Data>), s: OpState, e: Element): (r: Effect)
    ensures forall o :: o in r.outputs ==> o.timestamp == e.timestamp
    ensures r.state == udf(s, e.data).0 && r.requests == [] && |r.outputs| == |udf(s, e.data).1|
    ensures forall i :: 0 <= i < |r.outputs| ==> r.outputs[i] == Element(udf(s, e.data).1[i], e.timestamp)
  {
    Effect(udf(s, e.data).0, [], Stamped(udf(s, e.data).1, e.timestamp))
  }

  function FlatMapOperator(udf: (OpState, Data) -> (OpState, seq<Data>)): (op: Operator)
    ensures KeepsTimestamps(op)
    ensures forall s, now, e :: op.onElement(s, now, e) == FlatMapped(udf, s, e)
    ensures forall s, now, w :: op.onWatermark(s, now, w) == op.onEpoch(s, now, w) == Effect(s, [], [])
    ensures forall s, now, p :: op.onTimeout(s, now, p) == Effect(s, [], [])
  {
    var op := Operator(
      (s, now, e: Element) => FlatMapped(udf, s, e),
      (s, now, w) => Ignore(s),
      (s, now, p) => Ignore(s),
      (s, now, ep) => Ignore(s));
    assert forall s, now, e :: op.onElement(s, now, e) == FlatMapped(udf, s, e);
    op
  }

  function MapOperator(udf: (OpState, Data) -> (OpState, Data)): (op: Operator)
    ensures KeepsTimestamps(op)
    ensures forall s, now, e ::
      op.onElement(s, now, e) == Effect(udf(s, e.data).0, [], [Element(udf(s, e.data).1, e.timestamp)])
  {
    FlatMapOperator((s, d) => (udf(s, d).0, [udf(s, d).1]))
  }

  function FilterOperator(udf: (OpState, Data) -> (OpState, bool)): (op: Operator)
    ensures KeepsTimestamps(op)
    ensures forall s, now, e ::
      op.onElement(s, now, e) == Effect(udf(s, e.data).0, [], if udf(s, e.data).1 then [e] else [])
  {
    FlatMapOperator((s, d) => (udf(s, d).0, if udf(s, d).1 then [d] else []))
  }

  // ----- streams on which nothing is late -----

  /** No element is at time zero, and none is at or below a watermark that precedes it. */
  ghost predicate NotLate(stream: seq<Event>) {
    && (forall i :: 0 <= i < |stream| && stream[i].Item? ==> TimeOf(stream[i].element) > 0)
    && (forall i, j :: 0 <= i < j < |stream| && stream[i].Watermark? && stream[j].Item? ==>
          TimeOf(stream[j].element) > stream[i].time)
  }

  lemma {:induction false} SilentTimeouts(cfg: Config, st: NodeState, due: seq<Timeout>)
    requires KeepsTimestamps(cfg.op)
    ensures FireAll(cfg, st, due).out == st.out
    decreases |due|
  {
    if due != [] {
      InvokeFrame(cfg.op, st, OnTimeout(due[0]));
      SilentTimeouts(cfg, Invoke(cfg.op, st, OnTimeout(due[0])), due[1..]);
    }
  }

  lemma RaiseSendsOnlyWatermark(cfg: Config, st: NodeState, w: u64)
    requires KeepsTimestamps(cfg.op)
    ensures RaiseWatermark(cfg, st, w).out == st.out + [Watermark(w)]
  {
    var st1 := st.(p := st.p.(current := w));
    InvokeFrame(cfg.op, st1, OnWatermark(w));
    var st2 := Invoke(cfg.op, st1, OnWatermark(w));
    if st2.p.now <= w && |st2.wheel| == |st2.p.timeouts| {
      var (st3, due) := Expire(st2, w);
      SilentTimeouts(cfg, st3, due);
    }
  }

  lemma ElementSendsNothingLate(cfg: Config, st: NodeState, s: NodeId, e: Element)
    requires s in st.p.watermarks && KeepsTimestamps(cfg.op) && NotLate(st.out)
    requires forall i :: 0 <= i < |st.out| && st.out[i].Watermark? ==> st.out[i].time <= st.p.watermarks[s]
    ensures NotLate(TakeElement(cfg, st, s, e).out)
  {
    var eff := cfg.op.onElement(st.p.op, st.p.now, e);
    InvokeFrame(cfg.op, st, OnElement(e));
    if TimeOf(e) > st.p.watermarks[s] {
      forall i | 0 <= i < |eff.outputs| ensures TimeOf(eff.outputs[i]) == TimeOf(e) {
        assert eff.outputs[i] in eff.outputs;
      }
    }
  }

  /** Whatever arrives, what such a node sends stays free of late elements. */
  lemma StepSendsNothingLate(cfg: Config, st: NodeState, s: NodeId, ev: Event)
    requires s in cfg.channels && Inv(cfg, st) && KeepsTimestamps(cfg.op) && NotLate(st.out)
    ensures NotLate(Step(cfg, st, s, ev).out)
  {
    var st0 := st.(log := st.log + [Handled(s, ev)]);
    match ev
    case Item(e) =>
      assert st.p.watermarks[s] >= st.p.current;
      ElementSendsNothingLate(cfg, st0, s, e);
    case Watermark(w) =>
      var st1 := st0.(p := st0.p.(watermarks := st0.p.watermarks[s := w]));
      assert s in st1.p.watermarks.Keys;
      RaiseSendsOnlyWatermark(cfg, st1, MinOf(st1.p.watermarks));
    case Epoch(e) =>
      var st1 := st0.(p := st0.p.(blocked := st0.p.blocked + {s}, epoch := e));
      InvokeFrame(cfg.op, st1, OnEpoch(e));
    case Death(_) =>
  }

  lemma {:induction false} StepsSendNothingLate(cfg: Config, st: NodeState, tr: seq<Handled>)
    requires Inv(cfg, st) && KeepsTimestamps(cfg.op) && NotLate(st.out)
    requires forall h :: h in tr ==> h.sender in cfg.channels
    ensures NotLate(Steps(cfg, st, tr).out)
    decreases |tr|
  {
    if tr != [] {
      StepInv(cfg, st, tr[0].sender, tr[0].event);
      StepSendsNothingLate(cfg, st, tr[0].sender, tr[0].event);
      StepsSendNothingLate(cfg, Step(cfg, st, tr[0].sender, tr[0].event), tr[1..]);
    }
  }

  lemma {:induction false} RunSendsNothingLate(cfg: Config, st: NodeState, msgs: seq<Message>)
    requires Inv(cfg, st) && KeepsTimestamps(cfg.op) && NotLate(st.out)
    ensures NotLate(Run(cfg, st, msgs).out)
    decreases |msgs|
  {
    if msgs != [] {
      var front, m := msgs[..|msgs| - 1], msgs[|msgs| - 1];
      RunSendsNothingLate(cfg, st, front);
      RunKeepsInv(cfg, st, front);
      var mid := Run(cfg, st, front);
      if m.sender in cfg.channels && m.sender !in mid.p.blocked {
        var tr := FlatEvents(cfg, mid, m.sender, m.events);
        StepsSendNothingLate(cfg, mid, tr);
      }
    }
  }

  // ----- a node whose channels deliver such streams drops nothing -----

  /** A channel's stored watermark is zero or one that the channel delivered. */
  ghost predicate WatermarksDelivered(cfg: Config, st: NodeState) {
    forall c :: c in cfg.channels ==>
      c in st.p.watermarks && (st.p.watermarks[c] == 0 || Watermark(st.p.watermarks[c]) in Of(st.log, c))
  }

  lemma StepDropsNothing(cfg: Config, st: NodeState, s: NodeId, ev: Event)
    requires s in cfg.channels && WatermarksDelivered(cfg, st)
    requires NotLate(Of(st.log, s) + [ev])
    ensures var r := Step(cfg, st, s, ev); r.late == st.late && WatermarksDelivered(cfg, r)
  {
    StepFrame(cfg, st, s, ev);
    var r := Step(cfg, st, s, ev);
    var st0 := st.(log := st.log + [Handled(s, ev)]);
    forall c ensures Of(r.log, c) == Of(st.log, c) + (if c == s then [ev] else []) {
      OfConcat(st.log, [Handled(s, ev)], c);
      assert Of([Handled(s, ev)][1..], c) == [];
    }
    match ev
    case Item(e) =>
      var seen := Of(st.log, s);
      assert (seen + [ev])[|seen|] == ev;
      assert TimeOf(e) > st.p.watermarks[s] by {
        if st.p.watermarks[s] != 0 {
          var i :| 0 <= i < |seen| && seen[i] == Watermark(st.p.watermarks[s]);
          assert (seen + [ev])[i] == seen[i];
        }
      }
      InvokeFrame(cfg.op, st0, OnElement(e));
    case Watermark(w) =>
      TakeWatermarkFrame(cfg, st0, s, w);
    case Epoch(e) =>
      var st1 := st0.(p := st0.p.(blocked := st0.p.blocked + {s}, epoch := e));
      InvokeFrame(cfg.op, st1, OnEpoch(e));
    case Death(_) =>
  }

  lemma PrefixNotLate(a: seq<Event>, b: seq<Event>)
    requires a <= b && NotLate(b)
    ensures NotLate(a)
  {
  }

  lemma FirstIsNotLate(log: seq<Handled>, tr: seq<Handled>)
    requires tr != [] && NotLate(Of(log + tr, tr[0].sender))
    ensures NotLate(Of(log, tr[0].sender) + [tr[0].event])
  {
    var s, one := tr[0].sender, [tr[0]];
    assert log + tr == log + one + tr[1..];
    OfConcat(log + one, tr[1..], s);
    OfConcat(log, one, s);
    assert Of(one[1..], s) == [] && Of(one, s) == [tr[0].event];
    PrefixNotLate(Of(log, s) + [tr[0].event], Of(log + tr, s));
  }

  lemma {:induction false} StepsDropNothing(cfg: Config, st: NodeState, tr: seq<Handled>)
    requires Sane(cfg, st) && WatermarksDelivered(cfg, st)
    requires forall h :: h in tr ==> h.sender in cfg.channels
    requires forall c :: c in cfg.channels ==> NotLate(Of(st.log + tr, c))
    ensures var r := Steps(cfg, st, tr); r.late == st.late && WatermarksDelivered(cfg, r)
    decreases |tr|
  {
    if tr != [] {
      var s, ev := tr[0].sender, tr[0].event;
      FirstIsNotLate(st.log, tr);
      Regroup(st.log, [tr[0]], tr[1..]);
      assert [tr[0]] + tr[1..] == tr;
      StepSane(cfg, st, s, ev);
      StepFrame(cfg, st, s, ev);
      StepDropsNothing(cfg, st, s, ev);
      assert Step(cfg, st, s, ev).log + tr[1..] == st.log + tr;
      StepsDropNothing(cfg, Step(cfg, st, s, ev), tr[1..]);
    }
  }

  /** For any number of input channels and any interleaving of their messages. */
  lemma {:induction false} RunDropsNothing(cfg: Config, st: NodeState, msgs: seq<Message>)
    requires Inv(cfg, st) && st.log == [] && st.p.buffer == [] && WatermarksDelivered(cfg, st)
    requires forall c :: c in cfg.channels ==> NotLate(From(msgs, c))
    ensures Run(cfg, st, msgs).late == st.late && WatermarksDelivered(cfg, Run(cfg, st, msgs))
    decreases |msgs|
  {
    if msgs != [] {
      var front, m := msgs[..|msgs| - 1], msgs[|msgs| - 1];
      var mid := Run(cfg, st, front);
      assert msgs == front + [m];
      forall c | c in cfg.channels ensures NotLate(From(front, c)) {
        FromConcat(front, [m], c);
        PrefixNotLate(From(front, c), From(msgs, c));
      }
      RunDropsNothing(cfg, st, front);
      RunKeepsInv(cfg, st, front);
      if m.sender in cfg.channels && m.sender !in mid.p.blocked {
        var tr := FlatEvents(cfg, mid, m.sender, m.events);
        StepsLog(cfg, mid, tr);
        EveryRun(cfg, st, msgs);
        forall c | c in cfg.channels ensures NotLate(Of(mid.log + tr, c)) {
          PrefixNotLate(Of(mid.log + tr, c), From(msgs, c));
        }
        StepsDropNothing(cfg, mid, tr);
      }
    }
  }

  /**
   One link of a chain, hence every link: the downstream node is fed, in whatever
   batches, a prefix of what the upstream node has sent. It drops nothing.
   */
  lemma OnlyTheFirstNodeDrops(up: Config, upMsgs: seq<Message>, upOp: OpState,
                              down: Config, downMsgs: seq<Message>, downOp: OpState)
    requires up.channels != [] && KeepsTimestamps(up.op)
    requires |down.channels| == 1
    requires From(downMsgs, down.channels[0]) <= Run(up, FreshNode(up, upOp), upMsgs).out
    ensures Run(down, FreshNode(down, downOp), downMsgs).late == []
  {
    var a := FreshNode(up, upOp);
    var b := FreshNode(down, downOp);
    RunSendsNothingLate(up, a, upMsgs);
    var c := down.channels[0];
    PrefixNotLate(From(downMsgs, c), Run(up, a, upMsgs).out);
    assert New(down, FreshStore(downOp)).value.p.watermarks[c] == 0;
    assert down.channels == [c];
    RunDropsNothing(down, b, downMsgs);
  }

  // ----- whole chains -----

  /** The messages that have arrived of those a Forward strategy has sent. */
  ghost predicate Carries(f: Forward, sender: NodeId, msgs: seq<Message>)
    reads f
  {
    |msgs| <= |f.sent| && forall k :: 0 <= k < |msgs| ==> msgs[k] == Message(sender, f.sent[k])
  }

  lemma {:induction false} CarriedEvents(sender: NodeId, sent: seq<seq<Event>>, msgs: seq<Message>)
    requires |msgs| <= |sent| && forall k :: 0 <= k < |msgs| ==> msgs[k] == Message(sender, sent[k])
    ensures From(msgs, sender) <= Flatten(sent)
  {
    if msgs != [] {
      CarriedEvents(sender, sent[1..], msgs[1..]);
      assert From(msgs, sender) == sent[0] + From(msgs[1..], sender);
      assert Flatten(sent) == sent[0] + Flatten(sent[1..]);
    }
  }

  /** What a node receives through a Forward strategy is a prefix of what was given to the strategy. */
  lemma ForwardCarriesPrefix(f: Forward, sender: NodeId, msgs: seq<Message>)
    requires f.Valid() && Carries(f, sender, msgs)
    ensures From(msgs, sender) <= f.added
  {
    CarriedEvents(sender, f.sent, msgs);
    assert Flatten(f.sent) <= f.added;
  }

  /**
   A link: the downstream node has one input channel, and what has arrived on it is what
   the Forward strategy of the upstream node, given all of that node's output, has sent.
   */
  ghost predicate Linked(up: Config, upOp: OpState, upMsgs: seq<Message>, f: Forward, down: Config, downMsgs: seq<Message>)
    requires up.channels != []
    reads f
  {
    && KeepsTimestamps(up.op)
    && f.Valid() && f.added == Run(up, FreshNode(up, upOp), upMsgs).out
    && |down.channels| == 1 && Carries(f, down.channels[0], downMsgs)
  }

  ghost predicate Chained(cfgs: seq<Config>, ops: seq<OpState>, inputs: seq<seq<Message>>, links: seq<Forward>)
    reads links
  {
    && |ops| == |inputs| == |cfgs| && |links| + 1 == |cfgs|
    && (forall j :: 0 <= j < |cfgs| ==> cfgs[j].channels != [])
    && forall j :: 0 <= j < |links| ==> Linked(cfgs[j], ops[j], inputs[j], links[j], cfgs[j + 1], inputs[j + 1])
  }

  /** In a chain of any length, whatever arrives at its first node, no later node drops anything. */
  lemma ChainDropsNothing(cfgs: seq<Config>, ops: seq<OpState>, inputs: seq<seq<Message>>, links: seq<Forward>, i: nat)
    requires Chained(cfgs, ops, inputs, links) && 0 < i < |cfgs|
    ensures Run(cfgs[i], FreshNode(cfgs[i], ops[i]), inputs[i]).late == []
  {
    var j := i - 1;
    assert Linked(cfgs[j], ops[j], inputs[j], links[j], cfgs[j + 1], inputs[j + 1]);
    ForwardCarriesPrefix(links[j], cfgs[i].channels[0], inputs[i]);
    OnlyTheFirstNodeDrops(cfgs[j], inputs[j], ops[j], cfgs[i], inputs[i], ops[i]);
  }
}
