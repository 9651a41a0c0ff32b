/** The queue that stands for the timer inside the node model meets the same contract. */
module NodeTimerContract {
  import opened Streams
  import opened TimerContract
  import opened NodeModel
  import opened NodeInvariants

  function Dues(ts: seq<Timeout>): seq<Due<Payload>> {
    seq(|ts|, i requires 0 <= i < |ts| => Due(ts[i].Deadline(), ts[i].payload))
  }

  lemma DuesBounds(ts: seq<Timeout>, t: int)
    ensures (forall x :: x in ts ==> x.Deadline() <= t) ==> forall d :: d in Dues(ts) ==> d.deadline <= t
    ensures (forall x :: x in ts ==> x.Deadline() > t) ==> forall d :: d in multiset(Dues(ts)) ==> d.deadline > t
  {
    forall d | d in Dues(ts) ensures exists x :: x in ts && x.Deadline() == d.deadline {
      var i :| 0 <= i < |ts| && Dues(ts)[i] == d;
      assert ts[i] in ts;
    }
    assert forall d :: d in multiset(Dues(ts)) ==> d in Dues(ts);
  }

  lemma DuesSorted(wheel: seq<nat>, ts: seq<Timeout>, now: u64, n: nat)
    requires InSync(wheel, ts, now) && n <= |ts|
    ensures ByDeadline(Dues(ts[..n]))
  {
    forall i, j | 0 <= i < j < n ensures Dues(ts[..n])[i].deadline <= Dues(ts[..n])[j].deadline {
      assert wheel[i] <= wheel[j];
    }
  }

  lemma DuesConcat(a: seq<Timeout>, b: seq<Timeout>)
    ensures multiset(Dues(a + b)) == multiset(Dues(b)) + multiset(Dues(a))
  {
    assert Dues(a + b) == Dues(a) + Dues(b);
  }

  lemma NodeTimerAdvances(st: NodeState, ts: u64)
    requires TimerInSync(st) && st.p.now <= ts
    ensures Advanced(multiset(Dues(st.p.timeouts)), ts, Dues(Expire(st, ts).1), multiset(Dues(Expire(st, ts).0.p.timeouts)))
  {
    var due, rest := Expire(st, ts).1, Expire(st, ts).0.p.timeouts;
    ExpireIsExact(st, ts);
    DuesBounds(due, ts);
    DuesBounds(rest, ts);
    DuesSorted(st.wheel, st.p.timeouts, st.p.now, |due|);
    assert due == st.p.timeouts[..|due|];
    DuesConcat(due, rest);
  }
}
