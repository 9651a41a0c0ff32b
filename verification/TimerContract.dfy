/**
 What advancing a timer means, apart from how it is done: of the pending entries,
 exactly those due by the new time leave, in the order of their deadlines.
 */
module TimerContract {
  import opened Streams

  datatype Due<E> = Due(deadline: int, payload: E)

  ghost predicate ByDeadline<E>(s: seq<Due<E>>) {
    forall i, j :: 0 <= i < j < |s| ==> s[i].deadline <= s[j].deadline
  }

  ghost predicate Advanced<E(!new)>(before: multiset<Due<E>>, ts: int, fired: seq<Due<E>>, after: multiset<Due<E>>) {
    && before == after + multiset(fired)
    && ByDeadline(fired)
    && (forall x :: x in fired ==> x.deadline <= ts)
    && (forall x :: x in after ==> x.deadline > ts)
  }

  function Payloads<E>(fired: seq<Due<E>>): seq<E> {
    seq(|fired|, i requires 0 <= i < |fired| => fired[i].payload)
  }

  /** Advancing in two steps is advancing in one, and the firings follow each other. */
  lemma AdvancedTwice<E(!new)>(a: multiset<Due<E>>, t1: int, f1: seq<Due<E>>, b: multiset<Due<E>>,
                               t2: int, f2: seq<Due<E>>, c: multiset<Due<E>>)
    requires t1 <= t2 && Advanced(a, t1, f1, b) && Advanced(b, t2, f2, c)
    ensures Advanced(a, t2, f1 + f2, c)
  {
    var f := f1 + f2;
    forall i, j | 0 <= i < j < |f| ensures f[i].deadline <= f[j].deadline {
      if i < |f1| <= j {
        assert f1[i] in f1 && f2[j - |f1|] in f2;
        assert f2[j - |f1|] in multiset(f2);
        assert f2[j - |f1|] in b;
      }
    }
  }

  lemma AdvancedIdle<E(!new)>(a: multiset<Due<E>>, t1: int, f: seq<Due<E>>, b: multiset<Due<E>>, t2: int)
    requires t1 <= t2 && Advanced(a, t1, f, b) && forall x :: x in b ==> x.deadline > t2
    ensures Advanced(a, t2, f, b)
  {
  }

  /** One tick: everything that leaves was due at the same time. */
  lemma OneTick<E(!new)>(before: multiset<Due<E>>, ts: int, batch: seq<Due<E>>, after: multiset<Due<E>>)
    requires before == after + multiset(batch)
    requires (forall x :: x in batch ==> x.deadline == ts) && (forall x :: x in after ==> x.deadline > ts)
    ensures Advanced(before, ts, batch, after)
  {
    forall i, j | 0 <= i < j < |batch| ensures batch[i].deadline <= batch[j].deadline {
      assert batch[i] in batch && batch[j] in batch;
    }
  }

  lemma PayloadsConcat<E>(a: seq<Due<E>>, b: seq<Due<E>>)
    ensures Payloads(a + b) == Payloads(a) + Payloads(b)
  {
  }

  /** What fires, and what stays, is determined; only entries with equal deadlines may change places. */
  lemma AdvancedUnique<E(!new)>(a: multiset<Due<E>>, ts: int, f: seq<Due<E>>, b: multiset<Due<E>>, g: seq<Due<E>>, c: multiset<Due<E>>)
    requires Advanced(a, ts, f, b) && Advanced(a, ts, g, c)
    ensures b == c && multiset(f) == multiset(g)
  {
    forall x ensures b[x] == c[x] && multiset(f)[x] == multiset(g)[x] {
      assert a[x] == b[x] + multiset(f)[x] == c[x] + multiset(g)[x];
      if x.deadline <= ts {
        assert x !in b && x !in c;
      } else {
        assert x !in multiset(f) && x !in multiset(g);
      }
    }
  }

  /** The slow timer: one batch a tick, each holding what is due at that tick, in any order. */
  ghost predicate SlowRun<E(!new)>(now: int, before: multiset<Due<E>>, batches: seq<seq<Due<E>>>, after: multiset<Due<E>>)
    decreases |batches|
  {
    if batches == [] then before == after
    else
      var n := |batches| - 1;
      var last := batches[n];
      (forall x :: x in last ==> x.deadline == now + |batches|) &&
      (forall x :: x in after ==> x.deadline != now + |batches|) &&
      SlowRun(now, before, batches[..n], after + multiset(last))
  }

  /** The firings of the last tick can be split off. */
  lemma SplitLastTick<E(!new)>(before: multiset<Due<E>>, ts: int, fired: seq<Due<E>>, after: multiset<Due<E>>) returns (k: nat)
    requires Advanced(before, ts, fired, after)
    ensures k <= |fired|
    ensures Advanced(before, ts - 1, fired[..k], after + multiset(fired[k..]))
    ensures forall x :: x in fired[k..] ==> x.deadline == ts
  {
    k := |fired|;
    while k > 0 && fired[k - 1].deadline == ts
      invariant 0 <= k <= |fired|
      invariant forall i :: k <= i < |fired| ==> fired[i].deadline == ts
    {
      k := k - 1;
    }
    var front, last := fired[..k], fired[k..];
    assert fired == front + last;
    forall x | x in front ensures x.deadline <= ts - 1 {
      var i :| 0 <= i < k && front[i] == x;
      assert fired[i] in fired && fired[k - 1] in fired;
      assert fired[i].deadline <= fired[k - 1].deadline;
    }
    forall x | x in after + multiset(last) ensures x.deadline > ts - 1 {
      assert x in after || x in last;
    }
  }

  lemma NothingDue<E(!new)>(before: multiset<Due<E>>, now: int, fired: seq<Due<E>>, after: multiset<Due<E>>)
    requires forall x :: x in before ==> x.deadline > now
    requires Advanced(before, now, fired, after)
    ensures fired == [] && before == after
  {
    assert forall x :: x in fired ==> x in multiset(fired) && x in before;
    assert forall x :: x in multiset(fired) ==> x in fired;
    assert multiset(fired) == multiset{};
    assert |multiset(fired)| == |fired|;
  }

  lemma SlowSnoc<E(!new)>(now: int, before: multiset<Due<E>>, batches: seq<seq<Due<E>>>, last: seq<Due<E>>, after: multiset<Due<E>>)
    requires SlowRun(now, before, batches, after + multiset(last))
    requires forall x :: x in last ==> x.deadline == now + |batches| + 1
    requires forall x :: x in after ==> x.deadline > now + |batches| + 1
    ensures SlowRun(now, before, batches + [last], after)
  {
    assert (batches + [last])[..|batches|] == batches;
  }

  /** Every fast result is a result of the slow timer, tick by tick. */
  lemma {:induction false} FastIsSlow<E(!new)>(now: int, ts: int, before: multiset<Due<E>>, fired: seq<Due<E>>, after: multiset<Due<E>>)
    returns (batches: seq<seq<Due<E>>>)
    requires now <= ts && forall x :: x in before ==> x.deadline > now
    requires Advanced(before, ts, fired, after)
    ensures |batches| == ts - now && Flatten(batches) == fired
    ensures SlowRun(now, before, batches, after)
    decreases ts - now
  {
    if ts == now {
      NothingDue(before, now, fired, after);
      batches := [];
    } else {
      var k := SplitLastTick(before, ts, fired, after);
      var bs := FastIsSlow(now, ts - 1, before, fired[..k], after + multiset(fired[k..]));
      assert fired == fired[..k] + fired[k..];
      batches := bs + [fired[k..]];
      FlattenSnoc(bs, fired[k..]);
      assert forall x :: x in after ==> x.deadline > ts;
      SlowSnoc(now, before, bs, fired[k..], after);
    }
  }

  /** And every result of the slow timer is a fast result. */
  lemma {:induction false} SlowIsFast<E(!new)>(now: int, before: multiset<Due<E>>, batches: seq<seq<Due<E>>>, after: multiset<Due<E>>)
    requires forall x :: x in before ==> x.deadline > now
    requires SlowRun(now, before, batches, after)
    ensures Advanced(before, now + |batches|, Flatten(batches), after)
    decreases |batches|
  {
    if batches == [] {
      assert multiset(Flatten(batches)) == multiset{};
    } else {
      var n := |batches| - 1;
      var last := batches[n];
      var mid := after + multiset(last);
      SlowIsFast(now, before, batches[..n], mid);
      assert batches == batches[..n] + [last];
      FlattenSnoc(batches[..n], last);
      assert Advanced(mid, now + |batches|, last, after) by {
        forall i, j | 0 <= i < j < |last| ensures last[i].deadline <= last[j].deadline {
          assert last[i] in last && last[j] in last;
        }
        forall x | x in after ensures x.deadline > now + |batches| {
          assert x in mid;
        }
      }
      AdvancedTwice(before, now + n, Flatten(batches[..n]), mid, now + |batches|, last, after);
    }
  }
}
