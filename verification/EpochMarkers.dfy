/** The epoch markers in a stream, and streams cut at a marker. */
module EpochMarkers {
  import opened Streams

  /** The epochs of the markers in a stream, in order. */
  function Markers(s: seq<Event>): seq<u64> {
    if s == [] then []
    else (if s[0].Epoch? then [s[0].epoch] else []) + Markers(s[1..])
  }

  /** `h` ends at the first marker for epoch `e`. */
  ghost predicate Cut(h: seq<Event>, e: u64) {
    h != [] && h[|h| - 1] == Epoch(e) && Epoch(e) !in h[..|h| - 1]
  }

  /** At most the last event is a marker. */
  ghost predicate NothingPastMarker(s: seq<Event>) {
    forall i :: 0 <= i < |s| - 1 ==> !s[i].Epoch?
  }

  ghost predicate Rising(epochs: seq<u64>) {
    (forall i, j :: 0 <= i < j < |epochs| ==> epochs[i] < epochs[j]) &&
    (forall i :: 0 <= i < |epochs| ==> epochs[i] > 0)
  }

  lemma {:induction false} MarkersConcat(a: seq<Event>, b: seq<Event>)
    ensures Markers(a + b) == Markers(a) + Markers(b)
  {
    if a == [] {
      assert a + b == b;
    } else {
      var head := if a[0].Epoch? then [a[0].epoch] else [];
      assert (a + b)[1..] == a[1..] + b;
      MarkersConcat(a[1..], b);
      assert Markers(a + b) == head + (Markers(a[1..]) + Markers(b));
    }
  }

  lemma {:induction false} MarkersMember(s: seq<Event>, i: nat)
    requires i < |s| && s[i].Epoch?
    ensures s[i].epoch in Markers(s)
  {
    if i > 0 { MarkersMember(s[1..], i - 1); }
  }

  lemma {:induction false} NoMarkers(s: seq<Event>)
    ensures Markers(s) == [] <==> forall i :: 0 <= i < |s| ==> !s[i].Epoch?
  {
    if s != [] {
      NoMarkers(s[1..]);
      assert forall i :: 1 <= i < |s| ==> s[i] == s[1..][i - 1];
    }
  }

  lemma {:induction false} FirstMarker(s: seq<Event>) returns (i: nat)
    requires Markers(s) != []
    ensures i < |s| && s[i] == Epoch(Markers(s)[0])
    ensures forall j :: 0 <= j < i ==> !s[j].Epoch?
  {
    if s[0].Epoch? {
      i := 0;
    } else {
      var k := FirstMarker(s[1..]);
      i := k + 1;
      assert forall j :: 1 <= j < i ==> s[j] == s[1..][j - 1];
    }
  }

  /** A stream that has passed its first k markers and not the next, extended by one. */
  lemma CutAtMarker(h: seq<Event>, e: u64, epochs: seq<u64>, k: nat)
    requires Rising(epochs) && k < |epochs| && Markers(h) == epochs[..k] && e == epochs[k]
    ensures Cut(h + [Epoch(e)], e)
    ensures Markers(h + [Epoch(e)]) == epochs[..k + 1]
  {
    MarkersConcat(h, [Epoch(e)]);
    assert Markers([Epoch(e)][1..]) == [];
    assert (h + [Epoch(e)])[..|h|] == h;
    if Epoch(e) in h {
      var i :| 0 <= i < |h| && h[i] == Epoch(e);
      MarkersMember(h, i);
    }
  }

  lemma CutFixesMarkers(h: seq<Event>, epochs: seq<u64>, k: nat)
    requires Rising(epochs) && k < |epochs| && Markers(h) <= epochs && Cut(h, epochs[k])
    ensures Markers(h) == epochs[..k + 1]
  {
    var front, last := h[..|h| - 1], Epoch(epochs[k]);
    assert h == front + [last];
    MarkersConcat(front, [last]);
    MarkersOne(last);
    var ms := Markers(h);
    assert ms == Markers(front) + [epochs[k]];
    assert ms[|ms| - 1] == epochs[|ms| - 1];
  }

  lemma MarkersOne(ev: Event)
    ensures Markers([ev]) == if ev.Epoch? then [ev.epoch] else []
  {
    assert [ev][1..] == [];
  }

  /**
   After k + 1 markers the stream goes on with `b`. It is then cut at the next marker
   exactly when `b` brings that marker and nothing after it.
   */
  lemma CutAfterReplay(h: seq<Event>, b: seq<Event>, epochs: seq<u64>, k: nat)
    requires Rising(epochs) && k < |epochs| && Markers(h) == epochs[..k] && Markers(h + b) <= epochs
    requires Markers(b) != []
    ensures Cut(h + b, epochs[k]) <==> NothingPastMarker(b)
  {
    MarkersConcat(h, b);
    var i := FirstMarker(b);
    assert Markers(b)[0] == (Markers(h) + Markers(b))[k] == epochs[k];
    var s := h + b;
    var n := |s| - 1;
    assert s[|h| + i] == Epoch(epochs[k]);
    assert forall j :: 0 <= j < n ==> s[..n][j] == s[j];
    if Cut(s, epochs[k]) {
      assert |h| + i == n;
    }
    if NothingPastMarker(b) {
      assert i == |b| - 1;
      forall j | 0 <= j < n ensures s[j] != Epoch(epochs[k]) {
        if j < |h| {
          if h[j].Epoch? { MarkersMember(h, j); }
        } else {
          assert s[j] == b[j - |h|];
        }
      }
    }
  }
}
