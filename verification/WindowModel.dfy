/**
 Sliding event-time windows. A key's windows start at its first element; window i
 covers [start + i * slide, start + i * slide + length) and fires once the clock has
 reached its end plus the allowed lateness.
 */
module WindowModel {
  import opened Streams
  import opened Arithmetic
  import opened TimerContract

  datatype WindowEvent = WindowEvent(key: u64, index: nat, timestamp: int)

  datatype Win = Win(key: u64, index: nat)

  datatype Params = Params(length: u64, slide: u64, late: u64)

  /** The source refuses other parameters when the assigner is built. */
  ghost predicate Proper(p: Params) {
    0 < p.slide <= p.length && p.length % p.slide == 0
  }

  datatype WindowState = WindowState(
    start: map<u64, u64>,
    active: set<Win>,
    buffers: map<Win, seq<Data>>,
    pending: multiset<Due<WindowEvent>>,
    now: u64)

  function Lo(p: Params, start: u64, index: nat): int { start + index * p.slide }

  function Hi(p: Params, start: u64, index: nat): int { Lo(p, start, index) + p.length }

  function Trigger(p: Params, start: u64, w: Win): Due<WindowEvent> {
    Due(Hi(p, start, w.index) + p.late, WindowEvent(w.key, w.index, Hi(p, start, w.index)))
  }

  // ----- which windows an element belongs to -----

  function Ceil(p: Params, start: u64, ts: u64): nat
    requires Proper(p) && start <= ts
  {
    Div(ts - start, p.slide)
  }

  function Floor(p: Params, start: u64, ts: u64): nat
    requires Proper(p) && start <= ts
  {
    var q := Div(p.length, p.slide);
    if Ceil(p, start, ts) >= q then Ceil(p, start, ts) - q + 1 else 0
  }

  /** The index range the source computes is exactly the set of windows that cover `ts`. */
  lemma IndexRangeIsExact(p: Params, start: u64, ts: u64, i: nat)
    requires Proper(p) && start <= ts
    ensures Floor(p, start, ts) <= i <= Ceil(p, start, ts) <==> Lo(p, start, i) <= ts < Hi(p, start, i)
    ensures Floor(p, start, ts) <= Ceil(p, start, ts)
  {
    var d, s := ts - start, p.slide;
    var c := Ceil(p, start, ts);
    var q := Div(p.length, s);
    Quotient(p.length, s);
    Quotient(d, s);
    MulOrder(q, 0, s);
    RangeOf(d, s, c, q, i);
    assert q * s == p.length;
  }

  lemma RangeOf(d: int, s: int, c: int, q: int, i: int)
    requires s > 0 && c * s <= d < (c + 1) * s
    ensures i <= c <==> i * s <= d
    ensures i >= c - q + 1 <==> d < i * s + q * s
  {
    MulOrder(i, c, s);
    MulOrder(c + 1, i, s);
    MulOrder(i + q, c, s);
    MulOrder(c + 1, i + q, s);
    assert (i + q) * s == i * s + q * s;
  }

  // ----- what an element and a timeout do -----

  function Buf(ws: WindowState, w: Win): seq<Data> {
    if w in ws.buffers then ws.buffers[w] else []
  }

  /** Adds an element to one window, opening it with its trigger when it is not active. */
  function Put(p: Params, ws: WindowState, w: Win, x: Data): WindowState
    requires w.key in ws.start
  {
    var ws1 := ws.(buffers := ws.buffers[w := Buf(ws, w) + [x]]);
    if w in ws.active then ws1
    else ws1.(active := ws.active + {w}, pending := ws.pending + multiset{Trigger(p, ws.start[w.key], w)})
  }

  function PutFrom(p: Params, ws: WindowState, key: u64, lo: nat, hi: nat, x: Data): (r: WindowState)
    requires key in ws.start
    ensures r.start == ws.start && r.now == ws.now
    decreases hi + 1 - lo
  {
    if lo > hi then ws else PutFrom(p, Put(p, ws, Win(key, lo), x), key, lo + 1, hi, x)
  }

  predicate Late(p: Params, ws: WindowState, ts: u64) {
    ts < (if ws.now >= p.late then ws.now - p.late else 0)
  }

  function Started(ws: WindowState, key: u64, ts: u64): WindowState {
    if key in ws.start then ws else ws.(start := ws.start[key := ts])
  }

  /** The source subtracts the key's start from an element that is not late: it must not be older. */
  predicate Admissible(p: Params, ws: WindowState, key: u64, ts: u64) {
    !Late(p, ws, ts) && key in ws.start ==> ws.start[key] <= ts
  }

  /** No subtraction or addition of the source fails: the element is late, or not too old and its windows end in time. */
  ghost predicate Takes(p: Params, ws: WindowState, key: u64, ts: u64)
    requires Proper(p)
  {
    Late(p, ws, ts) ||
    (Admissible(p, ws, key, ts) &&
     var start := if key in ws.start then ws.start[key] else ts;
     Trigger(p, start, Win(key, Ceil(p, start, ts))).deadline <= U64_MAX)
  }

  lemma EarlierWindowsEndEarlier(p: Params, start: u64, key: u64, i: nat, j: nat)
    requires Proper(p) && i <= j
    ensures Trigger(p, start, Win(key, i)).deadline <= Trigger(p, start, Win(key, j)).deadline
  {
    MulOrder(i, j, p.slide);
  }

  function TakeElement(p: Params, ws: WindowState, key: u64, ts: u64, x: Data): WindowState
    requires Proper(p) && Admissible(p, ws, key, ts)
  {
    if Late(p, ws, ts) then ws
    else
      var ws1 := Started(ws, key, ts);
      PutFrom(p, ws1, key, Floor(p, ws1.start[key], ts), Ceil(p, ws1.start[key], ts), x)
  }

  /** A trigger closes its window and yields the elements collected in it. */
  function Close(ws: WindowState, e: WindowEvent): WindowState {
    ws.(buffers := ws.buffers - {Win(e.key, e.index)}, active := ws.active - {Win(e.key, e.index)})
  }

  // ----- runs -----

  datatype Accepted = Accepted(key: u64, ts: u64, data: Data)

  datatype Result = Result(win: Win, contents: seq<Data>, timestamp: int)

  /** A state with its history: the elements that were not late, the windows that fired. */
  datatype Run = Run(ws: WindowState, accepted: seq<Accepted>, results: seq<Result>)

  function Arrive(p: Params, r: Run, key: u64, ts: u64, x: Data): Run
    requires Proper(p) && Admissible(p, r.ws, key, ts)
  {
    r.(ws := TakeElement(p, r.ws, key, ts, x),
       accepted := if Late(p, r.ws, ts) then r.accepted else r.accepted + [Accepted(key, ts, x)])
  }

  function CloseAll(r: Run, fired: seq<Due<WindowEvent>>): Run
    decreases |fired|
  {
    if fired == [] then r
    else
      var e := fired[0].payload;
      CloseAll(r.(ws := Close(r.ws, e),
                  results := r.results + [Result(Win(e.key, e.index), Buf(r.ws, Win(e.key, e.index)), e.timestamp)]),
               fired[1..])
  }

  /** The clock moves to `ts`; `fired` is what the timer hands out, `rest` what it keeps. */
  function Reach(r: Run, ts: u64, fired: seq<Due<WindowEvent>>, rest: multiset<Due<WindowEvent>>): Run {
    CloseAll(r.(ws := r.ws.(now := ts, pending := rest)), fired)
  }

  /** An element arrives that is late or not older than its key's start. */
  ghost predicate Arrives(p: Params, a: Run, b: Run, key: u64, ts: u64, x: Data)
    requires Proper(p)
  {
    Admissible(p, a.ws, key, ts) && b == Arrive(p, a, key, ts, x)
  }

  /** The clock moves on, and the timer hands out what is due. */
  ghost predicate Reaches(a: Run, b: Run, ts: u64, fired: seq<Due<WindowEvent>>, rest: multiset<Due<WindowEvent>>) {
    a.ws.now <= ts && Advanced(a.ws.pending, ts, fired, rest) && b == Reach(a, ts, fired, rest)
  }

  ghost predicate Next(p: Params, a: Run, b: Run)
    requires Proper(p)
  {
    || (exists key: u64, ts: u64, x: Data :: Arrives(p, a, b, key, ts, x))
    || (exists ts: u64, fired: seq<Due<WindowEvent>>, rest: multiset<Due<WindowEvent>> :: Reaches(a, b, ts, fired, rest))
  }

  const INITIAL := Run(WindowState(map[], {}, map[], multiset{}, 0), [], [])

  // ----- what is true of every run -----

  /** The accepted elements of a key with a time stamp in [lo, hi), in order of arrival. */
  function Select(accepted: seq<Accepted>, key: u64, lo: int, hi: int): seq<Data> {
    if accepted == [] then []
    else
      var n := |accepted| - 1;
      var x := accepted[n];
      Select(accepted[..n], key, lo, hi) + if x.key == key && lo <= x.ts < hi then [x.data] else []
  }

  lemma SelectSnoc(accepted: seq<Accepted>, x: Accepted, key: u64, lo: int, hi: int)
    ensures Select(accepted + [x], key, lo, hi) ==
            Select(accepted, key, lo, hi) + if x.key == key && lo <= x.ts < hi then [x.data] else []
  {
    assert (accepted + [x])[..|accepted|] == accepted;
  }

  lemma {:induction false} SelectNone(accepted: seq<Accepted>, key: u64, lo: int, hi: int)
    requires forall i :: 0 <= i < |accepted| ==> accepted[i].key != key
    ensures Select(accepted, key, lo, hi) == []
  {
    if accepted != [] { SelectNone(accepted[..|accepted| - 1], key, lo, hi); }
  }

  function Members(p: Params, r: Run, w: Win): seq<Data>
    requires w.key in r.ws.start
  {
    Select(r.accepted, w.key, Lo(p, r.ws.start[w.key], w.index), Hi(p, r.ws.start[w.key], w.index))
  }

  ghost predicate Fired(r: Run, w: Win) {
    exists j :: 0 <= j < |r.results| && r.results[j].win == w
  }

  /** The pending triggers are exactly those of the active windows, each once. */
  ghost predicate TriggersMatch(p: Params, ws: WindowState) {
    forall x :: ws.pending[x] ==
      if x.payload.key in ws.start && Win(x.payload.key, x.payload.index) in ws.active
         && x == Trigger(p, ws.start[x.payload.key], Win(x.payload.key, x.payload.index))
      then 1 else 0
  }

  ghost predicate StateInv(p: Params, ws: WindowState) {
    && TriggersMatch(p, ws)
    && (forall w :: w in ws.active ==> w.key in ws.start && Trigger(p, ws.start[w.key], w).deadline > ws.now)
  }

  ghost predicate ContentsInv(p: Params, r: Run) {
    && (forall w :: w in r.ws.active ==> w.key in r.ws.start)
    && (forall i :: 0 <= i < |r.accepted| ==> r.accepted[i].key in r.ws.start)
    && (forall w: Win :: Buf(r.ws, w) == if w in r.ws.active then Members(p, r, w) else [])
    && (forall w: Win :: w.key in r.ws.start && w !in r.ws.active && !Fired(r, w) ==> Members(p, r, w) == [])
  }

  ghost predicate ResultOk(p: Params, r: Run, res: Result) {
    && res.win.key in r.ws.start && res.win !in r.ws.active
    && res.contents == Members(p, r, res.win)
    && res.timestamp == Hi(p, r.ws.start[res.win.key], res.win.index)
    && res.timestamp + p.late <= r.ws.now
  }

  ghost predicate ResultsInv(p: Params, r: Run) {
    && (forall j :: 0 <= j < |r.results| ==> ResultOk(p, r, r.results[j]))
    && (forall i, j :: 0 <= i < j < |r.results| ==> r.results[i].win != r.results[j].win)
  }

  ghost predicate RunInv(p: Params, r: Run) {
    StateInv(p, r.ws) && ContentsInv(p, r) && ResultsInv(p, r)
  }

  // ----- elements -----

  lemma PutEffect(p: Params, ws: WindowState, w: Win, x: Data)
    requires w.key in ws.start
    ensures var r := Put(p, ws, w, x);
      && (forall v :: v in r.active <==> v in ws.active || v == w)
      && (forall v :: Buf(r, v) == if v == w then Buf(ws, v) + [x] else Buf(ws, v))
  {
  }

  /** Adding an element to windows lo..hi changes those and no others. */
  lemma {:induction false} PutFromEffect(p: Params, ws: WindowState, key: u64, lo: nat, hi: nat, x: Data)
    requires key in ws.start
    ensures var r := PutFrom(p, ws, key, lo, hi, x);
      && (forall w :: w in r.active <==> w in ws.active || (w.key == key && lo <= w.index <= hi))
      && (forall w :: Buf(r, w) == if w.key == key && lo <= w.index <= hi then Buf(ws, w) + [x] else Buf(ws, w))
    decreases hi + 1 - lo
  {
    if lo <= hi {
      PutEffect(p, ws, Win(key, lo), x);
      PutFromEffect(p, Put(p, ws, Win(key, lo), x), key, lo + 1, hi, x);
    }
  }

  lemma PutKeepsTriggers(p: Params, ws: WindowState, w: Win, x: Data)
    requires w.key in ws.start && TriggersMatch(p, ws)
    ensures TriggersMatch(p, Put(p, ws, w, x))
  {
    var r := Put(p, ws, w, x);
    var t := Trigger(p, ws.start[w.key], w);
    if w !in ws.active {
      forall y ensures r.pending[y] ==
        if y.payload.key in r.start && Win(y.payload.key, y.payload.index) in r.active
           && y == Trigger(p, r.start[y.payload.key], Win(y.payload.key, y.payload.index))
        then 1 else 0
      {
        assert r.pending[y] == ws.pending[y] + if y == t then 1 else 0;
      }
    }
  }

  lemma {:induction false} PutFromKeepsTriggers(p: Params, ws: WindowState, key: u64, lo: nat, hi: nat, x: Data)
    requires key in ws.start && TriggersMatch(p, ws)
    ensures TriggersMatch(p, PutFrom(p, ws, key, lo, hi, x))
    decreases hi + 1 - lo
  {
    if lo <= hi {
      PutKeepsTriggers(p, ws, Win(key, lo), x);
      PutFromKeepsTriggers(p, Put(p, ws, Win(key, lo), x), key, lo + 1, hi, x);
    }
  }

  /**
   A window that accepts an element is not due yet: its trigger is always scheduled in
   the future, so the branch the source calls unreachable is. It also fits the clock's
   64 bits whenever the element's time stamp leaves room for a window and the lateness.
   */
  lemma TriggerIsInTheFuture(p: Params, ws: WindowState, start: u64, ts: u64, w: Win)
    requires Proper(p) && start <= ts && !Late(p, ws, ts)
    requires Floor(p, start, ts) <= w.index <= Ceil(p, start, ts)
    ensures ws.now < Trigger(p, start, w).deadline <= ts + p.length + p.late
  {
    IndexRangeIsExact(p, start, ts, w.index);
  }

  lemma StartedKeepsState(p: Params, ws: WindowState, key: u64, ts: u64)
    requires StateInv(p, ws)
    ensures StateInv(p, Started(ws, key, ts))
  {
    var r := Started(ws, key, ts);
    forall x ensures r.pending[x] ==
      if x.payload.key in r.start && Win(x.payload.key, x.payload.index) in r.active
         && x == Trigger(p, r.start[x.payload.key], Win(x.payload.key, x.payload.index))
      then 1 else 0
    {
    }
  }

  lemma TakeElementKeepsState(p: Params, ws: WindowState, key: u64, ts: u64, x: Data)
    requires Proper(p) && Admissible(p, ws, key, ts) && StateInv(p, ws)
    ensures StateInv(p, TakeElement(p, ws, key, ts, x))
  {
    if !Late(p, ws, ts) {
      var ws1 := Started(ws, key, ts);
      var start := ws1.start[key];
      var lo, hi := Floor(p, start, ts), Ceil(p, start, ts);
      StartedKeepsState(p, ws, key, ts);
      PutFromKeepsTriggers(p, ws1, key, lo, hi, x);
      PutFromEffect(p, ws1, key, lo, hi, x);
      var r := PutFrom(p, ws1, key, lo, hi, x);
      forall w | w in r.active ensures w.key in r.start && Trigger(p, r.start[w.key], w).deadline > r.now {
        if w !in ws1.active { TriggerIsInTheFuture(p, ws, start, ts, w); }
      }
    }
  }

  /** After an accepted element, the contents of every window. */
  lemma ArriveMembers(p: Params, r: Run, key: u64, ts: u64, x: Data, w: Win)
    requires Proper(p) && Admissible(p, r.ws, key, ts) && !Late(p, r.ws, ts)
    requires ContentsInv(p, r)
    ensures var r' := Arrive(p, r, key, ts, x);
      w.key in r'.ws.start ==>
        && (w.key in r.ws.start ==>
              r'.ws.start[w.key] == r.ws.start[w.key] &&
              Members(p, r', w) == Members(p, r, w) +
                if w.key == key && Floor(p, r'.ws.start[key], ts) <= w.index <= Ceil(p, r'.ws.start[key], ts) then [x] else [])
        && (w.key !in r.ws.start ==>
              w.key == key && r'.ws.start[key] == ts &&
              Members(p, r', w) == if Floor(p, ts, ts) <= w.index <= Ceil(p, ts, ts) then [x] else [])
  {
    var r' := Arrive(p, r, key, ts, x);
    if w.key in r'.ws.start {
      var start := r'.ws.start[w.key];
      SelectSnoc(r.accepted, Accepted(key, ts, x), w.key, Lo(p, start, w.index), Hi(p, start, w.index));
      if w.key == key { IndexRangeIsExact(p, start, ts, w.index); }
      if w.key !in r.ws.start {
        SelectNone(r.accepted, w.key, Lo(p, start, w.index), Hi(p, start, w.index));
      }
    }
  }

  /** A window that has fired is never reopened: what is still on time lies past its end. */
  lemma FiredStaysShut(p: Params, r: Run, key: u64, ts: u64, w: Win)
    requires Proper(p) && Admissible(p, r.ws, key, ts) && !Late(p, r.ws, ts)
    requires ResultsInv(p, r) && Fired(r, w) && w.key == key
    ensures !(Floor(p, r.ws.start[key], ts) <= w.index <= Ceil(p, r.ws.start[key], ts))
  {
    var j :| 0 <= j < |r.results| && r.results[j].win == w;
    assert ResultOk(p, r, r.results[j]);
    IndexRangeIsExact(p, r.ws.start[key], ts, w.index);
  }

  lemma ArriveKeepsContents(p: Params, r: Run, key: u64, ts: u64, x: Data)
    requires Proper(p) && Admissible(p, r.ws, key, ts)
    requires ContentsInv(p, r) && ResultsInv(p, r)
    ensures ContentsInv(p, Arrive(p, r, key, ts, x))
  {
    if !Late(p, r.ws, ts) {
      var r' := Arrive(p, r, key, ts, x);
      var ws1 := Started(r.ws, key, ts);
      var lo, hi := Floor(p, ws1.start[key], ts), Ceil(p, ws1.start[key], ts);
      PutFromEffect(p, ws1, key, lo, hi, x);
      forall w: Win
        ensures Buf(r'.ws, w) == if w in r'.ws.active then Members(p, r', w) else []
        ensures w.key in r'.ws.start && w !in r'.ws.active && !Fired(r', w) ==> Members(p, r', w) == []
      {
        assert Buf(ws1, w) == Buf(r.ws, w);
        assert Fired(r', w) <==> Fired(r, w);
        ArriveMembers(p, r, key, ts, x, w);
        if Fired(r, w) && w.key == key { FiredStaysShut(p, r, key, ts, w); }
        Pad(Buf(r.ws, w));
        if w.key in r.ws.start { Pad(Members(p, r, w)); }
      }
    }
  }

  lemma Pad<T>(s: seq<T>)
    ensures s + [] == s && [] + s == s
  {
  }

  lemma ArriveKeepsResults(p: Params, r: Run, key: u64, ts: u64, x: Data)
    requires Proper(p) && Admissible(p, r.ws, key, ts)
    requires ContentsInv(p, r) && ResultsInv(p, r)
    ensures ResultsInv(p, Arrive(p, r, key, ts, x))
  {
    if !Late(p, r.ws, ts) {
      var r' := Arrive(p, r, key, ts, x);
      var ws1 := Started(r.ws, key, ts);
      PutFromEffect(p, ws1, key, Floor(p, ws1.start[key], ts), Ceil(p, ws1.start[key], ts), x);
      forall j | 0 <= j < |r.results|
        ensures ResultOk(p, r', r.results[j])
      {
        assert ResultOk(p, r, r.results[j]);
        var w := r.results[j].win;
        ArriveMembers(p, r, key, ts, x, w);
        if w.key == key { FiredStaysShut(p, r, key, ts, w); }
        Pad(Members(p, r, w));
      }
    }
  }

  lemma ArriveKeepsInv(p: Params, r: Run, key: u64, ts: u64, x: Data)
    requires Proper(p) && Admissible(p, r.ws, key, ts) && RunInv(p, r)
    ensures RunInv(p, Arrive(p, r, key, ts, x))
  {
    TakeElementKeepsState(p, r.ws, key, ts, x);
    ArriveKeepsContents(p, r, key, ts, x);
    ArriveKeepsResults(p, r, key, ts, x);
  }

  // ----- the clock -----

  /** Closing one due window: its trigger is spent, its contents become a result. */
  function CloseOne(r: Run, e: WindowEvent): Run {
    r.(ws := Close(r.ws, e),
       results := r.results + [Result(Win(e.key, e.index), Buf(r.ws, Win(e.key, e.index)), e.timestamp)])
  }

  /** The triggers still to be handled count as pending; deadlines they carry have passed. */
  ghost predicate Closing(p: Params, r: Run, fired: seq<Due<WindowEvent>>) {
    && TriggersMatch(p, r.ws.(pending := r.ws.pending + multiset(fired)))
    && (forall x :: x in fired ==> x.deadline <= r.ws.now)
    && (forall x :: x in r.ws.pending ==> x.deadline > r.ws.now)
    && ContentsInv(p, r) && ResultsInv(p, r)
  }

  lemma DueIsTrigger(p: Params, r: Run, fired: seq<Due<WindowEvent>>)
    requires fired != [] && Closing(p, r, fired)
    ensures var e := fired[0].payload; var w := Win(e.key, e.index);
      && w.key in r.ws.start && w in r.ws.active && fired[0] == Trigger(p, r.ws.start[w.key], w)
      && fired[0] !in r.ws.pending && fired[0] !in fired[1..]
  {
    var all := r.ws.pending + multiset(fired);
    assert fired == [fired[0]] + fired[1..];
    assert multiset(fired) == multiset{fired[0]} + multiset(fired[1..]);
    assert all[fired[0]] == r.ws.pending[fired[0]] + 1 + multiset(fired[1..])[fired[0]];
    assert all[fired[0]] >= 1;
  }

  lemma CloseOneTriggers(p: Params, r: Run, fired: seq<Due<WindowEvent>>)
    requires fired != [] && Closing(p, r, fired)
    ensures var r' := CloseOne(r, fired[0].payload);
      TriggersMatch(p, r'.ws.(pending := r'.ws.pending + multiset(fired[1..])))
  {
    DueIsTrigger(p, r, fired);
    var e := fired[0].payload;
    var w := Win(e.key, e.index);
    var r' := CloseOne(r, e);
    var after := r'.ws.(pending := r'.ws.pending + multiset(fired[1..]));
    assert fired == [fired[0]] + fired[1..];
    forall x ensures after.pending[x] ==
      if x.payload.key in after.start && Win(x.payload.key, x.payload.index) in after.active
         && x == Trigger(p, after.start[x.payload.key], Win(x.payload.key, x.payload.index))
      then 1 else 0
    {
      assert (r.ws.pending + multiset(fired))[x] == after.pending[x] + if x == fired[0] then 1 else 0;
    }
  }

  lemma CloseOneFired(r: Run, e: WindowEvent, v: Win)
    ensures Fired(CloseOne(r, e), v) <==> Fired(r, v) || v == Win(e.key, e.index)
  {
    var r' := CloseOne(r, e);
    assert r'.results[|r.results|].win == Win(e.key, e.index);
    if Fired(r, v) {
      var j :| 0 <= j < |r.results| && r.results[j].win == v;
      assert r'.results[j].win == v;
    }
  }

  lemma CloseOneContents(p: Params, r: Run, fired: seq<Due<WindowEvent>>)
    requires fired != [] && Closing(p, r, fired)
    ensures ContentsInv(p, CloseOne(r, fired[0].payload))
  {
    var e := fired[0].payload;
    var w := Win(e.key, e.index);
    var r' := CloseOne(r, e);
    forall v: Win
      ensures Buf(r'.ws, v) == if v in r'.ws.active then Members(p, r', v) else []
      ensures v.key in r'.ws.start && v !in r'.ws.active && !Fired(r', v) ==> Members(p, r', v) == []
    {
      CloseOneFired(r, e, v);
      assert v in r'.ws.active <==> v in r.ws.active && v != w;
      assert v.key in r.ws.start ==> Members(p, r', v) == Members(p, r, v);
    }
  }

  lemma OldResultStaysOk(p: Params, r: Run, e: WindowEvent, res: Result)
    requires ResultOk(p, r, res)
    ensures ResultOk(p, CloseOne(r, e), res)
  {
    assert Members(p, CloseOne(r, e), res.win) == Members(p, r, res.win);
  }

  lemma NewResultIsOk(p: Params, r: Run, fired: seq<Due<WindowEvent>>)
    requires fired != [] && Closing(p, r, fired)
    ensures var e := fired[0].payload; var r' := CloseOne(r, e); ResultOk(p, r', r'.results[|r.results|])
    ensures Win(fired[0].payload.key, fired[0].payload.index) in r.ws.active
  {
    DueIsTrigger(p, r, fired);
    assert fired[0] in fired;
    var e := fired[0].payload;
    var w := Win(e.key, e.index);
    assert Members(p, CloseOne(r, e), w) == Members(p, r, w);
  }

  lemma CloseOneResults(p: Params, r: Run, fired: seq<Due<WindowEvent>>)
    requires fired != [] && Closing(p, r, fired)
    ensures ResultsInv(p, CloseOne(r, fired[0].payload))
  {
    var e := fired[0].payload;
    var r' := CloseOne(r, e);
    NewResultIsOk(p, r, fired);
    forall j | 0 <= j < |r.results|
      ensures ResultOk(p, r', r.results[j]) && r.results[j].win != Win(e.key, e.index)
    {
      assert ResultOk(p, r, r.results[j]);
      OldResultStaysOk(p, r, e, r.results[j]);
    }
    OneMoreResult(p, r', r.results, r'.results[|r.results|]);
  }

  lemma OneMoreResult(p: Params, r: Run, before: seq<Result>, last: Result)
    requires r.results == before + [last] && ResultOk(p, r, last)
    requires forall j :: 0 <= j < |before| ==> ResultOk(p, r, before[j]) && before[j].win != last.win
    requires forall i, j :: 0 <= i < j < |before| ==> before[i].win != before[j].win
    ensures ResultsInv(p, r)
  {
    forall j | 0 <= j < |r.results| ensures ResultOk(p, r, r.results[j]) {
      if j < |before| { assert ResultOk(p, r, before[j]); }
    }
  }

  lemma CloseAllKeeps(p: Params, r: Run, fired: seq<Due<WindowEvent>>)
    requires Closing(p, r, fired)
    ensures RunInv(p, CloseAll(r, fired)) && CloseAll(r, fired).accepted == r.accepted
    decreases |fired|
  {
    if fired == [] {
      assert r.ws.pending + multiset(fired) == r.ws.pending;
      forall w | w in r.ws.active ensures Trigger(p, r.ws.start[w.key], w).deadline > r.ws.now {
        assert r.ws.pending[Trigger(p, r.ws.start[w.key], w)] == 1;
      }
    } else {
      CloseOneTriggers(p, r, fired);
      CloseOneContents(p, r, fired);
      CloseOneResults(p, r, fired);
      assert forall x :: x in fired[1..] ==> x in fired;
      CloseAllKeeps(p, CloseOne(r, fired[0].payload), fired[1..]);
    }
  }

  lemma ReachKeepsInv(p: Params, r: Run, ts: u64, fired: seq<Due<WindowEvent>>, rest: multiset<Due<WindowEvent>>)
    requires RunInv(p, r) && r.ws.now <= ts && Advanced(r.ws.pending, ts, fired, rest)
    ensures RunInv(p, Reach(r, ts, fired, rest))
  {
    var r1 := r.(ws := r.ws.(now := ts, pending := rest));
    assert r1.ws.(pending := rest + multiset(fired)) == r.ws.(now := ts);
    forall x ensures r1.ws.(pending := rest + multiset(fired)).pending[x] == r.ws.pending[x] {
    }
    assert forall w: Win :: w.key in r.ws.start ==> Members(p, r1, w) == Members(p, r, w);
    assert forall w: Win :: Fired(r1, w) <==> Fired(r, w);
    forall j | 0 <= j < |r.results| ensures ResultOk(p, r1, r.results[j]) {
      assert ResultOk(p, r, r.results[j]);
    }
    assert Closing(p, r1, fired);
    CloseAllKeeps(p, r1, fired);
  }

  lemma NextKeepsInv(p: Params, a: Run, b: Run)
    requires Proper(p) && RunInv(p, a) && Next(p, a, b)
    ensures RunInv(p, b)
  {
    if key: u64, ts: u64, x: Data :| Arrives(p, a, b, key, ts, x) {
      ArriveKeepsInv(p, a, key, ts, x);
    } else {
      var ts: u64, fired, rest :| Reaches(a, b, ts, fired, rest);
      ReachKeepsInv(p, a, ts, fired, rest);
    }
  }

  /** A run: it starts with nothing and every state follows from the one before. */
  ghost predicate IsRun(p: Params, states: seq<Run>)
    requires Proper(p)
  {
    && states != [] && states[0] == INITIAL
    && forall i :: 0 < i < |states| ==> Next(p, states[i - 1], states[i])
  }

  lemma {:induction false} EveryRunKeepsInv(p: Params, states: seq<Run>, n: nat)
    requires Proper(p) && IsRun(p, states) && n < |states|
    ensures RunInv(p, states[n])
  {
    if n > 0 {
      EveryRunKeepsInv(p, states, n - 1);
      NextKeepsInv(p, states[n - 1], states[n]);
    }
  }

  // ----- the same in numbers -----

  /** Window `index` of a key that started at `start` covers the time `ts`. */
  ghost predicate Covers(p: Params, start: u64, index: nat, ts: int) {
    start + index * p.slide <= ts < start + index * p.slide + p.length
  }

  /** Every window that covers `ts`, and its lateness, end within the clock's 64 bits. */
  ghost predicate EndsInTime(p: Params, start: u64, ts: u64) {
    forall i: nat :: Covers(p, start, i, ts) ==> start + i * p.slide + p.length + p.late <= U64_MAX
  }

  /** What becomes of an element with time stamp `ts`, which is at most the lateness behind the clock. */
  ghost predicate Joins(p: Params, a: Run, b: Run, key: u64, ts: u64, x: Data) {
    && b.accepted == a.accepted + [Accepted(key, ts, x)] && b.results == a.results && b.ws.now == a.ws.now
    && key in b.ws.start && b.ws.start == a.ws.start[key := if key in a.ws.start then a.ws.start[key] else ts]
    && (forall w: Win :: w in b.ws.active <==> w in a.ws.active || (w.key == key && Covers(p, b.ws.start[key], w.index, ts)))
    && (forall w: Win ::
          (if w in b.ws.buffers then b.ws.buffers[w] else []) ==
          (if w in a.ws.buffers then a.ws.buffers[w] else []) +
          if w.key == key && Covers(p, b.ws.start[key], w.index, ts) then [x] else [])
  }

  lemma InRangeIffCovers(p: Params, start: u64, ts: u64)
    requires Proper(p) && start <= ts
    ensures forall i: nat :: Floor(p, start, ts) <= i <= Ceil(p, start, ts) <==> Covers(p, start, i, ts)
  {
    forall i: nat ensures Floor(p, start, ts) <= i <= Ceil(p, start, ts) <==> Covers(p, start, i, ts) {
      IndexRangeIsExact(p, start, ts, i);
    }
  }

  /** An element joins exactly the windows that cover it; one further behind changes nothing. */
  lemma ArriveJoins(p: Params, r: Run, key: u64, ts: u64, x: Data)
    requires Proper(p) && Admissible(p, r.ws, key, ts)
    ensures ts + p.late < r.ws.now ==> Arrive(p, r, key, ts, x) == r
    ensures ts + p.late >= r.ws.now ==> Joins(p, r, Arrive(p, r, key, ts, x), key, ts, x)
  {
    if ts + p.late >= r.ws.now {
      var ws1 := Started(r.ws, key, ts);
      var start := ws1.start[key];
      PutFromEffect(p, ws1, key, Floor(p, start, ts), Ceil(p, start, ts), x);
      InRangeIffCovers(p, start, ts);
      var b := Arrive(p, r, key, ts, x);
      forall w: Win
        ensures Buf(b.ws, w) == Buf(r.ws, w) + if w.key == key && Covers(p, start, w.index, ts) then [x] else []
      {
        assert Buf(ws1, w) == Buf(r.ws, w);
        Pad(Buf(r.ws, w));
      }
    }
  }

  /** When the source gets through an element. */
  lemma TakesIff(p: Params, ws: WindowState, key: u64, ts: u64)
    requires Proper(p)
    ensures Takes(p, ws, key, ts) <==>
      || ts + p.late < ws.now
      || ((key in ws.start ==> ws.start[key] <= ts) && EndsInTime(p, if key in ws.start then ws.start[key] else ts, ts))
  {
    var start := if key in ws.start then ws.start[key] else ts;
    if start <= ts {
      var last := Ceil(p, start, ts);
      InRangeIffCovers(p, start, ts);
      IndexRangeIsExact(p, start, ts, last);
      forall i: nat | Covers(p, start, i, ts)
        ensures start + i * p.slide + p.length + p.late <= Trigger(p, start, Win(key, last)).deadline
      {
        EarlierWindowsEndEarlier(p, start, key, i, last);
      }
      assert Covers(p, start, last, ts);
    }
  }

  /**
   What the source does with an element: one further behind the clock than the lateness
   is dropped; of the others, one older than its key's start, or with a window that ends
   too late, makes it fail; every other one joins its windows.
   */
  ghost predicate Handles(p: Params, a: Run, b: Run, key: u64, ts: u64, x: Data, ok: bool) {
    if ts + p.late < a.ws.now then ok && b == a
    else
      var start := if key in a.ws.start then a.ws.start[key] else ts;
      (ok <==> start <= ts && EndsInTime(p, start, ts)) && (ok ==> Joins(p, a, b, key, ts, x))
  }

  lemma ArriveHandles(p: Params, a: Run, b: Run, key: u64, ts: u64, x: Data, ok: bool)
    requires Proper(p) && (ok <==> Takes(p, a.ws, key, ts)) && (ok ==> Arrives(p, a, b, key, ts, x))
    ensures Handles(p, a, b, key, ts, x, ok)
  {
    TakesIff(p, a.ws, key, ts);
    if ok { ArriveJoins(p, a, key, ts, x); }
  }

  /** The end of window `w` of a key that started at `start`. */
  function EndOf(p: Params, start: u64, w: Win): int {
    start + w.index * p.slide + p.length
  }

  /** The accepted elements of a window's key that lie in it, in order of arrival. */
  function Inside(p: Params, accepted: seq<Accepted>, start: u64, w: Win): seq<Data> {
    Select(accepted, w.key, EndOf(p, start, w) - p.length, EndOf(p, start, w))
  }

  /** No window has fired twice or early, and each result is over what lies in its window. */
  ghost predicate ResultsExact(p: Params, r: Run) {
    && (forall i, j :: 0 <= i < j < |r.results| ==> r.results[i].win != r.results[j].win)
    && (forall j :: 0 <= j < |r.results| ==>
          var w := r.results[j].win;
          && w.key in r.ws.start && r.results[j].contents == Inside(p, r.accepted, r.ws.start[w.key], w)
          && r.results[j].timestamp == EndOf(p, r.ws.start[w.key], w)
          && EndOf(p, r.ws.start[w.key], w) + p.late <= r.ws.now)
  }

  /** The pending triggers are those of the active windows, each once, for their end and the lateness, in the future. */
  ghost predicate TriggersExact(p: Params, r: Run) {
    && (forall d :: d in r.ws.pending ==>
          var w := Win(d.payload.key, d.payload.index);
          && w in r.ws.active && w.key in r.ws.start && r.ws.pending[d] == 1
          && d.payload.timestamp == EndOf(p, r.ws.start[w.key], w)
          && d.deadline == d.payload.timestamp + p.late > r.ws.now)
    && (forall w: Win :: w in r.ws.active ==>
          && w.key in r.ws.start
          && var end := EndOf(p, r.ws.start[w.key], w);
          Due(end + p.late, WindowEvent(w.key, w.index, end)) in r.ws.pending)
  }

  lemma InWindow(p: Params, r: Run, w: Win)
    requires w.key in r.ws.start
    ensures Inside(p, r.accepted, r.ws.start[w.key], w) == Members(p, r, w)
    ensures var end := EndOf(p, r.ws.start[w.key], w);
      Trigger(p, r.ws.start[w.key], w) == Due(end + p.late, WindowEvent(w.key, w.index, end))
  {
  }

  lemma ResultsAreExact(p: Params, r: Run)
    requires ResultsInv(p, r)
    ensures ResultsExact(p, r)
  {
    forall j | 0 <= j < |r.results|
      ensures var w := r.results[j].win;
        && w.key in r.ws.start && r.results[j].contents == Inside(p, r.accepted, r.ws.start[w.key], w)
        && r.results[j].timestamp == EndOf(p, r.ws.start[w.key], w)
        && EndOf(p, r.ws.start[w.key], w) + p.late <= r.ws.now
    {
      assert ResultOk(p, r, r.results[j]);
      InWindow(p, r, r.results[j].win);
    }
  }

  lemma TriggersAreExact(p: Params, r: Run)
    requires StateInv(p, r.ws)
    ensures TriggersExact(p, r)
  {
    forall w: Win | w.key in r.ws.start
      ensures var end := EndOf(p, r.ws.start[w.key], w);
        Trigger(p, r.ws.start[w.key], w) == Due(end + p.late, WindowEvent(w.key, w.index, end))
    {
      InWindow(p, r, w);
    }
    forall w: Win | w in r.ws.active ensures r.ws.pending[Trigger(p, r.ws.start[w.key], w)] == 1 {}
  }

  /**
   Exactly once, over every run: a window fires at most once, no earlier than its end and
   the allowed lateness; its result holds exactly the accepted elements that lie in it, in
   order of arrival, counting also all that were accepted later; and a window that holds
   an element either has fired or is active with exactly one pending trigger, for its end
   and the lateness, still in the future.
   */
  lemma ExactlyOnce(p: Params, states: seq<Run>)
    requires Proper(p) && IsRun(p, states)
    ensures var r := states[|states| - 1];
      && ResultsExact(p, r) && TriggersExact(p, r)
      && (forall w: Win :: w.key in r.ws.start && Inside(p, r.accepted, r.ws.start[w.key], w) != [] ==>
            Fired(r, w) || w in r.ws.active)
  {
    EveryRunKeepsInv(p, states, |states| - 1);
    var r := states[|states| - 1];
    ResultsAreExact(p, r);
    TriggersAreExact(p, r);
    forall w: Win | w.key in r.ws.start ensures Inside(p, r.accepted, r.ws.start[w.key], w) == Members(p, r, w) {
      InWindow(p, r, w);
    }
  }
}
