/**
 Which checkpoint a backend restores: the last epoch that every known backend has
 completed, as the names of the checkpoint directories tell.
 */
module Checkpoints {
  import opened Streams
  import opened CheckpointNames

  /** A directory entry; `None` stands for a name that is not valid UTF-8. */
  datatype DirEntry = DirEntry(name: Option<string>, isDir: bool)

  datatype Error = InvalidPath(entry: DirEntry) | UnknownNode(id: string)

  datatype Choice = Restore(directory: string) | Create

  datatype Outcome = Chosen(choice: Choice) | Failed(error: Error)

  function ParseEntry(e: DirEntry): Option<(string, u64)> {
    if e.name.None? || !e.isDir then None else ParseName(e.name.value)
  }

  function Problem(ids: seq<string>, e: DirEntry): Option<Error> {
    match ParseEntry(e)
    case None => Some(InvalidPath(e))
    case Some((id, _)) => if id in ids then None else Some(UnknownNode(id))
  }

  function FirstProblem(ids: seq<string>, entries: seq<DirEntry>): Option<Error> {
    if entries == [] then None
    else if Problem(ids, entries[0]).Some? then Problem(ids, entries[0])
    else FirstProblem(ids, entries[1..])
  }

  // ----- what a listing may contain -----

  /** The entry is a directory whose name spells this id and some epoch. */
  ghost predicate IsFor(e: DirEntry, id: string) {
    e.isDir && e.name.Some? && exists epoch: u64, digits :: Spells(e.name.value, id, epoch, digits)
  }

  ghost predicate Belongs(ids: seq<string>, e: DirEntry) {
    exists id {:trigger IsFor(e, id)} :: id in ids && IsFor(e, id)
  }

  /** What is wrong with an entry that does not belong: it is for no id at all, or for an unknown one. */
  ghost predicate Wrong(ids: seq<string>, e: DirEntry, error: Error) {
    match error
    case InvalidPath(at) => at == e && forall id :: !IsFor(e, id)
    case UnknownNode(id) => IsFor(e, id) && id !in ids
  }

  ghost predicate FailsFirstAt(ids: seq<string>, entries: seq<DirEntry>, k: nat, error: Error)
    requires k <= |entries|
  {
    && (forall j {:trigger Belongs(ids, entries[j])} :: 0 <= j < k ==> Belongs(ids, entries[j]))
    && k < |entries| && !Belongs(ids, entries[k]) && Wrong(ids, entries[k], error)
  }

  lemma ProblemIs(ids: seq<string>, e: DirEntry)
    ensures Problem(ids, e).None? <==> Belongs(ids, e)
    ensures Problem(ids, e).Some? ==> Wrong(ids, e, Problem(ids, e).value)
  {
    forall id ensures IsFor(e, id) <==> ParseEntry(e).Some? && ParseEntry(e).value.0 == id {
      IsForIff(e, id);
    }
    if ParseEntry(e).Some? { assert IsFor(e, ParseEntry(e).value.0); }
  }

  lemma IsForIff(e: DirEntry, id: string)
    ensures IsFor(e, id) <==> ParseEntry(e).Some? && ParseEntry(e).value.0 == id
  {
    if IsFor(e, id) {
      var epoch: u64, digits :| Spells(e.name.value, id, epoch, digits);
      ParseNameIff(e.name.value, id, epoch);
    }
    if ParseEntry(e).Some? && ParseEntry(e).value.0 == id {
      ParseNameIff(e.name.value, id, ParseEntry(e).value.1);
    }
  }

  lemma {:induction false} FirstProblemIs(ids: seq<string>, entries: seq<DirEntry>) returns (k: nat)
    ensures k <= |entries| && forall j :: 0 <= j < k ==> Belongs(ids, entries[j])
    ensures FirstProblem(ids, entries).None? <==> k == |entries|
    ensures k < |entries| ==> !Belongs(ids, entries[k]) && Wrong(ids, entries[k], FirstProblem(ids, entries).value)
  {
    if entries == [] {
      k := 0;
    } else {
      ProblemIs(ids, entries[0]);
      if Problem(ids, entries[0]).Some? {
        k := 0;
      } else {
        var n := FirstProblemIs(ids, entries[1..]);
        k := n + 1;
        assert forall j :: 0 < j < k ==> entries[j] == entries[1..][j - 1];
      }
    }
  }

  ghost predicate AllBelong(ids: seq<string>, entries: seq<DirEntry>) {
    forall k {:trigger Belongs(ids, entries[k])} :: 0 <= k < |entries| ==> Belongs(ids, entries[k])
  }

  /** The error is about the first entry that does not belong. */
  ghost predicate FailsWith(ids: seq<string>, entries: seq<DirEntry>, error: Error) {
    exists k {:trigger FailsFirstAt(ids, entries, k, error)} :: 0 <= k < |entries| && FailsFirstAt(ids, entries, k, error)
  }

  lemma FirstProblemMeans(ids: seq<string>, entries: seq<DirEntry>)
    ensures FirstProblem(ids, entries).None? <==> AllBelong(ids, entries)
    ensures FirstProblem(ids, entries).Some? ==> FailsWith(ids, entries, FirstProblem(ids, entries).value)
  {
    var k := FirstProblemIs(ids, entries);
    if k < |entries| { assert FailsFirstAt(ids, entries, k, FirstProblem(ids, entries).value); }
  }

  predicate Recorded(entries: seq<DirEntry>, id: string, epoch: u64) {
    exists k :: 0 <= k < |entries| && ParseEntry(entries[k]) == Some((id, epoch))
  }

  /** Every known backend has a checkpoint of the epoch; without known backends none is complete. */
  predicate Complete(ids: seq<string>, entries: seq<DirEntry>, epoch: u64) {
    ids != [] && forall id :: id in ids ==> Recorded(entries, id, epoch)
  }

  ghost predicate LastComplete(ids: seq<string>, entries: seq<DirEntry>, epoch: u64) {
    Complete(ids, entries, epoch) && forall other: u64 :: Complete(ids, entries, other) ==> other <= epoch
  }

  lemma {:induction false} MaxExists(s: set<u64>) returns (m: u64)
    requires s != {}
    ensures m in s && forall x :: x in s ==> x <= m
  {
    var x :| x in s;
    if s == {x} {
      m := x;
    } else {
      var rest := s - {x};
      assert rest != {};
      m := MaxExists(rest);
      if x > m { m := x; }
      assert forall y :: y in s ==> y == x || y in rest;
    }
  }

  lemma {:induction false} FirstProblemAt(ids: seq<string>, entries: seq<DirEntry>, k: nat)
    requires k < |entries| && forall j :: 0 <= j < k ==> Problem(ids, entries[j]).None?
    requires Problem(ids, entries[k]).Some?
    ensures FirstProblem(ids, entries) == Problem(ids, entries[k])
  {
    if k > 0 { FirstProblemAt(ids, entries[1..], k - 1); }
  }

  lemma {:induction false} NoProblem(ids: seq<string>, entries: seq<DirEntry>)
    requires forall j :: 0 <= j < |entries| ==> Problem(ids, entries[j]).None?
    ensures FirstProblem(ids, entries) == None
  {
    if entries != [] { NoProblem(ids, entries[1..]); }
  }

  /** For every id, exactly the epochs recorded among the entries. */
  ghost predicate Tallies(checkpoints: map<string, set<u64>>, ids: seq<string>, entries: seq<DirEntry>) {
    && (forall id :: id in checkpoints <==> id in ids)
    && (forall id, e :: id in checkpoints ==> (e in checkpoints[id] <==> Recorded(entries, id, e)))
  }

  lemma RecordedSnoc(entries: seq<DirEntry>, last: DirEntry, id: string, e: u64)
    ensures Recorded(entries + [last], id, e) <==> Recorded(entries, id, e) || ParseEntry(last) == Some((id, e))
  {
    var all := entries + [last];
    if Recorded(entries, id, e) {
      var k :| 0 <= k < |entries| && ParseEntry(entries[k]) == Some((id, e));
      assert ParseEntry(all[k]) == Some((id, e));
    }
    if ParseEntry(last) == Some((id, e)) {
      assert ParseEntry(all[|entries|]) == Some((id, e));
    }
  }

  lemma TallyOne(checkpoints: map<string, set<u64>>, ids: seq<string>, entries: seq<DirEntry>, last: DirEntry, id: string, e: u64)
    requires Tallies(checkpoints, ids, entries) && ParseEntry(last) == Some((id, e)) && id in ids
    ensures Tallies(checkpoints[id := checkpoints[id] + {e}], ids, entries + [last])
  {
    forall i, x ensures Recorded(entries + [last], i, x) <==> Recorded(entries, i, x) || (i == id && x == e) {
      RecordedSnoc(entries, last, i, x);
    }
  }

  /** Collects the epochs of every backend from the listing, in whatever order it comes. */
  method Collect(ids: seq<string>, entries: seq<DirEntry>) returns (checkpoints: map<string, set<u64>>, error: Option<Error>)
    ensures error == FirstProblem(ids, entries)
    ensures error.None? ==> Tallies(checkpoints, ids, entries)
  {
    checkpoints := map id | id in ids :: {};
    var k := 0;
    while k < |entries|
      invariant 0 <= k <= |entries|
      invariant forall j :: 0 <= j < k ==> Problem(ids, entries[j]).None?
      invariant Tallies(checkpoints, ids, entries[..k])
    {
      error := Problem(ids, entries[k]);
      if error.Some? {
        FirstProblemAt(ids, entries, k);
        return;
      }
      var (id, epoch) := ParseEntry(entries[k]).value;
      TallyOne(checkpoints, ids, entries[..k], entries[k], id, epoch);
      assert entries[..k + 1] == entries[..k] + [entries[k]];
      checkpoints := checkpoints[id := checkpoints[id] + {epoch}];
      k := k + 1;
    }
    assert entries[..k] == entries;
    NoProblem(ids, entries);
    error := None;
  }

  /** Intersects the sets of all backends, taken in whatever order the hash map has. */
  method Intersect(checkpoints: map<string, set<u64>>) returns (complete: set<u64>)
    ensures checkpoints == map[] ==> complete == {}
    ensures checkpoints != map[] ==>
      forall e :: e in complete <==> forall id :: id in checkpoints ==> e in checkpoints[id]
  {
    if checkpoints == map[] {
      return {};
    }
    var first :| first in checkpoints;
    complete := checkpoints[first];
    var rest := checkpoints.Keys - {first};
    while rest != {}
      invariant rest <= checkpoints.Keys
      invariant forall e :: e in complete <==> forall id :: id in checkpoints && id !in rest ==> e in checkpoints[id]
    {
      var id :| id in rest;
      complete := complete * checkpoints[id];
      rest := rest - {id};
    }
  }

  /** Picks the largest epoch that is present for every id. */
  method PickLast(ids: seq<string>, id: string, entries: seq<DirEntry>, checkpoints: map<string, set<u64>>) returns (c: Choice)
    requires Tallies(checkpoints, ids, entries)
    ensures c.Create? ==> forall e: u64 :: !Complete(ids, entries, e)
    ensures c.Restore? ==> exists e: u64 :: LastComplete(ids, entries, e) && c.directory == Name(id, e)
  {
    var complete := Intersect(checkpoints);
    assert forall e: u64 :: e in complete <==> Complete(ids, entries, e) by {
      if ids != [] { assert ids[0] in checkpoints; }
    }
    if complete == {} {
      return Create;
    }
    ghost var m := MaxExists(complete);
    var epoch :| epoch in complete && forall x :: x in complete ==> x <= epoch;
    assert LastComplete(ids, entries, epoch);
    return Restore(Name(id, epoch));
  }

  /**
   The epoch restored is the largest one present for every known id, and a fresh backend
   is created if and only if there is none; a name that does not belong is an error, and
   the first such name is the one reported.
   */
  method RestoreOrCreate(ids: seq<string>, id: string, entries: seq<DirEntry>) returns (r: Outcome)
    ensures r.Chosen? <==> AllBelong(ids, entries)
    ensures r.Failed? ==> FailsWith(ids, entries, r.error)
    ensures r == Chosen(Create) ==> forall e: u64 :: !Complete(ids, entries, e)
    ensures r.Chosen? && r.choice.Restore? ==>
      exists e: u64 :: LastComplete(ids, entries, e) && r.choice.directory == Name(id, e)
  {
    var checkpoints, error := Collect(ids, entries);
    FirstProblemMeans(ids, entries);
    if error.Some? {
      return Failed(error.value);
    }
    var choice := PickLast(ids, id, entries, checkpoints);
    return Chosen(choice);
  }

  /** The entry is named the way its epoch is printed. */
  predicate AsWritten(e: DirEntry) {
    ParseEntry(e).Some? ==> Canonical(Split(e.name.value[|PREFIX|..])[1])
  }

  lemma {:induction false} TwoParts(s: string)
    requires |Split(s)| == 2
    ensures s == Split(s)[0] + "_" + Split(s)[1]
  {
    if s != "" {
      var rest := Split(s[1..]);
      assert s == [s[0]] + s[1..];
      if s[0] == '_' {
        assert rest == [rest[0]];
        OnePart(s[1..]);
      } else {
        TwoParts(s[1..]);
      }
    }
  }

  lemma {:induction false} OnePart(s: string)
    requires |Split(s)| == 1
    ensures s == Split(s)[0]
  {
    if s != "" && s[0] != '_' { OnePart(s[1..]); }
  }

  /** A name that parses is the one that would be looked for if and only if its epoch is canonical. */
  lemma NameIsExactIffCanonical(e: DirEntry)
    requires ParseEntry(e).Some?
    ensures var (id, epoch) := ParseEntry(e).value; e.name == Some(Name(id, epoch)) <==> AsWritten(e)
  {
    var name := e.name.value;
    var (id, epoch) := ParseEntry(e).value;
    var rest := name[|PREFIX|..];
    var digits := Split(rest)[1];
    TwoParts(rest);
    PrintedIffCanonical(digits, epoch);
    NameParts(id, epoch);
    assert name == PREFIX + rest;
    SameTail(PREFIX, rest, id + "_" + Decimal(epoch));
    SameTail(id + "_", digits, Decimal(epoch));
    assert Name(id, epoch) == PREFIX + (id + "_" + Decimal(epoch));
  }

  lemma SameTail(a: string, b: string, c: string)
    ensures a + b == a + c <==> b == c
  {
    assert (a + b)[|a|..] == b && (a + c)[|a|..] == c;
  }

  /** In a listing of names as written, the directory chosen for a known id is there. */
  lemma ChosenDirectoryIsListed(ids: seq<string>, id: string, entries: seq<DirEntry>, epoch: u64)
    requires id in ids && LastComplete(ids, entries, epoch)
    requires forall k :: 0 <= k < |entries| ==> AsWritten(entries[k])
    ensures exists k :: 0 <= k < |entries| && entries[k] == DirEntry(Some(Name(id, epoch)), true)
  {
    assert Recorded(entries, id, epoch);
    var k :| 0 <= k < |entries| && ParseEntry(entries[k]) == Some((id, epoch));
    NameIsExactIffCanonical(entries[k]);
    assert entries[k] == DirEntry(Some(Name(id, epoch)), true);
  }

  /** A leading zero is accepted, but then the directory looked for does not exist. */
  lemma LeadingZeroIsLost()
    ensures var entries := [DirEntry(Some("checkpoint_1_07"), true)];
      && FirstProblem(["1"], entries) == None && LastComplete(["1"], entries, 7)
      && forall k :: 0 <= k < |entries| ==> entries[k].name != Some(Name("1", 7))
  {
    var name := "checkpoint_1_07";
    assert name == PREFIX + "1" + "_" + "07";
    assert name[..|PREFIX|] == PREFIX && name[|PREFIX|..] == "1" + "_" + "07";
    SplitAt("1", "07");
    SplitWhole("07");
    assert "07"[1..] == "7" && "7"[1..] == "";
    assert ParseU64("07") == Some(7);
    var e := DirEntry(Some(name), true);
    assert ParseEntry(e) == Some(("1", 7));
    assert [e][1..] == [];
    assert Recorded([e], "1", 7) by { assert ParseEntry([e][0]) == Some(("1", 7)); }
    assert Name("1", 7) == PREFIX + "1" + "_" + "7";
  }
}
