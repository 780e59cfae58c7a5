/**
 Version::Get (db/version_set.cc): level-0 tables that span the key, newest first, then one
 binary-searched table per deeper level, stopping at the first entry of the user key.
 */
module VersionGet {
  import opened Optional
  import opened InternalKeys
  import opened ReadSpec
  import opened Versions

  ghost predicate NoCandidate(t: Table, user: UserKey, s: nat) {
    forall e :: e in t.entries ==> !Candidate(e, user, s)
  }

  /** No candidate of `t` is newer than `e`. */
  ghost predicate NoneNewer(t: Table, user: UserKey, s: nat, e: Entry) {
    forall f :: f in t.entries && Candidate(f, user, s) ==> f.key.sequence <= e.key.sequence
  }

  ghost predicate LevelsLackCandidate(v: Version, l: nat, user: UserKey, s: nat)
    requires l <= NUM_LEVELS
  {
    forall m, t :: 0 <= m < l && t in v[m] ==> NoCandidate(t, user, s)
  }

  lemma TableInVersion(v: Version, l: nat, t: Table)
    requires l < NUM_LEVELS && t in v[l]
    ensures Elements(t.entries) <= VersionEntries(v)
  {
  }

  /** A seek in one table finds its newest candidate, or shows that it has none. */
  lemma TableGet(v: Version, l: nat, t: Table, user: UserKey, s: nat)
    requires l < NUM_LEVELS && t in v[l] && WellFormed(t) && Distinct(VersionEntries(v))
    ensures LayerGet(t.entries, user, s) == None ==> NoCandidate(t, user, s)
    ensures LayerGet(t.entries, user, s).Some? ==>
              IsNewest(Elements(t.entries), user, s, LayerGet(t.entries, user, s).value)
  {
    TableInVersion(v, l, t);
    LayerGetIsNewest(t.entries, user, s);
    NewestIsNone(Elements(t.entries), user, s);
    assert forall e :: e in t.entries ==> e in Elements(t.entries);
  }

  /** The first table that holds a candidate decides the read. */
  lemma FirstHitDecides(v: Version, l: nat, t: Table, user: UserKey, s: nat, e: Entry)
    requires l < NUM_LEVELS && t in v[l] && NewerAbove(v) && Distinct(VersionEntries(v))
    requires IsNewest(Elements(t.entries), user, s, e)
    requires LevelsLackCandidate(v, l, user, s)
    requires forall u :: u in v[l] ==> NoneNewer(u, user, s, e)
    ensures Newest(VersionEntries(v), user, s) == Some(e)
  {
    TableInVersion(v, l, t);
    forall f | f in VersionEntries(v) && Candidate(f, user, s)
      ensures f.key.sequence <= e.key.sequence
    {
      var m, u :| 0 <= m < NUM_LEVELS && u in v[m] && f in u.entries;
      assert !NoCandidate(u, user, s);
      if m == l {
        assert NoneNewer(u, user, s, e);
      } else if m > l {
        assert InOrder(v, l, t, m, u);
      }
    }
    NewestIsUnique(VersionEntries(v), user, s, e);
  }

  ghost predicate NewestFirst(files: seq<Table>) {
    forall i, j :: 0 <= i < j < |files| ==> files[i].number >= files[j].number
  }

  method InsertByNumber(files: seq<Table>, t: Table) returns (r: seq<Table>)
    requires NewestFirst(files)
    ensures NewestFirst(r) && |r| == |files| + 1
    ensures forall u :: u in r <==> u in files || u == t
  {
    var k := 0;
    while k < |files| && files[k].number > t.number
      invariant k <= |files| && forall a :: 0 <= a < k ==> files[a].number > t.number
    {
      k := k + 1;
    }
    r := files[..k] + [t] + files[k..];
    assert forall a :: k <= a < |files| ==> files[a] == r[a + 1];
  }

  predicate Spans(t: Table, user: UserKey) {
    user >= Smallest(t).user && user <= Largest(t).user
  }

  /** The level-0 tables that span `user`, newest first. */
  method OverlappingNewestFirst(files: seq<Table>, user: UserKey) returns (tmp: seq<Table>)
    ensures forall t :: t in tmp <==> t in files && Spans(t, user)
    ensures NewestFirst(tmp)
  {
    tmp := [];
    for i := 0 to |files|
      invariant forall t :: t in tmp <==> t in files[..i] && Spans(t, user)
      invariant NewestFirst(tmp)
    {
      if user >= Smallest(files[i]).user && user <= Largest(files[i]).user {
        tmp := InsertByNumber(tmp, files[i]);
      }
    }
    assert files[..|files|] == files;
  }

  /** Among the tables that span a key, newest first, the first hit has no newer candidate beside it. */
  lemma NoneNewerAtLevel0(v: Version, tmp: seq<Table>, i: nat, user: UserKey, s: nat, e: Entry)
    requires ValidVersion(v) && NewestFirst(tmp) && i < |tmp|
    requires forall t :: t in v[0] && t !in tmp ==> NoCandidate(t, user, s)
    requires forall t :: t in tmp ==> t in v[0]
    requires forall j :: 0 <= j < i ==> NoCandidate(tmp[j], user, s)
    requires IsNewest(Elements(tmp[i].entries), user, s, e)
    ensures forall u :: u in v[0] ==> NoneNewer(u, user, s, e)
  {
    forall u | u in v[0]
      ensures NoneNewer(u, user, s, e)
    {
      if u in tmp {
        var j :| 0 <= j < |tmp| && tmp[j] == u;
        if j > i && u != tmp[i] {
          assert Identified(v, 0, u, 0, tmp[i]);
          assert NewerThan(tmp[i], u);
        }
      }
    }
  }

  /** Search level 0. */
  method GetFromLevel0(v: Version, user: UserKey, s: nat) returns (hit: Option<Entry>)
    requires ValidVersion(v) && Distinct(VersionEntries(v))
    ensures hit.Some? ==> Newest(VersionEntries(v), user, s) == hit
    ensures hit.None? ==> LevelsLackCandidate(v, 1, user, s)
  {
    var tmp := OverlappingNewestFirst(v[0], user);
    forall t | t in v[0] && !Spans(t, user)
      ensures NoCandidate(t, user, s)
    {
      forall e | e in t.entries
        ensures !Candidate(e, user, s)
      {
        EntryInRange(t, e);
      }
    }
    for i := 0 to |tmp|
      invariant forall j :: 0 <= j < i ==> NoCandidate(tmp[j], user, s)
    {
      hit := LayerGet(tmp[i].entries, user, s);
      TableGet(v, 0, tmp[i], user, s);
      if hit.Some? {
        NoneNewerAtLevel0(v, tmp, i, user, s, hit.value);
        FirstHitDecides(v, 0, tmp[i], user, s, hit.value);
        return;
      }
    }
    hit := None;
  }

  /** Entries before the found table are too new or too small; later ones are older or too large. */
  lemma OnlyFoundFileMatters(files: seq<Table>, user: UserKey, s: nat, i: nat, j: nat)
    requires Disjoint(files) && AllWellFormed(files)
    requires IsFoundFile(files, LookupKey(user, s), i) && j < |files|
    ensures j < i ==> NoCandidate(files[j], user, s)
    ensures i < j && !NoCandidate(files[j], user, s) ==>
              Candidate(files[i].entries[|files[i].entries| - 1], user, s)
    ensures i < j ==> forall f :: f in files[j].entries && Candidate(f, user, s) ==>
              f.key.sequence <= Largest(files[i]).sequence
  {
    forall f | f in files[j].entries && Candidate(f, user, s)
      ensures i <= j
      ensures i < j ==> Candidate(files[i].entries[|files[i].entries| - 1], user, s)
      ensures i < j ==> f.key.sequence <= Largest(files[i]).sequence
    {
      EntryInRange(files[j], f);
      CandidateIffAtLowerBound(f, user, s);
      if i < j {
        CandidateIffAtLowerBound(files[i].entries[|files[i].entries| - 1], user, s);
        DisjointLargest(files, i, j);
      }
    }
  }

  /** What the search of a level below level 0 finds, whether or not its tables are disjoint. */
  function LevelGet(files: seq<Table>, user: UserKey, s: nat): Option<Entry> {
    var index := Search(files, LookupKey(user, s), 0, |files|);
    if index == |files| || user < Smallest(files[index]).user then None else LayerGet(files[index].entries, user, s)
  }

  lemma FoundFileGet(v: Version, l: nat, t: Table, user: UserKey, s: nat, hit: Option<Entry>)
    requires l < NUM_LEVELS && t in v[l] && WellFormed(t) && Distinct(VersionEntries(v))
    requires hit == if user < Smallest(t).user then None else LayerGet(t.entries, user, s)
    ensures hit.None? ==> NoCandidate(t, user, s)
    ensures hit.Some? ==> IsNewest(Elements(t.entries), user, s, hit.value) && NoneNewer(t, user, s, hit.value)
  {
    if user < Smallest(t).user {
      forall e | e in t.entries
        ensures !Candidate(e, user, s)
      {
        EntryInRange(t, e);
      }
    } else {
      TableGet(v, l, t, user, s);
      assert forall e :: e in t.entries ==> e in Elements(t.entries);
    }
  }

  /** The other tables of the level have nothing to add to what the found one says. */
  lemma RestOfLevel(files: seq<Table>, user: UserKey, s: nat, i: nat, hit: Option<Entry>)
    requires Disjoint(files) && AllWellFormed(files) && i < |files|
    requires IsFoundFile(files, LookupKey(user, s), i)
    requires hit.None? ==> NoCandidate(files[i], user, s)
    requires hit.Some? ==>
             IsNewest(Elements(files[i].entries), user, s, hit.value) && NoneNewer(files[i], user, s, hit.value)
    ensures hit.None? ==> forall t :: t in files ==> NoCandidate(t, user, s)
    ensures hit.Some? ==> forall t :: t in files ==> NoneNewer(t, user, s, hit.value)
  {
    var f := files[i];
    assert f.entries[|f.entries| - 1] in f.entries;
    assert f.entries[|f.entries| - 1] in Elements(f.entries);
    forall t | t in files
      ensures hit.None? ==> NoCandidate(t, user, s)
      ensures hit.Some? ==> NoneNewer(t, user, s, hit.value)
    {
      var j :| 0 <= j < |files| && files[j] == t;
      OnlyFoundFileMatters(files, user, s, i, j);
    }
  }

  lemma NoFileFound(files: seq<Table>, user: UserKey, s: nat)
    requires Disjoint(files) && AllWellFormed(files) && IsFoundFile(files, LookupKey(user, s), |files|)
    ensures forall t :: t in files ==> NoCandidate(t, user, s)
  {
    forall t | t in files
      ensures NoCandidate(t, user, s)
    {
      var j :| 0 <= j < |files| && files[j] == t;
      OnlyFoundFileMatters(files, user, s, |files|, j);
    }
  }

  /** Search one of the levels 1 to 6. */
  method GetFromSortedLevel(v: Version, l: nat, user: UserKey, s: nat) returns (hit: Option<Entry>)
    requires ValidVersion(v) && Distinct(VersionEntries(v)) && 1 <= l < NUM_LEVELS
    requires LevelsLackCandidate(v, l, user, s)
    ensures hit == LevelGet(v[l], user, s)
    ensures hit.Some? ==> Newest(VersionEntries(v), user, s) == hit
    ensures hit.None? ==> LevelsLackCandidate(v, l + 1, user, s)
  {
    hide Distinct, IsNewest, NoCandidate, NoneNewer, NewerAbove, UniqueNumbers, LookupKey;
    var files := v[l];
    var index := FindFile(files, LookupKey(user, s));
    if index >= |files| {
      NoFileFound(files, user, s);
      return None;
    }
    var f := files[index];
    hit := None;
    if user >= Smallest(f).user {
      hit := LayerGet(f.entries, user, s);
    }
    FoundFileGet(v, l, f, user, s, hit);
    RestOfLevel(files, user, s, index, hit);
    if hit.Some? {
      FirstHitDecides(v, l, f, user, s, hit.value);
    }
  }

  method Get(v: Version, user: UserKey, s: nat) returns (answer: Answer)
    requires ValidVersion(v) && Distinct(VersionEntries(v))
    ensures answer == SetRead(VersionEntries(v), user, s)
  {
    var hit := GetFromLevel0(v, user, s);
    if hit.Some? {
      return AnswerOf(hit);
    }
    for level := 1 to NUM_LEVELS
      invariant LevelsLackCandidate(v, level, user, s)
    {
      hit := GetFromSortedLevel(v, level, user, s);
      if hit.Some? {
        return AnswerOf(hit);
      }
    }
    forall e | e in VersionEntries(v)
      ensures !Candidate(e, user, s)
    {
      var m, t :| 0 <= m < NUM_LEVELS && t in v[m] && e in t.entries;
      assert NoCandidate(t, user, s);
    }
    NewestIsNone(VersionEntries(v), user, s);
    answer := NotFound;
  }
}
