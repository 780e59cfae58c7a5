/**
 The merge loop of a compaction (DBImpl::DoCompactionWork, db/db_impl.cc) and its two rules
 for dropping entries, with Compaction::IsBaseLevelForKey (db/version_set.cc).
 */
module CompactionMerge {
  import opened Optional
  import opened InternalKeys
  import opened ReadSpec
  import opened Versions
  import opened Merger

  // ----- base level

  predicate SpansUser(t: Table, user: UserKey) {
    Smallest(t).user <= user && user <= Largest(t).user
  }

  /** No table two or more levels down spans the key. */
  ghost predicate IsBase(v: Version, level: nat, user: UserKey) {
    forall l, t :: level + 2 <= l < NUM_LEVELS && t in v[l] ==> !SpansUser(t, user)
  }

  /** A tombstone visible at the snapshot with no data for its key further down. */
  ghost predicate Obsolete(v: Version, level: nat, e: Entry, snap: nat) {
    e.key.kind.Deletion? && e.key.sequence <= snap && IsBase(v, level, e.key.user)
  }

  /** The first `p` tables end before the last key asked about. */
  ghost predicate PassedBy(files: seq<Table>, p: nat, floor: Option<UserKey>) {
    p <= |files| && forall j :: 0 <= j < p ==> floor.Some? && Largest(files[j]).user < floor.value
  }

  /**
   The running compaction.  `levelPtrs` remembers, per level, how many tables end before
   every key asked about so far; the keys must not decrease.
   */
  class Compaction {
    const version: Version
    const level: nat
    var levelPtrs: seq<nat>
    ghost var floor: Option<UserKey>

    ghost predicate Valid()
      reads this
    {
      && TablesWellFormed(version) && LevelsDisjoint(version)
      && |levelPtrs| == NUM_LEVELS
      && forall l :: level + 2 <= l < NUM_LEVELS ==> PassedBy(version[l], levelPtrs[l], floor)
    }

    constructor (version: Version, level: nat)
      requires TablesWellFormed(version) && LevelsDisjoint(version)
      ensures Valid() && floor == None && this.version == version && this.level == level
    {
      this.version := version;
      this.level := level;
      levelPtrs := seq(NUM_LEVELS, _ => 0);
      floor := None;
    }

    method IsBaseLevelForKey(user: UserKey) returns (base: bool)
      requires Valid() && (floor.Some? ==> floor.value <= user)
      modifies this
      ensures Valid() && floor == Some(user)
      ensures base <==> IsBase(version, level, user)
    {
      forall l | level + 2 <= l < NUM_LEVELS
        ensures PassedBy(version[l], levelPtrs[l], Some(user))
      {
        assert PassedBy(version[l], levelPtrs[l], floor);
      }
      floor := Some(user);
      var lvl := level + 2;
      while lvl < NUM_LEVELS
        invariant level + 2 <= lvl && Valid() && floor == Some(user)
        invariant forall l, t :: level + 2 <= l < lvl && l < NUM_LEVELS && t in version[l] ==> !SpansUser(t, user)
      {
        var spanned := AdvanceLevel(lvl, user);
        if spanned {
          return false;
        }
        lvl := lvl + 1;
      }
      return true;
    }

    /** The test of one entry, given the sequence of the entry before it with the same user key. */
    method ShouldDrop(e: Entry, lastSequenceForKey: nat, snap: nat) returns (drop: bool)
      requires Valid() && (floor.Some? ==> floor.value <= e.key.user)
      modifies this
      ensures Valid() && (floor.Some? ==> floor.value <= e.key.user)
      ensures drop <==> lastSequenceForKey <= snap || Obsolete(version, level, e, snap)
    {
      drop := false;
      if lastSequenceForKey <= snap {
        drop := true;
      } else if e.key.kind.Deletion? && e.key.sequence <= snap {
        drop := IsBaseLevelForKey(e.key.user);
      }
    }

    /** Move past the tables of one level that end before `user`, and look at the next. */
    method AdvanceLevel(lvl: nat, user: UserKey) returns (spanned: bool)
      requires Valid() && floor == Some(user) && level + 2 <= lvl < NUM_LEVELS
      modifies this
      ensures Valid() && floor == Some(user)
      ensures spanned <==> exists t :: t in version[lvl] && SpansUser(t, user)
    {
      var files := version[lvl];
      while levelPtrs[lvl] < |files|
        invariant Valid() && floor == Some(user)
        decreases |files| - levelPtrs[lvl]
      {
        var p := levelPtrs[lvl];
        assert PassedBy(files, p, Some(user));
        var f := files[p];
        if user <= Largest(f).user {
          spanned := user >= Smallest(f).user;
          SpannedByNext(files, p, user);
          return;
        }
        assert PassedBy(files, p + 1, Some(user));
        assert forall l :: level + 2 <= l < NUM_LEVELS ==> PassedBy(version[l], levelPtrs[l], floor);
        levelPtrs := levelPtrs[lvl := p + 1];
      }
      spanned := false;
      assert PassedBy(files, levelPtrs[lvl], Some(user));
    }
  }

  /** If the first p tables end before `user` and the next does not, only the next can span it. */
  lemma SpannedByNext(files: seq<Table>, p: nat, user: UserKey)
    requires Disjoint(files) && AllWellFormed(files) && p < |files|
    requires forall j :: 0 <= j < p ==> Largest(files[j]).user < user
    requires user <= Largest(files[p]).user
    ensures (exists t :: t in files && SpansUser(t, user)) <==> Smallest(files[p]).user <= user
  {
    assert files[p] in files;
    if t :| t in files && SpansUser(t, user) {
      var j :| 0 <= j < |files| && files[j] == t;
      if p < j {
        DisjointLargest(files, p, j);
        SmallestAtMostLargest(files[p]);
      }
    }
  }

  // ----- the two drop rules

  /** Rule (A): the entry before it, of the same user key, is already visible at the snapshot. */
  predicate Hidden(input: seq<Entry>, i: nat, snap: nat)
    requires i < |input|
  {
    i > 0 && input[i - 1].key.user == input[i].key.user && input[i - 1].key.sequence <= snap
  }

  ghost predicate Dropped(v: Version, level: nat, input: seq<Entry>, i: nat, snap: nat)
    requires i < |input|
  {
    Hidden(input, i, snap) || Obsolete(v, level, input[i], snap)
  }

  /** The entries among the first `n` that a compaction keeps. */
  ghost function Kept(v: Version, level: nat, input: seq<Entry>, snap: nat, n: nat): seq<Entry>
    requires n <= |input|
  {
    if n == 0 then []
    else Kept(v, level, input, snap, n - 1) + if Dropped(v, level, input, n - 1, snap) then [] else [input[n - 1]]
  }

  ghost function KeptAll(v: Version, level: nat, input: seq<Entry>, snap: nat): seq<Entry> {
    Kept(v, level, input, snap, |input|)
  }

  ghost function Flatten(runs: seq<seq<Entry>>): seq<Entry> {
    if runs == [] then [] else Flatten(runs[..|runs| - 1]) + runs[|runs| - 1]
  }

  lemma FlattenAppend(runs: seq<seq<Entry>>, run: seq<Entry>)
    ensures Flatten(runs + [run]) == Flatten(runs) + run
  {
    assert (runs + [run])[..|runs|] == runs;
  }

  ghost predicate NoneEmpty(outputs: seq<seq<Entry>>) {
    forall o :: o in outputs ==> o != []
  }

  /** Finish the current output table, if one is open and it is time to. */
  method FinishOutput(time: bool, outputs: seq<seq<Entry>>, builder: seq<Entry>)
    returns (outputs': seq<seq<Entry>>, builder': seq<Entry>)
    requires NoneEmpty(outputs)
    ensures Flatten(outputs') + builder' == Flatten(outputs) + builder
    ensures NoneEmpty(outputs')
    ensures time ==> builder' == []
  {
    outputs', builder' := outputs, builder;
    if time && builder != [] {
      FlattenAppend(outputs, builder);
      outputs', builder' := outputs + [builder], [];
    }
  }

  /** User keys do not decrease. */
  ghost predicate UsersAscend(input: seq<Entry>) {
    forall i, j :: 0 <= i <= j < |input| ==> input[i].key.user <= input[j].key.user
  }

  lemma SortedUsersAscend(input: seq<Entry>)
    requires Sorted(input)
    ensures UsersAscend(input)
  {
    forall i, j | 0 <= i <= j < |input|
      ensures input[i].key.user <= input[j].key.user
    {
      assert i < j ==> Less(input[i].key, input[j].key);
    }
  }

  /** The variables of the merge loop. */
  datatype Merge = Merge(outputs: seq<seq<Entry>>, builder: seq<Entry>,
                         currentUserKey: Option<UserKey>, lastSequenceForKey: nat)

  /** After the first `i` entries. */
  ghost predicate HasMerged(m: Merge, c: Compaction, input: seq<Entry>, snap: nat, i: nat)
    requires i <= |input|
    reads c
  {
    && c.Valid() && NoneEmpty(m.outputs)
    && m.currentUserKey == (if i == 0 then None else Some(input[i - 1].key.user))
    && (i > 0 ==> m.lastSequenceForKey == input[i - 1].key.sequence)
    && (c.floor.Some? ==> i > 0 && c.floor.value <= input[i - 1].key.user)
    && Flatten(m.outputs) + m.builder == Kept(c.version, c.level, input, snap, i)
  }

  /** One entry of the merge. */
  method MergeEntry(m: Merge, c: Compaction, e: Entry, snap: nat, stop: bool, full: bool, ghost input: seq<Entry>,
                    ghost i: nat)
    returns (m': Merge)
    requires i < |input| && e == input[i] && HasMerged(m, c, input, snap, i)
    requires UsersAscend(input) && snap < MAX_SEQUENCE
    modifies c
    ensures HasMerged(m', c, input, snap, i + 1)
  {
    var outputs, builder := FinishOutput(stop, m.outputs, m.builder);
    var lastSequenceForKey := if m.currentUserKey != Some(e.key.user) then MAX_SEQUENCE else m.lastSequenceForKey;
    var drop := c.ShouldDrop(e, lastSequenceForKey, snap);
    assert drop <==> Dropped(c.version, c.level, input, i, snap);
    if !drop {
      assert Flatten(outputs) + (builder + [e]) == Flatten(outputs) + builder + [e];
      outputs, builder := FinishOutput(full, outputs, builder + [e]);
    }
    m' := Merge(outputs, builder, Some(e.key.user), e.key.sequence);
  }

  /**
   The merge loop over the merging iterator of the inputs.  The two tests by
   position stand for ShouldStopBefore and for the size of the output table, and decide only
   where one output ends and the next begins.
   */
  method DoCompactionWork(c: Compaction, iter: MergingIterator, snap: nat, stopBefore: nat -> bool, isFull: nat -> bool)
    returns (outputs: seq<seq<Entry>>)
    requires c.Valid() && c.floor == None && iter.Fixed()
    requires snap < MAX_SEQUENCE
    modifies c, iter, iter.children
    ensures Flatten(outputs) == KeptAll(c.version, c.level, iter.all, snap)
    ensures NoneEmpty(outputs)
  {
    SortedUsersAscend(iter.all);
    var m := Merge([], [], None, MAX_SEQUENCE);
    var i := 0;
    iter.SeekToFirst();
    while iter.Valid()
      invariant iter.Ok() && iter.at == i <= |iter.all|
      invariant HasMerged(m, c, iter.all, snap, i)
      decreases |iter.all| - i
    {
      var e := iter.CurrentEntry();
      m := MergeEntry(m, c, e, snap, stopBefore(i), isFull(i), iter.all, i);
      iter.Next();
      i := i + 1;
    }
    ghost var builder;
    outputs, builder := FinishOutput(true, m.outputs, m.builder);
  }

  // ----- what dropping does to reads

  lemma {:induction false} KeptMembers(v: Version, level: nat, input: seq<Entry>, snap: nat, n: nat)
    requires n <= |input|
    ensures forall e :: e in Kept(v, level, input, snap, n) <==>
                        exists i :: 0 <= i < n && input[i] == e && !Dropped(v, level, input, i, snap)
  {
    if n > 0 {
      KeptMembers(v, level, input, snap, n - 1);
      var front := Kept(v, level, input, snap, n - 1);
      forall e | e in Kept(v, level, input, snap, n)
        ensures exists i :: 0 <= i < n && input[i] == e && !Dropped(v, level, input, i, snap)
      {
        if e in front {
          var i :| 0 <= i < n - 1 && input[i] == e && !Dropped(v, level, input, i, snap);
        }
      }
    }
  }

  /**
   A key comes back to life: the newest input entry visible at the snapshot is a tombstone
   that will be dropped, and the newest entry outside the inputs is an older value.
   */
  ghost predicate Resurrects(v: Version, level: nat, input: set<Entry>, rest: set<Entry>, snap: nat, user: UserKey) {
    exists e, r ::
      && IsNewest(input, user, snap, e) && e.key.kind.Deletion? && IsBase(v, level, user)
      && IsNewest(rest, user, snap, r) && r.key.kind.Put? && r.key.sequence < e.key.sequence
  }

  ghost predicate ReadsAgree(a: set<Entry>, b: set<Entry>, snap: nat) {
    forall user, s :: s >= snap ==> SetRead(a, user, s) == SetRead(b, user, s)
  }

  /** Reads at or above `snap` agree, but perhaps for some keys. */
  ghost predicate ReadsAgreeBut(a: set<Entry>, b: set<Entry>, snap: nat, users: set<UserKey>) {
    forall user, s :: user !in users && s >= snap ==> SetRead(a, user, s) == SetRead(b, user, s)
  }

  /** The keys that come back to life. */
  ghost function Revived(v: Version, level: nat, input: set<Entry>, rest: set<Entry>, snap: nat): (users: set<UserKey>)
    ensures forall user :: user in users <==> Resurrects(v, level, input, rest, snap, user)
  {
    set e | e in input && Resurrects(v, level, input, rest, snap, e.key.user) :: e.key.user
  }

  lemma SameUserDescends(input: seq<Entry>, i: nat, j: nat)
    requires Sorted(input) && Distinct(Elements(input)) && i < j < |input|
    requires input[i].key.user == input[j].key.user
    ensures input[i].key.sequence > input[j].key.sequence
  {
    assert input[i] in Elements(input) && input[j] in Elements(input);
    assert Less(input[i].key, input[j].key);
  }

  /** Everything after a visible entry of the same user key is hidden by rule (A). */
  lemma LaterIsHidden(input: seq<Entry>, i: nat, j: nat, snap: nat)
    requires Sorted(input) && Distinct(Elements(input)) && i < j < |input|
    requires input[i].key.user == input[j].key.user && input[i].key.sequence <= snap
    ensures Hidden(input, j, snap)
  {
    if i < j - 1 {
      assert Less(input[i].key, input[j - 1].key) && Less(input[j - 1].key, input[j].key);
      SameUserDescends(input, i, j - 1);
    }
  }

  lemma HiddenIsNotNewest(input: seq<Entry>, i: nat, snap: nat, user: UserKey, s: nat)
    requires Sorted(input) && Distinct(Elements(input)) && i < |input| && snap <= s
    requires IsNewest(Elements(input), user, s, input[i])
    ensures !Hidden(input, i, snap)
  {
    if i > 0 && input[i - 1].key.user == input[i].key.user {
      SameUserDescends(input, i - 1, i);
      assert input[i - 1] in Elements(input);
    }
  }

  lemma KeptIsSubset(v: Version, level: nat, input: seq<Entry>, snap: nat)
    ensures Elements(KeptAll(v, level, input, snap)) <= Elements(input)
  {
    KeptMembers(v, level, input, snap, |input|);
  }

  /** No kept entry is older than an entry of the same user key visible at the snapshot. */
  lemma NothingKeptBelow(v: Version, level: nat, input: seq<Entry>, snap: nat, i: nat, f: Entry)
    requires Sorted(input) && Distinct(Elements(input)) && i < |input| && input[i].key.sequence <= snap
    requires f in KeptAll(v, level, input, snap) && f.key.user == input[i].key.user
    ensures f.key.sequence >= input[i].key.sequence
    ensures f == input[i] ==> !Dropped(v, level, input, i, snap)
  {
    KeptMembers(v, level, input, snap, |input|);
    var j :| 0 <= j < |input| && input[j] == f && !Dropped(v, level, input, j, snap);
    if i < j {
      LaterIsHidden(input, i, j, snap);
    } else if j < i {
      SameUserDescends(input, j, i);
    }
  }

  /** At or above the snapshot, a dropped entry that decided a read is an obsolete tombstone. */
  lemma DroppedNewest(v: Version, level: nat, input: seq<Entry>, snap: nat, user: UserKey, s: nat, e: Entry)
    requires Sorted(input) && Distinct(Elements(input)) && snap <= s
    requires IsNewest(Elements(input), user, s, e) && e !in KeptAll(v, level, input, snap)
    ensures Obsolete(v, level, e, snap) && IsNewest(Elements(input), user, snap, e)
    ensures forall f :: f in KeptAll(v, level, input, snap) ==> !Candidate(f, user, s)
  {
    KeptMembers(v, level, input, snap, |input|);
    var i :| 0 <= i < |input| && input[i] == e;
    HiddenIsNotNewest(input, i, snap, user, s);
    KeptIsSubset(v, level, input, snap);
    forall f | f in KeptAll(v, level, input, snap)
      ensures !Candidate(f, user, s)
    {
      assert f in Elements(input);
      if Candidate(f, user, s) {
        NothingKeptBelow(v, level, input, snap, i, f);
      }
    }
  }

  lemma NewestOfUnion(a: set<Entry>, b: set<Entry>, user: UserKey, s: nat, e: Entry)
    requires IsNewest(a + b, user, s, e)
    ensures e in a ==> IsNewest(a, user, s, e)
    ensures e in b ==> IsNewest(b, user, s, e)
  {
  }

  /** A read that no resurrection affects. */
  lemma ReadSurvives(v: Version, level: nat, input: seq<Entry>, rest: set<Entry>, snap: nat, user: UserKey, s: nat)
    requires Sorted(input) && Distinct(Elements(input) + rest) && snap <= s
    requires !Resurrects(v, level, Elements(input), rest, snap, user)
    ensures SetRead(Elements(KeptAll(v, level, input, snap)) + rest, user, s) ==
            SetRead(Elements(input) + rest, user, s)
  {
    var all, kept := Elements(input), Elements(KeptAll(v, level, input, snap));
    KeptIsSubset(v, level, input, snap);
    if e :| IsNewest(all + rest, user, s, e) {
      NewestIsUnique(all + rest, user, s, e);
      NewestOfUnion(all, rest, user, s, e);
      if e in kept + rest {
        assert IsNewest(kept + rest, user, s, e);
        NewestIsUnique(kept + rest, user, s, e);
      } else {
        DroppedNewest(v, level, input, snap, user, s, e);
        OnlyRestRemains(kept, rest, snap, user, s, e);
        if r :| IsNewest(rest, user, snap, r) {
          NewestIsUnique(rest, user, snap, r);
        }
      }
    } else {
      NewestIsNone(all + rest, user, s);
      NewestIsNone(kept + rest, user, s);
    }
  }

  /** With `e` gone and nothing kept below it, the rest decides, as it did at the snapshot. */
  lemma OnlyRestRemains(kept: set<Entry>, rest: set<Entry>, snap: nat, user: UserKey, s: nat, e: Entry)
    requires Distinct(kept + rest) && snap <= s && e.key.sequence <= snap && e !in rest
    requires forall f :: f in kept ==> !Candidate(f, user, s)
    requires forall f :: f in rest && Candidate(f, user, s) ==> f.key.sequence < e.key.sequence
    ensures Newest(kept + rest, user, s) == Newest(rest, user, snap)
    ensures forall r :: IsNewest(rest, user, snap, r) ==> r.key.sequence < e.key.sequence
  {
    forall f | f in rest
      ensures Candidate(f, user, s) <==> Candidate(f, user, snap)
    {
    }
    forall r
      ensures IsNewest(kept + rest, user, s, r) <==> IsNewest(rest, user, snap, r)
    {
    }
    NewestTransfer(kept + rest, rest, user, s, snap);
  }

  lemma ResurrectionChangesRead(v: Version, level: nat, input: seq<Entry>, rest: set<Entry>, snap: nat, user: UserKey)
    requires Sorted(input) && Distinct(Elements(input) + rest)
    requires Resurrects(v, level, Elements(input), rest, snap, user)
    ensures SetRead(Elements(input) + rest, user, snap) == NotFound
    ensures SetRead(Elements(KeptAll(v, level, input, snap)) + rest, user, snap).Found?
  {
    var all, kept := Elements(input), Elements(KeptAll(v, level, input, snap));
    var e, r :|
      && IsNewest(all, user, snap, e) && e.key.kind.Deletion? && IsBase(v, level, user)
      && IsNewest(rest, user, snap, r) && r.key.kind.Put? && r.key.sequence < e.key.sequence;
    assert IsNewest(all + rest, user, snap, e);
    NewestIsUnique(all + rest, user, snap, e);
    var i :| 0 <= i < |input| && input[i] == e;
    assert Dropped(v, level, input, i, snap);
    KeptIsSubset(v, level, input, snap);
    forall f | f in kept
      ensures !Candidate(f, user, snap)
    {
      assert f in all;
      if Candidate(f, user, snap) {
        NothingKeptBelow(v, level, input, snap, i, f);
      }
    }
    assert IsNewest(kept + rest, user, snap, r);
    NewestIsUnique(kept + rest, user, snap, r);
  }

  /** Reads of one key at or above `snap` agree. */
  ghost predicate KeyAgrees(a: set<Entry>, b: set<Entry>, snap: nat, user: UserKey) {
    forall s: nat :: s >= snap ==> SetRead(a, user, s) == SetRead(b, user, s)
  }

  /** Exactly which keys a compaction leaves unharmed, whatever else the database holds. */
  lemma PreservesKeyIff(v: Version, level: nat, input: seq<Entry>, rest: set<Entry>, snap: nat, user: UserKey)
    requires Sorted(input) && Distinct(Elements(input) + rest)
    ensures KeyAgrees(Elements(KeptAll(v, level, input, snap)) + rest, Elements(input) + rest, snap, user)
            <==> !Resurrects(v, level, Elements(input), rest, snap, user)
  {
    var all, kept := Elements(input), Elements(KeptAll(v, level, input, snap));
    if Resurrects(v, level, all, rest, snap, user) {
      ResurrectionChangesRead(v, level, input, rest, snap, user);
      assert SetRead(kept + rest, user, snap) != SetRead(all + rest, user, snap);
    } else {
      forall s: nat | s >= snap
        ensures SetRead(kept + rest, user, s) == SetRead(all + rest, user, s)
      {
        ReadSurvives(v, level, input, rest, snap, user, s);
      }
    }
  }

  lemma AgreeByKey(a: set<Entry>, b: set<Entry>, snap: nat)
    ensures ReadsAgree(a, b, snap) <==> forall user :: KeyAgrees(a, b, snap, user)
  {
    hide SetRead;
    if ReadsAgree(a, b, snap) {
      forall user
        ensures KeyAgrees(a, b, snap, user)
      {
      }
    }
    if forall user :: KeyAgrees(a, b, snap, user) {
      forall user, s | s >= snap
        ensures SetRead(a, user, s) == SetRead(b, user, s)
      {
        assert KeyAgrees(a, b, snap, user);
      }
    }
  }

  /**
   Exactly when a compaction preserves every read at or above its smallest snapshot,
   whatever else the database holds.
   */
  lemma PreservesReadsIff(v: Version, level: nat, input: seq<Entry>, rest: set<Entry>, snap: nat)
    requires Sorted(input) && Distinct(Elements(input) + rest)
    ensures ReadsAgree(Elements(KeptAll(v, level, input, snap)) + rest, Elements(input) + rest, snap)
            <==> forall user :: !Resurrects(v, level, Elements(input), rest, snap, user)
    ensures ReadsAgreeBut(Elements(KeptAll(v, level, input, snap)) + rest, Elements(input) + rest, snap,
                          Revived(v, level, Elements(input), rest, snap))
  {
    hide Resurrects, SetRead, KeptAll, ReadsAgree;
    var all, kept := Elements(input), Elements(KeptAll(v, level, input, snap));
    AgreeByKey(kept + rest, all + rest, snap);
    forall user
      ensures KeyAgrees(kept + rest, all + rest, snap, user) <==> !Resurrects(v, level, all, rest, snap, user)
    {
      PreservesKeyIff(v, level, input, rest, snap, user);
    }
    forall user, s | user !in Revived(v, level, all, rest, snap) && s >= snap
      ensures SetRead(kept + rest, user, s) == SetRead(all + rest, user, s)
    {
      assert KeyAgrees(kept + rest, all + rest, snap, user);
    }
  }
}
