/**
 What a whole compaction does to the reads of a version: exactly when it preserves them, why
 only a missing boundary file at the next level can break them, and a version where it does.
 */
module CompactionReads {
  import opened InternalKeys
  import opened ReadSpec
  import opened Versions
  import opened CompactionInputs
  import opened CompactionSetup
  import opened CompactionMerge
  import opened VersionBuilder
  import opened Installing

  ghost function InputEntries(p: Plan): set<Entry> {
    TableEntries(p.inputs0 + p.inputs1)
  }

  /** The entries a compaction does not touch. */
  ghost function RestEntries(v: Version, p: Plan): set<Entry> {
    set l, t, e | 0 <= l < NUM_LEVELS && t in v[l] && Remains(v, p, l, t) && e in t.entries :: e
  }

  lemma InputsAndRest(v: Version, p: Plan)
    requires MergeableInputs(v, p.level, p.inputs0, p.inputs1)
    ensures VersionEntries(v) == InputEntries(p) + RestEntries(v, p)
  {
    forall e | e in VersionEntries(v)
      ensures e in InputEntries(p) + RestEntries(v, p)
    {
      var l, t :| 0 <= l < NUM_LEVELS && t in v[l] && e in t.entries;
      if !Remains(v, p, l, t) {
        assert t in p.inputs0 + p.inputs1;
      }
    }
    forall e | e in InputEntries(p)
      ensures e in VersionEntries(v)
    {
      var t :| t in p.inputs0 + p.inputs1 && e in t.entries;
      if t in p.inputs0 {
        assert t in v[p.level];
      } else {
        assert t in v[p.level + 1];
      }
    }
  }

  lemma EntriesOfReplaced(v: Version, v': Version, p: Plan, outs: seq<Table>)
    requires p.level + 1 < NUM_LEVELS
    requires forall l, t :: 0 <= l < NUM_LEVELS ==>
             (t in v'[l] <==> Remains(v, p, l, t) || (l == p.level + 1 && t in outs))
    ensures VersionEntries(v') == TableEntries(outs) + RestEntries(v, p)
  {
    forall e | e in TableEntries(outs)
      ensures e in VersionEntries(v')
    {
      var t :| t in outs && e in t.entries;
      assert t in v'[p.level + 1];
    }
  }

  lemma OutputsAndRest(v: Version, p: Plan, outs: seq<Table>)
    requires ValidVersion(v) && MergeableInputs(v, p.level, p.inputs0, p.inputs1) && AreOutputs(v, p, outs)
    ensures VersionEntries(Install(v, ReplaceEdit(p, outs))) == TableEntries(outs) + RestEntries(v, p)
  {
    ReplacedTables(v, p, outs);
    EntriesOfReplaced(v, Install(v, ReplaceEdit(p, outs)), p, outs);
  }

  /** The merged input and the outputs of one compaction. */
  ghost predicate IsCompaction(v: Version, p: Plan, input: seq<Entry>, snap: nat, outs: seq<Table>) {
    && MergeableInputs(v, p.level, p.inputs0, p.inputs1)
    && Sorted(input) && Elements(input) == InputEntries(p)
    && AreOutputs(v, p, outs)
    && TableEntries(outs) == Elements(KeptAll(v, p.level, input, snap))
  }

  /** The keys that a compaction of the plan brings back to life. */
  ghost function RevivedBy(v: Version, p: Plan, snap: nat): set<UserKey> {
    Revived(v, p.level, InputEntries(p), RestEntries(v, p), snap)
  }

  /** Exactly when a compaction preserves every read of the version at or above the snapshot. */
  lemma CompactionReadsIff(v: Version, p: Plan, input: seq<Entry>, snap: nat, outs: seq<Table>)
    requires ValidVersion(v) && Distinct(VersionEntries(v)) && IsCompaction(v, p, input, snap, outs)
    ensures VersionEntries(Install(v, ReplaceEdit(p, outs))) <= VersionEntries(v)
    ensures ReadsAgree(VersionEntries(Install(v, ReplaceEdit(p, outs))), VersionEntries(v), snap)
            <==> forall user :: !Resurrects(v, p.level, InputEntries(p), RestEntries(v, p), snap, user)
    ensures ReadsAgreeBut(VersionEntries(Install(v, ReplaceEdit(p, outs))), VersionEntries(v), snap,
            RevivedBy(v, p, snap))
  {
    InputsAndRest(v, p);
    OutputsAndRest(v, p, outs);
    KeptIsSubset(v, p.level, input, snap);
    PreservesReadsIff(v, p.level, input, RestEntries(v, p), snap);
  }

  /** An older entry that a compaction leaves alone, of a key whose tombstone it drops, is at the next level. */
  lemma OlderRestIsAtNextLevel(v: Version, p: Plan, l: nat, h: Table, f: Table, e: Entry, r: Entry)
    requires ValidVersion(v) && MergeableInputs(v, p.level, p.inputs0, p.inputs1)
    requires l < NUM_LEVELS && h in v[l] && Remains(v, p, l, h) && r in h.entries
    requires f in p.inputs0 + p.inputs1 && e in f.entries
    requires r.key.user == e.key.user && r.key.sequence < e.key.sequence && IsBase(v, p.level, e.key.user)
    ensures l == p.level + 1 && f in p.inputs1
  {
    assert AllWellFormed(v[l]);
    EntryInRange(h, r);
    assert SpansUser(h, e.key.user);
    assert f in p.inputs0 && l < p.level ==> InOrder(v, l, h, p.level, f);
    assert f in p.inputs0 && l == p.level ==> NewerThan(h, f);
    assert f in p.inputs0 && l == p.level + 1 ==> NoSharedUser(h, f);
    assert f in p.inputs1 && l <= p.level ==> InOrder(v, l, h, p.level + 1, f);
  }

  /**
   A key can only come back to life if the table that follows `inputs1` starts with the
   user key `inputs1` ends with: the boundary file that AddBoundaryInputs would have taken,
   had it been applied to `inputs1`.
   */
  lemma ResurrectionNeedsBoundaryFile(v: Version, p: Plan, snap: nat, user: UserKey, largest: InternalKey)
    requires ValidVersion(v) && Distinct(VersionEntries(v)) && MergeableInputs(v, p.level, p.inputs0, p.inputs1)
    requires Resurrects(v, p.level, InputEntries(p), RestEntries(v, p), snap, user)
    requires p.inputs1 != [] ==> IsLargestKey(p.inputs1, largest)
    ensures p.inputs1 != [] && largest.user == user && HasBoundaryFile(v[p.level + 1], largest)
  {
    var e, r :|
      && IsNewest(InputEntries(p), user, snap, e) && e.key.kind.Deletion? && IsBase(v, p.level, user)
      && IsNewest(RestEntries(v, p), user, snap, r) && r.key.kind.Put? && r.key.sequence < e.key.sequence;
    var f :| f in p.inputs0 + p.inputs1 && e in f.entries;
    var l, h :| 0 <= l < NUM_LEVELS && h in v[l] && Remains(v, p, l, h) && r in h.entries;
    OlderRestIsAtNextLevel(v, p, l, h, f, e, r);
    FollowsInputs(v, p, h, f, e, r, largest);
    assert IsBoundaryFile(h, largest);
  }

  lemma FollowsInputs(v: Version, p: Plan, h: Table, f: Table, e: Entry, r: Entry, largest: InternalKey)
    requires TablesWellFormed(v) && MergeableInputs(v, p.level, p.inputs0, p.inputs1)
    requires h in v[p.level + 1] && h !in p.inputs1 && r in h.entries && f in p.inputs1 && e in f.entries
    requires r.key.user == e.key.user && r.key.sequence < e.key.sequence && IsLargestKey(p.inputs1, largest)
    ensures largest.user == e.key.user && IsBoundaryFile(h, largest)
  {
    assert AllWellFormed(v[p.level + 1]);
    EntryInRange(h, r);
    EntryInRange(f, e);
    assert f in p.inputs0 + p.inputs1 && !NoSharedUser(h, f);
    assert OutsideHull(h, p.inputs0 + p.inputs1);
    var g :| g in p.inputs1 && Largest(g) == largest;
    assert g in p.inputs0 + p.inputs1 && g in v[p.level + 1];
    SmallestAtMostLargest(h);
    assert Less(e.key, r.key);
    if Less(Largest(h), Smallest(f)) {
      LessIsStrictOrder(Largest(h), Smallest(f), e.key);
      assert false;
    }
    assert Less(Largest(g), Smallest(h));
  }

  lemma NothingResurrects(v: Version, p: Plan, snap: nat)
    requires ValidVersion(v) && Distinct(VersionEntries(v)) && MergeableInputs(v, p.level, p.inputs0, p.inputs1)
    requires forall k :: IsLargestKey(p.inputs1, k) ==> !HasBoundaryFile(v[p.level + 1], k)
    ensures forall user :: !Resurrects(v, p.level, InputEntries(p), RestEntries(v, p), snap, user)
    ensures RevivedBy(v, p, snap) == {}
  {
    forall user
      ensures !Resurrects(v, p.level, InputEntries(p), RestEntries(v, p), snap, user)
    {
      if Resurrects(v, p.level, InputEntries(p), RestEntries(v, p), snap, user) {
        var largest := InternalKey(0.0, 0, Put);
        if p.inputs1 != [] {
          var s;
          s, largest := GetRangeOf(p.inputs1);
        }
        ResurrectionNeedsBoundaryFile(v, p, snap, user, largest);
      }
    }
  }

  /** With no boundary file after `inputs1`, a compaction preserves every read. */
  lemma CompactionPreservesReads(v: Version, p: Plan, input: seq<Entry>, snap: nat, outs: seq<Table>)
    requires ValidVersion(v) && Distinct(VersionEntries(v)) && IsCompaction(v, p, input, snap, outs)
    requires forall k :: IsLargestKey(p.inputs1, k) ==> !HasBoundaryFile(v[p.level + 1], k)
    ensures ReadsAgree(VersionEntries(Install(v, ReplaceEdit(p, outs))), VersionEntries(v), snap)
  {
    NothingResurrects(v, p, snap);
    CompactionReadsIff(v, p, input, snap, outs);
  }
}
