/**
 A run in which a compaction, chosen and merged exactly as the code does it, brings a deleted
 key back to life, because SetupOtherInputs (db/version_set.cc) applies AddBoundaryInputs to
 `inputs_[0]` only.

 A snapshot makes a first compaction keep a tombstone for key 1.0 and the value under it, and
 its output is cut between the two. Once the snapshot is gone, a second compaction overlaps
 only the table that ends with the tombstone; it drops the tombstone, and the old value shows.
 */
module BoundaryGap {
  import opened Optional
  import opened InternalKeys
  import opened ReadSpec
  import opened Versions
  import opened CompactionInputs
  import opened CompactionSetup
  import opened Unbroken
  import opened CompactionMerge
  import opened VersionBuilder
  import opened Installing
  import opened Flushing
  import opened CompactionReads
  import opened MemTables
  import opened DbState
  import opened DbInvariant
  import opened DbRuns
  import opened DbReach

  function Write(user: UserKey, s: nat, value: Value): Entry {
    Entry(InternalKey(user, s, Put), value)
  }

  const OLD: Entry := Write(1.0, 1, "old")
  const OTHER: Entry := Write(0.0, 2, "a")
  const TOMBSTONE: Entry := Entry(InternalKey(1.0, 3, Deletion), "")
  const NEW: Entry := Write(0.0, 4, "new")

  /** The writes, in order; the third deletes key 1.0. */
  const HISTORY: seq<Entry> := [OLD, OTHER, TOMBSTONE, NEW]

  const FLUSHED: Table := Table(5, 1, [OTHER, TOMBSTONE, OLD])
  const FIRST: Table := Table(6, 1, [OTHER, TOMBSTONE])
  const SECOND: Table := Table(7, 1, [OLD])
  const UPPER: Table := Table(9, 1, [NEW])
  const MERGED: Table := Table(10, 1, [NEW])

  const ONE: Version := [[], [], [FLUSHED], [], [], [], []]
  const SPLIT: Version := [[], [], [], [FIRST, SECOND], [], [], []]
  const BEFORE: Version := [[], [], [UPPER], [FIRST, SECOND], [], [], []]

  const SPLITTING: Plan := Plan(2, [FLUSHED], [], [])
  const PLAN: Plan := Plan(2, [UPPER], [FIRST], [])
  const INPUT: seq<Entry> := [NEW, OTHER, TOMBSTONE]

  // ----- the second compaction

  lemma TablesOfBefore(l: nat, t: Table)
    ensures l < NUM_LEVELS && t in BEFORE[l] <==>
            (l == 2 && t == UPPER) || (l == 3 && (t == FIRST || t == SECOND))
  {
    if l == 3 {
      assert BEFORE[3] == [FIRST, SECOND];
    } else if l == 2 {
      assert BEFORE[2] == [UPPER];
    }
  }

  lemma TablesAreWellFormed()
    ensures WellFormed(UPPER) && WellFormed(FIRST) && WellFormed(SECOND) && WellFormed(MERGED) && WellFormed(FLUSHED)
  {
  }

  lemma BeforeIsValid()
    ensures ValidVersion(BEFORE)
  {
    TablesAreWellFormed();
    forall l | 0 <= l < NUM_LEVELS
      ensures AllWellFormed(BEFORE[l])
    {
      forall t | t in BEFORE[l]
        ensures WellFormed(t)
      {
        TablesOfBefore(l, t);
      }
    }
    forall l | 1 <= l < NUM_LEVELS
      ensures Disjoint(BEFORE[l])
    {
      forall i: nat, j: nat | i < j < |BEFORE[l]|
        ensures Precedes(BEFORE[l], i, j)
      {
        assert l == 3;
      }
    }
    forall l: nat, m: nat, a, b | l < NUM_LEVELS && m < NUM_LEVELS && a in BEFORE[l] && b in BEFORE[m]
      ensures l < m ==> InOrder(BEFORE, l, a, m, b)
      ensures Identified(BEFORE, l, a, m, b)
    {
      TablesOfBefore(l, a);
      TablesOfBefore(m, b);
    }
  }

  lemma EntriesOfBefore()
    ensures VersionEntries(BEFORE) == Elements(HISTORY)
  {
    forall e | e in Elements(HISTORY)
      ensures e in VersionEntries(BEFORE)
    {
      assert UPPER in BEFORE[2] && FIRST in BEFORE[3] && SECOND in BEFORE[3];
      assert e in UPPER.entries || e in FIRST.entries || e in SECOND.entries;
    }
    forall e | e in VersionEntries(BEFORE)
      ensures e in Elements(HISTORY)
    {
      var l, t :| 0 <= l < NUM_LEVELS && t in BEFORE[l] && e in t.entries;
      TablesOfBefore(l, t);
    }
  }

  lemma EntriesOfPlan()
    ensures InputEntries(PLAN) == Elements(INPUT)
    ensures RestEntries(BEFORE, PLAN) == Elements(SECOND.entries)
  {
    assert UPPER in PLAN.inputs0 + PLAN.inputs1 && FIRST in PLAN.inputs0 + PLAN.inputs1;
    forall e
      ensures e in InputEntries(PLAN) <==> e in UPPER.entries || e in FIRST.entries
    {
    }
    forall e
      ensures e in INPUT <==> e in UPPER.entries || e in FIRST.entries
    {
    }
    forall e
      ensures e in RestEntries(BEFORE, PLAN) <==> e in Elements(SECOND.entries)
    {
      if e in RestEntries(BEFORE, PLAN) {
        var l, t :| 0 <= l < NUM_LEVELS && t in BEFORE[l] && Remains(BEFORE, PLAN, l, t) && e in t.entries;
        TablesOfBefore(l, t);
      }
      if e in Elements(SECOND.entries) {
        assert SECOND in BEFORE[3] && Remains(BEFORE, PLAN, 3, SECOND);
      }
    }
  }

  lemma OneTableIsClosed(t: Table)
    requires WellFormed(t)
    ensures IsClosedStart([t], 2, [t])
    ensures IsSmallestKey([t], Smallest(t)) && IsLargestKey([t], Largest(t))
  {
    assert [t][0..1] == [t] && EndsAtUserKey([t], 1);
    assert t in [t];
  }

  lemma FirstIsThePartner()
    ensures OverlapList(BEFORE[3], Some(0.0), Some(0.0)) == [FIRST]
  {
    OverlapListStep([FIRST, SECOND], 0, Some(0.0), Some(0.0));
    OverlapListStep([FIRST, SECOND], 1, Some(0.0), Some(0.0));
    assert [FIRST, SECOND][..0] == [] && [FIRST, SECOND][..2] == [FIRST, SECOND];
  }

  lemma NoGrandparents(inputs: seq<Table>)
    requires inputs != [] && AllWellFormed(inputs)
    ensures ArePartners([], inputs, [])
  {
    var s, k := GetRangeOf(inputs);
    assert OverlapList([], Some(s.user), Some(k.user)) == [];
  }

  /** The plan is what SetupOtherInputs makes of a compaction of the level-2 table. */
  lemma PlanIsChosen()
    ensures IsPlan(BEFORE, [UPPER], PLAN)
  {
    hide HangTogether, SafeInputs, IsClosedStart, ArePartners, ValidVersion;
    InputsAreChosen();
    TablesAreWellFormed();
    NoGrandparents([UPPER] + [FIRST]);
    InputsHangTogether();
    assert PLAN.inputs0 + PLAN.inputs1 == [UPPER] + [FIRST];
  }

  lemma InputsAreChosen()
    ensures SafeInputs(BEFORE, 2, [UPPER], [FIRST]) && IsClosedStart(BEFORE[2], 2, [UPPER])
    ensures ArePartners(BEFORE[3], [UPPER], [FIRST])
  {
    hide HangTogether, SafeInputs, ArePartners;
    BeforeIsValid();
    EntriesOfBefore();
    HistoryReadIsSetRead(HISTORY, 0.0, 0);
    TablesAreWellFormed();
    OneTableIsClosed(UPPER);
    FirstIsThePartner();
    PlanIsSafe(BEFORE, 2, [UPPER], [FIRST], Smallest(UPPER), Largest(UPPER));
  }

  lemma InputsHangTogether()
    ensures HangTogether([UPPER] + [FIRST])
  {
    OneTableHangsTogether(UPPER);
    assert UPPER in [UPPER];
    JoinHangsTogether([UPPER], [FIRST]);
  }

  lemma MergeOfPlan()
    ensures Sorted(INPUT) && KeptAll(BEFORE, 2, INPUT, 4) == MERGED.entries
  {
    assert IsBase(BEFORE, 2, 1.0);
    assert !Dropped(BEFORE, 2, INPUT, 0, 4);
    assert Dropped(BEFORE, 2, INPUT, 1, 4);
    assert Dropped(BEFORE, 2, INPUT, 2, 4);
    assert Kept(BEFORE, 2, INPUT, 4, 0) == [];
    assert Kept(BEFORE, 2, INPUT, 4, 1) == [NEW];
    assert Kept(BEFORE, 2, INPUT, 4, 2) == [NEW];
    assert Kept(BEFORE, 2, INPUT, 4, 3) == [NEW];
  }

  lemma MergedIsOutput()
    ensures AreOutputs(BEFORE, PLAN, [MERGED])
  {
    TablesAreWellFormed();
    assert UPPER in PLAN.inputs0 + PLAN.inputs1;
    forall l, u | 0 <= l < NUM_LEVELS && u in BEFORE[l]
      ensures u.number != MERGED.number
    {
      TablesOfBefore(l, u);
    }
  }

  lemma IsTheCompaction()
    ensures IsCompaction(BEFORE, PLAN, INPUT, 4, [MERGED])
  {
    PlanIsChosen();
    EntriesOfPlan();
    MergeOfPlan();
    MergedIsOutput();
    assert TableEntries([MERGED]) == Elements(MERGED.entries) by {
      assert MERGED in [MERGED];
    }
  }

  lemma ReadOfHistory()
    ensures IsHistory(HISTORY) && Distinct(Elements(HISTORY))
    ensures HistoryRead(HISTORY, 1.0, 4) == NotFound == SetRead(Elements(HISTORY), 1.0, 4)
  {
    HistoryReadIsSetRead(HISTORY, 1.0, 4);
    assert HistoryRead(HISTORY, 1.0, 3) == NotFound;
  }

  lemma ReadOfRemains()
    ensures SetRead(TableEntries([MERGED]) + RestEntries(BEFORE, PLAN), 1.0, 4) == Found("old")
  {
    ReadOfHistory();
    EntriesOfPlan();
    assert MERGED in [MERGED];
    var after := TableEntries([MERGED]) + Elements(SECOND.entries);
    forall e
      ensures e in after <==> e == NEW || e == OLD
    {
      assert e in MERGED.entries <==> e == NEW;
      assert e in SECOND.entries <==> e == OLD;
    }
    assert NEW in HISTORY && OLD in HISTORY;
    assert after <= Elements(HISTORY);
    assert IsNewest(after, 1.0, 4, OLD);
    NewestIsUnique(after, 1.0, 4, OLD);
  }

  // ----- the first compaction

  lemma TablesOfOne(l: nat, t: Table)
    ensures l < NUM_LEVELS && t in ONE[l] <==> l == 2 && t == FLUSHED
  {
    if l == 2 {
      assert ONE[2] == [FLUSHED];
    }
  }

  lemma SplittingIsSafe()
    ensures SafeInputs(ONE, 2, [FLUSHED], [])
  {
    forall h | h in ONE[3]
      ensures false
    {
      TablesOfOne(3, h);
    }
    assert ONE[2] == [FLUSHED];
  }

  lemma SplittingKeepsAll()
    ensures Sorted(FLUSHED.entries) && KeptAll(ONE, 2, FLUSHED.entries, 1) == FLUSHED.entries
  {
    var input := FLUSHED.entries;
    assert !Dropped(ONE, 2, input, 0, 1) && !Dropped(ONE, 2, input, 1, 1) && !Dropped(ONE, 2, input, 2, 1);
    assert Kept(ONE, 2, input, 1, 0) == [];
    assert Kept(ONE, 2, input, 1, 1) == [OTHER];
    assert Kept(ONE, 2, input, 1, 2) == [OTHER, TOMBSTONE];
    assert Kept(ONE, 2, input, 1, 3) == [OTHER, TOMBSTONE, OLD];
  }

  /** With a snapshot at 1, the merge of the flushed table may be cut inside key 1.0. */
  lemma SplittingIsCompaction()
    ensures IsCompaction(ONE, SPLITTING, FLUSHED.entries, 1, [FIRST, SECOND])
  {
    SplittingIsSafe();
    SplittingKeepsAll();
    TablesAreWellFormed();
    assert FLUSHED in SPLITTING.inputs0 + SPLITTING.inputs1;
    forall e
      ensures e in InputEntries(SPLITTING) <==> e in FLUSHED.entries
    {
    }
    assert FIRST in [FIRST, SECOND] && SECOND in [FIRST, SECOND];
    forall e
      ensures e in TableEntries([FIRST, SECOND]) <==> e in FLUSHED.entries
    {
      assert e in FLUSHED.entries ==> e in FIRST.entries || e in SECOND.entries;
    }
    forall l, u | 0 <= l < NUM_LEVELS && u in ONE[l]
      ensures u.number == 5
    {
      TablesOfOne(l, u);
    }
  }

  /** It revives nothing: there is nothing but its inputs. */
  lemma SplittingRevivesNone()
    ensures RevivedBy(ONE, SPLITTING, 1) == {}
  {
    forall e
      ensures e !in RestEntries(ONE, SPLITTING)
    {
      if e in RestEntries(ONE, SPLITTING) {
        var l, t :| 0 <= l < NUM_LEVELS && t in ONE[l] && Remains(ONE, SPLITTING, l, t) && e in t.entries;
        TablesOfOne(l, t);
      }
    }
  }

  // ----- versions along the run

  lemma FlushedVersion()
    ensures Install([[], [], [], [], [], [], []], FlushEdit(2, FLUSHED)) == ONE
  {
    assert FlushEdit(2, FLUSHED).added[..0] == [];
    forall l | 0 <= l < NUM_LEVELS
      ensures InstallLevel([], FlushEdit(2, FLUSHED), l) == ONE[l]
    {
      assert InsertAll([], [], l) == [];
    }
  }

  lemma SplitVersion()
    ensures Install(ONE, ReplaceEdit(SPLITTING, [FIRST, SECOND])) == SPLIT
  {
    var e := ReplaceEdit(SPLITTING, [FIRST, SECOND]);
    assert FLUSHED in SPLITTING.inputs0;
    assert (2, 5) in e.deleted;
    assert e.added == [(3, FIRST), (3, SECOND)] && e.added[..1] == [(3, FIRST)] && e.added[..1][..0] == [];
    forall l | 0 <= l < NUM_LEVELS
      ensures InstallLevel(ONE[l], e, l) == SPLIT[l]
    {
      assert Without(ONE[l], e.deleted, l) == [];
      assert InsertAll([], [], l) == [];
      assert InsertAll([], e.added[..1], l) == if l == 3 then [FIRST] else [];
      assert !SmallestFirst(SECOND, FIRST) && [FIRST][1..] == [];
      assert Insert([FIRST], SECOND) == [FIRST] + Insert([], SECOND) == [FIRST, SECOND];
    }
  }

  lemma UpperVersion()
    ensures Install(SPLIT, FlushEdit(2, UPPER)) == BEFORE
  {
    var e := FlushEdit(2, UPPER);
    assert e.added[..0] == [];
    forall l | 0 <= l < NUM_LEVELS
      ensures InstallLevel(SPLIT[l], e, l) == BEFORE[l]
    {
      assert Without([FIRST, SECOND], {}, l) == [FIRST] + Without([SECOND], {}, l);
      assert Without(SPLIT[l], e.deleted, l) == SPLIT[l];
      assert InsertAll(SPLIT[l], [], l) == SPLIT[l];
    }
  }

  // ----- the run

  lemma Stamps()
    ensures Stamp([Op(Put, 1.0, "old")], 1) == [OLD]
    ensures Stamp([Op(Put, 0.0, "a"), Op(Deletion, 1.0, "")], 2) == [OTHER, TOMBSTONE]
    ensures Stamp([Op(Put, 0.0, "new")], 4) == [NEW]
  {
  }

  lemma FlushedMem()
    ensures MemTable([OLD, OTHER, TOMBSTONE]) == FLUSHED.entries
  {
    MemTableStep([], OLD);
    MemTableStep([OLD], OTHER);
    MemTableStep([OLD, OTHER], TOMBSTONE);
    assert [] + [OLD] == [OLD] && [OLD] + [OTHER] == [OLD, OTHER] &&
        [OLD, OTHER] + [TOMBSTONE] == [OLD, OTHER, TOMBSTONE];
    assert InsertEntry([], OLD) == [OLD];
    assert InsertEntry([OLD], OTHER) == [OTHER, OLD];
    assert [OTHER, OLD][1..] == [OLD];
    assert InsertEntry([OLD], TOMBSTONE) == [TOMBSTONE, OLD];
    assert InsertEntry([OTHER, OLD], TOMBSTONE) == [OTHER, TOMBSTONE, OLD];
  }

  /** The first writes are flushed to one table of level 2, with a snapshot in between. */
  lemma RunToOne() returns (st: State)
    ensures Reached(st) && Quiet(st) && st.version == ONE && st.history == [OLD, OTHER, TOMBSTONE]
    ensures st.snapshots == [1] && st.revived == map[] && st.nextFile == 6 && st.switched == 3 && st.lastSequence == 3
  {
    hide Reached, Stamp, MemTable, Install;
    Stamps();
    var a := NewDatabase();
    var b := WriteGroup(a, [Op(Put, 1.0, "old")]);
    assert b.history == [OLD];
    var c := TakeSnapshot(b);
    ReachStep(b, DoTakeSnapshot, c);
    var d := WriteGroup(c, [Op(Put, 0.0, "a"), Op(Deletion, 1.0, "")]);
    assert d.history == [OLD, OTHER, TOMBSTONE];
    assert d.history[0..] == d.history;
    FlushedMem();
    FlushedVersion();
    st := FlushTo(d, 2, 1, FLUSHED.entries);
  }

  /** The first compaction, and the end of the snapshot. */
  lemma RunToSplit() returns (st: State)
    ensures Reached(st) && Quiet(st) && st.version == SPLIT && st.history == [OLD, OTHER, TOMBSTONE]
    ensures st.snapshots == [] && st.revived == map[] && st.nextFile == 8 && st.switched == 3 && st.lastSequence == 3
  {
    hide Reached, Install, SafeInputs, IsCompaction, RevivedBy;
    var a := RunToOne();
    SplittingIsSafe();
    SplittingIsCompaction();
    SplittingRevivesNone();
    SplitVersion();
    var b := CompactBy(a, SPLITTING, FLUSHED.entries, [FIRST, SECOND]);
    st := Release(b, 0);
    ReachStep(b, DoRelease(0), st);
  }

  /** The version of the second compaction is reached. */
  lemma RunToBefore() returns (st: State)
    ensures Reached(st) && Quiet(st) && st.version == BEFORE && st.history == HISTORY
    ensures st.snapshots == [] && st.revived == map[] && st.nextFile == 10 && st.switched == 4 && st.lastSequence == 4
  {
    hide Reached, Stamp, Install, MemTable;
    Stamps();
    var a := RunToSplit();
    var b := WriteGroup(a, [Op(Put, 0.0, "new")]);
    assert b.history == HISTORY && b.history[3..] == [NEW];
    OneWriteMem();
    ClearAbove();
    UpperVersion();
    st := FlushTo(b, 2, 1, UPPER.entries);
  }

  lemma OneWriteMem()
    ensures MemTable([NEW]) == UPPER.entries
  {
    MemTableStep([], NEW);
    assert [] + [NEW] == [NEW];
  }

  lemma ClearAbove()
    ensures ClearDownTo(SPLIT, 2, 0.0, 0.0)
  {
    forall l | 0 <= l <= 2
      ensures SPLIT[l] == []
    {
    }
  }

  lemma LayersOfRun(st: State)
    requires Inv(st) && Quiet(st) && st.switched == |st.history|
    ensures Read(st, 1.0, 4) == SetRead(VersionEntries(st.version), 1.0, 4)
  {
    LogIsThere(st);
    assert st.history[st.switched..] == [];
    MemTableOfNothing(1.0, 4);
  }

  /** The last compaction of the run is the one the code makes: plan and outputs. */
  ghost predicate IsTheCodesChoice() {
    IsPlan(BEFORE, [UPPER], PLAN) && IsCompaction(BEFORE, PLAN, INPUT, 4, [MERGED])
  }

  /**
   In a run of the database a deleted key reads as absent, as the history says it must; the plan
   SetupOtherInputs makes of a table is merged; and the key has its old value again.
   */
  lemma DeletedKeyReturns() returns (st: State, st': State)
    ensures Reached(st) && st.history == HISTORY && st.version == BEFORE && Read(st, 1.0, 4) == NotFound
    ensures IsTheCodesChoice()
    ensures Reached(st') && st'.history == HISTORY && st'.version == Install(BEFORE, ReplaceEdit(PLAN, [MERGED]))
    ensures st'.lastSequence == 4 && Read(st', 1.0, 4) == Found("old") && HistoryRead(HISTORY, 1.0, 4) == NotFound
  {
    hide Install, SafeInputs, IsCompaction, RevivedBy, IsPlan, Inv, Read, SetRead, HistoryRead, Reached;
    hide RestEntries, TableEntries, VersionEntries, ReplaceEdit, AreOutputs, ValidVersion, BEFORE, PLAN, INPUT, MERGED;
    st := RunToBefore();
    PlanIsChosen();
    IsTheCompaction();
    ReadOfHistory();
    ReadAfter();
    ReachedHasInv(st);
    ReadIsHistoryRead(st, 1.0, 4);
    st' := LastCompaction(st);
    ReachedHasInv(st');
    LayersOfRun(st');
  }

  lemma ReadAfter()
    ensures SetRead(VersionEntries(Install(BEFORE, ReplaceEdit(PLAN, [MERGED]))), 1.0, 4) == Found("old")
  {
    hide SetRead, Install, ReplaceEdit;
    BeforeIsValid();
    PlanIsChosen();
    IsTheCompaction();
    ReadOfRemains();
    OutputsAndRest(BEFORE, PLAN, [MERGED]);
  }

  lemma LastCompaction(st: State) returns (st': State)
    requires Reached(st) && Quiet(st) && st.version == BEFORE && st.snapshots == [] && st.lastSequence == 4
    requires st.nextFile == 10
    ensures Reached(st') && Quiet(st') && st'.version == Install(BEFORE, ReplaceEdit(PLAN, [MERGED]))
    ensures st'.history == st.history
    ensures st'.lastSequence == 4 && st'.switched == st.switched
  {
    hide Install, SafeInputs, IsCompaction, RevivedBy, Reached, ReplaceEdit, BEFORE;
    SafeOfPlan();
    IsTheCompaction();
    st' := CompactBy(st, PLAN, INPUT, [MERGED]);
  }

  lemma SafeOfPlan()
    ensures SafeInputs(BEFORE, 2, [UPPER], [FIRST])
  {
    hide SafeInputs, IsClosedStart, ArePartners, AreGrandparents;
    PlanIsChosen();
  }
}
