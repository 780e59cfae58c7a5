/**
 A run in which an acknowledged write can no longer be found, because a memtable was flushed
 between the inputs of a manual compaction while it was merging.

 CompactRange (db/version_set.cc) takes two tables of level 1 with nothing between them.  While
 they are merged, DoCompactionWork (db/db_impl.cc) flushes a memtable whose one key lies between
 them, and PickLevelForMemTableOutput, which only looks at the current version, finds room for it
 at level 2.  The output of the compaction then spans that table at the same level.
 */
module FlushGap {
  import opened Optional
  import opened InternalKeys
  import opened ReadSpec
  import opened Versions
  import opened CompactionInputs
  import opened Unbroken
  import opened CompactionSetup
  import opened CompactionMerge
  import opened VersionBuilder
  import opened Installing
  import opened Flushing
  import opened CompactionReads
  import opened MemTables
  import opened DbState
  import opened DbInvariant
  import opened DbBackground
  import opened DbRuns
  import opened DbReach
  import VersionGet

  function Write(user: UserKey, s: nat, value: Value): Entry {
    Entry(InternalKey(user, s, Put), value)
  }

  const OLD_LOW: Entry := Write(0.0, 1, "a")
  const OLD_HIGH: Entry := Write(2.0, 2, "c")
  const NEW_LOW: Entry := Write(0.0, 3, "aa")
  const NEW_HIGH: Entry := Write(2.0, 4, "cc")
  const BETWEEN: Entry := Write(1.0, 5, "b")

  const HISTORY: seq<Entry> := [OLD_LOW, OLD_HIGH, NEW_LOW, NEW_HIGH, BETWEEN]

  const LOW2: Table := Table(5, 1, [OLD_LOW])
  const HIGH2: Table := Table(7, 1, [OLD_HIGH])
  const LOW1: Table := Table(9, 1, [NEW_LOW])
  const HIGH1: Table := Table(11, 1, [NEW_HIGH])
  const MIDDLE: Table := Table(13, 1, [BETWEEN])
  const MERGED: Table := Table(14, 1, [NEW_LOW, NEW_HIGH])

  const BEFORE: Version := [[], [LOW1, HIGH1], [LOW2, HIGH2], [], [], [], []]
  const BESIDE: Version := [[], [LOW1, HIGH1], [LOW2, MIDDLE, HIGH2], [], [], [], []]
  const AFTER: Version := [[], [], [MERGED, MIDDLE], [], [], [], []]

  const PLAN: Plan := Plan(1, [LOW1, HIGH1], [LOW2, HIGH2], [])
  const INPUT: seq<Entry> := [NEW_LOW, OLD_LOW, NEW_HIGH, OLD_HIGH]

  // ----- versions along the run

  lemma FlushedLevel(v: Version, level: nat, t: Table, l: nat)
    requires l < NUM_LEVELS
    ensures Install(v, FlushEdit(level, t))[l] == if l == level then Insert(v[l], t) else v[l]
  {
    var e := FlushEdit(level, t);
    WithoutNothing(v[l], l);
    assert e.added[..0] == [];
    assert InsertAll(v[l], [], l) == v[l];
  }

  lemma FlushedVersion(v: Version, level: nat, t: Table, v': Version)
    requires forall l :: 0 <= l < NUM_LEVELS ==> v'[l] == if l == level then Insert(v[l], t) else v[l]
    ensures Install(v, FlushEdit(level, t)) == v'
  {
    forall l: nat | l < NUM_LEVELS
      ensures Install(v, FlushEdit(level, t))[l] == v'[l]
    {
      FlushedLevel(v, level, t, l);
    }
  }

  const EMPTY: Version := [[], [], [], [], [], [], []]
  const ONE: Version := [[], [], [LOW2], [], [], [], []]
  const TWO: Version := [[], [], [LOW2, HIGH2], [], [], [], []]
  const THREE: Version := [[], [LOW1], [LOW2, HIGH2], [], [], [], []]

  lemma FirstFlushes()
    ensures Install(EMPTY, FlushEdit(2, LOW2)) == ONE && Install(ONE, FlushEdit(2, HIGH2)) == TWO
  {
    FlushedVersion(EMPTY, 2, LOW2, ONE);
    assert Insert([LOW2], HIGH2) == [LOW2] + Insert([], HIGH2);
    FlushedVersion(ONE, 2, HIGH2, TWO);
  }

  lemma SecondFlushes()
    ensures Install(TWO, FlushEdit(1, LOW1)) == THREE && Install(THREE, FlushEdit(1, HIGH1)) == BEFORE
  {
    FlushedVersion(TWO, 1, LOW1, THREE);
    assert Insert([LOW1], HIGH1) == [LOW1] + Insert([], HIGH1);
    FlushedVersion(THREE, 1, HIGH1, BEFORE);
  }

  lemma LastFlush()
    ensures Install(BEFORE, FlushEdit(2, MIDDLE)) == BESIDE
  {
    assert [LOW2, HIGH2][1..] == [HIGH2];
    assert Insert([HIGH2], MIDDLE) == [MIDDLE] + [HIGH2];
    assert Insert([LOW2, HIGH2], MIDDLE) == [LOW2] + Insert([HIGH2], MIDDLE);
    FlushedVersion(BEFORE, 2, MIDDLE, BESIDE);
  }

  lemma DeletedNumbers()
    ensures ReplaceEdit(PLAN, [MERGED]).deleted == {(1, 9), (1, 11), (2, 5), (2, 7)}
  {
    var d := ReplaceEdit(PLAN, [MERGED]).deleted;
    assert LOW1 in PLAN.inputs0 && HIGH1 in PLAN.inputs0 && LOW2 in PLAN.inputs1 && HIGH2 in PLAN.inputs1;
    assert (1, 9) in d && (1, 11) in d && (2, 5) in d && (2, 7) in d;
  }

  lemma InputsGo(d: set<(nat, nat)>)
    requires d == {(1, 9), (1, 11), (2, 5), (2, 7)}
    ensures Without([LOW1, HIGH1], d, 1) == []
    ensures Without([LOW2, MIDDLE, HIGH2], d, 2) == [MIDDLE] && Insert([MIDDLE], MERGED) == [MERGED, MIDDLE]
  {
    assert [LOW1, HIGH1][1..] == [HIGH1];
    assert Without([HIGH1], d, 1) == [];
    assert [LOW2, MIDDLE, HIGH2][1..] == [MIDDLE, HIGH2] && [MIDDLE, HIGH2][1..] == [HIGH2];
    assert Without([HIGH2], d, 2) == [];
    assert Without([MIDDLE, HIGH2], d, 2) == [MIDDLE];
  }

  lemma CompactedVersion()
    ensures Install(BESIDE, ReplaceEdit(PLAN, [MERGED])) == AFTER
  {
    var e := ReplaceEdit(PLAN, [MERGED]);
    DeletedNumbers();
    assert e.added == [(2, MERGED)] && e.added[..0] == [];
    forall l | 0 <= l < NUM_LEVELS
      ensures InstallLevel(BESIDE[l], e, l) == AFTER[l]
    {
      InputsGo(e.deleted);
      assert InsertAll(Without(BESIDE[l], e.deleted, l), [], l) == Without(BESIDE[l], e.deleted, l);
    }
  }

  // ----- the compaction

  lemma TablesAreWellFormed()
    ensures WellFormed(LOW1) && WellFormed(HIGH1) && WellFormed(LOW2) && WellFormed(HIGH2) && WellFormed(MERGED)
  {
  }

  lemma RangeOfInputs()
    ensures IsSmallestKey([LOW1, HIGH1], NEW_LOW.key) && IsLargestKey([LOW1, HIGH1], NEW_HIGH.key)
    ensures OverlapList(BEFORE[2], Some(0.0), Some(2.0)) == [LOW2, HIGH2]
  {
    assert LOW1 in [LOW1, HIGH1] && HIGH1 in [LOW1, HIGH1];
    OverlapListStep([LOW2, HIGH2], 0, Some(0.0), Some(2.0));
    OverlapListStep([LOW2, HIGH2], 1, Some(0.0), Some(2.0));
    assert [LOW2, HIGH2][..0] == [] && [LOW2, HIGH2][..2] == [LOW2, HIGH2];
  }

  lemma WholeLevelIsClosed()
    ensures IsClosedStart([LOW1, HIGH1], 1, [LOW1, HIGH1])
  {
    assert [LOW1, HIGH1][0..2] == [LOW1, HIGH1] && EndsAtUserKey([LOW1, HIGH1], 2);
  }

  /** The inputs are those that CompactRange and SetupOtherInputs take for the whole of level 1. */
  lemma PlanIsChosen()
    requires ValidVersion(BEFORE) && Distinct(VersionEntries(BEFORE))
    ensures SafeInputs(BEFORE, 1, [LOW1, HIGH1], [LOW2, HIGH2]) && IsPlan(BEFORE, [LOW1, HIGH1], PLAN)
  {
    hide SafeInputs, ValidVersion, Distinct, IsClosedStart, HangTogether, ArePartners;
    InputsAreChosen();
    NoGrandparents();
    DoNotHangTogether();
    assert PLAN.inputs0 + PLAN.inputs1 == [LOW1, HIGH1] + [LOW2, HIGH2];
  }

  lemma InputsAreChosen()
    requires ValidVersion(BEFORE) && Distinct(VersionEntries(BEFORE))
    ensures SafeInputs(BEFORE, 1, [LOW1, HIGH1], [LOW2, HIGH2]) && IsClosedStart(BEFORE[1], 1, [LOW1, HIGH1])
    ensures ArePartners(BEFORE[2], [LOW1, HIGH1], [LOW2, HIGH2])
  {
    hide SafeInputs, ValidVersion, Distinct, IsClosedStart, ArePartners;
    RangeOfInputs();
    WholeLevelIsClosed();
    assert BEFORE[1] == [LOW1, HIGH1];
    PlanIsSafe(BEFORE, 1, [LOW1, HIGH1], [LOW2, HIGH2], NEW_LOW.key, NEW_HIGH.key);
  }

  lemma NoGrandparents()
    ensures ArePartners([], [LOW1, HIGH1] + [LOW2, HIGH2], [])
  {
    var s, k := GetRangeOf([LOW1, HIGH1] + [LOW2, HIGH2]);
    assert OverlapList([], Some(s.user), Some(k.user)) == [];
  }

  /** Nothing is in the way of key 1.0, and there are inputs on either side. */
  lemma DoNotHangTogether()
    ensures !HangTogether([LOW1, HIGH1])
    ensures RangeIsClear([LOW1, HIGH1], Some(1.0), Some(1.0))
  {
    assert RangeIsClear([LOW1, HIGH1], Some(1.0), Some(1.0));
    assert LOW1 in [LOW1, HIGH1] && HIGH1 in [LOW1, HIGH1];
    assert !AllAbove([LOW1, HIGH1], 1.0) && !AllBelow([LOW1, HIGH1], 1.0);
  }

  lemma EntriesOfPlan()
    ensures InputEntries(PLAN) == Elements(INPUT)
  {
    var tables := PLAN.inputs0 + PLAN.inputs1;
    assert LOW1 in tables && HIGH1 in tables && LOW2 in tables && HIGH2 in tables;
    forall e
      ensures e in InputEntries(PLAN) <==> e in INPUT
    {
      assert e in INPUT <==> e in LOW1.entries || e in HIGH1.entries || e in LOW2.entries || e in HIGH2.entries;
    }
  }

  lemma MergeOfPlan()
    ensures Sorted(INPUT) && KeptAll(BEFORE, 1, INPUT, 4) == MERGED.entries
  {
    assert !Dropped(BEFORE, 1, INPUT, 0, 4) && Dropped(BEFORE, 1, INPUT, 1, 4);
    assert !Dropped(BEFORE, 1, INPUT, 2, 4) && Dropped(BEFORE, 1, INPUT, 3, 4);
    assert Kept(BEFORE, 1, INPUT, 4, 0) == [];
    assert Kept(BEFORE, 1, INPUT, 4, 1) == [NEW_LOW];
    assert Kept(BEFORE, 1, INPUT, 4, 2) == [NEW_LOW];
    assert Kept(BEFORE, 1, INPUT, 4, 3) == [NEW_LOW, NEW_HIGH];
    assert Kept(BEFORE, 1, INPUT, 4, 4) == [NEW_LOW, NEW_HIGH];
  }

  lemma TablesOfBefore(l: nat, t: Table)
    ensures l < NUM_LEVELS && t in BEFORE[l] ==> t == LOW1 || t == HIGH1 || t == LOW2 || t == HIGH2
  {
    if l == 1 {
      assert BEFORE[1] == [LOW1, HIGH1];
    } else if l == 2 {
      assert BEFORE[2] == [LOW2, HIGH2];
    }
  }

  lemma MergedIsOutput()
    ensures AreOutputs(BEFORE, PLAN, [MERGED])
  {
    TablesAreWellFormed();
    assert LOW1 in PLAN.inputs0 + PLAN.inputs1 && HIGH1 in PLAN.inputs0 + PLAN.inputs1;
    forall l, u | 0 <= l < NUM_LEVELS && u in BEFORE[l]
      ensures u.number != MERGED.number
    {
      TablesOfBefore(l, u);
    }
  }

  lemma IsTheCompaction()
    requires SafeInputs(BEFORE, 1, [LOW1, HIGH1], [LOW2, HIGH2])
    ensures IsCompaction(BEFORE, PLAN, INPUT, 4, [MERGED])
  {
    hide SafeInputs, AreOutputs, KeptAll;
    EntriesOfPlan();
    MergeOfPlan();
    MergedIsOutput();
    assert TableEntries([MERGED]) == Elements(MERGED.entries) by {
      assert MERGED in [MERGED];
    }
  }

  // ----- the run

  lemma Stamps()
    ensures Stamp([Op(Put, 0.0, "a")], 1) == [OLD_LOW] && Stamp([Op(Put, 2.0, "c")], 2) == [OLD_HIGH]
    ensures Stamp([Op(Put, 0.0, "aa")], 3) == [NEW_LOW] && Stamp([Op(Put, 2.0, "cc")], 4) == [NEW_HIGH]
    ensures Stamp([Op(Put, 1.0, "b")], 5) == [BETWEEN]
  {
  }

  lemma MemOfOne(e: Entry)
    ensures MemTable([e]) == [e]
  {
    MemTableStep([], e);
    assert [] + [e] == [e];
  }

  /** One more write, flushed to its own table. */
  lemma WriteAndFlush(st: State, op: Op, level: nat, e: Entry) returns (st': State)
    requires Reached(st) && Quiet(st) && st.switched == |st.history| < 10 && Stamp([op], |st.history| + 1) == [e]
    requires level <= MAX_MEM_COMPACT_LEVEL && (level > 0 ==> ClearDownTo(st.version, level, e.key.user, e.key.user))
    ensures Reached(st') && Quiet(st') && st'.history == st.history + [e]
    ensures st'.switched == st'.lastSequence == |st'.history|
    ensures st'.version == Install(st.version, FlushEdit(level, Table(st.nextFile + 1, 1, [e])))
    ensures st'.nextFile == st.nextFile + 2 && st'.snapshots == st.snapshots && st'.revived == st.revived
  {
    hide Reached, Stamp, Install, FlushEdit, ClearDownTo, MemTable;
    var a := WriteGroup(st, [op]);
    assert a.history[a.switched..] == [e];
    MemOfOne(e);
    st' := FlushTo(a, level, 1, [e]);
  }

  lemma ClearForLow()
    ensures ClearDownTo(EMPTY, 2, 0.0, 0.0) && ClearDownTo(ONE, 2, 2.0, 2.0)
    ensures ClearDownTo(TWO, 1, 0.0, 0.0) && ClearDownTo(THREE, 1, 2.0, 2.0) && ClearDownTo(BEFORE, 2, 1.0, 1.0)
  {
    assert BEFORE[2] == [LOW2, HIGH2] && BEFORE[1] == [LOW1, HIGH1] && BEFORE[0] == [];
    assert ONE[2] == [LOW2] && THREE[1] == [LOW1];
    forall l | 0 <= l <= 2
      ensures RangeIsClear(EMPTY[l], Some(0.0), Some(0.0)) && RangeIsClear(ONE[l], Some(2.0), Some(2.0))
      ensures RangeIsClear(BEFORE[l], Some(1.0), Some(1.0))
      ensures l <= 1 ==> RangeIsClear(TWO[l], Some(0.0), Some(0.0)) && RangeIsClear(THREE[l], Some(2.0), Some(2.0))
    {
    }
  }

  /** Two tables at level 1 above two tables at level 2. */
  lemma RunToBefore() returns (st: State)
    ensures Reached(st) && Quiet(st) && st.version == BEFORE && st.history == HISTORY[..4]
    ensures st.snapshots == [] && st.revived == map[] && st.nextFile == 12 && st.switched == 4 && st.lastSequence == 4
  {
    hide Reached, Stamp, Install, FlushEdit, ClearDownTo;
    Stamps();
    ClearForLow();
    FirstFlushes();
    SecondFlushes();
    var a := NewDatabase();
    var b := WriteAndFlush(a, Op(Put, 0.0, "a"), 2, OLD_LOW);
    var c := WriteAndFlush(b, Op(Put, 2.0, "c"), 2, OLD_HIGH);
    var d := WriteAndFlush(c, Op(Put, 0.0, "aa"), 1, NEW_LOW);
    st := WriteAndFlush(d, Op(Put, 2.0, "cc"), 1, NEW_HIGH);
  }

  /** The level for the table between is the one PickLevelForMemTableOutput stops at, whatever its size limit. */
  lemma LevelIsPicked(level: nat, limit: nat)
    requires level <= MAX_MEM_COMPACT_LEVEL && StopsAt(BEFORE, level, 1.0, 1.0, limit)
    ensures level == 2
  {
    ClearForLow();
    if level < 2 {
      assert ClearDownTo(BEFORE, level + 1, 1.0, 1.0);
      NothingOverlaps(BEFORE[level + 2]);
    }
  }

  lemma NothingOverlaps(files: seq<Table>)
    requires files == BEFORE[2] || files == BEFORE[3]
    ensures OverlapList(files, Some(1.0), Some(1.0)) == []
  {
    if files == BEFORE[2] {
      OverlapListStep([LOW2, HIGH2], 0, Some(1.0), Some(1.0));
      OverlapListStep([LOW2, HIGH2], 1, Some(1.0), Some(1.0));
      assert [LOW2, HIGH2][..0] == [] && [LOW2, HIGH2][..2] == [LOW2, HIGH2];
    }
  }

  /** The output of the compaction reaches over the table between. */
  lemma OutputOverlaps()
    ensures !EditFits(BESIDE, ReplaceEdit(PLAN, [MERGED]))
  {
    var e := ReplaceEdit(PLAN, [MERGED]);
    DeletedNumbers();
    AtLevelMembers([MERGED], 2);
    assert AddedAt(e, 2, MERGED) && BESIDE[2] == [LOW2, MIDDLE, HIGH2] && MIDDLE in BESIDE[2];
    assert !Apart(MIDDLE, MERGED);
  }

  /** While the two tables are merged, a third one goes between them. */
  lemma RunToBeside(st: State) returns (st': State)
    requires Reached(st) && Quiet(st) && st.version == BEFORE && st.history == HISTORY[..4]
    requires st.snapshots == [] && st.revived == map[] && st.nextFile == 12 && st.switched == 4 && st.lastSequence == 4
    requires SafeInputs(BEFORE, 1, [LOW1, HIGH1], [LOW2, HIGH2])
    ensures Reached(st') && st'.version == BESIDE && st'.history == HISTORY && CanFlush(st')
    ensures st'.mem == [] && st'.revived == map[]
    ensures st'.running == Some(Running(PLAN, 4, BEFORE)) && st'.nextFile == 14 && st'.lastSequence == 5
  {
    hide Reached, Stamp, Install, FlushEdit, ClearDownTo, SafeInputs, MemTable;
    Stamps();
    ClearForLow();
    LastFlush();
    MemOfOne(BETWEEN);
    var a := StartCompaction(st, PLAN);
    ReachStep(st, DoStartCompaction(PLAN), a);
    var b := WriteGroup(a, [Op(Put, 1.0, "b")]);
    assert b.history == HISTORY && b.history[4..] == [BETWEEN];
    st' := FlushBeside(b, 2, 1, [BETWEEN]);
  }

  /** What level 2 of the last version answers for the key between. */
  lemma LevelLosesKey()
    ensures VersionGet.LevelGet([MERGED, MIDDLE], 1.0, 5) == None
    ensures !Disjoint([MERGED, MIDDLE])
  {
    var files := [MERGED, MIDDLE];
    assert [NEW_LOW, NEW_HIGH][1..] == [NEW_HIGH];
    assert LayerGet(MERGED.entries, 1.0, 5) == None;
    assert Search(files, LookupKey(1.0, 5), 0, 2) == Search(files, LookupKey(1.0, 5), 0, 1) == 0;
    assert !Precedes(files, 0, 1);
  }

  lemma LastWriteIsThere()
    ensures HistoryRead(HISTORY, 1.0, 5) == Found("b")
  {
  }

  /** No layer of the state answers a read: both memtables, level 0 and every other level come up empty. */
  ghost predicate NothingFound(st: State, user: UserKey, s: nat) {
    && LayerGet(st.mem, user, s).None? && st.imm.None? && st.version[0] == []
    && forall l :: 1 <= l < NUM_LEVELS ==> VersionGet.LevelGet(st.version[l], user, s).None?
  }

  lemma AfterLosesKey(st: State)
    requires st.mem == [] && st.imm.None? && st.version == AFTER
    ensures NothingFound(st, 1.0, 5)
  {
    LevelLosesKey();
    forall l | 1 <= l < NUM_LEVELS
      ensures VersionGet.LevelGet(st.version[l], 1.0, 5).None?
    {
      if l != 2 {
        assert st.version[l] == [];
      }
    }
  }

  /**
   A run of the database reaches a state in which the last write, published and flushed, is not
   found by any layer that a read looks at; its table is hidden behind the output of the
   compaction, in a level whose tables are no longer disjoint.
   */
  lemma WriteIsLost() returns (st: State, st': State)
    ensures Reached(st) && st.version == BEFORE && IsPlan(BEFORE, [LOW1, HIGH1], PLAN)
    ensures IsCompaction(BEFORE, PLAN, INPUT, 4, [MERGED])
    ensures Reached(st') && st'.overlapped && st'.version == AFTER && !ValidVersion(AFTER) && MIDDLE in AFTER[2]
    ensures forall level, limit :: 0 <= level <= 2 && StopsAt(BEFORE, level, 1.0, 1.0, limit) ==> level == 2
    ensures st'.history == HISTORY && st'.lastSequence == 5 && HistoryRead(HISTORY, 1.0, 5) == Found("b")
    ensures NothingFound(st', 1.0, 5)
  {
    hide StopsAt, Reached, Install, SafeInputs, IsCompaction, IsPlan, HistoryRead, RevivedBy, ReplaceEdit;
    hide NothingFound, Inv, EditFits;
    st := RunToBefore();
    ReachedHasInv(st);
    VersionIsGood(st);
    PlanIsChosen();
    IsTheCompaction();
    var a := RunToBeside(st);
    CompactedVersion();
    OutputOverlaps();
    st' := FinishMerge(a, INPUT, [MERGED]);
    LastWriteIsThere();
    LevelLosesKey();
    AfterLosesKey(st');
    assert AFTER[2] == [MERGED, MIDDLE];
    forall level, limit | 0 <= level <= 2 && StopsAt(BEFORE, level, 1.0, 1.0, limit)
      ensures level == 2
    {
      LevelIsPicked(level, limit);
    }
  }

  // ----- the same run, with the output cut between the inputs

  const LOW: Table := Table(14, 1, [NEW_LOW])
  const HIGH: Table := Table(15, 1, [NEW_HIGH])

  lemma CutOutputs()
    requires IsCompaction(BEFORE, PLAN, INPUT, 4, [MERGED])
    ensures IsCompaction(BEFORE, PLAN, INPUT, 4, [LOW, HIGH])
  {
    hide MergeableInputs, KeptAll;
    TablesAreWellFormed();
    assert LOW1 in PLAN.inputs0 + PLAN.inputs1 && HIGH1 in PLAN.inputs0 + PLAN.inputs1;
    forall l, u | 0 <= l < NUM_LEVELS && u in BEFORE[l]
      ensures u.number < 14
    {
      TablesOfBefore(l, u);
    }
    assert LOW in [LOW, HIGH] && HIGH in [LOW, HIGH] && MERGED in [MERGED];
    forall e
      ensures e in TableEntries([LOW, HIGH]) <==> e in TableEntries([MERGED])
    {
      assert e in MERGED.entries <==> e in LOW.entries || e in HIGH.entries;
    }
  }

  lemma CutOutputsFit()
    ensures EditFits(BESIDE, ReplaceEdit(PLAN, [LOW, HIGH]))
  {
    var e := ReplaceEdit(PLAN, [LOW, HIGH]);
    assert LOW1 in PLAN.inputs0 && HIGH1 in PLAN.inputs0 && LOW2 in PLAN.inputs1 && HIGH2 in PLAN.inputs1;
    assert (2, 5) in e.deleted && (2, 7) in e.deleted;
    AtLevelMembers([LOW, HIGH], 2);
    assert BESIDE[2] == [LOW2, MIDDLE, HIGH2];
    forall l, t, u | 1 <= l < NUM_LEVELS && AddedAt(e, l, t) && u in BESIDE[l] && (l, u.number) !in e.deleted
      ensures Apart(u, t)
    {
      assert l == 2 && (t == LOW || t == HIGH) && u == MIDDLE;
    }
  }

  /**
   The flush alone does no harm: had the output been cut between the inputs, the same run would
   have ended in a state that keeps the invariant and reads the write.
   */
  lemma CutInGapIsHarmless() returns (st: State, st': State)
    ensures Reached(st) && st.version == BESIDE && Inv(st) && st.running == Some(Running(PLAN, 4, BEFORE))
    ensures MIDDLE in BESIDE[2] && !OutsideHull(MIDDLE, PLAN.inputs0 + PLAN.inputs1)
    ensures Reached(st') && Inv(st') && MIDDLE in st'.version[2] && st'.history == HISTORY
    ensures Read(st', 1.0, 5) == Found("b")
  {
    hide Reached, Install, SafeInputs, IsCompaction, IsPlan, HistoryRead, RevivedBy, ReplaceEdit, EditFits, Inv, Read;
    var a := RunToBefore();
    ReachedHasInv(a);
    VersionIsGood(a);
    PlanIsChosen();
    IsTheCompaction();
    CutOutputs();
    CutOutputsFit();
    st := RunToBeside(a);
    ReachedHasInv(st);
    st' := FinishMerge(st, INPUT, [LOW, HIGH]);
    ReachedHasInv(st');
    LastWriteIsThere();
    BetweenIsNotRevived();
    assert Readable(st', 5) && Trusted(st', 1.0, 5);
    MiddleStays();
    ReadIsHistoryRead(st', 1.0, 5);
  }

  lemma BetweenIsNotRevived()
    ensures 1.0 !in RevivedBy(BESIDE, PLAN, 4)
  {
    EntriesOfPlan();
    assert forall e :: e in InputEntries(PLAN) ==> e.key.user != 1.0;
  }

  lemma MiddleStays()
    ensures MIDDLE in BESIDE[2] && MIDDLE in Install(BESIDE, ReplaceEdit(PLAN, [LOW, HIGH]))[2]
    ensures !OutsideHull(MIDDLE, PLAN.inputs0 + PLAN.inputs1)
  {
    var e, inputs := ReplaceEdit(PLAN, [LOW, HIGH]), PLAN.inputs0 + PLAN.inputs1;
    InstallMembers(BESIDE[2], e, 2);
    assert BESIDE[2] == [LOW2, MIDDLE, HIGH2] && (2, 13) !in e.deleted;
    assert LOW1 in inputs && HIGH1 in inputs;
    assert !Less(Largest(MIDDLE), Smallest(LOW1)) && !Less(Largest(HIGH1), Smallest(MIDDLE));
  }

  lemma VersionIsGood(st: State)
    requires Inv(st)
    ensures ValidVersion(st.version) && Distinct(VersionEntries(st.version))
  {
    DistinctVersion(st.version, st.history, st.flushed, st.SmallestSnapshot(), st.revived);
  }
}
