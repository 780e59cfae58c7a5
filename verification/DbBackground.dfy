/**
 The background steps: flushing, compacting, recording and installing an edit.
 */
module DbBackground {
  import opened Optional
  import opened InternalKeys
  import opened ReadSpec
  import opened Versions
  import opened CompactionSetup
  import opened CompactionMerge
  import opened VersionBuilder
  import opened Installing
  import opened Flushing
  import opened CompactionReads
  import opened RunningCompaction
  import opened MemTables
  import opened DbState
  import opened DbInvariant

  /** Adding the same newer entries above two sets that read alike gives two sets that read alike. */
  lemma ReadsAgreeUnder(upper: set<Entry>, a: set<Entry>, b: set<Entry>, floor: nat, revived: Revivals)
    requires ReadsAsWrites(a, b, floor, revived) && Distinct(upper + a) && Distinct(upper + b)
    requires forall e, f :: e in upper && f in a + b ==> e.key.sequence > f.key.sequence
    ensures ReadsAsWrites(upper + a, upper + b, floor, revived)
  {
    forall user, s | s >= floor && Sound(upper + b, user, s, revived)
      ensures SetRead(upper + a, user, s) == SetRead(upper + b, user, s)
    {
      NewestOfLayers(upper, a, user, s);
      NewestOfLayers(upper, b, user, s);
      NewestIsNone(upper, user, s);
      if Newest(upper, user, s).None? {
        assert Sound(b, user, s, revived);
        assert SetRead(a, user, s) == SetRead(b, user, s);
      }
    }
  }

  lemma DistinctSubset(a: set<Entry>, b: set<Entry>)
    requires Distinct(b) && a <= b
    ensures Distinct(a)
  {
  }

  /** The immutable memtable holds exactly the writes between the two counters. */
  lemma ImmHoldsItsWrites(st: State)
    requires HistoryOk(st.history) && CountersOk(st) && MemOk(st) && st.imm.Some?
    ensures Sorted(st.imm.value) && Elements(st.imm.value) == Elements(st.history[st.flushed..st.switched])
    ensures forall e :: e in st.imm.value ==> st.flushed < e.key.sequence <= st.switched
    ensures st.imm.value == [] <==> st.flushed == st.switched
  {
    HistorySlice(st.history, st.flushed, st.switched);
    MemTableIsSorted(st.history[st.flushed..st.switched]);
    MemTableIsEmpty(st.history[st.flushed..st.switched]);
    forall e | e in st.imm.value
      ensures st.flushed < e.key.sequence <= st.switched
    {
      assert e in Elements(st.imm.value);
    }
  }

  /** A table of the next writes sits above everything a version that holds the first `f` has. */
  lemma NextWritesAreNewer(v: Version, h: seq<Entry>, f: nat, floor: nat, t: Table, revived: Revivals)
    requires HistoryOk(h) && VersionOk(v, h, f, floor, revived) && forall e :: e in t.entries ==> e.key.sequence > f
    ensures forall l, u :: 0 <= l < NUM_LEVELS && u in v[l] ==> NewerThan(t, u)
  {
    HistorySlice(h, 0, f);
    forall l, u | 0 <= l < NUM_LEVELS && u in v[l]
      ensures NewerThan(t, u)
    {
      forall e | e in u.entries
        ensures e.key.sequence <= f
      {
        assert e in VersionEntries(v);
      }
    }
  }

  lemma EntriesOfFlushed(v: Version, v': Version, level: nat, t: Table)
    requires level < NUM_LEVELS
    requires forall l, u :: 0 <= l < NUM_LEVELS ==> (u in v'[l] <==> u in v[l] || (l == level && u == t))
    ensures VersionEntries(v') == Elements(t.entries) + VersionEntries(v)
    ensures VersionNumbers(v') == VersionNumbers(v) + {t.number}
  {
    assert t in v'[level];
    forall e | e in Elements(t.entries) + VersionEntries(v)
      ensures e in VersionEntries(v')
    {
    }
    forall n | n in VersionNumbers(v) + {t.number}
      ensures n in VersionNumbers(v')
    {
      if n in VersionNumbers(v) {
        var l, u :| 0 <= l < NUM_LEVELS && u in v[l] && u.number == n;
        assert u in v'[l];
      }
    }
  }

  lemma MayFlushNextWrites(v: Version, h: seq<Entry>, f: nat, g: nat, floor: nat, level: nat, t: Table,
                           revived: Revivals)
    requires HistoryOk(h) && VersionOk(v, h, f, floor, revived) && f <= g <= |h|
    requires Sorted(t.entries) && Elements(t.entries) == Elements(h[f..g])
    requires level <= MAX_MEM_COMPACT_LEVEL && NumbersBelow(v, t.number)
    requires level > 0 ==> ClearDownTo(v, level, Smallest(t).user, Largest(t).user)
    ensures MayFlush(v, level, t)
  {
    HistorySlice(h, f, g);
    forall e | e in t.entries
      ensures f < e.key.sequence <= MAX_SEQUENCE
    {
      assert e in Elements(t.entries);
    }
    NextWritesAreNewer(v, h, f, floor, t, revived);
    forall l, u | 0 <= l < NUM_LEVELS && u in v[l]
      ensures u.number < t.number
    {
      assert u.number in VersionNumbers(v);
    }
  }

  /** The entries of a version and the next writes read as all the writes together. */
  lemma NextWritesReadAlike(es: set<Entry>, h: seq<Entry>, f: nat, g: nat, floor: nat, revived: Revivals)
    requires HistoryOk(h) && f <= g <= |h|
    requires es <= Elements(h[..f]) && ReadsAsWrites(es, Elements(h[..f]), floor, revived)
    ensures Elements(h[f..g]) + es <= Elements(h[..g])
    ensures ReadsAsWrites(Elements(h[f..g]) + es, Elements(h[..g]), floor, revived)
  {
    HistorySlice(h, f, g);
    HistorySlice(h, 0, f);
    assert h[..g] == h[..f] + h[f..g];
    assert Elements(h[..g]) == Elements(h[f..g]) + Elements(h[..f]);
    assert Elements(h[..g]) <= Elements(h);
    DistinctSubset(Elements(h[f..g]) + es, Elements(h));
    DistinctSubset(Elements(h[f..g]) + Elements(h[..f]), Elements(h));
    ReadsAgreeUnder(Elements(h[f..g]), es, Elements(h[..f]), floor, revived);
  }

  /** Writing the writes f+1 to g as one newer table. */
  lemma VersionOkAfterFlush(v: Version, h: seq<Entry>, f: nat, g: nat, floor: nat, level: nat, t: Table,
                            revived: Revivals)
    requires HistoryOk(h) && VersionOk(v, h, f, floor, revived) && f <= g <= |h|
    requires Sorted(t.entries) && Elements(t.entries) == Elements(h[f..g])
    requires level <= MAX_MEM_COMPACT_LEVEL && NumbersBelow(v, t.number)
    requires level > 0 ==> ClearDownTo(v, level, Smallest(t).user, Largest(t).user)
    ensures VersionOk(Install(v, FlushEdit(level, t)), h, g, floor, revived)
    ensures forall l, u :: 0 <= l < NUM_LEVELS ==>
              (u in Install(v, FlushEdit(level, t))[l] <==> u in v[l] || (l == level && u == t))
  {
    MayFlushNextWrites(v, h, f, g, floor, level, t, revived);
    FlushIsValid(v, level, t);
    EntriesOfFlushed(v, Install(v, FlushEdit(level, t)), level, t);
    NextWritesReadAlike(VersionEntries(v), h, f, g, floor, revived);
  }

  lemma VersionOkNoFlush(v: Version, h: seq<Entry>, f: nat, floor: nat, revived: Revivals)
    requires VersionOk(v, h, f, floor, revived)
    ensures Install(v, Edit({}, [])) == v
  {
    forall l | 0 <= l < NUM_LEVELS
      ensures InstallLevel(v[l], Edit({}, []), l) == v[l]
    {
      WithoutNothing(v[l], l);
    }
  }

  lemma {:induction false} WithoutNothing(files: seq<Table>, level: nat)
    ensures Without(files, {}, level) == files
  {
    if files != [] {
      WithoutNothing(files[1..], level);
    }
  }

  lemma OnDiskMore(v: Version, tables: map<nat, seq<Entry>>, more: map<nat, seq<Entry>>, n: nat)
    requires OnDisk(v, tables) && NumbersBelow(v, n) && forall m :: m in more ==> m >= n
    ensures OnDisk(v, tables + more)
  {
    forall l, t | 0 <= l < NUM_LEVELS && t in v[l]
      ensures t.number !in more
    {
      assert t.number in VersionNumbers(v);
    }
  }

  /** Adding tables under unused numbers leaves every version's tables where they are. */
  lemma VersionsOkWithMore(st: State, st': State, more: map<nat, seq<Entry>>)
    requires VersionsOk(st) && forall m :: m in more ==> m >= st.nextFile
    requires st'.history == st.history && st'.flushed == st.flushed && st'.version == st.version
    requires st'.pinned == st.pinned
    requires VersionOk(st'.version, st'.history, st'.flushed, st'.SmallestSnapshot(), st'.revived)
    requires st.nextFile <= st'.nextFile
    requires st'.disk.tables == st.disk.tables + more
    ensures VersionsOk(st')
  {
    OnDiskMore(st.version, st.disk.tables, more, st.nextFile);
    forall v | v in st.pinned
      ensures OnDisk(v, st'.disk.tables)
    {
      OnDiskMore(v, st.disk.tables, more, st.nextFile);
    }
  }

  /** A step that prepares an edit leaves the current version and the manifest alone. */
  ghost predicate OnlyBuilds(st: State, st': State) {
    && SameForeground(st, st') && st'.version == st.version && st'.pinned == st.pinned
    && st'.disk.manifest == st.disk.manifest
    && !st.phase.Recorded? && st'.phase.Built?
  }

  lemma BuildKeepsInv(st: State, st': State)
    requires ForegroundOk(st) && ManifestsOk(st) && OnlyBuilds(st, st')
    requires VersionsOk(st') && TargetOk(st') && RunningOk(st') && !st'.overlapped
    ensures Inv(st')
  {
    ForegroundKept(st, st');
  }

  lemma ImmFits(st: State, level: nat, t: Table)
    requires Inv(st) && CanBuildFlush(st, level) && st.imm.value != []
    requires t.entries == st.imm.value && t.number == st.nextFile
    ensures EditFits(st.version, FlushEdit(level, t))
  {
    hide ValidVersion, ReadsAsWrites, LogsOk, SnapshotsOk, ManifestsOk, EditFits, TargetOk, RunningOk;
    ImmHoldsItsWrites(st);
    MayFlushNextWrites(st.version, st.history, st.flushed, st.switched, st.SmallestSnapshot(), level, t, st.revived);
    FlushEditFits(st.version, level, t);
  }

  lemma FlushTargetOk(st: State, level: nat, size: nat)
    requires Inv(st) && CanBuildFlush(st, level) && st.imm.value != []
    ensures TargetOk(BuildFlush(st, level, size))
  {
    hide ValidVersion, HoldsWrites, ForegroundOk, ManifestsOk, EditFits, RunningOk, OnDisk, ClearDownTo;
    var st' := BuildFlush(st, level, size);
    var t := Table(st.nextFile, size, st.imm.value);
    ImmFits(st, level, t);
    FlushHoldsWrites(st, level, t);
    var more := map[st.nextFile := st.imm.value];
    assert st'.disk.tables == st.disk.tables + more;
    OnDiskMore(st.version, st.disk.tables, more, st.nextFile);
    FlushedOnDisk(st.version, Target(st'), level, t, st'.disk.tables);
  }

  lemma FlushedOnDisk(v: Version, v': Version, level: nat, t: Table, tables: map<nat, seq<Entry>>)
    requires OnDisk(v, tables) && t.number in tables && tables[t.number] == t.entries
    requires forall l, u :: 0 <= l < NUM_LEVELS ==> (u in v'[l] <==> u in v[l] || (l == level && u == t))
    ensures OnDisk(v', tables)
  {
  }

  lemma FlushHoldsWrites(st: State, level: nat, t: Table)
    requires Inv(st) && CanBuildFlush(st, level) && st.imm.value != []
    requires t.entries == st.imm.value && t.number == st.nextFile
    ensures VersionOk(Install(st.version, FlushEdit(level, t)), st.history, st.switched, st.SmallestSnapshot(),
                      st.revived)
    ensures VersionNumbers(Install(st.version, FlushEdit(level, t))) == VersionNumbers(st.version) + {t.number}
    ensures forall l, u :: 0 <= l < NUM_LEVELS ==>
              (u in Install(st.version, FlushEdit(level, t))[l] <==> u in st.version[l] || (l == level && u == t))
  {
    hide ValidVersion, ReadsAsWrites, LogsOk, SnapshotsOk, ManifestsOk, TargetOk, RunningOk;
    ImmHoldsItsWrites(st);
    VersionOkAfterFlush(st.version, st.history, st.flushed, st.switched, st.SmallestSnapshot(), level, t, st.revived);
    EntriesOfFlushed(st.version, Install(st.version, FlushEdit(level, t)), level, t);
  }

  /** A running compaction can go on after the flush. */
  lemma FlushRunningOk(st: State, level: nat, size: nat)
    requires Inv(st) && CanBuildFlush(st, level) && st.imm.value != []
    ensures RunningOk(BuildFlush(st, level, size))
  {
    hide ReadsAsWrites, LogsOk, SnapshotsOk, ManifestsOk, FitsIn, ValidVersion;
    if st.running.Some? {
      ImmHoldsItsWrites(st);
      var t := Table(st.nextFile, size, st.imm.value);
      MayFlushNextWrites(st.version, st.history, st.flushed, st.switched, st.SmallestSnapshot(), level, t, st.revived);
      FlushKeepsFit(st.running.value.base, st.version, st.running.value.plan, level, t);
    }
  }

  lemma EmptyFlushKeepsInv(st: State, level: nat, size: nat)
    requires Inv(st) && CanBuildFlush(st, level) && st.imm.value == []
    ensures Inv(BuildFlush(st, level, size))
  {
    var st' := BuildFlush(st, level, size);
    ImmHoldsItsWrites(st);
    VersionOkNoFlush(st.version, st.history, st.flushed, st.SmallestSnapshot(), st.revived);
    BuildKeepsInv(st, st');
  }

  lemma FlushedTableKeepsInv(st: State, level: nat, size: nat)
    requires Inv(st) && CanBuildFlush(st, level) && st.imm.value != []
    ensures Inv(BuildFlush(st, level, size))
  {
    var st' := BuildFlush(st, level, size);
    FlushTargetOk(st, level, size);
    FlushRunningOk(st, level, size);
    var more := map[st.nextFile := st.imm.value];
    assert st'.disk.tables == st.disk.tables + more;
    VersionsOkWithMore(st, st', more);
    BuildKeepsInv(st, st');
  }

  lemma BuildFlushKeepsInv(st: State, level: nat, size: nat)
    requires Inv(st) && CanBuildFlush(st, level)
    ensures Inv(BuildFlush(st, level, size))
  {
    if st.imm.value == [] {
      EmptyFlushKeepsInv(st, level, size);
    } else {
      FlushedTableKeepsInv(st, level, size);
    }
  }

  // ----- compaction and trivial move

  lemma StartCompactionKeepsInv(st: State, plan: Plan)
    requires Inv(st) && CanStartCompaction(st, plan)
    ensures Inv(StartCompaction(st, plan))
  {
    var st' := StartCompaction(st, plan);
    ForegroundKept(st, st');
    assert Target(st') == Target(st);
  }

  lemma {:induction false} TablesOnDiskMembers(outs: seq<Table>)
    requires forall i, j :: 0 <= i < j < |outs| ==> outs[i].number != outs[j].number
    ensures forall n :: n in TablesOnDisk(outs) <==> exists t :: t in outs && t.number == n
    ensures forall t :: t in outs ==> t.number in TablesOnDisk(outs) && TablesOnDisk(outs)[t.number] == t.entries
  {
    if outs != [] {
      var n := |outs| - 1;
      TablesOnDiskMembers(outs[..n]);
      forall m | m in TablesOnDisk(outs)
        ensures exists t :: t in outs && t.number == m
      {
        if m == outs[n].number {
          assert outs[n] in outs;
        } else {
          assert m in TablesOnDisk(outs[..n]);
          var t :| t in outs[..n] && t.number == m;
          assert t in outs;
        }
      }
      forall t | t in outs
        ensures t.number in TablesOnDisk(outs) && TablesOnDisk(outs)[t.number] == t.entries
      {
        var i :| 0 <= i < |outs| && outs[i] == t;
        if i < n {
          assert outs[..n][i] == t;
        }
      }
    }
  }

  lemma NumbersOfReplaced(v: Version, plan: Plan, outs: seq<Table>)
    requires ValidVersion(v) && MergeableInputs(v, plan.level, plan.inputs0, plan.inputs1) && AreOutputs(v, plan, outs)
    ensures VersionNumbers(Install(v, ReplaceEdit(plan, outs))) <= VersionNumbers(v) + set t | t in outs :: t.number
  {
    ReplacedTables(v, plan, outs);
  }

  lemma OnDiskReplaced(v: Version, plan: Plan, outs: seq<Table>, tables: map<nat, seq<Entry>>)
    requires ValidVersion(v) && MergeableInputs(v, plan.level, plan.inputs0, plan.inputs1) && AreOutputs(v, plan, outs)
    requires OnDisk(v, tables) && forall t :: t in outs ==> t.number in tables && tables[t.number] == t.entries
    ensures OnDisk(Install(v, ReplaceEdit(plan, outs)), tables)
  {
    ReplacedTables(v, plan, outs);
  }

  /** Replacing the inputs by outputs that read alike, but for some keys, leaves those keys revived. */
  lemma HoldsWritesAfterReplace(v: Version, v': Version, h: seq<Entry>, f: nat, floor: nat, snap: nat,
                                revived: Revivals, users: set<UserKey>)
    requires HistoryOk(h) && HoldsWrites(v, h, f, floor, revived) && snap <= floor
    requires VersionEntries(v') <= VersionEntries(v)
    requires ReadsAgreeBut(VersionEntries(v'), VersionEntries(v), snap, users)
    ensures HoldsWrites(v', h, f, floor, WithRevived(revived, users, f))
  {
    HistorySlice(h, 0, f);
    var more, writes := WithRevived(revived, users, f), Elements(h[..f]);
    forall user, s | s >= floor && Sound(writes, user, s, more)
      ensures SetRead(VersionEntries(v'), user, s) == SetRead(writes, user, s)
    {
      assert user !in users;
      assert Sound(writes, user, s, revived);
      assert SetRead(VersionEntries(v'), user, s) == SetRead(VersionEntries(v), user, s);
    }
  }

  lemma DistinctVersion(v: Version, h: seq<Entry>, f: nat, floor: nat, revived: Revivals)
    requires HistoryOk(h) && VersionOk(v, h, f, floor, revived)
    ensures Distinct(VersionEntries(v))
  {
    HistorySlice(h, 0, f);
    DistinctSubset(VersionEntries(v), Elements(h));
  }

  /** The merge is a merge for the version as it is now. */
  lemma MergeFitsNow(st: State, input: seq<Entry>, outs: seq<Table>, next: nat)
    requires Inv(st) && CanBuildCompaction(st, input, outs, next)
    ensures IsCompaction(st.version, st.running.value.plan, input, st.running.value.snap, outs)
  {
    var r := st.running.value;
    forall t, l, u | t in outs && 0 <= l < NUM_LEVELS && u in st.version[l]
      ensures t.number != u.number
    {
      assert u.number in VersionNumbers(st.version);
    }
    hide IsCompaction, FitsIn;
    CompactionFits(r.base, st.version, r.plan, input, r.snap, outs);
  }

  lemma CompactionHoldsWrites(st: State, input: seq<Entry>, outs: seq<Table>, next: nat)
    requires Inv(st) && CanBuildCompaction(st, input, outs, next)
    requires IsCompaction(st.version, st.running.value.plan, input, st.running.value.snap, outs)
    ensures var st' := BuildCompaction(st, outs, next);
            && HoldsWrites(Target(st'), st.history, st.flushed, st.SmallestSnapshot(), st'.revived)
            && VersionOk(st.version, st.history, st.flushed, st.SmallestSnapshot(), st'.revived)
            && (ValidVersion(Target(st')) <==> EditFits(st.version, st'.phase.edit))
  {
    hide LogsOk, SnapshotsOk, MemOk, ManifestsOk;
    var plan, v, snap := st.running.value.plan, st.version, st.running.value.snap;
    var users := RevivedBy(v, plan, snap);
    DistinctVersion(v, st.history, st.flushed, st.SmallestSnapshot(), st.revived);
    hide ValidVersion, Distinct, ReadsAgree, RevivedBy, MergeableInputs, AreOutputs, HoldsWrites, EditFits, OutputsFit;
    CompactionReadsIff(v, plan, input, snap, outs);
    HoldsWritesBut(v, st.history, st.flushed, st.SmallestSnapshot(), st.revived, users);
    HoldsWritesAfterReplace(v, Install(v, ReplaceEdit(plan, outs)), st.history, st.flushed, st.SmallestSnapshot(), snap,
        st.revived, users);
    ReplaceIsValidIff(v, plan, outs);
    ReplaceEditFitsIff(v, plan, outs);
  }

  lemma CompactionTargetOk(st: State, input: seq<Entry>, outs: seq<Table>, next: nat)
    requires Inv(st) && CanBuildCompaction(st, input, outs, next)
    requires IsCompaction(st.version, st.running.value.plan, input, st.running.value.snap, outs)
    ensures TargetOk(BuildCompaction(st, outs, next))
    ensures forall n :: n in TablesOnDisk(outs) ==> st.nextFile <= n
  {
    hide HoldsWrites, EditFits, SnapshotsOk, LogsOk, MemOk, ManifestsOk;
    var st', plan, v := BuildCompaction(st, outs, next), st.running.value.plan, st.version;
    CompactionHoldsWrites(st, input, outs, next);
    hide ValidVersion, MergeableInputs;
    TablesOnDiskMembers(outs);
    NumbersOfReplaced(v, plan, outs);
    OnDiskMore(v, st.disk.tables, TablesOnDisk(outs), st.nextFile);
    OnDiskReplaced(v, plan, outs, st'.disk.tables);
  }

  lemma BuildCompactionKeepsInv(st: State, input: seq<Entry>, outs: seq<Table>, next: nat)
    requires Inv(st) && CanBuildCompaction(st, input, outs, next)
    ensures Inv(BuildCompaction(st, outs, next))
  {
    hide HoldsWrites, EditFits, ValidVersion;
    var st' := BuildCompaction(st, outs, next);
    MergeFitsNow(st, input, outs, next);
    CompactionHoldsWrites(st, input, outs, next);
    CompactionTargetOk(st, input, outs, next);
    VersionsOkWithMore(st, st', TablesOnDisk(outs));
    BuildKeepsInv(st, st');
  }

  lemma MovedTableIsOutput(v: Version, plan: Plan)
    requires ValidVersion(v) && SafeInputs(v, plan.level, plan.inputs0, plan.inputs1)
    requires |plan.inputs0| == 1 && plan.inputs1 == []
    ensures AreOutputs(v, plan, plan.inputs0)
    ensures TableEntries(plan.inputs0) == InputEntries(plan)
  {
    var t := plan.inputs0[0];
    assert plan.inputs0 == [t] && plan.inputs0 + plan.inputs1 == [t];
    InputsWellFormed(v, plan);
    forall l, u | 0 <= l < NUM_LEVELS && u in v[l] && t.number == u.number
      ensures l == plan.level && u == t
    {
      assert Identified(v, l, u, plan.level, t);
    }
  }

  lemma FlushEditFits(v: Version, level: nat, t: Table)
    requires ValidVersion(v) && MayFlush(v, level, t)
    ensures EditFits(v, FlushEdit(level, t))
  {
    var e := FlushEdit(level, t);
    forall l, x, u | 1 <= l < NUM_LEVELS && AddedAt(e, l, x) && u in v[l] && (l, u.number) !in e.deleted
      ensures Apart(u, x)
    {
      assert x == t && l == level;
      assert RangeIsClear(v[l], Some(Smallest(t).user), Some(Largest(t).user));
      ClearOfTable(u, t);
    }
  }

  /** A trivial move changes no entry, no number and no table. */
  lemma MovedHoldsWrites(v: Version, h: seq<Entry>, f: nat, floor: nat, plan: Plan, revived: Revivals)
    requires HistoryOk(h) && VersionOk(v, h, f, floor, revived)
    requires SafeInputs(v, plan.level, plan.inputs0, plan.inputs1)
    requires |plan.inputs0| == 1 && plan.inputs1 == []
    ensures HoldsWrites(Install(v, ReplaceEdit(plan, plan.inputs0)), h, f, floor, revived)
    ensures ValidVersion(Install(v, ReplaceEdit(plan, plan.inputs0))) && EditFits(v, ReplaceEdit(plan, plan.inputs0))
    ensures VersionNumbers(Install(v, ReplaceEdit(plan, plan.inputs0))) <= VersionNumbers(v)
  {
    MovedTableIsOutput(v, plan);
    InputsAndRest(v, plan);
    OutputsAndRest(v, plan, plan.inputs0);
    SafeOutputsFit(v, plan, plan.inputs0);
    ReplaceIsValid(v, plan, plan.inputs0);
    ReplaceEditFitsIff(v, plan, plan.inputs0);
    NumbersOfReplaced(v, plan, plan.inputs0);
    assert forall t :: t in plan.inputs0 ==> t in v[plan.level] && t.number in VersionNumbers(v);
  }

  lemma MovedOnDisk(v: Version, plan: Plan, tables: map<nat, seq<Entry>>)
    requires ValidVersion(v) && SafeInputs(v, plan.level, plan.inputs0, plan.inputs1)
    requires |plan.inputs0| == 1 && plan.inputs1 == [] && OnDisk(v, tables)
    ensures OnDisk(Install(v, ReplaceEdit(plan, plan.inputs0)), tables)
  {
    MovedTableIsOutput(v, plan);
    assert forall t :: t in plan.inputs0 ==> t in v[plan.level];
    OnDiskReplaced(v, plan, plan.inputs0, tables);
  }

  lemma MoveTargetOk(st: State, plan: Plan)
    requires Inv(st) && CanMove(st, plan)
    ensures TargetOk(Move(st, plan))
  {
    MovedHoldsWrites(st.version, st.history, st.flushed, st.SmallestSnapshot(), plan, st.revived);
    MovedOnDisk(st.version, plan, st.disk.tables);
  }

  lemma MoveKeepsInv(st: State, plan: Plan)
    requires Inv(st) && CanMove(st, plan)
    ensures Inv(Move(st, plan))
  {
    var st' := Move(st, plan);
    MoveTargetOk(st, plan);
    BuildKeepsInv(st, st');
  }

  // ----- recording and installing

  lemma PrepareKeepsInv(st: State)
    requires Inv(st) && CanPrepare(st)
    ensures Inv(Prepare(st))
  {
    var st' := Prepare(st);
    ForegroundKept(st, st');
    assert Target(st') == Target(st) && TargetFlushed(st') == TargetFlushed(st);
  }

  lemma FlushesFit(st: State)
    requires Inv(st) && st.phase.Built? && st.phase.flush
    ensures EditFits(st.version, st.phase.edit)
  {
    hide EditFits, ValidVersion, HoldsWrites, ForegroundOk, RunningOk, ManifestsOk;
  }

  /** A record that becomes durable names a version in order if and only if what it adds overlaps nothing. */
  lemma RecordIsValidIff(st: State)
    requires Inv(st) && CanRecord(st)
    ensures Record(st).overlapped <==> !ValidVersion(Record(st).disk.manifest.version)
  {
    hide HoldsWrites, ForegroundOk, VersionsOk, RunningOk, EditFits, ValidVersion;
  }

  /** Unless an output overlaps another table. */
  lemma RecordKeepsInv(st: State)
    requires Inv(st) && CanRecord(st) && !Record(st).overlapped
    ensures Inv(Record(st))
  {
    var st' := Record(st);
    ForegroundKept(st, st');
    assert Target(st') == Target(st) && TargetFlushed(st') == TargetFlushed(st);
  }

  lemma InstallKeepsForeground(st: State)
    requires ForegroundOk(st) && CanInstall(st)
    ensures ForegroundOk(InstallCurrent(st))
  {
  }

  lemma InstallKeepsInv(st: State)
    requires Inv(st) && CanInstall(st)
    ensures Inv(InstallCurrent(st))
  {
    hide HoldsWrites, ValidVersion, EditFits, ForegroundOk;
    var st' := InstallCurrent(st);
    InstallKeepsForeground(st);
    assert st'.version == Target(st) == Target(st') && st'.flushed == TargetFlushed(st) == TargetFlushed(st');
  }
}
