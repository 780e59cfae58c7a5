/**
 Crashes: what the disk alone determines, at every state, and why opening it loses nothing
 (DBImpl::Recover and DB::Open, db/db_impl.cc).
 */
module DbRecovery {
  import opened Optional
  import opened InternalKeys
  import opened ReadSpec
  import opened Versions
  import opened CompactionMerge
  import opened VersionBuilder
  import opened Installing
  import opened Flushing
  import opened MemTables
  import opened DbState
  import opened DbInvariant
  import opened DbBackground

  /** The manifest's tables hold the first `f` writes of the history, and its logs the rest. */
  ghost predicate DiskHolds(d: Disk, h: seq<Entry>, f: nat, revived: Revivals) {
    DiskWrites(d, h, f, revived) && f <= d.manifest.lastSequence <= |h|
  }

  ghost predicate DiskWrites(d: Disk, h: seq<Entry>, f: nat, revived: Revivals) {
    && HistoryOk(h)
    && VersionOk(d.manifest.version, h, f, |h|, revived)
    && NumbersBelow(d.manifest.version, d.manifest.nextFile)
    && OnDisk(d.manifest.version, d.tables)
    && ReplayedLog(d) == h[f..]
  }

  function DiskFlushed(st: State): nat {
    if st.phase.Recorded? then TargetFlushed(st) else st.flushed
  }

  lemma ReplayIsRest(st: State)
    requires Inv(st)
    ensures ReplayedLog(st.disk) == st.history[DiskFlushed(st)..]
  {
    hide HoldsWrites, ValidVersion, EditFits, RunningOk, VersionsOk, OnDisk, MemOk, SnapshotsOk, HistoryOk;
    var logs, h := st.disk.logs, st.history;
    var top := TopLog(logs);
    assert st.logFile < top;
    assert NoLogs(logs, st.logFile + 1, top);
    if st.disk.manifest.logNumber == st.logFile {
      ConcatOneLog(logs, st.logFile, top);
    } else {
      ConcatTwoLogs(logs, st.logNumber, st.logFile, top);
      assert h[st.flushed..] == h[st.flushed..st.switched] + h[st.switched..];
    }
  }

  /** At every state the disk holds every write made so far. */
  lemma DiskHoldsEverything(st: State)
    requires Inv(st)
    ensures DiskHolds(st.disk, st.history, DiskFlushed(st), st.revived)
  {
    ReplayIsRest(st);
    SmallestIsLeast(st);
    HoldsWritesAbove(st.version, st.history, st.flushed, st.SmallestSnapshot(), |st.history|, st.revived);
    HoldsWritesAbove(Target(st), st.history, TargetFlushed(st), st.SmallestSnapshot(), |st.history|, st.revived);
  }

  lemma PartialOpenKeepsDisk(d: Disk, d': Disk, h: seq<Entry>, f: nat, revived: Revivals)
    requires DiskWrites(d, h, f, revived) && IsPartialOpen(d, d')
    ensures DiskWrites(d', h, f, revived) && d'.manifest == d.manifest
  {
    var top, top' := TopLog(d.logs), TopLog(d'.logs);
    assert top <= top' by {
      if top > 0 {
        assert top - 1 in d.logs.Keys;
      }
    }
    ConcatLogsExtends(d.logs, d'.logs, d.manifest.logNumber, top, top');
    forall l, t | 0 <= l < NUM_LEVELS && t in d.manifest.version[l]
      ensures t.number in d'.tables && d'.tables[t.number] == t.entries
    {
      assert t.number in VersionNumbers(d.manifest.version);
    }
  }

  lemma {:induction false} PartialOpensKeepDisk(disks: seq<Disk>, h: seq<Entry>, f: nat, n: nat, revived: Revivals)
    requires n < |disks| && DiskWrites(disks[0], h, f, revived)
    requires forall i :: 0 < i < |disks| ==> IsPartialOpen(disks[i - 1], disks[i])
    ensures DiskWrites(disks[n], h, f, revived) && disks[n].manifest == disks[0].manifest
  {
    if n > 0 {
      PartialOpensKeepDisk(disks, h, f, n - 1, revived);
      PartialOpenKeepsDisk(disks[n - 1], disks[n], h, f, revived);
    }
  }

  // ----- replaying the logs into level-0 tables

  function Level0Edit(outs: seq<Table>): Edit {
    Edit({}, AtLevel(outs, 0))
  }

  lemma InstallOneMore(v: Version, outs: seq<Table>, t: Table)
    ensures Install(v, Level0Edit(outs + [t])) == Install(Install(v, Level0Edit(outs)), FlushEdit(0, t))
  {
    assert AtLevel(outs + [t], 0) == AtLevel(outs, 0) + [(0, t)];
    assert (AtLevel(outs, 0) + [(0, t)])[..|outs|] == AtLevel(outs, 0);
    forall l | 0 <= l < NUM_LEVELS
      ensures InstallLevel(v[l], Level0Edit(outs + [t]), l) ==
              InstallLevel(InstallLevel(v[l], Level0Edit(outs), l), FlushEdit(0, t), l)
    {
      var files := InstallLevel(v[l], Level0Edit(outs), l);
      WithoutNothing(files, l);
      assert FlushEdit(0, t).added[..0] == [];
      assert InsertAll(files, [], l) == files;
    }
  }

  lemma SplitFlatten(chunks: seq<seq<Entry>>, h: seq<Entry>, f: nat, g: nat)
    requires chunks != [] && f <= g <= |h| && Flatten(chunks) == h[f..g]
    ensures |chunks[|chunks| - 1]| <= g - f
    ensures Flatten(chunks[..|chunks| - 1]) == h[f..g - |chunks[|chunks| - 1]|]
    ensures chunks[|chunks| - 1] == h[g - |chunks[|chunks| - 1]|..g]
  {
    var front, last := Flatten(chunks[..|chunks| - 1]), chunks[|chunks| - 1];
    var m := g - |last|;
    assert front + last == h[f..g];
    assert front == (front + last)[..|front|];
    assert last == (front + last)[|front|..];
  }

  /** Level-0 tables of consecutive stretches of the history, oldest first under increasing numbers. */
  ghost predicate AreReplayed(outs: seq<Table>, chunks: seq<seq<Entry>>, base: nat) {
    && |outs| == |chunks|
    && (forall i :: 0 <= i < |outs| ==> outs[i].entries == MemTable(chunks[i]) && outs[i].number >= base)
    && (forall i, j :: 0 <= i < j < |outs| ==> outs[i].number < outs[j].number)
  }

  ghost predicate AddedAtLevel0(v: Version, v': Version, outs: seq<Table>) {
    forall l: nat, t: Table {:trigger t in v'[l]} {:trigger t in v[l]} {:trigger t in outs, v'[l]} ::
      l < NUM_LEVELS ==> (t in v'[l] <==> t in v[l] || (l == 0 && t in outs))
  }

  /** One more replayed table, numbered above the version it is added to. */
  lemma ReplayOneMore(v: Version, h: seq<Entry>, m: nat, g: nat, floor: nat, t: Table, revived: Revivals)
    requires HistoryOk(h) && VersionOk(v, h, m, floor, revived) && m <= g <= |h|
    requires NumbersBelow(v, t.number) && t.entries == MemTable(h[m..g])
    ensures VersionOk(Install(v, FlushEdit(0, t)), h, g, floor, revived)
    ensures AddedAtLevel0(v, Install(v, FlushEdit(0, t)), [t])
  {
    HistorySlice(h, m, g);
    MemTableIsSorted(h[m..g]);
    VersionOkAfterFlush(v, h, m, g, floor, 0, t, revived);
  }

  lemma ReplayedNumbers(v: Version, v': Version, outs: seq<Table>, chunks: seq<seq<Entry>>, base: nat, t: Table)
    requires AreReplayed(outs + [t], chunks, base) && NumbersBelow(v, base) && AddedAtLevel0(v, v', outs)
    ensures NumbersBelow(v', t.number)
  {
    forall x | x in VersionNumbers(v')
      ensures x < t.number
    {
      var l, u :| 0 <= l < NUM_LEVELS && u in v'[l] && u.number == x;
      if u in v[l] {
        assert u.number in VersionNumbers(v);
        assert (outs + [t])[|outs|] == t;
      } else {
        assert u in outs;
        var i :| 0 <= i < |outs| && outs[i] == u;
        assert (outs + [t])[i] == u && (outs + [t])[|outs|] == t;
      }
    }
  }

  lemma AddedOneMore(v: Version, v': Version, v'': Version, outs: seq<Table>, t: Table)
    requires AddedAtLevel0(v, v', outs) && AddedAtLevel0(v', v'', [t])
    ensures AddedAtLevel0(v, v'', outs + [t])
  {
    forall l: nat, x: Table | l < NUM_LEVELS
      ensures x in v''[l] <==> x in v[l] || (l == 0 && x in outs + [t])
    {
      assert x in v''[l] <==> x in v'[l] || (l == 0 && x in [t]);
      assert x in v'[l] <==> x in v[l] || (l == 0 && x in outs);
    }
  }

  lemma ReplayedPrefix(outs: seq<Table>, t: Table, chunks: seq<seq<Entry>>, base: nat)
    requires AreReplayed(outs + [t], chunks, base)
    ensures chunks != [] && AreReplayed(outs, chunks[..|outs|], base) && t.entries == MemTable(chunks[|outs|])
  {
    assert (outs + [t])[|outs|] == t;
    assert forall i :: 0 <= i < |outs| ==> (outs + [t])[i] == outs[i];
  }

  lemma {:induction false} ReplayIsOk(v: Version, h: seq<Entry>, f: nat, g: nat, floor: nat,
                                      outs: seq<Table>, chunks: seq<seq<Entry>>, base: nat, revived: Revivals)
    requires HistoryOk(h) && VersionOk(v, h, f, floor, revived) && NumbersBelow(v, base) && f <= g <= |h|
    requires AreReplayed(outs, chunks, base) && Flatten(chunks) == h[f..g]
    ensures VersionOk(Install(v, Level0Edit(outs)), h, g, floor, revived)
    ensures AddedAtLevel0(v, Install(v, Level0Edit(outs)), outs)
    decreases |outs|
  {
    if outs == [] {
      assert f == g;
      VersionOkNoFlush(v, h, f, floor, revived);
    } else {
      var n := |outs| - 1;
      var front, t := outs[..n], outs[n];
      assert outs == front + [t];
      ReplayedPrefix(front, t, chunks, base);
      SplitFlatten(chunks, h, f, g);
      var m := g - |chunks[n]|;
      ReplayIsOk(v, h, f, m, floor, front, chunks[..n], base, revived);
      var v' := Install(v, Level0Edit(front));
      ReplayedNumbers(v, v', front, chunks, base, t);
      ReplayOneMore(v', h, m, g, floor, t, revived);
      InstallOneMore(v, front, t);
      AddedOneMore(v, v', Install(v', FlushEdit(0, t)), front, t);
    }
  }

  lemma {:induction false} MaxSequenceOfSlice(h: seq<Entry>, f: nat, g: nat)
    requires IsHistory(h) && f <= g <= |h|
    ensures MaxSequence(h[f..g]) == if f < g then g else 0
  {
    if f < g {
      MaxSequenceOfSlice(h, f, g - 1);
      assert h[f..g][..g - f - 1] == h[f..g - 1];
    }
  }

  lemma RecoveredAreReplayed(d: Disk, r: Recovery)
    requires ValidRecovery(d, r)
    ensures AreReplayed(RecoveredTables(r), r.chunks, d.manifest.nextFile)
    ensures forall t :: t in RecoveredTables(r) ==> d.manifest.nextFile < t.number < r.newLog
  {
    assert forall i :: 0 <= i < |r.chunks| ==> r.chunks[i] in r.chunks;
  }

  lemma ReopenedVersionOk(d: Disk, r: Recovery, h: seq<Entry>, f: nat, revived: Revivals)
    requires DiskWrites(d, h, f, revived) && ValidRecovery(d, r)
    ensures VersionOk(Reopen(d, r, h, revived).version, h, |h|, |h|, revived)
    ensures AddedAtLevel0(d.manifest.version, Reopen(d, r, h, revived).version, RecoveredTables(r))
  {
    RecoveredAreReplayed(d, r);
    assert h[f..] == h[f..|h|];
    ReplayIsOk(d.manifest.version, h, f, |h|, |h|, RecoveredTables(r), r.chunks, d.manifest.nextFile, revived);
  }

  lemma ReopenedOnDisk(d: Disk, r: Recovery, h: seq<Entry>, f: nat, revived: Revivals)
    requires DiskHolds(d, h, f, revived) && ValidRecovery(d, r)
    ensures OnDisk(Reopen(d, r, h, revived).version, Reopen(d, r, h, revived).disk.tables)
    ensures NumbersBelow(Reopen(d, r, h, revived).version, r.newLog)
  {
    var v, outs := d.manifest.version, RecoveredTables(r);
    RecoveredAreReplayed(d, r);
    ReopenedVersionOk(d, r, h, f, revived);
    TablesOnDiskMembers(outs);
    forall l, t | 0 <= l < NUM_LEVELS && t in Reopen(d, r, h, revived).version[l]
      ensures t.number < r.newLog
      ensures t.number in Reopen(d, r, h, revived).disk.tables
      ensures Reopen(d, r, h, revived).disk.tables[t.number] == t.entries
    {
      if t in v[l] {
        assert t.number in VersionNumbers(v);
      }
    }
  }

  /** A database with empty memtables, no readers and no background work. */
  ghost predicate IsFresh(st: State) {
    && st.mem == [] && st.imm.None? && st.group.None? && st.phase.Idle? && st.running.None?
    && !st.overlapped && st.snapshots == [] && st.pinned == []
    && st.flushed == st.switched == st.lastSequence == |st.history|
    && st.logNumber == st.logFile < st.nextFile
  }

  lemma FreshHasInv(st: State)
    requires IsFresh(st) && HistoryOk(st.history)
    requires VersionOk(st.version, st.history, |st.history|, |st.history|, st.revived)
    requires NumbersBelow(st.version, st.nextFile) && OnDisk(st.version, st.disk.tables)
    requires st.disk.manifest == Manifest(st.version, st.logFile, st.nextFile, st.lastSequence)
    requires st.logFile in st.disk.logs && st.disk.logs[st.logFile] == []
    requires forall n :: n in st.disk.logs ==> n <= st.logFile
    ensures Inv(st)
  {
    var h := st.history;
    assert h[|h|..|h|] == [] && h[|h|..] == [];
    assert CountersOk(st) && MemOk(st) && SnapshotsOk(st);
    assert LogsOk(st);
    assert Target(st) == st.version;
  }

  lemma ReopenedLastSequence(d: Disk, r: Recovery, h: seq<Entry>, f: nat, revived: Revivals)
    requires DiskHolds(d, h, f, revived) && ValidRecovery(d, r)
    ensures Reopen(d, r, h, revived).lastSequence == |h|
  {
    assert h[f..] == h[f..|h|];
    MaxSequenceOfSlice(h, f, |h|);
  }

  /** Opening a disk that holds the history gives a sound database with all of it readable. */
  lemma ReopenEstablishesInv(d: Disk, r: Recovery, h: seq<Entry>, f: nat, revived: Revivals)
    requires DiskHolds(d, h, f, revived) && ValidRecovery(d, r)
    ensures Inv(Reopen(d, r, h, revived)) && Reopen(d, r, h, revived).lastSequence == |h|
  {
    var st := Reopen(d, r, h, revived);
    ReopenedVersionOk(d, r, h, f, revived);
    ReopenedOnDisk(d, r, h, f, revived);
    ReopenedLastSequence(d, r, h, f, revived);
    forall n | n in st.disk.logs
      ensures n <= st.logFile
    {
      assert n in d.logs.Keys || n == r.newLog;
    }
    FreshHasInv(st);
  }

  /** A crash at any state, and any number of crashes while opening, loses no write. */
  lemma CrashKeepsInv(st: State, disks: seq<Disk>, r: Recovery, st': State)
    requires Inv(st) && CrashesTo(st, disks, r, st')
    ensures Inv(st') && st'.history == st.history && st'.lastSequence == |st.history| && st'.revived == st.revived
  {
    var f := DiskFlushed(st);
    DiskHoldsEverything(st);
    PartialOpensKeepDisk(disks, st.history, f, |disks| - 1, st.revived);
    ReopenEstablishesInv(disks[|disks| - 1], r, st.history, f, st.revived);
  }

  lemma EmptyVersionIsOk()
    ensures VersionOk(NEW_DISK.manifest.version, [], 0, 0, map[])
  {
    var v := NEW_DISK.manifest.version;
    forall l | 0 <= l < NUM_LEVELS
      ensures v[l] == []
    {
    }
    assert VersionEntries(v) == {};
  }

  lemma NewDiskHoldsNothing()
    ensures DiskHolds(NEW_DISK, [], 0, map[])
  {
    EmptyVersionIsOk();
    hide VersionOk;
    assert forall l :: 0 <= l < NUM_LEVELS ==> NEW_DISK.manifest.version[l] == [];
  }

  lemma InitialHasInv(st: State)
    requires IsInitial(st)
    ensures Inv(st) && st.history == [] && st.lastSequence == 0 && st.revived == map[]
  {
    hide Inv, DiskHolds;
    var r :| ValidRecovery(NEW_DISK, r) && st == Reopen(NEW_DISK, r, [], map[]);
    NewDiskHoldsNothing();
    ReopenEstablishesInv(NEW_DISK, r, [], 0, map[]);
  }
}
