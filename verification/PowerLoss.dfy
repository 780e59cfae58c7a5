/**
 Crashes that also lose bytes which were appended to a log but never forced to the disk
 (options.sync, DBImpl::Write in db/db_impl.cc). A log loses whole records from its end, as
 `LogReader` shows, and a record is a group.

 The log of an immutable memtable is not forced to the disk when the memtable is switched, so
 that writes in the middle of the history may be missing; `ReplayHasNoGapIff` says exactly when.
 In all other cases the reopened database reads as the history up to the end of some group, and
 every synced group is in it.
 */
module PowerLoss {
  import opened Optional
  import opened InternalKeys
  import opened ReadSpec
  import opened Versions
  import opened CompactionMerge
  import opened VersionBuilder
  import opened Installing
  import opened MemTables
  import opened DbState
  import opened DbInvariant
  import opened DbBackground
  import opened DbRecovery
  import opened DbRuns
  import opened DbReach

  /** The older log, if it is still needed, keeps its writes up to `a`, and the newest log its writes up to `b`. */
  ghost predicate CutsLogs(st: State, d: Disk, a: nat, b: nat) {
    && st.flushed <= a <= st.switched <= b <= |st.history|
    && (st.imm.None? ==> a == st.switched)
    && d == st.disk.(logs := CutLogs(st, a, b))
  }

  function CutLogs(st: State, a: nat, b: nat): map<nat, seq<Entry>>
    requires st.flushed <= a <= st.switched <= b <= |st.history|
  {
    var logs := st.disk.logs[st.logFile := st.history[st.switched..b]];
    if st.imm.Some? then logs[st.logNumber := st.history[st.flushed..a]] else logs
  }

  /** The writes of whole groups. */
  ghost predicate EndsAGroup(states: seq<State>, k: nat, b: nat) {
    exists j :: 0 <= j <= k && j < |states| && |states[j].history| == b
  }

  /** The older log is no longer needed, or lost nothing, or the newest log holds nothing. */
  ghost predicate NoGap(st: State, d: Disk, a: nat, b: nat) {
    d.manifest.logNumber == st.logFile || a == st.switched || b == st.switched
  }

  /** How many writes are left then. */
  function Left(st: State, d: Disk, a: nat, b: nat): nat {
    if d.manifest.logNumber == st.logFile || a == st.switched then b else a
  }

  /** The first `n` writes were synced: what is needed of their logs has not been cut. */
  ghost predicate IsKept(st: State, d: Disk, a: nat, b: nat, n: nat) {
    n <= a || (n <= st.switched && d.manifest.logNumber == st.logFile) || st.switched < n <= b
  }

  /** Whatever had been forced to the disk is kept. */
  ghost predicate KeepsSynced(states: seq<State>, actions: seq<Action>, k: nat, d: Disk, a: nat, b: nat)
    requires k <= |actions| && k < |states|
  {
    forall i {:trigger actions[i]} :: 0 <= i < k && actions[i].DoSync? ==>
      IsKept(states[k], d, a, b, |states[i].history|)
  }

  lemma TopOfCutLogs(st: State, d: Disk, a: nat, b: nat)
    requires Inv(st) && CutsLogs(st, d, a, b)
    ensures TopLog(d.logs) == TopLog(st.disk.logs)
  {
    assert d.logs.Keys == st.disk.logs.Keys;
  }

  /** What recovery replays from the logs that are left. */
  lemma ReplayOfCutLogs(st: State, d: Disk, a: nat, b: nat)
    requires Inv(st) && CutsLogs(st, d, a, b)
    ensures ReplayedLog(d) == if d.manifest.logNumber == st.logFile then st.history[st.switched..b]
                              else st.history[st.flushed..a] + st.history[st.switched..b]
  {
    TopOfCutLogs(st, d, a, b);
    hide BackgroundOk, HistoryOk, MemOk, SnapshotsOk;
    var logs, top := d.logs, TopLog(d.logs);
    LogNumberIsOne(st);
    assert st.logFile < top;
    assert NoLogs(logs, st.logFile + 1, top);
    if d.manifest.logNumber == st.logFile {
      ConcatOneLog(logs, st.logFile, top);
    } else {
      ConcatTwoLogs(logs, st.logNumber, st.logFile, top);
    }
  }

  lemma LogNumberIsOne(st: State)
    requires Inv(st)
    ensures st.disk.manifest.logNumber == st.logFile ||
            (st.imm.Some? && st.disk.manifest.logNumber == st.logNumber < st.logFile)
    ensures st.disk.manifest.logNumber == st.logFile ==> DiskFlushed(st) == st.switched
    ensures st.disk.manifest.logNumber != st.logFile ==> DiskFlushed(st) == st.flushed
  {
  }

  // ----- a prefix is left

  lemma ReadsAgreeFrom(es: set<Entry>, fs: set<Entry>, f: nat, floor: nat, floor': nat, revived: Revivals)
    requires ReadsAsWrites(es, fs, floor, revived) && f <= floor' && f <= floor
    requires Distinct(es) && Distinct(fs) && forall e :: e in es + fs ==> e.key.sequence <= f
    ensures ReadsAsWrites(es, fs, floor', revived)
  {
    forall user, s | s >= floor' && Sound(fs, user, s, revived)
      ensures SetRead(es, user, s) == SetRead(fs, user, s)
    {
      LateReadsAlike(es, f, user, s, floor);
      LateReadsAlike(fs, f, user, s, floor);
      assert Sound(fs, user, floor, revived);
      assert SetRead(es, user, floor) == SetRead(fs, user, floor);
    }
  }

  /** Once a read sees everything, a later one sees no more. */
  lemma LateReadsAlike(es: set<Entry>, f: nat, user: UserKey, s: nat, t: nat)
    requires Distinct(es) && (forall e :: e in es ==> e.key.sequence <= f) && f <= s && f <= t
    ensures SetRead(es, user, s) == SetRead(es, user, t)
  {
    forall e
      ensures IsNewest(es, user, s, e) <==> IsNewest(es, user, t, e)
    {
    }
    NewestTransfer(es, es, user, s, t);
  }

  /** A version that holds the first `f` writes is right for every shorter history that has them. */
  lemma VersionOkForPrefix(v: Version, h: seq<Entry>, f: nat, b: nat, revived: Revivals)
    requires HistoryOk(h) && VersionOk(v, h, f, |h|, revived) && f <= b <= |h|
    ensures VersionOk(v, h[..b], f, b, revived)
  {
    assert h[..b][..f] == h[..f];
    HistorySlice(h, 0, f);
    DistinctSubset(Elements(h[..f]), Elements(h));
    DistinctSubset(VersionEntries(v), Elements(h));
    ReadsAgreeFrom(VersionEntries(v), Elements(h[..f]), f, |h|, b, revived);
  }

  lemma PrefixIsHistory(h: seq<Entry>, b: nat)
    requires HistoryOk(h) && b <= |h|
    ensures HistoryOk(h[..b])
  {
  }

  /** What is left holds the shorter history. */
  lemma CutDiskHoldsPrefix(st: State, d: Disk, a: nat, b: nat)
    requires Inv(st) && CutsLogs(st, d, a, b) && NoGap(st, d, a, b)
    ensures DiskWrites(d, st.history[..Left(st, d, a, b)], DiskFlushed(st), st.revived)
  {
    hide Inv, VersionOk, ReplayedLog;
    CutDiskVersion(st, d, a, b);
    ReplayOfCutLogs(st, d, a, b);
    LogNumberIsOne(st);
    var h, c := st.history, Left(st, d, a, b);
    assert h[..c][DiskFlushed(st)..] == h[DiskFlushed(st)..c];
    assert a == st.switched ==> h[st.flushed..a] + h[st.switched..b] == h[st.flushed..b];
    assert b == st.switched ==> h[st.flushed..a] + h[st.switched..b] == h[st.flushed..a];
  }

  lemma CutDiskVersion(st: State, d: Disk, a: nat, b: nat)
    requires Inv(st) && CutsLogs(st, d, a, b)
    ensures var c := Left(st, d, a, b);
            && DiskFlushed(st) <= c <= |st.history| && HistoryOk(st.history[..c])
            && VersionOk(d.manifest.version, st.history[..c], DiskFlushed(st), c, st.revived)
    ensures NumbersBelow(d.manifest.version, d.manifest.nextFile) && OnDisk(d.manifest.version, d.tables)
  {
    DiskHoldsEverything(st);
    FlushedBelowSwitched(st);
    LogNumberIsOne(st);
    hide Inv, VersionOk, ReplayedLog;
    var c := Left(st, d, a, b);
    VersionOkForPrefix(st.disk.manifest.version, st.history, DiskFlushed(st), c, st.revived);
    PrefixIsHistory(st.history, c);
  }

  lemma FlushedBelowSwitched(st: State)
    requires Inv(st)
    ensures DiskFlushed(st) <= st.switched
  {
  }

  /** The reopened version reads as the shorter history, at any later sequence number too. */
  lemma ReopenedReads(d: Disk, r: Recovery, h: seq<Entry>, f: nat, revived: Revivals, user: UserKey)
    requires DiskWrites(d, h, f, revived) && ValidRecovery(d, r)
    requires Trusted(Reopen(d, r, h, revived), user, |h|)
    requires |h| <= Reopen(d, r, h, revived).lastSequence
    ensures Read(Reopen(d, r, h, revived), user, Reopen(d, r, h, revived).lastSequence) == HistoryRead(h, user, |h|)
  {
    ReopenedVersionOk(d, r, h, f, revived);
    var st := Reopen(d, r, h, revived);
    TrustedInAll(st, h, user);
    hide DiskWrites, ValidRecovery, SetRead, HistoryRead, ValidVersion, Trusted, Sound, Reopen;
    ReopenedLayers(d, r, h, revived, user, st.lastSequence);
    assert h[..|h|] == h;
    EntriesBelow(h);
    LateReadsAlike(Elements(h), |h|, user, st.lastSequence, |h|);
    HistoryOfAll(d, h, f, revived, user);
  }

  lemma TrustedInAll(st: State, h: seq<Entry>, user: UserKey)
    requires st.history == h && IsHistory(h) && |h| <= st.lastSequence && Trusted(st, user, |h|)
    ensures Sound(Elements(h), user, st.lastSequence, st.revived)
  {
    if user in st.revived {
      var i: nat :| st.revived[user] <= i < |h| && h[i].key.user == user;
      assert h[i] in Elements(h);
    }
  }

  lemma HistoryOfAll(d: Disk, h: seq<Entry>, f: nat, revived: Revivals, user: UserKey)
    requires DiskWrites(d, h, f, revived)
    ensures SetRead(Elements(h), user, |h|) == HistoryRead(h, user, |h|)
  {
    HistoryReadIsSetRead(h, user, |h|);
  }

  lemma EntriesBelow(h: seq<Entry>)
    ensures IsHistory(h) ==> Distinct(Elements(h)) && forall e :: e in Elements(h) ==> e.key.sequence <= |h|
  {
    if IsHistory(h) {
      HistorySlice(h, 0, |h|);
    }
  }

  lemma ReopenedLayers(d: Disk, r: Recovery, h: seq<Entry>, revived: Revivals, user: UserKey, s: nat)
    requires ValidRecovery(d, r)
    ensures Read(Reopen(d, r, h, revived), user, s) ==
            SetRead(VersionEntries(Reopen(d, r, h, revived).version), user, s)
  {
    hide Install, SetRead, VersionEntries;
  }

  lemma ReopenedSequence(d: Disk, r: Recovery, h: seq<Entry>, f: nat, revived: Revivals)
    requires DiskWrites(d, h, f, revived) && ValidRecovery(d, r) && f <= d.manifest.lastSequence
    ensures |h| <= Reopen(d, r, h, revived).lastSequence
  {
    assert h[f..] == h[f..|h|];
    MaxSequenceOfSlice(h, f, |h|);
  }

  lemma CutKeepsManifest(st: State, d: Disk, a: nat, b: nat)
    requires Inv(st) && CutsLogs(st, d, a, b)
    ensures DiskFlushed(st) <= d.manifest.lastSequence
  {
    DiskHoldsEverything(st);
  }

  /** A cut that leaves no gap, and any number of opens that crash: reads are those of the shorter history. */
  lemma CutReadsAsPrefix(st: State, d: Disk, a: nat, b: nat, disks: seq<Disk>, r: Recovery, user: UserKey)
    requires Inv(st) && CutsLogs(st, d, a, b) && NoGap(st, d, a, b) && Trusted(st, user, Left(st, d, a, b))
    requires disks != [] && disks[0] == d && ValidRecovery(disks[|disks| - 1], r)
    requires forall i :: 0 < i < |disks| ==> IsPartialOpen(disks[i - 1], disks[i])
    ensures Left(st, d, a, b) <= |st.history|
    ensures var c := Left(st, d, a, b);
            var st' := Reopen(disks[|disks| - 1], r, st.history[..c], st.revived);
            Read(st', user, st'.lastSequence) == HistoryRead(st.history, user, c)
  {
    hide Inv, DiskWrites, ValidRecovery, IsPartialOpen, Read, HistoryRead, DiskFlushed;
    var c, f, last := Left(st, d, a, b), DiskFlushed(st), disks[|disks| - 1];
    var h := st.history[..c];
    CutDiskHoldsPrefix(st, d, a, b);
    CutKeepsManifest(st, d, a, b);
    PartialOpensKeepDisk(disks, h, f, |disks| - 1, st.revived);
    ReopenedSequence(last, r, h, f, st.revived);
    TrustedInPrefix(st, Reopen(last, r, h, st.revived), user, c);
    ReopenedReads(last, r, h, f, st.revived, user);
    PrefixReads(st.history, user, c);
  }

  lemma PrefixReads(h: seq<Entry>, user: UserKey, c: nat)
    requires c <= |h|
    ensures HistoryRead(h[..c], user, c) == HistoryRead(h, user, c)
  {
    assert h == h[..c] + h[c..];
    HistoryReadIsStable(h[..c], h[c..], user, c);
  }

  lemma TrustedInPrefix(st: State, st': State, user: UserKey, c: nat)
    requires c <= |st.history| && st'.history == st.history[..c] && st'.revived == st.revived && Trusted(st, user, c)
    ensures Trusted(st', user, c)
  {
    if user in st.revived {
      var i: nat :| st.revived[user] <= i < c && st.history[i].key.user == user;
      assert st'.history[i] == st.history[i];
    }
  }

  /**
   A power loss at any point of a run that cuts both logs between groups and spares everything
   synced, and leaves no gap: the reopened database reads as an earlier state of the run, whole
   groups only, and no synced write is lost.
   */
  lemma PowerLossKeepsAPrefix(states: seq<State>, actions: seq<Action>, k: nat, d: Disk, a: nat, b: nat,
                              disks: seq<Disk>, r: Recovery, user: UserKey)
    requires IsRun(states, actions) && k < |states| && !states[k].overlapped
    requires CutsLogs(states[k], d, a, b) && NoGap(states[k], d, a, b)
    requires EndsAGroup(states, k, Left(states[k], d, a, b)) && KeepsSynced(states, actions, k, d, a, b)
    requires Trusted(states[k], user, Left(states[k], d, a, b))
    requires disks != [] && disks[0] == d && ValidRecovery(disks[|disks| - 1], r)
    requires forall i :: 0 < i < |disks| ==> IsPartialOpen(disks[i - 1], disks[i])
    ensures Left(states[k], d, a, b) <= |states[k].history|
    ensures var c := Left(states[k], d, a, b);
            var st' := Reopen(disks[|disks| - 1], r, states[k].history[..c], states[k].revived);
            && Read(st', user, st'.lastSequence) == HistoryRead(states[k].history, user, c)
            && (exists j :: 0 <= j <= k && states[k].history[..c] == states[j].history)
            && forall i {:trigger actions[i]} :: 0 <= i < k && actions[i].DoSync? ==>
                 states[i].history <= states[k].history[..c]
  {
    hide Inv, Read, HistoryRead, ValidRecovery, IsPartialOpen, IsInitial, Step, Reopen, Trusted;
    RunKeepsInv(states, actions, k);
    CutReadsAsPrefix(states[k], d, a, b, disks, r, user);
    var c := Left(states[k], d, a, b);
    var j :| 0 <= j <= k && |states[j].history| == c;
    RunExtendsHistory(states, actions, j, k);
    forall i | 0 <= i < k && actions[i].DoSync?
      ensures states[i].history <= states[k].history[..c]
    {
      RunExtendsHistory(states, actions, i, k);
      assert IsKept(states[k], d, a, b, |states[i].history|);
    }
  }

  // ----- both logs are cut

  /** Two stretches of the history make one if and only if nothing is missing between them, or nothing follows. */
  lemma NoGapIff(h: seq<Entry>, f: nat, a: nat, w: nat, b: nat)
    requires IsHistory(h) && f <= a <= w <= b <= |h|
    ensures (exists c: nat :: f <= c <= |h| && h[f..a] + h[w..b] == h[f..c]) <==> a == w || b == w
  {
    if a == w {
      assert h[f..a] + h[w..b] == h[f..b];
    } else if b == w {
      assert h[f..a] + h[w..b] == h[f..a];
    } else {
      forall c: nat | f <= c <= |h|
        ensures h[f..a] + h[w..b] != h[f..c]
      {
        GapShows(h, f, a, w, b, c);
      }
    }
  }

  lemma GapShows(h: seq<Entry>, f: nat, a: nat, w: nat, b: nat, c: nat)
    requires IsHistory(h) && f <= a <= w <= b <= |h| && f <= c <= |h|
    ensures h[f..a] + h[w..b] == h[f..c] ==> a == w || b == w
  {
    assert w < b ==> (h[f..a] + h[w..b])[a - f] == h[w];
    assert a < c ==> h[f..c][a - f] == h[a];
    assert a < |h| ==> h[a].key.sequence == a + 1;
    assert w < |h| ==> h[w].key.sequence == w + 1;
  }

  /**
   When the log of the immutable memtable is cut as well, what is replayed is a stretch of the
   history without a gap if and only if that log kept all its writes, the newest log kept none,
   or the older log is no longer needed.
   */
  lemma ReplayHasNoGapIff(st: State, d: Disk, a: nat, b: nat)
    requires Inv(st) && CutsLogs(st, d, a, b)
    ensures (exists c: nat :: DiskFlushed(st) <= c <= |st.history| && ReplayedLog(d) == st.history[DiskFlushed(st)..c])
            <==> NoGap(st, d, a, b)
  {
    ReplayOfCutLogs(st, d, a, b);
    LogNumberIsOne(st);
    HistoryOfState(st);
    hide Inv, ReplayedLog;
    var h := st.history;
    if d.manifest.logNumber == st.logFile {
      assert ReplayedLog(d) == h[DiskFlushed(st)..b];
    } else {
      NoGapIff(h, st.flushed, a, st.switched, b);
    }
  }

  lemma HistoryOfState(st: State)
    requires Inv(st)
    ensures IsHistory(st.history)
  {
  }

  lemma CutIsCut(st: State, a: nat, b: nat)
    requires st.flushed <= a <= st.switched <= b <= |st.history| && (st.imm.None? ==> a == st.switched)
    ensures CutsLogs(st, st.disk.(logs := CutLogs(st, a, b)), a, b)
  {
    hide CutLogs;
  }

  /** Until the background thread has recorded a flush, the manifest names the log of the immutable memtable. */
  lemma OlderLogIsNeeded(st: State)
    requires Inv(st) && st.imm.Some? && st.phase.Idle?
    ensures st.disk.manifest.logNumber == st.logNumber < st.logFile
  {
  }

  // ----- a run that loses a write in the middle

  const EARLY: Entry := Entry(InternalKey(0.0, 1, Put), "early")
  const LATE: Entry := Entry(InternalKey(1.0, 2, Put), "late")

  lemma StampsOfRun()
    ensures Stamp([Op(Put, 0.0, "early")], 1) == [EARLY] && Stamp([Op(Put, 1.0, "late")], 2) == [LATE]
  {
  }

  /** The first write is in a log that is never synced, the second in the next one. */
  lemma RunToLoggedLate() returns (st: State)
    ensures Reached(st) && !st.overlapped && st.history == [EARLY, LATE] && st.group == Some([LATE])
    ensures st.flushed == 0 && st.switched == 1 && st.imm.Some? && st.phase.Idle? && st.revived == map[]
    ensures st.version == [[], [], [], [], [], [], []] && st.logNumber == 3
  {
    hide Reached, Stamp, MemTable, Inv;
    StampsOfRun();
    var x := NewDatabase();
    var y := WriteGroup(x, [Op(Put, 0.0, "early")]);
    assert y.history == [EARLY];
    var z := SwitchMem(y);
    st := LogOnly(z, [Op(Put, 1.0, "late")]);
    assert st.history == [EARLY, LATE];
  }

  lemma ManifestIsCurrent(st: State)
    requires Inv(st) && st.phase.Idle?
    ensures st.disk.manifest.version == st.version
  {
    hide VersionsOk, TargetOk, RunningOk, ForegroundOk;
  }

  /** What the disk holds when all of the older log is lost. */
  lemma OlderLogLost(st: State) returns (d: Disk, r: Recovery)
    requires Inv(st) && st.history == [EARLY, LATE] && st.flushed == 0 && st.switched == 1
    requires st.imm.Some? && st.phase.Idle?
    ensures CutsLogs(st, d, 0, 2) && d.manifest.version == st.version && d.manifest.logNumber == st.logNumber
    ensures ReplayedLog(d) == [LATE] && ValidRecovery(d, r) && r.chunks == [[LATE]]
  {
    hide Inv, CutsLogs, CutLogs, ReplayedLog;
    d := st.disk.(logs := CutLogs(st, 0, 2));
    CutIsCut(st, 0, 2);
    ReplayOfCutLogs(st, d, 0, 2);
    OlderLogIsNeeded(st);
    ManifestIsCurrent(st);
    assert st.history[0..0] == [] && st.history[1..2] == [LATE];
    var number := d.manifest.nextFile + 1;
    r := Recovery([[LATE]], [number], [1], number + 1 + TopLog(d.logs));
    assert [[LATE]][..0] == [] && Flatten([[LATE]]) == Flatten([]) + [LATE];
  }

  /** The database that is opened from it. */
  lemma OpenedWithoutEarly(d: Disk, r: Recovery, h: seq<Entry>, revived: Revivals)
    requires ValidRecovery(d, r) && r.chunks == [[LATE]] && ReplayedLog(d) == [LATE]
    requires d.manifest.version == [[], [], [], [], [], [], []]
    ensures var st := Reopen(d, r, h, revived);
            && Read(st, 0.0, st.lastSequence) == NotFound && Read(st, 1.0, st.lastSequence) == Found("late")
  {
    var st := Reopen(d, r, h, revived);
    OnlyLateIsThere(d, r, h, revived);
    ReopenedLayers(d, r, h, revived, 0.0, st.lastSequence);
    ReopenedLayers(d, r, h, revived, 1.0, st.lastSequence);
    hide Reopen, ReplayedLog;
    assert IsNewest({LATE}, 1.0, st.lastSequence, LATE);
    NewestIsUnique({LATE}, 1.0, st.lastSequence, LATE);
    NewestIsNone({LATE}, 0.0, st.lastSequence);
  }

  lemma OnlyLateIsThere(d: Disk, r: Recovery, h: seq<Entry>, revived: Revivals)
    requires ValidRecovery(d, r) && r.chunks == [[LATE]] && ReplayedLog(d) == [LATE]
    requires d.manifest.version == [[], [], [], [], [], [], []]
    ensures VersionEntries(Reopen(d, r, h, revived).version) == {LATE}
    ensures Reopen(d, r, h, revived).lastSequence >= 2
  {
    hide ReplayedLog, Install, VersionEntries, MemTable;
    LateTable();
    var outs := RecoveredTables(r);
    assert outs == [outs[0]] && outs[0].entries == [LATE];
    OnlyTable(d.manifest.version, outs[0]);
    assert [LATE][..0] == [] && MaxSequence([LATE]) == 2;
  }

  lemma LateTable()
    ensures MemTable([LATE]) == [LATE]
  {
    MemTableStep([], LATE);
    assert [] + [LATE] == [LATE];
  }

  lemma OnlyTable(v: Version, t: Table)
    requires v == [[], [], [], [], [], [], []] && t.entries == [LATE]
    ensures VersionEntries(Install(v, Edit({}, AtLevel([t], 0)))) == {LATE}
  {
    var e := Edit({}, AtLevel([t], 0));
    var v' := Install(v, e);
    AtLevelMembers([t], 0);
    forall l: nat, u: Table | l < NUM_LEVELS
      ensures u in v'[l] <==> l == 0 && u == t
    {
      InstallMembers(v[l], e, l);
      assert v[l] == [];
    }
    hide Install;
    forall x
      ensures x in VersionEntries(v') <==> x == LATE
    {
      assert t in v'[0] && LATE in t.entries;
    }
  }

  lemma OneMoreOfRun(states: seq<State>, actions: seq<Action>, a: Action, st': State)
    requires IsRun(states, actions) && |states| == |actions| + 1 && Step(states[|actions|], a, st')
    ensures IsRun(states + [st'], actions + [a])
  {
    hide IsInitial, Step;
    forall i | 0 <= i < |actions + [a]|
      ensures Step((states + [st'])[i], (actions + [a])[i], (states + [st'])[i + 1])
    {
      if i < |actions| {
        assert Step(states[i], actions[i], states[i + 1]);
      }
    }
  }

  /** The second write is synced and published. */
  lemma SyncAndPublish(st: State) returns (states: seq<State>, actions: seq<Action>)
    requires Reached(st) && st.group == Some([LATE]) && st.history == [EARLY, LATE]
    ensures IsRun(states, actions) && |states| == |actions| + 1 && |actions| >= 3
    ensures SameButWrites(st, states[|actions|]) && states[|actions|].overlapped == st.overlapped
    ensures states[|actions|].history == st.history && states[|actions|].lastSequence == 2
    ensures states[|actions| - 3] == st
    ensures forall i :: 0 <= i < |actions| ==> (actions[i].DoSync? <==> i == |actions| - 3)
  {
    hide Inv, IsInitial;
    var states0, actions0 :| EndsIn(states0, actions0, st);
    RunLength(states0, actions0);
    hide Step, IsRun;
    var b := InsertNext(st);
    assert st.group.value[1..] == [];
    StepsToPublish(st);
    OneMoreOfRun(states0, actions0, DoSync, st);
    OneMoreOfRun(states0 + [st], actions0 + [DoSync], DoInsertNext, b);
    OneMoreOfRun(states0 + [st] + [b], actions0 + [DoSync] + [DoInsertNext], DoPublish, Publish(b));
    states := states0 + [st] + [b] + [Publish(b)];
    actions := actions0 + [DoSync] + [DoInsertNext] + [DoPublish];
  }

  lemma StepsToPublish(st: State)
    requires st.group == Some([LATE])
    ensures Step(st, DoSync, st) && Step(st, DoInsertNext, InsertNext(st))
    ensures CanPublish(InsertNext(st)) && Step(InsertNext(st), DoPublish, Publish(InsertNext(st)))
  {
    assert st.group.value[1..] == [];
  }

  /**
   The first write goes to a log that is never synced; the memtable is switched; the second
   write is synced and published.  The power fails and what had not been synced is lost: in the
   reopened database the first write is gone, and the second is there.
   */
  lemma SyncedWriteOutlivesEarlierOne() returns (states: seq<State>, actions: seq<Action>, d: Disk, r: Recovery,
                                                 st': State)
    ensures IsRun(states, actions) && |states| == |actions| + 1
    ensures var st := states[|actions|];
            && st.history == [EARLY, LATE] && st.lastSequence == 2 && Read(st, 0.0, 2) == Found("early")
            && CutsLogs(st, d, 0, 2) && KeepsSynced(states, actions, |actions|, d, 0, 2)
            && ValidRecovery(d, r) && st' == Reopen(d, r, st.history, st.revived)
    ensures Read(st', 0.0, st'.lastSequence) == NotFound && Read(st', 1.0, st'.lastSequence) == Found("late")
  {
    hide Reached, Inv, IsRun, CutsLogs, ValidRecovery, Reopen, ReplayedLog, Read, HistoryRead, InsertEntry;
    var a := RunToLoggedLate();
    states, actions := SyncAndPublish(a);
    var st := states[|actions|];
    RunKeepsInv(states, actions, |actions|);
    d, r := OlderLogLost(st);
    st' := Reopen(d, r, st.history, st.revived);
    OpenedWithoutEarly(d, r, st.history, st.revived);
    ReadIsHistoryRead(st, 0.0, 2);
    HistoryOfTwo();
  }

  lemma HistoryOfTwo()
    ensures HistoryRead([EARLY, LATE], 0.0, 2) == Found("early")
  {
    assert HistoryRead([EARLY, LATE], 0.0, 1) == Found("early");
  }
}
