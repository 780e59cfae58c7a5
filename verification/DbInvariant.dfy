/**
 What every state of the database satisfies, and why each foreground step keeps it.
 */
module DbInvariant {
  import opened Optional
  import opened InternalKeys
  import opened ReadSpec
  import opened Versions
  import opened CompactionSetup
  import opened CompactionMerge
  import opened VersionBuilder
  import opened Installing
  import opened Flushing
  import opened CompactionReads
  import opened RunningCompaction
  import opened MemTables
  import opened DbState

  ghost predicate HistoryOk(h: seq<Entry>) {
    IsHistory(h) && |h| < MAX_SEQUENCE
  }

  /** The key was not revived, or has been written since. */
  ghost predicate Sound(writes: set<Entry>, user: UserKey, s: nat, revived: Revivals) {
    user in revived ==> exists e :: e in writes && Candidate(e, user, s) && e.key.sequence > revived[user]
  }

  /** At or above `floor` the entries read as the writes do. */
  ghost predicate ReadsAsWrites(es: set<Entry>, writes: set<Entry>, floor: nat, revived: Revivals) {
    forall user, s :: s >= floor && Sound(writes, user, s, revived) ==>
      SetRead(es, user, s) == SetRead(writes, user, s)
  }

  /**
   `v` holds only writes among the first `f`, and at or above `floor` reads as those first `f`
   writes do, but perhaps for keys that were revived.
   */
  ghost predicate HoldsWrites(v: Version, h: seq<Entry>, f: nat, floor: nat, revived: Revivals) {
    && f <= |h|
    && VersionEntries(v) <= Elements(h[..f])
    && ReadsAsWrites(VersionEntries(v), Elements(h[..f]), floor, revived)
    && forall user :: user in revived ==> revived[user] <= f
  }

  /** Besides, `v` satisfies invariants (a) to (c). */
  ghost predicate VersionOk(v: Version, h: seq<Entry>, f: nat, floor: nat, revived: Revivals) {
    ValidVersion(v) && HoldsWrites(v, h, f, floor, revived)
  }

  ghost predicate NumbersBelow(v: Version, n: nat) {
    forall m :: m in VersionNumbers(v) ==> m < n
  }

  ghost predicate OnDisk(v: Version, tables: map<nat, seq<Entry>>) {
    forall l, t :: 0 <= l < NUM_LEVELS && t in v[l] ==> t.number in tables && tables[t.number] == t.entries
  }

  function Pending(st: State): nat {
    if st.group.Some? then |st.group.value| else 0
  }

  /** Tables hold the first `flushed` writes, `imm` the next up to `switched`, `mem` and `group` the rest. */
  ghost predicate CountersOk(st: State) {
    && st.flushed <= st.switched <= st.lastSequence <= |st.history|
    && st.lastSequence + Pending(st) <= |st.history|
    && (st.group.None? ==> st.lastSequence == |st.history|)
    && (st.group.Some? ==> st.group.value == st.history[|st.history| - Pending(st)..])
    && (st.imm.None? ==> st.flushed == st.switched)
  }

  ghost predicate MemOk(st: State)
    requires CountersOk(st)
  {
    && st.mem == MemTable(st.history[st.switched..|st.history| - Pending(st)])
    && (st.imm.Some? ==> st.imm.value == MemTable(st.history[st.flushed..st.switched]))
  }

  ghost predicate SnapshotsOk(st: State) {
    && (forall i, j :: 0 <= i < j < |st.snapshots| ==> st.snapshots[i] <= st.snapshots[j])
    && (forall s :: s in st.snapshots ==> s <= st.lastSequence)
  }

  ghost predicate LogsOk(st: State)
    requires CountersOk(st)
  {
    var logs := st.disk.logs;
    && st.logFile in logs && logs[st.logFile] == st.history[st.switched..]
    && st.logFile < st.nextFile && (forall n :: n in logs ==> n <= st.logFile)
    && (if st.imm.Some?
        then st.logNumber < st.logFile && st.logNumber in logs
             && logs[st.logNumber] == st.history[st.flushed..st.switched]
             && NoLogs(logs, st.logNumber + 1, st.logFile)
        else st.logNumber == st.logFile)
  }

  // ----- the background thread

  predicate HasEdit(p: Phase) {
    p.Built? || p.Prepared? || p.Recorded?
  }

  /** The version the background thread is about to install, if any. */
  function Target(st: State): Version {
    if HasEdit(st.phase) then Install(st.version, st.phase.edit) else st.version
  }

  function TargetFlushed(st: State): nat {
    if HasEdit(st.phase) && st.phase.flush then st.switched else st.flushed
  }

  function TargetLogNumber(st: State): nat {
    if HasEdit(st.phase) && st.phase.flush then st.logFile else st.logNumber
  }

  /** The outputs of a merge may overlap another table as long as no record names them. */
  predicate MayOverlap(p: Phase) {
    (p.Built? || p.Prepared?) && !p.flush
  }

  ghost predicate TargetOk(st: State) {
    && HoldsWrites(Target(st), st.history, TargetFlushed(st), st.SmallestSnapshot(), st.revived)
    && (!MayOverlap(st.phase) ==> ValidVersion(Target(st)))
    && (HasEdit(st.phase) ==> (ValidVersion(Target(st)) <==> EditFits(st.version, st.phase.edit)))
    && NumbersBelow(Target(st), st.nextFile)
    && OnDisk(Target(st), st.disk.tables)
    && (HasEdit(st.phase) && st.phase.flush ==> st.imm.Some?)
    && (HasEdit(st.phase) && !st.phase.flush ==>
       VersionNumbers(Target(st)) <= VersionNumbers(st.version) + st.pendingOutputs)
  }

  ghost predicate RunningOk(st: State) {
    st.running.Some? ==>
      && FitsIn(st.running.value.base, st.version, st.running.value.plan)
      && FitsIn(st.running.value.base, Target(st), st.running.value.plan)
      && st.running.value.snap <= st.SmallestSnapshot()
      && (HasEdit(st.phase) ==> st.phase.flush)
  }

  ghost predicate ManifestOk(st: State, m: Manifest, v: Version, f: nat, logNumber: nat) {
    && m.version == v && m.logNumber == logNumber
    && f <= m.lastSequence <= st.lastSequence
    && m.nextFile <= st.nextFile && NumbersBelow(v, m.nextFile)
  }

  ghost predicate ManifestsOk(st: State) {
    && (st.phase.Prepared? ==> ManifestOk(st, st.phase.record, Target(st), TargetFlushed(st), TargetLogNumber(st)))
    && if st.phase.Recorded?
       then ManifestOk(st, st.disk.manifest, Target(st), TargetFlushed(st), TargetLogNumber(st))
       else ManifestOk(st, st.disk.manifest, st.version, st.flushed, st.logNumber)
  }

  ghost predicate VersionsOk(st: State) {
    && VersionOk(st.version, st.history, st.flushed, st.SmallestSnapshot(), st.revived)
    && NumbersBelow(st.version, st.nextFile) && OnDisk(st.version, st.disk.tables)
    && forall v :: v in st.pinned ==> NumbersBelow(v, st.nextFile) && OnDisk(v, st.disk.tables)
  }

  /** The memtables, the snapshots and the logs. */
  ghost predicate ForegroundOk(st: State) {
    HistoryOk(st.history) && CountersOk(st) && MemOk(st) && SnapshotsOk(st) && LogsOk(st)
  }

  /** The versions, the table files and the manifest. */
  ghost predicate BackgroundOk(st: State) {
    VersionsOk(st) && TargetOk(st) && RunningOk(st) && ManifestsOk(st) && !st.overlapped
  }

  ghost predicate Inv(st: State) {
    ForegroundOk(st) && BackgroundOk(st)
  }

  // ----- steps that touch one half only

  ghost predicate SameForeground(st: State, st': State) {
    && st'.history == st.history && st'.flushed == st.flushed && st'.switched == st.switched
    && st'.mem == st.mem && st'.imm == st.imm && st'.group == st.group && st'.lastSequence == st.lastSequence
    && st'.snapshots == st.snapshots && st'.logFile == st.logFile && st'.logNumber == st.logNumber
    && st'.disk.logs == st.disk.logs && st.nextFile <= st'.nextFile
  }

  lemma ForegroundKept(st: State, st': State)
    requires ForegroundOk(st) && SameForeground(st, st')
    ensures ForegroundOk(st')
  {
  }

  /** Nothing but the history, the memtable, the group and LastSequence differ. */
  ghost predicate SameBackground(st: State, st': State) {
    && st'.flushed == st.flushed && st'.switched == st.switched && st'.imm == st.imm
    && st'.version == st.version && st'.nextFile == st.nextFile
    && st'.logFile == st.logFile && st'.logNumber == st.logNumber
    && st'.snapshots == st.snapshots && st'.pinned == st.pinned && st'.pendingOutputs == st.pendingOutputs
    && st'.running == st.running && st'.phase == st.phase && st'.revived == st.revived
    && st'.overlapped == st.overlapped && st'.disk.tables == st.disk.tables
    && st'.disk.manifest == st.disk.manifest
  }

  /** More writes, a higher LastSequence. */
  lemma BackgroundKept(st: State, st': State, more: seq<Entry>)
    requires BackgroundOk(st) && SameBackground(st, st')
    requires st'.history == st.history + more && st.lastSequence <= st'.lastSequence
    ensures BackgroundOk(st')
  {
    hide HoldsWrites, ValidVersion, EditFits;
    HoldsWritesExtends(st.version, st.history, more, st.flushed, st.SmallestSnapshot(), st.revived);
    HoldsWritesExtends(Target(st), st.history, more, TargetFlushed(st), st.SmallestSnapshot(), st.revived);
    HoldsWritesAbove(st.version, st'.history, st.flushed, st.SmallestSnapshot(), st'.SmallestSnapshot(), st.revived);
    HoldsWritesAbove(Target(st), st'.history, TargetFlushed(st), st.SmallestSnapshot(), st'.SmallestSnapshot(),
        st.revived);
  }

  // ----- facts about the pieces

  lemma HistorySlice(h: seq<Entry>, a: nat, b: nat)
    requires IsHistory(h) && a <= b <= |h|
    ensures Increasing(h[a..b]) && Distinct(Elements(h)) && Elements(h[a..b]) <= Elements(h)
    ensures forall e :: e in h[a..b] ==> a < e.key.sequence <= b
  {
    forall i, j | 0 <= i < j < b - a
      ensures h[a..b][i].key.sequence < h[a..b][j].key.sequence
    {
      assert h[a..b][i] == h[a + i] && h[a..b][j] == h[a + j];
    }
  }

  lemma SliceExtends(h: seq<Entry>, more: seq<Entry>, a: nat, b: nat)
    requires a <= b <= |h|
    ensures (h + more)[a..b] == h[a..b] && (h + more)[a..] == h[a..] + more && (h + more)[..b] == h[..b]
  {
  }

  lemma HoldsWritesExtends(v: Version, h: seq<Entry>, more: seq<Entry>, f: nat, floor: nat, revived: Revivals)
    requires HoldsWrites(v, h, f, floor, revived)
    ensures HoldsWrites(v, h + more, f, floor, revived)
  {
    SliceExtends(h, more, f, f);
  }

  lemma HoldsWritesAbove(v: Version, h: seq<Entry>, f: nat, floor: nat, floor': nat, revived: Revivals)
    requires HoldsWrites(v, h, f, floor, revived) && floor <= floor'
    ensures HoldsWrites(v, h, f, floor', revived)
  {
  }

  /** More revivals, and later ones, excuse more. */
  lemma HoldsWritesBut(v: Version, h: seq<Entry>, f: nat, floor: nat, revived: Revivals, users: set<UserKey>)
    requires HoldsWrites(v, h, f, floor, revived)
    ensures HoldsWrites(v, h, f, floor, WithRevived(revived, users, f))
  {
    var more := WithRevived(revived, users, f);
    forall user, s | s >= floor && Sound(Elements(h[..f]), user, s, more)
      ensures SetRead(VersionEntries(v), user, s) == SetRead(Elements(h[..f]), user, s)
    {
      assert Sound(Elements(h[..f]), user, s, revived);
    }
  }

  lemma SmallestIsLeast(st: State)
    requires SnapshotsOk(st)
    ensures st.SmallestSnapshot() <= st.lastSequence
    ensures forall s: nat :: Readable(st, s) ==> st.SmallestSnapshot() <= s <= st.lastSequence
  {
    forall s | s in st.snapshots
      ensures st.SmallestSnapshot() <= s
    {
      var i :| 0 <= i < |st.snapshots| && st.snapshots[i] == s;
    }
    if st.snapshots != [] {
      assert st.snapshots[0] in st.snapshots;
    }
  }

  // ----- writing

  lemma StampContinues(h: seq<Entry>, ops: seq<Op>)
    requires IsHistory(h)
    ensures IsHistory(h + Stamp(ops, |h| + 1))
  {
  }

  lemma LogGroupKeepsLayers(st: State, ops: seq<Op>)
    requires HistoryOk(st.history) && CountersOk(st) && MemOk(st) && LogsOk(st) && CanLogGroup(st, ops)
    ensures HistoryOk(LogGroup(st, ops).history) && CountersOk(LogGroup(st, ops))
    ensures MemOk(LogGroup(st, ops)) && LogsOk(LogGroup(st, ops))
  {
    var st' := LogGroup(st, ops);
    var h, es := st.history, Stamp(ops, |st.history| + 1);
    StampContinues(h, ops);
    assert st'.history == h + es && st'.group == Some(es);
    SliceExtends(h, es, st.switched, |h|);
    SliceExtends(h, es, st.flushed, st.switched);
    assert (h + es)[|h|..] == es;
    assert st'.history[st.switched..|st'.history| - Pending(st')] == h[st.switched..];
    assert h[st.switched..|h|] == h[st.switched..];
  }

  lemma LogGroupKeepsInv(st: State, ops: seq<Op>)
    requires Inv(st) && CanLogGroup(st, ops)
    ensures Inv(LogGroup(st, ops))
  {
    hide VersionOk, HistoryOk, MemOk, LogsOk;
    LogGroupKeepsLayers(st, ops);
    BackgroundKept(st, LogGroup(st, ops), Stamp(ops, st.lastSequence + 1));
  }

  lemma InsertNextKeepsMem(st: State)
    requires HistoryOk(st.history) && CountersOk(st) && MemOk(st) && CanInsertNext(st)
    ensures CountersOk(InsertNext(st)) && MemOk(InsertNext(st))
  {
    var h, n := st.history, |st.history| - Pending(st);
    assert h[st.switched..n + 1] == h[st.switched..n] + [h[n]];
    MemTableStep(h[st.switched..n], h[n]);
    assert st.group.value[0] == h[n] && st.group.value[1..] == h[n + 1..];
  }

  lemma InsertNextKeepsInv(st: State)
    requires Inv(st) && CanInsertNext(st)
    ensures Inv(InsertNext(st))
  {
    InsertNextKeepsMem(st);
    assert st.history == st.history + [];
    BackgroundKept(st, InsertNext(st), []);
  }

  lemma PublishKeepsInv(st: State)
    requires Inv(st) && CanPublish(st)
    ensures Inv(Publish(st))
  {
    var st' := Publish(st);
    assert ForegroundOk(st');
    assert st.history == st.history + [];
    BackgroundKept(st, st', []);
  }

  lemma SwitchKeepsInv(st: State)
    requires Inv(st) && CanSwitch(st)
    ensures Inv(Switch(st))
  {
    var st' := Switch(st);
    assert st.history[|st.history|..] == [];
    assert st.history[st.switched..|st.history|] == st.history[st.switched..];
    assert MemOk(st');
    assert LogsOk(st');
    assert Target(st') == Target(st);
  }
}
