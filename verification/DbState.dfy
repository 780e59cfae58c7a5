/**
 The database as a state machine (db/db_impl.cc, db/version_set.cc).

 One step is one stretch of code under the mutex, or one write that becomes durable while
 the mutex is released: appending a group to the log, adding an entry to the memtable,
 publishing LastSequence, switching memtables, and the stages of a flush, a trivial move or a
 compaction (merge, tables written, manifest record computed, record written, version
 installed).  While a merge runs, the memtable may be switched and flushed any number of times.
 A crash keeps the disk and nothing else.
 */
module DbState {
  import opened Optional
  import opened InternalKeys
  import opened ReadSpec
  import opened Versions
  import opened CompactionSetup
  import opened CompactionMerge
  import opened VersionBuilder
  import opened Installing
  import opened Flushing
  import opened CompactionReads
  import opened MemTables

  // ----- state

  /** What the manifest says once all its records are applied. */
  datatype Manifest = Manifest(version: Version, logNumber: nat, nextFile: nat, lastSequence: nat)

  datatype Disk = Disk(manifest: Manifest, logs: map<nat, seq<Entry>>, tables: map<nat, seq<Entry>>)

  /** The compaction whose merge is under way: its inputs, its smallest snapshot, the version it started from. */
  datatype Running = Running(plan: Plan, snap: nat, base: Version)

  /** How far the background thread has come with the edit it is to install; a merge lets flushes go first. */
  datatype Phase =
    | Idle
    | Built(edit: Edit, flush: bool)
    | Prepared(edit: Edit, flush: bool, record: Manifest)
    | Recorded(edit: Edit, flush: bool)

  type Revivals = map<UserKey, nat>

  /**
   `history`, `flushed` and `switched` are auxiliary: all writes so far, how many of them
   have gone to tables, and how many had been made when the memtable was last switched.
   `group` holds what is still to be added to `mem` of the group now being written.
   `revived`, auxiliary as well, has the keys that some compaction has brought back to life, with
   the number of writes in tables at that time, and `overlapped` says whether an output has been
   installed that overlaps another table of its level.
   */
  datatype State = State(
    history: seq<Entry>, flushed: nat, switched: nat,
    mem: seq<Entry>, imm: Option<seq<Entry>>, group: Option<seq<Entry>>,
    version: Version, lastSequence: nat, nextFile: nat, logFile: nat, logNumber: nat,
    snapshots: seq<nat>, pinned: seq<Version>, pendingOutputs: set<nat>, running: Option<Running>, phase: Phase,
    disk: Disk, revived: Revivals, overlapped: bool)
  {
    /** smallest_snapshot of DoCompactionWork. */
    function SmallestSnapshot(): nat {
      if snapshots == [] then lastSequence else snapshots[0]
    }
  }

  // ----- writing

  datatype Op = Op(kind: ValueType, user: UserKey, value: Value)

  /** The operations of a group, numbered from `first`. */
  function Stamp(ops: seq<Op>, first: nat): seq<Entry> {
    seq(|ops|, i requires 0 <= i < |ops| =>
      Entry(InternalKey(ops[i].user, first + i, ops[i].kind), if ops[i].kind.Put? then ops[i].value else ""))
  }

  predicate CanLogGroup(st: State, ops: seq<Op>) {
    st.group.None? && ops != [] && |st.history| + |ops| < MAX_SEQUENCE && st.logFile in st.disk.logs
  }

  /** The front writer appends its group to the log. */
  function LogGroup(st: State, ops: seq<Op>): State
    requires CanLogGroup(st, ops)
  {
    var es := Stamp(ops, st.lastSequence + 1);
    st.(history := st.history + es, group := Some(es),
        disk := st.disk.(logs := st.disk.logs[st.logFile := st.disk.logs[st.logFile] + es]))
  }

  /** After appending, a group with a sync writer forces the newest log to the disk. */
  predicate CanSync(st: State) {
    st.group.Some?
  }

  predicate CanInsertNext(st: State) {
    st.group.Some? && st.group.value != []
  }

  function InsertNext(st: State): State
    requires CanInsertNext(st)
  {
    st.(mem := InsertEntry(st.mem, st.group.value[0]), group := Some(st.group.value[1..]))
  }

  predicate CanPublish(st: State) {
    st.group == Some([])
  }

  /** SetLastSequence: the whole group becomes readable at once. */
  function Publish(st: State): State
    requires CanPublish(st)
  {
    st.(group := None, lastSequence := |st.history|)
  }

  predicate CanSwitch(st: State) {
    st.group.None? && st.imm.None?
  }

  /** MakeRoomForWrite: a new log and an empty memtable; the old one becomes immutable. */
  function Switch(st: State): State
    requires CanSwitch(st)
  {
    st.(imm := Some(st.mem), mem := [], switched := |st.history|,
        logFile := st.nextFile, nextFile := st.nextFile + 1,
        disk := st.disk.(logs := st.disk.logs[st.nextFile := []]))
  }

  // ----- background work

  ghost predicate CanBuildFlush(st: State, level: nat) {
    && st.phase.Idle? && st.imm.Some?
    && level <= MAX_MEM_COMPACT_LEVEL
    && (level > 0 && st.imm.value != [] ==>
          ClearDownTo(st.version, level, st.imm.value[0].key.user, st.imm.value[|st.imm.value| - 1].key.user))
  }

  /** Write the immutable memtable as a table; an empty one leaves no table. */
  function BuildFlush(st: State, level: nat, size: nat): State
    requires st.imm.Some?
  {
    var es := st.imm.value;
    if es == [] then st.(phase := Built(Edit({}, []), true), nextFile := st.nextFile + 1)
    else
      st.(phase := Built(FlushEdit(level, Table(st.nextFile, size, es)), true), nextFile := st.nextFile + 1,
          disk := st.disk.(tables := st.disk.tables[st.nextFile := es]))
  }

  ghost predicate CanStartCompaction(st: State, plan: Plan) {
    && st.phase.Idle? && st.running.None?
    && SafeInputs(st.version, plan.level, plan.inputs0, plan.inputs1)
  }

  function StartCompaction(st: State, plan: Plan): State {
    st.(running := Some(Running(plan, st.SmallestSnapshot(), st.version)))
  }

  /** The merge is done. */
  ghost predicate CanBuildCompaction(st: State, input: seq<Entry>, outs: seq<Table>, next: nat) {
    && st.phase.Idle? && st.running.Some?
    && IsCompaction(st.running.value.base, st.running.value.plan, input, st.running.value.snap, outs)
    && st.nextFile <= next && (forall t :: t in outs ==> st.nextFile <= t.number < next)
  }

  function TablesOnDisk(outs: seq<Table>): map<nat, seq<Entry>> {
    if outs == [] then map[]
    else TablesOnDisk(outs[..|outs| - 1])[outs[|outs| - 1].number := outs[|outs| - 1].entries]
  }

  function WithRevived(revived: Revivals, users: set<UserKey>, flushed: nat): Revivals {
    revived + map user | user in users :: flushed
  }

  ghost function BuildCompaction(st: State, outs: seq<Table>, next: nat): State
    requires st.running.Some?
  {
    var r := st.running.value;
    st.(phase := Built(ReplaceEdit(r.plan, outs), false), running := None, nextFile := next,
        pendingOutputs := st.pendingOutputs + set t | t in outs :: t.number,
        disk := st.disk.(tables := st.disk.tables + TablesOnDisk(outs)),
        revived := WithRevived(st.revived, RevivedBy(st.version, r.plan, r.snap), st.flushed))
  }

  ghost predicate CanMove(st: State, plan: Plan) {
    && st.phase.Idle? && st.running.None?
    && SafeInputs(st.version, plan.level, plan.inputs0, plan.inputs1)
    && |plan.inputs0| == 1 && plan.inputs1 == []
  }

  /** A trivial move: the same table, one level down. */
  function Move(st: State, plan: Plan): State {
    st.(phase := Built(ReplaceEdit(plan, plan.inputs0), false))
  }

  predicate CanPrepare(st: State) {
    st.phase.Built?
  }

  /** LogAndApply up to the point where it releases the mutex. */
  function Prepare(st: State): State
    requires CanPrepare(st)
  {
    st.(phase := Prepared(st.phase.edit, st.phase.flush,
                          Manifest(Install(st.version, st.phase.edit),
                                   if st.phase.flush then st.logFile else st.logNumber,
                                   st.nextFile, st.lastSequence)))
  }

  predicate CanRecord(st: State) {
    st.phase.Prepared?
  }

  /** The manifest record becomes durable. */
  ghost function Record(st: State): State
    requires CanRecord(st)
  {
    st.(phase := Recorded(st.phase.edit, st.phase.flush), disk := st.disk.(manifest := st.phase.record),
        overlapped := st.overlapped || !EditFits(st.version, st.phase.edit))
  }

  predicate CanInstall(st: State) {
    st.phase.Recorded? && (st.phase.flush ==> st.imm.Some?)
  }

  /** The new version becomes current; after a flush the immutable memtable and its log are done with. */
  function InstallCurrent(st: State): State
    requires CanInstall(st)
  {
    var st' := st.(version := Install(st.version, st.phase.edit), phase := Idle);
    if st.phase.flush then st'.(imm := None, flushed := st.switched, logNumber := st.logFile)
    else st'.(pendingOutputs := {})
  }

  // ----- snapshots, pinned versions, garbage

  function TakeSnapshot(st: State): State {
    st.(snapshots := st.snapshots + [st.lastSequence])
  }

  predicate CanRelease(st: State, i: nat) {
    i < |st.snapshots|
  }

  function Release(st: State, i: nat): State
    requires CanRelease(st, i)
  {
    st.(snapshots := st.snapshots[..i] + st.snapshots[i + 1..])
  }

  /** A reader or an iterator holds on to the current version. */
  function Pin(st: State): State {
    st.(pinned := st.pinned + [st.version])
  }

  function Unpin(st: State, i: nat): State
    requires i < |st.pinned|
  {
    st.(pinned := st.pinned[..i] + st.pinned[i + 1..])
  }

  function VersionNumbers(v: Version): set<nat> {
    set l, t | 0 <= l < NUM_LEVELS && t in v[l] :: t.number
  }

  /** File numbers of every table of a live version. */
  function LiveFiles(st: State): set<nat> {
    VersionNumbers(st.version) + set v, n | v in st.pinned && n in VersionNumbers(v) :: n
  }

  /** The background thread collects garbage when no flush of its own is under way. */
  predicate CanCollect(st: State) {
    st.phase.Idle? || !st.phase.flush
  }

  /** DeleteObsoleteFiles. */
  function Collect(st: State): State {
    var live := LiveFiles(st) + st.pendingOutputs;
    st.(disk := st.disk.(
          logs := map n | n in st.disk.logs && n >= st.logNumber :: st.disk.logs[n],
          tables := map n | n in st.disk.tables && n in live :: st.disk.tables[n]))
  }

  // ----- crash and recovery

  /** The replayed logs, cut into memtables, and the file numbers recovery allocates. */
  datatype Recovery = Recovery(chunks: seq<seq<Entry>>, numbers: seq<nat>, sizes: seq<nat>, newLog: nat)

  ghost function TopLog(logs: map<nat, seq<Entry>>): nat {
    MaxPlusOne(logs.Keys)
  }

  ghost function MaxPlusOne(s: set<nat>): (r: nat)
    ensures forall n :: n in s ==> n < r
    ensures r > 0 ==> r - 1 in s
  {
    if s == {} then 0
    else
      var n :| n in s;
      var rest := MaxPlusOne(s - {n});
      assert forall m :: m in s ==> m == n || m in s - {n};
      if rest <= n then n + 1 else rest
  }

  /** All logs the manifest has not made obsolete, in the order in which they were generated. */
  ghost function ReplayedLog(d: Disk): seq<Entry> {
    ConcatLogs(d.logs, d.manifest.logNumber, TopLog(d.logs))
  }

  /** The largest sequence number replayed. */
  function MaxSequence(es: seq<Entry>): nat {
    if es == [] then 0
    else
      var m, n := MaxSequence(es[..|es| - 1]), es[|es| - 1].key.sequence;
      if n > m then n else m
  }

  ghost predicate ValidRecovery(d: Disk, r: Recovery) {
    && |r.chunks| == |r.numbers| == |r.sizes|
    && NoneEmpty(r.chunks) && Flatten(r.chunks) == ReplayedLog(d)
    && (forall i :: 0 <= i < |r.numbers| ==> d.manifest.nextFile < r.numbers[i] < r.newLog)
    && (forall i, j :: 0 <= i < j < |r.numbers| ==> r.numbers[i] < r.numbers[j])
    && TopLog(d.logs) <= r.newLog && d.manifest.nextFile < r.newLog
  }

  /** RecoverLogFile writes each memtable it fills as a level-0 table. */
  function RecoveredTable(chunk: seq<Entry>, number: nat, size: nat): Table
    requires chunk != []
  {
    MemTableIsEmpty(chunk);
    Table(number, size, MemTable(chunk))
  }

  function RecoveredTables(r: Recovery): seq<Table>
    requires |r.chunks| == |r.numbers| == |r.sizes| && NoneEmpty(r.chunks)
  {
    assert forall i :: 0 <= i < |r.chunks| ==> r.chunks[i] in r.chunks;
    seq(|r.chunks|, i requires 0 <= i < |r.chunks| => RecoveredTable(r.chunks[i], r.numbers[i], r.sizes[i]))
  }

  /** DB::Open on what the disk holds; `h` and `revived` are carried along. */
  ghost function Reopen(d: Disk, r: Recovery, h: seq<Entry>, revived: Revivals): State
    requires ValidRecovery(d, r)
  {
    var outs := RecoveredTables(r);
    var version := Install(d.manifest.version, Edit({}, AtLevel(outs, 0)));
    var replayed := MaxSequence(ReplayedLog(d));
    var last := if d.manifest.lastSequence < replayed then replayed else d.manifest.lastSequence;
    State(h, |h|, |h|, [], None, None, version, last, r.newLog + 1, r.newLog, r.newLog, [], [], {}, None, Idle,
          Disk(Manifest(version, r.newLog, r.newLog + 1, last), d.logs[r.newLog := []], d.tables + TablesOnDisk(outs)),
          revived, false)
  }

  /** What an open that crashes before its manifest record may leave behind: tables nobody refers to, empty logs. */
  ghost predicate IsPartialOpen(d: Disk, d': Disk) {
    && d'.manifest == d.manifest
    && (forall n :: n in d.tables && n in VersionNumbers(d.manifest.version) ==>
       n in d'.tables && d'.tables[n] == d.tables[n])
    && (forall n :: n in d.logs ==> n in d'.logs && d'.logs[n] == d.logs[n])
    && (forall n :: n in d'.logs && n !in d.logs ==> n >= TopLog(d.logs) && d'.logs[n] == [])
  }

  /** The disk of a database that has just been created. */
  const NEW_DISK: Disk := Disk(Manifest([[], [], [], [], [], [], []], 0, 2, 0), map[], map[])

  ghost predicate IsInitial(st: State) {
    exists r :: ValidRecovery(NEW_DISK, r) && st == Reopen(NEW_DISK, r, [], map[])
  }

  /** A crash, any number of opens that crash too, and an open that succeeds. */
  ghost predicate CrashesTo(st: State, disks: seq<Disk>, r: Recovery, st': State) {
    && disks != [] && disks[0] == st.disk
    && (forall i :: 0 < i < |disks| ==> IsPartialOpen(disks[i - 1], disks[i]))
    && ValidRecovery(disks[|disks| - 1], r)
    && st' == Reopen(disks[|disks| - 1], r, st.history, st.revived).(overlapped := st.overlapped)
  }

  // ----- the transition relation

  datatype Action =
    | DoLogGroup(ops: seq<Op>)
    | DoSync
    | DoInsertNext
    | DoPublish
    | DoSwitch
    | DoBuildFlush(level: nat, size: nat)
    | DoStartCompaction(plan: Plan)
    | DoBuildCompaction(input: seq<Entry>, outs: seq<Table>, next: nat)
    | DoMove(plan: Plan)
    | DoPrepare
    | DoRecord
    | DoInstall
    | DoTakeSnapshot
    | DoRelease(i: nat)
    | DoPin
    | DoUnpin(i: nat)
    | DoCollect
    | DoCrash(disks: seq<Disk>, recovery: Recovery)

  ghost predicate Step(st: State, a: Action, st': State) {
    match a
    case DoLogGroup(ops) => CanLogGroup(st, ops) && st' == LogGroup(st, ops)
    case DoSync => CanSync(st) && st' == st
    case DoInsertNext => CanInsertNext(st) && st' == InsertNext(st)
    case DoPublish => CanPublish(st) && st' == Publish(st)
    case DoSwitch => CanSwitch(st) && st' == Switch(st)
    case DoBuildFlush(level, size) => CanBuildFlush(st, level) && st' == BuildFlush(st, level, size)
    case DoStartCompaction(plan) => CanStartCompaction(st, plan) && st' == StartCompaction(st, plan)
    case DoBuildCompaction(input, outs, next) => CanBuildCompaction(st, input, outs, next) &&
        st' == BuildCompaction(st, outs, next)
    case DoMove(plan) => CanMove(st, plan) && st' == Move(st, plan)
    case DoPrepare => CanPrepare(st) && st' == Prepare(st)
    case DoRecord => CanRecord(st) && st' == Record(st)
    case DoInstall => CanInstall(st) && st' == InstallCurrent(st)
    case DoTakeSnapshot => st' == TakeSnapshot(st)
    case DoRelease(i) => CanRelease(st, i) && st' == Release(st, i)
    case DoPin => st' == Pin(st)
    case DoUnpin(i) => i < |st.pinned| && st' == Unpin(st, i)
    case DoCollect => CanCollect(st) && st' == Collect(st)
    case DoCrash(disks, r) => CrashesTo(st, disks, r, st')
  }

  /** A run: states linked by actions, starting from a newly created database. */
  ghost predicate IsRun(states: seq<State>, actions: seq<Action>) {
    && |states| == |actions| + 1
    && IsInitial(states[0])
    && forall i {:trigger actions[i]} :: 0 <= i < |actions| ==> Step(states[i], actions[i], states[i + 1])
  }

  /** What DBImpl::Get answers: memtable, then immutable memtable, then the version. */
  ghost function ReadFrom(mem: seq<Entry>, imm: Option<seq<Entry>>, version: Version, user: UserKey, s: nat): Answer {
    if LayerGet(mem, user, s).Some? then AnswerOf(LayerGet(mem, user, s))
    else if imm.Some? && LayerGet(imm.value, user, s).Some? then AnswerOf(LayerGet(imm.value, user, s))
    else SetRead(VersionEntries(version), user, s)
  }

  ghost function Read(st: State, user: UserKey, s: nat): Answer {
    ReadFrom(st.mem, st.imm, st.version, user, s)
  }

  /** No compaction has revived the key, or a write to it after that is among the first `s`. */
  ghost predicate Trusted(st: State, user: UserKey, s: nat) {
    user in st.revived ==>
      exists i: nat :: st.revived[user] <= i < s && i < |st.history| && st.history[i].key.user == user
  }

  /** LastSequence and every live snapshot are at or above the smallest snapshot. */
  ghost predicate Readable(st: State, s: nat) {
    s == st.lastSequence || s in st.snapshots
  }
}
