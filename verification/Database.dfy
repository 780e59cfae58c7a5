/**
 DBImpl (db/db_impl.cc) as an object whose methods change its fields step by step.  Each
 method takes the state through the steps of `DbState`, and keeps the invariant.
 */
module Database {
  import opened Optional
  import opened InternalKeys
  import opened ReadSpec
  import opened Versions
  import opened CompactionInputs
  import opened CompactionSetup
  import opened CompactionMerge
  import opened CompactionRun
  import opened Unbroken
  import opened VersionBuilder
  import opened Installing
  import opened Flushing
  import opened CompactionReads
  import opened MemTables
  import opened DbState
  import opened DbInvariant
  import opened DbBackground
  import opened DbRecovery
  import opened DbRuns
  import opened DbIterator
  import opened DbIteration
  import VersionGet

  class DBImpl {
    ghost var history: seq<Entry>
    ghost var flushed: nat
    ghost var switched: nat
    var mem: seq<Entry>
    var imm: Option<seq<Entry>>
    /** What is left to insert of the group being written. */
    var group: Option<seq<Entry>>
    var version: Version
    var lastSequence: nat
    var nextFile: nat
    var logFile: nat
    var logNumber: nat
    var snapshots: seq<nat>
    var pinned: seq<Version>
    var pendingOutputs: set<nat>
    ghost var running: Option<Running>
    ghost var phase: Phase
    /** The files of the database directory. */
    var disk: Disk
    var compactPointers: map<nat, InternalKey>
    ghost var revived: Revivals
    ghost var overlapped: bool

    ghost function St(): State
      reads this
    {
      State(history, flushed, switched, mem, imm, group, version, lastSequence, nextFile, logFile, logNumber,
            snapshots, pinned, pendingOutputs, running, phase, disk, revived, overlapped)
    }

    // ----- opening

    /** DB::Open on a disk that holds the first `f` writes in tables and the rest of `h` in its logs. */
    constructor Open(d: Disk, isFull: nat -> bool, sizes: nat -> nat, ghost h: seq<Entry>, ghost f: nat,
                     ghost revived: Revivals)
      requires DiskHolds(d, h, f, revived)
      ensures Inv(St()) && history == h && lastSequence == |h|
      ensures exists r :: ValidRecovery(d, r) && St() == Reopen(d, r, h, revived)
    {
      var next, last, newLog, files;
      ghost var r;
      next, last, newLog, files, r := Recover(d, isFull, sizes, h, revived);
      ReopenEstablishesInv(d, r, h, f, revived);
      hide Inv, DiskHolds, Reopen, ValidRecovery;
      history, flushed, switched := h, |h|, |h|;
      mem, imm, group := [], None, None;
      version, lastSequence := next, last;
      nextFile, logFile, logNumber := newLog + 1, newLog, newLog;
      snapshots, pinned, pendingOutputs, compactPointers := [], [], {}, map[];
      running, phase, overlapped := None, Idle, false;
      disk := files;
      this.revived := revived;
    }

    // ----- reading

    /** A read at a snapshot, or at the latest published write. */
    method Get(user: UserKey, snapshot: Option<nat>) returns (answer: Answer)
      requires Inv(St()) && (snapshot.Some? ==> snapshot.value in snapshots)
      ensures (if snapshot.Some? then snapshot.value else lastSequence) <= |history|
      ensures Trusted(St(), user, if snapshot.Some? then snapshot.value else lastSequence) ==>
              answer == HistoryRead(history, user, if snapshot.Some? then snapshot.value else lastSequence)
    {
      var s := if snapshot.Some? then snapshot.value else lastSequence;
      ReadableBound(St(), s);
      if Trusted(St(), user, s) {
        ReadIsHistoryRead(St(), user, s);
      }
      hide Inv, SetRead, HistoryRead, Trusted;
      var hit := LayerGet(mem, user, s);
      if hit.None? && imm.Some? {
        hit := LayerGet(imm.value, user, s);
      }
      if hit.Some? {
        answer := AnswerOf(hit);
      } else {
        VersionIsReadable(St());
        answer := VersionGet.Get(version, user, s);
      }
    }

    /** An iterator at a snapshot, or at the latest published write; it holds on to the version. */
    method NewIterator(snapshot: Option<nat>) returns (it: DBIter)
      requires Inv(St()) && (snapshot.Some? ==> snapshot.value in snapshots)
      modifies this`pinned
      ensures St() == Pin(old(St())) && Inv(St())
      ensures fresh(it) && fresh(it.iter) && fresh(it.iter.children) && it.Ok() && !it.valid
      ensures ShowsHistory(it, old(St()), if snapshot.Some? then snapshot.value else lastSequence)
    {
      hide Inv, ShowsHistory;
      var s := if snapshot.Some? then snapshot.value else lastSequence;
      PinKeepsInv(St());
      it := DbIteration.NewIterator(mem, imm, version, s, St());
      pinned := pinned + [version];
    }

    // ----- writing

    /** Append the group to the log. */
    method AppendToLog(ops: seq<Op>)
      requires CanLogGroup(St(), ops)
      modifies this
      ensures St() == LogGroup(old(St()), ops)
    {
      var es := Stamp(ops, lastSequence + 1);
      history := history + es;
      group := Some(es);
      disk := disk.(logs := disk.logs[logFile := disk.logs[logFile] + es]);
    }

    method InsertIntoMem()
      requires CanInsertNext(St())
      modifies this`mem, this`group
      ensures St() == InsertNext(old(St()))
    {
      mem, group := InsertEntry(mem, group.value[0]), Some(group.value[1..]);
    }

    method SetLastSequence(last: nat)
      requires CanPublish(St()) && last == |history|
      modifies this`lastSequence, this`group
      ensures St() == DbState.Publish(old(St()))
    {
      lastSequence, group := last, None;
    }

    /** A group of operations, logged, inserted and published. */
    method Write(ops: seq<Op>)
      requires Inv(St()) && CanLogGroup(St(), ops)
      modifies this
      ensures Inv(St())
      ensures history == old(history) + Stamp(ops, old(lastSequence) + 1) && lastSequence == |history|
      ensures version == old(version) && imm == old(imm) && snapshots == old(snapshots) && phase == old(phase)
    {
      hide Inv;
      LogGroupKeepsInv(St(), ops);
      var last := lastSequence + |ops|;
      LastIsWhole(St());
      AppendToLog(ops);
      while group.value != []
        invariant Inv(St()) && group.Some?
        invariant history == old(history) + Stamp(ops, old(lastSequence) + 1) && last == |history|
        invariant version == old(version) && imm == old(imm) && snapshots == old(snapshots) && phase == old(phase)
        decreases |group.value|
      {
        InsertNextKeepsInv(St());
        InsertIntoMem();
      }
      PublishKeepsInv(St());
      SetLastSequence(last);
    }

    /** MakeRoomForWrite, when the memtable is full: a new log, and the memtable becomes immutable. */
    method SwitchMemTable()
      requires Inv(St()) && CanSwitch(St())
      modifies this`nextFile, this`disk, this`logFile, this`imm, this`mem, this`switched
      ensures St() == DbState.Switch(old(St())) && Inv(St())
    {
      hide Inv;
      SwitchKeepsInv(St());
      NewLog();
      imm, mem := Some(mem), [];
      switched := |history|;
    }

    method NewLog()
      modifies this`nextFile, this`disk, this`logFile
      ensures St() == old(St()).(nextFile := old(nextFile) + 1, logFile := old(nextFile),
                                 disk := old(disk).(logs := old(disk).logs[old(nextFile) := []]))
    {
      var newLog := nextFile;
      nextFile := nextFile + 1;
      disk := disk.(logs := disk.logs[newLog := []]);
      logFile := newLog;
    }

    // ----- installing an edit

    /** LogAndApply: compute the new version, write the manifest record, install the version. */
    method LogAndApply(edit: Edit, flush: bool)
      requires phase == Built(edit, flush) && (flush ==> imm.Some?)
      modifies this
      ensures St() == Applied(old(St()), edit, flush)
    {
      hide Prepare, Record, InstallCurrent;
      var record := PrepareRecord(edit, flush);
      WriteManifest(edit, flush, record);
      InstallVersion(edit, flush, record.version);
    }

    /** Under the mutex: the new version and the counters that go with it. */
    method PrepareRecord(edit: Edit, flush: bool) returns (record: Manifest)
      requires phase == Built(edit, flush)
      modifies this`phase
      ensures St() == Prepare(old(St())) && phase == Prepared(edit, flush, record)
      ensures record.version == Install(version, edit)
    {
      hide Install;
      record := Manifest(Install(version, edit), if flush then logFile else logNumber, nextFile, lastSequence);
      phase := Prepared(edit, flush, record);
    }

    /** With the mutex released: the record becomes durable. */
    method WriteManifest(edit: Edit, flush: bool, record: Manifest)
      requires phase == Prepared(edit, flush, record)
      modifies this`disk, this`phase, this`overlapped
      ensures St() == Record(old(St())) && phase == Recorded(edit, flush)
    {
      hide EditFits;
      overlapped := overlapped || !EditFits(version, edit);
      disk := disk.(manifest := record);
      phase := Recorded(edit, flush);
    }

    /** Under the mutex again. */
    method InstallVersion(edit: Edit, flush: bool, next: Version)
      requires phase == Recorded(edit, flush) && (flush ==> imm.Some?) && next == Install(version, edit)
      modifies this`version, this`logNumber, this`imm, this`flushed, this`pendingOutputs, this`phase
      ensures St() == InstallCurrent(old(St()))
    {
      hide Install;
      version := next;
      if flush {
        DropImm();
      } else {
        pendingOutputs := {};
      }
      phase := Idle;
    }

    /** The immutable memtable is in a table now; its log is no longer needed. */
    method DropImm()
      modifies this`logNumber, this`imm, this`flushed
      ensures St() == old(St()).(logNumber := logFile, imm := None, flushed := switched)
    {
      logNumber := logFile;
      imm := None;
      flushed := switched;
    }

    /** File numbers of all tables of all live versions. */
    method AddLiveFiles() returns (live: set<nat>)
      ensures live == LiveFiles(St())
    {
      live := NumbersOf(version);
      for i := 0 to |pinned|
        invariant live == VersionNumbers(version) + set v, n | v in pinned[..i] && n in VersionNumbers(v) :: n
      {
        var numbers := NumbersOf(pinned[i]);
        assert pinned[..i + 1] == pinned[..i] + [pinned[i]];
        live := live + numbers;
      }
      assert pinned[..|pinned|] == pinned;
    }

    /** Delete the logs that recovery will not need and the tables that nobody refers to. */
    method DeleteObsoleteFiles()
      requires CanCollect(St())
      modifies this`disk
      ensures St() == Collect(old(St()))
    {
      var live := AddLiveFiles();
      var logs := DeleteLogs(disk.logs, logNumber);
      var tables := DeleteTables(disk.tables, live + pendingOutputs);
      disk := disk.(logs := logs, tables := tables);
    }

    // ----- snapshots

    method GetSnapshot() returns (s: nat)
      requires Inv(St())
      modifies this`snapshots
      ensures St() == TakeSnapshot(old(St())) && Inv(St()) && s == lastSequence
    {
      TakeSnapshotKeepsInv(St());
      hide Inv;
      s := lastSequence;
      snapshots := snapshots + [s];
    }

    method ReleaseSnapshot(i: nat)
      requires Inv(St()) && CanRelease(St(), i)
      modifies this`snapshots
      ensures St() == Release(old(St()), i) && Inv(St())
    {
      ReleaseKeepsInv(St(), i);
      hide Inv;
      snapshots := snapshots[..i] + snapshots[i + 1..];
    }

    // ----- background work

    /** Write the immutable memtable as a table, install it, and drop its log; also in the middle of a compaction. */
    method CompactMemTable(size: nat, grandparentLimit: nat) returns (level: nat)
      requires Inv(St()) && phase.Idle? && imm.Some?
      modifies this
      ensures CanBuildFlush(old(St()), level) && Inv(St()) && running == old(running)
      ensures St() == Collect(Flushed(old(St()), level, size))
    {
      hide Inv, CanBuildFlush, Install, Collect, EditFits;
      level := PickFlushLevel(grandparentLimit);
      BuildFlushKeepsInv(St(), level, size);
      ghost var built := BuildFlush(St(), level, size);
      FlushesFit(built);
      AppliedKeepsInv(built, built.phase.edit, true);
      ghost var applied := Applied(built, built.phase.edit, true);
      var edit := WriteLevel0Table(level, size);
      LogAndApply(edit, true);
      CollectKeepsInv(applied);
      DeleteObsoleteFiles();
    }

    method PickFlushLevel(grandparentLimit: nat) returns (level: nat)
      requires Inv(St()) && phase.Idle? && imm.Some?
      ensures CanBuildFlush(St(), level)
    {
      level := 0;
      if imm.value != [] {
        VersionIsReadable(St());
        hide Inv;
        var lo, hi := imm.value[0].key.user, imm.value[|imm.value| - 1].key.user;
        level := PickLevelForMemTableOutput(version, lo, hi, grandparentLimit);
      }
    }

    method WriteLevel0Table(level: nat, size: nat) returns (edit: Edit)
      requires phase.Idle? && imm.Some?
      modifies this`nextFile, this`disk, this`phase
      ensures St() == BuildFlush(old(St()), level, size) && phase == Built(edit, true)
    {
      var number := nextFile;
      nextFile := nextFile + 1;
      edit := Edit({}, []);
      if imm.value != [] {
        disk := disk.(tables := disk.tables[number := imm.value]);
        edit := FlushEdit(level, Table(number, size, imm.value));
      }
      phase := Built(edit, true);
    }

    /** PickCompaction, then the compaction. */
    method CompactLevel(level: nat, expandedLimit: nat, grandparentLimit: nat,
                        sizes: nat -> nat, stopBefore: nat -> bool, isFull: nat -> bool)
      returns (plan: Plan, ghost input: seq<Entry>, ghost outs: seq<Table>)
      requires Inv(St()) && phase.Idle? && running.None? && level + 1 < NUM_LEVELS && version[level] != []
      modifies this
      ensures plan.level == level && HangTogether(plan.inputs0 + plan.inputs1)
      ensures IsCompactionOf(old(St()), St(), plan, plan.IsTrivialMove(grandparentLimit), input, outs)
    {
      VersionIsReadable(St());
      hide Inv, Collect, CanBuildCompaction, HangTogether;
      var pointer := if level in compactPointers then Some(compactPointers[level]) else None;
      var start := PickStart(version, level, pointer);
      plan, input, outs := RunPlan(level, start, true, expandedLimit, grandparentLimit, sizes, stopBefore, isFull);
    }

    /** CompactRange: a manual compaction, which is never a trivial move. */
    method CompactRange(level: nat, begin: Option<UserKey>, end: Option<UserKey>, expandedLimit: nat, outputLimit: nat,
                        sizes: nat -> nat, stopBefore: nat -> bool, isFull: nat -> bool)
      returns (plan: Option<Plan>, ghost input: seq<Entry>, ghost outs: seq<Table>)
      requires Inv(St()) && phase.Idle? && running.None? && level + 1 < NUM_LEVELS
      modifies this
      ensures plan.None? <==> forall t :: t in old(version)[level] ==> !Overlaps(t, begin, end)
      ensures plan.None? ==> St() == old(St())
      ensures plan.Some? ==>
              plan.value.level == level && IsCompactionOf(old(St()), St(), plan.value, false, input, outs)
    {
      VersionIsReadable(St());
      hide Inv, Collect, CanBuildCompaction;
      var start := RangeStart(version, level, begin, end, outputLimit);
      plan, input, outs := None, [], [];
      if start != [] {
        var p;
        p, input, outs := RunPlan(level, start, false, expandedLimit, 0, sizes, stopBefore, isFull);
        plan := Some(p);
      }
    }

    /** Set up the other inputs, then move the table or merge. */
    method RunPlan(level: nat, start: seq<Table>, automatic: bool, expandedLimit: nat, grandparentLimit: nat,
                   sizes: nat -> nat, stopBefore: nat -> bool, isFull: nat -> bool)
      returns (plan: Plan, ghost input: seq<Entry>, ghost outs: seq<Table>)
      requires Inv(St()) && phase.Idle? && running.None? && level + 1 < NUM_LEVELS
      requires IsStart(version[level], level, start)
      modifies this
      ensures plan.level == level && (HangTogether(start) ==> HangTogether(plan.inputs0 + plan.inputs1))
      ensures IsCompactionOf(old(St()), St(), plan, automatic && plan.IsTrivialMove(grandparentLimit), input, outs)
    {
      hide HangTogether, Inv, IsPlan, IsStart, CanMove, Moved, Merged, Collect, IsCompactionOf, IsMergeOf;
      plan := ChoosePlan(level, start, expandedLimit);
      if automatic && plan.IsTrivialMove(grandparentLimit) {
        PlanCanMove(St(), start, plan, grandparentLimit);
        MoveTable(plan);
        input, outs := [], [];
        MoveIsCompaction(old(St()), start, plan, input, outs);
      } else {
        input, outs := MergeTables(plan, start, sizes, stopBefore, isFull);
        MergeIsCompaction(old(St()), start, plan, input, outs);
      }
    }

    method ChoosePlan(level: nat, start: seq<Table>, expandedLimit: nat) returns (plan: Plan)
      requires Inv(St()) && level + 1 < NUM_LEVELS && IsStart(version[level], level, start)
      modifies this`compactPointers
      ensures plan.level == level && IsPlan(version, start, plan)
      ensures HangTogether(start) ==> HangTogether(plan.inputs0 + plan.inputs1)
      ensures level in compactPointers && IsLargestKey(plan.inputs0, compactPointers[level])
      ensures compactPointers == old(compactPointers)[level := compactPointers[level]]
    {
      VersionIsReadable(St());
      hide Inv, IsPlan, IsStart, ValidVersion, Distinct, HangTogether;
      var pointer;
      plan, pointer := SetupOtherInputs(version, level, start, expandedLimit);
      PlanHangsTogether(version, start, plan);
      compactPointers := compactPointers[level := pointer];
    }

    /** A trivial move. */
    method MoveTable(plan: Plan)
      requires Inv(St()) && CanMove(St(), plan)
      modifies this
      ensures St() == Moved(old(St()), plan) && Inv(St())
    {
      hide Inv, EditFits;
      ghost var moved := Move(St(), plan);
      MoveKeepsInv(St(), plan);
      MoveFits(St(), plan);
      AppliedKeepsInv(moved, moved.phase.edit, false);
      var edit := ReplaceEdit(plan, plan.inputs0);
      phase := Built(edit, false);
      LogAndApply(edit, false);
    }

    /** A whole compaction with nothing in between. */
    method MergeTables(plan: Plan, ghost start: seq<Table>, sizes: nat -> nat, stopBefore: nat -> bool,
                       isFull: nat -> bool)
      returns (ghost input: seq<Entry>, ghost outs: seq<Table>)
      requires Inv(St()) && phase.Idle? && running.None? && IsPlan(version, start, plan)
      modifies this
      ensures IsMergeOf(old(St()), plan, input, outs)
      ensures St() == Collect(Merged(old(St()), plan, outs))
    {
      hide Inv, IsPlan, Collect, IsMergeOf, BuildCompaction, IsStarted, OutputsFit, IsCompaction;
      var base, snap := BeginMerge(plan, start);
      input, outs := EndMerge(plan, base, snap, start, sizes, stopBefore, isFull);
      OutputsAreMerge(old(St()), plan, input, outs);
    }

    /** A compaction takes hold of the current version and of the smallest snapshot. */
    method BeginMerge(plan: Plan, ghost start: seq<Table>) returns (base: Version, snap: nat)
      requires Inv(St()) && phase.Idle? && running.None? && IsPlan(version, start, plan)
      modifies this`running
      ensures St() == StartCompaction(old(St()), plan) && Inv(St())
      ensures running == Some(Running(plan, snap, base)) && IsStarted(base, start, plan, snap, nextFile)
      ensures base == version && snap == old(St()).SmallestSnapshot()
    {
      VersionIsReadable(St());
      NumbersAreUsed(St());
      PlanCanStart(St(), start, plan);
      StartCompactionKeepsInv(St(), plan);
      hide Inv, IsPlan, ValidVersion, Distinct;
      base := version;
      snap := if snapshots == [] then lastSequence else snapshots[0];
      running := Some(Running(plan, snap, base));
    }

    /**
     The merge itself, after any number of writes, switches, flushes and snapshots since it
     began: merge what the base version holds, install the outputs in the version there is now,
     and delete what is obsolete.  The database stays sound if and only if no output overlaps a
     table that was flushed meanwhile.
     */
    method EndMerge(plan: Plan, base: Version, snap: nat, ghost start: seq<Table>, sizes: nat -> nat,
                    stopBefore: nat -> bool, isFull: nat -> bool)
      returns (ghost input: seq<Entry>, ghost outs: seq<Table>)
      requires Inv(St()) && phase.Idle? && running == Some(Running(plan, snap, base))
      requires IsStarted(base, start, plan, snap, nextFile)
      modifies this
      ensures CanBuildCompaction(old(St()), input, outs, old(nextFile) + |outs|)
      ensures St() == Collect(Applied(BuildCompaction(old(St()), outs, old(nextFile) + |outs|),
                                      ReplaceEdit(plan, outs), false))
      ensures plan.level + 1 < NUM_LEVELS && (overlapped <==> !OutputsFit(old(version), plan, outs))
      ensures ValidVersion(version) <==> OutputsFit(old(version), plan, outs)
      ensures !overlapped ==> Inv(St())
    {
      hide Inv, IsPlan, IsCompaction, ValidVersion, Distinct, BuildCompaction, ReplaceEdit, Sorted, Collect, Install;
      hide OutputsFit, EditFits;
      var tables;
      tables, input := RunCompaction(base, start, plan, snap, nextFile, sizes, stopBefore, isFull);
      outs := tables;
      ghost var next := nextFile + |outs|;
      assert CanBuildCompaction(St(), input, outs, next);
      MergeInstalled(St(), plan, input, outs, next);
      var edit := FinishOutputs(plan, tables);
      LogAndApply(edit, false);
      DeleteObsoleteFiles();
    }

    /** The output tables take new numbers, are protected from garbage collection, and go to disk. */
    method OpenOutputs(outs: seq<Table>)
      modifies this`nextFile, this`pendingOutputs, this`disk
      ensures St() == old(St()).(nextFile := old(nextFile) + |outs|,
                                 pendingOutputs := old(pendingOutputs) + set t | t in outs :: t.number,
                                 disk := old(disk).(tables := old(disk).tables + TablesOnDisk(outs)))
    {
      hide TablesOnDisk;
      nextFile := nextFile + |outs|;
      pendingOutputs := pendingOutputs + set t | t in outs :: t.number;
      disk := disk.(tables := disk.tables + TablesOnDisk(outs));
    }

    /** The output tables are on disk and the edit is ready. */
    method FinishOutputs(plan: Plan, outs: seq<Table>) returns (edit: Edit)
      requires phase.Idle? && running.Some? && running.value.plan == plan
      modifies this`nextFile, this`pendingOutputs, this`disk, this`revived, this`running, this`phase
      ensures St() == BuildCompaction(old(St()), outs, old(nextFile) + |outs|)
      ensures edit == ReplaceEdit(plan, outs) && phase == Built(edit, false)
    {
      hide ReplaceEdit, TablesOnDisk, RevivedBy, BuildCompaction, WithRevived;
      BuiltFields(St(), outs);
      ghost var back := RevivedBy(version, plan, running.value.snap);
      OpenOutputs(outs);
      running := None;
      revived := WithRevived(revived, back, flushed);
      edit := ReplaceEdit(plan, outs);
      phase := Built(edit, false);
    }
  }

  /** The outputs of a merge of the plan's inputs, under new file numbers. */
  ghost predicate IsMergeOf(st: State, plan: Plan, input: seq<Entry>, outs: seq<Table>) {
    && IsCompaction(st.version, plan, input, st.SmallestSnapshot(), outs)
    && forall t :: t in outs ==> st.nextFile <= t.number < st.nextFile + |outs|
  }

  ghost function Moved(st: State, plan: Plan): State {
    Applied(Move(st, plan), ReplaceEdit(plan, plan.inputs0), false)
  }

  /** What stays true of a compaction once it has begun. */
  ghost predicate IsStarted(base: Version, start: seq<Table>, plan: Plan, snap: nat, nextFile: nat) {
    && ValidVersion(base) && Distinct(VersionEntries(base)) && IsPlan(base, start, plan) && snap < MAX_SEQUENCE
    && forall l, u :: 0 <= l < NUM_LEVELS && u in base[l] ==> u.number < nextFile
  }

  lemma PlanCanStart(st: State, start: seq<Table>, plan: Plan)
    requires st.phase.Idle? && st.running.None? && IsPlan(st.version, start, plan)
    ensures CanStartCompaction(st, plan)
  {
    hide MergeableInputs, ParentsOutside, IsClosedStart, ArePartners, AreGrandparents;
  }

  /** The end of a merge, step by step. */
  lemma MergeInstalled(st: State, plan: Plan, input: seq<Entry>, outs: seq<Table>, next: nat)
    requires Inv(st) && CanBuildCompaction(st, input, outs, next) && st.running.value.plan == plan
    ensures plan.level + 1 < NUM_LEVELS
    ensures var st' := Collect(Applied(BuildCompaction(st, outs, next), ReplaceEdit(plan, outs), false));
            && (st'.overlapped <==> !OutputsFit(st.version, plan, outs))
            && (ValidVersion(st'.version) <==> OutputsFit(st.version, plan, outs))
            && (!st'.overlapped ==> Inv(st'))
  {
    hide Inv, BuildCompaction, OutputsFit, EditFits, ReplaceEdit, Install, IsCompaction;
    var built := BuildCompaction(st, outs, next);
    BuiltForInstall(st, plan, outs, next);
    MergeFitsIff(st, plan, input, outs, next);
    NotOverlapped(st);
    AppliedOverlapped(built, ReplaceEdit(plan, outs));
    BuildCompactionKeepsInv(st, input, outs, next);
    if OutputsFit(st.version, plan, outs) {
      AppliedKeepsInv(built, ReplaceEdit(plan, outs), false);
      CollectKeepsInv(Applied(built, ReplaceEdit(plan, outs), false));
    }
  }

  lemma BuiltForInstall(st: State, plan: Plan, outs: seq<Table>, next: nat)
    requires st.running.Some? && st.running.value.plan == plan
    ensures var built := BuildCompaction(st, outs, next);
            && built.phase == Built(ReplaceEdit(plan, outs), false) && built.version == st.version
            && built.overlapped == st.overlapped
  {
    hide ReplaceEdit, TablesOnDisk, RevivedBy, WithRevived;
  }

  lemma AppliedOverlapped(st: State, edit: Edit)
    requires st.phase == Built(edit, false)
    ensures var st' := Collect(Applied(st, edit, false));
            && st'.overlapped == (st.overlapped || !EditFits(st.version, edit))
            && st'.version == Install(st.version, edit)
  {
    hide EditFits, Install;
  }

  lemma MergeFitsIff(st: State, plan: Plan, input: seq<Entry>, outs: seq<Table>, next: nat)
    requires Inv(st) && CanBuildCompaction(st, input, outs, next) && st.running.value.plan == plan
    ensures plan.level + 1 < NUM_LEVELS
    ensures EditFits(st.version, ReplaceEdit(plan, outs)) <==> OutputsFit(st.version, plan, outs)
    ensures ValidVersion(Install(st.version, ReplaceEdit(plan, outs))) <==> OutputsFit(st.version, plan, outs)
  {
    MergeFitsNow(st, input, outs, next);
    VersionIsReadable(st);
    hide Inv, MergeableInputs, OutputsFit, EditFits, ReplaceEdit, Install, KeptAll, AreOutputs, ValidVersion;
    ReplaceEditFitsIff(st.version, plan, outs);
    ReplaceIsValidIff(st.version, plan, outs);
  }

  lemma OutputsAreMerge(st: State, plan: Plan, input: seq<Entry>, outs: seq<Table>)
    requires IsCompaction(st.version, plan, input, st.SmallestSnapshot(), outs)
    requires forall t :: t in outs ==> st.nextFile <= t.number < st.nextFile + |outs|
    ensures IsMergeOf(st, plan, input, outs)
  {
  }

  /** The state once a merge has been installed. */
  ghost function Merged(st: State, plan: Plan, outs: seq<Table>): State {
    var built := BuildCompaction(StartCompaction(st, plan), outs, st.nextFile + |outs|);
    Applied(built, ReplaceEdit(plan, outs), false)
  }

  /** No table of the next level starts with the user key the lower inputs end with. */
  ghost predicate EndsCleanly(v: Version, plan: Plan)
    requires plan.level + 1 < NUM_LEVELS
  {
    forall k :: IsLargestKey(plan.inputs1, k) ==> !HasBoundaryFile(v[plan.level + 1], k)
  }

  /**
   What one compaction has done: it followed a plan of SetupOtherInputs, and either moved one
   table or merged all inputs.  It keeps the invariant and preserves the reads exactly of the keys
   that it does not revive, and it revives none if no boundary file follows the lower inputs.
   */
  ghost predicate IsCompactionOf(st: State, st': State, plan: Plan, trivial: bool, input: seq<Entry>,
                                 outs: seq<Table>) {
    && (exists start :: IsPlan(st.version, start, plan))
    && Inv(st')
    && if trivial then st' == Moved(st, plan)
       else
         && IsCompaction(st.version, plan, input, st.SmallestSnapshot(), outs)
         && st' == Collect(Merged(st, plan, outs))
         && st'.revived == WithRevived(st.revived, RevivedBy(st.version, plan, st.SmallestSnapshot()), st.flushed)
         && (EndsCleanly(st.version, plan) ==> st'.revived == st.revived)
         && (ReadsAgree(VersionEntries(st'.version), VersionEntries(st.version), st.SmallestSnapshot()) <==>
             forall user :: !Resurrects(st.version, plan.level, InputEntries(plan), RestEntries(st.version, plan),
                                        st.SmallestSnapshot(), user))
  }

  method DeleteLogs(logs: map<nat, seq<Entry>>, logNumber: nat) returns (kept: map<nat, seq<Entry>>)
    ensures kept == map n | n in logs && n >= logNumber :: logs[n]
  {
    kept := logs;
    var names := logs.Keys;
    while names != {}
      invariant kept == map n | n in logs && (n in names || n >= logNumber) :: logs[n]
      decreases names
    {
      var n :| n in names;
      names := names - {n};
      if n < logNumber {
        kept := kept - {n};
      }
    }
  }

  method DeleteTables(tables: map<nat, seq<Entry>>, live: set<nat>) returns (kept: map<nat, seq<Entry>>)
    ensures kept == map n | n in tables && n in live :: tables[n]
  {
    kept := tables;
    var names := tables.Keys;
    while names != {}
      invariant kept == map n | n in tables && (n in names || n in live) :: tables[n]
      decreases names
    {
      var n :| n in names;
      names := names - {n};
      if n !in live {
        kept := kept - {n};
      }
    }
  }

  /** The state once a flush has been installed. */
  ghost function Flushed(st: State, level: nat, size: nat): State
    requires st.imm.Some?
  {
    Applied(BuildFlush(st, level, size), BuildFlush(st, level, size).phase.edit, true)
  }

  // ----- replaying the logs

  lemma {:induction false} ConcatLogsStep(logs: map<nat, seq<Entry>>, lo: nat, hi: nat)
    requires lo <= hi
    ensures ConcatLogs(logs, lo, hi + 1) == ConcatLogs(logs, lo, hi) + if hi in logs then logs[hi] else []
    decreases hi - lo
  {
    if lo < hi {
      ConcatLogsStep(logs, lo + 1, hi);
    }
  }

  lemma MaxSequenceStep(es: seq<Entry>, e: Entry)
    ensures MaxSequence(es + [e]) == if e.key.sequence > MaxSequence(es) then e.key.sequence else MaxSequence(es)
  {
    assert (es + [e])[..|es|] == es;
  }

  /** RecoverLogFile: replay one log into memtables, one per chunk. */
  method RecoverLogFile(log: seq<Entry>, isFull: nat -> bool, chunks: seq<seq<Entry>>, max: nat)
    returns (chunks': seq<seq<Entry>>, max': nat)
    requires NoneEmpty(chunks) && max == MaxSequence(Flatten(chunks))
    ensures NoneEmpty(chunks') && Flatten(chunks') == Flatten(chunks) + log
    ensures max' == MaxSequence(Flatten(chunks'))
  {
    hide Flatten, MaxSequence;
    ghost var before := Flatten(chunks);
    chunks', max' := chunks, max;
    var mem: seq<Entry> := [];
    assert before + [] == before && log[..0] == [];
    for i := 0 to |log|
      invariant NoneEmpty(chunks') && Flatten(chunks') + mem == before + log[..i]
      invariant max' == MaxSequence(before + log[..i])
    {
      var e := log[i];
      Snoc(before, log, i);
      Append(Flatten(chunks'), mem, e);
      MaxSequenceStep(before + log[..i], e);
      if e.key.sequence > max' {
        max' := e.key.sequence;
      }
      chunks', mem := FinishOutput(isFull(i), chunks', mem + [e]);
    }
    assert log[..|log|] == log;
    chunks', mem := FinishOutput(true, chunks', mem);
    assert Flatten(chunks') + [] == Flatten(chunks');
  }

  lemma Snoc(before: seq<Entry>, log: seq<Entry>, i: nat)
    requires i < |log|
    ensures before + log[..i + 1] == before + log[..i] + [log[i]]
  {
  }

  lemma Append(a: seq<Entry>, b: seq<Entry>, e: Entry)
    ensures a + (b + [e]) == a + b + [e]
  {
  }

  /** All logs the manifest still needs, oldest first. */
  method ReplayLogs(logs: map<nat, seq<Entry>>, logNumber: nat, top: nat, isFull: nat -> bool)
    returns (chunks: seq<seq<Entry>>, max: nat)
    ensures NoneEmpty(chunks) && Flatten(chunks) == ConcatLogs(logs, logNumber, top)
    ensures max == MaxSequence(Flatten(chunks))
  {
    chunks, max := [], 0;
    var n := logNumber;
    while n < top
      invariant logNumber <= n && (n <= top || n == logNumber)
      invariant NoneEmpty(chunks) && Flatten(chunks) == ConcatLogs(logs, logNumber, n)
      invariant max == MaxSequence(Flatten(chunks))
      decreases top - n
    {
      ConcatLogsStep(logs, logNumber, n);
      if n in logs {
        chunks, max := RecoverLogFile(logs[n], isFull, chunks, max);
      }
      n := n + 1;
    }
  }

  /** One past the highest number in use. */
  method FirstUnused(names: set<nat>) returns (top: nat)
    ensures top == MaxPlusOne(names)
  {
    top := 0;
    var rest := names;
    while rest != {}
      invariant rest <= names && forall n :: n in names ==> n in rest || n < top
      invariant top > 0 ==> top - 1 in names
      decreases rest
    {
      var n :| n in rest;
      rest := rest - {n};
      if top <= n {
        top := n + 1;
      }
    }
  }

  /** DBImpl::Recover: the logs to replay, the level-0 tables they fill, and an unused number for the new log. */
  method RecoverLogs(d: Disk, isFull: nat -> bool, sizes: nat -> nat) returns (r: Recovery, max: nat)
    ensures ValidRecovery(d, r) && max == MaxSequence(ReplayedLog(d))
  {
    var top := FirstUnused(d.logs.Keys);
    var chunks;
    chunks, max := ReplayLogs(d.logs, d.manifest.logNumber, top, isFull);
    var first := d.manifest.nextFile + 1;
    var newLog := first + |chunks|;
    if newLog < top {
      newLog := top;
    }
    r := Recovery(chunks, seq(|chunks|, i => first + i), seq(|chunks|, i requires 0 <= i => sizes(i)), newLog);
  }

  /** Replay the logs into level-0 tables, install them, and start a new log and manifest. */
  method Recover(d: Disk, isFull: nat -> bool, sizes: nat -> nat, ghost h: seq<Entry>, ghost revived: Revivals)
    returns (next: Version, last: nat, newLog: nat, files: Disk, ghost r: Recovery)
    ensures ValidRecovery(d, r)
    ensures Reopen(d, r, h, revived) ==
            State(h, |h|, |h|, [], None, None, next, last, newLog + 1, newLog, newLog, [], [], {}, None, Idle, files,
                  revived, false)
  {
    var recovery, replayed := RecoverLogs(d, isFull, sizes);
    r := recovery;
    hide Install, TablesOnDisk, RecoveredTables, AtLevel, MaxSequence, ReplayedLog;
    var outs := RecoveredTables(recovery);
    next := Install(d.manifest.version, Edit({}, AtLevel(outs, 0)));
    last := if d.manifest.lastSequence < replayed then replayed else d.manifest.lastSequence;
    newLog := recovery.newLog;
    files := Disk(Manifest(next, newLog, newLog + 1, last), d.logs[newLog := []], d.tables + TablesOnDisk(outs));
  }

  method NumbersOf(v: Version) returns (numbers: set<nat>)
    ensures numbers == VersionNumbers(v)
  {
    numbers := {};
    for l := 0 to NUM_LEVELS
      invariant numbers == set m, t | 0 <= m < l && t in v[m] :: t.number
    {
      ghost var before := numbers;
      for i := 0 to |v[l]|
        invariant numbers == before + set t | t in v[l][..i] :: t.number
      {
        assert v[l][..i + 1] == v[l][..i] + [v[l][i]];
        numbers := numbers + {v[l][i].number};
      }
      assert v[l][..|v[l]|] == v[l];
    }
  }

  /** The three stages of applying an edit. */
  ghost function Applied(st: State, edit: Edit, flush: bool): State
    requires st.phase == Built(edit, flush) && (flush ==> st.imm.Some?)
  {
    InstallCurrent(Record(Prepare(st)))
  }

  lemma AppliedKeepsInv(st: State, edit: Edit, flush: bool)
    requires Inv(st) && st.phase == Built(edit, flush) && (flush ==> st.imm.Some?) && EditFits(st.version, edit)
    ensures Inv(Applied(st, edit, flush)) && CanCollect(Applied(st, edit, flush))
  {
    hide Inv, EditFits;
    NotOverlapped(st);
    PrepareKeepsInv(st);
    RecordKeepsInv(Prepare(st));
    InstallKeepsInv(Record(Prepare(st)));
  }

  lemma NotOverlapped(st: State)
    requires Inv(st)
    ensures !st.overlapped
  {
    hide VersionsOk, TargetOk, RunningOk, ManifestsOk, ForegroundOk;
  }

  lemma NumbersAreUsed(st: State)
    requires Inv(st)
    ensures forall l, u :: 0 <= l < NUM_LEVELS && u in st.version[l] ==> u.number < st.nextFile
    ensures st.SmallestSnapshot() < MAX_SEQUENCE
  {
    SmallestIsLeast(st);
    forall l, u | 0 <= l < NUM_LEVELS && u in st.version[l]
      ensures u.number < st.nextFile
    {
      assert u.number in VersionNumbers(st.version);
    }
  }

  lemma PlanCanMove(st: State, start: seq<Table>, plan: Plan, grandparentLimit: nat)
    requires st.phase.Idle? && st.running.None? && IsPlan(st.version, start, plan)
    requires plan.IsTrivialMove(grandparentLimit)
    ensures CanMove(st, plan)
  {
  }

  lemma MoveIsCompaction(st: State, start: seq<Table>, plan: Plan, input: seq<Entry>, outs: seq<Table>)
    requires IsPlan(st.version, start, plan) && Inv(Moved(st, plan))
    ensures IsCompactionOf(st, Moved(st, plan), plan, true, input, outs)
  {
    hide Inv, IsPlan, Moved;
  }

  lemma MergedVersion(st: State, plan: Plan, outs: seq<Table>)
    ensures Collect(Merged(st, plan, outs)).version == Install(st.version, ReplaceEdit(plan, outs))
  {
    hide Install, ReplaceEdit;
  }

  lemma BuiltFields(st: State, outs: seq<Table>)
    requires st.running.Some?
    ensures var r := st.running.value;
            BuildCompaction(st, outs, st.nextFile + |outs|) ==
            st.(nextFile := st.nextFile + |outs|, pendingOutputs := st.pendingOutputs + set t | t in outs :: t.number,
                running := None, phase := Built(ReplaceEdit(r.plan, outs), false),
                disk := st.disk.(tables := st.disk.tables + TablesOnDisk(outs)),
                revived := WithRevived(st.revived, RevivedBy(st.version, r.plan, r.snap), st.flushed))
  {
    hide ReplaceEdit, TablesOnDisk, RevivedBy;
  }

  lemma MergedRevived(st: State, plan: Plan, outs: seq<Table>)
    ensures Collect(Merged(st, plan, outs)).revived ==
            WithRevived(st.revived, RevivedBy(st.version, plan, st.SmallestSnapshot()), st.flushed)
  {
    hide Install, ReplaceEdit, RevivedBy;
  }

  lemma MoveFits(st: State, plan: Plan)
    requires Inv(st) && CanMove(st, plan)
    ensures EditFits(st.version, ReplaceEdit(plan, plan.inputs0))
  {
    hide LogsOk, SnapshotsOk, MemOk, TargetOk, ManifestsOk, SafeInputs, EditFits, HoldsWrites, ValidVersion;
    MovedHoldsWrites(st.version, st.history, st.flushed, st.SmallestSnapshot(), plan, st.revived);
  }

  lemma MergeFits(st: State, plan: Plan, input: seq<Entry>, outs: seq<Table>)
    requires Inv(st) && IsMergeOf(st, plan, input, outs)
    requires SafeInputs(st.version, plan.level, plan.inputs0, plan.inputs1)
    ensures EditFits(st.version, ReplaceEdit(plan, outs))
  {
    hide EditFits, MergeableInputs, HoldsWrites, ForegroundOk;
    SafeOutputsFit(st.version, plan, outs);
    ReplaceEditFitsIff(st.version, plan, outs);
  }

  lemma MergedKeepsInv(st: State, plan: Plan, input: seq<Entry>, outs: seq<Table>)
    requires Inv(st) && st.phase.Idle? && st.running.None? && IsMergeOf(st, plan, input, outs)
    requires SafeInputs(st.version, plan.level, plan.inputs0, plan.inputs1)
    ensures Inv(Collect(Merged(st, plan, outs)))
    ensures Collect(Merged(st, plan, outs)).revived ==
            WithRevived(st.revived, RevivedBy(st.version, plan, st.SmallestSnapshot()), st.flushed)
  {
    hide Inv, Collect, Install, ReplaceEdit, Resurrects, AreOutputs, SafeInputs, EditFits;
    MergeFits(st, plan, input, outs);
    StartCompactionKeepsInv(st, plan);
    var started := StartCompaction(st, plan);
    BuildCompactionKeepsInv(started, input, outs, st.nextFile + |outs|);
    AppliedKeepsInv(BuildCompaction(started, outs, st.nextFile + |outs|), ReplaceEdit(plan, outs), false);
    CollectKeepsInv(Merged(st, plan, outs));
    MergedRevived(st, plan, outs);
  }

  lemma MergeReadsIff(st: State, plan: Plan, input: seq<Entry>, outs: seq<Table>)
    requires Inv(st) && IsMergeOf(st, plan, input, outs)
    ensures ReadsAgree(VersionEntries(Collect(Merged(st, plan, outs)).version), VersionEntries(st.version),
            st.SmallestSnapshot())
            <==> forall user :: !Resurrects(st.version, plan.level, InputEntries(plan), RestEntries(st.version, plan),
                                            st.SmallestSnapshot(), user)
  {
    VersionIsReadable(st);
    hide Inv, Merged, Collect, IsCompaction, ReadsAgree, Resurrects;
    MergedVersion(st, plan, outs);
    CompactionReadsIff(st.version, plan, input, st.SmallestSnapshot(), outs);
  }

  lemma PlanHangsTogether(v: Version, start: seq<Table>, plan: Plan)
    requires IsPlan(v, start, plan)
    ensures HangTogether(start) ==> HangTogether(plan.inputs0 + plan.inputs1)
  {
    hide SafeInputs, IsClosedStart, ArePartners, AreGrandparents, HangTogether;
  }

  lemma PlanIsSafeToo(v: Version, start: seq<Table>, plan: Plan)
    requires IsPlan(v, start, plan)
    ensures SafeInputs(v, plan.level, plan.inputs0, plan.inputs1)
    ensures MergeableInputs(v, plan.level, plan.inputs0, plan.inputs1)
  {
    hide MergeableInputs, ParentsOutside, IsClosedStart, ArePartners, AreGrandparents;
  }

  lemma CleanMergeRevivesNone(v: Version, start: seq<Table>, plan: Plan, snap: nat)
    requires ValidVersion(v) && Distinct(VersionEntries(v)) && IsPlan(v, start, plan) && EndsCleanly(v, plan)
    ensures RevivedBy(v, plan, snap) == {}
  {
    hide RevivedBy, ValidVersion, Distinct, IsLargestKey, HasBoundaryFile, IsPlan, SafeInputs;
    PlanIsSafeToo(v, start, plan);
    NothingResurrects(v, plan, snap);
  }

  lemma PlanLevel(v: Version, start: seq<Table>, plan: Plan)
    requires IsPlan(v, start, plan)
    ensures plan.level + 1 < NUM_LEVELS
  {
    hide ArePartners, AreGrandparents, IsClosedStart, NewerLeftBehind, ParentsForeign, ParentsOutside;
  }

  lemma MergeIsCompaction(st: State, start: seq<Table>, plan: Plan, input: seq<Entry>, outs: seq<Table>)
    requires Inv(st) && st.phase.Idle? && st.running.None?
    requires IsPlan(st.version, start, plan) && IsMergeOf(st, plan, input, outs)
    ensures IsCompactionOf(st, Collect(Merged(st, plan, outs)), plan, false, input, outs)
  {
    hide Inv, Merged, Collect, IsPlan, IsCompaction, ReadsAgree, Resurrects, EndsCleanly, RevivedBy, ValidVersion;
    hide Distinct;
    PlanLevel(st.version, start, plan);
    MergeReadsIff(st, plan, input, outs);
    PlanIsSafeToo(st.version, start, plan);
    MergedKeepsInv(st, plan, input, outs);
    if EndsCleanly(st.version, plan) {
      VersionIsReadable(st);
      CleanMergeRevivesNone(st.version, start, plan, st.SmallestSnapshot());
    }
  }

  lemma VersionIsReadable(st: State)
    requires Inv(st)
    ensures ValidVersion(st.version) && Distinct(VersionEntries(st.version))
  {
    DistinctVersion(st.version, st.history, st.flushed, st.SmallestSnapshot(), st.revived);
  }

  lemma ReadableBound(st: State, s: nat)
    requires Inv(st) && Readable(st, s)
    ensures s <= |st.history|
  {
    SmallestIsLeast(st);
  }

  lemma LastIsWhole(st: State)
    requires Inv(st) && st.group.None?
    ensures st.lastSequence == |st.history|
  {
  }
}
