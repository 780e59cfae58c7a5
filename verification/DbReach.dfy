/**
 Stretches of runs: writing a group, flushing the memtable, running one compaction. They build the
 concrete runs of `BoundaryGap` and `PowerLoss`.
 */
module DbReach {
  import opened Optional
  import opened InternalKeys
  import opened ReadSpec
  import opened Versions
  import opened CompactionSetup
  import opened CompactionMerge
  import opened CompactionReads
  import opened VersionBuilder
  import opened Installing
  import opened Flushing
  import opened MemTables
  import opened DbState
  import opened DbInvariant
  import opened DbBackground
  import opened DbRuns

  /** Some run, in which nothing is synced, ends in this state. */
  ghost predicate Reached(st: State) {
    exists states, actions :: EndsIn(states, actions, st)
  }

  ghost predicate EndsIn(states: seq<State>, actions: seq<Action>, st: State) {
    && IsRun(states, actions) && states[|actions|] == st
    && forall a :: a in actions ==> !a.DoSync?
  }

  lemma ReachedHasInv(st: State)
    requires Reached(st) && !st.overlapped
    ensures Inv(st)
  {
    hide Inv, IsRun;
    var states, actions :| EndsIn(states, actions, st);
    RunLength(states, actions);
    RunKeepsInv(states, actions, |actions|);
  }

  lemma RunLength(states: seq<State>, actions: seq<Action>)
    requires IsRun(states, actions)
    ensures |states| == |actions| + 1
  {
    hide IsInitial, Step;
  }

  lemma OneMoreStep(states: seq<State>, actions: seq<Action>, st: State, a: Action, st': State)
    requires EndsIn(states, actions, st) && Step(st, a, st')
    ensures IsRun(states + [st'], actions + [a])
    ensures !a.DoSync? ==> EndsIn(states + [st'], actions + [a], st')
  {
    hide IsInitial, Step;
    forall i | 0 <= i < |actions + [a]|
      ensures Step((states + [st'])[i], (actions + [a])[i], (states + [st'])[i + 1])
    {
      if i < |actions| {
        assert Step(states[i], actions[i], states[i + 1]);
      }
    }
  }

  lemma ReachStep(st: State, a: Action, st': State)
    requires Reached(st) && Step(st, a, st') && !a.DoSync?
    ensures Reached(st')
  {
    hide EndsIn, Step;
    var states, actions :| EndsIn(states, actions, st);
    OneMoreStep(states, actions, st, a, st');
  }

  // ----- writing

  /** Only what writing changes may differ. */
  ghost predicate SameButWrites(st: State, st': State) {
    && st'.flushed == st.flushed && st'.switched == st.switched && st'.imm == st.imm && st'.version == st.version
    && st'.nextFile == st.nextFile && st'.logFile == st.logFile && st'.logNumber == st.logNumber
    && st'.snapshots == st.snapshots && st'.running == st.running && st'.phase == st.phase
    && st'.revived == st.revived && st'.overlapped == st.overlapped
  }

  lemma {:induction false} InsertGroup(st: State) returns (st': State)
    requires Reached(st) && st.group.Some?
    ensures Reached(st') && st'.group == Some([]) && SameButWrites(st, st') && st'.history == st.history
    ensures st'.lastSequence == st.lastSequence
    decreases if st.group.Some? then |st.group.value| else 0
  {
    hide Reached;
    if st.group.value == [] {
      st' := st;
    } else {
      ReachStep(st, DoInsertNext, InsertNext(st));
      st' := InsertGroup(InsertNext(st));
    }
  }

  lemma LogIsThere(st: State)
    requires Inv(st) && st.group.None?
    ensures st.lastSequence == |st.history| && st.logFile in st.disk.logs
    ensures st.mem == MemTable(st.history[st.switched..]) && st.switched <= |st.history|
  {
    assert st.history[st.switched..|st.history|] == st.history[st.switched..];
  }

  lemma LogOnly(st: State, ops: seq<Op>) returns (st': State)
    requires Reached(st) && !st.overlapped && st.group.None?
    requires ops != [] && |st.history| + |ops| < MAX_SEQUENCE
    ensures Reached(st') && st'.group == Some(Stamp(ops, |st.history| + 1))
    ensures st'.history == st.history + Stamp(ops, |st.history| + 1) && SameButWrites(st, st')
    ensures st'.lastSequence == st.lastSequence
  {
    hide Reached, Inv;
    ReachedHasInv(st);
    LogIsThere(st);
    ReachStep(st, DoLogGroup(ops), LogGroup(st, ops));
    st' := LogGroup(st, ops);
  }

  lemma WriteGroup(st: State, ops: seq<Op>) returns (st': State)
    requires Reached(st) && !st.overlapped && st.group.None?
    requires ops != [] && |st.history| + |ops| < MAX_SEQUENCE
    ensures Reached(st') && st'.group.None? && st'.history == st.history + Stamp(ops, |st.history| + 1)
    ensures st'.lastSequence == |st'.history| && SameButWrites(st, st')
  {
    hide Reached, Inv, Stamp;
    var a := LogOnly(st, ops);
    var b := InsertGroup(a);
    ReachStep(b, DoPublish, Publish(b));
    st' := Publish(b);
  }

  // ----- background work

  /** Nothing is being written or flushed. */
  ghost predicate CanFlush(st: State) {
    st.group.None? && st.imm.None? && st.phase.Idle? && !st.overlapped
  }

  /** Nothing is being written, flushed or compacted. */
  ghost predicate Quiet(st: State) {
    CanFlush(st) && st.running.None?
  }

  lemma Apply(st: State) returns (st': State)
    requires Reached(st) && st.phase.Built? && (st.phase.flush ==> st.imm.Some?)
    ensures Reached(st') && st'.phase.Idle? && st'.version == Install(st.version, st.phase.edit)
    ensures st'.imm == (if st.phase.flush then None else st.imm) && st'.group == st.group && st'.mem == st.mem
    ensures st'.history == st.history && st'.lastSequence == st.lastSequence && st'.switched == st.switched
    ensures st'.snapshots == st.snapshots && st'.revived == st.revived && st'.nextFile == st.nextFile
    ensures st'.running == st.running
    ensures st'.overlapped == (st.overlapped || !EditFits(st.version, st.phase.edit))
  {
    hide Reached, Install, EditFits;
    var a := Prepare(st);
    ReachStep(st, DoPrepare, a);
    var b := Record(a);
    ReachStep(a, DoRecord, b);
    st' := InstallCurrent(b);
    ReachStep(b, DoInstall, st');
  }

  lemma SwitchMem(st: State) returns (st': State)
    requires Reached(st) && CanFlush(st) && st.switched <= |st.history|
    ensures st'.running == st.running && !st'.overlapped
    ensures Reached(st') && st'.imm == Some(MemTable(st.history[st.switched..])) && st'.group.None? && st'.phase.Idle?
    ensures st'.history == st.history && st'.version == st.version && st'.switched == |st.history|
    ensures st'.flushed == st.flushed
    ensures st'.lastSequence == st.lastSequence && st'.snapshots == st.snapshots && st'.revived == st.revived
    ensures st'.nextFile == st.nextFile + 1 && st'.logFile == st.nextFile && st'.logNumber == st.logNumber
    ensures st'.mem == []
  {
    hide Reached, Inv;
    ReachedHasInv(st);
    LogIsThere(st);
    st' := Switch(st);
    ReachStep(st, DoSwitch, st');
  }

  /** The memtable becomes one table of a level, perhaps while a compaction runs. */
  lemma FlushBeside(st: State, level: nat, size: nat, es: seq<Entry>) returns (st': State)
    requires Reached(st) && CanFlush(st) && st.switched <= |st.history| && es == MemTable(st.history[st.switched..])
    requires es != []
    requires level <= MAX_MEM_COMPACT_LEVEL
    requires level > 0 ==> ClearDownTo(st.version, level, es[0].key.user, es[|es| - 1].key.user)
    ensures Reached(st') && CanFlush(st') && st'.history == st.history && st'.lastSequence == st.lastSequence
    ensures st'.running == st.running && st'.mem == []
    ensures st'.version == Install(st.version, FlushEdit(level, Table(st.nextFile + 1, size, es)))
    ensures st'.switched == |st.history| && st'.nextFile == st.nextFile + 2
    ensures st'.snapshots == st.snapshots && st'.revived == st.revived
  {
    hide Reached, Install, FlushEdit, ClearDownTo, MemTable, EditFits, Inv;
    var a := SwitchMem(st);
    var b := BuildFlush(a, level, size);
    ReachStep(a, DoBuildFlush(level, size), b);
    ReachedHasInv(b);
    FlushesFit(b);
    st' := Apply(b);
  }

  /** The memtable becomes one table of a level. */
  lemma FlushTo(st: State, level: nat, size: nat, es: seq<Entry>) returns (st': State)
    requires Reached(st) && Quiet(st) && st.switched <= |st.history| && es == MemTable(st.history[st.switched..])
    requires es != []
    requires level <= MAX_MEM_COMPACT_LEVEL
    requires level > 0 ==> ClearDownTo(st.version, level, es[0].key.user, es[|es| - 1].key.user)
    ensures Reached(st') && Quiet(st') && st'.history == st.history && st'.lastSequence == st.lastSequence
    ensures st'.version == Install(st.version, FlushEdit(level, Table(st.nextFile + 1, size, es)))
    ensures st'.switched == |st.history| && st'.nextFile == st.nextFile + 2
    ensures st'.snapshots == st.snapshots && st'.revived == st.revived
  {
    hide Reached, Install, FlushEdit, ClearDownTo, MemTable;
    st' := FlushBeside(st, level, size, es);
  }

  /** The merge of a running compaction ends, and its outputs are installed. */
  lemma FinishMerge(st: State, input: seq<Entry>, outs: seq<Table>) returns (st': State)
    requires Reached(st) && st.group.None? && st.imm.None? && st.phase.Idle? && st.running.Some?
    requires IsCompaction(st.running.value.base, st.running.value.plan, input, st.running.value.snap, outs)
    requires forall t :: t in outs ==> st.nextFile <= t.number < st.nextFile + |outs|
    ensures Reached(st') && st'.group.None? && st'.imm.None? && st'.phase.Idle? && st'.running.None?
    ensures st'.mem == st.mem && st'.history == st.history && st'.lastSequence == st.lastSequence
    ensures st'.version == Install(st.version, ReplaceEdit(st.running.value.plan, outs))
    ensures st'.switched == st.switched && st'.nextFile == st.nextFile + |outs| && st'.snapshots == st.snapshots
    ensures st'.revived ==
            WithRevived(st.revived, RevivedBy(st.version, st.running.value.plan, st.running.value.snap), st.flushed)
    ensures st'.overlapped == (st.overlapped || !EditFits(st.version, ReplaceEdit(st.running.value.plan, outs)))
  {
    hide Reached, Install, ReplaceEdit, IsCompaction, RevivedBy, EditFits;
    var b := BuildCompaction(st, outs, st.nextFile + |outs|);
    ReachStep(st, DoBuildCompaction(input, outs, st.nextFile + |outs|), b);
    st' := Apply(b);
  }

  /** One compaction, whatever keys it revives. */
  lemma CompactBy(st: State, plan: Plan, input: seq<Entry>, outs: seq<Table>) returns (st': State)
    requires Reached(st) && Quiet(st) && SafeInputs(st.version, plan.level, plan.inputs0, plan.inputs1)
    requires IsCompaction(st.version, plan, input, st.SmallestSnapshot(), outs)
    requires forall t :: t in outs ==> st.nextFile <= t.number < st.nextFile + |outs|
    ensures Reached(st') && Quiet(st') && st'.history == st.history && st'.lastSequence == st.lastSequence
    ensures st'.version == Install(st.version, ReplaceEdit(plan, outs))
    ensures st'.switched == st.switched && st'.nextFile == st.nextFile + |outs| && st'.snapshots == st.snapshots
    ensures st'.revived == WithRevived(st.revived, RevivedBy(st.version, plan, st.SmallestSnapshot()), st.flushed)
  {
    hide Reached, Install, ReplaceEdit, SafeInputs, IsCompaction, RevivedBy, EditFits;
    SafeMergeFits(st, plan, input, outs);
    var a := StartCompaction(st, plan);
    ReachStep(st, DoStartCompaction(plan), a);
    st' := FinishMerge(a, input, outs);
  }

  lemma SafeMergeFits(st: State, plan: Plan, input: seq<Entry>, outs: seq<Table>)
    requires Reached(st) && !st.overlapped && SafeInputs(st.version, plan.level, plan.inputs0, plan.inputs1)
    requires IsCompaction(st.version, plan, input, st.SmallestSnapshot(), outs)
    ensures EditFits(st.version, ReplaceEdit(plan, outs))
  {
    hide Reached, EditFits, MergeableInputs, HoldsWrites, ForegroundOk;
    ReachedHasInv(st);
    SafeOutputsFit(st.version, plan, outs);
    ReplaceEditFitsIff(st.version, plan, outs);
  }

  /** A new database. */
  lemma NewDatabase() returns (st: State)
    ensures Reached(st) && Quiet(st) && st.history == [] && st.lastSequence == 0 && st.switched == 0 && st.flushed == 0
    ensures st.version == [[], [], [], [], [], [], []] && st.snapshots == [] && st.revived == map[] && st.nextFile == 4
    ensures st.logFile == 3 && st.logNumber == 3
  {
    var r := Recovery([], [], [], 3);
    EmptyLogs();
    assert ValidRecovery(NEW_DISK, r);
    st := Reopen(NEW_DISK, r, [], map[]);
    NewVersion();
    assert EndsIn([st], [], st);
  }

  lemma EmptyLogs()
    ensures TopLog(NEW_DISK.logs) == 0 && ReplayedLog(NEW_DISK) == []
  {
    assert NEW_DISK.logs.Keys == {};
  }

  lemma NewVersion()
    ensures Install(NEW_DISK.manifest.version, Edit({}, AtLevel([], 0))) == [[], [], [], [], [], [], []]
  {
    var v := NEW_DISK.manifest.version;
    forall l | 0 <= l < NUM_LEVELS
      ensures InstallLevel(v[l], Edit({}, AtLevel([], 0)), l) == []
    {
    }
  }
}
