/**
 The theorems about whole runs: every reachable state answers every read as the history does,
 keeps invariants (a) to (d), and never loses a write, whatever crashes in between.
 */
module DbRuns {
  import opened Optional
  import opened InternalKeys
  import opened ReadSpec
  import opened Versions
  import opened CompactionInputs
  import opened CompactionSetup
  import opened CompactionMerge
  import opened CompactionReads
  import opened RunningCompaction
  import opened Unbroken
  import opened VersionBuilder
  import opened Installing
  import opened MemTables
  import opened DbState
  import opened DbInvariant
  import opened DbBackground
  import opened DbRecovery

  // ----- snapshots, pins and garbage

  lemma SnapshotsAfterTaking(st: State)
    requires SnapshotsOk(st)
    ensures SnapshotsOk(TakeSnapshot(st)) && TakeSnapshot(st).SmallestSnapshot() == st.SmallestSnapshot()
  {
    var a, b := st.snapshots, TakeSnapshot(st).snapshots;
    forall i, j | 0 <= i < j < |b|
      ensures b[i] <= b[j]
    {
      assert a[i] in a;
    }
  }

  lemma TakeSnapshotKeepsInv(st: State)
    requires Inv(st)
    ensures Inv(TakeSnapshot(st))
  {
    hide HoldsWrites, ValidVersion, EditFits;
    var st' := TakeSnapshot(st);
    SnapshotsAfterTaking(st);
    assert MemOk(st') && LogsOk(st');
    assert Target(st') == Target(st) && st'.SmallestSnapshot() == st.SmallestSnapshot();
  }

  lemma ReleaseRaisesFloor(st: State, i: nat)
    requires SnapshotsOk(st) && CanRelease(st, i)
    ensures SnapshotsOk(Release(st, i)) && st.SmallestSnapshot() <= Release(st, i).SmallestSnapshot()
  {
    var a, b := st.snapshots, Release(st, i).snapshots;
    forall j | 0 <= j < |b|
      ensures b[j] == a[if j < i then j else j + 1] && a[0] <= b[j] && b[j] in a
    {
    }
    forall j, k | 0 <= j < k < |b|
      ensures b[j] <= b[k]
    {
      assert a[if j < i then j else j + 1] <= a[if k < i then k else k + 1];
    }
    assert a[0] in a;
    forall s | s in b
      ensures s in a
    {
      var j :| 0 <= j < |b| && b[j] == s;
    }
  }

  lemma ReleaseKeepsInv(st: State, i: nat)
    requires Inv(st) && CanRelease(st, i)
    ensures Inv(Release(st, i))
  {
    hide HoldsWrites, ValidVersion, EditFits;
    var st' := Release(st, i);
    ReleaseRaisesFloor(st, i);
    assert Target(st') == Target(st);
    HoldsWritesAbove(st.version, st.history, st.flushed, st.SmallestSnapshot(), st'.SmallestSnapshot(), st.revived);
    HoldsWritesAbove(Target(st), st.history, TargetFlushed(st), st.SmallestSnapshot(), st'.SmallestSnapshot(),
        st.revived);
    assert MemOk(st') && LogsOk(st');
  }

  lemma PinKeepsInv(st: State)
    requires Inv(st)
    ensures Inv(Pin(st))
  {
    var st' := Pin(st);
    ForegroundKept(st, st');
    assert Target(st') == Target(st);
  }

  lemma UnpinKeepsInv(st: State, i: nat)
    requires Inv(st) && i < |st.pinned|
    ensures Inv(Unpin(st, i))
  {
    var st' := Unpin(st, i);
    ForegroundKept(st, st');
    assert Target(st') == Target(st);
    assert forall v :: v in st'.pinned ==> v in st.pinned;
  }

  /** Tables whose numbers survive a deletion are still there. */
  lemma OnDiskAfterDeleting(v: Version, tables: map<nat, seq<Entry>>, tables': map<nat, seq<Entry>>, live: set<nat>)
    requires OnDisk(v, tables) && VersionNumbers(v) <= live
    requires forall n :: n in tables && n in live ==> n in tables' && tables'[n] == tables[n]
    ensures OnDisk(v, tables')
  {
    forall l, t | 0 <= l < NUM_LEVELS && t in v[l]
      ensures t.number in live
    {
      assert t.number in VersionNumbers(v);
    }
  }

  lemma PinnedIsLive(st: State, v: Version)
    requires v in st.pinned
    ensures VersionNumbers(v) <= LiveFiles(st)
  {
  }

  /**
   Collecting garbage deletes no log that recovery needs, no output of a running compaction,
   and no table of the current version, of a version a reader holds, of the version about to
   be installed or of the version the manifest names.
   */
  lemma CollectSpares(st: State)
    requires Inv(st) && CanCollect(st)
    ensures forall n :: n in st.disk.logs && n >= st.disk.manifest.logNumber ==>
              n in Collect(st).disk.logs && Collect(st).disk.logs[n] == st.disk.logs[n]
    ensures forall n :: n in st.pendingOutputs && n in st.disk.tables ==> n in Collect(st).disk.tables
    ensures OnDisk(st.version, Collect(st).disk.tables) && OnDisk(Target(st), Collect(st).disk.tables)
    ensures OnDisk(st.disk.manifest.version, Collect(st).disk.tables)
    ensures forall v :: v in st.pinned ==> OnDisk(v, Collect(st).disk.tables)
  {
    var live := LiveFiles(st) + st.pendingOutputs;
    var tables' := Collect(st).disk.tables;
    OnDiskAfterDeleting(st.version, st.disk.tables, tables', live);
    OnDiskAfterDeleting(Target(st), st.disk.tables, tables', live);
    forall v | v in st.pinned
      ensures OnDisk(v, tables')
    {
      PinnedIsLive(st, v);
      OnDiskAfterDeleting(v, st.disk.tables, tables', live);
    }
  }

  lemma CollectKeepsForeground(st: State)
    requires ForegroundOk(st)
    ensures ForegroundOk(Collect(st))
  {
  }

  lemma CollectKeepsInv(st: State)
    requires Inv(st) && CanCollect(st)
    ensures Inv(Collect(st))
  {
    hide HoldsWrites, ValidVersion, EditFits, ForegroundOk;
    CollectSpares(st);
    CollectKeepsForeground(st);
    assert Target(Collect(st)) == Target(st);
  }

  // ----- the invariant of every reachable state

  lemma ForegroundKeepsInv(st: State, a: Action, st': State)
    requires Inv(st) && Step(st, a, st')
    requires a.DoLogGroup? || a.DoSync? || a.DoInsertNext? || a.DoPublish? || a.DoSwitch? ||
             a.DoTakeSnapshot? || a.DoRelease? || a.DoPin? || a.DoUnpin?
    ensures Inv(st')
  {
    hide Inv;
    match a
    case DoLogGroup(ops) => LogGroupKeepsInv(st, ops);
    case DoSync =>
    case DoInsertNext => InsertNextKeepsInv(st);
    case DoPublish => PublishKeepsInv(st);
    case DoSwitch => SwitchKeepsInv(st);
    case DoTakeSnapshot => TakeSnapshotKeepsInv(st);
    case DoRelease(i) => ReleaseKeepsInv(st, i);
    case DoPin => PinKeepsInv(st);
    case DoUnpin(i) => UnpinKeepsInv(st, i);
  }

  lemma BackgroundKeepsInv(st: State, a: Action, st': State)
    requires Inv(st) && Step(st, a, st')
    requires a.DoBuildFlush? || a.DoStartCompaction? || a.DoBuildCompaction? || a.DoMove? ||
             a.DoPrepare? || a.DoRecord? || a.DoInstall? || a.DoCollect?
    requires !st'.overlapped
    ensures Inv(st')
  {
    hide Inv;
    match a
    case DoBuildFlush(level, size) => BuildFlushKeepsInv(st, level, size);
    case DoStartCompaction(plan) => StartCompactionKeepsInv(st, plan);
    case DoBuildCompaction(input, outs, next) => BuildCompactionKeepsInv(st, input, outs, next);
    case DoMove(plan) => MoveKeepsInv(st, plan);
    case DoPrepare => PrepareKeepsInv(st);
    case DoRecord => RecordKeepsInv(st);
    case DoInstall => InstallKeepsInv(st);
    case DoCollect => CollectKeepsInv(st);
  }

  lemma StepKeepsInv(st: State, a: Action, st': State)
    requires Inv(st) && Step(st, a, st') && !st'.overlapped
    ensures Inv(st')
  {
    hide Inv;
    match a
    case DoCrash(disks, r) => CrashKeepsInv(st, disks, r, st');
    case DoBuildFlush(_, _) | DoStartCompaction(_) | DoBuildCompaction(_, _, _) | DoMove(_)
       | DoPrepare | DoRecord | DoInstall | DoCollect => BackgroundKeepsInv(st, a, st');
    case _ => ForegroundKeepsInv(st, a, st');
  }

  lemma OverlappedStays(st: State, a: Action, st': State)
    requires Step(st, a, st') && st.overlapped
    ensures st'.overlapped
  {
  }

  /** Unless an output has been installed that overlaps another table of its level. */
  lemma {:induction false} RunKeepsInv(states: seq<State>, actions: seq<Action>, k: nat)
    requires IsRun(states, actions) && k < |states| && !states[k].overlapped
    ensures Inv(states[k])
  {
    hide Inv, IsInitial, Step;
    if k == 0 {
      InitialHasInv(states[0]);
    } else {
      NotYetOverlapped(states, actions, k);
      RunKeepsInv(states, actions, k - 1);
      StepKeepsInv(states[k - 1], actions[k - 1], states[k]);
    }
  }

  lemma NotYetOverlapped(states: seq<State>, actions: seq<Action>, k: nat)
    requires IsRun(states, actions) && 0 < k < |states| && !states[k].overlapped
    ensures !states[k - 1].overlapped
  {
    hide IsInitial, Step;
    if states[k - 1].overlapped {
      OverlappedStays(states[k - 1], actions[k - 1], states[k]);
    }
  }

  // ----- reads

  /** Entries that are too new for a read do not change it. */
  lemma IgnoreTooNew(newer: set<Entry>, es: set<Entry>, user: UserKey, s: nat)
    requires Distinct(newer + es) && forall e :: e in newer ==> e.key.sequence > s
    ensures Newest(newer + es, user, s) == Newest(es, user, s)
  {
    forall e
      ensures IsNewest(newer + es, user, s, e) <==> IsNewest(es, user, s, e)
    {
    }
    NewestTransfer(newer + es, es, user, s, s);
  }

  lemma SplitElements(h: seq<Entry>, a: nat, b: nat)
    requires a <= b <= |h|
    ensures Elements(h[..b]) == Elements(h[a..b]) + Elements(h[..a])
  {
    assert h[..b] == h[..a] + h[a..b];
  }

  /** Reading the first `b` writes: the newest of them if any is a candidate, else the first `a`. */
  lemma ReadInLayers(h: seq<Entry>, a: nat, b: nat, user: UserKey, s: nat)
    requires IsHistory(h) && a <= b <= |h|
    ensures Newest(Elements(h[..b]), user, s) ==
            if LayerGet(MemTable(h[a..b]), user, s).Some? then LayerGet(MemTable(h[a..b]), user, s)
            else Newest(Elements(h[..a]), user, s)
  {
    HistorySlice(h, a, b);
    HistorySlice(h, 0, a);
    HistorySlice(h, 0, b);
    SplitElements(h, a, b);
    DistinctSubset(Elements(h[..b]), Elements(h));
    DistinctSubset(Elements(h[a..b]), Elements(h));
    NewestOfLayers(Elements(h[a..b]), Elements(h[..a]), user, s);
    MemTableIsSorted(h[a..b]);
    LayerGetIsNewest(MemTable(h[a..b]), user, s);
  }

  lemma MemTableOfNothing(user: UserKey, s: nat)
    ensures LayerGet(MemTable([]), user, s).None?
  {
  }

  lemma VersionReadsFlushed(st: State, user: UserKey, s: nat)
    requires BackgroundOk(st) && s >= st.SmallestSnapshot() && st.flushed <= |st.history|
    requires Sound(Elements(st.history[..st.flushed]), user, s, st.revived)
    ensures SetRead(VersionEntries(st.version), user, s) == SetRead(Elements(st.history[..st.flushed]), user, s)
  {
    hide ValidVersion, SetRead;
  }

  /** A write that a layer holds is found in it, or a newer one. */
  lemma LayerHasWrite(h: seq<Entry>, a: nat, b: nat, i: nat, user: UserKey, s: nat)
    requires IsHistory(h) && a <= i < b <= |h| && h[i].key.user == user && i < s
    ensures LayerGet(MemTable(h[a..b]), user, s).Some?
  {
    HistorySlice(h, a, b);
    DistinctSubset(Elements(h[a..b]), Elements(h));
    MemTableIsSorted(h[a..b]);
    LayerGetIsNewest(MemTable(h[a..b]), user, s);
    assert h[a..b][i - a] == h[i] && h[i] in Elements(h[a..b]) && Candidate(h[i], user, s);
    NewestIsNone(Elements(h[a..b]), user, s);
  }

  /** A trusted key whose write is not in a table yet has it in one of the memtables. */
  lemma TrustedIsSound(st: State, h: seq<Entry>, n: nat, user: UserKey, s: nat)
    requires CountersOk(st) && IsHistory(h) && st.history <= h && st.switched <= n <= |h| && s <= n
    requires Trusted(st, user, s)
    ensures || Sound(Elements(h[..st.flushed]), user, s, st.revived)
            || LayerGet(MemTable(h[st.flushed..st.switched]), user, s).Some?
            || LayerGet(MemTable(h[st.switched..n]), user, s).Some?
  {
    if user in st.revived {
      var i: nat :| st.revived[user] <= i < s && i < |st.history| && st.history[i].key.user == user;
      assert h[i] == st.history[i];
      if i < st.flushed {
        assert h[..st.flushed][i] == h[i] && h[i] in Elements(h[..st.flushed]);
      } else if i < st.switched {
        LayerHasWrite(h, st.flushed, st.switched, i, user, s);
      } else {
        LayerHasWrite(h, st.switched, n, i, user, s);
      }
    }
  }

  /** The three layers read as the first `n` writes, when the memtable has received `n`. */
  lemma ReadOfFirst(st: State, h: seq<Entry>, n: nat, user: UserKey, s: nat)
    requires Inv(st) && IsHistory(h) && st.history <= h && st.switched <= n <= |h| && st.SmallestSnapshot() <= s <= n
    requires Trusted(st, user, s)
    ensures ReadFrom(MemTable(h[st.switched..n]), st.imm, st.version, user, s) == SetRead(Elements(h[..n]), user, s)
  {
    hide BackgroundOk, LogsOk, Newest, MemTable, LayerGet, Sound, Trusted;
    ReadInLayers(h, st.switched, n, user, s);
    ReadInLayers(h, st.flushed, st.switched, user, s);
    assert h[st.flushed..st.switched] == st.history[st.flushed..st.switched];
    if st.imm.None? {
      assert h[st.flushed..st.switched] == [];
      MemTableOfNothing(user, s);
    }
    TrustedIsSound(st, h, n, user, s);
    assert h[..st.flushed] == st.history[..st.flushed];
    if Sound(Elements(h[..st.flushed]), user, s, st.revived) {
      VersionReadsFlushed(st, user, s);
    }
  }

  lemma InsertedBounds(st: State)
    requires Inv(st)
    ensures st.switched <= st.lastSequence <= |st.history| - Pending(st)
    ensures st.mem == MemTable(st.history[st.switched..|st.history| - Pending(st)])
    ensures IsHistory(st.history)
    ensures forall s: nat :: Readable(st, s) ==> st.SmallestSnapshot() <= s <= st.lastSequence
  {
    SmallestIsLeast(st);
  }

  /**
   A reader takes hold of the memtables and the version and then lets go of the mutex.  Writes
   that reach the same memtable afterwards do not change what it finds.
   */
  lemma LateReadIsHistoryRead(st: State, more: seq<Entry>, n: nat, user: UserKey, s: nat)
    requires Inv(st) && Readable(st, s) && IsHistory(st.history + more) && Trusted(st, user, s)
    requires |st.history| - Pending(st) <= n <= |st.history + more|
    ensures s <= |st.history|
    ensures ReadFrom(MemTable((st.history + more)[st.switched..n]), st.imm, st.version, user, s) ==
            HistoryRead(st.history, user, s)
  {
    InsertedBounds(st);
    hide Inv, Readable, Newest, ReadFrom, MemTable, HistoryRead, Trusted;
    var h := st.history + more;
    ReadOfFirst(st, h, n, user, s);
    HistorySlice(h, n, |h|);
    SplitElements(h, n, |h|);
    assert h[..|h|] == h;
    HistoryReadIsSetRead(h, user, s);
    HistoryReadIsStable(st.history, more, user, s);
    IgnoreTooNew(Elements(h[n..|h|]), Elements(h[..n]), user, s);
  }

  /**
   A read at LastSequence or at any live snapshot returns the last of the first `s` writes
   to its key, and a tombstone reads as absence, unless a compaction has revived the key and no
   write after that is among the first `s`.
   */
  lemma ReadIsHistoryRead(st: State, user: UserKey, s: nat)
    requires Inv(st) && Readable(st, s) && Trusted(st, user, s)
    ensures s <= |st.history| && Read(st, user, s) == HistoryRead(st.history, user, s)
  {
    hide Inv, Readable, ReadFrom, MemTable, HistoryRead, IsHistory, Trusted;
    InsertedBounds(st);
    assert st.history + [] == st.history;
    LateReadIsHistoryRead(st, [], |st.history| - Pending(st), user, s);
  }

  /** In every reachable state, for every key that has not been revived since it was last written. */
  lemma ReadsOfRun(states: seq<State>, actions: seq<Action>, k: nat, user: UserKey, s: nat)
    requires IsRun(states, actions) && k < |states| && !states[k].overlapped
    requires Readable(states[k], s) && Trusted(states[k], user, s)
    ensures s <= |states[k].history| && Read(states[k], user, s) == HistoryRead(states[k].history, user, s)
  {
    RunKeepsInv(states, actions, k);
    ReadIsHistoryRead(states[k], user, s);
  }

  // ----- the history only grows

  /** Everything revived stays so, at the same point or a later one. */
  ghost predicate NoEarlier(a: Revivals, b: Revivals) {
    forall user :: user in a ==> user in b && a[user] <= b[user]
  }

  lemma StepExtendsHistory(st: State, a: Action, st': State)
    requires Inv(st) && Step(st, a, st')
    ensures st.history <= st'.history && NoEarlier(st.revived, st'.revived)
    ensures st'.revived != st.revived ==> a.DoBuildCompaction?
    ensures st'.history != st.history ==> a.DoLogGroup?
    ensures st'.lastSequence != st.lastSequence ==> st'.lastSequence == |st'.history|
    ensures st.lastSequence <= st'.lastSequence
  {
    hide BackgroundOk, MemOk, LogsOk, HistoryOk, RevivedBy, EditFits;
    RevivedBelowFlushed(st);
    match a
    case DoCrash(disks, r) => CrashKeepsInv(st, disks, r, st');
    case DoBuildCompaction(_, _, _) =>
    case _ => assert st'.revived == st.revived;
  }

  lemma RevivedBelowFlushed(st: State)
    requires Inv(st)
    ensures forall user :: user in st.revived ==> st.revived[user] <= st.flushed
  {
    hide TargetOk, ManifestsOk, RunningOk, ForegroundOk, ValidVersion;
  }

  lemma StepOfRun(states: seq<State>, actions: seq<Action>, k: nat)
    requires IsRun(states, actions) && 0 < k < |states| && !states[k].overlapped
    ensures states[k - 1].history <= states[k].history && states[k - 1].lastSequence <= states[k].lastSequence
    ensures NoEarlier(states[k - 1].revived, states[k].revived)
    ensures states[k].lastSequence == states[k - 1].lastSequence || states[k].lastSequence == |states[k].history|
  {
    hide Inv, IsInitial, Step;
    NotYetOverlapped(states, actions, k);
    RunKeepsInv(states, actions, k - 1);
    StepExtendsHistory(states[k - 1], actions[k - 1], states[k]);
  }

  lemma {:induction false} RunExtendsHistory(states: seq<State>, actions: seq<Action>, j: nat, k: nat)
    requires IsRun(states, actions) && j <= k < |states| && !states[k].overlapped
    ensures states[j].history <= states[k].history && states[j].lastSequence <= states[k].lastSequence
    ensures NoEarlier(states[j].revived, states[k].revived) && !states[j].overlapped
  {
    if j < k {
      NotYetOverlapped(states, actions, k);
      RunExtendsHistory(states, actions, j, k - 1);
      StepOfRun(states, actions, k);
    }
  }

  /** Which keys the compaction of a step revives. */
  ghost function RevivedInStep(st: State, a: Action): set<UserKey> {
    if a.DoBuildCompaction? && st.running.Some?
    then RevivedBy(st.version, st.running.value.plan, st.running.value.snap)
    else {}
  }

  /** A key is revived only by a merge whose lower inputs are followed by a boundary file. */
  ghost predicate CutsKey(st: State, a: Action) {
    && a.DoBuildCompaction? && st.running.Some?
    && var p := st.running.value.plan;
      p.level + 1 < NUM_LEVELS
      && exists k :: IsLargestKey(p.inputs1, k) && HasBoundaryFile(st.version[p.level + 1], k)
  }

  lemma OnlyCutsRevive(st: State, a: Action, st': State)
    requires Inv(st) && Step(st, a, st')
    ensures st'.revived == WithRevived(st.revived, RevivedInStep(st, a), st.flushed)
    ensures !CutsKey(st, a) ==> st'.revived == st.revived
  {
    hide Inv, RevivedBy;
    if a.DoBuildCompaction? {
      if !CutsKey(st, a) {
        UncutRevivesNone(st);
      }
    } else {
      StepExtendsHistory(st, a, st');
    }
  }

  lemma UncutRevivesNone(st: State)
    requires Inv(st) && st.running.Some?
    ensures var p := st.running.value.plan;
            && p.level + 1 < NUM_LEVELS
            && ((forall k :: IsLargestKey(p.inputs1, k) ==> !HasBoundaryFile(st.version[p.level + 1], k)) ==>
               RevivedBy(st.version, p, st.running.value.snap) == {})
  {
    hide LogsOk, SnapshotsOk, MemOk, ManifestsOk, TargetOk, RevivedBy;
    DistinctVersion(st.version, st.history, st.flushed, st.SmallestSnapshot(), st.revived);
    var p := st.running.value.plan;
    if forall k :: IsLargestKey(p.inputs1, k) ==> !HasBoundaryFile(st.version[p.level + 1], k) {
      NothingResurrects(st.version, p, st.running.value.snap);
    }
  }

  /** In a run in which no merge cuts a key off from its older versions, all keys read right. */
  lemma {:induction false} NoCutsNoneRevived(states: seq<State>, actions: seq<Action>, k: nat)
    requires IsRun(states, actions) && k < |states| && !states[k].overlapped
    requires forall i :: 0 <= i < k ==> !CutsKey(states[i], actions[i])
    ensures states[k].revived == map[]
  {
    hide Inv, IsInitial, Step, CutsKey;
    if k == 0 {
      InitialHasInv(states[0]);
    } else {
      NotYetOverlapped(states, actions, k);
      NoCutsNoneRevived(states, actions, k - 1);
      RunKeepsInv(states, actions, k - 1);
      OnlyCutsRevive(states[k - 1], actions[k - 1], states[k]);
    }
  }

  // ----- flushes while a compaction runs

  /** The inputs of the compaction of this step, if it starts one, leave no room between them. */
  ghost predicate StartsTogether(a: Action) {
    a.DoStartCompaction? ==> HangTogether(a.plan.inputs0 + a.plan.inputs1)
  }

  /** The inputs of the running compaction hang together, and nothing has gone between them. */
  ghost predicate RunsTogether(st: State) {
    && (st.running.Some? ==>
          var p := st.running.value.plan;
          && HangTogether(p.inputs0 + p.inputs1)
          && SafeInputs(st.version, p.level, p.inputs0, p.inputs1)
          && SafeInputs(Target(st), p.level, p.inputs0, p.inputs1))
    && (HasEdit(st.phase) ==> EditFits(st.version, st.phase.edit))
  }

  lemma FlushRunsTogether(st: State, level: nat, size: nat)
    requires Inv(st) && RunsTogether(st) && CanBuildFlush(st, level)
    ensures RunsTogether(BuildFlush(st, level, size))
  {
    hide ReadsAsWrites, LogsOk, SnapshotsOk, ManifestsOk, HangTogether, SafeInputs, EditFits, TargetOk, ValidVersion;
    ImmHoldsItsWrites(st);
    if st.imm.value == [] {
      VersionOkNoFlush(st.version, st.history, st.flushed, st.SmallestSnapshot(), st.revived);
      NothingFits(st.version);
    } else {
      var t := Table(st.nextFile, size, st.imm.value);
      MayFlushNextWrites(st.version, st.history, st.flushed, st.switched, st.SmallestSnapshot(), level, t, st.revived);
      FlushEditFits(st.version, level, t);
      if st.running.Some? {
        FlushKeepsSafe(st.version, st.running.value.plan, level, t);
      }
    }
  }

  lemma NothingFits(v: Version)
    ensures EditFits(v, Edit({}, []))
  {
  }

  lemma MergeRunsTogether(st: State, input: seq<Entry>, outs: seq<Table>, next: nat)
    requires Inv(st) && RunsTogether(st) && CanBuildCompaction(st, input, outs, next)
    ensures RunsTogether(BuildCompaction(st, outs, next))
  {
    hide ForegroundOk, HoldsWrites, TargetOk, ManifestsOk, HangTogether;
    MergeFitsNow(st, input, outs, next);
    hide SafeInputs, EditFits, MergeableInputs, WellFormed;
    SafeOutputsFit(st.version, st.running.value.plan, outs);
    ReplaceEditFitsIff(st.version, st.running.value.plan, outs);
  }

  lemma MoveRunsTogether(st: State, plan: Plan)
    requires Inv(st) && RunsTogether(st) && CanMove(st, plan)
    ensures RunsTogether(Move(st, plan))
  {
    hide LogsOk, SnapshotsOk, MemOk, TargetOk, ManifestsOk, HangTogether, SafeInputs, EditFits, HoldsWrites;
    hide ValidVersion;
    MovedHoldsWrites(st.version, st.history, st.flushed, st.SmallestSnapshot(), plan, st.revived);
  }

  lemma StepRunsTogether(st: State, a: Action, st': State)
    requires Inv(st) && RunsTogether(st) && Step(st, a, st') && StartsTogether(a)
    ensures RunsTogether(st') && !st'.overlapped
  {
    hide HangTogether, ForegroundOk, SafeInputs, EditFits, VersionsOk, TargetOk, ManifestsOk, FitsIn, MergeableInputs;
    match a
    case DoBuildFlush(level, size) => FlushRunsTogether(st, level, size);
    case DoBuildCompaction(input, outs, next) => MergeRunsTogether(st, input, outs, next);
    case DoMove(plan) => MoveRunsTogether(st, plan);
    case _ =>
  }

  /**
   If the inputs of every compaction of a run hang together, as those of PickCompaction do, then
   no installed output ever overlaps another table, and all that is said of runs holds of every
   state.
   */
  lemma {:induction false} NoneOverlaps(states: seq<State>, actions: seq<Action>, k: nat)
    requires IsRun(states, actions) && k < |states|
    requires forall i {:trigger actions[i]} :: 0 <= i < k ==> StartsTogether(actions[i])
    ensures !states[k].overlapped && RunsTogether(states[k])
  {
    hide Inv, IsInitial, Step, StartsTogether;
    if k == 0 {
      InitialHasInv(states[0]);
      InitialIsIdle(states[0]);
    } else {
      NoneOverlaps(states, actions, k - 1);
      RunKeepsInv(states, actions, k - 1);
      StepRunsTogether(states[k - 1], actions[k - 1], states[k]);
    }
  }

  lemma InitialIsIdle(st: State)
    requires IsInitial(st)
    ensures st.running.None? && st.phase.Idle? && !st.overlapped
  {
  }

  /**
   The first state of a run whose installed outputs overlap another table is the first whose
   manifest names a version with tables out of order.
   */
  lemma OverlapIsDisorder(states: seq<State>, actions: seq<Action>, k: nat)
    requires IsRun(states, actions) && 0 < k < |states| && !states[k - 1].overlapped
    ensures states[k].overlapped <==> !ValidVersion(states[k].disk.manifest.version)
  {
    RunKeepsInv(states, actions, k - 1);
    var st, st' := states[k - 1], states[k];
    if actions[k - 1].DoRecord? {
      RecordIsValidIff(st);
    } else {
      OnlyRecordsOverlap(st, actions[k - 1], st');
      StepKeepsInv(st, actions[k - 1], st');
      ManifestIsValid(st');
    }
  }

  lemma OnlyRecordsOverlap(st: State, a: Action, st': State)
    requires Step(st, a, st') && !a.DoRecord?
    ensures st'.overlapped == st.overlapped
  {
  }

  lemma ManifestIsValid(st: State)
    requires Inv(st)
    ensures ValidVersion(st.disk.manifest.version)
  {
    hide HoldsWrites, ForegroundOk, RunningOk, EditFits, ValidVersion;
  }

  lemma TrustedBefore(states: seq<State>, actions: seq<Action>, j: nat, k: nat, user: UserKey, s: nat)
    requires IsRun(states, actions) && j <= k < |states| && !states[k].overlapped
    requires Readable(states[j], s) && Trusted(states[k], user, s)
    ensures Trusted(states[j], user, s)
  {
    RunExtendsHistory(states, actions, j, k);
    RunKeepsInv(states, actions, j);
    InsertedBounds(states[j]);
    hide Inv;
  }

  /** Two reads at one sequence number agree, however far apart in the run and across crashes. */
  lemma SnapshotReadsAreRepeatable(states: seq<State>, actions: seq<Action>, j: nat, k: nat, user: UserKey, s: nat)
    requires IsRun(states, actions) && j <= k < |states| && !states[k].overlapped
    requires Readable(states[j], s) && Readable(states[k], s) && Trusted(states[k], user, s)
    ensures Read(states[j], user, s) == Read(states[k], user, s)
  {
    RunExtendsHistory(states, actions, j, k);
    TrustedBefore(states, actions, j, k, user, s);
    ReadsOfRun(states, actions, j, user, s);
    ReadsOfRun(states, actions, k, user, s);
    var h, h' := states[j].history, states[k].history;
    assert h' == h + h'[|h|..];
    HistoryReadIsStable(h, h'[|h|..], user, s);
  }

  /**
   A reader that took hold of a state's memtables and version, and pinned the version, finds
   the same answer at any later point of the run, and the tables it needs are still there.
   */
  lemma PinnedReadsAreStable(states: seq<State>, actions: seq<Action>, j: nat, k: nat, n: nat, user: UserKey, s: nat)
    requires IsRun(states, actions) && j <= k < |states| && !states[k].overlapped
    requires Readable(states[j], s) && Trusted(states[j], user, s)
    requires |states[j].history| - Pending(states[j]) <= n <= |states[k].history|
    requires states[j].version in states[k].pinned
    ensures s <= |states[j].history| && states[j].history <= states[k].history && states[j].switched <= n
    ensures ReadFrom(MemTable(states[k].history[states[j].switched..n]), states[j].imm, states[j].version, user, s) ==
            HistoryRead(states[j].history, user, s)
    ensures OnDisk(states[j].version, states[k].disk.tables)
  {
    RunExtendsHistory(states, actions, j, k);
    RunKeepsInv(states, actions, j);
    RunKeepsInv(states, actions, k);
    InsertedBounds(states[j]);
    InsertedBounds(states[k]);
    PinnedOnDisk(states[k], states[j].version);
    hide Inv, Readable, ReadFrom, MemTable, HistoryRead, IsRun, OnDisk, Trusted;
    var h, h' := states[j].history, states[k].history;
    assert h' == h + h'[|h|..];
    LateReadIsHistoryRead(states[j], h'[|h|..], n, user, s);
  }

  lemma PinnedOnDisk(st: State, v: Version)
    requires Inv(st) && v in st.pinned
    ensures OnDisk(v, st.disk.tables)
  {
  }

  /** LastSequence always stands at the end of a group, so a group is visible whole or not at all. */
  lemma {:induction false} LastSequenceEndsAGroup(states: seq<State>, actions: seq<Action>, k: nat)
    requires IsRun(states, actions) && k < |states| && !states[k].overlapped
    ensures exists j :: 0 <= j <= k && states[k].lastSequence == |states[j].history|
  {
    if k == 0 {
      InitialHasInv(states[0]);
      assert states[0].lastSequence == |states[0].history|;
    } else {
      NotYetOverlapped(states, actions, k);
      LastSequenceEndsAGroup(states, actions, k - 1);
      StepOfRun(states, actions, k);
    }
  }

  /**
   A crash at any point of a run, followed by any number of opens that crash as well, loses
   no write that had reached the log: the reopened database reads as the whole history.
   */
  lemma CrashLosesNothing(states: seq<State>, actions: seq<Action>, k: nat,
                          disks: seq<Disk>, r: Recovery, st': State, user: UserKey)
    requires IsRun(states, actions) && k < |states| && !states[k].overlapped
    requires CrashesTo(states[k], disks, r, st') && Trusted(states[k], user, |states[k].history|)
    ensures st'.lastSequence == |states[k].history|
    ensures Read(st', user, st'.lastSequence) == HistoryRead(states[k].history, user, |states[k].history|)
  {
    RunKeepsInv(states, actions, k);
    CrashKeepsInv(states[k], disks, r, st');
    ReadIsHistoryRead(st', user, st'.lastSequence);
  }

  lemma MemEntriesAreNew(st: State)
    requires HistoryOk(st.history) && CountersOk(st) && MemOk(st)
    ensures Sorted(st.mem) && forall e :: e in st.mem ==> e.key.sequence > st.switched
  {
    var h, n := st.history, |st.history| - Pending(st);
    HistorySlice(h, st.switched, n);
    MemTableIsSorted(h[st.switched..n]);
    forall e | e in st.mem
      ensures e.key.sequence > st.switched
    {
      assert e in Elements(st.mem);
    }
  }

  lemma TableEntriesAreOld(v: Version, h: seq<Entry>, f: nat, floor: nat, revived: Revivals)
    requires HistoryOk(h) && VersionOk(v, h, f, floor, revived)
    ensures forall e :: e in VersionEntries(v) ==> e.key.sequence <= f
  {
    HistorySlice(h, 0, f);
    forall e | e in VersionEntries(v)
      ensures e.key.sequence <= f
    {
      assert e in Elements(h[..f]);
    }
  }

  /** Invariant (d): the memtable is newer than the immutable memtable, and that than all tables. */
  ghost predicate LayersOrdered(st: State) {
    && (forall e, f :: e in st.mem && f in VersionEntries(st.version) ==> e.key.sequence > f.key.sequence)
    && (st.imm.Some? ==>
          && (forall e, f :: e in st.mem && f in st.imm.value ==> e.key.sequence > f.key.sequence)
          && (forall e, f :: e in st.imm.value && f in VersionEntries(st.version) ==> e.key.sequence > f.key.sequence))
  }

  lemma LayersAreOrdered(st: State)
    requires Inv(st)
    ensures Sorted(st.mem) && LayersOrdered(st)
  {
    MemEntriesAreNew(st);
    TableEntriesAreOld(st.version, st.history, st.flushed, st.SmallestSnapshot(), st.revived);
    if st.imm.Some? {
      ImmHoldsItsWrites(st);
    }
  }

  /** Invariants (a) to (d) in every reachable state. */
  lemma OrderOfRun(states: seq<State>, actions: seq<Action>, k: nat)
    requires IsRun(states, actions) && k < |states| && !states[k].overlapped
    ensures ValidVersion(states[k].version) && Sorted(states[k].mem) && LayersOrdered(states[k])
  {
    RunKeepsInv(states, actions, k);
    LayersAreOrdered(states[k]);
  }
}
