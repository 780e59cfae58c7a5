/**
 Why replaying the records of a manifest gives the version that installing them one by one led
 to (VersionSet::Recover and VersionSet::LogAndApply, db/version_set.cc): along every run no
 (level, file number) is ever added twice, because a table only ever moves to deeper levels
 and a new table takes an unused number.
 */
module ManifestReplay {
  import opened InternalKeys
  import opened ReadSpec
  import opened Versions
  import opened CompactionSetup
  import opened VersionBuilder
  import opened Installing
  import opened Flushing
  import opened CompactionReads
  import opened DbState
  import opened DbInvariant
  import opened DbBackground
  import opened DbRecovery
  import opened DbRuns

  /** The version the current manifest starts from: the one the last open recorded. */
  ghost function BaseVersion(states: seq<State>, actions: seq<Action>, k: nat): Version
    requires |states| == |actions| + 1 && k < |states|
  {
    if k == 0 || actions[k - 1].DoCrash? then states[k].disk.manifest.version
    else BaseVersion(states, actions, k - 1)
  }

  /** The edits recorded since then. */
  ghost function RecordedEdits(states: seq<State>, actions: seq<Action>, k: nat): seq<Edit>
    requires IsRun(states, actions) && k < |states|
  {
    if k == 0 || actions[k - 1].DoCrash? then []
    else if actions[k - 1].DoRecord? then
      assert Step(states[k - 1], actions[k - 1], states[k]);
      RecordedEdits(states, actions, k - 1) + [states[k - 1].phase.edit]
    else RecordedEdits(states, actions, k - 1)
  }

  ghost function Placed(v: Version): set<(nat, nat)> {
    set l, t | 0 <= l < NUM_LEVELS && t in v[l] :: (l, t.number)
  }

  /** Every (level, file number) of the base and of the edits. */
  ghost function Seen(base: Version, edits: seq<Edit>): set<(nat, nat)> {
    Placed(base) + AllNumbers(edits)
  }

  /** A table is never above a level it has been seen at. */
  ghost predicate OnlyDescends(seen: set<(nat, nat)>, v: Version) {
    forall q, l: nat, t {:trigger HasSunk(q, v, l, t)} :: q in seen && l < NUM_LEVELS && t in v[l] ==>
        HasSunk(q, v, l, t)
  }

  ghost predicate HasSunk(q: (nat, nat), v: Version, l: nat, t: Table) {
    t.number == q.1 ==> q.0 <= l
  }

  ghost predicate SeenBelow(seen: set<(nat, nat)>, n: nat) {
    forall q :: q in seen ==> q.1 < n
  }

  /** What the edit adds is new, or deeper than it has ever been. */
  ghost predicate AddsDeeper(seen: set<(nat, nat)>, e: Edit) {
    && ValidEdit(e) && AddsOnce(e.added)
    && forall p, q :: p in e.added && q in seen && p.1.number == q.1 ==> q.0 < p.0
  }

  ghost predicate ReplayOk(base: Version, edits: seq<Edit>, st: State) {
    && (forall l :: 0 <= l < NUM_LEVELS ==> InBuilderOrder(base[l]))
    && InstallAll(base, edits) == st.disk.manifest.version
    && AddsFresh(Placed(base), edits)
    && SeenBelow(Seen(base, edits), st.nextFile)
    && OnlyDescends(Seen(base, edits), st.disk.manifest.version)
    && (st.phase.Built? || st.phase.Prepared? ==> AddsDeeper(Seen(base, edits), st.phase.edit))
  }

  // ----- the edits of the background steps

  lemma NewNumbersAreDeeper(seen: set<(nat, nat)>, e: Edit, n: nat)
    requires SeenBelow(seen, n) && ValidEdit(e) && AddsOnce(e.added)
    requires forall p :: p in e.added ==> p.1.number >= n
    ensures AddsDeeper(seen, e)
  {
  }

  lemma FlushAddsDeeper(seen: set<(nat, nat)>, level: nat, t: Table)
    requires SeenBelow(seen, t.number) && level < NUM_LEVELS
    ensures AddsDeeper(seen, FlushEdit(level, t)) && AddsDeeper(seen, Edit({}, []))
  {
  }

  lemma ReplaceEditIsValid(p: Plan, outs: seq<Table>)
    requires p.level + 1 < NUM_LEVELS
    requires forall i, j :: 0 <= i < j < |outs| ==> outs[i].number != outs[j].number
    ensures ValidEdit(ReplaceEdit(p, outs)) && AddsOnce(ReplaceEdit(p, outs).added)
    ensures forall q :: q in ReplaceEdit(p, outs).added ==> q.0 == p.level + 1 && q.1 in outs
  {
    forall q | q in AtLevel(outs, p.level + 1)
      ensures q.0 == p.level + 1 && q.1 in outs
    {
      AtLevelMembers(outs, p.level + 1);
      var i :| 0 <= i < |outs| && AtLevel(outs, p.level + 1)[i] == q;
    }
  }

  lemma MoveAddsDeeper(seen: set<(nat, nat)>, v: Version, plan: Plan)
    requires OnlyDescends(seen, v) && SafeInputs(v, plan.level, plan.inputs0, plan.inputs1) && |plan.inputs0| == 1
    ensures AddsDeeper(seen, ReplaceEdit(plan, plan.inputs0))
  {
    ReplaceEditIsValid(plan, plan.inputs0);
    forall p, q | p in ReplaceEdit(plan, plan.inputs0).added && q in seen && p.1.number == q.1
      ensures q.0 < p.0
    {
      assert HasSunk(q, v, plan.level, p.1);
    }
  }

  // ----- recording an edit

  lemma AddedFreshly(base: Version, edits: seq<Edit>, e: Edit)
    requires AddsFresh(Placed(base), edits) && AddsDeeper(Seen(base, edits), e)
    ensures AddsFresh(Placed(base), edits + [e])
    ensures Seen(base, edits + [e]) == Seen(base, edits) + Numbers(e.added)
  {
    var all := edits + [e];
    assert all[..|edits|] == edits;
    forall i | 0 <= i < |all|
      ensures ValidEdit(all[i]) && AddsOnce(all[i].added)
      ensures Numbers(all[i].added) !! Placed(base) + AllNumbers(all[..i])
    {
      if i < |edits| {
        assert all[i] == edits[i] && all[..i] == edits[..i];
      }
    }
  }

  /** After recording, every table is still at or below every level it has been seen at. */
  lemma RecordedDescends(seen: set<(nat, nat)>, v: Version, e: Edit)
    requires OnlyDescends(seen, v) && AddsDeeper(seen, e)
    requires ValidVersion(Install(v, e))
    ensures OnlyDescends(seen + Numbers(e.added), Install(v, e))
  {
    var v' := Install(v, e);
    forall q, l: nat, t | q in seen + Numbers(e.added) && l < NUM_LEVELS && t in v'[l]
      ensures HasSunk(q, v', l, t)
    {
      InstallMembers(v[l], e, l);
      if q in Numbers(e.added) {
        var p :| p in e.added && q == (p.0, p.1.number);
        InstallMembers(v[p.0], e, p.0);
        assert AddedAt(e, p.0, p.1);
        assert p.1 in v'[p.0];
        assert Identified(v', p.0, p.1, l, t);
      } else if t in v[l] {
        assert HasSunk(q, v, l, t);
      }
    }
  }

  lemma RecordedBelow(v: Version, e: Edit, n: nat)
    requires NumbersBelow(Install(v, e), n) && ValidEdit(e)
    ensures SeenBelow(Numbers(e.added), n)
  {
    forall q | q in Numbers(e.added)
      ensures q.1 < n
    {
      var p :| p in e.added && q == (p.0, p.1.number);
      InstallMembers(v[p.0], e, p.0);
      assert AddedAt(e, p.0, p.1);
      assert p.1 in Install(v, e)[p.0];
      assert p.1.number in VersionNumbers(Install(v, e));
    }
  }

  /** What the invariant says about the edit about to be recorded. */
  lemma PreparedEdit(st: State)
    requires Inv(st) && CanRecord(st) && !Record(st).overlapped
    ensures st.disk.manifest.version == st.version && st.phase.record.version == Install(st.version, st.phase.edit)
    ensures ValidVersion(Install(st.version, st.phase.edit))
    ensures NumbersBelow(Install(st.version, st.phase.edit), st.nextFile)
  {
    hide HoldsWrites, ValidVersion, EditFits, ForegroundOk, RunningOk, OnDisk;
  }

  lemma RecordKeepsReplay(base: Version, edits: seq<Edit>, st: State)
    requires Inv(st) && ReplayOk(base, edits, st) && CanRecord(st) && !Record(st).overlapped
    ensures ReplayOk(base, edits + [st.phase.edit], Record(st))
  {
    PreparedEdit(st);
    RecordedEditReplays(base, edits, st);
  }

  lemma RecordedEditReplays(base: Version, edits: seq<Edit>, st: State)
    requires ReplayOk(base, edits, st) && CanRecord(st)
    requires st.disk.manifest.version == st.version && st.phase.record.version == Install(st.version, st.phase.edit)
    requires ValidVersion(Install(st.version, st.phase.edit))
    requires NumbersBelow(Install(st.version, st.phase.edit), st.nextFile)
    ensures ReplayOk(base, edits + [st.phase.edit], Record(st))
  {
    var e := st.phase.edit;
    AddedFreshly(base, edits, e);
    RecordedDescends(Seen(base, edits), st.version, e);
    RecordedBelow(st.version, e, st.nextFile);
    assert (edits + [e])[..|edits|] == edits;
  }

  lemma FreshReplay(st: State)
    requires Inv(st) && st.phase.Idle?
    ensures ReplayOk(st.disk.manifest.version, [], st)
  {
    var v := st.version;
    assert st.disk.manifest.version == v;
    forall l | 0 <= l < NUM_LEVELS
      ensures InBuilderOrder(v[l])
    {
      LevelInBuilderOrder(v, l);
    }
    assert Seen(v, []) == Placed(v);
    forall q | q in Placed(v)
      ensures q.1 < st.nextFile
    {
      assert q.1 in VersionNumbers(v);
    }
    forall q, l: nat, t | q in Placed(v) && l < NUM_LEVELS && t in v[l]
      ensures HasSunk(q, v, l, t)
    {
      var m, u :| 0 <= m < NUM_LEVELS && u in v[m] && q == (m, u.number);
      assert Identified(v, m, u, l, t);
    }
  }

  // ----- along a run

  lemma BuildKeepsReplay(base: Version, edits: seq<Edit>, st: State, a: Action, st': State)
    requires Inv(st) && ReplayOk(base, edits, st) && Step(st, a, st')
    requires a.DoBuildFlush? || a.DoBuildCompaction? || a.DoMove?
    ensures ReplayOk(base, edits, st')
  {
    var seen := Seen(base, edits);
    match a
    case DoBuildFlush(level, size) =>
      if st.imm.value == [] {
        assert st'.phase.edit.added == [];
      } else {
        FlushAddsDeeper(seen, level, Table(st.nextFile, size, st.imm.value));
      }
    case DoBuildCompaction(input, outs, next) =>
      ReplaceEditIsValid(st.running.value.plan, outs);
      NewNumbersAreDeeper(seen, st'.phase.edit, st.nextFile);
    case DoMove(plan) =>
      MoveAddsDeeper(seen, st.version, plan);
  }

  lemma StepKeepsReplay(base: Version, edits: seq<Edit>, st: State, a: Action, st': State)
    requires Inv(st) && ReplayOk(base, edits, st) && Step(st, a, st')
    requires !a.DoCrash? && !a.DoRecord?
    ensures ReplayOk(base, edits, st')
  {
    if a.DoBuildFlush? || a.DoBuildCompaction? || a.DoMove? {
      BuildKeepsReplay(base, edits, st, a, st');
    } else {
      assert st'.disk.manifest == st.disk.manifest && st'.nextFile >= st.nextFile;
      assert st'.phase == st.phase || st'.phase.Idle? || st'.phase.Prepared?;
    }
  }

  lemma OpenedReplay(st: State, disks: seq<Disk>, r: Recovery, st': State)
    requires Inv(st) && CrashesTo(st, disks, r, st')
    ensures ReplayOk(st'.disk.manifest.version, [], st')
  {
    CrashKeepsInv(st, disks, r, st');
    FreshReplay(st');
  }

  lemma InitialReplay(st: State)
    requires IsInitial(st)
    ensures ReplayOk(st.disk.manifest.version, [], st)
  {
    InitialHasInv(st);
    FreshReplay(st);
  }

  lemma NextReplay(base: Version, edits: seq<Edit>, st: State, a: Action, st': State)
    requires Inv(st) && ReplayOk(base, edits, st) && Step(st, a, st') && !st'.overlapped
    ensures a.DoCrash? ==> ReplayOk(st'.disk.manifest.version, [], st')
    ensures a.DoRecord? ==> CanRecord(st) && ReplayOk(base, edits + [st.phase.edit], st')
    ensures !a.DoCrash? && !a.DoRecord? ==> ReplayOk(base, edits, st')
  {
    if a.DoCrash? {
      OpenedReplay(st, a.disks, a.recovery, st');
    } else if a.DoRecord? {
      RecordKeepsReplay(base, edits, st);
    } else {
      StepKeepsReplay(base, edits, st, a, st');
    }
  }

  lemma RecordsStep(states: seq<State>, actions: seq<Action>, k: nat)
    requires IsRun(states, actions) && 0 < k < |states|
    ensures Step(states[k - 1], actions[k - 1], states[k])
    ensures BaseVersion(states, actions, k) ==
            if actions[k - 1].DoCrash? then states[k].disk.manifest.version else BaseVersion(states, actions, k - 1)
    ensures RecordedEdits(states, actions, k) ==
            if actions[k - 1].DoCrash? then []
            else
              RecordedEdits(states, actions, k - 1)
              + if actions[k - 1].DoRecord? then [states[k - 1].phase.edit] else []
  {
  }

  lemma ReplayOfStep(base: Version, edits: seq<Edit>, st: State, a: Action, st': State, base': Version,
                     edits': seq<Edit>)
    requires Inv(st) && ReplayOk(base, edits, st) && Step(st, a, st') && !st'.overlapped
    requires base' == if a.DoCrash? then st'.disk.manifest.version else base
    requires edits' == if a.DoCrash? then [] else edits + if a.DoRecord? then [st.phase.edit] else []
    ensures ReplayOk(base', edits', st')
  {
    hide Step, Inv, ReplayOk, Install;
    NextReplay(base, edits, st, a, st');
    if !a.DoCrash? && !a.DoRecord? {
      assert edits' == edits;
    }
  }

  lemma {:induction false} RunKeepsReplay(states: seq<State>, actions: seq<Action>, k: nat)
    requires IsRun(states, actions) && k < |states| && !states[k].overlapped
    ensures ReplayOk(BaseVersion(states, actions, k), RecordedEdits(states, actions, k), states[k])
  {
    hide Inv, ReplayOk, IsInitial, Step;
    if k == 0 {
      InitialReplay(states[0]);
    } else {
      NotYetOverlapped(states, actions, k);
      RunKeepsInv(states, actions, k - 1);
      RunKeepsReplay(states, actions, k - 1);
      RecordsStep(states, actions, k);
      ReplayOfStep(BaseVersion(states, actions, k - 1), RecordedEdits(states, actions, k - 1),
                   states[k - 1], actions[k - 1], states[k],
                   BaseVersion(states, actions, k), RecordedEdits(states, actions, k));
    }
  }

  /** At any point of any run, applying all records to one builder rebuilds the manifest's version. */
  method RecoverVersion(base: Version, edits: seq<Edit>, ghost states: seq<State>, ghost actions: seq<Action>,
                        ghost k: nat)
    returns (v: Version)
    requires IsRun(states, actions) && k < |states| && !states[k].overlapped
    requires base == BaseVersion(states, actions, k) && edits == RecordedEdits(states, actions, k)
    ensures v == states[k].disk.manifest.version
  {
    RunKeepsReplay(states, actions, k);
    v := Replay(base, edits);
  }
}
