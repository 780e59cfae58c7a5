/**
 The queue of writers refines the state machine of the database: every run of `GroupCommit` is a
 run of `DbState` in which the groups are logged, inserted and published in turn.
 */
module GroupRefinement {
  import opened Optional
  import opened InternalKeys
  import opened ReadSpec
  import opened DbState
  import opened DbInvariant
  import opened DbRuns
  import opened DbReach
  import G = GroupCommit

  /** What of the group at the front the database has still to do; a group without operations does nothing. */
  ghost predicate SameStage(q: G.Queue, st: State) {
    match q.stage
    case Logged(_, ops) => st.group == if ops == [] then None else Some(Stamp(ops, q.lastSequence + 1))
    case Safe(_, ops) => st.group == if ops == [] then None else Some(Stamp(ops, q.lastSequence + 1))
    case Ready(_, ops) => st.group == if ops == [] then None else Some([])
    case _ => st.group.None?
  }

  /** The log of the queue is the history of the database. */
  ghost predicate Linked(q: G.Queue, st: State) {
    && st.history == Stamp(G.LogOps(q.log), 1) && st.lastSequence == q.lastSequence
    && !st.overlapped && st.revived == map[] && SameStage(q, st)
  }

  lemma StampAppends(a: seq<Op>, b: seq<Op>)
    ensures Stamp(a + b, 1) == Stamp(a, 1) + Stamp(b, |a| + 1)
  {
  }

  /** Nothing is unpublished while no group is under way. */
  lemma NothingPending(st: State)
    requires Inv(st) && st.group.None?
    ensures st.lastSequence == |st.history|
  {
    hide BackgroundOk, MemOk, LogsOk;
  }

  lemma AppendStep(q: G.Queue, q': G.Queue, st: State) returns (st': State)
    requires Reached(st) && Linked(q, st) && G.Step(q, G.AppendToLog, q') && |G.LogOps(q'.log)| < MAX_SEQUENCE
    ensures Reached(st') && Linked(q', st')
  {
    hide Reached, Inv, Stamp;
    var ops := q.stage.ops;
    G.LogOpsAppend(q.log, G.Record(q.lastSequence + 1, ops));
    StampAppends(G.LogOps(q.log), ops);
    StampLength(G.LogOps(q.log));
    ReachedHasInv(st);
    NothingPending(st);
    if ops == [] {
      st' := st;
      assert G.LogOps(q.log) + ops == G.LogOps(q.log);
    } else {
      st' := LogOnly(st, ops);
    }
  }

  lemma StampLength(ops: seq<Op>)
    ensures |Stamp(ops, 1)| == |ops|
  {
  }

  lemma InsertStep(q: G.Queue, q': G.Queue, st: State) returns (st': State)
    requires Reached(st) && Linked(q, st) && G.Step(q, G.Insert, q')
    ensures Reached(st') && Linked(q', st')
  {
    hide Reached;
    if q.stage.ops == [] {
      st' := st;
    } else {
      st' := InsertGroup(st);
    }
  }

  lemma FinishStep(q: G.Queue, q': G.Queue, st: State) returns (st': State)
    requires Reached(st) && Linked(q, st) && G.Step(q, G.Finish, q') && G.Inv(q)
    ensures Reached(st') && Linked(q', st')
  {
    hide Reached, Stamp;
    if q.stage.ops == [] {
      st' := st;
    } else {
      st' := Publish(st);
      ReachStep(st, DoPublish, st');
      StampLength(G.LogOps(q.log));
      assert |G.LogOps(q.log)| == q.lastSequence + |q.stage.ops|;
    }
  }

  /** Each step of the queue is some steps of the database, or none. */
  lemma StepRefines(q: G.Queue, e: G.Event, q': G.Queue, st: State) returns (st': State)
    requires G.Inv(q) && Reached(st) && Linked(q, st) && G.Step(q, e, q') && |G.LogOps(q'.log)| < MAX_SEQUENCE
    ensures Reached(st') && Linked(q', st')
  {
    hide Reached, G.Inv;
    match e
    case AppendToLog => st' := AppendStep(q, q', st);
    case Insert => st' := InsertStep(q, q', st);
    case Finish => st' := FinishStep(q, q', st);
    case _ => st' := st;
  }

  /**
   Whatever the interleaving of the writers, there is a run of the database to the same log and
   the same LastSequence.
   */
  lemma {:induction false} RunRefines(states: seq<G.Queue>, events: seq<G.Event>, n: nat) returns (st: State)
    requires G.IsRun(states, events) && n < |states|
    requires forall i :: 0 <= i <= n ==> |G.LogOps(states[i].log)| < MAX_SEQUENCE
    ensures Reached(st) && Linked(states[n], st)
  {
    hide Reached, G.Inv, Linked;
    if n == 0 {
      st := NewDatabase();
      NewQueueIsLinked(states, events, st);
    } else {
      var before := RunRefines(states, events, n - 1);
      G.RunKeepsInv(states, events, n - 1);
      st := StepRefines(states[n - 1], events[n - 1], states[n], before);
    }
  }

  lemma NewQueueIsLinked(states: seq<G.Queue>, events: seq<G.Event>, st: State)
    requires G.IsRun(states, events) && Quiet(st) && st.history == [] && st.lastSequence == 0 && st.revived == map[]
    ensures Linked(states[0], st)
  {
  }

  /** In that run, a read at LastSequence gives the last write of the writers that have returned. */
  lemma ReturnedWritesAreRead(states: seq<G.Queue>, events: seq<G.Event>, n: nat, user: UserKey) returns (st: State)
    requires G.IsRun(states, events) && n < |states|
    requires forall i :: 0 <= i <= n ==> |G.LogOps(states[i].log)| < MAX_SEQUENCE
    ensures Reached(st) && st.lastSequence == |G.AllOps(states[n].done)|
    ensures |Stamp(G.AllOps(states[n].done), 1)| == st.lastSequence
    ensures Read(st, user, st.lastSequence) ==
            HistoryRead(Stamp(G.AllOps(states[n].done), 1), user, st.lastSequence)
  {
    hide Reached, Inv, Read, HistoryRead;
    st := RunRefines(states, events, n);
    G.GroupsCommitInOrder(states, events, n);
    ReachedHasInv(st);
    assert Readable(st, st.lastSequence) && Trusted(st, user, st.lastSequence);
    ReadIsHistoryRead(st, user, st.lastSequence);
    var done, ops := G.AllOps(states[n].done), G.LogOps(states[n].log);
    assert ops == done + ops[|done|..];
    StampAppends(done, ops[|done|..]);
    HistoryReadIsStable(Stamp(done, 1), Stamp(ops[|done|..], |done| + 1), user, |done|);
  }
}
