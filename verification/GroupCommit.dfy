/**
 The queue of writers and the group commit of DBImpl::Write (db/db_impl.cc): the writer at the
 front logs and inserts one group for several writers while others go on arriving.
 */
module GroupCommit {
  import opened Optional
  import opened InternalKeys
  import opened ReadSpec
  import opened DbState

  /** One call of Write; a writer without a batch only asks for a memtable switch. */
  datatype Writer = Writer(batch: Option<seq<Op>>, size: nat, sync: bool)

  function OpsOf(w: Writer): seq<Op> {
    if w.batch.Some? then w.batch.value else []
  }

  /** The batches of a list of writers, one after another. */
  function AllOps(ws: seq<Writer>): seq<Op> {
    if ws == [] then [] else AllOps(ws[..|ws| - 1]) + OpsOf(ws[|ws| - 1])
  }

  lemma {:induction false} AllOpsConcat(a: seq<Writer>, b: seq<Writer>)
    ensures AllOps(a + b) == AllOps(a) + AllOps(b)
  {
    if b == [] {
      assert a + b == a;
    } else {
      var n := |b| - 1;
      hide OpsOf;
      AllOpsConcat(a, b[..n]);
      assert (a + b)[..|a| + n] == a + b[..n];
      assert AllOps(a) + AllOps(b[..n]) + OpsOf(b[n]) == AllOps(a) + (AllOps(b[..n]) + OpsOf(b[n]));
    }
  }

  function TotalSize(ws: seq<Writer>): nat {
    if ws == [] then 0 else TotalSize(ws[..|ws| - 1]) + if ws[|ws| - 1].batch.Some? then ws[|ws| - 1].size else 0
  }

  // ----- building a group

  const MAX_GROUP: nat := 0x10_0000
  const SMALL_WRITE: nat := 0x2_0000

  /** A small first write limits how far the group may grow. */
  function SizeLimit(first: Writer): nat {
    if first.size <= SMALL_WRITE then first.size + SMALL_WRITE else MAX_GROUP
  }

  /** The first `k` writers may commit together. */
  ghost predicate IsGroup(queue: seq<Writer>, k: nat) {
    && 1 <= k <= |queue|
    && (!queue[0].sync ==> forall i :: 0 <= i < k ==> !queue[i].sync)
    && (k > 1 ==> TotalSize(queue[..k]) <= SizeLimit(queue[0]) || forall i :: 1 <= i < k ==> queue[i].batch.None?)
    && (queue[0].batch.None? ==> k == 1)
  }

  /** The group cannot take in the next writer as well. */
  ghost predicate CannotGrow(queue: seq<Writer>, k: nat)
    requires 1 <= k <= |queue|
  {
    k < |queue| ==>
      || (queue[k].sync && !queue[0].sync)
      || (queue[k].batch.Some? && TotalSize(queue[..k + 1]) > SizeLimit(queue[0]))
  }

  lemma TotalSizeStep(queue: seq<Writer>, i: nat)
    requires i < |queue|
    ensures TotalSize(queue[..i + 1]) == TotalSize(queue[..i]) + if queue[i].batch.Some? then queue[i].size else 0
    ensures AllOps(queue[..i + 1]) == AllOps(queue[..i]) + OpsOf(queue[i])
  {
    assert queue[..i + 1][..i] == queue[..i];
  }

  lemma GroupGrows(queue: seq<Writer>, k: nat)
    requires IsGroup(queue, k) && k < |queue| && queue[0].batch.Some? && (queue[k].sync ==> queue[0].sync)
    requires queue[k].batch.Some? ==> TotalSize(queue[..k + 1]) <= SizeLimit(queue[0])
    ensures IsGroup(queue, k + 1)
  {
    TotalSizeStep(queue, k);
    TotalSizeStep(queue, 0);
    hide TotalSize;
  }

  lemma GroupOfOne(queue: seq<Writer>)
    requires queue != [] && queue[0].batch.Some?
    ensures IsGroup(queue, 1) && TotalSize(queue[..1]) == queue[0].size && AllOps(queue[..1]) == OpsOf(queue[0])
  {
    TotalSizeStep(queue, 0);
  }

  /** BuildBatchGroup: as many writers as may join the first, and all their operations in one batch. */
  method BuildBatchGroup(queue: seq<Writer>) returns (k: nat, ops: seq<Op>)
    requires queue != [] && queue[0].batch.Some?
    ensures IsGroup(queue, k) && CannotGrow(queue, k) && ops == AllOps(queue[..k])
  {
    var first := queue[0];
    var size := first.size;
    var maxSize := MAX_GROUP;
    if size <= SMALL_WRITE {
      maxSize := size + SMALL_WRITE;
    }
    GroupOfOne(queue);
    hide IsGroup, TotalSize, AllOps;
    ops := first.batch.value;
    k := 1;
    while k < |queue|
      invariant 1 <= k <= |queue| && IsGroup(queue, k)
      invariant maxSize == SizeLimit(first)
      invariant size == TotalSize(queue[..k]) && ops == AllOps(queue[..k])
    {
      var w := queue[k];
      TotalSizeStep(queue, k);
      if w.sync && !first.sync {
        return;
      }
      if w.batch.Some? {
        size := size + w.size;
        if size > maxSize {
          return;
        }
        ops := ops + w.batch.value;
      }
      GroupGrows(queue, k);
      k := k + 1;
    }
  }

  // ----- the protocol

  /** A record of the log: the sequence number of its first operation, and the operations. */
  datatype Record = Record(first: nat, ops: seq<Op>)

  /** How far the front writer has got with its group of `k` writers. */
  datatype Stage =
    | Free
    | Chosen(k: nat, ops: seq<Op>)
    | Logged(k: nat, ops: seq<Op>)
    | Safe(k: nat, ops: seq<Op>)
    | Ready(k: nat, ops: seq<Op>)

  /** `arrived` and `done` are auxiliary: all calls of Write in order, and those that have returned. */
  datatype Queue = Queue(arrived: seq<Writer>, done: seq<Writer>, queue: seq<Writer>, stage: Stage,
                         log: seq<Record>, synced: set<nat>, mem: seq<Op>, lastSequence: nat)

  datatype Event = Arrive(w: Writer) | Choose | AppendToLog | Sync | Insert | Finish

  ghost predicate Step(q: Queue, e: Event, q': Queue) {
    match e
    case Arrive(w) => q' == q.(arrived := q.arrived + [w], queue := q.queue + [w])
    case Choose =>
      && q.stage.Free? && q.queue != []
      && if q.queue[0].batch.None? then q' == q.(stage := Ready(1, []))
         else
           exists k: nat ::
             IsGroup(q.queue, k) && CannotGrow(q.queue, k) && q' == q.(stage := Chosen(k, AllOps(q.queue[..k])))
    case AppendToLog =>
      && q.stage.Chosen?
      && q' == q.(log := q.log + [Record(q.lastSequence + 1, q.stage.ops)], stage := Logged(q.stage.k, q.stage.ops))
    case Sync =>
      && q.stage.Logged? && q.queue != [] && q.queue[0].sync && q.log != []
      && q' == q.(synced := q.synced + {|q.log| - 1}, stage := Safe(q.stage.k, q.stage.ops))
    case Insert =>
      && q.queue != [] && (if q.queue[0].sync then q.stage.Safe? else q.stage.Logged?)
      && q' == q.(mem := q.mem + q.stage.ops, stage := Ready(q.stage.k, q.stage.ops))
    case Finish =>
      && q.stage.Ready? && q.stage.k <= |q.queue|
      && q' == q.(lastSequence := q.lastSequence + |q.stage.ops|, stage := Free,
                  done := q.done + q.queue[..q.stage.k], queue := q.queue[q.stage.k..])
  }

  function LogOps(log: seq<Record>): seq<Op> {
    if log == [] then [] else LogOps(log[..|log| - 1]) + log[|log| - 1].ops
  }

  /** Record `j` holds the operations of writer `i` among those that returned. */
  ghost predicate Holds(log: seq<Record>, j: nat, done: seq<Writer>, i: nat) {
    && j < |log| && i < |done|
    && log[j].first <= |AllOps(done[..i])| + 1
    && |AllOps(done[..i + 1])| < log[j].first + |log[j].ops|
  }

  /** A writer that asked for a sync has returned only once its record was synced. */
  ghost predicate SyncsKept(q: Queue) {
    forall i: nat :: i < |q.done| && q.done[i].sync && OpsOf(q.done[i]) != [] ==>
      exists j :: j in q.synced && Holds(q.log, j, q.done, i)
  }

  /** Each record starts with the number after the one before it ended with. */
  ghost predicate Contiguous(log: seq<Record>) {
    forall j: nat :: j < |log| ==> StartsRight(log, j)
  }

  ghost predicate StartsRight(log: seq<Record>, j: nat)
    requires j < |log|
  {
    log[j].first == |LogOps(log[..j])| + 1
  }

  ghost predicate HasGroup(q: Queue) {
    !q.stage.Free? ==>
      && 1 <= q.stage.k <= |q.queue| && q.stage.ops == AllOps(q.queue[..q.stage.k])
      && (q.queue[0].batch.None? ==> q.stage.Ready? && q.stage.k == 1)
      && (q.queue[0].batch.Some? ==> IsGroup(q.queue, q.stage.k))
  }

  /** The group's record is in the log. */
  predicate InLog(q: Queue) {
    q.stage.Logged? || q.stage.Safe? || (q.stage.Ready? && q.stage.ops != [])
  }

  ghost predicate Inv(q: Queue) {
    && q.arrived == q.done + q.queue
    && HasGroup(q)
    && q.lastSequence == |AllOps(q.done)|
    && LogOps(q.log) == AllOps(q.done) + (if InLog(q) then q.stage.ops else [])
    && q.mem == AllOps(q.done) + (if q.stage.Ready? then q.stage.ops else [])
    && Contiguous(q.log)
    && SyncsKept(q)
    && GroupSynced(q)
  }

  /** While a group of a syncing writer is past its sync, its record is the last and is synced. */
  ghost predicate GroupSynced(q: Queue) {
    && (q.stage.Logged? || q.stage.Safe? || (q.stage.Ready? && q.queue != [] && q.queue[0].batch.Some?) ==>
       HasRecord(q))
    && (q.stage.Safe? || (q.stage.Ready? && q.queue != [] && q.queue[0].sync && q.queue[0].batch.Some?) ==>
          q.log != [] && |q.log| - 1 in q.synced)
  }

  predicate HasRecord(q: Queue) {
    q.log != [] && !q.stage.Free? && q.log[|q.log| - 1] == Record(q.lastSequence + 1, q.stage.ops)
  }

  // ----- every step keeps the invariant

  lemma LogOpsAppend(log: seq<Record>, r: Record)
    ensures LogOps(log + [r]) == LogOps(log) + r.ops
  {
    assert (log + [r])[..|log|] == log;
  }

  lemma PrefixOps(ws: seq<Writer>, i: nat)
    requires i <= |ws|
    ensures |AllOps(ws[..i])| <= |AllOps(ws)|
  {
    assert ws == ws[..i] + ws[i..];
    AllOpsConcat(ws[..i], ws[i..]);
  }

  lemma ArriveKeepsGroup(queue: seq<Writer>, w: Writer, k: nat)
    requires 1 <= k <= |queue|
    ensures (queue + [w])[..k] == queue[..k] && (IsGroup(queue, k) ==> IsGroup(queue + [w], k))
  {
    assert forall i :: 0 <= i < k ==> (queue + [w])[i] == queue[i];
  }

  lemma ArriveKeepsInv(q: Queue, w: Writer, q': Queue)
    requires Inv(q) && Step(q, Arrive(w), q')
    ensures Inv(q')
  {
    assert q.done + q.queue + [w] == q.done + (q.queue + [w]);
    if !q.stage.Free? {
      ArriveKeepsGroup(q.queue, w, q.stage.k);
    }
  }

  lemma ChooseKeepsInv(q: Queue, q': Queue)
    requires Inv(q) && Step(q, Choose, q')
    ensures Inv(q')
  {
    if q.queue[0].batch.None? {
      TotalSizeStep(q.queue, 0);
    }
    assert AllOps(q.done) + [] == AllOps(q.done);
  }

  lemma AppendKeepsInv(q: Queue, q': Queue)
    requires Inv(q) && Step(q, AppendToLog, q')
    ensures Inv(q')
  {
    var r := Record(q.lastSequence + 1, q.stage.ops);
    LogOpsAppend(q.log, r);
    forall j: nat | j < |q'.log|
      ensures StartsRight(q'.log, j)
    {
      assert q'.log[..j] == q.log[..j];
      assert j < |q.log| ==> StartsRight(q.log, j);
      assert q.log[..|q.log|] == q.log;
    }
    forall i: nat | i < |q'.done| && q'.done[i].sync && OpsOf(q'.done[i]) != []
      ensures exists j :: j in q'.synced && Holds(q'.log, j, q'.done, i)
    {
      var j :| j in q.synced && Holds(q.log, j, q.done, i);
      assert Holds(q'.log, j, q'.done, i);
    }
  }

  lemma SyncKeepsInv(q: Queue, q': Queue)
    requires Inv(q) && Step(q, Sync, q')
    ensures Inv(q')
  {
    forall i: nat | i < |q'.done| && q'.done[i].sync && OpsOf(q'.done[i]) != []
      ensures exists j :: j in q'.synced && Holds(q'.log, j, q'.done, i)
    {
      var j :| j in q.synced && Holds(q.log, j, q.done, i);
      assert j in q'.synced;
    }
  }

  lemma InsertKeepsInv(q: Queue, q': Queue)
    requires Inv(q) && Step(q, Insert, q')
    ensures Inv(q')
  {
  }

  lemma SyncingLeads(queue: seq<Writer>, k: nat, g: nat)
    requires g < k <= |queue| && queue[g].sync && OpsOf(queue[g]) != []
    requires if queue[0].batch.None? then k == 1 else IsGroup(queue, k)
    ensures queue[0].batch.Some? && queue[0].sync
  {
  }

  /** A syncing writer of the group that returns: its record is synced. */
  lemma ReturnedIsSynced(q: Queue, q': Queue, i: nat)
    requires Inv(q) && Step(q, Finish, q')
    requires |q.done| <= i < |q'.done| && q'.done[i].sync && OpsOf(q'.done[i]) != []
    ensures |q'.log| > 0 && |q'.log| - 1 in q'.synced && Holds(q'.log, |q'.log| - 1, q'.done, i)
  {
    hide SyncsKept, Contiguous, AllOps, LogOps, IsGroup, OpsOf;
    var g := i - |q.done|;
    assert q'.done[i] == q.queue[g];
    SyncingLeads(q.queue, q.stage.k, g);
    OpsUpTo(q.done, q.queue[..q.stage.k], g);
  }

  /** The operations of writer `g` of a group lie between those before the group and those up to its end. */
  lemma OpsUpTo(done: seq<Writer>, group: seq<Writer>, g: nat)
    requires g < |group|
    ensures |AllOps(done)| <= |AllOps((done + group)[..|done| + g])|
    ensures |AllOps((done + group)[..|done| + g + 1])| <= |AllOps(done)| + |AllOps(group)|
  {
    hide AllOps;
    assert (done + group)[..|done| + g] == done + group[..g];
    assert (done + group)[..|done| + g + 1] == done + group[..g + 1];
    AllOpsConcat(done, group[..g]);
    AllOpsConcat(done, group[..g + 1]);
    PrefixOps(group, g + 1);
  }

  lemma FinishKeepsSyncs(q: Queue, q': Queue)
    requires Inv(q) && Step(q, Finish, q')
    ensures SyncsKept(q')
  {
    forall i: nat | i < |q'.done| && q'.done[i].sync && OpsOf(q'.done[i]) != []
      ensures exists j :: j in q'.synced && Holds(q'.log, j, q'.done, i)
    {
      if i < |q.done| {
        var j :| j in q.synced && Holds(q.log, j, q.done, i);
        assert q'.done[..i] == q.done[..i] && q'.done[..i + 1] == q.done[..i + 1];
        assert Holds(q'.log, j, q'.done, i);
      } else {
        ReturnedIsSynced(q, q', i);
      }
    }
  }

  lemma Rejoin(a: seq<Writer>, b: seq<Writer>, k: nat)
    requires k <= |b|
    ensures a + b == a + b[..k] + b[k..]
  {
    assert b == b[..k] + b[k..];
  }

  lemma FinishKeepsInv(q: Queue, q': Queue)
    requires Inv(q) && Step(q, Finish, q')
    ensures Inv(q')
  {
    FinishKeepsSyncs(q, q');
    hide SyncsKept, Contiguous, IsGroup;
    AllOpsConcat(q.done, q.queue[..q.stage.k]);
    Rejoin(q.done, q.queue, q.stage.k);
    assert AllOps(q'.done) + [] == AllOps(q'.done);
  }

  lemma StepKeepsInv(q: Queue, e: Event, q': Queue)
    requires Inv(q) && Step(q, e, q')
    ensures Inv(q')
  {
    hide Inv;
    match e
    case Arrive(w) => ArriveKeepsInv(q, w, q');
    case Choose => ChooseKeepsInv(q, q');
    case AppendToLog => AppendKeepsInv(q, q');
    case Sync => SyncKeepsInv(q, q');
    case Insert => InsertKeepsInv(q, q');
    case Finish => FinishKeepsInv(q, q');
  }

  ghost predicate IsRun(states: seq<Queue>, events: seq<Event>) {
    && |states| == |events| + 1
    && states[0] == Queue([], [], [], Free, [], {}, [], 0)
    && forall i {:trigger events[i]} :: 0 <= i < |events| ==> Step(states[i], events[i], states[i + 1])
  }

  lemma {:induction false} RunKeepsInv(states: seq<Queue>, events: seq<Event>, n: nat)
    requires IsRun(states, events) && n < |states|
    ensures Inv(states[n])
  {
    if n > 0 {
      RunKeepsInv(states, events, n - 1);
      hide Inv, Step;
      StepKeepsInv(states[n - 1], events[n - 1], states[n]);
    } else {
      assert AllOps([]) == [] && LogOps([]) == [];
    }
  }

  /**
   However the writers interleave: calls return in the order of their arrival; LastSequence
   counts exactly the operations of whole groups, in that order; the log and the memtable
   hold each batch once, with contiguous numbers; and a syncing writer returns only after its
   record has been synced.
   */
  lemma GroupsCommitInOrder(states: seq<Queue>, events: seq<Event>, n: nat)
    requires IsRun(states, events) && n < |states|
    ensures states[n].done <= states[n].arrived
    ensures states[n].lastSequence == |AllOps(states[n].done)|
    ensures AllOps(states[n].done) <= LogOps(states[n].log) <= AllOps(states[n].arrived)
    ensures AllOps(states[n].done) <= states[n].mem <= AllOps(states[n].arrived)
    ensures Contiguous(states[n].log) && SyncsKept(states[n])
  {
    RunKeepsInv(states, events, n);
    var q := states[n];
    AllOpsConcat(q.done, q.queue);
    if !q.stage.Free? {
      assert q.queue == q.queue[..q.stage.k] + q.queue[q.stage.k..];
      AllOpsConcat(q.queue[..q.stage.k], q.queue[q.stage.k..]);
    }
  }
}
