/**
 The skip list of the memtable (db/skiplist.h): searches, the single writer's Insert as the
 sequence of its pointer writes, and searches that run in between them without a lock.

 Nodes are numbered in the order of their creation; node 0 is the head.  Since the head is
 nobody's successor, 0 also stands for the null pointer.
 */
module SkipList {
  import opened Optional
  import opened InternalKeys

  type Key = InternalKey

  const MAX_HEIGHT: nat := 12

  /** The memory: the keys of all nodes, their forward pointers level by level, and max_height_. */
  datatype Memory = Memory(keys: seq<Key>, next: seq<seq<nat>>, maxHeight: nat)

  // ----- one level as a list

  /** The node at position `i` of a level, counting the head as position 0. */
  function NodeAt(ns: seq<nat>, i: nat): nat
    requires i <= |ns|
  {
    if i == 0 then 0 else ns[i - 1]
  }

  /** The node after position `i`, or null. */
  function After(ns: seq<nat>, i: nat): nat
    requires i <= |ns|
  {
    if i < |ns| then ns[i] else 0
  }

  ghost predicate WellSized(m: Memory) {
    && |m.next| == MAX_HEIGHT && m.keys != []
    && forall l :: 0 <= l < MAX_HEIGHT ==> |m.next[l]| == |m.keys|
  }

  ghost predicate AreNodes(m: Memory, ns: seq<nat>) {
    forall i :: 0 <= i < |ns| ==> 0 < ns[i] < |m.keys|
  }

  ghost predicate InKeyOrder(m: Memory, ns: seq<nat>)
    requires AreNodes(m, ns)
  {
    forall i, j :: 0 <= i < j < |ns| ==> Less(m.keys[ns[i]], m.keys[ns[j]])
  }

  /** Following the pointers of level `l` from the head visits exactly `ns`. */
  ghost predicate IsLevel(m: Memory, l: nat, ns: seq<nat>) {
    && WellSized(m) && l < MAX_HEIGHT && AreNodes(m, ns) && InKeyOrder(m, ns)
    && forall i: nat :: i <= |ns| ==> m.next[l][NodeAt(ns, i)] == After(ns, i)
  }

  /** Every level is a sorted sublist of the one below. */
  ghost predicate LevelsOk(m: Memory, lists: seq<seq<nat>>) {
    && WellSized(m) && |lists| == MAX_HEIGHT && 1 <= m.maxHeight <= MAX_HEIGHT
    && (forall l: nat :: l < MAX_HEIGHT ==> IsLevel(m, l, lists[l]))
    && (forall l: nat, n :: 0 < l < MAX_HEIGHT && n in lists[l] ==> Below(lists, l, n))
    && (forall l: nat :: m.maxHeight <= l < MAX_HEIGHT ==> lists[l] == [])
  }

  ghost predicate Below(lists: seq<seq<nat>>, l: nat, n: nat)
    requires 0 < l < |lists|
  {
    n in lists[l - 1]
  }

  /**
   Position `i` is where `target` cuts the level: smaller keys up to it, the others after it; None
   cuts at the end.
   */
  ghost predicate IsCut(m: Memory, ns: seq<nat>, target: Option<Key>, i: nat)
    requires AreNodes(m, ns)
  {
    && i <= |ns|
    && (forall j :: 0 <= j < i ==> Precedes(m, target, ns[j]))
    && (forall j :: i <= j < |ns| ==> !Precedes(m, target, ns[j]))
  }

  predicate Precedes(m: Memory, target: Option<Key>, n: nat)
    requires n < |m.keys|
  {
    target.None? || Less(m.keys[n], target.value)
  }

  lemma PositionOf(ns: seq<nat>, x: nat) returns (i: nat)
    requires x == 0 || x in ns
    ensures i <= |ns| && NodeAt(ns, i) == x
  {
    if x == 0 {
      i := 0;
    } else {
      var j :| 0 <= j < |ns| && ns[j] == x;
      i := j + 1;
    }
  }

  /** What one pointer read tells a search that stands before the cut. */
  lemma ReadNext(m: Memory, l: nat, ns: seq<nat>, target: Option<Key>, x: nat)
    requires IsLevel(m, l, ns) && (x == 0 || (x in ns && Precedes(m, target, x)))
    ensures x < |m.keys| && m.next[l][x] < |m.keys|
    ensures m.next[l][x] != 0 ==> m.next[l][x] in ns
    ensures m.next[l][x] == 0 || !Precedes(m, target, m.next[l][x]) ==>
              exists i: nat :: IsCut(m, ns, target, i) && x == NodeAt(ns, i) && m.next[l][x] == After(ns, i)
  {
    var i := PositionOf(ns, x);
    assert m.next[l][NodeAt(ns, i)] == After(ns, i);
    if m.next[l][x] == 0 || !Precedes(m, target, m.next[l][x]) {
      assert IsCut(m, ns, target, i);
    }
  }

  // ----- the writer's pointer writes

  function SetNext(m: Memory, l: nat, n: nat, to: nat): Memory
    requires WellSized(m) && l < MAX_HEIGHT && n < |m.keys|
  {
    var row: seq<nat> := m.next[l][n := to];
    m.(next := m.next[l := row])
  }

  lemma SetNextSizes(m: Memory, l: nat, n: nat, to: nat)
    requires WellSized(m) && l < MAX_HEIGHT && n < |m.keys|
    ensures WellSized(SetNext(m, l, n, to))
    ensures forall k :: 0 <= k < MAX_HEIGHT && k != l ==> SetNext(m, l, n, to).next[k] == m.next[k]
    ensures SetNext(m, l, n, to).next[l] == m.next[l][n := to]
  {
  }

  /** A pointer of another level, or of a node that is not in the level, makes no difference to it. */
  lemma LevelUntouched(m: Memory, k: nat, ns: seq<nat>, l: nat, n: nat, to: nat)
    requires IsLevel(m, k, ns) && l < MAX_HEIGHT && n < |m.keys| && (k != l || (n != 0 && n !in ns))
    ensures IsLevel(SetNext(m, l, n, to), k, ns)
  {
    SetNextSizes(m, l, n, to);
    forall i: nat | i <= |ns|
      ensures SetNext(m, l, n, to).next[k][NodeAt(ns, i)] == After(ns, i)
    {
      assert m.next[k][NodeAt(ns, i)] == After(ns, i);
    }
  }

  /** Between its neighbours. */
  ghost predicate FitsAt(m: Memory, ns: seq<nat>, i: nat, x: nat)
    requires AreNodes(m, ns) && x < |m.keys|
  {
    && i <= |ns|
    && (forall j :: 0 <= j < i ==> Less(m.keys[ns[j]], m.keys[x]))
    && (forall j :: i <= j < |ns| ==> Less(m.keys[x], m.keys[ns[j]]))
  }

  function InsertAt(ns: seq<nat>, i: nat, x: nat): seq<nat>
    requires i <= |ns|
  {
    ns[..i] + [x] + ns[i..]
  }

  lemma NodesAfterInsert(ns: seq<nat>, i: nat, x: nat, k: nat)
    requires i <= |ns| && k <= |ns| + 1
    ensures NodeAt(InsertAt(ns, i, x), k) ==
            if k <= i then NodeAt(ns, k) else if k == i + 1 then x else NodeAt(ns, k - 1)
    ensures After(InsertAt(ns, i, x), k) == if k < i then After(ns, k) else if k == i then x else After(ns, k - 1)
  {
  }

  /** One pointer write puts the prepared node into the level. */
  lemma PublishLevel(m: Memory, l: nat, ns: seq<nat>, i: nat, x: nat)
    requires IsLevel(m, l, ns) && 0 < x < |m.keys| && x !in ns && FitsAt(m, ns, i, x)
    requires m.next[l][x] == After(ns, i)
    ensures IsLevel(SetNext(m, l, NodeAt(ns, i), x), l, InsertAt(ns, i, x))
  {
    var p, ns' := NodeAt(ns, i), InsertAt(ns, i, x);
    var m' := SetNext(m, l, p, x);
    SetNextSizes(m, l, p, x);
    assert AreNodes(m', ns');
    InsertInOrder(m, ns, i, x);
    forall k: nat | k <= |ns'|
      ensures m'.next[l][NodeAt(ns', k)] == After(ns', k)
    {
      NodesAfterInsert(ns, i, x, k);
      if k <= i {
        NodesDiffer(ns, m, k, i);
        assert m.next[l][NodeAt(ns, k)] == After(ns, k);
      } else if k > i + 1 {
        NodesDiffer(ns, m, k - 1, i);
        assert m.next[l][NodeAt(ns, k - 1)] == After(ns, k - 1);
      }
    }
  }

  lemma InsertInOrder(m: Memory, ns: seq<nat>, i: nat, x: nat)
    requires AreNodes(m, ns) && InKeyOrder(m, ns) && 0 < x < |m.keys| && FitsAt(m, ns, i, x)
    ensures AreNodes(m, InsertAt(ns, i, x)) && InKeyOrder(m, InsertAt(ns, i, x))
  {
    var ns' := InsertAt(ns, i, x);
    assert forall k :: 0 <= k < |ns'| ==> ns'[k] == if k < i then ns[k] else if k == i then x else ns[k - 1];
  }

  lemma NodesDiffer(ns: seq<nat>, m: Memory, j: nat, i: nat)
    requires AreNodes(m, ns) && InKeyOrder(m, ns) && i <= |ns| && j <= |ns|
    ensures NodeAt(ns, i) == NodeAt(ns, j) <==> i == j
  {
  }

  // ----- Insert, step by step

  /** What the writer is doing: linking node `x` at the levels from `level` on, behind the nodes `prev`. */
  datatype Writer = Resting | Linking(x: nat, height: nat, prev: seq<nat>, level: nat, prepared: bool)

  /** `lists` is auxiliary: the levels as the pointers spell them out. */
  datatype State = State(m: Memory, lists: seq<seq<nat>>, writer: Writer)

  /** The node still to be linked at level `l` belongs right behind prev[l]. */
  ghost predicate HasPlace(st: State, l: nat)
    requires st.writer.Linking? && l < |st.lists| && l < |st.writer.prev|
    requires AreNodes(st.m, st.lists[l]) && st.writer.x < |st.m.keys|
  {
    exists i: nat :: IsPlace(st, l, i)
  }

  ghost predicate IsPlace(st: State, l: nat, i: nat)
    requires st.writer.Linking? && l < |st.lists| && l < |st.writer.prev|
    requires AreNodes(st.m, st.lists[l]) && st.writer.x < |st.m.keys|
  {
    FitsAt(st.m, st.lists[l], i, st.writer.x) && st.writer.prev[l] == NodeAt(st.lists[l], i)
  }

  ghost predicate WriterOk(st: State)
    requires LevelsOk(st.m, st.lists)
  {
    st.writer.Linking? ==>
      var w := st.writer;
      && 0 < w.x < |st.m.keys| && w.level < w.height <= st.m.maxHeight && |w.prev| >= w.height
      && (forall l :: 0 <= l < w.height ==> w.prev[l] < |st.m.keys|)
      && (forall l: nat :: l < w.level ==> Contains(st.lists, l, w.x))
      && (forall l: nat :: w.level <= l < MAX_HEIGHT ==> !Contains(st.lists, l, w.x))
      && (forall l: nat :: w.level <= l < w.height ==> HasPlace(st, l))
      && (w.prepared ==> st.m.next[w.level][w.x] == st.m.next[w.level][w.prev[w.level]])
  }

  ghost predicate Contains(lists: seq<seq<nat>>, l: nat, n: nat) {
    l < |lists| && n in lists[l]
  }

  ghost predicate Inv(st: State) {
    LevelsOk(st.m, st.lists) && WriterOk(st)
  }

  // NoBarrier_SetNext on the new node, which no search can see at this level.

  predicate CanPrepare(st: State) {
    st.writer.Linking? && !st.writer.prepared
  }

  function Prepare(st: State): State
    requires CanPrepare(st) && WellSized(st.m) && st.writer.level < MAX_HEIGHT && st.writer.level < |st.writer.prev|
    requires st.writer.x < |st.m.keys| && st.writer.prev[st.writer.level] < |st.m.keys|
  {
    var w := st.writer;
    st.(m := SetNext(st.m, w.level, w.x, st.m.next[w.level][w.prev[w.level]]), writer := w.(prepared := true))
  }

  // SetNext on the node before it, which publishes the new node at this level.

  predicate CanPublish(st: State) {
    st.writer.Linking? && st.writer.prepared
  }

  ghost function Publish(st: State): State
    requires Inv(st) && CanPublish(st)
  {
    var w := st.writer;
    PlaceIsNode(st, w.level);
    var i :| IsPlace(st, w.level, i);
    State(SetNext(st.m, w.level, w.prev[w.level], w.x),
          st.lists[w.level := InsertAt(st.lists[w.level], i, w.x)],
          if w.level + 1 == w.height then Resting else w.(level := w.level + 1, prepared := false))
  }

  lemma PlaceIsNode(st: State, l: nat)
    requires Inv(st) && st.writer.Linking? && st.writer.level <= l < st.writer.height
    ensures HasPlace(st, l) && st.writer.prev[l] < |st.m.keys|
  {
    assert IsLevel(st.m, l, st.lists[l]);
    assert HasPlace(st, l);
  }

  lemma PrepareKeepsInv(st: State)
    requires Inv(st) && CanPrepare(st)
    ensures st.writer.level < |st.writer.prev| && st.writer.prev[st.writer.level] < |st.m.keys|
    ensures Inv(Prepare(st)) && Prepare(st).lists == st.lists
  {
    var w := st.writer;
    PlaceIsNode(st, w.level);
    var st' := Prepare(st);
    forall l: nat | l < MAX_HEIGHT
      ensures IsLevel(st'.m, l, st.lists[l])
    {
      assert w.level <= l ==> !Contains(st.lists, l, w.x);
      LevelUntouched(st.m, l, st.lists[l], w.level, w.x, st.m.next[w.level][w.prev[w.level]]);
    }
    SetNextSizes(st.m, w.level, w.x, st.m.next[w.level][w.prev[w.level]]);
    NotOwnPlace(st);
    forall l: nat | w.level <= l < w.height
      ensures HasPlace(st', l)
    {
      PlaceIsNode(st, l);
      var i :| IsPlace(st, l, i);
      assert IsPlace(st', l, i);
    }
  }

  lemma NotOwnPlace(st: State)
    requires Inv(st) && st.writer.Linking?
    ensures st.writer.prev[st.writer.level] != st.writer.x
  {
    var w := st.writer;
    PlaceIsNode(st, w.level);
    var i :| IsPlace(st, w.level, i);
    assert !Contains(st.lists, w.level, w.x);
  }

  lemma InsertMembers(ns: seq<nat>, i: nat, x: nat)
    requires i <= |ns|
    ensures forall n :: n in InsertAt(ns, i, x) <==> n in ns || n == x
  {
    assert ns == ns[..i] + ns[i..];
  }

  lemma PublishedLevels(st: State, i: nat)
    requires Inv(st) && CanPublish(st) && IsPlace(st, st.writer.level, i)
    ensures var w := st.writer;
            LevelsOk(SetNext(st.m, w.level, w.prev[w.level], w.x),
                st.lists[w.level := InsertAt(st.lists[w.level], i, w.x)])
  {
    var w := st.writer;
    var m', lists' :=
        SetNext(st.m, w.level, w.prev[w.level], w.x), st.lists[w.level := InsertAt(st.lists[w.level], i, w.x)];
    assert IsLevel(st.m, w.level, st.lists[w.level]);
    SetNextSizes(st.m, w.level, w.prev[w.level], w.x);
    InsertMembers(st.lists[w.level], i, w.x);
    assert !Contains(st.lists, w.level, w.x);
    assert st.m.next[w.level][NodeAt(st.lists[w.level], i)] == After(st.lists[w.level], i);
    forall l: nat | l < MAX_HEIGHT
      ensures IsLevel(m', l, lists'[l])
    {
      if l == w.level {
        PublishLevel(st.m, l, st.lists[l], i, w.x);
      } else {
        LevelUntouched(st.m, l, st.lists[l], w.level, w.prev[w.level], w.x);
      }
    }
    forall l: nat, n | 0 < l < MAX_HEIGHT && n in lists'[l]
      ensures Below(lists', l, n)
    {
      if n in st.lists[l] {
        assert Below(st.lists, l, n);
      } else {
        assert Contains(st.lists, l - 1, w.x);
      }
    }
  }

  lemma PublishKeepsInv(st: State)
    requires Inv(st) && CanPublish(st)
    ensures Inv(Publish(st))
  {
    var w, st' := st.writer, Publish(st);
    PlaceIsNode(st, w.level);
    var i :| IsPlace(st, w.level, i) && st'.lists == st.lists[w.level := InsertAt(st.lists[w.level], i, w.x)];
    PublishedLevels(st, i);
    InsertMembers(st.lists[w.level], i, w.x);
    if st'.writer.Linking? {
      forall l: nat | l < st'.writer.level
        ensures Contains(st'.lists, l, w.x)
      {
        assert l < w.level ==> Contains(st.lists, l, w.x);
      }
      forall l: nat | st'.writer.level <= l < MAX_HEIGHT
        ensures !Contains(st'.lists, l, w.x)
      {
        assert !Contains(st.lists, l, w.x);
      }
      forall l: nat | st'.writer.level <= l < w.height
        ensures HasPlace(st', l)
      {
        PlaceIsNode(st, l);
        var j :| IsPlace(st, l, j);
        assert IsPlace(st', l, j);
      }
    }
  }

  // ----- a search between the writer's steps

  /** A search for the first key at or after `target` and the last one before it; None searches for the end. */
  datatype Search = Search(target: Option<Key>, x: nat, level: nat)

  datatype Progress = Going(search: Search) | Done(before: nat, after: nat)

  /** One read of a pointer, and the decision it leads to. */
  function ReadStep(m: Memory, r: Search): Progress
    requires r.level < |m.next| && r.x < |m.next[r.level]|
    requires m.next[r.level][r.x] < |m.keys|
  {
    var next := m.next[r.level][r.x];
    if next != 0 && Precedes(m, r.target, next) then Going(r.(x := next))
    else if r.level == 0 then Done(r.x, next)
    else Going(r.(level := r.level - 1))
  }

  /** The search stands on the head or on a node of its level that comes before its target. */
  ghost predicate SearchOk(st: State, r: Search)
    requires LevelsOk(st.m, st.lists)
  {
    && r.level < MAX_HEIGHT
    && (r.x != 0 ==> Contains(st.lists, r.level, r.x) && r.x < |st.m.keys| && Precedes(st.m, r.target, r.x))
  }

  /** `before` and `after` are neighbours in the bottom list, on the two sides of the target. */
  ghost predicate IsAnswer(st: State, target: Option<Key>, before: nat, after: nat)
    requires LevelsOk(st.m, st.lists)
  {
    exists i: nat :: IsCut(st.m, st.lists[0], target, i) && before == NodeAt(st.lists[0], i) &&
        after == After(st.lists[0], i)
  }

  /** A read keeps the search on its way, and its last read gives the right answer for that moment. */
  lemma ReadStepIsRight(st: State, r: Search)
    requires Inv(st) && SearchOk(st, r)
    ensures r.x < |st.m.keys| && st.m.next[r.level][r.x] < |st.m.keys|
    ensures match ReadStep(st.m, r)
            case Going(r') => SearchOk(st, r') && r'.target == r.target
            case Done(before, after) => IsAnswer(st, r.target, before, after)
  {
    ReadNext(st.m, r.level, st.lists[r.level], r.target, r.x);
    if r.x != 0 && r.level > 0 {
      assert Below(st.lists, r.level, r.x);
    }
  }

  /** Later states hold every key of earlier ones, at every level. */
  ghost predicate Extends(st: State, st': State) {
    && st.m.keys <= st'.m.keys
    && forall l, n :: Contains(st.lists, l, n) ==> Contains(st'.lists, l, n)
  }

  lemma SearchGoesOn(st: State, st': State, r: Search)
    requires Inv(st) && Inv(st') && Extends(st, st') && SearchOk(st, r)
    ensures SearchOk(st', r)
  {
  }

  // ----- all steps

  /** Insert has found the place of its key at every level, and made a node. */
  ghost predicate CanStart(st: State, key: Key, height: nat, prev: seq<nat>) {
    && st.writer.Resting? && Inv(st) && 1 <= height <= MAX_HEIGHT && |prev| == MAX_HEIGHT
    && (forall n :: n in st.lists[0] ==> st.m.keys[n] != key)
    && (forall l: nat :: l < height ==> IsPrevious(st, l, key, prev[l]))
  }

  ghost predicate IsPrevious(st: State, l: nat, key: Key, p: nat)
    requires LevelsOk(st.m, st.lists) && l < MAX_HEIGHT
  {
    exists i: nat :: IsCut(st.m, st.lists[l], Some(key), i) && p == NodeAt(st.lists[l], i)
  }

  function Start(st: State, key: Key, height: nat, prev: seq<nat>): State {
    var m := st.m;
    State(Memory(m.keys + [key], seq(|m.next|, l requires 0 <= l < |m.next| => m.next[l] + [0]),
                 if height > m.maxHeight then height else m.maxHeight),
          st.lists, Linking(|m.keys|, height, prev, 0, false))
  }

  lemma {:induction false} OnBottomLevel(m: Memory, lists: seq<seq<nat>>, l: nat, n: nat)
    requires LevelsOk(m, lists) && l < MAX_HEIGHT && n in lists[l]
    ensures n in lists[0]
  {
    if l > 0 {
      assert Below(lists, l, n);
      OnBottomLevel(m, lists, l - 1, n);
    }
  }

  lemma NewNodeKeepsLevels(st: State, key: Key, height: nat, prev: seq<nat>)
    requires CanStart(st, key, height, prev)
    ensures LevelsOk(Start(st, key, height, prev).m, st.lists)
  {
    var m, m' := st.m, Start(st, key, height, prev).m;
    forall l: nat | l < MAX_HEIGHT
      ensures IsLevel(m', l, st.lists[l])
    {
      var ns := st.lists[l];
      assert IsLevel(m, l, ns);
      assert m'.next[l] == m.next[l] + [0];
      forall i: nat | i <= |ns|
        ensures m'.next[l][NodeAt(ns, i)] == After(ns, i)
      {
        assert m.next[l][NodeAt(ns, i)] == After(ns, i);
      }
    }
  }

  lemma StartKeepsInv(st: State, key: Key, height: nat, prev: seq<nat>)
    requires CanStart(st, key, height, prev)
    ensures Inv(Start(st, key, height, prev))
  {
    var st' := Start(st, key, height, prev);
    NewNodeKeepsLevels(st, key, height, prev);
    forall l: nat | l < MAX_HEIGHT
      ensures !Contains(st'.lists, l, |st.m.keys|)
    {
      assert IsLevel(st.m, l, st.lists[l]);
    }
    forall l: nat | l < height
      ensures HasPlace(st', l) && prev[l] < |st'.m.keys|
    {
      assert IsLevel(st.m, l, st.lists[l]);
      assert IsPrevious(st, l, key, prev[l]);
      var i: nat :| IsCut(st.m, st.lists[l], Some(key), i) && prev[l] == NodeAt(st.lists[l], i);
      forall j | i <= j < |st.lists[l]|
        ensures Less(key, st.m.keys[st.lists[l][j]])
      {
        OnBottomLevel(st.m, st.lists, l, st.lists[l][j]);
      }
      assert IsPlace(st', l, i);
    }
  }

  /** One of the writer's steps. */
  ghost predicate WriterStep(st: State, st': State)
    requires Inv(st)
  {
    || (CanPrepare(st) && CanWrite(st) && st' == Prepare(st))
    || (CanPublish(st) && st' == Publish(st))
    || (exists key, height, prev :: CanStart(st, key, height, prev) && st' == Start(st, key, height, prev))
  }

  ghost predicate CanWrite(st: State)
    requires Inv(st) && CanPrepare(st)
  {
    st.writer.level < |st.writer.prev| && st.writer.prev[st.writer.level] < |st.m.keys|
  }

  lemma WriterStepKeepsInv(st: State, st': State)
    requires Inv(st) && WriterStep(st, st')
    ensures Inv(st') && Extends(st, st')
  {
    if CanPrepare(st) {
      PrepareKeepsInv(st);
    } else if CanPublish(st) {
      PublishKeepsInv(st);
      var w := st.writer;
      PlaceIsNode(st, w.level);
      var i :| IsPlace(st, w.level, i) && st'.lists == st.lists[w.level := InsertAt(st.lists[w.level], i, w.x)];
      InsertMembers(st.lists[w.level], i, w.x);
    } else {
      var key, height, prev :| CanStart(st, key, height, prev) && st' == Start(st, key, height, prev);
      StartKeepsInv(st, key, height, prev);
    }
  }

  /** The bounds that make a pointer read possible. */
  predicate InMemory(m: Memory, r: Search) {
    r.level < |m.next| && r.x < |m.next[r.level]| && m.next[r.level][r.x] < |m.keys|
  }

  /**
   A search that starts at the head, at any level (max_height_ may be read stale), with its
   reads and the writer's steps in any order.
   */
  ghost predicate IsSearchRun(states: seq<State>, searches: seq<Search>, target: Option<Key>) {
    && |states| == |searches| > 0
    && Inv(states[0]) && searches[0].target == target && searches[0].x == 0 && searches[0].level < MAX_HEIGHT
    && forall k: nat {:trigger SearchMoves(states, searches, k)} :: k + 1 < |states| ==>
       SearchMoves(states, searches, k)
  }

  ghost predicate SearchMoves(states: seq<State>, searches: seq<Search>, k: nat)
    requires k + 1 < |states| == |searches|
  {
    || (searches[k + 1] == searches[k] && Inv(states[k]) && WriterStep(states[k], states[k + 1]))
    || (states[k + 1] == states[k] && InMemory(states[k].m, searches[k]) &&
        ReadStep(states[k].m, searches[k]) == Going(searches[k + 1]))
  }

  lemma {:induction false} SearchStaysOk(states: seq<State>, searches: seq<Search>, target: Option<Key>, k: nat)
    requires IsSearchRun(states, searches, target) && k < |states|
    ensures Inv(states[k]) && SearchOk(states[k], searches[k]) && searches[k].target == target
  {
    if k > 0 {
      SearchStaysOk(states, searches, target, k - 1);
      assert SearchMoves(states, searches, k - 1);
      if states[k] == states[k - 1] && searches[k] != searches[k - 1] {
        ReadStepIsRight(states[k - 1], searches[k - 1]);
      } else if searches[k] == searches[k - 1] && Inv(states[k - 1]) && WriterStep(states[k - 1], states[k]) {
        WriterStepKeepsInv(states[k - 1], states[k]);
        SearchGoesOn(states[k - 1], states[k], searches[k]);
      }
    }
  }

  lemma {:induction false} RunExtends(states: seq<State>, searches: seq<Search>, target: Option<Key>, j: nat, k: nat)
    requires IsSearchRun(states, searches, target) && j <= k < |states|
    ensures Extends(states[j], states[k])
  {
    if j < k {
      RunExtends(states, searches, target, j, k - 1);
      SearchStaysOk(states, searches, target, k - 1);
      assert SearchMoves(states, searches, k - 1);
      if states[k] != states[k - 1] {
        WriterStepKeepsInv(states[k - 1], states[k]);
      }
    }
  }

  /**
   A search interleaved with an insertion answers for the bottom list as it is at the search's
   last read, and that list still holds every node linked at any earlier point of the run.
   */
  lemma SearchIsLinearizable(states: seq<State>, searches: seq<Search>, target: Option<Key>, before: nat, after: nat)
    requires IsSearchRun(states, searches, target)
    requires var k := |states| - 1;
             InMemory(states[k].m, searches[k]) && ReadStep(states[k].m, searches[k]) == Done(before, after)
    ensures Inv(states[|states| - 1]) && IsAnswer(states[|states| - 1], target, before, after)
    ensures forall j :: 0 <= j < |states| ==> Extends(states[j], states[|states| - 1])
  {
    var k := |states| - 1;
    SearchStaysOk(states, searches, target, k);
    ReadStepIsRight(states[k], searches[k]);
    forall j: nat | j < |states|
      ensures Extends(states[j], states[k])
    {
      RunExtends(states, searches, target, j, k);
    }
  }

  // ----- the list on its own

  ghost function KeysOf(m: Memory, ns: seq<nat>): seq<Key>
    requires AreNodes(m, ns)
  {
    seq(|ns|, i requires 0 <= i < |ns| => m.keys[ns[i]])
  }

  /** The cut of a key that is there is at that key. */
  lemma CutFinds(m: Memory, ns: seq<nat>, key: Key, i: nat, j: nat)
    requires AreNodes(m, ns) && InKeyOrder(m, ns) && IsCut(m, ns, Some(key), i) && j < |ns| && m.keys[ns[j]] == key
    ensures i == j
  {
    assert i <= j;
    KeyOrderAt(m, ns, i, j);
  }

  lemma KeyOrderAt(m: Memory, ns: seq<nat>, i: nat, j: nat)
    requires AreNodes(m, ns) && InKeyOrder(m, ns) && i < |ns| && j < |ns|
    ensures i < j ==> Less(m.keys[ns[i]], m.keys[ns[j]])
  {
  }

  class SkipList {
    var m: Memory
    ghost var lists: seq<seq<nat>>

    constructor ()
      ensures Valid() && lists[0] == [] && |m.keys| == 1
    {
      m := Memory([InternalKey(0.0, 0, Put)], seq(MAX_HEIGHT, _ => [0]), 1);
      lists := seq(MAX_HEIGHT, _ => []);
    }

    ghost predicate Valid()
      reads this
    {
      LevelsOk(m, lists)
    }

    ghost function St(): State
      reads this
    {
      State(m, lists, Resting)
    }

    /** Run a search to its end; `prev` collects the node before the target on every level. */
    method Find(target: Option<Key>) returns (before: nat, after: nat, prev: seq<nat>)
      requires Valid()
      ensures IsAnswer(St(), target, before, after)
      ensures |prev| == MAX_HEIGHT
      ensures target.Some? ==> forall l: nat :: l < MAX_HEIGHT ==> IsPrevious(St(), l, target.value, prev[l])
    {
      var x: nat, level: nat := 0, m.maxHeight - 1;
      prev := seq(MAX_HEIGHT, _ => 0);
      forall l: nat | level < l < MAX_HEIGHT && target.Some?
        ensures IsPrevious(St(), l, target.value, prev[l])
      {
        assert IsCut(m, lists[l], target, 0);
      }
      ghost var i: nat := 0;
      assert NodeAt(lists[level], 0) == 0;
      while true
        invariant level < MAX_HEIGHT && |prev| == MAX_HEIGHT && SearchOk(St(), Search(target, x, level))
        invariant i <= |lists[level]| && x == NodeAt(lists[level], i)
        invariant target.Some? ==> forall l: nat :: level < l < MAX_HEIGHT ==>
                  IsPrevious(St(), l, target.value, prev[l])
        decreases level, |lists[level]| - i
      {
        ReadNext(m, level, lists[level], target, x);
        assert m.next[level][NodeAt(lists[level], i)] == After(lists[level], i);
        var next := m.next[level][x];
        if next != 0 && Precedes(m, target, next) {
          x := next;
          i := i + 1;
        } else {
          prev := prev[level := x];
          if level == 0 {
            return x, next, prev;
          }
          if x != 0 {
            assert Below(lists, level, x);
          }
          level := level - 1;
          i := PositionOf(lists[level], x);
        }
      }
    }

    method FindGreaterOrEqual(key: Key) returns (node: nat, prev: seq<nat>)
      requires Valid()
      ensures exists i: nat :: IsCut(m, lists[0], Some(key), i) && node == After(lists[0], i)
      ensures |prev| == MAX_HEIGHT && forall l: nat :: l < MAX_HEIGHT ==> IsPrevious(St(), l, key, prev[l])
    {
      var before;
      before, node, prev := Find(Some(key));
    }

    method FindLessThan(key: Key) returns (node: nat)
      requires Valid()
      ensures exists i: nat :: IsCut(m, lists[0], Some(key), i) && node == NodeAt(lists[0], i)
    {
      var after, prev;
      node, after, prev := Find(Some(key));
    }

    method FindLast() returns (node: nat)
      requires Valid()
      ensures node == NodeAt(lists[0], |lists[0]|)
    {
      var after, prev;
      node, after, prev := Find(None);
    }

    method Contains(key: Key) returns (found: bool)
      requires Valid()
      ensures found <==> key in KeysOf(m, lists[0])
    {
      var node, prev := FindGreaterOrEqual(key);
      ghost var i: nat :| IsCut(m, lists[0], Some(key), i) && node == After(lists[0], i);
      found := node != 0 && m.keys[node] == key;
      assert i < |lists[0]| ==> KeysOf(m, lists[0])[i] == m.keys[lists[0][i]];
      if key in KeysOf(m, lists[0]) {
        ghost var j :| 0 <= j < |lists[0]| && KeysOf(m, lists[0])[j] == key;
        CutFinds(m, lists[0], key, i, j);
      }
    }

    /** Make the new node. */
    method NewNode(key: Key, height: nat, prev: seq<nat>) returns (x: nat)
      requires CanStart(St(), key, height, prev)
      modifies this`m
      ensures Start(old(St()), key, height, prev) == State(m, lists, Linking(x, height, prev, 0, false))
      ensures x == |old(m.keys)| && m.keys == old(m.keys) + [key]
    {
      x := |m.keys|;
      var next := m.next;
      m := Memory(m.keys + [key], seq(|next|, l requires 0 <= l < |next| => next[l] + [0]),
                  if height > m.maxHeight then height else m.maxHeight);
    }

    /** Link the new node at one level: its own pointer first, then the pointer to it. */
    method LinkNext(x: nat, height: nat, prev: seq<nat>, i: nat)
      requires i < height <= |prev| && Inv(State(m, lists, Linking(x, height, prev, i, false)))
      modifies this
      ensures m.keys == old(m.keys) && IsLinked(old(lists), lists, i, x) && |lists| == MAX_HEIGHT
      ensures forall l: nat :: l < MAX_HEIGHT && l != i ==> lists[l] == old(lists)[l]
      ensures Inv(State(m, lists, if i + 1 == height then Resting else Linking(x, height, prev, i + 1, false)))
    {
      ghost var st := State(m, lists, Linking(x, height, prev, i, false));
      PrepareKeepsInv(st);
      m := SetNext(m, i, x, m.next[i][prev[i]]);
      st := Prepare(st);
      PublishKeepsInv(st);
      PlaceIsNode(st, i);
      m := SetNext(m, i, prev[i], x);
      st := Publish(st);
      lists := st.lists;
    }

    lemma KeyIsAbsent(key: Key)
      requires Valid() && key !in KeysOf(m, lists[0])
      ensures forall n :: n in lists[0] ==> m.keys[n] != key
    {
      forall n | n in lists[0]
        ensures m.keys[n] != key
      {
        var i :| 0 <= i < |lists[0]| && lists[0][i] == n;
        assert KeysOf(m, lists[0])[i] == m.keys[n];
      }
    }

    /** Insert a key that is not there yet, at the height drawn for it. */
    method Insert(key: Key, height: nat)
      requires Valid() && 1 <= height <= MAX_HEIGHT && key !in KeysOf(m, lists[0])
      modifies this
      ensures Valid() && m.keys == old(m.keys) + [key]
      ensures forall l: nat :: l < height ==> IsLinked(old(lists), lists, l, |old(m.keys)|)
      ensures forall l: nat :: height <= l < MAX_HEIGHT ==> lists[l] == old(lists)[l]
    {
      var x, prev := FindGreaterOrEqual(key);
      KeyIsAbsent(key);
      assert CanStart(St(), key, height, prev);
      StartKeepsInv(St(), key, height, prev);
      x := NewNode(key, height, prev);
      hide Inv, LevelsOk, IsLinked;
      for i := 0 to height
        invariant |lists| == MAX_HEIGHT && m.keys == old(m.keys) + [key]
        invariant Inv(State(m, lists, if i == height then Resting else Linking(x, height, prev, i, false)))
        invariant forall l: nat :: l < i ==> IsLinked(old(lists), lists, l, x)
        invariant forall l: nat :: i <= l < MAX_HEIGHT ==> lists[l] == old(lists)[l]
      {
        ghost var before := lists;
        LinkNext(x, height, prev, i);
        forall l: nat | l <= i
          ensures IsLinked(old(lists), lists, l, x)
        {
          if l == i {
            LinkedAlike(before, lists, old(lists), lists, i, x);
          } else {
            LinkedAlike(old(lists), before, old(lists), lists, l, x);
          }
        }
      }
      InvOfResting(St());
    }
  }

  /** At level `l` the node has been inserted, and nothing else has changed there. */
  ghost predicate IsLinked(lists: seq<seq<nat>>, lists': seq<seq<nat>>, l: nat, x: nat) {
    && l < |lists| == |lists'|
    && exists k: nat :: k <= |lists[l]| && lists'[l] == InsertAt(lists[l], k, x)
  }

  lemma LinkedAlike(a: seq<seq<nat>>, lists: seq<seq<nat>>, b: seq<seq<nat>>, lists': seq<seq<nat>>, l: nat, x: nat)
    requires l < MAX_HEIGHT && |a| == |lists| == |b| == |lists'| == MAX_HEIGHT
    requires IsLinked(a, lists, l, x) && a[l] == b[l] && lists[l] == lists'[l]
    ensures IsLinked(b, lists', l, x)
  {
  }

  lemma InvOfResting(st: State)
    requires Inv(st)
    ensures LevelsOk(st.m, st.lists)
  {
  }
}
