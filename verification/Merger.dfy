/**
 MergingIterator (table/merger.cc): several sorted iterators read as one, in either direction.
 It refines a cursor over the sorted union of its children.
 */
module Merger {
  import opened InternalKeys
  import opened Cursors

  datatype Direction = Forward | Reverse

  /** `all` is the sorted union of the runs, and every key of it occurs in exactly one of them. */
  ghost predicate IsUnion(all: seq<Entry>, runs: seq<seq<Entry>>) {
    && Sorted(all)
    && (forall c :: c in runs ==> Sorted(c))
    && (forall c, e :: c in runs && e in c ==> e in all)
    && (forall e :: e in all ==> exists c :: c in runs && e in c)
    && (forall i: nat, j: nat {:trigger KeysApart(runs, i, j)} :: i < j < |runs| ==> KeysApart(runs, i, j))
  }

  ghost predicate KeysApart(runs: seq<seq<Entry>>, i: nat, j: nat)
    requires i < |runs| && j < |runs|
  {
    forall e, f :: e in runs[i] && f in runs[j] ==> e.key != f.key
  }

  ghost predicate IsPart(es: seq<Entry>, all: seq<Entry>) {
    Sorted(es) && Sorted(all) && forall e :: e in es ==> e in all
  }

  /** The entry is one of the first `t`. */
  predicate IsAmongFirst(all: seq<Entry>, t: nat, e: Entry) {
    t < |all| ==> Less(e.key, all[t].key)
  }

  /** The child is at its first entry that is not among the first `t`. */
  ghost predicate StandsFrom(es: seq<Entry>, all: seq<Entry>, t: nat, pos: nat) {
    pos <= |es| && forall j :: 0 <= j < |es| ==> (j < pos <==> IsAmongFirst(all, t, es[j]))
  }

  /** The child is at its last entry among the first `t`, or not valid if it has none. */
  ghost predicate StandsBefore(es: seq<Entry>, all: seq<Entry>, t: nat, pos: nat) {
    pos <= |es| && forall j :: 0 <= j < |es| ==> (j <= pos < |es| <==> IsAmongFirst(all, t, es[j]))
  }

  // ----- one child

  lemma SortedAt(es: seq<Entry>, i: nat, j: nat)
    requires Sorted(es) && i < |es| && j < |es|
    ensures i < j ==> Less(es[i].key, es[j].key)
  {
  }

  lemma PositionInAll(es: seq<Entry>, all: seq<Entry>, j: nat) returns (k: nat)
    requires IsPart(es, all) && j < |es|
    ensures k < |all| && all[k] == es[j]
  {
    assert es[j] in es;
    k :| 0 <= k < |all| && all[k] == es[j];
  }

  lemma OrderInAll(all: seq<Entry>, i: nat, j: nat)
    requires Sorted(all) && i < |all| && j < |all|
    ensures Less(all[i].key, all[j].key) <==> i < j
  {
    assert i < j ==> Less(all[i].key, all[j].key);
    assert j < i ==> Less(all[j].key, all[i].key);
    LessIsStrictOrder(all[i].key, all[j].key, all[i].key);
  }

  lemma AmongFirstIsPosition(all: seq<Entry>, t: nat, k: nat)
    requires Sorted(all) && t <= |all| && k < |all|
    ensures IsAmongFirst(all, t, all[k]) <==> k < t
  {
    if t < |all| {
      OrderInAll(all, k, t);
    }
  }

  lemma SeekStands(es: seq<Entry>, all: seq<Entry>, target: InternalKey, t: nat, pos: nat)
    requires IsPart(es, all) && IsLowerBound(es, target, pos) && IsLowerBound(all, target, t)
    ensures StandsFrom(es, all, t, pos)
  {
    forall j | 0 <= j < |es|
      ensures j < pos <==> IsAmongFirst(all, t, es[j])
    {
      var k := PositionInAll(es, all, j);
      AmongFirstIsPosition(all, t, k);
    }
  }

  /** A child that does not hold all[t] already stands from t + 1; the one that does steps over it. */
  lemma StepOver(es: seq<Entry>, all: seq<Entry>, t: nat, pos: nat)
    requires IsPart(es, all) && t < |all| && StandsFrom(es, all, t, pos)
    ensures StandsFrom(es, all, t + 1, if pos < |es| && es[pos] == all[t] then pos + 1 else pos)
  {
    forall j | 0 <= j < |es|
      ensures IsAmongFirst(all, t + 1, es[j]) <==> IsAmongFirst(all, t, es[j]) || es[j] == all[t]
      ensures es[j] == all[t] ==> j == pos
    {
      var k := PositionInAll(es, all, j);
      AmongFirstIsPosition(all, t, k);
      AmongFirstIsPosition(all, t + 1, k);
      if es[j] == all[t] {
        OrderInAll(all, t, k);
        AmongFirstIsPosition(all, t, t);
        assert pos <= j;
        SortedAt(es, pos, j);
      }
    }
  }

  /** Going backward. */
  lemma StepBack(es: seq<Entry>, all: seq<Entry>, t: nat, pos: nat)
    requires IsPart(es, all) && t < |all| && StandsBefore(es, all, t + 1, pos)
    ensures StandsBefore(es, all, t,
              if pos < |es| && es[pos] == all[t] then (if pos == 0 then |es| else pos - 1) else pos)
  {
    forall j | 0 <= j < |es|
      ensures IsAmongFirst(all, t + 1, es[j]) <==> IsAmongFirst(all, t, es[j]) || es[j] == all[t]
      ensures es[j] == all[t] ==> j == pos
    {
      var k := PositionInAll(es, all, j);
      AmongFirstIsPosition(all, t, k);
      AmongFirstIsPosition(all, t + 1, k);
      if es[j] == all[t] {
        AmongFirstIsPosition(all, t, t);
        assert j <= pos < |es|;
        SortedAt(es, j, pos);
        if j < pos {
          var m := PositionInAll(es, all, pos);
          AmongFirstIsPosition(all, t + 1, m);
          OrderInAll(all, t, m);
        }
      }
    }
  }

  /** One step back from the first entry not among the first `t`. */
  lemma TurnBack(es: seq<Entry>, all: seq<Entry>, t: nat, pos: nat)
    requires StandsFrom(es, all, t, pos)
    ensures StandsBefore(es, all, t, if pos == 0 then |es| else pos - 1)
  {
  }

  // ----- all children

  ghost predicate ChildFrom(all: seq<Entry>, runs: seq<seq<Entry>>, pos: seq<nat>, i: nat, t: nat)
    requires i < |runs| == |pos|
  {
    StandsFrom(runs[i], all, t, pos[i])
  }

  ghost predicate ChildBefore(all: seq<Entry>, runs: seq<seq<Entry>>, pos: seq<nat>, i: nat, t: nat)
    requires i < |runs| == |pos|
  {
    StandsBefore(runs[i], all, t, pos[i])
  }

  /** The children other than `skip` (none, if it is -1) are at their first entries from `t` on. */
  ghost predicate OthersFrom(all: seq<Entry>, runs: seq<seq<Entry>>, pos: seq<nat>, skip: int, t: nat)
    requires |runs| == |pos|
  {
    forall i: nat :: i < |runs| && i != skip ==> ChildFrom(all, runs, pos, i, t)
  }

  ghost predicate OthersBefore(all: seq<Entry>, runs: seq<seq<Entry>>, pos: seq<nat>, skip: int, t: nat)
    requires |runs| == |pos|
  {
    forall i: nat :: i < |runs| && i != skip ==> ChildBefore(all, runs, pos, i, t)
  }

  ghost predicate IsAt(runs: seq<seq<Entry>>, pos: seq<nat>, i: int, e: Entry)
    requires |runs| == |pos|
  {
    0 <= i < |runs| && pos[i] < |runs[i]| && runs[i][pos[i]] == e
  }

  /** `i` is a valid child whose key no valid child undercuts; -1 if none is valid. */
  ghost predicate IsSmallest(runs: seq<seq<Entry>>, pos: seq<nat>, i: int)
    requires |runs| == |pos|
  {
    && -1 <= i < |runs|
    && (i == -1 ==> forall k :: 0 <= k < |runs| ==> pos[k] >= |runs[k]|)
    && (i != -1 ==> pos[i] < |runs[i]| && forall k :: 0 <= k < |runs| && pos[k] < |runs[k]| ==>
          AtMost(runs[i][pos[i]].key, runs[k][pos[k]].key))
  }

  ghost predicate IsLargest(runs: seq<seq<Entry>>, pos: seq<nat>, i: int)
    requires |runs| == |pos|
  {
    && -1 <= i < |runs|
    && (i == -1 ==> forall k :: 0 <= k < |runs| ==> pos[k] >= |runs[k]|)
    && (i != -1 ==> pos[i] < |runs[i]| && forall k :: 0 <= k < |runs| && pos[k] < |runs[k]| ==>
          AtMost(runs[k][pos[k]].key, runs[i][pos[i]].key))
  }

  lemma RunIsPart(all: seq<Entry>, runs: seq<seq<Entry>>, i: nat)
    requires IsUnion(all, runs) && i < |runs|
    ensures IsPart(runs[i], all)
  {
    assert runs[i] in runs;
  }

  /** The child that holds an entry. */
  lemma Owner(all: seq<Entry>, runs: seq<seq<Entry>>, t: nat) returns (i: nat, j: nat)
    requires IsUnion(all, runs) && t < |all|
    ensures i < |runs| && j < |runs[i]| && runs[i][j] == all[t]
  {
    assert all[t] in all;
    var c :| c in runs && all[t] in c;
    i :| 0 <= i < |runs| && runs[i] == c;
    j :| 0 <= j < |c| && c[j] == all[t];
  }

  lemma OwnerIsUnique(all: seq<Entry>, runs: seq<seq<Entry>>, i: nat, k: nat, e: Entry)
    requires IsUnion(all, runs) && i < |runs| && k < |runs| && e in runs[i] && e in runs[k]
    ensures i == k
  {
    assert i < k ==> KeysApart(runs, i, k);
    assert k < i ==> KeysApart(runs, k, i);
  }

  /** The owner of the next entry stands on it. */
  lemma OwnerStandsOnNext(all: seq<Entry>, runs: seq<seq<Entry>>, pos: seq<nat>, t: nat) returns (i: nat)
    requires |runs| == |pos| && IsUnion(all, runs) && t < |all| && OthersFrom(all, runs, pos, -1, t)
    ensures i < |runs| && IsAt(runs, pos, i, all[t])
  {
    var j;
    i, j := Owner(all, runs, t);
    RunIsPart(all, runs, i);
    assert ChildFrom(all, runs, pos, i, t);
    StepOver(runs[i], all, t, pos[i]);
    AmongFirstIsPosition(all, t, t);
    var p := pos[i];
    assert p <= j;
    var k := PositionInAll(runs[i], all, p);
    AmongFirstIsPosition(all, t, k);
    SortedAt(runs[i], p, j);
    OrderInAll(all, k, t);
  }

  /** A valid child stands on an entry from `t` on. */
  lemma ValidStandsFrom(all: seq<Entry>, runs: seq<seq<Entry>>, pos: seq<nat>, t: nat, i: nat) returns (k: nat)
    requires |runs| == |pos| && IsUnion(all, runs) && i < |runs| && ChildFrom(all, runs, pos, i, t)
    requires t <= |all| && pos[i] < |runs[i]|
    ensures t <= k < |all| && all[k] == runs[i][pos[i]]
  {
    RunIsPart(all, runs, i);
    k := PositionInAll(runs[i], all, pos[i]);
    AmongFirstIsPosition(all, t, k);
  }

  /** The smallest child is the one that holds the next entry. */
  lemma SmallestIsNext(all: seq<Entry>, runs: seq<seq<Entry>>, pos: seq<nat>, t: nat, current: int)
    requires |runs| == |pos| && IsUnion(all, runs) && t <= |all| && OthersFrom(all, runs, pos, -1, t)
    requires IsSmallest(runs, pos, current)
    ensures current == -1 <==> t == |all|
    ensures current != -1 ==> IsAt(runs, pos, current, all[t]) && OthersFrom(all, runs, pos, current, t + 1)
  {
    if current != -1 {
      assert ChildFrom(all, runs, pos, current, t);
      var k := ValidStandsFrom(all, runs, pos, t, current);
      var i := OwnerStandsOnNext(all, runs, pos, t);
      OrderInAll(all, t, k);
      OrderInAll(all, k, t);
      assert AtMost(all[k].key, all[t].key);
      assert k == t;
      var next := t + 1;
      forall m: nat | m < |runs| && m != current
        ensures ChildFrom(all, runs, pos, m, next)
      {
        RunIsPart(all, runs, m);
        assert ChildFrom(all, runs, pos, m, t);
        StepOver(runs[m], all, t, pos[m]);
        if pos[m] < |runs[m]| && runs[m][pos[m]] == all[t] {
          OwnerIsUnique(all, runs, m, current, all[t]);
        }
      }
    } else if t < |all| {
      var i := OwnerStandsOnNext(all, runs, pos, t);
    }
  }

  lemma OwnerStandsOnPrevious(all: seq<Entry>, runs: seq<seq<Entry>>, pos: seq<nat>, t: nat) returns (i: nat)
    requires |runs| == |pos| && IsUnion(all, runs) && 0 < t <= |all| && OthersBefore(all, runs, pos, -1, t)
    ensures i < |runs| && IsAt(runs, pos, i, all[t - 1])
  {
    var j;
    i, j := Owner(all, runs, t - 1);
    RunIsPart(all, runs, i);
    assert ChildBefore(all, runs, pos, i, t);
    AmongFirstIsPosition(all, t, t - 1);
    var p := pos[i];
    assert j <= p < |runs[i]|;
    var k := PositionInAll(runs[i], all, p);
    AmongFirstIsPosition(all, t, k);
    SortedAt(runs[i], j, p);
    OrderInAll(all, t - 1, k);
  }

  lemma ValidStandsBefore(all: seq<Entry>, runs: seq<seq<Entry>>, pos: seq<nat>, t: nat, i: nat) returns (k: nat)
    requires |runs| == |pos| && IsUnion(all, runs) && i < |runs| && ChildBefore(all, runs, pos, i, t)
    requires t <= |all| && pos[i] < |runs[i]|
    ensures k < t && k < |all| && all[k] == runs[i][pos[i]]
  {
    RunIsPart(all, runs, i);
    k := PositionInAll(runs[i], all, pos[i]);
    AmongFirstIsPosition(all, t, k);
  }

  /** The largest child is the one that holds the entry before `t`. */
  lemma LargestIsPrevious(all: seq<Entry>, runs: seq<seq<Entry>>, pos: seq<nat>, t: nat, current: int)
    requires |runs| == |pos| && IsUnion(all, runs) && t <= |all| && OthersBefore(all, runs, pos, -1, t)
    requires IsLargest(runs, pos, current)
    ensures current == -1 <==> t == 0
    ensures current != -1 ==> IsAt(runs, pos, current, all[t - 1]) && OthersBefore(all, runs, pos, current, t - 1)
  {
    if current != -1 {
      assert ChildBefore(all, runs, pos, current, t);
      var k := ValidStandsBefore(all, runs, pos, t, current);
      var i := OwnerStandsOnPrevious(all, runs, pos, t);
      OrderInAll(all, k, t - 1);
      assert AtMost(all[t - 1].key, all[k].key);
      assert k == t - 1;
      var previous := t - 1;
      forall m: nat | m < |runs| && m != current
        ensures ChildBefore(all, runs, pos, m, previous)
      {
        RunIsPart(all, runs, m);
        assert ChildBefore(all, runs, pos, m, t);
        StepBack(runs[m], all, t - 1, pos[m]);
        if pos[m] < |runs[m]| && runs[m][pos[m]] == all[t - 1] {
          OwnerIsUnique(all, runs, m, current, all[t - 1]);
        }
      }
    } else if t > 0 {
      var i := OwnerStandsOnPrevious(all, runs, pos, t);
    }
  }

  lemma FirstStands(es: seq<Entry>, all: seq<Entry>)
    requires IsPart(es, all)
    ensures StandsFrom(es, all, 0, 0)
  {
    forall j | 0 <= j < |es|
      ensures !IsAmongFirst(all, 0, es[j])
    {
      var k := PositionInAll(es, all, j);
      AmongFirstIsPosition(all, 0, k);
    }
  }

  lemma LastStands(es: seq<Entry>, all: seq<Entry>)
    ensures StandsBefore(es, all, |all|, if es == [] then 0 else |es| - 1)
  {
  }

  /** A child other than the current one finds its place around all[t] by seeking to it. */
  lemma SeekToCurrent(es: seq<Entry>, all: seq<Entry>, t: nat, pos: nat)
    requires IsPart(es, all) && t < |all| && IsLowerBound(es, all[t].key, pos)
    ensures StandsFrom(es, all, t, pos)
    ensures StandsFrom(es, all, t + 1, if pos < |es| && es[pos].key == all[t].key then pos + 1 else pos)
  {
    forall j | 0 <= j < |all|
      ensures j < t ==> Less(all[j].key, all[t].key)
      ensures t <= j ==> !Less(all[j].key, all[t].key)
    {
      OrderInAll(all, j, t);
    }
    SeekStands(es, all, all[t].key, t, pos);
    StepOver(es, all, t, pos);
    if pos < |es| {
      var k := PositionInAll(es, all, pos);
      OrderInAll(all, k, t);
      LessIsStrictOrder(all[k].key, all[k].key, all[k].key);
      OrderInAll(all, t, k);
    }
  }

  /** The child that holds all[t] stands right for either direction once it has stepped off it. */
  lemma CurrentSteps(es: seq<Entry>, all: seq<Entry>, t: nat, pos: nat)
    requires IsPart(es, all) && t < |all| && pos < |es| && es[pos] == all[t]
    ensures StandsFrom(es, all, t + 1, pos + 1)
    ensures StandsBefore(es, all, t, if pos == 0 then |es| else pos - 1)
  {
    forall j | 0 <= j < |es|
      ensures IsAmongFirst(all, t, es[j]) <==> j < pos
      ensures IsAmongFirst(all, t + 1, es[j]) <==> j <= pos
    {
      var k := PositionInAll(es, all, j);
      AmongFirstIsPosition(all, t, k);
      AmongFirstIsPosition(all, t + 1, k);
      OrderInAll(es, j, pos);
      OrderInAll(es, pos, j);
      OrderInAll(all, k, t);
      OrderInAll(all, t, k);
    }
  }

  // ----- the iterator

  class MergingIterator {
    const children: seq<Cursor>
    /** The sorted union of the children. */
    ghost const all: seq<Entry>
    /** The child read from, or -1. */
    var current: int
    var direction: Direction
    /** Where a cursor over `all` stands: |all| when not valid. */
    ghost var at: nat

    constructor (children: seq<Cursor>, ghost all: seq<Entry>)
      requires forall i, j :: 0 <= i < j < |children| ==> children[i] != children[j]
      requires IsUnion(all, seq(|children|, i requires 0 <= i < |children| => children[i].entries))
      ensures Ok() && at == |all| && this.children == children && this.all == all
    {
      this.children := children;
      this.all := all;
      current, direction, at := -1, Forward, |all|;
    }

    ghost function Runs(): seq<seq<Entry>> {
      seq(|children|, i requires 0 <= i < |children| => children[i].entries)
    }

    ghost function Positions(): seq<nat>
      reads children
    {
      seq(|children|, i requires 0 <= i < |children| reads children => children[i].pos)
    }

    ghost predicate Fixed() {
      && (forall i, j :: 0 <= i < j < |children| ==> children[i] != children[j])
      && IsUnion(all, Runs())
    }

    /** The current child is at the entry shown; the others are at their next, or at their previous entry. */
    ghost predicate Ok()
      reads this, children
    {
      && Fixed() && at <= |all|
      && (current == -1 <==> at == |all|)
      && (current != -1 ==>
            && IsAt(Runs(), Positions(), current, all[at])
            && (direction.Forward? ==> OthersFrom(all, Runs(), Positions(), current, at + 1))
            && (direction.Reverse? ==> OthersBefore(all, Runs(), Positions(), current, at)))
    }

    predicate Valid()
      reads this
    {
      current != -1
    }

    /** The iterator is valid exactly while it stands at an entry. */
    lemma StandsAtEntry()
      requires Ok()
      ensures Sorted(all) && at <= |all| && (Valid() <==> at < |all|)
    {
    }

    method CurrentEntry() returns (e: Entry)
      requires Ok() && Valid()
      ensures at < |all| && e == all[at]
    {
      e := children[current].Current();
    }

    /** The child with the smallest key becomes current. */
    method FindSmallest(ghost t: nat)
      requires Fixed() && t <= |all| && direction.Forward?
      requires OthersFrom(all, Runs(), Positions(), -1, t)
      modifies this
      ensures Ok() && at == t
    {
      var smallest := -1;
      for i := 0 to |children|
        invariant -1 <= smallest < i
        invariant smallest == -1 ==> forall k :: 0 <= k < i ==> !children[k].Valid()
        invariant smallest != -1 ==> children[smallest].Valid()
        invariant smallest != -1 ==> forall k :: 0 <= k < i && children[k].Valid() ==>
                                       AtMost(children[smallest].Current().key, children[k].Current().key)
      {
        var child := children[i];
        if child.Valid() {
          if smallest == -1 {
            smallest := i;
          } else if Less(child.Current().key, children[smallest].Current().key) {
            smallest := i;
          }
        }
      }
      assert IsSmallest(Runs(), Positions(), smallest);
      SmallestIsNext(all, Runs(), Positions(), t, smallest);
      current := smallest;
      at := t;
    }

    /** The child with the largest key becomes current. */
    method FindLargest(ghost t: nat)
      requires Fixed() && t <= |all| && direction.Reverse?
      requires OthersBefore(all, Runs(), Positions(), -1, t)
      modifies this
      ensures Ok() && at == if t == 0 then |all| else t - 1
    {
      var largest := -1;
      for i := |children| downto 0
        invariant largest == -1 || i <= largest < |children|
        invariant largest == -1 ==> forall k :: i <= k < |children| ==> !children[k].Valid()
        invariant largest != -1 ==> children[largest].Valid()
        invariant largest != -1 ==> forall k :: i <= k < |children| && children[k].Valid() ==>
                                      AtMost(children[k].Current().key, children[largest].Current().key)
      {
        var child := children[i];
        if child.Valid() {
          if largest == -1 {
            largest := i;
          } else if Less(children[largest].Current().key, child.Current().key) {
            largest := i;
          }
        }
      }
      assert IsLargest(Runs(), Positions(), largest);
      LargestIsPrevious(all, Runs(), Positions(), t, largest);
      current := largest;
      at := if t == 0 then |all| else t - 1;
    }

    lemma ChildIsPart(k: nat)
      requires Fixed() && k < |children|
      ensures IsPart(children[k].entries, all)
    {
      assert Runs()[k] == children[k].entries;
      RunIsPart(all, Runs(), k);
    }

    method SeekToFirst()
      requires Fixed()
      modifies this, children
      ensures Ok() && at == 0
    {
      for i := 0 to |children|
        invariant forall k: nat :: k < i ==> StandsFrom(children[k].entries, all, 0, children[k].pos)
      {
        OthersDiffer(i);
        children[i].SeekToFirst();
        ChildIsPart(i);
        FirstStands(children[i].entries, all);
        assert StandsFrom(children[i].entries, all, 0, children[i].pos);
      }
      direction := Forward;
      assert OthersFrom(all, Runs(), Positions(), -1, 0) by {
        forall k: nat | k < |children|
          ensures ChildFrom(all, Runs(), Positions(), k, 0)
        {
        }
      }
      FindSmallest(0);
    }

    method SeekToLast()
      requires Fixed()
      modifies this, children
      ensures Ok() && at == if all == [] then 0 else |all| - 1
    {
      for i := 0 to |children|
        invariant forall k: nat :: k < i ==> StandsBefore(children[k].entries, all, |all|, children[k].pos)
      {
        OthersDiffer(i);
        children[i].SeekToLast();
        LastStands(children[i].entries, all);
        assert StandsBefore(children[i].entries, all, |all|, children[i].pos);
      }
      direction := Reverse;
      assert OthersBefore(all, Runs(), Positions(), -1, |all|) by {
        forall k: nat | k < |children|
          ensures ChildBefore(all, Runs(), Positions(), k, |all|)
        {
        }
      }
      FindLargest(|all|);
    }

    method Seek(target: InternalKey)
      requires Fixed()
      modifies this, children
      ensures Ok() && IsLowerBound(all, target, at)
    {
      ghost var t := LowerBound(all, target);
      for i := 0 to |children|
        invariant forall k: nat :: k < i ==> StandsFrom(children[k].entries, all, t, children[k].pos)
      {
        ChildIsPart(i);
        OthersDiffer(i);
        children[i].Seek(target);
        SeekStands(children[i].entries, all, target, t, children[i].pos);
      }
      assert OthersFrom(all, Runs(), Positions(), -1, t) by {
        forall k: nat | k < |children|
          ensures ChildFrom(all, Runs(), Positions(), k, t)
        {
        }
      }
      direction := Forward;
      FindSmallest(t);
    }

    lemma OthersDiffer(i: nat)
      requires Fixed() && i < |children|
      ensures forall k: nat :: k < |children| && k != i ==> children[k] != children[i]
    {
    }

    method PlaceAfter(i: nat, key: InternalKey)
      requires Fixed() && i < |children| && at < |all| && key == all[at].key
      modifies children[i]
      ensures StandsFrom(children[i].entries, all, at + 1, children[i].pos)
    {
      var child := children[i];
      ChildIsPart(i);
      child.Seek(key);
      SeekToCurrent(child.entries, all, at, child.pos);
      if child.Valid() && key == child.Current().key {
        child.Next();
      }
    }

    method PlaceBefore(i: nat, key: InternalKey)
      requires Fixed() && i < |children| && at < |all| && key == all[at].key
      modifies children[i]
      ensures StandsBefore(children[i].entries, all, at, children[i].pos)
    {
      var child := children[i];
      ChildIsPart(i);
      child.Seek(key);
      SeekToCurrent(child.entries, all, at, child.pos);
      TurnBack(child.entries, all, at, child.pos);
      if child.Valid() {
        child.Prev();
      } else {
        child.SeekToLast();
      }
    }

    /** Make every other child stand at its first entry after the current one. */
    method TurnForward()
      requires Ok() && Valid() && direction.Reverse?
      modifies this`direction, children
      ensures Ok() && Valid() && direction.Forward?
    {
      var key := children[current].Current().key;
      ghost var next := at + 1;
      for i := 0 to |children|
        invariant children[current].pos == old(children[current].pos)
        invariant forall k: nat :: k < i && k != current ==> StandsFrom(children[k].entries, all, next, children[k].pos)
      {
        if i != current {
          OthersDiffer(i);
          PlaceAfter(i, key);
        }
      }
      direction := Forward;
      assert OthersFrom(all, Runs(), Positions(), current, next) by {
        forall k: nat | k < |children| && k != current
          ensures ChildFrom(all, Runs(), Positions(), k, next)
        {
        }
      }
    }

    /** Make every other child stand at its last entry before the current one. */
    method TurnBackward()
      requires Ok() && Valid() && direction.Forward?
      modifies this`direction, children
      ensures Ok() && Valid() && direction.Reverse?
    {
      var key := children[current].Current().key;
      for i := 0 to |children|
        invariant children[current].pos == old(children[current].pos)
        invariant forall k: nat :: k < i && k != current ==> StandsBefore(children[k].entries, all, at, children[k].pos)
      {
        if i != current {
          OthersDiffer(i);
          PlaceBefore(i, key);
        }
      }
      direction := Reverse;
      assert OthersBefore(all, Runs(), Positions(), current, at) by {
        forall k: nat | k < |children| && k != current
          ensures ChildBefore(all, Runs(), Positions(), k, at)
        {
        }
      }
    }

    method Next()
      requires Ok() && Valid()
      modifies this, children
      ensures Ok() && at == old(at) + 1
    {
      if direction.Reverse? {
        TurnForward();
      }
      ghost var next, before := at + 1, Positions();
      ChildIsPart(current);
      CurrentSteps(children[current].entries, all, at, children[current].pos);
      children[current].Next();
      forall k: nat | k < |children|
        ensures ChildFrom(all, Runs(), Positions(), k, next)
      {
        assert k != current ==> ChildFrom(all, Runs(), before, k, next);
      }
      FindSmallest(next);
    }

    method Prev()
      requires Ok() && Valid()
      modifies this, children
      ensures Ok() && at == if old(at) == 0 then |all| else old(at) - 1
    {
      if direction.Forward? {
        TurnBackward();
      }
      ghost var before := Positions();
      ChildIsPart(current);
      CurrentSteps(children[current].entries, all, at, children[current].pos);
      children[current].Prev();
      forall k: nat | k < |children|
        ensures ChildBefore(all, Runs(), Positions(), k, at)
      {
        assert k != current ==> ChildBefore(all, Runs(), before, k, at);
      }
      FindLargest(at);
    }
  }
}
