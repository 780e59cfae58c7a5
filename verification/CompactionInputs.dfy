/**
 Choosing the inputs of a compaction (db/version_set.cc): GetOverlappingInputs with its
 restarts, AddBoundaryInputs, SetupOtherInputs, and the two ways to start a compaction.
 */
module CompactionInputs {
  import opened Optional
  import opened InternalKeys
  import opened ReadSpec
  import opened Versions

  // ----- overlapping a user-key range

  /** A bound that is None is open on its side. */
  predicate Overlaps(t: Table, lo: Option<UserKey>, hi: Option<UserKey>) {
    !(lo.Some? && Largest(t).user < lo.value) && !(hi.Some? && Smallest(t).user > hi.value)
  }

  /** The tables that overlap the range, in their order. */
  function OverlapList(files: seq<Table>, lo: Option<UserKey>, hi: Option<UserKey>): seq<Table> {
    if files == [] then []
    else
      OverlapList(files[..|files| - 1], lo, hi)
      + if Overlaps(files[|files| - 1], lo, hi) then [files[|files| - 1]] else []
  }

  lemma {:induction false} OverlapListMembers(files: seq<Table>, lo: Option<UserKey>, hi: Option<UserKey>)
    ensures forall t :: t in OverlapList(files, lo, hi) <==> t in files && Overlaps(t, lo, hi)
  {
    if files != [] {
      OverlapListMembers(files[..|files| - 1], lo, hi);
      assert files == files[..|files| - 1] + [files[|files| - 1]];
    }
  }

  lemma OverlapListStep(files: seq<Table>, i: nat, lo: Option<UserKey>, hi: Option<UserKey>)
    requires i < |files|
    ensures OverlapList(files[..i + 1], lo, hi) ==
            OverlapList(files[..i], lo, hi) + if Overlaps(files[i], lo, hi) then [files[i]] else []
  {
    assert files[..i + 1][..i] == files[..i];
  }

  /** No table that overlaps the range sticks out of it. */
  ghost predicate Closed(files: seq<Table>, lo: Option<UserKey>, hi: Option<UserKey>) {
    forall t :: t in files && Overlaps(t, lo, hi) ==>
      (lo.Some? ==> lo.value <= Smallest(t).user) && (hi.Some? ==> Largest(t).user <= hi.value)
  }

  /** The second range contains the first, and is open on the same sides. */
  ghost predicate Covers(lo: Option<UserKey>, hi: Option<UserKey>, lo': Option<UserKey>, hi': Option<UserKey>) {
    && lo.Some? == lo'.Some? && (lo.Some? ==> lo'.value <= lo.value)
    && hi.Some? == hi'.Some? && (hi.Some? ==> hi.value <= hi'.value)
  }

  ghost predicate IsLeastClosedRange(files: seq<Table>, begin: Option<UserKey>, end: Option<UserKey>,
                                     lo: Option<UserKey>, hi: Option<UserKey>)
  {
    && Covers(begin, end, lo, hi)
    && Closed(files, lo, hi)
    && WithinClosedRanges(files, begin, end, lo, hi)
  }

  ghost predicate WithinClosedRanges(files: seq<Table>, begin: Option<UserKey>, end: Option<UserKey>,
                                     lo: Option<UserKey>, hi: Option<UserKey>)
  {
    forall lo', hi' :: Covers(begin, end, lo', hi') && Closed(files, lo', hi') ==> Covers(lo, hi, lo', hi')
  }

  /** Widening by an overlapping table stays within every closed range. */
  lemma WidenToTable(files: seq<Table>, begin: Option<UserKey>, end: Option<UserKey>,
                     lo: Option<UserKey>, hi: Option<UserKey>, f: Table)
    requires f in files && WellFormed(f) && Overlaps(f, lo, hi)
    requires Covers(begin, end, lo, hi) && WithinClosedRanges(files, begin, end, lo, hi)
    ensures lo.Some? && Smallest(f).user < lo.value ==>
              && WithinClosedRanges(files, begin, end, Some(Smallest(f).user), hi)
              && StickingOut(files, Some(Smallest(f).user), hi) < StickingOut(files, lo, hi)
    ensures hi.Some? && Largest(f).user > hi.value ==>
              && WithinClosedRanges(files, begin, end, lo, Some(Largest(f).user))
              && StickingOut(files, lo, Some(Largest(f).user)) < StickingOut(files, lo, hi)
  {
    forall lo', hi' | Covers(begin, end, lo', hi') && Closed(files, lo', hi')
      ensures lo.Some? ==> lo'.value <= Smallest(f).user
      ensures hi.Some? ==> Largest(f).user <= hi'.value
    {
      assert Covers(lo, hi, lo', hi');
      assert Overlaps(f, lo', hi');
    }
    if lo.Some? && Smallest(f).user < lo.value {
      WideningCounts(files, lo, hi, Some(Smallest(f).user), hi);
    }
    if hi.Some? && Largest(f).user > hi.value {
      WideningCounts(files, lo, hi, lo, Some(Largest(f).user));
    }
  }

  /** Tables that start before the range, plus tables that end after it. */
  ghost function StickingOut(files: seq<Table>, lo: Option<UserKey>, hi: Option<UserKey>): nat {
    if files == [] then 0
    else
      (if lo.Some? && Smallest(files[0]).user < lo.value then 1 else 0)
      + (if hi.Some? && Largest(files[0]).user > hi.value then 1 else 0)
      + StickingOut(files[1..], lo, hi)
  }

  lemma {:induction false} WideningCounts(files: seq<Table>, lo: Option<UserKey>, hi: Option<UserKey>,
                                          lo': Option<UserKey>, hi': Option<UserKey>)
    requires Covers(lo, hi, lo', hi')
    ensures StickingOut(files, lo', hi') <= StickingOut(files, lo, hi)
    ensures (exists t :: t in files && lo.Some? && lo'.value <= Smallest(t).user < lo.value) ==>
              StickingOut(files, lo', hi') < StickingOut(files, lo, hi)
    ensures (exists t :: t in files && hi.Some? && hi.value < Largest(t).user <= hi'.value) ==>
              StickingOut(files, lo', hi') < StickingOut(files, lo, hi)
  {
    if files != [] {
      WideningCounts(files[1..], lo, hi, lo', hi');
      assert files == [files[0]] + files[1..];
    }
  }

  /**
   All tables of the level that overlap [begin, end].  In level 0 an added table may widen
   the range, and the search then starts over; the range ends as the least one that no
   overlapping table sticks out of.
   */
  method GetOverlappingInputs(level: nat, files: seq<Table>, begin: Option<UserKey>, end: Option<UserKey>)
    returns (inputs: seq<Table>, ghost lo: Option<UserKey>, ghost hi: Option<UserKey>)
    requires AllWellFormed(files)
    ensures inputs == OverlapList(files, lo, hi)
    ensures level > 0 ==> lo == begin && hi == end
    ensures level == 0 ==> IsLeastClosedRange(files, begin, end, lo, hi)
  {
    inputs := [];
    var userBegin, userEnd := begin, end;
    var i := 0;
    while i < |files|
      invariant 0 <= i <= |files|
      invariant Covers(begin, end, userBegin, userEnd)
      invariant level > 0 ==> userBegin == begin && userEnd == end
      invariant inputs == OverlapList(files[..i], userBegin, userEnd)
      invariant level == 0 ==> Closed(files[..i], userBegin, userEnd)
      invariant level == 0 ==> WithinClosedRanges(files, begin, end, userBegin, userEnd)
      decreases StickingOut(files, userBegin, userEnd), |files| - i
    {
      var f := files[i];
      assert f in files;
      OverlapListStep(files, i, userBegin, userEnd);
      assert files[..i + 1] == files[..i] + [f];
      i := i + 1;
      if userBegin.Some? && Largest(f).user < userBegin.value {
      } else if userEnd.Some? && Smallest(f).user > userEnd.value {
      } else {
        inputs := inputs + [f];
        if level == 0 {
          WidenToTable(files, begin, end, userBegin, userEnd, f);
          if userBegin.Some? && Smallest(f).user < userBegin.value {
            userBegin := Some(Smallest(f).user);
            inputs := [];
            i := 0;
          } else if userEnd.Some? && Largest(f).user > userEnd.value {
            userEnd := Some(Largest(f).user);
            inputs := [];
            i := 0;
          }
        }
      }
    }
    assert files[..|files|] == files;
    lo, hi := userBegin, userEnd;
  }

  // ----- key ranges of a list of tables

  ghost predicate IsSmallestKey(files: seq<Table>, k: InternalKey) {
    (exists t :: t in files && Smallest(t) == k) && forall t :: t in files ==> AtMost(k, Smallest(t))
  }

  ghost predicate IsLargestKey(files: seq<Table>, k: InternalKey) {
    (exists t :: t in files && Largest(t) == k) && forall t :: t in files ==> AtMost(Largest(t), k)
  }

  lemma SmallestKeyStep(files: seq<Table>, k: InternalKey, f: Table)
    requires IsSmallestKey(files, k)
    ensures IsSmallestKey(files + [f], if Less(Smallest(f), k) then Smallest(f) else k)
  {
    if Less(Smallest(f), k) {
      assert f in files + [f];
    } else {
      var t :| t in files && Smallest(t) == k;
      assert t in files + [f];
    }
  }

  lemma LargestKeyStep(files: seq<Table>, k: InternalKey, f: Table)
    requires IsLargestKey(files, k)
    ensures IsLargestKey(files + [f], if Less(k, Largest(f)) then Largest(f) else k)
  {
    if Less(k, Largest(f)) {
      assert f in files + [f];
    } else {
      var t :| t in files && Largest(t) == k;
      assert t in files + [f];
    }
  }

  method GetRange(inputs: seq<Table>) returns (smallest: InternalKey, largest: InternalKey)
    requires inputs != []
    ensures IsSmallestKey(inputs, smallest) && IsLargestKey(inputs, largest)
  {
    smallest, largest := Smallest(inputs[0]), Largest(inputs[0]);
    for i := 1 to |inputs|
      invariant IsSmallestKey(inputs[..i], smallest) && IsLargestKey(inputs[..i], largest)
    {
      var f := inputs[i];
      SmallestKeyStep(inputs[..i], smallest, f);
      LargestKeyStep(inputs[..i], largest, f);
      assert inputs[..i + 1] == inputs[..i] + [f];
      if Less(Smallest(f), smallest) {
        smallest := Smallest(f);
      }
      if Less(largest, Largest(f)) {
        largest := Largest(f);
      }
    }
    assert inputs[..|inputs|] == inputs;
  }

  // ----- boundary files

  /** `t` starts after `largest` but with the same user key. */
  predicate IsBoundaryFile(t: Table, largest: InternalKey) {
    Less(largest, Smallest(t)) && Smallest(t).user == largest.user
  }

  ghost predicate IsSmallestBoundaryFile(files: seq<Table>, largest: InternalKey, f: Table) {
    && f in files && IsBoundaryFile(f, largest)
    && forall t :: t in files && IsBoundaryFile(t, largest) ==> AtMost(Smallest(f), Smallest(t))
  }

  method FindSmallestBoundaryFile(files: seq<Table>, largest: InternalKey) returns (r: Option<Table>)
    ensures r.None? ==> forall t :: t in files ==> !IsBoundaryFile(t, largest)
    ensures r.Some? ==> IsSmallestBoundaryFile(files, largest, r.value)
  {
    r := None;
    for i := 0 to |files|
      invariant r.None? ==> forall t :: t in files[..i] ==> !IsBoundaryFile(t, largest)
      invariant r.Some? ==> IsSmallestBoundaryFile(files[..i], largest, r.value)
    {
      var f := files[i];
      assert files[..i + 1] == files[..i] + [f];
      if Less(largest, Smallest(f)) && Smallest(f).user == largest.user {
        if r.None? || Less(Smallest(f), Smallest(r.value)) {
          r := Some(f);
        }
      }
    }
    assert files[..|files|] == files;
  }

  ghost function StartingAfter(files: seq<Table>, k: InternalKey): set<Table> {
    set t | t in files && Less(k, Smallest(t))
  }

  /** The largest key once `closed[..i]` has been collected, `first` being that of the original inputs. */
  ghost function LargestBefore(n: nat, first: InternalKey, closed: seq<Table>, i: nat): InternalKey
    requires n <= i <= |closed|
  {
    if i == n then first else Largest(closed[i - 1])
  }

  /** Each appended table is the smallest boundary file of what precedes it. */
  ghost predicate IsBoundaryChain(files: seq<Table>, n: nat, first: InternalKey, closed: seq<Table>)
    requires n <= |closed|
  {
    forall i: nat {:trigger IsChainLink(files, n, first, closed, i)} ::
      n <= i < |closed| ==> IsChainLink(files, n, first, closed, i)
  }

  ghost predicate IsChainLink(files: seq<Table>, n: nat, first: InternalKey, closed: seq<Table>, i: nat)
    requires n <= i < |closed|
  {
    IsSmallestBoundaryFile(files, LargestBefore(n, first, closed, i), closed[i])
  }

  ghost predicate HasBoundaryFile(files: seq<Table>, largest: InternalKey) {
    exists t :: t in files && IsBoundaryFile(t, largest)
  }

  /** `closed` is `inputs` followed by a boundary chain that cannot be extended. */
  ghost predicate IsBoundaryClosure(files: seq<Table>, inputs: seq<Table>, first: InternalKey, closed: seq<Table>) {
    && inputs <= closed
    && IsLargestKey(inputs, first)
    && IsBoundaryChain(files, |inputs|, first, closed)
    && !HasBoundaryFile(files, LargestBefore(|inputs|, first, closed, |closed|))
  }

  lemma LargestIsUnique(files: seq<Table>, k: InternalKey, l: InternalKey)
    requires IsLargestKey(files, k) && IsLargestKey(files, l)
    ensures k == l
  {
    LessIsStrictOrder(k, l, k);
  }

  /** On a disjoint level the smallest boundary file is the next table. */
  lemma BoundaryIsNext(files: seq<Table>, n: nat, f: Table)
    requires Disjoint(files) && AllWellFormed(files) && 0 < n <= |files|
    requires IsSmallestBoundaryFile(files, Largest(files[n - 1]), f)
    ensures n < |files| && f == files[n]
  {
    var largest := Largest(files[n - 1]);
    var j :| 0 <= j < |files| && files[j] == f;
    SmallestAtMostLargest(f);
    assert j >= n by {
      if j < n - 1 {
        DisjointLargest(files, j, n - 1);
        LessIsStrictOrder(largest, Smallest(f), Largest(f));
      }
    }
    if n < j {
      SmallestAtMostLargest(files[n]);
      DisjointLargest(files, n - 1, n);
      DisjointLargest(files, n, j);
      assert IsBoundaryFile(files[n], largest);
    }
  }

  lemma LargestOfSegment(files: seq<Table>, a: nat, b: nat)
    requires Disjoint(files) && AllWellFormed(files) && a < b <= |files|
    ensures IsLargestKey(files[a..b], Largest(files[b - 1])) && IsSmallestKey(files[a..b], Smallest(files[a]))
  {
    assert files[b - 1] in files[a..b] && files[a] in files[a..b];
    forall t | t in files[a..b]
      ensures AtMost(Largest(t), Largest(files[b - 1])) && AtMost(Smallest(files[a]), Smallest(t))
    {
      var j :| a <= j < b && files[j] == t;
      if j < b - 1 {
        DisjointLargest(files, j, b - 1);
      }
      if a < j {
        DisjointLargest(files, a, j);
      }
    }
  }

  lemma SegmentGrows(files: seq<Table>, a: nat, b: nat, i: nat, first: InternalKey, closed: seq<Table>)
    requires Disjoint(files) && AllWellFormed(files) && a < b <= |files| && first == Largest(files[b - 1])
    requires b - a <= i < |closed| && IsBoundaryChain(files, b - a, first, closed)
    requires a + i <= |files| && closed[..i] == files[a..a + i]
    ensures a + i < |files| && closed[i] == files[a + i]
  {
    assert LargestBefore(b - a, first, closed, i) == Largest(files[a + i - 1]) by {
      if i > b - a {
        assert closed[..i][i - 1] == files[a..a + i][i - 1];
      }
    }
    assert IsChainLink(files, b - a, first, closed, i);
    BoundaryIsNext(files, a + i, closed[i]);
  }

  /**
   On a disjoint level, closing tables a to b-1 takes the run on past b for as long as a
   table starts with the user key its predecessor ends with, and stops at the first that
   does not.
   */
  lemma ClosureOfSegment(files: seq<Table>, a: nat, b: nat, first: InternalKey, closed: seq<Table>)
    requires Disjoint(files) && AllWellFormed(files) && a < b <= |files|
    requires IsBoundaryClosure(files, files[a..b], first, closed)
    ensures |closed| >= b - a && a + |closed| <= |files| && closed == files[a..a + |closed|]
    ensures a + |closed| < |files| ==> !IsBoundaryFile(files[a + |closed|], Largest(files[a + |closed| - 1]))
  {
    LargestOfSegment(files, a, b);
    LargestIsUnique(files[a..b], first, Largest(files[b - 1]));
    ChainOfSegment(files, a, b, |closed|, first, closed);
    if a + |closed| < |files| {
      assert files[a + |closed|] in files;
      assert LargestBefore(b - a, first, closed, |closed|) == Largest(files[a + |closed| - 1]);
    }
  }

  lemma {:induction false} ChainOfSegment(files: seq<Table>, a: nat, b: nat, i: nat, first: InternalKey,
                                          closed: seq<Table>)
    requires Disjoint(files) && AllWellFormed(files) && a < b <= |files| && first == Largest(files[b - 1])
    requires files[a..b] <= closed && b - a <= i <= |closed| && IsBoundaryChain(files, b - a, first, closed)
    ensures a + i <= |files| && closed[..i] == files[a..a + i]
  {
    if i > b - a {
      ChainOfSegment(files, a, b, i - 1, first, closed);
      SegmentGrows(files, a, b, i - 1, first, closed);
      assert closed[..i] == closed[..i - 1] + [closed[i - 1]];
    }
  }

  lemma ExtendChain(files: seq<Table>, n: nat, first: InternalKey, closed: seq<Table>, f: Table)
    requires n <= |closed| && IsBoundaryChain(files, n, first, closed)
    requires IsSmallestBoundaryFile(files, LargestBefore(n, first, closed, |closed|), f)
    ensures IsBoundaryChain(files, n, first, closed + [f])
    ensures LargestBefore(n, first, closed + [f], |closed| + 1) == Largest(f)
  {
    forall i: nat | n <= i < |closed| + 1
      ensures IsChainLink(files, n, first, closed + [f], i)
    {
      assert i < |closed| ==> IsChainLink(files, n, first, closed, i);
      assert LargestBefore(n, first, closed + [f], i) == LargestBefore(n, first, closed, i);
    }
  }

  /** Inputs that already hold every overlapping table gain no boundary file. */
  lemma ClosureOfOverlapList(files: seq<Table>, lo: Option<UserKey>, hi: Option<UserKey>,
                             first: InternalKey, closed: seq<Table>)
    requires AllWellFormed(files) && Closed(files, lo, hi)
    requires IsBoundaryClosure(files, OverlapList(files, lo, hi), first, closed)
    ensures closed == OverlapList(files, lo, hi)
  {
    var inputs := OverlapList(files, lo, hi);
    OverlapListMembers(files, lo, hi);
    if |inputs| < |closed| {
      var f := closed[|inputs|];
      assert LargestBefore(|inputs|, first, closed, |inputs|) == first;
      assert IsChainLink(files, |inputs|, first, closed, |inputs|);
      var t :| t in inputs && Largest(t) == first;
      SmallestAtMostLargest(t);
      SmallestAtMostLargest(f);
      assert Overlaps(f, lo, hi);
      assert f in inputs;
      LessIsStrictOrder(first, Smallest(f), Largest(f));
      assert false;
    }
  }

  /** Extend the inputs by boundary files until no table of the level is one. */
  method AddBoundaryInputs(files: seq<Table>, inputs: seq<Table>) returns (closed: seq<Table>)
    requires AllWellFormed(files)
    ensures inputs == [] ==> closed == []
    ensures forall first :: IsLargestKey(inputs, first) ==> IsBoundaryClosure(files, inputs, first, closed)
  {
    closed := inputs;
    if inputs == [] {
      return;
    }
    var _, largest := GetRange(inputs);
    ghost var first := largest;
    var searching := true;
    while searching
      invariant inputs <= closed
      invariant largest == LargestBefore(|inputs|, first, closed, |closed|)
      invariant IsBoundaryChain(files, |inputs|, first, closed)
      invariant !searching ==> !HasBoundaryFile(files, largest)
      decreases StartingAfter(files, largest), searching
    {
      var next := FindSmallestBoundaryFile(files, largest);
      if next.Some? {
        ShrinkStartingAfter(files, largest, next.value);
        ExtendChain(files, |inputs|, first, closed, next.value);
        closed := closed + [next.value];
        largest := Largest(next.value);
      } else {
        searching := false;
      }
    }
    forall l | IsLargestKey(inputs, l)
      ensures l == first
    {
      LargestIsUnique(inputs, l, first);
    }
  }

  lemma ShrinkStartingAfter(files: seq<Table>, largest: InternalKey, f: Table)
    requires f in files && WellFormed(f) && Less(largest, Smallest(f))
    ensures StartingAfter(files, Largest(f)) < StartingAfter(files, largest)
  {
    SmallestAtMostLargest(f);
    assert f in StartingAfter(files, largest) && f !in StartingAfter(files, Largest(f));
    forall t | t in StartingAfter(files, Largest(f))
      ensures t in StartingAfter(files, largest)
    {
      LessIsStrictOrder(largest, Smallest(f), Largest(f));
      LessIsStrictOrder(largest, Largest(f), Smallest(t));
    }
  }
}
