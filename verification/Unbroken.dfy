/**
 Lists of tables whose user-key ranges hang together: no range of user keys that misses all of
 them has some on either side.  The inputs of an automatic compaction hang together, those of a
 manual compaction need not (db/version_set.cc).
 */
module Unbroken {
  import opened Optional
  import opened InternalKeys
  import opened ReadSpec
  import opened Versions
  import opened CompactionInputs

  ghost predicate AllAbove(files: seq<Table>, user: UserKey) {
    forall t :: t in files ==> user < Smallest(t).user
  }

  ghost predicate AllBelow(files: seq<Table>, user: UserKey) {
    forall t :: t in files ==> Largest(t).user < user
  }

  ghost predicate HangTogether(files: seq<Table>) {
    forall a, b :: a <= b && RangeIsClear(files, Some(a), Some(b)) ==> AllAbove(files, b) || AllBelow(files, a)
  }

  lemma OneTableHangsTogether(t: Table)
    ensures HangTogether([t])
  {
    forall a, b | a <= b && RangeIsClear([t], Some(a), Some(b))
      ensures AllAbove([t], b) || AllBelow([t], a)
    {
      assert t in [t];
    }
  }

  lemma SameTablesHangTogether(files: seq<Table>, others: seq<Table>)
    requires HangTogether(files) && forall t :: t in files <==> t in others
    ensures HangTogether(others)
  {
    forall a, b | a <= b && RangeIsClear(others, Some(a), Some(b))
      ensures AllAbove(others, b) || AllBelow(others, a)
    {
      assert RangeIsClear(files, Some(a), Some(b));
    }
  }

  /** `t` reaches into the range that the tables span. */
  ghost predicate Touches(files: seq<Table>, t: Table) {
    && (exists f :: f in files && Smallest(t).user <= Largest(f).user)
    && (exists g :: g in files && Smallest(g).user <= Largest(t).user)
  }

  /** Tables may join that touch the range of those there are. */
  lemma JoinHangsTogether(files: seq<Table>, more: seq<Table>)
    requires HangTogether(files) && forall t :: t in more ==> Touches(files, t)
    ensures HangTogether(files + more)
  {
    forall a, b | a <= b && RangeIsClear(files + more, Some(a), Some(b))
      ensures AllAbove(files + more, b) || AllBelow(files + more, a)
    {
      assert RangeIsClear(files, Some(a), Some(b));
      forall t | t in more
        ensures AllAbove(files, b) ==> b < Smallest(t).user
        ensures AllBelow(files, a) ==> Largest(t).user < a
      {
        var f :| f in files && Smallest(t).user <= Largest(f).user;
        var g :| g in files && Smallest(g).user <= Largest(t).user;
        assert t in files + more;
      }
      if AllAbove(files, b) {
        assert AllAbove(files + more, b);
      } else {
        assert AllBelow(files + more, a);
      }
    }
  }

  lemma PartnersTouch(files: seq<Table>, inputs: seq<Table>, smallest: InternalKey, largest: InternalKey, t: Table)
    requires IsSmallestKey(inputs, smallest) && IsLargestKey(inputs, largest)
    requires t in OverlapList(files, Some(smallest.user), Some(largest.user))
    ensures Touches(inputs, t)
  {
    OverlapListMembers(files, Some(smallest.user), Some(largest.user));
  }

  /** The tables of a least closed range around some tables hang together with them. */
  lemma LeastRangeHangsTogether(files: seq<Table>, around: seq<Table>, begin: UserKey, end: UserKey,
                                lo: Option<UserKey>, hi: Option<UserKey>)
    requires HangTogether(around) && AllWellFormed(files)
    requires (exists t :: t in around && Smallest(t).user == begin)
    requires (exists t :: t in around && Largest(t).user == end)
    requires IsLeastClosedRange(files, Some(begin), Some(end), lo, hi)
    ensures HangTogether(around + OverlapList(files, lo, hi))
  {
    var inside := OverlapList(files, lo, hi);
    OverlapListMembers(files, lo, hi);
    forall a, b | a <= b && RangeIsClear(around + inside, Some(a), Some(b))
      ensures AllAbove(around + inside, b) || AllBelow(around + inside, a)
    {
      assert RangeIsClear(around, Some(a), Some(b));
      forall t | t in inside
        ensures WellFormed(t) && (Largest(t).user < a || b < Smallest(t).user)
      {
        assert t in around + inside;
      }
      if AllAbove(around, b) {
        NothingBelowClearRange(files, begin, end, lo, hi, a, b);
        assert AllAbove(around + inside, b);
      } else {
        assert AllBelow(around, a);
        NothingAboveClearRange(files, begin, end, lo, hi, a, b);
        assert AllBelow(around + inside, a);
      }
    }
  }

  lemma NothingBelowClearRange(files: seq<Table>, begin: UserKey, end: UserKey,
                               lo: Option<UserKey>, hi: Option<UserKey>, a: UserKey, b: UserKey)
    requires IsLeastClosedRange(files, Some(begin), Some(end), lo, hi) && a <= b < begin
    requires forall t :: t in OverlapList(files, lo, hi) ==> Largest(t).user < a || b < Smallest(t).user
    ensures AllAbove(OverlapList(files, lo, hi), b)
  {
    OverlapListMembers(files, lo, hi);
    if lo.value <= b {
      forall t | t in files && Overlaps(t, Some(b), hi)
        ensures b <= Smallest(t).user && Largest(t).user <= hi.value
      {
        assert Overlaps(t, lo, hi);
        assert t in OverlapList(files, lo, hi);
      }
      assert Closed(files, Some(b), hi);
      assert Covers(Some(begin), Some(end), Some(b), hi);
    }
  }

  lemma NothingAboveClearRange(files: seq<Table>, begin: UserKey, end: UserKey,
                               lo: Option<UserKey>, hi: Option<UserKey>, a: UserKey, b: UserKey)
    requires IsLeastClosedRange(files, Some(begin), Some(end), lo, hi) && end < a <= b
    requires forall t :: t in OverlapList(files, lo, hi) ==> Largest(t).user < a || b < Smallest(t).user
    ensures AllBelow(OverlapList(files, lo, hi), a)
  {
    OverlapListMembers(files, lo, hi);
    if a <= hi.value {
      forall t | t in files && Overlaps(t, lo, Some(a))
        ensures lo.value <= Smallest(t).user && Largest(t).user <= a
      {
        assert Overlaps(t, lo, hi);
        assert t in OverlapList(files, lo, hi);
      }
      assert Closed(files, lo, Some(a));
      assert Covers(Some(begin), Some(end), lo, Some(a));
    }
  }

  /** A boundary file touches the tables it continues. */
  lemma LinkTouches(files: seq<Table>, n: nat, first: InternalKey, closed: seq<Table>, i: nat)
    requires 0 < n <= i < |closed| && AllWellFormed(closed)
    requires IsLargestKey(closed[..n], first) && IsBoundaryChain(files, n, first, closed)
    ensures Touches(closed[..i], closed[i])
  {
    assert IsChainLink(files, n, first, closed, i);
    var f;
    if i == n {
      f :| f in closed[..n] && Largest(f) == first;
    } else {
      f := closed[i - 1];
    }
    assert f in closed[..i] && f in closed && closed[i] in closed;
    SmallestAtMostLargest(closed[i]);
    SmallestAtMostLargest(f);
  }

  lemma {:induction false} ChainHangsTogether(files: seq<Table>, others: seq<Table>, n: nat, first: InternalKey,
                                              closed: seq<Table>, i: nat)
    requires 0 < n <= i <= |closed| && AllWellFormed(closed) && HangTogether(others + closed[..n])
    requires IsLargestKey(closed[..n], first) && IsBoundaryChain(files, n, first, closed)
    ensures HangTogether(others + closed[..i])
  {
    if i > n {
      ChainHangsTogether(files, others, n, first, closed, i - 1);
      var t := closed[i - 1];
      LinkTouches(files, n, first, closed, i - 1);
      TouchesMore(closed[..i - 1], others + closed[..i - 1], t);
      JoinHangsTogether(others + closed[..i - 1], [t]);
      assert others + closed[..i] == others + closed[..i - 1] + [t];
    }
  }

  lemma TouchesMore(files: seq<Table>, more: seq<Table>, t: Table)
    requires Touches(files, t) && forall f :: f in files ==> f in more
    ensures Touches(more, t)
  {
  }

  /** Whatever the inputs hang together with, their boundary closure does, too. */
  lemma ClosureHangsTogether(files: seq<Table>, others: seq<Table>, inputs: seq<Table>, first: InternalKey,
                             closed: seq<Table>)
    requires AllWellFormed(files) && inputs != [] && forall t :: t in inputs ==> t in files
    requires IsBoundaryClosure(files, inputs, first, closed) && HangTogether(others + inputs)
    ensures HangTogether(others + closed)
  {
    assert closed[..|inputs|] == inputs && closed[..|closed|] == closed;
    forall t | t in closed
      ensures t in files
    {
      var i :| 0 <= i < |closed| && closed[i] == t;
      if i < |inputs| {
        assert t == inputs[i];
      } else {
        assert IsChainLink(files, |inputs|, first, closed, i);
      }
    }
    ChainHangsTogether(files, others, |inputs|, first, closed, |closed|);
  }
}
