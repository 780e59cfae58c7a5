/**
 SetupOtherInputs, CompactRange and PickCompaction (db/version_set.cc), and why the tables
 they select can be replaced by a merge of them: `SafeInputs`.
 */
module CompactionSetup {
  import opened Optional
  import opened InternalKeys
  import opened ReadSpec
  import opened Versions
  import opened CompactionInputs
  import opened Unbroken

  // ----- what makes a set of inputs safe to replace

  ghost predicate NoSharedUser(a: Table, b: Table) {
    forall e, f :: e in a.entries && f in b.entries ==> e.key.user != f.key.user
  }

  /** `h` lies wholly before or wholly after all of the inputs. */
  ghost predicate OutsideHull(h: Table, inputs: seq<Table>) {
    || (forall f :: f in inputs ==> Less(Largest(h), Smallest(f)))
    || (forall f :: f in inputs ==> Less(Largest(f), Smallest(h)))
  }

  /** A table of the level that is left behind is newer, key by key, than what moves down. */
  ghost predicate NewerLeftBehind(files: seq<Table>, inputs: seq<Table>) {
    forall g, f :: g in files && g !in inputs && f in inputs ==> NewerThan(g, f)
  }

  /**
   A table of the next level that is left out shares no user key with `inputs0`, and if it does
   not lie outside the range of all inputs, it shares none with any of them.
   */
  ghost predicate ParentsForeign(files: seq<Table>, inputs0: seq<Table>, inputs1: seq<Table>) {
    forall h :: h in files && h !in inputs1 ==>
      && (forall f :: f in inputs0 ==> NoSharedUser(h, f))
      && (OutsideHull(h, inputs0 + inputs1) || forall f :: f in inputs0 + inputs1 ==> NoSharedUser(h, f))
  }

  /** What it takes for a merge of the inputs to stand for them. */
  ghost predicate MergeableInputs(v: Version, level: nat, inputs0: seq<Table>, inputs1: seq<Table>) {
    && level + 1 < NUM_LEVELS
    && inputs0 != []
    && (forall t :: t in inputs0 ==> t in v[level])
    && (forall t :: t in inputs1 ==> t in v[level + 1])
    && NewerLeftBehind(v[level], inputs0)
    && ParentsForeign(v[level + 1], inputs0, inputs1)
  }

  /** What is left at the next level is out of the way of every output. */
  ghost predicate ParentsOutside(files: seq<Table>, inputs0: seq<Table>, inputs1: seq<Table>) {
    forall h :: h in files && h !in inputs1 ==> OutsideHull(h, inputs0 + inputs1)
  }

  ghost predicate SafeInputs(v: Version, level: nat, inputs0: seq<Table>, inputs1: seq<Table>) {
    MergeableInputs(v, level, inputs0, inputs1) && ParentsOutside(v[level + 1], inputs0, inputs1)
  }

  // ----- the shapes in which inputs_[0] is chosen

  /** In level 0 every table of a closed range; deeper, a run of tables. */
  ghost predicate IsStart(files: seq<Table>, level: nat, inputs: seq<Table>) {
    && inputs != []
    && if level == 0
       then exists lo, hi :: Closed(files, lo, hi) && inputs == OverlapList(files, lo, hi)
       else exists a, b :: 0 <= a < b <= |files| && inputs == files[a..b]
  }

  /** The same, with no boundary file next to the run. */
  ghost predicate IsClosedStart(files: seq<Table>, level: nat, inputs: seq<Table>) {
    && inputs != []
    && if level == 0
       then exists lo, hi :: Closed(files, lo, hi) && inputs == OverlapList(files, lo, hi)
       else exists a, b :: 0 <= a < b <= |files| && EndsAtUserKey(files, b) && inputs == files[a..b]
  }

  ghost predicate EndsAtUserKey(files: seq<Table>, b: int) {
    0 < b < |files| ==> !IsBoundaryFile(files[b], Largest(files[b - 1]))
  }

  method CloseUnderBoundary(files: seq<Table>, level: nat, inputs: seq<Table>) returns (closed: seq<Table>)
    requires AllWellFormed(files) && (level > 0 ==> Disjoint(files))
    requires IsStart(files, level, inputs)
    ensures IsClosedStart(files, level, closed) && inputs <= closed
    ensures level == 0 ==> closed == inputs
    ensures forall first :: IsLargestKey(inputs, first) ==> IsBoundaryClosure(files, inputs, first, closed)
    ensures forall others: seq<Table> :: HangTogether(others + inputs) ==> HangTogether(others + closed)
  {
    closed := AddBoundaryInputs(files, inputs);
    ghost var _, first := GetRangeOf(inputs);
    assert IsBoundaryClosure(files, inputs, first, closed);
    StartMembers(files, level, inputs);
    forall others: seq<Table> | HangTogether(others + inputs)
      ensures HangTogether(others + closed)
    {
      ClosureHangsTogether(files, others, inputs, first, closed);
    }
    if level == 0 {
      ghost var lo, hi :| Closed(files, lo, hi) && inputs == OverlapList(files, lo, hi);
      ClosureOfOverlapList(files, lo, hi, first, closed);
    } else {
      ghost var a, b :| 0 <= a < b <= |files| && inputs == files[a..b];
      ClosureOfSegment(files, a, b, first, closed);
      assert EndsAtUserKey(files, a + |closed|);
    }
  }

  lemma GetRangeOf(inputs: seq<Table>) returns (smallest: InternalKey, largest: InternalKey)
    requires inputs != []
    ensures IsSmallestKey(inputs, smallest) && IsLargestKey(inputs, largest)
  {
    smallest, largest := Smallest(inputs[0]), Largest(inputs[0]);
    if |inputs| > 1 {
      var s, l := GetRangeOf(inputs[1..]);
      assert inputs == [inputs[0]] + inputs[1..];
      smallest := if Less(s, smallest) then s else smallest;
      largest := if Less(largest, l) then l else largest;
    }
  }

  // ----- what is left behind at the same level

  lemma LeftBehindInLevel0(files: seq<Table>, lo: Option<UserKey>, hi: Option<UserKey>)
    requires AllWellFormed(files) && Closed(files, lo, hi)
    ensures NewerLeftBehind(files, OverlapList(files, lo, hi))
  {
    var inputs := OverlapList(files, lo, hi);
    OverlapListMembers(files, lo, hi);
    forall g, f | g in files && g !in inputs && f in inputs
      ensures NewerThan(g, f)
    {
      forall e, e' | e in g.entries && e' in f.entries
        ensures e.key.user != e'.key.user
      {
        EntryInRange(g, e);
        EntryInRange(f, e');
      }
    }
  }

  lemma SameUserOrder(e: Entry, f: Entry)
    requires e.key.user == f.key.user && Less(e.key, f.key) && (e.key.sequence == f.key.sequence ==> e == f)
    ensures e.key.sequence > f.key.sequence
  {
  }

  lemma EarlierIsNewer(files: seq<Table>, i: nat, j: nat)
    requires i < j < |files| && Disjoint(files) && AllWellFormed(files) && Distinct(TableEntries(files))
    ensures NewerThan(files[i], files[j])
  {
    forall e, f | e in files[i].entries && f in files[j].entries && e.key.user == f.key.user
      ensures e.key.sequence > f.key.sequence
    {
      assert e in TableEntries(files) && f in TableEntries(files);
      DisjointOrder(files, i, j, e, f);
      SameUserOrder(e, f);
    }
  }

  lemma AfterBoundaryIsApart(files: seq<Table>, b: nat, i: nat, j: nat)
    requires Disjoint(files) && AllWellFormed(files) && j < b <= i < |files| && EndsAtUserKey(files, b)
    ensures NewerThan(files[i], files[j])
  {
    forall e, f | e in files[i].entries && f in files[j].entries
      ensures e.key.user != f.key.user
    {
      AcrossBoundary(files, b, j, i, f, e);
    }
  }

  lemma SegmentPositions(files: seq<Table>, a: nat, b: nat, g: Table, f: Table) returns (i: nat, j: nat)
    requires a < b <= |files| && g in files && g !in files[a..b] && f in files[a..b]
    ensures i < |files| && files[i] == g && (i < a || b <= i)
    ensures a <= j < b && files[j] == f
  {
    assert forall k :: a <= k < b ==> files[k] == files[a..b][k - a];
    i :| 0 <= i < |files| && files[i] == g;
    var k :| 0 <= k < b - a && files[a..b][k] == f;
    j := a + k;
  }

  lemma LeftBehindInRun(files: seq<Table>, a: nat, b: nat)
    requires a < b <= |files| && Disjoint(files) && AllWellFormed(files) && Distinct(TableEntries(files))
    requires EndsAtUserKey(files, b)
    ensures NewerLeftBehind(files, files[a..b])
  {
    forall g, f | g in files && g !in files[a..b] && f in files[a..b]
      ensures NewerThan(g, f)
    {
      var i, j := SegmentPositions(files, a, b, g, f);
      if i < a {
        EarlierIsNewer(files, i, j);
      } else {
        AfterBoundaryIsApart(files, b, i, j);
      }
    }
  }

  /** No user key occurs on both sides of a boundary that `EndsAtUserKey`. */
  lemma AcrossBoundary(files: seq<Table>, b: nat, j: nat, i: nat, e: Entry, f: Entry)
    requires Disjoint(files) && AllWellFormed(files) && j < b <= i < |files| && EndsAtUserKey(files, b)
    requires e in files[j].entries && f in files[i].entries
    ensures e.key.user < f.key.user
  {
    EntryInRange(files[j], e);
    EntryInRange(files[i], f);
    if j < b - 1 {
      DisjointLargest(files, j, b - 1);
    }
    if b < i {
      DisjointLargest(files, b, i);
    }
    DisjointLargest(files, b - 1, b);
  }

  lemma LeftBehind(v: Version, level: nat, inputs: seq<Table>)
    requires level < NUM_LEVELS && ValidVersion(v) && Distinct(VersionEntries(v))
    requires IsClosedStart(v[level], level, inputs)
    ensures NewerLeftBehind(v[level], inputs)
  {
    if level == 0 {
      var lo, hi :| Closed(v[0], lo, hi) && inputs == OverlapList(v[0], lo, hi);
      LeftBehindInLevel0(v[0], lo, hi);
    } else {
      var a, b :| 0 <= a < b <= |v[level]| && EndsAtUserKey(v[level], b) && inputs == v[level][a..b];
      assert TableEntries(v[level]) <= VersionEntries(v);
      LeftBehindInRun(v[level], a, b);
    }
  }

  // ----- what is left out at the next level

  lemma OutsideRange(h: Table, f: Table, lo: UserKey, hi: UserKey)
    requires WellFormed(h) && WellFormed(f) && lo <= Smallest(f).user && Largest(f).user <= hi
    requires Largest(h).user < lo || Smallest(h).user > hi
    ensures NoSharedUser(h, f)
    ensures Largest(h).user < lo ==> Less(Largest(h), Smallest(f))
    ensures Smallest(h).user > hi ==> Less(Largest(f), Smallest(h))
  {
    forall e, e' | e in h.entries && e' in f.entries
      ensures e.key.user != e'.key.user
    {
      EntryInRange(h, e);
      EntryInRange(f, e');
    }
  }

  /** A table outside a user-key range is on the same side of every table that overlaps it. */
  lemma SameSide(files: seq<Table>, h: Table, f: Table, lo: UserKey, hi: UserKey)
    requires Disjoint(files) && AllWellFormed(files) && h in files && f in files && lo <= hi
    requires !Overlaps(h, Some(lo), Some(hi)) && Overlaps(f, Some(lo), Some(hi))
    ensures Largest(h).user < lo ==> Less(Largest(h), Smallest(f))
    ensures Smallest(h).user > hi ==> Less(Largest(f), Smallest(h))
  {
    var i :| 0 <= i < |files| && files[i] == h;
    var j :| 0 <= j < |files| && files[j] == f;
    SmallestAtMostLargest(h);
    SmallestAtMostLargest(f);
    if i < j {
      DisjointLargest(files, i, j);
    } else if j < i {
      DisjointLargest(files, j, i);
    }
  }

  lemma ParentsAreApart(files: seq<Table>, inputs0: seq<Table>, smallest: InternalKey, largest: InternalKey)
    requires Disjoint(files) && AllWellFormed(files) && AllWellFormed(inputs0)
    requires IsSmallestKey(inputs0, smallest) && IsLargestKey(inputs0, largest)
    ensures ParentsForeign(files, inputs0, OverlapList(files, Some(smallest.user), Some(largest.user)))
    ensures ParentsOutside(files, inputs0, OverlapList(files, Some(smallest.user), Some(largest.user)))
  {
    var lo, hi := smallest.user, largest.user;
    var inputs1 := OverlapList(files, Some(lo), Some(hi));
    OverlapListMembers(files, Some(lo), Some(hi));
    assert lo <= hi by {
      var t :| t in inputs0 && Smallest(t) == smallest;
      SmallestAtMostLargest(t);
    }
    forall h | h in files && h !in inputs1
      ensures OutsideHull(h, inputs0 + inputs1) && forall f :: f in inputs0 ==> NoSharedUser(h, f)
    {
      forall f | f in inputs0
        ensures NoSharedUser(h, f)
        ensures Largest(h).user < lo ==> Less(Largest(h), Smallest(f))
        ensures Smallest(h).user > hi ==> Less(Largest(f), Smallest(h))
      {
        OutsideRange(h, f, lo, hi);
      }
      forall f | f in inputs1
        ensures Largest(h).user < lo ==> Less(Largest(h), Smallest(f))
        ensures Smallest(h).user > hi ==> Less(Largest(f), Smallest(h))
      {
        SameSide(files, h, f, lo, hi);
      }
    }
  }

  // ----- an overlap list of a disjoint level is a run

  lemma NoGapBetweenOverlaps(files: seq<Table>, i: nat, j: nat, k: nat, lo: Option<UserKey>, hi: Option<UserKey>)
    requires Disjoint(files) && AllWellFormed(files) && i < j < k < |files|
    requires Overlaps(files[i], lo, hi) && Overlaps(files[k], lo, hi)
    ensures Overlaps(files[j], lo, hi)
  {
    DisjointLargest(files, i, j);
    DisjointLargest(files, j, k);
  }

  /** Tables a to b-1 are those of the first n that overlap the range. */
  ghost predicate IsOverlapRun(files: seq<Table>, n: nat, lo: Option<UserKey>, hi: Option<UserKey>, a: nat, b: nat)
    requires n <= |files|
  {
    a <= b <= n && forall i :: 0 <= i < n ==> (a <= i < b <==> Overlaps(files[i], lo, hi))
  }

  lemma ExtendOverlapRun(files: seq<Table>, n: nat, lo: Option<UserKey>, hi: Option<UserKey>, a: nat, b: nat)
    requires Disjoint(files) && AllWellFormed(files) && n < |files| && IsOverlapRun(files, n, lo, hi, a, b)
    ensures Overlaps(files[n], lo, hi) && a < b ==> b == n
  {
    if Overlaps(files[n], lo, hi) && a < b < n {
      NoGapBetweenOverlaps(files, b - 1, b, n, lo, hi);
    }
  }

  lemma {:induction false} OverlapRunExists(files: seq<Table>, n: nat, lo: Option<UserKey>,
                                            hi: Option<UserKey>) returns (a: nat, b: nat)
    requires Disjoint(files) && AllWellFormed(files) && n <= |files|
    ensures IsOverlapRun(files, n, lo, hi, a, b)
  {
    if n == 0 {
      a, b := 0, 0;
    } else {
      a, b := OverlapRunExists(files, n - 1, lo, hi);
      ExtendOverlapRun(files, n - 1, lo, hi, a, b);
      if Overlaps(files[n - 1], lo, hi) {
        a, b := if a == b then n - 1 else a, n;
      }
    }
  }

  /** Tables a to b-1, as far as they are among the first k. */
  function Clip(files: seq<Table>, a: nat, b: nat, k: nat): seq<Table>
    requires a <= b && k <= |files|
  {
    if k <= a then [] else files[a..if b < k then b else k]
  }

  lemma ClipStep(files: seq<Table>, a: nat, b: nat, k: nat)
    requires a <= b && k < |files|
    ensures Clip(files, a, b, k + 1) == Clip(files, a, b, k) + if a <= k < b then [files[k]] else []
  {
    if a <= k < b {
      assert files[a..k + 1] == files[a..k] + [files[k]];
    }
  }

  lemma {:induction false} OverlapListOfRun(files: seq<Table>, n: nat, lo: Option<UserKey>, hi: Option<UserKey>,
                                            a: nat, b: nat, k: nat)
    requires k <= n <= |files| && IsOverlapRun(files, n, lo, hi, a, b)
    ensures OverlapList(files[..k], lo, hi) == Clip(files, a, b, k)
  {
    hide Overlaps;
    if k > 0 {
      OverlapListOfRun(files, n, lo, hi, a, b, k - 1);
      hide Clip, OverlapList;
      OverlapListStep(files, k - 1, lo, hi);
      ClipStep(files, a, b, k - 1);
      assert a <= k - 1 < b <==> Overlaps(files[k - 1], lo, hi);
    }
  }

  lemma OverlapListIsRun(files: seq<Table>, lo: Option<UserKey>, hi: Option<UserKey>) returns (a: nat, b: nat)
    requires Disjoint(files) && AllWellFormed(files)
    ensures a <= b <= |files| && OverlapList(files, lo, hi) == files[a..b]
  {
    a, b := OverlapRunExists(files, |files|, lo, hi);
    OverlapListOfRun(files, |files|, lo, hi, a, b, |files|);
    assert files[..|files|] == files;
  }

  // ----- SetupOtherInputs

  function TotalFileSize(files: seq<Table>): nat {
    if files == [] then 0 else TotalFileSize(files[..|files| - 1]) + files[|files| - 1].size
  }

  datatype Plan = Plan(level: nat, inputs0: seq<Table>, inputs1: seq<Table>, grandparents: seq<Table>) {
    /** A single table with nothing to merge it with, and not too much data below it. */
    predicate IsTrivialMove(grandparentLimit: nat) {
      |inputs0| == 1 && |inputs1| == 0 && TotalFileSize(grandparents) <= grandparentLimit
    }
  }

  /** `inputs1` is every table of the next level that overlaps the user-key range of `inputs0`. */
  ghost predicate ArePartners(files: seq<Table>, inputs0: seq<Table>, inputs1: seq<Table>) {
    exists s, l :: IsSmallestKey(inputs0, s) && IsLargestKey(inputs0, l) &&
                   inputs1 == OverlapList(files, Some(s.user), Some(l.user))
  }

  ghost predicate AreGrandparents(v: Version, level: nat, inputs: seq<Table>, grandparents: seq<Table>) {
    if level + 2 < NUM_LEVELS then ArePartners(v[level + 2], inputs, grandparents) else grandparents == []
  }

  ghost predicate IsPlan(v: Version, start: seq<Table>, p: Plan) {
    && SafeInputs(v, p.level, p.inputs0, p.inputs1)
    && IsClosedStart(v[p.level], p.level, p.inputs0)
    && (forall t :: t in start ==> t in p.inputs0)
    && ArePartners(v[p.level + 1], p.inputs0, p.inputs1)
    && AreGrandparents(v, p.level, p.inputs0 + p.inputs1, p.grandparents)
    && (HangTogether(start) ==> HangTogether(p.inputs0 + p.inputs1))
  }

  lemma PartnersHangTogether(files: seq<Table>, inputs0: seq<Table>, inputs1: seq<Table>)
    requires ArePartners(files, inputs0, inputs1) && HangTogether(inputs0)
    ensures HangTogether(inputs0 + inputs1)
  {
    var s, l :| IsSmallestKey(inputs0, s) && IsLargestKey(inputs0, l) &&
                inputs1 == OverlapList(files, Some(s.user), Some(l.user));
    forall t | t in inputs1
      ensures Touches(inputs0, t)
    {
      PartnersTouch(files, inputs0, s, l, t);
    }
    JoinHangsTogether(inputs0, inputs1);
  }

  /** With more inputs, at least as many partners. */
  lemma MorePartners(files: seq<Table>, inputs0: seq<Table>, inputs1: seq<Table>, more0: seq<Table>, more1: seq<Table>)
    requires ArePartners(files, inputs0, inputs1) && ArePartners(files, more0, more1)
    requires forall t :: t in inputs0 ==> t in more0
    ensures forall t :: t in inputs1 ==> t in more1
  {
    var s, l :| IsSmallestKey(inputs0, s) && IsLargestKey(inputs0, l) &&
                inputs1 == OverlapList(files, Some(s.user), Some(l.user));
    var s', l' :| IsSmallestKey(more0, s') && IsLargestKey(more0, l') &&
                  more1 == OverlapList(files, Some(s'.user), Some(l'.user));
    MoreReach(inputs0, more0, s, l, s', l');
    hide IsSmallestKey, IsLargestKey;
    OverlapListMembers(files, Some(s.user), Some(l.user));
    OverlapListMembers(files, Some(s'.user), Some(l'.user));
  }

  lemma MoreReach(files: seq<Table>, more: seq<Table>, s: InternalKey, l: InternalKey, s': InternalKey, l': InternalKey)
    requires IsSmallestKey(files, s) && IsLargestKey(files, l) && IsSmallestKey(more, s') && IsLargestKey(more, l')
    requires forall t :: t in files ==> t in more
    ensures s'.user <= s.user && l.user <= l'.user
  {
    var t :| t in files && Smallest(t) == s;
    var u :| u in files && Largest(u) == l;
    assert AtMost(s', Smallest(t)) && AtMost(Largest(u), l');
  }

  /** Growing the inputs keeps them together. */
  lemma GrownHangTogether(files: seq<Table>, inputs0: seq<Table>, inputs1: seq<Table>,
                          more0: seq<Table>, more1: seq<Table>)
    requires ArePartners(files, inputs0, inputs1) && ArePartners(files, more0, more1)
    requires forall t :: t in inputs0 ==> t in more0
    requires HangTogether(inputs0 + inputs1 + more0)
    ensures HangTogether(more0 + more1)
  {
    MorePartners(files, inputs0, inputs1, more0, more1);
    var all := inputs0 + inputs1 + more0;
    var s, l :| IsSmallestKey(more0, s) && IsLargestKey(more0, l) &&
                more1 == OverlapList(files, Some(s.user), Some(l.user));
    forall t | t in more1
      ensures Touches(all, t)
    {
      PartnersTouch(files, more0, s, l, t);
      TouchesMore(more0, all, t);
    }
    JoinHangsTogether(all, more1);
    SameTablesHangTogether(all + more1, more0 + more1);
  }

  lemma MembersWellFormed(files: seq<Table>, inputs: seq<Table>)
    requires AllWellFormed(files) && forall t :: t in inputs ==> t in files
    ensures AllWellFormed(inputs)
  {
  }

  lemma StartMembers(files: seq<Table>, level: nat, inputs: seq<Table>)
    requires IsStart(files, level, inputs)
    ensures forall t :: t in inputs ==> t in files
  {
    if level == 0 {
      var lo, hi :| Closed(files, lo, hi) && inputs == OverlapList(files, lo, hi);
      OverlapListMembers(files, lo, hi);
    } else {
      var a, b :| 0 <= a < b <= |files| && inputs == files[a..b];
    }
  }

  lemma ClosedStartIsStart(files: seq<Table>, level: nat, inputs: seq<Table>)
    requires IsClosedStart(files, level, inputs)
    ensures IsStart(files, level, inputs)
  {
  }

  lemma PlanIsSafe(v: Version, level: nat, inputs0: seq<Table>, inputs1: seq<Table>,
                   smallest: InternalKey, largest: InternalKey)
    requires level + 1 < NUM_LEVELS && ValidVersion(v) && Distinct(VersionEntries(v))
    requires IsClosedStart(v[level], level, inputs0)
    requires IsSmallestKey(inputs0, smallest) && IsLargestKey(inputs0, largest)
    requires inputs1 == OverlapList(v[level + 1], Some(smallest.user), Some(largest.user))
    ensures SafeInputs(v, level, inputs0, inputs1)
    ensures ArePartners(v[level + 1], inputs0, inputs1)
  {
    ClosedStartIsStart(v[level], level, inputs0);
    StartMembers(v[level], level, inputs0);
    MembersWellFormed(v[level], inputs0);
    LeftBehind(v, level, inputs0);
    OverlapListMembers(v[level + 1], Some(smallest.user), Some(largest.user));
    ParentsAreApart(v[level + 1], inputs0, smallest, largest);
  }

  /** Tables that overlap the whole range of some others join them. */
  lemma RangeHangsTogether(level: nat, files: seq<Table>, all: seq<Table>, s: InternalKey, l: InternalKey,
                           lo: Option<UserKey>, hi: Option<UserKey>)
    requires AllWellFormed(files) && IsSmallestKey(all, s) && IsLargestKey(all, l) && HangTogether(all)
    requires level > 0 ==> lo == Some(s.user) && hi == Some(l.user)
    requires level == 0 ==> IsLeastClosedRange(files, Some(s.user), Some(l.user), lo, hi)
    ensures HangTogether(all + OverlapList(files, lo, hi))
  {
    if level == 0 {
      LeastRangeHangsTogether(files, all, s.user, l.user, lo, hi);
    } else {
      PartnersHangTogether(files, all, OverlapList(files, lo, hi));
    }
  }

  /** Tables of the level that overlap the range of all inputs, closed under boundary files. */
  method ExpandInputs(v: Version, level: nat, inputs0: seq<Table>, allStart: InternalKey, allLimit: InternalKey,
                      ghost all: seq<Table>)
    returns (expanded0: seq<Table>)
    requires level < NUM_LEVELS && ValidVersion(v)
    requires inputs0 != [] && forall t :: t in inputs0 ==> t in v[level]
    requires forall t :: t in inputs0 ==> AtMost(allStart, Smallest(t)) && AtMost(Largest(t), allLimit)
    requires IsSmallestKey(all, allStart) && IsLargestKey(all, allLimit)
    ensures IsClosedStart(v[level], level, expanded0)
    ensures forall t :: t in inputs0 ==> t in expanded0
    ensures HangTogether(all) ==> HangTogether(all + expanded0)
  {
    ghost var lo, hi;
    expanded0, lo, hi := GetOverlappingInputs(level, v[level], Some(allStart.user), Some(allLimit.user));
    OverlapListMembers(v[level], lo, hi);
    forall t | t in inputs0
      ensures t in expanded0
    {
      SmallestAtMostLargest(t);
      assert Overlaps(t, lo, hi);
    }
    assert inputs0[0] in expanded0;
    if level > 0 {
      ghost var a, b := OverlapListIsRun(v[level], lo, hi);
    }
    if HangTogether(all) {
      RangeHangsTogether(level, v[level], all, allStart, allLimit, lo, hi);
    }
    expanded0 := CloseUnderBoundary(v[level], level, expanded0);
  }

  /** The tables of the next level to merge `inputs0` with. */
  method PartnersOf(v: Version, level: nat, inputs0: seq<Table>) returns (inputs1: seq<Table>, largest: InternalKey)
    requires level + 1 < NUM_LEVELS && ValidVersion(v) && Distinct(VersionEntries(v))
    requires IsClosedStart(v[level], level, inputs0)
    ensures SafeInputs(v, level, inputs0, inputs1) && ArePartners(v[level + 1], inputs0, inputs1)
    ensures IsLargestKey(inputs0, largest)
  {
    var smallest;
    smallest, largest := GetRange(inputs0);
    ghost var lo, hi;
    inputs1, lo, hi := GetOverlappingInputs(level + 1, v[level + 1], Some(smallest.user), Some(largest.user));
    PlanIsSafe(v, level, inputs0, inputs1, smallest, largest);
  }

  /** All tables of the level within the range of both input lists. */
  method ExpandToAll(v: Version, level: nat, inputs0: seq<Table>, inputs1: seq<Table>) returns (expanded0: seq<Table>)
    requires level < NUM_LEVELS && ValidVersion(v)
    requires inputs0 != [] && forall t :: t in inputs0 ==> t in v[level]
    ensures IsClosedStart(v[level], level, expanded0)
    ensures forall t :: t in inputs0 ==> t in expanded0
    ensures HangTogether(inputs0 + inputs1) ==> HangTogether(inputs0 + inputs1 + expanded0)
  {
    var allStart, allLimit := GetRange(inputs0 + inputs1);
    assert forall t :: t in inputs0 ==> t in inputs0 + inputs1;
    expanded0 := ExpandInputs(v, level, inputs0, allStart, allLimit, inputs0 + inputs1);
  }

  /** Take more tables of the level if that does not add any of the next level. */
  method GrowInputs(v: Version, level: nat, inputs0: seq<Table>, inputs1: seq<Table>, limit: nat)
    returns (r0: seq<Table>, r1: seq<Table>, largest: Option<InternalKey>)
    requires level + 1 < NUM_LEVELS && ValidVersion(v) && Distinct(VersionEntries(v))
    requires IsClosedStart(v[level], level, inputs0)
    requires SafeInputs(v, level, inputs0, inputs1) && ArePartners(v[level + 1], inputs0, inputs1)
    ensures IsClosedStart(v[level], level, r0)
    ensures SafeInputs(v, level, r0, r1) && ArePartners(v[level + 1], r0, r1)
    ensures |r1| == |inputs1| && forall t :: t in inputs0 ==> t in r0
    ensures largest.None? ==> r0 == inputs0 && r1 == inputs1
    ensures largest.Some? ==> IsLargestKey(r0, largest.value)
    ensures largest.Some? ==> |r0| > |inputs0| && TotalFileSize(inputs1) + TotalFileSize(r0) < limit
    ensures HangTogether(inputs0) ==> HangTogether(r0 + r1)
  {
    hide HangTogether, Disjoint, Distinct, NewerAbove, UniqueNumbers, IsClosedStart, ArePartners;
    r0, r1, largest := inputs0, inputs1, None;
    if HangTogether(inputs0) {
      PartnersHangTogether(v[level + 1], inputs0, inputs1);
    }
    if inputs1 != [] {
      var expanded0 := ExpandToAll(v, level, inputs0, inputs1);
      if |expanded0| > |inputs0| && TotalFileSize(inputs1) + TotalFileSize(expanded0) < limit {
        var expanded1, newLimit := PartnersOf(v, level, expanded0);
        if |expanded1| == |inputs1| {
          r0, r1, largest := expanded0, expanded1, Some(newLimit);
          if HangTogether(inputs0) {
            GrownHangTogether(v[level + 1], inputs0, inputs1, r0, r1);
          }
        }
      }
    }
  }

  method GrandparentsOf(v: Version, level: nat, inputs: seq<Table>) returns (grandparents: seq<Table>)
    requires inputs != [] && TablesWellFormed(v)
    ensures AreGrandparents(v, level, inputs, grandparents)
  {
    grandparents := [];
    if level + 2 < NUM_LEVELS {
      var allStart, allLimit := GetRange(inputs);
      ghost var lo, hi;
      grandparents, lo, hi := GetOverlappingInputs(level + 2, v[level + 2], Some(allStart.user), Some(allLimit.user));
    }
  }

  lemma AssemblePlan(v: Version, level: nat, start: seq<Table>, closed: seq<Table>,
                     inputs0: seq<Table>, inputs1: seq<Table>, grandparents: seq<Table>)
    requires SafeInputs(v, level, inputs0, inputs1) && IsClosedStart(v[level], level, inputs0)
    requires start <= closed && forall t :: t in closed ==> t in inputs0
    requires ArePartners(v[level + 1], inputs0, inputs1)
    requires AreGrandparents(v, level, inputs0 + inputs1, grandparents)
    requires HangTogether(start) ==> HangTogether(inputs0 + inputs1)
    ensures IsPlan(v, start, Plan(level, inputs0, inputs1, grandparents))
  {
    hide SafeInputs, IsClosedStart, ArePartners, AreGrandparents, HangTogether;
    forall t | t in start
      ensures t in inputs0
    {
      var i :| 0 <= i < |start| && start[i] == t;
      assert closed[i] == t;
    }
  }

  method SetupOtherInputs(v: Version, level: nat, start: seq<Table>, expandedLimit: nat)
    returns (p: Plan, compactPointer: InternalKey)
    requires level + 1 < NUM_LEVELS && ValidVersion(v) && Distinct(VersionEntries(v))
    requires IsStart(v[level], level, start)
    ensures p.level == level && IsPlan(v, start, p)
    ensures IsLargestKey(p.inputs0, compactPointer)
  {
    hide Disjoint, Distinct, NewerAbove, UniqueNumbers, HangTogether, AreGrandparents, SafeInputs, IsClosedStart;
    hide IsStart;
    var closed := CloseUnderBoundary(v[level], level, start);
    assert [] + start == start && [] + closed == closed;
    var partners, largest := PartnersOf(v, level, closed);
    var inputs0, inputs1, newLimit := GrowInputs(v, level, closed, partners, expandedLimit);
    compactPointer := if newLimit.Some? then newLimit.value else largest;
    var grandparents := GrandparentsOf(v, level, inputs0 + inputs1);
    AssemblePlan(v, level, start, closed, inputs0, inputs1, grandparents);
    p := Plan(level, inputs0, inputs1, grandparents);
  }

  // ----- starting a compaction

  /** PickCompaction: the first table past the compaction pointer, wrapping around; all of a closed range in level 0. */
  method PickStart(v: Version, level: nat, compactPointer: Option<InternalKey>) returns (start: seq<Table>)
    requires level < NUM_LEVELS && ValidVersion(v) && v[level] != []
    ensures IsStart(v[level], level, start) && HangTogether(start)
    ensures exists t :: t in start && t in v[level] &&
              (compactPointer.Some? && Less(compactPointer.value, Largest(v[level][|v[level]| - 1])) ==>
                  Less(compactPointer.value, Largest(t)))
  {
    var files := v[level];
    var i := 0;
    while i < |files| && compactPointer.Some? && !Less(compactPointer.value, Largest(files[i]))
      invariant i <= |files|
      invariant forall j :: 0 <= j < i ==> compactPointer.Some? && !Less(compactPointer.value, Largest(files[j]))
    {
      i := i + 1;
    }
    if i == |files| {
      i := 0;
    }
    start := StartFrom(v, level, i);
  }

  lemma OneTableIsStart(files: seq<Table>, level: nat, i: nat)
    requires i < |files| && level > 0
    ensures IsStart(files, level, files[i..i + 1]) && HangTogether(files[i..i + 1])
  {
    assert files[i..i + 1] == [files[i]];
    OneTableHangsTogether(files[i]);
  }

  /** Level 0: everything in the least closed range around one table. */
  method Level0Start(files: seq<Table>, i: nat) returns (start: seq<Table>)
    requires AllWellFormed(files) && i < |files|
    ensures IsStart(files, 0, start) && files[i] in start && HangTogether(start)
  {
    var f := files[i];
    var smallest, largest := GetRange([f]);
    ghost var lo, hi;
    start, lo, hi := GetOverlappingInputs(0, files, Some(smallest.user), Some(largest.user));
    OverlapListMembers(files, lo, hi);
    SmallestAtMostLargest(f);
    assert Overlaps(f, lo, hi);
    OneTableHangsTogether(f);
    assert f in [f];
    LeastRangeHangsTogether(files, [f], smallest.user, largest.user, lo, hi);
    SameTablesHangTogether([f] + start, start);
  }

  /** The inputs a compaction of one table begins with. */
  method StartFrom(v: Version, level: nat, i: nat) returns (start: seq<Table>)
    requires level < NUM_LEVELS && ValidVersion(v) && i < |v[level]|
    ensures IsStart(v[level], level, start) && HangTogether(start)
    ensures v[level][i] in start
  {
    if level == 0 {
      start := Level0Start(v[0], i);
    } else {
      start := v[level][i..i + 1];
      OneTableIsStart(v[level], level, i);
    }
  }

  /** The least closed range around an empty range is that range. */
  lemma SomeTableInRange(files: seq<Table>, begin: Option<UserKey>, end: Option<UserKey>,
                         lo: Option<UserKey>, hi: Option<UserKey>)
    requires IsLeastClosedRange(files, begin, end, lo, hi) && exists t :: t in files && Overlaps(t, lo, hi)
    ensures exists t :: t in files && Overlaps(t, begin, end)
  {
    var t :| t in files && Overlaps(t, lo, hi);
    if forall u :: u in files ==> !Overlaps(u, begin, end) {
      assert Closed(files, begin, end) && Covers(begin, end, begin, end);
      assert Overlaps(t, begin, end);
    }
  }

  /**
   CompactRange: the tables that overlap a range; below level 0 only as many of them as it
   takes to reach the size of one output table.
   */
  method RangeStart(v: Version, level: nat, begin: Option<UserKey>, end: Option<UserKey>, limit: nat)
    returns (start: seq<Table>)
    requires level < NUM_LEVELS && ValidVersion(v)
    ensures start == [] || IsStart(v[level], level, start)
    ensures start == [] <==> forall t :: t in v[level] ==> !Overlaps(t, begin, end)
    ensures level == 0 ==> forall t :: t in v[level] && Overlaps(t, begin, end) ==> t in start
    ensures level > 0 ==> start <= OverlapList(v[level], begin, end)
    ensures level > 0 && start < OverlapList(v[level], begin, end) ==> TotalFileSize(start) >= limit
    ensures level > 0 && |start| > 1 ==> TotalFileSize(start[..|start| - 1]) < limit
  {
    ghost var lo, hi;
    start, lo, hi := GetOverlappingInputs(level, v[level], begin, end);
    OverlapListMembers(v[level], lo, hi);
    if start != [] {
      assert start[0] in start;
      if level == 0 {
        SomeTableInRange(v[0], begin, end, lo, hi);
      } else {
        start := TruncateRun(v[level], level, begin, end, start, limit);
      }
    }
  }

  /** A prefix of a run of tables is a run. */
  method TruncateRun(files: seq<Table>, level: nat, begin: Option<UserKey>, end: Option<UserKey>, run: seq<Table>,
                     limit: nat)
    returns (start: seq<Table>)
    requires Disjoint(files) && AllWellFormed(files) && level > 0
    requires run == OverlapList(files, begin, end) && run != []
    ensures IsStart(files, level, start) && start <= run
    ensures start < run ==> TotalFileSize(start) >= limit
    ensures |start| > 1 ==> TotalFileSize(start[..|start| - 1]) < limit
  {
    ghost var a, b := OverlapListIsRun(files, begin, end);
    start := TruncateAtSize(run, limit);
    assert start == files[a..a + |start|];
  }

  /** The shortest nonempty prefix whose size reaches the limit, or the whole list. */
  method TruncateAtSize(files: seq<Table>, limit: nat) returns (r: seq<Table>)
    requires files != []
    ensures r != [] && r <= files
    ensures r < files ==> TotalFileSize(r) >= limit
    ensures |r| > 1 ==> TotalFileSize(r[..|r| - 1]) < limit
  {
    var total := 0;
    for i := 0 to |files|
      invariant total == TotalFileSize(files[..i])
      invariant i > 0 ==> total < limit
    {
      assert files[..i + 1][..i] == files[..i];
      total := total + files[i].size;
      if total >= limit {
        return files[..i + 1];
      }
    }
    assert files[..|files|] == files;
    return files;
  }
}
