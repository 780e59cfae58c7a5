/**
 Writing an immutable memtable out as a table: Version::PickLevelForMemTableOutput
 (db/version_set.cc) and the edit of DBImpl::WriteLevel0Table (db/db_impl.cc).
 */
module Flushing {
  import opened Optional
  import opened InternalKeys
  import opened ReadSpec
  import opened Versions
  import opened CompactionInputs
  import opened VersionBuilder
  import opened CompactionSetup
  import opened Installing

  const MAX_MEM_COMPACT_LEVEL: nat := 2

  /** No table of levels 0 to `level` overlaps the user-key range. */
  ghost predicate ClearDownTo(v: Version, level: nat, lo: UserKey, hi: UserKey) {
    forall l :: 0 <= l <= level && l < NUM_LEVELS ==> RangeIsClear(v[l], Some(lo), Some(hi))
  }

  /** Total size of the tables of a level that overlap the range. */
  function OverlappedBytes(v: Version, level: nat, lo: UserKey, hi: UserKey): nat
    requires level < NUM_LEVELS
  {
    TotalFileSize(OverlapList(v[level], Some(lo), Some(hi)))
  }

  /** Where the search for a level stops: at the limit, at an overlap, or above too much overlapped data. */
  ghost predicate StopsAt(v: Version, level: nat, lo: UserKey, hi: UserKey, grandparentLimit: nat) {
    || level == MAX_MEM_COMPACT_LEVEL
    || !ClearDownTo(v, level + 1, lo, hi)
    || (level + 2 < NUM_LEVELS && OverlappedBytes(v, level + 2, lo, hi) > grandparentLimit)
  }

  method OverlapInLevel(v: Version, level: nat, lo: UserKey, hi: UserKey) returns (overlap: bool)
    requires TablesWellFormed(v) && LevelsDisjoint(v) && level < NUM_LEVELS
    ensures overlap <==> !RangeIsClear(v[level], Some(lo), Some(hi))
  {
    overlap := SomeFileOverlapsRange(level > 0, v[level], Some(lo), Some(hi));
  }

  method SumOverlappedBytes(v: Version, level: nat, lo: UserKey, hi: UserKey) returns (sum: nat)
    requires TablesWellFormed(v) && 0 < level < NUM_LEVELS
    ensures sum == OverlappedBytes(v, level, lo, hi)
  {
    var overlaps;
    ghost var a, b;
    overlaps, a, b := GetOverlappingInputs(level, v[level], Some(lo), Some(hi));
    sum := TotalFileSize(overlaps);
  }

  method PickLevelForMemTableOutput(v: Version, lo: UserKey, hi: UserKey, grandparentLimit: nat) returns (level: nat)
    requires TablesWellFormed(v) && LevelsDisjoint(v)
    ensures level <= MAX_MEM_COMPACT_LEVEL
    ensures level > 0 ==> ClearDownTo(v, level, lo, hi)
    ensures forall l :: 2 <= l < level + 2 ==> OverlappedBytes(v, l, lo, hi) <= grandparentLimit
    ensures StopsAt(v, level, lo, hi, grandparentLimit)
  {
    level := 0;
    var overlap := OverlapInLevel(v, 0, lo, hi);
    if overlap {
      return;
    }
    while level < MAX_MEM_COMPACT_LEVEL
      invariant level <= MAX_MEM_COMPACT_LEVEL && ClearDownTo(v, level, lo, hi)
      invariant forall l :: 2 <= l < level + 2 ==> OverlappedBytes(v, l, lo, hi) <= grandparentLimit
    {
      overlap := OverlapInLevel(v, level + 1, lo, hi);
      if overlap {
        return;
      }
      if level + 2 < NUM_LEVELS {
        var sum := SumOverlappedBytes(v, level + 2, lo, hi);
        if sum > grandparentLimit {
          return;
        }
      }
      level := level + 1;
    }
  }

  function FlushEdit(level: nat, t: Table): Edit {
    Edit({}, [(level, t)])
  }

  /** `t` may be added at `level`: it is newer than everything, and in the way of nothing. */
  ghost predicate MayFlush(v: Version, level: nat, t: Table) {
    && level <= MAX_MEM_COMPACT_LEVEL
    && WellFormed(t)
    && (forall l, u :: 0 <= l < NUM_LEVELS && u in v[l] ==> u.number < t.number && NewerThan(t, u))
    && (level > 0 ==> ClearDownTo(v, level, Smallest(t).user, Largest(t).user))
  }

  lemma ClearOfTable(u: Table, t: Table)
    requires WellFormed(t) && WellFormed(u)
    requires AfterFile(Smallest(t).user, u) || BeforeFile(Largest(t).user, u)
    ensures NewerThan(u, t) && Apart(u, t)
  {
    SmallestAtMostLargest(t);
    SmallestAtMostLargest(u);
    forall e, f | e in u.entries && f in t.entries
      ensures e.key.user != f.key.user
    {
      EntryInRange(u, e);
      EntryInRange(t, f);
    }
  }

  /** Invariants (a), (b) and (c) survive a flush. */
  lemma FlushIsValid(v: Version, level: nat, t: Table)
    requires ValidVersion(v) && MayFlush(v, level, t)
    ensures ValidVersion(Install(v, FlushEdit(level, t)))
    ensures forall l, u :: 0 <= l < NUM_LEVELS ==>
              (u in Install(v, FlushEdit(level, t))[l] <==> u in v[l] || (l == level && u == t))
  {
    var e := FlushEdit(level, t);
    assert (level, t) in e.added;
    forall l: nat, m: nat, a, b |
      l < NUM_LEVELS && m < NUM_LEVELS && InstalledAt(v[l], e, l, a) && InstalledAt(v[m], e, m, b)
      ensures PairOk(l, a, m, b)
    {
      if a in v[l] {
        if b in v[m] {
          ValidPair(v, l, a, m, b);
        } else if l <= level && level > 0 {
          assert RangeIsClear(v[l], Some(Smallest(t).user), Some(Largest(t).user));
          ClearOfTable(a, t);
        }
      } else if b in v[m] && m == level && level > 0 {
        assert RangeIsClear(v[m], Some(Smallest(t).user), Some(Largest(t).user));
        ClearOfTable(b, t);
      }
    }
    InstallIsValid(v, e);
    forall l: nat | l < NUM_LEVELS
      ensures forall u :: u in Install(v, e)[l] <==> u in v[l] || (l == level && u == t)
    {
      InstalledOrder(v, e, l);
    }
  }
}
