/**
 Table files, versions and the read path through a version (db/version_set.cc).

 A table is its number, its file size and its entries; its `smallest` and `largest` keys
 are those of its first and last entry.  A version is seven lists of tables.
 */
module Versions {
  import opened Optional
  import opened InternalKeys
  import opened ReadSpec

  const NUM_LEVELS: nat := 7

  datatype TableData = Table(number: nat, size: nat, entries: seq<Entry>)

  /** Only tables with at least one entry are ever recorded. */
  type Table = t: TableData | t.entries != [] witness Table(0, 0, [Entry(InternalKey(0.0, 0, Put), "")])

  function Smallest(t: Table): InternalKey {
    t.entries[0].key
  }

  function Largest(t: Table): InternalKey {
    t.entries[|t.entries| - 1].key
  }

  type Version = v: seq<seq<Table>> | |v| == NUM_LEVELS witness [[], [], [], [], [], [], []]

  // ----- the invariants of a version

  /** Entries in key order, with sequence numbers that fit the tag. */
  ghost predicate WellFormed(t: Table) {
    Sorted(t.entries) && forall e :: e in t.entries ==> e.key.sequence <= MAX_SEQUENCE
  }

  ghost predicate AllWellFormed(files: seq<Table>) {
    forall t :: t in files ==> WellFormed(t)
  }

  ghost predicate TablesWellFormed(v: Version) {
    forall l :: 0 <= l < NUM_LEVELS ==> AllWellFormed(v[l])
  }

  /** The tables follow one another without overlap, in internal-key order. */
  ghost predicate Disjoint(files: seq<Table>) {
    forall i: nat, j: nat {:trigger Precedes(files, i, j)} :: i < j < |files| ==> Precedes(files, i, j)
  }

  ghost predicate Precedes(files: seq<Table>, i: nat, j: nat)
    requires i < |files| && j < |files|
  {
    Less(Largest(files[i]), Smallest(files[j]))
  }

  ghost predicate LevelsDisjoint(v: Version) {
    forall l :: 1 <= l < NUM_LEVELS ==> Disjoint(v[l])
  }

  /** For each user key, every entry of `a` is newer than every entry of `b`. */
  ghost predicate NewerThan(a: Table, b: Table) {
    forall e, f :: e in a.entries && f in b.entries && e.key.user == f.key.user ==>
      e.key.sequence > f.key.sequence
  }

  /** A table of a shallower level is newer than one of a deeper level. */
  ghost predicate NewerAbove(v: Version) {
    forall l: nat, m: nat, a, b {:trigger InOrder(v, l, a, m, b)} ::
      l < m < NUM_LEVELS && a in v[l] && b in v[m] ==> InOrder(v, l, a, m, b)
  }

  ghost predicate InOrder(v: Version, l: nat, a: Table, m: nat, b: Table) {
    NewerThan(a, b)
  }

  /** In level 0 a higher file number holds newer entries. */
  ghost predicate NewerByNumber(files: seq<Table>) {
    forall a, b :: a in files && b in files && a.number > b.number ==> NewerThan(a, b)
  }

  /** A file number names one table at one level of the version. */
  ghost predicate UniqueNumbers(v: Version) {
    forall l: nat, m: nat, a, b {:trigger Identified(v, l, a, m, b)} ::
      l < NUM_LEVELS && m < NUM_LEVELS && a in v[l] && b in v[m] ==> Identified(v, l, a, m, b)
  }

  ghost predicate Identified(v: Version, l: nat, a: Table, m: nat, b: Table) {
    a.number == b.number ==> l == m && a == b
  }

  /** The order in which the version builder keeps the tables of a level. */
  predicate SmallestFirst(a: Table, b: Table) {
    Less(Smallest(a), Smallest(b)) || (Smallest(a) == Smallest(b) && a.number < b.number)
  }

  /** Strictly increasing, so no table occurs twice. */
  ghost predicate InBuilderOrder(files: seq<Table>) {
    forall i: nat, j: nat {:trigger Ascends(files, i, j)} :: i < j < |files| ==> Ascends(files, i, j)
  }

  ghost predicate Ascends(files: seq<Table>, i: nat, j: nat)
    requires i < |files| && j < |files|
  {
    SmallestFirst(files[i], files[j])
  }

  ghost predicate ValidVersion(v: Version) {
    && TablesWellFormed(v)
    && LevelsDisjoint(v)
    && NewerAbove(v)
    && NewerByNumber(v[0])
    && UniqueNumbers(v)
    && InBuilderOrder(v[0])
  }

  // ----- contents

  ghost function TableEntries(files: seq<Table>): set<Entry> {
    set t, e | t in files && e in t.entries :: e
  }

  /** All entries at level `l` or deeper. */
  ghost function EntriesFrom(v: Version, l: nat): set<Entry> {
    set m, t, e | l <= m < NUM_LEVELS && t in v[m] && e in t.entries :: e
  }

  ghost function VersionEntries(v: Version): set<Entry> {
    EntriesFrom(v, 0)
  }

  // ----- user-key ranges

  predicate AfterFile(user: UserKey, f: Table) {
    user > Largest(f).user
  }

  predicate BeforeFile(user: UserKey, f: Table) {
    user < Smallest(f).user
  }

  lemma EntryInRange(t: Table, e: Entry)
    requires WellFormed(t) && e in t.entries
    ensures AtMost(Smallest(t), e.key) && AtMost(e.key, Largest(t))
    ensures Smallest(t).user <= e.key.user <= Largest(t).user
    ensures !AfterFile(e.key.user, t) && !BeforeFile(e.key.user, t)
  {
    var i :| 0 <= i < |t.entries| && t.entries[i] == e;
  }

  lemma SmallestAtMostLargest(t: Table)
    requires WellFormed(t)
    ensures AtMost(Smallest(t), Largest(t))
    ensures Smallest(t).sequence <= MAX_SEQUENCE && Largest(t).sequence <= MAX_SEQUENCE
  {
    assert t.entries[0] in t.entries && t.entries[|t.entries| - 1] in t.entries;
  }

  /** In a disjoint list, an entry of a later table comes after everything earlier. */
  lemma DisjointOrder(files: seq<Table>, i: nat, j: nat, e: Entry, f: Entry)
    requires i < j < |files| && Disjoint(files)
    requires AllWellFormed(files)
    requires e in files[i].entries && f in files[j].entries
    ensures Less(e.key, f.key)
  {
    assert Precedes(files, i, j);
    EntryInRange(files[i], e);
    EntryInRange(files[j], f);
  }

  lemma DisjointLargest(files: seq<Table>, i: nat, j: nat)
    requires i < j < |files| && Disjoint(files)
    requires AllWellFormed(files)
    ensures Less(Largest(files[i]), Smallest(files[j]))
    ensures Less(Largest(files[i]), Largest(files[j]))
    ensures Less(Smallest(files[i]), Smallest(files[j]))
  {
    assert Precedes(files, i, j);
    SmallestAtMostLargest(files[i]);
    SmallestAtMostLargest(files[j]);
  }

  // ----- searching one level

  ghost predicate IsFoundFile(files: seq<Table>, key: InternalKey, i: nat) {
    && i <= |files|
    && (forall j :: 0 <= j < i ==> Less(Largest(files[j]), key))
    && (forall j :: i <= j < |files| ==> !Less(Largest(files[j]), key))
  }

  /** Where binary search between `left` and `right` ends, whether or not the tables are in order. */
  function Search(files: seq<Table>, key: InternalKey, left: nat, right: nat): (r: nat)
    requires left <= right <= |files|
    ensures left <= r <= right
    decreases right - left
  {
    if left == right then right
    else
      var mid := (left + right) / 2;
      if Less(Largest(files[mid]), key) then Search(files, key, mid + 1, right) else Search(files, key, left, mid)
  }

  /** Binary search for the first table whose largest key is at or after `key`. */
  method FindFile(files: seq<Table>, key: InternalKey) returns (right: nat)
    requires Disjoint(files) && AllWellFormed(files)
    ensures IsFoundFile(files, key, right) && right == Search(files, key, 0, |files|)
  {
    var left := 0;
    right := |files|;
    while left < right
      invariant left <= right <= |files| && Search(files, key, left, right) == Search(files, key, 0, |files|)
      invariant forall j :: 0 <= j < left ==> Less(Largest(files[j]), key)
      invariant forall j :: right <= j < |files| ==> !Less(Largest(files[j]), key)
    {
      var mid := (left + right) / 2;
      if Less(Largest(files[mid]), key) {
        forall j | 0 <= j < mid
          ensures Less(Largest(files[j]), key)
        {
          DisjointLargest(files, j, mid);
        }
        left := mid + 1;
      } else {
        forall j | mid < j < |files|
          ensures !Less(Largest(files[j]), key)
        {
          DisjointLargest(files, mid, j);
        }
        right := mid;
      }
    }
  }

  /** No table of the list spans a user key of the closed range. */
  ghost predicate RangeIsClear(files: seq<Table>, lo: Option<UserKey>, hi: Option<UserKey>) {
    forall t :: t in files ==> (lo.Some? && AfterFile(lo.value, t)) || (hi.Some? && BeforeFile(hi.value, t))
  }

  method SomeFileOverlapsRange(disjointSorted: bool, files: seq<Table>, lo: Option<UserKey>, hi: Option<UserKey>)
    returns (overlap: bool)
    requires AllWellFormed(files)
    requires disjointSorted ==> Disjoint(files)
    ensures overlap <==> !RangeIsClear(files, lo, hi)
  {
    if !disjointSorted {
      for i := 0 to |files|
        invariant RangeIsClear(files[..i], lo, hi)
      {
        var f := files[i];
        if (lo.Some? && AfterFile(lo.value, f)) || (hi.Some? && BeforeFile(hi.value, f)) {
        } else {
          assert f in files;
          return true;
        }
      }
      assert files[..|files|] == files;
      return false;
    }
    var index := 0;
    if lo.Some? {
      index := FindFile(files, InternalKey(lo.value, MAX_SEQUENCE, Put));
    }
    forall j | 0 <= j < index
      ensures lo.Some? && AfterFile(lo.value, files[j])
    {
      SmallestAtMostLargest(files[j]);
    }
    if index >= |files| {
      return false;
    }
    overlap := !(hi.Some? && BeforeFile(hi.value, files[index]));
    if overlap {
      assert files[index] in files;
    } else {
      forall t | t in files
        ensures (lo.Some? && AfterFile(lo.value, t)) || BeforeFile(hi.value, t)
      {
        var j :| 0 <= j < |files| && files[j] == t;
        if index < j {
          DisjointLargest(files, index, j);
        }
      }
    }
  }
}
