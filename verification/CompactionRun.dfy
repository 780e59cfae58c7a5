/**
 One whole compaction: the input iterators of VersionSet::MakeInputIterator
 (db/version_set.cc), the merge, and the tables it leaves (db/db_impl.cc).
 */
module CompactionRun {
  import opened Optional
  import opened InternalKeys
  import opened ReadSpec
  import opened Versions
  import opened Cursors
  import opened Merger
  import opened CompactionInputs
  import opened CompactionSetup
  import opened CompactionMerge
  import opened VersionBuilder
  import opened Installing
  import opened CompactionReads
  import opened MemTables

  // ----- a sorted list of any set of entries with distinct keys

  lemma SortedListing(s: set<Entry>) returns (all: seq<Entry>)
    requires Distinct(s)
    ensures Sorted(all) && Elements(all) == s
    decreases s
  {
    if s == {} {
      all := [];
    } else {
      var e :| e in s;
      var rest := SortedListing(s - {e});
      forall f | f in rest
        ensures f.key != e.key
      {
        assert f in Elements(rest);
      }
      InsertEntrySorted(rest, e);
      InsertEntryMembers(rest, e);
      all := InsertEntry(rest, e);
      assert forall f :: f in Elements(all) <==> f in Elements(rest) || f == e;
    }
  }

  // ----- the concatenation of a run of tables

  function Concat(files: seq<Table>): seq<Entry> {
    if files == [] then [] else Concat(files[..|files| - 1]) + files[|files| - 1].entries
  }

  lemma {:induction false} ConcatMembers(files: seq<Table>, e: Entry)
    ensures e in Concat(files) <==> e in TableEntries(files)
  {
    if files != [] {
      var n := |files| - 1;
      ConcatMembers(files[..n], e);
      assert files == files[..n] + [files[n]];
      if e in files[n].entries {
        assert files[n] in files;
      }
    }
  }

  lemma SortedJoin(a: seq<Entry>, b: seq<Entry>)
    requires Sorted(a) && Sorted(b) && forall e, f :: e in a && f in b ==> Less(e.key, f.key)
    ensures Sorted(a + b)
  {
    var r := a + b;
    forall i, j | 0 <= i < j < |r|
      ensures Less(r[i].key, r[j].key)
    {
      if j < |a| {
        assert r[i] == a[i] && r[j] == a[j];
      } else if |a| <= i {
        assert r[i] == b[i - |a|] && r[j] == b[j - |a|];
      } else {
        assert r[i] in a && r[j] in b;
      }
    }
  }

  lemma {:induction false} ConcatSorted(files: seq<Table>)
    requires Disjoint(files) && AllWellFormed(files)
    ensures Sorted(Concat(files))
  {
    if files != [] {
      var n := |files| - 1;
      var front := files[..n];
      DisjointPrefix(files, n);
      ConcatSorted(front);
      forall e, f | e in Concat(front) && f in files[n].entries
        ensures Less(e.key, f.key)
      {
        ConcatMembers(front, e);
        var t :| t in front && e in t.entries;
        var i :| 0 <= i < n && front[i] == t;
        DisjointOrder(files, i, n, e, f);
      }
      assert files[n] in files;
      SortedJoin(Concat(front), files[n].entries);
    }
  }

  lemma DisjointPrefix(files: seq<Table>, n: nat)
    requires Disjoint(files) && n <= |files|
    ensures Disjoint(files[..n])
  {
    forall i: nat, j: nat | i < j < n
      ensures Precedes(files[..n], i, j)
    {
      assert Precedes(files, i, j);
    }
  }

  lemma DisjointSlice(files: seq<Table>, a: nat, b: nat)
    requires Disjoint(files) && a <= b <= |files|
    ensures Disjoint(files[a..b])
  {
    forall i: nat, j: nat | i < j < b - a
      ensures Precedes(files[a..b], i, j)
    {
      assert Precedes(files, a + i, a + j);
    }
  }

  // ----- an entry is in one table

  lemma EntryInOneTable(v: Version, l: nat, a: Table, m: nat, b: Table, e: Entry)
    requires ValidVersion(v) && l < NUM_LEVELS && m < NUM_LEVELS && a in v[l] && b in v[m]
    requires e in a.entries && e in b.entries
    ensures l == m && a == b
  {
    ValidPair(v, l, a, m, b);
    ValidPair(v, m, b, l, a);
    if l == m && l > 0 && a != b {
      assert AllWellFormed(v[l]);
      EntryInRange(a, e);
      EntryInRange(b, e);
      LessIsStrictOrder(Largest(a), Smallest(b), e.key);
      LessIsStrictOrder(Largest(b), Smallest(a), e.key);
      LessIsStrictOrder(e.key, Largest(a), e.key);
    }
  }

  // ----- the input iterators

  function TableRuns(files: seq<Table>): seq<seq<Entry>> {
    seq(|files|, i requires 0 <= i < |files| => files[i].entries)
  }

  /** In level 0 one iterator per table; elsewhere one over the concatenation of the tables. */
  function InputRuns(p: Plan): seq<seq<Entry>> {
    (if p.level == 0 then TableRuns(p.inputs0) else [Concat(p.inputs0)])
    + if p.inputs1 == [] then [] else [Concat(p.inputs1)]
  }

  /** How many of the runs come from `inputs0`. */
  function UpperRuns(p: Plan): nat {
    if p.level == 0 then |p.inputs0| else 1
  }

  /** Table `t` contributes to run `i`. */
  predicate Contributes(p: Plan, i: nat, t: Table) {
    if i < UpperRuns(p) then (if p.level == 0 then t == p.inputs0[i] else t in p.inputs0)
    else i == UpperRuns(p) && t in p.inputs1
  }

  lemma RunMembers(p: Plan, i: nat, e: Entry)
    requires i < |InputRuns(p)|
    ensures e in InputRuns(p)[i] <==> exists t :: Contributes(p, i, t) && e in t.entries
  {
    if i < UpperRuns(p) {
      if p.level == 0 {
        assert InputRuns(p)[i] == p.inputs0[i].entries;
        assert Contributes(p, i, p.inputs0[i]);
      } else {
        ConcatMembers(p.inputs0, e);
        assert InputRuns(p)[i] == Concat(p.inputs0);
        assert forall t :: t in p.inputs0 ==> Contributes(p, i, t);
      }
    } else {
      ConcatMembers(p.inputs1, e);
      assert InputRuns(p)[i] == Concat(p.inputs1);
      assert forall t :: t in p.inputs1 ==> Contributes(p, i, t);
    }
  }

  /** The runs of a plan can be merged: each is sorted. */
  ghost predicate HasSortedRuns(p: Plan) {
    && (if p.level == 0 then forall t :: t in p.inputs0 ==> WellFormed(t) else Sorted(Concat(p.inputs0)))
    && Sorted(Concat(p.inputs1))
    && (p.level == 0 ==> forall i, j :: 0 <= i < j < |p.inputs0| ==> p.inputs0[i] != p.inputs0[j])
  }

  lemma {:induction false} OverlapListInOrder(files: seq<Table>, lo: Option<UserKey>, hi: Option<UserKey>)
    requires InBuilderOrder(files)
    ensures InBuilderOrder(OverlapList(files, lo, hi))
  {
    if files != [] {
      var n := |files| - 1;
      var front := files[..n];
      forall i: nat, j: nat | i < j < n
        ensures Ascends(front, i, j)
      {
        assert Ascends(files, i, j);
      }
      OverlapListInOrder(front, lo, hi);
      OverlapListMembers(front, lo, hi);
      forall u | u in OverlapList(front, lo, hi)
        ensures SmallestFirst(u, files[n])
      {
        var i :| 0 <= i < n && front[i] == u;
        assert Ascends(files, i, n);
      }
      if Overlaps(files[n], lo, hi) {
        OrderSnoc(OverlapList(front, lo, hi), files[n]);
      } else {
        assert OverlapList(files, lo, hi) == OverlapList(front, lo, hi);
      }
    }
  }

  lemma OverlapRunSorted(files: seq<Table>, lo: Option<UserKey>, hi: Option<UserKey>)
    requires Disjoint(files) && AllWellFormed(files)
    ensures Sorted(Concat(OverlapList(files, lo, hi)))
  {
    var a, b := OverlapListIsRun(files, lo, hi);
    DisjointSlice(files, a, b);
    ConcatSorted(files[a..b]);
  }

  lemma StartRunsSorted(files: seq<Table>, level: nat, inputs: seq<Table>)
    requires AllWellFormed(files) && IsClosedStart(files, level, inputs)
    requires if level == 0 then InBuilderOrder(files) else Disjoint(files)
    ensures if level == 0 then forall t :: t in inputs ==> WellFormed(t) else Sorted(Concat(inputs))
    ensures level == 0 ==> forall i, j :: 0 <= i < j < |inputs| ==> inputs[i] != inputs[j]
  {
    if level == 0 {
      var lo, hi :| Closed(files, lo, hi) && inputs == OverlapList(files, lo, hi);
      OverlapListMembers(files, lo, hi);
      OverlapListInOrder(files, lo, hi);
      forall i: nat, j: nat | i < j < |inputs|
        ensures inputs[i] != inputs[j]
      {
        assert Ascends(inputs, i, j);
        SmallestFirstIsStrictOrder(inputs[i], inputs[j], inputs[i]);
      }
    } else {
      var a, b :| 0 <= a < b <= |files| && EndsAtUserKey(files, b) && inputs == files[a..b];
      DisjointSlice(files, a, b);
      ConcatSorted(inputs);
    }
  }

  lemma PartnersSorted(files: seq<Table>, inputs0: seq<Table>, inputs1: seq<Table>)
    requires Disjoint(files) && AllWellFormed(files) && ArePartners(files, inputs0, inputs1)
    ensures Sorted(Concat(inputs1))
  {
    var s, l :| IsSmallestKey(inputs0, s) && IsLargestKey(inputs0, l) &&
                inputs1 == OverlapList(files, Some(s.user), Some(l.user));
    OverlapRunSorted(files, Some(s.user), Some(l.user));
  }

  lemma PlanHasSortedRuns(v: Version, start: seq<Table>, p: Plan)
    requires ValidVersion(v) && IsPlan(v, start, p)
    ensures HasSortedRuns(p)
  {
    hide AllWellFormed, Disjoint, ArePartners, IsClosedStart, InBuilderOrder, AreGrandparents, NewerLeftBehind;
    hide ParentsForeign, ParentsOutside;
    assert AllWellFormed(v[p.level]) && AllWellFormed(v[p.level + 1]);
    StartRunsSorted(v[p.level], p.level, p.inputs0);
    PartnersSorted(v[p.level + 1], p.inputs0, p.inputs1);
  }

  lemma RunIsSorted(p: Plan, i: nat)
    requires HasSortedRuns(p) && i < |InputRuns(p)|
    ensures Sorted(InputRuns(p)[i])
  {
    if i < UpperRuns(p) {
      if p.level == 0 {
        assert InputRuns(p)[i] == p.inputs0[i].entries;
        assert p.inputs0[i] in p.inputs0;
      } else {
        assert InputRuns(p)[i] == Concat(p.inputs0);
      }
    } else {
      assert InputRuns(p)[i] == Concat(p.inputs1);
    }
  }

  lemma RunEntriesAreInputs(p: Plan, e: Entry)
    requires p.inputs0 != []
    ensures e in InputEntries(p) <==> exists i: nat :: i < |InputRuns(p)| && e in InputRuns(p)[i]
  {
    if e in InputEntries(p) {
      var t :| t in p.inputs0 + p.inputs1 && e in t.entries;
      var i := UpperRuns(p);
      if t in p.inputs0 {
        i := 0;
        if p.level == 0 {
          i :| 0 <= i < |p.inputs0| && p.inputs0[i] == t;
        }
      }
      assert Contributes(p, i, t);
      RunMembers(p, i, e);
    }
    if i: nat :| i < |InputRuns(p)| && e in InputRuns(p)[i] {
      RunMembers(p, i, e);
      var t :| Contributes(p, i, t) && e in t.entries;
      assert t in p.inputs0 + p.inputs1;
    }
  }

  /** No entry is in two runs. */
  lemma EntryInOneRun(v: Version, p: Plan, i: nat, j: nat, e: Entry)
    requires ValidVersion(v) && SafeInputs(v, p.level, p.inputs0, p.inputs1) && HasSortedRuns(p)
    requires i < |InputRuns(p)| && j < |InputRuns(p)| && e in InputRuns(p)[i] && e in InputRuns(p)[j]
    ensures i == j
  {
    RunMembers(p, i, e);
    RunMembers(p, j, e);
    var t :| Contributes(p, i, t) && e in t.entries;
    var u :| Contributes(p, j, u) && e in u.entries;
    var l := if i < UpperRuns(p) then p.level else p.level + 1;
    var m := if j < UpperRuns(p) then p.level else p.level + 1;
    assert t in v[l] && u in v[m];
    EntryInOneTable(v, l, t, m, u, e);
  }

  lemma PartIsDistinct(part: set<Entry>, rest: set<Entry>)
    requires Distinct(part + rest)
    ensures Distinct(part)
  {
  }

  lemma InputsAreUnion(v: Version, start: seq<Table>, p: Plan) returns (all: seq<Entry>)
    requires ValidVersion(v) && Distinct(VersionEntries(v)) && IsPlan(v, start, p)
    ensures IsUnion(all, InputRuns(p)) && Elements(all) == InputEntries(p)
  {
    hide ValidVersion, Distinct, InputEntries, KeysApart, IsClosedStart, ArePartners, AreGrandparents;
    PlanHasSortedRuns(v, start, p);
    InputsAndRest(v, p);
    PartIsDistinct(InputEntries(p), RestEntries(v, p));
    all := SortedListing(InputEntries(p));
    var runs := InputRuns(p);
    forall c | c in runs
      ensures Sorted(c)
    {
      var i :| 0 <= i < |runs| && runs[i] == c;
      RunIsSorted(p, i);
    }
    forall e
      ensures e in all <==> e in InputEntries(p)
      ensures e in all <==> exists i: nat :: i < |runs| && e in runs[i]
    {
      assert e in all <==> e in Elements(all);
      RunEntriesAreInputs(p, e);
    }
    forall i: nat, j: nat | i < j < |runs|
      ensures KeysApart(runs, i, j)
    {
      RunsApart(v, p, all, i, j);
    }
  }

  lemma RunsApart(v: Version, p: Plan, all: seq<Entry>, i: nat, j: nat)
    requires ValidVersion(v) && Distinct(VersionEntries(v)) && SafeInputs(v, p.level, p.inputs0, p.inputs1)
    requires HasSortedRuns(p)
    requires i < j < |InputRuns(p)|
    ensures KeysApart(InputRuns(p), i, j)
  {
    var runs := InputRuns(p);
    forall e: Entry, f: Entry | e in runs[i] && f in runs[j]
      ensures e.key != f.key
    {
      RunEntriesAreInputs(p, e);
      RunEntriesAreInputs(p, f);
      InputsAndRest(v, p);
      if e == f {
        EntryInOneRun(v, p, i, j, e);
      }
    }
  }

  method NewCursors(runs: seq<seq<Entry>>) returns (children: seq<Cursor>)
    ensures fresh(children) && |children| == |runs|
    ensures forall k :: 0 <= k < |runs| ==> children[k].entries == runs[k]
    ensures forall j, k :: 0 <= j < k < |runs| ==> children[j] != children[k]
  {
    children := [];
    for i := 0 to |runs|
      invariant |children| == i && fresh(children)
      invariant forall k :: 0 <= k < i ==> children[k].entries == runs[k]
      invariant forall j, k :: 0 <= j < k < i ==> children[j] != children[k]
    {
      var child := new Cursor(runs[i]);
      children := children + [child];
    }
  }

  method MakeInputIterator(v: Version, ghost start: seq<Table>, p: Plan) returns (iter: MergingIterator)
    requires ValidVersion(v) && Distinct(VersionEntries(v)) && IsPlan(v, start, p)
    ensures fresh(iter) && fresh(iter.children) && iter.Fixed()
    ensures Elements(iter.all) == InputEntries(p)
  {
    ghost var all := InputsAreUnion(v, start, p);
    hide ValidVersion, IsPlan, IsUnion, Distinct, InputRuns;
    var children := NewCursors(InputRuns(p));
    assert seq(|children|, i requires 0 <= i < |children| => children[i].entries) == InputRuns(p);
    iter := new MergingIterator(children, all);
  }

  // ----- the outputs

  lemma {:induction false} KeptSorted(v: Version, level: nat, input: seq<Entry>, snap: nat, n: nat)
    requires Sorted(input) && n <= |input|
    ensures Sorted(Kept(v, level, input, snap, n))
  {
    if n > 0 {
      KeptSorted(v, level, input, snap, n - 1);
      if !Dropped(v, level, input, n - 1, snap) {
        var front := Kept(v, level, input, snap, n - 1);
        KeptMembers(v, level, input, snap, n - 1);
        forall e, f | e in front && f in [input[n - 1]]
          ensures Less(e.key, f.key)
        {
        }
        SortedJoin(front, [input[n - 1]]);
      }
    }
  }

  lemma SortedParts(a: seq<Entry>, b: seq<Entry>)
    requires Sorted(a + b)
    ensures Sorted(a) && Sorted(b) && forall e, f :: e in a && f in b ==> Less(e.key, f.key)
  {
    var r := a + b;
    assert forall i :: 0 <= i < |a| ==> r[i] == a[i];
    assert forall i :: 0 <= i < |b| ==> r[|a| + i] == b[i];
    forall e, f | e in a && f in b
      ensures Less(e.key, f.key)
    {
      var i :| 0 <= i < |a| && a[i] == e;
      var j :| 0 <= j < |b| && b[j] == f;
      assert Less(r[i].key, r[|a| + j].key);
    }
  }

  lemma {:induction false} FlattenMembers(runs: seq<seq<Entry>>, e: Entry)
    ensures e in Flatten(runs) <==> exists i :: 0 <= i < |runs| && e in runs[i]
  {
    if runs != [] {
      var n := |runs| - 1;
      FlattenMembers(runs[..n], e);
      if e in Flatten(runs[..n]) {
        var i :| 0 <= i < n && e in runs[..n][i];
        assert e in runs[i];
      }
      if i :| 0 <= i < |runs| && e in runs[i] {
        if i < n {
          assert e in runs[..n][i];
        }
      }
    }
  }

  /** Cutting a sorted run into pieces gives sorted pieces, each before the next. */
  lemma {:induction false} PiecesInOrder(runs: seq<seq<Entry>>)
    requires Sorted(Flatten(runs))
    ensures forall i :: 0 <= i < |runs| ==> Sorted(runs[i])
    ensures forall i, j, e, f :: 0 <= i < j < |runs| && e in runs[i] && f in runs[j] ==> Less(e.key, f.key)
  {
    if runs != [] {
      var n := |runs| - 1;
      SortedParts(Flatten(runs[..n]), runs[n]);
      PiecesInOrder(runs[..n]);
      forall i, j, e, f | 0 <= i < j < |runs| && e in runs[i] && f in runs[j]
        ensures Less(e.key, f.key)
      {
        assert e in runs[..n][i];
        FlattenMembers(runs[..n], e);
        if j < n {
          assert f in runs[..n][j];
        }
      }
      forall i | 0 <= i < |runs|
        ensures Sorted(runs[i])
      {
        assert i < n ==> runs[..n][i] == runs[i];
      }
    }
  }

  /** Number the finished outputs and record their sizes. */
  method NumberOutputs(outputs: seq<seq<Entry>>, base: nat, sizes: nat -> nat) returns (outs: seq<Table>)
    requires NoneEmpty(outputs)
    ensures AreNumbered(outs, outputs, base)
  {
    outs := [];
    for i := 0 to |outputs|
      invariant AreNumbered(outs, outputs[..i], base)
    {
      assert outputs[i] in outputs;
      outs := outs + [Table(base + i, sizes(i), outputs[i])];
    }
    assert outputs[..|outputs|] == outputs;
  }

  ghost predicate AreNumbered(outs: seq<Table>, outputs: seq<seq<Entry>>, base: nat) {
    |outs| == |outputs| && forall i :: 0 <= i < |outs| ==> outs[i].number == base + i && outs[i].entries == outputs[i]
  }

  lemma OutputEntries(outs: seq<Table>, outputs: seq<seq<Entry>>, base: nat)
    requires AreNumbered(outs, outputs, base)
    ensures TableEntries(outs) == Elements(Flatten(outputs))
  {
    forall e
      ensures e in TableEntries(outs) <==> e in Elements(Flatten(outputs))
    {
      FlattenMembers(outputs, e);
      if e in TableEntries(outs) {
        var t :| t in outs && e in t.entries;
        var i :| 0 <= i < |outs| && outs[i] == t;
        assert e in outputs[i];
      }
      if i :| 0 <= i < |outputs| && e in outputs[i] {
        assert outs[i] in outs && e in outs[i].entries;
      }
    }
  }

  lemma NumberedApart(outs: seq<Table>, outputs: seq<seq<Entry>>, base: nat)
    requires AreNumbered(outs, outputs, base) && Sorted(Flatten(outputs))
    ensures PairwiseApart(outs)
    ensures forall t :: t in outs ==> Sorted(t.entries) && base <= t.number < base + |outs|
  {
    PiecesInOrder(outputs);
    forall a, b | a in outs && b in outs && a != b
      ensures Apart(a, b)
    {
      var i :| 0 <= i < |outs| && outs[i] == a;
      var j :| 0 <= j < |outs| && outs[j] == b;
      assert a.entries[0] in outputs[i] && a.entries[|a.entries| - 1] in outputs[i];
      assert b.entries[0] in outputs[j] && b.entries[|b.entries| - 1] in outputs[j];
    }
  }

  /** Numbered pieces of input entries are outputs in the sense of `Installing`. */
  lemma NumberedAreOutputs(v: Version, p: Plan, outs: seq<Table>, outputs: seq<seq<Entry>>, base: nat)
    requires ValidVersion(v) && SafeInputs(v, p.level, p.inputs0, p.inputs1)
    requires AreNumbered(outs, outputs, base) && Sorted(Flatten(outputs))
    requires Elements(Flatten(outputs)) <= InputEntries(p)
    requires forall l, u :: 0 <= l < NUM_LEVELS && u in v[l] ==> u.number < base
    ensures AreOutputs(v, p, outs)
  {
    NumberedApart(outs, outputs, base);
    OutputEntries(outs, outputs, base);
    InputsWellFormed(v, p);
    forall t | t in outs
      ensures WellFormed(t) && DrawsFrom(t, p.inputs0 + p.inputs1)
    {
      forall e | e in t.entries
        ensures e.key.sequence <= MAX_SEQUENCE && exists f :: f in p.inputs0 + p.inputs1 && e in f.entries
      {
        assert e in TableEntries(outs);
        var f :| f in p.inputs0 + p.inputs1 && e in f.entries;
      }
    }
  }

  lemma MergedOutputs(v: Version, p: Plan, input: seq<Entry>, snap: nat, outputs: seq<seq<Entry>>, outs: seq<Table>,
                      base: nat)
    requires ValidVersion(v) && SafeInputs(v, p.level, p.inputs0, p.inputs1)
    requires Sorted(input) && Elements(input) == InputEntries(p)
    requires Flatten(outputs) == KeptAll(v, p.level, input, snap) && AreNumbered(outs, outputs, base)
    requires forall l, u :: 0 <= l < NUM_LEVELS && u in v[l] ==> u.number < base
    ensures IsCompaction(v, p, input, snap, outs)
    ensures forall t :: t in outs ==> base <= t.number < base + |outs|
  {
    KeptSorted(v, p.level, input, snap, |input|);
    KeptIsSubset(v, p.level, input, snap);
    NumberedAreOutputs(v, p, outs, outputs, base);
    NumberedApart(outs, outputs, base);
    OutputEntries(outs, outputs, base);
  }

  /** A whole compaction of a plan: merge, then number the outputs from `base` on. */
  method RunCompaction(v: Version, ghost start: seq<Table>, p: Plan, snap: nat, base: nat, sizes: nat -> nat,
                       stopBefore: nat -> bool, isFull: nat -> bool)
    returns (outs: seq<Table>, ghost input: seq<Entry>)
    requires ValidVersion(v) && Distinct(VersionEntries(v)) && IsPlan(v, start, p) && snap < MAX_SEQUENCE
    requires forall l, u :: 0 <= l < NUM_LEVELS && u in v[l] ==> u.number < base
    ensures IsCompaction(v, p, input, snap, outs)
    ensures forall t :: t in outs ==> base <= t.number < base + |outs|
  {
    var iter := MakeInputIterator(v, start, p);
    input := iter.all;
    var c := new Compaction(v, p.level);
    hide IsUnion, NewerAbove, UniqueNumbers, ArePartners, IsClosedStart;
    var outputs := DoCompactionWork(c, iter, snap, stopBefore, isFull);
    outs := NumberOutputs(outputs, base, sizes);
    MergedOutputs(v, p, input, snap, outputs, outs, base);
  }
}
