/**
 Iterating over a database (DBImpl::NewInternalIterator and NewIterator, db/db_impl.cc): the
 entries of the memtables and of the version, merged, and seen through DBIter at one sequence
 number, are exactly the map the history defines at that number.
 */
module DbIteration {
  import opened Optional
  import opened InternalKeys
  import opened ReadSpec
  import opened Versions
  import opened CompactionMerge
  import opened MemTables
  import opened DbState
  import opened DbInvariant
  import opened DbBackground
  import opened DbRuns
  import opened DbIterator
  import opened Merger
  import opened VersionBuilder
  import opened CompactionRun

  ghost function ImmEntries(st: State): set<Entry> {
    if st.imm.Some? then Elements(st.imm.value) else {}
  }

  /** What the internal iterator runs over. */
  ghost function AllEntries(st: State): set<Entry> {
    Elements(st.mem) + (ImmEntries(st) + VersionEntries(st.version))
  }

  lemma MemIsWrites(st: State)
    requires HistoryOk(st.history) && CountersOk(st) && MemOk(st)
    ensures Elements(st.mem) <= Elements(st.history)
  {
    hide MemTable;
    var h, n := st.history, |st.history| - Pending(st);
    HistorySlice(h, st.switched, n);
    MemTableIsSorted(h[st.switched..n]);
  }

  lemma TablesAreWrites(st: State)
    requires BackgroundOk(st) && HistoryOk(st.history)
    ensures VersionEntries(st.version) <= Elements(st.history) && Distinct(Elements(st.history))
  {
    hide TargetOk, ManifestsOk, RunningOk, ValidVersion, ReadsAsWrites;
    HistorySlice(st.history, 0, st.flushed);
  }

  lemma EntriesAreWrites(st: State)
    requires Inv(st)
    ensures AllEntries(st) <= Elements(st.history) && Distinct(Elements(st.history))
  {
    hide BackgroundOk, LogsOk, SnapshotsOk, MemTable;
    MemIsWrites(st);
    TablesAreWrites(st);
    if st.imm.Some? {
      ImmHoldsItsWrites(st);
      HistorySlice(st.history, st.flushed, st.switched);
    }
  }

  /** One read over all entries finds what the layered read finds. */
  lemma UnionReadIsRead(st: State, user: UserKey, s: nat)
    requires Inv(st)
    ensures Distinct(AllEntries(st)) && SetRead(AllEntries(st), user, s) == Read(st, user, s)
  {
    EntriesAreWrites(st);
    LayersAreOrdered(st);
    if st.imm.Some? {
      ImmHoldsItsWrites(st);
    }
    hide Inv, MemTable, LayerGet, Newest;
    var upper, lower := Elements(st.mem), ImmEntries(st) + VersionEntries(st.version);
    DistinctSubset(upper + lower, Elements(st.history));
    DistinctSubset(upper, Elements(st.history));
    DistinctSubset(lower, Elements(st.history));
    NewestOfLayers(upper, lower, user, s);
    LayerGetIsNewest(st.mem, user, s);
    if st.imm.Some? {
      DistinctSubset(ImmEntries(st), Elements(st.history));
      NewestOfLayers(ImmEntries(st), VersionEntries(st.version), user, s);
      LayerGetIsNewest(st.imm.value, user, s);
    } else {
      assert lower == VersionEntries(st.version);
    }
  }

  /**
   At LastSequence or a live snapshot `s`, over any sorted listing of the entries, DBIter
   shows a user key with a value exactly if the last of the first `s` writes to it put that
   value.
   */
  lemma IterationIsHistory(st: State, es: seq<Entry>, s: nat, user: UserKey, value: Value)
    requires Inv(st) && Readable(st, s) && Sorted(es) && Elements(es) == AllEntries(st) && Trusted(st, user, s)
    ensures s <= |st.history|
    ensures HistoryRead(st.history, user, s) == Found(value) <==>
            exists i: nat :: IsShown(es, s, i) && es[i].key.user == user && es[i].value == value
  {
    hide Inv, Readable, Read, SetRead, AllEntries, IsShown, Trusted;
    UnionReadIsRead(st, user, s);
    ReadIsHistoryRead(st, user, s);
    ShownIffRead(es, s, user, value);
  }

  // ----- the internal iterator

  /** Sorted runs with no key in two of them, which hold exactly these entries. */
  ghost predicate AreRuns(runs: seq<seq<Entry>>, es: set<Entry>) {
    && (forall c :: c in runs ==> Sorted(c))
    && (forall e :: e in es <==> exists c :: c in runs && e in c)
    && (forall i: nat, j: nat {:trigger KeysApart(runs, i, j)} :: i < j < |runs| ==> KeysApart(runs, i, j))
  }

  lemma AddRun(runs: seq<seq<Entry>>, es: set<Entry>, c: seq<Entry>, all: set<Entry>)
    requires AreRuns(runs, es) && Sorted(c) && Elements(c) !! es
    requires Distinct(all) && es <= all && Elements(c) <= all
    ensures AreRuns(runs + [c], es + Elements(c))
  {
    var more := runs + [c];
    forall e
      ensures e in es + Elements(c) <==> exists d :: d in more && e in d
    {
      if e in es {
        var d :| d in runs && e in d;
        assert d in more;
      }
      if e in c {
        assert c in more;
      }
    }
    forall i: nat, j: nat | i < j < |more|
      ensures KeysApart(more, i, j)
    {
      if j < |runs| {
        assert KeysApart(runs, i, j);
      } else {
        forall e: Entry, f: Entry | e in more[i] && f in more[j]
          ensures e.key != f.key
        {
          assert more[i] in runs && e in es && f in Elements(c);
        }
      }
    }
  }

  lemma RunsHaveUnion(runs: seq<seq<Entry>>, es: set<Entry>) returns (all: seq<Entry>)
    requires AreRuns(runs, es) && Distinct(es)
    ensures IsUnion(all, runs) && Elements(all) == es
  {
    all := SortedListing(es);
    forall e
      ensures e in all <==> e in es
    {
      assert e in all <==> e in Elements(all);
    }
  }

  /** The entries of the levels above `l`. */
  ghost function EntriesAbove(v: Version, l: nat): set<Entry>
    requires l <= NUM_LEVELS
  {
    set m, t, e | 0 <= m < l && t in v[m] && e in t.entries :: e
  }

  lemma EntriesOneMore(v: Version, l: nat)
    requires l < NUM_LEVELS
    ensures EntriesAbove(v, l + 1) == EntriesAbove(v, l) + TableEntries(v[l])
  {
  }

  lemma EntriesOfAll(v: Version)
    ensures EntriesAbove(v, 0) == {} && EntriesAbove(v, NUM_LEVELS) == VersionEntries(v)
  {
  }

  lemma LevelIsApart(v: Version, l: nat)
    requires ValidVersion(v) && l < NUM_LEVELS
    ensures TableEntries(v[l]) !! EntriesAbove(v, l)
  {
    forall e | e in TableEntries(v[l]) && e in EntriesAbove(v, l)
      ensures false
    {
      var t :| t in v[l] && e in t.entries;
      var m, u :| 0 <= m < l && u in v[m] && e in u.entries;
      EntryInOneTable(v, l, t, m, u, e);
    }
  }

  lemma TableIsApart(v: Version, i: nat)
    requires ValidVersion(v) && i < |v[0]|
    ensures Elements(v[0][i].entries) !! TableEntries(v[0][..i])
    ensures TableEntries(v[0][..i + 1]) == TableEntries(v[0][..i]) + Elements(v[0][i].entries)
  {
    var files := v[0];
    assert files[..i + 1] == files[..i] + [files[i]];
    forall e | e in files[i].entries && e in TableEntries(files[..i])
      ensures false
    {
      var t :| t in files[..i] && e in t.entries;
      var j :| 0 <= j < i && files[j] == t;
      EntryInOneTable(v, 0, files[i], 0, t, e);
      assert Ascends(files, j, i);
      SmallestFirstIsStrictOrder(files[i], files[i], files[i]);
    }
  }

  lemma WholeLevel(files: seq<Table>)
    requires Disjoint(files) && AllWellFormed(files)
    ensures Sorted(Concat(files)) && Elements(Concat(files)) == TableEntries(files)
  {
    ConcatSorted(files);
    forall e
      ensures e in Elements(Concat(files)) <==> e in TableEntries(files)
    {
      ConcatMembers(files, e);
    }
  }

  /** Version::AddIterators: one run per table of level 0, and one per deeper level that has tables. */
  method AddIterators(v: Version, upper: seq<seq<Entry>>, ghost es: set<Entry>, ghost all: set<Entry>)
    returns (runs: seq<seq<Entry>>)
    requires ValidVersion(v) && AreRuns(upper, es) && VersionEntries(v) !! es
    requires Distinct(all) && es + VersionEntries(v) <= all
    ensures AreRuns(runs, es + VersionEntries(v))
  {
    runs := AddLevel0(v, upper, es, all);
    EntriesOneMore(v, 0);
    EntriesOfAll(v);
    hide Distinct, AreRuns, Sorted;
    for l := 1 to NUM_LEVELS
      invariant AreRuns(runs, es + EntriesAbove(v, l))
    {
      EntriesOneMore(v, l);
      LevelIsApart(v, l);
      LevelInVersion(v, l);
      ghost var before := es + EntriesAbove(v, l);
      if v[l] != [] {
        WholeLevel(v[l]);
        AddRun(runs, before, Concat(v[l]), all);
        runs := runs + [Concat(v[l])];
      } else {
        NoEntries();
      }
      assert es + EntriesAbove(v, l + 1) == before + TableEntries(v[l]);
    }
  }

  lemma NoEntries()
    ensures TableEntries([]) == {}
  {
  }

  lemma LevelInVersion(v: Version, l: nat)
    requires l < NUM_LEVELS
    ensures TableEntries(v[l]) <= VersionEntries(v) && EntriesAbove(v, l) <= VersionEntries(v)
  {
  }

  method AddLevel0(v: Version, upper: seq<seq<Entry>>, ghost es: set<Entry>, ghost all: set<Entry>)
    returns (runs: seq<seq<Entry>>)
    requires ValidVersion(v) && AreRuns(upper, es) && VersionEntries(v) !! es
    requires Distinct(all) && es + VersionEntries(v) <= all
    ensures AreRuns(runs, es + TableEntries(v[0]))
  {
    LevelInVersion(v, 0);
    hide Distinct, AreRuns, VersionEntries;
    runs := upper;
    NoEntries();
    assert v[0][..0] == [] && es + {} == es;
    for i := 0 to |v[0]|
      invariant AreRuns(runs, es + TableEntries(v[0][..i]))
    {
      TableIsApart(v, i);
      assert AllWellFormed(v[0]) && v[0][i] in v[0];
      ghost var before := es + TableEntries(v[0][..i]);
      assert Elements(v[0][i].entries) <= TableEntries(v[0]) && TableEntries(v[0][..i]) <= TableEntries(v[0]);
      AddRun(runs, before, v[0][i].entries, all);
      runs := runs + [v[0][i].entries];
      assert before + Elements(v[0][i].entries) == es + TableEntries(v[0][..i + 1]);
    }
    assert v[0][..|v[0]|] == v[0];
  }

  /** What the layers of a sound state have to do with one another. */
  lemma LayersOfState(st: State)
    requires Inv(st)
    ensures ValidVersion(st.version) && Distinct(AllEntries(st)) && Sorted(st.mem)
    ensures Elements(st.mem) !! ImmEntries(st) && VersionEntries(st.version) !! Elements(st.mem) + ImmEntries(st)
    ensures st.imm.Some? ==> Sorted(st.imm.value)
  {
    EntriesAreWrites(st);
    DistinctSubset(AllEntries(st), Elements(st.history));
    LayersAreOrdered(st);
    if st.imm.Some? {
      ImmHoldsItsWrites(st);
    }
  }

  lemma OneRun(c: seq<Entry>)
    requires Sorted(c)
    ensures AreRuns([c], Elements(c))
  {
    assert c in [c];
  }

  /** NewInternalIterator: both memtables and all tables, merged. */
  method NewInternalIterator(mem: seq<Entry>, imm: Option<seq<Entry>>, version: Version, ghost st: State)
    returns (iter: MergingIterator)
    requires Inv(st) && mem == st.mem && imm == st.imm && version == st.version
    ensures fresh(iter) && fresh(iter.children) && iter.Ok()
    ensures Elements(iter.all) == AllEntries(st) && Distinct(AllEntries(st))
  {
    LayersOfState(st);
    hide Inv, Distinct, AreRuns, ValidVersion, Sorted, IsUnion;
    var runs := [mem];
    OneRun(mem);
    ghost var es := Elements(mem);
    if imm.Some? {
      AddRun(runs, es, imm.value, AllEntries(st));
      runs := runs + [imm.value];
    }
    es := es + ImmEntries(st);
    runs := AddIterators(version, runs, es, AllEntries(st));
    assert es + VersionEntries(version) == AllEntries(st);
    ghost var all := RunsHaveUnion(runs, AllEntries(st));
    var children := NewCursors(runs);
    assert seq(|children|, i requires 0 <= i < |children| => children[i].entries) == runs;
    iter := new MergingIterator(children, all);
  }

  /** The iterator shows the map that the history defines at its sequence number. */
  ghost predicate ShowsHistory(it: DBIter, st: State, s: nat) {
    && it.sequence == s && s <= |st.history|
    && forall user, value :: Trusted(st, user, s) ==>
         (HistoryRead(st.history, user, s) == Found(value) <==> Shows(it, user, value))
  }

  ghost predicate Shows(it: DBIter, user: UserKey, value: Value) {
    exists i: nat :: IsShown(it.iter.all, it.sequence, i) && it.iter.all[i].key.user == user
                     && it.iter.all[i].value == value
  }

  /** DBImpl::NewIterator: what it shows is exactly the visible part of the history. */
  method NewIterator(mem: seq<Entry>, imm: Option<seq<Entry>>, version: Version, s: nat, ghost st: State)
    returns (it: DBIter)
    requires Inv(st) && mem == st.mem && imm == st.imm && version == st.version && Readable(st, s)
    ensures fresh(it) && fresh(it.iter) && fresh(it.iter.children) && it.Ok() && !it.valid
    ensures ShowsHistory(it, st, s)
  {
    hide Inv, Distinct, AllEntries, HistoryRead, IsShown, Trusted, Readable;
    var iter := NewInternalIterator(mem, imm, version, st);
    it := new DBIter(iter, s);
    iter.StandsAtEntry();
    ReadableIsWritten(st, s);
    forall user, value | Trusted(st, user, s)
      ensures HistoryRead(st.history, user, s) == Found(value) <==> Shows(it, user, value)
    {
      IterationIsHistory(st, iter.all, s, user, value);
    }
  }

  lemma ReadableIsWritten(st: State, s: nat)
    requires Inv(st) && Readable(st, s)
    ensures s <= |st.history|
  {
    InsertedBounds(st);
  }
}
