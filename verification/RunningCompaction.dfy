/**
 A memtable is flushed while a compaction is merging (DBImpl::DoCompactionWork calls
 CompactMemTable, db/db_impl.cc): exactly when the compaction can still be installed in the
 version that the flush leaves behind.
 */
module RunningCompaction {
  import opened Optional
  import opened InternalKeys
  import opened ReadSpec
  import opened Versions
  import opened CompactionSetup
  import opened CompactionMerge
  import opened VersionBuilder
  import opened Installing
  import opened Flushing
  import opened CompactionReads
  import opened Unbroken

  /** Two or more levels down, both versions span the same keys of the inputs. */
  ghost predicate SameBases(base: Version, v: Version, p: Plan) {
    forall e :: e in InputEntries(p) ==> (IsBase(base, p.level, e.key.user) <==> IsBase(v, p.level, e.key.user))
  }

  /** A compaction that started from version `base` can be installed in `v`. */
  ghost predicate FitsIn(base: Version, v: Version, p: Plan) {
    MergeableInputs(v, p.level, p.inputs0, p.inputs1) && SameBases(base, v, p)
  }

  /** No user key of an input is in the range of a table that may be flushed below the inputs. */
  lemma FlushedBelowIsApart(v: Version, p: Plan, level: nat, t: Table, f: Table)
    requires TablesWellFormed(v) && MergeableInputs(v, p.level, p.inputs0, p.inputs1) && MayFlush(v, level, t)
    requires level >= p.level + 1 && f in p.inputs0 + p.inputs1
    ensures Largest(f).user < Smallest(t).user || Largest(t).user < Smallest(f).user
    ensures NoSharedUser(t, f) && forall e :: e in f.entries ==> !SpansUser(t, e.key.user)
  {
    var l := if f in p.inputs0 then p.level else p.level + 1;
    assert f in v[l] && AllWellFormed(v[l]);
    assert RangeIsClear(v[l], Some(Smallest(t).user), Some(Largest(t).user));
    forall e | e in f.entries
      ensures !SpansUser(t, e.key.user)
    {
      EntryInRange(f, e);
    }
    forall e, g | e in t.entries && g in f.entries
      ensures e.key.user != g.key.user
    {
      EntryInRange(t, e);
    }
  }

  /** A flush changes nothing about which keys of the inputs have data further down. */
  lemma FlushKeepsBases(base: Version, v: Version, p: Plan, level: nat, t: Table)
    requires ValidVersion(v) && FitsIn(base, v, p) && MayFlush(v, level, t)
    ensures SameBases(base, Install(v, FlushEdit(level, t)), p)
  {
    var v' := Install(v, FlushEdit(level, t));
    FlushIsValid(v, level, t);
    forall e | e in InputEntries(p)
      ensures IsBase(v', p.level, e.key.user) <==> IsBase(v, p.level, e.key.user)
    {
      var f :| f in p.inputs0 + p.inputs1 && e in f.entries;
      if level >= p.level + 2 {
        FlushedBelowIsApart(v, p, level, t, f);
      }
      BaseAfterFlush(v, v', p.level, level, t, e.key.user);
    }
  }

  lemma BaseAfterFlush(v: Version, v': Version, compacted: nat, level: nat, t: Table, user: UserKey)
    requires level < NUM_LEVELS
    requires forall l, u :: 0 <= l < NUM_LEVELS ==> (u in v'[l] <==> u in v[l] || (l == level && u == t))
    requires level >= compacted + 2 ==> !SpansUser(t, user)
    ensures IsBase(v', compacted, user) <==> IsBase(v, compacted, user)
  {
  }

  /** Whatever level the flush goes to, the running compaction can still be installed. */
  lemma FlushKeepsFit(base: Version, v: Version, p: Plan, level: nat, t: Table)
    requires ValidVersion(v) && FitsIn(base, v, p) && MayFlush(v, level, t)
    ensures FitsIn(base, Install(v, FlushEdit(level, t)), p)
  {
    FlushIsValid(v, level, t);
    FlushKeepsBases(base, v, p, level, t);
    ValidIsWellFormed(v);
    hide SameBases, ValidVersion;
    if level == p.level + 1 {
      forall f | f in p.inputs0 + p.inputs1
        ensures NoSharedUser(t, f)
      {
        FlushedBelowIsApart(v, p, level, t, f);
      }
    }
  }

  /**
   A table is flushed to the output level of a compaction that is merging.  Once the outputs are
   installed the version is in order if and only if each of them lies wholly before or wholly
   after that table and whatever else stays at the level.
   */
  lemma FlushThenInstallIff(v: Version, p: Plan, t: Table, outs: seq<Table>)
    requires ValidVersion(v) && SafeInputs(v, p.level, p.inputs0, p.inputs1) && MayFlush(v, p.level + 1, t)
    requires AreOutputs(v, p, outs) && forall o :: o in outs ==> o.number != t.number
    ensures ValidVersion(Install(Install(v, FlushEdit(p.level + 1, t)), ReplaceEdit(p, outs))) <==>
            forall o :: o in outs ==> Apart(o, t)
  {
    hide ValidVersion, FitsIn, SafeInputs, MayFlush, AreOutputs, Install, FlushEdit, ReplaceEdit, OutputsFit;
    var v' := Install(v, FlushEdit(p.level + 1, t));
    ValidIsWellFormed(v);
    FlushIsValid(v, p.level + 1, t);
    SameBasesAsBefore(v, p);
    FlushKeepsFit(v, v, p, p.level + 1, t);
    FitIsMergeable(v, v', p);
    SafeOutputsFit(v, p, outs);
    OutputsBesideFlushed(v, v', p, t, outs);
    ReplaceIsValidIff(v', p, outs);
  }

  lemma FitIsMergeable(base: Version, v: Version, p: Plan)
    requires FitsIn(base, v, p)
    ensures MergeableInputs(v, p.level, p.inputs0, p.inputs1)
  {
    hide SameBases, MergeableInputs;
  }

  lemma OutputsBesideFlushed(v: Version, v': Version, p: Plan, t: Table, outs: seq<Table>)
    requires SafeInputs(v, p.level, p.inputs0, p.inputs1) && MayFlush(v, p.level + 1, t)
    requires forall l, u :: 0 <= l < NUM_LEVELS ==> (u in v'[l] <==> u in v[l] || (l == p.level + 1 && u == t))
    requires AreOutputs(v, p, outs) && (forall o :: o in outs ==> o.number != t.number) && OutputsFit(v, p, outs)
    ensures AreOutputs(v', p, outs) && (OutputsFit(v', p, outs) <==> forall o :: o in outs ==> Apart(o, t))
  {
    hide Less, WellFormed, DrawsFrom, NewerThan, NewerLeftBehind, ParentsForeign, ParentsOutside, ClearDownTo;
    var l := p.level + 1;
    assert t !in p.inputs1 && Remains(v', p, l, t);
    if OutputsFit(v', p, outs) {
      forall o | o in outs
        ensures Apart(o, t)
      {
        assert Apart(t, o);
      }
    }
    if forall o :: o in outs ==> Apart(o, t) {
      forall h, o | h in v'[l] && Remains(v', p, l, h) && o in outs
        ensures Apart(h, o)
      {
        assert h != t ==> Remains(v, p, l, h);
        assert Apart(o, t);
      }
    }
  }

  lemma SameBasesAsBefore(v: Version, p: Plan)
    requires SafeInputs(v, p.level, p.inputs0, p.inputs1)
    ensures FitsIn(v, v, p)
  {
  }

  lemma ValidIsWellFormed(v: Version)
    requires ValidVersion(v)
    ensures TablesWellFormed(v)
  {
  }

  /** Inputs that hang together leave no room for a flush between them. */
  lemma NoRoomBetween(v: Version, p: Plan, level: nat, t: Table)
    requires TablesWellFormed(v) && MergeableInputs(v, p.level, p.inputs0, p.inputs1) && MayFlush(v, level, t)
    requires HangTogether(p.inputs0 + p.inputs1) && level == p.level + 1
    ensures OutsideHull(t, p.inputs0 + p.inputs1)
  {
    var inputs := p.inputs0 + p.inputs1;
    SmallestAtMostLargest(t);
    forall f | f in inputs
      ensures Largest(f).user < Smallest(t).user || Largest(t).user < Smallest(f).user
    {
      FlushedBelowIsApart(v, p, level, t, f);
    }
    assert RangeIsClear(inputs, Some(Smallest(t).user), Some(Largest(t).user));
    assert AllAbove(inputs, Largest(t).user) || AllBelow(inputs, Smallest(t).user);
  }

  lemma SafeHasLevels(v: Version, p: Plan)
    requires SafeInputs(v, p.level, p.inputs0, p.inputs1)
    ensures p.level + 1 < NUM_LEVELS && MergeableInputs(v, p.level, p.inputs0, p.inputs1)
  {
  }

  /** So that a flush leaves such inputs as safe to replace as they were. */
  lemma FlushKeepsSafe(v: Version, p: Plan, level: nat, t: Table)
    requires ValidVersion(v) && SafeInputs(v, p.level, p.inputs0, p.inputs1) && MayFlush(v, level, t)
    requires HangTogether(p.inputs0 + p.inputs1)
    ensures SafeInputs(Install(v, FlushEdit(level, t)), p.level, p.inputs0, p.inputs1)
  {
    hide HangTogether, MergeableInputs, ValidVersion, FitsIn, MayFlush, OutsideHull;
    ValidIsWellFormed(v);
    SafeHasLevels(v, p);
    SameBasesAsBefore(v, p);
    FlushKeepsFit(v, v, p, level, t);
    FlushIsValid(v, level, t);
    if level == p.level + 1 {
      NoRoomBetween(v, p, level, t);
    }
    var v' := Install(v, FlushEdit(level, t));
    FitIsMergeable(v, v', p);
    var l := p.level + 1;
    assert forall h :: h in v'[l] ==> h in v[l] || (l == level && h == t);
  }

  /** The merge keeps the same entries by either version. */
  lemma {:induction false} SameKept(base: Version, v: Version, p: Plan, input: seq<Entry>, snap: nat, n: nat)
    requires SameBases(base, v, p) && Elements(input) == InputEntries(p) && n <= |input|
    ensures Kept(base, p.level, input, snap, n) == Kept(v, p.level, input, snap, n)
  {
    if n > 0 {
      SameKept(base, v, p, input, snap, n - 1);
      assert input[n - 1] in Elements(input);
    }
  }

  /** A merge by the version the compaction started from is a merge for the version it is installed in. */
  lemma CompactionFits(base: Version, v: Version, p: Plan, input: seq<Entry>, snap: nat, outs: seq<Table>)
    requires IsCompaction(base, p, input, snap, outs) && FitsIn(base, v, p)
    requires forall t, l, u :: t in outs && 0 <= l < NUM_LEVELS && u in v[l] ==> t.number != u.number
    ensures IsCompaction(v, p, input, snap, outs)
  {
    SameKept(base, v, p, input, snap, |input|);
  }
}
