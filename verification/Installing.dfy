/**
 Why a version stays valid when the result of a flush, a trivial move or a compaction is
 installed (VersionSet::LogAndApply, db/version_set.cc).
 */
module Installing {
  import opened InternalKeys
  import opened ReadSpec
  import opened Versions
  import opened VersionBuilder
  import opened CompactionSetup

  ghost predicate Apart(a: Table, b: Table) {
    Less(Largest(a), Smallest(b)) || Less(Largest(b), Smallest(a))
  }

  ghost predicate PairwiseApart(files: seq<Table>) {
    forall a, b :: a in files && b in files && a != b ==> Apart(a, b)
  }

  lemma PairwiseApartIsDisjoint(files: seq<Table>)
    requires InBuilderOrder(files) && PairwiseApart(files) && AllWellFormed(files)
    ensures Disjoint(files)
  {
    forall i: nat, j: nat | i < j < |files|
      ensures Precedes(files, i, j)
    {
      assert Ascends(files, i, j);
      SmallestFirstIsStrictOrder(files[i], files[j], files[i]);
      assert Apart(files[i], files[j]);
      ApartInOrder(files[i], files[j]);
    }
  }

  lemma ApartInOrder(a: Table, b: Table)
    requires Apart(a, b) && SmallestFirst(a, b) && WellFormed(a) && WellFormed(b)
    ensures Less(Largest(a), Smallest(b))
  {
    SmallestAtMostLargest(a);
    SmallestAtMostLargest(b);
  }

  lemma DisjointIsPairwiseApart(files: seq<Table>)
    requires Disjoint(files)
    ensures PairwiseApart(files)
  {
    forall a, b | a in files && b in files && a != b
      ensures Apart(a, b)
    {
      var i :| 0 <= i < |files| && files[i] == a;
      var j :| 0 <= j < |files| && files[j] == b;
      if i < j {
        assert Precedes(files, i, j);
      } else {
        assert Precedes(files, j, i);
      }
    }
  }

  lemma DisjointInBuilderOrder(files: seq<Table>)
    requires Disjoint(files) && AllWellFormed(files)
    ensures InBuilderOrder(files)
  {
    forall i: nat, j: nat | i < j < |files|
      ensures Ascends(files, i, j)
    {
      DisjointLargest(files, i, j);
    }
  }

  lemma LevelInBuilderOrder(v: Version, l: nat)
    requires ValidVersion(v) && l < NUM_LEVELS
    ensures InBuilderOrder(v[l])
  {
    if l > 0 {
      DisjointInBuilderOrder(v[l]);
    }
  }

  /** The edit adds no file number that stays at the same level. */
  ghost predicate AddsNewNumbers(v: Version, e: Edit) {
    && ValidEdit(e) && AddsOnce(e.added)
    && forall l, t, p :: 0 <= l < NUM_LEVELS && t in v[l] && p in e.added && p.0 == l ==> t.number != p.1.number
  }

  lemma InstalledOrder(v: Version, e: Edit, l: nat)
    requires ValidVersion(v) && AddsNewNumbers(v, e) && l < NUM_LEVELS
    ensures InBuilderOrder(Install(v, e)[l])
    ensures forall t :: t in Install(v, e)[l] <==> InstalledAt(v[l], e, l, t)
  {
    LevelInBuilderOrder(v, l);
    WithoutInOrder(v[l], e.deleted, l);
    WithoutMembers(v[l], e.deleted, l);
    InsertAllInOrder(Without(v[l], e.deleted, l), e.added, l);
    InstallMembers(v[l], e, l);
  }

  /** The invariants of the new version, table by table. */
  ghost predicate PairOk(l: nat, a: Table, m: nat, b: Table) {
    && (l < m ==> NewerThan(a, b))
    && (l == m == 0 && a.number > b.number ==> NewerThan(a, b))
    && (l == m && l > 0 && a != b ==> Apart(a, b))
    && (a.number == b.number ==> l == m && a == b)
  }

  ghost predicate AllPairsOk(v: Version, e: Edit) {
    forall l: nat, m: nat, a, b {:trigger PairOk(l, a, m, b)} ::
      l < NUM_LEVELS && m < NUM_LEVELS && InstalledAt(v[l], e, l, a) && InstalledAt(v[m], e, m, b) ==>
        PairOk(l, a, m, b)
  }

  lemma ValidPair(v: Version, l: nat, a: Table, m: nat, b: Table)
    requires ValidVersion(v) && l < NUM_LEVELS && m < NUM_LEVELS && a in v[l] && b in v[m]
    ensures PairOk(l, a, m, b)
  {
    assert Identified(v, l, a, m, b);
    if l < m {
      assert InOrder(v, l, a, m, b);
    } else if l == m && l > 0 {
      DisjointIsPairwiseApart(v[l]);
    }
  }

  lemma InstallIsValid(v: Version, e: Edit)
    requires ValidVersion(v) && AddsNewNumbers(v, e) && AllPairsOk(v, e)
    requires forall p :: p in e.added ==> WellFormed(p.1)
    ensures ValidVersion(Install(v, e))
  {
    var v' := Install(v, e);
    forall l | 0 <= l < NUM_LEVELS
      ensures AllWellFormed(v'[l]) && InBuilderOrder(v'[l])
      ensures forall t :: t in v'[l] ==> InstalledAt(v[l], e, l, t)
    {
      InstalledOrder(v, e, l);
    }
    forall l | 1 <= l < NUM_LEVELS
      ensures Disjoint(v'[l])
    {
      forall a, b | a in v'[l] && b in v'[l] && a != b
        ensures Apart(a, b)
      {
        assert PairOk(l, a, l, b);
      }
      PairwiseApartIsDisjoint(v'[l]);
    }
    forall l: nat, m: nat, a, b | l < m < NUM_LEVELS && a in v'[l] && b in v'[m]
      ensures InOrder(v', l, a, m, b)
    {
      assert PairOk(l, a, m, b);
    }
    forall l: nat, m: nat, a, b | l < NUM_LEVELS && m < NUM_LEVELS && a in v'[l] && b in v'[m]
      ensures Identified(v', l, a, m, b)
    {
      assert PairOk(l, a, m, b);
    }
    forall a, b | a in v'[0] && b in v'[0] && a.number > b.number
      ensures NewerThan(a, b)
    {
      assert PairOk(0, a, 0, b);
    }
  }

  // ----- replacing inputs by outputs: compaction and trivial move

  ghost predicate DrawsFrom(t: Table, inputs: seq<Table>) {
    forall e :: e in t.entries ==> exists f :: f in inputs && e in f.entries
  }

  function DeletionsOf(files: seq<Table>, level: nat): set<(nat, nat)> {
    set t | t in files :: (level, t.number)
  }

  function AtLevel(files: seq<Table>, level: nat): seq<(nat, Table)> {
    seq(|files|, i requires 0 <= i < |files| => (level, files[i]))
  }

  /** Delete the inputs, add the outputs one level down. */
  function ReplaceEdit(p: Plan, outs: seq<Table>): Edit {
    Edit(DeletionsOf(p.inputs0, p.level) + DeletionsOf(p.inputs1, p.level + 1), AtLevel(outs, p.level + 1))
  }

  /** The outputs hold input entries only, are apart, and carry numbers no remaining table has. */
  ghost predicate AreOutputs(v: Version, p: Plan, outs: seq<Table>)
    requires p.level + 1 < NUM_LEVELS
  {
    && (forall t :: t in outs ==> WellFormed(t) && DrawsFrom(t, p.inputs0 + p.inputs1))
    && PairwiseApart(outs)
    && (forall i, j :: 0 <= i < j < |outs| ==> outs[i].number != outs[j].number)
    && (forall t, l, u :: t in outs && 0 <= l < NUM_LEVELS && u in v[l] && t.number == u.number ==>
          l == p.level && u in p.inputs0)
  }

  ghost predicate Remains(v: Version, p: Plan, l: nat, t: Table)
    requires l < NUM_LEVELS
  {
    t in v[l] && !(l == p.level && t in p.inputs0) && !(l == p.level + 1 && t in p.inputs1)
  }

  lemma AtLevelMembers(outs: seq<Table>, level: nat)
    ensures forall l, t :: (l, t) in AtLevel(outs, level) <==> l == level && t in outs
  {
    forall t | t in outs
      ensures (level, t) in AtLevel(outs, level)
    {
      var i :| 0 <= i < |outs| && outs[i] == t;
      assert AtLevel(outs, level)[i] == (level, t);
    }
  }

  lemma ReplacedMembers(v: Version, p: Plan, outs: seq<Table>, l: nat, t: Table)
    requires ValidVersion(v) && MergeableInputs(v, p.level, p.inputs0, p.inputs1) && l < NUM_LEVELS
    ensures InstalledAt(v[l], ReplaceEdit(p, outs), l, t) <==>
            Remains(v, p, l, t) || (l == p.level + 1 && t in outs)
  {
    AtLevelMembers(outs, p.level + 1);
    if t in v[l] {
      if (l, t.number) in DeletionsOf(p.inputs0, p.level) {
        var u :| u in p.inputs0 && u.number == t.number;
        assert Identified(v, l, t, p.level, u);
      }
      if (l, t.number) in DeletionsOf(p.inputs1, p.level + 1) {
        var u :| u in p.inputs1 && u.number == t.number;
        assert Identified(v, l, t, p.level + 1, u);
      }
    }
  }

  /** What stands above the inputs stands above an output. */
  lemma NewerThanOutput(a: Table, out: Table, inputs: seq<Table>)
    requires DrawsFrom(out, inputs) && forall f :: f in inputs ==> NewerThan(a, f)
    ensures NewerThan(a, out)
  {
    forall e, g | e in a.entries && g in out.entries && e.key.user == g.key.user
      ensures e.key.sequence > g.key.sequence
    {
      var f :| f in inputs && g in f.entries;
    }
  }

  lemma OutputNewerThan(out: Table, b: Table, inputs: seq<Table>)
    requires DrawsFrom(out, inputs) && forall f :: f in inputs ==> NewerThan(f, b)
    ensures NewerThan(out, b)
  {
    forall e, g | e in out.entries && g in b.entries && e.key.user == g.key.user
      ensures e.key.sequence > g.key.sequence
    {
      var f :| f in inputs && e in f.entries;
    }
  }

  /** Bounds that every input keeps, an output keeps. */
  lemma OutputWithin(out: Table, inputs: seq<Table>) returns (f: Table, g: Table)
    requires DrawsFrom(out, inputs) && forall f :: f in inputs ==> WellFormed(f)
    ensures f in inputs && AtMost(Smallest(f), Smallest(out))
    ensures g in inputs && AtMost(Largest(out), Largest(g))
  {
    var first, last := out.entries[0], out.entries[|out.entries| - 1];
    assert first in out.entries && last in out.entries;
    f :| f in inputs && first in f.entries;
    g :| g in inputs && last in g.entries;
    EntryInRange(f, first);
    EntryInRange(g, last);
  }

  lemma OutputApart(out: Table, h: Table, inputs: seq<Table>)
    requires DrawsFrom(out, inputs) && OutsideHull(h, inputs) && forall f :: f in inputs ==> WellFormed(f)
    ensures Apart(h, out)
  {
    var f, g := OutputWithin(out, inputs);
    if Less(Largest(h), Smallest(f)) {
      LessIsStrictOrder(Largest(h), Smallest(f), Smallest(out));
    } else {
      LessIsStrictOrder(Largest(out), Largest(g), Smallest(h));
    }
  }

  lemma OldAboveOutput(v: Version, p: Plan, out: Table, l: nat, a: Table)
    requires ValidVersion(v) && MergeableInputs(v, p.level, p.inputs0, p.inputs1)
    requires DrawsFrom(out, p.inputs0 + p.inputs1) && l <= p.level && Remains(v, p, l, a)
    ensures NewerThan(a, out)
  {
    forall f | f in p.inputs0 + p.inputs1
      ensures NewerThan(a, f)
    {
      if f in p.inputs1 {
        assert InOrder(v, l, a, p.level + 1, f);
      } else if l < p.level {
        assert InOrder(v, l, a, p.level, f);
      }
    }
    NewerThanOutput(a, out, p.inputs0 + p.inputs1);
  }

  lemma OutputAboveOld(v: Version, p: Plan, out: Table, m: nat, b: Table)
    requires ValidVersion(v) && MergeableInputs(v, p.level, p.inputs0, p.inputs1)
    requires DrawsFrom(out, p.inputs0 + p.inputs1) && p.level + 1 < m < NUM_LEVELS && b in v[m]
    ensures NewerThan(out, b)
  {
    forall f | f in p.inputs0 + p.inputs1
      ensures NewerThan(f, b)
    {
      if f in p.inputs0 {
        assert InOrder(v, p.level, f, m, b);
      } else {
        assert InOrder(v, p.level + 1, f, m, b);
      }
    }
    OutputNewerThan(out, b, p.inputs0 + p.inputs1);
  }

  lemma InputsWellFormed(v: Version, p: Plan)
    requires TablesWellFormed(v) && MergeableInputs(v, p.level, p.inputs0, p.inputs1)
    ensures forall f :: f in p.inputs0 + p.inputs1 ==> WellFormed(f)
  {
    assert AllWellFormed(v[p.level]) && AllWellFormed(v[p.level + 1]);
  }

  /** No output overlaps a table that remains at its level. */
  ghost predicate OutputsFit(v: Version, p: Plan, outs: seq<Table>)
    requires p.level + 1 < NUM_LEVELS
  {
    forall h, out :: Remains(v, p, p.level + 1, h) && out in outs ==> Apart(h, out)
  }

  /** Outputs of inputs that everything else at the next level is outside of. */
  lemma SafeOutputsFit(v: Version, p: Plan, outs: seq<Table>)
    requires TablesWellFormed(v) && SafeInputs(v, p.level, p.inputs0, p.inputs1) && AreOutputs(v, p, outs)
    ensures OutputsFit(v, p, outs)
  {
    InputsWellFormed(v, p);
    forall h, out | Remains(v, p, p.level + 1, h) && out in outs
      ensures Apart(h, out)
    {
      OutputApart(out, h, p.inputs0 + p.inputs1);
    }
  }

  lemma OldAndOutput(v: Version, p: Plan, outs: seq<Table>, l: nat, a: Table, out: Table)
    requires ValidVersion(v) && MergeableInputs(v, p.level, p.inputs0, p.inputs1) && AreOutputs(v, p, outs)
    requires OutputsFit(v, p, outs)
    requires l < NUM_LEVELS && Remains(v, p, l, a) && out in outs
    ensures PairOk(l, a, p.level + 1, out) && PairOk(p.level + 1, out, l, a)
  {
    if l <= p.level {
      OldAboveOutput(v, p, out, l, a);
    } else if l == p.level + 1 {
      assert Apart(a, out);
    } else {
      OutputAboveOld(v, p, out, l, a);
    }
  }

  lemma SameNumberSameOutput(outs: seq<Table>, a: Table, b: Table)
    requires forall i, j :: 0 <= i < j < |outs| ==> outs[i].number != outs[j].number
    requires a in outs && b in outs && a.number == b.number
    ensures a == b
  {
    var i :| 0 <= i < |outs| && outs[i] == a;
    var j :| 0 <= j < |outs| && outs[j] == b;
  }

  /** Which tables a compaction or a trivial move leaves in the version. */
  lemma ReplacedTables(v: Version, p: Plan, outs: seq<Table>)
    requires ValidVersion(v) && MergeableInputs(v, p.level, p.inputs0, p.inputs1) && AreOutputs(v, p, outs)
    ensures AddsNewNumbers(v, ReplaceEdit(p, outs))
    ensures forall l, t :: 0 <= l < NUM_LEVELS ==>
              (t in Install(v, ReplaceEdit(p, outs))[l] <==> Remains(v, p, l, t) || (l == p.level + 1 && t in outs))
  {
    var e := ReplaceEdit(p, outs);
    AtLevelMembers(outs, p.level + 1);
    assert AddsNewNumbers(v, e);
    forall l: nat, t | l < NUM_LEVELS
      ensures t in Install(v, e)[l] <==> Remains(v, p, l, t) || (l == p.level + 1 && t in outs)
    {
      InstalledOrder(v, e, l);
      ReplacedMembers(v, p, outs, l, t);
    }
  }

  /** Invariants (a), (b) and (c) survive a compaction or a trivial move whose outputs fit. */
  lemma ReplaceIsValid(v: Version, p: Plan, outs: seq<Table>)
    requires ValidVersion(v) && MergeableInputs(v, p.level, p.inputs0, p.inputs1) && AreOutputs(v, p, outs)
    requires OutputsFit(v, p, outs)
    ensures ValidVersion(Install(v, ReplaceEdit(p, outs)))
  {
    var e := ReplaceEdit(p, outs);
    ReplacedTables(v, p, outs);
    AtLevelMembers(outs, p.level + 1);
    forall l: nat, m: nat, a, b |
      l < NUM_LEVELS && m < NUM_LEVELS && InstalledAt(v[l], e, l, a) && InstalledAt(v[m], e, m, b)
      ensures PairOk(l, a, m, b)
    {
      ReplacedMembers(v, p, outs, l, a);
      ReplacedMembers(v, p, outs, m, b);
      if Remains(v, p, l, a) {
        if Remains(v, p, m, b) {
          ValidPair(v, l, a, m, b);
        } else {
          OldAndOutput(v, p, outs, l, a, b);
        }
      } else if Remains(v, p, m, b) {
        OldAndOutput(v, p, outs, m, b, a);
      } else if a.number == b.number {
        SameNumberSameOutput(outs, a, b);
      }
    }
    InstallIsValid(v, e);
  }

  /** Exactly when a compaction or a trivial move leaves a version whose tables are in order. */
  lemma ReplaceIsValidIff(v: Version, p: Plan, outs: seq<Table>)
    requires ValidVersion(v) && MergeableInputs(v, p.level, p.inputs0, p.inputs1) && AreOutputs(v, p, outs)
    ensures ValidVersion(Install(v, ReplaceEdit(p, outs))) <==> OutputsFit(v, p, outs)
  {
    if OutputsFit(v, p, outs) {
      ReplaceIsValid(v, p, outs);
    }
    if ValidVersion(Install(v, ReplaceEdit(p, outs))) {
      InstalledOutputsFit(v, p, outs);
    }
  }

  lemma InstalledOutputsFit(v: Version, p: Plan, outs: seq<Table>)
    requires ValidVersion(v) && MergeableInputs(v, p.level, p.inputs0, p.inputs1) && AreOutputs(v, p, outs)
    requires ValidVersion(Install(v, ReplaceEdit(p, outs)))
    ensures OutputsFit(v, p, outs)
  {
    hide WellFormed, DrawsFrom, Disjoint, NewerAbove, UniqueNumbers, PairwiseApart;
    var files := Install(v, ReplaceEdit(p, outs))[p.level + 1];
    ReplacedTables(v, p, outs);
    DisjointIsPairwiseApart(files);
    forall h, out | Remains(v, p, p.level + 1, h) && out in outs
      ensures Apart(h, out)
    {
      assert h in files && out in files && h.number != out.number;
    }
  }

  // ----- edits in general

  /** Nothing the edit adds below level 0 overlaps a table that stays at that level. */
  ghost predicate EditFits(v: Version, e: Edit) {
    forall l, t, u {:trigger AddedAt(e, l, t), u in v[l]} ::
      1 <= l < NUM_LEVELS && AddedAt(e, l, t) && u in v[l] && (l, u.number) !in e.deleted ==> Apart(u, t)
  }

  lemma ReplaceEditFitsIff(v: Version, p: Plan, outs: seq<Table>)
    requires ValidVersion(v) && MergeableInputs(v, p.level, p.inputs0, p.inputs1)
    ensures EditFits(v, ReplaceEdit(p, outs)) <==> OutputsFit(v, p, outs)
  {
    var e := ReplaceEdit(p, outs);
    AtLevelMembers(outs, p.level + 1);
    forall h
      ensures Remains(v, p, p.level + 1, h) <==> h in v[p.level + 1] && (p.level + 1, h.number) !in e.deleted
    {
      NotDeletedIff(v, p, outs, h);
    }
    if EditFits(v, e) {
      forall h, out | Remains(v, p, p.level + 1, h) && out in outs
        ensures Apart(h, out)
      {
        assert AddedAt(e, p.level + 1, out);
      }
    }
  }

  lemma NotDeletedIff(v: Version, p: Plan, outs: seq<Table>, h: Table)
    requires ValidVersion(v) && MergeableInputs(v, p.level, p.inputs0, p.inputs1)
    ensures Remains(v, p, p.level + 1, h) <==>
            h in v[p.level + 1] && (p.level + 1, h.number) !in ReplaceEdit(p, outs).deleted
  {
    var l := p.level + 1;
    if h in v[l] && (l, h.number) in DeletionsOf(p.inputs1, l) {
      var u :| u in p.inputs1 && u.number == h.number;
      assert Identified(v, l, h, l, u);
    }
  }
}
