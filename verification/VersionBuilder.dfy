/**
 Version edits and VersionSet::Builder (db/version_set.cc): accumulating the deletions and
 additions of several edits and merging them with a base version in one pass.
 */
module VersionBuilder {
  import opened InternalKeys
  import opened ReadSpec
  import opened Versions

  /** Deleted (level, file number) pairs, and added tables with their levels. */
  datatype Edit = Edit(deleted: set<(nat, nat)>, added: seq<(nat, Table)>)

  ghost predicate ValidEdit(e: Edit) {
    && (forall p :: p in e.deleted ==> p.0 < NUM_LEVELS)
    && (forall p :: p in e.added ==> p.0 < NUM_LEVELS)
  }

  // ----- installing one edit

  function Without(files: seq<Table>, deleted: set<(nat, nat)>, level: nat): seq<Table> {
    if files == [] then []
    else (if (level, files[0].number) in deleted then [] else [files[0]]) + Without(files[1..], deleted, level)
  }

  /** Put a table in its place in builder order. */
  function Insert(files: seq<Table>, t: Table): seq<Table> {
    if files == [] then [t]
    else if SmallestFirst(t, files[0]) then [t] + files
    else [files[0]] + Insert(files[1..], t)
  }

  function InsertAll(files: seq<Table>, added: seq<(nat, Table)>, level: nat): seq<Table> {
    if added == [] then files
    else
      var (l, t) := added[|added| - 1];
      var front := InsertAll(files, added[..|added| - 1], level);
      if l == level then Insert(front, t) else front
  }

  /** Remove the deleted tables of one level, then add the new ones. */
  function InstallLevel(files: seq<Table>, e: Edit, level: nat): seq<Table> {
    InsertAll(Without(files, e.deleted, level), e.added, level)
  }

  function Install(v: Version, e: Edit): Version {
    seq(NUM_LEVELS, l requires 0 <= l < NUM_LEVELS => InstallLevel(v[l], e, l))
  }

  ghost predicate AddedAt(e: Edit, level: nat, t: Table) {
    (level, t) in e.added
  }

  ghost predicate InstalledAt(files: seq<Table>, e: Edit, level: nat, t: Table) {
    (t in files && (level, t.number) !in e.deleted) || AddedAt(e, level, t)
  }

  lemma {:induction false} WithoutMembers(files: seq<Table>, deleted: set<(nat, nat)>, level: nat)
    ensures forall t :: t in Without(files, deleted, level) <==> t in files && (level, t.number) !in deleted
  {
    if files != [] {
      WithoutMembers(files[1..], deleted, level);
      assert files == [files[0]] + files[1..];
    }
  }

  lemma {:induction false} InsertMembers(files: seq<Table>, t: Table)
    ensures forall u :: u in Insert(files, t) <==> u in files || u == t
  {
    if files != [] {
      InsertMembers(files[1..], t);
      assert files == [files[0]] + files[1..];
    }
  }

  lemma {:induction false} InsertAllMembers(files: seq<Table>, added: seq<(nat, Table)>, level: nat)
    ensures forall t :: t in InsertAll(files, added, level) <==> t in files || (level, t) in added
  {
    if added != [] {
      var n := |added| - 1;
      InsertAllMembers(files, added[..n], level);
      InsertMembers(InsertAll(files, added[..n], level), added[n].1);
      assert added == added[..n] + [added[n]];
    }
  }

  lemma InstallMembers(files: seq<Table>, e: Edit, level: nat)
    ensures forall t :: t in InstallLevel(files, e, level) <==> InstalledAt(files, e, level, t)
  {
    WithoutMembers(files, e.deleted, level);
    InsertAllMembers(Without(files, e.deleted, level), e.added, level);
  }

  // ----- builder order

  lemma SmallestFirstIsStrictOrder(a: Table, b: Table, c: Table)
    ensures !SmallestFirst(a, a)
    ensures SmallestFirst(a, b) && SmallestFirst(b, c) ==> SmallestFirst(a, c)
  {
    LessIsStrictOrder(Smallest(a), Smallest(b), Smallest(c));
  }

  /** Comparable one way or the other: not the same smallest key with the same number. */
  predicate Comparable(a: Table, b: Table) {
    SmallestFirst(a, b) || SmallestFirst(b, a)
  }

  lemma DistinctAreComparable(a: Table, b: Table)
    requires a.number != b.number
    ensures Comparable(a, b)
  {
    LessIsStrictOrder(Smallest(a), Smallest(b), Smallest(a));
  }

  lemma OrderTail(files: seq<Table>)
    requires files != [] && InBuilderOrder(files)
    ensures InBuilderOrder(files[1..])
    ensures forall t :: t in files[1..] ==> SmallestFirst(files[0], t)
  {
    forall i: nat, j: nat | i < j < |files| - 1
      ensures Ascends(files[1..], i, j)
    {
      assert Ascends(files, i + 1, j + 1);
    }
    forall t | t in files[1..]
      ensures SmallestFirst(files[0], t)
    {
      var j :| 0 <= j < |files| - 1 && files[1..][j] == t;
      assert Ascends(files, 0, j + 1);
    }
  }

  lemma OrderCons(t: Table, files: seq<Table>)
    requires InBuilderOrder(files) && forall u :: u in files ==> SmallestFirst(t, u)
    ensures InBuilderOrder([t] + files)
  {
    forall i: nat, j: nat | i < j < |files| + 1
      ensures Ascends([t] + files, i, j)
    {
      if i == 0 {
        assert files[j - 1] in files;
      } else {
        assert Ascends(files, i - 1, j - 1);
      }
    }
  }

  lemma OrderSnoc(files: seq<Table>, t: Table)
    requires InBuilderOrder(files) && forall u :: u in files ==> SmallestFirst(u, t)
    ensures InBuilderOrder(files + [t])
  {
    forall i: nat, j: nat | i < j < |files| + 1
      ensures Ascends(files + [t], i, j)
    {
      if j == |files| {
        assert files[i] in files;
      } else {
        assert Ascends(files, i, j);
      }
    }
  }

  lemma {:induction false} WithoutInOrder(files: seq<Table>, deleted: set<(nat, nat)>, level: nat)
    requires InBuilderOrder(files)
    ensures InBuilderOrder(Without(files, deleted, level))
  {
    if files != [] {
      OrderTail(files);
      WithoutInOrder(files[1..], deleted, level);
      WithoutMembers(files[1..], deleted, level);
      if (level, files[0].number) in deleted {
        assert Without(files, deleted, level) == Without(files[1..], deleted, level);
      } else {
        OrderCons(files[0], Without(files[1..], deleted, level));
      }
    }
  }

  lemma {:induction false} InsertInOrder(files: seq<Table>, t: Table)
    requires InBuilderOrder(files) && forall u :: u in files ==> Comparable(t, u)
    ensures InBuilderOrder(Insert(files, t))
  {
    if files == [] {
    } else if SmallestFirst(t, files[0]) {
      OrderTail(files);
      forall u | u in files
        ensures SmallestFirst(t, u)
      {
        SmallestFirstIsStrictOrder(t, files[0], u);
        assert files == [files[0]] + files[1..];
      }
      OrderCons(t, files);
    } else {
      OrderTail(files);
      InsertInOrder(files[1..], t);
      InsertMembers(files[1..], t);
      assert files == [files[0]] + files[1..];
      assert files[0] in files;
      OrderCons(files[0], Insert(files[1..], t));
    }
  }

  lemma HeadIsMember(files: seq<Table>)
    ensures files != [] ==> files[0] in files
  {
  }

  /** A list in builder order is determined by its members. */
  lemma {:induction false} SameMembersSameList(a: seq<Table>, b: seq<Table>)
    requires InBuilderOrder(a) && InBuilderOrder(b) && forall t :: t in a <==> t in b
    ensures a == b
  {
    if a == [] {
      HeadIsMember(b);
    } else {
      assert a[0] in b && b != [];
      assert b[0] in a;
      OrderTail(a);
      OrderTail(b);
      assert a == [a[0]] + a[1..] && b == [b[0]] + b[1..];
      SmallestFirstIsStrictOrder(a[0], b[0], a[0]);
      assert a[0] == b[0];
      forall t
        ensures t in a[1..] <==> t in b[1..]
      {
        SmallestFirstIsStrictOrder(t, t, t);
        assert t in [a[0]] + a[1..] <==> t == a[0] || t in a[1..];
        assert t in [b[0]] + b[1..] <==> t == b[0] || t in b[1..];
      }
      SameMembersSameList(a[1..], b[1..]);
    }
  }

  // ----- merging one level

  function Keep(t: Table, deleted: set<(nat, nat)>, level: nat): seq<Table> {
    if (level, t.number) in deleted then [] else [t]
  }

  /** Base and added tables in builder order, without the deleted ones. */
  function MergeLevel(base: seq<Table>, added: seq<Table>, deleted: set<(nat, nat)>, level: nat): seq<Table>
    decreases |base| + |added|
  {
    if added == [] then Without(base, deleted, level)
    else if base != [] && !SmallestFirst(added[0], base[0]) then
      Keep(base[0], deleted, level) + MergeLevel(base[1..], added, deleted, level)
    else
      Keep(added[0], deleted, level) + MergeLevel(base, added[1..], deleted, level)
  }

  lemma {:induction false} MergeMembers(base: seq<Table>, added: seq<Table>, deleted: set<(nat, nat)>, level: nat)
    ensures forall t :: t in MergeLevel(base, added, deleted, level) <==>
                        (t in base || t in added) && (level, t.number) !in deleted
    decreases |base| + |added|
  {
    if added == [] {
      WithoutMembers(base, deleted, level);
    } else if base != [] && !SmallestFirst(added[0], base[0]) {
      MergeMembers(base[1..], added, deleted, level);
      assert base == [base[0]] + base[1..];
    } else {
      MergeMembers(base, added[1..], deleted, level);
      assert added == [added[0]] + added[1..];
    }
  }

  ghost predicate AllComparable(a: seq<Table>, b: seq<Table>) {
    forall t, u :: t in a && u in b ==> Comparable(t, u)
  }

  /** `t` comes before every table of the list. */
  ghost predicate Leads(t: Table, files: seq<Table>) {
    forall u :: u in files ==> SmallestFirst(t, u)
  }

  lemma LeadsFromHead(t: Table, files: seq<Table>)
    requires InBuilderOrder(files) && files != [] && SmallestFirst(t, files[0])
    ensures Leads(t, files)
  {
    OrderTail(files);
    forall u | u in files
      ensures SmallestFirst(t, u)
    {
      assert files == [files[0]] + files[1..];
      SmallestFirstIsStrictOrder(t, files[0], u);
    }
  }

  lemma {:induction false} MergeInOrder(base: seq<Table>, added: seq<Table>, deleted: set<(nat, nat)>, level: nat)
    requires InBuilderOrder(base) && InBuilderOrder(added) && AllComparable(added, base)
    ensures InBuilderOrder(MergeLevel(base, added, deleted, level))
    decreases |base| + |added|
  {
    if added == [] {
      WithoutInOrder(base, deleted, level);
    } else if base != [] && !SmallestFirst(added[0], base[0]) {
      assert base == [base[0]] + base[1..];
      assert added[0] in added && base[0] in base;
      OrderTail(base);
      LeadsFromHead(base[0], added);
      MergeInOrder(base[1..], added, deleted, level);
      KeepInFront(base[0], base[1..], added, deleted, level);
    } else {
      assert added == [added[0]] + added[1..];
      OrderTail(added);
      if base != [] {
        LeadsFromHead(added[0], base);
      }
      MergeInOrder(base, added[1..], deleted, level);
      KeepInFront(added[0], base, added[1..], deleted, level);
    }
  }

  lemma KeepInFront(t: Table, base: seq<Table>, added: seq<Table>, deleted: set<(nat, nat)>, level: nat)
    requires InBuilderOrder(MergeLevel(base, added, deleted, level)) && Leads(t, base) && Leads(t, added)
    ensures InBuilderOrder(Keep(t, deleted, level) + MergeLevel(base, added, deleted, level))
  {
    var rest := MergeLevel(base, added, deleted, level);
    MergeMembers(base, added, deleted, level);
    if (level, t.number) in deleted {
      assert Keep(t, deleted, level) + rest == rest;
    } else {
      OrderCons(t, rest);
    }
  }

  lemma Reassociate(a: seq<Table>, b: seq<Table>, c: seq<Table>)
    ensures a + (b + c) == a + b + c
  {
  }

  /** SaveTo for one level: base tables up to each added table, then the added table. */
  method SaveLevel(base: seq<Table>, added: seq<Table>, deleted: set<(nat, nat)>, level: nat) returns (r: seq<Table>)
    ensures r == MergeLevel(base, added, deleted, level)
  {
    r := [];
    var b := 0;
    for a := 0 to |added|
      invariant b <= |base|
      invariant r + MergeLevel(base[b..], added[a..], deleted, level) == MergeLevel(base, added, deleted, level)
    {
      while b < |base| && !SmallestFirst(added[a], base[b])
        invariant b <= |base|
        invariant r + MergeLevel(base[b..], added[a..], deleted, level) == MergeLevel(base, added, deleted, level)
      {
        Reassociate(r, Keep(base[b], deleted, level), MergeLevel(base[b + 1..], added[a..], deleted, level));
        assert base[b..][1..] == base[b + 1..];
        r := r + Keep(base[b], deleted, level);
        b := b + 1;
      }
      Reassociate(r, Keep(added[a], deleted, level), MergeLevel(base[b..], added[a + 1..], deleted, level));
      assert added[a..][1..] == added[a + 1..];
      r := r + Keep(added[a], deleted, level);
    }
    while b < |base|
      invariant b <= |base|
      invariant r + Without(base[b..], deleted, level) == MergeLevel(base, added, deleted, level)
    {
      Reassociate(r, Keep(base[b], deleted, level), Without(base[b + 1..], deleted, level));
      assert base[b..][1..] == base[b + 1..];
      r := r + Keep(base[b], deleted, level);
      b := b + 1;
    }
  }

  // ----- the builder

  ghost function Numbers(added: seq<(nat, Table)>): set<(nat, nat)> {
    set p | p in added :: (p.0, p.1.number)
  }

  /** No two additions name the same table at the same level. */
  ghost predicate AddsOnce(added: seq<(nat, Table)>) {
    forall i, j :: 0 <= i < j < |added| ==>
      added[i].0 != added[j].0 || added[i].1.number != added[j].1.number
  }

  /**
   One level of a builder: `current` is what installing the edits one by one has led to, and
   is what merging `added` into `base` without `deleted` will give.
   */
  ghost predicate LevelTracks(base: seq<Table>, added: seq<Table>, current: seq<Table>,
                              deleted: set<(nat, nat)>, seen: set<(nat, nat)>, level: nat)
  {
    && InBuilderOrder(base) && InBuilderOrder(added) && InBuilderOrder(current)
    && AllComparable(added, base)
    && (forall t :: t in base || t in added ==> (level, t.number) in seen)
    && (forall t :: t in current <==> (t in base || t in added) && (level, t.number) !in deleted)
  }

  lemma {:induction false} InsertAllInOrder(files: seq<Table>, added: seq<(nat, Table)>, level: nat)
    requires InBuilderOrder(files) && AddsOnce(added)
    requires forall t, p :: t in files && p in added && p.0 == level ==> t.number != p.1.number
    ensures InBuilderOrder(InsertAll(files, added, level))
  {
    if added != [] {
      var n := |added| - 1;
      var front := added[..n];
      assert forall p :: p in front ==> p in added;
      InsertAllInOrder(files, front, level);
      if added[n].0 == level {
        InsertAllMembers(files, front, level);
        forall u | u in InsertAll(files, front, level)
          ensures Comparable(added[n].1, u)
        {
          if u in files {
            assert added[n] in added;
          } else {
            var i :| 0 <= i < n && front[i] == (level, u);
            assert added[i] == (level, u);
          }
          DistinctAreComparable(added[n].1, u);
        }
        InsertInOrder(InsertAll(files, front, level), added[n].1);
      }
    }
  }

  /** An edit that adds only new tables keeps the two views of a level in step. */
  lemma ApplyTracks(base: seq<Table>, added: seq<Table>, current: seq<Table>,
                    deleted: set<(nat, nat)>, seen: set<(nat, nat)>, level: nat, e: Edit)
    requires LevelTracks(base, added, current, deleted, seen, level)
    requires AddsOnce(e.added) && Numbers(e.added) !! seen
    ensures LevelTracks(base, InsertAll(added, e.added, level), InstallLevel(current, e, level),
                        deleted + e.deleted - Numbers(e.added), seen + Numbers(e.added), level)
  {
    var added', current' := InsertAll(added, e.added, level), InstallLevel(current, e, level);
    var deleted' := deleted + e.deleted - Numbers(e.added);
    InsertAllMembers(added, e.added, level);
    InstallMembers(current, e, level);
    assert forall p :: p in e.added ==> (p.0, p.1.number) in Numbers(e.added);
    WithoutMembers(current, e.deleted, level);
    WithoutInOrder(current, e.deleted, level);
    InsertAllInOrder(added, e.added, level);
    InsertAllInOrder(Without(current, e.deleted, level), e.added, level);
    forall t, u | t in added' && u in base
      ensures Comparable(t, u)
    {
      if t !in added {
        assert (level, t) in e.added;
        DistinctAreComparable(t, u);
      }
    }
    forall t
      ensures t in current' <==> (t in base || t in added') && (level, t.number) !in deleted'
    {
      if (level, t) in e.added {
        assert (level, t.number) in Numbers(e.added);
      } else if t in base || t in added {
        assert (level, t.number) in seen;
      }
    }
  }

  class Builder {
    const base: Version
    var deleted: set<(nat, nat)>
    var added: seq<seq<Table>>
    /** The version reached by installing the applied edits one by one on `base`. */
    ghost var current: Version
    /** Every (level, file number) of the base and of all additions so far. */
    ghost var seen: set<(nat, nat)>

    ghost predicate Valid()
      reads this
    {
      && |added| == NUM_LEVELS
      && forall l :: 0 <= l < NUM_LEVELS ==> LevelTracks(base[l], added[l], current[l], deleted, seen, l)
    }

    constructor (base: Version)
      requires forall l :: 0 <= l < NUM_LEVELS ==> InBuilderOrder(base[l])
      ensures Valid() && this.base == base && current == base
      ensures seen == set l, t | 0 <= l < NUM_LEVELS && t in base[l] :: (l, t.number)
    {
      this.base := base;
      deleted := {};
      added := seq(NUM_LEVELS, _ => []);
      current := base;
      seen := set l, t | 0 <= l < NUM_LEVELS && t in base[l] :: (l, t.number);
    }

    /** Add the effect of one edit; an addition cancels an earlier deletion. */
    method Apply(e: Edit)
      requires Valid() && ValidEdit(e) && AddsOnce(e.added) && Numbers(e.added) !! seen
      modifies this
      ensures Valid() && current == Install(old(current), e) && seen == old(seen) + Numbers(e.added)
    {
      deleted := deleted + e.deleted;
      for i := 0 to |e.added|
        invariant |added| == NUM_LEVELS && current == old(current) && seen == old(seen)
        invariant deleted == old(deleted) + e.deleted - Numbers(e.added[..i])
        invariant forall l :: 0 <= l < NUM_LEVELS ==> added[l] == InsertAll(old(added[l]), e.added[..i], l)
      {
        var (l, t) := e.added[i];
        assert e.added[i] in e.added;
        assert e.added[..i + 1] == e.added[..i] + [e.added[i]];
        assert e.added[..i + 1][..i] == e.added[..i];
        deleted := deleted - {(l, t.number)};
        added := added[l := Insert(added[l], t)];
      }
      assert e.added[..|e.added|] == e.added;
      forall l | 0 <= l < NUM_LEVELS
        ensures LevelTracks(base[l], added[l], InstallLevel(current[l], e, l), deleted, seen + Numbers(e.added), l)
      {
        ApplyTracks(base[l], old(added[l]), current[l], old(deleted), seen, l, e);
      }
      current := Install(current, e);
      seen := seen + Numbers(e.added);
    }

    /** The merged version is the one that installing the edits one by one leads to. */
    method SaveTo() returns (v: Version)
      requires Valid()
      ensures v == current
    {
      var levels: seq<seq<Table>> := [];
      for l := 0 to NUM_LEVELS
        invariant |levels| == l && forall m :: 0 <= m < l ==> levels[m] == current[m]
      {
        var files := SaveLevel(base[l], added[l], deleted, l);
        assert LevelTracks(base[l], added[l], current[l], deleted, seen, l);
        MergeMembers(base[l], added[l], deleted, l);
        MergeInOrder(base[l], added[l], deleted, l);
        SameMembersSameList(files, current[l]);
        levels := levels + [files];
      }
      v := levels;
    }
  }

  // ----- replaying a manifest

  function InstallAll(v: Version, edits: seq<Edit>): Version {
    if edits == [] then v else Install(InstallAll(v, edits[..|edits| - 1]), edits[|edits| - 1])
  }

  ghost function AllNumbers(edits: seq<Edit>): set<(nat, nat)> {
    if edits == [] then {} else AllNumbers(edits[..|edits| - 1]) + Numbers(edits[|edits| - 1].added)
  }

  /** No (level, file number) is added twice, or added although the base has it. */
  ghost predicate AddsFresh(seen: set<(nat, nat)>, edits: seq<Edit>) {
    forall i :: 0 <= i < |edits| ==>
      && ValidEdit(edits[i]) && AddsOnce(edits[i].added)
      && Numbers(edits[i].added) !! seen + AllNumbers(edits[..i])
  }

  /** Recovery applies the whole list of recorded edits to one builder and saves once. */
  method Replay(base: Version, edits: seq<Edit>) returns (v: Version)
    requires forall l :: 0 <= l < NUM_LEVELS ==> InBuilderOrder(base[l])
    requires AddsFresh(set l, t | 0 <= l < NUM_LEVELS && t in base[l] :: (l, t.number), edits)
    ensures v == InstallAll(base, edits)
  {
    var builder := new Builder(base);
    ghost var first := builder.seen;
    for i := 0 to |edits|
      invariant builder.Valid() && fresh(builder)
      invariant builder.current == InstallAll(base, edits[..i])
      invariant builder.seen == first + AllNumbers(edits[..i])
    {
      assert edits[..i + 1][..i] == edits[..i];
      builder.Apply(edits[i]);
    }
    assert edits[..|edits|] == edits;
    v := builder.SaveTo();
  }
}
