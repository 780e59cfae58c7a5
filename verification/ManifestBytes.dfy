/**
 Recovering from the bytes of a manifest (VersionSet::LogAndApply, WriteSnapshot and Recover,
 db/version_set.cc).  The records of a manifest are encoded edits: first all tables of the
 version it begins with, then one edit for each change, with the counters that go with it.  A
 manifest that is cut off at any byte gives back what its last whole record stands for.
 */
module ManifestBytes {
  import opened Optional
  import opened InternalKeys
  import opened ReadSpec
  import opened Versions
  import opened VersionBuilder
  import opened Installing
  import opened Crc32c
  import opened Coding
  import opened LogFormat
  import opened LogReader
  import opened VersionEdits
  import opened DbState
  import opened DbInvariant
  import opened DbRecovery
  import opened CompactionSetup
  import opened Flushing
  import opened DbRuns
  import opened ManifestReplay

  type Bytes = seq<Byte>

  // ----- one record

  /** The bytes that EncodeTo writes for an edit. */
  ghost predicate IsRecordOf(record: Bytes, x: EditValue) {
    x.Fits() && exists order :: IsListing(order, x.deletedFiles) && record == BytesOf(FieldsOf(x, order))
  }

  method EncodeRecord(e: VersionEdit) returns (record: Bytes)
    requires e.Value().Fits()
    ensures IsRecordOf(record, e.Value())
  {
    ghost var order;
    record, order := e.EncodeTo([]);
    assert record == BytesOf(FieldsOf(e.Value(), order));
  }

  method DecodeRecord(record: Bytes, ghost x: EditValue) returns (e: VersionEdit)
    requires IsRecordOf(record, x)
    ensures fresh(e) && e.Value() == x
  {
    hide FieldsOf, BytesOf, ParseAll, EditValue.WithAll, EditValue.Fits, IsListing, AllFit;
    e := new VersionEdit();
    ghost var order :| IsListing(order, x.deletedFiles) && record == BytesOf(FieldsOf(x, order));
    FieldsFit(x, order);
    WholeBuffer(record);
    ParseRoundTrip(record, 0, FieldsOf(x, order));
    FieldsMakeEdit(e.Value(), x, order);
    var ok := e.DecodeFrom(record);
    assert [] + x.compactPointers == x.compactPointers;
  }

  // ----- edits by file number

  /** What a record says of a table: its file number, its size and its bounds. */
  function MetaData(t: Table, keyBytes: InternalKey -> Bytes): FileMetaData {
    FileMetaData(t.number, t.size, keyBytes(Smallest(t)), keyBytes(Largest(t)))
  }

  /** What the records of one manifest have in common: the order of keys and how keys are written. */
  datatype Format = Format(comparator: Bytes, keyBytes: InternalKey -> Bytes, pointers: nat -> seq<(nat, Bytes)>)

  /**
   Record `i` of a manifest.  The first one, of WriteSnapshot, names the comparator; the others,
   of LogAndApply, have the counters that go with the version they lead to.
   */
  function ValueOf(e: Edit, manifests: seq<Manifest>, f: Format, i: nat): EditValue
    requires i <= |manifests|
  {
    var files := seq(|e.added|, j requires 0 <= j < |e.added| => (e.added[j].0, MetaData(e.added[j].1, f.keyBytes)));
    if i == 0 then EditValue(Some(f.comparator), None, None, None, None, f.pointers(i), e.deleted, files)
    else
      var m := manifests[i - 1];
      EditValue(None, Some(m.logNumber), Some(0), Some(m.nextFile), Some(m.lastSequence), f.pointers(i), e.deleted,
                files)
  }

  /** `files` has the table of every file number that the edit adds. */
  ghost predicate Names(files: map<nat, Table>, e: Edit) {
    forall p :: p in e.added ==> p.1.number in files && files[p.1.number] == p.1
  }

  /** The edit a decoded record stands for. */
  function EditOf(x: EditValue, files: map<nat, Table>): Edit
    requires forall i :: 0 <= i < |x.newFiles| ==> x.newFiles[i].1.number in files
  {
    Edit(x.deletedFiles,
         seq(|x.newFiles|, i requires 0 <= i < |x.newFiles| => (x.newFiles[i].0, files[x.newFiles[i].1.number])))
  }

  lemma EditOfValue(e: Edit, manifests: seq<Manifest>, f: Format, i: nat, files: map<nat, Table>)
    requires Names(files, e) && i <= |manifests|
    ensures var x := ValueOf(e, manifests, f, i);
            && (forall i :: 0 <= i < |x.newFiles| ==> x.newFiles[i].1.number in files)
            && EditOf(x, files) == e
  {
    forall j | 0 <= j < |e.added|
      ensures e.added[j].1.number in files && files[e.added[j].1.number] == e.added[j].1
    {
      assert e.added[j] in e.added;
    }
  }

  // ----- a manifest

  const EMPTY: Version := [[], [], [], [], [], [], []]

  /** The records hold these edits, each but the first with the manifest it leads to. */
  ghost predicate Written(records: seq<Bytes>, edits: seq<Edit>, manifests: seq<Manifest>, f: Format) {
    && |records| == |edits| == |manifests| + 1
    && forall i: nat :: i < |records| ==> IsRecordOf(records[i], ValueOf(edits[i], manifests, f, i))
  }

  /** One record: its edit, and its counters if it has them. */
  method DecodeStep(record: Bytes, comparator: Bytes, files: map<nat, Table>, ghost e: Edit,
                    ghost manifests: seq<Manifest>, ghost f: Format, ghost i: nat)
    returns (ok: bool, edit: Edit, told: Option<Manifest>)
    requires i <= |manifests| && IsRecordOf(record, ValueOf(e, manifests, f, i))
    requires Names(files, e) && f.comparator == comparator
    ensures ok && edit == e
    ensures told == if i == 0 then None else Some(manifests[i - 1].(version := EMPTY))
  {
    hide IsRecordOf, Names;
    var x := DecodeRecord(record, ValueOf(e, manifests, f, i));
    EditOfValue(e, manifests, f, i, files);
    ok := x.comparator.None? || x.comparator.value == comparator;
    edit := EditOf(x.Value(), files);
    told := None;
    if x.logNumber.Some? && x.nextFileNumber.Some? && x.lastSequence.Some? {
      told := Some(Manifest(EMPTY, x.logNumber.value, x.nextFileNumber.value, x.lastSequence.value));
    }
  }

  /** VersionSet::Recover: one builder over all whole records; the counters are those of the last. */
  method ReadManifest(file: Bytes, comparator: Bytes, files: map<nat, Table>, ghost records: seq<Bytes>,
                      ghost edits: seq<Edit>, ghost manifests: seq<Manifest>, ghost f: Format)
    returns (m: Option<Manifest>, ghost n: nat)
    requires Written(records, edits, manifests, f) && f.comparator == comparator && file <= LogOf(records)
    requires AddsFresh({}, edits) && forall e :: e in edits ==> Names(files, e)
    ensures n <= |records| && AreWhole(records, |file|, n)
    ensures n <= 1 ==> m == None
    ensures n > 1 ==> m == Some(manifests[n - 2].(version := InstallAll(EMPTY, edits[..n])))
  {
    hide LogOf, AreWhole, IsRecordOf, Install, EditValue.Fits, Builder.Valid, AddsFresh, ValidEdit, AddsOnce, Names;
    hide ValueOf, InstallAll, AllNumbers;
    var out, reports := ReadAll(file, records);
    n := |out|;
    NothingPlaced();
    var builder := new Builder(EMPTY);
    var counters: Option<Manifest> := None;
    for i := 0 to |out|
      invariant builder.Valid() && fresh(builder)
      invariant builder.current == InstallAll(EMPTY, edits[..i])
      invariant builder.seen == AllNumbers(edits[..i])
      invariant counters == if i <= 1 then None else Some(manifests[i - 2].(version := EMPTY))
    {
      assert out[i] == records[i] && edits[i] in edits;
      var ok, edit, told := DecodeStep(out[i], comparator, files, edits[i], manifests, f, i);
      if !ok {
        return None, n;
      }
      NextIsFresh(edits, i);
      builder.Apply(edit);
      counters := if told.Some? then told else counters;
    }
    m := None;
    if counters.Some? {
      var v := builder.SaveTo();
      m := Some(counters.value.(version := v));
    }
  }

  lemma NextIsFresh(edits: seq<Edit>, i: nat)
    requires AddsFresh({}, edits) && i < |edits|
    ensures ValidEdit(edits[i]) && AddsOnce(edits[i].added) && Numbers(edits[i].added) !! AllNumbers(edits[..i])
    ensures AllNumbers(edits[..i + 1]) == AllNumbers(edits[..i]) + Numbers(edits[i].added)
    ensures InstallAll(EMPTY, edits[..i + 1]) == Install(InstallAll(EMPTY, edits[..i]), edits[i])
  {
    assert edits[..i + 1][..i] == edits[..i];
  }

  lemma NothingPlaced()
    ensures forall l :: 0 <= l < NUM_LEVELS ==> EMPTY[l] == [] && InBuilderOrder(EMPTY[l])
    ensures (set l, t | 0 <= l < NUM_LEVELS && t in EMPTY[l] :: (l, t.number)) == {}
    ensures InstallAll(EMPTY, []) == EMPTY && AllNumbers([]) == {}
  {
  }

  // ----- the first record: all tables of a version

  function TablesDownTo(v: Version, n: nat): seq<(nat, Table)>
    requires n <= NUM_LEVELS
  {
    if n == 0 then [] else TablesDownTo(v, n - 1) + AtLevel(v[n - 1], n - 1)
  }

  /** WriteSnapshot. */
  function Snapshot(v: Version): Edit {
    Edit({}, TablesDownTo(v, NUM_LEVELS))
  }

  lemma {:induction false} TablesMembers(v: Version, n: nat)
    requires n <= NUM_LEVELS
    ensures forall l: nat, t :: (l, t) in TablesDownTo(v, n) <==> l < n && t in v[l]
  {
    if n > 0 {
      TablesMembers(v, n - 1);
      AtLevelMembers(v[n - 1], n - 1);
    }
  }

  lemma {:induction false} TablesOnce(v: Version, n: nat)
    requires ValidVersion(v) && n <= NUM_LEVELS
    ensures AddsOnce(TablesDownTo(v, n)) && ValidEdit(Edit({}, TablesDownTo(v, n)))
  {
    hide ValidVersion;
    TablesMembers(v, n);
    if n > 0 {
      TablesOnce(v, n - 1);
      LevelOnce(v, n - 1);
      var front, level := TablesDownTo(v, n - 1), AtLevel(v[n - 1], n - 1);
      TablesMembers(v, n - 1);
      forall i | 0 <= i < |front|
        ensures front[i].0 < n - 1
      {
        assert (front[i].0, front[i].1) in front;
      }
    }
  }

  lemma LevelOnce(v: Version, l: nat)
    requires ValidVersion(v) && l < NUM_LEVELS
    ensures AddsOnce(AtLevel(v[l], l))
  {
    LevelInBuilderOrder(v, l);
    var files := v[l];
    forall i, j | 0 <= i < j < |files|
      ensures files[i].number != files[j].number
    {
      if files[i].number == files[j].number {
        assert Identified(v, l, files[i], l, files[j]);
        assert Ascends(files, i, j);
        SmallestFirstIsStrictOrder(files[i], files[j], files[i]);
      }
    }
  }

  lemma EmptyIsValid()
    ensures ValidVersion(EMPTY)
  {
    assert forall l :: 0 <= l < NUM_LEVELS ==> EMPTY[l] == [];
  }

  /** The first record alone gives the version back. */
  lemma SnapshotGivesVersion(v: Version)
    requires ValidVersion(v)
    ensures Install(EMPTY, Snapshot(v)) == v && Numbers(Snapshot(v).added) == Placed(v)
    ensures ValidEdit(Snapshot(v)) && AddsOnce(Snapshot(v).added)
  {
    TablesOnce(v, NUM_LEVELS);
    TablesMembers(v, NUM_LEVELS);
    EmptyIsValid();
    var e := Snapshot(v);
    forall l: nat | l < NUM_LEVELS
      ensures Install(EMPTY, e)[l] == v[l]
    {
      InstalledOrder(EMPTY, e, l);
      LevelInBuilderOrder(v, l);
      assert EMPTY[l] == [];
      SameMembersSameList(Install(EMPTY, e)[l], v[l]);
    }
    PlacedBySnapshot(v);
  }

  lemma PlacedBySnapshot(v: Version)
    ensures Numbers(Snapshot(v).added) == Placed(v)
  {
    TablesMembers(v, NUM_LEVELS);
    var added := Snapshot(v).added;
    forall q | q in Placed(v)
      ensures q in Numbers(added)
    {
      var l, t :| 0 <= l < NUM_LEVELS && t in v[l] && q == (l, t.number);
      assert (l, t) in added;
    }
    forall q | q in Numbers(added)
      ensures q in Placed(v)
    {
      var p :| p in added && q == (p.0, p.1.number);
      assert (p.0, p.1) in added;
    }
  }

  lemma {:induction false} InstallAllAfter(v: Version, first: Edit, edits: seq<Edit>)
    ensures InstallAll(v, [first] + edits) == InstallAll(Install(v, first), edits)
    ensures AllNumbers([first] + edits) == Numbers(first.added) + AllNumbers(edits)
  {
    var all := [first] + edits;
    if edits == [] {
      assert all[..0] == [] && all[0] == first;
    } else {
      var n := |edits| - 1;
      InstallAllAfter(v, first, edits[..n]);
      assert all[..n + 1] == [first] + edits[..n] && all[n + 1] == edits[n];
    }
  }

  /** How an open begins a manifest: with a version, and an edit that adds what was replayed. */
  ghost predicate Begins(v: Version, e: Edit, base: Version) {
    && ValidVersion(v) && e.deleted == {} && ValidEdit(e) && AddsOnce(e.added) && Numbers(e.added) !! Placed(v)
    && Install(v, e) == base
  }

  lemma PlacedAfter(v: Version, e: Edit)
    requires e.deleted == {} && ValidEdit(e)
    ensures Placed(Install(v, e)) == Placed(v) + Numbers(e.added)
  {
    var v' := Install(v, e);
    forall q | q in Placed(v')
      ensures q in Placed(v) + Numbers(e.added)
    {
      var l, t :| 0 <= l < NUM_LEVELS && t in v'[l] && q == (l, t.number);
      InstallMembers(v[l], e, l);
    }
    forall q | q in Placed(v)
      ensures q in Placed(v')
    {
      var l, t :| 0 <= l < NUM_LEVELS && t in v[l] && q == (l, t.number);
      InstallMembers(v[l], e, l);
      assert t in v'[l];
    }
    forall q | q in Numbers(e.added)
      ensures q in Placed(v')
    {
      var p :| p in e.added && q == (p.0, p.1.number);
      InstallMembers(v[p.0], e, p.0);
      assert AddedAt(e, p.0, p.1);
      assert p.1 in v'[p.0];
    }
  }

  lemma AddsFreshCons(seen: set<(nat, nat)>, first: Edit, edits: seq<Edit>)
    requires ValidEdit(first) && AddsOnce(first.added) && Numbers(first.added) !! seen
    requires AddsFresh(seen + Numbers(first.added), edits)
    ensures AddsFresh(seen, [first] + edits)
  {
    var all := [first] + edits;
    forall i | 0 <= i < |all|
      ensures ValidEdit(all[i]) && AddsOnce(all[i].added)
      ensures Numbers(all[i].added) !! seen + AllNumbers(all[..i])
    {
      if i == 0 {
        assert all[..0] == [];
      } else {
        assert all[..i] == [first] + edits[..i - 1] && all[i] == edits[i - 1];
        InstallAllAfter(EMPTY, first, edits[..i - 1]);
      }
    }
  }

  /** The first two records lead to the base of the run's manifest, and the others go on from there. */
  lemma FreshFromBeginning(v: Version, e: Edit, base: Version, edits: seq<Edit>)
    requires Begins(v, e, base) && AddsFresh(Placed(base), edits)
    ensures AddsFresh({}, [Snapshot(v)] + ([e] + edits))
    ensures forall i: nat :: i <= |edits| ==>
              InstallAll(EMPTY, ([Snapshot(v)] + ([e] + edits))[..i + 2]) == InstallAll(base, edits[..i])
  {
    hide Install, AddsFresh, Snapshot, ValidVersion, ValidEdit, AddsOnce;
    SnapshotGivesVersion(v);
    PlacedAfter(v, e);
    AddsFreshCons(Placed(v), e, edits);
    assert {} + Placed(v) == Placed(v);
    AddsFreshCons({}, Snapshot(v), [e] + edits);
    forall i: nat | i <= |edits|
      ensures InstallAll(EMPTY, ([Snapshot(v)] + ([e] + edits))[..i + 2]) == InstallAll(base, edits[..i])
    {
      assert ([Snapshot(v)] + ([e] + edits))[..i + 2] == [Snapshot(v)] + ([e] + edits[..i]);
      InstallAllAfter(EMPTY, Snapshot(v), [e] + edits[..i]);
      InstallAllAfter(v, e, edits[..i]);
    }
  }

  // ----- the manifest of a run

  /** All edits of the current manifest, from its first record on. */
  ghost function ManifestEdits(v: Version, e: Edit, states: seq<State>, actions: seq<Action>, k: nat): seq<Edit>
    requires IsRun(states, actions) && k < |states|
  {
    [Snapshot(v)] + ([e] + RecordedEdits(states, actions, k))
  }

  /** What the manifest stood for after each of its records but the first. */
  ghost function Manifests(states: seq<State>, actions: seq<Action>, k: nat): seq<Manifest>
    requires |states| == |actions| + 1 && k < |states|
  {
    if k == 0 || actions[k - 1].DoCrash? then [states[k].disk.manifest]
    else Manifests(states, actions, k - 1) + if actions[k - 1].DoRecord? then [states[k].disk.manifest] else []
  }

  lemma OnlyRecordsWrite(st: State, a: Action, st': State)
    requires Step(st, a, st') && !a.DoRecord? && !a.DoCrash?
    ensures st'.disk.manifest == st.disk.manifest
  {
  }

  /** What the run says of the manifest's records: which versions they lead to, and when. */
  ghost predicate ManifestTold(states: seq<State>, actions: seq<Action>, k: nat)
    requires IsRun(states, actions) && k < |states|
  {
    var base, edits := BaseVersion(states, actions, k), RecordedEdits(states, actions, k);
    var ms := Manifests(states, actions, k);
    && |ms| == |edits| + 1 && ValidVersion(base) && AddsFresh(Placed(base), edits)
    && ms[|edits|] == states[k].disk.manifest
    && (forall i: nat :: i <= |edits| ==> ms[i].version == InstallAll(base, edits[..i]))
    && (forall i: nat :: i <= |edits| ==> exists j :: 0 <= j <= k && ms[i] == states[j].disk.manifest)
  }

  lemma NewManifestTold(states: seq<State>, actions: seq<Action>, k: nat)
    requires IsRun(states, actions) && k < |states| && !states[k].overlapped
    requires k == 0 || actions[k - 1].DoCrash?
    ensures ManifestTold(states, actions, k)
  {
    hide Inv, IsInitial, Step, ValidVersion;
    RunKeepsInv(states, actions, k);
    ManifestIsValid(states[k]);
  }

  lemma NextManifestTold(states: seq<State>, actions: seq<Action>, k: nat)
    requires IsRun(states, actions) && 0 < k < |states| && !states[k].overlapped && !actions[k - 1].DoCrash?
    requires ManifestTold(states, actions, k - 1)
    ensures ManifestTold(states, actions, k)
  {
    hide Inv, IsInitial, Step, ValidVersion, AddsFresh, Install;
    BaseOfNext(states, actions, k);
    var base, before, edits := BaseVersion(states, actions, k), RecordedEdits(states, actions, k - 1),
                               RecordedEdits(states, actions, k);
    var ms, ms' := Manifests(states, actions, k - 1), Manifests(states, actions, k);
    ReplayTold(states, actions, k);
    forall i: nat | i <= |edits|
      ensures ms'[i].version == InstallAll(base, edits[..i])
      ensures exists j :: 0 <= j <= k && ms'[i] == states[j].disk.manifest
    {
      if i <= |before| {
        assert edits[..i] == before[..i] && ms'[i] == ms[i];
        var j :| 0 <= j <= k - 1 && ms[i] == states[j].disk.manifest;
      } else {
        assert edits[..i] == edits;
      }
    }
  }

  lemma BaseOfNext(states: seq<State>, actions: seq<Action>, k: nat)
    requires IsRun(states, actions) && 0 < k < |states| && !actions[k - 1].DoCrash?
    ensures BaseVersion(states, actions, k) == BaseVersion(states, actions, k - 1)
    ensures RecordedEdits(states, actions, k - 1) <= RecordedEdits(states, actions, k)
    ensures Manifests(states, actions, k - 1) <= Manifests(states, actions, k)
    ensures actions[k - 1].DoRecord? ==>
            && |RecordedEdits(states, actions, k)| == |RecordedEdits(states, actions, k - 1)| + 1
            && Manifests(states, actions, k) == Manifests(states, actions, k - 1) + [states[k].disk.manifest]
    ensures !actions[k - 1].DoRecord? ==>
            && RecordedEdits(states, actions, k) == RecordedEdits(states, actions, k - 1)
            && Manifests(states, actions, k) == Manifests(states, actions, k - 1)
            && states[k].disk.manifest == states[k - 1].disk.manifest
  {
    hide IsInitial, Step;
    if !actions[k - 1].DoRecord? {
      OnlyRecordsWrite(states[k - 1], actions[k - 1], states[k]);
    }
  }

  lemma ReplayTold(states: seq<State>, actions: seq<Action>, k: nat)
    requires IsRun(states, actions) && k < |states| && !states[k].overlapped
    ensures AddsFresh(Placed(BaseVersion(states, actions, k)), RecordedEdits(states, actions, k))
    ensures InstallAll(BaseVersion(states, actions, k), RecordedEdits(states, actions, k)) ==
            states[k].disk.manifest.version
  {
    RunKeepsReplay(states, actions, k);
    hide IsRun, Step, InBuilderOrder, AddsFresh, OnlyDescends, SeenBelow, AddsDeeper;
  }

  lemma {:induction false} RunTellsManifest(states: seq<State>, actions: seq<Action>, k: nat)
    requires IsRun(states, actions) && k < |states| && !states[k].overlapped
    ensures ManifestTold(states, actions, k)
  {
    hide Inv, IsInitial, Step, ManifestTold;
    if k == 0 || actions[k - 1].DoCrash? {
      NewManifestTold(states, actions, k);
    } else {
      NotYetOverlapped(states, actions, k);
      RunTellsManifest(states, actions, k - 1);
      NextManifestTold(states, actions, k);
    }
  }

  /**
   At any point of any run, a manifest that holds the encoded records, cut off at any byte, is
   recovered to what the manifest stood for after its last whole record: an earlier state of the
   run's manifest, and the present one if nothing is missing.
   */
  method RecoverFromBytes(file: Bytes, comparator: Bytes, files: map<nat, Table>, ghost records: seq<Bytes>,
                          ghost f: Format, ghost v: Version, ghost e: Edit,
                          ghost states: seq<State>, ghost actions: seq<Action>, ghost k: nat)
    returns (m: Option<Manifest>, ghost n: nat)
    requires IsRun(states, actions) && k < |states| && !states[k].overlapped
    requires Begins(v, e, BaseVersion(states, actions, k)) && f.comparator == comparator
    requires var edits := ManifestEdits(v, e, states, actions, k);
             && Written(records, edits, Manifests(states, actions, k), f)
             && forall x :: x in edits ==> Names(files, x)
    requires file <= LogOf(records)
    ensures n <= |records| && AreWhole(records, |file|, n) && (m.None? <==> n <= 1)
    ensures n > 1 ==> n <= |Manifests(states, actions, k)| + 1 && m == Some(Manifests(states, actions, k)[n - 2])
    ensures m.Some? ==> exists j :: 0 <= j <= k && m.value == states[j].disk.manifest
    ensures file == LogOf(records) ==> m == Some(states[k].disk.manifest)
  {
    hide IsInitial, Step, Written, LogOf, AreWhole, Install, AddsFresh, Names, ManifestEdits, Manifests, InstallAll;
    hide Begins;
    ghost var edits, ms := ManifestEdits(v, e, states, actions, k), Manifests(states, actions, k);
    WrittenSizes(records, edits, ms, f);
    RecordsTell(v, e, states, actions, k);
    m, n := ReadManifest(file, comparator, files, records, edits, ms, f);
    if n > 1 {
      assert ms[n - 2].version == InstallAll(EMPTY, edits[..n]);
    }
    if file == LogOf(records) {
      AllAreWhole(records, n);
    }
  }

  /** What the records of a run's manifest lead to. */
  lemma RecordsTell(v: Version, e: Edit, states: seq<State>, actions: seq<Action>, k: nat)
    requires IsRun(states, actions) && k < |states| && !states[k].overlapped
    requires Begins(v, e, BaseVersion(states, actions, k))
    ensures var edits, ms := ManifestEdits(v, e, states, actions, k), Manifests(states, actions, k);
            && AddsFresh({}, edits) && |ms| + 1 == |edits| && |ms| > 0 && ms[|ms| - 1] == states[k].disk.manifest
            && (forall i: nat :: i < |ms| ==> ms[i].version == InstallAll(EMPTY, edits[..i + 2]))
            && (forall i: nat :: i < |ms| ==> exists j :: 0 <= j <= k && ms[i] == states[j].disk.manifest)
  {
    hide IsInitial, Step, ValidVersion, Install, AddsFresh, Snapshot, Manifests, BaseVersion, RecordedEdits, Begins;
    RunTellsManifest(states, actions, k);
    var base, edits, ms := BaseVersion(states, actions, k), RecordedEdits(states, actions, k),
                           Manifests(states, actions, k);
    FreshFromBeginning(v, e, base, edits);
    forall i: nat | i < |ms|
      ensures ms[i].version == InstallAll(EMPTY, ManifestEdits(v, e, states, actions, k)[..i + 2])
    {
      assert ms[i].version == InstallAll(base, edits[..i]);
    }
  }

  lemma WrittenSizes(records: seq<Bytes>, edits: seq<Edit>, manifests: seq<Manifest>, f: Format)
    requires Written(records, edits, manifests, f)
    ensures |records| == |edits| == |manifests| + 1
  {
  }

  // ----- how the manifest of a run begins

  /** The recovered version, and the level-0 tables that the logs were replayed into. */
  lemma OpenBegins(d: Disk, r: Recovery, h: seq<Entry>, revived: Revivals, f: nat)
    requires DiskWrites(d, h, f, revived) && ValidRecovery(d, r)
    ensures Begins(d.manifest.version, Edit({}, AtLevel(RecoveredTables(r), 0)), Reopen(d, r, h, revived).version)
  {
    var outs, v := RecoveredTables(r), d.manifest.version;
    RecoveredAreReplayed(d, r);
    AtLevelMembers(outs, 0);
    var e := Edit({}, AtLevel(outs, 0));
    hide ValidRecovery, ReplayedLog, HoldsWrites, ValidVersion;
    forall q | q in Numbers(e.added)
      ensures q.1 >= d.manifest.nextFile
    {
      var p :| p in e.added && q == (p.0, p.1.number);
      assert (p.0, p.1) in e.added;
    }
    forall q | q in Placed(v)
      ensures q.1 < d.manifest.nextFile
    {
      assert q.1 in VersionNumbers(v);
    }
  }

  lemma {:induction false} RunBegins(states: seq<State>, actions: seq<Action>, k: nat) returns (v: Version, e: Edit)
    requires IsRun(states, actions) && k < |states| && !states[k].overlapped
    ensures Begins(v, e, BaseVersion(states, actions, k))
  {
    hide Inv, IsInitial, Begins, Step;
    if k == 0 {
      v, e := InitialBegins(states[0]);
    } else {
      NotYetOverlapped(states, actions, k);
      RunKeepsInv(states, actions, k - 1);
      RecordsStep(states, actions, k);
      if actions[k - 1].DoCrash? {
        v, e := CrashBegins(states[k - 1], actions[k - 1], states[k]);
      } else {
        v, e := RunBegins(states, actions, k - 1);
      }
    }
  }

  lemma InitialBegins(st: State) returns (v: Version, e: Edit)
    requires IsInitial(st)
    ensures Begins(v, e, st.disk.manifest.version)
  {
    hide DiskHolds, Begins;
    var r :| ValidRecovery(NEW_DISK, r) && st == Reopen(NEW_DISK, r, [], map[]);
    NewDiskHoldsNothing();
    HoldsIsWrites(NEW_DISK, [], 0, map[]);
    OpenBegins(NEW_DISK, r, [], map[], 0);
    v, e := NEW_DISK.manifest.version, Edit({}, AtLevel(RecoveredTables(r), 0));
  }

  lemma HoldsIsWrites(d: Disk, h: seq<Entry>, f: nat, revived: Revivals)
    requires DiskHolds(d, h, f, revived)
    ensures DiskWrites(d, h, f, revived)
  {
    hide DiskWrites;
  }

  lemma CrashBegins(st: State, a: Action, st': State) returns (v: Version, e: Edit)
    requires Inv(st) && Step(st, a, st') && a.DoCrash?
    ensures Begins(v, e, st'.disk.manifest.version)
  {
    hide Inv, DiskHolds, DiskWrites, Begins, IsPartialOpen, ReplayedLog, TopLog, Install;
    var disks, r := a.disks, a.recovery;
    var d := disks[|disks| - 1];
    DiskHoldsEverything(st);
    HoldsIsWrites(st.disk, st.history, DiskFlushed(st), st.revived);
    PartialOpensKeepDisk(disks, st.history, DiskFlushed(st), |disks| - 1, st.revived);
    OpenBegins(d, r, st.history, st.revived, DiskFlushed(st));
    v, e := d.manifest.version, Edit({}, AtLevel(RecoveredTables(r), 0));
  }

  // ----- a file number stands for one table

  ghost predicate NamesVersion(files: map<nat, Table>, v: Version) {
    forall l: nat, t :: l < NUM_LEVELS && t in v[l] ==> t.number in files && files[t.number] == t
  }

  /** All tables of the manifest, of the version and of the edit under way have their numbers to themselves. */
  ghost predicate NamesOk(files: map<nat, Table>, base: Version, edits: seq<Edit>, st: State) {
    && NamesVersion(files, base) && (forall e :: e in edits ==> Names(files, e))
    && NamesVersion(files, st.version) && (HasEdit(st.phase) ==> Names(files, st.phase.edit))
    && forall n :: n in files ==> n < st.nextFile
  }

  ghost function TableOf(v: Version, n: nat): Table
    requires n in VersionNumbers(v)
  {
    var l: nat, t :| l < NUM_LEVELS && t in v[l] && t.number == n;
    t
  }

  lemma VersionHasNames(v: Version) returns (files: map<nat, Table>)
    requires ValidVersion(v)
    ensures NamesVersion(files, v) && files.Keys == VersionNumbers(v)
  {
    files := map n | n in VersionNumbers(v) :: TableOf(v, n);
    forall l: nat, t | l < NUM_LEVELS && t in v[l]
      ensures t.number in files && files[t.number] == t
    {
      assert t.number in VersionNumbers(v);
      var m: nat, u :| m < NUM_LEVELS && u in v[m] && u.number == t.number && u == TableOf(v, t.number);
      assert Identified(v, l, t, m, u);
    }
  }

  /** Names for a state whose manifest has just been written. */
  lemma NewNames(st: State) returns (files: map<nat, Table>)
    requires Inv(st) && st.phase.Idle?
    ensures NamesOk(files, st.disk.manifest.version, [], st)
  {
    hide LogsOk, MemOk, SnapshotsOk, HoldsWrites, ValidVersion, EditFits;
    files := VersionHasNames(st.version);
    hide VersionNumbers;
    assert NumbersBelow(st.version, st.nextFile);
  }

  /** New tables under unused numbers. */
  lemma NewTables(files: map<nat, Table>, outs: seq<Table>, n: nat) returns (more: map<nat, Table>)
    requires forall i, j :: 0 <= i < j < |outs| ==> outs[i].number != outs[j].number
    requires (forall m :: m in files ==> m < n) && forall t :: t in outs ==> n <= t.number
    ensures forall m :: m in files ==> m in more && more[m] == files[m]
    ensures forall t :: t in outs ==> t.number in more && more[t.number] == t
    ensures forall m :: m in more ==> m in files || exists t :: t in outs && t.number == m
  {
    if outs == [] {
      more := files;
    } else {
      var k := |outs| - 1;
      var rest := NewTables(files, outs[..k], n);
      more := rest[outs[k].number := outs[k]];
      assert outs == outs[..k] + [outs[k]];
      forall m | m in files
        ensures m in more && more[m] == files[m]
      {
        assert outs[k] in outs;
      }
      forall t | t in outs
        ensures t.number in more && more[t.number] == t
      {
        var i :| 0 <= i < |outs| && outs[i] == t;
        if i < k {
          assert outs[..k][i] == t && t in outs[..k];
        }
      }
    }
  }

  lemma NamesMore(files: map<nat, Table>, more: map<nat, Table>, base: Version, edits: seq<Edit>, st: State)
    requires NamesOk(files, base, edits, st) && forall m :: m in files ==> m in more && more[m] == files[m]
    ensures NamesVersion(more, base) && (forall e :: e in edits ==> Names(more, e)) && NamesVersion(more, st.version)
  {
  }

  lemma FlushNames(files: map<nat, Table>, base: Version, edits: seq<Edit>, st: State, level: nat, size: nat)
    returns (more: map<nat, Table>)
    requires NamesOk(files, base, edits, st) && CanBuildFlush(st, level)
    ensures NamesOk(more, base, edits, BuildFlush(st, level, size))
  {
    hide Names, NamesVersion;
    if st.imm.value == [] {
      more := files;
      NothingToName(files);
    } else {
      var t := Table(st.nextFile, size, st.imm.value);
      more := NewTables(files, [t], st.nextFile);
      assert t in [t];
      NamesMore(files, more, base, edits, st);
      OneToName(more, level, t);
    }
  }

  lemma NothingToName(files: map<nat, Table>)
    ensures Names(files, Edit({}, []))
  {
  }

  lemma OneToName(files: map<nat, Table>, level: nat, t: Table)
    requires t.number in files && files[t.number] == t
    ensures Names(files, FlushEdit(level, t))
  {
  }

  lemma ReplaceNames(files: map<nat, Table>, p: Plan, outs: seq<Table>)
    requires forall t :: t in outs ==> t.number in files && files[t.number] == t
    ensures Names(files, ReplaceEdit(p, outs))
  {
    forall q | q in ReplaceEdit(p, outs).added
      ensures q.1 in outs
    {
      AtLevelMembers(outs, p.level + 1);
      assert (q.0, q.1) in AtLevel(outs, p.level + 1);
    }
  }

  lemma MergeNames(files: map<nat, Table>, base: Version, edits: seq<Edit>, st: State, input: seq<Entry>,
                   outs: seq<Table>, next: nat)
    returns (more: map<nat, Table>)
    requires NamesOk(files, base, edits, st) && CanBuildCompaction(st, input, outs, next)
    ensures NamesOk(more, base, edits, BuildCompaction(st, outs, next))
  {
    hide Names, NamesVersion;
    more := NewTables(files, outs, st.nextFile);
    NamesMore(files, more, base, edits, st);
    ReplaceNames(more, st.running.value.plan, outs);
  }

  lemma MoveNames(files: map<nat, Table>, base: Version, edits: seq<Edit>, st: State, plan: Plan)
    requires NamesOk(files, base, edits, st) && CanMove(st, plan)
    ensures NamesOk(files, base, edits, Move(st, plan))
  {
    assert forall t :: t in plan.inputs0 ==> t in st.version[plan.level];
    hide Names;
    ReplaceNames(files, plan, plan.inputs0);
  }

  lemma InstallNames(files: map<nat, Table>, v: Version, e: Edit)
    requires NamesVersion(files, v) && Names(files, e)
    ensures NamesVersion(files, Install(v, e))
  {
    forall l: nat, t | l < NUM_LEVELS && t in Install(v, e)[l]
      ensures t.number in files && files[t.number] == t
    {
      InstallMembers(v[l], e, l);
    }
  }

  lemma StepNames(files: map<nat, Table>, base: Version, edits: seq<Edit>, st: State, a: Action, st': State)
    returns (more: map<nat, Table>)
    requires NamesOk(files, base, edits, st) && Step(st, a, st') && !a.DoCrash?
    ensures NamesOk(more, base, edits, st')
    ensures a.DoRecord? ==> CanRecord(st) && Names(more, st.phase.edit)
  {
    hide Names, NamesVersion, ReplaceEdit, FlushEdit;
    more := files;
    match a
    case DoBuildFlush(level, size) => more := FlushNames(files, base, edits, st, level, size);
    case DoBuildCompaction(input, outs, next) => more := MergeNames(files, base, edits, st, input, outs, next);
    case DoMove(plan) => MoveNames(files, base, edits, st, plan);
    case DoInstall => InstallNames(files, st.version, st.phase.edit);
    case _ =>
  }

  /** In every run the file numbers of a manifest can be told apart: each stands for one table. */
  lemma {:induction false} RunHasNames(states: seq<State>, actions: seq<Action>, k: nat)
    returns (files: map<nat, Table>)
    requires IsRun(states, actions) && k < |states| && !states[k].overlapped
    ensures NamesOk(files, BaseVersion(states, actions, k), RecordedEdits(states, actions, k), states[k])
  {
    hide Inv, IsInitial, Step, NamesOk, Names;
    RunKeepsInv(states, actions, k);
    if k == 0 || actions[k - 1].DoCrash? {
      NewIsIdle(states, actions, k);
      files := NewNames(states[k]);
    } else {
      NotYetOverlapped(states, actions, k);
      var before := RunHasNames(states, actions, k - 1);
      var base, edits := BaseVersion(states, actions, k - 1), RecordedEdits(states, actions, k - 1);
      files := StepNames(before, base, edits, states[k - 1], actions[k - 1], states[k]);
      RecordsStep(states, actions, k);
      assert edits + [] == edits;
      if actions[k - 1].DoRecord? {
        NamesOneMore(files, base, edits, states[k], states[k - 1].phase.edit);
      }
    }
  }

  lemma NamesOneMore(files: map<nat, Table>, base: Version, edits: seq<Edit>, st: State, e: Edit)
    requires NamesOk(files, base, edits, st) && Names(files, e)
    ensures NamesOk(files, base, edits + [e], st)
  {
    hide Names, NamesVersion;
  }

  lemma NewIsIdle(states: seq<State>, actions: seq<Action>, k: nat)
    requires IsRun(states, actions) && k < |states| && (k == 0 || actions[k - 1].DoCrash?)
    ensures states[k].phase.Idle?
  {
  }

  /** So that the bytes of its manifest can be decoded. */
  lemma ManifestHasNames(states: seq<State>, actions: seq<Action>, k: nat, v: Version, e: Edit)
    returns (files: map<nat, Table>)
    requires IsRun(states, actions) && k < |states| && !states[k].overlapped
    requires Begins(v, e, BaseVersion(states, actions, k))
    ensures forall x :: x in ManifestEdits(v, e, states, actions, k) ==> Names(files, x)
  {
    hide IsInitial, Step, Names;
    files := RunHasNames(states, actions, k);
    BeginningNames(files, v, e);
    SnapshotNames(files, v);
  }

  lemma BeginningNames(files: map<nat, Table>, v: Version, e: Edit)
    requires e.deleted == {} && ValidEdit(e) && NamesVersion(files, Install(v, e))
    ensures NamesVersion(files, v) && Names(files, e)
  {
    forall l: nat, t | l < NUM_LEVELS && t in v[l]
      ensures t.number in files && files[t.number] == t
    {
      InstallMembers(v[l], e, l);
      assert t in Install(v, e)[l];
    }
    forall p | p in e.added
      ensures p.1.number in files && files[p.1.number] == p.1
    {
      InstallMembers(v[p.0], e, p.0);
      assert AddedAt(e, p.0, p.1);
      assert p.1 in Install(v, e)[p.0];
    }
  }

  lemma SnapshotNames(files: map<nat, Table>, v: Version)
    requires NamesVersion(files, v)
    ensures Names(files, Snapshot(v))
  {
    TablesMembers(v, NUM_LEVELS);
    forall p | p in Snapshot(v).added
      ensures p.1.number in files && files[p.1.number] == p.1
    {
      assert (p.0, p.1) in Snapshot(v).added;
    }
  }
}
