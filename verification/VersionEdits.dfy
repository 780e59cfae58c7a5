/**
 The encoding of version edits in a manifest (db/version_edit.h, db/version_edit.cc): a list of
 tagged fields. Decoding an encoded edit gives it back.
 */
module VersionEdits {
  import opened Optional
  import opened Crc32c
  import opened Coding
  import Versions

  /** What an edit says of a table file; the keys are internal keys. */
  datatype FileMetaData = FileMetaData(number: nat, fileSize: nat, smallest: Bytes, largest: Bytes) {
    predicate Fits() {
      number < TWO64 && fileSize < TWO64 && |smallest| < TWO32 && |largest| < TWO32
    }
  }

  datatype Field =
    | Comparator(name: Bytes)
    | LogNumber(number: nat)
    | PrevLogNumber(number: nat)
    | NextFileNumber(number: nat)
    | LastSequence(number: nat)
    | CompactPointer(level: nat, key: Bytes)
    | DeletedFile(level: nat, number: nat)
    | NewFile(level: nat, file: FileMetaData)
  {
    predicate Fits() {
      match this
      case Comparator(name) => |name| < TWO32
      case CompactPointer(level, key) => level < Versions.NUM_LEVELS && |key| < TWO32
      case DeletedFile(level, n) => level < Versions.NUM_LEVELS && n < TWO64
      case NewFile(level, file) => level < Versions.NUM_LEVELS && file.Fits()
      case _ => number < TWO64
    }

    function Tag(): (tag: nat)
      ensures 0 < tag < 10
    {
      match this
      case Comparator(_) => 1
      case LogNumber(_) => 2
      case NextFileNumber(_) => 3
      case LastSequence(_) => 4
      case CompactPointer(_, _) => 5
      case DeletedFile(_, _) => 6
      case NewFile(_, _) => 7
      case PrevLogNumber(_) => 9
    }

    function Body(): Bytes {
      match this
      case Comparator(name) => LengthPrefixed(name)
      case CompactPointer(level, key) => Varint(level) + LengthPrefixed(key)
      case DeletedFile(level, n) => Varint(level) + Varint(n)
      case NewFile(level, f) =>
        Varint(level) +
            (Varint(f.number) + (Varint(f.fileSize) + (LengthPrefixed(f.smallest) + LengthPrefixed(f.largest))))
      case _ => Varint(number)
    }

    function ToBytes(): (r: Bytes)
      ensures |r| > 0
    {
      Varint(Tag()) + Body()
    }
  }

  function BytesOf(fs: seq<Field>): Bytes {
    if fs == [] then [] else fs[0].ToBytes() + BytesOf(fs[1..])
  }

  // ----- parsing

  /** A field and where the next one begins. */
  type Read<T> = Option<(T, nat)>

  function ReadLevel(s: Bytes, p: nat): (r: Read<nat>)
    ensures r.Some? ==> p < r.value.1 <= |s|
  {
    var v := ReadVarint32(s, p, |s|);
    if v.Parsed? && v.value < Versions.NUM_LEVELS then Some((v.value, v.next)) else None
  }

  function ReadNumber(s: Bytes, p: nat): (r: Read<nat>)
    ensures r.Some? ==> p < r.value.1 <= |s|
  {
    var v := ReadVarint64(s, p, |s|);
    if v.Parsed? then Some((v.value, v.next)) else None
  }

  function ReadKey(s: Bytes, p: nat): (r: Read<Bytes>)
    ensures r.Some? ==> p < r.value.1 <= |s|
  {
    var v := GetLengthPrefixed(s, p);
    if v.Slice? then Some((v.bytes, v.next)) else None
  }

  function ReadFile(s: Bytes, p: nat): (r: Read<FileMetaData>)
    ensures r.Some? ==> p < r.value.1 <= |s|
  {
    var number := ReadNumber(s, p);
    if number.None? then None
    else
      var size := ReadNumber(s, number.value.1);
      if size.None? then None
      else
        var smallest := ReadKey(s, size.value.1);
        if smallest.None? then None
        else
          var largest := ReadKey(s, smallest.value.1);
          if largest.None? then None
          else Some((FileMetaData(number.value.0, size.value.0, smallest.value.0, largest.value.0), largest.value.1))
  }

  /** The field with a tag, read from behind the tag. */
  function ReadBody(tag: nat, s: Bytes, p: nat): (r: Read<Field>)
    ensures r.Some? ==> p < r.value.1 <= |s|
  {
    if tag == 1 then
      var name := ReadKey(s, p);
      if name.None? then None else Some((Comparator(name.value.0), name.value.1))
    else if tag == 2 || tag == 3 || tag == 4 || tag == 9 then
      var n := ReadNumber(s, p);
      if n.None? then None
      else Some((if tag == 2 then LogNumber(n.value.0) else if tag == 3 then NextFileNumber(n.value.0)
                 else if tag == 4 then LastSequence(n.value.0) else PrevLogNumber(n.value.0), n.value.1))
    else if tag == 5 || tag == 6 || tag == 7 then
      var level := ReadLevel(s, p);
      if level.None? then None else ReadLeveled(tag, level.value.0, s, level.value.1)
    else None
  }

  function ReadLeveled(tag: nat, level: nat, s: Bytes, p: nat): (r: Read<Field>)
    ensures r.Some? ==> p < r.value.1 <= |s|
  {
    if tag == 5 then
      var key := ReadKey(s, p);
      if key.None? then None else Some((CompactPointer(level, key.value.0), key.value.1))
    else if tag == 6 then
      var n := ReadNumber(s, p);
      if n.None? then None else Some((DeletedFile(level, n.value.0), n.value.1))
    else
      var f := ReadFile(s, p);
      if f.None? then None else Some((NewFile(level, f.value.0), f.value.1))
  }

  /** All fields of an input, or nothing when it is malformed. */
  function ParseAll(s: Bytes, p: nat): (r: Option<seq<Field>>)
    requires p <= |s|
    decreases |s| - p
  {
    if p == |s| then Some([])
    else
      var tag := ReadVarint32(s, p, |s|);
      if tag.Malformed? then None
      else
        var field := ReadBody(tag.value, s, tag.next);
        if field.None? then None
        else
          var rest := ParseAll(s, field.value.1);
          if rest.None? then None else Some([field.value.0] + rest.value)
  }

  lemma KeyRoundTrip(s: Bytes, p: nat, v: Bytes)
    requires At(s, p, LengthPrefixed(v)) && |v| < TWO32
    ensures ReadKey(s, p) == Some((v, p + |LengthPrefixed(v)|))
  {
    hide LengthPrefixed, GetLengthPrefixed;
    LengthPrefixedRoundTrip(s, p, v);
  }

  lemma NumberRoundTrip64(s: Bytes, p: nat, x: nat)
    requires At(s, p, Varint(x)) && x < TWO64
    ensures ReadNumber(s, p) == Some((x, p + |Varint(x)|))
  {
    hide Varint, ReadVarint64;
    Varint64RoundTrip(s, p, |s|, x);
  }

  lemma LevelRoundTrip(s: Bytes, p: nat, level: nat)
    requires At(s, p, Varint(level)) && level < Versions.NUM_LEVELS
    ensures ReadLevel(s, p) == Some((level, p + |Varint(level)|))
  {
    hide Varint, ReadVarint32;
    Varint32RoundTrip(s, p, |s|, level);
  }

  lemma FileRoundTrip(s: Bytes, p: nat, f: FileMetaData)
    requires f.Fits()
    requires At(s, p,
             Varint(f.number) + (Varint(f.fileSize) + (LengthPrefixed(f.smallest) + LengthPrefixed(f.largest))))
    ensures ReadFile(s, p)
         == Some((f, p + |Varint(f.number)| + |Varint(f.fileSize)| + |LengthPrefixed(f.smallest)| +
             |LengthPrefixed(f.largest)|))
  {
    hide Varint, LengthPrefixed, At, ReadNumber, ReadKey;
    var a, b, c, d := Varint(f.number), Varint(f.fileSize), LengthPrefixed(f.smallest), LengthPrefixed(f.largest);
    AtBoth(s, p, a, b + (c + d));
    AtBoth(s, p + |a|, b, c + d);
    AtBoth(s, p + |a| + |b|, c, d);
    NumberRoundTrip64(s, p, f.number);
    NumberRoundTrip64(s, p + |a|, f.fileSize);
    KeyRoundTrip(s, p + |a| + |b|, f.smallest);
    KeyRoundTrip(s, p + |a| + |b| + |c|, f.largest);
  }

  lemma BodyRoundTrip(s: Bytes, p: nat, f: Field)
    requires At(s, p, f.Body()) && f.Fits()
    ensures ReadBody(f.Tag(), s, p) == Some((f, p + |f.Body()|))
  {
    hide Varint, LengthPrefixed, At, ReadNumber, ReadKey, ReadLevel, ReadFile;
    match f
    case Comparator(name) => KeyRoundTrip(s, p, name);
    case CompactPointer(level, key) =>
      AtBoth(s, p, Varint(level), LengthPrefixed(key));
      LevelRoundTrip(s, p, level);
      KeyRoundTrip(s, p + |Varint(level)|, key);
    case DeletedFile(level, n) =>
      AtBoth(s, p, Varint(level), Varint(n));
      LevelRoundTrip(s, p, level);
      NumberRoundTrip64(s, p + |Varint(level)|, n);
    case NewFile(level, file) =>
      var rest := Varint(file.number) +
          (Varint(file.fileSize) + (LengthPrefixed(file.smallest) + LengthPrefixed(file.largest)));
      AtBoth(s, p, Varint(level), rest);
      LevelRoundTrip(s, p, level);
      FileRoundTrip(s, p + |Varint(level)|, file);
    case _ => NumberRoundTrip64(s, p, f.number);
  }

  ghost predicate AllFit(fs: seq<Field>) {
    forall f :: f in fs ==> f.Fits()
  }

  /** Parsing finds the fields that were written. */
  lemma {:induction false} ParseRoundTrip(s: Bytes, p: nat, fs: seq<Field>)
    requires At(s, p, BytesOf(fs)) && p + |BytesOf(fs)| == |s| && AllFit(fs)
    ensures ParseAll(s, p) == Some(fs)
    decreases |fs|
  {
    hide At, ReadBody, Field.Body, Varint, ReadVarint32;
    if fs != [] {
      var f := fs[0];
      AtBoth(s, p, f.ToBytes(), BytesOf(fs[1..]));
      AtBoth(s, p, Varint(f.Tag()), f.Body());
      Varint32RoundTrip(s, p, |s|, f.Tag());
      BodyRoundTrip(s, p + |Varint(f.Tag())|, f);
      ParseRoundTrip(s, p + |f.ToBytes()|, fs[1..]);
      assert [f] + fs[1..] == fs;
    }
  }

  // ----- edits

  datatype EditValue = EditValue(comparator: Option<Bytes>, logNumber: Option<nat>, prevLogNumber: Option<nat>,
                                 nextFileNumber: Option<nat>, lastSequence: Option<nat>,
                                 compactPointers: seq<(nat, Bytes)>, deletedFiles: set<(nat, nat)>,
                                 newFiles: seq<(nat, FileMetaData)>)
  {
    /** Clear() keeps the compaction pointers. */
    function Cleared(): EditValue {
      EditValue(None, None, None, None, None, compactPointers, {}, [])
    }

    function With(f: Field): EditValue {
      match f
      case Comparator(name) => this.(comparator := Some(name))
      case LogNumber(n) => this.(logNumber := Some(n))
      case PrevLogNumber(n) => this.(prevLogNumber := Some(n))
      case NextFileNumber(n) => this.(nextFileNumber := Some(n))
      case LastSequence(n) => this.(lastSequence := Some(n))
      case CompactPointer(level, key) => this.(compactPointers := compactPointers + [(level, key)])
      case DeletedFile(level, n) => this.(deletedFiles := deletedFiles + {(level, n)})
      case NewFile(level, file) => this.(newFiles := newFiles + [(level, file)])
    }

    function WithAll(fs: seq<Field>): EditValue
      decreases |fs|
    {
      if fs == [] then this else WithAll(fs[..|fs| - 1]).With(fs[|fs| - 1])
    }

    ghost predicate Fits() {
      && (comparator.Some? ==> |comparator.value| < TWO32)
      && (logNumber.Some? ==> logNumber.value < TWO64) && (prevLogNumber.Some? ==> prevLogNumber.value < TWO64)
      && (nextFileNumber.Some? ==> nextFileNumber.value < TWO64) && (lastSequence.Some? ==> lastSequence.value < TWO64)
      && (forall c :: c in compactPointers ==> c.0 < Versions.NUM_LEVELS && |c.1| < TWO32)
      && (forall d :: d in deletedFiles ==> d.0 < Versions.NUM_LEVELS && d.1 < TWO64)
      && (forall n :: n in newFiles ==> n.0 < Versions.NUM_LEVELS && n.1.Fits())
    }
  }

  function Opt(f: Option<Field>): seq<Field> {
    if f.Some? then [f.value] else []
  }

  function ComparatorField(e: EditValue): Option<Field> {
    if e.comparator.Some? then Some(Comparator(e.comparator.value)) else None
  }

  function LogField(e: EditValue): Option<Field> {
    if e.logNumber.Some? then Some(LogNumber(e.logNumber.value)) else None
  }

  function PrevLogField(e: EditValue): Option<Field> {
    if e.prevLogNumber.Some? then Some(PrevLogNumber(e.prevLogNumber.value)) else None
  }

  function NextFileField(e: EditValue): Option<Field> {
    if e.nextFileNumber.Some? then Some(NextFileNumber(e.nextFileNumber.value)) else None
  }

  function LastSequenceField(e: EditValue): Option<Field> {
    if e.lastSequence.Some? then Some(LastSequence(e.lastSequence.value)) else None
  }

  function PointerFields(cs: seq<(nat, Bytes)>): seq<Field> {
    seq(|cs|, i requires 0 <= i < |cs| => CompactPointer(cs[i].0, cs[i].1))
  }

  function DeletedFields(ds: seq<(nat, nat)>): seq<Field> {
    seq(|ds|, i requires 0 <= i < |ds| => DeletedFile(ds[i].0, ds[i].1))
  }

  function NewFields(ns: seq<(nat, FileMetaData)>): seq<Field> {
    seq(|ns|, i requires 0 <= i < |ns| => NewFile(ns[i].0, ns[i].1))
  }

  /** The fields that are single values, in the order in which they are written. */
  function ScalarFields(e: EditValue): seq<Field> {
    Opt(ComparatorField(e)) + Opt(LogField(e)) + Opt(PrevLogField(e)) + Opt(NextFileField(e)) +
        Opt(LastSequenceField(e))
  }

  /** All fields of an edit, the deleted files in a given order. */
  function FieldsOf(e: EditValue, order: seq<(nat, nat)>): seq<Field> {
    ScalarFields(e) + PointerFields(e.compactPointers) + DeletedFields(order) + NewFields(e.newFiles)
  }

  predicate Below(a: (nat, nat), b: (nat, nat)) {
    a.0 < b.0 || (a.0 == b.0 && a.1 < b.1)
  }

  /** A listing of the set in ascending order, as std::set iterates. */
  ghost predicate IsListing(order: seq<(nat, nat)>, s: set<(nat, nat)>) {
    && (forall d :: d in order <==> d in s)
    && (forall i, j {:trigger order[i], order[j]} :: 0 <= i < j < |order| ==> Below(order[i], order[j]))
  }

  lemma {:induction false} WithAllConcat(e: EditValue, a: seq<Field>, b: seq<Field>)
    ensures e.WithAll(a + b) == e.WithAll(a).WithAll(b)
    decreases |b|
  {
    if b == [] {
      assert a + b == a;
    } else {
      var n := |b| - 1;
      assert (a + b)[..|a + b| - 1] == a + b[..n];
      WithAllConcat(e, a, b[..n]);
    }
  }

  lemma {:induction false} WithPointers(e: EditValue, cs: seq<(nat, Bytes)>)
    ensures e.WithAll(PointerFields(cs)) == e.(compactPointers := e.compactPointers + cs)
    decreases |cs|
  {
    if cs == [] {
      assert e.compactPointers + cs == e.compactPointers;
    } else {
      var n := |cs| - 1;
      assert PointerFields(cs)[..n] == PointerFields(cs[..n]);
      WithPointers(e, cs[..n]);
      assert e.compactPointers + cs[..n] + [cs[n]] == e.compactPointers + cs;
    }
  }

  lemma {:induction false} WithDeleted(e: EditValue, ds: seq<(nat, nat)>)
    ensures e.WithAll(DeletedFields(ds)) == e.(deletedFiles := e.deletedFiles + set d | d in ds)
    decreases |ds|
  {
    if ds == [] {
      assert e.deletedFiles + (set d | d in ds) == e.deletedFiles;
    } else {
      var n := |ds| - 1;
      assert DeletedFields(ds)[..n] == DeletedFields(ds[..n]);
      WithDeleted(e, ds[..n]);
      assert ds == ds[..n] + [ds[n]];
      assert e.deletedFiles + (set d | d in ds[..n]) + {ds[n]} == e.deletedFiles + set d | d in ds;
    }
  }

  lemma {:induction false} WithNewFiles(e: EditValue, ns: seq<(nat, FileMetaData)>)
    ensures e.WithAll(NewFields(ns)) == e.(newFiles := e.newFiles + ns)
    decreases |ns|
  {
    if ns == [] {
      assert e.newFiles + ns == e.newFiles;
    } else {
      var n := |ns| - 1;
      assert NewFields(ns)[..n] == NewFields(ns[..n]);
      WithNewFiles(e, ns[..n]);
      assert e.newFiles + ns[..n] + [ns[n]] == e.newFiles + ns;
    }
  }

  lemma WithOpt(e: EditValue, f: Option<Field>)
    ensures e.WithAll(Opt(f)) == if f.Some? then e.With(f.value) else e
  {
    if f.Some? {
      assert [f.value][..0] == [];
      assert e.WithAll([]) == e;
    }
  }

  lemma WithScalars(base: EditValue, e: EditValue)
    ensures base.Cleared().WithAll(ScalarFields(e))
         == EditValue(e.comparator, e.logNumber, e.prevLogNumber, e.nextFileNumber, e.lastSequence,
             base.compactPointers, {}, [])
  {
    hide EditValue.WithAll, Opt;
    var a, b, c := Opt(ComparatorField(e)), Opt(LogField(e)), Opt(PrevLogField(e));
    var d, f := Opt(NextFileField(e)), Opt(LastSequenceField(e));
    var x := base.Cleared();
    WithAllConcat(x, a + b + c + d, f);
    WithAllConcat(x, a + b + c, d);
    WithAllConcat(x, a + b, c);
    WithAllConcat(x, a, b);
    WithOpt(x, ComparatorField(e));
    WithOpt(x.WithAll(a), LogField(e));
    WithOpt(x.WithAll(a).WithAll(b), PrevLogField(e));
    WithOpt(x.WithAll(a).WithAll(b).WithAll(c), NextFileField(e));
    WithOpt(x.WithAll(a).WithAll(b).WithAll(c).WithAll(d), LastSequenceField(e));
  }

  /** The fields of an edit make the edit; only old compaction pointers stay in front. */
  lemma FieldsMakeEdit(base: EditValue, e: EditValue, order: seq<(nat, nat)>)
    requires IsListing(order, e.deletedFiles)
    ensures base.Cleared().WithAll(FieldsOf(e, order)) ==
            e.(compactPointers := base.compactPointers + e.compactPointers)
  {
    hide ScalarFields, PointerFields, DeletedFields, NewFields, EditValue.WithAll;
    var a, b, c, d := ScalarFields(e), PointerFields(e.compactPointers), DeletedFields(order), NewFields(e.newFiles);
    var x := base.Cleared();
    WithAllConcat(x, a + b + c, d);
    WithAllConcat(x, a + b, c);
    WithAllConcat(x, a, b);
    WithScalars(base, e);
    WithPointers(x.WithAll(a), e.compactPointers);
    WithDeleted(x.WithAll(a).WithAll(b), order);
    assert {} + (set d | d in order) == e.deletedFiles;
    WithNewFiles(x.WithAll(a).WithAll(b).WithAll(c), e.newFiles);
  }

  lemma FieldsFit(e: EditValue, order: seq<(nat, nat)>)
    requires e.Fits() && IsListing(order, e.deletedFiles)
    ensures AllFit(FieldsOf(e, order))
  {
    forall f | f in FieldsOf(e, order)
      ensures f.Fits()
    {
      if f in PointerFields(e.compactPointers) {
        var i :| 0 <= i < |e.compactPointers| && f == CompactPointer(e.compactPointers[i].0, e.compactPointers[i].1);
        assert e.compactPointers[i] in e.compactPointers;
      } else if f in DeletedFields(order) {
        var i :| 0 <= i < |order| && f == DeletedFile(order[i].0, order[i].1);
        assert order[i] in order;
      } else if f in NewFields(e.newFiles) {
        var i :| 0 <= i < |e.newFiles| && f == NewFile(e.newFiles[i].0, e.newFiles[i].1);
        assert e.newFiles[i] in e.newFiles;
      } else {
        assert f in ScalarFields(e);
      }
    }
  }

  lemma {:induction false} BytesOfConcat(a: seq<Field>, b: seq<Field>)
    ensures BytesOf(a + b) == BytesOf(a) + BytesOf(b)
  {
    if a == [] {
      assert a + b == b;
    } else {
      assert (a + b)[1..] == a[1..] + b;
      BytesOfConcat(a[1..], b);
    }
  }

  lemma BytesOfOneMore(a: seq<Field>, f: Field)
    ensures BytesOf(a + [f]) == BytesOf(a) + f.ToBytes()
  {
    BytesOfConcat(a, [f]);
    assert BytesOf([f]) == f.ToBytes() + BytesOf([]);
  }

  class VersionEdit {
    var comparator: Option<Bytes>
    var logNumber: Option<nat>
    var prevLogNumber: Option<nat>
    var nextFileNumber: Option<nat>
    var lastSequence: Option<nat>
    var compactPointers: seq<(nat, Bytes)>
    var deletedFiles: set<(nat, nat)>
    var newFiles: seq<(nat, FileMetaData)>

    function Value(): EditValue
      reads this
    {
      EditValue(comparator, logNumber, prevLogNumber, nextFileNumber, lastSequence, compactPointers, deletedFiles,
          newFiles)
    }

    constructor ()
      ensures Value() == EditValue(None, None, None, None, None, [], {}, [])
    {
      comparator, logNumber, prevLogNumber, nextFileNumber, lastSequence := None, None, None, None, None;
      compactPointers, deletedFiles, newFiles := [], {}, [];
    }

    method Clear()
      modifies this
      ensures Value() == old(Value()).Cleared()
    {
      comparator, logNumber, prevLogNumber, nextFileNumber, lastSequence := None, None, None, None, None;
      deletedFiles, newFiles := {}, [];
    }

    method EncodeTo(dst: Bytes) returns (r: Bytes, ghost order: seq<(nat, nat)>)
      ensures IsListing(order, deletedFiles) && r == dst + BytesOf(FieldsOf(Value(), order))
    {
      hide Field.ToBytes, BytesOf, IsListing, ScalarFields, PointerFields, DeletedFields, NewFields;
      r := PutScalars(dst);
      r := PutPointers(r);
      r, order := PutDeleted(r);
      r := PutNewFiles(r);
      ghost var e := Value();
      var a, b, c := ScalarFields(e), PointerFields(compactPointers), DeletedFields(order);
      BytesOfConcat(a, b);
      BytesOfConcat(a + b, c);
      BytesOfConcat(a + b + c, NewFields(newFiles));
    }

    method PutScalars(dst: Bytes) returns (r: Bytes)
      ensures r == dst + BytesOf(ScalarFields(Value()))
    {
      hide Opt, BytesOf;
      var e := Value();
      r := PutOpt(dst, ComparatorField(e));
      r := PutOpt(r, LogField(e));
      r := PutOpt(r, PrevLogField(e));
      r := PutOpt(r, NextFileField(e));
      r := PutOpt(r, LastSequenceField(e));
      var a, b, c := Opt(ComparatorField(e)), Opt(LogField(e)), Opt(PrevLogField(e));
      var d, f := Opt(NextFileField(e)), Opt(LastSequenceField(e));
      BytesOfConcat(a + b + c + d, f);
      BytesOfConcat(a + b + c, d);
      BytesOfConcat(a + b, c);
      BytesOfConcat(a, b);
      FiveParts(dst, BytesOf(a), BytesOf(b), BytesOf(c), BytesOf(d), BytesOf(f));
    }

    method PutPointers(dst: Bytes) returns (r: Bytes)
      ensures r == dst + BytesOf(PointerFields(compactPointers))
    {
      hide Field.ToBytes;
      r := dst;
      for i := 0 to |compactPointers|
        invariant r == dst + BytesOf(PointerFields(compactPointers[..i]))
      {
        var f := CompactPointer(compactPointers[i].0, compactPointers[i].1);
        BytesOfOneMore(PointerFields(compactPointers[..i]), f);
        assert PointerFields(compactPointers[..i + 1]) == PointerFields(compactPointers[..i]) + [f];
        r := r + f.ToBytes();
      }
      assert compactPointers[..|compactPointers|] == compactPointers;
    }

    method PutNewFiles(dst: Bytes) returns (r: Bytes)
      ensures r == dst + BytesOf(NewFields(newFiles))
    {
      hide Field.ToBytes;
      r := dst;
      for i := 0 to |newFiles|
        invariant r == dst + BytesOf(NewFields(newFiles[..i]))
      {
        var f := NewFile(newFiles[i].0, newFiles[i].1);
        BytesOfOneMore(NewFields(newFiles[..i]), f);
        assert NewFields(newFiles[..i + 1]) == NewFields(newFiles[..i]) + [f];
        r := r + f.ToBytes();
      }
      assert newFiles[..|newFiles|] == newFiles;
    }

    /** The set is written in ascending order. */
    method PutDeleted(dst: Bytes) returns (r: Bytes, ghost order: seq<(nat, nat)>)
      ensures IsListing(order, deletedFiles) && r == dst + BytesOf(DeletedFields(order))
    {
      hide Field.ToBytes;
      r, order := dst, [];
      var rest := deletedFiles;
      while rest != {}
        invariant rest <= deletedFiles && IsListing(order, deletedFiles - rest)
        invariant forall a, b :: a in order && b in rest ==> Below(a, b)
        invariant r == dst + BytesOf(DeletedFields(order))
        decreases rest
      {
        LeastExists(rest);
        var d :| d in rest && forall e :: e in rest && e != d ==> Below(d, e);
        BytesOfOneMore(DeletedFields(order), DeletedFile(d.0, d.1));
        assert DeletedFields(order + [d]) == DeletedFields(order) + [DeletedFile(d.0, d.1)];
        r := r + DeletedFile(d.0, d.1).ToBytes();
        order := order + [d];
        rest := rest - {d};
      }
      assert deletedFiles - rest == deletedFiles;
    }

    /** Take over the fields of an encoded edit, as far as they are well formed. */
    method DecodeFrom(src: Bytes) returns (ok: bool)
      modifies this
      ensures ok <==> ParseAll(src, 0).Some?
      ensures ok ==> Value() == old(Value()).Cleared().WithAll(ParseAll(src, 0).value)
    {
      hide ReadBody, ReadVarint32, EditValue.With;
      Clear();
      var p := 0;
      ghost var fs: seq<Field> := [];
      if ParseAll(src, 0).Some? {
        NothingMore(ParseAll(src, 0).value);
      }
      while p < |src|
        invariant p <= |src| && Value() == old(Value()).Cleared().WithAll(fs)
        invariant ParseAll(src, 0) == (if ParseAll(src, p).None? then None else Some(fs + ParseAll(src, p).value))
        decreases |src| - p
      {
        var tag := ReadVarint32(src, p, |src|);
        if tag.Malformed? {
          return false;
        }
        var field := ReadBody(tag.value, src, tag.next);
        if field.None? {
          return false;
        }
        OneMore(old(Value()).Cleared(), fs, field.value.0);
        Take(field.value.0);
        fs := fs + [field.value.0];
        p := field.value.1;
      }
      NothingMore(fs);
      return true;
    }

    method Take(f: Field)
      modifies this
      ensures Value() == old(Value()).With(f)
    {
      match f
      case Comparator(name) => comparator := Some(name);
      case LogNumber(n) => logNumber := Some(n);
      case PrevLogNumber(n) => prevLogNumber := Some(n);
      case NextFileNumber(n) => nextFileNumber := Some(n);
      case LastSequence(n) => lastSequence := Some(n);
      case CompactPointer(level, key) => compactPointers := compactPointers + [(level, key)];
      case DeletedFile(level, n) => deletedFiles := deletedFiles + {(level, n)};
      case NewFile(level, file) => newFiles := newFiles + [(level, file)];
    }
  }

  method PutOpt(dst: Bytes, f: Option<Field>) returns (r: Bytes)
    ensures r == dst + BytesOf(Opt(f))
  {
    r := dst;
    if f.Some? {
      BytesOfOneMore([], f.value);
      assert [] + [f.value] == [f.value];
      r := r + f.value.ToBytes();
    }
  }

  lemma FiveParts(x: Bytes, a: Bytes, b: Bytes, c: Bytes, d: Bytes, f: Bytes)
    ensures x + a + b + c + d + f == x + (a + b + c + d + f)
  {
  }

  lemma NothingMore(fs: seq<Field>)
    ensures [] + fs == fs && fs + [] == fs
  {
  }

  lemma OneMore(e: EditValue, fs: seq<Field>, f: Field)
    ensures e.WithAll(fs + [f]) == e.WithAll(fs).With(f)
    ensures forall rest: seq<Field> :: fs + ([f] + rest) == fs + [f] + rest
  {
    assert (fs + [f])[..|fs|] == fs;
  }

  lemma {:induction false} LeastExists(s: set<(nat, nat)>)
    requires s != {}
    ensures exists d :: d in s && forall e :: e in s && e != d ==> Below(d, e)
  {
    var x :| x in s;
    var rest := s - {x};
    if rest != {} {
      LeastExists(rest);
      var y :| y in rest && forall e :: e in rest && e != y ==> Below(y, e);
      var d := if Below(x, y) then x else y;
      forall e | e in s && e != d
        ensures Below(d, e)
      {
        assert e == x || e in rest;
      }
    } else {
      assert s == {x};
    }
  }

  /**
   An edit that is encoded and decoded again, into any edit object, comes back whole; compaction
   pointers that the object held before stay in front, because Clear leaves them.
   */
  method EditRoundTrip(e: VersionEdit, d: VersionEdit) returns (ok: bool)
    requires e.Value().Fits() && e != d
    modifies d
    ensures ok && d.Value() == e.Value().(compactPointers := old(d.compactPointers) + e.compactPointers)
    ensures e.Value() == old(e.Value())
  {
    hide FieldsOf, BytesOf, ParseAll, EditValue.WithAll, EditValue.Fits, IsListing, AllFit;
    var bytes;
    ghost var order;
    bytes, order := e.EncodeTo([]);
    ghost var fs := FieldsOf(e.Value(), order);
    assert bytes == BytesOf(fs);
    FieldsFit(e.Value(), order);
    WholeBuffer(bytes);
    ParseRoundTrip(bytes, 0, fs);
    FieldsMakeEdit(d.Value(), e.Value(), order);
    ok := d.DecodeFrom(bytes);
  }

  lemma WholeBuffer(s: Bytes)
    ensures At(s, 0, s)
  {
  }
}
