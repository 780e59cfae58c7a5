/**
 Write batches (db/write_batch.cc): the bytes of a group of updates, as they go to the log, come
 back from it, and go to a memtable.
 */
module WriteBatches {
  import opened Optional
  import opened Crc32c
  import opened Coding

  datatype BatchOp = Put(key: Bytes, value: Bytes) | Delete(key: Bytes) {
    predicate Fits() {
      |key| < TWO32 && (Put? ==> |value| < TWO32)
    }

    function ToBytes(): (r: Bytes)
      ensures |r| > 0
    {
      match this
      case Put(key, value) => [1] + (LengthPrefixed(key) + LengthPrefixed(value))
      case Delete(key) => [0] + LengthPrefixed(key)
    }
  }

  /** The sequence number and the count. */
  const HEADER: nat := 12
  const MAX_COUNT: nat := 0x7fff_ffff

  function RecordsOf(ops: seq<BatchOp>): Bytes {
    if ops == [] then [] else RecordsOf(ops[..|ops| - 1]) + ops[|ops| - 1].ToBytes()
  }

  ghost predicate AllFit(ops: seq<BatchOp>) {
    forall op :: op in ops ==> op.Fits()
  }

  function CountOf(rep: Bytes): nat
    requires |rep| >= HEADER
  {
    GetFixed(rep, 8, 4)
  }

  function SequenceOf(rep: Bytes): nat
    requires |rep| >= HEADER
  {
    GetFixed(rep, 0, 8)
  }

  /** The bytes of a batch of `ops` that begins at `sequence`. */
  ghost predicate IsBatch(rep: Bytes, sequence: nat, ops: seq<BatchOp>) {
    && |rep| >= HEADER && rep[HEADER..] == RecordsOf(ops) && AllFit(ops) && |ops| <= MAX_COUNT
    && CountOf(rep) == |ops| && SequenceOf(rep) == sequence
  }

  // ----- parsing

  function ReadRecord(s: Bytes, p: nat): (r: Option<(BatchOp, nat)>)
    requires p < |s|
    ensures r.Some? ==> p < r.value.1 <= |s|
  {
    if s[p] == 1 then
      var key := GetLengthPrefixed(s, p + 1);
      if key.NoSlice? then None
      else
        var value := GetLengthPrefixed(s, key.next);
        if value.NoSlice? then None else Some((Put(key.bytes, value.bytes), value.next))
    else if s[p] == 0 then
      var key := GetLengthPrefixed(s, p + 1);
      if key.NoSlice? then None else Some((Delete(key.bytes), key.next))
    else None
  }

  /** The records from `p` on, as far as they are well formed, and whether they all are. */
  function ReadRecords(s: Bytes, p: nat): (r: (seq<BatchOp>, bool))
    requires p <= |s|
    decreases |s| - p
  {
    if p == |s| then ([], true)
    else
      var record := ReadRecord(s, p);
      if record.None? then ([], false)
      else
        var rest := ReadRecords(s, record.value.1);
        ([record.value.0] + rest.0, rest.1)
  }

  lemma RecordRoundTrip(s: Bytes, p: nat, op: BatchOp)
    requires At(s, p, op.ToBytes()) && op.Fits()
    ensures p < |s| && ReadRecord(s, p) == Some((op, p + |op.ToBytes()|))
  {
    hide LengthPrefixed, GetLengthPrefixed, At;
    match op
    case Put(key, value) =>
      AtBoth(s, p, [1], LengthPrefixed(key) + LengthPrefixed(value));
      AtBoth(s, p + 1, LengthPrefixed(key), LengthPrefixed(value));
      OneByte(s, p, 1);
      LengthPrefixedRoundTrip(s, p + 1, key);
      LengthPrefixedRoundTrip(s, p + 1 + |LengthPrefixed(key)|, value);
    case Delete(key) =>
      AtBoth(s, p, [0], LengthPrefixed(key));
      OneByte(s, p, 0);
      LengthPrefixedRoundTrip(s, p + 1, key);
  }

  lemma OneByte(s: Bytes, p: nat, b: Byte)
    requires At(s, p, [b])
    ensures p < |s| && s[p] == b
  {
    assert s[p..p + 1][0] == b;
  }

  lemma {:induction false} RecordsSplit(ops: seq<BatchOp>)
    requires ops != []
    ensures RecordsOf(ops) == ops[0].ToBytes() + RecordsOf(ops[1..])
    decreases |ops|
  {
    hide BatchOp.ToBytes;
    var n := |ops| - 1;
    if n == 0 {
      assert ops[..0] == [] && ops[1..] == [];
      assert [] + ops[0].ToBytes() == ops[0].ToBytes() == ops[0].ToBytes() + [];
    } else {
      RecordsSplit(ops[..n]);
      Reassociate(ops[0].ToBytes(), RecordsOf(ops[1..n]), ops[n].ToBytes());
      assert ops[..n][1..] == ops[1..][..n - 1];
      assert ops[..n][0] == ops[0];
    }
  }

  /** Reading finds the records that were written. */
  lemma {:induction false} RecordsRoundTrip(s: Bytes, p: nat, ops: seq<BatchOp>)
    requires At(s, p, RecordsOf(ops)) && p + |RecordsOf(ops)| == |s| && AllFit(ops)
    ensures ReadRecords(s, p) == (ops, true)
    decreases |ops|
  {
    hide At, ReadRecord, BatchOp.ToBytes;
    if ops != [] {
      RecordsSplit(ops);
      AtBoth(s, p, ops[0].ToBytes(), RecordsOf(ops[1..]));
      RecordRoundTrip(s, p, ops[0]);
      RecordsRoundTrip(s, p + |ops[0].ToBytes()|, ops[1..]);
      assert [ops[0]] + ops[1..] == ops;
    }
  }

  lemma {:induction false} RecordsConcat(a: seq<BatchOp>, b: seq<BatchOp>)
    ensures RecordsOf(a + b) == RecordsOf(a) + RecordsOf(b)
    decreases |b|
  {
    hide BatchOp.ToBytes;
    if b == [] {
      assert a + b == a;
    } else {
      var n := |b| - 1;
      assert (a + b)[..|a + b| - 1] == a + b[..n];
      RecordsConcat(a, b[..n]);
      Reassociate(RecordsOf(a), RecordsOf(b[..n]), b[n].ToBytes());
    }
  }

  lemma PiecesOf(before: Bytes, op: BatchOp)
    ensures before + op.ToBytes()
         == if op.Put? then before + [1] + LengthPrefixed(op.key) + LengthPrefixed(op.value)
            else before + [0] + LengthPrefixed(op.key)
  {
    hide LengthPrefixed;
  }

  // ----- batches

  /** An update with the sequence number it gets in a memtable. */
  datatype Numbered = Numbered(sequence: nat, op: BatchOp)

  function NumberFrom(ops: seq<BatchOp>, first: nat): (r: seq<Numbered>)
    ensures |r| == |ops|
  {
    seq(|ops|, i requires 0 <= i < |ops| => Numbered(first + i, ops[i]))
  }

  class WriteBatch {
    var rep: Bytes
    ghost var ops: seq<BatchOp>
    ghost var sequence: nat

    ghost predicate Valid()
      reads this
    {
      IsBatch(rep, sequence, ops)
    }

    constructor ()
      ensures Valid() && ops == [] && sequence == 0
    {
      rep, ops, sequence := seq(HEADER, _ => 0), [], 0;
      new;
      ZeroHeader(rep);
    }

    method Clear()
      modifies this
      ensures Valid() && ops == [] && sequence == 0
    {
      rep, ops, sequence := seq(HEADER, _ => 0), [], 0;
      ZeroHeader(rep);
    }

    method SetCount(n: nat)
      requires |rep| >= HEADER && n < TWO32
      modifies this`rep
      ensures |rep| == |old(rep)| && rep[HEADER..] == old(rep)[HEADER..]
      ensures CountOf(rep) == n && SequenceOf(rep) == SequenceOf(old(rep))
    {
      CountPatched(rep, n);
      rep := rep[..8] + Fixed(n, 4) + rep[HEADER..];
    }

    method SetSequence(seqno: nat)
      requires Valid() && seqno < TWO64
      modifies this
      ensures Valid() && ops == old(ops) && sequence == seqno
    {
      hide GetFixed, Fixed, RecordsOf, AllFit;
      SequencePatched(rep, seqno);
      rep := Fixed(seqno, 8) + rep[8..];
      sequence := seqno;
    }

    method Put(key: Bytes, value: Bytes)
      requires Valid() && |ops| < MAX_COUNT && BatchOp.Put(key, value).Fits()
      modifies this
      ensures Valid() && ops == old(ops) + [BatchOp.Put(key, value)] && sequence == old(sequence)
    {
      hide LengthPrefixed, GetFixed, BatchOp.ToBytes, RecordsOf, AllFit;
      SetCount(CountOf(rep) + 1);
      ghost var op := BatchOp.Put(key, value);
      OneMoreRecord(rep, ops, op);
      ghost var before := rep;
      rep := rep + [1];
      rep := rep + LengthPrefixed(key);
      rep := rep + LengthPrefixed(value);
      PiecesOf(before, op);
      HeaderStays(before, op.ToBytes());
      ops := ops + [op];
    }

    method Delete(key: Bytes)
      requires Valid() && |ops| < MAX_COUNT && BatchOp.Delete(key).Fits()
      modifies this
      ensures Valid() && ops == old(ops) + [BatchOp.Delete(key)] && sequence == old(sequence)
    {
      hide LengthPrefixed, GetFixed, BatchOp.ToBytes, RecordsOf, AllFit;
      SetCount(CountOf(rep) + 1);
      ghost var op := BatchOp.Delete(key);
      OneMoreRecord(rep, ops, op);
      ghost var before := rep;
      rep := rep + [0];
      rep := rep + LengthPrefixed(key);
      PiecesOf(before, op);
      HeaderStays(before, op.ToBytes());
      ops := ops + [op];
    }

    /** The updates of `source` follow; `source` may be this batch. */
    method Append(source: WriteBatch)
      requires Valid() && source.Valid() && |ops| + |source.ops| <= MAX_COUNT
      modifies this
      ensures Valid() && ops == old(ops) + old(source.ops) && sequence == old(sequence)
    {
      hide GetFixed, RecordsOf, AllFit;
      ghost var more := source.ops;
      BothFit(ops, more);
      SetCount(CountOf(rep) + CountOf(source.rep));
      RecordsConcat(ops, more);
      HeaderStays(rep, source.rep[HEADER..]);
      rep := rep + source.rep[HEADER..];
      ops := ops + more;
    }
  }

  lemma ZeroHeader(rep: Bytes)
    requires rep == seq(HEADER, _ => 0)
    ensures IsBatch(rep, 0, [])
  {
    hide Fixed, GetFixed;
    Powers();
    ZerosAreZero(8);
    ZerosAreZero(4);
    assert rep[0..8] == seq(8, _ => 0) && rep[8..12] == seq(4, _ => 0);
    FixedRoundTrip(rep, 0, 0, 8);
    FixedRoundTrip(rep, 8, 0, 4);
  }

  lemma {:induction false} ZerosAreZero(n: nat)
    ensures Fixed(0, n) == seq(n, _ => 0)
  {
    if n > 0 {
      ZerosAreZero(n - 1);
    }
  }

  lemma CountPatched(rep: Bytes, n: nat)
    requires |rep| >= HEADER && n < TWO32
    ensures var r := rep[..8] + Fixed(n, 4) + rep[HEADER..];
            && |r| == |rep| && r[HEADER..] == rep[HEADER..]
            && CountOf(r) == n && SequenceOf(r) == SequenceOf(rep)
  {
    hide Fixed, GetFixed;
    Powers();
    var r := rep[..8] + Fixed(n, 4) + rep[HEADER..];
    AtAfter(rep[..8], Fixed(n, 4), rep[HEADER..]);
    FixedRoundTrip(r, 8, n, 4);
    SameFixed(r, rep, 0, 8);
  }

  lemma SequencePatched(rep: Bytes, n: nat)
    requires |rep| >= HEADER && n < TWO64
    ensures var r := Fixed(n, 8) + rep[8..];
            && |r| == |rep| && r[HEADER..] == rep[HEADER..]
            && CountOf(r) == CountOf(rep) && SequenceOf(r) == n
  {
    hide Fixed, GetFixed;
    Powers();
    var r := Fixed(n, 8) + rep[8..];
    assert At(r, 0, Fixed(n, 8));
    FixedRoundTrip(r, 0, n, 8);
    SameFixed(r, rep, 8, 4);
  }

  lemma HeaderStays(rep: Bytes, more: Bytes)
    requires |rep| >= HEADER
    ensures CountOf(rep + more) == CountOf(rep) && SequenceOf(rep + more) == SequenceOf(rep)
    ensures (rep + more)[HEADER..] == rep[HEADER..] + more
  {
    hide GetFixed;
    SameFixed(rep + more, rep, 0, 8);
    SameFixed(rep + more, rep, 8, 4);
  }

  lemma {:induction false} SameFixed(a: Bytes, b: Bytes, p: nat, n: nat)
    requires p + n <= |a| && p + n <= |b| && forall i :: p <= i < p + n ==> a[i] == b[i]
    ensures GetFixed(a, p, n) == GetFixed(b, p, n)
    decreases n
  {
    hide FromByte;
    if n > 0 {
      SameFixed(a, b, p + 1, n - 1);
    }
  }

  lemma OneMoreRecord(rep: Bytes, ops: seq<BatchOp>, op: BatchOp)
    requires |rep| >= HEADER && rep[HEADER..] == RecordsOf(ops) && AllFit(ops) && op.Fits()
    ensures rep[HEADER..] + op.ToBytes() == RecordsOf(ops + [op]) && AllFit(ops + [op])
  {
    assert (ops + [op])[..|ops|] == ops;
  }

  lemma BothFit(a: seq<BatchOp>, b: seq<BatchOp>)
    requires AllFit(a) && AllFit(b)
    ensures AllFit(a + b)
  {
  }

  /** Iterate: every well-formed record goes to the handler, and the count is checked at the end. */
  method Iterate(rep: Bytes) returns (ok: bool, handled: seq<BatchOp>)
    ensures |rep| < HEADER ==> !ok && handled == []
    ensures |rep| >= HEADER ==>
              && handled == ReadRecords(rep, HEADER).0
              && (ok <==> ReadRecords(rep, HEADER).1 && |handled| == CountOf(rep))
  {
    hide ReadRecord, GetFixed;
    handled := [];
    if |rep| < HEADER {
      return false, handled;
    }
    var p, found := HEADER, 0;
    ghost var all := ReadRecords(rep, HEADER);
    NothingBefore(all.0);
    while p < |rep|
      invariant HEADER <= p <= |rep| && found == |handled|
      invariant all == (handled + ReadRecords(rep, p).0, ReadRecords(rep, p).1)
      decreases |rep| - p
    {
      var record := ReadRecord(rep, p);
      if record.None? {
        NothingBehind(handled);
        return false, handled;
      }
      found := found + 1;
      Regroup(handled, record.value.0, ReadRecords(rep, record.value.1).0);
      handled := handled + [record.value.0];
      p := record.value.1;
    }
    NothingBehind(handled);
    ok := found == CountOf(rep);
  }

  lemma NothingBefore(a: seq<BatchOp>)
    ensures [] + a == a
  {
  }

  lemma NothingBehind(a: seq<BatchOp>)
    ensures a + [] == a
  {
  }

  lemma Regroup(a: seq<BatchOp>, op: BatchOp, rest: seq<BatchOp>)
    ensures a + ([op] + rest) == a + [op] + rest
  {
  }

  /** InsertInto: the updates get the batch's sequence number and the ones after it, in order. */
  method InsertInto(rep: Bytes) returns (ok: bool, inserted: seq<Numbered>)
    requires |rep| >= HEADER
    ensures inserted == NumberFrom(ReadRecords(rep, HEADER).0, SequenceOf(rep))
    ensures ok <==> ReadRecords(rep, HEADER).1 && |inserted| == CountOf(rep)
  {
    hide ReadRecords, GetFixed;
    var handled;
    ok, handled := Iterate(rep);
    var sequence := SequenceOf(rep);
    inserted := [];
    for i := 0 to |handled|
      invariant sequence == SequenceOf(rep) + i && inserted == NumberFrom(handled[..i], SequenceOf(rep))
    {
      inserted := inserted + [Numbered(sequence, handled[i])];
      sequence := sequence + 1;
    }
    assert handled[..|handled|] == handled;
  }

  /**
   A batch read back from a log is inserted exactly as it was written: every update once, in order,
   numbered without a gap.
   */
  method ReplayBatch(b: WriteBatch) returns (ok: bool, inserted: seq<Numbered>)
    requires b.Valid()
    ensures ok && inserted == NumberFrom(b.ops, b.sequence)
  {
    hide GetFixed, RecordsOf;
    BatchReads(b.rep, b.sequence, b.ops);
    ok, inserted := InsertInto(b.rep);
  }

  lemma BatchReads(rep: Bytes, sequence: nat, ops: seq<BatchOp>)
    requires IsBatch(rep, sequence, ops)
    ensures ReadRecords(rep, HEADER) == (ops, true)
  {
    hide GetFixed, RecordsOf;
    assert rep[HEADER..HEADER + |rep[HEADER..]|] == rep[HEADER..];
    RecordsRoundTrip(rep, HEADER, ops);
  }
}
