/**
 The format of write-ahead logs and manifests (db/log_format.h, db/log_writer.cc): records cut
 into fragments that never cross a 32 KB block, each with a checksum, a length and a type.
 */
module LogFormat {
  import opened Crc32c
  import opened Coding

  const BLOCK_SIZE: nat := 32768
  const HEADER_SIZE: nat := 7

  datatype RecordType = Zero | Full | First | Middle | Last {
    function Byte(): Byte {
      match this
      case Zero => 0
      case Full => 1
      case First => 2
      case Middle => 3
      case Last => 4
    }
  }

  // ----- fragment lengths

  function EncodeLength(n: nat): seq<Byte>
    requires n < 0x1_0000
  {
    [ToByte(n % 256), ToByte(n / 256)]
  }

  function DecodeLength(a: Byte, b: Byte): nat {
    FromByte(a) + 256 * FromByte(b)
  }

  lemma LengthRoundTrip(n: nat)
    requires n < 0x1_0000
    ensures DecodeLength(EncodeLength(n)[0], EncodeLength(n)[1]) == n
  {
    hide ToByte, FromByte;
    ByteRoundTrip(n % 256);
    ByteRoundTrip(n / 256);
  }

  // ----- physical records

  /** The checksum covers the type and the payload. */
  function Checksum(t: Byte, payload: seq<Byte>): bv32 {
    Digest(0, [t] + payload)
  }

  function Physical(t: RecordType, payload: seq<Byte>): (r: seq<Byte>)
    requires |payload| < 0x1_0000
    ensures |r| == HEADER_SIZE + |payload| && r[HEADER_SIZE..] == payload && r[6] == t.Byte()
  {
    EncodeFixed32(Mask(Checksum(t.Byte(), payload))) + EncodeLength(|payload|) + [t.Byte()] + payload
  }

  // ----- logical records

  function TypeOf(begin: bool, end: bool): RecordType {
    if begin && end then Full else if begin then First else if end then Last else Middle
  }

  /** What is left of a block in which no header fits. */
  function Trailer(offset: nat): seq<Byte>
    requires offset <= BLOCK_SIZE
  {
    if BLOCK_SIZE - offset < HEADER_SIZE then seq(BLOCK_SIZE - offset, _ => 0) else []
  }

  /** Where in its block the next fragment goes. */
  function Start(offset: nat): (r: nat)
    requires offset <= BLOCK_SIZE
    ensures r + HEADER_SIZE <= BLOCK_SIZE
  {
    if BLOCK_SIZE - offset < HEADER_SIZE then 0 else offset
  }

  function FragmentSize(offset: nat, left: nat): (r: nat)
    requires offset <= BLOCK_SIZE
    ensures r <= left && Start(offset) + HEADER_SIZE + r <= BLOCK_SIZE
  {
    var avail := BLOCK_SIZE - Start(offset) - HEADER_SIZE;
    if left < avail then left else avail
  }

  /** A fragment with room for no data can occur once, at the end of a block. */
  function Rank(offset: nat): nat {
    if offset == BLOCK_SIZE - HEADER_SIZE then 1 else 0
  }

  /** The bytes of (the rest of) a record written from block offset `offset` on. */
  function Emit(offset: nat, data: seq<Byte>, begin: bool): seq<Byte>
    requires offset <= BLOCK_SIZE
    decreases |data|, Rank(offset)
  {
    var n := FragmentSize(offset, |data|);
    Trailer(offset) + Physical(TypeOf(begin, n == |data|), data[..n])
    + if n == |data| then [] else Emit(Start(offset) + HEADER_SIZE + n, data[n..], false)
  }

  /** The log of a list of records. */
  function LogOf(records: seq<seq<Byte>>): seq<Byte> {
    if records == [] then []
    else
      var front := LogOf(records[..|records| - 1]);
      front + Emit(|front| % BLOCK_SIZE, records[|records| - 1], true)
  }

  /** A full block and an empty one are continued alike. */
  lemma FullBlockIsFresh(data: seq<Byte>, begin: bool)
    ensures Emit(BLOCK_SIZE, data, begin) == Emit(0, data, begin)
  {
    hide Physical;
    assert Trailer(BLOCK_SIZE) == [] == Trailer(0);
  }

  // ----- the writer

  class Writer {
    /** The destination file. */
    var dest: seq<Byte>
    var blockOffset: nat

    ghost predicate Valid()
      reads this
    {
      blockOffset <= BLOCK_SIZE && blockOffset % BLOCK_SIZE == |dest| % BLOCK_SIZE
    }

    /** A writer that creates its file or appends to one of the given contents. */
    constructor (dest: seq<Byte>)
      ensures Valid() && this.dest == dest
    {
      this.dest := dest;
      blockOffset := |dest| % BLOCK_SIZE;
    }

    method AddRecord(slice: seq<Byte>)
      requires Valid()
      modifies this
      ensures Valid() && dest == old(dest) + Emit(|old(dest)| % BLOCK_SIZE, slice, true)
    {
      OffsetOrFull(blockOffset, |dest|, slice);
      hide Emit;
      ghost var goal := dest + Emit(blockOffset, slice, true);
      var ptr, begin := slice, true;
      var more := true;
      while more
        invariant Valid()
        invariant goal == if more then dest + Emit(blockOffset, ptr, begin) else dest
        decreases more, |ptr|, Rank(blockOffset)
      {
        ptr, more := AddFragment(ptr, begin, goal);
        begin := false;
      }
    }

    /** One turn of the loop: the next fragment, in a new block if this one is used up. */
    method AddFragment(ptr: seq<Byte>, begin: bool, ghost goal: seq<Byte>) returns (rest: seq<Byte>, more: bool)
      requires Valid() && goal == dest + Emit(blockOffset, ptr, begin)
      modifies this
      ensures Valid() && goal == if more then dest + Emit(blockOffset, rest, false) else dest
      ensures more ==> |rest| < |ptr| || (rest == ptr && Rank(blockOffset) < Rank(old(blockOffset)))
    {
      hide Emit, Physical, Trailer;
      EmitStep(dest, blockOffset, ptr, begin, goal);
      SwitchBlock();
      var avail := BLOCK_SIZE - blockOffset - HEADER_SIZE;
      var fragment := if |ptr| < avail then |ptr| else avail;
      var end := |ptr| == fragment;
      EmitPhysicalRecord(TypeOf(begin, end), ptr[..fragment]);
      rest := ptr[fragment..];
      more := |rest| > 0;
    }

    /** Fill the rest of a block in which no header fits. */
    method SwitchBlock()
      requires Valid()
      modifies this
      ensures dest == old(dest) + Trailer(old(blockOffset)) && blockOffset == Start(old(blockOffset))
      ensures blockOffset % BLOCK_SIZE == |dest| % BLOCK_SIZE
    {
      var leftover := BLOCK_SIZE - blockOffset;
      if leftover < HEADER_SIZE {
        FillsBlock(|dest|, blockOffset);
        if leftover > 0 {
          dest := dest + seq(leftover, _ => 0);
        }
        blockOffset := 0;
      }
    }

    method EmitPhysicalRecord(t: RecordType, payload: seq<Byte>)
      requires blockOffset + HEADER_SIZE + |payload| <= BLOCK_SIZE && blockOffset % BLOCK_SIZE == |dest| % BLOCK_SIZE
      modifies this
      ensures Valid() && dest == old(dest) + Physical(t, payload)
      ensures blockOffset == old(blockOffset) + HEADER_SIZE + |payload|
    {
      hide Digest, Mask, EncodeFixed32, EncodeLength;
      OffsetsAdvance(blockOffset, |dest|, HEADER_SIZE + |payload|);
      var crc := Digest(Digest(0, [t.Byte()]), payload);
      DigestConcat(0, [t.Byte()], payload);
      var header := EncodeFixed32(Mask(crc)) + EncodeLength(|payload|) + [t.Byte()];
      assert Physical(t, payload) == header + payload;
      assert dest + header + payload == dest + (header + payload);
      dest := dest + header + payload;
      blockOffset := blockOffset + HEADER_SIZE + |payload|;
    }
  }

  lemma FillsBlock(length: nat, offset: nat)
    requires offset <= BLOCK_SIZE && offset % BLOCK_SIZE == length % BLOCK_SIZE
    ensures (length + (BLOCK_SIZE - offset)) % BLOCK_SIZE == 0
  {
  }

  lemma OffsetOrFull(offset: nat, length: nat, data: seq<Byte>)
    requires offset <= BLOCK_SIZE && offset % BLOCK_SIZE == length % BLOCK_SIZE
    ensures Emit(offset, data, true) == Emit(length % BLOCK_SIZE, data, true)
  {
    hide Emit;
    if offset == BLOCK_SIZE {
      FullBlockIsFresh(data, true);
    }
  }

  /** One fragment of a record that is still to be emitted. */
  lemma EmitStep(before: seq<Byte>, offset: nat, data: seq<Byte>, begin: bool, goal: seq<Byte>)
    requires offset <= BLOCK_SIZE && goal == before + Emit(offset, data, begin)
    ensures var n := FragmentSize(offset, |data|);
            goal == before + Trailer(offset) + Physical(TypeOf(begin, n == |data|), data[..n])
                    + if n == |data| then [] else Emit(Start(offset) + HEADER_SIZE + n, data[n..], false)
  {
    hide Trailer, Physical;
    var n := FragmentSize(offset, |data|);
    var t, p := Trailer(offset), Physical(TypeOf(begin, n == |data|), data[..n]);
    var rest := if n == |data| then [] else Emit(Start(offset) + HEADER_SIZE + n, data[n..], false);
    assert Emit(offset, data, begin) == t + p + rest;
    Reassociate(before, t, p, rest);
  }

  lemma Reassociate(a: seq<Byte>, b: seq<Byte>, c: seq<Byte>, d: seq<Byte>)
    ensures a + (b + c + d) == a + b + c + d
  {
  }

  lemma OffsetsAdvance(a: nat, b: nat, n: nat)
    requires a % BLOCK_SIZE == b % BLOCK_SIZE
    ensures (a + n) % BLOCK_SIZE == (b + n) % BLOCK_SIZE
  {
  }

  /** Writing records one after another, possibly with a new writer for each, gives their log. */
  method WriteAll(records: seq<seq<Byte>>, reopen: nat -> bool) returns (file: seq<Byte>)
    ensures file == LogOf(records)
  {
    var writer := new Writer([]);
    for i := 0 to |records|
      invariant writer.Valid() && fresh(writer) && writer.dest == LogOf(records[..i])
    {
      assert records[..i + 1][..i] == records[..i];
      if reopen(i) {
        writer := new Writer(writer.dest);
      }
      writer.AddRecord(records[i]);
    }
    assert records[..|records|] == records;
    file := writer.dest;
  }
}
