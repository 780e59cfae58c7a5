/**
 The log reader (db/log_reader.cc), reading from the start of a file with checksums on.  On a
 file cut off anywhere from a well-formed log it returns exactly the records that are whole,
 and reports nothing.
 */
module LogReader {
  import opened Optional
  import opened Crc32c
  import opened Coding
  import opened LogFormat

  /** What ReadPhysicalRecord returns: a record type as stored, or one of two internal codes. */
  datatype Kind = Typed(code: Byte) | Eof | BadRecord

  // ----- parsing one physical record

  function LengthAt(b: seq<Byte>): nat
    requires |b| >= HEADER_SIZE
  {
    DecodeLength(b[4], b[5])
  }

  predicate ChecksumMatches(b: seq<Byte>)
    requires |b| >= HEADER_SIZE && |b| >= HEADER_SIZE + LengthAt(b)
  {
    Unmask(ReadUint32LE(b, 0)) == Digest(0, b[6..HEADER_SIZE + LengthAt(b)])
  }

  lemma HeaderOf(t: RecordType, payload: seq<Byte>, b: seq<Byte>)
    requires |payload| < 0x1_0000 && |b| >= HEADER_SIZE && b[..HEADER_SIZE] == Physical(t, payload)[..HEADER_SIZE]
    ensures LengthAt(b) == |payload| && b[6] == t.Byte()
    ensures ReadUint32LE(b, 0) == Mask(Checksum(t.Byte(), payload))
  {
    hide Mask, Checksum, ReadUint32LE, DecodeLength, EncodeFixed32, EncodeLength;
    var p := Physical(t, payload);
    var c, l := EncodeFixed32(Mask(Checksum(t.Byte(), payload))), EncodeLength(|payload|);
    FieldSizes(Mask(Checksum(t.Byte(), payload)), |payload|);
    assert p == c + l + [t.Byte()] + payload;
    assert forall i :: 0 <= i < HEADER_SIZE ==> b[..HEADER_SIZE][i] == p[..HEADER_SIZE][i];
    assert b[0] == c[0] && b[1] == c[1] && b[2] == c[2] && b[3] == c[3] && b[4] == l[0] && b[5] == l[1] &&
        b[6] == t.Byte();
    LengthRoundTrip(|payload|);
    Fixed32RoundTrip(Mask(Checksum(t.Byte(), payload)));
    SameWord(b, c);
  }

  lemma FieldSizes(x: bv32, n: nat)
    requires n < 0x1_0000
    ensures |EncodeFixed32(x)| == 4 && |EncodeLength(n)| == 2
  {
  }

  lemma SameWord(a: seq<Byte>, b: seq<Byte>)
    requires |a| >= 4 && |b| >= 4 && a[0] == b[0] && a[1] == b[1] && a[2] == b[2] && a[3] == b[3]
    ensures ReadUint32LE(a, 0) == ReadUint32LE(b, 0)
  {
  }

  /** A physical record at the front of the buffer is read back. */
  lemma PhysicalParses(t: RecordType, payload: seq<Byte>, b: seq<Byte>)
    requires |payload| < 0x1_0000 && Physical(t, payload) <= b
    ensures |b| >= HEADER_SIZE + |payload| && LengthAt(b) == |payload| && b[6] == t.Byte()
    ensures b[HEADER_SIZE..HEADER_SIZE + |payload|] == payload
    ensures ChecksumMatches(b)
  {
    hide Mask, Unmask, Digest, ReadUint32LE, DecodeLength, EncodeFixed32, EncodeLength;
    var p := Physical(t, payload);
    assert b[..|p|] == p;
    assert b[..HEADER_SIZE] == p[..HEADER_SIZE];
    HeaderOf(t, payload, b);
    MaskRoundTrip(Checksum(t.Byte(), payload));
    assert forall i :: 0 <= i < |p| ==> b[i] == p[i];
    assert forall i :: 0 <= i < |payload| ==> p[HEADER_SIZE + i] == p[HEADER_SIZE..][i];
    assert b[6..HEADER_SIZE + |payload|] == [t.Byte()] + payload;
  }

  // ----- where the reader stands in a cut-off log

  /** From `pos` on, the file holds as much as was kept of the rest of a record and of what follows it. */
  ghost predicate Expecting(file: seq<Byte>, pos: nat, data: seq<Byte>, begin: bool, tail: seq<Byte>) {
    pos <= |file| && file[pos..] <= Emit(pos % BLOCK_SIZE, data, begin) + tail
  }

  lemma NextOffset(pos: nat, k: nat)
    requires pos % BLOCK_SIZE + k <= BLOCK_SIZE
    ensures (pos + k) % BLOCK_SIZE == if pos % BLOCK_SIZE + k == BLOCK_SIZE then 0 else pos % BLOCK_SIZE + k
  {
  }

  lemma EmitParts(offset: nat, data: seq<Byte>, begin: bool)
    requires offset <= BLOCK_SIZE
    ensures var n := FragmentSize(offset, |data|);
            Emit(offset, data, begin) ==
            Trailer(offset) + Physical(TypeOf(begin, n == |data|), data[..n])
            + if n == |data| then [] else Emit(Start(offset) + HEADER_SIZE + n, data[n..], false)
  {
    hide Trailer, Physical;
  }

  /** The record goes on in the next block after the trailer. */
  lemma TrailerThenFresh(offset: nat, data: seq<Byte>, begin: bool)
    requires offset <= BLOCK_SIZE && BLOCK_SIZE - offset < HEADER_SIZE
    ensures Emit(offset, data, begin) == Trailer(offset) + Emit(0, data, begin)
    ensures |Trailer(offset)| == BLOCK_SIZE - offset
  {
    hide Emit, Physical;
    EmitParts(offset, data, begin);
    EmitParts(0, data, begin);
    assert Trailer(0) == [] && Start(offset) == 0 == Start(0);
    var n := FragmentSize(0, |data|);
    var rest := if n == |data| then [] else Emit(Start(0) + HEADER_SIZE + n, data[n..], false);
    EmptyInFront(Trailer(offset), Physical(TypeOf(begin, n == |data|), data[..n]), rest);
  }

  lemma EmptyInFront(a: seq<Byte>, b: seq<Byte>, c: seq<Byte>)
    ensures a + b + c == a + ([] + b + c) && [] + b + c == b + c
  {
  }

  lemma DropPrefix(s: seq<Byte>, a: seq<Byte>, b: seq<Byte>)
    requires s <= a + b && |a| <= |s|
    ensures s[..|a|] == a && a <= s && s[|a|..] <= b
  {
    assert s == (a + b)[..|s|];
    assert s[..|a|] == (a + b)[..|a|] == a;
    assert s[|a|..] == b[..|s| - |a|];
  }

  lemma SkipTrailer(file: seq<Byte>, pos: nat, data: seq<Byte>, begin: bool, tail: seq<Byte>)
    requires Expecting(file, pos, data, begin, tail)
    requires BLOCK_SIZE - pos % BLOCK_SIZE < HEADER_SIZE && pos + (BLOCK_SIZE - pos % BLOCK_SIZE) <= |file|
    ensures (pos + (BLOCK_SIZE - pos % BLOCK_SIZE)) % BLOCK_SIZE == 0
    ensures Expecting(file, pos + (BLOCK_SIZE - pos % BLOCK_SIZE), data, begin, tail)
  {
    hide Emit, Trailer;
    var offset := pos % BLOCK_SIZE;
    NextOffset(pos, BLOCK_SIZE - offset);
    TrailerThenFresh(offset, data, begin);
    Regroup(Trailer(offset), Emit(0, data, begin), tail);
    DropPrefix(file[pos..], Trailer(offset), Emit(0, data, begin) + tail);
    assert file[pos..][BLOCK_SIZE - offset..] == file[pos + (BLOCK_SIZE - offset)..];
  }

  lemma Regroup(a: seq<Byte>, b: seq<Byte>, c: seq<Byte>)
    ensures a + b + c == a + (b + c)
  {
  }

  /** What follows the fragment, at its own offset. */
  ghost function AfterFragment(pos: nat, data: seq<Byte>, n: nat): seq<Byte>
    requires n <= |data|
  {
    if n == |data| then [] else Emit((pos + HEADER_SIZE + n) % BLOCK_SIZE, data[n..], false)
  }

  lemma EmitInBlock(pos: nat, data: seq<Byte>, begin: bool)
    requires BLOCK_SIZE - pos % BLOCK_SIZE >= HEADER_SIZE
    ensures var n := FragmentSize(pos % BLOCK_SIZE, |data|);
            && pos % BLOCK_SIZE + HEADER_SIZE + n <= BLOCK_SIZE
            && Emit(pos % BLOCK_SIZE, data, begin) ==
               Physical(TypeOf(begin, n == |data|), data[..n]) + AfterFragment(pos, data, n)
  {
    hide Emit, Physical;
    var offset := pos % BLOCK_SIZE;
    var n := FragmentSize(offset, |data|);
    EmitParts(offset, data, begin);
    NextOffset(pos, HEADER_SIZE + n);
    if n < |data| && offset + HEADER_SIZE + n == BLOCK_SIZE {
      FullBlockIsFresh(data[n..], false);
    }
    assert Trailer(offset) == [] && Start(offset) == offset;
    EmptyInFront([], Physical(TypeOf(begin, n == |data|), data[..n]), AfterFragment(pos, data, n));
  }

  /** A fragment that is wholly in the file. */
  lemma TakeFragment(file: seq<Byte>, pos: nat, data: seq<Byte>, begin: bool, tail: seq<Byte>)
    requires Expecting(file, pos, data, begin, tail) && BLOCK_SIZE - pos % BLOCK_SIZE >= HEADER_SIZE
    requires pos + HEADER_SIZE + FragmentSize(pos % BLOCK_SIZE, |data|) <= |file|
    ensures var n := FragmentSize(pos % BLOCK_SIZE, |data|);
            && Physical(TypeOf(begin, n == |data|), data[..n]) <= file[pos..]
            && (if n == |data| then file[pos + HEADER_SIZE + n..] <= tail
                else Expecting(file, pos + HEADER_SIZE + n, data[n..], false, tail))
            && |Emit(pos % BLOCK_SIZE, data, begin)| ==
               HEADER_SIZE + n +
               if n == |data| then 0 else |Emit((pos + HEADER_SIZE + n) % BLOCK_SIZE, data[n..], false)|
  {
    hide Emit, Physical, FragmentSize, TypeOf;
    EmitInBlock(pos, data, begin);
    var n := FragmentSize(pos % BLOCK_SIZE, |data|);
    var p, rest := Physical(TypeOf(begin, n == |data|), data[..n]), AfterFragment(pos, data, n);
    Regroup(p, rest, tail);
    DropPrefix(file[pos..], p, rest + tail);
    assert file[pos..][|p|..] == file[pos + HEADER_SIZE + n..];
    assert n == |data| ==> rest + tail == tail;
  }

  /** A fragment of which only the header, and maybe part of the payload, is in the file. */
  lemma PeekHeader(file: seq<Byte>, pos: nat, data: seq<Byte>, begin: bool, tail: seq<Byte>)
    requires Expecting(file, pos, data, begin, tail) && BLOCK_SIZE - pos % BLOCK_SIZE >= HEADER_SIZE
    requires pos + HEADER_SIZE <= |file|
    ensures LengthAt(file[pos..]) == FragmentSize(pos % BLOCK_SIZE, |data|)
    ensures |Emit(pos % BLOCK_SIZE, data, begin)| >= HEADER_SIZE + FragmentSize(pos % BLOCK_SIZE, |data|)
  {
    hide Emit, Physical, FragmentSize, TypeOf, LengthAt, AfterFragment;
    EmitInBlock(pos, data, begin);
    var n := FragmentSize(pos % BLOCK_SIZE, |data|);
    var p := Physical(TypeOf(begin, n == |data|), data[..n]);
    var rest := AfterFragment(pos, data, n);
    SplitAt(p, HEADER_SIZE, rest, tail);
    DropPrefix(file[pos..], p[..HEADER_SIZE], p[HEADER_SIZE..] + rest + tail);
    HeaderOf(TypeOf(begin, n == |data|), data[..n], file[pos..]);
  }

  lemma SplitAt(p: seq<Byte>, k: nat, a: seq<Byte>, b: seq<Byte>)
    requires k <= |p|
    ensures p + a + b == p[..k] + (p[k..] + a + b)
  {
  }

  /** Outcome of reading on from `pos`: the next fragment, or the end of a file that does not hold the whole record. */
  ghost predicate Delivers(file: seq<Byte>, pos: nat, data: seq<Byte>, begin: bool, tail: seq<Byte>,
                           kind: Kind, fragment: seq<Byte>, pos': nat)
  {
    if kind == Eof then |file| - pos < |Emit(pos % BLOCK_SIZE, data, begin)|
    else
      var n := |fragment|;
      && n <= |data| && fragment == data[..n] && kind == Typed(TypeOf(begin, n == |data|).Byte())
      && pos' <= |file|
      && |Emit(pos % BLOCK_SIZE, data, begin)| ==
         (pos' - pos) + (if n == |data| then 0 else |Emit(pos' % BLOCK_SIZE, data[n..], false)|)
      && if n == |data| then file[pos'..] <= tail else Expecting(file, pos', data[n..], false, tail)
  }

  /** `fragment` lies in the file just before `pos`, under a header whose checksum it matches. */
  ghost predicate EndsWithRecord(file: seq<Byte>, pos: nat, code: Byte, fragment: seq<Byte>) {
    && HEADER_SIZE + |fragment| <= pos <= |file|
    && var b := file[pos - HEADER_SIZE - |fragment|..];
       LengthAt(b) == |fragment| && b[6] == code && b[HEADER_SIZE..HEADER_SIZE + |fragment|] == fragment &&
           ChecksumMatches(b)
  }

  /** Between `start` and `pos` only a trailer has been passed over. */
  ghost predicate OnTheWay(file: seq<Byte>, start: nat, pos: nat, data: seq<Byte>, begin: bool, tail: seq<Byte>) {
    && start <= pos && Expecting(file, pos, data, begin, tail)
    && |Emit(start % BLOCK_SIZE, data, begin)| == (pos - start) + |Emit(pos % BLOCK_SIZE, data, begin)|
  }

  lemma EmitIsLong(offset: nat, data: seq<Byte>, begin: bool)
    requires offset <= BLOCK_SIZE
    ensures |Emit(offset, data, begin)| >= HEADER_SIZE
  {
  }

  lemma EmitSkips(offset: nat, data: seq<Byte>, begin: bool)
    requires offset <= BLOCK_SIZE && BLOCK_SIZE - offset < HEADER_SIZE
    ensures |Emit(offset, data, begin)| == BLOCK_SIZE - offset + |Emit(0, data, begin)|
  {
    TrailerThenFresh(offset, data, begin);
  }

  /** The end of a block, less than a header away. */
  lemma ToBlockEnd(pos: nat, k: nat)
    requires (pos + k) % BLOCK_SIZE == 0 && k < BLOCK_SIZE
    ensures k > 0 ==> BLOCK_SIZE - pos % BLOCK_SIZE == k
  {
  }

  lemma FillSkips(file: seq<Byte>, start: nat, pos: nat, k: nat, data: seq<Byte>, begin: bool, tail: seq<Byte>)
    requires k < HEADER_SIZE && pos + k <= |file| && (pos + k) % BLOCK_SIZE == 0
    requires OnTheWay(file, start, pos, data, begin, tail)
    ensures OnTheWay(file, start, pos + k, data, begin, tail)
  {
    hide Emit;
    ToBlockEnd(pos, k);
    if k > 0 {
      SkipTrailer(file, pos, data, begin, tail);
      EmitSkips(pos % BLOCK_SIZE, data, begin);
    }
  }

  lemma BlockAt(pos: nat, size: nat)
    requires pos <= size && pos % BLOCK_SIZE == 0
    ensures (pos + BLOCK_SIZE) % BLOCK_SIZE == 0
    ensures size < pos + BLOCK_SIZE ==> size - pos == size % BLOCK_SIZE
  {
  }

  lemma PositionInLast(size: nat, left: nat)
    requires left <= size % BLOCK_SIZE
    ensures BLOCK_SIZE - (size - left) % BLOCK_SIZE > left
  {
  }

  lemma PositionInFull(end: nat, left: nat)
    requires end % BLOCK_SIZE == 0 && 0 < left <= BLOCK_SIZE && left <= end
    ensures BLOCK_SIZE - (end - left) % BLOCK_SIZE == left
  {
  }

  lemma SameParse(a: seq<Byte>, b: seq<Byte>)
    requires |a| >= HEADER_SIZE && a <= b
    ensures LengthAt(a) == LengthAt(b) && a[6] == b[6]
    ensures HEADER_SIZE + LengthAt(a) <= |a| ==>
              && ChecksumMatches(a) == ChecksumMatches(b)
              && a[HEADER_SIZE..HEADER_SIZE + LengthAt(a)] == b[HEADER_SIZE..HEADER_SIZE + LengthAt(a)]
  {
    hide DecodeLength, ReadUint32LE, Unmask, Digest;
    SameWord(a, b);
    if HEADER_SIZE + LengthAt(a) <= |a| {
      assert a[6..HEADER_SIZE + LengthAt(a)] == b[6..HEADER_SIZE + LengthAt(a)];
    }
  }

  /** Parsing what the buffer holds of the fragment at `pos`. */
  lemma ParseExpected(file: seq<Byte>, pos: nat, buffer: seq<Byte>, eof: bool, data: seq<Byte>, begin: bool,
                      tail: seq<Byte>)
    requires Expecting(file, pos, data, begin, tail) && buffer <= file[pos..] && |buffer| >= HEADER_SIZE
    requires BLOCK_SIZE - pos % BLOCK_SIZE >= HEADER_SIZE
    requires if eof then pos + |buffer| == |file| else BLOCK_SIZE - pos % BLOCK_SIZE == |buffer|
    ensures var n := LengthAt(buffer);
            if HEADER_SIZE + n > |buffer| then eof && |file| - pos < |Emit(pos % BLOCK_SIZE, data, begin)|
            else
              && n <= |data| && buffer[6] == TypeOf(begin, n == |data|).Byte() != 0 && ChecksumMatches(buffer)
              && buffer[HEADER_SIZE..HEADER_SIZE + n] == data[..n]
              && Delivers(file, pos, data, begin, tail, Typed(buffer[6]), data[..n], pos + HEADER_SIZE + n)
  {
    hide Emit, LengthAt, ChecksumMatches, Physical;
    PeekHeader(file, pos, data, begin, tail);
    SameParse(buffer, file[pos..]);
    var n := FragmentSize(pos % BLOCK_SIZE, |data|);
    if HEADER_SIZE + n <= |buffer| {
      TakeFragment(file, pos, data, begin, tail);
      PhysicalParses(TypeOf(begin, n == |data|), data[..n], file[pos..]);
    }
  }

  lemma EndDelivers(file: seq<Byte>, pos: nat, data: seq<Byte>, begin: bool, tail: seq<Byte>, fragment: seq<Byte>,
                    pos': nat)
    requires |file| - pos < |Emit(pos % BLOCK_SIZE, data, begin)|
    ensures Delivers(file, pos, data, begin, tail, Eof, fragment, pos')
  {
  }

  lemma DeliveredFrom(file: seq<Byte>, start: nat, pos: nat, data: seq<Byte>, begin: bool, tail: seq<Byte>,
                      kind: Kind, fragment: seq<Byte>, pos': nat)
    requires OnTheWay(file, start, pos, data, begin, tail)
    requires Delivers(file, pos, data, begin, tail, kind, fragment, pos')
    ensures Delivers(file, start, data, begin, tail, kind, fragment, pos')
  {
    hide Emit, Expecting;
  }

  /** The fragments read so far make up the front of the record. */
  ghost predicate Gathered(file: seq<Byte>, start: nat, pos: nat, next: seq<Byte>, scratch: seq<Byte>, begin: bool,
                           tail: seq<Byte>) {
    && start <= pos && scratch <= next && (begin ==> scratch == [])
    && Expecting(file, pos, next[|scratch|..], begin, tail)
    && |Emit(start % BLOCK_SIZE, next, true)| == (pos - start) + |Emit(pos % BLOCK_SIZE, next[|scratch|..], begin)|
  }

  lemma NothingGathered(file: seq<Byte>, start: nat, next: seq<Byte>, tail: seq<Byte>)
    requires Expecting(file, start, next, true, tail)
    ensures Gathered(file, start, start, next, [], true, tail)
  {
    hide Expecting, Emit;
    assert next[0..] == next;
  }

  /** One more fragment, or the end of the file before the end of the record. */
  lemma GatherMore(file: seq<Byte>, start: nat, pos: nat, next: seq<Byte>, scratch: seq<Byte>, begin: bool,
                   tail: seq<Byte>,
                   kind: Kind, fragment: seq<Byte>, pos': nat)
    requires Gathered(file, start, pos, next, scratch, begin, tail)
    requires Delivers(file, pos, next[|scratch|..], begin, tail, kind, fragment, pos') && pos <= pos'
    ensures kind == Eof ==> |file| - start < |Emit(start % BLOCK_SIZE, next, true)|
    ensures kind != Eof ==> kind.Typed?
    ensures kind.Typed? && (kind.code == 1 || kind.code == 4) ==>
              && scratch + fragment == next && (kind.code == 1 <==> begin)
              && pos' == start + |Emit(start % BLOCK_SIZE, next, true)| <= |file| && file[pos'..] <= tail
    ensures kind.Typed? && kind.code != 1 && kind.code != 4 ==>
              && (kind.code == 2 || kind.code == 3) && (kind.code == 2 <==> begin)
              && Gathered(file, start, pos', next, scratch + fragment, false, tail)
  {
    hide Emit, Expecting;
    var rest := next[|scratch|..];
    if kind != Eof {
      assert next == scratch + rest;
      assert rest == fragment + rest[|fragment|..];
      assert next[|scratch + fragment|..] == rest[|fragment|..];
      assert scratch + fragment <= next;
      if |fragment| == |rest| {
        assert fragment == rest;
      }
    }
  }

  // ----- the reader

  class Reader {
    const file: seq<Byte>
    var filePos: nat
    /** What has been read from the file and not yet been used. */
    var buffer: seq<Byte>
    var eof: bool
    /** How many corruptions have been reported. */
    var reports: nat

    constructor (file: seq<Byte>)
      ensures Valid() && this.file == file && Pos() == 0 && reports == 0
    {
      this.file := file;
      filePos, buffer, eof, reports := 0, [], false, 0;
    }

    /** The buffer is the rest of the block read last; that block is short only at the end of the file. */
    ghost predicate Valid()
      reads this
    {
      && |buffer| <= filePos <= |file| && buffer == file[filePos - |buffer|..filePos]
      && (!eof ==> filePos % BLOCK_SIZE == 0 && |buffer| <= BLOCK_SIZE)
      && (eof ==> filePos == |file| && |buffer| <= |file| % BLOCK_SIZE)
    }

    ghost function Pos(): nat
      requires Valid()
      reads this
    {
      filePos - |buffer|
    }

    /** Read the next block. */
    method Fill()
      requires Valid() && |buffer| < HEADER_SIZE && !eof
      modifies this`filePos, this`buffer, this`eof
      ensures Valid() && Pos() == old(filePos)
      ensures eof || filePos == old(filePos) + BLOCK_SIZE
    {
      var end := if filePos + BLOCK_SIZE <= |file| then filePos + BLOCK_SIZE else |file|;
      BlockAt(filePos, |file|);
      buffer := file[filePos..end];
      filePos := end;
      if |buffer| < BLOCK_SIZE {
        eof := true;
      }
    }

    /** A header that the file holds is in the buffer's block, with its payload unless the file ends first. */
    lemma InBlock()
      requires Valid() && |buffer| >= HEADER_SIZE
      ensures BLOCK_SIZE - Pos() % BLOCK_SIZE >= HEADER_SIZE
      ensures !eof ==> BLOCK_SIZE - Pos() % BLOCK_SIZE == |buffer|
    {
      if eof {
        PositionInLast(filePos, |buffer|);
      } else {
        PositionInFull(filePos, |buffer|);
      }
    }

    method ReadPhysicalRecord(ghost data: seq<Byte>, ghost begin: bool, ghost tail: seq<Byte>)
      returns (kind: Kind, fragment: seq<Byte>)
      requires Valid()
      modifies this`filePos, this`buffer, this`eof, this`reports
      ensures Valid() && reports >= old(reports)
      ensures kind.Typed? ==> EndsWithRecord(file, Pos(), kind.code, fragment)
      ensures Pos() >= old(Pos()) && (kind != Eof ==> Pos() > old(Pos()))
      ensures old(Expecting(file, Pos(), data, begin, tail)) ==>
                Delivers(file, old(Pos()), data, begin, tail, kind, fragment, Pos()) && reports == old(reports)
    {
      hide Expecting, Delivers, EndsWithRecord, ChecksumMatches, LengthAt, Emit;
      ghost var start, expected := Pos(), Expecting(file, Pos(), data, begin, tail);
      kind, fragment := Eof, [];
      var found := LoadHeader(data, begin, tail);
      if found {
        InBlock();
        ghost var pos := Pos();
        assert buffer <= file[pos..];
        if expected {
          ParseExpected(file, pos, buffer, eof, data, begin, tail);
        }
        kind, fragment := ParseRecord();
        if expected {
          if kind == Eof {
            EndDelivers(file, pos, data, begin, tail, fragment, Pos());
          }
          DeliveredFrom(file, start, pos, data, begin, tail, kind, fragment, Pos());
        }
      } else if expected {
        EndDelivers(file, start, data, begin, tail, [], Pos());
      }
    }

    /** Make sure the buffer holds a header, reading the next block if need be; false at the end of the file. */
    method LoadHeader(ghost data: seq<Byte>, ghost begin: bool, ghost tail: seq<Byte>) returns (found: bool)
      requires Valid()
      modifies this`filePos, this`buffer, this`eof
      ensures Valid() && Pos() >= old(Pos()) && (found ==> |buffer| >= HEADER_SIZE)
      ensures old(Expecting(file, Pos(), data, begin, tail)) ==>
                if found then OnTheWay(file, old(Pos()), Pos(), data, begin, tail)
                else |file| - old(Pos()) < |Emit(old(Pos()) % BLOCK_SIZE, data, begin)|
    {
      hide Emit, Expecting;
      ghost var start, expected := Pos(), Expecting(file, Pos(), data, begin, tail);
      while |buffer| < HEADER_SIZE
        invariant Valid() && Pos() >= start
        invariant expected ==> OnTheWay(file, start, Pos(), data, begin, tail)
        decreases !eof, |file| - filePos
      {
        if eof {
          if expected {
            AtEnd(file, start, Pos(), data, begin, tail);
          }
          buffer := [];
          return false;
        }
        if expected {
          FillSkips(file, start, Pos(), |buffer|, data, begin, tail);
        }
        Fill();
      }
      found := true;
    }

    /** The next whole record, put together from its fragments. */
    method ReadRecord(ghost next: seq<Byte>, ghost tail: seq<Byte>) returns (record: Option<seq<Byte>>)
      requires Valid()
      modifies this`filePos, this`buffer, this`eof, this`reports
      ensures Valid() && reports >= old(reports) && (record.Some? ==> Pos() > old(Pos()))
      ensures old(Expecting(file, Pos(), next, true, tail)) ==>
                && reports == old(reports)
                && if |file| - old(Pos()) < |Emit(old(Pos()) % BLOCK_SIZE, next, true)| then record == None
                   else
                     && record == Some(next) && Pos() == old(Pos()) + |Emit(old(Pos()) % BLOCK_SIZE, next, true)|
                     && file[Pos()..] <= tail
    {
      hide Expecting, Delivers, EndsWithRecord, Emit;
      ghost var start, expected := Pos(), Expecting(file, Pos(), next, true, tail);
      var scratch: seq<Byte> := [];
      var inFragmentedRecord := false;
      if expected {
        NothingGathered(file, start, next, tail);
      }
      while true
        invariant Valid() && reports >= old(reports) && Pos() >= start
        invariant expected ==> reports == old(reports)
        invariant expected ==> Gathered(file, start, Pos(), next, scratch, !inFragmentedRecord, tail)
        decreases |file| - Pos()
      {
        ghost var pos, rest := Pos(), if |scratch| <= |next| then next[|scratch|..] else [];
        var kind, fragment := ReadPhysicalRecord(rest, !inFragmentedRecord, tail);
        if expected {
          GatherMore(file, start, pos, next, scratch, !inFragmentedRecord, tail, kind, fragment, Pos());
        }
        match kind
        case Eof => return None;
        case BadRecord =>
          if inFragmentedRecord {
            reports := reports + 1;
            inFragmentedRecord, scratch := false, [];
          }
        case Typed(code) =>
          if code == 1 {
            if inFragmentedRecord && scratch != [] {
              reports := reports + 1;
            }
            return Some(fragment);
          } else if code == 2 {
            if inFragmentedRecord && scratch != [] {
              reports := reports + 1;
            }
            inFragmentedRecord, scratch := true, fragment;
          } else if code == 3 {
            if !inFragmentedRecord {
              reports := reports + 1;
            } else {
              scratch := scratch + fragment;
            }
          } else if code == 4 {
            if !inFragmentedRecord {
              reports := reports + 1;
            } else {
              return Some(scratch + fragment);
            }
          } else {
            reports := reports + 1;
            inFragmentedRecord, scratch := false, [];
          }
      }
    }

    /** Parse the header at the front of the buffer and take the payload. */
    method ParseRecord() returns (kind: Kind, fragment: seq<Byte>)
      requires Valid() && |buffer| >= HEADER_SIZE
      modifies this`buffer, this`reports
      ensures Valid() && reports >= old(reports) && Pos() > old(Pos())
      ensures kind.Typed? ==> EndsWithRecord(file, Pos(), kind.code, fragment)
      ensures var n := LengthAt(old(buffer));
              if HEADER_SIZE + n > |old(buffer)| then
                kind == (if eof then Eof else BadRecord) && (eof ==> reports == old(reports))
              else if (old(buffer)[6] == 0 && n == 0) || !ChecksumMatches(old(buffer)) then kind == BadRecord
              else
                && kind == Typed(old(buffer)[6]) && fragment == old(buffer)[HEADER_SIZE..HEADER_SIZE + n]
                && Pos() == old(Pos()) + HEADER_SIZE + n && reports == old(reports)
    {
      hide ChecksumMatches, LengthAt;
      fragment := [];
      var code, length := buffer[6], LengthAt(buffer);
      if HEADER_SIZE + length > |buffer| {
        buffer := [];
        if eof {
          return Eof, [];
        }
        reports := reports + 1;
        return BadRecord, [];
      }
      if code == 0 && length == 0 {
        buffer := [];
        return BadRecord, [];
      }
      if !ChecksumMatches(buffer) {
        buffer := [];
        reports := reports + 1;
        return BadRecord, [];
      }
      ghost var pos := Pos();
      assert buffer <= file[pos..];
      SameParse(buffer, file[pos..]);
      fragment := buffer[HEADER_SIZE..HEADER_SIZE + length];
      buffer := buffer[HEADER_SIZE + length..];
      kind := Typed(code);
    }
  }

  lemma AtEnd(file: seq<Byte>, start: nat, pos: nat, data: seq<Byte>, begin: bool, tail: seq<Byte>)
    requires OnTheWay(file, start, pos, data, begin, tail) && |file| - pos < HEADER_SIZE
    ensures |file| - start < |Emit(start % BLOCK_SIZE, data, begin)|
  {
    EmitIsLong(pos % BLOCK_SIZE, data, begin);
  }

  // ----- a whole file

  /** What the log holds from record `k` on. */
  function RestOf(records: seq<seq<Byte>>, k: nat): seq<Byte>
    requires k <= |records|
    decreases |records| - k
  {
    if k == |records| then []
    else Emit(|LogOf(records[..k])| % BLOCK_SIZE, records[k], true) + RestOf(records, k + 1)
  }

  lemma LogStep(records: seq<seq<Byte>>, k: nat)
    requires k < |records|
    ensures LogOf(records[..k + 1]) == LogOf(records[..k]) + Emit(|LogOf(records[..k])| % BLOCK_SIZE, records[k], true)
  {
    hide Emit;
    assert records[..k + 1][..k] == records[..k];
  }

  lemma {:induction false} LogSplit(records: seq<seq<Byte>>, k: nat)
    requires k <= |records|
    ensures LogOf(records) == LogOf(records[..k]) + RestOf(records, k)
    decreases |records| - k
  {
    hide Emit;
    if k == |records| {
      assert records[..k] == records;
    } else {
      LogSplit(records, k + 1);
      LogStep(records, k);
      Regroup(LogOf(records[..k]), Emit(|LogOf(records[..k])| % BLOCK_SIZE, records[k], true), RestOf(records, k + 1));
    }
  }

  /** The first `k` records are the whole ones among the first `size` bytes of the log. */
  ghost predicate AreWhole(records: seq<seq<Byte>>, size: nat, k: nat) {
    && k <= |records| && |LogOf(records[..k])| <= size
    && (k < |records| ==> size < |LogOf(records[..k + 1])|)
  }

  /** The record to read next, or any record if there is none. */
  function NextRecord(records: seq<seq<Byte>>, k: nat): seq<Byte> {
    if k < |records| then records[k] else []
  }

  /** The reader stands after the records read. */
  ghost predicate HasRead(file: seq<Byte>, records: seq<seq<Byte>>, out: seq<seq<Byte>>, pos: nat) {
    && file <= LogOf(records) && out <= records
    && pos == |LogOf(records[..|out|])| <= |file| && file[pos..] <= RestOf(records, |out|)
  }

  lemma NothingRead(file: seq<Byte>, records: seq<seq<Byte>>)
    requires file <= LogOf(records)
    ensures HasRead(file, records, [], 0)
  {
    LogStart(records);
    LogSplit(records, 0);
  }

  ghost function TailAfter(records: seq<seq<Byte>>, k: nat): seq<Byte> {
    if k < |records| then RestOf(records, k + 1) else []
  }

  lemma ExpectNext(file: seq<Byte>, records: seq<seq<Byte>>, out: seq<seq<Byte>>, pos: nat)
    requires HasRead(file, records, out, pos)
    ensures Expecting(file, pos, NextRecord(records, |out|), true, TailAfter(records, |out|))
  {
    hide Emit, LogOf;
    if |out| == |records| {
      assert file[pos..] == [];
    }
  }

  /** One more record, or the end. */
  lemma ReadOneMore(file: seq<Byte>, records: seq<seq<Byte>>, out: seq<seq<Byte>>, pos: nat,
                    record: Option<seq<Byte>>, pos': nat)
    requires HasRead(file, records, out, pos)
    requires var next := NextRecord(records, |out|);
             var size := |Emit(pos % BLOCK_SIZE, next, true)|;
             if |file| - pos < size then record == None
             else
               && record == Some(next) && pos' == pos + size && pos' <= |file|
               && file[pos'..] <= TailAfter(records, |out|)
    ensures record.None? ==> AreWhole(records, |file|, |out|) && out <= records
    ensures record.Some? ==> HasRead(file, records, out + [record.value], pos')
  {
    hide Emit, LogOf, RestOf;
    AtRecord(file, records, |out|, record.Some?, pos');
    if record.Some? {
      assert out + [record.value] == records[..|out| + 1];
    }
  }

  /** DBImpl::RecoverLogFile's loop: read records until there are no more. */
  method ReadAll(file: seq<Byte>, ghost records: seq<seq<Byte>>) returns (out: seq<seq<Byte>>, reports: nat)
    ensures file <= LogOf(records) ==>
              out <= records && AreWhole(records, |file|, |out|) && reports == 0
  {
    hide Expecting, Emit, LogOf, RestOf, HasRead, AreWhole;
    ghost var cut := file <= LogOf(records);
    out := [];
    var reader := new Reader(file);
    var more := true;
    if cut {
      NothingRead(file, records);
    }
    while more
      invariant reader.Valid() && fresh(reader) && reader.file == file && (cut ==> reader.reports == 0)
      invariant cut && more ==> HasRead(file, records, out, reader.Pos())
      invariant cut && !more ==> out <= records && AreWhole(records, |file|, |out|)
      decreases more, |file| - reader.Pos()
    {
      ghost var pos := reader.Pos();
      if cut {
        ExpectNext(file, records, out, pos);
      }
      var record := reader.ReadRecord(NextRecord(records, |out|), TailAfter(records, |out|));
      if cut {
        ReadOneMore(file, records, out, pos, record, reader.Pos());
      }
      if record.Some? {
        out := out + [record.value];
      } else {
        more := false;
      }
    }
    reports := reader.reports;
  }

  lemma LogStart(records: seq<seq<Byte>>)
    ensures LogOf(records[..0]) == []
  {
  }

  /** A record was read exactly if it is whole; past the last record nothing is. */
  lemma AtRecord(file: seq<Byte>, records: seq<seq<Byte>>, k: nat, found: bool, pos': nat)
    requires k <= |records| && |LogOf(records[..k])| <= |file| && file <= LogOf(records)
    requires var pos := |LogOf(records[..k])|;
             found == (|file| - pos >= |Emit(pos % BLOCK_SIZE, NextRecord(records, k), true)|)
    requires found ==>
             pos' == |LogOf(records[..k])| + |Emit(|LogOf(records[..k])| % BLOCK_SIZE, NextRecord(records, k), true)|
    ensures found ==> k < |records| && pos' == |LogOf(records[..k + 1])| <= |file|
    ensures !found ==> AreWhole(records, |file|, k)
  {
    hide Emit, LogOf;
    if k < |records| {
      LogStep(records, k);
    } else {
      assert records[..k] == records;
      EmitIsLong(|LogOf(records[..k])| % BLOCK_SIZE, [], true);
    }
  }

  /** Of a log that is not cut off, every record is whole. */
  lemma {:induction false} AllAreWhole(records: seq<seq<Byte>>, k: nat)
    requires AreWhole(records, |LogOf(records)|, k)
    ensures k == |records|
  {
    hide Emit, LogOf;
    if k < |records| {
      LogSplit(records, k + 1);
    }
  }
}
