/**
 CRC-32C (util/crc32c.cc, util/crc32c.h): the bit-serial definition of section 12.1 of RFC
 3720, the byte-at-a-time form with a table, and the form that runs four 4-byte lanes over
 16-byte windows.  The tables are given by their defining recurrences.
 */
module Crc32c {

  type Byte = bv8

  /** The generator polynomial of CRC-32C, lowest degree in the most significant bit. */
  const POLYNOMIAL: bv32 := 0x82f6_3b78
  const CRC_XOR: bv32 := 0xffff_ffff
  const MASK_DELTA: bv32 := 0xa282_ead8

  // ----- polynomials modulo the generator

  /** Addition. */
  function Xor(a: bv32, b: bv32): bv32 {
    a ^ b
  }

  function Half(l: bv32): bv32 {
    l >> 1
  }

  predicate Odd(l: bv32) {
    l & 1 == 1
  }

  /** Multiplication by x. */
  function ShiftBit(l: bv32): bv32 {
    if Odd(l) then Xor(Half(l), POLYNOMIAL) else Half(l)
  }

  /** Multiplication by x to the n. */
  function Shift(l: bv32, n: nat): bv32 {
    if n == 0 then l else ShiftBit(Shift(l, n - 1))
  }

  lemma BitwiseHalves(a: bv32, b: bv32)
    ensures (a ^ b) >> 1 == (a >> 1) ^ (b >> 1)
  {
  }

  lemma BitwiseLowBit(a: bv32, b: bv32)
    ensures (a ^ b) & 1 == 1 <==> (a & 1 == 1) != (b & 1 == 1)
  {
  }

  lemma BitwiseAssociates(a: bv32, b: bv32, c: bv32)
    ensures (a ^ b) ^ c == a ^ (b ^ c)
  {
  }

  lemma HalfOfXor(a: bv32, b: bv32)
    ensures Half(Xor(a, b)) == Xor(Half(a), Half(b))
  {
    BitwiseHalves(a, b);
  }

  lemma OddOfXor(a: bv32, b: bv32)
    ensures Odd(Xor(a, b)) <==> Odd(a) != Odd(b)
  {
    BitwiseLowBit(a, b);
  }

  lemma XorCommutes(a: bv32, b: bv32)
    ensures Xor(a, b) == Xor(b, a)
  {
  }

  lemma XorAssociates(a: bv32, b: bv32, c: bv32)
    ensures Xor(Xor(a, b), c) == Xor(a, Xor(b, c))
  {
    BitwiseAssociates(a, b, c);
  }

  lemma XorZero(a: bv32)
    ensures Xor(a, 0) == a && Xor(0, a) == a && Xor(a, a) == 0
  {
  }

  lemma XorSelf(a: bv32, b: bv32)
    ensures Xor(Xor(a, b), b) == a
  {
    hide Xor;
    XorAssociates(a, b, b);
    XorZero(b);
    XorZero(a);
  }

  lemma XorCancels(x: bv32, y: bv32, p: bv32)
    ensures Xor(Xor(x, p), Xor(y, p)) == Xor(x, y)
    ensures Xor(Xor(x, p), y) == Xor(Xor(x, y), p)
    ensures Xor(x, Xor(y, p)) == Xor(Xor(x, y), p)
  {
    hide Xor;
    XorAssociates(x, y, p);
    XorAssociates(x, p, y);
    XorCommutes(p, y);
    XorAssociates(x, p, Xor(y, p));
    XorCommutes(p, Xor(y, p));
    XorSelf(y, p);
  }

  lemma ShiftBitIsLinear(a: bv32, b: bv32)
    ensures ShiftBit(Xor(a, b)) == Xor(ShiftBit(a), ShiftBit(b))
  {
    hide Xor, Half, Odd;
    HalfOfXor(a, b);
    OddOfXor(a, b);
    XorCancels(Half(a), Half(b), POLYNOMIAL);
  }

  lemma {:induction false} ShiftIsLinear(a: bv32, b: bv32, n: nat)
    ensures Shift(Xor(a, b), n) == Xor(Shift(a, n), Shift(b, n))
  {
    hide Xor, ShiftBit;
    if n > 0 {
      ShiftIsLinear(a, b, n - 1);
      ShiftBitIsLinear(Shift(a, n - 1), Shift(b, n - 1));
    }
  }

  lemma {:induction false} ShiftAdds(l: bv32, m: nat, n: nat)
    ensures Shift(Shift(l, m), n) == Shift(l, m + n)
  {
    hide ShiftBit;
    if n > 0 {
      ShiftAdds(l, m, n - 1);
    }
  }

  /** Shifting out zeros only moves the rest down. */
  lemma ShiftEightZeros(l: bv32)
    requires l & 0xff == 0
    ensures Shift(l, 8) == l >> 8
  {
    assert Shift(l, 1) == l >> 1;
    assert Shift(l, 2) == l >> 2;
    assert Shift(l, 3) == l >> 3;
    assert Shift(l, 4) == l >> 4;
    assert Shift(l, 5) == l >> 5;
    assert Shift(l, 6) == l >> 6;
    assert Shift(l, 7) == l >> 7;
  }

  // ----- the bit-serial definition

  /** Feed the low `n` bits of `b`, least significant first. */
  function FeedBits(l: bv32, b: bv32, n: nat): bv32
    decreases n
  {
    if n == 0 then l else FeedBits(ShiftBit(Xor(l, b & 1)), b >> 1, n - 1)
  }

  function FeedByte(l: bv32, b: Byte): bv32 {
    FeedBits(l, Code(b), 8)
  }

  /** A byte as a register. */
  function Code(b: Byte): (c: bv32)
    ensures c <= 0xff
  {
    b as bv32
  }

  function Feed(l: bv32, data: seq<Byte>): bv32 {
    if data == [] then l else FeedByte(Feed(l, data[..|data| - 1]), data[|data| - 1])
  }

  /** The digest of `data` continued from the digest `crc` of what precedes it. */
  function Digest(crc: bv32, data: seq<Byte>): bv32 {
    Xor(Feed(Xor(crc, CRC_XOR), data), CRC_XOR)
  }

  // ----- a byte at once

  function Down(b: bv32, n: nat): bv32
    decreases n
  {
    if n == 0 then b else Down(b >> 1, n - 1)
  }

  lemma SplitLowBit(l: bv32, b: bv32)
    ensures (l ^ (b & 1)) ^ (b & 0xffff_fffe) == l ^ b
  {
  }

  lemma ClearedLowBit(b: bv32)
    ensures ShiftBit(b & 0xffff_fffe) == b >> 1
  {
  }

  lemma FeedOneBit(l: bv32, b: bv32)
    ensures ShiftBit(Xor(l, b)) == Xor(ShiftBit(Xor(l, b & 1)), b >> 1)
  {
    assert Xor(Xor(l, b & 1), b & 0xffff_fffe) == Xor(l, b) by {
      SplitLowBit(l, b);
    }
    hide ShiftBit, Xor;
    ClearedLowBit(b);
    ShiftBitIsLinear(Xor(l, b & 1), b & 0xffff_fffe);
  }

  lemma {:induction false} FeedBitsIsShift(l: bv32, b: bv32, n: nat)
    ensures Shift(Xor(l, b), n) == Xor(FeedBits(l, b, n), Down(b, n))
    decreases n
  {
    hide Xor, ShiftBit;
    if n > 0 {
      FeedOneBit(l, b);
      FeedBitsIsShift(ShiftBit(Xor(l, b & 1)), b >> 1, n - 1);
      ShiftAdds(Xor(l, b), 1, n - 1);
      assert Shift(Xor(l, b), 1) == ShiftBit(Xor(l, b));
    }
  }

  lemma DownEight(b: bv32)
    requires b <= 0xff
    ensures Down(b, 8) == 0
  {
    assert Down(b, 8) == Down(b >> 1, 7) == Down(b >> 2, 6) == Down(b >> 3, 5) == Down(b >> 4, 4);
    assert Down(b >> 4, 4) == Down(b >> 5, 3) == Down(b >> 6, 2) == Down(b >> 7, 1) == b >> 8;
  }

  /** Feeding eight bits one by one is adding the byte and shifting by eight. */
  lemma FeedByteIsShift(l: bv32, b: Byte)
    ensures FeedByte(l, b) == Shift(Xor(l, Code(b)), 8)
  {
    hide Xor, ShiftBit, Shift, FeedBits, Down, Code;
    FeedBitsIsShift(l, Code(b), 8);
    DownEight(Code(b));
    XorZero(FeedBits(l, Code(b), 8));
  }

  /** kByteExtensionTable. */
  function ByteTable(c: bv32): bv32
    requires c <= 0xff
  {
    Shift(c, 8)
  }

  lemma SplitLowByte(w: bv32)
    ensures Xor(w & 0xffff_ff00, w & 0xff) == w == Xor(w & 0xff, w & 0xffff_ff00)
    ensures (w & 0xffff_ff00) >> 8 == w >> 8 && (w & 0xffff_ff00) & 0xff == 0
  {
  }

  /** One look-up shifts a whole register by eight. */
  lemma TableShift(w: bv32)
    ensures Xor(w >> 8, ByteTable(w & 0xff)) == Shift(w, 8)
  {
    hide Shift, Xor;
    SplitLowByte(w);
    ShiftEightZeros(w & 0xffff_ff00);
    ShiftIsLinear(w & 0xffff_ff00, w & 0xff, 8);
  }

  lemma LowByteOfSum(l: bv32, c: bv32)
    requires c <= 0xff
    ensures Xor(l, c) >> 8 == l >> 8 && Xor(l, c) & 0xff == Xor(l & 0xff, c) && Xor(l & 0xff, c) <= 0xff
  {
  }

  /** STEP1. */
  function StepByte(l: bv32, b: Byte): bv32 {
    LowByteOfSum(l, Code(b));
    Xor(ByteTable(Xor(l & 0xff, Code(b))), l >> 8)
  }

  lemma StepByteIsFeed(l: bv32, b: Byte)
    ensures StepByte(l, b) == FeedByte(l, b)
  {
    hide Shift, Xor, FeedByte, Code;
    LowByteOfSum(l, Code(b));
    TableShift(Xor(l, Code(b)));
    XorCommutes(l >> 8, ByteTable(Xor(l & 0xff, Code(b))));
    FeedByteIsShift(l, b);
  }

  // ----- a word at once

  function ReadUint32LE(data: seq<Byte>, i: nat): bv32
    requires i + 4 <= |data|
  {
    Code(data[i]) | (Code(data[i + 1]) << 8) | (Code(data[i + 2]) << 16) | (Code(data[i + 3]) << 24)
  }

  lemma BytesOfWord(a: bv32, b: bv32, c: bv32, d: bv32)
    requires a <= 0xff && b <= 0xff && c <= 0xff && d <= 0xff
    ensures (a | (b << 8) | (c << 16) | (d << 24)) & 0xff == a
    ensures (a | (b << 8) | (c << 16) | (d << 24)) >> 8 == b | (c << 8) | (d << 16)
    ensures (b | (c << 8) | (d << 16)) & 0xff == b && (b | (c << 8) | (d << 16)) >> 8 == c | (d << 8)
    ensures (c | (d << 8)) & 0xff == c && (c | (d << 8)) >> 8 == d
    ensures d & 0xff == d && d >> 8 == 0
  {
  }

  lemma SplitSum(l: bv32, w: bv32)
    ensures Xor(Xor(l, w & 0xff), w & 0xffff_ff00) == Xor(l, w)
  {
    hide Xor;
    SplitLowByte(w);
    XorAssociates(l, w & 0xff, w & 0xffff_ff00);
  }

  /** Feeding the low byte of `w` leaves the rest of `w` to be added. */
  lemma FeedLow(l: bv32, w: bv32, b: Byte)
    requires w & 0xff == Code(b)
    ensures Xor(FeedByte(l, b), w >> 8) == Shift(Xor(l, w), 8)
  {
    hide Shift, FeedByte, Xor, Code;
    SplitSum(l, w);
    HighShifts(w);
    FeedPieces(l, w, b, w & 0xffff_ff00, w >> 8);
  }

  lemma HighShifts(w: bv32)
    ensures Shift(w & 0xffff_ff00, 8) == w >> 8
  {
    hide Shift;
    SplitLowByte(w);
    ShiftEightZeros(w & 0xffff_ff00);
  }

  lemma FeedPieces(l: bv32, w: bv32, b: Byte, high: bv32, down: bv32)
    requires Xor(Xor(l, Code(b)), high) == Xor(l, w) && Shift(high, 8) == down
    ensures Xor(FeedByte(l, b), down) == Shift(Xor(l, w), 8)
  {
    hide Shift, FeedByte, Xor, Code;
    FeedByteIsShift(l, b);
    ShiftIsLinear(Xor(l, Code(b)), high, 8);
  }

  /** Four bytes at once. */
  lemma FeedWord(l: bv32, w: bv32, b0: Byte, b1: Byte, b2: Byte, b3: Byte)
    requires w == Code(b0) | (Code(b1) << 8) | (Code(b2) << 16) | (Code(b3) << 24)
    ensures FeedByte(FeedByte(FeedByte(FeedByte(l, b0), b1), b2), b3) == Shift(Xor(l, w), 32)
  {
    hide Shift, FeedByte, Xor, Code;
    BytesOfWord(Code(b0), Code(b1), Code(b2), Code(b3));
    var w1 := w >> 8;
    var w2 := w1 >> 8;
    var w3 := w2 >> 8;
    var l1 := FeedByte(l, b0);
    var l2 := FeedByte(l1, b1);
    var l3 := FeedByte(l2, b2);
    FeedLow(l, w, b0);
    FeedLow(l1, w1, b1);
    FeedLow(l2, w2, b2);
    FeedLow(l3, w3, b3);
    XorZero(FeedByte(l3, b3));
    ShiftAdds(Xor(l, w), 8, 8);
    ShiftAdds(Xor(l, w), 16, 8);
    ShiftAdds(Xor(l, w), 24, 8);
  }

  lemma FeedStep(l: bv32, data: seq<Byte>, n: nat)
    requires n < |data|
    ensures Feed(l, data[..n + 1]) == FeedByte(Feed(l, data[..n]), data[n])
  {
    assert data[..n + 1][..n] == data[..n];
  }

  lemma FeedWordAt(l: bv32, data: seq<Byte>, p: nat)
    requires p + 4 <= |data|
    ensures Feed(l, data[..p + 4]) == Shift(Xor(Feed(l, data[..p]), ReadUint32LE(data, p)), 32)
  {
    hide Shift, FeedByte, Xor, Code, Feed;
    FeedStep(l, data, p);
    FeedStep(l, data, p + 1);
    FeedStep(l, data, p + 2);
    FeedStep(l, data, p + 3);
    FeedWord(Feed(l, data[..p]), ReadUint32LE(data, p), data[p], data[p + 1], data[p + 2], data[p + 3]);
  }

  // ----- four lanes

  /** The register, once the words waiting in the four lanes have been fed to it. */
  function Lanes(c0: bv32, c1: bv32, c2: bv32, c3: bv32): bv32 {
    Shift(Xor(Shift(Xor(Shift(Xor(Shift(c0, 32), c1), 32), c2), 32), c3), 32)
  }

  /** A lane that falls out of the window comes back, 16 bytes on, added to the new word. */
  lemma NextLane(c0: bv32, c1: bv32, c2: bv32, c3: bv32, w: bv32)
    ensures Shift(Xor(Lanes(c0, c1, c2, c3), w), 32) == Lanes(c1, c2, c3, Xor(w, Shift(c0, 128)))
  {
    hide Shift, Xor;
    var a := Shift(c0, 32);
    LaneSum(a, c1, c2, c3);
    ShiftAdds(c0, 32, 96);
    PushLane(Shift(c0, 128), c1, c2, c3, w);
  }

  /** What the last three lanes contribute. */
  function Tail(c1: bv32, c2: bv32, c3: bv32): bv32 {
    Shift(Xor(Shift(Xor(Shift(c1, 32), c2), 32), c3), 32)
  }

  lemma LaneSum(a: bv32, c1: bv32, c2: bv32, c3: bv32)
    ensures Shift(Xor(Shift(Xor(Shift(Xor(a, c1), 32), c2), 32), c3), 32) == Xor(Shift(a, 96), Tail(c1, c2, c3))
  {
    hide Shift, Xor;
    ShiftIsLinear(a, c1, 32);
    XorAssociates(Shift(a, 32), Shift(c1, 32), c2);
    var b1 := Xor(Shift(c1, 32), c2);
    ShiftIsLinear(Shift(a, 32), b1, 32);
    ShiftAdds(a, 32, 32);
    XorAssociates(Shift(a, 64), Shift(b1, 32), c3);
    ShiftIsLinear(Shift(a, 64), Xor(Shift(b1, 32), c3), 32);
    ShiftAdds(a, 64, 32);
  }

  lemma PushLane(x: bv32, c1: bv32, c2: bv32, c3: bv32, w: bv32)
    ensures Shift(Xor(Xor(x, Tail(c1, c2, c3)), w), 32) == Lanes(c1, c2, c3, Xor(w, x))
  {
    hide Shift, Xor;
    var t := Tail(c1, c2, c3);
    XorCommutes(x, t);
    XorAssociates(t, x, w);
    XorCommutes(x, w);
  }

  /** kStrideExtensionTable3 down to kStrideExtensionTable0: byte `k` of a lane, 16 bytes on. */
  function StrideTable(c: bv32, k: nat): bv32
    requires c <= 0xff && k < 4
  {
    Shift(if k == 0 then c else if k == 1 then c << 8 else if k == 2 then c << 16 else c << 24, 128)
  }

  /** The table look-ups of STEP4. */
  function Stride(c: bv32): bv32 {
    Xor(Xor(Xor(StrideTable(c & 0xff, 0), StrideTable((c >> 8) & 0xff, 1)), StrideTable((c >> 16) & 0xff, 2)),
        StrideTable(c >> 24, 3))
  }

  lemma BytesOfLane(c: bv32)
    ensures Xor(Xor(Xor(c & 0xff, ((c >> 8) & 0xff) << 8), ((c >> 16) & 0xff) << 16), (c >> 24) << 24) == c
  {
  }

  lemma StrideIsShift(c: bv32)
    ensures Stride(c) == Shift(c, 128)
  {
    hide Shift, Xor;
    var b0, b1, b2, b3 := c & 0xff, ((c >> 8) & 0xff) << 8, ((c >> 16) & 0xff) << 16, (c >> 24) << 24;
    BytesOfLane(c);
    ShiftIsLinear(b0, b1, 128);
    ShiftIsLinear(Xor(b0, b1), b2, 128);
    ShiftIsLinear(Xor(Xor(b0, b1), b2), b3, 128);
  }

  /** STEP4W: fold one lane into the register. */
  method StepWord(w0: bv32, l: bv32) returns (w: bv32)
    ensures w == Shift(Xor(w0, l), 32)
  {
    hide Shift, Xor;
    w := Xor(w0, l);
    ghost var start := w;
    ShiftNothing(w);
    for i := 0 to 4
      invariant w == Shift(start, 8 * i)
    {
      TableShift(w);
      ShiftAdds(start, 8 * i, 8);
      w := Xor(w >> 8, ByteTable(w & 0xff));
    }
  }

  lemma ShiftNothing(l: bv32)
    ensures Shift(l, 0) == l
  {
  }

  /** STEP1 until position `to`. */
  method StepBytes(l0: bv32, data: seq<Byte>, from: nat, to: nat, ghost start: bv32) returns (l: bv32)
    requires from <= to <= |data| && l0 == Feed(start, data[..from])
    ensures l == Feed(start, data[..to])
  {
    hide Feed, FeedByte, StepByte;
    l := l0;
    var p := from;
    while p != to
      invariant from <= p <= to
      invariant l == Feed(start, data[..p])
    {
      StepByteIsFeed(l, data[p]);
      FeedStep(start, data, p);
      l := StepByte(l, data[p]);
      p := p + 1;
    }
  }

  /** One word enters the window. */
  lemma EnterWord(start: bv32, data: seq<Byte>, p: nat, c0: bv32, c1: bv32, c2: bv32, c3: bv32)
    requires p + 4 <= |data| && Feed(start, data[..p]) == Lanes(c0, c1, c2, c3)
    ensures Feed(start, data[..p + 4]) == Lanes(c1, c2, c3, Xor(ReadUint32LE(data, p), Stride(c0)))
  {
    hide Feed, Lanes, Shift, Xor, ReadUint32LE, Stride;
    FeedWordAt(start, data, p);
    NextLane(c0, c1, c2, c3, ReadUint32LE(data, p));
    StrideIsShift(c0);
  }

  /** The first 16 bytes fill the lanes. */
  lemma FillLanes(start: bv32, data: seq<Byte>, p: nat, l: bv32)
    requires p + 16 <= |data| && l == Feed(start, data[..p])
    ensures Feed(start, data[..p + 16]) ==
            Lanes(Xor(ReadUint32LE(data, p), l), ReadUint32LE(data, p + 4), ReadUint32LE(data, p + 8),
                ReadUint32LE(data, p + 12))
  {
    hide Feed, Shift, Xor, ReadUint32LE;
    FeedWordAt(start, data, p);
    FeedWordAt(start, data, p + 4);
    FeedWordAt(start, data, p + 8);
    FeedWordAt(start, data, p + 12);
    XorCommutes(l, ReadUint32LE(data, p));
  }

  /** From position `p` on, 16 bytes or more: four lanes, then word by word; stops less than a word from the end. */
  method StepLanes(l0: bv32, data: seq<Byte>, from: nat, ghost start: bv32) returns (l: bv32, p: nat)
    requires from + 16 <= |data| && l0 == Feed(start, data[..from])
    ensures from + 16 <= p <= |data| < p + 4 && l == Feed(start, data[..p])
  {
    hide Feed, Shift, Xor, ReadUint32LE, Stride;
    p := from;
    FillLanes(start, data, p, l0);
    var crc0 := Xor(ReadUint32LE(data, p), l0);
    var crc1 := ReadUint32LE(data, p + 4);
    var crc2 := ReadUint32LE(data, p + 8);
    var crc3 := ReadUint32LE(data, p + 12);
    p := p + 16;
    hide Lanes;
    while |data| - p >= 16
      invariant from + 16 <= p <= |data| && Feed(start, data[..p]) == Lanes(crc0, crc1, crc2, crc3)
    {
      EnterWord(start, data, p, crc0, crc1, crc2, crc3);
      crc0 := Xor(ReadUint32LE(data, p), Stride(crc0));
      EnterWord(start, data, p + 4, crc1, crc2, crc3, crc0);
      crc1 := Xor(ReadUint32LE(data, p + 4), Stride(crc1));
      EnterWord(start, data, p + 8, crc2, crc3, crc0, crc1);
      crc2 := Xor(ReadUint32LE(data, p + 8), Stride(crc2));
      EnterWord(start, data, p + 12, crc3, crc0, crc1, crc2);
      crc3 := Xor(ReadUint32LE(data, p + 12), Stride(crc3));
      p := p + 16;
    }
    while |data| - p >= 4
      invariant from + 16 <= p <= |data| && Feed(start, data[..p]) == Lanes(crc0, crc1, crc2, crc3)
    {
      EnterWord(start, data, p, crc0, crc1, crc2, crc3);
      crc0 := Xor(ReadUint32LE(data, p), Stride(crc0));
      crc0, crc1, crc2, crc3 := crc1, crc2, crc3, crc0;
      p := p + 4;
    }
    l := FoldLanes(crc0, crc1, crc2, crc3);
  }

  method FoldLanes(crc0: bv32, crc1: bv32, crc2: bv32, crc3: bv32) returns (l: bv32)
    ensures l == Lanes(crc0, crc1, crc2, crc3)
  {
    hide Shift, Xor;
    l := 0;
    XorZero(crc0);
    l := StepWord(crc0, l);
    XorCommutes(crc1, l);
    l := StepWord(crc1, l);
    XorCommutes(crc2, l);
    l := StepWord(crc2, l);
    XorCommutes(crc3, l);
    l := StepWord(crc3, l);
  }

  /**
   Extend on a buffer at any address: bytes up to a 4-byte boundary, then lanes, then the
   rest byte by byte.
   */
  method Extend(crc: bv32, data: seq<Byte>, address: nat) returns (r: bv32)
    ensures r == Digest(crc, data)
  {
    hide Feed, Xor;
    var start := Xor(crc, CRC_XOR);
    FeedNothing(start, data);
    var l, p := start, 0;
    var x := (4 - address % 4) % 4;
    if x <= |data| {
      l := StepBytes(l, data, 0, x, start);
      p := x;
    }
    if |data| - p >= 16 {
      l, p := StepLanes(l, data, p, start);
    }
    l := StepBytes(l, data, p, |data|, start);
    assert data[..|data|] == data;
    r := Xor(l, CRC_XOR);
  }

  lemma FeedNothing(l: bv32, data: seq<Byte>)
    ensures Feed(l, data[..0]) == l
  {
  }

  // ----- what the callers rely on

  lemma {:induction false} FeedConcat(l: bv32, a: seq<Byte>, b: seq<Byte>)
    ensures Feed(l, a + b) == Feed(Feed(l, a), b)
  {
    hide FeedByte;
    if b == [] {
      assert a + b == a;
    } else {
      var n := |b| - 1;
      FeedConcat(l, a, b[..n]);
      assert (a + b)[..|a| + n] == a + b[..n];
    }
  }

  /** A digest can be computed piece by piece. */
  lemma DigestConcat(crc: bv32, a: seq<Byte>, b: seq<Byte>)
    ensures Digest(Digest(crc, a), b) == Digest(crc, a + b)
  {
    hide Feed;
    FeedConcat(Xor(crc, CRC_XOR), a, b);
    XorSelf(Feed(Xor(crc, CRC_XOR), a), CRC_XOR);
  }

  /** Rotate right by 15 bits and add a constant. */
  function Mask(crc: bv32): bv32 {
    ((crc >> 15) | (crc << 17)) + MASK_DELTA
  }

  function Unmask(masked: bv32): bv32 {
    var rot := masked - MASK_DELTA;
    (rot >> 17) | (rot << 15)
  }

  lemma RotationInverts(x: bv32)
    ensures (((x >> 15) | (x << 17)) >> 17) | (((x >> 15) | (x << 17)) << 15) == x
    ensures (((x >> 17) | (x << 15)) >> 15) | (((x >> 17) | (x << 15)) << 17) == x
  {
  }

  lemma MaskRoundTrip(crc: bv32)
    ensures Unmask(Mask(crc)) == crc && Mask(Unmask(crc)) == crc
  {
    RotationInverts(crc);
    RotationInverts(crc - MASK_DELTA);
  }
}
