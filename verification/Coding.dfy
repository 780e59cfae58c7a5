/**
 The number formats shared by logs, blocks, tables and filters (util/coding.h, util/coding.cc).
 Bytes are bit-vectors, numbers are naturals; a decoder says where its input begins and ends.
 */
module Coding {
  import opened Crc32c

  // ----- one byte

  /** A number as a byte and back, bit by bit. */
  function ToByte(x: nat): Byte {
    BitsOf(x, 8)
  }

  function FromByte(b: Byte): nat {
    NumberOf(b, 8)
  }

  function AppendBit(c: Byte, d: bool): Byte {
    if d then (c << 1) | 1 else c << 1
  }

  function BitsOf(x: nat, n: nat): Byte
    decreases n
  {
    if n == 0 then 0 else AppendBit(BitsOf(x / 2, n - 1), x % 2 == 1)
  }

  function NumberOf(b: Byte, n: nat): nat
    decreases n
  {
    if n == 0 then 0 else 2 * NumberOf(b >> 1, n - 1) + if b & 1 == 1 then 1 else 0
  }

  function Power2(n: nat): nat {
    if n == 0 then 1 else 2 * Power2(n - 1)
  }

  function Ones(n: nat): Byte {
    if n == 0 then 0 else AppendBit(Ones(n - 1), true)
  }

  lemma SevenOnes(n: nat)
    requires n <= 7
    ensures Ones(n) <= 0x7f
  {
    assert Ones(1) == 1 && Ones(2) == 3 && Ones(3) == 7 && Ones(4) == 15 && Ones(5) == 31 && Ones(6) == 63 &&
        Ones(7) == 0x7f;
    assert n == 0 || n == 1 || n == 2 || n == 3 || n == 4 || n == 5 || n == 6 || n == 7;
  }

  lemma AppendBitInverts(c: Byte, d: bool)
    requires c <= 0x7f
    ensures AppendBit(c, d) >> 1 == c && (AppendBit(c, d) & 1 == 1 <==> d)
  {
  }

  lemma AppendBitGrows(c: Byte, e: Byte, d: bool)
    requires c <= e <= 0x7f
    ensures AppendBit(c, d) <= AppendBit(e, true)
  {
  }

  lemma {:induction false} BitsAreSmall(x: nat, n: nat)
    requires n <= 8
    ensures BitsOf(x, n) <= Ones(n)
    decreases n
  {
    hide AppendBit;
    if n > 0 {
      BitsAreSmall(x / 2, n - 1);
      SevenOnes(n - 1);
      AppendBitGrows(BitsOf(x / 2, n - 1), Ones(n - 1), x % 2 == 1);
    }
  }

  lemma {:induction false} BitsRoundTrip(x: nat, n: nat)
    requires n <= 8 && x < Power2(n)
    ensures NumberOf(BitsOf(x, n), n) == x
    decreases n
  {
    hide AppendBit;
    if n > 0 {
      BitsRoundTrip(x / 2, n - 1);
      BitsAreSmall(x / 2, n - 1);
      SevenOnes(n - 1);
      AppendBitInverts(BitsOf(x / 2, n - 1), x % 2 == 1);
    }
  }

  lemma ByteRoundTrip(x: nat)
    requires x < 256
    ensures FromByte(ToByte(x)) == x
  {
    assert Power2(4) == 16 && Power2(8) == 256;
    BitsRoundTrip(x, 8);
  }

  lemma AppendBitRestores(b: Byte)
    ensures AppendBit(b >> 1, b & 1 == 1) == b
  {
  }

  lemma ShiftedIsSmall(b: Byte, n: nat)
    requires 0 < n <= 8 && b <= Ones(n)
    ensures b >> 1 <= Ones(n - 1)
  {
    assert Ones(0) == 0 && Ones(1) == 1 && Ones(2) == 3 && Ones(3) == 7 && Ones(4) == 15;
    assert Ones(5) == 31 && Ones(6) == 63 && Ones(7) == 127 && Ones(8) == 255;
  }

  lemma {:induction false} NumberRoundTrip(b: Byte, n: nat)
    requires n <= 8 && b <= Ones(n)
    ensures BitsOf(NumberOf(b, n), n) == b && NumberOf(b, n) < Power2(n)
    decreases n
  {
    hide AppendBit, Ones;
    if n > 0 {
      ShiftedIsSmall(b, n);
      NumberRoundTrip(b >> 1, n - 1);
      AppendBitRestores(b);
    } else {
      NoOnes(b);
    }
  }

  lemma NoOnes(b: Byte)
    requires b <= Ones(0)
    ensures b == 0
  {
  }

  lemma EightOnes()
    ensures Ones(8) == 255 && Power2(8) == 256
  {
    assert Ones(4) == 15 && Power2(4) == 16;
  }

  /** Bytes and the numbers below 256 are the same thing. */
  lemma ByteValues(b: Byte)
    ensures ToByte(FromByte(b)) == b && FromByte(b) < 256
  {
    EightOnes();
    NumberRoundTrip(b, 8);
  }

  lemma SameNumberSameByte(a: Byte, b: Byte)
    ensures FromByte(a) == FromByte(b) ==> a == b
  {
    hide ToByte, FromByte;
    ByteValues(a);
    ByteValues(b);
  }

  // ----- pieces of a buffer

  type Bytes = seq<Byte>

  /** The buffer holds `piece` at `p`. */
  ghost predicate At(s: seq<Byte>, p: nat, piece: seq<Byte>) {
    p + |piece| <= |s| && s[p..p + |piece|] == piece
  }

  lemma Reassociate(a: Bytes, b: Bytes, c: Bytes)
    ensures a + b + c == a + (b + c)
  {
  }

  lemma NothingAround(b: Bytes)
    ensures [] + b == b && b + [] == b
  {
  }

  lemma AtBoth(s: seq<Byte>, p: nat, a: seq<Byte>, b: seq<Byte>)
    ensures At(s, p, a + b) <==> At(s, p, a) && At(s, p + |a|, b)
  {
    if p + |a| + |b| <= |s| {
      assert s[p..p + |a + b|] == s[p..p + |a|] + s[p + |a|..p + |a| + |b|];
      assert At(s, p, a + b) ==> s[p..p + |a|] == (a + b)[..|a|] && s[p + |a|..p + |a| + |b|] == (a + b)[|a|..];
    }
  }

  lemma AtAfter(s: seq<Byte>, piece: seq<Byte>, t: seq<Byte>)
    ensures At(s + piece + t, |s|, piece)
  {
    assert (s + piece + t)[|s|..|s| + |piece|] == piece;
  }

  lemma AtGrows(s: seq<Byte>, p: nat, piece: seq<Byte>, t: seq<Byte>)
    requires At(s, p, piece)
    ensures At(s + t, p, piece)
  {
    assert (s + t)[p..p + |piece|] == s[p..p + |piece|];
  }

  lemma AtInside(front: seq<Byte>, middle: seq<Byte>, tail: seq<Byte>, p: nat, piece: seq<Byte>)
    requires At(middle, p, piece)
    ensures At(front + middle + tail, |front| + p, piece)
  {
    assert (front + middle + tail)[|front| + p..|front| + p + |piece|] == middle[p..p + |piece|];
  }

  // ----- fixed-width numbers, low byte first

  /** A checksum, whose bits matter, as four bytes. */
  function EncodeFixed32(x: bv32): seq<Byte> {
    [(x & 0xff) as Byte, ((x >> 8) & 0xff) as Byte, ((x >> 16) & 0xff) as Byte, (x >> 24) as Byte]
  }

  lemma Fixed32RoundTrip(x: bv32)
    ensures ReadUint32LE(EncodeFixed32(x), 0) == x
  {
  }

  function Fixed(x: nat, n: nat): (r: seq<Byte>)
    ensures |r| == n
    decreases n
  {
    if n == 0 then [] else [ToByte(x % 256)] + Fixed(x / 256, n - 1)
  }

  function GetFixed(s: seq<Byte>, p: nat, n: nat): nat
    requires p + n <= |s|
    decreases n
  {
    if n == 0 then 0 else FromByte(s[p]) + 256 * GetFixed(s, p + 1, n - 1)
  }

  function Power(base: nat, n: nat): (r: nat)
    ensures base > 0 ==> r > 0
  {
    if n == 0 then 1 else base * Power(base, n - 1)
  }

  lemma {:induction false} FixedRoundTrip(s: seq<Byte>, p: nat, x: nat, n: nat)
    requires At(s, p, Fixed(x, n)) && x < Power(256, n)
    ensures GetFixed(s, p, n) == x
    decreases n
  {
    hide ToByte, FromByte;
    if n > 0 {
      var rest := Fixed(x / 256, n - 1);
      AtBoth(s, p, [ToByte(x % 256)], rest);
      ByteRoundTrip(x % 256);
      assert s[p..p + 1][0] == ToByte(x % 256);
      FixedRoundTrip(s, p + 1, x / 256, n - 1);
    }
  }

  /** An array of 32-bit numbers. */
  function FixedArray(xs: seq<nat>): (r: seq<Byte>)
    ensures |r| == 4 * |xs|
  {
    if xs == [] then [] else FixedArray(xs[..|xs| - 1]) + Fixed(xs[|xs| - 1], 4)
  }

  lemma {:induction false} FixedArrayAt(xs: seq<nat>, i: nat)
    requires i < |xs|
    ensures At(FixedArray(xs), 4 * i, Fixed(xs[i], 4))
  {
    hide Fixed;
    var n := |xs| - 1;
    var front := FixedArray(xs[..n]);
    if i < n {
      FixedArrayAt(xs[..n], i);
      AtGrows(front, 4 * i, Fixed(xs[i], 4), Fixed(xs[n], 4));
    } else {
      AtAfter(front, Fixed(xs[n], 4), []);
      assert front + Fixed(xs[n], 4) + [] == FixedArray(xs);
    }
  }

  // ----- varints: seven bits a byte, the top bit set on all but the last

  function Varint(x: nat): (r: seq<Byte>)
    ensures |r| >= 1
  {
    if x < 128 then [ToByte(x)] else [ToByte(x % 128 + 128)] + Varint(x / 128)
  }

  datatype Parsed = Malformed | Parsed(value: nat, next: nat)

  /** Read at most `n` bytes of `s[p..limit]`. */
  function ReadVarint(s: seq<Byte>, p: nat, limit: nat, n: nat): (r: Parsed)
    requires limit <= |s|
    ensures r.Parsed? ==> p < r.next <= limit
    decreases n
  {
    if n == 0 || p >= limit then Malformed
    else
      var b := FromByte(s[p]);
      if b < 128 then Parsed(b, p + 1)
      else Prepend(b % 128, ReadVarint(s, p + 1, limit, n - 1))
  }

  /** Put a lower group of seven bits in front. */
  function Prepend(b: nat, r: Parsed): Parsed {
    if r.Parsed? then Parsed(b + 128 * r.value, r.next) else r
  }

  function Word(x: nat, width: nat): (w: nat)
    requires width > 0
    ensures w < width
  {
    x % width
  }

  /** The result is cut to the width of the target. */
  function Cut(r: Parsed, width: nat): Parsed
    requires width > 0
  {
    if r.Parsed? then Parsed(Word(r.value, width), r.next) else r
  }

  const TWO32: nat := 0x1_0000_0000
  const TWO64: nat := 0x1_0000_0000_0000_0000

  function ReadVarint32(s: seq<Byte>, p: nat, limit: nat): (r: Parsed)
    requires limit <= |s|
    ensures r.Parsed? ==> p < r.next <= limit && r.value < TWO32
  {
    Cut(ReadVarint(s, p, limit, 5), TWO32)
  }

  function ReadVarint64(s: seq<Byte>, p: nat, limit: nat): (r: Parsed)
    requires limit <= |s|
    ensures r.Parsed? ==> p < r.next <= limit && r.value < TWO64
  {
    Cut(ReadVarint(s, p, limit, 10), TWO64)
  }

  lemma {:induction false} VarintRoundTrip(s: seq<Byte>, p: nat, limit: nat, x: nat, n: nat)
    requires At(s, p, Varint(x)) && p + |Varint(x)| <= limit <= |s| && x < Power(128, n) && n > 0
    ensures ReadVarint(s, p, limit, n) == Parsed(x, p + |Varint(x)|)
    decreases n
  {
    hide ToByte, FromByte;
    assert Power(128, 1) == 128;
    if x < 128 {
      ByteRoundTrip(x);
      assert s[p..p + 1][0] == ToByte(x);
    } else {
      AtBoth(s, p, [ToByte(x % 128 + 128)], Varint(x / 128));
      ByteRoundTrip(x % 128 + 128);
      assert s[p..p + 1][0] == ToByte(x % 128 + 128);
      VarintRoundTrip(s, p + 1, limit, x / 128, n - 1);
    }
  }

  lemma Powers()
    ensures Power(128, 5) == 0x8_0000_0000 && Power(128, 10) == 0x40_0000_0000_0000_0000
    ensures Power(256, 4) == TWO32 && Power(256, 8) == TWO64
  {
    assert Power(128, 5) == 0x8_0000_0000;
    assert Power(256, 4) == TWO32;
  }

  lemma Varint32RoundTrip(s: seq<Byte>, p: nat, limit: nat, x: nat)
    requires At(s, p, Varint(x)) && p + |Varint(x)| <= limit <= |s| && x < TWO32
    ensures ReadVarint32(s, p, limit) == Parsed(x, p + |Varint(x)|)
  {
    Powers();
    hide Power, ReadVarint, Varint;
    VarintRoundTrip(s, p, limit, x, 5);
  }

  lemma Varint64RoundTrip(s: seq<Byte>, p: nat, limit: nat, x: nat)
    requires At(s, p, Varint(x)) && p + |Varint(x)| <= limit <= |s| && x < TWO64
    ensures ReadVarint64(s, p, limit) == Parsed(x, p + |Varint(x)|)
  {
    Powers();
    hide Power, ReadVarint, Varint;
    VarintRoundTrip(s, p, limit, x, 10);
  }

  lemma {:induction false} VarintIsShort(x: nat, n: nat)
    requires x < Power(128, n) && n > 0
    ensures |Varint(x)| <= n
    decreases n
  {
    assert Power(128, 1) == 128;
    if x >= 128 {
      VarintIsShort(x / 128, n - 1);
    }
  }

  /** EncodeVarint64: the loop writes exactly the varint. */
  method EncodeVarint(x: nat) returns (r: seq<Byte>)
    ensures r == Varint(x)
  {
    hide ToByte;
    var v := x;
    r := [];
    while v >= 128
      invariant r + Varint(v) == Varint(x)
    {
      assert (r + [ToByte(v % 128 + 128)]) + Varint(v / 128) == r + ([ToByte(v % 128 + 128)] + Varint(v / 128));
      r := r + [ToByte(v % 128 + 128)];
      v := v / 128;
    }
    r := r + [ToByte(v)];
  }

  function Scaled(b: nat, place: nat): nat {
    place * b
  }

  /** The whole result when the bytes so far give `low` and `r` is read from the rest. */
  function Resume(r: Parsed, low: nat, place: nat): Parsed {
    if r.Parsed? then Parsed(low + Scaled(r.value, place), r.next) else r
  }

  /** GetVarint32Ptr and GetVarint64Ptr: groups are shifted into a word of bounded width. */
  method GetVarint(s: seq<Byte>, start: nat, limit: nat, n: nat, width: nat) returns (r: Parsed)
    requires limit <= |s| && width > 1
    ensures r == Cut(ReadVarint(s, start, limit, n), width)
  {
    hide FromByte, Scaled, Word;
    var result: nat, place: nat, p, i := 0, 1, start, 0;
    ghost var low: nat := 0;
    StartOfVarint(ReadVarint(s, p, limit, n), width);
    while i < n && p < limit
      invariant i <= n && p == start + i && result == Word(low, width)
      invariant Resume(ReadVarint(s, p, limit, n - i), low, place) == ReadVarint(s, start, limit, n)
    {
      var b := FromByte(s[p]);
      NextGroup(ReadVarint(s, p + 1, limit, n - i - 1), low, place, b % 128);
      WordAdds(low, Scaled(b % 128, place), width);
      p := p + 1;
      i := i + 1;
      result := Word(result + Word(Scaled(b % 128, place), width), width);
      low := low + Scaled(b % 128, place);
      if b < 128 {
        return Parsed(result, p);
      }
      place := place * 128;
    }
    r := Malformed;
  }

  lemma StartOfVarint(r: Parsed, width: nat)
    requires width > 1
    ensures Resume(r, 0, 1) == r && Word(0, width) == 0
  {
    if r.Parsed? {
      assert Scaled(r.value, 1) == r.value;
    }
  }

  lemma NextGroup(r: Parsed, low: nat, place: nat, b: nat)
    ensures Resume(r, low + Scaled(b, place), place * 128) == Resume(Prepend(b, r), low, place)
  {
    if r.Parsed? {
      assert place * (b + 128 * r.value) == place * b + place * 128 * r.value;
    }
  }

  lemma WordAdds(a: nat, b: nat, width: nat)
    requires width > 0
    ensures Word(Word(a, width) + Word(b, width), width) == Word(a + b, width)
  {
    SumOfParts(a, b, width, a / width, b / width, a % width, b % width);
    ModOfShift(a % width + b % width, a / width + b / width, width);
  }

  lemma SumOfParts(a: nat, b: nat, width: nat, qa: nat, qb: nat, ra: nat, rb: nat)
    requires a == width * qa + ra && b == width * qb + rb
    ensures a + b == ra + rb + width * (qa + qb)
  {
    Distribute(width, qa, qb);
  }

  lemma Distribute(w: nat, x: nat, y: nat)
    ensures w * (x + y) == w * x + w * y
  {
  }

  lemma ModOfShift(c: nat, q: nat, width: nat)
    requires width > 0
    ensures (c + width * q) % width == c % width
  {
    assert c + width * q == c % width + width * (c / width + q);
    UniqueRemainder(c + width * q, c / width + q, c % width, width);
  }

  lemma UniqueRemainder(x: nat, q: nat, r: nat, width: nat)
    requires width > 0 && r < width && x == r + width * q
    ensures x % width == r && x / width == q
  {
    var d := x / width - q;
    assert x % width - r == -(width * d);
    AtLeastOne(width, d);
  }

  lemma AtLeastOne(width: int, d: int)
    requires width > 0
    ensures d > 0 ==> width * d >= width
    ensures d < 0 ==> width * d + width <= 0
  {
    assert d > 0 ==> width * d >= width * 1;
    assert d < 0 ==> width * (d + 1) <= width * 0;
  }

  // ----- strings with their length in front

  function LengthPrefixed(v: seq<Byte>): (r: seq<Byte>) {
    Varint(|v|) + v
  }

  datatype Slice = NoSlice | Slice(bytes: seq<Byte>, next: nat)

  function GetLengthPrefixed(s: seq<Byte>, p: nat): (r: Slice)
    ensures r.Slice? ==> p < r.next <= |s|
  {
    var n := ReadVarint32(s, p, |s|);
    if n.Parsed? && n.next + n.value <= |s| then Slice(s[n.next..n.next + n.value], n.next + n.value) else NoSlice
  }

  lemma LengthPrefixedRoundTrip(s: seq<Byte>, p: nat, v: seq<Byte>)
    requires At(s, p, LengthPrefixed(v)) && |v| < TWO32
    ensures GetLengthPrefixed(s, p) == Slice(v, p + |LengthPrefixed(v)|)
  {
    hide Varint;
    AtBoth(s, p, Varint(|v|), v);
    Varint32RoundTrip(s, p, |s|, |v|);
  }
}
