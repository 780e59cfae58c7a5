/**
 The decoder of nanopb (pb_decode.c, pb_common.c). What the encoder wrote comes back: decoding an
 encoded message gives a message with the same fields set to the same values and all other fields
 at their defaults, consumes the input to its end, and finds every required field.

 A stream is a buffer with a position and a limit; a substream is the same with a closer limit.
 */
module PbDecode {
  import opened Optional
  import opened Crc32c
  import opened Coding
  import opened PbMessages

  /** What was read, and where the next thing begins. */
  type Read<T> = Option<(T, nat)>

  // ----- numbers

  /** After a byte with its top bit set the rest of the number is `rest`. */
  ghost predicate Continues(x: nat, result: nat, place: nat, rest: nat) {
    rest > 0 && result < place && x == result + Scaled(rest, place)
  }

  lemma PlaceGrows(x: nat, result: nat, place: nat, rest: nat)
    requires Continues(x, result, place, rest)
    ensures var b := rest % 128;
            && result + Scaled(b, place) < place * 128 && result + Scaled(b, place) <= x
            && (rest < 128 ==> result + Scaled(b, place) == x)
            && (rest >= 128 ==> Continues(x, result + Scaled(b, place), place * 128, rest / 128))
    ensures place <= x
  {
    hide Scaled;
    SplitGroup(rest % 128, rest / 128, place);
    GroupBound(rest % 128, place);
    AtLeastPlace(rest, place);
  }

  lemma SplitGroup(b: nat, c: nat, place: nat)
    ensures Scaled(b + 128 * c, place) == Scaled(b, place) + Scaled(c, place * 128)
  {
  }

  lemma GroupBound(b: nat, place: nat)
    requires b < 128
    ensures Scaled(b, place) + place <= place * 128
  {
    assert place * b + place * (127 - b) == place * 127;
  }

  lemma AtLeastPlace(rest: nat, place: nat)
    requires rest > 0
    ensures Scaled(rest, place) >= place
  {
    assert place * rest == place * (rest - 1) + place;
  }

  lemma TopGroup(x: nat, result: nat, place: nat, rest: nat)
    requires Continues(x, result, place, rest) && x < TWO32
    ensures place == 0x1000_0000 ==> rest < 16
  {
  }

  lemma FirstGroup(x: nat)
    requires x >= 128
    ensures Continues(x, x % 128, 128, x / 128)
  {
  }

  /** `x` is encoded at `p`, before `limit`. */
  ghost predicate HasVarint(s: Bytes, p: nat, limit: nat, x: nat) {
    At(s, p, Varint(x)) && p + |Varint(x)| <= limit
  }

  /** pb_decode_varint32: more than 32 bits are an error, unless they extend the sign. */
  method DecodeVarint32(s: Bytes, start: nat, limit: nat, ghost x: nat) returns (r: Read<nat>)
    requires limit <= |s|
    ensures r.Some? ==> start < r.value.1 <= limit && r.value.0 < TWO32
    ensures x < TWO32 && HasVarint(s, start, limit, x) ==> r == Some((x, start + |Varint(x)|))
  {
    hide At, Varint, FromByte, Scaled, Continues;
    ghost var ok := x < TWO32 && HasVarint(s, start, limit, x);
    if start >= limit {
      return None;
    }
    if ok {
      GroupAt(s, start, x);
    }
    var byte := FromByte(s[start]);
    if byte < 128 {
      return Some((byte, start + 1));
    }
    if ok {
      FirstGroup(x);
    }
    r := DecodeMoreBytes(s, start + 1, limit, byte % 128, x, x / 128, ok);
  }

  /** The multibyte case. */
  method DecodeMoreBytes(s: Bytes, start: nat, limit: nat, low: nat, ghost x: nat, ghost more: nat,
                         ghost ok: bool) returns (r: Read<nat>)
    requires start <= limit <= |s| && low < 128
    requires ok ==> x < TWO32 && Continues(x, low, 128, more) && HasVarint(s, start, limit, more)
    ensures r.Some? ==> start < r.value.1 <= limit && r.value.0 < TWO32
    ensures ok ==> r == Some((x, start + |Varint(more)|))
  {
    hide At, Varint, FromByte, Scaled, Continues;
    var p, byte := start, 0;
    var bitpos: nat, place: nat, result: nat := 7, 128, low;
    ghost var rest: nat := more;
    while true
      invariant start <= p <= limit && result < TWO32 && bitpos >= 7 && place > 0
      invariant ok ==> Continues(x, result, place, rest) && HasVarint(s, p, limit, rest)
                       && p + |Varint(rest)| == start + |Varint(more)| && IsPlace(bitpos, place)
      decreases limit - p
    {
      if ok {
        SomeLeft(s, p, limit, rest);
      }
      if p >= limit {
        return None;
      }
      if ok {
        GroupAt(s, p, rest);
        PlaceGrows(x, result, place, rest);
        TopGroup(x, result, place, rest);
      }
      byte := FromByte(s[p]);
      p := p + 1;
      if bitpos >= 32 {
        var signExtension := if bitpos < 63 then 0xff else 1;
        if byte % 128 != 0 && (result < 0x8000_0000 || byte != signExtension) {
          return None;
        }
      } else {
        result := (result + Scaled(byte % 128, place)) % TWO32;
      }
      bitpos := bitpos + 7;
      place := place * 128;
      if byte < 128 {
        break;
      }
      if ok {
        PlaceGrows(x, result, place, rest / 128);
      }
      rest := rest / 128;
    }
    if bitpos == 35 && byte / 16 % 8 != 0 {
      return None;
    }
    r := Some((result, p));
  }

  lemma SomeLeft(s: Bytes, p: nat, limit: nat, x: nat)
    requires HasVarint(s, p, limit, x)
    ensures p < limit
  {
    hide Varint;
  }

  /** The places of the groups that a 32-bit number has. */
  ghost predicate IsPlace(bitpos: nat, place: nat) {
    (bitpos == 7 && place == 0x80) || (bitpos == 14 && place == 0x4000) || (bitpos == 21 && place == 0x20_0000)
    || (bitpos == 28 && place == 0x1000_0000)
  }

  /** The bytes of a varint, one by one. */
  lemma GroupAt(s: Bytes, p: nat, x: nat)
    requires At(s, p, Varint(x))
    ensures p < |s|
    ensures x < 128 ==> FromByte(s[p]) == x && |Varint(x)| == 1
    ensures x >= 128 ==>
            FromByte(s[p]) == x % 128 + 128 && At(s, p + 1, Varint(x / 128)) && |Varint(x)| == 1 + |Varint(x / 128)|
  {
    hide ToByte, FromByte;
    if x < 128 {
      ByteRoundTrip(x);
      assert s[p..p + 1][0] == ToByte(x);
    } else {
      AtBoth(s, p, [ToByte(x % 128 + 128)], Varint(x / 128));
      ByteRoundTrip(x % 128 + 128);
      assert s[p..p + 1][0] == ToByte(x % 128 + 128);
    }
  }

  /** pb_decode_varint, whose loop takes at most ten bytes. */
  method DecodeVarint(s: Bytes, p: nat, limit: nat, ghost x: nat) returns (r: Read<nat>)
    requires limit <= |s|
    ensures r.Some? ==> p < r.value.1 <= limit && r.value.0 < TWO64
    ensures x < TWO64 && HasVarint(s, p, limit, x) ==> r == Some((x, p + |Varint(x)|))
  {
    hide Varint, At;
    if x < TWO64 && HasVarint(s, p, limit, x) {
      Varint64RoundTrip(s, p, limit, x);
    }
    var v := GetVarint(s, p, limit, 10, TWO64);
    r := if v.Parsed? then Some((v.value, v.next)) else None;
  }

  /** The number that the low bits of `x` stand for in two's complement. */
  function ToSigned(x: nat, range: nat): int
    requires range > 0
  {
    if x % range < range / 2 then x % range else x % range - range
  }

  /** Cast to the field's size; a number that does not survive is too large. */
  function Clamped(n: int, size: nat): (r: Option<Value>) {
    if FitsSigned(n, size) then Some(Number(n)) else None
  }

  /** pb_dec_varint: fields of up to 32 bits take the low 32 bits, to get the sign right. */
  method DecodeSigned(s: Bytes, p: nat, limit: nat, size: nat, ghost n: int) returns (r: Read<Value>)
    requires limit <= |s| && IsSize(size)
    ensures r.Some? ==> p < r.value.1 <= limit
    ensures FitsSigned(n, size) && HasVarint(s, p, limit, n % TWO64) ==> r == Some((Number(n), p + |Varint(n % TWO64)|))
  {
    hide Varint, At;
    var x := DecodeVarint(s, p, limit, n % TWO64);
    if x.None? {
      return None;
    }
    var svalue := if size == 8 then ToSigned(x.value.0, TWO64) else ToSigned(x.value.0, TWO32);
    SignedRoundTrip(n, size);
    var v := Clamped(svalue, size);
    r := if v.Some? then Some((v.value, x.value.1)) else None;
  }

  lemma SignedRoundTrip(n: int, size: nat)
    requires IsSize(size)
    ensures FitsSigned(n, size) ==> n == if size == 8 then ToSigned(n % TWO64, TWO64) else ToSigned(n % TWO64, TWO32)
  {
    if -0x8000_0000 <= n < 0 {
      WrapsAround(n);
    }
  }

  lemma WrapsAround(n: int)
    requires -0x8000_0000 <= n < 0
    ensures n % TWO64 == n + TWO64 && (n + TWO64) % TWO32 == n + TWO32
  {
    assert n + TWO64 == (n + TWO32) + TWO32 * 0xffff_ffff;
  }

  /** pb_dec_uvarint. */
  method DecodeUnsigned(s: Bytes, p: nat, limit: nat, size: nat, ghost n: int) returns (r: Read<Value>)
    requires limit <= |s| && IsSize(size)
    ensures r.Some? ==> p < r.value.1 <= limit
    ensures 0 <= n < Range(size) && HasVarint(s, p, limit, n % TWO64) ==>
            r == Some((Number(n), p + |Varint(n % TWO64)|))
  {
    hide Varint, At;
    var x := DecodeVarint(s, p, limit, n % TWO64);
    if x.None? || x.value.0 >= Range(size) {
      return None;
    }
    r := Some((Number(x.value.0), x.value.1));
  }

  /** pb_decode_svarint and pb_dec_svarint. */
  method DecodeZigZag(s: Bytes, p: nat, limit: nat, size: nat, ghost n: int) returns (r: Read<Value>)
    requires limit <= |s| && IsSize(size)
    ensures r.Some? ==> p < r.value.1 <= limit
    ensures FitsSigned(n, size) && HasVarint(s, p, limit, ZigZag(n)) ==> r == Some((Number(n), p + |Varint(ZigZag(n))|))
  {
    hide Varint, At;
    ZigZagFits(n, size);
    var x := DecodeVarint(s, p, limit, ZigZag(n));
    if x.None? {
      return None;
    }
    var half: int := x.value.0 / 2;
    var value := if x.value.0 % 2 == 1 then -half - 1 else half;
    var v := Clamped(value, size);
    r := if v.Some? then Some((v.value, x.value.1)) else None;
  }

  lemma ZigZagFits(n: int, size: nat)
    requires IsSize(size)
    ensures FitsSigned(n, size) ==> ZigZag(n) < TWO64
  {
  }

  // ----- buffers

  /** A length and as many bytes, all before `limit`. */
  ghost predicate HasString(s: Bytes, p: nat, limit: nat, b: Bytes) {
    At(s, p, LengthPrefixed(b)) && p + |LengthPrefixed(b)| <= limit && |b| < TWO32
  }

  lemma StringParts(s: Bytes, p: nat, limit: nat, b: Bytes)
    requires HasString(s, p, limit, b)
    ensures HasVarint(s, p, limit, |b|) && At(s, p + |Varint(|b|)|, b) && |LengthPrefixed(b)| == |Varint(|b|)| + |b|
    ensures s[p + |Varint(|b|)|..p + |Varint(|b|)| + |b|] == b
  {
    hide Varint;
    AtBoth(s, p, Varint(|b|), b);
  }

  /** A length, and the bytes it announces. */
  method ReadString(s: Bytes, p: nat, limit: nat, ghost b: Bytes) returns (r: Read<Bytes>)
    requires limit <= |s|
    ensures r.Some? ==> p < r.value.1 <= limit
    ensures HasString(s, p, limit, b) ==> r == Some((b, p + |LengthPrefixed(b)|))
  {
    hide Varint, At, LengthPrefixed;
    if HasString(s, p, limit, b) {
      StringParts(s, p, limit, b);
    }
    var size := DecodeVarint32(s, p, limit, |b|);
    if size.None? || limit - size.value.1 < size.value.0 {
      return None;
    }
    r := Some((s[size.value.1..size.value.1 + size.value.0], size.value.1 + size.value.0));
  }

  /**
   pb_dec_bytes, pb_dec_string and pb_dec_fixed_length_bytes, which differ in the lengths they take.
   A text needs room for its terminator: one that fills its buffer is encoded, but not decoded.
   */
  method DecodeData(l: LType, s: Bytes, p: nat, limit: nat, ghost b: Bytes) returns (r: Read<Value>)
    requires limit <= |s| && (l.Blob? || l.Text? || l.FixedBlob?)
    ensures r.Some? ==> p < r.value.1 <= limit
    ensures HasString(s, p, limit, b) && ValueFits(l, Data(b)) ==> r == Some((Data(b), p + |LengthPrefixed(b)|))
    ensures HasString(s, p, limit, b) && l.Text? ==> (r.Some? <==> |b| < l.capacity)
  {
    hide LengthPrefixed;
    var x := ReadString(s, p, limit, b);
    if x.None? {
      return None;
    }
    var data := x.value.0;
    match l {
      case Blob(max) =>
        if |data| > max {
          return None;
        }
      case Text(capacity) =>
        if |data| + 1 > capacity {
          return None;
        }
      case FixedBlob(length) =>
        if data == [] {
          data := seq(length, _ => 0);
          assert length == 0 ==> data == [];
        } else if |data| != length {
          return None;
        }
    }
    r := Some((Data(data), x.value.1));
  }
}
