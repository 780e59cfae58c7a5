/**
 The encoder of nanopb (pb_encode.c). A message is written in one pass over its fields; the length
 of a submessage, or of a packed array, is found first by a pass over it that only counts. The
 counting pass and the writing pass agree on every message, and what they write is `Encoding`.
 */
module PbEncode {
  import opened Crc32c
  import opened Coding
  import opened PbMessages

  /** An output stream; one without a callback only counts. */
  class OStream {
    const sizing: bool
    const maxSize: nat
    var bytesWritten: nat
    var out: Bytes

    ghost predicate Valid()
      reads this
    {
      !sizing ==> bytesWritten <= maxSize
    }

    constructor (sizing: bool, maxSize: nat)
      ensures this.sizing == sizing && this.maxSize == maxSize && bytesWritten == 0 && out == [] && Valid()
    {
      this.sizing, this.maxSize := sizing, maxSize;
      bytesWritten, out := 0, [];
    }

    /** pb_write. */
    method Write(buf: Bytes) returns (ok: bool)
      requires Valid()
      modifies this
      ensures Wrote(buf, ok, old(bytesWritten), old(out))
    {
      if |buf| > 0 && !sizing {
        if bytesWritten + |buf| > maxSize {
          return false;
        }
        out := out + buf;
      }
      bytesWritten := bytesWritten + |buf|;
      ok := true;
    }

    /** pb_write without a buffer, on a stream that only counts. */
    method Count(n: nat)
      requires sizing && Valid()
      modifies this
      ensures Valid() && bytesWritten == old(bytesWritten) + n && out == old(out)
    {
      bytesWritten := bytesWritten + n;
    }

    /** All of `buf` was written, or counted; that fails exactly if it does not fit. */
    ghost predicate Wrote(buf: Bytes, ok: bool, before: nat, was: Bytes)
      reads this
    {
      && Valid()
      && (ok <==> sizing || before + |buf| <= maxSize)
      && (ok ==> bytesWritten == before + |buf| && out == if sizing then was else was + buf)
    }
  }

  lemma WroteBoth(s: OStream, a: Bytes, b: Bytes, before: nat, was: Bytes)
    requires s.Wrote(b, true, before + |a|, if s.sizing then was else was + a)
    requires (s.sizing || before + |a| <= s.maxSize)
    ensures s.Wrote(a + b, true, before, was)
  {
    assert was + a + b == was + (a + b);
  }

  lemma WroteOnlyFirst(s: OStream, a: Bytes, b: Bytes, before: nat, was: Bytes)
    requires s.Valid() && !s.sizing && before + |a| + |b| > s.maxSize
    ensures s.Wrote(a + b, false, before, was)
  {
  }

  /** pb_encode_varint: seven bits at a time with the top bit set, which is cleared again in the last byte. */
  method EncodeVarint(s: OStream, x: nat) returns (ok: bool)
    requires s.Valid()
    modifies s
    ensures s.Wrote(Varint(x), ok, old(s.bytesWritten), old(s.out))
  {
    hide ToByte;
    if x <= 0x7f {
      ok := s.Write([ToByte(x)]);
    } else {
      var buffer := MarkedGroups(x);
      ok := s.Write(Unmarked(buffer));
    }
  }

  method MarkedGroups(x: nat) returns (buffer: seq<nat>)
    requires x > 0
    ensures buffer != [] && Unmarked(buffer) == Varint(x)
  {
    hide ToByte;
    buffer := [];
    var value := x;
    NothingAround(Varint(x));
    while value != 0
      invariant value != 0 ==> Marked(buffer) + Varint(value) == Varint(x)
      invariant value == 0 ==> buffer != [] && Unmarked(buffer) == Varint(x)
    {
      MarkOneMore(buffer, value);
      buffer := buffer + [value % 128 + 128];
      value := value / 128;
    }
  }

  function Marked(buffer: seq<nat>): Bytes {
    seq(|buffer|, i requires 0 <= i < |buffer| => ToByte(buffer[i]))
  }

  /** With the top bit of the last byte cleared. */
  function Unmarked(buffer: seq<nat>): Bytes
    requires buffer != []
  {
    Marked(buffer[..|buffer| - 1]) + [ToByte(buffer[|buffer| - 1] % 128)]
  }

  lemma MarkOneMore(buffer: seq<nat>, value: nat)
    requires value != 0
    ensures var next := buffer + [value % 128 + 128];
            if value >= 128 then Marked(next) + Varint(value / 128) == Marked(buffer) + Varint(value)
            else Unmarked(next) == Marked(buffer) + Varint(value)
  {
    hide ToByte;
    var next := buffer + [value % 128 + 128];
    assert Marked(next) == Marked(buffer) + [ToByte(value % 128 + 128)];
    assert next[..|buffer|] == buffer;
    if value >= 128 {
      Reassociate(Marked(buffer), [ToByte(value % 128 + 128)], Varint(value / 128));
    }
  }

  /** pb_encode_tag. */
  method EncodeTag(s: OStream, f: Field, wireType: nat) returns (ok: bool)
    requires s.Valid()
    modifies s
    ensures s.Wrote(TagBytes(f, wireType), ok, old(s.bytesWritten), old(s.out))
  {
    ok := EncodeVarint(s, 8 * f.tag + wireType);
  }

  /** pb_encode_string. */
  method EncodeString(s: OStream, b: Bytes) returns (ok: bool)
    requires s.Valid()
    modifies s
    ensures s.Wrote(LengthPrefixed(b), ok, old(s.bytesWritten), old(s.out))
  {
    hide Varint;
    ok := EncodeVarint(s, |b|);
    if !ok {
      WroteOnlyFirst(s, Varint(|b|), b, old(s.bytesWritten), old(s.out));
      return;
    }
    ok := s.Write(b);
    if ok {
      WroteBoth(s, Varint(|b|), b, old(s.bytesWritten), old(s.out));
    }
  }

  /** PB_ENCODERS: one value of a field. */
  method EncodeValue(s: OStream, l: LType, v: Value) returns (ok: bool)
    requires s.Valid() && LTypeOk(l) && ValueFits(l, v)
    modifies s
    ensures s.Wrote(EncValue(l, v), ok, old(s.bytesWritten), old(s.out))
    decreases l, 0, 0
  {
    hide Varint, Fixed, LengthPrefixed, Encoding;
    match l
    case Submessage(d) =>
      ok := EncodeSubmessage(s, d, v.slots);
    case Fixed32 =>
      ok := s.Write(Fixed(v.n % TWO32, 4));
    case Fixed64 =>
      ok := s.Write(Fixed(v.n % TWO64, 8));
    case SVarInt(_) =>
      ok := EncodeVarint(s, ZigZag(v.n));
    case Blob(_) | Text(_) | FixedBlob(_) =>
      ok := EncodeString(s, v.bytes);
    case Bool | VarInt(_) | UVarInt(_) =>
      ok := EncodeVarint(s, v.n % TWO64);
  }

  /** pb_encode_submessage: count, write the length, and write for good. */
  method EncodeSubmessage(s: OStream, d: Desc, m: seq<Slot>) returns (ok: bool)
    requires s.Valid() && DescOk(d) && Fits(d, m)
    modifies s
    ensures s.Wrote(LengthPrefixed(Encoding(d, m)), ok, old(s.bytesWritten), old(s.out))
    decreases d, 5, 0
  {
    hide Varint, DescOk, Encoding;
    var counter := new OStream(true, 0);
    ok := Encode(counter, d, m);
    var size := counter.bytesWritten;
    ghost var body := Encoding(d, m);
    ok := EncodeVarint(s, size);
    if !ok {
      WroteOnlyFirst(s, Varint(size), body, old(s.bytesWritten), old(s.out));
      return;
    }
    if s.sizing {
      s.Count(size);
      return true;
    }
    if s.bytesWritten + size > s.maxSize {
      return false;
    }
    var sub := new OStream(false, size);
    ok := Encode(sub, d, m);
    s.bytesWritten := s.bytesWritten + sub.bytesWritten;
    s.out := s.out + sub.out;
    assert [] + body == body;
    if sub.bytesWritten != size {
      return false;
    }
    WroteBoth(s, Varint(size), body, old(s.bytesWritten), old(s.out));
  }

  /** One more piece: if it fits all is well so far, and if not the whole does not fit. */
  lemma AfterPiece(s: OStream, done: Bytes, piece: Bytes, rest: Bytes, ok: bool, before: nat, was: Bytes)
    requires s.sizing || before + |done| <= s.maxSize
    requires s.Wrote(piece, ok, before + |done|, if s.sizing then was else was + done)
    ensures ok ==> s.Wrote(done + piece, true, before, was)
    ensures !ok ==> s.Wrote(done + (piece + rest), false, before, was)
  {
    Reassociate(was, done, piece);
  }

  lemma NothingWritten(s: OStream, rest: Bytes)
    requires s.Valid()
    ensures s.Wrote([], true, s.bytesWritten, s.out) && [] + rest == rest
  {
    NothingAround(s.out);
    NothingAround(rest);
  }

  /** pb_encode: every field in turn. */
  method Encode(s: OStream, d: Desc, m: seq<Slot>) returns (ok: bool)
    requires s.Valid() && DescOk(d) && Fits(d, m)
    modifies s
    ensures s.Wrote(Encoding(d, m), ok, old(s.bytesWritten), old(s.out))
    decreases d, 4, 0
  {
    hide TokensFrom, BytesOf, DescOk, Fits, FieldOk, SlotFits, OStream.Wrote;
    SlotCount(d, m);
    var i := 0;
    ghost var done: Bytes := [];
    NothingWritten(s, Encoding(d, m));
    while i < |d.fields|
      invariant i <= |d.fields| && s.Wrote(done, true, old(s.bytesWritten), old(s.out))
      invariant Encoding(d, m) == done + BytesOf(d, TokensFrom(d, m, i))
    {
      FieldFits(d, m, i);
      FieldThenRest(d, m, i);
      WroteSoFar(s, done, old(s.bytesWritten), old(s.out));
      ghost var piece, rest := BytesOf(d, FieldTokens(d.fields[i], i, m[i])), BytesOf(d, TokensFrom(d, m, i + 1));
      ok := EncodeField(s, d, i, m[i]);
      AfterPiece(s, done, piece, rest, ok, old(s.bytesWritten), old(s.out));
      if !ok {
        return;
      }
      Reassociate(done, piece, rest);
      done := done + piece;
      i := i + 1;
    }
    NothingLeft(d, m);
    NothingAround(done);
    ok := true;
  }

  lemma WroteSoFar(s: OStream, done: Bytes, before: nat, was: Bytes)
    requires s.Wrote(done, true, before, was)
    ensures s.Valid() && s.bytesWritten == before + |done| && s.out == (if s.sizing then was else was + done)
    ensures s.sizing || before + |done| <= s.maxSize
  {
  }

  lemma SlotCount(d: Desc, m: seq<Slot>)
    requires Fits(d, m)
    ensures |m| == |d.fields|
  {
  }

  lemma NothingLeft(d: Desc, m: seq<Slot>)
    requires |m| == |d.fields|
    ensures BytesOf(d, TokensFrom(d, m, |d.fields|)) == []
  {
  }

  lemma FieldFits(d: Desc, m: seq<Slot>, i: nat)
    requires DescOk(d) && Fits(d, m) && i < |m|
    ensures |m| == |d.fields| && FieldOk(d.fields[i]) && SlotFits(d.fields[i], m[i])
  {
  }

  /** encode_basic_field. */
  method EncodeField(s: OStream, d: Desc, i: nat, slot: Slot) returns (ok: bool)
    requires s.Valid() && i < |d.fields| && FieldOk(d.fields[i]) && SlotFits(d.fields[i], slot)
    modifies s
    ensures Indexed(d, FieldTokens(d.fields[i], i, slot))
    ensures s.Wrote(BytesOf(d, FieldTokens(d.fields[i], i, slot)), ok, old(s.bytesWritten), old(s.out))
    decreases d, 3, 0
  {
    hide BytesOf, OStream.Wrote, IsDefault, LTypeOk, ValueFits;
    var f := d.fields[i];
    match slot
    case Many(items) =>
      ok := EncodeArray(s, d, i, items);
    case One(has, v) =>
      var present := match f.htype
        case Required => true
        case Optional(explicit) => if explicit then has else !IsDefault(f, slot)
        case _ => has;
      if present {
        OneToken(d, Single(i, v));
        ok := EncodeSingle(s, d, i, v);
      } else {
        NothingWritten(s, []);
        NoTokens(d);
        ok := true;
      }
  }

  lemma NoTokens(d: Desc)
    ensures BytesOf(d, []) == []
  {
  }

  /** A tag and a value. */
  method EncodeSingle(s: OStream, d: Desc, i: nat, v: Value) returns (ok: bool)
    requires s.Valid() && i < |d.fields| && LTypeOk(d.fields[i].ltype) && ValueFits(d.fields[i].ltype, v)
    modifies s
    ensures s.Wrote(TokenBytes(d, Single(i, v)), ok, old(s.bytesWritten), old(s.out))
    decreases d, 1, 0
  {
    hide OStream.Wrote, LTypeOk, ValueFits, EncValue, TagBytes;
    var f := d.fields[i];
    NothingWritten(s, []);
    ghost var tag, body := TagBytes(f, f.ltype.WireType()), EncValue(f.ltype, v);
    WroteSoFar(s, [], old(s.bytesWritten), old(s.out));
    ok := EncodeTag(s, f, f.ltype.WireType());
    AfterPiece(s, [], tag, body, ok, old(s.bytesWritten), old(s.out));
    NothingAround(tag);
    NothingAround(tag + body);
    if !ok {
      return;
    }
    WroteSoFar(s, tag, old(s.bytesWritten), old(s.out));
    ok := EncodeValue(s, f.ltype, v);
    AfterPiece(s, tag, body, [], ok, old(s.bytesWritten), old(s.out));
    NothingAround(body);
  }

  /** encode_array: packed where the type allows it. */
  method EncodeArray(s: OStream, d: Desc, i: nat, items: seq<Value>) returns (ok: bool)
    requires s.Valid() && i < |d.fields| && FieldOk(d.fields[i]) && SlotFits(d.fields[i], Many(items))
    modifies s
    ensures s.Wrote(BytesOf(d, FieldTokens(d.fields[i], i, Many(items))), ok, old(s.bytesWritten), old(s.out))
    decreases d, 2, 0
  {
    hide BytesOf, OStream.Wrote, LTypeOk, ValueFits, EncItems;
    var f := d.fields[i];
    if items == [] {
      NothingWritten(s, []);
      NoTokens(d);
      return true;
    }
    if f.ltype.Packable() {
      OneToken(d, Packed(i, items));
      ok := EncodePacked(s, d, i, items);
    } else {
      ok := EncodeUnpacked(s, d, i, items);
    }
  }

  ghost predicate ItemsFit(l: LType, items: seq<Value>) {
    forall k {:trigger items[k]} :: 0 <= k < |items| ==> ValueFits(l, items[k])
  }

  method EncodePacked(s: OStream, d: Desc, i: nat, items: seq<Value>) returns (ok: bool)
    requires s.Valid() && i < |d.fields| && LTypeOk(d.fields[i].ltype) && ItemsFit(d.fields[i].ltype, items)
    requires d.fields[i].ltype.Packable()
    modifies s
    ensures s.Wrote(TokenBytes(d, Packed(i, items)), ok, old(s.bytesWritten), old(s.out))
    decreases d, 1, 0
  {
    hide OStream.Wrote, LTypeOk, ItemsFit, EncItems, TagBytes, Varint;
    var f := d.fields[i];
    ghost var tag, body := TagBytes(f, WT_STRING), EncItems(f.ltype, items);
    ghost var length := Varint(|body|);
    ghost var before, was := s.bytesWritten, s.out;
    Reassociate(tag, length, body);
    NothingWritten(s, []);
    WroteSoFar(s, [], before, was);
    ok := EncodeTag(s, f, WT_STRING);
    AfterPiece(s, [], tag, length + body, ok, before, was);
    NothingAround(tag);
    NothingAround(tag + (length + body));
    if !ok {
      return;
    }
    var size := PackedSize(f.ltype, items);
    WroteSoFar(s, tag, before, was);
    ok := EncodeVarint(s, size);
    AfterPiece(s, tag, length, body, ok, before, was);
    if !ok {
      return;
    }
    WroteSoFar(s, tag + length, before, was);
    if s.sizing {
      s.Count(size);
      CountedAll(s, tag + length, body, before, was);
      return true;
    }
    ok := EncodeItems(s, f.ltype, items);
    AfterPiece(s, tag + length, body, [], ok, before, was);
    NothingAround(body);
  }

  lemma CountedAll(s: OStream, done: Bytes, piece: Bytes, before: nat, was: Bytes)
    requires s.sizing && s.bytesWritten == before + |done| + |piece| && s.out == was
    ensures s.Wrote(done + piece, true, before, was)
  {
  }

  /** The total size of a packed array; only numbers of variable length need a counting pass. */
  method PackedSize(l: LType, items: seq<Value>) returns (size: nat)
    requires LTypeOk(l) && ItemsFit(l, items) && l.Packable()
    ensures size == |EncItems(l, items)|
    decreases l, 2, 0
  {
    hide OStream.Wrote, EncItems;
    if l.Fixed32? {
      FixedItems(l, items, 4);
      size := 4 * |items|;
    } else if l.Fixed64? {
      FixedItems(l, items, 8);
      size := 8 * |items|;
    } else {
      var counter := new OStream(true, 0);
      ghost var was := counter.out;
      var ok := EncodeItems(counter, l, items);
      AllCounted(counter, EncItems(l, items), ok, was);
      size := counter.bytesWritten;
    }
  }

  lemma AllCounted(s: OStream, b: Bytes, ok: bool, was: Bytes)
    requires s.Wrote(b, ok, 0, was) && s.sizing
    ensures s.bytesWritten == |b|
  {
  }

  lemma {:induction false} FixedItems(l: LType, items: seq<Value>, n: nat)
    requires ItemsFit(l, items) && ((l.Fixed32? && n == 4) || (l.Fixed64? && n == 8))
    ensures |EncItems(l, items)| == n * |items|
    decreases |items|
  {
    hide Fixed;
    if items != [] {
      var v := items[0];
      assert ValueFits(l, v);
      FixedItems(l, items[1..], n);
    }
  }

  method EncodeItems(s: OStream, l: LType, items: seq<Value>) returns (ok: bool)
    requires s.Valid() && LTypeOk(l) && ItemsFit(l, items)
    modifies s
    ensures s.Wrote(EncItems(l, items), ok, old(s.bytesWritten), old(s.out))
    decreases l, 1, 0
  {
    hide OStream.Wrote, LTypeOk, ValueFits, EncValue, EncItems;
    ghost var done: Bytes := [];
    var j := 0;
    NothingWritten(s, EncItems(l, items));
    assert items[0..] == items;
    while j < |items|
      invariant j <= |items| && s.Wrote(done, true, old(s.bytesWritten), old(s.out))
      invariant EncItems(l, items) == done + EncItems(l, items[j..])
    {
      FirstItem(l, items, j);
      WroteSoFar(s, done, old(s.bytesWritten), old(s.out));
      ghost var piece, rest := EncValue(l, items[j]), EncItems(l, items[j + 1..]);
      ok := EncodeValue(s, l, items[j]);
      AfterPiece(s, done, piece, rest, ok, old(s.bytesWritten), old(s.out));
      if !ok {
        return;
      }
      Reassociate(done, piece, rest);
      done := done + piece;
      j := j + 1;
    }
    NoItems(l, items);
    NothingAround(done);
    ok := true;
  }

  lemma FirstItem(l: LType, items: seq<Value>, j: nat)
    requires j < |items| && ItemsFit(l, items)
    ensures EncItems(l, items[j..]) == EncValue(l, items[j]) + EncItems(l, items[j + 1..]) && ValueFits(l, items[j])
  {
    hide EncValue;
    assert items[j..][1..] == items[j + 1..];
  }

  lemma NoItems(l: LType, items: seq<Value>)
    ensures EncItems(l, items[|items|..]) == []
  {
  }

  method EncodeUnpacked(s: OStream, d: Desc, i: nat, items: seq<Value>) returns (ok: bool)
    requires s.Valid() && i < |d.fields| && LTypeOk(d.fields[i].ltype) && ItemsFit(d.fields[i].ltype, items)
    requires !d.fields[i].ltype.Packable() && items != []
    modifies s
    ensures s.Wrote(BytesOf(d, FieldTokens(d.fields[i], i, Many(items))), ok, old(s.bytesWritten), old(s.out))
    decreases d, 1, 1
  {
    hide OStream.Wrote, LTypeOk, ItemsFit, BytesOf, TokenBytes, FieldTokens;
    ghost var ts := FieldTokens(d.fields[i], i, Many(items));
    ghost var done: Bytes := [];
    var j := 0;
    UnpackedTokens(d, i, items);
    NothingWritten(s, BytesOf(d, ts));
    assert ts[0..] == ts;
    while j < |items|
      invariant j <= |items| == |ts| && Indexed(d, ts) && s.Wrote(done, true, old(s.bytesWritten), old(s.out))
      invariant BytesOf(d, ts) == done + BytesOf(d, ts[j..])
    {
      FirstToken(d, ts, j);
      ItemFits(d.fields[i].ltype, items, j);
      WroteSoFar(s, done, old(s.bytesWritten), old(s.out));
      ghost var piece, rest := TokenBytes(d, ts[j]), BytesOf(d, ts[j + 1..]);
      ok := EncodeSingle(s, d, i, items[j]);
      AfterPiece(s, done, piece, rest, ok, old(s.bytesWritten), old(s.out));
      if !ok {
        return;
      }
      Reassociate(done, piece, rest);
      done := done + piece;
      j := j + 1;
    }
    assert ts[|items|..] == [];
    NoTokens(d);
    NothingAround(done);
    ok := true;
  }

  lemma UnpackedTokens(d: Desc, i: nat, items: seq<Value>)
    requires i < |d.fields| && !d.fields[i].ltype.Packable() && items != []
    ensures var ts := FieldTokens(d.fields[i], i, Many(items));
            && |ts| == |items| && Indexed(d, ts) && forall j :: 0 <= j < |items| ==> ts[j] == Single(i, items[j])
  {
  }

  lemma FirstToken(d: Desc, ts: seq<Token>, j: nat)
    requires j < |ts| && Indexed(d, ts)
    ensures Indexed(d, ts[j..]) && Indexed(d, ts[j + 1..])
    ensures BytesOf(d, ts[j..]) == TokenBytes(d, ts[j]) + BytesOf(d, ts[j + 1..])
  {
    hide TokenBytes;
    assert ts[j..][1..] == ts[j + 1..];
  }

  lemma ItemFits(l: LType, items: seq<Value>, j: nat)
    requires ItemsFit(l, items) && j < |items|
    ensures ValueFits(l, items[j])
  {
  }

  /** pb_get_encoded_size counts exactly what pb_encode writes into a buffer that is large enough. */
  method EncodeToBuffer(d: Desc, m: seq<Slot>, bufsize: nat) returns (size: nat, ok: bool, out: Bytes)
    requires DescOk(d) && Fits(d, m)
    ensures size == |Encoding(d, m)|
    ensures ok <==> size <= bufsize
    ensures ok ==> out == Encoding(d, m)
  {
    hide DescOk, Fits, Encoding;
    SlotCount(d, m);
    var counter := new OStream(true, 0);
    var counted := Encode(counter, d, m);
    size := counter.bytesWritten;
    var s := new OStream(false, bufsize);
    ok := Encode(s, d, m);
    out := s.out;
    NothingAround(Encoding(d, m));
  }
}
