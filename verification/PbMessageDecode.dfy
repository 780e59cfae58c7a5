/**
 Decoding whole messages with nanopb (pb_decode.c, pb_common.c): the field iterator, one field,
 pb_decode_noinit with its bit set of required fields, and the round trip.
 */
module PbMessageDecode {
  import opened Optional
  import opened Crc32c
  import opened Coding
  import opened PbMessages
  import opened PbNormalForm
  import opened PbDecode
  import PbEncode

  // ----- the field iterator

  /** How many of the first `n` fields are required. */
  function RequiredBefore(d: Desc, n: nat): (r: nat)
    requires n <= |d.fields|
    ensures r <= n
  {
    if n == 0 then 0 else RequiredBefore(d, n - 1) + if d.fields[n - 1].htype.Required? then 1 else 0
  }

  class FieldIter {
    const d: Desc
    var pos: nat
    var requiredFieldIndex: nat

    ghost predicate Valid()
      reads this
    {
      if d.fields == [] then pos == 0 && requiredFieldIndex == 0
      else pos < |d.fields| && requiredFieldIndex == RequiredBefore(d, pos)
    }

    constructor (d: Desc)
      ensures this.d == d && Valid() && pos == 0
    {
      this.d := d;
      pos, requiredFieldIndex := 0, 0;
    }

    /** pb_field_iter_next: false when it wraps around to the first field. */
    method Next() returns (more: bool)
      requires Valid()
      modifies this
      ensures Valid() && (more <==> old(pos) + 1 < |d.fields|)
      ensures pos == if old(pos) + 1 < |d.fields| then old(pos) + 1 else 0
    {
      if d.fields == [] {
        return false;
      }
      var prev := d.fields[pos];
      if pos + 1 == |d.fields| {
        pos, requiredFieldIndex := 0, 0;
        return false;
      }
      pos := pos + 1;
      if prev.htype.Required? {
        requiredFieldIndex := requiredFieldIndex + 1;
      }
      more := true;
    }

    /** pb_field_iter_find: from the current field on, around to it again. */
    method Find(tag: nat) returns (found: bool)
      requires Valid()
      modifies this
      ensures Valid() && (found ==> pos < |d.fields| && d.fields[pos].tag == tag)
      ensures !found ==> forall i :: 0 <= i < |d.fields| ==> d.fields[i].tag != tag
    {
      if d.fields == [] {
        return false;
      }
      var start := pos;
      ghost var steps := 0;
      while true
        invariant Valid() && steps < |d.fields|
        invariant pos == (if start + steps < |d.fields| then start + steps else start + steps - |d.fields|)
        invariant forall i :: 0 <= i < |d.fields| && Passed(start, steps, i, |d.fields|) ==> d.fields[i].tag != tag
        decreases |d.fields| - steps
      {
        if d.fields[pos].tag == tag {
          return true;
        }
        var more := Next();
        steps := steps + 1;
        if pos == start {
          return false;
        }
      }
    }

    /** The number of required fields of the message, found by going on to its end. */
    method CountRequired() returns (count: nat)
      requires Valid()
      modifies this
      ensures count == RequiredBefore(d, |d.fields|)
    {
      if d.fields == [] {
        return 0;
      }
      var last := d.fields[pos];
      count := requiredFieldIndex;
      while true
        invariant Valid() && last == d.fields[pos] && count == RequiredBefore(d, pos)
        decreases |d.fields| - pos
      {
        ghost var before := pos;
        var more := Next();
        if !more {
          break;
        }
        last := d.fields[pos];
        count := requiredFieldIndex;
      }
      if last.htype.Required? {
        count := count + 1;
      }
    }
  }

  /** Field `i` is one of those passed in `steps` steps from `start`. */
  predicate Passed(start: nat, steps: nat, i: nat, n: nat) {
    start <= i < start + steps || start <= i + n < start + steps
  }

  // ----- the bit set of required fields

  const MAX_REQUIRED_FIELDS: nat := 64

  /** Whole words must be full; of the last word exactly the lowest bits must be set. */
  method AllSeen(seen: seq<bool>, count: nat) returns (ok: bool)
    requires |seen| == MAX_REQUIRED_FIELDS && count <= MAX_REQUIRED_FIELDS
    ensures ok <==> forall k :: 0 <= k < (count + 31) / 32 * 32 ==> seen[k] == (k < count)
  {
    var whole := count / 32 * 32;
    for k := 0 to whole
      invariant forall i :: 0 <= i < k ==> seen[i] == (i < count)
    {
      if !seen[k] {
        return false;
      }
    }
    if count % 32 != 0 {
      for k := whole to whole + 32
        invariant forall i :: 0 <= i < k ==> seen[i] == (i < count)
      {
        if seen[k] != (k < count) {
          return false;
        }
      }
    }
    ok := true;
  }

  // ----- positions in an encoded message

  /** A field after `j` of its tokens. */
  function SlotAfter(f: Field, slot: Slot, j: nat): Slot {
    match slot
    case Many(items) =>
      if f.ltype.Packable() then Many(if j == 0 then [] else NormalItems(f.ltype, items))
      else Many(NormalItems(f.ltype, if j <= |items| then items[..j] else items))
    case One(_, v) => if j == 0 then DefaultSlot(f) else One(true, NormalValue(f.ltype, v))
  }

  /** The message after all tokens of the first `n` fields and `j` tokens of the next. */
  function Partial(d: Desc, m: seq<Slot>, n: nat, j: nat): (r: seq<Slot>)
    requires |m| == |d.fields|
    ensures |r| == |m|
  {
    seq(|m|, i requires 0 <= i < |m| =>
      if i < n then Normal(d.fields[i], m[i])
      else if i == n then SlotAfter(d.fields[i], m[i], j)
      else DefaultSlot(d.fields[i]))
  }

  function TokensAt(d: Desc, m: seq<Slot>, n: nat): (ts: seq<Token>)
    requires n < |d.fields| == |m|
    ensures Indexed(d, ts)
  {
    FieldTokens(d.fields[n], n, m[n])
  }

  /** What is still to be read. */
  function Rest(d: Desc, m: seq<Slot>, n: nat, j: nat): Bytes
    requires n <= |d.fields| == |m| && (n < |m| ==> j <= |TokensAt(d, m, n)|)
  {
    if n == |m| then []
    else
      assert Indexed(d, TokensAt(d, m, n)[j..]);
      BytesOf(d, TokensAt(d, m, n)[j..]) + BytesOf(d, TokensFrom(d, m, n + 1))
  }

  ghost predicate IsPosition(d: Desc, m: seq<Slot>, n: nat, j: nat) {
    n <= |d.fields| == |m| && if n < |m| then j <= |TokensAt(d, m, n)| else j == 0
  }

  lemma StartPosition(d: Desc, m: seq<Slot>)
    requires |m| == |d.fields| && Fits(d, m)
    ensures IsPosition(d, m, 0, 0) && Rest(d, m, 0, 0) == Encoding(d, m) && Partial(d, m, 0, 0) == Defaults(d)
  {
    hide BytesOf, FieldTokens;
    if m != [] {
      assert TokensAt(d, m, 0)[0..] == TokensAt(d, m, 0);
      FieldThenRest(d, m, 0);
      NothingDone(d.fields[0], m[0]);
      SlotOf(d, m, 0);
      NothingDone(d.fields[0], m[0]);
    } else {
      assert TokensFrom(d, m, 0) == [];
      OneEmpty(d);
    }
    forall i | 0 <= i < |m|
      ensures Partial(d, m, 0, 0)[i] == Defaults(d)[i]
    {
    }
  }

  lemma OneEmpty(d: Desc)
    ensures BytesOf(d, []) == []
  {
  }

  lemma SlotOf(d: Desc, m: seq<Slot>, i: nat)
    requires Fits(d, m) && i < |m|
    ensures i < |d.fields| && SlotFits(d.fields[i], m[i])
  {
  }

  lemma NothingDone(f: Field, slot: Slot)
    ensures SlotFits(f, slot) ==> SlotAfter(f, slot, 0) == DefaultSlot(f)
  {
  }

  lemma AllDone(f: Field, i: nat, slot: Slot)
    requires SlotFits(f, slot)
    ensures SlotAfter(f, slot, |FieldTokens(f, i, slot)|) == Normal(f, slot)
  {
    hide ValueFits;
    match slot
    case Many(items) =>
      assert items[..|items|] == items;
    case One(_, _) =>
  }

  /** From the end of a field to the start of the next. */
  lemma NextField(d: Desc, m: seq<Slot>, n: nat)
    requires Fits(d, m) && n < |d.fields| == |m|
    ensures IsPosition(d, m, n + 1, 0) && IsPosition(d, m, n, |TokensAt(d, m, n)|)
    ensures Rest(d, m, n, |TokensAt(d, m, n)|) == Rest(d, m, n + 1, 0)
    ensures Partial(d, m, n, |TokensAt(d, m, n)|) == Partial(d, m, n + 1, 0)
  {
    hide BytesOf, FieldTokens, Fits, SlotFits, SlotAfter, DefaultSlot, Normal;
    var ts := TokensAt(d, m, n);
    assert ts[|ts|..] == [];
    OneEmpty(d);
    NothingAround(BytesOf(d, TokensFrom(d, m, n + 1)));
    SlotOf(d, m, n);
    AllDone(d.fields[n], n, m[n]);
    if n + 1 < |m| {
      assert TokensAt(d, m, n + 1)[0..] == TokensAt(d, m, n + 1);
      FieldThenRest(d, m, n + 1);
      SlotOf(d, m, n + 1);
      NothingDone(d.fields[n + 1], m[n + 1]);
    } else {
      NoTokensLeft(d, m);
    }
    forall i | 0 <= i < |m|
      ensures Partial(d, m, n, |ts|)[i] == Partial(d, m, n + 1, 0)[i]
    {
    }
  }

  lemma NoTokensLeft(d: Desc, m: seq<Slot>)
    requires |m| == |d.fields|
    ensures BytesOf(d, TokensFrom(d, m, |m|)) == []
  {
  }

  /** While bytes are left, go on to the next token. */
  lemma {:induction false} Settle(d: Desc, m: seq<Slot>, n: nat, j: nat) returns (n': nat, j': nat)
    requires Fits(d, m) && IsPosition(d, m, n, j)
    ensures IsPosition(d, m, n', j') && n <= n' && (n' == n ==> j' == j) && (n' > n ==> j' == 0)
    ensures Rest(d, m, n', j') == Rest(d, m, n, j) && Partial(d, m, n', j') == Partial(d, m, n, j)
    ensures n' < |m| ==> j' < |TokensAt(d, m, n')|
    ensures forall i :: n < i < n' ==> TokensAt(d, m, i) == []
    ensures n < n' ==> j == |TokensAt(d, m, n)|
    decreases |m| - n
  {
    hide BytesOf, FieldTokens, Fits, Partial, TokensFrom, Rest;
    if n < |m| && j == |TokensAt(d, m, n)| {
      NextField(d, m, n);
      n', j' := Settle(d, m, n + 1, 0);
    } else {
      n', j' := n, j;
    }
  }

  /** The next token, and what is behind it. */
  lemma TokenThenRest(d: Desc, m: seq<Slot>, n: nat, j: nat)
    requires n < |d.fields| == |m| && j < |TokensAt(d, m, n)|
    ensures IsPosition(d, m, n, j + 1) && TokensAt(d, m, n)[j].index == n
    ensures Rest(d, m, n, j) == TokenBytes(d, TokensAt(d, m, n)[j]) + Rest(d, m, n, j + 1)
  {
    hide TokenBytes, FieldTokens;
    var ts := TokensAt(d, m, n);
    assert ts[j..][0] == ts[j] && ts[j..][1..] == ts[j + 1..];
    Reassociate(TokenBytes(d, ts[j]), BytesOf(d, ts[j + 1..]), BytesOf(d, TokensFrom(d, m, n + 1)));
  }

  // ----- one value

  /** The value is encoded at `p`, before `limit`. */
  ghost predicate HasValue(l: LType, v: Value, s: Bytes, p: nat, limit: nat) {
    ValueFits(l, v) && At(s, p, EncValue(l, v)) && p + |EncValue(l, v)| <= limit
  }

  /** What a value is decoded into: submessages are merged into what is there. */
  function Fresh(l: LType): Value {
    if l.Submessage? then Message(Defaults(l.desc)) else Number(0)
  }

  /** PB_DECODERS: one value of a field. */
  method DecodeValue(l: LType, s: Bytes, p: nat, limit: nat, dest: Value, ghost v: Value) returns (r: Read<Value>)
    requires limit <= |s| && LTypeOk(l)
    ensures r.Some? ==> p < r.value.1 <= limit
    ensures HasValue(l, v, s, p, limit) && (l.Submessage? ==> dest == Fresh(l)) ==>
            r == Some((NormalValue(l, v), p + |EncValue(l, v)|))
    decreases l, 0, 0
  {
    hide Varint, At, LengthPrefixed, Fixed, GetFixed, Encoding, Defaults, NormalMessage;
    if HasValue(l, v, s, p, limit) {
      ValueParts(l, v);
    }
    ghost var n := if v.Number? then v.n else 0;
    ghost var b := if v.Data? then v.bytes else [];
    match l
    case Bool =>
      var x := DecodeVarint32(s, p, limit, n % TWO64);
      r := if x.Some? then Some((Number(if x.value.0 != 0 then 1 else 0), x.value.1)) else None;
    case VarInt(size) =>
      r := DecodeSigned(s, p, limit, size, n);
    case UVarInt(size) =>
      r := DecodeUnsigned(s, p, limit, size, n);
    case SVarInt(size) =>
      r := DecodeZigZag(s, p, limit, size, n);
    case Fixed32 =>
      r := DecodeFixed(s, p, limit, 4, n % TWO32);
    case Fixed64 =>
      r := DecodeFixed(s, p, limit, 8, n % TWO64);
    case Submessage(d) =>
      var slots := if dest.Message? && |dest.slots| == |d.fields| then dest.slots else Defaults(d);
      ghost var m := if v.Message? && |v.slots| == |d.fields| then v.slots else Defaults(d);
      r := DecodeSubmessage(d, s, p, limit, slots, m);
    case Blob(_) | Text(_) | FixedBlob(_) =>
      r := DecodeData(l, s, p, limit, b);
  }

  /** The encoding of a value, type by type. */
  lemma ValueParts(l: LType, v: Value)
    requires ValueFits(l, v) && LTypeOk(l)
    ensures l.Submessage? ==>
            v.Message? && |v.slots| == |l.desc.fields| && Fits(l.desc, v.slots) && |Encoding(l.desc, v.slots)| < TWO32
                              && EncValue(l, v) == LengthPrefixed(Encoding(l.desc, v.slots))
                              && NormalValue(l, v) == Message(NormalMessage(l.desc, v.slots))
    ensures !l.Submessage? ==> NormalValue(l, v) == v
    ensures l.Blob? || l.Text? || l.FixedBlob? ==>
            v.Data? && EncValue(l, v) == LengthPrefixed(v.bytes) && |v.bytes| < TWO32
    ensures l.Packable() ==> v.Number?
    ensures l.Fixed32? ==> 0 <= v.n < TWO32 && EncValue(l, v) == Fixed(v.n, 4) && |EncValue(l, v)| == 4
    ensures l.Fixed64? ==> 0 <= v.n < TWO64 && EncValue(l, v) == Fixed(v.n, 8) && |EncValue(l, v)| == 8
    ensures l.SVarInt? ==> EncValue(l, v) == Varint(ZigZag(v.n))
    ensures l.Bool? || l.VarInt? || l.UVarInt? ==> EncValue(l, v) == Varint(v.n % TWO64)
    ensures l.Bool? ==> v.n % TWO64 == v.n
  {
    hide Encoding, LengthPrefixed, Varint, Fixed;
    if l.Submessage? {
      PbEncode.SlotCount(l.desc, v.slots);
    }
  }

  method DecodeFixed(s: Bytes, p: nat, limit: nat, size: nat, ghost x: nat) returns (r: Read<Value>)
    requires limit <= |s| && (size == 4 || size == 8)
    ensures r.Some? ==> p < r.value.1 <= limit
    ensures x < Range(size) && At(s, p, Fixed(x, size)) && p + size <= limit ==> r == Some((Number(x), p + size))
  {
    hide At, Fixed, GetFixed, Power;
    Powers();
    if limit < p + size {
      return None;
    }
    if x < Range(size) && At(s, p, Fixed(x, size)) {
      FixedRoundTrip(s, p, x, size);
    }
    r := Some((Number(GetFixed(s, p, size)), p + size));
  }

  /** pb_dec_submessage: a substream as long as the length says. */
  method DecodeSubmessage(d: Desc, s: Bytes, p: nat, limit: nat, dest: seq<Slot>,
                          ghost m: seq<Slot>) returns (r: Read<Value>)
    requires limit <= |s| && DescOk(d) && |dest| == |d.fields| == |m|
    ensures r.Some? ==> p < r.value.1 <= limit
    ensures Fits(d, m) && HasString(s, p, limit, Encoding(d, m)) && dest == Defaults(d) ==>
              r == Some((Message(NormalMessage(d, m)), p + |LengthPrefixed(Encoding(d, m))|))
    decreases d, 9, 0
  {
    hide Varint, At, LengthPrefixed, Encoding, Defaults, NormalMessage, Fits, DescOk;
    if HasString(s, p, limit, Encoding(d, m)) {
      StringParts(s, p, limit, Encoding(d, m));
    }
    var size := DecodeVarint32(s, p, limit, |Encoding(d, m)|);
    if size.None? || limit - size.value.1 < size.value.0 {
      return None;
    }
    var end := size.value.1 + size.value.0;
    var x := DecodeNoInit(d, s, size.value.1, end, dest, m);
    r := if x.Some? then Some((Message(x.value.0), end)) else None;
  }

  // ----- one field

  /** Encoded items fill the stretch from `p` to `limit`. */
  ghost predicate HasItems(l: LType, items: seq<Value>, s: Bytes, p: nat, limit: nat) {
    PbEncode.ItemsFit(l, items) && At(s, p, EncItems(l, items)) && p + |EncItems(l, items)| == limit
  }

  lemma FirstItem(l: LType, items: seq<Value>, s: Bytes, p: nat, limit: nat, k: nat)
    requires k < |items| && HasItems(l, items[k..], s, p, limit)
    ensures HasValue(l, items[k], s, p, limit) && HasItems(l, items[k + 1..], s, p + |EncValue(l, items[k])|, limit)
  {
    hide EncValue, ValueFits, At;
    var rest := items[k..];
    assert rest[0] == items[k] && rest[1..] == items[k + 1..];
    AtBoth(s, p, EncValue(l, items[k]), EncItems(l, items[k + 1..]));
    var behind := items[k + 1..];
    forall i | 0 <= i < |behind|
      ensures ValueFits(l, behind[i])
    {
      assert behind[i] == rest[i + 1];
    }
  }

  lemma NoItemsLeft(l: LType, items: seq<Value>, s: Bytes, p: nat, limit: nat)
    requires HasItems(l, items, s, p, limit)
    ensures p <= limit && (p < limit ==> items != [])
  {
  }

  lemma {:induction false} ItemsTakeSpace(l: LType, items: seq<Value>)
    requires PbEncode.ItemsFit(l, items) && LTypeOk(l) && items != []
    ensures |EncItems(l, items)| > 0
  {
    assert ValueFits(l, items[0]);
    ValueTakesSpace(l, items[0]);
  }

  lemma ValueTakesSpace(l: LType, v: Value)
    requires ValueFits(l, v)
    ensures |EncValue(l, v)| > 0
  {
    hide Encoding;
    if l.Submessage? {
      PbEncode.SlotCount(l.desc, v.slots);
    }
  }

  /** A packed array: items as long as the substream lasts and the array has room. */
  method DecodePacked(l: LType, s: Bytes, p: nat, limit: nat, have: seq<Value>, max: nat, ghost items: seq<Value>)
    returns (r: Read<seq<Value>>)
    requires limit <= |s| && LTypeOk(l)
    ensures r.Some? ==> p < r.value.1 <= limit
    ensures HasString(s, p, limit, EncItems(l, items)) && PbEncode.ItemsFit(l, items) && !l.Submessage? &&
            |have| + |items| <= max ==>
              r == Some((have + NormalItems(l, items), p + |LengthPrefixed(EncItems(l, items))|))
    decreases l, 1, 0
  {
    hide Varint, At, LengthPrefixed, EncItems, EncValue, HasValue, NormalValue, LTypeOk, HasItems, PbEncode.ItemsFit;
    ghost var ok := HasString(s, p, limit, EncItems(l, items)) && PbEncode.ItemsFit(l, items) && !l.Submessage? &&
        |have| + |items| <= max;
    if ok {
      StringParts(s, p, limit, EncItems(l, items));
    }
    var size := DecodeVarint32(s, p, limit, |EncItems(l, items)|);
    if size.None? || limit - size.value.1 < size.value.0 {
      return None;
    }
    var q, end := size.value.1, size.value.1 + size.value.0;
    var all := have;
    ghost var k := 0;
    if ok {
      assert items[0..] == items;
      ItemsAt(l, items, s, q, end);
    }
    while q < end && |all| < max
      invariant q <= end <= limit
      invariant ok ==> k <= |items| && all == have + NormalItems(l, items[..k]) && HasItems(l, items[k..], s, q, end)
      decreases end - q
    {
      if ok {
        NoItemsLeft(l, items[k..], s, q, end);
        FirstItem(l, items, s, q, end, k);
      }
      var x := DecodeValue(l, s, q, end, Number(0), if ok then items[k] else Number(0));
      if x.None? {
        return None;
      }
      OneMoreItem(l, have, items, k, ok);
      all := all + [x.value.0];
      q := x.value.1;
      k := k + 1;
    }
    if ok {
      AllItemsRead(l, items, k, s, q, end);
    }
    if q != end {
      return None;
    }
    r := Some((all, end));
  }

  lemma ItemsAt(l: LType, items: seq<Value>, s: Bytes, p: nat, limit: nat)
    requires At(s, p, EncItems(l, items)) && PbEncode.ItemsFit(l, items) && p + |EncItems(l, items)| == limit
    ensures HasItems(l, items, s, p, limit)
  {
  }

  lemma OneMoreItem(l: LType, have: seq<Value>, items: seq<Value>, k: nat, ok: bool)
    ensures ok && k < |items| ==>
              have + NormalItems(l, items[..k]) + [NormalValue(l, items[k])] == have + NormalItems(l, items[..k + 1])
  {
    hide NormalValue;
  }

  lemma AllItemsRead(l: LType, items: seq<Value>, k: nat, s: Bytes, q: nat, end: nat)
    requires k <= |items| && HasItems(l, items[k..], s, q, end) && LTypeOk(l)
    ensures k == |items| ==> q == end && items[..k] == items
    ensures q == end ==> k == |items|
  {
    hide ValueFits, EncValue, LTypeOk;
    if k < |items| {
      ItemsTakeSpace(l, items[k..]);
    }
  }

  function TokenBody(f: Field, t: Token): Bytes {
    match t
    case Single(_, v) => EncValue(f.ltype, v)
    case Packed(_, items) => LengthPrefixed(EncItems(f.ltype, items))
  }

  function WireOf(f: Field, t: Token): (w: nat)
    ensures w < 8
  {
    if t.Single? then f.ltype.WireType() else WT_STRING
  }

  function ItemsIn(slot: Slot): seq<Value> {
    if slot.Many? then slot.items else []
  }

  function ValueIn(slot: Slot): Value {
    if slot.One? then slot.value else Number(0)
  }

  /** Token `j` of the field is next, the slot holds the tokens before it. */
  ghost predicate TokenIsNext(f: Field, i: nat, full: Slot, j: nat, s: Bytes, p: nat, limit: nat, wire: nat,
                              slot: Slot, size: nat) {
    && SlotFits(f, full) && j < |FieldTokens(f, i, full)| && slot == SlotAfter(f, full, j)
    && (full.Many? ==> size == |ItemsIn(slot)|)
    && var t := FieldTokens(f, i, full)[j];
       wire == WireOf(f, t) && At(s, p, TokenBody(f, t)) && p + |TokenBody(f, t)| <= limit
  }

  lemma SingularToken(f: Field, i: nat, full: Slot)
    requires SlotFits(f, full) && FieldOk(f) && !f.htype.Repeated? && |FieldTokens(f, i, full)| > 0
    ensures full.One? && FieldTokens(f, i, full)[0] == Single(i, full.value) && ValueFits(f.ltype, full.value)
    ensures SlotAfter(f, full, 1) == One(true, NormalValue(f.ltype, full.value))
    ensures SlotAfter(f, full, 0) == DefaultSlot(f)
    ensures var none := DefaultSlot(f);
            && none.One? && LTypeOk(f.ltype) && (f.htype.Oneof? ==> !none.has)
            && (!f.htype.Oneof? && f.ltype.Submessage? ==> none.value == Fresh(f.ltype))
  {
    hide ValueFits, IsDefault, LTypeOk, Defaults;
  }

  /** decode_static_field for the fields that hold one value. */
  method DecodeSingular(f: Field, s: Bytes, p: nat, limit: nat, slot: Slot, ghost i: nat, ghost full: Slot,
                        ghost wire: nat)
    returns (r: Read<Slot>)
    requires limit <= |s| && FieldOk(f) && !f.htype.Repeated?
    ensures r.Some? ==> p < r.value.1 <= limit
    ensures TokenIsNext(f, i, full, 0, s, p, limit, wire, slot, 0) ==>
              r == Some((SlotAfter(f, full, 1), p + |TokenBody(f, FieldTokens(f, i, full)[0])|))
    decreases f, 0, 0
  {
    hide LTypeOk, ValueFits, EncValue, NormalValue, At, Defaults, SlotFits, FieldTokens, SlotAfter, DefaultSlot;
    if TokenIsNext(f, i, full, 0, s, p, limit, wire, slot, 0) {
      SingularToken(f, i, full);
    }
    var dest := ValueIn(slot);
    if f.htype.Oneof? && f.ltype.Submessage? && !(slot.One? && slot.has) {
      dest := Fresh(f.ltype);
    }
    var x := DecodeValue(f.ltype, s, p, limit, dest, ValueIn(full));
    r := if x.Some? then Some((One(true, x.value.0), x.value.1)) else None;
  }

  /** decode_static_field for arrays; `size` is how many items there are. */
  method DecodeRepeated(f: Field, wire: nat, s: Bytes, p: nat, limit: nat, slot: Slot, size: nat, ghost i: nat,
                        ghost full: Slot, ghost j: nat)
    returns (r: Read<Slot>)
    requires limit <= |s| && FieldOk(f) && f.htype.Repeated?
    ensures r.Some? ==> p < r.value.1 <= limit && r.value.0.Many?
    ensures TokenIsNext(f, i, full, j, s, p, limit, wire, slot, size) ==>
              r == Some((SlotAfter(f, full, j + 1), p + |TokenBody(f, FieldTokens(f, i, full)[j])|))
    decreases f, 0, 0
  {
    hide LTypeOk, ValueFits, EncValue, EncItems, NormalValue, At, LengthPrefixed, Defaults;
    ghost var ok := TokenIsNext(f, i, full, j, s, p, limit, wire, slot, size);
    ghost var items := ItemsIn(full);
    var have := ItemsIn(slot);
    if size < |have| {
      have := have[..size];
    }
    if ok {
      RepeatedToken(f, i, full, j);
    }
    if wire == WT_STRING && f.ltype.Packable() {
      var x := DecodePacked(f.ltype, s, p, limit, have, f.htype.max, items);
      if ok {
        PackedIsAll(f, items);
      }
      r := if x.Some? then Some((Many(x.value.0), x.value.1)) else None;
    } else {
      if size >= f.htype.max {
        return None;
      }
      var x := DecodeValue(f.ltype, s, p, limit, Fresh(f.ltype), if ok && j < |items| then items[j] else Number(0));
      if x.None? {
        return None;
      }
      if ok {
        UnpackedGrows(f, items, j);
      }
      r := Some((Many(have + [x.value.0]), x.value.1));
    }
  }

  lemma RepeatedToken(f: Field, i: nat, full: Slot, j: nat)
    requires SlotFits(f, full) && f.htype.Repeated? && j < |FieldTokens(f, i, full)|
    ensures full.Many? && full.items != [] && PbEncode.ItemsFit(f.ltype, full.items) && |full.items| <= f.htype.max
    ensures |EncItems(f.ltype, full.items)| < TWO32
    ensures if f.ltype.Packable() then j == 0 && FieldTokens(f, i, full)[j] == Packed(i, full.items)
            else
              && j < |full.items| && FieldTokens(f, i, full)[j] == Single(i, full.items[j])
              && ValueFits(f.ltype, full.items[j])
  {
    hide ValueFits, EncItems;
    if !f.ltype.Packable() {
      var v := full.items[j];
    }
  }

  lemma PackedIsAll(f: Field, items: seq<Value>)
    requires f.ltype.Packable()
    ensures [] + NormalItems(f.ltype, items) == NormalItems(f.ltype, items)
    ensures SlotAfter(f, Many(items), 1) == Many(NormalItems(f.ltype, items))
    ensures SlotAfter(f, Many(items), 0) == Many([])
  {
    hide NormalItems;
  }

  lemma UnpackedGrows(f: Field, items: seq<Value>, j: nat)
    requires !f.ltype.Packable() && j < |items|
    ensures SlotAfter(f, Many(items), j) == Many(NormalItems(f.ltype, items[..j]))
    ensures |NormalItems(f.ltype, items[..j])| == j
    ensures SlotAfter(f, Many(items), j + 1) ==
            Many(NormalItems(f.ltype, items[..j]) + [NormalValue(f.ltype, items[j])])
  {
    hide NormalValue;
    assert NormalItems(f.ltype, items[..j + 1]) == NormalItems(f.ltype, items[..j]) + [NormalValue(f.ltype, items[j])];
  }

  // ----- skipping

  /** pb_skip_field. */
  method SkipField(s: Bytes, p: nat, limit: nat, wire: nat) returns (r: Option<nat>)
    requires p <= limit <= |s|
    ensures r.Some? ==> p < r.value <= limit
  {
    if wire == 0 {
      var q := p;
      while q < limit && FromByte(s[q]) >= 128
        invariant p <= q <= limit
      {
        q := q + 1;
      }
      r := if q < limit then Some(q + 1) else None;
    } else if wire == 1 {
      r := if p + 8 <= limit then Some(p + 8) else None;
    } else if wire == 2 {
      var x := ReadString(s, p, limit, []);
      r := if x.Some? then Some(x.value.1) else None;
    } else if wire == 5 {
      r := if p + 4 <= limit then Some(p + 4) else None;
    } else {
      r := None;
    }
  }

  // ----- all fields

  /** Choosing a member of a oneof takes the place of the member chosen before. */
  function ClearOneof(d: Desc, dest: seq<Slot>, i: nat): (r: seq<Slot>)
    requires |dest| == |d.fields| && i < |dest|
    ensures |r| == |dest|
  {
    seq(|dest|, k requires 0 <= k < |dest| =>
      if k != i && SameOneof(d.fields[k], d.fields[i]) then DefaultSlot(d.fields[k]) else dest[k])
  }

  predicate FixedCount(f: Field) {
    f.htype.Repeated? && !f.htype.counted
  }

  /** How many required fields have been read. */
  function SeenCount(d: Desc, n: nat, j: nat): nat
    requires n <= |d.fields|
  {
    RequiredBefore(d, n) + if n < |d.fields| && d.fields[n].htype.Required? && j > 0 then 1 else 0
  }

  ghost predicate SeenOk(d: Desc, n: nat, j: nat, seen: seq<bool>)
    requires n <= |d.fields|
  {
    |seen| == MAX_REQUIRED_FIELDS && forall k :: 0 <= k < |seen| ==> seen[k] == (k < SeenCount(d, n, j))
  }

  /** The array of fixed count that is being read is full unless it is the current field. */
  ghost predicate FixedOk(d: Desc, m: seq<Slot>, n: nat, j: nat, fixedField: Option<nat>, fixedSize: nat)
    requires n <= |d.fields| == |m|
  {
    && (fixedField.Some? ==>
          && fixedField.value <= n && fixedField.value < |d.fields| && FixedCount(d.fields[fixedField.value])
          && fixedSize == if fixedField.value < n then d.fields[fixedField.value].htype.max
                          else |ItemsIn(SlotAfter(d.fields[n], m[n], j))|)
    && (n < |d.fields| && FixedCount(d.fields[n]) && j > 0 ==> fixedField == Some(n))
  }

  /** Everything the decoder holds when `j` tokens of field `n` have been read. */
  ghost predicate AtToken(d: Desc, m: seq<Slot>, s: Bytes, limit: nat, n: nat, j: nat, p: nat,
                          dest: seq<Slot>, seen: seq<bool>, fixedField: Option<nat>, fixedSize: nat)
  {
    && IsPosition(d, m, n, j) && dest == Partial(d, m, n, j)
    && At(s, p, Rest(d, m, n, j)) && p + |Rest(d, m, n, j)| == limit
    && SeenOk(d, n, j, seen) && FixedOk(d, m, n, j, fixedField, fixedSize)
  }

  lemma StartState(d: Desc, m: seq<Slot>, s: Bytes, limit: nat, start: nat, dest: seq<Slot>, seen: seq<bool>)
    requires Fits(d, m) && |m| == |d.fields| && At(s, start, Encoding(d, m)) && start + |Encoding(d, m)| == limit
    requires dest == Defaults(d)
    requires |seen| == MAX_REQUIRED_FIELDS && forall k :: 0 <= k < |seen| ==> !seen[k]
    ensures AtToken(d, m, s, limit, 0, 0, start, dest, seen, None, 0)
  {
    hide At, Encoding, Rest, Partial, Fits, Defaults;
    StartPosition(d, m);
  }

  /** Past the last token of a field: the count of required fields and the array of fixed count stay right. */
  lemma AdvanceField(d: Desc, m: seq<Slot>, n: nat, seen: seq<bool>, fixedField: Option<nat>, fixedSize: nat)
    requires Fits(d, m) && n < |d.fields| == |m|
    requires SeenOk(d, n, |TokensAt(d, m, n)|, seen) && FixedOk(d, m, n, |TokensAt(d, m, n)|, fixedField, fixedSize)
    ensures SeenOk(d, n + 1, 0, seen) && FixedOk(d, m, n + 1, 0, fixedField, fixedSize)
  {
    hide ValueFits, IsDefault, EncItems, Fits;
    var f := d.fields[n];
    SlotOf(d, m, n);
    FullAtEnd(f, n, m[n]);
    assert SeenCount(d, n + 1, 0) == SeenCount(d, n, |TokensAt(d, m, n)|);
  }

  lemma FullAtEnd(f: Field, i: nat, slot: Slot)
    requires SlotFits(f, slot)
    ensures f.htype.Required? ==> |FieldTokens(f, i, slot)| == 1
    ensures FixedCount(f) ==> |ItemsIn(SlotAfter(f, slot, |FieldTokens(f, i, slot)|))| == f.htype.max
  {
    hide ValueFits, EncItems, Normal, SlotAfter;
    AllDone(f, i, slot);
    if f.htype.Repeated? {
      NormalCount(f, slot);
    }
  }

  lemma NormalCount(f: Field, slot: Slot)
    requires slot.Many?
    ensures |ItemsIn(Normal(f, slot))| == |slot.items|
  {
  }

  /** Go on to the next token, if there is one. */
  lemma {:induction false} SettleState(d: Desc, m: seq<Slot>, s: Bytes, limit: nat, n: nat, j: nat, p: nat,
                                       dest: seq<Slot>, seen: seq<bool>, fixedField: Option<nat>, fixedSize: nat)
    returns (n': nat, j': nat)
    requires Fits(d, m) && AtToken(d, m, s, limit, n, j, p, dest, seen, fixedField, fixedSize)
    ensures AtToken(d, m, s, limit, n', j', p, dest, seen, fixedField, fixedSize)
    ensures n' < |m| ==> j' < |TokensAt(d, m, n')|
    decreases |m| - n
  {
    hide At, Rest, Partial, Fits, TokensAt, SeenOk, FixedOk;
    if n < |m| && j == |TokensAt(d, m, n)| {
      NextField(d, m, n);
      AdvanceField(d, m, n, seen, fixedField, fixedSize);
      n', j' := SettleState(d, m, s, limit, n + 1, 0, p, dest, seen, fixedField, fixedSize);
    } else {
      n', j' := n, j;
    }
  }

  ghost predicate TokenAhead(d: Desc, m: seq<Slot>, s: Bytes, limit: nat, n: nat, j: nat, p: nat) {
    && n < |d.fields| == |m| && j < |TokensAt(d, m, n)|
    && var f := d.fields[n];
       var t := TokensAt(d, m, n)[j];
       var x := 8 * f.tag + WireOf(f, t);
       && HasVarint(s, p, limit, x) && 0 < x < TWO32
       && At(s, p + |Varint(x)|, TokenBody(f, t)) && p + |Varint(x)| + |TokenBody(f, t)| <= limit
       && At(s, p + |Varint(x)| + |TokenBody(f, t)|, Rest(d, m, n, j + 1))
       && p + |Varint(x)| + |TokenBody(f, t)| + |Rest(d, m, n, j + 1)| == limit
  }

  /** While bytes are left there is a token: its tag, its body, and what is behind it. */
  lemma TokenIsAhead(d: Desc, m: seq<Slot>, s: Bytes, limit: nat, n: nat, j: nat, p: nat,
                     dest: seq<Slot>, seen: seq<bool>, fixedField: Option<nat>, fixedSize: nat)
    requires Fits(d, m) && DescOk(d) && AtToken(d, m, s, limit, n, j, p, dest, seen, fixedField, fixedSize)
    requires (n < |m| ==> j < |TokensAt(d, m, n)|) && p < limit
    ensures TokenAhead(d, m, s, limit, n, j, p)
  {
    hide At, Partial, Fits, SeenOk, FixedOk, Varint, DescOk, Rest;
    SomethingLeft(d, m, n, j);
    TokenThenRest(d, m, n, j);
    var f, t := d.fields[n], TokensAt(d, m, n)[j];
    FieldIsOk(d, n);
    TokenInTwo(d, t);
    AtBoth(s, p, TokenBytes(d, t), Rest(d, m, n, j + 1));
    AtBoth(s, p, TagBytes(f, WireOf(f, t)), TokenBody(f, t));
  }

  lemma SomethingLeft(d: Desc, m: seq<Slot>, n: nat, j: nat)
    requires IsPosition(d, m, n, j)
    ensures Rest(d, m, n, j) != [] ==> n < |m|
  {
  }

  lemma FieldIsOk(d: Desc, n: nat)
    requires DescOk(d) && n < |d.fields|
    ensures FieldOk(d.fields[n])
  {
  }

  lemma TokenInTwo(d: Desc, t: Token)
    requires t.index < |d.fields|
    ensures var f := d.fields[t.index]; TokenBytes(d, t) == TagBytes(f, WireOf(f, t)) + TokenBody(f, t)
  {
    hide TagBytes, EncValue, LengthPrefixed, EncItems;
  }

  lemma TagIsUnique(d: Desc, i: nat, j: nat)
    requires DescOk(d) && i < |d.fields| && j < |d.fields| && d.fields[i].tag == d.fields[j].tag
    ensures i == j
  {
    hide FieldOk;
  }

  /** The field has been decoded. */
  lemma TokenDone(d: Desc, m: seq<Slot>, n: nat, j: nat, dest: seq<Slot>)
    requires Fits(d, m) && n < |d.fields| == |m| && j < |TokensAt(d, m, n)| && dest == Partial(d, m, n, j)
    ensures var slot := SlotAfter(d.fields[n], m[n], j + 1);
            (if d.fields[n].htype.Oneof? then ClearOneof(d, dest, n) else dest)[n := slot] == Partial(d, m, n, j + 1)
  {
    hide SlotAfter, Normal, DefaultSlot, Fits;
    if d.fields[n].htype.Oneof? {
      OthersNotChosen(d, m, n, j);
    }
  }

  lemma OneIsChosen(d: Desc, m: seq<Slot>, k: nat, n: nat)
    requires Fits(d, m) && k < |m| == |d.fields| && n < |m| && k != n && SameOneof(d.fields[k], d.fields[n])
    ensures m[k].One? && m[n].One? && m[n].has ==> !m[k].has
  {
    hide SlotFits;
    if k < n {
      assert SameOneof(d.fields[k], d.fields[n]);
    } else {
      assert SameOneof(d.fields[n], d.fields[k]);
    }
  }

  lemma OthersNotChosen(d: Desc, m: seq<Slot>, n: nat, j: nat)
    requires Fits(d, m) && n < |d.fields| == |m| && j < |TokensAt(d, m, n)| && d.fields[n].htype.Oneof?
    ensures forall k :: 0 <= k < |m| && k != n && SameOneof(d.fields[k], d.fields[n]) ==>
              Partial(d, m, n, j)[k] == DefaultSlot(d.fields[k])
  {
    hide ValueFits, EncItems, DefaultSlot, SlotAfter, NormalValue;
    SlotOf(d, m, n);
    assert m[n].One? && m[n].has;
    forall k | 0 <= k < |m| && k != n && SameOneof(d.fields[k], d.fields[n])
      ensures Normal(d.fields[k], m[k]) == DefaultSlot(d.fields[k])
    {
      SlotOf(d, m, k);
      OneIsChosen(d, m, k, n);
    }
  }

  lemma SeenOneMore(d: Desc, m: seq<Slot>, n: nat, j: nat, seen: seq<bool>)
    requires Fits(d, m) && n < |d.fields| == |m| && j < |TokensAt(d, m, n)| && SeenOk(d, n, j, seen)
    ensures var k := RequiredBefore(d, n);
            var seen' := if d.fields[n].htype.Required? && k < MAX_REQUIRED_FIELDS then seen[k := true] else seen;
            SeenOk(d, n, j + 1, seen')
  {
    hide ValueFits, EncItems, IsDefault, Fits;
    SlotOf(d, m, n);
    FullAtEnd(d.fields[n], n, m[n]);
  }

  /** The tag of the token ahead. */
  ghost function TagAhead(d: Desc, m: seq<Slot>, n: nat, j: nat): nat
    requires n < |d.fields| == |m| && j < |TokensAt(d, m, n)|
  {
    8 * d.fields[n].tag + WireOf(d.fields[n], TokensAt(d, m, n)[j])
  }

  lemma TagOfToken(d: Desc, m: seq<Slot>, s: Bytes, limit: nat, n: nat, j: nat, p: nat)
    requires TokenAhead(d, m, s, limit, n, j, p)
    ensures n < |d.fields| == |m| && j < |TokensAt(d, m, n)|
    ensures var x := TagAhead(d, m, n, j);
            && HasVarint(s, p, limit, x) && 0 < x < TWO32
            && x / 8 == d.fields[n].tag && x % 8 == WireOf(d.fields[n], TokensAt(d, m, n)[j])
  {
    hide Varint, At, TokensAt, Rest, TokenBody, WireOf;
  }

  /** What the decoder of the field meets. */
  lemma FieldIsNext(d: Desc, m: seq<Slot>, s: Bytes, limit: nat, n: nat, j: nat, p: nat,
                    dest: seq<Slot>, seen: seq<bool>, fixedField: Option<nat>, fixedSize: nat)
    requires Fits(d, m) && DescOk(d) && AtToken(d, m, s, limit, n, j, p, dest, seen, fixedField, fixedSize)
    requires TokenAhead(d, m, s, limit, n, j, p)
    ensures var f := d.fields[n];
            var x := TagAhead(d, m, n, j);
            && n < |dest| == |m| && dest[n] == SlotAfter(f, m[n], j)
            && (fixedField.Some? && fixedField.value < |d.fields| && fixedField != Some(n) ==>
                  fixedSize == d.fields[fixedField.value].htype.max || !FixedCount(d.fields[fixedField.value]))
            && (FixedCount(f) && fixedField == Some(n) ==> fixedSize == |ItemsIn(dest[n])|)
            && (FixedCount(f) && fixedField != Some(n) ==> |ItemsIn(dest[n])| == 0)
            && (!f.htype.Repeated? ==> j == 0)
            && TokenIsNext(f, n, m[n], j, s, p + |Varint(x)|, limit, WireOf(f, TokensAt(d, m, n)[j]), dest[n],
                           if f.htype.Repeated? then |ItemsIn(dest[n])| else 0)
  {
    hide Varint, At, Rest, TokenBody, ValueFits, EncItems, IsDefault, SeenOk, Fits, DescOk, NormalValue, NormalItems;
    hide DefaultSlot;
    SlotOf(d, m, n);
    OneTokenOnly(d.fields[n], n, m[n]);
  }

  lemma OneTokenOnly(f: Field, i: nat, slot: Slot)
    requires SlotFits(f, slot)
    ensures !f.htype.Repeated? ==> slot.One? && |FieldTokens(f, i, slot)| <= 1
    ensures f.htype.Repeated? ==> slot.Many?
  {
    hide ValueFits, EncItems, IsDefault;
  }

  /** One token further. */
  lemma OneTokenFurther(d: Desc, m: seq<Slot>, s: Bytes, limit: nat, n: nat, j: nat, p: nat,
                        dest: seq<Slot>, seen: seq<bool>, fixedField: Option<nat>, fixedSize: nat)
    requires Fits(d, m) && AtToken(d, m, s, limit, n, j, p, dest, seen, fixedField, fixedSize)
    requires TokenAhead(d, m, s, limit, n, j, p)
    ensures var f := d.fields[n];
            var slot := SlotAfter(f, m[n], j + 1);
            var k := RequiredBefore(d, n);
            AtToken(d, m, s, limit, n, j + 1, p + |Varint(TagAhead(d, m, n, j))| + |TokenBody(f, TokensAt(d, m, n)[j])|,
                    (if f.htype.Oneof? then ClearOneof(d, dest, n) else dest)[n := slot],
                    if f.htype.Required? && k < MAX_REQUIRED_FIELDS then seen[k := true] else seen,
                    if FixedCount(f) then Some(n) else fixedField,
                    if FixedCount(f) then |ItemsIn(slot)| else fixedSize)
  {
    hide Varint, At, Rest, TokenBody, Fits, Partial, SlotAfter, FieldTokens, ClearOneof;
    TokenDone(d, m, n, j, dest);
    SeenOneMore(d, m, n, j, seen);
  }

  lemma EndState(d: Desc, m: seq<Slot>, s: Bytes, limit: nat, n: nat, j: nat, p: nat,
                 dest: seq<Slot>, seen: seq<bool>, fixedField: Option<nat>, fixedSize: nat)
    requires Fits(d, m) && AtToken(d, m, s, limit, n, j, p, dest, seen, fixedField, fixedSize) && n == |m|
    ensures dest == NormalMessage(d, m) && p == limit
    ensures fixedField.Some? ==> fixedField.value < |d.fields| && FixedCount(d.fields[fixedField.value])
                                 && fixedSize == d.fields[fixedField.value].htype.max
    ensures |seen| == MAX_REQUIRED_FIELDS && forall k :: 0 <= k < |seen| ==>
            seen[k] == (k < RequiredBefore(d, |d.fields|))
  {
    hide Normal, SlotAfter, DefaultSlot, Fits;
  }

  /** Without bytes left there are no tokens left. */
  lemma NoBytesNoTokens(d: Desc, m: seq<Slot>, s: Bytes, limit: nat, n: nat, j: nat,
                        dest: seq<Slot>, seen: seq<bool>, fixedField: Option<nat>, fixedSize: nat)
    requires Fits(d, m) && AtToken(d, m, s, limit, n, j, limit, dest, seen, fixedField, fixedSize)
    requires n < |m| ==> j < |TokensAt(d, m, n)|
    ensures n == |m|
  {
    hide Partial, Fits, SeenOk, FixedOk, TokenBytes;
    if n < |m| {
      TokenThenRest(d, m, n, j);
      TokenTakesSpace(d, TokensAt(d, m, n)[j]);
    }
  }

  lemma TokenTakesSpace(d: Desc, t: Token)
    requires t.index < |d.fields|
    ensures |TokenBytes(d, t)| > 0
  {
    hide EncValue, EncItems, LengthPrefixed, Varint;
  }

  /** The state of the decoder between two fields. */
  datatype Progress = Progress(p: nat, out: seq<Slot>, seen: seq<bool>, fixedField: Option<nat>, fixedSize: nat)

  ghost predicate ProgressOk(d: Desc, g: Progress) {
    && |g.out| == |d.fields| && |g.seen| == MAX_REQUIRED_FIELDS
    && (g.fixedField.Some? ==> g.fixedField.value < |d.fields| && FixedCount(d.fields[g.fixedField.value]))
  }

  ghost predicate HoldsAt(d: Desc, m: seq<Slot>, s: Bytes, limit: nat, n: nat, j: nat, g: Progress) {
    AtToken(d, m, s, limit, n, j, g.p, g.out, g.seen, g.fixedField, g.fixedSize)
  }

  /** A field that the descriptor has: find its size, note that it was seen, and decode it. */
  method DecodeKnown(d: Desc, iter: FieldIter, s: Bytes, limit: nat, wire: nat, bodyAt: nat, g: Progress,
                     ghost m: seq<Slot>, ghost n: nat, ghost j: nat, ghost ok: bool)
    returns (r: Option<Progress>)
    requires limit <= |s| && DescOk(d) && |m| == |d.fields| && ProgressOk(d, g) && iter.Valid() && iter.d == d
    requires iter.pos < |d.fields|
    requires ok ==>
               && Fits(d, m) && HoldsAt(d, m, s, limit, n, j, g)
               && TokenAhead(d, m, s, limit, n, j, g.p) && iter.pos == n
               && wire == WireOf(d.fields[n], TokensAt(d, m, n)[j]) && bodyAt == g.p + |Varint(TagAhead(d, m, n, j))|
    ensures r.Some? ==> ProgressOk(d, r.value) && bodyAt < r.value.p <= limit
    ensures ok ==> r.Some? && HoldsAt(d, m, s, limit, n, j + 1, r.value)
    decreases d, 2, 0
  {
    hide At, Fits, DescOk, AtToken, TokenAhead, Varint, TokenBody, TokenIsNext, SlotAfter, FieldTokens, FieldOk;
    if ok {
      FieldIsNext(d, m, s, limit, n, j, g.p, g.out, g.seen, g.fixedField, g.fixedSize);
      OneTokenFurther(d, m, s, limit, n, j, g.p, g.out, g.seen, g.fixedField, g.fixedSize);
    }
    var i := iter.pos;
    var f := d.fields[i];
    FieldIsOk(d, i);
    var fixedField, fixedSize, seen := g.fixedField, g.fixedSize, g.seen;
    if FixedCount(f) && fixedField != Some(i) {
      if fixedField.Some? && fixedSize != d.fields[fixedField.value].htype.max {
        return None;
      }
      fixedField, fixedSize := Some(i), 0;
    }
    if f.htype.Required? && iter.requiredFieldIndex < MAX_REQUIRED_FIELDS {
      seen := seen[iter.requiredFieldIndex := true];
    }
    if f.htype.Repeated? {
      var size := if FixedCount(f) then fixedSize else |ItemsIn(g.out[i])|;
      var y := DecodeRepeated(f, wire, s, bodyAt, limit, g.out[i], size, i, m[i], j);
      if y.None? {
        return None;
      }
      var slot := y.value.0;
      if FixedCount(f) {
        fixedSize := |slot.items|;
      }
      r := Some(Progress(y.value.1, g.out[i := slot], seen, fixedField, fixedSize));
    } else {
      var y := DecodeSingular(f, s, bodyAt, limit, g.out[i], i, m[i], wire);
      if y.None? {
        return None;
      }
      var out := if f.htype.Oneof? then ClearOneof(d, g.out, i) else g.out;
      r := Some(Progress(y.value.1, out[i := y.value.0], seen, fixedField, fixedSize));
    }
  }

  /** pb_decode_noinit. */
  method DecodeNoInit(d: Desc, s: Bytes, start: nat, limit: nat, dest: seq<Slot>,
                      ghost m: seq<Slot>) returns (r: Read<seq<Slot>>)
    requires start <= limit <= |s| && DescOk(d) && |dest| == |d.fields| == |m|
    ensures r.Some? ==> |r.value.0| == |d.fields| && start <= r.value.1 <= limit
    ensures Fits(d, m) && At(s, start, Encoding(d, m)) && start + |Encoding(d, m)| == limit && dest == Defaults(d) ==>
              r == Some((NormalMessage(d, m), limit))
    decreases d, 3, 0
  {
    hide At, Encoding, Defaults, NormalMessage, Fits, DescOk, AtToken, TokenAhead, Varint, TokensAt, TokenBody;
    ghost var ok := Fits(d, m) && At(s, start, Encoding(d, m)) && start + |Encoding(d, m)| == limit &&
        dest == Defaults(d);
    var iter := new FieldIter(d);
    var g := Progress(start, dest, seq(MAX_REQUIRED_FIELDS, _ => false), None, 0);
    ghost var n: nat, j: nat := 0, 0;
    if ok {
      StartState(d, m, s, limit, start, dest, g.seen);
    }
    while g.p < limit
      invariant start <= g.p <= limit && ProgressOk(d, g) && fresh(iter) && iter.d == d && iter.Valid()
      invariant ok ==> HoldsAt(d, m, s, limit, n, j, g)
      decreases limit - g.p
    {
      ghost var x := 0;
      if ok {
        n, j := SettleState(d, m, s, limit, n, j, g.p, g.out, g.seen, g.fixedField, g.fixedSize);
        TokenIsAhead(d, m, s, limit, n, j, g.p, g.out, g.seen, g.fixedField, g.fixedSize);
        TagOfToken(d, m, s, limit, n, j, g.p);
        x := TagAhead(d, m, n, j);
      }
      var tag := DecodeVarint32(s, g.p, limit, x);
      if tag.None? {
        return None;
      }
      if tag.value.0 == 0 {
        g := g.(p := tag.value.1);
        break;
      }
      var found := iter.Find(tag.value.0 / 8);
      if !found {
        var next := SkipField(s, tag.value.1, limit, tag.value.0 % 8);
        if next.None? {
          return None;
        }
        g := g.(p := next.value);
      } else {
        if ok {
          TagIsUnique(d, iter.pos, n);
        }
        var next := DecodeKnown(d, iter, s, limit, tag.value.0 % 8, tag.value.1, g, m, n, j, ok);
        if next.None? {
          return None;
        }
        g := next.value;
        j := j + 1;
      }
    }
    if ok {
      n, j := SettleState(d, m, s, limit, n, j, g.p, g.out, g.seen, g.fixedField, g.fixedSize);
      NoBytesNoTokens(d, m, s, limit, n, j, g.out, g.seen, g.fixedField, g.fixedSize);
      EndState(d, m, s, limit, n, j, g.p, g.out, g.seen, g.fixedField, g.fixedSize);
    }
    if g.fixedField.Some? && g.fixedSize != d.fields[g.fixedField.value].htype.max {
      return None;
    }
    var count := iter.CountRequired();
    if count > MAX_REQUIRED_FIELDS {
      count := MAX_REQUIRED_FIELDS;
    }
    var all := AllSeen(g.seen, count);
    if !all {
      return None;
    }
    r := Some((g.out, g.p));
  }

  // ----- the round trip

  /** pb_decode: all fields are set to their defaults first. */
  method Decode(d: Desc, s: Bytes, ghost m: seq<Slot>) returns (r: Read<seq<Slot>>)
    requires DescOk(d) && |m| == |d.fields|
    ensures r.Some? ==> |r.value.0| == |d.fields| && r.value.1 <= |s|
    ensures Fits(d, m) && s == Encoding(d, m) ==> r == Some((NormalMessage(d, m), |s|))
  {
    hide DescOk, Fits, Encoding, NormalMessage, Defaults;
    WholeInput(s);
    r := DecodeNoInit(d, s, 0, |s|, Defaults(d), m);
  }

  lemma WholeInput(s: Bytes)
    ensures At(s, 0, s)
  {
  }

  // ----- text in a character array

  /** pb_enc_string: a text ends before the first zero of its array, or fills the array. */
  method TextOf(chars: Bytes) returns (text: Bytes)
    ensures text <= chars && 0 !in text && (|text| < |chars| ==> chars[|text|] == 0)
  {
    var size := 0;
    while size < |chars| && chars[size] != 0
      invariant size <= |chars| && 0 !in chars[..size]
    {
      assert chars[..size + 1] == chars[..size] + [chars[size]];
      size := size + 1;
    }
    text := chars[..size];
  }

  /**
   A character array is encoded whatever it holds, but decoded into an array of the same size
   if and only if it holds a terminator.
   */
  method TextRoundTripIff(chars: Bytes, bufsize: nat) returns (encoded: bool, decoded: Option<Value>)
    requires |chars| < TWO32
    ensures encoded && decoded.Some? ==>
              && decoded.value.Data? && decoded.value.bytes < chars
              && 0 !in decoded.value.bytes && chars[|decoded.value.bytes|] == 0
    ensures encoded ==> (decoded.Some? <==> 0 in chars)
    ensures bufsize >= |chars| + 5 ==> encoded
  {
    var text := TextOf(chars);
    var s := new PbEncode.OStream(false, bufsize);
    encoded := PbEncode.EncodeString(s, text);
    LengthIsShort(|text|);
    decoded := None;
    if encoded {
      var out := s.out;
      NothingAround(LengthPrefixed(text));
      assert At(out, 0, LengthPrefixed(text));
      var r := DecodeData(Text(|chars|), out, 0, |out|, text);
      if r.Some? {
        decoded := Some(r.value.0);
      }
    }
  }

  lemma LengthIsShort(n: nat)
    requires n < TWO32
    ensures |Varint(n)| <= 5
  {
    assert Power(128, 5) == 128 * 128 * 128 * 128 * 128;
    VarintIsShort(n, 5);
  }

  /**
   Encoding a message into a large enough buffer and decoding what was written gives the normal
   form of the message: the message itself, if its unset fields hold their defaults.  The normal
   form can be encoded again, to the same bytes, and is what they decode to.
   */
  method RoundTrip(d: Desc, m: seq<Slot>, bufsize: nat) returns (encoded: bool, decoded: Option<seq<Slot>>)
    requires DescOk(d) && Fits(d, m)
    ensures |m| == |d.fields| && (encoded <==> |Encoding(d, m)| <= bufsize)
    ensures encoded ==> decoded == Some(NormalMessage(d, m)) && (Tidy(d, m) ==> decoded == Some(m))
    ensures Fits(d, NormalMessage(d, m)) && Tidy(d, NormalMessage(d, m))
    ensures NormalMessage(d, NormalMessage(d, m)) == NormalMessage(d, m)
    ensures Encoding(d, NormalMessage(d, m)) == Encoding(d, m)
  {
    hide DescOk, Fits, Encoding, NormalMessage, Tidy;
    PbEncode.SlotCount(d, m);
    NormalMessageIsNormal(d, m);
    TidyIsNormal(d, NormalMessage(d, m));
    var size, out;
    size, encoded, out := PbEncode.EncodeToBuffer(d, m, bufsize);
    decoded := None;
    if encoded {
      var r := Decode(d, out, m);
      decoded := Some(r.value.0);
      if Tidy(d, m) {
        TidyIsNormal(d, m);
      }
    }
  }
}
