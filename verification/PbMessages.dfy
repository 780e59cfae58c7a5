/**
 Protocol buffer messages as nanopb sees them (pb.h): a descriptor lists the fields of a message
 with their types and repetition rules, a message has a slot for each of them. The wire format
 is given by the tokens of a message: one for every value that is written with a tag of its own.
 */
module PbMessages {
  import opened Crc32c
  import opened Coding

  // ----- descriptors

  datatype Desc = Desc(fields: seq<Field>)

  /** `init` is the value a field has when it is not set: its default, or zeros. */
  datatype Field = Field(tag: nat, htype: HType, ltype: LType, init: Value)

  /** An optional field may lack a has-flag, a repeated field a counter; it then has a fixed count. */
  datatype HType = Required | Optional(explicit: bool) | Repeated(max: nat, counted: bool) | Oneof(group: nat)

  /** Numbers have a size of 1, 2, 4 or 8 bytes; buffers have a capacity. */
  datatype LType =
    | Bool
    | VarInt(size: nat)
    | UVarInt(size: nat)
    | SVarInt(size: nat)
    | Fixed32
    | Fixed64
    | Blob(max: nat)
    | Text(capacity: nat)
    | FixedBlob(length: nat)
    | Submessage(desc: Desc)
  {
    /** Several values of the type may share one tag. */
    predicate Packable() {
      Bool? || VarInt? || UVarInt? || SVarInt? || Fixed32? || Fixed64?
    }

    function WireType(): (w: nat)
      ensures w < 8
    {
      if Bool? || VarInt? || UVarInt? || SVarInt? then 0
      else if Fixed64? then 1
      else if Fixed32? then 5
      else 2
    }
  }

  const WT_STRING: nat := 2

  // ----- values

  datatype Value = Number(n: int) | Data(bytes: Bytes) | Message(slots: seq<Slot>)

  /** `has` is the has-flag, or for a member of a oneof that it is the chosen one. */
  datatype Slot = One(has: bool, value: Value) | Many(items: seq<Value>)

  /** How many numbers a field of `size` bytes can hold. */
  function Range(size: nat): (r: nat)
    ensures r > 0
  {
    match size
    case 1 => 0x100
    case 2 => 0x1_0000
    case 4 => TWO32
    case _ => TWO64
  }

  predicate IsSize(size: nat) {
    size == 1 || size == 2 || size == 4 || size == 8
  }

  predicate FitsSigned(n: int, size: nat) {
    -(Range(size) / 2) <= n < Range(size) / 2
  }

  ghost predicate ValueFits(l: LType, v: Value)
    decreases l, 0, 0
  {
    match l
    case Bool => v.Number? && 0 <= v.n <= 1
    case VarInt(size) => v.Number? && FitsSigned(v.n, size)
    case UVarInt(size) => v.Number? && 0 <= v.n < Range(size)
    case SVarInt(size) => v.Number? && FitsSigned(v.n, size)
    case Fixed32 => v.Number? && 0 <= v.n < TWO32
    case Fixed64 => v.Number? && 0 <= v.n < TWO64
    case Blob(max) => v.Data? && |v.bytes| <= max
    case Text(capacity) => v.Data? && |v.bytes| < capacity && 0 !in v.bytes
    case FixedBlob(length) => v.Data? && |v.bytes| == length
    case Submessage(d) => v.Message? && Fits(d, v.slots) && |Encoding(d, v.slots)| < TWO32
  }

  ghost predicate SlotFits(f: Field, slot: Slot)
    decreases f, 0, 0
  {
    if f.htype.Repeated? then
      && slot.Many? && |slot.items| <= f.htype.max && (!f.htype.counted ==> |slot.items| == f.htype.max)
      && |EncItems(f.ltype, slot.items)| < TWO32
      && (forall i {:trigger slot.items[i]} :: 0 <= i < |slot.items| ==> ValueFits(f.ltype, slot.items[i]))
    else slot.One? && (IsPresent(f, slot) ==> ValueFits(f.ltype, slot.value))
  }

  ghost predicate Fits(d: Desc, m: seq<Slot>)
    decreases d, 0, 0
  {
    && |m| == |d.fields|
    && (forall i {:trigger m[i]} :: 0 <= i < |m| ==> SlotFits(d.fields[i], m[i]))
    && OneofsFit(d, m)
  }

  /** Of a oneof at most one member is chosen. */
  ghost predicate OneofsFit(d: Desc, m: seq<Slot>)
    requires |m| == |d.fields|
  {
    forall i, j {:trigger m[i], m[j]} :: 0 <= i < j < |m| && SameOneof(d.fields[i], d.fields[j]) ==>
      m[i].One? && m[j].One? ==> !(m[i].has && m[j].has)
  }

  predicate SameOneof(f: Field, g: Field) {
    f.htype.Oneof? && g.htype.Oneof? && f.htype.group == g.htype.group
  }

  // ----- descriptors that make sense

  ghost predicate LTypeOk(l: LType)
    decreases l, 0, 0
  {
    match l
    case VarInt(size) => IsSize(size)
    case UVarInt(size) => IsSize(size)
    case SVarInt(size) => IsSize(size)
    case Blob(max) => max < TWO32
    case Text(capacity) => capacity < TWO32
    case FixedBlob(length) => length < TWO32
    case Submessage(d) => DescOk(d)
    case _ => true
  }

  const MAX_TAG: nat := 0x2000_0000

  ghost predicate FieldOk(f: Field)
    decreases f, 0, 0
  {
    && 0 < f.tag < MAX_TAG && LTypeOk(f.ltype)
    && (f.htype == Optional(false) && !f.ltype.Submessage? ==> IsZero(f.ltype, f.init))
  }

  ghost predicate DescOk(d: Desc)
    decreases d, 0, 0
  {
    && (forall i {:trigger d.fields[i]} :: 0 <= i < |d.fields| ==> FieldOk(d.fields[i]))
    && (forall i, j {:trigger d.fields[i], d.fields[j]} :: 0 <= i < j < |d.fields| ==>
       d.fields[i].tag != d.fields[j].tag)
  }

  // ----- what is not worth writing

  predicate IsZero(l: LType, v: Value) {
    match v
    case Number(n) => n == 0
    case Data(b) => b == []
    case Message(_) => false
  }

  /** pb_check_proto3_default_value. */
  predicate IsDefault(f: Field, slot: Slot)
    decreases f, 0, 0
  {
    match f.htype
    case Required => false
    case Repeated(_, counted) => counted && slot.Many? && slot.items == []
    case Oneof(_) => slot.One? && !slot.has
    case Optional(explicit) =>
      if explicit then slot.One? && !slot.has
      else
        slot.One? &&
        match f.ltype
        case FixedBlob(length) => length == 0
        case Submessage(d) => slot.value.Message? && AllDefault(d, slot.value.slots, |d.fields|)
        case _ => IsZero(f.ltype, slot.value)
  }

  predicate AllDefault(d: Desc, m: seq<Slot>, n: nat)
    requires n <= |d.fields|
    decreases d, 1, n
  {
    n == 0 || (AllDefault(d, m, n - 1) && n <= |m| && IsDefault(d.fields[n - 1], m[n - 1]))
  }

  // ----- tokens

  /** A value, or the packed items of an array, of the field at an index. */
  datatype Token = Single(index: nat, value: Value) | Packed(index: nat, items: seq<Value>)

  function FieldTokens(f: Field, i: nat, slot: Slot): (ts: seq<Token>)
    ensures forall t :: t in ts ==> t.index == i
  {
    match slot
    case Many(items) =>
      if items == [] then []
      else if f.ltype.Packable() then [Packed(i, items)]
      else seq(|items|, j requires 0 <= j < |items| => Single(i, items[j]))
    case One(has, v) =>
      if IsPresent(f, slot) then [Single(i, v)] else []
  }

  predicate IsPresent(f: Field, slot: Slot)
    requires slot.One?
  {
    match f.htype
    case Required => true
    case Optional(explicit) => if explicit then slot.has else !IsDefault(f, slot)
    case _ => slot.has
  }

  /** The tokens of the fields from index `n` on. */
  function TokensFrom(d: Desc, m: seq<Slot>, n: nat): (ts: seq<Token>)
    requires n <= |d.fields| == |m|
    ensures forall t :: t in ts ==> n <= t.index < |d.fields|
    decreases |m| - n
  {
    if n == |m| then [] else FieldTokens(d.fields[n], n, m[n]) + TokensFrom(d, m, n + 1)
  }

  // ----- bytes

  function ZigZag(n: int): nat {
    if n < 0 then -2 * n - 1 else 2 * n
  }

  function EncValue(l: LType, v: Value): Bytes
    decreases l, 0, 0
  {
    match v
    case Number(n) =>
      if l.SVarInt? then Varint(ZigZag(n))
      else if l.Fixed32? then Fixed(n % TWO32, 4)
      else if l.Fixed64? then Fixed(n % TWO64, 8)
      else Varint(n % TWO64)
    case Data(b) => LengthPrefixed(b)
    case Message(slots) =>
      if l.Submessage? && |slots| == |l.desc.fields| then LengthPrefixed(Encoding(l.desc, slots)) else []
  }

  function EncItems(l: LType, items: seq<Value>): Bytes
    decreases l, 1, |items|
  {
    if items == [] then [] else EncValue(l, items[0]) + EncItems(l, items[1..])
  }

  function TagBytes(f: Field, wireType: nat): Bytes {
    Varint(8 * f.tag + wireType)
  }

  function TokenBytes(d: Desc, t: Token): Bytes
    requires t.index < |d.fields|
    decreases d, 1, 0
  {
    var f := d.fields[t.index];
    match t
    case Single(_, v) => TagBytes(f, f.ltype.WireType()) + EncValue(f.ltype, v)
    case Packed(_, items) => TagBytes(f, WT_STRING) + LengthPrefixed(EncItems(f.ltype, items))
  }

  function BytesOf(d: Desc, ts: seq<Token>): Bytes
    requires forall t :: t in ts ==> t.index < |d.fields|
    decreases d, 2, |ts|
  {
    if ts == [] then [] else TokenBytes(d, ts[0]) + BytesOf(d, ts[1..])
  }

  /** The wire form of a message. */
  function Encoding(d: Desc, m: seq<Slot>): Bytes
    requires |m| == |d.fields|
    decreases d, 3, 0
  {
    BytesOf(d, TokensFrom(d, m, 0))
  }

  // ----- what a decoded message looks like

  /** A field that is not set. */
  function DefaultSlot(f: Field): Slot
    decreases f, 1, 0
  {
    if f.htype.Repeated? then Many([]) else One(!f.htype.Oneof? && f.htype != Optional(true), DefaultValue(f))
  }

  function DefaultValue(f: Field): Value
    decreases f, 0, 0
  {
    if f.htype.Oneof? then Number(0)
    else if f.ltype.Submessage? then Message(Defaults(f.ltype.desc))
    else f.init
  }

  function Defaults(d: Desc): (m: seq<Slot>)
    ensures |m| == |d.fields|
    decreases d, 0, 0
  {
    seq(|d.fields|, i requires 0 <= i < |d.fields| => DefaultSlot(d.fields[i]))
  }

  /** Fields that are not set hold their defaults, all others their values. */
  function Normal(f: Field, slot: Slot): Slot
    decreases f, 1, 0
  {
    match slot
    case Many(items) => Many(NormalItems(f.ltype, items))
    case One(_, v) => if IsPresent(f, slot) then One(true, NormalValue(f.ltype, v)) else DefaultSlot(f)
  }

  function NormalItems(l: LType, items: seq<Value>): (r: seq<Value>)
    ensures |r| == |items|
    decreases l, 1, 0
  {
    seq(|items|, i requires 0 <= i < |items| => NormalValue(l, items[i]))
  }

  function NormalValue(l: LType, v: Value): Value
    decreases l, 0, 0
  {
    if l.Submessage? && v.Message? && |v.slots| == |l.desc.fields| then Message(NormalMessage(l.desc, v.slots)) else v
  }

  function NormalMessage(d: Desc, m: seq<Slot>): (r: seq<Slot>)
    requires |m| == |d.fields|
    ensures |r| == |m|
    decreases d, 0, 0
  {
    seq(|m|, i requires 0 <= i < |m| => Normal(d.fields[i], m[i]))
  }

  // ----- how the pieces of an encoding fit together

  ghost predicate Indexed(d: Desc, ts: seq<Token>) {
    forall t :: t in ts ==> t.index < |d.fields|
  }

  lemma {:induction false} BytesOfConcat(d: Desc, a: seq<Token>, b: seq<Token>)
    requires Indexed(d, a) && Indexed(d, b)
    ensures Indexed(d, a + b) && BytesOf(d, a + b) == BytesOf(d, a) + BytesOf(d, b)
    decreases |a|
  {
    hide TokenBytes;
    if a == [] {
      assert a + b == b;
      NothingAround(BytesOf(d, b));
    } else {
      assert (a + b)[1..] == a[1..] + b;
      BytesOfConcat(d, a[1..], b);
      Reassociate(TokenBytes(d, a[0]), BytesOf(d, a[1..]), BytesOf(d, b));
    }
  }

  lemma OneToken(d: Desc, t: Token)
    requires t.index < |d.fields|
    ensures BytesOf(d, [t]) == TokenBytes(d, t)
  {
    hide TokenBytes;
    assert [t][1..] == [];
    NothingAround(TokenBytes(d, t));
  }

  /** The tokens of a field come before those of the fields behind it. */
  lemma FieldThenRest(d: Desc, m: seq<Slot>, n: nat)
    requires n < |d.fields| == |m|
    ensures Indexed(d, FieldTokens(d.fields[n], n, m[n]))
    ensures BytesOf(d, TokensFrom(d, m, n)) ==
            BytesOf(d, FieldTokens(d.fields[n], n, m[n])) + BytesOf(d, TokensFrom(d, m, n + 1))
  {
    hide BytesOf, FieldTokens;
    BytesOfConcat(d, FieldTokens(d.fields[n], n, m[n]), TokensFrom(d, m, n + 1));
  }
}
