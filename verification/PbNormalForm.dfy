/**
 What is left of a message once it has been encoded and decoded (nanopb): its normal form.  It
 is a message that can be encoded, to the same bytes, and its own normal form.
 */
module PbNormalForm {
  import opened Crc32c
  import opened Coding
  import opened PbMessages

  /** Unset fields hold their defaults, and fields without a has-flag count as set. */
  ghost predicate Tidy(d: Desc, m: seq<Slot>)
    decreases d, 0, 0
  {
    |m| == |d.fields| && forall i {:trigger m[i]} :: 0 <= i < |m| ==> TidySlot(d.fields[i], m[i])
  }

  ghost predicate TidySlot(f: Field, slot: Slot)
    decreases f, 0, 0
  {
    match slot
    case Many(items) => forall i {:trigger items[i]} :: 0 <= i < |items| ==> TidyValue(f.ltype, items[i])
    case One(has, v) => if IsPresent(f, slot) then has && TidyValue(f.ltype, v) else slot == DefaultSlot(f)
  }

  ghost predicate TidyValue(l: LType, v: Value)
    decreases l, 0, 0
  {
    l.Submessage? && v.Message? ==> Tidy(l.desc, v.slots)
  }

  lemma {:induction false} TidyValueIsNormal(l: LType, v: Value)
    requires TidyValue(l, v)
    ensures NormalValue(l, v) == v
    decreases l, 0, 0
  {
    if l.Submessage? && v.Message? {
      TidyIsNormal(l.desc, v.slots);
    }
  }

  lemma {:induction false} TidyIsNormal(d: Desc, m: seq<Slot>)
    requires Tidy(d, m)
    ensures |m| == |d.fields| && NormalMessage(d, m) == m
    decreases d, 0, 0
  {
    forall i | 0 <= i < |m|
      ensures Normal(d.fields[i], m[i]) == m[i]
    {
      TidySlotIsNormal(d.fields[i], m[i]);
    }
  }

  lemma {:induction false} TidySlotIsNormal(f: Field, slot: Slot)
    requires TidySlot(f, slot)
    ensures Normal(f, slot) == slot
    decreases f, 0, 0
  {
    match slot
    case Many(items) =>
      forall i | 0 <= i < |items|
        ensures NormalValue(f.ltype, items[i]) == items[i]
      {
        TidyValueIsNormal(f.ltype, items[i]);
      }
      assert NormalItems(f.ltype, items) == items;
    case One(has, v) =>
      if IsPresent(f, slot) {
        TidyValueIsNormal(f.ltype, v);
      }
  }

  // ----- what is not worth writing

  /** If a field may be left out with some value, it may with its default. */
  lemma {:induction false} DefaultIsDefault(f: Field, slot: Slot)
    requires FieldOk(f) && IsDefault(f, slot)
    ensures IsDefault(f, DefaultSlot(f))
    decreases f, 0, 0
  {
    if f.htype == Optional(false) && f.ltype.Submessage? {
      DefaultsAreDefault(f.ltype.desc, slot.value.slots, |f.ltype.desc.fields|);
    }
  }

  lemma {:induction false} DefaultsAreDefault(d: Desc, m: seq<Slot>, n: nat)
    requires DescOk(d) && n <= |d.fields| && AllDefault(d, m, n)
    ensures AllDefault(d, Defaults(d), n)
    decreases d, 1, n
  {
    if n > 0 {
      DefaultsAreDefault(d, m, n - 1);
      DefaultIsDefault(d.fields[n - 1], m[n - 1]);
    }
  }

  // ----- the normal form of a message that fits

  ghost predicate IsNormalOf(d: Desc, m: seq<Slot>, r: seq<Slot>)
    requires |m| == |d.fields| == |r|
  {
    Fits(d, r) && Tidy(d, r) && Encoding(d, r) == Encoding(d, m)
  }

  lemma {:induction false} NormalValueIsNormal(l: LType, v: Value)
    requires LTypeOk(l) && ValueFits(l, v)
    ensures ValueFits(l, NormalValue(l, v)) && TidyValue(l, NormalValue(l, v))
    ensures EncValue(l, NormalValue(l, v)) == EncValue(l, v)
    decreases l, 0, 0
  {
    if l.Submessage? {
      NormalMessageIsNormal(l.desc, v.slots);
    }
  }

  lemma {:induction false} NormalItemsAreNormal(l: LType, items: seq<Value>)
    requires LTypeOk(l) && forall i {:trigger items[i]} :: 0 <= i < |items| ==> ValueFits(l, items[i])
    ensures EncItems(l, NormalItems(l, items)) == EncItems(l, items)
    ensures forall i {:trigger items[i]} :: 0 <= i < |items| ==>
              ValueFits(l, NormalItems(l, items)[i]) && TidyValue(l, NormalItems(l, items)[i])
    decreases l, 1, |items|
  {
    hide ValueFits, TidyValue, EncValue, NormalValue;
    if items != [] {
      NormalValueIsNormal(l, items[0]);
      NormalItemsAreNormal(l, items[1..]);
      assert NormalItems(l, items)[1..] == NormalItems(l, items[1..]);
      forall i {:trigger items[i]} | 0 <= i < |items|
        ensures ValueFits(l, NormalItems(l, items)[i]) && TidyValue(l, NormalItems(l, items)[i])
      {
        if i > 0 {
          assert items[1..][i - 1] == items[i];
        }
      }
    }
  }

  /** A value that is worth writing stays so. */
  lemma {:induction false} PresentStaysPresent(f: Field, slot: Slot)
    requires FieldOk(f) && SlotFits(f, slot)
    ensures IsDefault(f, Normal(f, slot)) <==> IsDefault(f, slot)
    decreases f, 0, 0
  {
    if slot.One? {
      if !IsPresent(f, slot) {
        if IsDefault(f, slot) {
          DefaultIsDefault(f, slot);
        }
      } else if f.htype == Optional(false) && f.ltype.Submessage? {
        AllPresentStaysPresent(f.ltype.desc, slot.value.slots, |f.ltype.desc.fields|);
      }
    }
  }

  lemma {:induction false} AllPresentStaysPresent(d: Desc, m: seq<Slot>, n: nat)
    requires DescOk(d) && Fits(d, m) && n <= |d.fields|
    ensures |m| == |d.fields| && (AllDefault(d, NormalMessage(d, m), n) <==> AllDefault(d, m, n))
    decreases d, 1, n
  {
    if n > 0 {
      AllPresentStaysPresent(d, m, n - 1);
      assert FieldOk(d.fields[n - 1]) && SlotFits(d.fields[n - 1], m[n - 1]);
      PresentStaysPresent(d.fields[n - 1], m[n - 1]);
    }
  }

  lemma {:induction false} NormalSlotIsNormal(f: Field, slot: Slot)
    requires FieldOk(f) && SlotFits(f, slot)
    ensures SlotFits(f, Normal(f, slot)) && TidySlot(f, Normal(f, slot))
    ensures Normal(f, slot).One? == slot.One? && (slot.One? ==> IsPresent(f, Normal(f, slot)) == IsPresent(f, slot))
    ensures slot.One? && f.htype.Oneof? && Normal(f, slot).has ==> slot.has
    decreases f, 1, 0
  {
    PresentStaysPresent(f, slot);
    match slot
    case Many(items) => NormalItemsAreNormal(f.ltype, items);
    case One(has, v) =>
      if IsPresent(f, slot) {
        NormalValueIsNormal(f.ltype, v);
      }
  }

  /** The tokens of the normal form are written as those of the message. */
  ghost predicate SameWire(d: Desc, ts: seq<Token>, us: seq<Token>) {
    Indexed(d, ts) && Indexed(d, us) && BytesOf(d, ts) == BytesOf(d, us)
  }

  lemma {:induction false} NormalTokens(d: Desc, n: nat, slot: Slot)
    requires n < |d.fields| && FieldOk(d.fields[n]) && SlotFits(d.fields[n], slot)
    ensures SameWire(d, FieldTokens(d.fields[n], n, Normal(d.fields[n], slot)), FieldTokens(d.fields[n], n, slot))
    decreases d, 1, 0
  {
    hide FieldOk, TidyValue, ValueFits, SlotFits, TidySlot, IsPresent, TokenBytes, EncValue, NormalValue;
    var f := d.fields[n];
    NormalSlotIsNormal(f, slot);
    SlotParts(f, slot);
    match slot
    case Many(items) =>
      NormalItemsAreNormal(f.ltype, items);
      if items != [] {
        if f.ltype.Packable() {
          OneToken(d, Packed(n, items));
          OneToken(d, Packed(n, NormalItems(f.ltype, items)));
          SamePackedBytes(d, n, items);
        } else {
          NormalSingles(d, n, items);
        }
      }
    case One(has, v) =>
      if IsPresent(f, slot) {
        NormalValueIsNormal(f.ltype, v);
        OneToken(d, Single(n, v));
        OneToken(d, Single(n, NormalValue(f.ltype, v)));
        SameTokenBytes(d, n, v);
      }
  }

  lemma SlotParts(f: Field, slot: Slot)
    requires FieldOk(f) && SlotFits(f, slot)
    ensures LTypeOk(f.ltype)
    ensures slot.Many? ==> forall i {:trigger slot.items[i]} :: 0 <= i < |slot.items| ==>
              ValueFits(f.ltype, slot.items[i])
    ensures slot.One? && IsPresent(f, slot) ==> ValueFits(f.ltype, slot.value)
  {
    hide ValueFits;
  }

  lemma SameTokenBytes(d: Desc, n: nat, v: Value)
    requires n < |d.fields|
    requires EncValue(d.fields[n].ltype, NormalValue(d.fields[n].ltype, v)) == EncValue(d.fields[n].ltype, v)
    ensures TokenBytes(d, Single(n, NormalValue(d.fields[n].ltype, v))) == TokenBytes(d, Single(n, v))
  {
    hide EncValue, NormalValue;
  }

  lemma SamePackedBytes(d: Desc, n: nat, items: seq<Value>)
    requires n < |d.fields|
    requires EncItems(d.fields[n].ltype, NormalItems(d.fields[n].ltype, items)) == EncItems(d.fields[n].ltype, items)
    ensures TokenBytes(d, Packed(n, NormalItems(d.fields[n].ltype, items))) == TokenBytes(d, Packed(n, items))
  {
    hide EncItems, NormalItems;
  }

  function Singles(n: nat, items: seq<Value>): seq<Token> {
    seq(|items|, j requires 0 <= j < |items| => Single(n, items[j]))
  }

  lemma {:induction false} NormalSingles(d: Desc, n: nat, items: seq<Value>)
    requires n < |d.fields| && FieldOk(d.fields[n])
    requires forall i {:trigger items[i]} :: 0 <= i < |items| ==> ValueFits(d.fields[n].ltype, items[i])
    ensures SameWire(d, Singles(n, NormalItems(d.fields[n].ltype, items)), Singles(n, items))
    decreases d, 0, |items|
  {
    var l := d.fields[n].ltype;
    if items != [] {
      NormalValueIsNormal(l, items[0]);
      NormalSingles(d, n, items[1..]);
      var ts, us := Singles(n, NormalItems(l, items)), Singles(n, items);
      assert NormalItems(l, items)[1..] == NormalItems(l, items[1..]);
      assert ts[1..] == Singles(n, NormalItems(l, items[1..])) && us[1..] == Singles(n, items[1..]);
    }
  }

  lemma {:induction false} NormalTokensFrom(d: Desc, m: seq<Slot>, n: nat)
    requires DescOk(d) && Fits(d, m) && n <= |d.fields|
    ensures |m| == |d.fields| && BytesOf(d, TokensFrom(d, NormalMessage(d, m), n)) == BytesOf(d, TokensFrom(d, m, n))
    decreases d, 2, |d.fields| - n
  {
    if n < |m| {
      NormalTokensFrom(d, m, n + 1);
      assert FieldOk(d.fields[n]) && SlotFits(d.fields[n], m[n]);
      NormalTokens(d, n, m[n]);
      FieldThenRest(d, m, n);
      FieldThenRest(d, NormalMessage(d, m), n);
    }
  }

  lemma {:induction false} NormalMessageIsNormal(d: Desc, m: seq<Slot>)
    requires DescOk(d) && Fits(d, m)
    ensures |m| == |d.fields| && IsNormalOf(d, m, NormalMessage(d, m))
    decreases d, 3, 0
  {
    hide FieldOk, SlotFits, TidySlot, Normal, Encoding, IsPresent;
    var r := NormalMessage(d, m);
    forall i {:trigger m[i]} | 0 <= i < |m|
      ensures SlotFits(d.fields[i], r[i]) && TidySlot(d.fields[i], r[i])
      ensures r[i].One? == m[i].One? && (m[i].One? && d.fields[i].htype.Oneof? && r[i].has ==> m[i].has)
    {
      assert FieldOk(d.fields[i]);
      NormalSlotIsNormal(d.fields[i], m[i]);
    }
    NormalTokensFrom(d, m, 0);
    EncodingIsTokens(d, m);
    EncodingIsTokens(d, r);
  }

  lemma EncodingIsTokens(d: Desc, m: seq<Slot>)
    requires |m| == |d.fields|
    ensures Encoding(d, m) == BytesOf(d, TokensFrom(d, m, 0))
  {
  }
}
