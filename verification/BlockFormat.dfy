/**
 Blocks of a table (table/block_builder.cc, DecodeEntry and the constructor of table/block.cc):
 pairs in key order, each key without the prefix it shares with the key before it, and an array
 of restart points, where keys are stored whole.
 */
module BlockFormat {
  import opened Crc32c
  import opened Coding

  datatype Pair = Pair(key: Bytes, value: Bytes)

  /** An order of keys, as a comparator gives it. */
  type Order = (Bytes, Bytes) -> bool

  ghost predicate IsOrder(less: Order) {
    && (forall a :: !less(a, a))
    && (forall a, b {:trigger less(a, b)} :: a == b || less(a, b) || less(b, a))
    && (forall a, b, c {:trigger less(a, b), less(b, c)} :: less(a, b) && less(b, c) ==> less(a, c))
  }

  ghost predicate SortedPairs(less: Order, pairs: seq<Pair>) {
    forall i, j {:trigger pairs[i], pairs[j]} :: 0 <= i < j < |pairs| ==> less(pairs[i].key, pairs[j].key)
  }

  /** `i` is the first position whose key is not less than `target`. */
  ghost predicate IsFirstFrom(less: Order, pairs: seq<Pair>, target: Bytes, i: nat) {
    && i <= |pairs|
    && (forall j {:trigger pairs[j]} :: 0 <= j < i ==> less(pairs[j].key, target))
    && (forall j {:trigger pairs[j]} :: i <= j < |pairs| ==> !less(pairs[j].key, target))
  }

  // ----- one entry

  function HeaderOf(shared: nat, p: Pair): (r: Bytes)
    requires shared <= |p.key|
    ensures |r| >= 3
  {
    Varint(shared) + Varint(|p.key| - shared) + Varint(|p.value|)
  }

  function EntryBytes(shared: nat, p: Pair): (r: Bytes)
    requires shared <= |p.key|
    ensures |r| == |HeaderOf(shared, p)| + |p.key| - shared + |p.value|
  {
    HeaderOf(shared, p) + p.key[shared..] + p.value
  }

  datatype Decoded = BadEntry | Decoded(shared: nat, nonShared: nat, valueLength: nat, next: nat)

  /** Decode the three lengths at `p`; what they promise must fit before `limit`. */
  function DecodeEntry(s: Bytes, p: nat, limit: nat): (r: Decoded)
    requires limit <= |s|
    ensures r.Decoded? ==> p + 3 <= r.next && r.next + r.nonShared + r.valueLength <= limit
  {
    if limit < p + 3 then BadEntry
    else
      var d := DecodeLengths(s, p, limit);
      if d.BadEntry? || limit - d.next < d.nonShared + d.valueLength then BadEntry else d
  }

  function DecodeLengths(s: Bytes, p: nat, limit: nat): (r: Decoded)
    requires p + 3 <= limit <= |s|
    ensures r.Decoded? ==> p + 3 <= r.next <= limit
  {
    var b0, b1, b2 := FromByte(s[p]), FromByte(s[p + 1]), FromByte(s[p + 2]);
    if b0 < 128 && b1 < 128 && b2 < 128 then Decoded(b0, b1, b2, p + 3)
    else DecodeThree(s, p, limit)
  }

  function DecodeThree(s: Bytes, p: nat, limit: nat): (r: Decoded)
    requires limit <= |s|
    ensures r.Decoded? ==> p + 3 <= r.next <= limit
  {
    var shared := ReadVarint32(s, p, limit);
    if shared.Malformed? then BadEntry
    else
      var nonShared := ReadVarint32(s, shared.next, limit);
      if nonShared.Malformed? then BadEntry
      else
        var valueLength := ReadVarint32(s, nonShared.next, limit);
        if valueLength.Malformed? then BadEntry
        else Decoded(shared.value, nonShared.value, valueLength.value, valueLength.next)
  }

  /** The fast path reads what the three varints say. */
  lemma FastPathIsExact(s: Bytes, p: nat, limit: nat)
    requires p + 3 <= limit <= |s|
    ensures DecodeLengths(s, p, limit) == DecodeThree(s, p, limit)
  {
    hide FromByte;
    OneByteVarint(s, p, limit);
    OneByteVarint(s, p + 1, limit);
    OneByteVarint(s, p + 2, limit);
    hide ReadVarint32;
  }

  lemma OneByteVarint(s: Bytes, p: nat, limit: nat)
    requires p < limit <= |s|
    ensures FromByte(s[p]) < 128 ==> ReadVarint32(s, p, limit) == Parsed(FromByte(s[p]), p + 1)
  {
  }

  lemma EntryRoundTrip(s: Bytes, p: nat, limit: nat, shared: nat, e: Pair)
    requires shared <= |e.key| < TWO32
    requires At(s, p, EntryBytes(shared, e)) && p + |EntryBytes(shared, e)| <= limit <= |s| < TWO32
    ensures DecodeEntry(s, p, limit) == Decoded(shared, |e.key| - shared, |e.value|, p + |HeaderOf(shared, e)|)
    ensures At(s, p + |HeaderOf(shared, e)|, e.key[shared..])
    ensures At(s, p + |HeaderOf(shared, e)| + |e.key| - shared, e.value)
  {
    hide Varint, At, DecodeLengths, ReadVarint32, HeaderOf, EntryBytes, DecodeThree;
    EntryParts(s, p, shared, e);
    HeaderLength(shared, e);
    FastPathIsExact(s, p, limit);
    ThreeRoundTrip(s, p, limit, shared, |e.key| - shared, |e.value|);
  }

  lemma HeaderLength(shared: nat, e: Pair)
    requires shared <= |e.key|
    ensures |HeaderOf(shared, e)| == |Varint(shared)| + |Varint(|e.key| - shared)| + |Varint(|e.value|)|
  {
  }

  lemma ThreeRoundTrip(s: Bytes, p: nat, limit: nat, a: nat, b: nat, c: nat)
    requires At(s, p, Varint(a)) && At(s, p + |Varint(a)|, Varint(b)) && At(s, p + |Varint(a)| + |Varint(b)|, Varint(c))
    requires p + |Varint(a)| + |Varint(b)| + |Varint(c)| <= limit <= |s| && a < TWO32 && b < TWO32 && c < TWO32
    ensures DecodeThree(s, p, limit) == Decoded(a, b, c, p + |Varint(a)| + |Varint(b)| + |Varint(c)|)
  {
    hide Varint, ReadVarint32, At;
    Varint32RoundTrip(s, p, limit, a);
    Varint32RoundTrip(s, p + |Varint(a)|, limit, b);
    Varint32RoundTrip(s, p + |Varint(a)| + |Varint(b)|, limit, c);
  }

  lemma EntryParts(s: Bytes, p: nat, shared: nat, e: Pair)
    requires shared <= |e.key| && At(s, p, EntryBytes(shared, e))
    ensures At(s, p, Varint(shared)) && At(s, p + |Varint(shared)|, Varint(|e.key| - shared))
    ensures At(s, p + |Varint(shared)| + |Varint(|e.key| - shared)|, Varint(|e.value|))
    ensures At(s, p + |HeaderOf(shared, e)|, e.key[shared..])
    ensures At(s, p + |HeaderOf(shared, e)| + |e.key| - shared, e.value)
  {
    hide Varint, At;
    AtBoth(s, p, HeaderOf(shared, e) + e.key[shared..], e.value);
    AtBoth(s, p, HeaderOf(shared, e), e.key[shared..]);
    AtBoth(s, p, Varint(shared) + Varint(|e.key| - shared), Varint(|e.value|));
    AtBoth(s, p, Varint(shared), Varint(|e.key| - shared));
  }

  // ----- the entries of a block

  /**
   How pairs lie in a block: entry `i` takes the bytes from `offsets[i]` to `offsets[i + 1]` and
   leaves out `shares[i]` bytes of its key; `heads` are the entries at the restart points.
   */
  datatype Layout = Layout(pairs: seq<Pair>, shares: seq<nat>, offsets: seq<nat>, heads: seq<nat>) {
    ghost predicate Shaped() {
      && |shares| == |pairs| && |offsets| == |pairs| + 1 && offsets[0] == 0
    }

    ghost predicate EntryAt(data: Bytes, i: nat)
      requires Shaped() && i < |pairs|
    {
      && shares[i] <= |pairs[i].key|
      && offsets[i + 1] == offsets[i] + |EntryBytes(shares[i], pairs[i])|
      && At(data, offsets[i], EntryBytes(shares[i], pairs[i]))
      && SharedAt(i)
    }

    /** The bytes left out are those of the key before. */
    ghost predicate SharedAt(i: nat)
      requires Shaped() && i < |pairs|
    {
      shares[i] > 0 ==> i > 0 && shares[i] <= |pairs[i - 1].key| && shares[i] <= |pairs[i].key|
                        && pairs[i - 1].key[..shares[i]] == pairs[i].key[..shares[i]]
    }

    ghost predicate EntriesOk(data: Bytes)
      requires Shaped()
    {
      forall i {:trigger pairs[i]} :: 0 <= i < |pairs| ==> EntryAt(data, i)
    }

    ghost predicate HeadsOk()
      requires Shaped()
    {
      && |heads| > 0 && heads[0] == 0
      && (forall j, k {:trigger heads[j], heads[k]} :: 0 <= j < k < |heads| ==> heads[j] < heads[k])
      && (forall j {:trigger heads[j]} :: 0 <= j < |heads| ==> HeadOk(heads[j]))
    }

    ghost predicate HeadOk(h: nat)
      requires Shaped()
    {
      (h < |pairs| && shares[h] == 0) || (h == 0 && pairs == [])
    }

    /** The restart points. */
    ghost function Restarts(): (r: seq<nat>)
      requires Shaped() && HeadsOk()
      ensures |r| == |heads|
    {
      seq(|heads|, j requires 0 <= j < |heads| => assert HeadOk(heads[j]); offsets[heads[j]])
    }

    ghost predicate Ok(data: Bytes) {
      Shaped() && EntriesOk(data) && HeadsOk() && offsets[|pairs|] == |data|
    }
  }

  lemma {:induction false} OffsetsGrow(l: Layout, data: Bytes, i: nat, j: nat)
    requires l.Ok(data) && i <= j <= |l.pairs|
    ensures l.offsets[i] + 3 * (j - i) <= l.offsets[j] <= |data|
    decreases j - i
  {
    hide EntryBytes, HeaderOf, Layout.HeadsOk;
    if i < j {
      var e := l.pairs[i];
      assert l.EntryAt(data, i);
      OffsetsGrow(l, data, i + 1, j);
    } else if j < |l.pairs| {
      var e := l.pairs[j];
      assert l.EntryAt(data, j);
      assert At(data, l.offsets[j], EntryBytes(l.shares[j], e));
    }
  }

  /** A key is no longer than the block up to its end. */
  lemma {:induction false} KeysFit(l: Layout, data: Bytes, i: nat)
    requires l.Ok(data) && i < |l.pairs|
    ensures |l.pairs[i].key| <= l.offsets[i + 1] <= |data|
  {
    hide EntryBytes, HeaderOf, Layout.HeadsOk;
    var e := l.pairs[i];
    assert l.EntryAt(data, i);
    OffsetsGrow(l, data, i + 1, |l.pairs|);
    if i > 0 {
      KeysFit(l, data, i - 1);
    }
  }

  // ----- building

  /** How many bytes the two keys share at the front. */
  ghost predicate Share(a: Bytes, b: Bytes, n: nat) {
    n <= |a| && n <= |b| && a[..n] == b[..n]
  }

  ghost function EndOf(l: Layout): nat {
    if l.offsets == [] then 0 else l.offsets[|l.offsets| - 1]
  }

  ghost function Extended(l: Layout, shared: nat, e: Pair, newHead: bool): Layout
    requires shared <= |e.key|
  {
    Layout(l.pairs + [e], l.shares + [shared],
           l.offsets + [EndOf(l) + |EntryBytes(shared, e)|],
           if newHead then l.heads + [|l.pairs|] else l.heads)
  }

  lemma ExtendedIsOk(l: Layout, data: Bytes, shared: nat, e: Pair, newHead: bool)
    requires l.Ok(data) && shared <= |e.key|
    requires shared > 0 ==> l.pairs != [] && Share(l.pairs[|l.pairs| - 1].key, e.key, shared)
    requires newHead ==> shared == 0 && l.pairs != []
    requires l.pairs == [] ==> shared == 0
    ensures Extended(l, shared, e, newHead).Ok(data + EntryBytes(shared, e))
  {
    EntriesExtend(l, data, shared, e, newHead);
    HeadsExtend(l, shared, e, newHead);
  }

  lemma EntriesExtend(l: Layout, data: Bytes, shared: nat, e: Pair, newHead: bool)
    requires l.Ok(data) && shared <= |e.key|
    requires shared > 0 ==> l.pairs != [] && Share(l.pairs[|l.pairs| - 1].key, e.key, shared)
    ensures Extended(l, shared, e, newHead).EntriesOk(data + EntryBytes(shared, e))
  {
    hide EntryBytes, HeaderOf, Layout.HeadsOk;
    var m := Extended(l, shared, e, newHead);
    var data' := data + EntryBytes(shared, e);
    forall i | 0 <= i < |m.pairs|
      ensures m.EntryAt(data', i)
    {
      if i < |l.pairs| {
        var before := l.pairs[i];
        assert l.EntryAt(data, i);
        AtGrows(data, l.offsets[i], EntryBytes(l.shares[i], l.pairs[i]), EntryBytes(shared, e));
      } else {
        AtAfter(data, EntryBytes(shared, e), []);
        assert data + EntryBytes(shared, e) + [] == data';
      }
    }
  }

  lemma HeadsExtend(l: Layout, shared: nat, e: Pair, newHead: bool)
    requires l.Shaped() && l.HeadsOk() && shared <= |e.key|
    requires newHead ==> shared == 0 && l.pairs != []
    requires l.pairs == [] ==> shared == 0
    ensures Extended(l, shared, e, newHead).HeadsOk()
  {
    hide EntryBytes, HeaderOf;
    var m := Extended(l, shared, e, newHead);
    forall j | 0 <= j < |m.heads|
      ensures m.HeadOk(m.heads[j])
    {
      assert j < |l.heads| ==> l.HeadOk(l.heads[j]);
    }
    forall j, k | 0 <= j < k < |m.heads|
      ensures m.heads[j] < m.heads[k]
    {
      assert l.HeadOk(l.heads[j]);
    }
  }

  /** A finished block. */
  function BlockBytes(data: Bytes, restarts: seq<nat>): (r: Bytes)
    ensures |r| == |data| + 4 * |restarts| + 4
  {
    data + FixedArray(restarts) + Fixed(|restarts|, 4)
  }

  ghost predicate IsBlock(l: Layout, contents: Bytes) {
    exists data :: l.Ok(data) && HasRestarts(l, data, contents)
  }

  ghost predicate HasRestarts(l: Layout, data: Bytes, contents: Bytes)
    requires l.Ok(data)
  {
    contents == BlockBytes(data, l.Restarts())
  }

  class BlockBuilder {
    const less: Order
    const restartInterval: nat
    var buffer: Bytes
    var restarts: seq<nat>
    var counter: nat
    var finished: bool
    var lastKey: Bytes
    ghost var layout: Layout

    ghost predicate Valid()
      reads this
    {
      && layout.Ok(buffer)
      && restarts == layout.Restarts()
      && SortedPairs(less, layout.pairs)
      && lastKey == (if layout.pairs == [] then [] else layout.pairs[|layout.pairs| - 1].key)
      && counter <= restartInterval && (layout.pairs == [] ==> counter == 0)
    }

    constructor (less: Order, restartInterval: nat)
      requires restartInterval >= 1
      ensures this.less == less && this.restartInterval == restartInterval
      ensures Valid() && !finished && layout.pairs == []
    {
      this.less, this.restartInterval := less, restartInterval;
      buffer, restarts, counter, finished, lastKey := [], [0], 0, false, [];
      layout := Layout([], [], [0], [0]);
    }

    method Reset()
      modifies this
      ensures Valid() && !finished && layout.pairs == []
    {
      buffer, restarts, counter, finished, lastKey := [], [0], 0, false, [];
      layout := Layout([], [], [0], [0]);
    }

    predicate Empty()
      reads this
    {
      buffer == []
    }

    lemma EmptyWithoutPairs()
      requires Valid()
      ensures Empty() <==> layout.pairs == []
    {
      OffsetsGrow(layout, buffer, 0, |layout.pairs|);
    }

    function CurrentSizeEstimate(): nat
      reads this
    {
      |buffer| + 4 * |restarts| + 4
    }

    method Add(key: Bytes, value: Bytes)
      requires Valid() && !finished && restartInterval >= 1
      requires layout.pairs == [] || less(lastKey, key)
      requires IsOrder(less)
      modifies this
      ensures Valid() && !finished && layout.pairs == old(layout.pairs) + [Pair(key, value)]
      ensures restarts == old(restarts) ||
              (restarts == old(restarts) + [|old(buffer)|] && old(counter) == restartInterval)
    {
      hide Layout.Ok, Layout.Restarts, Layout.Shaped, Layout.HeadsOk, Share, SortedPairs, EntryBytes, Extended;
      var shared := 0;
      NothingShared(lastKey, key);
      var newHead := counter >= restartInterval;
      if !newHead {
        shared := SharedPrefix(lastKey, key);
      }
      ghost var e := Pair(key, value);
      AddExtends(less, layout, buffer, shared, e, newHead);
      layout := Extended(layout, shared, e, newHead);
      if newHead {
        restarts := restarts + [|buffer|];
        counter := 0;
      }
      AppendEntry(shared, key, value);
      KeyInTwoPieces(lastKey, key, shared);
      lastKey := lastKey[..shared];
      lastKey := lastKey + key[shared..];
      counter := counter + 1;
    }

    method AppendEntry(shared: nat, key: Bytes, value: Bytes)
      requires shared <= |key|
      modifies this`buffer
      ensures buffer == old(buffer) + EntryBytes(shared, Pair(key, value))
    {
      hide Varint, EntryBytes;
      var nonShared := |key| - shared;
      PutEntry(buffer, shared, Pair(key, value));
      buffer := buffer + Varint(shared);
      buffer := buffer + Varint(nonShared);
      buffer := buffer + Varint(|value|);
      buffer := buffer + key[shared..];
      buffer := buffer + value;
    }

    method Finish() returns (contents: Bytes)
      requires Valid() && !finished
      modifies this
      ensures finished && layout == old(layout) && IsBlock(layout, contents)
    {
      hide Layout.EntriesOk, Layout.HeadsOk, Fixed, FixedArray;
      ghost var data := buffer;
      AppendRestarts();
      buffer := buffer + Fixed(|restarts|, 4);
      finished := true;
      contents := buffer;
      assert HasRestarts(layout, data, contents);
    }

    method AppendRestarts()
      modifies this
      ensures buffer == old(buffer) + FixedArray(restarts)
      ensures restarts == old(restarts) && layout == old(layout) && finished == old(finished)
    {
      hide Fixed;
      for i := 0 to |restarts|
        invariant restarts == old(restarts) && buffer == old(buffer) + FixedArray(restarts[..i])
        invariant layout == old(layout) && finished == old(finished)
      {
        assert restarts[..i + 1][..i] == restarts[..i];
        buffer := buffer + Fixed(restarts[i], 4);
      }
      assert restarts[..|restarts|] == restarts;
    }
  }

  /** The longest prefix two keys share. */
  method SharedPrefix(a: Bytes, b: Bytes) returns (n: nat)
    ensures Share(a, b, n) && n <= |b|
    ensures n < |a| && n < |b| ==> a[n] != b[n]
  {
    var minLength := if |a| < |b| then |a| else |b|;
    n := 0;
    while n < minLength && a[n] == b[n]
      invariant n <= minLength && Share(a, b, n)
    {
      n := n + 1;
    }
  }

  lemma AddExtends(less: Order, l: Layout, data: Bytes, shared: nat, e: Pair, newHead: bool)
    requires IsOrder(less) && l.Ok(data) && SortedPairs(less, l.pairs)
    requires l.pairs == [] || less(l.pairs[|l.pairs| - 1].key, e.key)
    requires Share(if l.pairs == [] then [] else l.pairs[|l.pairs| - 1].key, e.key, shared)
    requires newHead ==> shared == 0 && l.pairs != []
    ensures var m := Extended(l, shared, e, newHead);
            && m.pairs == l.pairs + [e] && m.Ok(data + EntryBytes(shared, e)) && SortedPairs(less, m.pairs)
            && m.Restarts() == l.Restarts() + if newHead then [|data|] else []
  {
    hide EntryBytes, Layout.EntriesOk, Layout.HeadsOk;
    ExtendedIsOk(l, data, shared, e, newHead);
    RestartsExtend(l, data, shared, e, newHead);
    SortedExtends(less, l.pairs, e);
  }

  lemma NothingShared(a: Bytes, b: Bytes)
    ensures Share(a, b, 0)
  {
  }

  lemma KeyInTwoPieces(before: Bytes, key: Bytes, shared: nat)
    requires Share(before, key, shared)
    ensures shared <= |before| && before[..shared] + key[shared..] == key
  {
  }

  lemma PutEntry(buffer: Bytes, shared: nat, e: Pair)
    requires shared <= |e.key|
    ensures buffer + Varint(shared) + Varint(|e.key| - shared) + Varint(|e.value|) + e.key[shared..] + e.value
         == buffer + EntryBytes(shared, e)
  {
    hide Varint;
  }

  lemma RestartsExtend(l: Layout, data: Bytes, shared: nat, e: Pair, newHead: bool)
    requires l.Ok(data) && shared <= |e.key|
    requires Extended(l, shared, e, newHead).Ok(data + EntryBytes(shared, e))
    ensures Extended(l, shared, e, newHead).Restarts() == l.Restarts() + if newHead then [|data|] else []
  {
    hide EntryBytes, Layout.EntriesOk;
    assert forall j :: 0 <= j < |l.heads| ==> l.HeadOk(l.heads[j]);
  }

  lemma SortedExtends(less: Order, pairs: seq<Pair>, e: Pair)
    requires IsOrder(less) && SortedPairs(less, pairs) && (pairs == [] || less(pairs[|pairs| - 1].key, e.key))
    ensures SortedPairs(less, pairs + [e])
  {
    forall i, j | 0 <= i < j < |pairs + [e]|
      ensures less((pairs + [e])[i].key, (pairs + [e])[j].key)
    {
      assert i < |pairs| - 1 ==> less(pairs[i].key, pairs[|pairs| - 1].key);
    }
  }
}
