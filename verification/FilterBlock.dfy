/**
 The filter block of a table (table/filter_block.cc): one Bloom filter for every 2 KB of the file,
 followed by the offsets of the filters. Keys are added while the data block they belong to is
 being filled; a reader asks with the offset of a data block.
 */
module FilterBlock {
  import opened Crc32c
  import opened Coding
  import opened Bloom

  const FILTER_BASE_LG: nat := 11
  const FILTER_BASE: nat := 2048

  datatype Policy = Policy(hash: Key -> Hash32, bitsPerKey: nat) {
    /** The filter of a group of keys; groups without keys have empty filters. */
    ghost predicate IsFilter(keys: seq<Key>, filter: seq<Byte>) {
      if keys == [] then filter == [] else IsFilterOf(hash, keys, NumProbes(bitsPerKey), filter)
    }
  }

  // ----- groups of keys and their filters

  /** Where filter `i` ends. */
  function LimitOf(offsets: seq<nat>, i: nat, end: nat): nat
    requires i < |offsets|
  {
    if i + 1 < |offsets| then offsets[i + 1] else end
  }

  ghost predicate IsSlice(result: seq<Byte>, start: nat, limit: nat) {
    start <= limit <= |result|
  }

  /** `result` holds one filter for every group, `offsets` says where each begins. */
  ghost predicate Holds(policy: Policy, groups: seq<seq<Key>>, offsets: seq<nat>, result: seq<Byte>) {
    && |groups| == |offsets|
    && (forall i {:trigger groups[i]} :: 0 <= i < |groups| ==>
       GroupHolds(policy, groups[i], result, offsets[i], LimitOf(offsets, i, |result|)))
  }

  ghost predicate GroupHolds(policy: Policy, keys: seq<Key>, result: seq<Byte>, start: nat, limit: nat) {
    IsSlice(result, start, limit) && policy.IsFilter(keys, result[start..limit])
  }

  ghost predicate MatchesSlice(policy: Policy, key: Key, result: seq<Byte>, start: nat, limit: nat) {
    IsSlice(result, start, limit) && MayMatch(policy.hash, key, result[start..limit])
  }

  lemma HoldsOneMore(policy: Policy, groups: seq<seq<Key>>, offsets: seq<nat>, result: seq<Byte>, keys: seq<Key>,
                     filter: seq<Byte>)
    requires Holds(policy, groups, offsets, result) && policy.IsFilter(keys, filter)
    ensures Holds(policy, groups + [keys], offsets + [|result|], result + filter)
  {
    hide Policy.IsFilter;
    var groups', offsets', result' := groups + [keys], offsets + [|result|], result + filter;
    forall i | 0 <= i < |groups'|
      ensures GroupHolds(policy, groups'[i], result', offsets'[i], LimitOf(offsets', i, |result'|))
    {
      if i < |groups| {
        assert GroupHolds(policy, groups[i], result, offsets[i], LimitOf(offsets, i, |result|));
        assert LimitOf(offsets', i, |result'|) == LimitOf(offsets, i, |result|);
        assert result'[offsets[i]..LimitOf(offsets, i, |result|)] == result[offsets[i]..LimitOf(offsets, i, |result|)];
      } else {
        assert result'[|result|..|result'|] == filter;
        assert LimitOf(offsets', i, |result'|) == |result'|;
      }
    }
  }

  // ----- flattened keys

  function EndOf(start: seq<nat>, i: nat, end: nat): nat
    requires i < |start|
  {
    if i + 1 < |start| then start[i + 1] else end
  }

  /** `flat` is all of `keys`, one after the other; `start` says where each begins. */
  ghost predicate IsFlat(keys: seq<Key>, flat: seq<Byte>, start: seq<nat>) {
    && |keys| == |start|
    && (forall i {:trigger keys[i]} :: 0 <= i < |keys| ==>
          start[i] <= EndOf(start, i, |flat|) <= |flat| && flat[start[i]..EndOf(start, i, |flat|)] == keys[i])
  }

  lemma FlatOneMore(keys: seq<Key>, flat: seq<Byte>, start: seq<nat>, key: Key)
    requires IsFlat(keys, flat, start)
    ensures IsFlat(keys + [key], flat + key, start + [|flat|])
  {
    var keys', flat', start' := keys + [key], flat + key, start + [|flat|];
    forall i | 0 <= i < |keys'|
      ensures start'[i] <= EndOf(start', i, |flat'|) <= |flat'|
      ensures flat'[start'[i]..EndOf(start', i, |flat'|)] == keys'[i]
    {
      if i < |keys| {
        assert keys'[i] == keys[i] && EndOf(start', i, |flat'|) == EndOf(start, i, |flat|);
        assert flat'[start[i]..EndOf(start, i, |flat|)] == flat[start[i]..EndOf(start, i, |flat|)];
      } else {
        assert flat'[|flat|..] == key;
      }
    }
  }

  lemma FlatOfNothing(keys: seq<Key>, flat: seq<Byte>, start: seq<nat>)
    requires IsFlat(keys, flat, start)
    ensures start == [] <==> keys == []
  {
  }

  // ----- what was added

  datatype Added = Added(blockOffset: nat, key: Key)

  /** Every key went to the group of its block's offset, the last group being still open. */
  ghost predicate Grouped(log: seq<Added>, groups: seq<seq<Key>>, pending: seq<Key>) {
    forall a :: a in log ==> InGroup(a, groups, pending)
  }

  ghost predicate InGroup(a: Added, groups: seq<seq<Key>>, pending: seq<Key>) {
    var i := a.blockOffset / FILTER_BASE;
    i <= |groups| && a.key in (groups + [pending])[i]
  }

  // ----- the finished block

  function Contents(offsets: seq<nat>, result: seq<Byte>): (r: seq<Byte>) {
    result + FixedArray(offsets) + Fixed(|result|, 4) + [ToByte(FILTER_BASE_LG)]
  }

  class FilterBlockBuilder {
    const policy: Policy
    var keys: seq<Byte>
    var start: seq<nat>
    var result: seq<Byte>
    var filterOffsets: seq<nat>
    ghost var groups: seq<seq<Key>>
    ghost var pending: seq<Key>
    ghost var log: seq<Added>

    ghost predicate Valid()
      reads this
    {
      && IsFlat(pending, keys, start)
      && Holds(policy, groups, filterOffsets, result)
      && Grouped(log, groups, pending)
    }

    constructor (policy: Policy)
      ensures Valid() && this.policy == policy
      ensures filterOffsets == [] && log == [] && groups == [] && pending == []
    {
      this.policy := policy;
      keys, start, result, filterOffsets := [], [], [], [];
      groups, pending, log := [], [], [];
    }

    /** A data block begins at `blockOffset`: close the groups before the one it belongs to. */
    method StartBlock(blockOffset: nat)
      requires Valid() && |filterOffsets| <= blockOffset / FILTER_BASE
      modifies this
      ensures Valid() && log == old(log) && |filterOffsets| == blockOffset / FILTER_BASE
    {
      var filterIndex := blockOffset / FILTER_BASE;
      while filterIndex > |filterOffsets|
        invariant Valid() && log == old(log) && |filterOffsets| <= filterIndex
      {
        GenerateFilter();
      }
    }

    /** The key belongs to the data block at `blockOffset`, the last one started. */
    method AddKey(key: Key, ghost blockOffset: nat)
      requires Valid() && |filterOffsets| == blockOffset / FILTER_BASE
      modifies this
      ensures Valid() && log == old(log) + [Added(blockOffset, key)]
      ensures filterOffsets == old(filterOffsets)
    {
      FlatOneMore(pending, keys, start, key);
      KeyJoinsGroup(log, groups, pending, Added(blockOffset, key));
      start := start + [|keys|];
      keys := keys + key;
      pending := pending + [key];
      log := log + [Added(blockOffset, key)];
    }

    method GenerateFilter()
      requires Valid()
      modifies this
      ensures Valid() && log == old(log)
      ensures |filterOffsets| == |old(filterOffsets)| + 1 && pending == [] && start == []
    {
      hide Grouped;
      GroupCloses(log, groups, pending);
      if start == [] {
        assert pending == [] && policy.IsFilter([], []);
        HoldsOneMore(policy, groups, filterOffsets, result, [], []);
        assert result + [] == result;
        filterOffsets := filterOffsets + [|result|];
        groups := groups + [[]];
        return;
      }
      var tmpKeys := ListOfKeys();
      var filter := CreateFilter(policy.hash, tmpKeys, policy.bitsPerKey);
      HoldsOneMore(policy, groups, filterOffsets, result, pending, filter);
      filterOffsets := filterOffsets + [|result|];
      result := result + filter;
      groups := groups + [pending];
      pending, keys, start := [], [], [];
    }

    /** Slices of the flattened keys. */
    method ListOfKeys() returns (tmpKeys: seq<Key>)
      requires IsFlat(pending, keys, start)
      ensures tmpKeys == pending
    {
      tmpKeys := [];
      for i := 0 to |start|
        invariant tmpKeys == pending[..i]
      {
        ghost var next := pending[i];
        tmpKeys := tmpKeys + [keys[start[i]..EndOf(start, i, |keys|)]];
      }
    }

    /** Close the last group and append the offsets. */
    method Finish() returns (contents: seq<Byte>)
      requires Valid()
      modifies this
      ensures Valid() && log == old(log) && pending == []
      ensures contents == Contents(filterOffsets, result)
    {
      hide Holds, Grouped, IsFlat, Fixed, ToByte, FixedArray;
      if start != [] {
        GenerateFilter();
      } else {
        FlatOfNothing(pending, keys, start);
      }
      contents := AppendOffsets();
      contents := contents + Fixed(|result|, 4) + [ToByte(FILTER_BASE_LG)];
    }

    method AppendOffsets() returns (contents: seq<Byte>)
      ensures contents == result + FixedArray(filterOffsets)
    {
      hide Fixed;
      contents := result;
      for i := 0 to |filterOffsets|
        invariant contents == result + FixedArray(filterOffsets[..i])
      {
        assert filterOffsets[..i + 1][..i] == filterOffsets[..i];
        contents := contents + Fixed(filterOffsets[i], 4);
      }
      assert filterOffsets[..|filterOffsets|] == filterOffsets;
    }
  }

  lemma KeyJoinsGroup(log: seq<Added>, groups: seq<seq<Key>>, pending: seq<Key>, a: Added)
    requires Grouped(log, groups, pending) && a.blockOffset / FILTER_BASE == |groups|
    ensures Grouped(log + [a], groups, pending + [a.key])
  {
    forall b | b in log + [a]
      ensures InGroup(b, groups, pending + [a.key])
    {
      assert b in log || b == a;
      assert b in log ==> InGroup(b, groups, pending);
    }
  }

  lemma GroupCloses(log: seq<Added>, groups: seq<seq<Key>>, pending: seq<Key>)
    requires Grouped(log, groups, pending)
    ensures Grouped(log, groups + [pending], [])
  {
    forall a | a in log
      ensures InGroup(a, groups + [pending], [])
    {
      assert InGroup(a, groups, pending);
    }
  }

  // ----- reading

  class FilterBlockReader {
    const policy: Policy
    const data: seq<Byte>
    const offset: nat
    const num: nat
    const baseLg: nat

    ghost predicate Valid() {
      num > 0 ==> offset + 4 * num + 5 <= |data|
    }

    constructor (policy: Policy, contents: seq<Byte>)
      ensures Valid() && this.policy == policy
      ensures forall offsets, result :: contents == Contents(offsets, result) && |result| < TWO32 ==>
                data == contents && offset == |result| && num == |offsets| && baseLg == FILTER_BASE_LG
    {
      hide ToByte, FromByte, Fixed, GetFixed, FixedArray;
      this.policy := policy;
      var n := |contents|;
      var lg, lastWord := 0, 0;
      data, offset, num, baseLg := [], 0, 0, 0;
      if n >= 5 {
        baseLg := FromByte(contents[n - 1]);
        lastWord := GetFixed(contents, n - 5, 4);
        if lastWord <= n - 5 {
          data := contents;
          offset := lastWord;
          num := (n - 5 - lastWord) / 4;
        }
      }
      new;
      forall offsets, result | contents == Contents(offsets, result) && |result| < TWO32
        ensures data == contents && offset == |result| && num == |offsets| && baseLg == FILTER_BASE_LG
      {
        TrailerRoundTrip(offsets, result);
      }
    }

    function IndexOf(blockOffset: nat): nat {
      blockOffset / Power(2, baseLg)
    }

    /** Malformed offsets count as matches, empty filters match nothing. */
    method KeyMayMatch(blockOffset: nat, key: Key) returns (r: bool)
      requires Valid()
      ensures r <==> Answer(blockOffset, key)
    {
      hide IndexOf, GetFixed, MayMatch;
      var index := IndexOf(blockOffset);
      if index < num {
        var start := GetFixed(data, offset + index * 4, 4);
        var limit := GetFixed(data, offset + index * 4 + 4, 4);
        if start <= limit && limit <= offset {
          r := Bloom.KeyMayMatch(policy.hash, key, data[start..limit]);
          return;
        } else if start == limit {
          return false;
        }
      }
      r := true;
    }

    ghost predicate Answer(blockOffset: nat, key: Key)
      requires Valid()
    {
      var index := IndexOf(blockOffset);
      index < num ==>
        var start := GetFixed(data, offset + index * 4, 4);
        var limit := GetFixed(data, offset + index * 4 + 4, 4);
        if start <= limit && limit <= offset then MayMatch(policy.hash, key, data[start..limit]) else start != limit
    }
  }

  lemma TrailerRoundTrip(offsets: seq<nat>, result: seq<Byte>)
    requires |result| < TWO32
    ensures var c := Contents(offsets, result);
            && |c| == |result| + 4 * |offsets| + 5
            && FromByte(c[|c| - 1]) == FILTER_BASE_LG && GetFixed(c, |c| - 5, 4) == |result|
  {
    hide ToByte, FromByte, Fixed, GetFixed, FixedArray;
    var front := result + FixedArray(offsets);
    AtAfter(front, Fixed(|result|, 4), [ToByte(FILTER_BASE_LG)]);
    Powers();
    FixedRoundTrip(Contents(offsets, result), |front|, |result|, 4);
    ByteRoundTrip(FILTER_BASE_LG);
  }

  /** Entry `i` of the offset array; the word after the last one says where the array begins. */
  lemma OffsetRoundTrip(offsets: seq<nat>, result: seq<Byte>, i: nat)
    requires |result| < TWO32 && i <= |offsets|
    requires i < |offsets| ==> offsets[i] <= |result|
    ensures var x := if i < |offsets| then offsets[i] else |result|;
            var c := Contents(offsets, result);
            |result| + 4 * i + 4 <= |c| && GetFixed(c, |result| + 4 * i, 4) == x
  {
    hide ToByte, FromByte, Fixed, GetFixed, FixedArray, At;
    Powers();
    TrailerRoundTrip(offsets, result);
    if i < |offsets| {
      FixedArrayAt(offsets, i);
      var tail := Fixed(|result|, 4) + [ToByte(FILTER_BASE_LG)];
      AtInside(result, FixedArray(offsets), tail, 4 * i, Fixed(offsets[i], 4));
      assert result + FixedArray(offsets) + tail == Contents(offsets, result);
      FixedRoundTrip(Contents(offsets, result), |result| + 4 * i, offsets[i], 4);
    }
  }

  /**
   What the reader answers on a finished block: a group that was never closed matches everything,
   any other group exactly what its filter matches.
   */
  lemma AnswerOnFinished(reader: FilterBlockReader, groups: seq<seq<Key>>, offsets: seq<nat>, result: seq<Byte>,
                         blockOffset: nat, key: Key)
    requires reader.Valid() && Holds(reader.policy, groups, offsets, result) && |result| < TWO32
    requires reader.data == Contents(offsets, result) && reader.offset == |result|
    requires reader.num == |offsets| && reader.baseLg == FILTER_BASE_LG
    ensures var i := blockOffset / FILTER_BASE;
            reader.Answer(blockOffset, key) <==>
              i < |groups| ==> MatchesSlice(reader.policy, key, result, offsets[i], LimitOf(offsets, i, |result|))
  {
    hide ToByte, FromByte, Fixed, GetFixed, FixedArray, MayMatch, Policy.IsFilter;
    assert Power(2, 5) == 32 && Power(2, 11) == 2048;
    var i := blockOffset / FILTER_BASE;
    if i < |groups| {
      assert GroupHolds(reader.policy, groups[i], result, offsets[i], LimitOf(offsets, i, |result|));
      if i + 1 < |groups| {
        assert GroupHolds(reader.policy, groups[i + 1], result, offsets[i + 1], LimitOf(offsets, i + 1, |result|));
      }
      OffsetRoundTrip(offsets, result, i);
      OffsetRoundTrip(offsets, result, i + 1);
      var start, limit := offsets[i], LimitOf(offsets, i, |result|);
      assert reader.data[start..limit] == result[start..limit];
    }
  }

  /** No false negatives: a key added while the block at an offset was filled may match there. */
  lemma NoFalseNegatives(reader: FilterBlockReader, log: seq<Added>, groups: seq<seq<Key>>, offsets: seq<nat>,
                         result: seq<Byte>, a: Added)
    requires reader.Valid() && Holds(reader.policy, groups, offsets, result) && |result| < TWO32
    requires reader.data == Contents(offsets, result) && reader.offset == |result|
    requires reader.num == |offsets| && reader.baseLg == FILTER_BASE_LG
    requires Grouped(log, groups, []) && a in log
    ensures reader.Answer(a.blockOffset, a.key)
  {
    hide Contents, MayMatch, IsFilterOf, FilterBlockReader.Answer;
    var i := a.blockOffset / FILTER_BASE;
    AnswerOnFinished(reader, groups, offsets, result, a.blockOffset, a.key);
    assert InGroup(a, groups, []);
    if i < |groups| {
      var keys := groups[i];
      assert GroupHolds(reader.policy, keys, result, offsets[i], LimitOf(offsets, i, |result|));
      var j :| 0 <= j < |keys| && keys[j] == a.key;
      EveryKeyMatches(reader.policy.hash, keys, NumProbes(reader.policy.bitsPerKey),
          result[offsets[i]..LimitOf(offsets, i, |result|)], j);
    }
  }

  /** Build, finish, read: what a table does with its keys, block by block. */
  method FilterRoundTrip(policy: Policy, blocks: seq<(nat, seq<Key>)>, blockOffset: nat,
                         key: Key) returns (contents: seq<Byte>, r: bool)
    requires forall i, j :: 0 <= i < j < |blocks| ==> blocks[i].0 <= blocks[j].0
    ensures |contents| < TWO32 && (exists b :: b in blocks && b.0 == blockOffset && key in b.1) ==> r
  {
    hide FilterBlockReader.Answer, Grouped, Holds, IsFlat;
    var builder := new FilterBlockBuilder(policy);
    for i := 0 to |blocks|
      invariant fresh(builder) && builder.Valid() && builder.policy == policy
      invariant i > 0 ==> |builder.filterOffsets| == blocks[i - 1].0 / FILTER_BASE
      invariant i == 0 ==> builder.filterOffsets == []
      invariant forall b, k {:trigger b in blocks[..i], Added(b.0, k)} :: b in blocks[..i] && k in b.1 ==>
                Added(b.0, k) in builder.log
    {
      builder.StartBlock(blocks[i].0);
      AddKeys(builder, blocks[i].0, blocks[i].1);
      assert blocks[..i + 1] == blocks[..i] + [blocks[i]];
    }
    assert blocks[..|blocks|] == blocks;
    contents := builder.Finish();
    var reader := new FilterBlockReader(policy, contents);
    r := reader.KeyMayMatch(blockOffset, key);
    if |contents| < TWO32 && (exists b :: b in blocks && b.0 == blockOffset && key in b.1) {
      assert Added(blockOffset, key) in builder.log;
      NoFalseNegatives(reader, builder.log, builder.groups, builder.filterOffsets, builder.result,
          Added(blockOffset, key));
    }
  }

  /** All keys of one data block. */
  method AddKeys(builder: FilterBlockBuilder, blockOffset: nat, keys: seq<Key>)
    requires builder.Valid() && |builder.filterOffsets| == blockOffset / FILTER_BASE
    modifies builder
    ensures builder.Valid() && builder.filterOffsets == old(builder.filterOffsets)
    ensures forall a :: a in old(builder.log) ==> a in builder.log
    ensures forall k :: k in keys ==> Added(blockOffset, k) in builder.log
  {
    hide Grouped, Holds, IsFlat;
    for j := 0 to |keys|
      invariant builder.Valid() && builder.filterOffsets == old(builder.filterOffsets)
      invariant forall a :: a in old(builder.log) ==> a in builder.log
      invariant forall k :: k in keys[..j] ==> Added(blockOffset, k) in builder.log
    {
      builder.AddKey(keys[j], blockOffset);
      assert keys[..j + 1] == keys[..j] + [keys[j]];
    }
  }
}
