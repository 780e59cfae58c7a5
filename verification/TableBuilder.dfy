/**
 Building a sorted table (table/table_builder.cc): pairs go to data blocks, and the index entry of a
 block waits for the first key of the next one, so that its key can be shortened.
 */
module TableBuilders {
  import opened Optional
  import opened Crc32c
  import opened Coding
  import opened BlockFormat
  import opened ByteKeys
  import opened TableFormat
  import F = FilterBlock

  // ----- the state of a builder, as values

  /** The finished blocks and the open one, if it has pairs. */
  function WithOpen(blocks: seq<DataBlock>, data: Layout): seq<DataBlock> {
    if data.pairs == [] then blocks else blocks + [DataBlock(data, [], 0)]
  }

  /** Every finished block has its index entry, but for the last one while it is pending. */
  ghost predicate IndexSoFar(blocks: seq<DataBlock>, data: Layout, index: seq<Pair>, pending: bool) {
    && (if pending then data.pairs == [] && blocks != [] else data.pairs == [] ==> blocks == [])
    && |index| + (if pending then 1 else 0) == |blocks|
    && (forall i {:trigger index[i]} :: 0 <= i < |index| ==> IndexEntryOk(WithOpen(blocks, data), index[i], i))
  }

  /** `key` is the last one added. */
  ghost predicate IsLastKey(blocks: seq<DataBlock>, data: seq<Pair>, key: Bytes) {
    if data != [] then data[|data| - 1].key == key
    else blocks != [] ==> blocks[|blocks| - 1].Pairs() != [] && blocks[|blocks| - 1].LastKey() == key
  }

  lemma IndexEntryAdded(blocks: seq<DataBlock>, data: Layout, data': Layout, index: seq<Pair>, lastKey: Bytes,
                        r: Bytes, e: Pair)
    requires IndexSoFar(blocks, data, index, true) && IsLastKey(blocks, data.pairs, lastKey)
    requires SeparatesFrom(lastKey, r, e.key) && data'.pairs == [e]
    ensures IndexSoFar(blocks, data', index + [Pair(r, HandleBytes(blocks[|blocks| - 1].Handle()))], false)
  {
    hide Separates, SeparatesFrom, HandleBytes;
    var index' := index + [Pair(r, HandleBytes(blocks[|blocks| - 1].Handle()))];
    SeparatesToo(lastKey, r, e.key);
    forall i | 0 <= i < |index'|
      ensures IndexEntryOk(WithOpen(blocks, data'), index'[i], i)
    {
      if i < |index| {
        assert IndexEntryOk(WithOpen(blocks, data), index[i], i);
      }
    }
  }

  lemma SeparatesToo(last: Bytes, r: Bytes, next: Bytes)
    requires SeparatesFrom(last, r, next)
    ensures Separates(last, r)
  {
  }

  lemma PairAdded(blocks: seq<DataBlock>, data: Layout, data': Layout, index: seq<Pair>, e: Pair)
    requires IndexSoFar(blocks, data, index, false) && data'.pairs == data.pairs + [e]
    ensures IndexSoFar(blocks, data', index, false)
  {
    hide Separates, SeparatesFrom, HandleBytes;
    forall i | 0 <= i < |index|
      ensures IndexEntryOk(WithOpen(blocks, data'), index[i], i)
    {
      assert IndexEntryOk(WithOpen(blocks, data), index[i], i);
    }
  }

  lemma BlockClosed(blocks: seq<DataBlock>, data: Layout, empty: Layout, index: seq<Pair>, b: DataBlock)
    requires IndexSoFar(blocks, data, index, false) && data.pairs != [] && empty.pairs == [] && b.layout == data
    ensures IndexSoFar(blocks + [b], empty, index, true)
  {
    hide Separates, SeparatesFrom, HandleBytes;
    forall i | 0 <= i < |index|
      ensures IndexEntryOk(WithOpen(blocks + [b], empty), index[i], i)
    {
      assert IndexEntryOk(WithOpen(blocks, data), index[i], i);
    }
  }

  lemma LastEntryAdded(blocks: seq<DataBlock>, data: Layout, index: seq<Pair>, lastKey: Bytes, r: Bytes)
    requires IndexSoFar(blocks, data, index, true) && IsLastKey(blocks, data.pairs, lastKey) && Separates(lastKey, r)
    ensures IndexOk(blocks, index + [Pair(r, HandleBytes(blocks[|blocks| - 1].Handle()))])
  {
    hide Separates, SeparatesFrom, HandleBytes;
    var index' := index + [Pair(r, HandleBytes(blocks[|blocks| - 1].Handle()))];
    forall i | 0 <= i < |index'|
      ensures IndexEntryOk(blocks, index'[i], i)
    {
      if i < |index| {
        assert IndexEntryOk(WithOpen(blocks, data), index[i], i);
      }
    }
  }

  /** Index keys ascend. */
  lemma NextSeparatorAscends(blocks: seq<DataBlock>, file: Bytes, data: Layout, index: seq<Pair>, lastKey: Bytes,
                             r: Bytes)
    requires BlocksOk(blocks, file) && IndexSoFar(blocks, data, index, true) && IsLastKey(blocks, data.pairs, lastKey)
    requires Separates(lastKey, r)
    ensures index == [] || InternalLess(index[|index| - 1].key, r)
  {
    hide InternalLess, HandleBytes, IsBlock, At;
    OrderOfInternalKeys();
    SeparatorIsAbove(lastKey, r);
    var b := blocks[|blocks| - 1];
    assert b.StoredIn(file);
    if index != [] {
      var i := |index| - 1;
      assert IndexEntryOk(WithOpen(blocks, data), index[i], i);
      assert |b.Pairs()| > 1 ==> InternalLess(b.Pairs()[0].key, b.Pairs()[|b.Pairs()| - 1].key);
      assert lastKey == r || InternalLess(lastKey, r);
    }
  }

  /** The index is complete up to a pair that is about to be added. */
  ghost predicate IndexReady(blocks: seq<DataBlock>, data: Layout, index: seq<Pair>, e: Pair) {
    forall data': Layout :: data'.pairs == data.pairs + [e] ==> IndexSoFar(blocks, data', index, false)
  }

  lemma ReadyAfterPending(blocks: seq<DataBlock>, data: Layout, index: seq<Pair>, lastKey: Bytes, r: Bytes, e: Pair)
    requires IndexSoFar(blocks, data, index, true) && IsLastKey(blocks, data.pairs, lastKey)
    requires SeparatesFrom(lastKey, r, e.key)
    ensures IndexReady(blocks, data, index + [Pair(r, HandleBytes(blocks[|blocks| - 1].Handle()))], e)
  {
    forall data': Layout | data'.pairs == data.pairs + [e]
      ensures IndexSoFar(blocks, data', index + [Pair(r, HandleBytes(blocks[|blocks| - 1].Handle()))], false)
    {
      IndexEntryAdded(blocks, data, data', index, lastKey, r, e);
    }
  }

  lemma ReadyAlready(blocks: seq<DataBlock>, data: Layout, index: seq<Pair>, e: Pair)
    requires IndexSoFar(blocks, data, index, false)
    ensures IndexReady(blocks, data, index, e)
  {
    forall data': Layout | data'.pairs == data.pairs + [e]
      ensures IndexSoFar(blocks, data', index, false)
    {
      PairAdded(blocks, data, data', index, e);
    }
  }

  lemma LoggedGrows(blocks: seq<DataBlock>, pairs: seq<Pair>, offset: nat, log: seq<F.Added>, e: Pair)
    requires Logged(blocks, log) && PairsLogged(pairs, offset, log)
    ensures Logged(blocks, log + [F.Added(offset, e.key)])
    ensures PairsLogged(pairs + [e], offset, log + [F.Added(offset, e.key)])
  {
    var log' := log + [F.Added(offset, e.key)];
    assert forall a :: a in log ==> a in log';
    assert log'[|log|] == F.Added(offset, e.key);
    forall i | 0 <= i < |blocks|
      ensures PairsLogged(blocks[i].Pairs(), blocks[i].offset, log')
    {
      assert PairsLogged(blocks[i].Pairs(), blocks[i].offset, log);
    }
    forall p | 0 <= p < |pairs + [e]|
      ensures F.Added(offset, (pairs + [e])[p].key) in log'
    {
      assert p < |pairs| ==> pairs[p] == (pairs + [e])[p];
    }
  }

  lemma LoggedBlock(blocks: seq<DataBlock>, b: DataBlock, log: seq<F.Added>)
    requires Logged(blocks, log) && PairsLogged(b.Pairs(), b.offset, log)
    ensures Logged(blocks + [b], log)
  {
    forall i | 0 <= i < |blocks + [b]|
      ensures PairsLogged((blocks + [b])[i].Pairs(), (blocks + [b])[i].offset, log)
    {
      assert i < |blocks| ==> (blocks + [b])[i] == blocks[i];
    }
  }

  lemma BlocksInside(blocks: seq<DataBlock>, file: Bytes)
    requires BlocksOk(blocks, file)
    ensures forall i {:trigger blocks[i]} :: 0 <= i < |blocks| ==> blocks[i].offset < |file|
  {
    hide InternalLess, IsBlock, SortedPairs, InternalPairs;
    forall i | 0 <= i < |blocks|
      ensures blocks[i].offset < |file|
    {
      assert blocks[i].StoredIn(file);
    }
  }

  lemma StoredToo(blocks: seq<DataBlock>, file: Bytes, b: DataBlock)
    requires BlocksOk(blocks, file) && OffsetsAscend(blocks)
    requires b.offset == |file| && IsBlock(b.layout, b.contents) && b.Pairs() != []
    requires SortedPairs(InternalLess, b.Pairs()) && InternalPairs(b.Pairs())
    ensures BlocksOk(blocks + [b], file + StoredBlock(b.contents))
    ensures Entries(blocks + [b]) == Entries(blocks) + b.Pairs() && OffsetsAscend(blocks + [b])
  {
    hide InternalLess, IsBlock, StoredBlock, At, SortedPairs, InternalPairs;
    BlocksGrow(blocks, file, StoredBlock(b.contents));
    BlocksInside(blocks, file);
    AtAfter(file, StoredBlock(b.contents), []);
    assert file + StoredBlock(b.contents) + [] == file + StoredBlock(b.contents);
    assert (blocks + [b])[..|blocks|] == blocks;
  }

  lemma PendingFacts(blocks: seq<DataBlock>, data: Layout, index: seq<Pair>)
    ensures IndexSoFar(blocks, data, index, true) ==> blocks != [] && data.pairs == []
  {
  }

  lemma NothingInternal()
    ensures InternalPairs([])
  {
  }

  lemma StillInternal(pairs: seq<Pair>, e: Pair)
    requires InternalPairs(pairs) && IsInternal(e.key)
    ensures InternalPairs(pairs + [e])
  {
  }

  // ----- the builder

  class TableBuilder {
    const blockSize: nat
    const filterName: Bytes
    const dataBlock: BlockBuilder
    const indexBlock: BlockBuilder
    const filterBlock: F.FilterBlockBuilder?
    var file: Bytes
    var offset: nat
    var lastKey: Bytes
    var numEntries: nat
    var closed: bool
    var pendingIndexEntry: bool
    var pendingHandle: BlockHandle
    ghost var blocks: seq<DataBlock>

    ghost function Repr(): set<object> {
      {this, dataBlock, indexBlock} + if filterBlock == null then {} else {filterBlock}
    }

    ghost predicate Separate() {
      dataBlock != indexBlock
    }

    ghost predicate BuildersOk()
      reads dataBlock, indexBlock
    {
      && dataBlock.Valid() && dataBlock.less == InternalLess && dataBlock.restartInterval >= 1 && !dataBlock.finished
      && indexBlock.Valid() && indexBlock.less == InternalLess && indexBlock.restartInterval >= 1
      && !indexBlock.finished
    }

    ghost predicate FilterOk()
      reads this, dataBlock, filterBlock
    {
      filterBlock != null ==>
        && filterBlock.Valid() && |filterBlock.filterOffsets| == offset / F.FILTER_BASE
        && Logged(blocks, filterBlock.log) && PairsLogged(dataBlock.layout.pairs, offset, filterBlock.log)
    }

    ghost predicate ContentsOk()
      reads this, dataBlock
    {
      && offset == |file| && BlocksOk(blocks, file) && OffsetsAscend(blocks) && InternalPairs(dataBlock.layout.pairs)
      && IsLastKey(blocks, dataBlock.layout.pairs, lastKey)
      && (numEntries == 0 <==> blocks == [] && dataBlock.layout.pairs == [])
      && (numEntries > 0 ==> IsInternal(lastKey))
    }

    ghost predicate IndexPart()
      reads this, dataBlock, indexBlock
    {
      && IndexSoFar(blocks, dataBlock.layout, indexBlock.layout.pairs, pendingIndexEntry)
      && (pendingIndexEntry ==> pendingHandle == blocks[|blocks| - 1].Handle())
    }

    ghost predicate Valid()
      reads Repr()
    {
      Separate() && BuildersOk() && FilterOk() && ContentsOk() && IndexPart()
    }

    /** All pairs added so far. */
    ghost function Added(): seq<Pair>
      reads this, dataBlock
    {
      Entries(blocks) + dataBlock.layout.pairs
    }

    constructor (restartInterval: nat, blockSize: nat, policy: Option<F.Policy>, filterName: Bytes)
      requires restartInterval >= 1
      ensures Valid() && !closed && Added() == [] && numEntries == 0 && fresh(Repr())
      ensures this.filterName == filterName && this.blockSize == blockSize
      ensures filterBlock == null <==> policy.None?
      ensures filterBlock != null ==> filterBlock.policy == InternalPolicy(policy.value)
    {
      hide BlockBuilder.Valid, F.FilterBlockBuilder.Valid, IndexSoFar, BlocksOk, OffsetsAscend, Logged, PairsLogged;
      hide Entries, InternalPairs, InternalLess;
      this.blockSize, this.filterName := blockSize, filterName;
      dataBlock := new BlockBuilder(InternalLess, restartInterval);
      indexBlock := new BlockBuilder(InternalLess, 1);
      var filter := StartFilter(policy);
      filterBlock := filter;
      file, offset, lastKey, numEntries := [], 0, [], 0;
      closed, pendingIndexEntry, pendingHandle := false, false, BlockHandle(0, 0);
      blocks := [];
      new;
      NothingYet(dataBlock.layout, if filterBlock == null then [] else filterBlock.log);
    }

    /** Add a pair above all before it. */
    method Add(key: Bytes, value: Bytes)
      requires Valid() && !closed && IsInternal(key) && (numEntries > 0 ==> InternalLess(lastKey, key))
      modifies Repr()
      ensures Valid() && !closed && Added() == old(Added()) + [Pair(key, value)]
      ensures numEntries == old(numEntries) + 1 && lastKey == key
    {
      hide IndexSoFar, BlocksOk, OffsetsAscend, InternalLess, SortedPairs, Logged, PairsLogged, InternalPairs, Entries;
      hide IndexReady;
      hide BlockBuilder.Valid, F.FilterBlockBuilder.Valid;
      SettleIndex(key, value);
      PutPair(key, value);
      var estimatedBlockSize := dataBlock.CurrentSizeEstimate();
      if estimatedBlockSize >= blockSize {
        Flush();
      }
    }

    /** The pending index entry gets a key between the finished block and the pair to come. */
    method SettleIndex(key: Bytes, ghost value: Bytes)
      requires Valid() && IsInternal(key) && (numEntries > 0 ==> InternalLess(lastKey, key))
      modifies this`pendingIndexEntry, this`lastKey, indexBlock
      ensures BuildersOk() && !pendingIndexEntry
      ensures IndexReady(blocks, dataBlock.layout, indexBlock.layout.pairs, Pair(key, value))
      ensures dataBlock.layout.pairs != [] ==> lastKey == old(lastKey)
    {
      hide IndexSoFar, IsLastKey, BlocksOk, Entries, InternalLess, HandleBytes, SortedPairs, Separates, SeparatesFrom;
      hide IndexReady;
      hide BlockBuilder.Valid, TableBuilder.FilterOk;
      if !pendingIndexEntry {
        ReadyAlready(blocks, dataBlock.layout, indexBlock.layout.pairs, Pair(key, value));
        return;
      }
      PendingFacts(blocks, dataBlock.layout, indexBlock.layout.pairs);
      var r := FindInternalSeparator(lastKey, key);
      SeparatesToo(lastKey, r, key);
      ReadyAfterPending(blocks, dataBlock.layout, indexBlock.layout.pairs, lastKey, r, Pair(key, value));
      NextSeparatorAscends(blocks, file, dataBlock.layout, indexBlock.layout.pairs, lastKey, r);
      lastKey := r;
      AddToBlock(indexBlock, r, HandleBytes(pendingHandle));
      pendingIndexEntry := false;
    }

    /** The pair goes to the filter and to the open block. */
    method PutPair(key: Bytes, value: Bytes)
      requires Separate() && BuildersOk() && FilterOk() && !pendingIndexEntry && IsInternal(key)
      requires offset == |file| && BlocksOk(blocks, file) && OffsetsAscend(blocks)
      requires InternalPairs(dataBlock.layout.pairs)
      requires dataBlock.layout.pairs != [] ==>
               InternalLess(dataBlock.layout.pairs[|dataBlock.layout.pairs| - 1].key, key)
      requires IndexReady(blocks, dataBlock.layout, indexBlock.layout.pairs, Pair(key, value))
      modifies this`lastKey, this`numEntries, dataBlock, filterBlock
      ensures Valid() && dataBlock.layout.pairs == old(dataBlock.layout.pairs) + [Pair(key, value)]
      ensures numEntries == old(numEntries) + 1 && lastKey == key
    {
      hide IndexSoFar, BlocksOk, OffsetsAscend, InternalLess, SortedPairs, Logged, PairsLogged, InternalPairs;
      hide BlockBuilder.Valid, F.FilterBlockBuilder.Valid;
      StillInternal(dataBlock.layout.pairs, Pair(key, value));
      if filterBlock != null {
        LoggedGrows(blocks, dataBlock.layout.pairs, offset, filterBlock.log, Pair(key, value));
        filterBlock.AddKey(key, offset);
      }
      lastKey := key;
      numEntries := numEntries + 1;
      AddToBlock(dataBlock, key, value);
    }

    /** Close the open block, if it has pairs. */
    method Flush()
      requires Valid() && !closed
      modifies Repr()
      ensures Valid() && !closed && Added() == old(Added()) && dataBlock.layout.pairs == []
      ensures numEntries == old(numEntries) && lastKey == old(lastKey)
    {
      hide IndexSoFar, BlocksOk, OffsetsAscend, InternalLess, SortedPairs, Logged, PairsLogged, InternalPairs, Entries;
      hide IsBlock, StoredBlock;
      hide BlockBuilder.Valid, F.FilterBlockBuilder.Valid;
      dataBlock.EmptyWithoutPairs();
      if dataBlock.Empty() {
        return;
      }
      ghost var data := dataBlock.layout;
      DataFacts();
      PendingFacts(blocks, data, indexBlock.layout.pairs);
      NothingInternal();
      var contents := CloseBlock(dataBlock);
      ghost var b := DataBlock(data, contents, offset);
      StoredToo(blocks, file, b);
      BlockClosed(blocks, data, dataBlock.layout, indexBlock.layout.pairs, b);
      pendingHandle := WriteRawBlock(contents);
      pendingIndexEntry := true;
      blocks := blocks + [b];
      if filterBlock != null {
        LoggedBlock(old(blocks), b, filterBlock.log);
        OffsetGrows(old(offset), offset);
        NothingLogged(offset, filterBlock.log);
        filterBlock.StartBlock(offset);
      }
    }

    /** Write what is left: the last block, the filter, where it is, the index, and the footer. */
    method Finish() returns (ghost t: TableParts, ghost f: FilterParts)
      requires Valid() && !closed
      modifies Repr()
      ensures closed && IsTable(t, file) && Entries(t.blocks) == old(Added())
      ensures filterBlock == null ==> t.meta.pairs == []
      ensures filterBlock != null ==> HasFilter(t, file, filterBlock.policy, filterName, f)
    {
      hide BlockBuilder.Valid, F.FilterBlockBuilder.Valid, IndexSoFar, BlocksOk, OffsetsAscend, Logged, PairsLogged;
      hide Entries, InternalPairs, InternalLess;
      hide SortedPairs, IsTable, HasFilter, IsBlock, StoredBlock, FooterBytes, HandleBytes, IndexOk, F.Holds, F.Grouped;
      hide F.Contents, EntryBytes;
      Flush();
      closed := true;
      ghost var front := file;
      var filterHandle;
      ghost var piece: Bytes;
      filterHandle, f, piece := WriteFilter();
      var metaBlock := new BlockBuilder(InternalLess, dataBlock.restartInterval);
      if filterBlock != null {
        AddToBlock(metaBlock, FILTER_PREFIX + filterName, HandleBytes(filterHandle));
      }
      ghost var meta := metaBlock.layout;
      var metaContents := CloseBlock(metaBlock);
      var metaHandle := WriteRawBlock(metaContents);
      CompleteIndex(front);
      ghost var index := indexBlock.layout;
      var indexContents := CloseBlock(indexBlock);
      var indexHandle := WriteRawBlock(indexContents);
      t := TableParts(blocks, index, indexHandle, meta, metaHandle);
      TableComplete(t, front, piece, metaContents, indexContents);
      file := file + FooterBytes(metaHandle, indexHandle);
      offset := offset + FOOTER_LENGTH;
      if filterBlock != null {
        FilterComplete(t, front, piece, file, filterBlock.policy, filterName, f);
      }
    }

    /** The filter block, if there is a policy. */
    method WriteFilter() returns (handle: BlockHandle, ghost f: FilterParts, ghost piece: Bytes)
      requires filterBlock != null ==> filterBlock.Valid() && Logged(blocks, filterBlock.log)
      requires offset == |file|
      modifies this`file, this`offset, filterBlock
      ensures file == old(file) + piece && offset == |file|
      ensures filterBlock == null ==> piece == []
      ensures filterBlock != null ==>
                && handle == f.handle && f.handle == BlockHandle(old(offset), |F.Contents(f.offsets, f.result)|)
                && piece == StoredBlock(F.Contents(f.offsets, f.result))
                && F.Holds(filterBlock.policy, f.groups, f.offsets, f.result) && F.Grouped(f.log, f.groups, [])
                && Logged(blocks, f.log)
    {
      hide StoredBlock, F.Contents, F.Holds, F.Grouped, Logged;
      handle, piece := BlockHandle(0, 0), [];
      f := FilterParts(handle, [], [], [], []);
      if filterBlock != null {
        var contents := filterBlock.Finish();
        handle := WriteRawBlock(contents);
        piece := StoredBlock(contents);
        f := FilterParts(handle, filterBlock.groups, filterBlock.filterOffsets, filterBlock.result, filterBlock.log);
      }
    }

    /** The last block gets a short successor of its last key. */
    method CompleteIndex(ghost front: Bytes)
      requires indexBlock.Valid() && indexBlock.less == InternalLess && indexBlock.restartInterval >= 1
      requires !indexBlock.finished
      requires BlocksOk(blocks, front) && dataBlock.layout.pairs == [] && dataBlock != indexBlock
      requires IndexPart() && IsLastKey(blocks, [], lastKey) && (blocks != [] ==> IsInternal(lastKey))
      modifies this`lastKey, this`pendingIndexEntry, indexBlock
      ensures indexBlock.Valid() && !indexBlock.finished
      ensures IndexOk(blocks, indexBlock.layout.pairs) && SortedPairs(InternalLess, indexBlock.layout.pairs)
    {
      hide BlockBuilder.Valid, BlocksOk, InternalLess, SortedPairs, HandleBytes, IsLastKey, IndexSoFar, IndexOk;
      hide Separates;
      if pendingIndexEntry {
        PendingFacts(blocks, dataBlock.layout, indexBlock.layout.pairs);
        var r := FindInternalSuccessor(lastKey);
        LastEntryAdded(blocks, dataBlock.layout, indexBlock.layout.pairs, lastKey, r);
        NextSeparatorAscends(blocks, front, dataBlock.layout, indexBlock.layout.pairs, lastKey, r);
        lastKey := r;
        AddToBlock(indexBlock, r, HandleBytes(pendingHandle));
        pendingIndexEntry := false;
      } else {
        IndexOfNothing(blocks, dataBlock.layout, indexBlock.layout.pairs);
      }
      SortedIndex();
    }

    lemma SortedIndex()
      requires indexBlock.Valid() && indexBlock.less == InternalLess
      ensures SortedPairs(InternalLess, indexBlock.layout.pairs)
    {
    }

    lemma DataFacts()
      requires dataBlock.Valid()
      ensures SortedPairs(dataBlock.less, dataBlock.layout.pairs)
    {
    }

    method WriteRawBlock(contents: Bytes) returns (handle: BlockHandle)
      requires offset == |file|
      modifies this`file, this`offset
      ensures file == old(file) + StoredBlock(contents) && offset == |file|
      ensures handle == BlockHandle(old(offset), |contents|)
    {
      hide Digest, Mask;
      handle := BlockHandle(offset, |contents|);
      file := file + contents;
      var crc := Extend(0, contents, 0);
      crc := Extend(crc, [NO_COMPRESSION], 0);
      var trailer := [NO_COMPRESSION] + EncodeFixed32(Mask(crc));
      ghost var before := old(file);
      assert before + contents + trailer == before + (contents + trailer);
      file := file + trailer;
      offset := offset + |contents| + TRAILER_SIZE;
    }
  }

  lemma OffsetGrows(before: nat, after: nat)
    requires before <= after
    ensures before / F.FILTER_BASE <= after / F.FILTER_BASE
  {
  }

  lemma NothingLogged(offset: nat, log: seq<F.Added>)
    ensures PairsLogged([], offset, log)
  {
  }

  lemma IndexOfNothing(blocks: seq<DataBlock>, data: Layout, index: seq<Pair>)
    requires IndexSoFar(blocks, data, index, false) && data.pairs == []
    ensures IndexOk(blocks, index)
  {
  }

  /** The pieces of a finished file. */
  lemma TableComplete(t: TableParts, front: Bytes, piece: Bytes, metaContents: Bytes, indexContents: Bytes)
    requires BlocksOk(t.blocks, front) && OffsetsAscend(t.blocks) && IndexOk(t.blocks, t.index.pairs)
    requires SortedPairs(InternalLess, t.index.pairs)
    requires IsBlock(t.meta, metaContents) && IsBlock(t.index, indexContents)
    requires t.metaHandle == BlockHandle(|front + piece|, |metaContents|)
    requires t.indexHandle == BlockHandle(|front + piece + StoredBlock(metaContents)|, |indexContents|)
    ensures IsTable(t,
            front + piece + StoredBlock(metaContents) + StoredBlock(indexContents) +
                FooterBytes(t.metaHandle, t.indexHandle))
  {
    hide BlocksOk, OffsetsAscend, IndexOk, SortedPairs, InternalLess, IsBlock, At, StoredBlock, FooterBytes;
    var a := front + piece;
    var meta, index, footer :=
        StoredBlock(metaContents), StoredBlock(indexContents), FooterBytes(t.metaHandle, t.indexHandle);
    var file := a + meta + index + footer;
    BlocksGrow(t.blocks, front, piece);
    BlocksGrow(t.blocks, a, meta);
    BlocksGrow(t.blocks, a + meta, index);
    BlocksGrow(t.blocks, a + meta + index, footer);
    AtAfter(a, meta, index);
    AtGrows(a + meta + index, |a|, meta, footer);
    AtAfter(a + meta, index, footer);
    assert file[|file| - FOOTER_LENGTH..] == footer;
  }

  lemma FilterComplete(t: TableParts, front: Bytes, piece: Bytes, file: Bytes, policy: F.Policy, name: Bytes,
                       f: FilterParts)
    requires t.meta.pairs == [Pair(FILTER_PREFIX + name, HandleBytes(f.handle))]
    requires piece == StoredBlock(F.Contents(f.offsets, f.result))
    requires f.handle == BlockHandle(|front|, |F.Contents(f.offsets, f.result)|)
    requires F.Holds(policy, f.groups, f.offsets, f.result) && F.Grouped(f.log, f.groups, []) && Logged(t.blocks, f.log)
    requires front + piece <= file
    ensures HasFilter(t, file, policy, name, f)
  {
    hide StoredBlock, F.Contents, F.Holds, F.Grouped, Logged, HandleBytes;
    assert file[|front|..|front| + |piece|] == piece;
  }

  lemma NothingYet(data: Layout, log: seq<F.Added>)
    requires data.pairs == []
    ensures IndexSoFar([], data, [], false) && OffsetsAscend([]) && BlocksOk([], []) && Entries([]) == []
    ensures Logged([], log) && PairsLogged([], 0, log) && InternalPairs([])
  {
  }

  method StartFilter(policy: Option<F.Policy>) returns (filter: F.FilterBlockBuilder?)
    ensures filter == null <==> policy.None?
    ensures filter != null ==> fresh(filter) && filter.Valid() && filter.filterOffsets == []
    ensures filter != null ==> filter.policy == InternalPolicy(policy.value)
  {
    hide F.FilterBlockBuilder.Valid;
    filter := null;
    if policy.Some? {
      filter := new F.FilterBlockBuilder(InternalPolicy(policy.value));
      filter.StartBlock(0);
    }
  }

  method AddToBlock(block: BlockBuilder, key: Bytes, value: Bytes)
    requires block.Valid() && block.less == InternalLess && block.restartInterval >= 1 && !block.finished
    requires var pairs := block.layout.pairs; pairs == [] || InternalLess(pairs[|pairs| - 1].key, key)
    modifies block
    ensures block.Valid() && !block.finished
    ensures block.layout.pairs == old(block.layout.pairs) + [Pair(key, value)]
  {
    hide InternalLess, SortedPairs, Layout.Ok;
    OrderOfInternalKeys();
    hide IsOrder;
    block.Add(key, value);
  }

  /** Finish a block and start it anew. */
  method CloseBlock(block: BlockBuilder) returns (contents: Bytes)
    requires block.Valid() && !block.finished
    modifies block
    ensures block.Valid() && !block.finished && block.layout.pairs == []
    ensures IsBlock(old(block.layout), contents)
  {
    hide IsBlock, Layout.Ok, SortedPairs;
    contents := block.Finish();
    block.Reset();
  }
}
