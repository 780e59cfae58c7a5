/**
 Reading a sorted table (table/table.cc, table/two_level_iterator.cc): point lookups through index and
 filter, and an iterator that steps through data blocks as its index iterator meets them.
 */
module TableReader {
  import opened Optional
  import opened Crc32c
  import opened Coding
  import opened BlockFormat
  import opened BlockIterator
  import opened ByteKeys
  import opened TableFormat
  import F = FilterBlock

  /** Offsets and sizes stay in the ranges of the numbers they are stored in. */
  ghost predicate Small(t: TableParts, file: Bytes) {
    && |file| < TWO64 && t.indexHandle.size < TWO32 && t.metaHandle.size < TWO32
    && (forall i {:trigger t.blocks[i]} :: 0 <= i < |t.blocks| ==> |t.blocks[i].contents| < TWO32)
  }

  /** An iterator over the pairs of a block, not yet at any of them. */
  ghost predicate IteratesOver(it: BlockIter?, layout: Layout)
    reads it
  {
    it != null && it.Ready() && it.Stands() && it.layout == layout && it.less == InternalLess
  }

  method NewIterator(less: Order, contents: Bytes, ghost layout: Layout) returns (it: BlockIter?)
    ensures it != null ==> fresh(it) && it.Ready() && it.less == less && !it.corrupted && it.layout == layout
    ensures IsBlock(layout, contents) && |contents| < TWO32 && IsOrder(less) && SortedPairs(less, layout.pairs) ==>
            it != null && it.Stands() && it.pos == |layout.pairs|
  {
    hide IsBlock, IsOrder, SortedPairs, Formed, BlockIter.StandsAt;
    var b := OpenBlock(contents);
    if IsBlock(layout, contents) && |contents| < TWO32 {
      FinishedBlockOpens(layout, contents);
    }
    if b.BadBlock? || b.numRestarts == 0 {
      return null;
    }
    it := new BlockIter(less, contents, b.restartOffset, b.numRestarts, layout);
  }

  /** An index value leads to the iterator of its data block. */
  method BlockReader(file: Bytes, verifyChecksums: bool, indexValue: Bytes, ghost b: DataBlock) returns (it: BlockIter?)
    ensures it != null ==> fresh(it) && it.Ready()
    ensures b.StoredIn(file) && b.Handle().Fits() && |b.contents| < TWO32 && indexValue == HandleBytes(b.Handle()) ==>
            IteratesOver(it, b.layout)
  {
    hide IsBlock, IsOrder, SortedPairs, BlockIter.Stands, InternalLess, StoredBlock, HandleBytes, DecodeHandle;
    hide InternalPairs;
    if indexValue == HandleBytes(b.Handle()) && b.Handle().Fits() {
      AtStart(indexValue);
      HandleRoundTrip(indexValue, 0, b.Handle());
    }
    hide At;
    OrderOfInternalKeys();
    var handle := DecodeHandle(indexValue, 0);
    if handle.None? {
      return null;
    }
    var contents := ReadBlock(file, handle.value.0, verifyChecksums, 0);
    if contents.None? {
      return null;
    }
    it := NewIterator(InternalLess, contents.value, b.layout);
  }

  lemma HandlesDiffer(a: BlockHandle, b: BlockHandle)
    requires a.Fits() && b.Fits() && HandleBytes(a) == HandleBytes(b)
    ensures a == b
  {
    var s := HandleBytes(a);
    AtStart(s);
    HandleRoundTrip(s, 0, a);
    HandleRoundTrip(s, 0, b);
  }

  // ----- the two-level iterator

  class TwoLevelIterator {
    const file: Bytes
    const verifyChecksums: bool
    const indexIter: BlockIter
    var dataIter: BlockIter?
    var dataBlockHandle: Bytes
    ghost const t: TableParts
    /** The data block that `dataIter` iterates over. */
    ghost var block: nat
    /** The position among all pairs, or their number when the iterator is not valid. */
    ghost var pos: nat

    ghost predicate Fits() {
      IsTable(t, file) && Small(t, file)
    }

    ghost predicate Ready()
      reads this, indexIter, dataIter
    {
      && Fits() && IteratesOver(indexIter, t.index) && dataIter != indexIter
      && (dataIter != null ==>
            block < |t.blocks| && IteratesOver(dataIter, t.blocks[block].layout) &&
                dataBlockHandle == HandleBytes(t.blocks[block].Handle()))
    }

    /** The index iterator stands at the block of the data iterator. */
    ghost predicate InStep()
      reads this, indexIter, dataIter
    {
      Ready() && if dataIter != null then indexIter.pos == block else indexIter.pos == |t.blocks|
    }

    /** The position among all pairs, as the two iterators give it. */
    ghost function Here(): nat
      requires Ready()
      reads this, indexIter, dataIter
    {
      if dataIter != null then StartOf(t.blocks, block) + dataIter.pos else |Entries(t.blocks)|
    }

    /** The state between two calls. */
    ghost predicate Stands()
      reads this, indexIter, dataIter
    {
      InStep() && pos == Here() && (dataIter != null ==> dataIter.pos < |t.blocks[block].Pairs()|)
    }

    ghost function Repr(): set<object>
      reads this
    {
      {this, indexIter} + if dataIter != null then {dataIter} else {}
    }

    constructor (file: Bytes, verifyChecksums: bool, indexIter: BlockIter, ghost t: TableParts)
      requires IsTable(t, file) && Small(t, file) && IteratesOver(indexIter, t.index)
      requires indexIter.pos == |t.index.pairs|
      ensures this.file == file && this.t == t && this.indexIter == indexIter && dataIter == null && Stands()
    {
      hide IsTable, Small, BlockIter.Stands, BlockIter.Ready, Entries;
      this.file, this.verifyChecksums, this.indexIter, this.t := file, verifyChecksums, indexIter, t;
      dataIter, dataBlockHandle, block, pos := null, [], 0, |Entries(t.blocks)|;
      new;
      IndexLength();
    }

    predicate Valid()
      reads this, dataIter
    {
      dataIter != null && dataIter.Valid()
    }

    /** Make the data iterator the one of the index iterator's block. */
    method InitDataBlock()
      requires Ready()
      modifies this`dataIter, this`dataBlockHandle, this`block
      ensures InStep() && (dataIter != old(dataIter) && dataIter != null ==> fresh(dataIter))
    {
      hide IsTable, Small, BlockIter.Stands, BlockIter.Ready, BlockIter.Value, BlockIter.Fits, HandleBytes;
      hide InternalLess, DataBlock.StoredIn;
      indexIter.ValidAt();
      IndexLength();
      if !indexIter.Valid() {
        dataIter := null;
        return;
      }
      var i := indexIter.pos;
      IndexEntry(i);
      var handle := indexIter.Value();
      if dataIter != null && handle == dataBlockHandle {
        SameBlock(i, block);
        return;
      }
      dataIter := BlockReader(file, verifyChecksums, handle, t.blocks[i]);
      dataBlockHandle := handle;
      block := i;
    }

    lemma IndexLength()
      requires Fits()
      ensures |t.index.pairs| == |t.blocks|
    {
    }

    lemma IndexEntry(i: nat)
      requires Fits() && i < |t.blocks|
      ensures |t.index.pairs| == |t.blocks| && t.index.pairs[i].value == HandleBytes(t.blocks[i].Handle())
      ensures t.blocks[i].StoredIn(file) && t.blocks[i].Handle().Fits() && |t.blocks[i].contents| < TWO32
      ensures t.blocks[i].Pairs() != []
    {
      hide HandleBytes, InternalLess, IsBlock, SortedPairs;
      assert IndexEntryOk(t.blocks, t.index.pairs[i], i);
      assert t.blocks[i].StoredIn(file);
    }

    lemma SameBlock(i: nat, j: nat)
      requires Fits() && i < |t.blocks| && j < |t.blocks|
      requires HandleBytes(t.blocks[i].Handle()) == HandleBytes(t.blocks[j].Handle())
      ensures i == j
    {
      hide HandleBytes, BlocksOk, IndexOk, DataBlock.StoredIn, SortedPairs, HasBlock, FooterBytes;
      IndexEntry(i);
      IndexEntry(j);
      HandlesDiffer(t.blocks[i].Handle(), t.blocks[j].Handle());
    }

    method SkipEmptyDataBlocksForward()
      requires InStep()
      modifies this`dataIter, this`dataBlockHandle, this`block, this`pos, indexIter, dataIter
      ensures Stands() && pos == old(Here()) && (dataIter != old(dataIter) && dataIter != null ==> fresh(dataIter))
    {
      hide IsTable, Small, BlockIter.Stands, BlockIter.Ready, BlockIter.Fits, InternalLess, HandleBytes, StartOf;
      hide Entries;
      while dataIter == null || !dataIter.Valid()
        invariant InStep() && Here() == old(Here())
        invariant (dataIter != old(dataIter) && dataIter != null ==> fresh(dataIter))
        decreases if dataIter == null then 0 else 1 + |t.blocks| - block
      {
        indexIter.ValidAt();
        IndexLength();
        if !indexIter.Valid() {
          dataIter := null;
          pos := Here();
          return;
        }
        dataIter.ValidAt();
        PositionInside(t.blocks, block, |t.blocks[block].Pairs()|);
        ghost var before := block;
        indexIter.Next();
        InitDataBlock();
        EndOfEntries(t.blocks);
        if dataIter != null {
          dataIter.ValidAt();
          dataIter.SeekToFirst();
        }
      }
      dataIter.ValidAt();
      pos := Here();
    }

    /** Position `p` of block `b` among all pairs; past the end of the block it is the pair before the block. */
    ghost function StepBack(b: nat, p: nat): nat
      requires b < |t.blocks|
    {
      var start := StartOf(t.blocks, b);
      if p < |t.blocks[b].Pairs()| then start + p
      else if start == 0 then |Entries(t.blocks)| else start - 1
    }

    lemma NotEmpty(i: nat)
      requires Fits() && i < |t.blocks|
      ensures t.blocks[i].Pairs() != []
    {
      hide IsTable, Small;
      IndexEntry(i);
    }

    lemma StepBackInside(b: nat, p: nat)
      requires b < |t.blocks|
      ensures p < |t.blocks[b].Pairs()| ==> StepBack(b, p) == StartOf(t.blocks, b) + p
    {
    }

    lemma StepBackAcross(b: nat, p: nat)
      requires b < |t.blocks| && p >= |t.blocks[b].Pairs()|
      requires b > 0 ==> t.blocks[b - 1].Pairs() != []
      ensures b == 0 ==> StepBack(b, p) == |Entries(t.blocks)|
      ensures b > 0 ==> StepBack(b, p) == StepBack(b - 1, |t.blocks[b - 1].Pairs()| - 1)
    {
      hide StartOf;
      StartBefore(b);
    }

    lemma LastPair()
      requires t.blocks != [] && t.blocks[|t.blocks| - 1].Pairs() != []
      ensures var b := |t.blocks| - 1;
              && |Entries(t.blocks)| > 0
              && StepBack(b, |t.blocks[b].Pairs()| - 1) == |Entries(t.blocks)| - 1
    {
      hide StartOf;
      var b := |t.blocks| - 1;
      PositionInside(t.blocks, b, |t.blocks[b].Pairs()|);
      EndOfEntries(t.blocks);
    }

    method SkipEmptyDataBlocksBackward()
      requires InStep()
      modifies this`dataIter, this`dataBlockHandle, this`block, this`pos, indexIter, dataIter
      ensures Stands()
      ensures pos == (if old(dataIter) == null then |Entries(t.blocks)| else StepBack(old(block), old(dataIter.pos)))
      ensures (dataIter != old(dataIter) && dataIter != null ==> fresh(dataIter))
    {
      hide IsTable, Small, BlockIter.Stands, BlockIter.Ready, BlockIter.Fits, InternalLess, HandleBytes, StartOf;
      hide Entries, TwoLevelIterator.StepBack;
      ghost var goal := if dataIter == null then |Entries(t.blocks)| else StepBack(block, dataIter.pos);
      while dataIter == null || !dataIter.Valid()
        invariant InStep() && goal == (if dataIter == null then |Entries(t.blocks)| else StepBack(block, dataIter.pos))
        invariant (dataIter != old(dataIter) && dataIter != null ==> fresh(dataIter))
        decreases if dataIter == null then 0 else if dataIter.Valid() then 1 else 2
      {
        indexIter.ValidAt();
        IndexLength();
        if !indexIter.Valid() {
          dataIter := null;
          pos := Here();
          return;
        }
        ghost var before := block;
        dataIter.ValidAt();
        if block > 0 {
          NotEmpty(block - 1);
        }
        StepBackAcross(block, dataIter.pos);
        indexIter.Prev();
        InitDataBlock();
        if dataIter != null {
          dataIter.ValidAt();
          dataIter.SeekToLast();
          dataIter.ValidAt();
        }
      }
      dataIter.ValidAt();
      StepBackInside(block, dataIter.pos);
      pos := Here();
    }

    /** The pairs in front of a block end with those of the block before. */
    lemma StartBefore(i: nat)
      requires i < |t.blocks|
      ensures i == 0 ==> StartOf(t.blocks, i) == 0
      ensures i > 0 ==> StartOf(t.blocks, i) == StartOf(t.blocks, i - 1) + |t.blocks[i - 1].Pairs()|
    {
      if i > 0 {
        PositionInside(t.blocks, i - 1, 0);
      }
    }

    method Seek(target: Bytes)
      requires Ready()
      modifies this`dataIter, this`dataBlockHandle, this`block, this`pos, indexIter, dataIter
      ensures Stands() && IsFirstFrom(InternalLess, Entries(t.blocks), target, pos)
      ensures dataIter != old(dataIter) && dataIter != null ==> fresh(dataIter)
    {
      hide IsTable, Small, BlockIter.Stands, BlockIter.Ready, BlockIter.Fits, InternalLess, HandleBytes, StartOf;
      hide Entries, IsFirstFrom;
      indexIter.ValidAt();
      IndexLength();
      indexIter.Seek(target);
      InitDataBlock();
      if dataIter != null {
        dataIter.ValidAt();
        dataIter.Seek(target);
        dataIter.ValidAt();
      }
      FirstOfTable(target, indexIter.pos, if dataIter != null then dataIter.pos else 0);
      SkipEmptyDataBlocksForward();
    }

    lemma FirstOfTable(target: Bytes, i: nat, p: nat)
      requires Fits() && IsFirstFrom(InternalLess, t.index.pairs, target, i) && i <= |t.blocks|
      requires i < |t.blocks| ==> IsFirstFrom(InternalLess, t.blocks[i].Pairs(), target, p)
      requires i == |t.blocks| ==> p == 0
      ensures IsFirstFrom(InternalLess, Entries(t.blocks), target, StartOf(t.blocks, i) + p)
      ensures StartOf(t.blocks, |t.blocks|) == |Entries(t.blocks)|
    {
      hide IsFirstFrom, BlocksOk, IndexOk, InternalLess, HasBlock, FooterBytes;
      TwoSearches(t.blocks, t.index.pairs, file, target, i, p);
      EndOfEntries(t.blocks);
    }

    method SeekToFirst()
      requires Ready()
      modifies this`dataIter, this`dataBlockHandle, this`block, this`pos, indexIter, dataIter
      ensures Stands() && pos == 0
      ensures dataIter != old(dataIter) && dataIter != null ==> fresh(dataIter)
    {
      hide IsTable, Small, BlockIter.Stands, BlockIter.Ready, BlockIter.Fits, InternalLess, HandleBytes, StartOf;
      hide Entries;
      indexIter.ValidAt();
      IndexLength();
      indexIter.SeekToFirst();
      InitDataBlock();
      if dataIter != null {
        dataIter.ValidAt();
        dataIter.SeekToFirst();
        StartBefore(block);
      } else {
        NoBlocks();
      }
      SkipEmptyDataBlocksForward();
    }

    lemma NoBlocks()
      ensures |t.blocks| == 0 ==> Entries(t.blocks) == []
    {
    }

    method SeekToLast()
      requires Ready()
      modifies this`dataIter, this`dataBlockHandle, this`block, this`pos, indexIter, dataIter
      ensures Stands() && pos == (if Entries(t.blocks) == [] then 0 else |Entries(t.blocks)| - 1)
      ensures dataIter != old(dataIter) && dataIter != null ==> fresh(dataIter)
    {
      hide IsTable, Small, BlockIter.Stands, BlockIter.Ready, BlockIter.Fits, InternalLess, HandleBytes, StartOf;
      hide Entries, TwoLevelIterator.StepBack;
      indexIter.ValidAt();
      IndexLength();
      indexIter.SeekToLast();
      InitDataBlock();
      if dataIter != null {
        NotEmpty(block);
        LastPair();
        dataIter.ValidAt();
        dataIter.SeekToLast();
      } else {
        NoBlocks();
      }
      SkipEmptyDataBlocksBackward();
    }

    method Next()
      requires Stands() && Valid()
      modifies this`dataIter, this`dataBlockHandle, this`block, this`pos, indexIter, dataIter
      ensures Stands() && pos == old(pos) + 1
      ensures dataIter != old(dataIter) && dataIter != null ==> fresh(dataIter)
    {
      hide IsTable, Small, BlockIter.Stands, BlockIter.Ready, BlockIter.Fits, InternalLess, HandleBytes, StartOf;
      hide Entries;
      dataIter.Next();
      SkipEmptyDataBlocksForward();
    }

    method Prev()
      requires Stands() && Valid()
      modifies this`dataIter, this`dataBlockHandle, this`block, this`pos, indexIter, dataIter
      ensures Stands() && pos == if old(pos) == 0 then |Entries(t.blocks)| else old(pos) - 1
      ensures dataIter != old(dataIter) && dataIter != null ==> fresh(dataIter)
    {
      hide IsTable, Small, BlockIter.Stands, BlockIter.Ready, BlockIter.Fits, InternalLess, HandleBytes, StartOf;
      hide Entries;
      dataIter.Prev();
      if block > 0 {
        NotEmpty(block - 1);
      }
      StartBefore(block);
      SkipEmptyDataBlocksBackward();
    }

    /** The pair at the position. */
    lemma PairHere()
      requires Stands()
      ensures pos <= |Entries(t.blocks)| && (Valid() <==> pos < |Entries(t.blocks)|)
      ensures Valid() ==> Entries(t.blocks)[pos] == Pair(dataIter.key, dataIter.Value())
    {
      hide IsTable, Small, BlockIter.Stands, BlockIter.Ready, BlockIter.Fits, BlockIter.Value, InternalLess;
      hide HandleBytes, StartOf, Entries;
      if dataIter != null {
        dataIter.ValidAt();
        EntryAt(t.blocks, block, dataIter.pos);
        dataIter.KeyHere();
      }
    }
  }
}
