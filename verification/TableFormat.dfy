/**
 Sorted table files (table/format.cc): blocks with a checksum behind each, handles that say where a
 block is, and a footer; and what it means that a file holds a table (the invariant between
 table/table_builder.cc and table/table.cc).
 */
module TableFormat {
  import opened Optional
  import opened Crc32c
  import opened Coding
  import opened BlockFormat
  import opened ByteKeys
  import F = FilterBlock

  // ----- handles

  datatype BlockHandle = BlockHandle(offset: nat, size: nat) {
    predicate Fits() {
      offset < TWO64 && size < TWO64
    }
  }

  function HandleBytes(h: BlockHandle): Bytes {
    Varint(h.offset) + Varint(h.size)
  }

  function DecodeHandle(s: Bytes, p: nat): (r: Option<(BlockHandle, nat)>)
    ensures r.Some? ==> r.value.1 <= |s| && r.value.0.Fits()
  {
    var offset := ReadVarint64(s, p, |s|);
    if offset.Malformed? then None
    else
      var size := ReadVarint64(s, offset.next, |s|);
      if size.Malformed? then None
      else Some((BlockHandle(offset.value, size.value), size.next))
  }

  lemma HandleRoundTrip(s: Bytes, p: nat, h: BlockHandle)
    requires At(s, p, HandleBytes(h)) && h.Fits()
    ensures DecodeHandle(s, p) == Some((h, p + |HandleBytes(h)|))
  {
    hide Varint, ReadVarint64;
    AtBoth(s, p, Varint(h.offset), Varint(h.size));
    Varint64RoundTrip(s, p, |s|, h.offset);
    Varint64RoundTrip(s, p + |Varint(h.offset)|, |s|, h.size);
  }

  lemma HandleIsShort(h: BlockHandle)
    requires h.Fits()
    ensures |HandleBytes(h)| <= 20
  {
    Powers();
    hide Power, Varint;
    VarintIsShort(h.offset, 10);
    VarintIsShort(h.size, 10);
  }

  // ----- the footer

  const TABLE_MAGIC_LO: nat := 0x8b80fb57
  const TABLE_MAGIC_HI: nat := 0xdb477524
  const PADDED_HANDLES: nat := 40
  const FOOTER_LENGTH: nat := 48

  function Zeros(n: nat): (r: Bytes)
    ensures |r| == n
  {
    seq(n, _ => 0)
  }

  /** Cut or padded to `n` bytes. */
  function Resized(s: Bytes, n: nat): (r: Bytes)
    ensures |r| == n
  {
    if n <= |s| then s[..n] else s + Zeros(n - |s|)
  }

  function FooterBytes(meta: BlockHandle, index: BlockHandle): (r: Bytes)
    ensures |r| == FOOTER_LENGTH
  {
    Resized(HandleBytes(meta) + HandleBytes(index), PADDED_HANDLES) + Fixed(TABLE_MAGIC_LO, 4) +
        Fixed(TABLE_MAGIC_HI, 4)
  }

  datatype Footer = Footer(meta: BlockHandle, index: BlockHandle)

  function DecodeFooter(s: Bytes): (r: Option<Footer>)
    requires |s| == FOOTER_LENGTH
  {
    if GetFixed(s, PADDED_HANDLES, 4) != TABLE_MAGIC_LO ||
        GetFixed(s, PADDED_HANDLES + 4, 4) != TABLE_MAGIC_HI then None
    else
      var meta := DecodeHandle(s, 0);
      if meta.None? then None
      else
        var index := DecodeHandle(s, meta.value.1);
        if index.None? then None else Some(Footer(meta.value.0, index.value.0))
  }

  lemma FooterParts(meta: BlockHandle, index: BlockHandle)
    requires meta.Fits() && index.Fits()
    ensures var s := FooterBytes(meta, index);
            && At(s, 0, HandleBytes(meta)) && At(s, |HandleBytes(meta)|, HandleBytes(index))
            && At(s, PADDED_HANDLES, Fixed(TABLE_MAGIC_LO, 4)) && At(s, PADDED_HANDLES + 4, Fixed(TABLE_MAGIC_HI, 4))
  {
    hide HandleBytes, Fixed, Zeros, At;
    HandleIsShort(meta);
    HandleIsShort(index);
    var handles := HandleBytes(meta) + HandleBytes(index);
    var padding := Zeros(PADDED_HANDLES - |handles|);
    assert handles + padding == Resized(handles, PADDED_HANDLES) by {
      assert handles + [] == handles;
    }
    var lo, hi := Fixed(TABLE_MAGIC_LO, 4), Fixed(TABLE_MAGIC_HI, 4);
    AtStart(FooterBytes(meta, index));
    AtBoth(FooterBytes(meta, index), 0, handles + padding + lo, hi);
    AtBoth(FooterBytes(meta, index), 0, handles + padding, lo);
    AtBoth(FooterBytes(meta, index), 0, handles, padding);
    AtBoth(FooterBytes(meta, index), 0, HandleBytes(meta), HandleBytes(index));
  }

  lemma AtStart(s: Bytes)
    ensures At(s, 0, s)
  {
  }

  lemma FooterRoundTrip(meta: BlockHandle, index: BlockHandle)
    requires meta.Fits() && index.Fits()
    ensures DecodeFooter(FooterBytes(meta, index)) == Some(Footer(meta, index))
  {
    hide HandleBytes, Fixed, GetFixed, At, FooterBytes, DecodeHandle, Power;
    FooterParts(meta, index);
    Powers();
    var s := FooterBytes(meta, index);
    FixedRoundTrip(s, PADDED_HANDLES, TABLE_MAGIC_LO, 4);
    FixedRoundTrip(s, PADDED_HANDLES + 4, TABLE_MAGIC_HI, 4);
    HandleRoundTrip(s, 0, meta);
    HandleRoundTrip(s, |HandleBytes(meta)|, index);
  }

  // ----- stored blocks

  const NO_COMPRESSION: Byte := 0
  const TRAILER_SIZE: nat := 5

  function Trailer(contents: Bytes): (r: Bytes)
    ensures |r| == TRAILER_SIZE
  {
    [NO_COMPRESSION] + EncodeFixed32(Mask(Digest(Digest(0, contents), [NO_COMPRESSION])))
  }

  function StoredBlock(contents: Bytes): (r: Bytes)
    ensures |r| == |contents| + TRAILER_SIZE
  {
    contents + Trailer(contents)
  }

  /**
   Read a block whose bytes begin at any memory address. Every block type but the uncompressed one
   is an error here.
   */
  method ReadBlock(file: Bytes, handle: BlockHandle, verifyChecksums: bool, address: nat) returns (r: Option<Bytes>)
    ensures r.Some? ==>
            handle.offset + handle.size + TRAILER_SIZE <= |file| &&
                r.value == file[handle.offset..handle.offset + handle.size]
    ensures forall c :: At(file, handle.offset, StoredBlock(c)) && handle.size == |c| ==> r == Some(c)
  {
    hide At, StoredBlock, Digest, Mask, Unmask, ReadUint32LE;
    var n := handle.size;
    var p := handle.offset;
    if p + n + TRAILER_SIZE > |file| {
      ShortFile(file, handle);
      return None;
    }
    var data := file[p..p + n + TRAILER_SIZE];
    StoredParts(file, handle);
    if verifyChecksums {
      var crc := Unmask(ReadUint32LE(data, n + 1));
      var actual := Extend(0, data[..n + 1], address);
      if actual != crc {
        return None;
      }
    }
    if data[n] != NO_COMPRESSION {
      return None;
    }
    r := Some(data[..n]);
  }

  lemma ShortFile(file: Bytes, handle: BlockHandle)
    requires handle.offset + handle.size + TRAILER_SIZE > |file|
    ensures forall c :: At(file, handle.offset, StoredBlock(c)) ==> handle.size != |c|
  {
  }

  lemma StoredParts(file: Bytes, handle: BlockHandle)
    requires handle.offset + handle.size + TRAILER_SIZE <= |file|
    ensures forall c :: At(file, handle.offset, StoredBlock(c)) && handle.size == |c| ==>
              var data := file[handle.offset..handle.offset + handle.size + TRAILER_SIZE];
              var n := handle.size;
              && data[..n] == c && data[n] == NO_COMPRESSION
              && Unmask(ReadUint32LE(data, n + 1)) == Digest(0, data[..n + 1])
  {
    hide At, StoredBlock, Digest, Mask, Unmask, ReadUint32LE;
    var data := file[handle.offset..handle.offset + handle.size + TRAILER_SIZE];
    forall c | At(file, handle.offset, StoredBlock(c)) && handle.size == |c|
      ensures data[..handle.size] == c && data[handle.size] == NO_COMPRESSION
      ensures Unmask(ReadUint32LE(data, handle.size + 1)) == Digest(0, data[..handle.size + 1])
    {
      WholePiece(file, handle.offset, StoredBlock(c));
      TrailerParts(c);
    }
  }

  lemma WholePiece(s: Bytes, p: nat, piece: Bytes)
    requires At(s, p, piece)
    ensures p + |piece| <= |s| && s[p..p + |piece|] == piece
  {
  }

  lemma TrailerParts(c: Bytes)
    ensures var s := StoredBlock(c);
            && s[..|c|] == c && s[|c|] == NO_COMPRESSION
            && Unmask(ReadUint32LE(s, |c| + 1)) == Digest(0, s[..|c| + 1])
  {
    hide Digest, Mask, Unmask, EncodeFixed32, ReadUint32LE;
    var s := StoredBlock(c);
    var crc := Digest(Digest(0, c), [NO_COMPRESSION]);
    assert s[..|c| + 1] == c + [NO_COMPRESSION];
    DigestConcat(0, c, [NO_COMPRESSION]);
    MaskRoundTrip(crc);
    Fixed32RoundTrip(Mask(crc));
    WordInside(c + [NO_COMPRESSION], EncodeFixed32(Mask(crc)));
    assert c + [NO_COMPRESSION] + EncodeFixed32(Mask(crc)) == s;
  }

  lemma WordInside(front: Bytes, word: Bytes)
    requires |word| == 4
    ensures ReadUint32LE(front + word, |front|) == ReadUint32LE(word, 0)
  {
    assert forall i :: 0 <= i < 4 ==> (front + word)[|front| + i] == word[i];
  }

  // ----- the blocks of a table

  datatype DataBlock = DataBlock(layout: Layout, contents: Bytes, offset: nat) {
    function Handle(): BlockHandle {
      BlockHandle(offset, |contents|)
    }

    function Pairs(): seq<Pair> {
      layout.pairs
    }

    function FirstKey(): Bytes
      requires Pairs() != []
    {
      Pairs()[0].key
    }

    function LastKey(): Bytes
      requires Pairs() != []
    {
      Pairs()[|Pairs()| - 1].key
    }

    /** A block of sorted internal keys, stored at its offset. */
    ghost predicate StoredIn(file: Bytes) {
      && Pairs() != [] && IsBlock(layout, contents) && At(file, offset, StoredBlock(contents))
      && SortedPairs(InternalLess, Pairs()) && InternalPairs(Pairs())
    }
  }

  ghost predicate InternalPairs(pairs: seq<Pair>) {
    forall i {:trigger pairs[i]} :: 0 <= i < |pairs| ==> IsInternal(pairs[i].key)
  }

  /** All pairs, block by block. */
  ghost function Entries(blocks: seq<DataBlock>): (r: seq<Pair>) {
    if blocks == [] then [] else Entries(blocks[..|blocks| - 1]) + blocks[|blocks| - 1].Pairs()
  }

  /** Where the pairs of block `i` begin. */
  ghost function StartOf(blocks: seq<DataBlock>, i: nat): nat
    requires i <= |blocks|
  {
    |Entries(blocks[..i])|
  }

  ghost predicate BlocksOk(blocks: seq<DataBlock>, file: Bytes) {
    forall i {:trigger blocks[i]} :: 0 <= i < |blocks| ==> blocks[i].StoredIn(file)
  }

  ghost predicate OffsetsAscend(blocks: seq<DataBlock>) {
    forall i, j {:trigger blocks[i], blocks[j]} :: 0 <= i < j < |blocks| ==> blocks[i].offset < blocks[j].offset
  }

  /** The index has a separator and the handle of every block. */
  ghost predicate IndexOk(blocks: seq<DataBlock>, index: seq<Pair>) {
    && |index| == |blocks|
    && (forall i {:trigger index[i]} :: 0 <= i < |index| ==> IndexEntryOk(blocks, index[i], i))
  }

  ghost predicate IndexEntryOk(blocks: seq<DataBlock>, e: Pair, i: nat)
    requires i < |blocks|
  {
    && e.value == HandleBytes(blocks[i].Handle())
    && blocks[i].Pairs() != [] && Separates(blocks[i].LastKey(), e.key)
    && (i + 1 < |blocks| ==>
       blocks[i + 1].Pairs() != [] && SeparatesFrom(blocks[i].LastKey(), e.key, blocks[i + 1].FirstKey()))
  }

  lemma {:induction false} EntryAt(blocks: seq<DataBlock>, i: nat, p: nat)
    requires i < |blocks| && p < |blocks[i].Pairs()|
    ensures StartOf(blocks, i) + p < |Entries(blocks)|
    ensures Entries(blocks)[StartOf(blocks, i) + p] == blocks[i].Pairs()[p]
    ensures StartOf(blocks, i + 1) == StartOf(blocks, i) + |blocks[i].Pairs()| <= |Entries(blocks)|
    ensures StartOf(blocks, |blocks|) == |Entries(blocks)|
    decreases |blocks|
  {
    var n := |blocks| - 1;
    var front := blocks[..n];
    assert blocks[..|blocks|] == blocks;
    assert blocks[..i + 1][..i] == blocks[..i];
    if i < n {
      EntryAt(front, i, p);
      assert front[..i] == blocks[..i] && front[..i + 1] == blocks[..i + 1];
    }
  }

  /** Every position lies in one block. */
  lemma {:induction false} BlockOf(blocks: seq<DataBlock>, g: nat) returns (i: nat, p: nat)
    requires g < |Entries(blocks)|
    ensures i < |blocks| && p < |blocks[i].Pairs()| && g == StartOf(blocks, i) + p
    decreases |blocks|
  {
    var n := |blocks| - 1;
    var front := blocks[..n];
    if g < |Entries(front)| {
      i, p := BlockOf(front, g);
      assert front[..i] == blocks[..i];
    } else {
      i, p := n, g - |Entries(front)|;
    }
  }

  // ----- order across blocks

  lemma {:induction false} BlocksAscend(blocks: seq<DataBlock>, index: seq<Pair>, file: Bytes, i: nat, j: nat, p: nat,
                                        q: nat)
    requires BlocksOk(blocks, file) && IndexOk(blocks, index) && i < j < |blocks|
    requires p < |blocks[i].Pairs()| && q < |blocks[j].Pairs()|
    ensures !InternalLess(index[i].key, blocks[i].Pairs()[p].key)
    ensures InternalLess(index[i].key, blocks[j].Pairs()[q].key)
    decreases j - i
  {
    hide InternalLess, HandleBytes, IsBlock, At;
    OrderOfInternalKeys();
    var a, b := blocks[i], blocks[j];
    assert IndexEntryOk(blocks, index[i], i);
    SeparatorIsAbove(a.LastKey(), index[i].key);
    var last := a.Pairs()[|a.Pairs()| - 1];
    assert a.StoredIn(file) && b.StoredIn(file);
    assert p < |a.Pairs()| - 1 ==> InternalLess(a.Pairs()[p].key, last.key);
    if i + 1 == j {
      assert q > 0 ==> InternalLess(b.Pairs()[0].key, b.Pairs()[q].key);
    } else {
      var c := blocks[i + 1];
      assert c.StoredIn(file);
      BlocksAscend(blocks, index, file, i + 1, j, 0, q);
      assert IndexEntryOk(blocks, index[i + 1], i + 1);
    }
  }

  lemma UpToSeparator(blocks: seq<DataBlock>, index: seq<Pair>, file: Bytes, i: nat, p: nat)
    requires BlocksOk(blocks, file) && IndexOk(blocks, index) && i < |blocks| && p < |blocks[i].Pairs()|
    ensures !InternalLess(index[i].key, blocks[i].Pairs()[p].key)
  {
    hide InternalLess, HandleBytes, IsBlock, At;
    OrderOfInternalKeys();
    var a := blocks[i];
    assert IndexEntryOk(blocks, index[i], i) && a.StoredIn(file);
    SeparatorIsAbove(a.LastKey(), index[i].key);
    var last := a.Pairs()[|a.Pairs()| - 1];
    assert p < |a.Pairs()| - 1 ==> InternalLess(a.Pairs()[p].key, last.key);
  }

  lemma EntriesAreSorted(blocks: seq<DataBlock>, index: seq<Pair>, file: Bytes)
    requires BlocksOk(blocks, file) && IndexOk(blocks, index)
    ensures SortedPairs(InternalLess, Entries(blocks))
  {
    hide InternalLess, IsBlock, At, IndexOk, Entries, BlocksOk;
    var es := Entries(blocks);
    forall g, h | 0 <= g < h < |es|
      ensures InternalLess(es[g].key, es[h].key)
    {
      var i, p := BlockOf(blocks, g);
      var j, q := BlockOf(blocks, h);
      EntryAt(blocks, i, p);
      EntryAt(blocks, j, q);
      EntryOrder(blocks, i, p, j, q);
      PairOrder(blocks, index, file, i, p, j, q);
    }
  }

  lemma EntryOrder(blocks: seq<DataBlock>, i: nat, p: nat, j: nat, q: nat)
    requires i < |blocks| && p < |blocks[i].Pairs()| && j < |blocks| && q < |blocks[j].Pairs()|
    ensures StartOf(blocks, i) + p < StartOf(blocks, j) + q <==> i < j || (i == j && p < q)
  {
    hide StartOf;
    PositionInside(blocks, i, p);
    PositionInside(blocks, j, q);
    if i < j {
      StartsAscend(blocks, i + 1, j);
    } else if j < i {
      StartsAscend(blocks, j + 1, i);
    }
  }

  lemma PairOrder(blocks: seq<DataBlock>, index: seq<Pair>, file: Bytes, i: nat, p: nat, j: nat, q: nat)
    requires BlocksOk(blocks, file) && IndexOk(blocks, index)
    requires i < |blocks| && p < |blocks[i].Pairs()| && j < |blocks| && q < |blocks[j].Pairs()|
    requires i < j || (i == j && p < q)
    ensures InternalLess(blocks[i].Pairs()[p].key, blocks[j].Pairs()[q].key)
  {
    hide InternalLess, IsBlock, At, IndexEntryOk;
    OrderOfInternalKeys();
    if i < j {
      BlocksAscend(blocks, index, file, i, j, p, q);
      var a := blocks[i].Pairs()[p].key;
      assert a == index[i].key || InternalLess(a, index[i].key);
    } else {
      assert blocks[i].StoredIn(file);
    }
  }

  lemma {:induction false} StartsAscend(blocks: seq<DataBlock>, i: nat, j: nat)
    requires i <= j <= |blocks|
    ensures StartOf(blocks, i) <= StartOf(blocks, j)
    decreases j - i
  {
    if i < j {
      StartsAscend(blocks, i, j - 1);
      assert blocks[..j][..j - 1] == blocks[..j - 1];
    }
  }

  /**
   Two searches are one: the first separator that is not below the target picks the block, the
   first pair there that is not below the target is the first of the table.
   */
  lemma TwoSearches(blocks: seq<DataBlock>, index: seq<Pair>, file: Bytes, target: Bytes, i: nat, p: nat)
    requires BlocksOk(blocks, file) && IndexOk(blocks, index) && IsFirstFrom(InternalLess, index, target, i)
    requires i < |blocks| ==> IsFirstFrom(InternalLess, blocks[i].Pairs(), target, p)
    requires i == |blocks| ==> p == 0
    ensures IsFirstFrom(InternalLess, Entries(blocks), target, StartOf(blocks, i) + p)
  {
    hide InternalLess, IsBlock, At, Entries, BlocksOk, IndexEntryOk, SortedPairs, IsOrder;
    EndOfEntries(blocks);
    PositionInside(blocks, i, if i < |blocks| then |blocks[i].Pairs()| else 0);
    forall g | 0 <= g < |Entries(blocks)|
      ensures g < StartOf(blocks, i) + p <==> InternalLess(Entries(blocks)[g].key, target)
    {
      var j, q := BlockOf(blocks, g);
      EntryAt(blocks, j, q);
      SearchAt(blocks, index, file, target, i, p, j, q);
      if j < i {
        StartsAscend(blocks, j + 1, i);
      } else if i < j {
        StartsAscend(blocks, i + 1, j);
        PositionInside(blocks, i, |blocks[i].Pairs()|);
      }
    }
  }

  lemma EndOfEntries(blocks: seq<DataBlock>)
    ensures StartOf(blocks, |blocks|) == |Entries(blocks)|
  {
    assert blocks[..|blocks|] == blocks;
  }

  lemma PositionInside(blocks: seq<DataBlock>, i: nat, p: nat)
    requires i <= |blocks| && (i < |blocks| ==> p <= |blocks[i].Pairs()|) && (i == |blocks| ==> p == 0)
    ensures StartOf(blocks, i) + p <= |Entries(blocks)|
    ensures i < |blocks| ==> StartOf(blocks, i + 1) == StartOf(blocks, i) + |blocks[i].Pairs()|
  {
    if i < |blocks| {
      assert blocks[..i + 1][..i] == blocks[..i];
      StartsAscend(blocks, i + 1, |blocks|);
    }
    EndOfEntries(blocks);
  }

  lemma SearchAt(blocks: seq<DataBlock>, index: seq<Pair>, file: Bytes, target: Bytes, i: nat, p: nat, j: nat, q: nat)
    requires BlocksOk(blocks, file) && IndexOk(blocks, index) && IsFirstFrom(InternalLess, index, target, i)
    requires i < |blocks| ==> IsFirstFrom(InternalLess, blocks[i].Pairs(), target, p)
    requires j < |blocks| && q < |blocks[j].Pairs()|
    ensures InternalLess(blocks[j].Pairs()[q].key, target) <==> j < i || (j == i && q < p)
  {
    hide InternalLess, IsBlock, At, IndexEntryOk;
    OrderOfInternalKeys();
    var key := blocks[j].Pairs()[q];
    if j < i {
      UpToSeparator(blocks, index, file, j, q);
      assert InternalLess(index[j].key, target);
    } else if i < j {
      assert blocks[i].StoredIn(file);
      BlocksAscend(blocks, index, file, i, j, 0, q);
      assert !InternalLess(index[i].key, target);
    }
  }

  // ----- a whole table

  /** A block in a file, with the layout of its pairs. */
  ghost predicate HasBlock(file: Bytes, handle: BlockHandle, layout: Layout) {
    exists contents :: IsBlock(layout, contents) && handle.size == |contents| &&
        At(file, handle.offset, StoredBlock(contents))
  }

  datatype TableParts = TableParts(blocks: seq<DataBlock>, index: Layout, indexHandle: BlockHandle,
                                   meta: Layout, metaHandle: BlockHandle)

  ghost predicate IsTable(t: TableParts, file: Bytes) {
    && BlocksOk(t.blocks, file) && OffsetsAscend(t.blocks) && IndexOk(t.blocks, t.index.pairs)
    && SortedPairs(InternalLess, t.index.pairs)
    && HasBlock(file, t.indexHandle, t.index) && HasBlock(file, t.metaHandle, t.meta)
    && |file| >= FOOTER_LENGTH && file[|file| - FOOTER_LENGTH..] == FooterBytes(t.metaHandle, t.indexHandle)
  }

  lemma BlocksGrow(blocks: seq<DataBlock>, file: Bytes, more: Bytes)
    requires BlocksOk(blocks, file)
    ensures BlocksOk(blocks, file + more)
  {
    hide At, InternalLess, IsBlock, StoredBlock, SortedPairs, InternalPairs;
    forall i | 0 <= i < |blocks|
      ensures blocks[i].StoredIn(file + more)
    {
      assert blocks[i].StoredIn(file);
      AtGrows(file, blocks[i].offset, StoredBlock(blocks[i].contents), more);
    }
  }

  // ----- the filter of a table

  /** Filters see user keys only. */
  function InternalPolicy(user: F.Policy): F.Policy {
    F.Policy(k => user.hash(if IsInternal(k) then UserKey(k) else k), user.bitsPerKey)
  }

  datatype FilterParts = FilterParts(handle: BlockHandle, groups: seq<seq<Bytes>>, offsets: seq<nat>, result: Bytes,
      log: seq<F.Added>)

  const FILTER_PREFIX: Bytes := [0x66, 0x69, 0x6c, 0x74, 0x65, 0x72, 0x2e]

  /** Every key was added to the filter while its block was filled. */
  ghost predicate Logged(blocks: seq<DataBlock>, log: seq<F.Added>) {
    forall i {:trigger blocks[i]} :: 0 <= i < |blocks| ==> PairsLogged(blocks[i].Pairs(), blocks[i].offset, log)
  }

  ghost predicate PairsLogged(pairs: seq<Pair>, offset: nat, log: seq<F.Added>) {
    forall p {:trigger pairs[p]} :: 0 <= p < |pairs| ==> F.Added(offset, pairs[p].key) in log
  }

  /** The meta block leads to a filter block made of all keys. */
  ghost predicate HasFilter(t: TableParts, file: Bytes, policy: F.Policy, name: Bytes, f: FilterParts) {
    var contents := F.Contents(f.offsets, f.result);
    && t.meta.pairs == [Pair(FILTER_PREFIX + name, HandleBytes(f.handle))]
    && f.handle.size == |contents| && At(file, f.handle.offset, StoredBlock(contents))
    && F.Holds(policy, f.groups, f.offsets, f.result) && F.Grouped(f.log, f.groups, []) && Logged(t.blocks, f.log)
  }
}
