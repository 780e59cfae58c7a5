/**
 Opening a table and looking a key up in it (table/table.cc): the footer leads to the index and the
 filter; a lookup asks the index, then the filter, then one data block.
 */
module TableLookup {
  import opened Optional
  import InternalKeys
  import opened Crc32c
  import opened Coding
  import opened BlockFormat
  import opened BlockIterator
  import opened ByteKeys
  import opened TableFormat
  import opened TableReader
  import opened TableBuilders
  import B = Bloom
  import F = FilterBlock

  /** The meta block has no entry for the filter's name, or leads to a filter made with this policy. */
  ghost predicate FilterMatches(t: TableParts, file: Bytes, policy: F.Policy, name: Bytes, f: FilterParts) {
    && |t.meta.pairs| <= 1
    && (|t.meta.pairs| == 1 && t.meta.pairs[0].key == FILTER_PREFIX + name ==>
          HasFilter(t, file, policy, name, f) && |F.Contents(f.offsets, f.result)| < TWO32)
  }

  /** The reader reads the filter of the table. */
  ghost predicate Reads(filter: F.FilterBlockReader, t: TableParts, file: Bytes, policy: F.Policy, name: Bytes,
                        f: FilterParts) {
    && HasFilter(t, file, policy, name, f) && |f.result| < TWO32 && filter.policy == policy && filter.Valid()
    && filter.data == F.Contents(f.offsets, f.result) && filter.offset == |f.result|
    && filter.num == |f.offsets| && filter.baseLg == F.FILTER_BASE_LG
  }

  method ReadMeta(file: Bytes, verifyChecksums: bool, metaHandle: BlockHandle, policy: F.Policy, name: Bytes,
                  ghost t: TableParts, ghost f: FilterParts)
    returns (filter: F.FilterBlockReader?)
    ensures filter != null ==> fresh(filter) && filter.Valid()
    ensures IsTable(t, file) && Small(t, file) && metaHandle == t.metaHandle &&
            FilterMatches(t, file, policy, name, f) ==>
              if t.meta.pairs != [] && t.meta.pairs[0].key == FILTER_PREFIX + name
              then filter != null && Reads(filter, t, file, policy, name, f)
              else filter == null
  {
    hide IsTable, HasFilter, IsBlock, F.Contents, BytesLess, BlockIter.Stands, BlockIter.Ready, BlockIter.Value;
    hide BlockIter.Fits, SortedPairs, IsOrder, StoredBlock, Reads;
    ghost var ok := IsTable(t, file) && Small(t, file) && metaHandle == t.metaHandle &&
        FilterMatches(t, file, policy, name, f);
    ghost var stored: Bytes := [];
    if ok {
      stored := MetaContents(t, file);
    }
    hide At, Small;
    OrderOfBytes();
    SortedIfFew(t.meta.pairs);
    var contents := ReadBlock(file, metaHandle, verifyChecksums, 0);
    if contents.None? {
      return null;
    }
    var iter := NewIterator(BytesLess, contents.value, t.meta);
    if iter == null {
      return null;
    }
    var key := FILTER_PREFIX + name;
    if ok {
      iter.ValidAt();
    }
    iter.Seek(key);
    if ok {
      iter.ValidAt();
      MetaSearch(t.meta.pairs, key, iter.pos);
    }
    filter := null;
    if iter.Valid() {
      if ok {
        iter.KeyHere();
      }
      if iter.key == key {
        filter := ReadFilter(file, verifyChecksums, iter.Value(), policy, name, t, f);
      }
    }
  }

  /** What a block handle leads to. */
  ghost function StoredContents(file: Bytes, handle: BlockHandle, layout: Layout): (c: Bytes)
    requires HasBlock(file, handle, layout)
    ensures IsBlock(layout, c) && handle.size == |c| && At(file, handle.offset, StoredBlock(c))
  {
    var c :| IsBlock(layout, c) && handle.size == |c| && At(file, handle.offset, StoredBlock(c));
    c
  }

  lemma MetaContents(t: TableParts, file: Bytes) returns (c: Bytes)
    requires IsTable(t, file) && Small(t, file)
    ensures IsBlock(t.meta, c) && t.metaHandle.size == |c| < TWO32 && At(file, t.metaHandle.offset, StoredBlock(c))
  {
    c := StoredContents(file, t.metaHandle, t.meta);
  }

  lemma IndexContents(t: TableParts, file: Bytes) returns (c: Bytes)
    requires IsTable(t, file) && Small(t, file)
    ensures IsBlock(t.index, c) && t.indexHandle.size == |c| < TWO32 && At(file, t.indexHandle.offset, StoredBlock(c))
    ensures SortedPairs(InternalLess, t.index.pairs)
  {
    c := StoredContents(file, t.indexHandle, t.index);
  }

  lemma SortedIfFew(pairs: seq<Pair>)
    ensures |pairs| <= 1 ==> SortedPairs(BytesLess, pairs)
  {
  }

  lemma MetaSearch(pairs: seq<Pair>, key: Bytes, i: nat)
    requires |pairs| <= 1 && IsFirstFrom(BytesLess, pairs, key, i)
    ensures |pairs| == 1 && pairs[0].key == key ==> i == 0
  {
    if |pairs| == 1 {
      BytesTotal(key, key);
    }
  }

  method ReadFilter(file: Bytes, verifyChecksums: bool, handleValue: Bytes, policy: F.Policy, name: Bytes,
                    ghost t: TableParts, ghost f: FilterParts)
    returns (filter: F.FilterBlockReader?)
    ensures filter != null ==> fresh(filter) && filter.Valid()
    ensures HasFilter(t, file, policy, name, f) && handleValue == t.meta.pairs[0].value && |file| < TWO64 &&
            |F.Contents(f.offsets, f.result)| < TWO32 ==>
              filter != null && Reads(filter, t, file, policy, name, f)
  {
    hide HandleBytes, DecodeHandle, StoredBlock, F.Contents, F.Holds, F.Grouped, Logged;
    ghost var ok := HasFilter(t, file, policy, name, f) && handleValue == t.meta.pairs[0].value && |file| < TWO64;
    if ok {
      AtStart(handleValue);
      HandleRoundTrip(handleValue, 0, f.handle);
    }
    hide At;
    var handle := DecodeHandle(handleValue, 0);
    if handle.None? {
      return null;
    }
    var contents := ReadBlock(file, handle.value.0, verifyChecksums, 0);
    if contents.None? {
      return null;
    }
    ResultIsSmaller(f.offsets, f.result);
    filter := new F.FilterBlockReader(policy, contents.value);
  }

  lemma ResultIsSmaller(offsets: seq<nat>, result: Bytes)
    ensures |result| < |F.Contents(offsets, result)|
  {
    hide Fixed, FixedArray, ToByte;
  }

  class Table {
    const file: Bytes
    const policy: Option<F.Policy>
    const filterName: Bytes
    const metaHandle: BlockHandle
    const indexContents: Bytes
    const filter: F.FilterBlockReader?
    ghost const t: TableParts
    ghost const f: FilterParts

    constructor (file: Bytes, policy: Option<F.Policy>, filterName: Bytes, metaHandle: BlockHandle,
                 indexContents: Bytes,
                 filter: F.FilterBlockReader?, ghost t: TableParts, ghost f: FilterParts)
      ensures this.file == file && this.policy == policy && this.filterName == filterName
      ensures this.metaHandle == metaHandle
      ensures this.indexContents == indexContents && this.filter == filter && this.t == t && this.f == f
    {
      this.file, this.policy, this.filterName, this.metaHandle := file, policy, filterName, metaHandle;
      this.indexContents, this.filter, this.t, this.f := indexContents, filter, t, f;
    }

    ghost predicate Good() {
      && IsTable(t, file) && Small(t, file) && IsBlock(t.index, indexContents) && |indexContents| < TWO32
      && (filter != null ==> policy.Some? && Reads(filter, t, file, InternalPolicy(policy.value), filterName, f))
    }

    ghost predicate Usable() {
      filter != null ==> filter.Valid()
    }

    method NewIndexIterator() returns (it: BlockIter?)
      ensures it != null ==> fresh(it) && it.Ready()
      ensures Good() ==> IteratesOver(it, t.index) && it.pos == |t.index.pairs|
    {
      hide IsBlock, Reads, BlocksOk, IndexOk, SortedPairs, BlockIter.StandsAt, HasBlock, FooterBytes, Formed;
      hide InternalLess;
      OrderOfInternalKeys();
      hide IsOrder;
      it := NewIterator(InternalLess, indexContents, t.index);
    }

    /** The iterator over the whole table; null when the index is malformed. */
    method NewTableIterator(verifyChecksums: bool) returns (it: TwoLevelIterator?)
      requires Good()
      ensures it != null && fresh(it) && fresh(it.Repr()) && it.t == t && it.Stands()
    {
      hide IsTable, Small, Reads, BlockIter.Ready, BlockIter.Stands;
      var indexIter := NewIndexIterator();
      it := new TwoLevelIterator(file, verifyChecksums, indexIter, t);
    }
  }

  /** What a lookup may answer: the first pair from `k` on, or nothing if that is of another user key. */
  ghost predicate IsAnswer(es: seq<Pair>, k: Bytes, g: nat, r: Option<Pair>)
    requires IsInternal(k)
  {
    && IsFirstFrom(InternalLess, es, k, g)
    && match r
       case Some(e) => g < |es| && e == es[g]
       case None => g < |es| ==> IsInternal(es[g].key) && UserKey(es[g].key) != UserKey(k)
  }

  ghost predicate Answers(blocks: seq<DataBlock>, k: Bytes, r: Option<Pair>)
    requires IsInternal(k)
  {
    exists g: nat :: IsAnswer(Entries(blocks), k, g, r)
  }

  /** Look up the first pair of `k`'s user key at or after `k`. */
  method InternalGet(table: Table, verifyChecksums: bool, k: Bytes) returns (r: Option<Pair>)
    requires IsInternal(k) && table.Usable()
    ensures table.Good() ==> Answers(table.t.blocks, k, r)
  {
    hide Table.Good, Table.Usable, BlockIter.Ready, BlockIter.Stands, BlockIter.Value, BlockIter.Fits, InternalLess;
    hide Answers, DecodeHandle;
    hide IsFirstFrom, DataBlock.StoredIn, HandleBytes;
    ghost var ok := table.Good();
    ghost var i := 0;
    ghost var b := DataBlock(Layout([], [], [], []), [], 0);
    r := None;
    var iiter := table.NewIndexIterator();
    if iiter == null {
      return;
    }
    if ok {
      iiter.ValidAt();
    }
    iiter.Seek(k);
    if ok {
      iiter.ValidAt();
      i := iiter.pos;
      b := BlockToRead(table, k, i);
    }
    if iiter.Valid() {
      var handleValue := iiter.Value();
      var mayMatch := MayHold(table, handleValue, b, k);
      if mayMatch {
        r := GetFromBlock(table, verifyChecksums, handleValue, k, i, b);
      } else if ok {
        FilteredOut(table, k, i);
      }
    }
  }

  /** Ask the filter, if there is one. */
  method MayHold(table: Table, handleValue: Bytes, ghost b: DataBlock, k: Bytes) returns (mayMatch: bool)
    requires table.Usable()
    ensures !mayMatch && handleValue == HandleBytes(b.Handle()) && b.Handle().Fits() ==>
              table.filter != null && table.filter.Valid() && !table.filter.Answer(b.offset, k)
  {
    hide HandleBytes, DecodeHandle, F.FilterBlockReader.Answer;
    if handleValue == HandleBytes(b.Handle()) && b.Handle().Fits() {
      AtStart(handleValue);
      HandleRoundTrip(handleValue, 0, b.Handle());
    }
    hide At;
    var handle := DecodeHandle(handleValue, 0);
    mayMatch := true;
    if table.filter != null && handle.Some? {
      mayMatch := table.filter.KeyMayMatch(handle.value.0.offset, k);
    }
  }

  /** The index has found block `b`, the `i`-th, for `k`. */
  ghost predicate LeadsTo(table: Table, handleValue: Bytes, k: Bytes, i: nat, b: DataBlock) {
    && IsFirstFrom(InternalLess, table.t.index.pairs, k, i) && i < |table.t.blocks| && b == table.t.blocks[i]
    && handleValue == HandleBytes(b.Handle())
  }

  method GetFromBlock(table: Table, verifyChecksums: bool, handleValue: Bytes, k: Bytes, ghost i: nat,
                      ghost b: DataBlock) returns (r: Option<Pair>)
    requires IsInternal(k)
    ensures table.Good() && LeadsTo(table, handleValue, k, i, b) ==> Answers(table.t.blocks, k, r)
  {
    hide Table.Good, BlockIter.Stands, BlockIter.Value, BlockIter.Fits, InternalLess, Answers, IsFirstFrom;
    hide DataBlock.StoredIn, HandleBytes;
    ghost var ok := table.Good() && LeadsTo(table, handleValue, k, i, b);
    if ok {
      BlockFacts(table, i);
    }
    r := None;
    var blockIter := BlockReader(table.file, verifyChecksums, handleValue, b);
    if blockIter == null {
      return;
    }
    if ok {
      blockIter.ValidAt();
    }
    blockIter.Seek(k);
    if ok {
      blockIter.ValidAt();
      AnswerAt(table, k, i, blockIter.pos);
    }
    if blockIter.Valid() {
      if ok {
        blockIter.KeyHere();
      }
      r := Some(Pair(blockIter.key, blockIter.Value()));
    }
  }

  lemma BlockFacts(table: Table, i: nat)
    requires table.Good() && i < |table.t.blocks|
    ensures var b := table.t.blocks[i];
            && b.StoredIn(table.file) && b.Handle().Fits() && |b.contents| < TWO32
            && |table.t.index.pairs| == |table.t.blocks| && table.t.index.pairs[i].value == HandleBytes(b.Handle())
  {
    hide HandleBytes, InternalLess, IsBlock, SortedPairs, Reads;
    assert table.t.blocks[i].StoredIn(table.file);
    assert IndexEntryOk(table.t.blocks, table.t.index.pairs[i], i);
  }

  /** The block the index leads to; past the last one there is nothing to read. */
  lemma BlockToRead(table: Table, k: Bytes, i: nat) returns (b: DataBlock)
    requires table.Good() && IsInternal(k) && IsFirstFrom(InternalLess, table.t.index.pairs, k, i)
    ensures i < |table.t.index.pairs| ==>
              && i < |table.t.blocks| && b == table.t.blocks[i] && b.Handle().Fits()
              && table.t.index.pairs[i].value == HandleBytes(b.Handle())
    ensures i >= |table.t.index.pairs| ==> Answers(table.t.blocks, k, None)
  {
    hide InternalLess, IsFirstFrom, HasBlock, SortedPairs, HandleBytes, DataBlock.StoredIn, IsBlock, Reads, FooterBytes;
    PairCount(table, k, i);
    if i < |table.t.blocks| {
      b := table.t.blocks[i];
      BlockFacts(table, i);
    } else {
      b := DataBlock(Layout([], [], [], []), [], 0);
      TwoSearches(table.t.blocks, table.t.index.pairs, table.file, k, i, 0);
      EndOfEntries(table.t.blocks);
      assert IsAnswer(Entries(table.t.blocks), k, |Entries(table.t.blocks)|, None);
    }
  }

  lemma PairCount(table: Table, k: Bytes, i: nat)
    requires table.Good() && IsFirstFrom(InternalLess, table.t.index.pairs, k, i)
    ensures |table.t.index.pairs| == |table.t.blocks| && i <= |table.t.blocks|
  {
  }

  /** What the search in the block finds is the answer of the table. */
  lemma AnswerAt(table: Table, k: Bytes, i: nat, p: nat)
    requires table.Good() && IsInternal(k) && IsFirstFrom(InternalLess, table.t.index.pairs, k, i)
    requires i < |table.t.blocks|
    requires IsFirstFrom(InternalLess, table.t.blocks[i].Pairs(), k, p)
    ensures var pairs := table.t.blocks[i].Pairs();
            Answers(table.t.blocks, k, if p < |pairs| then Some(pairs[p]) else None)
  {
    hide InternalLess, HasBlock, HandleBytes, IsBlock, Reads, FooterBytes, Entries, At;
    var blocks, index := table.t.blocks, table.t.index.pairs;
    var pairs := blocks[i].Pairs();
    TwoSearches(blocks, index, table.file, k, i, p);
    var g := StartOf(blocks, i) + p;
    if p < |pairs| {
      EntryAt(blocks, i, p);
      assert IsAnswer(Entries(blocks), k, g, Some(pairs[p]));
    } else {
      BeyondBlock(table, k, i);
      assert IsAnswer(Entries(blocks), k, g, None);
    }
  }

  /** When all of the block is below `k`, the next block begins with another user key. */
  lemma BeyondBlock(table: Table, k: Bytes, i: nat)
    requires table.Good() && IsInternal(k) && IsFirstFrom(InternalLess, table.t.index.pairs, k, i)
    requires i < |table.t.blocks|
    requires IsFirstFrom(InternalLess, table.t.blocks[i].Pairs(), k, |table.t.blocks[i].Pairs()|)
    ensures var es := Entries(table.t.blocks);
            var g := StartOf(table.t.blocks, i) + |table.t.blocks[i].Pairs()|;
            g < |es| ==> IsInternal(es[g].key) && UserKey(es[g].key) != UserKey(k)
  {
    hide InternalLess, HasBlock, HandleBytes, IsBlock, Reads, FooterBytes, Entries, At;
    var blocks, index := table.t.blocks, table.t.index.pairs;
    assert blocks[i].StoredIn(table.file);
    assert IndexEntryOk(blocks, index[i], i);
    var last := blocks[i].Pairs()[|blocks[i].Pairs()| - 1];
    PositionInside(blocks, i, |blocks[i].Pairs()|);
    EndOfEntries(blocks);
    if i + 1 < |blocks| {
      var next := blocks[i + 1];
      assert next.StoredIn(table.file);
      EntryAt(blocks, i + 1, 0);
      assert index[i].key == index[i].key;
      NothingBeyond(last.key, index[i].key, next.FirstKey(), k);
      BytesTotal(UserKey(k), UserKey(k));
    }
  }

  lemma FirstFromExists(less: Order, pairs: seq<Pair>, target: Bytes) returns (p: nat)
    requires IsOrder(less) && SortedPairs(less, pairs)
    ensures IsFirstFrom(less, pairs, target, p)
  {
    p := 0;
    while p < |pairs| && less(pairs[p].key, target)
      invariant p <= |pairs|
      invariant forall j :: 0 <= j < p ==> less(pairs[j].key, target)
    {
      p := p + 1;
    }
    forall j | p <= j < |pairs|
      ensures !less(pairs[j].key, target)
    {
      assert j > p ==> less(pairs[p].key, pairs[j].key);
    }
  }

  /** A filter never hides a pair: it holds every key of the block, and it looks at user keys only. */
  lemma FilteredOut(table: Table, k: Bytes, i: nat)
    requires table.Good() && IsInternal(k) && IsFirstFrom(InternalLess, table.t.index.pairs, k, i)
    requires i < |table.t.blocks|
    requires table.filter != null && table.filter.Valid() && !table.filter.Answer(table.t.blocks[i].offset, k)
    ensures Answers(table.t.blocks, k, None)
  {
    hide InternalLess, HandleBytes, IsBlock, FooterBytes, Entries, At, F.FilterBlockReader.Answer, Reads, HasBlock;
    var blocks := table.t.blocks;
    var pairs := blocks[i].Pairs();
    BlockFacts(table, i);
    var p := PositionInBlock(table, k, i);
    hide IsOrder, SortedPairs, IsFirstFrom, DataBlock.StoredIn;
    if p < |pairs| {
      TwoSearches(blocks, table.t.index.pairs, table.file, k, i, p);
      EntryAt(blocks, i, p);
      Unfiltered(table, k, i, p);
      assert IsAnswer(Entries(blocks), k, StartOf(blocks, i) + p, None);
    } else {
      AnswerAt(table, k, i, p);
    }
  }

  lemma PositionInBlock(table: Table, k: Bytes, i: nat) returns (p: nat)
    requires table.Good() && i < |table.t.blocks|
    ensures IsFirstFrom(InternalLess, table.t.blocks[i].Pairs(), k, p)
  {
    hide InternalLess, IsFirstFrom, IsBlock, At;
    BlockFacts(table, i);
    OrderOfInternalKeys();
    p := FirstFromExists(InternalLess, table.t.blocks[i].Pairs(), k);
  }

  lemma Unfiltered(table: Table, k: Bytes, i: nat, p: nat)
    requires table.Good() && IsInternal(k) && i < |table.t.blocks| && p < |table.t.blocks[i].Pairs()|
    requires table.filter != null && table.filter.Valid() && !table.filter.Answer(table.t.blocks[i].offset, k)
    ensures var key := table.t.blocks[i].Pairs()[p].key; IsInternal(key) && UserKey(key) != UserKey(k)
  {
    hide F.FilterBlockReader.Answer, Table.Good;
    NotFiltered(table, i, p);
    var key := table.t.blocks[i].Pairs()[p].key;
    if UserKey(key) == UserKey(k) {
      SameAnswer(table.filter, InternalPolicy(table.policy.value), table.t.blocks[i].offset, key, k);
    }
  }

  lemma NotFiltered(table: Table, i: nat, p: nat)
    requires table.Good() && i < |table.t.blocks| && p < |table.t.blocks[i].Pairs()| && table.filter != null
    requires table.filter.Valid()
    ensures table.filter.Answer(table.t.blocks[i].offset, table.t.blocks[i].Pairs()[p].key)
    ensures table.policy.Some? && table.filter.policy == InternalPolicy(table.policy.value)
    ensures IsInternal(table.t.blocks[i].Pairs()[p].key)
  {
    hide InternalLess, HandleBytes, IsBlock, FooterBytes, Entries, At, F.FilterBlockReader.Answer, F.Holds, F.Grouped;
    hide F.Contents, HasBlock;
    var b := table.t.blocks[i];
    BlockFacts(table, i);
    var e := b.Pairs()[p];
    assert PairsLogged(b.Pairs(), b.offset, table.f.log);
    F.NoFalseNegatives(table.filter, table.f.log, table.f.groups, table.f.offsets, table.f.result,
        F.Added(b.offset, e.key));
  }

  lemma SameAnswer(filter: F.FilterBlockReader, policy: F.Policy, offset: nat, a: Bytes, b: Bytes)
    requires filter.Valid() && filter.policy == policy && policy.hash(a) == policy.hash(b)
    ensures filter.Answer(offset, a) <==> filter.Answer(offset, b)
  {
    hide GetFixed, F.FilterBlockReader.IndexOf, B.ProbeIsSet;
  }

  /** Open a file that may hold a table. */
  method OpenTable(file: Bytes, paranoid: bool, policy: Option<F.Policy>, name: Bytes, ghost t: TableParts,
                   ghost f: FilterParts)
    returns (table: Table?)
    ensures table != null ==> fresh(table) && table.Usable()
    ensures IsTable(t, file) && Small(t, file) &&
            (policy.Some? ==> FilterMatches(t, file, InternalPolicy(policy.value), name, f)) ==>
              && table != null && table.file == file && table.t == t && table.f == f && table.Good()
              && (table.filter != null <==>
                 policy.Some? && t.meta.pairs != [] && t.meta.pairs[0].key == FILTER_PREFIX + name)
  {
    hide IsTable, Small, IsBlock, FilterMatches, Reads, DecodeFooter, StoredBlock, At, SortedPairs;
    ghost var ok := IsTable(t, file) && Small(t, file);
    ghost var stored: Bytes := [];
    if ok {
      stored := IndexContents(t, file);
      FooterOf(t, file);
    }
    if |file| < FOOTER_LENGTH {
      return null;
    }
    var footer := DecodeFooter(file[|file| - FOOTER_LENGTH..]);
    if footer.None? {
      return null;
    }
    var contents := ReadBlock(file, footer.value.index, paranoid, 0);
    if contents.None? {
      return null;
    }
    var filter := null;
    if policy.Some? {
      filter := ReadMeta(file, paranoid, footer.value.meta, InternalPolicy(policy.value), name, t, f);
    }
    table := new Table(file, policy, name, footer.value.meta, contents.value, filter, t, f);
  }

  lemma HandleFits(file: Bytes, handle: BlockHandle, layout: Layout)
    requires HasBlock(file, handle, layout) && |file| < TWO64
    ensures handle.Fits()
  {
    hide IsBlock, StoredBlock;
  }

  lemma FooterOf(t: TableParts, file: Bytes)
    requires IsTable(t, file) && Small(t, file)
    ensures |file| >= FOOTER_LENGTH
    ensures DecodeFooter(file[|file| - FOOTER_LENGTH..]) == Some(Footer(t.metaHandle, t.indexHandle))
  {
    hide DecodeFooter, FooterBytes, BlocksOk, IndexOk, SortedPairs, HasBlock, OffsetsAscend;
    HandleFits(file, t.metaHandle, t.meta);
    HandleFits(file, t.indexHandle, t.index);
    FooterRoundTrip(t.metaHandle, t.indexHandle);
  }

  // ----- what a lookup means

  /** Stored keys have a sequence and one of the two types. */
  ghost predicate Typed(es: seq<Pair>) {
    forall i {:trigger es[i]} :: 0 <= i < |es| ==> IsInternal(es[i].key) && Tag(es[i].key) % 256 <= VALUE_TYPE_FOR_SEEK
  }

  /** Pair `i` is a version of the user key that a reader at `sequence` may see. */
  ghost predicate Sees(es: seq<Pair>, userKey: Bytes, sequence: nat, i: nat) {
    i < |es| && IsInternal(es[i].key) && UserKey(es[i].key) == userKey && Tag(es[i].key) / 256 <= sequence
  }

  ghost predicate IsVersionOf(r: Option<Pair>, userKey: Bytes) {
    r.Some? && IsInternal(r.value.key) && UserKey(r.value.key) == userKey
  }

  /** The newest version that a reader at `sequence` may see. */
  ghost predicate IsNewestSeen(es: seq<Pair>, userKey: Bytes, sequence: nat, i: nat) {
    && Sees(es, userKey, sequence, i)
    && forall j: nat :: Sees(es, userKey, sequence, j) ==> Tag(es[j].key) <= Tag(es[i].key)
  }

  /**
   A lookup of a user key at a sequence finds a pair of that key if and only if the table holds one
   with that sequence or an older one, and then it finds the newest of them.
   */
  lemma GetFindsNewest(blocks: seq<DataBlock>, userKey: Bytes, sequence: nat, r: Option<Pair>)
    requires sequence <= InternalKeys.MAX_SEQUENCE && Typed(Entries(blocks))
    requires SortedPairs(InternalLess, Entries(blocks))
    requires Answers(blocks, InternalKeyOf(userKey, sequence, VALUE_TYPE_FOR_SEEK), r)
    ensures (exists i: nat :: Sees(Entries(blocks), userKey, sequence, i)) <==> IsVersionOf(r, userKey)
    ensures IsVersionOf(r, userKey) ==>
            exists i: nat :: IsNewestSeen(Entries(blocks), userKey, sequence, i) && Entries(blocks)[i] == r.value
  {
    hide Entries, InternalLess, GetFixed, InternalKeyOf, SortedPairs, IsFirstFrom, Typed;
    var es := Entries(blocks);
    var k := InternalKeyOf(userKey, sequence, VALUE_TYPE_FOR_SEEK);
    var g: nat :| IsAnswer(es, k, g, r);
    forall i: nat | Sees(es, userKey, sequence, i)
      ensures g < |es| && Sees(es, userKey, sequence, g) && i < |es| && IsInternal(es[i].key)
      ensures Tag(es[i].key) <= Tag(es[g].key)
    {
      SeenFromFirst(es, userKey, sequence, g, i);
    }
    InternalKeyRoundTrip(userKey, sequence, VALUE_TYPE_FOR_SEEK);
    SeenAtFirst(es, userKey, sequence, g);
  }

  lemma SeenAtFirst(es: seq<Pair>, userKey: Bytes, sequence: nat, g: nat)
    requires sequence <= InternalKeys.MAX_SEQUENCE && Typed(es)
    requires IsFirstFrom(InternalLess, es, InternalKeyOf(userKey, sequence, VALUE_TYPE_FOR_SEEK), g)
    ensures g < |es| && IsInternal(es[g].key) && UserKey(es[g].key) == userKey <==> Sees(es, userKey, sequence, g)
  {
    hide GetFixed, InternalKeyOf, BytesLess;
    InternalKeyRoundTrip(userKey, sequence, VALUE_TYPE_FOR_SEEK);
    if g < |es| && IsInternal(es[g].key) && UserKey(es[g].key) == userKey {
      assert !InternalLess(es[g].key, InternalKeyOf(userKey, sequence, VALUE_TYPE_FOR_SEEK));
    }
  }

  /** What a reader may see is not before the answer, and the answer is newer. */
  lemma SeenFromFirst(es: seq<Pair>, userKey: Bytes, sequence: nat, g: nat, i: nat)
    requires sequence <= InternalKeys.MAX_SEQUENCE && Typed(es) && SortedPairs(InternalLess, es)
    requires IsFirstFrom(InternalLess, es, InternalKeyOf(userKey, sequence, VALUE_TYPE_FOR_SEEK), g)
    requires Sees(es, userKey, sequence, i)
    ensures g <= i && Sees(es, userKey, sequence, g) && Tag(es[i].key) <= Tag(es[g].key)
  {
    hide GetFixed, InternalKeyOf, BytesLess;
    var k := InternalKeyOf(userKey, sequence, VALUE_TYPE_FOR_SEEK);
    InternalKeyRoundTrip(userKey, sequence, VALUE_TYPE_FOR_SEEK);
    BytesTotal(userKey, userKey);
    var e := es[i];
    TagOf(Tag(e.key), sequence);
    assert !InternalLess(e.key, k);
    var first := es[g];
    assert !InternalLess(first.key, k);
    assert g < i ==> InternalLess(first.key, e.key);
    BytesTotal(UserKey(first.key), userKey);
  }

  lemma TagOf(tag: nat, sequence: nat)
    requires tag % 256 <= 1
    ensures tag / 256 <= sequence <==> tag <= sequence * 256 + 1
  {
  }

  /**
   Get at a sequence: an opened table reports a pair of the user key exactly if it holds one with
   that sequence or an older one, and then it reports the newest of those.
   */
  method GetAt(table: Table, verifyChecksums: bool, userKey: Bytes, sequence: nat) returns (r: Option<Pair>)
    requires table.Good() && sequence <= InternalKeys.MAX_SEQUENCE && Typed(Entries(table.t.blocks))
    ensures var es := Entries(table.t.blocks);
            && ((exists i: nat :: Sees(es, userKey, sequence, i)) <==> r.Some?)
            && (r.Some? ==> exists i: nat :: IsNewestSeen(es, userKey, sequence, i) && es[i] == r.value)
  {
    hide Table.Good, Entries, Answers, Typed, Sees, IsNewestSeen, InternalLess, SortedPairs, InternalKeyOf;
    TableIsSorted(table);
    var k := InternalKeyOf(userKey, sequence, VALUE_TYPE_FOR_SEEK);
    var found := InternalGet(table, verifyChecksums, k);
    GetFindsNewest(table.t.blocks, userKey, sequence, found);
    r := if found.Some? && IsInternal(found.value.key) && UserKey(found.value.key) == userKey then found else None;
  }

  lemma TableIsSorted(table: Table)
    requires table.Good()
    ensures table.Usable() && SortedPairs(InternalLess, Entries(table.t.blocks))
  {
    hide BlocksOk, IndexOk, Entries, InternalLess, HasBlock, HasFilter, IsBlock;
    EntriesAreSorted(table.t.blocks, table.t.index.pairs, table.file);
  }

  // ----- build, open, read

  /**
   A table built from sorted pairs, opened again: its iterator lists exactly those pairs, and a
   lookup answers for them.
   */
  method TableRoundTrip(restartInterval: nat, blockSize: nat, policy: Option<F.Policy>, name: Bytes, pairs: seq<Pair>,
                        k: Bytes)
    returns (file: Bytes, out: seq<Pair>, found: Option<Pair>)
    requires restartInterval >= 1 && SortedPairs(InternalLess, pairs) && InternalPairs(pairs) && IsInternal(k)
    ensures |file| < TWO32 ==> out == pairs && exists g: nat :: IsAnswer(pairs, k, g, found)
  {
    hide IsTable, Small, SortedPairs, InternalPairs, HasFilter, FilterMatches, Table.Good, Entries, InternalLess;
    hide IsAnswer;
    ghost var t: TableParts;
    ghost var f: FilterParts;
    file, t, f := BuildTable(restartInterval, blockSize, policy, name, pairs);
    out, found := [], None;
    if |file| >= TWO32 {
      return;
    }
    SmallFile(t, file, policy, name, f);
    var table := OpenTable(file, true, policy, name, t, f);
    found := InternalGet(table, true, k);
    out := ReadTable(table);
  }

  method BuildTable(restartInterval: nat, blockSize: nat, policy: Option<F.Policy>, name: Bytes, pairs: seq<Pair>)
    returns (file: Bytes, ghost t: TableParts, ghost f: FilterParts)
    requires restartInterval >= 1 && SortedPairs(InternalLess, pairs) && InternalPairs(pairs)
    ensures IsTable(t, file) && Entries(t.blocks) == pairs
    ensures policy.None? ==> t.meta.pairs == []
    ensures policy.Some? ==> HasFilter(t, file, InternalPolicy(policy.value), name, f)
  {
    hide IsTable, HasFilter, Entries, InternalLess, SortedPairs, InternalPairs, TableBuilder.Valid, InternalPolicy;
    var builder := new TableBuilder(restartInterval, blockSize, policy, name);
    for i := 0 to |pairs|
      invariant fresh(builder.Repr()) && builder.Valid() && !builder.closed && builder.Added() == pairs[..i]
      invariant builder.numEntries == i && (i > 0 ==> builder.lastKey == pairs[i - 1].key)
    {
      NextPair(pairs, i);
      builder.Add(pairs[i].key, pairs[i].value);
    }
    assert pairs[..|pairs|] == pairs;
    t, f := builder.Finish();
    file := builder.file;
  }

  lemma NextPair(pairs: seq<Pair>, i: nat)
    requires SortedPairs(InternalLess, pairs) && InternalPairs(pairs) && i < |pairs|
    ensures IsInternal(pairs[i].key) && (i > 0 ==> InternalLess(pairs[i - 1].key, pairs[i].key))
  {
  }

  method ReadTable(table: Table) returns (out: seq<Pair>)
    requires table.Good()
    ensures out == Entries(table.t.blocks)
  {
    hide Table.Good, Entries, BlockIter.Ready, BlockIter.Stands, BlockIter.Fits, BlockIter.Value, IsTable, Small;
    hide InternalLess, HandleBytes;
    var it := table.NewTableIterator(true);
    out := [];
    it.SeekToFirst();
    it.PairHere();
    ghost var es := Entries(table.t.blocks);
    while it.Valid()
      invariant fresh(it) && fresh(it.Repr()) && it.Stands() && it.t == table.t
      invariant it.pos <= |es| && (it.Valid() <==> it.pos < |es|) && out == es[..it.pos]
      decreases |es| - it.pos
    {
      it.PairHere();
      out := out + [Pair(it.dataIter.key, it.dataIter.Value())];
      it.Next();
      it.PairHere();
    }
  }

  /** Tables below four gigabytes need no further conditions. */
  lemma SmallFile(t: TableParts, file: Bytes, policy: Option<F.Policy>, name: Bytes, f: FilterParts)
    requires IsTable(t, file) && |file| < TWO32
    requires policy.None? ==> t.meta.pairs == []
    requires policy.Some? ==> HasFilter(t, file, InternalPolicy(policy.value), name, f)
    ensures Small(t, file)
    ensures policy.Some? ==> FilterMatches(t, file, InternalPolicy(policy.value), name, f)
  {
    hide InternalLess, IsBlock, IndexOk, F.Contents, HandleBytes, SortedPairs, F.Holds, F.Grouped, Logged;
    forall i | 0 <= i < |t.blocks|
      ensures |t.blocks[i].contents| < TWO32
    {
      assert t.blocks[i].StoredIn(file);
    }
  }
}
