/**
 The iterator over the pairs of a block (table/block.cc). It works on any bytes; on a block that a
 builder finished it is a cursor over the pairs that were added.
 */
module BlockIterator {
  import opened Crc32c
  import opened Coding
  import opened BlockFormat

  // ----- opening

  datatype Opened = BadBlock | Block(restartOffset: nat, numRestarts: nat)

  /** The array of restart points must fit. */
  function OpenBlock(contents: Bytes): (r: Opened)
    ensures r.Block? ==> r.restartOffset + 4 * r.numRestarts + 4 == |contents|
  {
    if |contents| < 4 then BadBlock
    else
      var numRestarts := GetFixed(contents, |contents| - 4, 4);
      if numRestarts > (|contents| - 4) / 4 then BadBlock
      else Block(|contents| - (1 + numRestarts) * 4, numRestarts)
  }

  /** What the numbers of an opened block say when a builder finished it. */
  ghost predicate Formed(l: Layout, contents: Bytes, restarts: nat, numRestarts: nat) {
    && |contents| < TWO32 && restarts + 4 * numRestarts + 4 == |contents|
    && l.Ok(contents[..restarts]) && numRestarts == |l.heads|
    && forall j {:trigger l.heads[j]} :: 0 <= j < numRestarts ==> RestartAt(l, contents, restarts, j)
  }

  ghost predicate RestartAt(l: Layout, contents: Bytes, restarts: nat, j: nat)
    requires l.Shaped() && j < |l.heads| && restarts + 4 * |l.heads| + 4 == |contents|
  {
    l.heads[j] < |l.offsets| && GetFixed(contents, restarts + 4 * j, 4) == l.offsets[l.heads[j]]
  }

  /** Every finished block opens with its own restart points. */
  lemma FinishedBlockOpens(l: Layout, contents: Bytes)
    requires IsBlock(l, contents) && |contents| < TWO32
    ensures var b := OpenBlock(contents);
            b.Block? && b.numRestarts > 0 && Formed(l, contents, b.restartOffset, b.numRestarts)
  {
    hide Layout.EntriesOk, Layout.HeadsOk, GetFixed, Fixed, FixedArray, At;
    var data :| l.Ok(data) && HasRestarts(l, data, contents);
    var restarts := l.Restarts();
    var n := |restarts|;
    HeadsNotEmpty(l);
    TrailerOfBlock(data, restarts);
    assert contents[..|data|] == data;
    forall j | 0 <= j < n
      ensures RestartAt(l, contents, |data|, j)
    {
      RestartRoundTrip(l, data, j);
    }
  }

  lemma HeadsNotEmpty(l: Layout)
    requires l.Shaped() && l.HeadsOk()
    ensures |l.heads| > 0
    ensures forall j :: 0 <= j < |l.heads| ==> l.heads[j] < |l.offsets| && l.Restarts()[j] == l.offsets[l.heads[j]]
  {
    assert forall j :: 0 <= j < |l.heads| ==> l.HeadOk(l.heads[j]);
  }

  lemma TrailerOfBlock(data: Bytes, restarts: seq<nat>)
    requires |BlockBytes(data, restarts)| < TWO32
    ensures OpenBlock(BlockBytes(data, restarts)) == Block(|data|, |restarts|)
  {
    hide Fixed, FixedArray, GetFixed;
    Powers();
    var front := data + FixedArray(restarts);
    AtAfter(front, Fixed(|restarts|, 4), []);
    assert front + Fixed(|restarts|, 4) + [] == BlockBytes(data, restarts);
    FixedRoundTrip(BlockBytes(data, restarts), |front|, |restarts|, 4);
  }

  lemma RestartRoundTrip(l: Layout, data: Bytes, j: nat)
    requires l.Ok(data) && j < |l.heads| && |BlockBytes(data, l.Restarts())| < TWO32
    ensures RestartAt(l, BlockBytes(data, l.Restarts()), |data|, j)
  {
    hide Layout.EntriesOk, Fixed, FixedArray, GetFixed, At, EntryBytes;
    Powers();
    var restarts := l.Restarts();
    HeadsNotEmpty(l);
    FixedArrayAt(restarts, j);
    AtInside(data, FixedArray(restarts), Fixed(|restarts|, 4), 4 * j, Fixed(restarts[j], 4));
    OffsetsGrow(l, data, l.heads[j], |l.pairs|);
    FixedRoundTrip(BlockBytes(data, restarts), |data| + 4 * j, restarts[j], 4);
  }

  // ----- positions

  /** `index` is the restart point in front of entry `pos`: the last one before it, or its own. */
  ghost predicate InRestart(l: Layout, index: nat, pos: nat) {
    && index < |l.heads| && l.heads[index] <= pos
    && (index + 1 < |l.heads| ==> pos <= l.heads[index + 1])
  }

  lemma PairAt(l: Layout, contents: Bytes, restarts: nat, numRestarts: nat, pos: nat)
    requires Formed(l, contents, restarts, numRestarts) && pos < |l.pairs|
    ensures l.shares[pos] <= |l.pairs[pos].key| && l.SharedAt(pos)
    ensures var p := l.offsets[pos];
            var e := l.pairs[pos];
            var h := p + |HeaderOf(l.shares[pos], e)|;
            && p < l.offsets[pos + 1] <= restarts
            && DecodeEntry(contents, p, restarts) == Decoded(l.shares[pos], |e.key| - l.shares[pos], |e.value|, h)
            && At(contents, h, e.key[l.shares[pos]..]) && At(contents, h + |e.key| - l.shares[pos], e.value)
            && h + |e.key| - l.shares[pos] + |e.value| == l.offsets[pos + 1]
  {
    hide Layout.HeadsOk, Layout.EntriesOk, HeaderOf, EntryBytes, DecodeEntry, RestartAt, At;
    var data := contents[..restarts];
    var e := l.pairs[pos];
    EntryOf(l, data, pos);
    AtGrows(data, l.offsets[pos], EntryBytes(l.shares[pos], e), contents[restarts..]);
    assert data + contents[restarts..] == contents;
    EntryRoundTrip(contents, l.offsets[pos], restarts, l.shares[pos], e);
  }

  lemma SharedOf(l: Layout, data: Bytes, pos: nat)
    requires l.Ok(data) && pos < |l.pairs|
    ensures l.shares[pos] <= |l.pairs[pos].key| && l.SharedAt(pos)
  {
    hide EntryBytes, HeaderOf, At, Layout.HeadsOk;
    var e := l.pairs[pos];
    assert l.EntryAt(data, pos);
  }

  lemma EntryOf(l: Layout, data: Bytes, pos: nat)
    requires l.Ok(data) && pos < |l.pairs|
    ensures l.shares[pos] <= |l.pairs[pos].key| <= |data| && l.SharedAt(pos)
    ensures l.offsets[pos] + |EntryBytes(l.shares[pos], l.pairs[pos])| == l.offsets[pos + 1] <= |data|
    ensures l.offsets[pos] < l.offsets[pos + 1] && At(data, l.offsets[pos], EntryBytes(l.shares[pos], l.pairs[pos]))
  {
    hide Layout.HeadsOk, HeaderOf, EntryBytes, At;
    var e := l.pairs[pos];
    assert l.EntryAt(data, pos);
    KeysFit(l, data, pos);
  }

  lemma OrderOfOffsets(l: Layout, contents: Bytes, restarts: nat, numRestarts: nat, i: nat, j: nat)
    requires Formed(l, contents, restarts, numRestarts) && i <= |l.pairs| && j <= |l.pairs|
    ensures i < j <==> l.offsets[i] < l.offsets[j]
    ensures l.offsets[i] <= l.offsets[|l.pairs|] == restarts
  {
    hide Layout.HeadsOk, RestartAt, Layout.EntriesOk;
    var data := contents[..restarts];
    if i <= j {
      OffsetsGrow(l, data, i, j);
    } else {
      OffsetsGrow(l, data, j, i);
    }
    OffsetsGrow(l, data, i, |l.pairs|);
  }

  lemma HeadAt(l: Layout, contents: Bytes, restarts: nat, numRestarts: nat, j: nat)
    requires Formed(l, contents, restarts, numRestarts) && j < numRestarts
    ensures l.heads[j] <= |l.pairs| && (l.heads[j] < |l.pairs| ==> l.shares[l.heads[j]] == 0)
    ensures GetFixed(contents, restarts + 4 * j, 4) == l.offsets[l.heads[j]]
    ensures l.heads[0] == 0 && (j > 0 ==> l.heads[j] < |l.pairs|)
    ensures j + 1 < numRestarts ==> l.heads[j] < l.heads[j + 1]
  {
    hide Layout.EntriesOk, GetFixed;
    assert l.HeadOk(l.heads[j]);
    assert RestartAt(l, contents, restarts, j);
    assert l.heads[0] == 0;
  }

  // ----- the iterator

  class BlockIter {
    const less: Order
    const contents: Bytes
    const restarts: nat
    const numRestarts: nat
    var current: nat
    var restartIndex: nat
    var key: Bytes
    var valueStart: nat
    var valueSize: nat
    var corrupted: bool
    ghost const layout: Layout
    /** The position, or the number of pairs when the iterator is not valid. */
    ghost var pos: nat

    /** Holds for any bytes. */
    ghost predicate Ready()
      reads this
    {
      && numRestarts > 0 && restarts + 4 * numRestarts + 4 == |contents|
      && (current < restarts ==> restartIndex < numRestarts && valueStart + valueSize <= restarts)
    }

    ghost predicate Fits() {
      Formed(layout, contents, restarts, numRestarts) && IsOrder(less) && SortedPairs(less, layout.pairs)
    }

    /** The iterator stands at `pos`. */
    ghost predicate Stands()
      reads this
    {
      Fits() && pos <= |layout.pairs| && StandsAt()
    }

    ghost predicate StandsAt()
      requires Formed(layout, contents, restarts, numRestarts)
      reads this
    {
      && !corrupted
      && if pos < |layout.pairs| then
           && current == layout.offsets[pos] < restarts && key == layout.pairs[pos].key
           && At(contents, valueStart, layout.pairs[pos].value) && valueSize == |layout.pairs[pos].value|
           && valueStart + valueSize == layout.offsets[pos + 1]
           && InRestart(layout, restartIndex, pos)
         else current == restarts
    }

    /** Parsing the next key leads to entry `next`. */
    ghost predicate Before(next: nat)
      reads this
    {
      Fits() && next <= |layout.pairs| && BeforeEntry(next)
    }

    ghost predicate BeforeEntry(next: nat)
      requires Formed(layout, contents, restarts, numRestarts) && next <= |layout.pairs|
      reads this
    {
      && !corrupted && valueStart + valueSize == layout.offsets[next]
      && restartIndex < numRestarts && layout.heads[restartIndex] <= next
      && (next < |layout.pairs| ==> layout.shares[next] <= |key| && layout.shares[next] <= |layout.pairs[next].key|
                                    && key[..layout.shares[next]] == layout.pairs[next].key[..layout.shares[next]])
    }

    constructor (less: Order, contents: Bytes, restarts: nat, numRestarts: nat, ghost layout: Layout)
      requires numRestarts > 0 && restarts + 4 * numRestarts + 4 == |contents|
      ensures this.less == less && this.contents == contents && this.restarts == restarts
      ensures this.numRestarts == numRestarts
      ensures this.layout == layout && Ready() && !corrupted
      ensures Fits() ==> Stands() && pos == |layout.pairs|
    {
      this.less, this.contents, this.restarts, this.numRestarts, this.layout :=
          less, contents, restarts, numRestarts, layout;
      current, restartIndex, key, valueStart, valueSize, corrupted := restarts, numRestarts, [], 0, 0, false;
      pos := |layout.pairs|;
    }

    predicate Valid()
      reads this
    {
      current < restarts
    }

    function Value(): (r: Bytes)
      requires Ready() && Valid()
      reads this
      ensures Stands() ==> pos < |layout.pairs| && r == layout.pairs[pos].value && key == layout.pairs[pos].key
    {
      contents[valueStart..valueStart + valueSize]
    }

    function NextEntryOffset(): nat
      reads this
    {
      valueStart + valueSize
    }

    function GetRestartPoint(index: nat): nat
      requires restarts + 4 * numRestarts + 4 == |contents| && index < numRestarts
    {
      GetFixed(contents, restarts + 4 * index, 4)
    }

    method SeekToRestartPoint(index: nat)
      requires Ready() && index < numRestarts
      modifies this
      ensures restartIndex == index && valueStart == GetRestartPoint(index) && valueSize == 0 && key == []
      ensures current == restarts
      ensures corrupted == old(corrupted)
      ensures !corrupted && Fits() ==> layout.heads[index] <= |layout.pairs| && Before(layout.heads[index])
    {
      key := [];
      restartIndex := index;
      valueStart, valueSize := GetRestartPoint(index), 0;
      current := restarts;
      if Fits() {
        HeadAt(layout, contents, restarts, numRestarts, index);
      }
    }

    method CorruptionError()
      modifies this
      ensures current == restarts && corrupted
    {
      current, restartIndex, corrupted := restarts, numRestarts, true;
      key, valueStart, valueSize := [], 0, 0;
    }

    /** Move to the entry that begins where the current one ends. */
    method ParseNextKey(ghost next: nat) returns (r: bool)
      requires numRestarts > 0 && restarts + 4 * numRestarts + 4 == |contents| && restartIndex < numRestarts
      modifies this
      ensures Ready() && (r <==> current < restarts)
      ensures r ==> current == old(NextEntryOffset()) < NextEntryOffset()
      ensures old(Before(next)) ==> Stands() && pos == next && (r <==> next < |layout.pairs|)
    {
      hide BlockIter.Fits, BlockIter.Before, BlockIter.Stands, DecodeEntry;
      ghost var ok := Before(next);
      if ok {
        MeetsEntry(next);
      }
      pos := next;
      current := NextEntryOffset();
      var p := current;
      if p >= restarts {
        current := restarts;
        restartIndex := numRestarts;
        if ok {
          StandsAtEnd();
        }
        return false;
      }
      var d := DecodeEntry(contents, p, restarts);
      if d.BadEntry? || |key| < d.shared {
        CorruptionError();
        return false;
      }
      key := key[..d.shared];
      key := key + contents[d.next..d.next + d.nonShared];
      valueStart, valueSize := d.next + d.nonShared, d.valueLength;
      AdvanceRestart();
      if ok {
        StandsAtEntry();
      }
      return true;
    }

    /** What parsing finds at the entry `next`. */
    lemma MeetsEntry(next: nat)
      requires Before(next) && restarts <= |contents|
      ensures Fits() && next <= |layout.pairs| && |layout.offsets| == |layout.pairs| + 1
      ensures NextEntryOffset() == layout.offsets[next] && !corrupted
      ensures restartIndex < |layout.heads| && layout.heads[restartIndex] <= next
      ensures next == |layout.pairs| <==> NextEntryOffset() >= restarts
      ensures next < |layout.pairs| ==>
                var e := layout.pairs[next];
                var d := DecodeEntry(contents, NextEntryOffset(), restarts);
                && d.Decoded? && d.shared <= |key| && key[..d.shared] + contents[d.next..d.next + d.nonShared] == e.key
                && d.valueLength == |e.value| && At(contents, d.next + d.nonShared, e.value)
                && d.next + d.nonShared + d.valueLength == layout.offsets[next + 1]
    {
      hide Layout.Ok, RestartAt, Formed, SortedPairs, IsOrder, DecodeEntry, GetFixed, At, HeaderOf;
      NextPair(layout, contents, restarts, numRestarts, next);
      if next < |layout.pairs| {
        var d := DecodeEntry(contents, layout.offsets[next], restarts);
        KeyFromPieces(key, contents, d.next, d.shared, layout.pairs[next].key);
      }
    }

    lemma StandsAtEnd()
      requires Fits() && pos == |layout.pairs| && current == restarts && !corrupted
      ensures Stands()
    {
    }

    lemma StandsAtEntry()
      requires Fits() && pos < |layout.pairs| && pos + 1 < |layout.offsets| && !corrupted
      requires current == layout.offsets[pos] < restarts
      requires key == layout.pairs[pos].key && InRestart(layout, restartIndex, pos)
      requires At(contents, valueStart, layout.pairs[pos].value) && valueSize == |layout.pairs[pos].value|
      requires valueStart + valueSize == layout.offsets[pos + 1]
      ensures Stands()
    {
    }

    method AdvanceRestart()
      requires restarts + 4 * numRestarts + 4 == |contents| && restartIndex < numRestarts
      modifies this`restartIndex
      ensures restartIndex < numRestarts
      ensures Fits() && pos < |layout.pairs| && current == layout.offsets[pos] && layout.heads[old(restartIndex)] <= pos
              ==> InRestart(layout, restartIndex, pos)
    {
      hide Layout.EntriesOk, Layout.HeadsOk, RestartAt, SortedPairs, IsOrder, GetFixed;
      ghost var ok := Fits() && pos < |layout.pairs| && current == layout.offsets[pos] &&
          layout.heads[restartIndex] <= pos;
      while restartIndex + 1 < numRestarts && GetRestartPoint(restartIndex + 1) < current
        invariant restartIndex < numRestarts
        invariant ok ==> layout.heads[restartIndex] <= pos
      {
        if ok {
          HeadAndEntry(layout, contents, restarts, numRestarts, restartIndex + 1, pos);
        }
        restartIndex := restartIndex + 1;
      }
      if ok && restartIndex + 1 < numRestarts {
        HeadAndEntry(layout, contents, restarts, numRestarts, restartIndex + 1, pos);
      }
    }

    lemma BeforeNext()
      requires Stands() && pos < |layout.pairs|
      ensures Before(pos + 1)
    {
      hide RestartAt, Layout.EntriesOk, Layout.HeadsOk, At, SortedPairs, IsOrder, EntryBytes, HeaderOf, GetFixed;
      if pos + 1 < |layout.pairs| {
        SharedOf(layout, contents[..restarts], pos + 1);
      }
    }

    method Next()
      requires Ready() && Valid()
      modifies this
      ensures Ready() && (old(Stands()) ==> Stands() && pos == old(pos) + 1)
    {
      hide BlockIter.Fits, BlockIter.StandsAt, BlockIter.BeforeEntry;
      if Stands() {
        ValidAt();
        BeforeNext();
      }
      var r := ParseNextKey(pos + 1);
    }

    lemma ValidAt()
      requires Stands()
      ensures pos <= |layout.pairs| && (Valid() <==> pos < |layout.pairs|) && Fits() && !corrupted
    {
    }

    method SeekToFirst()
      requires Ready()
      modifies this
      ensures Ready() && (!old(corrupted) && Fits() ==> Stands() && pos == 0)
    {
      hide BlockIter.StandsAt, BlockIter.BeforeEntry;
      FirstHead();
      hide BlockIter.Fits;
      SeekToRestartPoint(0);
      var r := ParseNextKey(0);
    }

    lemma FirstHead()
      requires numRestarts > 0
      ensures Fits() ==> layout.heads != [] && layout.heads[0] == 0
    {
    }

    method SeekToLast()
      requires Ready()
      modifies this
      ensures Ready()
      ensures !old(corrupted) && Fits() ==> Stands() && pos == (if layout.pairs == [] then 0 else |layout.pairs| - 1)
    {
      hide BlockIter.StandsAt, BlockIter.BeforeEntry;
      if Fits() {
        LastHead();
      }
      hide BlockIter.Fits;
      SeekToRestartPoint(numRestarts - 1);
      ghost var ok := !corrupted && Fits();
      ScanTo(restarts, if ok then layout.heads[numRestarts - 1] else 0, |layout.pairs|, ok);
    }

    lemma LastHead()
      requires Fits() && numRestarts > 0
      ensures |layout.heads| == numRestarts && |layout.offsets| == |layout.pairs| + 1
      ensures layout.offsets[|layout.pairs|] == restarts
      ensures layout.heads[numRestarts - 1] < |layout.pairs| || layout.heads[numRestarts - 1] == 0 == |layout.pairs|
    {
      HeadAt(layout, contents, restarts, numRestarts, numRestarts - 1);
      OrderOfOffsets(layout, contents, restarts, numRestarts, 0, 0);
      assert layout.HeadOk(layout.heads[numRestarts - 1]);
    }

    /** Parse entries until one ends at or after `end`, where entry `to` begins. */
    method ScanTo(end: nat, ghost from: nat, ghost to: nat, ghost ok: bool)
      requires numRestarts > 0 && restarts + 4 * numRestarts + 4 == |contents| && restartIndex < numRestarts
      requires ok ==> Before(from) && to < |layout.offsets| == |layout.pairs| + 1 && end == layout.offsets[to]
      requires ok ==> from < to || from == to == |layout.pairs|
      modifies this
      ensures Ready()
      ensures ok ==> Stands() && pos == if from < to then to - 1 else to
    {
      hide BlockIter.Fits, BlockIter.BeforeEntry, BlockIter.StandsAt;
      var r := ParseNextKey(from);
      while r && NextEntryOffset() < end
        invariant Ready() && (r <==> current < restarts) && (r ==> current < NextEntryOffset())
        invariant ok ==> Stands() && if from < to then pos < to else pos == to
        decreases restarts - current
      {
        if ok {
          ValidAt();
          EndsBefore(to);
          BeforeNext();
        }
        r := ParseNextKey(pos + 1);
      }
      if ok {
        ValidAt();
        EndsBefore(to);
      }
    }

    lemma EndsBefore(to: nat)
      requires Stands() && to <= |layout.pairs| < |layout.offsets|
      ensures pos < |layout.pairs| ==> (NextEntryOffset() < layout.offsets[to] <==> pos + 1 < to)
    {
      hide RestartAt, Layout.EntriesOk, Layout.HeadsOk, At, SortedPairs, IsOrder;
      if pos < |layout.pairs| {
        OrderOfOffsets(layout, contents, restarts, numRestarts, pos + 1, to);
      }
    }

    method Prev()
      requires Ready() && Valid()
      modifies this
      ensures Ready()
      ensures old(Stands()) ==> Stands() && pos == if old(pos) == 0 then |layout.pairs| else old(pos) - 1
    {
      hide BlockIter.Fits, BlockIter.BeforeEntry, BlockIter.StandsAt;
      var original := current;
      ghost var ok := Stands();
      ghost var at := pos;
      if ok {
        ValidAt();
        EntryStart();
      }
      var found := BackToRestart(ok);
      if found {
        SeekToRestartPoint(restartIndex);
        ScanTo(original, if ok then layout.heads[restartIndex] else 0, at, ok);
      }
    }

    /** Go back to the last restart point before the current entry; without one, become invalid. */
    method BackToRestart(ghost ok: bool) returns (found: bool)
      requires Ready() && Valid()
      requires ok ==>
                 && Fits() && pos < |layout.pairs| && pos < |layout.offsets|
                 && current == layout.offsets[pos] && !corrupted
      modifies this
      ensures Ready() && corrupted == old(corrupted)
      ensures found ==> restartIndex < numRestarts
      ensures ok && found ==> restartIndex < |layout.heads| && layout.heads[restartIndex] < pos == old(pos)
      ensures ok && !found ==> old(pos) == 0 && Stands() && pos == |layout.pairs|
    {
      hide BlockIter.Fits, BlockIter.StandsAt;
      var original := current;
      while GetRestartPoint(restartIndex) >= original
        invariant Ready() && restartIndex < numRestarts && current == original && pos == old(pos)
        invariant corrupted == old(corrupted)
        decreases restartIndex
      {
        if restartIndex == 0 {
          if ok {
            BeforeHead(0, pos);
          }
          current := restarts;
          restartIndex := numRestarts;
          pos := |layout.pairs|;
          if ok {
            Invalidated();
          }
          return false;
        }
        restartIndex := restartIndex - 1;
      }
      if ok {
        BeforeHead(restartIndex, pos);
      }
      return true;
    }

    lemma EntryStart()
      requires Stands() && pos < |layout.pairs|
      ensures Fits() && |layout.offsets| == |layout.pairs| + 1 && current == layout.offsets[pos]
      ensures restartIndex < numRestarts && !corrupted
    {
    }

    lemma BeforeHead(j: nat, i: nat)
      requires Fits() && j < numRestarts && i <= |layout.pairs|
      requires restarts + 4 * numRestarts + 4 == |contents|
      ensures numRestarts == |layout.heads| && i < |layout.offsets|
      ensures GetRestartPoint(j) < layout.offsets[i] <==> layout.heads[j] < i
      ensures layout.heads[0] == 0
    {
      hide RestartAt, Layout.EntriesOk, SortedPairs, IsOrder, GetFixed;
      HeadAndEntry(layout, contents, restarts, numRestarts, j, i);
    }

    lemma Invalidated()
      requires Fits() && current == restarts && !corrupted && pos == |layout.pairs|
      ensures Stands()
    {
    }

    /** Binary search over restart points, then a linear scan. */
    method Seek(target: Bytes)
      requires Ready()
      modifies this
      ensures Ready()
      ensures !old(corrupted) && Fits() ==> Stands() && IsFirstFrom(less, layout.pairs, target, pos)
    {
      hide BlockIter.Fits, BlockIter.BeforeEntry, BlockIter.StandsAt, IsFirstFrom, SortedPairs, IsOrder, DecodeEntry;
      ghost var ok := !corrupted && Fits();
      var left, right := 0, numRestarts - 1;
      while left < right
        invariant 0 <= left <= right < numRestarts
        invariant corrupted == old(corrupted) && current == old(current) && Ready()
        invariant ok ==> left == 0 || HeadIsBelow(left, target)
        decreases right - left
      {
        var mid := (left + right + 1) / 2;
        var regionOffset := GetRestartPoint(mid);
        var d := DecodeEntry(contents, regionOffset, restarts);
        if ok {
          KeyAtHead(mid, target);
        }
        if d.BadEntry? || d.shared != 0 {
          CorruptionError();
          return;
        }
        var midKey := contents[d.next..d.next + d.nonShared];
        if less(midKey, target) {
          left := mid;
        } else {
          right := mid - 1;
        }
      }
      SeekToRestartPoint(left);
      if ok {
        AllBelow(left, target);
      }
      ghost var next := if ok then layout.heads[left] else 0;
      ScanFrom(target, next, ok);
    }

    /** The key at a restart point is stored whole and is less than `target`. */
    ghost predicate HeadIsBelow(j: nat, target: Bytes) {
      j < |layout.heads| && layout.heads[j] < |layout.pairs| && less(layout.pairs[layout.heads[j]].key, target)
    }

    lemma KeyAtHead(j: nat, target: Bytes)
      requires Fits() && 0 < j < numRestarts && restarts + 4 * numRestarts + 4 == |contents|
      ensures var d := DecodeEntry(contents, GetRestartPoint(j), restarts);
              && d.Decoded? && d.shared == 0
              && (less(contents[d.next..d.next + d.nonShared], target) ==> HeadIsBelow(j, target))
    {
      hide RestartAt, Layout.EntriesOk, SortedPairs, IsOrder, GetFixed, DecodeEntry, HeaderOf, At;
      HeadAt(layout, contents, restarts, numRestarts, j);
      var h := layout.heads[j];
      PairAt(layout, contents, restarts, numRestarts, h);
      var d := DecodeEntry(contents, GetRestartPoint(j), restarts);
      WholeKey(contents, d.next, layout.pairs[h].key);
    }

    lemma AllBelow(j: nat, target: Bytes)
      requires Fits() && j < numRestarts && (j == 0 || HeadIsBelow(j, target))
      ensures j < |layout.heads| && layout.heads[j] <= |layout.pairs| && BelowUpTo(layout.heads[j], target)
    {
      hide RestartAt, Layout.EntriesOk;
      HeadAt(layout, contents, restarts, numRestarts, j);
      if j > 0 {
        var h := layout.heads[j];
        forall i | 0 <= i < h
          ensures less(layout.pairs[i].key, target)
        {
          assert less(layout.pairs[i].key, layout.pairs[h].key);
        }
      }
    }

    ghost predicate BelowUpTo(n: nat, target: Bytes)
      requires n <= |layout.pairs|
    {
      forall i {:trigger layout.pairs[i]} :: 0 <= i < n ==> less(layout.pairs[i].key, target)
    }

    method ScanFrom(target: Bytes, ghost from: nat, ghost ok: bool)
      requires numRestarts > 0 && restarts + 4 * numRestarts + 4 == |contents| && restartIndex < numRestarts
      requires ok ==> Before(from) && BelowUpTo(from, target)
      modifies this
      ensures Ready()
      ensures ok ==> Stands() && IsFirstFrom(less, layout.pairs, target, pos)
    {
      hide BlockIter.Fits, BlockIter.BeforeEntry, BlockIter.StandsAt, IsFirstFrom, SortedPairs, IsOrder;
      hide BlockIter.BelowUpTo;
      ghost var next: nat := from;
      while true
        invariant restartIndex < numRestarts
        invariant ok ==> Before(next) && BelowUpTo(next, target)
        invariant next >= from && (next > from ==> Ready() && current < restarts && current < NextEntryOffset())
        decreases if next > from then restarts - current else restarts + 1
      {
        var r := ParseNextKey(next);
        if ok {
          ValidAt();
        }
        if !r {
          if ok {
            FirstFromAt(target);
          }
          return;
        }
        if ok {
          KeyHere();
        }
        if !less(key, target) {
          if ok {
            FirstFromAt(target);
          }
          return;
        }
        if ok {
          BelowOneMore(next, target);
          BeforeNext();
        }
        next := next + 1;
      }
    }

    lemma KeyHere()
      requires Stands() && pos < |layout.pairs|
      ensures key == layout.pairs[pos].key
    {
    }

    lemma BelowOneMore(n: nat, target: Bytes)
      requires n < |layout.pairs| && BelowUpTo(n, target) && less(layout.pairs[n].key, target)
      ensures BelowUpTo(n + 1, target)
    {
    }

    lemma FirstFromAt(target: Bytes)
      requires Fits() && pos <= |layout.pairs| && BelowUpTo(pos, target)
      requires pos < |layout.pairs| ==> !less(layout.pairs[pos].key, target)
      ensures IsFirstFrom(less, layout.pairs, target, pos)
    {
      forall j | pos <= j < |layout.pairs|
        ensures !less(layout.pairs[j].key, target)
      {
        assert j > pos ==> less(layout.pairs[pos].key, layout.pairs[j].key);
      }
    }
  }

  lemma WholeKey(s: Bytes, p: nat, key: Bytes)
    requires At(s, p, key[0..])
    ensures p + |key| <= |s| && s[p..p + |key|] == key
  {
  }

  lemma KeyFromPieces(key: Bytes, s: Bytes, p: nat, shared: nat, full: Bytes)
    requires shared <= |key| && shared <= |full| && key[..shared] == full[..shared] && At(s, p, full[shared..])
    ensures p + |full| - shared <= |s| && key[..shared] + s[p..p + |full| - shared] == full
  {
  }

  /** Restart points compare like their entries. */
  lemma HeadAndEntry(l: Layout, contents: Bytes, restarts: nat, numRestarts: nat, j: nat, i: nat)
    requires Formed(l, contents, restarts, numRestarts) && j < numRestarts && i <= |l.pairs|
    ensures j < |l.heads| && (GetFixed(contents, restarts + 4 * j, 4) < l.offsets[i] <==> l.heads[j] < i)
  {
    hide GetFixed, RestartAt, Layout.EntriesOk;
    HeadAt(l, contents, restarts, numRestarts, j);
    OrderOfOffsets(l, contents, restarts, numRestarts, l.heads[j], i);
  }

  /** What parsing meets at entry `next`, or at the end. */
  lemma NextPair(l: Layout, contents: Bytes, restarts: nat, numRestarts: nat, next: nat)
    requires Formed(l, contents, restarts, numRestarts) && next <= |l.pairs|
    ensures l.Shaped() && numRestarts == |l.heads|
    ensures next == |l.pairs| ==> l.offsets[next] == restarts
    ensures next < |l.pairs| ==>
              var p := l.offsets[next];
              var e := l.pairs[next];
              var d := DecodeEntry(contents, p, restarts);
              && p < l.offsets[next + 1] <= restarts && l.shares[next] <= |e.key|
              && d.Decoded? && d.shared == l.shares[next] && d.nonShared == |e.key| - d.shared
              && d.valueLength == |e.value|
              && At(contents, d.next, e.key[d.shared..]) && At(contents, d.next + d.nonShared, e.value)
              && d.next + d.nonShared + d.valueLength == l.offsets[next + 1]
  {
    hide DecodeEntry, At, HeaderOf, RestartAt;
    if next < |l.pairs| {
      PairAt(l, contents, restarts, numRestarts, next);
    }
  }

  // ----- a whole block

  /** Add the pairs, finish the block, and read it from the first pair to the last. */
  method BlockRoundTrip(less: Order, restartInterval: nat, pairs: seq<Pair>) returns (contents: Bytes, out: seq<Pair>)
    requires IsOrder(less) && SortedPairs(less, pairs) && restartInterval >= 1
    ensures |contents| < TWO32 ==> out == pairs
  {
    hide Layout.Ok, IsOrder, SortedPairs, Layout.Restarts, IsBlock, Formed;
    ghost var layout: Layout;
    contents, layout := BuildBlock(less, restartInterval, pairs);
    out := [];
    if |contents| >= TWO32 {
      return;
    }
    FinishedBlockOpens(layout, contents);
    var b := OpenBlock(contents);
    var it := new BlockIter(less, contents, b.restartOffset, b.numRestarts, layout);
    out := ReadAll(it);
  }

  method ReadAll(it: BlockIter) returns (out: seq<Pair>)
    requires it.Ready() && it.Fits() && !it.corrupted
    modifies it
    ensures out == it.layout.pairs
  {
    hide BlockIter.Fits, BlockIter.StandsAt;
    out := [];
    it.SeekToFirst();
    while it.Valid()
      invariant it.Ready() && it.Stands() && out == it.layout.pairs[..it.pos]
      decreases |it.layout.pairs| - it.pos
    {
      it.ValidAt();
      it.KeyHere();
      var value := it.Value();
      assert Pair(it.key, value) == it.layout.pairs[it.pos];
      out := out + [Pair(it.key, value)];
      it.Next();
    }
    it.ValidAt();
  }

  method BuildBlock(less: Order, restartInterval: nat, pairs: seq<Pair>) returns (contents: Bytes, ghost layout: Layout)
    requires IsOrder(less) && SortedPairs(less, pairs) && restartInterval >= 1
    ensures IsBlock(layout, contents) && layout.pairs == pairs
  {
    hide Layout.Ok, IsOrder, Layout.Restarts, IsBlock;
    var builder := new BlockBuilder(less, restartInterval);
    for i := 0 to |pairs|
      invariant fresh(builder) && builder.Valid() && !builder.finished && builder.less == less
      invariant builder.restartInterval == restartInterval && builder.layout.pairs == pairs[..i]
    {
      assert i > 0 ==> less(pairs[i - 1].key, pairs[i].key);
      builder.Add(pairs[i].key, pairs[i].value);
    }
    assert pairs[..|pairs|] == pairs;
    contents := builder.Finish();
    layout := builder.layout;
  }
}
