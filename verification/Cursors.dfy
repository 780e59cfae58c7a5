/**
 The iterator contract of include/leveldb/iterator.h over one sorted run of entries: the
 simple form that MergingIterator refines, and its children.
 */
module Cursors {
  import opened InternalKeys

  /** The first position whose key is at or after `target`. */
  function LowerBound(es: seq<Entry>, target: InternalKey): (i: nat)
    requires Sorted(es)
    ensures IsLowerBound(es, target, i)
  {
    if es == [] then 0
    else if !Less(es[0].key, target) then
      assert forall j :: 0 < j < |es| ==> Less(es[0].key, es[j].key);
      0
    else
      var rest := es[1..];
      assert forall j :: 0 < j < |es| ==> es[j] == rest[j - 1];
      1 + LowerBound(rest, target)
  }

  class Cursor {
    const entries: seq<Entry>
    /** The position, or |entries| when the iterator is not valid. */
    var pos: nat

    constructor (entries: seq<Entry>)
      ensures this.entries == entries && pos == |entries|
    {
      this.entries := entries;
      pos := |entries|;
    }

    predicate Valid()
      reads this
    {
      pos < |entries|
    }

    function Current(): Entry
      requires Valid()
      reads this
    {
      entries[pos]
    }

    method SeekToFirst()
      modifies this
      ensures pos == 0
    {
      pos := 0;
    }

    method SeekToLast()
      modifies this
      ensures pos == if entries == [] then 0 else |entries| - 1
    {
      pos := if entries == [] then 0 else |entries| - 1;
    }

    method Seek(target: InternalKey)
      requires Sorted(entries)
      modifies this
      ensures IsLowerBound(entries, target, pos)
    {
      pos := LowerBound(entries, target);
    }

    method Next()
      requires Valid()
      modifies this
      ensures pos == old(pos) + 1
    {
      pos := pos + 1;
    }

    method Prev()
      requires Valid()
      modifies this
      ensures pos == if old(pos) == 0 then |entries| else old(pos) - 1
    {
      pos := if pos == 0 then |entries| else pos - 1;
    }
  }
}
