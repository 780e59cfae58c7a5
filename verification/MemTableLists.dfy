/**
 The memtable over its skip list (db/memtable.cc): every node stands for the buffer of one entry,
 and what a seek finds is what `MemTables` says of the sorted list of entries.
 */
module MemTableLists {
  import opened Optional
  import opened InternalKeys
  import opened ReadSpec
  import opened MemTables
  import opened SkipList

  /** Inserting where the order is kept is inserting in order. */
  lemma {:induction false} InsertedInOrder(es: seq<Entry>, e: Entry, k: nat)
    requires k <= |es| && Sorted(es[..k] + [e] + es[k..])
    ensures InsertEntry(es, e) == es[..k] + [e] + es[k..]
  {
    var r := es[..k] + [e] + es[k..];
    if k == 0 {
      assert es == [] || Less(r[0].key, r[1].key);
    } else {
      assert Less(r[0].key, r[k].key);
      LessIsStrictOrder(es[0].key, e.key, es[0].key);
      assert es[1..][..k - 1] + [e] + es[1..][k - 1..] == r[1..];
      SortedTail(r);
      InsertedInOrder(es[1..], e, k - 1);
    }
  }

  function EntriesAt(buffers: seq<Entry>, ns: seq<nat>): seq<Entry>
    requires forall i :: 0 <= i < |ns| ==> ns[i] < |buffers|
  {
    seq(|ns|, i requires 0 <= i < |ns| => buffers[ns[i]])
  }

  class MemTableList {
    const table: SkipList
    /** The entry of each node; the first is the head, which has none. */
    var buffers: seq<Entry>

    ghost predicate Valid()
      reads this, table
    {
      && table.Valid() && |buffers| == |table.m.keys|
      && forall n :: 0 < n < |buffers| ==> buffers[n].key == table.m.keys[n]
    }

    /** The entries in the order of the list. */
    ghost function Contents(): seq<Entry>
      requires Valid()
      reads this, table
    {
      assert IsLevel(table.m, 0, table.lists[0]);
      EntriesAt(buffers, table.lists[0])
    }

    constructor ()
      ensures Valid() && Contents() == [] && fresh(table)
    {
      table := new SkipList();
      buffers := [Entry(InternalKey(0.0, 0, Put), "")];
    }

    /** The keys of the list are those of the entries, in their order. */
    lemma KeysOfContents()
      requires Valid()
      ensures AreNodes(table.m, table.lists[0]) && InKeyOrder(table.m, table.lists[0]) && Sorted(Contents())
      ensures |KeysOf(table.m, table.lists[0])| == |Contents()|
      ensures forall i :: 0 <= i < |Contents()| ==> Contents()[i].key == KeysOf(table.m, table.lists[0])[i]
    {
      assert IsLevel(table.m, 0, table.lists[0]);
    }

    /** Add one entry whose key is not there yet. */
    method Add(e: Entry, height: nat)
      requires Valid() && 1 <= height <= MAX_HEIGHT && forall f :: f in Contents() ==> f.key != e.key
      modifies this, table
      ensures Valid() && Contents() == InsertEntry(old(Contents()), e)
    {
      KeysOfContents();
      ghost var before, nodes, x := Contents(), table.lists[0], |table.m.keys|;
      KeyIsNew(e);
      ghost var lists := table.lists;
      table.Insert(e.key, height);
      buffers := buffers + [e];
      assert IsLinked(lists, table.lists, 0, x);
      ghost var k: nat :| k <= |nodes| && table.lists[0] == InsertAt(nodes, k, x);
      KeysOfContents();
      assert Contents() == before[..k] + [e] + before[k..];
      InsertedInOrder(before, e, k);
    }

    lemma KeyIsNew(e: Entry)
      requires Valid() && AreNodes(table.m, table.lists[0]) && forall f :: f in Contents() ==> f.key != e.key
      ensures e.key !in KeysOf(table.m, table.lists[0])
    {
      KeysOfContents();
      forall i | 0 <= i < |Contents()|
        ensures KeysOf(table.m, table.lists[0])[i] != e.key
      {
        assert Contents()[i] in Contents();
      }
    }

    /** A seek to the user key at a sequence number; an entry of that user key is the answer. */
    method Get(user: UserKey, s: nat) returns (hit: Option<Entry>)
      requires Valid()
      ensures hit == LayerGet(Contents(), user, s)
    {
      KeysOfContents();
      var node, prev := table.FindGreaterOrEqual(LookupKey(user, s));
      ghost var ns := table.lists[0];
      ghost var i: nat :| IsCut(table.m, ns, Some(LookupKey(user, s)), i) && node == After(ns, i);
      CutIsLowerBound(LookupKey(user, s), i);
      LayerGetAtLowerBound(Contents(), user, s, i);
      hit := if node != 0 && buffers[node].key.user == user then Some(buffers[node]) else None;
    }

    lemma CutIsLowerBound(target: InternalKey, i: nat)
      requires Valid() && AreNodes(table.m, table.lists[0]) && IsCut(table.m, table.lists[0], Some(target), i)
      ensures IsLowerBound(Contents(), target, i)
    {
      var ns := table.lists[0];
      forall j | 0 <= j < |ns|
        ensures Contents()[j].key == table.m.keys[ns[j]] && (Less(Contents()[j].key, target) <==> j < i)
      {
        assert Precedes(table.m, Some(target), ns[j]) <==> j < i;
      }
    }
  }

  lemma NoWrites(es: seq<Entry>)
    ensures MemTable(es[..0]) == []
  {
  }

  lemma NextKeyIsNew(es: seq<Entry>, i: nat)
    requires Increasing(es) && i < |es|
    ensures forall f :: f in MemTable(es[..i]) ==> f.key != es[i].key
  {
    MemTableIsSorted(es[..i]);
    forall f | f in MemTable(es[..i])
      ensures f.key != es[i].key
    {
      assert f in Elements(MemTable(es[..i]));
      var j :| 0 <= j < i && es[..i][j] == f;
    }
  }

  /** Inserting writes one by one, at whatever heights, gives the memtable of those writes. */
  method InsertAllWrites(es: seq<Entry>, heights: nat -> nat) returns (mem: MemTableList)
    requires Increasing(es) && forall i :: 1 <= heights(i) <= MAX_HEIGHT
    ensures fresh(mem) && mem.Valid() && mem.Contents() == MemTable(es)
  {
    hide MemTableList.Valid, MemTableList.Contents, Increasing, MemTable, InsertEntry;
    NoWrites(es);
    mem := new MemTableList();
    for i := 0 to |es|
      invariant fresh(mem) && fresh(mem.table) && mem.Valid() && mem.Contents() == MemTable(es[..i])
    {
      NextKeyIsNew(es, i);
      assert es[..i + 1] == es[..i] + [es[i]];
      MemTableStep(es[..i], es[i]);
      mem.Add(es[i], heights(i));
    }
    assert es[..|es|] == es;
  }
}
