/**
 A memtable as the sorted list its skip list holds (db/memtable.cc), and the concatenation
 of write-ahead logs in the order of their numbers (DBImpl::Recover, db/db_impl.cc).
 */
module MemTables {
  import opened InternalKeys
  import opened ReadSpec

  function InsertEntry(es: seq<Entry>, e: Entry): seq<Entry> {
    if es == [] then [e]
    else if Less(e.key, es[0].key) then [e] + es
    else [es[0]] + InsertEntry(es[1..], e)
  }

  /** The memtable after adding the entries one by one. */
  function MemTable(es: seq<Entry>): seq<Entry> {
    if es == [] then [] else InsertEntry(MemTable(es[..|es| - 1]), es[|es| - 1])
  }

  lemma MemTableStep(es: seq<Entry>, e: Entry)
    ensures MemTable(es + [e]) == InsertEntry(MemTable(es), e)
  {
    assert (es + [e])[..|es|] == es;
  }

  lemma {:induction false} InsertEntryMembers(es: seq<Entry>, e: Entry)
    ensures forall f :: f in InsertEntry(es, e) <==> f in es || f == e
  {
    if es != [] {
      InsertEntryMembers(es[1..], e);
      assert es == [es[0]] + es[1..];
    }
  }

  lemma SortedTail(es: seq<Entry>)
    requires Sorted(es) && es != []
    ensures Sorted(es[1..]) && forall f :: f in es[1..] ==> Less(es[0].key, f.key)
  {
  }

  lemma SortedCons(e: Entry, es: seq<Entry>)
    requires Sorted(es) && forall f :: f in es ==> Less(e.key, f.key)
    ensures Sorted([e] + es)
  {
    var r := [e] + es;
    forall i, j | 0 <= i < j < |r|
      ensures Less(r[i].key, r[j].key)
    {
      if i == 0 {
        assert es[j - 1] in es;
      } else {
        assert r[i] == es[i - 1] && r[j] == es[j - 1];
      }
    }
  }

  lemma {:induction false} InsertEntrySorted(es: seq<Entry>, e: Entry)
    requires Sorted(es) && forall f :: f in es ==> f.key != e.key
    ensures Sorted(InsertEntry(es, e))
  {
    if es == [] {
    } else if Less(e.key, es[0].key) {
      SortedTail(es);
      forall f | f in es
        ensures Less(e.key, f.key)
      {
        assert es == [es[0]] + es[1..];
        LessIsStrictOrder(e.key, es[0].key, f.key);
      }
      SortedCons(e, es);
    } else {
      SortedTail(es);
      assert es[0] in es;
      assert forall f :: f in es[1..] ==> f in es;
      InsertEntrySorted(es[1..], e);
      InsertEntryMembers(es[1..], e);
      LessIsStrictOrder(es[0].key, e.key, e.key);
      SortedCons(es[0], InsertEntry(es[1..], e));
    }
  }

  /** Distinct sequence numbers, position by position. */
  ghost predicate Increasing(es: seq<Entry>) {
    forall i, j :: 0 <= i < j < |es| ==> es[i].key.sequence < es[j].key.sequence
  }

  lemma {:induction false} MemTableIsSorted(es: seq<Entry>)
    requires Increasing(es)
    ensures Sorted(MemTable(es)) && Elements(MemTable(es)) == Elements(es)
  {
    if es != [] {
      var n := |es| - 1;
      MemTableIsSorted(es[..n]);
      var front := MemTable(es[..n]);
      forall f | f in front
        ensures f.key != es[n].key
      {
        assert f in Elements(front);
        var i :| 0 <= i < n && es[..n][i] == f;
      }
      InsertEntrySorted(front, es[n]);
      InsertEntryMembers(front, es[n]);
      assert es == es[..n] + [es[n]];
      forall f
        ensures f in Elements(MemTable(es)) <==> f in Elements(es)
      {
        assert f in Elements(front) <==> f in Elements(es[..n]);
      }
    }
  }

  lemma MemTableIsEmpty(es: seq<Entry>)
    ensures MemTable(es) == [] <==> es == []
  {
  }

  // ----- logs

  /** The logs numbered lo to hi-1, in increasing order of their numbers. */
  function ConcatLogs(logs: map<nat, seq<Entry>>, lo: nat, hi: nat): seq<Entry>
    decreases hi - lo
  {
    if lo >= hi then []
    else (if lo in logs then logs[lo] else []) + ConcatLogs(logs, lo + 1, hi)
  }

  ghost predicate NoLogs(logs: map<nat, seq<Entry>>, lo: nat, hi: nat) {
    forall n :: lo <= n < hi && n in logs ==> logs[n] == []
  }

  lemma {:induction false} SkipAbsentLogs(logs: map<nat, seq<Entry>>, lo: nat, mid: nat, hi: nat)
    requires lo <= mid && NoLogs(logs, lo, mid)
    ensures ConcatLogs(logs, lo, hi) == ConcatLogs(logs, mid, hi)
    decreases mid - lo
  {
    if lo < mid {
      if lo >= hi {
      } else {
        SkipAbsentLogs(logs, lo + 1, mid, hi);
      }
    }
  }

  /** All entries are in the logs `a` and `b`. */
  lemma ConcatTwoLogs(logs: map<nat, seq<Entry>>, a: nat, b: nat, hi: nat)
    requires a < b < hi && a in logs && b in logs
    requires NoLogs(logs, a + 1, b) && NoLogs(logs, b + 1, hi)
    ensures ConcatLogs(logs, a, hi) == logs[a] + logs[b]
  {
    SkipAbsentLogs(logs, a + 1, b, hi);
    SkipAbsentLogs(logs, b + 1, hi, hi);
  }

  lemma ConcatOneLog(logs: map<nat, seq<Entry>>, a: nat, hi: nat)
    requires a < hi && a in logs && NoLogs(logs, a + 1, hi)
    ensures ConcatLogs(logs, a, hi) == logs[a]
  {
    SkipAbsentLogs(logs, a + 1, hi, hi);
  }

  ghost predicate SameLogs(a: map<nat, seq<Entry>>, b: map<nat, seq<Entry>>, hi: nat) {
    forall n :: n < hi ==> (n in a <==> n in b) && (n in a ==> a[n] == b[n])
  }

  /** Empty logs past the end change nothing. */
  lemma {:induction false} ConcatLogsExtends(a: map<nat, seq<Entry>>, b: map<nat, seq<Entry>>, lo: nat, mid: nat,
                                             hi: nat)
    requires SameLogs(a, b, mid) && mid <= hi && NoLogs(b, mid, hi)
    ensures ConcatLogs(a, lo, mid) == ConcatLogs(b, lo, hi)
    decreases hi - lo
  {
    if lo < mid {
      ConcatLogsExtends(a, b, lo + 1, mid, hi);
    } else if lo < hi {
      ConcatLogsExtends(a, b, lo + 1, mid, hi);
    }
  }
}
