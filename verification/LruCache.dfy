/**
 The block and table cache (util/cache.cc): one shard of the LRU cache and its hash table.
 The intrusive lists of the source are sequences here, oldest entry first, and the chains of
 the hash table are sequences of handles.
 */
module LruCache {
  import opened Optional


  type Value = string

  class LRUHandle {
    const key: string
    const hash: nat
    const value: Value
    const charge: nat
    var inCache: bool
    var refs: nat

    constructor (key: string, hash: nat, value: Value, charge: nat)
      ensures this.key == key && this.hash == hash && this.value == value && this.charge == charge
      ensures !inCache && refs == 1
    {
      this.key, this.hash, this.value, this.charge := key, hash, value, charge;
      inCache, refs := false, 1;
    }
  }

  predicate Matches(h: LRUHandle, key: string, hash: nat) {
    h.hash == hash && h.key == key
  }

  ghost predicate NoRepeats(s: seq<LRUHandle>) {
    forall i, j :: 0 <= i < j < |s| ==> s[i] != s[j]
  }

  // ----- the hash table

  ghost function AllOf(list: seq<seq<LRUHandle>>): set<LRUHandle> {
    set c, h | c in list && h in c :: h
  }

  ghost predicate KeysDiffer(s: set<LRUHandle>) {
    forall a, b :: a in s && b in s && Matches(a, b.key, b.hash) ==> a == b
  }

  /** Every handle is in the chain its hash selects, once. */
  ghost predicate IsHashed(list: seq<seq<LRUHandle>>) {
    forall i {:trigger list[i]} :: 0 <= i < |list| ==>
      NoRepeats(list[i]) && forall h :: h in list[i] ==> h.hash % |list| == i
  }

  lemma InItsChain(list: seq<seq<LRUHandle>>, h: LRUHandle)
    requires IsHashed(list) && list != []
    ensures h in AllOf(list) <==> h in list[h.hash % |list|]
  {
    if h in AllOf(list) {
      var c :| c in list && h in c;
      var b :| 0 <= b < |list| && list[b] == c;
      assert b == h.hash % |list|;
    } else {
      assert list[h.hash % |list|] in list;
    }
  }

  lemma AddToChain(list: seq<seq<LRUHandle>>, b: nat, chain: seq<LRUHandle>, h: LRUHandle)
    requires IsHashed(list) && b < |list| && b == h.hash % |list| && NoRepeats(chain)
    requires forall x :: x in chain <==> x in list[b] || x == h
    ensures IsHashed(list[b := chain]) && AllOf(list[b := chain]) == AllOf(list) + {h}
  {
    var list' := list[b := chain];
    forall x
      ensures x in AllOf(list') <==> x in AllOf(list) || x == h
    {
      InItsChain(list, x);
      InItsChain(list', x);
    }
  }

  lemma ReplaceInChain(list: seq<seq<LRUHandle>>, b: nat, i: nat, h: LRUHandle)
    requires IsHashed(list) && b < |list| && i < |list[b]| && h !in AllOf(list) && h.hash == list[b][i].hash
    ensures IsHashed(list[b := list[b][i := h]])
    ensures AllOf(list[b := list[b][i := h]]) == AllOf(list) - {list[b][i]} + {h}
  {
    var gone, chain := list[b][i], list[b][i := h];
    assert list[b] in list;
    assert forall x :: x in list[b] ==> x in AllOf(list);
    assert NoRepeats(list[b]) && NoRepeats(chain);
    var list' := list[b := chain];
    assert forall x :: x in chain ==> x.hash % |list| == b;
    forall x
      ensures x in AllOf(list') <==> (x in AllOf(list) && x != gone) || x == h
    {
      InItsChain(list, x);
      InItsChain(list', x);
      InChainAfterReplace(list[b], i, h, x);
    }
  }

  lemma InChainAfterReplace(chain: seq<LRUHandle>, i: nat, h: LRUHandle, x: LRUHandle)
    requires NoRepeats(chain) && i < |chain| && h !in chain
    ensures x in chain[i := h] <==> (x in chain && x != chain[i]) || x == h
  {
    if x in chain && x != chain[i] {
      var j :| 0 <= j < |chain| && chain[j] == x;
      assert chain[i := h][j] == x;
    }
    assert chain[i := h][i] == h;
  }

  lemma RemoveFromChain(list: seq<seq<LRUHandle>>, b: nat, i: nat)
    requires IsHashed(list) && b < |list| && i < |list[b]|
    ensures IsHashed(list[b := list[b][..i] + list[b][i + 1..]])
    ensures AllOf(list[b := list[b][..i] + list[b][i + 1..]]) == AllOf(list) - {list[b][i]}
  {
    var h, chain := list[b][i], list[b][..i] + list[b][i + 1..];
    assert NoRepeats(list[b]);
    var list' := list[b := chain];
    forall x
      ensures x in chain <==> x in list[b] && x != h
    {
      InWithout(list[b], i, x);
    }
    forall x
      ensures x in AllOf(list') <==> x in AllOf(list) && x != h
    {
      InItsChain(list, x);
      InItsChain(list', x);
    }
  }

  lemma EntryIn(list: seq<seq<LRUHandle>>, b: nat, i: nat)
    requires b < |list| && i < |list[b]|
    ensures list[b][i] in AllOf(list)
  {
    assert list[b] in list && list[b][i] in list[b];
  }

  lemma AppendToChain(list: seq<seq<LRUHandle>>, b: nat, h: LRUHandle)
    requires IsHashed(list) && b < |list| && b == h.hash % |list| && h !in AllOf(list)
    ensures IsHashed(list[b := list[b] + [h]]) && AllOf(list[b := list[b] + [h]]) == AllOf(list) + {h}
  {
    InItsChain(list, h);
    assert NoRepeats(list[b]);
    AddToChain(list, b, list[b] + [h], h);
  }

  lemma SizeWithout(s: set<LRUHandle>, x: LRUHandle)
    requires x in s
    ensures |s - {x}| == |s| - 1
  {
  }

  lemma KeysAfterAdd(s: set<LRUHandle>, h: LRUHandle)
    requires KeysDiffer(s) && h !in s && forall x :: x in s ==> !Matches(x, h.key, h.hash)
    ensures KeysDiffer(s + {h}) && |s + {h}| == |s| + 1
  {
  }

  lemma SameKey(x: LRUHandle, y: LRUHandle, h: LRUHandle)
    ensures Matches(h, h.key, h.hash)
    ensures Matches(y, h.key, h.hash) ==> (Matches(x, h.key, h.hash) <==> Matches(x, y.key, y.hash))
  {
  }

  lemma KeysAfterReplace(s: set<LRUHandle>, gone: LRUHandle, h: LRUHandle)
    requires KeysDiffer(s) && gone in s && h !in s && Matches(gone, h.key, h.hash)
    ensures KeysDiffer(s - {gone} + {h}) && |s - {gone} + {h}| == |s|
  {
    SizeWithout(s, gone);
    forall x | x in s - {gone}
      ensures !Matches(x, h.key, h.hash)
    {
      SameKey(x, gone, h);
    }
    KeysAfterAdd(s - {gone}, h);
  }

  lemma InWithout(s: seq<LRUHandle>, i: nat, x: LRUHandle)
    requires NoRepeats(s) && i < |s|
    ensures x in s[..i] + s[i + 1..] <==> x in s && x != s[i]
    ensures NoRepeats(s[..i] + s[i + 1..])
  {
    var r := s[..i] + s[i + 1..];
    assert forall k :: 0 <= k < |r| ==> r[k] == s[if k < i then k else k + 1];
    if x in s && x != s[i] {
      var j :| 0 <= j < |s| && s[j] == x;
      assert r[if j < i then j else j - 1] == x;
    }
  }

  class HandleTable {
    var length: nat
    var elems: nat
    var list: seq<seq<LRUHandle>>

    /** Everything in the table. */
    ghost function Contents(): set<LRUHandle>
      reads this
    {
      AllOf(list)
    }

    ghost predicate Valid()
      reads this
    {
      && length == |list| > 0 && IsHashed(list)
      && KeysDiffer(Contents())
      && elems == |Contents()|
    }

    constructor ()
      ensures Valid() && Contents() == {}
    {
      length, elems, list := 4, 0, [[], [], [], []];
    }

    /** Position in its chain of the entry for a key; past the end if there is none. */
    method FindPointer(key: string, hash: nat) returns (bucket: nat, i: nat)
      requires Valid()
      ensures bucket == hash % length && i <= |list[bucket]|
      ensures i < |list[bucket]| ==> Matches(list[bucket][i], key, hash)
      ensures i == |list[bucket]| ==> forall h :: h in Contents() ==> !Matches(h, key, hash)
    {
      bucket := hash % length;
      i := 0;
      var chain := list[bucket];
      while i < |chain| && (chain[i].hash != hash || key != chain[i].key)
        invariant i <= |chain| && forall j :: 0 <= j < i ==> !Matches(chain[j], key, hash)
      {
        i := i + 1;
      }
      if i == |chain| {
        forall h | h in Contents()
          ensures !Matches(h, key, hash)
        {
          InItsChain(list, h);
        }
      }
    }

    method Lookup(key: string, hash: nat) returns (r: Option<LRUHandle>)
      requires Valid()
      ensures r.Some? ==> r.value in Contents() && Matches(r.value, key, hash)
      ensures r.None? ==> forall h :: h in Contents() ==> !Matches(h, key, hash)
    {
      var bucket, i := FindPointer(key, hash);
      if i < |list[bucket]| {
        assert list[bucket] in list && list[bucket][i] in list[bucket];
        r := Some(list[bucket][i]);
      } else {
        r := None;
      }
    }

    /** Put a handle in; the one it displaces, if any, is returned. */
    method Insert(h: LRUHandle) returns (displaced: Option<LRUHandle>)
      requires Valid() && h !in Contents()
      modifies this
      ensures Valid()
      ensures displaced.Some? ==> displaced.value in old(Contents()) && Matches(displaced.value, h.key, h.hash)
      ensures displaced.None? ==> forall x :: x in old(Contents()) ==> !Matches(x, h.key, h.hash)
      ensures Contents() == old(Contents()) - (if displaced.Some? then {displaced.value} else {}) + {h}
    {
      hide AllOf, KeysDiffer, IsHashed;
      var bucket, i := FindPointer(h.key, h.hash);
      var chain := list[bucket];
      displaced := None;
      if i < |chain| {
        displaced := Some(chain[i]);
        EntryIn(list, bucket, i);
        ReplaceInChain(list, bucket, i, h);
        KeysAfterReplace(Contents(), chain[i], h);
        list := list[bucket := chain[i := h]];
      } else {
        InsertNew(h, bucket);
      }
    }

    method InsertNew(h: LRUHandle, bucket: nat)
      requires Valid() && h !in Contents() && bucket == h.hash % length
      requires forall x :: x in Contents() ==> !Matches(x, h.key, h.hash)
      modifies this
      ensures Valid() && Contents() == old(Contents()) + {h}
    {
      hide AllOf, KeysDiffer, IsHashed, Matches;
      AppendToChain(list, bucket, h);
      KeysAfterAdd(Contents(), h);
      list := list[bucket := list[bucket] + [h]];
      elems := elems + 1;
      if elems > length {
        Resize();
      }
    }

    method Remove(key: string, hash: nat) returns (result: Option<LRUHandle>)
      requires Valid()
      modifies this
      ensures Valid()
      ensures result.Some? ==> result.value in old(Contents()) && Matches(result.value, key, hash)
      ensures result.None? ==> forall x :: x in old(Contents()) ==> !Matches(x, key, hash)
      ensures Contents() == old(Contents()) - if result.Some? then {result.value} else {}
    {
      var bucket, i := FindPointer(key, hash);
      var chain := list[bucket];
      result := None;
      if i < |chain| {
        result := Some(chain[i]);
        EntryIn(list, bucket, i);
        SizeWithout(Contents(), chain[i]);
        RemoveFromChain(list, bucket, i);
        list := list[bucket := chain[..i] + chain[i + 1..]];
        elems := elems - 1;
      }
    }

    /** More buckets, the same contents. */
    method Resize()
      requires Valid()
      modifies this
      ensures Valid() && Contents() == old(Contents()) && elems == old(elems) && length >= elems
    {
      var newLength := 4;
      while newLength < elems
        invariant newLength >= 4
        decreases elems - newLength
      {
        newLength := newLength * 2;
      }
      var newList: seq<seq<LRUHandle>> := seq(newLength, _ => []);
      ghost var moved: set<LRUHandle> := {};
      for i := 0 to length
        invariant length == |list| == old(length) && list == old(list) && elems == old(elems)
        invariant |newList| == newLength && IsHashed(newList)
        invariant AllOf(newList) == AllOf(list[..i])
      {
        newList := MoveChain(newList, list[i], list[..i]);
        assert list[..i + 1] == list[..i] + [list[i]];
      }
      assert list[..length] == list;
      list, length := newList, newLength;
    }

    /** Push the handles of one chain to the front of their new chains. */
    method MoveChain(newList: seq<seq<LRUHandle>>, chain: seq<LRUHandle>, ghost done: seq<seq<LRUHandle>>)
      returns (r: seq<seq<LRUHandle>>)
      requires newList != [] && IsHashed(newList) && AllOf(newList) == AllOf(done)
      requires NoRepeats(chain) && forall h :: h in chain ==> h !in AllOf(done)
      ensures |r| == |newList| && IsHashed(r) && AllOf(r) == AllOf(done + [chain])
    {
      r := newList;
      for j := 0 to |chain|
        invariant |r| == |newList| && IsHashed(r)
        invariant AllOf(r) == AllOf(done) + set h | h in chain[..j]
      {
        var h := chain[j];
        var b := h.hash % |r|;
        InItsChain(r, h);
        assert h !in chain[..j];
        AddToChain(r, b, [h] + r[b], h);
        r := r[b := [h] + r[b]];
        assert chain[..j + 1] == chain[..j] + [h];
      }
      assert chain[..|chain|] == chain;
      AllOfAppend(done, chain);
    }
  }

  lemma AllOfAppend(done: seq<seq<LRUHandle>>, chain: seq<LRUHandle>)
    ensures AllOf(done + [chain]) == AllOf(done) + set h | h in chain
  {
    assert forall c :: c in done + [chain] <==> c in done || c == chain;
  }

  // ----- the lists

  /** Unlink a handle. */
  function Minus(s: seq<LRUHandle>, e: LRUHandle): seq<LRUHandle> {
    if s == [] then [] else if s[0] == e then s[1..] else [s[0]] + Minus(s[1..], e)
  }

  function Charges(s: seq<LRUHandle>): nat {
    if s == [] then 0 else s[0].charge + Charges(s[1..])
  }

  lemma {:induction false} MinusMembers(s: seq<LRUHandle>, e: LRUHandle)
    requires NoRepeats(s)
    ensures NoRepeats(Minus(s, e)) && forall x :: x in Minus(s, e) <==> x in s && x != e
    ensures Charges(Minus(s, e)) == Charges(s) - if e in s then e.charge else 0
  {
    if s != [] {
      assert s == [s[0]] + s[1..];
      assert NoRepeats(s[1..]) && s[0] !in s[1..];
      MinusMembers(s[1..], e);
      if s[0] != e {
        var r := [s[0]] + Minus(s[1..], e);
        assert r[1..] == Minus(s[1..], e);
        assert forall i :: 1 <= i < |r| ==> r[i] in Minus(s[1..], e);
      }
    }
  }

  lemma {:induction false} ChargesAppend(s: seq<LRUHandle>, e: LRUHandle)
    ensures Charges(s + [e]) == Charges(s) + e.charge
  {
    if s != [] {
      ChargesAppend(s[1..], e);
      assert (s + [e])[1..] == s[1..] + [e];
    }
  }

  // ----- one shard

  class LRUCache {
    var capacity: nat
    var usage: nat
    /** In the cache and held by no client; oldest first. */
    var lru: seq<LRUHandle>
    /** In the cache and held by clients. */
    var inUse: seq<LRUHandle>
    const table: HandleTable
    /** Every handle whose deleter has not run, with the number of references clients hold. */
    ghost var held: map<LRUHandle, nat>
    /** The deleter calls so far. */
    ghost var deletions: seq<LRUHandle>

    ghost function Live(): set<LRUHandle>
      reads this
    {
      held.Keys
    }

    /** Reference counts and lists fit together; the handles of `extra` count one reference too many. */
    ghost predicate Counted(extra: set<LRUHandle>)
      reads this, Live()
    {
      && (forall h :: h in Live() ==> h.refs == held[h] + (if h.inCache then 1 else 0) + (if h in extra then 1 else 0))
      && (forall h :: h in Live() ==> h.refs > 0)
      && (forall h :: h in Live() ==> (h.inCache <==> h in lru || h in inUse))
      && (forall h :: h in lru ==> h in Live() && h.refs == 1)
      && (forall h :: h in inUse ==> h in Live() && h.refs >= 2)
    }

    ghost predicate ListsOk()
      reads this
    {
      && NoRepeats(lru) && NoRepeats(inUse)
      && usage == Charges(lru) + Charges(inUse)
      && NoRepeats(deletions) && (forall h :: h in deletions ==> h !in held)
    }

    ghost function Cached(): set<LRUHandle>
      reads this
    {
      (set h | h in lru) + set h | h in inUse
    }

    ghost predicate Valid()
      reads this, table, Live()
    {
      Counted({}) && ListsOk() && table.Valid() && table.Contents() == Cached()
    }

    constructor (capacity: nat)
      ensures Valid() && this.capacity == capacity && held == map[] && lru == inUse == [] && deletions == []
      ensures fresh(table)
    {
      this.capacity := capacity;
      usage, lru, inUse := 0, [], [];
      held, deletions := map[], [];
      table := new HandleTable();
    }

    /** Drop one reference; the deleter runs when it was the last. */
    method Unref(e: LRUHandle)
      requires e in Live() && Counted({e}) && ListsOk()
      modifies this`lru, this`inUse, this`held, this`deletions, e
      ensures Counted({}) && ListsOk() && Cached() == old(Cached())
      ensures e.refs == old(e.refs) - 1 && e.inCache == old(e.inCache)
      ensures lru == if old(e.inCache) && e.refs == 1 then old(lru) + [e] else old(lru)
      ensures inUse == if old(e.inCache) && e.refs == 1 then Minus(old(inUse), e) else old(inUse)
      ensures held == if e.refs == 0 then old(held) - {e} else old(held)
      ensures deletions == if e.refs == 0 then old(deletions) + [e] else old(deletions)
    {
      hide Minus, Charges, NoRepeats, ListsOk, Cached;
      e.refs := e.refs - 1;
      if e.refs == 0 {
        Delete(e);
      } else if e.inCache && e.refs == 1 {
        MoveToLru(e);
      }
    }

    /** Run the deleter. */
    method Delete(e: LRUHandle)
      requires e in Live() && e.refs == 0 && ListsOk() && NearlyCounted(e) && !e.inCache
      modifies this`held, this`deletions
      ensures Counted({}) && ListsOk() && Cached() == old(Cached())
      ensures held == old(held) - {e} && deletions == old(deletions) + [e]
    {
      held := held - {e};
      deletions := deletions + [e];
    }

    /** No client holds the entry any more. */
    method MoveToLru(e: LRUHandle)
      requires e in Live() && e.inCache && e.refs == 1 && ListsOk() && NearlyCounted(e) && e in inUse && e !in lru
      modifies this`lru, this`inUse
      ensures Counted({}) && ListsOk() && Cached() == old(Cached())
      ensures lru == old(lru) + [e] && inUse == Minus(old(inUse), e)
    {
      hide Minus, Charges, NoRepeats, ListsOk, Cached;
      AppendToLru(e);
    }

    method AppendToLru(e: LRUHandle)
      requires e in inUse && e !in lru && ListsOk()
      modifies this`lru, this`inUse
      ensures ListsOk() && Cached() == old(Cached())
      ensures lru == old(lru) + [e] && inUse == Minus(old(inUse), e)
      ensures forall h :: h in lru <==> h in old(lru) || h == e
      ensures forall h :: h in inUse <==> h in old(inUse) && h != e
    {
      MinusMembers(inUse, e);
      ChargesAppend(lru, e);
      hide Minus, Charges;
      inUse := Minus(inUse, e);
      lru := lru + [e];
    }

    /** `Counted`, but for where `e` is listed. */
    ghost predicate NearlyCounted(e: LRUHandle)
      reads this, Live()
    {
      && (forall h :: h in Live() ==> h.refs == held[h] + if h.inCache then 1 else 0)
      && (forall h :: h in Live() && h != e ==> h.refs > 0)
      && (forall h :: h in Live() ==> (h.inCache <==> h in lru || h in inUse))
      && (forall h :: h in lru ==> h in Live() && h.refs == 1)
      && (forall h :: h in inUse ==> h in Live() && (h != e ==> h.refs >= 2))
    }

    /** A client takes a reference. */
    method Ref(e: LRUHandle)
      requires e in Live() && Counted({}) && ListsOk()
      modifies this`lru, this`inUse, this`held, e
      ensures Counted({}) && ListsOk() && Cached() == old(Cached())
      ensures held == old(held)[e := old(held)[e] + 1]
      ensures lru == Minus(old(lru), e)
      ensures inUse == if old(e in lru) then old(inUse) + [e] else old(inUse)
      ensures e.refs == old(e.refs) + 1 && e.inCache == old(e.inCache)
    {
      hide Minus, Charges, NoRepeats, ListsOk, Cached;
      MinusNothing(lru, e);
      if e.refs == 1 && e.inCache {
        if e in lru {
          MoveToInUse(e);
        }
      }
      CountUp(e);
    }

    method CountUp(e: LRUHandle)
      requires ListsOk() && e in held
      modifies this`held, e`refs
      ensures ListsOk() && Cached() == old(Cached())
      ensures held == old(held)[e := old(held)[e] + 1] && e.refs == old(e.refs) + 1
    {
      hide Charges, NoRepeats;
      e.refs := e.refs + 1;
      held := held[e := held[e] + 1];
    }

    /** A client holds the entry again. */
    method MoveToInUse(e: LRUHandle)
      requires e in lru && ListsOk() && forall h :: h in lru ==> h !in inUse
      modifies this`lru, this`inUse
      ensures ListsOk() && Cached() == old(Cached())
      ensures lru == Minus(old(lru), e) && inUse == old(inUse) + [e] && e !in lru
      ensures forall h :: h in lru <==> h in old(lru) && h != e
      ensures forall h :: h in inUse <==> h in old(inUse) || h == e
    {
      MinusMembers(lru, e);
      ChargesAppend(inUse, e);
      hide Minus, Charges;
      lru := Minus(lru, e);
      inUse := inUse + [e];
    }

    /** Finish removing an entry that has left the hash table. */
    method FinishErase(e: LRUHandle)
      requires Counted({}) && ListsOk() && e in Cached()
      modifies this`lru, this`inUse, this`usage, this`held, this`deletions, e
      ensures Counted({}) && ListsOk() && Cached() == old(Cached()) - {e}
      ensures lru == Minus(old(lru), e) && inUse == Minus(old(inUse), e) && usage == old(usage) - e.charge
      ensures held == if old(held)[e] == 0 then old(held) - {e} else old(held)
      ensures deletions == if old(held)[e] == 0 then old(deletions) + [e] else old(deletions)
    {
      hide Minus, Charges, NoRepeats;
      Unlink(e);
      Unref(e);
    }

    method Unlink(e: LRUHandle)
      requires Counted({}) && ListsOk() && e in Cached()
      modifies this`lru, this`inUse, this`usage, e`inCache
      ensures Counted({e}) && ListsOk() && Cached() == old(Cached()) - {e} && !e.inCache
      ensures lru == Minus(old(lru), e) && inUse == Minus(old(inUse), e) && usage == old(usage) - e.charge
    {
      hide Minus, Charges, NoRepeats;
      ListsDisjoint(e);
      Discharge(e);
      e.inCache := false;
    }

    /** Take the entry off its list and its charge off the usage. */
    method Discharge(e: LRUHandle)
      requires ListsOk() && (e in lru) != (e in inUse) && Charges(lru) + Charges(inUse) >= e.charge
      modifies this`lru, this`inUse, this`usage
      ensures ListsOk() && Cached() == old(Cached()) - {e}
      ensures lru == Minus(old(lru), e) && inUse == Minus(old(inUse), e) && usage == old(usage) - e.charge
      ensures forall h :: h in lru <==> h in old(lru) && h != e
      ensures forall h :: h in inUse <==> h in old(inUse) && h != e
    {
      MinusMembers(lru, e);
      MinusMembers(inUse, e);
      hide Minus, Charges, NoRepeats;
      lru, inUse := Minus(lru, e), Minus(inUse, e);
      usage := usage - e.charge;
    }

    lemma ListsDisjoint(e: LRUHandle)
      requires Counted({}) && ListsOk() && e in Cached()
      ensures (e in lru) != (e in inUse)
      ensures Charges(lru) + Charges(inUse) >= e.charge
    {
      MinusMembers(lru, e);
      MinusMembers(inUse, e);
    }

    lemma CachedAreLive()
      requires Counted({})
      ensures Cached() <= Live()
    {
    }

    lemma ReferencesOf(h: LRUHandle)
      requires Counted({}) && h in held
      ensures (h.inCache <==> h in Cached()) && h.refs == held[h] + if h.inCache then 1 else 0
    {
    }

    // ----- operations

    /** A handle for the key, if it is in the cache. */
    method Lookup(key: string, hash: nat) returns (r: Option<LRUHandle>)
      requires Valid()
      modifies this, Live()
      ensures Valid() && Cached() == old(Cached()) && usage == old(usage) && deletions == old(deletions)
      ensures capacity == old(capacity)
      ensures r.None? ==> forall h :: h in Cached() ==> !Matches(h, key, hash)
      ensures r.Some? ==> r.value in Cached() && Matches(r.value, key, hash)
      ensures held == if r.Some? then old(held)[r.value := old(held)[r.value] + 1] else old(held)
      ensures lru == if r.Some? then Minus(old(lru), r.value) else old(lru)
    {
      hide Minus, Charges, NoRepeats, Counted, ListsOk, AllOf, KeysDiffer, IsHashed, Cached, Matches;
      CachedAreLive();
      r := table.Lookup(key, hash);
      if r.Some? {
        Ref(r.value);
      }
    }

    /** The reference is still counted in the handle. */
    method GiveBack(h: LRUHandle)
      requires Counted({}) && ListsOk() && h in held && held[h] > 0
      modifies this`held
      ensures Counted({h}) && ListsOk() && held == old(held)[h := old(held)[h] - 1] && Cached() == old(Cached())
    {
      hide Charges, NoRepeats;
      held := held[h := held[h] - 1];
    }

    /** A client gives a reference back. */
    method Release(h: LRUHandle)
      requires Valid() && h in held && held[h] > 0
      modifies this, Live()
      ensures Valid() && Cached() == old(Cached()) && usage == old(usage) && capacity == old(capacity)
      ensures if h !in Cached() && old(held)[h] == 1 then held == old(held) - {h} && deletions == old(deletions) + [h]
              else held == old(held)[h := old(held)[h] - 1] && deletions == old(deletions)
      ensures lru == if h in Cached() && old(held)[h] == 1 then old(lru) + [h] else old(lru)
    {
      hide Minus, Charges, NoRepeats, Counted, ListsOk, AllOf, KeysDiffer, IsHashed, Cached, Matches;
      ReferencesOf(h);
      GiveBack(h);
      Unref(h);
    }

    /** Drop the key's entry from the cache; clients may still hold it. */
    method Erase(key: string, hash: nat)
      requires Valid()
      modifies this, table, Live()
      ensures Valid() && capacity == old(capacity)
      ensures forall h :: h in Cached() <==> h in old(Cached()) && !Matches(h, key, hash)
      ensures forall h :: h in held <==>
              h in old(held) && !(h in old(Cached()) && Matches(h, key, hash) && old(held)[h] == 0)
      ensures forall h :: h in held ==> held[h] == old(held)[h]
    {
      hide Minus, Charges, NoRepeats, Counted, ListsOk, AllOf, KeysDiffer, IsHashed, Cached, Matches;
      CachedAreLive();
      var r := table.Remove(key, hash);
      if r.Some? {
        OnlyMatch(old(Cached()), r.value, key, hash);
        FinishErase(r.value);
      }
    }

    lemma OldestIsFree()
      requires Counted({}) && ListsOk() && lru != []
      ensures Matches(lru[0], lru[0].key, lru[0].hash)
      ensures lru[0] in Cached() && lru[0] in held && held[lru[0]] == 0
      ensures Minus(lru, lru[0]) == lru[1..] && Minus(inUse, lru[0]) == inUse
    {
      hide Charges, NoRepeats;
      assert lru[0] in lru;
      MinusNothing(inUse, lru[0]);
    }

    /** Drop the oldest entry that no client holds. */
    method EvictOldest()
      requires Valid() && lru != []
      modifies this, table, Live()
      ensures Valid() && capacity == old(capacity)
      ensures lru == old(lru)[1..] && inUse == old(inUse) && usage == old(usage) - old(lru)[0].charge
      ensures held == old(held) - {old(lru)[0]} && deletions == old(deletions) + [old(lru)[0]]
      ensures Cached() == old(Cached()) - {old(lru)[0]} && old(lru)[0] in old(held) && old(held)[old(lru)[0]] == 0
    {
      hide Minus, Charges, NoRepeats, Counted, ListsOk, AllOf, KeysDiffer, IsHashed, Cached, Matches;
      OldestIsFree();
      CachedAreLive();
      var oldest := lru[0];
      OnlyMatch(Cached(), oldest, oldest.key, oldest.hash);
      var r := table.Remove(oldest.key, oldest.hash);
      assert r == Some(oldest);
      FinishErase(oldest);
    }

    /** Drop everything that no client holds. */
    method Prune()
      requires Valid()
      modifies this, table, Live()
      ensures Valid() && capacity == old(capacity)
      ensures lru == [] && inUse == old(inUse) && deletions == old(deletions) + old(lru)
    {
      hide Minus, Charges, NoRepeats, Counted, ListsOk, AllOf, KeysDiffer, IsHashed, Cached;
      ghost var k := 0;
      while lru != []
        invariant Valid() && capacity == old(capacity) && inUse == old(inUse) && Live() <= old(Live())
        invariant k <= |old(lru)| && lru == old(lru)[k..] && deletions == old(deletions) + old(lru)[..k]
        decreases |lru|
      {
        assert old(lru)[..k + 1] == old(lru)[..k] + [lru[0]];
        EvictOldest();
        k := k + 1;
      }
      assert old(lru)[..k] == old(lru);
    }

    // ----- inserting

    /** Put a new handle on the in-use list, with one reference for its client and one for the cache. */
    method Admit(e: LRUHandle)
      requires Counted({}) && ListsOk() && e !in held && e !in lru && e !in inUse && e !in deletions
      requires e.refs == 1 && !e.inCache
      modifies this`inUse, this`usage, this`held, e
      ensures Counted({}) && ListsOk() && Cached() == old(Cached()) + {e}
      ensures held == old(held)[e := 1] && inUse == old(inUse) + [e] && usage == old(usage) + e.charge
    {
      ChargesAppend(inUse, e);
      hide Charges;
      e.refs, e.inCache := 2, true;
      inUse := inUse + [e];
      usage := usage + e.charge;
      held := held[e := 1];
    }

    /** Enter an admitted handle in the hash table, and finish with the one it displaces. */
    method Enter(e: LRUHandle) returns (gone: Option<LRUHandle>)
      requires Counted({}) && ListsOk() && table.Valid() && e !in table.Contents()
      requires e in held && held[e] == 1 && Cached() == table.Contents() + {e} && Cached() <= Live()
      modifies this, table, table.Contents()
      ensures Valid() && capacity == old(capacity) && e in Cached()
      ensures Replaced(gone, e, old(table.Contents()))
      ensures lru == Without(old(lru), gone) && deletions == old(deletions) + Freed(gone, old(held))
      ensures Cached() <= old(Cached()) && Live() <= old(Live())
      ensures forall h :: h in old(held) && old(held)[h] > 0 ==> h in held && held[h] == old(held)[h]
    {
      hide Minus, Charges, NoRepeats, Counted, ListsOk, AllOf, KeysDiffer, IsHashed, Cached, Matches;
      ghost var before := table.Contents();
      gone := table.Insert(e);
      if gone.Some? {
        FinishErase(gone.value);
        assert before - {gone.value} + {e} == before + {e} - {gone.value};
      } else {
        assert before - {} + {e} == before + {e};
      }
    }

    /** A handle that only its client holds. */
    method HandOut(e: LRUHandle)
      requires Counted({}) && ListsOk() && e !in held && e !in lru && e !in inUse && e !in deletions
      requires e.refs == 1 && !e.inCache
      modifies this`held
      ensures Counted({}) && ListsOk() && Cached() == old(Cached()) && held == old(held)[e := 1]
    {
      hide Charges, NoRepeats;
      held := held[e := 1];
    }

    /** Evict from the oldest on, until the charges fit or no free entry is left. */
    method EvictToFit() returns (ghost k: nat)
      requires Valid()
      modifies this, table, Live()
      ensures Valid() && capacity == old(capacity) && inUse == old(inUse)
      ensures usage <= capacity || lru == []
      ensures k <= |old(lru)| && lru == old(lru)[k..] && deletions == old(deletions) + old(lru)[..k]
      ensures k > 0 ==> usage + old(lru)[k - 1].charge > capacity
      ensures Cached() <= old(Cached()) && Live() <= old(Live())
      ensures AllKept(old(held), old(Cached()), held, Cached())
    {
      hide Minus, Charges, NoRepeats, Counted, ListsOk, AllOf, KeysDiffer, IsHashed, Cached;
      AllKeptRefl(held, Cached());
      hide AllKept;
      k := 0;
      while usage > capacity && lru != []
        invariant Valid() && capacity == old(capacity) && inUse == old(inUse) && Live() <= old(Live())
        invariant k <= |old(lru)| && lru == old(lru)[k..] && deletions == old(deletions) + old(lru)[..k]
        invariant k > 0 ==> usage + old(lru)[k - 1].charge > capacity
        invariant Cached() <= old(Cached())
        invariant AllKept(old(held), old(Cached()), held, Cached())
        decreases |lru|
      {
        AllKeptStep(old(held), old(Cached()), held, Cached(), lru[0]);
        Snoc(old(lru), k);
        EvictOldest();
        k := k + 1;
      }
    }

    /** A new entry for the key, in place of the one there is. */
    method Add(key: string, hash: nat, value: Value, charge: nat) returns (e: LRUHandle, gone: Option<LRUHandle>)
      requires Valid()
      modifies this, table, Live()
      ensures Valid() && fresh(e) && e in held && held[e] == 1 && capacity == old(capacity)
      ensures Matches(e, key, hash) && e.value == value && e.charge == charge
      ensures Live() <= old(Live()) + {e}
      ensures if capacity > 0 then e in Cached() && Cached() <= old(Cached()) + {e} else Cached() == old(Cached())
      ensures if capacity > 0 then Replaced(gone, e, old(Cached())) else gone.None?
      ensures lru == Without(old(lru), gone) && deletions == old(deletions) + Freed(gone, old(held))
      ensures forall h :: h in old(held) && old(held)[h] > 0 ==> h in held && held[h] == old(held)[h]
    {
      hide Minus, Charges, NoRepeats, Counted, ListsOk, AllOf, KeysDiffer, IsHashed, Cached, Matches;
      CachedAreLive();
      e := new LRUHandle(key, hash, value, charge);
      SameKey(e, e, e);
      if capacity > 0 {
        Admit(e);
        gone := Enter(e);
      } else {
        HandOut(e);
        gone := None;
      }
    }

    /**
     Insert an entry and make room for it: the entry with the same key goes, and then, oldest first,
     as many free entries as must go for the charges to fit, and no more.
     */
    method Insert(key: string, hash: nat, value: Value, charge: nat)
      returns (e: LRUHandle, ghost gone: Option<LRUHandle>, ghost evicted: nat)
      requires Valid()
      modifies this, table, Live()
      ensures Valid() && fresh(e) && e in held && held[e] == 1 && capacity == old(capacity)
      ensures Matches(e, key, hash) && e.value == value && e.charge == charge
      ensures usage <= capacity || lru == []
      ensures if capacity > 0 then Replaced(gone, e, old(Cached())) else gone.None?
      ensures var free := Without(old(lru), gone);
              && evicted <= |free| && lru == free[evicted..]
              && (evicted > 0 ==> usage + free[evicted - 1].charge > capacity)
              && deletions == old(deletions) + Freed(gone, old(held)) + free[..evicted]
      ensures capacity > 0 ==> e in Cached()
      ensures capacity > 0 ==> forall h :: h in Cached() && h != e ==> h in old(Cached()) && !Matches(h, key, hash)
      ensures forall h :: h in old(held) && old(held)[h] > 0 ==> h in held && held[h] == old(held)[h]
    {
      hide Minus, Charges, NoRepeats, Counted, ListsOk, AllOf, KeysDiffer, IsHashed, Cached, Matches;
      e, gone := Add(key, hash, value, charge);
      ghost var before, cached := held, Cached();
      evicted := EvictToFit();
      if capacity > 0 {
        OnlyMatch(Cached(), e, key, hash);
      }
    }
  }

  /** The handle that `e` takes the place of: the one with its key, if there is one. */
  ghost predicate Replaced(gone: Option<LRUHandle>, e: LRUHandle, cached: set<LRUHandle>) {
    match gone
    case Some(x) => x in cached && Matches(x, e.key, e.hash)
    case None => forall x :: x in cached ==> !Matches(x, e.key, e.hash)
  }

  function Without(s: seq<LRUHandle>, gone: Option<LRUHandle>): seq<LRUHandle> {
    if gone.Some? then Minus(s, gone.value) else s
  }

  /** A handle that leaves the cache is deleted at once unless a client holds it. */
  function Freed(gone: Option<LRUHandle>, held: map<LRUHandle, nat>): seq<LRUHandle> {
    if gone.Some? && gone.value in held && held[gone.value] == 0 then [gone.value] else []
  }

  /** Handles that clients hold stay as they were. */
  ghost predicate AllKept(before: map<LRUHandle, nat>, cached: set<LRUHandle>, held: map<LRUHandle, nat>,
                          cached': set<LRUHandle>) {
    forall h :: h in before && before[h] > 0 ==> h in held && held[h] == before[h] && (h in cached ==> h in cached')
  }

  lemma AllKeptRefl(held: map<LRUHandle, nat>, cached: set<LRUHandle>)
    ensures AllKept(held, cached, held, cached)
  {
  }

  lemma AllKeptStep(before: map<LRUHandle, nat>, cached: set<LRUHandle>, held: map<LRUHandle, nat>,
                    cached': set<LRUHandle>, x: LRUHandle)
    requires AllKept(before, cached, held, cached')
    ensures x in held && held[x] == 0 ==> AllKept(before, cached, held - {x}, cached' - {x})
  {
  }

  lemma Snoc(s: seq<LRUHandle>, k: nat)
    ensures k < |s| ==> s[..k + 1] == s[..k] + [s[k]]
  {
  }

  lemma OnlyMatch(s: set<LRUHandle>, h: LRUHandle, key: string, hash: nat)
    requires KeysDiffer(s) && h in s && Matches(h, key, hash)
    ensures forall x :: x in s && Matches(x, key, hash) ==> x == h
  {
    forall x | x in s && Matches(x, key, hash)
      ensures x == h
    {
      SameKey(x, h, h);
    }
  }

  lemma {:induction false} MinusNothing(s: seq<LRUHandle>, e: LRUHandle)
    ensures e !in s ==> Minus(s, e) == s
  {
    if s != [] && e !in s {
      assert s == [s[0]] + s[1..];
      assert e !in s[1..];
      MinusNothing(s[1..], e);
    }
  }
}
