/**
 DBIter (db/db_iter.cc): a merging iterator over internal entries turned into an iterator over
 the map of user keys visible at one sequence number.
 */
module DbIterator {
  import opened Optional
  import opened InternalKeys
  import opened ReadSpec
  import opened Merger

  // ----- what is visible

  predicate Visible(e: Entry, s: nat) {
    e.key.sequence <= s
  }

  /** Entry `i` is the newest visible entry of its user key, and holds a value. */
  ghost predicate IsShown(es: seq<Entry>, s: nat, i: nat) {
    && i < |es| && Visible(es[i], s) && es[i].key.kind.Put?
    && forall j :: 0 <= j < i && Visible(es[j], s) ==> es[j].key.user != es[i].key.user
  }

  ghost predicate NoneShown(es: seq<Entry>, s: nat, lo: nat, hi: nat) {
    forall j: nat :: lo <= j < hi ==> !IsShown(es, s, j)
  }

  ghost predicate NoneVisible(es: seq<Entry>, s: nat, lo: nat, hi: nat) {
    forall j :: lo <= j < hi && j < |es| ==> !Visible(es[j], s)
  }

  /** The first shown position at or after `from`; past the end if there is none. */
  ghost predicate IsFirstShown(es: seq<Entry>, s: nat, from: nat, i: nat) {
    i <= |es| && NoneShown(es, s, from, i) && (i < |es| ==> from <= i && IsShown(es, s, i))
  }

  /** The last shown position before `to`; past the end if there is none. */
  ghost predicate IsLastShown(es: seq<Entry>, s: nat, to: nat, i: nat) {
    if i < |es| then i < to && IsShown(es, s, i) && NoneShown(es, s, i + 1, to)
    else i == |es| && NoneShown(es, s, 0, to)
  }

  /** User keys do not decrease along the entries. */
  lemma UsersInOrder(es: seq<Entry>, i: nat, j: nat)
    requires Sorted(es) && i <= j < |es|
    ensures es[i].key.user <= es[j].key.user
  {
    assert i < j ==> Less(es[i].key, es[j].key);
  }

  /**
   The shown entries are exactly the answers of reads at `s`: a user key is shown with the
   value a read returns, and only if a read finds it.
   */
  lemma ShownIffRead(es: seq<Entry>, s: nat, user: UserKey, value: Value)
    requires Sorted(es) && Distinct(Elements(es))
    ensures SetRead(Elements(es), user, s) == Found(value) <==>
            exists i: nat :: IsShown(es, s, i) && es[i].key.user == user && es[i].value == value
  {
    if i: nat :| IsShown(es, s, i) && es[i].key.user == user && es[i].value == value {
      ShownIsNewest(es, s, i);
    }
    if e :| IsNewest(Elements(es), user, s, e) {
      NewestIsUnique(Elements(es), user, s, e);
      var i :| 0 <= i < |es| && es[i] == e;
      forall j | 0 <= j < i && Visible(es[j], s)
        ensures es[j].key.user != user
      {
        assert es[j] in Elements(es) && Less(es[j].key, es[i].key);
      }
      assert SetRead(Elements(es), user, s) == Found(value) ==> IsShown(es, s, i);
    }
  }

  lemma ShownIsNewest(es: seq<Entry>, s: nat, i: nat)
    requires Sorted(es) && Distinct(Elements(es)) && IsShown(es, s, i)
    ensures Newest(Elements(es), es[i].key.user, s) == Some(es[i])
  {
    var user := es[i].key.user;
    forall f | f in Elements(es) && Candidate(f, user, s)
      ensures f.key.sequence <= es[i].key.sequence
    {
      var j :| 0 <= j < |es| && es[j] == f;
      assert j > i ==> Less(es[i].key, es[j].key);
    }
    NewestIsUnique(Elements(es), user, s, es[i]);
  }

  // ----- skipping hidden entries

  /** Before position `p`, every visible entry has a user key that is being skipped or does not come again. */
  ghost predicate SkipCovers(es: seq<Entry>, s: nat, p: nat, skipping: bool, skip: Option<UserKey>) {
    && (skipping ==> skip.Some?)
    && (p < |es| ==>
          forall j :: 0 <= j < p && Visible(es[j], s) ==>
            (skipping && es[j].key.user <= skip.value) || es[j].key.user < es[p].key.user)
  }

  /**
   From `p` on, nothing visible comes before the skipped key and the skipped key is not shown;
   the positions before `from` do not come after it.
   */
  ghost predicate SkipIsLeast(es: seq<Entry>, s: nat, p: nat, from: nat, skipping: bool, skip: Option<UserKey>) {
    if !skipping then from <= p
    else
      && skip.Some?
      && (forall j: nat :: p <= j < |es| && Visible(es[j], s) ==> es[j].key.user >= skip.value)
      && (forall j: nat :: p <= j < |es| && from <= j && es[j].key.user == skip.value ==> !IsShown(es, s, j))
      && (forall j: nat :: j < from && j < |es| ==> es[j].key.user <= skip.value)
  }

  /** After a visible tombstone its user key is skipped. */
  lemma SkipTombstone(es: seq<Entry>, s: nat, p: nat, from: nat, skipping: bool, skip: Option<UserKey>)
    requires Sorted(es) && p < |es| && Visible(es[p], s) && es[p].key.kind.Deletion?
    requires SkipCovers(es, s, p, skipping, skip) && SkipIsLeast(es, s, p, from, skipping, skip)
    ensures SkipCovers(es, s, p + 1, true, Some(es[p].key.user))
    ensures SkipIsLeast(es, s, p + 1, from, true, Some(es[p].key.user))
  {
    forall j | 0 <= j < |es|
      ensures j <= p ==> es[j].key.user <= es[p].key.user
      ensures p <= j ==> es[p].key.user <= es[j].key.user
    {
      if j <= p {
        UsersInOrder(es, j, p);
      } else {
        UsersInOrder(es, p, j);
      }
    }
  }

  /** Passing an entry that is invisible, or hidden by the skipped key. */
  lemma PassHidden(es: seq<Entry>, s: nat, p: nat, from: nat, skipping: bool, skip: Option<UserKey>)
    requires Sorted(es) && p < |es|
    requires SkipCovers(es, s, p, skipping, skip) && SkipIsLeast(es, s, p, from, skipping, skip)
    requires Visible(es[p], s) ==> skipping && es[p].key.user <= skip.value
    ensures SkipCovers(es, s, p + 1, skipping, skip) && SkipIsLeast(es, s, p + 1, from, skipping, skip)
    ensures from <= p ==> !IsShown(es, s, p)
  {
    if p + 1 < |es| {
      UsersInOrder(es, p, p + 1);
    }
  }

  /** A visible value beyond the skipped key is shown. */
  lemma BeyondSkipIsShown(es: seq<Entry>, s: nat, p: nat, from: nat, skipping: bool, skip: Option<UserKey>)
    requires Sorted(es) && p < |es| && Visible(es[p], s) && es[p].key.kind.Put?
    requires SkipCovers(es, s, p, skipping, skip) && SkipIsLeast(es, s, p, from, skipping, skip)
    requires !(skipping && es[p].key.user <= skip.value)
    ensures from <= p && IsShown(es, s, p)
  {
  }

  /** Scanning backward to `p`: `m` is the newest entry met so far of the user key saved. */
  ghost predicate HoldsValue(es: seq<Entry>, s: nat, p: nat, m: nat, to: nat, key: Option<UserKey>, value: Value) {
    && p <= m < to && m < |es| && Visible(es[m], s) && es[m].key.kind.Put?
    && key == Some(es[m].key.user) && value == es[m].value
    && NoneVisible(es, s, p, m) && NoneShown(es, s, m + 1, to)
  }

  /** The first shown position with a user key at or after `target`. */
  ghost predicate IsSought(es: seq<Entry>, s: nat, target: UserKey, i: nat) {
    && i <= |es|
    && (i < |es| ==> IsShown(es, s, i) && es[i].key.user >= target)
    && (forall j: nat :: j < i && IsShown(es, s, j) ==> es[j].key.user < target)
  }

  /** Everything before the landing point of a seek is invisible or belongs to a smaller user key. */
  lemma SeekLanding(es: seq<Entry>, s: nat, target: UserKey, p: nat)
    requires Sorted(es) && IsLowerBound(es, LookupKey(target, s), p)
    ensures SkipCovers(es, s, p, false, None) && SkipIsLeast(es, s, p, p, false, None)
    ensures forall j :: 0 <= j < p && Visible(es[j], s) ==> es[j].key.user < target
    ensures forall j :: p <= j < |es| ==> es[j].key.user >= target
  {
    forall j | 0 <= j < |es|
      ensures j < p && Visible(es[j], s) ==> es[j].key.user < target
      ensures p <= j ==> es[j].key.user >= target
    {
      CandidateIffAtLowerBound(es[j], target, s);
    }
  }

  lemma SoughtFromLanding(es: seq<Entry>, s: nat, target: UserKey, p: nat, i: nat)
    requires IsFirstShown(es, s, p, i) && p <= |es|
    requires forall j :: 0 <= j < p && Visible(es[j], s) ==> es[j].key.user < target
    requires forall j :: p <= j < |es| ==> es[j].key.user >= target
    ensures IsSought(es, s, target, i)
  {
  }

  /** Moving on from the shown position `at`, with the entries between `p` and it invisible. */
  lemma SkipShown(es: seq<Entry>, s: nat, p: nat, at: nat)
    requires Sorted(es) && IsShown(es, s, at) && p <= at && NoneVisible(es, s, p, at)
    ensures SkipCovers(es, s, p, true, Some(es[at].key.user))
    ensures SkipIsLeast(es, s, p, at + 1, true, Some(es[at].key.user))
  {
    forall j | 0 <= j < |es|
      ensures j <= at ==> es[j].key.user <= es[at].key.user
      ensures at <= j ==> es[at].key.user <= es[j].key.user
    {
      if j <= at {
        UsersInOrder(es, j, at);
      } else {
        UsersInOrder(es, at, j);
      }
    }
  }

  /** What FindPrevUserEntry has saved: the kind of the last visible entry, and where it was. */
  datatype Saved = Held(m: nat, kind: ValueType, key: Option<UserKey>, value: Value)

  /** From `p` up to `to` nothing is shown, or just the entry that has been saved. */
  ghost predicate SeenBack(es: seq<Entry>, s: nat, p: nat, m: nat, to: nat, kind: ValueType, key: Option<UserKey>,
                           value: Value) {
    if kind.Deletion? then NoneShown(es, s, p, to) else HoldsValue(es, s, p, m, to, key, value)
  }

  /** One entry further back. */
  lemma OneFurtherBack(es: seq<Entry>, s: nat, p: nat, to: nat, h: Saved)
    requires Sorted(es) && p < |es| && p < to && SeenBack(es, s, p + 1, h.m, to, h.kind, h.key, h.value)
    requires h.kind.Put? && Visible(es[p], s) ==> h.key.Some? && h.key.value <= es[p].key.user
    ensures if !Visible(es[p], s) then SeenBack(es, s, p, h.m, to, h.kind, h.key, h.value)
            else if es[p].key.kind.Deletion? then NoneShown(es, s, p, to)
            else HoldsValue(es, s, p, p, to, Some(es[p].key.user), es[p].value)
  {
    if Visible(es[p], s) && h.kind.Put? {
      UsersInOrder(es, p, h.m);
    }
  }

  /** The saved entry is the last that is shown, once everything before it belongs to smaller keys. */
  lemma HeldIsShown(es: seq<Entry>, s: nat, p: nat, m: nat, to: nat, key: Option<UserKey>, value: Value)
    requires Sorted(es) && HoldsValue(es, s, p, m, to, key, value)
    requires p > 0 ==> p <= |es| && es[p - 1].key.user < es[m].key.user
    ensures p <= m < to && m < |es| && IsShown(es, s, m) && IsLastShown(es, s, to, m) && NoneVisible(es, s, p, m)
    ensures key == Some(es[m].key.user) && value == es[m].value
  {
    forall j | 0 <= j < m && Visible(es[j], s)
      ensures es[j].key.user != es[m].key.user
    {
      if j < p {
        UsersInOrder(es, j, p - 1);
      }
    }
  }

  lemma UserOfHeld(es: seq<Entry>, s: nat, p: nat, m: nat, to: nat, key: Option<UserKey>, value: Value)
    requires HoldsValue(es, s, p, m, to, key, value)
    ensures m < |es| && key == Some(es[m].key.user)
  {
  }

  lemma NothingHeld(es: seq<Entry>, s: nat, p: nat, to: nat)
    requires p == 0 && NoneShown(es, s, p, to)
    ensures IsLastShown(es, s, to, |es|)
  {
  }

  // ----- the iterator

  class DBIter {
    const iter: MergingIterator
    const sequence: nat
    var savedKey: Option<UserKey>
    var savedValue: Value
    var direction: Direction
    var valid: bool
    /** The position shown, meaningful while `valid`. */
    ghost var at: nat

    constructor (iter: MergingIterator, sequence: nat)
      requires iter.Ok()
      ensures Ok() && !valid && this.iter == iter && this.sequence == sequence
    {
      this.iter := iter;
      this.sequence := sequence;
      savedKey, savedValue, direction, valid, at := None, "", Forward, false, 0;
    }

    /**
     Going forward the internal iterator is at the entry shown; going backward it is just before its
     user key's visible entries.
     */
    ghost predicate Ok()
      reads this, iter, iter.children
    {
      && iter.Ok()
      && (valid ==>
            && IsShown(iter.all, sequence, at)
            && (direction.Forward? ==> iter.at == at)
            && (direction.Reverse? ==>
                  && savedKey == Some(iter.all[at].key.user) && savedValue == iter.all[at].value
                  && Resume() <= at && NoneVisible(iter.all, sequence, Resume(), at)))
    }

    /** Going backward, the position after the internal iterator's. */
    ghost function Resume(): nat
      reads this, iter, iter.children
    {
      if iter.Valid() then iter.at + 1 else 0
    }

    method Key() returns (user: UserKey)
      requires Ok() && valid
      ensures user == iter.all[at].key.user
    {
      if direction.Forward? {
        var e := iter.CurrentEntry();
        user := e.key.user;
      } else {
        user := savedKey.value;
      }
    }

    method CurrentValue() returns (value: Value)
      requires Ok() && valid
      ensures value == iter.all[at].value
    {
      if direction.Forward? {
        var e := iter.CurrentEntry();
        value := e.value;
      } else {
        value := savedValue;
      }
    }

    /** Go to the first shown entry at or after `from`. */
    method FindNextUserEntry(skip: bool, ghost from: nat)
      requires iter.Ok() && iter.Valid() && direction.Forward? && (skip ==> savedKey.Some?)
      requires SkipCovers(iter.all, sequence, iter.at, skip, savedKey)
      requires SkipIsLeast(iter.all, sequence, iter.at, from, skip, savedKey)
      requires NoneShown(iter.all, sequence, from, iter.at)
      modifies this, iter, iter.children
      ensures Ok() && IsFirstShown(iter.all, sequence, from, at) && (valid <==> at < |iter.all|)
    {
      hide SkipCovers, SkipIsLeast, MergingIterator.Ok;
      iter.StandsAtEntry();
      var skipping := skip;
      ghost var es := iter.all;
      while iter.Valid()
        invariant iter.Ok() && direction.Forward? && (skipping ==> savedKey.Some?)
        invariant SkipCovers(es, sequence, iter.at, skipping, savedKey)
        invariant SkipIsLeast(es, sequence, iter.at, from, skipping, savedKey)
        invariant NoneShown(es, sequence, from, iter.at)
        decreases |es| - iter.at
      {
        iter.StandsAtEntry();
        var e := iter.CurrentEntry();
        if Visible(e, sequence) && e.key.kind.Deletion? {
          SkipTombstone(es, sequence, iter.at, from, skipping, savedKey);
          savedKey := Some(e.key.user);
          skipping := true;
        } else if Visible(e, sequence) && !(skipping && e.key.user <= savedKey.value) {
          BeyondSkipIsShown(es, sequence, iter.at, from, skipping, savedKey);
          valid := true;
          savedKey := None;
          at := iter.at;
          return;
        } else {
          PassHidden(es, sequence, iter.at, from, skipping, savedKey);
        }
        iter.Next();
      }
      iter.StandsAtEntry();
      savedKey := None;
      valid := false;
      at := |es|;
    }

    /** Go to the last shown entry before `to`. */
    method FindPrevUserEntry(ghost to: nat)
      requires iter.Ok() && direction.Reverse? && Resume() <= to <= |iter.all|
      requires NoneShown(iter.all, sequence, Resume(), to)
      modifies this, iter, iter.children
      ensures Ok() && IsLastShown(iter.all, sequence, to, at) && (valid <==> at < |iter.all|)
    {
      hide MergingIterator.Ok, HoldsValue, NoneShown, IsShown;
      var kind := Deletion;
      ghost var es := iter.all;
      ghost var m: nat := |es|;
      iter.StandsAtEntry();
      while iter.Valid()
        invariant iter.Ok() && direction.Reverse? && Resume() <= to
        invariant kind.Put? ==> savedKey.Some?
        invariant SeenBack(es, sequence, Resume(), m, to, kind, savedKey, savedValue)
        decreases Resume()
      {
        var e := iter.CurrentEntry();
        ghost var p := iter.at;
        ghost var from := Held(m, kind, savedKey, savedValue);
        if Visible(e, sequence) {
          if kind.Put? && e.key.user < savedKey.value {
            UserOfHeld(es, sequence, p + 1, m, to, savedKey, savedValue);
            break;
          }
          kind := e.key.kind;
          m := iter.at;
          if kind.Deletion? {
            savedKey, savedValue := None, "";
          } else {
            savedKey, savedValue := Some(e.key.user), e.value;
          }
        }
        OneFurtherBack(es, sequence, p, to, from);
        iter.Prev();
        iter.StandsAtEntry();
      }
      if kind.Deletion? {
        valid := false;
        savedKey, savedValue := None, "";
        direction := Forward;
        NothingHeld(es, sequence, Resume(), to);
        at := |es|;
      } else {
        HeldIsShown(es, sequence, Resume(), m, to, savedKey, savedValue);
        valid := true;
        at := m;
      }
    }

    method SeekToFirst()
      requires iter.Fixed()
      modifies this, iter, iter.children
      ensures Ok() && IsFirstShown(iter.all, sequence, 0, at) && (valid <==> at < |iter.all|)
    {
      direction := Forward;
      savedValue := "";
      iter.SeekToFirst();
      if iter.Valid() {
        FindNextUserEntry(false, 0);
      } else {
        valid, at := false, 0;
      }
    }

    method SeekToLast()
      requires iter.Fixed()
      modifies this, iter, iter.children
      ensures Ok() && IsLastShown(iter.all, sequence, |iter.all|, at) && (valid <==> at < |iter.all|)
    {
      direction := Reverse;
      savedValue := "";
      iter.SeekToLast();
      FindPrevUserEntry(|iter.all|);
    }

    /** Go to the first shown entry whose user key is at or after `target`. */
    method Seek(target: UserKey)
      requires iter.Fixed()
      modifies this, iter, iter.children
      ensures Ok() && IsSought(iter.all, sequence, target, at) && (valid <==> at < |iter.all|)
    {
      direction := Forward;
      savedValue := "";
      savedKey := None;
      iter.Seek(LookupKey(target, sequence));
      SeekLanding(iter.all, sequence, target, iter.at);
      ghost var landed := iter.at;
      if iter.Valid() {
        FindNextUserEntry(false, iter.at);
      } else {
        valid, at := false, |iter.all|;
      }
      SoughtFromLanding(iter.all, sequence, target, landed, at);
    }

    /** Go to the next shown entry. */
    method Next()
      requires Ok() && valid
      modifies this, iter, iter.children
      ensures Ok() && IsFirstShown(iter.all, sequence, old(at) + 1, at) && (valid <==> at < |iter.all|)
    {
      if direction.Reverse? {
        direction := Forward;
        if !iter.Valid() {
          iter.SeekToFirst();
        } else {
          iter.Next();
        }
        // The entry shown lies ahead, so the internal iterator is valid here.
        assert iter.Valid();
      } else {
        var e := iter.CurrentEntry();
        savedKey := Some(e.key.user);
      }
      SkipShown(iter.all, sequence, iter.at, at);
      FindNextUserEntry(true, at + 1);
    }

    /** Go to the previous shown entry. */
    method Prev()
      requires Ok() && valid
      modifies this, iter, iter.children
      ensures Ok() && IsLastShown(iter.all, sequence, old(at), at) && (valid <==> at < |iter.all|)
    {
      ghost var es := iter.all;
      if direction.Forward? {
        var e := iter.CurrentEntry();
        savedKey := Some(e.key.user);
        while true
          invariant iter.Ok() && iter.Valid() && iter.at <= at && !direction.Reverse?
          invariant at == old(at) && savedKey == Some(es[at].key.user) && IsShown(es, sequence, at)
          invariant NoneVisible(es, sequence, iter.at, at)
          decreases iter.at
        {
          iter.Prev();
          if !iter.Valid() {
            valid, savedKey, savedValue := false, None, "";
            at := |es|;
            return;
          }
          e := iter.CurrentEntry();
          if e.key.user < savedKey.value {
            break;
          }
          UsersInOrder(es, iter.at, at);
        }
        direction := Reverse;
      }
      FindPrevUserEntry(at);
    }
  }

  // ----- the cursor over the visible map

  /** Stepping forward and back, or back and forward, returns to the same entry. */
  lemma StepsInvert(es: seq<Entry>, s: nat, i: nat, j: nat, k: nat)
    requires IsShown(es, s, i)
    ensures IsFirstShown(es, s, i + 1, j) && j < |es| && IsLastShown(es, s, j, k) ==> k == i
    ensures IsLastShown(es, s, i, j) && j < |es| && IsFirstShown(es, s, j + 1, k) ==> k == i
  {
    if IsLastShown(es, s, i, j) && j < |es| && IsFirstShown(es, s, j + 1, k) {
      assert k < i ==> !IsShown(es, s, k);
      assert i < k ==> !IsShown(es, s, i);
    }
  }
}
