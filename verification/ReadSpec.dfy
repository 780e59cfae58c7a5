/**
 What a read means.

 The specification is the history of writes: write number n carries sequence number n,
 and a read of a key at sequence s returns the last write to that key among the first s.
 The implementation keeps sets of entries; `Newest` gives the entry of a set that decides
 a read.
 */
module ReadSpec {
  import opened Optional
  import opened InternalKeys

  datatype Answer = Found(value: Value) | NotFound

  /** A tombstone reads the same as the absence of any entry. */
  function AnswerOf(o: Option<Entry>): Answer {
    if o.Some? && o.value.key.kind.Put? then Found(o.value.value) else NotFound
  }

  // ----- the history of writes

  ghost predicate IsHistory(h: seq<Entry>) {
    forall i :: 0 <= i < |h| ==> h[i].key.sequence == i + 1
  }

  /** The last of the first `s` writes to `user`, as a client sees it. */
  function HistoryRead(h: seq<Entry>, user: UserKey, s: nat): Answer
    requires s <= |h|
  {
    if s == 0 then NotFound
    else if h[s - 1].key.user == user then AnswerOf(Some(h[s - 1]))
    else HistoryRead(h, user, s - 1)
  }

  lemma HistoryReadIsStable(h: seq<Entry>, more: seq<Entry>, user: UserKey, s: nat)
    requires s <= |h|
    ensures HistoryRead(h + more, user, s) == HistoryRead(h, user, s)
  {
  }

  // ----- sets of entries

  ghost predicate Candidate(e: Entry, user: UserKey, s: nat) {
    e.key.user == user && e.key.sequence <= s
  }

  ghost predicate IsNewest(es: set<Entry>, user: UserKey, s: nat, e: Entry) {
    && e in es
    && Candidate(e, user, s)
    && forall f :: f in es && Candidate(f, user, s) ==> f.key.sequence <= e.key.sequence
  }

  ghost function Newest(es: set<Entry>, user: UserKey, s: nat): Option<Entry> {
    if exists e :: IsNewest(es, user, s, e)
    then var e :| IsNewest(es, user, s, e); Some(e)
    else None
  }

  ghost function SetRead(es: set<Entry>, user: UserKey, s: nat): Answer {
    AnswerOf(Newest(es, user, s))
  }

  lemma NewestIsUnique(es: set<Entry>, user: UserKey, s: nat, e: Entry)
    requires Distinct(es) && IsNewest(es, user, s, e)
    ensures Newest(es, user, s) == Some(e)
  {
  }

  lemma {:induction false} NewestExists(es: set<Entry>, user: UserKey, s: nat, c: Entry)
    requires c in es && Candidate(c, user, s)
    ensures exists e :: IsNewest(es, user, s, e)
    decreases es
  {
    if f :| f in es && Candidate(f, user, s) && f.key.sequence > c.key.sequence {
      NewestExists(es - {c}, user, s, f);
      var e :| IsNewest(es - {c}, user, s, e);
      assert IsNewest(es, user, s, e);
    } else {
      assert IsNewest(es, user, s, c);
    }
  }

  lemma NewestIsNone(es: set<Entry>, user: UserKey, s: nat)
    ensures Newest(es, user, s) == None <==> forall e :: e in es ==> !Candidate(e, user, s)
  {
    if e :| e in es && Candidate(e, user, s) {
      NewestExists(es, user, s, e);
    }
  }

  /** The history's own entries, read as a set, agree with reading the history. */
  lemma {:induction false} HistoryReadIsSetRead(h: seq<Entry>, user: UserKey, s: nat)
    requires IsHistory(h) && s <= |h|
    ensures Distinct(Elements(h))
    ensures HistoryRead(h, user, s) == SetRead(Elements(h), user, s)
  {
    if s == 0 {
      NewestIsNone(Elements(h), user, s);
    } else if h[s - 1].key.user == user {
      assert IsNewest(Elements(h), user, s, h[s - 1]);
      NewestIsUnique(Elements(h), user, s, h[s - 1]);
    } else {
      HistoryReadIsSetRead(h, user, s - 1);
      forall e
        ensures IsNewest(Elements(h), user, s, e) <==> IsNewest(Elements(h), user, s - 1, e)
      {
        forall f | f in Elements(h)
          ensures Candidate(f, user, s) <==> Candidate(f, user, s - 1)
        {
        }
      }
      NewestTransfer(Elements(h), Elements(h), user, s, s - 1);
    }
  }

  /** Two reads with the same newest entry agree. */
  lemma NewestTransfer(a: set<Entry>, b: set<Entry>, user: UserKey, s: nat, t: nat)
    requires Distinct(a) && Distinct(b)
    requires forall e :: IsNewest(a, user, s, e) <==> IsNewest(b, user, t, e)
    ensures Newest(a, user, s) == Newest(b, user, t)
  {
    if e :| IsNewest(a, user, s, e) {
      NewestIsUnique(a, user, s, e);
      NewestIsUnique(b, user, t, e);
    }
  }

  /**
   A read may stop at the first layer that holds a candidate: when every entry of `upper`
   is newer than every entry of `lower` for the same user key, the newest candidate of the
   union is the newest of `upper`, if there is one.
   */
  lemma NewestOfLayers(upper: set<Entry>, lower: set<Entry>, user: UserKey, s: nat)
    requires Distinct(upper + lower)
    requires forall e, f :: e in upper && f in lower && e.key.user == f.key.user ==> e.key.sequence > f.key.sequence
    ensures Newest(upper + lower, user, s) ==
            if Newest(upper, user, s).Some? then Newest(upper, user, s) else Newest(lower, user, s)
  {
    if e :| IsNewest(upper, user, s, e) {
      assert IsNewest(upper + lower, user, s, e);
      NewestIsUnique(upper, user, s, e);
      NewestIsUnique(upper + lower, user, s, e);
    } else {
      NewestIsNone(upper, user, s);
      forall e
        ensures IsNewest(upper + lower, user, s, e) <==> IsNewest(lower, user, s, e)
      {
      }
      NewestTransfer(upper + lower, lower, user, s, s);
    }
  }

  // ----- one sorted layer

  /** What a Seek to (user, s) in one sorted run yields, if it is an entry of `user`. */
  function LayerGet(es: seq<Entry>, user: UserKey, s: nat): Option<Entry> {
    if es == [] then None
    else if Less(es[0].key, LookupKey(user, s)) then LayerGet(es[1..], user, s)
    else if es[0].key.user == user then Some(es[0])
    else None
  }

  lemma {:induction false} LayerGetAtLowerBound(es: seq<Entry>, user: UserKey, s: nat, i: nat)
    requires IsLowerBound(es, LookupKey(user, s), i)
    ensures LayerGet(es, user, s) == if i < |es| && es[i].key.user == user then Some(es[i]) else None
  {
    if i > 0 {
      assert IsLowerBound(es[1..], LookupKey(user, s), i - 1);
      LayerGetAtLowerBound(es[1..], user, s, i - 1);
    }
  }

  lemma {:induction false} LowerBoundExists(es: seq<Entry>, target: InternalKey) returns (i: nat)
    requires Sorted(es)
    ensures IsLowerBound(es, target, i)
  {
    i := 0;
    while i < |es| && Less(es[i].key, target)
      invariant i <= |es| && forall j :: 0 <= j < i ==> Less(es[j].key, target)
    {
      i := i + 1;
    }
  }

  /** The entries before the landing point are too new or belong to smaller keys. */
  lemma CandidateIffAtLowerBound(e: Entry, user: UserKey, s: nat)
    ensures Candidate(e, user, s) <==> e.key.user == user && !Less(e.key, LookupKey(user, s))
  {
  }

  /** In a sorted run that seek finds exactly the newest candidate. */
  lemma LayerGetIsNewest(es: seq<Entry>, user: UserKey, s: nat)
    requires Sorted(es) && Distinct(Elements(es))
    ensures LayerGet(es, user, s) == Newest(Elements(es), user, s)
  {
    var i := LowerBoundExists(es, LookupKey(user, s));
    LayerGetAtLowerBound(es, user, s, i);
    if i < |es| && es[i].key.user == user {
      CandidateIffAtLowerBound(es[i], user, s);
      forall f | f in Elements(es) && Candidate(f, user, s)
        ensures f.key.sequence <= es[i].key.sequence
      {
        var j :| 0 <= j < |es| && es[j] == f;
        CandidateIffAtLowerBound(f, user, s);
        assert i <= j;
      }
      NewestIsUnique(Elements(es), user, s, es[i]);
    } else {
      forall f | f in Elements(es)
        ensures !Candidate(f, user, s)
      {
        var j :| 0 <= j < |es| && es[j] == f;
        CandidateIffAtLowerBound(f, user, s);
        if i < j {
          assert Less(es[i].key, es[j].key);
        }
      }
      NewestIsNone(Elements(es), user, s);
    }
  }
}
