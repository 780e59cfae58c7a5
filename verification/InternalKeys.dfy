/**
 Internal keys and the order of `InternalKeyComparator` (db/dbformat.cc).

 A user comparator is any total order.  A user key is modelled as a real number
 under `<`: every countable total order, the order of byte strings included, embeds
 in the reals, and nothing below uses arithmetic on user keys.
 */
module InternalKeys {

  type UserKey = real

  /** Values are never inspected. */
  type Value = string

  const MAX_SEQUENCE: nat := 0xff_ffff_ffff_ffff

  /** The two value types, with their on-disk codes 0 and 1. */
  datatype ValueType = Deletion | Put {
    function Code(): nat {
      if Put? then 1 else 0
    }
  }

  datatype InternalKey = InternalKey(user: UserKey, sequence: nat, kind: ValueType) {
    /** The trailing eight bytes of an encoded internal key. */
    function Tag(): nat {
      256 * sequence + kind.Code()
    }
  }

  datatype Entry = Entry(key: InternalKey, value: Value)

  /** Increasing user key, then decreasing tag. */
  predicate Less(a: InternalKey, b: InternalKey) {
    a.user < b.user || (a.user == b.user && a.Tag() > b.Tag())
  }

  predicate AtMost(a: InternalKey, b: InternalKey) {
    !Less(b, a)
  }

  /** The internal key a read of `user` at sequence `s` seeks to; `Put` is kValueTypeForSeek. */
  function LookupKey(user: UserKey, s: nat): InternalKey {
    InternalKey(user, s, Put)
  }

  ghost predicate Sorted(es: seq<Entry>) {
    forall i, j :: 0 <= i < j < |es| ==> Less(es[i].key, es[j].key)
  }

  /** `i` is where a Seek to `target` lands: the first entry at or after it. */
  ghost predicate IsLowerBound(es: seq<Entry>, target: InternalKey, i: nat) {
    && i <= |es|
    && (forall j :: 0 <= j < i ==> Less(es[j].key, target))
    && (forall j :: i <= j < |es| ==> !Less(es[j].key, target))
  }

  ghost function Elements(es: seq<Entry>): set<Entry> {
    set e | e in es
  }

  /** No two entries carry one sequence number. */
  ghost predicate Distinct(s: set<Entry>) {
    forall e, f :: e in s && f in s && e.key.sequence == f.key.sequence ==> e == f
  }

  lemma LessIsStrictOrder(a: InternalKey, b: InternalKey, c: InternalKey)
    ensures !Less(a, a)
    ensures Less(a, b) && Less(b, c) ==> Less(a, c)
    ensures Less(a, b) || Less(b, a) || a == b
  {
  }
}
