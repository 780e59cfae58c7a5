/**
 Keys as bytes: the bytewise order (util/comparator.cc), internal keys - a user key and eight bytes
 of sequence and type - with their order, and the shortened keys of an index (db/dbformat.cc).
 */
module ByteKeys {
  import InternalKeys
  import opened Crc32c
  import opened Coding
  import opened BlockFormat

  // ----- the bytewise order

  predicate BytesLess(a: Bytes, b: Bytes) {
    b != [] && (a == [] || a[0] < b[0] || (a[0] == b[0] && BytesLess(a[1..], b[1..])))
  }

  lemma {:induction false} BytesTotal(a: Bytes, b: Bytes)
    ensures !BytesLess(a, a)
    ensures a == b || BytesLess(a, b) || BytesLess(b, a)
    ensures !(BytesLess(a, b) && BytesLess(b, a))
  {
    if a != [] {
      BytesTotal(a[1..], a[1..]);
      if b != [] && a[0] == b[0] {
        BytesTotal(a[1..], b[1..]);
        assert a == [a[0]] + a[1..] && b == [b[0]] + b[1..];
      }
    }
  }

  lemma {:induction false} BytesTransitive(a: Bytes, b: Bytes, c: Bytes)
    ensures BytesLess(a, b) && BytesLess(b, c) ==> BytesLess(a, c)
  {
    if a != [] && b != [] && c != [] {
      BytesTransitive(a[1..], b[1..], c[1..]);
    }
  }

  lemma {:induction false} LessAt(a: Bytes, b: Bytes, d: nat)
    requires d < |a| && d < |b| && a[..d] == b[..d] && a[d] < b[d]
    ensures BytesLess(a, b)
  {
    if d > 0 {
      assert a[0] == a[..d][0] == b[..d][0] == b[0];
      assert a[1..][..d - 1] == a[..d][1..] == b[..d][1..] == b[1..][..d - 1];
      LessAt(a[1..], b[1..], d - 1);
    }
  }

  lemma OrderOfBytes()
    ensures IsOrder(BytesLess)
  {
    hide BytesLess;
    forall a, b
      ensures !BytesLess(a, a) && (a == b || BytesLess(a, b) || BytesLess(b, a))
    {
      BytesTotal(a, b);
    }
    forall a, b, c | BytesLess(a, b) && BytesLess(b, c)
      ensures BytesLess(a, c)
    {
      BytesTransitive(a, b, c);
    }
  }

  /** A key from `start` up to but excluding `limit`, shorter if possible. */
  method FindShortestSeparator(start: Bytes, limit: Bytes) returns (r: Bytes)
    ensures r == start || (|r| <= |start| && BytesLess(start, r) && BytesLess(r, limit))
  {
    hide BytesLess;
    var diffIndex := SharedPrefix(start, limit);
    r := start;
    if diffIndex < |start| && diffIndex < |limit| {
      var diffByte := start[diffIndex];
      if diffByte < 0xff && diffByte + 1 < limit[diffIndex] {
        Incremented(diffByte);
        r := start[..diffIndex] + [diffByte + 1];
        assert start[..diffIndex] == r[..diffIndex];
        LessAt(start, r, diffIndex);
        LessAt(r, limit, diffIndex);
      }
    }
  }

  lemma Incremented(b: Byte)
    ensures b != 0xff ==> b < b + 1
  {
  }

  /** A key from `key` on, shorter if possible; a run of 0xff bytes is left alone. */
  method FindShortSuccessor(key: Bytes) returns (r: Bytes)
    ensures r == key || (|r| <= |key| && BytesLess(key, r))
    ensures (exists i :: 0 <= i < |key| && key[i] != 0xff) ==> BytesLess(key, r)
  {
    hide BytesLess;
    var n := |key|;
    for i := 0 to n
      invariant forall j :: 0 <= j < i ==> key[j] == 0xff
    {
      if key[i] != 0xff {
        Incremented(key[i]);
        r := key[..i] + [key[i] + 1];
        assert key[..i] == r[..i];
        LessAt(key, r, i);
        return;
      }
    }
    r := key;
  }

  // ----- internal keys

  const VALUE_TYPE_FOR_SEEK: nat := 1

  function PackSequenceAndType(sequence: nat, t: nat): nat
    requires sequence <= InternalKeys.MAX_SEQUENCE && t <= VALUE_TYPE_FOR_SEEK
  {
    sequence * 256 + t
  }

  function InternalKeyOf(userKey: Bytes, sequence: nat, t: nat): (r: Bytes)
    requires sequence <= InternalKeys.MAX_SEQUENCE && t <= VALUE_TYPE_FOR_SEEK
    ensures |r| == |userKey| + 8
  {
    userKey + Fixed(PackSequenceAndType(sequence, t), 8)
  }

  predicate IsInternal(k: Bytes) {
    |k| >= 8
  }

  function UserKey(k: Bytes): Bytes
    requires IsInternal(k)
  {
    k[..|k| - 8]
  }

  function Tag(k: Bytes): nat
    requires IsInternal(k)
  {
    GetFixed(k, |k| - 8, 8)
  }

  lemma InternalKeyRoundTrip(userKey: Bytes, sequence: nat, t: nat)
    requires sequence <= InternalKeys.MAX_SEQUENCE && t <= VALUE_TYPE_FOR_SEEK
    ensures var k := InternalKeyOf(userKey, sequence, t);
            UserKey(k) == userKey && Tag(k) == PackSequenceAndType(sequence, t) && Tag(k) / 256 == sequence &&
                Tag(k) % 256 == t
  {
    hide Fixed, GetFixed;
    var tag := PackSequenceAndType(sequence, t);
    Powers();
    AtAfter(userKey, Fixed(tag, 8), []);
    assert userKey + Fixed(tag, 8) + [] == InternalKeyOf(userKey, sequence, t);
    FixedRoundTrip(InternalKeyOf(userKey, sequence, t), |userKey|, tag, 8);
  }

  /**
   Increasing user key, then decreasing sequence and type. Keys too short to be internal, which no
   caller passes, come first.
   */
  predicate InternalLess(a: Bytes, b: Bytes) {
    if IsInternal(a) && IsInternal(b) then
      BytesLess(UserKey(a), UserKey(b)) || (UserKey(a) == UserKey(b) && Tag(a) > Tag(b))
    else if !IsInternal(a) && !IsInternal(b) then BytesLess(a, b)
    else !IsInternal(a)
  }

  lemma FirstByte(a: Bytes, p: nat, n: nat)
    requires 0 < n && p + n <= |a|
    ensures a[p..p + n] == [a[p]] + a[p + 1..p + 1 + (n - 1)]
  {
  }

  lemma {:induction false} SameTagSameBytes(a: Bytes, p: nat, b: Bytes, q: nat, n: nat)
    requires p + n <= |a| && q + n <= |b| && GetFixed(a, p, n) == GetFixed(b, q, n)
    ensures a[p..p + n] == b[q..q + n]
    decreases n
  {
    hide FromByte;
    if n > 0 {
      ByteValues(a[p]);
      ByteValues(b[q]);
      SameNumberSameByte(a[p], b[q]);
      SameTagSameBytes(a, p + 1, b, q + 1, n - 1);
      FirstByte(a, p, n);
      FirstByte(b, q, n);
    }
  }

  lemma {:induction false} InternalTotal(a: Bytes, b: Bytes)
    ensures !InternalLess(a, a)
    ensures a == b || InternalLess(a, b) || InternalLess(b, a)
  {
    hide BytesLess, GetFixed;
    if IsInternal(a) && IsInternal(b) {
      BytesTotal(UserKey(a), UserKey(b));
      BytesTotal(UserKey(a), UserKey(a));
      if UserKey(a) == UserKey(b) && Tag(a) == Tag(b) {
        SameTagSameBytes(a, |a| - 8, b, |b| - 8, 8);
        assert a == UserKey(a) + a[|a| - 8..] && b == UserKey(b) + b[|b| - 8..];
      }
    } else {
      BytesTotal(a, b);
      if IsInternal(a) {
        BytesTotal(UserKey(a), UserKey(a));
      }
    }
  }

  lemma InternalTransitive(a: Bytes, b: Bytes, c: Bytes)
    ensures InternalLess(a, b) && InternalLess(b, c) ==> InternalLess(a, c)
  {
    hide BytesLess, GetFixed;
    if IsInternal(a) && IsInternal(b) && IsInternal(c) {
      BytesTransitive(UserKey(a), UserKey(b), UserKey(c));
    } else {
      BytesTransitive(a, b, c);
    }
  }

  lemma OrderOfInternalKeys()
    ensures IsOrder(InternalLess)
  {
    hide InternalLess;
    forall a, b
      ensures !InternalLess(a, a) && (a == b || InternalLess(a, b) || InternalLess(b, a))
    {
      InternalTotal(a, b);
    }
    forall a, b, c | InternalLess(a, b) && InternalLess(b, c)
      ensures InternalLess(a, c)
    {
      InternalTransitive(a, b, c);
    }
  }

  /** The keys an index may use between the last key of a block and the first key of the next. */
  ghost predicate Separates(last: Bytes, r: Bytes) {
    IsInternal(last) && IsInternal(r) && (r == last || BytesLess(UserKey(last), UserKey(r)))
  }

  ghost predicate SeparatesFrom(last: Bytes, r: Bytes, next: Bytes) {
    && Separates(last, r) && IsInternal(next)
    && InternalLess(r, next) && (r == last || BytesLess(UserKey(r), UserKey(next)))
  }

  /** InternalKeyComparator::FindShortestSeparator. */
  method FindInternalSeparator(start: Bytes, limit: Bytes) returns (r: Bytes)
    requires IsInternal(start) && IsInternal(limit) && InternalLess(start, limit)
    ensures SeparatesFrom(start, r, limit) && |r| <= |start|
  {
    hide BytesLess, GetFixed, Fixed;
    var userStart, userLimit := UserKey(start), UserKey(limit);
    var tmp := FindShortestSeparator(userStart, userLimit);
    if |tmp| < |userStart| && BytesLess(userStart, tmp) {
      InternalKeyRoundTrip(tmp, InternalKeys.MAX_SEQUENCE, VALUE_TYPE_FOR_SEEK);
      r := InternalKeyOf(tmp, InternalKeys.MAX_SEQUENCE, VALUE_TYPE_FOR_SEEK);
    } else {
      r := start;
    }
  }

  /** InternalKeyComparator::FindShortSuccessor. */
  method FindInternalSuccessor(key: Bytes) returns (r: Bytes)
    requires IsInternal(key)
    ensures Separates(key, r) && |r| <= |key|
  {
    hide BytesLess, GetFixed, Fixed;
    var userKey := UserKey(key);
    var tmp := FindShortSuccessor(userKey);
    if |tmp| < |userKey| && BytesLess(userKey, tmp) {
      InternalKeyRoundTrip(tmp, InternalKeys.MAX_SEQUENCE, VALUE_TYPE_FOR_SEEK);
      r := InternalKeyOf(tmp, InternalKeys.MAX_SEQUENCE, VALUE_TYPE_FOR_SEEK);
    } else {
      r := key;
    }
  }

  /** A separator is not less than the block it closes. */
  lemma SeparatorIsAbove(last: Bytes, r: Bytes)
    requires Separates(last, r)
    ensures !InternalLess(r, last)
  {
    hide BytesLess, GetFixed;
    InternalTotal(last, last);
    BytesTotal(UserKey(last), UserKey(r));
  }

  /** Nothing of `k`'s user key lies beyond a separator that `k` is not above, unless `k` is in its block. */
  lemma NothingBeyond(last: Bytes, r: Bytes, next: Bytes, k: Bytes)
    requires SeparatesFrom(last, r, next) && IsInternal(k) && InternalLess(last, k) && !InternalLess(r, k)
    ensures BytesLess(UserKey(k), UserKey(next))
  {
    hide BytesLess, GetFixed;
    InternalTotal(last, last);
    BytesTotal(UserKey(k), UserKey(r));
    BytesTransitive(UserKey(k), UserKey(r), UserKey(next));
  }
}
