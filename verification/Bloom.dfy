/**
 The Bloom filter policy (util/bloom.cc), for any 32-bit hash of the keys.
 */
module Bloom {
  import opened Crc32c
  import opened Coding

  type Key = seq<Byte>

  // ----- bits of a byte array

  function Bit(i: nat): Byte
    requires i < 8
  {
    match i
    case 0 => 1
    case 1 => 2
    case 2 => 4
    case 3 => 8
    case 4 => 16
    case 5 => 32
    case 6 => 64
    case 7 => 128
  }

  predicate Meets(b: Byte, m: Byte) {
    b & m != 0
  }

  function Join(b: Byte, m: Byte): Byte {
    b | m
  }

  lemma JoinMeets(b: Byte, m: Byte, n: Byte)
    ensures Meets(Join(b, m), n) <==> Meets(b, n) || Meets(m, n)
  {
  }

  lemma BitsDiffer(i: nat, j: nat)
    requires i < 8 && j < 8
    ensures Meets(Bit(i), Bit(j)) <==> i == j
  {
  }

  predicate HasBit(cells: seq<Byte>, p: nat)
    requires p < 8 * |cells|
  {
    Meets(cells[p / 8], Bit(p % 8))
  }

  function SetBit(cells: seq<Byte>, p: nat): (r: seq<Byte>)
    requires p < 8 * |cells|
    ensures |r| == |cells|
  {
    cells[p / 8 := Join(cells[p / 8], Bit(p % 8))]
  }

  lemma SetBitSetsIt(cells: seq<Byte>, p: nat, q: nat)
    requires p < 8 * |cells| && q < 8 * |cells|
    ensures HasBit(SetBit(cells, p), q) <==> HasBit(cells, q) || p == q
  {
    hide Meets, Join, Bit;
    JoinMeets(cells[p / 8], Bit(p % 8), Bit(q % 8));
    BitsDiffer(p % 8, q % 8);
  }

  // ----- probes

  const WORD: nat := 0x1_0000_0000

  newtype Hash32 = x: int | 0 <= x < 0x1_0000_0000

  /** Rotate right by 17 bits. */
  function Delta(h: Hash32): (d: Hash32) {
    h / 0x2_0000 + h % 0x2_0000 * 0x8000
  }

  function Plus(h: Hash32, d: Hash32): Hash32 {
    ((h as int + d as int) % WORD) as Hash32
  }

  /** The j-th hash value of double hashing. */
  function HashAt(h: Hash32, j: nat): Hash32 {
    if j == 0 then h else Plus(HashAt(h, j - 1), Delta(h))
  }

  function Position(h: Hash32, bits: nat): (p: nat)
    requires bits > 0
    ensures p < bits
  {
    h as nat % bits
  }

  /** Where key hash `h` probes. */
  function Probe(h: Hash32, j: nat, bits: nat): (p: nat)
    requires bits > 0
    ensures p < bits
  {
    Position(HashAt(h, j), bits)
  }

  /** Some key among `keys` probes the position. */
  ghost predicate IsHit(hash: Key -> Hash32, keys: seq<Key>, k: nat, bits: nat, p: nat)
    requires bits > 0
  {
    exists i: nat :: i < |keys| && Probes(hash(keys[i]), k, bits, p)
  }

  /** One of the first `k` probes goes to the position. */
  ghost predicate Probes(h: Hash32, k: nat, bits: nat, p: nat)
    requires bits > 0
  {
    exists j: nat :: j < k && Probe(h, j, bits) == p
  }

  lemma HitByOneMore(hash: Key -> Hash32, keys: seq<Key>, i: nat, k: nat, bits: nat, p: nat)
    requires i < |keys| && bits > 0
    ensures IsHit(hash, keys[..i + 1], k, bits, p) <==>
            IsHit(hash, keys[..i], k, bits, p) || Probes(hash(keys[i]), k, bits, p)
  {
    hide Probes;
    assert forall j: nat :: j < i ==> keys[..i + 1][j] == keys[..i][j];
    assert keys[..i + 1][i] == keys[i];
  }

  /** A filter: the bit array and a last byte that holds the number of probes. */
  ghost predicate MayMatch(hash: Key -> Hash32, key: Key, filter: seq<Byte>) {
    |filter| >= 2 &&
    var k := FromByte(filter[|filter| - 1]);
    k > 30 || AllSet(hash(key), k, filter[..|filter| - 1])
  }

  ghost predicate AllSet(h: Hash32, k: nat, cells: seq<Byte>)
    requires cells != []
  {
    forall j: nat :: j < k ==> ProbeIsSet(h, j, cells)
  }

  ghost predicate ProbeIsSet(h: Hash32, j: nat, cells: seq<Byte>)
    requires cells != []
  {
    HasBit(cells, Probe(h, j, 8 * |cells|))
  }

  /** How many probes a key gets: 0.69 for each of its bits, rounded down. */
  function NumProbes(bitsPerKey: nat): (k: nat)
    ensures 1 <= k <= 30
  {
    var k := bitsPerKey * 69 / 100;
    if k < 1 then 1 else if k > 30 then 30 else k
  }

  /** The exact meaning of a filter made for `keys`: a position is set if and only if one of them probes it. */
  ghost predicate IsFilterOf(hash: Key -> Hash32, keys: seq<Key>, k: nat, filter: seq<Byte>) {
    && |filter| >= 9 && FromByte(filter[|filter| - 1]) == k
    && SetsHits(hash, keys, k, filter[..|filter| - 1])
  }

  ghost predicate SetsHits(hash: Key -> Hash32, keys: seq<Key>, k: nat, cells: seq<Byte>)
    requires cells != []
  {
    forall p: nat :: p < 8 * |cells| ==> (HasBit(cells, p) <==> IsHit(hash, keys, k, 8 * |cells|, p))
  }

  method CreateFilter(hash: Key -> Hash32, keys: seq<Key>, bitsPerKey: nat) returns (filter: seq<Byte>)
    ensures IsFilterOf(hash, keys, NumProbes(bitsPerKey), filter)
    ensures 8 * (|filter| - 1) >= |keys| * bitsPerKey && 8 * (|filter| - 1) >= 64
  {
    hide HasBit, IsHit, Probes, ToByte, FromByte;
    var k := NumProbes(bitsPerKey);
    var bits := |keys| * bitsPerKey;
    if bits < 64 {
      bits := 64;
    }
    var bytes := (bits + 7) / 8;
    bits := bytes * 8;
    var cells: seq<Byte> := seq(bytes, _ => 0);
    NothingSet(hash, k, cells);
    assert keys[..0] == [];
    for i := 0 to |keys|
      invariant |cells| == bytes
      invariant forall p: nat :: p < bits ==> (HasBit(cells, p) <==> IsHit(hash, keys[..i], k, bits, p))
    {
      var next := AddKey(hash(keys[i]), k, cells);
      forall p: nat | p < bits
        ensures HasBit(next, p) <==> IsHit(hash, keys[..i + 1], k, bits, p)
      {
        HitByOneMore(hash, keys, i, k, bits, p);
      }
      cells := next;
    }
    assert keys[..|keys|] == keys;
    ByteRoundTrip(k);
    filter := cells + [ToByte(k)];
    assert filter[..|filter| - 1] == cells;
  }

  lemma NothingSet(hash: Key -> Hash32, k: nat, cells: seq<Byte>)
    requires cells != [] && forall i :: 0 <= i < |cells| ==> cells[i] == 0
    ensures forall p: nat :: p < 8 * |cells| ==> !HasBit(cells, p) && !IsHit(hash, [], k, 8 * |cells|, p)
  {
    hide Bit;
  }

  /** Set the bits of one key. */
  method AddKey(h0: Hash32, k: nat, cells: seq<Byte>) returns (r: seq<Byte>)
    requires cells != []
    ensures |r| == |cells|
    ensures forall p: nat :: p < 8 * |cells| ==> (HasBit(r, p) <==> HasBit(cells, p) || Probes(h0, k, 8 * |cells|, p))
  {
    hide HasBit, SetBit, Position, Plus, Delta;
    var bits := 8 * |cells|;
    r := cells;
    var h := h0;
    var delta := Delta(h);
    for j := 0 to k
      invariant |r| == |cells| && h == HashAt(h0, j)
      invariant forall p: nat :: p < bits ==> (HasBit(r, p) <==> HasBit(cells, p) || Probes(h0, j, bits, p))
    {
      var bitpos := Position(h, bits);
      forall p: nat | p < bits
        ensures HasBit(SetBit(r, bitpos), p) <==> HasBit(cells, p) || Probes(h0, j + 1, bits, p)
      {
        SetBitSetsIt(r, bitpos, p);
        OneMoreProbe(h0, j, bits, p);
      }
      r := SetBit(r, bitpos);
      h := Plus(h, delta);
    }
  }

  lemma OneMoreProbe(h: Hash32, j: nat, bits: nat, p: nat)
    requires bits > 0
    ensures Probes(h, j + 1, bits, p) <==> Probes(h, j, bits, p) || Probe(h, j, bits) == p
  {
    hide Probe;
  }

  method KeyMayMatch(hash: Key -> Hash32, key: Key, filter: seq<Byte>) returns (r: bool)
    ensures r <==> MayMatch(hash, key, filter)
  {
    hide HasBit, Position, Plus, Delta, FromByte;
    var len := |filter|;
    if len < 2 {
      return false;
    }
    var cells := filter[..len - 1];
    var bits := (len - 1) * 8;
    var k := FromByte(filter[len - 1]);
    if k > 30 {
      return true;
    }
    var h := hash(key);
    var delta := Delta(h);
    for j := 0 to k
      invariant h == HashAt(hash(key), j)
      invariant forall i: nat :: i < j ==> ProbeIsSet(hash(key), i, cells)
    {
      var bitpos := Position(h, bits);
      if !HasBit(cells, bitpos) {
        assert !ProbeIsSet(hash(key), j, cells);
        return false;
      }
      assert ProbeIsSet(hash(key), j, cells);
      h := Plus(h, delta);
    }
    r := true;
  }

  /** No false negatives. */
  lemma EveryKeyMatches(hash: Key -> Hash32, keys: seq<Key>, k: nat, filter: seq<Byte>, i: nat)
    requires IsFilterOf(hash, keys, k, filter) && i < |keys|
    ensures MayMatch(hash, keys[i], filter)
  {
    hide HasBit, Probe, FromByte;
    var cells := filter[..|filter| - 1];
    forall j: nat | j < k
      ensures ProbeIsSet(hash(keys[i]), j, cells)
    {
      var p := Probe(hash(keys[i]), j, 8 * |cells|);
      assert Probes(hash(keys[i]), k, 8 * |cells|, p);
      assert IsHit(hash, keys, k, 8 * |cells|, p);
    }
  }
}
