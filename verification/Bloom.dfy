/** The 2048-bit bloom filter of a block header: adding data sets three bits, and a lookup tests them. */
module Bloom {
  import opened Words

  type Digest = s: seq<Byte> | |s| == 32 witness seq(32, _ => 0)
  type Bytes = seq<bv8>

  /** Two bytes of the digest, the low one first. Only indices below 2048 fall inside the filter. */
  function BitIndex(hash: Digest, i: nat): nat
    requires i < 3
  {
    (hash[2 * i] as int) + 256 * (hash[2 * i + 1] as int)
  }

  function Mask(index: nat): bv8 {
    (1 as bv8) << (index % 8)
  }

  predicate BitSet(bloom: Bytes, index: nat) {
    index / 8 < |bloom| ==> bloom[index / 8] & Mask(index) != 0
  }

  function WithBit(bloom: Bytes, index: nat): Bytes {
    if index / 8 < |bloom| then bloom[index / 8 := bloom[index / 8] | Mask(index)] else bloom
  }

  function WithHash(bloom: Bytes, hash: Digest): Bytes {
    WithBit(WithBit(WithBit(bloom, BitIndex(hash, 0)), BitIndex(hash, 1)), BitIndex(hash, 2))
  }

  /** An index beyond the filter counts as set. */
  predicate ContainsHash(bloom: Bytes, hash: Digest) {
    BitSet(bloom, BitIndex(hash, 0)) && BitSet(bloom, BitIndex(hash, 1)) && BitSet(bloom, BitIndex(hash, 2))
  }

  method AddToBloom(bloom: array<bv8>, hash: Digest)
    modifies bloom
    ensures bloom[..] == WithHash(old(bloom[..]), hash)
  {
    ghost var before := bloom[..];
    ghost var steps := [before];
    for i := 0 to 3
      invariant |steps| == i + 1 && steps[0] == before && steps[i] == bloom[..]
      invariant forall k :: 0 <= k < i ==> steps[k + 1] == WithBit(steps[k], BitIndex(hash, k))
    {
      var index := BitIndex(hash, i);
      if index / 8 < bloom.Length {
        bloom[index / 8] := bloom[index / 8] | Mask(index);
      }
      assert bloom[..] == WithBit(steps[i], index);
      steps := steps + [bloom[..]];
    }
    assert steps[0 + 1] == WithBit(steps[0], BitIndex(hash, 0));
    assert steps[1 + 1] == WithBit(steps[1], BitIndex(hash, 1));
    assert steps[2 + 1] == WithBit(steps[2], BitIndex(hash, 2));
  }

  method LookUp(bloom: array<bv8>, hash: Digest) returns (r: bool)
    ensures r == ContainsHash(bloom[..], hash)
  {
    for i := 0 to 3
      invariant forall k :: 0 <= k < i ==> BitSet(bloom[..], BitIndex(hash, k))
    {
      var index := BitIndex(hash, i);
      if index / 8 < bloom.Length && bloom[index / 8] & Mask(index) == 0 { return false; }
    }
    return true;
  }

  /** The index is a 16-bit number, low byte first, from bytes 0 and 1, 2 and 3, or 4 and 5 of the digest. */
  lemma IndexBytes(hash: Digest, i: nat)
    requires i < 3
    ensures BitIndex(hash, i) % 256 == hash[2 * i] && BitIndex(hash, i) / 256 == hash[2 * i + 1]
  {
  }

  /** The mask of an index has one bit, worth 2 to the index modulo 8. */
  lemma MaskValue(index: nat)
    ensures Mask(index) as int == Pow2(index % 8)
  {
    var k := index % 8;
    assert Pow2(1) == 2 && Pow2(2) == 4 && Pow2(3) == 8;
    assert Pow2(4) == 16 && Pow2(5) == 32;
    assert Pow2(6) == 64 && Pow2(7) == 128;
    assert k == 0 || k == 1 || k == 2 || k == 3 || k == 4 || k == 5 || k == 6 || k == 7;
  }

  // ----- no false negatives -----

  lemma MaskNonZero(index: nat)
    ensures Mask(index) != 0
  {
    var k := index % 8;
    assert k == 0 || k == 1 || k == 2 || k == 3 || k == 4 || k == 5 || k == 6 || k == 7;
  }

  lemma OrKeeps(b: bv8, m: bv8, m': bv8)
    ensures (b | m) & m == m
    ensures b & m' != 0 ==> (b | m) & m' != 0
  {
  }

  lemma WithBitSets(bloom: Bytes, index: nat, other: nat)
    ensures |WithBit(bloom, index)| == |bloom|
    ensures BitSet(WithBit(bloom, index), index)
    ensures BitSet(bloom, other) ==> BitSet(WithBit(bloom, index), other)
  {
    MaskNonZero(index);
    if index / 8 < |bloom| {
      OrKeeps(bloom[index / 8], Mask(index), Mask(other));
    }
  }

  /** What was added is found, and what was found before still is. */
  lemma AddingIsMonotone(bloom: Bytes, hash: Digest, other: Digest)
    ensures ContainsHash(WithHash(bloom, hash), hash)
    ensures ContainsHash(bloom, other) ==> ContainsHash(WithHash(bloom, hash), other)
  {
    var i0, i1, i2 := BitIndex(hash, 0), BitIndex(hash, 1), BitIndex(hash, 2);
    var b0 := WithBit(bloom, i0);
    var b1 := WithBit(b0, i1);
    WithBitSets(bloom, i0, i0);
    WithBitSets(b0, i1, i0);
    WithBitSets(b1, i2, i0);
    WithBitSets(b1, i2, i1);
    forall k | 0 <= k < 3
      ensures BitSet(bloom, BitIndex(other, k)) ==> BitSet(WithHash(bloom, hash), BitIndex(other, k))
    {
      WithBitSets(bloom, i0, BitIndex(other, k));
      WithBitSets(b0, i1, BitIndex(other, k));
      WithBitSets(b1, i2, BitIndex(other, k));
    }
  }

  /** The filter after adding every digest in turn. */
  function AddAll(bloom: Bytes, hashes: seq<Digest>): Bytes {
    if hashes == [] then bloom else WithHash(AddAll(bloom, hashes[..|hashes| - 1]), hashes[|hashes| - 1])
  }

  /** A filter never denies what was added to it. */
  lemma {:induction false} NoFalseNegatives(bloom: Bytes, hashes: seq<Digest>, hash: Digest)
    requires hash in hashes
    ensures ContainsHash(AddAll(bloom, hashes), hash)
  {
    hide ContainsHash, WithHash;
    var n := |hashes| - 1;
    AddingIsMonotone(AddAll(bloom, hashes[..n]), hashes[n], hash);
    if hash != hashes[n] {
      NoFalseNegatives(bloom, hashes[..n], hash);
    }
  }

  // ----- looking topics up -----

  const FILTER_BYTES: nat := 256

  function EmptyFilter(): (r: Bytes)
    ensures |r| == FILTER_BYTES && forall i :: 0 <= i < FILTER_BYTES ==> r[i] == 0
  {
    seq(FILTER_BYTES, _ => 0)
  }

  lemma MasksDisjoint(i: nat, j: nat)
    requires i % 8 != j % 8
    ensures Mask(i) & Mask(j) == 0
  {
    var k, l := i % 8, j % 8;
    assert k == 0 || k == 1 || k == 2 || k == 3 || k == 4 || k == 5 || k == 6 || k == 7;
    assert l == 0 || l == 1 || l == 2 || l == 3 || l == 4 || l == 5 || l == 6 || l == 7;
  }

  lemma OrTests(b: bv8, m: bv8, m': bv8)
    requires m & m' == 0
    ensures (b | m) & m' == b & m'
  {
  }

  /** Adding a bit sets that bit and no other. */
  lemma WithBitExact(bloom: Bytes, index: nat, other: nat)
    ensures BitSet(WithBit(bloom, index), other) <==> BitSet(bloom, other) || index == other
  {
    WithBitSets(bloom, index, other);
    if index / 8 < |bloom| && index / 8 == other / 8 && index != other {
      MasksDisjoint(index, other);
      OrTests(bloom[index / 8], Mask(index), Mask(other));
    }
  }

  /** The bit of index `i` is beyond the filter or one of the digest's. */
  predicate BitOf(hash: Digest, i: nat) {
    i / 8 >= FILTER_BYTES || i == BitIndex(hash, 0) || i == BitIndex(hash, 1) || i == BitIndex(hash, 2)
  }

  lemma WithHashExact(bloom: Bytes, hash: Digest, i: nat)
    requires |bloom| == FILTER_BYTES
    ensures BitSet(WithHash(bloom, hash), i) <==> BitSet(bloom, i) || BitOf(hash, i)
  {
    hide BitSet, WithBit;
    var b0 := WithBit(bloom, BitIndex(hash, 0));
    var b1 := WithBit(b0, BitIndex(hash, 1));
    WithBitExact(bloom, BitIndex(hash, 0), i);
    WithBitExact(b0, BitIndex(hash, 1), i);
    WithBitExact(b1, BitIndex(hash, 2), i);
    if i / 8 >= FILTER_BYTES { BeyondIsSet(bloom, i); }
  }

  lemma BeyondIsSet(bloom: Bytes, i: nat)
    requires |bloom| == FILTER_BYTES && i / 8 >= FILTER_BYTES
    ensures BitSet(bloom, i)
  {
  }

  /**
   A topic is added by its digest and looked up by its own bytes: it is found in every filter it was added to
   exactly when its bits within the filter are among the digest's.
   */
  lemma TopicFound(topic: Digest, hash: Digest)
    ensures (forall bloom: Bytes :: |bloom| == FILTER_BYTES ==> ContainsHash(WithHash(bloom, hash), topic))
            <==> BitOf(hash, BitIndex(topic, 0)) && BitOf(hash, BitIndex(topic, 1)) && BitOf(hash, BitIndex(topic, 2))
  {
    hide BitIndex, WithHash, BitSet, BitOf;
    forall bloom: Bytes, k | |bloom| == FILTER_BYTES && 0 <= k < 3
      ensures BitSet(WithHash(bloom, hash), BitIndex(topic, k)) <==> BitSet(bloom, BitIndex(topic, k)) || BitOf(hash, BitIndex(topic, k))
    {
      WithHashExact(bloom, hash, BitIndex(topic, k));
    }
    forall k | 0 <= k < 3
      ensures BitSet(EmptyFilter(), BitIndex(topic, k)) ==> BitOf(hash, BitIndex(topic, k))
    {
      EmptyIsUnset(hash, BitIndex(topic, k));
    }
    assert ContainsHash(WithHash(EmptyFilter(), hash), topic) ==>
             BitOf(hash, BitIndex(topic, 0)) && BitOf(hash, BitIndex(topic, 1)) && BitOf(hash, BitIndex(topic, 2));
  }

  lemma EmptyIsUnset(hash: Digest, i: nat)
    ensures BitSet(EmptyFilter(), i) ==> BitOf(hash, i)
  {
  }

  /** A topic of ones whose digest is all zeros: added to the empty filter and not found. */
  lemma TopicDenied()
    ensures var topic: Digest, hash: Digest := seq(32, _ => 1), seq(32, _ => 0);
            !ContainsHash(WithHash(EmptyFilter(), hash), topic)
  {
    var topic: Digest, hash: Digest := seq(32, _ => 1), seq(32, _ => 0);
    assert BitIndex(topic, 0) == 257 && BitIndex(hash, 0) == BitIndex(hash, 1) == BitIndex(hash, 2) == 0;
    WithHashExact(EmptyFilter(), hash, 257);
    MaskNonZero(257);
  }

  lemma {:induction false} AddAllLength(bloom: Bytes, hashes: seq<Digest>)
    ensures |AddAll(bloom, hashes)| == |bloom|
  {
    if hashes != [] { AddAllLength(bloom, hashes[..|hashes| - 1]); }
  }
}
