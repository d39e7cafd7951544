/**
 * Partition routing by hash (pkg/hashing/fnv.go): the 64-bit FNV-1a hash of
 * the string's UTF-8 bytes, reduced modulo the number of partitions.
 */
module Fnv {
  import opened Strings

  /** The 64-bit FNV offset basis. */
  const OffsetBasis: bv64 := 14695981039346656037

  /** The 64-bit FNV prime. */
  const Prime: bv64 := 1099511628211

  /** One FNV-1a round: xor the byte in, then multiply by the prime modulo 2^64. */
  function Round(h: bv64, b: byte): bv64
  {
    (h ^ (b as bv64)) * Prime
  }

  /** The hash state after feeding `bytes`, first to last, into state `h`. */
  function HashFrom(h: bv64, bytes: seq<byte>): bv64
    decreases |bytes|
  {
    if |bytes| == 0 then h else HashFrom(Round(h, bytes[0]), bytes[1..])
  }

  /** `fnv.New64a()` followed by `Write(bytes)` and `Sum64()`. */
  function Sum64(bytes: seq<byte>): bv64
  {
    HashFrom(OffsetBasis, bytes)
  }

  /** Feeding the bytes in two writes gives the same state as one write. */
  lemma {:induction false} HashFromAppend(h: bv64, a: seq<byte>, b: seq<byte>)
    ensures HashFrom(h, a + b) == HashFrom(HashFrom(h, a), b)
    decreases |a|
  {
    if |a| == 0 {
      assert a + b == b;
    } else {
      assert (a + b)[1..] == a[1..] + b;
      HashFromAppend(Round(h, a[0]), a[1..], b);
    }
  }

  /** The hash is a left fold: appending a byte applies one more round to the previous hash. */
  lemma HashSnoc(bytes: seq<byte>, b: byte)
    ensures Sum64(bytes + [b]) == Round(Sum64(bytes), b)
  {
    HashFromAppend(OffsetBasis, bytes, [b]);
  }

  /** The hash of a concatenation resumes from the hash of the first part. */
  lemma HashOfConcat(s: string, t: string)
    ensures Sum64(Utf8(s + t)) == HashFrom(Sum64(Utf8(s)), Utf8(t))
  {
    Utf8Append(s, t);
    HashFromAppend(OffsetBasis, Utf8(s), Utf8(t));
  }

  const TwoTo63: int := 0x8000_0000_0000_0000
  const TwoTo64: int := 0x1_0000_0000_0000_0000

  /**
   * `HashToRange(s, N)`: the hash modulo N, converted to Go's signed int. A
   * zero N is a division by zero, which panics in Go, so callers must pass
   * N > 0. For every N up to 2^63 the result lies in [0, N), strictly below N
   * although the comment on the function speaks of [0, N].
   */
  function HashToRange(s: string, n: nat): (r: int)
    requires 0 < n < TwoTo64
    ensures n <= TwoTo63 ==> 0 <= r < n
  {
    var x := (Sum64(Utf8(s)) as int) % n;
    if x < TwoTo63 then x else x - TwoTo64
  }

  /** With a single partition every key goes to partition 0. */
  lemma SinglePartition(s: string)
    ensures HashToRange(s, 1) == 0
  {
  }

  /** The hash of the empty input is the offset basis; that of "a" is the published test value. */
  lemma KnownVectors()
    ensures Sum64([]) == 0xcbf29ce484222325
    ensures Sum64(Utf8("a")) == 0xaf63dc4c8601ec8c
  {
    assert Utf8("a") == [97];
    assert Sum64([97]) == Round(OffsetBasis, 97);
  }
}
