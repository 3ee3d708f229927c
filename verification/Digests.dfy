/** Byte strings, `memcmp` and the difficulty test of the miner (a12 blockchain.c). */
module Digests {

  import Bytes

  const DIGEST_LENGTH: nat := 32

  type Digest = d: seq<Bytes.Byte> | |d| == DIGEST_LENGTH witness seq(DIGEST_LENGTH, i => 0)

  const ZERO_DIGEST: Digest := Fill(0)
  const MAX_DIGEST: Digest := Fill(255)

  /** `memset` of a whole digest. */
  function Fill(b: Bytes.Byte): Digest {
    seq(DIGEST_LENGTH, i => b)
  }

  /** The sign of C's `memcmp` on two buffers of the same length. */
  function Memcmp(a: seq<Bytes.Byte>, b: seq<Bytes.Byte>): int
    requires |a| == |b|
  {
    if a == [] then 0
    else if a[0] != b[0] then a[0] - b[0]
    else Memcmp(a[1..], b[1..])
  }

  predicate MeetsDifficulty(hash: Digest, difficulty: Digest) {
    Memcmp(hash, difficulty) <= 0
  }

  function Pow256(n: nat): nat {
    if n == 0 then 1 else 256 * Pow256(n - 1)
  }

  /** The number that a byte string denotes, most significant byte first. */
  function BigEndian(a: seq<Bytes.Byte>): nat {
    if a == [] then 0 else a[0] * Pow256(|a| - 1) + BigEndian(a[1..])
  }

  lemma {:induction false} BigEndianBound(a: seq<Bytes.Byte>)
    ensures BigEndian(a) < Pow256(|a|)
  {
    if a != [] {
      BigEndianBound(a[1..]);
      LeadingByteDominates(a[0], 256, Pow256(|a| - 1));
    }
  }

  lemma LeadingByteDominates(x: int, y: int, p: nat)
    requires x < y
    ensures x * p + p <= y * p
  {
    assert (y - x - 1) * p >= 0;
  }

  /** The byte-wise comparison orders buffers exactly as the numbers they denote. */
  lemma {:induction false} MemcmpIsNumericOrder(a: seq<Bytes.Byte>, b: seq<Bytes.Byte>)
    requires |a| == |b|
    ensures Memcmp(a, b) < 0 <==> BigEndian(a) < BigEndian(b)
    ensures Memcmp(a, b) == 0 <==> a == b
    ensures Memcmp(a, b) == 0 <==> BigEndian(a) == BigEndian(b)
  {
    if a != [] {
      var p := Pow256(|a| - 1);
      BigEndianBound(a[1..]);
      BigEndianBound(b[1..]);
      if a[0] < b[0] {
        LeadingByteDominates(a[0], b[0], p);
      } else if b[0] < a[0] {
        LeadingByteDominates(b[0], a[0], p);
      } else {
        MemcmpIsNumericOrder(a[1..], b[1..]);
        assert a == [a[0]] + a[1..];
        assert b == [b[0]] + b[1..];
      }
    }
  }

  /** A hash meets the difficulty exactly when, as a number, it is at most the target. */
  lemma DifficultyIsNumeric(hash: Digest, difficulty: Digest)
    ensures MeetsDifficulty(hash, difficulty) <==> BigEndian(hash) <= BigEndian(difficulty)
  {
    MemcmpIsNumericOrder(hash, difficulty);
  }

  lemma {:induction false} AllOnesIsLargest(a: seq<Bytes.Byte>, b: seq<Bytes.Byte>)
    requires |a| == |b|
    requires forall i :: 0 <= i < |b| ==> b[i] == 255
    ensures Memcmp(a, b) <= 0
  {
    if a != [] {
      AllOnesIsLargest(a[1..], b[1..]);
    }
  }

  /** The target that `bc_init` installs for a null argument accepts every hash. */
  lemma NoDifficultyAcceptsAll(hash: Digest)
    ensures MeetsDifficulty(hash, MAX_DIGEST)
  {
    AllOnesIsLargest(hash, MAX_DIGEST);
  }
}
