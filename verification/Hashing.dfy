/** SHA-256 as a parameter: any function from byte strings to digests, or from texts to hexadecimal digests. */
module Hashing {
  const HASH_SIZE: nat := 32

  type byte = bv8
  type Digest = d: seq<byte> | |d| == HASH_SIZE witness seq(HASH_SIZE, _ => 0)
  type HashFunction = seq<byte> -> Digest

  const ZERO_DIGEST: Digest := seq(HASH_SIZE, _ => 0)

  const HEX_SIZE: nat := 64

  type Hex = s: string | |s| == HEX_SIZE witness seq(HEX_SIZE, _ => '0')
  /** SHA-256 of a text, printed in hexadecimal. */
  type HexHash = string -> Hex

  /**
   * No two of the given inputs collide. A function into 32 bytes cannot be injective on all
   * inputs, so every theorem names the finite set of inputs it really hashes.
   */
  ghost predicate CollisionFree<X, Y>(h: X -> Y, inputs: set<X>) {
    forall x, y :: x in inputs && y in inputs && h(x) == h(y) ==> x == y
  }

  /** The bytes of two digests, one after the other. */
  function Concat(a: seq<byte>, b: seq<byte>): seq<byte> {
    a + b
  }

  lemma ConcatInjective(a: Digest, b: Digest, c: Digest, d: Digest)
    requires Concat(a, b) == Concat(c, d)
    ensures a == c && b == d
  {
    assert a == Concat(a, b)[..HASH_SIZE] && c == Concat(c, d)[..HASH_SIZE];
    assert b == Concat(a, b)[HASH_SIZE..] && d == Concat(c, d)[HASH_SIZE..];
  }
}
