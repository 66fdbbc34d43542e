/**
 * What the three loops of the Merkle tree compute, as functions over digests: one level up,
 * the root, the siblings of a leaf, and the fold a verifier performs.
 */
module MerkleTree {
  import opened Hashing

  /** The 64 bytes hashed for the j-th pair of a level. */
  function PairInput(level: seq<Digest>, j: nat): seq<byte>
    requires 2 * j + 1 < |level|
  {
    Concat(level[2 * j], level[2 * j + 1])
  }

  /** The j-th node of the level above; an odd last node moves up unchanged. */
  function Above(h: HashFunction, level: seq<Digest>, j: nat): Digest
    requires 2 * j < |level|
  {
    if 2 * j + 1 < |level| then h(PairInput(level, j)) else level[2 * j]
  }

  function Next(h: HashFunction, level: seq<Digest>): seq<Digest> {
    seq((|level| + 1) / 2, j requires 0 <= j < (|level| + 1) / 2 => Above(h, level, j))
  }

  function RootOf(h: HashFunction, level: seq<Digest>): Digest
    requires |level| >= 1
    decreases |level|
  {
    if |level| == 1 then level[0] else RootOf(h, Next(h, level))
  }

  function Partner(i: nat): nat {
    if i % 2 == 0 then i + 1 else i - 1
  }

  /** Node i of a level of n nodes has no partner and moves up unpaired. */
  predicate Promoted(n: nat, i: nat) {
    n > 1 && i % 2 == 0 && i + 1 == n
  }

  /** The siblings on the way from node i to the root; a promoted node contributes none. */
  function Siblings(h: HashFunction, level: seq<Digest>, i: nat): seq<Digest>
    requires i < |level|
    decreases |level|
  {
    if |level| == 1 then []
    else
      (if Promoted(|level|, i) then [] else [level[Partner(i)]]) + Siblings(h, Next(h, level), i / 2)
  }

  datatype MerkleProof = MerkleProof(leafHash: Digest, siblings: seq<Digest>, leafIndex: nat)

  function ProofFor(h: HashFunction, leaves: seq<Digest>, i: nat): MerkleProof
    requires i < |leaves|
  {
    MerkleProof(leaves[i], Siblings(h, leaves, i), i)
  }

  /** The verifier's hash input: the parity of its index v says which side the current hash is on. */
  function Join(v: nat, current: Digest, sibling: Digest): seq<byte> {
    if v % 2 == 0 then Concat(current, sibling) else Concat(sibling, current)
  }

  function Fold(h: HashFunction, current: Digest, v: nat, siblings: seq<Digest>): Digest
    decreases |siblings|
  {
    if siblings == [] then current
    else Fold(h, h(Join(v, current, siblings[0])), v / 2, siblings[1..])
  }

  predicate Accepts(h: HashFunction, p: MerkleProof, root: Digest) {
    Fold(h, p.leafHash, p.leafIndex, p.siblings) == root
  }

  // ----- The inputs hashed on each side -----

  ghost predicate LevelWithin(level: seq<Digest>, inputs: set<seq<byte>>) {
    forall j: nat :: 2 * j + 1 < |level| ==> PairInput(level, j) in inputs
  }

  /** Everything hashed while building the tree is among the inputs. */
  ghost predicate TreeWithin(h: HashFunction, level: seq<Digest>, inputs: set<seq<byte>>)
    decreases |level|
  {
    |level| > 1 ==> LevelWithin(level, inputs) && TreeWithin(h, Next(h, level), inputs)
  }

  /** Everything hashed while checking a proof is among the inputs. */
  ghost predicate FoldWithin(h: HashFunction, current: Digest, v: nat, siblings: seq<Digest>, inputs: set<seq<byte>>)
    decreases |siblings|
  {
    siblings != [] ==>
      var x := Join(v, current, siblings[0]);
      x in inputs && FoldWithin(h, h(x), v / 2, siblings[1..], inputs)
  }

  // ----- Sizes -----

  predicate IsPowerOfTwo(n: nat) {
    n == 1 || (n > 1 && n % 2 == 0 && IsPowerOfTwo(n / 2))
  }

  /** The number of levels above the leaves. */
  function Depth(n: nat): nat {
    if n <= 1 then 0 else 1 + Depth((n + 1) / 2)
  }

  function Pow2(k: nat): (p: nat)
    ensures p >= 1
  {
    if k == 0 then 1 else 2 * Pow2(k - 1)
  }
}
