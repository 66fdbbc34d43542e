/** The tree builder and the proof check, with the loops of the program. */
module MerkleBuilder {
  import opened Common
  import opened Hashing
  import opened MerkleTree
  import opened MerkleRoot
  import opened MerkleProofs

  datatype MerkleNode = MerkleNode(
    hash: Digest, leftChild: Digest, rightChild: Digest, hasLeft: bool, hasRight: bool)

  function CreateLeaf(h: HashFunction, data: seq<byte>): MerkleNode {
    MerkleNode(h(data), ZERO_DIGEST, ZERO_DIGEST, false, false)
  }

  function CreateInternal(h: HashFunction, left: Digest, right: Digest): MerkleNode {
    MerkleNode(h(Concat(left, right)), left, right, true, true)
  }

  // ----- The levels as nodes -----

  function NodeAbove(h: HashFunction, level: seq<MerkleNode>, j: nat): MerkleNode
    requires 2 * j < |level|
  {
    if 2 * j + 1 < |level| then CreateInternal(h, level[2 * j].hash, level[2 * j + 1].hash) else level[2 * j]
  }

  function NextNodes(h: HashFunction, level: seq<MerkleNode>): seq<MerkleNode> {
    seq((|level| + 1) / 2, j requires 0 <= j < (|level| + 1) / 2 => NodeAbove(h, level, j))
  }

  /** All levels, leaves first, one after the other, down to the root. */
  function AllNodes(h: HashFunction, level: seq<MerkleNode>): seq<MerkleNode>
    decreases |level|
  {
    if |level| <= 1 then level else level + AllNodes(h, NextNodes(h, level))
  }

  function Hashes(level: seq<MerkleNode>): (hashes: seq<Digest>)
    ensures |hashes| == |level| && forall i :: 0 <= i < |level| ==> hashes[i] == level[i].hash
  {
    seq(|level|, i requires 0 <= i < |level| => level[i].hash)
  }

  lemma HashesOfNext(h: HashFunction, level: seq<MerkleNode>)
    ensures Hashes(NextNodes(h, level)) == Next(h, Hashes(level))
  {
    forall j: nat | 2 * j < |level| ensures NodeAbove(h, level, j).hash == Above(h, Hashes(level), j) {}
  }

  /** The node list ends in the root. */
  lemma {:induction false} AllNodesEndInRoot(h: HashFunction, level: seq<MerkleNode>)
    requires |level| >= 1
    ensures var all := AllNodes(h, level); all != [] && all[|all| - 1].hash == RootOf(h, Hashes(level))
    decreases |level|
  {
    if |level| > 1 {
      HashesOfNext(h, level);
      AllNodesEndInRoot(h, NextNodes(h, level));
    }
  }

  /** A node with children carries the hash of exactly those children. */
  predicate HashesItsChildren(h: HashFunction, x: MerkleNode) {
    x.hasLeft == x.hasRight && (x.hasLeft ==> x.hash == h(x.leftChild + x.rightChild))
  }

  lemma {:induction false} AllNodesHashTheirChildren(h: HashFunction, level: seq<MerkleNode>)
    requires forall x :: x in level ==> HashesItsChildren(h, x)
    ensures forall x :: x in AllNodes(h, level) ==> HashesItsChildren(h, x)
    decreases |level|
  {
    if |level| > 1 {
      var next := NextNodes(h, level);
      forall j: nat | j < |next| ensures HashesItsChildren(h, next[j]) {
        assert level[2 * j] in level;
      }
      AllNodesHashTheirChildren(h, next);
    }
  }

  /** The length of all levels: the sum of ceil(n / 2^k). */
  function LayoutSize(n: nat): nat {
    if n <= 1 then n else n + LayoutSize((n + 1) / 2)
  }

  lemma {:induction false} AllNodesLength(h: HashFunction, level: seq<MerkleNode>)
    ensures |AllNodes(h, level)| == LayoutSize(|level|)
    decreases |level|
  {
    if |level| > 1 {
      AllNodesLength(h, NextNodes(h, level));
    }
  }

  /** Node i's siblings looked up in the node list: each level starts where the one below it ends. */
  function ReadSiblings(nodes: seq<MerkleNode>, n: nat, i: nat): seq<Digest>
    requires i < n && LayoutSize(n) <= |nodes|
    decreases n
  {
    if n == 1 then []
    else
      (if Promoted(n, i) then [] else [nodes[Partner(i)].hash]) + ReadSiblings(nodes[n..], (n + 1) / 2, i / 2)
  }

  /** Every sibling of a proof is the partner's entry at its level's offset in the node list. */
  lemma {:induction false} SiblingsAreInLayout(h: HashFunction, level: seq<MerkleNode>, i: nat)
    requires i < |level|
    ensures LayoutSize(|level|) <= |AllNodes(h, level)|
    ensures ReadSiblings(AllNodes(h, level), |level|, i) == Siblings(h, Hashes(level), i)
    decreases |level|
  {
    AllNodesLength(h, level);
    if |level| > 1 {
      SiblingsAreInLayout(h, NextNodes(h, level), i / 2);
      AllNodesLength(h, NextNodes(h, level));
      SiblingsUnfold(h, level, i);
      ReadUnfold(h, level, i);
    }
  }

  lemma ReadUnfold(h: HashFunction, level: seq<MerkleNode>, i: nat)
    requires i < |level| && |level| > 1
    requires LayoutSize(|level|) == |AllNodes(h, level)|
    requires LayoutSize(|NextNodes(h, level)|) == |AllNodes(h, NextNodes(h, level))|
    ensures ReadSiblings(AllNodes(h, level), |level|, i)
            == (if Promoted(|level|, i) then [] else [level[Partner(i)].hash])
               + ReadSiblings(AllNodes(h, NextNodes(h, level)), |NextNodes(h, level)|, i / 2)
  {
    assert AllNodes(h, level)[|level|..] == AllNodes(h, NextNodes(h, level));
  }

  /** What one level contributes to the siblings. */
  lemma SiblingsUnfold(h: HashFunction, level: seq<MerkleNode>, i: nat)
    requires i < |level| && |level| > 1
    ensures Promoted(|level|, i) <==> Partner(i) >= |level|
    ensures Siblings(h, Hashes(level), i)
            == (if Promoted(|level|, i) then [] else [level[Partner(i)].hash])
               + Siblings(h, Hashes(NextNodes(h, level)), i / 2)
  {
    HashesOfNext(h, level);
  }

  /** The number of siblings is at most the depth, and equal to it exactly when nothing is promoted. */
  lemma {:induction false} SiblingCount(h: HashFunction, level: seq<Digest>, i: nat)
    requires i < |level|
    ensures |Siblings(h, level, i)| <= Depth(|level|)
    ensures |Siblings(h, level, i)| == Depth(|level|) <==> NeverPromoted(|level|, i)
    decreases |level|
  {
    if |level| > 1 {
      SiblingCount(h, Next(h, level), i / 2);
    }
  }

  /** The depth is the logarithm of the leaf count to base two, rounded up. */
  lemma {:induction false} DepthIsCeilLog(n: nat)
    requires n >= 1
    ensures n <= Pow2(Depth(n))
    ensures n > 1 ==> Pow2(Depth(n) - 1) < n
  {
    if n > 1 {
      DepthIsCeilLog((n + 1) / 2);
    }
  }

  // ----- The program -----

  /** One level up, two nodes at a time. */
  method NextLevel(h: HashFunction, current: seq<MerkleNode>) returns (next: seq<MerkleNode>, ghost hashed: nat)
    ensures next == NextNodes(h, current)
    ensures |next| == (|current| + 1) / 2
    ensures forall j :: 0 <= j < |current| / 2 ==>
      var left, right := current[2 * j].hash, current[2 * j + 1].hash;
      next[j] == MerkleNode(h(left + right), left, right, true, true)
    ensures |current| % 2 == 1 ==> next[|current| / 2] == current[|current| - 1]
    ensures hashed == |current| / 2
  {
    next, hashed := [], 0;
    var i := 0;
    while i < |current|
      invariant i == 2 * |next| && i <= |current| + 1
      invariant hashed == if i <= |current| then i / 2 else |current| / 2
      invariant forall j :: 0 <= j < |next| ==> next[j] == NodeAbove(h, current, j)
    {
      if i + 1 < |current| {
        next := next + [CreateInternal(h, current[i].hash, current[i + 1].hash)];
        hashed := hashed + 1;
      } else {
        next := next + [current[i]];
      }
      i := i + 2;
    }
  }

  /** Folds the siblings into the leaf hash, on the side the halving index says. */
  method Verify(h: HashFunction, p: MerkleProof, root: Digest) returns (ok: bool)
    ensures ok <==> Accepts(h, p, root)
    ensures p.siblings == [] ==> (ok <==> root == p.leafHash)
    ensures p.siblings != [] ==>
      var s, rest := p.siblings[0], p.siblings[1..];
      var above := h(if p.leafIndex % 2 == 0 then p.leafHash + s else s + p.leafHash);
      && (ok <==> Accepts(h, MerkleProof(above, rest, p.leafIndex / 2), root))
      && (rest == [] ==> (ok <==> root == above))
  {
    AcceptsStep(h, p, root);
    var currentHash, currentIndex := p.leafHash, p.leafIndex;
    for k := 0 to |p.siblings|
      invariant Fold(h, currentHash, currentIndex, p.siblings[k..]) == Fold(h, p.leafHash, p.leafIndex, p.siblings)
    {
      var sibling := p.siblings[k];
      var combined := if currentIndex % 2 == 0 then Concat(currentHash, sibling) else Concat(sibling, currentHash);
      assert p.siblings[k..][1..] == p.siblings[k + 1..];
      currentHash := h(combined);
      currentIndex := currentIndex / 2;
    }
    ok := currentHash == root;
  }

  class MerkleTreeBuilder {
    const sha256: HashFunction
    var leaves: seq<MerkleNode>
    var nodes: seq<MerkleNode>
    ghost var data: seq<seq<byte>>  // what was added, in order

    ghost predicate Valid()
      reads this
    {
      |leaves| == |data| && forall i :: 0 <= i < |leaves| ==> leaves[i] == CreateLeaf(sha256, data[i])
    }

    lemma LeafHashesOfData()
      requires Valid()
      ensures Hashes(leaves) == LeafHashes(sha256, data)
    {}

    constructor (h: HashFunction)
      ensures Valid() && data == [] && sha256 == h && leaves == [] && nodes == []
    {
      sha256, leaves, nodes, data := h, [], [], [];
    }

    method AddLeaf(bytes: seq<byte>)
      requires Valid()
      modifies this
      ensures Valid() && data == old(data) + [bytes] && nodes == old(nodes)
      ensures Hashes(leaves) == old(Hashes(leaves)) + [sha256(bytes)]
      ensures leaves == old(leaves) + [MerkleNode(sha256(bytes), ZERO_DIGEST, ZERO_DIGEST, false, false)]
    {
      leaves := leaves + [CreateLeaf(sha256, bytes)];
      data := data + [bytes];
    }

    /** Fills the node list level by level; n leaves take n - 1 internal hashes. */
    method BuildTree() returns (ghost hashed: nat)
      modifies this`nodes
      ensures nodes == AllNodes(sha256, leaves)
      ensures |leaves| >= 1 ==> hashed == |leaves| - 1
    {
      nodes, hashed := [], 0;
      var currentLevel := leaves;
      while |currentLevel| > 1
        invariant nodes + AllNodes(sha256, currentLevel) == AllNodes(sha256, leaves)
        invariant |leaves| >= 1 ==> |currentLevel| >= 1 && hashed + |currentLevel| == |leaves|
        decreases |currentLevel|
      {
        var nextLevel, made := NextLevel(sha256, currentLevel);
        ConcatAssociative(nodes, currentLevel, AllNodes(sha256, nextLevel));
        nodes := nodes + currentLevel;
        currentLevel := nextLevel;
        hashed := hashed + made;
      }
      if currentLevel != [] {
        nodes := nodes + [currentLevel[0]];
      }
    }

    /** The root: all zero without leaves, the leaf itself for one leaf. */
    method BuildRoot() returns (root: Digest)
      modifies this`nodes
      ensures root == if leaves == [] then ZERO_DIGEST else RootOf(sha256, Hashes(leaves))
      ensures leaves == [] ==> forall i :: 0 <= i < 32 ==> root[i] == 0
      ensures |leaves| == 1 ==> root == leaves[0].hash
      ensures |leaves| >= 2 ==>
        var hashes, k := Hashes(leaves), SplitPoint(|leaves|);
        root == sha256(RootOf(sha256, hashes[..k]) + RootOf(sha256, hashes[k..]))
      ensures nodes == if |leaves| <= 1 then old(nodes) else AllNodes(sha256, leaves)
    {
      if leaves == [] {
        return ZERO_DIGEST;
      }
      if |leaves| == 1 {
        return leaves[0].hash;
      }
      ghost var _ := BuildTree();
      AllNodesEndInRoot(sha256, leaves);
      RootHashesBytes(sha256, Hashes(leaves), SplitPoint(|leaves|));
      return nodes[|nodes| - 1].hash;
    }

    /** None is the program's out-of-range exception. */
    method GenerateProof(leafIndex: nat) returns (proof: Option<MerkleProof>)
      modifies this`nodes
      ensures proof == if leafIndex < |leaves| then Some(ProofFor(sha256, Hashes(leaves), leafIndex)) else None
      ensures nodes == if leafIndex >= |leaves| || |leaves| == 1 then old(nodes) else AllNodes(sha256, leaves)
    {
      if leafIndex >= |leaves| {
        return None;
      }
      if |leaves| == 1 {
        return Some(MerkleProof(leaves[0].hash, [], 0));
      }
      ghost var _ := BuildTree();
      var p := GenerateProofRecursive(leafIndex);
      return Some(p);
    }

    method GenerateProofRecursive(leafIndex: nat) returns (proof: MerkleProof)
      requires leafIndex < |leaves|
      ensures proof == ProofFor(sha256, Hashes(leaves), leafIndex)
    {
      var siblings: seq<Digest> := [];
      var currentLevel := leaves;
      var currentIndex: nat := leafIndex;
      ghost var all := Siblings(sha256, Hashes(leaves), leafIndex);
      while |currentLevel| > 1
        invariant currentIndex < |currentLevel|
        invariant siblings + Siblings(sha256, Hashes(currentLevel), currentIndex) == all
        decreases |currentLevel|
      {
        var siblingIndex := if currentIndex % 2 == 0 then currentIndex + 1 else currentIndex - 1;
        SiblingsUnfold(sha256, currentLevel, currentIndex);
        ghost var here := if siblingIndex < |currentLevel| then [currentLevel[siblingIndex].hash] else [];
        ghost var before := siblings;
        if siblingIndex < |currentLevel| {
          siblings := siblings + [currentLevel[siblingIndex].hash];
        }
        assert siblings == before + here;
        currentIndex := currentIndex / 2;
        var nextLevel, _ := NextLevel(sha256, currentLevel);
        ConcatAssociative(before, here, Siblings(sha256, Hashes(nextLevel), currentIndex));
        currentLevel := nextLevel;
      }
      proof := MerkleProof(leaves[leafIndex].hash, siblings, leafIndex);
    }

    /** Build, prove, verify: exactly the never-promoted prefix of the leaves comes back true. */
    method ProveAndVerify(leafIndex: nat, ghost inputs: set<seq<byte>>) returns (ok: bool)
      requires Valid() && leafIndex < |leaves|
      requires NoLeafLooksInternal(data)
      requires CollisionFree(sha256, inputs) && RoundTripWithin(sha256, data, leafIndex, inputs)
      modifies this`nodes
      ensures ok <==> leafIndex < ProvableLeaves(|leaves|)
    {
      LeafHashesOfData();
      ProofVerifiesIff(sha256, data, leafIndex, inputs);
      var root := BuildRoot();
      var proof := GenerateProof(leafIndex);
      ok := Verify(sha256, proof.value, root);
    }
  }
}
