/** What the root commits to. */
module MerkleRoot {
  import opened Hashing
  import opened MerkleTree

  // ----- The bottom-up loop builds the tree of section 2.1 of RFC 6962 -----

  /** The largest power of two below n. */
  function SplitPoint(n: nat): (k: nat)
    requires n >= 2
    ensures IsPowerOfTwo(k) && k < n <= 2 * k
  {
    if n == 2 then 1 else 2 * SplitPoint((n + 1) / 2)
  }

  /** The property in SplitPoint's contract determines it. */
  lemma {:induction false} SplitPointUnique(n: nat, p: nat, q: nat)
    requires IsPowerOfTwo(p) && p < n <= 2 * p
    requires IsPowerOfTwo(q) && q < n <= 2 * q
    ensures p == q
  {
    if p > 1 && q > 1 {
      SplitPointUnique((n + 1) / 2, p / 2, q / 2);
    }
  }

  /** The recursive tree head over n leaves, split at the largest power of two below n. */
  function TreeHead(h: HashFunction, leaves: seq<Digest>): Digest
    requires |leaves| >= 1
    decreases |leaves|
  {
    if |leaves| == 1 then leaves[0]
    else
      var k := SplitPoint(|leaves|);
      h(Concat(TreeHead(h, leaves[..k]), TreeHead(h, leaves[k..])))
  }

  /** Everything hashed by the recursive tree head is among the inputs. */
  ghost predicate HeadWithin(h: HashFunction, leaves: seq<Digest>, inputs: set<seq<byte>>)
    requires |leaves| >= 1
    decreases |leaves|
  {
    |leaves| > 1 ==>
      var k := SplitPoint(|leaves|);
      && Concat(TreeHead(h, leaves[..k]), TreeHead(h, leaves[k..])) in inputs
      && HeadWithin(h, leaves[..k], inputs) && HeadWithin(h, leaves[k..], inputs)
  }

  lemma NextSplits(h: HashFunction, level: seq<Digest>, k: nat)
    requires 2 * k < |level|
    ensures Next(h, level)[..k] == Next(h, level[..2 * k])
    ensures Next(h, level)[k..] == Next(h, level[2 * k..])
  {
    assert forall j: nat :: j < k ==> Above(h, level, j) == Above(h, level[..2 * k], j);
    assert forall j: nat :: 2 * (k + j) < |level| ==> Above(h, level, k + j) == Above(h, level[2 * k..], j);
  }

  lemma NextOfOne(h: HashFunction, level: seq<Digest>)
    requires |level| == 1
    ensures Next(h, level) == level
  {}

  lemma HeadOfTwo(h: HashFunction, leaves: seq<Digest>)
    requires |leaves| == 2
    ensures TreeHead(h, leaves) == h(PairInput(leaves, 0)) && Next(h, leaves) == [TreeHead(h, leaves)]
  {
    assert TreeHead(h, leaves[..1]) == leaves[0] && TreeHead(h, leaves[1..]) == leaves[1];
  }

  /** Both trees split at the same place. */
  lemma HeadOfNextSplit(h: HashFunction, leaves: seq<Digest>, k: nat)
    requires |leaves| >= 3 && k == SplitPoint(|leaves|)
    ensures TreeHead(h, Next(h, leaves))
            == h(Concat(TreeHead(h, Next(h, leaves[..k])), TreeHead(h, Next(h, leaves[k..]))))
  {
    var j := SplitPoint((|leaves| + 1) / 2);
    assert k == 2 * j;
    NextSplits(h, leaves, j);
  }

  /** Pairing the leaves first does not change the recursive tree head. */
  lemma {:induction false} HeadOfNext(h: HashFunction, leaves: seq<Digest>)
    requires |leaves| >= 1
    ensures TreeHead(h, Next(h, leaves)) == TreeHead(h, leaves)
    decreases |leaves|
  {
    if |leaves| == 1 {
      NextOfOne(h, leaves);
    } else if |leaves| == 2 {
      HeadOfTwo(h, leaves);
    } else {
      var k := SplitPoint(|leaves|);
      HeadOfNextSplit(h, leaves, k);
      HeadOfNext(h, leaves[..k]);
      HeadOfNext(h, leaves[k..]);
    }
  }

  /** The bottom-up loop with odd-node promotion computes the recursive tree head, for every leaf list. */
  lemma {:induction false} BottomUpIsTreeHead(h: HashFunction, leaves: seq<Digest>)
    requires |leaves| >= 1
    ensures RootOf(h, leaves) == TreeHead(h, leaves)
    decreases |leaves|
  {
    if |leaves| > 1 {
      HeadOfNext(h, leaves);
      BottomUpIsTreeHead(h, Next(h, leaves));
    }
  }

  /**
   * The root in bytes: of one leaf the leaf, of more the hash of the left part's root followed by the right
   * part's, split at the largest power of two below their number.
   */
  lemma RootHashesBytes(h: HashFunction, leaves: seq<Digest>, k: nat)
    requires |leaves| >= 1
    ensures |leaves| == 1 ==> RootOf(h, leaves) == leaves[0]
    ensures |leaves| >= 2 && k == SplitPoint(|leaves|) ==>
      && RootOf(h, leaves) == h(RootOf(h, leaves[..k]) + RootOf(h, leaves[k..]))
      && RootOf(h, leaves) == h(TreeHead(h, leaves[..k]) + TreeHead(h, leaves[k..]))
  {
    BottomUpIsTreeHead(h, leaves);
    if |leaves| >= 2 && k == SplitPoint(|leaves|) {
      BottomUpIsTreeHead(h, leaves[..k]);
      BottomUpIsTreeHead(h, leaves[k..]);
    }
  }

  lemma LevelWithinSplit(level: seq<Digest>, k: nat, inputs: set<seq<byte>>)
    requires 2 * k < |level|
    ensures LevelWithin(level, inputs) <==> LevelWithin(level[..2 * k], inputs) && LevelWithin(level[2 * k..], inputs)
  {
    var l, r := level[..2 * k], level[2 * k..];
    assert forall j: nat :: 2 * j + 1 < |l| ==> PairInput(l, j) == PairInput(level, j);
    assert forall j: nat :: 2 * j + 1 < |r| ==> PairInput(r, j) == PairInput(level, k + j);
    forall j: nat | LevelWithin(l, inputs) && LevelWithin(r, inputs) && 2 * j + 1 < |level|
      ensures PairInput(level, j) in inputs
    {
      if j < k {
        assert PairInput(l, j) in inputs;
      } else {
        assert PairInput(r, j - k) in inputs;
      }
    }
  }

  /** Pairing first hashes one level of the recursive tree and leaves the rest. */
  lemma {:induction false} HeadWithinOfNext(h: HashFunction, leaves: seq<Digest>, inputs: set<seq<byte>>)
    requires |leaves| >= 1
    ensures HeadWithin(h, leaves, inputs) <==> LevelWithin(leaves, inputs) && HeadWithin(h, Next(h, leaves), inputs)
    decreases |leaves|
  {
    if |leaves| == 1 {
      NextOfOne(h, leaves);
    } else if |leaves| == 2 {
      HeadOfTwo(h, leaves);
      assert TreeHead(h, leaves[..1]) == leaves[0] && TreeHead(h, leaves[1..]) == leaves[1];
      assert LevelWithin(leaves, inputs) <==> PairInput(leaves, 0) in inputs;
    } else {
      var k := SplitPoint(|leaves|);
      HeadWithinOfNext(h, leaves[..k], inputs);
      HeadWithinOfNext(h, leaves[k..], inputs);
      LevelWithinSplit(leaves, SplitPoint((|leaves| + 1) / 2), inputs);
      HeadWithinNextSplit(h, leaves, k, inputs);
    }
  }

  lemma HeadWithinNextSplit(h: HashFunction, leaves: seq<Digest>, k: nat, inputs: set<seq<byte>>)
    requires |leaves| >= 3 && k == SplitPoint(|leaves|)
    ensures HeadWithin(h, Next(h, leaves), inputs) <==>
      && Concat(TreeHead(h, leaves[..k]), TreeHead(h, leaves[k..])) in inputs
      && HeadWithin(h, Next(h, leaves[..k]), inputs) && HeadWithin(h, Next(h, leaves[k..]), inputs)
  {
    var j := SplitPoint((|leaves| + 1) / 2);
    assert k == 2 * j;
    NextSplits(h, leaves, j);
    HeadOfNext(h, leaves[..k]);
    HeadOfNext(h, leaves[k..]);
  }

  /** Both forms hash exactly the same inputs. */
  lemma {:induction false} SameInputs(h: HashFunction, leaves: seq<Digest>, inputs: set<seq<byte>>)
    requires |leaves| >= 1
    ensures TreeWithin(h, leaves, inputs) <==> HeadWithin(h, leaves, inputs)
    decreases |leaves|
  {
    if |leaves| > 1 {
      HeadWithinOfNext(h, leaves, inputs);
      SameInputs(h, Next(h, leaves), inputs);
    }
  }

  // ----- Binding -----

  /** Equal next levels of equally many nodes come from equal levels. */
  lemma NextInjective(h: HashFunction, a: seq<Digest>, b: seq<Digest>, inputs: set<seq<byte>>)
    requires |a| == |b| && Next(h, a) == Next(h, b)
    requires CollisionFree(h, inputs) && LevelWithin(a, inputs) && LevelWithin(b, inputs)
    ensures a == b
  {
    forall i: nat | i < |a| ensures a[i] == b[i] {
      var j := i / 2;
      assert Next(h, a)[j] == Above(h, a, j) && Next(h, b)[j] == Above(h, b, j);
      if 2 * j + 1 < |a| {
        assert PairInput(a, j) in inputs && PairInput(b, j) in inputs;
        ConcatInjective(a[2 * j], a[2 * j + 1], b[2 * j], b[2 * j + 1]);
      }
    }
  }

  /** Root injectivity: as many leaves and the same root mean the same leaf hashes, odd promotions included. */
  lemma {:induction false} RootBindsLeafHashes(h: HashFunction, a: seq<Digest>, b: seq<Digest>, inputs: set<seq<byte>>)
    requires |a| == |b| >= 1 && RootOf(h, a) == RootOf(h, b)
    requires CollisionFree(h, inputs) && TreeWithin(h, a, inputs) && TreeWithin(h, b, inputs)
    ensures a == b
    decreases |a|
  {
    if |a| > 1 {
      RootBindsLeafHashes(h, Next(h, a), Next(h, b), inputs);
      NextInjective(h, a, b, inputs);
    }
  }

  /** The leaf hashes of a builder that was given these byte strings. */
  function LeafHashes(h: HashFunction, data: seq<seq<byte>>): seq<Digest> {
    seq(|data|, i requires 0 <= i < |data| => h(data[i]))
  }

  ghost predicate DataWithin(data: seq<seq<byte>>, inputs: set<seq<byte>>) {
    forall i :: 0 <= i < |data| ==> data[i] in inputs
  }

  /** Everything hashed by a builder, leaves included, is among the inputs. */
  ghost predicate BuildWithin(h: HashFunction, data: seq<seq<byte>>, inputs: set<seq<byte>>) {
    DataWithin(data, inputs) && TreeWithin(h, LeafHashes(h, data), inputs)
  }

  /** No leaf is as long as the concatenation of two digests. */
  predicate NoLeafLooksInternal(data: seq<seq<byte>>) {
    forall i :: 0 <= i < |data| ==> |data[i]| != 2 * HASH_SIZE
  }

  /** What the binding argument needs of one builder. */
  ghost predicate Suitable(h: HashFunction, data: seq<seq<byte>>, inputs: set<seq<byte>>) {
    |data| >= 1 && NoLeafLooksInternal(data) && DataWithin(data, inputs) && HeadWithin(h, LeafHashes(h, data), inputs)
  }

  lemma SplitData(h: HashFunction, data: seq<seq<byte>>, k: nat, inputs: set<seq<byte>>)
    requires Suitable(h, data, inputs) && |data| > 1 && k == SplitPoint(|data|)
    ensures Suitable(h, data[..k], inputs) && Suitable(h, data[k..], inputs)
    ensures LeafHashes(h, data)[..k] == LeafHashes(h, data[..k])
    ensures LeafHashes(h, data)[k..] == LeafHashes(h, data[k..])
  {
    LeafHashesSplit(h, data, k);
  }

  lemma LeafHashesSplit(h: HashFunction, data: seq<seq<byte>>, k: nat)
    requires k <= |data|
    ensures LeafHashes(h, data)[..k] == LeafHashes(h, data[..k])
    ensures LeafHashes(h, data)[k..] == LeafHashes(h, data[k..])
  {}

  lemma {:induction false} HeadBindsData(h: HashFunction, a: seq<seq<byte>>, b: seq<seq<byte>>, inputs: set<seq<byte>>)
    requires CollisionFree(h, inputs) && Suitable(h, a, inputs) && Suitable(h, b, inputs)
    requires TreeHead(h, LeafHashes(h, a)) == TreeHead(h, LeafHashes(h, b))
    ensures a == b
    decreases |a|
  {
    var k, m := SameSplit(h, a, b, inputs);
    if k > 0 {
      HeadBindsData(h, a[..k], b[..m], inputs);
      HeadBindsData(h, a[k..], b[m..], inputs);
      assert a == a[..k] + a[k..] && b == b[..m] + b[m..];
    }
  }

  /** Either both lists are the same single leaf, or they split into parts with equal tree heads. */
  lemma SameSplit(h: HashFunction, a: seq<seq<byte>>, b: seq<seq<byte>>, inputs: set<seq<byte>>)
    returns (k: nat, m: nat)
    requires CollisionFree(h, inputs) && Suitable(h, a, inputs) && Suitable(h, b, inputs)
    requires TreeHead(h, LeafHashes(h, a)) == TreeHead(h, LeafHashes(h, b))
    ensures k == 0 ==> a == b
    ensures k > 0 ==> k < |a| && 0 < m < |b|
    ensures k > 0 ==> Suitable(h, a[..k], inputs) && Suitable(h, a[k..], inputs)
    ensures k > 0 ==> Suitable(h, b[..m], inputs) && Suitable(h, b[m..], inputs)
    ensures k > 0 ==> TreeHead(h, LeafHashes(h, a[..k])) == TreeHead(h, LeafHashes(h, b[..m]))
    ensures k > 0 ==> TreeHead(h, LeafHashes(h, a[k..])) == TreeHead(h, LeafHashes(h, b[m..]))
  {
    var x := HeadInput(h, a, inputs);
    var y := HeadInput(h, b, inputs);
    assert x == y;
    if |a| == 1 || |b| == 1 {
      k, m := 0, 0;
      assert a == [x] && b == [y];
    } else {
      k, m := SplitPoint(|a|), SplitPoint(|b|);
      SplitData(h, a, k, inputs);
      SplitData(h, b, m, inputs);
      ConcatInjective(
        TreeHead(h, LeafHashes(h, a[..k])), TreeHead(h, LeafHashes(h, a[k..])),
        TreeHead(h, LeafHashes(h, b[..m])), TreeHead(h, LeafHashes(h, b[m..])));
    }
  }

  /** The input whose hash is the tree head: the leaf itself, or the concatenation of two digests. */
  lemma HeadInput(h: HashFunction, data: seq<seq<byte>>, inputs: set<seq<byte>>) returns (x: seq<byte>)
    requires Suitable(h, data, inputs)
    ensures x in inputs && h(x) == TreeHead(h, LeafHashes(h, data))
    ensures |data| == 1 ==> x == data[0]
    ensures |data| > 1 ==>
      var k := SplitPoint(|data|);
      && |x| == 2 * HASH_SIZE
      && x == Concat(TreeHead(h, LeafHashes(h, data)[..k]), TreeHead(h, LeafHashes(h, data)[k..]))
  {
    var leaves := LeafHashes(h, data);
    if |data| == 1 {
      x := data[0];
    } else {
      var k := SplitPoint(|data|);
      x := Concat(TreeHead(h, leaves[..k]), TreeHead(h, leaves[k..]));
    }
  }

  /**
   * The root determines the leaves: two builders with the same root were given the same byte strings,
   * in the same order and number, provided no leaf has exactly 64 bytes.
   */
  lemma RootBindsData(h: HashFunction, a: seq<seq<byte>>, b: seq<seq<byte>>, inputs: set<seq<byte>>)
    requires |a| >= 1 && |b| >= 1
    requires RootOf(h, LeafHashes(h, a)) == RootOf(h, LeafHashes(h, b))
    requires NoLeafLooksInternal(a) && NoLeafLooksInternal(b)
    requires CollisionFree(h, inputs) && BuildWithin(h, a, inputs) && BuildWithin(h, b, inputs)
    ensures a == b
  {
    var x, y := LeafHashes(h, a), LeafHashes(h, b);
    BottomUpIsTreeHead(h, x);
    BottomUpIsTreeHead(h, y);
    SameInputs(h, x, inputs);
    SameInputs(h, y, inputs);
    HeadBindsData(h, a, b, inputs);
  }

  /** The 64 bytes hashed last for a list of two or more leaves. */
  function TopInput(h: HashFunction, data: seq<seq<byte>>): (x: seq<byte>)
    requires |data| >= 2
    ensures |x| == 2 * HASH_SIZE
  {
    var leaves, k := LeafHashes(h, data), SplitPoint(|data|);
    Concat(TreeHead(h, leaves[..k]), TreeHead(h, leaves[k..]))
  }

  /**
   * Why 64-byte leaves are excluded: leaves and inner nodes are hashed alike, so for every list of two or
   * more leaves there is a single 64-byte leaf with the same root, whatever the hash.
   */
  lemma SixtyFourByteLeafIsAmbiguous(h: HashFunction, data: seq<seq<byte>>)
    requires |data| >= 2
    ensures RootOf(h, LeafHashes(h, data)) == RootOf(h, LeafHashes(h, [TopInput(h, data)]))
  {
    BottomUpIsTreeHead(h, LeafHashes(h, data));
  }
}
