/** Which generated proofs verify, and what an accepted proof shows. */
module MerkleProofs {
  import opened Hashing
  import opened MerkleTree
  import opened MerkleRoot

  // ----- No promotion on the path: the proof verifies, whatever the hash -----

  /** No node on the way from leaf i to the root is promoted. */
  predicate NeverPromoted(n: nat, i: nat)
    decreases n
  {
    n <= 1 || (!Promoted(n, i) && NeverPromoted((n + 1) / 2, i / 2))
  }

  lemma {:induction false} UnpromotedProofVerifies(h: HashFunction, leaves: seq<Digest>, i: nat)
    requires i < |leaves| && NeverPromoted(|leaves|, i)
    ensures Accepts(h, ProofFor(h, leaves, i), RootOf(h, leaves))
    decreases |leaves|
  {
    if |leaves| > 1 {
      var s := Siblings(h, leaves, i);
      assert s[1..] == Siblings(h, Next(h, leaves), i / 2);
      assert Next(h, leaves)[i / 2] == h(Join(i, leaves[i], s[0]));
      UnpromotedProofVerifies(h, Next(h, leaves), i / 2);
    }
  }

  /** One step of a check in bytes: an even index has the current hash first, an odd one the sibling. */
  lemma AcceptsStep(h: HashFunction, p: MerkleProof, root: Digest)
    ensures p.siblings == [] ==> (Accepts(h, p, root) <==> root == p.leafHash)
    ensures p.siblings != [] ==>
      var s, rest := p.siblings[0], p.siblings[1..];
      var above := h(if p.leafIndex % 2 == 0 then p.leafHash + s else s + p.leafHash);
      && (Accepts(h, p, root) <==> Accepts(h, MerkleProof(above, rest, p.leafIndex / 2), root))
      && (rest == [] ==> (Accepts(h, p, root) <==> root == above))
  {}

  // ----- The exact condition for any path -----

  /**
   * The verifier's index v lags behind the generator's index i after a promotion. The proof is aligned
   * when, at every pairing, both agree on the side of the current node or the two nodes are equal.
   */
  predicate Aligned(h: HashFunction, level: seq<Digest>, i: nat, v: nat)
    requires i < |level|
    decreases |level|
  {
    if |level| == 1 then true
    else if Promoted(|level|, i) then Aligned(h, Next(h, level), i / 2, v)
    else (i % 2 == v % 2 || level[i] == level[Partner(i)]) && Aligned(h, Next(h, level), i / 2, v / 2)
  }

  /** Generalised to any starting digest x: it must be the node itself. */
  lemma {:induction false} FoldReachesRootIff(
    h: HashFunction, level: seq<Digest>, i: nat, v: nat, x: Digest, inputs: set<seq<byte>>)
    requires i < |level|
    requires CollisionFree(h, inputs)
    requires TreeWithin(h, level, inputs) && FoldWithin(h, x, v, Siblings(h, level, i), inputs)
    ensures Fold(h, x, v, Siblings(h, level, i)) == RootOf(h, level) <==> x == level[i] && Aligned(h, level, i, v)
    decreases |level|
  {
    if |level| > 1 {
      var next, s := Next(h, level), Siblings(h, level, i);
      if Promoted(|level|, i) {
        assert s == Siblings(h, next, i / 2);
        FoldReachesRootIff(h, next, i / 2, v, x, inputs);
      } else {
        assert s[1..] == Siblings(h, next, i / 2);
        FoldReachesRootIff(h, next, i / 2, v / 2, h(Join(v, x, s[0])), inputs);
        JoinHashIff(h, level, i, v, x, inputs);
      }
    }
  }

  /** The verifier's hash is the node above exactly when it joined that node's children. */
  lemma JoinHashIff(h: HashFunction, level: seq<Digest>, i: nat, v: nat, x: Digest, inputs: set<seq<byte>>)
    requires i < |level| && |level| > 1 && !Promoted(|level|, i)
    requires CollisionFree(h, inputs) && LevelWithin(level, inputs) && Join(v, x, level[Partner(i)]) in inputs
    ensures h(Join(v, x, level[Partner(i)])) == Next(h, level)[i / 2]
            <==> x == level[i] && (i % 2 == v % 2 || level[i] == level[Partner(i)])
  {
    assert PairInput(level, i / 2) in inputs;
    assert Next(h, level)[i / 2] == h(PairInput(level, i / 2));
    JoinIsPairIff(level, i, v, x);
  }

  lemma JoinIsPairIff(level: seq<Digest>, i: nat, v: nat, x: Digest)
    requires i < |level| && |level| > 1 && !Promoted(|level|, i)
    ensures Join(v, x, level[Partner(i)]) == PairInput(level, i / 2)
            <==> x == level[i] && (i % 2 == v % 2 || level[i] == level[Partner(i)])
  {
    var j, s := i / 2, level[Partner(i)];
    if Join(v, x, s) == PairInput(level, j) {
      if v % 2 == 0 {
        ConcatInjective(x, s, level[2 * j], level[2 * j + 1]);
      } else {
        ConcatInjective(s, x, level[2 * j], level[2 * j + 1]);
      }
    }
  }

  /** Everything hashed while building the tree over the leaf hashes and checking leaf i's proof is among the inputs. */
  ghost predicate ProofWithin(h: HashFunction, leaves: seq<Digest>, i: nat, inputs: set<seq<byte>>)
    requires i < |leaves|
  {
    TreeWithin(h, leaves, inputs) && FoldWithin(h, leaves[i], i, Siblings(h, leaves, i), inputs)
  }

  lemma ProofVerifiesIffAligned(h: HashFunction, leaves: seq<Digest>, i: nat, inputs: set<seq<byte>>)
    requires i < |leaves| && CollisionFree(h, inputs) && ProofWithin(h, leaves, i, inputs)
    ensures Accepts(h, ProofFor(h, leaves, i), RootOf(h, leaves)) <==> Aligned(h, leaves, i, i)
  {
    FoldReachesRootIff(h, leaves, i, i, leaves[i], inputs);
  }

  /** Some node on leaf i's path is promoted, and the node it is first paired with afterwards is different from it. */
  predicate MeetsDifferent(h: HashFunction, level: seq<Digest>, i: nat, lagging: bool)
    requires i < |level|
    decreases |level|
  {
    |level| > 1 &&
    if Promoted(|level|, i) then MeetsDifferent(h, Next(h, level), i / 2, true)
    else if lagging then level[i] != level[Partner(i)]
    else MeetsDifferent(h, Next(h, level), i / 2, false)
  }

  lemma {:induction false} LaggingIsMisaligned(h: HashFunction, level: seq<Digest>, v: nat)
    requires |level| >= 1 && MeetsDifferent(h, level, |level| - 1, true) && v % 2 == 0
    ensures !Aligned(h, level, |level| - 1, v)
    decreases |level|
  {
    if Promoted(|level|, |level| - 1) {
      LaggingIsMisaligned(h, Next(h, level), v);
    }
  }

  lemma {:induction false} MeetsDifferentIsMisaligned(h: HashFunction, level: seq<Digest>, i: nat)
    requires i < |level| && MeetsDifferent(h, level, i, false)
    ensures !Aligned(h, level, i, i)
    decreases |level|
  {
    if Promoted(|level|, i) {
      LaggingIsMisaligned(h, Next(h, level), i);
    } else {
      MeetsDifferentIsMisaligned(h, Next(h, level), i / 2);
    }
  }

  /** Whatever the leaf data: a path with a promotion whose node then meets a different one gives a proof that fails. */
  lemma PromotedProofFails(h: HashFunction, leaves: seq<Digest>, i: nat, inputs: set<seq<byte>>)
    requires i < |leaves| && MeetsDifferent(h, leaves, i, false)
    requires CollisionFree(h, inputs) && ProofWithin(h, leaves, i, inputs)
    ensures !Accepts(h, ProofFor(h, leaves, i), RootOf(h, leaves))
  {
    MeetsDifferentIsMisaligned(h, leaves, i);
    ProofVerifiesIffAligned(h, leaves, i, inputs);
  }

  // ----- A promoted node never equals the sibling it meets -----

  /** x is reached from a leaf by hashing d times, the leaf being leftmost each time. */
  ghost predicate AtHeight(h: HashFunction, data: seq<seq<byte>>, inputs: set<seq<byte>>, x: Digest, d: nat)
    decreases d
  {
    if d == 0 then exists i :: 0 <= i < |data| && x == h(data[i])
    else
      exists l: Digest, r: Digest ::
        Concat(l, r) in inputs && x == h(Concat(l, r)) && AtHeight(h, data, inputs, l, d - 1)
  }

  lemma {:induction false} HeightUnique(
    h: HashFunction, data: seq<seq<byte>>, inputs: set<seq<byte>>, x: Digest, d: nat, e: nat)
    requires CollisionFree(h, inputs) && DataWithin(data, inputs) && NoLeafLooksInternal(data)
    requires AtHeight(h, data, inputs, x, d) && AtHeight(h, data, inputs, x, e)
    ensures d == e
    decreases d
  {
    if d > 0 && e > 0 {
      var l: Digest, r: Digest :| Concat(l, r) in inputs && x == h(Concat(l, r)) && AtHeight(h, data, inputs, l, d - 1);
      var l': Digest, r': Digest :|
        Concat(l', r') in inputs && x == h(Concat(l', r')) && AtHeight(h, data, inputs, l', e - 1);
      ConcatInjective(l, r, l', r');
      HeightUnique(h, data, inputs, l, d - 1, e - 1);
    }
  }

  /** A relation between digests and heights: grows by one with every hash, one height per digest. */
  type Heights = (Digest, nat) -> bool

  ghost predicate GrowsWithHashing(h: HashFunction, inputs: set<seq<byte>>, at: Heights) {
    forall l: Digest, r: Digest, d: nat ::
      Concat(l, r) in inputs && at(l, d) ==> at(h(Concat(l, r)), d + 1)
  }

  ghost predicate OneHeightEach(at: Heights) {
    forall x: Digest, d: nat, e: nat :: at(x, d) && at(x, e) ==> d == e
  }

  /** In level t every node but the last has height t; the last one has height last <= t. */
  ghost predicate LevelHeights(at: Heights, level: seq<Digest>, t: nat, last: nat) {
    && |level| >= 1 && last <= t
    && at(level[|level| - 1], last)
    && forall j :: 0 <= j < |level| - 1 ==> at(level[j], t)
  }

  lemma NextHeights(h: HashFunction, inputs: set<seq<byte>>, at: Heights, level: seq<Digest>, t: nat, last: nat)
    requires |level| > 1 && TreeWithin(h, level, inputs)
    requires GrowsWithHashing(h, inputs, at) && LevelHeights(at, level, t, last)
    ensures LevelHeights(at, Next(h, level), t + 1, if Promoted(|level|, |level| - 1) then last else t + 1)
    ensures TreeWithin(h, Next(h, level), inputs)
  {
    forall j | 0 <= j < |level| / 2 ensures at(Next(h, level)[j], t + 1) {
      PairHeight(h, inputs, at, level, t, j);
    }
    LiftHeights(h, at, level, t, last);
  }

  lemma LiftHeights(h: HashFunction, at: Heights, level: seq<Digest>, t: nat, last: nat)
    requires |level| > 1 && LevelHeights(at, level, t, last)
    requires forall j :: 0 <= j < |level| / 2 ==> at(Next(h, level)[j], t + 1)
    ensures LevelHeights(at, Next(h, level), t + 1, if Promoted(|level|, |level| - 1) then last else t + 1)
  {
    if Promoted(|level|, |level| - 1) {
      assert Next(h, level)[|level| / 2] == level[|level| - 1];
    }
  }

  lemma PairHeight(h: HashFunction, inputs: set<seq<byte>>, at: Heights, level: seq<Digest>, t: nat, j: nat)
    requires 2 * j + 1 < |level| && TreeWithin(h, level, inputs)
    requires GrowsWithHashing(h, inputs, at) && at(level[2 * j], t)
    ensures at(Next(h, level)[j], t + 1)
  {
    assert PairInput(level, j) in inputs;
  }

  /** After a promotion the verifier takes the wrong side of two different nodes. */
  lemma {:induction false} PromotedIsMisaligned(
    h: HashFunction, inputs: set<seq<byte>>, at: Heights, level: seq<Digest>, t: nat, last: nat, v: nat)
    requires |level| > 1 && TreeWithin(h, level, inputs)
    requires GrowsWithHashing(h, inputs, at) && OneHeightEach(at)
    requires LevelHeights(at, level, t, last) && last < t && v % 2 == 0
    ensures !Aligned(h, level, |level| - 1, v)
    decreases |level|
  {
    if Promoted(|level|, |level| - 1) {
      NextHeights(h, inputs, at, level, t, last);
      PromotedIsMisaligned(h, inputs, at, Next(h, level), t + 1, last, v);
    } else {
      assert !Promoted(|level|, |level| - 1) && Partner(|level| - 1) == |level| - 2;
    }
  }

  lemma {:induction false} AlignedIffNeverPromoted(
    h: HashFunction, inputs: set<seq<byte>>, at: Heights, level: seq<Digest>, t: nat, last: nat, i: nat)
    requires i < |level| && TreeWithin(h, level, inputs)
    requires GrowsWithHashing(h, inputs, at) && OneHeightEach(at) && LevelHeights(at, level, t, last)
    ensures Aligned(h, level, i, i) <==> NeverPromoted(|level|, i)
    decreases |level|
  {
    if |level| > 1 {
      NextHeights(h, inputs, at, level, t, last);
      if Promoted(|level|, i) {
        PromotedIsMisaligned(h, inputs, at, Next(h, level), t + 1, last, i);
      } else {
        var last' := if Promoted(|level|, |level| - 1) then last else t + 1;
        AlignedIffNeverPromoted(h, inputs, at, Next(h, level), t + 1, last', i / 2);
      }
    }
  }

  predicate ProofVerifies(h: HashFunction, data: seq<seq<byte>>, i: nat)
    requires i < |data|
  {
    var leaves := LeafHashes(h, data);
    Accepts(h, ProofFor(h, leaves, i), RootOf(h, leaves))
  }

  /** Everything hashed from the leaf data up to the check of leaf i's proof is among the inputs. */
  ghost predicate RoundTripWithin(h: HashFunction, data: seq<seq<byte>>, i: nat, inputs: set<seq<byte>>)
    requires i < |data|
  {
    DataWithin(data, inputs) && ProofWithin(h, LeafHashes(h, data), i, inputs)
  }

  lemma VerifiesIffNeverPromoted(h: HashFunction, data: seq<seq<byte>>, i: nat, inputs: set<seq<byte>>)
    requires i < |data| && NoLeafLooksInternal(data)
    requires CollisionFree(h, inputs) && RoundTripWithin(h, data, i, inputs)
    ensures ProofVerifies(h, data, i) <==> NeverPromoted(|data|, i)
  {
    var leaves := LeafHashes(h, data);
    var at := (x: Digest, d: nat) => AtHeight(h, data, inputs, x, d);
    assert OneHeightEach(at) by {
      forall x: Digest, d: nat, e: nat | at(x, d) && at(x, e) ensures d == e {
        HeightUnique(h, data, inputs, x, d, e);
      }
    }
    forall j | 0 <= j < |leaves| ensures at(leaves[j], 0) {
      assert leaves[j] == h(data[j]);
    }
    AlignedIffNeverPromoted(h, inputs, at, leaves, 0, 0, i);
    ProofVerifiesIffAligned(h, leaves, i, inputs);
  }

  // ----- The leaves never promoted are a prefix, with a closed form -----

  /** The smallest power of two above x (PowerAboveLeast). */
  function PowerAbove(x: nat): (p: nat)
    ensures x < p
  {
    if x == 0 then 1 else 2 * PowerAbove(x / 2)
  }

  lemma {:induction false} PowerAboveIsPower(x: nat)
    ensures IsPowerOfTwo(PowerAbove(x))
    ensures x > 0 ==> PowerAbove(x) <= 2 * x
  {
    if x > 0 {
      PowerAboveIsPower(x / 2);
    }
  }

  /** How many leaves, counted from the left, are never promoted among n. */
  function ProvableLeaves(n: nat): nat
    requires n >= 1
  {
    if IsPowerOfTwo(n) then n
    else
      PowerOfTwoGap(n);
      PowerAbove(n - 1) - PowerAbove(PowerAbove(n - 1) - n)
  }

  /** The tree over n leaves misses part of a full tree, by less than half of it. */
  lemma {:induction false} PowerOfTwoGap(n: nat)
    requires n >= 1 && !IsPowerOfTwo(n)
    ensures n >= 3
    ensures var full := PowerAbove(n - 1); n < full && PowerAbove(full - n) < full
  {
    var full := PowerAbove(n - 1);
    PowerAboveIsPower(n - 1);
    assert full != n && n >= 3;
    assert full == 2 * PowerAbove((n - 1) / 2);
    PowerAboveLeast(full - n, full / 2);
  }

  lemma {:induction false} PowerAboveLeast(x: nat, p: nat)
    requires IsPowerOfTwo(p) && x < p
    ensures PowerAbove(x) <= p
  {
    if x > 0 {
      PowerAboveLeast(x / 2, p / 2);
    }
  }

  lemma {:induction false} NeverPromotedPowerOfTwo(n: nat, i: nat)
    requires IsPowerOfTwo(n) && i < n
    ensures NeverPromoted(n, i)
    decreases n
  {
    if n > 1 {
      NeverPromotedPowerOfTwo(n / 2, i / 2);
    }
  }

  lemma {:induction false} PowerAboveItself(p: nat)
    requires IsPowerOfTwo(p)
    ensures PowerAbove(p - 1) == p
  {
    if p > 1 {
      assert (p - 1) / 2 == p / 2 - 1;
      PowerAboveItself(p / 2);
    }
  }

  /** One level up halves the prefix, unless the promotion happens on this level. */
  lemma ProvableStep(n: nat)
    requires n >= 2 && !IsPowerOfTwo(n)
    ensures ProvableLeaves(n) < n
    ensures var m := (n + 1) / 2;
      ProvableLeaves(n) == if IsPowerOfTwo(m) then n - 1 else 2 * ProvableLeaves(m)
  {
    PowerOfTwoGap(n);
    if IsPowerOfTwo((n + 1) / 2) {
      ProvableAtPromotion(n);
    } else {
      ProvableBelow(n, (n + 1) / 2);
    }
  }

  lemma ProvableAtPromotion(n: nat)
    requires n >= 3 && !IsPowerOfTwo(n) && IsPowerOfTwo((n + 1) / 2)
    ensures ProvableLeaves(n) == n - 1
  {
    var m := (n + 1) / 2;
    assert (n - 1) / 2 == m - 1;
    PowerAboveItself(m);
    assert n == 2 * m - 1;
    assert PowerAbove(1) == 2;
  }

  lemma ProvableUnfolds(n: nat)
    requires n >= 1 && !IsPowerOfTwo(n)
    ensures n < PowerAbove(n - 1)
    ensures ProvableLeaves(n) == PowerAbove(n - 1) - PowerAbove(PowerAbove(n - 1) - n)
  {
    PowerOfTwoGap(n);
  }

  lemma ProvableBelow(n: nat, m: nat)
    requires n >= 3 && m >= 1 && !IsPowerOfTwo(n) && !IsPowerOfTwo(m)
    requires n == 2 * m || n == 2 * m - 1
    ensures ProvableLeaves(n) == 2 * ProvableLeaves(m)
  {
    ProvableUnfolds(n);
    ProvableUnfolds(m);
    GapHalves(n, m);
  }

  lemma GapHalves(n: nat, m: nat)
    requires n >= 3 && m >= 2 && (n == 2 * m || n == 2 * m - 1)
    requires n < PowerAbove(n - 1) && m < PowerAbove(m - 1)
    ensures PowerAbove(n - 1) == 2 * PowerAbove(m - 1)
    ensures PowerAbove(PowerAbove(n - 1) - n) == 2 * PowerAbove(PowerAbove(m - 1) - m)
  {
    PowerAboveHalf(n - 1, m - 1);
    PowerAboveHalf(PowerAbove(n - 1) - n, PowerAbove(m - 1) - m);
  }

  lemma PowerAboveHalf(x: nat, half: nat)
    requires x >= 1 && (x == 2 * half || x == 2 * half + 1)
    ensures PowerAbove(x) == 2 * PowerAbove(half)
  {
    assert x / 2 == half;
  }

  lemma {:induction false} NeverPromotedIff(n: nat, i: nat)
    requires i < n
    ensures NeverPromoted(n, i) <==> i < ProvableLeaves(n)
    decreases n
  {
    if IsPowerOfTwo(n) {
      NeverPromotedPowerOfTwo(n, i);
    } else {
      var m := (n + 1) / 2;
      ProvableStep(n);
      NeverPromotedIff(m, i / 2);
      if IsPowerOfTwo(m) {
        OddAbove(n, m);
      } else {
        ProvableStep(m);
        PrefixStep(n, m, i, ProvableLeaves(m));
      }
    }
  }

  /** Only an odd level has a power of two above it without being one. */
  lemma OddAbove(n: nat, m: nat)
    requires n >= 2 && m == (n + 1) / 2 && IsPowerOfTwo(m) && !IsPowerOfTwo(n)
    ensures n == 2 * m - 1
  {}

  /** A promotion on this level happens beyond the prefix anyway. */
  lemma PrefixStep(n: nat, m: nat, i: nat, prefix: nat)
    requires n >= 2 && m == (n + 1) / 2 && i < n && prefix < m
    ensures !Promoted(n, i) && i / 2 < prefix <==> i < 2 * prefix
  {}

  /**
   * Main result: the proof generated for leaf i verifies against the root exactly when i lies in the
   * never-promoted prefix.
   */
  lemma ProofVerifiesIff(h: HashFunction, data: seq<seq<byte>>, i: nat, inputs: set<seq<byte>>)
    requires i < |data| && NoLeafLooksInternal(data)
    requires CollisionFree(h, inputs) && RoundTripWithin(h, data, i, inputs)
    ensures ProofVerifies(h, data, i) <==> i < ProvableLeaves(|data|)
  {
    VerifiesIffNeverPromoted(h, data, i, inputs);
    NeverPromotedIff(|data|, i);
  }

  ghost predicate AllProofsVerify(h: HashFunction, data: seq<seq<byte>>) {
    forall i: nat :: i < |data| ==> ProofVerifies(h, data, i)
  }

  lemma PowerOfTwoProofsVerify(h: HashFunction, data: seq<seq<byte>>)
    requires IsPowerOfTwo(|data|)
    ensures AllProofsVerify(h, data)
  {
    forall i: nat | i < |data| ensures ProofVerifies(h, data, i) {
      NeverPromotedPowerOfTwo(|data|, i);
      UnpromotedProofVerifies(h, LeafHashes(h, data), i);
    }
  }

  lemma LastIsPromoted(n: nat)
    requires n >= 1 && !IsPowerOfTwo(n)
    ensures !NeverPromoted(n, n - 1)
  {
    NeverPromotedIff(n, n - 1);
    ProvableStep(n);
  }

  lemma LastProofFails(h: HashFunction, data: seq<seq<byte>>, inputs: set<seq<byte>>)
    requires |data| >= 1 && !IsPowerOfTwo(|data|) && NoLeafLooksInternal(data)
    requires CollisionFree(h, inputs) && RoundTripWithin(h, data, |data| - 1, inputs)
    ensures !AllProofsVerify(h, data)
  {
    var i: nat := |data| - 1;
    LastIsPromoted(|data|);
    VerifiesIffNeverPromoted(h, data, i, inputs);
    assert !ProofVerifies(h, data, i);
  }

  /** The builder keeps "every generated proof verifies" exactly for power-of-two leaf counts. */
  lemma AllProofsVerifyIffPowerOfTwo(h: HashFunction, data: seq<seq<byte>>, inputs: set<seq<byte>>)
    requires |data| >= 1 && NoLeafLooksInternal(data)
    requires CollisionFree(h, inputs) && RoundTripWithin(h, data, |data| - 1, inputs)
    ensures AllProofsVerify(h, data) <==> IsPowerOfTwo(|data|)
  {
    if IsPowerOfTwo(|data|) {
      PowerOfTwoProofsVerify(h, data);
    } else {
      LastProofFails(h, data, inputs);
    }
  }

  // ----- Position binding -----

  /** The leaf a verifier with index v ends up at after k halvings: the low k bits of v. */
  function LeafAt(v: nat, k: nat): nat {
    if k == 0 then 0 else 2 * LeafAt(v / 2, k - 1) + v % 2
  }

  lemma {:induction false} LeafAtIsMod(v: nat, k: nat)
    ensures LeafAt(v, k) == v % Pow2(k)
  {
    if k > 0 {
      LeafAtIsMod(v / 2, k - 1);
      ModHalf(v, Pow2(k - 1));
    }
  }

  lemma {:induction false} FoldBindsPosition(
    h: HashFunction, level: seq<Digest>, k: nat, x: Digest, v: nat, s: seq<Digest>, inputs: set<seq<byte>>)
    requires |level| == Pow2(k) && |s| == k
    requires CollisionFree(h, inputs) && TreeWithin(h, level, inputs) && FoldWithin(h, x, v, s, inputs)
    requires Fold(h, x, v, s) == RootOf(h, level)
    ensures LeafAt(v, k) < |level|
    ensures x == level[LeafAt(v, k)] && s == Siblings(h, level, LeafAt(v, k))
    decreases k
  {
    if k > 0 {
      var i := LeafAt(v, k);
      FoldBindsPosition(h, Next(h, level), k - 1, h(Join(v, x, s[0])), v / 2, s[1..], inputs);
      HalfIndex(Pow2(k - 1), LeafAt(v / 2, k - 1), v, i);
      FoldBindsStep(h, level, i, x, v, s, inputs);
    }
  }

  /** In a level of even size no node is promoted. */
  lemma HalfIndex(half: nat, j: nat, v: nat, i: nat)
    requires j < half && i == 2 * j + v % 2
    ensures i < 2 * half && i / 2 == j && i % 2 == v % 2 && !Promoted(2 * half, i)
  {}

  lemma SiblingsCons(h: HashFunction, level: seq<Digest>, i: nat)
    requires i < |level| && |level| > 1 && !Promoted(|level|, i)
    ensures Siblings(h, level, i) == [level[Partner(i)]] + Siblings(h, Next(h, level), i / 2)
  {}

  lemma FoldBindsStep(
    h: HashFunction, level: seq<Digest>, i: nat, x: Digest, v: nat, s: seq<Digest>, inputs: set<seq<byte>>)
    requires i < |level| && |level| > 1 && !Promoted(|level|, i) && i % 2 == v % 2
    requires s != [] && h(Join(v, x, s[0])) == Next(h, level)[i / 2]
    requires CollisionFree(h, inputs) && LevelWithin(level, inputs) && Join(v, x, s[0]) in inputs
    requires s[1..] == Siblings(h, Next(h, level), i / 2)
    ensures x == level[i] && s == Siblings(h, level, i)
  {
    JoinBinds(h, level, i, v, x, s[0], inputs);
    SiblingsCons(h, level, i);
    assert s == [s[0]] + s[1..];
  }

  lemma JoinBinds(
    h: HashFunction, level: seq<Digest>, i: nat, v: nat, x: Digest, sibling: Digest, inputs: set<seq<byte>>)
    requires i < |level| && |level| > 1 && !Promoted(|level|, i) && i % 2 == v % 2
    requires h(Join(v, x, sibling)) == Next(h, level)[i / 2]
    requires CollisionFree(h, inputs) && LevelWithin(level, inputs) && Join(v, x, sibling) in inputs
    ensures x == level[i] && sibling == level[Partner(i)]
  {
    var j := i / 2;
    assert PairInput(level, j) in inputs;
    if v % 2 == 0 {
      ConcatInjective(x, sibling, level[2 * j], level[2 * j + 1]);
    } else {
      ConcatInjective(sibling, x, level[2 * j], level[2 * j + 1]);
    }
  }

  lemma ModHalf(v: nat, half: nat)
    requires half >= 1
    ensures v % (2 * half) == 2 * (v / 2 % half) + v % 2
  {
    var j := v / 2 % half;
    var q := v / 2 / half;
    assert v / 2 == q * half + j;
    assert v == q * (2 * half) + (2 * j + v % 2);
    ModUnique(v, 2 * half, q, 2 * j + v % 2);
  }

  lemma ModUnique(v: nat, m: nat, q: nat, r: nat)
    requires m >= 1 && v == q * m + r && r < m
    ensures v % m == r
  {
    var d := v / m - q;
    assert v % m == r - d * m;
    assert d >= 1 ==> d * m >= m;
    assert d <= -1 ==> d * m <= 0 - m;
  }

  /**
   * For a full tree, any proof of the right length that the verifier accepts is the generated one: it
   * carries the leaf at its index (modulo the leaf count) and exactly that leaf's siblings.
   */
  lemma PositionBinding(h: HashFunction, leaves: seq<Digest>, k: nat, p: MerkleProof, inputs: set<seq<byte>>)
    requires |leaves| == Pow2(k) && |p.siblings| == k && Accepts(h, p, RootOf(h, leaves))
    requires CollisionFree(h, inputs) && TreeWithin(h, leaves, inputs)
    requires FoldWithin(h, p.leafHash, p.leafIndex, p.siblings, inputs)
    ensures var i := p.leafIndex % Pow2(k);
      p.leafHash == leaves[i] && p.siblings == ProofFor(h, leaves, i).siblings
  {
    LeafAtIsMod(p.leafIndex, k);
    FoldBindsPosition(h, leaves, k, p.leafHash, p.leafIndex, p.siblings, inputs);
  }

  // ----- What an accepted proof is, for every number of leaves -----

  predicate SameSide(v: nat, i: nat) {
    v % 2 == i % 2
  }

  /** A verifier with index v takes, at every pairing on the way from node i of n, the side node i is on. */
  predicate Sided(n: nat, i: nat, v: nat)
    decreases n
  {
    n <= 1 ||
    if Promoted(n, i) then Sided((n + 1) / 2, i / 2, v)
    else SameSide(v, i) && Sided((n + 1) / 2, i / 2, v / 2)
  }

  /** The siblings of any leaf verify under every index that takes its sides, whatever the hash. */
  lemma {:induction false} SidedProofVerifies(h: HashFunction, leaves: seq<Digest>, i: nat, v: nat)
    requires i < |leaves| && Sided(|leaves|, i, v)
    ensures Fold(h, leaves[i], v, Siblings(h, leaves, i)) == RootOf(h, leaves)
    decreases |leaves|
  {
    if |leaves| > 1 {
      var next := Next(h, leaves);
      if Promoted(|leaves|, i) {
        assert Siblings(h, leaves, i) == Siblings(h, next, i / 2);
        SidedProofVerifies(h, next, i / 2, v);
      } else {
        SiblingsCons(h, leaves, i);
        assert next[i / 2] == h(Join(v, leaves[i], leaves[Partner(i)]));
        SidedProofVerifies(h, next, i / 2, v / 2);
      }
    }
  }

  /** How many siblings the proof of leaf i has. */
  function SiblingTotal(n: nat, i: nat): nat
    decreases n
  {
    if n <= 1 then 0 else (if Promoted(n, i) then 0 else 1) + SiblingTotal((n + 1) / 2, i / 2)
  }

  lemma {:induction false} SiblingsLength(h: HashFunction, leaves: seq<Digest>, i: nat)
    requires i < |leaves|
    ensures |Siblings(h, leaves, i)| == SiblingTotal(|leaves|, i)
    decreases |leaves|
  {
    if |leaves| > 1 {
      SiblingsLength(h, Next(h, leaves), i / 2);
      if Promoted(|leaves|, i) {
        SiblingsPromoted(h, leaves, i);
        SidedPromoted(|leaves|, i, 0);
      } else {
        SiblingsCons(h, leaves, i);
        SidedCons(|leaves|, i, 0);
      }
    }
  }

  /** The verifier's index after k siblings. */
  function Shifted(v: nat, k: nat): nat {
    if k == 0 then v else Shifted(v / 2, k - 1)
  }

  /** What the verifier's index says after k siblings. */
  predicate TurnsRight(v: nat, k: nat) {
    Shifted(v, k) % 2 == 1
  }

  /** A level of 2m or 2m - 1 nodes splits twice as far right as the level of m nodes above. */
  lemma SplitAbove(n: nat, k: nat)
    requires n >= 3 && k == SplitPoint(n)
    ensures var k' := SplitPoint((n + 1) / 2); k == 2 * k' && (k + 1) / 2 == k' && (n - k + 1) / 2 == (n + 1) / 2 - k'
    ensures 2 <= k < n
  {}

  /** Left of an even split nothing is promoted, and partners stay left. */
  lemma LeftOfSplit(n: nat, k: nat, half: nat, i: nat)
    requires k == 2 * half && i < k < n
    ensures i / 2 < half && !Promoted(n, i) && !Promoted(k, i) && Partner(i) < k && k > 1
  {}

  /** Node k + j of n and node j of the n - k after the first k have the same place in a pairing. */
  predicate RightAligned(n: nat, k: nat, j: nat) {
    && k + j < n && (k + j) % 2 == j % 2
    && (if n - k == 1 then Promoted(n, k + j) else Promoted(n, k + j) == Promoted(n - k, j))
    && (!Promoted(n, k + j) ==> Partner(k + j) == k + Partner(j) && Partner(j) < n - k)
  }

  /** Right of an even split the part's last node is promoted where the whole's is, or is alone. */
  lemma RightOfSplit(n: nat, k: nat, half: nat, j: nat)
    requires k == 2 * half && 0 < k && k + j < n
    ensures RightAligned(n, k, j)
    ensures (k + j) / 2 == half + j / 2 < (n + 1) / 2
  {
    EvenOffset(k, half, j);
    assert (k + j) / 2 < (n + 1) / 2;
  }

  lemma EvenOffset(k: nat, half: nat, j: nat)
    requires k == 2 * half
    ensures (k + j) / 2 == half + j / 2 && (k + j) % 2 == j % 2 && Partner(k + j) == k + Partner(j)
  {}

  /** The siblings of node i are those of node j of a part of the level, and one more. */
  ghost predicate Extends(h: HashFunction, level: seq<Digest>, i: nat, part: seq<Digest>, j: nat, top: Digest) {
    i < |level| && j < |part| && Siblings(h, level, i) == Siblings(h, part, j) + [top]
  }

  /** One pairing, the same in a level and in a part of it. */
  lemma SiblingsPaired(h: HashFunction, level: seq<Digest>, i: nat, part: seq<Digest>, j: nat, top: Digest)
    requires |level| > 1 && |part| > 1 && i < |level| && j < |part|
    requires !Promoted(|level|, i) && !Promoted(|part|, j) && part[Partner(j)] == level[Partner(i)]
    requires Extends(h, Next(h, level), i / 2, Next(h, part), j / 2, top)
    ensures Extends(h, level, i, part, j, top)
  {
    SiblingsCons(h, level, i);
    SiblingsCons(h, part, j);
  }

  lemma SiblingsPromoted(h: HashFunction, level: seq<Digest>, i: nat)
    requires i < |level| && Promoted(|level|, i)
    ensures Siblings(h, level, i) == Siblings(h, Next(h, level), i / 2)
  {
    assert [] + Siblings(h, Next(h, level), i / 2) == Siblings(h, Next(h, level), i / 2);
  }

  lemma SiblingsBothPromoted(h: HashFunction, level: seq<Digest>, i: nat, part: seq<Digest>, j: nat, top: Digest)
    requires i < |level| && j < |part| && Promoted(|level|, i) && (|part| == 1 || Promoted(|part|, j))
    requires Extends(h, Next(h, level), i / 2, Next(h, part), j / 2, top)
    ensures Extends(h, level, i, part, j, top)
  {
    SiblingsPromoted(h, level, i);
    if |part| == 1 {
      NextOfOne(h, part);
    } else {
      SiblingsPromoted(h, part, j);
    }
  }

  lemma SiblingsOfTwo(h: HashFunction, leaves: seq<Digest>)
    requires |leaves| == 2
    ensures Extends(h, leaves, 0, leaves[..1], 0, RootOf(h, leaves[1..]))
    ensures Extends(h, leaves, 1, leaves[1..], 0, RootOf(h, leaves[..1]))
  {
    SiblingsCons(h, leaves, 0);
    SiblingsCons(h, leaves, 1);
  }

  lemma RootAbove(h: HashFunction, leaves: seq<Digest>)
    requires |leaves| >= 1
    ensures RootOf(h, Next(h, leaves)) == RootOf(h, leaves)
  {
    if |leaves| == 1 {
      NextOfOne(h, leaves);
    }
  }

  /** The parts of the level above are the levels above the parts, with the same roots. */
  lemma PartsAbove(h: HashFunction, leaves: seq<Digest>, k: nat, half: nat)
    requires k == 2 * half && 0 < k < |leaves|
    ensures half < |Next(h, leaves)|
    ensures Next(h, leaves)[..half] == Next(h, leaves[..k]) && Next(h, leaves)[half..] == Next(h, leaves[k..])
    ensures RootOf(h, Next(h, leaves)[..half]) == RootOf(h, leaves[..k])
    ensures RootOf(h, Next(h, leaves)[half..]) == RootOf(h, leaves[k..])
  {
    NextSplits(h, leaves, half);
    RootAbove(h, leaves[..k]);
    RootAbove(h, leaves[k..]);
  }

  /** The last sibling of a leaf left of the split at 2^t is the root of the right part. */
  lemma {:induction false} SiblingsSplitLeft(h: HashFunction, leaves: seq<Digest>, i: nat, t: nat, top: Digest)
    requires i < Pow2(t) < |leaves| <= 2 * Pow2(t) && top == RootOf(h, leaves[Pow2(t)..])
    ensures Extends(h, leaves, i, leaves[..Pow2(t)], i, top)
    decreases t
  {
    if t == 0 {
      SiblingsOfTwo(h, leaves);
    } else {
      var k, half := Pow2(t), Pow2(t - 1);
      LeftOfSplit(|leaves|, k, half, i);
      PartsAbove(h, leaves, k, half);
      SiblingsSplitLeft(h, Next(h, leaves), i / 2, t - 1, top);
      SiblingsPaired(h, leaves, i, leaves[..k], i, top);
    }
  }

  lemma SiblingsRightStep(
    h: HashFunction, level: seq<Digest>, i: nat, k: nat, part: seq<Digest>, j: nat, i': nat, j': nat, top: Digest)
    requires |level| > 1 && RightAligned(|level|, k, j) && part == level[k..] && i == k + j
    requires i' == i / 2 && j' == j / 2 && Extends(h, Next(h, level), i', Next(h, part), j', top)
    ensures Extends(h, level, i, part, j, top)
  {
    if Promoted(|level|, i) {
      SiblingsBothPromoted(h, level, i, part, j, top);
    } else {
      SiblingsPaired(h, level, i, part, j, top);
    }
  }

  /** Where the two indices go on the level above. */
  lemma IndicesAbove(n: nat, k: nat, half: nat, i: nat, j: nat) returns (i': nat, j': nat)
    requires k == 2 * half && 0 < k && i == k + j < n
    ensures i' == i / 2 && j' == j / 2 && i' == half + j' < (n + 1) / 2 && RightAligned(n, k, j)
  {
    RightOfSplit(n, k, half, j);
    i', j' := i / 2, j / 2;
  }

  /** The last sibling of a leaf right of the split at 2^t is the root of the left part. */
  lemma {:induction false} SiblingsSplitRight(
    h: HashFunction, leaves: seq<Digest>, i: nat, right: seq<Digest>, j: nat, t: nat, top: Digest)
    requires Pow2(t) < |leaves| <= 2 * Pow2(t) && i == Pow2(t) + j < |leaves|
    requires right == leaves[Pow2(t)..] && top == RootOf(h, leaves[..Pow2(t)])
    ensures Extends(h, leaves, i, right, j, top)
    decreases t
  {
    if t == 0 {
      SiblingsOfTwo(h, leaves);
    } else {
      var k, half := Pow2(t), Pow2(t - 1);
      var i', j' := IndicesAbove(|leaves|, k, half, i, j);
      PartsAbove(h, leaves, k, half);
      SiblingsSplitRight(h, Next(h, leaves), i', Next(h, right), j', t - 1, top);
      SiblingsRightStep(h, leaves, i, k, right, j, i', j', top);
    }
  }

  /** Taking the sides of leaf i is taking those of leaf j of a part, and then the side the part is on. */
  predicate SidesExtend(n: nat, i: nat, part: nat, j: nat, v: nat, right: bool) {
    Sided(n, i, v) <==> Sided(part, j, v) && TurnsRight(v, SiblingTotal(part, j)) == right
  }

  lemma SidedCons(n: nat, i: nat, v: nat)
    requires n > 1 && !Promoted(n, i)
    ensures Sided(n, i, v) <==> SameSide(v, i) && Sided((n + 1) / 2, i / 2, v / 2)
    ensures SiblingTotal(n, i) == 1 + SiblingTotal((n + 1) / 2, i / 2)
  {}

  lemma SidedPromoted(n: nat, i: nat, v: nat)
    requires Promoted(n, i)
    ensures Sided(n, i, v) <==> Sided((n + 1) / 2, i / 2, v)
    ensures SiblingTotal(n, i) == SiblingTotal((n + 1) / 2, i / 2)
  {}

  lemma TurnsAfter(v: nat, k: nat)
    ensures TurnsRight(v, 1 + k) == TurnsRight(v / 2, k)
  {}

  lemma SidedPaired(n: nat, i: nat, part: nat, j: nat, v: nat, right: bool)
    requires n > 1 && part > 1 && !Promoted(n, i) && !Promoted(part, j) && SameSide(v, i) == SameSide(v, j)
    requires SidesExtend((n + 1) / 2, i / 2, (part + 1) / 2, j / 2, v / 2, right)
    ensures SidesExtend(n, i, part, j, v, right)
  {
    SidedCons(n, i, v);
    SidedCons(part, j, v);
    TurnsAfter(v, SiblingTotal((part + 1) / 2, j / 2));
  }

  lemma SidedOfTwo(i: nat, v: nat)
    requires i < 2
    ensures SidesExtend(2, i, 1, 0, v, i == 1)
  {
    SidedCons(2, i, v);
  }

  /** The index takes the sides of a leaf left of the split: those within the part, then the left. */
  lemma {:induction false} SidedSplitLeft(n: nat, i: nat, v: nat, k: nat)
    requires n >= 2 && k == SplitPoint(n) && i < k
    ensures SidesExtend(n, i, k, i, v, false)
    decreases n
  {
    if n == 2 {
      SidedOfTwo(i, v);
    } else {
      SplitAbove(n, k);
      LeftOfSplit(n, k, SplitPoint((n + 1) / 2), i);
      SidedSplitLeft((n + 1) / 2, i / 2, v / 2, SplitPoint((n + 1) / 2));
      SidedPaired(n, i, k, i, v, false);
    }
  }

  lemma SidedRightStep(n: nat, k: nat, j: nat, v: nat)
    requires n > 1 && RightAligned(n, k, j)
    requires var turned := if Promoted(n, k + j) then v else v / 2;
      SidesExtend((n + 1) / 2, (k + j) / 2, (n - k + 1) / 2, j / 2, turned, true)
    ensures SidesExtend(n, k + j, n - k, j, v, true)
  {
    if Promoted(n, k + j) {
      SidedPromoted(n, k + j, v);
      if n - k > 1 {
        SidedPromoted(n - k, j, v);
      }
    } else {
      SidedPaired(n, k + j, n - k, j, v, true);
    }
  }

  /** The index takes the sides of a leaf right of the split: those within the part, then the right. */
  lemma {:induction false} SidedSplitRight(n: nat, j: nat, v: nat, k: nat)
    requires n >= 2 && k == SplitPoint(n) && k + j < n
    ensures SidesExtend(n, k + j, n - k, j, v, true)
    decreases n
  {
    if n == 2 {
      SidedOfTwo(1, v);
    } else {
      SplitAbove(n, k);
      RightOfSplit(n, k, SplitPoint((n + 1) / 2), j);
      var half, turned := SplitPoint((n + 1) / 2), if Promoted(n, k + j) then v else v / 2;
      SidedSplitRight((n + 1) / 2, j / 2, turned, half);
      SidedRightStep(n, k, j, v);
    }
  }

  /** The last hash of a fold joins the fold of the siblings before with the last sibling. */
  lemma {:induction false} FoldLast(h: HashFunction, x: Digest, v: nat, s: seq<Digest>, inputs: set<seq<byte>>)
    requires s != [] && FoldWithin(h, x, v, s, inputs)
    ensures var n := |s| - 1;
      && FoldWithin(h, x, v, s[..n], inputs)
      && Join(Shifted(v, n), Fold(h, x, v, s[..n]), s[n]) in inputs
      && Fold(h, x, v, s) == h(Join(Shifted(v, n), Fold(h, x, v, s[..n]), s[n]))
    decreases |s|
  {
    var n := |s| - 1;
    if n > 0 {
      FoldLast(h, h(Join(v, x, s[0])), v / 2, s[1..], inputs);
      assert s[1..][..n - 1] == s[..n][1..];
    }
  }

  lemma JoinSides(w: nat, x: Digest, y: Digest, left: Digest, right: Digest)
    requires Join(w, x, y) == Concat(left, right)
    ensures if w % 2 == 0 then x == left && y == right else x == right && y == left
  {
    if w % 2 == 0 {
      ConcatInjective(x, y, left, right);
    } else {
      ConcatInjective(y, x, left, right);
    }
  }

  /** A fold that reaches the head of two or more leaves reached the head of one part before, and met the other's. */
  lemma FoldEntersPart(
    h: HashFunction, data: seq<seq<byte>>, x: Digest, v: nat, s: seq<Digest>, inputs: set<seq<byte>>)
    requires |data| > 1 && Suitable(h, data, inputs) && CollisionFree(h, inputs)
    requires s != [] && FoldWithin(h, x, v, s, inputs) && Fold(h, x, v, s) == TreeHead(h, LeafHashes(h, data))
    ensures FoldWithin(h, x, v, s[..|s| - 1], inputs)
    ensures Suitable(h, data[..SplitPoint(|data|)], inputs) && Suitable(h, data[SplitPoint(|data|)..], inputs)
    ensures var k, n := SplitPoint(|data|), |s| - 1; var y := Fold(h, x, v, s[..n]);
      var left, right := TreeHead(h, LeafHashes(h, data[..k])), TreeHead(h, LeafHashes(h, data[k..]));
      if TurnsRight(v, n) then y == right && s[n] == left else y == left && s[n] == right
  {
    var k, n := SplitPoint(|data|), |s| - 1;
    FoldLast(h, x, v, s, inputs);
    var top := HeadInput(h, data, inputs);
    SplitData(h, data, k, inputs);
    var left, right := TreeHead(h, LeafHashes(h, data[..k])), TreeHead(h, LeafHashes(h, data[k..]));
    JoinSides(Shifted(v, n), Fold(h, x, v, s[..n]), s[n], left, right);
  }

  /** A single leaf is no join of two digests, so nothing is folded onto it. */
  lemma SingleLeafReached(
    h: HashFunction, data: seq<seq<byte>>, leaf: seq<byte>, v: nat, s: seq<Digest>, inputs: set<seq<byte>>)
    requires Suitable(h, data, inputs) && CollisionFree(h, inputs) && leaf in inputs && |leaf| != 2 * HASH_SIZE
    requires FoldWithin(h, h(leaf), v, s, inputs) && Fold(h, h(leaf), v, s) == TreeHead(h, LeafHashes(h, data))
    ensures |data| == 1 <==> s == []
    ensures s == [] ==> data == [leaf]
  {
    var top := HeadInput(h, data, inputs);
    if s != [] {
      FoldLast(h, h(leaf), v, s, inputs);
    }
  }

  /** These siblings and this index are what the proof of leaf i needs. */
  ghost predicate Proves(
    h: HashFunction, data: seq<seq<byte>>, leaf: seq<byte>, v: nat, s: seq<Digest>, i: nat)
  {
    i < |data| && data[i] == leaf && s == Siblings(h, LeafHashes(h, data), i) && Sided(|data|, i, v)
  }

  lemma {:induction false} SplitIsPow2(n: nat) returns (t: nat)
    requires n >= 2
    ensures Pow2(t) == SplitPoint(n)
  {
    if n == 2 {
      t := 0;
    } else {
      t := SplitIsPow2((n + 1) / 2);
      t := t + 1;
    }
  }

  /** Siblings and index prove some leaf equal to the given byte string. */
  ghost predicate Provable(h: HashFunction, data: seq<seq<byte>>, leaf: seq<byte>, v: nat, s: seq<Digest>) {
    exists i: nat :: Proves(h, data, leaf, v, s, i)
  }

  lemma SingleProvable(h: HashFunction, leaf: seq<byte>, v: nat)
    ensures Provable(h, [leaf], leaf, v, [])
  {
    assert Proves(h, [leaf], leaf, v, [], 0);
  }

  lemma LeftProves(
    h: HashFunction, data: seq<seq<byte>>, leaf: seq<byte>, v: nat, s: seq<Digest>, i: nat, k: nat, top: Digest)
    requires |data| > 1 && k == SplitPoint(|data|) && top == TreeHead(h, LeafHashes(h, data[k..]))
    requires Proves(h, data[..k], leaf, v, s, i) && !TurnsRight(v, |s|)
    ensures Proves(h, data, leaf, v, s + [top], i)
  {
    LeafHashesSplit(h, data, k);
    LeftExtends(h, LeafHashes(h, data), i, LeafHashes(h, data[..k]), k, top);
    SidedSplitLeft(|data|, i, v, k);
    SiblingsLength(h, LeafHashes(h, data[..k]), i);
  }

  lemma RightProves(
    h: HashFunction, data: seq<seq<byte>>, leaf: seq<byte>, v: nat, s: seq<Digest>, i: nat, j: nat, k: nat, top: Digest)
    requires |data| > 1 && k == SplitPoint(|data|) && top == TreeHead(h, LeafHashes(h, data[..k])) && i == k + j
    requires Proves(h, data[k..], leaf, v, s, j) && TurnsRight(v, |s|)
    ensures Proves(h, data, leaf, v, s + [top], i)
  {
    assert s + [top] == Siblings(h, LeafHashes(h, data), i) by {
      RightSiblings(h, data, i, j, k, top);
    }
    assert Sided(|data|, i, v) by {
      RightSided(h, data, v, i, j, k);
    }
  }

  lemma RightSiblings(h: HashFunction, data: seq<seq<byte>>, i: nat, j: nat, k: nat, top: Digest)
    requires |data| > 1 && k == SplitPoint(|data|) && top == TreeHead(h, LeafHashes(h, data[..k]))
    requires i == k + j < |data|
    ensures Siblings(h, LeafHashes(h, data), i) == Siblings(h, LeafHashes(h, data[k..]), j) + [top]
  {
    LeafHashesSplit(h, data, k);
    RightExtends(h, LeafHashes(h, data), i, LeafHashes(h, data[k..]), j, k, top);
  }

  lemma RightSided(h: HashFunction, data: seq<seq<byte>>, v: nat, i: nat, j: nat, k: nat)
    requires |data| > 1 && k == SplitPoint(|data|) && i == k + j < |data|
    requires Sided(|data| - k, j, v) && TurnsRight(v, |Siblings(h, LeafHashes(h, data[k..]), j)|)
    ensures Sided(|data|, i, v)
  {
    SidedSplitRight(|data|, j, v, k);
    SiblingsLength(h, LeafHashes(h, data[k..]), j);
  }

  lemma RightExtends(
    h: HashFunction, leaves: seq<Digest>, i: nat, right: seq<Digest>, j: nat, k: nat, top: Digest)
    requires |leaves| > 1 && k == SplitPoint(|leaves|) && right == leaves[k..] && i == k + j < |leaves|
    requires top == TreeHead(h, leaves[..k])
    ensures Extends(h, leaves, i, right, j, top)
  {
    var t := SplitIsPow2(|leaves|);
    BottomUpIsTreeHead(h, leaves[..k]);
    SiblingsSplitRight(h, leaves, i, right, j, t, top);
  }

  lemma LeftExtends(h: HashFunction, leaves: seq<Digest>, i: nat, left: seq<Digest>, k: nat, top: Digest)
    requires |leaves| > 1 && k == SplitPoint(|leaves|) && left == leaves[..k] && i < k
    requires top == TreeHead(h, leaves[k..])
    ensures Extends(h, leaves, i, left, i, top)
  {
    var t := SplitIsPow2(|leaves|);
    BottomUpIsTreeHead(h, leaves[k..]);
    SiblingsSplitLeft(h, leaves, i, t, top);
  }

  /** What proves a leaf of a part proves it of the whole, with the other part's head as one more sibling. */
  lemma LeftProvable(
    h: HashFunction, data: seq<seq<byte>>, leaf: seq<byte>, v: nat, s: seq<Digest>, k: nat, top: Digest)
    requires |data| > 1 && k == SplitPoint(|data|) && top == TreeHead(h, LeafHashes(h, data[k..]))
    requires Provable(h, data[..k], leaf, v, s) && !TurnsRight(v, |s|)
    ensures Provable(h, data, leaf, v, s + [top])
  {
    var i: nat :| Proves(h, data[..k], leaf, v, s, i);
    LeftProves(h, data, leaf, v, s, i, k, top);
  }

  lemma RightProvable(
    h: HashFunction, data: seq<seq<byte>>, leaf: seq<byte>, v: nat, s: seq<Digest>, k: nat, top: Digest)
    requires |data| > 1 && k == SplitPoint(|data|) && top == TreeHead(h, LeafHashes(h, data[..k]))
    requires Provable(h, data[k..], leaf, v, s) && TurnsRight(v, |s|)
    ensures Provable(h, data, leaf, v, s + [top])
  {
    var j: nat :| Proves(h, data[k..], leaf, v, s, j);
    RightProves(h, data, leaf, v, s, k + j, j, k, top);
  }

  /** A fold from a leaf's hash to the head is a generated one. */
  lemma {:induction false} FoldProvesLeaf(
    h: HashFunction, data: seq<seq<byte>>, leaf: seq<byte>, v: nat, s: seq<Digest>, inputs: set<seq<byte>>)
    requires Suitable(h, data, inputs) && CollisionFree(h, inputs) && leaf in inputs && |leaf| != 2 * HASH_SIZE
    requires FoldWithin(h, h(leaf), v, s, inputs) && Fold(h, h(leaf), v, s) == TreeHead(h, LeafHashes(h, data))
    ensures Provable(h, data, leaf, v, s)
    decreases |data|
  {
    SingleLeafReached(h, data, leaf, v, s, inputs);
    if |data| == 1 {
      SingleProvable(h, leaf, v);
    } else {
      var k, n := SplitPoint(|data|), |s| - 1;
      FoldEntersPart(h, data, h(leaf), v, s, inputs);
      assert s == s[..n] + [s[n]];
      if TurnsRight(v, n) {
        FoldProvesLeaf(h, data[k..], leaf, v, s[..n], inputs);
        RightProvable(h, data, leaf, v, s[..n], k, s[n]);
      } else {
        FoldProvesLeaf(h, data[..k], leaf, v, s[..n], inputs);
        LeftProvable(h, data, leaf, v, s[..n], k, s[n]);
      }
    }
  }

  /**
   * The accepted proofs, exactly, for any numbers of leaves and siblings: a proof for the hash of a byte string
   * is accepted if and only if the string is a leaf i, the siblings are the ones generated for i, and the index
   * takes the sides of i. Neither the string nor any leaf may have exactly 64 bytes.
   */
  lemma AcceptedIff(
    h: HashFunction, data: seq<seq<byte>>, leaf: seq<byte>, p: MerkleProof, inputs: set<seq<byte>>)
    requires |data| >= 1 && NoLeafLooksInternal(data) && |leaf| != 2 * HASH_SIZE && leaf in inputs
    requires p.leafHash == h(leaf) && CollisionFree(h, inputs) && BuildWithin(h, data, inputs)
    requires FoldWithin(h, p.leafHash, p.leafIndex, p.siblings, inputs)
    ensures Accepts(h, p, RootOf(h, LeafHashes(h, data)))
            <==> Provable(h, data, leaf, p.leafIndex, p.siblings)
  {
    var leaves := LeafHashes(h, data);
    if Accepts(h, p, RootOf(h, leaves)) {
      BottomUpIsTreeHead(h, leaves);
      SameInputs(h, leaves, inputs);
      FoldProvesLeaf(h, data, leaf, p.leafIndex, p.siblings, inputs);
    }
    forall i: nat | Proves(h, data, leaf, p.leafIndex, p.siblings, i) ensures Accepts(h, p, RootOf(h, leaves)) {
      SidedProofVerifies(h, leaves, i, p.leafIndex);
    }
  }

  /** In particular an accepted proof shows membership. */
  lemma AcceptedLeafIsMember(
    h: HashFunction, data: seq<seq<byte>>, leaf: seq<byte>, p: MerkleProof, inputs: set<seq<byte>>)
    requires |data| >= 1 && NoLeafLooksInternal(data) && |leaf| != 2 * HASH_SIZE && leaf in inputs
    requires p.leafHash == h(leaf) && Accepts(h, p, RootOf(h, LeafHashes(h, data)))
    requires CollisionFree(h, inputs) && BuildWithin(h, data, inputs)
    requires FoldWithin(h, p.leafHash, p.leafIndex, p.siblings, inputs)
    ensures leaf in data
  {
    AcceptedIff(h, data, leaf, p, inputs);
  }

  /** Why the string must not have 64 bytes: the input hashed last passes as a leaf with no siblings at all. */
  lemma TopPassesAsLeaf(h: HashFunction, data: seq<seq<byte>>)
    requires |data| >= 2
    ensures Accepts(h, MerkleProof(h(TopInput(h, data)), [], 0), RootOf(h, LeafHashes(h, data)))
  {
    BottomUpIsTreeHead(h, LeafHashes(h, data));
  }
}
