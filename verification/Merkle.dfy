/** `build_merkle_tree`: a level-by-level fold, and the tree it stands for. */
module Merkle {
  import opened Types
  import opened Numerals

  function LeftLeaves(leaves: seq<Digest>, half: nat): seq<Digest> {
    if |leaves| <= half then leaves else leaves[..half]
  }

  /** A missing right half repeats the left one. */
  function RightLeaves(leaves: seq<Digest>, half: nat): seq<Digest> {
    if |leaves| <= half then leaves else leaves[half..]
  }

  /** The tree over 2^height leaves. */
  function Tree(pair: (Digest, Digest) -> Digest, leaves: seq<Digest>, height: nat): Digest
    requires 1 <= |leaves| <= PowerOfTwo(height)
    decreases height
  {
    if height == 0 then leaves[0] else
      var half := PowerOfTwo(height - 1);
      pair(Tree(pair, LeftLeaves(leaves, half), height - 1), Tree(pair, RightLeaves(leaves, half), height - 1))
  }

  /** The number of levels above `n` leaves. */
  function Height(n: nat): (h: nat)
    requires n >= 1
    ensures n <= PowerOfTwo(h)
    decreases n
  {
    if n == 1 then 0 else 1 + Height((n + 1) / 2)
  }

  /** One pass of the fold: neighbours are paired, an odd last one with itself. */
  function LevelUp(pair: (Digest, Digest) -> Digest, level: seq<Digest>): (up: seq<Digest>)
    ensures |up| == (|level| + 1) / 2
  {
    if level == [] then []
    else if |level| == 1 then [pair(level[0], level[0])]
    else [pair(level[0], level[1])] + LevelUp(pair, level[2..])
  }

  lemma {:induction false} LevelUpSplit(pair: (Digest, Digest) -> Digest, level: seq<Digest>, m: nat)
    requires 2 * m <= |level|
    ensures LevelUp(pair, level) == LevelUp(pair, level[..2 * m]) + LevelUp(pair, level[2 * m..])
  {
    if m == 0 {
      assert level[0..] == level && level[..0] == [];
    } else {
      LevelUpSplit(pair, level[2..], m - 1);
      assert level[2..][..2 * (m - 1)] == level[..2 * m][2..];
      assert level[2..][2 * (m - 1)..] == level[2 * m..];
    }
  }

  lemma TreeOfHalves(pair: (Digest, Digest) -> Digest, left: seq<Digest>, right: seq<Digest>, height: nat)
    requires |left| == PowerOfTwo(height) && 1 <= |right| <= PowerOfTwo(height)
    ensures |left + right| <= PowerOfTwo(height + 1)
    ensures Tree(pair, left + right, height + 1) == pair(Tree(pair, left, height), Tree(pair, right, height))
  {
    assert (left + right)[..|left|] == left && (left + right)[|left|..] == right;
  }

  lemma TreeOfShort(pair: (Digest, Digest) -> Digest, leaves: seq<Digest>, height: nat)
    requires 1 <= |leaves| <= PowerOfTwo(height)
    ensures |leaves| <= PowerOfTwo(height + 1)
    ensures Tree(pair, leaves, height + 1) == pair(Tree(pair, leaves, height), Tree(pair, leaves, height))
  {
  }

  lemma TreeOfPair(pair: (Digest, Digest) -> Digest, level: seq<Digest>)
    requires 1 <= |level| <= 2
    ensures PowerOfTwo(0) == 1 && PowerOfTwo(1) == 2 && |LevelUp(pair, level)| == 1
    ensures Tree(pair, LevelUp(pair, level), 0) == Tree(pair, level, 1)
  {
    if |level| == 2 { assert LevelUp(pair, level[2..]) == []; }
  }

  /** A pass of the fold takes away one level of the tree. */
  lemma {:induction false} TreeOfLevelUp(pair: (Digest, Digest) -> Digest, level: seq<Digest>, height: nat)
    requires height >= 1 && 1 <= |level| <= PowerOfTwo(height)
    ensures 1 <= |LevelUp(pair, level)| <= PowerOfTwo(height - 1)
    ensures Tree(pair, LevelUp(pair, level), height - 1) == Tree(pair, level, height)
    decreases height
  {
    hide Tree;
    hide LevelUp;
    if height == 1 {
      TreeOfPair(pair, level);
    } else {
      var half, quarter := PowerOfTwo(height - 1), PowerOfTwo(height - 2);
      if |level| <= half {
        TreeOfLevelUp(pair, level, height - 1);
        TreeOfShort(pair, level, height - 1);
        TreeOfShort(pair, LevelUp(pair, level), height - 2);
      } else {
        LevelUpSplit(pair, level, quarter);
        TreeOfLevelUp(pair, level[..half], height - 1);
        TreeOfLevelUp(pair, level[half..], height - 1);
        assert level == level[..half] + level[half..];
        TreeOfHalves(pair, level[..half], level[half..], height - 1);
        TreeOfHalves(pair, LevelUp(pair, level[..half]), LevelUp(pair, level[half..]), height - 2);
      }
    }
  }

  function MerkleRoot(pair: (Digest, Digest) -> Digest, hashes: seq<Digest>): Digest {
    if hashes == [] then NULL_HASH else Tree(pair, hashes, Height(|hashes|))
  }

  method PairUp(pair: (Digest, Digest) -> Digest, level: seq<Digest>) returns (up: seq<Digest>)
    requires |level| % 2 == 0
    ensures up == LevelUp(pair, level)
  {
    up := [];
    var i := 0;
    while i < |level|
      invariant i <= |level| && i % 2 == 0
      invariant up == LevelUp(pair, level[..i])
    {
      up := up + [pair(level[i], level[i + 1])];
      LevelUpSplit(pair, level[..i + 2], i / 2);
      assert level[..i + 2][..i] == level[..i];
      var last := level[..i + 2][i..];
      assert last[2..] == [] && last[0] == level[i] && last[1] == level[i + 1];
      assert LevelUp(pair, last[2..]) == [];
      i := i + 2;
    }
    assert level[..i] == level;
  }

  lemma RootOfLevelUp(pair: (Digest, Digest) -> Digest, level: seq<Digest>)
    requires |level| > 1
    ensures MerkleRoot(pair, LevelUp(pair, level)) == MerkleRoot(pair, level)
  {
    hide Tree;
    hide LevelUp;
    assert Height(|level|) == 1 + Height((|level| + 1) / 2);
    TreeOfLevelUp(pair, level, Height(|level|));
  }

  /** The fold computes the root of the recursive tree. */
  method BuildMerkleTree(pair: (Digest, Digest) -> Digest, hashes: seq<Digest>) returns (root: Digest)
    ensures root == MerkleRoot(pair, hashes)
  {
    if hashes == [] { return NULL_HASH; }
    var merkle := hashes;
    while |merkle| > 1
      invariant |merkle| >= 1
      invariant MerkleRoot(pair, merkle) == MerkleRoot(pair, hashes)
      decreases |merkle|
    {
      RootOfLevelUp(pair, merkle);
      merkle := FoldLevel(pair, merkle);
    }
    return merkle[0];
  }

  method FoldLevel(pair: (Digest, Digest) -> Digest, level: seq<Digest>) returns (up: seq<Digest>)
    ensures up == LevelUp(pair, level)
  {
    var merkle := level;
    if |merkle| % 2 != 0 {
      OddRepeat(pair, merkle);
      merkle := merkle + [merkle[|merkle| - 1]];
    }
    up := PairUp(pair, merkle);
  }

  lemma {:induction false} OddRepeat(pair: (Digest, Digest) -> Digest, level: seq<Digest>)
    requires |level| % 2 == 1
    ensures LevelUp(pair, level + [level[|level| - 1]]) == LevelUp(pair, level)
  {
    var longer := level + [level[|level| - 1]];
    if |level| == 1 {
      assert longer[2..] == [];
      assert LevelUp(pair, longer[2..]) == [];
    } else {
      OddRepeat(pair, level[2..]);
      assert longer[2..] == level[2..] + [level[2..][|level[2..]| - 1]];
    }
  }

  // ---- what the root determines

  /** The pairs hashed while the tree is built. */
  function HashedPairs(pair: (Digest, Digest) -> Digest, leaves: seq<Digest>, height: nat): set<(Digest, Digest)>
    requires 1 <= |leaves| <= PowerOfTwo(height)
    decreases height
  {
    if height == 0 then {} else
      var half := PowerOfTwo(height - 1);
      var left, right := LeftLeaves(leaves, half), RightLeaves(leaves, half);
      {(Tree(pair, left, height - 1), Tree(pair, right, height - 1))}
        + HashedPairs(pair, left, height - 1) + HashedPairs(pair, right, height - 1)
  }

  /** No two of these pairs share a hash. */
  ghost predicate CollisionFree(pair: (Digest, Digest) -> Digest, pairs: set<(Digest, Digest)>) {
    forall p, q | p in pairs && q in pairs && pair(p.0, p.1) == pair(q.0, q.1) :: p == q
  }

  lemma DistinctHalves(a: seq<Digest>, half: nat)
    requires Distinct(a) && half > 0
    ensures Distinct(LeftLeaves(a, half)) && Distinct(RightLeaves(a, half))
    ensures LeftLeaves(a, half) == RightLeaves(a, half) <==> |a| <= half
  {
    if half < |a| { assert a[..half][0] != a[half..][0]; }
  }

  /** A list that repeats its half and one that fills both would agree on two equal halves. */
  lemma SameHalves(a: seq<Digest>, b: seq<Digest>, half: nat)
    requires half > 0 && Distinct(a) && Distinct(b)
    requires LeftLeaves(a, half) == LeftLeaves(b, half) && RightLeaves(a, half) == RightLeaves(b, half)
    ensures a == b
  {
    DistinctHalves(a, half);
    DistinctHalves(b, half);
    hide Distinct;
    if |a| > half {
      assert a == a[..half] + a[half..] && b == b[..half] + b[half..];
    }
  }

  /** Two lists under trees of one height, with one root and no collision below it. */
  ghost predicate OneRoot(pair: (Digest, Digest) -> Digest, a: seq<Digest>, b: seq<Digest>, height: nat) {
    && 1 <= |a| <= PowerOfTwo(height) && 1 <= |b| <= PowerOfTwo(height)
    && CollisionFree(pair, HashedPairs(pair, a, height) + HashedPairs(pair, b, height))
    && Tree(pair, a, height) == Tree(pair, b, height)
  }

  lemma RootPair(pair: (Digest, Digest) -> Digest, a: seq<Digest>, b: seq<Digest>, height: nat)
    requires height > 0 && OneRoot(pair, a, b, height)
    ensures var half := PowerOfTwo(height - 1);
            && OneRoot(pair, LeftLeaves(a, half), LeftLeaves(b, half), height - 1)
            && OneRoot(pair, RightLeaves(a, half), RightLeaves(b, half), height - 1)
  {
    var half := PowerOfTwo(height - 1);
    HalfSizes(a, height);
    HalfSizes(b, height);
    var p := (Tree(pair, LeftLeaves(a, half), height - 1), Tree(pair, RightLeaves(a, half), height - 1));
    var q := (Tree(pair, LeftLeaves(b, half), height - 1), Tree(pair, RightLeaves(b, half), height - 1));
    assert p in HashedPairs(pair, a, height) && q in HashedPairs(pair, b, height);
    hide LeftLeaves;
    hide RightLeaves;
  }

  lemma HalfSizes(a: seq<Digest>, height: nat)
    requires height > 0 && 1 <= |a| <= PowerOfTwo(height)
    ensures var half := PowerOfTwo(height - 1);
            1 <= |LeftLeaves(a, half)| <= half && 1 <= |RightLeaves(a, half)| <= half
  {
  }

  /** Two repeat-free lists under trees of one height, with one root and no collision below it. */
  ghost predicate Matching(pair: (Digest, Digest) -> Digest, a: seq<Digest>, b: seq<Digest>, height: nat) {
    OneRoot(pair, a, b, height) && Distinct(a) && Distinct(b)
  }

  lemma MatchingHalves(pair: (Digest, Digest) -> Digest, a: seq<Digest>, b: seq<Digest>, height: nat)
    requires height > 0 && Matching(pair, a, b, height)
    ensures var half := PowerOfTwo(height - 1);
            && Matching(pair, LeftLeaves(a, half), LeftLeaves(b, half), height - 1)
            && Matching(pair, RightLeaves(a, half), RightLeaves(b, half), height - 1)
            && Distinct(a) && Distinct(b)
  {
    var half := PowerOfTwo(height - 1);
    hide OneRoot;
    hide Distinct;
    hide LeftLeaves;
    hide RightLeaves;
    DistinctHalves(a, half);
    DistinctHalves(b, half);
    RootPair(pair, a, b, height);
  }

  lemma SingleLeaves(pair: (Digest, Digest) -> Digest, a: seq<Digest>, b: seq<Digest>)
    requires Matching(pair, a, b, 0)
    ensures a == b
  {
    hide CollisionFree;
    hide HashedPairs;
    hide Distinct;
    assert a == [a[0]] && b == [b[0]];
  }

  /** Such lists are equal. */
  lemma {:induction false} RootDeterminesLeaves(pair: (Digest, Digest) -> Digest,
                                                a: seq<Digest>, b: seq<Digest>, height: nat)
    requires Matching(pair, a, b, height)
    ensures a == b
    decreases height
  {
    hide *;
    if height > 0 {
      var half := PowerOfTwo(height - 1);
      MatchingHalves(pair, a, b, height);
      RootDeterminesLeaves(pair, LeftLeaves(a, half), LeftLeaves(b, half), height - 1);
      RootDeterminesLeaves(pair, RightLeaves(a, half), RightLeaves(b, half), height - 1);
      SameHalves(a, b, half);
    } else {
      SingleLeaves(pair, a, b);
    }
  }

  /** Equal roots over trees of equal height give equal transaction lists. */
  lemma MerkleRootDetermines(pair: (Digest, Digest) -> Digest, a: seq<Digest>, b: seq<Digest>)
    requires a != [] && b != [] && Height(|a|) == Height(|b|)
    requires Distinct(a) && Distinct(b)
    requires CollisionFree(pair, HashedPairs(pair, a, Height(|a|)) + HashedPairs(pair, b, Height(|b|)))
    requires MerkleRoot(pair, a) == MerkleRoot(pair, b)
    ensures a == b
  {
    RootDeterminesLeaves(pair, a, b, Height(|a|));
  }

  /** Without the repeat check the root is ambiguous: repeating an odd last leaf keeps it. */
  lemma OddRepeatKeepsRoot(pair: (Digest, Digest) -> Digest, hashes: seq<Digest>)
    requires |hashes| % 2 == 1 && |hashes| > 1
    ensures MerkleRoot(pair, hashes + [hashes[|hashes| - 1]]) == MerkleRoot(pair, hashes)
    ensures !Distinct(hashes + [hashes[|hashes| - 1]])
  {
    hide Tree;
    hide LevelUp;
    var n := |hashes|;
    var longer := hashes + [hashes[n - 1]];
    assert Height(n) == 1 + Height((n + 1) / 2) == Height(n + 1);
    TreeOfLevelUp(pair, hashes, Height(n));
    TreeOfLevelUp(pair, longer, Height(n));
    OddRepeat(pair, hashes);
    assert longer[n - 1] == longer[n];
  }

  /** The first trees: the left child is hashed first, and an odd last leaf is paired with itself. */
  lemma SmallTrees(pair: (Digest, Digest) -> Digest, a: Digest, b: Digest, c: Digest, d: Digest)
    ensures MerkleRoot(pair, []) == NULL_HASH && MerkleRoot(pair, [a]) == a && MerkleRoot(pair, [a, b]) == pair(a, b)
    ensures MerkleRoot(pair, [a, b, c]) == pair(pair(a, b), pair(c, c))
    ensures MerkleRoot(pair, [a, b, c, d]) == pair(pair(a, b), pair(c, d))
  {
    assert PowerOfTwo(0) == 1 && PowerOfTwo(1) == 2 && PowerOfTwo(2) == 4;
    assert Height(1) == 0 && Height(2) == 1 && Height(3) == 2 && Height(4) == 2;
    OneLeaf(pair, a);
    OneLeaf(pair, b);
    OneLeaf(pair, c);
    OneLeaf(pair, d);
    TwoLeaves(pair, a, b);
    TwoLeaves(pair, c, d);
    assert [a, b, c][..2] == [a, b] && [a, b, c][2..] == [c];
    assert [a, b, c, d][..2] == [a, b] && [a, b, c, d][2..] == [c, d];
    assert Tree(pair, [c], 1) == pair(c, c);
  }

  lemma OneLeaf(pair: (Digest, Digest) -> Digest, a: Digest)
    ensures Tree(pair, [a], 0) == a
  {
  }

  lemma TwoLeaves(pair: (Digest, Digest) -> Digest, a: Digest, b: Digest)
    ensures PowerOfTwo(1) == 2 && Tree(pair, [a, b], 1) == pair(a, b)
  {
    assert PowerOfTwo(0) == 1 && PowerOfTwo(1) == 2;
    assert [a, b][..1] == [a] && [a, b][1..] == [b];
    OneLeaf(pair, a);
    OneLeaf(pair, b);
  }
}
