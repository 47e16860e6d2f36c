/** One store has one outcome, and an acceptable block on the tip extends the chain. */
module Progress {
  import opened Types
  import opened Numerals
  import opened BigNumber
  import opened Retarget
  import opened Consensus
  import opened Reorganization
  import opened OrphansPools

  lemma SameHashSameBlock(r: Rules, pool: seq<Block>, a: Block, b: Block)
    requires DistinctHashes(r, pool) && a in pool && b in pool && BlockHash(r, a) == BlockHash(r, b)
    ensures a == b
  {
    var i :| 0 <= i < |pool| && pool[i] == a;
    var j :| 0 <= j < |pool| && pool[j] == b;
    assert i == j;
  }

  lemma ShorterBranch(r: Rules, pool: seq<Block>, b: Block, branch: seq<Block>)
    requires Traced(r, pool, b, branch) && |branch| > 1
    ensures var n := |branch| - 1;
            && branch[n - 1] in pool && BlockHash(r, branch[n - 1]) == b.previous
            && Traced(r, pool, branch[n - 1], branch[..n])
  {
    hide HasHash;
    var n := |branch| - 1;
    assert branch[n].previous == BlockHash(r, branch[n - 1]);
    forall j | 0 < j < n
      ensures branch[..n][j].previous == BlockHash(r, branch[..n][j - 1])
    {
      assert branch[j].previous == BlockHash(r, branch[j - 1]);
    }
  }

  /** A block ends exactly one traced branch. */
  lemma {:induction false} BranchUnique(r: Rules, pool: seq<Block>, b: Block, x: seq<Block>, y: seq<Block>)
    requires DistinctHashes(r, pool) && Traced(r, pool, b, x) && Traced(r, pool, b, y)
    ensures x == y
    decreases |x|
  {
    hide DistinctHashes;
    hide HasHash;
    if |x| > 1 { ShorterBranch(r, pool, b, x); }
    if |y| > 1 { ShorterBranch(r, pool, b, y); }
    hide Linked;
    if |x| > 1 && |y| > 1 {
      var n, m := |x| - 1, |y| - 1;
      SameHashSameBlock(r, pool, x[n - 1], y[m - 1]);
      BranchUnique(r, pool, x[n - 1], x[..n], y[..m]);
      assert x == x[..n] + [b] && y == y[..m] + [b];
    } else if |x| > 1 {
      NotContinued(r, pool, y[0].previous, x[|x| - 2]);
    } else if |y| > 1 {
      NotContinued(r, pool, x[0].previous, y[|y| - 2]);
    }
  }

  lemma NotContinued(r: Rules, pool: seq<Block>, hash: Digest, a: Block)
    requires !HasHash(r, pool, hash) && a in pool
    ensures BlockHash(r, a) != hash
  {
    var i :| 0 <= i < |pool| && pool[i] == a;
  }

  lemma ForkUnique(s: Setting, clock: nat -> nat, w: World, branch: seq<Block>, f: nat, v: nat, g: nat, u: nat)
    requires Acyclic(s) && ChainInv(s, w.chain) && branch != []
    requires Replaces(s, clock, w, branch, f, v) && Replaces(s, clock, w, branch, g, u)
    ensures f == g && v == u
  {
    hide AcceptedChain;
    hide AcceptsAt;
    LinkedDistinct(s, w.chain);
  }

  lemma ProcessedOnce(s: Setting, clock: nat -> nat, w: World, b: Block, w1: World, n1: seq<Notice>, w2: World, n2: seq<Notice>)
    requires SoundHashes(s) && Inv(s, w) && Processed(s, clock, w, b, w1, n1) && Processed(s, clock, w, b, w2, n2)
    ensures w1 == w2 && n1 == n2
  {
    assert ChainInv(s, w.chain) && DistinctHashes(s.r, w.pool);
    hide SoundHashes;
    hide Inv;
    hide ChainInv;
    hide DistinctHashes;
    hide ValidUpTo;
    hide Settle;
    hide HasHash;
    hide Acyclic;
    var x: seq<Block> :| Traced(s.r, w.pool, b, x) &&
      if HasHash(s.r, w.chain, x[0].previous)
      then exists fork: nat, valid: nat | Replaces(s, clock, w, x, fork, valid) ::
             Settle(w, s.capacity, fork, x, valid) == (w1, n1)
      else w1 == w && n1 == [];
    var y: seq<Block> :| Traced(s.r, w.pool, b, y) &&
      if HasHash(s.r, w.chain, y[0].previous)
      then exists fork: nat, valid: nat | Replaces(s, clock, w, y, fork, valid) ::
             Settle(w, s.capacity, fork, y, valid) == (w2, n2)
      else w2 == w && n2 == [];
    BranchUnique(s.r, w.pool, b, x, y);
    if HasHash(s.r, w.chain, x[0].previous) {
      var f: nat, v: nat :| Replaces(s, clock, w, x, f, v) && Settle(w, s.capacity, f, x, v) == (w1, n1);
      var g: nat, u: nat :| Replaces(s, clock, w, y, g, u) && Settle(w, s.capacity, g, y, u) == (w2, n2);
      ForkUnique(s, clock, w, x, f, v, g, u);
    }
  }

  /** Chain, pool and announcements after a store are determined by those before it, the block and the clock. */
  lemma StoredOnce(s: Setting, clock: nat -> nat, w: World, b: Block, w1: World, n1: seq<Notice>, w2: World, n2: seq<Notice>)
    requires SoundHashes(s) && Inv(s, w) && b in s.universe
    requires Stored(s, clock, w, b, w1, n1) && Stored(s, clock, w, b, w2, n2)
    ensures w1 == w2 && n1 == n2
  {
    hide SoundHashes;
    hide Inv;
    hide Processed;
    hide HasHash;
    hide HasHeader;
    if !(HasHash(s.r, w.chain, BlockHash(s.r, b)) || HasHeader(w.pool, HeaderOf(b)) || s.capacity == 0) {
      PushedWorld(s, w, b);
      ProcessedOnce(s, clock, World(w.chain, PushBack(w.pool, b, s.capacity)), b, w1, n1, w2, n2);
    }
  }

  // ---- growing at the tip

  lemma {:induction false} BytePower(n: nat)
    ensures Power(256, n) == PowerOfTwo(8 * n)
  {
    if n > 0 {
      BytePower(n - 1);
      EightDoublings(8 * (n - 1));
    }
  }

  lemma EightDoublings(n: nat)
    ensures PowerOfTwo(n + 8) == 256 * PowerOfTwo(n)
  {
    assert PowerOfTwo(n + 2) == 2 * PowerOfTwo(n + 1) == 4 * PowerOfTwo(n);
    assert PowerOfTwo(n + 4) == 2 * PowerOfTwo(n + 3) == 4 * PowerOfTwo(n + 2);
    assert PowerOfTwo(n + 6) == 2 * PowerOfTwo(n + 5) == 4 * PowerOfTwo(n + 4);
    assert PowerOfTwo(n + 8) == 2 * PowerOfTwo(n + 7) == 4 * PowerOfTwo(n + 6);
  }

  lemma MaxTargetBelow()
    ensures MaxTarget() < PowerOfTwo(256)
  {
    hide *;
    MaxTargetValue();
    BytePower(26);
    EightDoublings(208);
    EightDoublings(216);
    EightDoublings(224);
    EightDoublings(232);
    EightDoublings(240);
    EightDoublings(248);
  }

  /** Every target a proof of work may meet stands for at least one unit of work. */
  lemma WorkIsPositive(hash: Digest, bits: uint32)
    requires ProofOfWork(hash, bits)
    ensures BlockWork(bits) > 0
  {
    MaxTargetBelow();
    TargetOf(hash, bits);
    hide *;
    QuotientPositive(PowerOfTwo(256), SetCompact(bits) + 1);
    WorkOf(bits);
  }

  lemma TargetOf(hash: Digest, bits: uint32)
    requires ProofOfWork(hash, bits)
    ensures 0 < SetCompact(bits) <= MaxTarget()
  {
    hide SetCompact;
    hide SetData;
    hide MaxTarget;
  }

  lemma WorkOf(bits: uint32)
    requires SetCompact(bits) > 0
    ensures BlockWork(bits) == Quotient(PowerOfTwo(256), SetCompact(bits) + 1)
  {
    hide SetCompact;
    hide PowerOfTwo;
    hide Quotient;
  }

  lemma QuotientPositive(a: nat, b: nat)
    requires 0 < b <= a
    ensures Quotient(a, b) > 0
  {
  }

  lemma TipBranch(s: Setting, w: World, b: Block)
    requires SoundHashes(s) && Inv(s, w) && b in s.universe && s.capacity > 0
    requires b.previous == BlockHash(s.r, w.chain[|w.chain| - 1]) && !HasHeader(w.pool, HeaderOf(b))
    ensures !HasHash(s.r, w.chain, BlockHash(s.r, b))
    ensures Traced(s.r, PushBack(w.pool, b, s.capacity), b, [b])
  {
    assert Acyclic(s);
    hide SoundHashes;
    hide AcceptedChain;
    LinkedTip(s, w.chain, b);
    LinkedDistinct(s, w.chain + [b]);
    hide Linked;
    hide Acyclic;
    hide HashesTell;
    TipHash(s.r, w.chain, b);
    hide DistinctHashes;
    OnlyTip(s, w, b);
    hide HasHash;
    assert Linked(s.r, [b]) by { OneLinked(s.r, b); }
  }

  lemma OneLinked(r: Rules, b: Block)
    ensures Linked(r, [b])
  {
  }

  lemma TipHash(r: Rules, chain: seq<Block>, b: Block)
    requires chain != [] && DistinctHashes(r, chain + [b]) && b.previous == BlockHash(r, chain[|chain| - 1])
    ensures BlockHash(r, b) != b.previous && !HasHash(r, chain, BlockHash(r, b))
  {
    var longer := chain + [b];
    forall i | 0 <= i < |chain|
      ensures BlockHash(r, chain[i]) != BlockHash(r, b)
    {
      assert BlockHash(r, longer[i]) != BlockHash(r, longer[|chain|]);
    }
  }

  lemma OnlyTip(s: Setting, w: World, b: Block)
    requires w.chain != [] && Apart(s.r, w.pool, w.chain) && b.previous == BlockHash(s.r, w.chain[|w.chain| - 1])
    requires BlockHash(s.r, b) != b.previous
    ensures !HasHash(s.r, PushBack(w.pool, b, s.capacity), b.previous)
  {
    var pool := PushBack(w.pool, b, s.capacity);
    forall i | 0 <= i < |pool|
      ensures BlockHash(s.r, pool[i]) != b.previous
    {
      if pool[i] != b { assert pool[i] in w.pool; }
    }
  }

  lemma LinkedTip(s: Setting, chain: seq<Block>, b: Block)
    requires chain != [] && Linked(s.r, chain) && Known(s, chain) && b in s.universe
    requires b.previous == BlockHash(s.r, chain[|chain| - 1])
    ensures Linked(s.r, chain + [b]) && Known(s, chain + [b])
  {
  }

  /** A block the checks accept on the tip, and that is not in the pool, becomes the new tip; the rest of
      the pool stays as the buffer leaves it, and observers are told. */
  lemma TipGrows(s: Setting, clock: nat -> nat, w: World, b: Block)
    requires SoundHashes(s) && Inv(s, w) && b in s.universe && s.capacity > 0
    requires b.previous == BlockHash(s.r, w.chain[|w.chain| - 1]) && !HasHeader(w.pool, HeaderOf(b))
    requires Accepts(s.r, clock(0), |w.chain| - 1, w.chain, b)
    ensures Stored(s, clock, w, b, World(w.chain + [b], Without(PushBack(w.pool, b, s.capacity), [b])),
                   [Notice(|w.chain| - 1, [b], [])])
  {
    assert w.chain != [];
    hide SoundHashes;
    hide Inv;
    hide Accepts;
    hide HasHash;
    hide HasHeader;
    TipBranch(s, w, b);
    TipSettles(s, clock, World(w.chain, PushBack(w.pool, b, s.capacity)), b);
  }

  lemma TipSettles(s: Setting, clock: nat -> nat, w: World, b: Block)
    requires w.chain != [] && Traced(s.r, w.pool, b, [b]) && b.previous == BlockHash(s.r, w.chain[|w.chain| - 1])
    requires Accepts(s.r, clock(0), |w.chain| - 1, w.chain, b)
    ensures Processed(s, clock, w, b, World(w.chain + [b], Without(w.pool, [b])), [Notice(|w.chain| - 1, [b], [])])
  {
    hide *;
    AcceptedWork(s.r, clock(0), |w.chain| - 1, w.chain, b);
    TipReplaces(s, clock, w, b);
    TipExchange(w, s.capacity, b);
    ProcessedBy(s, clock, w, b, [b], |w.chain| - 1, 1);
  }

  lemma TipReplaces(s: Setting, clock: nat -> nat, w: World, b: Block)
    requires w.chain != [] && b.previous == BlockHash(s.r, w.chain[|w.chain| - 1])
    requires Accepts(s.r, clock(0), |w.chain| - 1, w.chain, b)
    ensures Replaces(s, clock, w, [b], |w.chain| - 1, 1)
  {
    hide Accepts;
    var fork, branch := |w.chain| - 1, [b];
    assert w.chain[..fork + 1] == w.chain && w.chain + branch[..0] == w.chain;
    assert AcceptsAt(s.r, clock, w.chain, fork, branch, 0);
  }

  lemma TipExchange(w: World, capacity: nat, b: Block)
    requires w.chain != [] && BlockWork(b.bits) > 0
    ensures Settle(w, capacity, |w.chain| - 1, [b], 1)
            == (World(w.chain + [b], Without(w.pool, [b])), [Notice(|w.chain| - 1, [b], [])])
  {
    hide BlockWork;
    WithoutNothing(w.pool);
    hide Without;
    var branch, fork := [b], |w.chain| - 1;
    assert branch[..1] == branch && branch[1..] == [] && branch[..0] == [];
    assert w.chain[..fork + 1] == w.chain && w.chain[fork + 1..] == [];
  }

  lemma AcceptedWork(r: Rules, now: nat, fork: nat, below: seq<Block>, b: Block)
    requires fork < |below| && Accepts(r, now, fork, below, b)
    ensures BlockWork(b.bits) > 0
  {
    hide BlockFollows;
    hide BlockConnects;
    hide TransactionStands;
    hide ProofOfWork;
    WorkIsPositive(BlockHash(r, b), b.bits);
  }
}
