/** One reorganisation step on values: what a stored block does to the main chain and the orphan pool. */
module Reorganization {
  import opened Types
  import opened BigNumber
  import opened Wire
  import opened Consensus
  import opened ChainKeepers
  import opened BlockValidators

  datatype World = World(chain: seq<Block>, pool: seq<Block>)
  datatype Notice = Notice(fork: nat, arrivals: seq<Block>, replaced: seq<Block>)

  /** The surroundings of a run: the rules, the size of the pool, every block the node is ever given,
      and a measure that the hash of a block exceeds its predecessor's by. */
  datatype Setting = Setting(r: Rules, capacity: nat, universe: iset<Block>, rank: Digest -> nat)

  ghost predicate HashesTell(s: Setting) {
    forall a, b | a in s.universe && b in s.universe && BlockHash(s.r, a) == BlockHash(s.r, b) :: HeaderOf(a) == HeaderOf(b)
  }

  ghost predicate Acyclic(s: Setting) {
    forall b | b in s.universe :: s.rank(b.previous) < s.rank(BlockHash(s.r, b))
  }

  /** Every block is in the universe. */
  ghost predicate Known(s: Setting, blocks: seq<Block>) {
    forall i | 0 <= i < |blocks| :: blocks[i] in s.universe
  }

  ghost predicate TransactionsTell(s: Setting) {
    forall chain: seq<Block> | AcceptedChain(s.r, chain) && Linked(s.r, chain) && Known(s, chain) :: DistinctTxs(s.r, chain)
  }

  /** Block hashes do not collide and have no cycles. */
  ghost predicate SoundHashes(s: Setting) {
    HashesTell(s) && Acyclic(s)
  }

  /** What the tables need besides: blocks are well formed, and transaction hashes do not repeat along a
      chain. */
  ghost predicate Sound(s: Setting) {
    && SoundHashes(s) && TransactionsTell(s) && SizeCountsOutputs(s.r)
    && forall b | b in s.universe :: WellFormedBlock(b)
  }

  // ---- the pool

  predicate HasHeader(pool: seq<Block>, header: Header) {
    exists i | 0 <= i < |pool| :: HeaderOf(pool[i]) == header
  }

  /** A full circular buffer drops its oldest entry. */
  function PushBack<T>(pool: seq<T>, x: T, capacity: nat): seq<T> {
    if capacity == 0 then pool
    else if |pool| >= capacity then pool[1..] + [x]
    else pool + [x]
  }

  function AddTo(pool: seq<Block>, b: Block, capacity: nat): seq<Block> {
    if HasHeader(pool, HeaderOf(b)) then pool else PushBack(pool, b, capacity)
  }

  function AddAll(pool: seq<Block>, blocks: seq<Block>, capacity: nat): seq<Block> {
    if blocks == [] then pool
    else AddTo(AddAll(pool, blocks[..|blocks| - 1], capacity), blocks[|blocks| - 1], capacity)
  }

  function Without(pool: seq<Block>, blocks: seq<Block>): seq<Block> {
    if pool == [] then []
    else (if pool[0] in blocks then [] else [pool[0]]) + Without(pool[1..], blocks)
  }

  // ---- one step

  predicate HasHash(r: Rules, blocks: seq<Block>, hash: Digest) {
    exists i | 0 <= i < |blocks| :: BlockHash(r, blocks[i]) == hash
  }

  /** The branch in the pool that ends in the block: linked, and not to be continued downwards. */
  predicate Traced(r: Rules, pool: seq<Block>, b: Block, branch: seq<Block>) {
    && branch != [] && branch[|branch| - 1] == b && Linked(r, branch)
    && (forall j | 0 <= j < |branch| - 1 :: branch[j] in pool)
    && !HasHash(r, pool, branch[0].previous)
  }

  ghost predicate AcceptsAt(r: Rules, clock: nat -> nat, chain: seq<Block>, fork: nat, branch: seq<Block>, j: nat)
    requires fork < |chain| && j < |branch|
  {
    Accepts(r, clock(j), fork, chain[..fork + 1] + branch[..j], branch[j])
  }

  /** The branch is valid up to `valid`, each block on the ones beneath it, and no further. */
  ghost predicate ValidUpTo(r: Rules, clock: nat -> nat, chain: seq<Block>, fork: nat, branch: seq<Block>, valid: nat)
    requires fork < |chain|
  {
    && valid <= |branch|
    && (forall j | 0 <= j < valid :: AcceptsAt(r, clock, chain, fork, branch, j))
    && (valid < |branch| ==> !AcceptsAt(r, clock, chain, fork, branch, valid))
  }

  /** The arrivals take the place of the stored blocks past the fork if they have more work. */
  function Exchange(chain: seq<Block>, pool: seq<Block>, capacity: nat, fork: nat, arrivals: seq<Block>): (World, seq<Notice>)
    requires fork < |chain|
  {
    var tail := chain[fork + 1..];
    if TotalWork(arrivals) <= TotalWork(tail) then (World(chain, pool), [])
    else (World(chain[..fork + 1] + arrivals, AddAll(Without(pool, arrivals), tail, capacity)), [Notice(fork, arrivals, tail)])
  }

  /** `replace_chain`: the invalid tail of the branch leaves the pool, the valid part competes. */
  function Settle(w: World, capacity: nat, fork: nat, branch: seq<Block>, valid: nat): (World, seq<Notice>)
    requires fork < |w.chain| && valid <= |branch|
  {
    Exchange(w.chain, Without(w.pool, branch[valid..]), capacity, fork, branch[..valid])
  }

  ghost predicate Replaces(s: Setting, clock: nat -> nat, w: World, branch: seq<Block>, fork: nat, valid: nat)
    requires branch != []
  {
    && fork < |w.chain| && valid <= |branch| && BlockHash(s.r, w.chain[fork]) == branch[0].previous
    && ValidUpTo(s.r, clock, w.chain, fork, branch, valid)
  }

  /** `process`, for a block that is in the pool. */
  ghost predicate Processed(s: Setting, clock: nat -> nat, w: World, b: Block, w': World, notices: seq<Notice>) {
    exists branch: seq<Block> | Traced(s.r, w.pool, b, branch) ::
      if HasHash(s.r, w.chain, branch[0].previous)
      then exists fork: nat, valid: nat | Replaces(s, clock, w, branch, fork, valid) ::
             Settle(w, s.capacity, fork, branch, valid) == (w', notices)
      else w' == w && notices == []
  }

  /** `do_store`. */
  ghost predicate Stored(s: Setting, clock: nat -> nat, w: World, b: Block, w': World, notices: seq<Notice>) {
    if HasHash(s.r, w.chain, BlockHash(s.r, b)) || HasHeader(w.pool, HeaderOf(b)) || s.capacity == 0
    then w' == w && notices == []
    else Processed(s, clock, World(w.chain, PushBack(w.pool, b, s.capacity)), b, w', notices)
  }

  // ---- what every step keeps

  predicate DistinctHashes(r: Rules, blocks: seq<Block>) {
    forall i, j | 0 <= i < j < |blocks| :: BlockHash(r, blocks[i]) != BlockHash(r, blocks[j])
  }

  predicate Apart(r: Rules, a: seq<Block>, b: seq<Block>) {
    forall i, j | 0 <= i < |a| && 0 <= j < |b| :: BlockHash(r, a[i]) != BlockHash(r, b[j])
  }

  ghost predicate ChainInv(s: Setting, chain: seq<Block>) {
    AcceptedChain(s.r, chain) && Linked(s.r, chain) && Known(s, chain)
  }

  ghost predicate PoolInv(s: Setting, pool: seq<Block>) {
    Known(s, pool) && DistinctHashes(s.r, pool) && |pool| <= s.capacity
  }

  ghost predicate Inv(s: Setting, w: World) {
    ChainInv(s, w.chain) && PoolInv(s, w.pool) && Apart(s.r, w.pool, w.chain)
  }

  lemma {:induction false} LinkedClimbs(s: Setting, blocks: seq<Block>, i: nat, j: nat)
    requires Acyclic(s) && Known(s, blocks) && Linked(s.r, blocks) && i < j < |blocks|
    ensures s.rank(BlockHash(s.r, blocks[i])) < s.rank(BlockHash(s.r, blocks[j]))
    decreases j
  {
    assert blocks[j].previous == BlockHash(s.r, blocks[j - 1]);
    if i < j - 1 { LinkedClimbs(s, blocks, i, j - 1); }
  }

  lemma LinkedDistinct(s: Setting, blocks: seq<Block>)
    requires Acyclic(s) && Known(s, blocks) && Linked(s.r, blocks)
    ensures DistinctHashes(s.r, blocks)
  {
    forall i, j | 0 <= i < j < |blocks|
      ensures BlockHash(s.r, blocks[i]) != BlockHash(s.r, blocks[j])
    {
      LinkedClimbs(s, blocks, i, j);
    }
  }

  /** The new main chain is linked, and each of its blocks was accepted on the ones beneath it. */
  lemma ReplacedChain(s: Setting, clock: nat -> nat, w: World, branch: seq<Block>, fork: nat, valid: nat)
    requires ChainInv(s, w.chain) && Known(s, branch) && branch != [] && Linked(s.r, branch)
    requires Replaces(s, clock, w, branch, fork, valid)
    ensures ChainInv(s, w.chain[..fork + 1] + branch[..valid])
  {
    hide Accepts;
    hide IsGenesis;
    var chain := w.chain[..fork + 1] + branch[..valid];
    assert chain[0] == w.chain[0];
    forall i | 0 < i < |chain|
      ensures chain[i].previous == BlockHash(s.r, chain[i - 1]) && AcceptedOn(s.r, chain[..i], chain[i])
    {
      if i <= fork {
        assert chain[..i] == w.chain[..i];
      } else {
        var j := i - fork - 1;
        assert chain[..i] == w.chain[..fork + 1] + branch[..j];
        assert AcceptsAt(s.r, clock, w.chain, fork, branch, j);
        if j > 0 { assert branch[j].previous == BlockHash(s.r, branch[j - 1]); }
      }
    }
  }

  // ---- pool lemmas

  lemma {:induction false} WithoutMember(pool: seq<Block>, blocks: seq<Block>, b: Block)
    ensures b in Without(pool, blocks) <==> b in pool && b !in blocks
    ensures |Without(pool, blocks)| <= |pool|
  {
    if pool != [] { WithoutMember(pool[1..], blocks, b); }
  }

  lemma {:induction false} WithoutDistinct(r: Rules, pool: seq<Block>, blocks: seq<Block>)
    requires DistinctHashes(r, pool)
    ensures DistinctHashes(r, Without(pool, blocks))
  {
    if pool != [] {
      var rest := Without(pool[1..], blocks);
      WithoutDistinct(r, pool[1..], blocks);
      forall i | 0 <= i < |rest|
        ensures BlockHash(r, rest[i]) != BlockHash(r, pool[0])
      {
        WithoutMember(pool[1..], blocks, rest[i]);
        var j :| 0 <= j < |pool[1..]| && pool[1..][j] == rest[i];
        assert pool[j + 1] == rest[i];
      }
    }
  }

  lemma WithoutKeeps(s: Setting, pool: seq<Block>, blocks: seq<Block>)
    requires PoolInv(s, pool)
    ensures PoolInv(s, Without(pool, blocks))
    ensures forall chain | Apart(s.r, pool, chain) :: Apart(s.r, Without(pool, blocks), chain)
  {
    var kept := Without(pool, blocks);
    WithoutDistinct(s.r, pool, blocks);
    forall i | 0 <= i < |kept|
      ensures kept[i] in pool
    {
      WithoutMember(pool, blocks, kept[i]);
    }
    if pool != [] { WithoutMember(pool, blocks, pool[0]); }
  }

  /** In a pool free of repeated hashes, taking blocks out leaves none with their hashes. */
  lemma WithoutApart(s: Setting, pool: seq<Block>, others: seq<Block>, blocks: seq<Block>)
    requires PoolInv(s, pool) && (forall j | 0 <= j < |blocks| :: blocks[j] in pool)
    ensures Apart(s.r, Without(Without(pool, others), blocks), blocks)
  {
    var rest := Without(Without(pool, others), blocks);
    forall i, j | 0 <= i < |rest| && 0 <= j < |blocks|
      ensures BlockHash(s.r, rest[i]) != BlockHash(s.r, blocks[j])
    {
      WithoutMember(Without(pool, others), blocks, rest[i]);
      WithoutMember(pool, others, rest[i]);
      var a :| 0 <= a < |pool| && pool[a] == rest[i];
      var b :| 0 <= b < |pool| && pool[b] == blocks[j];
      assert a != b;
    }
  }

  lemma PushKeeps(s: Setting, pool: seq<Block>, b: Block)
    requires HashesTell(s) && PoolInv(s, pool) && b in s.universe && !HasHeader(pool, HeaderOf(b))
    ensures PoolInv(s, PushBack(pool, b, s.capacity))
  {
    forall i | 0 <= i < |pool|
      ensures BlockHash(s.r, pool[i]) != BlockHash(s.r, b)
    {
    }
  }

  lemma {:induction false} AddAllKeeps(s: Setting, pool: seq<Block>, blocks: seq<Block>, chain: seq<Block>)
    requires HashesTell(s) && PoolInv(s, pool) && Known(s, blocks)
    requires Apart(s.r, pool, chain) && Apart(s.r, blocks, chain)
    ensures PoolInv(s, AddAll(pool, blocks, s.capacity)) && Apart(s.r, AddAll(pool, blocks, s.capacity), chain)
  {
    if blocks != [] {
      var n := |blocks| - 1;
      var before := AddAll(pool, blocks[..n], s.capacity);
      AddAllKeeps(s, pool, blocks[..n], chain);
      if !HasHeader(before, HeaderOf(blocks[n])) { PushKeeps(s, before, blocks[n]); }
    }
  }

  lemma {:induction false} TotalWorkAppend(a: seq<Block>, b: seq<Block>)
    ensures TotalWork(a + b) == TotalWork(a) + TotalWork(b)
  {
    hide BlockWork;
    if b == [] {
      assert a + b == a;
    } else {
      var n := |b| - 1;
      TotalWorkAppend(a, b[..n]);
      assert (a + b)[..|a + b| - 1] == a + b[..n];
    }
  }

  // ---- the step as a whole

  /** Pool and chain stay apart when they exchange blocks. */
  lemma ExchangeApart(s: Setting, w: World, fork: nat, branch: seq<Block>, valid: nat)
    requires SoundHashes(s) && Inv(s, w) && fork < |w.chain| && valid <= |branch|
    requires forall j | 0 <= j < |branch| :: branch[j] in w.pool
    ensures var next := w.chain[..fork + 1] + branch[..valid];
            var kept := Without(Without(w.pool, branch[valid..]), branch[..valid]);
            PoolInv(s, kept) && Apart(s.r, kept, next) && Apart(s.r, w.chain[fork + 1..], next)
  {
    hide AcceptedChain;
    assert HashesTell(s) && Acyclic(s);
    hide SoundHashes;
    var kept := Without(w.pool, branch[valid..]);
    LinkedDistinct(s, w.chain);
    hide Linked;
    WithoutKeeps(s, w.pool, branch[valid..]);
    WithoutKeeps(s, kept, branch[..valid]);
    assert forall j | 0 <= j < valid :: branch[..valid][j] == branch[j];
    WithoutApart(s, w.pool, branch[valid..], branch[..valid]);
    hide Without;
    forall i, j | fork < i < |w.chain| && 0 <= j < valid
      ensures BlockHash(s.r, w.chain[i]) != BlockHash(s.r, branch[j])
    {
      var b :| 0 <= b < |w.pool| && w.pool[b] == branch[j];
    }
  }

  /** What an observer can tell from the notices of one step. */
  ghost predicate Reported(before: seq<Block>, after: seq<Block>, notices: seq<Notice>) {
    if notices == [] then after == before else
      var n := notices[0];
      && |notices| == 1 && n.fork < |before|
      && before == before[..n.fork + 1] + n.replaced && after == before[..n.fork + 1] + n.arrivals
      && TotalWork(before) < TotalWork(after)
  }

  lemma SettleReports(w: World, capacity: nat, fork: nat, branch: seq<Block>, valid: nat)
    requires fork < |w.chain| && valid <= |branch|
    ensures var (w', notices) := Settle(w, capacity, fork, branch, valid);
            Reported(w.chain, w'.chain, notices)
  {
    hide TotalWork;
    hide AddAll;
    hide Without;
    var left, tail := w.chain[..fork + 1], w.chain[fork + 1..];
    assert w.chain == left + tail;
    TotalWorkAppend(left, tail);
    TotalWorkAppend(left, branch[..valid]);
  }

  lemma SettleKeeps(s: Setting, clock: nat -> nat, w: World, branch: seq<Block>, fork: nat, valid: nat)
    requires SoundHashes(s) && Inv(s, w) && branch != [] && Linked(s.r, branch)
    requires forall j | 0 <= j < |branch| :: branch[j] in w.pool
    requires Replaces(s, clock, w, branch, fork, valid)
    ensures Inv(s, Settle(w, s.capacity, fork, branch, valid).0)
  {
    hide AcceptedChain;
    hide TotalWork;
    hide AddAll;
    hide Without;
    var kept, tail := Without(w.pool, branch[valid..]), w.chain[fork + 1..];
    var next := w.chain[..fork + 1] + branch[..valid];
    WithoutKeeps(s, w.pool, branch[valid..]);
    ReplacedChain(s, clock, w, branch, fork, valid);
    ExchangeApart(s, w, fork, branch, valid);
    hide ValidUpTo;
    hide Linked;
    hide Apart;
    AddAllKeeps(s, Without(kept, branch[..valid]), tail, next);
  }

  lemma ProcessedKeeps(s: Setting, clock: nat -> nat, w: World, b: Block, w': World, notices: seq<Notice>)
    requires SoundHashes(s) && Inv(s, w) && b in w.pool && Processed(s, clock, w, b, w', notices)
    ensures Inv(s, w') && Reported(w.chain, w'.chain, notices)
  {
    hide SoundHashes;
    hide Inv;
    hide ValidUpTo;
    hide Reported;
    hide Settle;
    hide Linked;
    var branch: seq<Block> :| Traced(s.r, w.pool, b, branch) &&
      if HasHash(s.r, w.chain, branch[0].previous)
      then exists fork: nat, valid: nat | Replaces(s, clock, w, branch, fork, valid) ::
             Settle(w, s.capacity, fork, branch, valid) == (w', notices)
      else w' == w && notices == [];
    if HasHash(s.r, w.chain, branch[0].previous) {
      var fork: nat, valid: nat :| Replaces(s, clock, w, branch, fork, valid)
        && Settle(w, s.capacity, fork, branch, valid) == (w', notices);
      SettleKeeps(s, clock, w, branch, fork, valid);
      SettleReports(w, s.capacity, fork, branch, valid);
    } else {
      assert Reported(w.chain, w'.chain, notices) by { NothingReported(w.chain); }
    }
  }

  lemma ProcessedBy(s: Setting, clock: nat -> nat, w: World, b: Block, branch: seq<Block>, fork: nat, valid: nat)
    requires Traced(s.r, w.pool, b, branch) && Replaces(s, clock, w, branch, fork, valid)
    ensures var (w', news) := Settle(w, s.capacity, fork, branch, valid);
            Processed(s, clock, w, b, w', news)
  {
    hide ValidUpTo;
    hide Settle;
    hide Linked;
    assert HasHash(s.r, w.chain, branch[0].previous);
  }

  lemma NothingReported(chain: seq<Block>)
    ensures Reported(chain, chain, [])
  {
  }

  lemma PushedWorld(s: Setting, w: World, b: Block)
    requires SoundHashes(s) && Inv(s, w) && b in s.universe && s.capacity > 0
    requires !HasHash(s.r, w.chain, BlockHash(s.r, b)) && !HasHeader(w.pool, HeaderOf(b))
    ensures Inv(s, World(w.chain, PushBack(w.pool, b, s.capacity)))
    ensures b in PushBack(w.pool, b, s.capacity)
  {
    hide ChainInv;
    PushKeeps(s, w.pool, b);
    hide SoundHashes;
    hide PoolInv;
    assert PushBack(w.pool, b, s.capacity)[|PushBack(w.pool, b, s.capacity)| - 1] == b;
  }

  /** Storing any block keeps the chain linked and accepted, the pool free of repeats and apart from the
      chain; the chain changes only as reported, and then its work grows. */
  lemma StoredKeeps(s: Setting, clock: nat -> nat, w: World, b: Block, w': World, notices: seq<Notice>)
    requires SoundHashes(s) && Inv(s, w) && b in s.universe && Stored(s, clock, w, b, w', notices)
    ensures Inv(s, w') && Reported(w.chain, w'.chain, notices)
  {
    hide SoundHashes;
    hide Inv;
    hide Reported;
    hide Processed;
    hide HasHash;
    hide HasHeader;
    if HasHash(s.r, w.chain, BlockHash(s.r, b)) || HasHeader(w.pool, HeaderOf(b)) || s.capacity == 0 {
      NothingReported(w.chain);
    } else {
      PushedWorld(s, w, b);
      ProcessedKeeps(s, clock, World(w.chain, PushBack(w.pool, b, s.capacity)), b, w', notices);
    }
  }

  // ---- where a block ends up

  /** The new chain does not hold the end of a branch that is cut short. */
  lemma RejectedFromChain(s: Setting, w: World, branch: seq<Block>, fork: nat, valid: nat)
    requires SoundHashes(s) && Inv(s, w) && Linked(s.r, branch) && fork < |w.chain| && valid < |branch|
    requires forall j | 0 <= j < |branch| :: branch[j] in w.pool
    ensures var end := [branch[|branch| - 1]];
            Apart(s.r, w.chain, end) && Apart(s.r, w.chain[..fork + 1] + branch[..valid], end)
  {
    hide AcceptedChain;
    BranchApart(s, branch, valid);
    hide SoundHashes;
    hide Linked;
    hide DistinctHashes;
    var p :| 0 <= p < |w.pool| && w.pool[p] == branch[|branch| - 1];
  }

  /** Nor does the pool, whether or not the valid part changes places with the end of the chain. */
  lemma RejectedFromPool(s: Setting, w: World, branch: seq<Block>, fork: nat, valid: nat)
    requires HashesTell(s) && PoolInv(s, w.pool) && Known(s, w.chain) && fork < |w.chain| && valid < |branch|
    requires branch[|branch| - 1] in w.pool && Apart(s.r, w.chain, [branch[|branch| - 1]])
    ensures var kept, end := Without(w.pool, branch[valid..]), [branch[|branch| - 1]];
            && Apart(s.r, kept, end)
            && Apart(s.r, AddAll(Without(kept, branch[..valid]), w.chain[fork + 1..], s.capacity), end)
  {
    var b, kept, tail := branch[|branch| - 1], Without(w.pool, branch[valid..]), w.chain[fork + 1..];
    KeptApart(s, w.pool, branch[valid..], b);
    WithoutKeeps(s, w.pool, branch[valid..]);
    WithoutKeeps(s, kept, branch[..valid]);
    hide HashesTell;
    hide PoolInv;
    hide Without;
    hide AddAll;
    assert Apart(s.r, tail, [b]);
    hide Apart;
    AddAllKeeps(s, Without(kept, branch[..valid]), tail, [b]);
  }

  /** A block that is cut off with the invalid tail is in neither the chain nor the pool. */
  lemma RejectedGone(s: Setting, w: World, branch: seq<Block>, fork: nat, valid: nat)
    requires SoundHashes(s) && Inv(s, w) && Linked(s.r, branch) && fork < |w.chain| && valid < |branch|
    requires forall j | 0 <= j < |branch| :: branch[j] in w.pool
    ensures var w' := Settle(w, s.capacity, fork, branch, valid).0;
            var end := [branch[|branch| - 1]];
            Apart(s.r, w'.chain, end) && Apart(s.r, w'.pool, end)
  {
    hide AcceptedChain;
    RejectedFromChain(s, w, branch, fork, valid);
    hide Apart;
    hide HashesTell;
    hide PoolInv;
    hide Linked;
    RejectedFromPool(s, w, branch, fork, valid);
    hide Without;
    hide AddAll;
    hide TotalWork;
  }

  lemma GenesisInv(s: Setting, genesis: Block)
    requires IsGenesis(genesis) && genesis in s.universe
    ensures Inv(s, World([genesis], []))
  {
    hide IsGenesis;
  }

  lemma SoundParts(s: Setting)
    requires Sound(s)
    ensures SoundHashes(s)
  {
    hide SoundHashes;
    hide TransactionsTell;
    hide SizeCountsOutputs;
  }

  lemma BranchApart(s: Setting, branch: seq<Block>, valid: nat)
    requires Acyclic(s) && Known(s, branch) && Linked(s.r, branch) && valid < |branch|
    ensures Apart(s.r, branch[..valid], [branch[|branch| - 1]])
  {
    LinkedDistinct(s, branch);
  }

  lemma KeptApart(s: Setting, pool: seq<Block>, blocks: seq<Block>, b: Block)
    requires PoolInv(s, pool) && b in pool && b in blocks
    ensures Apart(s.r, Without(pool, blocks), [b])
  {
    var kept := Without(pool, blocks);
    forall i | 0 <= i < |kept|
      ensures BlockHash(s.r, kept[i]) != BlockHash(s.r, b)
    {
      WithoutMember(pool, blocks, kept[i]);
      var x :| 0 <= x < |pool| && pool[x] == kept[i];
      var y :| 0 <= y < |pool| && pool[y] == b;
      assert x != y;
    }
  }

  // ---- when transaction hashes do not repeat along any chain

  /** No two transactions of the universe share a hash. */
  ghost predicate UniqueTransactions(s: Setting) {
    forall a, b, i, j | a in s.universe && b in s.universe && 0 <= i < |a.transactions| && 0 <= j < |b.transactions|
                     && s.r.txHash(a.transactions[i]) == s.r.txHash(b.transactions[j]) :: a == b && i == j
  }

  lemma {:induction false} PlaceOf(chain: seq<Block>, t: nat) returns (d: nat, i: nat)
    requires t < |AllTxs(chain)|
    ensures d < |chain| && i < |chain[d].transactions| && chain[d].transactions[i] == AllTxs(chain)[t]
  {
    var n := |chain| - 1;
    var m := |AllTxs(chain[..n])|;
    if t < m {
      d, i := PlaceOf(chain[..n], t);
    } else {
      d, i := n, t - m;
    }
  }

  lemma {:induction false} TwoPlaces(chain: seq<Block>, t: nat, u: nat) returns (d: nat, i: nat, d': nat, i': nat)
    requires t < u < |AllTxs(chain)|
    ensures d < |chain| && i < |chain[d].transactions| && chain[d].transactions[i] == AllTxs(chain)[t]
    ensures d' < |chain| && i' < |chain[d'].transactions| && chain[d'].transactions[i'] == AllTxs(chain)[u]
    ensures d != d' || i != i'
  {
    var n := |chain| - 1;
    var m := |AllTxs(chain[..n])|;
    if u < m {
      d, i, d', i' := TwoPlaces(chain[..n], t, u);
    } else {
      d', i' := n, u - m;
      if t < m {
        d, i := PlaceOf(chain[..n], t);
      } else {
        d, i := n, t - m;
      }
    }
  }

  /** Where no two transactions share a hash, none repeats along a linked chain. */
  lemma UniqueTransactionsTell(s: Setting)
    requires Acyclic(s) && UniqueTransactions(s)
    ensures TransactionsTell(s)
  {
    hide AcceptedChain;
    forall chain: seq<Block> | AcceptedChain(s.r, chain) && Linked(s.r, chain) && Known(s, chain)
      ensures DistinctTxs(s.r, chain)
    {
      LinkedDistinct(s, chain);
      UniqueAlong(s, chain);
    }
  }

  lemma UniqueAlong(s: Setting, chain: seq<Block>)
    requires UniqueTransactions(s) && Known(s, chain) && DistinctHashes(s.r, chain)
    ensures DistinctTxs(s.r, chain)
  {
    hide AllTxs;
    var txs := AllTxs(chain);
    forall t, u | 0 <= t < u < |txs|
      ensures s.r.txHash(txs[t]) != s.r.txHash(txs[u])
    {
      var d, i, d', i' := TwoPlaces(chain, t, u);
      assert d != d' ==> BlockHash(s.r, chain[d]) != BlockHash(s.r, chain[d']);
    }
  }
}
