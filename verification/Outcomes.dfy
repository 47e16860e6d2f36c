/** What storing a block does, case by case and without reference to the step that does it. */
module Outcomes {
  import opened Types
  import opened Consensus
  import opened ChainKeepers
  import opened Reorganization
  import opened Progress

  /** The pool with a new block: appended, the oldest entry dropped if there was no room. */
  function WithNewest(pool: seq<Block>, b: Block, capacity: nat): seq<Block> {
    if |pool| < capacity then pool + [b] else if capacity == 0 then pool else pool[1..] + [b]
  }

  ghost predicate New(s: Setting, w: World, b: Block) {
    && b in s.universe && s.capacity > 0
    && (forall i | 0 <= i < |w.chain| :: BlockHash(s.r, w.chain[i]) != BlockHash(s.r, b))
    && (forall i | 0 <= i < |w.pool| :: HeaderOf(w.pool[i]) != HeaderOf(b))
  }

  lemma NewIsProcessed(s: Setting, clock: nat -> nat, w: World, b: Block, w': World, notices: seq<Notice>)
    requires SoundHashes(s) && Inv(s, w) && New(s, w, b) && Stored(s, clock, w, b, w', notices)
    ensures var pushed := World(w.chain, WithNewest(w.pool, b, s.capacity));
            Inv(s, pushed) && Processed(s, clock, pushed, b, w', notices) && b in pushed.pool
  {
    hide SoundHashes;
    hide Inv;
    hide Processed;
    assert !HasHash(s.r, w.chain, BlockHash(s.r, b)) && !HasHeader(w.pool, HeaderOf(b));
    PushedWorld(s, w, b);
    assert PushBack(w.pool, b, s.capacity) == WithNewest(w.pool, b, s.capacity);
  }

  // ---- pools with room

  lemma {:induction false} AddAllFits(s: Setting, pool: seq<Block>, blocks: seq<Block>)
    requires |pool| + |blocks| <= s.capacity && Apart(s.r, pool, blocks) && DistinctHashes(s.r, blocks)
    ensures AddAll(pool, blocks, s.capacity) == pool + blocks
  {
    if blocks == [] {
      assert pool + blocks == pool;
    } else {
      var n := |blocks| - 1;
      AddAllFits(s, pool, blocks[..n]);
      var before := pool + blocks[..n];
      forall i | 0 <= i < |before|
        ensures HeaderOf(before[i]) != HeaderOf(blocks[n])
      {
        assert BlockHash(s.r, before[i]) != BlockHash(s.r, blocks[n]);
      }
      assert before + [blocks[n]] == pool + blocks;
    }
  }

  lemma {:induction false} AddAllMembers(pool: seq<Block>, blocks: seq<Block>, capacity: nat, x: Block)
    requires x in AddAll(pool, blocks, capacity)
    ensures x in pool || x in blocks
  {
    if blocks != [] {
      var n := |blocks| - 1;
      var before := AddAll(pool, blocks[..n], capacity);
      if x in before {
        AddAllMembers(pool, blocks[..n], capacity, x);
      } else {
        assert x == blocks[n];
      }
    }
  }

  // ---- the settled branch

  /** What a settled branch leaves: the heavier side wins, ties go to the stored chain. */
  ghost predicate Settled(s: Setting, w: World, branch: seq<Block>, fork: nat, valid: nat, w': World, notices: seq<Notice>)
    requires fork < |w.chain| && valid <= |branch|
  {
    var arrivals, tail := branch[..valid], w.chain[fork + 1..];
    if TotalWork(arrivals) > TotalWork(tail) then
      && notices == [Notice(fork, arrivals, tail)] && w'.chain == w.chain[..fork + 1] + arrivals
      && (forall x | x in w'.pool :: (x in w.pool && x !in branch) || x in tail)
      && (|w.pool| + |tail| <= s.capacity ==> forall x :: x in w'.pool <==> (x in w.pool && x !in branch) || x in tail)
    else
      && notices == [] && w'.chain == w.chain
      && forall x :: x in w'.pool <==> x in w.pool && x !in branch[valid..]
  }

  lemma KeptMembers(pool: seq<Block>, branch: seq<Block>, valid: nat, x: Block)
    requires valid <= |branch|
    ensures x in Without(pool, branch[valid..]) <==> x in pool && x !in branch[valid..]
    ensures x in Without(Without(pool, branch[valid..]), branch[..valid]) <==> x in pool && x !in branch
    ensures |Without(Without(pool, branch[valid..]), branch[..valid])| <= |pool|
  {
    WithoutMember(pool, branch[valid..], x);
    WithoutMember(Without(pool, branch[valid..]), branch[..valid], x);
    assert branch == branch[..valid] + branch[valid..];
  }

  lemma SettleIsSettled(s: Setting, w: World, branch: seq<Block>, fork: nat, valid: nat)
    requires SoundHashes(s) && Inv(s, w) && fork < |w.chain| && valid <= |branch|
    ensures var (w', notices) := Settle(w, s.capacity, fork, branch, valid);
            Settled(s, w, branch, fork, valid, w', notices)
  {
    hide *;
    SettleCases(w, s.capacity, fork, branch, valid);
    HeavierPool(s, w, branch, fork, valid);
    var (w', notices) := Settle(w, s.capacity, fork, branch, valid);
    if TotalWork(branch[..valid]) > TotalWork(w.chain[fork + 1..]) {
      HeavierSettled(s, w, branch, fork, valid, w', notices);
    } else {
      forall x
        ensures x in w'.pool <==> x in w.pool && x !in branch[valid..]
      {
        KeptMembers(w.pool, branch, valid, x);
      }
      LighterSettled(s, w, branch, fork, valid, w', notices);
    }
  }

  lemma SettleCases(w: World, capacity: nat, fork: nat, branch: seq<Block>, valid: nat)
    requires fork < |w.chain| && valid <= |branch|
    ensures var arrivals, tail, kept := branch[..valid], w.chain[fork + 1..], Without(w.pool, branch[valid..]);
            Settle(w, capacity, fork, branch, valid) ==
            if TotalWork(arrivals) > TotalWork(tail)
            then (World(w.chain[..fork + 1] + arrivals, AddAll(Without(kept, arrivals), tail, capacity)), [Notice(fork, arrivals, tail)])
            else (World(w.chain, kept), [])
  {
    hide TotalWork;
    hide AddAll;
    hide Without;
  }

  lemma HeavierSettled(s: Setting, w: World, branch: seq<Block>, fork: nat, valid: nat, w': World, notices: seq<Notice>)
    requires fork < |w.chain| && valid <= |branch| && TotalWork(branch[..valid]) > TotalWork(w.chain[fork + 1..])
    requires notices == [Notice(fork, branch[..valid], w.chain[fork + 1..])]
    requires w'.chain == w.chain[..fork + 1] + branch[..valid]
    requires var tail := w.chain[fork + 1..];
             && (forall x | x in w'.pool :: (x in w.pool && x !in branch) || x in tail)
             && (|w.pool| + |tail| <= s.capacity ==> forall x :: x in w'.pool <==> (x in w.pool && x !in branch) || x in tail)
    ensures Settled(s, w, branch, fork, valid, w', notices)
  {
    hide TotalWork;
  }

  lemma LighterSettled(s: Setting, w: World, branch: seq<Block>, fork: nat, valid: nat, w': World, notices: seq<Notice>)
    requires fork < |w.chain| && valid <= |branch| && TotalWork(branch[..valid]) <= TotalWork(w.chain[fork + 1..])
    requires notices == [] && w'.chain == w.chain
    requires forall x :: x in w'.pool <==> x in w.pool && x !in branch[valid..]
    ensures Settled(s, w, branch, fork, valid, w', notices)
  {
    hide TotalWork;
  }

  lemma HeavierPool(s: Setting, w: World, branch: seq<Block>, fork: nat, valid: nat)
    requires SoundHashes(s) && Inv(s, w) && fork < |w.chain| && valid <= |branch|
    ensures var rest, tail := Without(Without(w.pool, branch[valid..]), branch[..valid]), w.chain[fork + 1..];
            var pool := AddAll(rest, tail, s.capacity);
            && (forall x | x in pool :: (x in w.pool && x !in branch) || x in tail)
            && (|w.pool| + |tail| <= s.capacity ==> forall x :: x in pool <==> (x in w.pool && x !in branch) || x in tail)
  {
    var rest, tail := Without(Without(w.pool, branch[valid..]), branch[..valid]), w.chain[fork + 1..];
    var pool := AddAll(rest, tail, s.capacity);
    forall x
      ensures x in pool ==> (x in w.pool && x !in branch) || x in tail
      ensures x in rest <==> x in w.pool && x !in branch
      ensures |rest| <= |w.pool|
    {
      KeptMembers(w.pool, branch, valid, x);
      if x in pool { AddAllMembers(rest, tail, s.capacity, x); }
    }
    if |w.pool| + |tail| <= s.capacity {
      RoomForAll(s, w, branch, fork, valid);
      hide *;
    }
  }

  lemma RoomForAll(s: Setting, w: World, branch: seq<Block>, fork: nat, valid: nat)
    requires SoundHashes(s) && Inv(s, w) && fork < |w.chain| && valid <= |branch|
    requires |w.pool| + |w.chain[fork + 1..]| <= s.capacity
    ensures var rest, tail := Without(Without(w.pool, branch[valid..]), branch[..valid]), w.chain[fork + 1..];
            AddAll(rest, tail, s.capacity) == rest + tail
  {
    hide AcceptedChain;
    var kept, tail := Without(w.pool, branch[valid..]), w.chain[fork + 1..];
    WithoutKeeps(s, w.pool, branch[valid..]);
    WithoutKeeps(s, kept, branch[..valid]);
    LinkedDistinct(s, w.chain);
    if w.pool != [] { KeptMembers(w.pool, branch, valid, w.pool[0]); }
    hide Linked;
    hide Without;
    var rest := Without(kept, branch[..valid]);
    assert Apart(s.r, rest, w.chain);
    assert Apart(s.r, rest, tail);
    AddAllFits(s, rest, tail);
  }

  // ---- the theorems

  /** A new block whose branch starts at the chain: the valid part of the branch takes over exactly when it
      has more work than the stored blocks past the fork; chain, announcement and pool are then known. */
  lemma HeavierWins(s: Setting, clock: nat -> nat, w: World, b: Block, w': World, notices: seq<Notice>,
                    branch: seq<Block>, fork: nat, valid: nat)
    requires SoundHashes(s) && Inv(s, w) && New(s, w, b) && Stored(s, clock, w, b, w', notices)
    requires Traced(s.r, WithNewest(w.pool, b, s.capacity), b, branch)
    requires fork < |w.chain| && BlockHash(s.r, w.chain[fork]) == branch[0].previous
    requires ValidUpTo(s.r, clock, w.chain, fork, branch, valid)
    ensures valid <= |branch|
    ensures notices != [] <==> TotalWork(branch[..valid]) > TotalWork(w.chain[fork + 1..])
    ensures notices != [] ==>
              && w'.chain == w.chain[..fork + 1] + branch[..valid]
              && notices == [Notice(fork, branch[..valid], w.chain[fork + 1..])]
    ensures notices == [] ==> w'.chain == w.chain
    ensures Settled(s, World(w.chain, WithNewest(w.pool, b, s.capacity)), branch, fork, valid, w', notices)
  {
    var pushed := World(w.chain, WithNewest(w.pool, b, s.capacity));
    assert branch != [] && valid <= |branch|;
    hide SoundHashes;
    hide Inv;
    hide New;
    hide Stored;
    hide Traced;
    hide ValidUpTo;
    hide WithNewest;
    NewIsProcessed(s, clock, w, b, w', notices);
    assert Replaces(s, clock, pushed, branch, fork, valid);
    ProcessedBy(s, clock, pushed, b, branch, fork, valid);
    hide Processed;
    hide Replaces;
    var (w1, n1) := Settle(pushed, s.capacity, fork, branch, valid);
    ProcessedOnce(s, clock, pushed, b, w', notices, w1, n1);
    SettleIsSettled(s, pushed, branch, fork, valid);
    hide Settle;
    hide TotalWork;
  }

  /** A new block whose branch does not reach the chain waits in the pool. */
  lemma UnattachedWaits(s: Setting, clock: nat -> nat, w: World, b: Block, w': World, notices: seq<Notice>, branch: seq<Block>)
    requires SoundHashes(s) && Inv(s, w) && New(s, w, b) && Stored(s, clock, w, b, w', notices)
    requires Traced(s.r, WithNewest(w.pool, b, s.capacity), b, branch)
    requires forall i | 0 <= i < |w.chain| :: BlockHash(s.r, w.chain[i]) != branch[0].previous
    ensures w' == World(w.chain, WithNewest(w.pool, b, s.capacity)) && notices == []
  {
    var pushed := World(w.chain, WithNewest(w.pool, b, s.capacity));
    assert branch != [] && !HasHash(s.r, w.chain, branch[0].previous);
    assert Processed(s, clock, pushed, b, pushed, []);
    hide *;
    NewIsProcessed(s, clock, w, b, w', notices);
    ProcessedOnce(s, clock, pushed, b, w', notices, pushed, []);
  }

  /** A block of the chain, or one whose header is in the pool, changes nothing. */
  lemma KnownIgnored(s: Setting, clock: nat -> nat, w: World, b: Block, w': World, notices: seq<Notice>)
    requires Stored(s, clock, w, b, w', notices)
    requires (exists i | 0 <= i < |w.chain| :: BlockHash(s.r, w.chain[i]) == BlockHash(s.r, b))
             || (exists i | 0 <= i < |w.pool| :: HeaderOf(w.pool[i]) == HeaderOf(b))
    ensures w' == w && notices == []
  {
    hide Processed;
  }
}
