/** `organizer` and `do_store`: a stored block, its branch in the pool, and the main chain in the tables. */
module Organizers {
  import opened Types
  import opened BigNumber
  import opened Wire
  import opened Money
  import opened Consensus
  import opened Supply
  import opened Tables
  import opened ChainKeepers
  import opened BlockValidators
  import opened CleanChains
  import opened Reorganization
  import opened OrphansPools

  class Organizer {
    ghost const s: Setting
    const r: Rules
    const orphans: OrphansPool
    const keeper: ChainKeeper
    var queue: seq<BlockDetail>
    var notices: seq<Notice>
    ghost var chain: seq<Block>

    /** A new blockchain holds the genesis block and nothing else. */
    constructor (ghost s: Setting, r: Rules, capacity: nat, genesis: Block)
      requires Sound(s) && s.r == r && s.capacity == capacity && IsGenesis(genesis) && genesis in s.universe
      ensures Ready() && fresh(orphans) && fresh(keeper) && this.s == s && this.r == r
      ensures Here() == World([genesis], []) && notices == [] && queue == []
    {
      this.s, this.r := s, r;
      orphans := new OrphansPool(capacity);
      keeper := new ChainKeeper(r);
      queue, notices, chain := [], [], [genesis];
      new;
      GenesisInv(s, genesis);
      GenesisClean(s, genesis);
      assert [] + [genesis] == [genesis];
      assert keeper.Keeps([]);
      var _ := keeper.Add(genesis, []);
    }

    /** The main chain behind the tables, and the blocks in the pool. */
    ghost function Here(): World
      reads this, orphans
    {
      World(chain, Actuals(orphans.pool))
    }

    ghost predicate Wired() {
      s.r == r == keeper.r && orphans.capacity == s.capacity && Sound(s)
    }

    lemma WiredParts()
      requires Wired()
      ensures s.r == r == keeper.r && orphans.capacity == s.capacity && Sound(s) && SoundHashes(s)
    {
      hide SoundHashes;
      SoundParts(s);
    }

    // ---- verifying a branch

    method Verify(fork: nat, branch: seq<Block>, index: nat, now: nat) returns (v: Verdict)
      requires Wired() && keeper.Keeps(chain) && ChainInv(s, chain) && fork < |chain| && index < |branch|
      ensures v.Ok? <==> Accepts(r, now, fork, chain[..fork + 1] + branch[..index], branch[index])
    {
      hide StoreOfChain;
      hide Clean;
      hide Accepts;
      hide AcceptedChain;
      hide WellFormedBlock;
      var validator := new BlockValidator(r, keeper.Contents(), fork, branch, index, chain);
      v := validator.Start(now);
    }

    /** The longest valid part of a branch, its work, and why it ends. */
    method VerifyBranch(fork: nat, branch: seq<Block>, clock: nat -> nat) returns (valid: nat, work: nat, reason: Verdict)
      requires Wired() && keeper.Keeps(chain) && ChainInv(s, chain) && fork < |chain|
      ensures ValidUpTo(r, clock, chain, fork, branch, valid)
      ensures work == TotalWork(branch[..valid])
      ensures reason.Ok? <==> valid == |branch|
    {
      hide *;
      valid, work := 0, 0;
      WorkSteps(branch, 0);
      while valid < |branch|
        invariant valid <= |branch| && work == TotalWork(branch[..valid])
        invariant forall j | 0 <= j < valid :: AcceptsAt(r, clock, chain, fork, branch, j)
      {
        reason := Verify(fork, branch, valid, clock(valid));
        AcceptedHere(r, clock, chain, fork, branch, valid, reason);
        if !reason.Ok? {
          ValidParts(r, clock, chain, fork, branch, valid);
          return;
        }
        WorkSteps(branch, valid);
        work := work + BlockWork(branch[valid].bits);
        valid := valid + 1;
      }
      ValidParts(r, clock, chain, fork, branch, valid);
      reason := Ok;
    }

    // ---- the pool and the queue

    method LazyRemove(detail: BlockDetail)
      modifies this`queue, detail`processed
      ensures detail.processed && |queue| <= |old(queue)|
      ensures if detail in old(queue)
              then exists i | 0 <= i < |old(queue)| ::
                     old(queue)[i] == detail && queue == old(queue)[..i] + old(queue)[i + 1..]
              else queue == old(queue)
    {
      var at := 0;
      while at < |queue| && queue[at] != detail
        invariant at <= |queue| && forall j | 0 <= j < at :: queue[j] != detail
      {
        at := at + 1;
      }
      if at < |queue| { queue := queue[..at] + queue[at + 1..]; }
      detail.processed := true;
    }

    method Reject(detail: BlockDetail, reason: Verdict)
      requires !reason.Ok? && DistinctHashes(r, Actuals(orphans.pool)) && detail in orphans.pool
      modifies this`queue, orphans, detail
      ensures |queue| <= |old(queue)|
      ensures Actuals(orphans.pool) == Without(Actuals(old(orphans.pool)), [detail.actual])
      ensures DistinctHashes(r, Actuals(orphans.pool))
      ensures forall d :: d in orphans.pool <==> d in old(orphans.pool) && d != detail
      ensures detail.info == Info(Rejected, 0) && detail.errc == reason && detail.processed
    {
      hide *;
      detail.errc := reason;
      detail.info := Info(Rejected, 0);
      orphans.Remove(detail, r);
      LazyRemove(detail);
    }

    /** `clip_orphans`: the invalid tail of a branch leaves the pool and the queue. */
    method ClipOrphans(branch: seq<BlockDetail>, valid: nat, reason: Verdict)
      requires valid < |branch| && !reason.Ok? && DistinctHashes(r, Actuals(orphans.pool))
      requires Separate(branch) && forall j | valid <= j < |branch| :: branch[j] in orphans.pool
      modifies this`queue, orphans, branch
      ensures |queue| <= |old(queue)|
      ensures Actuals(orphans.pool) == Without(Actuals(old(orphans.pool)), Actuals(branch)[valid..])
      ensures DistinctHashes(r, Actuals(orphans.pool))
      ensures forall d :: d in orphans.pool <==> d in old(orphans.pool) && d !in branch[valid..]
      ensures forall j | valid <= j < |branch| ::
                branch[j].info == Info(Rejected, 0) && branch[j].errc == if j == valid then reason else PreviousBlockInvalid
      ensures forall d | d in old(orphans.pool) && old(d.processed) :: d.processed
    {
      hide Without;
      hide DistinctHashes;
      hide Actuals;
      ghost var before, blocks := Actuals(orphans.pool), Actuals(branch);
      WithoutNothing(before);
      assert blocks[valid..valid] == [];
      var i := valid;
      while i < |branch|
        invariant valid <= i <= |branch| && |queue| <= |old(queue)|
        invariant Actuals(orphans.pool) == Without(before, blocks[valid..i])
        invariant DistinctHashes(r, Actuals(orphans.pool))
        invariant forall d :: d in orphans.pool <==> d in old(orphans.pool) && d !in branch[valid..i]
        invariant forall j | valid <= j < i ::
                    branch[j].info == Info(Rejected, 0) && branch[j].errc == if j == valid then reason else PreviousBlockInvalid
        invariant forall d | d in old(orphans.pool) && old(d.processed) :: d.processed
      {
        SliceGrows(branch, valid, i);
        WithoutTwice(before, blocks[valid..i], [branch[i].actual]);
        Reject(branch[i], if i == valid then reason else PreviousBlockInvalid);
        i := i + 1;
      }
      assert blocks[valid..i] == blocks[valid..] && branch[valid..i] == branch[valid..];
    }

    method Clip(branch: seq<BlockDetail>, valid: nat, reason: Verdict)
      requires valid <= |branch| && (reason.Ok? <==> valid == |branch|) && DistinctHashes(r, Actuals(orphans.pool))
      requires Hashed(r, orphans.pool) && Separate(branch) && forall j | 0 <= j < |branch| :: branch[j] in orphans.pool
      modifies this`queue, orphans, branch
      ensures |queue| <= |old(queue)| && Hashed(r, orphans.pool) && DistinctHashes(r, Actuals(orphans.pool))
      ensures Actuals(orphans.pool) == Without(Actuals(old(orphans.pool)), Actuals(branch)[valid..])
      ensures forall d | d in orphans.pool :: d in old(orphans.pool)
      ensures forall j | 0 <= j < valid :: branch[..valid][j] in orphans.pool
      ensures forall d | d in old(orphans.pool) && old(d.processed) :: d.processed
      ensures forall j | valid <= j < |branch| :: branch[j].info == Info(Rejected, 0) && !branch[j].errc.Ok?
      ensures valid == |branch| ==> forall d | d in branch :: d.info == old(d.info) && d.errc == old(d.errc)
    {
      hide Actuals;
      hide Without;
      hide DistinctHashes;
      hide Hashed;
      if valid < |branch| {
        ClipOrphans(branch, valid, reason);
        StillHashed(r, old(orphans.pool), orphans.pool);
      } else {
        WithoutNothing(Actuals(orphans.pool));
        assert Actuals(branch)[valid..] == [];
      }
    }

    // ---- swapping the end of the chain

    /** The arriving blocks move from the pool to the chain. */
    method Arrive(fork: nat, arrivals: seq<BlockDetail>)
      requires keeper.r == r && keeper.Keeps(chain) && |chain| == fork + 1
      requires Clean(ChainRows(r, 0, chain + Actuals(arrivals))) && fork + |arrivals| < UINT32_MAX
      requires DistinctHashes(r, Actuals(orphans.pool)) && Hashed(r, orphans.pool) && Separate(arrivals)
      requires forall j | 0 <= j < |arrivals| :: arrivals[j] in orphans.pool
      modifies this`chain, orphans, keeper, arrivals`info
      ensures Hashed(r, orphans.pool)
      ensures chain == old(chain) + Actuals(arrivals) && keeper.Keeps(chain)
      ensures Actuals(orphans.pool) == Without(Actuals(old(orphans.pool)), Actuals(arrivals))
      ensures forall d | d in orphans.pool :: d in old(orphans.pool)
      ensures forall j | 0 <= j < |arrivals| :: arrivals[j].info == Info(Confirmed, fork + 1 + j)
    {
      hide Without;
      hide DistinctHashes;
      hide Actuals;
      hide Clean;
      hide ChainRows;
      hide StoreOfChain;
      ghost var before, blocks, base := Actuals(orphans.pool), Actuals(arrivals), chain;
      WithoutNothing(before);
      assert blocks[0..0] == [] && base + blocks[0..0] == base;
      for i := 0 to |arrivals|
        invariant chain == base + blocks[0..i] && keeper.Keeps(chain)
        invariant Actuals(orphans.pool) == Without(before, blocks[0..i])
        invariant DistinctHashes(r, Actuals(orphans.pool))
        invariant forall d :: d in orphans.pool <==> d in old(orphans.pool) && d !in arrivals[0..i]
        invariant forall j | 0 <= j < i :: arrivals[j].info == Info(Confirmed, fork + 1 + j)
      {
        SliceGrows(arrivals, 0, i);
        WithoutTwice(before, blocks[0..i], [arrivals[i].actual]);
        orphans.Remove(arrivals[i], r);
        arrivals[i].info := Info(Confirmed, fork + 1 + i);
        PrefixClean(r, base, blocks, i);
        assert chain + [arrivals[i].actual] == base + blocks[0..i + 1];
        var _ := keeper.Add(arrivals[i].actual, chain);
        chain := chain + [arrivals[i].actual];
      }
      assert blocks[0..|arrivals|] == blocks;
      StillHashed(r, old(orphans.pool), orphans.pool);
    }

    /** The replaced blocks go back to the pool, as processed ones. */
    method Readmit(replaced: seq<Block>)
      requires Hashed(r, orphans.pool)
      modifies orphans
      ensures Actuals(orphans.pool) == AddAll(Actuals(old(orphans.pool)), replaced, orphans.capacity)
      ensures Hashed(r, orphans.pool)
      ensures forall d | d in orphans.pool :: d in old(orphans.pool) || (fresh(d) && d.processed)
    {
      hide AddTo;
      for i := 0 to |replaced|
        invariant Actuals(orphans.pool) == AddAll(Actuals(old(orphans.pool)), replaced[..i], orphans.capacity)
        invariant Hashed(r, orphans.pool)
        invariant forall d | d in orphans.pool :: d in old(orphans.pool) || (fresh(d) && d.processed)
      {
        var detail := new BlockDetail(r, replaced[i]);
        detail.processed := true;
        var _ := orphans.Add(detail);
        assert replaced[..i + 1][..i] == replaced[..i];
      }
      assert replaced[..|replaced|] == replaced;
    }

    method Swap(fork: nat, arrivals: seq<BlockDetail>)
      requires keeper.r == r && keeper.Keeps(chain) && fork < |chain|
      requires forall d | 0 <= d < |chain| :: WellFormedBlock(chain[d])
      requires Clean(ChainRows(r, 0, chain[..fork + 1] + Actuals(arrivals))) && fork + |arrivals| < UINT32_MAX
      requires DistinctHashes(r, Actuals(orphans.pool)) && Hashed(r, orphans.pool) && Separate(arrivals)
      requires forall j | 0 <= j < |arrivals| :: arrivals[j] in orphans.pool
      modifies this`chain, this`notices, orphans, keeper, arrivals`info
      ensures keeper.Keeps(chain) && Hashed(r, orphans.pool)
      ensures chain == old(chain)[..fork + 1] + Actuals(arrivals)
      ensures Actuals(orphans.pool)
              == AddAll(Without(Actuals(old(orphans.pool)), Actuals(arrivals)), old(chain)[fork + 1..], orphans.capacity)
      ensures notices == old(notices) + [Notice(fork, Actuals(arrivals), old(chain)[fork + 1..])]
      ensures forall d | d in orphans.pool :: d in old(orphans.pool) || (fresh(d) && d.processed)
      ensures forall j | 0 <= j < |arrivals| :: arrivals[j].info == Info(Confirmed, fork + 1 + j)
    {
      hide *;
      var _, replaced := keeper.EndSlice(fork + 1, chain);
      chain := chain[..fork + 1];
      Arrive(fork, arrivals);
      Readmit(replaced);
      notices := notices + [Notice(fork, Actuals(arrivals), replaced)];
    }

    /** The arrivals take over only if they bring more work. */
    method SwapIfHeavier(fork: nat, arrivals: seq<BlockDetail>, work: nat) returns (ghost news: seq<Notice>)
      requires keeper.r == r && keeper.Keeps(chain) && fork < |chain| && work == TotalWork(Actuals(arrivals))
      requires forall d | 0 <= d < |chain| :: WellFormedBlock(chain[d])
      requires Clean(ChainRows(r, 0, chain[..fork + 1] + Actuals(arrivals))) && fork + |arrivals| < UINT32_MAX
      requires DistinctHashes(r, Actuals(orphans.pool)) && Hashed(r, orphans.pool) && Separate(arrivals)
      requires forall j | 0 <= j < |arrivals| :: arrivals[j] in orphans.pool
      modifies this`chain, this`notices, orphans, keeper, arrivals`info
      ensures keeper.Keeps(chain) && Hashed(r, orphans.pool) && notices == old(notices) + news
      ensures (World(chain, Actuals(orphans.pool)), news)
              == Exchange(old(chain), Actuals(old(orphans.pool)), orphans.capacity, fork, Actuals(arrivals))
      ensures forall d | d in orphans.pool :: d in old(orphans.pool) || (fresh(d) && d.processed)
      ensures forall j | 0 <= j < |arrivals| ::
                arrivals[j].info == if news == [] then old(arrivals[j].info) else Info(Confirmed, fork + 1 + j)
    {
      hide Actuals;
      hide Hashed;
      hide DistinctHashes;
      hide Clean;
      hide Separate;
      hide TotalWork;
      hide WellFormedBlock;
      hide ChainRows;
      hide Without;
      hide AddAll;
      var mainWork := keeper.EndSliceDifficulty(fork + 1, chain);
      if work <= mainWork { return []; }
      news := [Notice(fork, Actuals(arrivals), chain[fork + 1..])];
      Swap(fork, arrivals);
    }

    /** The second half of `replace_chain`, once the valid part of the branch is known. */
    method SettleBranch(fork: nat, branch: seq<BlockDetail>, valid: nat, work: nat, reason: Verdict)
      returns (ghost news: seq<Notice>)
      requires keeper.r == r && keeper.Keeps(chain) && Hashed(r, orphans.pool) && DistinctHashes(r, Actuals(orphans.pool))
      requires fork < |chain| && valid <= |branch| && work == TotalWork(Actuals(branch)[..valid])
      requires branch != [] && (reason.Ok? <==> valid == |branch|)
      requires forall d | 0 <= d < |chain| :: WellFormedBlock(chain[d])
      requires Clean(ChainRows(r, 0, chain[..fork + 1] + Actuals(branch)[..valid])) && fork + valid < UINT32_MAX
      requires Separate(branch) && forall j | 0 <= j < |branch| :: branch[j] in orphans.pool
      modifies this, orphans, keeper, branch
      ensures keeper.Keeps(chain) && Hashed(r, orphans.pool)
      ensures |queue| <= |old(queue)| && notices == old(notices) + news
      ensures Settle(World(old(chain), Actuals(old(orphans.pool))), orphans.capacity, fork, Actuals(branch), valid)
              == (World(chain, Actuals(orphans.pool)), news)
      ensures forall d | d in old(orphans.pool) && old(d.processed) :: d.processed
      ensures forall d | d in orphans.pool :: d in old(orphans.pool) || (fresh(d) && d.processed)
      ensures valid < |branch| ==> branch[|branch| - 1].info == Info(Rejected, 0) && !branch[|branch| - 1].errc.Ok?
      ensures valid == |branch| ==>
                && branch[|branch| - 1].errc == old(branch[|branch| - 1].errc)
                && branch[|branch| - 1].info
                   == if news == [] then old(branch[|branch| - 1].info) else Info(Confirmed, fork + |branch|)
    {
      hide *;
      FrontActuals(branch, valid);
      SettleUnfolds(chain, Actuals(orphans.pool), orphans.capacity, fork, Actuals(branch), valid);
      Clip(branch, valid, reason);
      news := SwapIfHeavier(fork, branch[..valid], work);
    }

    /** `replace_chain`. */
    method ReplaceChain(fork: nat, branch: seq<BlockDetail>, clock: nat -> nat)
      returns (ghost valid: nat, ghost news: seq<Notice>)
      requires Wired() && keeper.Keeps(chain) && Hashed(r, orphans.pool) && Inv(s, World(chain, Actuals(orphans.pool)))
      requires fork < |chain| && branch != [] && Linked(r, Actuals(branch))
      requires BlockHash(r, chain[fork]) == branch[0].actual.previous
      requires forall j | 0 <= j < |branch| :: branch[j] in orphans.pool
      modifies this, orphans, keeper, branch
      ensures keeper.Keeps(chain) && Hashed(r, orphans.pool)
      ensures |queue| <= |old(queue)| && notices == old(notices) + news
      ensures Replaces(s, clock, World(old(chain), Actuals(old(orphans.pool))), Actuals(branch), fork, valid)
      ensures Settle(World(old(chain), Actuals(old(orphans.pool))), s.capacity, fork, Actuals(branch), valid)
              == (World(chain, Actuals(orphans.pool)), news)
      ensures forall d | d in old(orphans.pool) && old(d.processed) :: d.processed
      ensures forall d | d in orphans.pool :: d in old(orphans.pool) || (fresh(d) && d.processed)
      ensures valid < |branch| ==> branch[|branch| - 1].info == Info(Rejected, 0) && !branch[|branch| - 1].errc.Ok?
      ensures valid == |branch| ==>
                && branch[|branch| - 1].errc == old(branch[|branch| - 1].errc)
                && branch[|branch| - 1].info
                   == if news == [] then old(branch[|branch| - 1].info) else Info(Confirmed, fork + |branch|)
    {
      ghost var w := World(chain, Actuals(orphans.pool));
      hide *;
      WiredParts();
      BranchFacts(s, w, orphans.pool, branch);
      InvParts(s, w);
      var count, work, reason := VerifyBranch(fork, Actuals(branch), clock);
      valid := count;
      SettleFacts(s, clock, w, Actuals(branch), fork, valid);
      news := SettleBranch(fork, branch, count, work, reason);
    }

    // ---- processing

    /** The details are a branch of the pool that starts at a block of the main chain. */
    ghost predicate Forked(branch: seq<BlockDetail>, fork: nat)
      reads this`chain, orphans
    {
      && fork < |chain| && branch != [] && Linked(r, Actuals(branch))
      && BlockHash(r, chain[fork]) == branch[0].actual.previous
      && (forall j | 0 <= j < |branch| :: branch[j] in orphans.pool)
      && branch[|branch| - 1].actual in Actuals(orphans.pool)
      && Traced(s.r, Actuals(orphans.pool), branch[|branch| - 1].actual, Actuals(branch))
    }

    lemma ForkedParts(branch: seq<BlockDetail>, fork: nat)
      requires Forked(branch, fork)
      ensures fork < |chain| && branch != [] && Linked(r, Actuals(branch))
      ensures BlockHash(r, chain[fork]) == branch[0].actual.previous
      ensures forall j | 0 <= j < |branch| :: branch[j] in orphans.pool
      ensures branch[|branch| - 1].actual in Actuals(orphans.pool)
      ensures Traced(s.r, Actuals(orphans.pool), branch[|branch| - 1].actual, Actuals(branch))
    {
      hide Linked;
      hide Traced;
      hide Actuals;
      hide BlockHash;
    }

    /** A branch that starts at the main chain. */
    method ProcessBranch(fork: nat, branch: seq<BlockDetail>, clock: nat -> nat) returns (ghost news: seq<Notice>)
      requires Wired() && keeper.Keeps(chain) && Hashed(r, orphans.pool) && Inv(s, World(chain, Actuals(orphans.pool)))
      requires branch != [] && Forked(branch, fork)
      requires branch[|branch| - 1].info == Info(Orphan, 0) && branch[|branch| - 1].errc.Ok?
      modifies this, orphans, keeper, orphans.pool
      ensures keeper.Keeps(chain) && Hashed(r, orphans.pool) && Inv(s, World(chain, Actuals(orphans.pool)))
      ensures |queue| <= |old(queue)| && notices == old(notices) + news
      ensures Processed(s, clock, World(old(chain), Actuals(old(orphans.pool))), branch[|branch| - 1].actual,
                        World(chain, Actuals(orphans.pool)), news)
      ensures Tells(s.r, World(chain, Actuals(orphans.pool)), branch[|branch| - 1].actual,
                    branch[|branch| - 1].errc, branch[|branch| - 1].info)
      ensures forall d | d in old(orphans.pool) && old(d.processed) :: d.processed
      ensures forall d | d in orphans.pool :: d in old(orphans.pool) || (fresh(d) && d.processed)
    {
      ghost var w := World(chain, Actuals(orphans.pool));
      hide *;
      WiredParts();
      ForkedParts(branch, fork);
      ghost var valid;
      valid, news := ReplaceChain(fork, branch, clock);
      ghost var end := branch[|branch| - 1];
      MovedOn(s, clock, w, Actuals(branch), fork, valid, end.actual, World(chain, Actuals(orphans.pool)), news,
              end.errc, end.info);
    }

    /** The branch that ends in a block of the pool, and where it starts. */
    method TraceBranch(detail: BlockDetail, ghost clock: nat -> nat) returns (branch: seq<BlockDetail>, fork: int)
      requires Wired() && keeper.Keeps(chain) && Hashed(r, orphans.pool) && Inv(s, World(chain, Actuals(orphans.pool)))
      requires detail in orphans.pool && detail.info == Info(Orphan, 0) && detail.errc.Ok?
      ensures branch != [] && branch[|branch| - 1] == detail && fork >= -1
      ensures fork >= 0 ==> Forked(branch, fork)
      ensures fork == -1 ==>
                var w := World(chain, Actuals(orphans.pool));
                Processed(s, clock, w, detail.actual, w, []) && Tells(s.r, w, detail.actual, detail.errc, detail.info)
    {
      ghost var w := World(chain, Actuals(orphans.pool));
      hide *;
      WiredParts();
      TraceReady(s, w, orphans.pool, detail);
      branch := orphans.Trace(detail, s);
      BranchInPool(s, w, orphans.pool, branch, detail);
      fork := keeper.FindIndex(branch[0].actual.previous, chain);
      if fork == -1 {
        StayedPut(s, clock, w, Actuals(branch), detail.actual, detail.errc, detail.info);
      } else {
        NowForked(branch, fork);
      }
    }

    lemma NowForked(branch: seq<BlockDetail>, fork: nat)
      requires fork < |chain| && branch != [] && Linked(r, Actuals(branch))
      requires BlockHash(r, chain[fork]) == branch[0].actual.previous
      requires forall j | 0 <= j < |branch| :: branch[j] in orphans.pool
      requires branch[|branch| - 1].actual in Actuals(orphans.pool)
      requires Traced(s.r, Actuals(orphans.pool), branch[|branch| - 1].actual, Actuals(branch))
      ensures Forked(branch, fork)
    {
      hide Linked;
      hide Traced;
      hide Actuals;
      hide BlockHash;
    }

    /** Settles the branch that ends in the block, if it starts at the main chain. */
    method Reconsider(detail: BlockDetail, clock: nat -> nat) returns (ghost news: seq<Notice>)
      requires Wired() && keeper.Keeps(chain) && Hashed(r, orphans.pool) && Inv(s, World(chain, Actuals(orphans.pool)))
      requires detail in orphans.pool && detail.info == Info(Orphan, 0) && detail.errc.Ok?
      modifies this, orphans, keeper, orphans.pool
      ensures keeper.Keeps(chain) && Hashed(r, orphans.pool) && Inv(s, World(chain, Actuals(orphans.pool)))
      ensures |queue| <= |old(queue)| && notices == old(notices) + news
      ensures Processed(s, clock, World(old(chain), Actuals(old(orphans.pool))), detail.actual,
                        World(chain, Actuals(orphans.pool)), news)
      ensures Tells(s.r, World(chain, Actuals(orphans.pool)), detail.actual, detail.errc, detail.info)
      ensures forall d | d in old(orphans.pool) && old(d.processed) :: d.processed
      ensures forall d | d in orphans.pool :: d in old(orphans.pool) || (fresh(d) && d.processed)
    {
      hide *;
      var branch, fork := TraceBranch(detail, clock);
      if fork == -1 { return []; }
      news := ProcessBranch(fork, branch, clock);
    }

    /** `process`. */
    method Process(detail: BlockDetail, clock: nat -> nat) returns (ghost news: seq<Notice>)
      requires Wired() && keeper.Keeps(chain) && Hashed(r, orphans.pool) && Inv(s, World(chain, Actuals(orphans.pool)))
      requires detail in orphans.pool && detail.info == Info(Orphan, 0) && detail.errc.Ok?
      modifies this, orphans, keeper, orphans.pool
      ensures keeper.Keeps(chain) && Hashed(r, orphans.pool) && Inv(s, World(chain, Actuals(orphans.pool)))
      ensures |queue| <= |old(queue)| && notices == old(notices) + news
      ensures Processed(s, clock, World(old(chain), Actuals(old(orphans.pool))), detail.actual,
                        World(chain, Actuals(orphans.pool)), news)
      ensures Tells(s.r, World(chain, Actuals(orphans.pool)), detail.actual, detail.errc, detail.info)
      ensures detail.processed && forall d | d in old(orphans.pool) && old(d.processed) :: d.processed
      ensures forall d | d in orphans.pool :: d in old(orphans.pool) || (fresh(d) && d.processed)
    {
      hide *;
      news := Reconsider(detail, clock);
      detail.MarkProcessed();
    }

    /** Everything is as given, and the detail alone waits to be processed. */
    ghost predicate Poised(w: World, told: seq<Notice>, detail: BlockDetail)
      reads this`chain, this`notices, orphans, keeper, orphans.pool, detail
    {
      && keeper.Keeps(chain) && Hashed(r, orphans.pool) && Inv(s, w) && w == World(chain, Actuals(orphans.pool))
      && notices == told && detail in orphans.pool && detail.info == Info(Orphan, 0) && detail.errc.Ok?
      && forall d | d in orphans.pool :: d.processed || d == detail
    }

    /** The detail has been processed, starting from the given world. */
    ghost predicate Settled(clock: nat -> nat, w: World, told: seq<Notice>, detail: BlockDetail, news: seq<Notice>)
      reads this`chain, this`notices, orphans, keeper, orphans.pool, detail
    {
      var w' := World(chain, Actuals(orphans.pool));
      && keeper.Keeps(chain) && Hashed(r, orphans.pool) && Inv(s, w') && notices == told + news
      && Processed(s, clock, w, detail.actual, w', news) && Tells(s.r, w', detail.actual, detail.errc, detail.info)
      && forall d | d in orphans.pool :: d.processed
    }

    method ProcessOnly(detail: BlockDetail, clock: nat -> nat, ghost w: World, ghost told: seq<Notice>)
      returns (ghost news: seq<Notice>)
      requires Wired() && Poised(w, told, detail)
      modifies this, orphans, keeper, orphans.pool
      ensures Settled(clock, w, told, detail, news) && |queue| <= |old(queue)|
      ensures forall d | d in orphans.pool :: d in old(orphans.pool) || fresh(d)
    {
      hide Inv;
      hide Hashed;
      hide Processed;
      hide Tells;
      hide Wired;
      news := Process(detail, clock);
    }

    /** Everything is as given, and nothing waits to be processed. */
    ghost predicate Quiet(w: World, told: seq<Notice>)
      reads this`chain, this`notices, orphans, keeper, orphans.pool
    {
      && keeper.Keeps(chain) && Hashed(r, orphans.pool) && Inv(s, w) && w == World(chain, Actuals(orphans.pool))
      && notices == told && forall d | d in orphans.pool :: d.processed
    }

    /** The loop of `start`. */
    method Drain(clock: nat -> nat, ghost detail: BlockDetail, ghost w: World, ghost told: seq<Notice>)
      returns (ghost news: seq<Notice>)
      requires Wired() && queue == [detail] && Poised(w, told, detail)
      modifies this, orphans, keeper, orphans.pool
      ensures queue == [] && Settled(clock, w, told, detail, news)
      ensures forall d | d in orphans.pool :: d in old(orphans.pool) || fresh(d)
    {
      hide *;
      news := [];
      while queue != []
        invariant |queue| <= 1
        invariant queue != [] ==> queue == [detail] && orphans.pool == old(orphans.pool)
        invariant if queue != [] then Poised(w, told, detail) else Settled(clock, w, told, detail, news)
        invariant forall d | d in orphans.pool :: d in old(orphans.pool) || fresh(d)
      {
        var next := queue[|queue| - 1];
        queue := queue[..|queue| - 1];
        news := ProcessOnly(next, clock, w, told);
      }
    }

    /** `start`: processes the blocks not processed yet, of which a store leaves at most one. */
    method Start(clock: nat -> nat, ghost detail: BlockDetail, ghost w: World, ghost told: seq<Notice>)
      returns (ghost news: seq<Notice>)
      requires Wired()
      requires (Pending(orphans.pool) == [] && Quiet(w, told)) || (Pending(orphans.pool) == [detail] && Poised(w, told, detail))
      modifies this, orphans, keeper, orphans.pool
      ensures queue == []
      ensures if old(Pending(orphans.pool)) == []
              then Quiet(w, told) && news == [] && detail.info == old(detail.info) && detail.errc == old(detail.errc)
              else Settled(clock, w, told, detail, news)
      ensures forall d | d in orphans.pool :: d in old(orphans.pool) || fresh(d)
    {
      hide *;
      OneReversed(detail);
      news := [];
      queue := orphans.Unprocessed();
      if queue != [] { news := Drain(clock, detail, w, told); }
    }

    // ---- do_store

    /** `Quiet` for the details that were in the pool. */
    ghost predicate QuietBefore(w: World, told: seq<Notice>, before: seq<BlockDetail>)
      reads this`chain, this`notices, keeper, before
    {
      && keeper.Keeps(chain) && Hashed(r, before) && Inv(s, w) && w == World(chain, Actuals(before))
      && notices == told && forall d | d in before :: d.processed
    }

    lemma QuietNow(w: World, told: seq<Notice>)
      ensures Quiet(w, told) == QuietBefore(w, told, orphans.pool)
      ensures Quiet(w, told) ==> w == World(chain, Actuals(orphans.pool)) && Pending(orphans.pool) == []
    {
      hide Inv;
      hide Hashed;
      hide Pending;
      if Quiet(w, told) { PendingNone(orphans.pool); }
    }

    lemma NowPoised(w: World, told: seq<Notice>, detail: BlockDetail, before: seq<BlockDetail>)
      requires Wired() && QuietBefore(w, told, before)
      requires detail.actual in s.universe && detail.hash == BlockHash(r, detail.actual)
      requires !detail.processed && detail.info == Info(Orphan, 0) && detail.errc.Ok? && s.capacity > 0
      requires !HasHash(s.r, w.chain, BlockHash(s.r, detail.actual)) && !HasHeader(w.pool, HeaderOf(detail.actual))
      requires orphans.pool == PushBack(before, detail, s.capacity)
      requires Actuals(orphans.pool) == AddTo(Actuals(before), detail.actual, s.capacity)
      ensures Pending(orphans.pool) == [detail]
      ensures Poised(World(w.chain, PushBack(w.pool, detail.actual, s.capacity)), told, detail)
      ensures forall d | d in orphans.pool :: d in before || d == detail
    {
      WiredParts();
      hide Inv;
      hide Sound;
      hide SoundHashes;
      hide HasHash;
      hide HasHeader;
      hide Hashed;
      hide Actuals;
      hide PushBack;
      hide AddTo;
      hide Pending;
      EnteredDetails(r, before, detail, s.capacity);
      EnteredWorld(s, w, detail.actual);
    }

    /** The block goes into the pool, unless it is there already or nothing fits. */
    method Enter(detail: BlockDetail, ghost w: World, ghost told: seq<Notice>) returns (added: bool, ghost next: World)
      requires Wired() && Quiet(w, told) && detail.actual in s.universe && detail.hash == BlockHash(r, detail.actual)
      requires !detail.processed && detail.info == Info(Orphan, 0) && detail.errc.Ok?
      requires !HasHash(s.r, w.chain, BlockHash(s.r, detail.actual))
      modifies orphans
      ensures added <==> !HasHeader(w.pool, HeaderOf(detail.actual))
      ensures if added && s.capacity > 0
              then Pending(orphans.pool) == [detail] && Poised(next, told, detail)
                   && next == World(w.chain, PushBack(w.pool, detail.actual, s.capacity))
              else Pending(orphans.pool) == [] && Quiet(w, told) && next == w
      ensures forall d | d in orphans.pool :: d in old(orphans.pool) || d == detail
    {
      hide *;
      WiredParts();
      QuietNow(w, told);
      ghost var before := orphans.pool;
      added := orphans.Add(detail);
      if added && s.capacity > 0 {
        NowPoised(w, told, detail, before);
        next := World(w.chain, PushBack(w.pool, detail.actual, s.capacity));
      } else {
        NotEntered(before, detail, s.capacity);
        QuietNow(w, told);
        next := w;
      }
    }

    ghost predicate Ready()
      reads this, orphans, keeper, orphans.pool
    {
      Wired() && Quiet(Here(), notices)
    }

    method StoreDetail(detail: BlockDetail, clock: nat -> nat, ghost w: World, ghost told: seq<Notice>)
      returns (replies: seq<(Verdict, Info)>, ghost news: seq<Notice>)
      requires Wired() && Quiet(w, told) && detail.actual in s.universe && detail.hash == BlockHash(r, detail.actual)
      requires !detail.processed && detail.info == Info(Orphan, 0) && detail.errc.Ok?
      requires !HasHash(s.r, w.chain, BlockHash(s.r, detail.actual))
      modifies this, orphans, keeper, orphans.pool, detail
      ensures Quiet(World(chain, Actuals(orphans.pool)), told + news)
      ensures Stored(s, clock, w, detail.actual, World(chain, Actuals(orphans.pool)), news)
      ensures Answered(s.r, s.capacity, w, World(chain, Actuals(orphans.pool)), detail.actual, replies)
      ensures forall d | d in orphans.pool :: d in old(orphans.pool) || d == detail || fresh(d)
    {
      hide *;
      var added;
      ghost var next;
      ghost var b := detail.actual;
      added, next := Enter(detail, w, told);
      assert forall i | 0 <= i < |orphans.pool| :: orphans.pool[i] in old(orphans.pool) || orphans.pool[i] == detail;
      replies := if added then [] else [(Duplicate, Info(Orphan, 0))];
      news := Start(clock, detail, next, told);
      replies := replies + [(detail.errc, detail.info)];
      if added && s.capacity > 0 {
        SettledQuiet(clock, next, told, detail, news);
        StoredNew(s, clock, w, b, World(chain, Actuals(orphans.pool)), news, replies);
      } else {
        QuietNow(w, told);
        assert told + news == told;
        StoredNothing(s, clock, w, b, replies);
      }
    }

    lemma SettledQuiet(clock: nat -> nat, w: World, told: seq<Notice>, detail: BlockDetail, news: seq<Notice>)
      requires Settled(clock, w, told, detail, news)
      ensures var w' := World(chain, Actuals(orphans.pool));
              && Quiet(w', told + news) && Processed(s, clock, w, detail.actual, w', news)
              && Tells(s.r, w', detail.actual, detail.errc, detail.info)
    {
      hide Inv;
      hide Hashed;
      hide Processed;
      hide Tells;
    }

    /** `do_store`, with every call of the handler. A second copy of an orphan is answered twice. */
    method DoStore(b: Block, clock: nat -> nat) returns (replies: seq<(Verdict, Info)>, ghost news: seq<Notice>)
      requires Ready() && b in s.universe
      modifies this, orphans, keeper, orphans.pool
      ensures Ready() && Stored(s, clock, old(Here()), b, Here(), news) && notices == old(notices) + news
      ensures Answered(s.r, s.capacity, old(Here()), Here(), b, replies)
      ensures forall d | d in orphans.pool :: d in old(orphans.pool) || fresh(d)
    {
      hide Inv;
      hide Hashed;
      hide Sound;
      hide Actuals;
      var detail := new BlockDetail(r, b);
      var depth := keeper.FindIndex(detail.hash, chain);
      if depth != -1 {
        assert HasHash(s.r, chain, BlockHash(s.r, b));
        return [(Duplicate, Info(Confirmed, depth))], [];
      }
      assert !HasHash(s.r, chain, BlockHash(s.r, b));
      hide Stored;
      hide Answered;
      hide HasHash;
      replies, news := StoreDetail(detail, clock, Here(), notices);
    }
  }

  lemma StoredNothing(s: Setting, clock: nat -> nat, w: World, b: Block, replies: seq<(Verdict, Info)>)
    requires !HasHash(s.r, w.chain, BlockHash(s.r, b)) && (HasHeader(w.pool, HeaderOf(b)) || s.capacity == 0)
    requires replies == (if HasHeader(w.pool, HeaderOf(b)) then [(Duplicate, Info(Orphan, 0))] else []) + [(Ok, Info(Orphan, 0))]
    ensures Stored(s, clock, w, b, w, []) && Answered(s.r, s.capacity, w, w, b, replies)
  {
    hide HasHash;
    hide HasHeader;
  }

  lemma StoredNew(s: Setting, clock: nat -> nat, w: World, b: Block, w': World, news: seq<Notice>, replies: seq<(Verdict, Info)>)
    requires !HasHash(s.r, w.chain, BlockHash(s.r, b)) && !HasHeader(w.pool, HeaderOf(b)) && s.capacity > 0
    requires Processed(s, clock, World(w.chain, PushBack(w.pool, b, s.capacity)), b, w', news)
    requires |replies| == 1 && Tells(s.r, w', b, replies[0].0, replies[0].1)
    ensures Stored(s, clock, w, b, w', news) && Answered(s.r, s.capacity, w, w', b, replies)
  {
    hide HasHash;
    hide HasHeader;
    hide Processed;
    hide Tells;
  }

  lemma EnteredDetails(r: Rules, before: seq<BlockDetail>, detail: BlockDetail, capacity: nat)
    requires capacity > 0 && Hashed(r, before) && detail.hash == BlockHash(r, detail.actual)
    requires !detail.processed && forall d | d in before :: d.processed
    ensures var after := PushBack(before, detail, capacity);
            && Pending(after) == [detail] && Hashed(r, after) && detail in after
            && forall d | d in after :: d in before || d == detail
  {
    PendingNewest(before, detail, capacity);
    PushedMembers(before, detail, capacity);
    hide *;
    HashedTogether(r, before, detail);
    StillHashed(r, before + [detail], PushBack(before, detail, capacity));
  }

  lemma HashedTogether(r: Rules, details: seq<BlockDetail>, detail: BlockDetail)
    requires Hashed(r, details) && detail.hash == BlockHash(r, detail.actual)
    ensures Hashed(r, details + [detail])
  {
  }

  lemma PushedMembers(before: seq<BlockDetail>, detail: BlockDetail, capacity: nat)
    requires capacity > 0
    ensures var after := PushBack(before, detail, capacity);
            detail in after && forall d | d in after :: d in before || d == detail
  {
    var after := PushBack(before, detail, capacity);
    assert after[|after| - 1] == detail;
  }

  lemma EnteredWorld(s: Setting, w: World, b: Block)
    requires SoundHashes(s) && Inv(s, w) && b in s.universe && s.capacity > 0
    requires !HasHash(s.r, w.chain, BlockHash(s.r, b)) && !HasHeader(w.pool, HeaderOf(b))
    ensures Inv(s, World(w.chain, PushBack(w.pool, b, s.capacity)))
    ensures AddTo(w.pool, b, s.capacity) == PushBack(w.pool, b, s.capacity)
  {
    hide Inv;
    hide SoundHashes;
    hide HasHash;
    hide HasHeader;
    PushedWorld(s, w, b);
  }

  lemma NotEntered(before: seq<BlockDetail>, detail: BlockDetail, capacity: nat)
    ensures capacity == 0 ==> PushBack(before, detail, capacity) == before
  {
  }

  lemma OneReversed(detail: BlockDetail)
    ensures Reversed([detail]) == [detail] && Reversed<BlockDetail>([]) == []
  {
  }

  /** The answer to a store tells where the block is. */
  predicate Tells(r: Rules, w: World, b: Block, errc: Verdict, info: Info) {
    match info.status
    case Confirmed => errc.Ok? && info.depth < |w.chain| && w.chain[info.depth] == b
    case Orphan => errc.Ok? && b in w.pool && !HasHash(r, w.chain, BlockHash(r, b))
    case Rejected => !errc.Ok? && !HasHash(r, w.chain, BlockHash(r, b)) && !HasHash(r, w.pool, BlockHash(r, b))
  }

  /** The answers a store gives. */
  predicate Answered(r: Rules, capacity: nat, w: World, w': World, b: Block, replies: seq<(Verdict, Info)>) {
    if HasHash(r, w.chain, BlockHash(r, b)) then
      && |replies| == 1 && replies[0].0 == Duplicate && replies[0].1.status == Confirmed
      && replies[0].1.depth < |w.chain| && BlockHash(r, w.chain[replies[0].1.depth]) == BlockHash(r, b)
    else if HasHeader(w.pool, HeaderOf(b)) then replies == [(Duplicate, Info(Orphan, 0)), (Ok, Info(Orphan, 0))]
    else if capacity == 0 then replies == [(Ok, Info(Orphan, 0))]
    else |replies| == 1 && Tells(r, w', b, replies[0].0, replies[0].1)
  }

  lemma TraceReady(s: Setting, w: World, pool: seq<BlockDetail>, detail: BlockDetail)
    requires SoundHashes(s) && Inv(s, w) && w.pool == Actuals(pool) && detail in pool
    ensures Known(s, Actuals(pool)) && Acyclic(s) && detail.actual in s.universe && detail.actual in w.pool
  {
    hide ChainInv;
    ActualIn(pool, detail);
  }

  lemma BranchInPool(s: Setting, w: World, pool: seq<BlockDetail>, branch: seq<BlockDetail>, detail: BlockDetail)
    requires w.pool == Actuals(pool) && branch != [] && branch[|branch| - 1] == detail && detail in pool
    requires forall j | 0 <= j < |branch| - 1 :: branch[j] in pool
    requires Traced(s.r, Actuals(pool), detail.actual, Actuals(branch))
    ensures forall j | 0 <= j < |branch| :: branch[j] in pool
    ensures forall d | d in branch :: d in pool
    ensures Linked(s.r, Actuals(branch)) && branch[0].actual == Actuals(branch)[0]
  {
    hide Linked;
  }

  lemma MovedOn(s: Setting, clock: nat -> nat, w: World, branch: seq<Block>, fork: nat, valid: nat, b: Block,
                w': World, news: seq<Notice>, errc: Verdict, info: Info)
    requires SoundHashes(s) && Inv(s, w) && b in w.pool && Traced(s.r, w.pool, b, branch)
    requires Replaces(s, clock, w, branch, fork, valid) && Settle(w, s.capacity, fork, branch, valid) == (w', news)
    requires valid < |branch| ==> info == Info(Rejected, 0) && !errc.Ok?
    requires valid == |branch| ==> errc.Ok? && info == if news == [] then Info(Orphan, 0) else Info(Confirmed, fork + |branch|)
    ensures Processed(s, clock, w, b, w', news) && Inv(s, w') && Tells(s.r, w', b, errc, info)
  {
    hide *;
    BranchParts(s.r, w.pool, b, branch);
    ReplacesRange(s, clock, w, branch, fork, valid);
    ProcessedBy(s, clock, w, b, branch, fork, valid);
    ProcessedKeeps(s, clock, w, b, w', news);
    if valid < |branch| {
      RejectedGone(s, w, branch, fork, valid);
      ApartHash(s.r, w'.chain, b);
      ApartHash(s.r, w'.pool, b);
      TellsRejected(s.r, w', b, errc, info);
    } else {
      AcceptedStays(s, w, branch, fork, b, errc, info);
    }
  }

  lemma BranchParts(r: Rules, pool: seq<Block>, b: Block, branch: seq<Block>)
    requires Traced(r, pool, b, branch) && b in pool
    ensures branch != [] && branch[|branch| - 1] == b && Linked(r, branch)
    ensures forall j | 0 <= j < |branch| :: branch[j] in pool
  {
    hide Linked;
    hide HasHash;
  }

  lemma ReplacesRange(s: Setting, clock: nat -> nat, w: World, branch: seq<Block>, fork: nat, valid: nat)
    requires branch != [] && Replaces(s, clock, w, branch, fork, valid)
    ensures fork < |w.chain| && valid <= |branch|
  {
    hide ValidUpTo;
  }

  lemma TellsRejected(r: Rules, w: World, b: Block, errc: Verdict, info: Info)
    requires info == Info(Rejected, 0) && !errc.Ok?
    requires !HasHash(r, w.chain, BlockHash(r, b)) && !HasHash(r, w.pool, BlockHash(r, b))
    ensures Tells(r, w, b, errc, info)
  {
  }

  lemma AcceptedStays(s: Setting, w: World, branch: seq<Block>, fork: nat, b: Block, errc: Verdict, info: Info)
    requires Inv(s, w) && b in w.pool && branch != [] && branch[|branch| - 1] == b && fork < |w.chain| && errc.Ok?
    requires var (_, news) := Settle(w, s.capacity, fork, branch, |branch|);
             info == if news == [] then Info(Orphan, 0) else Info(Confirmed, fork + |branch|)
    ensures Tells(s.r, Settle(w, s.capacity, fork, branch, |branch|).0, b, errc, info)
  {
    hide ChainInv;
    hide PoolInv;
    hide Apart;
    hide HasHash;
    hide Without;
    hide AddAll;
    hide TotalWork;
    assert branch[|branch|..] == [] && branch[..|branch|] == branch;
    WithoutNothing(w.pool);
    PoolNotInChain(s, w, b);
  }

  lemma PoolNotInChain(s: Setting, w: World, b: Block)
    requires Inv(s, w) && b in w.pool
    ensures !HasHash(s.r, w.chain, BlockHash(s.r, b))
  {
    hide ChainInv;
    hide PoolInv;
    var i :| 0 <= i < |w.pool| && w.pool[i] == b;
  }

  lemma ApartHash(r: Rules, blocks: seq<Block>, b: Block)
    requires Apart(r, blocks, [b])
    ensures !HasHash(r, blocks, BlockHash(r, b))
  {
    assert forall i | 0 <= i < |blocks| :: BlockHash(r, blocks[i]) != BlockHash(r, [b][0]);
  }

  lemma StayedPut(s: Setting, clock: nat -> nat, w: World, branch: seq<Block>, b: Block, errc: Verdict, info: Info)
    requires Inv(s, w) && b in w.pool && Traced(s.r, w.pool, b, branch)
    requires forall d | 0 <= d < |w.chain| :: BlockHash(s.r, w.chain[d]) != branch[0].previous
    requires errc.Ok? && info == Info(Orphan, 0)
    ensures Processed(s, clock, w, b, w, []) && Tells(s.r, w, b, errc, info)
  {
    hide Inv;
    hide Linked;
    assert !HasHash(s.r, w.chain, branch[0].previous);
    PoolNotInChain(s, w, b);
  }

  lemma StillHashed(r: Rules, before: seq<BlockDetail>, after: seq<BlockDetail>)
    requires Hashed(r, before) && forall d | d in after :: d in before
    ensures Hashed(r, after)
  {
    forall i | 0 <= i < |after|
      ensures after[i].hash == BlockHash(r, after[i].actual)
    {
      assert after[i] in before;
    }
  }

  lemma FrontActuals(details: seq<BlockDetail>, n: nat)
    requires n <= |details|
    ensures Actuals(details[..n]) == Actuals(details)[..n]
    ensures forall d | d in details[..n] :: d in details
    ensures Separate(details) ==>
              Separate(details[..n]) && (n < |details| ==> details[|details| - 1] !in details[..n])
  {
  }

  /** What `replace_chain` relies on once it knows how much of a branch is valid. */
  lemma SettleFacts(s: Setting, clock: nat -> nat, w: World, branch: seq<Block>, fork: nat, valid: nat)
    requires Sound(s) && Inv(s, w) && Known(s, branch) && branch != [] && Linked(s.r, branch) && fork < |w.chain|
    requires BlockHash(s.r, w.chain[fork]) == branch[0].previous
    requires ValidUpTo(s.r, clock, w.chain, fork, branch, valid)
    ensures Replaces(s, clock, w, branch, fork, valid) && valid <= |branch|
    ensures forall d | 0 <= d < |w.chain| :: WellFormedBlock(w.chain[d])
    ensures Clean(ChainRows(s.r, 0, w.chain[..fork + 1] + branch[..valid])) && fork + valid < UINT32_MAX
    ensures DistinctHashes(s.r, w.pool)
  {
    assert SHIFT_LIMIT < UINT32_MAX;
    hide *;
    InvParts(s, w);
    ReplacesParts(s, clock, w, branch, fork, valid);
    ChainFits(s, w.chain);
    ReplacedChain(s, clock, w, branch, fork, valid);
    ChainFits(s, w.chain[..fork + 1] + branch[..valid]);
  }

  lemma InvParts(s: Setting, w: World)
    requires Inv(s, w)
    ensures ChainInv(s, w.chain) && DistinctHashes(s.r, w.pool)
  {
    hide ChainInv;
  }

  lemma ReplacesParts(s: Setting, clock: nat -> nat, w: World, branch: seq<Block>, fork: nat, valid: nat)
    requires branch != [] && fork < |w.chain| && BlockHash(s.r, w.chain[fork]) == branch[0].previous
    requires ValidUpTo(s.r, clock, w.chain, fork, branch, valid)
    ensures Replaces(s, clock, w, branch, fork, valid) && valid <= |branch|
  {
    hide AcceptsAt;
  }

  lemma SettleUnfolds(chain: seq<Block>, pool: seq<Block>, capacity: nat, fork: nat, branch: seq<Block>, valid: nat)
    requires fork < |chain| && valid <= |branch|
    ensures Settle(World(chain, pool), capacity, fork, branch, valid)
            == Exchange(chain, Without(pool, branch[valid..]), capacity, fork, branch[..valid])
  {
    hide Without;
    hide AddAll;
    hide TotalWork;
  }

  lemma ChainFits(s: Setting, chain: seq<Block>)
    requires Sound(s) && ChainInv(s, chain)
    ensures Clean(ChainRows(s.r, 0, chain)) && |chain| <= SHIFT_LIMIT
    ensures forall d | 0 <= d < |chain| :: WellFormedBlock(chain[d])
  {
    hide AcceptedChain;
    hide WellFormedBlock;
    hide DistinctTxs;
    hide Clean;
    AcceptedClean(s.r, chain);
    SupplyBound(s.r, chain);
  }

  lemma BranchFacts(s: Setting, w: World, pool: seq<BlockDetail>, branch: seq<BlockDetail>)
    requires SoundHashes(s) && Inv(s, w) && w.pool == Actuals(pool) && Linked(s.r, Actuals(branch))
    requires forall j | 0 <= j < |branch| :: branch[j] in pool
    ensures Known(s, Actuals(branch)) && Separate(branch)
    ensures forall j | 0 <= j < |branch| :: Actuals(branch)[j] in w.pool
  {
    hide ChainInv;
    forall j | 0 <= j < |branch|
      ensures Actuals(branch)[j] in w.pool && Actuals(branch)[j] in s.universe
    {
      ActualIn(pool, branch[j]);
    }
    LinkedDistinct(s, Actuals(branch));
    hide Linked;
    hide SoundHashes;
    forall i, j | 0 <= i < j < |branch|
      ensures branch[i] != branch[j]
    {
      assert BlockHash(s.r, Actuals(branch)[i]) != BlockHash(s.r, Actuals(branch)[j]);
    }
  }

  lemma PrefixClean(r: Rules, base: seq<Block>, blocks: seq<Block>, i: nat)
    requires i < |blocks| && Clean(ChainRows(r, 0, base + blocks))
    ensures Clean(ChainRows(r, 0, base + blocks[0..i + 1]))
  {
    hide Clean;
    hide ChainRows;
    var n := |base| + i + 1;
    assert (base + blocks)[..n] == base + blocks[0..i + 1];
    CleanFront(r, base + blocks, n);
  }

  /** No detail occurs twice. */
  predicate Separate(details: seq<BlockDetail>) {
    forall i, j | 0 <= i < j < |details| :: details[i] != details[j]
  }

  lemma SliceGrows(details: seq<BlockDetail>, a: nat, i: nat)
    requires a <= i < |details| && Separate(details)
    ensures Actuals(details)[a..i + 1] == Actuals(details)[a..i] + [details[i].actual]
    ensures details[a..i + 1] == details[a..i] + [details[i]]
    ensures details[i] !in details[a..i]
  {
  }

  lemma GenesisClean(s: Setting, genesis: Block)
    requires Sound(s) && IsGenesis(genesis) && genesis in s.universe
    ensures Clean(ChainRows(s.r, 0, [])) && Clean(ChainRows(s.r, 0, [genesis]))
  {
    NoRowsClean(s.r);
    GenesisInv(s, genesis);
    hide IsGenesis;
    hide AcceptedChain;
    hide SoundHashes;
    hide WellFormedBlock;
    hide SizeCountsOutputs;
    hide DistinctTxs;
    hide Clean;
    hide ChainRows;
    AcceptedClean(s.r, [genesis]);
  }

  lemma NoRowsClean(r: Rules)
    ensures Clean(ChainRows(r, 0, []))
  {
  }

  lemma WorkSteps(branch: seq<Block>, i: nat)
    ensures TotalWork(branch[..0]) == 0
    ensures i < |branch| ==> TotalWork(branch[..i + 1]) == TotalWork(branch[..i]) + BlockWork(branch[i].bits)
  {
    hide BlockWork;
    if i < |branch| { assert branch[..i + 1][..i] == branch[..i]; }
  }

  lemma ValidParts(r: Rules, clock: nat -> nat, chain: seq<Block>, fork: nat, branch: seq<Block>, valid: nat)
    requires fork < |chain| && valid <= |branch|
    requires forall j | 0 <= j < valid :: AcceptsAt(r, clock, chain, fork, branch, j)
    requires valid < |branch| ==> !AcceptsAt(r, clock, chain, fork, branch, valid)
    ensures ValidUpTo(r, clock, chain, fork, branch, valid)
  {
    hide AcceptsAt;
  }

  lemma AcceptedHere(r: Rules, clock: nat -> nat, chain: seq<Block>, fork: nat, branch: seq<Block>, j: nat, v: Verdict)
    requires fork < |chain| && j < |branch|
    requires v.Ok? <==> Accepts(r, clock(j), fork, chain[..fork + 1] + branch[..j], branch[j])
    ensures v.Ok? <==> AcceptsAt(r, clock, chain, fork, branch, j)
  {
    hide Accepts;
  }
}
