/** Any number of stores, one after another, from a blockchain that holds the genesis block alone. */
module Runs {
  import opened Types
  import opened BigNumber
  import opened Money
  import opened MedianTime
  import opened Retarget
  import opened Consensus
  import opened Ledger
  import opened Supply
  import opened ChainKeepers
  import opened Reorganization
  import opened Organizers

  /** One store: the block, the clock, and what came of it. */
  datatype Step = Step(block: Block, clock: nat -> nat, world: World, notices: seq<Notice>)

  function End(start: World, steps: seq<Step>): World {
    if steps == [] then start else steps[|steps| - 1].world
  }

  ghost predicate Run(s: Setting, start: World, steps: seq<Step>) {
    if steps == [] then true else
      var n := |steps| - 1;
      && Run(s, start, steps[..n]) && steps[n].block in s.universe
      && Stored(s, steps[n].clock, End(start, steps[..n]), steps[n].block, steps[n].world, steps[n].notices)
  }

  /** Everything the observers were told, in order. */
  function Told(steps: seq<Step>): seq<Notice> {
    if steps == [] then [] else Told(steps[..|steps| - 1]) + steps[|steps| - 1].notices
  }

  ghost predicate FromGenesis(s: Setting, start: World) {
    start.pool == [] && |start.chain| == 1 && IsGenesis(start.chain[0]) && start.chain[0] in s.universe
  }

  lemma {:induction false} RunKeeps(s: Setting, start: World, steps: seq<Step>)
    requires SoundHashes(s) && Inv(s, start) && Run(s, start, steps)
    ensures Inv(s, End(start, steps))
  {
    if steps != [] {
      hide SoundHashes;
      hide Inv;
      hide Stored;
      hide Reported;
      var n := |steps| - 1;
      RunKeeps(s, start, steps[..n]);
      StoredKeeps(s, steps[n].clock, End(start, steps[..n]), steps[n].block, steps[n].world, steps[n].notices);
    }
  }

  lemma StartInv(s: Setting, start: World)
    requires FromGenesis(s, start)
    ensures Inv(s, start)
  {
    hide Inv;
    hide IsGenesis;
    assert start == World([start.chain[0]], []);
    GenesisInv(s, start.chain[0]);
  }

  /** Every chain a node can reach is linked, and each of its blocks was accepted on exactly the blocks
      beneath it; the pool holds no block of the chain and no block twice. */
  lemma ReachableWorld(s: Setting, start: World, steps: seq<Step>)
    requires SoundHashes(s) && FromGenesis(s, start) && Run(s, start, steps)
    ensures var w := End(start, steps);
            && AcceptedChain(s.r, w.chain) && Linked(s.r, w.chain)
            && DistinctHashes(s.r, w.pool) && Apart(s.r, w.pool, w.chain) && |w.pool| <= s.capacity
  {
    hide AcceptedChain;
    hide Run;
    hide FromGenesis;
    StartInv(s, start);
    RunKeeps(s, start, steps);
  }

  // ---- work

  lemma {:induction false} RunWork(s: Setting, start: World, steps: seq<Step>)
    requires SoundHashes(s) && Inv(s, start) && Run(s, start, steps)
    ensures if Told(steps) == [] then End(start, steps).chain == start.chain
            else TotalWork(start.chain) < TotalWork(End(start, steps).chain)
  {
    if steps != [] {
      hide SoundHashes;
      hide Inv;
      hide Stored;
      hide TotalWork;
      var n := |steps| - 1;
      RunKeeps(s, start, steps[..n]);
      RunWork(s, start, steps[..n]);
      StoredKeeps(s, steps[n].clock, End(start, steps[..n]), steps[n].block, steps[n].world, steps[n].notices);
    }
  }

  lemma {:induction false} RunSplit(s: Setting, start: World, steps: seq<Step>, m: nat)
    requires m <= |steps| && Run(s, start, steps)
    ensures Run(s, start, steps[..m]) && Run(s, End(start, steps[..m]), steps[m..])
    ensures End(End(start, steps[..m]), steps[m..]) == End(start, steps)
  {
    hide Stored;
    if m == |steps| {
      assert steps[..m] == steps && steps[m..] == [];
    } else {
      var n := |steps| - 1;
      RunSplit(s, start, steps[..n], m);
      assert steps[..n][..m] == steps[..m];
      assert steps[m..][..n - m] == steps[..n][m..] && steps[m..][n - m] == steps[n];
      assert End(End(start, steps[..m]), steps[m..][..n - m]) == End(start, steps[..n]);
    }
  }

  /** The work of the main chain never falls from one moment of a run to a later one, and rises exactly
      when observers are told of a replacement in between. */
  lemma WorkNeverFalls(s: Setting, start: World, steps: seq<Step>, m: nat)
    requires SoundHashes(s) && FromGenesis(s, start) && Run(s, start, steps) && m <= |steps|
    ensures TotalWork(End(start, steps[..m]).chain) <= TotalWork(End(start, steps).chain)
    ensures Told(steps[m..]) != [] <==> TotalWork(End(start, steps[..m]).chain) < TotalWork(End(start, steps).chain)
    ensures Told(steps[m..]) == [] ==> End(start, steps[..m]).chain == End(start, steps).chain
  {
    hide *;
    StartInv(s, start);
    RunSplit(s, start, steps, m);
    RunKeeps(s, start, steps[..m]);
    RunWork(s, End(start, steps[..m]), steps[m..]);
  }

  // ---- observers

  /** An observer drops what was replaced and appends what arrived. */
  function Replay(chain: seq<Block>, notices: seq<Notice>): seq<Block> {
    if notices == [] then chain else
      var before, n := Replay(chain, notices[..|notices| - 1]), notices[|notices| - 1];
      if n.fork < |before| then before[..n.fork + 1] + n.arrivals else before
  }

  /** Going back: drop what arrived and restore what was replaced. */
  function Rewind(chain: seq<Block>, notices: seq<Notice>): seq<Block>
    decreases |notices|
  {
    if notices == [] then chain else
      var n := notices[|notices| - 1];
      if n.fork < |chain| then Rewind(chain[..n.fork + 1] + n.replaced, notices[..|notices| - 1]) else chain
  }

  lemma ReportedOne(before: seq<Block>, after: seq<Block>, told: seq<Notice>, notices: seq<Notice>, first: seq<Block>)
    requires Reported(before, after, notices) && Replay(first, told) == before && Rewind(before, told) == first
    ensures Replay(first, told + notices) == after && Rewind(after, told + notices) == first
  {
    if notices == [] {
      assert told + notices == told;
    } else {
      var n := notices[0];
      assert notices == [n];
      assert (told + notices)[..|told|] == told && (told + notices)[|told|] == n;
      assert after[..n.fork + 1] == before[..n.fork + 1];
      assert after[..n.fork + 1] + n.replaced == before;
    }
  }

  lemma {:induction false} RunReplays(s: Setting, start: World, steps: seq<Step>)
    requires SoundHashes(s) && Inv(s, start) && Run(s, start, steps)
    ensures Replay(start.chain, Told(steps)) == End(start, steps).chain
    ensures Rewind(End(start, steps).chain, Told(steps)) == start.chain
  {
    if steps != [] {
      hide SoundHashes;
      hide Inv;
      hide Stored;
      hide Reported;
      hide Replay;
      hide Rewind;
      var n := |steps| - 1;
      var before := End(start, steps[..n]);
      RunKeeps(s, start, steps[..n]);
      RunReplays(s, start, steps[..n]);
      StoredKeeps(s, steps[n].clock, before, steps[n].block, steps[n].world, steps[n].notices);
      ReportedOne(before.chain, steps[n].world.chain, Told(steps[..n]), steps[n].notices, start.chain);
    }
  }

  /** Replaying the notices in order gives the main chain exactly, and undoing them the first one. */
  lemma ObserverSeesChain(s: Setting, start: World, steps: seq<Step>)
    requires SoundHashes(s) && FromGenesis(s, start) && Run(s, start, steps)
    ensures Replay(start.chain, Told(steps)) == End(start, steps).chain
    ensures Rewind(End(start, steps).chain, Told(steps)) == start.chain
  {
    hide *;
    StartInv(s, start);
    RunReplays(s, start, steps);
  }

  // ---- the ledger of every reachable chain

  /** Across any number of reorganisations, unspent outputs are worth no more than the subsidies. */
  lemma ReachableSupply(s: Setting, start: World, steps: seq<Step>)
    requires SoundHashes(s) && FromGenesis(s, start) && Run(s, start, steps)
    ensures var chain := End(start, steps).chain;
            |chain| <= SHIFT_LIMIT && UnspentValue(s.r, chain) <= SubsidySum(|chain|) <= MaxMoney()
  {
    hide *;
    ReachableWorld(s, start, steps);
    SupplyBound(s.r, End(start, steps).chain);
  }

  /** Across any number of reorganisations, no output is spent twice. */
  lemma ReachableNoDoubleSpend(s: Setting, start: World, steps: seq<Step>, output: OutPoint,
                               d: nat, i: nat, k: nat, d': nat, i': nat, k': nat)
    requires SoundHashes(s) && FromGenesis(s, start) && Run(s, start, steps)
    requires var chain := End(start, steps).chain;
             Names(chain, d, i, k, output) && Names(chain, d', i', k', output) && i > 0 && i' > 0
    ensures d == d' && i == i' && k == k'
  {
    hide *;
    ReachableWorld(s, start, steps);
    NoDoubleSpend(s.r, End(start, steps).chain, output, d, i, k, d', i', k');
  }

  /** Every input names an output beneath it, a coinbase one at least a hundred blocks down. */
  lemma ReachableMaturity(s: Setting, start: World, steps: seq<Step>, d: nat, i: nat, k: nat)
    requires SoundHashes(s) && FromGenesis(s, start) && Run(s, start, steps)
    requires var chain := End(start, steps).chain;
             d < |chain| && 0 < i < |chain[d].transactions| && k < |chain[d].transactions[i].inputs|
    ensures var chain := End(start, steps).chain;
            var found := FindTx(s.r, chain[..d + 1], chain[d].transactions[i].inputs[k].previous.hash);
            && found.Found? && chain[d].transactions[i].inputs[k].previous.index < |found.tx.outputs|
            && (IsCoinbase(found.tx) ==> found.depth + COINBASE_MATURITY <= d)
  {
    hide *;
    ReachableWorld(s, start, steps);
    InputFound(s.r, End(start, steps).chain, d, i, k);
    CoinbaseMaturity(s.r, End(start, steps).chain, d, i, k);
  }

  /** Median time past never falls; targets stay in range and move by at most a factor of four. */
  lemma ReachableTimes(s: Setting, start: World, steps: seq<Step>, d: nat)
    requires SoundHashes(s) && FromGenesis(s, start) && Run(s, start, steps) && 0 < d < |End(start, steps).chain|
    ensures var chain := End(start, steps).chain;
            && MedianTimePast(Timestamps(chain[..d])) <= MedianTimePast(Timestamps(chain[..d + 1]))
            && 0 < SetCompact(chain[d].bits) <= MaxTarget()
            && var previous, next := SetCompact(chain[d - 1].bits), SetCompact(chain[d].bits);
               if d % READJUSTMENT_INTERVAL != 0 then next == previous
               else next <= 4 * previous && next * 0x8000 >= previous / 4 * 0x7fff
  {
    hide *;
    ReachableWorld(s, start, steps);
    MedianTimeMonotone(s.r, End(start, steps).chain, d);
    TargetInRange(s.r, End(start, steps).chain, d);
    TargetMovesSlowly(s.r, End(start, steps).chain, d);
  }

  // ---- the node itself makes such runs

  /** The store queue: every call changes the node as one step of a run. */
  method StoreAll(node: Organizer, blocks: seq<Block>, clock: nat -> nat) returns (ghost steps: seq<Step>)
    requires node.Ready() && forall i | 0 <= i < |blocks| :: blocks[i] in node.s.universe
    modifies node, node.orphans, node.keeper, node.orphans.pool
    ensures node.Ready() && Run(node.s, old(node.Here()), steps) && End(old(node.Here()), steps) == node.Here()
    ensures |steps| == |blocks| && forall i | 0 <= i < |blocks| :: steps[i].block == blocks[i]
    ensures node.notices == old(node.notices) + Told(steps)
  {
    hide *;
    steps := [];
    NoSteps(node.s, old(node.Here()));
    assert old(node.notices) + [] == old(node.notices);
    for i := 0 to |blocks|
      invariant node.Ready() && Run(node.s, old(node.Here()), steps) && End(old(node.Here()), steps) == node.Here()
      invariant |steps| == i && forall j | 0 <= j < i :: steps[j].block == blocks[j]
      invariant node.notices == old(node.notices) + Told(steps)
      invariant forall j | 0 <= j < |node.orphans.pool| ::
                  node.orphans.pool[j] in old(node.orphans.pool) || fresh(node.orphans.pool[j])
    {
      var replies;
      ghost var news;
      ghost var was := node.orphans.pool;
      replies, news := node.DoStore(blocks[i], clock);
      forall j | 0 <= j < |node.orphans.pool|
        ensures node.orphans.pool[j] in old(node.orphans.pool) || fresh(node.orphans.pool[j])
      {
        assert node.orphans.pool[j] in node.orphans.pool;
        if node.orphans.pool[j] in was {
          var k :| 0 <= k < |was| && was[k] == node.orphans.pool[j];
        }
      }
      ghost var step := Step(blocks[i], clock, node.Here(), news);
      OneMore(node.s, old(node.Here()), steps, step);
      assert old(node.notices) + Told(steps) + news == old(node.notices) + (Told(steps) + news);
      steps := steps + [step];
    }
  }

  lemma NoSteps(s: Setting, start: World)
    ensures Run(s, start, []) && End(start, []) == start && Told([]) == []
  {
  }

  lemma OneMore(s: Setting, start: World, steps: seq<Step>, step: Step)
    requires Run(s, start, steps) && step.block in s.universe
    requires Stored(s, step.clock, End(start, steps), step.block, step.world, step.notices)
    ensures Run(s, start, steps + [step]) && End(start, steps + [step]) == step.world
    ensures Told(steps + [step]) == Told(steps) + step.notices
  {
    hide Stored;
    assert (steps + [step])[..|steps|] == steps;
  }
}
