/** What holds of every accepted chain: no double spend, coinbase maturity, bounded supply, monotone
    median time and bounded retargeting. */
module Ledger {
  import opened Types
  import opened BigNumber
  import opened Money
  import opened MedianTime
  import opened Retarget
  import opened Consensus

  /** The block at a depth above genesis connected on the blocks beneath it. */
  lemma AcceptedParts(r: Rules, chain: seq<Block>, d: nat)
    requires AcceptedChain(r, chain) && 0 < d < |chain|
    ensures chain[..d] + [chain[d]] == chain[..d + 1]
    ensures exists now :: BlockStands(r, now, chain[d])
    ensures BlockFollows(r, chain[..d], chain[d])
    ensures exists fork | 0 <= fork < d :: BlockConnects(r, fork, chain[..d], chain[d])
  {
    hide BlockStands;
    hide BlockFollows;
    hide BlockConnects;
    var now, fork :| 0 <= fork < |chain[..d]| && Accepts(r, now, fork, chain[..d], chain[d]);
    assert BlockStands(r, now, chain[d]);
    assert BlockConnects(r, fork, chain[..d], chain[d]);
  }

  lemma ConnectedInput(r: Rules, chain: seq<Block>, d: nat, i: nat, k: nat)
    requires AcceptedChain(r, chain) && d < |chain|
    requires 0 < i < |chain[d].transactions| && k < |chain[d].transactions[i].inputs|
    ensures d > 0 && chain[..d + 1][d] == chain[d]
    ensures TransactionConnects(r, chain[..d + 1], i) && InputConnects(r, chain[..d + 1], i, k)
  {
    hide InputConnects;
    hide NotDuplicateOrSpent;
    if d > 0 {
      AcceptedParts(r, chain, d);
      var fork :| 0 <= fork < d && BlockConnects(r, fork, chain[..d], chain[d]);
      assert TransactionConnects(r, chain[..d] + [chain[d]], i);
    }
  }

  /** No two inputs of an accepted chain, coinbases aside, name the same output. */
  lemma NoDoubleSpend(r: Rules, chain: seq<Block>, output: OutPoint,
                      d: nat, i: nat, k: nat, d': nat, i': nat, k': nat)
    requires AcceptedChain(r, chain)
    requires Names(chain, d, i, k, output) && Names(chain, d', i', k', output)
    requires i > 0 && i' > 0
    ensures d == d' && i == i' && k == k'
  {
    if d > d' {
      NoDoubleSpend(r, chain, output, d', i', k', d, i, k);
    } else {
      ConnectedInput(r, chain, d', i', k');
      var view := chain[..d' + 1];
      assert view[d] == chain[d];
      assert Names(view, d, i, k, output);
      assert !SpentElsewhere(view, output, d', i', k');
    }
  }

  /** A spent coinbase output lies at least a hundred blocks beneath the block that spends it. */
  lemma CoinbaseMaturity(r: Rules, chain: seq<Block>, d: nat, i: nat, k: nat)
    requires AcceptedChain(r, chain) && d < |chain|
    requires 0 < i < |chain[d].transactions| && k < |chain[d].transactions[i].inputs|
    ensures var found := FindTx(r, chain[..d + 1], chain[d].transactions[i].inputs[k].previous.hash);
            found.Found? && (IsCoinbase(found.tx) ==> found.depth + COINBASE_MATURITY <= d)
  {
    hide AcceptedChain;
    hide TransactionConnects;
    hide SpentElsewhere;
    hide SigopsOfInput;
    hide FindTx;
    hide IsCoinbase;
    ConnectedInput(r, chain, d, i, k);
  }

  /** Along an accepted chain the median time past never falls. */
  lemma MedianTimeMonotone(r: Rules, chain: seq<Block>, d: nat)
    requires AcceptedChain(r, chain) && 0 < d < |chain|
    ensures MedianTimePast(Timestamps(chain[..d])) <= MedianTimePast(Timestamps(chain[..d + 1]))
  {
    hide *;
    BitsFollow(r, chain, d);
    TimestampsGrow(chain, d);
    MedianNeverDecreases(Timestamps(chain[..d]), chain[d].timestamp);
  }

  lemma TimestampsGrow(chain: seq<Block>, d: nat)
    requires d < |chain|
    ensures Timestamps(chain[..d]) + [chain[d].timestamp] == Timestamps(chain[..d + 1])
  {
  }

  /** Every target of an accepted chain is positive and no easier than the easiest one. */
  lemma TargetInRange(r: Rules, chain: seq<Block>, d: nat)
    requires AcceptedChain(r, chain) && d < |chain|
    ensures 0 < SetCompact(chain[d].bits) <= MaxTarget()
  {
    hide SetCompact;
    if d == 0 {
      MaxTargetValue();
    } else {
      AcceptedParts(r, chain, d);
      var now :| BlockStands(r, now, chain[d]);
    }
  }

  lemma BitsFollow(r: Rules, chain: seq<Block>, d: nat)
    requires AcceptedChain(r, chain) && 0 < d < |chain|
    ensures chain[d].bits == WorkRequired(chain[..d])
    ensures chain[d].timestamp > MedianTimePast(Timestamps(chain[..d]))
  {
    hide AcceptedChain;
    AcceptedParts(r, chain, d);
  }

  /** From block to block the target stays, or moves by at most a factor of four up to the dropped bits. */
  lemma TargetMovesSlowly(r: Rules, chain: seq<Block>, d: nat)
    requires AcceptedChain(r, chain) && 0 < d < |chain|
    ensures var previous, next := SetCompact(chain[d - 1].bits), SetCompact(chain[d].bits);
            if d % READJUSTMENT_INTERVAL != 0 then next == previous
            else next <= 4 * previous && next * 0x8000 >= previous / 4 * 0x7fff
  {
    hide SetCompact;
    hide Readjust;
    hide AcceptedChain;
    BitsFollow(r, chain, d);
    TargetInRange(r, chain, d - 1);
    var below := chain[..d];
    if d % READJUSTMENT_INTERVAL == 0 {
      ReadjustBounds(chain[d - 1].bits,
                     Timespan(below[d - 1].timestamp, below[d - READJUSTMENT_INTERVAL].timestamp));
    }
  }
}
