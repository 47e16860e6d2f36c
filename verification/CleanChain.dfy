/** The rows of an accepted chain never overwrite one another. */
module CleanChains {
  import opened Types
  import opened Wire
  import opened Consensus
  import opened Ledger
  import opened Supply
  import opened Tables
  import opened ChainKeepers
  import opened ForkView

  predicate CoinbaseFirst(txs: seq<Transaction>) {
    txs != [] && IsCoinbase(txs[0]) && forall i | 1 <= i < |txs| :: !IsCoinbase(txs[i])
  }

  lemma AcceptedCoinbases(r: Rules, chain: seq<Block>, d: nat)
    requires AcceptedChain(r, chain) && d < |chain|
    ensures CoinbaseFirst(chain[d].transactions)
  {
    hide TransactionStands;
    hide ProofOfWork;
    if d > 0 {
      AcceptedParts(r, chain, d);
      hide AcceptedChain;
      var now :| BlockStands(r, now, chain[d]);
    }
  }

  // ---- transaction keys

  predicate RowsHold(r: Rules, rows: seq<(Digest, TxRow)>, txs: seq<Transaction>) {
    |rows| == |txs| && forall m | 0 <= m < |rows| :: rows[m].0 == r.txHash(txs[m])
  }

  lemma RowsHoldJoin(r: Rules, rows: seq<(Digest, TxRow)>, txs: seq<Transaction>,
                     rows': seq<(Digest, TxRow)>, txs': seq<Transaction>)
    requires RowsHold(r, rows, txs) && RowsHold(r, rows', txs')
    ensures RowsHold(r, rows + rows', txs + txs')
  {
  }

  lemma BlockTxKeys(r: Rules, depth: nat, txs: seq<Transaction>)
    ensures RowsHold(r, TxsRows(r, depth, 0, txs).txs, txs)
  {
    hide TxsRows;
    hide ToRaw;
    TxsRowsShape(r, depth, 0, txs);
  }

  lemma {:induction false} ChainTxKeys(r: Rules, chain: seq<Block>)
    ensures RowsHold(r, ChainRows(r, 0, chain).txs, AllTxs(chain))
  {
    if chain == [] {
      NoBlocksNoRows(r, 0);
    } else {
      hide RowsHold;
      hide ChainRows;
      hide TxsRows;
      var n := |chain| - 1;
      var txs := chain[n].transactions;
      ChainTxKeys(r, chain[..n]);
      LastBlockTxs(r, 0, chain);
      BlockTxKeys(r, n, txs);
      RowsHoldJoin(r, ChainRows(r, 0, chain[..n]).txs, AllTxs(chain[..n]), TxsRows(r, n, 0, txs).txs, txs);
    }
  }

  // ---- spend keys

  /** The rows spend these coins, in this order. */
  predicate RowsSpend(rows: seq<(OutPoint, Point)>, coins: seq<Coin>) {
    |rows| == |coins| && forall m | 0 <= m < |rows| :: CoinOf(rows[m].0) == coins[m]
  }

  lemma RowsSpendJoin(rows: seq<(OutPoint, Point)>, coins: seq<Coin>, rows': seq<(OutPoint, Point)>, coins': seq<Coin>)
    requires RowsSpend(rows, coins) && RowsSpend(rows', coins')
    ensures RowsSpend(rows + rows', coins + coins')
  {
  }

  lemma {:induction false} TxsSpendKeys(r: Rules, depth: nat, txs: seq<Transaction>)
    requires txs == [] || CoinbaseFirst(txs)
    ensures RowsSpend(TxsRows(r, depth, 0, txs).spends, BlockSpends(txs))
  {
    if txs == [] {
      NoTxsNoSpends(r, depth);
    } else {
      var n := |txs| - 1;
      LastTxSpends(r, depth, txs);
      TxsSpendKeys(r, depth, txs[..n]);
      hide TxsRows;
      if n > 0 {
        RowsSpendJoin(TxsRows(r, depth, 0, txs[..n]).spends, BlockSpends(txs[..n]),
                      SpendRows(r, txs[n]), InputCoins(txs[n].inputs));
      } else {
        NoTxsNoSpends(r, depth);
      }
    }
  }

  lemma {:induction false} ChainSpendKeys(r: Rules, chain: seq<Block>)
    requires forall d | 0 <= d < |chain| :: CoinbaseFirst(chain[d].transactions)
    ensures RowsSpend(ChainRows(r, 0, chain).spends, ChainSpends(chain))
  {
    if chain == [] {
      NoBlocksNoRows(r, 0);
    } else {
      hide CoinbaseFirst;
      hide RowsSpend;
      hide ChainRows;
      hide TxsRows;
      hide BlockSpends;
      var n := |chain| - 1;
      ChainSpendKeys(r, chain[..n]);
      LastBlockSpends(r, 0, chain);
      TxsSpendKeys(r, n, chain[n].transactions);
      RowsSpendJoin(ChainRows(r, 0, chain[..n]).spends, ChainSpends(chain[..n]),
                    TxsRows(r, n, 0, chain[n].transactions).spends, BlockSpends(chain[n].transactions));
    }
  }

  lemma SpendKeysDistinct(r: Rules, chain: seq<Block>)
    requires AcceptedChain(r, chain)
    ensures DistinctKeys(ChainRows(r, 0, chain).spends)
  {
    hide AcceptedChain;
    hide CoinbaseFirst;
    hide ChainRows;
    hide ChainSpends;
    forall d | 0 <= d < |chain|
      ensures CoinbaseFirst(chain[d].transactions)
    {
      AcceptedCoinbases(r, chain, d);
    }
    ChainSpendKeys(r, chain);
    ChainSpendsDistinct(r, chain, |chain|);
    assert chain[..|chain|] == chain;
  }

  /** An accepted chain with distinct transaction hashes can be stored: no two of its rows share a key. */
  lemma AcceptedClean(r: Rules, chain: seq<Block>)
    requires AcceptedChain(r, chain) && DistinctTxs(r, chain)
    ensures Clean(ChainRows(r, 0, chain))
  {
    hide AcceptedChain;
    hide ChainRows;
    hide AllTxs;
    ChainTxKeys(r, chain);
    SpendKeysDistinct(r, chain);
    ChainBlockRows(r, 0, chain);
    assert DistinctKeys(HeaderRows(r, 0, chain));
    var hashes := TxHashes(r, AllTxs(chain));
    assert Distinct(hashes);
  }
}
