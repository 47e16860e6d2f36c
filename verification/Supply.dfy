/** The unspent outputs of an accepted chain are worth no more than the subsidies of its blocks. */
module Supply {
  import opened Types
  import opened Money
  import opened Consensus
  import opened Ledger

  datatype Coin = Coin(hash: Digest, index: nat)
  datatype Entry = Entry(coin: Coin, value: nat)

  function CoinOf(point: OutPoint): Coin { Coin(point.hash, point.index) }

  // ---- the outputs a chain creates and the coins it spends

  function TxCoins(r: Rules, tx: Transaction): (es: seq<Entry>)
    ensures |es| == |tx.outputs|
    ensures forall j | 0 <= j < |es| :: es[j] == Entry(Coin(r.txHash(tx), j), tx.outputs[j].value)
  {
    seq(|tx.outputs|, j requires 0 <= j < |tx.outputs| => Entry(Coin(r.txHash(tx), j), tx.outputs[j].value))
  }

  function Coins(r: Rules, txs: seq<Transaction>): seq<Entry> {
    if txs == [] then [] else Coins(r, txs[..|txs| - 1]) + TxCoins(r, txs[|txs| - 1])
  }

  function InputCoins(inputs: seq<Input>): (cs: seq<Coin>)
    ensures |cs| == |inputs| && forall k | 0 <= k < |cs| :: cs[k] == CoinOf(inputs[k].previous)
  {
    seq(|inputs|, k requires 0 <= k < |inputs| => CoinOf(inputs[k].previous))
  }

  /** The coins spent by the transactions after the coinbase. */
  function BlockSpends(txs: seq<Transaction>): seq<Coin> {
    if |txs| <= 1 then [] else BlockSpends(txs[..|txs| - 1]) + InputCoins(txs[|txs| - 1].inputs)
  }

  function ChainSpends(chain: seq<Block>): seq<Coin> {
    if chain == [] then [] else ChainSpends(chain[..|chain| - 1]) + BlockSpends(chain[|chain| - 1].transactions)
  }

  // ---- adding up

  /** The value of the entries whose coins are not spent. */
  function Unspent(entries: seq<Entry>, spent: set<Coin>): nat {
    if entries == [] then 0
    else (if entries[0].coin in spent then 0 else entries[0].value) + Unspent(entries[1..], spent)
  }

  function ValueOf(entries: seq<Entry>, coin: Coin): nat {
    if entries == [] then 0
    else if entries[0].coin == coin then entries[0].value
    else ValueOf(entries[1..], coin)
  }

  function SumOf(entries: seq<Entry>, coins: seq<Coin>): nat {
    if coins == [] then 0 else SumOf(entries, coins[..|coins| - 1]) + ValueOf(entries, coins[|coins| - 1])
  }

  /** Spending a coin takes away at least the value of its first entry. */
  lemma {:induction false} SpendOne(entries: seq<Entry>, spent: set<Coin>, coin: Coin)
    requires coin !in spent
    ensures Unspent(entries, spent) >= Unspent(entries, spent + {coin}) + ValueOf(entries, coin)
  {
    if entries != [] {
      if entries[0].coin == coin {
        SpendMore(entries[1..], spent, coin);
      } else {
        SpendOne(entries[1..], spent, coin);
      }
    }
  }

  lemma {:induction false} SpendMore(entries: seq<Entry>, spent: set<Coin>, coin: Coin)
    ensures Unspent(entries, spent) >= Unspent(entries, spent + {coin})
  {
    if entries != [] { SpendMore(entries[1..], spent, coin); }
  }

  /** Spending distinct coins takes away at least their values. */
  lemma {:induction false} SpendAll(entries: seq<Entry>, coins: seq<Coin>)
    requires Distinct(coins)
    ensures Unspent(entries, {}) >= Unspent(entries, Members(coins)) + SumOf(entries, coins)
  {
    if coins == [] {
      assert Members(coins) == {};
    } else {
      var n := |coins| - 1;
      SpendAll(entries, coins[..n]);
      assert coins[n] !in coins[..n];
      SpendOne(entries, Members(coins[..n]), coins[n]);
      assert coins == coins[..n] + [coins[n]];
      assert Members(coins) == Members(coins[..n]) + {coins[n]};
    }
  }

  lemma {:induction false} SumOfAppend(entries: seq<Entry>, a: seq<Coin>, b: seq<Coin>)
    ensures SumOf(entries, a + b) == SumOf(entries, a) + SumOf(entries, b)
  {
    if b == [] {
      assert a + b == a;
    } else {
      var n := |b| - 1;
      SumOfAppend(entries, a, b[..n]);
      assert (a + b)[..|a + b| - 1] == a + b[..n];
    }
  }

  lemma {:induction false} UnspentAppend(a: seq<Entry>, b: seq<Entry>, spent: set<Coin>)
    ensures Unspent(a + b, spent) == Unspent(a, spent) + Unspent(b, spent)
  {
    if a == [] {
      assert a + b == b;
    } else {
      UnspentAppend(a[1..], b, spent);
      assert (a + b)[1..] == a[1..] + b;
    }
  }

  // ---- a coin is worth what the first transaction with its hash says

  lemma {:induction false} CoinHashes(r: Rules, txs: seq<Transaction>, hash: Digest)
    requires forall i | 0 <= i < |txs| :: r.txHash(txs[i]) != hash
    ensures forall m | 0 <= m < |Coins(r, txs)| :: Coins(r, txs)[m].coin.hash != hash
  {
    if txs != [] { CoinHashes(r, txs[..|txs| - 1], hash); }
  }

  predicate Has(entries: seq<Entry>, coin: Coin) {
    exists m | 0 <= m < |entries| :: entries[m].coin == coin
  }

  lemma {:induction false} ValueInJoin(a: seq<Entry>, b: seq<Entry>, coin: Coin)
    ensures ValueOf(a + b, coin) == if Has(a, coin) then ValueOf(a, coin) else ValueOf(b, coin)
  {
    if a == [] {
      assert a + b == b;
    } else {
      ValueInJoin(a[1..], b, coin);
      assert (a + b)[1..] == a[1..] + b;
      if Has(a, coin) && a[0].coin != coin {
        var m :| 0 <= m < |a| && a[m].coin == coin;
        assert a[1..][m - 1].coin == coin;
      }
      if Has(a[1..], coin) {
        var m :| 0 <= m < |a[1..]| && a[1..][m].coin == coin;
        assert a[m + 1].coin == coin;
      }
    }
  }

  lemma {:induction false} ValueAt(entries: seq<Entry>, m: nat)
    requires m < |entries| && forall i | 0 <= i < m :: entries[i].coin != entries[m].coin
    ensures ValueOf(entries, entries[m].coin) == entries[m].value
  {
    if m > 0 { ValueAt(entries[1..], m - 1); }
  }

  lemma {:induction false} FirstCoin(r: Rules, txs: seq<Transaction>, t: nat, j: nat)
    requires t < |txs| && j < |txs[t].outputs|
    requires forall u | 0 <= u < t :: r.txHash(txs[u]) != r.txHash(txs[t])
    ensures var coin := Coin(r.txHash(txs[t]), j);
            Has(Coins(r, txs), coin) && ValueOf(Coins(r, txs), coin) == txs[t].outputs[j].value
  {
    var n := |txs| - 1;
    var coin, before, last := Coin(r.txHash(txs[t]), j), Coins(r, txs[..n]), TxCoins(r, txs[n]);
    ValueInJoin(before, last, coin);
    if t < n {
      FirstCoin(r, txs[..n], t, j);
      var m :| 0 <= m < |before| && before[m].coin == coin;
      assert (before + last)[m].coin == coin;
    } else {
      CoinHashes(r, txs[..n], coin.hash);
      ValueAt(last, j);
      assert (before + last)[|before| + j].coin == coin;
    }
  }

  lemma {:induction false} AllTxsPrefix(chain: seq<Block>, n: nat)
    requires n <= |chain|
    ensures AllTxs(chain[..n]) <= AllTxs(chain)
    decreases |chain|
  {
    if n < |chain| {
      AllTxsPrefix(chain[..|chain| - 1], n);
      assert chain[..|chain| - 1][..n] == chain[..n];
    } else {
      assert chain[..n] == chain;
    }
  }

  /** The scan block by block finds the first of all transactions with the hash. */
  lemma {:induction false} FoundInChain(r: Rules, chain: seq<Block>, hash: Digest) returns (t: nat)
    ensures if FindTx(r, chain, hash).Found?
            then t < |AllTxs(chain)| && AllTxs(chain)[t] == FindTx(r, chain, hash).tx && r.txHash(AllTxs(chain)[t]) == hash
            else t == |AllTxs(chain)|
    ensures forall u | 0 <= u < t :: r.txHash(AllTxs(chain)[u]) != hash
  {
    t := 0;
    if chain != [] {
      var n := |chain| - 1;
      var before, txs := AllTxs(chain[..n]), chain[n].transactions;
      assert AllTxs(chain) == before + txs;
      hide AllTxs;
      t := FoundInChain(r, chain[..n], hash);
      if !FindTx(r, chain[..n], hash).Found? {
        t := t + FirstWithHash(r, txs, hash);
      }
    }
  }

  /** The value a block looked up for an input is the value of that coin in the whole chain. */
  lemma LookupAgrees(r: Rules, chain: seq<Block>, n: nat, point: OutPoint)
    requires n <= |chain| && FindTx(r, chain[..n], point.hash).Found?
    requires point.index < |FindTx(r, chain[..n], point.hash).tx.outputs|
    ensures ValueOf(Coins(r, AllTxs(chain)), CoinOf(point)) == OutputValue(r, chain[..n], point)
  {
    var t := FoundInChain(r, chain[..n], point.hash);
    AllTxsPrefix(chain, n);
    var txs, first := AllTxs(chain), AllTxs(chain[..n]);
    assert txs[t] == first[t];
    assert forall u | 0 <= u < t :: txs[u] == first[u];
    FirstCoin(r, txs, t, point.index);
  }

  // ---- one block

  function BlockOutput(txs: seq<Transaction>): nat {
    if txs == [] then 0 else BlockOutput(txs[..|txs| - 1]) + TotalOutput(txs[|txs| - 1].outputs)
  }

  /** The looked-up values of the inputs after the coinbase. */
  function BlockInput(r: Rules, view: seq<Block>, txs: seq<Transaction>): nat {
    if |txs| <= 1 then 0
    else BlockInput(r, view, txs[..|txs| - 1]) + InputValue(r, view, txs[|txs| - 1].inputs)
  }

  lemma {:induction false} FeesBalance(r: Rules, view: seq<Block>, txs: seq<Transaction>)
    requires txs != []
    ensures BlockOutput(txs) == TotalOutput(txs[0].outputs) + BlockInput(r, view, txs) - Fees(r, view, txs)
  {
    if |txs| > 1 {
      FeesBalance(r, view, txs[..|txs| - 1]);
    } else {
      assert txs[..0] == [];
    }
  }

  lemma {:induction false} TxCoinsTotal(r: Rules, tx: Transaction, m: nat)
    requires m <= |tx.outputs|
    ensures Unspent(TxCoins(r, tx)[..m], {}) == TotalOutput(tx.outputs[..m])
  {
    if m > 0 {
      TxCoinsTotal(r, tx, m - 1);
      var es := TxCoins(r, tx);
      assert es[..m] == es[..m - 1] + [es[m - 1]];
      UnspentAppend(es[..m - 1], [es[m - 1]], {});
      assert tx.outputs[..m][..m - 1] == tx.outputs[..m - 1];
      assert Unspent([es[m - 1]], {}) == es[m - 1].value;
    }
  }

  lemma {:induction false} CoinsTotal(r: Rules, txs: seq<Transaction>)
    ensures Unspent(Coins(r, txs), {}) == BlockOutput(txs)
  {
    if txs != [] {
      var n := |txs| - 1;
      CoinsTotal(r, txs[..n]);
      var tx := txs[n];
      UnspentAppend(Coins(r, txs[..n]), TxCoins(r, tx), {});
      TxCoinsTotal(r, tx, |tx.outputs|);
      assert TxCoins(r, tx)[..|tx.outputs|] == TxCoins(r, tx) && tx.outputs[..|tx.outputs|] == tx.outputs;
    }
  }

  lemma {:induction false} BlockOutputAppend(a: seq<Transaction>, b: seq<Transaction>)
    ensures BlockOutput(a + b) == BlockOutput(a) + BlockOutput(b)
  {
    if b == [] {
      assert a + b == a;
    } else {
      var n := |b| - 1;
      BlockOutputAppend(a, b[..n]);
      assert (a + b)[..|a + b| - 1] == a + b[..n];
    }
  }

  lemma InputFound(r: Rules, chain: seq<Block>, d: nat, i: nat, k: nat)
    requires AcceptedChain(r, chain) && d < |chain|
    requires 0 < i < |chain[d].transactions| && k < |chain[d].transactions[i].inputs|
    ensures var point := chain[d].transactions[i].inputs[k].previous;
            var found := FindTx(r, chain[..d + 1], point.hash);
            found.Found? && point.index < |found.tx.outputs|
  {
    hide AcceptedChain;
    hide TransactionConnects;
    hide SpentElsewhere;
    hide SigopsOfInput;
    hide FindTx;
    hide IsCoinbase;
    ConnectedInput(r, chain, d, i, k);
  }

  lemma {:induction false} SumOfInputs(r: Rules, entries: seq<Entry>, view: seq<Block>, inputs: seq<Input>)
    requires forall k | 0 <= k < |inputs| ::
               ValueOf(entries, CoinOf(inputs[k].previous)) == OutputValue(r, view, inputs[k].previous)
    ensures SumOf(entries, InputCoins(inputs)) == InputValue(r, view, inputs)
  {
    hide OutputValue;
    if inputs != [] {
      var n := |inputs| - 1;
      SumOfInputs(r, entries, view, inputs[..n]);
      assert InputCoins(inputs)[..n] == InputCoins(inputs[..n]);
    }
  }

  lemma InputsLookup(r: Rules, chain: seq<Block>, d: nat, i: nat)
    requires AcceptedChain(r, chain) && d < |chain|
    requires 0 < i < |chain[d].transactions|
    ensures var inputs := chain[d].transactions[i].inputs;
            SumOf(Coins(r, AllTxs(chain)), InputCoins(inputs)) == InputValue(r, chain[..d + 1], inputs)
  {
    hide AcceptedChain;
    hide OutputValue;
    hide SumOf;
    hide InputValue;
    var inputs := chain[d].transactions[i].inputs;
    var entries := Coins(r, AllTxs(chain));
    forall k | 0 <= k < |inputs|
      ensures ValueOf(entries, CoinOf(inputs[k].previous)) == OutputValue(r, chain[..d + 1], inputs[k].previous)
    {
      InputFound(r, chain, d, i, k);
      LookupAgrees(r, chain, d + 1, inputs[k].previous);
    }
    SumOfInputs(r, entries, chain[..d + 1], inputs);
  }

  lemma {:induction false} BlockLookup(r: Rules, chain: seq<Block>, d: nat, m: nat)
    requires AcceptedChain(r, chain) && d < |chain|
    requires m <= |chain[d].transactions|
    ensures var txs := chain[d].transactions[..m];
            SumOf(Coins(r, AllTxs(chain)), BlockSpends(txs)) == BlockInput(r, chain[..d + 1], txs)
  {
    hide AcceptedChain;
    hide Coins;
    hide AllTxs;
    hide InputValue;
    if m > 1 {
      hide SumOf;
      BlockLookup(r, chain, d, m - 1);
      var txs := chain[d].transactions;
      var inputs := txs[m - 1].inputs;
      assert txs[..m][..m - 1] == txs[..m - 1];
      InputsLookup(r, chain, d, m - 1);
      SumOfAppend(Coins(r, AllTxs(chain)), BlockSpends(txs[..m - 1]), InputCoins(inputs));
    }
  }

  /** A block creates at most its subsidy beyond what it spends. */
  lemma BlockBalance(r: Rules, chain: seq<Block>, d: nat)
    requires AcceptedChain(r, chain) && d < |chain|
    ensures d < SHIFT_LIMIT
    ensures BlockOutput(chain[d].transactions)
            <= BlockInput(r, chain[..d + 1], chain[d].transactions) + BlockValue(d)
  {
    hide NotDuplicateOrSpent;
    hide TransactionConnects;
    var txs := chain[d].transactions;
    if d == 0 {
      assert txs[..0] == [];
      assert BlockOutput(txs) == TotalOutput(txs[0].outputs);
      assert BlockValue(0) == BLOCK_REWARD * COIN;
    } else {
      AcceptedParts(r, chain, d);
      var fork :| 0 <= fork < d && BlockConnects(r, fork, chain[..d], chain[d]);
      FeesBalance(r, chain[..d + 1], txs);
    }
  }

  /** What the first `n` blocks create exceeds what they spend by no more than their subsidies. */
  lemma {:induction false} ChainBalance(r: Rules, chain: seq<Block>, n: nat)
    requires AcceptedChain(r, chain) && n <= |chain|
    ensures n <= SHIFT_LIMIT
    ensures BlockOutput(AllTxs(chain[..n]))
            <= SumOf(Coins(r, AllTxs(chain)), ChainSpends(chain[..n])) + SubsidySum(n)
  {
    hide AcceptedChain;
    hide Coins;
    if n > 0 {
      hide SumOf;
      hide BlockOutput;
      hide BlockInput;
      hide BlockSpends;
      hide BlockValue;
      var d := n - 1;
      ChainBalance(r, chain, d);
      BlockBalance(r, chain, d);
      var txs := chain[d].transactions;
      assert txs[..|txs|] == txs && chain[..n][..d] == chain[..d] && chain[..n][d] == chain[d];
      BlockLookup(r, chain, d, |txs|);
      BlockOutputAppend(AllTxs(chain[..d]), txs);
      SumOfAppend(Coins(r, AllTxs(chain)), ChainSpends(chain[..d]), BlockSpends(txs));
    }
  }

  // ---- the spends of an accepted chain are distinct

  lemma DistinctAppend<T>(a: seq<T>, b: seq<T>)
    requires Distinct(a) && Distinct(b)
    requires forall i, j | 0 <= i < |a| && 0 <= j < |b| :: a[i] != b[j]
    ensures Distinct(a + b)
  {
  }

  ghost predicate SpentAt(chain: seq<Block>, coin: Coin, d: nat, i: nat, k: nat) {
    && d < |chain| && 0 < i < |chain[d].transactions| && k < |chain[d].transactions[i].inputs|
    && CoinOf(chain[d].transactions[i].inputs[k].previous) == coin
  }

  lemma SpentOnce(r: Rules, chain: seq<Block>, coin: Coin, d: nat, i: nat, k: nat, d': nat, i': nat, k': nat)
    requires AcceptedChain(r, chain)
    requires SpentAt(chain, coin, d, i, k) && SpentAt(chain, coin, d', i', k')
    ensures d == d' && i == i' && k == k'
  {
    NoDoubleSpend(r, chain, chain[d].transactions[i].inputs[k].previous, d, i, k, d', i', k');
  }

  lemma {:induction false} BlockSpendAt(chain: seq<Block>, d: nat, m: nat, a: nat) returns (i: nat, k: nat)
    requires d < |chain| && m <= |chain[d].transactions| && a < |BlockSpends(chain[d].transactions[..m])|
    ensures i < m && SpentAt(chain, BlockSpends(chain[d].transactions[..m])[a], d, i, k)
  {
    var txs := chain[d].transactions;
    assert txs[..m][..m - 1] == txs[..m - 1];
    var before := BlockSpends(txs[..m - 1]);
    if a < |before| {
      i, k := BlockSpendAt(chain, d, m - 1, a);
    } else {
      i, k := m - 1, a - |before|;
    }
  }

  lemma InputCoinsDistinct(r: Rules, chain: seq<Block>, d: nat, i: nat)
    requires AcceptedChain(r, chain) && d < |chain| && 0 < i < |chain[d].transactions|
    ensures Distinct(InputCoins(chain[d].transactions[i].inputs))
  {
    hide AcceptedChain;
    var coins := InputCoins(chain[d].transactions[i].inputs);
    forall a, b | 0 <= a < b < |coins|
      ensures coins[a] != coins[b]
    {
      if coins[a] == coins[b] { SpentOnce(r, chain, coins[a], d, i, a, d, i, b); }
    }
  }

  lemma BlockSpendsApart(r: Rules, chain: seq<Block>, d: nat, m: nat, a: nat, b: nat)
    requires AcceptedChain(r, chain) && d < |chain| && 0 < m < |chain[d].transactions|
    requires a < |BlockSpends(chain[d].transactions[..m])| && b < |chain[d].transactions[m].inputs|
    ensures BlockSpends(chain[d].transactions[..m])[a] != InputCoins(chain[d].transactions[m].inputs)[b]
  {
    hide AcceptedChain;
    var coin := InputCoins(chain[d].transactions[m].inputs)[b];
    var i, k := BlockSpendAt(chain, d, m, a);
    hide BlockSpends;
    if BlockSpends(chain[d].transactions[..m])[a] == coin {
      SpentOnce(r, chain, coin, d, i, k, d, m, b);
    }
  }

  lemma {:induction false} BlockSpendsDistinct(r: Rules, chain: seq<Block>, d: nat, m: nat)
    requires AcceptedChain(r, chain) && d < |chain| && m <= |chain[d].transactions|
    ensures Distinct(BlockSpends(chain[d].transactions[..m]))
  {
    hide AcceptedChain;
    if m > 1 {
      var txs := chain[d].transactions;
      assert txs[..m][..m - 1] == txs[..m - 1];
      var before, last := BlockSpends(txs[..m - 1]), InputCoins(txs[m - 1].inputs);
      assert BlockSpends(txs[..m]) == before + last;
      hide BlockSpends;
      BlockSpendsDistinct(r, chain, d, m - 1);
      InputCoinsDistinct(r, chain, d, m - 1);
      forall a, b | 0 <= a < |before| && 0 <= b < |last|
        ensures before[a] != last[b]
      {
        BlockSpendsApart(r, chain, d, m - 1, a, b);
      }
      hide Distinct;
      DistinctAppend(before, last);
    }
  }

  lemma {:induction false} ChainSpendAt(chain: seq<Block>, n: nat, a: nat) returns (d: nat, i: nat, k: nat)
    requires n <= |chain| && a < |ChainSpends(chain[..n])|
    ensures d < n && SpentAt(chain, ChainSpends(chain[..n])[a], d, i, k)
  {
    assert chain[..n][..n - 1] == chain[..n - 1];
    var before := ChainSpends(chain[..n - 1]);
    if a < |before| {
      d, i, k := ChainSpendAt(chain, n - 1, a);
    } else {
      var txs := chain[n - 1].transactions;
      assert txs[..|txs|] == txs;
      d := n - 1;
      i, k := BlockSpendAt(chain, d, |txs|, a - |before|);
    }
  }

  lemma ChainSpendsApart(r: Rules, chain: seq<Block>, n: nat, a: nat, b: nat)
    requires AcceptedChain(r, chain) && n < |chain|
    requires a < |ChainSpends(chain[..n])| && b < |BlockSpends(chain[n].transactions)|
    ensures ChainSpends(chain[..n])[a] != BlockSpends(chain[n].transactions)[b]
  {
    hide AcceptedChain;
    var txs := chain[n].transactions;
    assert txs[..|txs|] == txs;
    var d, i, k := ChainSpendAt(chain, n, a);
    var i', k' := BlockSpendAt(chain, n, |txs|, b);
    hide BlockSpends;
    hide ChainSpends;
    if ChainSpends(chain[..n])[a] == BlockSpends(txs)[b] {
      SpentOnce(r, chain, BlockSpends(txs)[b], d, i, k, n, i', k');
    }
  }

  lemma {:induction false} ChainSpendsDistinct(r: Rules, chain: seq<Block>, n: nat)
    requires AcceptedChain(r, chain) && n <= |chain|
    ensures Distinct(ChainSpends(chain[..n]))
  {
    hide AcceptedChain;
    if n > 0 {
      assert chain[..n][..n - 1] == chain[..n - 1];
      var txs := chain[n - 1].transactions;
      var before, last := ChainSpends(chain[..n - 1]), BlockSpends(txs);
      assert ChainSpends(chain[..n]) == before + last;
      assert txs[..|txs|] == txs;
      hide ChainSpends;
      hide BlockSpends;
      ChainSpendsDistinct(r, chain, n - 1);
      BlockSpendsDistinct(r, chain, n - 1, |txs|);
      forall a, b | 0 <= a < |before| && 0 <= b < |last|
        ensures before[a] != last[b]
      {
        ChainSpendsApart(r, chain, n - 1, a, b);
      }
      hide Distinct;
      DistinctAppend(before, last);
    }
  }

  // ---- the bound

  /** The value of the outputs of a chain that no input after a coinbase names. */
  function UnspentValue(r: Rules, chain: seq<Block>): nat {
    Unspent(Coins(r, AllTxs(chain)), Members(ChainSpends(chain)))
  }

  /** In every accepted chain, repeated transactions included, the unspent outputs are worth at most the
      subsidies of its blocks, and those at most `max_money`. */
  lemma SupplyBound(r: Rules, chain: seq<Block>)
    requires AcceptedChain(r, chain)
    ensures |chain| <= SHIFT_LIMIT
    ensures UnspentValue(r, chain) <= SubsidySum(|chain|) <= MaxMoney()
  {
    var n := |chain|;
    assert chain[..n] == chain;
    ChainBalance(r, chain, n);
    ChainSpendsDistinct(r, chain, n);
    CoinsTotal(r, AllTxs(chain));
    hide AcceptedChain;
    SpendAll(Coins(r, AllTxs(chain)), ChainSpends(chain));
    SubsidyBound(n);
  }
}
