/** `bdb_validate_block` and `validate_block`: the checks as they run, over the stored tables and an
    orphan branch. */
module Validator {
  import opened Types
  import opened Money
  import opened Consensus
  import opened ForkView

  // ---- searching blocks

  method TxNames(tx: Transaction, output: OutPoint, skip: int) returns (named: bool)
    ensures named <==> exists k | 0 <= k < |tx.inputs| :: k != skip && tx.inputs[k].previous == output
  {
    for k := 0 to |tx.inputs|
      invariant forall j | 0 <= j < k :: j == skip || tx.inputs[j].previous != output
    {
      if k != skip && tx.inputs[k].previous == output { return true; }
    }
    return false;
  }

  /** Position `(i, k)` in the list of transactions names the output and is not the skipped one. */
  predicate NamesIn(txs: seq<Transaction>, i: nat, k: nat, output: OutPoint, skipTx: int, skipInput: int) {
    && i < |txs| && k < |txs[i].inputs| && txs[i].inputs[k].previous == output
    && !(i == skipTx && k == skipInput)
  }

  method TxsName(txs: seq<Transaction>, output: OutPoint, skipTx: int, skipInput: int) returns (named: bool)
    ensures named <==> exists i: nat, k: nat :: NamesIn(txs, i, k, output, skipTx, skipInput)
  {
    for i := 0 to |txs|
      invariant forall j: nat, k: nat | j < i :: !NamesIn(txs, j, k, output, skipTx, skipInput)
    {
      var here := TxNames(txs[i], output, if i == skipTx then skipInput else -1);
      if here {
        var k :| 0 <= k < |txs[i].inputs| && k != (if i == skipTx then skipInput else -1) && txs[i].inputs[k].previous == output;
        assert NamesIn(txs, i, k, output, skipTx, skipInput);
        return true;
      }
      forall k: nat
        ensures !NamesIn(txs, i, k, output, skipTx, skipInput)
      {
      }
    }
    return false;
  }

  /** The blocks of an orphan branch, the skipped input in the last one. */
  method BlocksName(blocks: seq<Block>, output: OutPoint, skipTx: nat, skipInput: nat) returns (named: bool)
    requires blocks != []
    ensures named <==> SpentElsewhere(blocks, output, |blocks| - 1, skipTx, skipInput)
  {
    var last := |blocks| - 1;
    for d := 0 to |blocks|
      invariant forall d': nat, i: nat, k: nat | d' < d && Names(blocks, d', i, k, output) ::
                  d' == last && i == skipTx && k == skipInput
    {
      var txs := blocks[d].transactions;
      var skip: int := if d == last then skipTx else -1;
      var here := TxsName(txs, output, skip, skipInput);
      if here {
        var i: nat, k: nat :| NamesIn(txs, i, k, output, skip, skipInput);
        assert Names(blocks, d, i, k, output);
        return true;
      }
      forall i: nat, k: nat | Names(blocks, d, i, k, output)
        ensures d == last && i == skipTx && k == skipInput
      {
        assert !NamesIn(txs, i, k, output, skip, skipInput);
      }
    }
    return false;
  }

  /** `fetch_orphan_transaction`, depths counted from the first block. */
  method FindInBlocks(r: Rules, blocks: seq<Block>, hash: Digest) returns (found: Found)
    ensures found == FindTx(r, blocks, hash)
  {
    for d := 0 to |blocks|
      invariant FindTx(r, blocks[..d], hash).Missing?
    {
      assert blocks[..d + 1][..d] == blocks[..d];
      var txs := blocks[d].transactions;
      for i := 0 to |txs|
        invariant forall j | 0 <= j < i :: r.txHash(txs[j]) != hash
      {
        if r.txHash(txs[i]) == hash {
          assert FirstWithHash(r, txs, hash) == i;
          FindTxFirst(r, blocks, d, hash);
          return Found(txs[i], d);
        }
      }
    }
    assert blocks[..|blocks|] == blocks;
    return Missing;
  }

  lemma FindTxFirst(r: Rules, blocks: seq<Block>, d: nat, hash: Digest)
    requires d < |blocks| && FindTx(r, blocks[..d], hash).Missing?
    requires FirstWithHash(r, blocks[d].transactions, hash) < |blocks[d].transactions|
    ensures FindTx(r, blocks, hash)
            == Found(blocks[d].transactions[FirstWithHash(r, blocks[d].transactions, hash)], d)
  {
    assert blocks == blocks[..d + 1] + blocks[d + 1..];
    assert blocks[..d + 1][..d] == blocks[..d];
    FindTxAppend(r, blocks[..d + 1], blocks[d + 1..], hash);
  }

  // ---- transactions

  /** `total_output_value` adds in 64 bits. */
  method TotalOutputValue(tx: Transaction) returns (total: uint64)
    ensures total == TotalOutput(tx.outputs) % 0x1_0000_0000_0000_0000
  {
    var sum: nat := 0;
    for j := 0 to |tx.outputs|
      invariant sum == TotalOutput(tx.outputs[..j]) % 0x1_0000_0000_0000_0000
    {
      assert tx.outputs[..j + 1][..j] == tx.outputs[..j];
      sum := (sum + tx.outputs[j].value) % 0x1_0000_0000_0000_0000;
    }
    assert tx.outputs[..|tx.outputs|] == tx.outputs;
    return sum;
  }

  lemma {:induction false} TotalOutputGrows(outputs: seq<Output>, j: nat)
    requires j <= |outputs|
    ensures TotalOutput(outputs[..j]) <= TotalOutput(outputs)
    decreases |outputs|
  {
    if j == |outputs| {
      assert outputs[..j] == outputs;
    } else {
      TotalOutputGrows(outputs[..|outputs| - 1], j);
      assert outputs[..|outputs| - 1][..j] == outputs[..j];
    }
  }

  /** The 64-bit running total never wraps: each value and the total so far are in range. */
  method OutputsInRange(outputs: seq<Output>) returns (ok: bool)
    ensures ok == (TotalOutput(outputs) <= MaxMoney())
  {
    MaxMoneyValue();
    hide MaxMoney;
    var total: uint64 := 0;
    for j := 0 to |outputs|
      invariant total == TotalOutput(outputs[..j]) <= MaxMoney()
    {
      TotalOutputGrows(outputs, j + 1);
      assert outputs[..j + 1][..j] == outputs[..j];
      if outputs[j].value > MaxMoney() { return false; }
      total := total + outputs[j].value;
      if total > MaxMoney() { return false; }
    }
    assert outputs[..|outputs|] == outputs;
    return true;
  }

  method CheckTransaction(r: Rules, tx: Transaction) returns (v: Verdict)
    ensures v.Ok? <==> TransactionStands(r, tx)
    ensures v.OutputValueOverflow? ==> TotalOutput(tx.outputs) > MaxMoney()
    ensures v.PreviousOutputNull? ==> !IsCoinbase(tx)
  {
    hide MaxMoney;
    if tx.inputs == [] || tx.outputs == [] { return EmptyTransaction; }
    var inRange := OutputsInRange(tx.outputs);
    if !inRange { return OutputValueOverflow; }
    if IsCoinbase(tx) {
      var size := r.scriptSize(tx.inputs[0].script);
      if size < 2 || size > 100 { return InvalidCoinbaseScriptSize; }
    } else {
      for k := 0 to |tx.inputs|
        invariant forall j | 0 <= j < k :: !PreviousOutputIsNull(tx.inputs[j].previous)
      {
        if PreviousOutputIsNull(tx.inputs[k].previous) { return PreviousOutputNull; }
      }
    }
    return Ok;
  }

  /** `tally_fees`: neither the fee nor the running total leaves 64 bits. */
  method TallyFees(tx: Transaction, valueIn: nat, fees: nat) returns (ok: bool, total: nat)
    requires valueIn <= MaxMoney() && fees <= MaxMoney() && TotalOutput(tx.outputs) <= MaxMoney()
    ensures ok <==> TotalOutput(tx.outputs) <= valueIn && fees + valueIn - TotalOutput(tx.outputs) <= MaxMoney()
    ensures ok ==> total == fees + valueIn - TotalOutput(tx.outputs) && total <= MaxMoney()
  {
    MaxMoneyValue();
    hide MaxMoney;
    var valueOut := TotalOutputValue(tx);
    if valueIn < valueOut { return false, fees; }
    var fee: uint64 := valueIn - valueOut;
    var sum: uint64 := fees + fee;
    return sum <= MaxMoney(), sum;
  }

  // ---- the blocks beneath, split at the fork

  /** A scan of stored blocks followed by a branch splits into the two scans. */
  lemma SpentSplit(a: seq<Block>, b: seq<Block>, output: OutPoint, i: nat, k: nat)
    requires b != []
    ensures SpentElsewhere(a + b, output, |a| + |b| - 1, i, k)
            <==> NamedIn(a, output) || SpentElsewhere(b, output, |b| - 1, i, k)
  {
    var last := |b| - 1;
    if NamedIn(a, output) {
      var d: nat, i': nat, k': nat :| Names(a, d, i', k', output);
      assert (a + b)[d] == a[d];
      assert Names(a + b, d, i', k', output);
    }
    if SpentElsewhere(b, output, last, i, k) {
      var d: nat, i': nat, k': nat :| Names(b, d, i', k', output) && !(d == last && i' == i && k' == k);
      assert (a + b)[|a| + d] == b[d];
      assert Names(a + b, |a| + d, i', k', output);
    }
    if SpentElsewhere(a + b, output, |a| + last, i, k) {
      var d: nat, i': nat, k': nat :| Names(a + b, d, i', k', output) && !(d == |a| + last && i' == i && k' == k);
      if d < |a| {
        assert Names(a, d, i', k', output);
      } else {
        assert Names(b, d - |a|, i', k', output);
      }
    }
  }

  // ---- sums over a prefix

  lemma {:induction false} InputValueGrows(r: Rules, view: seq<Block>, inputs: seq<Input>, k: nat)
    requires k <= |inputs|
    ensures InputValue(r, view, inputs[..k]) <= InputValue(r, view, inputs)
    ensures SigopsOfInputs(r, view, inputs[..k]) <= SigopsOfInputs(r, view, inputs)
    decreases |inputs|
  {
    if k == |inputs| {
      assert inputs[..k] == inputs;
    } else {
      InputValueGrows(r, view, inputs[..|inputs| - 1], k);
      assert inputs[..|inputs| - 1][..k] == inputs[..k];
    }
  }

  lemma {:induction false} ConnectSigopsGrows(r: Rules, view: seq<Block>, txs: seq<Transaction>, i: nat)
    requires i <= |txs|
    ensures ConnectSigops(r, view, txs[..i]) <= ConnectSigops(r, view, txs)
    decreases |txs|
  {
    if i == |txs| {
      assert txs[..i] == txs;
    } else {
      ConnectSigopsGrows(r, view, txs[..|txs| - 1], i);
      assert txs[..|txs| - 1][..i] == txs[..i];
    }
  }

  /** Fees only add up while no transaction gives out more than it takes in. */
  lemma {:induction false} FeesGrow(r: Rules, view: seq<Block>, txs: seq<Transaction>, i: nat)
    requires i <= |txs|
    requires forall j | 1 <= j < |txs| :: TotalOutput(txs[j].outputs) <= InputValue(r, view, txs[j].inputs)
    ensures Fees(r, view, txs[..i]) <= Fees(r, view, txs)
    decreases |txs|
  {
    hide InputValue;
    hide TotalOutput;
    if i == |txs| {
      assert txs[..i] == txs;
    } else {
      FeesGrow(r, view, txs[..|txs| - 1], i);
      assert txs[..|txs| - 1][..i] == txs[..i];
    }
  }
}
