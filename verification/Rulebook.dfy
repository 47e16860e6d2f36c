/** The rules of acceptance once more, spelled out in numbers and over the positions of a chain, as a
    reference for the checks and as what every reachable chain can be held to. */
module Rulebook {
  import opened Types
  import opened Numerals
  import opened BigNumber
  import opened Money
  import opened MedianTime
  import opened Retarget
  import opened Consensus
  import opened Ledger
  import opened ForkView
  import opened Reorganization
  import opened Runs

  function Sum(s: seq<nat>): nat {
    if s == [] then 0 else Sum(s[..|s| - 1]) + s[|s| - 1]
  }

  function Hash(r: Rules, b: Block): Digest { r.headerHash(HeaderOf(b)) }

  /** A single input that names nothing. */
  predicate MintsCoins(tx: Transaction) {
    |tx.inputs| == 1 && NamesNothing(tx.inputs[0].previous)
  }

  predicate NamesNothing(point: OutPoint) {
    point.index == 4_294_967_295 && forall i | 0 <= i < 32 :: point.hash[i] == 0
  }

  // ---- a block by itself

  function LegacyCounts(r: Rules, txs: seq<Transaction>): (counts: seq<nat>)
    ensures |counts| == |txs| && forall i | 0 <= i < |txs| :: counts[i] == r.sigops(txs[i])
  {
    seq(|txs|, i requires 0 <= i < |txs| => r.sigops(txs[i]))
  }

  predicate WellMade(r: Rules, tx: Transaction) {
    && |tx.inputs| >= 1 && |tx.outputs| >= 1 && TotalOutput(tx.outputs) <= 2_099_999_997_690_000
    && (MintsCoins(tx) ==> 2 <= r.scriptSize(tx.inputs[0].script) <= 100)
    && (!MintsCoins(tx) ==> forall k | 0 <= k < |tx.inputs| :: !NamesNothing(tx.inputs[k].previous))
  }

  predicate SolvesTarget(hash: Digest, target: int) {
    0 < target <= 0xffff * Power(256, 26) && SetData(Reversed(hash)) <= target
  }

  ghost predicate Checked(r: Rules, now: nat, b: Block) {
    var txs := b.transactions;
    && 1 <= |txs| <= 1_000_000 && r.rawSize(b) <= 1_000_000
    && SolvesTarget(Hash(r, b), SetCompact(b.bits)) && b.timestamp <= now + 7200
    && (forall i | 0 <= i < |txs| :: MintsCoins(txs[i]) <==> i == 0)
    && (forall i | 0 <= i < |txs| :: WellMade(r, txs[i]))
    && (forall i, j | 0 <= i < j < |txs| :: r.txHash(txs[i]) != r.txHash(txs[j]))
    && Sum(LegacyCounts(r, txs)) <= 20_000
    && b.merkle == r.merkleRoot(TxHashes(r, txs))
  }

  // ---- a block on its predecessors

  /** The lock of a transaction has run out, by depth or by time, or no input asks for one. */
  predicate Unlocked(tx: Transaction, depth: nat, time: nat) {
    || tx.locktime == 0
    || (tx.locktime < 500_000_000 && tx.locktime < depth % 4_294_967_296)
    || (tx.locktime >= 500_000_000 && tx.locktime < time)
    || (forall k | 0 <= k < |tx.inputs| :: tx.inputs[k].sequence == 4_294_967_295)
  }

  ghost predicate Following(r: Rules, below: seq<Block>, b: Block)
    requires below != []
  {
    && (|below| % 2016 != 0 ==> b.bits == below[|below| - 1].bits)
    && (|below| % 2016 == 0 ==> b.bits == WorkRequired(below))
    && b.timestamp > MedianTimePast(Timestamps(below))
    && (forall i | 0 <= i < |b.transactions| :: Unlocked(b.transactions[i], |below|, b.timestamp))
    && r.checkpoint(|below|, Hash(r, b))
  }

  // ---- inputs

  /** The input unlocks an existing, mature output that no other input of the view names. */
  ghost predicate Spends(r: Rules, view: seq<Block>, i: nat, k: nat)
    requires view != []
    requires i < |view[|view| - 1].transactions| && k < |view[|view| - 1].transactions[i].inputs|
  {
    var depth := |view| - 1;
    var tx := view[depth].transactions[i];
    var input := tx.inputs[k];
    var found := FindTx(r, view, input.previous.hash);
    && found.Found? && input.previous.index < |found.tx.outputs|
    && (MintsCoins(found.tx) ==> depth >= found.depth + 100)
    && r.inputSigops(found.tx.outputs[input.previous.index].script, input.script).Done?
    && r.scriptsPass(found.tx.outputs[input.previous.index].script, input.script, tx, k,
                     view[depth].timestamp >= 1_333_238_400) == Done(true)
    && forall d: nat, i': nat, k': nat | Names(view, d, i', k', input.previous) :: d == depth && i' == i && k' == k
  }

  function InputCounts(r: Rules, view: seq<Block>, inputs: seq<Input>): (counts: seq<nat>)
    ensures |counts| == |inputs|
    ensures forall k | 0 <= k < |inputs| :: counts[k] == CountOf(SigopsOfInput(r, view, inputs[k]))
  {
    seq(|inputs|, k requires 0 <= k < |inputs| => CountOf(SigopsOfInput(r, view, inputs[k])))
  }

  function CountOf(n: Outcome<nat>): nat { if n.Done? then n.value else 0 }

  /** The signature operations of a transaction after the coinbase and of what it spends. */
  function SpendCount(r: Rules, view: seq<Block>, tx: Transaction, coinbase: bool): nat {
    if coinbase then 0 else r.sigops(tx) + Sum(InputCounts(r, view, tx.inputs))
  }

  function SpendCounts(r: Rules, view: seq<Block>, txs: seq<Transaction>): (counts: seq<nat>)
    ensures |counts| == |txs|
    ensures forall i | 0 <= i < |txs| :: counts[i] == SpendCount(r, view, txs[i], i == 0)
  {
    seq(|txs|, i requires 0 <= i < |txs| => SpendCount(r, view, txs[i], i == 0))
  }

  // ---- a block among the coins

  /** BIP 30: the hash is new to the stored blocks, or each of its outputs is named there. */
  ghost predicate NewOrUsedUp(r: Rules, stored: seq<Block>, tx: Transaction) {
    || (forall d, i | 0 <= d < |stored| && 0 <= i < |stored[d].transactions| ::
          r.txHash(stored[d].transactions[i]) != r.txHash(tx))
    || (forall j | 0 <= j < |tx.outputs| :: NamedAt(stored, r.txHash(tx), j))
  }

  ghost predicate NamedAt(stored: seq<Block>, hash: Digest, j: nat) {
    exists d: nat, i: nat, k: nat, o: OutPoint :: Names(stored, d, i, k, o) && o.hash == hash && o.index == j
  }

  /** Every input after the coinbase spends, and no transaction gives out more than it takes in. */
  ghost predicate AllSpend(r: Rules, view: seq<Block>)
    requires view != []
  {
    var txs := view[|view| - 1].transactions;
    && (forall i, k | 1 <= i < |txs| && 0 <= k < |txs[i].inputs| :: Spends(r, view, i, k))
    && (forall i | 1 <= i < |txs| ::
          TotalOutput(txs[i].outputs) <= InputValue(r, view, txs[i].inputs) <= 2_099_999_997_690_000)
  }

  ghost predicate Connected(r: Rules, fork: nat, below: seq<Block>, b: Block)
    requires fork < |below|
  {
    var view, txs := below + [b], b.transactions;
    && |below| < 13_440_000 && txs != []
    && (|below| != 91842 && |below| != 91880 ==>
          forall i | 0 <= i < |txs| :: NewOrUsedUp(r, below[..fork + 1], txs[i]))
    && AllSpend(r, view)
    && Sum(SpendCounts(r, view, txs)) <= 20_000
    && Fees(r, view, txs) <= 2_099_999_997_690_000
    && TotalOutput(txs[0].outputs) <= 5_000_000_000 / PowerOfTwo(|below| / 210_000) + Fees(r, view, txs)
  }

  // ---- the two agree

  lemma SameMinting(tx: Transaction)
    ensures MintsCoins(tx) <==> IsCoinbase(tx)
    ensures forall k | 0 <= k < |tx.inputs| :: NamesNothing(tx.inputs[k].previous) <==> PreviousOutputIsNull(tx.inputs[k].previous)
  {
    forall point: OutPoint
      ensures NamesNothing(point) <==> PreviousOutputIsNull(point)
    {
      assert forall i | 0 <= i < 32 :: NULL_HASH[i] == 0;
      if NamesNothing(point) { assert point.hash == NULL_HASH; }
    }
  }

  lemma SameTransaction(r: Rules, tx: Transaction)
    ensures WellMade(r, tx) <==> TransactionStands(r, tx)
  {
    SameMinting(tx);
    MaxMoneyValue();
    hide MaxMoney;
    hide NamesNothing;
    hide PreviousOutputIsNull;
    hide TotalOutput;
    hide MintsCoins;
    hide IsCoinbase;
  }

  lemma {:induction false} SameLegacy(r: Rules, txs: seq<Transaction>)
    ensures Sum(LegacyCounts(r, txs)) == TotalSigops(r, txs)
  {
    if txs != [] {
      var n := |txs| - 1;
      SameLegacy(r, txs[..n]);
      assert LegacyCounts(r, txs)[..n] == LegacyCounts(r, txs[..n]);
    }
  }

  lemma SameTarget(hash: Digest, bits: uint32)
    ensures SolvesTarget(hash, SetCompact(bits)) <==> ProofOfWork(hash, bits)
  {
    MaxTargetValue();
    hide SetCompact;
    hide SetData;
    hide Power;
    hide MaxTarget;
    hide Reversed;
  }

  lemma SameChecked(r: Rules, now: nat, b: Block)
    ensures Checked(r, now, b) <==> BlockStands(r, now, b)
  {
    var txs := b.transactions;
    SameTarget(Hash(r, b), b.bits);
    SameLegacy(r, txs);
    hide SolvesTarget;
    hide ProofOfWork;
    hide SetCompact;
    hide Sum;
    hide TotalSigops;
    forall i | 0 <= i < |txs|
      ensures WellMade(r, txs[i]) <==> TransactionStands(r, txs[i])
      ensures MintsCoins(txs[i]) <==> IsCoinbase(txs[i])
    {
      SameTransaction(r, txs[i]);
      SameMinting(txs[i]);
    }
    hide WellMade;
    hide TransactionStands;
    hide MintsCoins;
    hide IsCoinbase;
    SameDistinct(r, txs);
    hide Distinct;
  }

  lemma SameDistinct(r: Rules, txs: seq<Transaction>)
    ensures Distinct(TxHashes(r, txs)) <==> forall i, j | 0 <= i < j < |txs| :: r.txHash(txs[i]) != r.txHash(txs[j])
  {
    var hashes := TxHashes(r, txs);
    if Distinct(hashes) {
      forall i, j | 0 <= i < j < |txs|
        ensures r.txHash(txs[i]) != r.txHash(txs[j])
      {
        assert hashes[i] != hashes[j];
      }
    }
  }

  lemma SameFollowing(r: Rules, below: seq<Block>, b: Block)
    requires below != []
    ensures Following(r, below, b) <==> BlockFollows(r, below, b)
  {
    WorkCases(below);
    hide WorkRequired;
    hide MedianTimePast;
    hide Timestamps;
    hide Readjust;
    hide Timespan;
    forall i | 0 <= i < |b.transactions|
      ensures Unlocked(b.transactions[i], |below|, b.timestamp) <==> IsFinal(b.transactions[i], |below|, b.timestamp)
    {
    }
    hide Unlocked;
    hide IsFinal;
  }

  lemma SameSpends(r: Rules, view: seq<Block>, i: nat, k: nat)
    requires view != []
    requires i < |view[|view| - 1].transactions| && k < |view[|view| - 1].transactions[i].inputs|
    ensures Spends(r, view, i, k) <==> InputConnects(r, view, i, k)
  {
    var depth := |view| - 1;
    var point := view[depth].transactions[i].inputs[k].previous;
    var found := FindTx(r, view, point.hash);
    if found.Found? { SameMinting(found.tx); }
    SameSpent(view, point, depth, i, k);
    hide MintsCoins;
    hide IsCoinbase;
    hide SpentElsewhere;
    hide FindTx;
  }

  lemma SameSpent(view: seq<Block>, point: OutPoint, depth: nat, i: nat, k: nat)
    ensures SpentElsewhere(view, point, depth, i, k)
            <==> !forall d: nat, i': nat, k': nat | Names(view, d, i', k', point) :: d == depth && i' == i && k' == k
  {
    hide Names;
  }

  lemma {:induction false} SameInputCounts(r: Rules, view: seq<Block>, inputs: seq<Input>)
    ensures Sum(InputCounts(r, view, inputs)) == SigopsOfInputs(r, view, inputs)
  {
    hide SigopsOfInput;
    if inputs != [] {
      var n := |inputs| - 1;
      SameInputCounts(r, view, inputs[..n]);
      assert InputCounts(r, view, inputs)[..n] == InputCounts(r, view, inputs[..n]);
    }
  }

  lemma SumLast(s: seq<nat>, t: seq<nat>, last: nat)
    requires s == t + [last]
    ensures Sum(s) == Sum(t) + last
  {
    assert s[..|t|] == t;
  }

  lemma ConnectStep(r: Rules, view: seq<Block>, txs: seq<Transaction>)
    requires txs != []
    ensures var n := |txs| - 1;
            ConnectSigops(r, view, txs)
            == ConnectSigops(r, view, txs[..n]) + if n == 0 then 0 else r.sigops(txs[n]) + SigopsOfInputs(r, view, txs[n].inputs)
  {
    hide SigopsOfInputs;
    if |txs| == 1 { assert txs[..0] == []; }
  }

  lemma CountsStep(r: Rules, view: seq<Block>, txs: seq<Transaction>)
    requires txs != []
    ensures var n := |txs| - 1;
            SpendCounts(r, view, txs) == SpendCounts(r, view, txs[..n]) + [SpendCount(r, view, txs[n], n == 0)]
  {
    hide SpendCount;
  }

  lemma NoCounts(r: Rules, view: seq<Block>)
    ensures Sum(SpendCounts(r, view, [])) == 0 && ConnectSigops(r, view, []) == 0
  {
  }

  lemma {:induction false} SameSpendCounts(r: Rules, view: seq<Block>, txs: seq<Transaction>)
    ensures Sum(SpendCounts(r, view, txs)) == ConnectSigops(r, view, txs)
  {
    hide *;
    NoCounts(r, view);
    if txs != [] {
      var n := |txs| - 1;
      SameSpendCounts(r, view, txs[..n]);
      SameInputCounts(r, view, txs[n].inputs);
      ConnectStep(r, view, txs);
      CountsStep(r, view, txs);
      SumLast(SpendCounts(r, view, txs), SpendCounts(r, view, txs[..n]), SpendCount(r, view, txs[n], n == 0));
      SpendCountIs(r, view, txs[n], n == 0);
    }
  }

  lemma SpendCountIs(r: Rules, view: seq<Block>, tx: Transaction, coinbase: bool)
    ensures SpendCount(r, view, tx, coinbase) == if coinbase then 0 else r.sigops(tx) + Sum(InputCounts(r, view, tx.inputs))
  {
    hide Sum;
    hide InputCounts;
  }

  lemma SameNew(r: Rules, stored: seq<Block>, tx: Transaction)
    ensures NewOrUsedUp(r, stored, tx) <==> NotDuplicateOrSpent(r, stored, tx)
  {
    var hash := r.txHash(tx);
    if FindTx(r, stored, hash).Found? {
      var i := FindTxAt(r, stored, hash);
    } else {
      forall d, i | 0 <= d < |stored| && 0 <= i < |stored[d].transactions|
        ensures r.txHash(stored[d].transactions[i]) != hash
      {
        if r.txHash(stored[d].transactions[i]) == hash { FindTxMissing(r, stored, hash, d, i); }
      }
    }
    hide FindTx;
    forall j | 0 <= j < |tx.outputs|
      ensures NamedAt(stored, hash, j) <==> SpentIn(stored, hash, j)
    {
      SameNamed(stored, hash, j);
    }
    hide NamedAt;
    hide SpentIn;
  }

  lemma SameNamed(stored: seq<Block>, hash: Digest, j: nat)
    ensures NamedAt(stored, hash, j) <==> SpentIn(stored, hash, j)
  {
    hide Names;
  }

  lemma {:induction false} HalvedSubsidy(n: nat, count: nat)
    ensures ShiftRight(n, count) == n / PowerOfTwo(count)
  {
    if count > 0 {
      HalvedSubsidy(n, count - 1);
      DivideTwice(n, PowerOfTwo(count - 1));
    }
  }

  lemma Divided(n: nat, p: nat) returns (q: nat, m: nat)
    requires p > 0
    ensures q == n / p && n == m + p * q && m < p
  {
    q, m := n / p, n % p;
  }

  lemma ProductSplit(p: nat, q: nat)
    ensures p * q == 2 * p * (q / 2) + if q % 2 == 0 then 0 else p
  {
    var h, l := q / 2, q % 2;
    assert q == 2 * h + l;
    if l == 0 {
      assert p * (2 * h) == 2 * p * h;
    } else {
      assert p * (2 * h + 1) == 2 * p * h + p;
    }
  }

  lemma DivideTwice(n: nat, p: nat)
    requires p > 0
    ensures n / p / 2 == n / (2 * p)
  {
    var q, m := Divided(n, p);
    ProductSplit(p, q);
    var d, h, rest := 2 * p, q / 2, m + if q % 2 == 0 then 0 else p;
    assert n == rest + d * h;
    DivModUnique(h, rest, d);
  }

  /** The subsidy is fifty coins, halved every 210000 blocks. */
  lemma SubsidyHalves(depth: nat)
    requires depth < 13_440_000
    ensures BlockValue(depth) == 5_000_000_000 / PowerOfTwo(depth / 210_000)
  {
    HalvedSubsidy(BLOCK_REWARD * COIN, depth / REWARD_INTERVAL);
    hide ShiftRight;
    hide PowerOfTwo;
  }

  lemma SameNewAll(r: Rules, stored: seq<Block>, txs: seq<Transaction>)
    ensures (forall i | 0 <= i < |txs| :: NewOrUsedUp(r, stored, txs[i]))
            <==> (forall i | 0 <= i < |txs| :: NotDuplicateOrSpent(r, stored, txs[i]))
  {
    forall i | 0 <= i < |txs|
      ensures NewOrUsedUp(r, stored, txs[i]) <==> NotDuplicateOrSpent(r, stored, txs[i])
    {
      SameNew(r, stored, txs[i]);
    }
    hide NewOrUsedUp;
    hide NotDuplicateOrSpent;
  }

  lemma SameSpendAll(r: Rules, view: seq<Block>)
    requires view != []
    ensures AllSpend(r, view)
            <==> forall i | 1 <= i < |view[|view| - 1].transactions| :: TransactionConnects(r, view, i)
  {
    var txs := view[|view| - 1].transactions;
    forall i | 1 <= i < |txs|
      ensures TransactionConnects(r, view, i)
              <==> (forall k | 0 <= k < |txs[i].inputs| :: Spends(r, view, i, k))
                   && TotalOutput(txs[i].outputs) <= InputValue(r, view, txs[i].inputs) <= 2_099_999_997_690_000
    {
      SameTransactionConnects(r, view, i);
    }
    hide TransactionConnects;
    hide Spends;
    hide TotalOutput;
    hide InputValue;
  }

  lemma ConnectedSuffices(r: Rules, fork: nat, below: seq<Block>, b: Block)
    requires fork < |below| && Connected(r, fork, below, b)
    ensures BlockConnects(r, fork, below, b)
  {
    var view, txs := below + [b], b.transactions;
    assert view[|view| - 1] == b;
    SameSpendCounts(r, view, txs);
    SameNewAll(r, below[..fork + 1], txs);
    SameSpendAll(r, view);
    MaxMoneyValue();
    if |below| < 13_440_000 { SubsidyHalves(|below|); }
    hide MaxMoney;
    hide BlockValue;
    hide PowerOfTwo;
    hide ConnectSigops;
    hide Sum;
    hide Fees;
    hide TotalOutput;
    hide NewOrUsedUp;
    hide NotDuplicateOrSpent;
    hide TransactionConnects;
    hide AllSpend;
  }

  lemma ConnectedNeeded(r: Rules, fork: nat, below: seq<Block>, b: Block)
    requires fork < |below| && BlockConnects(r, fork, below, b)
    ensures Connected(r, fork, below, b)
  {
    var view, txs := below + [b], b.transactions;
    assert view[|view| - 1] == b;
    SameSpendCounts(r, view, txs);
    SameNewAll(r, below[..fork + 1], txs);
    SameSpendAll(r, view);
    MaxMoneyValue();
    if |below| < 13_440_000 { SubsidyHalves(|below|); }
    hide MaxMoney;
    hide BlockValue;
    hide PowerOfTwo;
    hide ConnectSigops;
    hide Sum;
    hide Fees;
    hide TotalOutput;
    hide NewOrUsedUp;
    hide NotDuplicateOrSpent;
    hide TransactionConnects;
    hide AllSpend;
  }

  lemma SameConnected(r: Rules, fork: nat, below: seq<Block>, b: Block)
    requires fork < |below|
    ensures Connected(r, fork, below, b) <==> BlockConnects(r, fork, below, b)
  {
    hide *;
    if Connected(r, fork, below, b) { ConnectedSuffices(r, fork, below, b); }
    if BlockConnects(r, fork, below, b) { ConnectedNeeded(r, fork, below, b); }
  }

  lemma SameTransactionConnects(r: Rules, view: seq<Block>, i: nat)
    requires view != [] && i < |view[|view| - 1].transactions|
    ensures var tx := view[|view| - 1].transactions[i];
            TransactionConnects(r, view, i)
            <==> (forall k | 0 <= k < |tx.inputs| :: Spends(r, view, i, k))
                 && TotalOutput(tx.outputs) <= InputValue(r, view, tx.inputs) <= 2_099_999_997_690_000
  {
    MaxMoneyValue();
    hide MaxMoney;
    hide TotalOutput;
    hide InputValue;
    var tx := view[|view| - 1].transactions[i];
    forall k | 0 <= k < |tx.inputs|
      ensures Spends(r, view, i, k) <==> InputConnects(r, view, i, k)
    {
      SameSpends(r, view, i, k);
    }
    hide Spends;
    hide InputConnects;
  }

  /** A block is accepted exactly when it obeys the rules as spelled out here: none is missing from the
      checks, and none is added. */
  lemma RulebookExact(r: Rules, now: nat, fork: nat, below: seq<Block>, b: Block)
    requires fork < |below|
    ensures Accepts(r, now, fork, below, b)
            <==> Checked(r, now, b) && Following(r, below, b) && Connected(r, fork, below, b)
  {
    SameChecked(r, now, b);
    SameFollowing(r, below, b);
    SameConnected(r, fork, below, b);
    hide Checked;
    hide Following;
    hide Connected;
    hide BlockStands;
    hide BlockFollows;
    hide BlockConnects;
  }

  // ---- what a lookup finds

  /** The lookup finds the first transaction with the hash, block by block and within the block. */
  lemma {:induction false} FoundFirst(r: Rules, chain: seq<Block>, hash: Digest) returns (i: nat)
    ensures match FindTx(r, chain, hash)
            case Missing =>
              forall d, j | 0 <= d < |chain| && 0 <= j < |chain[d].transactions| :: r.txHash(chain[d].transactions[j]) != hash
            case Found(tx, depth) =>
              && depth < |chain| && i < |chain[depth].transactions|
              && chain[depth].transactions[i] == tx && r.txHash(tx) == hash
              && (forall j | 0 <= j < i :: r.txHash(chain[depth].transactions[j]) != hash)
              && forall d, j | 0 <= d < depth && 0 <= j < |chain[d].transactions| :: r.txHash(chain[d].transactions[j]) != hash
  {
    i := 0;
    if chain != [] {
      var n := |chain| - 1;
      i := FoundFirst(r, chain[..n], hash);
      if FindTx(r, chain[..n], hash).Missing? {
        i := FirstWithHash(r, chain[n].transactions, hash);
      }
    }
  }

  // ---- every reachable chain

  lemma AcceptedRules(r: Rules, chain: seq<Block>, d: nat) returns (now: nat, fork: nat)
    requires AcceptedChain(r, chain) && 0 < d < |chain|
    ensures fork < d && Checked(r, now, chain[d])
    ensures Following(r, chain[..d], chain[d]) && Connected(r, fork, chain[..d], chain[d])
  {
    hide Accepts;
    hide Checked;
    hide Following;
    hide Connected;
    assert AcceptedOn(r, chain[..d], chain[d]);
    now, fork :| 0 <= fork < |chain[..d]| && Accepts(r, now, fork, chain[..d], chain[d]);
    RulebookExact(r, now, fork, chain[..d], chain[d]);
  }

  /** Every block above genesis of a reachable chain obeys every rule, at some clock and with some part of
      the blocks beneath it stored. */
  lemma ReachableRules(s: Setting, start: World, steps: seq<Step>, d: nat) returns (now: nat, fork: nat)
    requires SoundHashes(s) && FromGenesis(s, start) && Run(s, start, steps) && 0 < d < |End(start, steps).chain|
    ensures var chain := End(start, steps).chain;
            && fork < d && Checked(s.r, now, chain[d])
            && Following(s.r, chain[..d], chain[d]) && Connected(s.r, fork, chain[..d], chain[d])
  {
    hide *;
    ReachableWorld(s, start, steps);
    now, fork := AcceptedRules(s.r, End(start, steps).chain, d);
  }

  lemma AcceptedSpends(r: Rules, chain: seq<Block>, d: nat, i: nat, k: nat)
    requires AcceptedChain(r, chain) && d < |chain|
    requires 0 < i < |chain[d].transactions| && k < |chain[d].transactions[i].inputs|
    ensures chain[..d + 1][d] == chain[d] && Spends(r, chain[..d + 1], i, k)
  {
    hide AcceptedChain;
    hide Spends;
    hide InputConnects;
    hide TransactionConnects;
    ConnectedInput(r, chain, d, i, k);
    SameSpends(r, chain[..d + 1], i, k);
  }

  /** Nothing is spent in a reachable chain that its scripts did not unlock: the output an input names was
      run with the input's script, for that transaction and that input. */
  lemma ReachableScripts(s: Setting, start: World, steps: seq<Step>, d: nat, i: nat, k: nat)
    requires SoundHashes(s) && FromGenesis(s, start) && Run(s, start, steps)
    requires var chain := End(start, steps).chain;
             d < |chain| && 0 < i < |chain[d].transactions| && k < |chain[d].transactions[i].inputs|
    ensures var chain := End(start, steps).chain;
            var tx := chain[d].transactions[i];
            var point := tx.inputs[k].previous;
            var found := FindTx(s.r, chain[..d + 1], point.hash);
            && found.Found? && point.index < |found.tx.outputs|
            && s.r.scriptsPass(found.tx.outputs[point.index].script, tx.inputs[k].script, tx, k,
                               chain[d].timestamp >= 1_333_238_400) == Done(true)
  {
    hide *;
    ReachableWorld(s, start, steps);
    AcceptedSpends(s.r, End(start, steps).chain, d, i, k);
    SpendScripts(s.r, End(start, steps).chain[..d + 1], i, k);
  }

  lemma SpendScripts(r: Rules, view: seq<Block>, i: nat, k: nat)
    requires view != []
    requires i < |view[|view| - 1].transactions| && k < |view[|view| - 1].transactions[i].inputs|
    requires Spends(r, view, i, k)
    ensures var tx := view[|view| - 1].transactions[i];
            var point := tx.inputs[k].previous;
            var found := FindTx(r, view, point.hash);
            && found.Found? && point.index < |found.tx.outputs|
            && r.scriptsPass(found.tx.outputs[point.index].script, tx.inputs[k].script, tx, k,
                             view[|view| - 1].timestamp >= 1_333_238_400) == Done(true)
  {
    hide FindTx;
    hide Names;
    hide MintsCoins;
  }

  /** At every readjustment of a reachable chain the target moves with the time the interval took. */
  lemma ReachableRetarget(s: Setting, start: World, steps: seq<Step>, d: nat)
    requires SoundHashes(s) && FromGenesis(s, start) && Run(s, start, steps)
    requires 2016 <= d < |End(start, steps).chain| && d % 2016 == 0
    ensures var chain := End(start, steps).chain;
            var last, first := chain[d - 1].timestamp, chain[d - 2016].timestamp;
            && 0 < SetCompact(chain[d - 1].bits)
            && Retargeted(chain[d - 1].bits, if last >= first then last - first else last + 0x1_0000_0000 - first, chain[d].bits)
  {
    hide *;
    var chain := End(start, steps).chain;
    ReachableWorld(s, start, steps);
    BitsFollow(s.r, chain, d);
    TargetInRange(s.r, chain, d - 1);
    RetargetMoves(chain[..d]);
  }
}
