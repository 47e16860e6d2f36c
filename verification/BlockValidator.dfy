/** `bdb_validate_block`: one validation, of the orphan at `index` of a branch that leaves the stored
    chain above depth `fork`. It reads the tables and the branch and changes neither. */
module BlockValidators {
  import opened Types
  import opened Wire
  import opened BigNumber
  import opened Money
  import opened MedianTime
  import opened Retarget
  import opened Consensus
  import opened Tables
  import opened ForkView
  import opened ChainKeepers
  import opened Validator

  /** Every output takes up room in the serialized block. */
  ghost predicate SizeCountsOutputs(r: Rules) {
    forall b: Block, i | 0 <= i < |b.transactions| :: |b.transactions[i].outputs| <= r.rawSize(b)
  }

  class BlockValidator {
    const r: Rules
    const db: Store
    const fork: nat
    const orphans: seq<Block>
    const index: nat
    const depth: nat
    const current: Block
    ghost const chain: seq<Block>

    constructor (r: Rules, db: Store, fork: nat, orphans: seq<Block>, index: nat, ghost chain: seq<Block>)
      requires fork < |chain| && index < |orphans| && SizeCountsOutputs(r)
      requires db == StoreOfChain(r, chain) && Clean(ChainRows(r, 0, chain))
      requires forall d | 0 <= d < |chain| :: WellFormedBlock(chain[d])
      ensures Valid()
      ensures this.r == r && this.fork == fork && current == orphans[index]
      ensures Below() == chain[..fork + 1] + orphans[..index]
    {
      this.r, this.db, this.fork, this.orphans, this.index := r, db, fork, orphans, index;
      this.depth, this.current, this.chain := fork + index + 1, orphans[index], chain;
    }

    ghost predicate Valid() {
      && fork < |chain| && index < |orphans| && depth == fork + index + 1 && current == orphans[index]
      && db == StoreOfChain(r, chain) && Clean(ChainRows(r, 0, chain)) && SizeCountsOutputs(r)
      && forall d | 0 <= d < |chain| :: WellFormedBlock(chain[d])
    }

    ghost function Stored(): (stored: seq<Block>)
      requires Valid()
      ensures |stored| == fork + 1
    {
      chain[..fork + 1]
    }

    /** The blocks beneath the validated one. */
    ghost function Below(): (below: seq<Block>)
      requires Valid()
      ensures |below| == depth > fork && below[..fork + 1] == Stored()
    {
      Stored() + orphans[..index]
    }

    ghost function View(): (view: seq<Block>)
      requires Valid()
      ensures |view| == depth + 1 && view[..depth] == Below() && view[depth] == current && view == Stored() + orphans[..index + 1]
    {
      JoinNext(Stored(), orphans, index);
      Below() + [current]
    }

    // ---- the fork view

    method FetchBlock(d: nat) returns (bits: uint32, timestamp: uint32)
      requires Valid() && d <= depth
      ensures bits == View()[d].bits && timestamp == View()[d].timestamp
    {
      ChainBlockTable(r, chain);
      hide StoreOfChain;
      hide Clean;
      hide TxHashes;
      if d > fork {
        var orphan := orphans[d - fork - 1];
        return orphan.bits, orphan.timestamp;
      }
      assert d in db.blocks;
      var header := db.blocks[d].header;
      return header.bits, header.timestamp;
    }

    /** Unsigned 32-bit subtraction of the timestamps. */
    method ActualTimespan(interval: nat) returns (span: uint32)
      requires Valid() && 0 < interval <= depth
      ensures span == Timespan(Below()[depth - 1].timestamp, Below()[depth - interval].timestamp)
    {
      var _, last := FetchBlock(depth - 1);
      var _, first := FetchBlock(depth - interval);
      hide Valid;
      return Timespan(last, first);
    }

    method WorkRequiredHere() returns (bits: uint32)
      requires Valid()
      ensures bits == WorkRequired(Below())
    {
      hide *;
      WorkCases(Below());
      IntervalFits(depth);
      var previousBits, _ := FetchBlock(depth - 1);
      if depth % READJUSTMENT_INTERVAL != 0 { return previousBits; }
      var actual := ActualTimespan(READJUSTMENT_INTERVAL);
      ReadjustSteps(previousBits, actual);
      var clamped := RangeConstraint(actual, TARGET_TIMESPAN / 4, TARGET_TIMESPAN * 4);
      var retarget := SetCompact(previousBits);
      retarget := retarget * clamped;
      retarget := TruncatedQuotient(retarget, TARGET_TIMESPAN);
      if retarget > MaxTarget() { retarget := MaxTarget(); }
      return Compact(retarget);
    }

    method MedianTimePastHere() returns (time: nat)
      requires Valid()
      ensures time == MedianTimePast(Timestamps(Below()))
    {
      hide Valid;
      hide Collecting;
      ghost var ts := Timestamps(Below());
      var times: seq<nat> := [];
      var i := depth - 1;
      CollectNone(ts);
      while i >= 0 && i >= depth - 11
        invariant -1 <= i < depth && |times| == depth - 1 - i <= 11
        invariant Collecting(ts, i + 1, times)
      {
        var _, t := FetchBlock(i);
        CollectOne(ts, i + 1, times);
        times := times + [t];
        i := i - 1;
      }
      CollectAll(ts, i + 1, times);
      return Sort(times)[|times| / 2];
    }

    /** `transaction_exists`: stored blocks only. */
    method TransactionExists(hash: Digest) returns (known: bool)
      requires Valid()
      ensures known == FindTx(r, Stored(), hash).Found?
    {
      TxTableAnswers(r, chain, fork, hash);
      hide StoreOfChain;
      hide Clean;
      return hash in db.txs && !AfterFork(db.txs[hash], fork);
    }

    lemma TxLookup(hash: Digest)
      requires Valid()
      ensures var m := db.txs;
              if hash in m && !AfterFork(m[hash], fork)
              then |m[hash].parents| == 1 && FromRaw(m[hash].raw).Done?
                   && FindTx(r, View(), hash) == Found(FromRaw(m[hash].raw).value, m[hash].parents[0].0)
              else FindTx(r, View(), hash) ==
                   match FindTx(r, orphans[..index + 1], hash)
                   case Found(tx, d) => Found(tx, fork + d + 1)
                   case Missing => Missing
    {
      hide StoreOfChain;
      hide Clean;
      hide FromRaw;
      hide AfterFork;
      hide WellFormedBlock;
      hide SizeCountsOutputs;
      hide FindTx;
      assert View() == chain[..fork + 1] + orphans[..index + 1];
      StoredLookup(r, chain, fork, orphans[..index + 1], hash);
    }

    method FetchTransaction(hash: Digest) returns (found: Found)
      requires Valid()
      ensures found == FindTx(r, View(), hash)
    {
      assert index < |orphans|;
      hide *;
      TxLookup(hash);
      if hash !in db.txs || AfterFork(db.txs[hash], fork) {
        var orphan := FindInBlocks(r, orphans[..index + 1], hash);
        return if orphan.Found? then Found(orphan.tx, fork + orphan.depth + 1) else Missing;
      }
      var row := db.txs[hash];
      return Found(FromRaw(row.raw).value, row.parents[0].0);
    }

    lemma SpendLookup(output: OutPoint)
      requires Valid() && !PreviousOutputIsNull(output)
      ensures output in db.spends ==> db.spends[output].hash in db.txs
      ensures NamedIn(Stored(), output)
              <==> output in db.spends && !AfterFork(db.txs[db.spends[output].hash], fork)
    {
      hide StoreOfChain;
      hide Clean;
      hide NamedIn;
      hide AfterFork;
      hide WellFormedBlock;
      hide SizeCountsOutputs;
      hide PreviousOutputIsNull;
      SpendTableAnswers(r, chain, fork, output);
    }

    /** The stored half of the double-spend search. */
    method IsOutputSpent(output: OutPoint) returns (spent: bool)
      requires Valid() && !PreviousOutputIsNull(output)
      ensures spent <==> NamedIn(Stored(), output)
    {
      hide *;
      SpendLookup(output);
      if output !in db.spends { return false; }
      return !AfterFork(db.txs[db.spends[output].hash], fork);
    }

    method IsOutputSpentBy(output: OutPoint, txIndex: nat, inputIndex: nat) returns (spent: bool)
      requires Valid() && !PreviousOutputIsNull(output)
      ensures spent <==> SpentElsewhere(View(), output, depth, txIndex, inputIndex)
    {
      hide SpentElsewhere;
      hide NamedIn;
      SpentSplit(chain[..fork + 1], orphans[..index + 1], output, txIndex, inputIndex);
      spent := IsOutputSpent(output);
      if !spent {
        spent := BlocksName(orphans[..index + 1], output, txIndex, inputIndex);
      }
    }

    // ---- check_block

    method UniqueHashes() returns (unique: bool)
      ensures unique <==> Distinct(TxHashes(r, current.transactions))
    {
      var txs := current.transactions;
      ghost var hashes := TxHashes(r, txs);
      var seen: set<Digest> := {};
      for i := 0 to |txs|
        invariant seen == Members(hashes[..i])
      {
        MembersAppend(hashes[..i], hashes[i]);
        assert hashes[..i] + [hashes[i]] == hashes[..i + 1];
        seen := seen + {r.txHash(txs[i])};
      }
      assert hashes[..|txs|] == hashes;
      MembersCount(hashes);
      return |seen| == |txs|;
    }

    method LegacySigopsCount() returns (total: nat)
      ensures total == TotalSigops(r, current.transactions)
    {
      var txs := current.transactions;
      total := 0;
      for i := 0 to |txs|
        invariant total == TotalSigops(r, txs[..i])
      {
        assert txs[..i + 1][..i] == txs[..i];
        total := total + r.sigops(txs[i]);
      }
      assert txs[..|txs|] == txs;
    }

    method CheckTransactions() returns (v: Verdict)
      ensures v.Ok? <==> forall i | 0 <= i < |current.transactions| :: TransactionStands(r, current.transactions[i])
    {
      hide TransactionStands;
      for i := 0 to |current.transactions|
        invariant forall j | 0 <= j < i :: TransactionStands(r, current.transactions[j])
      {
        v := CheckTransaction(r, current.transactions[i]);
        if !v.Ok? { return; }
      }
      return Ok;
    }

    method CheckBlock(now: nat) returns (v: Verdict)
      ensures v.Ok? <==> BlockStands(r, now, current)
    {
      hide TransactionStands;
      hide Distinct;
      hide TxHashes;
      hide TotalSigops;
      hide ProofOfWork;
      hide IsCoinbase;
      var txs := current.transactions;
      if txs == [] || |txs| > MAX_BLOCK_SIZE || r.rawSize(current) > MAX_BLOCK_SIZE { return SizeLimits; }
      if !ProofOfWork(r.headerHash(HeaderOf(current)), current.bits) { return BadProofOfWork; }
      if current.timestamp > now + 2 * 60 * 60 { return FuturisticTimestamp; }
      if !IsCoinbase(txs[0]) { return FirstNotCoinbase; }
      for i := 1 to |txs|
        invariant forall j | 1 <= j < i :: !IsCoinbase(txs[j])
      {
        if IsCoinbase(txs[i]) { return ExtraCoinbases; }
      }
      v := CheckTransactions();
      if !v.Ok? { return; }
      var unique := UniqueHashes();
      if !unique { return Duplicate; }
      var sigops := LegacySigopsCount();
      if sigops > MAX_SIGOPS { return TooManySigs; }
      if current.merkle != r.merkleRoot(TxHashes(r, txs)) { return MerkleMismatch; }
      return Ok;
    }

    // ---- accept_block

    method AcceptBlock() returns (v: Verdict)
      requires Valid()
      ensures v.Ok? <==> BlockFollows(r, Below(), current)
    {
      hide Valid;
      hide IsFinal;
      hide WorkRequired;
      hide MedianTimePast;
      hide Timestamps;
      var required := WorkRequiredHere();
      if current.bits != required { return IncorrectProofOfWork; }
      var median := MedianTimePastHere();
      if current.timestamp <= median { return TimestampTooEarly; }
      for i := 0 to |current.transactions|
        invariant forall j | 0 <= j < i :: IsFinal(current.transactions[j], depth, current.timestamp)
      {
        if !IsFinal(current.transactions[i], depth, current.timestamp) { return NonFinalTransaction; }
      }
      if !r.checkpoint(depth, r.headerHash(HeaderOf(current))) { return CheckpointsFailed; }
      return Ok;
    }

    // ---- connect_block

    method NotDuplicateOrSpentHere(tx: Transaction) returns (ok: bool)
      requires Valid() && |tx.outputs| <= UINT32_MAX
      ensures ok <==> NotDuplicateOrSpent(r, Stored(), tx)
    {
      hide Valid;
      ghost var stored := Stored();
      var hash := r.txHash(tx);
      var known := TransactionExists(hash);
      if !known { return true; }
      for j := 0 to |tx.outputs|
        invariant forall j' | 0 <= j' < j :: SpentIn(stored, hash, j')
      {
        SpentIsNamed(stored, hash, j);
        var spent := IsOutputSpent(OutPoint(hash, j));
        if !spent { return false; }
      }
      return true;
    }

    /** `connect_input`, for an input that names an output: it succeeds exactly when the input connects
        and neither running total leaves its range. */
    method ConnectInput(i: nat, k: nat, valueIn: uint64, sigops: nat) returns (v: Verdict, value: uint64, sigs: nat)
      requires Valid() && i < |current.transactions| && k < |current.transactions[i].inputs|
      requires !PreviousOutputIsNull(current.transactions[i].inputs[k].previous) && valueIn <= MaxMoney()
      ensures var input := current.transactions[i].inputs[k];
              v.Ok? <==> && InputConnects(r, View(), i, k)
                         && sigops + InputSigops(r, View(), input) <= MAX_SIGOPS
                         && valueIn + OutputValue(r, View(), input.previous) <= MaxMoney()
      ensures v.Ok? ==>
                && value == valueIn + OutputValue(r, View(), current.transactions[i].inputs[k].previous) <= MaxMoney()
                && sigs == sigops + InputSigops(r, View(), current.transactions[i].inputs[k])
    {
      MaxMoneyValue();
      hide Valid;
      hide MaxMoney;
      hide FindTx;
      hide SpentElsewhere;
      hide IsCoinbase;
      value, sigs := valueIn, sigops;
      var tx := current.transactions[i];
      var input := tx.inputs[k];
      var found := FetchTransaction(input.previous.hash);
      if found.Missing? { return ValidateInputsFailed, value, sigs; }
      if input.previous.index >= |found.tx.outputs| { return UndefinedRead, value, sigs; }
      var output := found.tx.outputs[input.previous.index];
      var count := r.inputSigops(output.script, input.script);
      if !count.Done? { return UndefinedRead, value, sigs; }
      sigs := sigs + count.value;
      if sigs > MAX_SIGOPS || output.value > MaxMoney() { return ValidateInputsFailed, value, sigs; }
      if IsCoinbase(found.tx) && depth - found.depth < COINBASE_MATURITY { return ValidateInputsFailed, value, sigs; }
      var passed := r.scriptsPass(output.script, input.script, tx, k, current.timestamp >= BIP16_SWITCHOVER);
      if passed != Done(true) { return if passed.Undefined? then UndefinedRead else ValidateInputsFailed, value, sigs; }
      var spent := IsOutputSpentBy(input.previous, i, k);
      if spent { return ValidateInputsFailed, value, sigs; }
      value := value + output.value;
      return if value > MaxMoney() then ValidateInputsFailed else Ok, value, sigs;
    }

    method ValidateInputs(i: nat, sigops: nat) returns (v: Verdict, value: uint64, sigs: nat)
      requires Valid() && i < |current.transactions|
      requires forall k | 0 <= k < |current.transactions[i].inputs| ::
                 !PreviousOutputIsNull(current.transactions[i].inputs[k].previous)
      requires sigops <= MAX_SIGOPS
      ensures var inputs := current.transactions[i].inputs;
              v.Ok? <==> && (forall k | 0 <= k < |inputs| :: InputConnects(r, View(), i, k))
                         && sigops + SigopsOfInputs(r, View(), inputs) <= MAX_SIGOPS
                         && InputValue(r, View(), inputs) <= MaxMoney()
      ensures v.Ok? ==>
                && value == InputValue(r, View(), current.transactions[i].inputs) <= MaxMoney()
                && sigs == sigops + SigopsOfInputs(r, View(), current.transactions[i].inputs)
    {
      hide Valid;
      hide MaxMoney;
      hide InputConnects;
      hide OutputValue;
      hide SigopsOfInput;
      hide PreviousOutputIsNull;
      var inputs := current.transactions[i].inputs;
      value, sigs := 0, sigops;
      for k := 0 to |inputs|
        invariant forall j | 0 <= j < k :: InputConnects(r, View(), i, j)
        invariant value == InputValue(r, View(), inputs[..k]) <= MaxMoney()
        invariant sigs == sigops + SigopsOfInputs(r, View(), inputs[..k]) <= MAX_SIGOPS
      {
        InputValueGrows(r, View(), inputs, k + 1);
        assert inputs[..k + 1][..k] == inputs[..k];
        v, value, sigs := ConnectInput(i, k, value, sigs);
        if !v.Ok? { return; }
      }
      assert inputs[..|inputs|] == inputs;
      return Ok, value, sigs;
    }

    method NoneDuplicate() returns (ok: bool)
      requires Valid() && (forall i | 0 <= i < |current.transactions| :: |current.transactions[i].outputs| <= UINT32_MAX)
      ensures ok <==> forall i | 0 <= i < |current.transactions| ::
                        NotDuplicateOrSpent(r, Stored(), current.transactions[i])
    {
      hide Valid;
      hide NotDuplicateOrSpent;
      for i := 0 to |current.transactions|
        invariant forall j | 0 <= j < i :: NotDuplicateOrSpent(r, Stored(), current.transactions[j])
      {
        ok := NotDuplicateOrSpentHere(current.transactions[i]);
        if !ok { return; }
      }
      return true;
    }

    /** One turn of the loop of `connect_block`. */
    method ConnectTransaction(i: nat, fees: uint64, sigops: nat) returns (v: Verdict, total: uint64, sigs: nat)
      requires Valid() && i < |current.transactions|
      requires TransactionStands(r, current.transactions[i]) && !IsCoinbase(current.transactions[i])
      requires fees <= MaxMoney()
      ensures var tx := current.transactions[i];
              var fee := InputValue(r, View(), tx.inputs) - TotalOutput(tx.outputs);
              v.Ok? <==> && TransactionConnects(r, View(), i)
                         && sigops + r.sigops(tx) + SigopsOfInputs(r, View(), tx.inputs) <= MAX_SIGOPS
                         && fees + fee <= MaxMoney()
      ensures v.Ok? ==>
                var tx := current.transactions[i];
                && total == fees + InputValue(r, View(), tx.inputs) - TotalOutput(tx.outputs) <= MaxMoney()
                && sigs == sigops + r.sigops(tx) + SigopsOfInputs(r, View(), tx.inputs)
    {
      hide Valid;
      hide MaxMoney;
      hide InputConnects;
      hide InputValue;
      hide SigopsOfInputs;
      hide TotalOutput;
      hide PreviousOutputIsNull;
      MaxMoneyValue();
      var tx := current.transactions[i];
      total := fees;
      sigs := sigops + r.sigops(tx);
      if sigs > MAX_SIGOPS { return TooManySigs, total, sigs; }
      var value;
      v, value, sigs := ValidateInputs(i, sigs);
      if !v.Ok? { return; }
      var ok, sum := TallyFees(tx, value, fees);
      if !ok { return FeesOutOfRange, total, sigs; }
      total := sum;
    }

    /** The loop of `connect_block`. */
    method ConnectTransactions() returns (v: Verdict, fees: uint64)
      requires Valid() && Standing(r, current)
      ensures var txs := current.transactions;
              v.Ok? <==> && (forall i | 1 <= i < |txs| :: TransactionConnects(r, View(), i))
                         && ConnectSigops(r, View(), txs) <= MAX_SIGOPS
                         && Fees(r, View(), txs) <= MaxMoney()
      ensures v.Ok? ==> fees == Fees(r, View(), current.transactions) <= MaxMoney()
    {
      hide Valid;
      hide MaxMoney;
      hide TransactionStands;
      hide IsCoinbase;
      hide TransactionConnects;
      hide InputValue;
      hide TotalOutput;
      hide SigopsOfInputs;
      hide PreviousOutputIsNull;
      NoTotals(r, View(), current.transactions);
      hide Fees;
      hide ConnectSigops;
      var txs := current.transactions;
      ghost var view := View();
      fees := 0;
      var sigops := 0;
      for i := 1 to |txs|
        invariant forall j | 1 <= j < i :: TransactionConnects(r, view, j)
        invariant fees == Fees(r, view, txs[..i]) <= MaxMoney()
        invariant sigops == ConnectSigops(r, view, txs[..i]) <= MAX_SIGOPS
      {
        PrefixTotals(r, view, txs, i);
        v, fees, sigops := ConnectTransaction(i, fees, sigops);
        if !v.Ok? { return; }
      }
      assert txs[..|txs|] == txs;
      return Ok, fees;
    }

    method ConnectBlock() returns (v: Verdict)
      requires Valid() && Standing(r, current)
      requires forall i | 0 <= i < |current.transactions| :: |current.transactions[i].outputs| <= UINT32_MAX
      ensures v.Ok? <==> BlockConnects(r, fork, Below(), current)
    {
      MaxMoneyValue();
      hide Valid;
      hide MaxMoney;
      hide NotDuplicateOrSpent;
      hide TransactionConnects;
      hide TotalOutput;
      hide Fees;
      hide ConnectSigops;
      hide BlockValue;
      if depth != 91842 && depth != 91880 {
        var none := NoneDuplicate();
        if !none { return DuplicateOrSpent; }
      }
      var fees;
      v, fees := ConnectTransactions();
      if !v.Ok? { return; }
      if depth >= SHIFT_LIMIT { return UndefinedRead; }
      BlockValueBound(depth);
      var coinbaseValue := TotalOutputValue(current.transactions[0]);
      var limit: uint64 := BlockValue(depth) + fees;
      return if coinbaseValue > limit then CoinbaseTooLarge else Ok;
    }

    /** `validate_block::start`: the block is accepted exactly when the chain may go on with it. */
    method Start(now: nat) returns (v: Verdict)
      requires Valid()
      ensures v.Ok? <==> Accepts(r, now, fork, Below(), current)
    {
      hide BlockStands;
      hide BlockFollows;
      hide BlockConnects;
      v := CheckBlock(now);
      if !v.Ok? { return; }
      StandingBlock(r, now, current);
      assert SizeCountsOutputs(r);
      v := AcceptBlock();
      if !v.Ok? { return; }
      v := ConnectBlock();
    }
  }

  /** A lookup in the table, and past the fork in the blocks, is a lookup in all of them. */
  lemma StoredLookup(r: Rules, chain: seq<Block>, fork: nat, tail: seq<Block>, hash: Digest)
    requires Clean(ChainRows(r, 0, chain)) && fork < |chain|
    requires forall d | 0 <= d < |chain| :: WellFormedBlock(chain[d])
    ensures var m := StoreOfChain(r, chain).txs;
            var view := chain[..fork + 1] + tail;
            if hash in m && !AfterFork(m[hash], fork)
            then |m[hash].parents| == 1 && FromRaw(m[hash].raw).Done?
                 && FindTx(r, view, hash) == Found(FromRaw(m[hash].raw).value, m[hash].parents[0].0)
            else FindTx(r, view, hash) ==
                 match FindTx(r, tail, hash)
                 case Found(tx, d) => Found(tx, fork + d + 1)
                 case Missing => Missing
  {
    hide *;
    TxTableAnswers(r, chain, fork, hash);
    FindTxAppend(r, chain[..fork + 1], tail, hash);
  }

  lemma JoinNext(a: seq<Block>, b: seq<Block>, i: nat)
    requires i < |b|
    ensures (a + b[..i]) + [b[i]] == a + b[..i + 1]
  {
  }

  /** What `check_block` leaves known about the transactions of a block. */
  predicate Standing(r: Rules, b: Block) {
    && b.transactions != [] && IsCoinbase(b.transactions[0])
    && (forall i | 1 <= i < |b.transactions| :: !IsCoinbase(b.transactions[i]))
    && (forall i | 0 <= i < |b.transactions| :: TransactionStands(r, b.transactions[i]))
  }

  lemma StandingBlock(r: Rules, now: nat, b: Block)
    requires BlockStands(r, now, b) && SizeCountsOutputs(r)
    ensures Standing(r, b)
    ensures forall i | 0 <= i < |b.transactions| :: |b.transactions[i].outputs| <= MAX_BLOCK_SIZE
  {
    hide TransactionStands;
  }

  function InputSigops(r: Rules, view: seq<Block>, input: Input): nat {
    var count := SigopsOfInput(r, view, input);
    if count.Done? then count.value else 0
  }

  lemma NoTotals(r: Rules, view: seq<Block>, txs: seq<Transaction>)
    requires txs != []
    ensures Fees(r, view, txs[..1]) == 0 && ConnectSigops(r, view, txs[..1]) == 0
  {
  }

  /** The totals of a block reach those of every prefix of it, one transaction at a time. */
  lemma {:induction false} PrefixTotals(r: Rules, view: seq<Block>, txs: seq<Transaction>, i: nat)
    requires view != [] && txs == view[|view| - 1].transactions && 1 <= i < |txs|
    ensures ConnectSigops(r, view, txs[..i + 1])
            == ConnectSigops(r, view, txs[..i]) + r.sigops(txs[i]) + SigopsOfInputs(r, view, txs[i].inputs)
    ensures Fees(r, view, txs[..i + 1])
            == Fees(r, view, txs[..i]) + InputValue(r, view, txs[i].inputs) - TotalOutput(txs[i].outputs)
    ensures ConnectSigops(r, view, txs[..i + 1]) <= ConnectSigops(r, view, txs)
    ensures (forall j | 1 <= j < |txs| :: TransactionConnects(r, view, j)) ==>
              Fees(r, view, txs[..i + 1]) <= Fees(r, view, txs)
  {
    hide InputConnects;
    hide InputValue;
    hide TotalOutput;
    hide SigopsOfInputs;
    assert txs[..i + 1][..i] == txs[..i];
    ConnectSigopsGrows(r, view, txs, i + 1);
    if forall j | 1 <= j < |txs| :: TransactionConnects(r, view, j) {
      forall j | 1 <= j < |txs|
        ensures TotalOutput(txs[j].outputs) <= InputValue(r, view, txs[j].inputs)
      {
        assert TransactionConnects(r, view, j);
      }
      FeesGrow(r, view, txs, i + 1);
    }
  }

  lemma SpentIsNamed(chain: seq<Block>, hash: Digest, j: uint32)
    ensures SpentIn(chain, hash, j) <==> NamedIn(chain, OutPoint(hash, j))
  {
    if NamedIn(chain, OutPoint(hash, j)) {
      var d: nat, i: nat, k: nat :| Names(chain, d, i, k, OutPoint(hash, j));
      assert SpentIn(chain, hash, j);
    }
    if SpentIn(chain, hash, j) {
      var d: nat, i: nat, k: nat, o :| Names(chain, d, i, k, o) && o.hash == hash && o.index == j;
      assert o == OutPoint(hash, j);
    }
  }

  /** A list is free of repeats exactly when its set is as large as the list. */
  lemma {:induction false} MembersCount<T>(s: seq<T>)
    ensures |Members(s)| <= |s|
    ensures |Members(s)| == |s| <==> Distinct(s)
  {
    if s == [] {
      assert Members(s) == {};
    } else {
      var n := |s| - 1;
      MembersCount(s[..n]);
      MembersAppend(s[..n], s[n]);
      assert s[..n] + [s[n]] == s;
      assert s[n] in Members(s[..n]) <==> exists i | 0 <= i < n :: s[i] == s[n];
      assert Distinct(s) ==> Distinct(s[..n]);
    }
  }
}
