/** A run that grows: the hypotheses of the run theorems hold together, and a store makes a new tip. */
module Example {
  import opened Types
  import opened ScriptCodec
  import opened Wire
  import opened BigNumber
  import opened Money
  import opened MedianTime
  import opened Retarget
  import opened Consensus
  import opened BlockValidators
  import opened Reorganization
  import opened Progress
  import opened Runs

  const FIRST_HASH: Digest :=
    [1, 0, 0, 0, 0, 0, 0, 0, 0, 0, 0, 0, 0, 0, 0, 0, 0, 0, 0, 0, 0, 0, 0, 0, 0, 0, 0, 0, 0, 0, 0, 0]
  const NO_BLOCK: Digest :=
    [2, 0, 0, 0, 0, 0, 0, 0, 0, 0, 0, 0, 0, 0, 0, 0, 0, 0, 0, 0, 0, 0, 0, 0, 0, 0, 0, 0, 0, 0, 0, 0]

  /** A coinbase; the version tells two of them apart. */
  function Reward(version: uint32): Transaction {
    Transaction(version, 0,
                [Input(OutPoint(NULL_HASH, UINT32_MAX), [Operation(RAW_DATA, [])], UINT32_MAX)],
                [Output(5_000_000_000, [])])
  }

  const FIRST: Block := Block(1, NO_BLOCK, NULL_HASH, 0, MAX_BITS, 0, [Reward(0)])
  const SECOND: Block := Block(1, FIRST_HASH, NULL_HASH, 1, MAX_BITS, 1, [Reward(1)])

  function CountOutputs(txs: seq<Transaction>): nat {
    if txs == [] then 0 else CountOutputs(txs[..|txs| - 1]) + |txs[|txs| - 1].outputs|
  }

  function SmallRules(): Rules {
    Rules(
      (tx: Transaction) => if tx.version == 0 then FIRST_HASH else NULL_HASH,
      (header: Header) => if header.nonce == 0 then FIRST_HASH else NULL_HASH,
      (hashes: seq<Digest>) => NULL_HASH,
      (b: Block) => CountOutputs(b.transactions),
      (ops: Script) => 2,
      (tx: Transaction) => 0,
      (output: Script, input: Script) => Done(0),
      (output: Script, input: Script, tx: Transaction, index: nat, bip16: bool) => Done(true),
      (ops: Script) => [],
      (depth: nat, hash: Digest) => true)
  }

  function Small(): Setting {
    Setting(SmallRules(), 20, iset{FIRST, SECOND}, (d: Digest) => if d == NULL_HASH then 2 else if d == FIRST_HASH then 1 else 0)
  }

  lemma {:induction false} OutputsCounted(txs: seq<Transaction>, i: nat)
    requires i < |txs|
    ensures |txs[i].outputs| <= CountOutputs(txs)
  {
    var n := |txs| - 1;
    if i < n { OutputsCounted(txs[..n], i); }
  }

  lemma SmallSizes()
    ensures SizeCountsOutputs(SmallRules())
  {
    forall b: Block, i | 0 <= i < |b.transactions|
      ensures |b.transactions[i].outputs| <= SmallRules().rawSize(b)
    {
      OutputsCounted(b.transactions, i);
    }
  }

  lemma Hashes()
    ensures BlockHash(SmallRules(), FIRST) == FIRST_HASH && BlockHash(SmallRules(), SECOND) == NULL_HASH
    ensures FIRST_HASH != NULL_HASH && NO_BLOCK != NULL_HASH && NO_BLOCK != FIRST_HASH
  {
    assert FIRST_HASH[0] == 1 && NO_BLOCK[0] == 2 && NULL_HASH[0] == 0;
  }

  lemma SmallHashes()
    ensures SoundHashes(Small())
  {
    Hashes();
    hide BlockHash;
    var s := Small();
    assert s.rank(NO_BLOCK) == 0 && s.rank(FIRST_HASH) == 1 && s.rank(NULL_HASH) == 2;
  }

  lemma SmallTransactions()
    ensures UniqueTransactions(Small())
  {
    Hashes();
    var s := Small();
    assert s.r.txHash(Reward(0)) == FIRST_HASH && s.r.txHash(Reward(1)) == NULL_HASH;
    forall a, b, i, j | a in s.universe && b in s.universe && 0 <= i < |a.transactions| && 0 <= j < |b.transactions|
                     && s.r.txHash(a.transactions[i]) == s.r.txHash(b.transactions[j])
      ensures a == b && i == j
    {
      assert (a == FIRST || a == SECOND) && (b == FIRST || b == SECOND);
      assert i == 0 && j == 0;
    }
  }

  lemma SmallForm(b: Block)
    requires b == FIRST || b == SECOND
    ensures WellFormedBlock(b)
  {
    var tx := b.transactions[0];
    assert WellFormedInput(tx.inputs[0]) && WellFormedScript(tx.outputs[0].script);
  }

  lemma SmallSound()
    ensures Sound(Small())
  {
    SmallSizes();
    SmallHashes();
    SmallTransactions();
    SmallForm(FIRST);
    SmallForm(SECOND);
    hide UniqueTransactions;
    hide TransactionsTell;
    hide SizeCountsOutputs;
    hide HashesTell;
    hide Acyclic;
    hide WellFormedBlock;
    UniqueTransactionsTell(Small());
  }

  lemma RewardTotal(version: uint32)
    ensures TotalOutput(Reward(version).outputs) == BLOCK_REWARD * COIN
  {
    assert Reward(version).outputs[..0] == [];
  }

  lemma SmallGenesis()
    ensures IsGenesis(FIRST)
  {
    RewardTotal(0);
  }

  lemma ZeroData(bytes: Bytes)
    requires bytes != [] && forall i | 0 <= i < |bytes| :: bytes[i] == 0
    ensures SetData(bytes) == 0
  {
    ValueIsZero(Magnitude(bytes));
  }

  lemma ZeroReversed(hash: Digest)
    requires forall i | 0 <= i < 32 :: hash[i] == 0
    ensures SetData(Reversed(hash)) == 0
  {
    var bytes: Bytes := Reversed(hash);
    hide Reversed;
    hide SetData;
    ZeroData(bytes);
  }

  lemma ZeroHash()
    ensures ProofOfWork(NULL_HASH, MAX_BITS)
  {
    assert forall i | 0 <= i < 32 :: NULL_HASH[i] == 0;
    ZeroReversed(NULL_HASH);
    MaxTargetValue();
    hide Reversed;
    hide SetData;
    hide SetCompact;
  }

  lemma SecondStands(now: nat)
    ensures BlockStands(SmallRules(), now, SECOND)
  {
    Hashes();
    ZeroHash();
    hide ProofOfWork;
    RewardTotal(1);
    MaxMoneyValue();
    hide MaxMoney;
    var txs := SECOND.transactions;
    assert txs[..0] == [];
    assert CountOutputs(txs) == 1 && TotalSigops(SmallRules(), txs) == 0;
    assert TransactionStands(SmallRules(), txs[0]);
  }

  lemma SecondFollows()
    ensures BlockFollows(SmallRules(), [FIRST], SECOND)
  {
    var times := Timestamps([FIRST]);
    assert times == [0];
    assert times[..0] == [] && Recent(times[..0], 10) == [];
    assert Recent(times, 11) == [0];
    assert [0][1..] == [] && Sort([0]) == [0];
  }

  lemma SecondConnects()
    ensures BlockConnects(SmallRules(), 0, [FIRST], SECOND)
  {
    Hashes();
    RewardTotal(1);
    var r, below, txs := SmallRules(), [FIRST], SECOND.transactions;
    assert below[..1] == below && below[..0] == [];
    assert FindTx(r, [], r.txHash(txs[0])).Missing?;
    assert FirstWithHash(r, FIRST.transactions, r.txHash(txs[0])) == 1;
    assert FindTx(r, below, r.txHash(txs[0])).Missing?;
    assert NotDuplicateOrSpent(r, below, txs[0]);
    assert BlockValue(1) == BLOCK_REWARD * COIN;
  }

  /** From the first block alone, storing the second makes it the tip, and observers are told. */
  lemma GrowingRun(clock: nat -> nat) returns (steps: seq<Step>)
    ensures Sound(Small()) && FromGenesis(Small(), World([FIRST], [])) && Run(Small(), World([FIRST], []), steps)
    ensures End(World([FIRST], []), steps) == World([FIRST, SECOND], [])
    ensures Told(steps) == [Notice(0, [SECOND], [])]
  {
    var s, start := Small(), World([FIRST], []);
    SmallStart();
    SmallStep(clock);
    hide *;
    NoSteps(s, start);
    var step := Step(SECOND, clock, World([FIRST, SECOND], []), [Notice(0, [SECOND], [])]);
    OneMore(s, start, [], step);
    steps := [] + [step];
  }

  lemma SmallStart()
    ensures Sound(Small()) && SoundHashes(Small()) && FromGenesis(Small(), World([FIRST], []))
    ensures Inv(Small(), World([FIRST], [])) && SECOND in Small().universe
  {
    SmallSound();
    SmallHashes();
    SmallGenesis();
    GenesisInv(Small(), FIRST);
    hide Sound;
    hide SoundHashes;
    hide IsGenesis;
    hide Inv;
  }

  lemma SmallStep(clock: nat -> nat)
    ensures Stored(Small(), clock, World([FIRST], []), SECOND, World([FIRST, SECOND], []), [Notice(0, [SECOND], [])])
  {
    hide *;
    var start := [FIRST];
    SmallStart();
    SmallParts();
    SecondAccepted(clock(0));
    assert start[|start| - 1] == FIRST && start + [SECOND] == [FIRST, SECOND];
    TipGrows(Small(), clock, World(start, []), SECOND);
  }

  lemma SmallParts()
    ensures Small().r == SmallRules() && Small().capacity == 20
    ensures SECOND.previous == BlockHash(SmallRules(), FIRST) && !HasHeader([], HeaderOf(SECOND))
    ensures Without(PushBack([], SECOND, 20), [SECOND]) == []
  {
    Hashes();
    hide BlockHash;
    assert PushBack([], SECOND, 20) == [SECOND] && [SECOND][1..] == [];
  }

  lemma SecondAccepted(now: nat)
    ensures Accepts(SmallRules(), now, 0, [FIRST], SECOND)
  {
    SecondStands(now);
    SecondFollows();
    SecondConnects();
    hide BlockStands;
    hide BlockFollows;
    hide BlockConnects;
  }
}
