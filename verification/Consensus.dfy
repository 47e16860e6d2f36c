/** When a block may follow a chain: the three checks of `validate_block`, stated over the blocks
    beneath it and free of any table or traversal order. */
module Consensus {
  import opened Types
  import opened BigNumber
  import opened Money
  import opened MedianTime
  import opened Retarget

  const MAX_BLOCK_SIZE: nat := 1_000_000
  const MAX_SIGOPS: nat := MAX_BLOCK_SIZE / 50
  const LOCKTIME_THRESHOLD: nat := 500_000_000
  const BIP16_SWITCHOVER: nat := 1_333_238_400

  /** The error codes of a validation; `UndefinedRead` stands for a read that C++ leaves undefined. */
  datatype Verdict =
    | Ok
    | EmptyTransaction | OutputValueOverflow | InvalidCoinbaseScriptSize | PreviousOutputNull
    | SizeLimits | BadProofOfWork | FuturisticTimestamp | FirstNotCoinbase | ExtraCoinbases
    | Duplicate | TooManySigs | MerkleMismatch
    | IncorrectProofOfWork | TimestampTooEarly | NonFinalTransaction | CheckpointsFailed
    | DuplicateOrSpent | ValidateInputsFailed | FeesOutOfRange | CoinbaseTooLarge
    | PreviousBlockInvalid | UndefinedRead

  /** The functions of a block or transaction that the checks consult. */
  datatype Rules = Rules(
    txHash: Transaction -> Digest,
    headerHash: Header -> Digest,
    merkleRoot: seq<Digest> -> Digest,
    rawSize: Block -> nat,
    scriptSize: Script -> nat,
    sigops: Transaction -> nat,
    inputSigops: (Script, Script) -> Outcome<nat>,
    scriptsPass: (Script, Script, Transaction, nat, bool) -> Outcome<bool>,
    addressKey: Script -> Bytes,
    checkpoint: (nat, Digest) -> bool)

  function BlockHash(r: Rules, b: Block): Digest { r.headerHash(HeaderOf(b)) }

  // ---- transactions

  function TotalOutput(outputs: seq<Output>): nat {
    if outputs == [] then 0 else TotalOutput(outputs[..|outputs| - 1]) + outputs[|outputs| - 1].value
  }

  /** `check_transaction`. */
  predicate TransactionStands(r: Rules, tx: Transaction) {
    && tx.inputs != [] && tx.outputs != []
    && TotalOutput(tx.outputs) <= MaxMoney()
    && (if IsCoinbase(tx) then 2 <= r.scriptSize(tx.inputs[0].script) <= 100
        else forall k | 0 <= k < |tx.inputs| :: !PreviousOutputIsNull(tx.inputs[k].previous))
  }

  /** `is_final` of a transaction. */
  predicate IsFinal(tx: Transaction, depth: nat, time: nat) {
    || tx.locktime == 0
    || tx.locktime < (if tx.locktime < LOCKTIME_THRESHOLD then depth % 0x1_0000_0000 else time)
    || forall k | 0 <= k < |tx.inputs| :: tx.inputs[k].sequence == UINT32_MAX
  }

  // ---- check_block

  function TxHashes(r: Rules, txs: seq<Transaction>): (hs: seq<Digest>)
    ensures |hs| == |txs| && forall i | 0 <= i < |txs| :: hs[i] == r.txHash(txs[i])
  {
    seq(|txs|, i requires 0 <= i < |txs| => r.txHash(txs[i]))
  }

  function TotalSigops(r: Rules, txs: seq<Transaction>): nat {
    if txs == [] then 0 else TotalSigops(r, txs[..|txs| - 1]) + r.sigops(txs[|txs| - 1])
  }

  /** The hash goes through the signed number form, so one with its top bit set counts as negative. */
  predicate ProofOfWork(hash: Digest, bits: uint32) {
    0 < SetCompact(bits) <= MaxTarget() && SetData(Reversed(hash)) <= SetCompact(bits)
  }

  predicate BlockStands(r: Rules, now: nat, b: Block) {
    var txs := b.transactions;
    && 0 < |txs| <= MAX_BLOCK_SIZE && r.rawSize(b) <= MAX_BLOCK_SIZE
    && ProofOfWork(BlockHash(r, b), b.bits)
    && b.timestamp <= now + 2 * 60 * 60
    && IsCoinbase(txs[0]) && (forall i | 1 <= i < |txs| :: !IsCoinbase(txs[i]))
    && (forall i | 0 <= i < |txs| :: TransactionStands(r, txs[i]))
    && Distinct(TxHashes(r, txs))
    && TotalSigops(r, txs) <= MAX_SIGOPS
    && b.merkle == r.merkleRoot(TxHashes(r, txs))
  }

  // ---- accept_block

  function Timestamps(chain: seq<Block>): (ts: seq<nat>)
    ensures |ts| == |chain| && forall i | 0 <= i < |chain| :: ts[i] == chain[i].timestamp
  {
    seq(|chain|, i requires 0 <= i < |chain| => chain[i].timestamp)
  }

  predicate BlockFollows(r: Rules, below: seq<Block>, b: Block)
    requires below != []
  {
    && b.bits == WorkRequired(below)
    && b.timestamp > MedianTimePast(Timestamps(below))
    && (forall i | 0 <= i < |b.transactions| :: IsFinal(b.transactions[i], |below|, b.timestamp))
    && r.checkpoint(|below|, BlockHash(r, b))
  }

  // ---- looking things up in a chain by scanning it

  datatype Found = Found(tx: Transaction, depth: nat) | Missing

  function FirstWithHash(r: Rules, txs: seq<Transaction>, hash: Digest): (i: nat)
    ensures i <= |txs|
    ensures forall j | 0 <= j < i :: r.txHash(txs[j]) != hash
    ensures i < |txs| ==> r.txHash(txs[i]) == hash
  {
    if txs == [] || r.txHash(txs[0]) == hash then 0 else 1 + FirstWithHash(r, txs[1..], hash)
  }

  /** The first transaction with a hash, block by block. */
  function FindTx(r: Rules, chain: seq<Block>, hash: Digest): Found {
    if chain == [] then Missing else
      var n := |chain| - 1;
      var earlier := FindTx(r, chain[..n], hash);
      if earlier.Found? then earlier else
        var txs := chain[n].transactions;
        var i := FirstWithHash(r, txs, hash);
        if i < |txs| then Found(txs[i], n) else Missing
  }

  /** Input `k` of transaction `i` of block `d` names the output. */
  predicate Names(chain: seq<Block>, d: nat, i: nat, k: nat, output: OutPoint) {
    && d < |chain| && i < |chain[d].transactions| && k < |chain[d].transactions[i].inputs|
    && chain[d].transactions[i].inputs[k].previous == output
  }

  /** Some input other than the given one names the output. */
  ghost predicate SpentElsewhere(chain: seq<Block>, output: OutPoint, d: nat, i: nat, k: nat) {
    exists d', i', k' :: Names(chain, d', i', k', output) && !(d' == d && i' == i && k' == k)
  }

  // ---- connect_block

  function OutputValue(r: Rules, view: seq<Block>, point: OutPoint): nat {
    match FindTx(r, view, point.hash)
    case Found(tx, _) => if point.index < |tx.outputs| then tx.outputs[point.index].value else 0
    case Missing => 0
  }

  function InputValue(r: Rules, view: seq<Block>, inputs: seq<Input>): nat {
    if inputs == [] then 0
    else InputValue(r, view, inputs[..|inputs| - 1]) + OutputValue(r, view, inputs[|inputs| - 1].previous)
  }

  /** The scripts an input brings together. */
  function SigopsOfInput(r: Rules, view: seq<Block>, input: Input): Outcome<nat> {
    match FindTx(r, view, input.previous.hash)
    case Found(tx, _) =>
      if input.previous.index < |tx.outputs|
      then r.inputSigops(tx.outputs[input.previous.index].script, input.script) else Undefined
    case Missing => Fail
  }

  function SigopsOfInputs(r: Rules, view: seq<Block>, inputs: seq<Input>): nat {
    if inputs == [] then 0 else
      var last := SigopsOfInput(r, view, inputs[|inputs| - 1]);
      SigopsOfInputs(r, view, inputs[..|inputs| - 1]) + if last.Done? then last.value else 0
  }

  /** What input `k` of transaction `i` of the last block of `view` must satisfy by itself. */
  ghost predicate InputConnects(r: Rules, view: seq<Block>, i: nat, k: nat)
    requires view != []
    requires i < |view[|view| - 1].transactions| && k < |view[|view| - 1].transactions[i].inputs|
  {
    var depth := |view| - 1;
    var tx := view[depth].transactions[i];
    var point := tx.inputs[k].previous;
    var found := FindTx(r, view, point.hash);
    && found.Found? && point.index < |found.tx.outputs|
    && (IsCoinbase(found.tx) ==> depth - found.depth >= COINBASE_MATURITY)
    && SigopsOfInput(r, view, tx.inputs[k]).Done?
    && r.scriptsPass(found.tx.outputs[point.index].script, tx.inputs[k].script, tx, k,
                     view[depth].timestamp >= BIP16_SWITCHOVER) == Done(true)
    && !SpentElsewhere(view, point, depth, i, k)
  }

  /** Fees of all transactions after the coinbase. */
  function Fees(r: Rules, view: seq<Block>, txs: seq<Transaction>): int {
    if |txs| <= 1 then 0
    else Fees(r, view, txs[..|txs| - 1])
         + InputValue(r, view, txs[|txs| - 1].inputs) - TotalOutput(txs[|txs| - 1].outputs)
  }

  function ConnectSigops(r: Rules, view: seq<Block>, txs: seq<Transaction>): nat {
    if |txs| <= 1 then 0
    else ConnectSigops(r, view, txs[..|txs| - 1]) + r.sigops(txs[|txs| - 1])
         + SigopsOfInputs(r, view, txs[|txs| - 1].inputs)
  }

  ghost predicate TransactionConnects(r: Rules, view: seq<Block>, i: nat)
    requires view != [] && i < |view[|view| - 1].transactions|
  {
    var tx := view[|view| - 1].transactions[i];
    && (forall k | 0 <= k < |tx.inputs| :: InputConnects(r, view, i, k))
    && TotalOutput(tx.outputs) <= InputValue(r, view, tx.inputs) <= MaxMoney()
  }

  /** BIP 30, against the stored chain only: a transaction may repeat one whose outputs are all spent. */
  ghost predicate NotDuplicateOrSpent(r: Rules, stored: seq<Block>, tx: Transaction) {
    FindTx(r, stored, r.txHash(tx)).Missing?
    || forall j | 0 <= j < |tx.outputs| :: SpentIn(stored, r.txHash(tx), j)
  }

  ghost predicate SpentIn(chain: seq<Block>, hash: Digest, j: nat) {
    exists d, i, k, o :: Names(chain, d, i, k, o) && o.hash == hash && o.index == j
  }

  predicate Bip30Exempt(depth: nat) { depth == 91842 || depth == 91880 }

  ghost predicate BlockConnects(r: Rules, fork: nat, below: seq<Block>, b: Block)
    requires fork < |below|
  {
    var view, txs := below + [b], b.transactions;
    && |below| < SHIFT_LIMIT && txs != []
    && (Bip30Exempt(|below|) || forall i | 0 <= i < |txs| :: NotDuplicateOrSpent(r, below[..fork + 1], txs[i]))
    && (forall i | 1 <= i < |txs| :: TransactionConnects(r, view, i))
    && ConnectSigops(r, view, txs) <= MAX_SIGOPS
    && Fees(r, view, txs) <= MaxMoney()
    && TotalOutput(txs[0].outputs) <= BlockValue(|below|) + Fees(r, view, txs)
  }

  // ---- whole chains

  /** `validate_block::start` accepts the block on top of `below`, of which the blocks up to `fork`
      are stored. */
  ghost predicate Accepts(r: Rules, now: nat, fork: nat, below: seq<Block>, b: Block)
    requires fork < |below|
  {
    BlockStands(r, now, b) && BlockFollows(r, below, b) && BlockConnects(r, fork, below, b)
  }

  ghost predicate AcceptedOn(r: Rules, below: seq<Block>, b: Block) {
    exists now, fork | 0 <= fork < |below| :: Accepts(r, now, fork, below, b)
  }

  predicate IsGenesis(b: Block) {
    && b.bits == MAX_BITS && |b.transactions| == 1 && IsCoinbase(b.transactions[0])
    && TotalOutput(b.transactions[0].outputs) == BLOCK_REWARD * COIN
  }

  predicate Linked(r: Rules, chain: seq<Block>) {
    forall i | 0 < i < |chain| :: chain[i].previous == BlockHash(r, chain[i - 1])
  }

  /** Every block above genesis was accepted against exactly the blocks beneath it. */
  ghost predicate AcceptedChain(r: Rules, chain: seq<Block>) {
    && chain != [] && IsGenesis(chain[0])
    && forall i | 0 < i < |chain| :: AcceptedOn(r, chain[..i], chain[i])
  }

  function AllTxs(chain: seq<Block>): seq<Transaction> {
    if chain == [] then [] else AllTxs(chain[..|chain| - 1]) + chain[|chain| - 1].transactions
  }

  /** No transaction hash occurs twice in the chain. */
  predicate DistinctTxs(r: Rules, chain: seq<Block>) {
    Distinct(TxHashes(r, AllTxs(chain)))
  }
}
