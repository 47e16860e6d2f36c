/** The rules of the node: what the checks consult, built from the codecs, the Merkle fold and the
    script interpreter over the hash functions and signature checks outside the repository. */
module Node {
  import opened Types
  import opened ScriptCodec
  import opened Wire
  import P2SH = PayToScriptHash
  import opened Merkle
  import opened Consensus
  import opened BlockValidators
  import opened Reorganization

  // ---- signature operations

  /** What one operation adds. An operation that pushes a small number leaves its opcode behind, not
      the number. */
  function SigopsOf(code: byte, accurate: bool, last: nat): nat {
    if code == 172 || code == 173 then 1
    else if code == 174 || code == 175 then (if accurate && last != 0 then last else 20)
    else 0
  }

  function LastNumber(ops: Script): nat {
    if ops == [] then 0
    else if 81 <= ops[|ops| - 1].code <= 96 then ops[|ops| - 1].code
    else LastNumber(ops[..|ops| - 1])
  }

  function Sigops(ops: Script, accurate: bool): nat {
    if ops == [] then 0 else
      var n := |ops| - 1;
      Sigops(ops[..n], accurate) + SigopsOf(ops[n].code, accurate, LastNumber(ops[..n]))
  }

  method CountScriptSigops(ops: Script, accurate: bool) returns (total: nat)
    ensures total == Sigops(ops, accurate)
  {
    total := 0;
    var last := 0;
    for i := 0 to |ops|
      invariant total == Sigops(ops[..i], accurate) && last == LastNumber(ops[..i])
    {
      assert ops[..i + 1][..i] == ops[..i];
      if ops[i].code == 172 || ops[i].code == 173 {
        total := total + 1;
      } else if ops[i].code == 174 || ops[i].code == 175 {
        total := total + if accurate && last != 0 then last else 20;
      }
      if 81 <= ops[i].code <= 96 { last := ops[i].code; }
    }
    assert ops[..|ops|] == ops;
  }

  /** The count called accurate is never below the other one: a small number counts as its opcode. */
  lemma {:induction false} AccurateCountsMore(ops: Script)
    ensures LastNumber(ops) == 0 || LastNumber(ops) >= 81
    ensures Sigops(ops, true) >= Sigops(ops, false)
  {
    if ops != [] { AccurateCountsMore(ops[..|ops| - 1]); }
  }

  function CountCodes(ops: Script, codes: set<byte>): nat {
    if ops == [] then 0 else CountCodes(ops[..|ops| - 1], codes) + if ops[|ops| - 1].code in codes then 1 else 0
  }

  /** The legacy count: one for each signature check, twenty for each multisignature. */
  lemma {:induction false} LegacyCount(ops: Script)
    ensures Sigops(ops, false) == CountCodes(ops, {172, 173}) + 20 * CountCodes(ops, {174, 175})
  {
    if ops != [] { LegacyCount(ops[..|ops| - 1]); }
  }

  function InputsSigops(inputs: seq<Input>): nat {
    if inputs == [] then 0
    else InputsSigops(inputs[..|inputs| - 1]) + Sigops(inputs[|inputs| - 1].script, false)
  }

  function OutputsSigops(outputs: seq<Output>): nat {
    if outputs == [] then 0
    else OutputsSigops(outputs[..|outputs| - 1]) + Sigops(outputs[|outputs| - 1].script, false)
  }

  /** `script_hash_signature_operations_count`; the carried script may end inside a push. */
  function ScriptHashSigops(output: Script, input: Script): Outcome<nat> {
    if !P2SH.IsScriptHash(output) then Done(Sigops(output, true))
    else if input == [] then Done(0)
    else
      match ParseScript(input[|input| - 1].data)
      case Done(ops) => Done(Sigops(ops, true))
      case _ => Undefined
  }

  // ---- addresses

  predicate IsPubkey(ops: Script) {
    |ops| == 2 && ops[0].code == SPECIAL && ops[1].code == 172
  }

  predicate IsPubkeyHash(ops: Script) {
    && |ops| == 5 && ops[0].code == 118 && ops[1].code == 169 && ops[2].code == SPECIAL
    && |ops[2].data| == 20 && ops[3].code == 136 && ops[4].code == 172
  }

  /** `create_address_key`: a version byte and the hash, its bytes reversed. */
  function AddressKey(e: Env, ops: Script): (key: Bytes)
    ensures key == [] || |key| == 21
  {
    if IsPubkey(ops) then [0] + Reversed(e.hash160(ops[0].data))
    else if IsPubkeyHash(ops) then [0] + Reversed(ops[2].data)
    else if P2SH.IsScriptHash(ops) then [5] + Reversed(ops[1].data)
    else []
  }

  /** Two standard outputs share an address key exactly when they pay to the same kind of hash and the
      same hash, a bare key counting as its hash. */
  lemma AddressKeyTells(e: Env, a: Script, b: Script)
    requires AddressKey(e, a) != [] && AddressKey(e, b) != []
    ensures AddressKey(e, a) == AddressKey(e, b) <==>
              P2SH.IsScriptHash(a) == P2SH.IsScriptHash(b) && PaidHash(e, a) == PaidHash(e, b)
  {
    KeyParts(e, a);
    KeyParts(e, b);
    hide AddressKey;
    hide PaidHash;
    hide P2SH.IsScriptHash;
    hide Reversed;
    ReversedTwice(PaidHash(e, a));
    ReversedTwice(PaidHash(e, b));
    assert AddressKey(e, a)[1..] == Reversed(PaidHash(e, a));
    assert AddressKey(e, b)[1..] == Reversed(PaidHash(e, b));
  }

  lemma KeyParts(e: Env, ops: Script)
    requires AddressKey(e, ops) != []
    ensures AddressKey(e, ops) == [if P2SH.IsScriptHash(ops) then 5 else 0] + Reversed(PaidHash(e, ops))
  {
    hide Reversed;
  }

  function PaidHash(e: Env, ops: Script): Bytes {
    if IsPubkey(ops) then e.hash160(ops[0].data)
    else if IsPubkeyHash(ops) then ops[2].data
    else if P2SH.IsScriptHash(ops) then ops[1].data
    else []
  }

  // ---- hashes

  function PairHash(e: Env): (Digest, Digest) -> Digest {
    (a: Digest, b: Digest) => e.sha256(Reversed(a) + Reversed(b))
  }

  function RulesOf(e: Env): Rules {
    Rules(
      (tx: Transaction) => e.sha256(TransactionBytes(ToRaw(tx))),
      (header: Header) => e.sha256(HeaderBytes(header)),
      (hashes: seq<Digest>) => MerkleRoot(PairHash(e), hashes),
      (b: Block) => |BlockBytes(ToRawBlock(b))|,
      (ops: Script) => |SaveScript(ops)|,
      (tx: Transaction) => InputsSigops(tx.inputs) + OutputsSigops(tx.outputs),
      (output: Script, input: Script) => ScriptHashSigops(output, input),
      (output: Script, input: Script, tx: Transaction, index: nat, bip16: bool) =>
        P2SH.RunScripts(e, output, input, tx, index, bip16),
      (ops: Script) => AddressKey(e, ops),
      e.checkpoint)
  }

  // ---- the size of a block

  lemma {:induction false} ConcatCounts<T>(encode: T -> Bytes, items: seq<T>, i: nat)
    requires forall x :: |encode(x)| >= 1
    ensures |Concat(encode, items)| >= |items|
    ensures i < |items| ==> |Concat(encode, items)| >= |encode(items[i])|
  {
    if items != [] { ConcatCounts(encode, items[1..], if i > 0 then i - 1 else 0); }
  }

  lemma TransactionSize(tx: RawTransaction)
    ensures |TransactionBytes(tx)| >= 1 && |TransactionBytes(tx)| >= |tx.outputs|
  {
    forall x: RawOutput
      ensures |OutputBytes(x)| >= 1
    {
    }
    ConcatCounts(OutputBytes, tx.outputs, 0);
  }

  lemma NodeSizes(e: Env)
    ensures SizeCountsOutputs(RulesOf(e))
  {
    forall b: Block, i | 0 <= i < |b.transactions|
      ensures |b.transactions[i].outputs| <= RulesOf(e).rawSize(b)
    {
      hide TransactionBytes;
      hide HeaderBytes;
      hide VariableUint;
      var raw := ToRawBlock(b);
      forall x: RawTransaction
        ensures |TransactionBytes(x)| >= 1
      {
        TransactionSize(x);
      }
      ConcatCounts(TransactionBytes, raw.transactions, i);
      TransactionSize(raw.transactions[i]);
    }
  }

  // ---- what a hash pins down

  lemma HeaderBytesInjective(a: Header, b: Header)
    requires HeaderBytes(a) == HeaderBytes(b)
    ensures a == b
  {
    TakeHeaderOf(a, []);
    TakeHeaderOf(b, []);
  }

  /** If no two headers of the universe collide under SHA-256, block hashes tell headers apart. */
  lemma NodeHashesTell(e: Env, capacity: nat, universe: iset<Block>, rank: Digest -> nat)
    requires forall a, b | a in universe && b in universe
                        && e.sha256(HeaderBytes(HeaderOf(a))) == e.sha256(HeaderBytes(HeaderOf(b))) ::
               HeaderBytes(HeaderOf(a)) == HeaderBytes(HeaderOf(b))
    ensures HashesTell(Setting(RulesOf(e), capacity, universe, rank))
  {
    hide HeaderBytes;
    var s := Setting(RulesOf(e), capacity, universe, rank);
    forall a, b | a in universe && b in universe && BlockHash(s.r, a) == BlockHash(s.r, b)
      ensures HeaderOf(a) == HeaderOf(b)
    {
      HeaderBytesInjective(HeaderOf(a), HeaderOf(b));
    }
  }

  /** What is left to suppose of a node's surroundings: no two of its headers collide, previous hashes
      have no cycle, its blocks are well formed, and no transaction hash repeats along a chain. */
  lemma NodeSound(e: Env, capacity: nat, universe: iset<Block>, rank: Digest -> nat)
    requires var s := Setting(RulesOf(e), capacity, universe, rank);
             Acyclic(s) && TransactionsTell(s) && forall b | b in universe :: WellFormedBlock(b)
    requires forall a, b | a in universe && b in universe
                        && e.sha256(HeaderBytes(HeaderOf(a))) == e.sha256(HeaderBytes(HeaderOf(b))) ::
               HeaderBytes(HeaderOf(a)) == HeaderBytes(HeaderOf(b))
    ensures Sound(Setting(RulesOf(e), capacity, universe, rank))
  {
    hide RulesOf;
    hide HeaderBytes;
    hide WellFormedBlock;
    hide SizeCountsOutputs;
    hide HashesTell;
    hide TransactionsTell;
    NodeSizes(e);
    NodeHashesTell(e, capacity, universe, rank);
  }

  /** A transaction hash pins down the transaction. */
  lemma TransactionHashTells(e: Env, a: Transaction, b: Transaction)
    requires WellFormedTransaction(a) && WellFormedTransaction(b) && Fits(ToRaw(a)) && Fits(ToRaw(b))
    requires e.sha256(TransactionBytes(ToRaw(a))) == e.sha256(TransactionBytes(ToRaw(b))) ==>
               TransactionBytes(ToRaw(a)) == TransactionBytes(ToRaw(b))
    ensures RulesOf(e).txHash(a) == RulesOf(e).txHash(b) <==> a == b
  {
    hide ToRaw;
    hide TransactionBytes;
    hide WellFormedTransaction;
    hide Fits;
    if RulesOf(e).txHash(a) == RulesOf(e).txHash(b) {
      TransactionBytesInjective(ToRaw(a), ToRaw(b), [], []);
      RecordRoundTrip(a);
      RecordRoundTrip(b);
    }
  }

  /** The pairs hashed for the Merkle root of a block. */
  function PairsOf(e: Env, b: Block): set<(Digest, Digest)> {
    if b.transactions == [] then {} else
      HashedPairs(PairHash(e), TxHashes(RulesOf(e), b.transactions), Height(|b.transactions|))
  }

  /** Transactions at the same place of both blocks do not collide. */
  predicate TransactionsApart(e: Env, a: Block, b: Block) {
    forall i | 0 <= i < |a.transactions| && i < |b.transactions| ::
      var x, y := TransactionBytes(ToRaw(a.transactions[i])), TransactionBytes(ToRaw(b.transactions[i]));
      e.sha256(x) == e.sha256(y) ==> x == y
  }

  /** A header pins down the block: two blocks that both pass `check_block`, with trees of one height and
      no hash collision among what they hash, are equal when their headers are. */
  lemma HeaderPinsBlock(e: Env, nowA: nat, a: Block, nowB: nat, b: Block)
    requires BlockStands(RulesOf(e), nowA, a) && BlockStands(RulesOf(e), nowB, b) && HeaderOf(a) == HeaderOf(b)
    requires WellFormedBlock(a) && WellFormedBlock(b) && FitsBlock(ToRawBlock(a)) && FitsBlock(ToRawBlock(b))
    requires Height(|a.transactions|) == Height(|b.transactions|)
    requires CollisionFree(PairHash(e), PairsOf(e, a) + PairsOf(e, b)) && TransactionsApart(e, a, b)
    ensures a == b
  {
    hide *;
    var ha, hb := TxHashes(RulesOf(e), a.transactions), TxHashes(RulesOf(e), b.transactions);
    StandingRoot(e, nowA, a);
    StandingRoot(e, nowB, b);
    SameHeader(a, b);
    MerkleRootDetermines(PairHash(e), ha, hb);
    forall i | 0 <= i < |a.transactions|
      ensures a.transactions[i] == b.transactions[i]
    {
      assert ha[i] == hb[i];
      PartsFit(a, i);
      PartsFit(b, i);
      PartsApart(e, a, b, i);
      TransactionHashTells(e, a.transactions[i], b.transactions[i]);
    }
    assert a.transactions == b.transactions;
  }

  lemma PartsApart(e: Env, a: Block, b: Block, i: nat)
    requires TransactionsApart(e, a, b) && i < |a.transactions| && i < |b.transactions|
    ensures var x, y := TransactionBytes(ToRaw(a.transactions[i])), TransactionBytes(ToRaw(b.transactions[i]));
            e.sha256(x) == e.sha256(y) ==> x == y
  {
    hide TransactionBytes;
    hide ToRaw;
  }

  lemma StandingRoot(e: Env, now: nat, b: Block)
    requires BlockStands(RulesOf(e), now, b)
    ensures var hashes := TxHashes(RulesOf(e), b.transactions);
            && b.merkle == MerkleRoot(PairHash(e), hashes) && Distinct(hashes) && hashes != []
            && PairsOf(e, b) == HashedPairs(PairHash(e), hashes, Height(|hashes|))
  {
    hide *;
    StandingMerkle(RulesOf(e), now, b);
    NodeMerkle(e, TxHashes(RulesOf(e), b.transactions));
    NodePairs(e, b);
  }

  lemma StandingMerkle(r: Rules, now: nat, b: Block)
    requires BlockStands(r, now, b)
    ensures b.transactions != [] && b.merkle == r.merkleRoot(TxHashes(r, b.transactions))
    ensures Distinct(TxHashes(r, b.transactions))
  {
    hide TransactionStands;
    hide ProofOfWork;
    hide TotalSigops;
    hide IsCoinbase;
  }

  lemma NodeMerkle(e: Env, hashes: seq<Digest>)
    ensures RulesOf(e).merkleRoot(hashes) == MerkleRoot(PairHash(e), hashes)
  {
    hide MerkleRoot;
  }

  lemma NodePairs(e: Env, b: Block)
    requires b.transactions != []
    ensures PairsOf(e, b) == HashedPairs(PairHash(e), TxHashes(RulesOf(e), b.transactions), Height(|b.transactions|))
  {
    hide HashedPairs;
  }

  lemma SameHeader(a: Block, b: Block)
    requires HeaderOf(a) == HeaderOf(b)
    ensures a.merkle == b.merkle && (a.transactions == b.transactions ==> a == b)
  {
  }

  lemma PartsFit(b: Block, i: nat)
    requires i < |b.transactions| && WellFormedBlock(b) && FitsBlock(ToRawBlock(b))
    ensures WellFormedTransaction(b.transactions[i]) && Fits(ToRaw(b.transactions[i]))
  {
    hide ToRaw;
    hide Fits;
    hide WellFormedTransaction;
    assert ToRawBlock(b).transactions[i] == ToRaw(b.transactions[i]);
  }

  /** A Merkle node hashes its left child and then its right one, each reversed. */
  lemma LeftChildFirst(e: Env, a: Digest, b: Digest)
    ensures RulesOf(e).merkleRoot([a, b]) == e.sha256(Reversed(a) + Reversed(b))
  {
    NodeMerkle(e, [a, b]);
    SmallTrees(PairHash(e), a, b, a, b);
    hide MerkleRoot;
    hide RulesOf;
  }
}
