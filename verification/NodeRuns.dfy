/** The rules of reachable chains for the node itself, down to bytes, hashes and scripts. */
module NodeRuns {
  import opened Types
  import opened ScriptCodec
  import opened Wire
  import opened BigNumber
  import opened Merkle
  import opened Consensus
  import opened Reorganization
  import opened Runs
  import opened Rulebook
  import opened Node
  import PayToScriptHash

  /** Every spent output of the node's chain was unlocked by running both scripts. */
  lemma NodeScripts(e: Env, s: Setting, start: World, steps: seq<Step>, d: nat, i: nat, k: nat)
    requires s.r == RulesOf(e) && SoundHashes(s) && FromGenesis(s, start) && Run(s, start, steps)
    requires var chain := End(start, steps).chain;
             d < |chain| && 0 < i < |chain[d].transactions| && k < |chain[d].transactions[i].inputs|
    ensures var chain := End(start, steps).chain;
            var tx := chain[d].transactions[i];
            var point := tx.inputs[k].previous;
            var found := FindTx(s.r, chain[..d + 1], point.hash);
            && found.Found? && point.index < |found.tx.outputs|
            && PayToScriptHash.RunScripts(e, found.tx.outputs[point.index].script, tx.inputs[k].script, tx, k,
                                          chain[d].timestamp >= 1_333_238_400) == Done(true)
  {
    hide *;
    ReachableScripts(s, start, steps, d, i, k);
    var chain := End(start, steps).chain;
    var tx := chain[d].transactions[i];
    var found := FindTx(s.r, chain[..d + 1], tx.inputs[k].previous.hash);
    RunsScripts(e, found.tx.outputs[tx.inputs[k].previous.index].script, tx.inputs[k].script, tx, k,
                chain[d].timestamp >= 1_333_238_400);
  }

  lemma RunsScripts(e: Env, output: Script, input: Script, tx: Transaction, k: nat, bip16: bool)
    ensures RulesOf(e).scriptsPass(output, input, tx, k, bip16)
            == PayToScriptHash.RunScripts(e, output, input, tx, k, bip16)
  {
    hide PayToScriptHash.RunScripts;
  }

  /** Every block above genesis of the node's chain fits a million bytes, hashes to at most its target, and
      commits to its transactions by the Merkle root over the hashes of their bytes. */
  lemma NodeBlocks(e: Env, s: Setting, start: World, steps: seq<Step>, d: nat)
    requires s.r == RulesOf(e) && SoundHashes(s) && FromGenesis(s, start) && Run(s, start, steps)
    requires 0 < d < |End(start, steps).chain|
    ensures var b := End(start, steps).chain[d];
            && |BlockBytes(ToRawBlock(b))| <= 1_000_000
            && SetData(Reversed(e.sha256(HeaderBytes(HeaderOf(b))))) <= SetCompact(b.bits)
            && |b.transactions| >= 1 && |b.transactions[0].inputs| >= 1
            && 2 <= |SaveScript(b.transactions[0].inputs[0].script)| <= 100
    ensures var b := End(start, steps).chain[d];
            exists hashes: seq<Digest> | |hashes| == |b.transactions| ::
              && b.merkle == MerkleRoot(PairHash(e), hashes)
              && forall i | 0 <= i < |hashes| :: hashes[i] == e.sha256(TransactionBytes(ToRaw(b.transactions[i])))
  {
    hide *;
    var now, _ := ReachableRules(s, start, steps, d);
    CheckedNode(e, now, End(start, steps).chain[d]);
  }

  lemma CheckedNode(e: Env, now: nat, b: Block)
    requires Checked(RulesOf(e), now, b)
    ensures |BlockBytes(ToRawBlock(b))| <= 1_000_000
    ensures SetData(Reversed(e.sha256(HeaderBytes(HeaderOf(b))))) <= SetCompact(b.bits)
    ensures |b.transactions| >= 1 && |b.transactions[0].inputs| >= 1
    ensures 2 <= |SaveScript(b.transactions[0].inputs[0].script)| <= 100
    ensures exists hashes: seq<Digest> | |hashes| == |b.transactions| ::
              && b.merkle == MerkleRoot(PairHash(e), hashes)
              && forall i | 0 <= i < |hashes| :: hashes[i] == e.sha256(TransactionBytes(ToRaw(b.transactions[i])))
  {
    hide BlockBytes;
    hide ToRawBlock;
    hide HeaderBytes;
    hide TransactionBytes;
    hide ToRaw;
    hide SaveScript;
    hide SetCompact;
    hide SetData;
    hide Reversed;
    hide MerkleRoot;
    hide Sum;
    hide LegacyCounts;
    hide TotalOutput;
    hide NamesNothing;
    assert WellMade(RulesOf(e), b.transactions[0]) && MintsCoins(b.transactions[0]);
    var hashes := TxHashes(RulesOf(e), b.transactions);
    assert b.merkle == MerkleRoot(PairHash(e), hashes);
  }
}
