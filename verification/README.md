# A verified model of the consensus engine

The node keeps a main chain of blocks in four tables, a small pool of blocks that are not in it, and
replaces the end of the chain when a branch of the pool is valid and has more work. This project models
that machine from bytes to reorganisations, and proves what it keeps over every run.

- `Types`, `Numerals`: bytes, blocks, transactions, numerals.
- `ScriptCodec`, `Wire`, `WireStream`, `BigNumber`, `Base58`, `Merkle`: codecs and folds.
- `Interpreter`, `Conditionals`, `ScriptRunners` (the stacks in place), `PayToScriptHash`,
  `PayToPubkeyHash`, `Opcodes`, `SignatureHash`: scripts.
- `Money`, `MedianTime`, `Retarget`, `Locator`: amounts, times, difficulty, locators.
- `Consensus`: when a block may follow a chain, over plain block lists. `Ledger`, `Supply`: what follows
  for accepted chains.
- `Tables`, `ChainKeepers`, `CleanChains`, `ForkView`: the stored tables against the block list.
- `Validator`, `BlockValidators`: the checks as they run over tables and branch.
- `Reorganization` (one step on values), `OrphansPools`, `Organizers` (the step in place), `Progress`
  (one outcome, growth at the tip), `Outcomes` (what a store does, case by case), `Runs` (any number of steps),
  `Example` (a run that grows).
- `Rulebook`: all rules again in numbers, as a reference for the checks and over every run.
- `Node`, `NodeRuns`: the rules the checks consult, built from the codecs and the interpreter, over every run.

Objects whose fields the node updates are classes; calculations are functions. `Rules` collects the
functions of a block or transaction that validation consults, and `Node.RulesOf` builds them from an
`Env` of hash functions, signature checks and checkpoints. `Setting` names the surroundings of a run, and
two predicates state the hypotheses about them. Everything
in `Reorganization`, `Progress` and the theorems of `Runs` needs `SoundHashes` alone:

- block hashes of the blocks ever given to the node do not collide (`HashesTell`), and a measure on
  hashes grows from each block's predecessor to the block (`Acyclic`), so tracing a branch ends.

That the tables follow the chain, and so that the node in place makes such runs, needs `Sound`, which adds:

- no transaction hash repeats along an accepted, linked chain of those blocks (`TransactionsTell`);
  `bdb_common.cpp:138` asserts this apart from two historic depths, and
  `Reorganization.UniqueTransactionsTell` gives a condition under which it holds;
- those blocks are well formed: their scripts survive being saved and read back.

Reads that C++ leaves undefined are the outcome `Undefined` or the verdict `UndefinedRead`, and a block
that causes one is not accepted: an output index past the outputs of the named transaction
(`validate.cpp:704-705`), a subsidy shift by 64 or more (`block.cpp:25`), a script that ends inside a
length field (`script.cpp:1868-1885`). Where comments or assertions and code differ, the code is
followed: the count called accurate remembers an opcode instead of a number, the duplicate-orphan path
answers twice, and `transaction_exists` looks at stored blocks alone.

Two properties that do not hold in full have their exact limits proved: the truncation bound of the
compact form (`BigNumber.CompactExact`, failing at `BigNumber.CompactOverflowWitness`) and the script round trips
(`ScriptCodec.SaveOfParse`, `ScriptCodec.ParseOfSave`, with `ScriptCodec.RawDataAlias`).

`dafny verify dfyconfig.toml` checks the project.

## Model

| member | source | states |
|---|---|---|
| `Runs.ReachableWorld` | src/blockchain/organizer.cpp:150-205 | after any sequence of stores from genesis, the chain is hash-linked, each block above genesis was accepted on exactly the blocks beneath it, the pool repeats no hash, shares no hash with the chain and stays within its capacity |
| `Runs.ReachableSupply` | src/validate.cpp:621-649 | in every reachable chain the unspent outputs are worth at most the sum of the block subsidies, and that sum at most `max_money()` |
| `Runs.ReachableNoDoubleSpend` | src/validate.cpp:716-737 | in every reachable chain, across any number of reorganisations, two non-coinbase inputs that name one output are the same input |
| `Runs.ReachableMaturity` | src/validate.cpp:716-722 | every non-coinbase input of a reachable chain names an existing output of a transaction found at or beneath its block, a coinbase one at least 100 blocks beneath |
| `Runs.ReachableTimes` | src/blockchain/bdb/bdb_validate_block.cpp:52-62 | along every reachable chain the median time past never falls, every target is positive and at most the maximum, and it stays or moves by at most a factor of four, up to truncation |
| `Runs.WorkNeverFalls` | src/blockchain/organizer.cpp:150-205 | between any two moments of a run total work does not fall; it rises exactly when a reorganisation was announced in between, and without one the chain is unchanged |
| `Runs.ObserverSeesChain` | src/blockchain/organizer.cpp:237-252 | replaying the announced (fork, arrivals, replaced) triples in order gives the main chain exactly, and undoing them in reverse gives the first chain back |
| `Rulebook.ReachableRules` | src/validate.cpp:336-349 | every block above genesis of a reachable chain obeys every rule of the rulebook, in numbers: sizes, proof of work, coinbase shape and script size, distinct hashes, signature operations, Merkle root, bits, time, locks, checkpoint, BIP 30, inputs, fees and subsidy |
| `Rulebook.ReachableScripts` | src/validate.cpp:724-734 | every non-coinbase input of a reachable chain passed the script check against the output it names, for its own transaction and place, with BIP 16 from 1333238400 on |
| `Rulebook.ReachableRetarget` | src/validate.cpp:502-521 | at every readjustment of a reachable chain the target moves with the time the interval took |
| `NodeRuns.NodeScripts` | src/validate.cpp:724-734 | for the node itself: both scripts were run and left true |
| `NodeRuns.NodeBlocks` | src/validate.cpp:351-408 | for the node itself: at most a million serialized bytes, a header hash at most the target, a coinbase script of 2 to 100 bytes, and the Merkle root over the hashes of the transactions' bytes |
| `Example.GrowingRun` | src/blockchain/organizer.cpp:136-205 | a concrete run under all hypotheses: a store extends genesis by a second block and is announced |
| `Runs.StoreAll` | src/blockchain/bdb/bdb_blockchain.cpp:218-224 | any list of blocks handed to the node one after another is a run in the sense of the lemmas above, announcements included |
| `Organizers.Organizer.DoStore` | src/blockchain/bdb/bdb_blockchain.cpp:225-243 | one store changes chain, pool and announcements exactly as the value-level step says, leaves every pool entry processed and the tables those of the chain, and answers where the block is (twice for a duplicate orphan) |
| `Organizers.Organizer.constructor` | src/blockchain/bdb/bdb_blockchain.cpp:97-117 | a new blockchain holds the genesis block, its tables and an empty pool |
| `Organizers.Organizer.Start` | src/blockchain/organizer.cpp:118-134 | drains the queue; the one unprocessed block, if any, is processed and nothing is left unprocessed |
| `Organizers.Organizer.Process` | src/blockchain/organizer.cpp:136-148 | traces, finds the fork, settles the branch; the block is marked processed and its status tells whether it is confirmed at its depth, still in the pool, or rejected and gone from both |
| `Organizers.Organizer.ReplaceChain` | src/blockchain/organizer.cpp:150-205 | the result is the value-level settlement for the longest valid part of the branch; every block removed from the pool was in it |
| `Organizers.Organizer.VerifyBranch` | src/blockchain/organizer.cpp:153-172 | stops at the first block that is not accepted on the ones beneath it and returns the work of the part before it |
| `Organizers.Organizer.Verify` | src/blockchain/bdb/bdb_organizer.cpp:17-27 | ok exactly when the block at that index is accepted on the stored chain up to the fork followed by the branch below it |
| `Organizers.Organizer.ClipOrphans` | src/blockchain/organizer.cpp:217-235 | the invalid tail, and only it, leaves the pool, marked rejected, the first block with the reason and the others as built on an invalid one |
| `Organizers.Organizer.LazyRemove` | src/blockchain/organizer.cpp:207-215 | the block is marked processed and its entry, if any, leaves the queue, which is otherwise unchanged |
| `Organizers.Organizer.Arrive` | src/blockchain/organizer.cpp:186-195 | the arriving blocks leave the pool and end up on the chain in order, each confirmed at its depth, tables included |
| `Organizers.Organizer.Readmit` | src/blockchain/organizer.cpp:196-202 | the replaced blocks are added to the pool one by one as processed entries, under its rules for duplicates and overflow |
| `Organizers.Organizer.SwapIfHeavier` | src/blockchain/organizer.cpp:173-204 | nothing changes unless the arrivals have strictly more work than the stored blocks past the fork |
| `Reorganization.StoredKeeps` | src/blockchain/organizer.cpp:118-205 | any store keeps the chain linked and accepted, the pool free of repeats and apart from the chain; the chain changes only as announced and then its work grows |
| `Reorganization.SettleReports` | src/blockchain/organizer.cpp:173-204 | a replacement keeps the chain up to the fork, announces exactly what it drops and adds, and strictly raises total work; otherwise the chain is the same |
| `Reorganization.ReplacedChain` | src/blockchain/organizer.cpp:153-172 | the chain up to the fork followed by the valid part of a branch is linked and accepted block by block |
| `Outcomes.HeavierWins` | src/blockchain/organizer.cpp:150-205 | a new block whose branch starts at the chain: the valid part of the branch takes over exactly when it has more work than the stored blocks past the fork; then chain, announcement and pool are the ones written out, and otherwise the chain stays, nothing is announced and only the invalid tail leaves the pool |
| `Outcomes.UnattachedWaits` | src/blockchain/organizer.cpp:136-148 | a new block whose branch does not reach the chain is appended to the pool and changes nothing else |
| `Outcomes.KnownIgnored` | src/blockchain/bdb/bdb_blockchain.cpp:225-243 | a block of the chain, or one whose header is in the pool, changes nothing |
| `Progress.StoredOnce` | src/blockchain/organizer.cpp:118-205 | chain, pool and announcements after a store are determined by those before it, the block and the clock: no slack is left in the step |
| `Progress.BranchUnique` | src/blockchain/organizer.cpp:70-90 | a block ends exactly one traced branch |
| `Progress.TipGrows` | src/blockchain/organizer.cpp:136-205 | a block accepted on the tip and not in the pool becomes the new tip and is announced |
| `Progress.WorkIsPositive` | src/block.cpp:29-36 | every target a proof of work may meet stands for positive work |
| `Reorganization.UniqueTransactionsTell` | src/blockchain/bdb/bdb_common.cpp:132-143 | the hypothesis on transaction hashes holds wherever no two transactions of the blocks ever given share a hash |
| `Reorganization.RejectedGone` | src/blockchain/organizer.cpp:217-235 | a block cut off with the invalid tail is afterwards in neither the chain nor the pool |
| `OrphansPools.OrphansPool.Add` | src/blockchain/organizer.cpp:60-68 | false exactly for a header already there; otherwise appended, dropping the oldest entry of a full pool |
| `OrphansPools.OrphansPool.Trace` | src/blockchain/organizer.cpp:70-90 | terminates on acyclic hashes with the linked branch that ends in the block and that no pool entry continues downwards |
| `OrphansPools.OrphansPool.Unprocessed` | src/blockchain/organizer.cpp:92-104 | the unprocessed entries, newest first |
| `OrphansPools.OrphansPool.Remove` | src/blockchain/organizer.cpp:106-111 | requires the entry to be there, takes out that entry and no other |
| `ChainKeepers.ChainKeeper.Add` | src/blockchain/bdb/bdb_chain_keeper.cpp:33-39 | the four tables become those computed from the block list with the block appended |
| `ChainKeepers.ChainKeeper.EndSlice` | src/blockchain/bdb/bdb_chain_keeper.cpp:84-126 | returns exactly the blocks from a depth on, in order, and leaves the tables of the blocks before |
| `ChainKeepers.SliceAndRestore` | src/blockchain/bdb/bdb_chain_keeper.cpp:84-126 | adding the sliced blocks again restores every table |
| `ChainKeepers.ChainKeeper.EndSliceDifficulty` | src/blockchain/bdb/bdb_chain_keeper.cpp:56-82 | the total work of the blocks from a depth on |
| `ChainKeepers.ChainKeeper.FindIndex` | src/blockchain/bdb/bdb_chain_keeper.cpp:41-54 | the depth of a block with the hash, or -1 exactly when there is none |
| `ChainKeepers.ChainKeeper.FindLastBlockDepth` | src/blockchain/bdb/bdb_common.cpp:20-32 | the depth of the last block, the largest 32-bit number for none |
| `ChainKeepers.ChainKeeper.SaveBlock` | src/blockchain/bdb/bdb_common.cpp:51-85 | adds precisely the rows of the block |
| `ChainKeepers.ChainKeeper.SaveTransaction` | src/blockchain/bdb/bdb_common.cpp:87-130 | a new transaction adds its own, its spend and its address rows; a known one gains a parent in its row and nothing else changes |
| `ChainKeepers.ChainKeeper.DupliSave` | src/blockchain/bdb/bdb_common.cpp:132-143 | a known transaction gains a parent at an exempt depth, an unknown one changes nothing |
| `ChainKeepers.ChainKeeper.MarkSpent` | src/blockchain/bdb/bdb_common.cpp:145-156 | refuses an output already spent and records the spender otherwise |
| `ChainKeepers.ChainKeeper.AddAddresses` | src/blockchain/bdb/bdb_common.cpp:158-171 | every output with an address key gains one entry, no other does |
| `ChainKeepers.ChainKeeper.ClearTransactionData` | src/blockchain/bdb/bdb_chain_keeper.cpp:128-158 | removes exactly the rows of a transaction that are there |
| `ChainKeepers.ChainKeeper.RemoveSpends` | src/blockchain/bdb/bdb_chain_keeper.cpp:160-170 | removes the spend rows of the inputs and no others |
| `ChainKeepers.ChainKeeper.RemoveAddresses` | src/blockchain/bdb/bdb_chain_keeper.cpp:128-158 | removes one entry per addressed output, other outputs of the same address stay |
| `ChainKeepers.ChainKeeper.RemoveAddress` | src/blockchain/bdb/bdb_chain_keeper.cpp:172-191 | takes the one entry of that address and output, succeeds without one only for a script that pays to no address |
| `ChainKeepers.ChainKeeper.ReconstructBlock` | src/blockchain/bdb/bdb_common.cpp:241-254 | rebuilds the very block that was stored |
| `CleanChains.AcceptedClean` | src/blockchain/bdb/bdb_common.cpp:87-156 | no two rows of an accepted chain with distinct transaction hashes share a key, so storing it never overwrites |
| `ForkView.TxTableAnswers` | src/blockchain/bdb/bdb_validate_block.cpp:92-107 | table lookup with the parent-depth cut gives the transaction, its depth, or nothing, as a scan of the stored blocks up to the fork does |
| `ForkView.SpendTableAnswers` | src/blockchain/bdb/bdb_validate_block.cpp:81-90 | spend lookup with the cut is true exactly when some input up to the fork names the output |
| `ForkView.AddressTableAnswers` | src/blockchain/bdb/bdb_common.cpp:158-171 | the address table lists an output under a key exactly when an output of the chain pays to it |
| `BlockValidators.BlockValidator.FetchBlock` | src/blockchain/bdb/bdb_validate_block.cpp:20-37 | bits and time of the block at that depth of stored prefix plus branch, whatever is stored past the fork |
| `BlockValidators.BlockValidator.FetchTransaction` | src/blockchain/bdb/bdb_validate_block.cpp:92-127 | the transaction and depth that a scan of stored prefix, branch and current block finds first |
| `BlockValidators.BlockValidator.IsOutputSpentBy` | src/blockchain/bdb/bdb_validate_block.cpp:129-177 | true exactly when an input other than the given one names the output anywhere in stored prefix, branch or current block |
| `BlockValidators.BlockValidator.IsOutputSpent` | src/blockchain/bdb/bdb_validate_block.cpp:81-90 | true exactly when an input of the stored prefix names the output |
| `BlockValidators.BlockValidator.TransactionExists` | src/blockchain/bdb/bdb_validate_block.cpp:72-79 | true exactly when the stored prefix, and only it, holds the hash |
| `BlockValidators.BlockValidator.MedianTimePastHere` | src/blockchain/bdb/bdb_validate_block.cpp:52-62 | the median of the up to eleven latest times of the fork view |
| `BlockValidators.BlockValidator.ActualTimespan` | src/blockchain/bdb/bdb_validate_block.cpp:45-50 | 32-bit difference of two times of the fork view |
| `Validator.BlocksName` | src/blockchain/bdb/bdb_validate_block.cpp:144-177 | the nested search finds an input naming the output other than the skipped one exactly when there is one |
| `Validator.FindInBlocks` | src/blockchain/bdb/bdb_validate_block.cpp:109-127 | the nested search returns the first transaction with the hash and its depth |
| `BlockValidators.BlockValidator.Start` | src/validate.cpp:336-349 | ok exactly when the block is acceptable on the blocks beneath it, stated over the plain block list |
| `Rulebook.RulebookExact` | src/validate.cpp:351-743 | a block is accepted exactly when it obeys a second statement of all rules, in literal numbers and over the positions of the chain: none is missing and none is added |
| `Rulebook.FoundFirst` | src/blockchain/bdb/bdb_validate_block.cpp:92-127 | a lookup finds the first transaction with the hash, or there is none |
| `BlockValidators.BlockValidator.CheckBlock` | src/validate.cpp:351-408 | ok exactly when the context-free conditions hold |
| `BlockValidators.BlockValidator.AcceptBlock` | src/validate.cpp:477-490 | ok exactly when difficulty, time, finality and checkpoint fit the blocks beneath |
| `BlockValidators.BlockValidator.ConnectBlock` | src/validate.cpp:621-649 | ok exactly when no transaction repeats an unspent one, all connect, and signature operations, fees and the coinbase amount are within bounds |
| `BlockValidators.BlockValidator.ConnectTransactions` | src/validate.cpp:629-643 | the running fees and counts stay in 64 bits and end at the sums over the block; failure means a condition on the whole block fails |
| `BlockValidators.BlockValidator.ValidateInputs` | src/validate.cpp:668-679 | succeeds exactly when all inputs connect and both totals stay in range |
| `BlockValidators.BlockValidator.ConnectInput` | src/validate.cpp:692-743 | succeeds exactly when the named output exists, is mature, its scripts pass and nothing else spends it, and the totals stay in range without overflow |
| `BlockValidators.BlockValidator.NotDuplicateOrSpentHere` | src/validate.cpp:651-666 | true exactly when the hash is new to the stored prefix or all its outputs are spent there |
| `BlockValidators.BlockValidator.WorkRequiredHere` | src/validate.cpp:502-521 | the required bits computed from the fork view |
| `BlockValidators.BlockValidator.UniqueHashes` | src/validate.cpp:386-396 | the size of the set of hashes reveals exactly whether a hash repeats |
| `Validator.CheckTransaction` | src/validate.cpp:292-328 | ok exactly when the transaction stands by itself |
| `Validator.OutputsInRange` | src/validate.cpp:302-311 | the 64-bit loop never wraps and accepts exactly totals up to `max_money()` |
| `Validator.TallyFees` | src/validate.cpp:269-280 | succeeds exactly when outputs do not exceed inputs and the fee total stays in range, with no wrap |
| `Validator.TotalOutputValue` | src/transaction.cpp:115-121 | the sum of the outputs modulo 2^64 |
| `Ledger.NoDoubleSpend` | src/validate.cpp:732-737 | no two inputs after coinbases in an accepted chain name one output |
| `Ledger.CoinbaseMaturity` | src/validate.cpp:716-722 | a spent coinbase lies at least 100 blocks beneath its spender |
| `Ledger.MedianTimeMonotone` | src/validate.cpp:481-482 | median time past never falls along an accepted chain |
| `Ledger.TargetMovesSlowly` | src/validate.cpp:502-521 | a target equals its predecessor off the interval and stays within a factor of four of it, up to truncation, on it |
| `Supply.SupplyBound` | src/validate.cpp:621-649 | in every accepted chain, repeated transactions at the exempt depths included, the unspent value is at most the subsidy sum and that at most `max_money()` |
| `Supply.BlockBalance` | src/validate.cpp:645-648 | what a block creates is at most what it spends plus its subsidy |
| `Supply.ChainSpendsDistinct` | src/validate.cpp:732-737 | the list of all coins spent in an accepted chain has no repeats |
| `Node.NodeSizes` | src/satoshi_serialize.cpp:228-234 | with the real serialization, a block is never smaller than its number of outputs |
| `Node.NodeSound` | src/block.cpp:38-48 | what remains to be supposed about a node with the real codecs, hashes and scripts |
| `Node.HeaderPinsBlock` | src/validate.cpp:386-405 | two blocks that pass the context-free checks under one header, with trees of one height and no hash collision, are equal |
| `Node.TransactionHashTells` | src/transaction.cpp:15-33 | transactions whose serializations do not collide have equal hashes exactly when they are equal |
| `Node.CountScriptSigops` | src/validate.cpp:426-453 | the loop computes the count defined operation by operation |
| `Node.AccurateCountsMore` | src/validate.cpp:426-453 | the count called accurate never falls below the legacy one, since a small number is remembered as its opcode |
| `Node.LegacyCount` | src/validate.cpp:426-453 | the legacy count is one per signature check and twenty per multisignature |
| `Node.LeftChildFirst` | src/transaction.cpp:50-55 | a Merkle node hashes its left child and then its right one, each reversed |
| `Node.AddressKeyTells` | src/blockchain/bdb/bdb_common.cpp:256-265 | two addressed outputs share a key exactly when they pay the same kind of hash and the same hash, a bare public key counting as its hash |
| `Money.SubsidyBalance` | src/block.cpp:22-27 | subsidies paid so far and still to come always add up to `max_money()` |
| `Rulebook.SubsidyHalves` | src/block.cpp:22-27 | the subsidy is 5000000000 over two to the number of 210000-block eras |
| `Money.SubsidyBound` | include/bitcoin/constants.hpp:25-39 | the subsidies of any number of blocks up to the shift limit total at most `max_money()` |
| `Money.MaxMoneyValue` | include/bitcoin/constants.hpp:25-39 | the constant, so that sums of two amounts in range fit 64 bits |
| `MedianTime.MedianNeverDecreases` | src/blockchain/bdb/bdb_validate_block.cpp:52-62 | a time above the median cannot lower the next median, for growing, even and full windows |
| `MedianTime.MedianIsMiddle` | src/blockchain/bdb/bdb_validate_block.cpp:60-61 | the median is one of the times, at most half of them lie below it and more than half are no greater |
| `MedianTime.RecentAre` | src/blockchain/bdb/bdb_validate_block.cpp:54-57 | the collected times are the latest ones, newest first |
| `MedianTime.SortKeeps` | src/blockchain/bdb/bdb_validate_block.cpp:60-61 | the sort yields a sorted permutation |
| `Retarget.ReadjustBounds` | src/validate.cpp:502-521 | a readjusted target is at most the maximum, at most four times and at least a quarter of the old one up to the dropped bits |
| `Retarget.RetargetMoves` | src/validate.cpp:502-521 | in two timestamps and the old bits: the new target is the old one times the clamped span over two weeks, capped, less what division and compact form drop; on schedule canonical bits stay, slow eases, fast does not |
| `Retarget.MaxTargetValue` | src/constants.cpp:5-10 | the easiest target is 0xffff * 256^26 |
| `Locator.BlockLocatorIndexes` | src/block.cpp:50-64 | strictly falling from the top to 0, logarithmically short, and every fork height f has an entry e at or below it with f - e at most top - f |
| `BigNumber.DataRoundTrip` | src/utility/big_number.cpp:99-123 | `set_data` inverts `data` on every integer |
| `BigNumber.DataOfSetData` | src/utility/big_number.cpp:99-123 | `data` reproduces a byte string exactly when it is canonical |
| `BigNumber.CastToBool` | src/script.cpp:79-92 | true exactly when the bytes decode to a non-zero number |
| `BigNumber.CompactFormula` | src/utility/big_number.cpp:69-81 | an encoding stands for its signed 23-bit mantissa times 256 to the size less three, with low bytes cut off for smaller sizes |
| `BigNumber.BlockWorkMeans` | src/block.cpp:29-36 | work is how often the target and one go into 2^256, and none without a positive target |
| `BigNumber.HarderIsMoreWork` | src/block.cpp:29-36 | a smaller target never has less work |
| `BigNumber.CompactTruncates` | src/utility/big_number.cpp:69-97 | for sizes that fit a byte, the compact form decodes to at most n and short of it by less than one part in 2^15 |
| `BigNumber.CompactOverflows` | src/utility/big_number.cpp:83-97 | for larger sizes the bound fails: at least half is lost |
| `BigNumber.CompactExact` | src/utility/big_number.cpp:69-97 | for every positive number the truncation bound holds exactly when its byte form has fewer than 256 bytes |
| `BigNumber.CompactOverflowWitness` | src/utility/big_number.cpp:83-97 | 256^255, whose byte form has 256 bytes, is an input at which the bound fails |
| `BigNumber.CompactInverse` | src/utility/big_number.cpp:69-97 | among encodings of positive numbers exactly the canonical ones are reproduced |
| `Base58.EncodeBase58` | src/utility/base58.cpp:11-46 | the division loop computes the encoding |
| `Base58.DecodeBase58` | src/utility/base58.cpp:48-82 | the multiplication loop and the trimmed sign byte compute the decoding |
| `Base58.AlphabetIs` | src/utility/base58.cpp:9 | the alphabet, letter by letter |
| `Base58.EncodedValue` | src/utility/base58.cpp:11-46 | the text stands for the same number as the bytes and starts with a one for each leading zero |
| `Base58.Base58RoundTrips` | src/utility/base58.cpp:11-82 | the two are mutually inverse between byte strings and strings over the alphabet, leading zeros included |
| `Merkle.BuildMerkleTree` | src/transaction.cpp:35-59 | the iterative fold returns the root of the recursive tree |
| `Merkle.TreeOfLevelUp` | src/transaction.cpp:42-58 | one level of pairing keeps the tree's root, also with an odd last entry repeated |
| `Merkle.SmallTrees` | src/transaction.cpp:35-59 | the roots of up to four leaves written out, left child first and an odd last leaf paired with itself |
| `Merkle.MerkleRootDetermines` | src/validate.cpp:386-405 | repeat-free lists under trees of one height with equal roots are equal, if no hashed pair collides |
| `Merkle.OddRepeatKeepsRoot` | src/transaction.cpp:44-45 | without the repeat check the root is ambiguous: repeating the odd last entry keeps it |
| `ScriptRunners.ScriptRunner.Run` | src/script.cpp:200-215 | the loop over in-place steps ends as the flat semantics says, with its stack |
| `ScriptRunners.ScriptRunner.Step` | src/script.cpp:217-262 | the checks, the skipped operation, pushes, separator and size check, carried out on the stacks in place, amount to one flat step |
| `ScriptRunners.ScriptRunner.RunCondition` | src/script.cpp:300-334 | popping, opening, flipping and closing branch flags in place is the flat meaning of the four conditionals |
| `ScriptRunners.ScriptRunner.Perform` | src/script.cpp:1043-1328 | each operation, by its own pushes, pops, erasures and swaps, reaches the machine its value-level meaning gives |
| `ScriptRunners.ScriptRunner.CheckSigVerify` | src/script.cpp:946-963 | pops key and signature, collects the covered operations in a loop, and gives the value-level verdict |
| `ScriptRunners.ScriptRunner.CheckMultisigVerify` | src/script.cpp:991-1041 | two counted sections popped item by item and the nested key search give the value-level verdict and remaining stack |
| `ScriptRunners.ScriptRunner.PopSection` | src/script.cpp:975-989 | the count, the items in popping order and the remaining stack, or the failing cases |
| `ScriptRunners.ScriptRunner.PickRoll` | src/script.cpp:486-507 | copies or moves the counted item to the top |
| `ScriptRunners.ScriptRunner.HasFailedBranches` | src/script.cpp:28-31 | true exactly when some open branch is not taken |
| `Conditionals.FlatIsNested` | src/script.cpp:200-262 | a script within limits gives the same outcome and stack as the recursive meaning of its if/else tree, skipped parts and their checks included |
| `Conditionals.NestedExactlyBalanced` | src/script.cpp:300-334 | a script has such a tree exactly when it is balanced |
| `Conditionals.UnbalancedNeverSucceeds` | src/script.cpp:200-215 | an unbalanced script never succeeds |
| `Conditionals.SuccessLimits` | src/script.cpp:200-262 | a script that succeeds has at most 10000 bytes and 201 non-push operations, no disabled operation and no push over 520 bytes even where it is skipped, is balanced, and leaves at most 1000 items |
| `PayToPubkeyHash.SignatureSigns` | src/script.cpp:916-935 | a signature check asks for a loadable key, an index in range for the type, and a signature over the digest of this transaction signed at this input with the type in its last byte |
| `PayToPubkeyHash.KeyHashSpent` | src/script.cpp:936-963 | a pay-to-public-key-hash output is spent by a pushed signature and key exactly when both are at most 520 bytes, the key has the committed hash and the signature signs this input |
| `PayToPubkeyHash.SearchIsExact` | src/script.cpp:1022-1041 | the forward key search succeeds exactly when keys can be assigned to the signatures in order without going back, sharing allowed |
| `Opcodes.MultisigVerdict` | src/script.cpp:975-1041 | on written-out sections the verdict is that assignment, last items first, and both sections with their counts leave the stack |
| `Opcodes.UnaryOperations` | src/script.cpp:575-646 | the six one-number operations on a written-out stack |
| `Opcodes.BinaryOperations` | src/script.cpp:648-778 | the twelve two-number operations on a written-out stack, the upper item second |
| `Opcodes.CopyOperations` | src/script.cpp:373-411 | the copying operations on written-out stacks |
| `Opcodes.TurnOperations` | src/script.cpp:364-439 | the dropping and turning operations on written-out stacks |
| `Opcodes.TestOperations` | src/script.cpp:441-455 | comparison, sizes and conditional copy on written-out stacks |
| `Opcodes.PickAndRoll` | src/script.cpp:488-517 | copies, or moves, the item below a counted number of others |
| `Opcodes.OtherOperations` | src/script.cpp:336-362 | pushed numbers, verification, the second stack and the hash operations on a written-out stack |
| `Opcodes.Moves` | src/script.cpp:1043-1328 | the item-moving opcodes act on the data stack alone, as those operations do |
| `Opcodes.WithinOperation` | src/script.cpp:780-796 | true exactly between the lower and, excluded, the upper bound |
| `PayToScriptHash.PlainSpent` | src/script.cpp:131-145 | any other output, and every one before the switch, is spent exactly when the input runs and the output script leaves true on its stack |
| `PayToScriptHash.Run` | src/script.cpp:131-164 | the two runs and the second pass |
| `PayToScriptHash.ScriptHashSpent` | src/script.cpp:126-164 | a script-hash output is spent exactly when the input runs, only pushes, leaves fewer than 1000 items with one of the committed hash on top, and that item's script leaves true on the rest |
| `PayToScriptHash.TopItemExists` | src/script.cpp:150-153 | the item the second pass reads is always there |
| `PayToScriptHash.ScriptHashRun` | src/script.cpp:557-566 | the comparison script replaces the top item by whether its hash matches, or fails on an empty or full stack |
| `SignatureHash.GenerateSignatureHash` | src/script.cpp:863-914 | the in-place rewriting hashes the transaction that the hash type describes, with its error cases |
| `SignatureHash.NullifySequences` | src/script.cpp:855-861 | sets every other input's sequence to zero |
| `SignatureHash.SignedFields` | src/script.cpp:863-914 | for the types 1, 2, 3, 0x81, 0x82 and 0x83, every field of the signed transaction, and when there is one |
| `SignatureHash.TypesCommit` | src/script.cpp:863-914 | for the same six types, in numbers, what two inputs with one preimage share |
| `SignatureHash.PreimageEnds` | src/transaction.cpp:15-33 | the preimage is the signed transaction's bytes and four bytes of type |
| `SignatureHash.PreimageExact` | src/script.cpp:855-914 | preimages of any two inputs are equal exactly when their hash types are and the transactions agree on what that type commits to, including when the place of the input shows |
| `ScriptCodec.Parse` | src/script.cpp:1928-1969 | the loop computes the recursive reading; a premature end gives the empty script |
| `ScriptCodec.Save` | src/script.cpp:1971-1989 | the loop writes every operation, or the raw data alone |
| `ScriptCodec.ScriptLayout` | src/script.cpp:1971-1989 | how each kind of operation is written, byte by byte |
| `ScriptCodec.ScriptSize` | src/script.cpp:1991-2020 | the number of bytes written, for every script |
| `ScriptCodec.ReadPushData` | src/script.cpp:1912-1926 | the pushed bytes, or a premature end exactly when they are not all there |
| `ScriptCodec.SaveOfParse` | src/script.cpp:1928-1989 | writing back restores the bytes exactly when all pushes are complete and the first byte is not 187 |
| `ScriptCodec.ParseOfSave` | src/script.cpp:1928-1989 | reading back restores the script exactly when it is well formed |
| `ScriptCodec.RawDataAlias` | include/bitcoin/script.hpp:129-131 | byte 187 aliases the raw-data marker: the script read from it is written as nothing |
| `Wire.TransactionRoundTrip` | src/satoshi_serialize.cpp:124-196 | reading a saved well-formed transaction followed by any bytes returns it and leaves those bytes |
| `Wire.BlockRoundTrip` | include/bitcoin/satoshi_serialize.hpp:282-319 | the same for blocks |
| `Wire.TransactionBytesInjective` | src/satoshi_serialize.cpp:124-147 | no serialization is a proper prefix of another |
| `Wire.HeaderLayout` | src/block.cpp:38-48 | where the six fields lie in the eighty bytes of a header |
| `Wire.TransactionLayout` | src/satoshi_serialize.cpp:124-147 | where version, counts, inputs, outputs and lock time lie |
| `Wire.InputLayout` | src/satoshi_serialize.cpp:129-137 | where hash, index, script and sequence lie in an input |
| `Wire.OutputLayout` | src/satoshi_serialize.cpp:138-145 | where value and script lie in an output |
| `Wire.VariableUintLayout` | src/utility/serializer.cpp:33-54 | one byte below 253, else a marker and two, four or eight bytes |
| `Wire.RecordRoundTrip` | src/satoshi_serialize.cpp:156-167 | the stored record of a well-formed transaction gives the transaction back |
| `WireStream.SaveTransaction` | src/satoshi_serialize.cpp:124-147 | appends the wire form |
| `WireStream.SaveBlock` | include/bitcoin/satoshi_serialize.hpp:284-299 | appends the wire form |
| `WireStream.TransactionRawSize` | src/satoshi_serialize.cpp:202-222 | equals the number of bytes written |
| `WireStream.BlockRawSize` | src/satoshi_serialize.cpp:228-234 | equals the number of bytes written |
| `WireStream.VariableUintSize` | src/satoshi_serialize.cpp:5-15 | equals the number of bytes of the encoding |
| `WireStream.ReadTransaction` | src/satoshi_serialize.cpp:169-196 | consumes exactly one transaction or meets the end of the stream |
| `WireStream.ReadBlock` | include/bitcoin/satoshi_serialize.hpp:301-319 | consumes exactly one block or meets the end of the stream |
| `WireStream.Serializer.WriteVariableUint` | src/utility/serializer.cpp:33-54 | appends the shortest form |
| `WireStream.Deserializer.ReadVariableUint` | src/utility/serializer.cpp:141-154 | takes one encoded number off the stream |
| `WireStream.Serializer.WriteHash` | src/utility/serializer.cpp:68-71 | appends the bytes in reverse |
| `WireStream.Deserializer.ReadHash` | src/utility/serializer.cpp:196-201 | takes 32 bytes in reverse |
| `WireStream.CastChunk` | include/bitcoin/format.hpp:20-37 | the little-endian value of as many bytes as the target type has, from either end, within that type |

## Left out

- Network, channels, protocol sessions, handshake, hosts, poller and logger: input, output and scheduling.
- The memory pool: it re-checks only hashes and ignores the fee result, so it supports no global claim.
- SHA-256, RIPEMD-160, ECDSA, OpenSSL numbers, Berkeley DB and protobuf bytes: hashes and checks are
  parameters, big numbers are `int` with the MPI form written out, tables are maps, an address table is a
  multiset, and a stored record is its fields with scripts in saved form.
- The wall clock and the checkpoint table: parameters.
- Stored blocks with a script whose first byte is 187: saving drops the script, so its record is not the
  block; `ScriptCodec.SaveOfParse` gives the exact limit and the chain theorems suppose well-formed blocks.
- Database transactions, flushing every 2000 stores, failed writes and restarts.
- The Kyoto Cabinet back end and the queries that only read stored rows for callers.
- That the main chain is the heaviest of all known branches: processed orphans are not traced again when
  their parent arrives.
- That inputs refer to earlier transactions of a block: the search covers the whole current block.
- Accurate signature-operation counts, and distinct keys for distinct signatures in a multisignature.
- Proof of work for hashes with the top bit set beyond what the code computes: they count as negative.
- Assertions that only abort a debug build, such as the BIP 16 depth and the re-serialization check of a
  read script.
- Tables of a chain that repeats a transaction at the two exempt depths: the row operations model the
  second save, and the theorems over chains and runs cover such chains, but that the tables equal those of
  the block list supposes distinct hashes.
- Organizers.Organizer.Start: supposes at most one unprocessed entry, because with more a queued entry may be
  pushed off the full pool when replaced blocks come back, and processing it afterwards may ask the pool to
  remove it; every store keeps the pool in this state.
- Header, version, address, inventory, ping and pong messages, opcode names, pretty printers, payment
  address text and the deterministic wallet: easy members.
- When a replaced block is wrapped as a pool entry: here on the way back to the pool, in the source while it
  is sliced off.
