# Verified models of a Bitcoin Cash node

This project models the parts of the node that decide which chain is active and what it is worth, and proves what
they are for. Every module follows one component; loops and in-place updates of the source are methods with loops over
objects, arrays and maps, proved against functions about which the theorems are proved.

| modules | component |
|---|---|
| `ChainSpec`, `ChainState`, `BlockTree` | the active chain, reorganisation, fork choice, the header tree with skip pointers |
| `BlockCheck`, `BlockApply`, `BlockAccept`, `BlockEffect`, `BlockUndo`, `UndoExactness`, `UndoPanic`, `Utxo`, `Supply` | checking, applying and undoing a block on the coin set, and the money supply |
| `MerkleSpec`, `MerkleRoot`, `MerkleMalleability`, `PartialMerkleSpec`, `PartialMerkleTrees`, `MerkleBlockWire`, `Bits` | Merkle roots, branches and partial proofs |
| `ScriptNum`, `ScriptOps`, `ScriptFlags`, `Multisig`, `ScriptEval`, `ScriptMeaning`, `ScriptSignatures`, `ScriptBranches`, `ScriptSpend`, `ScriptRelax`, `SigOps` | the script interpreter, what its opcodes mean and when an output can be spent, its flags, signature counting |
| `MempoolWalk`, `MempoolLimits`, `MempoolSpec`, `MempoolRemoval`, `MempoolAdd`, `MempoolBlock`, `Mempool`, `Dag` | the memory pool |
| `MedianTime` | median time past and what switches on with it |
| `TreeCheckSpec`, `TreeCheck` | the consistency walk over the block index |
| `PeerPipeline` | the two sending goroutines of a peer |

To verify the whole project: `dafny verify dfyconfig.toml`. Automatic induction is switched off on every lemma, so
each induction is written out.

## Main results

- **Chain state.** `ChainState.Chain.Run`: whatever headers arrive and whatever is activated, disconnected, offered or
  declared invalid, the active list is the path from genesis to the tip, the best hash is the tip, the coin set is the
  replay of that path, every block on it is valid, no candidate is lost unless it is invalid, and the three panics of the
  reorganisation code are unreachable. Disconnecting a tip above genesis cannot fail.
- **Blocks.** `BlockAccept.AppliedIff`: a block is applied if and only if it keeps the rules, stated on the coins each
  transaction is offered. `ChainState.Chain.ConnectBlock` accepts every block that is valid with its scripts, and only
  blocks that pass.
- **Undo.** `BlockUndo.ConnectThenUndo` in both processing modes, `UndoExactness.UndoExactIff` for when it is not exact,
  `UndoPanic.UndoPanicsIff` for when it panics.
- **Supply.** `ChainSpec.SupplyIsCapped`, from an exact conservation law per block (`Supply.ConnectedValue`).
- **Fork choice.** `ChainState.Chain.ActivateBestChain`, and at the end of every run in `ChainState.Chain.Run`.
- **Scripts.** When an output can be spent, both ways: `ScriptSpend.ScriptHashIff`, `ScriptSpend.KeyHashIff`,
  `ScriptSpend.MultisigIff`. Every opcode by what it does to numbers and positions (`ScriptMeaning`, `ScriptSignatures`),
  conditionals by which parts run (`ScriptBranches.ConditionalRuns`). `ScriptRelax.VerifyRelaxed`, `SigOps.ChecksAreCounted`,
  `Multisig.SuccessIsMatching`.
- **Merkle.** `MerkleRoot.MerkleComputation`, `MerkleMalleability.RootDeterminesList`, `MerkleBlockWire.SentProofIsAccepted`,
  `PartialMerkleSpec.AcceptedProofIsGenuine`, `PartialMerkleSpec.HashesAreCounted`.
- **Memory pool.** `Mempool.TxMempool.Run`: the invariant `MempoolSpec.PoolInvariant` and the exact effect of every
  operation over any run; the two closures; and exactly when the cached totals stay exact
  (`MempoolBlock.BlockRemovalExactIff`, `MempoolRemoval.SelfRemovalExactIff`, `MempoolRemoval.FamilyRemovalExactIff`).
- **Index walk.** `TreeCheck.CheckBlockIndex`. **Skip list.** `BlockTree.GetAncestor`. **Median time.**
  `MedianTime.FlagsOnlyGrow`, `MedianTime.JustEnabledOnce`. **Peer.** `PeerPipeline.OneAtATimeInOrder`,
  `PeerPipeline.SignalledExactlyOnce`.

## What is assumed

- Hashes are opaque identifiers. The pair hash is any function: where a theorem would need it to be injective, the theorem
  names the collision instead (`MerkleMalleability.Collision`, `PartialMerkleSpec.ReadingCollides`). Transaction ids within
  a block identify the transactions (`BlockCheck.IdsIdentify`).
- `ChainSpec.Sane`: where BIP 30 is not enforced, a block's outputs are not in its parent's coin set. The two historical
  exceptions break this; `UndoExactness.UndoExactIff` shows that exactly this is what undo needs.
- Storage returns what was written. Blocks, the remaining checks of a block, script and sequence-lock verdicts, sizes and
  signature-operation counts are parameters (`ChainSpec.World`, `BlockApply.Rules`, `BlockCheck.Measures`,
  `Multisig.Checker`). Only for blocks on the way to the block assumed to be valid may scripts go unchecked; whether they
  do depends on the best header and may change from call to call (`ChainState.Chain.ScriptsChecked`).
- Pointers are keys: a block index is the hash it is filed under, a pool entry its transaction id.
- Amounts, sizes and works are unbounded integers; the values the checks let through stay far from 64 bits.

## Where the code differs from its comments

- `merkleComputation` is documented for 2^32 leaves; its loops stay inside their 32 slots exactly up to 2^31
  (`MerkleRoot.CountOnly`).
- `ApplyBlockUndo` means to report a missing output as unclean, but reads the coin before testing it for nil
  (`UndoPanic.MissingOutputPanics`, and `UndoPanic.UndoPanicsIff` for exactly when). It cannot happen on the coin set an
  accepted block has left (`UndoPanic.AppliedNeverPanics`).
- An ancestor count limit is not enforced on the direct parents when they are not searched for, nor a limit of zero on a
  transaction without parents (`MempoolWalk.CalculateMemPoolAncestors`, `MempoolWalk.CountLimitExample`).
- Ancestor totals can be too large after `RemoveTxSelf` on a block that lists a child before its parent: when an entry that
  stays depends on the parent through the child alone (`Mempool.ChildFirstExample`, and `MempoolBlock.BlockRemovalExactIff`
  for exactly when).
- A multisignature whose signatures match the keys can still fail: the keys are tried from the last one down, and a
  malformed key on the way is an error (`ScriptSignatures.BadKeySpoils`, and `ScriptSignatures.PassIffFits` for exactly when).
- `AddTx` does not link a transaction to children that are in the pool already, as after a disconnected block
  (`MempoolAdd.LinksRightIff`).
- Descendant totals are too large after removing a chain of three, because the parent links inside the chain are cut
  before the ancestors are collected (`MempoolRemoval.ThirdInChainIsMissed`).
- The branch of `ActivateBestChain` for an invalid block found in a step is never taken, because the step then returns an
  error (`ChainState.Chain.ActivateBestChainStep`).

## Model

| member | source | states |
|---|---|---|
| `MerkleSpec.WidthClosedForm` | logic/lmerkleblock/lpartial_merkle_tree.go:36-39 | the shift formula of calcTreeWidth is the number of nodes that pairing level by level leaves at that height |
| `MerkleSpec.HeightIsLeast` | logic/lmerkleblock/lpartial_merkle_tree.go:24-28 | the height the loop settles on is the least one at which a single node is left |
| `MerkleSpec.RootIsTop` | logic/lmerkleroot/lmerkleroot.go:114-118 | the recursive duplicate-last root is the only node of the top level |
| `MerkleSpec.FoldReachesLevel` | logic/lmerkleroot/lmerkleroot.go:126-143 | folding the first k siblings of a position gives the node above that position at level k |
| `MerkleSpec.BranchProvesLeaf` | logic/lmerkleroot/lmerkleroot.go:120-143 | for every list and every position, the branch folds from that leaf to the root |
| `MerkleMalleability.CompleteEqualsIncomplete` | logic/lmerkleroot/lmerkleroot.go:52-54 | unless two nodes of a level collide, a padded subtree that hashes like a complete one forces an equal complete pair, so the mutated flag |
| `MerkleMalleability.RootDeterminesList` | logic/lblock/lblock.go:71-88 | equal height and equal root make two lists equal as soon as the longer one is unmutated, or their trees exhibit a collision (CVE-2012-2459) |
| `MerkleMalleability.DuplicatingTailKeepsRoot` | logic/lmerkleroot/lmerkleroot.go:52-54 | for any hash: repeating the last 2^k leaves of a list whose last node of level k is complete and unpaired keeps height and root, and is reported as mutated |
| `MerkleMalleability.HeightIsNeeded` | logic/lmerkleroot/lmerkleroot.go:114-118 | lists of different height can share a root with neither mutated, so the height hypothesis cannot be dropped |
| `MerkleRoot.CounterLimit` | logic/lmerkleroot/lmerkleroot.go:68-105 | rounding a leaf count below 2^(k+1) up to whole nodes of 2^k stays below exactly when one node is enough |
| `MerkleRoot.CountOnly` | logic/lmerkleroot/lmerkleroot.go:23-105 | the loops on the 32-bit counter, wrapping included, read a slot beyond the last exactly when there are more than 2^31 leaves |
| `MerkleRoot.MutatedIncrement` | logic/lmerkleroot/lmerkleroot.go:43-59 | one more leaf adds exactly the equal pairs its carries merge |
| `MerkleRoot.AbsorbLeaf` | logic/lmerkleroot/lmerkleroot.go:35-64 | one round of the carry loop keeps every slot the subtree its counter bit stands for, and the branch collected so far |
| `MerkleRoot.Sweep` | logic/lmerkleroot/lmerkleroot.go:65-111 | closing the carries yields the recursive root and the whole branch |
| `MerkleRoot.MerkleComputation` | logic/lmerkleroot/lmerkleroot.go:10-112 | the carry-array algorithm returns the recursive root, sets mutated exactly for an equal pair of complete siblings, and collects the branch of the position |
| `MerkleRoot.ComputeMerkleRoot` | logic/lmerkleroot/lmerkleroot.go:114-118 | root and mutated flag as specified, zero for no leaves |
| `MerkleRoot.ComputeMerkleBranch` | logic/lmerkleroot/lmerkleroot.go:120-124 | the branch has tree height many entries and folds back to the root; empty beyond the last leaf |
| `MerkleRoot.ComputeMerkleRootFromBranch` | logic/lmerkleroot/lmerkleroot.go:126-143 | the index-driven loop is the fold along the branch |
| `PartialMerkleSpec.CalcHashIsNode` | logic/lmerkleblock/lpartial_merkle_tree.go:67-92 | calcHash, which pads by repeating the left child, is the node of the padded tree |
| `PartialMerkleSpec.CalcHashIsRoot` | logic/lmerkleblock/lpartial_merkle_tree.go:67-92 | at the top calcHash is the Merkle root |
| `PartialMerkleSpec.ParentOfMatchMeaning` | logic/lmerkleblock/lpartial_merkle_tree.go:43-46 | a flag bit is set exactly when some match lies below the node |
| `PartialMerkleSpec.MatchedExactly` | logic/lmerkleblock/lpartial_merkle_tree.go:41-65 | what a full traversal reports below a node is exactly the matched positions there, ascending |
| `PartialMerkleSpec.BuildIsSmall` | logic/lmerkleblock/lpartial_merkle_tree.go:103-112 | a built proof has at most one hash per transaction and at least one bit per hash, so it passes the size tests |
| `PartialMerkleSpec.ExtractOfBuild` | logic/lmerkleblock/lpartial_merkle_tree.go:138-195 | extracting from anywhere in a stream a built subtree returns its node, its matches and positions, and consumes just its bits and hashes |
| `PartialMerkleSpec.DistinctIdsGiveDistinctSiblings` | logic/lmerkleblock/lpartial_merkle_tree.go:174-184 | distinct ids never trip the equal-siblings test, or the tree exhibits a collision |
| `PartialMerkleSpec.ExtractSound` | logic/lmerkleblock/lpartial_merkle_tree.go:138-195 | if extraction ends well on the true node, whatever bits and hashes it read, it lists only ids that are at those positions, short of a collision in the reading |
| `PartialMerkleSpec.ProofIsAccepted` | logic/lmerkleblock/lpartial_merkle_tree.go:18-34 | completeness: the proof for any match vector, padded to whole bytes, is accepted with the root and exactly the matched ids and positions |
| `PartialMerkleSpec.AcceptedProofIsGenuine` | logic/lmerkleblock/lpartial_merkle_tree.go:94-136 | soundness: any bits and hashes that extract to the true root list only true (id, position) pairs, or the reading exhibits a collision |
| `PartialMerkleSpec.HashesAreCounted` | logic/lmerkleblock/lpartial_merkle_tree.go:123-134 | with the bits of an accepted proof, hashes in any other number (one more, one fewer) extract to zero |
| `PartialMerkleSpec.BitsAreCounted` | logic/lmerkleblock/lpartial_merkle_tree.go:123-134 | flag bits appended to an accepted proof change nothing if they need no further byte, and otherwise extract to zero |
| `PartialMerkleSpec.FewerBytesFail` | logic/lmerkleblock/lpartial_merkle_tree.go:123-134 | an accepted proof with whole bytes of flag bits taken off extracts to zero |
| `PartialMerkleSpec.RefusedOutright` | logic/lmerkleblock/lpartial_merkle_tree.go:94-136 | no transactions, a tree marked bad before, or two equal siblings read anywhere: zero |
| `PartialMerkleTrees.PartialMerkleTree.New` | logic/lmerkleblock/lpartial_merkle_tree.go:18-34 | the constructor emits the proof for its match vector |
| `PartialMerkleTrees.PartialMerkleTree.TreeHeight` | logic/lmerkleblock/lpartial_merkle_tree.go:24-28 | the width loop finds the tree height |
| `PartialMerkleTrees.PartialMerkleTree.TraverseAndBuild` | logic/lmerkleblock/lpartial_merkle_tree.go:41-65 | appends exactly the subtree proof to bits and hashes |
| `PartialMerkleTrees.PartialMerkleTree.FindMatch` | logic/lmerkleblock/lpartial_merkle_tree.go:43-46 | the position loop, cut off at the last transaction, decides whether a match lies below |
| `PartialMerkleTrees.PartialMerkleTree.TraverseAndExtract` | logic/lmerkleblock/lpartial_merkle_tree.go:138-195 | moves the two counters, the result lists and the bad flag as the extraction specifies |
| `PartialMerkleTrees.PartialMerkleTree.ExtractMatches` | logic/lmerkleblock/lpartial_merkle_tree.go:94-136 | all acceptance tests, with the zero hash for every rejection; the two results on left-over bits and hashes say which |
| `MerkleBlockWire.VarIntRoundTrip` | util/compactint.go:12-82 | every 64-bit number is read back from its canonical encoding, the rest untouched |
| `MerkleBlockWire.HashesRoundTrip` | logic/lmerkleblock/lpartial_merkle_tree.go:203-247 | the hash list is read back |
| `MerkleBlockWire.PackBits` | logic/lmerkleblock/lpartial_merkle_tree.go:214-219 | bit p goes to bit p mod 8 of byte p div 8, all other bits clear |
| `MerkleBlockWire.UnpackBits` | logic/lmerkleblock/lpartial_merkle_tree.go:253-256 | the bits of the bytes, low bit first |
| `MerkleBlockWire.PackedRoundTrip` | logic/lmerkleblock/lpartial_merkle_tree.go:214-256 | unpacking gives the bits back, followed by the padding |
| `MerkleBlockWire.DecodeOfEncode` | logic/lmerkleblock/lpartial_merkle_tree.go:197-260 | Unserialize undoes Serialize |
| `MerkleBlockWire.Serialize` | logic/lmerkleblock/lpartial_merkle_tree.go:197-226 | what is written decodes to the same count, hashes and bits, padded to whole bytes |
| `MerkleBlockWire.SentProofIsAccepted` | logic/lmerkleblock/lpartial_merkle_tree.go:94-260 | build, serialize, unserialize and extract yields the root and exactly the matches |
| `Utxo.CoinsMap.SpendCoin` | model/utxo/coinsmap.go:110-131 | a fresh coin vanishes, another becomes a dirty tombstone |
| `Utxo.CoinsMap.SpendGlobalCoin` | model/utxo/coinsmap.go:154-164 | answers the coin as it was and spends it in the view |
| `Utxo.UtxoCache.UpdateCoins` | model/utxo/lrucache.go:100-150 | entry by entry the changed entries replace the coins below and tombstones delete them; the view is left empty and the best block set |
| `BlockCheck.CheckTransactionCommon` | model/tx/tx.go:378-417 | passes exactly the transactions with inputs, outputs, legal size, legal values and totals, and few enough signature operations |
| `BlockCheck.CheckRegularTransactionWhenNewBlock` | model/tx/tx.go:330-357 | passes exactly when the transaction is regular and none of its inputs was seen; the seen set grows by its inputs |
| `BlockCheck.CheckBlockTransactions` | logic/ltx/ltx.go:263-289 | passes exactly the acceptable blocks, including that no output is spent twice anywhere in the block |
| `BlockCheck.AcceptableIsWellFormed` | logic/ltx/ltx.go:263-289 | with collision-free ids an accepted block is well formed: one coinbase in front, distinct ids, distinct inputs, legal outputs |
| `BlockApply.TxSpendCoins` | logic/ltx/ltxcoins.go:10-22 | spends the inputs in order and records the coins they named |
| `BlockApply.TxAddCoins` | logic/ltx/ltxcoins.go:24-32 | adds the spendable outputs as coins of that height |
| `BlockApply.CheckInputsMoney` | logic/ltx/ltx.go:891-932 | the first complaint about maturity, value range, running total, shortfall or fee, or none; what each means is MoneyErrorMeaning |
| `BlockApply.ApplyBlockTransactions` | logic/ltx/ltx.go:327-438 | both passes of both modes compute the specified view, fees, signature operations and undo record, or the first error; when there is one is AppliedIff |
| `BlockAccept.AppliedIff` | logic/ltx/ltx.go:327-438 | a block that passed CheckBlock is applied if and only if nothing is overwritten under BIP 30 and each transaction names coins it is offered, keeps locks, signature limits, money and scripts, and the coinbase takes no more than subsidy and fees |
| `BlockAccept.RefusalIsJustified` | logic/ltx/ltx.go:327-438 | the error of a refused block names a rule that the block breaks, and for which transaction |
| `BlockAccept.MoneyErrorMeaning` | logic/ltx/ltx.go:891-932 | no complaint exactly when every coin is mature and in range and the inputs cover the outputs; otherwise the first coin that is not, and for what |
| `BlockAccept.UncheckedIsWeaker` | logic/ltx/ltx.go:412-421 | a block that keeps the rules with scripts checked keeps them without |
| `BlockEffect.AppliedInClosedForm` | logic/ltx/ltx.go:354-438 | in either mode, with in-block spends, the flushed coin set is the old one plus the block's spendable outputs minus its inputs; undo record and fees are those of the coins named |
| `BlockEffect.ModesAgree` | logic/ltx/ltx.go:343-435 | on a topologically ordered block the sequential and the outputs-first mode accept alike, with the same coins, undo record, fees and signature operations |
| `BlockUndo.UndoIsInverse` | logic/lundo/lundo.go:11-106 | undoing a connected block ends DisconnectOk and restores exactly the old coin set |
| `BlockUndo.ConnectThenUndo` | logic/lundo/lundo.go:11-106 | the same for every block the node accepts, in either mode |
| `BlockUndo.UndoCoinSpend` | logic/lundo/lundo.go:71-106 | restores one coin, unclean when it overwrites, failed when a record without height has no source of metadata |
| `BlockUndo.RestoreInputs` | logic/lundo/lundo.go:31-39 | the loop over a transaction's inputs, with the clean flag |
| `BlockUndo.RevertOutputs` | logic/lundo/lundo.go:49-61 | the loop over its outputs; a missing output is a nil dereference, characterised by UndoPanicsIff |
| `BlockUndo.ApplyBlockUndo` | logic/lundo/lundo.go:11-69 | the whole undo: on Ok or Unclean the coin set is rolled back and stands at the parent, on failure nothing changed |
| `UndoExactness.UndoExactIff` | logic/lundo/lundo.go:11-106 | undo is clean and exact if and only if the coin set held none of the block's spendable outputs |
| `UndoExactness.RepeatedCoinbaseIsLost` | logic/lchain/lchain.go:124-126 | a repeated coinbase where BIP 30 is off connects, undoes cleanly, and the first coin is gone |
| `UndoPanic.UndoPanicsIff` | logic/lundo/lundo.go:41-61 | with distinct ids and a record that can be restored, undo panics if and only if some spendable output is neither in the coin set nor put back as an input |
| `UndoPanic.MissingOutputPanics` | logic/lundo/lundo.go:53-55 | a block with one output, undone on an empty coin set |
| `UndoPanic.AppliedNeverPanics` | logic/lundo/lundo.go:41-61 | never on the coin set an accepted block has left, BIP 30 or not |
| `Supply.ConnectedValue` | logic/ltx/ltx.go:409-437 | connecting changes the total value by the coinbase output less fees less burned outputs, and by nothing else |
| `Supply.BlockConservesValue` | logic/ltx/ltx.go:409-437 | hence every accepted block adds at most the subsidy |
| `Supply.RewardIsShift` | model/bitcoinparams.go:494-505 | halving step by step is the right shift of 50 coins |
| `Supply.IssuedBound` | model/bitcoinparams.go:494-505 | after n blocks what is left to issue covers all further halvings |
| `Supply.IssueIsCapped` | model/bitcoinparams.go:494-505 | any number of blocks issues less than twice one period, which is 21,000,000 coins for 210,000 blocks |
| `BlockTree.InvertLowestOneRemovesIt` | model/blockindex/blockindex.go:334-337 | n & (n-1) is n without its lowest one bit |
| `BlockTree.SkipHeightIsLower` | model/blockindex/blockindex.go:339-352 | every skip goes to a strictly lower height, so the walk ends |
| `BlockTree.AncestorOfAncestor` | model/blockindex/blockindex.go:237-265 | an ancestor's ancestors are the block's own |
| `BlockTree.GetAncestor` | model/blockindex/blockindex.go:237-265 | through skip pointers the result is that of following Prev, and nil exactly outside 0..Height |
| `BlockTree.WalkDown` | model/blockindex/blockindex.go:246-265 | the skipping loop keeps the ancestor looked for |
| `BlockTree.GrownIsWellBuilt` | model/chain/chain.go:681-692 | a new index with BuildSkip's pointer, summed work and latest time keeps the invariant of all indexes |
| `BlockTree.IndexMap.AddToIndexMap` | model/chain/chain.go:666-709 | files the index, keeps all others, and keeps the best header one of most work |
| `BlockTree.IndexMap.AcceptBlockHeader` | logic/lblock/lblock.go:268-317 | a header already filed is left as it is; a new one is filed exactly when its checks pass and its parent is filed and not invalid, genesis excepted |
| `BlockTree.WorkOfPath` | model/chain/chain.go:675-692 | the work of an index is the sum of the proofs on its path |
| `BlockTree.AncestorsHaveLessWork` | model/chain/chain.go:675-692 | with positive proofs every ancestor has less work |
| `BlockTree.TimeMaxOfPath` | model/chain/chain.go:674-691 | the latest time is the maximum over the path |
| `MedianTime.MedianByCount` | model/blockindex/blockindex.go:166-184 | the median reaches m exactly when more than half of the times do: |s| - |s|/2 of them |
| `MedianTime.GetMedianTimePast` | model/blockindex/blockindex.go:166-184 | the median of the times of the last eleven blocks, or of fewer near the root, zero for no block |
| `MedianTime.ContextualCheckBlockHeader` | logic/lblock/lblockheader.go:25-56 | passes exactly when bits, time above the median, time limit and version are right; too old is told exactly |
| `MedianTime.MedianStep` | model/blockindex/blockindex.go:166-184 | a block later than its parent's median does not lower the median |
| `MedianTime.MedianTimeNeverDecreases` | model/blockindex/blockindex.go:166-184 | along any chain that keeps the time rule median time past never decreases (BIP 113, section "Specification") |
| `MedianTime.GetBlockScriptFlags` | model/chain/chain.go:306-380 | each flag is set exactly from its own height or median time on, and no others |
| `MedianTime.CleanStackComesWithP2SH` | model/chain/chain.go:306-380 | the flags of blocks never ask for a clean stack without pay-to-script-hash if and only if the magnetic anomaly comes no earlier than P2SH |
| `MedianTime.FlagsOnlyGrow` | model/chain/chain.go:306-380 | script flags only grow along a chain |
| `MedianTime.JustEnabledOnce` | model/blockindex/blockindex.go:316-332 | a rule that comes with median time is just enabled in at most one block of a chain |
| `MedianTime.ForksStayOn` | model/bitcoinparams.go:459-474 | both forks are such rules |
| `ChainSpec.PathAt` | model/chain/chain.go:384-390 | entry i of the active list is the ancestor at height i |
| `ChainSpec.NoOverwriteIsDisjoint` | logic/ltx/ltx.go:338-349 | a block that passes the BIP 30 test brings only new outputs |
| `ChainSpec.GrownIsGood` | model/chain/chain.go:666-709 | a new header whose block is sane leaves the tree a good one |
| `ChainSpec.InvariantInLarger` | model/chain/chain.go:666-709 | what is true of the active chain stays true when headers arrive |
| `ChainSpec.AcceptedConnects` | logic/lchain/lchain.go:35-200 | a block that applies on its parent's coins gives the replayed coins and undo record of its chain, with scripts checked or not |
| `ChainSpec.AppliesIffValid` | logic/lchain/lchain.go:35-200 | on its parent's replayed coins a block applies if and only if it is valid |
| `ChainSpec.ValidInLarger` | logic/lchain/lchain.go:35-200 | a block stays valid, or invalid, when headers arrive |
| `ChainSpec.UndoneIsParent` | logic/lchain/lchain.go:434-452 | the stored record takes the coin set back to the parent's replay, cleanly |
| `ChainSpec.ReplaySupply` | logic/ltx/ltx.go:409-437 | the coins of any valid chain are worth no more than the subsidies of heights 1 to its tip |
| `ChainSpec.SupplyIsCapped` | util/feeRate.go:11-12 | hence always less than 21,000,000 coins with a 210,000-block interval |
| `ChainState.SortedByWorkSorts` | model/chain/chain.go:566-589 | the stable sort by work sorts and keeps the candidates |
| `ChainState.WithoutByWork` | model/chain/chain.go:645-657 | removing a candidate keeps the order |
| `ChainState.TipHasRecord` | logic/lchain/lchain.go:434-452 | the tip is genesis or its record undoes it |
| `ChainState.Chain.constructor` | logic/lchain/lchain.go:454-495 | from the genesis block over an empty coin set the invariant holds |
| `ChainState.Chain.SetTip` | model/chain/chain.go:433-453 | copying the old list and walking down until it meets it gives the path to the new tip |
| `ChainState.Chain.FindFork` | model/chain/chain.go:522-535 | the last block the two paths have in common; none higher |
| `ChainState.Chain.InsertToBranch` | model/chain/chain.go:566-589 | the candidates with the new one, in order of work |
| `ChainState.Chain.RemoveFromBranch` | model/chain/chain.go:645-657 | the first entry of that block is gone, the rest as it was |
| `ChainState.Chain.ScriptsChecked` | logic/lchain/lchain.go:66-98 | scripts go unchecked only for blocks on the way to the block assumed valid |
| `ChainState.Chain.ConnectBlock` | logic/lchain/lchain.go:35-200 | every block that is valid with its scripts is accepted; an accepted block is valid, its scripts too unless it is on the way to the block assumed valid; success gives the replayed coins and a right undo store, failure leaves the store alone; the best-hash panic is unreachable |
| `ChainState.Chain.ConnectTip` | logic/lchain/lchain.go:222-315 | the inactive-chain panic is unreachable; the block becomes the tip, or it is invalid and is marked failed and dropped; the invariant is kept |
| `ChainState.Chain.DisconnectBlock` | logic/lchain/lchain.go:434-452 | the hash panic is unreachable; every block but genesis is undone cleanly to its parent |
| `ChainState.Chain.DisconnectTip` | logic/lchain/lchain.go:320-393 | always succeeds except on genesis, and keeps the invariant |
| `ChainState.Chain.BlocksToConnect` | logic/lchain/lactivechain.go:173-178 | the blocks towards the target, highest first |
| `ChainState.Chain.ConnectUntilBetter` | logic/lchain/lactivechain.go:184-205 | connects upwards until the tip beats the old one; stops early only at an invalid block, which alone is dropped |
| `ChainState.Chain.ActivateBestChainStep` | logic/lchain/lactivechain.go:144-214 | disconnecting to the fork never fails; success leaves a tip with more work on the way to the target; failure names an invalid block on that way above the fork, and drops only it; an invalid block is found exactly when an error is returned |
| `ChainState.Chain.ActivateBestChain` | logic/lchain/lactivechain.go:29-111 | terminates; without error or shutdown no candidate has more work than the tip; an error comes only from an invalid block on the way to the best candidate, so a valid way never fails |
| `ChainState.Chain.AcceptHeader` | logic/lblock/lblock.go:268-317 | the tree grows by the header and the invariant stays |
| `ChainState.Chain.Run` | logic/lchain/lactivechain.go:29-214 | after any run of headers, activations, disconnections, new candidates and invalidations: active list, best hash, coin set and supply are those of the tip's path and all its blocks are valid; if it ends with a successful activation no candidate has more work; activations fail only if some block is invalid, and only invalid or invalidated blocks are dropped or marked failed |
| `TreeCheckSpec.WalkIsComplete` | logic/lchain/lactivechain.go:268-497 | from a single root the depth-first order lists every index exactly once |
| `TreeCheckSpec.PreIsBelow` | logic/lchain/lactivechain.go:428-493 | a subtree lists only what hangs below its root |
| `TreeCheckSpec.FirstOnMeaning` | logic/lchain/lactivechain.go:270-290 | the tracked node is an ancestor with the property and none higher has it |
| `TreeCheckSpec.CleanVerdict` | logic/lchain/lactivechain.go:292-426 | the verdict is clean if and only if the node is sound by itself (counts, data, undo, height, work), towards all its ancestors, and among the unlinked blocks |
| `TreeCheck.BuildForwardTree` | model/chain/chain.go:741-751 | in any map order every index is listed once under its parent |
| `TreeCheck.CountForward` | logic/lchain/lactivechain.go:233-242 | the count is the sum of the list lengths |
| `TreeCheck.EnterAndLeave` | logic/lchain/lactivechain.go:270-464 | setting on entry and unsetting on leaving move all seven variables along the path |
| `TreeCheck.SearchSibling` | logic/lchain/lactivechain.go:470-488 | finds the next sibling's place, or that there is none |
| `TreeCheck.NextNode` | logic/lchain/lactivechain.go:438-493 | climbing from a leaf ends at the next node of the order with height and variables of its parent path |
| `TreeCheck.CheckNode` | logic/lchain/lactivechain.go:292-426 | the node checks, in order |
| `TreeCheck.VisitNode` | logic/lchain/lactivechain.go:268-493 | one round checks the node and moves to the next one of the order |
| `TreeCheck.WalkTree` | logic/lchain/lactivechain.go:268-499 | terminates; without a failure it has visited the whole order and every verdict was clean |
| `TreeCheck.CheckBlockIndex` | logic/lchain/lactivechain.go:216-499 | passes exactly when there is one root and every index of the tree is clean |
| `ScriptNum.EncodeRoundTrip` | model/script/scriptnum.go:101-190 | decoding undoes encoding, and encodings are minimal |
| `ScriptNum.MinimalIsEncoding` | model/script/scriptnum.go:239-265 | a minimal byte string is the encoding of its number, so numbers have one encoding |
| `ScriptNum.GetScriptNum` | model/script/scriptnum.go:101-140 | the byte loop reads the signed number, with the length and minimality errors |
| `ScriptNum.Serialize` | model/script/scriptnum.go:153-190 | the byte loop writes the encoding |
| `ScriptNum.TrimmedMeaning` | model/script/scriptnum.go:192-237 | trimming keeps the number and makes it minimal |
| `ScriptNum.MinimallyEncode` | model/script/scriptnum.go:192-237 | the loop trims |
| `ScriptNum.BytesToBool` | model/script/script.go:499-513 | true exactly for byte strings other than zeros of either sign |
| `ScriptNum.TruthIsNonZero` | model/script/script.go:499-513 | that is, for numbers other than zero |
| `ScriptOps.PaddedValue` | logic/lscript/lscript.go:1497-1546 | NUM2BIN keeps the number |
| `ScriptOps.Bin2NumUndoesNum2Bin` | logic/lscript/lscript.go:1497-1563 | BIN2NUM takes NUM2BIN back |
| `Multisig.CountSignatures` | logic/lscript/lscript.go:1351-1391 | the loop is the one-pass tally |
| `Multisig.OneCheckPerKey` | logic/lscript/lscript.go:1351-1391 | at most one check per key |
| `Multisig.SuccessIsMatching` | logic/lscript/lscript.go:1351-1391 | without an encoding error it succeeds exactly when the signatures can be assigned to keys in strictly increasing order |
| `ScriptEval.CheckMultisig` | logic/lscript/lscript.go:1267-1439 | operands, tally, null-fail and dummy rules and the result, as specified |
| `ScriptEval.EvalScript` | logic/lscript/lscript.go:87-1580 | the loop over the opcodes is the run of single steps, whose meaning is stated opcode by opcode below |
| `ScriptEval.VerifyScript` | logic/lscript/lscript.go:15-85 | both scripts, the redeem script and the clean-stack rule, in order; what acceptance means is stated below |
| `ScriptMeaning.Limits` | logic/lscript/lscript.go:118-146 | 520 bytes a push, 201 opcodes, the disabled opcodes and 1000 values, around every opcode |
| `ScriptMeaning.Pushed` | logic/lscript/lscript.go:144-193 | pushes leave their data, small numbers, DEPTH and SIZE the shortest byte string for the number |
| `ScriptMeaning.CompactIsShortest` | model/opcodes/parsedopcode.go:45-58 | a push is compact exactly when no other opcode pushes the same data in fewer bytes |
| `ScriptMeaning.MinimalPush` | model/opcodes/parsedopcode.go:60-80 | a push is minimal exactly when it is the shortest; one byte passes in any form unless it is a number with an opcode of its own |
| `ScriptMeaning.OneMoved` | logic/lscript/lscript.go:369-570 | DROP, DUP, IFDUP, TOALTSTACK, VERIFY on the top value |
| `ScriptMeaning.FromAltStack` | logic/lscript/lscript.go:411-417 | FROMALTSTACK moves the top of the other stack |
| `ScriptMeaning.TwoMoved` | logic/lscript/lscript.go:418-668 | 2DROP, 2DUP, NIP, OVER, SWAP, TUCK by position |
| `ScriptMeaning.ThreeMoved` | logic/lscript/lscript.go:448-641 | 3DUP and ROT by position |
| `ScriptMeaning.PairsMoved` | logic/lscript/lscript.go:474-524 | 2OVER, 2ROT and 2SWAP by position |
| `ScriptMeaning.PickedAndRolled` | logic/lscript/lscript.go:594-629 | PICK copies and ROLL moves the value with n values above it |
| `ScriptMeaning.PickedTooDeep` | logic/lscript/lscript.go:594-629 | no number, a negative one or one too large fails |
| `ScriptMeaning.Bitwise` | logic/lscript/lscript.go:688-729 | AND, OR and XOR byte by byte, for operands of one length |
| `ScriptMeaning.Compared` | logic/lscript/lscript.go:730-773 | EQUAL and EQUALVERIFY |
| `ScriptMeaning.OneNumber` | logic/lscript/lscript.go:774-849 | 1ADD, 1SUB, NEGATE, ABS, NOT, 0NOTEQUAL as functions of the number |
| `ScriptMeaning.Arithmetic` | logic/lscript/lscript.go:850-925 | ADD, SUB, MIN, MAX of the two numbers, the lower one first |
| `ScriptMeaning.Division` | logic/lscript/lscript.go:890-905 | DIV gives the one quotient rounded towards zero, MOD the remainder; zero is refused |
| `ScriptMeaning.Comparison` | logic/lscript/lscript.go:926-1041 | the nine comparing opcodes as comparisons of the two numbers |
| `ScriptMeaning.Within` | logic/lscript/lscript.go:1042-1085 | WITHIN includes the lower bound and not the upper |
| `ScriptMeaning.Hashed` | logic/lscript/lscript.go:1086-1122 | the five hash opcodes replace the top value by its hash |
| `ScriptMeaning.JoinedAndSplit` | logic/lscript/lscript.go:1440-1496 | CAT joins up to 520 bytes, SPLIT gives two parts that join to the whole, the first as long as asked |
| `ScriptMeaning.NumToBin` | logic/lscript/lscript.go:1497-1546 | the same number in exactly so many bytes, and failure exactly when there is none |
| `ScriptMeaning.BinToNum` | logic/lscript/lscript.go:1547-1563 | the shortest byte string for the same number, and failure exactly when none has four bytes or fewer |
| `ScriptMeaning.TooFewOperands` | logic/lscript/lscript.go:369-1265 | each opcode with fewer values than it takes fails |
| `ScriptMeaning.Others` | logic/lscript/lscript.go:297-396 | NOPs, discouraged or not, CODESEPARATOR, RETURN, and every opcode without a meaning |
| `ScriptMeaning.Locked` | logic/lscript/lscript.go:198-296 | the lock checks demand a number of up to five bytes, not negative, that the checker accepts, leave it, and are NOPs when switched off |
| `ScriptSignatures.PairErrorIff` | model/script/script.go:885-953 | a pair of signature and key is refused exactly when it breaks a rule the flags switch on, and the error names one |
| `ScriptSignatures.RemovedAll` | model/script/script.go:368-377 | the signed code is the script without the shortest pushes of the signatures, in order |
| `ScriptSignatures.SignatureChecked` | logic/lscript/lscript.go:1128-1198 | CHECKSIG asks about the second value as signature and the top as key over the code since the last separator; every outcome by encoding, answer and null-fail rule |
| `ScriptSignatures.DataSignatureChecked` | logic/lscript/lscript.go:1199-1266 | CHECKDATASIG asks about signature, message and key; an empty signature is not checked |
| `ScriptSignatures.PassIffFits` | logic/lscript/lscript.go:1351-1391 | the pass succeeds if and only if, keys tried from the last down, each signature finds its key before any bad pair |
| `ScriptSignatures.FitsIffMatching` | logic/lscript/lscript.go:1351-1391 | then the signatures match keys in script order; without bad pairs the two are the same |
| `ScriptSignatures.BadKeySpoils` | logic/lscript/lscript.go:1351-1391 | with a malformed last key a matched signature does not fit |
| `ScriptSignatures.MultisigNeeds` | logic/lscript/lscript.go:1267-1350 | a multisignature runs only on a dummy, signatures, their number, keys, their number, within the opcode limit |
| `ScriptSignatures.MultisigRefuses` | logic/lscript/lscript.go:1267-1336 | the error for each thing wrong with the operands |
| `ScriptSignatures.MultisigChecked` | logic/lscript/lscript.go:1267-1439 | on such operands, in script order, it is true exactly when they fit, and fails for the dummy and null-fail rules |
| `ScriptBranches.RunToIsRunFrom` | logic/lscript/lscript.go:118-1572 | the loop is the run of its parts in turn |
| `ScriptBranches.RunUnder` | logic/lscript/lscript.go:118-124 | conditionals around a part that all hold make no difference to it |
| `ScriptBranches.SkippingCounts` | logic/lscript/lscript.go:125-142 | a skipped part changes only the opcode count, and fails exactly for an oversized push, a disabled opcode, VERIF, VERNOTIF or too many opcodes |
| `ScriptBranches.ConditionalRuns` | logic/lscript/lscript.go:316-368 | IF or NOTIF with any ELSEs up to its ENDIF takes its operand and runs exactly the parts it selects, each as if it stood alone, skipping the others |
| `ScriptBranches.EvaluatedIsNested` | logic/lscript/lscript.go:1574-1577 | a script runs to its end only if its conditionals are nested and closed, whichever parts run |
| `ScriptSpend.AcceptedMeansTrue` | logic/lscript/lscript.go:15-85 | acceptance leaves a true value on top, alone under the clean-stack rule |
| `ScriptSpend.AcceptedIff` | logic/lscript/lscript.go:15-85 | an output that does not pay to a script hash is spent exactly when the signature script runs and the output script then ends true and clean |
| `ScriptSpend.AcceptedByScriptIff` | logic/lscript/lscript.go:44-65 | one that does: only pushes, the output script true, and the script pushed last ends true and clean on the values before it |
| `ScriptSpend.CleanStackNeedsP2SH` | logic/lscript/lscript.go:67-83 | without P2SH the panic comes exactly when the clean-stack rule is on and the output could be spent without it |
| `ScriptSpend.PushOnlyEvaluates` | logic/lscript/lscript.go:118-193 | a push-only script leaves the values it pushes, or breaks a push limit and fails |
| `ScriptSpend.ScriptHashIff` | logic/lscript/lscript.go:44-85 | a pay-to-script-hash output is accepted exactly when the signature script only pushes, the last push hashes to the hash in the output, and as a script it ends true and clean on the other pushes; never a panic |
| `ScriptSpend.KeyHashSpends` | logic/lscript/lscript.go:87-1580 | a pay-to-public-key-hash script is spent exactly from a signature and a key with the hash, well formed and signed over the whole script without pushes of the signature |
| `ScriptSpend.KeyHashIff` | logic/lscript/lscript.go:15-85 | so such an output is accepted exactly then, for any signature script |
| `ScriptSpend.KeyHashTwoPushes` | logic/lscript/lscript.go:15-85 | with a signature script of two pushes, exactly when they are such a signature and key |
| `ScriptSpend.MultisigSpends` | logic/lscript/lscript.go:87-1580 | an m-of-n script is spent exactly from a dummy and m signatures that fit the keys in script order |
| `ScriptSpend.MultisigIff` | logic/lscript/lscript.go:15-85 | so such an output is accepted exactly then, for any signature script |
| `ScriptSpend.MultisigPushes` | logic/lscript/lscript.go:15-85 | with a dummy and m well-formed signatures, exactly when they match keys in script order |
| `ScriptRelax.TallyRelaxed` | logic/lscript/lscript.go:1351-1391 | dropping encoding rules does not change a tally that went through |
| `ScriptRelax.StepRelaxed` | logic/lscript/lscript.go:118-1572 | an opcode that succeeds gives the same state under every relaxation of the flags |
| `ScriptRelax.RunRelaxed` | logic/lscript/lscript.go:118-1572 | the same states, opcode by opcode |
| `ScriptRelax.VerifyRelaxed` | logic/lscript/lscript.go:15-85 | a script accepted under some flags is accepted with the same stack under every relaxation |
| `ScriptRelax.FallbackAcceptsMore` | logic/ltx/ltx.go:708-731 | in particular when all standard-but-not-mandatory bits are cleared |
| `ScriptRelax.CheckScript` | logic/ltx/ltx.go:708-731 | passes exactly what is accepted; a failure carries the first error and is mandatory exactly when the mandatory rules alone reject; a panic comes exactly from a panic of one of the two runs |
| `ScriptRelax.DroppedLockIsDiscouraged` | logic/lscript/lscript.go:198-206 | clearing CHECKLOCKTIMEVERIFY while still discouraging NOPs rejects a script that was accepted, so that clause of the condition is needed |
| `SigOps.GetSigOpCount` | model/script/script.go:663-692 | the count opcode by opcode, which CountIsExact states by positions |
| `SigOps.CountIsExact` | model/script/script.go:663-692 | one for every position that checks one signature, twenty for every multisignature without a number before it, and one for every key of the others |
| `SigOps.SmallNumberIsPushed` | logic/lscript/lscript.go:153-193 | a small-number opcode just executed has left its number on top |
| `SigOps.MultisigChecks` | logic/lscript/lscript.go:1267-1391 | a multisignature checks at most as many signatures as its key count, and at most twenty |
| `SigOps.RunChecks` | logic/lscript/lscript.go:118-1439 | after every prefix of every run the checks are at most the count so far |
| `SigOps.ChecksAreCounted` | model/script/script.go:663-692 | every run, failing ones included, verifies at most GetSigOpCount signatures, accurate or not |
| `SigOps.AccurateIsSmaller` | model/script/script.go:663-692 | accurate counting never counts more |
| `Dag.ClosedHoldsBelow` | model/mempool/txmempool.go:542-562 | a set that holds the successors of its members holds all they reach |
| `Dag.QueuePop` | model/mempool/txmempool.go:551-561 | the paths left to walk from a queue are those of its head and of its rest, repetitions counted |
| `MempoolWalk.CalculateDescendants` | model/mempool/txmempool.go:542-562 | terminates despite repeated queue entries and adds exactly the entry and its descendants |
| `MempoolWalk.FindParents` | model/mempool/txmempool.go:612-620 | the parents among the inputs, refused exactly when there are some and they are too many |
| `MempoolWalk.WalkAncestors` | model/mempool/txmempool.go:631-669 | terminates and collects exactly what the parents reach, within the limits; a refusal means that path-counted totals exceed a limit |
| `MempoolWalk.CalculateMemPoolAncestors` | model/mempool/txmempool.go:606-670 | exactly the ancestors; a result respects all limits, and the count limit exactly when the direct parents do, which searching for them ensures; a refusal means that path-counted totals exceed a limit |
| `MempoolWalk.CountLimitExample` | model/mempool/txmempool.go:621-669 | two parents pass a count limit of one when they are not searched for |
| `MempoolLimits.SinglePathsDecide` | model/mempool/txmempool.go:631-669 | where no ancestor is reached twice, a refusal means that a limit is really exceeded |
| `MempoolSpec.AncOfParents` | model/mempool/txmempool.go:606-670 | ancestors are the parents and theirs |
| `MempoolSpec.WalkFindsDescendants` | model/mempool/txmempool.go:542-562 | walking child links finds exactly the entries that have this one as an ancestor |
| `MempoolRemoval.TouchedAreAncestors` | model/mempool/txmempool.go:495-502 | the entries whose descendant totals a removal lowers are ancestors |
| `MempoolRemoval.LinksAfter` | model/mempool/txmempool.go:489-502 | after any removal links follow the inputs and are mutual inverses |
| `MempoolRemoval.CoveredAfter` | model/mempool/txmempool.go:495-502 | whatever is removed, descendant count and size never fall below the truth |
| `MempoolRemoval.AncestorsCoveredAfter` | model/mempool/txmempool.go:467-487 | whatever is removed in whatever order, ancestor count and size never fall below the truth |
| `MempoolRemoval.SurvivorsKeepAncestors` | model/mempool/txmempool.go:442-451 | when whole families go, the survivors' ancestors are what they were |
| `MempoolRemoval.SelfRemovalExactIff` | model/mempool/txmempool.go:467-487 | removing one entry keeps ancestor totals exact if and only if without it everything above it can still be reached from everything below it |
| `MempoolRemoval.ParentlessRemovalIsExact` | model/mempool/txmempool.go:269-291 | in particular for a transaction whose parents are gone |
| `MempoolRemoval.ChildFirstRemovalIsNotExact` | model/mempool/txmempool.go:269-291 | one removal of a child while its parent stays leaves wrong totals whenever it was an entry's only parent |
| `MempoolRemoval.FamilyRemovalExactIff` | model/mempool/txmempool.go:489-502 | recursive removal keeps a survivor's exact descendant count and size exact if and only if none of its removed descendants is separated from it by two removed entries or more |
| `MempoolRemoval.ThirdInChainIsMissed` | model/mempool/txmempool.go:489-502 | a survivor above a removed chain of three goes on counting the third |
| `MempoolAdd.InvariantAfterAdd` | model/mempool/txmempool.go:126-154 | adding a transaction that conflicts with nothing and that nothing spends keeps the whole invariant |
| `MempoolAdd.LinksRightIff` | logic/lchain/lchain.go:378-388 | adding leaves the links right if and only if nothing in the pool spends the new transaction already |
| `MempoolBlock.FamilyAfterFamily` | model/mempool/txmempool.go:453-462 | removing one family after another is removing them together |
| `MempoolBlock.AloneKeepsAncestors` | model/mempool/txmempool.go:453-462 | entries left alone by family removals keep exactly their ancestors, none of which was removed |
| `MempoolBlock.BlockRemovalExactIff` | model/mempool/txmempool.go:269-291 | a whole block keeps the ancestor totals exact if and only if no entry that stays is cut off from an ancestor before that ancestor goes as a transaction of the block |
| `MempoolBlock.ParentsFirstKeepsTies` | model/mempool/txmempool.go:269-291 | so it does when the block lists parents first; and then no entry that stays descends from a conflict |
| `MempoolBlock.ChildFirstBreaksTies` | model/mempool/txmempool.go:269-291 | it does not when a child goes while its parent stays and some entry that stays depends on the child alone |
| `Mempool.TxMempool.constructor` | model/mempool/txmempool.go:706-721 | an empty pool satisfies the invariant |
| `Mempool.TxMempool.UpdateForRemoveFromMempool` | model/mempool/txmempool.go:464-503 | the three loops, each in any order, leave links and totals as specified |
| `Mempool.TxMempool.DelTxentry` | model/mempool/txmempool.go:672-688 | the entry, its inputs in nextTx and its sizes are gone |
| `Mempool.TxMempool.RemoveStaged` | model/mempool/txmempool.go:442-451 | the pool after the removal, with nextTx and the sums to match |
| `Mempool.TxMempool.RemoveFamilies` | model/mempool/txmempool.go:529-533 | exactly the entries and their descendants go, the others are left alone |
| `Mempool.TxMempool.RemoveTxRecursive` | model/mempool/txmempool.go:506-534 | exactly the transaction and its descendants go, or the spenders of its outputs and theirs; the others keep everything but descendant totals and child links |
| `Mempool.TxMempool.RemoveConflicts` | model/mempool/txmempool.go:453-462 | exactly the other spenders of its inputs go, with their descendants; the others are left alone |
| `Mempool.TxMempool.RemoveTxSelf` | model/mempool/txmempool.go:269-291 | for a block in any order: exactly its transactions and the families of their rivals go; ancestor totals stay exact if and only if all ties are kept, and parents first keeps them |
| `Mempool.TxMempool.Expire` | model/mempool/txmempool.go:423-440 | exactly the entries older than the time go, with their descendants, and their number is returned |
| `Mempool.TxMempool.TrimToSize` | model/mempool/txmempool.go:372-419 | families go, whichever is chosen, until the pool is small enough or empty, and the last one went because it was not; the others are left alone |
| `Mempool.TxMempool.AddTx` | model/mempool/txmempool.go:126-154 | the entry is added with its links and exact ancestor totals; the links are right, and the invariant holds, if and only if no child was in the pool |
| `Mempool.TxMempool.Accept` | model/mempool/txmempool.go:606-670 | an acceptance is within all limits, a refusal means path-counted totals exceed one; where no ancestor is reached twice it accepts exactly within the limits |
| `Mempool.TxMempool.Run` | model/mempool/txmempool.go:126-154 | over any run of additions, recursive removals, blocks, expiry and trimming the invariant holds in every state, every step has its exact effect, and ancestor totals stay exact if every block keeps its ties |
| `Mempool.ChildFirstExample` | model/mempool/txmempool.go:269-291 | a chain of three and a block that lists the second first: the third is left alone with totals that are not its own |
| `PeerPipeline.StepKeeps` | peer/peer.go:1540-1671 | no step blocks a handler on sendQueue or sendDoneQueue, and every step keeps the invariant |
| `PeerPipeline.RunsNeverBlock` | peer/peer.go:1803-1873 | so in every interleaving from the start |
| `PeerPipeline.OneAtATimeInOrder` | peer/peer.go:1556-1585 | messages reach outHandler in the order they were enqueued, at most one under way; what was enqueued is what was accepted of it, then drained, then still in the channel |
| `PeerPipeline.EveryTakenMessageIsSignalled` | peer/peer.go:1645-1668 | when both handlers are gone the done signals are exactly those of all messages they took or drained |
| `PeerPipeline.SignalledExactlyOnce` | peer/peer.go:1853-1869 | a message is signalled exactly as often as it was enqueued and taken out of the channel |

## Left out

- Retargeting and compact difficulty (`model/pow`): the required bits and the work of a block are parameters.
- Disk layout, flushing, block files, reindexing and the LRU eviction of the coin cache: storage is taken to succeed.
- Elliptic-curve, hash and signature-hash computations: parameters of the checker.
- Parsing of raw script bytes into opcodes and back: scripts come parsed; the parser for redeem scripts is a parameter.
- Byte-slice aliasing between stack elements: values are copied.
- Sequence locks and lock-time arithmetic: parameters.
- The orphan queue of `AddToBranch` and the raising of status bits: candidates are offered one at a time.
- Failure states of descendants of an invalid block, and resetting them.
- `rootTx`, the two sorted containers, the rolling minimum fee and the eviction order of the pool.
- Descendant fee totals: only count and size are compared with the truth.
- Inventory trickling, stall control, pings and header announcements of the peer: only what passes the two send channels;
  the select loop of `queueHandler` and the loop of `outHandler` are steps of a machine, not loops.
- RPC, configuration, wallet, mining and networking.
- BlockTree.IndexMap.AddToIndexMap: requires a header not filed yet, which AcceptBlockHeader sees to; refiling an index is not modelled.
- MempoolWalk.WalkAncestors: between the true totals and the path-counted ones a refusal depends on the order in which maps are walked, and is not stated.
- Mempool.TxMempool.Run: the age and size limits that AddTx applies at its end are operations of their own, and a transaction with a child in the pool is not added.
- Mempool.TxMempool.TrimToSize: the list of freed outpoints it returns is not modelled.
- MerkleBlockWire.Serialize: the stream is a byte sequence; write and read errors are not modelled.
- TreeCheck.CheckBlockIndex: the index is any forest of parent links; links in a cycle, which hashes rule out, are not modelled.
- Utxo.UtxoCache.UpdateCoins: the cache and the database below it are one coin set, so the internal dirty marks of the cache are not modelled.
