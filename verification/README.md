# Noct consensus, modelled and proved in Dafny

Noct is a two-pool chain: a ring pool with hidden amounts (CLSAG, Bulletproofs+) and a shielded
pool (Orchard), joined by a turnstile. This project models its consensus state machine and the
arithmetic, codecs, mempool, block log, ring selection and gossip around it, and proves what the
program promises of them. `dafny verify dfyconfig.toml` checks the whole project.

## How it is put together

The program's stateful objects are classes with the program's fields and loops (`Chain.Blockchain`,
`ShieldedPool.ShieldedState`, `Pools.PoolTotals`, `Mempools.Mempool`, `BlockLog.Reader`,
`Readers.Cursor`, `Gossip.Network`). Each method is proved against a function of the old state, and
the theorems are about those functions.

- Values and rules. `Types`, `Data`, `Oracles`, `Pools`, `ShieldedPool`, `Emission`,
  `OrderStatistics`, `LittleEndian`, `Difficulty`, `MedianTime`; `Ledgers` holds the chain state as a
  value (`Ledger`), the verdict of `add_block` (`Judge`) and the states it and `pop_block` leave
  (`Added`, `Popped`).
- The rules stated outright. `TxRules`, `PoolRules` and `BlockRules` say as plain conditions what the
  checks, walked in their order, let through, and which condition a refusal names; `PoolAdmission` and
  `SnapshotRules` do the same for the mempool and for snapshots, `Retarget` for the difficulty,
  `RingDraws` for the draws behind a ring. The methods and the functions they are proved against do not
  refer to these conditions.
- Chains over time. `Replay`, `Reorg`, `SharedPrefix` and `Runs` are about any rules that meet four
  laws; `Consensus` shows that this chain's rules meet them. `Genuine` says that a chain is the
  replay of its own surviving blocks from genesis, in every field.
- Facts about every reachable chain. `Supply`, `Conservation`, `NoteMaturity`, `ChainTime`,
  `ProvenChains`, `RingAcceptance`, `RestoredChains`; `Safety` states them for whole runs of the program's rules.
  `TwoBlockChains` builds two small chains in full, to show that what these facts ask for occurs.
  `SideBySide` compares two chains under the same rules through rollbacks, reorganisations and runs;
  `Pruning` and `RestoredReorgs` use it for a pruning and a restored chain, `Restart` for added blocks.
- Encodings. `Formats` builds byte formats that are exact by construction; `Wire`, `Messages` and
  `Snapshots` put the program's formats together, `WellFormed` says what they carry. The program's own
  writers are in `Encoders`, `SnapshotMethods` and `PoolSnapshots`, its cursor readers in `Readers`,
  `WireReaders`, `PoolSnapshots` and `StateReaders`. `Merkle` and `BlockLog` rest on the formats, and
  `BlockIdentity` ties block ids to the reorganisation that compares them.
- Around the chain. `Chain` (Blockchain.dfy), `Mempools`, `Builder`, `RingSelection`, `Gossip`, and
  `BlockRelay`, gossip under this chain's own rules.

Cryptography enters as deterministic functions (`Oracles.Crypto`, `Wire.Codec`,
`Snapshots.TreeLibrary`, `Builder.Signer`, `Merkle.Hash`). Nothing is assumed about them globally: a
theorem that needs soundness of signatures and range proofs (`Conservation.Sound`), honest signing
(`Builder.Honest`), self-delimiting range proofs (`Wire.SelfDelimiting`), no id collision among the
blocks at hand (`SharedPrefix.NoCollisions`) or a tree library that rebuilds the tree at hand
(`Snapshots.Rebuilds`) says so in its own precondition, and `Merkle` and `BlockIdentity` exhibit the
collision instead of excluding it. The note tree is the sequence of its leaves (section 3.8 of the Zcash Protocol
Specification), the nullifier set a set (section 3.9), the turnstile the rule of ZIP 209.

## Where the code and its description part

The model follows the code. Each point below is a theorem, with the exact condition.

- Skipping a shared prefix "cannot change the outcome" (noct/core/src/chain.rs:838-844). It can:
  `try_reorg` takes branches whose skipped blocks come out of sequence or with foreign transaction
  lists, which applying the branch would refuse. `SharedPrefix.SkippingRefinesNaive` gives the exact
  condition (`SharedPrefix.SteadySkippingRefinesNaive` for a node in service,
  `BlockIdentity.SkippingRefinesNaiveOnIds` for ids that are hashes),
  `SharedPrefix.SkippingIsMorePermissive` an instance.
- The blocks put back after a failed reorganisation are taken to re-apply "under rules that depend only
  on the chain" (noct/core/src/chain.rs:876-879), but one rule reads the clock; `Reorg.AllOrNothing`
  says exactly when it fires, `Reorg.ClockGoneBackPanics` gives an instance.
- `root([A, H(B|C)]) == root([A, B, C])` in the comment on `hashing_blob`
  (noct/core/src/block.rs:550-551) is not what the code computes: odd nodes are promoted at the end,
  so the pair that can be replaced is the first. `Merkle.RootAloneDoesNotBind` and
  `Merkle.CommentedShapeNeedsACollision`.
- `build_with_shielded` says that with a bundle either half of the ring side may be empty
  (noct/core/src/tx.rs:411-418). With ring outputs and no ring input nothing cancels the output
  masks: the transaction is built and then refused. `Builder.BuiltIsBatchableIff`,
  `Builder.BuiltVerifiesIff`, `Builder.BuiltThenRefused`.
- The index of `BlockReader` agrees with a full scan until an extension meets a corrupt length behind
  new frames; after that the same frames are pushed again and later heights are answered with
  earlier blocks. `BlockLog.StaysInStepIff`, `BlockLog.CorruptionRepeatsFrames`.
- "Everything before `mature_boundary` is spendable outright" (noct/core/src/chain.rs:1187) needs a tip
  at or above the maturity. On a younger output set the cutoff saturates to zero, and a ring of two or
  more may come out with the coinbase of height zero as a decoy, which the validator refuses.
  `RingSelection.TopUpsAreSpendable` says exactly when, `RingSelection.YoungChainTopsUpWithGenesis`
  gives such a ring. No coinbase may be named on so young a chain, so its other outputs go back to a
  transaction without ring inputs (`RingAcceptance.YoungChainsNeedRinglessTxs`): one with a bundle that
  moves nothing and outputs of amount zero is accepted. `TwoBlockChains.YoungChainStands` builds such a
  chain, `TwoBlockChains.YoungRingIsRefused` a ring of the full size on it that the validator refuses.
- Pruning leaves the state `pop_block` reverses alone (noct/core/src/chain.rs:2531-2533) only within
  128 blocks of the highest height ever reached, a losing branch's own height included.
  `Pruning.ReorgStaysAlike`, `Pruning.ShallowRunsStayAlike`, `Pruning.PopOfPrunedTip`.
- "The pool should not get cheaper under pressure" (noct/core/src/mempool.rs:221-222), where fees are
  compared by the byte. `fee * 1000` saturates, so a fee above 2^64 / 1000 counts only up to there, and
  its transaction may be evicted by one that pays less for each byte. `Mempools.VictimsAreOutbid` proves
  the promise for every victim below that, `Mempools.HugeFeesRateTooLow` gives an instance above it.
- A snapshot holds maturities up to 101: beyond that the queue of waiting rewards can be written but
  is not read back. `Snapshots.LongQueueIsRefused`.

## Model

| member | source | states |
|---|---|---|
| `Chain.Blockchain.constructor` | noct/core/src/chain.rs:375-397 | A new chain is exactly the genesis ledger of its network, applied without the rules. |
| `Chain.Blockchain.AddBlock` | noct/core/src/chain.rs:520-701 | The loop-by-loop `add_block` gives the verdict of the rules; an accepted block leaves the prescribed state, a refused one leaves every field as it was. |
| `Chain.Blockchain.CheckTxAgainstChain` | noct/core/src/chain.rs:966-1023 | The walk over rings, images, anchor and nullifiers reports the first failing check in the order the rules name, and nothing exactly when all hold. |
| `Chain.Blockchain.ValidateTx` | noct/core/src/chain.rs:919-927 | The verdict on a lone transaction: chain checks first, then structure, proofs, signatures, balance and bundle. |
| `Chain.Blockchain.GatherTxs` | noct/core/src/chain.rs:572-613 | The pass over a block's transactions accumulates images, checked fees and the bundle batch, stopping at the first refusal. |
| `Chain.VerifyBatchable` | noct/core/src/tx.rs:728-869 | The structural rules with their hash-set scan and signature loop are the verdict of the specification, error by error. |
| `Chain.Verify` | noct/core/src/tx.rs:694-711 | The full check of a lone transaction: the batchable checks, then the bundle against the sighash they return. |
| `Chain.AllDistinct` | noct/core/src/tx.rs:728-860 | The image scan accepts exactly the lists without a repeat. |
| `Chain.Blockchain.PopBlock` | noct/core/src/chain.rs:745-770 | Draining outputs, index entries, images and the shielded state leaves the specified popped state and returns the tip; a chain without stored blocks is left alone. |
| `Chain.Blockchain.RollbackTo` | noct/core/src/chain.rs:777-788 | The loop removes exactly the blocks above the height, oldest first in its result, never genesis, and stops when no stored block is left. |
| `Chain.Blockchain.CountShared` | noct/core/src/chain.rs:845-862 | The prefix scan stops at the first branch block whose id is not ours at its own height. |
| `Chain.Blockchain.TryReorg` | noct/core/src/chain.rs:814-890 | The in-place reorganisation has the outcome, final state and clock reads of the value-level one. |
| `Chain.Blockchain.EnableBodyPruning` | noct/core/src/chain.rs:712-719 | Exactly the bodies deeper than 128 blocks go; nothing else changes. |
| `TxRules.ChainVerdictIff` | noct/core/src/chain.rs:966-1023 | The chain's lookups pass a transaction exactly if every ring has 16 members, each an output of the chain and no coinbase younger than the maturity, no image is spent, the anchor is known and no nullifier is spent. |
| `TxRules.ChainVerdictReports` | noct/core/src/chain.rs:966-1023 | A refusal names the first rule broken: rings in order with their first bad member, then images, anchor, first spent nullifier. |
| `TxRules.BatchableVerdictIff` | noct/core/src/tx.rs:728-869 | The checks that need no chain pass exactly the well-formed transactions whose range proof and ring signatures hold and whose sides differ by nothing in the group; the sighash comes with a bundle. |
| `TxRules.BatchableVerdictReports` | noct/core/src/tx.rs:728-869 | A refusal there names the first rule broken, and what would have been reported earlier is in order; `BadCross` is never given. |
| `TxRules.TxVerdictIff` | noct/core/src/chain.rs:919-927 | `validate_tx` passes exactly the transactions that meet both, with a bundle that verifies by itself. |
| `BlockRules.SeedHeightIs` | noct/core/src/pow.rs:59-65 | The seed height is the one multiple of 2048 that is 65 to 2112 below, and genesis up to height 2112. |
| `BlockRules.AcceptedIff` | noct/core/src/chain.rs:520-701 | `add_block` accepts exactly the blocks that name the tip and the next height, whose hash under the id at the seed height times the difficulty in force is below 2^256, in time, with their own bodies, acceptable transactions without a shared image, bundles that verify together, new outputs, and a reward of exactly subsidy and fees that fits the shielded pool. |
| `BlockRules.RefusalReports` | noct/core/src/chain.rs:520-701 | A refused block is refused for the first rule it breaks, in the program's order, down to the first transaction that does not fit. |
| `PoolRules.AppliesIff` | noct/core/src/shielded_state.rs:322-437 | The shielded half of a block applies exactly if the totals stay in range throughout, leaves are field elements and find room, anchors are known and nullifiers new and different; it then leaves exactly the stated tree, nullifiers, totals, queue and anchors. |
| `PoolRules.ApplyReports` | noct/core/src/shielded_state.rs:322-437 | A refusal names the first thing wrong: the reward, then the first bad note, then the first bundle that does not fit after those before it. |
| `Consensus.PopInvertsAdd` | noct/core/src/chain.rs:520-770 | `pop_block` gives back the state `add_block` was applied to, in every field, on a chain that keeps bodies. |
| `Consensus.GatherFacts` | noct/core/src/chain.rs:572-613 | An accepted transaction list passes every check, spends pairwise different images none of which was spent, and its fees add up. |
| `Consensus.AddedReward` | noct/core/src/chain.rs:637-689 | An accepted block claims exactly subsidy plus fees and its shielded half applied. |
| `Consensus.AddedTxs` | noct/core/src/chain.rs:566-635 | An accepted block's outputs are new to the chain and to each other. |
| `Consensus.ConsensusIsLawful` | noct/core/src/chain.rs:520-770 | These rules meet the four laws on which replay, rollback and reorganisation rest. |
| `Consensus.ConsensusImplements` | noct/core/src/chain.rs:520-770 | The rules the theory speaks of are those the class methods are proved against. |
| `Replay.ReplayInduction` | noct/core/src/chain.rs:520-701 | What genesis has and every accepted block keeps, every reachable chain has. |
| `Replay.AddKeepsGenuine` | noct/core/src/chain.rs:520-701 | A chain that is the replay of its blocks stays one when a block is accepted. |
| `Replay.PopKeepsGenuine` | noct/core/src/chain.rs:745-770 | Popping leaves the replay of the remaining blocks, to which the popped block applies again. |
| `Replay.RollbackFacts` | noct/core/src/chain.rs:777-788 | After a rollback the whole state is the replay of the surviving blocks, and the removed ones continue it. |
| `Replay.GenuineIsIdentified` | noct/core/src/chain.rs:409-412 | Ids are those of the stored blocks, whose bodies are the ones their hash lists name. |
| `Replay.BlocksDetermineState` | noct/core/src/chain.rs:520-770 | Two reachable chains with the same blocks agree in every field. |
| `ProvenChains.ReachableIsProven` | noct/core/src/chain.rs:520-701 | On every reachable chain each block above genesis names the one below, adds the difficulty in force as work, shows it by its hash under the id at its seed height, and carries every other proof: bodies, transactions, the batch of bundles and the reward, spends off and outputs on in a shielded one. |
| `ProvenChains.ReachableReadsOff` | noct/core/src/chain.rs:690-742 | On every reachable chain ids, times, outputs, marks, images and nullifiers are those of the blocks in order, and no image and no nullifier occurs twice. |
| `Reorg.AllOrNothing` | noct/core/src/chain.rs:814-890 | Any refusal leaves every field as it was; the restoring `expect` fires exactly when the branch loses and the clock no longer lets some discarded block in. |
| `Reorg.TryReorgDecides` | noct/core/src/chain.rs:845-890 | The whole outcome of an attempted branch: from the genuine chain of our blocks below the fork its blocks are added one by one, and the switch happens exactly if all are accepted and the end is heavier; otherwise the error is that of the first block refused, or `NotHeavier`, and the chain is what it was, unless the clock stops a block from being put back. |
| `Reorg.RefusedOutright` | noct/core/src/chain.rs:822-858 | Which branches are refused without an attempt, with which error, and that neither chain nor clock is touched: none at all, from genesis, beyond the tip, or nothing new. |
| `Reorg.ClockGoneBackPanics` | noct/core/src/chain.rs:876-884 | An instance of the panic: a refused one-block branch in place of the tip, and a clock back before the tip's time. |
| `Reorg.SwitchFacts` | noct/core/src/chain.rs:814-890 | A switch ends on a strictly heavier chain made of the kept blocks, genesis among them, and the branch; what it reports as discarded is what it dropped. |
| `Reorg.ReapplyIff` | noct/core/src/chain.rs:870-890 | Re-applying the discarded blocks gives back the old chain exactly when the clock lets all of them in. |
| `Reorg.AppliedBlocksFit` | noct/core/src/chain.rs:540-560 | Every block a branch got through was next in height, came with its own body and was in time. |
| `Runs.ReorgNeverPanics` | noct/core/src/chain.rs:814-890 | With a clock that never goes back the restoring `expect` cannot fire. |
| `Runs.RunsStayGenuine` | noct/core/src/chain.rs:520-890 | Any interleaving of blocks, rollbacks and reorganisations neither panics nor leaves a trace of what it dropped: the state is the replay of the surviving blocks. |
| `SharedPrefix.SkippingRefinesNaive` | noct/core/src/chain.rs:845-890 | Skipping the shared prefix ends like rolling back to the first block and applying everything, if and only if the branch is in sequence and its shared blocks carry their own bodies. |
| `SharedPrefix.SteadySkippingRefinesNaive` | noct/core/src/chain.rs:845-890 | The same on a node whose clock never goes back and has let in every block it holds, where only the new part of the branch has to be in time. |
| `BlockIdentity.IdsTellBlocksApart` | noct/core/src/block.rs:540-564 | Among well-formed blocks with their own bodies, equal ids of the hashing blob mean equal blocks, transactions included, or the hash function collides on bytes of theirs. |
| `BlockIdentity.SkippingRefinesNaiveOnIds` | noct/core/src/chain.rs:845-890 | With ids and transaction hashes computed by the hash function, skipping refines the naive reorganisation under the same condition, or chain and branch exhibit a collision. |
| `SharedPrefix.OnlyDifferingBlocksAreDiscarded` | noct/core/src/chain.rs:845-890 | When the naive reorganisation wins, the skipped stretch is ours block for block and only blocks from the first differing height go. |
| `SharedPrefix.SkippingIsMorePermissive` | noct/core/src/chain.rs:845-862 | A concrete branch that `try_reorg` accepts and the naive reorganisation refuses: a shared block given twice. |
| `Safety.EveryRunIsAReplay` | noct/core/src/chain.rs:520-890 | From genesis, under the program's own rules, every run ends, unpanicked, in the replay of its surviving blocks. |
| `Safety.ProofsAfterEveryRun` | noct/core/src/chain.rs:520-890 | After every run each block above genesis carries all its proofs, and its hash times the work credited for it is below 2^256. |
| `Safety.BlocksReadOffAfterEveryRun` | noct/core/src/chain.rs:520-890 | After every run the columns are those of the surviving blocks, and nothing was spent twice. |
| `Safety.SupplyAfterEveryRun` | noct/core/src/chain.rs:637-689 | After every run the emission counter is the supply of the pools and the emission curve iterated. |
| `Safety.ValueAfterEveryRun` | noct/core/src/chain.rs:564-689 | After every run each output was consumed at most once and the ring total is the sum of the amounts of the others. |
| `Safety.PoolAfterEveryRun` | noct/core/src/shielded_state.rs:322-468 | After every run tree, queue and anchors read off the surviving blocks, the anchors being exactly the last 100 roots. |
| `Safety.ColumnsAfterEveryRun` | noct/core/src/chain.rs:721-742 | After every run output heights rise, the membership index inverts the outputs, times pass the median and work grows. |
| `Safety.RunsConverge` | noct/core/src/chain.rs:520-890 | Two runs that end with the same blocks end in the same state, whatever they did on the way. |
| `Safety.PrunedRunsAreReplays` | noct/core/src/chain.rs:520-890 | With pruning on, every run that stays within 128 blocks of the highest height ends, unpanicked, in the replay of its surviving blocks minus old bodies. |
| `ShieldedPool.ShieldedState.ApplyBlock` | noct/core/src/shielded_state.rs:322-437 | The staged application gives the specified state and undo record, or an error and no change. |
| `ShieldedPool.ShieldedState.UndoBlock` | noct/core/src/shielded_state.rs:452-468 | Undo leaves the specified state, anchors restored whole and the queue re-joined. |
| `ShieldedPool.ShieldedState.CoinbaseDueAt` | noct/core/src/shielded_state.rs:262-271 | The take-while scan returns exactly the front entries that are due. |
| `ShieldedPool.ShieldedState.ListBlockCommitments` | noct/core/src/shielded_state.rs:287-297 | Due rewards oldest first, then each bundle's notes in order. |
| `ShieldedPool.UndoInvertsApply` | noct/core/src/shielded_state.rs:322-468 | Undoing an applied block gives back the state it applied to, anchor history included. |
| `NoteMaturity.PoolReadsOffChain` | noct/core/src/shielded_state.rs:262-429 | On every reachable chain the tree holds exactly the matured rewards and all notes in consensus order, the queue the younger rewards (at most max(1, maturity - 1)), the anchors the last min(100, n + 1) roots. |
| `NoteMaturity.RewardIsLeafIff` | noct/core/src/shielded_state.rs:262-271 | The reward of block h is in the tree after n blocks exactly when h + max(maturity, 2) <= n. |
| `NoteMaturity.AnchorsCommit` | noct/core/src/shielded_state.rs:411-429 | On every reachable chain the k-th accepted anchor is the root of the tree after a known height of the window, and that tree holds the reward of h exactly if it has seen max(maturity, 2) blocks from h on. |
| `NoteMaturity.RewardIsProvableIff` | noct/core/src/shielded_state.rs:411-429 | On every reachable chain some anchor the next block accepts commits to a tree holding the shielded reward of block h exactly when h + max(maturity, 2) blocks are there, and then the newest does. |
| `NoteMaturity.RewardsGoToOnePool` | noct/core/src/block.rs:240-272 | On every reachable chain the block behind a ring reward has no shielded one. |
| `TwoBlockChains.RewardsOfBothKinds` | noct/core/src/chain.rs:637-689 | Such a pair of chains exists: over sound signatures, range proofs and commitments, one genesis and two second blocks, one paying a shielded reward and one a ring output. |
| `NoteMaturity.OnlyMaturedRewardsAreProvable` | noct/core/src/shielded_state.rs:207-209 | Without a root collision, leaves whose root is an accepted anchor are the tree after a height of the window, and reach the reward's place exactly if it had matured by then. |
| `NoteMaturity.ShieldedAndRingRewardsMatureTogether` | noct/core/src/chain.rs:732-742 | Of two reachable chains of one maturity and length, block h paying a shielded reward on the first and a ring output on the second: for a maturity of 2 or more, some anchor the next block accepts on the first commits to a tree holding the note exactly when the next block on the second may spend the output, from block h + maturity on. No one chain has both. |
| `Pools.PoolTotals.ApplyCross` | noct/core/src/pools.rs:134-157 | A crossing succeeds exactly when both totals stay in range, then moves the amount; a refusal restores both. |
| `Pools.PoolTotals.Mint` | noct/core/src/pools.rs:116-123 | Minting succeeds exactly without overflow and adds to one pool. |
| `Pools.PoolTotals.Take` | noct/core/src/pools.rs:160-167 | Taking succeeds exactly when the pool holds the amount and takes it from that pool. |
| `Pools.CrossingIsConservative` | noct/core/src/pools.rs:134-157 | A crossing changes neither the sum of the pools nor anything but the two totals. |
| `Supply.EmittedIsSupply` | noct/core/src/chain.rs:637-684 | On every reachable chain `emitted` is ring plus shielded total, capped at 2^64 - 1, and is the emission curve after that many blocks. |
| `Supply.SupplyIsExact` | noct/core/src/chain.rs:637-684 | Up to height 581,558,135 nothing saturates and the supply is at most MONEY_SUPPLY plus one tail reward per block. |
| `Supply.ApplyMovesTotals` | noct/core/src/shielded_state.rs:350-409 | A block moves each pool by its credits and crossings as exact integers. |
| `Emission.SupplyBound` | noct/core/src/emission.rs:40-43 | After h blocks the supply is at most MONEY_SUPPLY + h * TAIL_EMISSION and at least h tail rewards above the start. |
| `Emission.RewardIs` | noct/core/src/emission.rs:40-43 | The reward is the 2^20-th part of what is left of 10^18, rounded down, as long as that is at least the tail of 3 * 10^10, and then the tail. |
| `Emission.RewardNeverRises` | noct/core/src/emission.rs:40-43 | More emitted never means a larger reward. |
| `Emission.NothingSaturates` | noct/core/src/emission.rs:40-43 | Below the stated height each reward is added in full. |
| `Emission.SmoothPhaseStaysBelowSupply` | noct/core/src/emission.rs:40-43 | No smooth-phase reward takes emission past MONEY_SUPPLY. |
| `Emission.SmoothPhaseEnds` | noct/core/src/emission.rs:40-43 | The smooth phase is over after 33,333,333 blocks wherever it starts. |
| `Conservation.ValueIsConserved` | noct/core/src/chain.rs:564-689 | On every reachable chain no output is consumed twice and the turnstile's ring total is the integer sum of the hidden amounts not consumed. |
| `Conservation.AcceptedTxConserves` | noct/core/src/tx.rs:728-860 | An accepted transaction balances in the integers: inputs equal outputs, fee and crossing. |
| `Conservation.BalanceLifts` | noct/core/src/tx.rs:1213-1233 | The equation modulo the group order is an equation of integers for any number of inputs a list can hold and 16 range-proved outputs, either sign of crossing. |
| `Conservation.RewardBooks` | noct/core/src/block.rs:240-290 | What the turnstile books for a block is what its coinbase pays, for ring and shielded rewards. |
| `Conservation.RingBooksBalance` | noct/core/src/chain.rs:564-689 | Outputs created minus outputs consumed is what the turnstile books for the block. |
| `MedianTime.MedianIs` | noct/core/src/chain.rs:505-513 | The median is the least value that more than half of the newest eleven timestamps, or of all, do not exceed. |
| `MedianTime.MedianNeverFalls` | noct/core/src/chain.rs:505-513 | Accepting a block never lowers the median, in a growing or a full window. |
| `MedianTime.MedianRisesWithinSix` | noct/core/src/chain.rs:505-513 | Any six accepted blocks move the median strictly forward. |
| `ChainTime.MedianAdvances` | noct/core/src/chain.rs:505-544 | Both statements hold on every reachable chain. |
| `Difficulty.CheckHash` | noct/core/src/pow.rs:120-135 | The four-word carry loop accepts exactly when hash * difficulty < 2^256, without 128-bit overflow. |
| `Difficulty.HarderIsStricter` | noct/core/src/pow.rs:120-135 | A hash that meets a difficulty meets every lower one. |
| `Difficulty.StepIsBounded` | noct/core/src/pow.rs:162-201 | On strictly increasing work the next difficulty is within a factor of two of the last, but for the cap and the floor. |
| `Difficulty.NoUnderflow` | noct/core/src/pow.rs:162-201 | No subtraction wraps and every index is in range. |
| `Difficulty.LagIgnoresTip` | noct/core/src/pow.rs:162-201 | The newest 15 timestamps never matter once more than 16 blocks exist. |
| `Difficulty.TrimBoundsOutliers` | noct/core/src/pow.rs:162-201 | Replacing k <= 60 timestamps of a full window moves the time span only between order statistics of the original. |
| `Retarget.NextIsPaced` | noct/core/src/pow.rs:162-201 | The next difficulty is the share of 120 seconds in the work and time of the kept samples, rounded down, held between half and twice the last; of the newest 720 blocks but 15, the sorted times lose as many at either end as leave 600. |
| `Retarget.EvenPaceSetsDifficulty` | noct/core/src/pow.rs:162-201 | Blocks of difficulty d one every t seconds give d * 120 / t, held between d / 2 and 2 * d. |
| `Retarget.OnTargetIsStable` | noct/core/src/pow.rs:162-201 | So blocks exactly on target leave the difficulty where it is. |
| `Retarget.ShorterSpanIsHarder` | noct/core/src/pow.rs:162-201 | On the same work, times whose kept samples span less never give a lower difficulty. |
| `Retarget.ForgersMoveLittle` | noct/core/src/pow.rs:162-201 | Whoever forges k <= 60 timestamps of a full window moves the next difficulty only between its values for two order-statistic spans of the honest one. |
| `OrderStatistics.RanksMoveByDifferences` | noct/core/src/pow.rs:170-190 | Changing d elements moves every order statistic by at most d ranks. |
| `ChainTime.RetargetIsSafe` | noct/core/src/chain.rs:488-491 | On every reachable chain no subtraction of the retarget wraps, its indexes are in range, work fits 128 bits, and the step is bounded. |
| `ChainTime.RetargetIsPaced` | noct/core/src/chain.rs:488-491 | On every reachable chain the required difficulty is the pace of the chain's own kept samples. |
| `ChainTime.TimeAndWorkHold` | noct/core/src/chain.rs:540-544 | On every reachable chain each block is later than the median before it and adds between 1 and 2^64 - 1 work. |
| `Pruning.ShallowRunsStayAlike` | noct/core/src/chain.rs:690-890 | Through every run of `add_block`, `rollback_to` and `try_reorg` that takes off nothing more than 128 below the highest height reached, a pruning chain panics or not as the keeping one and is that chain minus old bodies. |
| `Pruning.ReorgStaysAlike` | noct/core/src/chain.rs:814-890 | Within that window `try_reorg` on the pruning chain gives the same answer after the same clock readings, won or lost. |
| `Pruning.RollbackStaysAlike` | noct/core/src/chain.rs:777-788 | Within that window `rollback_to` removes the same blocks, bodies and all. |
| `Pruning.EnablingStartsAlike` | noct/core/src/chain.rs:712-719 | Enabling pruning drops exactly the bodies a pruning chain of that length has dropped. |
| `SideBySide.RunsStayAlike` | noct/core/src/chain.rs:520-890 | Any relation that single blocks keep, and single undos above a floor, is kept by whole runs that stay above it, with the same outcomes. |
| `SideBySide.ReorgStaysAlike` | noct/core/src/chain.rs:814-890 | The same for one reorganisation, whatever comes of it. |
| `Pruning.PopOfPrunedTip` | noct/core/src/chain.rs:745-770 | Undoing a block whose body was dropped is exact if and only if the block spent nothing; otherwise its images stay spent. |
| `Snapshots.PoolRoundTrip` | noct/core/src/shielded_state.rs:497-620 | A shielded state within the counts decodes from its encoding to itself. |
| `PoolSnapshots.ToBytes` | noct/core/src/shielded_state.rs:497-540 | The writing loops, nullifiers sorted, write the specified bytes. |
| `PoolSnapshots.PoolWritten` | noct/core/src/shielded_state.rs:497-540 | Those bytes are what the round-trip format writes. |
| `PoolSnapshots.FromBytes` | noct/core/src/shielded_state.rs:546-620 | The field-by-field reader gives the state the format gives, and nothing exactly where it gives nothing: bad node, bound, root or trailing byte. |
| `Snapshots.LongQueueIsRefused` | noct/core/src/shielded_state.rs:594-600 | A queue of more than 100 rewards is written but never read back. |
| `Snapshots.StateRoundTrip` | noct/core/src/chain.rs:1335-1430 | A chain state decodes from its encoding to itself. |
| `Snapshots.FlagIsNotCanonical` | noct/core/src/chain.rs:1400-1406 | The coinbase flag has more than one encoding, so decoding is not injective. |
| `Snapshots.SortedIsUnique` | noct/core/src/chain.rs:1445-1453 | Sorting images and nullifiers makes the encoding a function of the chain. |
| `Snapshots.ProgramCodecRoundTrips` | noct/core/src/chain.rs:1335-1430 | The program's two encodings meet the round-trip premise of the restart theorems. |
| `SnapshotMethods.EncodeState` | noct/core/src/chain.rs:1335-1362 | The loops of `encode` write the specified bytes. |
| `SnapshotMethods.StateWritten` | noct/core/src/chain.rs:1335-1362 | Those bytes are what the round-trip format writes. |
| `StateReaders.DecodeState` | noct/core/src/chain.rs:1368-1429 | The decoder, which takes each list as one block of fixed-width records and cuts it up, reads what the format reads, refusals included. |
| `SnapshotMethods.RestoreChain` | noct/core/src/chain.rs:1471-1517 | `from_state` returns nothing exactly when the state is refused, otherwise a fresh chain in the restored state. |
| `SnapshotRules.FromStateIff` | noct/core/src/chain.rs:1471-1517 | A state is restored exactly if it is of the expected genesis, has an entry for every output, repeats no output and no image, and its shielded half decodes; the chain then has its columns, the index that inverts the outputs, and no history. |
| `SnapshotRules.PoolFromBytesIff` | noct/core/src/shielded_state.rs:546-620 | Bytes decode to a shielded state exactly if they write fields that spell it: version 1, at most 32 ommers and 100 anchors and queued rewards, nodes that are field elements, and the newest anchor the root of the tree. |
| `SnapshotRules.OtherVersionsAreRefused` | noct/core/src/chain.rs:1368-1382 | A chain state of any other version than 1 is refused. |
| `RestoredChains.NullifiersWithinTree` | noct/core/src/shielded_state.rs:350-409 | A reachable chain never has more nullifiers than leaves, so their 4-byte count suffices while the tree is not full. |
| `RestoredChains.RestartSucceeds` | noct/core/src/chain.rs:1335-1517 | On every reachable chain with maturity up to 101, restarting from the encoded snapshot gives the chain with only its history forgotten. |
| `RestoredChains.RestartedChainFollows` | noct/core/src/chain.rs:1335-1517 | The restarted chain gives the same answer to every later sequence of blocks and leaves the same snapshot. |
| `RestoredReorgs.RestoredAllOrNothing` | noct/core/src/chain.rs:814-890 | Whatever the branch, a refusal leaves every field of a restored chain as it was; a reorganisation that takes off nothing from before the snapshot has the original's outcome, and one that would never switches and panics only if the clock has gone back behind a block put back. |
| `RestoredReorgs.ForkBelowIsRefused` | noct/core/src/chain.rs:777-890 | A fork from before the snapshot: all stored blocks come off, the first branch block does not fit, and they go back on. |
| `RestoredReorgs.RestoredRunsFollow` | noct/core/src/chain.rs:520-890 | Through every run that stays above the snapshot the restored chain does not panic and is the original, a replay of its blocks, without the forgotten history. |
| `Restart.ForwardIndistinguishable` | noct/core/src/chain.rs:520-701 | Validation reads nothing of a chain but the fields a snapshot keeps. |
| `RingSelection.PartitionPointByHeight` | noct/core/src/chain.rs:1074-1084 | Binary search over rising heights splits the outputs exactly where the test turns false. |
| `RingSelection.RecencyPick` | noct/core/src/chain.rs:1108-1162 | The pick lands in the first block at or after the sampled height that has outputs, on the output the draw counts to there, or on the last output; past the age of the chain it is the draw modulo the number of outputs. |
| `RingSelection.AssembleRing` | noct/core/src/chain.rs:1166-1246 | The loops compute the specified ring; it has exactly the asked size, distinct outputs, the real one at the place drawn, the others spendable and in ascending order; `None` comes exactly for a bad size, a missing output or too few spendable outputs. |
| `RingDraws.ChosenIs` | noct/core/src/chain.rs:1213-1230 | The outputs chosen are what had been let in when there were enough of them, after the first such round of the tape. |
| `RingDraws.LetInIs` | noct/core/src/chain.rs:1213-1230 | After k rounds these are the real output, the spendable picks so far, and one top-up for each round past 100 a member. |
| `RingDraws.SignerGoesWhereDrawn` | noct/core/src/chain.rs:1232-1246 | With the rest of the tape fixed, the last draw modulo the size is the place of the real output, and the outputs of the ring do not depend on it. |
| `RingDraws.EveryPlaceIsDrawn` | noct/core/src/chain.rs:1232-1246 | So every place is taken for some draw. |
| `RingSelection.CountIsSpendable` | noct/core/src/chain.rs:1180-1212 | Prefix plus suffix count is the number of spendable outputs. |
| `RingSelection.TopUpsAreSpendable` | noct/core/src/chain.rs:1166-1246 | Some tape of draws yields a ring with a decoy the validator refuses if and only if at least two members are asked for, enough outputs count as spendable, the tip is below the maturity and a coinbase other than the output spent counts as mature. |
| `RingSelection.YoungChainTopsUpWithGenesis` | noct/core/src/chain.rs:1213-1246 | A ring of two that consists of the real output and the immature genesis coinbase, on the output columns of a two-block chain with maturity 10, with the draws that produce it. |
| `RingAcceptance.ColumnsHold` | noct/core/src/chain.rs:721-730 | Non-decreasing output heights and an exact membership index hold on every reachable chain. |
| `RingAcceptance.AssembledRingsAreAccepted` | noct/core/src/chain.rs:981-1000 | An assembled ring of the required size passes the size, membership and maturity checks exactly when the real output is spendable. |
| `RingAcceptance.AssembledRingPassesIff` | noct/core/src/chain.rs:981-1000 | On any chain, young ones included, an assembled ring is refused, as immature, exactly when the real output or one of the decoys may not be spent yet. |
| `RingAcceptance.YoungChainsNeedRinglessTxs` | noct/core/src/chain.rs:981-1000 | Up to the maturity, a reachable chain whose transactions all have ring inputs has no transaction and no output that is not a coinbase. |
| `TwoBlockChains.YoungChainStands` | noct/core/src/chain.rs:520-701 | A reachable chain of two blocks with maturity 10 whose output columns are the genesis coinbase and up to 16 outputs of a transaction without ring inputs, over sound signatures, range proofs and commitments. |
| `TwoBlockChains.YoungRingIsRefused` | noct/core/src/chain.rs:1166-1246 | On it, with 15 such outputs, some draws give a ring of the required size for a spendable output that the validator refuses as immature. |
| `Mempools.Mempool.Add` | noct/core/src/mempool.rs:150-244 | Admission gives exactly the specified verdict; an error changes nothing; success inserts the newcomer and removes one lawful set of victims, each outbid by the byte. |
| `Mempools.Mempool.MakeRoom` | noct/core/src/mempool.rs:199-236 | Room is found exactly when evicting all transactions of a strictly lower rate would make it; the victims are a minimal cheapest-first prefix, each outbid by the byte. |
| `Mempools.RateIsPerByte` | noct/core/src/mempool.rs:43-45 | The rate is the thousandfold fee, as far as 64 bits hold it, divided by the size, rounded down. |
| `Mempools.RateOrders` | noct/core/src/mempool.rs:43-45 | More bytes at the same fee never rate higher, a larger fee for the same bytes never lower. |
| `Mempools.VictimsAreOutbid` | noct/core/src/mempool.rs:205-231 | Every transaction evicted pays less for each byte than the newcomer, if its fee is one the rate counts in full. |
| `Mempools.HugeFeesRateTooLow` | noct/core/src/mempool.rs:43-45 | An instance with a fee that is not: 90 times as much for each byte, and a lower rate. |
| `PoolAdmission.AdmittedIff` | noct/core/src/mempool.rs:150-244 | A transaction is admitted exactly if it is new, shares no image with the pool, pays the floor, is valid on the chain, and fits within 32 MiB without some that rate strictly lower. |
| `PoolAdmission.RefusalReports` | noct/core/src/mempool.rs:150-244 | A refusal names the first of these that fails, and for an invalid transaction the rule it breaks. |
| `Mempools.Mempool.ByRate` | noct/core/src/mempool.rs:202-209 | The victims list holds every pooled transaction once, with its rate, in rising order. |
| `Mempools.Mempool.Remove` | noct/core/src/mempool.rs:272-284 | Removal takes one transaction out of all four fields. |
| `Mempools.Mempool.OnBlock` | noct/core/src/mempool.rs:256-270 | Exactly the transactions sharing an image with the block go. |
| `Mempools.Mempool.Retain` | noct/core/src/mempool.rs:300-310 | Exactly the transactions failing the test go. |
| `Mempools.NoRoomWhateverGoes` | noct/core/src/mempool.rs:199-231 | `PoolFull` means that no choice of strictly cheaper transactions makes room. |
| `Mempools.ImagesAreDisjoint` | noct/core/src/mempool.rs:118-128 | No image belongs to two pooled transactions. |
| `Mempools.MinFeeRoundsUp` | noct/core/src/mempool.rs:106-108 | The floor is the rate times the size rounded up, until the product saturates. |
| `Mempools.PrefixEvicts` | noct/core/src/mempool.rs:211-227 | A prefix that just makes room pays strictly less than the newcomer and no more than anything kept. |
| `Builder.Build` | noct/core/src/tx.rs:425-592 | The builder, with its sums, subaddress scan, output loops, bundle check and signing, returns the specified transaction or error. |
| `Builder.BuiltIff` | noct/core/src/tx.rs:425-592 | A transaction is built exactly if there is something on both sides or a bundle, the amounts add up, the outputs prove, the bundle comes and states the crossing, and the rings sign. |
| `Builder.BuiltCarries` | noct/core/src/tx.rs:425-592 | It carries an output for each payment under its index, a key of its own for each subaddress as soon as there is one, and ring and image of each spend. |
| `Builder.BuiltIsBatchableIff` | noct/core/src/tx.rs:425-592 | A built transaction passes every check but the bundle's own proof if and only if the images of the spends are distinct and there is a spend or the masks of the outputs to be made sum to zero. |
| `Builder.BuiltVerifiesIff` | noct/core/src/tx.rs:425-711 | A built transaction passes `verify` if and only if, besides, the bundle that was authorised stands for the sighash it was asked to authorise. |
| `Builder.BuiltThenRefused` | noct/core/src/tx.rs:411-418 | An instance: one payment out of the shielded pool with nothing spent from rings is built and then refused as unbalanced, unless its mask is zero. |
| `Builder.BalanceCarriesOver` | noct/core/src/tx.rs:456-466 | Integer balance at building is commitment balance at verifying. |
| `Wire.TransactionExact` | noct/core/src/wire.rs:252-321 | The transaction format reads back what it writes with the unread suffix intact, and whatever it reads is the writing of the value read. |
| `Wire.BundleExact` | noct/core/src/shielded.rs:433-508 | The same for bundles, whose proof length is derived and never read. |
| `Wire.CoinbaseExact` | noct/core/src/wire.rs:359-385 | The same for coinbases: only an empty output list is followed by a bundle tag. |
| `WellFormed.TransactionFits` | noct/core/src/wire.rs:252-321 | The format is for exactly the well-formed transactions: version 1 without crossing or bundle, a proof iff there are outputs, counts in bounds, canonical points. |
| `WellFormed.CoinbaseFits` | noct/core/src/wire.rs:359-385 | Likewise for coinbases: a ring coinbase has no bundle. |
| `WellFormed.TransactionsDecodeExactly` | noct/core/src/wire.rs:332-339 | Bytes decode to a transaction if and only if it is well-formed and they are what `to_bytes` writes for it. |
| `WellFormed.TransactionsReadBack` | noct/core/src/wire.rs:252-321 | Inside a larger buffer a transaction reads back and leaves the rest untouched. |
| `WellFormed.BlocksDecodeExactly` | noct/core/src/wire.rs:408-415 | Bytes decode to a block if and only if it is well-formed and they are its encoding. |
| `WellFormed.EveryBundleFitsTheCap` | noct/core/src/shielded.rs:353-355 | The length cap refuses no bundle as long as a proof over fewer actions is no longer. |
| `Messages.MessagesDecodeExactly` | noct/core/src/wire.rs:519-561 | Bytes decode to a gossip message if and only if it is well-formed (IPv6 flow and scope zero) and they are its encoding. |
| `Messages.EncodeMessage` | noct/core/src/wire.rs:467-516 | The encoder writes those bytes, tag by tag. |
| `Messages.MessageExact` | noct/core/src/wire.rs:519-561 | The message format is exact in both directions. |
| `Encoders.ToBytes` | noct/core/src/tx.rs:622-666 | The hashing encoder, loop by loop, writes the transaction's bytes. |
| `Encoders.EncodeTransaction` | noct/core/src/wire.rs:219-329 | The wire module's own writers write the bytes of `to_bytes`, for every transaction. |
| `Encoders.PutTransactionAppends` | noct/core/src/wire.rs:219-250 | `write_transaction_into` appends to any buffer what `to_bytes` writes. |
| `Encoders.PutInputAppends` | noct/core/src/wire.rs:197-202 | `write_input`, the ring through `write_vec` and `write_ring_member`, appends what `to_bytes` writes for the input. |
| `Encoders.PutOutputAppends` | noct/core/src/wire.rs:211-215 | `write_output` appends what `to_bytes` writes for the output. |
| `Encoders.TransactionWritten` | noct/core/src/wire.rs:219-250 | Those bytes are what the format writes, well-formed or not. |
| `Encoders.BundleToBytes` | noct/core/src/shielded.rs:400-425 | The bundle encoder, loop by loop. |
| `Encoders.CoinbaseToBytes` | noct/core/src/block.rs:307-329 | The coinbase encoder, loop by loop. |
| `Encoders.BlockWritten` | noct/core/src/wire.rs:394-398 | The block encoder agrees with the format. |
| `Encoders.WriteVec` | noct/core/src/wire.rs:163-171 | A 4-byte count, then the item writer applied to the growing buffer, item by item. |
| `Readers.Cursor.Vec` | noct/core/src/wire.rs:148-161 | The bounded vector reader on a cursor reads what the counted format reads, refusing the count before any item. |
| `Readers.Cursor.Items` | noct/core/src/wire.rs:156-160 | The item loop stops at the first item that does not read, with its error. |
| `WireReaders.ReadTransaction` | noct/core/src/wire.rs:252-321 | The field-by-field reader reads what the exact format reads, error by error. |
| `WireReaders.DecodeTransaction` | noct/core/src/wire.rs:332-339 | The whole-buffer decoder is the format's, trailing bytes refused. |
| `WireReaders.ReadInput` | noct/core/src/wire.rs:186-195 | The same for inputs, whose ring tells the length of the signature. |
| `WireReaders.ReadRing` | noct/core/src/wire.rs:148-180 | The bounded ring, member by member with the member reader, is what the format reads. |
| `WireReaders.ReadAction` | noct/core/src/shielded.rs:447-480 | An action of a bundle, field by field and checked as a whole, is what the format reads. |
| `WireReaders.ReadCoinbase` | noct/core/src/wire.rs:359-385 | The same for coinbases. |
| `WireReaders.DecodeBlock` | noct/core/src/wire.rs:343-415 | The same for blocks. |
| `WireReaders.DecodeBundle` | noct/core/src/shielded.rs:433-508 | The same for bundles, error kinds aside. |
| `WireReaders.DecodeMessage` | noct/core/src/wire.rs:519-561 | The same for gossip messages, tag by tag. |
| `Merkle.MerkleRoot` | noct/core/src/block.rs:417-440 | The layered loop computes the recursive root, odd nodes promoted. |
| `Merkle.RootIsTreeHash` | noct/core/src/block.rs:417-440 | The root is that of the tree by halves: the left half is the largest power of two below the number of leaves (section 2.1 of RFC 6962, without its prefixes). |
| `Merkle.SplitIs` | noct/core/src/block.rs:417-440 | That size is the one power of two below the number of leaves and at least half of it. |
| `Merkle.RootBinds` | noct/core/src/block.rs:417-440 | Two leaf lists of one length with one root are equal, or their trees contain a hash collision. |
| `Merkle.BlockIdBinds` | noct/core/src/block.rs:538-564 | A block id determines header, coinbase and transaction hashes, or a collision is at hand. |
| `Merkle.BlobIs` | noct/core/src/block.rs:545-559 | The hashing blob has 82 bytes: versions, time, parent and nonce, the tree root over the coinbase hash and the transaction hashes, and their number. |
| `Merkle.BlockIdBindsContents` | noct/core/src/block.rs:538-564 | With the transactions behind the hashes, it determines everything the block carries. |
| `Merkle.RootAloneDoesNotBind` | noct/core/src/block.rs:547-553 | Without the leaf count it would not: hashing the first pair in advance gives the same root. |
| `Merkle.CommentedShapeNeedsACollision` | noct/core/src/block.rs:547-553 | The other shape named in the comment there is not one the code produces. |
| `BlockLog.LoadAll` | noct/node/src/store.rs:100-145 | The frame loop returns every complete frame in order, drops a torn last one, and errs on anything else. |
| `BlockLog.AnyPrefixLoads` | noct/node/src/store.rs:100-145 | Any byte-prefix of a log loads as exactly the blocks whose frames lie wholly inside it. |
| `BlockLog.Reader.ExtendIndex` | noct/node/src/store.rs:179-204 | The scan pushes the starts of all complete frames from where it left off, and on a corrupt length errs without advancing. |
| `BlockLog.Reader.ReadAt` | noct/node/src/store.rs:206-234 | A read extends the index only for an unknown height and answers from the indexed frame. |
| `BlockLog.LazyIndexIsExact` | noct/node/src/store.rs:179-234 | Through any interleaving of reads and growth, half-written frames included, every read answers as a full scan at that moment. |
| `BlockLog.StaysInStepIff` | noct/node/src/store.rs:179-204 | The index leaves step exactly when an extension meets a corrupt length after new complete frames. |
| `BlockLog.CorruptionRepeatsFrames` | noct/node/src/store.rs:179-234 | Then two failing reads duplicate the index and the height after the last is answered with the first block. |
| `BlockLog.BlocksAreStorable` | noct/node/src/store.rs:52-57 | Every well-formed block within the frame cap survives the log. |
| `Gossip.Network.Run` | noct/core/src/p2p.rs:311-325 | Delivery ends whatever the coins, by unseen (node, id) pairs and then queue length, in the specified final state; the statistics are the number of deliveries and the largest fan-out of one. |
| `Gossip.ReceiveMarks` | noct/core/src/p2p.rs:181-197 | A node answers only to an id it had not seen, marks exactly that id, and sends only to its links. |
| `Gossip.ReceiveAnswers` | noct/core/src/p2p.rs:165-248 | What one delivery does: an unseen block the chain takes becomes its tip and goes to every peer; an unseen valid transaction goes to the stem successor or fluffs to every peer; nothing else is sent or changes the chain. |
| `Gossip.RelaysOnce` | noct/core/src/p2p.rs:165-248 | No node relays an id it had seen before, and none relays one twice. |
| `Gossip.FloodReachesExactlyTheReachable` | noct/core/src/p2p.rs:204-248 | When all nodes hold one chain, a fresh accepted block or fluffed transaction is seen by exactly the nodes reachable from its origin. |
| `Gossip.FloodIsAdoptedByExactlyTheReachable` | noct/core/src/p2p.rs:204-248 | When the flood is over, exactly the reachable nodes hold the chain with the block added, all others the old one; a transaction has changed no chain. |
| `Gossip.SettleKeeps` | noct/core/src/p2p.rs:311-325 | Whatever accepted blocks keep, every node's chain has when the network is silent again. |
| `BlockRelay.BlockReachesExactlyTheReachable` | noct/core/src/p2p.rs:229-248 | Under this chain's rules: a block that fits the chain all nodes hold ends up as the same extended chain on exactly the nodes reachable from its origin. |
| `BlockRelay.NodesStayGenuine` | noct/core/src/p2p.rs:229-325 | Whatever travels in whatever order, every node's chain stays the replay of its own blocks. |
| `BlockRelay.OnlyWhatFitsIsRelayed` | noct/core/src/p2p.rs:181-248 | A node sends on a transaction or a block only if it meets every rule on the node's chain, and a block only with that chain extended. |
| `Gossip.FluffedTransactionReachesAll` | noct/core/src/p2p.rs:146-158 | The same for `originate` with every coin on fluff. |
| `Gossip.StemMayLoseATransaction` | noct/core/src/p2p.rs:201-213 | With mixed coins it fails: a three-node line where two stem hops lose the transaction. |

## Left out

- CLSAG, Bulletproofs+, Halo 2, RedPallas, curve, Keccak and RandomX internals: oracles. A commitment is held by its two coordinates modulo the group order, so an opening is a function of the encoding; that nobody can open a commitment otherwise is the usual binding assumption.
- Randomness: draws, coins and the gamma sample are arbitrary inputs, so statistical shape and almost-sure termination are not modelled.
- The clock: each reading is an input; `add_block` sees only whether a timestamp is in time.
- Floating point, TCP, HTTP, threads, files and time-outs; the file behind the log is its byte string, and replacing it (`rewrite`) is not modelled.
- Appending after a torn frame, which the shown code does not repair.
- The node crate's reorg driver and `MAX_REORG_DEPTH`, the miner, wallet scanning, addresses, stealth keys, and everything under desktop, web, pool and swap.
- `select_ring_uniform`, `Mempool::select`, getters and network constants: easy members only.
- The incremental form of the note tree: a foreign library keeps only its right edge; here a tree is its leaves, and that the library rebuilds a tree from its own parts is a premise of the restart theorems.
- Error kinds inside a bundle: the wire maps all of them to one error, and so does the format.
- Readers.Cursor.Vec: takes its item reader as a format, and is used for vectors of single fields; vectors of objects have their own loops in `WireReaders`, over the objects' readers.
- RestoredReorgs.RestoredRunsFollow: runs that go below the restore point are treated one step at a time: a reorganisation in `RestoredReorgs.RestoredAllOrNothing`, a rollback, which stops there, in `RestoredReorgs.RollbackStopsAtSnapshot`.
- Pruning.ShallowRunsStayAlike: beyond the window only the first undone body is treated, in `Pruning.PopOfPrunedTip`.
- Gossip.Network.Run: nodes are values in one sequence, and their mempools are left out, since nothing a node sends depends on them; the chain's verdicts come in as functions, this chain's own in `BlockRelay`.
- Conservation.ValueIsConserved: a transaction is taken to have fewer than 2^64 inputs, as any list in memory has; `add_block` itself states no bound.
- RestoredChains.RestartSucceeds: counts of outputs, images and encoded bytes are taken to be below 2^64 and the note tree not to be full, since a full tree could hold 2^32 nullifiers.
- RestoredChains.RestartedChainFollows: stated for any encodings that round-trip; `Snapshots.ProgramCodecRoundTrips` supplies the program's.
- SharedPrefix.SkippingRefinesNaive: the branch's timestamps are taken to be in time at every reading from the call on since the two procedures read the clock a different number of times; `SharedPrefix.SteadySkippingRefinesNaive` asks it of the new part only, of a node in service.
- Mempools.VictimsAreOutbid: fees above 2^64 / 1000 are left out of the comparison by the byte, because for them it is false (`Mempools.HugeFeesRateTooLow`); by the fee as counted it holds for all (`Mempools.LowerRatePaysLess`).
- RingSelection.AssembleRing: partial correctness over a tape; `OutOfDraws` means that the first 100 draws per ring member offered too few distinct spendable outputs.
- SnapshotMethods.RestoreChain: takes the three header columns to be of one length, as every decoded or captured state has them.
- Consensus.PopInvertsAdd: chains that prune bodies are treated in `Pruning`, chains restored from a snapshot in `RestoredChains` and `RestoredReorgs`; the laws of `Replay` are for chains grown from genesis that keep bodies.
- StateReaders.DecodeState: a buffer is taken to be shorter than 2^64 bytes, as any slice is.
- BlockIdentity.SkippingRefinesNaiveOnIds: the blocks compared are taken to be well-formed, as every decoded block is.
- Cumulative work is an unbounded number; `ChainTime.RetargetIsSafe` shows that 128 bits hold it.
