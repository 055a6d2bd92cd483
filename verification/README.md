# Verified model of the Xian ABCI node's consensus core

The Xian node is a CometBFT application: it hashes its whole contract state into an app
hash, finalizes and commits blocks, filters proposals, frames messages on a socket, and
around that keeps a mempool nonce table, rewards, a validator set, snapshots and logs.
This project models the parts whose correctness only shows over all inputs or over whole
runs, and proves the properties they are there for.

Code that changes things step by step is modelled as classes and methods with loops
(`TreapNodes.TreapNode`, `RootCache.StateRootCache`, `XianNode.Xian`,
`Nonces.NonceStorage`, `Framing.Connection`, `Publication.Directories`,
`LogRetention.BoundedLogSink`, …).  Each method is proved against a function or relation on
values, and the theorems are about those.  SHA-256, UTF-8, JSON, signatures, contract
execution, clocks and file-system failures are function-valued parameters or explicit
outcomes.

Reading order: `Treap` → `History` → `TreapNode` → `StateRootCache` → `StateRootHashing` →
`RootCoverage` for the state root; `Lifecycle` → `CrashSafety` → `NodeSafety`, `FailedFinalize` and
`XianNode` for finalize, commit and crash; `Proposals` → `ProposalCoherence` → `Replay`, and `Nonces`, for
transactions; the other files stand alone or in pairs (`Rewards`/`RewardSplit`/`RewardPayees`,
`Publication`/`SnapshotRestore`, `SnapshotTransfer`/`StateSyncCache`).

`dafny verify dfyconfig.toml` checks the whole project.

## Main theorems

* **Root coverage** (`RootCoverage.RootCoversConsensus`): two databases have the same root if
  and only if they agree on contract variables, nonces and execution policy.
* **History independence** (`History.HistoryIndependence`): any inserts, updates and
  deletes leave the tree determined by the final dictionary alone, whenever two keys of
  equal priority always have a lighter key between them. The condition is exact:
  `History.TiesRevealHistory` gives two histories with different trees for every
  dictionary that breaks it. Distinct priorities satisfy it.
* **Cache refinement** (`RootCache.RunRefines`): every run of prepare, commit and rollback,
  including prepares that raise midway, is a run of a plain pair of dictionaries, and the
  root is the one recomputed from the current dictionary.
* **Crash consistency** (`CrashSafety.CrashConsistency`): every ABCI-ordered run with
  crashes (also inside Commit), restarts, failed and retried commits and failing mirror
  writes is a run of an ideal node; the marker on disk carries the root of the state on
  disk and Info reports it whatever the JSON mirror says.
  `NodeSafety.NodeCrashConsistency` states it for the node's own hashing and marker key.
* **Proposal coherence** (`ProposalCoherence.ProposalCoherent`, `ProcessAcceptsValid`) and
  **replay safety** (`Replay.ReplaySafety`, `Replay.ExecutedOnce`).
* **Chunking independence** (`Framing.ServeConnection`).
* **Import walk** (`ImportGraph.PreparationExact`, `ImportGraph.VerdictsExact`), **codec round trip**
  (`IpcCodec.RoundTrip`), **reward conservation and payees**
  (`RewardSplit.RewardConservation`, `RewardPayees.PaidExactly`),
  **speculation equals serial** (`Speculation.SpeculationEqualsSerial`), **validator set
  tracking** (`Validators.ValidatorSetTracked`), **snapshot transfer**
  (`SnapshotTransfer.SnapshotTransferred`), **restore**
  (`SnapshotRestore.RestoreApplicationArchive`), **log bound** (`LogRetention.LogBound`).

## Where the code falls short of the expected property

Each of these keeps the code as it is, shows an input, and gives the exact condition.

* A block finalized after a failed FinalizeBlock without a restart commits the failed
  block's leftover writes: the error path rolls back the root cache but not the driver
  (`FailedFinalize.LeftoverWriteCommitted`, condition in `FailedFinalize.FailedFinalizeLeaks`).
* A contract rejected for an import cycle is accepted by the next call, because it is
  cached before its imports are walked (`ImportGraph.RejectionForgotten`,
  `ImportGraph.SelfImport`). `ImportGraph.VerdictsExact` says from which caches verdicts are
  the whole graph's, and `ImportGraph.TrueCacheKept` which calls spoil such a cache.
* A chi cost set to zero within a block is remembered as zero but read as one, so a block
  executed ahead and the same block executed serially can leave different states
  (`Speculation.ZeroChiCostDiverges`, condition in `Speculation.CoherenceExact`).
* A validator power between zero and one is cut to zero, so the engine can be told to drop
  its last validator (`Validators.HalfPowerEmptiesEngine`, condition in
  `Validators.ExactTracking`).
* After a rotation whose clean-up raised, later writes can complete beyond the total log
  budget (`LogRetention.MissedCleanupOverflows`, condition in `LogRetention.BoundNeedsBudget`,
  and `LogRetention.LogBound` bounds the excess).
* A snapshot whose import yields another app hash than the trusted one is rejected only
  after it has replaced the state (`SnapshotTransfer.ForeignStateImported`, condition in
  `SnapshotTransfer.RejectedAfterImport`), and the root cache is then left with the old leaves
  (`StateSyncCache.StaleAfterRejection`, condition in `StateSyncCache.CacheCurrentExactly`).
* A restore interrupted right after installing a directory that had no original completes
  its roll-back without removing it (`Publication.InterruptedInstall`, condition in
  `Publication.LeftExactly`).

## Model

| member | source | states |
|---|---|---|
| `Treap.InsertCorrect` | src/xian/state_root.py:98-117 | insertion with rotations keeps the search-tree and heap orders and stores exactly the old dictionary with the key set |
| `Treap.MergeCorrect` | src/xian/state_root.py:120-132 | merging two trees whose keys are separated keeps both orders and joins the dictionaries |
| `Treap.DeleteCorrect` | src/xian/state_root.py:135-144 | deletion keeps both orders and removes exactly the key |
| `Treap.RotateRightKeeps` | src/xian/state_root.py:82-87 | a right rotation keeps the search order and the dictionary |
| `Treap.RotateLeftKeeps` | src/xian/state_root.py:90-95 | a left rotation keeps the search order and the dictionary |
| `History.CanonicalCorrect` | src/xian/state_root.py:166-178 | the reference tree built from a dictionary alone is a valid treap of it |
| `History.TreapUnique` | src/xian/state_root.py:98-144 | two valid treaps of one dictionary are equal when ties are separated by a lighter key |
| `History.DistinctPrioritiesSeparate` | src/xian/state_root.py:32-34 | distinct priorities separate every dictionary |
| `History.RunCorrect` | src/xian/state_root.py:205-211 | any edit history keeps a valid treap of the edited dictionary |
| `History.HistoryIndependence` | src/xian/state_root.py:98-144 | any edit history gives the reference tree of the final dictionary |
| `History.TiesRevealHistory` | src/xian/state_root.py:102-132 | without that separation two histories of the same dictionary leave different trees |
| `TreapNodes.TreapNode.Refresh` | src/xian/state_root.py:63-69 | refreshing a node makes its cached hash the Merkle hash of its subtree |
| `TreapNodes.TurnRight` | src/xian/state_root.py:82-87 | the in-place rotation does to the stored tree what the value-level rotation does, hashes included |
| `TreapNodes.TurnLeft` | src/xian/state_root.py:90-95 | likewise to the left |
| `TreapNodes.InsertOrUpdate` | src/xian/state_root.py:98-117 | in-place insertion refines `Treap.Insert`, with all cached hashes right |
| `TreapNodes.MergeNodes` | src/xian/state_root.py:120-132 | in-place merging refines `Treap.Merge` |
| `TreapNodes.DeleteNode` | src/xian/state_root.py:135-144 | in-place deletion refines `Treap.Delete` |
| `RootCache.SoundRoot` | src/xian/state_root.py:158-160 | a sound cache's root is the root computed from its leaf dictionary alone |
| `RootCache.RollbackCorrect` | src/xian/state_root.py:198-203 | rolling back gives the dictionary from before staging |
| `RootCache.StageAllCorrect` | src/xian/state_root.py:182-193 | staging never touches the base and reaches the overlay of the writes before the first that raises |
| `RootCache.OverlayPointwise` | src/xian/state_root.py:182-192 | key by key: a written consensus key has the new leaf, `None` deletes, every other key is as before |
| `RootCache.PrepareRaisesExactly` | src/xian/state_root.py:182-188 | prepare returns a root if and only if every key is a string and every value written to a consensus key can be encoded |
| `RootCache.LoadAllCorrect` | src/xian/state_root.py:166-178 | a rebuild holds exactly the leaves of the consensus items |
| `RootCache.RebuildOrderFree` | src/xian/state_root.py:166-178 | a rebuild's dictionary and tree do not depend on item order |
| `RootCache.RebuildRaisesExactly` | src/xian/state_root.py:170-177 | a rebuild succeeds if and only if keys are strings, consensus values encode and no consensus key has two values |
| `RootCache.StepRefines` | src/xian/state_root.py:180-203 | each call refines the pair of committed and current dictionaries |
| `RootCache.RunRefines` | src/xian/state_root.py:180-211 | so does every run, and the root is the from-scratch root of the current dictionary |
| `RootCache.StateRootCache.SetLeafHash` | src/xian/state_root.py:205-211 | sets or removes one leaf in dictionary and tree |
| `RootCache.StateRootCache.Undo` | src/xian/state_root.py:198-203 | undoes the staged changes in reverse |
| `RootCache.StateRootCache.PrepareWrites` | src/xian/state_root.py:180-193 | rolls back, stages, returns the root; what was staged before a raising entry stays staged |
| `RootCache.StateRootCache.CommitStaged` | src/xian/state_root.py:195-196 | forgets the undo list and changes nothing else |
| `RootCache.StateRootCache.Rebuild` | src/xian/state_root.py:166-178 | rebuilds from items, raising on a bad key, a value that does not encode or a repeated key |
| `RootCache.StateRootCache.RootHashValue` | src/xian/state_root.py:158-160 | the cached root is the Merkle hash of the tree |
| `StateRootHashing.BigEndianRoundTrip` | src/xian/state_root.py:28-29 | fixed-width big-endian numbers read back |
| `StateRootHashing.BigEndianInjective` | src/xian/state_root.py:32-34 | a digest is determined by its big-endian number |
| `StateRootHashing.LengthPrefixedInjective` | src/xian/state_root.py:28-29 | an eight-byte length prefix delimits its payload |
| `StateRootHashing.LeafPreimageInjective` | src/xian/state_root.py:37-42 | a leaf preimage determines key and value bytes |
| `StateRootHashing.NodePreimageInjective` | src/xian/state_root.py:45-46 | a node preimage determines its three digests |
| `StateRootHashing.NodeIsNotEmpty` | src/xian/state_root.py:13-16 | no node hashes the bytes of the empty root |
| `StateRootHashing.DomainsSeparate` | src/xian/state_root.py:13-17 | no leaf, node, priority or empty-tree preimage can be taken for another |
| `StateRootHashing.StateOrderTotal` | src/xian/state_root.py:107-117 | the code-point order of keys is a strict total order |
| `StateRootHashing.EqualRootsEqualEntries` | src/xian/state_root.py:37-69 | equal roots list the same entries unless two of the hashed byte strings collide |
| `StateRootHashing.EqualRootsEqualStates` | src/xian/state_root.py:28-69 | two caches with equal roots hold the same keys and encoded values unless a collision occurs |
| `RootCoverage.ConsensusKeys` | src/xian/state_root.py:20-25 | the keys in consensus are those without two leading underscores, the nonce keys and the execution policy |
| `RootCoverage.RootCoversConsensus` | src/xian/state_root.py:20-69 | unless hashed byte strings collide, two databases have the same root if and only if they agree on every contract variable, every stored nonce and the execution policy |
| `RootCoverage.OthersNeverShow` | src/xian/state_root.py:20-25 | with no assumption on hashing, nothing else in a database changes its root |
| `StateRootHashing.CollisionFreePriorities` | src/xian/state_root.py:32-34 | collision-free priority hashing makes every root canonical |
| `Lifecycle.ApplyLeaves` | src/xian/methods/commit.py:20-22 | hashing the database after a batch is overlaying the batch's leaf hashes |
| `Lifecycle.RestartLeaves` | src/xian/state_root.py:154-156 | a restart rebuilds exactly the leaves of the database, in any item order |
| `CrashSafety.FinalizeRelated` | src/xian/xian_abci.py:438-456 | FinalizeBlock, succeeding or failing anywhere, is one ideal step |
| `CrashSafety.CommittedDisk` | src/xian/methods/commit.py:5-22 | the committed batch holds the block's writes and a marker with the root they lead to |
| `CrashSafety.CommitRelated` | src/xian/methods/commit.py:5-48 | a commit that applies is the ideal commit, one that fails leaves the block retryable |
| `CrashSafety.StepRelated` | src/xian/xian_abci.py:414-467 | every enabled step of the node is a step of the ideal node |
| `CrashSafety.CrashConsistency` | src/xian/utils/block.py:104-176 | over every run: state on disk, marker root, cache with staging undone, and Info agree with the ideal node; before the first durable commit Info reports no hash, height 0 and time 0 |
| `CrashSafety.MirrorFollows` | src/xian/utils/block.py:135-176 | a restart, an Info call and an applied commit leave a writable mirror with the marker on disk, any other as it was |
| `CrashSafety.GenesisRecorded` | src/xian/methods/init_chain.py:6-26 | InitChain leaves the declared genesis state, records its root and number in the mirror beside the time already there, and commits no block |
| `CrashSafety.AppHashIsFutureRoot` | src/xian/methods/finalize_block.py:549-584 | the app hash returned by FinalizeBlock is the root the committed state will have |
| `CrashSafety.LiveReadsAreCommitted` | src/xian/xian_abci.py:390-394 | until a commit is attempted, live reads see committed state only |
| `NodeSafety.NodeConfigGood` | src/xian/constants.py:14 | the node's own key order and marker key meet the premises of the crash theorems |
| `NodeSafety.NodeCrashConsistency` | src/xian/utils/block.py:153-176 | for the node's hashing, unless priorities collide, Info reports the root, height and time of the last durable commit after any run, and an empty hash, 0 and 0 before the first |
| `NodeSafety.ReachedEncodable` | src/xian/methods/commit.py:5-48 | after any run the committed state encodes |
| `NodeSafety.EqualReportsEqualStates` | src/xian/methods/info.py:6-16 | two nodes, whatever their runs and crashes, report the same app hash if and only if their states agree on contract variables, nonces and execution policy, unless hashed byte strings collide |
| `FailedFinalize.FailedFinalizeLeaks` | src/xian/xian_abci.py:450-454 | wherever the first block raised, the next block commits what a clean node commits if and only if every key only the failed block wrote already had that value |
| `FailedFinalize.LeftoverWriteCommitted` | src/xian/xian_abci.py:450-454 | one new key of a block that failed anywhere is committed by the next block |
| `FailedFinalize.FailurePersists` | src/xian/xian_abci.py:450-454 | after a failure the next block finalizes if and only if it raises nowhere else and the writes of both blocks together can be encoded |
| `XianNode.StartNode` | src/xian/utils/block.py:159-176 | startup raises exactly when an item cannot be loaded; otherwise it is the restart step: cache rebuilt, mirror reconciled |
| `XianNode.Xian.ReportInfo` | src/xian/methods/info.py:6-16 | reports the marker on disk, or no hash, height 0 and time 0 without one, never the mirror, which it repairs if it can |
| `XianNode.Xian.PrepareCommitBoundary` | src/xian/methods/finalize_block.py:549-584 | prepares the root over the pending writes and detaches them, or raises where preparation does |
| `XianNode.Xian.FinalizeWrites` | src/xian/methods/finalize_block.py:653-721 | is exactly the block pipeline up to the detached writes |
| `XianNode.Xian.AbandonBlock` | src/xian/xian_abci.py:404-405 | the error path: batch discarded, cache rolled back, pending writes kept |
| `XianNode.Xian.HandleFinalizeBlock` | src/xian/xian_abci.py:438-456 | is exactly the finalize step of the state machine |
| `XianNode.Xian.AttachBatch` | src/xian/xian_abci.py:396-402 | re-attaches the writes and stages the marker in the same batch |
| `XianNode.Xian.ApplyBatch` | src/xian/methods/commit.py:19-46 | the batch on disk, the undo list forgotten, the mirror written or not, the block's fields reset |
| `XianNode.Xian.HandleCommit` | src/xian/methods/commit.py:5-48 | is exactly the commit step, applied or failed |
| `Proposals.SequentialNonceTracker.ValidateAndAdvance` | src/xian/utils/tx.py:282-310 | accepts exactly the sender's next nonce and advances only then |
| `Proposals.SequentialNonceTracker.Validate` | src/xian/utils/tx.py:345-350 | decoding, fee policy, block total and nonce together; nothing moves on a refusal |
| `Proposals.PrepareProposal` | src/xian/methods/prepare_proposal.py:13-57 | the filtering loop computes the prepared sequence |
| `Proposals.ProcessProposal` | src/xian/methods/process_proposal.py:13-48 | the all-or-nothing loop computes acceptance |
| `Proposals.DecodeBlockTransactions` | src/xian/methods/finalize_block.py:205-278 | the decoding loop computes accepted and rejected entries |
| `ProposalCoherence.ProcessAcceptsValid` | src/xian/methods/process_proposal.py:13-48 | ProcessProposal accepts exactly the blocks that are valid position by position, said without a fold |
| `ProposalCoherence.AcceptedWithinPolicy` | src/xian/fee_policy.py:107-138 | every transaction of an accepted block is within the size and chi limits for itself, and all together within the chi limit of the block |
| `ProposalCoherence.PreparedIsCoherent` | src/xian/methods/prepare_proposal.py:13-57 | a prepared proposal fits the size, keeps the mempool order, is accepted and prepares to itself |
| `ProposalCoherence.AcceptedDecodesClean` | src/xian/methods/finalize_block.py:205-278 | a proposal is accepted if and only if FinalizeBlock decodes it without a rejection |
| `ProposalCoherence.EntriesFaithful` | src/xian/methods/finalize_block.py:205-278 | decoding keeps every raw transaction in its place and an accepted one as it decodes |
| `ProposalCoherence.DecodeKeepsPrepared` | src/xian/methods/finalize_block.py:205-278 | on any block FinalizeBlock executes what PrepareProposal would keep of it |
| `ProposalCoherence.ProposalCoherent` | src/xian/methods/prepare_proposal.py:13-57 | the three handlers agree on the proposer's block, within its byte limit |
| `Replay.NonceLedger.AssembleTxResults` | src/xian/methods/finalize_block.py:435-526 | results in block order: finalized exactly for executed transactions, each setting its sender's nonce unconditionally |
| `Replay.BlockConsumes` | src/xian/methods/finalize_block.py:435-526 | one block finalizes each pair at most once, above the stored nonces, which never go back |
| `Replay.ReplaySafety` | src/xian/methods/finalize_block.py:205-526 | over any chain no (sender, nonce) pair is finalized twice and no stored nonce decreases |
| `Replay.ExecutedAreFinal` | src/xian/methods/finalize_block.py:471-490 | over any chain the executed transactions are exactly those with a finalized result |
| `Replay.ExecutedOnce` | src/xian/methods/finalize_block.py:205-526 | over any chain no transaction is executed twice, nor one with a nonce already stored at the start |
| `Replay.StoredIsLastExecuted` | src/xian/methods/finalize_block.py:471-472 | a sender's stored nonce is that of its last finalized transaction, or the old one if there is none |
| `Nonces.NonceStorage.PruneSender` | src/xian/nonce.py:41-57 | removes exactly the sender's expired reservations |
| `Nonces.NonceStorage.GetPendingNonce` | src/xian/nonce.py:116-133 | finds the end of the unbroken run of reservations above the committed nonce |
| `Nonces.NonceStorage.GetNextNonce` | src/xian/nonce.py:178-188 | returns the least free nonce |
| `Nonces.NonceStorage.CheckNonce` | src/xian/nonce.py:67-95 | admission as specified by `Nonces.Checked`, other senders untouched |
| `Nonces.NonceStorage.ReconcilePending` | src/xian/nonce.py:190-201 | drops expired reservations and nonces the chain has used, for every sender |
| `Nonces.NonceStorage.FlushPending` | src/xian/nonce.py:207-209 | empties the table |
| `Nonces.AdmissionExact` | src/xian/nonce.py:67-95 | a new transaction is admitted exactly at the least free nonce under the limit and displaces nothing |
| `Nonces.MempoolMatchesBlocks` | src/xian/nonce.py:178-188 | with nothing reserved, the mempool's next nonce is the one the block handlers expect |
| `Nonces.EndsExactly` | src/xian/nonce.py:41-95 | one event keeps a reservation with its transaction unless it ends it by expiry, commitment or flush; an ended one is gone or its nonce given out anew by that check |
| `Nonces.NeverDisplaced` | src/xian/nonce.py:41-201 | over every run, a reservation that is gone or changed hands was ended by one of those in between |
| `Nonces.LimitHolds` | src/xian/nonce.py:88-89 | in every run no sender holds more reservations than the limit |
| `Framing.VarintRoundTrip` | src/abci/utils.py:30-58 | every natural number reads back, whatever follows |
| `Framing.UnvarintStable` | src/abci/utils.py:46-58 | varints are prefix-free |
| `Framing.VarintCutIncomplete` | src/abci/utils.py:46-68 | a cut varint is recognised as incomplete |
| `Framing.EncodeVarint` | src/abci/utils.py:30-43 | the loop computes the varint |
| `Framing.DecodeVarint` | src/abci/utils.py:46-58 | the shifting loop computes the number and its width |
| `Framing.WriteMessage` | src/abci/utils.py:71-79 | writes length and payload |
| `Framing.ReadMessages` | src/abci/utils.py:82-104 | yields all complete messages and stops before an incomplete one |
| `Framing.ReadingResumes` | src/abci/server.py:184-219 | reading a stream in two parts finds the same messages and rest |
| `Framing.FramedRoundTrip` | src/abci/utils.py:71-104 | framed messages, cut anywhere in the next frame, read back exactly |
| `Framing.Drain` | src/abci/server.py:198-213 | the parsing loop finds all complete messages of the buffer and where the rest starts |
| `Framing.Connection.OnRead` | src/abci/server.py:184-219 | processed requests and kept bytes are those of the whole stream so far |
| `Framing.ServeConnection` | src/abci/server.py:184-219 | the handler processes the messages of the joined reads; however framed messages are cut into reads, exactly they are processed, in order, and exactly the unfinished piece is kept |
| `ImportGraph.ContractCache.PrepareBundle` | src/xian/execution_engine.py:365-412 | the recursive method is the walk, cache included |
| `ImportGraph.PreparationExact` | src/xian/execution_engine.py:365-412 | from any cache, preparation returns if and only if no uncached chain of imports fails to load or comes back to itself |
| `ImportGraph.PreparationCachesAll` | src/xian/execution_engine.py:365-412 | once it returns, everything reachable is cached |
| `ImportGraph.SettledNeverReturns` | src/xian/execution_engine.py:371-374 | no chain of imports leads from a finished contract back to itself |
| `ImportGraph.RejectionForgotten` | src/xian/execution_engine.py:380-402 | the second of two calls returns if and only if the contract itself loads and validates, whatever its imports |
| `ImportGraph.VerdictsExact` | src/xian/execution_engine.py:365-412 | preparation accepts exactly the contracts whose whole reachable graph is sound and acyclic, if and only if nothing cached is defective |
| `ImportGraph.TrueCacheKept` | src/xian/execution_engine.py:402-412 | a call keeps that condition if and only if it returns, or refuses the contract before caching it |
| `ImportGraph.SelfImport` | src/xian/execution_engine.py:371-402 | a contract that imports itself is refused, then accepted |
| `IpcCodec.RoundTrip` | src/xian/simulator_ipc.py:27-81 | decoding gives back every value: tagged scalars, lists, tuples, sets, dictionaries with any keys, marker key included |
| `IpcCodec.EncodeInjective` | src/xian/simulator_ipc.py:27-49 | different values never share an encoding |
| `IpcCodec.EnvelopesPreserved` | src/xian/simulator_ipc.py:41-49 | a dictionary stays an object with the same keys, in order, over its encoded items exactly when all keys are strings other than the marker; every other dictionary is escaped and only those read as tagged |
| `IpcCodec.TagsReadBack` | src/xian/simulator_ipc.py:27-81 | every tag decodes to its own kind and no other |
| `Rewards.SplitPool` | src/xian/rewards.py:185-191 | giving the last recipient the remainder gives it exactly its proportional part |
| `Rewards.ValidatorConserves` | src/xian/rewards.py:125-206 | one validator's records sum to its reward and none is negative |
| `Rewards.BuildSingleValidatorRewards` | src/xian/rewards.py:125-206 | each stake's exact proportion after commission; the mapping sums the records per account |
| `RewardSplit.AllRecordsTotal` | src/xian/rewards.py:208-254 | the validators' records sum to the validators' pool |
| `RewardSplit.BuildValidatorSetRewards` | src/xian/rewards.py:208-254 | the set's records are every validator's share by power, the mapping sums them per account |
| `RewardSplit.DevelopersConserve` | src/xian/rewards.py:256-305 | developer records and redirected shares sum to the developers' pool |
| `RewardSplit.FindDevelopersAndReward` | src/xian/rewards.py:256-305 | developers' shares by contract cost; shares without a developer are redirected |
| `RewardSplit.BuildTxRewardOutputs` | src/xian/rewards.py:359-456 | every account's balance delta is the sum of its reward records |
| `RewardSplit.RewardConservation` | src/xian/rewards.py:307-456 | with a validator, what is paid is exactly the used chi less the burned ratio, at the chi rate |
| `RewardPayees.ValidatorPaysDue` | src/xian/rewards.py:39-206 | for any choice of accounts, one validator's records pay them the commission, bond and delegation parts they are due by contract state |
| `RewardPayees.PaidExactly` | src/xian/rewards.py:208-456 | for any choice of kinds and accounts, a transaction's records pay exactly what a direct reading of contract state says they are due of the used chi, each ratio to its own recipients |
| `RewardPayees.FoundationTotalPaid` | src/xian/rewards.py:329-333 | the foundation records sum to its ratio of the used chi, at the chi rate |
| `RewardPayees.StakersTotalPaid` | src/xian/rewards.py:346-350 | validator and delegator records sum to their ratio and the part of contracts without a developer |
| `RewardPayees.DevelopersTotalPaid` | src/xian/rewards.py:256-305 | developer records sum to their ratio less that part |
| `RewardPayees.OrphanedExactly` | src/xian/rewards.py:287-290 | that part is nothing when every contract has a developer, all when none has |
| `RewardPayees.UnconfiguredPaysNobody` | src/xian/rewards.py:366-375 | without ratios, chi rate, foundation owner or used chi nobody is paid |
| `RewardSplit.PlanConserves` | src/xian/rewards.py:307-357 | without a validator exactly the validators' pool and the redirected shares are lost |
| `RewardSplit.RewardsNonNegative` | src/xian/rewards.py:359-456 | nobody is paid less than nothing |
| `Validators.SelectionUnique` | src/xian/validators.py:18-47 | a list and its powers ask for at most one set |
| `Validators.SelectionIgnoresOrderAndCase` | src/xian/validators.py:26-46 | order, repetition and case of keys make no difference, not even to whether there is a selection |
| `Validators.SelectionExists` | src/xian/validators.py:34-45 | there is a selection if and only if no two spellings of a key have different powers |
| `Validators.ValidatorHandler.GetValidatorsFromState` | src/xian/validators.py:18-47 | computes the selection; none on a malformed list or conflicting powers |
| `Validators.ValidatorHandler.CommittedValidators` | src/xian/validators.py:54-59 | the persisted set, or the committed contract's selection on chains without one |
| `Validators.ValidatorHandler.BuildValidatorUpdates` | src/xian/validators.py:64-103 | persists the next set, never an empty one, and announces one update for exactly the keys that change |
| `Validators.AnnouncedSetArrives` | src/xian/validators.py:80-103 | folding the updates gives the engine the voting part of the new set |
| `Validators.ValidatorSetTracked` | src/xian/validators.py:54-103 | over every run the engine's set is the voting part of the effective set, which never runs empty |
| `Validators.AnnouncedPower` | src/xian/validators.py:33-52 | once adopted, a listed validator votes with its integer power, with ten when it has none, with a fraction cut off |
| `Validators.ExactTracking` | src/xian/validators.py:49-52 | a block keeps engine and effective set equal if and only if it adopts no power between zero and one |
| `Validators.ExactTrackingRun` | src/xian/validators.py:64-103 | without such powers they are equal over the whole run and the engine never runs out of validators |
| `Validators.UpdatesAreNews` | src/xian/validators.py:80-103 | then no update removes an unknown validator or repeats a known power |
| `Validators.HalfPowerEmptiesEngine` | src/xian/validators.py:49-52 | one validator at power one half empties the engine's set |
| `SnapshotTransfer.CountCovers` | src/xian/services/state_sync.py:191-192 | the chunk count covers the archive and no chunk is superfluous |
| `SnapshotTransfer.LoadSnapshotChunk` | src/xian/services/state_sync.py:465-486 | serves the chunk of the first matching snapshot, nothing out of range |
| `SnapshotTransfer.FirstAtExactly` | src/xian/services/state_sync.py:472-479 | the snapshot served is the first with that height and format |
| `SnapshotTransfer.StateSyncService.OfferSnapshot` | src/xian/services/state_sync.py:415-463 | accepted if and only if format, height, chunk count, hash width, chain, chunk size and hashes agree; an honest offer exactly by nodes behind it that trust its hash and take its chunk size; accepted offers open a fresh session |
| `SnapshotTransfer.StateSyncService.ApplyChunk` | src/xian/services/state_sync.py:488-527 | one delivery, as specified by `SnapshotTransfer.Applied` |
| `SnapshotTransfer.AnswersExactly` | src/xian/services/state_sync.py:495-527 | what each answer says: no session, not the next chunk and nothing changed, or taken and, if last, imported with the trusted hash |
| `SnapshotTransfer.ArchiveBounded` | src/xian/services/state_sync.py:502-509 | under any deliveries what is kept or handed over fits the chunks announced |
| `SnapshotTransfer.ImportOnlyComplete` | src/xian/services/state_sync.py:498-525 | under any deliveries an archive is handed to the import only after all chunks came in turn, as exactly those bytes, with the offered digest |
| `SnapshotTransfer.TransferProgress` | src/xian/services/state_sync.py:497-527 | with true chunks the transfer never aborts |
| `SnapshotTransfer.SnapshotTransferred` | src/xian/services/state_sync.py:465-527 | chunks delivered in order among any other deliveries hand exactly the archive to the import, once |
| `SnapshotTransfer.RejectedAfterImport` | src/xian/services/state_sync.py:514-525 | a transfer is rejected although it replaced the state if and only if its digest matched, the import's own checks passed and the import did not end with the trusted app hash |
| `SnapshotTransfer.ForeignStateImported` | src/xian/services/state_sync.py:514-525 | one chunk whose state has another app hash: rejected, and the state replaced |
| `StateSyncCache.SyncingNode.ApplySnapshotChunk` | src/xian/xian_abci.py:506-518 | one delivery: the import changes the database, only an accepted chunk rebuilds the root cache |
| `StateSyncCache.AcceptRepairs` | src/xian/xian_abci.py:512-517 | whatever the cache held, after an accepted chunk it has the leaves of the state on disk |
| `StateSyncCache.CacheCurrentExactly` | src/xian/xian_abci.py:506-518 | over any deliveries the cache has the leaves of the state on disk if and only if no delivery completed an import that replaced the leaves and was then rejected |
| `StateSyncCache.StaleAfterRejection` | src/xian/xian_abci.py:512-517 | one rejected chunk after which the disk holds the archive's state and the cache the old leaves |
| `Publication.Directories.Rollback` | src/xian/snapshot_restore.py:191-198 | completes if and only if every removal and put-back it needs goes well; completed: exactly what `Publication.Left` says; failed: every original in place or in the backup |
| `Publication.Directories.PublishOne` | src/xian/snapshot_restore.py:204-209 | one directory: stops exactly at its first mishap, with how far it got |
| `Publication.Directories.Publish` | src/xian/snapshot_restore.py:201-217 | published if and only if no step goes wrong, rolled back if and only if undoing meets no obstacle, with the whole directory state of each outcome; otherwise every original is safe |
| `Publication.PublishedExactly` | src/xian/snapshot_restore.py:201-209 | all is published if and only if every new directory goes into place, and every old one aside, without a mishap |
| `Publication.StoppedExactly` | src/xian/snapshot_restore.py:204-210 | which mishap leaves a directory untouched, set aside or replaced |
| `Publication.RollbackCompletesExactly` | src/xian/snapshot_restore.py:191-198 | the roll-back completes if and only if the removals and put-backs it needs go well |
| `Publication.LeftExactly` | src/xian/snapshot_restore.py:191-217 | a completed roll-back gives back exactly the originals if and only if it was not interrupted after putting a directory where there was none |
| `Publication.FailedRenameUndone` | src/xian/snapshot_restore.py:201-217 | after a failed rename, with no further mishap, the roll-back completes and all originals are back |
| `Publication.InterruptedInstall` | src/xian/snapshot_restore.py:208-209 | publishing on an empty home, interrupted right after the data directory is in place: rolled back, and the new directory is still there |
| `SnapshotRestore.ApplicationMembers` | src/xian/snapshot_restore.py:116-166 | raises exactly when a member is refused, two clash or no file is taken; otherwise selects the taken ones, each key once |
| `SnapshotRestore.RefusedExactly` | src/xian/snapshot_restore.py:116-160 | a member is refused if and only if its name or type is not allowed or it would displace a root, an identity file or a way to one |
| `SnapshotRestore.PassedOverExactly` | src/xian/snapshot_restore.py:155-163 | a member is passed over if and only if it lies elsewhere or is a file in the place of an identity file |
| `SnapshotRestore.ExtractApplicationData` | src/xian/snapshot_restore.py:169-179 | raises exactly when a file is in the way of another member; otherwise lays out exactly the selected files |
| `SnapshotRestore.IdentityFits` | src/xian/snapshot_restore.py:125-137 | nothing taken stands at, below, or as a file on the way to an identity file |
| `SnapshotRestore.PreserveIdentity` | src/xian/snapshot_restore.py:182-188 | local identity files replace whatever was extracted, everything else stays |
| `SnapshotRestore.Prepare` | src/xian/snapshot_restore.py:232-246 | prepares the files to publish if and only if the policy holds at home, no member is refused, a file is taken, all can be laid out and what is laid out keeps the policy |
| `SnapshotRestore.RestoringUnique` | src/xian/snapshot_restore.py:182-188 | archive, home and identity paths determine the files to publish |
| `SnapshotRestore.RestoreApplicationArchive` | src/xian/snapshot_restore.py:220-253 | refused if and only if a backup is left over; an archive that cannot be restored changes nothing; otherwise the outcome and the directories are those the steps' mishaps determine; restored: identity files local or missing, never the archive's in any spelling, the rest the archive's |
| `SnapshotRestore.PathsLawful` | src/xian/snapshot_restore.py:112-113 | folding path parts keeps the parent relation and the number of parts |
| `SnapshotRestore.KeysShared` | src/xian/snapshot_restore.py:112-113 | paths share a key if and only if their parts are equal up to folding |
| `LogRetention.CleanedWithinBudget` | src/xian/log_retention.py:104-118 | a completed clean-up fits the budget, keeps nothing expired, and drops only what is not newer than what it keeps |
| `LogRetention.CleanedDropsFewest` | src/xian/log_retention.py:104-118 | nothing is dropped that would still fit, and the active segment goes exactly when expired |
| `LogRetention.BoundedLogSink.Cleanup` | src/xian/log_retention.py:104-118 | completed: exactly the cleaned directory; raised: some owned segments gone |
| `LogRetention.BoundedLogSink.WriteData` | src/xian/log_retention.py:146-158 | one write, with rotation, clean-up and every failure, is a permitted step |
| `LogRetention.CompletedWrite` | src/xian/log_retention.py:146-158 | a completed write is appended within limit and interval, and otherwise starts a new segment over archives within budget |
| `LogRetention.BoundedLogSink.WriteMessage` | src/xian/log_retention.py:126-136 | a message takes at most one segment's bytes |
| `LogRetention.BoundedLogSink.MaintainOnce` | src/xian/log_retention.py:160-166 | a maintenance round is a permitted clean-up step |
| `LogRetention.OpenSink` | src/xian/log_retention.py:45-86 | opening raises on limits that are not positive or do not cover a segment, or when the first rotation or clean-up raises; otherwise the directory is cleaned |
| `LogRetention.LogBound` | src/xian/log_retention.py:104-158 | over every run no active segment outgrows its limit and the total is exceeded by at most one segment per rotation whose clean-up is still missing |
| `LogRetention.LogBoundWhenClean` | src/xian/log_retention.py:104-158 | if clean-ups complete, the total is never exceeded |
| `LogRetention.BoundNeedsBudget` | src/xian/log_retention.py:146-158 | following writes stay within the total if and only if the archives are within their budget |
| `LogRetention.MissedCleanupOverflows` | src/xian/log_retention.py:151-158 | a run that completes a write beyond the total |
| `Speculation.EffectCarriesOver` | src/xian/processor.py:299-470 | where a state agrees with the snapshot on everything read, the transaction has the same writes and rewards |
| `Speculation.TxProcessor.MaterializeWrites` | src/xian/processor.py:452-470 | every reward is added to the own write or the current balance |
| `Speculation.RewardsAccumulate` | src/xian/processor.py:455-463 | rewards add to balances changed since the snapshot |
| `Speculation.TxProcessor.GetChiCost` | src/xian/processor.py:50-60 | the remembered chi cost; else the stored one, or one if it is missing or empty, which is then remembered |
| `Speculation.TxProcessor.ProcessTx` | src/xian/processor.py:66-160 | is exactly one serial step |
| `Speculation.FailedTransactionPays` | src/xian/execution_engine.py:102-146 | a failed transaction costs its sender exactly the used chi at the chi cost, or all it has, and changes nothing else |
| `Speculation.FailedTransactionFree` | src/xian/processor.py:437-441 | a failed transaction that is not charged or used nothing changes nothing |
| `Speculation.SuccessfulTransactionWrites` | src/xian/processor.py:437-470 | after a successful transaction every key holds its own write or the old value, with its reward on top |
| `Speculation.AddableExactly` | src/xian/processor.py:455-463 | rewards can be added if and only if no rewarded key is deleted or holds something that is not a number |
| `Speculation.TxProcessor.ApplySpeculativeOutput` | src/xian/parallel_executor.py:365-372 | is exactly the application of an effect to the live state |
| `Speculation.CoherenceExact` | src/xian/processor.py:62-64 | the remembered chi cost equals a fresh read if and only if it is not set to an empty value |
| `Speculation.ZeroChiCostDiverges` | src/xian/processor.py:50-64 | a block of two whose serial and parallel runs leave different states after the chi cost is set to zero |
| `Speculation.TurnMatches` | src/xian/parallel_executor.py:88-108 | one turn computed ahead or run serially leaves the same state |
| `Speculation.SpeculationEqualsSerial` | src/xian/parallel_executor.py:88-372 | a block executed ahead of its turns leaves the serial block's state |

## Left out

- Contract execution, the speculation planner and the storage driver: foreign packages; the driver is a map with an ordered overlay of pending writes and an atomic apply.
- Cryptography, UTF-8, JSON text, tar and gzip: abstract functions; collision-freeness is assumed only of the finitely many byte strings actually hashed.
- Protobuf parse errors: parsing a complete payload always yields a message.
- Malformed IPC JSON: `IpcCodec.Decode` raises on any shape the encoder does not produce; duplicate set elements or keys in such input are not merged.
- State patches, snapshot import and genesis building: their effect on state is a parameter (`InitChain` replaces the state; an import refuses an archive, or replaces the state and then may raise).
- Evidence handling, epoch rebalancing and events in FinalizeBlock: part of the writes a block produces.
- A marker on disk that is not a well-formed record, which makes Info raise.
- Manual `set_pending_nonce` and `safe_set_nonce`: they bypass admission.
- Replay.ReplaySafety: nonce keys are written only by result assembly; contract writes to them are excluded.
- Decimal rounding of rewards: exact rationals are used, also for the foundation share; records carry kind, recipient and value, not the source contract and delegator names.
- Rewards.SplitPool: the same loop occurs three times in the source and is modelled once.
- Validator updates are keyed by the lower-case key text, not its bytes, and listed in any order.
- Chunk counts use exact division; the source divides in floating point, which rounds for archives beyond 2^53 bytes.
- Failures while writing a chunk to the archive file or while removing the workspace after a completed restore.
- Symbolic links, configured identity paths outside the application directories, empty directories of an archive, and case-insensitive file systems.
- Writers with different log limits, and log files renamed by other programs.
- Speculation.TxProcessor.MaterializeWrites: returns the writes as a map; the source sorts them by key, which does not matter for distinct keys.
- What the planner does with a result whose rewards cannot be added on the live state; `Speculation.RunParallel` stops there.
- The access record reported to the planner: the theorem's premise is agreement on everything actually read.
- Dashboard, metrics, query handlers, simulator process management, BDS indexing and log text: easy or outside the consensus core.
