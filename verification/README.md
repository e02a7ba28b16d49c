# Verified model of an Ethereum layer on Substrate

A Dafny model of the parts of a Frontier-style node where correctness is subtle:

- **SubstateStack, Runner**: the stack of EVM call frames in lock-step with nested storage transactions,
  and the fee withdraw/refund protocol around an execution.
- **EthereumPallet, Consensus, Admission**: building the Ethereum block inside a Substrate block, the digest
  log it leaves, transaction admission, and pending nonces.
- **MappingDb, MappingSync, SyncProgress, SyncCrash, SyncWorker, TransactionLookup, LookupExamples**: the resumable
  walk over the block tree that indexes Ethereum hashes, what it indexes in the end, what a crash costs, and
  resolving a transaction through the index.
- **Cartesian, LogFilter, LogNumbering, FilterPolling, GasEstimate**: topic filters, the numbering of logs,
  polling filters, and the gas estimator of the RPC server.
- **Modexp, DynamicFee**: two arithmetic components.

Code that updates state in place is modelled by classes and loops, each proved against a specification
function; the theorems are about those functions and about runs of them. Libraries outside the repository
(Keccak, RLP, signature recovery, the gas meter, the EVM itself, the currency, the runtime behind the RPC
server) are parameters; collision freedom is assumed only where a lemma requires `CollisionFree`.
Hashes and addresses are natural numbers of which only equality is used.

`dafny verify dfyconfig.toml` checks the whole project.

## Where the code falls short of what it promises

- Topic filters: the comment at client/rpc-core/src/types/filter.rs:38 lists `[null,[null,C]]`, but the matcher
  refuses logs that such a filter should accept (`LogFilter.MixedOrListRefusesShortLog`).
  `LogFilter.TopicFilterExact` gives the exact class of filters that are matched positionally.
- Frames: a failing swallow returns before its storage transaction is closed, so each one leaks a transaction
  (`SubstateStack.LockStep`) and a reverted write can survive (`SubstateStack.FailedRevertKeepsWrites`);
  `SubstateStack.BalancedTraceEqualsNormalForm` says that this is the only way to depart from the normal form.
- Indexing: the mapping and the tips are committed separately, so a crash between the two commits can leave a block
  out of the index (`SyncCrash.CrashLosesParent`). `SyncCrash.LostStackLosesExactly` says exactly which blocks
  it costs over a fixed tree; `SyncCrash.SiblingRecoversParent` shows how an import brings such a block back.
  A block without exactly one log stops the indexing of a tree; `SyncProgress.RoundsEndOrStall` says when and where.
- Lookup: a transaction that was included on two forks does not resolve, even if one of them is canonical
  (`LookupExamples.ForkedTransactionIsNotFound`). A block is indexed under the header inside its pre-log, which may
  copy another block's: then a lookup reads out of bounds (`LookupExamples.CopiedHeaderPanics`) or finds nothing
  (`LookupExamples.CopiedHeaderHides`). `TransactionLookup.AnswersExactly` says exactly when it answers and panics.
- Admission: a gas limit above 64 bits is priced in full by validation and cut by the runner
  (`Admission.CutGasLimitDiffers`); `Admission.ExecutableIffAccepted` gives the exact relation.
- Estimator: `old_best - best` underflows if a smaller limit uses more gas (`GasEstimate.PerversePanics`);
  `GasEstimate.Estimate` says exactly when.
- Modexp: EIP-198 reads missing input bytes as zero and answers a zero modulus length with an empty output; the code
  refuses both, and lengths above 1024 (`Modexp.ShortInputRefused`, `Modexp.MatchesEipExactly`).

## Model

| member | source | states |
|---|---|---|
| `SubstateStack.BalancedTraceEqualsNormalForm` | frame/evm/src/runner/stack.rs:239-304 | a balanced trace never panics, and it leaves the storage layers, logs, delete set and parent frames of its bracket-free normal form (reverted and discarded segments erased, committed brackets dropped) if and only if the gas metadata alone, run through the trace without any storage, meets no failing swallow; then the `deleted` answers agree, too |
| `SubstateStack.MetadataDecides` | frame/evm/src/runner/stack.rs:239-281 | the number of failing swallows of a run, and the metadata it ends with, are those of running the metadata stack alone through the trace |
| `SubstateStack.OpenTraceView` | frame/evm/src/runner/stack.rs:239-304 | if the metadata meets no failing swallow, at any point inside a trace and with frames still open: current storage, all logs and all `deleted` answers are those of the surviving operations run without brackets, and depth stays in lock-step with open transactions |
| `SubstateStack.RunFollowsSegments` | frame/evm/src/runner/stack.rs:239-304 | every frame and every storage layer of a run without failing swallow is determined by the open segments of the trace |
| `SubstateStack.NormalFormIsFlat` | frame/evm/src/runner/stack.rs:239-281 | the segments, and so the normal form, contain no enter or exit |
| `SubstateStack.SegmentsExactly` | frame/evm/src/runner/stack.rs:239-281 | a trace has segments exactly when none of its prefixes exits more frames than it entered; they number one more than the frames left open, so it is balanced exactly when none is |
| `SubstateStack.LockStep` | frame/evm/src/runner/stack.rs:239-281 | over every run, open transactions exceed frame depth by exactly the number of failed swallows; lock-step holds if and only if none failed |
| `SubstateStack.PanicsExactlyAtRoot` | frame/evm/src/runner/stack.rs:253-281 | a run panics if and only if some prefix leaves the root frame |
| `SubstateStack.StaysInside` | frame/evm/src/runner/stack.rs:239-281 | a trace that never leaves its starting frame never panics and ends at the depth its open segments say |
| `SubstateStack.FailedRevertKeepsWrites` | frame/evm/src/runner/stack.rs:265-272 | concrete counterexample: when the swallow fails, a reverted write stays visible although the normal form is empty |
| `SubstateStack.WritesReadBack` | frame/evm/src/runner/stack.rs:428-469 | after any state write every slot, the code of every address and every other storage key read back, absence included: the written one the value written (zero after a reset, nothing new for empty code), every other one what it was |
| `SubstateStack.LastWriteWins` | frame/evm/src/runner/stack.rs:428-469 | after a bracket-free run of writes a slot holds the last value written since the last reset of its address, an address the last non-empty code set for it, a host key the last value written, and each what the base held if there was none |
| `SubstateStack.ExitExactly` | frame/evm/src/runner/stack.rs:253-281 | what each way out of a frame does: metadata as swallowed, logs and deletes joined to the parent only by a successful commit, the inner layer kept by a commit and dropped by a revert or discard, and all layers left open when the swallow fails |
| `SubstateStack.NoZeroStored` | frame/evm/src/runner/stack.rs:428-447 | over every run no storage layer holds a zero word |
| `SubstateStack.Host.StartTransaction` | frame/evm/src/runner/stack.rs:250-250 | opens a layer that starts as a copy of the current one |
| `SubstateStack.Host.CommitTransaction` | frame/evm/src/runner/stack.rs:261-261 | the innermost layer replaces the one below it |
| `SubstateStack.Host.RollbackTransaction` | frame/evm/src/runner/stack.rs:270-270 | the innermost layer is dropped |
| `SubstateStack.SubstrateStackSubstate.constructor` | frame/evm/src/runner/stack.rs:315-322 | a root frame without logs, deletes or parent |
| `SubstateStack.SubstrateStackSubstate.Swap` | frame/evm/src/runner/stack.rs:246-246 | exchanges the running frame with another |
| `SubstateStack.SubstrateStackSubstate.EnterFrame` | frame/evm/src/runner/stack.rs:239-251 | is the specified `Enter` step on frames and host storage together |
| `SubstateStack.SubstrateStackSubstate.Commit` | frame/evm/src/runner/stack.rs:253-263 | is the specified commit step, including the early return of a failing swallow |
| `SubstateStack.SubstrateStackSubstate.Revert` | frame/evm/src/runner/stack.rs:265-272 | is the specified revert step, including the early return of a failing swallow |
| `SubstateStack.SubstrateStackSubstate.Discard` | frame/evm/src/runner/stack.rs:274-281 | is the specified discard step, including the early return of a failing swallow |
| `SubstateStack.SubstrateStackSubstate.IsDeleted` | frame/evm/src/runner/stack.rs:283-293 | the walk over the parents decides whether the address is marked in any open frame |
| `SubstateStack.SubstrateStackSubstate.MarkDeleted` | frame/evm/src/runner/stack.rs:295-297 | is the specified step: marks the address in the running frame only |
| `SubstateStack.SubstrateStackSubstate.Emit` | frame/evm/src/runner/stack.rs:299-303 | is the specified step: appends to the running frame only |
| `SubstateStack.SubstrateStackSubstate.Write` | frame/evm/src/runner/stack.rs:428-469 | is the specified write to the innermost storage layer |
| `Runner.FeesAreConserved` | frame/evm/src/runner/stack.rs:61-90 | once the checks passed, for every execution outcome: the 128-bit cut of the fee loses nothing, the withdrawal and the correction succeed, refund plus charge is the fee, the charge is the actual fee if the source still exists and the whole fee otherwise, and total money is conserved |
| `Runner.CorrectSplitsPayment` | frame/evm/src/lib.rs:607-631 | for every ledger and actual fee the correction succeeds, refund plus charge equals what was withdrawn, the handler gets the minimum of the withdrawn and the (128-bit) actual fee, or everything if the account is gone, and no other account changes |
| `Runner.TruncatedChargeExact` | frame/evm/src/lib.rs:616-618 | the 128-bit cut of the actual fee changes the charge exactly when the fee does not fit and its cut falls below the payment |
| `Runner.WithdrawConserves` | frame/evm/src/lib.rs:595-605 | a withdrawal takes exactly the amount out of total issuance, dust included |
| `Runner.WithdrawExactly` | frame/evm/src/lib.rs:595-605 | when a withdrawal succeeds, the balance it leaves, that an account falling below the existential deposit is reaped, and that no other account changes |
| `Runner.DepositExactly` | frame/evm/src/lib.rs:622-623 | a deposit succeeds exactly for nothing or for an existing account without overflow, and raises only that balance |
| `Runner.DepositConserves` | frame/evm/src/lib.rs:622-623 | a refund puts exactly the amount back |
| `Runner.RemoveAccounts` | frame/evm/src/runner/stack.rs:94-101 | after the deletion loop the deleted accounts have no code and no slot, and nothing else changed |
| `Runner.PurgedExactly` | frame/evm/src/runner/stack.rs:94-101 | after the purge every slot and code, absence included, is what it was, or gone if its address is deleted; nothing else changes |
| `Runner.Engine.WithdrawFee` | frame/evm/src/lib.rs:595-605 | withdraws the low 128 bits of the fee or leaves the ledger alone |
| `Runner.Engine.CorrectAndDepositFee` | frame/evm/src/lib.rs:607-631 | refunds, offsets and hands the rest to the fee handler as specified |
| `Runner.Engine.Execute` | frame/evm/src/runner/stack.rs:28-126 | a failing check reports its own error and changes nothing; otherwise the handler receives the actual fee (or the whole fee), the source the rest, issuance is conserved, and storage and logs are those the executor left, deleted accounts purged; with no failing swallow that is the old storage after the normal form of the trace, purged of the addresses it deletes, and the logs of the normal form; a request without a gas price leaves the handler unchanged and the ledger as the execution left it |
| `Runner.Engine.RunExecutor` | frame/evm/src/runner/stack.rs:74-74 | a balanced execution from the root frame, with the substate and the storage it leaves |
| `Runner.Engine.Check` | frame/evm/src/runner/stack.rs:40-67 | is the list of checks, in order |
| `Runner.ChecksExactly` | frame/evm/src/runner/stack.rs:40-67 | on the fields of the request alone: which requests pass and with which fee, and which error every other one gets; without a gas price the fee is zero and only value and nonce are checked |
| `Runner.RootExecution` | frame/evm/src/runner/stack.rs:46-92 | a balanced execution from the root frame never panics, and with no failing swallow leaves one layer, the base storage after the normal form, and the logs and deletes of the normal form |
| `Admission.AcceptedThenExecutable` | frame/ethereum/src/lib.rs:187-199 | a transaction that validation accepts at its account nonce passes every check of `execute`, despite saturating against checked arithmetic and the 64-bit cut of the gas limit |
| `Admission.ValidateExactly` | frame/ethereum/src/lib.rs:174-210 | for every nonce and every balance below 2^128, on the fields of the transaction and its account: validation accepts exactly with an absent or right chain id, a recovered signer, a nonce not below the account nonce, a sufficient gas price and a balance covering value plus price times gas limit; and which error it gives otherwise |
| `Admission.TransactionChecks` | frame/ethereum/src/lib.rs:417-427 | the request a transaction becomes passes the checks exactly with a sufficient price, the account nonce, and a balance covering value plus price times the low 64 bits of the gas limit, which is then the fee |
| `Admission.ExecutableIffAccepted` | frame/ethereum/src/lib.rs:187-199 | validation accepts at the account nonce if and only if the checks pass, the signature names no other chain and the balance covers value plus gas price times the uncut gas limit, for gas limits of any width; within 64 bits the checks imply the last condition |
| `Admission.CutGasLimitDiffers` | frame/ethereum/src/lib.rs:417-427 | an empty account that asks for 2^64 gas: `Validate` answers with the payment error, the checks of the runner pass with a fee of zero |
| `Admission.ValidationShape` | frame/ethereum/src/lib.rs:201-208 | the tags validation produces: one provided nonce tag, and the previous one required above the account nonce |
| `Admission.ConsecutiveNonces` | frame/ethereum/src/lib.rs:201-208 | in any ready pool, interleaved with others, the transactions of one signer carry consecutive nonces from the account nonce on |
| `Admission.NoncesBefore` | frame/ethereum/src/lib.rs:201-208 | the nonces provided before any position are exactly a run starting at the account nonce |
| `Admission.PendingTransactionCount` | client/rpc/src/eth.rs:521-542 | the pending count is the account nonce plus the number of ready transactions of the signer, saturating at 256 bits |
| `EthereumPallet.BlockAligned` | frame/ethereum/src/lib.rs:230-275 | after any block run transactions, statuses and receipts line up index by index, the header gas is the sum of the receipts and the root is that of the stored transactions |
| `EthereumPallet.HeadersFormAChain` | frame/ethereum/src/lib.rs:246-266 | over any list of consecutive blocks that complete, each stored header names the hash of the header stored before it, zero only when none was stored, and carries the number and fields of its environment |
| `EthereumPallet.GasAddsUp` | frame/ethereum/src/lib.rs:262-262 | the gas of a list of receipts is the sum of its parts |
| `EthereumPallet.StoresWhatWasExecuted` | frame/ethereum/src/lib.rs:295-371 | unless there is exactly one pre-log, a block run completes, and the block, statuses and receipts it stores are exactly those of the signed and executed transactions in order, with the gas, logs, status code, sender, target and contract each execution reported |
| `EthereumPallet.TransactExactly` | frame/ethereum/src/lib.rs:295-371 | when a transaction gives which error, that an error changes nothing, and that success appends one entry and changes nothing else |
| `EthereumPallet.CompletedBlockHasOneLog` | frame/ethereum/src/lib.rs:140-159 | a completed block run ends with exactly one log if and only if its initial digest held no post-log and at most one pre-log |
| `EthereumPallet.FreshBlockLog` | frame/ethereum/src/lib.rs:277-283 | without an initial log every block run completes and its one log carries the hashes of the stored block |
| `EthereumPallet.DigestExactly` | frame/ethereum/src/lib.rs:277-283 | the digest of a completed block is the initial one, the logs its calls deposited in order, and, unless there is exactly one pre-log, one post-log of this engine with the hashes of the stored block |
| `EthereumPallet.PreLogBlockIsEmpty` | frame/ethereum/src/lib.rs:146-159 | with a pre-log a block completes if and only if the pre-block is empty, and then stores no transaction |
| `EthereumPallet.Module.constructor` | frame/ethereum/src/lib.rs:84-95 | all cells start empty |
| `EthereumPallet.Module.DoTransact` | frame/ethereum/src/lib.rs:295-375 | is the specified transaction step, with its three error cases |
| `EthereumPallet.Module.StoreBlock` | frame/ethereum/src/lib.rs:230-284 | is the specified storing of block, statuses, receipts and, if asked, the post-log |
| `EthereumPallet.Module.OnFinalize` | frame/ethereum/src/lib.rs:140-144 | stores the block with a post-log exactly when no single pre-log is found |
| `EthereumPallet.Module.OnInitialize` | frame/ethereum/src/lib.rs:146-159 | clears the pending list; panics exactly on a pre-block with transactions |
| `Consensus.FindPreLog` | primitives/consensus/src/lib.rs:74-89 | the only pre-log of the digest, or whether there is none or several |
| `Consensus.OnlyPreLogExactly` | primitives/consensus/src/lib.rs:74-89 | the specified only pre-log, stated on positions of the digest: it exists exactly when one item alone is a decodable pre-log of this engine, and is that one |
| `Consensus.FindPostLog` | primitives/consensus/src/lib.rs:91-106 | the only post-log of the digest, or whether there is none or several |
| `Consensus.OnlyPostLogExactly` | primitives/consensus/src/lib.rs:91-106 | the same for post-logs |
| `Consensus.FindLog` | primitives/consensus/src/lib.rs:108-130 | the only log of either kind, or whether there is none or several |
| `Consensus.OnlyLogExactly` | primitives/consensus/src/lib.rs:108-130 | the same for logs of either kind; "not found" exactly when no item carries one |
| `Consensus.EnsureLog` | primitives/consensus/src/lib.rs:132-158 | succeeds exactly when `FindLog` does, exactly when pre- and post-logs number one in total, and fails with the same error |
| `Consensus.LogCount` | primitives/consensus/src/lib.rs:108-158 | logs are counted by pre-logs plus post-logs |
| `Consensus.FromBlock` | primitives/consensus/src/lib.rs:51-66 | header hash and the transaction hashes in order |
| `Consensus.IntoHashesExactly` | primitives/consensus/src/lib.rs:19-28 | a log gives the header hash and the transaction hashes, in order, of the block it carries, or the hashes it carries |
| `MappingDb.WriteHashesAppends` | client/db/src/lib.rs:165-204 | one commit turns an index that equals the scan of a history into one that equals the scan of the history plus the new commitment, repeated transaction hashes included |
| `MappingDb.WriteHashesColumns` | client/db/src/lib.rs:165-204 | the columns after a commit; a transaction listed several times gets one new entry, with its last position |
| `MappingDb.IndexedExactlyOnce` | client/db/src/lib.rs:165-204 | in a history of distinct blocks each block is under its own Ethereum hash once and under no other, and has one entry per transaction it contains |
| `MappingDb.NeverIndexed` | client/db/src/lib.rs:165-204 | a block that was never committed is nowhere in the scan |
| `MappingDb.LastIndex` | client/db/src/lib.rs:181-187 | the last position of a transaction hash in its block |
| `MappingDb.Backend.constructor` | client/db/src/lib.rs:62-76 | an empty database |
| `MappingDb.Backend.WriteMapping` | client/db/src/lib.rs:165-204 | the loop that reads the database and fills the batch commits the specified columns, or nothing when the commit fails |
| `MappingDb.Backend.WriteCurrentSyncingTips` | client/db/src/lib.rs:100-112 | replaces the tips, or nothing when the commit fails |
| `MappingSync.ReachableIndex` | client/mapping-sync/src/lib.rs:60-103 | in every reachable state, with imports between steps and commits failing at will, the index equals the plain scan of the indexed blocks |
| `MappingSync.IndexIsExact` | client/db/src/lib.rs:165-204 | the scan spelled out for the database: once under the own hash, never elsewhere, one entry per transaction with its last position, nothing for blocks not synced |
| `MappingSync.StepKeepsIndex` | client/mapping-sync/src/lib.rs:60-103 | every step keeps index and scan equal, whatever commits fail |
| `MappingSync.StepKeepsCoverExactly` | client/mapping-sync/src/lib.rs:60-103 | every step keeps "the parent of an indexed block is indexed or on the tip stack" if and only if the database does not accept the mapping and lose the stack of a block whose parent is neither indexed nor on the old stack, a condition on the state before the step |
| `MappingSync.StepKeepsTips` | client/mapping-sync/src/lib.rs:60-103 | whatever commits fail, the stack holds only blocks of the tree |
| `MappingSync.ReachableTips` | client/mapping-sync/src/lib.rs:60-103 | the same in every reachable state, imports included |
| `MappingSync.LostTipsCover` | client/mapping-sync/src/lib.rs:98-101 | the exact condition under which a block written without its tips leaves the invariant intact |
| `MappingSync.ReachableCover` | client/mapping-sync/src/lib.rs:60-103 | if no step lost its stack, every reachable state is covered, imports and forks included |
| `MappingSync.ImportKeeps` | client/mapping-sync/src/lib.rs:60-103 | importing blocks and forks takes effect and keeps both invariants |
| `SyncProgress.EmptyStackClosed` | client/mapping-sync/src/lib.rs:60-103 | when the stack is empty the indexed set is closed under ancestors |
| `SyncProgress.LeavesCoverTree` | client/mapping-sync/src/lib.rs:62-69 | with an empty stack and all leaves indexed, every block of the tree is indexed |
| `SyncProgress.StepKeepsDestiny` | client/mapping-sync/src/lib.rs:60-103 | from any database whose tips lie in the tree, a healthy step moves exactly one block from reached to indexed if it reports progress and none otherwise; "indexed or reached" stays the same for every block; it fails only on an unreadable block |
| `SyncProgress.RoundProgress` | client/mapping-sync/src/lib.rs:106-122 | a `sync_blocks` call with room for two steps reports "nothing left" if and only if every block is indexed, and otherwise indexes exactly one |
| `SyncProgress.RoundsCountUnindexed` | client/mapping-sync/src/lib.rs:106-122 | from any covered state over a fixed readable tree the rounds reporting progress are exactly as many as blocks were missing; afterwards all are indexed |
| `SyncProgress.RoundsIndexReached` | client/mapping-sync/src/lib.rs:106-122 | from any database whose tips lie in a readable tree, whatever was lost before: the rounds reporting progress are exactly as many as there are reached blocks, and from then on a block is indexed if and only if it was indexed at the start or some tip or leaf climbs to it through blocks not indexed |
| `SyncProgress.EveryRunEndsWithReached` | client/mapping-sync/src/lib.rs:106-122 | the same after every run with imports and failing commits, once a round reports nothing left |
| `SyncProgress.RoundKeepsDestiny` | client/mapping-sync/src/lib.rs:106-122 | a healthy round moves at most one block from reached to indexed, and answers "nothing left" if and only if nothing is reached |
| `SyncProgress.AdvanceTakesOne` | client/mapping-sync/src/lib.rs:93-101 | indexing a tip and pushing its parent takes exactly that block out of what is reached |
| `SyncProgress.CoveredReachesAll` | client/mapping-sync/src/lib.rs:60-103 | in a covered database the reached blocks are all blocks not indexed |
| `SyncProgress.SucceedingRoundIsHealthy` | client/mapping-sync/src/lib.rs:106-122 | a round in which commits may fail either reports the failure or is the healthy round |
| `SyncProgress.RoundKeepsIndex` | client/mapping-sync/src/lib.rs:106-122 | whatever commits fail inside a round, the index stays the scan of a longer history |
| `SyncCrash.LostStackLosesExactly` | client/mapping-sync/src/lib.rs:98-101 | over a fixed tree, exactly which blocks a crash between the two commits of a step costs: those reached only through the block of that step; every other block ends up as without the crash |
| `SyncCrash.LostStackReaches` | client/mapping-sync/src/lib.rs:98-101 | with the new stack lost, a block stays reached if and only if some tip or leaf climbs to it without passing the block just indexed |
| `SyncProgress.RoundsDoNotFail` | client/mapping-sync/src/lib.rs:106-122 | rounds over a readable tree never fail |
| `SyncProgress.RoundsEndOrStall` | client/mapping-sync/src/lib.rs:106-122 | over any tree, readable or not: after at most as many rounds as there are reached blocks the index stays as it is for good; it is then stuck if and only if some reached block is unreadable, and it leaves out exactly the blocks that are still reached, none if it is not stuck |
| `SyncProgress.StuckForever` | client/mapping-sync/src/lib.rs:88-101 | with an unreadable block as the operating tip every round fails and changes nothing |
| `SyncCrash.LostParentStaysLost` | client/mapping-sync/src/lib.rs:98-101 | over a fixed tree, a block that is neither indexed nor reached is not indexed by any number of rounds |
| `SyncCrash.CrashLosesParent` | client/mapping-sync/src/lib.rs:98-101 | counterexample, for any digest with one log: on a tree of a genesis block and one child two healthy rounds index both, but after a crash between the two commits of the first step no number of rounds over that tree indexes the genesis block |
| `SyncCrash.SiblingRecoversParent` | client/mapping-sync/src/lib.rs:62-69 | the limits of that loss: importing a sibling of the child makes the rounds index everything again, and a crash with the sibling already there loses nothing although it breaks the cover invariant |
| `MappingSync.PopSynced` | client/mapping-sync/src/lib.rs:73-78 | drops exactly the synced tips from the end |
| `MappingSync.NextTip` | client/mapping-sync/src/lib.rs:71-78 | the popping loop finds the last tip not synced and the stack below it |
| `MappingSync.SyncOneBlock` | client/mapping-sync/src/lib.rs:51-104 | is the specified step, including its error exits and both commits |
| `MappingSync.WorkingStep` | client/mapping-sync/src/lib.rs:72-103 | a step works on the last tip that is not synced: if both commits succeed, its hashes are written and its parent, if it has one, takes the place of the tips from there on; the result for every error and failing commit |
| `MappingSync.IdleStep` | client/mapping-sync/src/lib.rs:60-86 | with no tips and no leaves a step changes nothing; with only synced tips it clears the stack |
| `MappingSync.CommitmentExactly` | client/mapping-sync/src/lib.rs:11-50 | when a header can be indexed, under which hashes, and which error it gives otherwise |
| `MappingSync.SyncTip` | client/mapping-sync/src/lib.rs:88-103 | indexes the popped tip and persists the stack with its parent on top, with every error exit and both commits |
| `MappingSync.SyncBlock` | client/mapping-sync/src/lib.rs:11-26 | writes the hashes of the one log of the digest, or reports why it cannot |
| `MappingSync.SyncGenesisBlock` | client/mapping-sync/src/lib.rs:28-49 | writes the hash of the runtime genesis block without transactions, or reports that it is missing |
| `MappingSync.SyncManyBlocks` | client/mapping-sync/src/lib.rs:106-123 | is the specified round: no step after the first success or error, with any commit of any step failing |
| `SyncWorker.MappingSyncWorker.constructor` | client/mapping-sync/src/worker.rs:29-47 | starts with work scheduled |
| `SyncWorker.MappingSyncWorker.PollNext` | client/mapping-sync/src/worker.rs:57-106 | fires on an import, an elapsed delay or scheduled work, ends with the stream; whatever commits fail, it goes idle without an error only when no block is left that its rounds reach, which in a covered database means that every block is indexed |
| `TransactionLookup.LookupFindsTheTransaction` | client/rpc/src/eth.rs:911-950 | an answer of the lookup is right (index in bounds in the canonical block, transaction and status there those of the hash) if and only if that block carries no pre-log; it is then the block that contains the transaction; for all blocks the pallet completed, assuming collision-free hashes |
| `TransactionLookup.UniqueCanonicalTransactionResolves` | client/rpc/src/eth.rs:301-346 | for a canonical block that alone contains a transaction: the transaction resolves to its hash and index, the hash resolves to the block if and only if no other canonical block is indexed under it, and every other block under it carries a pre-log |
| `TransactionLookup.ResolvesWhenUnique` | client/rpc/src/eth.rs:337-346 | the metadata of a hash is unique if and only if exactly one indexed block, on any fork, contains it |
| `TransactionLookup.LookupExactly` | client/rpc/src/eth.rs:301-346 | the whole lookup, for blocks of any kind: it succeeds if and only if exactly one indexed block contains the hash and exactly one block indexed under its Ethereum hash is canonical, and then answers with that canonical block and the last position of the transaction in the block that contains it |
| `TransactionLookup.AnswersExactly` | client/rpc/src/eth.rs:911-950 | `transaction_by_hash` answers, and then with the transaction asked for, if and only if exactly one indexed block contains it, that block is canonical and no other canonical block is indexed under its Ethereum hash; it panics if and only if the only canonical block under that hash is another one, which then carries a pre-log |
| `LookupExamples.CopiedHeaderPanics` | client/rpc/src/eth.rs:937-945 | counterexample: a canonical block whose pre-log copies the header of a non-canonical sibling makes the lookup of the transaction in that sibling read out of bounds; all three blocks are runs of the pallet and indexed by three healthy steps |
| `LookupExamples.CopiedHeaderHides` | client/rpc/src/eth.rs:301-319 | counterexample: a canonical child whose pre-log copies the header of its canonical parent hides the transaction of the parent |
| `LookupExamples.ForkedTransactionIsNotFound` | client/rpc/src/eth.rs:337-346 | concrete counterexample: two sibling blocks with the same transaction are indexed by three healthy steps, one of them is canonical, and the transaction does not resolve |
| `TransactionLookup.ReadableExactly` | primitives/consensus/src/lib.rs:108-130 | for a completed block run the indexer finds its log if and only if the initial digest held no post-log and at most one pre-log |
| `TransactionLookup.CompletedTreeIsIndexed` | client/mapping-sync/src/lib.rs:106-122 | a tree of completed blocks is readable, so from any covered database the rounds index all of it |
| `TransactionLookup.ProducedIsIndexedFaithfully` | client/mapping-sync/src/lib.rs:11-26 | every completed block that can be indexed is stored aligned; without a pre-log it is indexed under its own header hash and transaction hashes, with one it stores no transaction and is indexed without any under the header inside the pre-log, so faithfully if and only if that header has the hash of its own |
| `TransactionLookup.Canonical` | client/rpc/src/eth.rs:301-335 | keeps exactly the canonical hashes of the list |
| `Cartesian.ComputeProduct` | client/rpc-core/src/types/filter.rs:99-119 | the loops return, for a non-empty list of lists, as many results as the product of the lengths, the n-th being the n-th choice |
| `Cartesian.ProductAt` | client/rpc-core/src/types/filter.rs:99-119 | the n-th result of the product picks the n-th choice |
| `Cartesian.RankOfChoice` | client/rpc-core/src/types/filter.rs:99-119 | distinct numbers are distinct choices |
| `Cartesian.ChoiceOfRank` | client/rpc-core/src/types/filter.rs:99-119 | every choice has a number |
| `Cartesian.ChoicesInOrder` | client/rpc-core/src/types/filter.rs:99-119 | the choices come in lexicographic order |
| `LogFilter.TopicFilterExact` | client/rpc-core/src/types/filter.rs:245-287 | the matcher accepts exactly the logs the filter, as the client sent it, asks for (position by position, with wildcards and or-lists), on every log, if and only if the filter is exact: no empty or-list, and no option beside a wildcard unless the first product decides |
| `LogFilter.PositionalAccepts` | client/rpc-core/src/types/filter.rs:38-43 | positional matching of the or-lists is what each form of topic filter asks of a log, position by position |
| `LogFilter.UnmixedTopicFilter` | client/rpc-core/src/types/filter.rs:245-287 | in particular, no log is mistreated by a filter whose or-lists are non-empty and do not mix a wildcard with topics |
| `LogFilter.ExactIsPositional` | client/rpc-core/src/types/filter.rs:245-287 | on exact filters the compiled matcher and positional matching agree on every log |
| `LogFilter.InexactFails` | client/rpc-core/src/types/filter.rs:262-279 | every other filter mistreats some log, which is constructed |
| `LogFilter.CompiledIsSound` | client/rpc-core/src/types/filter.rs:245-287 | with non-empty or-lists the matcher never accepts a log that positional matching rejects |
| `LogFilter.MixedOrListRefusesShortLog` | client/rpc-core/src/types/filter.rs:38-38 | concrete counterexample: the documented form `[null,[null,C]]` refuses a log without topics |
| `LogFilter.ComputeFlatten` | client/rpc-core/src/types/filter.rs:98-157 | the compiled form of a topic filter |
| `LogFilter.FilterBlockRange` | client/rpc-core/src/types/filter.rs:185-215 | accepts a height exactly if no numeric limit excludes it and the upper limit is not the earliest block |
| `LogFilter.FilterBlockHash` | client/rpc-core/src/types/filter.rs:217-225 | refuses exactly the blocks with another hash than the one asked for |
| `LogFilter.FilterAddress` | client/rpc-core/src/types/filter.rs:227-243 | refuses exactly the addresses that differ from the one asked for or from all those asked for |
| `LogFilter.OptionLists` | client/rpc-core/src/types/filter.rs:123-142 | one or-list per position |
| `LogFilter.Replace` | client/rpc-core/src/types/filter.rs:160-183 | wildcards become the log topics of their position; nothing past the end of the log is read |
| `LogFilter.MatchTopics` | client/rpc-core/src/types/filter.rs:245-287 | the loop with its flag, trimming and early exits computes the specified verdict |
| `LogFilter.Trim` | client/rpc-core/src/types/filter.rs:260-264 | removes exactly the trailing wildcards |
| `LogNumbering.NumberingAgrees` | client/rpc/src/eth.rs:201-264 | for every log of a block stored by the pallet, the numbering behind `logs_build`, the one behind the subscription and the receipt give the same block-wide index, index within the transaction, log and transaction |
| `LogNumbering.FilteredNumberingAgrees` | client/rpc/src/eth.rs:201-264 | with both paths filtering by any two queries: a log of a receipt is returned by `logs_build` if and only if its filter wants it, and reaches the subscriber, its number also in the transaction-index field, if and only if the subscription wants it |
| `LogNumbering.BuiltLogIsAReceipts` | client/rpc/src/eth.rs:201-264 | conversely every log `logs_build` returns is a wanted log of some transaction, with the number its receipt gives it |
| `LogNumbering.SubscribedLogIsAReceipts` | client/rpc/src/eth_pubsub.rs:127-176 | conversely every log a subscriber receives is a wanted log of some transaction, numbered as in its receipt but for the transaction-index field |
| `LogNumbering.ReceiptLogAt` | client/rpc/src/eth.rs:1036-1080 | log `i` of the receipt of transaction `t` is log `i` of transaction `t` in the numbering of the block |
| `LogNumbering.SelectKeepsNumbers` | client/rpc/src/eth.rs:229-260 | filtering keeps exactly the wanted logs, with their numbers, in increasing order |
| `LogNumbering.NumberedAt` | client/rpc/src/eth.rs:207-261 | the block-wide number of a log is the count of logs before it |
| `LogNumbering.LogsBuild` | client/rpc/src/eth.rs:201-264 | returns the wanted logs of all blocks with their block-wide numbers, whether or not others were filtered out |
| `LogNumbering.BuildBlock` | client/rpc/src/eth.rs:207-262 | the same for one block |
| `LogNumbering.BuildTransaction` | client/rpc/src/eth.rs:212-261 | the same for one transaction |
| `LogNumbering.Keep` | client/rpc/src/eth.rs:229-248 | the chain of tests keeps a log exactly when address and topics are wanted |
| `LogNumbering.WantsExactly` | client/rpc/src/eth_pubsub.rs:177-207 | which logs a query wants, on the fields of its filter: address, topics, and for a subscription the heights and the block hash |
| `LogNumbering.NewParams` | client/rpc-core/src/types/filter.rs:80-94 | compiles the topics of a filter once |
| `LogNumbering.SubscriptionLogs` | client/rpc/src/eth_pubsub.rs:127-176 | returns the wanted logs with the same numbering, the block-wide number also filling the transaction-index field |
| `LogNumbering.SubscribeReceipt` | client/rpc/src/eth_pubsub.rs:149-173 | the same for one receipt |
| `LogNumbering.AddLog` | client/rpc/src/eth_pubsub.rs:177-207 | range, block hash, address and topics all have to fit |
| `LogNumbering.TransactionReceipt` | client/rpc/src/eth.rs:1036-1080 | the logs of the receipt are its slice of the block-wide numbering, cumulative gas is the sum up to it, and the last one equals the header gas |
| `LogNumbering.BuildReceipt` | client/rpc/src/eth.rs:1036-1080 | the same from one status and the receipts of the block |
| `LogNumbering.SumGas` | client/rpc/src/eth.rs:1048-1053 | the 32-bit gas sum |
| `LogNumbering.SumLogs` | client/rpc/src/eth.rs:1057-1063 | the 32-bit count of the logs before a receipt |
| `FilterPolling.BlockSessionDeliversOnce` | client/rpc/src/eth.rs:1357-1382 | over any run of polls with non-decreasing best numbers, each with its own runtime that may fail at any height and, as after a reorganisation, may disagree with the runtimes before it: every height from creation to the cursor was scanned by exactly one successful poll and the hashes handed out are those of the blocks these polls read, in height order; the cursor is one past the best number of the last poll that succeeded |
| `FilterPolling.UpAt` | client/rpc/src/eth.rs:1361-1361 | the heights of a range are listed once each, in increasing order |
| `FilterPolling.LogSessionDeliversOnce` | client/rpc/src/eth.rs:1384-1446 | if every poll sees one best number, whatever polls fail and however the chain is reorganised between polls: every height from creation to the cursor that the numeric limits of the filter admit was scanned by exactly one successful poll, and the client has received exactly the wanted logs those polls read |
| `FilterPolling.LogSessionDelivers` | client/rpc/src/eth.rs:1384-1446 | also when the chain grows during polls, is reorganised between them, and polls fail: the client has received the wanted logs of each height once for every successful poll that scanned it, as that poll read them, and the number of those polls is the one computed from the readings |
| `FilterPolling.ScannedByMeans` | client/rpc/src/eth.rs:1357-1431 | a poll that scanned a height is one of the run, saw a best number that reaches it, and got an answer there |
| `FilterPolling.OneChainDelivers` | client/rpc/src/eth.rs:1357-1446 | without a reorganisation the hashes and the logs handed out are those of the chain |
| `FilterPolling.PollSucceedsExactly` | client/rpc/src/eth.rs:1357-1431 | a poll fails if and only if the runtime fails at one of the heights of its range, with a runtime error, or if the filter is one for pending transactions, which is not available |
| `FilterPolling.GoodPolls` | client/rpc/src/eth.rs:1372-1380 | failed polls leave the cursor alone; it follows the last successful poll |
| `FilterPolling.ScansExactly` | client/rpc/src/eth.rs:1384-1446 | the exact number of times a run scans a height, read off the readings of the polls and the numeric limits of the filter; other block tags impose nothing |
| `FilterPolling.NeverSkips` | client/rpc/src/eth.rs:1384-1446 | no height between creation and the last reading that the numeric limits of the filter admit is skipped |
| `FilterPolling.OncePerHeight` | client/rpc/src/eth.rs:1384-1446 | with one best number per poll every height from creation on that the numeric limits of the filter admit is scanned exactly once, every other one never |
| `FilterPolling.ReadUp` | client/rpc/src/eth.rs:1361-1371 | the ascending loop returns the hashes of the blocks found, or fails with the runtime |
| `FilterPolling.ReadDown` | client/rpc/src/eth.rs:1413-1431 | the descending loop, which stops at zero, returns the blocks found, or fails with the runtime |
| `FilterPolling.EthFilterApi.constructor` | client/rpc/src/eth.rs:1271-1284 | an empty pool |
| `FilterPolling.EthFilterApi.LastKey` | client/rpc/src/eth.rs:1304-1307 | the largest key, or zero |
| `FilterPolling.EthFilterApi.CreateFilter` | client/rpc/src/eth.rs:1293-1323 | adds one filter under the key one above the largest unless the pool is full, and never exceeds the limit |
| `FilterPolling.EthFilterApi.FilterChanges` | client/rpc/src/eth.rs:1345-1459 | answers and moves the cursor as specified; an unknown key or a failing read changes nothing |
| `FilterPolling.EthFilterApi.UninstallFilter` | client/rpc/src/eth.rs:1527-1543 | removes exactly the given filter and says whether it existed |
| `FilterPolling.EthFilterApi.DropStale` | client/rpc/src/eth.rs:1593-1618 | keeps exactly the filters younger than the threshold |
| `GasEstimate.Estimate` | client/rpc/src/eth.rs:866-905 | for every deterministic dry run: at most 32 probes, determined by the bisection; it panics if and only if some successful probe uses more gas than the best so far or the best so far is zero, and never if the dry run is well-behaved; otherwise the result is the gas used at the lowest successful probe, or the upper bound if the first probe failed |
| `GasEstimate.SearchEnds` | client/rpc/src/eth.rs:879-905 | every search, panicking or not, makes at most 32 probes, all within the bounds, and its best value is the gas used at the lowest limit that succeeded |
| `GasEstimate.SearchInNumbers` | client/rpc/src/eth.rs:866-905 | the search in numbers: the first probe is 1 000 000 000; every later one is the midpoint, rounded up, of the highest failure (at least 21 000) and the lowest success; it stops after a success exactly when the gas used dropped by less than 11 percent |
| `GasEstimate.SearchIsUnique` | client/rpc/src/eth.rs:879-905 | the dry run determines the list of probes |
| `GasEstimate.WellBehavedNeverPanics` | client/rpc/src/eth.rs:889-889 | no panic if used gas is positive, within the limit and does not grow when the limit shrinks |
| `GasEstimate.PerversePanics` | client/rpc/src/eth.rs:889-889 | concrete counterexample: for a dry run that uses more gas under a smaller limit the search consists of two probes and panics at the second |
| `Modexp.Execute` | frame/evm/precompile/modexp/src/lib.rs:32-112 | accepts exactly the inputs of at least the declared size whose three declared lengths are at most 1024 and whose modulus length is not zero, each other input with its own error; the output has the modulus length and the value base^exponent mod modulus |
| `Modexp.MatchesEipExactly` | frame/evm/precompile/modexp/src/lib.rs:36-72 | the output is that of EIP-198 if and only if the input holds all it declares, no declared length exceeds 1024 and the declared modulus length is positive; EIP-198 asks for an empty output if that length is zero |
| `Modexp.ErrorsExactly` | frame/evm/precompile/modexp/src/lib.rs:36-72 | which error every other input gets; the first length above 1024 decides |
| `Modexp.ShortInputRefused` | frame/evm/precompile/modexp/src/lib.rs:69-72 | concrete departure: an input whose modulus lacks its last byte, for which EIP-198 gives 9 in two bytes, is refused |
| `Modexp.Compute` | frame/evm/precompile/modexp/src/lib.rs:74-95 | the value for the parsed operands |
| `Modexp.AnswerRecurrence` | frame/evm/precompile/modexp/src/lib.rs:74-95 | the answer by recurrence on the exponent: zero for modulus zero, one modulo the modulus for exponent zero, and one more exponent multiplies by the base |
| `Modexp.Encode` | frame/evm/precompile/modexp/src/lib.rs:98-111 | big-endian encoding of exactly the modulus length, or the final error |
| `Modexp.PaddedIsBigEndian` | frame/evm/precompile/modexp/src/lib.rs:105-108 | left padding the shortest form gives the fixed-width form |
| `Modexp.AnswerFits` | frame/evm/precompile/modexp/src/lib.rs:100-111 | the answer always fits a non-zero modulus length |
| `Modexp.BytesRoundTrip` | frame/evm/precompile/modexp/src/lib.rs:98-98 | the shortest big-endian form reads back |
| `Modexp.PaddingKeepsValue` | frame/evm/precompile/modexp/src/lib.rs:105-108 | left padding keeps the value |
| `DynamicFee.PriceConverges` | frame/dynamic-fee/src/lib.rs:41-52 | with a fixed target the price moves monotonically toward it, never past it, arrives after at most as many blocks as the initial gap, and stays; for every divisor, as long as a divisor of one does not meet the largest price |
| `DynamicFee.AdjustStep` | frame/dynamic-fee/src/lib.rs:41-49 | one block moves the price towards the target by price/divisor + 1, or to the target if that is nearer, and never past it |
| `DynamicFee.AdjustPanicsExactly` | frame/dynamic-fee/src/lib.rs:43-43 | the update fails exactly for a zero divisor, or a divisor of one at the largest price |
| `DynamicFee.Module.constructor` | frame/dynamic-fee/src/lib.rs:24-29 | the configured price and no target |
| `DynamicFee.Module.NoteMinGasPriceTarget` | frame/dynamic-fee/src/lib.rs:55-63 | notes the target |
| `DynamicFee.Module.OnFinalize` | frame/dynamic-fee/src/lib.rs:41-52 | applies the noted target once and forgets it, or panics exactly when the update cannot be computed |

## Left out

- Header fields without a property here (bloom, receipts root, timestamp, author) are one opaque field; the logs bloom is not modelled.
- The EVM, its gas meter, `num`'s modular exponentiation, the balances pallet's locks and reserved balances: parameters or mathematical functions.
- Consumer reference counts in `create_account` and `remove_account`, and emitted events.
- The executor itself: `Runner.Engine.Execute` takes the balanced trace of what it does to the substate.
- `Currency::transfer` inside an execution: any other runtime write is a generic host write; its effect on the ledger is given to `Runner.Engine.Execute` as an outcome that moves money but does not make it.
- Decoding errors of the database, write locks, and concurrent access to the filter pool.
- Pruning of pending transactions, the `logs` and `filter_logs` requests (same scan as a log poll without a cursor), and every RPC that only forwards a value.
- The bn128, ed25519, sha3fips, simple, dispatch and blake2 precompiles, storage overrides, node wiring and command line.
- SyncWorker.MappingSyncWorker.PollNext: wake-ups, time, the notification stream and the database's answers are inputs of the call.
- FilterPolling.BlockSessionDeliversOnce: for best numbers that do not decrease from poll to poll and stay below 2^32 - 1.
- GasEstimate.Estimate: the dry run is a function of the gas limit; one that answers differently from probe to probe is not modelled.
- LogNumbering.TransactionReceipt: for gas and log sums below 2^32; above, the source panics or wraps.
- LogNumbering.LogsBuild: for blocks with fewer than 2^32 logs, the width of its counters.
- EthereumPallet.BlockAligned: the header's gas sum is unbounded; 256-bit overflow of that sum is not modelled.
- FilterPolling.EthFilterApi.CreateFilter: keys are unbounded; the 256-bit overflow check of the source is not modelled.
- FilterPolling.EthFilterApi.DropStale: the 64-bit addition of creation height and threshold does not wrap.
- TransactionLookup.LookupFindsTheTransaction: for blocks with at most 2^32 transactions, in which no other pallet deposits a log of this engine.
