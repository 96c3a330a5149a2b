# From the committed DAG to blocks

The consensus layer commits a DAG of transactions round by round; the execution client cuts the
rounds into batches, orders each batch into a proposal, packs the proposal into a block and hands
the block to execution. This project models that path in Dafny and proves what it promises, for
every input and every run. It also models the other concurrent or looping pieces that carry
transactions: the read-transaction pool of the database, the two transaction batchers, the Merkle
root over transactions, the committee arithmetic and addresses, and the batch sender of the
integration tests.

`dafny verify dfyconfig.toml` checks the whole project.

## How it is organised

| file | what it models |
|---|---|
| `Types.dfy`, `Sequences.dfy` | transactions, sub-DAGs, keys; concatenation and subsequences |
| `Ordering.dfy`, `OrderingLaws.dfy` | `create_proposal_transactions`: the loops over a map of ordered maps, proved equal to the function `Reorder`; what `Reorder` means; fixpoints and composition |
| `Pool.dfy`, `PoolLaws.dfy` | `ConsensusPool` as a class, proved against functions on `PoolState`; proposals, and the pending list over a run of blocks |
| `Packing.dfy`, `PackingLaws.dfy` | the payload loop, proved equal to the function `Pack`; accounting, nonces, and the `mark_invalid` that does nothing |
| `BlockRuns.dfy` | pool and payload loop together over runs of blocks: no double inclusion, batching invariance |
| `Pipeline.dfy`, `PipelineLaws.dfy` | `start_with_pipeline_api` as a transition system in which receiving a result is one step; safety of every run, agreement between nodes |
| `SplitResults.dfy`, `SplitResultsLaws.dfy` | the same protocol with the three writes of a result as steps of their own: exactly when it still keeps the chain, and exactly when it panics |
| `PipelineRuns.dfy` | pipeline, pool and execution together: every consumed transaction is executed, pending or replaced, and account nonces depend on the consumed rounds only |
| `EngineLoop.dfy`, `EngineLoopLaws.dfy` | `start_with_engine_handle`: asking for payloads, building them beside the loop, the bounded buffer, and which batch a match consumes |
| `EngineRuns.dfy` | that loop with payloads built by the packing loop, one at a time: it is the run of blocks |
| `ParallelTx.dfy`, `ParallelTxLaws.dfy` | `ParallelTxRO` as atomic actions of any number of threads |
| `MerkleRoot.dfy`, `Batchers.dfy`, `Committee.dfy`, `BatchSender.dfy` | the smaller pieces |

A class stands for an object the program updates in place. Each of its methods is proved against a
function of its old state (`View()`), and the laws are about those functions. A protocol is a
function `Apply` on a state and an event, `After` folds it over a list of events, and a law over
every run is a law over every such list.

## What is assumed

- A transaction executes only at its sender's account nonce, raises only that nonce, and uses no more
  gas than its limit (`Lawful`; section 6 of the Ethereum Yellow Paper). Everything else about
  execution, blob sidecars, fees and cancellation is a parameter.
- Each method of the pool is one atomic step, although it takes several locks.
- In `Pipeline`, receiving an execution result is one step. The code writes the canonical number, the pool and the
  epoch one after the other (`mysticeti.rs` lines 348, 352 and 359) beside its main loop; `SplitResults` makes these
  three steps, and its laws say exactly what that changes (see below).
- A tick is one step, although it reads the pool twice and the epoch once more. `SplitResultsLaws.TickReadsOnce`
  justifies this for every moment but those at which the pool or the epoch is behind; `TornTick` says what
  happens when the pool is.
- Execution reports each pushed block once, in order, and a round that is committed again carries the
  same sub-DAG (`FromDag`, `Permitted`).
- In `PipelineRuns`, execution handles an ordered block by the packing loop's rule, and its result lists exactly
  the transactions it included (`Reported`); the source takes every hash in the result's `txs_info`
  (`mysticeti.rs` line 347) and shows neither.
- Where a law needs transaction hashes to identify transactions it says so (`HashesIdentify`).
- keccak-256 and the hash behind a block id are parameters; no law needs them to be injective.
- Of `ParallelTxRO`, a section under the mutex together with its one atomic load is one action; a created
  transaction is not already in the table; a cursor runs its drop function once.

## Where the code and its descriptions differ

- `mark_invalid` is described in `payload/builder.rs` (lines 527-529, 553-556, 612-613) as removing the
  dependants of a rejected transaction; `payload/best.rs` makes it do nothing. The model follows the code,
  and `PackingLaws.NoOpMarkInvalidIff` says exactly when the two agree: no sender may have both a
  transaction below its account nonce and one at it. (A transaction below its account nonce is reported as too
  low and not marked, unless execution refuses it whatever the state is, or it does not fit.)
- The capacity check adds two `u64` (`payload/builder.rs` line 526). It is exact if and only if the sum
  does not wrap around (`CapacityCheck`). Whether a payload can then exceed the gas limit depends on the
  execution, which the source does not show: `WrapBreaksLimit` uses one that accepts a transaction claiming more
  gas than the block has; if execution refuses those, the limit holds if and only if twice the block gas limit
  fits into `u64` (`LimitHoldsExactly`). A build with overflow checks panics where the sum wraps.
- `get_proposal_transactions` guards its assertion by the size of the queue (`pool.rs` line 294). A complete
  batch always passes the guard (`ReadyPassesGuard`). The guard is right for every batch size if and only if
  the queued rounds are the next ones without a gap (`GuardExactly`); for one batch size it lets an incomplete
  batch through, and the assertion fires, exactly when other queued rounds make up for the missing ones
  (`GuardMisjudges`), for which a consumed round committed again is enough (`OldRoundFoolsGuard`). Of the two
  callers, `try_build_next_ordered_block` looks for a complete batch first and cannot fire it; the payload builder's
  `try_build` (`payload/builder.rs` line 355) does not look and can (`BlockRuns.TryBuild`).
- The first block is headed by a sub-DAG that happens to have arrived, so two nodes need not agree on it
  (`FirstBlocksMayDiffer`). The blocks they push agree if and only if the sub-DAGs that open them, which
  `Opening` reads off the arrivals and ticks alone, have the same second and the same leader (`Agreement`).
- Nothing keeps the engine-handle loop from asking for several payloads of one number before the first arrives
  (`TicksAskAgain`). Then a match may consume a batch its payload was not built from
  (`SecondPayloadTakesNextBatch`). It consumes the right one exactly when no payload was matched since the builder
  sent it (`OwnsExactly`), and always when payloads are built one at a time (`OneAtATimeMatchesOwn`).
- That loop panics for lack of a payload exactly on a canonical tip of 0 while nothing is processing
  (`UnwrapsNoneExactly`), and for lack of a batch exactly on a match while the batch is incomplete
  (`MissesBatchExactly`).
- A tick between the writes of a result is not harmless. While the canonical number is written and the pool has yet
  to advance, which is from block 2 on (`mysticeti.rs` line 349), a push repeats the transactions of the block just
  executed (`MistimedRepeats`); while the epoch is about to change, it carries the old one. Between results, every
  block was built from the batch its result consumes and carries the right epoch if and only if none was pushed at
  such a moment (`TimelyExactly`), and then the run never panics and keeps all that the one-step protocol keeps
  (`TimelySafety`). A run panics if and only if the result of a block pushed while the pool was behind arrives
  while the next batch is incomplete (`SplitResultsLaws.PanicsExactly`); from any such moment with no further batch
  committed, a push leads there (`MayPanic`).
- Re-ordering a part of the input first is harmless, whatever follows, if and only if the part has no
  duplicate sender and nonce (`ReorderComposesIff`).
- `ParallelTxRO` begins to share exactly when a call decides while all slots are taken and every auxiliary
  transaction is held (`SharingBegins`, and over runs `SharesExactly`). So nothing is shared while a slot has been free
  all the time, even if creations fail (`NeverFullUnshared`). That a slot is free now is not enough: a failed
  creation may give one back after sharing has begun (`SharedBelowLimitAfterFailure`).
- The Merkle root does not bind the length. For any two different lengths from 1 on, and whatever the hash, there
  are lists with one root, and the empty list has the root of the list of one empty transaction (`SharedRoot`). In
  all other cases, equal lengths above all, two lists with one root yield a collision (`LengthsBindExactly`).
- The batch sender redraws a recipient until it is not the sender. With a single account this never ends
  (`LoneAccountNeverEnds`), so no totals are returned although the command line allows one sender; a random
  source with which it always ends exists if and only if there are two accounts or more (`DrawsEndExactly`).
- The broadcast channel before the batchers overwrites its oldest message when a message is published while it is
  full, and only then is anything lost before the loops (`LosesExactly`). A message of the subscription whose sending
  fails is lost without notice (`FailsExactly`); with none the two loops are one queue (`ChainIsQueue`), and left alone
  it empties (`RunsDry`).
- The comments on the batch timers say 10 ms and 1 second; both constants are 100 ms. The batch sender's
  comment caps the workers at 8, its code at 32. The comment on a block's
  proposer says commit digest, the code takes the leader's address. `hash.rs` is not declared in `engine_api/mod.rs`.

## Model

| member | source | states |
|---|---|---|
| Ordering.CreateProposalTransactions | execution-client/src/consensus/pool.rs:228-284 | the fill and pop loops compute `Reorder`: every position goes to the next transaction in its sender's queue, or vanishes |
| Ordering.Record | execution-client/src/consensus/pool.rs:244-258 | filling keeps, per sender, exactly the latest transaction of each nonce |
| Ordering.Drain | execution-client/src/consensus/pool.rs:268-281 | popping refills one position after the other and leaves the rest of each queue in the maps |
| Ordering.PopStep | execution-client/src/consensus/pool.rs:269-272 | the `unwrap` finds its sender's map, and one pop refills exactly one position |
| Ordering.Drained | execution-client/src/consensus/pool.rs:268-281 | after the last position every sender's map is empty |
| OrderingLaws.LatestMeaning | execution-client/src/consensus/pool.rs:245-258 | an entry of the maps is the last transaction committed with its sender and nonce, and conversely |
| OrderingLaws.QueueMeaning | execution-client/src/consensus/pool.rs:244-272 | a sender's queue ascends by nonce and holds exactly the last writers of its nonces |
| OrderingLaws.QueueIsDistinctNonces | execution-client/src/consensus/pool.rs:244-272 | a queue is as long as its sender has distinct nonces |
| OrderingLaws.ReorderProjects | execution-client/src/consensus/pool.rs:228-284 | each sender's part of the output is its whole queue and nothing else |
| OrderingLaws.ReorderContents | execution-client/src/consensus/pool.rs:228-284 | the output holds exactly the last writers, ascends per sender and has no duplicate key |
| OrderingLaws.ReorderKeys | execution-client/src/consensus/pool.rs:228-284 | keys in are keys out, and the length is the number of distinct keys |
| OrderingLaws.ReorderAt | execution-client/src/consensus/pool.rs:267-281 | occurrence `r` of a sender becomes its last-written transaction with exactly `r` smaller nonces; a surplus occurrence disappears |
| OrderingLaws.DeterminedBySenders | execution-client/src/consensus/pool.rs:267-281 | the senders by position and each sender's own list determine the whole list |
| OrderingLaws.ReorderFixpoint | execution-client/src/consensus/pool.rs:226-228 | a list is left as it is if and only if every sender's nonces already ascend |
| OrderingLaws.ReorderIdempotent | execution-client/src/consensus/pool.rs:228-284 | ordering twice is ordering once |
| OrderingLaws.ReorderComposes | execution-client/src/consensus/pool.rs:228-284 | ordering a part first never changes any one sender's list |
| OrderingLaws.ReorderComposesIff | execution-client/src/consensus/pool.rs:228-284 | it changes nothing at all, whatever follows, if and only if the part has no duplicate key |
| Pool.ConsensusPool.constructor | execution-client/src/consensus/pool.rs:66-76 | an empty pool whose next round is 1 |
| Pool.ConsensusPool.AddCommittedSubdags | execution-client/src/consensus/pool.rs:204-225 | the new state: sub-DAGs inserted by round, later ones overwriting, and the first one ever added remembered |
| Pool.ConsensusPool.GetFirstCommittedSubdag | execution-client/src/consensus/pool.rs:83-91 | the loop finds `FirstStamped` of the queue |
| Pool.ConsensusPool.NextCommittedSubdagBatch | execution-client/src/consensus/pool.rs:112-136 | a result if and only if the next batch is complete and not empty, and then its first and last sub-DAG |
| Pool.ConsensusPool.GetProposalTransactions | execution-client/src/consensus/pool.rs:290-313 | nothing while the queue is short, else the ordered pending list and batch; no result exactly when the assertion fires; the state is unchanged |
| Pool.ConsensusPool.UpdateMinedBlock | execution-client/src/consensus/pool.rs:325-352 | the index advances by one batch; exactly the batch leaves the queue; pending become, in the order of the proposal, exactly its transactions that were not mined |
| Pool.ConsensusPool.TakeBatch | execution-client/src/consensus/pool.rs:331-340 | takes exactly the next rounds out of the queue, in order |
| Pool.Retain | execution-client/src/consensus/pool.rs:347 | `retain` keeps exactly the positions whose hash was not mined, in order |
| PoolLaws.ReadyPassesGuard | execution-client/src/consensus/pool.rs:294-305 | a complete batch passes the size guard |
| PoolLaws.GuardExactly | execution-client/src/consensus/pool.rs:294-305 | the size guard is right for every batch size if and only if the queued rounds are the next ones without a gap |
| PoolLaws.GuardMisjudges | execution-client/src/consensus/pool.rs:294-305 | for one batch size the assertion behind the guard fires exactly when other queued rounds make up for the missing ones |
| PoolLaws.OldRoundFoolsGuard | execution-client/src/consensus/pool.rs:294-305 | a consumed round committed again lets a batch through whose last round is missing, whatever its size |
| PoolLaws.InsertedRounds | execution-client/src/consensus/pool.rs:217-219 | queued are the rounds queued before and those added |
| PoolLaws.InsertedLast | execution-client/src/consensus/pool.rs:217-219 | a queued round holds the last sub-DAG added for it |
| PoolLaws.InsertedFrom | execution-client/src/consensus/pool.rs:217-219 | a queued sub-DAG was queued before or is one of those added, under its own round |
| PoolLaws.FirstStampedMeaning | execution-client/src/consensus/pool.rs:83-91 | it is the sub-DAG of the lowest queued round with a timestamp, and missing only if there is none |
| PoolLaws.ConsumedExactly | execution-client/src/consensus/pool.rs:325-352 | a mined block moves the index by one batch, takes exactly those rounds from the queue and leaves the rest as it was; what it leaves pending is the proposal in order, without the mined positions |
| PoolLaws.ProposalStable | execution-client/src/consensus/pool.rs:286-350 | whatever is added in between, a complete batch stays complete and the list recomputed at execution is the list proposed |
| PoolLaws.BatchIsRounds | execution-client/src/consensus/pool.rs:331-340 | a batch holds the transactions of exactly the next `k` rounds, in order |
| PoolLaws.PendingAscends | execution-client/src/consensus/pool.rs:325-352 | after any run of blocks the pending list ascends per sender and has no duplicate key |
| PoolLaws.PendingStep | execution-client/src/consensus/pool.rs:325-352 | one block leaves pending what is not mined and was left over unreplaced or is a last writer of the batch |
| PoolLaws.PendingExactly | execution-client/src/consensus/pool.rs:325-352 | after any run, pending are exactly the consumed transactions neither mined since nor replaced by a later one with the same key |
| Packing.BestMysticetiTransactions.Next | execution-client/src/payload/best.rs:50-54 | pops the front |
| Packing.BestMysticetiTransactions.MarkInvalid | execution-client/src/payload/best.rs:28-37 | changes nothing |
| Packing.MysticetiEthereumPayload | execution-client/src/payload/builder.rs:517-650 | the loop computes `Pack` with all counters, totals and error exits, and consumes the whole proposal when it builds; `DecidesExactly` and `StopsExactly` say what that is |
| PackingLaws.CapacityCheck | execution-client/src/payload/builder.rs:526 | the check is exact if and only if the `u64` sum does not wrap around |
| PackingLaws.WrapBreaksLimit | execution-client/src/payload/builder.rs:526-540 | with a wrapping sum, an execution that accepts any gas limit may build a payload above the block's |
| PackingLaws.LimitHoldsExactly | execution-client/src/payload/builder.rs:526-540 | under executions that refuse gas limits above the block's, the limit holds if and only if twice the limit fits into `u64` |
| PackingLaws.TakeBalanced | execution-client/src/payload/builder.rs:629-647 | including a transaction adds its gas, its fee and its blobs to the totals, within both limits |
| PackingLaws.DecidesExactly | execution-client/src/payload/builder.rs:520-650 | what one transaction does to a build, given what the earlier ones left: it ends the job exactly if its gas fits and the job is cancelled, it ends the build exactly if it comes to the blob store or to execution and these fail, and otherwise exactly one counter grows or it is included, each exactly when |
| PackingLaws.StopsExactly | execution-client/src/payload/builder.rs:539-627 | a whole build is cancelled, or fails, if and only if it reaches a transaction at which that happens |
| PackingLaws.SidecarsGood | execution-client/src/payload/builder.rs:575-598 | every blob transaction included has a good sidecar |
| PackingLaws.PayloadBalanced | execution-client/src/payload/builder.rs:517-690 | totals are the sums over the included transactions, these are a subsequence of the proposal within the limits, and looked at = included + five rejection counters |
| PackingLaws.PayloadConsecutive | execution-client/src/payload/builder.rs:602-627 | each sender's included nonces run from its account nonce on without a gap, and its account nonce ends behind them |
| PackingLaws.ConsecutiveDistinct | execution-client/src/payload/builder.rs:602-627 | so no sender and nonce is included twice |
| PackingLaws.DroppingSame | execution-client/src/payload/builder.rs:526-627 | the two loops stay in step while they differ only by transactions that cannot execute |
| PackingLaws.NoOpMarkInvalid | execution-client/src/payload/best.rs:28-37 | on a list in nonce order without a stale transaction before a due one, the dependant-dropping loop builds the same payload |
| PackingLaws.NoOpMarkInvalidIff | execution-client/src/payload/best.rs:28-37 | ... and that condition is exact over all executions that report stale nonces as too low unless they refuse the transaction in every state |
| BlockRuns.TryBuild | execution-client/src/payload/builder.rs:351-371 | builds from the pool's proposal when a batch is complete, an empty payload while the queue is short, and nothing exactly when the assertion in the pool fires |
| BlockRuns.RunConsecutive | execution-client/src/payload/builder.rs:602-627 | over any run under any limits each sender's included nonces run from genesis without a gap or repetition |
| BlockRuns.ProposalRefines | execution-client/src/payload/builder.rs:526-627 | on the pool's proposals the no-op and the dependant-dropping loop agree under every such execution if and only if no sender has a stale and a due transaction in the input |
| BlockRuns.IncludedOrLeft | execution-client/src/consensus/pool.rs:341-350 | a block includes or leaves pending every last writer of its input, and nothing else |
| BlockRuns.RunConserves | execution-client/src/consensus/pool.rs:325-352 | over any run under any limits, every consumed transaction that no later one replaced is mined or pending, and nothing else is |
| BlockRuns.PackGap | execution-client/src/payload/builder.rs:526-650 | a block with room moves each account nonce to the least one missing from the proposal |
| BlockRuns.LeftPending | execution-client/src/consensus/pool.rs:342-349 | a block leaves pending every nonce at or above the new account nonce |
| BlockRuns.RunSettled | execution-client/src/consensus/pool.rs:325-352 | over a run with room the account nonce is the least one missing from all consumed transactions, and what lies above it is still pending |
| BlockRuns.BatchingInvariance | execution-client/src/consensus/pool.rs:290-352 | runs that consume the same keys end with the same account nonces, however these are ordered and cut into blocks |
| BlockRuns.RoundsPerBlockInvariance | execution-client/src/consensus/pool.rs:66-76 | in particular for any two numbers of sub-DAGs per block over the same rounds |
| Pipeline.MysticetiConsensus.constructor | execution-client/src/consensus/mysticeti.rs:170-194 | the initial state: nothing ordered, canonical number 0, epoch 1, an empty pool |
| Pipeline.MysticetiConsensus.TryBuildNextOrderedBlock | execution-client/src/consensus/mysticeti.rs:449-488 | nothing while a block is in flight or the batch is incomplete, else the next block; the assertion in the pool cannot fire |
| Pipeline.MysticetiConsensus.BuildOrderedBlock | execution-client/src/consensus/mysticeti.rs:516-614 | number, parent, id, timestamp, epoch, proposer and the fixed fields, and beside each transaction its own sender |
| Pipeline.MysticetiConsensus.OnTick | execution-client/src/consensus/mysticeti.rs:377-429 | with a refused push, or nothing to build, the state is what it was; otherwise the block built is ordered, in flight and pushed, and nothing else changes |
| Pipeline.MysticetiConsensus.WriteCanonical | execution-client/src/consensus/mysticeti.rs:348 | the state after the first write of a result |
| Pipeline.MysticetiConsensus.AdvancePool | execution-client/src/consensus/mysticeti.rs:349-356 | the state after the second one; the pool advances from block 2 on |
| Pipeline.MysticetiConsensus.WriteEpoch | execution-client/src/consensus/mysticeti.rs:357-365 | the state after the third one |
| Pipeline.MysticetiConsensus.OnExecutionResult | execution-client/src/consensus/mysticeti.rs:324-370 | with nothing in between, the three are the one step of the protocol |
| PipelineLaws.SubmitKeeps | execution-client/src/consensus/pool.rs:204-225 | the invariant of the protocol survives any committed sub-DAGs |
| PipelineLaws.TickKeeps | execution-client/src/consensus/mysticeti.rs:377-429 | ... any tick |
| PipelineLaws.ExecutedKeeps | execution-client/src/consensus/mysticeti.rs:324-370 | ... and any result, without firing the assertion in the pool |
| PipelineLaws.BuiltBlock | execution-client/src/consensus/mysticeti.rs:449-614 | a block built in a good state is the one block that continues the chain |
| PipelineLaws.SubmitExactly | execution-client/src/consensus/pool.rs:204-225 | submitting changes the queue and nothing else: a round holds the last sub-DAG submitted for it |
| PipelineLaws.TickExactly | execution-client/src/consensus/mysticeti.rs:377-488 | in every state: a tick pushes a block if and only if one can be built and the pipeline takes it; which block, and what changes |
| PipelineLaws.ExecutedExactly | execution-client/src/consensus/mysticeti.rs:324-370 | in every state: when a result panics, and what it does to the canonical number, the epoch and, from block 2 on, the pool |
| PipelineLaws.RefusedPushesVanish | execution-client/src/consensus/mysticeti.rs:390-424 | a run without its refused pushes ends in the same state |
| PipelineLaws.PushedAtMost | execution-client/src/consensus/mysticeti.rs:390-424 | no run pushes more blocks than it has ticks whose push succeeds |
| PipelineLaws.Safety | execution-client/src/consensus/mysticeti.rs:307-430 | when a result is one step, no run panics, and every run keeps the invariant |
| PipelineLaws.RunNumbers | execution-client/src/consensus/mysticeti.rs:324-429 | the last ordered block is the canonical one or its successor, and the pool has consumed `k` rounds per canonical block from 2 on |
| PipelineLaws.RunBlocks | execution-client/src/consensus/mysticeti.rs:449-614 | pushed blocks are numbered without a gap, name their predecessor, carry beside each transaction its own sender, and block `n >= 2` carries the pending list and the next `k` rounds, ordered |
| PipelineLaws.RoundsInOrder | execution-client/src/consensus/pool.rs:325-352 | the executed blocks consumed rounds `1` to `k (n - 1)`, each once and in order |
| PipelineLaws.InFlightStable | execution-client/src/consensus/mysticeti.rs:346-356 | in every state the list execution will recompute is the one the block in flight carries |
| PipelineLaws.TickBetweenRepeatsBlock | execution-client/src/consensus/mysticeti.rs:348-352 | between writing the canonical number and advancing the pool, a tick would propose the executed block's transactions again |
| PipelineLaws.NothingLost | execution-client/src/consensus/pool.rs:325-352 | after any run of the protocol, pending are exactly the consumed transactions neither mined nor replaced since |
| PipelineLaws.RunOpens | execution-client/src/consensus/mysticeti.rs:478-485 | the first block pushed is the empty one headed by the sub-DAG that `Opening` finds from arrivals and ticks, and there is none before |
| PipelineLaws.Agreement | execution-client/src/consensus/mysticeti.rs:307-430 | the blocks of two nodes agree as far as both go if and only if the sub-DAGs that open them have the same second and the same leader, or one has none yet |
| PipelineLaws.ProposerExactly | execution-client/src/consensus/mysticeti.rs:581-596 | a proposer is found exactly for `0x` and 64 hexadecimal digits, and it is the 32 bytes these spell |
| PipelineLaws.FirstBlocksMayDiffer | execution-client/src/consensus/mysticeti.rs:478-485 | two nodes that hear of different rounds first push different first blocks |
| SplitResultsLaws.RunKeeps | execution-client/src/consensus/mysticeti.rs:324-429 | with the writes split, every run keeps numbers, tips and the task's order, and ties the rounds and the epoch of each block to the moment it was pushed |
| SplitResultsLaws.ConsumesOwnExactly | execution-client/src/consensus/mysticeti.rs:346-356 | in every run a block consumes the batch it was built from if and only if it was not pushed while the pool was behind |
| SplitResultsLaws.EpochRightExactly | execution-client/src/consensus/mysticeti.rs:357-365 | in every run a block carries the epoch in force after its predecessors if and only if it was not pushed while the epoch was about to change |
| SplitResultsLaws.PanicsExactly | execution-client/src/consensus/mysticeti.rs:349-352 | a run panics if and only if the result of a block pushed while the pool was behind meets an incomplete batch |
| SplitResultsLaws.PushInWindow | execution-client/src/consensus/mysticeti.rs:349-365 | a push beside a result whose pool and epoch are in place is the push that would follow it |
| SplitResultsLaws.TimelySafety | execution-client/src/consensus/mysticeti.rs:324-429 | a run without a push while the pool or the epoch is behind never panics and keeps the invariant of the one-step protocol |
| SplitResultsLaws.TimelyExactly | execution-client/src/consensus/mysticeti.rs:348-359 | between results, all blocks have their own batch and the right epoch if and only if no push came at such a moment |
| SplitResultsLaws.MistimedRepeats | execution-client/src/consensus/mysticeti.rs:348-352 | a push while the pool is behind repeats the transactions of the block whose result is arriving |
| SplitResultsLaws.MayPanic | execution-client/src/consensus/mysticeti.rs:348-352 | from any such moment with no further batch committed, a push leads to the panic |
| SplitResultsLaws.TickReadsOnce | execution-client/src/consensus/mysticeti.rs:449-530 | unless the pool or the epoch is behind, whatever happens between a tick's reads, they give what they would have given at once |
| SplitResultsLaws.TickSettled | execution-client/src/consensus/mysticeti.rs:449-488 | and that is so at every tick of every run that builds on a block |
| SplitResultsLaws.TornTick | execution-client/src/consensus/mysticeti.rs:456-476 | while the pool is behind, a tick may fetch the next batch, nothing, or fail the pool's assertion, each exactly when |
| PipelineRuns.Refines | execution-client/src/consensus/mysticeti.rs:324-429 | executing the pushed blocks is the run of the batches of rounds, and the pool holds what that run leaves pending |
| PipelineRuns.ExecutedOrPending | execution-client/src/consensus/mysticeti.rs:324-429 | over any run of the protocol, every transaction of the consumed rounds that no later one replaced is executed or pending, nothing else is, and none is executed twice |
| PipelineRuns.SameRoundsSameNonces | execution-client/src/consensus/mysticeti.rs:307-430 | two nodes that consumed the same rounds have the same account nonces, whatever their batch sizes, arrivals, ticks and failed pushes |
| EngineLoop.MysticetiEngine.OnBuiltPayload | execution-client/src/consensus/mysticeti.rs:639-680 | the payload received becomes the last one built and joins the buffer, whose oldest one is dropped if it holds ten; the front is executed when nothing is, and nothing else changes |
| EngineLoop.MysticetiEngine.OnCanonicalState | execution-client/src/consensus/mysticeti.rs:682-718 | if and only if the processing payload has the number of the tip, it is matched: the pool advances by one batch and the next payload is executed; otherwise only the canonical number changes |
| EngineLoop.MysticetiEngine.OnTick | execution-client/src/consensus/mysticeti.rs:719-739 | a child of the last payload received is asked for if and only if that one is canonical or missing and the next batch is there and not empty; nothing else changes |
| EngineLoopLaws.TicksExactly | execution-client/src/consensus/mysticeti.rs:719-739 | so at every tick of every run |
| EngineLoopLaws.BuildExactly | execution-client/src/payload/builder.rs:351-398 | an answer takes its request away and is a child of the parent asked for, from the next round if enough rounds are queued; there is none exactly when these leave a gap |
| EngineLoopLaws.ReceiveKeeps | execution-client/src/consensus/mysticeti.rs:639-680 | a received payload keeps the bound and the order of the buffer |
| EngineLoopLaws.AnswerKeeps | execution-client/src/payload/builder.rs:351-398 | a built payload, whatever its transactions, joins the end of what is outstanding |
| EngineLoopLaws.AdvancePool | execution-client/src/consensus/mysticeti.rs:682-712 | a matched payload consumes exactly the next `k` rounds |
| EngineLoopLaws.RunKeeps | execution-client/src/consensus/mysticeti.rs:636-741 | in every run at most ten payloads are buffered, none while nothing is processing; what is matched or outstanding is a subsequence of what was built, all of it if and only if nothing was dropped; what is buffered or on its way was built last; the pool has advanced one batch per match |
| EngineLoopLaws.UnwrapsNoneExactly | execution-client/src/consensus/mysticeti.rs:688-692 | a run unwraps a missing payload if and only if a tip of 0 arrives while nothing is processing |
| EngineLoopLaws.NeverUnwrapsNone | execution-client/src/consensus/mysticeti.rs:688-692 | so never while canonical tips are 1 or higher |
| EngineLoopLaws.MissesBatchExactly | execution-client/src/consensus/mysticeti.rs:690-700 | a run fails the pool's assertion if and only if an update matches the processing payload while the next batch is incomplete |
| EngineLoopLaws.OwnsExactly | execution-client/src/consensus/mysticeti.rs:690-700 | a payload still owns the batch a match would consume if and only if it was built from a complete one and none has been matched since |
| EngineLoopLaws.OwnMatchAdvances | execution-client/src/consensus/mysticeti.rs:690-700 | matching a payload that owns the next batch finds it complete and consumes it, in every run |
| EngineLoopLaws.OneAtATimeMatchesOwn | execution-client/src/consensus/mysticeti.rs:636-741 | if payloads are built one at a time, every match consumes the batch its payload was built from and no batch is ever missing |
| EngineLoopLaws.TicksAskAgain | execution-client/src/consensus/mysticeti.rs:719-734 | any number of ticks ask for a payload of the same number until one arrives |
| EngineLoopLaws.SecondPayloadTakesNextBatch | execution-client/src/consensus/mysticeti.rs:690-734 | so two payloads may be built from one batch, and matching the second consumes a batch it was not built from |
| EngineRuns.EngineFollowsRun | execution-client/src/consensus/mysticeti.rs:636-741 | with payloads packed from the pool's proposal, one at a time, the matched payloads are the blocks of the run of the batches of rounds, and the pool holds what that run leaves pending |
| EngineRuns.EngineIncludesOnce | execution-client/src/payload/builder.rs:351-371 | so nothing is included twice, nonces run on without a gap, and every consumed transaction is mined, pending or replaced |
| ParallelTx.ParallelTxRO.constructor | crates/storage/db/src/implementation/mdbx/parallel_tx.rs:57-73 | eight slots, one of them taken by the first transaction |
| ParallelTx.ParallelTxRO.TryFastPath | crates/storage/db/src/implementation/mdbx/parallel_tx.rs:104-106 | the compare-exchange takes the first transaction if and only if its count is 0 |
| ParallelTx.LeastHeld | crates/storage/db/src/implementation/mdbx/parallel_tx.rs:114-116 | the first index with the lowest count |
| ParallelTx.ParallelTxRO.FindLeastHeld | crates/storage/db/src/implementation/mdbx/parallel_tx.rs:114-116 | the search finds that index |
| ParallelTx.ParallelTxRO.Choose | crates/storage/db/src/implementation/mdbx/parallel_tx.rs:109-141 | the section under the mutex, including the reservation of a slot |
| ParallelTx.ParallelTxRO.FinishCreate | crates/storage/db/src/implementation/mdbx/parallel_tx.rs:81-96 | a created transaction is pushed with one holder, a failed creation gives its slot back |
| ParallelTx.ParallelTxRO.CountFirst | crates/storage/db/src/implementation/mdbx/parallel_tx.rs:126-139 | the fetch-add on the first transaction |
| ParallelTx.ParallelTxRO.PostTxExecution | crates/storage/db/src/implementation/mdbx/parallel_tx.rs:161-194 | a release neither underflows nor leaves the table, given the invariant |
| ParallelTx.LeaseIsCounted | crates/storage/db/src/implementation/mdbx/parallel_tx.rs:188-194 | a lease's count is positive and its index still names its transaction |
| ParallelTxLaws.StepConserves | crates/storage/db/src/implementation/mdbx/parallel_tx.rs:75-194 | one action of one thread keeps every count equal to the outstanding leases and the slots within the limit |
| ParallelTxLaws.MovesItsOwner | crates/storage/db/src/implementation/mdbx/parallel_tx.rs:99-194 | an action moves its own owner only; a lease passes from a call to its cursor unchanged and ends with a release and nothing else |
| ParallelTxLaws.SharingBegins | crates/storage/db/src/implementation/mdbx/parallel_tx.rs:110-141 | an action begins sharing if and only if it decides while all slots are taken and every auxiliary transaction is held |
| ParallelTxLaws.SharesExactly | crates/storage/db/src/implementation/mdbx/parallel_tx.rs:75-144 | a run shares at some point if and only if such an action occurs in it |
| ParallelTxLaws.EveryInterleaving | crates/storage/db/src/implementation/mdbx/parallel_tx.rs:75-194 | counts and slots are exact under every interleaving, and no decrement underflows |
| ParallelTxLaws.NeverFullUnshared | crates/storage/db/src/implementation/mdbx/parallel_tx.rs:75-144 | while a slot has been free all the time nothing is shared, even if creations fail |
| ParallelTxLaws.FailureFreeUnshared | crates/storage/db/src/implementation/mdbx/parallel_tx.rs:75-144 | without failed creations nothing is shared as long as a slot is free |
| ParallelTxLaws.IndexStable | crates/storage/db/src/implementation/mdbx/parallel_tx.rs:89-90 | an issued index names the same transaction for ever |
| ParallelTxLaws.ChoosesLeastLoaded | crates/storage/db/src/implementation/mdbx/parallel_tx.rs:110-141 | the decision leads to the least loaded transaction, or to a new one while a slot is free |
| ParallelTxLaws.SharedBelowLimitAfterFailure | crates/storage/db/src/implementation/mdbx/parallel_tx.rs:92-95 | after a failed creation a transaction may be shared below the limit |
| MerkleRoot.MerkleRootKeccak | consensus-client/src/engine_api/hash.rs:15-46 | the nested loops end and compute `Root` |
| MerkleRoot.HashLayer | consensus-client/src/engine_api/hash.rs:25-42 | one pass of the inner loop is one layer |
| MerkleRoot.Depth | consensus-client/src/engine_api/hash.rs:24-43 | the number of layers above the leaves is the logarithm of their number to base 2, rounded up |
| MerkleRoot.RootIsTopDown | consensus-client/src/engine_api/hash.rs:15-46 | the root is that of the top-down tree of that depth, split at powers of two, hashing a missing right half with the left one |
| MerkleRoot.RootBinds | consensus-client/src/engine_api/hash.rs:15-46 | two lists of one length with one root yield an explicit collision of the hash |
| MerkleRoot.RepeatLastKeepsRoot | consensus-client/src/engine_api/hash.rs:28-33 | repeating the last of an odd number of transactions, from three on, keeps the root |
| MerkleRoot.SharedRoot | consensus-client/src/engine_api/hash.rs:15-46 | for any two different lengths from 1 on, and for 0 and 1, there are lists with one root, whatever the hash |
| MerkleRoot.LengthsBindExactly | consensus-client/src/engine_api/hash.rs:15-46 | for all other lengths two different lists with one root yield a collision |
| Batchers.RpcBatcher.OnReceive | execution-client/src/rpc/transaction.rs:351-366 | the whole buffer is sent if and only if it holds 100 transactions or more with the new ones; the new buffer and counter |
| Batchers.RpcBatcher.OnTimer | execution-client/src/rpc/transaction.rs:368-379 | the buffer is sent unless it is empty, and is empty afterwards |
| Batchers.ValidatorBatcher.OnReceive | consensus-client/src/validator.rs:139-158 | a batch of exactly the maximum size is taken from the front if and only if the buffer holds that many with the new ones; the rest stays, in order; the new counters |
| Batchers.ValidatorBatcher.OnTimer | consensus-client/src/validator.rs:160-172 | the whole buffer is sent unless it is empty, and is empty afterwards |
| Batchers.StepKeeps | consensus-client/src/validator.rs:136-175 | each step of either loop keeps order, contents, counters and batch sizes |
| Batchers.ChainIsQueue | execution-client/src/rpc/transaction.rs:348-381 | in every run the two loops keep the order; with no failed message they are one queue, and with nothing overwritten it holds all that was published |
| Batchers.LosesExactly | execution-client/src/rpc/transaction.rs:274-327 | a message is lost exactly when one is published while the broadcast channel is full |
| Batchers.FailsExactly | execution-client/src/rpc/transaction.rs:351-379 | a message does not reach the validator exactly when its one send fails |
| Batchers.RunsDry | consensus-client/src/validator.rs:136-175 | after any run, receiving, one timer of each loop and sending empty the chain; if nothing was overwritten and no send failed, consensus has then been given exactly what was published, in order |
| Committee.QuorumsIntersect | consensus-client/src/committee.rs:93-94 | two quorums share `f + 1` authorities, a quorum needs no faulty one, and `f` faulty ones are not a valid set |
| Committee.ThresholdIsLeast | consensus-client/src/committee.rs:93 | with one vote less two quorums may share no honest authority, if and only if the size is no multiple of 3 |
| Committee.ValidityExactly | consensus-client/src/committee.rs:94 | a set of authorities is valid if and only if it outnumbers the others |
| Committee.AddressRoundTrip | consensus-client/src/committee.rs:184-199 | reading a written address gives back its ip and port, for every valid ip and port |
| Committee.ValidIpHasNoSlash | consensus-client/src/committee.rs:202-214 | a valid ip cannot disturb the splitting of an address |
| Committee.ParseExactly | consensus-client/src/committee.rs:184-199 | an address is read if and only if it is a piece without a slash, `/ip4/`, a valid ip, `/udp/`, a valid port and nothing or more pieces, and then to that ip and port |
| Committee.ValidIpExactly | consensus-client/src/committee.rs:202-214 | an ip is valid if and only if it is four numbers below 256 between dots |
| Committee.ParsesExactly | consensus-client/src/committee.rs:208-219 | a string parses below a bound if and only if it is the decimal of a number below it, with leading zeros and a plus sign if need be |
| BatchSender.WorkerRanges | testing/integration/src/bin/fastevm-test.rs:580-603 | the ranges are non-empty, follow one another without a gap and cover all accounts; all but the last have the least size with which 32 workers cover the accounts |
| BatchSender.OneRangeEach | testing/integration/src/bin/fastevm-test.rs:597-603 | every account belongs to exactly one range |
| BatchSender.DrawRecipient | testing/integration/src/bin/fastevm-test.rs:793-798 | the loop returns the first account drawn that is not the sender |
| BatchSender.LoneAccountNeverEnds | testing/integration/src/bin/fastevm-test.rs:793-798 | with a single account the loop never ends |
| BatchSender.DrawsEndExactly | testing/integration/src/bin/fastevm-test.rs:793-798 | a random source with which every draw ends exists if and only if there are two accounts or more |
| BatchSender.CreateTransactions | testing/integration/src/bin/fastevm-test.rs:788-878 | accounts and providers take turns; the batches hold the created transactions in order and are full except for the last |
| BatchSender.AttemptsConsecutive | testing/integration/src/bin/fastevm-test.rs:788-847 | every attempt is a transfer to another account or a failure, and each address uses its nonces one by one |
| BatchSender.AttemptsExactly | testing/integration/src/bin/fastevm-test.rs:788-864 | which attempt made each created transaction, by the account and the provider whose turn it was, for the recipient drawn; every other attempt failed with the nonce it had to use |
| BatchSender.GroupByProvider | testing/integration/src/bin/fastevm-test.rs:889-897 | each provider gets its transactions in the order of the batch, and nothing else |
| BatchSender.ForExactly | testing/integration/src/bin/fastevm-test.rs:889-897 | what a provider gets are exactly the positions of the batch that are its own, in order |
| BatchSender.SendWithRetry | testing/integration/src/bin/fastevm-test.rs:911-984 | a provider's batch is sent by its provider or, after a connection error, by the first of the others, in turn, that accepts it, and is not sent if none does |
| BatchSender.SendBatch | testing/integration/src/bin/fastevm-test.rs:888-986 | each provider of the batch is offered its own transactions of it once, in any order of the providers, and every transaction is accounted for once |
| BatchSender.ProcessAccountChunk | testing/integration/src/bin/fastevm-test.rs:720-1025 | what is created is cut into batches of the configured size or of all transactions; the providers are offered their parts of each; successes + failures = accounts times transactions per sender, and the counters are the sizes of what got through and what did not |
| BatchSender.DeliveriesBounded | testing/integration/src/bin/fastevm-test.rs:778-986 | no provider is offered nothing, or more at once than the configured batch size |
| BatchSender.SendBatchTransferTransactions | testing/integration/src/bin/fastevm-test.rs:580-662 | the totals are the sums over the workers that did not panic, each of which has done its work on its own range, so each of their transactions is counted exactly once |
| BatchSender.FinishedExactly | testing/integration/src/bin/fastevm-test.rs:624-662 | they cover all accounts if and only if no worker panicked |

## Left out

- PipelineRuns.Refines: the execution of an ordered block is not part of the repository; `PipelineRuns.Execute` stands for it by the packing loop's rule, each transaction in turn and those that fail left out, and results list exactly what it included.
- PipelineRuns.ExecutedOrPending: rests on the same stand-in for execution.
- PipelineRuns.SameRoundsSameNonces: rests on the same stand-in, on blocks with room for their proposals and on an execution that accepts every transaction at its sender's nonce.
- EngineLoop.MysticetiEngine.OnTick: does not model the forkchoice update and payload id behind a request, nor that the payload service may recognise a repeated request; the laws hold for any answers to the requests.
- Packing.MysticetiEthereumPayload: leaves out the pre-execution changes, the finished block and its state root; `total_fees` is unbounded instead of 256 bits wide.
- ParallelTx.ParallelTxRO.Choose: does not model memory orderings weaker than sequential consistency.
- Batchers.ChainIsQueue: counts a batch as given to consensus when it is submitted; a failed submission is only logged. The capacity of the broadcast channel is a parameter.
- Committee.AddressRoundTrip: does not model the multi-address type an address passes through between being written and read.
- BatchSender.SendBatchTransferTransactions: runs the workers one after the other; they share nothing that is counted. It asks for draws that end, since the code does not return otherwise.
- `u64` overflow of rounds, block numbers, nonces and counters, except in the capacity check.
- Lock order and deadlock of the pool's read-write locks.
- Monotone block timestamps: nothing in the code promises them, since the first block takes the first timestamp that has arrived.
- Effects that raise another account's nonce than the sender's (EIP-7702), signatures and transaction decoding.
- Networking, subscriptions, timers, the engine API client and the async runtime; channels are lists.
- Failed forkchoice updates and failed payload executions, which are only logged.
- Publishing while nobody subscribes: the handler unwraps the error it is about to report (`rpc/transaction.rs` lines 288 and 313).
- MDBX environments, cursors, metrics and files.
- The beacon-chain types of the consensus client and its payload placeholders: they would only add easy members.
- Key generation, the docker network section of the committee file, command lines, configuration and logging.
