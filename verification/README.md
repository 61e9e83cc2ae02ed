# zvchain: a verified model of its core protocols

zvchain is a proof-of-stake chain. This project models six of its components in Dafny and proves what they promise.

1. **The stake, vote and guard ledger** (`Ledger`, `LedgerStakes`, `LedgerGuards`, `LedgerRules`,
   `OperationRules`, `GuardRules`, `PunishmentRun`, `MinerOperations`).
   `Ledger` gives the meaning of every miner operation as a function on ledger values: it is done, rejected with a receipt
   status, or panics. `MinerOperations` runs the same operations step by step on a mutable account database and is proved to
   follow that meaning. The ledger stores the same facts several times (a miner's stake and its per-source details, the
   proposal total, pool membership, tickets and votes, identities and guard lists). The other modules prove that the
   copies agree in every reachable ledger, that tokens are conserved, and what each operation moves. `OperationRules` and
   `GuardRules` say, in the terms of the protocol, exactly when each operation succeeds and what it then changes: who may stake
   for whom, when stake is released, what a vote does, which guards go.
2. **Block execution and emission** (`Execution`, `ExecutionLaws`, `TxRules`, `BlockProcessor`, `Rewards`). The packing and the
   verifying run agree; every kind of transaction applies exactly under its conditions and moves exactly what it should; executing a block keeps the ledger's invariant and accounts for every token; emission stays within its cap.
3. **Checkpoints, the chain store and fork sync** (`Epochs`, `Checkpoint`, `CheckpointSearch`, `ChainStore`, `ChainAction`,
   `ForkSync`). The two checkpoint computations agree and checkpoints only rise; the indexes always describe one linked
   chain; no addition and no fork sync rewinds below the checkpoint it was checked against.
4. **The transaction pool** (`TxPool`, `TxPacking`, `Heaps`). What every operation keeps, and the packing order.
5. **The pruning queue** (`PruneQueue`, `Heaps`). A heap over a segmented stack, and the split of retained from prunable heights.
6. **Group broadcast, framing and the body codec** (`Broadcast`, `Framing`, `TxCodec`, `Bytes`). Coverage and termination of
   grid flooding, and round trips.

`Collections` and `MapSums` hold small facts about sequences, sets and sums over maps.

Code that changes state in place is modelled by classes and methods; each method's contract ties the new state to a function of
the old one, and the laws are proved about those functions.

## How to read the model

- Integers are unbounded in Dafny. Where uint64 wrap-around can happen it is written out (`Add64`, `% TWO64`, 16-bit and 64-bit
  truncations), and lemmas say when it does not happen.
- A `panic` in the source is the outcome `Panic` (ledger) or `None` (votes). The proofs show which panics cannot be reached.
- Hashes are taken to be collision-free, and heights rise along `PreHash` (the checks that reject other blocks belong to the
  consensus code). `Genuine` and `Linked` state this.
- Databases are maps, the network delivers reliably in any order, and every handler is one atomic step.
- Any epoch length from 2 to 65535 heights is allowed (the source has 240), and any threshold of at least two groups (the source
  has seven tenths of ten or more groups). With one height `Epoch.Next` would skip an epoch; with a threshold of one the slice scan would
  miss the first block of an older epoch.
- What depends on code outside the model is a parameter: `Env` (contract and group transactions, the blacklist, checks after a
  block), `Judgement` (signatures, weights, execution results, write failures), `timeUp` (the proposer's clock), `DbAnswer`
  (which state databases have been pruned), `counts` (the request size of a peer), `picked` (random picks of a broadcast).

## Where the code does less than it promises

Each item has a proof of when the promise holds, and, where it fails, the family of inputs on which it fails.

- A castor's nine tenths of the fees are exact if and only if nine times the fees fit in 64 bits (`Rewards.FeeSplit`).
- The punishment record of a verifier can wrap although no token is lost: a run from genesis leads there
  (`PunishmentRun.PunishmentWraps`). It is exact if and only if the sum fits (`LedgerStakes.PunishmentExact`).
- Genesis installs fund guards over whatever proposal record they have. The ledger's invariant holds from there on if and only if
  no such guard has proposal stake, works as a proposer or is a full-stake guard (`LedgerGuards.ReachableInv`,
  `LedgerGuards.InstallGuardsExactly`); `LedgerRules.StakedGuardBreaks` shows a guard that staked.
- A penalty panics if and only if the first target that its verifier stake does not cover is a known verifier
  (`LedgerStakes.PenalizeAllKeeps`); every other panic of the ledger is unreachable.
- A failed transaction of a supported type that is no contract pays exactly for the gas it used if and only if its limit covers its intrinsic gas
  (`ExecutionLaws.FailedTxPays`). Validation rejects lower limits before execution does; on its own execution accepts them
  (`ExecutionLaws.LowLimitUnderpays`). Contracts are charged their limit less what is left of it, so they never use more.
- A block body decodes to itself if and only if it has fewer than 32768 transactions and each has fewer than 65536 bytes
  (`TxCodec.RoundTripExactly`).
- A packet is decoded if and only if its payload has between one byte and 16 MiB (`Framing.RoundTrip`); an empty payload, which
  the sender can encode, is a bad packet for the receiver.
- The queue compares priorities by the sign of a wrapping difference. This is right if and only if the difference fits in 64 bits
  (`PruneQueue.AheadExactly`). Heights are always close enough.
- A guard whose stake has no term can apply for a longer one if and only if it is on the list of fund guards; a full-stake guard
  that took out all its stake and staked again is refused (`OperationRules.ApplyExactly`).
- Changing the mode of a fund guard goes through an inverted error test in the source. The write happens all the same, and the
  operation reports success (`Ledger.ChangeFundMode`).

## Model

| member | source | states |
|---|---|---|
| LedgerGuards.ReachableInv | core/miner_manager.go:702-777 | From any balances below 2^64 and genesis stakes, installing fund guards and any operations at non-decreasing heights lead to a ledger in which all copies agree: stakes and details, pool and status, proposal total, tickets and votes, pools and their tickets, guard identities and guard lists; when a guard is not installable the invariant fails from the start |
| LedgerGuards.RunKeepsInv | core/miner_manager.go:303-326 | The whole ledger invariant holds after any run of operations, successful or reverted, at non-decreasing heights |
| LedgerGuards.StepKeepsInv | core/miner_operation.go:66-545 | Every single operation keeps the invariant at its height, and it panics exactly when it is a penalty whose first uncovered target is a known verifier |
| LedgerGuards.OpVotes | core/miner_operation.go:66-545 | Every successful operation keeps tickets equal to votes, voters guards, miner pools backed by the tickets they need, invalid pools idle, and guard identity equal to exactly one of fund guard and full-stake member |
| LedgerGuards.VoteVotes | core/miner_base.go:591-626 | A vote keeps tickets equal to the number of guards that vote for an address, also when it demotes the pool voted for before or makes its target a pool; what it changes is `GuardRules.VoteMoves` |
| GuardRules.VoteMoves | core/miner_base.go:591-626 | A vote is recorded with its height and moves one ticket from the address voted for before to the new one; the new one is a miner pool afterwards exactly if it then has the tickets that the height asks for, with the stake, status and keys it had; the old one is demoted exactly if it is a pool that falls short; no other ticket, record, stake or list changes |
| GuardRules.VoteAllowed | core/miner_node.go:354-401 | A vote succeeds if and only if its source is a guard, its target is none, and the source has not voted in the running half period of five million heights |
| GuardRules.TicketsNeeded | core/miner_base.go:69-76 | A miner pool needs eight tickets, two fewer every thirty million heights, and always at least one |
| GuardRules.TicketLost | core/miner_operation.go:139-158 | An address that loses a ticket has one less, and is demoted to an invalid pool out of work exactly if it is a miner pool that then falls short; nothing else changes but the pool of working miners and its total |
| LedgerGuards.TakeVote | core/miner_base.go:574-584 | A guard that votes for a non-zero address accounts for one of its tickets, so taking the vote back never finds the ticket count at zero |
| LedgerGuards.BackedAfterDemotion | core/miner_node.go:182-202 | Whatever tickets an address has left, the demotion that follows keeps every remaining miner pool backed |
| LedgerGuards.ApplyGuardVotes | core/miner_node.go:447-483 | A successful application leaves guard identity equal to exactly one of "fund guard in its initial type" and "in the full-stake pool" |
| LedgerGuards.FullGuardKeeps | core/miner_node.go:121-157 | Saving an address as a full-stake guard keeps votes and guard lists exact for everyone |
| LedgerGuards.ExpireGuardVotes | core/miner_base.go:456-492 | Expiring a guard takes away its identity, its place in the lists, its vote and its ticket, with the demotion that may follow, and keeps everything exact |
| LedgerGuards.ExpireGuardsVotes | core/miner_manager.go:82-115 | Expiring a list of different guards keeps everything exact for any length |
| LedgerGuards.FullStakePassVotes | core/miner_manager.go:231-256 | A successful pass over the full-stake pool keeps everything exact; whom it takes is `GuardRules.FullStakePassScans` |
| GuardRules.ExpiredExactly | core/miner_manager.go:266-293 | A scanned member is expired exactly if the height is more than 432,000 above its dismissal height, or above the height at which it was marked as no longer full |
| GuardRules.FullStakePassScans | core/miner_manager.go:231-293 | At every thousandth height from five million on, exactly the overdue members lose guard identity, vote and place in the pool, and exactly the unmarked details that are no longer the full stake are marked with the height; at other heights nothing changes |
| GuardRules.FullStakePassSucceeds | core/miner_manager.go:231-256 | On a sound ledger the pass succeeds if and only if it is not due or every member has a detail |
| GuardRules.FundPassEnds | core/miner_manager.go:140-229 | Exactly the fund guards in their initial type whose mode ends at this height lose guard identity and vote, and exactly their records say so; each mode is ended once |
| GuardRules.FundPassSucceeds | core/miner_manager.go:140-229 | On a sound ledger the pass over the fund guards always succeeds |
| GuardRules.GuardCheckExactly | core/miner_manager.go:82-115 | After the periodic check an address is a guard exactly if it was one and is neither an overdue member of a full-stake pool whose scan was not abandoned nor a fund guard whose mode ends |
| GuardRules.AllTaken | core/miner_base.go:456-492 | Expiring a list of guards takes identity and vote from exactly those, and leaves stakes, details, fund records and all other guards alone |
| LedgerGuards.FundPassVotes | core/miner_manager.go:140-229 | A successful pass over the fund guards keeps everything exact, though their records change before their identities do |
| LedgerGuards.GuardCheckVotes | core/miner_manager.go:82-115 | The periodic check keeps everything exact, whichever of its passes is reverted |
| LedgerGuards.NeedFalls | core/miner_base.go:69-76 | The tickets that a miner pool needs never rise with the height |
| LedgerGuards.LaterInv | core/miner_base.go:69-76 | The invariant at a height still holds at every later height |
| LedgerGuards.InstallGuardsExactly | core/miner_manager.go:762-777 | Installing fund guards over whatever records they have keeps the invariant if and only if none of them has proposal stake, works as a proposer or is a full-stake guard |
| LedgerRules.StakedGuardBreaks | core/miner_manager.go:751-777 | A genesis proposer that is also named as a fund guard breaks the invariant |
| LedgerStakes.RunKeepsStakes | core/miner_manager.go:303-326 | Over any run the copies of stake agree, and balances plus staked plus frozen details change only by what penalties destroy |
| LedgerStakes.StepKeepsStakes | core/miner_operation.go:66-545 | The same for every operation, with the exact condition for a panic |
| LedgerStakes.StakesOfMiners | core/miner_node.go:511-576 | Summed over any set of miners, stakes equal the details staked for them |
| LedgerStakes.StakeAddIs | core/miner_node.go:511-576 | On a ledger whose copies agree an accepted stake-add never panics, and this is the ledger it leaves |
| LedgerStakes.StakeAddKeeps | core/miner_node.go:511-576 | A stake-add keeps the copies of stake equal and the supply unchanged |
| LedgerStakes.StakeReduceIs | core/miner_node.go:267-352 | On a ledger whose copies agree a detail never exceeds its miner's stake, so a stake-reduce never panics, and this is the ledger it leaves |
| LedgerStakes.StakeReduceRefused | core/miner_node.go:297-318 | Without enough in the source's detail a stake-reduce is refused rather than panicking |
| LedgerStakes.StakeReduceKeeps | core/miner_node.go:267-352 | A stake-reduce keeps the copies of stake equal and the supply unchanged |
| LedgerStakes.StakeRefundKeeps | core/miner_operation.go:338-373 | A refund keeps the copies of stake equal and the supply unchanged |
| LedgerStakes.MinerAbortKeeps | core/miner_node.go:208-226 | An abort keeps the copies of stake equal; the pool total never falls short |
| LedgerStakes.MinerFreezeKeeps | core/miner_operation.go:387-416 | A freeze keeps the copies of stake equal |
| LedgerStakes.VerifierStake | core/miner_node.go:90-96 | A verifier's stake is its own staked detail and nothing else |
| LedgerStakes.PenalizeKeeps | core/miner_operation.go:433-534 | One penalty is rejected for an unknown verifier, panics exactly when the stake is short, and otherwise takes exactly its value from that verifier's staked detail; the frozen detail is never touched |
| LedgerStakes.PenalizeAllKeeps | core/miner_operation.go:433-534 | A list of targets is penalised exactly when each is a verifier whose stake covers all penalties on it so far; it panics exactly when the first target that is not covered is known; each target loses the value times the number of its occurrences |
| LedgerStakes.MinerPenaltyKeeps | core/miner_operation.go:433-545 | A penalty destroys all it takes when nobody is rewarded, and otherwise only the dust of the division |
| LedgerStakes.PenaltyLoss | core/miner_operation.go:536-543 | With rewardees, what is destroyed is less than their number |
| LedgerStakes.VoteKeeps | core/miner_base.go:591-626 | A vote, with the demotion and promotion it may cause, moves no stake and keeps the pool total exact |
| LedgerStakes.ReduceTicketKeeps | core/miner_operation.go:139-158 | Taking a ticket away, with the demotion it may cause, keeps the copies of stake equal |
| LedgerStakes.ApplyGuardKeeps | core/miner_node.go:447-483 | An application for guard moves no stake |
| LedgerStakes.GuardCheckKeeps | core/miner_manager.go:82-115 | The periodic guard check moves no stake and keeps the pool total exact |
| LedgerStakes.SumsFit | core/miner_node.go:511-576 | With the supply below 2^64 no uint64 sum wraps that adding or freezing stake forms |
| PunishmentRun.PunishmentWraps | core/miner_operation.go:467-487 | A run from genesis at non-decreasing heights, in which a verifier is penalised, rewarded with its own penalty, leaves and stakes again, reaches a ledger on which the next penalty makes the punishment record smaller |
| PunishmentRun.Cycle | core/miner_operation.go:433-545 | One round of penalty, abort and stake-add restores the verifier's tokens and adds exactly one penalty to its record |
| LedgerStakes.PunishmentExact | core/miner_operation.go:467-487 | The punishment record after a penalty is the true sum if and only if that sum fits in 64 bits, and no other record changes |
| LedgerRules.StakeRoundTrip | core/miner_operation.go:338-373 | Adding stake, taking it out and refunding it gives the source its tokens back, with what was frozen before, and leaves every other balance, stake and detail as it was |
| LedgerRules.AddMoves | core/miner_node.go:511-576 | A stake-add moves the value from the source's balance into the miner and the source's detail, changes nothing of anyone else, and stays within the stake limit of the height |
| LedgerRules.ReduceMoves | core/miner_node.go:267-352 | A stake-reduce moves the value from the miner and the staked detail to the frozen detail and pays nothing yet |
| LedgerRules.RefundMoves | core/miner_operation.go:338-373 | A refund pays out all that is frozen under the key, more than two days of blocks after it was frozen |
| LedgerRules.PenaltyMoves | core/miner_operation.go:433-545 | Each target loses the penalty once per occurrence, each rewardee gets an equal part of the whole once per occurrence, and the product that the part is cut from does not wrap |
| LedgerRules.LimitRises | core/miner_base.go:55-66 | The stake limit never falls with the height and stays between 2.5 and 8.125 million coins |
| OperationRules.LimitTable | core/miner_base.go:55-66 | The stake limit in every stretch of ten million heights, from 2.5 million coins in the first to 8.125 million from the thirteenth on |
| OperationRules.StakeAddExactly | core/miner_node.go:86-180 | A stake-add succeeds if and only if the source may stake for the target by the roles and identities of both, can pay, the target is not frozen, and its stake stays within the cap of its identity and height |
| OperationRules.StakeAddRecords | core/miner_node.go:511-576 | After a stake-add the target has the keys that it gave itself, or those it had, works exactly if it worked or now has keys and the minimum stake, and keeps its identity; no other record changes |
| OperationRules.StakeReduceExactly | core/miner_node.go:250-352 | A stake-reduce succeeds if and only if the miner is known and not frozen, the source has that much staked with it under no running term, and a verifier that falls below the minimum neither works nor is in a live group |
| OperationRules.StakeReduceRecords | core/miner_node.go:267-352 | A stake-reduce sends a working proposer home that falls below the minimum; otherwise status, keys and identity stay, and no other record changes |
| OperationRules.RefundExactly | core/miner_operation.go:338-373 | A refund succeeds if and only if something is frozen under the key and two days of blocks have passed, or ninety days when stake frozen since ZIP003 by anyone but the platform is asked for before ZIP004 |
| OperationRules.AbortExactly | core/miner_node.go:208-240 | An abort succeeds if and only if the miner is known, works or has been frozen for more than an hour of blocks, and is no invalid pool; it then rests and is out of the pool, and no other record or stake changes |
| OperationRules.FreezeExactly | core/miner_operation.go:387-416 | A freeze succeeds if and only if the verifier is known and not frozen yet; it then is frozen and out of the pool |
| OperationRules.PenaltyFreezes | core/miner_operation.go:433-490 | A penalised verifier is frozen afterwards and has the penalty less staked; no other record changes |
| OperationRules.ApplyExactly | core/miner_node.go:431-487 | An application for guard succeeds if and only if the applicant is a normal proposer or a guard, its own stake is exactly the full stake of the height, its term reaches no more than half a period ahead, and, for a guard without a term, it is on the list of fund guards |
| OperationRules.ApplyDoes | core/miner_node.go:121-157 | An application makes the applicant a guard, binds its stake for half a period from now or from the end of its running term, puts it in the full-stake pool unless it had a term, turns a fund guard into a full-stake guard, counts its vote as cast now, and changes nothing else |
| OperationRules.ChangeModeExactly | core/miner_node.go:489-509 | A fund guard in its initial type, and nobody else, changes its mode until height five million; only its record changes |
| LedgerRules.RunKeepsWorkers | core/miner_base.go:197-204 | Over any run, a miner that is active has its keys and at least the minimum stake |
| LedgerRules.ReachableWorkers | core/miner_base.go:197-204 | The same for every ledger that a chain can reach from genesis |
| MinerOperations.MaximumStake | core/miner_base.go:55-66 | The loop computes the stake limit defined by periods and halvings |
| MinerOperations.ProcessStakeAdd | core/miner_node.go:511-576 | Step by step on the database, a stake-add does what the ledger function says, with the same receipt status |
| MinerOperations.ProcessStakeReduce | core/miner_node.go:267-352 | A stake-reduce does what the ledger function says |
| MinerOperations.ProcessStakeRefund | core/miner_operation.go:338-373 | A refund does what the ledger function says |
| MinerOperations.ProcessMinerAbort | core/miner_node.go:208-240 | An abort does what the ledger function says |
| MinerOperations.ProcessMinerFreeze | core/miner_operation.go:387-416 | A freeze does what the ledger function says |
| MinerOperations.ProcessMinerPenalty | core/miner_operation.go:433-545 | The loops over targets and rewardees do what the ledger function says |
| MinerOperations.ProcessReduceTicket | core/miner_operation.go:139-158 | Taking a ticket away does what the ledger function says |
| MinerOperations.ProcessVote | core/miner_base.go:591-626 | A vote, step by step on the database, does what the ledger function says, which `GuardRules.VoteAllowed` and `GuardRules.VoteMoves` spell out |
| MinerOperations.ProcessApplyGuard | core/miner_node.go:447-483 | An application for guard does what the ledger function says |
| MinerOperations.ProcessChangeFundMode | core/miner_node.go:489-509 | Changing the mode of a fund guard does what the ledger function says |
| MinerOperations.GuardNodeExpired | core/miner_base.go:456-492 | Expiring a guard does what the ledger function says |
| MinerOperations.ExpireAll | core/miner_manager.go:82-115 | The loop over expired guards stops at the first failure and otherwise does what the ledger function says |
| MinerOperations.FullStakeScan | core/miner_manager.go:231-293 | The scan of the full-stake pool marks the details that are no longer full, collects exactly the expired guards, and fails when a detail is missing; which these are is `GuardRules.ExpiredExactly` |
| MinerOperations.FullStakeCheck | core/miner_manager.go:231-256 | The pass over the full-stake pool does what the ledger function says, which `GuardRules.FullStakePassScans` and `GuardRules.FullStakePassSucceeds` spell out |
| MinerOperations.FundScan | core/miner_manager.go:159-229 | The scan retires exactly the fund guards of one mode and lists them in order |
| MinerOperations.RetireBoth | core/miner_manager.go:140-157 | Retiring the guards of one mode before those of the other is the same as retiring both at once |
| MinerOperations.FundCheck | core/miner_manager.go:140-229 | The pass over the fund guards does what the ledger function says |
| MinerOperations.GuardNodesCheck | core/miner_manager.go:82-115 | The two passes, each with its own snapshot, do what the ledger function says |
| MinerOperations.ExecuteOperation | core/miner_manager.go:303-314 | An operation that fails leaves the database as it was before; one that succeeds leaves the ledger that its meaning gives |
| Execution.CastIsAccepted | core/blockchain_action.go:588-611 | Whatever the pool offered, wherever the proposer's gas limit and clock cut the packing, verifiers that re-run the packed list from the same state get the same list, fee, state and receipts, and evict nothing |
| Execution.RerunAgrees | core/state_processor.go:437-539 | Re-running in verify mode what any run included, from the same state, repeats that run |
| Execution.TurnAgrees | core/state_processor.go:445-506 | One turn leaves world and totals alone, or a verifier's turn on the same transaction includes it with the same effect |
| ExecutionLaws.BlockKeeps | core/state_processor.go:437-539 | Executing any block keeps the ledger's invariant; supply plus fees plus penalty loss equals the old supply plus reward payouts, block releases and the castor's part of the fees; the fee is the exact sum and included gas is at most 2,000,000 |
| ExecutionLaws.ChainKeeps | core/state_processor.go:437-539 | The invariant holds after every block of a chain, and what was minted and burned over the chain accounts for every token |
| ExecutionLaws.TxKeeps | core/state_processor.go:395-434 | A transaction that applies keeps the ledger's invariant and takes exactly the price of its gas out of circulation, besides what it pays out |
| ExecutionLaws.FailedTxPays | core/state_processor.go:395-434 | A failed transaction changes only its source's balance; it pays exactly for the gas used if and only if it is a contract, of an unsupported type, or its limit covers its intrinsic gas |
| ExecutionLaws.LowLimitUnderpays | core/tx_validate.go:74-78 | A transaction with a limit below its intrinsic gas that execution accepts, fails, and charges more gas to the fees than its source pays |
| Execution.ContractGas | core/state_processor.go:263-265 | The gas of a contract is at most its limit, and at least its intrinsic gas when the limit covers that |
| ExecutionLaws.MinerTxKeeps | core/state_processor.go:74-112 | No miner transaction reaches a panic, and each keeps the invariant and the supply |
| ExecutionLaws.GasUsedFits | core/tx_validate.go:58-81 | The gas of any transaction whose limit passed validation, contracts included, is within that limit |
| ExecutionLaws.RewardTxKeeps | core/state_processor.go:353-372 | A reward transaction brings exactly its payouts into circulation and keeps the invariant |
| ExecutionLaws.TurnsKeep | core/state_processor.go:445-506 | At every turn of the loop gas and fee totals are exact, within their bounds, and no token is lost |
| ExecutionLaws.SettledKeeps | core/state_processor.go:508-539 | Block rewards and the checks after the block keep the invariant and bring in exactly what the block releases |
| ExecutionLaws.NoncesConsecutive | core/state_processor.go:541-551 | The included transactions of each source carry consecutive nonces from its account nonce on, and the account nonce ends at the last of them |
| TxRules.TransferMoves | core/state_processor.go:195-206 | A transfer succeeds if and only if its source can pay it; it then moves exactly its value to its target, also when that is the source, and otherwise nothing; no other balance and nothing else changes |
| TxRules.TransferApplied | core/state_processor.go:395-434 | A transfer that applies succeeds: its source pays the value and the gas used, its target gets the value, and no other balance and nothing else changes |
| TxRules.AppliesExactly | core/tx_validate.go:120-142 | A transaction that is no reward applies if and only if it carries the next nonce, its source can pay the whole gas limit and, for transfers, contracts and stake-adds, the value, its price reaches the floor of the height, and its source is not blacklisted, which is ignored for aborts and before ZIP003 |
| TxRules.RewardApplies | core/state_processor.go:353-372 | A reward applies if and only if it parses and its block was not rewarded before |
| TxRules.PriceFloor | core/state_processor.go:565-574 | The price floor doubles every thirty million heights, three times |
| TxRules.IntrinsicGasIs | core/tx_validate.go:32-36 | The intrinsic gas is 400 and the whole part of 1.9073 for every byte of data |
| TxRules.OperationOf | core/state_processor.go:74-104 | Every kind of miner transaction runs its own operation, for its source, its target and its value cut to 64 bits |
| TxRules.MinerTxRuns | core/miner_manager.go:303-314 | A miner transaction that parses leaves what its operation gives and reports its outcome; a rejected one leaves the ledger alone |
| TxRules.OtherTxRuns | core/state_processor.go:385-393 | A transaction that does not parse or is of an unknown type changes nothing, and a foreign one that fails neither |
| TxRules.RewardPays | core/state_processor.go:353-372 | A reward pays its value to each verifier as often as it is named and the pack fee to the castor, marks its block, and changes nothing else; no second reward for that block applies |
| TxRules.BlockPays | core/state_processor.go:508-519 | A block pays the daemon account its share, the user account its share, the castor its share and its part of the fees, and nobody else |
| TxRules.SettledInOrder | core/state_processor.go:508-539 | After the transactions the shares are paid, then the group checks run, and the guard check comes last |
| TxRules.NextTx | core/state_processor.go:445-506 | What becomes of the next transaction: the loop stops once the proposer's time or gas is up or the block would exceed 2,000,000 gas, what does not apply is evicted, and anything else is included, with its effect, nonce, gas, fee and receipt accounted for |
| TxRules.ReceiptsName | core/state_processor.go:482-506 | After any number of turns receipt `i` names included transaction `i`, its place and its block |
| TxRules.NoneForgotten | core/state_processor.go:445-506 | As long as the loop goes on, every offered transaction is included or evicted, and nothing else is |
| BlockProcessor.ProcessBlock | core/state_processor.go:437-539 | The loop, rewards and checks, step by step on the database, compute the run that the laws are about |
| BlockProcessor.ExecuteAll | core/state_processor.go:445-506 | The loop with its cut-offs, evictions and reverts computes exactly the turns of the run |
| BlockProcessor.ApplyStateTransition | core/state_processor.go:395-434 | A transaction that is not valid is evicted without a trace; any other has the effect that `TxRules.TransferApplied`, `TxRules.MinerTxRuns` and `TxRules.RewardPays` spell out |
| BlockProcessor.RunBody | core/state_processor.go:385-393 | A transition leaves what `TxRules.TransferMoves` and `TxRules.MinerTxRuns` spell out, and a failed one is reverted to its snapshot |
| BlockProcessor.RunReward | core/state_processor.go:353-372 | Each verifier, then the castor, is paid and the block is marked as rewarded |
| BlockProcessor.PayRewards | core/state_processor.go:508-519 | Daemons, users and castor get their parts, with the castor's sum taken in 64 bits; who gets what is `TxRules.BlockPays` |
| BlockProcessor.RunOperation | core/miner_manager.go:303-314 | A miner operation inside a transaction leaves what its meaning gives, or the ledger as it was |
| BlockProcessor.RunChecks | core/state_processor.go:532-534 | The operations that follow every block are run in order |
| BlockProcessor.StopStays | core/state_processor.go:445-480 | Once the loop stops, later transactions change nothing |
| Rewards.EmissionBound | core/rewards_manager.go:205-262 | Over any strictly increasing heights all five shares together stay within the 3.5 billion coins set aside for miners, in fact within 1,341,705,000,972,250,000 units |
| Rewards.BlockEmission | core/rewards_manager.go:217-262 | The five shares of a block never exceed what the block releases |
| Rewards.RewardRates | core/rewards_manager.go:205-215 | The reward of a block in each stretch of heights; it is zero above 120,000,000 |
| Rewards.SharesExact | core/rewards_manager.go:217-245 | No product or difference in the shares wraps, and the weights always add up to the whole |
| Rewards.NodeShares | core/rewards_manager.go:217-245 | At every height users get the whole number of 100 seven-thousandths of the reward, daemons of 440 and 80 more every ten million heights, and miners of the rest; above 120,000,000 nobody gets anything |
| Rewards.MinerShares | core/rewards_manager.go:247-262 | At every height the castor gets the whole number of eight tenths of the miners' part, the packer and the verifiers one tenth each |
| Rewards.FirstShares | core/rewards_manager.go:205-262 | The five amounts below height ten million: 45,939,090,285 to the castor, 5,742,386,285 to the packer and to the verifiers, 3,911,222,857 to the daemons and 888,914,285 to the users |
| Rewards.FeeSplit | core/rewards_manager.go:265-272 | The castor gets nine tenths of the fees if and only if nine times the fees fit in 64 bits, and never more; the verifiers get exactly one tenth; the two parts never exceed the fees |
| Epochs.NextEpoch | middleware/types/epoch.go:52-54 | The epoch at the height one past the end is the following one |
| Checkpoint.VotesAgreeWithBlocks | core/checkpoint.go:214-253 | The threshold-th highest stored vote and the backward scan over the epoch's blocks give the same height on every chain, also when the epoch has no block yet, and that height is the last one with a quorum of groups on or after it |
| Checkpoint.VotesAreExact | core/checkpoint.go:176-211 | On every chain recording votes never panics, and the stored votes are exactly each active group's last block in the epoch |
| Checkpoint.VotesGiveQuorum | core/checkpoint.go:214-235 | The threshold-th highest vote is the height of the last block with a quorum on or after it |
| Checkpoint.BlocksGiveQuorum | core/checkpoint.go:237-253 | The backward scan finds the height of the last block with a quorum on or after it |
| Checkpoint.QuorumHeightUnique | core/checkpoint.go:214-253 | There is at most one such height |
| Checkpoint.QuorateStays | core/checkpoint.go:237-253 | Later blocks never take a quorum away |
| Checkpoint.SeenSize | core/checkpoint.go:176-235 | From any block on, as many groups own a block as there are votes that reach it |
| CheckpointSearch.CheckpointAt | core/checkpoint.go:260-310 | Whichever databases have been pruned, the search gives the height of the latest block, among those at least the buffer below, with a quorum within ten epochs, or 0 when there is none |
| CheckpointSearch.CheckpointMonotone | core/checkpoint.go:260-310 | On one chain, if a checkpoint is found for a height, no lower height has a higher one |
| CheckpointSearch.CheckpointUnique | core/checkpoint.go:260-310 | A height has one checkpoint |
| CheckpointSearch.SettledIs | core/checkpoint.go:260-269 | The blocks that count are exactly those 20 or more below a height above 20 |
| CheckpointSearch.SliceAgrees | core/checkpoint.go:108-150 | A slice that reaches below the block buffer gives the chain's checkpoint whenever that lies in the slice, and what it gives is the chain's checkpoint whenever it lies within the ten epochs searched |
| CheckpointSearch.CheckPointOf | core/checkpoint.go:108-150 | One scan from the top of a slice finds its latest block with a quorum, below the buffer when the slice reaches that deep |
| CheckpointSearch.ScanSlice | core/checkpoint.go:125-149 | The scan finds the latest block with a quorum, across epoch changes |
| CheckpointSearch.TrimmedLength | core/checkpoint.go:116-124 | The part of the slice above the buffer is dropped, unless that is all of it |
| CheckpointSearch.EpochCheckpoint | core/checkpoint.go:274-302 | One epoch's result is the same from the votes and from the blocks |
| CheckpointSearch.SearchStart | core/checkpoint.go:260-269 | The search starts at the last block that is at least the buffer below |
| CheckpointSearch.CalcByVotes | core/checkpoint.go:214-235 | Collecting, sorting and indexing the votes computes the specified height |
| CheckpointSearch.CalcByBlocks | core/checkpoint.go:237-253 | The scan with its set of groups computes the specified height |
| CheckpointSearch.CpChecker.Update | core/checkpoint.go:176-211 | Recording a block with the cached epoch context gives the specified votes, and a panic exactly where they are undefined |
| ChainStore.BlockStore.CommitBlock | core/blockchain_store.go:222-303 | A commit extends the chain that the indexes describe by exactly that block, or changes nothing |
| ChainStore.BlockStore.ResetTop | core/blockchain_store.go:311-419 | A rewind removes exactly the blocks above its target from the indexes, terminates, and gives back their transactions; when the write fails chain and indexes stay; the cache loses exactly these blocks either way |
| ChainStore.BlockStore.AddTopBlock | core/blockchain_store.go:676-702 | The cache stays a part of the chain |
| ChainStore.BlockStore.constructor | core/blockchain.go:437-447 | The store starts as the chain of the genesis block |
| ChainStore.AppendDescribes | core/blockchain_store.go:222-303 | Writing a block that hangs on the top makes the header, height and body indexes describe the longer chain |
| ChainStore.RewindDescribes | core/blockchain_store.go:311-419 | Deleting the blocks above an index makes the indexes describe the shorter chain |
| ChainStore.WalkBack | core/blockchain_store.go:342-374 | Walking from the top through the indexes collects exactly the hashes, heights and transactions above the target |
| ChainStore.QueryFloor | core/blockchain_store.go:517-541 | The nearest block at or below a height, if and only if there is one |
| ChainStore.QueryCeil | core/blockchain_store.go:499-515 | The nearest block at or above a height, if and only if there is one |
| ChainAction.AddBlockOnChain | core/blockchain_action.go:374-497 | The answer and the new chain are exactly those that the fork choice asks for: a block that is held, has no known parent, is refused by verification, hangs below the checkpoint, is lighter, or is equal off the top leaves the chain as it was; any other replaces everything above its parent if it executes and commits; past genesis the parent is never below the checkpoint that the block was checked against |
| ChainAction.AddedExactly | core/blockchain_action.go:374-497 | A block is added if and only if it is new and admissible, hangs on the top or outweighs what a successful rewind removes, and executes and commits; the chain is then the one up to its parent and the block; a lighter block, and an equal one off the top, change nothing |
| ChainAction.AdmissibleIs | core/blockchain_action.go:193-264 | Which blocks are admissible, in terms of the chain instead of the indexes |
| ChainAction.ValidateBlock | core/blockchain_action.go:193-264 | A block passes if and only if its parent is known, the local chain is not heavier, and past genesis it is verified and its parent is not below the checkpoint |
| ChainAction.RewindToParent | core/blockchain_action.go:455-487 | The parent becomes the top if and only if it is the top already, or the local chain is lighter and the write succeeds; otherwise the chain stays, and the answer is the one for a heavier, an equal or a lighter local chain |
| ChainAction.TransitAndCommit | core/blockchain_action.go:499-520 | A block that executes and commits extends the chain, any other changes nothing |
| ChainAction.EnsureChained | core/blockchain_action.go:649-659 | True if and only if each block hangs on the one before |
| ChainAction.BatchAddBlocks | core/blockchain_action.go:661-712 | The blocks already held are skipped, the chain is cut at the parent of the first missing one, and it then gains exactly the initial part of the rest that ends at the first block that is refused; it stays as it was exactly if nothing is missing, the slice is not chained, or the parent is not reached |
| ChainAction.AddChainSlice | core/blockchain_action.go:714-721 | Offered one by one, exactly the blocks before the first refused one are added, in order |
| ChainAction.MissingAboveAncestor | core/blockchain_action.go:661-712 | The parent of the first missing block is never below the parent of the whole slice |
| ChainAction.MissingStays | core/blockchain_action.go:661-712 | When the first block of a chained slice is missing, so are all later ones |
| ChainAction.AncestorStays | core/blockchain_action.go:661-712 | Whatever becomes of a slice, the chain up to the block that the slice hangs on stays |
| ChainAction.NothingBelowLost | core/blockchain_action.go:661-712 | When that block is not below a checkpoint, no block up to the checkpoint is lost |
| ForkSync.ProcessFork | core/fork_processor.go:172-645 | A whole fork sync on a store: whatever the peer's chain, the sizes of requests, the preference and the refusals of blocks, every block at or below the checkpoint recorded at the start stays at its place; the chain changes only by being cut at or above the highest common block and continued with consecutive later blocks of the peer, and not at all when that common block is below the checkpoint; when the fork is preferred and nothing refuses a block, the whole offer is taken, which is the peer's chain between the common block and the request end |
| ForkSync.SyncFork | core/fork_processor.go:172-605 | One whole sync against an honest fixed peer terminates; it finds the highest common block and goes on exactly when that is not below the checkpoint; its windows then tile the heights from the end of the first answer to the request end, the first answer and the answers to them are the peer's chain, and exactly the peer's blocks strictly between the common block and the request end are offered |
| ForkSync.ForkKeepsCheckpoint | core/fork_processor.go:441-448 | Adding any slice that hangs on a block not below a checkpoint loses no block at or below the checkpoint, also when held blocks are skipped |
| ForkSync.FindAncestor | core/fork_processor.go:232-463 | The search from piece to piece terminates and is accepted if and only if the highest common block is not below the checkpoint, and then finds that block |
| ForkSync.AskPeer | core/fork_processor.go:280-318 | One piece either finds the highest common block or shows that it lies below the piece |
| ForkSync.LocalPiece | core/fork_processor.go:153-161 | A piece holds the hashes of the blocks from its top downwards |
| ForkSync.FindCommon | core/fork_processor.go:271-278 | The first hash of the piece that the peer holds |
| ForkSync.RequestEndIs | core/fork_processor.go:362-372 | The request ends one past the peer's top or at the end of the epoch after the ancestor's, whichever is lower, and is never empty |
| ForkSync.AnswerIs | core/fork_processor.go:505-531 | The peer's answer to a window is exactly its blocks in the window |
| ForkSync.RequestWindow | core/fork_processor.go:488-503 | The next window is not empty, has at most 16 heights and stays within the request end |
| ForkSync.Download | core/fork_processor.go:488-569 | The windows tile the heights from the end of the first answer to the request end without gap or overlap; what is received is the first answer and the peer's answers to exactly these windows, which is the peer's chain from the ancestor to the end of the last window |
| ForkSync.OfferedBlocks | core/fork_processor.go:571-605 | A slice is offered only if it starts with the ancestor and is chained; blocks from the request end on are dropped; it is refused only for one of these reasons |
| ForkSync.HonestOffer | core/fork_processor.go:571-605 | Of an honest peer's slice exactly the blocks strictly between the ancestor and the request end are offered |
| ForkSync.FetchSlice | core/fork_processor.go:433-605 | From the first answer on, download and check together request windows that tile the range and offer exactly the peer's blocks between the ancestor and the request end |
| ForkSync.UpdateReqCount | core/peers_meter.go:89-101 | The request size grows by one on success, up to 16, and falls by four on a timeout, down to 1 |
| TxPool.SimpleContainer.Push | core/simple_container.go:334-364 | A transaction that is known or outside the nonce window changes nothing; any other goes to the pending lists if it fits there, else to the queue unless that is over its limit, and what it displaces is no longer held; success is reported if and only if the pool holds the transaction afterwards; the pool's invariant is kept |
| TxPool.SimpleContainer.AddToQueue | core/simple_container.go:366-386 | The queue refuses exactly when it is over its limit, keeps one transaction per source and nonce, prefers the higher price, and never exceeds its limit by more than one |
| TxPool.SimpleContainer.Remove | core/simple_container.go:388-405 | The transaction leaves the pool and with it the pending one of its source and nonce, whatever its hash; the invariant is kept |
| TxPool.SimpleContainer.EvictTimeout | core/simple_container.go:482-492 | Exactly the expired transactions leave the map and the queue, none of them stays pending, and the invariant is kept |
| TxPool.SimpleContainer.PromoteOne | core/simple_container.go:424-447 | A stale queued transaction is dropped, one that fits moves to pending, any other stays |
| TxPool.SimpleContainer.PromoteQueue | core/simple_container.go:424-447 | After promotion no queued transaction is left that would fit the pending lists; the invariant is kept |
| TxPool.PendingContainer.Push | core/simple_container.go:102-173 | A transaction fits when it follows the source's last nonce or replaces a cheaper one; when the container is full a cheapest last transaction is evicted; size stays the sum of the lists and below the limit |
| TxPool.PriceDecides | core/simple_container.go:102-173 | Of two transactions for one slot the dearer stays, and the earlier one on a tie; a new slot is taken, and when that fills the pool it costs exactly one transaction, a cheapest among those that no other of their source waits behind; all others stay |
| TxPool.FitsIs | core/simple_container.go:128-149 | A transaction fits if and only if its nonce is the next one on the chain or at most one above that of a pending transaction of its source |
| TxPool.PendingContainer.CheapestLast | core/simple_container.go:152-170 | The scan finds a last transaction with the lowest price |
| TxPool.PendingContainer.Remove | core/simple_container.go:237-245 | Exactly the transaction with that source and nonce leaves, and a list that becomes empty is dropped |
| TxPool.PutIs | core/simple_container.go:102-150 | Inserting keeps nonces strictly increasing and replaces exactly the transaction of that nonce |
| TxPool.DropIs | core/simple_container.go:237-245 | Removing keeps nonces strictly increasing and takes out exactly that nonce |
| TxPool.PushKeepsPool | core/simple_container.go:334-364 | A push into the pending lists keeps pending and queue disjoint, unique and held |
| TxPool.EnqueueKeepsPool | core/simple_container.go:366-386 | A push into the queue keeps pending and queue disjoint, unique and held |
| TxPool.PromoteKeepsPool | core/simple_container.go:424-447 | A promotion keeps pending and queue disjoint, unique and held |
| TxPool.RemoveKeepsPool | core/simple_container.go:388-405 | A removal keeps pending and queue disjoint, unique and held |
| TxPool.UnfitStays | core/simple_container.go:424-447 | A push never makes room for another source's transaction, nor for a lower nonce of its own source |
| TxPool.SortedQueue | core/simple_container.go:409-422 | The queue as a list in nonce order, nothing lost and nothing added |
| TxPacking.PackingOrder | core/simple_container.go:175-201 | Every pending transaction comes exactly once, in nonce order per source, each with the highest price among the heads of all sources at its turn |
| TxPacking.TakeHead | core/simple_container.go:186-199 | One turn takes a dearest head and brings in its successor, and the heap again holds exactly the heads |
| TxPacking.PackTx | core/transaction_pool.go:281-317 | Reward transactions come first, then admitted pending ones in packing order; the block never exceeds the size cap, and each part ends only at its end or at a transaction that would exceed the cap |
| TxPacking.Fill | core/transaction_pool.go:281-317 | The accumulation stops exactly at the first admitted transaction that would exceed the cap |
| Heaps.Push | core/simple_container.go:78-94 | Sifting up gives a heap of the old elements and the new one |
| Heaps.Pop | core/simple_container.go:78-94 | Sifting down gives a heap of the others and a greatest element |
| PruneQueue.GetPruneHeights | core/blockchain_store.go:54-98 | When it prunes, what stays are exactly the items at or above the checkpoint and those among the highest distinct heights below it, what is returned are exactly the others in descending order; otherwise nothing changes |
| PruneQueue.SameHeightSameFate | core/blockchain_store.go:54-98 | Equal heights share one fate |
| PruneQueue.Drain | core/blockchain_store.go:64-88 | Emptying the queue sorts its items into retained and prunable ones, the latter in descending order |
| PruneQueue.PriorityQueue.Push | common/prque/prque.go:32-34 | The queue holds the old items and the new one and stays a heap |
| PruneQueue.PriorityQueue.Pop | common/prque/prque.go:44-47 | An item of greatest priority leaves and the rest stays a heap |
| PruneQueue.PriorityQueue.Peek | common/prque/prque.go:37-41 | The item shown has the greatest priority |
| PruneQueue.SegmentedStack.Push | common/prque/sstack.go:58-74 | The segmented blocks hold the old sequence and the new item, across block boundaries |
| PruneQueue.SegmentedStack.Pop | common/prque/sstack.go:76-86 | The last item of the sequence leaves, across block boundaries |
| PruneQueue.SegmentedStack.Less | common/prque/sstack.go:94-96 | Compares two items of the sequence by the sign of the wrapping difference |
| PruneQueue.SegmentedStack.Swap | common/prque/sstack.go:99-103 | Exchanges two items of the sequence, wherever their blocks are |
| PruneQueue.AheadIsGreater | common/prque/sstack.go:94-96 | Closer than 2^63 the wrapping comparison is the true one |
| PruneQueue.AheadExactly | common/prque/sstack.go:94-96 | The wrapping comparison is right if and only if the difference of the priorities fits in 64 bits |
| Broadcast.BroadcastCovers | network/group.go:211-258 | Under reliable delivery in any order, for any group and row size and any member, every other member has handled the broadcast once nothing is in flight |
| Broadcast.BroadcastCompletes | network/group.go:343-409 | Every run of deliveries from a source's messages is no longer than the fuel they carry, and once nothing more can be delivered every other member has handled the broadcast |
| Broadcast.RunsEnd | network/net.go:756-831 | However messages are delivered, a run is no longer than the fuel it starts with, so it ends |
| Broadcast.FuelFalls | network/net.go:756-831 | Every delivery uses up fuel, although it may put messages in flight |
| Broadcast.DeliverSpreads | network/net.go:756-831 | Every delivery keeps what coverage needs: each row is covered by what was forwarded, is in flight or was handled |
| Broadcast.StartSpreads | network/group.go:343-385 | The source's messages establish it |
| Broadcast.RowNodes | network/group.go:211-258 | The loop collects exactly the other members of the row, in order, and the first column's member first |
| Broadcast.ColumnNodes | network/group.go:211-258 | The loop collects exactly the other members of the column, in order |
| Broadcast.BroadcastSends | network/group.go:343-385 | The source sends a column message to its whole column and, to its whole row, messages of which the one to the first column is always forwarded both ways |
| Broadcast.Member.HandleData | network/net.go:756-831 | The first message is handled; the first that is not a row message is forwarded, exactly once to each member that its kind calls for |
| Framing.ReceiveAll | network/peer.go:137-263 | However a stream of packets is cut into chunks, exactly these packets come out in order and the bytes of an incomplete last packet stay |
| Framing.RoundTrip | network/net.go:575-595 | A frame decodes to its packet, whatever follows, if and only if its payload has between one byte and 16 MiB; any other is a bad packet |
| Framing.FrameBytes | network/net.go:575-595 | A frame is four bytes of kind, four bytes of payload length, most significant first, and the payload |
| Framing.GotIsFront | network/peer.go:198-263 | What is decoded stands encoded at the front of the stream |
| Framing.DecodeStable | network/peer.go:198-263 | Once something is decoded, more bytes do not change it |
| Framing.Peer.DecodePacket | network/peer.go:198-263 | Popping, joining and pushing back buffers decodes the stream; an incomplete packet leaves it unchanged, a packet takes exactly its own bytes, a bad length drops all |
| Framing.Peer.Gather | network/peer.go:198-245 | Joining buffers conserves all bytes and stops early only when there are enough |
| Framing.Peer.AddRecvData | network/peer.go:137-148 | Received bytes go to the end of the stream |
| Framing.DecodeReady | network/peer.go:198-263 | Cuts out all complete packets and leaves the rest |
| TxCodec.RoundTripExactly | core/tx_codec.go:42-111 | A body decodes to itself if and only if it has fewer than 32768 transactions and each has fewer than 65536 bytes |
| TxCodec.BodyRoundTrip | core/tx_codec.go:42-111 | The round trip for such bodies, for any marshalling with a left inverse |
| TxCodec.TxRoundTrip | core/tx_codec.go:113-158 | Reading transaction `i` of a body gives element `i`, and an error past the end |
| TxCodec.EncodeBlockTransactions | core/tx_codec.go:42-65 | The loop writes count, lengths and bodies in the specified format |
| TxCodec.BodyBytes | core/tx_codec.go:42-65 | An encoded body starts with version 1 and the number of transactions, then gives the length of each, all in two bytes with the most significant first and cut to 16 bits |
| TxCodec.DecodeBlockTransactions | core/tx_codec.go:67-111 | The loop reads the format, with an error exactly where it is broken |
| TxCodec.DecodeTransaction | core/tx_codec.go:113-158 | The skipping reader gives one transaction of the body, with an error exactly where the format is broken |

## Left out

- Cryptography: signatures, hashes and keys are abstract; signature checks are part of `Judgement`.
- Contract execution, group operations and blacklist votes: one abstract step each (`Env.foreign`). The token laws are stated for blocks in which such steps leave the ledger alone (`Plain`); agreement of proposer and verifier is stated for all blocks.
- LevelDB, tries, msgpack and protobuf: databases are maps, and `marshal` is a function with a left inverse.
- Logging, monitoring, configuration, the command line and the RPC interface: no property.
- Goroutines, locks, tickers and timeouts: handlers are atomic steps; a timeout only changes the size of the next request.
- The one-off state edits at the heights ZIP005 and ZIP006.
- Floating point: the checkpoint threshold is any number between two and the group count, and the row size of a group any positive number.
- `GetAllGuardNodeAddrs` and blacklist governance: listings that depend on data outside the model.
- Liveness of guard expiry: a missing detail makes a whole pass fail, in the model as in the source.
- Equality of the pool's map with pending and queued transactions: removal is by nonce, so the map can hold more.
- `evictPending`, `asSlice` and `eachForSync` of the pool, and the reward pool: they would only add easy members.
- The choice of entrance nodes for a broadcast from outside a group: it is random.
- The relay count of a broadcast is unlimited, as group broadcasts set it.
- Pruning of the state tries themselves: only the choice of heights is modelled.
- LedgerGuards.ReachableInv: votes for the zero address mean "no vote", so its tickets are not counted.
- LedgerRules.ReachableWorkers: speaks of genesis guards that can be installed without breaking the invariant.
- Execution.ContractGas: a contract whose limit is below its intrinsic gas panics in the source; the model charges its limit. What the virtual machine has left is taken to be no more than it was given.
- TxCodec.RoundTripExactly: asks that no part cut off the end of a transaction's encoding reads as the whole transaction.
- ForkSync.ProcessFork: the verification of headers and the comparison of checkpoints and weights after the download are one answer, `preferred`; the peer is honest and its chain fixed.
- ExecutionLaws.BlockKeeps: asks that the supply with all payouts stays below 2^64 and that gas limits passed validation, as the pool ensures.
- BlockProcessor.RunOperation: a panic ends the program; the model leaves the database unchanged, which no transaction can reach on a ledger that satisfies the invariant.
- BlockProcessor.RunChecks: which operations the group checks after a block issue comes from `Env.checks`.
- CheckpointSearch.CheckpointAt: says nothing when a database is broken in another way than by pruning; the retry after a missing database is part of the same turn.
- CheckpointSearch.SliceAgrees: for a slice that lies within the block buffer the source scans all of it; the result need not be the chain's checkpoint then.
- TxPacking.PackingOrder: the visitor never stops; `PackTx` uses a prefix of the order.
- Framing.RoundTrip: encoding is a function, not the buffer that the source fills.
- Broadcast.BroadcastCovers: the grid is the same for all members, as they sort the same member list.
