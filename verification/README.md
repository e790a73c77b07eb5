# A verified model of the COC node's consensus, pool and proof kernels

COC is an EVM-style chain node. This project models the parts of it that decide things on their own (voting, pooling
transactions, building blocks, linking and proving data, routing, policy expressions, fees, fork choice) and proves in
Dafny what they keep over every input, every run or every reachable state. `dafny verify dfyconfig.toml` verifies all of it.

Each area follows one pattern. A value-level specification says what one step does; a class or method in the source's own
imperative form is proved to do exactly that; lemmas about the specification then state what holds over whole runs.

| files | area |
|---|---|
| `Quorum`, `Round`, `Confluence` | stake-weighted quorums and one three-phase voting round |
| `Detector`, `Coordinator`, `Progress`, `Safety`, `SingleNode`, `ConflictingRuns`, `LongRuns`, `Agreement`, `Disagreement` | equivocation detection, the BFT coordinator, what becomes of blocks and messages, safety over its runs and between nodes |
| `Select`, `Pools`, `BlockBuilder`, `Mempool` | quickselect, the three pool indices, the greedy block builder, the pool object |
| `Merkle` | storage roots, paths and their verification |
| `Decimal`, `BlockHash`, `ChainEngine` | the block pre-image, hash-chain verification, the in-memory chain with finality flags |
| `Kademlia`, `RoutingTable` | xor distance, k-buckets, per-host counters |
| `PolicyExpr`, `PolicyText`, `PolicyRoundTrip`, `PolicyGrammar` | lexer and recursive-descent parser of policy conditions |
| `BaseFee`, `ForkChoice`, `Proposer`, `PubsubRing`, `Common` | fee formulas, fork choice, the proposer guard, the pubsub ring, shared types |

## How the source is read

- A coordinator or proposer step is what one handler does from one `await` to the next; events may interleave in any order.
  Replaying a buffered vote is an ordinary delivery, so the runs of the model include every replay order.
- Signatures and digests are functions given in the configuration. Where a result needs them to be free of collisions,
  the result says so. A pair hash is any function of two nodes; injectivity is assumed only where stated.
- The clock, EVM execution, a peer's answer to a ping, on-chain nonces and the order of a JavaScript `Map` are inputs.
  Where the order of a map would matter (equal fees at eviction, the busiest validator), the contract leaves the choice open.
- Amounts, heights, nonces and stakes are `bigint` in the source and unbounded integers here. Stakes are non-negative.
- Lower-casing is on ASCII letters. Strings are compared character by character.

Some properties one would expect hold only on a condition. Each is given with a failing case and the exact condition.

- Confluence of a voting round: an observer (a node that is not a validator) runs no early-commit quorum test, so for it the
  order of votes matters. `Confluence.ConfluentExactly` gives the condition.
- A double vote is flagged: an empty hash is falsy in the source and can be voted away. `Detector.FlaggedExactlyInWindow` says
  exactly which votes are flagged, and `Detector.SlotFlaggedExactly` which slots.
- One finalized hash per height on one node. Three things can break it. With a heavy local stake two hashes can both be
  finalized, since the local vote is not recorded by the detector: `ConflictingRuns.ConflictExactly` gives the stake
  distributions. Votes for an empty hash leave no record, so if one of the hashes may be empty any group that can finalize at
  all can finalize two: `ConflictingRuns.FourValidators` is a case without a heavy stake, and
  `ConflictingRuns.AnyConflictExactly` the condition. Votes are forgotten after a hundred higher heights:
  `LongRuns.ConflictBelowExactly` gives the condition for every number of higher heights.
- One commit per height on one node, and agreement between nodes: the same three things break the first
  (`Disagreement.CommitsTwoExactly`, `Disagreement.AnyCommitsTwoExactly`). The second fails only if an honest validator breaks
  the first (`Agreement.DisagreementNeedsTwoCommits`). `Disagreement.ProperDisagreementExactly`,
  `Disagreement.LongDisagreementExactly` and `Disagreement.AnyDisagreementExactly` say on which validator sets a heavy stake, a
  long run or an empty hash makes an honest network disagree.
- An accepted storage proof names a leaf: the agent compares no path length, so an interior node with a shorter path is
  accepted (`Merkle.InteriorAccepted`). `Merkle.AcceptedAtAnyLength` gives exactly what is accepted. Leaf hashes kept apart
  from pair hashes, as by the node's two prefixes, rule out longer paths but not shorter ones (`Merkle.AcceptedNodes`); a
  claimed leaf that is no pair hash either rules out both (`Merkle.SeparatedLeaves`), and so does a path of full length
  (`Merkle.ProofBindsLeaf`).
- One proposal per height, rising proposal heights and a cached proposal to send again: a chain that shrinks, as during a
  rebuild, can break each. `Proposer.TwoBlocksExactly`, `Proposer.FallBackExactly` and `Proposer.ForgetExactly` say on which
  courses of the chain's height.
- A base-fee move of at most an eighth: true for all fees exactly when the gas limit is even or at most 1
  (`BaseFee.WithinEighthExactly`).
- An injective block pre-image: separators in fields make it collide. `BlockHash.SamePreImageExactly` says when, for fields
  without the bar.

Where comments and code differ, the code is followed.

- `node/src/bft.ts:392` speaks of a global evidence cap and of evicting from the same validator. The code evicts from a
  validator with the highest counter, and the assignment at line 407 undoes the decrement at line 403 when that is the
  validator being recorded. So the counter is an upper bound only, and no bound on the total is claimed.
- `node/src/mempool.ts:35` speaks of a Hoare partition; the code moves the pivot to the end and scans once, as modelled.

## Model

| member | source | states |
|---|---|---|
| `Quorum.QuorumOverlap` | node/src/bft.ts:47-54 | any two quorums share validators with strictly more than a third of all stake, for every stake distribution, floor rounding and zero total included |
| `Quorum.QuorumExactly` | node/src/bft.ts:47-77 | a set of voters is a quorum if and only if it holds more than two thirds of all stake, zero total included |
| `Quorum.ListQuorumExactly` | node/src/bft.ts:47-77 | the same for a list of voters without repetitions |
| `Quorum.StakeOfAll` | node/src/bft.ts:47-65 | if no id is listed twice, all validators together hold the total |
| `Quorum.StakeOfEntry` | node/src/bft.ts:59-65 | of entries with one id the last one gives the stake |
| `Quorum.TotalOfConcat` | node/src/bft.ts:47-54 | the total adds up over all entries |
| `Quorum.AccumulatedIsStakeOf` | node/src/bft.ts:59-77 | the running sum over a voter list without repetitions is the stake of the set of its lower-cased ids, and the quorum test on the list is the quorum test on the set |
| `Quorum.StakeSplit` | node/src/bft.ts:59-65 | stake is modular: union and intersection together weigh what the two sets weigh |
| `Quorum.StakeMonotone` | node/src/bft.ts:59-77 | more voters never weigh less, and a superset of a quorum is a quorum |
| `Quorum.EmptySetIsNoQuorum` | node/src/bft.ts:47-77 | nobody is never a quorum, not even when all stake is zero |
| `Round.BftRound.constructor` | node/src/bft.ts:86-96 | a round starts in the propose phase without votes |
| `Round.BftRound.HandlePropose` | node/src/bft.ts:102-141 | the round state moves as the value-level proposal step says, and a prepare vote goes out exactly when a validator accepts the proposal |
| `Round.BftRound.HandlePrepare` | node/src/bft.ts:147-206 | the round state moves as the prepare step says, with quorums summed along a voter list; a commit vote goes out exactly when a validator enters, and stays in, the commit phase |
| `Round.BftRound.HandleCommit` | node/src/bft.ts:213-256 | the round state moves as the commit step says, and it reports true exactly when this vote finalizes the round |
| `Round.BftRound.Fail` | node/src/bft.ts:299-301 | failing changes the phase and nothing else |
| `Round.BftRound.ReachesQuorum` | node/src/bft.ts:59-77 | listing the voters in any order and summing up their stakes decides the quorum of the set of voters |
| `Round.ProposeKeepsInv` | node/src/bft.ts:102-141 | a proposal keeps the round invariant: stored votes are by known validators for the proposed hash, a round past prepare holds a prepare quorum with a remote vote, a finalized one a commit quorum too |
| `Round.PrepareKeepsInv` | node/src/bft.ts:147-206 | a prepare vote keeps the round invariant, through the early-commit path as well |
| `Round.CommitKeepsInv` | node/src/bft.ts:213-256 | a commit vote keeps the round invariant |
| `Confluence.ProposalAccepted` | node/src/bft.ts:102-141 | a proposal is accepted exactly for the right height, by a known validator who is the block's proposer; otherwise nothing changes |
| `Confluence.TracksPrepare` | node/src/bft.ts:147-206 | after a prepare vote the phase is still the one the sets of valid senders determine |
| `Confluence.TracksCommit` | node/src/bft.ts:213-256 | after a commit vote the phase is still the one the sets of valid senders determine |
| `Confluence.PhaseOfSchedule` | node/src/bft.ts:102-256 | for a validator, after any sequence of votes the phase is a function of the two sets of valid senders alone, and so are both vote maps while preparing and the commit map while committing |
| `Confluence.FinalizedExactly` | node/src/bft.ts:147-256 | a validator that is no quorum by itself finalizes exactly when prepare senders and commit senders, each with the local id, are quorums |
| `Confluence.ObserverOrderMatters` | node/src/bft.ts:181-193 | at an observer, all prepares then all commits finalize, while all commits then all prepares leave the round in the commit phase |
| `Confluence.StaysInPrepare` | node/src/bft.ts:147-256 | if not even all validators are a quorum, no votes move a round out of the prepare phase |
| `Confluence.ConfluentExactly` | node/src/bft.ts:102-256 | the phase depends on the sets of valid senders alone if and only if the node is a validator or no quorum can form |
| `Detector.EquivocationDetector.RecordVote` | node/src/bft.ts:353-422 | the vote table becomes the recorded and pruned one; evidence comes back exactly for a conflicting vote and names both hashes; it is stored only below the validator's cap |
| `Detector.EquivocationDetector.StoreEvidence` | node/src/bft.ts:386-408 | nothing is stored for a validator at its cap; otherwise the entry comes last, its counter is one more than before, and at most the oldest entry of a busiest validator goes, only if full |
| `Detector.EquivocationDetector.EvictOldestOfBusiest` | node/src/bft.ts:392-405 | the eviction takes the first entry of a validator with the highest counter and keeps all counters as upper bounds |
| `Detector.EquivocationDetector.PruneOldHeights` | node/src/bft.ts:457-464 | the loop that deletes the lowest heights leaves exactly the highest tracked ones |
| `Detector.EquivocationDetector.ClearEvidenceBefore` | node/src/bft.ts:436-455 | the in-place compaction keeps exactly the entries from the given height on, in order, returns how many went, and lowers each counter by the entries of that validator that went |
| `Detector.TableBounded` | node/src/bft.ts:457-464 | over every history at most the configured number of heights is tracked, each one voted for |
| `Detector.RecordedWasCast` | node/src/bft.ts:353-384 | whatever hash the table holds was cast by that validator at that height and phase |
| `Detector.EvidenceSound` | node/src/bft.ts:372-385 | evidence is raised only against a validator that cast two different hashes at one height and phase |
| `Detector.RecordedStays` | node/src/bft.ts:353-422 | a recorded hash stays as long as its height is retained |
| `Detector.TwoHashesFlagged` | node/src/bft.ts:353-422 | of two different votes in one slot, the first not empty, one of the two calls raises evidence if the height is retained in between, whatever happened to it before |
| `Detector.WindowRetains` | node/src/bft.ts:457-464 | a height with fewer higher heights in the history than the limit is retained from its first vote on |
| `Detector.RecordedIsFirst` | node/src/bft.ts:353-422 | while a height is kept, the table holds in each slot the first non-empty hash ever cast there |
| `Detector.FlaggedExactly` | node/src/bft.ts:353-422 | while a height is kept, a vote is flagged if and only if its slot has a first non-empty hash and that is another one |
| `Detector.FlaggedExactlyInWindow` | node/src/bft.ts:353-464 | the same in terms of the history alone, for every vote with fewer higher heights in the history than the limit |
| `Detector.TwoHashesFlaggedInWindow` | node/src/bft.ts:353-464 | of two different votes in one slot one is flagged if and only if the first is not empty, or a non-empty hash was there before it, or one stands against the second |
| `Detector.SlotFlaggedExactly` | node/src/bft.ts:353-464 | sound and complete: a slot is flagged if and only if in it a non-empty hash is followed by a different one |
| `Detector.EmptyHashEscapes` | node/src/bft.ts:373-375 | an empty first hash is falsy in the source, so it can be voted away without evidence: why emptiness is part of the exact condition |
| `Coordinator.BftCoordinator.constructor` | node/src/bft-coordinator.ts:40-56 | a coordinator starts without round, buffer, deferred block or recorded votes |
| `Coordinator.BftCoordinator.Begin` | node/src/bft-coordinator.ts:68-122 | up to the first suspension: a round with votes defers the block, otherwise a round starts on it; a prepare vote goes out exactly when the new round accepted the block |
| `Coordinator.BftCoordinator.Drain` | node/src/bft-coordinator.ts:129-133 | buffered messages for the height come out in order, prepares and commits apart; later ones stay, older ones go |
| `Coordinator.BftCoordinator.HandleMessage` | node/src/bft-coordinator.ts:161-272 | buffering, authentication, equivocation and counting together are the delivery step; evidence, finalized block and outgoing commit vote are given exactly |
| `Coordinator.BftCoordinator.Count` | node/src/bft-coordinator.ts:226-271 | counting a vote finalizes and clears the round exactly as the value-level count does |
| `Coordinator.BftCoordinator.HandleReceivedBlock` | node/src/bft-coordinator.ts:305-344 | own, stale, deferring and superseding blocks are told apart as the step says, and a vote is announced exactly for a new accepted round |
| `Coordinator.BftCoordinator.ProcessDeferredBlock` | node/src/bft-coordinator.ts:387-413 | the deferred block is taken once and starts a round unless its height was finalized |
| `Coordinator.BftCoordinator.OnTimeout` | node/src/bft-coordinator.ts:356-379 | only a round still in progress is failed, and then the deferred block gets its turn |
| `Coordinator.BftCoordinator.StopAll` | node/src/bft-coordinator.ts:58-63 | stopping drops round, buffer and deferred block and keeps the recorded votes |
| `Coordinator.BftCoordinator.UpdateValidators` | node/src/bft-coordinator.ts:349-354 | an active round keeps the validators it started with |
| `Coordinator.CanonicalInjective` | node/src/bft-coordinator.ts:504-506 | the signed text determines phase, height and hash, whatever characters the hash has |
| `Progress.CanonicalText` | node/src/bft-coordinator.ts:504-506 | examples of the text that a signature covers |
| `Progress.ReceivedBlock` | node/src/bft-coordinator.ts:305-345 | a block of another proposer above the active round is deferred, and the round stays as it was, exactly if that round is in the commit phase, has a commit vote or two prepare votes; otherwise there is a fresh round on the block; nothing else changes |
| `Progress.ReceivedBlockKept` | node/src/bft-coordinator.ts:305-345 | so such a block is never lost: it is the deferred one or there is a round at its height |
| `Progress.ReceivedBlockIgnored` | node/src/bft-coordinator.ts:305-318 | the node's own block, and one not above the active round, change nothing |
| `Progress.StartedBlock` | node/src/bft-coordinator.ts:68-126 | starting a round defers the block if the active round has any vote, and otherwise opens a round on it |
| `Progress.TerminalIsNone` | node/src/bft-coordinator.ts:68-78 | a finalized or failed round counts as none |
| `Progress.DeferredStarts` | node/src/bft-coordinator.ts:387-413 | with no round active the deferred block gets its round if and only if it is above the last finalized height |
| `Progress.TimeoutMovesOn` | node/src/bft-coordinator.ts:356-375 | a timeout gives up the active round and starts one on the deferred block, if that is above the last finalized height |
| `Progress.ReceivedBlockGetsRound` | node/src/bft-coordinator.ts:305-413 | in any run, a received block above what is active and finalized has a round at once or after the next timeout |
| `Progress.BufferedExactly` | node/src/bft-coordinator.ts:161-188 | a message is buffered, last, if and only if no round is active or it is ahead by one to ten heights, the buffer has fewer than fifty and none of its sender, kind and height |
| `Progress.EarlyIsHarmless` | node/src/bft-coordinator.ts:161-188 | a message for another height changes nothing but the buffer |
| `Progress.PendingBounded` | node/src/bft-coordinator.ts:161-188 | over any run the buffer has at most fifty messages, one for each sender, kind and height |
| `Progress.LaterConserves` | node/src/bft-coordinator.ts:129-133 | draining keeps exactly the messages of higher heights, each as often as before |
| `Progress.DrainConserves` | node/src/bft-coordinator.ts:129-142 | it hands out exactly those of the height, commits apart from the others |
| `Progress.DrainKeepsOrder` | node/src/bft-coordinator.ts:129-142 | in both cases in their order |
| `Progress.UnsignedIgnored` | node/src/bft-coordinator.ts:190-212 | a vote without a signature that passes has no effect |
| `Progress.SignedIsCounted` | node/src/bft-coordinator.ts:214-272 | one with it that contradicts nothing is recorded and counted |
| `Progress.FinalizedHeight` | node/src/bft-coordinator.ts:226-272 | a step finalizes at most the block of the active round, which ends, and then notes its height; no other step moves that note |
| `Progress.LastFinalized` | node/src/bft-coordinator.ts:226-272 | after any run the note is the height of the last finalized block, or zero |
| `Progress.PrepareSent` | node/src/bft-coordinator.ts:113-126 | a prepare vote goes out exactly when a validator opens a round on a block of a known proposer, for its hash |
| `Progress.CommitSent` | node/src/bft-coordinator.ts:226-253 | a commit vote goes out exactly when a prepare vote takes a validator into the commit phase, for the hash of the round |
| `Safety.StepKeepsInv` | node/src/bft-coordinator.ts:68-413 | every step of a coordinator keeps the invariant of its active round |
| `Safety.RunKeepsInv` | node/src/bft-coordinator.ts:68-413 | so does every run |
| `Safety.FinalsOfStep` | node/src/bft-coordinator.ts:226-271 | a block is finalized only by an authentic, unflagged vote at the round's height, with both quorums at hand, and the round is gone afterwards |
| `Safety.VoteIsBacked` | node/src/bft-coordinator.ts:214-255 | every remote vote a round holds was delivered, authentic, at that height and for that hash |
| `Safety.RunIsBacked` | node/src/bft-coordinator.ts:161-272 | in any run every finalized block has two quorums whose remote votes were all delivered |
| `Safety.AccountableSafety` | node/src/bft.ts:147-256 | if two nodes with the same validators each finalize a block, then validators with more than a third of the stake are among the committers of both, and each node was delivered an authentic commit of every one of them but itself |
| `SingleNode.RunKeepsRecord` | node/src/bft-coordinator.ts:161-272 | over any run in the retained window, the remote votes of the active round and of every finalized block are on the detector's record, if the hash is not empty |
| `SingleNode.NoCommonRemoteVoter` | node/src/bft-coordinator.ts:214-255 | in the window, two different hashes finalized at one height have at most the local id in common, among preparers and among committers, unless one of them is empty |
| `SingleNode.SingleNodeSafety` | node/src/bft-coordinator.ts:161-272 | in any run of one node whose stake is at most a third of the total, two rounds at one height in the window never finalize different non-empty hashes |
| `ConflictingRuns.ConflictNeedsSplit` | node/src/bft-coordinator.ts:161-272 | two non-empty hashes finalized at one height in the window split the remote validators into two disjoint groups, each a quorum with the local id |
| `ConflictingRuns.SplitMakesConflict` | node/src/bft-coordinator.ts:68-272 | for every such split there is a run that finalizes two non-empty hashes at one height |
| `ConflictingRuns.FinalizeWith` | node/src/bft-coordinator.ts:68-272 | an idle node can be driven to finalize any acceptable block by any group that is a quorum with it and has not voted otherwise |
| `ConflictingRuns.ConflictExactly` | node/src/bft-coordinator.ts:68-272 | one node can finalize two non-empty hashes at one height, in the window, if and only if such a split exists |
| `ConflictingRuns.FinalNeedsGroup` | node/src/bft-coordinator.ts:68-272 | whatever is finalized, at a validator or an observer, there is a group of remote validators that reaches quorum with the local id |
| `ConflictingRuns.FinalizeTwo` | node/src/bft-coordinator.ts:68-272 | two groups that are disjoint, or one group and an empty first hash, finalize two hashes at one height, at a validator or an observer |
| `ConflictingRuns.AnyConflictExactly` | node/src/bft-coordinator.ts:68-272 | with an empty hash allowed, one node can finalize two hashes at one height in the window if and only if some group of remote validators reaches quorum with it |
| `ConflictingRuns.LightNodeConflicts` | node/src/bft-coordinator.ts:161-272 | a node with at most a third of the stake has no split, and with any group there is still a run that finalizes an empty and another hash |
| `ConflictingRuns.FourValidators` | node/src/bft-coordinator.ts:161-272 | four validators of one unit each are such a case |
| `LongRuns.RunTableBounded` | node/src/bft.ts:457-464 | over any run the coordinator's detector holds at most a hundred heights |
| `LongRuns.Climb` | node/src/bft-coordinator.ts:68-272 | a group that reaches quorum with the local id can finalize any number of heights one after the other |
| `LongRuns.LowestForgotten` | node/src/bft.ts:457-464 | after more heights than fit, finalized one after the other, the votes of the first are off the record |
| `LongRuns.ConflictBelowExactly` | node/src/bft-coordinator.ts:68-272 | for every n, one node can finalize two non-empty hashes at a height with n higher heights in the run if and only if a split exists, for n below a hundred, or a group, from a hundred on |
| `LongRuns.AnyConflictBelowExactly` | node/src/bft-coordinator.ts:68-272 | with an empty hash allowed, for every n if and only if a group exists |
| `Agreement.CommitsOnce` | node/src/bft-coordinator.ts:161-272 | over any run in the window, a node with at most a third of the stake is committed to at most one non-empty hash per height, finalized or not, however many rounds it runs there |
| `Agreement.SentIsCommitted` | node/src/bft-coordinator.ts:226-253 | the commit vote that a node sends out is for a hash it is committed to |
| `Agreement.NetworkAgreement` | node/src/bft-coordinator.ts:68-413 | if all but at most a third of the stake is with honest validators, each with at most a third and in the window, whose commits exist only for hashes they committed to, no two nodes finalize different non-empty hashes at one height |
| `Agreement.DisagreementNeedsTwoCommits` | node/src/bft-coordinator.ts:68-413 | for any hashes, stakes and lengths of runs: if two nodes finalize different hashes at one height, an honest validator committed to both |
| `Disagreement.CommitsTwoExactly` | node/src/bft-coordinator.ts:68-272 | for every n, a node can commit to two non-empty hashes at a height with n higher heights in the run if and only if a split exists, for n below a hundred, or a group, from a hundred on |
| `Disagreement.AnyCommitsTwoExactly` | node/src/bft-coordinator.ts:68-272 | with an empty hash allowed, for every n if and only if a group exists |
| `Disagreement.AnyDisagreementExactly` | node/src/bft-coordinator.ts:68-413 | with an empty hash allowed, a network as in the agreement theorem can disagree if and only if its validators together reach quorum and none has more than a third |
| `Disagreement.ProperDisagreementExactly` | node/src/bft-coordinator.ts:68-413 | with any stakes, a mostly honest network in the window can disagree on non-empty hashes if and only if some validator splits the others into two groups, each a quorum with it |
| `Disagreement.LongDisagreementExactly` | node/src/bft-coordinator.ts:68-413 | with runs of any length besides, if and only if some validator and some group of others reach quorum |
| `Select.Partition` | node/src/mempool.ts:42-53 | one pass around the pivot rearranges only its range and splits it at the returned place |
| `Select.PartialSelect` | node/src/mempool.ts:37-62 | it terminates and permutes for any comparison at all, and for any total preorder, ties included, the first `k` are not above the rest |
| `Pools.IndicesDetermined` | node/src/mempool.ts:64-74 | the sender and nonce indices of a coherent pool are determined by its transactions |
| `Pools.RemoveKeeps` | node/src/mempool.ts:393-407 | removal keeps the three indices exact and within bounds and takes out that hash only |
| `Pools.InsertKeeps` | node/src/mempool.ts:152-159 | insertion into a free slot keeps the three indices exact and within bounds |
| `Pools.FreshSlot` | node/src/mempool.ts:118-136 | after the old holder of a slot is removed, slot and hash are free, and a replaced holder leaves room in the pool and for the sender |
| `Pools.ReplacementPrice` | node/src/mempool.ts:122-128 | a price reaches the minimum for a replacement if and only if it is at least the old one raised by the bump in percent, exactly |
| `Pools.RefusedAtOnce` | node/src/mempool.ts:76-104 | which transactions are refused for want of a sender, for the chain id, as blobs or for more than 30 million gas; every other one is up to the pool |
| `Pools.RefusedToReplace` | node/src/mempool.ts:118-136 | against a transaction of the same sender and nonce, one is refused if and only if it pays less than the bump over it |
| `Pools.RefusedEntry` | node/src/mempool.ts:138-150 | without one, if and only if its sender has transactions and is at the limit, or the pool is full with nothing to evict |
| `Pools.ItemFields` | node/src/mempool.ts:84-116 | what the pool keeps of a transaction, with its price fields standing in for each other |
| `Pools.EvictedCount` | node/src/mempool.ts:409-415 | a batch is evicted, or all there is |
| `Pools.EvictFirst` | node/src/mempool.ts:409-425 | removing the first of a list that has its lowest ranked first leaves nothing that pays less, or as much and has waited longer, than what went |
| `Pools.LowestFirst` | node/src/mempool.ts:409-420 | the listing handed to eviction has every transaction once, with the lowest ranked first |
| `Mempool.TxPool.constructor` | node/src/mempool.ts:64-74 | a pool starts empty |
| `Mempool.TxPool.AddRawTx` | node/src/mempool.ts:76-162 | any refusal, failed replacement and full pool included, has the source's reason and leaves the pool as it was; an accepted transaction takes its slot, after an eviction exactly when the pool is still full; indices stay exact and bounded |
| `Mempool.TxPool.FreeSlot` | node/src/mempool.ts:118-136 | a replacement below the price bump is refused with no change; otherwise the old holder goes |
| `Mempool.TxPool.MakeRoom` | node/src/mempool.ts:144-150 | eviction makes room unless the batch size is not positive, and never frees or takes the newcomer's slot |
| `Mempool.TxPool.RemoveTx` | node/src/mempool.ts:393-407 | exactly that hash leaves all three indices; an unknown hash changes nothing |
| `Mempool.TxPool.EvictLowestFee` | node/src/mempool.ts:409-425 | exactly min(batch, size) transactions go, and each pays less than every survivor, or as much and has waited at least as long |
| `Mempool.TxPool.EvictExpired` | node/src/mempool.ts:191-202 | exactly the transactions no older than the time to live stay, and the count is right |
| `Mempool.TxPool.PickForBlock` | node/src/mempool.ts:204-282 | the picks keep the gas, count, base-fee and price limits, fall in effective price and have consecutive nonces from the chain's; exactly the expired transactions and only stale ones besides leave the pool; every eligible one still there was picked or found no place when its turn came |
| `Mempool.TxPool.PickRanked` | node/src/mempool.ts:245-281 | the loop over moving expected nonces and gas makes the picks and drops of the recursive specification |
| `Mempool.TxPool.GetPendingNonce` | node/src/mempool.ts:287-303 | the first nonce from the chain's on that the sender has no pending transaction for |
| `Mempool.BlockFromPool` | node/src/mempool.ts:204-282 | what picks and drops mean for a coherent pool, from ranking to the pool left behind |
| `Mempool.PayingIsSettled` | node/src/mempool.ts:204-282 | conversely, a transaction left in the pool that covers the base fee at no less than the minimum price was picked or found no place |
| `BlockBuilder.RankedValues` | node/src/mempool.ts:235-243 | the ranking has exactly the eligible transactions, once each, by falling effective price |
| `BlockBuilder.PickedNonces` | node/src/mempool.ts:262-281 | consecutive picks cover every nonce from the chain's up to the next expected one |
| `BlockBuilder.PicksMakeBlock` | node/src/mempool.ts:262-281 | the greedy picks from any ranked list form a valid block |
| `BlockBuilder.PricesFall` | node/src/mempool.ts:235-243 | along a block effective prices fall, at one price nonces rise, and at one nonce the older comes first |
| `BlockBuilder.PickedPays` | node/src/mempool.ts:230-236 | each transaction of a block has a fee cap, or without one a gas price, that covers the base fee, and earns the minimum price |
| `BlockBuilder.PriceIs` | node/src/mempool.ts:220-226 | with a cap and a tip the effective price is the lower of the cap and base fee plus tip, otherwise the gas price |
| `BlockBuilder.EligibleExactly` | node/src/mempool.ts:220-236 | what is eligible, on the fields of the transaction, in both directions |
| `BlockBuilder.DecodedPrice` | node/src/mempool.ts:76-236 | what a transaction pays, from the fields it was sent with |
| `BlockBuilder.NoncesClimb` | node/src/mempool.ts:245-281 | the first transaction of a sender in a block has the nonce on chain, each later one the nonce after the one before |
| `BlockBuilder.SumsOf` | node/src/mempool.ts:262-281 | gas and number of a sender's transactions add up |
| `BlockBuilder.FallenIsStale` | node/src/mempool.ts:268-274 | although the expected nonce moves, whatever the loop drops was already used on chain, since a slot is held once |
| `BlockBuilder.DropsAreStale` | node/src/mempool.ts:268-274 | no dropped transaction was picked, and each is below the chain's nonce |
| `BlockBuilder.AllSettled` | node/src/mempool.ts:262-281 | each ranked transaction was picked, dropped, or found no place when its turn came: the block was full, had no gas left for it, or missed an earlier one of its sender |
| `BlockBuilder.FullBlock` | node/src/mempool.ts:265-266 | stopping at the count limit picks and drops what going on would |
| `Merkle.BuildMerkleRoot` | node/src/ipfs-merkle.ts:11-26 | the level-by-level loop gives the recursively defined root, or the zero hash for no leaves |
| `Merkle.RootOfHalves` | node/src/ipfs-merkle.ts:11-26 | the root is the hash of the roots of a perfect left half and a right half as deep, complete or not |
| `Merkle.SmallRoots` | node/src/ipfs-merkle.ts:11-26 | one leaf is its own root, and a leaf without a partner is hashed with itself |
| `Merkle.BuildMerklePath` | node/src/ipfs-merkle.ts:28-51 | the path loop gives the siblings from leaf to root, with the source's answers for no leaves and for an index out of bounds |
| `Merkle.ComputeMerkleRoot` | runtime/coc-agent.ts:1429-1441 | the verifier's loop is the fold of a path over a leaf, for any finite number as index: a negative one counts on down, one that is not whole acts as the odd number next to it |
| `Merkle.PathReachesRoot` | node/src/ipfs-merkle.ts:11-51 | for every leaf of every list, odd levels included, folding its generated path gives the root, and the path has the depth of the tree |
| `Merkle.FoldInjective` | runtime/coc-agent.ts:1429-1441 | with an injective pair hash, paths of one length from one index to one root are equal, leaves and all |
| `Merkle.ProofBindsLeaf` | runtime/coc-agent.ts:239-251 | a path as long as the tree is deep is accepted, for any index at all, also one past the end, if and only if leaf and path are those of that place in the completed tree |
| `Merkle.SiblingsAreFullPath` | node/src/ipfs-merkle.ts:28-51 | the generated path of a leaf is its path in the completed tree |
| `Merkle.InteriorAccepted` | runtime/coc-agent.ts:239-251 | a node of any level is accepted with the path from there, so an accepted proof need not start from a leaf |
| `Merkle.AcceptedAtAnyLength` | runtime/coc-agent.ts:239-251 | a path of any length is accepted if and only if it starts from the node at its distance from the root, or, if longer, its excess leads up to a leaf, and it goes on as the path from there |
| `Merkle.AcceptedNodes` | node/src/ipfs-merkle.ts:4-58 | if no leaf is a pair hash, a proof is accepted if and only if it is the one of a node of the tree, and then it falls short of the depth exactly if it starts from a pair hash |
| `Merkle.SeparatedLeaves` | node/src/ipfs-merkle.ts:4-58 | if neither the claimed leaf nor any leaf is a pair hash, a proof of any length is accepted if and only if it is that of the leaf at the index |
| `Merkle.AcceptedExactly` | runtime/coc-agent.ts:239-251 | at a leaf's index a proof is accepted if and only if it is the generated one for that leaf, if it has full length or leaves are kept apart from pair hashes |
| `Merkle.SameRootExactly` | node/src/ipfs-merkle.ts:11-26 | leaf lists of one depth share a root if and only if they complete to the same perfect tree |
| `Merkle.RootInjective` | node/src/ipfs-merkle.ts:11-26 | leaf lists of one length with one root are equal |
| `Merkle.SeparatedRootsExactly` | node/src/ipfs-merkle.ts:4-58 | if no leaf is a pair hash, lists of any two lengths share a root if and only if they complete to the same tree |
| `Merkle.RepeatedLastKeepsRoot` | node/src/ipfs-merkle.ts:11-26 | equal length is needed: repeating the last of an odd number of leaves keeps the root |
| `Decimal.NumeralInjective` | node/src/hash.ts:4-20 | decimal rendering of integers loses nothing |
| `Decimal.DigitsValue` | node/src/hash.ts:4-20 | the digits of a number stand for it, without a leading zero |
| `BlockHash.JoinInjective` | node/src/hash.ts:4-20 | joining separator-free fields is injective, the number of fields included |
| `BlockHash.PreImageText` | node/src/hash.ts:16-19 | the hashed text, field by field |
| `BlockHash.JoinConcat` | node/src/hash.ts:16-19 | joining two lists is joining each, with the separator in between |
| `BlockHash.ZeroHashText` | node/src/hash.ts:29-31 | the parent of the first block is 64 zeros in hexadecimal |
| `BlockHash.PreImageInjective` | node/src/hash.ts:4-20 | block payloads with separator-free fields and one pre-image are equal, missing numbers reading as zero |
| `BlockHash.SamePreImageExactly` | node/src/hash.ts:4-20 | payloads without the bar in a field have one pre-image if and only if the joined transactions and the other nine fields agree |
| `BlockHash.UncleanCollisions` | node/src/hash.ts:4-20 | without that, payloads collide: a moved bar, and no transactions against one empty transaction |
| `ChainEngine.VerifyBlock` | node/src/chain-engine.ts:502-555 | one block passes exactly if hash, link, number, time, weight, proposer and signature are right |
| `ChainEngine.VerifyBlockChain` | node/src/chain-engine.ts:501-557 | the loop accepts exactly the sequences in which every block is right after the one before it |
| `ChainEngine.AcceptedExactly` | node/src/chain-engine.ts:501-557 | a sequence is accepted if and only if it is linked throughout, its times rise from any block to any later one, weights are the block numbers from where they start on, and each block has its own hash right, a proposer among the validators and a signature as the policy asks |
| `ChainEngine.HashText` | node/src/hash.ts:4-20 | which fields a block's hash covers |
| `ChainEngine.TipHashBindsChain` | node/src/chain-engine.ts:501-557 | with a collision-free digest, accepted sequences with one tip hash agree on every hashed field, counted back from the tip over their common length |
| `ChainEngine.TipHashBindsFullChain` | node/src/chain-engine.ts:501-557 | if both start at block 1, they also have one length and agree throughout |
| `ChainEngine.NumbersConsecutive` | node/src/chain-engine.ts:501-557 | accepted sequences are numbered without gaps |
| `ChainEngine.PushKeepsIndex` | node/src/chain-engine.ts:426-428 | appending the next block keeps array, number map and hash map the same blocks numbered from 1 |
| `ChainEngine.UpdateKeepsIndex` | node/src/chain-engine.ts:610-627 | replacing a block by one of the same number and hash keeps them so |
| `ChainEngine.Engine.constructor` | node/src/chain-engine.ts:50-70 | an engine starts empty |
| `ChainEngine.Engine.ApplyBlock` | node/src/chain-engine.ts:222-484 | a refused block has the source's first reason and changes nothing; a known one changes at most its BFT flag; a new one becomes the tip; in every case the maps agree and a block is finalized exactly when it is at least max(1, depth) below the tip; every stored chain goes on block by block from the first, within the gas limit |
| `ChainEngine.Engine.Promote` | node/src/chain-engine.ts:231-248 | a known block gains BFT finality only on the local path, and no other block changes |
| `ChainEngine.Engine.UpdateFinalityFlags` | node/src/chain-engine.ts:610-627 | flagging one block per append keeps final exactly the blocks deep enough below the tip |
| `ChainEngine.Engine.GetHighestFinalizedBlock` | node/src/chain-engine.ts:105-110 | the returned height separates finalized from open blocks: it is the greatest below the tip with at least the finality depth above it, or zero |
| `ChainEngine.Engine.FinalExactly` | node/src/chain-engine.ts:105-110 | in every reachable chain a block is final if and only if it is below the tip and its number plus the finality depth is at most the height |
| `ChainEngine.TakenExactly` | node/src/chain-engine.ts:250-424 | a block is taken if and only if it goes on from the tip (number, parent, turn, weight, hash), runs within 30 million gas and, unless local, has proper signatures, a later time at most a minute ahead and the gas it claims |
| `ChainEngine.RefusalNames` | node/src/chain-engine.ts:222-424 | every reason for a refusal names what is wrong with the block |
| `ChainEngine.Rotation` | node/src/chain-engine.ts:135-143 | validators take turns in order from height 1 on |
| `ChainEngine.StoredBlock` | node/src/chain-engine.ts:395-428 | what is stored of a block: all that its hash covers, the gas it took, and finality only on the node's own word |
| `ChainEngine.PromotedFlag` | node/src/chain-engine.ts:231-248 | a known block gains the BFT flag if and only if the node itself brings it with that flag |
| `ChainEngine.ReplayedDistinct` | node/src/chain-engine.ts:629-664 | replaying blocks with different hashes stores all of them in order |
| `ChainEngine.Engine.RebuildFromBlocks` | node/src/chain-engine.ts:629-664 | the chain becomes what replaying the input stores, each hash once and no flag taken on trust; on a refusal, what was replayed up to there |
| `Kademlia.XorDistance` | node/src/dht.ts:33-49 | the byte loop computes the number whose bytes are the padded xor |
| `Kademlia.DistanceSymmetric` | node/src/dht.ts:33-49 | distance is symmetric, ids of different length included |
| `Kademlia.DistanceUnidirectional` | node/src/dht.ts:33-49 | from one id, two ids of one length at the same distance are the same |
| `Kademlia.XorTwice` | node/src/dht.ts:33-49 | combining with an id twice gives the other back, and an id is at distance zero from itself |
| `Kademlia.DistanceFromZero` | node/src/dht.ts:33-49 | from the empty id an id is as far away as its value |
| `Kademlia.BytesValue` | node/src/dht.ts:392-402 | the bytes of an id are those of its hexadecimal number, an odd number of digits included |
| `Kademlia.PrefixOptional` | node/src/dht.ts:392-402 | a prefix 0x does not count |
| `Kademlia.BucketIndex` | node/src/dht.ts:55-67 | the shifting loop returns the position of the highest bit of the distance |
| `Kademlia.BucketRange` | node/src/dht.ts:55-67 | bucket `i` is for distances from 2^i up to below 2^(i+1), and distance 0 is in bucket 0 |
| `Kademlia.BucketFits` | node/src/dht.ts:55-67 | ids of at most 256 bits never index past the buckets |
| `RoutingTable.Table.constructor` | node/src/dht.ts:86-96 | a table starts with empty buckets and no counts, whatever the local id |
| `RoutingTable.Table.AddPeer` | node/src/dht.ts:104-192 | refusals, moves to the tail, quotas judged as by a full recount, room, eviction after a failed ping and refreshing after an answered one; buckets stay bounded, distinct and in range, and counters equal a recount |
| `RoutingTable.Table.RemovePeer` | node/src/dht.ts:197-208 | removes that peer and its count, or changes nothing |
| `RoutingTable.Table.GetPeer` | node/src/dht.ts:221-224 | looking in one bucket finds what a scan of all peers finds |
| `RoutingTable.Table.AllPeers` | node/src/dht.ts:229-235 | all peers, bucket by bucket |
| `RoutingTable.Table.FindClosest` | node/src/dht.ts:213-216 | the answer is in order of distance, as long as asked for, and no peer left out is closer than one taken; a malformed target throws exactly if there is something to compare |
| `RoutingTable.Table.ImportPeers` | node/src/dht.ts:263-282 | malformed entries are skipped, the others are added in turn with a clock reading each, the count is right, and no call throws if the local id has at most 256 bits |
| `RoutingTable.OfferKeeps` | node/src/dht.ts:117-186 | every outcome of an offer keeps at most K distinct peers of that distance range in the bucket |
| `RoutingTable.OfferExactly` | node/src/dht.ts:117-186 | a known id moves to the end; a new one of a crowded host is refused; with room it is put at the end; in a full bucket the oldest gives way if and only if it does not answer the ping, and moves to the end if it does |
| `RoutingTable.AddExactly` | node/src/dht.ts:104-192 | which ids are refused and which throw; any other changes its own bucket only |
| `RoutingTable.HostQuota` | node/src/dht.ts:130-150 | a new peer of another machine whose host has ten peers in the table or two in the bucket is refused without a change |
| `RoutingTable.AddedIsFound` | node/src/dht.ts:104-192 | an added peer is what a scan of the table finds for its id, with the time of the call |
| `RoutingTable.ImportExactly` | node/src/dht.ts:263-282 | which entries of an import are tried, and what they add to the count |
| `RoutingTable.ExactWithout` | node/src/dht.ts:284-295 | counting down with deletion at zero follows a recount when a peer goes |
| `RoutingTable.ExactAppend` | node/src/dht.ts:284-295 | counting up follows a recount when a peer comes |
| `RoutingTable.LookupIsScan` | node/src/dht.ts:221-224 | since every peer sits in the bucket of its id, one bucket decides |
| `PolicyExpr.Parser.ParseAll` | nodeops/expression-eval.ts:110-116 | the cursor-based parser gives the value of the recursive grammar and fails on anything left over |
| `PolicyExpr.Parser.Or` | nodeops/expression-eval.ts:119-127 | the loop agrees with the left-associative grammar, ends, moves on and stays before the end marker |
| `PolicyExpr.Parser.And` | nodeops/expression-eval.ts:130-138 | likewise for conjunctions |
| `PolicyExpr.Parser.Not` | nodeops/expression-eval.ts:141-147 | likewise for negations |
| `PolicyExpr.Parser.Comparison` | nodeops/expression-eval.ts:150-167 | likewise for comparisons, and a bare value is true unless it is zero |
| `PolicyExpr.Parser.Operand` | nodeops/expression-eval.ts:170-196 | likewise for numbers, variables and parentheses, with failure for unknown names and for numbers without a finite double |
| `PolicyText.Tokenize` | nodeops/expression-eval.ts:30-77 | the scanning loop gives the recursively defined token list, or fails on the same character |
| `PolicyText.LexEndsInEof` | nodeops/expression-eval.ts:30-77 | every token list ends in the end marker, which is what the parser needs to end |
| `PolicyText.EvaluateCondition` | nodeops/expression-eval.ts:205-219 | blank or overlong text has no value; any other has the value of its tokens |
| `PolicyRoundTrip.TokensRoundTrip` | nodeops/expression-eval.ts:81-197 | for every expression tree, parsing its tokens with minimal parentheses consumes them all and gives the tree's value |
| `PolicyRoundTrip.LexRender` | nodeops/expression-eval.ts:30-77 | tokens printed with spaces between them are read back unchanged |
| `PolicyRoundTrip.TextRoundTrip` | nodeops/expression-eval.ts:30-197 | for every expression tree, printing, tokenizing and parsing gives exactly the tree's truth value |
| `PolicyRoundTrip.ComparisonMeans` | nodeops/expression-eval.ts:150-167 | on the text, the six comparisons are those of the numbers |
| `PolicyRoundTrip.ConnectivesMean` | nodeops/expression-eval.ts:119-167 | on the text, the connectives are those of truth values and a bare value is true unless it is zero |
| `PolicyRoundTrip.ErrorsSpread` | nodeops/expression-eval.ts:119-138 | an error in either operand is an error of the whole: both sides are read |
| `PolicyRoundTrip.ComparisonText` | nodeops/expression-eval.ts:30-77 | how a comparison is written |
| `PolicyRoundTrip.AndText` | nodeops/expression-eval.ts:119-138 | how a conjunction is written |
| `PolicyRoundTrip.OrText` | nodeops/expression-eval.ts:119-138 | how a disjunction is written |
| `PolicyRoundTrip.NotText` | nodeops/expression-eval.ts:141-147 | how a negation is written |
| `PolicyRoundTrip.ParenthesisText` | nodeops/expression-eval.ts:188-193 | a part that binds less is written in parentheses |
| `PolicyGrammar.ParseExactly` | nodeops/expression-eval.ts:81-197 | tokens have a value if and only if they are exactly those of an expression tree with that value |
| `PolicyGrammar.EvaluateExactly` | nodeops/expression-eval.ts:30-219 | a text has a value if and only if it spells, apart from white space, a tree with that value; any other is an error |
| `PolicyGrammar.LexConserves` | nodeops/expression-eval.ts:30-77 | the tokens one after the other are the text without its white space |
| `PolicyGrammar.NumeralMeans` | nodeops/expression-eval.ts:56-62 | a numeral stands for its decimal value, with as many places as digits after the point |
| `PolicyGrammar.TwoPoints` | nodeops/expression-eval.ts:173-178 | a numeral with two points is an error |
| `PolicyGrammar.NameCharacters` | nodeops/expression-eval.ts:56-70 | which characters make names and numbers |
| `PolicyGrammar.SpaceCharacters` | nodeops/expression-eval.ts:35-36 | which characters are white space |
| `PolicyGrammar.TwoCharacters` | nodeops/expression-eval.ts:38-47 | operators of two characters are read first, whatever follows |
| `BaseFee.StaysAboveFloor` | node/src/base-fee.ts:24-52 | from the floor of 1 gwei on, no block takes the fee below it |
| `BaseFee.FeeExactly` | node/src/base-fee.ts:24-52 | the next fee for every fee, use and limit: an eighth of the fee times the relative distance from half the limit, rounded down once, up by at least 1, down to no less than 1 gwei |
| `BaseFee.MovesAtMostEighth` | node/src/base-fee.ts:24-52 | for even gas limits one block moves a fee from the floor up by at most an eighth of it |
| `BaseFee.OddLimitMovesMore` | node/src/base-fee.ts:24-52 | for every odd gas limit above 1 there is a fee that a full block moves further |
| `BaseFee.WithinEighthExactly` | node/src/base-fee.ts:24-52 | the eighth bound holds for all fees and uses if and only if the limit is even or at most 1 |
| `BaseFee.MonotoneInGasUsed` | node/src/base-fee.ts:24-52 | more gas used never means a lower next fee |
| `BaseFee.ReachesFloor` | node/src/base-fee.ts:24-52 | empty blocks bring any fee to the floor, after a number of them that is given |
| `BaseFee.FakeExponential` | node/src/base-fee.ts:89-99 | the loop ends for every numerator and positive denominator, though terms may first grow, and sums the truncated series |
| `BaseFee.TermShrinks` | node/src/base-fee.ts:89-99 | why it ends: each round lowers the distance to the turning point or, past it, the term |
| `BaseFee.TermExactly` | node/src/base-fee.ts:89-99 | each term is the one before times numerator / (denominator * i), rounded down |
| `BaseFee.FirstTerms` | node/src/base-fee.ts:89-99 | the series starts with the factor and the factor times numerator / denominator |
| `BaseFee.SeriesBelow` | node/src/base-fee.ts:89-99 | rounded down at every step, the sum is at most that of finitely many terms of the exponential series |
| `BaseFee.ExcessExactly` | node/src/base-fee.ts:71-75 | the excess is what exceeds 393216, or zero |
| `BaseFee.BlobPriceAtLeast` | node/src/base-fee.ts:81-99 | the blob price is at least 1 + excess / 3338477, rounded down, and at most the series divided by 3338477 |
| `BaseFee.ExponentialBounds` | node/src/base-fee.ts:89-99 | the result is at least the factor and monotone in factor and numerator |
| `BaseFee.BlobPriceMonotone` | node/src/base-fee.ts:71-99 | more blob gas used never means a lower blob price, and without excess the price is the minimum |
| `ForkChoice.BetterIsTotalOrder` | node/src/fork-choice.ts:37-82 | the five rules in order form a strict total order up to the letter case of hashes |
| `ForkChoice.CompareIsBetter` | node/src/fork-choice.ts:37-82 | the comparison names the better candidate winner and the other loser, and says "equal" exactly for equal keys |
| `ForkChoice.ReasonDecides` | node/src/fork-choice.ts:37-82 | the reason given is the first rule on which the candidates differ, and by it the winner is ahead: finality, longer chain, higher weight, lower hash, lower peer id |
| `ForkChoice.LessExactly` | node/src/fork-choice.ts:60-82 | strings are compared at their first difference, and a proper prefix comes first |
| `ForkChoice.SelectBestFork` | node/src/fork-choice.ts:87-97 | the loop gives the best of the list, or none of an empty one |
| `ForkChoice.BestIsMaximum` | node/src/fork-choice.ts:87-97 | the best is one of the candidates and none is better |
| `ForkChoice.BestOfPermutation` | node/src/fork-choice.ts:87-97 | any reordering of the candidates gives the same best, up to the letter case of its hash |
| `ForkChoice.SwitchesExactlyToBetter` | node/src/fork-choice.ts:103-112 | a switch is advised if and only if the remote fork is strictly better |
| `ForkChoice.SwitchesAscend` | node/src/fork-choice.ts:103-112 | along any run of switches forks strictly improve, so none is ever taken up again |
| `Proposer.ConsensusEngine.TryPropose` | node/src/consensus.ts:248-278 | a tick starts only if none is in flight and, outside sequencer mode, the node is neither syncing, degraded nor in a round |
| `Proposer.ConsensusEngine.AfterHeight` | node/src/consensus.ts:278-298 | below the proposed height the cached block goes out again or the tick ends; otherwise the cache is cleared and a proposal begins |
| `Proposer.ConsensusEngine.AfterBuild` | node/src/consensus.ts:300-313 | a built block is cached with its height, in BFT mode only, before it goes out |
| `Proposer.ConsensusEngine.AfterGossip` | node/src/consensus.ts:356-379 | after gossip the same block goes to the wire, if there is one |
| `Proposer.ConsensusEngine.StartRound` | node/src/consensus.ts:291-318 | in BFT mode the round is started on the block at hand, or again on the cached one |
| `Proposer.TickStarts` | node/src/consensus.ts:248-278 | when a tick starts, and that it reads the height first exactly if something was proposed before in BFT mode |
| `Proposer.FreshProposal` | node/src/consensus.ts:300-354 | a fresh block is cached in BFT mode and goes to gossip, to the wire if there is one, and to a BFT round |
| `Proposer.RepeatedProposal` | node/src/consensus.ts:278-298 | below the height last proposed the cached block goes the same way again, and nothing else changes, unless a round is active |
| `Proposer.GuardPassed` | node/src/consensus.ts:278-309 | at or above it the cache is cleared and the next block is built on the chain as it is then |
| `Proposer.StepKeepsInv` | node/src/consensus.ts:248-354 | every event keeps: a proposal that is no longer cached was overtaken by the chain, the cache is the last proposal, and what is built comes after that; unless the chain comes back, numbers do not repeat and rise |
| `Proposer.OneProposalPerHeight` | node/src/consensus.ts:248-354 | in BFT mode, over every interleaving in which the chain never shrinks, all blocks sent for a height are one block, and fresh proposal heights strictly increase |
| `Proposer.TwoBlocksExactly` | node/src/consensus.ts:248-354 | for every course of chain heights: some run with it sends two different blocks for one height if and only if the chain comes back to a height that it had left upward |
| `Proposer.FallBackExactly` | node/src/consensus.ts:248-354 | some run with it makes a proposal not above all earlier ones if and only if the chain comes back to, or below, a height that it had left upward |
| `Proposer.ForgetExactly` | node/src/consensus.ts:278-298 | some run with it ends below the proposed height with nothing cached if and only if the chain ends at, or below, a height that it had left upward |
| `Proposer.CachedWhenNeeded` | node/src/consensus.ts:278-298 | if the chain never shrinks, the proposal is still cached for re-broadcast whenever the chain is below the proposed height |
| `Proposer.ShrinkingChainRepeats` | node/src/consensus.ts:278-309 | the shortest failing course: up by one after a proposal and back before the next build, and one height gets two blocks |
| `PubsubRing.Topic.constructor` | node/src/ipfs-pubsub.ts:102-102 | a topic starts with an empty ring |
| `PubsubRing.Topic.Deliver` | node/src/ipfs-pubsub.ts:226-233 | writing at the head is appending to the bounded queue, the oldest dropped on overflow |
| `PubsubRing.Topic.GetRecentMessages` | node/src/ipfs-pubsub.ts:212-224 | the ring is read back as the queue, oldest first, full or not |
| `PubsubRing.Topic.Cleanup` | node/src/ipfs-pubsub.ts:246-272 | compaction keeps exactly the messages younger than the cutoff, in order |
| `PubsubRing.WriteDelivers` | node/src/ipfs-pubsub.ts:230-233 | one write and one step of the head, wrapping or not, is one delivery to the queue |
| `PubsubRing.DeliveredExactly` | node/src/ipfs-pubsub.ts:226-233 | a delivery keeps the last of the messages, as many as fit, the new one behind the others |
| `PubsubRing.YoungerExactly` | node/src/ipfs-pubsub.ts:246-272 | a cleanup keeps exactly the messages after the cutoff, in order |
| `PubsubRing.QueueIsSuffix` | node/src/ipfs-pubsub.ts:226-233 | after deliveries alone the queue is the last of them |
| `PubsubRing.Drive` | node/src/ipfs-pubsub.ts:212-276 | after any sequence of deliveries and cleanups, with capacity at least 1, the ring reports exactly what the bounded queue holds |

## Left out

- EVM execution, tracing, receipts and state tries: execution is an input that succeeds with a gas amount or fails.
- The persistent chain engine and its LevelDB storage; the in-memory engine is modelled.
- `txHashSet` of the chain engine: it is written before validation ends, so no atomicity is claimed for it.
- Interleavings across an `await` inside `applyBlock` and inside the routing table's ping: those calls run one at a time here.
- Signing, keccak and CIDs: abstract functions.
- Timers, vote retries, linger broadcasts, logging, HTTP and wire transport, and metrics.
- `isTimedOut` and the generic `handleMessage` of `BftRound`: a clock comparison and a dispatch on the message type.
- Syncing (`trySync`, snap sync), failure counters and degraded mode of the consensus engine: whether the node is syncing or degraded is an input of a tick.
- Fee histograms, statistics, pending-transaction listings and other read-only queries of the pool.
- Blob transactions beyond their refusal by the pool.
- Parsing and normalising of `host:port` addresses: a function from address to host is an input.
- Per-host quotas as invariants of the routing table: a known peer may change its host without a quota test.
- The rounding of decimal numerals to doubles: which double is nearest, and whether it is finite, is an input of the policy evaluation.
- MFS directories, peer scoring, rate limiters, relayer settlement, RPC, wallets, contracts and web applications.
- Merkle.ComputeMerkleRoot: does not take NaN or an infinity as index; both act as the index -1, which it takes.
- Detector.EquivocationDetector.StoreEvidence: does not bound the total evidence, because the counter overwritten at `node/src/bft.ts:407` can exceed what is stored, and then no eviction finds an entry.
- Coordinator.BftCoordinator.Begin: covers the part of `startRound` before its first suspension; signing and broadcasting of the returned vote are not modelled.
- Proposer.ConsensusEngine.TryPropose: the waits for the height and for the parent, a proposal that yields no block and the end of a tick are events of the value-level step only.
- Proposer.TwoBlocksExactly: does not model whose turn it is to propose, so a build may yield a block at any height.
