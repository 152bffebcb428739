# hive-native-features in Dafny

A model of the chain state machine of hive-native-features and of the performance
structures that are meant to speed it up without changing its meaning, with proofs that
the fast or stateful form agrees with a simple one.

`dafny verify dfyconfig.toml` checks everything.

## What is modelled

| files | subject |
|---|---|
| `Types`, `Chain`, `Evaluators` | names, amounts, validation, the database and its eleven evaluators. `Chain` describes acceptance and effect of each operation on values; `Evaluators.Database` is the mutable database, proved against it |
| `Sums`, `HtlcRuns` | whole-run properties of the HTLC escrow |
| `NftRuns` | whole-run properties of the NFT ledger |
| `Histories`, `HtlcHistory`, `NftHistory`, `ContractHistory`, `LogHistory` | every state read off the operations submitted before it: terms of HTLCs, collections and tokens, custody, contract storage, exactly when each operation is accepted, and the log as a journal of the state |
| `Traces`, `OpDependency`, `ConflictOrder`, `ScheduleOrder` | orders of partial transformers, greedy layering, and which batches it leaves in causal order |
| `ApplyScheduler`, `ReachedStates`, `ScheduleExactness`, `TouchSets`, `ScheduledApply` | scheduled against sequential application of the evaluators, and exactly when they agree, on states that runs from genesis reach |
| `ProbeTable`, `FlatHashMap`, `AccountIndex` | the open-addressing map with tombstones and the cache-aside account index on top of it |
| `WorkerPool` | the priority worker pool as an interleaving of its critical sections |
| `CompactBlocks` | compact block announcement and reconstruction |
| `HashDrivers` | padding and block loop of SHA-256 and RIPEMD-160 |
| `SelectiveUndo` | field-level undo |

Reading notes.

* A thrown `protocol_error` is `ok == false` (or `None`). What a failing operation leaves
  behind is modelled: nothing, except that a failing contract call keeps its log record and
  an empty storage entry.
* A run (`Chain.At`) is any sequence of the eleven operations, accepted or not, and of
  arbitrary settings of the head time. `IsChain(next, env)` says that `next` is the
  transition function of the evaluators; `Chain.Transition(env)` is that function.
* Integers are unbounded. That 64-bit balances never overflow is a theorem
  (`HtlcRuns.BalancesStayInRange`), not an assumption.
* The two hash functions and the contract engine are parameters (`Chain.Env`), as are the
  hash of the hash map, the short identifier of a transaction and the two compression
  functions. The results hold for all of them.
* `x & mask` is modelled by `%` and by an explicit wraparound; that capacities are powers of
  two, which makes these the same, is part of `FlatHashMap.HashMap.Valid`.
* States before and after scheduling are compared on every field of the database; only the
  virtual operation log is compared as a multiset (`ApplyScheduler.View`).

## Where the code does not do what its comments say

* *Layers preserve causal order across conflicts* (include/hive_native/perf/apply_scheduler.hpp:169).
  Greedy layering may move an operation in front of an earlier one it conflicts with: it does
  so only past an operation that conflicts with the earlier and not with the later one
  (`ConflictOrder.OvertakingNeedsBypass`). The conditions below are read off the touch sets of
  the batch.
  * One batch keeps its causal order, and is scheduled rightly for all semantics in which
    disjoint operations commute, exactly when every operation conflicts with earlier operations
    of all depths below its own, the depth being the number of operations before it on a
    longest chain of conflicts that ends in it (`ApplyScheduler.CausalOrderOfConflicts`, `SoundForTouchSetsExactly`).
  * All sub-batches of a batch do exactly when there are no three operations h, i, j in this
    order such that h conflicts with i, i with j and h not with j
    (`ApplyScheduler.SubBatchesSoundExactly`).
  * For the evaluators as they are, a batch and its sub-batches run as given in all
    environments and on all states reached from genesis exactly when there are no such three
    operations in which i and j are different moves of one token or different calls of one
    contract and all three pass validation; they then run as given on all states whose HTLCs
    hold something (`ScheduleExactness.RunsAsGivenExactly`).
  * `ApplyScheduler.ScheduleCanFail` gives three transfers that succeed as given and fail as
    scheduled, and `ScheduleFailureIsReached` a run from genesis to a state in which they do.
* *Insert or overwrite* (include/hive_native/perf/account_cache.hpp:43). Insertion stops at
  the first tombstone, so a key stored behind one is left there as a duplicate.
  Keys stay unique exactly when the table grows or no tombstone lies before the key
  (`ProbeTable.InsertedRefines`); erasing the key afterwards brings back the old value exactly
  in the other case (`ProbeTable.EraseAfterInsert`). A run on an account index, of whatever
  requests, keeps the index right at every point, that is, right on all continuations that
  create only new names, exactly when no request of the run creates a name that is already cached
  behind a tombstone (`AccountIndex.StaysRightExactly`; `CreateExactly` for one creation). Such
  runs are themselves answered as by the database alone (`UnshadowedRunsAnswerRight`), and runs
  that create only new names are such runs (`FreshRunsAnswerRight`). For every hash function six
  requests on a new index end in a balance the database no longer holds (`EveryHashGoesStale`).
* A malformed compact block without short identifiers passes as an empty block
  (`CompactBlocks.MalformedPasses`). The whole body comes back exactly when the announcement is
  well formed and all its short identifiers are known (`CompactBlocks.RebuildMeans`).
* Rollback restores values, not the map: accounts first touched in the session stay as zero
  entries (`SelectiveUndo.RollbackLeavesEntry`, and `RollbackRestoresMapExactly` for when they do
  not). It restores the values exactly when every record pushed first for its account without
  an adjustment of the bound map has the reading of the checkpoint
  (`SelectiveUndo.RollbackExactly`, and `RollbackAssignsNote` for an input where it does not).

## Model

| member | source | states |
|---|---|---|
| Types.ConstantTimeEqual | include/hive_native/util/types.hpp:123-128 | the accumulated difference is zero exactly when the byte strings are equal |
| Evaluators.Database.CreateAccount | src/chain/database.cpp:6-9 | exactly a valid name is accepted and then overwrites the entry |
| Evaluators.Database.AdjustBalance | src/chain/database.cpp:21-28 | accepted exactly if the account exists and a debit is covered; changes one field of one account by the amount |
| Evaluators.Database.OpenHtlcCount | src/chain/database.cpp:43-50 | the counting loop returns the cardinality of the set of the sender's open HTLCs |
| Evaluators.Database.ApplyCreateCollection | src/chain/evaluators_nft.cpp:17-41 | acceptance condition and whole new state |
| Evaluators.Database.ApplyMint | src/chain/evaluators_nft.cpp:43-73 | acceptance condition and whole new state |
| Evaluators.Database.ApplyTransfer | src/chain/evaluators_nft.cpp:75-102 | acceptance condition and whole new state |
| Evaluators.Database.ApplyApprove | src/chain/evaluators_nft.cpp:104-120 | acceptance condition and whole new state |
| Evaluators.Database.ApplyApproveAll | src/chain/evaluators_nft.cpp:122-149 | acceptance condition and whole new state |
| Evaluators.Database.ApplyBurn | src/chain/evaluators_nft.cpp:151-169 | acceptance condition and whole new state |
| Evaluators.Database.ApplyHtlcCreate | src/chain/evaluators_htlc.cpp:12-40 | acceptance condition, including the cap and cover by the balance, and whole new state |
| Evaluators.Database.ApplyHtlcRedeem | src/chain/evaluators_htlc.cpp:42-67 | acceptance condition and whole new state |
| Evaluators.Database.ApplyHtlcRefund | src/chain/evaluators_htlc.cpp:69-87 | acceptance condition and whole new state |
| Evaluators.Database.ApplyDeploy | src/chain/evaluators_contracts.cpp:12-39 | acceptance condition and whole new state |
| Evaluators.Database.ApplyCall | src/chain/evaluators_contracts.cpp:41-72 | acceptance condition and whole new state, including what a failed call leaves behind |
| Evaluators.CommitWrites | src/chain/evaluators_contracts.cpp:65-67 | committing key by key equals merging the staged writes over the storage |
| HtlcRuns.StepMovesEscrow | src/chain/evaluators_htlc.cpp:12-87 | every step of a run leaves balances and HTLCs alone, opens an HTLC, redeems one or refunds one |
| HtlcRuns.ReachableEscrow | src/chain/evaluators_htlc.cpp:12-40 | in every reachable state HTLCs have existing parties, positive amounts and lifetimes of 60 seconds to 30 days, and no sender has more than 256 open ones |
| HtlcRuns.OpenHtlcCanBeClosed | src/chain/evaluators_htlc.cpp:42-87 | in every reachable state the sender's refund of an open HTLC is accepted if and only if it has expired, and the receiver's redemption if and only if it has not and the preimage has the agreed size and digest |
| HtlcRuns.Conservation | src/chain/evaluators_htlc.cpp:12-87 | per symbol, balances plus open HTLC amounts are the same in every state of every run |
| HtlcRuns.BalancesStayInRange | src/chain/database.cpp:21-28 | from non-negative balances whose total fits 64 bits, every balance and locked amount of every reachable state is in range |
| HtlcRuns.AccountLaw | src/chain/evaluators_htlc.cpp:12-87 | every account's balance is its initial one less all it locked, plus redemptions to it and refunds to it |
| HtlcRuns.ClosedForever | src/chain/evaluators_htlc.cpp:49-80 | a closed HTLC is never changed again |
| HtlcRuns.PaidOnce | src/chain/evaluators_htlc.cpp:49-80 | at most one step of a run closes a given HTLC |
| HtlcRuns.PayoutIsRedemptionOrRefund | src/chain/evaluators_htlc.cpp:42-87 | the closing step is a redemption by the receiver before expiration with a matching preimage, paying the receiver, or a refund at or after expiration, paying the sender |
| HtlcRuns.BalancesChangeOnlyThroughHtlcs | src/chain/evaluators_htlc.cpp:12-87 | balances change only in steps that open or close an HTLC |
| Histories.AccountNames | include/hive_native/util/types.hpp:71-78 | valid names are those of one to sixteen characters, each a lower case letter, a digit, a dot or a dash |
| Histories.Setting | include/hive_native/chain/database.hpp:98-106 | in every state of a run configuration and accounts are those of genesis and the head time is the one set last |
| HtlcHistory.OfferRecorded | src/chain/evaluators_htlc.cpp:12-40 | an accepted creation takes the amount from the sender's field of that symbol and records receiver, amount, digest, preimage size, expiration and memo of the operation |
| HtlcHistory.OfferStands | src/chain/evaluators_htlc.cpp:23-35 | these terms stand in every later state |
| HtlcHistory.EveryHtlcWasOffered | src/chain/evaluators_htlc.cpp:12-40 | every HTLC of a reachable state comes from an accepted creation that was given its identifier |
| HtlcHistory.StatusByHistory | src/chain/evaluators_htlc.cpp:42-87 | an HTLC is redeemed or refunded if and only if an earlier accepted step did that |
| HtlcHistory.CreationAcceptedExactly | src/chain/evaluators_htlc.cpp:12-21 | a creation is accepted if and only if its terms are in bounds, both accounts exist, fewer than 256 offers of the sender are unsettled and its balance covers the amount |
| HtlcHistory.RedemptionAcceptedExactly | src/chain/evaluators_htlc.cpp:42-57 | a redemption is accepted if and only if the unsettled offer names the redeemer, has not expired, and its size and SHA-256 or RIPEMD-160 digest are those of the preimage |
| HtlcHistory.RefundAcceptedExactly | src/chain/evaluators_htlc.cpp:69-78 | a refund is accepted if and only if the unsettled offer was made by the account and has expired |
| HtlcHistory.PayoutFollowsOffer | src/chain/evaluators_htlc.cpp:42-87 | the step that closes an HTLC pays the offered amount to the offered receiver before the offered expiration for a preimage of the offered digest, or back to the sender from then on |
| NftRuns.StepChange | src/chain/evaluators_nft.cpp:17-169 | every step of a run makes one of the described ledger changes, caused by the operation that goes with it |
| NftRuns.ReachableSound | src/chain/evaluators_nft.cpp:17-169 | in every reachable state supply is the number of live tokens and within a non-zero maximum, and symbols and collections are in bijection |
| NftRuns.BurnGuardHolds | src/chain/evaluators_nft.cpp:162-164 | the guard on supply before a burn is always true |
| NftRuns.TokensComeAndGo | src/chain/evaluators_nft.cpp:43-169 | a token appears only by a mint of its collection's creator, under the next unused id, and disappears only when its owner burns it |
| NftRuns.IdentifiersNotReused | src/chain/evaluators_nft.cpp:58-69 | an id handed out before a state and present later was present all along with unchanged terms |
| NftRuns.SoulboundKeepsOwner | src/chain/evaluators_nft.cpp:87-94 | a soulbound token has the same owner in all states in which it exists |
| NftRuns.OwnerChangesOnlyByTransfer | src/chain/evaluators_nft.cpp:75-102 | an owner changes only by an accepted transfer, to its receiver |
| NftRuns.StandingApproval | src/chain/evaluators_nft.cpp:104-120 | a token approval standing in a reachable state was set by the present owner, who has owned the token ever since |
| NftRuns.StandingGrant | src/chain/evaluators_nft.cpp:122-149 | an operator grant standing in a reachable state was made by the owner and not revoked since |
| NftRuns.TransferIsAuthorised | src/chain/evaluators_nft.cpp:83-87 | every accepted transfer is by the owner, by an account the present owner approved since acquiring the token, or by an operator with an unrevoked grant from the present owner, and the token is not soulbound |
| NftHistory.ListingStands | src/chain/evaluators_nft.cpp:26-36 | a collection keeps creator, symbol, name, maximum supply and transferability of the operation that created it |
| NftHistory.EveryCollectionWasListed | src/chain/evaluators_nft.cpp:17-41 | every collection of a reachable state comes from an accepted creation that was given its identifier |
| NftHistory.ListingLimits | src/chain/evaluators_nft.cpp:53-66 | a collection never has more live tokens than its creation allows, and only soulbound ones if it was created as not transferable |
| NftHistory.MintStands | src/chain/evaluators_nft.cpp:58-69 | as long as a token exists it has collection, metadata and uri of its mint, the serial after the live tokens of then, and is soulbound if and only if the mint or the collection's creation says so |
| NftHistory.EveryTokenWasMinted | src/chain/evaluators_nft.cpp:43-73 | every token of a reachable state comes from an accepted mint that was given its identifier |
| NftHistory.CustodyByHistory | src/chain/evaluators_nft.cpp:43-169 | owner and approved account of every token are those told by the accepted mints, transfers, approvals and burns |
| NftHistory.GrantedExactly | src/chain/evaluators_nft.cpp:122-149 | an operator is granted if and only if some accepted step granted it and none since revoked it |
| NftHistory.CreationAcceptedExactly | src/chain/evaluators_nft.cpp:17-23 | a collection is created if and only if names are in bounds, the creator exists and no earlier creation took the symbol |
| NftHistory.MintAcceptedExactly | src/chain/evaluators_nft.cpp:43-54 | a mint is accepted if and only if it is in bounds, both accounts exist and the collection's creator mints below the maximum its creation gave |
| NftHistory.TransferAcceptedExactly | src/chain/evaluators_nft.cpp:75-90 | a transfer is accepted if and only if it is in bounds, to another existing account, and moves a token that is not soulbound and that the sender owns, was approved for by the present owner, or has an unrevoked grant for from that owner, for its collection or for all |
| NftHistory.ApprovalAcceptedExactly | src/chain/evaluators_nft.cpp:104-112 | an approval is accepted if and only if the holder approves an existing account or withdraws the approval |
| NftHistory.BurnAcceptedExactly | src/chain/evaluators_nft.cpp:151-157 | a burn is accepted if and only if the holder burns the token |
| NftHistory.GrantAcceptedExactly | src/chain/evaluators_nft.cpp:122-130 | a grant or revocation is accepted if and only if both accounts exist and differ and the collection, if given, was created |
| ContractHistory.StorageIsReplay | src/chain/evaluators_contracts.cpp:12-72 | in every later state a contract has owner, code and code hash of its deployment, and its storage is the replay of its calls from an empty one: the writes of every call whose run on that code and the storage so far succeeds |
| ContractHistory.CallAcceptedExactly | src/chain/evaluators_contracts.cpp:41-72 | a call of a deployed contract succeeds if and only if it is in bounds, its caller exists and the engine's run on the replayed storage succeeds; the log gains the outcome whenever the engine is asked |
| ContractHistory.UnknownContractRefused | src/chain/evaluators_contracts.cpp:47-48 | a call of a contract that was never deployed changes nothing |
| ContractHistory.DeploymentAcceptedExactly | src/chain/evaluators_contracts.cpp:12-23 | a deployment is accepted if and only if it is in bounds, its owner exists, a non-zero code hash is that of the code and the engine accepts it |
| ContractHistory.EveryContractWasDeployed | src/chain/evaluators_contracts.cpp:27-34 | every contract of a reachable state comes from an accepted deployment that was given its identifier |
| LogHistory.LogTellsState | src/chain/database.cpp:52-54 | in every reachable state the log, read from the start, tells owners and approvals of live tokens, grants, symbols, parties and status of HTLCs and owners of contracts |
| Traces.TraceEquivalence | include/hive_native/perf/apply_scheduler.hpp:167-172 | two orders are connected by swaps of independent neighbours if and only if no dependent pair changes order |
| Traces.OrdersAgree | include/hive_native/perf/apply_scheduler.hpp:167-172 | orders that keep all dependencies compute the same result or failure under every semantics in which independent operations commute |
| Traces.InversionObservable | include/hive_native/perf/apply_scheduler.hpp:167-172 | an inverted dependent pair is seen by some semantics in which all independent operations commute |
| OpDependency.FindPlace | include/hive_native/perf/op_dependency.hpp:46-55 | the search loop returns the first layer without an earlier conflicting operation |
| OpDependency.BuildParallelSchedule | include/hive_native/perf/op_dependency.hpp:40-65 | layer l lists, in input order, exactly the operations whose least unblocked layer is l; no layer is empty |
| OpDependency.LayersAreGreedy | include/hive_native/perf/op_dependency.hpp:36-38 | each operation sits in the least layer in which no earlier operation conflicts with it |
| OpDependency.GreedyIsUnique | include/hive_native/perf/op_dependency.hpp:36-38 | that condition determines the layering |
| OpDependency.MembersOf | include/hive_native/perf/op_dependency.hpp:61 | a layer holds each of its positions once, in increasing order, and nothing else |
| OpDependency.SameLayerIndependent | include/hive_native/perf/op_dependency.hpp:45-63 | operations of one layer do not conflict |
| OpDependency.GlobalAlone | include/hive_native/perf/op_dependency.hpp:48-63 | a global operation is alone in its layer |
| OpDependency.ContainedRunsFirst | include/hive_native/perf/op_dependency.hpp:45-63 | an earlier conflicting operation whose touch set is contained in the later one's sits in a strictly earlier layer |
| OpDependency.LayerBound | include/hive_native/perf/op_dependency.hpp:45-63 | an operation's layer number is at most the number of earlier operations it conflicts with |
| OpDependency.LayerCountBound | include/hive_native/perf/op_dependency.hpp:40-65 | there are at most one plus the maximum conflict degree many layers |
| ConflictOrder.OvertakingNeedsBypass | include/hive_native/perf/op_dependency.hpp:45-63 | a later operation gets a smaller layer only past an operation that conflicts with the earlier one and not with the later |
| ConflictOrder.ThreeOvertake | include/hive_native/perf/op_dependency.hpp:45-63 | in a batch of three the last operation is placed before the second if and only if the first conflicts with the second only |
| ConflictOrder.DepthIsLongestChain | include/hive_native/perf/op_dependency.hpp:36-38 | the depth of an operation is one less than the length of the longest chain of conflicts that ends in it |
| ConflictOrder.KeptExactlyWhenStepped | include/hive_native/perf/op_dependency.hpp:36-63 | every conflicting pair keeps its order if and only if every operation conflicts with earlier operations of all depths below its own, and layers then are depths |
| ScheduleOrder.FlattenSorted | include/hive_native/perf/apply_scheduler.hpp:192-197 | running layer by layer visits every operation, ordered by layer and then position |
| ScheduleOrder.CausalOrderKept | include/hive_native/perf/apply_scheduler.hpp:167-172 | the layer order is trace equivalent to the given order if and only if no dependent pair is inverted |
| ScheduleOrder.ScheduleSoundExactly | include/hive_native/perf/apply_scheduler.hpp:167-172 | layering agrees with the given order under all semantics respecting the dependencies if and only if no dependent pair is inverted |
| ApplyScheduler.ViewStepIsApplyOne | include/hive_native/perf/apply_scheduler.hpp:147-163 | evaluators neither read the log nor do more to it than append one record |
| ApplyScheduler.InterferenceIsConflict | include/hive_native/perf/apply_scheduler.hpp:62-103 | operations on the same token, HTLC, contract or payee always have overlapping touch sets |
| ApplyScheduler.NonInterferingCommute | include/hive_native/perf/apply_scheduler.hpp:147-163 | operations that do not interfere commute as partial functions on every state |
| ApplyScheduler.ScheduleAgreesWithGivenOrder | include/hive_native/perf/apply_scheduler.hpp:173-199 | if no operation of the batch conflicts with the first of an interfering pair and not with the second, the schedule succeeds exactly when the given order does and ends in the same state, from every state |
| ApplyScheduler.KeptInterferenceAgrees | include/hive_native/perf/apply_scheduler.hpp:173-199 | if no interfering pair is inverted, the schedule succeeds exactly when the given order does and ends in the same state |
| ApplyScheduler.KeptConflictsAgree | include/hive_native/perf/apply_scheduler.hpp:173-199 | the same if no pair with overlapping touch sets is inverted |
| ApplyScheduler.SubBatchesKeepOrderExactly | include/hive_native/perf/op_dependency.hpp:40-65 | for any relation, all sub-batches are layered without inverting a related pair if and only if no operation conflicts with the first of a related pair and not with the second |
| ApplyScheduler.LayerRunsInAnyOrder | include/hive_native/perf/apply_scheduler.hpp:170-171 | any rearrangement of a layer has the same success and final state, from every state |
| ApplyScheduler.CausalOrderOfConflicts | include/hive_native/perf/apply_scheduler.hpp:169 | causal order across conflicts is preserved if and only if every operation conflicts with earlier operations of all depths below its own |
| ApplyScheduler.SoundForTouchSetsExactly | include/hive_native/perf/apply_scheduler.hpp:167-172 | on the same condition, and only then, scheduling is right for every semantics in which disjoint touch sets commute |
| ApplyScheduler.SubBatchesSoundExactly | include/hive_native/perf/apply_scheduler.hpp:167-172 | scheduling all sub-batches is right for every such semantics if and only if no operation conflicts with the first of a conflicting pair and not with the second |
| ApplyScheduler.NestedConflictsAgree | include/hive_native/perf/op_dependency.hpp:45-63 | batches whose conflicts are between nested touch sets always run as given |
| ApplyScheduler.ScheduleCanFail | include/hive_native/perf/op_dependency.hpp:47-54 | three transfers that succeed as given and fail as scheduled whenever alice owns both tokens and bob has no approval |
| ApplyScheduler.ScheduleFailureIsReached | include/hive_native/perf/op_dependency.hpp:47-54 | a collection and five mints from genesis lead to a state in which they do |
| ScheduleExactness.TransfersCommuteExactly | src/chain/evaluators_nft.cpp:75-102 | two valid transfers commute on all states if and only if they move different tokens or make the same move |
| ScheduleExactness.ReachableFunded | src/chain/evaluators_htlc.cpp:12-40 | every HTLC of a reachable state holds a positive amount |
| ScheduleExactness.RedemptionsCommute | src/chain/evaluators_htlc.cpp:42-67 | on such states any two redemptions commute, of one HTLC or to one account or not |
| ScheduleExactness.CommuteExactly | include/hive_native/perf/apply_scheduler.hpp:147-163 | two operations commute in all environments and on all states reached from genesis, and just as well on all states whose HTLCs hold something, if and only if they are not valid and different moves of one token or calls of one contract |
| ScheduleExactness.OvertakingFreeAgrees | include/hive_native/perf/apply_scheduler.hpp:173-199 | on such states a batch succeeds as scheduled exactly when it does as given, and ends in the same state, if no valid operation conflicts with the first of a clashing pair and not with the second |
| ScheduleExactness.RunsAsGivenExactly | include/hive_native/perf/apply_scheduler.hpp:173-199 | a batch and its sub-batches run as given in all environments and on all states reached from genesis, and just as well on all states whose HTLCs hold something, if and only if there is no such operation |
| ScheduleExactness.StageDiffers | include/hive_native/perf/apply_scheduler.hpp:173-199 | for every valid operation and clashing pair it does not interfere with, a run from genesis ends in a state in which the operation succeeds and the pair then tells its order apart |
| TouchSets.ConflictExactly | include/hive_native/perf/apply_scheduler.hpp:62-103 | two valid operations conflict if and only if one is global, they name a common account, or they act on the same token, HTLC or contract |
| TouchSets.DecimalInjective | include/hive_native/perf/apply_scheduler.hpp:68 | different numbers have different decimal numerals |
| ScheduledApply.ClassifyAll | include/hive_native/perf/apply_scheduler.hpp:121-127 | every operation is classified under its position, and the touch sets of two valid ones conflict if and only if the operations overlap in one of these ways |
| ScheduledApply.MarkerOnlyLogs | include/hive_native/perf/apply_scheduler.hpp:157-159 | a global marker is accepted, adds a record with its name to the log and changes nothing else |
| ScheduledApply.PlanSchedule | include/hive_native/perf/apply_scheduler.hpp:202-218 | layers are the greedy ones and the width is the size of a largest layer |
| ScheduledApply.RunDbIsRun | include/hive_native/perf/apply_scheduler.hpp:192-197 | running on the database and running on views succeed and end alike |
| ScheduledApply.ApplyScheduled | include/hive_native/perf/apply_scheduler.hpp:173-199 | final database, log and point of failure are those of the flattened schedule; if the batch has nothing that holds back the first of an interfering pair alone, or on a funded database of a clashing pair, success and final state are those of the given order |
| ProbeTable.SearchEnd | include/hive_native/perf/flat_hash_map.hpp:45-56 | a search ends at the first slot on the path that is empty or holds the key |
| ProbeTable.InsertEnd | include/hive_native/perf/flat_hash_map.hpp:30-42 | an insertion ends at the first slot on the path that is not full or holds the key |
| ProbeTable.InsertionStops | include/hive_native/perf/flat_hash_map.hpp:30-42 | the unbounded loop ends inside the table whenever some slot is not full |
| ProbeTable.LookupIsContents | include/hive_native/perf/flat_hash_map.hpp:45-56 | with unique keys a search finds exactly the contents |
| ProbeTable.PlaceKeepsUnique | include/hive_native/perf/flat_hash_map.hpp:32-39 | placing keeps keys unique if and only if no tombstone lies before the stored key |
| ProbeTable.RebuiltHolds | include/hive_native/perf/flat_hash_map.hpp:83-92 | rehashing leaves no tombstones and no duplicates and keeps the contents |
| ProbeTable.InsertedRefines | include/hive_native/perf/flat_hash_map.hpp:26-43 | insertion makes the key findable with its value and no other key changes; keys stay unique, and contents are the updated map, if and only if the table grew or the key was not behind a tombstone |
| ProbeTable.ErasedRefines | include/hive_native/perf/flat_hash_map.hpp:62-77 | erasing removes exactly the key |
| ProbeTable.RunRefinesMap | include/hive_native/perf/flat_hash_map.hpp:26-92 | over every careful run the table answers as the map does and counts its keys |
| ProbeTable.FreshIsCareful | include/hive_native/perf/flat_hash_map.hpp:26-92 | runs that insert only absent keys are careful |
| ProbeTable.EraseAfterInsert | include/hive_native/perf/flat_hash_map.hpp:32 | erasing an inserted key removes it, or brings back its former value exactly when it was stored behind a tombstone and the table did not grow |
| ProbeTable.CollisionHidesKey | include/hive_native/perf/flat_hash_map.hpp:67-68 | two colliding keys and one erasure suffice to store a key behind a tombstone |
| FlatHashMap.HashMap.constructor | include/hive_native/perf/flat_hash_map.hpp:16 | an empty map whose capacity is the least power of two at or above the requested one, and at least eight |
| FlatHashMap.HashMap.Clear | include/hive_native/perf/flat_hash_map.hpp:18-21 | empties the map, capacity kept |
| FlatHashMap.HashMap.PutSlot | include/hive_native/perf/flat_hash_map.hpp:28-42 | the probe loop terminates and writes the slot where insertion ends; the size counts full slots |
| FlatHashMap.HashMap.Insert | include/hive_native/perf/flat_hash_map.hpp:26-43 | new slots; the table doubles if and only if seven tenths or more are full; from unique keys, uniqueness if and only if grown or not behind a tombstone, and then the updated map and a correct report |
| FlatHashMap.HashMap.FindSlot | include/hive_native/perf/flat_hash_map.hpp:45-56 | the bounded loop returns the slot a search finds |
| FlatHashMap.HashMap.Lookup | include/hive_native/perf/flat_hash_map.hpp:45-60 | with unique keys, the map's value or none |
| FlatHashMap.HashMap.Erase | include/hive_native/perf/flat_hash_map.hpp:62-77 | with unique keys, the map without the key and a correct report |
| FlatHashMap.HashMap.Rehash | include/hive_native/perf/flat_hash_map.hpp:83-92 | reinsertion of all full slots into a table of the next power of two, without growing again |
| AccountIndex.Index.SetCacheEnabled | include/hive_native/chain/account_index.hpp:32-35 | whole new state; switching off empties the cache |
| AccountIndex.Index.Create | include/hive_native/chain/account_index.hpp:40-44 | whole new state: written through, and put into the cache when it is on |
| AccountIndex.Index.Find | include/hive_native/chain/account_index.hpp:54-65 | answer and whole new state: a hit answers from the cache, a miss from the database, and fills the cache |
| AccountIndex.Index.GetBalance | include/hive_native/chain/account_index.hpp:67-71 | the hive or hbd field of what a lookup sees, or none, and whole new state |
| AccountIndex.Index.AdjustBalance | include/hive_native/chain/account_index.hpp:77-81 | whole new state: written through, and dropped from the cache when accepted |
| AccountIndex.Index.ServeAll | include/hive_native/chain/account_index.hpp:32-83 | any run of requests has the answers and the final state of the index on values |
| AccountIndex.ServedIsCoherent | include/hive_native/chain/account_index.hpp:32-83 | a coherent index answers every request as the database alone would, and stays coherent unless a name cached behind a tombstone is created |
| AccountIndex.UnshadowedRunsAnswerRight | include/hive_native/chain/account_index.hpp:32-83 | every run in which no request creates a name already cached behind a tombstone is answered exactly as by the database without a cache, and leaves the index coherent |
| AccountIndex.FreshRunsAnswerRight | include/hive_native/chain/account_index.hpp:32-83 | so is every run that creates only new names |
| AccountIndex.AnswersAreBalances | include/hive_native/chain/account_index.hpp:32-83 | after a run that never shadows, lookups and readings answer with the hive and hbd fields that the creations and adjustments of the account add up to, and an adjustment is accepted if and only if the account exists and a debit is covered |
| AccountIndex.FindFillsCache | include/hive_native/chain/account_index.hpp:59-64 | a lookup that finds an account leaves its balance in the cache |
| AccountIndex.AdjustmentDropsEntry | include/hive_native/chain/account_index.hpp:77-81 | an accepted adjustment takes the account out of the cache |
| AccountIndex.ClearingEmpties | include/hive_native/chain/account_index.hpp:32-35 | clearing the cache and switching it off empty it |
| AccountIndex.CreateExactly | include/hive_native/chain/account_index.hpp:40-44 | after creating an account all later runs that create only new names are answered rightly if and only if the name was not cached behind a tombstone in a table that did not grow |
| AccountIndex.StaysRightExactly | include/hive_native/chain/account_index.hpp:32-83 | for any run on a coherent index, the index is right in this sense at the start and after every request if and only if no request of the run creates a name already cached behind a tombstone |
| AccountIndex.StaleAfterCreate | include/hive_native/chain/account_index.hpp:40-81 | otherwise a lookup after an adjustment answers with the balance from before the creation |
| AccountIndex.HidingShadows | include/hive_native/chain/account_index.hpp:40-81 | two names with one home slot, two creations and an adjustment lead a new index there |
| AccountIndex.CollidingNames | include/hive_native/perf/flat_hash_map.hpp:29 | every hash function sends two valid names to one of sixty-four slots |
| AccountIndex.EveryHashGoesStale | include/hive_native/chain/account_index.hpp:32-83 | for every hash function there are names for which six requests on a new index end in an answer with the old balance, where the database alone answers with the new one |
| WorkerPool.Pool.Pop | include/hive_native/perf/worker_pool.hpp:67-76 | removes the front of the first non-empty queue, and fails exactly when all are empty |
| WorkerPool.Pool.Wake | include/hive_native/perf/worker_pool.hpp:78-86 | a woken worker leaves exactly if the pool is stopping and empty; otherwise taking succeeds |
| WorkerPool.Pool.IsIdle | include/hive_native/perf/worker_pool.hpp:49-54 | the test made while waiting for idleness |
| WorkerPool.StepKeepsInv | include/hive_native/perf/worker_pool.hpp:31-96 | every critical section keeps the counters, the per-level order and the shutdown condition |
| WorkerPool.TasksConserved | include/hive_native/perf/worker_pool.hpp:40-93 | in every interleaving submitted equals queued plus in flight plus completed |
| WorkerPool.TakenExactlyOnce | include/hive_native/perf/worker_pool.hpp:67-93 | each submitted task has been taken once or still waits in its queue; each taken one is running or finished once |
| WorkerPool.TakesMostUrgent | include/hive_native/perf/worker_pool.hpp:67-76 | a removal takes the most urgent queued task, and the earliest submitted of its level |
| WorkerPool.IdleMeansComplete | include/hive_native/perf/worker_pool.hpp:49-54 | waiting returns only when every submitted task has finished |
| WorkerPool.LeavesNothingBehind | include/hive_native/perf/worker_pool.hpp:31-38 | when all workers have left, every task, including those submitted by tasks, has finished |
| WorkerPool.StoppingPoolMoves | include/hive_native/perf/worker_pool.hpp:78-96 | in a stopping pool every remaining worker can step |
| WorkerPool.DrainIsBounded | include/hive_native/perf/worker_pool.hpp:78-96 | without submissions the number of worker steps is bounded by the work left |
| CompactBlocks.MakeCompactBlock | include/hive_native/perf/compact_block.hpp:159-178 | the announcement has the header given, in full exactly the transactions at listed indexes in range, and the short identifiers of the others in block order |
| CompactBlocks.Reconstruct | include/hive_native/perf/compact_block.hpp:96-152 | the result is that of reading off the announced source of each position; for a well formed announcement the missing identifiers are the unknown ones in order, and the whole body comes back if and only if the announcement is well formed and all are known |
| CompactBlocks.LayoutIsDescription | include/hive_native/perf/compact_block.hpp:120-142 | for every well formed announcement there is one assignment of sources with the prefilled transactions at their indexes and the short identifiers in order elsewhere, and it is the one used |
| CompactBlocks.FillSlots | include/hive_native/perf/compact_block.hpp:115-151 | after index validation neither of the two late malformed branches is taken |
| CompactBlocks.RoundTrip | include/hive_native/perf/compact_block.hpp:96-178 | for every body, prefill list and correct mempool, reconstruction returns the body, or exactly the absent short identifiers in block order |
| CompactBlocks.RetrySucceeds | include/hive_native/perf/compact_block.hpp:73-78 | correct answers to the listed identifiers make the retry return the body |
| CompactBlocks.RebuildMeans | include/hive_native/perf/compact_block.hpp:96-152 | for every announcement: what is missing, when the whole body comes back and what it is; a malformed one yields nothing and passes if and only if it has no short identifiers |
| CompactBlocks.MalformedPasses | include/hive_native/perf/compact_block.hpp:103-113 | an announcement of one transaction at index one passes as an empty block |
| HashDrivers.PaddingIsLeast | src/util/crypto.cpp:63-74 | the zero count is the least that completes a block |
| HashDrivers.PaddingIsStandard | src/util/crypto.cpp:63-73 | in bits, the padding is that of section 5.1.1 of FIPS 180-4: a one, the least number of zeros to 448 modulo 512, and the length as 64 bits |
| HashDrivers.LittleEndianIsReversed | src/util/crypto.cpp:172-174 | the length field of RIPEMD-160 is that of SHA-256 backwards |
| HashDrivers.FoldIsBlockwise | src/util/crypto.cpp:59-62 | folding over joined blocks of 64 bytes compresses every block once, in order |
| HashDrivers.PaddingInjective | src/util/crypto.cpp:63-74 | different messages have different padded forms |
| HashDrivers.DriversSeparateMessages | src/util/crypto.cpp:52-177 | both drivers compress different block sequences for different messages of any length |
| HashDrivers.LengthFieldsExact | src/util/crypto.cpp:71-73 | below 2^61 bytes the length fields hold the length in bits |
| HashDrivers.WholeBlocks | src/util/crypto.cpp:59-62 | the loop folds the compression function over the whole blocks |
| HashDrivers.TailBlocks | src/util/crypto.cpp:63-74 | the remainder takes one block, or two when the length no longer fits |
| HashDrivers.Sha256Driver | src/util/crypto.cpp:52-74 | the driver is the fold over the message padded as in section 5.1.1 of FIPS 180-4 |
| HashDrivers.Ripemd160Driver | src/util/crypto.cpp:156-177 | the same with a little-endian length |
| SelectiveUndo.AdjustBalance | include/hive_native/perf/selective_undo.hpp:78-85 | records the prior readings of the given map in the session, then adds the deltas to that map, whether or not the session is bound to it |
| SelectiveUndo.UndoSession.PushBalanceChange | include/hive_native/perf/selective_undo.hpp:49-51 | adds a record and changes no balance |
| SelectiveUndo.UndoSession.RollbackAll | include/hive_native/perf/selective_undo.hpp:54-61 | the backward loop undoes the records from the latest to the earliest |
| SelectiveUndo.AdjustmentsAddUp | include/hive_native/perf/selective_undo.hpp:78-85 | between checkpoints each field of an account is its reading at the checkpoint plus the sum of the deltas of that field |
| SelectiveUndo.RollbackExactly | include/hive_native/perf/selective_undo.hpp:41-85 | a rollback restores every account's readings at the last commit, rollback or start if and only if every record pushed first for its account without an adjustment has the reading of that time |
| SelectiveUndo.RollbackRestores | include/hive_native/perf/selective_undo.hpp:41-85 | so it always does when the bound map was adjusted, however often |
| SelectiveUndo.RollbackRestoresMapExactly | include/hive_native/perf/selective_undo.hpp:54-61 | the map itself is restored if and only if the readings are and every touched account existed at the checkpoint |
| SelectiveUndo.RollbackLeavesEntry | include/hive_native/perf/selective_undo.hpp:54-61 | adjusting an absent account and rolling back leaves a zero entry |
| SelectiveUndo.RollbackAssignsNote | include/hive_native/perf/selective_undo.hpp:49-61 | rolling back a pushed record of other values makes them the account's reading |

## Left out

- HashDrivers.Sha256Driver: the compression functions are parameters, and the digest bytes written from the final state words are not modelled.
- SelectiveUndo.AdjustBalance: 64-bit overflow of a balance is not modelled.
- CompactBlocks.MakeCompactBlock: blocks of more than 2^32 transactions are excluded.
- Uniqueness of `token_serial`: it is supply plus one, and burning lowers supply, so it is not claimed.
- Resource credit costs, `last_rc_charged`, the text of virtual operation payloads and exception messages, hit and miss counters, and `parallelism_factor`.
- The contract engine and the plugin around it.
- Exhaustion of the 64-bit id counters.
- Account creation inside a run of operations: it overwrites balances, so runs start from any set of accounts.
- Threads, mutexes and condition variables below the level of critical sections; clients are taken not to submit once the pool's destructor runs.
- `xxhash64`, the Bloom filter, the known transaction set, the arena, vectorised arithmetic, node profiles, RocksDB presets, API stubs, the TypeScript SDK, SQL proposals and benchmarks.
