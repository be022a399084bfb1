# Acropolis ledger accounting, modelled in Dafny

Acropolis is a Cardano node. This project models its ledger accounting and storage
machinery and proves what that machinery keeps, over all inputs and over whole runs.

What is proved, in the node's own terms:

- **Accounts and the DRep index** (`Accounts`, `StakeAddresses`). The account map keeps a
  reverse index from DRep credential to delegators, in which stale entries may linger. Over
  every run it holds the same accounts and gives the same answers as a plain map that scans
  all accounts when a DRep is deregistered. The index never misses a current delegator and
  never holds an empty bucket.
- **What a run leaves** (`DelegationHistories`). Registration, pool, DRep choice, every answer
  and every index entry, stale ones included, are told from the operations and their answers
  alone, over every run.
- **Conservation** (`Conservation`). A step changes the total UTXO value and the total
  rewards by exactly what it posts if and only if its amounts stay within their words; over
  every run within the supply, the totals are the accepted postings, account by account too. Outside the words it can
  go wrong: a withdrawal of 2^63 + 1 from an empty account is answered as done and credits
  2^63 - 1 (`OversizedWithdrawalCredits`).
- **The undo log** (`StakeUndo`, `UndoRecording`, `UndoHistories`, `UndoRuns`). Blocks are
  rolled back by inverse deltas and saved fields. After any run of blocks of recorded
  operations and boundary rewards, and of rollbacks within the retained depth, the accounts of
  the indexed map are the ones a history of whole account maps would hold, and the reverse
  index is sound.
- **State history** (`StateHistories`). Over every run the history holds exactly the blocks that
  no later step reached back to, and the bounded buffer is the unbounded one cut to its last
  `k` indices; a rollback gets the unbounded answer if and only
  if the state asked for is still in the window.
- **Distributions and snapshots** (`Distributions`, `Snapshots`). Stake per pool, per DRep and
  per epoch snapshot are each the sum over their own accounts in any visiting order, they
  partition what they should, and they agree with each other in every reachable state.
- **The block cache** (`UpstreamCaches`). Chunks and a cursor refine one flat log for every
  density of at least one; a write keeps the log readable if and only if the cursor's chunk
  has room, which can be told from the flat log alone and always holds at its end.
- **Values and balance** (`Values`, `TxBalance`). The list and map forms of multi-asset values
  share one meaning, comparing consumed with produced value decides preservation of value, and
  each side, refunds and deposits included, is counted by position from the transaction.
- **Codecs** (`VarInts`, `Cbor`, `NativeScripts`, `Addresses`). Round trips with any trailing
  bytes, shortest and prefix-free encodings, exactly which bytes are written back as they were
  read, distinct keys for distinct addresses, and a native script evaluator that is exact at a
  slot and on every interval, but for a lock from slot zero without a lower bound.
- **Arithmetic** (`Monetary`, `Slots`, `EraSummaries`). Over any number of epochs the pots
  conserve lovelace without leaving the word, and the reserves decay no faster than the
  expansion rates allow; slots and epochs are mutually inverse across the Byron/Shelley
  boundary; and the virtual end of an era is the least foreseeable epoch boundary. Where 64-bit
  arithmetic wraps, the exact condition under which the law holds is stated.

`Sums` and `Arithmetic` hold the facts about finite sums and products the rest needs; `Base`
holds the machine-width integers.

How the code is read:

- Integers have the node's width. Where the Rust saturates, clamps, casts or wraps (a release
  build, without overflow checks), the model does the same. Where it uses a plain addition that
  must not overflow, a supply bound is a precondition (`StakeFits`, `VotesFit`, `WithinSupply`).
- Operations that work in place are classes or methods with loops; a loop over a hash map
  picks an arbitrary key each time, so its result holds for every visiting order.
- A whole run is a sequence of step functions on values. Each class method is proved to take
  exactly the corresponding step.
- Hashes are opaque byte strings, and the CRC in a Byron key is an arbitrary function.
- `EpochSnapshot::new` says that its last pass adds retired pools after the stake was
  posted. The key set it starts from already holds them, so the pass finds nothing to add; the
  model follows the code and proves the pass idle.
- `calculate_total_deposit` returns zero when there is no certificate list, even if there are
  proposals with deposits; the model does the same.
- A failed transaction's two sides are compared without removing zero amounts;
  `FailedBalance` states when they are then equal, and `FailedBalanceNeedsSamePolicies` shows
  a case of equal amounts and different maps.

## Model

| member | source | states |
|---|---|---|
| Accounts.UpdateValueWithDelta | common/src/math.rs:4-17 | a delta is accepted exactly when the balance stays non-negative, and the result is the sum cut at the word, also for the least signed delta |
| Accounts.ToCredentialInjective | common/src/drep.rs:83-89 | a key or script choice names its own hash as the same kind of credential, the predefined choices none, and two choices name the same credential only when they are the same |
| Accounts.StepKeepsRegistered | common/src/stake_addresses.rs:477-680 | no operation makes an unregistered account delegated, as long as raw writes do not store one |
| Accounts.DelegatedIsRegistered | common/src/stake_addresses.rs:477-544 | in every state reached from the empty map a delegated account is registered |
| StakeAddresses.BucketFindsAll | common/src/stake_addresses.rs:548-563 | clearing only the accounts in a credential's bucket changes what a scan of all accounts would change |
| StakeAddresses.ReindexKeepsIndexed | common/src/stake_addresses.rs:66-115 | moving an address between buckets when its choice changes keeps every delegator indexed and no bucket empty |
| StakeAddresses.RemoveKeepsIndexed | common/src/stake_addresses.rs:117-123 | removing an account keeps the index sound for the others |
| StakeAddresses.UnindexedOpsKeepIndexed | common/src/stake_addresses.rs:494-544 | operations that clear a choice or leave it alone may leave stale entries but never lose a delegator |
| StakeAddresses.StepRefines | common/src/stake_addresses.rs:57-681 | one operation on the indexed map has the accounts and the answer of the plain map and keeps the index sound |
| StakeAddresses.IndexedRunRefinesPlainRun | common/src/stake_addresses.rs:548-563 | over every run of operations the indexed map and the plain map have equal accounts and equal answers, and the index is sound |
| StakeAddresses.StakeAddressMap.constructor | common/src/stake_addresses.rs:59-64 | a new map is empty and its index sound |
| StakeAddresses.StakeAddressMap.RemoveDRepDelegate | common/src/stake_addresses.rs:67-78 | the address leaves the bucket of its choice and an emptied bucket is dropped |
| StakeAddresses.StakeAddressMap.AddDRepDelegate | common/src/stake_addresses.rs:81-87 | the address joins the bucket of its choice, created if missing |
| StakeAddresses.StakeAddressMap.Insert | common/src/stake_addresses.rs:100-115 | the account holds exactly the new state, its previous state is returned and the index follows the choice |
| StakeAddresses.StakeAddressMap.Remove | common/src/stake_addresses.rs:118-123 | the account is gone, its state returned and its index entry with it |
| StakeAddresses.StakeAddressMap.WriteThrough | common/src/stake_addresses.rs:95-97 | a write through a mutable reference that leaves the DRep choice alone keeps the index sound |
| StakeAddresses.StakeAddressMap.RegisterStakeAddress | common/src/stake_addresses.rs:477-490 | the account is registered, created if unknown, and the answer is true exactly if it was not registered before |
| StakeAddresses.StakeAddressMap.DeregisterStakeAddress | common/src/stake_addresses.rs:494-513 | a registered account loses registration and both delegations; anything else is refused unchanged |
| StakeAddresses.StakeAddressMap.RecordStakeDelegation | common/src/stake_addresses.rs:516-535 | accepted exactly for a registered account, which then has the pool; anything else is refused unchanged |
| StakeAddresses.StakeAddressMap.RemoveAllDelegationsTo | common/src/stake_addresses.rs:538-544 | exactly the accounts delegated to the pool lose their delegation |
| StakeAddresses.StakeAddressMap.DeregisterDRep | common/src/stake_addresses.rs:548-563 | exactly the accounts delegated to the credential lose their choice, found through the bucket alone |
| StakeAddresses.StakeAddressMap.RecordDRepDelegation | common/src/stake_addresses.rs:566-594 | accepted exactly for a registered account, which then has the choice; the previous choice is returned and the index follows; anything else fails unchanged |
| StakeAddresses.StakeAddressMap.RemoveDelegatorsFromDRep | common/src/stake_addresses.rs:601-607 | exactly the listed accounts lose their choice, whatever it was |
| StakeAddresses.StakeAddressMap.AddToReward | common/src/stake_addresses.rs:610-623 | the reward is added after its cast to a signed word, creating the account if needed |
| StakeAddresses.StakeAddressMap.ProcessStakeDelta | common/src/stake_addresses.rs:626-638 | the delta is applied to the UTXO value or refused with the balance unchanged |
| StakeAddresses.StakeAddressMap.ProcessWithdrawal | common/src/stake_addresses.rs:641-661 | an unknown account or an overdraft is refused unchanged, a zero withdrawal accepted |
| StakeAddresses.StakeAddressMap.UpdateReward | common/src/stake_addresses.rs:664-667 | the delta is applied to the rewards or refused with the balance unchanged |
| StakeAddresses.StakeAddressMap.PayReward | common/src/stake_addresses.rs:669-674 | the amount is added unless it would overflow |
| DelegationHistories.RunTells | common/src/stake_addresses.rs:477-607 | over every run without raw writes an account is known, registered, delegated to a pool and to a DRep exactly as the accepted operations say: from the last accepted one until the account leaves, the pool retires, the DRep leaves, or the account is listed for removal |
| DelegationHistories.RunAnswers | common/src/stake_addresses.rs:477-607 | every answer is the one the operations and answers before it call for: registration is accepted when not registered, leaving and delegating when registered, and the previous choice returned is the one in force |
| DelegationHistories.RunIndexes | common/src/stake_addresses.rs:66-123 | over every run without raw writes an account stands in a bucket exactly if it once chose the credential and has neither gone straight from it to another nor seen it deregistered since; these are the stale entries |
| Conservation.BalancePosts | common/src/stake_addresses.rs:610-680 | one account's balances change by what the operation posts if and only if its amount survives the casts and the saturating addition |
| Conservation.StepPosts | common/src/stake_addresses.rs:610-680 | the two totals change by what the operation posts if and only if it stays within width |
| Conservation.RejectedChangesNoBalance | common/src/stake_addresses.rs:626-680 | a rejected operation leaves every balance as it was |
| Conservation.OversizedWithdrawalCredits | common/src/stake_addresses.rs:641-661 | outside the width: a withdrawal of 2^63 + 1 from an empty account is answered as done and credits 2^63 - 1 |
| Conservation.AccountFollowsPostings | common/src/stake_addresses.rs:610-680 | over every run within width each account holds exactly what the run posted to it |
| Conservation.BalanceAnswers | common/src/stake_addresses.rs:626-680 | a delta is accepted exactly if the balance stays non-negative, a payment if it does not overflow, a withdrawal if the account is known and covers it or the amount is beyond 2^63 |
| Conservation.SupplyKeepsWidth | common/src/stake_addresses.rs:610-680 | a run whose credits stay below 2^63 never leaves the width |
| Conservation.RunConservesStake | common/src/stake_addresses.rs:610-680 | over every such run total UTXO value is the sum of accepted deltas and total rewards are rewards paid minus accepted withdrawals |
| Distributions.GenerateSpdd | common/src/stake_addresses.rs:350-384 | a pool is listed exactly if it has a delegator, with the sum of their stake and their number, in any visiting order; with the undelegated accounts the list accounts for all UTXO value and rewards |
| Distributions.GetPoolLiveStakeInfo | common/src/stake_addresses.rs:159-184 | live stake and delegators are those of the pool distribution, and the total is the sum of all UTXO values |
| Distributions.GenerateDrdd | common/src/stake_addresses.rs:430-473 | every listed DRep is registered and has exactly its own delegators' non-zero stake; with abstain and no-confidence the list accounts for all represented stake |
| Distributions.DrddPartitions | common/src/stake_addresses.rs:459-472 | leaving out zero totals, the distribution still partitions the represented stake |
| Distributions.VotesSplit | common/src/stake_addresses.rs:430-458 | voting stake is UTXO value, rewards and proposal deposits together |
| Snapshots.NewSnapshot | common/src/epoch_snapshot.rs:73-221 | every registered or block-producing pool has an entry listing exactly its registered delegators with positive stake, its total is their stake and the list's sum, and its other fields are the registration's or defaults |
| Snapshots.ListedExactly | common/src/epoch_snapshot.rs:153-173 | a pool's list has an entry exactly for each registered delegator with positive stake, with its UTXO value plus rewards, once |
| Snapshots.ListsArePermutations | common/src/epoch_snapshot.rs:154-161 | two delegator lists of the same pool, made in any order, are permutations of each other |
| Snapshots.SnapshotAgreesWithSpdd | common/src/epoch_snapshot.rs:153-173 | snapshot and distribution give a pool the same stake if and only if its unregistered delegators hold nothing |
| Snapshots.ReachableSnapshotAgrees | common/src/epoch_snapshot.rs:153-173 | in every reachable state snapshot and distribution agree on every pool |
| Snapshots.CompareTotals | common/src/epoch_snapshot.rs:153-173 | the snapshot's total, the sum of its list and the distribution's active stake are one number on a reachable map |
| Snapshots.GetStakeDelegatedToSpoByAddresses | common/src/epoch_snapshot.rs:291-312 | the stake of some addresses counts each once, is the sum over those of them that delegate, and never exceeds the pool's |
| Snapshots.GroupByPool | common/src/epoch_snapshot.rs:234-254 | the first pass groups exactly the credentials with positive stake under their pool, with the right total |
| Snapshots.RawListedExactly | common/src/epoch_snapshot.rs:239-254 | a pool's list from the raw maps has an entry exactly for each of its delegators with positive stake, on the given network, once |
| Snapshots.FromRaw | common/src/epoch_snapshot.rs:225-288 | every pool has the delegators, stake and blocks a scan of the delegation map for it alone would find, its other fields are those of its parameters, and total blocks are the sum |
| StateHistories.KeepsSurvivors | common/src/state_history.rs:68-135 | over every run an entry is in the unbounded history if and only if a block committed it and every later block or rollback has a higher index |
| StateHistories.BoundedKeepsSurvivors | common/src/state_history.rs:68-135 | the bounded history holds exactly the surviving entries within `k` of the highest index |
| StateHistories.BoundedIsWindow | common/src/state_history.rs:68-135 | over every run within `k` of the highest index the bounded history is the unbounded one cut to the last `k` indices |
| StateHistories.BoundedSize | common/src/state_history.rs:119-135 | at most `k + 1` entries are kept and indices strictly increase |
| StateHistories.CommitNeverUnderflows | common/src/state_history.rs:122-124 | after the rollback of a block no index subtraction underflows |
| StateHistories.RollBackAnswer | common/src/state_history.rs:68-81 | a rollback returns the unbounded answer if and only if the state asked for is the first or still in the window |
| StateHistories.RollBackIsWindow | common/src/state_history.rs:68-81 | popping at the back keeps exactly the entries below the index |
| StateHistories.PruneIsWindow | common/src/state_history.rs:121-128 | popping at the front keeps exactly the entries within `k` |
| StateHistories.StateHistory.GetRolledBackState | common/src/state_history.rs:68-81 | entries at or above the index are gone; the answer is the state of the newest block below the index, or the initial state when there is none |
| StateHistories.StateHistory.Commit | common/src/state_history.rs:119-135 | old entries are pruned in the bounded variant, and the newest entry and the current state are the ones committed |
| StateHistories.StateHistory.GetAtOrBefore | common/src/state_history.rs:89-91 | the newest entry at or before the index, which is what a rollback to the next index would return |
| StateHistories.StateHistory.GetByIndex | common/src/state_history.rs:84-86 | the first entry with the index, the only one in a sorted history, or none |
| StateHistories.StateHistory.GetByIndexReverse | common/src/state_history.rs:94-96 | the last entry with the index, the same one in a sorted history |
| StakeUndo.BlockTracked | modules/accounts_state/src/runtime.rs:193-306 | throughout a block the record of an account relates what it was, what it was paid and what it is now |
| StakeUndo.RewardTaken | modules/accounts_state/src/state.rs:297-319 | a boundary reward reaches exactly a registered account whose balance it does not underflow, and raises its rewards alone; any other reward changes nothing |
| StakeUndo.BlockUndone | modules/accounts_state/src/runtime.rs:220-252 | undoing a block's record restores every account exactly, for any mix of changes and boundary rewards |
| StakeUndo.EmptyRecordNoChange | modules/accounts_state/src/runtime.rs:278-297 | a block with an empty record changed nothing |
| UndoRecording.OnlyTouchedChange | modules/accounts_state/src/state.rs:1558-1591 | the accounts the node notes before an operation cover every account the operation changes |
| UndoRecording.ActionIsEvents | modules/accounts_state/src/state.rs:251-294 | a wrapped operation with its noted accounts is a sequence of recorded single-account changes |
| UndoRecording.OperationsUndone | modules/accounts_state/src/state.rs:251-318 | a block of map operations and boundary rewards, recorded as the node records them, is undone exactly |
| UndoHistories.PruneMatches | modules/accounts_state/src/runtime.rs:335-353 | pruning drops only records below the retained depth |
| UndoHistories.RollBackMatches | modules/accounts_state/src/runtime.rs:355-386 | rolling back the log is rolling back the chain of account maps |
| UndoRuns.NodeRefinesSnapshots | modules/accounts_state/src/runtime.rs:315-387 | after any run of recorded blocks of map operations and boundary rewards, and of rollbacks within the retained depth that visit accounts in any order, the accounts of the indexed map are the newest map of a history that stored every map, and the reverse index is sound |
| UndoRuns.ActAllRefines | modules/accounts_state/src/state.rs:251-318 | a block of recorded operations on the indexed map has the accounts and the record of the plain map and keeps the index sound |
| UndoRuns.UndoRecordRefines | modules/accounts_state/src/runtime.rs:358-381 | undoing a record on the indexed map, changes before rewards and each in any order, is the undo of the plain map and keeps the index sound |
| UndoHistories.UndoRefinesSnapshots | modules/accounts_state/src/runtime.rs:315-387 | after any run of blocks of single-account changes and rewards, and of rollbacks within the retained depth, the plain account map is the newest of a history that stored every map |
| UndoHistories.RollBackRestores | modules/accounts_state/src/runtime.rs:355-386 | blocks that are then rolled back leave no trace on the accounts |
| UndoHistories.LogStaysShort | modules/accounts_state/src/runtime.rs:335-353 | over every legal run at most one record more than the retention is kept, in strictly increasing order |
| UndoHistories.UndoOneChange | modules/accounts_state/src/runtime.rs:220-252 | one account is removed or restored, no other changes, and the reverse index stays sound |
| UndoHistories.UndoOneBlock | modules/accounts_state/src/runtime.rs:358-381 | one block's record is undone in any order of accounts and the reverse index stays sound |
| UndoHistories.StakeAddressUndoHistory.Commit | modules/accounts_state/src/runtime.rs:335-353 | an empty record is skipped; otherwise old entries are pruned and the record appended |
| UndoHistories.StakeAddressUndoHistory.RollbackTo | modules/accounts_state/src/runtime.rs:355-386 | every record at or above the index is undone from the newest down, on the indexed account map |
| UpstreamCaches.WriteAppends | common/src/upstream_cache.rs:125-139 | a write with room in the cursor's chunk appends exactly one record to the log |
| UpstreamCaches.WriteNeedsRoom | common/src/upstream_cache.rs:125-139 | after a write the chunks denote some log if and only if there was room, then the old one with the record appended; at the end of the log there always is room |
| UpstreamCaches.NextAdvances | common/src/upstream_cache.rs:89-109 | the cursor moves by one until the end and the over-full error is never raised |
| UpstreamCaches.ReadingYieldsLog | common/src/upstream_cache.rs:74-123 | reading from the start yields the log in order and then nothing for ever |
| UpstreamCaches.RunRefinesFlatLog | common/src/upstream_cache.rs:63-140 | for every density and every interleaving of restarts, reads and writes with room the chunks denote the records written, the cursor is a flat log's, and nothing fails |
| UpstreamCaches.RoomIsFlat | common/src/upstream_cache.rs:63-140 | all writes of a run find room if and only if each happens with the flat cursor in the last chunk and room left there |
| UpstreamCaches.AppendingRefinesFlatLog | common/src/upstream_cache.rs:63-140 | a run that writes only at the end of the log always finds room, for every density, and so refines the flat log |
| UpstreamCaches.UpstreamCache.constructor | common/src/upstream_cache.rs:64-72 | a new cache on empty storage stands at the end of the empty log |
| UpstreamCaches.UpstreamCache.StartReading | common/src/upstream_cache.rs:74-79 | the cursor stands at the first record with its chunk loaded |
| UpstreamCaches.UpstreamCache.NextRecord | common/src/upstream_cache.rs:89-109 | the step of the specification, with the error path, and its effect on the flat position |
| UpstreamCaches.UpstreamCache.ReadRecord | common/src/upstream_cache.rs:111-123 | the record at the flat position or none at the end |
| UpstreamCaches.UpstreamCache.WriteRecord | common/src/upstream_cache.rs:125-139 | the step of the specification, and the log grown by the record if there was room |
| Values.AmountByPosition | common/src/types.rs:596-608 | the amount a value denotes counts every position of every list of the policy once |
| Values.AddAssign | common/src/types.rs:611-633 | list addition is the pointwise sum, mentions what either side mentions, and keeps duplicate-free values duplicate-free |
| Values.TokenAmount | common/src/types.rs:596-608 | at most the amount denoted, and exactly it for a duplicate-free value |
| Values.AddAssignMap | common/src/types.rs:664-675 | map addition is the pointwise sum and mentions what either side mentions |
| Values.AddValue | common/src/types.rs:678-693 | adding a value to a map is the pointwise sum cut at the word, on every input |
| Values.ToMap | common/src/types.rs:703-709 | the map mentions what the list mentions, with its amounts |
| Values.ConversionCommutes | common/src/types.rs:611-709 | the map of a list sum is the sum of the maps |
| Values.ToValue | common/src/types.rs:717-736 | the list form of a map is duplicate-free and its map form is the map |
| Values.MapRoundTrip | common/src/types.rs:703-736 | map to list and back is the identity, in any order |
| Values.RemoveZeroAmountsNormalizes | common/src/types.rs:695-700 | removing zeros changes no amount and gives a normal form |
| Values.NormalEquality | common/src/types.rs:695-700 | normal forms are equal exactly when all amounts are |
| TxBalance.CalculateTotalRefund | common/src/tx.rs:384-409 | counted by position: over all certificates, the refund of the first update that names each when that is a deregistration, and the refunds DRep deregistrations state |
| TxBalance.CalculateTotalDeposit | common/src/tx.rs:411-453 | counted by position: over all certificates, the deposits of the first pool and stake updates that name each when those are registrations, the deposits DRep registrations state, and all proposal deposits; zero without a certificate list |
| TxBalance.FindFirst | common/src/tx.rs:397-401 | of several updates with the same identifier the first one counts |
| TxBalance.DistinctCounted | common/src/tx.rs:384-453 | when no certificate or update identifier repeats, refunds and deposits are the sums over the updates that some certificate names |
| TxBalance.SidesByPosition | common/src/tx.rs:283-371 | lovelace and assets on both sides, counted by position from the transaction and the UTXO set |
| TxBalance.CalculateTotalWithdrawals | common/src/tx.rs:373-382 | every withdrawal counted once, or zero without a list |
| TxBalance.MintSplits | common/src/tx.rs:455-505 | minted minus burnt is the signed sum of the mint entries |
| TxBalance.DeltaPartByPosition | common/src/tx.rs:455-505 | the minted part of a list is the sum of its positive entries for the name, the burnt part that of its negative ones |
| TxBalance.GetMintedOrBurntValue | common/src/tx.rs:455-505 | the minted or burnt value denotes exactly that part of every asset's entries |
| TxBalance.CalculateTotalConsumed | common/src/tx.rs:283-313 | inputs, refunds, withdrawals and mint in normal form, or just the known inputs of a failed transaction |
| TxBalance.CalculateTotalProduced | common/src/tx.rs:321-371 | outputs, deposits, fee, burn and donation in normal form, or a failed transaction's outputs and collateral |
| TxBalance.BalanceDecidesPreservation | common/src/tx.rs:283-371 | the two maps are equal if and only if lovelace in equals lovelace out and every asset's inputs plus signed mint equal its outputs |
| TxBalance.Sides | modules/utxo_state/src/validations/mod.rs:32-38 | the two sides are equal if and only if a valid transaction preserves value, or a failed one has the same totals on both sides; a failed one without a stated collateral always balances |
| TxBalance.Validate | modules/utxo_state/src/validations/shelley/utxo.rs:11-51 | any transaction passes if and only if every input is known and its sides balance, and the first unknown input is named |
| TxBalance.FailedBalance | common/src/tx.rs:334-354 | a failed transaction's sides are equal if and only if amounts, policies and names all agree |
| TxBalance.FailedBalanceNeedsSamePolicies | common/src/tx.rs:334-340 | equal amounts and different maps, because zeros are not removed |
| VarInts.VarIntEncoder.Push | common/src/cip19.rs:28-39 | the shift loops append exactly the base-128 encoding |
| VarInts.VarIntDecoder.Read | common/src/cip19.rs:60-75 | the next integer with the cursor after it, or none with the cursor at the end |
| VarInts.ReadEncoded | common/src/cip19.rs:28-75 | reading undoes writing for every word, whatever follows |
| VarInts.ReadAllEncoded | common/src/cip19.rs:28-75 | reading as many integers as were written gives them back and leaves exactly what follows |
| VarInts.EncodingPrefixFree | common/src/cip19.rs:28-39 | no encoding is a prefix of another |
| VarInts.LengthOneToTen | common/src/cip19.rs:28-39 | an encoding has one to ten bytes |
| VarInts.EncodingShortest | common/src/cip19.rs:28-75 | no byte string that reads as the number is shorter, even with bits lost to the word |
| VarInts.ReadIsValue | common/src/cip19.rs:60-75 | any byte string reads as the base-128 value of its bytes, highest first, modulo the word |
| VarInts.EncodingCanonical | common/src/cip19.rs:28-75 | of the byte strings that read as a number, its encoding is the one without a leading zero digit, of at most ten bytes, and without bits the word loses |
| VarInts.AllCanonical | common/src/cip19.rs:28-75 | integers read from bytes are written back as those bytes if and only if each is in shortest form and nothing follows |
| Cbor.HeadFormat | common/src/script.rs:165-207 | a CBOR head is the major type with a small argument or a width in one byte, then the argument with its highest byte first |
| Cbor.BigEndianByte | common/src/script.rs:165-207 | each byte of an argument is its base-256 digit, highest first |
| Cbor.HeadAccepted | common/src/script.rs:106-162 | a head is read if and only if its width is one of the five and its bytes are there |
| Cbor.HeadRoundTrip | common/src/script.rs:165-207 | a CBOR head is read back as it was written, whatever follows |
| NativeScripts.WireFormat | common/src/script.rs:165-207 | the bytes of every kind of script: array size, tag and fields |
| NativeScripts.ListInOrder | common/src/script.rs:165-207 | the scripts of a list follow each other in order |
| NativeScripts.DecodeNeedsShape | common/src/script.rs:106-162 | a script is read only with one of the six tags and from an array of the size that tag calls for |
| NativeScripts.RoundTrip | common/src/script.rs:105-207 | decoding an encoded script gives it back and leaves exactly the trailing bytes |
| NativeScripts.HashRoundTrip | common/src/hash.rs:154-180 | a hash is read back from its byte string of exactly 28 bytes |
| NativeScripts.EncodingPrefixFree | common/src/script.rs:165-215 | different scripts have different encodings, neither a prefix of the other |
| NativeScripts.Decoder.Script | common/src/script.rs:106-162 | the recursive decoder with a moving position takes the step of the specification |
| NativeScripts.EvalMonotone | common/src/script.rs:217-251 | more keys, a later lower bound or an earlier upper bound never turn true into false |
| NativeScripts.EvalOnInterval | common/src/script.rs:217-251 | on every non-empty interval and for every script tree evaluation is the meaning of the script on the interval, where without a lower bound a lock from slot zero counts as closed |
| NativeScripts.EvalExact | common/src/script.rs:217-251 | with a lower bound, or without a lock from slot zero, evaluation is the meaning of the script as it stands |
| NativeScripts.LockExact | common/src/script.rs:238-249 | a time lock is evaluated as it holds on the interval if and only if it is not a lock from slot zero without a lower bound |
| NativeScripts.EvalAtSlot | common/src/script.rs:217-251 | on the interval of one slot, the last of the word too, evaluation is the meaning of the script at that slot |
| NativeScripts.EvalSoundForSlot | common/src/script.rs:217-251 | a script true on a validity interval holds at every slot in it |
| NativeScripts.AllAndAnyAreNOfK | common/src/script.rs:223-237 | All and Any are N-of-K with N the length and N one |
| Addresses.HeaderFollowsCip19 | common/src/address.rs:337-340 | the header holds the CIP-19 address type and network tag |
| Addresses.ShelleyFormat | common/src/address.rs:324-374 | a key is the header, the payment hash, then the delegation hash or the three integers of a pointer in order |
| Addresses.ToBytesKey | common/src/address.rs:324-374 | the bytes grown part by part are the address key |
| Addresses.ReadPointer | common/src/address.rs:421-432 | three integers read by the moving decoder, or none |
| Addresses.ShelleyRoundTrip | common/src/address.rs:324-443 | every Shelley address is read back from its key, pointers included |
| Addresses.ShelleyAccepted | common/src/address.rs:376-443 | exactly which byte strings are read as Shelley addresses |
| Addresses.ShelleyCanonical | common/src/address.rs:324-443 | a key that is read is written back byte for byte if and only if nothing follows the address and each pointer integer is in shortest form |
| Addresses.StakeHeaderFollowsCip19 | common/src/address.rs:549-564 | the four header bytes of CIP-19 for stake addresses, and the hash after them |
| Addresses.StakeAccepted | common/src/address.rs:566-590 | exactly the strings of 29 bytes with one of the two stake types are read, with the hash, kind and network of the bytes |
| Addresses.StakeRoundTrip | common/src/address.rs:549-590 | every stake address is read back from its binary form |
| Addresses.StakeCanonical | common/src/address.rs:566-590 | what was read is written back unchanged if and only if the ignored header bits are zero |
| Addresses.ByronFormat | common/src/address.rs:74-87 | a Byron key is an array of two: tag 24 with the payload as a byte string, then the checksum |
| Addresses.ByronInjective | common/src/address.rs:74-87 | distinct Byron payloads have distinct keys for any checksum |
| Addresses.KeysDistinct | common/src/address.rs:702-712 | distinct addresses of any kinds have distinct keys |
| Monetary.ExpectedBlocksExact | modules/accounts_state/src/monetary.rs:78-82 | the blocks expected are epoch length times active slot coefficient times what is not centralised, as an exact fraction |
| Monetary.CalculateEta | modules/accounts_state/src/monetary.rs:69-88 | eta lies in [0,1], is one when mostly centralised or enough blocks were made, and is the exact ratio otherwise |
| Monetary.WholeShare | modules/accounts_state/src/monetary.rs:44-46 | the whole lovelace of a share, less than one below it |
| Monetary.CalculateMonetaryExpansion | modules/accounts_state/src/monetary.rs:91-105 | expansion is the whole part of reserves times eta times rho, and never exceeds the reserves |
| Monetary.ExpansionInIntegers | modules/accounts_state/src/monetary.rs:69-105 | in whole numbers and from the parameters alone, expansion is reserves times rho rounded down, scaled by blocks made over blocks expected when fewer were made and less than four fifths is centralised |
| Monetary.CalculateMonetaryChange | modules/accounts_state/src/monetary.rs:22-66 | no error or underflow; reserves plus treasury change by the fees; the treasury increase is the pot times tau rounded down, where the pot is expansion plus fees in whole numbers; the rest is owed as stake rewards, which the reserves cover |
| Monetary.PayRewards | modules/accounts_state/src/state.rs:1219-1269 | every reward leaves the reserves, exactly the rewards no account takes arrive in the treasury, and nothing else moves |
| Monetary.EpochsConserve | modules/accounts_state/src/state.rs:689-695 | over any number of epochs, if pots and fees fit the word together and each epoch pays at most what its step set aside, no pot ever underflows or overflows, and reserves, treasury and payments add up to the start plus the fees |
| Monetary.ReservesDecay | modules/accounts_state/src/monetary.rs:91-105 | over every such run the reserves keep at least what expansion at each epoch's full rate would leave, whatever eta was |
| Slots.SlotDecomposes | common/src/calculations.rs:6-33 | a slot is its epoch's first slot plus an offset within the epoch |
| Slots.EpochAndOffsetRecovered | common/src/calculations.rs:6-33 | every epoch and offset is what the slot there converts to |
| Slots.EpochsAdjoin | common/src/calculations.rs:23-33 | epochs follow each other without gap, across the era boundary too |
| Slots.SlotsInOrder | common/src/calculations.rs:6-21 | later slots are in later epochs or at larger offsets |
| Slots.TimestampStep | common/src/calculations.rs:35-43 | a Byron slot takes twenty seconds and a Shelley slot one, from the Byron genesis on |
| Slots.MainnetSlots | common/src/calculations.rs:65-104 | the mainnet epochs and timestamps that the repository states |
| Slots.TimestampExact | common/src/calculations.rs:35-43 | the 64-bit timestamp is the exact one if and only if that fits the word |
| Slots.TimestampsInOrder | common/src/calculations.rs:35-43 | as long as the later timestamp fits the word, later slots have later timestamps, at most twenty seconds a slot apart |
| Slots.WindowIsPrefix | common/src/protocol_params.rs:550-568 | the nonce test holds for exactly the slots of an epoch before its last window if and only if slot plus window does not overflow; where it does, every slot passes |
| Slots.WindowWraps | common/src/protocol_params.rs:550-568 | a window of 2^64 - 1 lets slot one pass |
| Slots.WindowsExact | common/src/protocol_params.rs:192-202 | each window is three or four units exactly if and only if neither the product nor the result overflows |
| Slots.WindowsInRatio | common/src/protocol_params.rs:192-202 | without overflow the two windows stand in the ratio three to four and are rounded down by less than one base unit |
| EraSummaries.EndIsExact | common/src/era_summary.rs:81-110 | the 64-bit end has the slot, epoch and time of the boundary that whole epochs reach if and only if that boundary fits the word |
| EraSummaries.TipWraps | common/src/era_summary.rs:88-90 | a tip of 2^64 - 1 wraps: without a window the virtual end is then the start of the era |
| EraSummaries.EndIsLeastBoundary | common/src/era_summary.rs:81-110 | where it fits the word, the virtual end is the least epoch boundary at or after the stability frontier, with matching epoch and time |
| EraSummaries.EndIsMonotone | common/src/era_summary.rs:81-110 | up to where it leaves the word, the virtual end never moves back as the tip grows |
| EraSummaries.SlotAndEpochAgree | common/src/era_summary.rs:50-70 | a slot of the era is contained exactly when its epoch is |
| EraSummaries.FrontierIsContained | common/src/era_summary.rs:50-56 | every slot before the frontier is foreseeable |

## Left out

- Lookups and listings of the account map (`get_pools_live_stakes`, `get_pool_delegators`, `get_accounts_*`, `generate_default_vote`, `dump_spdd_state`): plain filters and sums.
- `update_utxo_value`: the same step as the stake delta.
- `commit_forced`, `bootstrap_init_with`, `clear` of the state history: single pushes before a run starts; a run here starts from an empty history.
- The ledger rules that decide which operations a block performs: the undo log is proved for any sequence of the map's operations, recorded through the wrapper, and of boundary rewards.
- The background rewards task and its restart on a rollback: concurrency around opaque rewards calculations.
- Storage errors of the block cache, files, mmap and JSON: storage is an infallible map. Cache positions are unbounded naturals.
- The order of the DRep list: it is a map here.
- The total stake that `EpochSnapshot::new` only logs, and the pots and registration changes a snapshot carries along unchanged.
- Finite precision of BigDecimal: rates and products are exact.
- Indefinite-length CBOR input to the native script decoder, and where the decoder stands after a failure: the encoder never writes the first, and nothing reads on after the second.
- Text forms of addresses (Bech32, Base58), hex, hash functions and the Byron checksum's value: foreign code.
- `convert_to_utxo_deltas`, witness hashes and script integrity: field copies and foreign hashing.
- Other movements of the pots (refunds, instantaneous rewards, donations, treasury withdrawals): a run of epochs here has the monetary step and the payment of rewards.
- Slots.WindowIsPrefix: leaves out the last epoch of the 64-bit word, whose next first slot does not fit it.
- Slots.TimestampsInOrder: says nothing where a timestamp overflows; `TimestampExact` states exactly where that is.
- Slots.WindowsInRatio: says nothing where a window overflows; `WindowsExact` states exactly where that is.
- EraSummaries.EndIsLeastBoundary: says nothing where the end leaves the word; `EndIsExact` states exactly where that is, and `TipWraps` gives a case.
- EraSummaries.EndIsMonotone: likewise stops where the later end leaves the word.
- EraSummaries.SlotAndEpochAgree: likewise needs a computed end to fit the word.
- EraSummaries.FrontierIsContained: likewise needs the end to fit the word.
- Message bus, REST, queries, publishers, configuration, snapshot decoders and the codec crate: plumbing or parsers without an inverse.
