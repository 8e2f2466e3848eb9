# The account-state engine of the JMDN node, in Dafny

The node keeps account documents (balance, nonce, sent count) and, for every transaction that has
taken effect, a marker. Two writers change the accounts. Live execution commits one transaction at a
time together with its marker. Reconciliation recomputes a stored block from scratch, cuts its
unmarked transactions into groups, and commits each group's account changes and markers in one
atomic ExecAll. This project models both writers, the validation that precedes them, and the
watermarks, scans, merges and small protocols around them, and proves what they keep over every run.

The modules, in order of dependence:

- `Types`, `Decimal`, `Sums`: values, decimal balances, sums over rearranged sequences.
- `Fees`, `Deltas`, `Conservation`: the fee split, the effect of a transaction on every account, and
  where a block's value goes.
- `Partition`, `Markers`: the budgeted groups of a block, and markers read from two databases.
- `Ledger`, `Documents`, `LedgerMeaning`, `LedgerRuns`: both writers as functions on the database, what
  one commit does to a document and to an account, and the ledger invariant over every run.
- `LedgerAgreement`, `LedgerExamples`: independence of order and grouping, and the exact cases in
  which the two writers part.
- `AccountsDb`, `BlockProcessing`, `Rollback`: the database as it is mutated, a whole block with its
  rollback, and what every run of commits and rollbacks leaves, wherever it stops.
- `Validation`, `Acceptance`, `ReconProgress`, `LiveProgress`, `Attempts`, `Admission`: the simulated
  cache, exactly which blocks are accepted, exactly when a reconciliation succeeds and when a live
  transaction commits, runs in which marker lookups fail, and exactly when a validated block is executed
  without a refusal.
- `Scan`, `Anchor`, `AnchorRuns`, `AnchorHonesty`, `AnchorExamples`, `Drain`, `DrainWorker`, `Session`:
  catch-up scans, exactly when the applied anchor stays honest over a run, the queue that feeds it,
  and the end of a sync session.
- `Merge`, `Restore`, `Ordinals`, `Identities`, `Pagination`: last-writer-wins merging, bulk restore,
  identity ordinals and the identities of accounts over whole runs, and the state fingerprint.
- `HeadPush`, `Listener`: the debounced head pusher and the choice of a listener.

Conventions. Addresses and hashes are numbers. A value that may be nil is an `Option`. Balances are
decimal text, as on disk. Nonces, block numbers and ordinals are uint64, and `Inc` and `AddU64` wrap.
An ExecAll is one assignment. A failing connection is a parameter that says which calls, or how many,
go through. Two transactions with the same hash are the same transaction wherever a lemma says so.

Where the code and its comments disagree, the model follows the code:

- `normalizeUpdatedAtNanos` calls seconds valid until the year 5138; they overflow int64 nanoseconds in
  2262 (`Merge.NormalizeExactly`, `Merge.LateSecondsWrap`).
- Enrichment speaks of ascending address bytes and compares checksummed hexadecimal text; the order is a
  parameter (`Rank`) that is only assumed to separate addresses.
- A failed block is said to restore every affected account; weighted fee recipients are not in the
  snapshot (`Rollback.RestoredExactly`).
- The drain confirmation is said to mean that every entry up to the target was applied; a failed or
  undecodable entry does not hold the mark back (`Drain.ConfirmedExactly`, `Drain.FailedEntryIsPassed`).
- The anchor is said to state only what is proven applied. Over a run it does if and only if no rollback
  revokes a transaction below it and every advance finds applied the blocks its session cannot vouch for
  (`AnchorHonesty.AnchorHonestExactly`). The node checks neither, and there are runs that fail: a block
  whose data arrives between the hand-off and the check (`AnchorExamples.LateDataIsSkipped`), a
  handed-off block that was not reconciled (`AnchorExamples.FailedHandOffIsPassed`), a hand-off that
  starts above the next block (`AnchorExamples.GapIsPassed`), and a rollback of a block that
  reconciliation completed after the refused live attempt had released the state lock
  (`AnchorExamples.LateRollbackBreaks`).
- The rollback is said never to leave a permanent skip. It leaves one exactly if a transaction committed
  since the snapshot and not revoked sends from a restored account or pays it something
  (`Rollback.ExplainedExactly`, `Rollback.NoHistoryExplains`). Another writer's commit between a block's
  transactions can be such a one (`BlockProcessing.FailedBlockExactly`).
- The two writers are said to share their arithmetic; they differ on transfers of nothing to a new
  account and at nonce 2^64-1 (`LedgerAgreement.SameAccountSetExactly`, `LedgerAgreement.SameNonceExactly`).

## Model

| member | source | states |
|---|---|---|
| `LedgerRuns.LedgerInvariant` | DB_OPs/account_recon.go:200-279 | the ledger invariant: after any run of live commits, reconciliations, replays and interruptions, every balance and sent count is its base plus the effects of exactly the transactions marked since, each once, and every nonce is the larger of its base and their nonce+1, except where a live commit at nonce 2^64-1 wrapped it; DID, type, creation time and metadata of every account are what they were; every effect belongs to a transaction some step was given |
| `LedgerRuns.ReconOnce` | DB_OPs/account_recon.go:200-279 | one reconciliation, interrupted after any number of commits, applies each transaction it marks exactly once; when it reports success every transaction of the block is marked; every document it writes carries the time of the block and keeps identity, DID, type, creation time and metadata, and a new one is a user without DID created at that time |
| `LedgerRuns.GroupsOnce` | DB_OPs/account_recon.go:332-404 | the same for any grouping of transactions that are still unmarked |
| `LedgerRuns.GroupOnce` | DB_OPs/account_recon.go:332-404 | a committed group changes the accounts by the effects of exactly the transactions it marks, and the documents in nothing else but the update stamp |
| `LedgerRuns.LiveOnce` | DB_OPs/tx_markers.go:130-162 | a live commit, at any nonce, marks its transaction and applies its effect, once; documents change in nothing else but the stamp and the carried identities of sender and receiver |
| `LedgerRuns.StepOnce` | DB_OPs/account_recon.go:200-279 | every step, committed or refused, leaves markers and effects in agreement |
| `LedgerRuns.StepMarks` | DB_OPs/tx_markers.go:60-115 | a transaction a step applies is marked with the encoded time of that step, and no marker is written with anything else |
| `LedgerRuns.ReconRunsAreTight` | DB_OPs/account_recon.go:200-279 | runs that only reconcile open no account for nothing and wrap no nonce |
| `LedgerRuns.ExactlyOnceConcat` | DB_OPs/account_recon.go:200-279 | exactly-once histories compose |
| `LedgerRuns.MarkReads` | DB_OPs/tx_markers.go:60-115 | writing markers changes how exactly the written hashes read, including a revocation over a legacy marker |
| `LedgerAgreement.RunsAgree` | DB_OPs/account_recon.go:200-279 | two runs of any steps, live and reconciled, that end with the same transactions applied agree on every balance and count and on every nonce no live commit wrapped; they agree on a row of the fingerprint if and only if the account was there, an applied transaction touches it, or live commits of both runs or of neither name it as receiver |
| `LedgerAgreement.MixedRunsAgree` | messaging/BlockProcessing/Processing.go:660-1105 | runs that mix live execution and reconciliation agree on every row if each live receiver existed or is touched by its own transaction and no nonce is the last |
| `LedgerAgreement.SameAppliedSameAccounts` | DB_OPs/account_recon.go:89-180 | the accounts depend only on the set of applied transactions, with the same exact condition for rows |
| `LedgerAgreement.GroupingsAgree` | DB_OPs/account_recon.go:293-327 | any two groupings of a block, one transaction per group among them, give the same rows |
| `LedgerAgreement.SameAccountSetExactly` | messaging/BlockProcessing/Processing.go:660-1105 | live execution and reconciliation leave the same set of accounts if and only if the receiver existed or is touched in another way |
| `LedgerAgreement.ValueOpensOnBothPaths` | DB_OPs/account_recon.go:134-137 | a receiver of value is opened on both paths |
| `LedgerAgreement.SameNonceExactly` | messaging/BlockProcessing/Processing.go:1184-1254 | both paths store the same sender nonce if and only if the nonce is below 2^64-1 or none was stored |
| `LedgerAgreement.OneEffectPerMarkerExactly` | DB_OPs/account_recon.go:256-277 | one marker stands for one effect if and only if the block repeats no hash |
| `LedgerAgreement.GroupsApply` | DB_OPs/account_recon.go:259-279 | a complete reconciliation, of any block, moves every account by the effects of all transactions each group holds, repeated hashes included |
| `LedgerAgreement.AppliedOnceExactly` | DB_OPs/account_recon.go:256-277 | a pending transaction is applied as often as the block lists it if and only if its hash falls into a single group; otherwise more often |
| `LedgerAgreement.RepeatedHashPaysTwice` | DB_OPs/account_recon.go:256-277 | two transactions with one hash in one group both change the accounts under one marker |
| `LedgerAgreement.RepeatedHashSkippedLive` | messaging/BlockProcessing/Processing.go:374-388 | live execution applies only the first of them |
| `LedgerExamples.PathsPart` | messaging/BlockProcessing/Processing.go:660-1105 | every transfer of nothing to a new account that live execution commits, without weighted fee recipients, leaves different account sets on the two paths |
| `LedgerExamples.LastNonceParts` | messaging/BlockProcessing/Processing.go:1184-1254 | a concrete transaction with nonce 2^64-1 after which the two paths store different nonces |
| `LedgerExamples.ReconBetweenIsLost` | messaging/BlockProcessing/Processing.go:427-490 | a reconciliation committed between a block's snapshot and its rollback, touching a restored account and not revoked, stays marked while balance, count and nonce of that account are those before it |
| `LedgerExamples.ReconUnexplained` | messaging/BlockProcessing/Processing.go:427-490 | if that account sends the transaction or is paid by it, no history at all accounts for the result |
| `LedgerExamples.ShortfallsOccur` | messaging/BlockProcessing/Processing.go:427-490 | a concrete input on which the two paths part and on which a rollback loses an effect for every conceivable history |
| `LedgerMeaning.WriteAdvances` | DB_OPs/account_recon.go:161-180 | writing the delta map of a list of transactions moves every account by exactly their effects |
| `LedgerMeaning.GroupAdvances` | DB_OPs/account_recon.go:332-404 | a group commit moves every account by the effects of the group and keeps documents under their own address |
| `LedgerMeaning.LiveAdvances` | messaging/BlockProcessing/Processing.go:660-1105 | a live commit moves every account as reconciliation's delta for the same transaction would; at most it opens the receiver, and wraps the nonce of a sender at 2^64-1 |
| `LedgerMeaning.LivePays` | messaging/BlockProcessing/Processing.go:1184-1306 | debit and credits staged on a private copy, in whatever way sender, receiver and fee accounts coincide, add up account by account |
| `LedgerMeaning.AdvancesConcat` | DB_OPs/account_recon.go:89-180 | two commits in a row act as one list of transactions |
| `AccountsDb.AccountsDb.ApplyBlockRecon` | DB_OPs/account_recon.go:200-279 | filter, partition and commit loop make exactly the transition of the specification, for every point at which the connection fails |
| `AccountsDb.AccountsDb.ApplyGroups` | DB_OPs/account_recon.go:259-279 | groups commit in order and stop at the first failure |
| `AccountsDb.AccountsDb.ApplyGroup` | DB_OPs/account_recon.go:260-276 | deltas of exactly the group's transactions, then one commit |
| `AccountsDb.AccountsDb.CommitReconGroup` | DB_OPs/account_recon.go:332-404 | all documents and all markers of a group land together or nothing does; it fails exactly for an unreadable balance, more than 1024 operations or a lost connection |
| `Documents.DeltasStamp` | DB_OPs/account_recon.go:152-180 | a document reconciliation writes is the stored one with other counters and the block time as its stamp, identity, DID, type, creation time and metadata untouched; a new one is a user without DID or metadata, created at that time; all others stay |
| `Documents.LiveStamps` | messaging/BlockProcessing/Processing.go:1184-1306 | the same for live execution: only the accounts the transaction touches and its receiver are written, sender and receiver take the carried identities, and a new receiver gets its DID |
| `Documents.StampedTwice` | DB_OPs/account_recon.go:259-279 | two groups of a block in a row write as one |
| `ReconProgress.ReconSucceedsExactly` | DB_OPs/account_recon.go:200-279 | reconciliation reports success if and only if the block is the expected one, every account an unmarked transaction touches can be read, every unmarked transaction fits one ExecAll by itself, and enough commits go through |
| `ReconProgress.MarkedBlockIsNoOp` | DB_OPs/account_recon.go:217-242 | a block whose transactions are all marked, each in the accounts database or, where that has no entry, in the legacy one, is reconciled by doing nothing |
| `ReconProgress.WrongHashIsRefused` | DB_OPs/account_recon.go:213-216 | a block stored under another hash than expected is left alone, with an error |
| `ReconProgress.MarkedIsAlreadyApplied` | messaging/BlockProcessing/Processing.go:725-742 | a well-formed live transaction is taken for applied exactly if a marker says so, be it only in the legacy database |
| `AccountsDb.BuildDocs` | DB_OPs/account_recon.go:332-388 | the map loop builds, in any order, the documents the deltas call for, and fails exactly when a stored balance is unreadable |
| `AccountsDb.AccountsDb.ApplyTxAtomic` | DB_OPs/tx_markers.go:130-162 | staged documents and marker together, or nothing; it fails exactly for nothing staged, more than 1024 operations or a failing ExecAll |
| `AccountsDb.AccountsDb.ProcessTransaction` | messaging/BlockProcessing/Processing.go:660-1105 | marker check, staging and one commit, for every outcome of the marker lookup and of the ExecAll; a refusal leaves the database unchanged and a marked transaction is no refusal |
| `AccountsDb.AccountsDb.CreditStaged` | messaging/BlockProcessing/Processing.go:1256-1306 | credits are staged in turn and the first refusal ends the transaction |
| `AccountsDb.AccountsDb.RevokeTxProcessedMarkers` | DB_OPs/tx_markers.go:220-249 | chunks of 500 revoke the first 500 hashes per ExecAll that goes through, all of them exactly when the call reports success |
| `AccountsDb.AccountsDb.constructor` | DB_OPs/tx_markers.go:130-162 | the database starts with the documents and markers given |
| `Deltas.ComputeBlockDeltas` | DB_OPs/account_recon.go:89-150 | the in-place pass over a block, with a skip set, yields the delta map of the kept transactions |
| `Deltas.DeltasMeaning` | DB_OPs/account_recon.go:89-150 | the delta map gives every account its total balance change, sent count, nonce candidate and sender flag, and holds exactly the touched accounts, however addresses coincide |
| `Deltas.EffectsConcat` | DB_OPs/account_recon.go:89-150 | effects are additive over concatenation |
| `Deltas.EffectsPermute` | DB_OPs/account_recon.go:89-150 | effects do not depend on the order of transactions |
| `Deltas.NonceMaxIsBound` | DB_OPs/account_recon.go:119-132 | the nonce candidate is the least bound of the senders' nonce+1 |
| `Conservation.BlockConservation` | DB_OPs/account_recon.go:89-150 | the deltas of a block sum to minus the value sent to no one and the fee shares with no address |
| `Conservation.BlockConservesExactly` | DB_OPs/account_recon.go:89-150 | the deltas sum to zero when every address is set, however the addresses coincide |
| `Conservation.NetIsLeak` | DB_OPs/account_recon.go:89-150 | the same for one transaction |
| `Fees.SplitFee` | config/gasfee.go:59-105 | the in-place split equals its specification and adds up to the fee |
| `Fees.SplitExact` | config/gasfee.go:59-105 | ZKVM share and credits add up to the fee for every fee and recipient list |
| `Fees.SplitNonNegative` | config/gasfee.go:59-105 | a non-negative fee splits into non-negative parts |
| `Fees.CreditsGoToTargets` | config/gasfee.go:59-105 | credits go only to the coinbase or a listed recipient |
| `Fees.SplitOrderIndependent` | config/gasfee.go:59-105 | nodes holding the recipients in different orders credit every account alike, repeated addresses included |
| `Fees.GasFeeIsProduct` | config/gasfee.go:128-177 | the fee is charged limit times effective price, non-negative when the price is |
| `Fees.GasPriceExactly` | config/gasfee.go:128-177 | a kind-2 transaction pays the smaller of its cap and 35 gwei plus tip; any other its gas price, else its cap, else its tip, else one gwei; a missing limit is 21000 |
| `Fees.HalvesExactly` | config/gasfee.go:59-66 | the two shares of a fee differ by at most one wei, in favour of the coinbase side |
| `Fees.PortionExactly` | config/gasfee.go:87-98 | a recipient's portion is its weight's part of the share, rounded down to the wei |
| `Fees.SplitMeaning` | config/gasfee.go:59-105 | what every address receives of the coinbase side: all of it without weighted recipients; otherwise the rounded portions, and for the lowest address also what rounding left, at most one wei per recipient |
| `Deltas.EffectMeaning` | DB_OPs/account_recon.go:89-150 | what a transaction does to every account: the sender pays value and fee and counts one, the receiver gets the value, ZKVM half the fee, the coinbase side the rest |
| `Partition.PartitionReconGroups` | DB_OPs/account_recon.go:293-327 | the nested loops over one index terminate and compute the specified groups |
| `Partition.FillGroup` | DB_OPs/account_recon.go:293-327 | the inner loop takes transactions until the next would exceed the budget |
| `Partition.PartitionCoversPending` | DB_OPs/account_recon.go:293-327 | the groups read end to end are the pending transactions in block order, and no group is empty, for any budget |
| `Partition.PartitionMembers` | DB_OPs/account_recon.go:293-327 | every pending transaction is in a group and nothing else is |
| `Partition.WrittenAreCounted` | DB_OPs/account_recon.go:58-76 | a group writes only accounts it was budgeted for |
| `Partition.GroupsBudgeted` | DB_OPs/account_recon.go:293-327 | a group of more than one transaction stays within the budget |
| `Partition.GroupsGreedy` | DB_OPs/account_recon.go:293-327 | and a group is closed only when the next pending transaction would push it over |
| `Partition.NewAccountsExactly` | DB_OPs/account_recon.go:305-318 | where each mention of an account that is not in the group yet counts |
| `Partition.CapExact` | DB_OPs/account_recon.go:397-399 | no group hits the 1024-operation cap if and only if no pending transaction would by itself |
| `Partition.CapHolds` | DB_OPs/account_recon.go:284-327 | with at most 1019 fee recipients the cap is never hit |
| `Markers.FilterProcessedTxMarkers` | DB_OPs/sync_anchor.go:284-354 | the chunked dual-database filter returns exactly the hashes the single dual read calls applied |
| `Markers.DualReadExactly` | DB_OPs/tx_markers.go:80-115 | on the stored texts: the accounts database decides for keys it holds, the legacy database for the others, a key in neither is not applied, and a text reads as not applied exactly if it is a minus sign, zeros and a one; whatever cannot be read counts as applied |
| `Markers.CollectMarkerValues` | DB_OPs/sync_anchor.go:363-387 | the chunked lookup returns exactly the stored values |
| `Markers.EncodedMarkerReads` | DB_OPs/tx_markers.go:274-279 | an encoded int64 marker reads as applied if and only if it is not -1 |
| `Markers.RevocationWins` | DB_OPs/tx_markers.go:80-115 | a revocation in the accounts database is final whatever the legacy database holds |
| `Decimal.Format` | DB_OPs/account_recon.go:170-176 | formatting and parsing a balance is a round trip |
| `Decimal.FormatExactly` | DB_OPs/account_recon.go:170-176 | and the text written is the only one without sign or zeros to spare that reads back as the number |
| `Rollback.NothingEverSkipped` | messaging/BlockProcessing/Processing.go:412-490 | over every run of commits, replays and failed blocks, with any commits in between and a stop at any write of any rollback, every account is its base plus effects of the chain; no transaction that reads as applied is missing from an account it touches, and none is counted more often than once and once more for each time it was revoked |
| `Rollback.NeverRevokedIsHeldOnce` | messaging/BlockProcessing/Processing.go:412-490 | so an applied transaction that was never revoked is held exactly once by every account it touches |
| `Rollback.RollbackSkipsNothing` | messaging/BlockProcessing/Processing.go:427-490 | a rollback leaves no applied marker without its effect, at any point, if every commit since the snapshot that touches a restored account is revoked; before anything is restored that holds of any chunk of revocations |
| `Rollback.RestoreSafeExactly` | messaging/BlockProcessing/Processing.go:427-490 | the histories the commits produced survive a restore if and only if every transaction committed since the snapshot that touches a restored account is revoked |
| `Rollback.ExplainedExactly` | messaging/BlockProcessing/Processing.go:427-490 | some history, of any kind, accounts for the restored database if and only if every transaction committed since the snapshot and not revoked neither sends from a restored account nor pays it anything |
| `Rollback.NoHistoryExplains` | messaging/BlockProcessing/Processing.go:427-490 | so if one sends from a restored account or pays it something, no history accounts for the result |
| `Rollback.RestoredExactly` | messaging/BlockProcessing/Processing.go:292-318 | after a rollback restored accounts are what they were and others, such as weighted fee recipients, keep what was committed, in balance, count and nonce; exactly the revoked transactions read as not applied |
| `Rollback.RestoredDocument` | messaging/BlockProcessing/Processing.go:600-656 | a restored account that existed is the document it was except for an identity given since, one that did not stays behind with zeros, and all others are as committed |
| `Rollback.FinishedUndoes` | messaging/BlockProcessing/Processing.go:427-490 | a rollback that revoked exactly what was committed and restored every account touched or opened leaves the ledger as it was |
| `Rollback.FinishedRollbacksLeaveNoTrace` | messaging/BlockProcessing/Processing.go:412-490 | over every run in which each rollback finished, one list of distinct transactions, exactly the marked ones, explains every account |
| `Rollback.RollbackState` | messaging/BlockProcessing/Processing.go:600-656 | the restore loop restores a subset of the snapshot, all of it if no write fails |
| `BlockProcessing.ProcessBlockTransactions` | messaging/BlockProcessing/Processing.go:221-550 | with other writers committing before any transaction and before the rollback: unmarked transactions are tried once each in block order, and the block is applied in full if and only if none is refused. At the first refusal the block's own markers are revoked, 500 per ExecAll that goes through, and only after the last one accounts are restored, the whole snapshot unless a write fails. A failing prefilter changes nothing. A validated block whose accounts are ready is applied if the database answers and nobody interferes |
| `BlockProcessing.FailedBlockExactly` | messaging/BlockProcessing/Processing.go:427-490 | a failed block is one event of a run with rollbacks, and nothing is skipped if and only if every commit of another writer since the snapshot that touches a restored account is revoked too |
| `BlockProcessing.FailedBlockUndone` | messaging/BlockProcessing/Processing.go:427-490 | undisturbed, without weighted recipients and fully restored, a failed block leaves the ledger as it was |
| `BlockProcessing.ExecuteNext` | messaging/BlockProcessing/Processing.go:356-460 | one transaction is skipped if its hash was marked when the block started or was met in it, and otherwise refused exactly if its attempt is, for every outcome of marker lookup and ExecAll; one that another writer has applied meanwhile counts as done |
| `BlockProcessing.ExecuteAll` | messaging/BlockProcessing/Processing.go:356-460 | the loop tries exactly the foreseen attempts, to the end with every transaction marked, or to the first that is refused, with the block's own commits listed for revocation and nothing else |
| `BlockProcessing.RollBlockBack` | messaging/BlockProcessing/Processing.go:427-490 | nothing is restored unless every marker was revoked, and what others commit before the rollback is kept except in restored accounts |
| `Validation.SimulationConservative` | Security/security_cache.go:216-260 | at every point of an accepted block the simulated balance of every cached account is at most its executed balance |
| `Acceptance.AcceptedExactly` | Security/Security.go:172-214 | a block is accepted if and only if it has transactions and each one is genuine, has a value and known addresses, and comes from a readable account whose stored balance, plus what it received and minus what it sent and paid earlier in the block, covers value and fee, with a nonce not below the one due |
| `Acceptance.AcceptedAscendingExactly` | Security/Security.go:570-602 | if no sender goes on after nonce 2^64-1, the nonce part says that none is below the stored one and each sender's ascend |
| `Acceptance.Tracked` | Security/security_cache.go:216-260 | the cache holds for every account exactly what it has left and the nonce due |
| `Validation.AcceptedNeverOverdraws` | Security/Security.go:172-214 | an accepted block with checked values, cut anywhere and reconciled, makes no account negative, and each sender can pay for its next transaction |
| `Validation.NoncesAscendExactly` | Security/Security.go:570-602 | each sender's nonces ascend strictly in an accepted block if and only if no sender goes on after 2^64-1 |
| `Validation.LastNonceRepeats` | Security/Security.go:570-602 | a concrete block that repeats a transaction with nonce 2^64-1 and is accepted |
| `Validation.AcceptedHashesDistinct` | Security/Security.go:570-602 | an accepted block repeats no hash, if a hash stands for one sender and nonce |
| `Validation.ValidatedNonceIsStored` | Security/Security.go:598-602 | the validator's final nonce is the one reconciliation stores |
| `Validation.CheckedIsNonNegative` | Security/Security.go:863-887 | checked values give a non-negative amount and a non-negative fee |
| `Validation.CheckedPays` | Security/Security.go:863-887 | a checked transaction credits nobody a negative amount |
| `Validation.SecurityCache.CheckBlock` | Security/Security.go:100-260 | accepts exactly the blocks that are not empty, whose transactions pass in order and whose hash is the digest of the transaction hashes, and nothing if the accounts cannot be loaded |
| `Validation.SecurityCache.AllChecks` | Security/Security.go:375-615 | the checks of one transaction, in order, with the cache they leave |
| `Validation.SecurityCache.CheckBalance` | Security/security_cache.go:216-260 | refused exactly when unaffordable or unreadable; otherwise the cache is debited and credited |
| `Validation.SecurityCache.AddBalance` | Security/security_cache.go:126-136 | moves only a cached, readable balance |
| `Validation.SecurityCache.SubBalance` | Security/security_cache.go:138-148 | moves only a cached, readable balance |
| `Validation.SecurityCache.UpdateTxNonce` | Security/security_cache.go:150-157 | sets the nonce of a cached account only |
| `Validation.SecurityCache.LoadAccounts` | Security/security_cache.go:98-120 | adds the stored accounts asked for |
| `Validation.SecurityCache.constructor` | Security/security_cache.go:92-96 | the cache starts empty |
| `LiveProgress.CommitsExactly` | messaging/BlockProcessing/Processing.go:660-1105 | for every outcome of lookup and ExecAll, a live transaction commits if and only if it is well formed, not found applied, its sender, receiver and fee accounts allow it, its writes fit 1024 operations and the ExecAll goes through |
| `LiveProgress.FewRecipientsFit` | DB_OPs/tx_markers.go:130-162 | a live commit writes at most four accounts besides the fee recipients, so 1019 of them always fit |
| `LiveProgress.FailedLookupIsHarmless` | messaging/BlockProcessing/Processing.go:725-742 | processTransaction goes on when it cannot read the marker; over every run a transaction applied since is refused all the same, unless its nonce is the last or a live commit wrapped its sender |
| `Attempts.LookupsDoNotMatter` | messaging/BlockProcessing/Processing.go:725-742 | over every run in which any marker lookups fail the database ends as if all had succeeded, for transactions below nonce 2^64-1 that, if applied before the run, are below their sender's nonce |
| `LiveProgress.LastNonceCommitsAgainExactly` | messaging/BlockProcessing/Processing.go:725-742 | at nonce 2^64-1 such an attempt commits the same transaction again if and only if the sender can still pay |
| `LiveProgress.StageExactly` | messaging/BlockProcessing/Processing.go:1184-1306 | staging succeeds exactly when the accounts allow it, stated on the stored accounts alone |
| `LiveProgress.CreditsExactly` | messaging/BlockProcessing/Processing.go:1256-1306 | staged credits go through exactly when every credited account can be read |
| `Admission.AcceptedBlockCommits` | Security/Security.go:172-214 | if fee accounts are ready, each receiver exists or has a carried identity, hashes are distinct and unmarked and writes fit, none of which validation checks, then every transaction of a validated block commits live, one after another, and the accounts end with exactly its effects and the nonces validation computed |
| `Admission.BlockCommitsExactly` | Security/Security.go:172-214 | every transaction of a validated block commits live if and only if hashes are distinct and unmarked and each transaction is ready: well formed, fits one ExecAll, sender readable, receiver there, opened earlier in the block or carried, and everyone it pays usable |
| `Admission.NextCommits` | Security/Security.go:570-602 | under the same conditions the next transaction is not refused after any prefix |
| `Scan.BuildDataMissingTag` | FastsyncV2/catchup.go:533-621 | the ranges are ascending, disjoint and cover exactly the absent or incomplete blocks; each counter counts its kind; unseen blocks count as absent |
| `Scan.BuildMissingTag` | FastsyncV2/catchup.go:453-491 | the ranges are ascending, disjoint and cover exactly the absent blocks |
| `Scan.MissingExactly` | FastsyncV2/catchup.go:453-491 | a block is listed exactly if it is not stored or the scan did not reach it |
| `Scan.KindExactly` | FastsyncV2/catchup.go:438-446 | on the block's own fields: complete is stored with a proof and, if gas was used, with transactions; and what each of the other three kinds is |
| `Scan.Maximal` | FastsyncV2/catchup.go:533-621 | no range could be longer |
| `Scan.CountersSum` | FastsyncV2/catchup.go:533-621 | the four counters add up to the length of the range |
| `Scan.EarlyStopLeavesNothingOut` | FastsyncV2/catchup.go:565-575 | a block is listed exactly if it is absent, has no proof, used gas without transactions, or was not reached; so stopping early leaves none out |
| `Scan.BlockIterator.Next` | DB_OPs/Nodeinfo/immudb_block_iterator.go:95-148 | a window shows each block at its own position, in batches of 500, until the end |
| `Scan.WindowsExactly` | DB_OPs/Nodeinfo/immudb_block_iterator.go:95-116 | every window of a scan in uint64 is the intended one if and only if the scan ends at least a window below 2^64 |
| `Scan.BlockIterator.constructor` | DB_OPs/Nodeinfo/immudb_block_iterator.go:83-92 | the iterator starts at the first block of the range |
| `AnchorRuns.AnchorStaysHonest` | DB_OPs/sync_anchor.go:63-100 | after any run of careful actions every transaction of every block up to the anchor is applied, the anchor was never lowered, and it is at most the head, or one above for a live block not yet stored |
| `AnchorHonesty.AnchorHonestExactly` | FastsyncV2/fastsyncv2.go:889-949 | every allowed run keeps the anchor honest at every point if and only if no rollback revokes a transaction of a block up to the anchor, and every advance finds applied each block it newly covers that lies below the session's start, was incomplete at the hand-off, was handed off and not reconciled with success since, or was rolled back since |
| `AnchorHonesty.RunStaysSteady` | DB_OPs/sync_anchor.go:63-100 | in every allowed run, careful or not, the anchor is never lowered, is at most the head or one above it, and what the session vouches for is applied unless it was rolled back since |
| `AnchorHonesty.StepHonestExactly` | FastsyncV2/fastsyncv2.go:889-949 | from an honest anchor one action leads to an honest anchor exactly if it is safe in that sense |
| `AnchorRuns.SaneExactly` | FastsyncV2/fastsyncv2.go:889-949 | a run keeps the stronger invariant, which also forbids gaps below a hand-off and rollbacks of what the open session relies on, if and only if every action is careful |
| `AnchorHonesty.CarefulIsSafe` | FastsyncV2/fastsyncv2.go:889-949 | careful runs are safe |
| `AnchorHonesty.AdvanceHonestExactly` | FastsyncV2/fastsyncv2.go:889-949 | an advance leaves an honest anchor if and only if every block it newly covers is applied that lies below the session's start, was incomplete at the hand-off, was handed off and not reconciled with success since, or was rolled back since |
| `AnchorRuns.NotedSound` | DB_OPs/Nodeinfo/account_sync_worker.go:483-498 | a handed-off block whose reconciliation reported success is fully applied, and an advance rests on that alone |
| `AnchorRuns.AppliedIsStable` | messaging/BlockProcessing/Processing.go:427-490 | a fully applied block stays applied through every action except a rollback that revokes transactions of that very block |
| `AnchorRuns.RollbackReadsExactly` | messaging/BlockProcessing/Processing.go:443-455 | a rollback that revokes anything leaves every other applied block applied and its own not |
| `AnchorRuns.DrainedAdvanceIsCareful` | FastsyncV2/fastsyncv2.go:889-949 | an advance is careful if every handed-off block was reconciled with success and the blocks of the range did not change since |
| `AnchorExamples.LateDataIsSkipped` | FastsyncV2/catchup.go:294-382 | a concrete run: hand-off, a block completed, advance; the anchor passes the unapplied block |
| `AnchorExamples.FailedHandOffIsPassed` | FastsyncV2/fastsyncv2.go:904-917 | a concrete run: hand-off of a complete block, nothing reconciled, advance; the anchor passes it |
| `AnchorExamples.GapIsPassed` | FastsyncV2/fastsyncv2.go:729-736 | a concrete run: a hand-off that starts above the block after the anchor, advance; the anchor passes the block in between |
| `AnchorExamples.LateRollbackBreaks` | messaging/BlockProcessing/Processing.go:443-470 | a concrete run: hand-off, reconciliation, advance, all honest, and then a failed live attempt revokes the transaction below the anchor |
| `AnchorRuns.LiveLeadsHead` | messaging/BlockProcessing/Processing.go:544-550 | live processing moves the anchor one above the head until the block is stored |
| `Anchor.LiveNeverLowersExactly` | DB_OPs/sync_anchor.go:63-68 | the live rule lowers the anchor only for block 0 at 2^64-1 |
| `Anchor.AnchorKey.Advance` | DB_OPs/sync_anchor.go:188-220 | the locked cycle applies the rule, and the reconciliation rule never lowers the anchor |
| `Anchor.AnchorKey.Seed` | DB_OPs/sync_anchor.go:233-261 | written once, as the smaller of legacy value and tip, never over an existing value |
| `Anchor.AnchorKey.constructor` | DB_OPs/sync_anchor.go:145-160 | an absent anchor |
| `Anchor.MarkReconComplete` | FastsyncV2/fastsyncv2.go:889-919 | once the queue has drained the anchor becomes the larger of itself and the target capped at the head, unless the write fails; otherwise it stays; and whether it covers the target is reported exactly |
| `Anchor.ReconFromExactly` | FastsyncV2/fastsyncv2.go:725-737 | reconciliation starts so as to leave out exactly the blocks the anchor covers |
| `AnchorRuns.AdvanceAnchor` | FastsyncV2/fastsyncv2.go:926-949 | the gate makes exactly the advance of the runs above when session, drain and scan are clean and the write goes through, and never moves the anchor where that advance is not allowed |
| `Anchor.AdvanceReconAnchorIfProven` | FastsyncV2/fastsyncv2.go:926-949 | the anchor moves, to the capped end of the range, if and only if reconciliation was clean, the drain is confirmed, the range is not empty, every block of it is stored with proof and data, the write goes through and the anchor was below |
| `Anchor.DataComplete` | FastsyncV2/catchup.go:533-621 | an empty tag means that every block of the range is stored and complete, and conversely |
| `Anchor.CatchUpMarkerExactly` | FastsyncV2/catchup.go:350-382 | after phase 8 the marker is covered by the anchor if and only if the head cap did not lower the target |
| `Anchor.ReconcileBlocksLocally` | FastsyncV2/reconcile_local.go:56-121 | hands off the blocks of the range with work outstanding, in ascending order, and no others |
| `Anchor.RefsAreOutstanding` | FastsyncV2/reconcile_local.go:86-107 | a block is handed off exactly if it is stored and has an unmarked transaction, in ascending order |
| `Drain.ConfirmedExactly` | DB_OPs/Nodeinfo/account_sync_drainwait.go:138-146 | in every reachable state a confirmed drain means every entry up to the target is applied if and only if none was undecodable and each one whose delivery failed went through in a later reclaim |
| `Drain.ConfirmedWhenNothingFails` | DB_OPs/Nodeinfo/account_sync_drainwait.go:213-241 | if every entry decodes and no delivery fails, a confirmed drain means applied |
| `Drain.FailedEntryIsPassed` | DB_OPs/Nodeinfo/account_sync_worker.go:483-521 | a concrete run in which a failed entry is passed by a later one and the drain is confirmed |
| `Drain.NoteDrained` | DB_OPs/Nodeinfo/account_sync_drainwait.go:107-123 | the mark is the maximum acknowledged entry that parses and never falls |
| `DrainWorker.EnqueueBlockRecons` | DB_OPs/Nodeinfo/immudb_account_manager.go:594-645 | reference i travels, in order and in entries of at most 500, exactly if chunk i/500 could be enqueued, and is reported as failed otherwise |
| `DrainWorker.ApplyEntry` | DB_OPs/Nodeinfo/account_sync_worker.go:483-498 | the blocks of an entry are reconciled in turn. The entry counts as applied if and only if all succeeded, and then every transaction of every block is marked; otherwise it stops at a block that is missing or whose reconciliation fails, all earlier ones marked |
| `DrainWorker.ConfirmedAdvanceIsCareful` | FastsyncV2/fastsyncv2.go:889-919 | a confirmed drain makes the advance safe if every entry up to the target went through and the blocks of the range did not change |
| `Merge.NothingLost` | DB_OPs/account_immuclient.go:376-454 | over any sequence of writes timestamps and counters never fall and a nonzero balance, identity nonce, DID, creation time or metadata is never lost |
| `Merge.NothingInvented` | DB_OPs/account_immuclient.go:376-454 | over any sequence of writes every stored field was offered by one of them, so the counters are the largest ever offered |
| `Merge.NewerWins` | DB_OPs/account_immuclient.go:391-454 | a strictly newer write gets its way in everything it has to say |
| `Merge.RedeliveryIsHarmless` | DB_OPs/account_immuclient.go:376-454 | redelivering the last write changes nothing |
| `Merge.OlderIsIgnored` | DB_OPs/account_immuclient.go:391-401 | an older write changes nothing |
| `Merge.OffersCommuteExactly` | DB_OPs/account_immuclient.go:391-401 | two writes to a new account leave the same document in either order if and only if the older one holds nothing the newer lacks or, equally old, they agree or fit together field by field |
| `Merge.TiesDependOnOrder` | DB_OPs/account_immuclient.go:391-401 | two concrete writes with equal timestamps and different balances for which the order decides |
| `Merge.NormalizeExactly` | DB_OPs/account_immuclient.go:345-358 | a stamp is scaled without int64 overflow if and only if it fits its unit's limit |
| `Merge.LateSecondsWrap` | DB_OPs/account_immuclient.go:349-350 | a concrete second stamp that becomes negative, before the year the comment names |
| `Merge.UnitsAgreeExactly` | DB_OPs/account_immuclient.go:345-358 | a stamp reads the same in every unit exactly from 10^8 to 9223372036 seconds |
| `Merge.OrderIsUnitIndependent` | DB_OPs/account_immuclient.go:345-358 | in that range last-writer order is the order of the instants |
| `Restore.RestoredState` | DB_OPs/account_immuclient.go:601-718 | whatever order the maps are walked in, each address ends as the merge of its surviving entry over what was stored, or as the entry itself if it does not decode, and each DID points to its account if that is in the batch or stored |
| `Restore.RefsNeverDangle` | DB_OPs/account_immuclient.go:744-768 | after any committed prefix every DID reference points to an existing address key |
| `Restore.PlanWritesOnce` | DB_OPs/account_immuclient.go:508-547 | no address or DID key is written twice |
| `Restore.SurvivorIsNewest` | DB_OPs/account_immuclient.go:508-532 | the surviving entry is one of the entries and none that decodes is newer |
| `Restore.SurvivorOvertakes` | DB_OPs/account_immuclient.go:508-532 | and it is the first entry for its address or strictly newer than every earlier one that decodes |
| `Restore.LastDidIsLast` | DB_OPs/account_immuclient.go:533-547 | of the entries for a DID the last one counts |
| `Restore.Deduplicate` | DB_OPs/account_immuclient.go:483-547 | the two folds keep the survivors; an empty list, an empty key or a nil value is an error |
| `Restore.AccountsKv.BatchRestoreAccounts` | DB_OPs/account_immuclient.go:458-768 | a call commits the first 1000 operations per transaction that goes through of a plan for the surviving entries, reports success exactly when that is all of it, and keeps references resolved |
| `Restore.AccountsKv.CommitChunks` | DB_OPs/account_immuclient.go:744-768 | chunks of 1000 commit 1000 operations each until one fails |
| `Restore.AccountsKv.constructor` | DB_OPs/account_immuclient.go:458-768 | the store starts as given |
| `Restore.PlanAddresses` | DB_OPs/account_immuclient.go:634-697 | the first pass over the addresses, with their references |
| `Restore.PlanRefs` | DB_OPs/account_immuclient.go:699-718 | the second pass over the remaining references |
| `Ordinals.OrdinalsNeverRepeat` | DB_OPs/art_ordinal.go:97-141 | over any run of reservations, crashes and applied blocks the ordinals handed out are distinct, in [1, 2^40), and the counter never falls |
| `Ordinals.PromotedNeverReuses` | DB_OPs/art_ordinal.go:123-141 | a node that raised its counter for an applied block never hands out an ordinal the block carried |
| `Ordinals.BumpCoversExactly` | DB_OPs/art_ordinal.go:123-141 | applying a block raises the counter past its ordinals except when it carries 2^40-1 and the counter was not already above the rest, and never further than one above a carried ordinal |
| `Ordinals.LastOrdinalDefeatsBump` | messaging/BlockProcessing/Processing.go:270-290 | a concrete block after which an ordinal is handed out again |
| `Ordinals.ReserveAdvancesExactly` | DB_OPs/art_ordinal.go:97-116 | a reservation advances the counter by its size if and only if the addition does not wrap |
| `Ordinals.EnrichKeepsIdentities` | DB_OPs/art_ordinal.go:156-236 | however much of an enriched block is executed, identities stay distinct and ordinals below the counter, and no address is given the empty identity |
| `Identities.StepRenames` | messaging/BlockProcessing/Processing.go:88-125 | a live step gives an account only the identity its block carries for it, and reconciliation gives none |
| `Identities.CommitAdopts` | messaging/BlockProcessing/Processing.go:88-125 | and after a live commit sender and receiver do hold the nonzero identity carried for them |
| `Identities.IdentitiesStayDistinct` | DB_OPs/art_ordinal.go:156-236 | over every sequence of enriched blocks, each executed in full, in part or not at all and mixed with reconciliation, no two accounts share an identity and no stored ordinal will be handed out again |
| `Ordinals.EnrichReproducible` | DB_OPs/art_ordinal.go:214-228 | the identities do not depend on the order of the transactions |
| `Ordinals.Enrich` | DB_OPs/art_ordinal.go:156-236 | one entry per address in first-seen order; it fails, with the counter unchanged, if and only if an account could not be read, or some account lacks an identity and the write fails or the ordinals would reach 2^40 |
| `Ordinals.IdentityExactly` | DB_OPs/art_ordinal.go:205-235 | an address carries the identity it has, or the ordinal as many places after the first as accounts without identity rank below it |
| `Ordinals.OrdinalCounter.Reserve` | DB_OPs/art_ordinal.go:97-116 | reserves exactly if some are asked for, the write goes through and the counter stays below 2^40; otherwise nothing changes |
| `Ordinals.OrdinalCounter.Bump` | DB_OPs/art_ordinal.go:123-141 | raises the counter to a floor inside the ordinal space |
| `Ordinals.OrdinalCounter.BumpForBlock` | messaging/BlockProcessing/Processing.go:270-290 | raises the counter past the highest carried ordinal |
| `Ordinals.OrdinalCounter.constructor` | DB_OPs/art_ordinal.go:67-92 | an absent counter |
| `Pagination.FingerprintLines` | DB_OPs/state_fingerprint.go:29-71 | the pages concatenate to one full scan: every account that decodes once, in ascending key order, whether seeking is inclusive or not; both loops terminate |
| `Pagination.ListAccountsPaginatedFrom` | DB_OPs/account_immuclient.go:1277-1377 | a page is the accepted rows behind the cursor, up to the limit, and all there are if fewer; the cursor is its last key |
| `Pagination.PickExactly` | DB_OPs/account_immuclient.go:1277-1377 | accepted are exactly the rows that decode and whose DID starts with the prefix, in key order |
| `Pagination.ScanBehind` | DB_OPs/account_immuclient.go:1307-1339 | a scan continues right behind the cursor under either seek convention |
| `Pagination.SameAppliedSameFingerprint` | DB_OPs/state_fingerprint.go:29-71 | nodes that reconciled the same transactions, in any order of blocks and with any replays and interruptions, hash the same lines whatever text the base stores |
| `Pagination.FingerprintsAgreeExactly` | DB_OPs/state_fingerprint.go:29-71 | nodes that applied the same transactions in any mix of live execution and reconciliation hash the same lines if and only if no receiver was opened for nothing by one of them alone |
| `Pagination.MixedRunsSameFingerprint` | DB_OPs/state_fingerprint.go:29-71 | so they do if every live receiver existed or is touched by its own transaction |
| `Pagination.FingerprintExactly` | DB_OPs/state_fingerprint.go:50-63 | two nodes hash the same lines if and only if they agree on every row of state |
| `Pagination.SameStateSameFingerprint` | DB_OPs/state_fingerprint.go:50-63 | nodes that agree on every row hash the same lines |
| `Session.Tip.EndSyncSession` | FastsyncV2/fastsyncv2.go:779-815 | the marker never falls and never passes the larger of its start and its goal, the lower of contiguous head and anchor. Each round without a database error brings it a window of 500 closer, so it is reached if no round fails and it is within 1000 windows |
| `Session.Tip.AdvanceOnce` | FastsyncV2/fastsyncv2.go:794-814 | one round moves the marker by at most a window and not past the goal, and is the last only at the goal, after an error, or from zero |
| `Session.ReconcileBlockNumber` | DB_OPs/Nodeinfo/immudb_adapter.go:134-183 | the contiguous head as far as one window of 500 shows it; a marker at zero is left alone, an unreadable one counts as zero, an unreadable window shows nothing |
| `Session.Tip.UpdateMonotonic` | DB_OPs/latest_block.go:61-97 | the marker becomes the candidate if that is larger and the write goes through, and stays otherwise |
| `Session.Tip.constructor` | DB_OPs/latest_block.go:61-97 | the marker starts as given |
| `Session.HeadStays` | DB_OPs/Nodeinfo/immudb_adapter.go:134-183 | the contiguous head is the same from anywhere on its stretch |
| `HeadPush.NeverLost` | seed_blockhead_push.go:43-76 | under every interleaving a set flag has a token, a debouncing worker or a hook about to signal, and an uncovered head has its flag set or about to be |
| `HeadPush.QuietMeansPushed` | seed_blockhead_push.go:43-76 | when nothing is in flight every head was followed by a trigger that started after it |
| `HeadPush.PushedSoon` | seed_blockhead_push.go:55-76 | once signalled, three steps of the worker with any hooks in between start a trigger after the head |
| `HeadPush.HookPushes` | seed_blockhead_push.go:43-76 | whatever other hooks are in flight, once a hook has stored its head, set the flag and offered the token, three steps of the worker start a trigger after that head |
| `HeadPush.SettledIsDue` | seed_blockhead_push.go:43-52 | once the hooks in flight have finished, every head is due |
| `Listener.ReturnsExactly` | Vote/Trigger.go:238-262 | the walk ends if and only if there is no buddy, the offset starts past the end, or a slot below the count is taken |
| `Listener.EndlessWalk` | Vote/Trigger.go:238-262 | one buddy filed under index 1 makes the walk endless |
| `Listener.PicksFirstTaken` | Vote/Trigger.go:238-262 | the walk picks the first taken slot from its start |

## Left out

- Connection pools, retries, timeouts, logging, metrics: a failed call is a parameter, and its message is not modelled.
- Errors of the other account reads inside `processTransaction`: each refuses the transaction like a failing ExecAll.
- Stored account documents that do not decode: treated as absent by the ledger; `Restore` and `Pagination` model them.
- The block_processed marker and the tx_processing advisory keys: hints that skip work, not part of the guarantee.
- Sync, restore and DID writers that do not take the state-apply lock: outside the ledger invariant.
- The 64-bit width of TxCountSent and of update stamps: both are unbounded; the node's nanoseconds overflow in 2262.
- Signature, hash and chain-id checks: one parameter of validation that says a transaction is genuine.
- A nil transaction value or sender in validation: the node panics; the model refuses the block.
- Scan.BlockIterator.Next: block numbers are unbounded, so the wrap of `current + batchsize` within 500 of 2^64 is not modelled; `Scan.WindowsExactly` says when it does not occur.
- Scan.BuildDataMissingTag: the same, and blocks are stored under their own number.
- Scan.BuildMissingTag: the same.
- AnchorRuns.AnchorStaysHonest: for careful actions; `AnchorHonesty.AnchorHonestExactly` says exactly which runs keep the anchor honest. The anchor may be one above the head, because live processing advances it before the block is stored.
- Rollback.NothingEverSkipped: for failed blocks that revoke every commit since the snapshot touching a restored account; `Rollback.ExplainedExactly` says exactly when one rollback leaves something no history explains. The nonce of a sender that used nonce 2^64-1 is left open.
- Pagination.FingerprintsAgreeExactly: for runs in which no live commit wrapped a nonce, from balances stored as the node writes them.
- LiveProgress.FailedLookupIsHarmless: for transactions applied since the start of the run; `LiveProgress.LastNonceCommitsAgainExactly` says what happens at nonce 2^64-1.
- Attempts.LookupsDoNotMatter: the same; a transaction applied before the run is assumed to be below its sender's nonce.
- Rollback.ExplainedExactly: for chains that credit nobody a negative amount, as validation checks (`Validation.CheckedPays`).
- Admission.AcceptedBlockCommits: validation does not check that the fee accounts are ready, that a receiver exists or has a carried identity, that hashes are unmarked or that the writes fit one ExecAll; `Admission.BlockCommitsExactly` says that exactly this is missing.
- Admission.NextCommits: the same.
- BlockProcessing.ProcessBlockTransactions: marker prefilter and account snapshot are one moment, and other writers are attempts that take the state-apply lock.
- BlockProcessing.FailedBlockExactly: for runs whose failed lookups change nothing, which `Attempts.LookupsDoNotMatter` gives.
- Identities.IdentitiesStayDistinct: one sequencer; blocks of another raise the counter (`Ordinals.PromotedNeverReuses`).
- Ordinals.OrdinalsNeverRepeat: reservations are below 2^40; `Ordinals.ReserveAdvancesExactly` says what a wrapping one does.
- Ordinals.PromotedNeverReuses: blocks do not carry ordinal 2^40-1, which is never handed out; `Ordinals.BumpCoversExactly` says what happens otherwise.
- Pagination.FingerprintLines: the digest itself; equal lines give equal digests.
- Listener.PicksFirstTaken: the hash that gives the starting slot is a parameter.
- The legacy SQLite watermark as a source of honesty: only its capped, write-once import is modelled.
- PriorSync, HeaderSync, DataSync, PoTS and AccountSync, committee certificates, libp2p, RPC, mempool, contracts: no part of account state.
- Lock-free interleavings inside one writer: the state-apply lock makes each read-modify-commit cycle one step.
