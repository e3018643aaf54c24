# Verified model of the marketplace's database protocols

The repository is a Django marketplace. Its logic is a set of protocols over database rows: gallery images kept
in step with blob storage, a double-entry mock ledger with idempotency keys, chat acceptance under windowed limits,
report-threshold moderation, a login throttle, the trade lifecycle, account withdrawal with a leased revocation
worker, an expiring presence set, and a data migration with its inverse. This project models each committed
transaction as one step on an explicit state and proves what every run keeps.

`dafny verify dfyconfig.toml` checks everything.

## How the files fit together

| area | specification | outcomes and proofs over runs | code in its own form (classes and loops) |
|---|---|---|---|
| gallery images | `Gallery` | `GalleryOutcomes`, `GalleryInvariant`, `GalleryRepair`, `GalleryRuns` | `GalleryService` |
| ledger | `Ledger`, `CanonicalPayload` | `LedgerOutcomes`, `LedgerInvariant`, `LedgerIdempotency`, `LedgerSafety`, `LedgerInterleaving` | `LedgerService` |
| chat | `ChatLimits`, `ChatAccess` | `ChatOutcomes`, `ChatRates` | `ChatService` |
| moderation | `Moderation` | `ModerationOutcomes`, `ModerationRuns` | `ModerationService` |
| login throttle | `LoginThrottle` | `LoginOutcomes`, `LoginThrottle` | `LoginService` |
| trades and reviews | `Trades`, `Reviews` | `TradeOutcomes`, `TradeRuns`, `Reviews` | `TradeAuthority` (`TradeService.dfy`), `ReviewService` |
| withdrawal, favorites, notifications | `Market` | `MarketOutcomes`, `MarketBarrier`, `MarketRuns`, `MarketCatalog` | `MarketService`, `NotificationPurge` |
| session revocation | `Revocation` | `RevocationRuns` | `RevocationService` |
| presence | `Presence` | `Presence` | `PresenceService` |
| legacy-sale migration | `LegacySold` | `LegacySold` | `LegacySoldMigration` |

Each class has the source's fields and loops, and each of its methods is proved to produce exactly the state and
result of the specification function; the lemmas are about those functions. `Accounts` and `Base` hold the shared
user facts, sums and counts. A failure that the source can meet (a storage call that raises, a retryable database
error, an exception between two effects) is an argument of the operation, and every lemma quantifies over it.
Where a clock matters it never runs backwards. In chat, the revocation worker and manual sanctions a reading taken
before a lock or an insert may be older than the step that uses it; the login throttle and presence read in order.

## Findings: where the code and its documents differ

- The reconcile command raises `CommandError` inside its own atomic transaction, right after saving the BLOCKED
  state (`src/apps/transfers/management/commands/reconcile_mock_ledger.py:18-52`). The block is rolled back, so no
  run of the services ever stores one, although `docs/report/01-requirements.md:83` promises it. The model follows
  the code. `LedgerSafety.NoRunBlocks` states it for every run, `LedgerSafety.RefusedAfterReportIff` gives the exact
  condition under which transfers are refused after a report, and `LedgerSafety.TransferAfterReportedBlock` is a
  concrete table whose reported block lets the next transfer through. `LedgerSafety.BlockStands` shows what does
  hold: a block that is stored stays, and moves no money, until a matching resume with no mismatches.
- A gallery repair ends clean unless some pending row's owned key holds other bytes, which a partial or corrupted
  write can leave behind (`src/apps/catalog/services.py:339-356`). `GalleryRepair.RepairConverges` states exactly
  which rows stay pending, `GalleryRuns.PartialWriteSticksForGood` shows that one partial write is enough, and
  `GalleryRuns.WholeRunThenRepair` that without such writes every run can be repaired completely.
- A completed revocation task can be reopened: a worker that outlives its lease and then fails writes RETRY
  without looking at the row (`src/apps/accounts/withdrawal.py:210-229`). `RevocationRuns.LateFailureReopens` gives
  such a run, and `RevocationRuns.CompletedIsFinalIff` the exact condition on the state: COMPLETED is final if and
  only if no worker is under way short of its last effect. `RevocationRuns.CompletedIsFinalWhenPunctual` shows that
  it is final when every worker writes within its lease.

## Main results

The weight rests on the lemmas over runs: `GalleryRuns.EveryRunKeepsImages` and `GalleryRuns.WholeRunThenRepair`,
`LedgerInvariant.RunKeepsInv`, `LedgerIdempotency.MovesAtMostOnce` and `LedgerIdempotency.ReplayReturnsFirstAnswer`,
`LedgerSafety.BlockStands`, `LedgerInterleaving.InterleavingsAreSerializable`, `CanonicalPayload.EncodeInjective`,
`ChatRates.EveryRunIsBounded`, `ChatRates.WaitIsSufficient` and `ChatRates.WaitIsTight`,
`ModerationRuns.FiveReportersPerAction` and `ModerationRuns.AutomaticActionsNeverOverlap`,
`LoginThrottle.FailureRateBound`, `TradeRuns.EveryRunIsExplained`, `MarketRuns.EveryRunKeepsInv` and
`MarketBarrier.WithdrawalIsABarrier`, `RevocationRuns.EveryRunIsSound` and `RevocationRuns.CompletedIsFinalIff`,
`Presence.CountIsOnline`, `LegacySold.BackfillTwice` and `LegacySold.FreezeIff`. The `*Outcomes` modules
say of each operation, from the rows alone, when it takes effect, what it then changes and what it answers otherwise.
The methods of the service classes carry these results over to the code's own form; where a handler has no loop, its method mirrors the function.

## Model

| member | source | states |
|---|---|---|
| CanonicalPayload.DecodeEncode | src/apps/transfers/services.py:63-76 | reading back the canonical text, JSON string escapes (section 7 of RFC 8259) and two-decimal amount included, gives the recipient or room and the amount it was made from |
| CanonicalPayload.EncodeInjective | src/apps/transfers/services.py:63-76 | two requests have the same canonical text exactly when they name the same target kind, target and amount, so the two ranges are disjoint |
| CanonicalPayload.ReadStringOfEscape | src/apps/transfers/services.py:63-76 | the reader of escaped strings undoes the escaping of any string, with anything behind it |
| CanonicalPayload.ReadAmountOfText | src/apps/transfers/services.py:63-76 | the reader of amounts undoes the two-decimal printing of any number of cents |
| CanonicalPayload.KnownText | src/apps/transfers/services.py:63-69 | one text in full, with its sorted keys, two decimals and escaped quotes |
| Ledger.FindAccountStable | src/apps/transfers/services.py:134-155 | an account lookup that succeeded gives the same row however the table grows |
| LedgerInvariant.SeedKeepsInv | src/apps/transfers/services.py:91-117 | opening an account issues the seed from the reserve and keeps the books, balances, totals and stored answers consistent |
| LedgerInvariant.PostKeepsBooks | src/apps/transfers/services.py:171-182 | a posted transfer adds one balanced two-entry journal, and every balance still is the sum of its entries |
| LedgerInvariant.PostKeepsAccounting | src/apps/transfers/services.py:162-174 | a posted transfer keeps balances within 0 and the maximum and the total at the seeds issued |
| LedgerInvariant.PostKeepsAnswered | src/apps/transfers/services.py:182-197 | transfer rows and stored 201 answers stay one to one |
| LedgerInvariant.ExecuteKeepsInv | src/apps/transfers/services.py:132-199 | one execution, whichever branch it takes, keeps the ledger invariant |
| LedgerInvariant.TransferIsOneExecution | src/apps/transfers/services.py:202-218 | the retry loop either changes nothing or is a single execution |
| LedgerInvariant.FreshReceipt | src/apps/transfers/services.py:155-199 | a fresh 201 names the transfer row just written, between two different live users |
| LedgerInvariant.RoomKeepsInv | src/apps/transfers/services.py:221-253 | a room transfer with its notifications, or its rollback, keeps the ledger invariant |
| LedgerInvariant.StepKeepsInv | src/apps/transfers/services.py:91-272 | every command keeps the ledger invariant |
| LedgerInvariant.RunKeepsInv | src/apps/transfers/services.py:91-284 | in every run: balances equal their entries and stay in range, each journal has two entries summing to zero, the total is the seed times the accounts |
| LedgerIdempotency.StoredLasts | src/apps/transfers/services.py:137-142 | a stored answer is never replaced, and another use of its key changes nothing |
| LedgerIdempotency.StoredLastsOverRun | src/apps/transfers/services.py:137-142 | the same over any run |
| LedgerIdempotency.MovesAtMostOnce | src/apps/transfers/services.py:132-253 | over any run mixing both entry points and any failures, one sender and key move money at most once, and a move leaves a stored answer |
| LedgerIdempotency.AnsweredTransfer | src/apps/transfers/services.py:137-142 | the retry loop on an answered key replays the answer exactly when some attempt gets through its retryable failures |
| LedgerIdempotency.ReplayReturnsFirstAnswer | src/apps/transfers/services.py:137-142 | after any run and with any faults, a repeat that gets through returns the first status and body for the same payload, blocked or not, and conflicts for another; no repeat changes anything |
| LedgerIdempotency.RetriesAreInvisible | src/apps/transfers/services.py:202-218 | four retryable failures change nothing; otherwise the loop is the first attempt that does not fail retryably |
| LedgerIdempotency.RoomTransferShape | src/apps/transfers/services.py:221-253 | a fresh 201 of the room path is one transfer by the payload of the room followed by both notifications |
| LedgerIdempotency.RoomTransferNotifiesBoth | src/apps/notifications/services.py:61-95 | a fresh 201 room transfer adds exactly one notification for each party; every other answer adds none |
| LedgerSafety.NoMismatchIff | src/apps/transfers/services.py:275-284 | the report is empty exactly when every journal balances and every account agrees with its entries |
| LedgerSafety.CountedBothWays | src/apps/transfers/services.py:275-284 | summing all entries by journal and by account gives the same total |
| LedgerSafety.CleanReportMirrorsReserve | src/apps/transfers/services.py:275-284 | with an empty report the reserve is minus the sum of all balances |
| LedgerSafety.ReachableIsClean | src/apps/transfers/management/commands/reconcile_mock_ledger.py:22-53 | no run of the services gives reconciliation anything to report |
| LedgerSafety.SafetyStep | src/apps/transfers/services.py:144-146 | how each command treats the safety state, from any tables |
| LedgerSafety.BlockStands | src/apps/transfers/management/commands/reconcile_mock_ledger.py:36-45 | from any, even corrupted, blocked tables no run moves money until the matching resume with no mismatches |
| LedgerSafety.NoRunBlocks | src/apps/transfers/management/commands/reconcile_mock_ledger.py:46-52 | no run of the commands ever stores a block |
| LedgerSafety.RefusedAfterReportIff | src/apps/transfers/management/commands/reconcile_mock_ledger.py:46-52 | after a report with mismatches transfers are refused exactly when the tables were blocked before it |
| LedgerSafety.TransferAfterReportedBlock | src/apps/transfers/management/commands/reconcile_mock_ledger.py:46-52 | a corrupted ledger whose reported block does not stop the next transfer |
| LedgerInterleaving.WriteBackIsTransfer | src/apps/transfers/services.py:148-199 | what a transaction writes from the rows it read under its locks is what executing the transfer by payee name alone would write, with the users its checks saw |
| LedgerInterleaving.CommitIsAtomic | src/apps/transfers/services.py:155-199 | a commit is that transfer, or a stored denial, on the tables as they are at the commit |
| LedgerInterleaving.BystanderKept | src/apps/transfers/services.py:155-160 | what another transaction read under its locks stays true through every move |
| LedgerInterleaving.MoveKeepsLocking | src/apps/transfers/services.py:132-199 | keys and account rows are held by one transaction at a time, and what it read stays true |
| LedgerInterleaving.InterleavingsAreSerializable | src/apps/transfers/services.py:132-199 | every interleaving of lock, look-up, read, decide, write, commit and rollback ends where executing its committed transfers by name one after the other does, and keeps the ledger invariant |
| LedgerInterleaving.InterleavedMovesAtMostOnce | src/apps/transfers/services.py:135-142 | no two commits of an interleaving move money for one sender and key |
| LedgerOutcomes.FirstRequest | src/apps/transfers/services.py:148-199 | a first request under OPEN is paid exactly when the name denotes another user, both users are active, not withdrawn and not sanctioned, both accounts are open, the payer has the money and the payee stays within 1,000,000,000.00; then exactly two balances, one journal, one transfer and one answer change; otherwise a 422 is stored and nothing else |
| LedgerOutcomes.OtherRequests | src/apps/transfers/services.py:134-146 | every other request changes nothing: no account or safety row fails, a used key replays or conflicts, a block refuses |
| LedgerOutcomes.RoomRefusesOutsiders | src/apps/transfers/services.py:231-242 | a room that is no product room of the payer gets a stored 422, blocked or not |
| LedgerOutcomes.RoomPaysThePeer | src/apps/transfers/services.py:237-253 | a product room pays the other party exactly when a payment to that user is possible, and then notifies both |
| LedgerOutcomes.SeedOutcome | src/apps/transfers/services.py:91-117 | a user without an account gets one with 100,000.00 and its two entries; any other is left alone |
| LedgerOutcomes.CloseOutcome | src/apps/transfers/services.py:256-272 | closing closes exactly an open account at zero and only that one; which answer each other case gets |
| LedgerOutcomes.ReportNamesMismatches | src/apps/transfers/services.py:275-284 | the report names exactly the journals that do not balance and the accounts that disagree |
| LedgerOutcomes.ReconcileOutcome | src/apps/transfers/management/commands/reconcile_mock_ledger.py:18-53 | a check is clean exactly on sound tables; a resume works exactly for the maintainer, with the incident in force, on sound tables; nothing but the safety row ever changes |
| LedgerService.Service.EnsureAccount | src/apps/transfers/services.py:91-117 | the row-by-row seeding gives exactly the specified tables and account |
| LedgerService.Service.ExecuteOnce | src/apps/transfers/services.py:132-199 | the row-by-row execution gives exactly the specified tables and outcome |
| LedgerService.Service.Transfer | src/apps/transfers/services.py:202-218 | the retry loop with rollbacks gives the specified tables and outcome |
| LedgerService.Service.TransferForProductRoom | src/apps/transfers/services.py:221-253 | the room transaction, rolled back on any exception, gives the specified tables and outcome |
| LedgerService.Service.CloseAccount | src/apps/transfers/services.py:256-272 | closing gives the specified tables and answer |
| LedgerService.Service.LedgerMismatches | src/apps/transfers/services.py:275-284 | the two loops report the unbalanced journals, then the disagreeing accounts |
| LedgerService.Service.Reconcile | src/apps/transfers/management/commands/reconcile_mock_ledger.py:18-53 | the command gives the specified tables and verdict, its own writes undone when it raises |
| GalleryInvariant.ReplaceKeepsInv | src/apps/catalog/services.py:220-299 | a replacement, committed or rolled back with a partly failed cleanup, keeps every row's bytes and every stored key accounted for |
| GalleryInvariant.PromoteKeepsInv | src/apps/catalog/services.py:332-366 | a promotion that may fail at any call keeps them too |
| GalleryRuns.FirstStoreIsSound | src/apps/catalog/services.py:183-395 | a first deployment, with legacy images, migrated promoted rows, an empty outbox and nothing else stored, meets the invariant |
| GalleryRuns.MoveIsEnabled | src/apps/catalog/services.py:378-386 | a deletion worker only ever deletes and forgets keys that no row stands for, because it takes them from the outbox |
| GalleryRuns.MoveKeepsInv | src/apps/catalog/services.py:183-395 | every move, those of any number of late or failing deletion workers included, keeps the invariant |
| GalleryRuns.RunKeepsInv | src/apps/catalog/services.py:183-395 | so does every run |
| GalleryRuns.EveryRunKeepsImages | src/apps/catalog/services.py:183-395 | in every run from a first deployment a promoted row has its bytes at its key and a pending row at one of its two keys; no live or legacy key is in the outbox or in a worker's hands; every stored key is legacy, live, in the outbox or named in the error log |
| GalleryRuns.LegacyBytesLast | src/apps/catalog/services.py:289-290 | no run changes the bytes of a legacy image |
| GalleryRuns.DeadOverRun | src/apps/catalog/services.py:374-389 | over every run a superseded key never becomes live again and its deleted bytes never come back, so a late deletion worker deletes nothing that is needed |
| GalleryRuns.SweepAllKeepsInv | src/apps/catalog/services.py:374-389 | a whole deletion pass keeps the invariant, whatever fails in it and however old its list is |
| GalleryRepair.CommittedImageLasts | src/apps/catalog/services.py:278-299 | a committed row keeps its product and digest until a replacement of its own gallery commits |
| GalleryRepair.PassPromotesIndependently | src/apps/catalog/services.py:330-366 | in a pass with failures elsewhere, a row without a fault of its own is promoted exactly when it is not stuck |
| GalleryRepair.RepairConverges | src/apps/catalog/services.py:369-395 | one fault-free repair empties the outbox, and a row stays pending exactly when its owned key holds wrong bytes |
| GalleryRepair.RepairedStorage | src/apps/catalog/services.py:369-395 | with nothing stuck, storage is then exactly the legacy and live keys, apart from keys named in the error log, and no row is pending |
| GalleryRepair.RepairIsIdempotent | src/apps/catalog/services.py:392-395 | a second repair changes nothing, in any order |
| GalleryRepair.WholeWritesNeverStick | src/apps/catalog/services.py:339-356 | if owned keys are written whole or not at all, no step makes a row stuck |
| GalleryRuns.NothingLost | src/apps/catalog/services.py:207-216 | a run in which recording leftovers never fails leaves no key known to the error log only |
| GalleryRuns.StorageIsExact | src/apps/catalog/services.py:369-395 | after a repair without stuck rows and log-only keys, the stored keys are exactly the legacy ones there were and one for each row |
| GalleryRuns.WholeRunThenRepair | src/apps/catalog/services.py:319-395 | from a first deployment, any run with whole writes of owned keys followed by one repair ends with no pending row, an empty outbox, bytes for every row and, when recording leftovers never failed, storage equal to exactly the legacy and live keys |
| GalleryRepair.StuckStays | src/apps/catalog/services.py:337-341 | no step but a committed replacement of its own gallery frees a stuck row |
| GalleryRuns.StuckUntilReplaced | src/apps/catalog/services.py:337-341 | over every run a stuck row stays stuck until it is replaced and gone for good |
| GalleryRuns.PartialWriteSticksForGood | src/apps/catalog/services.py:339-356 | after one partial write of its owned key a row is never promoted, in any run |
| GalleryOutcomes.StageSaves | src/apps/catalog/services.py:250-275 | staging saves each upload's own bytes, in order, each under its own fresh key |
| GalleryOutcomes.ReplacedGallery | src/apps/catalog/services.py:250-293 | a replacement in which nothing fails leaves exactly one pending row for each upload, in order, with its own digest and its own stored bytes; other products and old files stay, and the old rows' keys await deletion |
| GalleryOutcomes.ReplacedOnlyIf | src/apps/catalog/services.py:296-299 | any failure, or a fifth image, leaves every row and every old file as it was |
| GalleryOutcomes.CommitsIff | src/apps/catalog/services.py:228-299 | the replacement commits exactly when no call fails and there are at most four images |
| GalleryOutcomes.SweepOutcome | src/apps/catalog/services.py:378-386 | one deletion counts its attempt, removes the bytes and then the intent, each exactly when its step works |
| GalleryService.Service.Cleanup | src/apps/catalog/services.py:183-190 | cleanup tries every staged file and names those whose deletion raised |
| GalleryInvariant.SupersededAreOwn | src/apps/catalog/services.py:278-289 | the keys a replacement hands to the outbox are exactly the names its old rows stood for |
| GalleryService.Service.PersistExceptionCleanupFailures | src/apps/catalog/services.py:207-216 | leftovers go to the outbox, or only to the log when that fails |
| GalleryService.Service.ReplaceProductImages | src/apps/catalog/services.py:220-299 | the staging loop and row writes, or the cleanup of what was staged |
| GalleryService.Service.SubmitGallery | src/apps/catalog/views.py:93-193 | the view's transaction and cleanup give the specified store and answer true exactly when it commits; rows change only then |
| GalleryService.Service.CopyToOwnedKey | src/apps/catalog/services.py:337-356 | the copy of the staged bytes, never over an occupied owned key, with its checks |
| GalleryService.Service.PromoteOne | src/apps/catalog/services.py:332-365 | one iteration of the pass in its own transaction |
| GalleryService.Service.PromoteProductImages | src/apps/catalog/services.py:319-367 | the pass goes on after a failure and raises in the end exactly when some row failed; if it does not, every listed row is promoted |
| GalleryService.Service.RepairProductImageDeletions | src/apps/catalog/services.py:374-389 | the pass goes on after a failure and raises in the end exactly when some deletion failed; if it does not, every listed key is gone |
| ChatLimits.FullWindow | src/apps/chat/services.py:499-508 | a full window's wait is the time, in whole seconds rounded up, until its earliest message leaves |
| ChatLimits.LongestWaitIsMax | src/apps/chat/services.py:498-508 | the reported wait is the largest of the three |
| ChatLimits.PassesIff | src/apps/chat/services.py:471-510 | a message passes exactly when each of the three windows has room |
| ChatRates.StepKeepsInv | src/apps/chat/services.py:412-426 | accepting a message stamped no earlier than the checked time keeps both sliding bounds |
| ChatRates.RunKeepsInv | src/apps/chat/services.py:391-426 | so does every run |
| ChatRates.EveryRunIsBounded | src/apps/chat/services.py:391-426 | in every run from the empty table any interval of 10 seconds holds at most 10 messages of a sender, and any of 60 seconds at most 60 |
| ChatRates.ConnectionLimitIsImplied | src/apps/chat/services.py:478-497 | the connection limit never rejects what the sender's burst limit accepts |
| ChatRates.WaitIsSufficient | src/apps/chat/services.py:498-510 | once the clock has caught up with the stamps, retrying after the reported wait passes all three limits |
| ChatRates.WaitIsTight | src/apps/chat/services.py:498-510 | any retry up to one second before that is still rejected |
| ChatRates.ReplayReturnsFirst | src/apps/chat/services.py:396-410 | after any run a repeated message id returns the first message, or conflicts when its text differs, and adds nothing |
| ChatAccess.ProductRoomIsMutual | src/apps/chat/services.py:191-240 | a product room is writable by both parties or by neither, and by nobody else |
| ChatAccess.DirectRoomAsksOnlyTheSender | src/apps/chat/services.py:191-240 | a direct room asks only whether the writer is active and a member |
| ChatOutcomes.AnswerIff | src/apps/chat/services.py:391-445 | which of the five kinds of answer a request gets, from the rows: access, an earlier row of its key, fewer than 10 and 60 of the sender's messages in the last 10 and 60 seconds, and the notification |
| ChatOutcomes.AnswerRows | src/apps/chat/services.py:396-426 | an accepted message is one new row with exactly the request's fields; no other answer changes the table |
| ChatOutcomes.RateLimitTellsTheWait | src/apps/chat/services.py:72 | the wait in the answer is at least 1; after it the same request is not rejected, and until a second before it is |
| ChatOutcomes.DeliveryOutcome | src/apps/chat/services.py:454-461 | recording a delivery marks that one row |
| ChatAccessOutcomes.MayAcceptIff | src/apps/chat/services.py:138-240 | who may write to a global, direct or product room, in terms of users, participants, conversation and product |
| ChatService.Service.EnforceRateLimits | src/apps/chat/services.py:471-510 | the loop over the three checks computes the specified wait |
| ChatService.Service.Accept | src/apps/chat/services.py:373-445 | acceptance gives the specified table and outcome |
| ChatRates.CountMarkLive | src/apps/chat/services.py:454-461 | recording a live delivery changes no count that any limit looks at |
| ModerationRuns.ByContextGroups | src/apps/moderation/services.py:187-195 | the grouping holds exactly the reporters of the counted reports under their contexts, and no empty group |
| ModerationRuns.NoOverlap | src/apps/moderation/policies.py:72-78 | with one report for each reporter and target no reporter shows up under two contexts |
| ModerationRuns.DecisionIsThreshold | src/apps/moderation/policies.py:66-96 | the policy never raises there, and says yes exactly at five distinct eligible reporters, for a user in two contexts at least |
| ModerationRuns.ActsIffReached | src/apps/moderation/services.py:198-243 | an evaluation acts exactly when no action runs and that threshold is reached |
| ModerationRuns.ActionEffects | src/apps/moderation/services.py:215-243 | acting consumes exactly the counted reports, adds one seven-day action and one audit event, and moves the epoch of a user target |
| ModerationRuns.ActionKeepsTimed | src/apps/moderation/services.py:201-226 | a new automatic action starts after every earlier action on its target has ended |
| ModerationRuns.NewActionIsPaidFor | src/apps/moderation/services.py:204-227 | the reports a new action consumes are those of five distinct eligible reporters at least |
| ModerationRuns.SubmitKeepsInv | src/apps/moderation/services.py:246-295 | a submission keeps the invariant and never ends in the duplicate-contributor error |
| ModerationRuns.StepKeepsInv | src/apps/moderation/services.py:246-370 | every command keeps the invariant: distinct claims, consumption by one automatic action on the same target, one audit each, no overlap, five reporters an action |
| ModerationRuns.RunKeepsInv | src/apps/moderation/services.py:172-370 | every run keeps it |
| ModerationRuns.FiveReportersPerAction | src/apps/moderation/models.py:140-149 | five times the automatic actions on a target is at most the number of distinct users who reported it |
| ModerationRuns.AutomaticActionsNeverOverlap | src/apps/moderation/services.py:201-226 | no instant lies within two automatic actions on one target |
| ModerationRuns.ConsumedOnce | src/apps/moderation/services.py:227 | a report survives every run and, once consumed, stays with its action |
| ModerationRuns.SubmissionOutcome | src/apps/moderation/services.py:246-295 | after any run no submission fails in the policy, and it is answered stored exactly when the parties allow it and the reporter has no earlier report of the target |
| ModerationOutcomes.EnoughIff | src/apps/moderation/policies.py:80-96 | the threshold is five different users with open reports, against a user in two contexts |
| ModerationOutcomes.StoredIff | src/apps/moderation/services.py:246-295 | which submissions are rejected, duplicate or stored, in terms of users, products, actions and reports |
| ModerationOutcomes.SubmissionEffect | src/apps/moderation/services.py:278-293 | a stored submission adds its report and evaluates with it: exactly when that makes enough, one action uses exactly the open reports, the new one included; every other answer leaves the tables |
| ModerationOutcomes.EvaluationEffect | src/apps/moderation/services.py:198-243 | an evaluation has that effect exactly when nothing sanctions the target and there are enough open reports, and otherwise none |
| ModerationOutcomes.ReevaluationEffect | src/apps/moderation/services.py:333-370 | the same for a re-evaluation, with its errors for missing and archived targets |
| ModerationService.QualifiesForAction | src/apps/moderation/policies.py:66-96 | the loop over the contexts decides as the policy does, errors included |
| ModerationService.Service.QualifyingReports | src/apps/moderation/services.py:172-195 | the loop collects the counted reports and their reporters by context |
| ModerationService.MarkedEligible | src/apps/moderation/services.py:227 | updating the collected rows consumes exactly the reports that count |
| ModerationService.Service.EvaluateLocked | src/apps/moderation/services.py:198-243 | the evaluation gives the specified tables and answer |
| ModerationService.Service.SubmitReport | src/apps/moderation/services.py:246-295 | the submission gives the specified tables and answer, undone on any error |
| ModerationService.Service.EvaluateThreshold | src/apps/moderation/services.py:333-370 | the re-evaluation gives the specified tables and answer |
| LoginThrottle.RecentFailures | src/apps/accounts/services.py:308-330 | how many failures may share a quarter of an hour with one recorded now |
| LoginThrottle.StepKeepsInv | src/apps/accounts/services.py:333-410 | every login attempt keeps each row in step with its failure history |
| LoginThrottle.RunKeepsInv | src/apps/accounts/services.py:333-410 | every run does |
| LoginThrottle.FailureRateBound | src/apps/accounts/services.py:249-254 | no stored count exceeds its threshold; any 15-minute interval holds at most 39 recorded failures of one address and 9 of one account without a login between |
| LoginThrottle.PruneKeepsBlocks | src/apps/accounts/services.py:299-301 | pruning never lifts a running block |
| LoginOutcomes.AnswerIff | src/apps/accounts/services.py:353-410 | an attempt is throttled exactly when its address or account is barred, and otherwise logs in exactly with the right password of an active account |
| LoginOutcomes.WrongPasswordCounts | src/apps/accounts/services.py:308-330 | a wrong password adds one failure to both rows, in a new or the running window; the fifth of an account bars it for 15 minutes, the twentieth of an address for 30 |
| LoginOutcomes.LoginClears | src/apps/accounts/services.py:398-409 | a login clears its account's row and counts nothing against the address |
| LoginOutcomes.OthersKept | src/apps/accounts/services.py:299-301 | every other row of the last day is as it was |
| LoginService.Service.PruneExpiredThrottles | src/apps/accounts/services.py:299-301 | only rows older than the retention go |
| LoginService.Service.RecordFailure | src/apps/accounts/services.py:308-330 | the field updates give the specified row |
| LoginService.Service.AuthenticateLogin | src/apps/accounts/services.py:333-410 | the attempt gives the specified rows and outcome |
| TradeRuns.MovedIsExplained | src/apps/trades/services.py:126-130 | a transition extends the version chain that explains the row |
| TradeRuns.ReserveKeepsInv | src/apps/trades/services.py:79-109 | reserving keeps one open trade for each product and every row explained by its history |
| TradeRuns.CancelKeepsInv | src/apps/trades/services.py:113-131 | so does cancelling |
| TradeRuns.CompleteKeepsInv | src/apps/trades/services.py:135-154 | so does completing |
| TradeRuns.RunKeepsInv | src/apps/trades/services.py:79-154 | so does every run, whatever happens to users and products in between |
| TradeRuns.EveryRunIsExplained | src/apps/trades/services.py:64-154 | earlier trades of a product are all cancelled; a standard row's history has versions 1 to its version, from the empty status to its own; buyer and seller differ |
| TradeRuns.FinalStaysFinal | src/apps/trades/services.py:120-145 | over any run rows keep their parties, histories only grow, and a cancelled or completed row never changes |
| TradeRuns.StaleVersionChangesNothing | src/apps/trades/services.py:124-147 | once a row has changed, no command carrying the version seen before changes anything |
| TradeRuns.ProjectionIgnoresOrder | src/apps/catalog/projectors.py:29-41 | whichever open row the query returns first, the projected state is the same: sold, reserved or available |
| TradeRuns.ReserveFollowsProjection | src/apps/trades/services.py:89-109 | between permitted parties a reservation creates a trade exactly when the product projects as available |
| TradeRuns.ChainExtends | src/apps/trades/services.py:64-71 | the recorded entry continues the chain of versions and statuses |
| TradeOutcomes.CompleteOutcome | src/apps/trades/services.py:135-154 | completing is the seller's, between live parties, of a reserved row in the expected version; it completes exactly that row at that instant, and each refusal has its answer |
| TradeOutcomes.CancelOutcome | src/apps/trades/services.py:113-131 | cancelling is either party's under the same conditions and cancels exactly that row |
| TradeOutcomes.NoSuchTrade | src/apps/trades/services.py:114-118 | a missing trade and a legacy sale can be neither completed nor cancelled |
| TradeOutcomes.ReserveOutcome | src/apps/trades/services.py:79-109 | who may reserve what; a product without an open trade gets exactly one new row, and no other case changes the table |
| TradeOutcomes.ProductAfterwards | src/apps/catalog/projectors.py:29-41 | a completed trade sells its product, a cancelled one frees it |
| TradeAuthority.Service.LockActiveUsers | src/apps/trades/services.py:32-51 | passes exactly when all parties exist, are active, not withdrawn and not dormant |
| TradeAuthority.Service.Reserve | src/apps/trades/services.py:79-109 | gives the specified table and outcome |
| TradeAuthority.Service.Cancel | src/apps/trades/services.py:113-131 | gives the specified table and outcome |
| TradeAuthority.Service.Complete | src/apps/trades/services.py:135-154 | gives the specified table and outcome |
| TradeAuthority.Service.EffectiveProductState | src/apps/catalog/projectors.py:19-41 | gives the projected state |
| Reviews.CreateKeepsInv | src/apps/trades/services.py:178-224 | every review is by one party of a completed standard trade about the other, at most one for each author |
| Reviews.TradeRunKeepsInv | src/apps/trades/services.py:178-224 | no run of trade commands takes the ground from under a review |
| Reviews.AtMostTwoReviews | src/apps/trades/models.py:124-130 | a trade has at most two reviews |
| Reviews.ReviewIsFinal | src/apps/trades/services.py:206-224 | the author's next attempt never adds or changes a review, and is a replay exactly when rating and text are the same |
| Reviews.FirstReview | src/apps/trades/services.py:180-217 | a first review is stored exactly for an active party of a completed standard trade with a rating from 1 to 5 and acceptable text, about the other party |
| ReviewService.Service.CreateReview | src/apps/trades/services.py:178-224 | gives the specified rows and outcome |
| MarketBarrier.EraseLeavesNothing | src/apps/accounts/withdrawal.py:94-148 | a withdrawal leaves a closed empty account and no reserved trade, favorite or notification |
| MarketBarrier.LedgerStepKeepsShut | src/apps/transfers/services.py:155-169 | no ledger command reopens or pays a shut account of a withdrawn user, or notifies the user |
| MarketBarrier.TradesKeepUnreserved | src/apps/trades/services.py:32-51 | no command reserves a trade with a withdrawn party |
| MarketBarrier.StepKeepsGone | src/apps/accounts/withdrawal.py:48-154 | no command of any module brings anything of a withdrawn user back |
| MarketBarrier.GoneForever | src/apps/accounts/withdrawal.py:48-154 | nor does any run |
| MarketBarrier.WithdrawalIsABarrier | src/apps/accounts/withdrawal.py:48-154 | a withdrawal commits exactly under its stated conditions, then holds over every later run; a refused one changes nothing |
| MarketRuns.StepWithdraws | src/apps/accounts/withdrawal.py:126-137 | only a committed withdrawal withdraws a user |
| MarketRuns.StepKeepsCounts | src/apps/catalog/engagement.py:19-68 | every command leaves each favorite count equal to the favorite rows |
| MarketRuns.EveryRunKeepsInv | src/apps/accounts/withdrawal.py:48-154 | in every run over all modules the books balance, trades are explained, favorite counts are exact and withdrawn users are gone |
| MarketRuns.WithdrawingTwice | src/apps/accounts/withdrawal.py:53-55 | asking again returns the same task and changes nothing |
| MarketCatalog.ArchivesExactlyUnsold | src/apps/accounts/withdrawal.py:95-114 | a withdrawal archives exactly the user's products that do not project as sold, each with its next version, and no other product changes |
| MarketCatalog.OffSaleForever | src/apps/catalog/projectors.py:29-41 | a product that is archived or sold stays so over every run |
| MarketCatalog.NothingLeftForSale | src/apps/accounts/withdrawal.py:95-114 | after a withdrawal and any later run, none of the products the user had is for sale |
| MarketOutcomes.FavoriteOutcome | src/apps/catalog/engagement.py:52-68 | a present user's command leaves exactly that favorite on or off and its product's count right |
| MarketOutcomes.NotificationOutcome | src/apps/notifications/services.py:39-58 | a valid key for a present recipient adds that one notification once; nothing else is added |
| MarketOutcomes.WithdrawalAnswer | src/apps/accounts/withdrawal.py:50-92 | which answer each withdrawal request gets, from the rows |
| MarketOutcomes.WithdrawalErasesOwnRows | src/apps/accounts/withdrawal.py:116-124 | a withdrawal removes exactly the user's own favorites and notifications and closes exactly the user's account |
| MarketOutcomes.WithdrawalMarksTheUser | src/apps/accounts/withdrawal.py:126-148 | the user alone becomes inactive and withdrawn, in the next epoch, with its task |
| MarketService.Service.SetFavorite | src/apps/catalog/engagement.py:52-68 | gives the specified state and answer |
| MarketService.Service.CreateNotification | src/apps/notifications/services.py:39-58 | gives the specified state and answer |
| MarketService.Service.ArchiveProducts | src/apps/accounts/withdrawal.py:95-114 | archives exactly the user's unarchived products without a completed trade |
| MarketService.Service.WithdrawAccount | src/apps/accounts/withdrawal.py:48-154 | gives the specified state and answer |
| NotificationPurge.BatchIsExpired | src/apps/notifications/services.py:133-137 | a batch names at most its bound of expired rows only, and is empty exactly when nothing has expired |
| NotificationPurge.RetainedRows | src/apps/notifications/services.py:133-137 | what is retained is exactly the rows that expire now or later |
| NotificationPurge.Service.PurgeExpired | src/apps/notifications/services.py:124-146 | with a clock read anew for each batch, exactly the rows unexpired at the last query stay, in order, and the count is of the rows that went; without the lock nothing happens |
| RevocationRuns.StepKeepsInv | src/apps/accounts/models.py:99-135 | every step of any worker keeps the row's status, lease, heartbeat and completion consistent and the attempts equal to the claims |
| RevocationRuns.EveryRunIsSound | src/apps/accounts/withdrawal.py:157-249 | in every interleaving each completion was written by a worker that had deleted the sessions, sent the close and cleared presence since its own claim |
| RevocationRuns.ClaimedIff | src/apps/accounts/withdrawal.py:161-187 | a claim is taken exactly when the task is neither completed nor under a running lease, and then holds a lease of two minutes |
| RevocationRuns.PunctualRunsKeepCompleted | src/apps/accounts/withdrawal.py:189-249 | when no worker writes after its lease, at most one is within its lease at a time and a completed row never changes |
| RevocationRuns.CompletedIsFinalWhenPunctual | src/apps/accounts/withdrawal.py:232-249 | the same from the creation of the task |
| RevocationRuns.CompletedIsFinalIff | src/apps/accounts/withdrawal.py:189-249 | a completed task can be reopened by some continuation if and only if some worker has claimed it and has neither cleared presence nor written its failure |
| RevocationRuns.ReopenedIff | src/apps/accounts/withdrawal.py:210-229 | the only step that reopens a completed task is a failure handler |
| RevocationRuns.LateFailureReopens | src/apps/accounts/withdrawal.py:210-229 | a run in which a worker past its lease does so |
| RevocationService.PassOutcome | src/apps/accounts/withdrawal.py:157-249 | a pass that may claim ends completed, or in retry a minute later, with the effects up to its fault; one that may not changes no row |
| RevocationService.Service.Claim | src/apps/accounts/withdrawal.py:159-187 | the first transaction is the claim step |
| RevocationService.Service.ProcessRevocationTask | src/apps/accounts/withdrawal.py:157-249 | a pass is the specified sequence of steps and returns true exactly when the task is completed |
| Presence.AfterRemembers | src/apps/chat/presence.py:29-44 | after any events the set stores nothing but latest touches, and every live one |
| Presence.CountIsOnline | src/apps/chat/presence.py:39-44 | the count of the pruned, expiring set is that of the full event log |
| Presence.OnlineIff | src/apps/chat/presence.py:94-125 | a user is online exactly when some connection's latest event is a touch less than 90 seconds old |
| PresenceService.Service.Touch | src/apps/chat/presence.py:29-34 | a touch keeps every set in step with its log |
| PresenceService.Service.CountLive | src/apps/chat/presence.py:39-44 | the count is the number of online connections in the log |
| PresenceService.Service.PeerStates | src/apps/chat/presence.py:110-125 | the loop answers for each peer from the logs, inactive peers offline, and changes nobody's state |
| LegacySold.BackfillOkIff | src/apps/trades/migrations/0001_typed_trade_authority.py:23-70 | the migration goes through exactly when legacy rows belong to sold products and the rows it looks at match |
| LegacySold.BackfillFromEmpty | src/apps/trades/migrations/0001_typed_trade_authority.py:48-70 | from an empty table it makes one matching legacy trade for each sold product, which the freeze check accepts |
| LegacySold.BackfillTwice | src/apps/trades/migrations/0001_typed_trade_authority.py:48-70 | from any table a second run after a success changes nothing |
| LegacySold.ReverseUndoesBackfill | src/apps/trades/migrations/0001_typed_trade_authority.py:73-103 | the inverse restores the empty table |
| LegacySold.ReverseOkIff | src/apps/trades/migrations/0001_typed_trade_authority.py:73-103 | under the table's uniqueness constraint the inverse goes through exactly on a frozen table without standard trades |
| LegacySold.BackfillUndoesReverse | src/apps/trades/migrations/0001_typed_trade_authority.py:23-103 | reversing a frozen legacy table and migrating again restores the same rows |
| LegacySold.FreezeIff | src/apps/catalog/migrations/0004_freeze_legacy_product_authority.py:114-138 | the freeze check accepts exactly the bijections with unchanged provenance |
| LegacySoldMigration.Migration.CreateMissing | src/apps/trades/migrations/0001_typed_trade_authority.py:48-62 | the loop creates exactly the missing rows or stops at a mismatch |
| LegacySoldMigration.Migration.Backfill | src/apps/trades/migrations/0001_typed_trade_authority.py:23-70 | gives the specified table, undone on any error |
| LegacySoldMigration.Migration.Reverse | src/apps/trades/migrations/0001_typed_trade_authority.py:73-103 | gives the specified table, undone on any error |
| LegacySoldMigration.Migration.RevalidateLegacySold | src/apps/catalog/migrations/0004_freeze_legacy_product_authority.py:114-138 | passes exactly on a bijection |

## Assumptions

- Each `transaction.atomic` block is one step; `LedgerInterleaving` and `Revocation` split theirs further.
- Generated keys and UUIDs are fresh, and hashes are injective (a digest keeps what it digests).
- A failed save of a temporary image key writes nothing; a successful one stores exactly the given bytes. Saving
  an owned key may do anything.
- Amounts are positive whole cents, as the request parser guarantees (`src/apps/transfers/views.py:57-61`).
- A commit either happens or is known not to have happened.
- Retained authorities, passwords, connection limits and publishers enter as arguments of the commands.

## Left out

- HTTP views other than the two gallery forms, forms, templates and browser scripts: request plumbing.
- Image decoding, hashing, password checks, Redis and channel-layer transport: arguments or injective digests.
- Process death between a storage save and its commit: orphaned files are not claimed to be found.
- Deadlock freedom: a deadlock is one of the faults that a transfer may meet.
- The text of reports, reviews and messages and its normalization; a message body counts as already normalized.
- Review reports, review visibility, permission grants, and the management audit: flat checks.
- Products a user could add after withdrawing: a withdrawn account has no session to add them with.
- Legacy trades without a buyer: cancelling or completing one raises a type error in the source, which is a server error without effect here.
- An account whose ledger-account row is missing: seeding always creates both.
- A withdrawal does not look at the safety state, in the source as in the model.
- LedgerInterleaving.InterleavingsAreSerializable: covers transfers by name; the room path takes the same locks but also writes notifications, and is one step in the other files.
- LoginThrottle.FailureRateBound: assumes that login attempts read the clock in the order in which they commit; the source reads it before it locks the throttle rows (`src/apps/accounts/services.py:333-347`), so two waiting attempts may commit the other way round.
- ModerationRuns.AutomaticActionsNeverOverlap: says nothing about two manual sanctions, because `src/apps/moderation/management.py:132-160` reads its time before it locks the target.
- RevocationRuns.EveryRunIsSound: sessions created after the withdrawal are not modelled, because a withdrawn account cannot log in.
- Presence.CountIsOnline: each command reads one clock; a reading older than another command's is not modelled.
- RevocationTask selection, worker heartbeats, `visible_products` and product search: queries without a protocol.
- Settings, middleware, health probes, governance scripts and the other migrations: configuration or flat checks.
