# SMS gateway: a verified model

A Dafny model of an SMS gateway: customers buy credits and submit messages;
workers claim queued messages under leases and send them through providers;
providers report deliveries; sweepers expire, flag and tidy. PostgreSQL holds the
state and independent processes change it concurrently.

**The state machine.** `Tables` holds the four tables as maps; the key of a
transaction mirrors the schema's unique indexes (one charge per customer and
client_ref, one debit and one refund per message). `Gateway` adds a database
clock that never goes back, the IDs drawn so far, and the jobs and outcomes in
the air, which may be committed late, again or never. `Gateway.Next` takes one
event per transaction. Which rows a locking query skips, how long a lease is and
which process acts are arguments of the event, so a theorem about every event
sequence covers every interleaving. An event whose transaction would fail
changes nothing.

**The transactions.** Each transaction is written as the code writes it: methods
with loops on a `Session` (the tables and the transaction's clock) or on a
`Completer` or `Sweeper`, updating table after table, and each is proved to leave
what applying its rows one after another would leave. The state machine uses
those row functions; the lemmas named `...IsTransaction` tie the two together.

**The invariant.** The checks in `internal/invariant/invariant.go` are not
inductive. `Cells.CellOk`, `Cells.JobOk` and `Gateway.Inv` strengthen them: an
accepted message was never sent, a queue row belongs to an accepted or already
reported message, lanes follow classes, a job's attempt snapshot is the stored
count while its generation is current, and no lease starts before the previous
one ended or was given up.

`Effects`, `Sweeps` and `Accounts` say on the columns what each transaction does to
the rows it is about and that it leaves all others alone, for whole batches and
whatever rows they pick. `Progress` shows that no accepted message is stuck and
`Lanes` that a customer's backlog stays in one lane.

**Around it.** Circuit breaker and dispatch (`Circuit`, `Probes`, `Dispatching`), backoff
in wrapping 64-bit arithmetic (`Backoffs`), the claim pool (`Pools`) and the
group commit of delivery reports (`Batchers`, `Drains`, `Durability`, `Waiters`) as step
systems, segmentation and pricing (`Segments`, `AirInterface`, `Preparing`, `Patterns`), the
fake provider's bounded stores (`Rings`), time bounds on IDs (`Ids`) and paging (`Paging`).

Places where the code does less than its comments say are kept as the code has
them, each with the exact condition under which the comment holds:

- a probe whose lease ran out before sending is never reported
  (`Dispatching.Worker.Dispatch`, `Dispatching.ExpiredLeaseStrandsProbe`);
- "exactly one probe" holds while only the probe's own request reports: a second
  probe in flight needs another request's failure in between, and every result
  of another request can lead to one (`Probes.SecondProbeNeedsForeignFailure`,
  `Probes.ForeignResultCanAdmitSecondProbe`, `Probes.TwoProbesOut`);
- an attempt is counted not only on the step from accepted to sent but also when
  a delivery report came first (`Effects.SentIsRecorded`,
  `Effects.EarlyReportStillCounts`);
- a conflicting report later in a batch is labelled a duplicate
  (`Reports.BatchLabelDiffers`);
- the delay wraps for large bases (`Backoffs.DelayIsDocumentedIff`,
  `Backoffs.LargeBaseWraps`);
- "up to size reports at a time" holds of the last batch exactly when what is
  collected, what waits and the callers past the first check fit at shutdown
  (`Drains.StaysWithinIff`, `Drains.FinalBatchSize`, `Drains.FinalBatchCanExceedSize`);
- a pool idles before every lane came back empty exactly when a lane whose claim
  failed did not (`Pools.IdleMeansAllLanesEmpty`, `Pools.FailedClaimHidesLane`);
- a time bound before 1970 hides later IDs (`Ids.KeepsLaterIdsIff`).

`dafny verify dfyconfig.toml` checks the project.

## Model

| member | source | states |
|---|---|---|
| Theorems.AlwaysConsistent | internal/invariant/invariant.go:55-119 | after every event sequence each balance is the sum of the customer's transactions, every message has one debit of minus its cost, a refund of its cost exists iff it failed or expired, every accepted message is queued, the required timestamps are present and never precede acceptance, and no row refers to a missing one |
| Theorems.Conservation | internal/billing/ledger.go:100-254 | after every event sequence each balance is the customer's charges minus the costs of the messages that neither failed nor expired, and is never negative |
| Theorems.CreditsExplained | internal/billing/ledger.go:210-254 | a ledger with one debit per message and refunds exactly for failed or expired messages sums to charges minus live costs |
| Runs.NextKeeps | migrations/00001_init.sql:5-87 | every transaction, from any state that meets the strengthened invariant, keeps it and moves every message, row, job and account only forward |
| Runs.RunKeeps | migrations/00001_init.sql:5-87 | the same for every sequence of transactions |
| Runs.Always | migrations/00001_init.sql:5-87 | every state reachable from the empty tables meets the strengthened invariant |
| Invariance.CompleteRowKeeps | internal/dispatch/completer.go:164-430 | committing any one outcome, current or stale, keeps the invariant |
| Invariance.ReportRowKeeps | internal/dlr/apply.go:77-86 | one delivery report, also on a message still queued or being sent, keeps the invariant |
| Invariance.ClaimRowKeeps | internal/dispatch/claim.go:41-60 | one claim keeps the invariant: its job starts after every earlier lease of the message ended or was given up |
| Invariance.ExpireRowKeeps | internal/sweeper/tasks.go:19-65 | expiring one due row keeps the invariant, refund included |
| Invariance.FlagRowKeeps | internal/sweeper/tasks.go:69-88 | flagging one overdue message keeps the invariant |
| Invariance.OrphanRowKeeps | internal/sweeper/tasks.go:93-110 | removing one orphaned row keeps the invariant: its message is not accepted |
| Invariance.ReassignRowKeeps | internal/sweeper/tasks.go:114-148 | moving one row to another lane keeps the invariant: only Normal rows move, to Normal lanes |
| InvarianceOfAccounts.SubmitKeeps | internal/message/accept.go:97-193 | accepting any affordable submission keeps the invariant |
| InvarianceOfAccounts.ChargeKeeps | internal/billing/ledger.go:129-163 | a charge, a replay, a conflict or a refusal keeps the invariant |
| InvarianceOfAccounts.CreateKeeps | internal/customer/customer.go:44-75 | creating a customer, with or without initial credits, keeps the invariant |
| InvarianceOfAccounts.DeleteKeeps | internal/customer/customer.go:148-157 | deleting a customer with everything that refers to it keeps the invariant, whatever jobs are in the air |
| InvarianceOfAccounts.DecideKeeps | internal/dispatch/send.go:38-95 | a dispatch that decides its outcome keeps the invariant |
| Leases.OneLiveLease | internal/dispatch/claim.go:41-60 | in no reachable state do two leases of one message exist that have neither run out nor been given up by a retry or deferral |
| Leases.EarlyClaimMeansGivenUp | internal/dispatch/claim.go:36-60 | a message was claimed again before its lease ended only if that lease's outcome is a retry or a deferral |
| Leases.ClaimableIsReleasedOrExpired | internal/dispatch/claim.go:36-51 | a claimed row can be claimed again only after its deadline, decided or not, or when a commit has released it: it then has no owner and its outcome is a retry or a deferral |
| Leases.GenerationsGrow | internal/dispatch/claim.go:52-55 | of two claims of a message the later has the higher generation |
| Leases.ReclaimedLeaseRejectsLateOutcome | internal/dispatch/completer.go:207-240 | an outcome of a generation that was claimed again changes nothing, also if the same worker claimed it |
| Leases.OwnedSnapshotIsCurrent | internal/dispatch/send.go:78-93 | an owned outcome's attempt snapshot is the stored count and its pool is the message's class |
| Leases.GenerationAppliedOnce | internal/dispatch/completer.go:207-240 | once an owned outcome is committed, no outcome of that job is owned at any later time |
| Leases.CommitIsTransaction | internal/dispatch/completer.go:164-203 | the commit event leaves what completing the batch one outcome at a time leaves |
| Leases.ClaimIsTransaction | internal/dispatch/claim.go:41-60 | the claim event changes the tables as the claim transaction does |
| Lifecycle.StatusesOnlyMoveForward | internal/dispatch/completer.go:253-265 | between any two points of a run terminal statuses, reasons and times are final, sent only becomes delivered or undelivered, accepted is never re-entered, sent_at is set once, attempts never fall, and what was submitted never changes |
| Lifecycle.FinishedMessagesAreNotClaimed | internal/dispatch/claim.go:43-51 | a message that left the accepted status is never claimed again |
| Lifecycle.NothingComesBack | internal/dispatch/completer.go:421-430 | a message, queue row or customer that is gone never comes back |
| Lifecycle.AttemptsAreBounded | internal/dispatch/send.go:78-93 | attempts never exceed the maximum of the message's class, stay below it while accepted, and equal it when the reason is attempts_exhausted |
| Lifecycle.SlaFlags | internal/dispatch/completer.go:260-261 | in every reachable state Normal messages are never flagged; every Express message that failed, expired or was sent beyond the SLA is; any other one is flagged only beyond the SLA |
| Lifecycle.RefundedMessagesWereNotSent | internal/dispatch/completer.go:362-419 | a refunded message has no sent_at and no queue row; a queued message has no sent_at and a lane of its class |
| Lifecycle.ReportIsTransaction | internal/dlr/apply.go:51-152 | the report event leaves what the report transaction leaves |
| Lifecycle.SweepsAreTransactions | internal/sweeper/tasks.go:19-148 | each sweep event leaves what its task's transaction leaves |
| Idempotency.AcceptSettles | internal/message/accept.go:72-92 | if the insert found a ref taken and the lookup then finds none, the customer is gone and every later insert says so: the loop cannot fail to settle |
| Idempotency.VanishedRefMeansVanishedCustomer | internal/message/accept.go:72-92 | messages disappear only with their customer |
| Idempotency.AcceptedSubmissionReplays | internal/message/accept.go:197-256 | repeating an accepted submission whose items all carry refs, with the same recipients, texts and types at any later time and price, changes nothing and returns the original messages in order at their original cost, while the customer exists |
| Idempotency.HeldSubmissionReplays | internal/message/accept.go:197-256 | where a submission's messages are there, a repetition that agrees in recipient, text, type and ref is refused by the insert and replayed in order by the lookup |
| Idempotency.ReusedRefConflicts | internal/message/accept.go:225-256 | once a submission is accepted, using one of its refs with another recipient, text or type records and charges nothing at any later time, and the conflict names that item as different, while the customer exists |
| Idempotency.ChargeIsMadeOnce | internal/billing/ledger.go:129-197 | once a charge is made, every later one with that ref adds nothing: the same amount replays the original, another amount conflicts |
| Effects.SentIsRecorded | internal/dispatch/completer.go:242-276 | in every reachable state an owned sent outcome takes effect: sent_at is set, one attempt is counted, an Express message beyond the SLA is flagged, the row leaves the queue, every other field and all credits stay; a message already reported keeps its status and the report's provider details |
| Effects.EarlyReportStillCounts | internal/dispatch/completer.go:242-276 | a report between sending and committing keeps its status, and the attempt is counted all the same |
| Effects.RetryIsScheduled | internal/dispatch/completer.go:278-329 | an owned retry of an accepted message counts the attempt and releases the row for the delay at the same generation; of a reported message it only removes the row |
| Effects.EachOutcomeActsAlone | internal/dispatch/completer.go:164-203 | in a batch every owned outcome does to its message, row and refund what it would do alone, and every message without an owned outcome stays as it is |
| Effects.DeferralReleases | internal/dispatch/completer.go:331-358 | in a batch an owned deferral releases its row for the delay and leaves its message alone |
| Effects.EndingRefunds | internal/dispatch/completer.go:360-419 | an owned failure or expiry of an accepted message ends it with its reason, its provider and error if there are any and its SLA flag, and returns its cost to its customer alone, in one new ledger row; of a reported message it only removes the row |
| Effects.ExpiryRefunds | internal/sweeper/tasks.go:19-65 | expiring an accepted message past its time to live that no worker holds ends it, dequeues it and returns its cost, and changes nothing else about it |
| Effects.SweepsSpareLiveLeases | internal/sweeper/tasks.go:19-148 | in every reachable state no sweep, whatever rows it picks, takes a row from a worker that is still sending: owner, generation and deadline stay |
| Effects.ClaimLeases | internal/dispatch/claim.go:36-60 | a whole claim in every reachable state: each picked row of the lane whose time has come and whose message is accepted gets owner, next generation and deadline once, with a job never seen before that carries the stored values; every other row and table stays; no claimed row can be claimed again before the deadline |
| Effects.ClaimedIffReady | internal/dispatch/claim.go:43-51 | in every reachable state picking a queued row adds its next job iff the row is in the lane, its next_attempt_at has come and its message is accepted |
| Effects.ExpiredLeaseIsClaimedAgain | internal/dispatch/claim.go:36-40 | a job past its deadline whose message is accepted and whose row still carries its generation, undecided or still owned, is claimed again by any worker that picks it |
| Effects.ReportFinishes | internal/dlr/apply.go:77-86 | a whole batch finishes exactly the accepted and sent messages it names, each as its first report says, fills in missing provider details, and changes nothing else |
| Effects.AcceptanceRecords | internal/message/accept.go:97-193 | an accepted submission records every item as described, with its debit, lane, time to live and a row that is ready at once; the customer pays the total |
| Progress.EveryMessageCanBeClaimed | internal/dispatch/claim.go:36-40 | from every reachable state an accepted message can be claimed by any worker after some time, whatever happened to its earlier workers |
| Progress.EveryMessageCanEnd | internal/sweeper/tasks.go:16-18 | from every reachable state an accepted message can be expired and refunded after some time, without any worker |
| Progress.EveryDecisionCanBeCommitted | internal/dispatch/completer.go:207-240 | any outcome a dispatch may decide on goes into the air once, and passes the fence while its lease runs and its message exists |
| Accounts.CreatedWithCredits | internal/customer/customer.go:44-75 | a new customer has its positive initial credits, as one charge, or a balance of zero |
| Accounts.ChargeIsMade | internal/billing/ledger.go:129-163 | a positive charge of an existing customer under a new ref is made; any other changes nothing |
| Accounts.SubmissionIsPaidFor | internal/message/accept.go:130-179 | in every reachable state a submission is recorded and paid for iff the customer exists, has used none of its refs and its balance covers the total, to the last credit; otherwise nothing changes |
| Accounts.DeleteRemovesExactly | internal/customer/customer.go:147-157 | in every reachable state deletion removes the customer, its messages, their queue rows and its ledger, and nothing of anyone else |
| Sweeps.ExpiryEnds | internal/sweeper/tasks.go:19-65 | whatever rows it picks, expiry ends, dequeues and refunds exactly the accepted messages past their time to live whose row has no owner or an expired lease |
| Sweeps.FlaggingMarks | internal/sweeper/tasks.go:69-82 | exactly the picked Express messages still accepted, unflagged and beyond the SLA are flagged, and nothing else changes |
| Sweeps.OrphansAreRemoved | internal/sweeper/tasks.go:93-104 | exactly the picked rows of messages no longer accepted that no worker holds are removed, and nothing else changes |
| Sweeps.StrandedRowsMove | internal/sweeper/tasks.go:112-148 | exactly the picked rows in normal lanes that no longer exist move, each to the lane its customer hashes to, and keep everything else |
| Lanes.OneLanePerCustomer | internal/message/lane.go:22-32 | in every run whose processes agree on the number of lanes and the hash, all waiting Normal messages of a customer are in one lane and Express messages in the express lane |
| Completers.Completer.Commit | internal/dispatch/completer.go:164-203 | the grouped batch leaves what its outcomes leave one at a time, in batch order; `applied` is what took effect and `refunded` grows by the costs given back |
| Completion.CompletionOrder | internal/dispatch/completer.go:164-203 | with one outcome per job, every order of the outcomes leaves the same tables |
| Completion.CompleteOneCommutes | internal/dispatch/completer.go:164-203 | two outcomes of different jobs commute, refunds and balances included, even for the same message |
| Completion.CountedOnce | internal/dispatch/completer.go:242-245 | a sent or retried outcome counts its attempt iff the stored count is its snapshot, so committing it again counts nothing |
| Batches.FencedOutcomesChangeNothing | internal/dispatch/completer.go:207-240 | dropping the outcomes that are not owned at the start leaves the same tables |
| Batches.OwnedAreDistinct | internal/dispatch/completer.go:207-240 | the owned outcomes of a batch are of different messages |
| Batches.TableByTable | internal/dispatch/completer.go:246-419 | updating all messages, then all queue rows, then all refunds leaves what outcome by outcome leaves |
| Batches.GroupsAdd | internal/dispatch/completer.go:186-202 | committing one group after another adds up to committing them together |
| Batches.AmountIsGivenBack | internal/dispatch/completer.go:400-419 | the refunds add up to the costs of the messages that ended |
| Batches.CompleteAllKeepsForeignKeys | internal/dispatch/completer.go:164-203 | a batch leaves no dangling reference |
| Completers.Completer.LockOwned | internal/dispatch/completer.go:207-240 | keeps exactly the outcomes whose row has this owner and generation, in order |
| Completers.Completer.Group | internal/dispatch/completer.go:173-185 | splits the outcomes by kind and loses none |
| Completers.Completer.CommitGroups | internal/dispatch/completer.go:186-203 | the four groups in turn leave what all their outcomes leave one at a time |
| Completers.Completer.CommitSent | internal/dispatch/completer.go:246-276 | sent outcomes: batch equals one at a time, every row leaves the queue, `applied` gains those that took effect |
| Completers.Completer.CommitRetry | internal/dispatch/completer.go:280-329 | retries: a still accepted message's row is released with its delay, any other row leaves the queue |
| Completers.Completer.CommitDeferred | internal/dispatch/completer.go:334-358 | deferrals: every row is released, no message changes |
| Completers.Completer.CommitTerminal | internal/dispatch/completer.go:362-419 | failures and expiries: messages end, rows leave the queue, and exactly the messages that ended are refunded and counted |
| Completers.Completer.UpdateMessages | internal/dispatch/completer.go:246-396 | returns exactly the messages whose row took the update |
| Completers.Completer.DeleteQueueRows | internal/dispatch/completer.go:421-430 | deletes exactly the listed rows this worker owns |
| Completers.Completer.RecordApplied | internal/dispatch/completer.go:442-453 | appends exactly the outcomes whose message is listed, in order |
| Billing.ApplyRefunds | internal/billing/ledger.go:210-254 | summing per customer and crediting in ID order leaves what refund after refund leaves, and an existing refund is not repeated |
| Billing.CreditInOrder | internal/billing/ledger.go:241-252 | every customer gets its own total once, no other row changes |
| Billing.DebitBalance | internal/billing/ledger.go:100-115 | succeeds iff the customer exists and can pay, and otherwise changes nothing |
| Billing.Charge | internal/billing/ledger.go:129-163 | new charge, replay, conflict, missing customer and bad amount, with the state each leaves |
| Billing.ChargeAgain | internal/billing/ledger.go:129-197 | a charge adds its amount once: repeating it replays, a different amount conflicts |
| Accepting.Insert | internal/message/accept.go:97-193 | the decision (missing customer, ref taken, too few credits, inserted), all of the submission or nothing, and the new messages in request order with their total |
| Accepting.AcceptedTableByTable | internal/message/accept.go:97-193 | one debit of the total, all messages, all ledger rows, all queue rows leave what item after item leaves |
| Accepting.InsertMessages | internal/message/accept.go:130-156 | inserts all messages iff no ref was used before |
| Accepting.RecordDebits | internal/billing/ledger.go:72-90 | one debit of minus its cost per message |
| Accepting.Price | internal/message/accept.go:114-129 | the total cost of the submission |
| Accepting.ResolveExisting | internal/message/accept.go:197-256 | not found iff no ref exists; a replay of the existing messages in order iff every item has a ref of a message of the customer with the same recipient, text and type; otherwise the conflicts name exactly the items whose ref exists, and say of each whether recipient, text or type differs |
| Accepting.LoadExisting | internal/message/accept.go:197-221 | finds exactly the items whose ref exists, each with its message |
| Preparing.Prepare | internal/message/validate.go:88-158 | items iff the submission is acceptable, one per request with its recipient, text, class, ref, encoding, segments and the price of its class for each segment; otherwise exactly the faulty fields with their codes |
| Preparing.NoFaultsIff | internal/message/validate.go:107-157 | no field is faulty iff every request is well formed, within the segment limit, and all refs differ |
| Preparing.PreparedCanBeAccepted | internal/message/validate.go:88-158 | prepared items have distinct refs, a positive cost and at most the allowed segments |
| Preparing.CheckRef | internal/message/validate.go:139-149 | a ref is malformed, repeats an earlier one, or is recorded |
| Preparing.CheckText | internal/message/validate.go:126-137 | a text is missing, not valid UTF-8 or with NUL, too long, or counted |
| Patterns.RecipientMatches | internal/message/validate.go:28 | a recipient is valid iff the regular expression matches the whole of it |
| Patterns.ClientRefMatches | internal/message/validate.go:29 | a client_ref is valid iff the regular expression matches the whole of it |
| Claims.Claim | internal/dispatch/claim.go:41-77 | leases the waiting rows of the lane that are not locked elsewhere, earliest first, all of them or as many as asked for: each gets this owner, the next generation and the deadline, and a job with the stored values |
| Claims.Select | internal/dispatch/claim.go:43-51 | the unlocked rows of the lane whose time has come and whose message is accepted, in the order of next_attempt_at, up to the limit; a row left out is not earlier than any picked one |
| Sweeping.Sweeper.Expire | internal/sweeper/tasks.go:19-65 | expiring the picked rows together leaves what one at a time leaves; counts, refunds and records exactly the messages still accepted |
| Sweeping.Sweeper.FlagSLA | internal/sweeper/tasks.go:69-88 | flagging together leaves what one at a time leaves |
| Sweeping.Sweeper.RemoveOrphans | internal/sweeper/tasks.go:93-110 | deleting together leaves what one at a time leaves |
| Sweeping.Sweeper.ReassignLanes | internal/sweeper/tasks.go:114-148 | moving together leaves what one at a time leaves |
| Sweeping.ExpireTableByTable | internal/sweeper/tasks.go:19-65 | ending all messages, deleting all rows and refunding leaves what row after row leaves |
| Customers.Create | internal/customer/customer.go:44-75 | the new customer's balance is its initial credits, recorded as a charge |
| Customers.DeleteKeepsForeignKeys | internal/customer/customer.go:148-157 | the cascade leaves no dangling reference |
| Reports.Apply | internal/dlr/apply.go:51-152 | the batch leaves the messages that applying the reports in order leaves, with one label per report, and no other table changes |
| Reports.BatchLabelDiffers | internal/dlr/apply.go:136-151 | a label differs from the one-at-a-time label iff the message was applied in this batch by an earlier report that disagrees; it is then Duplicate instead of IgnoredTerminal |
| Reports.LabelInTurnIs | internal/dlr/apply.go:51-152 | every one-at-a-time label in terms of the table before the batch |
| Reports.OneAppliedPerChange | internal/dlr/apply.go:51-152 | a report is Applied iff it is its message's first and the message can still move; the message then carries its status |
| Reports.ChangedIffApplied | internal/dlr/apply.go:51-152 | a message changes iff some report of it is labelled Applied |
| Reports.ReportAllAt | internal/dlr/apply.go:77-86 | the first report of a message decides it |
| Reports.FirstOfEach | internal/dlr/apply.go:52-59 | the first report of each message, with its index |
| Reports.UpdateReported | internal/dlr/apply.go:77-105 | updates exactly the accepted and sent messages and returns them |
| Reports.Classify | internal/dlr/apply.go:110-127 | the current status of every reported message that did not change |
| Batchers.AnswerIsDurable | internal/dlr/batcher.go:58-86 | in every interleaving Submit returns a label only after a committed Apply that held its report, in one call and at one place, and the label is the one given there |
| Batchers.StoppedMeansNotApplied | internal/dlr/batcher.go:58-86 | a Submit that returned ErrStopped had its report in no Apply |
| Batchers.EveryWaiterReturns | internal/dlr/batcher.go:73-82 | after Run returned every waiting Submit can return, with its own reply iff Apply held its report |
| Batchers.ResultChannelIsFree | internal/dlr/batcher.go:131-151 | handing out a result never blocks |
| Batchers.AppliedInOrder | internal/dlr/batcher.go:89-129 | reports reach Apply in the order they were queued, each once; after the end only late ones are left |
| Drains.BatchesAreBounded | internal/dlr/batcher.go:42-44 | until shutdown begins every batch holds at most the configured number |
| Drains.FinalBatchSize | internal/dlr/batcher.go:116-126 | the final batch holds exactly what was collected and waiting at shutdown plus what was queued until the drain found nothing, so it exceeds the configured number iff that sum does |
| Drains.StaysWithinIff | internal/dlr/batcher.go:42-129 | no continuation of a shutdown commits more than the configured number at once iff what is collected, what waits and the callers past the first check together do not exceed it |
| Drains.FinalBatchCanExceedSize | internal/dlr/batcher.go:116-126 | with a configured number of 1, two callers past the check can overfill the final batch |
| Batchers.StepKeeps | internal/dlr/batcher.go:58-151 | every step of every caller and of Run keeps the order, the one place per caller and the meaning of every result |
| Durability.ApplyWrites | internal/dlr/batcher.go:131-151 | in every reachable state a call of Apply that commits writes exactly the accepted and sent messages its batch names, as their first report says; one that fails writes nothing |
| Durability.OneAppliedAnswer | internal/dlr/batcher.go:57-86 | in every run whose other transactions leave finished messages alone, no two callers are told Applied for one message |
| Durability.AppliedStaysVisible | internal/dlr/batcher.go:18-19 | in such a run a caller who was told Applied finds its report's status on the message, then and in every later state |
| Durability.GatewayKeepsFinished | internal/dlr/apply.go:47-50 | between any two points of a run of the gateway that deletes no customer, finished messages keep their status |
| Waiters.EveryWaiterCanReturn | internal/dlr/batcher.go:57-129 | from every reachable state steps of Run and of a waiting caller alone take that caller to its return, with a result unless shutdown has begun |
| Waiters.ErrStoppedMeansShutdown | internal/dlr/batcher.go:15-86 | a Submit returns ErrStopped only after shutdown has begun |
| Waiters.InboxIsBounded | internal/dlr/batcher.go:51 | the channel never holds more than the configured number of reports |
| Waiters.CallerCanGiveUp | internal/dlr/batcher.go:69-85 | a caller can return with its context's error before or after queueing, and its report stays where it is |
| Circuit.AlwaysSound | internal/dispatch/circuit.go:53-124 | in every run probing implies half-open, failures stay below the threshold |
| Circuit.OpensAtThreshold | internal/dispatch/circuit.go:91-110 | a closed circuit opens at exactly the threshold-th counted failure since the last success, whatever comes in between |
| Circuit.ProbeDecides | internal/dispatch/circuit.go:91-110 | a probe's success closes the circuit, its counted failure reopens it from that time, any other failure frees the probe |
| Circuit.UsablePredictsAllow | internal/dispatch/circuit.go:71-82 | usable answers what allow would at that time, and a refusal changes nothing |
| Circuit.ObservingChangesNothing | internal/dispatch/circuit.go:71-124 | removing all usable and State calls from a run leaves every other answer the same |
| Circuit.NoGrantWhileOpen | internal/dispatch/circuit.go:53-68 | after an opening without a recorded success, nothing is granted before openFor has passed |
| Circuit.RecordBetweenProbes | internal/dispatch/circuit.go:53-68 | between a half-open grant and the next grant there is a record |
| Circuit.UnreportedProbeBlocksForever | internal/dispatch/circuit.go:59-64 | while no result is recorded, a probe in flight refuses every further call |
| Probes.SecondProbeNeedsForeignFailure | internal/dispatch/circuit.go:51-68 | in every run a second probe granted while one is in flight means that another request recorded a failure in between |
| Probes.ForeignResultCanAdmitSecondProbe | internal/dispatch/circuit.go:91-110 | whenever another request records a result while a probe is in flight, some continuation by new requests grants a second probe while the first is still in flight |
| Probes.LateResultAdmitsSecondProbe | internal/dispatch/circuit.go:94-110 | after such a result the next caller at a later time gets a second probe iff the result was a failure and, if it counted, the open time has passed |
| Probes.TwoProbesOut | internal/dispatch/circuit.go:94-110 | a run of four requests in which the third and the fourth are probes in flight at once |
| Circuit.CircuitBreaker.TryAllow | internal/dispatch/circuit.go:53-68 | answer and new state of allow |
| Circuit.CircuitBreaker.IsUsable | internal/dispatch/circuit.go:71-82 | answer of usable; only the open-to-half-open move shows |
| Circuit.CircuitBreaker.RecordResult | internal/dispatch/circuit.go:94-110 | new state after a result |
| Circuit.CircuitBreaker.CurrentLocked | internal/dispatch/circuit.go:119-124 | half-open once the open time has passed |
| Dispatching.Worker.Dispatch | internal/dispatch/send.go:38-95 | at most one admission per job, of the first usable provider, none iff the message expired (then expired) or no provider is usable (then deferred for the open time); exactly one record for it except when the lease ran out before sending, a success iff the provider took the message and a counted failure iff it was the provider's fault; a taken message closes the circuit and any other failure leaves its count and opening time; the outcome obeys the policy, names the admitted provider with its reference or error, is sent iff the provider took it, and is missing iff shutdown cut the wait or the failed send off |
| Dispatching.Worker.AnyUsable | internal/dispatch/send.go:134-142 | true iff a pick at that time would find a provider; asking only lets open circuits turn half-open |
| Dispatching.Worker.Pick | internal/dispatch/send.go:120-132 | none iff no provider is usable; otherwise the first usable one in rotation order, and only its breaker changes |
| Dispatching.Worker.FailedOutcome | internal/dispatch/send.go:78-95 | rejection iff the error is permanent, exhaustion iff it was the last attempt, a retry with its delay iff the next attempt falls before the expiry, and expiry otherwise |
| Dispatching.RetriesMoveOn | internal/dispatch/send.go:116-125 | the first attempt starts at the primary; a rotating policy starts every retry at the next provider, so at another one; any other policy always starts at the primary |
| Dispatching.RetryWaitsItsBackoff | internal/dispatch/completer.go:288-317 | on the database clock a retry waits for its backoff rounded down to milliseconds |
| Dispatching.ExpiredLeaseStrandsProbe | internal/dispatch/send.go:54-57 | after that return a probing breaker refuses every call until some result is recorded |
| Backoffs.DelayIsDocumentedIff | internal/dispatch/policy.go:32-40 | the 64-bit delay is min(base * 2^(attempt-1), max) for every attempt iff no shift by up to 31 bits wraps to a positive value below the maximum and 32 doublings of the base reach the maximum |
| Backoffs.SmallBaseIsRepresentable | internal/dispatch/policy.go:32-40 | that holds for a base below 2^33 ns and a maximum within 2^32 times the base |
| Backoffs.LargeBaseWraps | internal/dispatch/policy.go:32-40 | a larger base for which it fails |
| Backoffs.JitterRange | internal/dispatch/policy.go:32-40 | the jittered delay lies between half of the delay and all of it, and the extreme draws reach both ends |
| Backoffs.JitterFollowsTheDraw | internal/dispatch/policy.go:39 | the delay never falls as the draw grows, and lies within one unit of (1 + draw) times half the delay |
| Pools.SlotsAndOutcomes | internal/dispatch/pool.go:56-129 | in every interleaving slot tokens equal sends in progress plus the slots of the claim under way, never exceed the concurrency, and no claimed job yields two outcomes |
| Pools.FinishedSendIsSubmitted | internal/dispatch/pool.go:114-126 | the outcome of a send that ends is handed over then and for good, unless shutdown cut it off |
| Pools.NoJobIsDropped | internal/dispatch/pool.go:91-127 | in every run a claimed job waits for its send, is being sent, or its send has ended |
| Pools.ClaimsFollowTheCheck | internal/dispatch/pool.go:58-71 | the pool prepares a claim only after finding a usable provider in the same round |
| Pools.ClaimsAskForFreeSlots | internal/dispatch/pool.go:66-91 | the pool claims as soon as it holds what it wants or no slot is free, and asks for the slots it took |
| Pools.StoppedPoolClaimsNothing | internal/dispatch/pool.go:58-71 | once told to stop, the pool claims nothing more, whatever happens |
| Pools.RoundRobinHolds | internal/dispatch/pool.go:89-91 | the k-th claim is of lane k modulo the number of lanes |
| Pools.EveryOtherLaneOnce | internal/dispatch/pool.go:53-56 | between two successive claims of a lane every other lane is claimed exactly once |
| Pools.IdleMeansAllLanesEmpty | internal/dispatch/pool.go:103-111 | the pool idles iff as many claims as lanes came back empty since the last reset; every lane is then among them iff every lane whose claim failed since also came back empty, in particular if no claim failed |
| Pools.FailedClaimHidesLane | internal/dispatch/pool.go:95-111 | a run with a failed claim that idles although one lane never came back empty |
| Segments.Count | internal/segment/segment.go:37-68 | encoding, units and segments: none for the empty text, one if it fits, otherwise the greedy count |
| Segments.Detect | internal/segment/segment.go:72-79 | GSM-7 iff every character is in the basic or the extension table |
| Segments.GreedyIsMinimal | internal/segment/segment.go:55-68 | greedy filling is a split that never divides a character, and no such split has fewer parts |
| Segments.AtMostOneExtraPart | internal/segment/segment.go:55-68 | with k parts, (k-1)(part-1) < units <= k*part; up to part+1 parts, at most one more than units/part rounded up |
| Segments.PartsBoundUnits | internal/segment/segment.go:55-68 | the bounds behind it, with the use of the last part |
| Segments.SegmentsGrow | internal/segment/segment.go:37-93 | a prefix never has more segments than the text, also when the rest switches the encoding |
| Segments.Gsm7NeverTakesMore | internal/segment/segment.go:82-93 | counted in UCS-2 a text never takes fewer segments than in GSM-7 |
| Segments.CostGrows | internal/message/price.go:18-20 | a prefix never costs more, and is within the limit if the text is |
| AirInterface.UnitsAreCodeUnits | internal/segment/segment.go:81-93 | the units of a text are the septets, two for an extension character, or the UTF-16 code units that encode it |
| AirInterface.CapacitiesFillTheOctets | internal/segment/segment.go:19-25 | a single segment holds as many units as fit in 140 octets, a part as many as fit in 134 |
| Rings.DedupStore.Add | internal/fakeprovider/dedup.go:43-58 | the store holds exactly the last `capacity` additions with their first acceptance; it adds iff the ID is not among them, and replies with the one it holds |
| Rings.DedupStore.Get | internal/fakeprovider/dedup.go:33-38 | finds an ID iff it is among the last `capacity` additions |
| Rings.SendsAgree | internal/fakeprovider/dedup.go:40-58 | until `capacity` more additions are made, every send of an ID finds its first acceptance and no other |
| Rings.WindowIsDistinct | internal/fakeprovider/dedup.go:20-27 | the store never holds two acceptances of one ID |
| Rings.RecentLog.Add | internal/fakeprovider/recent.go:54-63 | drops the oldest record only when full |
| Rings.RecentLog.Latest | internal/fakeprovider/recent.go:86-100 | up to limit records, newest first, across the wrap |
| Rings.KeepsTheLatest | internal/fakeprovider/recent.go:42-63 | after any sequence of additions the log is its last `capacity` records |
| Ids.BoundComparesTimes | internal/store/ids.go:16-28 | for every time, a version 7 ID is at or above the bound iff its timestamp is at or above the time's milliseconds modulo 2^48 |
| Ids.KeepsLaterIdsIff | internal/store/ids.go:16-28 | no ID created at or after t is below the bound iff t is not before 1970 or its milliseconds are a multiple of 2^48 |
| Ids.TimeWindow | internal/message/query.go:55-56 | for 48-bit times the bounds select exactly the IDs created in [since, until) |
| Ids.BoundIsSmallest | internal/store/ids.go:16-28 | the bound is the smallest ID of its millisecond |
| Ids.FillLowerBound | internal/store/ids.go:19-28 | filling the bytes in place gives the bound |
| Paging.PageIs | internal/message/query.go:47-80 | a page is the largest rows below the cursor, in descending order, up to the limit; `more` iff a row is missing, and missing rows are below the page |
| Paging.WalkDescends | internal/message/query.go:44-80 | following the cursor lists no row twice and in descending order, whatever happens to the table in between |
| Paging.NothingSkipped | internal/message/query.go:44-80 | a row that is there whenever a page is read is listed by the last page |
| Paging.ExactWhenOnlyNewerArrive | internal/message/query.go:44-80 | while only newer rows arrive, a finished listing is exactly the table at the first page |
| Paging.WalkReachesTheEnd | internal/message/query.go:44-80 | while only newer rows arrive, as many pages as the rows need reach the last page |
| Paging.WindowIsListed | internal/message/query.go:44-80 | the pages of a query for [since, until) reach the end and list exactly the IDs of the first page's table with a timestamp in the window, each once, in descending order |
| Ids.LessIsSmaller | internal/message/query.go:58 | IDs order byte by byte as the numbers they spell, and no two share one, so rows sort by either |

## Left out

- PostgreSQL itself: each transaction is one atomic step at one clock value that never goes back; row locks, skipped rows and index waits appear as a free choice of the picked rows; deadlock freedom is not claimed.
- 64-bit overflow of balances, costs and generations: these are unbounded integers here; only the backoff's wrap-around is modelled.
- Pools and Batchers: the loops over channels and goroutines are step systems on values, so aliasing of the reused batch slice, timers and the order in which Go wakes waiters are not captured.
- The completer's own collecting loop (internal/dispatch/completer.go:54-160): batches with at most one outcome per job are its input; retrying a failed flush is an outcome committed again or never in the state machine.
- Customers: names, API keys, rate limits and updates are left out; deletion is the cascade on values, without a method.
- Tables: lane names are a datatype, the lane hash is an arbitrary function, transaction rows carry no ID of their own, and the order in which a statement returns rows is not modelled.
- Circuit, Probes and Dispatching: one clock reading per pick, and a send's result, the budget's answer and the delays are inputs.
- Claims.Claim: the rows that other transactions have locked are an input; jobs carry no customer, recipient or body.
- Durability.OneAppliedAnswer and Durability.AppliedStaysVisible: the other transactions between two batches must leave finished messages in their status, which every run of the gateway does that deletes no customer (Durability.GatewayKeepsFinished).
- Backoffs.JitterRange and Backoffs.JitterFollowsTheDraw: do not model floating-point rounding; the draw is a real number.
- Ids: how new IDs are drawn is not modelled; a submission carries IDs never drawn before.
- Paging: the filters on status, type and recipient are part of the snapshot; the cursor's text form is left out.
- Rings.RecentLog.Latest: records are values, so their later update in place does not show; capacity is positive, as both constants are.
- The checks finished_messages_leave_the_queue and no_abandoned_leases (internal/invariant/invariant.go:90-108) bound times and need scheduling assumptions.
- Provider budgets and the rate limiter: they rest on a token-bucket library outside the repository.
- HTTP handlers, the admin interface, configuration, metrics, logging, heartbeats, the provider client and the fake provider's simulation: input, output or easy members.
