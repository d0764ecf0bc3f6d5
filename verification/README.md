# Verified model of the portfolio ledger, its outbox, its sessions and its smaller machinery

This project models, in Dafny, the parts of the portfolio research assistant in which ordering, concurrency and arithmetic
decide correctness, and proves what those parts promise. `dafny verify dfyconfig.toml` checks everything.

## The system in its own terms

**Ledger.** A portfolio holds immutable facts: buys, sells, dividends and cash movements. A user "edits" a fact by a
correction: a reversal that repeats its financial fields and a replacement, tied together by a correction row. Facts are
replayed in the order effective time, portfolio sequence, id; no running balance of an asset may become negative. A command
runs in one READ COMMITTED transaction: share-lock the portfolio, lock and look up the idempotency key, allocate sequences
(which locks the portfolio's counter row), read back only the touched asset streams, replay, insert, append one outbox event
and complete the key.

* `Facts`, `Balances`, `Replay`, `LedgerLaws`: facts, balances as order-free sums, the replay as loops over maps, and its laws.
  The reference meaning (`Sound`, `FirstNegative`) never sorts; the replay does.
* `LedgerTotals`: what a replay promises in terms of quantities bought and sold, with the rules for a ledger and its order written
  out and none of the replay's own functions; what a sale at any date needs.
* `PartialReplay`: replaying only the touched streams against replaying the whole ledger.
* `Corrections`, `Commands`: building a correction; normalising, identifying and resolving a request.
* `LedgerBook`, `LedgerRuns`, `LedgerChains`: one portfolio's rows as a value (`Book`), a command as one step (`Execute`, whose
  replay is the replay of the whole ledger), the invariant `Inv` of every reachable book, and laws of whole runs.
* `LedgerRecords`: which request is accepted, for which reason it is refused and what it writes, field by field in terms of the
  request alone.
* `LedgerStore`: the same command as statements on mutable rows, rolled back on rejection.
* `Interleaving`, `Serializability`: any number of concurrent commands and archivals, one statement at a time, with explicit
  lock tables and private writes; every interleaving is equivalent to running the committed commands one at a time.

**Outbox.** Events of a portfolio form a stream. Workers claim due events under a lease and a random token, call the publisher
and mark the outcome under that token.

* `Outbox`: the two tables and their statements. `OutboxRuns`: a transition system of any number of workers, with crashes,
  expiring leases, unrelated clocks and a history of publisher calls. `OutboxLaws`: what every run guarantees. `OutboxClocks`:
  what the clocks may do to it. `OutboxLeases`: what a lease and a retry time keep away. `DeliveryClocks`: what a worker with a
  steady clock does.
* `RetryCap`, `Delivery`: the retry cap over 64-bit integers, and the worker loop, proved to take exactly its planned steps of the
  transition system whatever the other workers do between its own statements, or to stop at an error that is explained.
  `DeliverySchedule`: the plan written out claim by claim and moment by moment, and that no call is started after its lease.

**Sessions.** A refresh token belongs to a family. Each refresh replaces the active session; presenting a used token revokes the
family. `Sessions` has the domain rules and the table, `SessionRuns` the invariant of every run, `SessionLaws` its consequences,
`SessionLifetimes` every answer to a login, refresh or logout, with the lifetimes as numbers.

**Smaller machinery.** `RateLimit`: the pruned event table against the full history. `RateWindows`: the limiter against the plain
description of a sliding window. `Paging`: keyset pages over a growing ledger.
`Decimals`: canonical decimal strings against integers. `Json`, `Fingerprint`: the server's fingerprint and the browser's command
identity, both shown to be exactly the meaning of a command; `FormRequests`: what the browser sends again is answered as before.

**Conventions.** Ids, tokens and digests are naturals, 0 being the zero value. Instants are integers, 0 being the unset time:
nanoseconds in the ledger, outbox and rate limiter, microseconds (what the table stores) for sessions. Ledger decimals are
integers in units of 10^-12 with `None` for the invalid zero Decimal; `Decimals` justifies this. What a computation reads from
outside (clocks, random ids, the asset row, the end of a call) is a parameter.

**Findings.** Presenting a used refresh token does not always revoke the family (`SessionLaws.ReplayRevokesTheFamily` gives the
exact condition). Revocation stamps every session with the current clock, a table constraint refuses a stamp before a session's
creation, and one refused row undoes the transaction: a lagging clock hides the replay (`SessionLaws.LaggingClockHidesReplay`).
And cleanup deletes the rows that remember used tokens: on a right clock, too, a token whose row is gone is refused like an unknown
one (`SessionLaws.CleanupHidesReplay`, `SessionLaws.EarlyCleanupHidesReplay`). The cutoff is the caller's, and the repository fixes
none; one at least 90 days back is safe (`SessionLaws.LateCleanupIsSafe`).
A delivered event is refused publication exactly when the acknowledging clock is behind the event
(`OutboxClocks.AcknowledgementPublishesExactly`). Events are appended due at their own instant, so this takes a clock that went
back behind its own claim: the acknowledging worker's (`OutboxClocks.ClockBehindItsClaimIsRefused`), or that of a worker that dated
an earlier retry of the event before its own claim, which can hurt another worker whose clock merely lags
(`OutboxClocks.RefusalMeansAClockWentBack`, `OutboxClocks.EarlyRetryHurtsAnother`). Workers whose clocks never go back do neither
(`DeliveryClocks.SteadyWorkersAreTimely`). A refused event stays claimed until its lease ends and can then be claimed again.
A cleanup of the rate limiter may lag without harm, but one whose clock is ahead forgets events that still count
(`RateLimit.CleanupMovesTheClock`, `RateLimit.EarlyCleanupForgets`).

## Model

| member | source | states |
|---|---|---|
| Facts.NewFactFromCommand | backend/internal/transaction/domain/transaction.go:36-92 | A fact is created exactly from a valid command with non-zero ids, positive sequence and a creation time not before its effective time; it carries each field of the command unchanged, always rehydrates and is never a reversal |
| Balances.FirstNegativeIsUnique | backend/internal/transaction/domain/replay.go:65-82 | A well-formed ledger has at most one first violation: the replay order is total on distinct ids |
| Balances.PermutationInvariance | backend/internal/transaction/domain/replay.go:32-127 | Soundness, first violation and every balance are unchanged by listing the facts in another order |
| Replay.CheckFacts | backend/internal/transaction/domain/replay.go:32-48 | Succeeds exactly when all facts rehydrate and ids and per-portfolio sequences are unique; builds the index by id |
| Replay.CheckReversals | backend/internal/transaction/domain/replay.go:49-58 | Succeeds exactly when every reversal has a matching original and no original is reversed twice |
| Replay.CheckBalances | backend/internal/transaction/domain/replay.go:59-127 | On well-formed facts: clean exactly if no prefix balance is negative, otherwise the first negative prefix with its exact value and blame; LedgerTotals.BalanceIsHeld says what a balance is |
| Replay.ReplayLedger | backend/internal/transaction/domain/replay.go:32-127 | Clean iff the facts are well formed and never negative by the order-free definition; a violation is the first one in replay order, with exact quantity, candidate and later-existing flags (in quantities bought and sold: LedgerTotals.VerdictMeans) |
| LedgerLaws.VerdictIgnoresListing | backend/internal/transaction/domain/replay.go:32-127 | Two replays of the same collections give the same verdict, violation included |
| LedgerLaws.SoundAtEveryInstant | backend/internal/transaction/domain/replay.go:82-125 | A clean ledger is non-negative at every position, not only at facts |
| LedgerLaws.BlameIsAssigned | backend/internal/transaction/domain/replay.go:82-125 | If the existing facts are clean, a violation is at a candidate or flagged as later existing |
| LedgerLaws.AdditionsNeverOverdraw | backend/internal/transaction/domain/replay.go:82-125 | Adding a well-formed buy, dividend or cash fact to a clean ledger keeps it clean, however far backdated |
| LedgerLaws.PairCancels | backend/internal/transaction/domain/replay.go:59-125 | At every position the balance with an original and its reversal is the balance without them plus the original's signed quantity in the window between the two |
| LedgerLaws.PairInvisibleOutsideWindow | backend/internal/transaction/domain/correction.go:78-89 | Outside the slots from the original up to just before its reversal the pair changes no balance |
| LedgerLaws.PairKeepsSoundness | backend/internal/transaction/domain/correction.go:78-89 | For a buy, soundness without the pair implies soundness with it; for a sell the other way round |
| LedgerLaws.Conservation | backend/internal/transaction/domain/replay.go:104-114 | Every final balance is that of the live facts alone |
| LedgerTotals.BalanceIsHeld | backend/internal/transaction/domain/replay.go:82-125 | In a well-formed ledger the balance of a stream at any position is what was bought up to there less what was sold, each undone purchase taken off and each undone sale put back |
| LedgerTotals.VerdictMeans | backend/internal/transaction/domain/replay.go:32-127 | The verdict from the rules for facts, uniqueness, reversals and holdings alone: clean iff all hold; otherwise the first fact in the written-out order at which more was sold than bought, what is missing, whether it is a candidate and whether it follows one |
| LedgerTotals.SaleKeepsSoundExactly | backend/internal/transaction/domain/replay.go:107-122 | A sale at any date keeps a clean ledger clean iff its quantity is held at its place and at every later move of the stream |
| LedgerTotals.LastSale | backend/internal/transaction/domain/replay.go:107-122 | A sale after all moves of its stream is clean iff its quantity is held; otherwise the replay names it, with holding minus quantity |
| PartialReplay.ValidateReplay | backend/internal/transaction/application/service.go:232-265 | On a sound ledger the partial replay answers exactly what replaying the whole ledger with the candidates would |
| PartialReplay.PartialReplayAgrees | backend/internal/transaction/application/service.go:232-265 | Well-formedness, soundness and the very violating fact agree between the touched streams and the whole ledger |
| Corrections.BuildCorrection | backend/internal/transaction/domain/correction.go:66-105 | A built correction mirrors the original in its reversal, takes the command in its replacement and links all three |
| Corrections.BuildCorrectionSucceeds | backend/internal/transaction/domain/correction.go:66-105 | The exact condition, on all inputs with a stored original, under which a correction can be built |
| Commands.NormalizeAcceptsExactly | backend/internal/transaction/application/command.go:19-59 | Normalisation accepts exactly the inputs that, their missing trade fee filled in, some answer about the asset turns into a command losing none of their fields |
| Commands.NormalizedResolves | backend/internal/transaction/application/command.go:85-121 | After normalisation only the asset can fail, and resolving keeps every field |
| Commands.NormalizeIsIdempotent | backend/internal/transaction/application/command.go:19-59 | Normalising a normalised command later changes nothing |
| LedgerBook.DraftIsAdmissible | backend/internal/transaction/application/service.go:117-195 | Every drafted command meets what the partial replay relies on: fresh ids, fresh sequences, an uncorrected target |
| LedgerBook.ExecuteKeepsInv | backend/internal/transaction/application/service.go:61-230 | Every command, whatever its outcome, keeps the book sound, gap-free, linked once per original, with valid keys and an outbox that lists the facts in sequence order |
| LedgerRecords.PreparedMeans | backend/internal/transaction/application/command.go:19-59 | A request is refused for the first rule it breaks, in the written-out order, and otherwise goes on unchanged but for a missing trade fee, which becomes zero |
| LedgerRecords.NotAdmitted | backend/internal/transaction/application/service.go:69-130 | Which refusal a command gets that breaks a rule, meets an archived portfolio or names an unsuitable asset; it writes nothing |
| LedgerRecords.CreationSucceedsExactly | backend/internal/transaction/application/service.go:61-230 | A creation is recorded iff the request keeps every rule, its key is free, the portfolio is active, its asset is eligible, the stamp is not before the effective time and the ledger with exactly the fact asked for keeps the rules and never sells what is not held |
| LedgerRecords.CreationWrites | backend/internal/transaction/application/service.go:117-208 | All a recorded creation writes: one fact, one event that names it, and the key with its digest for 365 days |
| LedgerRecords.RecordedAsAsked | backend/internal/transaction/domain/transaction.go:76-92 | The recorded fact has every field of the request, zero for the missing fee of a trade, the asset that was looked up, the caller and the stamp of the transaction |
| LedgerRecords.CorrectionSucceedsExactly | backend/internal/transaction/application/service.go:61-230 | The exact condition for a correction, over target, ids, times, key, asset and the ledger with exactly the reversal and the replacement asked for |
| LedgerRecords.CorrectionWrites | backend/internal/transaction/application/service.go:132-208 | All a correction writes: both facts, the link, one event that names target, reversal, replacement and link in this order, and the key |
| LedgerRecords.CorrectedAsAsked | backend/internal/transaction/domain/correction.go:66-105 | Field by field: the replacement is what was asked for, the reversal repeats what the target moved, the link names all three |
| LedgerRuns.RunsKeepInv | backend/internal/transaction/application/service.go:61-230 | Every reachable ledger replays cleanly in full and is numbered 1..n |
| LedgerRuns.RunsExtend | backend/internal/portfolio/infrastructure/database/sqlcgen/portfolios.sql.go:14-24 | Runs only append facts, corrections and events, and nothing at all after an archival |
| LedgerRuns.ValidatedAgainstPredecessors | backend/internal/transaction/application/service.go:117-195 | An accepted command was validated against exactly the facts with smaller sequences and adds one event |
| LedgerRuns.RejectionTellsBlame | backend/internal/transaction/application/service.go:257-265 | A quantity rejection is "insufficient" iff the command's own fact is the first to overdraw its stream, and "backdated" iff an existing fact at or after one of the command's facts is |
| LedgerRuns.RetryAnswersTheSame | backend/internal/transaction/application/service.go:89-110 | A matching retry within the retention period returns the original answer and writes nothing, after any commands, corrections or archival in between |
| LedgerRuns.ReusedKeyConflicts | backend/internal/transaction/application/service.go:93-96 | Within the retention period any other acceptable command under the key of an accepted one is refused as a conflict and writes nothing, whatever came between |
| LedgerRuns.WritesUnderOneKeyAreApart | backend/internal/transaction/infrastructure/database/sqlcgen/idempotency.sql.go:41-113 | Two commands that write under one key are at least 8760 hours apart |
| LedgerChains.ChainsAreLinear | backend/internal/transaction/domain/correction.go:66-105 | Facts with one root lie on one correction line |
| LedgerChains.OneLiveFactPerChain | backend/internal/transaction/domain/correction.go:66-105 | Every chain of a reachable book has exactly one live fact |
| LedgerChains.CorrectableIsLive | backend/internal/transaction/domain/correction.go:34-45 | In a reachable book exactly the live facts can be corrected; a reversal is refused as not correctable, a reversed fact as already corrected |
| LedgerChains.ConservationInBooks | backend/internal/transaction/domain/replay.go:104-114 | In a reachable book each balance equals that of the facts without a direct correction, and is not negative |
| LedgerStore.Store.Idempotency | backend/internal/transaction/infrastructure/database/repository.go:31-56 | Returns an unexpired key; an expired one is deleted on the way |
| LedgerStore.Store.Allocate | backend/internal/transaction/infrastructure/database/sqlcgen/sequences.sql.go:14-50 | One statement hands out the next one or two sequences |
| LedgerStore.Store.WriteDraft | backend/internal/transaction/application/service.go:132-205 | Inserts the correction row and the facts, appends one event and completes the key |
| LedgerStore.Store.Execute | backend/internal/transaction/application/service.go:61-230 | The statements, with rollback, compute exactly one step of the book, whose conditions and writes LedgerRecords spells out, and keep its invariant; a rejection restores every row |
| LedgerStore.Store.ArchiveOwned | backend/internal/portfolio/infrastructure/database/sqlcgen/portfolios.sql.go:14-24 | Archives exactly an active portfolio of its owner and changes nothing else |
| Interleaving.CheckIsFullCheck | backend/internal/transaction/application/service.go:232-265 | What a transaction computes from its own separate reads is the verdict on the committed ledger |
| Interleaving.CommitIsExecute | backend/internal/transaction/application/service.go:61-230 | A commit publishes exactly what running the command alone on the committed book would |
| Interleaving.CommitKeepsGood | backend/internal/transaction/infrastructure/database/sqlcgen/sequences.sql.go:14-43 | A commit keeps everything the other transactions have read and rely on |
| Interleaving.NextKeepsGood | backend/internal/transaction/application/service.go:69-208 | Every statement of every transaction keeps the invariant: locks held, reads still valid, drafts still admissible |
| Serializability.CommandsAreAtomic | backend/internal/transaction/application/service.go:69-208 | The statement that ends a command yields the outcome of the whole command at that moment |
| Serializability.OnlyCommitsChangeRows | backend/internal/transaction/infrastructure/database/transactor.go:30-48 | Only commits change committed rows; aborts never do |
| Serializability.EveryInterleavingIsSerial | backend/internal/transaction/application/service.go:69-208 | For every interleaving the committed rows are those of the committed commands run one at a time in commit order, and the book invariant holds |
| Serializability.EveryAnswerIsSerial | backend/internal/transaction/application/service.go:61-230 | In every interleaving each finished command has the outcome of running it after a prefix of the committed commands, rejections and repeated answers included; an accepted one is itself the next of them |
| Serializability.NothingCommitsAfterArchive | backend/internal/portfolio/infrastructure/database/sqlcgen/portfolios.sql.go:184-196 | After an archival has committed, no statement of any interleaving changes a row |
| Serializability.NoDeadlock | backend/internal/transaction/application/service.go:69-208 | In every state of every interleaving with an unfinished transaction, some unfinished transaction has a statement of its own that it can take (ids about to be drawn being new) |
| Outbox.Store.Append | backend/internal/platform/database/sqlcgen/outbox.sql.go:14-60 | Appends a pending event at the next position of its stream, or refuses a repeated id |
| Outbox.Store.ClaimDue | backend/internal/platform/database/sqlcgen/outbox.sql.go:114-146 | Refuses exactly a malformed request; claims exactly the first unlocked events, in stream order, that wait and are due or whose lease is over and whose predecessors are all published; each gets the token, the lease and one more attempt, no other row changes |
| Outbox.Store.MarkPublished | backend/internal/platform/database/sqlcgen/outbox.sql.go:228-240 | Publishes exactly the event its token still owns; fails on a time before the event occurred |
| Outbox.Store.Reschedule | backend/internal/platform/database/platform_eventing.go:109-121 | Returns exactly an owned event to pending; refuses an unset time or a malformed failure code |
| Outbox.Store.MarkDeadLetter | backend/internal/platform/database/platform_eventing.go:123-135 | Dead-letters exactly an owned event; refuses a malformed failure code |
| OutboxRuns.RunsKeepGood | backend/internal/platform/worker/delivery.go:94-188 | Every label of every run keeps the invariant of table, held claims and call history |
| OutboxLaws.StreamShape | backend/internal/platform/database/sqlcgen/outbox.sql.go:114-146 | Every stream is a published prefix, at most one event in progress or dead, then events never claimed |
| OutboxLaws.OnlyTheHeadIsClaimable | backend/internal/platform/database/sqlcgen/outbox.sql.go:114-146 | An event can be claimed iff it is due and is the first unpublished one of its stream |
| OutboxLaws.CallsAreBounded | backend/internal/platform/worker/delivery.go:150-188 | The publisher is called at most the configured number of times per event, over all workers, crashes and lease expiries |
| OutboxLaws.DeliveredInOrder | backend/internal/platform/database/sqlcgen/outbox.sql.go:120-128 | A position is handed to the publisher only after the previous one was delivered |
| OutboxLaws.FinalStatesAreEarned | backend/internal/platform/worker/delivery.go:150-188 | A published event had a successful call; a dead letter has used up its attempts |
| OutboxLaws.EachClaimSettlesOnce | backend/internal/platform/database/sqlcgen/outbox.sql.go:202-266 | One claim causes at most one further durable transition |
| OutboxLaws.RunsEvolve | backend/internal/platform/database/sqlcgen/outbox.sql.go:202-266 | Events keep their place, final states are final, and nothing is inserted before an existing event |
| OutboxLaws.DeadLetterStopsItsStream | backend/internal/platform/database/sqlcgen/outbox.sql.go:114-146 | After a dead letter nothing behind it is ever claimed or handed to the publisher |
| OutboxLeases.LeaseExcludes | backend/internal/platform/database/sqlcgen/outbox.sql.go:114-146 | In every run an event that was taken under a lease and not given back is next taken no earlier than that lease ends |
| OutboxLeases.RetryDelays | backend/internal/platform/database/sqlcgen/outbox.sql.go:255-266 | An event that was given back is next taken no earlier than the time written then |
| OutboxLeases.AppendDelays | backend/internal/platform/database/sqlcgen/outbox.sql.go:14-60 | A new event is first taken no earlier than it was appended to be due |
| OutboxLeases.TakesExactly | backend/internal/platform/database/sqlcgen/outbox.sql.go:114-146 | In any state a worker with a new token can take an event iff it waits and is due or its lease is over, all earlier events of its stream are published and its attempts can still be counted |
| OutboxClocks.TimelyRunsKeepDated | backend/internal/transaction/application/service.go:297-307 | If an event is appended due at its own time and no retry of it is due before its own claim, then however the clocks are set it is never due, claimed or published before it occurred |
| OutboxClocks.AcknowledgementPublishesExactly | backend/migrations/00004_m3_platform_eventing.sql:185-192 | The acknowledgement of a delivered event publishes it iff its claim still owns the row and the clock has reached the event |
| OutboxClocks.SteadyClockPublishes | backend/internal/platform/worker/delivery.go:162-169 | In every such run an owner acknowledging no earlier than it claimed publishes |
| OutboxClocks.RefusalMeansAClockWentBack | backend/internal/platform/worker/delivery.go:162-187 | In every run whatsoever that appends events due at their own instant: if the owner of a delivered event is refused, its clock went back behind its own claim, or an earlier retry of that event was dated before the claim it came from |
| OutboxClocks.ClockBehindItsClaimIsRefused | backend/internal/platform/worker/delivery.go:162-169 | A concrete run in which the owner's clock went back: the delivered event stays claimed and will be claimed again |
| OutboxClocks.EarlyRetryHurtsAnother | backend/internal/platform/worker/delivery.go:180-187 | A concrete run of the second kind: one worker's clock goes back before it dates a retry, and another worker, lagging but steady, is refused |
| RetryCap.Compute | backend/internal/platform/worker/delivery.go:190-199 | Equals min(base * 2^(attempt-1), max) with every intermediate value a 64-bit integer, and terminates |
| RetryCap.CapIsMonotone | backend/internal/platform/worker/delivery.go:190-199 | The cap never shrinks with the attempt and stays between base and max |
| RetryCap.CapDoubles | backend/internal/platform/worker/delivery.go:190-199 | The first cap is the base; each further one is twice the last, or the maximum if that is less |
| Delivery.World.ClaimDue | backend/internal/platform/worker/delivery.go:128-133 | One step of the transition system on the table as the others left it: the batch is what was due and unlocked there, also if the answer is lost; an error is explained by a fault or by what the table refuses |
| Delivery.World.Publish | backend/internal/platform/worker/delivery.go:158-161 | The worker takes exactly two steps, the start and the end of one call, with its one result, while others act |
| Delivery.World.Settle | backend/internal/platform/database/platform_eventing.go:99-135 | At most the one settling step; without an error the claim owns its row no longer; an error is explained by a fault or by what the table refuses |
| Delivery.Worker.Deliver | backend/internal/platform/worker/delivery.go:150-188 | The worker takes exactly the steps due to the claim, with the clock readings and jitter of their moments, or a part of them up to an explained error; a row it still owns afterwards is one whose call failed after its lease |
| Delivery.Worker.RunOnce | backend/internal/platform/worker/delivery.go:116-148 | Amid arbitrary interference the cycle claims what is due and then takes exactly the planned steps for each claim in turn, each possible when taken, or stops at an explained error; a completed cycle still owns only claims whose lease it saw run out (the plan itself: DeliverySchedule) |
| Delivery.Worker.Run | backend/internal/platform/worker/delivery.go:102-114 | Completed cycles, each begun where and when the idle wait after the previous one ended, up to the first error; the invariant of all runs is kept |
| Delivery.EachClaimIsHandled | backend/internal/platform/worker/delivery.go:134-147 | Of the steps planned for a batch those about one claim are exactly its delivery from the moment it is reached, or none if its lease has run out by then |
| DeliverySchedule.CycleIsScheduled | backend/internal/platform/worker/delivery.go:116-188 | Every cycle, completed or broken off, is a claim under the configured lease and then, as far as it came, the written-out schedule: which steps each claim leads to, with which clock readings, codes and delays, and at which moment the next is reached |
| DeliverySchedule.CompletedIsWhole | backend/internal/platform/worker/delivery.go:134-147 | A completed cycle has taken the whole schedule, to its last moment |
| DeliverySchedule.StartsWithinLease | backend/internal/platform/worker/delivery.go:138-142 | Whenever a cycle starts a call it has, at a moment of its own just before, read a clock earlier than its claim time plus the lease |
| DeliverySchedule.LateClaimHasNoStep | backend/internal/platform/worker/delivery.go:138-142 | A claim reached at the end of its lease or later has no step in the cycle |
| DeliverySchedule.StillOwnedIsLate | backend/internal/platform/worker/delivery.go:138-176 | What a completed cycle still owns is an event whose lease it saw run out, before the call or after a failed one |
| DeliveryClocks.SteadyWorkersAreTimely | backend/internal/platform/worker/delivery.go:116-188 | Amid timely steps of the others, a cycle of a worker whose clock readings never decrease takes only timely steps, however far it comes |
| DeliveryClocks.SteadyWorkerIsNeverRefused | backend/internal/platform/worker/delivery.go:162-169 | After any timely run such a worker's next acknowledgement of a row it owns is dated no earlier than the event and publishes it |
| Sessions.RotationHandsOver | backend/internal/identity/domain/refresh_session.go:173-199 | The exact condition for a rotation, and that it keeps family, user and absolute expiry and hands over at one instant |
| Sessions.Store.LockByDigest | backend/internal/identity/infrastructure/database/sqlcgen/refresh_sessions.sql.go:59-64 | Finds the one session of a digest |
| Sessions.Store.RevokeFamily | backend/internal/identity/infrastructure/database/sqlcgen/refresh_sessions.sql.go:286-295 | Revokes every session of the family, or none if one row is refused |
| Sessions.Store.MarkExpired | backend/internal/identity/infrastructure/database/sqlcgen/refresh_sessions.sql.go:254-263 | Marks exactly the active sessions past an expiry |
| Sessions.Store.DeleteInactiveBefore | backend/internal/identity/infrastructure/database/sqlcgen/refresh_sessions.sql.go:14-20 | Deletes exactly the inactive sessions before the cutoff, unless a link would dangle |
| Sessions.Store.CreateLoginSession | backend/internal/identity/application/operations.go:153-182 | Opens a family with its idle and absolute expiry, or changes nothing |
| Sessions.Store.Refresh | backend/internal/identity/application/operations.go:184-293 | The statements of a refresh, replay detection included, are exactly one step of the table; SessionLifetimes gives its answer and rows in every case |
| Sessions.Store.Logout | backend/internal/identity/application/operations.go:295-330 | The statements of a logout are exactly one step of the table |
| SessionRuns.CleanupLeavesNoGap | backend/internal/identity/infrastructure/database/sqlcgen/refresh_sessions.sql.go:14-20 | Deleting before any cutoff leaves no surviving session whose replacement is gone, so it always commits |
| SessionRuns.RunsKeepSound | backend/internal/identity/application/operations.go:153-330 | Every run keeps the invariant of rows, links, generations and used tokens |
| SessionLaws.FamiliesAreBounded | backend/internal/identity/domain/refresh_session.go:126-217 | A family has at most one active session, one user and one absolute expiry; no session of it is active 90 days after it began |
| SessionLaws.RunsPersist | backend/internal/identity/application/operations.go:184-330 | A family's user and birth never change and a revocation is never undone or redated |
| SessionLaws.EachTokenRefreshesOnce | backend/internal/identity/application/operations.go:184-293 | A token refreshed once is refused for ever |
| SessionLaws.RevokedFamilyIsDead | backend/internal/identity/infrastructure/database/sqlcgen/refresh_sessions.sql.go:286-295 | After a revocation every session of the family is revoked at that instant and none refreshes again |
| SessionLaws.RefreshSucceedsExactly | backend/internal/identity/application/operations.go:184-293 | The exact condition under which a refresh with a new id and token succeeds in a reachable table |
| SessionLaws.LogoutSucceedsExactly | backend/internal/identity/application/operations.go:295-330 | The exact condition under which a logout succeeds |
| SessionLaws.LogoutRevokes | backend/internal/identity/application/operations.go:295-330 | A successful logout revokes the family |
| SessionLaws.ChainIsLinear | backend/internal/identity/domain/refresh_session.go:173-199 | Sessions of a family form one chain of replacements with non-decreasing creation times |
| SessionLaws.StatementRevokesAsDomain | backend/internal/identity/domain/refresh_session.go:219-231 | The revoking statement accepts and produces exactly what the domain's Revoke does |
| SessionLaws.ReplayRevokesTheFamily | backend/internal/identity/application/operations.go:201-224 | Presenting any token ever used leaves its family revoked iff it was revoked before, or the token's row is still stored, the clock is set and it has reached the creation of the family's latest session; otherwise nothing changes, and it is never refreshed |
| SessionLaws.LaggingClockHidesReplay | backend/internal/identity/application/operations.go:201-224 | A concrete run in which a replayed token on a lagging clock revokes nothing |
| SessionLaws.CleanupHidesReplay | backend/internal/identity/infrastructure/database/sqlcgen/refresh_sessions.sql.go:14-20 | In any reachable table, once cleanup has deleted a replaced session its token is refused like an unknown one, nothing is revoked whatever the clock, and every active session stays |
| SessionLaws.EarlyCleanupHidesReplay | backend/internal/identity/infrastructure/database/sqlcgen/refresh_sessions.sql.go:14-20 | A concrete run: login, refresh, cleanup, and the used token on a right clock leaves its successor active |
| SessionLaws.LateCleanupIsSafe | backend/internal/identity/infrastructure/database/sqlcgen/refresh_sessions.sql.go:14-20 | In every run whose cleanups stay the absolute lifetime behind the clock, a forgotten used token belongs to a family that is revoked or has no active session left |
| SessionLifetimes.LoginSucceedsExactly | backend/internal/identity/application/operations.go:153-182 | A login with new ids succeeds iff user, ids, token and clock are set |
| SessionLifetimes.LoginLivesExactly | backend/internal/identity/application/operations.go:160-163 | The session of a login can be used exactly for the next 30 days |
| SessionLifetimes.RefreshIsStored | backend/internal/identity/application/operations.go:256-258 | The row a refresh adds: token, user and family, 30 days idle, at most 90 days from the login |
| SessionLifetimes.RefreshLivesExactly | backend/internal/identity/application/operations.go:256-258 | A refreshed session can be used at t iff t is less than 30 days after the refresh and less than 90 days after the login of its family |
| SessionLifetimes.RefreshAnswersExactly | backend/internal/identity/application/operations.go:184-293 | The answer to the token of a session neither replaced nor revoked: the first obstacle, with no row changed, or a new session |
| SessionLifetimes.UsedTokenAnswersExactly | backend/internal/identity/application/operations.go:201-224 | The answer to the token of a replaced or revoked session: every unrevoked session of the family gets this time and the reuse reason and no other row changes, or, exactly if the clock is unset or behind one of them, an error and no change |
| SessionLifetimes.LogoutAnswersExactly | backend/internal/identity/application/operations.go:295-330 | The answer to a logout, and that a successful one stamps exactly the unrevoked sessions of the family, with the logout reason |
| SessionLifetimes.IssuedTokenRefreshesExactly | backend/internal/identity/application/operations.go:184-293 | The token a refresh issued can itself be used exactly within both lifetimes, on a clock not behind the refresh, if user, limiter, credential and signer agree |
| SessionLifetimes.LoginTokenRefreshesExactly | backend/internal/identity/application/operations.go:153-293 | So can the token of a login, for 30 days |
| RateLimit.Limiter.Check | backend/internal/identity/infrastructure/ratelimit/postgres.go:35-82 | Decides by the live events of the key; afterwards exactly the expired events of the key are gone and exactly an admitted check is added, expiring after one hour (registration) or 15 minutes |
| RateLimit.Limiter.ResetLoginEmailFailures | backend/internal/identity/infrastructure/ratelimit/postgres.go:84-100 | Deletes exactly the key's login failures |
| RateLimit.Limiter.CleanupExpired | backend/internal/identity/infrastructure/ratelimit/postgres.go:102-111 | Deletes exactly the expired events of all keys and counts them |
| RateLimit.Limiter.EarliestActiveExpiry | backend/internal/platform/database/sqlcgen/authentication_rate_limits.sql.go:117-125 | The least expiry of the live events, if any |
| RateLimit.PrunedDecidesLikeHistory | backend/internal/identity/infrastructure/ratelimit/postgres.go:50-77 | If no check of a key runs behind an earlier check of the key or a cleanup (cleanups may lag), every decision equals that of the unpruned history since the last reset |
| RateLimit.CleanupMovesTheClock | backend/internal/identity/infrastructure/ratelimit/postgres.go:102-111 | A check behind a cleanup is denied iff the events that outlive the cleanup, too, fill the limit |
| RateLimit.EarlyCleanupForgets | backend/internal/identity/infrastructure/ratelimit/postgres.go:102-111 | Under every policy a full burst is denied at its own instant, but admitted after a cleanup whose clock is a window ahead |
| RateLimit.AdmitsExactly | backend/internal/identity/infrastructure/ratelimit/postgres.go:53-77 | A check is admitted iff the Limit-th last admitted one is at least a window old |
| RateLimit.WindowIsRespected | backend/internal/identity/infrastructure/ratelimit/postgres.go:50-77 | Under the same condition any Limit + 1 consecutive admitted checks span at least the window |
| RateLimit.DenialLeavesNoTrace | backend/internal/identity/infrastructure/ratelimit/postgres.go:60-67 | A denied check changes no later decision about the key, whatever checks, resets and cleanups follow that do not run behind it |
| RateLimit.LoneRetryIsAdmitted | backend/internal/identity/infrastructure/ratelimit/postgres.go:60-67 | Under the same condition, after any load a denied client retrying alone after the announced delay is admitted |
| RateWindows.TableIsAWindow | backend/internal/identity/infrastructure/ratelimit/postgres.go:19-77 | After any load in which no check of the key runs behind an earlier one or a cleanup, the answer is number by number that of a plain sliding window over the granted checks since the last reset: 5, 30, 5 or 20 per 15 or 60 minutes, what remains, and the wait of at least a second |
| Paging.SelectPage | backend/internal/transaction/infrastructure/database/sqlcgen/transactions.sql.go:203-215 | Returns the newest eligible rows after the cursor, newest first, up to the limit |
| Paging.PageIsAsAsked | backend/internal/transaction/infrastructure/database/sqlcgen/transactions.sql.go:203-215 | A page, clause by clause: kind, first and last time, reversals and cursor as asked; descending by time, sequence and id; at most the limit; every fact left out though it fits is below Next |
| Paging.List | backend/internal/transaction/application/history.go:39-85 | Accepts exactly the written-out valid inputs of the owner; the page has 50 rows unless 1 to 100 are asked for; Next is present iff rows remain and is the last row shown; each record carries its direct correction as its own later statement reads it |
| Paging.LaterReadsAgree | backend/internal/transaction/application/history.go:78-85 | Such a later read gives the correction of the page's own moment, or one whose reversal and replacement came after that moment |
| Paging.WalkIsStable | backend/internal/transaction/application/history.go:67-85 | With commits between pages the walk descends strictly, repeats nothing, shows only matching rows and in the end has shown every matching row of the first ledger |
| Paging.WalkIsTheLedger | backend/internal/transaction/application/history.go:67-85 | Over a fixed ledger the finished walk is the filtered ledger in descending order |
| Paging.WalkEnds | backend/internal/transaction/application/history.go:67-85 | All pages but the last are full, so the number of pages is bounded by the ledger |
| Paging.RunsGrow | backend/internal/transaction/application/service.go:61-230 | Commands and archivals between two pages only add facts |
| Decimals.ScaledOfFromScaled | backend/internal/transaction/domain/decimal.go:56-95 | Every integer is written as a canonical string and read back |
| Decimals.FromScaledOfScaled | backend/internal/transaction/domain/decimal.go:56-95 | Every canonical string is read and written back unchanged |
| Decimals.EqualNumbersEqualStrings | backend/internal/transaction/domain/decimal.go:10-114 | Canonical strings are equal exactly when their numbers are |
| Decimals.ArithmeticIsExact | backend/internal/transaction/domain/decimal.go:97-108 | Add and Sub are exact on all integers and stay canonical |
| Decimals.ComparisonIsNumeric | backend/internal/transaction/domain/decimal.go:51-114 | Compare is zero exactly on equal strings; the sign tests read the sign of the number |
| Decimals.ComparisonIsSignOfDifference | backend/internal/transaction/domain/decimal.go:103-114 | Compare is the sign of what Sub returns |
| Decimals.ParseDecimal | backend/internal/transaction/domain/decimal.go:15-49 | Accepts exactly the grammar (and zero only if allowed) and returns the canonical string of the number denoted |
| Decimals.PrintedIsGrammatical | backend/internal/transaction/domain/decimal.go:15-49 | Parsing a printed non-negative value gives it back |
| Json.ObjectIsReadable | backend/internal/transaction/application/command.go:71-82 | With fixed member names the text of a JSON object determines every value in it, escapes included |
| Fingerprint.BrowserDecimal | apps/web/src/features/transaction/model/command-attempt.ts:4-5 | The browser's canonical decimal is the server's |
| Fingerprint.TimesAgree | apps/web/src/features/transaction/model/transaction-validation.ts:27-30 | The browser's canonical time is the server's printed instant |
| Fingerprint.IdentityIsMeaning | apps/web/src/features/transaction/model/command-attempt.ts:6-20 | The browser identifies two commands exactly when they mean the same |
| Fingerprint.PreimageIsMeaning | backend/internal/transaction/application/command.go:61-83 | The fingerprint's preimage separates exactly scope, target and meaning |
| Fingerprint.BrowserAndServerAgree | apps/web/src/features/transaction/model/command-attempt.ts:6-20 | For one scope and target, both draw the line between commands in the same place |
| Fingerprint.CommandAttempt.KeyFor | apps/web/src/features/transaction/model/command-attempt.ts:37-48 | The key stays while the command means the same and is new otherwise |
| Fingerprint.OneKeyOneMeaning | apps/web/src/features/transaction/model/command-attempt.ts:37-48 | Whatever was asked for in between, two commands under one key have one fingerprint |
| FormRequests.PreimageIsDigest | backend/internal/transaction/application/command.go:61-83 | The hashed text and the digest the ledger stores separate the same requests |
| FormRequests.FormRetryIsAnswered | apps/web/src/features/transaction/model/command-attempt.ts:22-48 | What the form sends again under one key, however spelled, create or correction, gets the first answer and writes nothing for as long as the key is kept, whatever was committed since |
| Fingerprint.CorrectionIdentityIsMeaning | apps/web/src/features/transaction/model/command-attempt.ts:22-35 | A correction's identity is its target and the meaning of the replacement |

## Left out

- Other portfolios: every statement of a ledger command is keyed by one portfolio, so a Book holds one.
- Random ids, tokens, keys and digests never repeat; each theorem that needs it says so as a freshness condition.
- SHA-256 and the token digest are taken to be injective; what is proved is about their preimages.
- Database faults inside a ledger command: they abort the transaction at any statement (an abort is a step of the interleaving) and are not outcomes of the one-step command.
- The 64-bit width of portfolio sequences, outbox positions and rate-limit counts, and the 32-bit page limit.
- The database's snapshot of each statement: a read sees all rows committed before it; the row locks and constraints used are those of the migrations.
- The library sort is represented by an insertion sort; the order is total on distinct ids, so every sort gives the same list.
- Audit records, logging, HTTP decoding, cookies, access tokens, passwords, registration of users and asset search.
- The batch deletion of expired idempotency keys by another process with its own clock.
- Delivery.Worker.Run: cycles are bounded by a parameter where the source loops until an error or cancellation.
- Delivery.Worker.Deliver: the contexts' deadlines appear as the result of the call and as faults of the statement.
- Outbox.Store.Append: the patterns for event types, payload references and correlation ids are not modelled.
- Outbox.Store.ClaimDue: the order in which the claimed rows are returned is arbitrary, as the statement leaves it.
- Consumers of events: the repository has only the deduplication marker.
- Sessions.Store.Refresh: user lookup, rate limit, credential and signing appear as flags read from the surroundings; network hash and user agent of a session are not modelled.
- Statement-level interleavings of a refresh with a family revocation: the row lock is per session, so family claims are about transactions taken one at a time.
- Rate-limit guarantees over runs in which a key's own clock runs backwards.
- Fingerprint.CommandAttempt.KeyFor: CorrectionAttempt differs only in the identity it compares, whose meaning is proved separately.
- Fingerprint.TimesAgree: a second of UTC time is identified with its nineteen-character text; calendar arithmetic is not modelled.
- Asset ids are in the server's spelling on both sides; the browser compares them as typed.
- Fingerprint.BrowserAndServerAgree: texts with an unpaired surrogate. The form accepts them and the server's decoder turns each into U+FFFD, so notes that differ only there have two identities and one fingerprint; a Dafny character cannot be a surrogate.
- Fingerprint.IdentityIsMeaning: the same texts with an unpaired surrogate are left out.
