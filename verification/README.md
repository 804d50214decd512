# A flash sale's reservation protocol, verified

The system sells a limited stock to more buyers than it has units for. A buyer is admitted from a waiting
room, checks out against a counter in Redis, and the attempt travels through Kafka to decision-service,
which reserves or rejects it in Postgres. Reservations that are not paid for expire, and expiry-worker gives
their units back. risk-service scores the joins on the side. This project models that protocol in Dafny and
proves what it is for: stock is never oversold, an attempt takes effect once however often it is delivered,
no attempt is lost, and units and admissions go back where they came from.

`dafny verify dfyconfig.toml` checks everything.

## How it is built

Each concurrent part is a state machine over its single statements, commands or channel operations, with
every interleaving and failure allowed; each sequential part is a class or a method with the source's loops,
proved against a function, about which the laws are then proved.

- `Tables`: the two tables with their constraints, and what one decision (`Decide`) or expiry (`Expire`)
  does when it runs alone. `Database`: the same operations as methods, failing at any statement.
- `Transactions`: any number of transactions, statement by statement. A transaction's writes are private
  until COMMIT; the row locks it holds follow from the statements it has run. Any transaction may abort at any
  point, and a COMMIT may take effect while its acknowledgement is lost. `Alone`: its runs are not vacuous.
  `Provenance`: which decision wrote a row, and that no reservation expires early. `Deliveries`: exactly-once
  effect.
- `Retry`, `Consume`, `Verdicts`, `Broker`: backoff arithmetic in 64 bits, the handling of one message, what each
  reply of Postgres means for it, and the consumer over a log with a committed offset, crashing and restarting
  anywhere.
- `FastPath`, `Checkouts`, `Reconcile`: Redis, one checkout, all checkouts at once with a ledger of where
  every unit and admission has gone, and the pass that overwrites counters from Postgres.
- `Sweep`, `Draining`, `Workers`, `Backlog`: rounds of expiry, how they drain the backlog, the worker pool with
  its bounded channel and shutdown, and that the pool drains as the rounds do.
- `Admission`: the waiting room's loop. `Windows`, `Risk`: sliding windows in Redis, and the risk score.
- `EndToEnd`: checkouts and transactions joined by the log.
- `Sums`: options, and sums over finite maps.

## Choices of the model

- Deadlock, serialization failure and lost connection are all an abort; deadlock freedom is not claimed, since
  decisions and expiries take their locks in different orders. The foreign key's KEY SHARE lock is compatible
  with the locks taken here and is not modelled.
- UUIDs are numbers chosen by the environment: a reservation id is unlike any stored or pending one, and an id
  not yet committed is known only to its own transaction. Clock readings (`now()` of a transaction, `time.Now`,
  Redis's clock) are parameters, as whole numbers. Quantities are unbounded; INTEGER columns refuse more than
  2^31 - 1.
- A Postgres reply that reports an error is told apart from no reply at all, as `isConnectivityError` does. A
  Redis command may be lost before or after it takes effect. A publish that reports failure may have been
  written; `Checkouts` counts those cases apart (`phantom`, `ghosts`).
- A Redis command takes effect at most once. `internal/redisx/client.go` sets no MaxRetries, and the client library
  then repeats a command whose reply was lost: a repeated INCRBY or decrement script is not in the model.
- Members of the user window are pairs of item and time, where the source joins them into one string. Hosts are
  what is left of an address without its port.
- After SIGTERM every ExpireReservation call runs with a cancelled context: one begun before may still fail or
  take effect, one begun after can only fail at BeginTx.

## Where code and documentation differ

The model follows the code.

- A replayed attempt is answered with the row's current status, not always the original one
  (`internal/decision/processor.go:48-53` against `138-157`): with `expired` exactly if an expiry released the
  reservation in between (`Deliveries.LaterDeliveriesReplay`, `Deliveries.ReplayedStatusCanChange`).
- `attemptCount` starts at 0 (`cmd/decision-service/main.go:197`), where `internal/retry/policy.go:35-37` counts
  from 1: without a MaxElapsed, exactly MaxAttempts retries follow the first call (`Consume.RetriesExactly`), and
  with one, as the default policy has, at most as many (`Consume.BoundedRetry`).
- Time lost to outages counts against MaxElapsed although outages count as no attempt, so they change what becomes
  of a message under every policy that sets MaxElapsed, and under no other (`Consume.OutageInsensitiveExactly`).
- The backoff's comment promises a cap; for a base or cap beyond 2^62 ns the doubling can wrap around and
  return a negative wait (`Retry.BackoffIsExponential` says exactly when).
- Reconciliation promises that Redis says what Postgres says. A request that holds units at a reseed can give them
  back on top; the counter stays within what Postgres said exactly if none does (`Checkouts.ReseedBoundsExactly`).
- A token promises one checkout. A publish that is reported as failed is compensated with another token, although
  the attempt may have been written: one such write, and one grant is good for two attempts
  (`Checkouts.AdmissionBoundIsExact`).
- The worker pool promises to finish in-flight jobs on SIGTERM. It handles them, but every call uses the
  cancelled context: a job still in the channel releases nothing, and one already with a worker may fail
  (`Workers.ShutdownLeavesReserved`, `Workers.InFlightLeavesReserved`). Only what is settled at the signal is
  sure to be settled at the end (`Workers.ShutdownPromises`).
- A sliding window's key expires after twice the window: for events in order, counts are right exactly as long as
  processing falls behind by at most a window from one event of a key to the next (`Windows.DelayBoundIsExact`).
  Events that come a single unit of time late are told too low a count (`Windows.LatenessIsExact`).

## Model

| member | source | states |
|---|---|---|
| `Tables.DecideWrites` | internal/decision/processor.go:120-135 | a new attempt on a known item, with a quantity from 1 to 2^31 - 1, adds exactly one row, field by field: reserved with the attempt's own deadline while available >= quantity, which is taken off, and rejected with no deadline, taking nothing, otherwise |
| `Tables.DecideRefuses` | internal/decision/processor.go:98-157 | every other attempt changes nothing and is told which it was: bad quantity, unknown item, an error of Postgres, or a repeat, which is told the stored id and status |
| `Tables.ExpireWrites` | internal/expiry/processor.go:90-116 | on sound tables a row expires if and only if it is reserved and its deadline is strictly past; exactly its status changes and exactly its quantity goes back |
| `Tables.OnlyOverdueReleased` | internal/expiry/processor.go:90-106 | on any tables at all, a release implies a reserved row strictly past its deadline |
| `Tables.ApplyKeepsWf` | migrations/000003_create_reservations.up.sql:26-43 | a decision and an expiry, each run alone, keep every constraint of both tables (bounds, foreign key, unique index, reserved rows have an expiry) and add or remove no item |
| `Tables.ApplyConserves` | internal/decision/processor.go:120-172 | run alone, either operation leaves `available_inventory` plus the quantities of the item's reserved rows unchanged, and the total too |
| `Tables.UptoConserves` | internal/decision/processor.go:120-172 | the same for every sequence of operations, by induction |
| `Tables.ApplySound` | internal/expiry/processor.go:90-116 | either operation keeps the databases in which no item has more units out than its total |
| `Tables.ReleaseFits` | internal/expiry/processor.go:108-113 | the units of any reserved row fit back under `available <= total`, so the releasing UPDATE cannot trip that CHECK |
| `Database.SufferIsAllOrNothing` | internal/decision/processor.go:108-178 | a call whose statement fails has changed nothing, one whose acknowledgement is lost has changed everything, and any other is answered |
| `Database.DecisionFaultsStrike` | internal/decision/processor.go:108-178 | which statements a decision runs, read off the answer it would give: lookup only on a repeat, decrement only on a new reservation, COMMIT on every decision |
| `Database.ExpiryFaultsStrike` | internal/expiry/processor.go:83-123 | the same for an expiry |
| `Database.Postgres.ProcessAttempt` | internal/decision/processor.go:97-179 | statement by statement with a failure at any one of them: the new tables and the reply are those of the atomic decision, or no change and an error, or (acknowledgement lost) the whole change and an error |
| `Database.Postgres.ExpireReservation` | internal/expiry/processor.go:81-123 | the same for an expiry |
| `Database.Postgres.FindExpiredReservations` | internal/expiry/processor.go:27-55 | for a positive limit and a query that answers, the `limit` earliest-expiring reserved rows, oldest first, without repeats, and all of them if there are fewer; an error otherwise |
| `Transactions.CommitIsAtomic` | internal/decision/processor.go:163-179 | what a transaction wrote piecemeal and answers at COMMIT is what the whole operation does and answers on the tables as they are at that moment |
| `Transactions.CommitSpares` | internal/decision/processor.go:108-135 | a COMMIT invalidates nothing that any other live transaction has read or is about to write, because of the row locks each holds |
| `Transactions.StatementReads` | internal/decision/processor.go:108-172 | every statement either ends its transaction in an error or leaves it agreeing with the committed tables |
| `Transactions.StatementTakes` | internal/expiry/processor.go:90-116 | every statement takes only locks and ids that no other live transaction has |
| `Transactions.NextKeepsInv` | internal/decision/processor.go:97-179 | every step of every transaction keeps the invariant of the whole system |
| `Transactions.Serializable` | internal/decision/processor.go:97-179 | for every interleaving of any number of decisions and expiries with aborts anywhere and lost acknowledgements: the committed tables are those of running the recorded transactions one at a time in commit order |
| `Transactions.AnswersAreSerial` | internal/decision/processor.go:146-179 | and every recorded answer is the one given in that serial run |
| `Transactions.AnswersAreRecorded` | internal/expiry/processor.go:81-123 | and every answer a caller received is recorded, once, for what that caller asked |
| `Transactions.NeverOversold` | internal/decision/processor.go:120-172 | in every reachable state an item's available plus reserved units are what they were at first, and both lie between 0 and its total |
| `Transactions.ChecksNeverTrip` | migrations/000002_create_items.up.sql:21-26 | in no reachable state would a decrement or a release violate a CHECK on `available_inventory` |
| `Transactions.InsertNeverWaits` | internal/decision/processor.go:108-135 | two live decisions on one item are never both past the item lock, so an INSERT never meets another's uncommitted key |
| `Alone.DecideAlone` | internal/decision/processor.go:97-179 | from every system with nothing live, whatever ran before, some run of its statements brings a decision to its end with exactly the atomic operation's tables, answer and entry in the history (the machine does not hold vacuously) |
| `Alone.ExpireAlone` | internal/expiry/processor.go:81-123 | the same for an expiry |
| `Provenance.RowsCarryTheirDecision` | internal/decision/processor.go:122-135 | in every interleaving, every row that was not there at first carries the item, user, quantity and key of a recorded decision, and its deadline exactly if that decision was answered `reserved` |
| `Provenance.ReleasesAreOverdue` | internal/expiry/processor.go:90-116 | in every interleaving, every recorded release comes strictly after the deadline recorded with the earlier decision that reserved the row, and gives back that decision's item and quantity |
| `Provenance.NotReleasedWasNotOverdue` | internal/expiry/processor.go:90-106 | and an expiry answered `not released` found, at its place in the serial order, no reserved row past its deadline |
| `Provenance.ScanIsOverdue` | internal/expiry/processor.go:32-37 | by the columns themselves: a scan has only reserved rows strictly past their deadlines, in order, and one it leaves out means that it is full, of rows no younger |
| `Deliveries.DecisionStays` | internal/decision/processor.go:127-157 | once an attempt is recorded, its key points to the same reservation id for ever |
| `Deliveries.RedeliveryIsReplay` | internal/decision/processor.go:138-157 | a redelivery changes nothing and answers that id with the row's current status |
| `Deliveries.ExactlyOnce` | internal/decision/processor.go:127-178 | for every interleaving with duplicated deliveries, lost acknowledgements, aborts and expiries: the tables, and the answers to first deliveries, are those of the run that delivers each attempt once |
| `Deliveries.ReplayAnswers` | internal/decision/processor.go:138-157 | in every sequence of operations, a redelivery answers the first one's id with the status answered first, or `expired` exactly if an expiry released that reservation in between |
| `Deliveries.LaterDeliveriesReplay` | internal/decision/processor.go:138-157 | so does every later delivery in every interleaving, judged by the answers recorded between the two |
| `Deliveries.ReplayedStatusCanChange` | internal/decision/processor.go:138-157 | an interleaved run in which one request is answered `reserved` and its redelivery `expired` |
| `Retry.NextBackoff` | internal/retry/policy.go:57-78 | the loop returns the specified doubling, with 64-bit wrap-around |
| `Retry.BackoffIsExponential` | internal/retry/policy.go:57-78 | it is min(base * 2^(n-1), cap) for every n if and only if the first doubling that reaches the cap fits 64 bits |
| `Retry.ModestPolicyFits` | internal/retry/policy.go:57-78 | base below and cap up to 2^62 ns are enough for that |
| `Retry.BackoffCanWrap` | internal/retry/policy.go:57-78 | a policy whose second backoff is negative |
| `Retry.BackoffOfPolicy` | internal/retry/policy.go:57-78 | the same of a policy's own fields, where a base or cap that is not positive counts as 1 s or 30 s |
| `Retry.BackoffGrows` | internal/retry/policy.go:57-78 | without wrap-around, backoffs are positive, never shrink with n, and stay within the cap |
| `Retry.TotalSleepBounds` | cmd/decision-service/main.go:230-235 | the sleep over n counted retries is at most base * (2^n - 1) and at most n * cap |
| `Retry.DefaultSleepsThirtyOneSeconds` | internal/retry/policy.go:26-33 | the default policy's five retries sleep exactly 31 s |
| `Consume.HandleMessage` | cmd/decision-service/main.go:196-239 | the inner loop calls ProcessAttempt on the real tables and ends exactly as the recursive account of the results says, after exactly that many calls |
| `Consume.ReachStep` | cmd/decision-service/main.go:208-238 | one more result either ends the message or gives attemptCount, uncountedRetries and the elapsed time their next values |
| `Consume.CommittedMeansDecided` | cmd/decision-service/main.go:209-212 | a message that ends in an offset commit has its reservation row |
| `Consume.OneEffect` | cmd/decision-service/main.go:199-204 | however often one message is tried, under any failures, the tables change at most once and as one of the calls alone would change them |
| `Consume.BoundedRetry` | cmd/decision-service/main.go:196-239 | with MaxAttempts > 0 one message sees at most MaxAttempts + 1 errors from Postgres, and at most MaxAttempts while it is still being retried |
| `Consume.RetriesExactly` | cmd/decision-service/main.go:196-239 | and with MaxElapsed = 0 a message that meets only Postgres errors and outages is given up at exactly its (MaxAttempts + 1)-st Postgres error, recorded as MaxAttempts attempts, and retried until then |
| `Consume.DeadLetterCounts` | cmd/decision-service/main.go:214-218 | the attempt count in a dead letter is the number of Postgres errors before the last call |
| `Consume.RetryEnds` | cmd/decision-service/main.go:142-156 | the loop has ended as soon as more than MaxAttempts of its calls were not connectivity failures |
| `Consume.OutageNeverEnds` | cmd/decision-service/main.go:167-170 | the call that ends a message is a success, bad data or a Postgres error, never a connectivity failure |
| `Consume.OutageInsensitive` | cmd/decision-service/main.go:142-170 | with MaxElapsed = 0, leaving out all connectivity failures changes neither the disposition nor the recorded attempt count |
| `Consume.OutageOnlyHastens` | cmd/decision-service/main.go:207-239 | with MaxElapsed set, a message committed despite outages is committed without them too |
| `Consume.OutageCanDeadLetter` | cmd/decision-service/main.go:207-239 | but not the converse: for every policy with MaxElapsed set, an outage that long turns a failure that would be retried, and then succeed, into a dead letter |
| `Consume.OutageInsensitiveExactly` | cmd/decision-service/main.go:142-170 | outages never change what becomes of a message if and only if MaxElapsed is not set |
| `Verdicts.VerdictOfReply` | cmd/decision-service/main.go:142-170 | from what Postgres replied: bad data is given up at once, no reply at all is retried uncounted, any other error is retried while both caps leave room and given up otherwise, and an answer is committed |
| `Verdicts.OutcomeAt` | cmd/decision-service/main.go:200-239 | the first verdict that is not a retry ends the message, where the attempt count is the errors so far and the elapsed time is all calls and all backoffs so far, each on its own curve |
| `Verdicts.ReplyDecides` | cmd/decision-service/main.go:142-239 | for every policy and every call that HandleMessage makes, what the reply to that very call does to the message |
| `Verdicts.PgErrorsAreBounded` | cmd/decision-service/main.go:142-156 | with MaxAttempts > 0, at most MaxAttempts + 1 of the replies to one message's calls are errors of Postgres |
| `Verdicts.PgErrorsGiveUp` | cmd/decision-service/main.go:142-156 | and with MaxElapsed = 0, a message that meets only those and outages is dead-lettered at exactly that many, and retried until then |
| `Verdicts.PerformReserves` | cmd/decision-service/main.go:201-206 | a call answered as a new reservation leaves a row with this attempt's fields and the deadline now + TTL |
| `Broker.NextKeepsInv` | cmd/decision-service/main.go:176-281 | every step of consumer, broker and environment keeps the invariant |
| `Broker.NoMessageLost` | cmd/decision-service/main.go:176-281 | over all crashes, restarts, failed offset commits and failed dead-letter publishes: each offset below the committed one has its reservation row or was passed to sendToDeadLetter, and every dead letter is bad data or a Postgres error the policy does not retry |
| `Broker.ConsumerGroup.RunConsumeLoop` | cmd/decision-service/main.go:176-241 | the loop's tables, committed offset and dead letters are those of handling the log message by message from the committed offset |
| `Broker.DeliverKeeps` | cmd/decision-service/main.go:176-241 | handling one message leaves every offset before the next one handled, and the committed offset not beyond it |
| `Broker.LoopLosesNothing` | cmd/decision-service/main.go:176-241 | so does the whole loop, from any restart |
| `Broker.DeliverExactly` | cmd/decision-service/main.go:188-239 | one message: a success or dead letter moves the position, the committed offset too if its commit is acknowledged, and only a message given up or unparseable becomes a dead letter |
| `Broker.CommittedIsLastAcknowledged` | cmd/decision-service/main.go:277-281 | after the loop, in every environment, the committed offset is one past the last finished message whose commit was acknowledged, or the old one if there is none |
| `Broker.AllAcknowledged` | cmd/decision-service/main.go:277-281 | if every commit is acknowledged, nothing that is passed remains to be redelivered |
| `Broker.LoopAdvances` | cmd/decision-service/main.go:176-241 | n deliveries that are not cut short pass the next n messages, or all there are |
| `Broker.LoopCommitsAll` | cmd/decision-service/main.go:176-241 | so that, with every commit acknowledged, the committed offset comes to the end of the log |
| `Broker.DeadExactly` | cmd/decision-service/main.go:189-219 | after the loop an offset is dead-lettered if and only if it was before, or its message was unparseable or given up |
| `Broker.TryMoves` | cmd/decision-service/main.go:208-238 | in the machine with crashes, where each kind of reply takes the message |
| `Broker.CommitMoves` | cmd/decision-service/main.go:277-281 | in the machine with crashes, an acknowledged commit sets the offset past its message, and a crash and restart resume there |
| `FastPath.RedisStore.SeedInventory` | internal/redisx/inventory.go:44-49 | a negative count or lost SET is an error; the SET replaces the counter |
| `FastPath.RedisStore.TryDecrementInventory` | internal/redisx/inventory.go:68-86 | check and subtract are one step; a non-positive quantity changes nothing, a lost reply leaves the effect unknown to the caller |
| `FastPath.RedisStore.ReleaseInventory` | internal/redisx/inventory.go:92-97 | adds the quantity, from zero if the key is missing; a non-positive quantity or a missing reply is an error |
| `FastPath.RedisStore.GrantAdmission` | internal/redisx/tokens.go:18-23 | sets or replaces the token with its deadline; a time to live that is not positive or a missing reply is an error |
| `FastPath.RedisStore.ConsumeAdmission` | internal/redisx/tokens.go:31-40 | reports whether an unlapsed token was there, and leaves none |
| `FastPath.RedisStore.ReleaseAndRegrant` | cmd/checkout-api/main.go:270-277 | gives the units back and then the token, each although the other fails |
| `FastPath.RedisStore.HandleCheckout` | cmd/checkout-api/main.go:185-264 | the handler's body refines the command-by-command machine: same Redis, same response, same record in the log, for every failure |
| `FastPath.AcceptedTakesUnits` | cmd/checkout-api/main.go:207-263 | an accepted request used up an unlapsed token, took exactly its units from enough of them, is in the log, and changed nothing else |
| `FastPath.CompensationRestores` | cmd/checkout-api/main.go:230-252 | a request that could not be published leaves every counter as it found it and the buyer with a new token |
| `FastPath.RefusedExactly` | cmd/checkout-api/main.go:189-263 | when its first two commands are answered: which of the seven responses a request gets, each if and only if; one refused for its token or its units changes no counter, and its token is spent |
| `FastPath.UnansweredExactly` | cmd/checkout-api/main.go:207-228 | what a command without a reply leaves: a server error, nothing written, and the token or the units gone exactly if the command took effect |
| `FastPath.CompensationExactly` | cmd/checkout-api/main.go:270-277 | the counter and token after a failed publish, however each step of the compensation fares |
| `Checkouts.CommandMovesUnits` | cmd/checkout-api/main.go:207-277 | one command takes from the counter exactly what the request then holds, publishes or strands |
| `Checkouts.CommandSpendsAdmissions` | internal/redisx/tokens.go:31-40 | one command never yields more attempts, requests under way and tokens than it found, save by a write reported as failed |
| `Checkouts.FastPathConserves` | cmd/checkout-api/main.go:207-277 | in every interleaving of any number of handlers, reseeds, grants and handler deaths: seeded value + units the handlers held then = counter + published + held + stranded units, less publishes written though reported as failed; the counter is never negative |
| `Checkouts.AdmissionEnforced` | cmd/checkout-api/main.go:207-252 | per item and user: written attempts + checkouts under way + token <= grants + writes reported as failed |
| `Checkouts.UnknowingWriteBuysAnother` | cmd/checkout-api/main.go:270-277 | for every item and user a run with one grant, one write reported as failed, and two attempts |
| `Checkouts.AdmissionBoundIsExact` | internal/redisx/tokens.go:25-40 | for every g: all reachable states with at most g writes reported as failed have no more attempts than grants if and only if g <= 0 |
| `Checkouts.ReseedBoundsExactly` | cmd/checkout-api/main.go:107-139 | in every reachable state: after a reseed with what Postgres says, every continuation up to the next reseed and without an unknowing write keeps the counter within it, if and only if no request holds units of the item at the reseed |
| `Checkouts.HoldingHappens` | cmd/checkout-api/main.go:207-228 | requests do hold units in some reachable state |
| `Checkouts.BooksExactly` | cmd/checkout-api/main.go:207-277 | the ledger books units as published exactly if the attempt comes to be in the log, and as stranded exactly what left the counter and the request's hands otherwise |
| `Reconcile.ActiveItemIDs` | internal/reconcile/reconcile.go:75-95 | exactly the scheduled and on-sale items, in ascending order |
| `Reconcile.Item` | internal/reconcile/reconcile.go:51-67 | overwrites the counter with the committed `available_inventory`, or reports which step failed |
| `Reconcile.All` | internal/reconcile/reconcile.go:114-126 | one outcome per listed item in order, whatever fails for the items before it |
| `Reconcile.PassAgrees` | internal/reconcile/reconcile.go:114-126 | after any part of a pass, items outside it are untouched and every error-free one agrees with Postgres |
| `Reconcile.PassReconciles` | internal/reconcile/reconcile.go:97-126 | from any drift: every item whose outcome has no error is in Redis what it is in Postgres, every inactive item's counter is untouched |
| `Reconcile.PassIsIdempotent` | internal/reconcile/reconcile.go:114-126 | after an error-free pass another pass changes nothing, whatever fails in it |
| `Reconcile.ItemExactly` | internal/reconcile/reconcile.go:51-67 | no error if and only if the item exists, its read works and the SET is answered, for every count, zero included; which error otherwise, and when the counter is overwritten all the same |
| `Reconcile.OutcomeExactly` | internal/reconcile/reconcile.go:114-126 | the same for the k-th outcome of a pass, which then reports the item's count in Postgres |
| `Reconcile.PassExactly` | internal/reconcile/reconcile.go:114-126 | after any part of a pass exactly the items whose SET reached Redis have Postgres's count, and every other counter is what it was |
| `Reconcile.UndisturbedPassAgrees` | internal/reconcile/reconcile.go:97-126 | a pass that nothing disturbs reports no error and makes every scheduled or on-sale item's counter Postgres's count |
| `Reconcile.ListingExactly` | internal/reconcile/reconcile.go:75-95 | the listing has an id if and only if its sale is scheduled or on, each once, by ascending id |
| `Draining.SweepStep` | internal/expiry/processor.go:90-116 | one expiry on tables with rows s already expired gives the tables with one more; expiring a row again gives the same tables |
| `Draining.SweepIsNamed` | cmd/expiry-worker/main.go:136-151 | in any order and with any duplicates, the workers' expiries of scanned rows give exactly the tables with those rows expired and their quantities given back |
| `Draining.ScanSize` | internal/expiry/processor.go:27-55 | a scan finds min(expired rows, limit) of them |
| `Draining.ScanDrains` | internal/expiry/processor.go:27-55 | a scan takes the earliest of what is left, as many as its limit |
| `Draining.RoundProgress` | cmd/expiry-worker/main.go:104-151 | a round with failures expires only rows of the backlog |
| `Draining.RoundsHitRows` | cmd/expiry-worker/main.go:104-151 | whatever calls fail, any rounds leave the tables as if the rows they hit had expired at once, with exactly their quantities given back |
| `Draining.RoundsExpireOldest` | cmd/expiry-worker/main.go:104-151 | with n expired rows and nothing falling due, k rounds of limit L without failures expire exactly min(n, k * L) rows, the earliest-expiring |
| `Draining.ExpiryDrains` | internal/expiry/processor.go:27-55 | once ceil(n / L) rounds were without failures, among any number of others, no expired row is left, and the tables are as if all n had expired at once |
| `Draining.ExpireAll` | cmd/expiry-worker/main.go:136-151 | a worker's loop over one batch, each call failing or not: the tables are those after the expiries that took effect |
| `Draining.RunScanner` | cmd/expiry-worker/main.go:104-129 | with one worker in turn: the scanner's loop, each tick's scan and expiries failing or not, performs the rounds that the results above are about: one per scan that answers, clean if nothing fails in it |
| `Backlog.PoolExpiresOldest` | cmd/expiry-worker/main.go:104-151 | any schedule of scanner, channel and workers without failures, each scan finding the batch before it handled: with nothing on the way after k scans, exactly min(n, k * L) rows are expired, the earliest-expiring, and nothing else changed |
| `Backlog.PoolDrains` | cmd/expiry-worker/main.go:104-151 | so after ceil(n / L) scans of the pool no expired row is left |
| `Workers.NextConserves` | cmd/expiry-worker/main.go:104-151 | every step of scanner, workers, shutdown or other services keeps the job accounting |
| `Workers.JobsAreConserved` | cmd/expiry-worker/main.go:67-81 | in every reachable state the channel is within its capacity and first in, first out, and copies of an id sent = buffered + in workers' hands + handled |
| `Workers.WaitMeansAllHandled` | cmd/expiry-worker/main.go:77-81 | with at least one worker, once all have exited every id was handled exactly as often as it was sent |
| `Workers.DuplicatesReleaseOnce` | internal/expiry/processor.go:90-106 | however often an id is sent and whoever else expires it, the pool releases it at most once, its row is then expired, and some worker received it before SIGTERM |
| `Workers.LateJobReleasesNothing` | cmd/expiry-worker/main.go:136-141 | a job received after SIGTERM changes no table and releases nothing |
| `Workers.AnsweredMeansSettled` | cmd/expiry-worker/main.go:136-151 | if no call fails before SIGTERM, every reservation whose call returned before SIGTERM is no longer reserved, then and ever after |
| `Workers.SettledExactlyIfReleased` | internal/expiry/processor.go:90-116 | with no other service in between, a sent reservation is no longer reserved if and only if the pool released it |
| `Workers.ShutdownPromises` | cmd/expiry-worker/main.go:72-78 | at SIGTERM a reservation is sure to be settled when all workers have exited, whatever becomes of the calls then under way, if and only if it is settled already |
| `Workers.CanAbandon` | cmd/expiry-worker/main.go:136-151 | from every state after SIGTERM the pool can shut down without releasing anything more |
| `Workers.ShutdownLeavesReserved` | cmd/expiry-worker/main.go:72-78 | a run in which a job still in the channel at SIGTERM is handled and its row is still reserved |
| `Workers.InFlightLeavesReserved` | cmd/expiry-worker/main.go:136-141 | a run in which the same becomes of a job that a worker had received before SIGTERM |
| `Workers.LateJobsChangeNothing` | cmd/expiry-worker/main.go:136-141 | after SIGTERM, once the jobs begun before it are over, the pool changes no table whatever it still handles |
| `Admission.Admitter.Run` | internal/admission/admitter.go:127-157 | the select loop's queue, positions, admissions and depth replies are those of the event-by-event account |
| `Admission.FirstComeFirstServed` | internal/admission/admitter.go:127-157 | over all joins, ticks and depth queries: those admitted are a prefix of those who joined and the queue is the rest; positions are 0, 1, 2, ...; nextPosition = admitted + queued; every depth answered is joined less admitted |
| `Admission.AdmittedAtItsTick` | internal/admission/admitter.go:143-148 | a buyer who joins behind q others has been admitted exactly when q + 1 ticks have been received since, and is then admitted in its own position |
| `Windows.SortedSets.SlideAndCount` | services/risk-service/risk_window.py:53-64 | the four commands on one key, as a unit that may be lost before or after it takes effect: add, evict up to the cutoff, refresh the time to live, count |
| `Windows.AfterIsFaithful` | services/risk-service/risk_window.py:53-64 | for in-order visits whose delay grows by at most a window each time, the stored set is what a set that never lapsed would hold: every member whose last visit is later than the cutoff, with that time |
| `Windows.LapseLosesNothing` | services/risk-service/risk_window.py:56-64 | when the key has lapsed, everything it held would have been evicted by this visit anyway |
| `Windows.WindowHolds` | services/risk-service/risk_window.py:53-64 | the set's members are then exactly those with a visit later than now less the window |
| `Windows.WindowAgrees` | services/risk-service/risk_window.py:67-94 | and each count is the number of distinct members whose latest visit in the full history is strictly later than now less the window |
| `Windows.KeyExpiryCanShow` | services/risk-service/risk_window.py:56-64 | for every window, delay growing by one unit more than the window makes a count too low |
| `Windows.DelayBoundIsExact` | services/risk-service/risk_window.py:56-64 | for in-order visits whose delay grows by at most d each time, all counts are right if and only if d is at most the window |
| `Windows.OrderMatters` | services/risk-service/risk_window.py:53-64 | for every window, a visit one unit of time late is told too low a count |
| `Windows.LatenessIsExact` | services/risk-service/risk_window.py:53-64 | all counts are right whatever the visits, each at most l behind an earlier one, if and only if l is at most 0 |
| `Risk.RampShape` | services/risk-service/scoring.py:37-56 | a ramp is in [0, 1], is 1 exactly from its threshold on, and leaves 0 with the second occurrence |
| `Risk.ScoreShape` | services/risk-service/scoring.py:59-72 | a score is in [0, 1] and is 1 if and only if one of the counts has reached its threshold; a threshold that is not positive is an error |
| `Risk.ScoreMonotone` | services/risk-service/scoring.py:59-72 | more joins or more users never lower the score |
| `Risk.RampExactly` | services/risk-service/scoring.py:37-56 | between the first occurrence and the threshold a ramp is the straight line from 0 to 1 |
| `Risk.ScoreIsTheWorse` | services/risk-service/scoring.py:70-72 | a score is the larger of the two ramps, and no other mixture of them |
| `Risk.ScoreCache.SetRiskScore` | services/risk-service/redis_client.py:24-32 | the score is stored under item and user with its expiry; a time to live that is not positive or a score outside [0, 1] is refused and changes nothing |
| `Risk.ProcessEvent` | services/risk-service/consumer.py:43-67 | the user's window is updated, then the host's unless that failed, before the score is computed or refused, and then cached; a reply that does not arrive is an error |
| `Risk.OutcomeExactly` | services/risk-service/consumer.py:43-67 | an event is scored if and only if both windows answer, thresholds and time to live are positive and the cache answers |
| `Risk.RecordedExactly` | services/risk-service/consumer.py:64-67 | and its score is in the cache, until its time to live has passed, exactly if it was computed and its SET reached Redis |
| `Risk.WindowsHoldVisits` | services/risk-service/consumer.py:46-51 | whatever fails, every key holds what the visits that reached it, from the first event on, leave |
| `Risk.Run` | services/risk-service/consumer.py:70-126 | since a restart at any point, with the windows as earlier runs left them, every event is scored by its two windows over all events from the first, the cache holds what these scores leave, and an event that fails does not stop the loop |
| `Risk.ToldIsHistory` | services/risk-service/consumer.py:43-54 | the two counts are the user's joins and the host's distinct users in the history within the window |
| `Risk.SeenOfUser` | services/risk-service/risk_window.py:67-80 | a user's count is of joins, each with its item and time, so that none hides another |
| `Risk.SeenOfHost` | services/risk-service/risk_window.py:83-94 | a host's count is of users: one who joins again counts once |
| `Risk.ScoreGrowsWithHistory` | services/risk-service/consumer.py:43-67 | inserting any earlier join anywhere into an in-order history, however it fares, never lowers a later event's score |
| `EndToEnd.WrittenIsCounted` | cmd/checkout-api/main.go:238-252 | the admission ledger counts exactly the attempts that the checkouts write to the log |
| `EndToEnd.RowsComeFromLog` | internal/decision/processor.go:127-135 | in every interleaving that asks only for attempts in the log, every reservation row is the record of one of them |
| `EndToEnd.RowsAtMostRecords` | migrations/000003_create_reservations.up.sql:42-43 | rows with distinct idempotency keys each take a record of the log for themselves |
| `EndToEnd.ReservationsWithinAdmissions` | internal/redisx/tokens.go:31-40 | over every interleaving of checkouts and of transactions fed from what they wrote, in any order and with any duplicates: a user's reservations for an item are at most the tokens granted, plus publishes written though reported as failed |
| `EndToEnd.WrittenAttemptsAreAnswered` | cmd/decision-service/main.go:176-281 | every attempt a checkout wrote has its row or was handed to the dead-letter queue once its offset is below the committed one, over all crashes, restarts and other transactions |

## Left out

- HTTP routing, JSON, status codes, health endpoints, metrics and logging: plumbing around the calls modelled here.
- Malformed UUIDs in a decoded message: Postgres would refuse them as it refuses an oversized quantity.
- Kafka, Redis and Postgres clients, pooling and timeouts: only the commands, offsets and locks they carry are modelled.
- Partition balancing and rebalancing: one partition has one consumer at a time here; two consumers deciding on one item are covered by `Transactions`.
- Payment, `completed`, `cancelled` and `orders`: no service in the repository performs these transitions.
- The queue-depth cache, reading the risk-score cache, key formatting, configuration, `extract_host` and the admitter registry: only easy facts.
- Cancellation of Join and Depth by their callers: the loop never learns of it, and the model has only what reaches the loop.
- The waiting queue and the jobs channel across a restart: both are in memory and start empty.
- A Redis command repeated by the client library; 64-bit overflow of Redis counters and the script's double-precision numbers; floating-point rounding of scores and timestamps.
- Liveness and latency in wall-clock time: ticks, clocks and scheduling are inputs, so the results say what holds after so many ticks, rounds or calls.
- Draining.RunScanner: runs the scanner and one worker in turn, with failures; `Backlog` has every schedule of scanner, channel and pool, without failures and without a scan that overlaps the batch before it.
- Draining.RoundsExpireOldest: takes a round's scan and expiries as one block, with no row falling due and no other service's transaction in between.
- Workers.AnsweredMeansSettled: supposes that no call fails before SIGTERM; a job whose call failed waits for a later scan.
- Risk.ProcessEvent: the score is cached as it is, not to six decimals.
