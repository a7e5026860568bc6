# Trade execution, verified

A Dafny model of how this service turns a webhook signal into at most one order on the exchange, and
proofs of what it promises about that. The setting is a distributed one: concurrent webhook requests, a
durable trade table with two UNIQUE indexes, a bounded in-memory queue drained by workers, an exchange
whose replies can be lost, reconciliations that may run at any time, and a process that can die between any
two statements. No transaction spans the database and the exchange.

Check everything with `dafny verify dfyconfig.toml` (Dafny 4.11).

## How it is built

**Values.** `Decimals`, `Numbers` (the canonical decimal text), `Models` (the trade row and its NUMERIC(28, 12)
column), `Webhook` (the payload checks), `BinanceClient` (what the client makes of every reply), `Trading`
(how each outcome is written onto a row), `Outcomes` (what that comes to, column by column, for every reply),
`Queries` (ORDER BY, LIMIT and OFFSET).

**The protocol.** `Protocol` is a state machine with one step per database statement or exchange call:
receive, insert, name the holder of a duplicate, hand over to the queue or go inline, resume, dequeue, claim,
re-read, send, settle, reconcile (load, query, commit), abort, crash, and a move of an order at the exchange.
A run is any sequence of enabled steps; the number of coroutines is unbounded, so every worker count is
covered. `Truth` says what a truthful exchange is. `Safety`, `Honesty`, `Hazard`, `Lifecycle`, `Unsent`,
`Recovery`, `Accounting`, `Arbitration`, `Provenance`, `Refinement` and `Attendance` prove properties of every
run.

**One thing at a time.** `Execution` and `Reconciliation` describe executing queue entries and reconciling a
batch with nothing else running, and prove what rounds of resume-and-drain or repeated runs achieve.
`Sequential` shows that each of these is one of the protocol's runs, and `Completion` puts them together:
what it takes, after a crash, to bring every trade to a true end.

**The services.** `Stores`, `Services` and `Executor` follow the source's methods: classes whose fields are
updated in place and loops over ids, each proved to have exactly the effect of the functions the theorems are
about.

## What is assumed

- An order request has landed or been lost by the time its reply, or the lack of one, is seen: the landing is
  fixed when the request is sent. The exchange starts with none of our client order ids.
- Where a theorem speaks of a truthful exchange (`Truth.Truthful`): a readable reply to a placement or a
  query reports the order's true status, -2013 is answered only when the order does not exist, a refusal or a
  failed connection creates nothing, and a status that maps to a terminal one does not change any more
  (`PENDING_CANCEL` maps to a terminal status and is taken to be one). Timeouts, transport errors, HTTP 5xx
  and unreadable replies say nothing. The safety theorems do not assume any of this.
- A commit writes the columns changed in memory since the row was loaded and no others, because sessions are
  created with `expire_on_commit=False`; a failed commit writes nothing. `Protocol.Step.Abort` stands for any
  exception, failed commit or cancellation.
- `build_client_order_id` is some fixed function of the signal id. It is not assumed to be injective.
- A reconciliation started by `scripts/reconcile.py` is another process and survives a crash of the API. In the
  protocol a crash ends every coroutine, so such a survivor is one more `StartReconcile` after it if it has yet
  to read the row, and otherwise a run in which the API's coroutines end by `Abort` one by one and its queue by
  `Dequeue` and `Abort`, which leaves the same table, orders and requests; only the queue's counters differ.
- The executor's capacity is at least 1, as its settings require.

## What the code does not promise

- A reconciliation writes with no check of the row's present status, and a submission sends with none after
  its claim. If a reconciliation was told "no such order" and another coroutine claims the trade before it
  commits, FAILED is recorded over a live order; every accepted signal has such a run
  (`Hazard.HonestyFailsUnderHazard`). Exactly two steps make a true status false: committing "no such order"
  when the order exists by then, and landing the order of a trade already recorded as FAILED; a trade's status
  is true at every moment of a run if and only if neither occurs on it (`Honesty.HonestyExactly`). It suffices
  that no reconciliation of the trade holds that answer while the trade is claimed but unsent, and from every
  state in which one does, three steps at most lead to a false status. The age filter of the reconciliation job
  makes the overlap unlikely; `POST /trades/{id}/reconcile` does not apply it.
- For the same reason a trade can be taken out of a terminal status (`Lifecycle.LifecycleFailsUnderOverlap`).
  A step moves a trade forward if and only if it is not the commit of a copy the row has overtaken
  (`Lifecycle.ForwardUnlessOvertaken`); that is the guard the commit lacks. When no two coroutines work on the
  trade at once, no commit to it is ever overtaken.
- A trade that was never submitted becomes FAILED when it is reconciled, and is then never sent
  (`Unsent.AnySignalCanBeClosedUnsent`, `Unsent.ClosedIsNeverSent`), although the docstring of `submit` says
  that a reconciliation run would pick it up (app/services/execution_queue.py:129-132) and the module says a
  lost queue costs latency only (app/services/execution_queue.py:25-26). This happens exactly when a
  reconciliation of the trade commits an answer while it is still waiting (`Unsent.ClosedExactly`). The model
  follows the code.
- A reconciliation run is cut short by one reply whose order id is no number, since `int()` then raises
  outside the error taxonomy (`Reconciliation.RunCanBeCutShort`); `BatchConserves` says exactly when a run
  checks everything it selected.
- Section 9 of the repository's own README.md describes a read check before the insert. The code inserts
  first and reads only after an IntegrityError; the model follows the code.

## Model

| member | source | states |
|---|---|---|
| Safety.StepKeepsInv | app/services/trading_service.py:313-348 | Every step, by whichever coroutine, keeps: unique indexes, in-memory copies that still describe their row's order, no trade sent twice, at most one coroutine entitled to send a trade and then it is unsent, every request and every order traceable to a row with `submitted_at` set. |
| Safety.AtMostOneOrderPerSignal | app/services/trading_service.py:313-366 | In every run (racing requests, repeated entries, failed commits, crashes, resumes, overlapping reconciliations) the exchange is asked to place an order at most once per row, per client order id and per signal. |
| Safety.EveryOrderIsWrittenAhead | app/services/trading_service.py:16-20 | Every order at the exchange has exactly one committed row with its client order id, symbol, side and quantity, and with `submitted_at` set. |
| Safety.ClientOrderIdsAreInjective | app/db/models.py:164-183 | In every run distinct rows have distinct signals and distinct client order ids, without assuming anything of the hash, and the columns that name the order never change. |
| Honesty.FalsifiedExactly | app/services/reconciliation_service.py:101-126 | With a truthful exchange, in every state a run can reach in which a trade's status is true, a step makes it false if and only if it commits "no such order" for an order that exists by then, or lands the order of a trade already recorded as FAILED. |
| Honesty.HonestyExactly | app/services/trading_service.py:361-402 | Over whole runs, whatever interleaves, fails or crashes and whatever happens to other trades: the status is true at every moment if and only if neither of these two steps occurs on the trade. NEW and PARTIALLY_FILLED mean that its order exists, FAILED that it does not, REJECTED that it does not or the exchange rejected it, FILLED a filled order or a dry run, CANCELLED and EXPIRED likewise. |
| Hazard.HazardFreeIsNeverFalsified | app/services/reconciliation_service.py:143-156 | Neither step occurs on a trade as long as no reconciliation of it holds the answer "no such order" while it is claimed and not yet sent. |
| Hazard.TerminalStatusIsHonest | app/services/trading_service.py:361-402 | So without this hazard on the trade, whatever happens to others, its recorded status is true in every run with a truthful exchange. |
| Hazard.AllStatusesAreHonest | app/services/trading_service.py:357-359 | And when no trade meets the hazard, every recorded status is true. |
| Hazard.EveryHazardCanLie | app/services/reconciliation_service.py:101-126 | From every state in which a reconciliation of the trade was told "no such order" while it is claimed and unsent, at most three truthful steps record a false status for that trade. |
| Hazard.NewTradeCanMeetHazard | app/api/routes/trades.py:81-104 | Any reachable state with a trade just created leads, by truthful steps, into that situation. |
| Hazard.HonestyFailsUnderHazard | app/services/reconciliation_service.py:61-126 | Every accepted signal has a truthful run from the empty system that ends with FAILED recorded over a live order. |
| Lifecycle.ForwardUnlessOvertaken | app/services/reconciliation_service.py:101-126 | In every state a run can reach, every step moves a trade forward (unsubmitted, submitted, UNKNOWN, NEW or PARTIALLY_FILLED, terminal; a terminal row unchanged in every column) if and only if it is not the commit of a copy that the row has overtaken: terminal by now and about to change, or further along than the status to be written. |
| Lifecycle.LifecycleExactly | app/services/reconciliation_service.py:61-67 | Over whole runs, with no assumption on the exchange: every step moves the trade forward if and only if no commit to it is overtaken, and then it has moved forward from the first state to the last. |
| Lifecycle.QuietRunIsNeverOvertaken | app/services/reconciliation_service.py:143-156 | When no two coroutines work on the trade at once, no commit to it is overtaken. |
| Lifecycle.LifecycleOnlyMovesForward | app/services/reconciliation_service.py:61-67 | So between any two moments of such a run this trade moved forward, and stayed the same in every column once terminal, whatever happened to other trades. |
| Lifecycle.AllLifecyclesMoveForward | app/services/reconciliation_service.py:61-67 | When this holds of every trade, all of them only move forward. |
| Lifecycle.OverlapReopensSettledTrade | app/services/reconciliation_service.py:112-126 | From any state in which a reconciliation holds the answer NEW for an UNKNOWN trade, truthful steps settle that trade and then reopen it. |
| Lifecycle.LifecycleFailsUnderOverlap | app/services/trading_service.py:485-523 | Every accepted signal has a truthful run from the empty system whose last step takes its trade out of a terminal status. |
| Lifecycle.QuietRunIsHazardFree | app/services/reconciliation_service.py:143-156 | A run in which no two coroutines work on the trade at once never meets the hazard on it. |
| Lifecycle.QuietTradesAreHonest | app/services/reconciliation_service.py:38-60 | So with a truthful exchange the trade's recorded terminal status is true. |
| Unsent.ClosedIsNeverSent | app/services/execution_queue.py:129-132 | Once a trade is closed unsent, in every continuation it stays so, no resume selects it, its order is never sent and does not exist. |
| Unsent.ClosedExactlyByReconciliation | app/services/reconciliation_service.py:101-126 | A waiting trade is closed unsent by exactly one kind of step: a reconciliation of it committing an answer that gives it a new status. |
| Unsent.ClosingAnswerIsNotFound | app/services/reconciliation_service.py:104-111 | After any run with truthful lookups that step is exactly the commit of "no such order". |
| Unsent.ClosedExactly | app/services/execution_queue.py:129-132 | Over whole runs, a waiting trade ends up closed unsent if and only if such a commit met it waiting. |
| Unsent.AnySignalCanBeClosedUnsent | app/services/execution_queue.py:21-26 | Every accepted signal has a truthful run, by a crash and a reconciliation, that closes its trade as FAILED without sending it. |
| Recovery.CrashesAreRecoverable | app/services/execution_queue.py:21-26 | If queries are answered truthfully (nothing is assumed of placements), then after a crash at any step every row is in exactly one class: never submitted, PENDING, selected by resume and, once old enough, by reconciliation, with no order; submitted and in flight, never selected by resume and selected by reconciliation once old enough; or terminal, selected by neither. |
| Accounting.QueueAccounting | app/services/execution_queue.py:92-105 | In every run unfinished work is queued plus executing entries, the queue stays within its capacity, and once `join` returns every accepted entry has been retired exactly once. |
| Arbitration.OneAcceptancePerSignal | app/services/trading_service.py:264-291 | In every run no signal is accepted twice; an answered signal was accepted exactly when no other signal holds its client order id; a refusal names the row of that very signal, or none exactly when only the client order id clashed. |
| Arbitration.RefusedRequestLeavesNoTrace | app/services/trading_service.py:264-291 | From a request's arrival to its 409, with any other coroutines acting in between, none of its own steps changes a row, an order, a request or the queue, and the answer names the row holding its signal at that moment, if there is one. |
| Provenance.EveryOrderIsExactlyAsSignalled | app/schemas/webhook.py:107-116 | In every run each order comes from an accepted signal with its symbol and side, and the quantity text sent is canonical and denotes exactly the payload's number, within the configured limits. |
| Provenance.EveryTradeIsTheOwners | app/services/trading_service.py:213-240 | In every run every row belongs to the configured account: its listing counts all of them, anybody else's none. |
| Refinement.QueuedRefinesInline | app/services/trading_service.py:196-207 | When the exchange's replies are a function of the client order id, no reconciliation job runs, no order moves by itself and nothing fails or crashes with a trade in hand, then after any interleaving, any number of workers, repeated ids, refused trades, lost queues and resumes, a system at rest has the table and the orders of inline execution of the same inserts if and only if no row is still waiting. |
| Attendance.NothingIsForgotten | app/services/execution_queue.py:121-144 | In every run without a crash, a full queue or the death of a coroutine on its way to a trade, whatever else fails or is reconciled, every waiting trade is queued or about to be handed over or claimed. |
| Attendance.LosslessRunRefinesInline | app/services/trading_service.py:196-207 | So such a run, when it follows the script, ends at rest as inline execution would, without any resume. |
| BinanceClient.PlacementTaxonomy | app/services/binance_service.py:251-351 | With an honest exchange: success names the order's status, every refusal and "unavailable" means nothing was created; and each class (rate limit, credentials, other refusal, unavailable, uncertain, unreadable order id) stands for exactly its replies. |
| BinanceClient.LookupTaxonomy | app/services/binance_service.py:444-470 | "No such order" and "found" are true answers; "no such order" is exactly a 4xx with code -2013, "found" exactly a readable reply, an order id that is no number raises outside the taxonomy, and everything else is "could not ask". |
| Trading.ReconciliationNeverGuesses | app/services/reconciliation_service.py:77-126 | Reconciling an open trade ends terminal exactly when the commit goes through and the answer is -2013 or a terminal status; a failed query changes nothing. |
| Trading.SubmissionNeverGuesses | app/services/trading_service.py:361-523 | A submission ends terminal exactly on conclusive evidence from the reply or, after an uncertain reply, from the one follow-up query; identity columns and `submitted_at` are kept. |
| Outcomes.SubmissionRecords | app/services/trading_service.py:361-523 | What a submission leaves, column by column, for every reply: the exchange's id, text and figures with the status that text stands for; a dry run's zero figures; REJECTED, FAILED or UNKNOWN with the error code of exactly that reply; after an uncertain reply, the answer to the one query; nothing when its commit fails. |
| Outcomes.ReconciliationRecords | app/services/reconciliation_service.py:69-127 | What a reconciliation leaves, likewise: the order's columns, "order_not_found" for -2013, nothing for any other reply, a failed commit or a row that is over; the mark exactly when it learned something. |
| Outcomes.StatusStandsForText | app/services/trading_service.py:78-89 | NEW and every unknown text are recorded as NEW, PARTIALLY_FILLED as itself, and each finished text as the one status that stands for it. |
| Outcomes.CodeTextShows | app/services/trading_service.py:371-392 | An error code is recorded as its decimal digits with their sign, as the given text, or as "None". |
| Trading.LateAnswerIsAsGood | app/services/trading_service.py:485-523 | When the reply is lost and the follow-up query reports what it would have said, the row ends as if the reply had arrived, with the exchange's own figures, except for `reconciled_at` and the error code a rejected order keeps from the timeout. |
| Trading.CommitsMerge | app/services/trading_service.py:424-443 | Two sessions that loaded the same row lose nothing of each other's changes to different columns, whichever commits first; the last one wins the columns both changed. |
| Decimals.NormaliseExactlyWhenFits | app/core/numbers.py:33-33 | Normalising keeps the number exactly when it needs at most 28 significant digits; the result keeps the sign and, unless it is zero, ends in a digit other than 0. |
| Decimals.StrippedUnique | app/core/numbers.py:33-33 | Two equal numbers without trailing zeros have the same digits and exponent. |
| Numbers.StrippingIsIdentity | app/core/numbers.py:33-36 | After normalisation the `rstrip` pass and the empty-text fallback have nothing to do, and the text does not end in a fractional zero or a point. |
| Numbers.PrintingIsAnExactInverse | app/core/numbers.py:20-36 | The canonical text is plain notation: no exponent, no zero before the first digit but the one of a bare fraction, none after the last; and it reads back as the number printed exactly when that needs at most 28 significant digits. |
| Numbers.PrintsTheCanonicalText | app/core/numbers.py:6-13 | Of a number that fits, the text printed is the one text of this shape that denotes the number with its sign: any other such text is this one. |
| Numbers.PrintAlikeExactlyWhenEqual | app/core/numbers.py:20-36 | Two numbers that fit print alike if and only if they are equal and have the same sign. |
| Models.StoredExactly | app/db/models.py:205-207 | A number with at most 12 decimal places is stored without rounding, and overflows the column exactly from 10^16 on. |
| Webhook.SchemaProblemsExactly | app/schemas/webhook.py:20-116 | The schema reports each wrong field once, in the order of the fields, and for what is wrong with it: an id or symbol of the wrong length or alphabet; a quantity that is not a number, not positive, or has more than 12 decimal places. |
| Webhook.RulesExactly | app/services/trading_service.py:139-170 | The deployment's rules are reported in order: a symbol that is not enabled, a quantity below the minimum, one above the maximum; a quantity equal to a limit passes. |
| Webhook.AcceptedExactly | app/schemas/webhook.py:20-116 | A signal is accepted if and only if its id and symbol have the required length and alphabet, its quantity is positive, finite, has at most 12 decimal places and lies within the limits, and its symbol is enabled. |
| Webhook.QuantityRoundTrip | app/schemas/webhook.py:107-116 | An accepted quantity is stored if and only if it is below 10^16, and then storing, reading back, printing and parsing give exactly the payload's number. |
| Webhook.CappedQuantityIsStored | app/services/trading_service.py:158-170 | Under a configured maximum below 10^16 no accepted signal overflows the column. |
| Queries.OrderByIsOrdered | app/services/trading_service.py:544-552 | ORDER BY lists the rows strictly by the sort key. |
| Queries.OrderIsUnique | app/services/trading_service.py:544-552 | Any strictly ordered listing of exactly these rows is that one. |
| Queries.PagesTileTheListing | app/services/trading_service.py:529-553 | Pages at offsets 0, limit, 2 limit, ... joined together are exactly the caller's matching trades, each once, newest first and at the same moment the larger id first, as many as the reported total. |
| Queries.PageIsPartOfListing | app/services/trading_service.py:544-553 | Any page, at any offset, is that part of the one listing of everything. |
| Queries.ResumeTakesSmallest | app/services/execution_queue.py:154-164 | `resume_pending` selects unsubmitted PENDING ids in increasing order, and every one it leaves out is larger. |
| Execution.DrainSubmits | app/services/execution_queue.py:183-224 | Draining submits exactly the waiting trades among the queued ids, each once at its first occurrence, and leaves every other row alone. |
| Execution.DrainOrderIrrelevant | app/services/execution_queue.py:204-210 | The order of entries and repeated ids do not matter to the resulting table. |
| Execution.QueueTakesWhatFits | app/services/execution_queue.py:121-144 | Handing ids to the queue accepts them in order until it is full and refuses the rest. |
| Execution.ResumeIsNeverRefused | app/services/execution_queue.py:146-174 | A resume on an empty queue enqueues its whole selection. |
| Execution.RoundTakesSmallest | app/services/execution_queue.py:146-174 | One resume-and-drain leaves waiting exactly the trades other than the min(capacity, waiting) smallest ids. |
| Execution.RoundSubmitsEachOnce | app/services/execution_queue.py:201-224 | It makes one request for each of these trades, in id order, as its row describes it. |
| Execution.RoundsClearTheBacklog | app/services/execution_queue.py:146-224 | After k rounds, whatever the outcomes, max(0, N - k capacity) of N trades are left; none are left if and only if k capacity reaches N. |
| Sequential.ExecutionIsARun | app/services/execution_queue.py:201-224 | One worker executing the next entry is a run of the protocol with exactly the effect of the sequential description, orders moving between its request and its follow-up query included; the run is truthful when that description is. |
| Sequential.DrainingIsARun | app/services/execution_queue.py:183-199 | So is one worker draining any number of entries. |
| Sequential.RoundIsARun | app/services/execution_queue.py:146-199 | So is resuming on an empty queue and draining it. |
| Sequential.ReconcilingIsARun | app/services/reconciliation_service.py:159-184 | So is a reconciliation run over a batch, early end included. |
| Completion.RecoveryCompletes | app/services/execution_queue.py:21-26 | After any truthful run and a crash at any step, enough resume-and-drain rounds and then enough reconciliation runs with conclusive truthful answers, orders moving at any time, end every trade terminal; each waiting trade has been requested exactly once and no other again; every trade whose status was true at the crash, as it is when neither falsifying step occurred, ends with a true status. |
| Completion.SomePlanSuffices | app/services/reconciliation_service.py:1-19 | Such a recovery is always possible: for every queue capacity and batch limit, with any number of rounds that hold what is waiting, even with the exchange out of reach, and any number of reconciliation runs that hold the table. |
| Completion.RecoveryIsARun | app/services/execution_queue.py:21-26 | The run, the crash and this recovery are together one run of the protocol from the empty system with a truthful exchange, so every theorem about runs holds to its end. |
| Sequential.InlineIsInsertThenExecute | app/services/trading_service.py:193-211 | The inline mode of the refinement theorem is inserting the row and executing it at once. |
| Reconciliation.RecordedIsCommitOfLearned | app/services/reconciliation_service.py:38-127 | Any loaded copy, current or stale, is reconciled alike: what it learned is committed over whatever the row holds by then, column by column. |
| Reconciliation.RaisesExactly | app/services/reconciliation_service.py:69-127 | Reconciling a trade raises exactly when it is open and an order's id is no number or a conclusive or live answer could not be committed; a query that could not be made never raises. |
| Reconciliation.BatchRows | app/services/reconciliation_service.py:172-181 | A run gives the trades before the first exception what the exchange answered about them and leaves every other row. |
| Reconciliation.BatchCounts | app/services/reconciliation_service.py:175-181 | The summary counts exactly the trades dealt with and, of these, the ones whose status changed. |
| Reconciliation.BatchConserves | app/services/reconciliation_service.py:159-184 | checked = changed + unchanged always; checked = min(limit, eligible) if and only if no selected trade raises. |
| Reconciliation.RunCanBeCutShort | app/services/binance_service.py:147-165 | A reply whose order id is no number ends the run with nothing checked. |
| Reconciliation.BatchOrderIrrelevant | app/services/reconciliation_service.py:175-181 | Any processing order of a batch in which nothing raises gives the same table. |
| Reconciliation.OneAttemptCounts | app/services/reconciliation_service.py:16-17 | Of two attempts whose replies are true of the same order, with timeouts and failed commits allowed, only the first that records something counts, and their order does not matter. |
| Reconciliation.SecondRunAddsOnlyTheMissing | app/services/reconciliation_service.py:16-17 | A second run with any replies true of the same orders changes no trade the first recorded something about, and treats the others as if reconciled only now. |
| Reconciliation.BatchIsIdempotent | app/services/reconciliation_service.py:16-17 | With the very same replies the second run changes nothing at all. |
| Reconciliation.BatchSettlesExactlyTheConclusive | app/services/reconciliation_service.py:77-126 | A selected trade stops being eligible if and only if the run reached it, the answer was conclusive and the commit went through. |
| Reconciliation.BatchProgresses | app/services/reconciliation_service.py:159-184 | When every answer is conclusive, a run makes exactly its min(limit, eligible) trades terminal, counts them all as changed, and touches nothing else. |
| Reconciliation.SweepsFinish | app/services/reconciliation_service.py:159-184 | k such runs leave max(0, n - k limit) of n eligible trades; all others have become terminal and no other row changed. |
| Reconciliation.BatchExists | app/services/reconciliation_service.py:138-156 | Every table has a selection satisfying the query: oldest first, at most limit. |
| Stores.Database.Insert | app/db/models.py:164-183 | The insert is refused exactly when a UNIQUE index holds the signal id or the client order id, and then nothing changes; otherwise the row gets a fresh id and is the only change. |
| Stores.Database.HolderOf | app/services/trading_service.py:278-281 | Names the row holding the signal, or none exactly when no row does. |
| Stores.Database.ClaimRow | app/services/trading_service.py:331-342 | The conditional UPDATE sets `submitted_at` on that row if it is PENDING and unsubmitted, reports one row changed exactly then, and changes nothing else. |
| Safety.WriteGrowsRows | app/services/trading_service.py:424-443 | Committing an edited copy, current or stale, keeps both unique indexes, the columns that name the order, and `submitted_at`. |
| Stores.Database.SelectUnsubmitted | app/services/execution_queue.py:154-164 | A scan in id order returns exactly the specified selection. |
| Stores.Database.SelectReconcilable | app/services/reconciliation_service.py:146-156 | Returns a selection that is oldest first and complete up to the limit, ties in any order; every selected trade is PENDING, UNKNOWN, NEW or PARTIALLY_FILLED and older than the cutoff. |
| Reconciliation.EligibleExactly | app/services/reconciliation_service.py:146-153 | Eligible are exactly the rows in one of these four statuses, which are the statuses that are not terminal, created before the cutoff, submitted or not. |
| Services.ReconcileTrade | app/services/reconciliation_service.py:38-135 | For any loaded copy, current or not: asks once by the committed client order id, or not at all when the copy is terminal; commits the answer over the row, or changes nothing when the query or the commit failed; raises exactly for a failed commit or an unreadable order id; places and changes no order. |
| Services.ReconcileTrades | app/services/reconciliation_service.py:175-181 | The loop and its counters have exactly the effect of the batch function, including the early end on an exception. |
| Services.ReconcilePendingTrades | app/services/reconciliation_service.py:159-184 | Selects a batch and reconciles it. |
| Services.TradingService.CreatePendingTrade | app/services/trading_service.py:246-307 | Inserts the row exactly when the quantity fits and neither index clashes: the signal's columns, owned by the configured account and in its listing, created at the given moment, PENDING, with every other column empty; a duplicate is told the holder; any refusal leaves the table. |
| Services.TradingService.ClaimForSubmission | app/services/trading_service.py:313-348 | Returns the re-read row to the caller who won the claim, none otherwise. |
| Services.TradingService.FinaliseSuccess | app/services/trading_service.py:404-448 | Commits the order's id, text and figures, the status that text stands for and no error code, or nothing when the commit fails. |
| Services.RefusalIsFinal | app/services/trading_service.py:361-393 | What a refusal or a failed connection leaves is final: terminal, with a code that fits its column and no figures from the exchange; no resume and no reconciliation job selects it, and reconciling it by hand changes nothing. |
| Services.TradingService.HandleUncertainOutcome | app/services/trading_service.py:485-523 | Commits UNKNOWN, asks once, and leaves UNKNOWN when asking or its commit fails. |
| Services.TradingService.SubmitToBinance | app/services/trading_service.py:350-402 | Makes exactly one request, whatever comes back, and leaves the row that outcome calls for; an exception escapes exactly when a commit fails or the reply is outside the taxonomy. |
| Executor.TradeExecutor.Submit | app/services/execution_queue.py:121-144 | Refused exactly when the queue is full; never waits. |
| Executor.TradeExecutor.ResumePending | app/services/execution_queue.py:146-174 | Queues as much of the selection as fits, in order; on an empty queue all of it. |
| Executor.TradeExecutor.ExecuteTrade | app/services/execution_queue.py:201-224 | Claims and, if the claim changed a row, submits: exactly the effect of the sequential description; an exception leaves it exactly when a waiting trade's commit fails or the reply's order id is no number. |
| Executor.TradeExecutor.Work | app/services/execution_queue.py:183-199 | The worker loop empties the queue, brings the unfinished counter to zero whatever raised, and has exactly the effect of draining. |
| Executor.HandOver | app/services/trading_service.py:196-207 | The committed trade is queued, if there is room, or executed at once; it is answered with the trade unless an exception leaves its inline execution. |
| Executor.ProcessSignal | app/services/trading_service.py:176-211 | Each signal gets exactly one answer: the schema's problems; the rule broken; overflow from 10^16 on; the holder of a duplicate; an error exactly when its inline submission raises; else the trade. A signal that is taken leaves its row as the only change (queued) or is executed at once (inline); any other changes nothing. |

## Left out

- Executor.TradeExecutor.Work: one worker, until the queue is empty; several workers, and a worker cancelled when `stop` runs out of time, are steps of `Protocol` (`Dequeue` by any coroutine, `Abort`) instead.
- Executor.ProcessSignal: the owner lookup before the insert (app/services/trading_service.py:193-193) is a configured owner id, and a database that fails in the insert or the claim, which would raise before anything is sent, is `Abort` in `Protocol` only.
- Numbers.PrintingIsAnExactInverse: exponents beyond the limits of Python's decimal context are not refused; the webhook's quantities never come near them.
- Stores.Database.Commit: the in-memory object after a failed commit, which no caller uses again, is not modelled.
- Reconciliation.SweepsFinish: the age cutoff is the same in all runs; trades that become old enough meanwhile count from a later cutoff.
- Executed quantities and amounts reported by the exchange are kept as they are, although their NUMERIC(28, 12) columns (app/db/models.py:229-233) would round or refuse some; the signal's quantity goes through its column.
- BinanceClient.PlacementTaxonomy: a readable reply to a placement or a query is taken to be an order object; one that is no JSON object is read by the client as an order of empty status and is assumed to be about such an order.
- An IntegrityError raised by the owner's foreign key (app/db/models.py:163-163), which would be answered 409 naming no row, cannot occur: the owner is taken to exist.
- HTTP transport, request signing, TLS, connection pooling and `Retry-After`: only the outcome classes the client tells apart.
- SHA-256 and the text form of client order ids.
- SQLAlchemy sessions, identity map and pooling beyond commit, rollback and changed columns; `error_message` texts, `updated_at`, and timestamps other than `created_at`, which are kept as set or unset.
- Starting and stopping the worker tasks (app/services/execution_queue.py:78-117), apart from what `join` means for the counter.
- Login, JWT, shared-secret checks, routes, middleware, error envelopes, health checks, migrations, settings parsing and logging.
- Stripping and upper-casing of payload fields before their patterns apply, unknown payload fields, and enum texts.
- Benchmark, simulation and setup scripts.
