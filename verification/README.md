# Attempt lifecycle of abstract-block-dumper

A Dafny model of how `abstract-block-dumper` carries a block through its tasks, with proofs of what holds on every
interleaving of the processes involved. `dafny verify dfyconfig.toml` checks the whole project.

For each block, task and argument set there is one database row, a `TaskAttempt`. Workers, the live scheduler,
backfills, the recovery sweep and the give-up command race on it, and each changes it only by conditional UPDATEs.

| file | what it holds |
|---|---|
| `Base`, `Attempts`, `Queues` | options and instants, the row, queues, settings and the retry rules they give a row |
| `RetryPolicies` | retry delays of queue policies and of the Django settings |
| `Conditions`, `Selection` | `Q` objects as syntax, SQL's three-valued logic, Django's compilation, and the filters of the sweep and the throttle |
| `Transitions`, `Guards` | guard and effect of every statement, and the WHERE clauses behind the guards |
| `Protocol`, `Paths` | the state machine, its invariant and how a row may evolve; runs as paths of states |
| `Guarantees`, `Counterexamples` | what holds on every run, and runs that show why each assumption is needed |
| `Writes` | the function's own database writes, committed with its outcome or not at all |
| `Recovery` | what the sweep selects: disjoint, never too early, in the end everything owed |
| `Workers`, `Sweep` | the processes as code over a shared row, with other processes stepping in between any two statements |
| `TimeLimits`, `Leases` | declaration checks, the limits a worker enforces, and the lease they protect, up to the worker's claim |
| `Throttle`, `InFlight` | the throttle gate, a lookback pass through it, and the gate against the rows it counts |
| `Lookback`, `Backfill`, `Gaps` | polling and lookback windows, dry run against real backfill, gap finding |

How the protocol is modelled:

- A state holds every committed version of the row and when it was written, the database clock, and the history of
  claims and of their endings. A step is one statement. A decision taken from an earlier read names the version it was
  read from, so a stale read is an ordinary step. The database clock never goes back; Python clocks are arbitrary
  values.
- A statement is atomic: guard and write happen at one instant, as an UPDATE re-evaluates its WHERE clause on the
  locked row.
- Settings and queue definitions do not change during a run, and every queue a row was sent to stays defined.
- A run is *disciplined* when claim tokens are not reused and the lease sweep fails the claim it read. The attempt
  bound and the statements that say "distinct tokens" are about such runs; the exact conditions for all runs are
  beside them (`Guarantees.RunStaysWithinIff`, `Guarantees.OutcomeMisfiresIff`, `Recovery.StrandedIff`), and the rest
  holds on all runs.
- In `Workers` and `Sweep` every method first promises safety under any interference, and then, for a row that is
  `alone` (no other process touches it, though time passes between any two statements), what happens to it: it is
  *carried on*, that is given up or waiting for a message dispatched since the call began, or it is untouched but for
  the clock.
- Times and floats are reals; the range of a float is a parameter.

Where the code and its own documentation part ways, the model follows the code:

- `README.md:195-197` says a raising condition skips only that args set for that block. A lookback window is aborted
  instead (`src/abstract_block_dumper/_internal/services/window_backfiller.py:97-99`); `Lookback.ProcessItemRange`
  states exactly when and what is lost, and `Lookback.RaiseCostsLaterBlocks` is such a run.
- `src/abstract_block_dumper/_internal/services/retry_policy.py:73` takes an overflowed power to be past any
  `max_delay`. `RetryPolicies.DelayIsIdealIff` says when that is so and `OverflowCanOvershoot` when it is not.
- `src/abstract_block_dumper/_internal/services/task_runner.py:6-7` says a worker that was taken over cannot overwrite
  the newer attempt. That needs distinct tokens, and the token is the Celery message id (line 60 of the same file),
  which a redelivery reuses: `Counterexamples.ReusedTokenBreaksTheFence`, with the exact condition in
  `Guarantees.OutcomeMisfiresIff`.
- `src/abstract_block_dumper/_internal/dal/queue_attempts.py:84-87` relies on attempts stopping at their policy's
  limit. The lease sweep decides from an earlier read
  (`src/abstract_block_dumper/_internal/services/reconciler.py:100-103`) and its UPDATE is not fenced on that claim
  (`src/abstract_block_dumper/_internal/dal/attempt_transitions.py:178`): `Counterexamples.StaleSweepExceedsLimit`,
  with the exact condition for whole runs in `Guarantees.RunStaysWithinIff`.
- `src/abstract_block_dumper/_internal/services/reconciler.py:1-14` lists what is recovered as if nothing could fall
  between the categories. The same stale sweep can leave a row that was never dispatched with its tries used up and no
  reason recorded: `Counterexamples.StaleSweepStrands`, with the exact condition in `Recovery.StrandedIff`.

## Model

| member | source | states |
|---|---|---|
| `Protocol.EffectIsLawful` | src/abstract_block_dumper/_internal/dal/attempt_transitions.py:28-233 | Every statement, from every state that satisfies the invariant and with every stale read, does one of four things to the row: nothing, a rewrite that keeps the claim and its outcome, opening the next claim from PENDING, or ending the open claim; it never deletes the row and never resets a RUNNING one |
| `Protocol.StepKeepsInvariant` | src/abstract_block_dumper/_internal/dal/attempt_transitions.py:28-233 | Every statement keeps the whole invariant: a given-up row is FAILED without a retry, only RUNNING rows have a lease, FAILED without a reason has a retry time, a recorded queue has a dispatch time, a RUNNING row carries the token, start and lease of its latest claim, claims and endings alternate, every version's count is explained by the claims before it |
| `Protocol.StepEvolves` | src/abstract_block_dumper/_internal/dal/attempt_transitions.py:28-233 | Every statement only evolves the row: final rows keep their outcome, the deadline is written once, past it the count is frozen, a dispatch time never moves back, and a PENDING row that is not claimed stays PENDING with its retry time or is given up |
| `Protocol.WritesAreStamped` | src/abstract_block_dumper/_internal/dal/attempt_transitions.py:4-8 | Every statement that writes sets updated_at to the Python instant of its write, except the one that sets a deadline, which leaves it |
| `Protocol.RunsKeepInvariant` | src/abstract_block_dumper/_internal/dal/attempt_transitions.py:28-233 | Both of these over every finite run of every interleaving |
| `Protocol.NoPhantom` | src/abstract_block_dumper/_internal/dal/django_dal.py:210-221 | The startup cleanup of SUCCESS rows that never started matches no reachable row |
| `Guarantees.SuccessIsFinal` | src/abstract_block_dumper/_internal/dal/attempt_transitions.py:118-127 | Whatever run follows a SUCCESS, the outcome, the claims and the endings stay exactly as they were and the row still exists |
| `Guarantees.SingleSuccess` | src/abstract_block_dumper/_internal/services/task_runner.py:81-113 | An ending is a success if and only if it is the ending of the latest claim and the row is SUCCESS now: at most one success per row, and every SUCCESS has its own |
| `Guarantees.OutcomesMatchTokens` | src/abstract_block_dumper/_internal/dal/attempt_transitions.py:118-164 | In every reachable state, without any assumption on tokens: an outcome recorded by a run ended a claim made with that run's token |
| `Guarantees.OutcomesAreFenced` | src/abstract_block_dumper/_internal/services/task_runner.py:81-113 | Over whole runs: with distinct tokens, every outcome a run records ends the very claim that run opened; the exact condition, state by state, is the next row |
| `Guarantees.OutcomeMisfiresIff` | src/abstract_block_dumper/_internal/services/task_runner.py:60-62 | For every reachable state and run: recording an outcome ends a claim that is not the run's own if and only if the row is RUNNING under a later claim that reused the run's token |
| `Guarantees.FenceStandsIff` | src/abstract_block_dumper/_internal/dal/attempt_transitions.py:118-164 | In a RUNNING state no run but the one that made the claim in force can end it if and only if no earlier claim has its token |
| `Guarantees.TakenOverCommitsNothing` | src/abstract_block_dumper/_internal/services/task_runner.py:91-95 | With distinct tokens, a run whose claim ended in any other way never records an outcome afterwards, on any continuation; for its writes see `Writes.TakenOverWritesNothing` |
| `Writes.RunsKeepWrites` | src/abstract_block_dumper/_internal/services/task_runner.py:9-13 | On every run, writes are only of runs that recorded an outcome, and committed writes stay |
| `Writes.WritesAreFenced` | src/abstract_block_dumper/_internal/services/task_runner.py:81-95 | On every run of transactions with distinct tokens: the function's writes of a run are in the database only if that run ended its own claim |
| `Writes.TakenOverWritesNothing` | src/abstract_block_dumper/_internal/services/task_runner.py:91-95 | A run whose claim ended in any other way has no writes in the database, then or after any continuation |
| `Guarantees.ClaimsAreConserved` | src/abstract_block_dumper/_internal/dal/attempt_transitions.py:99-233 | attempt_count = successful claims = successes + recorded failures + expired leases + unleased resets + (1 if RUNNING); the resets are zero, and the successes are one exactly for SUCCESS rows |
| `Guarantees.OnlyClaimsCount` | src/abstract_block_dumper/_internal/dal/attempt_transitions.py:31-233 | Each statement changes the count by one if it is a claim whose guard holds and by nothing otherwise |
| `Guarantees.GivingUpIsAbsorbing` | src/abstract_block_dumper/_internal/dal/attempt_transitions.py:191-233 | A row with a give_up_reason is FAILED without retry time and lease, and no later run, with reopens and retries decided from stale reads and stuck resets included, changes its outcome |
| `Guarantees.DeadlineFreezes` | src/abstract_block_dumper/_internal/dal/attempt_transitions.py:186-201 | give_up_at never changes once written, and from the moment the database clock reaches it no run makes another claim |
| `Guarantees.RetriesStartByDeadline` | src/abstract_block_dumper/_internal/dal/attempt_transitions.py:130-154 | In the history of every reachable state, for each version that recorded a failure with a retry: the recorded wait (next_retry_at less the Python instant of the write), counted on the database clock from when the version was written, ends by the deadline if there was one, and it is the delay the rules grant after some earlier version that allows another try |
| `Guarantees.FailureFollowsQueue` | src/abstract_block_dumper/_internal/services/retry_rules.py:36-47 | On the columns: a failure decided from a read with a defined queue gives the row up for want of tries if and only if that queue's policy has a limit and the read's count has reached it, for its age if and only if tries are left but the retry would start past the deadline, and otherwise records a retry that queue's delay after the Python instant of the write |
| `Guarantees.FailureFollowsSettings` | src/abstract_block_dumper/_internal/services/retry_rules.py:26-39 | The same with the settings' limit and schedule for a read without a queue, or with one that is not defined |
| `Guarantees.WorkerReadIsFresh` | src/abstract_block_dumper/_internal/services/task_runner.py:115-125 | With distinct tokens, a worker that still holds its claim decided the retry from a read of that same claim |
| `Guarantees.StepKeepsBounds` | src/abstract_block_dumper/_internal/services/retry_rules.py:36-47 | Every disciplined step keeps: attempt_count at or below every cap on the rules, strictly below while another try may follow, and below the settings' limit for a waiting row without a recorded queue |
| `Guarantees.AttemptsAreBounded` | src/abstract_block_dumper/_internal/dal/attempt_transitions.py:99-115 | On every disciplined run attempt_count never exceeds the largest limit among the retry rules that can govern the row, although a claim never checks it |
| `Guarantees.StepKeepsLimitIff` | src/abstract_block_dumper/_internal/services/reconciler.py:100-103 | From any state with the invariant and within a limit of at least one, whatever the tokens and reads: each of the statements stays within it if and only if it ends no claim in failure, or the read it was decided from allows no further try, the retry would be too late, or the count is still below the limit |
| `Guarantees.RunStaysWithinIff` | src/abstract_block_dumper/_internal/services/reconciler.py:99-105 | Over whole runs: every state passed through is within the limit if and only if every failure recorded on the way meets that condition where it is recorded |
| `Counterexamples.StaleSweepExceedsLimit` | src/abstract_block_dumper/_internal/services/reconciler.py:99-105 | A run with distinct tokens in which the lease sweep's UPDATE lands on a newer claim than the one it read makes three attempts under a limit of two |
| `Counterexamples.ReusedTokenBreaksTheFence` | src/abstract_block_dumper/_internal/services/task_runner.py:60-62 | A redelivered message reuses its id as claim token, and a run taken over long ago ends the newer claim |
| `Counterexamples.ReusedTokenExceedsLimit` | src/abstract_block_dumper/_internal/services/task_runner.py:164-168 | The same with a failure: a third attempt under a limit of two |
| `Counterexamples.StaleSweepStrands` | src/abstract_block_dumper/_internal/services/reconciler.py:99-105 | A run with distinct tokens, of a row claimed before any dispatch, that ends FAILED, not given up, without a queue and with its tries used up: no category selects it at any instant |
| `Conditions.CompiledMatchesPython` | src/abstract_block_dumper/_internal/dal/queue_attempts.py:20-98 | For every filter, nested negations included: in SQL's three-valued logic with the IS NOT NULL guards Django adds, the database keeps exactly the rows on which the condition holds |
| `Guards.ClaimFilterMeaning` | src/abstract_block_dumper/_internal/dal/attempt_transitions.py:107 | The claim's clause selects exactly the PENDING rows with no deadline or one still ahead |
| `Guards.HeldFilterMeaning` | src/abstract_block_dumper/_internal/dal/attempt_transitions.py:120 | The fence selects exactly the row that runs under the token; a row whose token was cleared never |
| `Guards.TooLateFilterMeaning` | src/abstract_block_dumper/_internal/dal/attempt_transitions.py:141 | The condition of the failure's CASE holds exactly for a retry past a recorded deadline |
| `Guards.AwaitsRetryFilterMeaning` | src/abstract_block_dumper/_internal/dal/attempt_transitions.py:226 | The clause of a reopen and of a retry selects exactly the failed rows that were not given up |
| `Guards.GiveUpFilterMeaning` | src/abstract_block_dumper/_internal/dal/attempt_transitions.py:191-216 | The two give-up clauses select exactly the PENDING or FAILED rows not given up, the first only from the deadline on, a missing deadline never |
| `Guards.ClaimOrGiveUp` | src/abstract_block_dumper/_internal/dal/attempt_transitions.py:191-201 | At every instant a PENDING row that was not given up matches exactly one of the claim's clause and the deadline's |
| `Selection.ExpiredMessageFilter` | src/abstract_block_dumper/_internal/dal/queue_attempts.py:20-34 | The clause built queue by queue selects exactly the PENDING rows whose message and retry ETA lie more than their queue's window back |
| `Selection.StuckFilterIsItsRecheck` | src/abstract_block_dumper/_internal/dal/queue_attempts.py:74-128 | The stuck filter and the re-check on a loaded row agree on every row, cutoff, attempt limit and TTL-queue set |
| `Selection.PlainNegationAgreesIff` | src/abstract_block_dumper/_internal/dal/queue_attempts.py:95 | Without the IS NOT NULL guard the negated part would agree if and only if the row is not a PENDING one with a dispatch time and no queue |
| `Selection.InFlightFilterMeaning` | src/abstract_block_dumper/_internal/dal/queue_attempts.py:49-71 | What one count query counts as in flight, per row, NULL columns included |
| `Recovery.ExpiredLeaseFilterMeaning` | src/abstract_block_dumper/_internal/dal/attempt_transitions.py:167-173 | The lease query returns exactly the RUNNING rows whose lease has passed; a row without a lease never |
| `Recovery.SelectionsAreDisjoint` | src/abstract_block_dumper/_internal/services/reconciler.py:65-97 | No row whatsoever is selected by two of the three recovery categories |
| `Recovery.PendingRowsArePartitioned` | src/abstract_block_dumper/_internal/dal/queue_attempts.py:49-71 | A dispatched PENDING row on a defined queue (with a TTL or under a stuck-task timeout) is exactly one of counted in flight, waiting for a future ETA, selected for recovery |
| `Recovery.RunningRowsArePartitioned` | src/abstract_block_dumper/_internal/dal/queue_attempts.py:63 | A leased RUNNING row is counted in flight if and only if recovery does not select it |
| `Recovery.SelectedInTheEndIff` | src/abstract_block_dumper/_internal/services/reconciler.py:65-97 | With a stuck-task timeout, once both clocks pass a row's horizon: a row still owed a run is selected if and only if it is RUNNING, has a queue, or is below the settings' limit |
| `Recovery.SelectionIsAccepted` | src/abstract_block_dumper/_internal/services/reconciler.py:99-184 | Acting at once on a selection succeeds: the guard or re-check of that category accepts the row and moves it on |
| `Recovery.StrandedIff` | src/abstract_block_dumper/_internal/services/reconciler.py:46-97 | For every reachable row with a stuck-task timeout, whatever the tokens and reads of its run, neither SUCCESS nor given up and left alone past its horizon: some category selects it if and only if it is RUNNING, has a queue or is below the settings' limit; never do two; and the re-check of the one accepts it |
| `Recovery.OutOfReachForEver` | src/abstract_block_dumper/_internal/dal/queue_attempts.py:97 | A row no rule reaches is selected by no category at any instant |
| `Recovery.DisciplineKeepsReach` | src/abstract_block_dumper/_internal/dal/queue_attempts.py:131-137 | A disciplined run with a positive limit never leaves an owed row that no rule reaches |
| `Recovery.NoAttemptIsStranded` | src/abstract_block_dumper/_internal/services/reconciler.py:46-97 | So on every disciplined run with a positive limit exactly one category selects such a row, and its re-check accepts it |
| `Recovery.MessageRecoveryNeverOvertakes` | src/abstract_block_dumper/_internal/services/queue_policy.py:84-94 | After any run, claims included: whenever the sweep selects a row's message as expired, the message that a dispatch on that queue stamped is past its own expiry, for any ETA its sender had read that lies within the margin of the stamp or of the retry the row awaits, if it was sent within the margin of its stamp |
| `Recovery.RetryIsNotOvertaken` | src/abstract_block_dumper/_internal/services/queue_executor.py:130-155 | In particular a retry with the ETA of the row it was stamped on, until that row is claimed |
| `Recovery.MarginIsExact` | src/abstract_block_dumper/_internal/services/reconciler.py:73-78 | A dispatch is safe from being overtaken at every sweep instant if and only if its send and its ETA lie within the recovery margin of the row's stamp or of the retry the row awaits |
| `Workers.OthersEndNothing` | src/abstract_block_dumper/_internal/dal/attempt_transitions.py:118-164 | No run of other processes' transactions records an outcome in the name of a given run, commits that run's writes, or loses writes |
| `Workers.OthersAreInterference` | src/abstract_block_dumper/_internal/dal/attempt_transitions.py:31-233 | Anything other processes can do between two statements, to the row and to the committed writes, is within what the methods below assume of it |
| `Workers.AttemptRow.Claim` | src/abstract_block_dumper/_internal/dal/attempt_transitions.py:99-115 | The claim succeeds if and only if the row is PENDING and before its deadline; then the whole new row and the new claim record are given, otherwise nothing changes |
| `Workers.AttemptRow.FinishSuccess` | src/abstract_block_dumper/_internal/services/task_runner.py:82-92 | The end of the function's transaction: recorded if and only if the row is RUNNING under this run's token and the transaction commits, and then together with the writes; otherwise neither |
| `Workers.AttemptRow.FinishFailure` | src/abstract_block_dumper/_internal/services/task_runner.py:82-92 | The same for a function that raised |
| `Workers.AttemptRow.RecordFailure` | src/abstract_block_dumper/_internal/services/task_runner.py:164-173 | A failure recorded in a transaction of its own, under the fence: no writes come with it |
| `Workers.AttemptRow.FailExpiredLease` | src/abstract_block_dumper/_internal/dal/attempt_transitions.py:176-183 | Fails the row if and only if it is RUNNING and its lease has passed at that instant; the whole new row and the ending are given |
| `Workers.AttemptRow.ResetStuck` | src/abstract_block_dumper/_internal/services/reconciler.py:171-184 | Resets the row if and only if the re-check holds; a reachable row is then never RUNNING, so no claim ends |
| `Workers.DispatchRetry` | src/abstract_block_dumper/_internal/services/queue_executor.py:110-159 | Under any interference: a message is sent only with the ETA that was read, to the queue of the read while it is defined, else to the backfill queue or live, with the expiry that queue gives it at its send instant, and with a stamp written by this call, no earlier than its start; a final row gets none and stays final; alone, a row awaiting its retry is always sent and ends PENDING, dispatched since the call began |
| `Workers.CreateOrReopen` | src/abstract_block_dumper/_internal/dal/attempt_transitions.py:31-56 | A final row is never reopened, an existing one never created again; alone, the row ends PENDING if and only if it was missing, PENDING, or failed and due, and is untouched otherwise |
| `Workers.GaveUp` | src/abstract_block_dumper/_internal/services/queue_executor.py:161-171 | After a no, the row is final, RUNNING or before its deadline at that instant; after a yes it is given up for block age past its deadline; with seconds left given the row has a deadline, and alone it is the earlier one or lies that many seconds after an instant of the call; alone, a PENDING row past its deadline, or with no time left, is always given up |
| `Workers.Execute` | src/abstract_block_dumper/_internal/services/queue_executor.py:24-108 | Under any interference: a message goes to the attempt's own queue while that is defined, else to the one named or live, with the ETA that was read, the expiry its queue gives it at its send instant and a stamp written by this call; a final row gets none; alone, with time passing, a submittable row ends dispatched or given up, a message goes out exactly when it is not given up, any other row is untouched; and on a queue that gives up after n blocks a row without a deadline whose block is n or more behind the head is given up, and otherwise gets a deadline as many block times ahead as it is short of that |
| `Workers.OpenRun` | src/abstract_block_dumper/_internal/services/task_runner.py:115-122 | A claim opens a run of its own, made since the call began under the very limit passed in, that no outcome has ended and that was read back at or after the claim; alone, a row claimable to the end is claimed, only one claimable at the start is, and its lease ends the limit and the margin (or without a limit the stuck-task timeout) after the claim |
| `Workers.ClaimForRun` | src/abstract_block_dumper/_internal/services/task_runner.py:115-148 | The same with the surrounding decisions; alone, a PENDING row is claimed or, once its deadline passes, given up, and the rest is reported as locked or already processed and untouched |
| `Workers.RecordOutcome` | src/abstract_block_dumper/_internal/services/task_runner.py:79-103 | Two transactions under interference: writes and outcome together, both rolled back when the claim is lost; when that transaction is unusable or fails to commit, a failure on its own. The run's writes are in the database if and only if the first one committed, and what was recorded is what the execution calls for |
| `Workers.FinishRun` | src/abstract_block_dumper/_internal/services/task_runner.py:105-113 | The run's writes are in the database if and only if it recorded an outcome and its function's transaction was usable and committed, whatever other processes do meanwhile; other runs' writes are kept |
| `Workers.RunTask` | src/abstract_block_dumper/_internal/services/task_runner.py:47-113 | One message under arbitrary interference: the claim is made under the message's limit, the run's writes are in the database if and only if its own outcome was recorded in its own transaction, and a result is returned only for a row that is SUCCESS by this run with its writes; alone, with time passing, a row claimable to the end is run, and a failure leaves it given up or with its retry dispatched |
| `Leases.ClaimIsSafe` | src/abstract_block_dumper/_internal/services/recovery_settings.py:55-66 | For every accepted declaration and every message under a hard limit: after a claim under that limit, on whatever run follows, the sweep cannot match the row while that claim is the latest before the pool has killed the run and the margin is over |
| `Leases.RunMessage` | src/abstract_block_dumper/_internal/services/task_runner.py:117-122 | So for every run of `Workers.RunTask` under the limit the worker's pool enforces |
| `Leases.ClaimMessage` | src/abstract_block_dumper/_internal/services/task_runner.py:115-122 | And from the moment of its claim on |
| `Sweep.RecoverExpiredLease` | src/abstract_block_dumper/_internal/services/reconciler.py:99-135 | Under any interference a run of the protocol; alone, with time passing, a row whose lease has passed at the start is failed by the rules of the row as it stood and ends given up or with its retry dispatched, one whose lease has not passed by the end is untouched, and the result says whether a message went out |
| `Sweep.RecoverExpiredMessage` | src/abstract_block_dumper/_internal/services/reconciler.py:137-166 | The same for a row whose message expired, re-checked in the UPDATE; it is sent to the queue of its retries and ages by that queue's policy against the sweep's head |
| `Sweep.RecoverStuck` | src/abstract_block_dumper/_internal/services/reconciler.py:168-210 | The same for a stuck row, re-checked under its lock against the sweep's cutoff |
| `Sweep.Pick` | src/abstract_block_dumper/_internal/dal/queue_attempts.py:101-112 | The first `limit` of the selected rows, each once, and all of them if fewer: no selected row left out has an earlier lease (dispatch, last change) than a picked one, nor an equal one with a smaller id |
| `Sweep.Query` | src/abstract_block_dumper/_internal/services/reconciler.py:65-90 | Between phases other processes do what they may; with limit to spare the query still returns every row that is alone, was chosen when the sweep began and was not handled since, and without it none of those is passed over for one that comes after it |
| `Sweep.RecoverAll` | src/abstract_block_dumper/_internal/services/reconciler.py:66-71 | With time passing and other processes at work on every row before each turn: each picked row that is alone ends given up or dispatched since it was picked, and every other row that is alone is untouched |
| `Sweep.Reconcile` | src/abstract_block_dumper/_internal/services/reconciler.py:46-97 | One sweep, each phase queried at its own instant, other processes at work on all rows throughout: at most `limit` rows handled over all categories, a run of the protocol on every row, rows that are alone untouched unless handled, those handled given up or dispatched since the sweep began; with limit to spare every row that is alone and was due when it began is handled, and without it no message is handled before all leases nor a stuck row before all messages |
| `Sweep.Rounds` | src/abstract_block_dumper/_internal/services/reconciler.py:65-84 | Phase after phase of one category with a limit of any size, for leases and messages of rows that are alone: a chosen row is reached as soon as the phases handle more rows than stood ahead of it, whatever becomes due meanwhile |
| `Sweep.OwedIsDue` | src/abstract_block_dumper/_internal/services/reconciler.py:46-97 | In particular every owed row of a disciplined run |
| `Sweep.OwedIsDueIff` | src/abstract_block_dumper/_internal/services/reconciler.py:46-97 | Every reachable row still owed a run is, past its horizon, due for that sweep if and only if a rule still reaches it |
| `TimeLimits.DefaultClearsSoftLimits` | src/abstract_block_dumper/_internal/services/time_limits.py:75-102 | The default hard limit is positive, at least the stuck-task timeout, and a full margin above every soft limit it has to clear |
| `TimeLimits.DefaultIsLeast` | src/abstract_block_dumper/_internal/services/time_limits.py:75-102 | On the declaration: it is the least limit at or above the timeout and a margin above the soft limits of the task, the config and every queue without a hard limit of its own; other queues' soft limits do not matter |
| `TimeLimits.WorkerAppliesCheckedLimits` | src/abstract_block_dumper/_internal/services/utils.py:40-55 | On every message the library sends, a worker enforces exactly the two limits the declaration was checked with |
| `TimeLimits.SoftLimitFiresFirst` | src/abstract_block_dumper/_internal/services/time_limits.py:105-136 | For every accepted declaration and every message, the effective soft limit is strictly below the effective hard one |
| `TimeLimits.LimitsPassIff` | src/abstract_block_dumper/_internal/services/time_limits.py:105-136 | The check accepts a declaration if and only if on every message, those without queue limits included, the worker's soft limit is below its hard one |
| `TimeLimits.UnlimitedIff` | src/abstract_block_dumper/_internal/services/time_limits.py:59-72 | A message runs without a hard limit if and only if its queue, the Celery config and the task set none and the default was removed or there is no stuck-task timeout |
| `TimeLimits.DefaultRejectedIff` | src/abstract_block_dumper/_internal/services/time_limits.py:116-136 | With a positive margin, a declaration with the default limit is rejected if and only if some queue's own hard limit, with no soft limit beside it, is not above the task's soft limit |
| `TimeLimits.LeaseOutlivesRun` | src/abstract_block_dumper/_internal/services/recovery_settings.py:55-66 | For every accepted declaration, every message under a hard limit and every run of the protocol: whenever the lease sweep can match a row, the margin has passed since the pool, which kills at the later of the two limits, killed the run |
| `TimeLimits.LeaseCoversRunIff` | src/abstract_block_dumper/_internal/services/time_limits.py:111-115 | Without the check: the lease covers the run and the margin if and only if the soft limit is not above the hard one |
| `RetryPolicies.DelayNeverShrinks` | src/abstract_block_dumper/_internal/services/retry_policy.py:61-74 | For every valid policy the delay is nondecreasing in the attempt number, across the fast phase, the backoff and the overflow branch |
| `RetryPolicies.DelayStaysInBounds` | src/abstract_block_dumper/_internal/services/retry_policy.py:61-67 | Every delay lies between min(fast delay, cap) and the cap |
| `RetryPolicies.BackoffStartsAndGrows` | src/abstract_block_dumper/_internal/services/retry_policy.py:61-71 | The first retry after the fast ones waits the first backoff, within fast delay and cap, and each further exact backoff is the last one times the multiplier |
| `RetryPolicies.DelayIsIdealIff` | src/abstract_block_dumper/_internal/services/retry_policy.py:69-74 | The delay equals the one the policy describes without floats if and only if the overflow branch is not taken, or it is harmless (no backoff, or a cap the exact delay reaches); it is never shorter |
| `RetryPolicies.OverflowCanOvershoot` | src/abstract_block_dumper/_internal/services/retry_policy.py:72-74 | For every float range there is a valid policy, doubling from a tiny first delay, whose first overflowed power still gives a delay below the cap: the delay is then the cap, longer than described |
| `RetryPolicies.StagedDelayNeverShrinks` | src/abstract_block_dumper/_internal/dal/django_dal.py:42-49 | The staged settings schedule is nondecreasing under its cap |
| `RetryPolicies.SettingsBackoffStartsAndGrows` | src/abstract_block_dumper/_internal/dal/django_dal.py:42-49 | The same for the settings' schedule |
| `RetryPolicies.LegacyDelayIsOldFormula` | src/abstract_block_dumper/_internal/dal/django_dal.py:52-63 | The legacy settings give min(cap, 60 * B ** n) seconds for every n >= 1 and B >= 0 |
| `Throttle.ThrottleGate.Admit` | src/abstract_block_dumper/_internal/services/throttle.py:44-68 | The cached room is never negative, only the target's entry changes, a yes means room is left, unthrottled targets always pass; cached room is used without a read, a gate that need not wait answers by one read; a gate that has to wait is admitted if and only if some poll finds room with none up to it saying stop, and its room is then what the first such poll found |
| `Throttle.ThrottleGate.Spent` | src/abstract_block_dumper/_internal/services/throttle.py:70-73 | Takes one from the target's entry and keeps it non-negative |
| `Throttle.SubmitArgs` | src/abstract_block_dumper/_internal/services/queue_backfiller.py:50-69 | One args set of a pass, while the count changes from admission to admission: what was sent so far is the least of the room at the first admission and what could be sent so far |
| `Throttle.ProcessItemRange` | src/abstract_block_dumper/_internal/services/queue_backfiller.py:71-99 | A lookback pass sends exactly min(max(0, throttle - in flight at its first admission), sendable blocks), whatever the count does afterwards, and everything sendable without a throttle |
| `InFlight.OneRowMovesCountByOne` | src/abstract_block_dumper/_internal/services/throttle.py:80-87 | A change of one row moves the count by that row's own contribution |
| `InFlight.StatementsAddAtMostOne` | src/abstract_block_dumper/_internal/dal/attempt_transitions.py:118-233 | No statement puts more than its own row in flight, and only one that was not counted; outcomes, expired leases, giving up and a retry before its ETA put none |
| `InFlight.SentIsCounted` | src/abstract_block_dumper/_internal/dal/attempt_transitions.py:219-233 | A row that is dispatched or requeued counts as in flight from that instant on, or waits for an ETA still ahead |
| `InFlight.TimeAddsOnlyRetries` | src/abstract_block_dumper/_internal/dal/queue_attempts.py:63-71 | Time only takes rows out of flight, except the retries whose ETA it reaches |
| `InFlight.NeverAboveThrottle` | src/abstract_block_dumper/_internal/services/throttle.py:44-77 | Over a table of rows with the count query as the read, however the gate's admissions, the statements of the submissions it admitted, any statements of other processes on any rows and time interleave: the rows in flight never exceed the throttle (or the start) by more than what others put in flight past the gate |
| `InFlight.UnsentSubmissionsClose` | src/abstract_block_dumper/_internal/services/queue_backfiller.py:65-69 | A submission that gave its row up or left it alone put nothing in flight, so it may end without spending room |
| `InFlight.OverfullGateOnlyDrains` | src/abstract_block_dumper/_internal/services/throttle.py:54-59 | With only the gate's submissions, claims of rows in flight, completions and time in which no retry comes due: a queue at or below its throttle stays there at every point of a submission, and one above it never grows |
| `Lookback.AttemptTable.Execute` | src/abstract_block_dumper/_internal/services/executor.py:23-71 | The row exists afterwards, and a message goes out if and only if it was missing, PENDING, or failed with tries left and due |
| `Lookback.AttemptTable.SkipBlocks` | src/abstract_block_dumper/_internal/services/window_backfiller.py:85-96 | Two queries with other processes at work between them: every skipped block has a row; undisturbed, what is left has no attempt yet or a failed one |
| `Lookback.SkippedIsHandled` | src/abstract_block_dumper/_internal/services/window_backfiller.py:73-79 | A skipped block has its row, and submitting it would send nothing but a second message for a PENDING one; a block left in is sent unless its failed attempt is used up or not due |
| `Lookback.SubmitAdmitted` | src/abstract_block_dumper/_internal/services/queue_backfiller.py:55-69 | Without a throttle the block always gets its row; no other row changes; with one, the room is what the admission found, less one exactly for a message sent, and without room nothing is written |
| `Lookback.ProcessArgs` | src/abstract_block_dumper/_internal/services/window_backfiller.py:83-99 | With other processes at work before every block and each submission at its own instant: what matched before the block that raised, or the end, has a row if the task is unthrottled; undisturbed, nothing raised before it and every other row is as it was |
| `Lookback.ProcessItemRange` | src/abstract_block_dumper/_internal/services/window_backfiller.py:66-100 | With other processes at work throughout: a condition that raises stops the pass, what matched before has a row, and a pass that is not stopped covers the range of an unthrottled task, `@block_task` or `BlockDumper`; undisturbed, it stops exactly at the first raise, keys first met from there on are in the table exactly if they were, and the range is covered if and only if nothing is lost by that |
| `Lookback.StopIsFirstRaise` | src/abstract_block_dumper/_internal/services/window_backfiller.py:97-99 | The place where a pass stops is a function of the rows before it: the first cell, in the order of args sets and blocks, that has to be looked at and raises |
| `Lookback.CoveredIff` | src/abstract_block_dumper/_internal/services/window_backfiller.py:97-99 | Undisturbed, the range is covered if and only if every matching cell first met from that place on had a row before the pass |
| `Lookback.RaiseCostsLaterBlocks` | src/abstract_block_dumper/_internal/services/window_backfiller.py:97-99 | A run: block 1 raises, and block 2, which matches, is left without a row |
| `Lookback.ProcessBlock` | src/abstract_block_dumper/_internal/services/block_processor.py:70-87 | A live block is submitted for every args set that matches, whichever others raise |
| `Lookback.FillLookback` | src/abstract_block_dumper/_internal/services/scheduler.py:262-306 | For every unthrottled task whose condition never raises the whole trailing window is covered, whichever other tasks fail and whatever other processes write meanwhile |
| `Lookback.TaskScheduler.EnsureStartingBlock` | src/abstract_block_dumper/_internal/services/scheduler.py:132-151 | A head's start is resolved once and kept; a failed read leaves it pending |
| `Lookback.TaskScheduler.Poll` | src/abstract_block_dumper/_internal/services/scheduler.py:153-180 | A cursor not known yet is resolved if it can be, it moves exactly to a read above it, the read is recorded as observed, other heads are unaffected, and after a head was processed the window and the head are covered |
| `Lookback.ProcessedIncreases` | src/abstract_block_dumper/_internal/services/scheduler.py:168-178 | Over any sequence of polls, failed resolutions and reads included, the processed heads strictly increase and the cursor stands at the last of them |
| `Lookback.WindowExtendsCoverage` | src/abstract_block_dumper/_internal/services/scheduler.py:284-286 | A window that reaches back to the last covered block extends the coverage without a hole |
| `Lookback.Polls` | src/abstract_block_dumper/_internal/services/scheduler.py:115-130 | Over any run of polls, from a cursor known or not, with reads and resolutions failing as they may and other processes at work throughout, for an unthrottled task with lookback N whose condition never raises: if each processed head is at most N+1 above the one before, every matching block from max(0, first head - N) to the current head has a row for every args set |
| `Backfill.LoopOrderIsIrrelevant` | src/abstract_block_dumper/_internal/services/backfill_scheduler.py:217-242 | The dry run's order of loops (tasks, args, blocks) and the backfill's (blocks, tasks, args) count the same cells |
| `Backfill.Prefetch` | src/abstract_block_dumper/_internal/services/backfill_scheduler.py:330-346 | The cache holds, for each task and args set, exactly the SUCCESS blocks of the range |
| `Backfill.DryRun` | src/abstract_block_dumper/_internal/services/backfill_scheduler.py:174-247 | estimated_tasks counts every un-executed matching cell, blocks_needing_tasks the blocks with at least one, raising conditions skipped |
| `Backfill.SubmittingKeepsSends` | src/abstract_block_dumper/_internal/services/executor.py:23-34 | A submission changes for no key whether submitting that one, then or later, sends a message |
| `Backfill.RunBackfill` | src/abstract_block_dumper/_internal/services/backfill_scheduler.py:249-407 | With time passing from submission to submission: the number of messages sent and the set of blocks sent, as sums over the table before the run with each cell judged when the run gets to it; afterwards every matching cell of the range has a row, every cell sent is PENDING since the instant of its submission, and every other row is as it was |
| `Backfill.DryRunPredictsIff` | src/abstract_block_dumper/_internal/services/backfill_scheduler.py:174-247 | The estimate is never below the messages sent, and equals it if and only if no wanted attempt is held back, at the time the run gets to it, by a run in progress, used-up tries or a retry still ahead |
| `Backfill.DryRunPredictsBackfill` | src/abstract_block_dumper/_internal/services/backfill_scheduler.py:249-407 | With only SUCCESS rows around, the dry run gives the number of messages and the exact blocks of the real run |
| `Gaps.FindGaps` | src/abstract_block_dumper/management/commands/backfill_blocks_v1.py:50-67 | For any range, inverted ones included, and any processed set: the gaps are non-empty, ordered and never adjacent, hold exactly the unprocessed blocks of the range, and their sizes plus the processed blocks in range make up its length |
| `Gaps.Scan` | src/abstract_block_dumper/management/commands/backfill_blocks_v1.py:52-65 | The loop with its open gap computes the gaps block by block |
| `Gaps.GapsAreMaximal` | src/abstract_block_dumper/management/commands/backfill_blocks_v1.py:56-61 | The blocks just outside a gap are processed or outside the range |
| `Gaps.GapsAreUnique` | src/abstract_block_dumper/management/commands/backfill_blocks_v1.py:50-67 | No other list of gaps has these properties |

## Left out

- Guarantees.AttemptsAreBounded: holds for disciplined runs only, because it is false without either half of that (`Counterexamples.StaleSweepExceedsLimit`, `Counterexamples.ReusedTokenExceedsLimit`); `Guarantees.RunStaysWithinIff` is the statement for all runs
- Recovery.NoAttemptIsStranded: needs a positive attempt limit and a disciplined run, because it is false without (`Counterexamples.StaleSweepStrands`); `Recovery.StrandedIff` is the statement for all runs; without a stuck-task timeout the code leaves lost rows alone on purpose
- Recovery.MessageRecoveryNeverOvertakes: the sweep is given one instant for both clocks, the send follows its stamp within the margin, and the ETA its sender read is covered as stated; `Recovery.MarginIsExact` says that none of this slack can be given up
- Throttle.ThrottleGate.Admit: a waiting gate meets a finite sequence of polls, so a gate that waits for ever is not modelled
- Throttle.ProcessItemRange: conditions answer and sends succeed or find nothing to send; one that raises ends the pass as it does in `Lookback.ProcessItemRange`
- InFlight.NeverAboveThrottle: one gate, one submission at a time; live submissions, retries, the sweep and other gates are statements past it, counted as such, and may exceed the throttle, as the queue's documentation says; both clocks move forward
- Sweep.RecoverExpiredLease: a task missing from the registry and a send that raises are left out; the row then stays as the last statement left it, which the protocol covers
- Workers.Execute: archive-network hints and `celery_queue_override` are not modelled; a message is its queue, ETA and expiry, and sending it does not fail
- Workers.RunTask: a database error while claiming, or while recording a failure on its own, is a run of the protocol that stops there; the function itself is its result, whether it left its transaction usable and whether that commits
- Sweep.Rounds: phases of one category, leases or messages; stuck rows are sorted on Python clocks, which may disagree, and what a category gets of a whole sweep's limit is what the ones before it leave
- Sweep.Reconcile: the number it returns for the log is only bounded by the rows handled
- Sweep.Reconcile: each process's Python clock moves forward during a sweep; rows that other processes work on are promised safety only
- TimeLimits.SoftLimitFiresFirst: conflicts between queues of several dumpers are not part of this model
- Lookback.ProcessItemRange: the number of submissions a pass returns for the log is not part of it; for a throttled queue it is `Throttle.ProcessItemRange`
- Lookback.AttemptTable.ExecuteOnQueue: leaves open what the submission of a `BlockDumper` task writes into its row, since coverage only needs the row; `Workers.Execute` states it
- Backfill.RunBackfill: stopping in the middle, rate limiting and sends that fail are left out
- RetryPolicies.DelayNeverShrinks: infinities, NaN and rounding of floats are left out; Python integers that never overflow are the case of an unbounded float range
- The worker-side `@block_task` protocol and its recovery: it saves whole rows without fences and promises none of the above
- `cleanup_old_tasks` and cascading deletes: they end a row's history on purpose; all run properties are about a row while it exists
- Broker contacts, queue declarations, Celery configuration and signals, the Bittensor client, the admin, metrics, logging and the queue monitor
- Argument serialization, module discovery and the registry: arguments are an abstract key, and a task's queues are given
- Changing settings or redefining queues while rows exist
