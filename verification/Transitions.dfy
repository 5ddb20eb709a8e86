/**
 * Each transition of an attempt: the guard its UPDATE carries, and the row it leaves behind.
 *
 * `db` is the database clock and `py` the clock of the Python process at the statement.
 */
module Transitions {
  import opened Base
  import opened Attempts

  /** A FAILED attempt that was not given up; the guard of a reopen and of a retry. */
  predicate AwaitsRetry(a: Attempt) {
    a.status.Failed? && a.giveUpReason.None?
  }

  function Reopened(a: Attempt, py: Instant): Attempt {
    a.(status := Pending, updatedAt := py)
  }

  function Dispatched(a: Attempt, queue: string, db: Instant, py: Instant): Attempt {
    a.(dispatchQueue := Some(queue), dispatchedAt := Some(db), updatedAt := py)
  }

  function Restamped(a: Attempt, db: Instant, py: Instant): Attempt {
    a.(claimToken := None, dispatchedAt := Some(db), updatedAt := py)
  }

  predicate BeforeGiveUp(a: Attempt, db: Instant) {
    a.giveUpAt.None? || a.giveUpAt.value > db
  }

  predicate Claimable(a: Attempt, db: Instant) {
    BeforeGiveUp(a, db) && a.status.Pending?
  }

  function Claimed(a: Attempt, token: string, lease: Option<Seconds>, db: Instant, py: Instant): Attempt {
    a.(status := Running, attemptCount := a.attemptCount + 1, claimToken := Some(token),
       lastAttemptedAt := Some(db),
       leaseExpiresAt := if lease.Some? then Some(db + lease.value) else None, updatedAt := py)
  }

  /** The fence of a worker's outcome. */
  predicate HeldBy(a: Attempt, token: string) {
    a.status.Running? && a.claimToken == Some(token)
  }

  function Succeeded(a: Attempt, result: string, py: Instant): Attempt {
    a.(status := Success, result := Some(result), nextRetryAt := None, leaseExpiresAt := None, updatedAt := py)
  }

  /** Whether a retry after `delay` would start past the attempt's deadline. */
  predicate TooLate(a: Attempt, delay: Seconds, db: Instant) {
    a.giveUpAt.Some? && a.giveUpAt.value < db + delay
  }

  /** Ends a try in failure: a next one is scheduled, or the attempt is over and the reason recorded. */
  function FailedWith(a: Attempt, delay: Option<Seconds>, db: Instant, py: Instant): (r: Attempt)
    ensures r.status.Failed? && r.leaseExpiresAt.None? && r.attemptCount == a.attemptCount
    ensures r.giveUpReason.Some? <==> r.nextRetryAt.None?
  {
    var failed := a.(status := Failed, leaseExpiresAt := None, updatedAt := py);
    if delay.None? then failed.(nextRetryAt := None, giveUpReason := Some(NoAttemptsLeft))
    else if TooLate(a, delay.value, db) then failed.(nextRetryAt := None, giveUpReason := Some(BlockAge))
    else failed.(nextRetryAt := Some(py + delay.value), giveUpReason := None)
  }

  /** The deadline of the first send wins. */
  function WithDeadline(a: Attempt, seconds: Seconds, db: Instant): Attempt {
    a.(giveUpAt := if a.giveUpAt.Some? then a.giveUpAt else Some(db + seconds))
  }

  predicate CouldStillRun(a: Attempt) {
    (a.status.Pending? || a.status.Failed?) && a.giveUpReason.None?
  }

  predicate PastDeadline(a: Attempt, db: Instant) {
    CouldStillRun(a) && a.giveUpAt.Some? && a.giveUpAt.value <= db
  }

  function GivenUp(a: Attempt, reason: GiveUpReason, py: Instant): Attempt {
    a.(status := Failed, nextRetryAt := None, giveUpReason := Some(reason), updatedAt := py)
  }

  function Requeued(a: Attempt, queue: string, db: Instant, py: Instant): Attempt {
    a.(status := Pending, dispatchQueue := Some(queue), dispatchedAt := Some(db), updatedAt := py)
  }

  /** The stuck sweep's claim, saved whole under the row lock. */
  function ResetToPending(a: Attempt, py: Instant): Attempt {
    a.(claimToken := None, status := Pending, updatedAt := py)
  }

  /** SUCCESS recorded for a row that never started; removed at startup while recent. */
  predicate IsPhantom(a: Attempt, py: Instant) {
    a.status.Success? && a.lastAttemptedAt.None? && a.claimToken.None? && a.createdAt >= py - 3600.0
  }
}
