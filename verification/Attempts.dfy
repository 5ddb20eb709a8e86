/** A recorded task attempt: one database row per block, task and arguments. */
module Attempts {
  import opened Base

  datatype Status = Pending | Running | Success | Failed

  datatype GiveUpReason = NoAttemptsLeft | BlockAge | Manual

  /**
   * The columns the lifecycle reads or writes. `dispatchedAt`, `leaseExpiresAt`, `lastAttemptedAt` and
   * `giveUpAt` are on the database clock; `nextRetryAt`, `createdAt` and `updatedAt` on the clock of
   * the Python process that wrote them.
   */
  datatype Attempt = Attempt(
    block: int,
    status: Status,
    attemptCount: nat,
    claimToken: Option<string>,
    result: Option<string>,
    dispatchQueue: Option<string>,
    dispatchedAt: Option<Instant>,
    leaseExpiresAt: Option<Instant>,
    lastAttemptedAt: Option<Instant>,
    nextRetryAt: Option<Instant>,
    giveUpAt: Option<Instant>,
    giveUpReason: Option<GiveUpReason>,
    createdAt: Instant,
    updatedAt: Instant)

  function NewAttempt(block: int, py: Instant): Attempt {
    Attempt(block, Pending, 0, None, None, None, None, None, None, None, None, None, py, py)
  }

  /** Neither finished nor given up: the system still owes this attempt a run. */
  predicate StillOwed(a: Attempt) {
    !a.status.Success? && a.giveUpReason.None?
  }
}
