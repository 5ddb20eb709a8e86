/**
 * Which attempts are in flight, lost or stuck: the WHERE clauses the sweep and the throttle send,
 * next to the predicates they stand for on a loaded row.
 */
module Selection {
  import opened Base
  import opened Attempts
  import opened Conditions

  // ---- RUNNING attempts whose lease has passed

  function ExpiredLeaseFilter(db: Instant): Q {
    And(StatusIs(Running), Is(LeaseExpiresAt, Lt, db))
  }

  predicate LeaseExpired(a: Attempt, db: Instant) {
    a.status.Running? && a.leaseExpiresAt.Some? && a.leaseExpiresAt.value < db
  }

  // ---- PENDING attempts whose message expired unexecuted

  /** Sent longer ago than the window, and any retry ETA lies that far back too. */
  predicate MessageLapsed(a: Attempt, window: Seconds, db: Instant, py: Instant) {
    && a.dispatchedAt.Some? && a.dispatchedAt.value < db - window
    && (a.nextRetryAt.None? || a.nextRetryAt.value < py - window)
  }

  predicate MessageExpired(a: Attempt, windows: map<string, Seconds>, db: Instant, py: Instant) {
    && a.status.Pending?
    && a.dispatchQueue.Some? && a.dispatchQueue.value in windows
    && MessageLapsed(a, windows[a.dispatchQueue.value], db, py)
  }

  function LapsedFilter(name: string, window: Seconds, db: Instant, py: Instant): Q {
    And(And(QueueIn({name}), Is(DispatchedAt, Lt, db - window)),
        Or(Null(At(NextRetryAt)), Is(NextRetryAt, Lt, py - window)))
  }

  lemma LapsedFilterMeaning(name: string, window: Seconds, db: Instant, py: Instant, a: Attempt)
    ensures Holds(LapsedFilter(name, window, db, py), a)
       <==> a.dispatchQueue == Some(name) && MessageLapsed(a, window, db, py)
  {
    assert Holds(And(QueueIn({name}), Is(DispatchedAt, Lt, db - window)), a)
      <==> Holds(QueueIn({name}), a) && Holds(Is(DispatchedAt, Lt, db - window), a);
    assert Holds(Or(Null(At(NextRetryAt)), Is(NextRetryAt, Lt, py - window)), a)
      <==> Holds(Null(At(NextRetryAt)), a) || Holds(Is(NextRetryAt, Lt, py - window), a);
  }

  /** Builds the clause queue by queue; the database then keeps exactly the expired messages. */
  method ExpiredMessageFilter(windows: map<string, Seconds>, db: Instant, py: Instant) returns (q: Q)
    ensures forall a: Attempt :: Selects(q, a) <==> MessageExpired(a, windows, db, py)
  {
    var expired := Never;
    var names := windows.Keys;
    while names != {}
      invariant names <= windows.Keys
      invariant forall a: Attempt :: Holds(expired, a) <==>
        && a.dispatchQueue.Some? && a.dispatchQueue.value in windows.Keys - names
        && MessageLapsed(a, windows[a.dispatchQueue.value], db, py)
      decreases names
    {
      var name :| name in names;
      ghost var before := expired;
      expired := Or(expired, LapsedFilter(name, windows[name], db, py));
      names := names - {name};
      forall a: Attempt
        ensures Holds(expired, a) <==>
          (Holds(before, a) || (a.dispatchQueue == Some(name) && MessageLapsed(a, windows[name], db, py)))
      {
        LapsedFilterMeaning(name, windows[name], db, py, a);
      }
    }
    q := And(StatusIs(Pending), expired);
    forall a: Attempt
      ensures Selects(q, a) <==> MessageExpired(a, windows, db, py)
    {
      CompiledMatchesPython(q, a);
      assert Holds(q, a) <==> Holds(StatusIs(Pending), a) && Holds(expired, a);
    }
  }

  // ---- attempts that only their age gives away

  /** The column is missing, or compares so. */
  function NullOr(time: TimeColumn, op: Comparison, t: Instant): Q {
    Or(Null(At(time)), Is(time, op, t))
  }

  lemma NullOrMeaning(time: TimeColumn, op: Comparison, t: Instant, a: Attempt)
    ensures Holds(NullOr(time, op, t), a) <==> Time(time, a).None? || Compares(Time(time, a).value, op, t)
  {
  }

  /** PENDING, or RUNNING without a lease. */
  function Unleased(): Q {
    Or(StatusIs(Pending), And(StatusIs(Running), Null(At(LeaseExpiresAt))))
  }

  /** FAILED with a retry that was due before the cutoff and was never enqueued. */
  function OrphanedRetry(staleBefore: Instant): Q {
    And(And(StatusIs(Failed), NotNull(At(NextRetryAt))), Is(NextRetryAt, Lt, staleBefore))
  }

  /** A PENDING attempt in a queue with a TTL and a recorded dispatch. */
  function LeftToMessageRecovery(ttlQueues: set<string>): Q {
    And(And(StatusIs(Pending), QueueIn(ttlQueues)), NotNull(At(DispatchedAt)))
  }

  function StuckFilter(maxAttempts: int, staleBefore: Instant, ttlQueues: set<string>): Q {
    var aged := And(And(Unleased(), Updated(Lt, staleBefore)), NullOr(NextRetryAt, Lt, staleBefore));
    var inFlight := And(aged, Not(LeftToMessageRecovery(ttlQueues)));
    var withinAttempts := Or(NotNull(QueueName), CountBelow(maxAttempts));
    And(Or(inFlight, OrphanedRetry(staleBefore)), withinAttempts)
  }

  lemma UnleasedMeaning(a: Attempt)
    ensures Holds(Unleased(), a) <==> a.status.Pending? || (a.status.Running? && a.leaseExpiresAt.None?)
  {
    assert Holds(And(StatusIs(Running), Null(At(LeaseExpiresAt))), a) <==> a.status.Running? && a.leaseExpiresAt.None?;
  }

  lemma OrphanedRetryMeaning(staleBefore: Instant, a: Attempt)
    ensures Holds(OrphanedRetry(staleBefore), a)
       <==> a.status.Failed? && a.nextRetryAt.Some? && a.nextRetryAt.value < staleBefore
  {
    assert Holds(And(StatusIs(Failed), NotNull(At(NextRetryAt))), a) <==> a.status.Failed? && a.nextRetryAt.Some?;
  }

  lemma LeftToMessageRecoveryMeaning(ttlQueues: set<string>, a: Attempt)
    ensures Holds(LeftToMessageRecovery(ttlQueues), a)
       <==> && a.status.Pending? && a.dispatchQueue.Some? && a.dispatchQueue.value in ttlQueues
            && a.dispatchedAt.Some?
  {
    assert Holds(And(StatusIs(Pending), QueueIn(ttlQueues)), a)
      <==> a.status.Pending? && a.dispatchQueue.Some? && a.dispatchQueue.value in ttlQueues;
  }

  /** The re-check on a row loaded under lock, branch by branch as the code has it. */
  predicate IsStuck(a: Attempt, maxAttempts: int, staleBefore: Instant, ttlQueues: set<string>) {
    if a.dispatchQueue.None? && a.attemptCount >= maxAttempts then false
    else if a.status.Running? && a.leaseExpiresAt.Some? then false
    else if a.status.Pending? && a.dispatchQueue.Some? && a.dispatchQueue.value in ttlQueues && a.dispatchedAt.Some?
      then false
    else if a.status.Pending? || a.status.Running? then
      a.updatedAt < staleBefore && (a.nextRetryAt.None? || a.nextRetryAt.value < staleBefore)
    else if a.status.Failed? then
      a.nextRetryAt.Some? && a.nextRetryAt.value < staleBefore
    else false
  }

  /** The clause and its re-check agree on every row, cutoff and TTL-queue set, NULLs and negation included. */
  lemma StuckFilterIsItsRecheck(a: Attempt, maxAttempts: int, staleBefore: Instant, ttlQueues: set<string>)
    ensures Selects(StuckFilter(maxAttempts, staleBefore, ttlQueues), a)
       <==> IsStuck(a, maxAttempts, staleBefore, ttlQueues)
  {
    var q := StuckFilter(maxAttempts, staleBefore, ttlQueues);
    CompiledMatchesPython(q, a);
    UnleasedMeaning(a);
    NullOrMeaning(NextRetryAt, Lt, staleBefore, a);
    OrphanedRetryMeaning(staleBefore, a);
    LeftToMessageRecoveryMeaning(ttlQueues, a);
    var inFlight := q.left.left;
    assert Holds(inFlight.left.left, a) <==> Holds(Unleased(), a) && a.updatedAt < staleBefore;
    assert Holds(inFlight, a) <==> Holds(inFlight.left, a) && !Holds(inFlight.right.inner, a);
    assert Holds(q.left, a) <==> Holds(inFlight, a) || Holds(q.left.right, a);
    assert Holds(q.right, a) <==> a.dispatchQueue.Some? || a.attemptCount < maxAttempts;
  }

  /**
   * Were the negation sent as plain SQL, without the IS NOT NULL Django adds, the two would part company
   * exactly on stuck PENDING rows that have a dispatch time but no recorded queue.
   */
  lemma PlainNegationAgreesIff(a: Attempt, ttlQueues: set<string>)
    ensures (Eval(Not(LeftToMessageRecovery(ttlQueues)), a).Yes? <==> Selects(Not(LeftToMessageRecovery(ttlQueues)), a))
       <==> !(a.status.Pending? && a.dispatchQueue.None? && a.dispatchedAt.Some?)
  {
    var left := LeftToMessageRecovery(ttlQueues);
    CompiledMatchesPython(Not(left), a);
    LeftToMessageRecoveryMeaning(ttlQueues, a);
    assert Holds(Not(left), a) <==> !Holds(left, a);
    assert Eval(left.left, a) == TruthAnd(Eval(StatusIs(Pending), a), Eval(QueueIn(ttlQueues), a));
    assert Eval(left, a) == TruthAnd(Eval(left.left, a), TruthOf(a.dispatchedAt.Some?));
    assert Eval(Not(left), a) == TruthNot(Eval(left, a));
  }

  // ---- attempts the throttle counts

  function RunningFilter(db: Instant): Q {
    And(StatusIs(Running), NullOr(LeaseExpiresAt, Ge, db))
  }

  function PendingFilter(ttlWindow: Option<Seconds>, staleBefore: Option<Instant>, db: Instant, py: Instant): Q {
    var due := And(StatusIs(Pending), NullOr(NextRetryAt, Le, py));
    if ttlWindow.Some? then
      And(due, Or(Is(DispatchedAt, Ge, db - ttlWindow.value), Is(NextRetryAt, Ge, py - ttlWindow.value)))
    else if staleBefore.Some? then
      And(due, Or(Updated(Ge, staleBefore.value), Is(NextRetryAt, Ge, staleBefore.value)))
    else due
  }

  function InFlightFilter(queue: string, ttlWindow: Option<Seconds>, staleBefore: Option<Instant>,
                          db: Instant, py: Instant): Q
  {
    And(QueueIn({queue}), Or(RunningFilter(db), PendingFilter(ttlWindow, staleBefore, db, py)))
  }

  predicate CountedRunning(a: Attempt, db: Instant) {
    a.status.Running? && (a.leaseExpiresAt.None? || a.leaseExpiresAt.value >= db)
  }

  predicate CountedPending(a: Attempt, ttlWindow: Option<Seconds>, staleBefore: Option<Instant>,
                           db: Instant, py: Instant)
  {
    && a.status.Pending?
    && (a.nextRetryAt.None? || a.nextRetryAt.value <= py)
    && (if ttlWindow.Some? then
          || (a.dispatchedAt.Some? && a.dispatchedAt.value >= db - ttlWindow.value)
          || (a.nextRetryAt.Some? && a.nextRetryAt.value >= py - ttlWindow.value)
        else if staleBefore.Some? then
          a.updatedAt >= staleBefore.value || (a.nextRetryAt.Some? && a.nextRetryAt.value >= staleBefore.value)
        else true)
  }

  lemma PendingFilterMeaning(a: Attempt, ttlWindow: Option<Seconds>, staleBefore: Option<Instant>,
                             db: Instant, py: Instant)
    ensures Holds(PendingFilter(ttlWindow, staleBefore, db, py), a)
       <==> CountedPending(a, ttlWindow, staleBefore, db, py)
  {
    NullOrMeaning(NextRetryAt, Le, py, a);
    var due := And(StatusIs(Pending), NullOr(NextRetryAt, Le, py));
    assert Holds(due, a) <==> a.status.Pending? && (a.nextRetryAt.None? || a.nextRetryAt.value <= py);
    var q := PendingFilter(ttlWindow, staleBefore, db, py);
    if ttlWindow.Some? {
      assert q.left == due;
      assert Holds(q.right, a) <==> Holds(q.right.left, a) || Holds(q.right.right, a);
    } else if staleBefore.Some? {
      assert q.left == due;
      assert Holds(q.right, a) <==> Holds(q.right.left, a) || Holds(q.right.right, a);
    }
  }

  /** What one count of a queue's attempts in flight counts. */
  lemma InFlightFilterMeaning(a: Attempt, queue: string, ttlWindow: Option<Seconds>, staleBefore: Option<Instant>,
                              db: Instant, py: Instant)
    ensures Selects(InFlightFilter(queue, ttlWindow, staleBefore, db, py), a)
       <==> && a.dispatchQueue == Some(queue)
            && (CountedRunning(a, db) || CountedPending(a, ttlWindow, staleBefore, db, py))
  {
    var q := InFlightFilter(queue, ttlWindow, staleBefore, db, py);
    CompiledMatchesPython(q, a);
    NullOrMeaning(LeaseExpiresAt, Ge, db, a);
    assert Holds(RunningFilter(db), a) <==> CountedRunning(a, db);
    PendingFilterMeaning(a, ttlWindow, staleBefore, db, py);
    assert Holds(q.right, a) <==> Holds(RunningFilter(db), a) || Holds(q.right.right, a);
  }
}
