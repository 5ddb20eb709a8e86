/** What the recovery sweep selects: nothing twice, nothing too early, and in the end everything still owed. */
module Recovery {
  import opened Base
  import opened Attempts
  import opened Conditions
  import opened Queues
  import opened Selection
  import opened Protocol
  import opened Guarantees

  /** The three kinds of attempts a sweep recovers, in its order. */
  datatype Category = ExpiredLease | ExpiredMessage | Stuck

  predicate Selected(cfg: Config, a: Attempt, category: Category, db: Instant, py: Instant) {
    match category
    case ExpiredLease => LeaseExpired(a, db)
    case ExpiredMessage => MessageExpired(a, cfg.TtlWindows(), db, py)
    case Stuck =>
      && cfg.settings.staleTimeout.Some?
      && IsStuck(a, cfg.settings.maxAttempts, py - cfg.settings.staleTimeout.value, cfg.TtlWindows().Keys)
  }

  lemma ExpiredLeaseFilterMeaning(a: Attempt, db: Instant)
    ensures Selects(ExpiredLeaseFilter(db), a) <==> LeaseExpired(a, db)
  {
    CompiledMatchesPython(ExpiredLeaseFilter(db), a);
  }

  /** No row is selected by two categories, whatever it holds. */
  lemma SelectionsAreDisjoint(cfg: Config, a: Attempt, c: Category, d: Category, db: Instant, py: Instant)
    requires Selected(cfg, a, c, db, py) && Selected(cfg, a, d, db, py)
    ensures c == d
  {
  }

  // ---- the throttle's count and the sweep share the rows out between them

  function TtlWindow(cfg: Config, queue: Queue): Option<Seconds> {
    if queue.messageTtl.Some? then Some(queue.messageTtl.value + cfg.settings.margin) else None
  }

  function StaleBefore(cfg: Config, py: Instant): Option<Instant> {
    if cfg.settings.staleTimeout.Some? then Some(py - cfg.settings.staleTimeout.value) else None
  }

  /** Counted by the throttle of `queue` at this instant. */
  predicate InFlight(cfg: Config, a: Attempt, queue: Queue, db: Instant, py: Instant) {
    Selects(InFlightFilter(queue.name, TtlWindow(cfg, queue), StaleBefore(cfg, py), db, py), a)
  }

  /** A retry whose start time has not come. */
  predicate AwaitsEta(a: Attempt, py: Instant) {
    a.status.Pending? && a.nextRetryAt.Some? && a.nextRetryAt.value > py
  }

  function Truths(a: bool, b: bool, c: bool): nat {
    (if a then 1 else 0) + (if b then 1 else 0) + (if c then 1 else 0)
  }

  predicate Recoverable(cfg: Config, a: Attempt, db: Instant, py: Instant) {
    || Selected(cfg, a, ExpiredLease, db, py)
    || Selected(cfg, a, ExpiredMessage, db, py)
    || Selected(cfg, a, Stuck, db, py)
  }

  /** A dispatched PENDING row is exactly one of in flight, waiting for its ETA, or up for recovery. */
  lemma PendingRowsArePartitioned(cfg: Config, a: Attempt, queue: Queue, db: Instant, py: Instant)
    requires cfg.Valid() && a.status.Pending? && cfg.GetQueue(a.dispatchQueue) == Some(queue)
    requires a.dispatchedAt.Some? && (queue.messageTtl.None? ==> cfg.settings.staleTimeout.Some?)
    ensures Truths(InFlight(cfg, a, queue, db, py), AwaitsEta(a, py), Recoverable(cfg, a, db, py)) == 1
  {
    InFlightFilterMeaning(a, queue.name, TtlWindow(cfg, queue), StaleBefore(cfg, py), db, py);
  }

  /** A leased RUNNING row is exactly one of in flight or up for recovery. */
  lemma RunningRowsArePartitioned(cfg: Config, a: Attempt, queue: Queue, db: Instant, py: Instant)
    requires cfg.Valid() && a.status.Running? && cfg.GetQueue(a.dispatchQueue) == Some(queue)
    requires a.leaseExpiresAt.Some?
    ensures InFlight(cfg, a, queue, db, py) <==> !Recoverable(cfg, a, db, py)
  {
    InFlightFilterMeaning(a, queue.name, TtlWindow(cfg, queue), StaleBefore(cfg, py), db, py);
  }

  // ---- no attempt is stranded

  function OptionalPlus(t: Option<Instant>, d: Seconds): Instant {
    if t.Some? then t.value + d else 0.0
  }

  /** A time past which nothing the row waits for lies ahead, on either clock. */
  function Horizon(cfg: Config, a: Attempt): Instant
    requires cfg.settings.staleTimeout.Some?
  {
    var timeout := cfg.settings.staleTimeout.value;
    var windows := cfg.TtlWindows();
    var window :=
      if a.dispatchQueue.Some? && a.dispatchQueue.value in windows then windows[a.dispatchQueue.value] else 0.0;
    Max(OptionalPlus(a.leaseExpiresAt, 0.0),
        Max(Max(OptionalPlus(a.dispatchedAt, window), OptionalPlus(a.nextRetryAt, window)),
            Max(a.updatedAt + timeout, OptionalPlus(a.nextRetryAt, timeout))))
  }

  /** Left alone for long enough, a row still owed a run is selected, except exactly one no rule covers. */
  lemma SelectedInTheEndIff(cfg: Config, a: Attempt, now: Instant, db: Instant, py: Instant)
    requires cfg.Valid() && cfg.settings.staleTimeout.Some? && RowInvariant(cfg, a, now) && StillOwed(a)
    requires db > Horizon(cfg, a) && py > Horizon(cfg, a)
    ensures Recoverable(cfg, a, db, py)
       <==> a.status.Running? || a.dispatchQueue.Some? || a.attemptCount < cfg.settings.maxAttempts
  {
  }

  /** What acting on a selection does to the row: the re-check accepts it and the row moves on. */
  ghost predicate RecheckAccepts(cfg: Config, s: State, category: Category, py: Instant)
    requires s.Exists() && cfg.settings.staleTimeout.Some?
  {
    match category
    case ExpiredLease =>
      var t := Apply(cfg, s, FailExpiredLease(|s.versions| - 1, py));
      |t.closed| == |s.closed| + 1 && t.Row().status.Failed?
    case ExpiredMessage =>
      var t := Apply(cfg, s, ClaimExpiredMessage(py));
      t.Row().dispatchedAt == Some(s.now) && t.Row().status.Pending? && t.Row().claimToken.None?
    case Stuck =>
      var t := Apply(cfg, s, ResetStuck(py - cfg.settings.staleTimeout.value, py));
      t.Row().status.Pending? && t.Row().updatedAt == py && t.Row().claimToken.None?
  }

  lemma SelectionIsAccepted(cfg: Config, s: State, category: Category, py: Instant)
    requires s.Exists() && cfg.settings.staleTimeout.Some? && Selected(cfg, s.Row(), category, s.now, py)
    ensures RecheckAccepts(cfg, s, category, py)
  {
  }

  /** Some rule still reaches the row: its lease, its queue's, or the settings' while it is below their limit. */
  predicate WithinReach(cfg: Config, a: Attempt) {
    a.status.Running? || a.dispatchQueue.Some? || a.attemptCount < cfg.settings.maxAttempts
  }

  /**
   * On every run, whatever its tokens and reads: leave a row that is neither SUCCESS nor given up alone until both
   * clocks have passed its horizon. Some category selects it exactly if a rule still reaches it; never do two; and
   * acting on the selection is accepted.
   */
  lemma StrandedIff(cfg: Config, s: State, db: Instant, py: Instant)
    requires cfg.Valid() && cfg.settings.staleTimeout.Some? && Reachable(cfg, s) && s.Exists() && StillOwed(s.Row())
    requires s.now <= db && db > Horizon(cfg, s.Row()) && py > Horizon(cfg, s.Row())
    ensures (exists c: Category :: Selected(cfg, s.Row(), c, db, py)) <==> WithinReach(cfg, s.Row())
    ensures forall c: Category, d: Category ::
              Selected(cfg, s.Row(), c, db, py) && Selected(cfg, s.Row(), d, db, py) ==> c == d
    ensures forall c: Category | Selected(cfg, s.Row(), c, db, py) ::
              RecheckAccepts(cfg, Apply(cfg, s, Tick(db)), c, py)
  {
    ReachableInvariant(cfg, s);
    SelectedInTheEndIff(cfg, s.Row(), s.now, db, py);
    ReachedByOneIff(cfg, s.Row(), db, py);
    forall c: Category | Selected(cfg, s.Row(), c, db, py)
      ensures RecheckAccepts(cfg, Apply(cfg, s, Tick(db)), c, py)
    {
      SelectionIsAccepted(cfg, Apply(cfg, s, Tick(db)), c, py);
    }
  }

  lemma ReachedByOneIff(cfg: Config, a: Attempt, db: Instant, py: Instant)
    ensures Recoverable(cfg, a, db, py) <==> exists c: Category :: Selected(cfg, a, c, db, py)
    ensures forall c: Category, d: Category :: Selected(cfg, a, c, db, py) && Selected(cfg, a, d, db, py) ==> c == d
  {
    forall c: Category, d: Category | Selected(cfg, a, c, db, py) && Selected(cfg, a, d, db, py)
      ensures c == d
    {
      SelectionsAreDisjoint(cfg, a, c, d, db, py);
    }
  }

  /** A row that no rule reaches stays so: out of every category's sight at every instant, for ever. */
  lemma OutOfReachForEver(cfg: Config, a: Attempt, c: Category, db: Instant, py: Instant)
    requires !WithinReach(cfg, a) && !a.status.Success?
    ensures !Selected(cfg, a, c, db, py)
  {
  }

  /** Discipline, with a positive limit, keeps every owed row within reach. */
  lemma DisciplineKeepsReach(cfg: Config, steps: seq<Step>, s: State)
    requires cfg.Valid() && cfg.settings.maxAttempts >= 1 && DisciplinedRun(cfg, START, steps, s)
    requires s.Exists() && StillOwed(s.Row())
    ensures WithinReach(cfg, s.Row())
  {
    DisciplinedRunsStayBounded(cfg, START, steps, s);
    assert RowBounded(cfg, s, 0);
  }

  lemma {:induction false} DisciplinedIsRun(cfg: Config, s: State, steps: seq<Step>, t: State)
    requires DisciplinedRun(cfg, s, steps, t)
    ensures Run(cfg, s, steps, t)
    decreases |steps|
  {
    if steps != [] {
      DisciplinedIsRun(cfg, Apply(cfg, s, steps[0]), steps[1..], t);
    }
  }

  /** So on disciplined runs with a positive limit every owed row is selected in the end, by one category. */
  lemma NoAttemptIsStranded(cfg: Config, steps: seq<Step>, s: State, db: Instant, py: Instant)
    returns (category: Category)
    requires cfg.Valid() && cfg.settings.staleTimeout.Some? && cfg.settings.maxAttempts >= 1
    requires DisciplinedRun(cfg, START, steps, s) && s.Exists() && StillOwed(s.Row())
    requires s.now <= db && db > Horizon(cfg, s.Row()) && py > Horizon(cfg, s.Row())
    ensures forall c: Category :: Selected(cfg, s.Row(), c, db, py) <==> c == category
    ensures RecheckAccepts(cfg, Apply(cfg, s, Tick(db)), category, py)
  {
    DisciplineKeepsReach(cfg, steps, s);
    DisciplinedIsRun(cfg, START, steps, s);
    StrandedIff(cfg, s, db, py);
    category :| Selected(cfg, s.Row(), category, db, py);
  }

  // ---- message recovery never overtakes a live message

  /** The ETA of a message lies within the margin of its stamp `s` or of the retry the row `t` awaits. */
  predicate EtaCovered(cfg: Config, eta: Option<Instant>, s: Attempt, t: Attempt)
    requires s.dispatchedAt.Some?
  {
    || eta.None?
    || eta.value <= s.dispatchedAt.value + cfg.settings.margin
    || (t.nextRetryAt.Some? && eta.value <= t.nextRetryAt.value + cfg.settings.margin)
  }

  /**
   * `s` stamped a dispatch whose message went out at `sentAt`, within the margin, with the ETA its sender had read.
   * Whatever run follows, whenever the sweep selects the row as expired on that queue, the message has expired.
   */
  lemma MessageRecoveryNeverOvertakes(cfg: Config, s: State, steps: seq<Step>, t: State, queue: Queue,
                                      eta: Option<Instant>, sentAt: Instant, sweepAt: Instant)
    requires cfg.Valid() && Reachable(cfg, s) && Run(cfg, s, steps, t)
    requires s.Exists() && s.Row().dispatchedAt.Some?
    requires t.Exists() && t.Row().dispatchQueue == s.Row().dispatchQueue
    requires cfg.GetQueue(s.Row().dispatchQueue) == Some(queue)
    requires sentAt <= s.Row().dispatchedAt.value + cfg.settings.margin && EtaCovered(cfg, eta, s.Row(), t.Row())
    requires MessageExpired(t.Row(), cfg.TtlWindows(), sweepAt, sweepAt)
    ensures MessageExpiry(queue, eta, sentAt).Some?
    ensures MessageExpiry(queue, eta, sentAt).value < sweepAt
  {
    ReachableInvariant(cfg, s);
    RunsKeepInvariant(cfg, s, steps, t);
  }

  /** In particular a retry sent with the ETA of the row it was stamped on, until that row is claimed. */
  lemma RetryIsNotOvertaken(cfg: Config, s: State, steps: seq<Step>, t: State, queue: Queue, sentAt: Instant,
                            sweepAt: Instant)
    requires cfg.Valid() && Reachable(cfg, s) && Run(cfg, s, steps, t)
    requires s.Exists() && s.Row().status.Pending? && s.Row().dispatchedAt.Some?
    requires t.Exists() && t.Row().dispatchQueue == s.Row().dispatchQueue
    requires cfg.GetQueue(s.Row().dispatchQueue) == Some(queue)
    requires sentAt <= s.Row().dispatchedAt.value + cfg.settings.margin
    requires t.Row().attemptCount == s.Row().attemptCount
    requires MessageExpired(t.Row(), cfg.TtlWindows(), sweepAt, sweepAt)
    ensures MessageExpiry(queue, s.Row().nextRetryAt, sentAt).Some?
    ensures MessageExpiry(queue, s.Row().nextRetryAt, sentAt).value < sweepAt
  {
    ReachableInvariant(cfg, s);
    RunsKeepInvariant(cfg, s, steps, t);
    MessageRecoveryNeverOvertakes(cfg, s, steps, t, queue, s.Row().nextRetryAt, sentAt, sweepAt);
  }

  /**
   * The margin is the exact slack: a dispatch is safe from overtaking at every instant if and only if it was sent, and
   * its ETA lies, within the margin of the row's stamp or of the retry the row awaits.
   */
  lemma MarginIsExact(cfg: Config, a: Attempt, queue: Queue, eta: Option<Instant>, sentAt: Instant)
    requires cfg.Valid() && cfg.Registered(queue) && queue.Valid() && queue.messageTtl.Some?
    requires a.status.Pending? && a.dispatchQueue == Some(queue.name) && a.dispatchedAt.Some?
    ensures (forall at: Instant | MessageExpired(a, cfg.TtlWindows(), at, at) ::
               MessageExpiry(queue, eta, sentAt).value < at)
       <==> EtaCovered(cfg, Some(sentAt), a, a) && EtaCovered(cfg, eta, a, a)
  {
    var start := if eta.Some? then Max(sentAt, eta.value) else sentAt;
    if !(EtaCovered(cfg, Some(sentAt), a, a) && EtaCovered(cfg, eta, a, a)) {
      var at := start + queue.messageTtl.value;
      assert MessageExpired(a, cfg.TtlWindows(), at, at);
      assert MessageExpiry(queue, eta, sentAt).value >= at;
    }
  }
}
