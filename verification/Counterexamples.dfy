/** Runs that show which assumptions the guarantees need: each breaks exactly one of them. */
module Counterexamples {
  import opened Base
  import opened Attempts
  import opened RetryPolicies
  import opened Queues
  import opened Transitions
  import opened Protocol
  import opened Guarantees
  import opened Recovery

  const TWO_TRIES := RetryPolicy(Some(2), None, 2, 5.0, 60.0, 2.0, 1200.0)
  const LIVE := Queue("live", None, None, None, None, TWO_TRIES)
  const CFG := Config(
    Settings(Some(1800.0), 10.0, 2, LegacySchedule(1.0), 1440.0, 1000000.0),
    map["live" := LIVE], LIVE, None)

  lemma CfgIsValid()
    ensures CFG.Valid() && CFG.CapsEveryRule(2)
    ensures CFG.GetQueue(Some("live")) == Some(LIVE) && "live" in CFG.TaskQueues()
  {
  }

  /** One more step at the end of a run. */
  lemma {:induction false} Extend(cfg: Config, s: State, steps: seq<Step>, t: State, step: Step)
    requires Run(cfg, s, steps, t) && Enabled(cfg, t, step)
    ensures Run(cfg, s, steps + [step], Apply(cfg, t, step))
    decreases |steps|
  {
    if steps == [] {
      assert Run(cfg, Apply(cfg, s, step), [], Apply(cfg, t, step));
      assert ([step])[1..] == [];
    } else {
      Extend(cfg, Apply(cfg, s, steps[0]), steps[1..], t, step);
      assert (steps + [step])[1..] == steps[1..] + [step];
    }
  }

  /** A failure of the first claim leaves a retry five seconds out. */
  lemma FirstTryMayRetry(a: Attempt)
    requires a.attemptCount == 1 && a.dispatchQueue == Some("live")
    ensures CFG.RetryDelay(a) == Some(5.0)
  {
  }

  /** The row claimed once by "m1" at time 0, with its history. */
  lemma ClaimedOnce() returns (steps: seq<Step>, s: State)
    ensures Run(CFG, START, steps, s) && |s.versions| == 3 && |s.claims| == 1 && s.closed == [] && s.now == 0.0
    ensures s.claims[0] == ClaimRecord("m1", 0.0, None, 2)
    ensures s.versions[2].attemptCount == 1 && s.versions[2].dispatchQueue == Some("live")
    ensures HeldBy(s.Row(), "m1") && s.Row().leaseExpiresAt == Some(1800.0) && s.Row().giveUpAt.None?
  {
    CfgIsValid();
    steps, s := [], START;
    var step := Create(7, 0.0);
    Extend(CFG, START, steps, s, step);
    steps, s := steps + [step], Apply(CFG, s, step);
    step := RecordDispatch("live", 0.0);
    Extend(CFG, START, steps, s, step);
    steps, s := steps + [step], Apply(CFG, s, step);
    step := Claim("m1", None, 0.0);
    Extend(CFG, START, steps, s, step);
    steps, s := steps + [step], Apply(CFG, s, step);
  }

  /** From a row whose first claim is open: its lease passes, and at time 1900 a sweep fails it with a retry. */
  lemma LeasePassed(steps0: seq<Step>, s0: State) returns (steps: seq<Step>, s: State)
    requires Run(CFG, START, steps0, s0) && |s0.versions| == 3 && |s0.claims| == 1 && s0.closed == [] && s0.now == 0.0
    requires s0.versions[2].attemptCount == 1 && s0.versions[2].dispatchQueue == Some("live")
    requires HeldBy(s0.Row(), "m1") && s0.Row().leaseExpiresAt == Some(1800.0) && s0.Row().giveUpAt.None?
    ensures Run(CFG, START, steps, s) && s0.versions <= s.versions && s.claims == s0.claims
    ensures s.now == 1900.0 && s.closed == [ByLeaseExpiry] && |s.versions| == 4
    ensures AwaitsRetry(s.Row()) && s.Row().attemptCount == 1 && s.Row().giveUpAt.None?
  {
    FirstTryMayRetry(s0.versions[2]);
    var step := Tick(1900.0);
    Extend(CFG, START, steps0, s0, step);
    steps, s := steps0 + [step], Apply(CFG, s0, step);
    step := FailExpiredLease(2, 1900.0);
    Extend(CFG, START, steps, s, step);
    steps, s := steps + [step], Apply(CFG, s, step);
  }

  /** The retry of a failed row goes out and `token` claims it. */
  lemma ClaimedAgain(steps0: seq<Step>, s0: State, token: string) returns (steps: seq<Step>, s: State)
    requires Run(CFG, START, steps0, s0) && s0.Exists() && AwaitsRetry(s0.Row()) && s0.Row().giveUpAt.None?
    ensures Run(CFG, START, steps, s) && s0.versions <= s.versions && |s.versions| == |s0.versions| + 2
    ensures s.now == s0.now && s.closed == s0.closed
    ensures s.claims == s0.claims + [ClaimRecord(token, s.now, None, |s.versions| - 1)]
    ensures HeldBy(s.Row(), token) && s.Row().attemptCount == s0.Row().attemptCount + 1
    ensures s.Row().leaseExpiresAt == Some(s.now + 1800.0) && s.Row().giveUpAt.None?
  {
    CfgIsValid();
    var step := RequeueForRetry("live", 1900.0);
    Extend(CFG, START, steps0, s0, step);
    steps, s := steps0 + [step], Apply(CFG, s0, step);
    step := Claim(token, None, 2000.0);
    Extend(CFG, START, steps, s, step);
    steps, s := steps + [step], Apply(CFG, s, step);
  }

  /** A row on its second claim, by `token`; the worker "m1" of the first one has recorded nothing. */
  lemma ClaimedTwice(token: string) returns (steps: seq<Step>, s: State)
    ensures Run(CFG, START, steps, s) && |s.versions| == 6 && s.now == 1900.0 && s.closed == [ByLeaseExpiry]
    ensures s.claims == [ClaimRecord("m1", 0.0, None, 2), ClaimRecord(token, 1900.0, None, 5)]
    ensures s.versions[2].attemptCount == 1 && s.versions[2].dispatchQueue == Some("live")
    ensures HeldBy(s.Row(), token) && s.Row().attemptCount == 2 && s.Row().leaseExpiresAt == Some(3700.0)
    ensures s.Row().giveUpAt.None?
  {
    steps, s := ClaimedOnce();
    ghost var claimed := s;
    steps, s := LeasePassed(steps, s);
    steps, s := ClaimedAgain(steps, s, token);
    assert s.versions[2] == claimed.versions[2];
  }

  /** A sweep that read version 2, the first claim, fails the second claim at time 4000 and grants it a retry. */
  lemma StaleSweepGrantsRetry(steps0: seq<Step>, s0: State) returns (steps: seq<Step>, s: State)
    requires Run(CFG, START, steps0, s0) && |s0.versions| > 2 && s0.now == 1900.0
    requires s0.versions[2].attemptCount == 1 && s0.versions[2].dispatchQueue == Some("live")
    requires s0.Row().status.Running? && s0.Row().attemptCount == 2 && s0.Row().leaseExpiresAt == Some(3700.0)
    requires s0.Row().giveUpAt.None?
    ensures Run(CFG, START, steps, s) && s.claims == s0.claims && s.Exists()
    ensures AwaitsRetry(s.Row()) && s.Row().attemptCount == 2 && s.Row().giveUpAt.None?
  {
    FirstTryMayRetry(s0.versions[2]);
    var step := Tick(4000.0);
    Extend(CFG, START, steps0, s0, step);
    steps, s := steps0 + [step], Apply(CFG, s0, step);
    step := FailExpiredLease(2, 4000.0);
    Extend(CFG, START, steps, s, step);
    steps, s := steps + [step], Apply(CFG, s, step);
  }

  /**
   * A sweep that read the first claim but whose UPDATE lands on the second one hands out a third try
   * under a limit of two, with every token distinct.
   */
  lemma StaleSweepExceedsLimit() returns (steps: seq<Step>, s: State)
    ensures CFG.Valid() && CFG.CapsEveryRule(2)
    ensures Run(CFG, START, steps, s) && DistinctTokens(s.claims)
    ensures s.Exists() && s.Row().attemptCount == 3
  {
    CfgIsValid();
    steps, s := ClaimedTwice("m2");
    steps, s := StaleSweepGrantsRetry(steps, s);
    steps, s := ClaimedAgain(steps, s, "m3");
  }

  /** A message delivered twice reuses its token, and the first run, taken over, then ends the second run's claim. */
  lemma ReusedTokenBreaksTheFence() returns (steps: seq<Step>, s: State)
    ensures CFG.Valid() && Run(CFG, START, steps, s)
    ensures |s.claims| == 2 && s.claims[0].token == s.claims[1].token
    ensures s.closed == [ByLeaseExpiry, BySuccess(0)]
  {
    CfgIsValid();
    steps, s := ClaimedTwice("m1");
    var step := FinishSuccess(0, "stale", 2000.0);
    Extend(CFG, START, steps, s, step);
    steps, s := steps + [step], Apply(CFG, s, step);
  }

  /** The same with a failure, decided from the first claim's read: a third try under a limit of two. */
  lemma ReusedTokenExceedsLimit() returns (steps: seq<Step>, s: State)
    ensures CFG.Valid() && CFG.CapsEveryRule(2)
    ensures Run(CFG, START, steps, s) && s.closed == [ByLeaseExpiry, ByFailure(0)]
    ensures s.Exists() && s.Row().attemptCount == 3
  {
    CfgIsValid();
    steps, s := ClaimedTwice("m1");
    FirstTryMayRetry(s.versions[2]);
    var step := FinishFailure(0, 2, 2000.0);
    Extend(CFG, START, steps, s, step);
    steps, s := steps + [step], Apply(CFG, s, step);
    steps, s := ClaimedAgain(steps, s, "m3");
  }

  lemma SettingsMayRetry(a: Attempt)
    requires a.attemptCount == 1 && a.dispatchQueue.None?
    ensures CFG.RetryDelay(a) == Some(60.0)
  {
    assert Power(1.0, 0) == 1.0;
  }

  /** A claim of a row that was never dispatched: its rules are the settings'. */
  lemma ClaimedUndispatched() returns (steps: seq<Step>, s: State)
    ensures Run(CFG, START, steps, s) && |s.versions| == 2 && s.now == 0.0
    ensures s.claims == [ClaimRecord("m1", 0.0, None, 1)]
    ensures s.versions[1].attemptCount == 1 && s.versions[1].dispatchQueue.None?
    ensures HeldBy(s.Row(), "m1") && s.Row().leaseExpiresAt == Some(1800.0) && s.Row().giveUpAt.None?
    ensures s.Row().giveUpReason.None?
  {
    steps, s := [], START;
    var step := Create(7, 0.0);
    Extend(CFG, START, steps, s, step);
    steps, s := steps + [step], Apply(CFG, s, step);
    step := Claim("m1", None, 0.0);
    Extend(CFG, START, steps, s, step);
    steps, s := steps + [step], Apply(CFG, s, step);
  }

  /** A sweep that read version 1 fails the claim in force, its lease having passed, and grants a retry. */
  lemma SweptFromFirstRead(steps0: seq<Step>, s0: State, at: Instant) returns (steps: seq<Step>, s: State)
    requires Run(CFG, START, steps0, s0) && |s0.versions| >= 2 && s0.now <= at
    requires s0.versions[1].attemptCount == 1 && s0.versions[1].dispatchQueue.None?
    requires s0.Row().status.Running? && s0.Row().leaseExpiresAt.Some? && s0.Row().leaseExpiresAt.value < at
    requires s0.Row().giveUpAt.None? && s0.Row().dispatchQueue.None?
    ensures Run(CFG, START, steps, s) && s0.versions <= s.versions && |s.versions| == |s0.versions| + 1
    ensures s.claims == s0.claims && s.now == at
    ensures AwaitsRetry(s.Row()) && s.Row().nextRetryAt == Some(at + 60.0) && s.Row().dispatchQueue.None?
    ensures s.Row().attemptCount == s0.Row().attemptCount && s.Row().giveUpAt.None?
  {
    SettingsMayRetry(s0.versions[1]);
    var step := Tick(at);
    Extend(CFG, START, steps0, s0, step);
    steps, s := steps0 + [step], Apply(CFG, s0, step);
    step := FailExpiredLease(1, at);
    Extend(CFG, START, steps, s, step);
    steps, s := steps + [step], Apply(CFG, s, step);
  }

  /** The failed row is reopened once its retry is due, and claimed again. */
  lemma ReopenedAndClaimed(steps0: seq<Step>, s0: State) returns (steps: seq<Step>, s: State)
    requires Run(CFG, START, steps0, s0) && s0.Exists() && s0.now == 1900.0
    requires AwaitsRetry(s0.Row()) && s0.Row().nextRetryAt == Some(1960.0) && s0.Row().dispatchQueue.None?
    requires s0.Row().attemptCount == 1 && s0.Row().giveUpAt.None?
    ensures Run(CFG, START, steps, s) && s0.versions <= s.versions && s.now == 1900.0
    ensures s.claims == s0.claims + [ClaimRecord("m2", 1900.0, None, |s.versions| - 1)]
    ensures HeldBy(s.Row(), "m2") && s.Row().leaseExpiresAt == Some(3700.0) && s.Row().dispatchQueue.None?
    ensures s.Row().attemptCount == 2 && s.Row().giveUpAt.None?
  {
    var step := Reopen(|s0.versions| - 1, 2000.0);
    Extend(CFG, START, steps0, s0, step);
    steps, s := steps0 + [step], Apply(CFG, s0, step);
    step := Claim("m2", None, 2000.0);
    Extend(CFG, START, steps, s, step);
    steps, s := steps + [step], Apply(CFG, s, step);
  }

  /**
   * A row claimed before any dispatch, whose second claim is failed by a sweep that read the first: it awaits a retry
   * with its tries used up and no queue, and no category selects it at any time, though it is still owed a run.
   */
  lemma StaleSweepStrands() returns (steps: seq<Step>, s: State)
    ensures CFG.Valid() && CFG.settings.staleTimeout.Some? && CFG.settings.maxAttempts >= 1
    ensures Run(CFG, START, steps, s) && DistinctTokens(s.claims)
    ensures s.Exists() && StillOwed(s.Row()) && !WithinReach(CFG, s.Row())
    ensures forall c: Category, db: Instant, py: Instant :: !Selected(CFG, s.Row(), c, db, py)
  {
    CfgIsValid();
    steps, s := ClaimedUndispatched();
    ghost var read := s.versions[1];
    steps, s := SweptFromFirstRead(steps, s, 1900.0);
    steps, s := ReopenedAndClaimed(steps, s);
    assert s.versions[1] == read;
    steps, s := SweptFromFirstRead(steps, s, 4000.0);
    forall c: Category, db: Instant, py: Instant
      ensures !Selected(CFG, s.Row(), c, db, py)
    {
      OutOfReachForEver(CFG, s.Row(), c, db, py);
    }
  }
}
