/** What the lifecycle guarantees on every run of the statements that race on a row. */
module Guarantees {
  import opened Base
  import opened Attempts
  import opened Queues
  import opened RetryPolicies
  import opened Transitions
  import opened Protocol

  ghost predicate Reachable(cfg: Config, s: State) {
    exists steps :: Run(cfg, START, steps, s)
  }

  lemma ReachableInvariant(cfg: Config, s: State)
    requires cfg.Valid() && Reachable(cfg, s)
    ensures Invariant(cfg, s)
  {
    var steps :| Run(cfg, START, steps, s);
    RunsKeepInvariant(cfg, START, steps, s);
  }

  // ---- outcomes are final

  /** After SUCCESS no run changes the outcome, claims again, ends anything or deletes the row. */
  lemma SuccessIsFinal(cfg: Config, s: State, steps: seq<Step>, t: State)
    requires cfg.Valid() && Reachable(cfg, s) && Run(cfg, s, steps, t)
    requires s.Exists() && s.Row().status.Success?
    ensures t.Exists() && SameOutcome(s.Row(), t.Row()) && t.claims == s.claims && t.closed == s.closed
  {
    ReachableInvariant(cfg, s);
    RunsKeepInvariant(cfg, s, steps, t);
  }

  /** A row commits at most one success, it is the last thing that happens to it, and SUCCESS always has one. */
  lemma SingleSuccess(cfg: Config, s: State, i: nat)
    requires cfg.Valid() && Reachable(cfg, s) && i < |s.closed|
    ensures s.Exists()
    ensures s.closed[i].BySuccess? <==> i == |s.claims| - 1 && s.Row().status.Success?
  {
    ReachableInvariant(cfg, s);
  }

  /** A given-up row is FAILED without retry or lease, and stays exactly so. */
  lemma GivingUpIsAbsorbing(cfg: Config, s: State, steps: seq<Step>, t: State)
    requires cfg.Valid() && Reachable(cfg, s) && Run(cfg, s, steps, t)
    requires s.Exists() && s.Row().giveUpReason.Some?
    ensures s.Row().status.Failed? && s.Row().nextRetryAt.None? && s.Row().leaseExpiresAt.None?
    ensures t.Exists() && SameOutcome(s.Row(), t.Row()) && t.claims == s.claims && t.closed == s.closed
  {
    ReachableInvariant(cfg, s);
    RunsKeepInvariant(cfg, s, steps, t);
  }

  // ---- fencing

  predicate DistinctTokens(claims: seq<ClaimRecord>) {
    forall i, j | 0 <= i < j < |claims| :: claims[i].token != claims[j].token
  }

  /** A run can only end a claim that was made with its own token. */
  lemma OutcomesMatchTokens(cfg: Config, s: State, i: nat, run: nat)
    requires cfg.Valid() && Reachable(cfg, s) && i < |s.closed| && EndedBy(s.closed[i], run)
    ensures i < |s.claims| && run < |s.claims| && s.claims[run].token == s.claims[i].token
  {
    ReachableInvariant(cfg, s);
    assert EndsOwnToken(s, i);
  }

  /** With distinct tokens, every outcome a run commits, and its writes with it, is for the claim it opened. */
  lemma OutcomesAreFenced(cfg: Config, s: State, i: nat, run: nat)
    requires cfg.Valid() && Reachable(cfg, s) && DistinctTokens(s.claims)
    requires i < |s.closed| && EndedBy(s.closed[i], run)
    ensures run == i
  {
    OutcomesMatchTokens(cfg, s, i, run);
  }

  /** So a worker whose claim ended otherwise, now or later, commits nothing. */
  lemma TakenOverCommitsNothing(cfg: Config, s: State, steps: seq<Step>, t: State, run: nat, i: nat)
    requires cfg.Valid() && Reachable(cfg, s) && Run(cfg, s, steps, t) && DistinctTokens(t.claims)
    requires run < |s.closed| && !EndedBy(s.closed[run], run)
    requires i < |t.closed|
    ensures !EndedBy(t.closed[i], run)
  {
    ReachableInvariant(cfg, s);
    RunsKeepInvariant(cfg, s, steps, t);
    assert EndsOwnToken(t, i);
  }

  predicate RecordsOutcome(step: Step) {
    step.FinishSuccess? || step.FinishFailure?
  }

  predicate RecordsFailure(step: Step) {
    step.FinishFailure? || step.FailExpiredLease?
  }

  /** An outcome ends a claim of another run exactly when the row runs under a later claim that reused its token. */
  lemma OutcomeMisfiresIff(cfg: Config, s: State, step: Step)
    requires cfg.Valid() && Reachable(cfg, s) && Enabled(cfg, s, step) && RecordsOutcome(step)
    ensures var t := Apply(cfg, s, step);
            (t.closed == s.closed || (|t.closed| == |s.closed| + 1 && EndedBy(t.closed[|s.closed|], step.run)))
    ensures (Apply(cfg, s, step).closed != s.closed && |s.closed| != step.run)
       <==> && s.Exists() && s.Row().status.Running? && step.run < |s.claims| - 1
            && s.claims[step.run].token == s.claims[|s.claims| - 1].token
  {
    ReachableInvariant(cfg, s);
  }

  /** So the fence stands in a state, against every run, exactly when the claim in force has a token of its own. */
  lemma FenceStandsIff(cfg: Config, s: State)
    requires cfg.Valid() && Reachable(cfg, s) && s.Exists() && s.Row().status.Running?
    ensures (forall run | 0 <= run < |s.claims| && HeldBy(s.Row(), s.claims[run].token) :: run == |s.closed|)
       <==> forall run | 0 <= run < |s.claims| - 1 :: s.claims[run].token != s.claims[|s.claims| - 1].token
  {
    ReachableInvariant(cfg, s);
  }

  // ---- which rules a failure follows

  /**
   * The row `after`, written at `now` for a failed try of the row `before` in its `count`-th try, under rules that end
   * at `limit` tries and make the next one wait `delay`: given up for want of tries exactly at the limit, given up for
   * its age exactly if tries are left but the next would start past the deadline, and otherwise due after the delay.
   */
  predicate FailsUnder(before: Attempt, after: Attempt, count: nat, limit: Option<int>, delay: Seconds, now: Instant) {
    && after.status.Failed? && after.attemptCount == before.attemptCount && after.leaseExpiresAt.None?
    && var used := limit.Some? && limit.value <= count;
    var late := before.giveUpAt.Some? && before.giveUpAt.value < now + delay;
    && (after.giveUpReason == Some(NoAttemptsLeft) <==> used)
    && (after.giveUpReason == Some(BlockAge) <==> !used && late)
    && (after.giveUpReason.None? <==> !used && !late)
    && after.nextRetryAt == if used || late then None else Some(after.updatedAt + delay)
  }

  /** A failure decided from a read with a defined queue follows that queue's policy, whichever others there are. */
  lemma FailureFollowsQueue(cfg: Config, s: State, step: Step, queue: Queue)
    requires Enabled(cfg, s, step) && RecordsFailure(step) && EffectOf(cfg, s, step).End? && cfg.Registered(queue)
    requires s.versions[step.seen].dispatchQueue == Some(queue.name)
    ensures var count := s.versions[step.seen].attemptCount;
            FailsUnder(s.Row(), Apply(cfg, s, step).Row(), count, queue.retry.maxAttempts,
                       queue.retry.DelaySeconds(count, cfg.settings.floatMax), s.now)
  {
  }

  /** Without a queue, or with one that is no longer defined, it follows the settings. */
  lemma FailureFollowsSettings(cfg: Config, s: State, step: Step)
    requires Enabled(cfg, s, step) && RecordsFailure(step) && EffectOf(cfg, s, step).End?
    requires var queue := s.versions[step.seen].dispatchQueue; queue.None? || queue.value !in cfg.queues
    ensures var count := s.versions[step.seen].attemptCount;
            FailsUnder(s.Row(), Apply(cfg, s, step).Row(), count, Some(cfg.settings.maxAttempts),
                       SettingsDelay(cfg.settings.schedule, cfg.settings.maxDelayMinutes, count), s.now)
  {
  }

  // ---- conservation of claims

  /** How many claims ended each way. */
  datatype Tally = Tally(successes: nat, failures: nat, expiries: nat, resets: nat) {
    function Total(): nat {
      successes + failures + expiries + resets
    }
  }

  function TallyOf(closed: seq<Closure>): Tally {
    if closed == [] then Tally(0, 0, 0, 0)
    else
      var before := TallyOf(closed[..|closed| - 1]);
      match closed[|closed| - 1]
      case BySuccess(_) => before.(successes := before.successes + 1)
      case ByFailure(_) => before.(failures := before.failures + 1)
      case ByLeaseExpiry => before.(expiries := before.expiries + 1)
      case ByUnleasedReset => before.(resets := before.resets + 1)
  }

  lemma {:induction false} TallyIsComplete(closed: seq<Closure>)
    ensures TallyOf(closed).Total() == |closed|
  {
    if closed != [] {
      TallyIsComplete(closed[..|closed| - 1]);
    }
  }

  lemma {:induction false} NoResets(closed: seq<Closure>)
    requires forall i | 0 <= i < |closed| :: !closed[i].ByUnleasedReset?
    ensures TallyOf(closed).resets == 0
  {
    if closed != [] {
      NoResets(closed[..|closed| - 1]);
    }
  }

  lemma {:induction false} NoSuccesses(closed: seq<Closure>)
    requires forall i | 0 <= i < |closed| :: !closed[i].BySuccess?
    ensures TallyOf(closed).successes == 0
  {
    if closed != [] {
      NoSuccesses(closed[..|closed| - 1]);
    }
  }

  /** The count is the number of successful claims, and every claim but an open one ended exactly once. */
  lemma {:induction false} ClaimsAreConserved(cfg: Config, s: State)
    requires cfg.Valid() && Reachable(cfg, s) && s.Exists()
    ensures s.Row().attemptCount == |s.claims|
    ensures |s.claims| == TallyOf(s.closed).Total() + if s.Row().status.Running? then 1 else 0
    ensures TallyOf(s.closed).resets == 0
    ensures TallyOf(s.closed).successes == if s.Row().status.Success? then 1 else 0
  {
    ReachableInvariant(cfg, s);
    TallyIsComplete(s.closed);
    NoResets(s.closed);
    if s.closed != [] {
      NoSuccesses(s.closed[..|s.closed| - 1]);
    }
  }

  /** Only a claim counts: every other statement, and a claim that loses, leaves the count alone. */
  lemma OnlyClaimsCount(cfg: Config, s: State, step: Step)
    requires cfg.Valid() && Reachable(cfg, s) && Enabled(cfg, s, step) && s.Exists()
    ensures Apply(cfg, s, step).Exists()
    ensures Apply(cfg, s, step).Row().attemptCount
         == s.Row().attemptCount + if step.Claim? && Claimable(s.Row(), s.now) then 1 else 0
  {
    ReachableInvariant(cfg, s);
    EffectIsLawful(cfg, s, step);
  }

  // ---- the give-up deadline

  /** Once written, the deadline never moves; once the database clock reaches it, no attempt is ever made again. */
  lemma DeadlineFreezes(cfg: Config, s: State, steps: seq<Step>, t: State)
    requires cfg.Valid() && Reachable(cfg, s) && Run(cfg, s, steps, t)
    requires s.Exists() && s.Row().giveUpAt.Some?
    ensures t.Exists() && t.Row().giveUpAt == s.Row().giveUpAt
    ensures s.Row().giveUpAt.value <= s.now ==> t.Row().attemptCount == s.Row().attemptCount && t.claims == s.claims
  {
    ReachableInvariant(cfg, s);
    RunsKeepInvariant(cfg, s, steps, t);
  }

  /** Version `j` recorded a failed try that is to be retried. */
  predicate RecordsRetry(s: State, j: nat)
    requires 0 < j < |s.versions|
  {
    s.versions[j - 1].status.Running? && AwaitsRetry(s.versions[j])
  }

  /** How long version `a` lets its retry wait, from the Python instant at which it was written. */
  function Wait(a: Attempt): Seconds
    requires a.nextRetryAt.Some?
  {
    a.nextRetryAt.value - a.updatedAt
  }

  /** The wait is what the rules grant after the version `read`. */
  predicate Grants(cfg: Config, read: Attempt, wait: Seconds) {
    cfg.AllowsRetry(read) && wait == cfg.DelaySeconds(read)
  }

  /**
   * The retry that version `j` recorded was granted after some earlier version, and, counted on the database clock
   * from when the version was written, starts by the deadline if there was one.
   */
  ghost predicate RetryInTime(cfg: Config, s: State, j: nat)
    requires 0 < j < |s.versions| == |s.writtenAt|
  {
    && s.versions[j].nextRetryAt.Some?
    && var wait := Wait(s.versions[j]);
    && (s.versions[j - 1].giveUpAt.Some? ==> s.writtenAt[j] + wait <= s.versions[j - 1].giveUpAt.value)
    && exists i | 0 <= i < j :: Grants(cfg, s.versions[i], wait)
  }

  ghost predicate RetriesInTime(cfg: Config, s: State) {
    && |s.writtenAt| == |s.versions|
    && forall j | 0 < j < |s.versions| && RecordsRetry(s, j) :: RetryInTime(cfg, s, j)
  }

  /** An ending by failure records a retry only as the rules and the deadline allow. */
  lemma FailureInTime(cfg: Config, s: State, step: Step)
    requires Enabled(cfg, s, step) && RecordsFailure(step) && EffectOf(cfg, s, step).End?
    requires AwaitsRetry(EffectOf(cfg, s, step).row)
    ensures var row := EffectOf(cfg, s, step).row;
            && row.nextRetryAt.Some? && Grants(cfg, s.versions[step.seen], Wait(row))
            && (s.Row().giveUpAt.Some? ==> s.now + Wait(row) <= s.Row().giveUpAt.value)
  {
  }

  /** No other lawful effect makes a RUNNING row await a retry. */
  lemma OthersRecordNoRetry(cfg: Config, s: State, step: Step)
    requires cfg.Valid() && Invariant(cfg, s) && Enabled(cfg, s, step) && s.Exists() && s.Row().status.Running?
    requires !RecordsFailure(step)
    ensures var e := EffectOf(cfg, s, step); e.Put? || e.Open? || e.End? ==> !AwaitsRetry(e.row)
  {
    EffectIsLawful(cfg, s, step);
  }

  lemma NewVersionInTime(cfg: Config, s: State, step: Step)
    requires cfg.Valid() && Invariant(cfg, s) && Enabled(cfg, s, step) && |s.writtenAt| == |s.versions|
    ensures var t := Apply(cfg, s, step);
            && |t.writtenAt| == |t.versions|
            && (0 < |s.versions| < |t.versions| && RecordsRetry(t, |s.versions|) ==> RetryInTime(cfg, t, |s.versions|))
  {
    var t := Apply(cfg, s, step);
    if 0 < |s.versions| < |t.versions| && RecordsRetry(t, |s.versions|) {
      if RecordsFailure(step) {
        FailureInTime(cfg, s, step);
        var j := |s.versions|;
        assert Grants(cfg, t.versions[step.seen], Wait(t.versions[j]));
      } else {
        OthersRecordNoRetry(cfg, s, step);
        assert false;
      }
    }
  }

  lemma OldVersionsInTime(cfg: Config, s: State, t: State, j: nat)
    requires RetriesInTime(cfg, s) && |t.writtenAt| == |t.versions|
    requires s.versions <= t.versions && s.writtenAt <= t.writtenAt
    requires 0 < j < |s.versions| && RecordsRetry(t, j)
    ensures RetryInTime(cfg, t, j)
  {
    assert RecordsRetry(s, j);
    var i :| 0 <= i < j && Grants(cfg, s.versions[i], Wait(s.versions[j]));
    assert Grants(cfg, t.versions[i], Wait(t.versions[j]));
  }

  lemma StepAddsOneVersion(cfg: Config, s: State, step: Step)
    requires cfg.Valid() && Invariant(cfg, s) && Enabled(cfg, s, step)
    ensures var t := Apply(cfg, s, step);
            s.versions <= t.versions && s.writtenAt <= t.writtenAt && |t.versions| <= |s.versions| + 1
  {
    EffectIsLawful(cfg, s, step);
  }

  lemma StepRecordsInTime(cfg: Config, s: State, step: Step)
    requires cfg.Valid() && Invariant(cfg, s) && Enabled(cfg, s, step) && RetriesInTime(cfg, s)
    ensures RetriesInTime(cfg, Apply(cfg, s, step))
  {
    NewVersionInTime(cfg, s, step);
    StepAddsOneVersion(cfg, s, step);
    LongerHistoryInTime(cfg, s, Apply(cfg, s, step));
  }

  lemma LongerHistoryInTime(cfg: Config, s: State, t: State)
    requires RetriesInTime(cfg, s) && |t.writtenAt| == |t.versions| <= |s.versions| + 1
    requires s.versions <= t.versions && s.writtenAt <= t.writtenAt
    requires 0 < |s.versions| < |t.versions| && RecordsRetry(t, |s.versions|) ==> RetryInTime(cfg, t, |s.versions|)
    ensures RetriesInTime(cfg, t)
  {
    forall j | 0 < j < |t.versions| && RecordsRetry(t, j)
      ensures RetryInTime(cfg, t, j)
    {
      if j < |s.versions| {
        OldVersionsInTime(cfg, s, t, j);
      }
    }
  }

  lemma {:induction false} RunsRecordInTime(cfg: Config, s: State, steps: seq<Step>, t: State)
    requires cfg.Valid() && Invariant(cfg, s) && RetriesInTime(cfg, s) && Run(cfg, s, steps, t)
    ensures RetriesInTime(cfg, t)
    decreases |steps|
  {
    if steps != [] {
      StepKeepsInvariant(cfg, s, steps[0]);
      StepRecordsInTime(cfg, s, steps[0]);
      RunsRecordInTime(cfg, Apply(cfg, s, steps[0]), steps[1..], t);
    }
  }

  /** In every reachable history, every recorded retry was granted by the rules and starts by its deadline. */
  lemma RetriesStartByDeadline(cfg: Config, s: State, j: nat)
    requires cfg.Valid() && Reachable(cfg, s) && 0 < j < |s.versions| && RecordsRetry(s, j)
    ensures |s.writtenAt| == |s.versions| && s.versions[j].nextRetryAt.Some?
    ensures s.versions[j - 1].giveUpAt.Some? ==>
              s.writtenAt[j] + (s.versions[j].nextRetryAt.value - s.versions[j].updatedAt)
              <= s.versions[j - 1].giveUpAt.value
    ensures exists i | 0 <= i < j ::
              Grants(cfg, s.versions[i], s.versions[j].nextRetryAt.value - s.versions[j].updatedAt)
  {
    var steps :| Run(cfg, START, steps, s);
    RunsRecordInTime(cfg, START, steps, s);
    assert RetryInTime(cfg, s, j);
  }

  // ---- the attempt bound

  /** Tokens are not reused, and the lease sweep fails the claim it read, which the count identifies. */
  predicate Disciplined(s: State, step: Step) {
    match step
    case Claim(token, _, _) => forall i | 0 <= i < |s.claims| :: s.claims[i].token != token
    case FailExpiredLease(seen, _) =>
      seen < |s.versions| && s.versions[seen].attemptCount == s.Row().attemptCount
    case _ => true
  }

  ghost predicate DisciplinedRun(cfg: Config, s: State, steps: seq<Step>, t: State)
    decreases |steps|
  {
    if steps == [] then s == t
    else
      && Enabled(cfg, s, steps[0]) && Disciplined(s, steps[0])
      && DisciplinedRun(cfg, Apply(cfg, s, steps[0]), steps[1..], t)
  }

  /** A rule that allows another try after `seen` allows fewer tries than a cap on every rule. */
  lemma AllowedIsBelowCap(cfg: Config, limit: nat, seen: Attempt)
    requires cfg.Valid() && cfg.CapsEveryRule(limit) && InTaskQueues(cfg, seen) && cfg.AllowsRetry(seen)
    ensures seen.attemptCount < limit
  {
  }

  /** A worker that still holds its claim decided the retry from a read of that very claim. */
  lemma WorkerReadIsFresh(cfg: Config, s: State, run: nat, seen: nat)
    requires Invariant(cfg, s) && s.Exists() && DistinctTokens(s.claims)
    requires run < |s.claims| && s.claims[run].version <= seen < |s.versions|
    requires HeldBy(s.Row(), s.claims[run].token)
    ensures s.versions[seen].attemptCount == s.Row().attemptCount
  {
    assert run == |s.claims| - 1;
    assert s.versions[seen].attemptCount > run;
  }

  /** At most `limit` tries, and fewer while another one may follow. */
  predicate WithinLimit(a: Attempt, limit: nat) {
    a.attemptCount <= limit && (CouldStillRun(a) ==> a.attemptCount < limit)
  }

  /** Without a recorded queue, an attempt waiting to run is below the settings' limit. */
  predicate WithinSettings(cfg: Config, a: Attempt) {
    CouldStillRun(a) && a.dispatchQueue.None? ==> a.attemptCount < cfg.settings.maxAttempts
  }

  predicate StateWithin(s: State, limit: nat) {
    s.Exists() ==> WithinLimit(s.Row(), limit)
  }

  /** A lawful effect other than a failure lets nobody run again who could not before. */
  lemma OthersKeepLimits(cfg: Config, s: State, e: Effect, limit: nat)
    requires Invariant(cfg, s) && Lawful(cfg, s, e) && EffectEvolves(s, e) && limit >= 1
    requires e.End? ==> e.how.BySuccess?
    ensures StateWithin(s, limit) ==> StateWithin(s.Perform(e), limit)
    ensures var t := s.Perform(e);
            (s.Exists() ==> WithinSettings(cfg, s.Row())) && cfg.settings.maxAttempts >= 1 && t.Exists() ==>
              WithinSettings(cfg, t.Row())
  {
  }

  /** The failure grants no retry, or grants one within the limit. */
  predicate FailureFits(cfg: Config, s: State, step: Step, limit: nat)
    requires Enabled(cfg, s, step) && RecordsFailure(step)
  {
    || !cfg.AllowsRetry(s.versions[step.seen])
    || TooLate(s.Row(), cfg.DelaySeconds(s.versions[step.seen]), s.now)
    || s.Row().attemptCount < limit
  }

  /** The step ends no claim in failure, or its failure fits. */
  predicate StepFits(cfg: Config, s: State, step: Step, limit: nat)
    requires Enabled(cfg, s, step)
  {
    RecordsFailure(step) && EffectOf(cfg, s, step).End? ==> FailureFits(cfg, s, step, limit)
  }

  lemma FailureKeepsLimitIff(cfg: Config, s: State, step: Step, limit: nat)
    requires Enabled(cfg, s, step) && RecordsFailure(step) && StateWithin(s, limit)
    ensures StateWithin(Apply(cfg, s, step), limit) <==> StepFits(cfg, s, step, limit)
  {
  }

  lemma OthersEndNoFailure(cfg: Config, s: State, step: Step)
    requires cfg.Valid() && Invariant(cfg, s) && Enabled(cfg, s, step) && !RecordsFailure(step)
    ensures EffectOf(cfg, s, step).End? ==> EffectOf(cfg, s, step).how.BySuccess?
  {
    EffectIsLawful(cfg, s, step);
  }

  /** Of all statements only a failure can break the limit, and exactly when it does not fit. */
  lemma StepKeepsLimitIff(cfg: Config, s: State, step: Step, limit: nat)
    requires cfg.Valid() && Invariant(cfg, s) && Enabled(cfg, s, step) && limit >= 1 && StateWithin(s, limit)
    ensures StateWithin(Apply(cfg, s, step), limit) <==> StepFits(cfg, s, step, limit)
  {
    if RecordsFailure(step) {
      FailureKeepsLimitIff(cfg, s, step, limit);
    } else {
      EffectIsLawful(cfg, s, step);
      EffectOfEvolves(cfg, s, step);
      OthersEndNoFailure(cfg, s, step);
      OthersKeepLimits(cfg, s, EffectOf(cfg, s, step), limit);
    }
  }

  /** Every state the run passes through is within the limit. */
  ghost predicate StaysWithin(cfg: Config, s: State, steps: seq<Step>, t: State, limit: nat)
    requires Run(cfg, s, steps, t)
    decreases |steps|
  {
    && StateWithin(s, limit)
    && (steps == [] || StaysWithin(cfg, Apply(cfg, s, steps[0]), steps[1..], t, limit))
  }

  /** Every failure the run records fits where it is recorded. */
  ghost predicate FailuresFit(cfg: Config, s: State, steps: seq<Step>, t: State, limit: nat)
    requires Run(cfg, s, steps, t)
    decreases |steps|
  {
    steps == [] ||
    (StepFits(cfg, s, steps[0], limit) && FailuresFit(cfg, Apply(cfg, s, steps[0]), steps[1..], t, limit))
  }

  /** Whatever the tokens and the reads: a run stays within a limit exactly if every failure it records fits. */
  lemma {:induction false} RunStaysWithinIff(cfg: Config, s: State, steps: seq<Step>, t: State, limit: nat)
    requires cfg.Valid() && Invariant(cfg, s) && Run(cfg, s, steps, t) && limit >= 1 && StateWithin(s, limit)
    ensures StaysWithin(cfg, s, steps, t, limit) <==> FailuresFit(cfg, s, steps, t, limit)
    decreases |steps|
  {
    if steps != [] {
      var u := Apply(cfg, s, steps[0]);
      StepKeepsInvariant(cfg, s, steps[0]);
      StepKeepsLimitIff(cfg, s, steps[0], limit);
      if StateWithin(u, limit) {
        RunStaysWithinIff(cfg, u, steps[1..], t, limit);
      }
    }
  }

  // ---- disciplined runs

  predicate RowBounded(cfg: Config, s: State, limit: nat) {
    s.Exists() ==>
      && (1 <= cfg.settings.maxAttempts ==> WithinSettings(cfg, s.Row()))
      && (cfg.CapsEveryRule(limit) ==> WithinLimit(s.Row(), limit))
  }

  ghost predicate Bounded(cfg: Config, s: State) {
    DistinctTokens(s.claims) && forall limit: nat :: RowBounded(cfg, s, limit)
  }

  /** A failure decided from a read of the same claim fits every cap on the rules. */
  lemma FreshFailureFits(cfg: Config, s: State, step: Step, limit: nat)
    requires cfg.Valid() && Invariant(cfg, s) && Enabled(cfg, s, step) && RecordsFailure(step)
    requires s.versions[step.seen].attemptCount == s.Row().attemptCount
    ensures cfg.CapsEveryRule(limit) ==> FailureFits(cfg, s, step, limit)
    ensures EffectOf(cfg, s, step).End? ==> WithinSettings(cfg, EffectOf(cfg, s, step).row)
  {
    var read := s.versions[step.seen];
    assert InTaskQueues(cfg, read);
    assert read.dispatchQueue.Some? ==> s.Row().dispatchQueue.Some?;
    if cfg.AllowsRetry(read) && cfg.CapsEveryRule(limit) {
      AllowedIsBelowCap(cfg, limit, read);
    }
  }

  lemma FailureStepKeepsBounds(cfg: Config, s: State, step: Step, limit: nat)
    requires cfg.Valid() && Invariant(cfg, s) && Bounded(cfg, s)
    requires Enabled(cfg, s, step) && Disciplined(s, step) && RecordsFailure(step)
    ensures RowBounded(cfg, Apply(cfg, s, step), limit)
  {
    assert RowBounded(cfg, s, limit);
    if EffectOf(cfg, s, step).End? {
      if step.FinishFailure? {
        WorkerReadIsFresh(cfg, s, step.run, step.seen);
      }
      FreshFailureFits(cfg, s, step, limit);
      if cfg.CapsEveryRule(limit) {
        FailureKeepsLimitIff(cfg, s, step, limit);
      }
    }
  }

  lemma OtherStepKeepsBounds(cfg: Config, s: State, step: Step, limit: nat)
    requires cfg.Valid() && Invariant(cfg, s) && RowBounded(cfg, s, limit) && Enabled(cfg, s, step)
    requires !RecordsFailure(step)
    ensures RowBounded(cfg, Apply(cfg, s, step), limit)
  {
    var e := EffectOf(cfg, s, step);
    EffectIsLawful(cfg, s, step);
    EffectOfEvolves(cfg, s, step);
    OthersEndNoFailure(cfg, s, step);
    OthersKeepLimits(cfg, s, e, if limit == 0 then 1 else limit);
  }

  lemma FreshTokensStayDistinct(cfg: Config, s: State, step: Step)
    requires cfg.Valid() && Invariant(cfg, s) && DistinctTokens(s.claims)
    requires Enabled(cfg, s, step) && Disciplined(s, step)
    ensures DistinctTokens(Apply(cfg, s, step).claims)
  {
    EffectIsLawful(cfg, s, step);
  }

  lemma StepKeepsBounds(cfg: Config, s: State, step: Step)
    requires cfg.Valid() && Invariant(cfg, s) && Bounded(cfg, s)
    requires Enabled(cfg, s, step) && Disciplined(s, step)
    ensures Bounded(cfg, Apply(cfg, s, step))
  {
    FreshTokensStayDistinct(cfg, s, step);
    forall limit: nat
      ensures RowBounded(cfg, Apply(cfg, s, step), limit)
    {
      if RecordsFailure(step) {
        FailureStepKeepsBounds(cfg, s, step, limit);
      } else {
        assert RowBounded(cfg, s, limit);
        OtherStepKeepsBounds(cfg, s, step, limit);
      }
    }
  }

  lemma {:induction false} DisciplinedRunsStayBounded(cfg: Config, s: State, steps: seq<Step>, t: State)
    requires cfg.Valid() && Invariant(cfg, s) && Bounded(cfg, s) && DisciplinedRun(cfg, s, steps, t)
    ensures Invariant(cfg, t) && Bounded(cfg, t)
    decreases |steps|
  {
    if steps != [] {
      StepKeepsInvariant(cfg, s, steps[0]);
      StepKeepsBounds(cfg, s, steps[0]);
      DisciplinedRunsStayBounded(cfg, Apply(cfg, s, steps[0]), steps[1..], t);
    }
  }

  /** No disciplined run makes more attempts than the largest limit among the rules, though a claim never checks. */
  lemma AttemptsAreBounded(cfg: Config, steps: seq<Step>, s: State, limit: nat)
    requires cfg.Valid() && cfg.CapsEveryRule(limit) && DisciplinedRun(cfg, START, steps, s) && s.Exists()
    ensures s.Row().attemptCount <= limit
    ensures CouldStillRun(s.Row()) ==> s.Row().attemptCount < limit
  {
    DisciplinedRunsStayBounded(cfg, START, steps, s);
    assert RowBounded(cfg, s, limit);
  }
}
