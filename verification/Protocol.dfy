/**
 * The lifecycle of one attempt as a state machine over its database statements.
 *
 * Workers, the live scheduler, backfills, the recovery sweep and the give-up command race on the row;
 * each `Step` is one of their statements. A decision taken from an earlier read names the version of
 * the row it was taken from, so every stale read is a run of this machine.
 */
module Protocol {
  import opened Base
  import opened Attempts
  import opened Queues
  import opened Selection
  import opened Transitions

  /** A claim that succeeded: `version` is the row it wrote. Claim number `i + 1` opened run `i`. */
  datatype ClaimRecord = ClaimRecord(token: string, at: Instant, timeLimit: Option<Seconds>, version: nat)

  /** How a claim ended, and for a worker's outcome which run recorded it. */
  datatype Closure =
    | BySuccess(run: nat)
    | ByFailure(run: nat)
    | ByLeaseExpiry
    | ByUnleasedReset

  /** Run `run` recorded this outcome. */
  predicate EndedBy(how: Closure, run: nat) {
    (how.BySuccess? || how.ByFailure?) && how.run == run
  }

  /** What one statement does: write a version, open or end a claim with it, or none of these. */
  datatype Effect =
    | Nothing
    | Advance(later: Instant)
    | Put(row: Attempt)
    | Open(row: Attempt, claim: ClaimRecord)
    | End(row: Attempt, how: Closure)
    | Erase

  function PutIf(guard: bool, row: Attempt): Effect {
    if guard then Put(row) else Nothing
  }

  /**
   * `versions` are the committed versions of the row, the last one current and none before it exists, and
   * `writtenAt` says when each was written; `claims` and `closed` are the history of successful claims and of their
   * endings, in order.
   */
  datatype State = State(
    now: Instant,
    versions: seq<Attempt>,
    writtenAt: seq<Instant>,
    claims: seq<ClaimRecord>,
    closed: seq<Closure>)
  {
    predicate Exists() {
      versions != []
    }

    function Row(): Attempt
      requires Exists()
    {
      versions[|versions| - 1]
    }

    function Wrote(row: Attempt): State {
      this.(versions := versions + [row], writtenAt := writtenAt + [now])
    }

    function Perform(e: Effect): State {
      match e
      case Nothing => this
      case Advance(later) => this.(now := later)
      case Put(row) => Wrote(row)
      case Open(row, claim) => Wrote(row).(claims := claims + [claim])
      case End(row, how) => Wrote(row).(closed := closed + [how])
      case Erase => this.(versions := [], writtenAt := [], claims := [], closed := [])
    }
  }

  datatype Step =
    | Tick(later: Instant)
    | Create(block: int, py: Instant)
    | Reopen(seen: nat, py: Instant)
    | RecordDispatch(queue: string, py: Instant)
    | ClaimExpiredMessage(py: Instant)
    | Claim(token: string, timeLimit: Option<Seconds>, py: Instant)
    | FinishSuccess(run: nat, result: string, py: Instant)
    | FinishFailure(run: nat, seen: nat, py: Instant)
    | FailExpiredLease(seen: nat, py: Instant)
    | SetGiveUpDeadline(seconds: Seconds)
    | GiveUpIfPastDeadline(py: Instant)
    | GiveUpByHand(py: Instant)
    | RequeueForRetry(queue: string, py: Instant)
    | ResetStuck(staleBefore: Instant, py: Instant)
    | DeletePhantom(py: Instant)

  const START := State(0.0, [], [], [], [])

  /** What a caller has checked, possibly on an old read, before it sends the statement. */
  predicate Enabled(cfg: Config, s: State, step: Step) {
    match step
    case Tick(later) => s.now <= later
    case Create(_, _) => true
    case Reopen(seen, py) =>
      && seen < |s.versions|
      && s.versions[seen].status.Failed? && cfg.CanRunAgain(s.versions[seen])
      && (s.versions[seen].nextRetryAt.None? || s.versions[seen].nextRetryAt.value <= py)
    case RecordDispatch(queue, _) => s.Exists() && queue in cfg.TaskQueues()
    case FinishSuccess(run, _, _) => s.Exists() && run < |s.claims|
    case FinishFailure(run, seen, _) =>
      // The worker reads the row back right after its claim, and decides the retry from that read.
      run < |s.claims| && s.claims[run].version <= seen < |s.versions|
    case FailExpiredLease(seen, _) => seen < |s.versions|
    case RequeueForRetry(queue, _) => s.Exists() && queue in cfg.TaskQueues()
    case ResetStuck(_, _) => s.Exists() && cfg.settings.staleTimeout.Some?
    case _ => s.Exists()
  }

  /** What the statement does to the row; one whose guard fails does nothing. */
  function EffectOf(cfg: Config, s: State, step: Step): Effect
    requires Enabled(cfg, s, step)
  {
    match step
    case Tick(later) => Advance(later)
    case Create(block, py) => PutIf(!s.Exists(), NewAttempt(block, py))
    case Reopen(_, py) => PutIf(AwaitsRetry(s.Row()), Reopened(s.Row(), py))
    case RecordDispatch(queue, py) => Put(Dispatched(s.Row(), queue, s.now, py))
    case ClaimExpiredMessage(py) =>
      PutIf(MessageExpired(s.Row(), cfg.TtlWindows(), s.now, py), Restamped(s.Row(), s.now, py))
    case Claim(token, timeLimit, py) =>
      if !Claimable(s.Row(), s.now) then Nothing
      else Open(Claimed(s.Row(), token, LeaseSeconds(cfg.settings, timeLimit), s.now, py),
                ClaimRecord(token, s.now, timeLimit, |s.versions|))
    case FinishSuccess(run, result, py) =>
      if !HeldBy(s.Row(), s.claims[run].token) then Nothing
      else End(Succeeded(s.Row(), result, py), BySuccess(run))
    case FinishFailure(run, seen, py) =>
      if !HeldBy(s.Row(), s.claims[run].token) then Nothing
      else End(FailedWith(s.Row(), cfg.RetryDelay(s.versions[seen]), s.now, py), ByFailure(run))
    case FailExpiredLease(seen, py) =>
      if !LeaseExpired(s.Row(), s.now) then Nothing
      else End(FailedWith(s.Row(), cfg.RetryDelay(s.versions[seen]), s.now, py), ByLeaseExpiry)
    case SetGiveUpDeadline(seconds) => Put(WithDeadline(s.Row(), seconds, s.now))
    case GiveUpIfPastDeadline(py) => PutIf(PastDeadline(s.Row(), s.now), GivenUp(s.Row(), BlockAge, py))
    case GiveUpByHand(py) => PutIf(CouldStillRun(s.Row()), GivenUp(s.Row(), Manual, py))
    case RequeueForRetry(queue, py) => PutIf(AwaitsRetry(s.Row()), Requeued(s.Row(), queue, s.now, py))
    case ResetStuck(staleBefore, py) =>
      if !IsStuck(s.Row(), cfg.settings.maxAttempts, staleBefore, cfg.TtlWindows().Keys) then Nothing
      else if s.Row().status.Running? then End(ResetToPending(s.Row(), py), ByUnleasedReset)
      else Put(ResetToPending(s.Row(), py))
    case DeletePhantom(py) => if IsPhantom(s.Row(), py) then Erase else Nothing
  }

  function Apply(cfg: Config, s: State, step: Step): State
    requires Enabled(cfg, s, step)
  {
    s.Perform(EffectOf(cfg, s, step))
  }

  /** `steps` leads from `s` to `t`. */
  ghost predicate Run(cfg: Config, s: State, steps: seq<Step>, t: State)
    decreases |steps|
  {
    if steps == [] then s == t
    else Enabled(cfg, s, steps[0]) && Run(cfg, Apply(cfg, s, steps[0]), steps[1..], t)
  }

  /** What every reachable row satisfies, whoever races on it. */
  ghost predicate RowInvariant(cfg: Config, a: Attempt, now: Instant) {
    && (a.giveUpReason.Some? ==> a.status.Failed? && a.nextRetryAt.None?)
    && (a.leaseExpiresAt.Some? ==> a.status.Running?)
    && (AwaitsRetry(a) ==> a.nextRetryAt.Some?)
    && (a.dispatchQueue.Some? ==> InTaskQueues(cfg, a) && a.dispatchedAt.Some?)
    && (a.dispatchedAt.Some? ==> a.dispatchedAt.value <= now)
    && (a.status.Success? ==> a.nextRetryAt.None? && a.lastAttemptedAt.Some? && a.result.Some?)
    && (a.status.Running? && cfg.settings.staleTimeout.Some? ==> a.leaseExpiresAt.Some?)
  }

  /** A RUNNING row carries the token, start and lease of the latest claim. */
  ghost predicate HoldsLatestClaim(cfg: Config, a: Attempt, claims: seq<ClaimRecord>) {
    && claims != []
    && var latest := claims[|claims| - 1];
    && a.claimToken == Some(latest.token)
    && a.lastAttemptedAt == Some(latest.at)
    && var lease := LeaseSeconds(cfg.settings, latest.timeLimit);
    a.leaseExpiresAt == if lease.Some? then Some(latest.at + lease.value) else None
  }

  /** Claims and endings alternate: ending `i` ends claim `i`, and only the latest claim can be open. */
  ghost predicate Ledger(s: State)
    requires s.Exists()
  {
    && s.Row().attemptCount == |s.claims|
    && |s.closed| + (if s.Row().status.Running? then 1 else 0) == |s.claims|
    && (forall i | 0 <= i < |s.closed| :: EndsOwnToken(s, i))
    && (forall i | 0 <= i < |s.closed| && s.closed[i].BySuccess? :: i == |s.closed| - 1 && s.Row().status.Success?)
    && (s.Row().status.Success? ==> s.closed != [] && s.closed[|s.closed| - 1].BySuccess?)
    && (forall i | 0 <= i < |s.closed| :: !s.closed[i].ByUnleasedReset?)
  }

  /** A worker's outcome ends a claim made with the worker's own token. */
  ghost predicate EndsOwnToken(s: State, i: nat)
    requires i < |s.closed|
  {
    s.closed[i].BySuccess? || s.closed[i].ByFailure? ==>
      i < |s.claims| && s.closed[i].run < |s.claims| && s.claims[s.closed[i].run].token == s.claims[i].token
  }

  predicate InTaskQueues(cfg: Config, a: Attempt) {
    a.dispatchQueue.Some? ==> a.dispatchQueue.value in cfg.TaskQueues()
  }

  /** Counts only grow from version to version, and every claim shows in the versions after it. */
  ghost predicate VersionsInvariant(cfg: Config, s: State)
    requires s.Exists()
  {
    && (forall i | 0 <= i < |s.versions| :: InTaskQueues(cfg, s.versions[i]))
    && (forall i | 0 <= i < |s.versions| :: s.versions[i].attemptCount <= s.Row().attemptCount)
    && (forall i | 0 <= i < |s.versions| :: s.versions[i].dispatchQueue.Some? ==> s.Row().dispatchQueue.Some?)
    && (forall k, j | 0 <= k < |s.claims| && s.claims[k].version <= j < |s.versions| ::
          s.versions[j].attemptCount > k)
  }

  ghost predicate Invariant(cfg: Config, s: State) {
    if !s.Exists() then s.claims == [] && s.closed == []
    else
      && RowInvariant(cfg, s.Row(), s.now)
      && (s.Row().status.Running? ==> HoldsLatestClaim(cfg, s.Row(), s.claims))
      && Ledger(s)
      && VersionsInvariant(cfg, s)
  }

  /** The Python instant a statement stamps what it writes with; a deadline is written without one. */
  function StampOf(step: Step): Option<Instant> {
    match step
    case Tick(_) => None
    case SetGiveUpDeadline(_) => None
    case Create(_, py) => Some(py)
    case Reopen(_, py) => Some(py)
    case RecordDispatch(_, py) => Some(py)
    case ClaimExpiredMessage(py) => Some(py)
    case Claim(_, _, py) => Some(py)
    case FinishSuccess(_, _, py) => Some(py)
    case FinishFailure(_, _, py) => Some(py)
    case FailExpiredLease(_, py) => Some(py)
    case GiveUpIfPastDeadline(py) => Some(py)
    case GiveUpByHand(py) => Some(py)
    case RequeueForRetry(_, py) => Some(py)
    case ResetStuck(_, py) => Some(py)
    case DeletePhantom(py) => Some(py)
  }

  /** Every write says when it was made, except that of a deadline, which leaves the time of the last one. */
  lemma WritesAreStamped(cfg: Config, s: State, step: Step)
    requires Enabled(cfg, s, step)
    ensures var e := EffectOf(cfg, s, step);
            e.Put? || e.Open? || e.End? ==>
              if StampOf(step).Some? then e.row.updatedAt == StampOf(step).value
              else s.Exists() && e.row.updatedAt == s.Row().updatedAt
  {
  }

  // ---- how a later state relates to an earlier one

  /** Everything but the routing stamps (`dispatch_queue`, `dispatched_at`, `give_up_at`, `updated_at`) is as it was. */
  predicate SameOutcome(a: Attempt, b: Attempt) {
    && b.status == a.status && b.result == a.result && b.attemptCount == a.attemptCount
    && b.claimToken == a.claimToken && b.leaseExpiresAt == a.leaseExpiresAt
    && b.lastAttemptedAt == a.lastAttemptedAt
    && b.nextRetryAt == a.nextRetryAt && b.giveUpReason == a.giveUpReason
  }

  predicate Final(a: Attempt) {
    a.status.Success? || a.giveUpReason.Some?
  }

  /** What every later version `b` of a row still owes the version `a` current at time `now`. */
  predicate RowEvolves(a: Attempt, now: Instant, b: Attempt) {
    && b.block == a.block && b.createdAt == a.createdAt
    && a.attemptCount <= b.attemptCount
    && (Final(a) ==> SameOutcome(a, b))
    && (a.giveUpAt.Some? ==> b.giveUpAt == a.giveUpAt)
    && (a.giveUpAt.Some? && a.giveUpAt.value <= now ==> b.attemptCount == a.attemptCount)
    && (a.dispatchedAt.Some? ==> b.dispatchedAt.Some? && a.dispatchedAt.value <= b.dispatchedAt.value)
    && (a.status.Pending? && b.attemptCount == a.attemptCount ==>
          (b.status.Pending? && b.nextRetryAt == a.nextRetryAt) || b.giveUpReason.Some?)
  }

  ghost predicate Evolves(s: State, t: State) {
    && s.now <= t.now
    && s.versions <= t.versions && s.claims <= t.claims && s.closed <= t.closed
    && (s.Exists() ==> RowEvolves(s.Row(), s.now, t.Row()))
  }

  lemma EvolvesIsReflexive(s: State)
    ensures Evolves(s, s)
  {
  }

  lemma EvolvesIsTransitive(s: State, t: State, u: State)
    requires Evolves(s, t) && Evolves(t, u)
    ensures Evolves(s, u)
  {
  }

  /** The effect on the row alone, in terms of which a statement's evolution is checked. */
  ghost predicate EffectEvolves(s: State, e: Effect) {
    (e.Put? || e.Open? || e.End?) && s.Exists() ==> RowEvolves(s.Row(), s.now, e.row)
  }

  // ---- every statement keeps the invariant and evolves the row

  /** The startup cleanup matches nothing: a reachable SUCCESS was started. */
  lemma NoPhantom(cfg: Config, s: State, py: Instant)
    requires Invariant(cfg, s) && s.Exists()
    ensures !IsPhantom(s.Row(), py)
  {
  }

  /** Same claim, same outcome: what a statement that neither claims nor ends a claim leaves alone. */
  predicate SameClaim(a: Attempt, b: Attempt) {
    && b.attemptCount == a.attemptCount
    && b.status.Running? == a.status.Running? && b.status.Success? == a.status.Success?
    && b.lastAttemptedAt == a.lastAttemptedAt && b.leaseExpiresAt == a.leaseExpiresAt
    && (a.status.Running? ==> b.claimToken == a.claimToken)
  }

  /** What an effect on the row `a` can be, in a state whose claims are `claims`. */
  ghost predicate Lawful(cfg: Config, s: State, e: Effect) {
    match e
    case Nothing => true
    case Advance(later) => s.now <= later
    case Erase => false
    case Put(row) =>
      && RowInvariant(cfg, row, s.now)
      && if s.Exists() then SameClaim(s.Row(), row) && (s.Row().dispatchQueue.Some? ==> row.dispatchQueue.Some?)
         else row == NewAttempt(row.block, row.createdAt)
    case Open(row, claim) =>
      && s.Exists() && s.Row().status.Pending? && RowInvariant(cfg, row, s.now)
      && row.status.Running? && row.attemptCount == s.Row().attemptCount + 1
      && row.dispatchQueue == s.Row().dispatchQueue
      && claim.version == |s.versions| && HoldsLatestClaim(cfg, row, s.claims + [claim])
    case End(row, how) =>
      && s.Exists() && s.Row().status.Running? && RowInvariant(cfg, row, s.now)
      && !row.status.Running? && row.attemptCount == s.Row().attemptCount
      && row.dispatchQueue == s.Row().dispatchQueue
      && !how.ByUnleasedReset?
      && row.status.Success? == how.BySuccess?
      && (how.BySuccess? || how.ByFailure? ==>
            how.run < |s.claims| && s.Row().claimToken == Some(s.claims[how.run].token))
  }

  predicate EndsClaims(step: Step) {
    step.FinishSuccess? || step.FinishFailure? || step.FailExpiredLease?
  }

  /** Recording a failure is lawful and evolves the row, whatever the retry delay. */
  lemma FailureIsLawful(cfg: Config, s: State, delay: Option<Seconds>, py: Instant, how: Closure)
    requires cfg.Valid() && Invariant(cfg, s) && s.Exists() && s.Row().status.Running?
    requires how.ByLeaseExpiry? || how.ByFailure?
    requires how.ByFailure? ==> how.run < |s.claims| && s.Row().claimToken == Some(s.claims[how.run].token)
    ensures Lawful(cfg, s, End(FailedWith(s.Row(), delay, s.now, py), how))
    ensures EffectEvolves(s, End(FailedWith(s.Row(), delay, s.now, py), how))
  {
  }

  lemma EndingIsLawful(cfg: Config, s: State, step: Step)
    requires cfg.Valid() && Invariant(cfg, s) && Enabled(cfg, s, step) && EndsClaims(step)
    ensures Lawful(cfg, s, EffectOf(cfg, s, step)) && EffectEvolves(s, EffectOf(cfg, s, step))
  {
    var e := EffectOf(cfg, s, step);
    if e.End? && !step.FinishSuccess? {
      FailureIsLawful(cfg, s, cfg.RetryDelay(s.versions[step.seen]), step.py, e.how);
    }
  }

  predicate Dispatches(step: Step) {
    step.Reopen? || step.RecordDispatch? || step.RequeueForRetry? || step.ClaimExpiredMessage? || step.Claim?
  }

  lemma DispatchIsLawful(cfg: Config, s: State, step: Step)
    requires cfg.Valid() && Invariant(cfg, s) && Enabled(cfg, s, step) && Dispatches(step)
    ensures Lawful(cfg, s, EffectOf(cfg, s, step))
  {
  }

  lemma EffectIsLawful(cfg: Config, s: State, step: Step)
    requires cfg.Valid() && Invariant(cfg, s) && Enabled(cfg, s, step)
    ensures Lawful(cfg, s, EffectOf(cfg, s, step))
  {
    if EndsClaims(step) {
      EndingIsLawful(cfg, s, step);
    } else if Dispatches(step) {
      DispatchIsLawful(cfg, s, step);
    }
  }

  lemma LawfulKeepsLedger(cfg: Config, s: State, e: Effect)
    requires Invariant(cfg, s) && Lawful(cfg, s, e)
    ensures var t := s.Perform(e); t.Exists() ==> Ledger(t)
  {
    var t := s.Perform(e);
    forall i | 0 <= i < |t.closed|
      ensures EndsOwnToken(t, i)
    {
      if i < |s.closed| {
        assert EndsOwnToken(s, i);
      }
    }
  }

  lemma LawfulKeepsVersions(cfg: Config, s: State, e: Effect)
    requires Invariant(cfg, s) && Lawful(cfg, s, e)
    ensures var t := s.Perform(e); t.Exists() ==> VersionsInvariant(cfg, t)
  {
  }

  lemma LawfulKeepsInvariant(cfg: Config, s: State, e: Effect)
    requires Invariant(cfg, s) && Lawful(cfg, s, e)
    ensures Invariant(cfg, s.Perform(e))
  {
    LawfulKeepsLedger(cfg, s, e);
    LawfulKeepsVersions(cfg, s, e);
  }

  lemma StepKeepsInvariant(cfg: Config, s: State, step: Step)
    requires cfg.Valid() && Invariant(cfg, s) && Enabled(cfg, s, step)
    ensures Invariant(cfg, Apply(cfg, s, step))
  {
    EffectIsLawful(cfg, s, step);
    LawfulKeepsInvariant(cfg, s, EffectOf(cfg, s, step));
  }

  lemma DispatchEvolves(cfg: Config, s: State, step: Step)
    requires cfg.Valid() && Invariant(cfg, s) && Enabled(cfg, s, step) && Dispatches(step)
    ensures EffectEvolves(s, EffectOf(cfg, s, step))
  {
  }

  lemma OtherEvolves(cfg: Config, s: State, step: Step)
    requires cfg.Valid() && Invariant(cfg, s) && Enabled(cfg, s, step) && !EndsClaims(step) && !Dispatches(step)
    ensures EffectEvolves(s, EffectOf(cfg, s, step))
  {
  }

  lemma EffectOfEvolves(cfg: Config, s: State, step: Step)
    requires cfg.Valid() && Invariant(cfg, s) && Enabled(cfg, s, step)
    ensures EffectEvolves(s, EffectOf(cfg, s, step))
  {
    if EndsClaims(step) {
      EndingIsLawful(cfg, s, step);
    } else if Dispatches(step) {
      DispatchEvolves(cfg, s, step);
    } else {
      OtherEvolves(cfg, s, step);
    }
  }

  lemma StepEvolves(cfg: Config, s: State, step: Step)
    requires cfg.Valid() && Invariant(cfg, s) && Enabled(cfg, s, step)
    ensures Evolves(s, Apply(cfg, s, step))
  {
    EffectIsLawful(cfg, s, step);
    EffectOfEvolves(cfg, s, step);
    LawfulEvolves(cfg, s, EffectOf(cfg, s, step));
  }

  lemma LawfulEvolves(cfg: Config, s: State, e: Effect)
    requires Lawful(cfg, s, e) && EffectEvolves(s, e)
    ensures Evolves(s, s.Perform(e))
  {
  }

  /** Every run keeps the invariant and only ever evolves the row. */
  lemma {:induction false} RunsKeepInvariant(cfg: Config, s: State, steps: seq<Step>, t: State)
    requires cfg.Valid() && Invariant(cfg, s) && Run(cfg, s, steps, t)
    ensures Invariant(cfg, t) && Evolves(s, t)
    decreases |steps|
  {
    if steps == [] {
      EvolvesIsReflexive(s);
    } else {
      var u := Apply(cfg, s, steps[0]);
      StepKeepsInvariant(cfg, s, steps[0]);
      StepEvolves(cfg, s, steps[0]);
      RunsKeepInvariant(cfg, u, steps[1..], t);
      EvolvesIsTransitive(s, u, t);
    }
  }
}
