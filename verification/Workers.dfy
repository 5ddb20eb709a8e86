/**
 * The processes around one row, as code: the worker's run, the senders and the sweep's recoveries.
 *
 * Every statement they send is a step of the protocol, and between any two statements other processes
 * may take any number of steps of their own.
 */
module Workers {
  import opened Base
  import opened Attempts
  import opened Queues
  import opened Selection
  import opened Transitions
  import opened Protocol
  import opened Guarantees
  import opened Writes
  import opened Paths

  /** A step that does not record an outcome in the name of run `own`. */
  predicate Foreign(step: Step, own: Option<nat>) {
    own.Some? ==> !(step.FinishSuccess? && step.run == own.value) && !(step.FinishFailure? && step.run == own.value)
  }

  ghost predicate AllForeign(txs: seq<Transaction>, own: Option<nat>) {
    forall i | 0 <= i < |txs| :: Foreign(txs[i].step, own)
  }

  /** History only grows, and time passes. */
  ghost predicate Grows(s: State, t: State) {
    s.now <= t.now && s.versions <= t.versions && s.claims <= t.claims && s.closed <= t.closed
  }

  /** No ending since `s` is an outcome of run `own`. */
  ghost predicate NoneEndedBy(s: State, own: Option<nat>, t: State) {
    && s.closed <= t.closed
    && (own.Some? ==> forall i | |s.closed| <= i < |t.closed| :: !EndedBy(t.closed[i], own.value))
  }

  /** The writes of run `own` are as they were, and no writes are lost. */
  ghost predicate KeepsWrites(before: set<nat>, own: Option<nat>, after: set<nat>) {
    before <= after && (own.Some? && own.value in after ==> own.value in before)
  }

  lemma ForeignStepEndsNothing(cfg: Config, s: State, step: Step, own: Option<nat>)
    requires Enabled(cfg, s, step) && Foreign(step, own) && !step.DeletePhantom?
    ensures NoneEndedBy(s, own, Apply(cfg, s, step))
  {
    var e := EffectOf(cfg, s, step);
    assert e.End? && own.Some? ==> !EndedBy(e.how, own.value);
  }

  /** Other processes cannot record an outcome in a run's name, nor commit its writes. */
  lemma {:induction false} OthersEndNothing(cfg: Config, s: State, before: set<nat>, txs: seq<Transaction>, t: State,
                                            after: set<nat>, own: Option<nat>)
    requires cfg.Valid() && Invariant(cfg, s) && RunWrites(cfg, s, before, txs, t, after) && AllForeign(txs, own)
    ensures NoneEndedBy(s, own, t) && KeepsWrites(before, own, after)
    decreases |txs|
  {
    if txs != [] {
      var step := txs[0].step;
      assert Foreign(step, own);
      StepKeepsInvariant(cfg, s, step);
      if step.DeletePhantom? {
        NoPhantom(cfg, s, step.py);
      } else {
        ForeignStepEndsNothing(cfg, s, step, own);
      }
      OthersEndNothing(cfg, Apply(cfg, s, step), Committed(cfg, s, before, txs[0]), txs[1..], t, after, own);
    }
  }

  /** Whatever run of other processes happens between two statements, it is within what `Interfere` allows. */
  lemma OthersAreInterference(cfg: Config, past: State, s: State, before: set<nat>, txs: seq<Transaction>, t: State,
                              after: set<nat>, own: Option<nat>)
    requires cfg.Valid() && Reaches(cfg, START, s) && WritesHaveOutcomes(s, before) && Reaches(cfg, past, s)
    requires RunWrites(cfg, s, before, txs, t, after) && AllForeign(txs, own)
    ensures Reaches(cfg, START, t) && WritesHaveOutcomes(t, after) && Reaches(cfg, past, t)
    ensures Evolves(s, t) && NoneEndedBy(s, own, t) && KeepsWrites(before, own, after)
  {
    var steps := WritesFollowTheProtocol(cfg, s, before, txs, t, after);
    ReachedIsReachable(cfg, s);
    RunIsPath(cfg, s, steps, t);
    ReachesComposes(cfg, START, s, t);
    RunsKeepInvariant(cfg, s, steps, t);
    RunsKeepWrites(cfg, s, before, txs, t, after);
    OthersEndNothing(cfg, s, before, txs, t, after, own);
    ReachesComposes(cfg, past, s, t);
  }

  // ---- the row in the database

  /** The row and its history are as they were; only time has passed. */
  predicate Untouched(s: State, t: State) {
    s.now <= t.now && t == s.(now := t.now)
  }

  class AttemptRow {
    const cfg: Config
    const id: int
    /** No other process touches the row, though time passes; safety is promised for every row, progress for these. */
    ghost const alone: bool
    var st: State
    /** The runs whose function's writes are committed. */
    var written: set<nat>

    ghost predicate Valid()
      reads this
    {
      cfg.Valid() && Reaches(cfg, START, st) && WritesHaveOutcomes(st, written)
    }

    /** What a row that can be claimed, retried or given up looks like. */
    lemma Facts()
      requires Valid() && st.Exists()
      ensures RowInvariant(cfg, st.Row(), st.now)
    {
      ReachedIsReachable(cfg, st);
    }

    lemma VersionFacts(seen: nat)
      requires Valid() && seen < |st.versions|
      ensures InTaskQueues(cfg, st.versions[seen])
    {
      ReachedIsReachable(cfg, st);
    }

    /** The row came from `past` by statements of the protocol. */
    ghost predicate Since(past: State)
      reads this
    {
      Reaches(cfg, past, st)
    }

    constructor (cfg: Config, id: int, ghost alone: bool)
      requires cfg.Valid()
      ensures Valid() && this.cfg == cfg && this.id == id && this.alone == alone && st == START && written == {}
    {
      ReachesItself(cfg, START);
      this.cfg := cfg;
      this.id := id;
      this.alone := alone;
      st := START;
      written := {};
    }

    lemma Now()
      ensures Since(st)
    {
      ReachesItself(cfg, st);
    }

    /** Anything other processes may do to the row meanwhile; `OthersAreInterference` shows it is no less. */
    method Interfere(own: Option<nat>, ghost past: State)
      requires Valid() && Since(past)
      modifies this
      ensures Valid() && Since(past) && Evolves(old(st), st) && NoneEndedBy(old(st), own, st)
      ensures KeepsWrites(old(written), own, written)
      ensures alone ==> Untouched(old(st), st) && written == old(written)
    {
      EvolvesIsReflexive(st);
    }

    /** One statement: the row afterwards is what the protocol says. */
    method Send(step: Step, ghost past: State)
      requires Valid() && Since(past) && Enabled(cfg, st, step)
      modifies this`st
      ensures Valid() && Since(past) && Evolves(old(st), st) && st == Apply(cfg, old(st), step)
    {
      var next := Apply(cfg, st, step);
      ReachedIsReachable(cfg, st);
      StepEvolves(cfg, st, step);
      OneStepReaches(cfg, st, step);
      ReachesComposes(cfg, START, st, next);
      ReachesComposes(cfg, past, st, next);
      WritesKeepOutcomes(st, next, written);
      st := next;
    }

    method Create(block: int, py: Instant, ghost past: State) returns (created: bool)
      requires Valid() && Since(past)
      modifies this`st
      ensures Valid() && Since(past)
      ensures created == !old(st).Exists()
      ensures st == if created then old(st).Wrote(NewAttempt(block, py)) else old(st)
    {
      created := !st.Exists();
      Send(Step.Create(block, py), past);
    }

    /** Back to PENDING, decided from version `seen`, if the row still failed and was not given up. */
    method Reopen(seen: nat, py: Instant, ghost past: State) returns (reopened: bool)
      requires Valid() && Since(past) && Enabled(cfg, st, Step.Reopen(seen, py))
      modifies this`st
      ensures Valid() && Since(past)
      ensures reopened == AwaitsRetry(old(st).Row())
      ensures st == if reopened then old(st).Wrote(Reopened(old(st).Row(), py)) else old(st)
    {
      reopened := AwaitsRetry(st.Row());
      Send(Step.Reopen(seen, py), past);
    }

    method RecordDispatch(queue: string, py: Instant, ghost past: State)
      requires Valid() && Since(past) && st.Exists() && queue in cfg.TaskQueues()
      modifies this`st
      ensures Valid() && Since(past)
      ensures st == old(st).Wrote(Dispatched(old(st).Row(), queue, old(st).now, py))
    {
      Send(Step.RecordDispatch(queue, py), past);
    }

    method RequeueForRetry(queue: string, py: Instant, ghost past: State) returns (requeued: bool)
      requires Valid() && Since(past) && st.Exists() && queue in cfg.TaskQueues()
      modifies this`st
      ensures Valid() && Since(past)
      ensures requeued == AwaitsRetry(old(st).Row())
      ensures st == if requeued then old(st).Wrote(Requeued(old(st).Row(), queue, old(st).now, py)) else old(st)
    {
      requeued := AwaitsRetry(st.Row());
      Send(Step.RequeueForRetry(queue, py), past);
    }

    method SetGiveUpDeadline(seconds: Seconds, ghost past: State)
      requires Valid() && Since(past) && st.Exists()
      modifies this`st
      ensures Valid() && Since(past)
      ensures st == old(st).Wrote(WithDeadline(old(st).Row(), seconds, old(st).now))
    {
      Send(Step.SetGiveUpDeadline(seconds), past);
    }

    method GiveUpIfPastDeadline(py: Instant, ghost past: State) returns (gaveUp: bool)
      requires Valid() && Since(past) && st.Exists()
      modifies this`st
      ensures Valid() && Since(past)
      ensures gaveUp == PastDeadline(old(st).Row(), old(st).now)
      ensures st == if gaveUp then old(st).Wrote(GivenUp(old(st).Row(), BlockAge, py)) else old(st)
    {
      gaveUp := PastDeadline(st.Row(), st.now);
      Send(Step.GiveUpIfPastDeadline(py), past);
    }

    method ClaimExpiredMessage(py: Instant, ghost past: State) returns (taken: bool)
      requires Valid() && Since(past) && st.Exists()
      modifies this`st
      ensures Valid() && Since(past)
      ensures taken == MessageExpired(old(st).Row(), cfg.TtlWindows(), old(st).now, py)
      ensures st == if taken then old(st).Wrote(Restamped(old(st).Row(), old(st).now, py)) else old(st)
    {
      taken := MessageExpired(st.Row(), cfg.TtlWindows(), st.now, py);
      Send(Step.ClaimExpiredMessage(py), past);
    }

    /** Fails a run whose lease has passed; the retry is decided from version `seen`. */
    method FailExpiredLease(seen: nat, py: Instant, ghost past: State) returns (failed: bool)
      requires Valid() && Since(past) && seen < |st.versions|
      modifies this`st
      ensures Valid() && Since(past)
      ensures failed == LeaseExpired(old(st).Row(), old(st).now)
      ensures failed ==>
                var row := FailedWith(old(st).Row(), cfg.RetryDelay(old(st).versions[seen]), old(st).now, py);
                st == old(st).Wrote(row).(closed := old(st).closed + [ByLeaseExpiry])
      ensures !failed ==> st == old(st)
    {
      failed := LeaseExpired(st.Row(), st.now);
      Send(Step.FailExpiredLease(seen, py), past);
    }

    /** Resets a stuck row under its lock; a reachable one is never RUNNING. */
    method ResetStuck(staleBefore: Instant, py: Instant, ghost past: State) returns (reset: bool)
      requires Valid() && Since(past) && st.Exists() && cfg.settings.staleTimeout.Some?
      modifies this`st
      ensures Valid() && Since(past)
      ensures reset == IsStuck(old(st).Row(), cfg.settings.maxAttempts, staleBefore, cfg.TtlWindows().Keys)
      ensures st == if reset then old(st).Wrote(ResetToPending(old(st).Row(), py)) else old(st)
    {
      Facts();
      reset := IsStuck(st.Row(), cfg.settings.maxAttempts, staleBefore, cfg.TtlWindows().Keys);
      Send(Step.ResetStuck(staleBefore, py), past);
    }

    method Claim(token: string, timeLimit: Option<Seconds>, py: Instant, ghost past: State) returns (claimed: bool)
      requires Valid() && Since(past) && st.Exists()
      modifies this`st
      ensures Valid() && Since(past)
      ensures claimed == Claimable(old(st).Row(), old(st).now)
      ensures claimed ==>
                var row := Claimed(old(st).Row(), token, LeaseSeconds(cfg.settings, timeLimit), old(st).now, py);
                var claim := ClaimRecord(token, old(st).now, timeLimit, |old(st).versions|);
                st == old(st).Wrote(row).(claims := old(st).claims + [claim])
      ensures !claimed ==> st == old(st)
    {
      claimed := Claimable(st.Row(), st.now);
      Send(Step.Claim(token, timeLimit, py), past);
    }

    /**
     * The end of the transaction a function ran in: the UPDATE that records its outcome, with the function's
     * writes. When the claim is lost or the commit fails, both are rolled back.
     */
    method CommitOutcome(step: Step, commits: bool, ghost past: State) returns (held: bool)
      requires Valid() && Since(past) && Enabled(cfg, st, step) && RecordsOutcome(step)
      modifies this
      ensures Valid() && Since(past) && Evolves(old(st), st)
      ensures held <==> HeldBy(old(st).Row(), old(st).claims[step.run].token)
      ensures held && commits ==> st == Apply(cfg, old(st), step) && written == old(written) + {step.run}
      ensures !held || !commits ==> st == old(st) && written == old(written)
    {
      var buffered := written + {step.run};
      held := HeldBy(st.Row(), st.claims[step.run].token);
      if held && commits {
        OutcomeIsRecorded(cfg, st, step);
        Send(step, past);
        written := buffered;
      } else {
        EvolvesIsReflexive(st);
      }
    }

    /** Records a success if the claim is still held, together with the writes of the function. */
    method FinishSuccess(run: nat, result: string, commits: bool, py: Instant, ghost past: State) returns (held: bool)
      requires Valid() && Since(past) && st.Exists() && run < |st.claims|
      modifies this
      ensures Valid() && Since(past) && Evolves(old(st), st) && st.now == old(st).now
      ensures held <==> HeldBy(old(st).Row(), old(st).claims[run].token)
      ensures held && commits ==>
                && st.Exists() && st.Row().status.Success? && st.Row().result == Some(result)
                && st.closed == old(st).closed + [BySuccess(run)] && written == old(written) + {run}
      ensures !held || !commits ==> st == old(st) && written == old(written)
    {
      held := CommitOutcome(Step.FinishSuccess(run, result, py), commits, past);
    }

    /** Records a failure if the claim is still held, together with the writes of the function. */
    method FinishFailure(run: nat, seen: nat, commits: bool, py: Instant, ghost past: State) returns (held: bool)
      requires Valid() && Since(past) && run < |st.claims| && st.claims[run].version <= seen < |st.versions|
      modifies this
      ensures Valid() && Since(past) && Evolves(old(st), st) && st.now == old(st).now
      ensures held <==> HeldBy(old(st).Row(), old(st).claims[run].token)
      ensures held && commits ==>
                && st.Exists() && st.Row().status.Failed?
                && st.closed == old(st).closed + [ByFailure(run)] && written == old(written) + {run}
      ensures !held || !commits ==> st == old(st) && written == old(written)
    {
      held := CommitOutcome(Step.FinishFailure(run, seen, py), commits, past);
    }

    /** Records a failure in a transaction of its own: the UPDATE alone. */
    method RecordFailure(run: nat, seen: nat, py: Instant, ghost past: State) returns (held: bool)
      requires Valid() && Since(past) && run < |st.claims| && st.claims[run].version <= seen < |st.versions|
      modifies this`st
      ensures Valid() && Since(past) && Evolves(old(st), st) && st.now == old(st).now
      ensures held <==> HeldBy(old(st).Row(), old(st).claims[run].token)
      ensures held ==> st.Exists() && st.Row().status.Failed? && st.closed == old(st).closed + [ByFailure(run)]
      ensures !held ==> st == old(st)
    {
      held := HeldBy(st.Row(), st.claims[run].token);
      Send(Step.FinishFailure(run, seen, py), past);
    }
  }

  // ---- senders

  /** A message, handed to Celery at `sentAt`. */
  datatype Message = Message(queue: string, eta: Option<Instant>, expires: Option<Instant>, sentAt: Instant)

  /** The message goes to a queue of the task, with the expiry that queue's policy gives it. */
  predicate FollowsPolicy(cfg: Config, m: Message) {
    && m.queue in cfg.TaskQueues() && cfg.GetQueue(Some(m.queue)).Some?
    && m.expires == MessageExpiry(cfg.GetQueue(Some(m.queue)).value, m.eta, m.sentAt)
  }

  /** Nothing is left to do for the row: it is given up, or waits for a message dispatched since `start`. */
  predicate Carried(s: State, start: Instant) {
    && s.Exists()
    && (|| s.Row().giveUpReason.Some?
        || (&& s.Row().status.Pending? && s.Row().dispatchQueue.Some?
            && s.Row().dispatchedAt.Some? && start <= s.Row().dispatchedAt.value))
  }

  /** Version `stamp`, written since the row was in state `before`, records the dispatch of `m`. */
  ghost predicate Stamps(before: State, s: State, stamp: nat, m: Message) {
    && |before.versions| <= stamp < |s.versions|
    && s.versions[stamp].dispatchQueue == Some(m.queue)
    && s.versions[stamp].dispatchedAt.Some? && before.now <= s.versions[stamp].dispatchedAt.value
  }

  lemma QueueOfTask(cfg: Config, a: Attempt)
    requires cfg.Valid() && InTaskQueues(cfg, a)
    ensures cfg.RedispatchQueue(a).name in cfg.TaskQueues() && cfg.Registered(cfg.RedispatchQueue(a))
    ensures cfg.GetQueue(a.dispatchQueue).Some? ==> cfg.GetQueue(a.dispatchQueue).value == cfg.RedispatchQueue(a)
  {
  }

  /** A retry goes back to its queue while that is defined, and then to the backfill queue, or live without one. */
  function RetryQueue(cfg: Config, a: Attempt): string {
    if a.dispatchQueue.Some? && a.dispatchQueue.value in cfg.queues then a.dispatchQueue.value
    else if cfg.backfill.Some? then cfg.backfill.value.name
    else cfg.live.name
  }

  /**
   * Sends the retry of a FAILED attempt, as the caller last read it: version `seen`. Nothing is sent for
   * an attempt that succeeded or was given up meanwhile.
   */
  method DispatchRetry(row: AttemptRow, seen: nat, own: Option<nat>, ghost past: State)
    returns (sent: Option<Message>, stamp: nat)
    requires row.Valid() && row.Since(past) && seen < |row.st.versions|
    modifies row
    ensures row.Valid() && row.Since(past) && Grows(old(row.st), row.st) && NoneEndedBy(old(row.st), own, row.st)
    ensures sent.Some? ==>
              && FollowsPolicy(row.cfg, sent.value) && Stamps(old(row.st), row.st, stamp, sent.value)
              && sent.value.eta == old(row.st).versions[seen].nextRetryAt && sent.value.eta.Some?
              && sent.value.queue == RetryQueue(row.cfg, old(row.st).versions[seen])
    ensures row.st.Exists()
    ensures Final(old(row.st).Row()) ==> sent.None? && SameOutcome(old(row.st).Row(), row.st.Row())
    ensures row.alone && AwaitsRetry(old(row.st).Row()) && seen == |old(row.st).versions| - 1 ==>
              sent.Some? && Carried(row.st, old(row.st).now) && row.st.Row().giveUpReason.None?
    ensures KeepsWrites(old(row.written), own, row.written)
  {
    var attempt := row.st.versions[seen];
    row.Facts();
    row.VersionFacts(seen);
    if attempt.nextRetryAt.None? {
      return None, 0;
    }
    QueueOfTask(row.cfg, attempt);
    sent, stamp := RequeueAndSend(row, row.cfg.RedispatchQueue(attempt), attempt.nextRetryAt, own, past);
  }

  /** Puts a row that awaits its retry back in line, and sends the retry with the ETA its sender had read. */
  method RequeueAndSend(row: AttemptRow, policy: Queue, eta: Option<Instant>, own: Option<nat>, ghost past: State)
    returns (sent: Option<Message>, stamp: nat)
    requires row.Valid() && row.Since(past) && row.st.Exists()
    requires row.cfg.Registered(policy) && policy.name in row.cfg.TaskQueues()
    modifies row
    ensures row.Valid() && row.Since(past) && Grows(old(row.st), row.st) && NoneEndedBy(old(row.st), own, row.st)
    ensures row.st.Exists() && KeepsWrites(old(row.written), own, row.written)
    ensures sent.Some? ==>
              && FollowsPolicy(row.cfg, sent.value) && Stamps(old(row.st), row.st, stamp, sent.value)
              && sent.value.eta == eta && sent.value.queue == policy.name
    ensures Final(old(row.st).Row()) ==> sent.None? && SameOutcome(old(row.st).Row(), row.st.Row())
    ensures row.alone && AwaitsRetry(old(row.st).Row()) ==>
              sent.Some? && Carried(row.st, old(row.st).now) && row.st.Row().giveUpReason.None?
  {
    row.Interfere(own, past);
    var py: Instant := *;
    var requeued := row.RequeueForRetry(policy.name, py, past);
    stamp := |row.st.versions| - 1;
    if !requeued {
      return None, stamp;
    }
    py := *;
    sent := Some(Message(policy.name, eta, MessageExpiry(policy, eta, py), py));
  }

  /** There is no attempt yet, or it waits to be sent, or it failed and may run again by now. */
  predicate Submittable(cfg: Config, s: State, py: Instant) {
    || !s.Exists() || s.Row().status.Pending?
    || (&& s.Row().status.Failed? && s.Row().giveUpReason.None?
        && (s.Row().dispatchQueue.Some? || s.Row().attemptCount < cfg.settings.maxAttempts)
        && (s.Row().nextRetryAt.None? || s.Row().nextRetryAt.value <= py))
  }

  function DeadlineOf(s: State): Option<Instant> {
    if s.Exists() then s.Row().giveUpAt else None
  }

  /** Creates the attempt, or reopens one that failed and may run now; returns it as the caller then holds it. */
  method CreateOrReopen(row: AttemptRow, block: int, py: Instant, ghost past: State)
    returns (attempt: Attempt, created: bool)
    requires row.Valid() && row.Since(past)
    modifies row
    ensures row.Valid() && row.Since(past) && row.st.Exists() && Grows(old(row.st), row.st)
    ensures InTaskQueues(row.cfg, attempt)
    ensures created <==> !old(row.st).Exists()
    ensures created ==> attempt.block == block && attempt.status.Pending?
    ensures created ==> attempt.dispatchQueue.None? && attempt.nextRetryAt.None?
    ensures !created ==>
              && attempt.dispatchQueue == old(row.st).Row().dispatchQueue && attempt.block == old(row.st).Row().block
              && attempt.nextRetryAt == old(row.st).Row().nextRetryAt
    ensures row.alone ==> row.st.Row().giveUpAt == DeadlineOf(old(row.st))
    ensures old(row.st).Exists() && Final(old(row.st).Row()) ==> !attempt.status.Pending?
    ensures row.alone ==>
              && (attempt.status.Pending? <==> Submittable(row.cfg, old(row.st), py))
              && (if attempt.status.Pending? then row.st.Row().status.Pending? else Untouched(old(row.st), row.st))
  {
    created := row.Create(block, py, past);
    var seen := |row.st.versions| - 1;
    attempt := row.st.versions[seen];
    row.VersionFacts(seen);
    row.Facts();
    if created || !attempt.status.Failed? || !row.cfg.CanRunAgain(attempt) {
      return;
    }
    var reopened := ReopenIfDue(row, seen, py, past);
    if reopened {
      attempt := attempt.(status := Pending);
    }
  }

  /** Reopens a failed attempt, read as version `seen`, whose retry is due. */
  method ReopenIfDue(row: AttemptRow, seen: nat, py: Instant, ghost past: State) returns (reopened: bool)
    requires row.Valid() && row.Since(past) && seen < |row.st.versions|
    requires row.st.versions[seen].status.Failed? && row.cfg.CanRunAgain(row.st.versions[seen])
    modifies row
    ensures row.Valid() && row.Since(past) && row.st.Exists() && Grows(old(row.st), row.st)
    ensures Final(old(row.st).Row()) ==> !reopened
    ensures row.alone && seen == |old(row.st).versions| - 1 ==>
              var read := old(row.st).Row();
              && (reopened <==> read.nextRetryAt.None? || read.nextRetryAt.value <= py)
              && row.st.Row().giveUpAt == read.giveUpAt
              && if reopened then row.st.Row().status.Pending? else Untouched(old(row.st), row.st)
  {
    reopened := false;
    var attempt := row.st.versions[seen];
    row.Interfere(None, past);
    if attempt.nextRetryAt.None? || attempt.nextRetryAt.value <= py {
      reopened := row.Reopen(seen, py, past);
    }
  }

  /** How long until a block counts as too old, for a queue that gives up after some blocks and a known head. */
  function SecondsLeft(policy: Queue, block: int, head: Option<int>, blockTime: Seconds): Option<Seconds> {
    if policy.retry.giveUpAfterBlocks.None? || head.None? then None
    else Some((policy.retry.giveUpAfterBlocks.value - (head.value - block)) as real * blockTime)
  }

  /**
   * What becomes of the deadline `before` between instants `start` and `end`: one that is set stays, and otherwise it
   * is set `secondsLeft` ahead of some instant in between, if at all.
   */
  predicate DeadlineSet(before: Option<Instant>, secondsLeft: Option<Seconds>, start: Instant, end: Instant,
                        after: Option<Instant>)
  {
    if before.Some? || secondsLeft.None? then after == before
    else after.Some? && start + secondsLeft.value <= after.value <= end + secondsLeft.value
  }

  /** The row has no deadline, and the one it is to get has passed already. */
  predicate NoTimeLeft(s: State, secondsLeft: Option<Seconds>)
    requires s.Exists()
  {
    s.Row().giveUpAt.None? && secondsLeft.Some? && secondsLeft.value <= 0.0
  }

  /** Sets the deadline if the policy has one, and gives up an attempt already past it. */
  method GaveUp(row: AttemptRow, secondsLeft: Option<Seconds>, ghost past: State) returns (gaveUp: bool)
    requires row.Valid() && row.Since(past) && row.st.Exists()
    modifies row
    ensures row.Valid() && row.Since(past) && row.st.Exists() && Grows(old(row.st), row.st)
    ensures gaveUp ==> row.st.Row().giveUpReason == Some(BlockAge) && row.st.Row().status.Failed?
    ensures gaveUp ==> !BeforeGiveUp(row.st.Row(), row.st.now)
    ensures secondsLeft.Some? ==> row.st.Row().giveUpAt.Some?
    ensures row.alone && old(row.st).Row().status.Pending? && NoTimeLeft(old(row.st), secondsLeft) ==> gaveUp
    ensures row.alone ==>
              DeadlineSet(old(row.st).Row().giveUpAt, secondsLeft, old(row.st).now, row.st.now, row.st.Row().giveUpAt)
    ensures !gaveUp ==> Final(row.st.Row()) || row.st.Row().status.Running? || BeforeGiveUp(row.st.Row(), row.st.now)
    ensures row.alone && old(row.st).Row().status.Pending? && !gaveUp ==> row.st.Row().status.Pending?
    ensures row.alone && secondsLeft.None? && !gaveUp ==> Untouched(old(row.st), row.st)
    ensures row.alone && old(row.st).Row().status.Pending? && !BeforeGiveUp(old(row.st).Row(), old(row.st).now) ==>
              gaveUp
  {
    if secondsLeft.Some? {
      row.SetGiveUpDeadline(secondsLeft.value, past);
      row.Interfere(None, past);
    }
    row.Facts();
    var py: Instant := *;
    gaveUp := row.GiveUpIfPastDeadline(py, past);
  }

  /** Stamps the dispatch and sends the message. */
  method StampAndSend(row: AttemptRow, policy: Queue, eta: Option<Instant>, ghost past: State)
    returns (message: Message, stamp: nat)
    requires row.Valid() && row.Since(past) && row.st.Exists()
    requires row.cfg.Registered(policy) && policy.name in row.cfg.TaskQueues()
    modifies row
    ensures row.Valid() && row.Since(past) && row.st.Exists() && Grows(old(row.st), row.st)
    ensures message.eta == eta && FollowsPolicy(row.cfg, message) && Stamps(old(row.st), row.st, stamp, message)
    ensures row.alone && old(row.st).Row().status.Pending? ==>
              Carried(row.st, old(row.st).now) && row.st.Row().status.Pending?
    ensures message.queue == policy.name
    ensures row.alone ==> row.st.Row().giveUpAt == old(row.st).Row().giveUpAt
    ensures row.alone ==> row.st.Row().dispatchQueue == Some(policy.name)
  {
    row.Interfere(None, past);
    var py: Instant := *;
    row.RecordDispatch(policy.name, py, past);
    stamp := |row.st.versions| - 1;
    py := *;
    message := Message(policy.name, eta, MessageExpiry(policy, eta, py), py);
  }

  /** Sends an attempt that waits to run, unless it is past its deadline. */
  method SendInTime(row: AttemptRow, policy: Queue, attempt: Attempt, head: Option<int>, blockTime: Seconds,
                    ghost past: State) returns (sent: Option<Message>, stamp: nat)
    requires row.Valid() && row.Since(past) && row.st.Exists()
    requires row.cfg.Registered(policy) && policy.name in row.cfg.TaskQueues()
    modifies row
    ensures row.Valid() && row.Since(past) && row.st.Exists() && Grows(old(row.st), row.st)
    ensures sent.Some? ==> FollowsPolicy(row.cfg, sent.value) && Stamps(old(row.st), row.st, stamp, sent.value)
    ensures row.alone && old(row.st).Row().status.Pending? ==>
              Carried(row.st, old(row.st).now) && (sent.None? <==> row.st.Row().giveUpReason.Some?)
    ensures sent.Some? ==> sent.value.queue == policy.name && sent.value.eta == attempt.nextRetryAt
    ensures row.alone && sent.Some? ==> row.st.Row().dispatchQueue == Some(policy.name)
    ensures row.alone ==>
              DeadlineSet(old(row.st).Row().giveUpAt, SecondsLeft(policy, attempt.block, head, blockTime),
                          old(row.st).now, row.st.now, row.st.Row().giveUpAt)
    ensures row.alone && old(row.st).Row().status.Pending?
            && NoTimeLeft(old(row.st), SecondsLeft(policy, attempt.block, head, blockTime)) ==>
              row.st.Row().giveUpReason == Some(BlockAge)
  {
    row.Interfere(None, past);
    var gaveUp := GaveUp(row, SecondsLeft(policy, attempt.block, head, blockTime), past);
    if gaveUp {
      return None, 0;
    }
    var message;
    message, stamp := StampAndSend(row, policy, attempt.nextRetryAt, past);
    row.Facts();
    return Some(message), stamp;
  }

  /** The queue a submission follows: the attempt's own while it is defined, else the one named, else live. */
  function PolicyFor(cfg: Config, s: State, queue: Option<Queue>): Queue {
    if s.Exists() && s.Row().dispatchQueue.Some? && s.Row().dispatchQueue.value in cfg.queues
    then cfg.queues[s.Row().dispatchQueue.value]
    else if queue.Some? then queue.value else cfg.live
  }

  /**
   * What age does to an attempt for `block` submitted against `head`: on a queue that gives up after `n` blocks, one
   * without a deadline gets it as many block times ahead as the block is short of being `n` blocks old, and one whose
   * block is that old is given up; otherwise the deadline is as it was.
   */
  predicate AgeRule(policy: Queue, block: int, head: Option<int>, blockTime: Seconds, s: State, t: State)
    requires t.Exists()
  {
    if policy.retry.giveUpAfterBlocks.None? || head.None? || DeadlineOf(s).Some? then
      t.Row().giveUpAt == DeadlineOf(s)
    else
      var left := policy.retry.giveUpAfterBlocks.value - (head.value - block);
      && t.Row().giveUpAt.Some?
      && s.now + left as real * blockTime <= t.Row().giveUpAt.value <= t.now + left as real * blockTime
      && (left <= 0 ==> t.Row().giveUpReason == Some(BlockAge))
  }

  /** A block as old as the queue allows, or older, has no time left. */
  lemma OldBlocksHaveNoTime(policy: Queue, block: int, head: int, blockTime: Seconds)
    requires policy.retry.giveUpAfterBlocks.Some? && blockTime >= 0.0
    requires policy.retry.giveUpAfterBlocks.value <= head - block
    ensures SecondsLeft(policy, block, Some(head), blockTime).value <= 0.0
  {
    var left := policy.retry.giveUpAfterBlocks.value - (head - block);
    assert left as real <= 0.0;
    assert left as real * blockTime <= 0.0;
  }

  /** The rule on seconds is the rule on blocks. */
  lemma AgeRuleHolds(policy: Queue, block: int, head: Option<int>, blockTime: Seconds, s: State, waiting: State,
                     t: State)
    requires waiting.Exists() && t.Exists() && blockTime >= 0.0
    requires s.now <= waiting.now && waiting.Row().giveUpAt == DeadlineOf(s)
    requires var secondsLeft := SecondsLeft(policy, block, head, blockTime);
             && DeadlineSet(waiting.Row().giveUpAt, secondsLeft, waiting.now, t.now, t.Row().giveUpAt)
             && (NoTimeLeft(waiting, secondsLeft) ==> t.Row().giveUpReason == Some(BlockAge))
    ensures AgeRule(policy, block, head, blockTime, s, t)
  {
    if policy.retry.giveUpAfterBlocks.Some? && head.Some?
       && policy.retry.giveUpAfterBlocks.value <= head.value - block
    {
      OldBlocksHaveNoTime(policy, block, head.value, blockTime);
    }
  }

  /**
   * Records the attempt for a block and sends it, unless it already ran, runs or was given up. An existing
   * attempt keeps the policy of its recorded queue while that is defined.
   */
  method Execute(row: AttemptRow, block: int, queue: Option<Queue>, head: Option<int>, blockTime: Seconds, py: Instant,
                 ghost past: State)
    returns (sent: Option<Message>, stamp: nat)
    requires row.Valid() && row.Since(past)
    requires queue.Some? ==> row.cfg.Registered(queue.value) && queue.value.name in row.cfg.TaskQueues()
    modifies row
    ensures row.Valid() && row.Since(past) && row.st.Exists() && Grows(old(row.st), row.st)
    ensures sent.Some? ==> FollowsPolicy(row.cfg, sent.value) && Stamps(old(row.st), row.st, stamp, sent.value)
    ensures old(row.st).Exists() && Final(old(row.st).Row()) ==> sent.None?
    ensures row.alone ==>
              if Submittable(row.cfg, old(row.st), py) then
                Carried(row.st, old(row.st).now) && (sent.None? <==> row.st.Row().giveUpReason.Some?)
              else sent.None? && Untouched(old(row.st), row.st)
    ensures sent.Some? ==> sent.value.queue == PolicyFor(row.cfg, old(row.st), queue).name
    ensures sent.Some? ==> sent.value.eta == if old(row.st).Exists() then old(row.st).Row().nextRetryAt else None
    ensures row.alone && sent.Some? ==> row.st.Row().dispatchQueue == Some(sent.value.queue)
    ensures row.alone && Submittable(row.cfg, old(row.st), py) && blockTime >= 0.0 ==>
              AgeRule(PolicyFor(row.cfg, old(row.st), queue),
                      if old(row.st).Exists() then old(row.st).Row().block else block,
                      head, blockTime, old(row.st), row.st)
  {
    var attempt, created := CreateOrReopen(row, block, py, past);
    if !attempt.status.Pending? {
      return None, 0;
    }
    var policy := if queue.Some? then queue.value else row.cfg.live;
    if !created && row.cfg.GetQueue(attempt.dispatchQueue).Some? {
      policy := row.cfg.GetQueue(attempt.dispatchQueue).value;
      QueueOfTask(row.cfg, attempt);
    }
    assert policy == PolicyFor(row.cfg, old(row.st), queue);
    ghost var waiting := row.st;
    sent, stamp := SendInTime(row, policy, attempt, head, blockTime, past);
    if row.alone && blockTime >= 0.0 {
      AgeRuleHolds(policy, attempt.block, head, blockTime, old(row.st), waiting, row.st);
    }
  }

  // ---- the worker

  /**
   * What the task function did: the value it returned, or None if it raised; whether it left its transaction
   * usable; and whether that transaction then commits.
   */
  datatype Execution = Execution(returned: Option<string>, usable: bool, commits: bool)

  datatype RunResult = Returned(result: string) | NoResult | Locked

  /** An undisturbed claim: made if it may be throughout, only if it may be at the start, and otherwise says why not. */
  ghost predicate ClaimsAlone(s: State, token: string, run: Option<nat>, locked: bool, t: State) {
    if !s.Exists() || !s.Row().status.Pending? then
      run.None? && Untouched(s, t) && (locked <==> !s.Exists() || s.Row().status.Running?)
    else
      !locked && PendingAlone(s, token, run, t)
  }

  ghost predicate PendingAlone(s: State, token: string, run: Option<nat>, t: State)
    requires s.Exists()
  {
    && t.Exists()
    && (Claimable(s.Row(), t.now) ==> run.Some?)
    && (run.Some? ==> Claimable(s.Row(), s.now) && HeldBy(t.Row(), token))
    && (run.None? ==> t.Row().giveUpReason == Some(BlockAge))
  }

  /** Run `run` is open, under `token`, and version `seen` was read after its claim. */
  ghost predicate Opened(s: State, run: nat, seen: nat, token: string) {
    && run < |s.claims| && s.claims[run].token == token
    && s.claims[run].version <= seen < |s.versions|
    && Unended(s, run)
  }

  /** Run `run` was claimed since the row was in state `before`, under this hard limit. */
  ghost predicate ClaimedUnder(before: State, s: State, run: nat, timeLimit: Option<Seconds>) {
    && |before.claims| <= run < |s.claims| && s.claims[run].timeLimit == timeLimit
    && before.now <= s.claims[run].at <= s.now
  }

  /** The lease runs from `at`: the hard limit and the margin, or without one the stuck-task timeout, if any. */
  predicate LeasedFrom(cfg: Config, a: Attempt, at: Instant, timeLimit: Option<Seconds>) {
    a.leaseExpiresAt ==
      if timeLimit.Some? && timeLimit.value != 0.0 then Some(at + timeLimit.value + cfg.settings.margin)
      else if cfg.settings.staleTimeout.Some? then Some(at + cfg.settings.staleTimeout.value)
      else None
  }

  /** Sends the claim; `seen` is the row as read back after it. */
  method OpenRun(row: AttemptRow, token: string, timeLimit: Option<Seconds>, ghost past: State)
    returns (run: Option<nat>, seen: nat)
    requires row.Valid() && row.Since(past) && row.st.Exists()
    modifies row
    ensures row.Valid() && row.Since(past) && row.st.Exists() && Grows(old(row.st), row.st)
    ensures run.Some? ==>
              Opened(row.st, run.value, seen, token) && ClaimedUnder(old(row.st), row.st, run.value, timeLimit)
    ensures row.alone ==>
              && (Claimable(old(row.st).Row(), row.st.now) ==> run.Some?)
              && (run.Some? ==> Claimable(old(row.st).Row(), old(row.st).now) && HeldBy(row.st.Row(), token))
              && (run.Some? ==> LeasedFrom(row.cfg, row.st.Row(), row.st.claims[run.value].at, timeLimit))
              && (run.None? ==> Untouched(old(row.st), row.st))
              && (run.None? && old(row.st).Row().status.Pending? ==> !BeforeGiveUp(row.st.Row(), row.st.now))
  {
    row.Interfere(None, past);
    run, seen := ClaimAndRead(row, token, timeLimit, past);
  }

  /** The claim itself, and the read that follows it. */
  method ClaimAndRead(row: AttemptRow, token: string, timeLimit: Option<Seconds>, ghost past: State)
    returns (run: Option<nat>, seen: nat)
    requires row.Valid() && row.Since(past) && row.st.Exists()
    modifies row
    ensures row.Valid() && row.Since(past) && row.st.Exists() && Grows(old(row.st), row.st)
    ensures run.Some? <==> Claimable(old(row.st).Row(), old(row.st).now)
    ensures run.Some? ==>
              Opened(row.st, run.value, seen, token) && ClaimedUnder(old(row.st), row.st, run.value, timeLimit)
    ensures run.None? ==> row.st == old(row.st)
    ensures row.alone && run.Some? ==>
              && HeldBy(row.st.Row(), token)
              && LeasedFrom(row.cfg, row.st.Row(), row.st.claims[run.value].at, timeLimit)
  {
    run, seen := None, 0;
    NextRunIsUnended(row.cfg, row.st);
    var py: Instant := *;
    var claimed := row.Claim(token, timeLimit, py, past);
    if claimed {
      run := Some(|row.st.claims| - 1);
      row.Interfere(run, past);
      seen := |row.st.versions| - 1;
    }
  }

  /** Claims an attempt found PENDING; one past its deadline is given up instead. */
  method ClaimPending(row: AttemptRow, token: string, timeLimit: Option<Seconds>, ghost past: State)
    returns (run: Option<nat>, seen: nat, gaveUp: bool)
    requires row.Valid() && row.Since(past) && row.st.Exists()
    modifies row
    ensures row.Valid() && row.Since(past) && row.st.Exists() && Grows(old(row.st), row.st)
    ensures run.Some? ==>
              Opened(row.st, run.value, seen, token) && ClaimedUnder(old(row.st), row.st, run.value, timeLimit)
    ensures row.alone && old(row.st).Row().status.Pending? ==>
              (run.Some? || gaveUp) && PendingAlone(old(row.st), token, run, row.st)
  {
    gaveUp := false;
    run, seen := OpenRun(row, token, timeLimit, past);
    if run.None? {
      row.Interfere(None, past);
      gaveUp := GaveUp(row, None, past);
    }
  }

  /** Finds the attempt and claims it; says whether it is missing or held by another worker. */
  method ClaimForRun(row: AttemptRow, token: string, timeLimit: Option<Seconds>, ghost past: State)
    returns (run: Option<nat>, seen: nat, locked: bool)
    requires row.Valid() && row.Since(past)
    modifies row
    ensures row.Valid() && row.Since(past) && Grows(old(row.st), row.st)
    ensures run.Some? ==>
              Opened(row.st, run.value, seen, token) && ClaimedUnder(old(row.st), row.st, run.value, timeLimit)
    ensures run.None? ==> row.st.Exists() || locked
    ensures row.alone ==> ClaimsAlone(old(row.st), token, run, locked, row.st)
  {
    run, seen, locked := None, 0, false;
    row.Interfere(None, past);
    if !row.st.Exists() {
      return None, 0, true;
    }
    var found := row.st.Row();
    if found.status.Pending? {
      var gaveUp;
      run, seen, gaveUp := ClaimPending(row, token, timeLimit, past);
      if run.Some? || gaveUp {
        return;
      }
      row.Interfere(None, past);
      found := row.st.Row();
    }
    locked := found.status.Running?;
  }

  /** Every outcome recorded so far is of an earlier run than the next claim opens. */
  lemma NextRunIsUnended(cfg: Config, s: State)
    requires cfg.Valid() && Reaches(cfg, START, s) && s.Exists()
    ensures Unended(s, |s.claims|)
  {
    ReachedIsReachable(cfg, s);
    forall i | 0 <= i < |s.closed|
      ensures !EndedBy(s.closed[i], |s.claims|)
    {
      assert EndsOwnToken(s, i);
    }
  }

  /** How the attempt to record an outcome went. */
  datatype Recorded = Lost | WithWrites | WithoutWrites

  /** What was recorded, and which of the function's writes came with it. */
  ghost predicate RecordedAs(s: State, written: set<nat>, run: nat, execution: Execution, recorded: Recorded) {
    && (run in written <==> recorded.WithWrites?)
    && (recorded.Lost? ==> Unended(s, run))
    && (!recorded.Lost? ==> (recorded.WithWrites? <==> execution.usable && execution.commits))
    && (!recorded.Lost? ==>
          && s.Exists() && s.closed != []
          && if recorded.WithWrites? && execution.returned.Some? then
               s.Row().status.Success? && s.closed[|s.closed| - 1] == BySuccess(run)
             else
               s.Row().status.Failed? && s.closed[|s.closed| - 1] == ByFailure(run))
  }

  /**
   * Records what the function did. Its writes and its outcome are one transaction, which is rolled back when
   * the claim was lost; when it cannot be used or cannot commit, FAILED is recorded in one of its own.
   */
  method RecordOutcome(row: AttemptRow, run: nat, seen: nat, execution: Execution, ghost past: State)
    returns (recorded: Recorded)
    requires row.Valid() && row.Since(past)
    requires run < |row.st.claims| && Opened(row.st, run, seen, row.st.claims[run].token)
    modifies row
    ensures row.Valid() && row.Since(past) && Grows(old(row.st), row.st)
    ensures old(row.written) <= row.written && RecordedAs(row.st, row.written, run, execution, recorded)
    ensures row.alone && HeldBy(old(row.st).Row(), old(row.st).claims[run].token) ==>
              recorded == if execution.usable && execution.commits then WithWrites else WithoutWrites
  {
    assert run !in row.written;
    row.Interfere(Some(run), past);
    if execution.usable {
      var held := EndTransaction(row, run, seen, execution, past);
      if !held {
        return Lost;
      }
      if execution.commits {
        return WithWrites;
      }
    }
    recorded := RecordAlone(row, run, seen, past);
  }

  /** Ends the function's transaction: the outcome and the writes, both or neither. */
  method EndTransaction(row: AttemptRow, run: nat, seen: nat, execution: Execution, ghost past: State)
    returns (held: bool)
    requires row.Valid() && row.Since(past) && row.st.Exists()
    requires run < |row.st.claims| && row.st.claims[run].version <= seen < |row.st.versions|
    modifies row
    ensures row.Valid() && row.Since(past) && Grows(old(row.st), row.st)
    ensures held <==> HeldBy(old(row.st).Row(), old(row.st).claims[run].token)
    ensures held && execution.commits ==>
              && row.st.Exists() && row.written == old(row.written) + {run}
              && if execution.returned.Some? then
                   row.st.Row().status.Success? && row.st.closed == old(row.st).closed + [BySuccess(run)]
                 else row.st.Row().status.Failed? && row.st.closed == old(row.st).closed + [ByFailure(run)]
    ensures !held || !execution.commits ==> row.st == old(row.st) && row.written == old(row.written)
  {
    var py: Instant := *;
    if execution.returned.Some? {
      held := row.FinishSuccess(run, execution.returned.value, execution.commits, py, past);
    } else {
      held := row.FinishFailure(run, seen, execution.commits, py, past);
    }
  }

  /** Records FAILED in a transaction of its own, without the function's writes. */
  method RecordAlone(row: AttemptRow, run: nat, seen: nat, ghost past: State) returns (recorded: Recorded)
    requires row.Valid() && row.Since(past)
    requires run < |row.st.claims| && Opened(row.st, run, seen, row.st.claims[run].token)
    modifies row
    ensures row.Valid() && row.Since(past) && Grows(old(row.st), row.st)
    ensures KeepsWrites(old(row.written), Some(run), row.written) && !recorded.WithWrites?
    ensures recorded.Lost? ==> Unended(row.st, run)
    ensures recorded.WithoutWrites? ==>
              row.st.Exists() && row.st.Row().status.Failed? && row.st.closed != []
              && row.st.closed[|row.st.closed| - 1] == ByFailure(run)
    ensures row.alone && HeldBy(old(row.st).Row(), old(row.st).claims[run].token) ==> recorded.WithoutWrites?
  {
    row.Interfere(Some(run), past);
    var py: Instant := *;
    var held := row.RecordFailure(run, seen, py, past);
    recorded := if held then WithoutWrites else Lost;
  }

  /** After a recorded failure: reads the row back, and dispatches the next try if there is to be one. */
  method RetryOrReport(row: AttemptRow, run: nat, ghost past: State)
    requires row.Valid() && row.Since(past) && row.st.Exists()
    modifies row
    ensures row.Valid() && row.Since(past) && Grows(old(row.st), row.st)
    ensures NoneEndedBy(old(row.st), Some(run), row.st) && KeepsWrites(old(row.written), Some(run), row.written)
    ensures row.alone && old(row.st).Row().status.Failed? ==> Carried(row.st, old(row.st).now)
  {
    row.Interfere(Some(run), past);
    if row.st.Row().giveUpReason.None? {
      var _, _ := DispatchRetry(row, |row.st.versions| - 1, Some(run), past);
    }
  }

  /** The writes of run `run` are committed exactly if it recorded an outcome in the function's own transaction. */
  ghost predicate WritesMatch(s: State, written: set<nat>, run: nat, execution: Execution) {
    run in written <==> !Unended(s, run) && execution.usable && execution.commits
  }

  /** A result is returned only for a row that is SUCCESS by this run, with its writes. */
  ghost predicate ReturnsOwn(s: State, written: set<nat>, run: nat, execution: Execution, result: RunResult) {
    result.Returned? ==>
      && run in written && execution.returned == Some(result.result) && s.Exists() && s.closed != []
      && s.Row().status.Success? && s.closed[|s.closed| - 1] == BySuccess(run)
  }

  /** Records the outcome of an execution and sends the retry of a failed one. */
  method FinishRun(row: AttemptRow, run: nat, seen: nat, execution: Execution, ghost past: State)
    returns (result: RunResult)
    requires row.Valid() && row.Since(past)
    requires run < |row.st.claims| && Opened(row.st, run, seen, row.st.claims[run].token)
    modifies row
    ensures row.Valid() && row.Since(past) && Grows(old(row.st), row.st) && old(row.written) <= row.written
    ensures WritesMatch(row.st, row.written, run, execution)
    ensures ReturnsOwn(row.st, row.written, run, execution, result) && !result.Locked?
    ensures row.alone && HeldBy(old(row.st).Row(), old(row.st).claims[run].token) ==>
              if execution.usable && execution.commits && execution.returned.Some? then
                result == Returned(execution.returned.value)
              else result == NoResult && Carried(row.st, old(row.st).now)
  {
    result := NoResult;
    var recorded := RecordOutcome(row, run, seen, execution, past);
    if recorded.Lost? {
      return;
    }
    ghost var s1 := row.st;
    assert EndedBy(s1.closed[|s1.closed| - 1], run);
    if recorded.WithWrites? && execution.returned.Some? {
      result := Returned(execution.returned.value);
      return;
    }
    RetryOrReport(row, run, past);
    EndedStaysEnded(s1, row.st, run);
  }

  /** An undisturbed run: the function's result, or a failure that left the row carried on, or no run at all. */
  ghost predicate RunsAlone(s: State, execution: Execution, result: RunResult, run: Option<nat>, t: State) {
    if !s.Exists() || s.Row().status.Running? then result == Locked && Untouched(s, t)
    else if !s.Row().status.Pending? then result == NoResult && Untouched(s, t)
    else if run.None? then
      result == NoResult && !Claimable(s.Row(), t.now) && t.Exists() && t.Row().giveUpReason == Some(BlockAge)
    else
      && Claimable(s.Row(), s.now)
      && if execution.usable && execution.commits && execution.returned.Some? then
           result == Returned(execution.returned.value)
         else result == NoResult && Carried(t, s.now)
  }

  /**
   * One message: claim the attempt, run the function, record the outcome, send the retry. Other processes
   * interfere throughout. The function's writes commit exactly when an outcome of this run that allows them
   * was recorded, and a result is returned only for a row that is SUCCESS by this run.
   */
  method RunTask(row: AttemptRow, token: string, timeLimit: Option<Seconds>, execution: Execution)
    returns (result: RunResult, run: Option<nat>)
    requires row.Valid()
    modifies row
    ensures row.Valid() && row.Since(old(row.st))
    ensures run.Some? ==>
              ClaimedUnder(old(row.st), row.st, run.value, timeLimit) && row.st.claims[run.value].token == token
    ensures run.Some? ==>
              && WritesMatch(row.st, row.written, run.value, execution)
              && ReturnsOwn(row.st, row.written, run.value, execution, result)
    ensures run.None? ==> !result.Returned?
    ensures row.alone ==> RunsAlone(old(row.st), execution, result, run, row.st)
  {
    ghost var s0 := row.st;
    row.Now();
    var seen, locked;
    run, seen, locked := ClaimForRun(row, token, timeLimit, s0);
    if run.None? {
      return if locked then Locked else NoResult, None;
    }
    result := FinishRun(row, run.value, seen, execution, s0);
  }
}
