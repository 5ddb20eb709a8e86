/** From the declaration of a task to the sweep: the lease of a run that was claimed under its message's limits. */
module Leases {
  import opened Base
  import opened Queues
  import opened Selection
  import opened Protocol
  import opened Paths
  import opened TimeLimits
  import opened Workers

  /** While run `run` is the latest claim, the sweep matches the row only after the kill and the margin. */
  ghost predicate SafeUntilKilled(cfg: Config, d: Declaration, m: Sent, s: State, run: nat, started: Instant)
    requires WorkerLimit(d, m, Hard).Some?
  {
    forall t: State | Reaches(cfg, s, t) && t.Exists() && run == |t.claims| - 1 && LeaseExpired(t.Row(), t.now) ::
      t.now > started + KilledAfter(d, m) + d.settings.margin
  }

  /** Whatever happens after a claim under the message's limit. */
  lemma ClaimIsSafe(cfg: Config, d: Declaration, m: Sent, before: State, s: State, run: nat, started: Instant)
    requires cfg.Valid() && Reaches(cfg, START, s) && cfg.settings == d.settings
    requires Accepted(d) && SentByTask(d, m) && WorkerLimit(d, m, Hard).Some?
    requires ClaimedUnder(before, s, run, WorkerLimit(d, m, Hard)) && started <= before.now
    ensures SafeUntilKilled(cfg, d, m, s, run, started)
  {
    forall t: State | Reaches(cfg, s, t) && t.Exists() && run == |t.claims| - 1 && LeaseExpired(t.Row(), t.now)
      ensures t.now > started + KilledAfter(d, m) + d.settings.margin
    {
      ClaimsStay(cfg, s, t);
      ReachesComposes(cfg, START, s, t);
      ReachedIsReachable(cfg, t);
      LeaseOutlivesRun(cfg, d, m, t, started);
    }
  }

  lemma ClaimsStay(cfg: Config, s: State, t: State)
    requires cfg.Valid() && Reaches(cfg, START, s) && Reaches(cfg, s, t)
    ensures s.claims <= t.claims
  {
    ReachedIsReachable(cfg, s);
    var path :| Path(cfg, path) && path[0] == s && path[|path| - 1] == t;
    var steps := PathIsRun(cfg, path);
    RunsKeepInvariant(cfg, s, steps, t);
  }

  /**
   * A worker that the pool started at `started` runs a message of an accepted task, with the limit its pool enforces:
   * whatever other processes do then and later, the sweep cannot fail the claim before the pool has killed the run.
   */
  method RunMessage(row: AttemptRow, d: Declaration, m: Sent, token: string, execution: Execution, started: Instant)
    returns (result: RunResult, run: Option<nat>)
    requires row.Valid() && row.cfg.settings == d.settings && started <= row.st.now
    requires Accepted(d) && SentByTask(d, m)
    modifies row
    ensures row.Valid() && row.Since(old(row.st))
    ensures run.Some? && WorkerLimit(d, m, Hard).Some? ==>
              SafeUntilKilled(row.cfg, d, m, row.st, run.value, started)
  {
    result, run := RunTask(row, token, WorkerLimit(d, m, Hard), execution);
    if run.Some? && WorkerLimit(d, m, Hard).Some? {
      ClaimIsSafe(row.cfg, d, m, old(row.st), row.st, run.value, started);
    }
  }

  /** The same from the moment of the claim on, before the function has even begun. */
  method ClaimMessage(row: AttemptRow, d: Declaration, m: Sent, token: string, started: Instant, ghost past: State)
    returns (run: Option<nat>, seen: nat, locked: bool)
    requires row.Valid() && row.Since(past) && row.cfg.settings == d.settings && started <= row.st.now
    requires Accepted(d) && SentByTask(d, m)
    modifies row
    ensures row.Valid() && row.Since(past)
    ensures run.Some? && WorkerLimit(d, m, Hard).Some? ==>
              SafeUntilKilled(row.cfg, d, m, row.st, run.value, started)
  {
    run, seen, locked := ClaimForRun(row, token, WorkerLimit(d, m, Hard), past);
    if run.Some? && WorkerLimit(d, m, Hard).Some? {
      ClaimIsSafe(row.cfg, d, m, old(row.st), row.st, run.value, started);
    }
  }
}
