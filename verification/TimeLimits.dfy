/**
 * Time limits of a declared task: where a worker takes each limit from, the default hard limit, what a
 * declaration is rejected for, and the lease all of this protects.
 */
module TimeLimits {
  import opened Base
  import opened Queues
  import opened Selection
  import opened Protocol
  import opened Guarantees

  datatype Kind = Hard | Soft

  /** A key of the task's options: missing, or given, possibly as None. */
  datatype Key = Missing | Given(limit: Option<Seconds>)

  /** A declaration: the task's options, its base class, the Celery config and its queues. */
  datatype Declaration = Declaration(
    settings: Settings,
    hardKey: Key, softKey: Key,
    baseHard: Option<Seconds>, baseSoft: Option<Seconds>,
    configHard: Option<Seconds>, configSoft: Option<Seconds>,
    live: Queue, backfill: Option<Queue>)
  {
    predicate Valid() {
      settings.Valid() && live.Valid() && (backfill.Some? ==> backfill.value.Valid())
    }

    function OptionKey(kind: Kind): Key {
      match kind case Hard => hardKey case Soft => softKey
    }

    function Base(kind: Kind): Option<Seconds> {
      match kind case Hard => baseHard case Soft => baseSoft
    }

    function Config(kind: Kind): Option<Seconds> {
      match kind case Hard => configHard case Soft => configSoft
    }

    function Queues(): seq<Queue> {
      [live] + if backfill.Some? then [backfill.value] else []
    }
  }

  /** Python's `or` on limits: zero and None are no limit. */
  function Truthy(limit: Option<Seconds>): Option<Seconds> {
    if limit.Some? && limit.value != 0.0 then limit else None
  }

  function Or(a: Option<Seconds>, b: Option<Seconds>): Option<Seconds> {
    if a.Some? then a else b
  }

  function QueueLimit(queue: Queue, kind: Kind): Option<Seconds> {
    match kind case Hard => queue.timeLimit case Soft => queue.softTimeLimit
  }

  // ---- what the declaration computes and checks

  /** The limit the task sets itself; its options win over its base class, and None there removes the limit. */
  function TaskAttributeLimit(d: Declaration, kind: Kind): Option<Seconds> {
    match d.OptionKey(kind)
    case Given(limit) => Truthy(limit)
    case Missing => Truthy(d.Base(kind))
  }

  predicate HasDefault(d: Declaration) {
    && d.settings.staleTimeout.Some? && d.hardKey.Missing?
    && TaskAttributeLimit(d, Hard).None? && Truthy(d.configHard).None?
  }

  function Largest(limits: seq<Seconds>): Seconds
    requires limits != []
  {
    if |limits| == 1 then limits[0] else Max(limits[0], Largest(limits[1..]))
  }

  function Present(limit: Option<Seconds>): seq<Seconds> {
    if limit.Some? then [limit.value] else []
  }

  /** The soft limits the default hard limit must stay above: of queues without a hard limit, and the task's. */
  function SoftLimits(d: Declaration): seq<Seconds> {
    var ofQueue := (q: Queue) => if q.timeLimit.None? then Present(q.softTimeLimit) else [];
    ofQueue(d.live) + (if d.backfill.Some? then ofQueue(d.backfill.value) else [])
    + Present(TaskAttributeLimit(d, Soft)) + Present(Truthy(d.configSoft))
  }

  /** The stuck-task timeout, and each of these with the margin on top. */
  function Candidates(d: Declaration): seq<Seconds>
    requires d.settings.staleTimeout.Some?
  {
    var soft := SoftLimits(d);
    [d.settings.staleTimeout.value] + seq(|soft|, i requires 0 <= i < |soft| => soft[i] + d.settings.margin)
  }

  function DefaultLimit(d: Declaration): Option<Seconds> {
    if !HasDefault(d) then None
    else
      Some(Largest(Candidates(d)))
  }

  function TaskSoft(d: Declaration): Option<Seconds> {
    Or(TaskAttributeLimit(d, Soft), Truthy(d.configSoft))
  }

  function TaskHard(d: Declaration): Option<Seconds> {
    Or(Or(TaskAttributeLimit(d, Hard), DefaultLimit(d)), Truthy(d.configHard))
  }

  predicate Below(soft: Option<Seconds>, hard: Option<Seconds>) {
    soft.Some? && hard.Some? ==> soft.value < hard.value
  }

  /** The queues looked at, one per name, the last one of a name. */
  function CheckedQueues(d: Declaration): seq<Queue> {
    if d.backfill.Some? && d.backfill.value.name == d.live.name then [d.backfill.value] else d.Queues()
  }

  predicate QueuePasses(d: Declaration, queue: Queue) {
    Below(Or(queue.softTimeLimit, TaskSoft(d)), Or(queue.timeLimit, TaskHard(d)))
  }

  /** The check raises unless this holds. */
  predicate LimitsPass(d: Declaration) {
    && (forall i | 0 <= i < |CheckedQueues(d)| :: QueuePasses(d, CheckedQueues(d)[i]))
    && Below(TaskSoft(d), TaskHard(d))
  }

  /** Accepted: the limits pass, and one queue name means one queue. */
  predicate Accepted(d: Declaration) {
    d.Valid() && LimitsPass(d) && NamesAreClear(d)
  }

  /** One queue name means one queue; anything else does not get past the registration. */
  predicate NamesAreClear(d: Declaration) {
    d.backfill.Some? && d.backfill.value.name == d.live.name ==> d.backfill.value == d.live
  }

  // ---- what a worker applies to a message

  /** Submissions and re-sends, retries, a manual `.delay()`, and a message sent by hand to some other queue. */
  datatype Sent = Submission(queue: Queue) | Retry(queue: Queue) | Delayed | Elsewhere

  predicate SentByTask(d: Declaration, m: Sent) {
    m.Delayed? || m.Elsewhere? || m.queue in d.Queues()
  }

  /** The limits of the queue whose settings the message follows, if it follows one. */
  function LimitsOf(d: Declaration, m: Sent, kind: Kind): Option<Seconds> {
    match m
    case Submission(queue) => QueueLimit(queue, kind)
    case Retry(queue) => QueueLimit(queue, kind)
    case Delayed => QueueLimit(d.live, kind)
    case Elsewhere => None
  }

  /** The limit the message itself carries; a submission also carries the task's options, the queue's win. */
  function MessageLimit(d: Declaration, m: Sent, kind: Kind): Option<Seconds> {
    match m
    case Submission(queue) =>
      if QueueLimit(queue, kind).Some? then QueueLimit(queue, kind)
      else if d.OptionKey(kind).Given? then d.OptionKey(kind).limit
      else None
    case Retry(queue) => QueueLimit(queue, kind)
    case Delayed => QueueLimit(d.live, kind)
    case Elsewhere => None
  }

  /** The attribute of the registered task: its options over the default over its base class. */
  function RegisteredLimit(d: Declaration, kind: Kind): Option<Seconds> {
    match d.OptionKey(kind)
    case Given(limit) => limit
    case Missing => if kind.Hard? && DefaultLimit(d).Some? then DefaultLimit(d) else d.Base(kind)
  }

  /** What the worker enforces: the message's limit, else the task's, else the config's. */
  function WorkerLimit(d: Declaration, m: Sent, kind: Kind): Option<Seconds> {
    Or(Truthy(MessageLimit(d, m, kind)), Or(Truthy(RegisteredLimit(d, kind)), Truthy(d.Config(kind))))
  }

  lemma {:induction false} LargestIsUpperBound(limits: seq<Seconds>, i: nat)
    requires i < |limits|
    ensures limits[i] <= Largest(limits)
  {
    if |limits| > 1 && i > 0 {
      LargestIsUpperBound(limits[1..], i - 1);
    }
  }

  lemma {:induction false} LargestIsOne(limits: seq<Seconds>)
    requires limits != []
    ensures Largest(limits) in limits
  {
    if |limits| > 1 {
      LargestIsOne(limits[1..]);
    }
  }

  /** The default is positive, no shorter than the stuck-task timeout, and a margin above every soft limit. */
  lemma DefaultClearsSoftLimits(d: Declaration, soft: Seconds)
    requires d.Valid() && HasDefault(d)
    ensures DefaultLimit(d).value >= d.settings.staleTimeout.value > 0.0
    ensures soft in SoftLimits(d) ==> soft + d.settings.margin <= DefaultLimit(d).value
  {
    var softs := SoftLimits(d);
    var all := Candidates(d);
    LargestIsUpperBound(all, 0);
    if soft in softs {
      var i :| 0 <= i < |softs| && softs[i] == soft;
      assert all[i + 1] == soft + d.settings.margin;
      LargestIsUpperBound(all, i + 1);
    }
  }

  /** A hard limit no shorter than the timeout, and a margin above every soft limit it may have to stand beside. */
  predicate Clears(d: Declaration, limit: Seconds)
    requires d.settings.staleTimeout.Some?
  {
    && d.settings.staleTimeout.value <= limit
    && (forall queue | queue in d.Queues() && queue.timeLimit.None? && queue.softTimeLimit.Some? ::
          queue.softTimeLimit.value + d.settings.margin <= limit)
    && (TaskAttributeLimit(d, Soft).Some? ==> TaskAttributeLimit(d, Soft).value + d.settings.margin <= limit)
    && (Truthy(d.configSoft).Some? ==> Truthy(d.configSoft).value + d.settings.margin <= limit)
  }

  /** The default is the least limit that clears them; a queue's soft limit beside its own hard one does not matter. */
  lemma DefaultIsLeast(d: Declaration, limit: Seconds)
    requires d.Valid() && HasDefault(d)
    ensures Clears(d, DefaultLimit(d).value)
    ensures Clears(d, limit) ==> DefaultLimit(d).value <= limit
  {
    DefaultClearsSoftLimits(d, 0.0);
    forall queue | queue in d.Queues() && queue.timeLimit.None? && queue.softTimeLimit.Some?
      ensures queue.softTimeLimit.value + d.settings.margin <= DefaultLimit(d).value
    {
      DefaultClearsSoftLimits(d, queue.softTimeLimit.value);
    }
    if TaskAttributeLimit(d, Soft).Some? {
      DefaultClearsSoftLimits(d, TaskAttributeLimit(d, Soft).value);
    }
    if Truthy(d.configSoft).Some? {
      DefaultClearsSoftLimits(d, Truthy(d.configSoft).value);
    }
    if Clears(d, limit) {
      SoftLimitsAreCleared(d, limit);
      LargestIsOne(Candidates(d));
    }
  }

  lemma SoftLimitsAreCleared(d: Declaration, limit: Seconds)
    requires d.settings.staleTimeout.Some? && Clears(d, limit)
    ensures forall soft | soft in SoftLimits(d) :: soft + d.settings.margin <= limit
  {
    assert d.live in d.Queues();
    assert d.backfill.Some? ==> d.backfill.value in d.Queues();
  }

  /** A worker enforces on every message exactly the limits the declaration was checked with. */
  lemma WorkerAppliesCheckedLimits(d: Declaration, m: Sent)
    requires d.Valid() && SentByTask(d, m)
    ensures WorkerLimit(d, m, Soft) == Or(LimitsOf(d, m, Soft), TaskSoft(d))
    ensures WorkerLimit(d, m, Hard) == Or(LimitsOf(d, m, Hard), TaskHard(d))
  {
    if HasDefault(d) {
      DefaultClearsSoftLimits(d, 0.0);
    }
  }

  /** For every accepted declaration and every message, the soft limit fires strictly before the hard one. */
  lemma SoftLimitFiresFirst(d: Declaration, m: Sent)
    requires Accepted(d) && SentByTask(d, m)
    ensures Below(WorkerLimit(d, m, Soft), WorkerLimit(d, m, Hard))
  {
    LimitsPassIff(d);
  }

  /** The check passes exactly if every message, with queue limits or without, has its soft limit below its hard one. */
  lemma LimitsPassIff(d: Declaration)
    requires d.Valid() && NamesAreClear(d)
    ensures LimitsPass(d) <==>
            forall m: Sent | SentByTask(d, m) :: Below(WorkerLimit(d, m, Soft), WorkerLimit(d, m, Hard))
  {
    forall m: Sent | SentByTask(d, m)
      ensures Below(WorkerLimit(d, m, Soft), WorkerLimit(d, m, Hard)) <==>
              Below(Or(LimitsOf(d, m, Soft), TaskSoft(d)), Or(LimitsOf(d, m, Hard), TaskHard(d)))
    {
      WorkerAppliesCheckedLimits(d, m);
    }
    if LimitsPass(d) {
      forall m: Sent | SentByTask(d, m)
        ensures Below(Or(LimitsOf(d, m, Soft), TaskSoft(d)), Or(LimitsOf(d, m, Hard), TaskHard(d)))
      {
        MessagePasses(d, m);
      }
    }
    if forall m: Sent | SentByTask(d, m) :: Below(WorkerLimit(d, m, Soft), WorkerLimit(d, m, Hard)) {
      assert SentByTask(d, Elsewhere);
      forall i | 0 <= i < |CheckedQueues(d)|
        ensures QueuePasses(d, CheckedQueues(d)[i])
      {
        assert SentByTask(d, Retry(CheckedQueues(d)[i]));
      }
    }
  }

  lemma MessagePasses(d: Declaration, m: Sent)
    requires NamesAreClear(d) && LimitsPass(d) && SentByTask(d, m)
    ensures Below(Or(LimitsOf(d, m, Soft), TaskSoft(d)), Or(LimitsOf(d, m, Hard), TaskHard(d)))
  {
    if !m.Elsewhere? {
      var queue := if m.Delayed? then d.live else m.queue;
      assert queue in CheckedQueues(d);
      var i :| 0 <= i < |CheckedQueues(d)| && CheckedQueues(d)[i] == queue;
      assert QueuePasses(d, CheckedQueues(d)[i]);
    }
  }

  /** A message runs without a hard limit only where the options or the settings took it away. */
  lemma UnlimitedIff(d: Declaration, m: Sent)
    requires d.Valid() && SentByTask(d, m)
    ensures WorkerLimit(d, m, Hard).None?
       <==> && LimitsOf(d, m, Hard).None?
            && Truthy(d.configHard).None?
            && (if d.hardKey.Given? then Truthy(d.hardKey.limit).None?
                else Truthy(d.baseHard).None? && d.settings.staleTimeout.None?)
  {
    WorkerAppliesCheckedLimits(d, m);
  }

  /** With a positive margin, a default limit is rejected exactly for a queue whose own hard limit is too low. */
  lemma DefaultRejectedIff(d: Declaration)
    requires d.Valid() && HasDefault(d) && d.settings.margin > 0.0
    ensures !LimitsPass(d) <==>
            exists i | 0 <= i < |CheckedQueues(d)| ::
              && CheckedQueues(d)[i].timeLimit.Some? && CheckedQueues(d)[i].softTimeLimit.None?
              && TaskSoft(d).Some? && TaskSoft(d).value >= CheckedQueues(d)[i].timeLimit.value
  {
    if TaskSoft(d).Some? {
      DefaultClearsSoftLimits(d, TaskSoft(d).value);
    }
    assert Below(TaskSoft(d), TaskHard(d));
    forall i | 0 <= i < |CheckedQueues(d)|
      ensures QueuePasses(d, CheckedQueues(d)[i]) <==>
              !(&& CheckedQueues(d)[i].timeLimit.Some? && CheckedQueues(d)[i].softTimeLimit.None?
                && TaskSoft(d).Some? && TaskSoft(d).value >= CheckedQueues(d)[i].timeLimit.value)
    {
      var queue := CheckedQueues(d)[i];
      if queue.timeLimit.None? && queue.softTimeLimit.Some? {
        DefaultClearsSoftLimits(d, queue.softTimeLimit.value);
      }
    }
  }

  // ---- the lease

  /** The pool kills a run at the later of its two limits, if it has a hard one. */
  function KilledAfter(d: Declaration, m: Sent): Seconds
    requires WorkerLimit(d, m, Hard).Some?
  {
    var hard := WorkerLimit(d, m, Hard).value;
    if WorkerLimit(d, m, Soft).Some? then Max(WorkerLimit(d, m, Soft).value, hard) else hard
  }

  /**
   * A run of an accepted task that the pool started at `started`, claimed afterwards under the limit of its message:
   * whenever the sweep may fail the row for an expired lease, the margin has passed since the pool killed the run.
   */
  lemma LeaseOutlivesRun(cfg: Config, d: Declaration, m: Sent, s: State, started: Instant)
    requires cfg.Valid() && Reachable(cfg, s) && s.Exists() && cfg.settings == d.settings
    requires Accepted(d) && SentByTask(d, m)
    requires s.claims != [] && started <= s.claims[|s.claims| - 1].at
    requires WorkerLimit(d, m, Hard).Some? && s.claims[|s.claims| - 1].timeLimit == WorkerLimit(d, m, Hard)
    requires LeaseExpired(s.Row(), s.now)
    ensures s.now > started + KilledAfter(d, m) + d.settings.margin
  {
    ReachableInvariant(cfg, s);
    SoftLimitFiresFirst(d, m);
  }

  /** The lease covers the run and the margin exactly if the soft limit is not above the hard one. */
  lemma LeaseCoversRunIff(d: Declaration, m: Sent)
    requires d.Valid() && WorkerLimit(d, m, Hard).Some?
    ensures LeaseSeconds(d.settings, WorkerLimit(d, m, Hard)).value >= KilledAfter(d, m) + d.settings.margin
       <==> WorkerLimit(d, m, Soft).None? || WorkerLimit(d, m, Soft).value <= WorkerLimit(d, m, Hard).value
  {
  }
}
