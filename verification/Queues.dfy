/** Queues with a policy, the settings around them, and the rules they give an attempt. */
module Queues {
  import opened Base
  import opened Attempts
  import opened RetryPolicies

  datatype Queue = Queue(
    name: string,
    softTimeLimit: Option<Seconds>,
    timeLimit: Option<Seconds>,
    messageTtl: Option<Seconds>,
    throttle: Option<int>,
    retry: RetryPolicy)
  {
    /** What constructing the queue checks, after stripping its name; anything else raises. */
    predicate Valid() {
      && name != ""
      && (softTimeLimit.Some? ==> softTimeLimit.value > 0.0)
      && (timeLimit.Some? ==> timeLimit.value > 0.0)
      && (messageTtl.Some? ==> messageTtl.value > 0.0)
      && (throttle.Some? ==> throttle.value >= 1)
      && retry.Valid()
      && (softTimeLimit.Some? && timeLimit.Some? ==> softTimeLimit.value < timeLimit.value)
    }
  }

  datatype Settings = Settings(
    staleTimeout: Option<Seconds>,
    margin: Seconds,
    maxAttempts: int,
    schedule: SettingsSchedule,
    maxDelayMinutes: real,
    floatMax: real)
  {
    /** What reading the recovery settings checks. */
    predicate Valid() {
      && (staleTimeout.Some? ==> staleTimeout.value > 0.0)
      && margin >= 0.0
    }
  }

  /** One task as declared, in a process whose settings and queue definitions do not change. */
  datatype Config = Config(
    settings: Settings,
    queues: map<string, Queue>,
    live: Queue,
    backfill: Option<Queue>)
  {
    ghost predicate Valid() {
      && settings.Valid()
      && (forall name | name in queues :: queues[name].name == name && queues[name].Valid())
      && Registered(live)
      && (backfill.Some? ==> Registered(backfill.value))
    }

    predicate Registered(queue: Queue) {
      queue.name in queues && queues[queue.name] == queue
    }

    /** The names the library sends this task's messages to. */
    function TaskQueues(): set<string> {
      {live.name} + if backfill.Some? then {backfill.value.name} else {}
    }

    function GetQueue(name: Option<string>): Option<Queue> {
      if name.Some? && name.value in queues then Some(queues[name.value]) else None
    }

    /** Message TTL plus margin, for the queues that have a TTL. */
    function TtlWindows(): map<string, Seconds> {
      map name | name in queues && queues[name].messageTtl.Some? :: queues[name].messageTtl.value + settings.margin
    }

    predicate AllowsRetry(a: Attempt) {
      match GetQueue(a.dispatchQueue)
      case Some(queue) => queue.retry.AllowsRetry(a.attemptCount)
      case None => a.attemptCount < settings.maxAttempts
    }

    function DelaySeconds(a: Attempt): Seconds {
      match GetQueue(a.dispatchQueue)
      case Some(queue) => queue.retry.DelaySeconds(a.attemptCount, settings.floatMax)
      case None => SettingsDelay(settings.schedule, settings.maxDelayMinutes, a.attemptCount)
    }

    /** How long a failed try waits for the next one, if its rules grant a next one. */
    function RetryDelay(a: Attempt): Option<Seconds> {
      if AllowsRetry(a) then Some(DelaySeconds(a)) else None
    }

    /** Where a retry or re-dispatch goes: the recorded queue while it is defined, else the task's current one. */
    function RedispatchQueue(a: Attempt): Queue {
      match GetQueue(a.dispatchQueue)
      case Some(queue) => queue
      case None => if backfill.Some? then backfill.value else live
    }

    /** The settings cap the tries of a row without a queue; with one, its policy had its say when the try failed. */
    predicate CanRunAgain(a: Attempt) {
      && !a.status.Success? && !a.status.Running? && a.giveUpReason.None?
      && (a.dispatchQueue.Some? || a.attemptCount < settings.maxAttempts)
    }

    /** Every retry rule that can govern an attempt of this task stops at `limit` tries or earlier. */
    predicate CapsEveryRule(limit: nat) {
      && settings.maxAttempts <= limit
      && live.retry.maxAttempts.Some? && live.retry.maxAttempts.value <= limit
      && (backfill.Some? ==>
            backfill.value.retry.maxAttempts.Some? && backfill.value.retry.maxAttempts.value <= limit)
    }
  }

  /** The length of a claim's lease, if it has one; a hard limit of zero is no limit, as Python's truth has it. */
  function LeaseSeconds(settings: Settings, timeLimit: Option<Seconds>): Option<Seconds> {
    if timeLimit.Some? && timeLimit.value != 0.0 then Some(timeLimit.value + settings.margin)
    else settings.staleTimeout
  }

  /** The expiry of a message: its queue's TTL after the send at `now`, or after its ETA where that is later. */
  function MessageExpiry(queue: Queue, eta: Option<Instant>, now: Instant): Option<Instant> {
    if queue.messageTtl.None? then None
    else Some((if eta.Some? then Max(now, eta.value) else now) + queue.messageTtl.value)
  }
}
