/** Retry delays: the policy of a queue, and the schedule built from the Django settings. */
module RetryPolicies {
  import opened Base

  /** `base ** exponent`, exactly. */
  function Power(base: real, exponent: nat): real {
    if exponent == 0 then 1.0 else base * Power(base, exponent - 1)
  }

  datatype RetryPolicy = RetryPolicy(
    maxAttempts: Option<int>,
    giveUpAfterBlocks: Option<int>,
    fastRetryAttempts: int,
    fastRetryDelay: Seconds,
    backoffStart: Seconds,
    backoffMultiplier: real,
    maxDelay: Seconds)
  {
    /** What constructing the policy checks; anything else raises. */
    predicate Valid() {
      && (maxAttempts.Some? ==> maxAttempts.value >= 1)
      && (giveUpAfterBlocks.Some? ==> giveUpAfterBlocks.value >= 1)
      && fastRetryAttempts >= 0
      && fastRetryDelay >= 0.0 && backoffStart >= 0.0 && maxDelay >= 0.0
      && backoffMultiplier >= 1.0
    }

    predicate AllowsRetry(attemptCount: int) {
      maxAttempts.None? || attemptCount < maxAttempts.value
    }

    /** `backoffStart * backoffMultiplier ** k`, without a float's range. */
    function ExactBackoff(attemptCount: int): Seconds
      requires fastRetryAttempts < attemptCount
    {
      backoffStart * Power(backoffMultiplier, attemptCount - fastRetryAttempts - 1)
    }

    /** Whether raising the multiplier leaves the range of a float, which ends at `floatMax`. */
    predicate Overflows(attemptCount: int, floatMax: real)
      requires fastRetryAttempts < attemptCount
    {
      Power(backoffMultiplier, attemptCount - fastRetryAttempts - 1) > floatMax
    }

    function ExponentialDelay(attemptCount: int, floatMax: real): Seconds
      requires fastRetryAttempts < attemptCount
    {
      if Overflows(attemptCount, floatMax) then
        if backoffStart != 0.0 then maxDelay else 0.0
      else
        ExactBackoff(attemptCount)
    }

    function DelaySeconds(attemptCount: int, floatMax: real): Seconds {
      var delay :=
        if attemptCount <= fastRetryAttempts then fastRetryDelay
        else Max(fastRetryDelay, ExponentialDelay(attemptCount, floatMax));
      Min(delay, maxDelay)
    }
  }

  /** The schedule of the Django settings, staged or legacy. */
  datatype SettingsSchedule = SettingsSchedule(
    fastRetryAttempts: int,
    fastRetryDelay: Seconds,
    backoffStart: Seconds,
    backoffMultiplier: real)
  {
    function DelaySeconds(attemptCount: int): Seconds {
      if attemptCount <= fastRetryAttempts then fastRetryDelay
      else Max(fastRetryDelay, backoffStart * Power(backoffMultiplier, attemptCount - fastRetryAttempts - 1))
    }

    /** What the staged settings are checked for. */
    predicate ValidStaged() {
      fastRetryAttempts >= 0 && fastRetryDelay >= 0.0 && backoffStart >= 0.0 && backoffMultiplier >= 1.0
    }
  }

  /** The schedule when none of the staged settings is present. */
  function LegacySchedule(backoffMinutes: real): SettingsSchedule {
    SettingsSchedule(0, 0.0, backoffMinutes * 60.0, backoffMinutes)
  }

  function SettingsDelay(schedule: SettingsSchedule, maxDelayMinutes: real, attemptCount: int): Seconds {
    Min(schedule.DelaySeconds(attemptCount), maxDelayMinutes * 60.0)
  }

  lemma {:induction false} PowerAtLeastOne(base: real, exponent: nat)
    requires base >= 1.0
    ensures Power(base, exponent) >= 1.0
  {
    if exponent > 0 {
      PowerAtLeastOne(base, exponent - 1);
      ProductMonotone(base, 1.0, Power(base, exponent - 1));
    }
  }

  lemma ProductMonotone(factor: real, a: real, b: real)
    requires factor >= 0.0 && a <= b
    ensures factor * a <= factor * b
  {
    assert factor * (b - a) >= 0.0;
  }

  lemma {:induction false} PowerNonNegative(base: real, exponent: nat)
    requires base >= 0.0
    ensures Power(base, exponent) >= 0.0
  {
    if exponent > 0 {
      PowerNonNegative(base, exponent - 1);
      ProductMonotone(base, 0.0, Power(base, exponent - 1));
    }
  }

  lemma {:induction false} PowerMonotone(base: real, small: nat, large: nat)
    requires base >= 1.0 && small <= large
    ensures Power(base, small) <= Power(base, large)
    decreases large
  {
    if small < large {
      PowerMonotone(base, small, large - 1);
      PowerAtLeastOne(base, large - 1);
      ProductMonotone(Power(base, large - 1), 1.0, base);
      assert Power(base, large) == base * Power(base, large - 1);
    }
  }

  /** A backoff grows with the attempt, and once it overflows it keeps overflowing. */
  lemma {:induction false} BackoffGrows(p: RetryPolicy, floatMax: real, earlier: int, later: int)
    requires p.Valid() && p.fastRetryAttempts < earlier <= later
    ensures p.ExactBackoff(earlier) <= p.ExactBackoff(later)
    ensures p.Overflows(earlier, floatMax) ==> p.Overflows(later, floatMax)
  {
    var small, large := earlier - p.fastRetryAttempts - 1, later - p.fastRetryAttempts - 1;
    PowerMonotone(p.backoffMultiplier, small, large);
    ProductMonotone(p.backoffStart, Power(p.backoffMultiplier, small), Power(p.backoffMultiplier, large));
  }

  lemma NoStartNoBackoff(p: RetryPolicy, attemptCount: int)
    requires p.fastRetryAttempts < attemptCount && p.backoffStart == 0.0
    ensures p.ExactBackoff(attemptCount) == 0.0
  {
  }

  lemma CappedMonotone(floor: real, cap: real, a: real, b: real)
    requires a <= b || cap <= b
    ensures Min(Max(floor, a), cap) <= Min(Max(floor, b), cap)
  {
  }

  /** Waiting never gets shorter from one failure to a later one, also across the overflow branch. */
  lemma {:induction false} DelayNeverShrinks(p: RetryPolicy, floatMax: real, earlier: int, later: int)
    requires p.Valid() && earlier <= later
    ensures p.DelaySeconds(earlier, floatMax) <= p.DelaySeconds(later, floatMax)
  {
    if p.fastRetryAttempts < earlier {
      BackoffGrows(p, floatMax, earlier, later);
      if p.backoffStart == 0.0 {
        NoStartNoBackoff(p, earlier);
        NoStartNoBackoff(p, later);
      }
      CappedMonotone(p.fastRetryDelay, p.maxDelay,
                     p.ExponentialDelay(earlier, floatMax), p.ExponentialDelay(later, floatMax));
    }
  }

  /** The first retry after the fast ones waits the first backoff; each further backoff is the last one multiplied. */
  lemma BackoffStartsAndGrows(p: RetryPolicy, floatMax: real, attemptCount: int)
    requires p.Valid() && floatMax >= 1.0 && p.fastRetryAttempts < attemptCount
    ensures p.DelaySeconds(p.fastRetryAttempts + 1, floatMax) == Min(Max(p.fastRetryDelay, p.backoffStart), p.maxDelay)
    ensures p.ExactBackoff(p.fastRetryAttempts + 1) == p.backoffStart
    ensures p.ExactBackoff(attemptCount + 1) == p.ExactBackoff(attemptCount) * p.backoffMultiplier
  {
    assert Power(p.backoffMultiplier, 0) == 1.0;
    var rest := Power(p.backoffMultiplier, attemptCount - p.fastRetryAttempts - 1);
    PowerStep(p.backoffMultiplier, attemptCount - p.fastRetryAttempts);
    Reorder(p.backoffStart, p.backoffMultiplier, rest);
  }

  lemma Reorder(a: real, b: real, c: real)
    ensures a * (b * c) == (a * c) * b
  {
  }

  /** The same for the settings. */
  lemma SettingsBackoffStartsAndGrows(s: SettingsSchedule, attemptCount: int)
    requires s.ValidStaged() && s.fastRetryAttempts < attemptCount
    ensures s.DelaySeconds(s.fastRetryAttempts) == s.fastRetryDelay
    ensures s.DelaySeconds(s.fastRetryAttempts + 1) == Max(s.fastRetryDelay, s.backoffStart)
    ensures s.fastRetryDelay < s.DelaySeconds(attemptCount) ==>
              s.DelaySeconds(attemptCount + 1) == s.DelaySeconds(attemptCount) * s.backoffMultiplier
  {
    assert Power(s.backoffMultiplier, 0) == 1.0;
    var rest := Power(s.backoffMultiplier, attemptCount - s.fastRetryAttempts - 1);
    PowerStep(s.backoffMultiplier, attemptCount - s.fastRetryAttempts);
    Reorder(s.backoffStart, s.backoffMultiplier, rest);
    PowerMonotone(s.backoffMultiplier, attemptCount - s.fastRetryAttempts - 1, attemptCount - s.fastRetryAttempts);
    ProductMonotone(s.backoffStart, rest, Power(s.backoffMultiplier, attemptCount - s.fastRetryAttempts));
  }

  /** Every delay lies between the capped fast delay and the cap; the fast phase sits exactly on its lower end. */
  lemma {:induction false} DelayStaysInBounds(p: RetryPolicy, floatMax: real, attemptCount: int)
    requires p.Valid()
    ensures Min(p.fastRetryDelay, p.maxDelay) <= p.DelaySeconds(attemptCount, floatMax) <= p.maxDelay
    ensures attemptCount <= p.fastRetryAttempts ==>
              p.DelaySeconds(attemptCount, floatMax) == Min(p.fastRetryDelay, p.maxDelay)
  {
  }

  /** The delay the policy describes: no float in sight. */
  function IdealDelay(p: RetryPolicy, attemptCount: int): Seconds {
    Min(if attemptCount <= p.fastRetryAttempts then p.fastRetryDelay
        else Max(p.fastRetryDelay, p.ExactBackoff(attemptCount)), p.maxDelay)
  }

  /** The code waits as long as the ideal policy, except exactly when an overflowed backoff was still below the cap. */
  lemma {:induction false} DelayIsIdealIff(p: RetryPolicy, floatMax: real, attemptCount: int)
    requires p.Valid()
    ensures p.DelaySeconds(attemptCount, floatMax) == IdealDelay(p, attemptCount)
      <==> (|| attemptCount <= p.fastRetryAttempts
            || !p.Overflows(attemptCount, floatMax)
            || p.backoffStart == 0.0
            || p.maxDelay <= p.fastRetryDelay
            || p.maxDelay <= p.ExactBackoff(attemptCount))
    ensures IdealDelay(p, attemptCount) <= p.DelaySeconds(attemptCount, floatMax)
  {
    if p.fastRetryAttempts < attemptCount && p.backoffStart == 0.0 {
      assert p.ExactBackoff(attemptCount) == 0.0;
    }
  }

  lemma {:induction false} DoublingGrows(n: nat)
    ensures Power(2.0, n) >= n as real + 1.0
  {
    if n > 0 {
      DoublingGrows(n - 1);
    }
  }

  /** The least exponent at which doubling leaves the range of a float. */
  lemma FirstOverflow(floatMax: real) returns (n: nat)
    requires floatMax >= 1.0
    ensures n >= 1 && Power(2.0, n - 1) <= floatMax < Power(2.0, n)
  {
    n := 1;
    while Power(2.0, n) <= floatMax
      invariant n >= 1 && Power(2.0, n - 1) <= floatMax
      decreases floatMax.Floor - n
    {
      DoublingGrows(n);
      n := n + 1;
    }
  }

  /** "Past what a float holds, so past any max_delay" is not so for a tiny first delay that doubles. */
  lemma OverflowCanOvershoot(floatMax: real)
    returns (p: RetryPolicy, attemptCount: int)
    requires floatMax >= 1.0
    ensures p.Valid() && p.fastRetryAttempts < attemptCount && p.Overflows(attemptCount, floatMax)
    ensures p.backoffMultiplier == 2.0 && 0.0 < p.backoffStart <= 1.0 && p.maxDelay == 1200.0
    ensures IdealDelay(p, attemptCount) < p.DelaySeconds(attemptCount, floatMax)
  {
    var n := FirstOverflow(floatMax);
    var start := 1.0 / (2.0 * floatMax);
    p := RetryPolicy(None, None, 0, 0.0, start, 2.0, 1200.0);
    attemptCount := n + 1;
    assert Power(2.0, n) == 2.0 * Power(2.0, n - 1);
    ProductMonotone(start, Power(2.0, n), 2.0 * floatMax);
    assert p.ExactBackoff(attemptCount) <= start * (2.0 * floatMax) == 1.0;
  }

  /** The staged settings give a nondecreasing schedule too. */
  lemma {:induction false} StagedDelayNeverShrinks(s: SettingsSchedule, maxDelayMinutes: real, earlier: int, later: int)
    requires s.ValidStaged() && earlier <= later
    ensures SettingsDelay(s, maxDelayMinutes, earlier) <= SettingsDelay(s, maxDelayMinutes, later)
  {
    if s.fastRetryAttempts < earlier {
      var small, large := earlier - s.fastRetryAttempts - 1, later - s.fastRetryAttempts - 1;
      PowerMonotone(s.backoffMultiplier, small, large);
      ProductMonotone(s.backoffStart, Power(s.backoffMultiplier, small), Power(s.backoffMultiplier, large));
    }
  }

  lemma Regroup(minutes: real, rest: real)
    ensures (minutes * 60.0) * rest == 60.0 * (minutes * rest)
  {
  }

  lemma PowerStep(base: real, exponent: nat)
    requires exponent >= 1
    ensures Power(base, exponent) == base * Power(base, exponent - 1)
  {
  }

  lemma {:induction false} LegacyBackoff(backoffMinutes: real, attemptCount: int)
    requires backoffMinutes >= 0.0 && attemptCount >= 1
    ensures LegacySchedule(backoffMinutes).DelaySeconds(attemptCount) == 60.0 * Power(backoffMinutes, attemptCount)
  {
    var rest := Power(backoffMinutes, attemptCount - 1);
    PowerNonNegative(backoffMinutes, attemptCount);
    PowerStep(backoffMinutes, attemptCount);
    Regroup(backoffMinutes, rest);
    assert LegacySchedule(backoffMinutes).DelaySeconds(attemptCount) == Max(0.0, (backoffMinutes * 60.0) * rest);
  }

  /** The legacy schedule is the old formula: backoff ** attempt_count minutes, capped. */
  lemma {:induction false} LegacyDelayIsOldFormula(backoffMinutes: real, maxDelayMinutes: real, attemptCount: int)
    requires backoffMinutes >= 0.0 && attemptCount >= 1
    ensures SettingsDelay(LegacySchedule(backoffMinutes), maxDelayMinutes, attemptCount)
         == Min(60.0 * Power(backoffMinutes, attemptCount), maxDelayMinutes * 60.0)
  {
    LegacyBackoff(backoffMinutes, attemptCount);
  }
}
