/** The WHERE clauses of the transitions, and the guards they stand for. */
module Guards {
  import opened Base
  import opened Attempts
  import opened Conditions
  import opened Transitions

  function BeforeGiveUpFilter(db: Instant): Q {
    Or(Null(At(GiveUpAt)), Is(GiveUpAt, Gt, db))
  }

  function ClaimFilter(db: Instant): Q {
    And(BeforeGiveUpFilter(db), StatusIs(Pending))
  }

  function HeldFilter(token: string): Q {
    And(StatusIs(Running), TokenIs(token))
  }

  function TooLateFilter(delay: Seconds, db: Instant): Q {
    And(NotNull(At(GiveUpAt)), Is(GiveUpAt, Lt, db + delay))
  }

  function AwaitsRetryFilter(): Q {
    And(StatusIs(Failed), Null(Reason))
  }

  /** `status IN (PENDING, FAILED)`. */
  function MayRunFilter(): Q {
    Or(StatusIs(Pending), StatusIs(Failed))
  }

  function CouldStillRunFilter(): Q {
    And(MayRunFilter(), Null(Reason))
  }

  function PastDeadlineFilter(db: Instant): Q {
    And(And(MayRunFilter(), Is(GiveUpAt, Le, db)), Null(Reason))
  }

  /** A claim matches exactly a PENDING row with no deadline or one still ahead. */
  lemma ClaimFilterMeaning(a: Attempt, db: Instant)
    ensures Selects(ClaimFilter(db), a) <==> Claimable(a, db)
  {
    CompiledMatchesPython(ClaimFilter(db), a);
    assert Holds(BeforeGiveUpFilter(db), a) <==> BeforeGiveUp(a, db);
  }

  /** An outcome matches exactly the row that runs under its token; a row whose token was cleared matches none. */
  lemma HeldFilterMeaning(a: Attempt, token: string)
    ensures Selects(HeldFilter(token), a) <==> HeldBy(a, token)
  {
    CompiledMatchesPython(HeldFilter(token), a);
  }

  /** A retry is too late exactly past a recorded deadline; without one it never is. */
  lemma TooLateFilterMeaning(a: Attempt, delay: Seconds, db: Instant)
    ensures Selects(TooLateFilter(delay, db), a) <==> TooLate(a, delay, db)
  {
    CompiledMatchesPython(TooLateFilter(delay, db), a);
  }

  /** A reopen and a retry match exactly the failed rows that were not given up. */
  lemma AwaitsRetryFilterMeaning(a: Attempt)
    ensures Selects(AwaitsRetryFilter(), a) <==> AwaitsRetry(a)
  {
    CompiledMatchesPython(AwaitsRetryFilter(), a);
  }

  /** Giving up matches exactly the rows that may still run, and at a deadline only from the deadline on. */
  lemma GiveUpFilterMeaning(a: Attempt, db: Instant)
    ensures Selects(CouldStillRunFilter(), a) <==> CouldStillRun(a)
    ensures Selects(PastDeadlineFilter(db), a) <==> PastDeadline(a, db)
  {
    CompiledMatchesPython(CouldStillRunFilter(), a);
    CompiledMatchesPython(PastDeadlineFilter(db), a);
    assert Holds(MayRunFilter(), a) <==> a.status.Pending? || a.status.Failed?;
    assert Holds(And(MayRunFilter(), Is(GiveUpAt, Le, db)), a)
      <==> Holds(MayRunFilter(), a) && Holds(Is(GiveUpAt, Le, db), a);
  }

  /** At every instant a PENDING row that was not given up can be claimed or be given up for its age, never both. */
  lemma ClaimOrGiveUp(a: Attempt, db: Instant)
    requires a.status.Pending? && a.giveUpReason.None?
    ensures Selects(ClaimFilter(db), a) <==> !Selects(PastDeadlineFilter(db), a)
  {
    ClaimFilterMeaning(a, db);
    GiveUpFilterMeaning(a, db);
  }
}
