/** The recovery sweep: which rows it handles, and what it does to each. */
module Sweep {
  import opened Base
  import opened Attempts
  import opened Queues
  import opened Selection
  import opened Protocol
  import opened Guarantees
  import opened Recovery
  import opened Transitions
  import opened Workers

  /**
   * An undisturbed recovery. It carries on a row it takes from start to end, saying whether a message went out;
   * it leaves a row alone that it never takes; and in between, when time makes the difference, it does one of the two.
   */
  ghost predicate RecoversAlone(s: State, takenAtStart: bool, takenAtEnd: bool, sent: bool, t: State) {
    && ((Carried(t, s.now) && (sent <==> t.Row().giveUpReason.None?)) || (Untouched(s, t) && !sent))
    && (takenAtStart ==> Carried(t, s.now))
    && (!takenAtEnd ==> Untouched(s, t))
  }

  /** The first thing written is the failure of the run, decided from the row as it stood. */
  ghost predicate FailsFirst(cfg: Config, s: State, t: State)
    requires s.Exists()
  {
    && |s.versions| < |t.versions| && s.closed + [ByLeaseExpiry] <= t.closed
    && exists at: Instant, py: Instant ::
         s.now <= at && t.versions[|s.versions|] == FailedWith(s.Row(), cfg.RetryDelay(s.Row()), at, py)
  }

  /** Fails a RUNNING attempt whose lease has passed, deciding the retry from an earlier read, and sends the retry. */
  method RecoverExpiredLease(row: AttemptRow, ghost past: State) returns (sent: bool)
    requires row.Valid() && row.Since(past) && row.st.Exists()
    modifies row
    ensures row.Valid() && row.Since(past) && row.st.Exists() && Grows(old(row.st), row.st)
    ensures row.alone ==>
              RecoversAlone(old(row.st), LeaseExpired(old(row.st).Row(), old(row.st).now),
                            LeaseExpired(old(row.st).Row(), row.st.now), sent, row.st)
    ensures row.alone && LeaseExpired(old(row.st).Row(), old(row.st).now) ==>
              FailsFirst(row.cfg, old(row.st), row.st)
  {
    var seen := |row.st.versions| - 1;
    row.Interfere(None, past);
    var py: Instant := *;
    var failed := row.FailExpiredLease(seen, py, past);
    if !failed {
      return false;
    }
    sent := RetryExpired(row, past);
  }

  /** Sends the retry of an attempt that the sweep just failed, unless it was given up. */
  method RetryExpired(row: AttemptRow, ghost past: State) returns (sent: bool)
    requires row.Valid() && row.Since(past) && row.st.Exists()
    modifies row
    ensures row.Valid() && row.Since(past) && row.st.Exists() && Grows(old(row.st), row.st)
    ensures row.alone && old(row.st).Row().status.Failed? ==>
              Carried(row.st, old(row.st).now) && (sent <==> row.st.Row().giveUpReason.None?)
  {
    row.Interfere(None, past);
    if row.st.Row().giveUpReason.Some? {
      return false;
    }
    var message, _ := DispatchRetry(row, |row.st.versions| - 1, None, past);
    sent := message.Some?;
  }

  /** Takes a PENDING attempt whose message expired and sends it again. */
  method RecoverExpiredMessage(row: AttemptRow, head: Option<int>, blockTime: Seconds, py: Instant, ghost past: State)
    returns (sent: bool)
    requires row.Valid() && row.Since(past) && row.st.Exists()
    modifies row
    ensures row.Valid() && row.Since(past) && row.st.Exists() && Grows(old(row.st), row.st)
    ensures row.alone ==>
              RecoversAlone(old(row.st), MessageExpired(old(row.st).Row(), row.cfg.TtlWindows(), old(row.st).now, py),
                            MessageExpired(old(row.st).Row(), row.cfg.TtlWindows(), row.st.now, py), sent, row.st)
    ensures row.alone && blockTime >= 0.0 && !Untouched(old(row.st), row.st) ==>
              SentAgain(row.cfg, old(row.st), head, blockTime, sent, row.st)
  {
    var attempt := row.st.Row();
    row.VersionFacts(|row.st.versions| - 1);
    row.Interfere(None, past);
    var taken := row.ClaimExpiredMessage(py, past);
    if !taken {
      return false;
    }
    ghost var waiting := row.st;
    sent := SendAgain(row, attempt, head, blockTime, py, past);
    if row.alone && blockTime >= 0.0 {
      SentAgainSince(row.cfg, old(row.st), waiting, head, blockTime, sent, row.st);
    }
  }

  /** A row sent again goes to the queue of its retries, and ages by that queue's policy against the sweep's head. */
  ghost predicate SentAgain(cfg: Config, s: State, head: Option<int>, blockTime: Seconds, sent: bool, t: State)
    requires s.Exists()
  {
    && t.Exists()
    && (sent ==> t.Row().dispatchQueue == Some(RetryQueue(cfg, s.Row())))
    && RetryQueue(cfg, s.Row()) in cfg.queues
    && AgeRule(cfg.queues[RetryQueue(cfg, s.Row())], s.Row().block, head, blockTime, s, t)
  }

  /** The same columns decide, and less time has passed. */
  lemma SentAgainSince(cfg: Config, s: State, u: State, head: Option<int>, blockTime: Seconds, sent: bool, t: State)
    requires s.Exists() && u.Exists() && s.now <= u.now
    requires u.Row().block == s.Row().block && u.Row().dispatchQueue == s.Row().dispatchQueue
    requires u.Row().giveUpAt == s.Row().giveUpAt
    requires SentAgain(cfg, u, head, blockTime, sent, t)
    ensures SentAgain(cfg, s, head, blockTime, sent, t)
  {
  }

  /** A re-sent row follows the policy of the queue its retries go to. */
  lemma PolicyIsRetryQueue(cfg: Config, s: State, attempt: Attempt)
    requires cfg.Valid() && s.Exists() && attempt.dispatchQueue == s.Row().dispatchQueue
    ensures RetryQueue(cfg, s.Row()) in cfg.queues
    ensures PolicyFor(cfg, s, Some(cfg.RedispatchQueue(attempt))) == cfg.queues[RetryQueue(cfg, s.Row())]
    ensures PolicyFor(cfg, s, Some(cfg.RedispatchQueue(attempt))).name == RetryQueue(cfg, s.Row())
  {
  }

  /** Sends an attempt again, to the queue it was sent to or the one it now belongs to. */
  method SendAgain(row: AttemptRow, attempt: Attempt, head: Option<int>, blockTime: Seconds, py: Instant,
                   ghost past: State) returns (sent: bool)
    requires row.Valid() && row.Since(past) && row.st.Exists() && InTaskQueues(row.cfg, attempt)
    modifies row
    ensures row.Valid() && row.Since(past) && row.st.Exists() && Grows(old(row.st), row.st)
    ensures row.alone && old(row.st).Row().status.Pending? ==>
              Carried(row.st, old(row.st).now) && (sent <==> row.st.Row().giveUpReason.None?)
    ensures row.alone && old(row.st).Row().status.Pending? && blockTime >= 0.0
            && attempt.dispatchQueue == old(row.st).Row().dispatchQueue ==>
              SentAgain(row.cfg, old(row.st), head, blockTime, sent, row.st)
  {
    row.Interfere(None, past);
    ghost var waiting := row.st;
    sent := ExecuteAgain(row, attempt, head, blockTime, py, past);
    if row.alone && old(row.st).Row().status.Pending? && blockTime >= 0.0
       && attempt.dispatchQueue == old(row.st).Row().dispatchQueue
    {
      SentAgainSince(row.cfg, old(row.st), waiting, head, blockTime, sent, row.st);
    }
  }

  method ExecuteAgain(row: AttemptRow, attempt: Attempt, head: Option<int>, blockTime: Seconds, py: Instant,
                      ghost past: State) returns (sent: bool)
    requires row.Valid() && row.Since(past) && row.st.Exists() && InTaskQueues(row.cfg, attempt)
    modifies row
    ensures row.Valid() && row.Since(past) && row.st.Exists() && Grows(old(row.st), row.st)
    ensures row.alone && old(row.st).Row().status.Pending? ==>
              Carried(row.st, old(row.st).now) && (sent <==> row.st.Row().giveUpReason.None?)
    ensures row.alone && old(row.st).Row().status.Pending? && blockTime >= 0.0
            && attempt.dispatchQueue == old(row.st).Row().dispatchQueue ==>
              SentAgain(row.cfg, old(row.st), head, blockTime, sent, row.st)
  {
    QueueOfTask(row.cfg, attempt);
    if attempt.dispatchQueue == row.st.Row().dispatchQueue {
      PolicyIsRetryQueue(row.cfg, row.st, attempt);
    }
    var message, _ := Execute(row, attempt.block, Some(row.cfg.RedispatchQueue(attempt)), head, blockTime, py, past);
    sent := message.Some?;
  }

  /** Resets an attempt that only its age gives away, re-checked under its lock, and sends it again. */
  method RecoverStuck(row: AttemptRow, staleBefore: Instant, head: Option<int>, blockTime: Seconds, ghost past: State)
    returns (sent: bool)
    requires row.Valid() && row.Since(past) && row.st.Exists() && row.cfg.settings.staleTimeout.Some?
    modifies row
    ensures row.Valid() && row.Since(past) && row.st.Exists() && Grows(old(row.st), row.st)
    ensures row.alone ==>
              var stuck := IsStuck(old(row.st).Row(), row.cfg.settings.maxAttempts, staleBefore,
                                   row.cfg.TtlWindows().Keys);
              RecoversAlone(old(row.st), stuck, stuck, sent, row.st)
    ensures row.alone && blockTime >= 0.0 && !Untouched(old(row.st), row.st) ==>
              SentAgain(row.cfg, old(row.st), head, blockTime, sent, row.st)
  {
    row.Interfere(None, past);
    var attempt := row.st.Row();
    row.VersionFacts(|row.st.versions| - 1);
    var py: Instant := *;
    var taken := row.ResetStuck(staleBefore, py, past);
    if !taken {
      return false;
    }
    ghost var waiting := row.st;
    sent := SendAgain(row, attempt, head, blockTime, py, past);
    if row.alone && blockTime >= 0.0 {
      SentAgainSince(row.cfg, old(row.st), waiting, head, blockTime, sent, row.st);
    }
  }

  predicate Chosen(cfg: Config, s: State, category: Category, py: Instant) {
    s.Exists() && Selected(cfg, s.Row(), category, s.now, py)
  }

  /** What a category selects it goes on selecting while the row is left alone. */
  lemma ChosenStays(cfg: Config, s: State, t: State, category: Category, py: Instant, later: Instant)
    requires Chosen(cfg, s, category, py) && Untouched(s, t) && py <= later
    ensures Chosen(cfg, t, category, later)
  {
  }

  /** Recovers a row that a query picked at `py`; its turn comes at `later`. A row carried on since `start` stays so. */
  method Recover(row: AttemptRow, category: Category, head: Option<int>, blockTime: Seconds, py: Instant,
                 later: Instant, ghost start: Instant, ghost past: State) returns (sent: bool)
    requires row.Valid() && row.Since(past) && row.st.Exists() && py <= later && start <= row.st.now
    requires category.Stuck? ==> row.cfg.settings.staleTimeout.Some?
    modifies row
    ensures row.Valid() && row.Since(past) && row.st.Exists() && Grows(old(row.st), row.st)
    ensures row.alone && (Chosen(row.cfg, old(row.st), category, py) || Carried(old(row.st), start)) ==>
              Carried(row.st, start)
    ensures var judgedAt := if category.Stuck? then py else later;
            row.alone && !Chosen(row.cfg, old(row.st).(now := row.st.now), category, judgedAt) ==>
              Untouched(old(row.st), row.st)
  {
    match category
    case ExpiredLease => sent := RecoverExpiredLease(row, past);
    case ExpiredMessage => sent := RecoverExpiredMessage(row, head, blockTime, later, past);
    case Stuck => sent := RecoverStuck(row, py - row.cfg.settings.staleTimeout.value, head, blockTime, past);
  }

  /** What each query sorts by: the lease, the dispatch, or the last change. */
  function SortKey(a: Attempt, category: Category): Instant {
    match category
    case ExpiredLease => if a.leaseExpiresAt.Some? then a.leaseExpiresAt.value else 0.0
    case ExpiredMessage => if a.dispatchedAt.Some? then a.dispatchedAt.value else 0.0
    case Stuck => a.updatedAt
  }

  /** Row `id` in state `s` comes before row `other` in state `t`: it is older, or as old with a smaller id. */
  predicate Precedes(category: Category, s: State, id: int, t: State, other: int) {
    && s.Exists() && t.Exists()
    && var key, otherKey := SortKey(s.Row(), category), SortKey(t.Row(), category);
    key < otherKey || (key == otherKey && id < other)
  }

  /** On the columns: the earlier lease, dispatch or change comes first, and of equal ones the smaller id. */
  predicate OldestFirst(category: Category, s: State, id: int, t: State, other: int) {
    && s.Exists() && t.Exists()
    && match category
       case ExpiredLease =>
         s.Row().leaseExpiresAt.Some? && t.Row().leaseExpiresAt.Some?
         && s.Row().leaseExpiresAt.value <= t.Row().leaseExpiresAt.value
         && (s.Row().leaseExpiresAt == t.Row().leaseExpiresAt ==> id <= other)
       case ExpiredMessage =>
         s.Row().dispatchedAt.Some? && t.Row().dispatchedAt.Some?
         && s.Row().dispatchedAt.value <= t.Row().dispatchedAt.value
         && (s.Row().dispatchedAt == t.Row().dispatchedAt ==> id <= other)
       case Stuck =>
         s.Row().updatedAt <= t.Row().updatedAt && (s.Row().updatedAt == t.Row().updatedAt ==> id <= other)
  }

  lemma OrderIsOldestFirst(cfg: Config, cfg2: Config, category: Category, s: State, id: int, t: State, other: int,
                           py: Instant)
    requires Chosen(cfg, s, category, py) && Chosen(cfg2, t, category, py) && !Precedes(category, t, other, s, id)
    ensures OldestFirst(category, s, id, t, other)
  {
  }

  /** The first in the query's order of the chosen rows not picked yet. */
  method Oldest(rows: seq<AttemptRow>, picked: seq<AttemptRow>, category: Category, py: Instant)
    returns (best: Option<AttemptRow>)
    ensures best.None? ==> forall row | row in rows && Chosen(row.cfg, row.st, category, py) :: row in picked
    ensures best.Some? ==>
              && best.value in rows && best.value !in picked && Chosen(best.value.cfg, best.value.st, category, py)
              && forall row | row in rows && row !in picked && Chosen(row.cfg, row.st, category, py) ::
                   !Precedes(category, row.st, row.id, best.value.st, best.value.id)
  {
    best := None;
    for i := 0 to |rows|
      invariant best.None? ==>
                  forall j | 0 <= j < i && Chosen(rows[j].cfg, rows[j].st, category, py) :: rows[j] in picked
      invariant best.Some? ==>
                  && best.value in rows && best.value !in picked && Chosen(best.value.cfg, best.value.st, category, py)
                  && forall j | 0 <= j < i && rows[j] !in picked && Chosen(rows[j].cfg, rows[j].st, category, py) ::
                       !Precedes(category, rows[j].st, rows[j].id, best.value.st, best.value.id)
    {
      var row := rows[i];
      if row !in picked && Chosen(row.cfg, row.st, category, py)
         && (best.None? || Precedes(category, row.st, row.id, best.value.st, best.value.id))
      {
        best := Some(row);
      }
    }
  }

  /** The rows one query of the sweep returns: the first `limit` of the chosen ones in its order, each once. */
  method Pick(rows: seq<AttemptRow>, category: Category, limit: int, py: Instant) returns (picked: seq<AttemptRow>)
    ensures |picked| <= if limit < 0 then 0 else limit
    ensures forall i, j | 0 <= i < j < |picked| :: picked[i] != picked[j]
    ensures forall row | row in picked :: row in rows && Chosen(row.cfg, row.st, category, py)
    ensures |picked| < limit ==> forall row | row in rows && Chosen(row.cfg, row.st, category, py) :: row in picked
    ensures forall p, row | p in picked && row in rows && row !in picked && Chosen(row.cfg, row.st, category, py) ::
              !Precedes(category, row.st, row.id, p.st, p.id)
    ensures forall p, row | p in picked && row in rows && row !in picked && Chosen(row.cfg, row.st, category, py) ::
              OldestFirst(category, p.st, p.id, row.st, row.id)
  {
    picked := [];
    while |picked| < limit
      invariant |picked| <= if limit < 0 then 0 else limit
      invariant forall i, j | 0 <= i < j < |picked| :: picked[i] != picked[j]
      invariant forall row | row in picked :: row in rows && Chosen(row.cfg, row.st, category, py)
      invariant forall p, row | p in picked && row in rows && row !in picked && Chosen(row.cfg, row.st, category, py) ::
                  !Precedes(category, row.st, row.id, p.st, p.id)
      decreases limit - |picked|
    {
      var next := Oldest(rows, picked, category, py);
      if next.None? {
        return;
      }
      picked := picked + [next.value];
    }
    forall p, row | p in picked && row in rows && row !in picked && Chosen(row.cfg, row.st, category, py)
      ensures OldestFirst(category, p.st, p.id, row.st, row.id)
    {
      OrderIsOldestFirst(p.cfg, row.cfg, category, p.st, p.id, row.st, row.id, py);
    }
  }

  /** Every row is valid and came from `past` by statements of the protocol. */
  ghost predicate AllSince(rows: seq<AttemptRow>, past: map<AttemptRow, State>)
    reads rows
  {
    forall row | row in rows :: row.Valid() && row in past && row.Since(past[row])
  }

  function Members(rows: seq<AttemptRow>): set<AttemptRow> {
    set row | row in rows
  }

  /** How far a row got since it was in state `s`: time passed, and alone it is carried on if done, else untouched. */
  ghost predicate Progress(s: State, alone: bool, done: bool, t: State) {
    && s.now <= t.now && (s.Exists() ==> t.Exists())
    && (alone ==> if done then Carried(t, s.now) else Untouched(s, t))
  }

  ghost predicate AllProgress(rows: seq<AttemptRow>, start: map<AttemptRow, State>, done: set<AttemptRow>)
    reads rows
  {
    forall row | row in rows :: row in start && Progress(start[row], row.alone, row in done, row.st)
  }

  lemma ProgressStays(s: State, alone: bool, done: bool, t: State, u: State)
    requires Progress(s, alone, done, t) && Evolves(t, u) && (alone ==> Untouched(t, u))
    ensures Progress(s, alone, done, u)
  {
  }

  /** Time passes, and other processes do anything they may to any row that is not alone. */
  method Meanwhile(rows: seq<AttemptRow>, ghost start: map<AttemptRow, State>, ghost done: set<AttemptRow>,
                   ghost past: map<AttemptRow, State>)
    requires AllSince(rows, past) && AllProgress(rows, start, done)
    modifies rows
    ensures AllSince(rows, past) && AllProgress(rows, start, done)
  {
    for i := 0 to |rows|
      invariant AllSince(rows, past) && AllProgress(rows, start, done)
    {
      Elsewhere(rows, rows[i], start, done, past);
    }
  }

  /** Other processes at work on one row. */
  method Elsewhere(rows: seq<AttemptRow>, row: AttemptRow, ghost start: map<AttemptRow, State>,
                   ghost done: set<AttemptRow>, ghost past: map<AttemptRow, State>)
    requires row in rows && AllSince(rows, past) && AllProgress(rows, start, done)
    modifies row
    ensures AllSince(rows, past) && AllProgress(rows, start, done)
  {
    ghost var before := row.st;
    row.Interfere(None, past[row]);
    ProgressStays(start[row], row.alone, row in done, before, row.st);
  }

  /** Recovers a row that was chosen in state `s`, and may have been handled or changed since. */
  method Act(row: AttemptRow, category: Category, head: Option<int>, blockTime: Seconds, py: Instant,
             ghost s: State, ghost done: bool, ghost past: State) returns (sent: bool)
    requires row.Valid() && row.Since(past) && Progress(s, row.alone, done, row.st)
    requires Chosen(row.cfg, s, category, py)
    modifies row
    ensures row.Valid() && row.Since(past) && Progress(s, row.alone, true, row.st)
  {
    var elapsed: Seconds := *;
    if row.alone && !done {
      ChosenStays(row.cfg, s, row.st, category, py, py);
    }
    sent := Recover(row, category, head, blockTime, py, py + Max(0.0, elapsed), s.now, past);
  }

  /** One picked row has its turn. */
  method Turn(rows: seq<AttemptRow>, row: AttemptRow, category: Category, head: Option<int>, blockTime: Seconds,
              py: Instant, ghost start: map<AttemptRow, State>, ghost done: set<AttemptRow>,
              ghost past: map<AttemptRow, State>) returns (sent: bool)
    requires row in rows && AllSince(rows, past) && AllProgress(rows, start, done)
    requires Chosen(row.cfg, start[row], category, py)
    modifies row
    ensures AllSince(rows, past) && AllProgress(rows, start, done + {row})
  {
    sent := Act(row, category, head, blockTime, py, start[row], row in done, past[row]);
  }

  lemma OneMoreMember(picked: seq<AttemptRow>, i: nat)
    requires i < |picked|
    ensures Members(picked[..i + 1]) == Members(picked[..i]) + {picked[i]}
  {
    assert picked[..i + 1] == picked[..i] + [picked[i]];
  }

  /** Other processes at work, then one picked row's turn. */
  method Handle(rows: seq<AttemptRow>, row: AttemptRow, category: Category, head: Option<int>, blockTime: Seconds,
                py: Instant, ghost start: map<AttemptRow, State>, ghost done: set<AttemptRow>,
                ghost past: map<AttemptRow, State>) returns (sent: bool)
    requires row in rows && AllSince(rows, past) && AllProgress(rows, start, done)
    requires Chosen(row.cfg, start[row], category, py)
    modifies rows
    ensures AllSince(rows, past) && AllProgress(rows, start, done + {row})
  {
    Meanwhile(rows, start, done, past);
    sent := Turn(rows, row, category, head, blockTime, py, start, done, past);
  }

  /** Handles the picked rows one by one, with time passing and other processes at work before each. */
  method RecoverAll(rows: seq<AttemptRow>, picked: seq<AttemptRow>, category: Category, head: Option<int>,
                    blockTime: Seconds, py: Instant, ghost start: map<AttemptRow, State>,
                    ghost past: map<AttemptRow, State>)
    returns (recovered: nat)
    requires AllSince(rows, past) && AllProgress(rows, start, {})
    requires forall row | row in picked :: row in rows && Chosen(row.cfg, start[row], category, py)
    modifies rows
    ensures AllSince(rows, past) && AllProgress(rows, start, Members(picked))
    ensures recovered <= |picked|
  {
    recovered := 0;
    ghost var done: set<AttemptRow> := {};
    for i := 0 to |picked|
      invariant AllSince(rows, past) && AllProgress(rows, start, done)
      invariant done == Members(picked[..i])
      invariant recovered <= i
    {
      assert picked[i] in picked;
      var sent := Handle(rows, picked[i], category, head, blockTime, py, start, done, past);
      done := done + {picked[i]};
      OneMoreMember(picked, i);
      if sent {
        recovered := recovered + 1;
      }
    }
    assert picked[..|picked|] == picked;
  }

  lemma ProgressComposes(s: State, alone: bool, first: bool, t: State, second: bool, u: State)
    requires Progress(s, alone, first, t) && Progress(t, alone, second, u)
    ensures Progress(s, alone, first || second, u)
  {
  }

  lemma AllProgressComposes(rows: seq<AttemptRow>, start: map<AttemptRow, State>, done: set<AttemptRow>,
                            now: map<AttemptRow, State>, more: set<AttemptRow>)
    requires forall row | row in rows ::
               row in start && row in now && Progress(start[row], row.alone, row in done, now[row])
    requires AllProgress(rows, now, more)
    ensures AllProgress(rows, start, done + more)
  {
    forall row | row in rows
      ensures Progress(start[row], row.alone, row in done + more, row.st)
    {
      ProgressComposes(start[row], row.alone, row in done, now[row], row in more, row.st);
    }
  }

  /** Every row that is alone and was chosen at the start is among `reached`. */
  ghost predicate ReachesAll(rows: seq<AttemptRow>, start: map<AttemptRow, State>, category: Category, py: Instant,
                             reached: set<AttemptRow>)
    requires forall row | row in rows :: row in start
  {
    forall row | row in rows && row.alone && Chosen(row.cfg, start[row], category, py) :: row in reached
  }

  /** Of the rows that are alone, none that was chosen at the start comes before a picked one and is passed over. */
  ghost predicate InOrder(rows: seq<AttemptRow>, start: map<AttemptRow, State>, category: Category, py: Instant,
                          done: set<AttemptRow>, picked: seq<AttemptRow>)
    requires forall row | row in rows :: row in start
  {
    forall p, row | p in picked && p in rows && p.alone && p !in done && row in rows && row.alone && row !in done
                    && row !in picked && Chosen(row.cfg, start[row], category, py) ::
      !Precedes(category, start[row], row.id, start[p], p.id)
  }

  /** No row is picked twice. */
  ghost predicate Distinct(rows: seq<AttemptRow>) {
    forall i, j | 0 <= i < j < |rows| :: rows[i] != rows[j]
  }

  /** A query at `py`, after other processes did what they might since the sweep began at `began`. */
  method Query(rows: seq<AttemptRow>, category: Category, limit: int, ghost began: Instant, py: Instant,
               ghost start: map<AttemptRow, State>, ghost done: set<AttemptRow>, ghost past: map<AttemptRow, State>)
    returns (picked: seq<AttemptRow>)
    requires AllSince(rows, past) && AllProgress(rows, start, done) && began <= py
    modifies rows
    ensures AllSince(rows, past) && AllProgress(rows, start, done)
    ensures |picked| <= if limit < 0 then 0 else limit
    ensures forall row | row in picked :: row in rows && Chosen(row.cfg, row.st, category, py)
    ensures |picked| < limit ==> ReachesAll(rows, start, category, began, done + Members(picked))
    ensures Distinct(picked) && InOrder(rows, start, category, began, done, picked)
    ensures forall p | p in picked && p in rows && p.alone && p !in done :: InLine(category, start[p])
  {
    Meanwhile(rows, start, done, past);
    picked := Pick(rows, category, limit, py);
    StillChosen(rows, category, began, py, start, done);
    StillInOrder(rows, category, began, py, start, done, picked);
  }

  /** Rows that are alone and not handled are chosen later if they were at the start. */
  lemma StillChosen(rows: seq<AttemptRow>, category: Category, began: Instant, py: Instant,
                    start: map<AttemptRow, State>, done: set<AttemptRow>)
    requires AllProgress(rows, start, done) && began <= py
    ensures forall row | row in rows && row.alone && row !in done && Chosen(row.cfg, start[row], category, began) ::
              Chosen(row.cfg, row.st, category, py)
  {
    forall row | row in rows && row.alone && row !in done && Chosen(row.cfg, start[row], category, began)
      ensures Chosen(row.cfg, row.st, category, py)
    {
      ChosenStays(row.cfg, start[row], row.st, category, began, py);
    }
  }

  /** And their order is what it was. */
  lemma StillInOrder(rows: seq<AttemptRow>, category: Category, began: Instant, py: Instant,
                     start: map<AttemptRow, State>, done: set<AttemptRow>, picked: seq<AttemptRow>)
    requires AllProgress(rows, start, done)
    requires forall row | row in rows && row.alone && row !in done && Chosen(row.cfg, start[row], category, began) ::
               Chosen(row.cfg, row.st, category, py)
    requires forall p, row | p in picked && row in rows && row !in picked && Chosen(row.cfg, row.st, category, py) ::
               !Precedes(category, row.st, row.id, p.st, p.id)
    ensures InOrder(rows, start, category, began, done, picked)
  {
    forall p, row | p in picked && p in rows && p.alone && p !in done && row in rows && row.alone && row !in done
                    && row !in picked && Chosen(row.cfg, start[row], category, began)
      ensures !Precedes(category, start[row], row.id, start[p], p.id)
    {
      assert !Precedes(category, row.st, row.id, p.st, p.id);
      assert Untouched(start[row], row.st) && Untouched(start[p], p.st);
    }
  }

  /** One category: query, then handle what it returned. */
  method Phase(rows: seq<AttemptRow>, category: Category, limit: int, head: Option<int>, blockTime: Seconds,
               ghost began: Instant, py: Instant, ghost start: map<AttemptRow, State>, ghost done: set<AttemptRow>,
               ghost past: map<AttemptRow, State>) returns (recovered: nat, picked: seq<AttemptRow>)
    requires AllSince(rows, past) && AllProgress(rows, start, done) && began <= py
    modifies rows
    ensures AllSince(rows, past) && AllProgress(rows, start, done + Members(picked))
    ensures recovered <= |picked| && |picked| <= if limit < 0 then 0 else limit
    ensures Members(picked) <= Members(rows)
    ensures |picked| < limit ==> ReachesAll(rows, start, category, began, done + Members(picked))
    ensures Distinct(picked) && InOrder(rows, start, category, began, done, picked)
    ensures forall p | p in picked && p in rows && p.alone && p !in done :: InLine(category, start[p])
  {
    picked := Query(rows, category, limit, began, py, start, done, past);
    ghost var now := map row | row in rows :: row.st;
    recovered := RecoverAll(rows, picked, category, head, blockTime, py, now, past);
    AllProgressComposes(rows, start, done, now, Members(picked));
  }

  /** Some category chooses the row. */
  predicate Due(cfg: Config, s: State, py: Instant) {
    s.Exists() && Recoverable(cfg, s.Row(), s.now, py)
  }

  lemma DueIsChosen(cfg: Config, s: State, py: Instant) returns (category: Category)
    requires Due(cfg, s, py)
    ensures Chosen(cfg, s, category, py)
  {
    category :| Selected(cfg, s.Row(), category, s.now, py);
  }

  /** After enough undisturbed time, a row still owed a run is due exactly if a rule still reaches it, on every run. */
  lemma OwedIsDueIff(cfg: Config, s: State, py: Instant)
    requires cfg.Valid() && cfg.settings.staleTimeout.Some? && Reachable(cfg, s) && s.Exists() && StillOwed(s.Row())
    requires s.now > Horizon(cfg, s.Row()) && py > Horizon(cfg, s.Row())
    ensures Due(cfg, s, py) <==> WithinReach(cfg, s.Row())
  {
    StrandedIff(cfg, s, s.now, py);
    ReachedByOneIff(cfg, s.Row(), s.now, py);
  }

  /** In particular every owed row of a disciplined run is. */
  lemma OwedIsDue(cfg: Config, steps: seq<Step>, s: State, py: Instant)
    requires cfg.Valid() && cfg.settings.staleTimeout.Some? && cfg.settings.maxAttempts >= 1
    requires DisciplinedRun(cfg, START, steps, s) && s.Exists() && StillOwed(s.Row())
    requires s.now > Horizon(cfg, s.Row()) && py > Horizon(cfg, s.Row())
    ensures Due(cfg, s, py)
  {
    DisciplineKeepsReach(cfg, steps, s);
    DisciplinedIsRun(cfg, START, steps, s);
    OwedIsDueIff(cfg, s, py);
  }

  /** Of the rows that are alone, only such were handled as stood in the line for leases, or also for messages. */
  ghost predicate OnlyFrom(rows: seq<AttemptRow>, start: map<AttemptRow, State>, handled: seq<AttemptRow>,
                           messages: bool)
  {
    forall p | p in handled && p in rows && p.alone && p in start ::
      InLine(ExpiredLease, start[p]) || (messages && InLine(ExpiredMessage, start[p]))
  }

  /** The three phases, each with its own query instant and what the ones before it left of the limit. */
  method Phases(cfg: Config, rows: seq<AttemptRow>, limit: int, head: Option<int>, blockTime: Seconds, py: Instant,
                ghost past: map<AttemptRow, State>) returns (recovered: nat, handled: seq<AttemptRow>)
    requires AllSince(rows, past) && AllProgress(rows, past, {})
    modifies rows
    ensures AllSince(rows, past) && AllProgress(rows, past, Members(handled))
    ensures recovered <= |handled| && |handled| <= if limit < 0 then 0 else limit
    ensures Members(handled) <= Members(rows)
    ensures |handled| < limit ==>
              && ReachesAll(rows, past, ExpiredLease, py, Members(handled))
              && ReachesAll(rows, past, ExpiredMessage, py, Members(handled))
              && (cfg.settings.staleTimeout.Some? ==> ReachesAll(rows, past, Stuck, py, Members(handled)))
    ensures ReachesAll(rows, past, ExpiredLease, py, Members(handled)) || OnlyFrom(rows, past, handled, false)
    ensures ReachesAll(rows, past, ExpiredMessage, py, Members(handled)) || OnlyFrom(rows, past, handled, true)
  {
    var messages, stuck, n;
    recovered, handled := Phase(rows, ExpiredLease, limit, head, blockTime, py, py, past, {}, past);
    ghost var done := Members(handled);
    assert {} + done == done;
    var elapsed: Seconds := *;
    var later := py + Max(0.0, elapsed);
    n, messages := Phase(rows, ExpiredMessage, limit - |handled|, head, blockTime, py, later, past, done, past);
    assert done + Members(messages) == Members(handled + messages);
    recovered, handled := recovered + n, handled + messages;
    if cfg.settings.staleTimeout.Some? {
      done := Members(handled);
      elapsed := *;
      later := later + Max(0.0, elapsed);
      n, stuck := Phase(rows, Stuck, limit - |handled|, head, blockTime, py, later, past, done, past);
      assert done + Members(stuck) == Members(handled + stuck);
      recovered, handled := recovered + n, handled + stuck;
    }
  }

  /**
   * One sweep: expired leases, then expired messages, then stuck attempts, `limit` rows in all. Time passes and other
   * processes work on every row throughout. Whatever happens to a row is a run of the protocol, so every guarantee of
   * the protocol survives it. A row that is alone is untouched unless handled, and carried on if handled: given up, or
   * dispatched anew since the sweep began. With limit to spare, every row that is alone and was due is handled;
   * without, leases come first and messages next.
   */
  method Reconcile(cfg: Config, rows: seq<AttemptRow>, limit: int, head: Option<int>, blockTime: Seconds, py: Instant)
    returns (recovered: nat, handled: seq<AttemptRow>)
    requires forall row | row in rows :: row.Valid() && row.cfg == cfg
    modifies rows
    ensures forall row | row in rows :: row.Valid() && row.Since(old(row.st))
    ensures recovered <= |handled| && |handled| <= if limit < 0 then 0 else limit
    ensures forall row | row in handled :: row in rows
    ensures forall row | row in rows && row.alone && row !in handled :: Untouched(old(row.st), row.st)
    ensures forall row | row in handled && row.alone :: Carried(row.st, old(row.st).now)
    ensures |handled| < limit ==> forall row | row in rows && row.alone && Due(cfg, old(row.st), py) :: row in handled
    ensures (forall row | row in rows && row.alone && Chosen(cfg, old(row.st), ExpiredLease, py) :: row in handled)
         || (forall p | p in handled && p.alone :: InLine(ExpiredLease, old(p.st)))
    ensures (forall row | row in rows && row.alone && Chosen(cfg, old(row.st), ExpiredMessage, py) :: row in handled)
         || (forall p | p in handled && p.alone :: InLine(ExpiredLease, old(p.st)) || InLine(ExpiredMessage, old(p.st)))
  {
    ghost var past := map row | row in rows :: row.st;
    forall row | row in rows
      ensures row.Since(past[row])
    {
      row.Now();
    }
    recovered, handled := Phases(cfg, rows, limit, head, blockTime, py, past);
    assert forall row | row in handled :: row in Members(handled);
    forall row | |handled| < limit && row in rows && row.alone && Due(cfg, past[row], py)
      ensures row in handled
    {
      var category := DueIsChosen(cfg, past[row], py);
    }
  }

  // ---- phase after phase

  /** The row waits in the line of rows that the category's query looks at. */
  predicate InLine(category: Category, s: State) {
    && s.Exists()
    && match category
       case ExpiredLease => s.Row().status.Running? && s.Row().leaseExpiresAt.Some?
       case ExpiredMessage => s.Row().status.Pending? && s.Row().dispatchedAt.Some?
       case Stuck => true
  }

  /** The rows ahead of `row` in that line. */
  ghost function Ahead(rows: seq<AttemptRow>, category: Category, states: map<AttemptRow, State>, row: AttemptRow)
    : set<AttemptRow>
    requires row in rows && forall other | other in rows :: other in states
  {
    set other | other in rows && InLine(category, states[other])
                && Precedes(category, states[other], other.id, states[row], row.id)
  }

  /** Handling a row takes it out of the line, or puts it behind every row that was dispatched before. */
  lemma HandledLeavesTheLine(category: Category, s: State, t: State, id: int, u: State, other: int)
    requires !category.Stuck? && Carried(t, s.now) && u.Exists()
    requires t.Row().giveUpReason.Some? ==> t.Row().status.Failed?
    requires category.ExpiredMessage? ==> u.Row().dispatchedAt.Some? && u.Row().dispatchedAt.value < s.now
    ensures !(InLine(category, t) && Precedes(category, t, id, u, other))
  {
  }

  /** A round that did not reach `row` leaves fewer rows ahead of it, by all that the round handled. */
  lemma LineAdvances(rows: seq<AttemptRow>, category: Category, start: map<AttemptRow, State>,
                     after: map<AttemptRow, State>, picked: set<AttemptRow>, row: AttemptRow)
    requires row in rows && row !in picked && !category.Stuck?
    requires forall other | other in rows :: other in start && other in after
               && Progress(start[other], true, other in picked, after[other])
               && (after[other].Exists() && after[other].Row().giveUpReason.Some? ==> after[other].Row().status.Failed?)
    requires start[row].Exists()
    requires category.ExpiredMessage? ==>
               && start[row].Row().dispatchedAt.Some?
               && forall other | other in rows :: start[row].Row().dispatchedAt.value < start[other].now
    ensures Ahead(rows, category, after, row) <= Ahead(rows, category, start, row) - picked
  {
    forall other | other in Ahead(rows, category, after, row)
      ensures other in Ahead(rows, category, start, row) && other !in picked
    {
      if other in picked {
        HandledLeavesTheLine(category, start[other], after[other], other.id, after[row], row.id);
      }
    }
  }

  /** Rows are told apart by their ids, and no other process is at work on any of them. */
  ghost predicate AllAlone(rows: seq<AttemptRow>) {
    && (forall row | row in rows :: row.alone)
    && (forall row, other | row in rows && other in rows && row != other :: row.id != other.id)
  }

  /** The database clock that every row is on is past the dispatch `row` waits on. */
  ghost predicate ClockIsPast(rows: seq<AttemptRow>, category: Category, states: map<AttemptRow, State>,
                              row: AttemptRow)
    requires row in rows && forall other | other in rows :: other in states
  {
    category.ExpiredMessage? ==>
      && states[row].Exists() && states[row].Row().dispatchedAt.Some?
      && forall other | other in rows :: states[row].Row().dispatchedAt.value < states[other].now
  }

  lemma PickedAreAhead(rows: seq<AttemptRow>, category: Category, py: Instant, start: map<AttemptRow, State>,
                       picked: seq<AttemptRow>, row: AttemptRow)
    requires AllAlone(rows) && (forall other | other in rows :: other in start) && !category.Stuck?
    requires row in rows && row !in picked && Chosen(row.cfg, start[row], category, py)
    requires Members(picked) <= Members(rows) && InOrder(rows, start, category, py, {}, picked)
    requires forall p | p in picked && p in rows :: InLine(category, start[p])
    ensures Members(picked) <= Ahead(rows, category, start, row)
  {
    forall p | p in Members(picked)
      ensures p in Ahead(rows, category, start, row)
    {
      assert p in picked && p in Members(rows);
      assert !Precedes(category, start[row], row.id, start[p], p.id);
    }
  }

  lemma {:induction false} DistinctCount(rows: seq<AttemptRow>)
    requires Distinct(rows)
    ensures |Members(rows)| == |rows|
  {
    if rows != [] {
      var rest := rows[..|rows| - 1];
      DistinctCount(rest);
      assert Members(rows) == Members(rest) + {rows[|rows| - 1]};
    }
  }

  ghost function StatesOf(rows: seq<AttemptRow>): map<AttemptRow, State>
    reads rows
  {
    map row | row in rows :: row.st
  }

  /** A phase that did not reach `row` took all it picked from ahead of it. */
  lemma RoundAdvances(rows: seq<AttemptRow>, category: Category, py: Instant, start: map<AttemptRow, State>,
                      picked: seq<AttemptRow>, row: AttemptRow, past: map<AttemptRow, State>)
    requires AllSince(rows, past) && AllAlone(rows) && !category.Stuck?
    requires AllProgress(rows, start, Members(picked)) && Members(picked) <= Members(rows) && Distinct(picked)
    requires InOrder(rows, start, category, py, {}, picked)
    requires forall p | p in picked && p in rows :: InLine(category, start[p])
    requires row in rows && row !in picked && Chosen(row.cfg, start[row], category, py)
    requires ClockIsPast(rows, category, start, row)
    ensures |Ahead(rows, category, StatesOf(rows), row)| + |picked| <= |Ahead(rows, category, start, row)|
  {
    PickedAreAhead(rows, category, py, start, picked, row);
    GivenUpIsFailed(rows, past);
    LineAdvances(rows, category, start, StatesOf(rows), Members(picked), row);
    DistinctCount(picked);
    Shrinks(Ahead(rows, category, start, row), Members(picked), Ahead(rows, category, StatesOf(rows), row));
  }

  lemma NothingYet(rows: seq<AttemptRow>)
    ensures AllProgress(rows, StatesOf(rows), {})
  {
  }

  /** One phase among rows that are all alone: it reaches `row`, or takes `limit` rows from ahead of it. */
  method Round(rows: seq<AttemptRow>, category: Category, limit: nat, head: Option<int>, blockTime: Seconds,
               py: Instant, ghost row: AttemptRow, ghost start: map<AttemptRow, State>,
               ghost past: map<AttemptRow, State>) returns (picked: seq<AttemptRow>)
    requires AllSince(rows, past) && AllAlone(rows) && !category.Stuck? && start == StatesOf(rows) && row in rows
    modifies rows
    ensures AllSince(rows, past) && AllProgress(rows, start, Members(picked))
    ensures Chosen(row.cfg, start[row], category, py) && ClockIsPast(rows, category, start, row) && row !in picked ==>
              |Ahead(rows, category, StatesOf(rows), row)| + limit <= |Ahead(rows, category, start, row)|
  {
    NothingYet(rows);
    var n;
    n, picked := Phase(rows, category, limit, head, blockTime, py, py, start, {}, past);
    assert {} + Members(picked) == Members(picked);
    if row !in picked && Chosen(row.cfg, start[row], category, py) && ClockIsPast(rows, category, start, row) {
      RoundAdvances(rows, category, py, start, picked, row, past);
    }
  }

  /** A row that was not handled is chosen and ahead of the clock as it was at first. */
  lemma StillWaiting(rows: seq<AttemptRow>, category: Category, py: Instant, first: map<AttemptRow, State>,
                     done: set<AttemptRow>, row: AttemptRow)
    requires AllAlone(rows) && AllProgress(rows, first, done) && row in rows && row !in done
    requires Chosen(row.cfg, first[row], category, py) && ClockIsPast(rows, category, first, row)
    ensures Chosen(row.cfg, row.st, category, py) && ClockIsPast(rows, category, StatesOf(rows), row)
  {
    ChosenStays(row.cfg, first[row], row.st, category, py, py);
  }

  /** One more round, after those that handled `done`. */
  method NextRound(rows: seq<AttemptRow>, category: Category, limit: nat, head: Option<int>, blockTime: Seconds,
                   py: Instant, ghost row: AttemptRow, ghost first: map<AttemptRow, State>,
                   ghost done: set<AttemptRow>) returns (ghost handled: set<AttemptRow>)
    requires AllSince(rows, first) && AllProgress(rows, first, done) && AllAlone(rows) && !category.Stuck?
    requires row in rows && Chosen(row.cfg, first[row], category, py) && ClockIsPast(rows, category, first, row)
    modifies rows
    ensures AllSince(rows, first) && AllProgress(rows, first, handled) && done <= handled
    ensures row in handled ||
            |Ahead(rows, category, StatesOf(rows), row)| + limit <= |old(Ahead(rows, category, StatesOf(rows), row))|
  {
    ghost var start := StatesOf(rows);
    if row !in done {
      StillWaiting(rows, category, py, first, done, row);
    }
    var picked := Round(rows, category, limit, head, blockTime, py, row, start, first);
    AllProgressComposes(rows, first, done, start, Members(picked));
    handled := done + Members(picked);
  }

  /** What `n` rounds of `limit` rows handle. */
  function Total(n: nat, limit: nat): nat {
    if n == 0 then 0 else Total(n - 1, limit) + limit
  }

  lemma {:induction false} TotalIsProduct(n: nat, limit: nat)
    ensures Total(n, limit) == n * limit
  {
    if n > 0 {
      TotalIsProduct(n - 1, limit);
      assert n * limit == (n - 1) * limit + limit;
    }
  }

  /** Round after round: `row` is reached, or that many fewer stand ahead of it. */
  method RoundsSoFar(rows: seq<AttemptRow>, category: Category, limit: nat, head: Option<int>, blockTime: Seconds,
                     times: seq<Instant>, ghost row: AttemptRow, ghost first: map<AttemptRow, State>)
    returns (ghost done: set<AttemptRow>)
    requires AllSince(rows, first) && first == StatesOf(rows) && AllAlone(rows) && !category.Stuck? && row in rows
    requires forall i | 0 <= i < |times| :: Chosen(row.cfg, first[row], category, times[i])
    requires ClockIsPast(rows, category, first, row)
    modifies rows
    ensures AllSince(rows, first) && AllProgress(rows, first, done)
    ensures row in done ||
            |Ahead(rows, category, StatesOf(rows), row)| + Total(|times|, limit) <= |Ahead(rows, category, first, row)|
  {
    done := {};
    for i := 0 to |times|
      invariant AllSince(rows, first) && AllProgress(rows, first, done)
      invariant row in done ||
                |Ahead(rows, category, StatesOf(rows), row)| + Total(i, limit) <= |Ahead(rows, category, first, row)|
    {
      done := NextRound(rows, category, limit, head, blockTime, times[i], row, first, done);
    }
  }

  /**
   * Phase after phase with a limit of any size: a row that a category chose is reached as soon as the rounds handle
   * more rows than stood ahead of it, however many are due behind it and become due meanwhile.
   */
  method Rounds(rows: seq<AttemptRow>, category: Category, limit: nat, head: Option<int>, blockTime: Seconds,
                times: seq<Instant>, ghost row: AttemptRow, ghost first: map<AttemptRow, State>)
    requires AllSince(rows, first) && first == StatesOf(rows) && AllAlone(rows) && !category.Stuck? && row in rows
    requires forall i | 0 <= i < |times| :: Chosen(row.cfg, first[row], category, times[i])
    requires ClockIsPast(rows, category, first, row)
    requires |times| * limit > |Ahead(rows, category, first, row)|
    modifies rows
    ensures AllSince(rows, first) && Carried(row.st, first[row].now)
  {
    ghost var done := RoundsSoFar(rows, category, limit, head, blockTime, times, row, first);
    TotalIsProduct(|times|, limit);
  }

  lemma Shrinks(before: set<AttemptRow>, gone: set<AttemptRow>, after: set<AttemptRow>)
    requires gone <= before && after <= before - gone
    ensures |after| + |gone| <= |before|
  {
    assert before - gone == after + (before - gone - after);
    assert before == gone + (before - gone);
  }

  lemma GivenUpIsFailed(rows: seq<AttemptRow>, past: map<AttemptRow, State>)
    requires AllSince(rows, past)
    ensures forall row | row in rows && row.st.Exists() && row.st.Row().giveUpReason.Some? ::
              row.st.Row().status.Failed?
  {
    forall row | row in rows && row.st.Exists() && row.st.Row().giveUpReason.Some?
      ensures row.st.Row().status.Failed?
    {
      row.Facts();
    }
  }
}
