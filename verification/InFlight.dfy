/**
 * The throttle against the rows it counts: one gate and one throttled queue, over a table of attempts on which other
 * processes are at work.
 */
module InFlight {
  import opened Base
  import opened Attempts
  import opened Queues
  import opened Selection
  import opened Transitions
  import opened Protocol
  import opened Recovery
  import Throttle

  /** A submission under way: its row, and whether its own statements are what put that row in flight. */
  datatype Submission = Submission(id: int, own: bool)

  /** The table, its two clocks, the gate's cached room for the queue, and the submission it admitted last. */
  datatype World = World(
    table: map<int, State>,
    db: Instant,
    py: Instant,
    free: Option<int>,
    open: Option<Submission>)
  {
    /** Row `id` at this instant; it may not exist yet. */
    function At(id: int): State {
      (if id in table then table[id] else START).(now := db)
    }
  }

  /** What the gate's queue is, and whether its caller waits for room. */
  datatype Setup = Setup(cfg: Config, queue: Queue, wait: bool)

  predicate Counts(setup: Setup, s: State, db: Instant, py: Instant) {
    s.Exists() && InFlight(setup.cfg, s.Row(), setup.queue, db, py)
  }

  /** The rows that the count query keeps. */
  function Counted(setup: Setup, w: World): set<int> {
    set id | id in w.table && Counts(setup, w.table[id], w.db, w.py)
  }

  /** What one read of the queue returns. */
  function InFlightCount(setup: Setup, w: World): nat {
    |Counted(setup, w)|
  }

  /**
   * The gate admits a submission or refuses it; the submission's statements on its row follow one by one; then it is
   * over, with a message sent and the room spent, or without. In between, and otherwise, other processes send any
   * statements on any rows, and time passes.
   */
  datatype Event =
    | Admit(id: int)
    | Own(step: Step)
    | Close(sent: bool)
    | Statement(id: int, step: Step)
    | Clock(db: Instant, py: Instant)

  /** One submission at a time; one that sent nothing put nothing in flight; statements are any the protocol allows. */
  predicate Possible(setup: Setup, w: World, e: Event) {
    match e
    case Admit(_) => w.open.None?
    case Own(step) => w.open.Some? && Enabled(setup.cfg, w.At(w.open.value.id), step) && !step.Tick?
    case Close(sent) => w.open.Some? && (sent || !w.open.value.own)
    case Statement(id, step) => Enabled(setup.cfg, w.At(id), step) && !step.Tick?
    case Clock(db, py) => w.db <= db && w.py <= py
  }

  /** A row that left flight is no longer there by the submission's doing. */
  function Settled(setup: Setup, w: World): World {
    if w.open.Some? && !Counts(setup, w.At(w.open.value.id), w.db, w.py)
    then w.(open := Some(w.open.value.(own := false))) else w
  }

  function Next(setup: Setup, w: World, e: Event): World
    requires setup.queue.throttle.Some? && Possible(setup, w, e)
  {
    match e
    case Admit(id) =>
      var throttle := setup.queue.throttle.value;
      var (admitted, free) := Throttle.AdmitOnce(w.free, setup.wait, throttle, InFlightCount(setup, w));
      w.(free := free, open := if admitted then Some(Submission(id, false)) else None)
    case Own(step) =>
      var id := w.open.value.id;
      var after := Apply(setup.cfg, w.At(id), step);
      var puts := !Counts(setup, w.At(id), w.db, w.py) && Counts(setup, after, w.db, w.py);
      Settled(setup, w.(table := w.table[id := after], open := Some(Submission(id, w.open.value.own || puts))))
    case Close(sent) => w.(open := None, free := if sent && w.free.Some? then Some(w.free.value - 1) else w.free)
    case Statement(id, step) => Settled(setup, w.(table := w.table[id := Apply(setup.cfg, w.At(id), step)]))
    case Clock(db, py) => Settled(setup, w.(db := db, py := py))
  }

  /** `events` leads from `w` to `v`. */
  ghost predicate Unfolds(setup: Setup, w: World, events: seq<Event>, v: World)
    requires setup.queue.throttle.Some?
    decreases |events|
  {
    if events == [] then w == v
    else Possible(setup, w, events[0]) && Unfolds(setup, Next(setup, w, events[0]), events[1..], v)
  }

  // ---- what each event does to the count

  /** Counting a row is membership in what the query keeps. */
  lemma CountsIff(setup: Setup, w: World, id: int)
    ensures id in Counted(setup, w) <==> Counts(setup, w.At(id), w.db, w.py)
  {
  }

  lemma OthersCountAlike(setup: Setup, w: World, id: int, after: State)
    ensures Counted(setup, w.(table := w.table[id := after])) - {id} == Counted(setup, w) - {id}
  {
    var v := w.(table := w.table[id := after]);
    forall k | k != id
      ensures k in Counted(setup, v) <==> k in Counted(setup, w)
    {
    }
  }

  lemma WithoutOne(s: set<int>, id: int)
    ensures |s| == |s - {id}| + if id in s then 1 else 0
  {
    if id in s {
      assert s == (s - {id}) + {id};
    } else {
      assert s == s - {id};
    }
  }

  /** A change of one row moves the count by that row alone. */
  lemma OneRowMovesCountByOne(setup: Setup, w: World, id: int, after: State)
    ensures InFlightCount(setup, w.(table := w.table[id := after]))
         == InFlightCount(setup, w)
          - (if Counts(setup, w.At(id), w.db, w.py) then 1 else 0)
          + (if Counts(setup, after, w.db, w.py) then 1 else 0)
  {
    var v := w.(table := w.table[id := after]);
    OthersCountAlike(setup, w, id, after);
    WithoutOne(Counted(setup, w), id);
    WithoutOne(Counted(setup, v), id);
    CountsIff(setup, w, id);
    CountsIff(setup, v, id);
  }

  lemma SameTableSameCount(setup: Setup, w: World, v: World)
    requires w.table == v.table && w.db == v.db && w.py == v.py
    ensures Counted(setup, w) == Counted(setup, v)
  {
  }

  /** The rows that an event of others puts in flight past the gate. */
  function PastTheGate(setup: Setup, w: World, e: Event): set<int>
    requires setup.queue.throttle.Some? && Possible(setup, w, e)
  {
    if e.Statement? || e.Clock? then Counted(setup, Next(setup, w, e)) - Counted(setup, w) else {}
  }

  /** The retries that come due between two instants. */
  function ComeDue(w: World, py: Instant): set<int> {
    set id | id in w.table && w.table[id].Exists() && AwaitsEta(w.table[id].Row(), w.py)
             && w.table[id].Row().nextRetryAt.value <= py
  }

  /** Time only ever takes attempts out of flight, except the retries it makes due. */
  lemma TimeAddsOnlyRetries(setup: Setup, w: World, db: Instant, py: Instant)
    requires setup.queue.throttle.Some? && w.db <= db && w.py <= py
    ensures PastTheGate(setup, w, Clock(db, py)) <= ComeDue(w, py)
  {
    var v := Next(setup, w, Clock(db, py));
    SameTableSameCount(setup, w.(db := db, py := py), v);
    forall id | id in Counted(setup, v) && id !in Counted(setup, w)
      ensures id in ComeDue(w, py)
    {
      TimeCountsOnlyRetries(setup, w.table[id].Row(), w.db, w.py, db, py);
    }
  }

  lemma TimeCountsOnlyRetries(setup: Setup, a: Attempt, db: Instant, py: Instant, laterDb: Instant, laterPy: Instant)
    requires db <= laterDb && py <= laterPy && InFlight(setup.cfg, a, setup.queue, laterDb, laterPy)
    ensures InFlight(setup.cfg, a, setup.queue, db, py) || (AwaitsEta(a, py) && a.nextRetryAt.value <= laterPy)
  {
    var cfg, queue := setup.cfg, setup.queue;
    InFlightFilterMeaning(a, queue.name, TtlWindow(cfg, queue), StaleBefore(cfg, py), db, py);
    InFlightFilterMeaning(a, queue.name, TtlWindow(cfg, queue), StaleBefore(cfg, laterPy), laterDb, laterPy);
  }

  /** Recording an outcome, failing a lease, giving up and setting a deadline. */
  predicate Completes(step: Step) {
    EndsClaims(step) || step.GiveUpIfPastDeadline? || step.GiveUpByHand? || step.SetGiveUpDeadline?
  }

  lemma StatementCounts(setup: Setup, w: World, id: int, step: Step)
    requires setup.queue.throttle.Some? && Possible(setup, w, Statement(id, step))
    ensures var after := Apply(setup.cfg, w.At(id), step);
            PastTheGate(setup, w, Statement(id, step)) ==
            if Counts(setup, after, w.db, w.py) && !Counts(setup, w.At(id), w.db, w.py) then {id} else {}
  {
    var after := Apply(setup.cfg, w.At(id), step);
    var v := w.(table := w.table[id := after]);
    SameTableSameCount(setup, v, Next(setup, w, Statement(id, step)));
    forall k
      ensures k in Counted(setup, v) <==> if k == id then Counts(setup, after, w.db, w.py) else k in Counted(setup, w)
    {
    }
  }

  /** Completions put nothing in flight, nor does a retry before its ETA; no statement more than its own attempt. */
  lemma StatementsAddAtMostOne(setup: Setup, w: World, id: int, step: Step)
    requires setup.queue.throttle.Some? && Possible(setup, w, Statement(id, step))
    ensures PastTheGate(setup, w, Statement(id, step)) <= {id} - Counted(setup, w)
    ensures Completes(step) ==> PastTheGate(setup, w, Statement(id, step)) == {}
    ensures step.RequeueForRetry? && w.At(id).Row().nextRetryAt.Some? && w.At(id).Row().nextRetryAt.value > w.py ==>
              PastTheGate(setup, w, Statement(id, step)) == {}
  {
    StatementCounts(setup, w, id, step);
    if Completes(step) {
      CompletionsCountNothing(setup, w, id, step);
    } else if step.RequeueForRetry? {
      EtaIsNotCounted(setup, Apply(setup.cfg, w.At(id), step).Row(), w.db, w.py);
    }
  }

  lemma EtaIsNotCounted(setup: Setup, a: Attempt, db: Instant, py: Instant)
    ensures AwaitsEta(a, py) || a.status.Failed? || a.status.Success? ==> !InFlight(setup.cfg, a, setup.queue, db, py)
  {
    var cfg, queue := setup.cfg, setup.queue;
    InFlightFilterMeaning(a, queue.name, TtlWindow(cfg, queue), StaleBefore(cfg, py), db, py);
  }

  /** A row that is sent counts from that instant on, or once its ETA comes. */
  lemma SentIsCounted(setup: Setup, s: State, step: Step, py: Instant)
    requires setup.cfg.Valid() && Enabled(setup.cfg, s, step) && s.Exists() && setup.queue.Valid()
    requires || (step == RecordDispatch(setup.queue.name, py) && s.Row().status.Pending?)
             || (step == RequeueForRetry(setup.queue.name, py) && AwaitsRetry(s.Row()))
    ensures var after := Apply(setup.cfg, s, step).Row();
            InFlight(setup.cfg, after, setup.queue, s.now, py) || AwaitsEta(after, py)
  {
    var cfg, queue, after := setup.cfg, setup.queue, Apply(setup.cfg, s, step).Row();
    InFlightFilterMeaning(after, queue.name, TtlWindow(cfg, queue), StaleBefore(cfg, py), s.now, py);
  }

  /** Only the columns the count reads matter to it. */
  lemma SameColumnsCountAlike(setup: Setup, a: Attempt, b: Attempt, db: Instant, py: Instant)
    requires a.(giveUpAt := b.giveUpAt) == b
    ensures InFlight(setup.cfg, a, setup.queue, db, py) <==> InFlight(setup.cfg, b, setup.queue, db, py)
  {
    var cfg, queue := setup.cfg, setup.queue;
    InFlightFilterMeaning(a, queue.name, TtlWindow(cfg, queue), StaleBefore(cfg, py), db, py);
    InFlightFilterMeaning(b, queue.name, TtlWindow(cfg, queue), StaleBefore(cfg, py), db, py);
  }

  lemma CompletionsCountNothing(setup: Setup, w: World, id: int, step: Step)
    requires Enabled(setup.cfg, w.At(id), step) && Completes(step)
    ensures Counts(setup, Apply(setup.cfg, w.At(id), step), w.db, w.py) ==> Counts(setup, w.At(id), w.db, w.py)
  {
    var before, after := w.At(id), Apply(setup.cfg, w.At(id), step);
    if step.SetGiveUpDeadline? {
      SameColumnsCountAlike(setup, before.Row(), after.Row(), w.db, w.py);
    } else if after != before {
      EtaIsNotCounted(setup, after.Row(), w.db, w.py);
    }
  }

  // ---- the bound

  function Cached(w: World): int {
    if w.free.Some? then w.free.value else 0
  }

  /** The one attempt in flight by the doing of a submission that has not spent its room yet. */
  function Unspent(w: World): nat {
    if w.open.Some? && w.open.value.own then 1 else 0
  }

  /**
   * The cached room is never negative and covers the submission under way, and with the attempts in flight it stays
   * within `bound`, but for the one whose room is about to be spent.
   */
  ghost predicate Budgeted(setup: Setup, w: World, bound: int) {
    && Cached(w) >= 0
    && (w.open.Some? ==> Cached(w) >= 1)
    && (w.open.Some? && w.open.value.own ==> Counts(setup, w.At(w.open.value.id), w.db, w.py))
    && InFlightCount(setup, w) + Cached(w) <= bound + Unspent(w)
  }

  lemma SubsetIsSmaller(a: set<int>, b: set<int>)
    requires a <= b
    ensures |a| <= |b|
  {
    assert b == a + (b - a);
  }

  lemma UnionIsSmaller(a: set<int>, b: set<int>)
    ensures |a + b| <= |a| + |b|
  {
    assert a + b == a + (b - a);
    SubsetIsSmaller(b - a, b);
  }

  /** A set that loses one member and gains others. */
  lemma GainsAndLosses(before: set<int>, after: set<int>, id: int)
    ensures |after| <= |before| + |after - before| - if id in before && id !in after then 1 else 0
  {
    var kept := before - if id in before && id !in after then {id} else {};
    SubsetIsSmaller(after, kept + (after - before));
    UnionIsSmaller(kept, after - before);
  }

  /** What others and time leave of the submission under way: it owns its row's place only while the row is counted. */
  lemma OthersKeepOwn(setup: Setup, w: World, e: Event)
    requires setup.queue.throttle.Some? && Possible(setup, w, e) && (e.Statement? || e.Clock?)
    ensures var v := Next(setup, w, e);
            && v.free == w.free && (v.open.Some? <==> w.open.Some?)
            && (v.open.Some? ==>
                  && v.open.value.id == w.open.value.id
                  && (v.open.value.own <==>
                      w.open.value.own && Counts(setup, v.At(v.open.value.id), v.db, v.py)))
  {
  }

  /** Others add what goes past the gate; if the submission's own row leaves flight, there is one less. */
  lemma OthersKeepBudget(setup: Setup, w: World, e: Event, bound: int)
    requires setup.queue.throttle.Some? && Possible(setup, w, e) && (e.Statement? || e.Clock?)
    requires Budgeted(setup, w, bound)
    ensures Budgeted(setup, Next(setup, w, e), bound + |PastTheGate(setup, w, e)|)
  {
    var v := Next(setup, w, e);
    OthersKeepOwn(setup, w, e);
    var id := if w.open.Some? then w.open.value.id else 0;
    CountsIff(setup, w, id);
    CountsIff(setup, v, id);
    GainsAndLosses(Counted(setup, w), Counted(setup, v), id);
  }

  lemma OwnKeepsBudget(setup: Setup, w: World, step: Step, bound: int)
    requires setup.queue.throttle.Some? && Possible(setup, w, Own(step)) && Budgeted(setup, w, bound)
    ensures Budgeted(setup, Next(setup, w, Own(step)), bound)
  {
    var id := w.open.value.id;
    var after := Apply(setup.cfg, w.At(id), step);
    OneRowMovesCountByOne(setup, w, id, after);
    SameTableSameCount(setup, w.(table := w.table[id := after]), Next(setup, w, Own(step)));
  }

  lemma EventKeepsBudget(setup: Setup, w: World, e: Event, bound: int)
    requires setup.queue.throttle.Some? && Possible(setup, w, e)
    requires setup.queue.throttle.value <= bound && Budgeted(setup, w, bound)
    ensures Budgeted(setup, Next(setup, w, e), bound + |PastTheGate(setup, w, e)|)
  {
    if e.Statement? || e.Clock? {
      OthersKeepBudget(setup, w, e, bound);
    } else if e.Own? {
      OwnKeepsBudget(setup, w, e.step, bound);
    } else {
      SameTableSameCount(setup, w, Next(setup, w, e));
    }
  }

  /** All that a run puts in flight past the gate. */
  ghost function AllPastTheGate(setup: Setup, w: World, events: seq<Event>, v: World): nat
    requires setup.queue.throttle.Some? && Unfolds(setup, w, events, v)
    decreases |events|
  {
    if events == [] then 0
    else |PastTheGate(setup, w, events[0])| + AllPastTheGate(setup, Next(setup, w, events[0]), events[1..], v)
  }

  /**
   * However a gate's admissions, the statements of the submissions it admitted, other processes' statements and time
   * interleave: the attempts in flight never exceed the bound by more than what went past the gate.
   */
  lemma {:induction false} NeverAboveThrottle(setup: Setup, w: World, events: seq<Event>, v: World, bound: int)
    requires setup.queue.throttle.Some? && Unfolds(setup, w, events, v)
    requires setup.queue.throttle.value <= bound && Budgeted(setup, w, bound)
    ensures Budgeted(setup, v, bound + AllPastTheGate(setup, w, events, v))
    ensures InFlightCount(setup, v) <= bound + AllPastTheGate(setup, w, events, v)
    decreases |events|
  {
    if events != [] {
      EventKeepsBudget(setup, w, events[0], bound);
      NeverAboveThrottle(setup, Next(setup, w, events[0]), events[1..], v,
                         bound + |PastTheGate(setup, w, events[0])|);
    }
  }

  /** The gate's own submissions, claims of attempts in flight, completions, and time in which no retry comes due. */
  ghost predicate Quiet(setup: Setup, w: World, events: seq<Event>, v: World)
    requires setup.queue.throttle.Some? && Unfolds(setup, w, events, v)
    decreases |events|
  {
    events == [] ||
    (&& (events[0].Statement? ==> Completes(events[0].step) || ClaimsInFlight(setup, w, events[0]))
     && (events[0].Clock? ==> ComeDue(w, events[0].py) == {})
     && Quiet(setup, Next(setup, w, events[0]), events[1..], v))
  }

  /** A worker takes an attempt that is in flight. */
  predicate ClaimsInFlight(setup: Setup, w: World, e: Event) {
    e.Statement? && e.step.Claim? && Counts(setup, w.At(e.id), w.db, w.py)
  }

  lemma {:induction false} QuietPutsNothingPast(setup: Setup, w: World, events: seq<Event>, v: World)
    requires setup.queue.throttle.Some? && Unfolds(setup, w, events, v) && Quiet(setup, w, events, v)
    ensures AllPastTheGate(setup, w, events, v) == 0
    decreases |events|
  {
    if events != [] {
      var e := events[0];
      if e.Statement? {
        StatementsAddAtMostOne(setup, w, e.id, e.step);
        CountsIff(setup, w, e.id);
      } else if e.Clock? {
        TimeAddsOnlyRetries(setup, w, e.db, e.py);
      }
      QuietPutsNothingPast(setup, Next(setup, w, e), events[1..], v);
    }
  }

  /** So submissions and their runs alone keep a queue at or below its throttle, and an overfull one from growing. */
  lemma OverfullGateOnlyDrains(setup: Setup, w: World, events: seq<Event>, v: World)
    requires setup.queue.throttle.Some? && Unfolds(setup, w, events, v) && Quiet(setup, w, events, v)
    requires w.open.None? && Cached(w) >= 0
    requires Cached(w) > 0 ==> InFlightCount(setup, w) + Cached(w) <= setup.queue.throttle.value
    ensures InFlightCount(setup, w) <= setup.queue.throttle.value ==>
              InFlightCount(setup, v) <= setup.queue.throttle.value
    ensures InFlightCount(setup, v) <= setup.queue.throttle.value || InFlightCount(setup, v) <= InFlightCount(setup, w)
  {
    QuietPutsNothingPast(setup, w, events, v);
    var count, throttle := InFlightCount(setup, w), setup.queue.throttle.value;
    NeverAboveThrottle(setup, w, events, v, if count <= throttle then throttle else count);
  }

  /** A submission that ends in giving its row up, or that left its row alone, can close without a message. */
  lemma UnsentSubmissionsClose(setup: Setup, w: World, bound: int)
    requires Budgeted(setup, w, bound) && w.open.Some?
    requires var s := w.At(w.open.value.id); s.Exists() ==> s.Row().status.Failed? || !w.open.value.own
    ensures Possible(setup, w, Close(false))
  {
    var s := w.At(w.open.value.id);
    if s.Exists() {
      EtaIsNotCounted(setup, s.Row(), w.db, w.py);
    }
  }
}
