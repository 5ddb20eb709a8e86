/**
 * WHERE clauses in SQL's three-valued logic, and Django's compilation of a `Q` into one.
 *
 * A comparison with NULL is unknown, and so is its negation. Django therefore adds IS NOT NULL to
 * every comparison of a nullable column that stands under an odd number of negations, so that a
 * negated `Q` keeps the rows Python would keep.
 */
module Conditions {
  import opened Base
  import opened Attempts

  datatype Truth = Yes | No | Unknown

  function TruthOf(b: bool): Truth {
    if b then Yes else No
  }

  function TruthAnd(a: Truth, b: Truth): Truth {
    if a.No? || b.No? then No else if a.Yes? && b.Yes? then Yes else Unknown
  }

  function TruthOr(a: Truth, b: Truth): Truth {
    if a.Yes? || b.Yes? then Yes else if a.No? && b.No? then No else Unknown
  }

  function TruthNot(a: Truth): Truth {
    match a case Yes => No case No => Yes case Unknown => Unknown
  }

  /** The nullable columns that filters mention. */
  datatype TimeColumn = DispatchedAt | LeaseExpiresAt | NextRetryAt | GiveUpAt

  datatype Column = QueueName | Reason | ClaimToken | At(time: TimeColumn)

  datatype Comparison = Lt | Le | Ge | Gt

  predicate Compares(x: Instant, op: Comparison, y: Instant) {
    match op case Lt => x < y case Le => x <= y case Ge => x >= y case Gt => x > y
  }

  datatype Q =
    | Never
    | StatusIs(status: Status)
    | Updated(op: Comparison, t: Instant)
    | CountBelow(limit: int)
    | Null(column: Column)
    | NotNull(column: Column)
    | QueueIn(names: set<string>)
    | TokenIs(token: string)
    | Is(time: TimeColumn, op: Comparison, t: Instant)
    | And(left: Q, right: Q)
    | Or(left: Q, right: Q)
    | Not(inner: Q)

  function Time(column: TimeColumn, a: Attempt): Option<Instant> {
    match column
    case DispatchedAt => a.dispatchedAt
    case LeaseExpiresAt => a.leaseExpiresAt
    case NextRetryAt => a.nextRetryAt
    case GiveUpAt => a.giveUpAt
  }

  predicate IsNull(column: Column, a: Attempt) {
    match column
    case QueueName => a.dispatchQueue.None?
    case Reason => a.giveUpReason.None?
    case ClaimToken => a.claimToken.None?
    case At(time) => Time(time, a).None?
  }

  /** What the database makes of a clause on one row. */
  function Eval(q: Q, a: Attempt): Truth {
    match q
    case Never => No
    case StatusIs(status) => TruthOf(a.status == status)
    case Updated(op, t) => TruthOf(Compares(a.updatedAt, op, t))
    case CountBelow(limit) => TruthOf(a.attemptCount < limit)
    case Null(column) => TruthOf(IsNull(column, a))
    case NotNull(column) => TruthOf(!IsNull(column, a))
    case QueueIn(names) => if a.dispatchQueue.None? then Unknown else TruthOf(a.dispatchQueue.value in names)
    case TokenIs(token) => if a.claimToken.None? then Unknown else TruthOf(a.claimToken.value == token)
    case Is(time, op, t) => if Time(time, a).None? then Unknown else TruthOf(Compares(Time(time, a).value, op, t))
    case And(l, r) => TruthAnd(Eval(l, a), Eval(r, a))
    case Or(l, r) => TruthOr(Eval(l, a), Eval(r, a))
    case Not(inner) => TruthNot(Eval(inner, a))
  }

  /** The clause Django sends for `q`; `negated` says whether an odd number of negations surrounds it. */
  function Compile(q: Q, negated: bool): Q {
    match q
    case And(l, r) => And(Compile(l, negated), Compile(r, negated))
    case Or(l, r) => Or(Compile(l, negated), Compile(r, negated))
    case Not(inner) => Not(Compile(inner, !negated))
    case QueueIn(_) => if negated then And(q, NotNull(QueueName)) else q
    case TokenIs(_) => if negated then And(q, NotNull(ClaimToken)) else q
    case Is(time, _, _) => if negated then And(q, NotNull(At(time))) else q
    case _ => q
  }

  /** `q` read as Python reads it on a loaded row: a missing value satisfies no comparison. */
  predicate Holds(q: Q, a: Attempt) {
    match q
    case Never => false
    case StatusIs(status) => a.status == status
    case Updated(op, t) => Compares(a.updatedAt, op, t)
    case CountBelow(limit) => a.attemptCount < limit
    case Null(column) => IsNull(column, a)
    case NotNull(column) => !IsNull(column, a)
    case QueueIn(names) => a.dispatchQueue.Some? && a.dispatchQueue.value in names
    case TokenIs(token) => a.claimToken == Some(token)
    case Is(time, op, t) => Time(time, a).Some? && Compares(Time(time, a).value, op, t)
    case And(l, r) => Holds(l, a) && Holds(r, a)
    case Or(l, r) => Holds(l, a) || Holds(r, a)
    case Not(inner) => !Holds(inner, a)
  }

  /** Whether the database keeps the row: unknown counts as no. */
  predicate Selects(q: Q, a: Attempt) {
    Eval(Compile(q, false), a).Yes?
  }

  /** A compiled clause is yes exactly where Python holds, and under a negation no exactly where it does not. */
  lemma {:induction false} CompiledMatchesPython(q: Q, a: Attempt)
    ensures Eval(Compile(q, false), a).Yes? <==> Holds(q, a)
    ensures Eval(Compile(q, true), a).No? <==> !Holds(q, a)
  {
    match q
    case And(l, r) =>
      CompiledMatchesPython(l, a);
      CompiledMatchesPython(r, a);
    case Or(l, r) =>
      CompiledMatchesPython(l, a);
      CompiledMatchesPython(r, a);
    case Not(inner) =>
      CompiledMatchesPython(inner, a);
    case _ =>
  }
}
