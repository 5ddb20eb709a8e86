/**
 * The database writes of the task functions. A run's writes share a transaction with the UPDATE that records
 * its outcome, so they commit with that UPDATE or not at all.
 */
module Writes {
  import opened Queues
  import opened Protocol
  import opened Guarantees

  /** A committed transaction: its statement on the row, and whether it holds the writes of the run it speaks for. */
  datatype Transaction = Transaction(step: Step, carries: bool)

  /** The runs whose writes are in the database after `tx`; an UPDATE that matched no row rolled them back. */
  function Committed(cfg: Config, s: State, written: set<nat>, tx: Transaction): set<nat>
    requires Enabled(cfg, s, tx.step)
  {
    if tx.carries && RecordsOutcome(tx.step) && EffectOf(cfg, s, tx.step).End? then written + {tx.step.run} else written
  }

  /** `txs` leads from `s` with the writes `before` to `t` with the writes `after`. */
  ghost predicate RunWrites(cfg: Config, s: State, before: set<nat>, txs: seq<Transaction>, t: State, after: set<nat>)
    decreases |txs|
  {
    if txs == [] then s == t && before == after
    else
      && Enabled(cfg, s, txs[0].step)
      && RunWrites(cfg, Apply(cfg, s, txs[0].step), Committed(cfg, s, before, txs[0]), txs[1..], t, after)
  }

  /** Run `run` has recorded no outcome. */
  ghost predicate Unended(s: State, run: nat) {
    forall i | 0 <= i < |s.closed| :: !EndedBy(s.closed[i], run)
  }

  /** Writes are committed only of runs that recorded an outcome. */
  ghost predicate WritesHaveOutcomes(s: State, written: set<nat>) {
    forall run | run in written :: !Unended(s, run)
  }

  lemma EndedStaysEnded(s: State, t: State, run: nat)
    requires !Unended(s, run) && s.closed <= t.closed
    ensures !Unended(t, run)
  {
    var i :| 0 <= i < |s.closed| && EndedBy(s.closed[i], run);
    assert EndedBy(t.closed[i], run);
  }

  lemma WritesKeepOutcomes(s: State, t: State, written: set<nat>)
    requires WritesHaveOutcomes(s, written) && s.closed <= t.closed
    ensures WritesHaveOutcomes(t, written)
  {
    forall run | run in written
      ensures !Unended(t, run)
    {
      EndedStaysEnded(s, t, run);
    }
  }

  lemma OutcomeIsRecorded(cfg: Config, s: State, step: Step)
    requires Enabled(cfg, s, step) && RecordsOutcome(step) && EffectOf(cfg, s, step).End?
    ensures !Unended(Apply(cfg, s, step), step.run)
  {
    var t := Apply(cfg, s, step);
    assert EndedBy(t.closed[|s.closed|], step.run);
  }

  lemma TransactionKeepsWrites(cfg: Config, s: State, written: set<nat>, tx: Transaction)
    requires cfg.Valid() && Invariant(cfg, s) && Enabled(cfg, s, tx.step) && WritesHaveOutcomes(s, written)
    ensures WritesHaveOutcomes(Apply(cfg, s, tx.step), Committed(cfg, s, written, tx))
  {
    StepEvolves(cfg, s, tx.step);
    WritesKeepOutcomes(s, Apply(cfg, s, tx.step), written);
    if Committed(cfg, s, written, tx) != written {
      OutcomeIsRecorded(cfg, s, tx.step);
    }
  }

  /** Forgetting the writes leaves a run of the protocol. */
  lemma {:induction false} WritesFollowTheProtocol(cfg: Config, s: State, before: set<nat>, txs: seq<Transaction>,
                                                   t: State, after: set<nat>)
    returns (steps: seq<Step>)
    requires RunWrites(cfg, s, before, txs, t, after)
    ensures |steps| == |txs| && (forall i | 0 <= i < |txs| :: steps[i] == txs[i].step) && Run(cfg, s, steps, t)
    decreases |txs|
  {
    if txs == [] {
      steps := [];
    } else {
      var rest := WritesFollowTheProtocol(
        cfg, Apply(cfg, s, txs[0].step), Committed(cfg, s, before, txs[0]), txs[1..], t, after);
      steps := [txs[0].step] + rest;
      assert steps[1..] == rest;
    }
  }

  lemma {:induction false} RunsKeepWrites(cfg: Config, s: State, before: set<nat>, txs: seq<Transaction>,
                                          t: State, after: set<nat>)
    requires cfg.Valid() && Invariant(cfg, s) && WritesHaveOutcomes(s, before)
    requires RunWrites(cfg, s, before, txs, t, after)
    ensures WritesHaveOutcomes(t, after) && before <= after
    decreases |txs|
  {
    if txs != [] {
      StepKeepsInvariant(cfg, s, txs[0].step);
      TransactionKeepsWrites(cfg, s, before, txs[0]);
      RunsKeepWrites(cfg, Apply(cfg, s, txs[0].step), Committed(cfg, s, before, txs[0]), txs[1..], t, after);
    }
  }

  /** On every run with distinct tokens: a run's writes are in the database only if it ended its own claim. */
  lemma WritesAreFenced(cfg: Config, txs: seq<Transaction>, s: State, written: set<nat>, run: nat)
    requires cfg.Valid() && RunWrites(cfg, START, {}, txs, s, written) && DistinctTokens(s.claims) && run in written
    ensures run < |s.closed| && EndedBy(s.closed[run], run)
  {
    RunsKeepWrites(cfg, START, {}, txs, s, written);
    var steps := WritesFollowTheProtocol(cfg, START, {}, txs, s, written);
    var i :| 0 <= i < |s.closed| && EndedBy(s.closed[i], run);
    OutcomesAreFenced(cfg, s, i, run);
  }

  /** So a worker whose claim ended otherwise has no writes in the database, then or after any further run. */
  lemma TakenOverWritesNothing(cfg: Config, txs: seq<Transaction>, s: State, written: set<nat>,
                               more: seq<Transaction>, t: State, after: set<nat>, run: nat)
    requires cfg.Valid() && RunWrites(cfg, START, {}, txs, s, written) && RunWrites(cfg, s, written, more, t, after)
    requires DistinctTokens(t.claims) && run < |s.closed| && !EndedBy(s.closed[run], run)
    ensures run !in written && run !in after
  {
    RunsKeepWrites(cfg, START, {}, txs, s, written);
    var first := WritesFollowTheProtocol(cfg, START, {}, txs, s, written);
    var steps := WritesFollowTheProtocol(cfg, s, written, more, t, after);
    ReachableInvariant(cfg, s);
    RunsKeepWrites(cfg, s, written, more, t, after);
    if run in after {
      var i :| 0 <= i < |t.closed| && EndedBy(t.closed[i], run);
      TakenOverCommitsNothing(cfg, s, steps, t, run, i);
      assert false;
    }
  }
}
