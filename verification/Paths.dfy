/** Runs of the protocol as the states they pass through. */
module Paths {
  import opened Queues
  import opened Protocol
  import opened Guarantees

  /** One statement leads from state `i` of the path to the next. */
  ghost predicate Linked(cfg: Config, path: seq<State>, i: nat)
    requires i + 1 < |path|
  {
    exists step :: Enabled(cfg, path[i], step) && path[i + 1] == Apply(cfg, path[i], step)
  }

  ghost predicate Path(cfg: Config, path: seq<State>) {
    path != [] && forall i | 0 <= i < |path| - 1 :: Linked(cfg, path, i)
  }

  /** `t` follows from `s` by statements of the protocol. */
  ghost predicate Reaches(cfg: Config, s: State, t: State) {
    exists path :: Path(cfg, path) && path[0] == s && path[|path| - 1] == t
  }

  lemma ReachesItself(cfg: Config, s: State)
    ensures Reaches(cfg, s, s)
  {
    assert Path(cfg, [s]);
  }

  lemma OneStepReaches(cfg: Config, s: State, step: Step)
    requires Enabled(cfg, s, step)
    ensures Reaches(cfg, s, Apply(cfg, s, step))
  {
    var path := [s, Apply(cfg, s, step)];
    assert Linked(cfg, path, 0) by {
      assert Enabled(cfg, path[0], step) && path[1] == Apply(cfg, path[0], step);
    }
    assert Path(cfg, path);
  }

  lemma SameLink(cfg: Config, first: seq<State>, i: nat, second: seq<State>, j: nat)
    requires i + 1 < |first| && j + 1 < |second| && first[i] == second[j] && first[i + 1] == second[j + 1]
    requires Linked(cfg, first, i)
    ensures Linked(cfg, second, j)
  {
    var step :| Enabled(cfg, first[i], step) && first[i + 1] == Apply(cfg, first[i], step);
    assert Enabled(cfg, second[j], step);
  }

  lemma ReachesComposes(cfg: Config, s: State, t: State, u: State)
    requires Reaches(cfg, s, t) && Reaches(cfg, t, u)
    ensures Reaches(cfg, s, u)
  {
    var first :| Path(cfg, first) && first[0] == s && first[|first| - 1] == t;
    var second :| Path(cfg, second) && second[0] == t && second[|second| - 1] == u;
    var path := first + second[1..];
    forall i | 0 <= i < |path| - 1
      ensures Linked(cfg, path, i)
    {
      if i < |first| - 1 {
        assert Linked(cfg, first, i);
        SameLink(cfg, first, i, path, i);
      } else {
        assert Linked(cfg, second, i - |first| + 1);
        SameLink(cfg, second, i - |first| + 1, path, i);
      }
    }
    assert Path(cfg, path);
  }

  /** A path is a run. */
  lemma {:induction false} PathIsRun(cfg: Config, path: seq<State>) returns (steps: seq<Step>)
    requires Path(cfg, path)
    ensures Run(cfg, path[0], steps, path[|path| - 1])
    decreases |path|
  {
    steps := [];
    if |path| > 1 {
      assert Linked(cfg, path, 0);
      var step :| Enabled(cfg, path[0], step) && path[1] == Apply(cfg, path[0], step);
      forall i | 0 <= i < |path| - 2
        ensures Linked(cfg, path[1..], i)
      {
        assert Linked(cfg, path, i + 1);
        SameLink(cfg, path, i + 1, path[1..], i);
      }
      var rest := PathIsRun(cfg, path[1..]);
      steps := [step] + rest;
      assert steps[1..] == rest;
    }
  }

  /** A run passes along a path. */
  lemma {:induction false} RunIsPath(cfg: Config, s: State, steps: seq<Step>, t: State)
    requires Run(cfg, s, steps, t)
    ensures Reaches(cfg, s, t)
    decreases |steps|
  {
    if steps == [] {
      ReachesItself(cfg, s);
    } else {
      var u := Apply(cfg, s, steps[0]);
      OneStepReaches(cfg, s, steps[0]);
      RunIsPath(cfg, u, steps[1..], t);
      ReachesComposes(cfg, s, u, t);
    }
  }

  /** A state on a path from the start is reachable, and has the invariant. */
  lemma ReachedIsReachable(cfg: Config, s: State)
    requires cfg.Valid() && Reaches(cfg, START, s)
    ensures Reachable(cfg, s) && Invariant(cfg, s)
  {
    var path :| Path(cfg, path) && path[0] == START && path[|path| - 1] == s;
    var steps := PathIsRun(cfg, path);
    ReachableInvariant(cfg, s);
  }
}
