/** Admission of backfill and lookback submissions: a cached budget standing in for the real count. */
module Throttle {
  import opened Base
  import opened Queues

  function Room(throttle: int, inflight: int): nat {
    if throttle <= inflight then 0 else throttle - inflight
  }

  /** What a waiting gate meets each time it polls: whether to go on, and the attempts then in flight. */
  datatype Poll = Poll(goOn: bool, inflight: nat)

  /** What one pass through `admit` answers without waiting, and the budget it leaves, by the queue's own entry. */
  function AdmitOnce(free: Option<int>, wait: bool, throttle: int, inflight: nat): (bool, Option<int>) {
    if free.Some? && free.value > 0 then (true, free)
    else if free.Some? && !wait then (false, free)
    else (Room(throttle, inflight) > 0, Some(Room(throttle, inflight)))
  }

  function Entry(free: map<string, int>, name: string): Option<int> {
    if name in free then Some(free[name]) else None
  }

  /** A waiting gate with no room cached finds the queue full at its first read, and has to poll. */
  predicate Waits(wait: bool, free: Option<int>, throttle: int, inflight: nat) {
    wait && (free.None? || free.value <= 0) && throttle <= inflight
  }

  /** Poll `k` finds room, and none up to it said to stop. */
  predicate FindsRoom(polls: seq<Poll>, throttle: int, k: int) {
    0 <= k < |polls| && polls[k].inflight < throttle && forall j | 0 <= j <= k :: polls[j].goOn
  }

  /** Poll `k` is the first to find room. */
  predicate FirstRoom(polls: seq<Poll>, throttle: int, k: int) {
    FindsRoom(polls, throttle, k) && forall j | 0 <= j < k :: polls[j].inflight >= throttle
  }

  class ThrottleGate {
    const wait: bool
    var free: map<string, int>

    constructor (wait: bool)
      ensures Valid() && this.wait == wait && free == map[]
    {
      this.wait := wait;
      free := map[];
    }

    /** The cached room of a queue is never negative. */
    ghost predicate Valid()
      reads this
    {
      forall name | name in free :: free[name] >= 0
    }

    /**
     * Whether one more submission may go to `target`; None stands for a plain queue name. A waiting gate
     * polls until there is room, it is told to stop or `polls` runs out.
     */
    method Admit(target: Option<Queue>, inflight: nat, polls: seq<Poll>) returns (admitted: bool)
      requires Valid()
      modifies this
      ensures Valid()
      ensures target.None? || target.value.throttle.None? ==> admitted && free == old(free)
      ensures target.Some? && target.value.throttle.Some? ==>
                && (forall name | name != target.value.name :: Entry(free, name) == Entry(old(free), name))
                && target.value.name in free && (admitted <==> free[target.value.name] > 0)
      ensures target.Some? && target.value.throttle.Some?
              && (polls == []
                  || !Waits(wait, Entry(old(free), target.value.name), target.value.throttle.value, inflight)) ==>
                (admitted, Entry(free, target.value.name))
                == AdmitOnce(Entry(old(free), target.value.name), wait, target.value.throttle.value, inflight)
      ensures target.Some? && target.value.throttle.Some?
              && Waits(wait, Entry(old(free), target.value.name), target.value.throttle.value, inflight) ==>
                && (admitted <==> exists k :: FindsRoom(polls, target.value.throttle.value, k))
                && (admitted ==>
                      exists k :: FirstRoom(polls, target.value.throttle.value, k)
                                  && free[target.value.name] == target.value.throttle.value - polls[k].inflight)
    {
      if target.None? || target.value.throttle.None? {
        return true;
      }
      var name, throttle := target.value.name, target.value.throttle.value;
      if name in free && free[name] > 0 {
        return true;
      }
      if name in free && !wait {
        return false;
      }
      free := free[name := Room(throttle, inflight)];
      if free[name] > 0 {
        return true;
      }
      if !wait {
        return false;
      }
      var next := 0;
      while free[name] <= 0 && next < |polls|
        invariant 0 <= next <= |polls| && Valid() && name in free
        invariant forall other | other != name :: Entry(free, other) == Entry(old(free), other)
        invariant forall j | 0 <= j < next :: polls[j].goOn
        invariant forall j | 0 <= j < next - 1 :: polls[j].inflight >= throttle
        invariant free[name] == Room(throttle, if next == 0 then inflight else polls[next - 1].inflight)
        decreases |polls| - next
      {
        if !polls[next].goOn {
          return false;
        }
        free := free[name := Room(throttle, polls[next].inflight)];
        next := next + 1;
      }
      admitted := free[name] > 0;
      assert admitted ==> FirstRoom(polls, throttle, next - 1);
    }

    /** Accounts for a message that was sent to `target`, which the gate had admitted. */
    method Spent(target: Option<Queue>)
      requires Valid() && (target.Some? && target.value.name in free ==> free[target.value.name] > 0)
      modifies this
      ensures Valid()
      ensures free == if target.Some? && target.value.name in old(free)
                      then old(free)[target.value.name := old(free)[target.value.name] - 1] else old(free)
    {
      if target.Some? && target.value.name in free {
        free := free[target.value.name := free[target.value.name] - 1];
      }
    }
  }

  // ---- a lookback pass

  /** The blocks of one args set that a pass would send if there were room: not skipped, matching, and sendable. */
  function Sendable(from: int, upto: int, skip: set<int>, matches: int -> bool, sends: int -> bool): nat
    decreases upto - from
  {
    if upto <= from then 0
    else
      var last := upto - 1;
      Sendable(from, last, skip, matches, sends) + if last !in skip && matches(last) && sends(last) then 1 else 0
  }

  /** One args set of a task: the blocks already executed or in flight, its condition, and whether a send goes out. */
  datatype ArgsSet = ArgsSet(skip: set<int>, matches: int -> bool, sends: int -> bool)

  function AllSendable(argsSets: seq<ArgsSet>, from: int, upto: int): nat {
    if argsSets == [] then 0
    else
      var last := argsSets[|argsSets| - 1];
      AllSendable(argsSets[..|argsSets| - 1], from, upto) + Sendable(from, upto, last.skip, last.matches, last.sends)
  }

  function Least(a: nat, b: nat): nat {
    if a < b then a else b
  }

  /** The queue is read at the first admission of a pass, and the entry kept from then on. */
  ghost predicate ReadOnce(target: Queue, free: map<string, int>, asked: nat) {
    target.throttle.Some? ==> (target.name in free <==> asked > 0)
  }

  /**
   * One args set of a pass; `sent` messages went out before it, of `earlier` that could. `counts(k)` are the attempts
   * in flight when the pass asks for its admission number `k`, and `asked` is how often it has.
   */
  method SubmitArgs(gate: ThrottleGate, target: Queue, args: ArgsSet, from: int, to: int, counts: nat -> nat,
                    askedBefore: nat, sent: nat, ghost earlier: nat) returns (asked: nat, submitted: nat)
    requires gate.Valid() && !gate.wait && ReadOnce(target, gate.free, askedBefore)
    requires Budget(target, gate.free, counts(0), sent) && Spends(target, counts(0), sent, earlier)
    modifies gate
    ensures gate.Valid() && ReadOnce(target, gate.free, asked) && Budget(target, gate.free, counts(0), submitted)
    ensures Spends(target, counts(0), submitted,
                   earlier + Sendable(from, to + 1, args.skip, args.matches, args.sends))
  {
    asked, submitted := askedBefore, sent;
    for block := from to if to < from then from else to + 1
      invariant gate.Valid() && ReadOnce(target, gate.free, asked)
      invariant Budget(target, gate.free, counts(0), submitted)
      invariant Spends(target, counts(0), submitted,
                       earlier + Sendable(from, block, args.skip, args.matches, args.sends))
    {
      if block !in args.skip && args.matches(block) {
        var admitted := gate.Admit(Some(target), counts(asked), []);
        asked := asked + 1;
        if admitted && args.sends(block) {
          gate.Spent(Some(target));
          submitted := submitted + 1;
        }
      }
    }
  }

  /**
   * One lookback pass over `[from, to]` with a gate of its own, while the attempts in flight change as they may: it
   * sends everything sendable that fits the room at its first admission, and not a message more.
   */
  method ProcessItemRange(target: Queue, argsSets: seq<ArgsSet>, from: int, to: int, counts: nat -> nat)
    returns (submitted: nat)
    ensures target.throttle.Some? ==>
              submitted == Least(Room(target.throttle.value, counts(0)), AllSendable(argsSets, from, to + 1))
    ensures target.throttle.None? ==> submitted == AllSendable(argsSets, from, to + 1)
  {
    var gate := new ThrottleGate(false);
    var asked := 0;
    submitted := 0;
    for i := 0 to |argsSets|
      invariant gate.Valid() && fresh(gate) && ReadOnce(target, gate.free, asked)
      invariant Budget(target, gate.free, counts(0), submitted)
      invariant Spends(target, counts(0), submitted, AllSendable(argsSets[..i], from, to + 1))
    {
      asked, submitted := SubmitArgs(gate, target, argsSets[i], from, to, counts, asked, submitted,
                                     AllSendable(argsSets[..i], from, to + 1));
      assert argsSets[..i + 1][..i] == argsSets[..i];
    }
    assert argsSets[..|argsSets|] == argsSets;
  }

  /** The gate's entry is the room at the read less what was sent, or the queue was not read yet. */
  ghost predicate Budget(target: Queue, free: map<string, int>, inflight: nat, submitted: nat) {
    if target.throttle.None? then free == map[]
    else if target.name in free then free[target.name] == Room(target.throttle.value, inflight) - submitted
    else submitted == 0
  }

  ghost predicate Spends(target: Queue, inflight: nat, submitted: nat, sendable: nat) {
    submitted == if target.throttle.None? then sendable else Least(Room(target.throttle.value, inflight), sendable)
  }
}
