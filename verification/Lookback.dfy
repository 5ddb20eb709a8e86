/**
 * Live polling and lookback, for `@block_task` tasks and the tasks of a `BlockDumper`: every poll processes
 * the head and fills the trailing window behind it.
 */
module Lookback {
  import opened Base
  import opened Attempts
  import opened Queues
  import Throttle

  /** An attempt's identity. */
  datatype Key = Key(path: string, args: string, block: int)

  /**
   * A registered task; its condition may raise, which is None here. `target` is where lookback and backfill
   * submissions of a `BlockDumper` task go; a `@block_task` task has none.
   */
  datatype Item = Item(
    path: string,
    args: seq<string>,
    condition: (int, string) -> Option<bool>,
    lookback: Option<int>,
    target: Option<Queue>)
  {
    predicate Unthrottled() {
      target.None? || target.value.throttle.None?
    }

    predicate Matches(block: int, args: string) {
      condition(block, args) == Some(true)
    }
  }

  /** Where Python's `range(from, to + 1)` stops; an inverted range is empty. */
  function RangeEnd(from: int, to: int): int {
    if to < from then from else to + 1
  }

  // ---- submissions

  /** Whether submitting the key sends a message now: a missing row is created, a waiting or exhausted one is left. */
  predicate Sends(rows: map<Key, Attempt>, key: Key, maxAttempts: int, py: Instant) {
    key in rows ==>
      var a := rows[key];
      || a.status.Pending?
      || (a.status.Failed? && a.attemptCount < maxAttempts && (a.nextRetryAt.None? || a.nextRetryAt.value <= py))
  }

  /** The rows after a submission. */
  function Submitted(rows: map<Key, Attempt>, key: Key, maxAttempts: int, py: Instant): map<Key, Attempt> {
    if !Sends(rows, key, maxAttempts, py) then rows
    else if key !in rows then rows[key := NewAttempt(key.block, py)]
    else rows[key := rows[key].(status := Pending, updatedAt := py)]
  }

  class AttemptTable {
    const maxAttempts: int
    /** No other process writes the table. */
    ghost const alone: bool
    var rows: map<Key, Attempt>

    constructor (maxAttempts: int, ghost alone: bool)
      ensures this.maxAttempts == maxAttempts && this.alone == alone && rows == map[]
    {
      this.maxAttempts := maxAttempts;
      this.alone := alone;
      rows := map[];
    }

    /** Gets or creates the attempt, reopens a failed one whose retry is due, stamps it and sends it. */
    method Execute(key: Key, py: Instant) returns (sent: bool)
      modifies this
      ensures sent == Sends(old(rows), key, maxAttempts, py)
      ensures rows == Submitted(old(rows), key, maxAttempts, py)
      ensures key in rows
    {
      var created := key !in rows;
      if created {
        rows := rows[key := NewAttempt(key.block, py)];
      } else {
        var task := rows[key];
        if task.status.Failed? && task.attemptCount < maxAttempts
           && (task.nextRetryAt.None? || task.nextRetryAt.value <= py)
        {
          rows := rows[key := task.(status := Pending, updatedAt := py)];
        }
      }
      if !created && !rows[key].status.Pending? {
        return false;
      }
      rows := rows[key := rows[key].(updatedAt := py)];
      return true;
    }

    /** The same for a `BlockDumper` task: some row is there afterwards; `Workers.Execute` says which. */
    method ExecuteOnQueue(key: Key) returns (sent: bool)
      modifies this
      ensures key in rows && rows.Keys == old(rows).Keys + {key}
      ensures forall other | other in rows && other != key :: rows[other] == old(rows)[other]
    {
      var row: Attempt := *;
      rows := rows[key := row];
      sent := *;
    }

    method Submit(item: Item, args: string, block: int, py: Instant) returns (sent: bool)
      modifies this
      ensures Key(item.path, args, block) in rows && rows.Keys == old(rows).Keys + {Key(item.path, args, block)}
      ensures forall other | other in rows && other != Key(item.path, args, block) :: rows[other] == old(rows)[other]
    {
      if item.target.Some? {
        sent := ExecuteOnQueue(Key(item.path, args, block));
      } else {
        sent := Execute(Key(item.path, args, block), py);
      }
    }

    /** Blocks of `[from, upto)` whose attempt succeeded. */
    method ExecutedBlockNumbers(path: string, args: string, from: int, upto: int) returns (blocks: set<int>)
      ensures forall b :: b in blocks <==> from <= b < upto && HasStatus(rows, Key(path, args, b), {Success})
    {
      blocks := set key | key in rows.Keys && key.path == path && key.args == args && from <= key.block < upto
                          && rows[key].status == Success :: key.block;
      assert forall b :: b in blocks ==> Key(path, args, b) in rows.Keys;
    }

    /** Blocks of `[from, upto)` whose attempt is waiting or running. */
    method InflightBlockNumbers(path: string, args: string, from: int, upto: int) returns (blocks: set<int>)
      ensures forall b :: b in blocks <==> from <= b < upto && HasStatus(rows, Key(path, args, b), {Pending, Running})
    {
      blocks := set key | key in rows.Keys && key.path == path && key.args == args && from <= key.block < upto
                          && rows[key].status in {Pending, Running} :: key.block;
      assert forall b :: b in blocks ==> Key(path, args, b) in rows.Keys;
    }

    /**
     * What a lookback pass skips: two queries, with other processes at work between them. Every skipped block has a
     * row; alone, what is left has no attempt yet, or one that failed.
     */
    method SkipBlocks(path: string, args: string, from: int, to: int) returns (skip: set<int>)
      modifies this
      ensures old(rows).Keys <= rows.Keys && (alone ==> rows == old(rows))
      ensures forall block | block in skip :: from <= block <= to && Key(path, args, block) in rows
      ensures alone ==> forall block | from <= block <= to :: block !in skip <==>
                Key(path, args, block) !in rows || rows[Key(path, args, block)].status.Failed?
    {
      skip := ExecutedBlockNumbers(path, args, from, to + 1);
      Meanwhile();
      var inflight := InflightBlockNumbers(path, args, from, to + 1);
      skip := skip + inflight;
    }

    /** Other processes at work: workers, other schedulers and backfills write rows; none deletes one. */
    method Meanwhile()
      modifies this
      ensures old(rows).Keys <= rows.Keys && (alone ==> rows == old(rows))
    {
    }
  }

  predicate HasStatus(rows: map<Key, Attempt>, key: Key, statuses: set<Status>) {
    key in rows && rows[key].status in statuses
  }

  /** Skipping loses nothing: the row is there, and only PENDING ones of them would be sent, a second time. */
  lemma SkippedIsHandled(rows: map<Key, Attempt>, key: Key, maxAttempts: int, py: Instant)
    ensures Skipped(rows, key) ==> key in rows && (Sends(rows, key, maxAttempts, py) <==> rows[key].status.Pending?)
    ensures !Skipped(rows, key) ==>
              (Sends(rows, key, maxAttempts, py) <==>
               key in rows ==> rows[key].attemptCount < maxAttempts
                               && (rows[key].nextRetryAt.None? || rows[key].nextRetryAt.value <= py))
  {
  }

  predicate Skipped(rows: map<Key, Attempt>, key: Key) {
    key in rows && !rows[key].status.Failed?
  }

  /** Every matching block of the range has an attempt, for every args set. */
  ghost predicate Covered(rows: map<Key, Attempt>, item: Item, from: int, to: int) {
    forall i, block | 0 <= i < |item.args| && from <= block <= to && item.Matches(block, item.args[i]) ::
      Key(item.path, item.args[i], block) in rows
  }

  /** Rows were only added, or changed where the item's condition matched. */
  ghost predicate OnlyMatching(before: map<Key, Attempt>, after: map<Key, Attempt>, item: Item) {
    && before.Keys <= after.Keys
    && forall key | key in after && (key.path != item.path || !item.Matches(key.block, key.args)) ::
         key in before && after[key] == before[key]
  }

  /** A block whose condition would be evaluated and raise. */
  ghost predicate Raises(rows: map<Key, Attempt>, item: Item, args: string, block: int) {
    item.condition(block, args).None? && !Skipped(rows, Key(item.path, args, block))
  }

  /** A raising pair stays one: only matching keys are ever written. */
  lemma RaisesIsStable(before: map<Key, Attempt>, after: map<Key, Attempt>, item: Item, args: string, block: int)
    requires OnlyMatching(before, after, item)
    ensures Raises(before, item, args, block) <==> Raises(after, item, args, block)
  {
    var key := Key(item.path, args, block);
    assert item.condition(block, args).None? ==> !item.Matches(key.block, key.args);
  }

  /** A gate never holds an entry for a queue without a throttle. */
  ghost predicate GateFits(gate: Throttle.ThrottleGate, item: Item)
    reads gate
  {
    gate.Valid() && (item.target.Some? && item.Unthrottled() ==> item.target.value.name !in gate.free)
  }

  /** Submits a matching block if its queue has room, and always without a throttle; a message takes up room. */
  method SubmitAdmitted(table: AttemptTable, gate: Throttle.ThrottleGate, item: Item, args: string, block: int,
                        inflight: nat, py: Instant) returns (sent: bool)
    requires GateFits(gate, item)
    modifies table, gate
    ensures GateFits(gate, item)
    ensures old(table.rows).Keys <= table.rows.Keys
    ensures item.Unthrottled() ==> Key(item.path, args, block) in table.rows
    ensures forall other | other in table.rows && other != Key(item.path, args, block) ::
              other in old(table.rows) && table.rows[other] == old(table.rows)[other]
    ensures !item.Unthrottled() ==>
              var name, throttle := item.target.value.name, item.target.value.throttle.value;
              var entry := Throttle.Entry(old(gate.free), name);
              var (admitted, room) := Throttle.AdmitOnce(entry, gate.wait, throttle, inflight);
              && (sent ==> admitted) && (!admitted ==> table.rows == old(table.rows))
              && room.Some? && Throttle.Entry(gate.free, name) == Some(room.value - if sent then 1 else 0)
  {
    sent := false;
    var admitted := gate.Admit(item.target, inflight, []);
    if admitted {
      sent := table.Submit(item, args, block, py);
      if sent && item.target.Some? {
        gate.Spent(item.target);
      }
    }
  }

  /** What one args set of a pass did to the blocks before `end`; no other row changed. */
  ghost predicate ArgsScanned(before: map<Key, Attempt>, after: map<Key, Attempt>, item: Item, args: string,
                              from: int, end: int)
  {
    && OnlyMatching(before, after, item)
    && (forall b | from <= b < end :: !Raises(before, item, args, b))
    && (forall b | from <= b < end && item.Matches(b, args) && item.Unthrottled() :: Key(item.path, args, b) in after)
    && (forall key | key in after && !(key.path == item.path && key.args == args && from <= key.block < end) ::
          key in before && after[key] == before[key])
  }

  /** Where an args set ended: at the block that raised, or behind the range. */
  function EndOf(raisedAt: Option<int>, from: int, to: int): int {
    if raisedAt.Some? then raisedAt.value else RangeEnd(from, to)
  }

  /**
   * One args set of a lookback pass, with other processes at work before every block; a condition that raises ends
   * the pass. What matched before that has a row; alone, later blocks keep theirs.
   */
  method ProcessArgs(table: AttemptTable, gate: Throttle.ThrottleGate, item: Item, args: string, from: int, to: int)
    returns (raisedAt: Option<int>)
    requires GateFits(gate, item)
    modifies table, gate
    ensures GateFits(gate, item) && old(table.rows).Keys <= table.rows.Keys
    ensures raisedAt.Some? ==> from <= raisedAt.value <= to && item.condition(raisedAt.value, args).None?
    ensures forall b | from <= b < EndOf(raisedAt, from, to) && item.Matches(b, args) && item.Unthrottled() ::
              Key(item.path, args, b) in table.rows
    ensures table.alone ==> ArgsScanned(old(table.rows), table.rows, item, args, from, EndOf(raisedAt, from, to))
    ensures table.alone && raisedAt.Some? ==> Raises(old(table.rows), item, args, raisedAt.value)
  {
    raisedAt := None;
    var skip := table.SkipBlocks(item.path, args, from, to);
    for block := from to RangeEnd(from, to)
      invariant GateFits(gate, item) && old(table.rows).Keys <= table.rows.Keys
      invariant forall b | b in skip :: Key(item.path, args, b) in table.rows
      invariant forall b | from <= b < block && item.Matches(b, args) && item.Unthrottled() ::
                  Key(item.path, args, b) in table.rows
      invariant table.alone ==> ArgsScanned(old(table.rows), table.rows, item, args, from, block)
    {
      table.Meanwhile();
      if block !in skip {
        var matches := item.condition(block, args);
        if matches.None? {
          return Some(block);
        }
        if matches.value {
          var inflight: nat := *;
          var py: Instant := *;
          var _ := SubmitAdmitted(table, gate, item, args, block, inflight, py);
        }
      }
    }
  }

  /** A place in the order of a pass: args sets first, blocks within. */
  datatype Place = Place(index: nat, block: int)

  predicate Before(index: int, block: int, stop: Place) {
    index < stop.index || (index == stop.index && block < stop.block)
  }

  /** The pass comes by this key before `stop`. */
  ghost predicate Met(item: Item, from: int, to: int, stop: Place, key: Key) {
    && key.path == item.path && from <= key.block <= to
    && exists j :: 0 <= j < |item.args| && item.args[j] == key.args && Before(j, key.block, stop)
  }

  /** What a pass did up to `stop`: nothing raised there, what matched has a row, and every other row is as it was. */
  ghost predicate Scanned(before: map<Key, Attempt>, after: map<Key, Attempt>, item: Item, from: int, to: int,
                          stop: Place)
  {
    && OnlyMatching(before, after, item)
    && (forall j, b | 0 <= j < |item.args| && from <= b <= to && Before(j, b, stop) ::
          !Raises(before, item, item.args[j], b))
    && (forall j, b | 0 <= j < |item.args| && from <= b <= to && Before(j, b, stop) ::
          item.Matches(b, item.args[j]) && item.Unthrottled() ==> Key(item.path, item.args[j], b) in after)
    && (forall key | key in after && !Met(item, from, to, stop, key) :: key in before && after[key] == before[key])
  }

  /** One more args set, whole or up to the block that raised. */
  lemma ScanGoesOn(start: map<Key, Attempt>, before: map<Key, Attempt>, after: map<Key, Attempt>, item: Item,
                   from: int, to: int, i: nat, end: int)
    requires i < |item.args| && Scanned(start, before, item, from, to, Place(i, from))
    requires ArgsScanned(before, after, item, item.args[i], from, end) && from <= end <= RangeEnd(from, to)
    ensures Scanned(start, after, item, from, to, Place(i, end))
  {
    forall b
      ensures Raises(start, item, item.args[i], b) <==> Raises(before, item, item.args[i], b)
    {
      RaisesIsStable(start, before, item, item.args[i], b);
    }
    forall key | key in after && !Met(item, from, to, Place(i, end), key)
      ensures key in start && after[key] == start[key]
    {
      MetGrows(item, from, to, Place(i, from), Place(i, end), key);
      assert key.path == item.path && key.args == item.args[i] && from <= key.block < end ==>
             item.args[i] == key.args && Before(i, key.block, Place(i, end));
      assert key in before;
    }
  }

  lemma MetGrows(item: Item, from: int, to: int, stop: Place, later: Place, key: Key)
    requires stop.index < later.index || (stop.index == later.index && stop.block <= later.block)
    ensures Met(item, from, to, stop, key) ==> Met(item, from, to, later, key)
  {
    if Met(item, from, to, stop, key) {
      var j :| 0 <= j < |item.args| && item.args[j] == key.args && Before(j, key.block, stop);
      assert Before(j, key.block, later);
    }
  }

  /** Where a whole args set ends the next one begins. */
  lemma NextArgs(before: map<Key, Attempt>, after: map<Key, Attempt>, item: Item, from: int, to: int, i: nat)
    requires Scanned(before, after, item, from, to, Place(i, RangeEnd(from, to)))
    ensures Scanned(before, after, item, from, to, Place(i + 1, from))
  {
    forall key
      ensures Met(item, from, to, Place(i, RangeEnd(from, to)), key) <==> Met(item, from, to, Place(i + 1, from), key)
    {
      assert forall j :: from <= key.block <= to ==>
               (Before(j, key.block, Place(i, RangeEnd(from, to))) <==> Before(j, key.block, Place(i + 1, from)));
    }
  }

  /** The first block of the range, if any, whose condition the pass would evaluate and see raise. */
  ghost function FirstRaising(rows: map<Key, Attempt>, item: Item, args: string, from: int, to: int): int
    decreases RangeEnd(from, to) - from
  {
    if to < from || Raises(rows, item, args, from) then from else FirstRaising(rows, item, args, from + 1, to)
  }

  lemma {:induction false} FirstRaisingIsFirst(rows: map<Key, Attempt>, item: Item, args: string, from: int, to: int,
                                               first: int)
    requires from <= first <= RangeEnd(from, to) && (first <= to ==> Raises(rows, item, args, first))
    requires forall b | from <= b < first :: !Raises(rows, item, args, b)
    ensures FirstRaising(rows, item, args, from, to) == first
    decreases RangeEnd(from, to) - from
  {
    if from <= to && from < first {
      FirstRaisingIsFirst(rows, item, args, from + 1, to, first);
    }
  }

  /** Where a pass over these rows stops, counted from args set `i` on: its first raise, or behind the last set. */
  ghost function FirstRaise(rows: map<Key, Attempt>, item: Item, from: int, to: int, i: nat): Place
    requires i <= |item.args|
    decreases |item.args| - i
  {
    if i == |item.args| then Place(i, from)
    else
      var block := FirstRaising(rows, item, item.args[i], from, to);
      if block <= to then Place(i, block) else FirstRaise(rows, item, from, to, i + 1)
  }

  lemma {:induction false} StopIsFirstRaise(rows: map<Key, Attempt>, item: Item, from: int, to: int, stop: Place,
                                            i: nat)
    requires i <= stop.index <= |item.args| && (stop.index == |item.args| ==> stop.block == from)
    requires stop.index < |item.args| ==>
               from <= stop.block <= to && Raises(rows, item, item.args[stop.index], stop.block)
    requires forall j, b | 0 <= j < |item.args| && from <= b <= to && Before(j, b, stop) ::
               !Raises(rows, item, item.args[j], b)
    ensures FirstRaise(rows, item, from, to, i) == stop
    decreases |item.args| - i
  {
    if i < |item.args| {
      var args := item.args[i];
      if i < stop.index {
        assert forall b | from <= b < RangeEnd(from, to) :: Before(i, b, stop);
        FirstRaisingIsFirst(rows, item, args, from, to, RangeEnd(from, to));
        StopIsFirstRaise(rows, item, from, to, stop, i + 1);
      } else {
        assert forall b | from <= b < stop.block :: Before(i, b, stop);
        FirstRaisingIsFirst(rows, item, args, from, to, stop.block);
      }
    }
  }

  /** Every matching block that a pass over these rows meets only from its first raise on has a row already. */
  ghost predicate NothingLost(rows: map<Key, Attempt>, item: Item, from: int, to: int) {
    forall j, b | 0 <= j < |item.args| && from <= b <= to && item.Matches(b, item.args[j]) ::
      || Met(item, from, to, FirstRaise(rows, item, from, to, 0), Key(item.path, item.args[j], b))
      || Key(item.path, item.args[j], b) in rows
  }

  lemma CoveredIff(before: map<Key, Attempt>, after: map<Key, Attempt>, item: Item, from: int, to: int)
    requires Scanned(before, after, item, from, to, FirstRaise(before, item, from, to, 0)) && item.Unthrottled()
    ensures Covered(after, item, from, to) <==> NothingLost(before, item, from, to)
  {
    var stop := FirstRaise(before, item, from, to, 0);
    forall j, b | 0 <= j < |item.args| && from <= b <= to && item.Matches(b, item.args[j])
      ensures Key(item.path, item.args[j], b) in after <==>
              Met(item, from, to, stop, Key(item.path, item.args[j], b)) || Key(item.path, item.args[j], b) in before
    {
      var key := Key(item.path, item.args[j], b);
      if Met(item, from, to, stop, key) {
        var k :| 0 <= k < |item.args| && item.args[k] == key.args && Before(k, key.block, stop);
        assert item.Matches(b, item.args[k]);
      }
    }
  }

  /** What matched before `stop` has a row. */
  ghost predicate CoveredBefore(rows: map<Key, Attempt>, item: Item, from: int, to: int, stop: Place) {
    forall j, b | 0 <= j < |item.args| && from <= b <= to && Before(j, b, stop) && item.Matches(b, item.args[j]) ::
      Key(item.path, item.args[j], b) in rows
  }

  lemma CoveredBeforeGoesOn(before: map<Key, Attempt>, after: map<Key, Attempt>, item: Item, from: int, to: int, i: nat,
                            end: int)
    requires i < |item.args| && CoveredBefore(before, item, from, to, Place(i, from)) && before.Keys <= after.Keys
    requires forall b | from <= b < end && item.Matches(b, item.args[i]) :: Key(item.path, item.args[i], b) in after
    ensures CoveredBefore(after, item, from, to, Place(i, end))
    ensures end == RangeEnd(from, to) ==> CoveredBefore(after, item, from, to, Place(i + 1, from))
  {
    assert forall j, b | 0 <= j < |item.args| && from <= b <= to && Before(j, b, Place(i, end)) ::
             Before(j, b, Place(i, from)) || (j == i && b < end);
    assert forall j, b | 0 <= j < |item.args| && from <= b <= to && Before(j, b, Place(i + 1, from)) ::
             Before(j, b, Place(i, from)) || j == i;
  }

  /**
   * A lookback pass over `[from, to]`, with other processes at work throughout. It is stopped by a condition that
   * raises, and not only for that block; what matched before has a row if the task is unthrottled. Alone, it stops
   * exactly at the first raise, and the range is covered exactly if nothing is lost by that.
   */
  method ProcessItemRange(table: AttemptTable, item: Item, from: int, to: int) returns (stop: Place)
    modifies table
    ensures old(table.rows).Keys <= table.rows.Keys && stop.index <= |item.args|
    ensures stop.index < |item.args| ==>
              from <= stop.block <= to && item.condition(stop.block, item.args[stop.index]).None?
    ensures item.Unthrottled() ==> CoveredBefore(table.rows, item, from, to, stop)
    ensures item.Unthrottled() && stop.index == |item.args| ==> Covered(table.rows, item, from, to)
    ensures table.alone ==>
              && stop == FirstRaise(old(table.rows), item, from, to, 0)
              && Scanned(old(table.rows), table.rows, item, from, to, stop)
    ensures table.alone && item.Unthrottled() ==>
              (Covered(table.rows, item, from, to) <==> NothingLost(old(table.rows), item, from, to))
  {
    var gate := new Throttle.ThrottleGate(false);
    for i := 0 to |item.args|
      invariant GateFits(gate, item) && fresh(gate) && old(table.rows).Keys <= table.rows.Keys
      invariant item.Unthrottled() ==> CoveredBefore(table.rows, item, from, to, Place(i, from))
      invariant table.alone ==> Scanned(old(table.rows), table.rows, item, from, to, Place(i, from))
    {
      ghost var before := table.rows;
      var raisedAt := ProcessArgs(table, gate, item, item.args[i], from, to);
      if item.Unthrottled() {
        CoveredBeforeGoesOn(before, table.rows, item, from, to, i, EndOf(raisedAt, from, to));
      }
      if table.alone {
        ScanGoesOn(old(table.rows), before, table.rows, item, from, to, i, EndOf(raisedAt, from, to));
      }
      if raisedAt.Some? {
        stop := Place(i, raisedAt.value);
        if table.alone {
          RaisesIsStable(old(table.rows), before, item, item.args[i], raisedAt.value);
          StoppedAt(old(table.rows), table.rows, item, from, to, stop);
        }
        return;
      }
      if table.alone {
        NextArgs(old(table.rows), table.rows, item, from, to, i);
      }
    }
    stop := Place(|item.args|, from);
    assert forall j, b | 0 <= j < |item.args| && from <= b <= to :: Before(j, b, stop);
    if table.alone {
      StoppedAt(old(table.rows), table.rows, item, from, to, stop);
    }
  }

  lemma StoppedAt(before: map<Key, Attempt>, after: map<Key, Attempt>, item: Item, from: int, to: int, stop: Place)
    requires Scanned(before, after, item, from, to, stop)
    requires stop.index <= |item.args| && (stop.index == |item.args| ==> stop.block == from)
    requires stop.index < |item.args| ==>
               from <= stop.block <= to && Raises(before, item, item.args[stop.index], stop.block)
    ensures stop == FirstRaise(before, item, from, to, 0)
    ensures item.Unthrottled() ==> (Covered(after, item, from, to) <==> NothingLost(before, item, from, to))
  {
    StopIsFirstRaise(before, item, from, to, stop, 0);
    if item.Unthrottled() {
      CoveredIff(before, after, item, from, to);
    }
  }

  /** Against the documentation: block 1 raises, and block 2, which matches, is left without a row. */
  method RaiseCostsLaterBlocks() returns (item: Item, table: AttemptTable)
    ensures item.condition(1, "a").None? && item.Matches(2, "a") && item.Unthrottled() && item.args == ["a"]
    ensures fresh(table) && Key(item.path, "a", 0) in table.rows && Key(item.path, "a", 2) !in table.rows
    ensures !Covered(table.rows, item, 2, 2)
  {
    item := Item("task", ["a"], (block, args) => if block == 1 then None else Some(true), Some(3), None);
    table := new AttemptTable(3, true);
    ghost var before := table.rows;
    var stop := ProcessItemRange(table, item, 0, 2);
    assert item.args[0] == "a";
    assert Raises(before, item, item.args[0], 1);
    FirstRaisingIsFirst(before, item, "a", 0, 2, 1);
    assert stop == Place(0, 1);
    assert Before(0, 0, stop);
    assert !Met(item, 0, 2, stop, Key(item.path, "a", 2));
  }

  /** A live block: each args set whose condition matches is submitted; one that raises costs only itself. */
  method ProcessBlock(table: AttemptTable, item: Item, block: int)
    modifies table
    ensures old(table.rows).Keys <= table.rows.Keys && Covered(table.rows, item, block, block)
    ensures table.alone ==> OnlyMatching(old(table.rows), table.rows, item)
  {
    for i := 0 to |item.args|
      invariant old(table.rows).Keys <= table.rows.Keys
      invariant table.alone ==> OnlyMatching(old(table.rows), table.rows, item)
      invariant forall j | 0 <= j < i && item.Matches(block, item.args[j]) ::
                  Key(item.path, item.args[j], block) in table.rows
    {
      table.Meanwhile();
      if item.Matches(block, item.args[i]) {
        var py: Instant := *;
        var _ := table.Submit(item, item.args[i], block, py);
      }
    }
  }

  function WindowStart(item: Item, head: int): int {
    if item.lookback.Some? && head - item.lookback.value > 0 then head - item.lookback.value else 0
  }

  // ---- polling

  ghost predicate NeverRaises(item: Item) {
    forall block: int, args: string :: item.condition(block, args).Some?
  }

  /** What coverage needs of a task: a lookback, a condition that always answers, and no throttle. */
  ghost predicate Coverable(item: Item) {
    NeverRaises(item) && item.lookback.Some? && item.Unthrottled()
  }

  lemma CoverageGrows(before: map<Key, Attempt>, after: map<Key, Attempt>, item: Item, from: int, to: int)
    requires Covered(before, item, from, to) && before.Keys <= after.Keys
    ensures Covered(after, item, from, to)
  {
  }

  /** Fills the window behind `head` for every task that declares one; an error costs only that task's window. */
  method FillLookback(table: AttemptTable, items: seq<Item>, head: int, ghost tracked: nat)
    requires tracked < |items|
    modifies table
    ensures old(table.rows).Keys <= table.rows.Keys
    ensures Coverable(items[tracked]) ==>
              Covered(table.rows, items[tracked], WindowStart(items[tracked], head), head - 1)
  {
    for i := 0 to |items|
      invariant old(table.rows).Keys <= table.rows.Keys
      invariant tracked < i && Coverable(items[tracked]) ==>
                  Covered(table.rows, items[tracked], WindowStart(items[tracked], head), head - 1)
    {
      ghost var before := table.rows;
      if items[i].lookback.Some? && WindowStart(items[i], head) <= head - 1 {
        var stop := ProcessItemRange(table, items[i], WindowStart(items[i], head), head - 1);
        assert NeverRaises(items[i]) ==> stop.index == |items[i].args|;
      }
      if tracked < i && Coverable(items[tracked]) {
        CoverageGrows(before, table.rows, items[tracked], WindowStart(items[tracked], head), head - 1);
      }
    }
  }

  /** Submits the live block to every task. */
  method ProcessHead(table: AttemptTable, items: seq<Item>, head: int, ghost tracked: nat)
    requires tracked < |items|
    modifies table
    ensures old(table.rows).Keys <= table.rows.Keys
    ensures Covered(table.rows, items[tracked], head, head)
  {
    for i := 0 to |items|
      invariant old(table.rows).Keys <= table.rows.Keys
      invariant tracked < i ==> Covered(table.rows, items[tracked], head, head)
    {
      ghost var before := table.rows;
      ProcessBlock(table, items[i], head);
      if tracked < i {
        CoverageGrows(before, table.rows, items[tracked], head, head);
      }
    }
  }

  class TaskScheduler {
    const lookbackEnabled: bool
    var lastProcessed: map<string, int>
    var observed: map<string, int>

    constructor (lookbackEnabled: bool)
      ensures this.lookbackEnabled == lookbackEnabled && lastProcessed == map[] && observed == map[]
    {
      this.lookbackEnabled := lookbackEnabled;
      lastProcessed, observed := map[], map[];
    }

    /** Resolves a head's starting block once; None is a failed read, retried at the next poll. */
    method EnsureStartingBlock(source: string, resolved: Option<int>) returns (known: bool)
      modifies this`lastProcessed
      ensures known <==> source in lastProcessed
      ensures lastProcessed == if source !in old(lastProcessed) && resolved.Some?
                               then old(lastProcessed)[source := resolved.value] else old(lastProcessed)
    {
      if source !in lastProcessed && resolved.Some? {
        lastProcessed := lastProcessed[source := resolved.value];
      }
      known := source in lastProcessed;
    }

    /**
     * One poll of one head. The cursor goes where `Moved` says, other heads keep theirs, and after a head was
     * processed a task that can be covered has attempts for its whole window and the head.
     */
    method Poll(source: string, items: seq<Item>, poll: HeadPoll, table: AttemptTable, ghost tracked: nat)
      requires tracked < |items|
      modifies this, table
      ensures old(table.rows).Keys <= table.rows.Keys
      ensures forall other | other != source :: Cursor(lastProcessed, other) == Cursor(old(lastProcessed), other)
      ensures Cursor(lastProcessed, source) == Moved(Cursor(old(lastProcessed), source), poll)
      ensures observed == if Resolved(Cursor(old(lastProcessed), source), poll).Some? && poll.read.Some?
                          then old(observed)[source := poll.read.value] else old(observed)
      ensures Processes(Cursor(old(lastProcessed), source), poll) && lookbackEnabled && Coverable(items[tracked]) ==>
                Covered(table.rows, items[tracked], WindowStart(items[tracked], poll.read.value), poll.read.value)
    {
      var known := EnsureStartingBlock(source, poll.resolved);
      if !known || poll.read.None? {
        return;
      }
      var head := poll.read.value;
      observed := observed[source := head];
      if head <= lastProcessed[source] {
        return;
      }
      ProcessHead(table, items, head, tracked);
      ghost var before := table.rows;
      if lookbackEnabled {
        FillLookback(table, items, head, tracked);
        CoverageGrows(before, table.rows, items[tracked], head, head);
      }
      lastProcessed := lastProcessed[source := head];
    }
  }

  // ---- coverage over a whole run of polls

  /** What a poll meets: the starting block, if it has to be resolved, and the head; None is a read that failed. */
  datatype HeadPoll = HeadPoll(resolved: Option<int>, read: Option<int>)

  function Cursor(lastProcessed: map<string, int>, source: string): Option<int> {
    if source in lastProcessed then Some(lastProcessed[source]) else None
  }

  function Resolved(cursor: Option<int>, poll: HeadPoll): Option<int> {
    if cursor.Some? then cursor else poll.resolved
  }

  /** The poll reads a head above the cursor. */
  predicate Processes(cursor: Option<int>, poll: HeadPoll) {
    Resolved(cursor, poll).Some? && poll.read.Some? && poll.read.value > Resolved(cursor, poll).value
  }

  /** A cursor not known yet is resolved if it can be, and moves exactly to a head read above it. */
  function Moved(cursor: Option<int>, poll: HeadPoll): Option<int> {
    if Processes(cursor, poll) then poll.read else Resolved(cursor, poll)
  }

  function CursorAfter(start: Option<int>, polls: seq<HeadPoll>): Option<int> {
    if polls == [] then start else Moved(CursorAfter(start, polls[..|polls| - 1]), polls[|polls| - 1])
  }

  /** The heads a cursor processes among what its polls read, in order. */
  function Processed(start: Option<int>, polls: seq<HeadPoll>): seq<int> {
    if polls == [] then []
    else
      var before, poll := polls[..|polls| - 1], polls[|polls| - 1];
      Processed(start, before) + if Processes(CursorAfter(start, before), poll) then [poll.read.value] else []
  }

  /** No processed head is more than `n + 1` above the one before it. */
  predicate Close(processed: seq<int>, n: int) {
    forall i | 0 <= i < |processed| - 1 :: processed[i + 1] <= processed[i] + n + 1
  }

  /** The heads strictly increase from above `start`, and the cursor stands at the last of them. */
  predicate Tracks(start: Option<int>, heads: seq<int>, cursor: Option<int>) {
    && (heads != [] ==> cursor == Some(heads[|heads| - 1]))
    && (heads == [] && start.Some? ==> cursor == start)
    && (forall i | 0 <= i < |heads| :: start.Some? ==> heads[i] > start.value)
    && (forall i, j | 0 <= i < j < |heads| :: heads[i] < heads[j])
  }

  lemma NextTracks(start: Option<int>, heads: seq<int>, cursor: Option<int>, head: int)
    requires Tracks(start, heads, cursor) && (cursor.Some? ==> cursor.value < head)
    requires cursor.None? && start.Some? ==> start.value < head
    ensures Tracks(start, heads + [head], Some(head))
  {
    var next := heads + [head];
    forall i | 0 <= i < |heads|
      ensures next[i] < head
    {
      assert heads[i] <= heads[|heads| - 1];
    }
  }

  /** Whatever reads fail, the processed heads strictly increase, and the cursor stands at the last of them. */
  lemma {:induction false} ProcessedIncreases(start: Option<int>, polls: seq<HeadPoll>)
    ensures Tracks(start, Processed(start, polls), CursorAfter(start, polls))
  {
    if polls != [] {
      var before, poll := polls[..|polls| - 1], polls[|polls| - 1];
      ProcessedIncreases(start, before);
      if Processes(CursorAfter(start, before), poll) {
        NextTracks(start, Processed(start, before), CursorAfter(start, before), poll.read.value);
      } else {
        assert Processed(start, polls) == Processed(start, before);
      }
    }
  }

  /** A window that reaches back to the last covered block extends the coverage to the new head. */
  lemma WindowExtendsCoverage(rows: map<Key, Attempt>, item: Item, first: int, last: int, head: int)
    requires item.lookback.Some? && item.lookback.value >= 0 && last < head <= last + item.lookback.value + 1
    requires Covered(rows, item, WindowStart(item, first), last) && Covered(rows, item, WindowStart(item, head), head)
    ensures Covered(rows, item, WindowStart(item, first), head)
  {
    forall i, block | 0 <= i < |item.args| && WindowStart(item, first) <= block <= head
                      && item.Matches(block, item.args[i])
      ensures Key(item.path, item.args[i], block) in rows
    {
      if block > last {
        assert WindowStart(item, head) <= block <= head;
      }
    }
  }

  /** One more poll keeps the heads processed so far, and adds at most its own. */
  lemma ProcessedGrows(start: Option<int>, polls: seq<HeadPoll>, i: nat)
    requires i < |polls|
    ensures CursorAfter(start, polls[..i + 1]) == Moved(CursorAfter(start, polls[..i]), polls[i])
    ensures Processed(start, polls[..i + 1])
         == Processed(start, polls[..i])
          + if Processes(CursorAfter(start, polls[..i]), polls[i]) then [polls[i].read.value] else []
  {
    assert polls[..i + 1][..i] == polls[..i];
  }

  /** From the first window to the last processed head, every matching block has a row. */
  ghost predicate CoversRun(rows: map<Key, Attempt>, item: Item, heads: seq<int>) {
    heads != [] && Coverable(item) && item.lookback.value >= 0 && Close(heads, item.lookback.value) ==>
      Covered(rows, item, WindowStart(item, heads[0]), heads[|heads| - 1])
  }

  lemma NextHeadCovers(before: map<Key, Attempt>, after: map<Key, Attempt>, item: Item, heads: seq<int>, head: int)
    requires CoversRun(before, item, heads) && before.Keys <= after.Keys
    requires heads != [] ==> heads[|heads| - 1] < head
    requires Coverable(item) ==> Covered(after, item, WindowStart(item, head), head)
    ensures CoversRun(after, item, heads + [head])
  {
    var next := heads + [head];
    if heads != [] && Coverable(item) && item.lookback.value >= 0 && Close(next, item.lookback.value) {
      assert forall k | 0 <= k < |heads| :: next[k] == heads[k];
      assert next[|heads|] <= next[|heads| - 1] + item.lookback.value + 1;
      CoverageGrows(before, after, item, WindowStart(item, heads[0]), heads[|heads| - 1]);
      WindowExtendsCoverage(after, item, heads[0], heads[|heads| - 1], head);
    }
  }

  lemma SameHeadsCover(before: map<Key, Attempt>, after: map<Key, Attempt>, item: Item, heads: seq<int>)
    requires CoversRun(before, item, heads) && before.Keys <= after.Keys
    ensures CoversRun(after, item, heads)
  {
  }

  /**
   * A run of polls of one head from any cursor, known or not, reads failing as they may and other processes at work
   * throughout. If every processed head is within reach of the one before it, then from the first window to the
   * current head no matching block is without an attempt.
   */
  method Polls(scheduler: TaskScheduler, source: string, items: seq<Item>, polls: seq<HeadPoll>, table: AttemptTable,
               ghost tracked: nat)
    requires tracked < |items| && scheduler.lookbackEnabled
    modifies scheduler, table
    ensures Cursor(scheduler.lastProcessed, source) == CursorAfter(old(Cursor(scheduler.lastProcessed, source)), polls)
    ensures CoversRun(table.rows, items[tracked], Processed(old(Cursor(scheduler.lastProcessed, source)), polls))
  {
    ghost var start := Cursor(scheduler.lastProcessed, source);
    for i := 0 to |polls|
      invariant Cursor(scheduler.lastProcessed, source) == CursorAfter(start, polls[..i])
      invariant CoversRun(table.rows, items[tracked], Processed(start, polls[..i]))
    {
      ghost var before := table.rows;
      table.Meanwhile();
      scheduler.Poll(source, items, polls[i], table, tracked);
      ProcessedGrows(start, polls, i);
      ProcessedIncreases(start, polls[..i]);
      if Processes(CursorAfter(start, polls[..i]), polls[i]) {
        NextHeadCovers(before, table.rows, items[tracked], Processed(start, polls[..i]), polls[i].read.value);
      } else {
        assert Processed(start, polls[..i + 1]) == Processed(start, polls[..i]);
        SameHeadsCover(before, table.rows, items[tracked], Processed(start, polls[..i]));
      }
    }
    assert polls[..|polls|] == polls;
  }
}
