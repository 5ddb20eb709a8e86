/** A backfill of `@block_task` tasks over a block range, and the dry run that predicts it. */
module Backfill {
  import opened Base
  import opened Attempts
  import opened Lookback

  /** A question asked of every task, args set and block, by their positions. */
  type Cell = (nat, nat, int) -> bool

  function One(b: bool): nat {
    if b then 1 else 0
  }

  // ---- the same sum, block by block and task by task

  function OverArgs(f: Cell, i: nat, n: nat, block: int): nat {
    if n == 0 then 0 else OverArgs(f, i, n - 1, block) + One(f(i, n - 1, block))
  }

  function AtBlock(f: Cell, items: seq<Item>, n: nat, block: int): nat
    requires n <= |items|
  {
    if n == 0 then 0 else AtBlock(f, items, n - 1, block) + OverArgs(f, n - 1, |items[n - 1].args|, block)
  }

  /** Blocks outermost, as the backfill runs. */
  function BlockMajor(f: Cell, items: seq<Item>, from: int, upto: int): nat
    decreases upto - from
  {
    if upto <= from then 0 else BlockMajor(f, items, from, upto - 1) + AtBlock(f, items, |items|, upto - 1)
  }

  function OverBlocks(f: Cell, i: nat, a: nat, from: int, upto: int): nat
    decreases upto - from
  {
    if upto <= from then 0 else OverBlocks(f, i, a, from, upto - 1) + One(f(i, a, upto - 1))
  }

  function OfItem(f: Cell, i: nat, n: nat, from: int, upto: int): nat {
    if n == 0 then 0 else OfItem(f, i, n - 1, from, upto) + OverBlocks(f, i, n - 1, from, upto)
  }

  /** Blocks innermost, as the dry run counts. */
  function ItemMajor(f: Cell, items: seq<Item>, n: nat, from: int, upto: int): nat
    requires n <= |items|
  {
    if n == 0 then 0
    else ItemMajor(f, items, n - 1, from, upto) + OfItem(f, n - 1, |items[n - 1].args|, from, upto)
  }

  lemma {:induction false} OfItemGrowsByBlock(f: Cell, i: nat, n: nat, from: int, upto: int)
    requires from < upto
    ensures OfItem(f, i, n, from, upto) == OfItem(f, i, n, from, upto - 1) + OverArgs(f, i, n, upto - 1)
  {
    if n > 0 {
      OfItemGrowsByBlock(f, i, n - 1, from, upto);
    }
  }

  lemma {:induction false} ItemMajorGrowsByBlock(f: Cell, items: seq<Item>, n: nat, from: int, upto: int)
    requires n <= |items| && from < upto
    ensures ItemMajor(f, items, n, from, upto)
         == ItemMajor(f, items, n, from, upto - 1) + AtBlock(f, items, n, upto - 1)
  {
    if n > 0 {
      ItemMajorGrowsByBlock(f, items, n - 1, from, upto);
      OfItemGrowsByBlock(f, n - 1, |items[n - 1].args|, from, upto);
    }
  }

  lemma {:induction false} EmptyOfItem(f: Cell, i: nat, n: nat, from: int, upto: int)
    requires upto <= from
    ensures OfItem(f, i, n, from, upto) == 0
  {
    if n > 0 {
      EmptyOfItem(f, i, n - 1, from, upto);
    }
  }

  lemma {:induction false} EmptyItemMajor(f: Cell, items: seq<Item>, n: nat, from: int, upto: int)
    requires n <= |items| && upto <= from
    ensures ItemMajor(f, items, n, from, upto) == 0
  {
    if n > 0 {
      EmptyItemMajor(f, items, n - 1, from, upto);
      EmptyOfItem(f, n - 1, |items[n - 1].args|, from, upto);
    }
  }

  /** The order of the loops does not matter. */
  lemma {:induction false} LoopOrderIsIrrelevant(f: Cell, items: seq<Item>, from: int, upto: int)
    ensures ItemMajor(f, items, |items|, from, upto) == BlockMajor(f, items, from, upto)
    decreases upto - from
  {
    if upto <= from {
      EmptyItemMajor(f, items, |items|, from, upto);
    } else {
      LoopOrderIsIrrelevant(f, items, from, upto - 1);
      ItemMajorGrowsByBlock(f, items, |items|, from, upto);
    }
  }

  // ---- a smaller question has a smaller sum, equal only if it is the same question

  ghost predicate Inside(items: seq<Item>, from: int, upto: int, i: int, a: int, block: int) {
    0 <= i < |items| && 0 <= a < |items[i].args| && from <= block < upto
  }

  lemma {:induction false} OverArgsCompares(f: Cell, g: Cell, i: nat, n: nat, block: int)
    requires forall a | 0 <= a < n :: f(i, a, block) ==> g(i, a, block)
    ensures OverArgs(f, i, n, block) <= OverArgs(g, i, n, block)
    ensures OverArgs(f, i, n, block) == OverArgs(g, i, n, block) <==>
            forall a | 0 <= a < n :: f(i, a, block) == g(i, a, block)
  {
    if n > 0 {
      OverArgsCompares(f, g, i, n - 1, block);
    }
  }

  lemma {:induction false} AtBlockCompares(f: Cell, g: Cell, items: seq<Item>, n: nat, block: int)
    requires n <= |items|
    requires forall i, a | 0 <= i < n && 0 <= a < |items[i].args| :: f(i, a, block) ==> g(i, a, block)
    ensures AtBlock(f, items, n, block) <= AtBlock(g, items, n, block)
    ensures AtBlock(f, items, n, block) == AtBlock(g, items, n, block) <==>
            forall i, a | 0 <= i < n && 0 <= a < |items[i].args| :: f(i, a, block) == g(i, a, block)
  {
    if n > 0 {
      AtBlockCompares(f, g, items, n - 1, block);
      OverArgsCompares(f, g, n - 1, |items[n - 1].args|, block);
    }
  }

  lemma {:induction false} BlockMajorCompares(f: Cell, g: Cell, items: seq<Item>, from: int, upto: int)
    requires forall i, a, block | Inside(items, from, upto, i, a, block) :: f(i, a, block) ==> g(i, a, block)
    ensures BlockMajor(f, items, from, upto) <= BlockMajor(g, items, from, upto)
    ensures BlockMajor(f, items, from, upto) == BlockMajor(g, items, from, upto) <==>
            forall i, a, block | Inside(items, from, upto, i, a, block) :: f(i, a, block) == g(i, a, block)
    decreases upto - from
  {
    if from < upto {
      forall i, a, block | Inside(items, from, upto - 1, i, a, block)
        ensures f(i, a, block) ==> g(i, a, block)
      {
        assert Inside(items, from, upto, i, a, block);
      }
      BlockMajorCompares(f, g, items, from, upto - 1);
      var last := upto - 1;
      forall i, a | 0 <= i < |items| && 0 <= a < |items[i].args|
        ensures f(i, a, last) ==> g(i, a, last)
      {
        assert Inside(items, from, upto, i, a, last);
      }
      AtBlockCompares(f, g, items, |items|, last);
      assert (forall i, a, block | Inside(items, from, upto, i, a, block) :: f(i, a, block) == g(i, a, block)) ==>
             forall i, a, block | Inside(items, from, upto - 1, i, a, block) :: f(i, a, block) == g(i, a, block) by {
        assert forall i, a, block | Inside(items, from, upto - 1, i, a, block) ::
                 Inside(items, from, upto, i, a, block);
      }
    }
  }

  // ---- the two runs

  predicate Executed(rows: map<Key, Attempt>, key: Key) {
    key in rows && rows[key].status.Success?
  }

  /** Not executed yet, and the condition matches without raising. */
  predicate IsWanted(rows: map<Key, Attempt>, item: Item, args: string, block: int) {
    !Executed(rows, Key(item.path, args, block)) && item.Matches(block, args)
  }

  function Wanted(rows: map<Key, Attempt>, items: seq<Item>): Cell {
    (i: nat, a: nat, block: int) =>
      i < |items| && a < |items[i].args| && IsWanted(rows, items[i], items[i].args[a], block)
  }

  /** When the backfill submits: by block, task and args set. */
  type Clock = (int, nat, nat) -> Instant

  /** The clock does not go back from one submission to a later one. */
  ghost predicate Forward(clock: Clock) {
    forall block: int, i: nat, a: nat, laterBlock: int, j: nat, b: nat
      {:trigger Precedes(block, i, a, laterBlock, j, b)} ::
      Precedes(block, i, a, laterBlock, j, b) ==> clock(block, i, a) <= clock(laterBlock, j, b)
  }

  predicate Precedes(block: int, i: nat, a: nat, laterBlock: int, j: nat, b: nat) {
    block < laterBlock || (block == laterBlock && (i < j || (i == j && a <= b)))
  }

  /** Wanted, and submitting it when the backfill gets there sends a message. */
  function WantedAndSent(rows: map<Key, Attempt>, items: seq<Item>, maxAttempts: int, clock: Clock): Cell {
    (i: nat, a: nat, block: int) =>
      && i < |items| && a < |items[i].args| && IsWanted(rows, items[i], items[i].args[a], block)
      && Sends(rows, Key(items[i].path, items[i].args[a], block), maxAttempts, clock(block, i, a))
  }

  ghost predicate NeedsArgs(f: Cell, i: nat, n: nat, block: int) {
    exists a :: 0 <= a < n && f(i, a, block)
  }

  /** Some of the first `n` tasks asks for the block. */
  ghost predicate NeedsBlock(f: Cell, items: seq<Item>, n: nat, block: int)
    requires n <= |items|
  {
    exists i :: 0 <= i < n && NeedsArgs(f, i, |items[i].args|, block)
  }

  lemma NeedsArgsGrows(f: Cell, i: nat, n: nat)
    ensures forall b :: NeedsArgs(f, i, n + 1, b) <==> NeedsArgs(f, i, n, b) || f(i, n, b)
  {
  }

  lemma NeedsBlockGrows(f: Cell, items: seq<Item>, n: nat)
    requires n < |items|
    ensures forall b :: NeedsBlock(f, items, n + 1, b) <==>
                        NeedsBlock(f, items, n, b) || NeedsArgs(f, n, |items[n].args|, b)
  {
  }

  /** The blocks of the range some task asks for. */
  ghost function BlocksOf(f: Cell, items: seq<Item>, from: int, to: int): set<int> {
    set block | from <= block <= to && NeedsBlock(f, items, |items|, block)
  }

  type Cache = map<(string, string), set<int>>

  /** The blocks of the range executed for this task and args set. */
  ghost predicate HoldsExecuted(blocks: set<int>, rows: map<Key, Attempt>, path: string, args: string, from: int,
                                to: int)
  {
    forall b :: b in blocks <==> from <= b <= to && Executed(rows, Key(path, args, b))
  }

  ghost predicate Caches(cache: Cache, rows: map<Key, Attempt>, items: seq<Item>, from: int, to: int) {
    forall i, a | 0 <= i < |items| && 0 <= a < |items[i].args| ::
      && (items[i].path, items[i].args[a]) in cache
      && HoldsExecuted(cache[(items[i].path, items[i].args[a])], rows, items[i].path, items[i].args[a], from, to)
  }

  /** One query per task and args set. */
  method Prefetch(table: AttemptTable, items: seq<Item>, from: int, to: int) returns (cache: Cache)
    ensures Caches(cache, table.rows, items, from, to)
  {
    cache := map[];
    for i := 0 to |items|
      invariant Caches(cache, table.rows, items[..i], from, to)
      invariant forall key | key in cache :: HoldsExecuted(cache[key], table.rows, key.0, key.1, from, to)
    {
      var item := items[i];
      for a := 0 to |item.args|
        invariant Caches(cache, table.rows, items[..i], from, to)
        invariant forall key | key in cache :: HoldsExecuted(cache[key], table.rows, key.0, key.1, from, to)
        invariant forall b | 0 <= b < a :: (item.path, item.args[b]) in cache
      {
        var blocks := table.ExecutedBlockNumbers(item.path, item.args[a], from, to + 1);
        assert HoldsExecuted(blocks, table.rows, item.path, item.args[a], from, to);
        cache := cache[(item.path, item.args[a]) := blocks];
      }
    }
  }

  datatype DryRunStats = DryRunStats(
    totalBlocks: int,
    alreadyProcessed: int,
    blocksNeedingTasks: nat,
    estimatedTasks: nat)

  /** The innermost loop: one task and args set over the whole range. */
  method DryRunArgs(items: seq<Item>, i: nat, a: nat, executed: set<int>, from: int, to: int,
                    ghost rows: map<Key, Attempt>) returns (estimated: nat, blocks: set<int>)
    requires i < |items| && a < |items[i].args|
    requires HoldsExecuted(executed, rows, items[i].path, items[i].args[a], from, to)
    ensures estimated == OverBlocks(Wanted(rows, items), i, a, from, to + 1)
    ensures forall b :: b in blocks <==> from <= b <= to && Wanted(rows, items)(i, a, b)
  {
    estimated, blocks := 0, {};
    for block := from to RangeEnd(from, to)
      invariant estimated == OverBlocks(Wanted(rows, items), i, a, from, block)
      invariant forall b :: b in blocks <==> from <= b < block && Wanted(rows, items)(i, a, b)
    {
      if block !in executed && items[i].condition(block, items[i].args[a]) == Some(true) {
        estimated := estimated + 1;
        blocks := blocks + {block};
      }
    }
  }

  /** Counts what a backfill would have to send: every wanted block, once per task and args set. */
  method DryRun(table: AttemptTable, items: seq<Item>, from: int, to: int) returns (stats: DryRunStats)
    ensures stats.estimatedTasks == ItemMajor(Wanted(table.rows, items), items, |items|, from, to + 1)
    ensures stats.blocksNeedingTasks == |BlocksOf(Wanted(table.rows, items), items, from, to)|
    ensures stats.totalBlocks == to - from + 1
    ensures stats.alreadyProcessed == stats.totalBlocks - stats.blocksNeedingTasks
  {
    ghost var f := Wanted(table.rows, items);
    var cache := Prefetch(table, items, from, to);
    var estimated := 0;
    var blocks: set<int> := {};
    for i := 0 to |items|
      invariant estimated == ItemMajor(f, items, i, from, to + 1)
      invariant forall b :: b in blocks <==> from <= b <= to && NeedsBlock(f, items, i, b)
    {
      for a := 0 to |items[i].args|
        invariant estimated == ItemMajor(f, items, i, from, to + 1) + OfItem(f, i, a, from, to + 1)
        invariant forall b :: b in blocks <==>
                    from <= b <= to && (NeedsBlock(f, items, i, b) || NeedsArgs(f, i, a, b))
      {
        var n, found := DryRunArgs(items, i, a, cache[(items[i].path, items[i].args[a])], from, to, table.rows);
        estimated, blocks := estimated + n, blocks + found;
        NeedsArgsGrows(f, i, a);
      }
      NeedsBlockGrows(f, items, i);
    }
    assert blocks == BlocksOf(f, items, from, to);
    stats := DryRunStats(to - from + 1, to - from + 1 - |blocks|, |blocks|, estimated);
  }

  /** Submitting one key changes for no key whether submitting it, then or later, sends. */
  lemma SubmittingKeepsSends(rows: map<Key, Attempt>, key: Key, maxAttempts: int, py: Instant, other: Key,
                             later: Instant)
    requires py <= later
    ensures Sends(Submitted(rows, key, maxAttempts, py), other, maxAttempts, later)
         == Sends(rows, other, maxAttempts, later)
  {
  }

  /** From `since` on, the same submissions send as would have before. */
  ghost predicate SameSends(before: map<Key, Attempt>, after: map<Key, Attempt>, maxAttempts: int, since: Instant) {
    forall key: Key, py: Instant | since <= py ::
      Sends(after, key, maxAttempts, py) == Sends(before, key, maxAttempts, py)
  }

  // ---- what the backfill leaves in the table

  /** A place in the order of the backfill. */
  datatype Spot = Spot(block: int, item: nat, args: nat)

  /** The cell comes before `spot`. */
  predicate Earlier(block: int, i: int, a: int, spot: Spot) {
    block < spot.block || (block == spot.block && (i < spot.item || (i == spot.item && a < spot.args)))
  }

  function KeyOf(items: seq<Item>, i: int, a: int, block: int): Key
    requires 0 <= i < |items| && 0 <= a < |items[i].args|
  {
    Key(items[i].path, items[i].args[a], block)
  }

  /** Some cell of the range before `spot` has this key and sends. */
  ghost predicate SentBefore(f: Cell, items: seq<Item>, from: int, upto: int, spot: Spot, key: Key) {
    exists i, a :: Inside(items, from, upto, i, a, key.block) && Earlier(key.block, i, a, spot)
                   && KeyOf(items, i, a, key.block) == key && f(i, a, key.block)
  }

  /** The row waits, stamped when some cell of the range before `spot` with its key was submitted. */
  ghost predicate WaitsSince(row: Attempt, clock: Clock, items: seq<Item>, from: int, upto: int, spot: Spot, key: Key) {
    && row.status.Pending?
    && exists i, a :: Inside(items, from, upto, i, a, key.block) && Earlier(key.block, i, a, spot)
                      && KeyOf(items, i, a, key.block) == key && row.updatedAt == clock(key.block, i, a)
  }

  /**
   * The table `after` a backfill of the range that started on `before` and got to `spot`: what matched has a row, what
   * was sent waits since it was sent, and every other row is as it was.
   */
  ghost predicate Filled(before: map<Key, Attempt>, after: map<Key, Attempt>, f: Cell, clock: Clock, items: seq<Item>,
                         from: int, upto: int, spot: Spot)
  {
    && before.Keys <= after.Keys
    && (forall i, a, block | Inside(items, from, upto, i, a, block) && Earlier(block, i, a, spot) ::
          items[i].Matches(block, items[i].args[a]) ==> KeyOf(items, i, a, block) in after)
    && (forall key: Key {:trigger SentBefore(f, items, from, upto, spot, key)}
          | SentBefore(f, items, from, upto, spot, key) ::
          key in after && WaitsSince(after[key], clock, items, from, upto, spot, key))
    && (forall key: Key {:trigger SentBefore(f, items, from, upto, spot, key)}
          | !SentBefore(f, items, from, upto, spot, key) ::
          (key in after <==> key in before) && (key in after ==> after[key] == before[key]))
  }

  lemma NothingFilled(rows: map<Key, Attempt>, f: Cell, clock: Clock, items: seq<Item>, from: int, upto: int)
    ensures Filled(rows, rows, f, clock, items, from, upto, Spot(from, 0, 0))
  {
  }

  /** Two spots with no cell of the range between them. */
  lemma SameSpot(before: map<Key, Attempt>, after: map<Key, Attempt>, f: Cell, clock: Clock, items: seq<Item>,
                 from: int, upto: int, spot: Spot, next: Spot)
    requires Filled(before, after, f, clock, items, from, upto, spot)
    requires forall i, a, block | Inside(items, from, upto, i, a, block) ::
               Earlier(block, i, a, spot) <==> Earlier(block, i, a, next)
    ensures Filled(before, after, f, clock, items, from, upto, next)
  {
    forall key: Key
      ensures SentBefore(f, items, from, upto, spot, key) <==> SentBefore(f, items, from, upto, next, key)
    {
    }
    forall key: Key | key in after
      ensures WaitsSince(after[key], clock, items, from, upto, spot, key)
         <==> WaitsSince(after[key], clock, items, from, upto, next, key)
    {
    }
  }

  lemma SentGrows(f: Cell, items: seq<Item>, from: int, upto: int, i: nat, a: nat, block: int, key: Key)
    requires Inside(items, from, upto, i, a, block)
    ensures SentBefore(f, items, from, upto, Spot(block, i, a + 1), key)
       <==> || SentBefore(f, items, from, upto, Spot(block, i, a), key)
            || (key == KeyOf(items, i, a, block) && f(i, a, block))
  {
    if SentBefore(f, items, from, upto, Spot(block, i, a), key) {
      var j, b :| Inside(items, from, upto, j, b, key.block) && Earlier(key.block, j, b, Spot(block, i, a))
                  && KeyOf(items, j, b, key.block) == key && f(j, b, key.block);
      assert Earlier(key.block, j, b, Spot(block, i, a + 1));
    }
    if key == KeyOf(items, i, a, block) && f(i, a, block) {
      assert Earlier(key.block, i, a, Spot(block, i, a + 1));
    }
  }

  lemma WaitGoesOn(row: Attempt, clock: Clock, items: seq<Item>, from: int, upto: int, i: nat, a: nat, block: int,
                   key: Key)
    requires WaitsSince(row, clock, items, from, upto, Spot(block, i, a), key)
    ensures WaitsSince(row, clock, items, from, upto, Spot(block, i, a + 1), key)
  {
    var j, b :| Inside(items, from, upto, j, b, key.block) && Earlier(key.block, j, b, Spot(block, i, a))
                && KeyOf(items, j, b, key.block) == key && row.updatedAt == clock(key.block, j, b);
    assert Earlier(key.block, j, b, Spot(block, i, a + 1));
  }

  /** One cell: submitted if it is wanted, and the table is filled up to behind it. */
  lemma CellFills(before: map<Key, Attempt>, rows: map<Key, Attempt>, after: map<Key, Attempt>, maxAttempts: int,
                  clock: Clock, items: seq<Item>, from: int, upto: int, i: nat, a: nat, block: int)
    requires Inside(items, from, upto, i, a, block)
    requires var f := WantedAndSent(before, items, maxAttempts, clock);
             Filled(before, rows, f, clock, items, from, upto, Spot(block, i, a))
    requires var key, py := KeyOf(items, i, a, block), clock(block, i, a);
             && Sends(rows, key, maxAttempts, py) == Sends(before, key, maxAttempts, py)
             && after == if IsWanted(before, items[i], items[i].args[a], block)
                         then Submitted(rows, key, maxAttempts, py) else rows
    ensures var f := WantedAndSent(before, items, maxAttempts, clock);
            Filled(before, after, f, clock, items, from, upto, Spot(block, i, a + 1))
  {
    var f, spot, next := WantedAndSent(before, items, maxAttempts, clock), Spot(block, i, a), Spot(block, i, a + 1);
    var mine, py := KeyOf(items, i, a, block), clock(block, i, a);
    assert f(i, a, block) <==>
           IsWanted(before, items[i], items[i].args[a], block) && Sends(before, mine, maxAttempts, py);
    forall key: Key
      ensures SentBefore(f, items, from, upto, next, key) ==>
                key in after && WaitsSince(after[key], clock, items, from, upto, next, key)
      ensures !SentBefore(f, items, from, upto, next, key) ==>
                (key in after <==> key in before) && (key in after ==> after[key] == before[key])
    {
      SentGrows(f, items, from, upto, i, a, block, key);
      if key == mine && f(i, a, block) {
        assert Earlier(key.block, i, a, next) && after[key].updatedAt == clock(key.block, i, a);
      } else if SentBefore(f, items, from, upto, spot, key) {
        WaitGoesOn(rows[key], clock, items, from, upto, i, a, block, key);
      }
    }
    forall j, b, at | Inside(items, from, upto, j, b, at) && Earlier(at, j, b, next)
      ensures items[j].Matches(at, items[j].args[b]) ==> KeyOf(items, j, b, at) in after
    {
      if at == block && j == i && b == a {
        assert KeyOf(items, j, b, at) == mine;
      } else {
        assert Earlier(at, j, b, spot);
      }
    }
  }

  /** One wanted cell of the backfill is submitted, at the time the backfill gets there. */
  method SubmitCell(table: AttemptTable, key: Key, py: Instant, ghost since: Instant, ghost rows: map<Key, Attempt>)
    returns (sent: bool)
    requires since <= py && SameSends(rows, table.rows, table.maxAttempts, since)
    modifies table
    ensures SameSends(rows, table.rows, table.maxAttempts, py) && sent == Sends(rows, key, table.maxAttempts, py)
    ensures table.rows == Submitted(old(table.rows), key, table.maxAttempts, py)
  {
    ghost var before := table.rows;
    sent := table.Execute(key, py);
    forall other: Key, later: Instant | py <= later
      ensures Sends(table.rows, other, table.maxAttempts, later) == Sends(rows, other, table.maxAttempts, later)
    {
      SubmittingKeepsSends(before, key, table.maxAttempts, py, other, later);
    }
  }

  /** One cell: looked up, matched and submitted. */
  method ProcessCell(table: AttemptTable, item: Item, args: string, executed: set<int>, from: int, to: int, block: int,
                     py: Instant, ghost rows: map<Key, Attempt>) returns (went: bool)
    requires from <= block <= to && HoldsExecuted(executed, rows, item.path, args, from, to)
    requires SameSends(rows, table.rows, table.maxAttempts, py)
    modifies table
    ensures SameSends(rows, table.rows, table.maxAttempts, py)
    ensures went <==> && IsWanted(rows, item, args, block)
                      && Sends(rows, Key(item.path, args, block), table.maxAttempts, py)
    ensures table.rows == if IsWanted(rows, item, args, block)
                          then Submitted(old(table.rows), Key(item.path, args, block), table.maxAttempts, py)
                          else old(table.rows)
  {
    var key := Key(item.path, args, block);
    assert block in executed <==> Executed(rows, key);
    went := false;
    if block !in executed && item.condition(block, args) == Some(true) {
      went := SubmitCell(table, key, py, py, rows);
    }
  }

  // ---- the table, submission by submission

  /** The rows after one cell, in a backfill that started on `start`. */
  function AfterCell(start: map<Key, Attempt>, rows: map<Key, Attempt>, items: seq<Item>, maxAttempts: int,
                     clock: Clock, i: nat, a: nat, block: int): map<Key, Attempt>
    requires i < |items| && a < |items[i].args|
  {
    if IsWanted(start, items[i], items[i].args[a], block)
    then Submitted(rows, KeyOf(items, i, a, block), maxAttempts, clock(block, i, a))
    else rows
  }

  /** The rows after the first `n` args sets of a task at one block. */
  function AfterArgs(start: map<Key, Attempt>, rows: map<Key, Attempt>, items: seq<Item>, maxAttempts: int,
                     clock: Clock, i: nat, n: nat, block: int): map<Key, Attempt>
    requires i < |items| && n <= |items[i].args|
  {
    if n == 0 then rows
    else AfterCell(start, AfterArgs(start, rows, items, maxAttempts, clock, i, n - 1, block), items, maxAttempts, clock,
                   i, n - 1, block)
  }

  /** The rows after the first `n` tasks at one block. */
  function AfterItems(start: map<Key, Attempt>, rows: map<Key, Attempt>, items: seq<Item>, maxAttempts: int,
                      clock: Clock, n: nat, block: int): map<Key, Attempt>
    requires n <= |items|
  {
    if n == 0 then rows
    else AfterArgs(start, AfterItems(start, rows, items, maxAttempts, clock, n - 1, block), items, maxAttempts, clock,
                   n - 1, |items[n - 1].args|, block)
  }

  /** The rows after the blocks of `[from, upto)`. */
  function AfterBlocks(start: map<Key, Attempt>, items: seq<Item>, maxAttempts: int, clock: Clock, from: int, upto: int)
    : map<Key, Attempt>
    decreases upto - from
  {
    if upto <= from then start
    else AfterItems(start, AfterBlocks(start, items, maxAttempts, clock, from, upto - 1), items, maxAttempts, clock,
                    |items|, upto - 1)
  }

  /** What sends from one place on sends from a later one on. */
  lemma SendsLater(before: map<Key, Attempt>, after: map<Key, Attempt>, maxAttempts: int, clock: Clock, block: int,
                   i: nat, a: nat, laterBlock: int, j: nat, b: nat)
    requires Forward(clock) && Precedes(block, i, a, laterBlock, j, b)
    requires SameSends(before, after, maxAttempts, clock(block, i, a))
    ensures SameSends(before, after, maxAttempts, clock(laterBlock, j, b))
  {
  }

  /** The state of a backfill that got to a place: its sends are as foreseen, and the table is filled up to there. */
  ghost predicate GotTo(before: map<Key, Attempt>, after: map<Key, Attempt>, maxAttempts: int, clock: Clock,
                        items: seq<Item>, from: int, upto: int, block: int, i: nat, a: nat)
  {
    && SameSends(before, after, maxAttempts, clock(block, i, a))
    && var f := WantedAndSent(before, items, maxAttempts, clock);
    Filled(before, after, f, clock, items, from, upto, Spot(block, i, a))
  }

  lemma SubmittedKeepsAllSends(before: map<Key, Attempt>, rows: map<Key, Attempt>, key: Key, maxAttempts: int,
                               py: Instant)
    requires SameSends(before, rows, maxAttempts, py)
    ensures SameSends(before, Submitted(rows, key, maxAttempts, py), maxAttempts, py)
  {
    forall other: Key, later: Instant | py <= later
      ensures Sends(Submitted(rows, key, maxAttempts, py), other, maxAttempts, later)
           == Sends(before, other, maxAttempts, later)
    {
      SubmittingKeepsSends(rows, key, maxAttempts, py, other, later);
    }
  }

  lemma CellGetsOn(before: map<Key, Attempt>, rows: map<Key, Attempt>, maxAttempts: int, clock: Clock, items: seq<Item>,
                   from: int, upto: int, i: nat, a: nat, block: int)
    requires Inside(items, from, upto, i, a, block) && Forward(clock)
    requires GotTo(before, rows, maxAttempts, clock, items, from, upto, block, i, a)
    ensures GotTo(before, AfterCell(before, rows, items, maxAttempts, clock, i, a, block), maxAttempts, clock, items,
                  from, upto, block, i, a + 1)
  {
    var after := AfterCell(before, rows, items, maxAttempts, clock, i, a, block);
    SubmittedKeepsAllSends(before, rows, KeyOf(items, i, a, block), maxAttempts, clock(block, i, a));
    CellFills(before, rows, after, maxAttempts, clock, items, from, upto, i, a, block);
    SendsLater(before, after, maxAttempts, clock, block, i, a, block, i, a + 1);
  }

  lemma {:induction false} ArgsGetOn(before: map<Key, Attempt>, rows: map<Key, Attempt>, maxAttempts: int, clock: Clock,
                                     items: seq<Item>, from: int, upto: int, i: nat, n: nat, block: int)
    requires i < |items| && n <= |items[i].args| && from <= block < upto && Forward(clock)
    requires GotTo(before, rows, maxAttempts, clock, items, from, upto, block, i, 0)
    ensures GotTo(before, AfterArgs(before, rows, items, maxAttempts, clock, i, n, block), maxAttempts, clock, items,
                  from, upto, block, i, n)
  {
    if n > 0 {
      ArgsGetOn(before, rows, maxAttempts, clock, items, from, upto, i, n - 1, block);
      CellGetsOn(before, AfterArgs(before, rows, items, maxAttempts, clock, i, n - 1, block), maxAttempts, clock, items,
                 from, upto, i, n - 1, block);
    }
  }

  /** Behind the last args set of a task the next task begins, and behind the last task the next block. */
  lemma NextBegins(before: map<Key, Attempt>, after: map<Key, Attempt>, maxAttempts: int, clock: Clock,
                   items: seq<Item>, from: int, upto: int, block: int, i: nat, a: nat, nextBlock: int, nextItem: nat)
    requires GotTo(before, after, maxAttempts, clock, items, from, upto, block, i, a) && Forward(clock)
    requires || (i < |items| && a == |items[i].args| && nextBlock == block && nextItem == i + 1)
             || (i == |items| && a == 0 && nextBlock == block + 1 && nextItem == 0)
    ensures GotTo(before, after, maxAttempts, clock, items, from, upto, nextBlock, nextItem, 0)
  {
    var f := WantedAndSent(before, items, maxAttempts, clock);
    SameSpot(before, after, f, clock, items, from, upto, Spot(block, i, a), Spot(nextBlock, nextItem, 0));
    SendsLater(before, after, maxAttempts, clock, block, i, a, nextBlock, nextItem, 0);
  }

  lemma ItemGetsOn(before: map<Key, Attempt>, rows: map<Key, Attempt>, maxAttempts: int, clock: Clock,
                   items: seq<Item>, from: int, upto: int, i: nat, block: int)
    requires i < |items| && from <= block < upto && Forward(clock)
    requires GotTo(before, rows, maxAttempts, clock, items, from, upto, block, i, 0)
    ensures GotTo(before, AfterArgs(before, rows, items, maxAttempts, clock, i, |items[i].args|, block), maxAttempts,
                  clock, items, from, upto, block, i + 1, 0)
  {
    var count := |items[i].args|;
    ArgsGetOn(before, rows, maxAttempts, clock, items, from, upto, i, count, block);
    NextBegins(before, AfterArgs(before, rows, items, maxAttempts, clock, i, count, block), maxAttempts, clock, items,
               from, upto, block, i, count, block, i + 1);
  }

  lemma {:induction false} ItemsGetOn(before: map<Key, Attempt>, rows: map<Key, Attempt>, maxAttempts: int,
                                      clock: Clock, items: seq<Item>, from: int, upto: int, n: nat, block: int)
    requires n <= |items| && from <= block < upto && Forward(clock)
    requires GotTo(before, rows, maxAttempts, clock, items, from, upto, block, 0, 0)
    ensures GotTo(before, AfterItems(before, rows, items, maxAttempts, clock, n, block), maxAttempts, clock, items,
                  from, upto, block, n, 0)
  {
    if n > 0 {
      ItemsGetOn(before, rows, maxAttempts, clock, items, from, upto, n - 1, block);
      var earlier, i := AfterItems(before, rows, items, maxAttempts, clock, n - 1, block), n - 1;
      ItemGetsOn(before, earlier, maxAttempts, clock, items, from, upto, i, block);
      assert AfterItems(before, rows, items, maxAttempts, clock, n, block)
          == AfterArgs(before, earlier, items, maxAttempts, clock, i, |items[i].args|, block);
    }
  }

  lemma {:induction false} BlocksGetOn(before: map<Key, Attempt>, maxAttempts: int, clock: Clock, items: seq<Item>,
                                       from: int, upto: int, end: int)
    requires from <= end <= upto && Forward(clock)
    ensures GotTo(before, AfterBlocks(before, items, maxAttempts, clock, from, end), maxAttempts, clock, items, from,
                  upto, end, 0, 0)
    decreases end - from
  {
    if end == from {
      NothingFilled(before, WantedAndSent(before, items, maxAttempts, clock), clock, items, from, upto);
    } else {
      BlocksGetOn(before, maxAttempts, clock, items, from, upto, end - 1);
      var earlier := AfterBlocks(before, items, maxAttempts, clock, from, end - 1);
      ItemsGetOn(before, earlier, maxAttempts, clock, items, from, upto, |items|, end - 1);
      NextBegins(before, AfterItems(before, earlier, items, maxAttempts, clock, |items|, end - 1), maxAttempts, clock,
                 items, from, upto, end - 1, |items|, 0, end, 0);
    }
  }

  /** One task of one block; a raising condition costs only its own args set. */
  method ProcessBackfillItem(table: AttemptTable, items: seq<Item>, i: nat, cache: Cache, from: int, to: int,
                             block: int, clock: Clock, ghost rows: map<Key, Attempt>) returns (sent: nat)
    requires i < |items| && from <= block <= to && Caches(cache, rows, items, from, to) && Forward(clock)
    requires items[i].target.None? && SameSends(rows, table.rows, table.maxAttempts, clock(block, i, 0))
    modifies table
    ensures SameSends(rows, table.rows, table.maxAttempts, clock(block, i, |items[i].args|))
    ensures sent == OverArgs(WantedAndSent(rows, items, table.maxAttempts, clock), i, |items[i].args|, block)
    ensures table.rows
         == AfterArgs(rows, old(table.rows), items, table.maxAttempts, clock, i, |items[i].args|, block)
  {
    ghost var f := WantedAndSent(rows, items, table.maxAttempts, clock);
    var item := items[i];
    sent := 0;
    for a := 0 to |item.args|
      invariant SameSends(rows, table.rows, table.maxAttempts, clock(block, i, a))
      invariant sent == OverArgs(f, i, a, block)
      invariant table.rows == AfterArgs(rows, old(table.rows), items, table.maxAttempts, clock, i, a, block)
    {
      var executed := cache[(item.path, item.args[a])];
      var went := ProcessCell(table, item, item.args[a], executed, from, to, block, clock(block, i, a), rows);
      SendsLater(rows, table.rows, table.maxAttempts, clock, block, i, a, block, i, a + 1);
      if went {
        sent := sent + 1;
      }
    }
  }

  /** One block of the backfill, for every task. */
  method ProcessBackfillBlock(table: AttemptTable, items: seq<Item>, cache: Cache, from: int, to: int, block: int,
                              clock: Clock, ghost rows: map<Key, Attempt>) returns (sent: nat)
    requires from <= block <= to && Caches(cache, rows, items, from, to) && Forward(clock)
    requires forall i | 0 <= i < |items| :: items[i].target.None?
    requires SameSends(rows, table.rows, table.maxAttempts, clock(block, 0, 0))
    modifies table
    ensures SameSends(rows, table.rows, table.maxAttempts, clock(block + 1, 0, 0))
    ensures sent == AtBlock(WantedAndSent(rows, items, table.maxAttempts, clock), items, |items|, block)
    ensures table.rows == AfterItems(rows, old(table.rows), items, table.maxAttempts, clock, |items|, block)
  {
    ghost var f := WantedAndSent(rows, items, table.maxAttempts, clock);
    sent := 0;
    for i := 0 to |items|
      invariant SameSends(rows, table.rows, table.maxAttempts, clock(block, i, 0))
      invariant sent == AtBlock(f, items, i, block)
      invariant table.rows == AfterItems(rows, old(table.rows), items, table.maxAttempts, clock, i, block)
    {
      var n := ProcessBackfillItem(table, items, i, cache, from, to, block, clock, rows);
      SendsLater(rows, table.rows, table.maxAttempts, clock, block, i, |items[i].args|, block, i + 1, 0);
      sent := sent + n;
    }
    SendsLater(rows, table.rows, table.maxAttempts, clock, block, |items|, 0, block + 1, 0, 0);
  }

  lemma {:induction false} OverArgsPositiveIff(f: Cell, i: nat, n: nat, block: int)
    ensures OverArgs(f, i, n, block) > 0 <==> NeedsArgs(f, i, n, block)
  {
    if n > 0 {
      OverArgsPositiveIff(f, i, n - 1, block);
      NeedsArgsGrows(f, i, n - 1);
    }
  }

  lemma {:induction false} AtBlockPositiveIff(f: Cell, items: seq<Item>, n: nat, block: int)
    requires n <= |items|
    ensures AtBlock(f, items, n, block) > 0 <==> NeedsBlock(f, items, n, block)
  {
    if n > 0 {
      AtBlockPositiveIff(f, items, n - 1, block);
      OverArgsPositiveIff(f, n - 1, |items[n - 1].args|, block);
      NeedsBlockGrows(f, items, n - 1);
    }
  }

  /** The loop over the blocks. */
  method FillRange(table: AttemptTable, items: seq<Item>, from: int, to: int, clock: Clock)
    returns (sent: nat, blocks: set<int>)
    requires Forward(clock) && forall i | 0 <= i < |items| :: items[i].target.None?
    modifies table
    ensures var f := WantedAndSent(old(table.rows), items, table.maxAttempts, clock);
            && sent == BlockMajor(f, items, from, to + 1) && blocks == BlocksOf(f, items, from, to)
            && table.rows == AfterBlocks(old(table.rows), items, table.maxAttempts, clock, from, RangeEnd(from, to))
  {
    ghost var f := WantedAndSent(table.rows, items, table.maxAttempts, clock);
    ghost var rows := table.rows;
    var cache := Prefetch(table, items, from, to);
    sent, blocks := 0, {};
    NoBlocks(f, items, from, from - 1);
    NoBlocks(f, items, from, to);
    for block := from to RangeEnd(from, to)
      invariant table.rows == AfterBlocks(rows, items, table.maxAttempts, clock, from, block)
      invariant SameSends(rows, table.rows, table.maxAttempts, clock(block, 0, 0))
      invariant sent == BlockMajor(f, items, from, block)
      invariant blocks == BlocksOf(f, items, from, block - 1)
    {
      var n := ProcessBackfillBlock(table, items, cache, from, to, block, clock, rows);
      sent := sent + n;
      if n > 0 {
        blocks := blocks + {block};
      }
      OneMoreBlock(f, items, from, block);
    }
  }

  lemma NoBlocks(f: Cell, items: seq<Item>, from: int, to: int)
    ensures to < from ==> BlocksOf(f, items, from, to) == {}
  {
  }

  lemma OneMoreBlock(f: Cell, items: seq<Item>, from: int, block: int)
    requires from <= block
    ensures BlocksOf(f, items, from, block)
         == BlocksOf(f, items, from, block - 1) + if AtBlock(f, items, |items|, block) > 0 then {block} else {}
  {
    AtBlockPositiveIff(f, items, |items|, block);
  }

  /**
   * The real backfill, time passing between submissions: how many messages go out and for which blocks, a row for every
   * matching cell of the range, those sent waiting since they were, and no other row touched.
   */
  method RunBackfill(table: AttemptTable, items: seq<Item>, from: int, to: int, clock: Clock)
    returns (sent: nat, blocks: set<int>)
    requires Forward(clock) && forall i | 0 <= i < |items| :: items[i].target.None?
    modifies table
    ensures var f := WantedAndSent(old(table.rows), items, table.maxAttempts, clock);
            sent == BlockMajor(f, items, from, to + 1) && blocks == BlocksOf(f, items, from, to)
    ensures forall i | 0 <= i < |items| :: Covered(table.rows, items[i], from, to)
    ensures var f := WantedAndSent(old(table.rows), items, table.maxAttempts, clock);
            forall i, a, block | Inside(items, from, to + 1, i, a, block) && f(i, a, block) ::
              var key := KeyOf(items, i, a, block);
              key in table.rows && WaitsSince(table.rows[key], clock, items, from, to + 1, Spot(to + 1, 0, 0), key)
    ensures var f := WantedAndSent(old(table.rows), items, table.maxAttempts, clock);
            forall key: Key | !SentBefore(f, items, from, to + 1, Spot(to + 1, 0, 0), key) ::
              && (key in table.rows <==> key in old(table.rows))
              && (key in table.rows ==> table.rows[key] == old(table.rows)[key])
  {
    ghost var f, rows := WantedAndSent(table.rows, items, table.maxAttempts, clock), table.rows;
    sent, blocks := FillRange(table, items, from, to, clock);
    FilledAll(rows, table.maxAttempts, clock, items, from, to);
  }

  /** What the whole range leaves: all of it filled. */
  lemma FilledAll(before: map<Key, Attempt>, maxAttempts: int, clock: Clock, items: seq<Item>, from: int, to: int)
    requires Forward(clock)
    ensures var f := WantedAndSent(before, items, maxAttempts, clock);
            var after := AfterBlocks(before, items, maxAttempts, clock, from, RangeEnd(from, to));
            && (forall i | 0 <= i < |items| :: Covered(after, items[i], from, to))
            && (forall i, a, block | Inside(items, from, to + 1, i, a, block) && f(i, a, block) ::
                  var key := KeyOf(items, i, a, block);
                  key in after && WaitsSince(after[key], clock, items, from, to + 1, Spot(to + 1, 0, 0), key))
            && (forall key: Key | !SentBefore(f, items, from, to + 1, Spot(to + 1, 0, 0), key) ::
                  (key in after <==> key in before) && (key in after ==> after[key] == before[key]))
  {
    var f := WantedAndSent(before, items, maxAttempts, clock);
    var after := AfterBlocks(before, items, maxAttempts, clock, from, RangeEnd(from, to));
    if from <= to + 1 {
      BlocksGetOn(before, maxAttempts, clock, items, from, to + 1, to + 1);
    } else {
      NothingFilled(before, f, clock, items, from, to + 1);
      SameSpot(before, after, f, clock, items, from, to + 1, Spot(from, 0, 0), Spot(to + 1, 0, 0));
    }
    FilledMeans(before, after, f, clock, items, from, to);
  }

  lemma FilledMeans(before: map<Key, Attempt>, after: map<Key, Attempt>, f: Cell, clock: Clock, items: seq<Item>,
                    from: int, to: int)
    requires Filled(before, after, f, clock, items, from, to + 1, Spot(to + 1, 0, 0))
    ensures forall i | 0 <= i < |items| :: Covered(after, items[i], from, to)
    ensures forall i, a, block | Inside(items, from, to + 1, i, a, block) && f(i, a, block) ::
              var key := KeyOf(items, i, a, block);
              key in after && WaitsSince(after[key], clock, items, from, to + 1, Spot(to + 1, 0, 0), key)
  {
    forall i, a, block | 0 <= i < |items| && 0 <= a < |items[i].args| && from <= block <= to
                         && items[i].Matches(block, items[i].args[a])
      ensures Key(items[i].path, items[i].args[a], block) in after
    {
      assert Inside(items, from, to + 1, i, a, block) && Earlier(block, i, a, Spot(to + 1, 0, 0));
      assert KeyOf(items, i, a, block) == Key(items[i].path, items[i].args[a], block);
    }
    forall i, a, block | Inside(items, from, to + 1, i, a, block) && f(i, a, block)
      ensures SentBefore(f, items, from, to + 1, Spot(to + 1, 0, 0), KeyOf(items, i, a, block))
    {
      assert Earlier(block, i, a, Spot(to + 1, 0, 0));
    }
  }

  /**
   * Every wanted cell of the range sends when the backfill gets to it: by then none is running or used up, and no
   * retry is still ahead.
   */
  ghost predicate NothingHeldBack(rows: map<Key, Attempt>, items: seq<Item>, from: int, to: int, maxAttempts: int,
                                  clock: Clock)
  {
    forall i, a, block | Inside(items, from, to + 1, i, a, block) ::
      Wanted(rows, items)(i, a, block) ==>
        Sends(rows, Key(items[i].path, items[i].args[a], block), maxAttempts, clock(block, i, a))
  }

  /** The estimate never falls short, and it is exact if and only if no wanted attempt is held back. */
  lemma DryRunPredictsIff(rows: map<Key, Attempt>, items: seq<Item>, from: int, to: int, maxAttempts: int, clock: Clock)
    ensures BlockMajor(WantedAndSent(rows, items, maxAttempts, clock), items, from, to + 1)
         <= ItemMajor(Wanted(rows, items), items, |items|, from, to + 1)
    ensures BlockMajor(WantedAndSent(rows, items, maxAttempts, clock), items, from, to + 1)
         == ItemMajor(Wanted(rows, items), items, |items|, from, to + 1)
       <==> NothingHeldBack(rows, items, from, to, maxAttempts, clock)
  {
    var f, g := WantedAndSent(rows, items, maxAttempts, clock), Wanted(rows, items);
    LoopOrderIsIrrelevant(g, items, from, to + 1);
    BlockMajorCompares(f, g, items, from, to + 1);
  }

  /** With only SUCCESS rows around, the dry run names the number of messages and of blocks the backfill sends. */
  lemma DryRunPredictsBackfill(rows: map<Key, Attempt>, items: seq<Item>, from: int, to: int, maxAttempts: int,
                               clock: Clock)
    requires forall key | key in rows :: rows[key].status.Success?
    ensures BlockMajor(WantedAndSent(rows, items, maxAttempts, clock), items, from, to + 1)
         == ItemMajor(Wanted(rows, items), items, |items|, from, to + 1)
    ensures BlocksOf(WantedAndSent(rows, items, maxAttempts, clock), items, from, to)
         == BlocksOf(Wanted(rows, items), items, from, to)
  {
    var f, g := WantedAndSent(rows, items, maxAttempts, clock), Wanted(rows, items);
    DryRunPredictsIff(rows, items, from, to, maxAttempts, clock);
    forall i, block | 0 <= i < |items|
      ensures NeedsArgs(f, i, |items[i].args|, block) <==> NeedsArgs(g, i, |items[i].args|, block)
    {
      forall a: nat | a < |items[i].args|
        ensures f(i, a, block) == g(i, a, block)
      {
        assert f(i, a, block) <==>
               && IsWanted(rows, items[i], items[i].args[a], block)
               && Sends(rows, Key(items[i].path, items[i].args[a], block), maxAttempts, clock(block, i, a));
      }
    }
  }
}
