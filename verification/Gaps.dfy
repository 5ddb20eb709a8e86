/** Gaps of unprocessed blocks in a range. */
module Gaps {
  import opened Base

  datatype Gap = Gap(start: int, end: int) {
    function Size(): int {
      end - start + 1
    }
  }

  predicate InGap(block: int, gap: Gap) {
    gap.start <= block <= gap.end
  }

  ghost predicate InSome(block: int, gaps: seq<Gap>) {
    exists i :: 0 <= i < |gaps| && InGap(block, gaps[i])
  }

  /** Non-empty, in order, and never touching: between two gaps lies at least one block. */
  predicate Separated(gaps: seq<Gap>) {
    && (forall i | 0 <= i < |gaps| :: gaps[i].start <= gaps[i].end)
    && forall i, j | 0 <= i < j < |gaps| :: gaps[i].end + 1 < gaps[j].start
  }

  /** The gaps hold exactly the unprocessed blocks of `[from, upto)`. */
  ghost predicate Exact(gaps: seq<Gap>, from: int, upto: int, processed: set<int>) {
    forall block :: InSome(block, gaps) <==> from <= block < upto && block !in processed
  }

  function TotalSize(gaps: seq<Gap>): int {
    if gaps == [] then 0 else TotalSize(gaps[..|gaps| - 1]) + gaps[|gaps| - 1].Size()
  }

  function ProcessedIn(from: int, upto: int, processed: set<int>): set<int> {
    set block | from <= block < upto && block in processed
  }

  lemma {:induction false} InSomeAppend(block: int, gaps: seq<Gap>, gap: Gap)
    ensures InSome(block, gaps + [gap]) <==> InSome(block, gaps) || InGap(block, gap)
  {
    var all := gaps + [gap];
    if InSome(block, gaps) {
      var i :| 0 <= i < |gaps| && InGap(block, gaps[i]);
      assert InGap(block, all[i]);
    }
    if InGap(block, gap) {
      assert InGap(block, all[|gaps|]);
    }
  }

  lemma TotalSizeAppend(gaps: seq<Gap>, gap: Gap)
    ensures TotalSize(gaps + [gap]) == TotalSize(gaps) + gap.Size()
  {
    assert (gaps + [gap])[..|gaps|] == gaps;
  }

  /** A missing block lengthens the last gap when it touches it, and otherwise begins one. */
  function Extend(gaps: seq<Gap>, block: int, processed: set<int>): seq<Gap> {
    if block in processed then gaps
    else if gaps != [] && gaps[|gaps| - 1].end == block - 1 then
      gaps[..|gaps| - 1] + [Gap(gaps[|gaps| - 1].start, block)]
    else gaps + [Gap(block, block)]
  }

  /** The gaps of `[from, upto)`, block by block. */
  function GapsBelow(from: int, upto: int, processed: set<int>): seq<Gap>
    decreases upto - from
  {
    if upto <= from then [] else Extend(GapsBelow(from, upto - 1, processed), upto - 1, processed)
  }

  /** The gaps found before block `upto`, the open one included. */
  function WithOpen(gaps: seq<Gap>, gapStart: Option<int>, upto: int): seq<Gap> {
    if gapStart.Some? then gaps + [Gap(gapStart.value, upto - 1)] else gaps
  }

  /** What one block does to the open gap is what `Extend` does to the gaps with it. */
  lemma OpenGapExtends(gaps: seq<Gap>, gapStart: Option<int>, block: int, processed: set<int>)
    requires gapStart.None? && gaps != [] ==> gaps[|gaps| - 1].end < block - 1
    ensures Extend(WithOpen(gaps, gapStart, block), block, processed)
         == if block in processed then WithOpen(gaps, gapStart, block)
            else WithOpen(gaps, Some(if gapStart.Some? then gapStart.value else block), block + 1)
  {
  }

  /** The scan, from `from` to the last block before `end`. */
  method Scan(from: int, end: int, processed: set<int>) returns (gaps: seq<Gap>)
    requires from <= end
    ensures gaps == GapsBelow(from, end, processed)
  {
    gaps := [];
    var gapStart: Option<int> := None;
    for block := from to end
      invariant WithOpen(gaps, gapStart, block) == GapsBelow(from, block, processed)
      invariant gapStart.None? && gaps != [] ==> gaps[|gaps| - 1].end < block - 1
    {
      OpenGapExtends(gaps, gapStart, block, processed);
      if block !in processed {
        if gapStart.None? {
          gapStart := Some(block);
        }
      } else if gapStart.Some? {
        gaps := gaps + [Gap(gapStart.value, block - 1)];
        gapStart := None;
      }
    }
    if gapStart.Some? {
      gaps := gaps + [Gap(gapStart.value, end - 1)];
    }
  }

  /**
   * Finds the gaps of the inclusive range: exactly the unprocessed blocks, in order, each gap as long as it can
   * be, and together with the processed blocks as many as the range has.
   */
  method FindGaps(from: int, to: int, processed: set<int>) returns (gaps: seq<Gap>)
    ensures Separated(gaps) && Exact(gaps, from, to + 1, processed)
    ensures from <= to + 1 ==> TotalSize(gaps) + |ProcessedIn(from, to + 1, processed)| == to + 1 - from
  {
    gaps := Scan(from, if to < from then from else to + 1, processed);
    RangeEndIsEnough(from, to, processed);
  }

  lemma {:induction false} GapsBelowAreScanned(from: int, upto: int, processed: set<int>)
    requires from <= upto
    ensures Scanned(GapsBelow(from, upto, processed), from, upto, processed)
    decreases upto - from
  {
    if from < upto {
      GapsBelowAreScanned(from, upto - 1, processed);
      ExtendScans(GapsBelow(from, upto - 1, processed), from, upto - 1, processed);
    } else {
      NoBlocksScanned(from, processed);
    }
  }

  lemma NoBlocksScanned(from: int, processed: set<int>)
    ensures Scanned([], from, from, processed)
  {
    assert ProcessedIn(from, from, processed) == {};
  }

  lemma ExtendScans(gaps: seq<Gap>, from: int, block: int, processed: set<int>)
    requires from <= block && Scanned(gaps, from, block, processed)
    ensures Scanned(Extend(gaps, block, processed), from, block + 1, processed)
  {
    if block in processed {
      ProcessedGrows(from, block, processed);
    } else if gaps != [] && gaps[|gaps| - 1].end == block - 1 {
      var closed, start := gaps[..|gaps| - 1], gaps[|gaps| - 1].start;
      assert gaps == closed + [Gap(start, block - 1)];
      BlockExtends(from, block, processed, closed, start, true);
    } else {
      BlockExtends(from, block, processed, gaps, block, false);
    }
  }

  /** An inverted range has no blocks, wherever it stops. */
  lemma RangeEndIsEnough(from: int, to: int, processed: set<int>)
    ensures var gaps := GapsBelow(from, if to < from then from else to + 1, processed);
            && Separated(gaps) && Exact(gaps, from, to + 1, processed)
            && (from <= to + 1 ==> TotalSize(gaps) + |ProcessedIn(from, to + 1, processed)| == to + 1 - from)
  {
    if from <= to {
      GapsBelowAreScanned(from, to + 1, processed);
    } else {
      NoBlocksScanned(from, processed);
    }
  }

  /** `all` are the gaps of `[from, upto)`, and their sizes account for every unprocessed block. */
  ghost predicate Scanned(all: seq<Gap>, from: int, upto: int, processed: set<int>) {
    && Separated(all) && Exact(all, from, upto, processed)
    && TotalSize(all) + |ProcessedIn(from, upto, processed)| == upto - from
  }

  lemma ProcessedGrows(from: int, block: int, processed: set<int>)
    requires from <= block
    ensures |ProcessedIn(from, block + 1, processed)|
         == |ProcessedIn(from, block, processed)| + if block in processed then 1 else 0
  {
    if block in processed {
      assert ProcessedIn(from, block + 1, processed) == ProcessedIn(from, block, processed) + {block};
    } else {
      assert ProcessedIn(from, block + 1, processed) == ProcessedIn(from, block, processed);
    }
  }

  /** A missing block lengthens the last gap that touches it, or makes a gap of its own. */
  lemma {:induction false} BlockExtends(from: int, block: int, processed: set<int>, closed: seq<Gap>, start: int,
                                        touches: bool)
    requires from <= block && block !in processed && start <= block && (!touches ==> start == block)
    requires Scanned(Before(closed, start, block, touches), from, block, processed)
    requires !touches && closed != [] ==> closed[|closed| - 1].end != block - 1
    ensures Scanned(closed + [Gap(start, block)], from, block + 1, processed)
  {
    var before := Before(closed, start, block, touches);
    ProcessedGrows(from, block, processed);
    LastGapGrows(closed, start, block, touches);
    if !touches {
      GapsEndBelow(closed, from, block, processed);
    }
    LastGapIsSeparate(closed, start, block, touches);
  }

  lemma GapsEndBelow(gaps: seq<Gap>, from: int, upto: int, processed: set<int>)
    requires Separated(gaps) && Exact(gaps, from, upto, processed)
    ensures forall i | 0 <= i < |gaps| :: gaps[i].end < upto
  {
    forall i | 0 <= i < |gaps|
      ensures gaps[i].end < upto
    {
      assert InGap(gaps[i].end, gaps[i]);
      assert InSome(gaps[i].end, gaps);
    }
  }

  lemma LastGapIsSeparate(closed: seq<Gap>, start: int, block: int, touches: bool)
    requires Separated(Before(closed, start, block, touches))
    requires start <= block && (!touches ==> start == block)
    requires !touches ==> forall i | 0 <= i < |closed| :: closed[i].end < block
    requires !touches && closed != [] ==> closed[|closed| - 1].end != block - 1
    ensures Separated(closed + [Gap(start, block)])
  {
    var before := Before(closed, start, block, touches);
    assert forall i | 0 <= i < |closed| :: closed[i] == before[i];
    if touches {
      assert before[|closed|].start == start;
    }
  }

  function Before(closed: seq<Gap>, start: int, block: int, touches: bool): seq<Gap> {
    if touches then closed + [Gap(start, block - 1)] else closed
  }

  /** One block more in the last gap, or in a gap of its own. */
  lemma {:induction false} LastGapGrows(closed: seq<Gap>, start: int, block: int, touches: bool)
    requires start <= block && (!touches ==> start == block)
    ensures var before := Before(closed, start, block, touches);
            var after := closed + [Gap(start, block)];
            && TotalSize(after) == TotalSize(before) + 1
            && forall b :: InSome(b, after) <==> InSome(b, before) || b == block
  {
    TotalSizeAppend(closed, Gap(start, block));
    TotalSizeAppend(closed, Gap(start, block - 1));
    forall b
      ensures InSome(b, closed + [Gap(start, block)]) <==> InSome(b, closed) || start <= b <= block
      ensures InSome(b, closed + [Gap(start, block - 1)]) <==> InSome(b, closed) || start <= b < block
    {
      InSomeAppend(b, closed, Gap(start, block));
      InSomeAppend(b, closed, Gap(start, block - 1));
    }
  }

  /** Every gap is maximal: the blocks just outside it are processed or outside the range. */
  lemma GapsAreMaximal(gaps: seq<Gap>, from: int, upto: int, processed: set<int>, i: nat)
    requires Separated(gaps) && Exact(gaps, from, upto, processed) && i < |gaps|
    ensures gaps[i].start == from || gaps[i].start - 1 in processed
    ensures gaps[i].end == upto - 1 || gaps[i].end + 1 in processed
  {
    assert InGap(gaps[i].start, gaps[i]) && InGap(gaps[i].end, gaps[i]);
    assert InSome(gaps[i].start, gaps) && InSome(gaps[i].end, gaps);
    assert !InSome(gaps[i].start - 1, gaps) && !InSome(gaps[i].end + 1, gaps);
  }

  lemma FirstGapsAgree(a: seq<Gap>, b: seq<Gap>, from: int, upto: int, processed: set<int>)
    requires Separated(a) && Exact(a, from, upto, processed) && a != []
    requires Separated(b) && Exact(b, from, upto, processed)
    ensures b != [] && a[0].start >= b[0].start
  {
    assert InGap(a[0].start, a[0]);
    assert InSome(a[0].start, a);
    assert InSome(a[0].start, b);
  }

  lemma FirstGapEnds(a: seq<Gap>, b: seq<Gap>, from: int, upto: int, processed: set<int>)
    requires Separated(a) && Exact(a, from, upto, processed) && a != []
    requires Separated(b) && Exact(b, from, upto, processed) && b != []
    requires a[0].start == b[0].start
    ensures a[0].end <= b[0].end
  {
    var next := b[0].end + 1;
    assert !InSome(next, b);
    assert !InSome(next, a);
    assert !InGap(next, a[0]);
  }

  lemma RestIsExact(gaps: seq<Gap>, from: int, upto: int, processed: set<int>)
    requires Separated(gaps) && Exact(gaps, from, upto, processed) && gaps != []
    ensures Separated(gaps[1..]) && Exact(gaps[1..], gaps[0].end + 1, upto, processed)
  {
    forall block
      ensures InSome(block, gaps[1..]) <==> gaps[0].end + 1 <= block < upto && block !in processed
    {
      if InSome(block, gaps[1..]) {
        var i :| 0 <= i < |gaps| - 1 && InGap(block, gaps[1..][i]);
        assert InGap(block, gaps[i + 1]);
        assert InSome(block, gaps);
      }
      if gaps[0].end + 1 <= block < upto && block !in processed {
        assert InGap(gaps[0].start, gaps[0]);
        assert InSome(gaps[0].start, gaps);
        assert InSome(block, gaps);
        var i :| 0 <= i < |gaps| && InGap(block, gaps[i]);
        assert InGap(block, gaps[1..][i - 1]);
      }
    }
  }

  /** The specification has one answer: these are the gaps. */
  lemma {:induction false} GapsAreUnique(a: seq<Gap>, b: seq<Gap>, from: int, upto: int, processed: set<int>)
    requires Separated(a) && Exact(a, from, upto, processed)
    requires Separated(b) && Exact(b, from, upto, processed)
    ensures a == b
    decreases |a|
  {
    if a == [] {
      if b != [] {
        FirstGapsAgree(b, a, from, upto, processed);
      }
    } else {
      FirstGapsAgree(a, b, from, upto, processed);
      FirstGapsAgree(b, a, from, upto, processed);
      FirstGapEnds(a, b, from, upto, processed);
      FirstGapEnds(b, a, from, upto, processed);
      RestIsExact(a, from, upto, processed);
      RestIsExact(b, from, upto, processed);
      GapsAreUnique(a[1..], b[1..], a[0].end + 1, upto, processed);
      assert a == [a[0]] + a[1..] && b == [b[0]] + b[1..];
    }
  }
}
