/**
Extended leaves: one teacher's leave dates scanned once for maximal runs of at
least three consecutive days that have not ended before today.
*/
module LeaveBlocks {
  import opened SortedLists

  datatype Block = Block(first: int, last: int, days: nat, activeToday: bool)

  const MIN_DAYS := 3

  // first..last are all in the list, and the run extends no further.
  ghost predicate MaximalRun(dates: seq<int>, first: int, last: int) {
    && first <= last
    && (forall d :: first <= d <= last ==> d in dates)
    && first - 1 !in dates && last + 1 !in dates
  }

  ghost predicate Extended(dates: seq<int>, today: int, b: Block) {
    && MaximalRun(dates, b.first, b.last) && b.days == b.last - b.first + 1 >= MIN_DAYS && b.last >= today
    && (b.activeToday <==> b.first <= today <= b.last)
  }

  lemma RunsApart(dates: seq<int>, a: int, b: int, c: int, d: int, shared: int)
    requires MaximalRun(dates, a, b) && MaximalRun(dates, c, d) && a <= shared <= b && c <= shared <= d
    ensures a == c && b == d
  {
    assert a < c ==> c - 1 in dates;
    assert c < a ==> a - 1 in dates;
    assert b < d ==> b + 1 in dates;
    assert d < b ==> d + 1 in dates;
  }

  function LeftEnd(dates: seq<int>, d: int): (first: int)
    requires Ascending(dates) && d in dates
    ensures first <= d && first - 1 !in dates && forall x :: first <= x <= d ==> x in dates
    decreases d - dates[0]
  {
    if d - 1 in dates then
      assert dates[0] <= d - 1;
      LeftEnd(dates, d - 1)
    else d
  }

  function RightEnd(dates: seq<int>, d: int): (last: int)
    requires Ascending(dates) && d in dates
    ensures d <= last && last + 1 !in dates && forall x :: d <= x <= last ==> x in dates
    decreases dates[|dates| - 1] - d
  {
    if d + 1 in dates then
      assert d + 1 <= dates[|dates| - 1];
      RightEnd(dates, d + 1)
    else d
  }

  /** The maximal runs partition the dates: every date lies in exactly one. */
  lemma RunsPartition(dates: seq<int>, d: int)
    requires Ascending(dates) && d in dates
    ensures MaximalRun(dates, LeftEnd(dates, d), RightEnd(dates, d))
    ensures LeftEnd(dates, d) <= d <= RightEnd(dates, d)
    ensures forall a, b :: MaximalRun(dates, a, b) && a <= d <= b ==> a == LeftEnd(dates, d) && b == RightEnd(dates, d)
  {
    forall a, b | MaximalRun(dates, a, b) && a <= d <= b ensures a == LeftEnd(dates, d) && b == RightEnd(dates, d) {
      RunsApart(dates, a, b, LeftEnd(dates, d), RightEnd(dates, d), d);
    }
  }

  // The emitted blocks are the extended runs that end before `start`.
  ghost predicate EmittedBefore(dates: seq<int>, today: int, emitted: seq<Block>, start: int) {
    && (forall k :: 0 <= k < |emitted| ==> Extended(dates, today, emitted[k]) && emitted[k].last < start)
    && (forall j, k :: 0 <= j < k < |emitted| ==> emitted[j].last < emitted[k].first)
    && (forall b :: Extended(dates, today, b) && b.last < start ==> b in emitted)
  }

  // The days collected so far: consecutive, and starting a run.
  ghost predicate Collected(dates: seq<int>, block: seq<int>) {
    && block != [] && block[0] - 1 !in dates
    && (forall k :: 0 <= k < |block| ==> block[k] == block[0] + k && block[k] in dates)
  }

  lemma BlockIsRun(dates: seq<int>, block: seq<int>)
    requires Collected(dates, block) && block[|block| - 1] + 1 !in dates
    ensures MaximalRun(dates, block[0], block[|block| - 1])
    ensures |block| == block[|block| - 1] - block[0] + 1
  {
    forall d | block[0] <= d <= block[|block| - 1] ensures d in dates {
      assert block[d - block[0]] == d;
    }
  }

  // A complete block is emitted when it is long enough and has not ended.
  function CloseBlock(block: seq<int>, today: int, emitted: seq<Block>): seq<Block>
    requires block != []
  {
    var first, last := block[0], block[|block| - 1];
    if |block| >= MIN_DAYS && last >= today
    then emitted + [Block(first, last, |block|, first <= today <= last)]
    else emitted
  }

  // An extended run that ends inside or after the block, but before the next
  // date, is the block itself.
  lemma OnlyBlockEnds(dates: seq<int>, today: int, block: seq<int>, next: int, c: Block)
    requires Collected(dates, block) && block[|block| - 1] < next && block[|block| - 1] + 1 !in dates
    requires forall d :: block[|block| - 1] < d < next ==> d !in dates
    requires Extended(dates, today, c) && block[0] <= c.last < next
    ensures c == Block(block[0], block[|block| - 1], |block|, block[0] <= today <= block[|block| - 1])
  {
    BlockIsRun(dates, block);
    assert c.last in dates;
    RunsApart(dates, c.first, c.last, block[0], block[|block| - 1], c.last);
  }

  lemma EmittedStays(dates: seq<int>, today: int, emitted: seq<Block>, start: int, next: int)
    requires EmittedBefore(dates, today, emitted, start) && start <= next
    requires forall c :: Extended(dates, today, c) && c.last < next ==> c.last < start
    ensures EmittedBefore(dates, today, emitted, next)
  {
  }

  lemma EmittedGrows(dates: seq<int>, today: int, emitted: seq<Block>, b: Block, next: int)
    requires EmittedBefore(dates, today, emitted, b.first) && Extended(dates, today, b) && b.last < next
    requires forall c :: Extended(dates, today, c) && b.first <= c.last < next ==> c == b
    ensures EmittedBefore(dates, today, emitted + [b], next)
  {
    var all := emitted + [b];
    assert all[|emitted|] == b;
    forall c | Extended(dates, today, c) && c.last < next ensures c in all {
      if c.last < b.first {
        assert c in emitted;
      }
    }
  }

  // The collected block, when the next date leaves a gap, is the only run
  // ending before that date that did not end before the block.
  lemma BlockCloses(dates: seq<int>, today: int, emitted: seq<Block>, block: seq<int>, next: int)
    requires Collected(dates, block) && EmittedBefore(dates, today, emitted, block[0])
    requires block[|block| - 1] < next && block[|block| - 1] + 1 !in dates
    requires forall d :: block[|block| - 1] < d < next ==> d !in dates
    ensures EmittedBefore(dates, today, CloseBlock(block, today, emitted), next)
  {
    var first, last := block[0], block[|block| - 1];
    var b := Block(first, last, |block|, first <= today <= last);
    BlockIsRun(dates, block);
    forall c | Extended(dates, today, c) && first <= c.last < next ensures c == b {
      OnlyBlockEnds(dates, today, block, next, c);
    }
    if |block| >= MIN_DAYS && last >= today {
      EmittedGrows(dates, today, emitted, b, next);
    } else {
      EmittedStays(dates, today, emitted, first, next);
    }
  }

  lemma BlockGrows(dates: seq<int>, block: seq<int>, d: int)
    requires Collected(dates, block) && d == block[|block| - 1] + 1 && d in dates
    ensures Collected(dates, block + [d])
  {
  }

  lemma NothingBetween(dates: seq<int>, i: nat)
    requires Ascending(dates) && 0 < i < |dates|
    ensures forall x :: dates[i - 1] < x < dates[i] ==> x !in dates
  {
  }

  lemma NothingOutside(dates: seq<int>, today: int)
    requires Ascending(dates) && dates != []
    ensures forall x :: x in dates ==> dates[0] <= x <= dates[|dates| - 1]
    ensures forall b :: Extended(dates, today, b) ==> dates[0] <= b.last <= dates[|dates| - 1]
  {
    forall b | Extended(dates, today, b) ensures b.last in dates {
    }
  }

  method ScanSorted(dates: seq<int>, today: int) returns (emitted: seq<Block>)
    requires Ascending(dates) && dates != []
    ensures EmittedBefore(dates, today, emitted, dates[|dates| - 1] + 1)
  {
    NothingOutside(dates, today);
    emitted := [];
    var block := [dates[0]];
    for i := 1 to |dates|
      invariant Collected(dates, block) && block[|block| - 1] == dates[i - 1]
      invariant EmittedBefore(dates, today, emitted, block[0])
    {
      var d := dates[i];
      NothingBetween(dates, i);
      if d == block[|block| - 1] + 1 {
        BlockGrows(dates, block, d);
        block := block + [d];
      } else {
        BlockCloses(dates, today, emitted, block, d);
        emitted := CloseBlock(block, today, emitted);
        block := [d];
      }
    }
    BlockCloses(dates, today, emitted, block, block[|block| - 1] + 1);
    emitted := CloseBlock(block, today, emitted);
  }

  lemma SameRuns(a: seq<int>, b: seq<int>, today: int)
    requires forall x :: x in a <==> x in b
    ensures forall r :: Extended(a, today, r) <==> Extended(b, today, r)
  {
  }

  /** The scan emits exactly the maximal runs of at least three days ending on
      or after today, each once, in date order. */
  method ScanBlocks(leaveDates: seq<int>, today: int) returns (emitted: seq<Block>)
    ensures forall b :: b in emitted <==> Extended(leaveDates, today, b)
    ensures forall j, k :: 0 <= j < k < |emitted| ==> emitted[j].last < emitted[k].first
  {
    var dates := SortedSet(leaveDates);
    SameRuns(leaveDates, dates, today);
    if dates == [] {
      forall b ensures !Extended(dates, today, b) {
        assert MaximalRun(dates, b.first, b.last) ==> b.first in dates;
      }
      return [];
    }
    emitted := ScanSorted(dates, today);
    NothingOutside(dates, today);
  }
}
