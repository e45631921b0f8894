/**
Where the rotation stands after any number of working days: the closed form of
the automatic orders, how a bulk mark shifts them, and how evenly a stretch
without overrides uses every order.
*/
module Rotation {
  import opened Options
  import opened DayOrder
  import opened BulkMark

  // The order j working days after order `base`.
  function Ahead(max: int, base: int, j: int): int
    requires max >= 1
  {
    (base - 1 + j) % max + 1
  }

  // With no working day behind it, the rotation starts as if after `max`.
  function Base(max: int, running: Option<int>): int {
    if running.Some? then running.value else max
  }

  predicate OrderInRange(max: int, running: Option<int>) {
    running.Some? ==> 1 <= running.value <= max
  }

  predicate NoPins(rows: seq<Day>) {
    forall i :: 0 <= i < |rows| && rows[i].kind == Working ==> !rows[i].pinned
  }

  predicate NoWork(rows: seq<Day>) {
    forall i :: 0 <= i < |rows| ==> rows[i].kind != Working
  }

  function Works(rows: seq<Day>): nat {
    if rows == [] then 0 else (if rows[0].kind == Working then 1 else 0) + Works(rows[1..])
  }

  lemma NextIsAhead(max: int, base: int)
    requires 1 <= base <= max
    ensures Next(max, base) == Ahead(max, base, 1)
  {
    if base == max {
      assert base % max == 0;
    }
  }

  // Adding multiples of m does not change a remainder.
  lemma {:induction false} ModShift(x: int, m: int, q: int)
    requires m >= 1
    ensures (x + q * m) % m == x % m
  {
    var d, r := x / m, x % m;
    assert x + q * m == (d + q) * m + r;
    ModIs(x + q * m, m, d + q, r);
  }

  lemma MulBound(e: int, m: int)
    requires m >= 1
    ensures e >= 1 ==> e * m >= m
    ensures e <= -1 ==> e * m <= -m
  {
    if e >= 1 {
      assert e * m == (e - 1) * m + m;
    } else if e <= -1 {
      assert e * m == (e + 1) * m - m;
    }
  }

  lemma ModIs(x: int, m: int, d: int, r: int)
    requires m >= 1 && x == d * m + r && 0 <= r < m
    ensures x % m == r && x / m == d
  {
    var e := d - x / m;
    assert e * m == d * m - x / m * m;
    assert e * m == x % m - r;
    MulBound(e, m);
  }

  lemma ModOfMod(x: int, y: int, m: int)
    requires m >= 1
    ensures (x % m + y) % m == (x + y) % m
  {
    ModShift(x % m + y, m, x / m);
    assert x % m + y + x / m * m == x + y;
  }

  lemma AheadAhead(max: int, base: int, i: int, j: int)
    requires max >= 1
    ensures Ahead(max, Ahead(max, base, i), j) == Ahead(max, base, i + j)
  {
    ModOfMod(base - 1 + i, j, max);
  }

  /** In a stretch without overrides, the j-th working day after a base order
      b has order ((b - 1 + j) mod max) + 1. */
  lemma {:induction false} StretchOrder(max: int, running: Option<int>, rows: seq<Day>, i: nat)
    requires max >= 1 && OrderInRange(max, running) && NoPins(rows)
    requires i < |rows| && rows[i].kind == Working
    ensures |Recompute(max, running, rows)| == |rows|
    ensures Recompute(max, running, rows)[i].order
         == Some(Ahead(max, Base(max, running), Works(rows[..i + 1])))
    decreases i
  {
    RecomputeKeepsRows(max, running, rows);
    var d := Settle(max, running, rows[0]);
    var base := Base(max, running);
    NextIsAhead(max, base);
    assert rows[..i + 1][0] == rows[0] && rows[..i + 1][1..] == rows[1..][..i];
    if i == 0 {
      assert rows[..1][1..] == [];
    } else {
      StretchOrder(max, After(running, d), rows[1..], i - 1);
      if rows[0].kind == Working {
        AheadAhead(max, base, 1, Works(rows[1..][..i]));
      }
    }
  }

  // Where the rotation stands after a stretch without overrides.
  lemma {:induction false} StretchTail(max: int, running: Option<int>, rows: seq<Day>)
    requires max >= 1 && OrderInRange(max, running) && NoPins(rows)
    ensures var t := Tail(running, Recompute(max, running, rows));
            OrderInRange(max, t) && Base(max, t) == Ahead(max, Base(max, running), Works(rows))
    decreases rows
  {
    var base := Base(max, running);
    if rows == [] {
      ModIs(base - 1, max, 0, base - 1);
    } else {
      var d := Settle(max, running, rows[0]);
      NextIsAhead(max, base);
      StretchTail(max, After(running, d), rows[1..]);
      assert Recompute(max, running, rows)[1..] == Recompute(max, After(running, d), rows[1..]);
      if rows[0].kind == Working {
        AheadAhead(max, base, 1, Works(rows[1..]));
      }
    }
  }

  // ----- How removing working days shifts the rotation -----

  lemma {:induction false} NoWorkTail(max: int, running: Option<int>, rows: seq<Day>)
    requires NoWork(rows)
    ensures Recompute(max, running, rows) == rows && Tail(running, rows) == running
    decreases rows
  {
    if rows != [] {
      NoWorkTail(max, running, rows[1..]);
    }
  }

  // The same when only the rows up to the i-th are free of overrides.
  lemma PrefixOrder(max: int, running: Option<int>, rows: seq<Day>, i: nat)
    requires max >= 1 && OrderInRange(max, running)
    requires i < |rows| && rows[i].kind == Working && NoPins(rows[..i + 1])
    ensures |Recompute(max, running, rows)| == |rows|
    ensures Recompute(max, running, rows)[i].order
         == Some(Ahead(max, Base(max, running), Works(rows[..i + 1])))
  {
    var stretch := rows[..i + 1];
    assert rows == stretch + rows[i + 1..] && stretch[..i + 1] == stretch;
    RecomputeKeepsRows(max, running, rows);
    RecomputeAppend(max, running, stretch, rows[i + 1..]);
    StretchOrder(max, running, stretch, i);
  }

  // A stretch read from two starting points k working days apart.
  lemma ShiftedStretch(max: int, early: Option<int>, late: Option<int>, k: int, rows: seq<Day>, i: nat)
    requires max >= 1 && OrderInRange(max, early) && OrderInRange(max, late)
    requires Base(max, late) == Ahead(max, Base(max, early), k)
    requires i < |rows| && rows[i].kind == Working && NoPins(rows[..i + 1])
    ensures |Recompute(max, early, rows)| == |Recompute(max, late, rows)| == |rows|
    ensures var o := Recompute(max, late, rows)[i].order;
            o.Some? && Recompute(max, early, rows)[i].order == Some((o.value - 1 - k) % max + 1)
  {
    var b, w := Base(max, early), Works(rows[..i + 1]);
    PrefixOrder(max, early, rows, i);
    PrefixOrder(max, late, rows, i);
    AheadAhead(max, b, k, w);
    ModOfMod(b - 1 + k + w, -k, max);
  }

  // The rows a date range holds.
  function Window(rows: seq<Day>, first: int, last: int): seq<Day>
    requires Dated(rows)
  {
    if first > last then []
    else
      CutMonotone(rows, first, last + 1);
      rows[Cut(rows, first)..Cut(rows, last + 1)]
  }

  lemma {:induction false} CutMonotone(rows: seq<Day>, a: int, b: int)
    requires Dated(rows) && a <= b
    ensures Cut(rows, a) <= Cut(rows, b)
  {
    if rows != [] && rows[0].date < a {
      CutMonotone(rows[1..], a, b);
    }
  }

  // One blocked row for every date of the range.
  function BlockedRows(first: int, last: int, kind: DayType): (rows: seq<Day>)
    ensures NoWork(rows) || kind == Working
    ensures forall d :: d in rows <==> first <= d.date <= last && d == Blocked(d.date, kind)
    decreases last - first
  {
    if first > last then [] else [Blocked(first, kind)] + BlockedRows(first + 1, last, kind)
  }

  lemma {:induction false} BlockedRowsDated(first: int, last: int, kind: DayType)
    ensures Dated(BlockedRows(first, last, kind))
    decreases last - first
  {
    if first <= last {
      BlockedRowsDated(first + 1, last, kind);
      var rest := BlockedRows(first + 1, last, kind);
      forall i | 0 <= i < |rest| ensures rest[i].date > first {
        assert rest[i] in rest;
      }
    }
  }

  // The calendar with a whole range blocked: earlier rows, one blocked row per
  // date, later rows.
  function BlockedPlan(rows: seq<Day>, first: int, last: int, kind: DayType): seq<Day> {
    Earlier(rows, first) + BlockedRows(first, last, kind) + Later(rows, last)
  }

  /** A bulk mark is the full recompute of the calendar with the range blocked. */
  lemma BulkMarkIsBlockedPlan(max: int, rows: seq<Day>, first: int, last: int, kind: DayType)
    requires Dated(rows) && Sequenced(max, rows) && kind != Working && first <= last
    ensures MarkAll(max, rows, Range(first, last), kind)
         == Recompute(max, None, BlockedPlan(rows, first, last, kind))
  {
    var e, m, l := Earlier(rows, first), BlockedRows(first, last, kind), Later(rows, last);
    Around(rows, first);
    Around(rows, last);
    BlockedRowsDated(first, last, kind);
    DatedConcat(e, m, first);
    DatedConcat(e + m, l, last + 1);
    forall d ensures d in BlockedPlan(rows, first, last, kind)
                <==> if first <= d.date <= last then d == Blocked(d.date, kind) else d in rows
    {
      assert d in BlockedPlan(rows, first, last, kind) <==> d in e || d in m || d in l;
    }
    BulkRangeRows(max, rows, first, last, kind, BlockedPlan(rows, first, last, kind));
  }

  lemma SequencedSuffix(max: int, a: seq<Day>, b: seq<Day>)
    requires Sequenced(max, a + b)
    ensures Sequenced(max, a) && Recompute(max, Tail(None, a), b) == b
  {
    SequencedPrefix(max, a, b);
    RecomputeAppend(max, None, a, b);
    assert (a + b)[|a|..] == b;
    assert (a + Recompute(max, Tail(None, a), b))[|a|..] == Recompute(max, Tail(None, a), b);
  }

  // In a sequenced table, a stretch w after e moves the rotation by Works(w).
  lemma StartAfterStretch(max: int, e: seq<Day>, w: seq<Day>)
    requires Sequenced(max, e + w) && InRange(max, e) && max >= 1 && NoPins(w)
    ensures var early, late := Tail(None, e), Tail(None, e + w);
            && OrderInRange(max, early) && OrderInRange(max, late)
            && Base(max, late) == Ahead(max, Base(max, early), Works(w))
  {
    SequencedSuffix(max, e, w);
    TailInRange(max, None, e);
    StretchTail(max, Tail(None, e), w);
    TailAppend(None, e, w);
  }

  lemma PassOverBlocked(max: int, e: seq<Day>, b: seq<Day>, l: seq<Day>)
    requires Sequenced(max, e) && NoWork(b)
    ensures Recompute(max, None, e + b + l) == e + b + Recompute(max, Tail(None, e), l)
  {
    RecomputeAppend(max, None, e, b);
    NoWorkTail(max, Tail(None, e), b);
    TailAppend(None, e, b);
    RecomputeAppend(max, None, e + b, l);
  }

  // Replacing a stretch w by blocked rows shifts the rows l after it.
  lemma ReplacedStretchShifts(max: int, e: seq<Day>, w: seq<Day>, l: seq<Day>, i: nat)
    requires Sequenced(max, e + w + l) && InRange(max, e) && max >= 1 && NoPins(w)
    requires i < |l| && l[i].kind == Working && NoPins(l[..i + 1])
    ensures var shifted := Recompute(max, Tail(None, e), l);
            && |shifted| == |l| && shifted[i].date == l[i].date && l[i].order.Some?
            && shifted[i].order == Some((l[i].order.value - 1 - Works(w)) % max + 1)
  {
    SequencedSuffix(max, e + w, l);
    StartAfterStretch(max, e, w);
    ShiftedStretch(max, Tail(None, e), Tail(None, e + w), Works(w), l, i);
    RecomputeKeepsRows(max, Tail(None, e), l);
  }

  lemma WindowSplits(max: int, rows: seq<Day>, first: int, last: int)
    requires Dated(rows) && first <= last + 1
    ensures rows == Earlier(rows, first) + Window(rows, first, last) + Later(rows, last)
    ensures InRange(max, rows) ==> InRange(max, Earlier(rows, first))
  {
    CutMonotone(rows, first, last + 1);
  }

  lemma IndexAfter(a: seq<Day>, b: seq<Day>, c: seq<Day>, i: nat)
    requires i < |c|
    ensures (a + b + c)[|a| + |b| + i] == c[i]
  {
  }

  /** A bulk mark leaves earlier rows alone, blocks every date of the range and
      continues the rotation after it from the last working day before it. */
  lemma BulkMarkLayout(max: int, rows: seq<Day>, first: int, last: int, kind: DayType)
    requires Dated(rows) && Sequenced(max, rows) && kind != Working && first <= last
    ensures MarkAll(max, rows, Range(first, last), kind)
         == Earlier(rows, first) + BlockedRows(first, last, kind)
            + Recompute(max, Tail(None, Earlier(rows, first)), Later(rows, last))
    ensures |BlockedRows(first, last, kind)| == last - first + 1
  {
    BulkMarkIsBlockedPlan(max, rows, first, last, kind);
    BlockedRowsLength(first, last, kind);
    SequencedEarlier(max, rows, first);
    PassOverBlocked(max, Earlier(rows, first), BlockedRows(first, last, kind), Later(rows, last));
  }

  predicate ShiftedBack(max: int, k: int, was: Day, now: Day)
    requires max >= 1
  {
    now.date == was.date && was.order.Some? && now.order == Some((was.order.value - 1 - k) % max + 1)
  }

  lemma LaterRowsShift(max: int, rows: seq<Day>, first: int, last: int, i: nat)
    requires Dated(rows) && Sequenced(max, rows) && InRange(max, rows) && max >= 1 && first <= last
    requires NoPins(Window(rows, first, last))
    requires i < |Later(rows, last)| && Later(rows, last)[i].kind == Working
    requires NoPins(Later(rows, last)[..i + 1])
    ensures var later := Recompute(max, Tail(None, Earlier(rows, first)), Later(rows, last));
            && i < |later|
            && ShiftedBack(max, Works(Window(rows, first, last)), Later(rows, last)[i], later[i])
  {
    var e, w, l := Earlier(rows, first), Window(rows, first, last), Later(rows, last);
    WindowSplits(max, rows, first, last);
    ReplacedStretchShifts(max, e, w, l, i);
    assert ShiftedBack(max, Works(w), l[i], Recompute(max, Tail(None, e), l)[i]);
  }

  /** If a bulk mark removes k automatic working days and no override, every
      later automatic working day up to the next override moves from order o to
      ((o - 1 - k) mod max) + 1. */
  lemma BulkMarkShift(max: int, rows: seq<Day>, first: int, last: int, kind: DayType, i: nat)
    requires Dated(rows) && Sequenced(max, rows) && InRange(max, rows)
    requires max >= 1 && kind != Working && first <= last
    requires NoPins(Window(rows, first, last))
    requires i < |Later(rows, last)| && Later(rows, last)[i].kind == Working
    requires NoPins(Later(rows, last)[..i + 1])
    ensures var marked := MarkAll(max, rows, Range(first, last), kind);
            var at := Cut(rows, first) + (last - first + 1) + i;
            && at < |marked|
            && ShiftedBack(max, Works(Window(rows, first, last)), Later(rows, last)[i], marked[at])
  {
    var e, b := Earlier(rows, first), BlockedRows(first, last, kind);
    var l := Recompute(max, Tail(None, e), Later(rows, last));
    LaterRowsShift(max, rows, first, last, i);
    BulkMarkLayout(max, rows, first, last, kind);
    IndexAfter(e, b, l, i);
  }

  lemma {:induction false} BlockedRowsLength(first: int, last: int, kind: DayType)
    requires first <= last + 1
    ensures |BlockedRows(first, last, kind)| == last - first + 1
    decreases last - first
  {
    if first <= last {
      BlockedRowsLength(first + 1, last, kind);
    }
  }

  // ----- How often a stretch uses each order -----

  function Uses(rows: seq<Day>, order: int): nat {
    if rows == [] then 0
    else (if rows[0].kind == Working && rows[0].order == Some(order) then 1 else 0) + Uses(rows[1..], order)
  }

  // Multiples of max among base - order + 1 .. base - order + n.
  lemma {:induction false} UsesCountsMultiples(max: int, running: Option<int>, rows: seq<Day>, order: int)
    requires max >= 1 && OrderInRange(max, running) && NoPins(rows) && 1 <= order <= max
    ensures var x := Base(max, running) - order;
            Uses(Recompute(max, running, rows), order) == (x + Works(rows)) / max - x / max
    decreases rows
  {
    if rows != [] {
      var d := Settle(max, running, rows[0]);
      UsesCountsMultiples(max, After(running, d), rows[1..], order);
      assert Recompute(max, running, rows)[1..] == Recompute(max, After(running, d), rows[1..]);
      if rows[0].kind == Working {
        MultipleStep(max, Base(max, running), order, Works(rows[1..]));
      }
    }
  }

  lemma DivShift(x: int, m: int, q: int)
    requires m >= 1
    ensures (x + q * m) / m == x / m + q
  {
    var d, r := x / m, x % m;
    assert x + q * m == (d + q) * m + r;
    ModIs(x + q * m, m, d + q, r);
  }

  lemma MultipleStep(max: int, base: int, order: int, n: nat)
    requires 1 <= base <= max && 1 <= order <= max
    ensures var next := Next(max, base);
            var here := if next == order then 1 else 0;
            (here + (next - order + n) / max - (next - order) / max
             == (base - order + 1 + n) / max - (base - order) / max)
  {
    var x := base - order;
    if base == max {
      DivShift(1 - order + n, max, 1);
      DivShift(1 - order, max, 1);
      assert x + 1 == 1 - order + 1 * max;
    }
    if x >= 0 {
      ModIs(x, max, 0, x);
    } else {
      ModIs(x, max, -1, x + max);
    }
    if x + 1 == max {
      ModIs(x + 1, max, 1, 0);
    } else if x + 1 >= 0 {
      ModIs(x + 1, max, 0, x + 1);
    } else {
      ModIs(x + 1, max, -1, x + 1 + max);
    }
  }

  // n consecutive integers hold n / m or n / m + 1 multiples of m.
  lemma SpanMultiples(x: int, n: nat, m: int)
    requires m >= 1
    ensures n / m <= (x + n) / m - x / m <= n / m + (if n % m == 0 then 0 else 1)
  {
    var r := x % m + n % m;
    assert x + n == (x / m + n / m) * m + r;
    if r < m {
      ModIs(x + n, m, x / m + n / m, r);
    } else {
      assert x + n == (x / m + n / m + 1) * m + (r - m);
      ModIs(x + n, m, x / m + n / m + 1, r - m);
    }
  }

  /** A stretch of n working days without overrides gives each order either
      floor(n / max) or ceil(n / max) days, whatever order it starts from. */
  lemma StretchIsBalanced(max: int, running: Option<int>, rows: seq<Day>, order: int)
    requires max >= 1 && OrderInRange(max, running) && NoPins(rows) && 1 <= order <= max
    ensures var n, uses := Works(rows), Uses(Recompute(max, running, rows), order);
            n / max <= uses <= n / max + (if n % max == 0 then 0 else 1)
  {
    UsesCountsMultiples(max, running, rows, order);
    SpanMultiples(Base(max, running) - order, Works(rows), max);
  }
}
