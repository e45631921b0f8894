/**
Marking many dates as non-working, one incremental edit after another, against
one full recompute of the calendar with all of them marked.
*/
module BulkMark {
  import opened Options
  import opened DayOrder

  function Blocked(date: int, kind: DayType): Day { Day(date, kind, None, false) }

  // One incremental edit per date, in the order given.
  function MarkAll(max: int, rows: seq<Day>, dates: seq<int>, kind: DayType): seq<Day>
    decreases dates
  {
    if dates == [] then rows
    else MarkAll(max, Mark(max, rows, dates[0], kind, None, None), dates[1..], kind)
  }

  // The same dates overwritten, with no order recomputed.
  function PutAll(rows: seq<Day>, dates: seq<int>, kind: DayType): seq<Day>
    decreases dates
  {
    if dates == [] then rows else PutAll(Put(rows, Blocked(dates[0], kind)), dates[1..], kind)
  }

  // ----- The full pass reads only dates, kinds and pinned orders -----

  function Erase(d: Day): Day {
    if Auto(d) then d.(order := None) else d
  }

  predicate SamePlan(a: seq<Day>, b: seq<Day>) {
    |a| == |b| && forall i :: 0 <= i < |a| ==> Erase(a[i]) == Erase(b[i])
  }

  lemma {:induction false} RecomputeReadsPlan(max: int, running: Option<int>, a: seq<Day>, b: seq<Day>)
    requires SamePlan(a, b)
    ensures Recompute(max, running, a) == Recompute(max, running, b)
    decreases a
  {
    if a != [] {
      assert Erase(a[0]) == Erase(b[0]);
      assert SamePlan(a[1..], b[1..]);
      var d := Settle(max, running, a[0]);
      assert d == Settle(max, running, b[0]);
      RecomputeReadsPlan(max, After(running, d), a[1..], b[1..]);
    }
  }

  lemma {:induction false} CutReadsPlan(a: seq<Day>, b: seq<Day>, date: int)
    requires SamePlan(a, b)
    ensures Cut(a, date) == Cut(b, date)
  {
    if a != [] {
      assert Erase(a[0]) == Erase(b[0]);
      CutReadsPlan(a[1..], b[1..], date);
    }
  }

  lemma PutKeepsPlan(a: seq<Day>, b: seq<Day>, d: Day)
    requires SamePlan(a, b)
    ensures SamePlan(Put(a, d), Put(b, d))
  {
    CutReadsPlan(a, b, d.date);
    CutReadsPlan(a, b, d.date + 1);
  }

  lemma {:induction false} PutAllKeepsPlan(a: seq<Day>, b: seq<Day>, dates: seq<int>, kind: DayType)
    requires SamePlan(a, b)
    ensures SamePlan(PutAll(a, dates, kind), PutAll(b, dates, kind))
    decreases dates
  {
    if dates != [] {
      var d := Blocked(dates[0], kind);
      PutKeepsPlan(a, b, d);
      PutAllKeepsPlan(Put(a, d), Put(b, d), dates[1..], kind);
    }
  }

  lemma RecomputeKeepsPlan(max: int, rows: seq<Day>)
    ensures SamePlan(Recompute(max, None, rows), rows)
  {
    RecomputeKeepsRows(max, None, rows);
  }

  lemma RecomputeKeepsDated(max: int, rows: seq<Day>)
    requires Dated(rows)
    ensures Dated(Recompute(max, None, rows))
  {
    RecomputeKeepsRows(max, None, rows);
  }

  // ----- Any number of incremental edits is one full pass -----

  /** From a sequenced calendar, marking any list of dates non-working one by
      one gives exactly the full recompute with all of them overwritten. */
  lemma {:induction false} MarkAllIsFullRecompute(max: int, rows: seq<Day>, dates: seq<int>, kind: DayType)
    requires Dated(rows) && Sequenced(max, rows) && kind != Working
    ensures MarkAll(max, rows, dates, kind) == Recompute(max, None, PutAll(rows, dates, kind))
    ensures Dated(MarkAll(max, rows, dates, kind)) && Sequenced(max, MarkAll(max, rows, dates, kind))
    decreases dates
  {
    if dates != [] {
      var d := Blocked(dates[0], kind);
      var put := Put(rows, d);
      var marked := Mark(max, rows, dates[0], kind, None, None);
      MarkBlockedIsFullRecompute(max, rows, dates[0], kind, None, None);
      PutShape(rows, d);
      RecomputeKeepsDated(max, put);
      RecomputeTwice(max, None, put);
      MarkAllIsFullRecompute(max, marked, dates[1..], kind);
      RecomputeKeepsPlan(max, put);
      PutAllKeepsPlan(marked, put, dates[1..], kind);
      RecomputeReadsPlan(max, None, PutAll(marked, dates[1..], kind), PutAll(put, dates[1..], kind));
    }
  }

  // ----- Which rows the overwritten table holds -----

  lemma PutMembers(rows: seq<Day>, d: Day)
    requires Dated(rows)
    ensures forall x :: x in Put(rows, d) <==> x == d || (x in rows && x.date != d.date)
  {
    Around(rows, d.date);
    forall x ensures x in Put(rows, d) <==> x == d || (x in rows && x.date != d.date) {
      assert x in Put(rows, d) <==> x in Earlier(rows, d.date) || x == d || x in Later(rows, d.date);
    }
  }

  lemma {:induction false} PutAllMembers(rows: seq<Day>, dates: seq<int>, kind: DayType)
    requires Dated(rows)
    ensures Dated(PutAll(rows, dates, kind))
    ensures forall x :: x in PutAll(rows, dates, kind)
                   <==> (if x.date in dates then x == Blocked(x.date, kind) else x in rows)
    decreases dates
  {
    if dates != [] {
      var d := Blocked(dates[0], kind);
      PutShape(rows, d);
      PutMembers(rows, d);
      PutAllMembers(Put(rows, d), dates[1..], kind);
      forall date ensures date in dates <==> date == dates[0] || date in dates[1..] {
        assert dates == [dates[0]] + dates[1..];
      }
    }
  }

  // A dated table is determined by the rows it holds.
  lemma {:induction false} DatedExtensional(a: seq<Day>, b: seq<Day>)
    requires Dated(a) && Dated(b) && forall x :: x in a <==> x in b
    ensures a == b
    decreases a
  {
    assert b != [] ==> b[0] in b;
    if a != [] {
      assert a[0] in b;
      var i :| 0 <= i < |b| && b[i] == a[0];
      assert b[0] in a;
      var j :| 0 <= j < |a| && a[j] == b[0];
      assert i == 0;
      forall x ensures x in a[1..] <==> x in b[1..] {
        if x in a[1..] {
          var k :| 0 <= k < |a[1..]| && a[1..][k] == x;
          assert a[k + 1] == x && x in b && x != b[0];
        }
        if x in b[1..] {
          var k :| 0 <= k < |b[1..]| && b[1..][k] == x;
          assert b[k + 1] == x && x in a && x != a[0];
        }
      }
      DatedExtensional(a[1..], b[1..]);
    }
  }

  /** The result depends only on which dates were marked: any order, any
      repetition and any split into several bulk edits give the same calendar. */
  lemma MarkAllReadsOnlyTheDates(max: int, rows: seq<Day>, ds: seq<int>, es: seq<int>, kind: DayType)
    requires Dated(rows) && Sequenced(max, rows) && kind != Working
    requires forall date :: date in ds <==> date in es
    ensures MarkAll(max, rows, ds, kind) == MarkAll(max, rows, es, kind)
  {
    MarkAllIsFullRecompute(max, rows, ds, kind);
    MarkAllIsFullRecompute(max, rows, es, kind);
    PutAllMembers(rows, ds, kind);
    PutAllMembers(rows, es, kind);
    DatedExtensional(PutAll(rows, ds, kind), PutAll(rows, es, kind));
  }

  lemma {:induction false} MarkAllAppend(max: int, rows: seq<Day>, ds: seq<int>, es: seq<int>, kind: DayType)
    ensures MarkAll(max, rows, ds + es, kind) == MarkAll(max, MarkAll(max, rows, ds, kind), es, kind)
    decreases ds
  {
    if ds == [] {
      assert ds + es == es;
    } else {
      assert (ds + es)[0] == ds[0] && (ds + es)[1..] == ds[1..] + es;
      MarkAllAppend(max, Mark(max, rows, ds[0], kind, None, None), ds[1..], es, kind);
    }
  }

  /** Marking the same dates again changes nothing. */
  lemma MarkAllTwice(max: int, rows: seq<Day>, dates: seq<int>, kind: DayType)
    requires Dated(rows) && Sequenced(max, rows) && kind != Working
    ensures MarkAll(max, MarkAll(max, rows, dates, kind), dates, kind) == MarkAll(max, rows, dates, kind)
  {
    MarkAllAppend(max, rows, dates, dates, kind);
    MarkAllReadsOnlyTheDates(max, rows, dates + dates, dates, kind);
  }

  // ----- A date range -----

  function Range(first: int, last: int): (dates: seq<int>)
    ensures forall d :: d in dates <==> first <= d <= last
    decreases last - first
  {
    if first > last then [] else [first] + Range(first + 1, last)
  }

  lemma {:induction false} RangeSnoc(first: int, last: int)
    requires first <= last + 1
    ensures Range(first, last + 1) == Range(first, last) + [last + 1]
    decreases last - first
  {
    if first <= last {
      RangeSnoc(first + 1, last);
    }
  }

  /** What a bulk mark of a range leaves: the full recompute of the calendar in
      which every date of the range is a blocked row and every other row is as
      it was. */
  lemma BulkRangeRows(max: int, rows: seq<Day>, first: int, last: int, kind: DayType, plan: seq<Day>)
    requires Dated(rows) && Sequenced(max, rows) && kind != Working && Dated(plan)
    requires forall d :: d in plan <==> if first <= d.date <= last then d == Blocked(d.date, kind) else d in rows
    ensures MarkAll(max, rows, Range(first, last), kind) == Recompute(max, None, plan)
  {
    MarkAllIsFullRecompute(max, rows, Range(first, last), kind);
    PutAllMembers(rows, Range(first, last), kind);
    DatedExtensional(PutAll(rows, Range(first, last), kind), plan);
  }
}
