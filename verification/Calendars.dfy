/**
The academic calendar as the service edits it: one row per date, rewritten in
place by marking, bulk marking, pinning, releasing and deleting days.
*/
module Calendars {
  import opened Options
  import opened DayOrder
  import opened BulkMark

  datatype CalendarError = NoEntry | NotAWorkingDay | BulkMarkIsForNonWorking

  function FindDay(rows: seq<Day>, date: int): Option<Day> {
    var c := Cut(rows, date);
    if c < |rows| && rows[c].date == date then Some(rows[c]) else None
  }

  // Tables reachable by the edits below keep one well-formed row per date.
  lemma MarkKeepsShape(max: int, rows: seq<Day>, date: int, kind: DayType, order: Option<int>, pin: Option<bool>)
    requires Dated(rows) && Proper(rows)
    ensures Dated(Mark(max, rows, date, kind, order, pin)) && Proper(Mark(max, rows, date, kind, order, pin))
    ensures FindDay(Mark(max, rows, date, kind, order, pin), date)
         == Some(Resolved(max, rows, date, kind, order, pin))
  {
    var e, l := Earlier(rows, date), Later(rows, date);
    var d := Resolved(max, rows, date, kind, order, pin);
    var tail := Recompute(max, Tail(None, e), l);
    MarkLayout(max, rows, date, kind, order, pin);
    Around(rows, date);
    RecomputeKeepsShape(max, Tail(None, e), l, date + 1);
    Sandwich(e, [d], tail, date);
  }

  // ----- The row a mark leaves at its date -----

  lemma CutIndex(rows: seq<Day>, date: int, i: nat)
    requires Dated(rows) && i < |rows|
    ensures i < Cut(rows, date) <==> rows[i].date < date
  {
    var c := Cut(rows, date);
    CutSplits(rows, date);
    if i < c {
      assert rows[..c][i] == rows[i];
    } else {
      assert rows[c..][i - c] == rows[i];
    }
  }

  /** Looking a date up finds its row. */
  lemma FoundIff(rows: seq<Day>, date: int, d: Day)
    requires Dated(rows)
    ensures FindDay(rows, date) == Some(d) <==> d in rows && d.date == date
  {
    if d in rows && d.date == date {
      var i :| 0 <= i < |rows| && rows[i] == d;
      CutIndex(rows, date, i);
      CutIndex(rows, date, Cut(rows, date));
    }
  }

  ghost predicate NoWorkingBefore(rows: seq<Day>, date: int) {
    forall d :: d in rows && d.date < date ==> d.kind != Working
  }

  // Row i is the last working day before the date.
  ghost predicate LastWorkingBefore(rows: seq<Day>, date: int, i: nat) {
    && i < |rows| && rows[i].kind == Working && rows[i].date < date
    && forall j :: i < j < |rows| && rows[j].date < date ==> rows[j].kind != Working
  }

  // The order one step on from the last working day before the date, or 1.
  ghost predicate StepsOn(max: int, rows: seq<Day>, date: int, order: Option<int>) {
    || (NoWorkingBefore(rows, date) && order == Some(1))
    || exists i: nat :: LastWorkingBefore(rows, date, i) && rows[i].order.Some?
         && order == Some(if rows[i].order.value >= max then 1 else rows[i].order.value + 1)
  }

  lemma {:induction false} TailIsLast(running: Option<int>, rows: seq<Day>)
    ensures (forall d :: d in rows ==> d.kind != Working) ==> Tail(running, rows) == running
    ensures !(forall d :: d in rows ==> d.kind != Working) ==>
              exists i: nat :: i < |rows| && rows[i].kind == Working && Tail(running, rows) == rows[i].order
                               && forall j :: i < j < |rows| ==> rows[j].kind != Working
    decreases rows
  {
    if rows != [] {
      var rest := rows[1..];
      TailIsLast(After(running, rows[0]), rest);
      assert rows == [rows[0]] + rest;
      if !(forall d :: d in rest ==> d.kind != Working) {
        var i: nat :| i < |rest| && rest[i].kind == Working && Tail(After(running, rows[0]), rest) == rest[i].order
                      && forall j :: i < j < |rest| ==> rest[j].kind != Working;
        assert rows[i + 1] == rest[i] && forall j :: i + 1 < j < |rows| ==> rows[j] == rest[j - 1];
      } else {
        assert forall j :: 0 < j < |rows| ==> rows[j] == rest[j - 1] && rest[j - 1] in rest;
      }
    }
  }

  lemma LastOfEarlier(rows: seq<Day>, date: int, i: nat)
    requires Proper(rows) && i < Cut(rows, date) && rows[i].kind == Working
    requires forall j :: i < j < Cut(rows, date) ==> Earlier(rows, date)[j].kind != Working
    requires forall j: nat :: j < |rows| ==> (j < Cut(rows, date) <==> rows[j].date < date)
    ensures LastWorkingBefore(rows, date, i) && rows[i].order.Some?
  {
    forall j | i < j < |rows| && rows[j].date < date ensures rows[j].kind != Working {
      assert Earlier(rows, date)[j] == rows[j];
    }
    assert rows[i] in rows;
  }

  lemma DerivedStepsOn(max: int, rows: seq<Day>, date: int)
    requires Dated(rows) && Proper(rows)
    ensures StepsOn(max, rows, date, Some(Continue(max, Tail(None, Earlier(rows, date)))))
  {
    var e := Earlier(rows, date);
    forall j: nat | j < |rows| ensures j < |e| <==> rows[j].date < date {
      CutIndex(rows, date, j);
    }
    TailIsLast(None, e);
    if forall d :: d in e ==> d.kind != Working {
      forall d | d in rows && d.date < date ensures d.kind != Working {
        var j :| 0 <= j < |rows| && rows[j] == d;
        assert e[j] == d;
      }
    } else {
      var i: nat :| i < |e| && e[i].kind == Working && Tail(None, e) == e[i].order
                    && forall j :: i < j < |e| ==> e[j].kind != Working;
      LastOfEarlier(rows, date, i);
      StepsOnFrom(max, rows, date, i);
      assert Continue(max, Tail(None, e)) == Next(max, rows[i].order.value);
    }
  }

  lemma StepsOnFrom(max: int, rows: seq<Day>, date: int, i: nat)
    requires LastWorkingBefore(rows, date, i) && rows[i].order.Some?
    ensures StepsOn(max, rows, date, Some(Next(max, rows[i].order.value)))
  {
  }

  /** What a mark leaves at its date: an explicit order is stored as given and
      pinned unless the caller says otherwise; without one, the order follows the
      last working day before, unpinned; other days carry no order. */
  lemma MarkedDayReadsBack(max: int, rows: seq<Day>, date: int, kind: DayType, order: Option<int>, pin: Option<bool>)
    requires Dated(rows) && Proper(rows)
    ensures var day := FindDay(Mark(max, rows, date, kind, order, pin), date);
            && day.Some?
            && (kind != Working ==> day.value == Day(date, kind, None, false))
            && (kind == Working && order.Some? ==> day.value == Day(date, Working, order, pin != Some(false)))
            && (kind == Working && order.None? ==>
                  day.value == Day(date, Working, day.value.order, false) && StepsOn(max, rows, date, day.value.order))
  {
    MarkKeepsShape(max, rows, date, kind, order, pin);
    DerivedStepsOn(max, rows, date);
  }

  /** One edit leaves a pinned day elsewhere as it is. */
  lemma MarkKeepsPinned(max: int, rows: seq<Day>, date: int, kind: DayType, order: Option<int>, pin: Option<bool>,
                        d: Day)
    requires Dated(rows) && Proper(rows) && d in rows && d.pinned && d.date != date
    ensures d in Mark(max, rows, date, kind, order, pin)
  {
    Around(rows, date);
    MarkLayout(max, rows, date, kind, order, pin);
    PassKeepsPinned(max, Tail(None, Earlier(rows, date)), rows, date, d);
  }

  lemma DeleteKeepsPinned(max: int, rows: seq<Day>, date: int, d: Day)
    requires Dated(rows) && Proper(rows) && d in rows && d.pinned && d.date != date
    ensures d in Delete(max, rows, date)
  {
    Around(rows, date);
    DropShape(rows, date);
    PassKeepsPinned(max, Tail(None, Earlier(rows, date)), rows, date, d);
  }

  lemma PassKeepsPinned(max: int, running: Option<int>, rows: seq<Day>, date: int, d: Day)
    requires Dated(rows) && d in rows && d.pinned && d.date != date
    ensures d in Earlier(rows, date) || d in Recompute(max, running, Later(rows, date))
  {
    var l, c := Later(rows, date), Cut(rows, date + 1);
    PassKeepsRows(max, running, l);
    var i :| 0 <= i < |rows| && rows[i] == d;
    CutIndex(rows, date, i);
    CutIndex(rows, date + 1, i);
    if d.date < date {
      assert rows[i] == Earlier(rows, date)[i];
    } else {
      assert l[i - c] == d;
      assert Recompute(max, running, l)[i - c] == d;
    }
  }

  lemma RecomputeKeepsShape(max: int, running: Option<int>, rows: seq<Day>, date: int)
    requires Dated(rows) && Proper(rows) && AllFrom(rows, date)
    ensures Dated(Recompute(max, running, rows)) && Proper(Recompute(max, running, rows))
    ensures AllFrom(Recompute(max, running, rows), date)
  {
    RecomputeKeepsRows(max, running, rows);
    forall d | d in Recompute(max, running, rows) ensures ProperDay(d) && d.date >= date {
      var i :| 0 <= i < |rows| && Recompute(max, running, rows)[i] == d;
      assert rows[i] in rows;
    }
  }

  lemma DeleteKeepsShape(max: int, rows: seq<Day>, date: int)
    requires Dated(rows) && Proper(rows)
    ensures Dated(Delete(max, rows, date)) && Proper(Delete(max, rows, date))
    ensures FindDay(Delete(max, rows, date), date) == None
  {
    var e, l := Earlier(rows, date), Later(rows, date);
    var tail := Recompute(max, Tail(None, e), l);
    DropShape(rows, date);
    Around(rows, date);
    RecomputeKeepsShape(max, Tail(None, e), l, date + 1);
    assert Delete(max, rows, date) == e + [] + tail;
    Sandwich(e, [], tail, date);
    assert tail != [] ==> tail[0] in tail;
  }

  lemma MarkAllSnoc(max: int, rows: seq<Day>, dates: seq<int>, date: int, kind: DayType)
    ensures MarkAll(max, rows, dates + [date], kind)
         == Mark(max, MarkAll(max, rows, dates, kind), date, kind, None, None)
  {
    MarkAllAppend(max, rows, dates, [date], kind);
    assert [date][1..] == [];
  }

  lemma MarkAllStaysSequenced(max: int, rows: seq<Day>, dates: seq<int>, kind: DayType)
    requires Dated(rows) && kind != Working
    ensures Sequenced(max, rows) ==> Sequenced(max, MarkAll(max, rows, dates, kind))
  {
    if Sequenced(max, rows) {
      MarkAllIsFullRecompute(max, rows, dates, kind);
    }
  }

  lemma BulkStep(max: int, rows: seq<Day>, first: int, current: int, kind: DayType)
    requires first <= current
    ensures MarkAll(max, rows, Range(first, current), kind)
         == Mark(max, MarkAll(max, rows, Range(first, current - 1), kind), current, kind, None, None)
  {
    RangeSnoc(first, current - 1);
    MarkAllSnoc(max, rows, Range(first, current - 1), current, kind);
  }

  // One turn of the walk: the first row left is settled, the pass goes on.
  lemma WalkStep(max: int, running: Option<int>, done: seq<Day>, rest: seq<Day>)
    requires rest != []
    ensures done + Recompute(max, running, rest)
         == done + [Settle(max, running, rest[0])]
            + Recompute(max, After(running, Settle(max, running, rest[0])), rest[1..])
  {
    var d := Settle(max, running, rest[0]);
    var tail := Recompute(max, After(running, d), rest[1..]);
    assert Recompute(max, running, rest) == [d] + tail;
    assert done + ([d] + tail) == done + [d] + tail;
  }

  class Calendar {
    const max: int
    var rows: seq<Day>

    ghost predicate Valid()
      reads this
    {
      Dated(rows) && Proper(rows)
    }

    constructor (max: int)
      ensures Valid() && this.max == max && rows == [] && Sequenced(max, rows)
    {
      this.max := max;
      rows := [];
    }

    method ResequenceFollowing(fromDate: int)
      modifies this`rows
      ensures rows == Resequence(max, old(rows), fromDate)
    {
      var i := Cut(rows, fromDate + 1);
      var running := Tail(None, Earlier(rows, fromDate));
      ghost var done, rest, goal := rows[..i], rows[i..], Resequence(max, rows, fromDate);
      while i < |rows|
        invariant rows == done + rest && i == |done|
        invariant done + Recompute(max, running, rest) == goal
      {
        var day := rows[i];
        WalkStep(max, running, done, rest);
        if day.kind != Working {
        } else if day.pinned {
          running := day.order;
        } else {
          running := Some(Continue(max, running));
          rows := rows[i := day.(order := running)];
        }
        done, rest := done + [rows[i]], rest[1..];
        i := i + 1;
      }
    }

    method MarkDay(date: int, kind: DayType, order: Option<int>, pin: Option<bool>) returns (day: Day)
      requires Valid()
      modifies this`rows
      ensures Valid()
      ensures rows == Mark(max, old(rows), date, kind, order, pin)
      ensures FindDay(rows, date) == Some(day)
      ensures kind != Working ==> day == Day(date, kind, None, false)
      ensures kind == Working && order.Some? ==> day == Day(date, Working, order, pin != Some(false))
      ensures kind == Working && order.None? ==>
                day == Day(date, Working, day.order, false) && StepsOn(max, old(rows), date, day.order)
      ensures kind != Working && Sequenced(max, old(rows)) ==> Sequenced(max, rows)
    {
      MarkKeepsShape(max, rows, date, kind, order, pin);
      MarkedDayReadsBack(max, rows, date, kind, order, pin);
      if Sequenced(max, rows) && kind != Working {
        MarkBlockedIsFullRecompute(max, rows, date, kind, order, pin);
        RecomputeTwice(max, None, Put(rows, Day(date, kind, None, false)));
      }
      var resolvedOrder, resolvedPin := None, false;
      if kind == Working {
        if order.Some? {
          resolvedOrder, resolvedPin := order, if pin.None? then true else pin.value;
        } else {
          resolvedOrder := Some(Continue(max, Tail(None, Earlier(rows, date))));
        }
      }
      day := Day(date, kind, resolvedOrder, resolvedPin);
      rows := Put(rows, day);
      ResequenceFollowing(date);
    }

    // One turn of the bulk loop.
    method MarkNext(ghost was: seq<Day>, first: int, current: int, kind: DayType) returns (day: Day)
      requires Valid() && first <= current && kind != Working
      requires rows == MarkAll(max, was, Range(first, current - 1), kind)
      modifies this`rows
      ensures Valid() && day == Blocked(current, kind)
      ensures rows == MarkAll(max, was, Range(first, current), kind)
    {
      BulkStep(max, was, first, current, kind);
      day := MarkDay(current, kind, None, None);
    }

    method BulkMarkRange(first: int, last: int, kind: DayType)
      returns (outcome: Outcome<CalendarError>, days: seq<Day>)
      requires Valid()
      modifies this`rows
      ensures Valid()
      ensures outcome == if kind == Working then Refused(BulkMarkIsForNonWorking) else Done
      ensures outcome.Refused? ==> rows == old(rows) && days == []
      ensures outcome.Done? ==> rows == MarkAll(max, old(rows), Range(first, last), kind)
      ensures outcome.Done? ==> |days| == if first <= last then last - first + 1 else 0
      ensures outcome.Done? ==> forall i :: 0 <= i < |days| ==> days[i] == Blocked(first + i, kind)
      ensures Sequenced(max, old(rows)) ==> Sequenced(max, rows)
    {
      days := [];
      if kind == Working {
        return Refused(BulkMarkIsForNonWorking), days;
      }
      ghost var was := rows;
      var current := first;
      while current <= last
        invariant Valid() && current == first + |days| && (|days| > 0 ==> current <= last + 1)
        invariant rows == MarkAll(max, was, Range(first, current - 1), kind)
        invariant forall i :: 0 <= i < |days| ==> days[i] == Blocked(first + i, kind)
      {
        var day := MarkNext(was, first, current, kind);
        days := days + [day];
        current := current + 1;
      }
      assert Range(first, current - 1) == Range(first, last);
      MarkAllStaysSequenced(max, was, Range(first, last), kind);
      outcome := Done;
    }

    // Skipping to an order and reassigning one pin the date the same way.
    method ReassignDayOrder(date: int, order: int) returns (outcome: Outcome<CalendarError>)
      requires Valid()
      modifies this`rows
      ensures Valid()
      ensures outcome.Refused? <==> FindDay(old(rows), date).Some? && FindDay(old(rows), date).value.kind != Working
      ensures outcome.Refused? ==> outcome.error == NotAWorkingDay && rows == old(rows)
      ensures outcome.Done? ==> rows == Mark(max, old(rows), date, Working, Some(order), Some(true))
    {
      var day := FindDay(rows, date);
      if day.Some? && day.value.kind != Working {
        return Refused(NotAWorkingDay);
      }
      var _ := MarkDay(date, Working, Some(order), Some(true));
      outcome := Done;
    }

    method SkipDayOrder(date: int, skipTo: int) returns (outcome: Outcome<CalendarError>)
      requires Valid()
      modifies this`rows
      ensures Valid()
      ensures outcome.Refused? <==> FindDay(old(rows), date).Some? && FindDay(old(rows), date).value.kind != Working
      ensures outcome.Refused? ==> outcome.error == NotAWorkingDay && rows == old(rows)
      ensures outcome.Done? ==> rows == Mark(max, old(rows), date, Working, Some(skipTo), Some(true))
    {
      outcome := ReassignDayOrder(date, skipTo);
    }

    method ClearOverride(date: int) returns (outcome: Outcome<CalendarError>)
      requires Valid()
      modifies this`rows
      ensures Valid()
      ensures outcome == match FindDay(old(rows), date)
                         case None => Refused(NoEntry)
                         case Some(d) => if d.kind != Working then Refused(NotAWorkingDay) else Done
      ensures outcome.Refused? ==> rows == old(rows)
      ensures outcome.Done? ==> rows == Mark(max, old(rows), date, Working, None, Some(false))
    {
      var day := FindDay(rows, date);
      if day.None? {
        return Refused(NoEntry);
      }
      if day.value.kind != Working {
        return Refused(NotAWorkingDay);
      }
      var _ := MarkDay(date, Working, None, Some(false));
      outcome := Done;
    }

    method DeleteDay(date: int) returns (outcome: Outcome<CalendarError>)
      requires Valid()
      modifies this`rows
      ensures Valid()
      ensures outcome == if FindDay(old(rows), date).None? then Refused(NoEntry) else Done
      ensures outcome.Refused? ==> rows == old(rows)
      ensures outcome.Done? ==> rows == Delete(max, old(rows), date) && FindDay(rows, date) == None
      ensures Sequenced(max, old(rows)) ==> Sequenced(max, rows)
    {
      if FindDay(rows, date).None? {
        return Refused(NoEntry);
      }
      DeleteKeepsShape(max, rows, date);
      if Sequenced(max, rows) {
        DeleteIsFullRecompute(max, rows, date);
        RecomputeTwice(max, None, Drop(rows, date));
      }
      rows := Drop(rows, date);
      ResequenceFollowing(date);
      outcome := Done;
    }
  }
}
