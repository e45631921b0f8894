/**
What the calendar is read for: the Day Order report, and the faculty workload
computed in bulk per order instead of date by date.
*/
module Reports {
  import opened Options
  import opened DayOrder
  import opened Rotation
  import opened Calendars
  import opened SortedLists

  // ----- Day Order report -----

  datatype Entry = Entry(order: int, occurrences: nat, dates: seq<int>)

  predicate Carries(d: Day, order: int) {
    d.kind == Working && d.order == Some(order)
  }

  function DatesOf(rows: seq<Day>, order: int): seq<int> {
    if rows == [] then []
    else (if Carries(rows[0], order) then [rows[0].date] else []) + DatesOf(rows[1..], order)
  }

  lemma {:induction false} DatesOfSnoc(rows: seq<Day>, d: Day, order: int)
    ensures DatesOf(rows + [d], order) == DatesOf(rows, order) + (if Carries(d, order) then [d.date] else [])
    decreases rows
  {
    var longer, last := rows + [d], if Carries(d, order) then [d.date] else [];
    if rows == [] {
      assert longer[1..] == [];
      assert DatesOf(longer, order) == last + [] == last;
    } else {
      assert longer[0] == rows[0] && longer[1..] == rows[1..] + [d];
      DatesOfSnoc(rows[1..], d, order);
      var first, rest := if Carries(rows[0], order) then [rows[0].date] else [], DatesOf(rows[1..], order);
      assert first + (rest + last) == (first + rest) + last;
    }
  }

  lemma {:induction false} DatesOfCounts(rows: seq<Day>, order: int)
    ensures |DatesOf(rows, order)| == Uses(rows, order)
  {
    if rows != [] {
      DatesOfCounts(rows[1..], order);
    }
  }

  lemma {:induction false} DatesOfMembers(rows: seq<Day>, order: int)
    ensures forall date :: date in DatesOf(rows, order)
                      <==> exists d :: d in rows && d.date == date && Carries(d, order)
    decreases rows
  {
    if rows != [] {
      DatesOfMembers(rows[1..], order);
      assert forall d :: d in rows <==> d == rows[0] || d in rows[1..] by {
        assert rows == [rows[0]] + rows[1..];
      }
    }
  }

  // Exactly the orders in use, ascending, each with its dates.
  ghost predicate ReportOf(rows: seq<Day>, report: seq<Entry>) {
    && (forall i, j :: 0 <= i < j < |report| ==> report[i].order < report[j].order)
    && (forall i :: 0 <= i < |report| ==>
          report[i].dates == DatesOf(rows, report[i].order) && report[i].occurrences == |report[i].dates| > 0)
    && (forall o :: DatesOf(rows, o) != [] ==> exists i :: 0 <= i < |report| && report[i].order == o)
  }

  function Get(grouped: map<int, seq<int>>, o: int): seq<int> {
    if o in grouped then grouped[o] else []
  }

  ghost predicate Groups(days: seq<Day>, grouped: map<int, seq<int>>) {
    && (forall o :: Get(grouped, o) == DatesOf(days, o))
    && (forall o :: o in grouped ==> grouped[o] != [])
  }

  lemma GroupsSnoc(days: seq<Day>, d: Day, grouped: map<int, seq<int>>)
    requires Groups(days, grouped)
    ensures d.kind == Working && d.order.Some? ==>
              Groups(days + [d], grouped[d.order.value := Get(grouped, d.order.value) + [d.date]])
    ensures !(d.kind == Working && d.order.Some?) ==> Groups(days + [d], grouped)
  {
    forall o ensures DatesOf(days + [d], o) == Get(grouped, o) + (if Carries(d, o) then [d.date] else []) {
      DatesOfSnoc(days, d, o);
    }
  }

  method GroupByOrder(days: seq<Day>) returns (keys: seq<int>, grouped: map<int, seq<int>>)
    ensures Ascending(keys) && forall o :: o in keys <==> o in grouped
    ensures forall i :: 0 <= i < |keys| ==> keys[i] in grouped
    ensures Groups(days, grouped)
  {
    keys, grouped := [], map[];
    ghost var seen: seq<Day> := [];
    for i := 0 to |days|
      invariant seen == days[..i] && Groups(seen, grouped)
      invariant Ascending(keys) && forall o :: o in keys <==> o in grouped
    {
      var d := days[i];
      GroupsSnoc(seen, d, grouped);
      if d.kind == Working && d.order.Some? {
        var o := d.order.value;
        keys := Insert(keys, o);
        grouped := grouped[o := Get(grouped, o) + [d.date]];
      }
      seen := seen + [d];
    }
    assert seen == days;
  }

  /** The report lists, by ascending order, exactly the orders the range uses,
      each with its dates in calendar order. */
  method DayOrderReport(rows: seq<Day>, first: int, last: int) returns (report: seq<Entry>)
    requires Dated(rows)
    ensures ReportOf(Window(rows, first, last), report)
  {
    var days := Window(rows, first, last);
    var keys, grouped := GroupByOrder(days);
    report := [];
    for i := 0 to |keys|
      invariant |report| == i
      invariant forall k :: 0 <= k < i ==> report[k] == Entry(keys[k], |grouped[keys[k]]|, grouped[keys[k]])
    {
      report := report + [Entry(keys[i], |grouped[keys[i]]|, grouped[keys[i]])];
    }
    forall o | DatesOf(days, o) != [] ensures exists i :: 0 <= i < |report| && report[i].order == o {
      assert o in keys;
      var i :| 0 <= i < |keys| && keys[i] == o;
      assert report[i].order == o;
    }
  }

  lemma OneRowPerDate(rows: seq<Day>, a: Day, b: Day)
    requires Dated(rows) && a in rows && b in rows && a.date == b.date
    ensures a == b
  {
    var i :| 0 <= i < |rows| && rows[i] == a;
    var j :| 0 <= j < |rows| && rows[j] == b;
  }

  /** The groups of a report partition the working dates: each working day with
      an order stands in exactly one group, the one of its own order. */
  lemma ReportPartitions(rows: seq<Day>, report: seq<Entry>, d: Day)
    requires Dated(rows) && ReportOf(rows, report) && d in rows && d.kind == Working && d.order.Some?
    ensures exists i :: 0 <= i < |report| && report[i].order == d.order.value && d.date in report[i].dates
    ensures forall i :: 0 <= i < |report| && d.date in report[i].dates ==> report[i].order == d.order.value
  {
    var o := d.order.value;
    DatesOfMembers(rows, o);
    assert d.date in DatesOf(rows, o);
    var i :| 0 <= i < |report| && report[i].order == o;
    forall k | 0 <= k < |report| && d.date in report[k].dates ensures report[k].order == o {
      DatesOfMembers(rows, report[k].order);
      var x :| x in rows && x.date == d.date && Carries(x, report[k].order);
      OneRowPerDate(rows, x, d);
    }
  }

  /** The rows of a range are those of its dates. */
  lemma WindowIs(rows: seq<Day>, first: int, last: int, d: Day)
    requires Dated(rows)
    ensures d in Window(rows, first, last) <==> d in rows && first <= d.date <= last
  {
    if first <= last {
      var a, b := Cut(rows, first), Cut(rows, last + 1);
      CutMonotone(rows, first, last + 1);
      forall i: nat | i < |rows| ensures (a <= i < b) <==> first <= rows[i].date <= last {
        CutIndex(rows, first, i);
        CutIndex(rows, last + 1, i);
      }
      if d in rows && first <= d.date <= last {
        var i :| 0 <= i < |rows| && rows[i] == d;
        assert rows[a..b][i - a] == d;
      }
    }
  }

  lemma {:induction false} DatesAscend(rows: seq<Day>, order: int)
    requires Dated(rows)
    ensures Ascending(DatesOf(rows, order))
    decreases rows
  {
    if rows != [] {
      DatesAscend(rows[1..], order);
      var rest := DatesOf(rows[1..], order);
      DatesOfMembers(rows[1..], order);
      forall k | 0 <= k < |rest| ensures rows[0].date < rest[k] {
        assert rest[k] in rest;
        var d :| d in rows[1..] && d.date == rest[k] && Carries(d, order);
        var i :| 0 <= i < |rows[1..]| && rows[1..][i] == d;
      }
    }
  }

  lemma WindowIsDated(rows: seq<Day>, first: int, last: int)
    requires Dated(rows)
    ensures Dated(Window(rows, first, last))
  {
    if first <= last {
      var a := Cut(rows, first);
      CutMonotone(rows, first, last + 1);
      assert forall i :: 0 <= i < |Window(rows, first, last)| ==> Window(rows, first, last)[i] == rows[a + i];
    }
  }

  /** Each entry of a report lists, in ascending order and with their number, the
      dates of the range that are working days of its order. */
  lemma ReportReads(rows: seq<Day>, first: int, last: int, report: seq<Entry>, i: nat, date: int)
    requires Dated(rows) && ReportOf(Window(rows, first, last), report) && i < |report|
    ensures Ascending(report[i].dates) && report[i].occurrences == |report[i].dates|
    ensures date in report[i].dates
       <==> first <= date <= last
            && (Day(date, Working, Some(report[i].order), true) in rows
                || Day(date, Working, Some(report[i].order), false) in rows)
  {
    var w, o := Window(rows, first, last), report[i].order;
    WindowIsDated(rows, first, last);
    DatesAscend(w, o);
    DatesOfMembers(w, o);
    WindowIs(rows, first, last, Day(date, Working, Some(o), true));
    WindowIs(rows, first, last, Day(date, Working, Some(o), false));
    if date in report[i].dates {
      var d :| d in w && d.date == date && Carries(d, o);
      assert d == Day(date, Working, Some(o), d.pinned);
    }
    assert Carries(Day(date, Working, Some(o), true), o) && Carries(Day(date, Working, Some(o), false), o);
  }

  lemma WindowContinues(max: int, rows: seq<Day>, first: int, last: int)
    requires Dated(rows) && Sequenced(max, rows) && first <= last + 1
    ensures Recompute(max, Tail(None, Earlier(rows, first)), Window(rows, first, last)) == Window(rows, first, last)
  {
    WindowSplits(max, rows, first, last);
    SequencedPrefix(max, Earlier(rows, first) + Window(rows, first, last), Later(rows, last));
    SequencedSuffix(max, Earlier(rows, first), Window(rows, first, last));
  }

  lemma WindowIsBalanced(max: int, rows: seq<Day>, first: int, last: int, order: int)
    requires Dated(rows) && Sequenced(max, rows) && InRange(max, rows) && max >= 1
    requires NoPins(Window(rows, first, last)) && 1 <= order <= max
    ensures var n, uses := Works(Window(rows, first, last)), Uses(Window(rows, first, last), order);
            n / max <= uses <= n / max + (if n % max == 0 then 0 else 1)
  {
    if first <= last {
      WindowSplits(max, rows, first, last);
      TailInRange(max, None, Earlier(rows, first));
      WindowContinues(max, rows, first, last);
      StretchIsBalanced(max, Tail(None, Earlier(rows, first)), Window(rows, first, last), order);
    }
  }

  /** On a sequenced calendar, a report over a range of n working days without
      overrides gives every order floor(n / max) or ceil(n / max) occurrences. */
  lemma ReportIsBalanced(max: int, rows: seq<Day>, first: int, last: int, report: seq<Entry>, order: int)
    requires Dated(rows) && Sequenced(max, rows) && InRange(max, rows) && max >= 1
    requires NoPins(Window(rows, first, last)) && ReportOf(Window(rows, first, last), report)
    requires 1 <= order <= max
    ensures var n := Works(Window(rows, first, last));
            var ceiling := n / max + (if n % max == 0 then 0 else 1);
            && (forall i :: 0 <= i < |report| && report[i].order == order ==>
                  n / max <= report[i].occurrences <= ceiling)
            && ((forall i :: 0 <= i < |report| ==> report[i].order != order) ==> n / max == 0)
  {
    WindowIsBalanced(max, rows, first, last, order);
    var w := Window(rows, first, last);
    DatesOfCounts(w, order);
    if forall i :: 0 <= i < |report| ==> report[i].order != order {
      assert DatesOf(w, order) == [];
    }
  }

  // ----- Workload -----

  datatype Slot = Slot(teacher: int, order: int)

  // Timetable slots of one teacher, one number per slot: its Day Order.
  function SlotsOf(slots: seq<Slot>, teacher: int): seq<int> {
    if slots == [] then []
    else (if slots[0].teacher == teacher then [slots[0].order] else []) + SlotsOf(slots[1..], teacher)
  }

  // Per slot, the working days on which it takes place.
  function BulkLoad(rows: seq<Day>, orders: seq<int>): nat {
    if orders == [] then 0 else Uses(rows, orders[0]) + BulkLoad(rows, orders[1..])
  }

  function SlotsOn(d: Day, orders: seq<int>): nat {
    if orders == [] then 0 else (if Carries(d, orders[0]) then 1 else 0) + SlotsOn(d, orders[1..])
  }

  // Per date, the slots that take place on it.
  function DailyLoad(rows: seq<Day>, orders: seq<int>): nat {
    if rows == [] then 0 else SlotsOn(rows[0], orders) + DailyLoad(rows[1..], orders)
  }

  lemma {:induction false} BulkLoadStep(rows: seq<Day>, orders: seq<int>)
    requires rows != []
    ensures BulkLoad(rows, orders) == SlotsOn(rows[0], orders) + BulkLoad(rows[1..], orders)
    decreases orders
  {
    if orders != [] {
      BulkLoadStep(rows, orders[1..]);
    }
  }

  /** Counting each slot once per working day of its order is the same as
      walking the calendar date by date. */
  lemma {:induction false} BulkLoadIsDailyLoad(rows: seq<Day>, orders: seq<int>)
    ensures BulkLoad(rows, orders) == DailyLoad(rows, orders)
  {
    if rows == [] {
      NoDaysNoLoad(orders);
    } else {
      BulkLoadStep(rows, orders);
      BulkLoadIsDailyLoad(rows[1..], orders);
    }
  }

  lemma {:induction false} NoDaysNoLoad(orders: seq<int>)
    ensures BulkLoad([], orders) == 0
  {
    if orders != [] {
      NoDaysNoLoad(orders[1..]);
    }
  }

  lemma {:induction false} UsesSnoc(rows: seq<Day>, d: Day, order: int)
    ensures Uses(rows + [d], order) == Uses(rows, order) + (if Carries(d, order) then 1 else 0)
    decreases rows
  {
    if rows == [] {
      assert (rows + [d])[1..] == [];
    } else {
      assert (rows + [d])[0] == rows[0] && (rows + [d])[1..] == rows[1..] + [d];
      UsesSnoc(rows[1..], d, order);
    }
  }

  lemma {:induction false} SlotsOfSnoc(slots: seq<Slot>, s: Slot, teacher: int)
    ensures SlotsOf(slots + [s], teacher)
         == SlotsOf(slots, teacher) + (if s.teacher == teacher then [s.order] else [])
    decreases slots
  {
    var longer, last := slots + [s], if s.teacher == teacher then [s.order] else [];
    if slots == [] {
      assert longer[1..] == [];
      assert SlotsOf(longer, teacher) == last + [] == last;
    } else {
      assert longer[0] == slots[0] && longer[1..] == slots[1..] + [s];
      SlotsOfSnoc(slots[1..], s, teacher);
      var first, rest := if slots[0].teacher == teacher then [slots[0].order] else [], SlotsOf(slots[1..], teacher);
      assert first + (rest + last) == (first + rest) + last;
    }
  }

  lemma {:induction false} BulkLoadSnoc(rows: seq<Day>, orders: seq<int>, order: int)
    ensures BulkLoad(rows, orders + [order]) == BulkLoad(rows, orders) + Uses(rows, order)
    decreases orders
  {
    if orders == [] {
      assert ([] + [order])[1..] == [];
    } else {
      assert (orders + [order])[0] == orders[0] && (orders + [order])[1..] == orders[1..] + [order];
      BulkLoadSnoc(rows, orders[1..], order);
    }
  }

  // ----- A workload counts lessons -----

  // The lessons the first n slots of the timetable make of the first m days: one for
  // each working day of the slot's order, if the slot is the teacher's.
  ghost function Lessons(rows: seq<Day>, slots: seq<Slot>, teacher: int, m: nat, n: nat): set<(int, int)>
    requires m <= |rows| && n <= |slots|
  {
    set i, j | 0 <= i < m && 0 <= j < n && slots[j].teacher == teacher
               && rows[i].kind == Working && rows[i].order == Some(slots[j].order) :: (i, j)
  }

  // Those of one slot.
  ghost function SlotLessons(rows: seq<Day>, order: int, j: int, m: nat): set<(int, int)>
    requires m <= |rows|
  {
    set i | 0 <= i < m && rows[i].kind == Working && rows[i].order == Some(order) :: (i, j)
  }

  lemma {:induction false} SlotLessonsAreUses(rows: seq<Day>, order: int, j: int, m: nat)
    requires m <= |rows|
    ensures |SlotLessons(rows, order, j, m)| == Uses(rows[..m], order)
  {
    if m == 0 {
      assert SlotLessons(rows, order, j, 0) == {};
    } else {
      SlotLessonsAreUses(rows, order, j, m - 1);
      UsesSnoc(rows[..m - 1], rows[m - 1], order);
      assert rows[..m] == rows[..m - 1] + [rows[m - 1]];
      var more := if Carries(rows[m - 1], order) then {(m - 1, j)} else {};
      var before := SlotLessons(rows, order, j, m - 1);
      assert SlotLessons(rows, order, j, m) == before + more && before !! more;
    }
  }

  lemma NextSlotLessons(rows: seq<Day>, slots: seq<Slot>, teacher: int, n: nat)
    requires n < |slots|
    ensures |Lessons(rows, slots, teacher, |rows|, n + 1)|
         == |Lessons(rows, slots, teacher, |rows|, n)|
            + if slots[n].teacher == teacher then Uses(rows, slots[n].order) else 0
  {
    var more := if slots[n].teacher == teacher then SlotLessons(rows, slots[n].order, n, |rows|) else {};
    LessonsNext(rows, slots, teacher, n, more);
    SlotLessonsAreUses(rows, slots[n].order, n, |rows|);
    assert rows[..|rows|] == rows;
  }

  lemma LessonsNext(rows: seq<Day>, slots: seq<Slot>, teacher: int, n: nat, more: set<(int, int)>)
    requires n < |slots|
    requires more == if slots[n].teacher == teacher then SlotLessons(rows, slots[n].order, n, |rows|) else {}
    ensures |Lessons(rows, slots, teacher, |rows|, n + 1)| == |Lessons(rows, slots, teacher, |rows|, n)| + |more|
  {
    var before, after := Lessons(rows, slots, teacher, |rows|, n), Lessons(rows, slots, teacher, |rows|, n + 1);
    forall x | x in before ensures x in after && x !in more && x.1 < n {
    }
    forall x | x in more ensures x in after && x.1 == n {
    }
    forall x | x in after ensures x in before || x in more {
      if x.1 == n {
        assert x == (x.0, n);
      }
    }
    assert after == before + more && before !! more;
  }

  /** The bulk workload of a teacher is the number of lessons: of pairs of a working day
      and a slot of the teacher on that day's order. */
  lemma {:induction false} LoadCountsLessons(rows: seq<Day>, slots: seq<Slot>, teacher: int, n: nat)
    requires n <= |slots|
    ensures |Lessons(rows, slots, teacher, |rows|, n)| == BulkLoad(rows, SlotsOf(slots[..n], teacher))
  {
    if n == 0 {
      assert Lessons(rows, slots, teacher, |rows|, 0) == {};
    } else {
      LoadCountsLessons(rows, slots, teacher, n - 1);
      NextSlotLessons(rows, slots, teacher, n - 1);
      NextSlotLoad(rows, slots, teacher, n - 1);
    }
  }

  lemma NextSlotLoad(rows: seq<Day>, slots: seq<Slot>, teacher: int, n: nat)
    requires n < |slots|
    ensures BulkLoad(rows, SlotsOf(slots[..n + 1], teacher))
         == BulkLoad(rows, SlotsOf(slots[..n], teacher))
            + if slots[n].teacher == teacher then Uses(rows, slots[n].order) else 0
  {
    SlotsOfSnoc(slots[..n], slots[n], teacher);
    assert slots[..n + 1] == slots[..n] + [slots[n]];
    var mine := SlotsOf(slots[..n], teacher);
    assert mine + [] == mine;
    BulkLoadSnoc(rows, mine, slots[n].order);
  }

  lemma LoadIsLessons(rows: seq<Day>, slots: seq<Slot>, teacher: int)
    ensures DailyLoad(rows, SlotsOf(slots, teacher)) == |Lessons(rows, slots, teacher, |rows|, |slots|)|
  {
    LoadCountsLessons(rows, slots, teacher, |slots|);
    assert slots[..|slots|] == slots;
    BulkLoadIsDailyLoad(rows, SlotsOf(slots, teacher));
  }

  method CountWorkingOrders(rows: seq<Day>) returns (count: map<int, nat>)
    ensures forall o :: (if o in count then count[o] else 0) == Uses(rows, o)
  {
    count := map[];
    var i := 0;
    assert rows[..0] == [];
    while i < |rows|
      invariant i <= |rows|
      invariant forall o :: (if o in count then count[o] else 0) == Uses(rows[..i], o)
    {
      var day := rows[i];
      assert rows[..i + 1] == rows[..i] + [day];
      forall o ensures Uses(rows[..i + 1], o) == Uses(rows[..i], o) + (if Carries(day, o) then 1 else 0) {
        UsesSnoc(rows[..i], day, o);
      }
      if day.kind == Working && day.order.Some? {
        var o := day.order.value;
        count := count[o := (if o in count then count[o] else 0) + 1];
      }
      i := i + 1;
    }
    assert rows[..|rows|] == rows;
  }

  method SlotsByTeacher(slots: seq<Slot>) returns (byTeacher: map<int, seq<int>>)
    ensures forall t :: (if t in byTeacher then byTeacher[t] else []) == SlotsOf(slots, t)
  {
    byTeacher := map[];
    var i := 0;
    assert slots[..0] == [];
    while i < |slots|
      invariant i <= |slots|
      invariant forall t :: (if t in byTeacher then byTeacher[t] else []) == SlotsOf(slots[..i], t)
    {
      var s := slots[i];
      assert slots[..i + 1] == slots[..i] + [s];
      forall t ensures SlotsOf(slots[..i + 1], t)
                    == SlotsOf(slots[..i], t) + (if s.teacher == t then [s.order] else [])
      {
        SlotsOfSnoc(slots[..i], s, t);
      }
      byTeacher := byTeacher[s.teacher := (if s.teacher in byTeacher then byTeacher[s.teacher] else []) + [s.order]];
      i := i + 1;
    }
    assert slots[..|slots|] == slots;
  }

  // One teacher's total, from the counts of working days by order.
  method TeacherTotal(ghost rows: seq<Day>, count: map<int, nat>, mine: seq<int>) returns (total: nat)
    requires forall o :: (if o in count then count[o] else 0) == Uses(rows, o)
    ensures total == BulkLoad(rows, mine)
  {
    total := 0;
    ghost var seen: seq<int> := [];
    for k := 0 to |mine|
      invariant seen == mine[..k] && total == BulkLoad(rows, seen)
    {
      BulkLoadSnoc(rows, seen, mine[k]);
      total := total + (if mine[k] in count then count[mine[k]] else 0);
      seen := seen + [mine[k]];
    }
    assert seen == mine;
  }

  /** The bulk workload of every teacher is the date-by-date count of the
      classes that teacher has on the calendar's working days. */
  method FacultyWorkload(rows: seq<Day>, slots: seq<Slot>, teachers: seq<int>) returns (report: seq<nat>)
    ensures |report| == |teachers|
    ensures forall i :: 0 <= i < |teachers| ==> report[i] == DailyLoad(rows, SlotsOf(slots, teachers[i]))
    ensures forall i :: 0 <= i < |teachers| ==>
              report[i] == |Lessons(rows, slots, teachers[i], |rows|, |slots|)|
  {
    var count := CountWorkingOrders(rows);
    var byTeacher := SlotsByTeacher(slots);
    report := [];
    for i := 0 to |teachers|
      invariant |report| == i
      invariant forall j :: 0 <= j < i ==> report[j] == DailyLoad(rows, SlotsOf(slots, teachers[j]))
    {
      var mine := if teachers[i] in byTeacher then byTeacher[teachers[i]] else [];
      var total := TeacherTotal(rows, count, mine);
      BulkLoadIsDailyLoad(rows, mine);
      report := report + [total];
    }
    forall i | 0 <= i < |teachers| ensures report[i] == |Lessons(rows, slots, teachers[i], |rows|, |slots|)| {
      LoadIsLessons(rows, slots, teachers[i]);
    }
  }
}
