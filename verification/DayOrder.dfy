/**
The Day Order rotation: the calendar table read in date order, and what one
left-to-right pass over it would compute.

Each working day carries an order 1..max. A pinned day keeps the order an
administrator gave it; every other working day continues the rotation from the
working day before it; non-working days carry no order and pause the rotation.
*/
module DayOrder {
  import opened Options

  datatype DayType =
    | Working | Holiday | CollegeLeave | GovernmentHoliday
    | ExamDay | SpecialEvent | DepartmentActivity | NonWorking

  datatype Day = Day(date: int, kind: DayType, order: Option<int>, pinned: bool)

  // ----- Shape of the table -----

  // One row per date, read in date order.
  predicate Dated(rows: seq<Day>) {
    forall i, j :: 0 <= i < j < |rows| ==> rows[i].date < rows[j].date
  }

  // Working days have an order; other days have neither an order nor a pin.
  predicate ProperDay(d: Day) {
    if d.kind == Working then d.order.Some? else d.order.None? && !d.pinned
  }

  predicate Proper(rows: seq<Day>) {
    forall d :: d in rows ==> ProperDay(d)
  }

  predicate Auto(d: Day) {
    d.kind == Working && !d.pinned
  }

  // ----- The rotation -----

  function Next(max: int, current: int): int {
    if current >= max then 1 else current + 1
  }

  function Continue(max: int, running: Option<int>): int {
    match running
    case None => 1
    case Some(o) => Next(max, o)
  }

  function Settle(max: int, running: Option<int>, d: Day): Day {
    if Auto(d) then d.(order := Some(Continue(max, running))) else d
  }

  function After(running: Option<int>, d: Day): Option<int> {
    if d.kind == Working then d.order else running
  }

  // The order of the last working row, or `running` when there is none.
  function Tail(running: Option<int>, rows: seq<Day>): Option<int>
    decreases rows
  {
    if rows == [] then running else Tail(After(running, rows[0]), rows[1..])
  }

  // The one-pass reference: recompute every automatic order from the left.
  function Recompute(max: int, running: Option<int>, rows: seq<Day>): seq<Day>
    decreases rows
  {
    if rows == [] then []
    else
      var d := Settle(max, running, rows[0]);
      [d] + Recompute(max, After(running, d), rows[1..])
  }

  ghost predicate Sequenced(max: int, rows: seq<Day>) {
    Recompute(max, None, rows) == rows
  }

  // ----- Edits of the table -----

  // How many rows lie before `date`.
  function Cut(rows: seq<Day>, date: int): (n: nat)
    ensures n <= |rows|
  {
    if rows == [] || rows[0].date >= date then 0 else 1 + Cut(rows[1..], date)
  }

  function Earlier(rows: seq<Day>, date: int): seq<Day> { rows[..Cut(rows, date)] }

  function Later(rows: seq<Day>, date: int): seq<Day> { rows[Cut(rows, date + 1)..] }

  function Drop(rows: seq<Day>, date: int): seq<Day> { Earlier(rows, date) + Later(rows, date) }

  function Put(rows: seq<Day>, d: Day): seq<Day> { Earlier(rows, d.date) + [d] + Later(rows, d.date) }

  // The incremental walk as written: the predecessor is looked up strictly
  // before `date`, and only rows strictly after `date` are rewritten.
  function Resequence(max: int, rows: seq<Day>, date: int): seq<Day> {
    rows[..Cut(rows, date + 1)] + Recompute(max, Tail(None, Earlier(rows, date)), Later(rows, date))
  }

  // The same walk with a predecessor lookup that includes `date` itself.
  function ResequenceInclusive(max: int, rows: seq<Day>, date: int): seq<Day> {
    rows[..Cut(rows, date + 1)] + Recompute(max, Tail(None, rows[..Cut(rows, date + 1)]), Later(rows, date))
  }

  // The row that marking `date` writes.
  function Resolved(max: int, rows: seq<Day>, date: int, kind: DayType,
                    order: Option<int>, pin: Option<bool>): Day
  {
    if kind != Working then Day(date, kind, None, false)
    else if order.Some? then Day(date, Working, order, if pin.None? then true else pin.value)
    else Day(date, Working, Some(Continue(max, Tail(None, Earlier(rows, date)))), false)
  }

  function Mark(max: int, rows: seq<Day>, date: int, kind: DayType,
                order: Option<int>, pin: Option<bool>): seq<Day>
  {
    Resequence(max, Put(rows, Resolved(max, rows, date, kind, order, pin)), date)
  }

  function Delete(max: int, rows: seq<Day>, date: int): seq<Day> {
    Resequence(max, Drop(rows, date), date)
  }

  // ----- Cutting a dated table -----

  predicate AllBefore(rows: seq<Day>, date: int) {
    forall d :: d in rows ==> d.date < date
  }

  predicate AllFrom(rows: seq<Day>, date: int) {
    forall d :: d in rows ==> d.date >= date
  }

  lemma {:induction false} CutSplits(rows: seq<Day>, date: int)
    requires Dated(rows)
    ensures AllBefore(rows[..Cut(rows, date)], date)
    ensures AllFrom(rows[Cut(rows, date)..], date)
  {
    if rows != [] && rows[0].date < date {
      CutSplits(rows[1..], date);
      assert rows[..Cut(rows, date)] == [rows[0]] + rows[1..][..Cut(rows[1..], date)];
      assert rows[Cut(rows, date)..] == rows[1..][Cut(rows[1..], date)..];
    } else {
      assert rows[..0] == [];
    }
  }

  lemma {:induction false} CutConcat(a: seq<Day>, b: seq<Day>, date: int)
    requires AllBefore(a, date) && AllFrom(b, date)
    ensures Cut(a + b, date) == |a|
    decreases a
  {
    if a == [] {
      assert a + b == b;
      if b != [] { assert b[0] in b; }
    } else {
      assert a[0] in a;
      assert (a + b)[1..] == a[1..] + b;
      CutConcat(a[1..], b, date);
    }
  }

  lemma {:induction false} CutAdvances(rows: seq<Day>, date: int)
    requires Dated(rows)
    ensures Cut(rows, date) <= Cut(rows, date + 1) <= Cut(rows, date) + 1
  {
    if rows != [] && rows[0].date < date {
      CutAdvances(rows[1..], date);
    }
  }

  lemma DatedConcat(a: seq<Day>, b: seq<Day>, date: int)
    requires Dated(a) && Dated(b) && AllBefore(a, date) && AllFrom(b, date)
    ensures Dated(a + b)
  {
    forall i, j | 0 <= i < j < |a + b| ensures (a + b)[i].date < (a + b)[j].date {
      if i < |a| <= j {
        assert a[i] in a && b[j - |a|] in b;
      }
    }
  }

  // The rows around a date.
  lemma Around(rows: seq<Day>, date: int)
    requires Dated(rows)
    ensures Dated(Earlier(rows, date)) && Dated(Later(rows, date))
    ensures AllBefore(Earlier(rows, date), date) && AllFrom(Later(rows, date), date + 1)
    ensures forall d :: d in rows && d.date < date ==> d in Earlier(rows, date)
    ensures forall d :: d in rows && d.date > date ==> d in Later(rows, date)
  {
    var a, b := Cut(rows, date), Cut(rows, date + 1);
    CutSplits(rows, date);
    CutSplits(rows, date + 1);
    assert rows == rows[..a] + rows[a..];
    assert rows == rows[..b] + rows[b..];
  }

  // Cutting e + m + l, where m holds only rows dated `date`.
  lemma Sandwich(e: seq<Day>, m: seq<Day>, l: seq<Day>, date: int)
    requires Dated(e) && Dated(l) && |m| <= 1
    requires AllBefore(e, date) && AllFrom(l, date + 1) && (forall d :: d in m ==> d.date == date)
    ensures Dated(e + m + l)
    ensures Cut(e + m + l, date) == |e| && Cut(e + m + l, date + 1) == |e + m|
    ensures Earlier(e + m + l, date) == e && Later(e + m + l, date) == l
  {
    assert e + m + l == e + (m + l);
    CutConcat(e, m + l, date);
    CutConcat(e + m, l, date + 1);
    DatedConcat(e, m, date);
    DatedConcat(e + m, l, date + 1);
  }

  // After an edit, the rows around the date are still the rows around it.
  lemma PutShape(rows: seq<Day>, d: Day)
    requires Dated(rows)
    ensures Dated(Put(rows, d))
    ensures Earlier(Put(rows, d), d.date) == Earlier(rows, d.date)
    ensures Later(Put(rows, d), d.date) == Later(rows, d.date)
    ensures Put(rows, d)[..Cut(Put(rows, d), d.date + 1)] == Earlier(rows, d.date) + [d]
  {
    Around(rows, d.date);
    Sandwich(Earlier(rows, d.date), [d], Later(rows, d.date), d.date);
  }

  lemma DropShape(rows: seq<Day>, date: int)
    requires Dated(rows)
    ensures Dated(Drop(rows, date))
    ensures Earlier(Drop(rows, date), date) == Earlier(rows, date)
    ensures Later(Drop(rows, date), date) == Later(rows, date)
    ensures Drop(rows, date)[..Cut(Drop(rows, date), date + 1)] == Earlier(rows, date)
  {
    Around(rows, date);
    assert Earlier(rows, date) + [] + Later(rows, date) == Drop(rows, date);
    Sandwich(Earlier(rows, date), [], Later(rows, date), date);
  }

  // ----- The reference pass -----

  lemma {:induction false} RecomputeKeepsRows(max: int, running: Option<int>, rows: seq<Day>)
    ensures |Recompute(max, running, rows)| == |rows|
    ensures forall i :: 0 <= i < |rows| ==>
              var r := Recompute(max, running, rows)[i];
              r.date == rows[i].date && r.kind == rows[i].kind && r.pinned == rows[i].pinned
              && (!Auto(rows[i]) ==> r == rows[i]) && (Auto(rows[i]) ==> r.order.Some?)
    decreases rows
  {
    if rows != [] {
      RecomputeKeepsRows(max, After(running, Settle(max, running, rows[0])), rows[1..]);
    }
  }

  lemma {:induction false} RecomputeAppend(max: int, running: Option<int>, a: seq<Day>, b: seq<Day>)
    ensures Recompute(max, running, a + b)
         == Recompute(max, running, a) + Recompute(max, Tail(running, Recompute(max, running, a)), b)
    decreases a
  {
    if a == [] {
      assert a + b == b;
    } else {
      var d := Settle(max, running, a[0]);
      assert (a + b)[0] == a[0] && (a + b)[1..] == a[1..] + b;
      RecomputeAppend(max, After(running, d), a[1..], b);
      assert Recompute(max, running, a)[1..] == Recompute(max, After(running, d), a[1..]);
    }
  }

  lemma {:induction false} TailAppend(running: Option<int>, a: seq<Day>, b: seq<Day>)
    ensures Tail(running, a + b) == Tail(Tail(running, a), b)
    decreases a
  {
    if a == [] {
      assert a + b == b;
    } else {
      assert (a + b)[1..] == a[1..] + b;
      TailAppend(After(running, a[0]), a[1..], b);
    }
  }

  lemma {:induction false} RecomputeTwice(max: int, running: Option<int>, rows: seq<Day>)
    ensures Recompute(max, running, Recompute(max, running, rows)) == Recompute(max, running, rows)
    decreases rows
  {
    if rows != [] {
      var d := Settle(max, running, rows[0]);
      RecomputeTwice(max, After(running, d), rows[1..]);
      assert Recompute(max, running, rows)[1..] == Recompute(max, After(running, d), rows[1..]);
    }
  }

  // Every prefix of a sequenced table is sequenced.
  lemma SequencedPrefix(max: int, a: seq<Day>, b: seq<Day>)
    requires Sequenced(max, a + b)
    ensures Sequenced(max, a)
  {
    RecomputeAppend(max, None, a, b);
    RecomputeKeepsRows(max, None, a);
    assert Recompute(max, None, a) == (a + b)[..|a|];
  }

  lemma SequencedEarlier(max: int, rows: seq<Day>, date: int)
    requires Sequenced(max, rows)
    ensures Sequenced(max, Earlier(rows, date))
  {
    var c := Cut(rows, date);
    assert rows == rows[..c] + rows[c..];
    SequencedPrefix(max, rows[..c], rows[c..]);
  }

  // ----- The incremental walk against the reference pass -----

  // What an edit leaves behind.
  lemma MarkLayout(max: int, rows: seq<Day>, date: int, kind: DayType, order: Option<int>, pin: Option<bool>)
    requires Dated(rows)
    ensures Mark(max, rows, date, kind, order, pin)
         == Earlier(rows, date) + [Resolved(max, rows, date, kind, order, pin)]
            + Recompute(max, Tail(None, Earlier(rows, date)), Later(rows, date))
  {
    PutShape(rows, Resolved(max, rows, date, kind, order, pin));
  }

  // What the full pass computes around a row it leaves as it stands.
  lemma FullPassAround(max: int, rows: seq<Day>, d: Day)
    requires Dated(rows) && Sequenced(max, rows)
    requires Settle(max, Tail(None, Earlier(rows, d.date)), d) == d
    ensures Recompute(max, None, Put(rows, d))
         == Earlier(rows, d.date) + [d]
            + Recompute(max, After(Tail(None, Earlier(rows, d.date)), d), Later(rows, d.date))
  {
    var e, l := Earlier(rows, d.date), Later(rows, d.date);
    var running := After(Tail(None, e), d);
    SequencedEarlier(max, rows, d.date);
    assert Put(rows, d) == e + ([d] + l);
    RecomputeAppend(max, None, e, [d] + l);
    assert Recompute(max, Tail(None, e), [d] + l) == [d] + Recompute(max, running, l) by {
      assert ([d] + l)[1..] == l;
    }
    assert e + ([d] + Recompute(max, running, l)) == e + [d] + Recompute(max, running, l);
  }

  /** Marking a date as non-working with the incremental walk gives exactly
      the full recompute of the edited calendar. */
  lemma MarkBlockedIsFullRecompute(max: int, rows: seq<Day>, date: int, kind: DayType,
                                   order: Option<int>, pin: Option<bool>)
    requires Dated(rows) && Sequenced(max, rows) && kind != Working
    ensures Mark(max, rows, date, kind, order, pin)
         == Recompute(max, None, Put(rows, Day(date, kind, None, false)))
  {
    MarkLayout(max, rows, date, kind, order, pin);
    FullPassAround(max, rows, Day(date, kind, None, false));
  }

  /** Deleting any date with the incremental walk gives exactly the full
      recompute of the calendar without it. */
  lemma DeleteIsFullRecompute(max: int, rows: seq<Day>, date: int)
    requires Dated(rows) && Sequenced(max, rows)
    ensures Delete(max, rows, date) == Recompute(max, None, Drop(rows, date))
  {
    DropShape(rows, date);
    SequencedEarlier(max, rows, date);
    RecomputeAppend(max, None, Earlier(rows, date), Later(rows, date));
  }

  // A working row that the full pass would leave as it stands where it is put.
  predicate SettledAt(max: int, rows: seq<Day>, d: Day) {
    d.kind == Working
    && (d.pinned || d.order == Some(Continue(max, Tail(None, Earlier(rows, d.date)))))
  }

  /** With a predecessor lookup that includes the edited date, marking a
      working day is the full recompute as well. */
  lemma InclusiveWalkIsFullRecompute(max: int, rows: seq<Day>, d: Day)
    requires Dated(rows) && Sequenced(max, rows) && SettledAt(max, rows, d)
    ensures ResequenceInclusive(max, Put(rows, d), d.date) == Recompute(max, None, Put(rows, d))
  {
    var e := Earlier(rows, d.date);
    PutShape(rows, d);
    FullPassAround(max, rows, d);
    TailAppend(None, e, [d]);
    assert [d][1..] == [];
    assert Tail(None, e + [d]) == d.order;
  }

  // Whether the first working row, if any, is an automatic one.
  predicate LeadsAuto(rows: seq<Day>) {
    rows != [] && (if rows[0].kind == Working then !rows[0].pinned else LeadsAuto(rows[1..]))
  }

  function FirstWorking(rows: seq<Day>): (i: nat)
    requires LeadsAuto(rows)
    ensures i < |rows| && Auto(rows[i])
    ensures forall j :: 0 <= j < i ==> rows[j].kind != Working
  {
    if rows[0].kind == Working then 0 else 1 + FirstWorking(rows[1..])
  }

  lemma {:induction false} FirstWorkingContinues(max: int, running: Option<int>, rows: seq<Day>)
    requires LeadsAuto(rows)
    ensures |Recompute(max, running, rows)| == |rows|
    ensures Recompute(max, running, rows)[FirstWorking(rows)].order == Some(Continue(max, running))
  {
    RecomputeKeepsRows(max, running, rows);
    if rows[0].kind != Working {
      FirstWorkingContinues(max, running, rows[1..]);
    }
  }

  // Two starting orders give the same pass exactly when no automatic row
  // reads them or they continue alike.
  lemma {:induction false} PassDependsOnStart(max: int, r1: Option<int>, r2: Option<int>, rows: seq<Day>)
    ensures Recompute(max, r1, rows) == Recompute(max, r2, rows)
       <==> !LeadsAuto(rows) || Continue(max, r1) == Continue(max, r2)
  {
    if rows == [] {
    } else if rows[0].kind != Working {
      PassDependsOnStart(max, r1, r2, rows[1..]);
      assert Recompute(max, r1, rows)[1..] == Recompute(max, r1, rows[1..]);
      assert Recompute(max, r2, rows)[1..] == Recompute(max, r2, rows[1..]);
    } else {
      assert Recompute(max, r1, rows)[0] == Settle(max, r1, rows[0]);
      assert Recompute(max, r2, rows)[0] == Settle(max, r2, rows[0]);
    }
  }

  /** When the walk as written agrees with the full recompute for a working
      day: exactly when the next working day is absent or pinned, or the
      edited order happens to continue as the predecessor's order does. */
  lemma WorkingMarkAgreesIff(max: int, rows: seq<Day>, d: Day)
    requires Dated(rows) && Sequenced(max, rows) && SettledAt(max, rows, d)
    ensures Resequence(max, Put(rows, d), d.date) == Recompute(max, None, Put(rows, d))
       <==> !LeadsAuto(Later(rows, d.date))
            || Continue(max, Tail(None, Earlier(rows, d.date))) == Continue(max, d.order)
  {
    var e, l := Earlier(rows, d.date), Later(rows, d.date);
    var prior := Tail(None, e);
    PutShape(rows, d);
    FullPassAround(max, rows, d);
    var walked := e + [d] + Recompute(max, prior, l);
    assert Resequence(max, Put(rows, d), d.date) == walked;
    assert walked[|e| + 1..] == Recompute(max, prior, l);
    assert (e + [d] + Recompute(max, d.order, l))[|e| + 1..] == Recompute(max, d.order, l);
    PassDependsOnStart(max, prior, d.order, l);
  }

  /** Marking a working day without an explicit order (also what clearing an
      override does), when an automatic working day follows: that following
      day receives the same order again. With more than one order this is
      never what the full recompute gives. */
  lemma DerivedMarkRepeatsOrder(max: int, rows: seq<Day>, date: int, pin: Option<bool>)
    requires Dated(rows) && Sequenced(max, rows) && LeadsAuto(Later(rows, date))
    ensures var marked := Mark(max, rows, date, Working, None, pin);
            var here := |Earlier(rows, date)|;
            var next := here + 1 + FirstWorking(Later(rows, date));
            && next < |marked| && marked[here].date == date
            && marked[here].kind == marked[next].kind == Working
            && (forall i :: here < i < next ==> marked[i].kind != Working)
            && marked[here].order == marked[next].order
  {
    MarkLayout(max, rows, date, Working, None, pin);
    RecomputeKeepsRows(max, Tail(None, Earlier(rows, date)), Later(rows, date));
    FirstWorkingContinues(max, Tail(None, Earlier(rows, date)), Later(rows, date));
  }

  // Orders lie in 1..max, as request validation and the table's check require.
  predicate InRange(max: int, rows: seq<Day>) {
    forall d :: d in rows && d.order.Some? ==> 1 <= d.order.value <= max
  }

  lemma {:induction false} TailInRange(max: int, running: Option<int>, rows: seq<Day>)
    requires InRange(max, rows) && (running.Some? ==> 1 <= running.value <= max)
    ensures Tail(running, rows).Some? ==> 1 <= Tail(running, rows).value <= max
    decreases rows
  {
    if rows != [] {
      assert rows[0] in rows;
      TailInRange(max, After(running, rows[0]), rows[1..]);
    }
  }

  /** So a derived mark agrees with the full recompute exactly when no
      automatic working day comes next (or there is only one order). */
  lemma DerivedMarkAgreesIff(max: int, rows: seq<Day>, date: int, pin: Option<bool>)
    requires Dated(rows) && Sequenced(max, rows) && max >= 1 && InRange(max, rows)
    ensures Mark(max, rows, date, Working, None, pin)
            == Recompute(max, None, Put(rows, Resolved(max, rows, date, Working, None, pin)))
       <==> !LeadsAuto(Later(rows, date)) || max == 1
  {
    TailInRange(max, None, Earlier(rows, date));
    WorkingMarkAgreesIff(max, rows, Resolved(max, rows, date, Working, None, pin));
  }

  /** Pinning order `order` on a date (skip or reassign) agrees with the full
      recompute exactly when no automatic working day comes next, or the pinned
      order equals the predecessor's (max, when there is no predecessor). */
  lemma PinAgreesIff(max: int, rows: seq<Day>, date: int, order: int)
    requires Dated(rows) && Sequenced(max, rows) && InRange(max, rows) && 1 <= order <= max
    ensures var prior := Tail(None, Earlier(rows, date));
            (Mark(max, rows, date, Working, Some(order), Some(true))
             == Recompute(max, None, Put(rows, Day(date, Working, Some(order), true)))
             <==> !LeadsAuto(Later(rows, date)) || order == (if prior.Some? then prior.value else max))
  {
    TailInRange(max, None, Earlier(rows, date));
    WorkingMarkAgreesIff(max, rows, Day(date, Working, Some(order), true));
  }

  // The same row, but for the order of an automatic one.
  predicate SameRow(a: Day, b: Day) {
    a.date == b.date && a.kind == b.kind && a.pinned == b.pinned && (!Auto(a) ==> b == a)
  }

  predicate SameRows(a: seq<Day>, b: seq<Day>) {
    |a| == |b| && forall i :: 0 <= i < |a| ==> SameRow(a[i], b[i])
  }

  lemma PassKeepsRows(max: int, running: Option<int>, rows: seq<Day>)
    ensures SameRows(rows, Recompute(max, running, rows))
  {
    RecomputeKeepsRows(max, running, rows);
  }

  lemma PartsOf(e: seq<Day>, d: Day, rest: seq<Day>)
    ensures (e + [d] + rest)[..|e|] == e && (e + [d] + rest)[|e| + 1..] == rest
  {
  }

  /** No edit touches an earlier row, and no edit changes a pinned row
      elsewhere; later rows keep their date, kind and pin. */
  lemma MarkKeepsOtherRows(max: int, rows: seq<Day>, date: int, kind: DayType,
                           order: Option<int>, pin: Option<bool>)
    requires Dated(rows)
    ensures var marked, here := Mark(max, rows, date, kind, order, pin), |Earlier(rows, date)|;
            here < |marked| && marked[..here] == Earlier(rows, date) && SameRows(Later(rows, date), marked[here + 1..])
  {
    var e := Earlier(rows, date);
    MarkLayout(max, rows, date, kind, order, pin);
    PassKeepsRows(max, Tail(None, e), Later(rows, date));
    PartsOf(e, Resolved(max, rows, date, kind, order, pin), Recompute(max, Tail(None, e), Later(rows, date)));
  }
}
