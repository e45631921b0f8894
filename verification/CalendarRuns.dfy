/**
Which calendars the service's edits leave in order: exactly when one edit does,
from any calendar, and exactly when a whole run of edits does.
*/
module CalendarRuns {
  import opened Options
  import opened DayOrder
  import opened BulkMark
  import opened Calendars

  // ----- One edit, from any calendar -----

  lemma RecomputedPlan(max: int, running: Option<int>, rows: seq<Day>)
    ensures SamePlan(Recompute(max, running, rows), rows)
  {
    RecomputeKeepsRows(max, running, rows);
  }

  // A pass over a concatenation changes nothing exactly when it changes nothing
  // in the first part, and nothing in the second from where the first ends.
  lemma SequencedConcat(max: int, a: seq<Day>, b: seq<Day>)
    ensures Sequenced(max, a + b) <==> Sequenced(max, a) && Recompute(max, Tail(None, a), b) == b
  {
    RecomputeAppend(max, None, a, b);
    RecomputeKeepsRows(max, None, a);
    if Sequenced(max, a + b) {
      SequencedPrefix(max, a, b);
      assert (a + b)[|a|..] == b;
      assert (a + Recompute(max, Tail(None, a), b))[|a|..] == Recompute(max, Tail(None, a), b);
    }
  }

  // What an edit leaves is in order exactly when the rows before it are, the row
  // it writes is, and the walk went on as the full pass would.
  lemma EditedIff(max: int, e: seq<Day>, m: seq<Day>, l: seq<Day>)
    ensures Sequenced(max, e + m + Recompute(max, Tail(None, e), l))
       <==> Sequenced(max, e) && Recompute(max, Tail(None, e), m) == m
            && (!LeadsAuto(l) || Continue(max, Tail(None, e)) == Continue(max, Tail(None, e + m)))
  {
    var walked := Recompute(max, Tail(None, e), l);
    SequencedConcat(max, e + m, walked);
    SequencedConcat(max, e, m);
    RecomputedPlan(max, Tail(None, e), l);
    RecomputeReadsPlan(max, Tail(None, e + m), walked, l);
    PassDependsOnStart(max, Tail(None, e), Tail(None, e + m), l);
  }

  lemma OneRowPass(max: int, running: Option<int>, d: Day)
    ensures Recompute(max, running, [d]) == [Settle(max, running, d)]
  {
    assert [d][1..] == [];
  }

  /** Whatever the calendar was, after a date is marked non-working it is in order
      if and only if the rows before that date were: the edit repairs everything
      after it. */
  lemma BlockedMarkRepairs(max: int, rows: seq<Day>, date: int, kind: DayType, order: Option<int>, pin: Option<bool>)
    requires Dated(rows) && kind != Working
    ensures Sequenced(max, Mark(max, rows, date, kind, order, pin)) <==> Sequenced(max, Earlier(rows, date))
  {
    var e, d := Earlier(rows, date), Blocked(date, kind);
    MarkLayout(max, rows, date, kind, order, pin);
    EditedIff(max, e, [d], Later(rows, date));
    OneRowPass(max, Tail(None, e), d);
    TailAppend(None, e, [d]);
    assert [d][1..] == [];
  }

  /** The same for deleting a date. */
  lemma DeletionRepairs(max: int, rows: seq<Day>, date: int)
    requires Dated(rows)
    ensures Sequenced(max, Delete(max, rows, date)) <==> Sequenced(max, Earlier(rows, date))
  {
    var e := Earlier(rows, date);
    DropShape(rows, date);
    assert e + [] == e;
    EditedIff(max, e, [], Later(rows, date));
  }

  // The row a mark writes is what the full pass would leave there, and either no
  // automatic working day comes next or the order continues as before.
  predicate WorkingMarkFits(max: int, rows: seq<Day>, d: Day) {
    && (d.pinned || d.order == Some(Continue(max, Tail(None, Earlier(rows, d.date)))))
    && (!LeadsAuto(Later(rows, d.date))
        || Continue(max, Tail(None, Earlier(rows, d.date))) == Continue(max, d.order))
  }

  /** After a working mark it is in order if and only if the rows before the date
      were and the mark fits. */
  lemma WorkingMarkRepairsIff(max: int, rows: seq<Day>, date: int, order: Option<int>, pin: Option<bool>)
    requires Dated(rows)
    ensures Sequenced(max, Mark(max, rows, date, Working, order, pin))
       <==> Sequenced(max, Earlier(rows, date))
            && WorkingMarkFits(max, rows, Resolved(max, rows, date, Working, order, pin))
  {
    var e, d := Earlier(rows, date), Resolved(max, rows, date, Working, order, pin);
    MarkLayout(max, rows, date, Working, order, pin);
    EditedIff(max, e, [d], Later(rows, date));
    OneRowPass(max, Tail(None, e), d);
    TailAppend(None, e, [d]);
    assert [d][1..] == [] && Tail(None, e + [d]) == d.order;
  }

  // ----- Runs of edits -----

  datatype Edit =
    | MarkEdit(date: int, kind: DayType, order: Option<int>, pin: Option<bool>)
    | DeleteEdit(date: int)

  function Apply(max: int, rows: seq<Day>, edit: Edit): seq<Day> {
    match edit
    case MarkEdit(date, kind, order, pin) => Mark(max, rows, date, kind, order, pin)
    case DeleteEdit(date) => Delete(max, rows, date)
  }

  // From the empty calendar.
  function RunEdits(max: int, edits: seq<Edit>): seq<Day> {
    if edits == [] then []
    else Apply(max, RunEdits(max, edits[..|edits| - 1]), edits[|edits| - 1])
  }

  predicate Fits(max: int, rows: seq<Day>, edit: Edit) {
    match edit
    case MarkEdit(date, kind, order, pin) =>
      kind == Working ==> WorkingMarkFits(max, rows, Resolved(max, rows, date, kind, order, pin))
    case DeleteEdit(_) => true
  }

  lemma ApplySequencedIff(max: int, rows: seq<Day>, edit: Edit)
    requires Dated(rows)
    ensures Sequenced(max, Apply(max, rows, edit))
       <==> Sequenced(max, Earlier(rows, edit.date)) && Fits(max, rows, edit)
  {
    match edit
    case MarkEdit(date, kind, order, pin) =>
      if kind == Working {
        WorkingMarkRepairsIff(max, rows, date, order, pin);
      } else {
        BlockedMarkRepairs(max, rows, date, kind, order, pin);
      }
    case DeleteEdit(date) => DeletionRepairs(max, rows, date);
  }

  // The rows an edit writes at its date.
  function Written(max: int, rows: seq<Day>, edit: Edit): (m: seq<Day>)
    ensures |m| <= 1 && forall d :: d in m ==> d.date == edit.date
  {
    match edit
    case MarkEdit(date, kind, order, pin) => [Resolved(max, rows, date, kind, order, pin)]
    case DeleteEdit(_) => []
  }

  lemma WalkedShape(max: int, running: Option<int>, l: seq<Day>, date: int)
    requires Dated(l) && AllFrom(l, date)
    ensures Dated(Recompute(max, running, l)) && AllFrom(Recompute(max, running, l), date)
  {
    var walked := Recompute(max, running, l);
    RecomputeKeepsRows(max, running, l);
    forall d | d in walked ensures d.date >= date {
      var i :| 0 <= i < |walked| && walked[i] == d;
      assert l[i] in l;
    }
  }

  lemma ApplyParts(max: int, rows: seq<Day>, edit: Edit)
    requires Dated(rows)
    ensures Apply(max, rows, edit)
         == Earlier(rows, edit.date) + Written(max, rows, edit)
            + Recompute(max, Tail(None, Earlier(rows, edit.date)), Later(rows, edit.date))
  {
    match edit
    case MarkEdit(date, kind, order, pin) => MarkLayout(max, rows, date, kind, order, pin);
    case DeleteEdit(date) => DropShape(rows, date);
  }

  lemma PartsAreDated(e: seq<Day>, m: seq<Day>, walked: seq<Day>, date: int)
    requires Dated(e) && Dated(walked) && AllBefore(e, date) && AllFrom(walked, date + 1)
    requires |m| <= 1 && forall d :: d in m ==> d.date == date
    ensures Dated(e + m + walked)
  {
    Sandwich(e, m, walked, date);
  }

  lemma ApplyLayout(max: int, rows: seq<Day>, edit: Edit)
    requires Dated(rows)
    ensures var e, l := Earlier(rows, edit.date), Later(rows, edit.date);
            var walked := Recompute(max, Tail(None, e), l);
            Apply(max, rows, edit) == e + Written(max, rows, edit) + walked && Dated(walked)
            && AllFrom(walked, edit.date + 1) && Dated(e + Written(max, rows, edit) + walked)
  {
    var e, l := Earlier(rows, edit.date), Later(rows, edit.date);
    Around(rows, edit.date);
    WalkedShape(max, Tail(None, e), l, edit.date + 1);
    PartsAreDated(e, Written(max, rows, edit), Recompute(max, Tail(None, e), l), edit.date);
    ApplyParts(max, rows, edit);
  }

  // ----- What an edit does to the rows before some date -----

  lemma {:induction false} CutTwice(rows: seq<Day>, a: int, b: int)
    requires Dated(rows) && a <= b
    ensures Cut(rows, a) <= Cut(rows, b) && Cut(Earlier(rows, b), a) == Cut(rows, a)
  {
    if rows != [] && rows[0].date < b {
      assert Earlier(rows, b) == [rows[0]] + Earlier(rows[1..], b);
      if rows[0].date < a {
        CutTwice(rows[1..], a, b);
        assert Earlier(rows, b)[1..] == Earlier(rows[1..], b);
      }
    }
  }

  lemma EarlierTwice(rows: seq<Day>, a: int, b: int)
    requires Dated(rows) && a <= b
    ensures Earlier(Earlier(rows, b), a) == Earlier(rows, a) && Dated(Earlier(rows, b))
  {
    CutTwice(rows, a, b);
    assert rows[..Cut(rows, b)][..Cut(rows, a)] == rows[..Cut(rows, a)];
  }

  // The rows after a and before b.
  lemma LaterOfEarlier(rows: seq<Day>, a: int, b: int)
    requires Dated(rows) && a < b
    ensures Later(Earlier(rows, b), a) == Earlier(Later(rows, a), b)
  {
    var i, j := Cut(rows, a + 1), Cut(rows, b);
    CutTwice(rows, a + 1, b);
    CutSplits(rows, b);
    assert Later(Earlier(rows, b), a) == rows[i..j];
    assert rows[i..] == rows[i..j] + rows[j..];
    forall d | d in rows[i..j] ensures d.date < b {
      assert d in rows[..j];
    }
    CutConcat(rows[i..j], rows[j..], b);
    assert rows[i..][..j - i] == rows[i..j];
  }

  lemma CutOfConcat(a: seq<Day>, b: seq<Day>, date: int)
    requires AllBefore(a, date)
    ensures Earlier(a + b, date) == a + Earlier(b, date)
    decreases a
  {
    if a == [] {
      assert a + b == b;
    } else {
      assert a[0] in a && (a + b)[1..] == a[1..] + b;
      CutOfConcat(a[1..], b, date);
      assert Earlier(a + b, date) == [a[0]] + Earlier(a[1..] + b, date);
    }
  }

  // A prefix of the pass is the pass over the prefix.
  lemma {:induction false} PassOfEarlier(max: int, running: Option<int>, rows: seq<Day>, date: int)
    ensures Earlier(Recompute(max, running, rows), date) == Recompute(max, running, Earlier(rows, date))
    decreases rows
  {
    if rows != [] && rows[0].date < date {
      var d := Settle(max, running, rows[0]);
      var all := Recompute(max, running, rows);
      PassOfEarlier(max, After(running, d), rows[1..], date);
      assert all[0] == d && all[1..] == Recompute(max, After(running, d), rows[1..]);
      assert Earlier(all, date) == [d] + Earlier(all[1..], date);
      assert Earlier(rows, date) == [rows[0]] + Earlier(rows[1..], date);
      assert Earlier(rows, date)[1..] == Earlier(rows[1..], date);
    }
  }

  lemma WrittenReads(max: int, a: seq<Day>, b: seq<Day>, edit: Edit)
    requires Earlier(a, edit.date) == Earlier(b, edit.date)
    ensures Written(max, a, edit) == Written(max, b, edit)
  {
  }

  // Cutting what an edit left, before and after the edited date.
  lemma CutAfterEdit(max: int, e: seq<Day>, m: seq<Day>, l: seq<Day>, edited: int, date: int)
    requires AllBefore(e, edited) && (forall d :: d in m ==> d.date == edited) && edited < date
    ensures Earlier(e + m + Recompute(max, Tail(None, e), l), date)
         == e + m + Recompute(max, Tail(None, e), Earlier(l, date))
  {
    forall d: Day | d in e + m ensures d.date < date {
      assert d in e || d in m;
    }
    CutOfConcat(e + m, Recompute(max, Tail(None, e), l), date);
    PassOfEarlier(max, Tail(None, e), l, date);
  }

  lemma CutBeforeEdit(e: seq<Day>, m: seq<Day>, walked: seq<Day>, edited: int)
    requires AllBefore(e, edited) && (forall d :: d in m ==> d.date == edited) && AllFrom(walked, edited + 1)
    ensures Earlier(e + m + walked, edited) == e
  {
    assert e + m + walked == e + (m + walked);
    forall d: Day | d in m + walked ensures d.date >= edited {
      assert d in m || d in walked;
    }
    CutConcat(e, m + walked, edited);
  }

  // An edit before a date is the same edit of the rows before that date.
  lemma EditBefore(max: int, rows: seq<Day>, edit: Edit, date: int)
    requires Dated(rows) && edit.date < date
    ensures Earlier(Apply(max, rows, edit), date) == Apply(max, Earlier(rows, date), edit)
  {
    var e, l, m := Earlier(rows, edit.date), Later(rows, edit.date), Written(max, rows, edit);
    Around(rows, edit.date);
    EarlierTwice(rows, edit.date, date);
    LaterOfEarlier(rows, edit.date, date);
    WrittenReads(max, rows, Earlier(rows, date), edit);
    ApplyLayout(max, Earlier(rows, date), edit);
    assert Apply(max, Earlier(rows, date), edit) == e + m + Recompute(max, Tail(None, e), Earlier(l, date));
    ApplyLayout(max, rows, edit);
    CutAfterEdit(max, e, m, l, edit.date, date);
  }

  // An edit from a date on leaves the rows before that date alone.
  lemma EditFrom(max: int, rows: seq<Day>, edit: Edit, date: int)
    requires Dated(rows) && date <= edit.date
    ensures Earlier(Apply(max, rows, edit), date) == Earlier(rows, date)
  {
    var e, l, m := Earlier(rows, edit.date), Later(rows, edit.date), Written(max, rows, edit);
    Around(rows, edit.date);
    ApplyLayout(max, rows, edit);
    CutBeforeEdit(e, m, Recompute(max, Tail(None, e), l), edit.date);
    EarlierTwice(Apply(max, rows, edit), date, edit.date);
    EarlierTwice(rows, date, edit.date);
  }

  // ----- Exactly when a run leaves the rows before a date in order -----

  // Read backwards: an edit from that date on does not matter; an edit before it
  // must fit, and the rows before the edit must have been in order.
  predicate Clean(max: int, edits: seq<Edit>, date: int) {
    edits == [] ||
    var front, edit := edits[..|edits| - 1], edits[|edits| - 1];
    if edit.date < date
    then Fits(max, Earlier(RunEdits(max, front), date), edit) && Clean(max, front, edit.date)
    else Clean(max, front, date)
  }

  lemma {:induction false} RunIsDated(max: int, edits: seq<Edit>)
    ensures Dated(RunEdits(max, edits))
  {
    if edits != [] {
      RunIsDated(max, edits[..|edits| - 1]);
      ApplyLayout(max, RunEdits(max, edits[..|edits| - 1]), edits[|edits| - 1]);
    }
  }

  /** After any run of marks and deletions from the empty calendar, the rows before
      a date agree with the full pass if and only if the run was clean up to that
      date. */
  lemma {:induction false} RunSequencedIff(max: int, edits: seq<Edit>, date: int)
    ensures Sequenced(max, Earlier(RunEdits(max, edits), date)) <==> Clean(max, edits, date)
  {
    if edits != [] {
      var front, edit := edits[..|edits| - 1], edits[|edits| - 1];
      var rows := RunEdits(max, front);
      RunIsDated(max, front);
      if edit.date < date {
        EditBefore(max, rows, edit, date);
        EarlierTwice(rows, edit.date, date);
        ApplySequencedIff(max, Earlier(rows, date), edit);
        RunSequencedIff(max, front, edit.date);
      } else {
        EditFrom(max, rows, edit, date);
        RunSequencedIff(max, front, date);
      }
    }
  }

  /** In particular a run in which every working mark fits when it is made leaves
      the whole calendar in order. */
  lemma {:induction false} FittingRunIsSequenced(max: int, edits: seq<Edit>)
    requires forall i :: 0 <= i < |edits| ==> Fits(max, RunEdits(max, edits[..i]), edits[i])
    ensures Dated(RunEdits(max, edits)) && Sequenced(max, RunEdits(max, edits))
  {
    RunIsDated(max, edits);
    if edits != [] {
      var n := |edits| - 1;
      var front := edits[..n];
      forall i | 0 <= i < n ensures Fits(max, RunEdits(max, front[..i]), front[i]) {
        assert front[..i] == edits[..i];
      }
      FittingRunIsSequenced(max, front);
      SequencedEarlier(max, RunEdits(max, front), edits[n].date);
      ApplySequencedIff(max, RunEdits(max, front), edits[n]);
    }
  }

  // ----- An explicit order stays -----

  // From any calendar.
  function ApplyAll(max: int, rows: seq<Day>, edits: seq<Edit>): seq<Day>
    decreases edits
  {
    if edits == [] then rows else ApplyAll(max, Apply(max, rows, edits[0]), edits[1..])
  }

  lemma {:induction false} PinnedDayStays(max: int, rows: seq<Day>, edits: seq<Edit>, d: Day)
    requires Dated(rows) && Proper(rows) && d in rows && d.pinned
    requires forall i :: 0 <= i < |edits| ==> edits[i].date != d.date
    ensures FindDay(ApplyAll(max, rows, edits), d.date) == Some(d)
    decreases edits
  {
    if edits == [] {
      FoundIff(rows, d.date, d);
    } else {
      match edits[0] {
        case MarkEdit(date, kind, order, pin) =>
          MarkKeepsShape(max, rows, date, kind, order, pin);
          MarkKeepsPinned(max, rows, date, kind, order, pin, d);
        case DeleteEdit(date) =>
          DeleteKeepsShape(max, rows, date);
          DeleteKeepsPinned(max, rows, date, d);
      }
      PinnedDayStays(max, Apply(max, rows, edits[0]), edits[1..], d);
    }
  }

  /** An explicit order given without a flag is what the date carries after any
      number of edits of other dates. */
  lemma ExplicitOrderStays(max: int, rows: seq<Day>, date: int, order: int, edits: seq<Edit>)
    requires Dated(rows) && Proper(rows) && forall i :: 0 <= i < |edits| ==> edits[i].date != date
    ensures FindDay(ApplyAll(max, Mark(max, rows, date, Working, Some(order), None), edits), date)
         == Some(Day(date, Working, Some(order), true))
  {
    var marked := Mark(max, rows, date, Working, Some(order), None);
    MarkKeepsShape(max, rows, date, Working, Some(order), None);
    MarkedDayReadsBack(max, rows, date, Working, Some(order), None);
    FoundIff(marked, date, Day(date, Working, Some(order), true));
    PinnedDayStays(max, marked, edits, Day(date, Working, Some(order), true));
  }
}
