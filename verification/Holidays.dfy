/**
What can still happen on a date that is not, or no longer, a working day.
*/
module Holidays {
  import opened Options
  import opened Leaves
  import opened LeaveLaws
  import opened LeaveTheorems
  import opened LeaveChecks

  /** Such a date gets no new leave and no approval. */
  lemma HolidayGetsNoLeave(w: World, s: State, c: Command, id: int)
    requires Inv(s) && id in Step(w, s, c).leaves && Step(w, s, c).leaves[id].date !in w.calendar
    ensures id in s.leaves
    ensures Step(w, s, c).leaves[id].status == Approved ==> s.leaves[id].status == Approved
  {
    if Accepted(w, s, c) {
      if Submission(c) {
        SubmissionFrame(w, s, c);
      } else if c.ClearByTeacher? {
        ClearBelowAddsNothing(s, c.teacher, s.nextId, id);
      }
    }
  }

  /** A leave on such a date gets a new substitute if and only if an override of it
      is accepted: no assignment and no autonomous pass names one. */
  lemma HolidayCoverIffOverride(w: World, s: State, c: Command, id: int)
    requires Inv(s) && id in s.leaves && s.leaves[id].date !in w.calendar
    ensures NewlyCovers(s, Step(w, s, c), id) <==> Accepted(w, s, c) && c.Override? && c.id == id
  {
    if NewlyCovers(s, Step(w, s, c), id) {
      NewCoverComesFrom(w, s, c, id);
      if Submission(c) || c.Approve? {
        PassNames(w, s, c, id);
      }
    }
  }

  // The step appends a ledger row tagged with the leave.
  ghost predicate AppendsTag(s: State, r: State, id: int) {
    exists k :: |s.ledger| <= k < |r.ledger| && r.ledger[k].leave == Some(id)
  }

  ghost predicate Grows(s: State, r: State) {
    |s.ledger| <= |r.ledger| && r.ledger[..|s.ledger|] == s.ledger
  }

  lemma AppendsThrough(s: State, m: State, r: State, id: int)
    requires Grows(s, m) && Grows(m, r)
    ensures Grows(s, r) && (AppendsTag(s, r, id) <==> AppendsTag(s, m, id) || AppendsTag(m, r, id))
  {
    assert forall k :: 0 <= k < |m.ledger| ==> r.ledger[k] == m.ledger[k] by {
      assert forall k :: 0 <= k < |m.ledger| ==> r.ledger[..|m.ledger|][k] == m.ledger[k];
    }
    assert r.ledger[..|s.ledger|] == m.ledger[..|s.ledger|];
    if AppendsTag(s, r, id) {
      var k :| |s.ledger| <= k < |r.ledger| && r.ledger[k].leave == Some(id);
      assert k < |m.ledger| ==> m.ledger[k].leave == Some(id);
    }
    if AppendsTag(s, m, id) {
      var k :| |s.ledger| <= k < |m.ledger| && m.ledger[k].leave == Some(id);
      assert r.ledger[k].leave == Some(id);
    }
  }

  // Two credit changes tagged with one leave.
  lemma TwoCreditsTag(s: State, a: Tx, b: Tx, r: State, tag: int, id: int)
    requires r.ledger == s.ledger + [a] + [b] && a.leave == Some(tag) && b.leave == Some(tag)
    ensures Grows(s, r) && (AppendsTag(s, r, id) <==> id == tag)
  {
    assert r.ledger[|s.ledger|] == a;
  }

  lemma {:induction false} PassTags(w: World, s: State, first: int, n: nat, picks: seq<Option<Pick>>, id: int)
    ensures Grows(s, AutoCoverAll(w, s, first, n, picks))
    ensures AppendsTag(s, AutoCoverAll(w, s, first, n, picks), id) ==> first <= id < first + n
  {
    if n > 0 {
      var m := AutoCoverAll(w, s, first, n - 1, picks);
      PassTags(w, s, first, n - 1, picks, id);
      AutoCoverTags(w, m, first + n - 1, PickAt(picks, n - 1), id);
      AppendsThrough(s, m, AutoCoverAll(w, s, first, n, picks), id);
    }
  }

  lemma AutoCoverTags(w: World, s: State, i: int, pick: Option<Pick>, id: int)
    ensures Grows(s, AutoCover(w, s, i, pick))
    ensures AppendsTag(s, AutoCover(w, s, i, pick), id) ==> i == id
  {
    var r := AutoCover(w, s, i, pick);
    if r != s {
      TwoCreditsTag(s, Tx(s.leaves[i].teacher, -1, Penalty, Some(i)),
                    Tx(pick.value.substitute, 1, SubstituteClass, Some(i)), r, i, id);
    }
  }

  lemma RemoveCoverTags(s: State, i: int, id: int)
    requires i in s.leaves && i in s.covers
    ensures Grows(s, RemoveCover(s, i)) && (AppendsTag(s, RemoveCover(s, i), id) <==> id == i)
  {
    TwoCreditsTag(s, Tx(s.leaves[i].teacher, 1, Correction, Some(i)),
                  Tx(s.covers[i].substitute, -1, Correction, Some(i)), RemoveCover(s, i), i, id);
  }

  lemma {:induction false} ClearBelowTags(s: State, teacher: int, n: nat, id: int)
    requires Structure(s)
    ensures Grows(s, ClearBelow(s, teacher, n))
    ensures AppendsTag(s, ClearBelow(s, teacher, n), id) <==> 0 <= id < n && ClearsCover(s, teacher, id)
  {
    if n > 0 {
      var m := ClearBelow(s, teacher, n - 1);
      ClearBelowTags(s, teacher, n - 1, id);
      ClearBelowAddsNothing(s, teacher, n - 1, n - 1);
      if ClearsCover(s, teacher, n - 1) {
        ClearBelowClears(s, teacher, n - 1, n - 1);
      }
      if ClearsCover(m, teacher, n - 1) {
        RemoveCoverTags(m, n - 1, id);
        AppendsThrough(s, m, ClearBelow(s, teacher, n), id);
      }
    }
  }

  lemma FilingTags(w: World, s: State, t: int, d: int, periods: seq<int>, status: Status,
                   picks: seq<Option<Pick>>, id: int)
    requires Structure(s) && d in w.calendar
    ensures AppendsTag(s, FileLeaves(w, s, t, d, periods, status, picks), id) ==> s.nextId <= id
  {
    AddLeavesRows(s, t, d, w.calendar[d], periods, status);
    PassTags(w, AddLeaves(s, t, d, w.calendar[d], periods, status), s.nextId, |periods|, picks, id);
  }

  lemma SubmissionTags(w: World, s: State, c: Command, id: int)
    requires Structure(s) && Accepted(w, s, c) && Submission(c) && id in s.leaves
    ensures !AppendsTag(s, Step(w, s, c), id)
  {
    match c
    case Submit(t, d, p, pick) => FilingTags(w, s, t, d, [p], SubmittedStatus(w), [pick], id);
    case SubmitBatch(t, d, whole, ps, picks) =>
      FilingTags(w, s, t, d, BatchPeriods(w, t, d, whole, ps), SubmittedStatus(w), picks, id);
    case SubmitByAdmin(t, d, whole, ps, picks) =>
      FilingTags(w, s, t, d, BatchPeriods(w, t, d, whole, ps), Approved, picks, id);
  }

  // Requests that name one leave and give up an assignment it has.
  predicate GivesUp(s: State, c: Command, id: int)
    requires id in s.leaves
  {
    id in s.covers
    && (c == Undo(id) || c == CancelByAdmin(id) || c == CancelByTeacher(id, s.leaves[id].teacher)
        || c == ClearByTeacher(s.leaves[id].teacher))
  }

  lemma OverrideTags(s: State, i: int, substitute: int, id: int)
    requires i in s.covers
    ensures AppendsTag(s, ReplaceCover(s, i, substitute), id) <==> id == i
  {
    TwoCreditsTag(s, Tx(s.covers[i].substitute, -1, Correction, Some(i)),
                  Tx(substitute, 1, SubstituteClass, Some(i)), ReplaceCover(s, i, substitute), i, id);
  }

  lemma AssignTags(s: State, i: int, substitute: int, how: AssignmentType, id: int)
    requires i in s.leaves
    ensures AppendsTag(s, AddCover(s, i, substitute, how), id) <==> id == i
  {
    TwoCreditsTag(s, Tx(s.leaves[i].teacher, -1, Penalty, Some(i)),
                  Tx(substitute, 1, SubstituteClass, Some(i)), AddCover(s, i, substitute, how), i, id);
  }

  lemma GivingUpTags(w: World, s: State, c: Command, id: int)
    requires Inv(s) && id in s.leaves && Accepted(w, s, c)
    requires c.Undo? || c.CancelByTeacher? || c.CancelByAdmin? || c.ClearByTeacher?
    ensures AppendsTag(s, Step(w, s, c), id) <==> GivesUp(s, c, id)
  {
    match c
    case Undo(i) => RemoveCoverTags(s, i, id);
    case CancelByTeacher(i, _) => if i in s.covers { RemoveCoverTags(s, i, id); }
    case CancelByAdmin(i) => if i in s.covers { RemoveCoverTags(s, i, id); }
    case ClearByTeacher(t) => ClearBelowTags(s, t, s.nextId, id);
  }

  lemma NamingTags(w: World, s: State, c: Command, id: int)
    requires Inv(s) && id in s.leaves && Accepted(w, s, c)
    requires !(c.Undo? || c.CancelByTeacher? || c.CancelByAdmin? || c.ClearByTeacher?)
    ensures AppendsTag(s, Step(w, s, c), id) ==> (c.Assign? || c.Override? || c.Approve?) && c.id == id
    ensures c.Override? && c.id == id ==> AppendsTag(s, Step(w, s, c), id)
  {
    match c
    case Assign(i, sub, how, _) => AssignTags(s, i, sub, how, id);
    case Override(i, sub, _) => OverrideTags(s, i, sub, id);
    case Approve(i, pick) => AutoCoverTags(w, SetStatus(s, i, Approved), i, pick, id);
    case Submit(_, _, _, _) => SubmissionTags(w, s, c, id);
    case SubmitBatch(_, _, _, _, _) => SubmissionTags(w, s, c, id);
    case SubmitByAdmin(_, _, _, _, _) => SubmissionTags(w, s, c, id);
    case _ =>
  }

  /** A ledger row for a leave on such a date is written if and only if an override
      of it is accepted, or an accepted undo, cancellation or clearing gives up the
      assignment it has. */
  lemma HolidayLedgerIff(w: World, s: State, c: Command, id: int)
    requires Inv(s) && id in s.leaves && s.leaves[id].date !in w.calendar
    ensures AppendsTag(s, Step(w, s, c), id)
       <==> Accepted(w, s, c) && ((c.Override? && c.id == id) || GivesUp(s, c, id))
  {
    if Accepted(w, s, c) {
      if c.Undo? || c.CancelByTeacher? || c.CancelByAdmin? || c.ClearByTeacher? {
        GivingUpTags(w, s, c, id);
      } else {
        NamingTags(w, s, c, id);
      }
    }
  }

  // ----- It does happen -----

  // Three teachers, an empty timetable, manual mode, well before the date.
  function Before(calendar: map<int, int>): World {
    World(Clock(99, 0), Clock(99, 0), calendar, [], {1, 2, 3}, map[], false, false)
  }

  // Teacher 1's leave on day 100 is approved and covered by teacher 2 while the
  // day is a working day; then the day becomes a holiday.
  function Story(): seq<Event> {
    var working := Before(map[100 := 1]);
    [Event(working, Submit(1, 100, 1, None)),
     Event(working, Approve(1, None)),
     Event(working, Assign(1, 2, AdminAssigned, false)),
     Event(Before(map[]), Override(1, 3, false))]
  }

  lemma StorySubmitted()
    ensures var w := Before(map[100 := 1]);
            Step(w, EMPTY, Submit(1, 100, 1, None))
            == State(map[1 := Leave(1, 100, 1, 1, Pending)], map[], map[], [], 2)
  {
    var w := Before(map[100 := 1]);
    assert AddLeaves(EMPTY, 1, 100, 1, [1], Pending) == AddLeave(EMPTY, Leave(1, 100, 1, 1, Pending)) by {
      assert [1][..0] == [];
    }
    var added := AddLeave(EMPTY, Leave(1, 100, 1, 1, Pending));
    assert AutoCoverAll(w, added, 1, 0, [None]) == added;
    assert AutoCoverAll(w, added, 1, 1, [None]) == added;
  }

  // The approved leave, not yet covered.
  function StoryLeave(): State { State(map[1 := Leave(1, 100, 1, 1, Approved)], map[], map[], [], 2) }

  lemma StoryAssigned()
    ensures Step(Before(map[100 := 1]), StoryLeave(), Assign(1, 2, AdminAssigned, false))
         == AddCover(StoryLeave(), 1, 2, AdminAssigned)
  {
  }

  lemma StoryOverridden()
    ensures var s := AddCover(StoryLeave(), 1, 2, AdminAssigned);
            Step(Before(map[]), s, Override(1, 3, false)) == ReplaceCover(s, 1, 3)
  {
  }

  lemma StoryRuns()
    ensures var s := AddCover(StoryLeave(), 1, 2, AdminAssigned);
            Run(EMPTY, Story()[..3]) == s && Run(EMPTY, Story()) == ReplaceCover(s, 1, 3)
  {
    var events := Story();
    StorySubmitted();
    StoryAssigned();
    StoryOverridden();
    assert events[..1] == [] + [events[0]] && events[..2] == events[..1] + [events[1]];
    assert events[..3] == events[..2] + [events[2]] && events == events[..3] + [events[3]];
    RunSnoc(EMPTY, [], events[0]);
    RunSnoc(EMPTY, events[..1], events[1]);
    RunSnoc(EMPTY, events[..2], events[2]);
    RunSnoc(EMPTY, events[..3], events[3]);
  }

  /** Credits do move on a holiday: at the end of this run from empty tables
      teacher 3 holds the credit that teacher 2 had on a day that is no longer a
      working day. */
  lemma OverrideMovesCreditOnHoliday()
    ensures var s, r := Run(EMPTY, Story()[..3]), Run(EMPTY, Story());
            && 1 in s.leaves && s.leaves[1].date !in Story()[3].world.calendar
            && Balance(s, 2) == 1 && Balance(s, 3) == 0
            && Balance(r, 2) == 0 && Balance(r, 3) == 1 && Balance(r, 1) == -1
            && AppendsTag(s, r, 1)
  {
    StoryRuns();
    OverrideTags(AddCover(StoryLeave(), 1, 2, AdminAssigned), 1, 3, 1);
  }

  lemma {:induction false} RunSnoc(s: State, events: seq<Event>, e: Event)
    ensures Run(s, events + [e]) == Step(e.world, Run(s, events), e.command)
    decreases events
  {
    var longer := events + [e];
    if events == [] {
      assert longer == [e] && [e][1..] == [];
    } else {
      assert longer[0] == events[0] && longer[1..] == events[1..] + [e];
      RunSnoc(Step(events[0].world, s, events[0].command), events[1..], e);
    }
  }
}
