/**
What each request does to leaves, assignments and the ledger, told in the terms of
its caller: exactly when it is accepted and exactly what it stores.
*/
module LeaveRules {
  import opened Options
  import opened SortedLists
  import opened Leaves
  import opened LeaveLaws
  import opened LeaveTheorems
  import opened LeaveChecks

  // ----- Filing -----

  // The periods a submission asks for: on a whole day, those the timetable gives
  // the teacher on that date's Day Order.
  ghost predicate AsksFor(w: World, c: Command, p: int)
    requires Submission(c) && c.date in w.calendar
  {
    match c
    case Submit(_, _, period, _) => p == period
    case SubmitBatch(t, d, whole, ps, _) => if whole then Slot(t, w.calendar[d], p) in w.slots else p in ps
    case SubmitByAdmin(t, d, whole, ps, _) => if whole then Slot(t, w.calendar[d], p) in w.slots else p in ps
  }

  lemma {:induction false} ScheduledAre(slots: seq<Slot>, teacher: int, order: int)
    ensures forall p :: p in ScheduledPeriods(slots, teacher, order) <==> Slot(teacher, order, p) in slots
  {
    if slots != [] {
      ScheduledAre(slots[1..], teacher, order);
      assert slots == [slots[0]] + slots[1..];
    }
  }

  function PeriodsOf(w: World, c: Command): (r: seq<int>)
    requires Submission(c) && c.date in w.calendar
    ensures Ascending(r)
  {
    match c
    case Submit(_, _, period, _) => [period]
    case SubmitBatch(t, d, whole, ps, _) => BatchPeriods(w, t, d, whole, ps)
    case SubmitByAdmin(t, d, whole, ps, _) => BatchPeriods(w, t, d, whole, ps)
  }

  lemma PeriodsAre(w: World, c: Command)
    requires Submission(c) && c.date in w.calendar
    ensures forall p :: p in PeriodsOf(w, c) <==> AsksFor(w, c, p)
  {
    if !c.Submit? {
      ScheduledAre(w.slots, c.teacher, w.calendar[c.date]);
    }
  }

  /** A submission is accepted if and only if its date is a working day, it asks for
      some period, and for none of them has the teacher a pending or approved leave
      already. */
  lemma FilingAcceptedIff(w: World, s: State, c: Command)
    requires Submission(c)
    ensures Accepted(w, s, c)
       <==> c.date in w.calendar && (exists p :: AsksFor(w, c, p))
            && (forall id :: id in s.leaves && s.leaves[id].teacher == c.teacher && s.leaves[id].date == c.date
                  && AsksFor(w, c, s.leaves[id].period)
                  ==> s.leaves[id].status == Rejected || s.leaves[id].status == Cancelled)
  {
    if c.date in w.calendar {
      var ps := PeriodsOf(w, c);
      PeriodsAre(w, c);
      assert (exists p :: AsksFor(w, c, p)) <==> ps != [] by {
        if ps != [] { assert ps[0] in ps; }
      }
      assert Accepted(w, s, c) <==> ps != [] && forall p :: p in ps ==> !HasActiveLeave(s, c.teacher, c.date, p);
      forall p | p in ps
        ensures HasActiveLeave(s, c.teacher, c.date, p)
           <==> exists id :: id in s.leaves && s.leaves[id].teacher == c.teacher && s.leaves[id].date == c.date
                             && s.leaves[id].period == p && Active(s.leaves[id])
      {
      }
      if Accepted(w, s, c) {
        forall id | id in s.leaves && s.leaves[id].teacher == c.teacher && s.leaves[id].date == c.date
                    && AsksFor(w, c, s.leaves[id].period)
          ensures !Active(s.leaves[id])
        {
          assert !HasActiveLeave(s, c.teacher, c.date, s.leaves[id].period);
        }
      }
    }
  }

  // Leaves filed on their own are pending, or approved at once when the mode is
  // autonomous; those an administrator files are approved.
  function FiledStatus(w: World, c: Command): Status {
    if c.SubmitByAdmin? || w.autonomous then Approved else Pending
  }

  // The stored leaves stay, and one leave is added for each period asked for.
  ghost predicate AddsOneEach(w: World, s: State, r: State, c: Command, status: Status)
    requires Submission(c) && c.date in w.calendar
  {
    && (forall id :: id in s.leaves ==> id in r.leaves && r.leaves[id] == s.leaves[id])
    && (forall id :: id in r.leaves && id !in s.leaves ==>
          && AsksFor(w, c, r.leaves[id].period)
          && r.leaves[id] == Leave(c.teacher, c.date, w.calendar[c.date], r.leaves[id].period, status))
    && (forall p :: AsksFor(w, c, p) ==> exists id :: id in r.leaves && id !in s.leaves && r.leaves[id].period == p)
    && (forall i, j :: i in r.leaves && j in r.leaves && i !in s.leaves && j !in s.leaves && i != j
          ==> r.leaves[i].period != r.leaves[j].period)
  }

  ghost predicate FilesOneEach(w: World, s: State, r: State, c: Command)
    requires Submission(c) && c.date in w.calendar
  {
    AddsOneEach(w, s, r, c, FiledStatus(w, c))
  }

  lemma AddedOneEach(w: World, s: State, r: State, c: Command, status: Status)
    requires Structure(s) && Submission(c) && c.date in w.calendar
    requires r.leaves == AddLeaves(s, c.teacher, c.date, w.calendar[c.date], PeriodsOf(w, c), status).leaves
    ensures AddsOneEach(w, s, r, c, status)
  {
    var ps, order := PeriodsOf(w, c), w.calendar[c.date];
    PeriodsAre(w, c);
    AddLeavesRows(s, c.teacher, c.date, order, ps, status);
    forall p | AsksFor(w, c, p) ensures exists id :: id in r.leaves && id !in s.leaves && r.leaves[id].period == p {
      var k :| 0 <= k < |ps| && ps[k] == p;
      assert s.nextId + k in r.leaves && s.nextId + k !in s.leaves;
    }
  }

  /** An accepted submission keeps every stored leave as it is and adds exactly one
      leave for each period it asks for. */
  lemma FilingStores(w: World, s: State, c: Command)
    requires Inv(s) && Submission(c) && Accepted(w, s, c)
    ensures FilesOneEach(w, s, Step(w, s, c), c)
  {
    var ps := PeriodsOf(w, c);
    var m := AddLeaves(s, c.teacher, c.date, w.calendar[c.date], ps, FiledStatus(w, c));
    PassFrame(w, m, s.nextId, |ps|, PicksOf(c));
    assert Step(w, s, c) == FileLeaves(w, s, c.teacher, c.date, ps, FiledStatus(w, c), PicksOf(c));
    AddedOneEach(w, s, Step(w, s, c), c, FiledStatus(w, c));
  }

  // The same, also for a submission that may be refused.
  lemma FiledOneEach(w: World, s: State, c: Command)
    requires Inv(s) && Submission(c)
    ensures Accepted(w, s, c) ==> c.date in w.calendar && FilesOneEach(w, s, Step(w, s, c), c)
  {
    if Accepted(w, s, c) {
      FilingStores(w, s, c);
    }
  }

  // ----- Assignments -----

  // Before 17:00 of the date by the institution's clock.
  predicate BeforeCutoff(w: World, date: int) {
    w.now.today < date || (w.now.today == date && w.now.seconds < 61200)
  }

  // Free for the lesson and covering nothing else in that period.
  ghost predicate MayCover(w: World, s: State, id: int, teacher: int)
    requires id in s.leaves
  {
    && FreeFor(w, s.leaves, teacher, s.leaves[id])
    && (forall i :: i in s.covers && i in s.leaves && i != id && SameLesson(s.leaves[i], s.leaves[id])
          ==> s.covers[i].substitute != teacher)
  }

  // Fewer approved leaves covered in the seven days up to the date than allowed.
  ghost predicate BelowLimit(w: World, s: State, teacher: int, date: int) {
    teacher in w.limits ==>
      |set i | i in s.covers && i in s.leaves && s.covers[i].substitute == teacher
               && s.leaves[i].status == Approved && date - 7 <= s.leaves[i].date <= date| < w.limits[teacher]
  }

  lemma ConflictIff(w: World, s: State, id: int, teacher: int)
    requires id in s.leaves
    ensures teacher in w.teachers && teacher != s.leaves[id].teacher && Conflict(w, s, id, teacher) == None
       <==> MayCover(w, s, id, teacher)
  {
  }

  lemma LimitIff(w: World, s: State, date: int, teacher: int, over: bool)
    ensures LimitRefusal(w, s, date, teacher, over) == None <==> over || BelowLimit(w, s, teacher, date)
  {
    assert (set id | id in s.covers && id in s.leaves && s.covers[id].substitute == teacher
                     && date - LIMIT_WINDOW_DAYS <= s.leaves[id].date <= date && s.leaves[id].status == Approved)
        == (set i | i in s.covers && i in s.leaves && s.covers[i].substitute == teacher
                    && s.leaves[i].status == Approved && date - 7 <= s.leaves[i].date <= date);
  }

  lemma CutoffIff(w: World, date: int)
    ensures SubstitutionExpired(w, date) <==> !BeforeCutoff(w, date)
  {
  }

  ghost predicate Assigns(w: World, s: State, c: Command, id: int)
    requires id in s.leaves
  {
    var l := s.leaves[id];
    && c.Assign? && c.id == id && l.status == Approved && BeforeCutoff(w, l.date) && l.date in w.calendar
    && MayCover(w, s, id, c.substitute) && (c.overrideLimit || BelowLimit(w, s, c.substitute, l.date))
  }

  ghost predicate ApprovesWithPick(w: World, s: State, c: Command, id: int)
    requires id in s.leaves
  {
    && c.Approve? && c.id == id && s.leaves[id].status == Pending && s.leaves[id].date in w.calendar
    && w.autonomous && c.pick.Some? && FreeThatDay(w, s, id, c.pick.value.substitute)
  }

  // Other requests give a stored leave no assignment.
  lemma OthersAddNoCover(w: World, s: State, c: Command, id: int)
    requires Inv(s) && id in s.leaves && id !in s.covers
    requires !((c.Assign? || c.Approve?) && c.id == id)
    ensures id !in Step(w, s, c).covers
  {
    if Accepted(w, s, c) {
      if Submission(c) {
        SubmissionFrame(w, s, c);
      } else if c.ClearByTeacher? {
        ClearBelowAddsNothing(s, c.teacher, s.nextId, id);
      }
    }
  }

  /** A stored leave without an assignment gets one if and only if it is approved and
      an administrator names a free substitute below the limit (or waives it) before
      the cut-off on a working day, or it is just being approved in autonomous mode
      with a pick who is free that day. The assignment names that substitute and is
      unlocked. */
  lemma AssignmentAppearsIff(w: World, s: State, c: Command, id: int)
    requires Inv(s) && id in s.leaves && id !in s.covers
    ensures id in Step(w, s, c).covers <==> Assigns(w, s, c, id) || ApprovesWithPick(w, s, c, id)
    ensures Assigns(w, s, c, id) ==> Step(w, s, c).covers[id] == Cover(c.substitute, c.how, false)
    ensures ApprovesWithPick(w, s, c, id) ==>
              Step(w, s, c).covers[id]
              == Cover(c.pick.value.substitute, if c.pick.value.emergency then Emergency else AutoAssigned, false)
  {
    if c.Assign? && c.id == id {
      ConflictIff(w, s, id, c.substitute);
      LimitIff(w, s, s.leaves[id].date, c.substitute, c.overrideLimit);
      CutoffIff(w, s.leaves[id].date);
    } else if c.Approve? && c.id == id {
      if c.pick.Some? {
        EligibleIff(w, SetStatus(s, id, Approved), id, c.pick.value.substitute);
        ApprovingFreesNobody(w, s, id, c.pick.value.substitute);
      }
    } else {
      OthersAddNoCover(w, s, c, id);
    }
  }

  ghost predicate Renames(w: World, s: State, c: Command, id: int)
    requires id in s.leaves && id in s.covers
  {
    var l := s.leaves[id];
    && c.Override? && c.id == id && BeforeCutoff(w, l.date) && !s.covers[id].locked
    && c.substitute != s.covers[id].substitute
    && MayCover(w, s, id, c.substitute) && (c.overrideLimit || BelowLimit(w, s, c.substitute, l.date))
  }

  predicate Relocks(w: World, s: State, c: Command, id: int)
    requires id in s.leaves && id in s.covers
  {
    c.SetLock? && c.id == id && BeforeCutoff(w, s.leaves[id].date)
  }

  predicate GivesUp(w: World, s: State, c: Command, id: int)
    requires id in s.leaves && id in s.covers
  {
    var l := s.leaves[id];
    || (c == Undo(id) && BeforeCutoff(w, l.date) && !s.covers[id].locked)
    || c == CancelByAdmin(id)
    || (c == ClearByTeacher(l.teacher) && w.selfManaged)
    || (c == CancelByTeacher(id, l.teacher)
        && (w.local.today < l.date || (w.local.today == l.date && w.local.seconds < 36000)))
  }

  /** What any request makes of an assignment: it is given up by an undo before the
      cut-off of an unlocked one, by either cancellation in time or by clearing; an
      override before the cut-off names another free substitute and keeps the lock;
      the lock is set before the cut-off; and nothing else changes it. */
  lemma AssignmentBecomes(w: World, s: State, c: Command, id: int)
    requires Inv(s) && id in s.covers
    ensures var r, was := Step(w, s, c), s.covers[id];
            if GivesUp(w, s, c, id) then id !in r.covers
            else id in r.covers
                 && r.covers[id] == if Renames(w, s, c, id) then Cover(c.substitute, Overridden, was.locked)
                                    else if Relocks(w, s, c, id) then Cover(was.substitute, was.how, c.locked)
                                    else was
  {
    if !AimsAt(c, id, s.leaves[id].teacher) {
      OthersKeepCover(w, s, c, id);
    } else if c.Override? || c.Undo? || c.SetLock? {
      RequestAcceptedIff(w, s, c);
    } else if c.CancelByTeacher? || c.CancelByAdmin? || c.ClearByTeacher? {
      RemovalsTakeAway(w, s, c, id);
    }
  }

  // ----- Refusals -----

  predicate OfLeave(c: Command) {
    || c.Approve? || c.Reject? || c.Assign? || c.Override?
    || c.Undo? || c.SetLock? || c.CancelByTeacher? || c.CancelByAdmin?
  }

  predicate Open(l: Leave) {
    l.status == Pending || l.status == Approved
  }

  /** When a request about a stored leave is accepted, whether or not it changes
      anything. */
  lemma RequestAcceptedIff(w: World, s: State, c: Command)
    requires Structure(s) && OfLeave(c) && c.id in s.leaves
    ensures var id, l := c.id, s.leaves[c.id];
            Accepted(w, s, c)
            <==> match c
                 case Approve(_, _) => l.status == Pending && l.date in w.calendar
                 case Reject(_) => l.status == Pending
                 case CancelByAdmin(_) => Open(l)
                 case CancelByTeacher(_, teacher) =>
                   teacher == l.teacher && Open(l)
                   && (w.local.today < l.date || (w.local.today == l.date && w.local.seconds < 36000))
                 case Assign(_, _, _, _) => id !in s.covers && Assigns(w, s, c, id)
                 case Override(_, _, _) => id in s.covers && Renames(w, s, c, id)
                 case Undo(_) => id in s.covers && BeforeCutoff(w, l.date) && !s.covers[id].locked
                 case SetLock(_, _) => id in s.covers && BeforeCutoff(w, l.date)
                 case _ => true
  {
    if c.Assign? || c.Override? {
      ConflictIff(w, s, c.id, c.substitute);
      LimitIff(w, s, s.leaves[c.id].date, c.substitute, c.overrideLimit);
    }
    CutoffIff(w, s.leaves[c.id].date);
  }

  // What an error says of the request.
  ghost predicate Tells(w: World, s: State, c: Command, e: LeaveError) {
    if OfLeave(c) then
      if c.id !in s.leaves then e == NoSuchLeave
      else
        var l, covered := s.leaves[c.id], c.id in s.covers;
        match e
        case NotPending => l.status != Pending
        case NotApproved => l.status != Approved
        case NotAWorkingDay => l.date !in w.calendar
        case CutoffPassed => !BeforeCutoff(w, l.date)
        case AlreadyCovered => covered
        case NotCovered => !covered
        case AssignmentLocked => covered && s.covers[c.id].locked
        case NotOwnLeave => c.CancelByTeacher? && c.teacher != l.teacher
        case AlreadyClosed => !Open(l)
        case PastLeave => l.date < w.local.today
        case TooLateToday => l.date == w.local.today && w.local.seconds >= 36000
        case _ => (c.Assign? || c.Override?) && TellsOf(w, s, c, l, e)
    else
      match e
      case NotAWorkingDay => Submission(c) && c.date !in w.calendar
      case NoPeriods => Submission(c) && c.date in w.calendar && forall p :: !AsksFor(w, c, p)
      case DuplicateLeave =>
        && Submission(c) && c.date in w.calendar
        && exists id :: id in s.leaves && s.leaves[id].teacher == c.teacher && s.leaves[id].date == c.date
                        && AsksFor(w, c, s.leaves[id].period) && Open(s.leaves[id])
      case SelfManagementOff => c.ClearByTeacher? && !w.selfManaged
      case NotOneCredit => c.Adjust? && c.change != 1 && c.change != -1
      case _ => false
  }

  // And of the substitute it names.
  ghost predicate TellsOf(w: World, s: State, c: Command, l: Leave, e: LeaveError)
    requires c.Assign? || c.Override?
  {
    match e
    case NoSuchTeacher => c.substitute !in w.teachers
    case OwnSubstitute => c.substitute == l.teacher
    case SameSubstitute => c.id in s.covers && s.covers[c.id].substitute == c.substitute
    case IsTeaching => Slot(c.substitute, l.order, l.period) in w.slots
    case IsOnLeave =>
      exists i :: i in s.leaves && s.leaves[i].teacher == c.substitute && SameLesson(s.leaves[i], l)
                  && s.leaves[i].status == Approved
    case AlreadySubstituting =>
      exists i :: i in s.covers && i in s.leaves && i != c.id && SameLesson(s.leaves[i], l)
                  && s.covers[i].substitute == c.substitute
    case LimitReached => !c.overrideLimit && !BelowLimit(w, s, c.substitute, l.date)
    case _ => false
  }

  /** Every refusal is true: the error reported says something that is so, and that
      alone rules the request out. */
  lemma RefusalIsTrue(w: World, s: State, c: Command)
    requires Inv(s) && Refusal(w, s, c).Some?
    ensures Tells(w, s, c, Refusal(w, s, c).value)
  {
    if c.Assign? {
      AssignRefusalIsTrue(w, s, c);
    } else if c.Override? {
      OverrideRefusalIsTrue(w, s, c);
    } else if Submission(c) {
      FilingRefusalIsTrue(w, s, c);
    } else {
      OtherRefusalIsTrue(w, s, c);
    }
  }

  lemma AssignRefusalIsTrue(w: World, s: State, c: Command)
    requires Refusal(w, s, c).Some? && c.Assign?
    ensures Tells(w, s, c, Refusal(w, s, c).value)
  {
    if c.id in s.leaves {
      CutoffIff(w, s.leaves[c.id].date);
      NamingRefusalIsTrue(w, s, c);
    }
  }

  lemma OverrideRefusalIsTrue(w: World, s: State, c: Command)
    requires Refusal(w, s, c).Some? && c.Override?
    ensures Tells(w, s, c, Refusal(w, s, c).value)
  {
    if c.id in s.leaves {
      CutoffIff(w, s.leaves[c.id].date);
      NamingRefusalIsTrue(w, s, c);
    }
  }

  lemma OtherRefusalIsTrue(w: World, s: State, c: Command)
    requires Refusal(w, s, c).Some? && !Submission(c) && !c.Assign? && !c.Override?
    ensures Tells(w, s, c, Refusal(w, s, c).value)
  {
    if OfLeave(c) && c.id in s.leaves {
      CutoffIff(w, s.leaves[c.id].date);
    }
  }

  lemma NamingRefusalIsTrue(w: World, s: State, c: Command)
    requires (c.Assign? || c.Override?) && c.id in s.leaves
    ensures var l, e := s.leaves[c.id], Conflict(w, s, c.id, c.substitute);
            && (e.Some? ==> e.value in {IsTeaching, IsOnLeave, AlreadySubstituting} && TellsOf(w, s, c, l, e.value))
            && (LimitRefusal(w, s, l.date, c.substitute, c.overrideLimit).Some? ==>
                  LimitRefusal(w, s, l.date, c.substitute, c.overrideLimit).value == LimitReached
                  && TellsOf(w, s, c, l, LimitReached))
  {
    LimitIff(w, s, s.leaves[c.id].date, c.substitute, c.overrideLimit);
  }

  lemma FilingRefusalIsTrue(w: World, s: State, c: Command)
    requires Submission(c) && Refusal(w, s, c).Some?
    ensures Tells(w, s, c, Refusal(w, s, c).value)
  {
    if c.date in w.calendar {
      var ps := PeriodsOf(w, c);
      PeriodsAre(w, c);
      if ps != [] {
        var p :| p in ps && HasActiveLeave(s, c.teacher, c.date, p);
        assert AsksFor(w, c, p);
      }
    }
  }

  // ----- The ledger -----

  // What the row says happened between the two states.
  ghost predicate Explained(s: State, r: State, tx: Tx) {
    match tx.leave
    case None => tx.category == ManualAdjustment && (tx.change == 1 || tx.change == -1)
    case Some(id) =>
      match tx.category
      case Penalty => tx.change == -1 && id !in s.covers && id in r.covers && Left(r, tx.teacher, id)
      case SubstituteClass => tx.change == 1 && Covered(r, tx.teacher, id) && !Covered(s, tx.teacher, id)
      case Correction =>
        || (tx.change == -1 && Covered(s, tx.teacher, id) && !Covered(r, tx.teacher, id))
        || (tx.change == 1 && id in s.covers && id !in r.covers && Left(s, tx.teacher, id))
      case ManualAdjustment => false
  }

  predicate Covered(s: State, teacher: int, id: int) {
    id in s.covers && s.covers[id].substitute == teacher
  }

  predicate Left(s: State, teacher: int, id: int) {
    id in s.leaves && s.leaves[id].teacher == teacher
  }

  ghost predicate RowsExplained(s: State, r: State) {
    s.ledger <= r.ledger && forall k :: |s.ledger| <= k < |r.ledger| ==> Explained(s, r, r.ledger[k])
  }

  lemma AddedCoverExplained(s: State, id: int, substitute: int, how: AssignmentType)
    requires id in s.leaves && id !in s.covers
    ensures RowsExplained(s, AddCover(s, id, substitute, how))
  {
  }

  lemma ReplacedCoverExplained(s: State, id: int, substitute: int)
    requires id in s.covers && s.covers[id].substitute != substitute
    ensures RowsExplained(s, ReplaceCover(s, id, substitute))
  {
  }

  lemma RemovedCoverExplained(s: State, id: int)
    requires id in s.leaves && id in s.covers
    ensures RowsExplained(s, RemoveCover(s, id))
  {
  }

  // The leaves keep their teachers.
  ghost predicate SameTeachers(s: State, r: State) {
    forall id :: id in s.leaves ==> id in r.leaves && r.leaves[id].teacher == s.leaves[id].teacher
  }

  // Every assignment of the one is in the other.
  ghost predicate Keeps(covers: map<int, Cover>, more: map<int, Cover>) {
    forall id :: id in covers ==> id in more && more[id] == covers[id]
  }

  // Rows that explain m over s and r over m explain r over s, when covers only
  // come or only go.
  lemma ExplainedOnward(s: State, m: State, r: State)
    requires RowsExplained(s, m) && RowsExplained(m, r) && SameTeachers(m, r) && m.leaves == s.leaves
    requires (Keeps(s.covers, m.covers) && Keeps(m.covers, r.covers))
          || (Keeps(r.covers, m.covers) && Keeps(m.covers, s.covers))
    ensures RowsExplained(s, r)
  {
    forall k | |s.ledger| <= k < |r.ledger| ensures Explained(s, r, r.ledger[k]) {
      if k < |m.ledger| {
        assert r.ledger[k] == m.ledger[k];
        assert Explained(s, m, m.ledger[k]);
      } else {
        assert Explained(m, r, r.ledger[k]);
      }
    }
  }

  lemma {:induction false} PassExplained(w: World, s: State, first: int, n: nat, picks: seq<Option<Pick>>)
    ensures RowsExplained(s, AutoCoverAll(w, s, first, n, picks))
  {
    if n > 0 {
      var m := AutoCoverAll(w, s, first, n - 1, picks);
      PassExplained(w, s, first, n - 1, picks);
      PassFrame(w, s, first, n - 1, picks);
      AutoCoverExplained(w, m, first + n - 1, PickAt(picks, n - 1));
      ExplainedOnward(s, m, AutoCoverAll(w, s, first, n, picks));
    }
  }

  lemma AutoCoverExplained(w: World, s: State, id: int, pick: Option<Pick>)
    ensures RowsExplained(s, AutoCover(w, s, id, pick))
    ensures AutoCover(w, s, id, pick).leaves == s.leaves
    ensures Keeps(s.covers, AutoCover(w, s, id, pick).covers)
  {
    if AutoCover(w, s, id, pick) != s {
      AddedCoverExplained(s, id, pick.value.substitute, if pick.value.emergency then Emergency else AutoAssigned);
    }
  }

  lemma {:induction false} ClearingExplained(s: State, teacher: int, n: nat)
    ensures RowsExplained(s, ClearBelow(s, teacher, n)) && ClearBelow(s, teacher, n).leaves == s.leaves
    ensures Keeps(ClearBelow(s, teacher, n).covers, s.covers)
  {
    if n > 0 {
      var m := ClearBelow(s, teacher, n - 1);
      ClearingExplained(s, teacher, n - 1);
      if ClearsCover(m, teacher, n - 1) {
        RemovedCoverExplained(m, n - 1);
        ExplainedOnward(s, m, RemoveCover(m, n - 1));
      }
    }
  }

  // The same leaves, or later ones, beside the same assignments and ledger.
  lemma ExplainedBeside(s: State, m: State, r: State)
    requires RowsExplained(m, r) && m.covers == s.covers && m.ledger == s.ledger
    requires SameTeachers(s, m) && forall id :: id in s.covers ==> id in s.leaves
    ensures RowsExplained(s, r)
  {
    forall k | |s.ledger| <= k < |r.ledger| ensures Explained(s, r, r.ledger[k]) {
      assert Explained(m, r, r.ledger[k]);
    }
  }

  lemma FilingExplained(w: World, s: State, c: Command)
    requires Inv(s) && Submission(c) && Accepted(w, s, c)
    ensures RowsExplained(s, Step(w, s, c))
  {
    var ps := PeriodsOf(w, c);
    var m := AddLeaves(s, c.teacher, c.date, w.calendar[c.date], ps, FiledStatus(w, c));
    AddLeavesRows(s, c.teacher, c.date, w.calendar[c.date], ps, FiledStatus(w, c));
    PassExplained(w, m, s.nextId, |ps|, PicksOf(c));
    assert Step(w, s, c) == FileLeaves(w, s, c.teacher, c.date, ps, FiledStatus(w, c), PicksOf(c));
    ExplainedBeside(s, m, Step(w, s, c));
  }

  /** No request rewrites the ledger, and every row it appends says what happened: a
      penalty, that a leave of that teacher was given a substitute; a class, that the
      teacher now substitutes and did not before; a correction of -1, that the teacher
      no longer substitutes; one of +1, that the own leave is no longer covered; and a
      row of no leave is one administrator's credit up or down. */
  lemma EveryRowIsExplained(w: World, s: State, c: Command)
    requires Inv(s)
    ensures RowsExplained(s, Step(w, s, c))
    ensures c.Adjust? && (c.change == 1 || c.change == -1) ==>
              Step(w, s, c).ledger == s.ledger + [Tx(c.teacher, c.change, ManualAdjustment, None)]
  {
    if Accepted(w, s, c) {
      match c
      case Approve(id, pick) =>
        var m := SetStatus(s, id, Approved);
        AutoCoverExplained(w, m, id, pick);
        ExplainedBeside(s, m, Step(w, s, c));
      case Assign(id, substitute, how, _) => AddedCoverExplained(s, id, substitute, how);
      case Override(id, substitute, _) => ReplacedCoverExplained(s, id, substitute);
      case Undo(id) => RemovedCoverExplained(s, id);
      case CancelByTeacher(id, _) => CancelExplained(s, id);
      case CancelByAdmin(id) => CancelExplained(s, id);
      case ClearByTeacher(t) => ClearingExplained(s, t, s.nextId);
      case _ => if Submission(c) { FilingExplained(w, s, c); }
    }
  }

  lemma CancelExplained(s: State, id: int)
    requires id in s.leaves
    ensures RowsExplained(s, Cancel(s, id))
  {
    if id in s.covers {
      RemovedCoverExplained(s, id);
      var m := RemoveCover(s, id);
      forall k | |s.ledger| <= k < |m.ledger| ensures Explained(s, Cancel(s, id), m.ledger[k]) {
        assert Explained(s, m, m.ledger[k]);
      }
    }
  }
}
