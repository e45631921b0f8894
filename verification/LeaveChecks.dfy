/**
What a newly named substitute can rely on, what a lock protects, what happens on
dates that are not working days, and how a leave changes its status.
*/
module LeaveChecks {
  import opened Options
  import opened Leaves
  import opened LeaveLaws
  import opened LeaveTheorems

  ghost predicate Submission(c: Command) {
    c.Submit? || c.SubmitBatch? || c.SubmitByAdmin?
  }

  // ----- New substitutes -----

  // The step gives the leave a substitute it did not have.
  ghost predicate NewlyCovers(s: State, r: State, id: int) {
    id in r.covers && !(id in s.covers && s.covers[id].substitute == r.covers[id].substitute)
  }

  lemma {:induction false} PassPicksAreFree(w: World, s: State, first: int, n: nat, picks: seq<Option<Pick>>, id: int)
    requires id in AutoCoverAll(w, s, first, n, picks).covers && id !in s.covers
    ensures w.autonomous && id in s.leaves
    ensures FreeFor(w, s.leaves, AutoCoverAll(w, s, first, n, picks).covers[id].substitute, s.leaves[id])
  {
    assert n > 0;
    var m := AutoCoverAll(w, s, first, n - 1, picks);
    PassFrame(w, s, first, n - 1, picks);
    if id in m.covers {
      PassPicksAreFree(w, s, first, n - 1, picks, id);
    }
  }

  lemma FilingPicksAreFree(w: World, s: State, t: int, d: int, periods: seq<int>, status: Status,
                           picks: seq<Option<Pick>>, id: int)
    requires Structure(s) && d in w.calendar
    requires id in FileLeaves(w, s, t, d, periods, status, picks).covers && id !in s.covers
    ensures var r := FileLeaves(w, s, t, d, periods, status, picks);
            w.autonomous && id in r.leaves && FreeFor(w, r.leaves, r.covers[id].substitute, r.leaves[id])
  {
    AddLeavesRows(s, t, d, w.calendar[d], periods, status);
    var m := AddLeaves(s, t, d, w.calendar[d], periods, status);
    PassFrame(w, m, s.nextId, |periods|, picks);
    PassPicksAreFree(w, m, s.nextId, |periods|, picks, id);
  }

  // A submission or an approval names only what its autonomous pass picked.
  lemma PassNames(w: World, s: State, c: Command, id: int)
    requires Inv(s) && Accepted(w, s, c) && (Submission(c) || c.Approve?) && NewlyCovers(s, Step(w, s, c), id)
    ensures var r := Step(w, s, c);
            w.autonomous && id in r.leaves && FreeFor(w, r.leaves, r.covers[id].substitute, r.leaves[id])
    ensures id in s.leaves ==> c.Approve? && c.id == id
  {
    match c
    case Submit(t, d, p, pick) =>
      SubmissionFrame(w, s, c);
      FilingPicksAreFree(w, s, t, d, [p], SubmittedStatus(w), [pick], id);
    case SubmitBatch(t, d, whole, ps, picks) =>
      SubmissionFrame(w, s, c);
      FilingPicksAreFree(w, s, t, d, BatchPeriods(w, t, d, whole, ps), SubmittedStatus(w), picks, id);
    case SubmitByAdmin(t, d, whole, ps, picks) =>
      SubmissionFrame(w, s, c);
      FilingPicksAreFree(w, s, t, d, BatchPeriods(w, t, d, whole, ps), Approved, picks, id);
    case Approve(i, pick) =>
  }

  // The requests that can name a new substitute.
  lemma NewCoverComesFrom(w: World, s: State, c: Command, id: int)
    requires Inv(s) && NewlyCovers(s, Step(w, s, c), id)
    ensures Accepted(w, s, c) && (((c.Assign? || c.Override?) && c.id == id) || Submission(c) || c.Approve?)
  {
    if c.ClearByTeacher? {
      ClearBelowAddsNothing(s, c.teacher, s.nextId, id);
    }
  }

  /** Whatever request gives a leave a new substitute, that teacher is then active
      and free for the lesson and covers no other one at that time. */
  lemma NewCoverIsFree(w: World, s: State, c: Command, id: int)
    requires Inv(s) && NewlyCovers(s, Step(w, s, c), id)
    ensures var r := Step(w, s, c);
            && id in r.leaves && r.leaves[id].status == Approved
            && FreeFor(w, r.leaves, r.covers[id].substitute, r.leaves[id])
            && (forall i :: i in r.covers && i in r.leaves && i != id && SameLesson(r.leaves[i], r.leaves[id])
                  ==> r.covers[i].substitute != r.covers[id].substitute)
  {
    StepKeepsInv(w, s, c);
    NewCoverComesFrom(w, s, c, id);
    if Submission(c) || c.Approve? {
      PassNames(w, s, c, id);
    } else {
      assert Conflict(w, s, id, c.substitute) == None;
    }
  }

  /** Outside the autonomous pass the cut-off is still open, and the seven-day
      limit is kept or was overridden. */
  lemma NewCoverIsTimely(w: World, s: State, c: Command, id: int)
    requires Inv(s) && NewlyCovers(s, Step(w, s, c), id)
    ensures c.Assign? || c.Override? || (w.autonomous && (Submission(c) || c.Approve?))
    ensures c.Assign? || c.Override? ==>
              && c.id == id && id in s.leaves && !SubstitutionExpired(w, s.leaves[id].date)
              && (c.substitute in w.limits ==>
                    c.overrideLimit || RecentCovers(s, c.substitute, s.leaves[id].date) < w.limits[c.substitute])
  {
    NewCoverComesFrom(w, s, c, id);
    if Submission(c) || c.Approve? {
      PassNames(w, s, c, id);
    }
  }

  // ----- The lock -----

  /** A locked assignment changes if and only if one of the requests that take it
      away is accepted, or its lock is opened before the cut-off. */
  lemma LockedCoverChangesIff(w: World, s: State, c: Command, id: int)
    requires Inv(s) && id in s.covers && s.covers[id].locked
    ensures !SameCover(s, Step(w, s, c), id) <==> LiftsLock(w, s, c, id)
  {
    if !AimsAt(c, id, s.leaves[id].teacher) {
      OthersKeepCover(w, s, c, id);
    } else if c.Override? || c.Undo? {
      assert !Accepted(w, s, c);
    } else if !c.SetLock? {
      RemovalsTakeAway(w, s, c, id);
    }
  }

  predicate LiftsLock(w: World, s: State, c: Command, id: int)
    requires id in s.leaves
  {
    TakesAway(w, s, c, id) || (c == SetLock(id, false) && !SubstitutionExpired(w, s.leaves[id].date))
  }

  // Some accepted request of the run lifts the lock or takes the assignment away.
  ghost predicate LockLifted(s: State, events: seq<Event>, id: int)
    requires Inv(s) && id in s.leaves
    decreases events
  {
    events != [] &&
    var w, c := events[0].world, events[0].command;
    StepKeepsInv(w, s, c);
    StepPersists(w, s, c);
    LiftsLock(w, s, c, id) || LockLifted(Step(w, s, c), events[1..], id)
  }

  /** Over any run without such an accepted request, a locked assignment keeps
      its substitute, its kind and its lock. */
  lemma {:induction false} LockHolds(s: State, events: seq<Event>, id: int)
    requires Inv(s) && id in s.covers && s.covers[id].locked && !LockLifted(s, events, id)
    ensures SameCover(s, Run(s, events), id)
    decreases events
  {
    if events != [] {
      var w, c := events[0].world, events[0].command;
      LockedCoverChangesIff(w, s, c, id);
      StepKeepsInv(w, s, c);
      StepPersists(w, s, c);
      LockHolds(Step(w, s, c), events[1..], id);
    }
  }

  // ----- How a leave changes its status -----

  // The allowed transitions, each with who may cause it and when; 36000 seconds
  // make 10:00.
  ghost predicate Transition(w: World, l: Leave, c: Command, id: int, status: Status) {
    match status
    case Pending => false
    case Approved => l.status == Pending && c.Approve? && c.id == id && l.date in w.calendar
    case Rejected => l.status == Pending && c == Reject(id)
    case Cancelled =>
      && (l.status == Pending || l.status == Approved)
      && (c == CancelByAdmin(id)
          || (c == CancelByTeacher(id, l.teacher)
              && (w.local.today < l.date || (w.local.today == l.date && w.local.seconds < 36000))))
  }

  /** Whatever the step, a stored leave moves to another status if and only if it
      is approved on a working day or rejected while pending, or cancelled while
      pending or approved: by an administrator, or by its own teacher before 10:00
      of its date. */
  lemma StatusMovesIff(w: World, s: State, c: Command, id: int, status: Status)
    requires Inv(s) && id in s.leaves && status != s.leaves[id].status
    ensures id in Step(w, s, c).leaves
    ensures Step(w, s, c).leaves[id].status == status <==> Transition(w, s.leaves[id], c, id, status)
  {
    if (c.Approve? || c.Reject? || c.CancelByTeacher? || c.CancelByAdmin?) && c.id == id {
      DecisionMoves(w, s, c, id);
    } else {
      OthersKeepStatus(w, s, c, id);
    }
  }

  lemma OthersKeepStatus(w: World, s: State, c: Command, id: int)
    requires Inv(s) && id in s.leaves
    requires !((c.Approve? || c.Reject? || c.CancelByTeacher? || c.CancelByAdmin?) && c.id == id)
    ensures id in Step(w, s, c).leaves && Step(w, s, c).leaves[id].status == s.leaves[id].status
  {
    if Accepted(w, s, c) {
      if Submission(c) {
        SubmissionFrame(w, s, c);
      } else if c.ClearByTeacher? {
        ClearBelowAddsNothing(s, c.teacher, s.nextId, id);
      }
    }
  }

  lemma DecisionMoves(w: World, s: State, c: Command, id: int)
    requires id in s.leaves && (c.Approve? || c.Reject? || c.CancelByTeacher? || c.CancelByAdmin?) && c.id == id
    ensures id in Step(w, s, c).leaves
    ensures Step(w, s, c).leaves[id].status
         == if !Accepted(w, s, c) then s.leaves[id].status
            else if c.Approve? then Approved
            else if c.Reject? then Rejected
            else Cancelled
  {
  }
}
