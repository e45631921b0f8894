/**
The leave service over its tables. Every operation is proved to be the step of
the leave machine it stands for, so every law about runs holds of it.
*/
module LeaveServices {
  import opened Options
  import opened SortedLists
  import opened Leaves
  import opened LeaveLaws
  import opened LeaveTheorems
  import opened LeaveRules

  function Answer(refusal: Option<LeaveError>): Outcome<LeaveError> {
    match refusal
    case None => Done
    case Some(e) => Refused(e)
  }

  lemma AddLeavesSnoc(s: State, t: int, d: int, order: int, periods: seq<int>, p: int, status: Status)
    ensures AddLeaves(s, t, d, order, periods + [p], status)
         == AddLeave(AddLeaves(s, t, d, order, periods, status), Leave(t, d, order, p, status))
  {
    assert (periods + [p])[..|periods|] == periods;
  }

  lemma {:induction false} AddLeavesWritesLeaves(s: State, t: int, d: int, order: int, periods: seq<int>,
                                                 status: Status)
    ensures var r := AddLeaves(s, t, d, order, periods, status);
            r == s.(leaves := r.leaves, nextId := r.nextId)
    decreases periods
  {
    if periods != [] {
      AddLeavesWritesLeaves(s, t, d, order, periods[..|periods| - 1], status);
    }
  }

  lemma FileOne(w: World, s: State, t: int, d: int, p: int, status: Status, pick: Option<Pick>)
    requires d in w.calendar
    ensures FileLeaves(w, s, t, d, [p], status, [pick])
         == AutoCover(w, AddLeave(s, Leave(t, d, w.calendar[d], p, status)), s.nextId, pick)
  {
    var added := AddLeave(s, Leave(t, d, w.calendar[d], p, status));
    assert [p][..0] == [];
    assert AddLeaves(s, t, d, w.calendar[d], [], status) == s;
    assert AddLeaves(s, t, d, w.calendar[d], [p], status) == added;
    assert AutoCoverAll(w, added, s.nextId, 0, [pick]) == added;
  }

  class LeaveService {
    var leaves: map<int, Leave>
    var covers: map<int, Cover>
    var balances: map<int, int>
    var ledger: seq<Tx>
    var nextId: nat

    function Now(): State
      reads this
    {
      State(leaves, covers, balances, ledger, nextId)
    }

    ghost predicate Valid()
      reads this
    {
      Inv(Now())
    }

    constructor ()
      ensures Valid() && Now() == EMPTY
    {
      leaves, covers, balances, ledger, nextId := map[], map[], map[], [], 1;
      new;
      EmptyInv();
    }

    // The balance row is created at zero when the teacher has none.
    method ApplyCreditChange(teacher: int, change: int, leave: Option<int>, category: Category)
      modifies this`balances, this`ledger
      ensures Now() == Credit(old(Now()), teacher, change, category, leave)
    {
      if teacher !in balances {
        balances := balances[teacher := 0];
      }
      balances := balances[teacher := balances[teacher] + change];
      ledger := ledger + [Tx(teacher, change, category, leave)];
      assert balances == old(balances)[teacher := Balance(old(Now()), teacher) + change];
    }

    method CreateAssignment(id: int, substitute: int, how: AssignmentType)
      requires id in leaves
      modifies this`covers, this`balances, this`ledger
      ensures Now() == AddCover(old(Now()), id, substitute, how)
    {
      covers := covers[id := Cover(substitute, how, false)];
      ApplyCreditChange(leaves[id].teacher, -1, Some(id), Penalty);
      ApplyCreditChange(substitute, 1, Some(id), SubstituteClass);
    }

    method ReverseAssignment(id: int)
      requires id in leaves && id in covers
      modifies this`covers, this`balances, this`ledger
      ensures Now() == RemoveCover(old(Now()), id)
    {
      var substitute := covers[id].substitute;
      ApplyCreditChange(leaves[id].teacher, 1, Some(id), Correction);
      ApplyCreditChange(substitute, -1, Some(id), Correction);
      covers := covers - {id};
    }

    // The hard conflict checks shared by assigning and overriding.
    method HardConflict(w: World, id: int, substitute: int) returns (conflict: Option<LeaveError>)
      requires id in leaves
      ensures conflict == Conflict(w, Now(), id, substitute)
    {
      var leave := leaves[id];
      if Slot(substitute, leave.order, leave.period) in w.slots {
        return Some(IsTeaching);
      }
      if OnApprovedLeave(Now(), substitute, leave.date, leave.period) {
        return Some(IsOnLeave);
      }
      if Substituting(Now(), substitute, leave.date, leave.period, id) {
        return Some(AlreadySubstituting);
      }
      conflict := None;
    }

    // The seven-day limit, which a flag overrides.
    method LimitReachedFor(w: World, date: int, substitute: int, overrideLimit: bool) returns (reached: bool)
      ensures reached == LimitRefusal(w, Now(), date, substitute, overrideLimit).Some?
    {
      var allocations := RecentCovers(Now(), substitute, date);
      if substitute in w.limits && allocations >= w.limits[substitute] {
        return !overrideLimit;
      }
      reached := false;
    }

    // The autonomous pass for one leave just approved.
    method AutoProcess(w: World, id: int, pick: Option<Pick>)
      requires id in leaves && id !in covers
      modifies this`covers, this`balances, this`ledger
      ensures Now() == AutoCover(w, old(Now()), id, pick)
    {
      if !w.autonomous || pick.None? {
        return;
      }
      var leave, substitute := leaves[id], pick.value.substitute;
      if substitute !in w.teachers || substitute == leave.teacher {
        return;
      }
      if Slot(substitute, leave.order, leave.period) in w.slots {
        return;
      }
      if OnApprovedLeave(Now(), substitute, leave.date, leave.period) {
        return;
      }
      if SubstitutingOn(Now(), substitute, leave.date) {
        return;
      }
      CreateAssignment(id, substitute, if pick.value.emergency then Emergency else AutoAssigned);
    }

    method StoreAndProcess(w: World, teacher: int, date: int, period: int, status: Status, pick: Option<Pick>)
      requires Structure(Now()) && date in w.calendar
      modifies this
      ensures Now() == FileLeaves(w, old(Now()), teacher, date, [period], status, [pick])
    {
      FileOne(w, Now(), teacher, date, period, status, pick);
      var id := nextId;
      leaves := leaves[id := Leave(teacher, date, w.calendar[date], period, status)];
      nextId := id + 1;
      AutoProcess(w, id, pick);
    }

    method SubmitLeave(w: World, teacher: int, date: int, period: int, pick: Option<Pick>)
      returns (outcome: Outcome<LeaveError>)
      requires Valid()
      modifies this
      ensures Valid()
      ensures var c := Submit(teacher, date, period, pick);
              Now() == Step(w, old(Now()), c) && outcome == Answer(Refusal(w, old(Now()), c))
      ensures outcome.Done? ==>
                date in w.calendar && FilesOneEach(w, old(Now()), Now(), Submit(teacher, date, period, pick))
    {
      StepKeepsInv(w, Now(), Submit(teacher, date, period, pick));
      FiledOneEach(w, Now(), Submit(teacher, date, period, pick));
      if date !in w.calendar {
        return Refused(NotAWorkingDay);
      }
      if HasActiveLeave(Now(), teacher, date, period) {
        return Refused(DuplicateLeave);
      }
      var status := if w.autonomous then Approved else Pending;
      StoreAndProcess(w, teacher, date, period, status, pick);
      outcome := Done;
    }

    // Rows are staged and become visible only at the commit: a duplicate found
    // at any period leaves the tables as they were.
    method AddBatch(w: World, teacher: int, date: int, wholeDay: bool, periods: seq<int>, status: Status)
      returns (outcome: Outcome<LeaveError>)
      requires Structure(Now())
      modifies this`leaves, this`nextId
      ensures outcome == Answer(BatchRefusal(w, old(Now()), teacher, date, wholeDay, periods))
      ensures outcome.Refused? ==> Now() == old(Now())
      ensures outcome.Done? ==>
                Now() == AddLeaves(old(Now()), teacher, date, w.calendar[date],
                                   BatchPeriods(w, teacher, date, wholeDay, periods), status)
      ensures outcome.Done? ==>
                date in w.calendar
                && AddsOneEach(w, old(Now()), Now(), SubmitBatch(teacher, date, wholeDay, periods, []), status)
    {
      if date !in w.calendar {
        return Refused(NotAWorkingDay);
      }
      var chosen := BatchPeriods(w, teacher, date, wholeDay, periods);
      if chosen == [] {
        return Refused(NoPeriods);
      }
      var stored, staged := Now(), Now();
      ghost var done: seq<int> := [];
      for i := 0 to |chosen|
        invariant Now() == stored && done == chosen[..i]
        invariant forall p :: p in done ==> !HasActiveLeave(stored, teacher, date, p)
        invariant staged == AddLeaves(stored, teacher, date, w.calendar[date], done, status)
      {
        if HasActiveLeave(stored, teacher, date, chosen[i]) {
          assert chosen[i] in chosen;
          return Refused(DuplicateLeave);
        }
        AddLeavesSnoc(stored, teacher, date, w.calendar[date], done, chosen[i], status);
        staged := AddLeave(staged, Leave(teacher, date, w.calendar[date], chosen[i], status));
        done := done + [chosen[i]];
      }
      assert done == chosen;
      AddLeavesWritesLeaves(stored, teacher, date, w.calendar[date], chosen, status);
      AddedOneEach(w, stored, staged, SubmitBatch(teacher, date, wholeDay, periods, []), status);
      leaves, nextId := staged.leaves, staged.nextId;
      outcome := Done;
    }

    // The pass over the leaves of a batch, in the order they were stored.
    method AutoProcessBatch(w: World, first: int, n: nat, picks: seq<Option<Pick>>)
      requires forall id :: first <= id < first + n ==> id in leaves && id !in covers
      modifies this`covers, this`balances, this`ledger
      ensures Now() == AutoCoverAll(w, old(Now()), first, n, picks)
    {
      ghost var stored := Now();
      for i := 0 to n
        invariant Now() == AutoCoverAll(w, stored, first, i, picks)
      {
        PassFrame(w, stored, first, i, picks);
        AutoProcess(w, first + i, if i < |picks| then picks[i] else None);
      }
    }

    method SubmitLeaveBatch(w: World, teacher: int, date: int, wholeDay: bool, periods: seq<int>,
                            picks: seq<Option<Pick>>)
      returns (outcome: Outcome<LeaveError>)
      requires Valid()
      modifies this
      ensures Valid()
      ensures var c := SubmitBatch(teacher, date, wholeDay, periods, picks);
              Now() == Step(w, old(Now()), c) && outcome == Answer(Refusal(w, old(Now()), c))
      ensures outcome.Done? ==>
                date in w.calendar
                && FilesOneEach(w, old(Now()), Now(), SubmitBatch(teacher, date, wholeDay, periods, picks))
    {
      StepKeepsInv(w, Now(), SubmitBatch(teacher, date, wholeDay, periods, picks));
      FiledOneEach(w, Now(), SubmitBatch(teacher, date, wholeDay, periods, picks));
      outcome := FileBatch(w, teacher, date, wholeDay, periods, if w.autonomous then Approved else Pending, picks);
    }

    method SubmitLeaveByAdmin(w: World, teacher: int, date: int, wholeDay: bool, periods: seq<int>,
                              picks: seq<Option<Pick>>)
      returns (outcome: Outcome<LeaveError>)
      requires Valid()
      modifies this
      ensures Valid()
      ensures var c := SubmitByAdmin(teacher, date, wholeDay, periods, picks);
              Now() == Step(w, old(Now()), c) && outcome == Answer(Refusal(w, old(Now()), c))
      ensures outcome.Done? ==>
                date in w.calendar
                && FilesOneEach(w, old(Now()), Now(), SubmitByAdmin(teacher, date, wholeDay, periods, picks))
    {
      StepKeepsInv(w, Now(), SubmitByAdmin(teacher, date, wholeDay, periods, picks));
      FiledOneEach(w, Now(), SubmitByAdmin(teacher, date, wholeDay, periods, picks));
      outcome := FileBatch(w, teacher, date, wholeDay, periods, Approved, picks);
    }

    method FileBatch(w: World, teacher: int, date: int, wholeDay: bool, periods: seq<int>, status: Status,
                     picks: seq<Option<Pick>>)
      returns (outcome: Outcome<LeaveError>)
      requires Structure(Now())
      modifies this
      ensures outcome == Answer(BatchRefusal(w, old(Now()), teacher, date, wholeDay, periods))
      ensures outcome.Refused? ==> Now() == old(Now())
      ensures outcome.Done? ==>
                Now() == FileLeaves(w, old(Now()), teacher, date,
                                    BatchPeriods(w, teacher, date, wholeDay, periods), status, picks)
    {
      var first := nextId;
      ghost var before := Now();
      outcome := AddBatch(w, teacher, date, wholeDay, periods, status);
      if outcome.Done? {
        var chosen := BatchPeriods(w, teacher, date, wholeDay, periods);
        AddLeavesRows(before, teacher, date, w.calendar[date], chosen, status);
        AutoProcessBatch(w, first, |chosen|, picks);
      }
    }

    method ApproveLeave(w: World, id: int, pick: Option<Pick>) returns (outcome: Outcome<LeaveError>)
      requires Valid()
      modifies this
      ensures Valid()
      ensures var c := Approve(id, pick);
              Now() == Step(w, old(Now()), c) && outcome == Answer(Refusal(w, old(Now()), c))
    {
      StepKeepsInv(w, Now(), Approve(id, pick));
      if id !in leaves {
        return Refused(NoSuchLeave);
      }
      if leaves[id].status != Pending {
        return Refused(NotPending);
      }
      if leaves[id].date !in w.calendar {
        return Refused(NotAWorkingDay);
      }
      leaves := leaves[id := leaves[id].(status := Approved)];
      AutoProcess(w, id, pick);
      outcome := Done;
    }

    method RejectLeave(w: World, id: int) returns (outcome: Outcome<LeaveError>)
      requires Valid()
      modifies this
      ensures Valid()
      ensures Now() == Step(w, old(Now()), Reject(id)) && outcome == Answer(Refusal(w, old(Now()), Reject(id)))
    {
      StepKeepsInv(w, Now(), Reject(id));
      if id !in leaves {
        return Refused(NoSuchLeave);
      }
      if leaves[id].status != Pending {
        return Refused(NotPending);
      }
      leaves := leaves[id := leaves[id].(status := Rejected)];
      outcome := Done;
    }

    method AssignSubstitute(w: World, id: int, substitute: int, how: AssignmentType, overrideLimit: bool)
      returns (outcome: Outcome<LeaveError>)
      requires Valid()
      modifies this
      ensures Valid()
      ensures var c := Assign(id, substitute, how, overrideLimit);
              Now() == Step(w, old(Now()), c) && outcome == Answer(Refusal(w, old(Now()), c))
    {
      StepKeepsInv(w, Now(), Assign(id, substitute, how, overrideLimit));
      if id !in leaves {
        return Refused(NoSuchLeave);
      }
      var leave := leaves[id];
      if leave.status != Approved {
        return Refused(NotApproved);
      }
      if SubstitutionExpired(w, leave.date) {
        return Refused(CutoffPassed);
      }
      if id in covers {
        return Refused(AlreadyCovered);
      }
      if leave.date !in w.calendar {
        return Refused(NotAWorkingDay);
      }
      if substitute !in w.teachers {
        return Refused(NoSuchTeacher);
      }
      if substitute == leave.teacher {
        return Refused(OwnSubstitute);
      }
      var conflict := HardConflict(w, id, substitute);
      if conflict.Some? {
        return Refused(conflict.value);
      }
      var reached := LimitReachedFor(w, leave.date, substitute, overrideLimit);
      if reached {
        return Refused(LimitReached);
      }
      CreateAssignment(id, substitute, how);
      outcome := Done;
    }

    method OverrideSubstitute(w: World, id: int, substitute: int, overrideLimit: bool)
      returns (outcome: Outcome<LeaveError>)
      requires Valid()
      modifies this
      ensures Valid()
      ensures var c := Override(id, substitute, overrideLimit);
              Now() == Step(w, old(Now()), c) && outcome == Answer(Refusal(w, old(Now()), c))
    {
      StepKeepsInv(w, Now(), Override(id, substitute, overrideLimit));
      if id !in leaves {
        return Refused(NoSuchLeave);
      }
      var leave := leaves[id];
      if SubstitutionExpired(w, leave.date) {
        return Refused(CutoffPassed);
      }
      if id !in covers {
        return Refused(NotCovered);
      }
      var existing := covers[id];
      if existing.locked {
        return Refused(AssignmentLocked);
      }
      if substitute !in w.teachers {
        return Refused(NoSuchTeacher);
      }
      if substitute == leave.teacher {
        return Refused(OwnSubstitute);
      }
      if substitute == existing.substitute {
        return Refused(SameSubstitute);
      }
      var conflict := HardConflict(w, id, substitute);
      if conflict.Some? {
        return Refused(conflict.value);
      }
      var reached := LimitReachedFor(w, leave.date, substitute, overrideLimit);
      if reached {
        return Refused(LimitReached);
      }
      ApplyCreditChange(existing.substitute, -1, Some(id), Correction);
      ApplyCreditChange(substitute, 1, Some(id), SubstituteClass);
      covers := covers[id := existing.(substitute := substitute, how := Overridden)];
      outcome := Done;
    }

    method UndoAssignment(w: World, id: int) returns (outcome: Outcome<LeaveError>)
      requires Valid()
      modifies this
      ensures Valid()
      ensures Now() == Step(w, old(Now()), Undo(id)) && outcome == Answer(Refusal(w, old(Now()), Undo(id)))
    {
      StepKeepsInv(w, Now(), Undo(id));
      if id !in leaves {
        return Refused(NoSuchLeave);
      }
      if SubstitutionExpired(w, leaves[id].date) {
        return Refused(CutoffPassed);
      }
      if id !in covers {
        return Refused(NotCovered);
      }
      if covers[id].locked {
        return Refused(AssignmentLocked);
      }
      ReverseAssignment(id);
      outcome := Done;
    }

    method SetAssignmentLock(w: World, id: int, locked: bool) returns (outcome: Outcome<LeaveError>)
      requires Valid()
      modifies this
      ensures Valid()
      ensures Now() == Step(w, old(Now()), SetLock(id, locked))
           && outcome == Answer(Refusal(w, old(Now()), SetLock(id, locked)))
    {
      StepKeepsInv(w, Now(), SetLock(id, locked));
      if id !in leaves {
        return Refused(NoSuchLeave);
      }
      if SubstitutionExpired(w, leaves[id].date) {
        return Refused(CutoffPassed);
      }
      if id !in covers {
        return Refused(NotCovered);
      }
      covers := covers[id := covers[id].(locked := locked)];
      outcome := Done;
    }

    method CancelLeaveByTeacher(w: World, id: int, teacher: int) returns (outcome: Outcome<LeaveError>)
      requires Valid()
      modifies this
      ensures Valid()
      ensures Now() == Step(w, old(Now()), CancelByTeacher(id, teacher))
           && outcome == Answer(Refusal(w, old(Now()), CancelByTeacher(id, teacher)))
    {
      StepKeepsInv(w, Now(), CancelByTeacher(id, teacher));
      if id !in leaves {
        return Refused(NoSuchLeave);
      }
      var leave := leaves[id];
      if leave.teacher != teacher {
        return Refused(NotOwnLeave);
      }
      if leave.status == Rejected || leave.status == Cancelled {
        return Refused(AlreadyClosed);
      }
      if leave.date < w.local.today {
        return Refused(PastLeave);
      }
      if leave.date == w.local.today && w.local.seconds >= SAME_DAY_CANCEL_SECONDS {
        return Refused(TooLateToday);
      }
      if id in covers {
        ReverseAssignment(id);
      }
      leaves := leaves[id := leaves[id].(status := Cancelled)];
      outcome := Done;
    }

    method CancelLeaveByAdmin(w: World, id: int) returns (outcome: Outcome<LeaveError>)
      requires Valid()
      modifies this
      ensures Valid()
      ensures Now() == Step(w, old(Now()), CancelByAdmin(id))
           && outcome == Answer(Refusal(w, old(Now()), CancelByAdmin(id)))
    {
      StepKeepsInv(w, Now(), CancelByAdmin(id));
      if id !in leaves {
        return Refused(NoSuchLeave);
      }
      if leaves[id].status == Rejected || leaves[id].status == Cancelled {
        return Refused(AlreadyClosed);
      }
      if id in covers {
        ReverseAssignment(id);
      }
      leaves := leaves[id := leaves[id].(status := Cancelled)];
      outcome := Done;
    }

    method TeacherClearAssignments(w: World, teacher: int) returns (outcome: Outcome<LeaveError>)
      requires Valid()
      modifies this
      ensures Valid()
      ensures Now() == Step(w, old(Now()), ClearByTeacher(teacher))
           && outcome == Answer(Refusal(w, old(Now()), ClearByTeacher(teacher)))
    {
      StepKeepsInv(w, Now(), ClearByTeacher(teacher));
      if !w.selfManaged {
        return Refused(SelfManagementOff);
      }
      for id := 0 to nextId
        invariant nextId == old(nextId)
        invariant Now() == ClearBelow(old(Now()), teacher, id)
      {
        if id in covers && id in leaves && leaves[id].teacher == teacher && leaves[id].status == Approved {
          ReverseAssignment(id);
        }
      }
      outcome := Done;
    }

    method AdjustCredits(w: World, teacher: int, change: int) returns (outcome: Outcome<LeaveError>)
      requires Valid()
      modifies this
      ensures Valid()
      ensures Now() == Step(w, old(Now()), Adjust(teacher, change))
           && outcome == Answer(Refusal(w, old(Now()), Adjust(teacher, change)))
    {
      StepKeepsInv(w, Now(), Adjust(teacher, change));
      if change != 1 && change != -1 {
        return Refused(NotOneCredit);
      }
      ApplyCreditChange(teacher, change, None, ManualAdjustment);
      outcome := Done;
    }
  }
}
