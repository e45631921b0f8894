/**
Teacher leaves, the substitute covering each of them, and the credit ledger:
the state, every operation as a step on it, and runs of steps.
*/
module Leaves {
  import opened Options
  import opened SortedLists

  datatype Status = Pending | Approved | Rejected | Cancelled

  datatype AssignmentType =
    | AutoAssigned | FacultyRecommended | AdminAssigned | AutoSwapped
    | Overridden | Emergency | TeacherAssigned | CombinedClass

  datatype Category = Penalty | SubstituteClass | Correction | ManualAdjustment

  datatype Leave = Leave(teacher: int, date: int, order: int, period: int, status: Status)
  datatype Cover = Cover(substitute: int, how: AssignmentType, locked: bool)
  datatype Tx = Tx(teacher: int, change: int, category: Category, leave: Option<int>)

  // The tables the operations write.
  datatype State = State(leaves: map<int, Leave>, covers: map<int, Cover>,
                         balances: map<int, int>, ledger: seq<Tx>, nextId: nat)

  datatype Slot = Slot(teacher: int, order: int, period: int)

  // A clock reading: the date and the seconds since midnight.
  datatype Clock = Clock(today: int, seconds: int)

  // What the operations read: the institution's clock and the server's own
  // local clock, the calendar (working dates with their Day Order), the
  // timetable, the active teachers and the settings.
  datatype World = World(now: Clock, local: Clock, calendar: map<int, int>, slots: seq<Slot>,
                         teachers: set<int>, limits: map<int, int>, autonomous: bool, selfManaged: bool)

  // Whom the scoring of the autonomous pass would choose, and whether the leave
  // was filed as an emergency.
  datatype Pick = Pick(substitute: int, emergency: bool)

  datatype LeaveError =
    | NoSuchLeave | NotAWorkingDay | DuplicateLeave | NoPeriods | NotPending | NotApproved
    | CutoffPassed | AlreadyCovered | NotCovered | AssignmentLocked | NoSuchTeacher | OwnSubstitute
    | SameSubstitute | IsTeaching | IsOnLeave | AlreadySubstituting | LimitReached
    | NotOwnLeave | AlreadyClosed | PastLeave | TooLateToday | SelfManagementOff | NotOneCredit

  const CUTOFF_SECONDS := 17 * 3600
  const SAME_DAY_CANCEL_SECONDS := 10 * 3600
  const LIMIT_WINDOW_DAYS := 7

  const EMPTY := State(map[], map[], map[], [], 1)

  // ----- Reading the state -----

  predicate SubstitutionExpired(w: World, date: int) {
    date < w.now.today || (date == w.now.today && w.now.seconds >= CUTOFF_SECONDS)
  }

  predicate Active(l: Leave) {
    l.status == Pending || l.status == Approved
  }

  predicate HasActiveLeave(s: State, teacher: int, date: int, period: int) {
    exists id :: id in s.leaves && s.leaves[id].teacher == teacher && s.leaves[id].date == date
                 && s.leaves[id].period == period && Active(s.leaves[id])
  }

  predicate OnApprovedLeave(s: State, teacher: int, date: int, period: int) {
    exists id :: id in s.leaves && s.leaves[id].teacher == teacher && s.leaves[id].date == date
                 && s.leaves[id].period == period && s.leaves[id].status == Approved
  }

  // Whether a teacher already substitutes then, for any leave but `except`.
  predicate Substituting(s: State, teacher: int, date: int, period: int, except: int) {
    exists id :: id in s.covers && id in s.leaves && id != except && s.covers[id].substitute == teacher
                 && s.leaves[id].date == date && s.leaves[id].period == period
  }

  predicate SubstitutingOn(s: State, teacher: int, date: int) {
    exists id :: id in s.covers && id in s.leaves && s.covers[id].substitute == teacher && s.leaves[id].date == date
  }

  function RecentCovers(s: State, teacher: int, date: int): nat {
    |set id | id in s.covers && id in s.leaves && s.covers[id].substitute == teacher
              && date - LIMIT_WINDOW_DAYS <= s.leaves[id].date <= date && s.leaves[id].status == Approved|
  }

  function Balance(s: State, teacher: int): int {
    if teacher in s.balances then s.balances[teacher] else 0
  }

  // ----- Writing the state -----

  function Credit(s: State, teacher: int, change: int, category: Category, leave: Option<int>): State {
    s.(balances := s.balances[teacher := Balance(s, teacher) + change],
       ledger := s.ledger + [Tx(teacher, change, category, leave)])
  }

  function AddCover(s: State, id: int, substitute: int, how: AssignmentType): State
    requires id in s.leaves
  {
    var s1 := s.(covers := s.covers[id := Cover(substitute, how, false)]);
    Credit(Credit(s1, s.leaves[id].teacher, -1, Penalty, Some(id)), substitute, 1, SubstituteClass, Some(id))
  }

  function ReplaceCover(s: State, id: int, substitute: int): State
    requires id in s.covers
  {
    var was := s.covers[id];
    var s1 := Credit(Credit(s, was.substitute, -1, Correction, Some(id)), substitute, 1, SubstituteClass, Some(id));
    s1.(covers := s.covers[id := Cover(substitute, Overridden, was.locked)])
  }

  // Undo, cancellation and clearing all give back the leaver's credit and take
  // the substitute's.
  function RemoveCover(s: State, id: int): State
    requires id in s.leaves && id in s.covers
  {
    var s1 := Credit(Credit(s, s.leaves[id].teacher, 1, Correction, Some(id)),
                     s.covers[id].substitute, -1, Correction, Some(id));
    s1.(covers := s.covers - {id})
  }

  function SetStatus(s: State, id: int, status: Status): State
    requires id in s.leaves
  {
    s.(leaves := s.leaves[id := s.leaves[id].(status := status)])
  }

  function Cancel(s: State, id: int): State
    requires id in s.leaves
  {
    SetStatus(if id in s.covers then RemoveCover(s, id) else s, id, Cancelled)
  }

  function AddLeave(s: State, l: Leave): State {
    s.(leaves := s.leaves[s.nextId := l], nextId := s.nextId + 1)
  }

  function AddLeaves(s: State, teacher: int, date: int, order: int, periods: seq<int>, status: Status): State {
    if periods == [] then s
    else AddLeave(AddLeaves(s, teacher, date, order, periods[..|periods| - 1], status),
                  Leave(teacher, date, order, periods[|periods| - 1], status))
  }

  // Removes the cover of every approved leave of `teacher` with id below n.
  function ClearBelow(s: State, teacher: int, n: nat): State {
    if n == 0 then s
    else
      var s1 := ClearBelow(s, teacher, n - 1);
      if ClearsCover(s1, teacher, n - 1) then RemoveCover(s1, n - 1) else s1
  }

  predicate ClearsCover(s: State, teacher: int, id: int) {
    id in s.covers && id in s.leaves && s.leaves[id].teacher == teacher && s.leaves[id].status == Approved
  }

  // ----- Why an operation is refused, checks in the order they are made -----

  function ScheduledPeriods(slots: seq<Slot>, teacher: int, order: int): seq<int> {
    if slots == [] then []
    else (if slots[0].teacher == teacher && slots[0].order == order then [slots[0].period] else [])
         + ScheduledPeriods(slots[1..], teacher, order)
  }

  function BatchPeriods(w: World, teacher: int, date: int, wholeDay: bool, periods: seq<int>): (r: seq<int>)
    requires date in w.calendar
    ensures Ascending(r)
  {
    SortedSet(if wholeDay then ScheduledPeriods(w.slots, teacher, w.calendar[date]) else periods)
  }

  function SubmitRefusal(w: World, s: State, teacher: int, date: int, period: int): Option<LeaveError> {
    if date !in w.calendar then Some(NotAWorkingDay)
    else if HasActiveLeave(s, teacher, date, period) then Some(DuplicateLeave)
    else None
  }

  function BatchRefusal(w: World, s: State, teacher: int, date: int, wholeDay: bool, periods: seq<int>)
    : Option<LeaveError>
  {
    if date !in w.calendar then Some(NotAWorkingDay)
    else
      var ps := BatchPeriods(w, teacher, date, wholeDay, periods);
      if ps == [] then Some(NoPeriods)
      else if exists p :: p in ps && HasActiveLeave(s, teacher, date, p) then Some(DuplicateLeave)
      else None
  }

  function ApproveRefusal(w: World, s: State, id: int): Option<LeaveError> {
    if id !in s.leaves then Some(NoSuchLeave)
    else if s.leaves[id].status != Pending then Some(NotPending)
    else if s.leaves[id].date !in w.calendar then Some(NotAWorkingDay)
    else None
  }

  function RejectRefusal(s: State, id: int): Option<LeaveError> {
    if id !in s.leaves then Some(NoSuchLeave)
    else if s.leaves[id].status != Pending then Some(NotPending)
    else None
  }

  // The conflict checks that no flag overrides.
  function Conflict(w: World, s: State, id: int, substitute: int): Option<LeaveError>
    requires id in s.leaves
  {
    var l := s.leaves[id];
    if Slot(substitute, l.order, l.period) in w.slots then Some(IsTeaching)
    else if OnApprovedLeave(s, substitute, l.date, l.period) then Some(IsOnLeave)
    else if Substituting(s, substitute, l.date, l.period, id) then Some(AlreadySubstituting)
    else None
  }

  function LimitRefusal(w: World, s: State, date: int, substitute: int, overrideLimit: bool): Option<LeaveError> {
    if substitute in w.limits && RecentCovers(s, substitute, date) >= w.limits[substitute] && !overrideLimit
    then Some(LimitReached) else None
  }

  function AssignRefusal(w: World, s: State, id: int, substitute: int, overrideLimit: bool): Option<LeaveError> {
    if id !in s.leaves then Some(NoSuchLeave)
    else if s.leaves[id].status != Approved then Some(NotApproved)
    else if SubstitutionExpired(w, s.leaves[id].date) then Some(CutoffPassed)
    else if id in s.covers then Some(AlreadyCovered)
    else if s.leaves[id].date !in w.calendar then Some(NotAWorkingDay)
    else if substitute !in w.teachers then Some(NoSuchTeacher)
    else if substitute == s.leaves[id].teacher then Some(OwnSubstitute)
    else if Conflict(w, s, id, substitute).Some? then Conflict(w, s, id, substitute)
    else LimitRefusal(w, s, s.leaves[id].date, substitute, overrideLimit)
  }

  function OverrideRefusal(w: World, s: State, id: int, substitute: int, overrideLimit: bool): Option<LeaveError> {
    if id !in s.leaves then Some(NoSuchLeave)
    else if SubstitutionExpired(w, s.leaves[id].date) then Some(CutoffPassed)
    else if id !in s.covers then Some(NotCovered)
    else if s.covers[id].locked then Some(AssignmentLocked)
    else if substitute !in w.teachers then Some(NoSuchTeacher)
    else if substitute == s.leaves[id].teacher then Some(OwnSubstitute)
    else if substitute == s.covers[id].substitute then Some(SameSubstitute)
    else if Conflict(w, s, id, substitute).Some? then Conflict(w, s, id, substitute)
    else LimitRefusal(w, s, s.leaves[id].date, substitute, overrideLimit)
  }

  function UndoRefusal(w: World, s: State, id: int): Option<LeaveError> {
    if id !in s.leaves then Some(NoSuchLeave)
    else if SubstitutionExpired(w, s.leaves[id].date) then Some(CutoffPassed)
    else if id !in s.covers then Some(NotCovered)
    else if s.covers[id].locked then Some(AssignmentLocked)
    else None
  }

  function LockRefusal(w: World, s: State, id: int): Option<LeaveError> {
    if id !in s.leaves then Some(NoSuchLeave)
    else if SubstitutionExpired(w, s.leaves[id].date) then Some(CutoffPassed)
    else if id !in s.covers then Some(NotCovered)
    else None
  }

  predicate Closed(l: Leave) {
    l.status == Rejected || l.status == Cancelled
  }

  function TeacherCancelRefusal(w: World, s: State, id: int, teacher: int): Option<LeaveError> {
    if id !in s.leaves then Some(NoSuchLeave)
    else if s.leaves[id].teacher != teacher then Some(NotOwnLeave)
    else if Closed(s.leaves[id]) then Some(AlreadyClosed)
    else if s.leaves[id].date < w.local.today then Some(PastLeave)
    else if s.leaves[id].date == w.local.today && w.local.seconds >= SAME_DAY_CANCEL_SECONDS then Some(TooLateToday)
    else None
  }

  function AdminCancelRefusal(s: State, id: int): Option<LeaveError> {
    if id !in s.leaves then Some(NoSuchLeave)
    else if Closed(s.leaves[id]) then Some(AlreadyClosed)
    else None
  }

  // ----- The autonomous pass, part of every request that approves a leave -----

  predicate AutoEligible(w: World, s: State, id: int, teacher: int)
    requires id in s.leaves
  {
    var l := s.leaves[id];
    && teacher in w.teachers && teacher != l.teacher
    && Slot(teacher, l.order, l.period) !in w.slots
    && !OnApprovedLeave(s, teacher, l.date, l.period)
    && !SubstitutingOn(s, teacher, l.date)
  }

  // The pass assigns its pick, when the mode is autonomous and the pick is
  // eligible; it looks at neither the cut-off nor the calendar.
  function AutoCover(w: World, s: State, id: int, pick: Option<Pick>): State {
    if w.autonomous && pick.Some? && id in s.leaves && id !in s.covers && AutoEligible(w, s, id, pick.value.substitute)
    then AddCover(s, id, pick.value.substitute, if pick.value.emergency then Emergency else AutoAssigned)
    else s
  }

  function PickAt(picks: seq<Option<Pick>>, i: nat): Option<Pick> {
    if i < |picks| then picks[i] else None
  }

  // The pass over n leaves with consecutive ids, one after another.
  function AutoCoverAll(w: World, s: State, first: int, n: nat, picks: seq<Option<Pick>>): State {
    if n == 0 then s
    else AutoCover(w, AutoCoverAll(w, s, first, n - 1, picks), first + n - 1, PickAt(picks, n - 1))
  }

  // ----- Steps and runs -----

  datatype Command =
    | Submit(teacher: int, date: int, period: int, pick: Option<Pick>)
    | SubmitBatch(teacher: int, date: int, wholeDay: bool, periods: seq<int>, picks: seq<Option<Pick>>)
    | SubmitByAdmin(teacher: int, date: int, wholeDay: bool, periods: seq<int>, picks: seq<Option<Pick>>)
    | Approve(id: int, pick: Option<Pick>)
    | Reject(id: int)
    | Assign(id: int, substitute: int, how: AssignmentType, overrideLimit: bool)
    | Override(id: int, substitute: int, overrideLimit: bool)
    | Undo(id: int)
    | SetLock(id: int, locked: bool)
    | CancelByTeacher(id: int, teacher: int)
    | CancelByAdmin(id: int)
    | ClearByTeacher(teacher: int)
    | Adjust(teacher: int, change: int)

  function Refusal(w: World, s: State, c: Command): Option<LeaveError> {
    match c
    case Submit(t, d, p, _) => SubmitRefusal(w, s, t, d, p)
    case SubmitBatch(t, d, whole, ps, _) => BatchRefusal(w, s, t, d, whole, ps)
    case SubmitByAdmin(t, d, whole, ps, _) => BatchRefusal(w, s, t, d, whole, ps)
    case Approve(id, _) => ApproveRefusal(w, s, id)
    case Reject(id) => RejectRefusal(s, id)
    case Assign(id, sub, _, over) => AssignRefusal(w, s, id, sub, over)
    case Override(id, sub, over) => OverrideRefusal(w, s, id, sub, over)
    case Undo(id) => UndoRefusal(w, s, id)
    case SetLock(id, _) => LockRefusal(w, s, id)
    case CancelByTeacher(id, t) => TeacherCancelRefusal(w, s, id, t)
    case CancelByAdmin(id) => AdminCancelRefusal(s, id)
    case ClearByTeacher(_) => if w.selfManaged then None else Some(SelfManagementOff)
    case Adjust(_, change) => if OneCredit(change) then None else Some(NotOneCredit)
  }

  // The ledger table stores changes of one credit only.
  predicate OneCredit(change: int) {
    change == 1 || change == -1
  }

  // What a command adds to a teacher's manual sum.
  function AdjustsBy(c: Command, teacher: int): int {
    if c.Adjust? && c.teacher == teacher && OneCredit(c.change) then c.change else 0
  }

  function SubmittedStatus(w: World): Status { if w.autonomous then Approved else Pending }

  // Stores one leave per period, then runs the pass over them.
  function FileLeaves(w: World, s: State, t: int, d: int, periods: seq<int>, status: Status,
                      picks: seq<Option<Pick>>): State
    requires d in w.calendar
  {
    AutoCoverAll(w, AddLeaves(s, t, d, w.calendar[d], periods, status), s.nextId, |periods|, picks)
  }

  function Effect(w: World, s: State, c: Command): State
    requires Refusal(w, s, c) == None
  {
    match c
    case Submit(t, d, p, pick) => FileLeaves(w, s, t, d, [p], SubmittedStatus(w), [pick])
    case SubmitBatch(t, d, whole, ps, picks) =>
      FileLeaves(w, s, t, d, BatchPeriods(w, t, d, whole, ps), SubmittedStatus(w), picks)
    case SubmitByAdmin(t, d, whole, ps, picks) =>
      FileLeaves(w, s, t, d, BatchPeriods(w, t, d, whole, ps), Approved, picks)
    case Approve(id, pick) => AutoCover(w, SetStatus(s, id, Approved), id, pick)
    case Reject(id) => SetStatus(s, id, Rejected)
    case Assign(id, sub, how, _) => AddCover(s, id, sub, how)
    case Override(id, sub, _) => ReplaceCover(s, id, sub)
    case Undo(id) => RemoveCover(s, id)
    case SetLock(id, locked) => s.(covers := s.covers[id := s.covers[id].(locked := locked)])
    case CancelByTeacher(id, _) => Cancel(s, id)
    case CancelByAdmin(id) => Cancel(s, id)
    case ClearByTeacher(t) => ClearBelow(s, t, s.nextId)
    case Adjust(t, change) => Credit(s, t, change, ManualAdjustment, None)
  }

  predicate Accepted(w: World, s: State, c: Command) {
    Refusal(w, s, c) == None
  }

  function Step(w: World, s: State, c: Command): State {
    if Accepted(w, s, c) then Effect(w, s, c) else s
  }

  datatype Event = Event(world: World, command: Command)

  function Run(s: State, events: seq<Event>): State
    decreases events
  {
    if events == [] then s
    else Run(Step(events[0].world, s, events[0].command), events[1..])
  }
}
