# A model of the faculty leave, calendar and backup services

These Dafny files model the server-side logic of a college administration
system and prove what it promises: the Day Order calendar, teacher leaves with
substitutes and credits, staff leave balances, full backup and restore, announcement
conversations, and two scheduling loops. Tables are maps and sequences, dates are
integers counting days, an HTTP error is a refusal that leaves the state as it was,
and everything an operation merely reads (the clock, the timetable, the
settings, the caller's data) is a parameter.

Code that updates state in place is modelled by classes and loops, each proved equal
to a function of the old state; the theorems are then about that function over
all inputs and all runs.

## What is proved, part by part

**Day Order calendar** (`DayOrder`, `BulkMark`, `Rotation`, `CalendarRuns`, `Calendars`). `Recompute`
is one left-to-right pass over the calendar; a calendar is sequenced when that pass
changes nothing. From any calendar, marking a date non-working or deleting it leaves a sequenced calendar exactly
when the rows before that date were sequenced. For a working day the
code does not do what `day_order_service.py:17-21` and `:192-195` describe: the walk
looks its predecessor up strictly before the edited date (`:61`) and rewrites rows
strictly after it (`:79`), so the edited date itself is skipped. `WorkingMarkAgreesIff`,
`DerivedMarkAgreesIff` and `PinAgreesIff` say exactly when the result is right all the
same, `DerivedMarkRepeatsOrder` shows what happens otherwise (the next day repeats the
edited day's order), `InclusiveWalkIsFullRecompute` shows that a lookup
including the edited date is always right, and `RunSequencedIff` says exactly which runs of edits
from the empty calendar leave it right.

**Teacher leaves, substitutes and credits** (`Leaves`, `LeaveLaws`, `LeaveTheorems`,
`LeaveChecks`, `LeaveRules`, `Holidays`, `LeaveServices`). Thirteen operations as steps of one machine, with their
refusals in the order the code checks them; the autonomous pass is part of the submissions and of the
approval, as in the code, and the server's local clock, which times a teacher's own cancellation, is kept apart
from the institution's. Every run keeps the laws of `Inv`: covers only on approved leaves and never
by the leaver, no double cover, no double leave, changes tagged with a leave equal to who covers
it right now, cached balance equal to the ledger sum, leave changes zero-sum. `LeaveRules` says exactly, for any request,
which leaves it adds, when an assignment appears, what becomes of one, and what each ledger row means.

Three promises hold only with exceptions, each stated as an exact condition. After the cut-off an assignment
changes if and only if an administrator cancels, the teacher clears all assignments
(`teacher_substitution_service.py:255-282` checks neither cut-off nor lock), or the teacher cancels while the server's
local clock still allows it; with both clocks in step the third case is impossible. The comment at
`models/leave.py:82-88` says that a lock never binds an administrator; the code refuses to override or undo a locked
assignment, and the model follows the code. `leave_service.py:29-32` says that holidays never generate leaves,
assignments or credit changes; no leave and no assignment appears on one, but an override of an existing one still names
a new substitute and moves credits (`HolidayCoverIffOverride`, `HolidayLedgerIff`), and
`OverrideMovesCreditOnHoliday` is a run from empty tables that does so. The governance desk writes assignments without
credits; a database trigger refuses an assignment of the leaver (`database/schema.sql:300-321`), and every other one breaks
the laws unless it names the present substitute (`GovernanceKeepsLawsIff`). In autonomous mode a leave filed for a past
date is covered by its own submission, after its cut-off (`FiledCoverAppearsIff`, `PastLeaveIsCovered`).

**Concurrency** (`RowLocks`, `StaleReads`, `StaleLaws`, `StaleFilings`, `StaleStaff`). Interleaved transactions that keep a
row lock until they end are serial in commit order; no credit change is lost and at most one decision on a leave commits.
Everything else reads without a lock and writes later. For each such write there is an exact condition, on what is stored
when it is made, for keeping the laws: assigning, overriding, undoing and cancelling (`StaleWriteKeepsLedgerIff` for the
ledger, `StaleWriteKeepsLawsIff` for every law), submissions (`FilingKeepsLawsIff`) and the staff requests
(`StaleStaffWriteIff`). What fails is shown in every state where both requests are accepted: two undos of one assignment
both give the credits back, an assignment read before a cancellation covers a cancelled leave, one substitute is booked twice
for a lesson, one lesson gets two leaves, two staff leaves overlap, and two approvals of a staff leave book its days
twice while the balance goes down once.

**Staff leave ledger** (`StaffLeaves`, `StaffLaws`, `StaffTheorems`, `StaffRules`, `StaffServices`). Interval
bookings stay disjoint, every ledger row records the balance it left, and the balance accounts for all
changes up to rounding. An adjustment carries any label its author types (`schemas/staff_leave.py:72`), the
reserved ones included. Two findings: the summary's "leaves taken" never goes down when a leave is
cancelled and counts adjustments labelled as leave by hand (`TotalTakenCountsRefunds`,
`HandLabelShowsLeave`), and a stored quota of zero is read as twelve (`BalanceFollowsQuota`).

**Backup and restore** (`Backup`, `BackupTheorems`, `RestoreAudit`, `Outsiders`, `BackupServices`). For any schema and any table order
that deletes children first, a restore succeeds exactly when the snapshot repeats no id, holds no dangling link, and its
links within one table point to the same or an earlier row; then every listed table equals the snapshot. The application's own lists and
foreign keys satisfy the premises. Tables outside the lists are not restored: a row
that cascades from a listed table goes, nullable links into listed tables go, everything else stays
(`RestoreLeavesSurvivors`), and `RoundTripIff` says exactly when nothing is lost. The audit rows are inserted like any
other row, so a restore that removes the acting user's account replaces the tables and is then reported as a
failure, without its audit row (`RestoreOutcomes`, `ReplacedButReportedFailed`).

**Conversations** (`Threads`, `Conversations`, `Boards`), **extended leaves** (`LeaveBlocks`),
**reports** (`Reports`) and the **timetable filler** (`TimetableFiller`) are loops over rows,
each proved against what its result means.

## Model

| member | source | states |
|---|---|---|
| DayOrder.MarkBlockedIsFullRecompute | backend/app/services/day_order_service.py:67-123 | On a sequenced calendar, marking any date non-working with the incremental walk gives exactly the full recompute of the edited calendar. |
| DayOrder.DeleteIsFullRecompute | backend/app/services/day_order_service.py:222-228 | Deleting any date gives exactly the full recompute of the calendar without it. |
| DayOrder.InclusiveWalkIsFullRecompute | backend/app/services/day_order_service.py:58-93 | With a predecessor lookup that includes the edited date, marking a working day is the full recompute as well, which is what the module's documentation describes. |
| DayOrder.WorkingMarkAgreesIff | backend/app/services/day_order_service.py:58-93 | For a working day the walk as written agrees with the full recompute if and only if no automatic working day comes next, or the edited order continues as the predecessor's does. |
| DayOrder.DerivedMarkRepeatsOrder | backend/app/services/day_order_service.py:124-131 | When an automatic working day comes next, marking a working day without an order (or clearing an override) leaves two consecutive working days with the same order. |
| DayOrder.DerivedMarkAgreesIff | backend/app/services/day_order_service.py:213-219 | A derived mark or a cleared override is right if and only if no automatic working day comes next or there is only one order. |
| DayOrder.PinAgreesIff | backend/app/services/day_order_service.py:191-210 | A skip or a reassignment is right if and only if no automatic working day comes next or the pinned order equals the predecessor's. |
| DayOrder.MarkKeepsOtherRows | backend/app/services/day_order_service.py:84-91 | Marking a date leaves every earlier row and every pinned or non-working row elsewhere as it was; later rows keep date, kind and pin. |
| DayOrder.RecomputeTwice | backend/app/services/day_order_service.py:84-91 | Recomputing a recomputed calendar changes nothing. |
| CalendarRuns.BlockedMarkRepairs | backend/app/services/day_order_service.py:67-123 | From any calendar, marking a date non-working leaves a sequenced calendar if and only if the rows before that date were sequenced. |
| CalendarRuns.DeletionRepairs | backend/app/services/day_order_service.py:222-228 | The same for deleting a date. |
| CalendarRuns.WorkingMarkRepairsIff | backend/app/services/day_order_service.py:124-131 | A working mark does so if and only if, besides, its order fits there and the next working day is absent, pinned or continues alike. |
| CalendarRuns.RunSequencedIff | backend/app/services/day_order_service.py:67-228 | After any run of marks and deletions from the empty calendar, the rows before a date are sequenced if and only if, read backwards, each edit before it fitted and the rows before that edit were. |
| CalendarRuns.FittingRunIsSequenced | backend/app/services/day_order_service.py:67-228 | A run whose working marks all fit when made leaves the whole calendar sequenced. |
| CalendarRuns.PinnedDayStays | backend/app/services/day_order_service.py:84-91 | From any calendar, a pinned day stays as it is over any number of edits of other dates. |
| CalendarRuns.ExplicitOrderStays | backend/app/services/day_order_service.py:127 | An explicit order given without a flag is what its date carries after any number of edits of other dates. |
| BulkMark.MarkAllIsFullRecompute | backend/app/services/day_order_service.py:169-188 | Marking any list of dates one after another equals one recompute with all of them blocked, and stays sequenced. |
| BulkMark.MarkAllReadsOnlyTheDates | backend/app/services/day_order_service.py:183-188 | The order, repetition and grouping of the marked dates do not matter, only which dates they are. |
| BulkMark.MarkAllTwice | backend/app/services/day_order_service.py:183-188 | Bulk marking is idempotent. |
| BulkMark.BulkRangeRows | backend/app/services/day_order_service.py:169-188 | A bulk range gives the full recompute of any calendar that has a blocked row on every date of the range and the old rows elsewhere. |
| Rotation.BulkMarkLayout | backend/app/services/day_order_service.py:169-188 | Earlier rows stay, the range is blocked day by day, and the rotation continues after it from the last working day before it. |
| Rotation.BulkMarkShift | backend/app/services/day_order_service.py:67-93 | If the range removed k automatic working days and no override, every later automatic day up to the next override moves from o to ((o - 1 - k) mod max) + 1. |
| Rotation.StretchOrder | backend/app/services/day_order_service.py:43-44 | The j-th automatic working day after a base order b has order ((b - 1 + j) mod max) + 1. |
| Rotation.StretchIsBalanced | backend/app/services/day_order_service.py:84-91 | n working days without overrides give each order floor(n / max) or ceil(n / max) days. |
| Calendars.MarkKeepsShape | backend/app/models/day_order_calendar.py:44-86 | Marking keeps one row per date and orders exactly on working days. |
| Calendars.MarkedDayReadsBack | backend/app/services/day_order_service.py:124-150 | The row a mark leaves at its date: an explicit order as given, pinned unless the caller says otherwise; without one, unpinned and one step on from the last working day before the date, or 1; other days carry no order. |
| Calendars.DeleteKeepsShape | backend/app/services/day_order_service.py:222-228 | Deleting keeps the table well formed and the date is no longer found. |
| Calendars.Calendar.ResequenceFollowing | backend/app/services/day_order_service.py:67-93 | The in-place loop rewrites exactly the rows the walk's specification rewrites. |
| Calendars.Calendar.MarkDay | backend/app/services/day_order_service.py:96-166 | The in-place edit is the specified mark, returns the stored row (stated order by order and flag by flag), and keeps a sequenced calendar sequenced for non-working days. |
| Calendars.Calendar.BulkMarkRange | backend/app/services/day_order_service.py:169-188 | Working is refused; otherwise the loop marks every date of the range, returns one blocked row for each, and keeps a sequenced calendar sequenced. |
| Calendars.Calendar.ReassignDayOrder | backend/app/services/day_order_service.py:203-210 | Refused exactly on an existing non-working day, which stays untouched; otherwise the date is pinned to the order. |
| Calendars.Calendar.SkipDayOrder | backend/app/services/day_order_service.py:191-200 | Same contract as a reassignment, with the order skipped to. |
| Calendars.Calendar.ClearOverride | backend/app/services/day_order_service.py:213-219 | Refused without an entry or on a non-working day; otherwise the date is marked with a derived order and no pin. |
| Calendars.Calendar.DeleteDay | backend/app/services/day_order_service.py:222-228 | Refused without an entry; otherwise the row is gone and a sequenced calendar stays sequenced. |
| Reports.DayOrderReport | backend/app/services/report_service.py:33-52 | The report holds exactly the orders the range uses, ascending, each with its dates in calendar order and their number. |
| Reports.ReportReads | backend/app/services/report_service.py:33-52 | Each entry lists, ascending and with their number, exactly the dates from first to last that are working days of its order. |
| Reports.ReportPartitions | backend/app/services/report_service.py:45-52 | Each working day of the range stands in exactly one group, the one of its own order. |
| Reports.ReportIsBalanced | backend/app/services/report_service.py:33-52 | Over a range of n working days without overrides every order has floor(n / max) or ceil(n / max) occurrences; an order missing from the report means n < max. |
| Reports.BulkLoadIsDailyLoad | backend/app/services/credit_service.py:98-131 | Counting each slot once per working day of its order equals walking the calendar date by date. |
| Reports.LoadCountsLessons | backend/app/services/credit_service.py:98-131 | The bulk count of a teacher is the number of pairs of a working day and a slot of that teacher on the day's order. |
| Reports.FacultyWorkload | backend/app/services/credit_service.py:98-144 | For every calendar, timetable and list of teachers, the loops report each teacher's date-by-date class count, which is that number of pairs. |
| LeaveLaws.StepKeepsInv | backend/app/services/leave_service.py:417-854 | Every operation, refused or not, keeps all the laws; only a manual adjustment changes a teacher's manual sum, by its amount. |
| LeaveLaws.RunKeepsInv | database/README.md:57 | In every state reached by any run the cached balances equal the ledger sums and the assignment and duplicate laws hold. |
| LeaveLaws.AddLeavesKeepsInv | backend/app/services/leave_service.py:162-200 | A batch whose check reads only the rows stored before it adds no duplicate leave, because its period list is ascending without repetition. |
| LeaveLaws.AddCoverKeepsInv | backend/app/services/substitution_service.py:937-977 | A new assignment moves one credit from leaver to substitute and keeps every law, given the conflict checks made at assignment. |
| LeaveLaws.ReplaceCoverKeepsInv | backend/app/services/leave_service.py:615-634 | An override moves one credit from the old to the new substitute and keeps every law. |
| LeaveLaws.RemoveCoverKeepsInv | backend/app/services/leave_service.py:713-735 | Dropping an assignment moves the credit back and keeps every law. |
| LeaveTheorems.BalanceFormula | backend/app/services/credit_service.py:11-44 | A teacher's balance is the manual changes, plus the number of classes covered now, minus the number of own leaves covered now. |
| LeaveTheorems.ReachableBalance | backend/app/services/credit_service.py:11-44 | After any run from empty tables, the balance is the adjustments of the run plus current covers minus own covered leaves. |
| LeaveTheorems.RunRestoresBalances | backend/app/services/leave_service.py:657-692 | Any run that ends with the same covers ends with the same balances, up to manual adjustments: assigning, overriding and undoing leave nothing behind. |
| LeaveTheorems.RunPersists | backend/app/services/leave_service.py:280-345 | No leave disappears or changes its lesson, and a rejected or cancelled leave keeps its status for ever. |
| LeaveTheorems.ExpiredCoverChangesIff | backend/app/core/timezone.py:36-52 | Past 17:00 of its date an assignment changes in a step if and only if an administrator cancels the leave, its teacher clears all assignments where that is allowed, or its teacher cancels while the server's local clock allows it. |
| LeaveTheorems.OneClockLeavesTwoWays | backend/app/services/leave_service.py:754-766 | With the local clock in step with the institution's, only the first two remain. |
| LeaveTheorems.ExpiredCoverAppearsIff | backend/app/services/leave_service.py:280-307 | A stored uncovered leave gets an assignment past its cut-off if and only if it is just being approved and the autonomous pass finds its pick free for the lesson and substituting for nobody that day. |
| LeaveTheorems.FiledCoverAppearsIff | backend/app/services/leave_service.py:65-84 | A leave gets an assignment in the very request that files it, before or after its cut-off, if and only if the autonomous pass, when it reaches that leave, finds its pick free for the lesson and substituting for nobody that day. |
| LeaveTheorems.PastLeaveIsCovered | backend/app/services/substitution_service.py:980-1055 | A run from empty tables in which a leave filed the day after its date is covered at once. |
| LeaveTheorems.ExpiredCoverIsFrozen | backend/app/core/timezone.py:36-52 | Over any run starting after the cut-off, with an institution clock that does not run backwards, the assignment ends as it was if and only if none of those requests was made and accepted on the way. |
| LeaveTheorems.ExpiredStaysUncovered | backend/app/services/leave_service.py:429-433 | A decided leave without an assignment past its cut-off is never covered again in any run. |
| LeaveTheorems.ClearingIgnoresCutoffAndLock | backend/app/services/teacher_substitution_service.py:255-282 | Clearing removes every cover of the teacher's leaves, past the cut-off and locked ones too. |
| LeaveChecks.NewCoverIsFree | backend/app/services/leave_service.py:452-482 | Whatever request names a new substitute, in the resulting state that teacher is active, not the leaver, not teaching, not on approved leave and covering nothing else in that period. |
| LeaveChecks.NewCoverIsTimely | backend/app/services/leave_service.py:484-511 | Outside the autonomous pass the cut-off is open and the seven-day limit kept or overridden. |
| LeaveChecks.LockedCoverChangesIff | backend/app/services/leave_service.py:540-541 | A locked assignment changes in a step if and only if a cancellation or clearing is accepted or the lock is opened before the cut-off. |
| LeaveChecks.LockHolds | backend/app/services/leave_service.py:670-671 | Over any run without such an accepted request a locked assignment stays as it is. |
| Holidays.HolidayGetsNoLeave | backend/app/services/leave_service.py:28-33 | On a date that is not a working day no leave is added and none becomes approved. |
| Holidays.HolidayCoverIffOverride | backend/app/services/leave_service.py:438-440 | A leave on such a date gets a new substitute if and only if an override of it is accepted. |
| Holidays.HolidayLedgerIff | backend/app/services/leave_service.py:29-32 | A ledger row for a leave on such a date is written if and only if an override of it is accepted or an undo, cancellation or clearing gives up its assignment. |
| Holidays.OverrideMovesCreditOnHoliday | backend/app/services/leave_service.py:522-654 | A run from empty tables in which an override moves a credit on a date that became a holiday. |
| LeaveChecks.StatusMovesIff | backend/app/services/leave_service.py:280-345 | Whatever the step, a stored leave moves to another status if and only if it is approved on a working day or rejected while pending, or cancelled while open: by an administrator, or by its teacher before 10:00 of its date. |
| LeaveRules.FilingAcceptedIff | backend/app/services/leave_service.py:112-185 | A submission is accepted if and only if its date is a working day, it asks for some period (on a whole day, one the timetable gives the teacher on that Day Order), and the teacher has no open leave for any of them. |
| LeaveRules.FilingStores | backend/app/services/leave_service.py:135-200 | It keeps every stored leave and adds exactly one leave per period asked for, with that teacher, date and Day Order, approved or pending by the mode. |
| LeaveRules.AssignmentAppearsIff | backend/app/services/leave_service.py:417-519 | Exactly when a stored leave gets an assignment, whatever the request: named before 17:00 on a working day with a free substitute below the limit of the seven days up to the date (or the limit waived), or picked by the autonomous pass of its approval; and what is stored. |
| LeaveRules.AssignmentBecomes | backend/app/services/leave_service.py:522-707 | Exactly what any request makes of an existing assignment: given up, renamed, locked or opened, or left alone. |
| LeaveRules.RequestAcceptedIff | backend/app/services/leave_service.py:280-854 | Exactly when each request about a stored leave is accepted, also where it changes nothing. |
| LeaveRules.RefusalIsTrue | backend/app/services/leave_service.py:36-511 | Whatever error a refusal reports, what it says of the leave, the substitute, the clock, the lock or the limit is so. |
| LeaveRules.EveryRowIsExplained | backend/app/services/leave_service.py:713-735 | No request rewrites the ledger, and the category, sign and leave of each row it appends say what happened: penalty, class, correction or one manual credit. |
| LeaveTheorems.GovernanceKeepsLawsIff | backend/app/services/governance_service.py:528-543 | With the trigger that refuses the leaver, a governance assignment keeps all the laws, and already the ledger law alone, if and only if it is refused, for naming the leaver or no leave, or names the substitute who covers the leave anyway; it writes that one row, unlocked, and nothing else. |
| LeaveServices.LeaveService.ApplyCreditChange | backend/app/services/credit_service.py:11-44 | The balance row is created at zero if missing, then changed together with one ledger row. |
| LeaveServices.LeaveService.CreateAssignment | backend/app/services/substitution_service.py:937-977 | One unlocked assignment, -1 to the leaver, +1 to the substitute, both tagged with the leave. |
| LeaveServices.LeaveService.ReverseAssignment | backend/app/services/leave_service.py:713-735 | The assignment is deleted and both credits are given back, tagged with the leave. |
| LeaveServices.LeaveService.SubmitLeave | backend/app/services/leave_service.py:28-109 | The step of the machine and its refusal, with the autonomous pass, keeping every law. |
| LeaveServices.LeaveService.AddBatch | backend/app/services/leave_service.py:135-200 | All chosen periods are stored in order or, at the first duplicate, none; on success exactly one leave per period asked for, of the whole day or of the list. |
| LeaveServices.LeaveService.SubmitLeaveBatch | backend/app/services/leave_service.py:112-260 | The step of the machine and its refusal, keeping every law; on success exactly one leave per period asked for. |
| LeaveServices.LeaveService.SubmitLeaveByAdmin | backend/app/services/leave_service.py:890-1013 | The same, with leaves approved at once. |
| LeaveServices.LeaveService.ApproveLeave | backend/app/services/leave_service.py:280-315 | Only a pending leave on a working day becomes approved, and the autonomous pass follows. |
| LeaveServices.LeaveService.RejectLeave | backend/app/services/leave_service.py:327-345 | Only a pending leave becomes rejected. |
| LeaveServices.LeaveService.AutoProcess | backend/app/services/substitution_service.py:980-1055 | In autonomous mode the pass assigns its pick if that teacher is active, free for the lesson and not substituting that day; otherwise nothing changes. |
| LeaveServices.LeaveService.AutoProcessBatch | backend/app/services/leave_service.py:204-219 | The pass runs over the leaves of a batch one after another. |
| LeaveServices.LeaveService.AssignSubstitute | backend/app/services/leave_service.py:417-519 | The step of the machine with its refusals in order, keeping every law. |
| LeaveServices.LeaveService.OverrideSubstitute | backend/app/services/leave_service.py:522-654 | The step of the machine and its refusals; the lock flag is kept. |
| LeaveServices.LeaveService.UndoAssignment | backend/app/services/leave_service.py:657-692 | The assignment is removed and both credits given back, unless expired, missing or locked. |
| LeaveServices.LeaveService.SetAssignmentLock | backend/app/services/leave_service.py:695-707 | Only the lock flag changes, and only before the cut-off. |
| LeaveServices.LeaveService.CancelLeaveByTeacher | backend/app/services/leave_service.py:738-807 | Own open leave, in the future or today before 10:00 by the server's local clock: cancelled and its assignment reversed. |
| LeaveServices.LeaveService.CancelLeaveByAdmin | backend/app/services/leave_service.py:810-854 | Any open leave: cancelled and its assignment reversed. |
| LeaveServices.LeaveService.TeacherClearAssignments | backend/app/services/teacher_substitution_service.py:255-282 | The loop reverses exactly the assignments of the teacher's approved leaves. |
| LeaveServices.LeaveService.AdjustCredits | backend/app/routes/credits.py:14-35 | A change tagged with no leave, refused unless it is one credit up or down, as the ledger table demands. |
| RowLocks.InterleavingIsSerial | backend/app/services/credit_service.py:24-44 | Under every interleaving of transactions holding their row locks to the end, the committed rows are those of running the committed transactions one after another in commit order. |
| RowLocks.NoLostCredit | backend/app/services/credit_service.py:24-44 | The final balance is the initial one plus every committed change. |
| RowLocks.AtMostOneDecision | backend/app/services/leave_service.py:280-334 | Of any concurrent approvals and rejections of one leave at most one commits, and only if the leave was pending. |
| RowLocks.UncontendedCommits | backend/app/services/credit_service.py:24-44 | In every reachable state a new transaction that meets no lock of others commits all its operations with their effect on the committed rows, or, if one fails, leaves nothing; its locks are given back and nobody else is disturbed. |
| RowLocks.RollbackLeavesNothing | backend/app/services/credit_service.py:24-44 | A rollback leaves committed rows and other transactions as they were and gives the locks back. |
| RowLocks.WaiterSeesCommit | backend/app/services/credit_service.py:24-44 | A transaction that needs a locked row waits, and goes on from what the holder committed. |
| StaleReads.StaleWriteKeepsLedgerIff | backend/app/services/leave_service.py:664-735 | A write computed from an unlocked read keeps the ledger equal to who covers whom if and only if it is an assignment, found no assignment, is rolled back, or finds the very assignment it had read. |
| StaleReads.TwoUndosReverseTwice | backend/app/services/leave_service.py:657-692 | Two undos that read the same assignment both reverse it: one credit too many for the leaver, one too few for the substitute. |
| StaleReads.HarmlessInterleavingKeepsLedger | backend/app/services/leave_service.py:876-880 | Under any interleaving of such requests whose writes are all harmless for it the ledger stays equal to who covers whom. |
| StaleReads.NextCommitDecides | backend/app/services/leave_service.py:876-880 | After writes harmless for the ledger only, the next commit keeps it so if and only if it is harmless for it too. |
| StaleLaws.StaleWriteKeepsLawsIff | backend/app/services/leave_service.py:417-519 | Such a write keeps every law if and only if, besides, an assignment finds its leave approved or already covered, a cancellation meets no assignment but the one it read, and the named substitute was not taken for that lesson meanwhile; each law fails exactly when its own part does. |
| StaleLaws.AssignmentAfterCancellation | backend/app/services/leave_service.py:810-854 | An assignment read before an administrator cancels the leave and written after covers a cancelled leave, in every state. |
| StaleLaws.TwoAssignmentsBookTwice | backend/app/services/leave_service.py:468-482 | Two assignments of one teacher to different leaves of a lesson, both read before either is written, book that teacher twice, in every state. |
| StaleLaws.HarmlessInterleavingKeepsLaws | backend/app/services/leave_service.py:417-854 | Under any interleaving of such requests whose writes are all harmless every law holds at the end. |
| StaleLaws.NextCommitKeepsLawsIff | backend/app/services/leave_service.py:876-880 | After harmless writes only, the next commit keeps every law if and only if it is harmless too. |
| StaleFilings.FilingKeepsLawsIff | backend/app/services/leave_service.py:36-50 | Whatever was stored since its duplicate check, a submission keeps every law, and already the one against double leaves, if and only if none of its periods has an active leave of that teacher when it writes. |
| StaleFilings.FilingsKeepLawsIff | backend/app/services/leave_service.py:170-198 | Submissions written one after another, whatever each had read, keep the laws if and only if each was free of clashes when written. |
| StaleFilings.TwoSubmissionsStoreTwice | backend/app/services/leave_service.py:36-84 | Two accepted submissions for one lesson, both checked before either is stored, leave two active leaves for it, in every state. |
| StaleStaff.FreshWriteIsStep | backend/app/services/staff_leave_service.py:47-437 | An accepted staff request, its account open, whose read is still current writes exactly what its operation does. |
| StaleStaff.StaleStaffWriteIff | backend/app/services/staff_leave_service.py:63-158 | Whatever committed since its read, a staff request keeps bookings disjoint and the books in order if and only if nothing stored overlaps the leave it makes active, the leave status it replaces still allows it, and the balance read is as good as the current one. |
| StaleStaff.BalanceFitsIff | backend/app/services/staff_leave_service.py:142-144 | For a change of one decimal the balance read is as good as the current one exactly when it is the current one. |
| StaleStaff.TwoApprovalsDeductTwice | backend/app/services/staff_leave_service.py:120-158 | Two approvals that both find the leave pending book its days twice while the balance goes down once, in every state. |
| StaleStaff.TwoApplicationsOverlap | backend/app/services/staff_leave_service.py:63-74 | Two applications for the same days that both pass the check are both stored, in every state. |
| StaleStaff.HarmlessWritesKeepInv | backend/app/services/staff_leave_service.py:47-437 | Writes harmless one after another keep every law, whatever each had read, and the next one does if and only if it is harmless too. |
| StaffLeaves.RoundingIsClose | backend/app/services/staff_leave_service.py:404-408 | Rounding moves a number by at most 0.05, yields one decimal and keeps a one-decimal number. |
| StaffRules.RoundingIsNearest | backend/app/services/staff_leave_service.py:404-408 | Rounding gives the nearest number of one decimal and, of two equally near, the one with the even last digit. |
| StaffRules.ApplyAcceptedIff | backend/app/services/staff_leave_service.py:47-74 | An application is accepted if and only if the member exists, the dates are in order, a half day is one date, and no open leave of the member shares a date with it. |
| StaffRules.ApplyStores | backend/app/services/staff_leave_service.py:61-100 | It adds one pending leave of half a day or of as many days as it has dates, and nothing else changes. |
| StaffRules.StatusMovesIff | backend/app/services/staff_leave_service.py:120-295 | A stored staff leave moves to another status if and only if it is approved or rejected while pending or cancelled while open; nothing else of it ever changes. |
| StaffRules.RefusedIff | backend/app/services/staff_leave_service.py:47-260 | Every reported error is true of the request, and every request of which one is true is refused. |
| StaffRules.LeaveDaysAre | backend/app/services/staff_leave_service.py:61 | In every reachable state a leave counts half a day or the number of dates it covers. |
| StaffRules.ApprovedDaysAreDates | backend/app/services/staff_leave_service.py:142-158 | The approved days are the number of dates of approved full-day leaves plus half a day per approved half day. |
| StaffRules.BalanceCostsDates | backend/app/services/staff_leave_service.py:26-44 | In every reachable state the balance is 12 plus adjustments and quota changes, minus one per date of an approved full-day leave and a half per approved half day, up to 0.05 per adjustment; exactly with one-decimal adjustments. |
| StaffRules.FiveDaysCostFive | backend/app/services/staff_leave_service.py:142-158 | Five days approved in one leave leave seven of the twelve. |
| StaffLaws.StepKeepsInv | backend/app/services/staff_leave_service.py:47-437 | Every operation keeps bookings disjoint, ledger rows chained through their recorded balances, the last one equal to the cached balance, and each leave's rows equal to what its status says. |
| StaffLaws.RunKeepsInv | backend/app/services/staff_leave_service.py:47-437 | The same over any run. |
| StaffLaws.DriftIsBounded | backend/app/services/staff_leave_service.py:298-342 | The last recorded balance differs from the sum of changes by at most 0.05 per adjustment, because only adjustments record an unrounded change. |
| StaffLaws.ExactWithoutDrift | backend/app/services/staff_leave_service.py:298-342 | With one-decimal adjustments it equals the sum exactly. |
| StaffTheorems.BalanceAccountsForLeaves | backend/app/services/staff_leave_service.py:142-158 | The balance is 12 plus adjustments plus quota changes minus the days approved now, up to the same slack, exactly with one-decimal adjustments. |
| StaffTheorems.TotalTakenCountsRefunds | backend/app/services/staff_leave_service.py:356 | "Leaves taken" is the days approved now, plus everything ever refunded, plus every negative adjustment labelled as a leave deduction; it is the approved days if and only if there is no row of the last two kinds. |
| StaffTheorems.HandLabelShowsLeave | backend/app/services/staff_leave_service.py:315-319 | An adjustment of -2 labelled as a leave deduction shows two days taken by someone without any leave. |
| StaffTheorems.ShownTakenIff | backend/app/services/staff_leave_service.py:383 | The rounded figure shown is the approved days if and only if what is counted besides them is below 0.05, or is 0.05 with a tie that falls back. |
| StaffTheorems.TotalEarnedIsGains | backend/app/services/staff_leave_service.py:357 | "Credits earned" is all refunds, all quota rises and all positive adjustments not labelled as an opening balance. |
| StaffTheorems.SummaryShows | backend/app/services/staff_leave_service.py:345-386 | What the ledger view shows as taken and earned, in terms of approved days and ledger rows, rounded to one decimal. |
| StaffTheorems.BalanceFollowsQuota | backend/app/services/staff_leave_service.py:402-419 | If quota updates adjust the balance, the balance is quota plus adjustments minus approved days if and only if no update found a stored quota of zero; each such update loses 12. |
| StaffTheorems.WindowHoldsAtMostItsDays | backend/app/services/staff_leave_service.py:63-74 | In every reachable state one member's open leaves inside a window of N days total at most N days. |
| StaffServices.StaffService.GetOrCreateAccount | backend/app/services/staff_leave_service.py:26-44 | A missing account is opened at 12 with its opening row. |
| StaffServices.StaffService.ApplyLeave | backend/app/services/staff_leave_service.py:47-117 | The step with its range, half-day and overlap refusals, keeping every law; the stored leave counts half a day or its dates. |
| StaffServices.StaffService.ApproveLeave | backend/app/services/staff_leave_service.py:120-196 | A pending leave is approved and its days deducted. |
| StaffServices.StaffService.RejectLeave | backend/app/services/staff_leave_service.py:199-243 | Only a pending leave, and no credit moves. |
| StaffServices.StaffService.CancelStaffLeave | backend/app/services/staff_leave_service.py:246-295 | Cancelling refunds the days exactly when the leave was approved. |
| StaffServices.StaffService.AdjustCredit | backend/app/services/staff_leave_service.py:298-342 | The rounded new balance is stored with the change and the label as given. |
| StaffServices.StaffService.UpdateQuota | backend/app/services/staff_leave_service.py:389-437 | The quota is stored and, if asked and different, the rounded difference is booked. |
| StaffServices.StaffService.LedgerTotals | backend/app/services/staff_leave_service.py:356-357 | The two loops add up the rows the summary counts by sign and label. |
| StaffServices.StaffService.ViewLedger | backend/app/services/staff_leave_service.py:345-386 | The account is opened if need be and the summary shown is that of the tables. |
| BackupTheorems.RestoreSucceedsIff | backend/app/services/backup_service.py:728-830 | For any schema, children-first order, database and snapshot: no deletion is refused, and the restore succeeds if and only if the snapshot repeats no id, has no dangling link, and its self-links point to the same or an earlier row. |
| BackupTheorems.RestoreIsComplete | backend/app/services/backup_service.py:762-817 | A restore that succeeds leaves every listed table equal to the snapshot, whatever database and snapshot held. |
| BackupTheorems.RoundTripIff | backend/app/services/backup_service.py:66-93 | Restoring a backup of the same database gives it back if and only if no row of an unlisted table points into a listed one. |
| Outsiders.DeletionLeavesSurvivors | backend/app/services/backup_service.py:730-736 | Deleting a table is refused if and only if a row elsewhere holds a restricting link into it; otherwise every other table keeps the rows no cascading link makes follow, in order, without their nullable links into it. |
| Outsiders.RestoreLeavesSurvivors | backend/app/services/backup_service.py:730-736 | A restore leaves of an unlisted table exactly its rows with no cascading link into a listed one, in order, with id and content and every link but the nullable ones into listed tables. |
| Outsiders.SurvivesIff | backend/app/services/backup_service.py:730-736 | A row survives if and only if none of its links cascades from a listed table. |
| BackupTheorems.RestoreIsConsistent | backend/app/services/backup_service.py:762-817 | Whatever the snapshot holds, a restore that succeeds leaves no dangling link and no repeated id in the listed tables. |
| RestoreAudit.ReplacedIff | backend/app/services/backup_service.py:708-850 | The request replaces the tables exactly when its first audit row is accepted and the snapshot can be loaded. |
| RestoreAudit.RestoreOperationIsConsistent | backend/app/services/backup_service.py:708-850 | The whole request, wherever it fails, keeps consistent tables consistent. |
| RestoreAudit.RestoringABackupBringsItBack | backend/app/services/backup_service.py:702-850 | For any schema, a request that restores a backup of consistent tables changes nothing if its first audit row is refused; otherwise every listed table is back, but for one audit row. |
| RestoreAudit.AuditRowIs | backend/app/services/admin_service.py:17-43 | An audit row carries its actor and the department the actor has in the tables it is written to, and no link without an actor. |
| BackupServices.AuditAcceptedIff | backend/app/services/admin_service.py:17-43 | On consistent tables an audit row is accepted if and only if its id is new and its actor, if any, is among the users. |
| BackupServices.RestoreOutcomes | backend/app/services/backup_service.py:708-850 | What each outcome leaves; a request that replaced the tables is reported as a success, with its audit row, exactly when its actor is among the restored users and the row's id is new there. |
| BackupServices.OutcomeIs | backend/app/services/backup_service.py:708-850 | The report of a request, for any snapshot, read off the tables and the snapshot beforehand: no first audit row, not loadable, success, or replaced but reported as a failure. |
| BackupServices.OutsidersAfterRestore | backend/app/services/backup_service.py:708-850 | A request that replaces the tables leaves of every table outside the lists its survivors; any other request leaves it as it was. |
| BackupServices.AnnouncementLosesAuthor | backend/app/models/announcement.py:54 | Restoring a backup of one user and the user's announcement keeps the announcement and loses its author. |
| BackupServices.ReplacedButReportedFailed | backend/app/services/backup_service.py:837-850 | A user who restores a backup older than the own account gets a failure although the tables were replaced. |
| BackupServices.SafetyBackupUndoesRestoreIff | backend/app/services/backup_service.py:702-850 | For tables that form a loadable snapshot, however the first request ended, restoring its safety backup brings every listed table back exactly when the second request's actor is still a user, and is reported as a success exactly when the actor is among the users brought back. |
| BackupServices.AppListsAreOrderly | backend/app/services/backup_service.py:42-93 | The two lists name the same tables, without repetition, and the delete order is children first for the application's foreign keys. |
| BackupServices.BackupService.CreateBackup | backend/app/services/backup_service.py:306-348 | The snapshot holds every listed table as it was; the audit row comes after it and may be refused. |
| BackupServices.BackupService.WipeTables | backend/app/services/backup_service.py:730-736 | The loop empties the tables in order or stops at a refused deletion; of every other table it leaves the survivors. |
| BackupServices.BackupService.InsertTable | backend/app/services/backup_service.py:764-815 | The row loop inserts all rows or stops at the first refused one. |
| BackupServices.BackupService.ReinsertTables | backend/app/services/backup_service.py:762-815 | The table loop, parents first, is the specified reinsertion. |
| BackupServices.BackupService.RestoreBackup | backend/app/services/backup_service.py:664-850 | The imperative request is the specified operation; each outcome leaves what it should in the listed tables and in the others, and once the safety backup is logged the load succeeds exactly when the snapshot is loadable, whatever it holds. |
| Conversations.CreateNodes | backend/app/services/announcement_service.py:884-929 | One fresh node per row, keyed by its id, with no replies and count zero. |
| Conversations.AssembleForest | backend/app/services/announcement_service.py:931-941 | The second pass makes the roots the messages without a listed parent and every node's replies its direct replies, both in row order, and the counts their number; walking the node objects meets every message exactly once. |
| Conversations.WalkIsFlatten | backend/app/services/announcement_service.py:931-941 | The walk over the assembled objects reads exactly the forest given by the rows' parents. |
| Threads.ForestListsEachMessageOnce | backend/app/services/announcement_service.py:931-941 | Reading the forest root by root, replies below each message, terminates and lists every message exactly once, in whatever order the rows came. |
| Boards.PostAllKeepsInv | backend/app/services/announcement_service.py:953-982 | Over any run of posts, a parent is an earlier message of the same announcement. |
| Boards.PostStores | backend/app/services/announcement_service.py:953-982 | A post is stored if and only if its announcement exists and takes messages, it has content and its parent, if any, is a message of that announcement; then it is one more row with the next id, that announcement and that parent; otherwise the error says which of these failed. |
| Boards.PostsAreStored | backend/app/services/announcement_service.py:953-982 | A run from the empty board stores exactly the posts that, read off the list of posts, should be, in order, each with its announcement and parent. |
| Boards.EveryConversationIsListedOnce | backend/app/services/announcement_service.py:834-982 | After any run of posts each conversation lists each of its messages once, and its roots are exactly the messages stored without a parent. |
| Boards.ConversationFollowsPosts | backend/app/services/announcement_service.py:931-982 | After any run of posts the replies below a message are exactly the stored posts that answered it, and the roots exactly the stored posts of the announcement that answered none. |
| LeaveBlocks.ScanBlocks | backend/app/services/governance_service.py:228-265 | The scan emits exactly the maximal runs of at least three days ending on or after today, each once, in date order, with its length and whether it is running today. |
| LeaveBlocks.RunsPartition | backend/app/services/governance_service.py:238-252 | Every date lies in exactly one maximal run. |
| TimetableFiller.CandidatesAre | backend/seed_cross_department.py:38-40 | The candidates are the teachers of other departments, or all teachers when every one belongs to the class's own. |
| TimetableFiller.SubjectIs | backend/seed_cross_department.py:42-63 | A slot gets a subject whenever one exists, of the class's department unless that has none. |
| TimetableFiller.CandidatesInOrder | backend/seed_cross_department.py:38-40 | Candidates stand in the order of the list of teachers. |
| TimetableFiller.SubjectInTurn | backend/seed_cross_department.py:59-63 | The slot added after n others takes the subject at place n, counted over and over, of those offered in list order. |
| TimetableFiller.FirstFreeIsEarliest | backend/seed_cross_department.py:53-57 | The chosen key is free with every earlier one booked; none is chosen exactly when all are booked. |
| TimetableFiller.FillTimetable | backend/seed_cross_department.py:13-102 | Each added slot is for the first cell left of its class, with the first free candidate and the first free room; nothing is added without teachers or classes. |
| TimetableFiller.AddedNeverClash | backend/seed_cross_department.py:28-90 | No added slot collides with any stored or earlier added one on teacher, class or room. |
| TimetableFiller.FillerIsMaximal | backend/seed_cross_department.py:45-100 | Every class receives at most two slots, and one that received fewer has every cell taken by itself or by all its candidates. |

## Left out

- Department scoping and role checks of every service: they only add refusals.
- Labels, notes, academic years, reasons, audit texts and notifications: no modelled value depends on them.
- LeaveServices.LeaveService.AutoProcess: whom the scoring would choose, and whether a leave was filed as an emergency, are parameters; opt-in preferences, the weekly cap by assignment time and workload thresholds only narrow that choice, and every law holds for each choice.
- LeaveTheorems.BalanceFormula: does not cover history clears, teacher deletion, retention purges, scripts that edit balances, or governance assignments, which change one of ledger and assignments without the other.
- "A substitute is not on leave and not teaching then" is checked at assignment only and is not an invariant of runs, since a later approval or timetable change does not look at cover duties.
- RowLocks.InterleavingIsSerial: models the locking database; on other databases the code takes no row lock and the theorem does not apply.
- StaleReads.StaleWriteKeepsLedgerIff: like the StaleLaws theorems, assumes that deleting a row that is gone deletes nothing, and that updating one that is gone or inserting a second assignment for a leave fails; covers interleavings of these requests, not the other commands in between.
- StaleFilings.FilingsKeepLawsIff: the autonomous pass after an automatic approval is a later read and write of its own and is not part of the stored submission.
- StaleStaff.HarmlessWritesKeepInv: accounts are opened by a transaction of their own before the read, so a write finds its account; leave types and remarks are left out.
- StaffLaws.DriftIsBounded: uses exact reals with round-half-to-even at one decimal; binary floating point is not modelled.
- StaffLeaves: the operation that wrote a ledger row is kept beside its stored label, as the laws of the books need it; what the summary counts is decided by the label alone. Column widths are not modelled.
- Employment status of staff and the account's own department guard: only refusals.
- BackupServices.BackupService.RestoreBackup: a refused statement aborts the transaction, as the production database does; JSON encoding, checksums, index files, schedules, uniqueness other than of ids, and columns that are not foreign keys are one opaque payload; ids of audit rows are parameters.
- Department-scoped backup and restore: its wipe and its snapshot select rows by different conditions, so it has no round trip to state.
- Conversations.AssembleForest: leaves out reactions, mentions, authors, deletion and permissions of messages.
- LeaveBlocks.ScanBlocks: models the scan of one teacher's dates; grouping by teacher, the query window and the final sort are left out.
- Calendars.Calendar.SkipDayOrder: skipping and reassigning differ in no modelled field.
- TimetableFiller.FillTimetable: row keys start at one, so a stored room key is never read as absent.
- The teacher self-service wrappers of assign, override, undo and lock, bulk_approve, bulk_reject, list and search endpoints, settings, occupancy, traffic counters and the frontend: they would only add easy members.
