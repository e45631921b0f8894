/**
What the laws of the leave machine give its users: balances that can be read
off the current assignments, undo without residue, closed leaves that stay
closed, and assignments that freeze at the cut-off.
*/
module LeaveTheorems {
  import opened Options
  import opened Leaves
  import opened LeaveLaws

  // ----- A balance is manual changes plus classes covered minus own covered leaves -----

  function Covering(s: State, teacher: int): set<int> {
    set id | id in s.covers && s.covers[id].substitute == teacher
  }

  function CoveredOf(s: State, teacher: int): set<int> {
    set id | id in s.covers && id in s.leaves && s.leaves[id].teacher == teacher
  }

  function TaggedBelow(ledger: seq<Tx>, teacher: int, n: nat): int {
    if n == 0 then 0 else TaggedBelow(ledger, teacher, n - 1) + Tagged(ledger, teacher, n - 1)
  }

  lemma {:induction false} TaggedBelowStep(ledger: seq<Tx>, tx: Tx, teacher: int, n: nat)
    ensures TaggedBelow(ledger + [tx], teacher, n)
         == TaggedBelow(ledger, teacher, n)
            + if tx.teacher == teacher && tx.leave.Some? && 0 <= tx.leave.value < n then tx.change else 0
  {
    if n > 0 {
      TaggedBelowStep(ledger, tx, teacher, n - 1);
      assert (ledger + [tx])[..|ledger|] == ledger;
    }
  }

  lemma {:induction false} EmptyTaggedBelow(teacher: int, n: nat)
    ensures TaggedBelow([], teacher, n) == 0
  {
    if n > 0 {
      EmptyTaggedBelow(teacher, n - 1);
    }
  }

  // A teacher's changes are the manual ones and those of each leave.
  lemma {:induction false} TotalByLeave(ledger: seq<Tx>, teacher: int, n: nat)
    requires forall k :: 0 <= k < |ledger| && ledger[k].leave.Some? ==> 0 <= ledger[k].leave.value < n
    ensures Total(ledger, teacher) == Manual(ledger, teacher) + TaggedBelow(ledger, teacher, n)
  {
    if ledger == [] {
      EmptyTaggedBelow(teacher, n);
    } else {
      var rest, tx := ledger[..|ledger| - 1], ledger[|ledger| - 1];
      assert ledger == rest + [tx];
      TotalByLeave(rest, teacher, n);
      TaggedBelowStep(rest, tx, teacher, n);
    }
  }

  function Below(ids: set<int>, n: nat): set<int> {
    set id | id in ids && id < n
  }

  lemma BelowStep(ids: set<int>, n: nat)
    ensures |Below(ids, n + 1)| == |Below(ids, n)| + if n in ids then 1 else 0
  {
    assert Below(ids, n + 1) == Below(ids, n) + (if n in ids then {n} else {});
  }

  lemma {:induction false} StakesBelow(s: State, teacher: int, n: nat)
    requires Structure(s) && LedgerLaw(s)
    ensures TaggedBelow(s.ledger, teacher, n)
         == |Below(Covering(s, teacher), n)| - |Below(CoveredOf(s, teacher), n)|
  {
    if n == 0 {
      assert Below(Covering(s, teacher), 0) == {} && Below(CoveredOf(s, teacher), 0) == {};
    } else {
      StakesBelow(s, teacher, n - 1);
      BelowStep(Covering(s, teacher), n - 1);
      BelowStep(CoveredOf(s, teacher), n - 1);
      assert Tagged(s.ledger, teacher, n - 1) == Stake(s, teacher, n - 1);
    }
  }

  /** In every state that keeps the laws, a teacher's balance is the manual
      changes, plus one per class currently covered, minus one per own leave
      currently covered. */
  lemma BalanceFormula(s: State, teacher: int)
    requires Inv(s)
    ensures Balance(s, teacher)
         == Manual(s.ledger, teacher) + |Covering(s, teacher)| - |CoveredOf(s, teacher)|
  {
    TotalByLeave(s.ledger, teacher, s.nextId);
    StakesBelow(s, teacher, s.nextId);
    assert Covering(s, teacher) == Below(Covering(s, teacher), s.nextId);
    assert CoveredOf(s, teacher) == Below(CoveredOf(s, teacher), s.nextId);
  }

  // ----- Leaves persist -----

  // A leave keeps its lesson for ever, and a closed leave stays closed.
  ghost predicate Persists(s: State, r: State) {
    && s.nextId <= r.nextId
    && (forall id :: id in s.leaves ==>
          && id in r.leaves
          && r.leaves[id] == s.leaves[id].(status := r.leaves[id].status)
          && (Closed(s.leaves[id]) ==> r.leaves[id].status == s.leaves[id].status))
  }

  // The autonomous pass writes covers, credits and ledger rows only, and only
  // for leaves in its range that had no cover.
  lemma {:induction false} PassFrame(w: World, s: State, first: int, n: nat, picks: seq<Option<Pick>>)
    ensures var r := AutoCoverAll(w, s, first, n, picks);
            && r.leaves == s.leaves && r.nextId == s.nextId
            && (forall id :: id in s.covers ==> id in r.covers && r.covers[id] == s.covers[id])
            && (forall id :: id in r.covers ==> id in s.covers || first <= id < first + n)
  {
    if n > 0 {
      PassFrame(w, s, first, n - 1, picks);
    }
  }

  // What filing leaves does to what was stored before.
  lemma FileLeavesFrame(w: World, s: State, t: int, d: int, periods: seq<int>, status: Status,
                        picks: seq<Option<Pick>>)
    requires Structure(s) && d in w.calendar
    ensures var r := FileLeaves(w, s, t, d, periods, status, picks);
            && s.nextId <= r.nextId
            && (forall id :: id in s.leaves ==> id in r.leaves && r.leaves[id] == s.leaves[id])
            && (forall id :: id in r.leaves && id !in s.leaves ==> r.leaves[id].date == d)
            && (forall id :: id in s.leaves ==> SameCover(s, r, id))
            && (forall id :: id in r.covers ==> id in s.covers || id !in s.leaves)
  {
    AddLeavesRows(s, t, d, w.calendar[d], periods, status);
    PassFrame(w, AddLeaves(s, t, d, w.calendar[d], periods, status), s.nextId, |periods|, picks);
  }

  // The same for any of the three submissions.
  lemma SubmissionFrame(w: World, s: State, c: Command)
    requires Structure(s) && Accepted(w, s, c) && (c.Submit? || c.SubmitBatch? || c.SubmitByAdmin?)
    ensures var r := Step(w, s, c);
            && s.nextId <= r.nextId
            && (forall id :: id in s.leaves ==> id in r.leaves && r.leaves[id] == s.leaves[id])
            && (forall id :: id in r.leaves && id !in s.leaves ==> r.leaves[id].date in w.calendar)
            && (forall id :: id in s.leaves ==> SameCover(s, r, id))
            && (forall id :: id in r.covers ==> id in s.covers || id !in s.leaves)
  {
    match c
    case Submit(t, d, p, pick) => FileLeavesFrame(w, s, t, d, [p], SubmittedStatus(w), [pick]);
    case SubmitBatch(t, d, whole, ps, picks) =>
      FileLeavesFrame(w, s, t, d, BatchPeriods(w, t, d, whole, ps), SubmittedStatus(w), picks);
    case SubmitByAdmin(t, d, whole, ps, picks) =>
      FileLeavesFrame(w, s, t, d, BatchPeriods(w, t, d, whole, ps), Approved, picks);
  }

  lemma StepPersists(w: World, s: State, c: Command)
    requires Inv(s)
    ensures Persists(s, Step(w, s, c))
  {
    if Accepted(w, s, c) {
      if c.Submit? || c.SubmitBatch? || c.SubmitByAdmin? {
        SubmissionFrame(w, s, c);
      } else if c.ClearByTeacher? {
        ClearBelowAddsNothing(s, c.teacher, s.nextId, 0);
        ClearBelowKeepsId(s, c.teacher, s.nextId);
      }
    }
  }

  lemma {:induction false} ClearBelowKeepsId(s: State, teacher: int, n: nat)
    ensures ClearBelow(s, teacher, n).nextId == s.nextId
  {
    if n > 0 {
      ClearBelowKeepsId(s, teacher, n - 1);
    }
  }

  /** Over any run, no leave disappears or changes its teacher, date, order or
      period, and a rejected or cancelled leave keeps that status. */
  lemma {:induction false} RunPersists(s: State, events: seq<Event>)
    requires Inv(s)
    ensures Persists(s, Run(s, events))
    decreases events
  {
    if events != [] {
      var s1 := Step(events[0].world, s, events[0].command);
      StepKeepsInv(events[0].world, s, events[0].command);
      StepPersists(events[0].world, s, events[0].command);
      RunPersists(s1, events[1..]);
    }
  }

  // ----- Undoing leaves no residue -----

  function Adjusted(events: seq<Event>, teacher: int): int {
    if events == [] then 0
    else AdjustsBy(events[0].command, teacher) + Adjusted(events[1..], teacher)
  }

  lemma {:induction false} RunManual(s: State, events: seq<Event>, teacher: int)
    requires Inv(s)
    ensures Manual(Run(s, events).ledger, teacher) == Manual(s.ledger, teacher) + Adjusted(events, teacher)
    decreases events
  {
    if events != [] {
      StepKeepsInv(events[0].world, s, events[0].command);
      RunManual(Step(events[0].world, s, events[0].command), events[1..], teacher);
    }
  }

  ghost predicate SameCovering(s: State, r: State) {
    && (forall id :: id in s.covers <==> id in r.covers)
    && (forall id :: id in s.covers && id in r.covers ==> s.covers[id].substitute == r.covers[id].substitute)
  }

  lemma SameCoveringSameSets(s: State, r: State, teacher: int)
    requires Structure(s) && SameCovering(s, r) && Persists(s, r)
    ensures Covering(r, teacher) == Covering(s, teacher) && CoveredOf(r, teacher) == CoveredOf(s, teacher)
  {
    forall id ensures id in Covering(r, teacher) <==> id in Covering(s, teacher) {
    }
    forall id ensures id in CoveredOf(r, teacher) <==> id in CoveredOf(s, teacher) {
      if id in s.covers {
        assert r.leaves[id].teacher == s.leaves[id].teacher;
      }
    }
  }

  /** Any run that ends with the same substitutes covering the same leaves ends
      with the same balances, up to the manual adjustments made on the way: an
      assignment, any number of overrides and an undo or a cancellation leave
      no credit behind. */
  lemma RunRestoresBalances(s: State, events: seq<Event>, teacher: int)
    requires Inv(s) && SameCovering(s, Run(s, events))
    ensures Balance(Run(s, events), teacher) == Balance(s, teacher) + Adjusted(events, teacher)
  {
    var r := Run(s, events);
    RunKeepsInv(s, events);
    RunPersists(s, events);
    RunManual(s, events, teacher);
    BalanceFormula(s, teacher);
    BalanceFormula(r, teacher);
    SameCoveringSameSets(s, r, teacher);
  }

  /** From the start, balances are adjustments plus current assignments. */
  lemma ReachableBalance(events: seq<Event>, teacher: int)
    ensures var s := Run(EMPTY, events);
            Balance(s, teacher) == Adjusted(events, teacher) + |Covering(s, teacher)| - |CoveredOf(s, teacher)|
  {
    RunKeepsInv(EMPTY, events);
    RunManual(EMPTY, events, teacher);
    BalanceFormula(Run(EMPTY, events), teacher);
  }

  // ----- The cut-off -----

  predicate NotEarlier(a: Clock, b: Clock) {
    a.today < b.today || (a.today == b.today && a.seconds <= b.seconds)
  }

  predicate SameCover(s: State, r: State, id: int) {
    (id in s.covers <==> id in r.covers) && (id in s.covers ==> s.covers[id] == r.covers[id])
  }

  lemma {:induction false} ClearBelowSpares(s: State, teacher: int, n: nat, id: int)
    requires id in s.leaves && s.leaves[id].teacher != teacher
    ensures SameCover(s, ClearBelow(s, teacher, n), id) && ClearBelow(s, teacher, n).leaves == s.leaves
  {
    if n > 0 {
      ClearBelowSpares(s, teacher, n - 1, id);
    }
  }

  lemma ClearingTakesOwn(s: State, teacher: int, id: int)
    requires Inv(s) && id in s.covers
    ensures SameCover(s, ClearBelow(s, teacher, s.nextId), id) <==> teacher != s.leaves[id].teacher
    ensures teacher == s.leaves[id].teacher ==> id !in ClearBelow(s, teacher, s.nextId).covers
  {
    if teacher == s.leaves[id].teacher {
      ClearBelowClears(s, teacher, s.nextId, id);
    } else {
      ClearBelowSpares(s, teacher, s.nextId, id);
    }
  }

  // The teacher's own cancellation is timed by the server's local clock.
  predicate LocallyInTime(w: World, date: int) {
    w.local.today < date || (w.local.today == date && w.local.seconds < SAME_DAY_CANCEL_SECONDS)
  }

  // The requests that take an assignment away whatever its cut-off and lock.
  predicate TakesAway(w: World, s: State, c: Command, id: int)
    requires id in s.leaves
  {
    || c == CancelByAdmin(id)
    || (c == ClearByTeacher(s.leaves[id].teacher) && w.selfManaged)
    || (c == CancelByTeacher(id, s.leaves[id].teacher) && LocallyInTime(w, s.leaves[id].date))
  }

  // Commands that may take an assignment away or change it.
  predicate AimsAt(c: Command, id: int, leaver: int) {
    match c
    case Override(i, _, _) => i == id
    case Undo(i) => i == id
    case SetLock(i, _) => i == id
    case CancelByTeacher(i, _) => i == id
    case CancelByAdmin(i) => i == id
    case ClearByTeacher(t) => t == leaver
    case _ => false
  }

  // All others leave an existing assignment as it is.
  lemma OthersKeepCover(w: World, s: State, c: Command, id: int)
    requires Inv(s) && id in s.covers && !AimsAt(c, id, s.leaves[id].teacher)
    ensures SameCover(s, Step(w, s, c), id)
  {
    if Accepted(w, s, c) {
      if c.Submit? || c.SubmitBatch? || c.SubmitByAdmin? {
        SubmissionFrame(w, s, c);
      } else if c.ClearByTeacher? {
        ClearingTakesOwn(s, c.teacher, id);
      }
    }
  }

  // Both cancellations and the clearing, on a covered leave.
  lemma RemovalsTakeAway(w: World, s: State, c: Command, id: int)
    requires Inv(s) && id in s.covers && AimsAt(c, id, s.leaves[id].teacher)
    requires c.CancelByTeacher? || c.CancelByAdmin? || c.ClearByTeacher?
    ensures !SameCover(s, Step(w, s, c), id) <==> TakesAway(w, s, c, id)
    ensures !SameCover(s, Step(w, s, c), id) ==> id !in Step(w, s, c).covers
  {
    if c.ClearByTeacher? {
      ClearingTakesOwn(s, c.teacher, id);
    }
  }

  /** After a leave's cut-off its assignment changes if and only if an
      administrator cancels the leave, its teacher clears all assignments where
      that is allowed, or its teacher cancels while the server's local clock
      still allows it. */
  lemma ExpiredCoverChangesIff(w: World, s: State, c: Command, id: int)
    requires Inv(s) && id in s.covers && SubstitutionExpired(w, s.leaves[id].date)
    ensures !SameCover(s, Step(w, s, c), id) <==> TakesAway(w, s, c, id)
    ensures !SameCover(s, Step(w, s, c), id) ==> id !in Step(w, s, c).covers
  {
    if !AimsAt(c, id, s.leaves[id].teacher) {
      OthersKeepCover(w, s, c, id);
    } else if c.Override? || c.Undo? || c.SetLock? {
      assert !Accepted(w, s, c);
    } else {
      RemovalsTakeAway(w, s, c, id);
    }
  }

  /** With the local clock in step with the institution's, the teacher's own
      cancellation is refused once the cut-off has passed. */
  lemma OneClockLeavesTwoWays(w: World, s: State, c: Command, id: int)
    requires Inv(s) && id in s.covers && SubstitutionExpired(w, s.leaves[id].date) && w.local == w.now
    ensures !SameCover(s, Step(w, s, c), id)
       <==> c == CancelByAdmin(id) || (c == ClearByTeacher(s.leaves[id].teacher) && w.selfManaged)
  {
    ExpiredCoverChangesIff(w, s, c, id);
  }

  // Free for the lesson: active, not the leaver, not teaching then and not on
  // approved leave then.
  ghost predicate FreeFor(w: World, leaves: map<int, Leave>, teacher: int, l: Leave) {
    && teacher in w.teachers && teacher != l.teacher
    && Slot(teacher, l.order, l.period) !in w.slots
    && (forall i :: i in leaves && leaves[i].teacher == teacher && SameLesson(leaves[i], l)
          ==> leaves[i].status != Approved)
  }

  // And substituting for nobody else on that date.
  ghost predicate FreeThatDay(w: World, s: State, id: int, teacher: int)
    requires id in s.leaves
  {
    && FreeFor(w, s.leaves, teacher, s.leaves[id])
    && (forall i :: i in s.covers && i in s.leaves && s.leaves[i].date == s.leaves[id].date
          ==> s.covers[i].substitute != teacher)
  }

  lemma EligibleIff(w: World, s: State, id: int, teacher: int)
    requires id in s.leaves
    ensures AutoEligible(w, s, id, teacher) <==> FreeThatDay(w, s, id, teacher)
  {
  }

  lemma ApprovingFreesNobody(w: World, s: State, id: int, teacher: int)
    requires id in s.leaves
    ensures FreeThatDay(w, SetStatus(s, id, Approved), id, teacher) <==> FreeThatDay(w, s, id, teacher)
  {
    if FreeThatDay(w, SetStatus(s, id, Approved), id, teacher) {
      forall i | i in s.leaves && s.leaves[i].teacher == teacher && SameLesson(s.leaves[i], s.leaves[id])
        ensures s.leaves[i].status != Approved
      {
        assert SetStatus(s, id, Approved).leaves[i] == s.leaves[i];
      }
      forall i | i in s.covers && i in s.leaves && s.leaves[i].date == s.leaves[id].date
        ensures s.covers[i].substitute != teacher
      {
        assert SetStatus(s, id, Approved).leaves[i].date == s.leaves[i].date;
      }
    }
  }

  /** A leave without an assignment gets one after its cut-off if and only if the
      autonomous pass, within the request that approves it, finds its pick
      eligible. */
  lemma ExpiredCoverAppearsIff(w: World, s: State, c: Command, id: int)
    requires Inv(s) && id in s.leaves && id !in s.covers && SubstitutionExpired(w, s.leaves[id].date)
    ensures id in Step(w, s, c).covers
       <==> c.Approve? && c.id == id && s.leaves[id].status == Pending && s.leaves[id].date in w.calendar
            && w.autonomous && c.pick.Some? && FreeThatDay(w, s, id, c.pick.value.substitute)
  {
    if c.Approve? && c.id == id && c.pick.Some? {
      EligibleIff(w, SetStatus(s, id, Approved), id, c.pick.value.substitute);
      ApprovingFreesNobody(w, s, id, c.pick.value.substitute);
    }
    if Accepted(w, s, c) {
      if c.Submit? || c.SubmitBatch? || c.SubmitByAdmin? {
        SubmissionFrame(w, s, c);
      } else if c.ClearByTeacher? {
        ClearBelowAddsNothing(s, c.teacher, s.nextId, id);
      }
    }
  }

  // The pass, reaching the leave in the given state, assigns its pick.
  ghost predicate PassAssigns(w: World, s: State, id: int, pick: Option<Pick>) {
    w.autonomous && pick.Some? && id in s.leaves && FreeThatDay(w, s, id, pick.value.substitute)
  }

  lemma {:induction false} PassCoversIff(w: World, s: State, first: int, n: nat, picks: seq<Option<Pick>>, k: nat)
    requires k < n && first + k !in s.covers
    ensures first + k in AutoCoverAll(w, s, first, n, picks).covers
       <==> PassAssigns(w, AutoCoverAll(w, s, first, k, picks), first + k, PickAt(picks, k))
  {
    PassFrame(w, s, first, n - 1, picks);
    var m, pick := AutoCoverAll(w, s, first, n - 1, picks), PickAt(picks, n - 1);
    if first + n - 1 in m.leaves && pick.Some? {
      EligibleIff(w, m, first + n - 1, pick.value.substitute);
    }
    if k < n - 1 {
      PassCoversIff(w, s, first, n - 1, picks, k);
    }
  }

  predicate Files(c: Command) {
    c.Submit? || c.SubmitBatch? || c.SubmitByAdmin?
  }

  // The state with the submitted leaves stored, before the pass.
  function Stored(w: World, s: State, c: Command): State
    requires Files(c) && Accepted(w, s, c)
  {
    match c
    case Submit(t, d, p, _) => AddLeaves(s, t, d, w.calendar[d], [p], SubmittedStatus(w))
    case SubmitBatch(t, d, whole, ps, _) =>
      AddLeaves(s, t, d, w.calendar[d], BatchPeriods(w, t, d, whole, ps), SubmittedStatus(w))
    case SubmitByAdmin(t, d, whole, ps, _) =>
      AddLeaves(s, t, d, w.calendar[d], BatchPeriods(w, t, d, whole, ps), Approved)
  }

  function PicksOf(c: Command): seq<Option<Pick>>
    requires Files(c)
  {
    match c
    case Submit(_, _, _, pick) => [pick]
    case SubmitBatch(_, _, _, _, picks) => picks
    case SubmitByAdmin(_, _, _, _, picks) => picks
  }

  lemma StoredThenPass(w: World, s: State, c: Command)
    requires Structure(s) && Files(c) && Accepted(w, s, c)
    ensures var m := Stored(w, s, c);
            && s.nextId <= m.nextId && m.covers == s.covers
            && (forall id :: id in m.leaves && id !in s.leaves <==> s.nextId <= id < m.nextId)
            && Step(w, s, c) == AutoCoverAll(w, m, s.nextId, m.nextId - s.nextId, PicksOf(c))
  {
    match c
    case Submit(t, d, p, _) => AddLeavesRows(s, t, d, w.calendar[d], [p], SubmittedStatus(w));
    case SubmitBatch(t, d, whole, ps, _) =>
      AddLeavesRows(s, t, d, w.calendar[d], BatchPeriods(w, t, d, whole, ps), SubmittedStatus(w));
    case SubmitByAdmin(t, d, whole, ps, _) =>
      AddLeavesRows(s, t, d, w.calendar[d], BatchPeriods(w, t, d, whole, ps), Approved);
  }

  /** A leave gets an assignment in the very request that files it, before or after
      its cut-off, if and only if the autonomous pass, when it reaches that leave,
      finds its pick eligible. */
  lemma FiledCoverAppearsIff(w: World, s: State, c: Command, id: int)
    requires Inv(s) && id !in s.leaves
    ensures id in Step(w, s, c).covers
       <==> Files(c) && Accepted(w, s, c) && s.nextId <= id < Stored(w, s, c).nextId
            && PassAssigns(w, AutoCoverAll(w, Stored(w, s, c), s.nextId, id - s.nextId, PicksOf(c)), id,
                           PickAt(PicksOf(c), id - s.nextId))
  {
    if Files(c) && Accepted(w, s, c) {
      StoredThenPass(w, s, c);
      FiledByPass(w, Stored(w, s, c), s.nextId, PicksOf(c), id);
    } else {
      FewerCovers(w, s, c, id);
    }
  }

  lemma FiledByPass(w: World, m: State, first: nat, picks: seq<Option<Pick>>, id: int)
    requires first <= m.nextId && id !in m.covers
    ensures id in AutoCoverAll(w, m, first, m.nextId - first, picks).covers
       <==> first <= id < m.nextId
            && PassAssigns(w, AutoCoverAll(w, m, first, id - first, picks), id, PickAt(picks, id - first))
  {
    PassFrame(w, m, first, m.nextId - first, picks);
    if first <= id < m.nextId {
      PassCoversIff(w, m, first, m.nextId - first, picks, id - first);
    }
  }

  // Other requests cover stored leaves only.
  lemma FewerCovers(w: World, s: State, c: Command, id: int)
    requires Inv(s) && id !in s.leaves && !(Files(c) && Accepted(w, s, c))
    ensures id !in Step(w, s, c).covers
  {
    if c.ClearByTeacher? {
      ClearBelowAddsNothing(s, c.teacher, s.nextId, id);
    }
  }

  /** For instance: in autonomous mode, a leave filed the day after its date is
      covered at once. */
  lemma PastLeaveIsCovered()
    ensures var w := World(Clock(101, 0), Clock(101, 0), map[100 := 1], [], {1, 2}, map[], true, false);
            var r := Step(w, EMPTY, Submit(1, 100, 1, Some(Pick(2, true))));
            && 1 in r.covers && r.covers[1].substitute == 2
            && 1 in r.leaves && SubstitutionExpired(w, r.leaves[1].date)
  {
    var w := World(Clock(101, 0), Clock(101, 0), map[100 := 1], [], {1, 2}, map[], true, false);
    var pick := Some(Pick(2, true));
    var added := AddLeave(EMPTY, Leave(1, 100, 1, 1, Approved));
    assert [1][..0] == [] && AddLeaves(EMPTY, 1, 100, 1, [], Approved) == EMPTY;
    assert AddLeaves(EMPTY, 1, 100, 1, [1], Approved) == added;
    assert AutoCoverAll(w, added, 1, 0, [pick]) == added;
    assert AutoCoverAll(w, added, 1, 1, [pick]) == AutoCover(w, added, 1, pick);
  }

  lemma {:induction false} ClearBelowAddsNothing(s: State, teacher: int, n: nat, id: int)
    ensures ClearBelow(s, teacher, n).leaves == s.leaves
    ensures id in ClearBelow(s, teacher, n).covers ==>
              id in s.covers && ClearBelow(s, teacher, n).covers[id] == s.covers[id]
  {
    if n > 0 {
      ClearBelowAddsNothing(s, teacher, n - 1, id);
    }
  }

  // The institution's clock does not run backwards.
  ghost predicate ClockRuns(w: World, events: seq<Event>)
    decreases events
  {
    events != [] ==> NotEarlier(w.now, events[0].world.now) && ClockRuns(events[0].world, events[1..])
  }

  // Some request of the run takes the assignment away.
  ghost predicate TakenAway(s: State, events: seq<Event>, id: int)
    requires Inv(s) && id in s.leaves
    decreases events
  {
    events != [] &&
    var w, c := events[0].world, events[0].command;
    StepKeepsInv(w, s, c);
    StepPersists(w, s, c);
    TakesAway(w, s, c, id) || TakenAway(Step(w, s, c), events[1..], id)
  }

  /** An expired leave that is decided and not covered is never covered again. */
  lemma {:induction false} ExpiredStaysUncovered(w: World, s: State, events: seq<Event>, id: int)
    requires Inv(s) && id in s.leaves && id !in s.covers && s.leaves[id].status != Pending
    requires SubstitutionExpired(w, s.leaves[id].date) && ClockRuns(w, events)
    ensures id !in Run(s, events).covers
    decreases events
  {
    if events != [] {
      var w1, c := events[0].world, events[0].command;
      ExpiredCoverAppearsIff(w1, s, c, id);
      StepKeepsInv(w1, s, c);
      StepPersists(w1, s, c);
      StepStaysDecided(w1, s, c, id);
      ExpiredStaysUncovered(w1, Step(w1, s, c), events[1..], id);
    }
  }

  lemma StepStaysDecided(w: World, s: State, c: Command, id: int)
    requires Inv(s) && id in s.leaves && s.leaves[id].status != Pending
    ensures id in Step(w, s, c).leaves && Step(w, s, c).leaves[id].status != Pending
  {
    if Accepted(w, s, c) {
      if c.Submit? || c.SubmitBatch? || c.SubmitByAdmin? {
        SubmissionFrame(w, s, c);
      } else if c.ClearByTeacher? {
        ClearBelowAddsNothing(s, c.teacher, s.nextId, id);
      }
    }
  }

  /** Over any run that starts after a leave's cut-off, its assignment is at the
      end what it was if and only if none of the three requests that can take it
      away was made and accepted on the way. */
  lemma {:induction false} ExpiredCoverIsFrozen(w: World, s: State, events: seq<Event>, id: int)
    requires Inv(s) && id in s.covers && SubstitutionExpired(w, s.leaves[id].date) && ClockRuns(w, events)
    ensures SameCover(s, Run(s, events), id) <==> !TakenAway(s, events, id)
    decreases events
  {
    if events != [] {
      var w1, c := events[0].world, events[0].command;
      var s1 := Step(w1, s, c);
      ExpiredCoverChangesIff(w1, s, c, id);
      StepKeepsInv(w1, s, c);
      StepPersists(w1, s, c);
      if TakesAway(w1, s, c, id) {
        StepStaysDecided(w1, s, c, id);
        ExpiredStaysUncovered(w1, s1, events[1..], id);
      } else {
        ExpiredCoverIsFrozen(w1, s1, events[1..], id);
      }
    }
  }

  lemma {:induction false} ClearBelowClears(s: State, teacher: int, n: nat, id: int)
    requires ClearsCover(s, teacher, id)
    ensures id in ClearBelow(s, teacher, n).covers <==> !(0 <= id < n)
    ensures ClearBelow(s, teacher, n).leaves == s.leaves
    ensures id in ClearBelow(s, teacher, n).covers ==> ClearBelow(s, teacher, n).covers[id] == s.covers[id]
  {
    if n > 0 {
      ClearBelowClears(s, teacher, n - 1, id);
    }
  }

  /** The exception is real: clearing all assignments removes every cover of
      the teacher's approved leaves, also past the cut-off and also locked. */
  lemma ClearingIgnoresCutoffAndLock(w: World, s: State, id: int)
    requires Inv(s) && w.selfManaged && id in s.covers
    ensures id !in Step(w, s, ClearByTeacher(s.leaves[id].teacher)).covers
  {
    ClearBelowClears(s, s.leaves[id].teacher, s.nextId, id);
  }

  // ----- An assignment written without credits -----

  // The governance desk replaces or creates the assignment row only. The database
  // refuses a row that names the leaver, and with it the whole request.
  function GovernanceAssign(s: State, id: int, substitute: int, combined: bool): State {
    if id !in s.leaves || substitute == s.leaves[id].teacher then s
    else s.(covers := s.covers[id := Cover(substitute, if combined then CombinedClass else Overridden, false)])
  }

  // The request is refused, or names the substitute the leave already has.
  predicate GovernanceChangesNobody(s: State, id: int, substitute: int) {
    || id !in s.leaves || substitute == s.leaves[id].teacher
    || (id in s.covers && substitute == s.covers[id].substitute)
  }

  lemma RenamedCoverKeepsInv(s: State, id: int, how: AssignmentType)
    requires Inv(s) && id in s.covers
    ensures Inv(s.(covers := s.covers[id := Cover(s.covers[id].substitute, how, false)]))
  {
    var r := s.(covers := s.covers[id := Cover(s.covers[id].substitute, how, false)]);
    forall t, i ensures Tagged(r.ledger, t, i) == Stake(r, t, i) {
      assert Tagged(s.ledger, t, i) == Stake(s, t, i);
    }
    forall t ensures Balance(r, t) == Total(r.ledger, t) {
      assert Balance(s, t) == Total(s.ledger, t);
    }
  }

  /** A governance assignment keeps the laws of the leave machine, and already the
      ledger law alone, if and only if it is refused because it names the leaver (or
      no leave), or names the substitute who covers the leave anyway. */
  lemma GovernanceKeepsLawsIff(s: State, id: int, substitute: int, combined: bool)
    requires Inv(s)
    ensures Inv(GovernanceAssign(s, id, substitute, combined)) <==> GovernanceChangesNobody(s, id, substitute)
    ensures LedgerLaw(GovernanceAssign(s, id, substitute, combined)) <==> GovernanceChangesNobody(s, id, substitute)
    ensures id in s.leaves && substitute != s.leaves[id].teacher ==>
              var r := GovernanceAssign(s, id, substitute, combined);
              && r == s.(covers := r.covers) && r.covers.Keys == s.covers.Keys + {id}
              && r.covers[id] == Cover(substitute, r.covers[id].how, false)
              && (r.covers[id].how == CombinedClass <==> combined)
              && forall i :: i in s.covers && i != id ==> r.covers[i] == s.covers[i]
  {
    var r := GovernanceAssign(s, id, substitute, combined);
    if !GovernanceChangesNobody(s, id, substitute) {
      assert Tagged(s.ledger, substitute, id) == Stake(s, substitute, id);
      assert Stake(r, substitute, id) == Stake(s, substitute, id) + 1;
      assert Tagged(r.ledger, substitute, id) != Stake(r, substitute, id);
    } else if r != s {
      RenamedCoverKeepsInv(s, id, r.covers[id].how);
    }
  }
}
