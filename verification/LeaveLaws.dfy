/**
What every run of the leave machine keeps: who may cover what, and a credit
ledger that always says who is covering whom right now.
*/
module LeaveLaws {
  import opened Options
  import opened SortedLists
  import opened Leaves

  // ----- Sums over the ledger -----

  function Total(ledger: seq<Tx>, teacher: int): int {
    if ledger == [] then 0
    else Total(ledger[..|ledger| - 1], teacher)
         + (var tx := ledger[|ledger| - 1]; if tx.teacher == teacher then tx.change else 0)
  }

  function Tagged(ledger: seq<Tx>, teacher: int, id: int): int {
    if ledger == [] then 0
    else Tagged(ledger[..|ledger| - 1], teacher, id)
         + (var tx := ledger[|ledger| - 1]; if tx.teacher == teacher && tx.leave == Some(id) then tx.change else 0)
  }

  // Changes that belong to no leave: the administrators' own adjustments.
  function Manual(ledger: seq<Tx>, teacher: int): int {
    if ledger == [] then 0
    else Manual(ledger[..|ledger| - 1], teacher)
         + (var tx := ledger[|ledger| - 1]; if tx.teacher == teacher && tx.leave == None then tx.change else 0)
  }

  // All leave changes of all teachers together.
  function Circulated(ledger: seq<Tx>): int {
    if ledger == [] then 0
    else Circulated(ledger[..|ledger| - 1])
         + (var tx := ledger[|ledger| - 1]; if tx.leave == None then 0 else tx.change)
  }

  // ----- The laws -----

  // +1 for the substitute and -1 for the leaver of a covered leave.
  function Stake(s: State, teacher: int, id: int): int {
    if id !in s.covers || id !in s.leaves then 0
    else (if s.covers[id].substitute == teacher then 1 else 0)
         - (if s.leaves[id].teacher == teacher then 1 else 0)
  }

  ghost predicate Structure(s: State) {
    && (forall id :: id in s.leaves ==> 0 <= id < s.nextId)
    && (forall id :: id in s.covers ==>
          id in s.leaves && s.leaves[id].status == Approved && s.covers[id].substitute != s.leaves[id].teacher)
  }

  predicate SameLesson(a: Leave, b: Leave) {
    a.date == b.date && a.period == b.period
  }

  ghost predicate NoDoubleCover(s: State) {
    forall i, j :: i in s.covers && j in s.covers && i in s.leaves && j in s.leaves && i != j
                   && s.covers[i].substitute == s.covers[j].substitute
                   ==> !SameLesson(s.leaves[i], s.leaves[j])
  }

  ghost predicate NoDoubleLeave(s: State) {
    forall i, j :: i in s.leaves && j in s.leaves && i != j && Active(s.leaves[i]) && Active(s.leaves[j])
                   && s.leaves[i].teacher == s.leaves[j].teacher
                   ==> !SameLesson(s.leaves[i], s.leaves[j])
  }

  ghost predicate LedgerLaw(s: State) {
    forall teacher, id :: Tagged(s.ledger, teacher, id) == Stake(s, teacher, id)
  }

  ghost predicate BalanceLaw(s: State) {
    forall teacher :: Balance(s, teacher) == Total(s.ledger, teacher)
  }

  ghost predicate TagsKnown(s: State) {
    forall k :: 0 <= k < |s.ledger| && s.ledger[k].leave.Some? ==> 0 <= s.ledger[k].leave.value < s.nextId
  }

  ghost predicate Inv(s: State) {
    && Structure(s) && NoDoubleCover(s) && NoDoubleLeave(s)
    && LedgerLaw(s) && BalanceLaw(s) && TagsKnown(s) && Circulated(s.ledger) == 0
  }

  // ----- One credit change -----

  lemma CreditSums(s: State, teacher: int, change: int, category: Category, leave: Option<int>)
    ensures var r := Credit(s, teacher, change, category, leave);
            && (forall t :: Balance(r, t) == Balance(s, t) + if t == teacher then change else 0)
            && (forall t :: Total(r.ledger, t) == Total(s.ledger, t) + if t == teacher then change else 0)
            && (forall t, id :: Tagged(r.ledger, t, id)
                             == Tagged(s.ledger, t, id) + if t == teacher && leave == Some(id) then change else 0)
            && (forall t :: Manual(r.ledger, t)
                         == Manual(s.ledger, t) + if t == teacher && leave == None then change else 0)
            && Circulated(r.ledger) == Circulated(s.ledger) + if leave == None then 0 else change
  {
    var r := Credit(s, teacher, change, category, leave);
    assert r.ledger[..|r.ledger| - 1] == s.ledger;
  }

  // One credit moved from `payer` to `payee`, both changes tagged with the leave.
  ghost predicate Moved(s: State, r: State, payer: int, payee: int, id: int) {
    && (forall t :: Balance(r, t)
                 == Balance(s, t) + (if t == payee then 1 else 0) - (if t == payer then 1 else 0))
    && (forall t :: Total(r.ledger, t)
                 == Total(s.ledger, t) + (if t == payee then 1 else 0) - (if t == payer then 1 else 0))
    && (forall t, i :: Tagged(r.ledger, t, i) == Tagged(s.ledger, t, i)
                 + (if i == id && t == payee then 1 else 0) - (if i == id && t == payer then 1 else 0))
    && (forall t :: Manual(r.ledger, t) == Manual(s.ledger, t))
    && Circulated(r.ledger) == Circulated(s.ledger)
    && |r.ledger| == |s.ledger| + 2 && r.ledger[..|s.ledger|] == s.ledger
    && (forall k :: |s.ledger| <= k < |r.ledger| ==> r.ledger[k].leave == Some(id))
  }

  lemma TransferMoves(s: State, a: int, da: int, ca: Category, b: int, db: int, cb: Category, id: int)
    requires (da == -1 && db == 1) || (da == 1 && db == -1)
    ensures var r := Credit(Credit(s, a, da, ca, Some(id)), b, db, cb, Some(id));
            if da == -1 then Moved(s, r, a, b, id) else Moved(s, r, b, a, id)
  {
    var m := Credit(s, a, da, ca, Some(id));
    CreditSums(s, a, da, ca, Some(id));
    CreditSums(m, b, db, cb, Some(id));
  }

  // The sums of r's ledger fit r's covers when the stakes moved with the credit.
  lemma LedgerFollows(s: State, r: State, payer: int, payee: int, id: int)
    requires Inv(s) && Moved(s, r, payer, payee, id) && r.nextId == s.nextId && 0 <= id < s.nextId
    requires forall t, i :: Stake(r, t, i) == Stake(s, t, i)
                 + (if i == id && t == payee then 1 else 0) - (if i == id && t == payer then 1 else 0)
    ensures LedgerLaw(r) && BalanceLaw(r) && TagsKnown(r) && Circulated(r.ledger) == 0
  {
    forall t, i ensures Tagged(r.ledger, t, i) == Stake(r, t, i) {
      assert Tagged(s.ledger, t, i) == Stake(s, t, i);
    }
    forall t ensures Balance(r, t) == Total(r.ledger, t) {
      assert Balance(s, t) == Total(s.ledger, t);
    }
    forall k | 0 <= k < |r.ledger| && r.ledger[k].leave.Some? ensures 0 <= r.ledger[k].leave.value < r.nextId {
      if k < |s.ledger| { assert r.ledger[k] == s.ledger[k]; }
    }
  }

  // ----- Every operation keeps the laws -----

  lemma AddCoverKeepsInv(s: State, id: int, substitute: int, how: AssignmentType)
    requires Inv(s) && id in s.leaves && s.leaves[id].status == Approved && id !in s.covers
    requires substitute != s.leaves[id].teacher
    requires !Substituting(s, substitute, s.leaves[id].date, s.leaves[id].period, id)
    ensures Inv(AddCover(s, id, substitute, how))
    ensures forall t :: Manual(AddCover(s, id, substitute, how).ledger, t) == Manual(s.ledger, t)
  {
    var r := AddCover(s, id, substitute, how);
    var l := s.leaves[id];
    var s1 := s.(covers := s.covers[id := Cover(substitute, how, false)]);
    TransferMoves(s1, l.teacher, -1, Penalty, substitute, 1, SubstituteClass, id);
    assert Moved(s, r, l.teacher, substitute, id) by {
      assert forall t :: Balance(s1, t) == Balance(s, t);
    }
    LedgerFollows(s, r, l.teacher, substitute, id);
  }

  lemma ReplaceCoverKeepsInv(s: State, id: int, substitute: int)
    requires Inv(s) && id in s.covers && id in s.leaves
    requires substitute != s.leaves[id].teacher
    requires !Substituting(s, substitute, s.leaves[id].date, s.leaves[id].period, id)
    ensures Inv(ReplaceCover(s, id, substitute))
    ensures forall t :: Manual(ReplaceCover(s, id, substitute).ledger, t) == Manual(s.ledger, t)
  {
    var r := ReplaceCover(s, id, substitute);
    var was := s.covers[id].substitute;
    var m := Credit(Credit(s, was, -1, Correction, Some(id)), substitute, 1, SubstituteClass, Some(id));
    TransferMoves(s, was, -1, Correction, substitute, 1, SubstituteClass, id);
    assert forall t :: Balance(m, t) == Balance(r, t);
    LedgerFollows(s, r, was, substitute, id);
  }

  lemma RemoveCoverKeepsInv(s: State, id: int)
    requires Inv(s) && id in s.covers && id in s.leaves
    ensures Inv(RemoveCover(s, id))
    ensures forall t :: Manual(RemoveCover(s, id).ledger, t) == Manual(s.ledger, t)
  {
    var r := RemoveCover(s, id);
    var leaver, was := s.leaves[id].teacher, s.covers[id].substitute;
    var m := Credit(Credit(s, leaver, 1, Correction, Some(id)), was, -1, Correction, Some(id));
    TransferMoves(s, leaver, 1, Correction, was, -1, Correction, id);
    assert forall t :: Balance(m, t) == Balance(r, t);
    LedgerFollows(s, r, was, leaver, id);
  }

  // Changing only the leaves table, without touching a covered leave.
  ghost predicate LeavesOnly(s: State, r: State) {
    && r.covers == s.covers && r.balances == s.balances && r.ledger == s.ledger && s.nextId <= r.nextId
    && (forall id :: id in s.covers ==> id in s.leaves && id in r.leaves && r.leaves[id] == s.leaves[id])
  }

  lemma LeavesOnlyKeepsLaws(s: State, r: State)
    requires Inv(s) && LeavesOnly(s, r)
    ensures LedgerLaw(r) && BalanceLaw(r) && TagsKnown(r) && NoDoubleCover(r) && Circulated(r.ledger) == 0
  {
    forall t, i ensures Tagged(r.ledger, t, i) == Stake(r, t, i) {
      assert Tagged(s.ledger, t, i) == Stake(s, t, i);
    }
    forall t ensures Balance(r, t) == Total(r.ledger, t) {
      assert Balance(s, t) == Total(s.ledger, t);
    }
  }

  lemma SetStatusKeepsInv(s: State, id: int, status: Status)
    requires Inv(s) && id in s.leaves && id !in s.covers
    requires Active(s.leaves[id]) || (status != Pending && status != Approved)
    ensures Inv(SetStatus(s, id, status))
  {
    LeavesOnlyKeepsLaws(s, SetStatus(s, id, status));
  }

  lemma AddLeaveKeepsInv(s: State, l: Leave)
    requires Inv(s)
    requires Active(l) ==> !HasActiveLeave(s, l.teacher, l.date, l.period)
    ensures Inv(AddLeave(s, l))
  {
    LeavesOnlyKeepsLaws(s, AddLeave(s, l));
  }

  // The batch check reads only the leaves stored before the batch, so distinct
  // periods are what keeps the new rows from colliding with each other.
  lemma {:induction false} AddLeavesKeepsInv(s: State, t: int, d: int, order: int, periods: seq<int>, status: Status)
    requires Inv(s) && Ascending(periods)
    requires forall p :: p in periods ==> !HasActiveLeave(s, t, d, p)
    ensures Inv(AddLeaves(s, t, d, order, periods, status))
    ensures AddLeaves(s, t, d, order, periods, status).ledger == s.ledger
    ensures forall p :: HasActiveLeave(AddLeaves(s, t, d, order, periods, status), t, d, p)
                    ==> p in periods || HasActiveLeave(s, t, d, p)
    decreases periods
  {
    if periods != [] {
      var n := |periods| - 1;
      var before := AddLeaves(s, t, d, order, periods[..n], status);
      AddLeavesKeepsInv(s, t, d, order, periods[..n], status);
      assert periods[n] in periods;
      AddLeaveKeepsInv(before, Leave(t, d, order, periods[n], status));
    }
  }

  lemma {:induction false} AddLeavesRows(s: State, t: int, d: int, order: int, periods: seq<int>, status: Status)
    requires Structure(s)
    ensures var r := AddLeaves(s, t, d, order, periods, status);
            && r == s.(leaves := r.leaves, nextId := s.nextId + |periods|) && Structure(r)
            && (forall id :: id in s.leaves ==> id in r.leaves && r.leaves[id] == s.leaves[id])
            && (forall id :: id in r.leaves && id !in s.leaves ==> s.nextId <= id < r.nextId)
            && (forall id :: s.nextId <= id < r.nextId ==>
                  id in r.leaves && r.leaves[id] == Leave(t, d, order, periods[id - s.nextId], status))
    decreases periods
  {
    if periods != [] {
      AddLeavesRows(s, t, d, order, periods[..|periods| - 1], status);
    }
  }

  lemma AutoCoverKeepsInv(w: World, s: State, id: int, pick: Option<Pick>)
    requires Inv(s) && (w.autonomous && id in s.leaves ==> s.leaves[id].status == Approved)
    ensures Inv(AutoCover(w, s, id, pick))
  {
    if AutoCover(w, s, id, pick) != s {
      var t, l := pick.value.substitute, s.leaves[id];
      assert !Substituting(s, t, l.date, l.period, id) by {
        assert !SubstitutingOn(s, t, l.date);
      }
      AddCoverKeepsInv(s, id, t, if pick.value.emergency then Emergency else AutoAssigned);
    }
  }

  lemma AutoCoverKeepsManual(w: World, s: State, id: int, pick: Option<Pick>, t: int)
    ensures Manual(AutoCover(w, s, id, pick).ledger, t) == Manual(s.ledger, t)
    ensures AutoCover(w, s, id, pick).leaves == s.leaves
  {
    if AutoCover(w, s, id, pick) != s {
      var s1 := s.(covers := s.covers[id := Cover(pick.value.substitute, AutoAssigned, false)]);
      TransferMoves(s1, s.leaves[id].teacher, -1, Penalty, pick.value.substitute, 1, SubstituteClass, id);
      assert Manual(AutoCover(w, s, id, pick).ledger, t) == Manual(s1.ledger, t);
    }
  }

  lemma {:induction false} AutoCoverAllKeepsManual(w: World, s: State, first: int, n: nat, picks: seq<Option<Pick>>,
                                                   t: int)
    ensures Manual(AutoCoverAll(w, s, first, n, picks).ledger, t) == Manual(s.ledger, t)
    ensures AutoCoverAll(w, s, first, n, picks).leaves == s.leaves
  {
    if n > 0 {
      AutoCoverAllKeepsManual(w, s, first, n - 1, picks, t);
      AutoCoverKeepsManual(w, AutoCoverAll(w, s, first, n - 1, picks), first + n - 1, PickAt(picks, n - 1), t);
    }
  }

  // The rest of the pass, from its i-th leave on.
  function PassRest(w: World, s: State, first: int, i: nat, n: nat, picks: seq<Option<Pick>>): State
    decreases n - i
  {
    if i >= n then s else PassRest(w, AutoCover(w, s, first + i, PickAt(picks, i)), first, i + 1, n, picks)
  }

  lemma {:induction false} PassIsRest(w: World, s: State, first: int, i: nat, n: nat, picks: seq<Option<Pick>>)
    requires i <= n
    ensures PassRest(w, AutoCoverAll(w, s, first, i, picks), first, i, n, picks) == AutoCoverAll(w, s, first, n, picks)
    decreases n - i
  {
    if i < n {
      PassIsRest(w, s, first, i + 1, n, picks);
    }
  }

  ghost predicate PassReady(w: World, s: State, first: int, n: nat) {
    forall id :: w.autonomous && first <= id < first + n && id in s.leaves ==> s.leaves[id].status == Approved
  }

  lemma {:induction false} PassRestKeepsInv(w: World, s: State, first: int, i: nat, n: nat, picks: seq<Option<Pick>>)
    requires Inv(s) && PassReady(w, s, first, n)
    ensures Inv(PassRest(w, s, first, i, n, picks))
    decreases n - i
  {
    if i < n {
      AutoCoverKeepsInv(w, s, first + i, PickAt(picks, i));
      AutoCoverKeepsManual(w, s, first + i, PickAt(picks, i), 0);
      PassRestKeepsInv(w, AutoCover(w, s, first + i, PickAt(picks, i)), first, i + 1, n, picks);
    }
  }

  lemma AutoCoverAllKeepsInv(w: World, s: State, first: int, n: nat, picks: seq<Option<Pick>>)
    requires Inv(s) && PassReady(w, s, first, n)
    ensures Inv(AutoCoverAll(w, s, first, n, picks))
  {
    PassIsRest(w, s, first, 0, n, picks);
    PassRestKeepsInv(w, s, first, 0, n, picks);
  }

  lemma FileLeavesKeepsInv(w: World, s: State, t: int, d: int, periods: seq<int>, status: Status,
                           picks: seq<Option<Pick>>)
    requires Inv(s) && Ascending(periods) && d in w.calendar && (w.autonomous ==> status == Approved)
    requires forall p :: p in periods ==> !HasActiveLeave(s, t, d, p)
    ensures Inv(FileLeaves(w, s, t, d, periods, status, picks))
    ensures forall x :: Manual(FileLeaves(w, s, t, d, periods, status, picks).ledger, x) == Manual(s.ledger, x)
  {
    AddLeavesKeepsInv(s, t, d, w.calendar[d], periods, status);
    AddLeavesRows(s, t, d, w.calendar[d], periods, status);
    var added := AddLeaves(s, t, d, w.calendar[d], periods, status);
    AutoCoverAllKeepsInv(w, added, s.nextId, |periods|, picks);
    forall x ensures Manual(FileLeaves(w, s, t, d, periods, status, picks).ledger, x) == Manual(s.ledger, x) {
      AutoCoverAllKeepsManual(w, added, s.nextId, |periods|, picks, x);
    }
  }

  lemma {:induction false} ClearBelowKeepsInv(s: State, teacher: int, n: nat)
    requires Inv(s)
    ensures Inv(ClearBelow(s, teacher, n))
    ensures ClearBelow(s, teacher, n).leaves == s.leaves && ClearBelow(s, teacher, n).nextId == s.nextId
    ensures forall t :: Manual(ClearBelow(s, teacher, n).ledger, t) == Manual(s.ledger, t)
  {
    if n > 0 {
      ClearBelowKeepsInv(s, teacher, n - 1);
      var s1 := ClearBelow(s, teacher, n - 1);
      if ClearsCover(s1, teacher, n - 1) {
        RemoveCoverKeepsInv(s1, n - 1);
      }
    }
  }

  lemma AdjustKeepsInv(s: State, teacher: int, change: int)
    requires Inv(s)
    ensures Inv(Credit(s, teacher, change, ManualAdjustment, None))
  {
    var r := Credit(s, teacher, change, ManualAdjustment, None);
    CreditSums(s, teacher, change, ManualAdjustment, None);
    forall t, i ensures Tagged(r.ledger, t, i) == Stake(r, t, i) {
      assert Tagged(s.ledger, t, i) == Stake(s, t, i);
    }
    forall t ensures Balance(r, t) == Total(r.ledger, t) {
      assert Balance(s, t) == Total(s.ledger, t);
    }
  }

  lemma CancelKeepsInv(s: State, id: int)
    requires Inv(s) && id in s.leaves
    ensures Inv(Cancel(s, id))
    ensures forall t :: Manual(Cancel(s, id).ledger, t) == Manual(s.ledger, t)
  {
    if id in s.covers {
      RemoveCoverKeepsInv(s, id);
      SetStatusKeepsInv(RemoveCover(s, id), id, Cancelled);
    } else {
      SetStatusKeepsInv(s, id, Cancelled);
    }
  }

  lemma SetLockKeepsInv(s: State, id: int, locked: bool)
    requires Inv(s) && id in s.covers
    ensures Inv(s.(covers := s.covers[id := s.covers[id].(locked := locked)]))
  {
    var r := s.(covers := s.covers[id := s.covers[id].(locked := locked)]);
    forall t, i ensures Tagged(r.ledger, t, i) == Stake(r, t, i) {
      assert Tagged(s.ledger, t, i) == Stake(s, t, i);
    }
    forall t ensures Balance(r, t) == Total(r.ledger, t) {
      assert Balance(s, t) == Total(s.ledger, t);
    }
  }

  // The laws hold and manual sums moved as the command says.
  ghost predicate KeptBy(s: State, r: State, c: Command) {
    Inv(r) && forall t :: Manual(r.ledger, t) == Manual(s.ledger, t) + AdjustsBy(c, t)
  }

  lemma FilingStepKeepsInv(w: World, s: State, c: Command)
    requires Inv(s) && Accepted(w, s, c) && (c.Submit? || c.SubmitBatch? || c.SubmitByAdmin?)
    ensures KeptBy(s, Step(w, s, c), c)
  {
    match c
    case Submit(t, d, p, pick) => FileLeavesKeepsInv(w, s, t, d, [p], SubmittedStatus(w), [pick]);
    case SubmitBatch(t, d, whole, ps, picks) =>
      FileLeavesKeepsInv(w, s, t, d, BatchPeriods(w, t, d, whole, ps), SubmittedStatus(w), picks);
    case SubmitByAdmin(t, d, whole, ps, picks) =>
      FileLeavesKeepsInv(w, s, t, d, BatchPeriods(w, t, d, whole, ps), Approved, picks);
  }

  lemma DecisionStepKeepsInv(w: World, s: State, c: Command)
    requires Inv(s) && Accepted(w, s, c) && (c.Approve? || c.Reject? || c.CancelByTeacher? || c.CancelByAdmin?)
    ensures KeptBy(s, Step(w, s, c), c)
  {
    match c
    case Approve(id, pick) =>
      SetStatusKeepsInv(s, id, Approved);
      AutoCoverKeepsInv(w, SetStatus(s, id, Approved), id, pick);
      forall t ensures Manual(Step(w, s, c).ledger, t) == Manual(s.ledger, t) {
        AutoCoverKeepsManual(w, SetStatus(s, id, Approved), id, pick, t);
      }
    case Reject(id) => SetStatusKeepsInv(s, id, Rejected);
    case CancelByTeacher(id, _) => CancelKeepsInv(s, id);
    case CancelByAdmin(id) => CancelKeepsInv(s, id);
  }

  lemma CoverStepKeepsInv(w: World, s: State, c: Command)
    requires Inv(s) && Accepted(w, s, c) && (c.Assign? || c.Override?)
    ensures KeptBy(s, Step(w, s, c), c)
  {
    match c
    case Assign(id, sub, how, _) => AddCoverKeepsInv(s, id, sub, how);
    case Override(id, sub, _) => ReplaceCoverKeepsInv(s, id, sub);
  }

  lemma RemovalStepKeepsInv(w: World, s: State, c: Command)
    requires Inv(s) && Accepted(w, s, c) && (c.Undo? || c.SetLock? || c.ClearByTeacher?)
    ensures KeptBy(s, Step(w, s, c), c)
  {
    match c
    case Undo(id) => RemoveCoverKeepsInv(s, id);
    case SetLock(id, locked) => SetLockKeepsInv(s, id, locked);
    case ClearByTeacher(t) => ClearBelowKeepsInv(s, t, s.nextId);
  }

  lemma AdjustStepKeepsInv(w: World, s: State, c: Command)
    requires Inv(s) && Accepted(w, s, c) && c.Adjust?
    ensures KeptBy(s, Step(w, s, c), c)
  {
    AdjustKeepsInv(s, c.teacher, c.change);
    CreditSums(s, c.teacher, c.change, ManualAdjustment, None);
  }

  // A refused command changes nothing, and an adjustment is refused exactly when
  // it would not count.
  lemma RefusedStepKeepsInv(w: World, s: State, c: Command)
    requires Inv(s) && !Accepted(w, s, c)
    ensures KeptBy(s, Step(w, s, c), c)
  {
    assert forall t :: AdjustsBy(c, t) == 0;
  }

  lemma AnyStepKeepsInv(w: World, s: State, c: Command)
    requires Inv(s)
    ensures KeptBy(s, Step(w, s, c), c)
  {
    if !Accepted(w, s, c) {
      RefusedStepKeepsInv(w, s, c);
    } else if c.Submit? || c.SubmitBatch? || c.SubmitByAdmin? {
      FilingStepKeepsInv(w, s, c);
    } else if c.Approve? || c.Reject? || c.CancelByTeacher? || c.CancelByAdmin? {
      DecisionStepKeepsInv(w, s, c);
    } else if c.Adjust? {
      AdjustStepKeepsInv(w, s, c);
    } else if c.Assign? || c.Override? {
      CoverStepKeepsInv(w, s, c);
    } else {
      RemovalStepKeepsInv(w, s, c);
    }
  }

  /** Every operation, whatever it reads and whether or not it is refused,
      keeps all the laws; only an accepted adjustment changes a teacher's manual
      sum, by exactly its amount. */
  lemma StepKeepsInv(w: World, s: State, c: Command)
    requires Inv(s)
    ensures Inv(Step(w, s, c))
    ensures forall t :: Manual(Step(w, s, c).ledger, t) == Manual(s.ledger, t) + AdjustsBy(c, t)
  {
    AnyStepKeepsInv(w, s, c);
  }

  lemma EmptyInv()
    ensures Inv(EMPTY)
  {
  }

  /** Every state reachable by any run of operations satisfies all the laws. */
  lemma {:induction false} RunKeepsInv(s: State, events: seq<Event>)
    requires Inv(s)
    ensures Inv(Run(s, events))
    decreases events
  {
    if events != [] {
      StepKeepsInv(events[0].world, s, events[0].command);
      RunKeepsInv(Step(events[0].world, s, events[0].command), events[1..]);
    }
  }
}
