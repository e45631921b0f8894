/**
Staff leaves in the terms of those who use them: when an application is accepted and
what it stores, how a leave moves, and what approved leave costs in dates.
*/
module StaffRules {
  import opened Options
  import opened StaffLeaves
  import opened StaffLaws
  import opened StaffTheorems

  // ----- Rounding -----

  function Distance(x: real, y: real): real { if x <= y then y - x else x - y }

  /** Rounding gives the nearest number of one decimal; of two that are equally near,
      the one with the even last digit. */
  lemma RoundingIsNearest(x: real, n: int)
    ensures var r := Round1(x);
            && Distance(r, x) <= Distance(n as real / 10.0, x)
            && (Distance(r, x) == Distance(n as real / 10.0, x) && r != n as real / 10.0 ==> (r * 10.0).Floor % 2 == 0)
  {
    var f := (x * 10.0).Floor;
    var m := if Round1(x) == f as real / 10.0 then f else f + 1;
    assert Round1(x) == m as real / 10.0 && Round1(x) * 10.0 == m as real;
    if n <= f {
      assert n as real / 10.0 <= f as real / 10.0 <= x;
    } else {
      assert x <= (f + 1) as real / 10.0 <= n as real / 10.0;
    }
  }

  // ----- Applying -----

  ghost predicate SharesDate(l: StaffLeave, first: int, last: int) {
    exists d :: d in DatesOf(l) && first <= d <= last
  }

  lemma SharesDateIff(l: StaffLeave, first: int, last: int)
    requires l.first <= l.last && first <= last
    ensures SharesDate(l, first, last) <==> l.first <= last && l.last >= first
  {
    var d := if first <= l.first then l.first else first;
    if l.first <= last && l.last >= first {
      assert d in DatesOf(l);
    }
  }

  lemma OverlapsIff(s: State, staff: int, first: int, last: int)
    requires Bookings(s) && first <= last
    ensures Overlaps(s, staff, first, last)
       <==> exists id :: id in s.leaves && s.leaves[id].staff == staff && Active(s.leaves[id])
                         && SharesDate(s.leaves[id], first, last)
  {
    forall id | id in s.leaves
      ensures SharesDate(s.leaves[id], first, last) <==> s.leaves[id].first <= last && s.leaves[id].last >= first
    {
      SharesDateIff(s.leaves[id], first, last);
    }
  }

  /** An application is accepted if and only if the member exists, the dates are in
      order, a half day is a single date, and no pending or approved leave of the
      member shares a date with it. */
  lemma ApplyAcceptedIff(s: State, staff: int, first: int, last: int, half: bool)
    requires Bookings(s)
    ensures Refusal(s, Apply(staff, first, last, half)) == None
       <==> staff in s.staff && first <= last && (half ==> first == last)
            && forall id :: id in s.leaves && s.leaves[id].staff == staff && SharesDate(s.leaves[id], first, last)
                 ==> s.leaves[id].status == Rejected || s.leaves[id].status == Cancelled
  {
    if first <= last {
      OverlapsIff(s, staff, first, last);
    }
  }

  // Half a day, or as many days as there are dates.
  lemma CountedDays(first: int, last: int, half: bool)
    requires first <= last
    ensures DaysCount(first, last, half) == if half then 0.5 else |Days(first, last + 1)| as real
  {
  }

  /** An accepted application adds one pending leave, of half a day or of as many days
      as it has dates, and leaves everything else as it was. */
  lemma ApplyStores(s: State, staff: int, first: int, last: int, half: bool)
    requires Inv(s) && Refusal(s, Apply(staff, first, last, half)) == None
    ensures var r := Step(s, Apply(staff, first, last, half));
            var days := if half then 0.5 else |Days(first, last + 1)| as real;
            && s.nextId !in s.leaves
            && r.leaves == s.leaves[s.nextId := StaffLeave(staff, first, last, half, days, Pending)]
            && r.accounts == s.accounts && r.ledger == s.ledger
  {
    CountedDays(first, last, half);
  }

  // ----- How a leave moves -----

  predicate Moves(l: StaffLeave, c: Command, id: int, status: Status) {
    match status
    case Pending => false
    case Approved => l.status == Pending && c == Approve(id)
    case Rejected => l.status == Pending && c == Reject(id)
    case Cancelled => (l.status == Pending || l.status == Approved) && c == CancelLeave(id)
  }

  /** A stored leave moves to another status if and only if it is approved or rejected
      while pending, or cancelled while pending or approved; nothing else of it ever
      changes. */
  lemma StatusMovesIff(s: State, c: Command, id: int, status: Status)
    requires Inv(s) && id in s.leaves && status != s.leaves[id].status
    ensures id in Step(s, c).leaves
    ensures Step(s, c).leaves[id] == s.leaves[id].(status := Step(s, c).leaves[id].status)
    ensures Step(s, c).leaves[id].status == status <==> Moves(s.leaves[id], c, id, status)
  {
    LeavesAfter(s, c);
  }

  // What a step does to the leaves table.
  lemma LeavesAfter(s: State, c: Command)
    ensures Step(s, c).leaves
         == if Refusal(s, c) != None then s.leaves
            else match c
                 case Apply(staff, first, last, half) =>
                   s.leaves[s.nextId := StaffLeave(staff, first, last, half, DaysCount(first, last, half), Pending)]
                 case Approve(id) => s.leaves[id := s.leaves[id].(status := Approved)]
                 case Reject(id) => s.leaves[id := s.leaves[id].(status := Rejected)]
                 case CancelLeave(id) => s.leaves[id := s.leaves[id].(status := Cancelled)]
                 case _ => s.leaves
  {
  }

  // What an error says of the request.
  ghost predicate Tells(s: State, c: Command, e: StaffError) {
    match e
    case NoSuchStaff => (c.Apply? || c.Adjust? || c.SetQuota? || c.ViewLedger?) && c.staff !in s.staff
    case BadRange => c.Apply? && c.first > c.last
    case HalfDayRange => c.Apply? && c.half && c.first != c.last
    case Overlap =>
      c.Apply? && exists id :: id in s.leaves && s.leaves[id].staff == c.staff
                               && SharesDate(s.leaves[id], c.first, c.last)
                               && (s.leaves[id].status == Pending || s.leaves[id].status == Approved)
    case NoSuchLeave => (c.Approve? || c.Reject? || c.CancelLeave?) && c.id !in s.leaves
    case NotPending => (c.Approve? || c.Reject?) && c.id in s.leaves && s.leaves[c.id].status != Pending
    case NotActive =>
      c.CancelLeave? && c.id in s.leaves && (s.leaves[c.id].status == Rejected || s.leaves[c.id].status == Cancelled)
  }

  /** Every refusal is true, and every request that could be told one is refused. */
  lemma RefusedIff(s: State, c: Command)
    requires Inv(s)
    ensures Refusal(s, c).Some? ==> Tells(s, c, Refusal(s, c).value)
    ensures Refusal(s, c).Some? <==> exists e :: Tells(s, c, e)
  {
    if c.Apply? {
      if c.first <= c.last {
        OverlapsIff(s, c.staff, c.first, c.last);
      }
    }
    if Refusal(s, c).Some? {
      assert Tells(s, c, Refusal(s, c).value);
    } else if e :| Tells(s, c, e) {
      NoTruthIsAccepted(s, c, e);
    }
  }

  lemma NoTruthIsAccepted(s: State, c: Command, e: StaffError)
    requires Inv(s) && Tells(s, c, e)
    ensures Refusal(s, c).Some?
  {
    if e == Overlap && c.first <= c.last {
      OverlapsIff(s, c.staff, c.first, c.last);
    }
  }

  // ----- What approved leave costs -----

  // In every reachable state.
  lemma ReachableInv(members: set<int>, commands: seq<Command>)
    ensures Inv(Run(Fresh(members), commands))
  {
    FreshInv(members);
    RunKeepsInv(Fresh(members), commands);
  }

  /** In every reachable state a leave counts half a day, or the number of dates it
      covers. */
  lemma LeaveDaysAre(members: set<int>, commands: seq<Command>, id: int)
    ensures var s := Run(Fresh(members), commands);
            id in s.leaves ==>
              && DatesOf(s.leaves[id]) != {}
              && s.leaves[id].days == if s.leaves[id].half then 0.5 else |DatesOf(s.leaves[id])| as real
  {
    ReachableInv(members, commands);
    var s := Run(Fresh(members), commands);
    if id in s.leaves {
      assert s.leaves[id].first in DatesOf(s.leaves[id]);
    }
  }

  predicate ApprovedFor(s: State, staff: int, id: int, half: bool) {
    id in s.leaves && s.leaves[id].staff == staff && s.leaves[id].status == Approved && s.leaves[id].half == half
  }

  // The dates of the first n leaves that are approved full-day leaves.
  function FullDates(s: State, staff: int, n: nat): set<int> {
    if n == 0 then {}
    else FullDates(s, staff, n - 1) + (if ApprovedFor(s, staff, n - 1, false) then DatesOf(s.leaves[n - 1]) else {})
  }

  function HalfDays(s: State, staff: int, n: nat): nat {
    if n == 0 then 0 else HalfDays(s, staff, n - 1) + (if ApprovedFor(s, staff, n - 1, true) then 1 else 0)
  }

  lemma {:induction false} FullDatesAre(s: State, staff: int, n: nat, d: int)
    ensures d in FullDates(s, staff, n)
       <==> exists id :: 0 <= id < n && ApprovedFor(s, staff, id, false)
                         && s.leaves[id].first <= d <= s.leaves[id].last
  {
    if n > 0 {
      FullDatesAre(s, staff, n - 1, d);
    }
  }

  lemma FullDatesApart(s: State, staff: int, n: nat)
    requires Bookings(s) && ApprovedFor(s, staff, n, false)
    ensures FullDates(s, staff, n) !! DatesOf(s.leaves[n])
  {
    forall d | d in FullDates(s, staff, n) ensures d !in DatesOf(s.leaves[n]) {
      FullDatesAre(s, staff, n, d);
      var id :| 0 <= id < n && ApprovedFor(s, staff, id, false) && s.leaves[id].first <= d <= s.leaves[id].last;
    }
  }

  lemma {:induction false} ApprovedDaysAreDates(s: State, staff: int, n: nat)
    requires Bookings(s)
    ensures ApprovedDays(s, staff, n)
         == |FullDates(s, staff, n)| as real + 0.5 * HalfDays(s, staff, n) as real
  {
    if n > 0 {
      ApprovedDaysAreDates(s, staff, n - 1);
      NextLeaveCosts(s, staff, n - 1);
      var more := HalfDays(s, staff, n) - HalfDays(s, staff, n - 1);
      assert HalfDays(s, staff, n) as real == HalfDays(s, staff, n - 1) as real + more as real;
    }
  }

  lemma NextLeaveCosts(s: State, staff: int, n: nat)
    requires Bookings(s)
    ensures |FullDates(s, staff, n + 1)|
         == |FullDates(s, staff, n)| + if ApprovedFor(s, staff, n, false) then |DatesOf(s.leaves[n])| else 0
    ensures -LeaveChange(s, staff, n)
         == (if ApprovedFor(s, staff, n, false) then |DatesOf(s.leaves[n])| as real else 0.0)
            + (if ApprovedFor(s, staff, n, true) then 0.5 else 0.0)
  {
    if ApprovedFor(s, staff, n, false) {
      FullDatesApart(s, staff, n);
      var before, dates := FullDates(s, staff, n), DatesOf(s.leaves[n]);
      assert |before + dates| == |before| + |dates|;
    }
  }

  /** In every reachable state the balance is 12, plus adjustments and quota changes,
      minus one for each date of an approved full-day leave and a half for each
      approved half day: exactly when every adjustment has one decimal, and up to
      0.05 per adjustment otherwise. */
  lemma BalanceCostsDates(members: set<int>, commands: seq<Command>, staff: int)
    ensures var s := Run(Fresh(members), commands);
            staff in s.accounts ==>
              var expected := 12.0 + Sum(s.ledger, staff, Adjustments) + Sum(s.ledger, staff, Quotas)
                              - |FullDates(s, staff, s.nextId)| as real - 0.5 * HalfDays(s, staff, s.nextId) as real;
              var slack := 0.05 * AdjustmentCount(s.ledger, staff) as real;
              && expected - slack <= s.accounts[staff].balance <= expected + slack
              && (AdjustmentsOneDecimal(s.ledger, staff) ==> s.accounts[staff].balance == expected)
  {
    ReachableInv(members, commands);
    var s := Run(Fresh(members), commands);
    if staff in s.accounts {
      BalanceAccountsForLeaves(s, staff);
      ApprovedDaysAreDates(s, staff, s.nextId);
    }
  }

  /** For instance: five days approved in one leave leave seven of the twelve. */
  lemma FiveDaysCostFive()
    ensures var s := Run(Fresh({1}), [Apply(1, 10, 14, false), Approve(1)]);
            1 in s.accounts && s.accounts[1].balance == 7.0
  {
    var s0 := Fresh({1});
    var c := [Apply(1, 10, 14, false), Approve(1)];
    var s1 := Step(s0, c[0]);
    assert s1.leaves[1] == StaffLeave(1, 10, 14, false, 5.0, Pending);
    var s2 := Step(s1, c[1]);
    OneDecimalIs(7.0, 70);
    RoundingIsClose(7.0);
    assert s2.accounts[1].balance == Round1(12.0 - 5.0);
    assert c[1..] == [Approve(1)] && c[1..][1..] == [];
    assert Run(s0, c) == Run(s1, c[1..]) == Run(s2, []) == s2;
  }
}
