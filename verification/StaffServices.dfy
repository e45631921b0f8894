/**
The staff leave service over its tables: every operation is the step of the
staff-leave machine it stands for.
*/
module StaffServices {
  import opened Options
  import opened StaffLeaves
  import opened StaffLaws
  import opened StaffTheorems
  import opened StaffRules

  function Answer(refusal: Option<StaffError>): Outcome<StaffError> {
    match refusal
    case None => Done
    case Some(e) => Refused(e)
  }

  class StaffService {
    const staff: set<int>
    var leaves: map<int, StaffLeave>
    var accounts: map<int, Account>
    var ledger: seq<Tx>
    var nextId: nat

    function Now(): State
      reads this
    {
      State(staff, leaves, accounts, ledger, nextId)
    }

    ghost predicate Valid()
      reads this
    {
      Inv(Now())
    }

    constructor (staff: set<int>)
      ensures this.staff == staff && Valid() && Now() == Fresh(staff)
    {
      this.staff := staff;
      leaves, accounts, ledger, nextId := map[], map[], [], 1;
      new;
      FreshInv(staff);
    }

    method GetOrCreateAccount(member: int) returns (account: Account)
      modifies this`accounts, this`ledger
      ensures Now() == Open(old(Now()), member) && account == accounts[member]
    {
      if member !in accounts {
        accounts := accounts[member := Account(OPENING_BALANCE, OPENING_BALANCE)];
        ledger := ledger + [Tx(member, OPENING_BALANCE, OPENING_BALANCE, Opening, None)];
      }
      account := accounts[member];
    }

    method Book(member: int, change: real, category: Category, leave: Option<int>)
      requires member in accounts
      modifies this`accounts, this`ledger
      ensures Now() == Post(old(Now()), member, change, category, leave)
    {
      var newBalance := Round1(accounts[member].balance + change);
      accounts := accounts[member := accounts[member].(balance := newBalance)];
      ledger := ledger + [Tx(member, change, newBalance, category, leave)];
    }

    // Books the days of a leave and moves it to its new status.
    method BookLeave(id: int, change: real, category: Category, status: Status)
      requires id in leaves
      modifies this`leaves, this`accounts, this`ledger
      ensures var t := old(leaves)[id].staff;
              Now() == SetStatus(Post(Open(old(Now()), t), t, change, category, Some(id)), id, status)
    {
      var leave := leaves[id];
      var _ := GetOrCreateAccount(leave.staff);
      Book(leave.staff, change, category, Some(id));
      leaves := leaves[id := leave.(status := status)];
    }

    // The checks of an application, in the order they are made.
    method CheckApplication(member: int, first: int, last: int, half: bool) returns (refusal: Option<StaffError>)
      ensures refusal == Refusal(Now(), Apply(member, first, last, half))
    {
      if member !in staff {
        return Some(NoSuchStaff);
      }
      if first > last {
        return Some(BadRange);
      }
      if half && first != last {
        return Some(HalfDayRange);
      }
      if Overlaps(Now(), member, first, last) {
        return Some(Overlap);
      }
      refusal := None;
    }

    // One more pending leave, of half a day or of as many days as it has dates.
    method StoreLeave(member: int, first: int, last: int, half: bool)
      requires first <= last
      modifies this`leaves, this`nextId
      ensures nextId == old(nextId) + 1
      ensures leaves == old(leaves)[old(nextId) :=
                          StaffLeave(member, first, last, half, DaysCount(first, last, half), Pending)]
    {
      var days := if half then 0.5 else (last - first + 1) as real;
      leaves := leaves[nextId := StaffLeave(member, first, last, half, days, Pending)];
      nextId := nextId + 1;
    }

    method ApplyLeave(member: int, first: int, last: int, half: bool) returns (outcome: Outcome<StaffError>)
      requires Valid()
      modifies this
      ensures Valid()
      ensures var c := Apply(member, first, last, half);
              Now() == Step(old(Now()), c) && outcome == Answer(Refusal(old(Now()), c))
      ensures outcome.Done? ==>
                var days := if half then 0.5 else |Days(first, last + 1)| as real;
                leaves == old(leaves)[old(nextId) := StaffLeave(member, first, last, half, days, Pending)]
    {
      ghost var next := Step(Now(), Apply(member, first, last, half));
      StepKeepsInv(Now(), Apply(member, first, last, half));
      var refusal := CheckApplication(member, first, last, half);
      if refusal.Some? {
        return Refused(refusal.value);
      }
      CountedDays(first, last, half);
      StoreLeave(member, first, last, half);
      assert Now() == next;
      outcome := Done;
    }

    method ApproveLeave(id: int) returns (outcome: Outcome<StaffError>)
      requires Valid()
      modifies this
      ensures Valid()
      ensures Now() == Step(old(Now()), Approve(id)) && outcome == Answer(Refusal(old(Now()), Approve(id)))
    {
      StepKeepsInv(Now(), Approve(id));
      if id !in leaves {
        return Refused(NoSuchLeave);
      }
      var leave := leaves[id];
      if leave.status != Pending {
        return Refused(NotPending);
      }
      if leave.staff !in staff {
        return Refused(NoSuchStaff);
      }
      BookLeave(id, -leave.days, Deduction, Status.Approved);
      outcome := Done;
    }

    method RejectLeave(id: int) returns (outcome: Outcome<StaffError>)
      requires Valid()
      modifies this
      ensures Valid()
      ensures Now() == Step(old(Now()), Reject(id)) && outcome == Answer(Refusal(old(Now()), Reject(id)))
    {
      StepKeepsInv(Now(), Reject(id));
      if id !in leaves {
        return Refused(NoSuchLeave);
      }
      if leaves[id].status != Pending {
        return Refused(NotPending);
      }
      leaves := leaves[id := leaves[id].(status := Rejected)];
      outcome := Done;
    }

    method CancelStaffLeave(id: int) returns (outcome: Outcome<StaffError>)
      requires Valid()
      modifies this
      ensures Valid()
      ensures Now() == Step(old(Now()), CancelLeave(id)) && outcome == Answer(Refusal(old(Now()), CancelLeave(id)))
    {
      StepKeepsInv(Now(), CancelLeave(id));
      if id !in leaves {
        return Refused(NoSuchLeave);
      }
      var leave := leaves[id];
      if leave.status != Pending && leave.status != Status.Approved {
        return Refused(NotActive);
      }
      if leave.staff !in staff {
        return Refused(NoSuchStaff);
      }
      if leave.status == Status.Approved {
        BookLeave(id, leave.days, Refund, Cancelled);
      } else {
        leaves := leaves[id := leave.(status := Cancelled)];
      }
      outcome := Done;
    }

    method AdjustCredit(member: int, change: real, name: string) returns (outcome: Outcome<StaffError>)
      requires Valid()
      modifies this
      ensures Valid()
      ensures var c := Adjust(member, change, name);
              Now() == Step(old(Now()), c) && outcome == Answer(Refusal(old(Now()), c))
    {
      StepKeepsInv(Now(), Adjust(member, change, name));
      if member !in staff {
        return Refused(NoSuchStaff);
      }
      var _ := GetOrCreateAccount(member);
      Book(member, change, Adjustment(name), None);
      outcome := Done;
    }

    method ReplaceQuota(member: int, quota: real, adjustBalance: bool)
      modifies this`accounts, this`ledger
      ensures Now() == ChangeQuota(old(Now()), member, quota, adjustBalance)
    {
      var account := GetOrCreateAccount(member);
      var diff := Round1(quota - ReadQuota(account.quota));
      accounts := accounts[member := account.(quota := quota)];
      if adjustBalance && diff != 0.0 {
        Book(member, diff, QuotaChange, None);
      }
    }

    method UpdateQuota(member: int, quota: real, adjustBalance: bool) returns (outcome: Outcome<StaffError>)
      requires Valid()
      modifies this
      ensures Valid()
      ensures var c := SetQuota(member, quota, adjustBalance);
              Now() == Step(old(Now()), c) && outcome == Answer(Refusal(old(Now()), c))
    {
      StepKeepsInv(Now(), SetQuota(member, quota, adjustBalance));
      if member !in staff {
        return Refused(NoSuchStaff);
      }
      ReplaceQuota(member, quota, adjustBalance);
      outcome := Done;
    }

    // The two totals of the ledger view.
    method LedgerTotals(member: int) returns (taken: real, earned: real)
      ensures taken == TotalTaken(ledger, member) && earned == TotalEarned(ledger, member)
    {
      taken, earned := 0.0, 0.0;
      ghost var seen: seq<Tx> := [];
      for i := 0 to |ledger|
        invariant seen == ledger[..i] && taken == TotalTaken(seen, member) && earned == TotalEarned(seen, member)
      {
        var tx := ledger[i];
        if tx.staff == member && tx.change < 0.0 && tx.category.Label() == "leave_deduction" {
          taken := taken - tx.change;
        }
        if tx.staff == member && tx.change > 0.0 && tx.category.Label() != "opening_balance" {
          earned := earned + tx.change;
        }
        assert (seen + [tx])[..i] == seen;
        seen := seen + [tx];
      }
      assert seen == ledger;
    }

    // The ledger view opens the account if need be.
    method ViewLedger(member: int) returns (outcome: Outcome<StaffError>, summary: Option<Summary>)
      requires Valid()
      modifies this
      ensures Valid()
      ensures var c := Command.ViewLedger(member);
              Now() == Step(old(Now()), c) && outcome == Answer(Refusal(old(Now()), c))
      ensures outcome.Refused? ==> summary == None
      ensures outcome.Done? ==> member in accounts && summary == Some(SummaryOf(Now(), member))
    {
      StepKeepsInv(Now(), Command.ViewLedger(member));
      if member !in staff {
        return Refused(NoSuchStaff), None;
      }
      var account := GetOrCreateAccount(member);
      var taken, earned := LedgerTotals(member);
      summary := Some(Summary(ReadQuota(account.quota), account.balance, Round1(taken), Round1(earned)));
      outcome := Done;
    }
  }
}
