/**
What every run of staff-leave operations keeps: disjoint bookings, a ledger
whose last row is the balance, and a balance that accounts for every change.
*/
module StaffLaws {
  import opened Options
  import opened StaffLeaves

  // ----- Sums over one staff member's ledger rows -----

  datatype Pick =
    | All | Adjustments | Quotas | Deductions | Refunds | Untagged | OfLeave(id: int)
    | HandDeductions | HandGains | QuotaGains

  predicate Picks(pick: Pick, tx: Tx) {
    match pick
    case All => true
    case Adjustments => tx.category.Adjustment?
    case Quotas => tx.category.QuotaChange?
    case Deductions => tx.category.Deduction?
    case Refunds => tx.category.Refund?
    case Untagged => tx.leave.None?
    case OfLeave(id) => tx.leave == Some(id)
    // Adjustments that the summary takes for leave, or for credits earned.
    case HandDeductions => tx.category.Adjustment? && tx.category.name == "leave_deduction" && tx.change < 0.0
    case HandGains => tx.category.Adjustment? && tx.category.name != "opening_balance" && tx.change > 0.0
    case QuotaGains => tx.category.QuotaChange? && tx.change > 0.0
  }

  function Sum(ledger: seq<Tx>, staff: int, pick: Pick): real {
    if ledger == [] then 0.0
    else
      var tx := ledger[|ledger| - 1];
      Sum(ledger[..|ledger| - 1], staff, pick) + (if tx.staff == staff && Picks(pick, tx) then tx.change else 0.0)
  }

  function AdjustmentCount(ledger: seq<Tx>, staff: int): nat {
    if ledger == [] then 0
    else
      var tx := ledger[|ledger| - 1];
      AdjustmentCount(ledger[..|ledger| - 1], staff) + (if tx.staff == staff && tx.category.Adjustment? then 1 else 0)
  }

  // The balance recorded by the last row of a staff member.
  function LastAfter(ledger: seq<Tx>, staff: int): Option<real> {
    if ledger == [] then None
    else if ledger[|ledger| - 1].staff == staff then Some(ledger[|ledger| - 1].after)
    else LastAfter(ledger[..|ledger| - 1], staff)
  }

  // A row follows from the rows before it: an opening row starts an account,
  // any other row adds its change to the last balance and rounds.
  predicate Follows(before: seq<Tx>, tx: Tx) {
    match LastAfter(before, tx.staff)
    case None => tx == Tx(tx.staff, OPENING_BALANCE, OPENING_BALANCE, Opening, None)
    case Some(b) =>
      && tx.category != Opening && tx.after == Round1(b + tx.change)
      && (tx.category.Adjustment? || OneDecimal(tx.change))
      && (tx.leave.Some? <==> tx.category == Deduction || tx.category == Refund)
      && (tx.category == Deduction ==> tx.change < 0.0)
      && (tx.category == Refund ==> tx.change > 0.0)
  }

  predicate Chained(ledger: seq<Tx>) {
    ledger == [] || (Chained(ledger[..|ledger| - 1]) && Follows(ledger[..|ledger| - 1], ledger[|ledger| - 1]))
  }

  /** In every chained ledger the last recorded balance has one decimal and
      differs from the sum of all changes by at most 0.05 per adjustment. */
  lemma {:induction false} DriftIsBounded(ledger: seq<Tx>, staff: int)
    requires Chained(ledger) && LastAfter(ledger, staff).Some?
    ensures OneDecimal(LastAfter(ledger, staff).value)
    ensures var drift := LastAfter(ledger, staff).value - Sum(ledger, staff, All);
            -0.05 * AdjustmentCount(ledger, staff) as real <= drift <= 0.05 * AdjustmentCount(ledger, staff) as real
  {
    var rest, tx := ledger[..|ledger| - 1], ledger[|ledger| - 1];
    if LastAfter(rest, staff).Some? {
      DriftIsBounded(rest, staff);
      if tx.staff == staff {
        var b := LastAfter(rest, staff).value;
        RoundingIsClose(b + tx.change);
        if !tx.category.Adjustment? {
          OneDecimalSum(b, tx.change);
        }
      }
    } else {
      NoRowsNoSum(rest, staff);
      OneDecimalIs(OPENING_BALANCE, 120);
    }
  }

  lemma {:induction false} NoRowsNoSum(ledger: seq<Tx>, staff: int)
    requires LastAfter(ledger, staff).None?
    ensures forall pick :: Sum(ledger, staff, pick) == 0.0
    ensures AdjustmentCount(ledger, staff) == 0
  {
    if ledger != [] {
      NoRowsNoSum(ledger[..|ledger| - 1], staff);
    }
  }

  ghost predicate AdjustmentsOneDecimal(ledger: seq<Tx>, staff: int) {
    forall k :: 0 <= k < |ledger| && ledger[k].staff == staff && ledger[k].category.Adjustment? ==>
      OneDecimal(ledger[k].change)
  }

  /** With one-decimal adjustments nothing is ever lost to rounding. */
  lemma {:induction false} ExactWithoutDrift(ledger: seq<Tx>, staff: int)
    requires Chained(ledger) && LastAfter(ledger, staff).Some? && AdjustmentsOneDecimal(ledger, staff)
    ensures LastAfter(ledger, staff).value == Sum(ledger, staff, All)
  {
    var rest, tx := ledger[..|ledger| - 1], ledger[|ledger| - 1];
    if LastAfter(rest, staff).Some? {
      ExactWithoutDrift(rest, staff);
      DriftIsBounded(rest, staff);
      if tx.staff == staff {
        var b := LastAfter(rest, staff).value;
        OneDecimalSum(b, tx.change);
        RoundingIsClose(b + tx.change);
      }
    } else {
      NoRowsNoSum(rest, staff);
    }
  }

  // ----- The invariant -----

  ghost predicate Bookings(s: State) {
    && (forall id :: id in s.leaves ==>
          && 0 <= id < s.nextId && s.leaves[id].staff in s.staff
          && s.leaves[id].first <= s.leaves[id].last
          && (s.leaves[id].half ==> s.leaves[id].first == s.leaves[id].last)
          && s.leaves[id].days == DaysCount(s.leaves[id].first, s.leaves[id].last, s.leaves[id].half))
    && (forall i, j :: i in s.leaves && j in s.leaves && i != j && Active(s.leaves[i]) && Active(s.leaves[j])
                       && s.leaves[i].staff == s.leaves[j].staff
                       ==> s.leaves[i].last < s.leaves[j].first || s.leaves[j].last < s.leaves[i].first)
  }

  function LeaveChange(s: State, staff: int, id: int): real {
    if id in s.leaves && s.leaves[id].staff == staff && s.leaves[id].status == Approved then -s.leaves[id].days else 0.0
  }

  ghost predicate Books(s: State) {
    && Chained(s.ledger)
    && (forall staff :: LastAfter(s.ledger, staff)
                     == if staff in s.accounts then Some(s.accounts[staff].balance) else None)
    && (forall staff, id :: Sum(s.ledger, staff, OfLeave(id)) == LeaveChange(s, staff, id))
    && (forall k :: 0 <= k < |s.ledger| && s.ledger[k].leave.Some? ==> 0 <= s.ledger[k].leave.value < s.nextId)
  }

  ghost predicate Inv(s: State) {
    Bookings(s) && Books(s)
  }

  lemma DaysOneDecimal(first: int, last: int, half: bool)
    ensures OneDecimal(DaysCount(first, last, half)) && OneDecimal(-DaysCount(first, last, half))
    ensures first <= last ==> DaysCount(first, last, half) > 0.0
  {
    if half { OneDecimalIs(0.5, 5); OneDecimalIs(-0.5, -5); }
    else {
      OneDecimalIs(DaysCount(first, last, half), (last - first + 1) * 10);
      OneDecimalIs(-DaysCount(first, last, half), -(last - first + 1) * 10);
    }
  }

  // A row appended to the ledger.
  lemma Appended(ledger: seq<Tx>, tx: Tx)
    ensures Chained(ledger + [tx]) <==> Chained(ledger) && Follows(ledger, tx)
    ensures forall t :: LastAfter(ledger + [tx], t) == if t == tx.staff then Some(tx.after) else LastAfter(ledger, t)
    ensures forall t, pick :: Sum(ledger + [tx], t, pick)
                           == Sum(ledger, t, pick) + if t == tx.staff && Picks(pick, tx) then tx.change else 0.0
  {
    assert (ledger + [tx])[..|ledger|] == ledger;
  }

  lemma OpenKeepsInv(s: State, staff: int)
    requires Inv(s) && staff in s.staff
    ensures Inv(Open(s, staff)) && Open(s, staff).leaves == s.leaves
  {
    if staff !in s.accounts {
      var r := Open(s, staff);
      Appended(s.ledger, Tx(staff, OPENING_BALANCE, OPENING_BALANCE, Opening, None));
      forall t, id ensures Sum(r.ledger, t, OfLeave(id)) == LeaveChange(r, t, id) {
        assert Sum(s.ledger, t, OfLeave(id)) == LeaveChange(s, t, id);
      }
    }
  }

  // A row posted together with what it does to the leaves table.
  lemma PostKeepsBooks(s: State, r: State, staff: int, change: real, category: Category, leave: Option<int>)
    requires Inv(s) && staff in s.accounts
    requires category != Opening && (category.Adjustment? || OneDecimal(change))
    requires leave.Some? <==> category == Deduction || category == Refund
    requires category == Deduction ==> change < 0.0
    requires category == Refund ==> change > 0.0
    requires leave.Some? ==> 0 <= leave.value < s.nextId
    requires r == Post(s, staff, change, category, leave).(leaves := r.leaves)
    requires forall t, id :: LeaveChange(r, t, id)
                          == LeaveChange(s, t, id) + if t == staff && leave == Some(id) then change else 0.0
    ensures Books(r)
  {
    var tx := Tx(staff, change, Round1(s.accounts[staff].balance + change), category, leave);
    Appended(s.ledger, tx);
    forall t ensures LastAfter(r.ledger, t) == if t in r.accounts then Some(r.accounts[t].balance) else None {
      assert LastAfter(s.ledger, t) == if t in s.accounts then Some(s.accounts[t].balance) else None;
    }
    forall t, id ensures Sum(r.ledger, t, OfLeave(id)) == LeaveChange(r, t, id) {
      assert Sum(s.ledger, t, OfLeave(id)) == LeaveChange(s, t, id);
    }
  }

  lemma ApplyKeepsInv(s: State, c: Command)
    requires Inv(s) && c.Apply? && Refusal(s, c) == None
    ensures Inv(Effect(s, c))
  {
    var r := Effect(s, c);
    forall t, id ensures Sum(r.ledger, t, OfLeave(id)) == LeaveChange(r, t, id) {
      assert Sum(s.ledger, t, OfLeave(id)) == LeaveChange(s, t, id);
    }
  }

  // A leave that is not approved, before or after, stays out of the books.
  lemma SetStatusKeepsInv(s: State, id: int, status: Status)
    requires Inv(s) && id in s.leaves && s.leaves[id].status != Approved
    requires status == Rejected || status == Cancelled
    ensures Inv(SetStatus(s, id, status))
  {
    var r := SetStatus(s, id, status);
    forall t, i ensures Sum(r.ledger, t, OfLeave(i)) == LeaveChange(r, t, i) {
      assert Sum(s.ledger, t, OfLeave(i)) == LeaveChange(s, t, i);
    }
  }

  lemma StatusKeepsBookings(s: State, r: State, id: int, status: Status)
    requires Bookings(s) && id in s.leaves && Active(s.leaves[id])
    requires r.leaves == s.leaves[id := s.leaves[id].(status := status)]
    requires r.nextId == s.nextId && r.staff == s.staff
    ensures Bookings(r)
  {
  }

  lemma ApproveKeepsInv(s: State, id: int)
    requires Inv(s) && Refusal(s, Approve(id)) == None
    ensures Inv(Effect(s, Approve(id)))
  {
    var l := s.leaves[id];
    OpenKeepsInv(s, l.staff);
    DaysOneDecimal(l.first, l.last, l.half);
    StatusKeepsBookings(s, Effect(s, Approve(id)), id, Approved);
    PostKeepsBooks(Open(s, l.staff), Effect(s, Approve(id)), l.staff, -l.days, Deduction, Some(id));
  }

  lemma RefundKeepsInv(s: State, id: int)
    requires Inv(s) && Refusal(s, CancelLeave(id)) == None && s.leaves[id].status == Approved
    ensures Inv(Effect(s, CancelLeave(id)))
  {
    var l := s.leaves[id];
    OpenKeepsInv(s, l.staff);
    DaysOneDecimal(l.first, l.last, l.half);
    StatusKeepsBookings(s, Effect(s, CancelLeave(id)), id, Cancelled);
    PostKeepsBooks(Open(s, l.staff), Effect(s, CancelLeave(id)), l.staff, l.days, Refund, Some(id));
  }

  lemma CancelKeepsInv(s: State, id: int)
    requires Inv(s) && Refusal(s, CancelLeave(id)) == None
    ensures Inv(Effect(s, CancelLeave(id)))
  {
    if s.leaves[id].status == Approved {
      RefundKeepsInv(s, id);
    } else {
      SetStatusKeepsInv(s, id, Cancelled);
    }
  }

  lemma AdjustKeepsInv(s: State, staff: int, change: real, name: string)
    requires Inv(s) && staff in s.staff
    ensures Inv(Effect(s, Adjust(staff, change, name)))
  {
    OpenKeepsInv(s, staff);
    var s1 := Open(s, staff);
    PostKeepsBooks(s1, Post(s1, staff, change, Adjustment(name), None), staff, change, Adjustment(name), None);
  }

  lemma QuotaFieldKeepsInv(s: State, staff: int, quota: real)
    requires Inv(s) && staff in s.accounts
    ensures Inv(StoreQuota(s, staff, quota))
  {
    var r := StoreQuota(s, staff, quota);
    forall t ensures LastAfter(r.ledger, t) == if t in r.accounts then Some(r.accounts[t].balance) else None {
      assert LastAfter(s.ledger, t) == if t in s.accounts then Some(s.accounts[t].balance) else None;
    }
    forall t, id ensures Sum(r.ledger, t, OfLeave(id)) == LeaveChange(r, t, id) {
      assert Sum(s.ledger, t, OfLeave(id)) == LeaveChange(s, t, id);
    }
  }

  lemma QuotaPostKeepsInv(s: State, staff: int, diff: real)
    requires Inv(s) && staff in s.accounts && OneDecimal(diff)
    ensures Inv(Post(s, staff, diff, QuotaChange, None))
  {
    PostKeepsBooks(s, Post(s, staff, diff, QuotaChange, None), staff, diff, QuotaChange, None);
  }

  lemma QuotaDiffOneDecimal(s: State, staff: int, quota: real)
    requires staff in s.accounts
    ensures OneDecimal(QuotaDiff(s, staff, quota))
  {
    RoundingIsClose(quota - ReadQuota(s.accounts[staff].quota));
  }

  lemma SetQuotaKeepsInv(s: State, staff: int, quota: real, adjust: bool)
    requires Inv(s) && staff in s.staff
    ensures Inv(ChangeQuota(s, staff, quota, adjust))
  {
    var s1 := Open(s, staff);
    OpenKeepsInv(s, staff);
    QuotaFieldKeepsInv(s1, staff, quota);
    if adjust && QuotaDiff(s1, staff, quota) != 0.0 {
      QuotaDiffOneDecimal(s1, staff, quota);
      QuotaPostKeepsInv(StoreQuota(s1, staff, quota), staff, QuotaDiff(s1, staff, quota));
    }
  }

  /** Every operation keeps the bookings disjoint and the books in order. */
  lemma StepKeepsInv(s: State, c: Command)
    requires Inv(s)
    ensures Inv(Step(s, c))
  {
    if Refusal(s, c) == None {
      match c
      case Apply(_, _, _, _) => ApplyKeepsInv(s, c);
      case Approve(id) => ApproveKeepsInv(s, id);
      case Reject(id) => SetStatusKeepsInv(s, id, Rejected);
      case CancelLeave(id) => CancelKeepsInv(s, id);
      case Adjust(staff, change, name) => AdjustKeepsInv(s, staff, change, name);
      case SetQuota(staff, quota, adjust) => SetQuotaKeepsInv(s, staff, quota, adjust);
      case ViewLedger(staff) => OpenKeepsInv(s, staff);
    }
  }

  lemma {:induction false} RunKeepsInv(s: State, commands: seq<Command>)
    requires Inv(s)
    ensures Inv(Run(s, commands))
    decreases commands
  {
    if commands != [] {
      StepKeepsInv(s, commands[0]);
      RunKeepsInv(Step(s, commands[0]), commands[1..]);
    }
  }

  lemma FreshInv(staff: set<int>)
    ensures Inv(Fresh(staff))
  {
  }
}
