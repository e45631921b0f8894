/**
What a staff member's balance says after any run of operations, how much leave
fits into a window of days, and what the ledger summary reports.
*/
module StaffTheorems {
  import opened Options
  import opened StaffLeaves
  import opened StaffLaws

  // ----- The balance and the approved days -----

  function ApprovedDays(s: State, staff: int, n: nat): real {
    if n == 0 then 0.0 else ApprovedDays(s, staff, n - 1) - LeaveChange(s, staff, n - 1)
  }

  function SumOfLeaves(ledger: seq<Tx>, staff: int, n: nat): real {
    if n == 0 then 0.0 else SumOfLeaves(ledger, staff, n - 1) + Sum(ledger, staff, OfLeave(n - 1))
  }

  lemma {:induction false} SumOfLeavesStep(ledger: seq<Tx>, tx: Tx, staff: int, n: nat)
    ensures SumOfLeaves(ledger + [tx], staff, n) == SumOfLeaves(ledger, staff, n)
            + if tx.staff == staff && tx.leave.Some? && 0 <= tx.leave.value < n then tx.change else 0.0
  {
    if n > 0 {
      SumOfLeavesStep(ledger, tx, staff, n - 1);
      assert (ledger + [tx])[..|ledger|] == ledger;
    }
  }

  lemma {:induction false} EmptySumOfLeaves(staff: int, n: nat)
    ensures SumOfLeaves([], staff, n) == 0.0
  {
    if n > 0 {
      EmptySumOfLeaves(staff, n - 1);
    }
  }

  // Deductions and refunds, leave by leave.
  lemma {:induction false} LeaveRowsByLeave(ledger: seq<Tx>, staff: int, n: nat)
    requires Chained(ledger)
    requires forall k :: 0 <= k < |ledger| && ledger[k].leave.Some? ==> 0 <= ledger[k].leave.value < n
    ensures Sum(ledger, staff, Deductions) + Sum(ledger, staff, Refunds) == SumOfLeaves(ledger, staff, n)
  {
    if ledger == [] {
      EmptySumOfLeaves(staff, n);
    } else {
      var rest, tx := ledger[..|ledger| - 1], ledger[|ledger| - 1];
      assert ledger == rest + [tx];
      LeaveRowsByLeave(rest, staff, n);
      SumOfLeavesStep(rest, tx, staff, n);
    }
  }

  lemma {:induction false} SumsByCategory(ledger: seq<Tx>, staff: int)
    requires Chained(ledger) && LastAfter(ledger, staff).Some?
    ensures Sum(ledger, staff, All)
         == OPENING_BALANCE + Sum(ledger, staff, Adjustments) + Sum(ledger, staff, Quotas)
            + Sum(ledger, staff, Deductions) + Sum(ledger, staff, Refunds)
  {
    var rest, tx := ledger[..|ledger| - 1], ledger[|ledger| - 1];
    if LastAfter(rest, staff).Some? {
      SumsByCategory(rest, staff);
    } else {
      NoRowsNoSum(rest, staff);
      assert Sum(rest, staff, All) == Sum(rest, staff, Adjustments) == Sum(rest, staff, Quotas)
          == Sum(rest, staff, Deductions) == Sum(rest, staff, Refunds) == 0.0;
    }
  }

  lemma {:induction false} ApprovedDaysAreBooked(s: State, staff: int, n: nat)
    requires Inv(s)
    ensures SumOfLeaves(s.ledger, staff, n) == -ApprovedDays(s, staff, n)
  {
    if n > 0 {
      ApprovedDaysAreBooked(s, staff, n - 1);
      assert Sum(s.ledger, staff, OfLeave(n - 1)) == LeaveChange(s, staff, n - 1);
    }
  }

  /** The balance is 12 plus adjustments plus quota changes minus the days of
      the leaves approved now, up to 0.05 per adjustment; and exactly that when
      every adjustment has one decimal. */
  lemma BalanceAccountsForLeaves(s: State, staff: int)
    requires Inv(s) && staff in s.accounts
    ensures var expected := OPENING_BALANCE + Sum(s.ledger, staff, Adjustments) + Sum(s.ledger, staff, Quotas)
                            - ApprovedDays(s, staff, s.nextId);
            var slack := 0.05 * AdjustmentCount(s.ledger, staff) as real;
            && expected - slack <= s.accounts[staff].balance <= expected + slack
            && (AdjustmentsOneDecimal(s.ledger, staff) ==> s.accounts[staff].balance == expected)
  {
    assert LastAfter(s.ledger, staff) == Some(s.accounts[staff].balance);
    DriftIsBounded(s.ledger, staff);
    SumsByCategory(s.ledger, staff);
    LeaveRowsByLeave(s.ledger, staff, s.nextId);
    ApprovedDaysAreBooked(s, staff, s.nextId);
    if AdjustmentsOneDecimal(s.ledger, staff) {
      ExactWithoutDrift(s.ledger, staff);
    }
  }

  // ----- The summary of the ledger view -----

  function TakenBy(tx: Tx, staff: int): real {
    if tx.staff == staff && tx.change < 0.0 && tx.category.Label() == "leave_deduction" then -tx.change else 0.0
  }

  function TotalTaken(ledger: seq<Tx>, staff: int): real {
    if ledger == [] then 0.0
    else TotalTaken(ledger[..|ledger| - 1], staff) + TakenBy(ledger[|ledger| - 1], staff)
  }

  function EarnedBy(tx: Tx, staff: int): real {
    if tx.staff == staff && tx.change > 0.0 && tx.category.Label() != "opening_balance" then tx.change else 0.0
  }

  function TotalEarned(ledger: seq<Tx>, staff: int): real {
    if ledger == [] then 0.0
    else TotalEarned(ledger[..|ledger| - 1], staff) + EarnedBy(ledger[|ledger| - 1], staff)
  }

  lemma LabelsDiffer()
    ensures Opening.Label() != "leave_deduction" && Refund.Label() != "leave_deduction"
    ensures QuotaChange.Label() != "leave_deduction"
    ensures Deduction.Label() != "opening_balance" && Refund.Label() != "opening_balance"
    ensures QuotaChange.Label() != "opening_balance"
  {
    assert "opening_balance"[0] == 'o' && "leave_deduction"[0] == 'l';
    assert |"cancellation_refund"| == 19 && |"quota_adjustment"| == 16;
  }

  lemma {:induction false} TotalTakenIsDeductions(ledger: seq<Tx>, staff: int)
    requires Chained(ledger)
    ensures TotalTaken(ledger, staff) == -Sum(ledger, staff, Deductions) - Sum(ledger, staff, HandDeductions)
  {
    if ledger != [] {
      LabelsDiffer();
      TotalTakenIsDeductions(ledger[..|ledger| - 1], staff);
    }
  }

  lemma {:induction false} TotalEarnedIsGains(ledger: seq<Tx>, staff: int)
    requires Chained(ledger)
    ensures TotalEarned(ledger, staff)
         == Sum(ledger, staff, Refunds) + Sum(ledger, staff, QuotaGains) + Sum(ledger, staff, HandGains)
  {
    if ledger != [] {
      LabelsDiffer();
      TotalEarnedIsGains(ledger[..|ledger| - 1], staff);
    }
  }

  ghost predicate NoRow(ledger: seq<Tx>, staff: int, pick: Pick) {
    forall k :: 0 <= k < |ledger| ==> !(ledger[k].staff == staff && Picks(pick, ledger[k]))
  }

  lemma NoRowStep(ledger: seq<Tx>, staff: int, pick: Pick)
    requires ledger != []
    ensures NoRow(ledger, staff, pick)
       <==> NoRow(ledger[..|ledger| - 1], staff, pick)
            && !(ledger[|ledger| - 1].staff == staff && Picks(pick, ledger[|ledger| - 1]))
  {
    var rest := ledger[..|ledger| - 1];
    assert forall k :: 0 <= k < |rest| ==> ledger[k] == rest[k];
  }

  // Sums of rows of one sign vanish only without such rows.
  lemma {:induction false} RefundsArePositive(ledger: seq<Tx>, staff: int)
    requires Chained(ledger)
    ensures Sum(ledger, staff, Refunds) >= 0.0 >= Sum(ledger, staff, HandDeductions)
    ensures Sum(ledger, staff, Refunds) == 0.0 <==> NoRow(ledger, staff, Refunds)
    ensures Sum(ledger, staff, HandDeductions) == 0.0 <==> NoRow(ledger, staff, HandDeductions)
  {
    if ledger != [] {
      RefundsArePositive(ledger[..|ledger| - 1], staff);
      NoRowStep(ledger, staff, Refunds);
      NoRowStep(ledger, staff, HandDeductions);
    }
  }

  /** The summary's leaves taken are the days approved now, plus everything ever
      refunded, plus every negative adjustment labelled as a leave deduction by
      hand: it is the approved days exactly when there is no row of either kind. */
  lemma TotalTakenCountsRefunds(s: State, staff: int)
    requires Inv(s)
    ensures TotalTaken(s.ledger, staff)
         == ApprovedDays(s, staff, s.nextId) + Sum(s.ledger, staff, Refunds) - Sum(s.ledger, staff, HandDeductions)
    ensures TotalTaken(s.ledger, staff) == ApprovedDays(s, staff, s.nextId)
       <==> NoRow(s.ledger, staff, Refunds) && NoRow(s.ledger, staff, HandDeductions)
  {
    TotalTakenIsDeductions(s.ledger, staff);
    LeaveRowsByLeave(s.ledger, staff, s.nextId);
    ApprovedDaysAreBooked(s, staff, s.nextId);
    RefundsArePositive(s.ledger, staff);
  }

  // What rounding to one decimal absorbs.
  lemma RoundingAbsorbsIff(a: real, x: real)
    requires OneDecimal(a) && x >= 0.0
    ensures Round1(a + x) == a <==> x < 0.05 || (x == 0.05 && (a * 10.0).Floor % 2 == 0)
  {
    var n := (a * 10.0).Floor;
    var t := (a + x) * 10.0;
    assert t == n as real + x * 10.0;
    if x <= 0.05 {
      assert t.Floor == n;
    } else if x < 0.1 {
      assert t.Floor == n;
    } else {
      assert t.Floor >= n + 1;
    }
  }

  lemma {:induction false} ApprovedDaysOneDecimal(s: State, staff: int, n: nat)
    requires Bookings(s)
    ensures OneDecimal(ApprovedDays(s, staff, n))
  {
    if n > 0 {
      ApprovedDaysOneDecimal(s, staff, n - 1);
      OneDecimalIs(0.0, 0);
      if n - 1 in s.leaves {
        DaysOneDecimal(s.leaves[n - 1].first, s.leaves[n - 1].last, s.leaves[n - 1].half);
      }
      OneDecimalSum(ApprovedDays(s, staff, n - 1), LeaveChange(s, staff, n - 1));
    }
  }

  /** The figure shown is rounded to one decimal, so it is the approved days
      exactly when what is counted besides them stays below 0.05, or is 0.05 and
      the tie falls back. */
  lemma ShownTakenIff(s: State, staff: int)
    requires Inv(s)
    ensures var days := ApprovedDays(s, staff, s.nextId);
            var besides := Sum(s.ledger, staff, Refunds) - Sum(s.ledger, staff, HandDeductions);
            (Round1(TotalTaken(s.ledger, staff)) == days
             <==> besides < 0.05 || (besides == 0.05 && (days * 10.0).Floor % 2 == 0))
  {
    TotalTakenCountsRefunds(s, staff);
    RefundsArePositive(s.ledger, staff);
    ApprovedDaysOneDecimal(s, staff, s.nextId);
    RoundingAbsorbsIff(ApprovedDays(s, staff, s.nextId),
                       Sum(s.ledger, staff, Refunds) - Sum(s.ledger, staff, HandDeductions));
  }

  datatype Summary = Summary(quota: real, balance: real, taken: real, earned: real)

  // What the ledger view shows of a staff member with an account.
  function SummaryOf(s: State, staff: int): Summary
    requires staff in s.accounts
  {
    Summary(ReadQuota(s.accounts[staff].quota), s.accounts[staff].balance,
            Round1(TotalTaken(s.ledger, staff)), Round1(TotalEarned(s.ledger, staff)))
  }

  /** What the view shows: as taken, the days approved now, every day ever refunded
      and every hand-labelled deduction; as earned, every refund, quota rise and
      positive adjustment; each rounded to one decimal. */
  lemma SummaryShows(s: State, staff: int)
    requires Inv(s) && staff in s.accounts
    ensures SummaryOf(s, staff).taken == Round1(ApprovedDays(s, staff, s.nextId) + Sum(s.ledger, staff, Refunds)
                                                - Sum(s.ledger, staff, HandDeductions))
    ensures SummaryOf(s, staff).earned == Round1(Sum(s.ledger, staff, Refunds) + Sum(s.ledger, staff, QuotaGains)
                                                 + Sum(s.ledger, staff, HandGains))
  {
    TotalTakenCountsRefunds(s, staff);
    TotalEarnedIsGains(s.ledger, staff);
  }

  /** One adjustment of -2 days labelled as a leave deduction shows 2 days taken
      by a staff member who never applied for leave. */
  lemma HandLabelShowsLeave()
    ensures var s := Run(Fresh({1}), [Adjust(1, -2.0, "leave_deduction")]);
            TotalTaken(s.ledger, 1) == 2.0 && ApprovedDays(s, 1, s.nextId) == 0.0 && s.leaves == map[]
  {
    var c := Adjust(1, -2.0, "leave_deduction");
    var start, s := Open(Fresh({1}), 1), Step(Fresh({1}), c);
    assert [c][1..] == [] && Run(Fresh({1}), [c]) == s;
    assert start.ledger[..0] == [] && TotalTaken(start.ledger, 1) == 0.0;
    assert |s.ledger| == 2 && s.ledger[..1] == start.ledger && TakenBy(s.ledger[1], 1) == 2.0;
    assert ApprovedDays(s, 1, 0) == ApprovedDays(s, 1, 1) == 0.0;
  }

  // ----- What a run adds to the books -----

  // The quota the service works from; before the account exists, the default.
  function StoredQuota(s: State, staff: int): real {
    if staff in s.accounts then s.accounts[staff].quota else OPENING_BALANCE
  }

  // Two states that agree on a staff member's adjustments and quota.
  ghost predicate SameBooks(s: State, r: State, staff: int) {
    && Sum(r.ledger, staff, Adjustments) == Sum(s.ledger, staff, Adjustments)
    && Sum(r.ledger, staff, Quotas) == Sum(s.ledger, staff, Quotas)
    && StoredQuota(r, staff) == StoredQuota(s, staff)
  }

  lemma OpenKeepsBooks(s: State, t: int, staff: int)
    ensures SameBooks(s, Open(s, t), staff)
  {
    var r := Open(s, t).ledger;
    if t !in s.accounts {
      assert r[..|r| - 1] == s.ledger;
    }
  }

  lemma PostSums(s: State, t: int, change: real, category: Category, leave: Option<int>, staff: int)
    requires t in s.accounts
    ensures var r := Post(s, t, change, category, leave);
            && Sum(r.ledger, staff, Adjustments)
               == Sum(s.ledger, staff, Adjustments) + (if staff == t && category.Adjustment? then change else 0.0)
            && Sum(r.ledger, staff, Quotas)
               == Sum(s.ledger, staff, Quotas) + (if staff == t && category.QuotaChange? then change else 0.0)
            && StoredQuota(r, staff) == StoredQuota(s, staff)
  {
    var r := Post(s, t, change, category, leave).ledger;
    assert r[..|r| - 1] == s.ledger;
  }

  // Where an update leaves a staff member's books.
  ghost predicate QuotaMoved(s: State, r: State, t: int, quota: real, adjust: bool, staff: int) {
    && Sum(r.ledger, staff, Adjustments) == Sum(s.ledger, staff, Adjustments)
    && Sum(r.ledger, staff, Quotas)
       == Sum(s.ledger, staff, Quotas)
          + (if staff == t && adjust then Round1(quota - ReadQuota(StoredQuota(s, t))) else 0.0)
    && StoredQuota(r, staff) == (if staff == t then quota else StoredQuota(s, staff))
  }

  lemma QuotaSums(s: State, t: int, quota: real, adjust: bool, staff: int)
    ensures QuotaMoved(s, ChangeQuota(s, t, quota, adjust), t, quota, adjust, staff)
  {
    OpenKeepsBooks(s, t, staff);
    OpenKeepsBooks(s, t, t);
    var s1 := Open(s, t);
    PostSums(StoreQuota(s1, t, quota), t, QuotaDiff(s1, t, quota), QuotaChange, None, staff);
  }

  function AdjustsBy(s: State, c: Command, staff: int): real {
    if c.Adjust? && c.staff == staff && staff in s.staff then c.change else 0.0
  }

  predicate UpdatesQuota(s: State, c: Command, staff: int) {
    c.SetQuota? && c.staff == staff && staff in s.staff
  }

  function QuotaShift(s: State, c: Command, staff: int): real {
    if UpdatesQuota(s, c, staff) && c.adjustBalance
    then Round1(c.quota - ReadQuota(StoredQuota(s, staff))) else 0.0
  }

  lemma LeaveStepSums(s: State, id: int, change: real, category: Category, status: Status, staff: int)
    requires id in s.leaves && (category == Deduction || category == Refund)
    ensures SameBooks(s, SetStatus(Post(Open(s, s.leaves[id].staff), s.leaves[id].staff, change, category, Some(id)),
                                   id, status), staff)
  {
    var t := s.leaves[id].staff;
    OpenKeepsBooks(s, t, staff);
    PostSums(Open(s, t), t, change, category, Some(id), staff);
  }

  ghost predicate StepMoves(s: State, r: State, c: Command, staff: int) {
    && Sum(r.ledger, staff, Adjustments) == Sum(s.ledger, staff, Adjustments) + AdjustsBy(s, c, staff)
    && Sum(r.ledger, staff, Quotas) == Sum(s.ledger, staff, Quotas) + QuotaShift(s, c, staff)
    && StoredQuota(r, staff) == if UpdatesQuota(s, c, staff) then c.quota else StoredQuota(s, staff)
  }

  lemma AdjustSums(s: State, c: Command, staff: int)
    requires c.Adjust?
    ensures StepMoves(s, Step(s, c), c, staff)
  {
    if c.staff in s.staff {
      OpenKeepsBooks(s, c.staff, staff);
      PostSums(Open(s, c.staff), c.staff, c.change, Adjustment(c.name), None, staff);
    }
  }

  lemma QuotaStepSums(s: State, c: Command, staff: int)
    requires c.SetQuota?
    ensures StepMoves(s, Step(s, c), c, staff)
  {
    if c.staff in s.staff {
      QuotaSums(s, c.staff, c.quota, c.adjustBalance, staff);
      QuotaStepMoves(s, Step(s, c), c, staff);
    }
  }

  lemma QuotaStepMoves(s: State, r: State, c: Command, staff: int)
    requires c.SetQuota? && c.staff in s.staff && QuotaMoved(s, r, c.staff, c.quota, c.adjustBalance, staff)
    ensures StepMoves(s, r, c, staff)
  {
  }

  lemma OtherSums(s: State, c: Command, staff: int)
    requires !c.Adjust? && !c.SetQuota? && Refusal(s, c) == None
    ensures SameBooks(s, Effect(s, c), staff)
  {
    match c
    case Approve(id) => LeaveStepSums(s, id, -s.leaves[id].days, Deduction, Status.Approved, staff);
    case CancelLeave(id) => LeaveStepSums(s, id, s.leaves[id].days, Refund, Cancelled, staff);
    case ViewLedger(t) => OpenKeepsBooks(s, t, staff);
    case _ =>
  }

  lemma OtherStepMoves(s: State, r: State, c: Command, staff: int)
    requires !c.Adjust? && !c.SetQuota? && SameBooks(s, r, staff)
    ensures StepMoves(s, r, c, staff)
  {
  }

  lemma OtherStepSums(s: State, c: Command, staff: int)
    requires !c.Adjust? && !c.SetQuota?
    ensures StepMoves(s, Step(s, c), c, staff)
  {
    if Refusal(s, c) == None {
      OtherSums(s, c, staff);
      OtherStepMoves(s, Effect(s, c), c, staff);
    } else {
      OtherStepMoves(s, s, c, staff);
    }
  }

  lemma StepSums(s: State, c: Command, staff: int)
    ensures StepMoves(s, Step(s, c), c, staff)
  {
    if c.Adjust? {
      AdjustSums(s, c, staff);
    } else if c.SetQuota? {
      QuotaStepSums(s, c, staff);
    } else {
      OtherStepSums(s, c, staff);
    }
  }

  // The sum of the accepted adjustments of a run.
  function Adjusted(s: State, commands: seq<Command>, staff: int): real
    decreases commands
  {
    if commands == [] then 0.0
    else AdjustsBy(s, commands[0], staff) + Adjusted(Step(s, commands[0]), commands[1..], staff)
  }

  lemma {:induction false} RunAdjustments(s: State, commands: seq<Command>, staff: int)
    ensures Sum(Run(s, commands).ledger, staff, Adjustments)
         == Sum(s.ledger, staff, Adjustments) + Adjusted(s, commands, staff)
    decreases commands
  {
    if commands != [] {
      StepSums(s, commands[0], staff);
      RunAdjustments(Step(s, commands[0]), commands[1..], staff);
    }
  }

  // Quota updates that find a stored quota of zero.
  function ZeroStarts(s: State, commands: seq<Command>, staff: int): nat
    decreases commands
  {
    if commands == [] then 0
    else (if UpdatesQuota(s, commands[0], staff) && StoredQuota(s, staff) == 0.0 then 1 else 0)
         + ZeroStarts(Step(s, commands[0]), commands[1..], staff)
  }

  // Every quota update of the run adjusts the balance, to a one-decimal quota.
  ghost predicate PlainQuotas(commands: seq<Command>, staff: int) {
    forall i :: 0 <= i < |commands| && commands[i].SetQuota? && commands[i].staff == staff
                ==> commands[i].adjustBalance && OneDecimal(commands[i].quota)
  }

  lemma RoundedQuotaShift(quota: real, stored: real)
    requires OneDecimal(quota) && OneDecimal(stored)
    ensures Round1(quota - ReadQuota(stored)) == quota - stored - if stored == 0.0 then OPENING_BALANCE else 0.0
  {
    var from := ReadQuota(stored);
    assert OneDecimal(from) by {
      OneDecimalIs(OPENING_BALANCE, 120);
    }
    RoundedDifference(quota, from);
  }

  lemma RoundedDifference(a: real, b: real)
    requires OneDecimal(a) && OneDecimal(b)
    ensures Round1(a - b) == a - b
  {
    OneDecimalSum(a, b);
    RoundingIsClose(a - b);
  }

  // One step moves the quota sum as far as the stored quota, less 12 when an
  // update found a stored quota of zero.
  ghost predicate QuotasFollow(s: State, r: State, c: Command, staff: int) {
    && OneDecimal(StoredQuota(r, staff))
    && Sum(r.ledger, staff, Quotas) - Sum(s.ledger, staff, Quotas)
       == StoredQuota(r, staff) - StoredQuota(s, staff)
          - if UpdatesQuota(s, c, staff) && StoredQuota(s, staff) == 0.0 then OPENING_BALANCE else 0.0
  }

  lemma MovesFollow(s: State, r: State, c: Command, staff: int)
    requires PlainQuotas([c], staff) && OneDecimal(StoredQuota(s, staff)) && StepMoves(s, r, c, staff)
    ensures QuotasFollow(s, r, c, staff)
  {
    if UpdatesQuota(s, c, staff) {
      assert [c][0] == c;
      RoundedQuotaShift(c.quota, StoredQuota(s, staff));
    }
  }

  lemma StepQuotas(s: State, c: Command, staff: int)
    requires PlainQuotas([c], staff) && OneDecimal(StoredQuota(s, staff))
    ensures QuotasFollow(s, Step(s, c), c, staff)
  {
    StepSums(s, c, staff);
    MovesFollow(s, Step(s, c), c, staff);
  }

  lemma {:induction false} RunQuotas(s: State, commands: seq<Command>, staff: int)
    requires PlainQuotas(commands, staff) && OneDecimal(StoredQuota(s, staff))
    ensures Sum(Run(s, commands).ledger, staff, Quotas) - Sum(s.ledger, staff, Quotas)
         == StoredQuota(Run(s, commands), staff) - StoredQuota(s, staff)
            - OPENING_BALANCE * ZeroStarts(s, commands, staff) as real
    decreases commands
  {
    if commands != [] {
      StepQuotas(s, commands[0], staff);
      RunQuotas(Step(s, commands[0]), commands[1..], staff);
    }
  }

  /** After any run from empty tables in which quota updates adjust the balance,
      the balance is the stored quota plus adjustments minus approved days,
      less 12 for every quota update that started from a stored quota of zero.
      So "balance = quota + adjustments - approved days" holds exactly when no
      update did. */
  lemma BalanceFollowsQuota(members: set<int>, commands: seq<Command>, staff: int)
    requires PlainQuotas(commands, staff)
    ensures var s := Run(Fresh(members), commands);
            staff in s.accounts && AdjustmentsOneDecimal(s.ledger, staff) ==>
              var plain := StoredQuota(s, staff) + Adjusted(Fresh(members), commands, staff)
                           - ApprovedDays(s, staff, s.nextId);
              var zeros := ZeroStarts(Fresh(members), commands, staff);
              && s.accounts[staff].balance == plain - OPENING_BALANCE * zeros as real
              && (s.accounts[staff].balance == plain <==> zeros == 0)
  {
    var s0 := Fresh(members);
    var s := Run(s0, commands);
    FreshInv(members);
    RunKeepsInv(s0, commands);
    OneDecimalIs(OPENING_BALANCE, 120);
    RunAdjustments(s0, commands, staff);
    RunQuotas(s0, commands, staff);
    if staff in s.accounts {
      BalanceAccountsForLeaves(s, staff);
    }
  }

  // ----- Leave inside a window of days -----

  function Days(lo: int, hi: int): (days: set<int>)
    ensures forall d :: d in days <==> lo <= d < hi
    ensures lo <= hi ==> |days| == hi - lo
    decreases hi - lo
  {
    if lo >= hi then {} else Days(lo, hi - 1) + {hi - 1}
  }

  function DatesOf(l: StaffLeave): set<int> { Days(l.first, l.last + 1) }

  predicate InWindow(s: State, staff: int, id: int, lo: int, hi: int) {
    id in s.leaves && s.leaves[id].staff == staff && Active(s.leaves[id])
    && lo <= s.leaves[id].first && s.leaves[id].last < hi
  }

  function WindowDays(s: State, staff: int, lo: int, hi: int, n: nat): real {
    if n == 0 then 0.0
    else WindowDays(s, staff, lo, hi, n - 1)
         + (if InWindow(s, staff, n - 1, lo, hi) then s.leaves[n - 1].days else 0.0)
  }

  function WindowDates(s: State, staff: int, lo: int, hi: int, n: nat): set<int> {
    if n == 0 then {}
    else WindowDates(s, staff, lo, hi, n - 1)
         + (if InWindow(s, staff, n - 1, lo, hi) then DatesOf(s.leaves[n - 1]) else {})
  }

  lemma SubsetCardinality(a: set<int>, b: set<int>)
    requires a <= b
    ensures |a| <= |b|
  {
    assert b == a + (b - a);
  }

  lemma {:induction false} WindowDatesBelow(s: State, staff: int, lo: int, hi: int, n: nat)
    ensures WindowDates(s, staff, lo, hi, n) <= Days(lo, hi)
    ensures forall d :: d in WindowDates(s, staff, lo, hi, n) ==>
              exists id :: 0 <= id < n && InWindow(s, staff, id, lo, hi) && d in DatesOf(s.leaves[id])
  {
    if n > 0 {
      WindowDatesBelow(s, staff, lo, hi, n - 1);
    }
  }

  // A leave shares no date with the leaves before it.
  lemma WindowDatesApart(s: State, staff: int, lo: int, hi: int, n: nat)
    requires Bookings(s) && InWindow(s, staff, n, lo, hi)
    ensures WindowDates(s, staff, lo, hi, n) !! DatesOf(s.leaves[n])
  {
    WindowDatesBelow(s, staff, lo, hi, n);
    forall d | d in WindowDates(s, staff, lo, hi, n) ensures d !in DatesOf(s.leaves[n]) {
      var id :| 0 <= id < n && InWindow(s, staff, id, lo, hi) && d in DatesOf(s.leaves[id]);
    }
  }

  lemma WindowDaysStep(s: State, staff: int, lo: int, hi: int, n: nat)
    requires Bookings(s) && InWindow(s, staff, n, lo, hi)
    requires WindowDays(s, staff, lo, hi, n) <= |WindowDates(s, staff, lo, hi, n)| as real
    ensures WindowDays(s, staff, lo, hi, n + 1) <= |WindowDates(s, staff, lo, hi, n + 1)| as real
  {
    var before, dates := WindowDates(s, staff, lo, hi, n), DatesOf(s.leaves[n]);
    WindowDatesApart(s, staff, lo, hi, n);
    assert |before + dates| == |before| + |dates|;
    assert s.leaves[n].days <= |dates| as real;
  }

  lemma {:induction false} WindowDaysFit(s: State, staff: int, lo: int, hi: int, n: nat)
    requires Bookings(s)
    ensures WindowDays(s, staff, lo, hi, n) <= |WindowDates(s, staff, lo, hi, n)| as real
  {
    if n > 0 {
      WindowDaysFit(s, staff, lo, hi, n - 1);
      if InWindow(s, staff, n - 1, lo, hi) {
        WindowDaysStep(s, staff, lo, hi, n - 1);
      }
    }
  }

  /** In every reachable state the pending and approved leaves of one staff
      member that lie inside a window of N days total at most N days. */
  lemma WindowHoldsAtMostItsDays(members: set<int>, commands: seq<Command>, staff: int, lo: int, hi: int)
    requires lo <= hi
    ensures var s := Run(Fresh(members), commands);
            WindowDays(s, staff, lo, hi, s.nextId) <= (hi - lo) as real
  {
    var s := Run(Fresh(members), commands);
    FreshInv(members);
    RunKeepsInv(Fresh(members), commands);
    WindowDatesBelow(s, staff, lo, hi, s.nextId);
    WindowDaysFit(s, staff, lo, hi, s.nextId);
    SubsetCardinality(WindowDates(s, staff, lo, hi, s.nextId), Days(lo, hi));
  }
}
