/**
Staff operations that read a leave or a balance before other requests commit, and
write what they computed from it: exactly which of these writes keep the bookings
disjoint and the books in order.

A request opens the account, when need be, in a transaction of its own.
A column is written only when the value computed differs from the value read.
*/
module StaleStaff {
  import opened Options
  import opened StaffLeaves
  import opened StaffLaws

  // What a request that passed its checks will write. `read` is the balance it saw.
  datatype Write =
    | StoreLeave(staff: int, first: int, last: int, half: bool)
    | CloseLeave(id: int, status: Status)
    | BookApproval(id: int, read: real)
    | BookRefund(id: int, read: real)
    | BookAdjustment(staff: int, change: real, name: string, read: real)
    | BookQuota(staff: int, quota: Option<real>, booked: Option<real>, read: real)

  // The write of an accepted command on the tables it saw.
  function WriteOf(seen: State, c: Command): Option<Write> {
    if Refusal(seen, c) != None then None
    else
      match c
      case Apply(staff, first, last, half) => Some(StoreLeave(staff, first, last, half))
      case Approve(id) =>
        var t := seen.leaves[id].staff;
        if t in seen.accounts then Some(BookApproval(id, seen.accounts[t].balance)) else None
      case Reject(id) => Some(CloseLeave(id, Rejected))
      case CancelLeave(id) =>
        var t := seen.leaves[id].staff;
        if seen.leaves[id].status != Approved then Some(CloseLeave(id, Cancelled))
        else if t in seen.accounts then Some(BookRefund(id, seen.accounts[t].balance)) else None
      case Adjust(staff, change, name) =>
        if staff in seen.accounts then Some(BookAdjustment(staff, change, name, seen.accounts[staff].balance))
        else None
      case SetQuota(staff, quota, adjust) =>
        if staff !in seen.accounts then None
        else
          var diff := QuotaDiff(seen, staff, quota);
          Some(BookQuota(staff, if quota == seen.accounts[staff].quota then None else Some(quota),
                         if adjust && diff != 0.0 then Some(diff) else None, seen.accounts[staff].balance))
      case ViewLedger(_) => None
  }

  // A ledger row computed from the balance read, and the balance written with it.
  function StalePost(s: State, t: int, read: real, change: real, category: Category, leave: Option<int>): State
    requires t in s.accounts
  {
    var after := Round1(read + change);
    s.(accounts := if after == read then s.accounts
                   else s.accounts[t := s.accounts[t].(balance := after)],
       ledger := s.ledger + [Tx(t, change, after, category, leave)])
  }

  // Leaves stay and accounts stay; what was read of them still makes sense.
  ghost predicate Fitting(s: State, x: Write) {
    match x
    case StoreLeave(staff, first, last, half) => staff in s.staff && first <= last && (half ==> first == last)
    case CloseLeave(id, status) => id in s.leaves && (status == Rejected || status == Cancelled)
    case BookApproval(id, _) => id in s.leaves && s.leaves[id].staff in s.accounts
    case BookRefund(id, _) => id in s.leaves && s.leaves[id].staff in s.accounts
    case BookAdjustment(staff, _, _, _) => staff in s.accounts
    case BookQuota(staff, _, change, _) => staff in s.accounts && (change.Some? ==> OneDecimal(change.value))
  }

  function Do(s: State, x: Write): State
    requires Fitting(s, x)
  {
    match x
    case StoreLeave(staff, first, last, half) =>
      s.(leaves := s.leaves[s.nextId := StaffLeave(staff, first, last, half, DaysCount(first, last, half), Pending)],
         nextId := s.nextId + 1)
    case CloseLeave(id, status) => SetStatus(s, id, status)
    case BookApproval(id, read) =>
      var l := s.leaves[id];
      SetStatus(StalePost(s, l.staff, read, -l.days, Deduction, Some(id)), id, Approved)
    case BookRefund(id, read) =>
      var l := s.leaves[id];
      SetStatus(StalePost(s, l.staff, read, l.days, Refund, Some(id)), id, Cancelled)
    case BookAdjustment(staff, change, name, read) => StalePost(s, staff, read, change, Adjustment(name), None)
    case BookQuota(staff, quota, change, read) =>
      var s1 := if quota.None? then s else StoreQuota(s, staff, quota.value);
      if change.None? then s1 else StalePost(s1, staff, read, change.value, QuotaChange, None)
  }

  // The account that a request books to, if it does.
  function Booked(s: State, c: Command): Option<int>
    requires Refusal(s, c) == None
  {
    match c
    case Approve(id) => Some(s.leaves[id].staff)
    case CancelLeave(id) => if s.leaves[id].status == Approved then Some(s.leaves[id].staff) else None
    case Adjust(staff, _, _) => Some(staff)
    case SetQuota(staff, _, _) => Some(staff)
    case _ => None
  }

  /** An accepted request, once its account is open, whose read is still current writes
      exactly what its operation does. */
  lemma FreshWriteIsStep(s: State, c: Command)
    requires Inv(s) && Refusal(s, c) == None && !c.ViewLedger?
    requires Booked(s, c).Some? ==> Booked(s, c).value in s.accounts
    ensures WriteOf(s, c).Some?
    ensures Fitting(s, WriteOf(s, c).value) && Do(s, WriteOf(s, c).value) == Step(s, c)
  {
    match c
    case Approve(id) =>
      var l := s.leaves[id];
      FittingPostIsPost(s, l.staff, s.accounts[l.staff].balance, -l.days, Deduction, Some(id));
    case CancelLeave(id) =>
      var l := s.leaves[id];
      if l.status == Approved {
        FittingPostIsPost(s, l.staff, s.accounts[l.staff].balance, l.days, Refund, Some(id));
      }
    case Adjust(staff, change, name) =>
      FittingPostIsPost(s, staff, s.accounts[staff].balance, change, Adjustment(name), None);
    case SetQuota(staff, quota, _) =>
      var s1, diff := StoreQuota(s, staff, quota), QuotaDiff(s, staff, quota);
      assert quota == s.accounts[staff].quota ==> s1 == s;
      FittingPostIsPost(s1, staff, s1.accounts[staff].balance, diff, QuotaChange, None);
      RoundingIsClose(quota - ReadQuota(s.accounts[staff].quota));
    case _ =>
  }

  // ----- What a write needs -----

  // The balance read still gives the right row, and the column ends up with it.
  predicate BalanceFits(read: real, current: real, change: real) {
    Round1(read + change) == Round1(current + change) && (Round1(read + change) == read ==> current == read)
  }

  // No other open leave of the same staff member overlaps.
  ghost predicate ClearOfOthers(s: State, id: int)
    requires id in s.leaves
  {
    forall i :: i in s.leaves && i != id && Active(s.leaves[i]) && s.leaves[i].staff == s.leaves[id].staff
      ==> s.leaves[i].last < s.leaves[id].first || s.leaves[id].last < s.leaves[i].first
  }

  ghost predicate Harmless(s: State, x: Write)
    requires Fitting(s, x)
  {
    match x
    case StoreLeave(staff, first, last, _) => !Overlaps(s, staff, first, last)
    case CloseLeave(id, _) => s.leaves[id].status != Approved
    case BookApproval(id, read) =>
      var l := s.leaves[id];
      l.status != Approved && ClearOfOthers(s, id) && BalanceFits(read, s.accounts[l.staff].balance, -l.days)
    case BookRefund(id, read) =>
      var l := s.leaves[id];
      l.status == Approved && BalanceFits(read, s.accounts[l.staff].balance, l.days)
    case BookAdjustment(staff, change, _, read) => BalanceFits(read, s.accounts[staff].balance, change)
    case BookQuota(staff, _, change, read) =>
      change.Some? ==> BalanceFits(read, s.accounts[staff].balance, change.value)
  }

  // ----- The books -----

  // The row is one the operations write.
  predicate ProperRow(change: real, category: Category, leave: Option<int>) {
    && category != Opening && (category.Adjustment? || OneDecimal(change))
    && (leave.Some? <==> category == Deduction || category == Refund)
    && (category == Deduction ==> change < 0.0) && (category == Refund ==> change > 0.0)
  }

  // How far the leaves' entries in the books moved with the row.
  ghost predicate EntriesMove(s: State, r: State, t: int, change: real, leave: Option<int>) {
    forall u, id :: LeaveChange(r, u, id)
                 == LeaveChange(s, u, id) + if u == t && leave == Some(id) then change else 0.0
  }

  // With a fitting balance the write is the one the current balance would give.
  lemma FittingPostIsPost(s: State, t: int, read: real, change: real, category: Category, leave: Option<int>)
    requires t in s.accounts && BalanceFits(read, s.accounts[t].balance, change)
    ensures StalePost(s, t, read, change, category, leave) == Post(s, t, change, category, leave)
  {
    if Round1(read + change) == read {
      assert s.accounts[t := s.accounts[t].(balance := read)] == s.accounts;
    }
  }

  // Books record a balance that fits.
  lemma BooksFit(s: State, r: State, t: int, read: real, change: real, category: Category, leave: Option<int>)
    requires Books(s) && Books(r) && t in s.accounts
    requires r == StalePost(s, t, read, change, category, leave).(leaves := r.leaves)
    ensures BalanceFits(read, s.accounts[t].balance, change)
  {
    var tx := Tx(t, change, Round1(read + change), category, leave);
    Appended(s.ledger, tx);
    assert LastAfter(s.ledger, t) == Some(s.accounts[t].balance);
    assert Follows(s.ledger, tx);
    assert LastAfter(r.ledger, t) == Some(r.accounts[t].balance);
  }

  // Books record the entries of the leaves.
  lemma BooksMove(s: State, r: State, t: int, read: real, change: real, category: Category, leave: Option<int>)
    requires Books(s) && Books(r) && t in s.accounts
    requires r == StalePost(s, t, read, change, category, leave).(leaves := r.leaves)
    ensures EntriesMove(s, r, t, change, leave)
  {
    Appended(s.ledger, Tx(t, change, Round1(read + change), category, leave));
    forall u, id ensures LeaveChange(r, u, id)
                      == LeaveChange(s, u, id) + if u == t && leave == Some(id) then change else 0.0
    {
      assert Sum(s.ledger, u, OfLeave(id)) == LeaveChange(s, u, id);
      assert Sum(r.ledger, u, OfLeave(id)) == LeaveChange(r, u, id);
    }
  }

  lemma StalePostBooksIff(s: State, r: State, t: int, read: real, change: real, category: Category, leave: Option<int>)
    requires Inv(s) && t in s.accounts && ProperRow(change, category, leave)
    requires leave.Some? ==> 0 <= leave.value < s.nextId
    requires r == StalePost(s, t, read, change, category, leave).(leaves := r.leaves)
    ensures Books(r) <==> BalanceFits(read, s.accounts[t].balance, change) && EntriesMove(s, r, t, change, leave)
  {
    if Books(r) {
      BooksFit(s, r, t, read, change, category, leave);
      BooksMove(s, r, t, read, change, category, leave);
    } else if BalanceFits(read, s.accounts[t].balance, change) && EntriesMove(s, r, t, change, leave) {
      FittingPostIsPost(s, t, read, change, category, leave);
      PostKeepsBooks(s, r, t, change, category, leave);
    }
  }

  // A write to the leaves table alone.
  lemma StatusBooksIff(s: State, id: int, status: Status)
    requires Inv(s) && id in s.leaves && status != Approved
    ensures Books(SetStatus(s, id, status)) <==> s.leaves[id].status != Approved
  {
    var r, l := SetStatus(s, id, status), s.leaves[id];
    DaysOneDecimal(l.first, l.last, l.half);
    if l.status != Approved {
      forall t, i ensures Sum(r.ledger, t, OfLeave(i)) == LeaveChange(r, t, i) {
        assert Sum(s.ledger, t, OfLeave(i)) == LeaveChange(s, t, i);
      }
    } else {
      assert Sum(s.ledger, l.staff, OfLeave(id)) == LeaveChange(s, l.staff, id);
      assert Sum(r.ledger, l.staff, OfLeave(id)) != LeaveChange(r, l.staff, id);
    }
  }

  // ----- The bookings -----

  // Bookings read the leaves, the ids and the staff only.
  lemma BookingsRead(a: State, b: State)
    requires a.leaves == b.leaves && a.nextId == b.nextId && a.staff == b.staff
    ensures Bookings(a) <==> Bookings(b)
  {
  }

  lemma ClosingKeepsBookings(s: State, id: int, status: Status)
    requires Bookings(s) && id in s.leaves && (status == Rejected || status == Cancelled)
    ensures Bookings(SetStatus(s, id, status))
  {
  }

  lemma ApprovalBookingsIff(s: State, id: int)
    requires Bookings(s) && id in s.leaves
    ensures Bookings(SetStatus(s, id, Approved)) <==> ClearOfOthers(s, id)
  {
    var r := SetStatus(s, id, Approved);
    if Bookings(r) {
      forall i | i in s.leaves && i != id && Active(s.leaves[i]) && s.leaves[i].staff == s.leaves[id].staff
        ensures s.leaves[i].last < s.leaves[id].first || s.leaves[id].last < s.leaves[i].first
      {
        assert Active(r.leaves[i]) && Active(r.leaves[id]);
      }
    }
  }

  lemma StoringBookingsIff(s: State, staff: int, first: int, last: int, half: bool)
    requires Inv(s) && Fitting(s, StoreLeave(staff, first, last, half))
    ensures Bookings(Do(s, StoreLeave(staff, first, last, half))) <==> !Overlaps(s, staff, first, last)
    ensures Books(Do(s, StoreLeave(staff, first, last, half)))
  {
    var r := Do(s, StoreLeave(staff, first, last, half));
    if Overlaps(s, staff, first, last) {
      var id :| id in s.leaves && s.leaves[id].staff == staff && Active(s.leaves[id])
        && s.leaves[id].first <= last && s.leaves[id].last >= first;
      assert id != s.nextId && r.leaves[id] == s.leaves[id] && Active(r.leaves[s.nextId]);
    }
    forall t, id ensures Sum(r.ledger, t, OfLeave(id)) == LeaveChange(r, t, id) {
      assert Sum(s.ledger, t, OfLeave(id)) == LeaveChange(s, t, id);
    }
  }

  // ----- Every write -----

  lemma ApprovalIff(s: State, id: int, read: real)
    requires Inv(s) && Fitting(s, BookApproval(id, read))
    ensures Inv(Do(s, BookApproval(id, read))) <==> Harmless(s, BookApproval(id, read))
  {
    var l, r := s.leaves[id], Do(s, BookApproval(id, read));
    DaysOneDecimal(l.first, l.last, l.half);
    ApprovalBookingsIff(s, id);
    BookingsRead(r, SetStatus(s, id, Approved));
    StalePostBooksIff(s, r, l.staff, read, -l.days, Deduction, Some(id));
    if l.status == Approved {
      assert LeaveChange(r, l.staff, id) == LeaveChange(s, l.staff, id);
    }
  }

  lemma RefundIff(s: State, id: int, read: real)
    requires Inv(s) && Fitting(s, BookRefund(id, read))
    ensures Inv(Do(s, BookRefund(id, read))) <==> Harmless(s, BookRefund(id, read))
  {
    var l, r := s.leaves[id], Do(s, BookRefund(id, read));
    DaysOneDecimal(l.first, l.last, l.half);
    ClosingKeepsBookings(s, id, Cancelled);
    BookingsRead(r, SetStatus(s, id, Cancelled));
    StalePostBooksIff(s, r, l.staff, read, l.days, Refund, Some(id));
    if l.status != Approved {
      assert LeaveChange(r, l.staff, id) == LeaveChange(s, l.staff, id);
    }
  }

  lemma AdjustmentIff(s: State, t: int, change: real, name: string, read: real)
    requires Inv(s) && t in s.accounts
    ensures Inv(Do(s, BookAdjustment(t, change, name, read))) <==> BalanceFits(read, s.accounts[t].balance, change)
  {
    var r := Do(s, BookAdjustment(t, change, name, read));
    BookingsRead(r, s);
    StalePostBooksIff(s, r, t, read, change, Adjustment(name), None);
  }

  lemma QuotaIff(s: State, x: Write)
    requires Inv(s) && x.BookQuota? && Fitting(s, x)
    ensures Inv(Do(s, x)) <==> Harmless(s, x)
  {
    var s1 := if x.quota.None? then s else StoreQuota(s, x.staff, x.quota.value);
    if x.quota.Some? {
      QuotaFieldKeepsInv(s, x.staff, x.quota.value);
    }
    if x.booked.Some? {
      BookingsRead(Do(s, x), s1);
      StalePostBooksIff(s1, Do(s, x), x.staff, x.read, x.booked.value, QuotaChange, None);
    }
  }

  /** Whatever committed between its read and its write, a staff request keeps the
      bookings disjoint and the books in order if and only if its write is harmless:
      no overlap with what is stored by then, the leave's status still one that the
      write may leave, and the balance read still as good as the current one. */
  lemma StaleStaffWriteIff(s: State, x: Write)
    requires Inv(s) && Fitting(s, x)
    ensures Inv(Do(s, x)) <==> Harmless(s, x)
  {
    match x
    case StoreLeave(staff, first, last, half) => StoringBookingsIff(s, staff, first, last, half);
    case CloseLeave(id, status) =>
      StatusBooksIff(s, id, status);
      ClosingKeepsBookings(s, id, status);
    case BookApproval(id, read) => ApprovalIff(s, id, read);
    case BookRefund(id, read) => RefundIff(s, id, read);
    case BookAdjustment(t, change, name, read) => AdjustmentIff(s, t, change, name, read);
    case BookQuota(_, _, _, _) => QuotaIff(s, x);
  }

  /** For a change of one decimal, such as the days of a leave or a quota
      difference, the balance read is good exactly when it is the current one. */
  lemma BalanceFitsIff(read: real, current: real, change: real)
    requires OneDecimal(read) && OneDecimal(current) && OneDecimal(change)
    ensures BalanceFits(read, current, change) <==> read == current
  {
    OneDecimalSum(read, change);
    OneDecimalSum(current, change);
    RoundingIsClose(read + change);
    RoundingIsClose(current + change);
  }

  // ----- Two requests at once -----

  // An approval books the days and leaves the balance computed from its read.
  lemma ApprovalDoes(s: State, id: int, read: real)
    requires Fitting(s, BookApproval(id, read))
    requires s.accounts[s.leaves[id].staff].balance == read
          || s.accounts[s.leaves[id].staff].balance == Round1(read - s.leaves[id].days)
    ensures var r, l := Do(s, BookApproval(id, read)), s.leaves[id];
            && Fitting(r, BookApproval(id, read))
            && r.leaves == s.leaves[id := l.(status := Approved)]
            && Sum(r.ledger, l.staff, OfLeave(id)) == Sum(s.ledger, l.staff, OfLeave(id)) - l.days
            && r.accounts[l.staff].balance == Round1(read - l.days)
  {
    var l := s.leaves[id];
    Appended(s.ledger, Tx(l.staff, -l.days, Round1(read - l.days), Deduction, Some(id)));
  }

  lemma FirstApproval(s: State, id: int)
    requires Inv(s) && Refusal(s, Approve(id)) == None && s.leaves[id].staff in s.accounts
    ensures Inv(Do(s, BookApproval(id, s.accounts[s.leaves[id].staff].balance)))
  {
    StaleStaffWriteIff(s, BookApproval(id, s.accounts[s.leaves[id].staff].balance));
  }

  // What two approvals leave behind, given what each does.
  ghost predicate DeductsTwice(s: State, once: State, twice: State, id: int)
    requires id in s.leaves && s.leaves[id].staff in once.accounts && s.leaves[id].staff in twice.accounts
  {
    var l := s.leaves[id];
    && Inv(once) && !Inv(twice)
    && Sum(once.ledger, l.staff, OfLeave(id)) == -l.days
    && Sum(twice.ledger, l.staff, OfLeave(id)) == -2.0 * l.days
    && twice.accounts[l.staff].balance == once.accounts[l.staff].balance
  }

  /** Two approvals that both find the leave pending book its days twice, in every
      state, while the balance goes down once. */
  lemma TwoApprovalsDeductTwice(s: State, id: int)
    requires Inv(s) && Refusal(s, Approve(id)) == None && s.leaves[id].staff in s.accounts
    ensures var x := BookApproval(id, s.accounts[s.leaves[id].staff].balance);
            DeductsTwice(s, Do(s, x), Do(Do(s, x), x), id)
  {
    var l := s.leaves[id];
    var read := s.accounts[l.staff].balance;
    var x := BookApproval(id, read);
    ApprovalDoes(s, id, read);
    var once := Do(s, x);
    ApprovalDoes(once, id, read);
    FirstApproval(s, id);
    StaleStaffWriteIff(once, x);
    assert Sum(s.ledger, l.staff, OfLeave(id)) == LeaveChange(s, l.staff, id);
  }

  /** Two applications for overlapping days that both pass the check are both
      stored, in every state. */
  lemma TwoApplicationsOverlap(s: State, staff: int, first: int, last: int, half: bool)
    requires Inv(s) && Refusal(s, Apply(staff, first, last, half)) == None
    ensures var x := StoreLeave(staff, first, last, half);
            Inv(Do(s, x)) && !Bookings(Do(Do(s, x), x))
  {
    var x := StoreLeave(staff, first, last, half);
    var once := Do(s, x);
    StaleStaffWriteIff(s, x);
    assert s.nextId in once.leaves && Active(once.leaves[s.nextId]);
    assert Overlaps(once, staff, first, last);
    StoringBookingsIff(once, staff, first, last, half);
  }

  // ----- Any number of requests -----

  lemma DoKeepsFitting(s: State, x: Write, y: Write)
    requires Inv(s) && Fitting(s, x) && Fitting(s, y)
    ensures Fitting(Do(s, x), y)
  {
  }

  // Each write is harmless when it is made.
  ghost predicate AllHarmless(s: State, xs: seq<Write>)
    decreases xs
  {
    xs != [] ==> Fitting(s, xs[0]) && Harmless(s, xs[0]) && AllHarmless(Do(s, xs[0]), xs[1..])
  }

  function DoAll(s: State, xs: seq<Write>): State
    requires AllHarmless(s, xs)
    decreases xs
  {
    if xs == [] then s else DoAll(Do(s, xs[0]), xs[1..])
  }

  /** Writes that are harmless one after another keep every law, whatever each had
      read; and after them the next one does if and only if it is harmless too. */
  lemma {:induction false} HarmlessWritesKeepInv(s: State, xs: seq<Write>, next: Write)
    requires Inv(s) && AllHarmless(s, xs) && Fitting(DoAll(s, xs), next)
    ensures Inv(DoAll(s, xs))
    ensures Inv(Do(DoAll(s, xs), next)) <==> Harmless(DoAll(s, xs), next)
    decreases xs
  {
    if xs == [] {
      StaleStaffWriteIff(s, next);
    } else {
      StaleStaffWriteIff(s, xs[0]);
      HarmlessWritesKeepInv(Do(s, xs[0]), xs[1..], next);
    }
  }
}
