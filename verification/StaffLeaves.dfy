/**
Leaves of the operational staff and their running balance: interval bookings
with an overlap guard, and a ledger in which every row records the balance it
left behind, rounded to one decimal.
*/
module StaffLeaves {
  import opened Options

  datatype Status = Pending | Approved | Rejected | Cancelled

  datatype StaffLeave = StaffLeave(staff: int, first: int, last: int, half: bool, days: real, status: Status)

  // The operation that wrote a ledger row. The table stores only a label, and a
  // manager's adjustment carries whatever label he gives it.
  datatype Category = Opening | Deduction | Refund | QuotaChange | Adjustment(name: string) {
    function Label(): string {
      match this
      case Opening => "opening_balance"
      case Deduction => "leave_deduction"
      case Refund => "cancellation_refund"
      case QuotaChange => "quota_adjustment"
      case Adjustment(name) => name
    }
  }

  datatype Tx = Tx(staff: int, change: real, after: real, category: Category, leave: Option<int>)

  datatype Account = Account(quota: real, balance: real)

  datatype State = State(staff: set<int>, leaves: map<int, StaffLeave>, accounts: map<int, Account>,
                         ledger: seq<Tx>, nextId: nat)

  datatype StaffError = NoSuchStaff | NoSuchLeave | BadRange | HalfDayRange | Overlap | NotPending | NotActive

  const OPENING_BALANCE := 12.0

  // ----- Rounding to one decimal, ties to the even digit -----

  function Round1(x: real): real {
    var t := x * 10.0;
    var f := t.Floor;
    var d := t - f as real;
    (if d < 0.5 || (d == 0.5 && f % 2 == 0) then f as real else f as real + 1.0) / 10.0
  }

  predicate OneDecimal(x: real) {
    (x * 10.0).Floor as real == x * 10.0
  }

  lemma OneDecimalIs(x: real, n: int)
    requires x * 10.0 == n as real
    ensures OneDecimal(x)
  {
  }

  /** Rounding moves a number by at most half a tenth, yields one decimal, and
      leaves a number of one decimal alone. */
  lemma RoundingIsClose(x: real)
    ensures -0.05 <= Round1(x) - x <= 0.05
    ensures OneDecimal(Round1(x))
    ensures OneDecimal(x) ==> Round1(x) == x
  {
    var f := (x * 10.0).Floor;
    if Round1(x) == f as real / 10.0 {
      OneDecimalIs(Round1(x), f);
    } else {
      assert Round1(x) == (f as real + 1.0) / 10.0;
      OneDecimalIs(Round1(x), f + 1);
    }
  }

  lemma OneDecimalSum(x: real, y: real)
    requires OneDecimal(x) && OneDecimal(y)
    ensures OneDecimal(x + y) && OneDecimal(x - y) && OneDecimal(-x)
  {
    var a, b := (x * 10.0).Floor, (y * 10.0).Floor;
    OneDecimalIs(x + y, a + b);
    OneDecimalIs(x - y, a - b);
    OneDecimalIs(-x, -a);
  }

  // ----- Operations -----

  predicate Active(l: StaffLeave) {
    l.status == Pending || l.status == Approved
  }

  function DaysCount(first: int, last: int, half: bool): real {
    if half then 0.5 else (last - first + 1) as real
  }

  predicate Overlaps(s: State, staff: int, first: int, last: int) {
    exists id :: id in s.leaves && s.leaves[id].staff == staff && Active(s.leaves[id])
                 && s.leaves[id].first <= last && s.leaves[id].last >= first
  }

  // The account is opened with its first ledger row when it does not exist yet.
  function Open(s: State, staff: int): (r: State)
    ensures staff in r.accounts
  {
    if staff in s.accounts then s
    else s.(accounts := s.accounts[staff := Account(OPENING_BALANCE, OPENING_BALANCE)],
            ledger := s.ledger + [Tx(staff, OPENING_BALANCE, OPENING_BALANCE, Opening, None)])
  }

  function Post(s: State, staff: int, change: real, category: Category, leave: Option<int>): State
    requires staff in s.accounts
  {
    var after := Round1(s.accounts[staff].balance + change);
    s.(accounts := s.accounts[staff := s.accounts[staff].(balance := after)],
       ledger := s.ledger + [Tx(staff, change, after, category, leave)])
  }

  function SetStatus(s: State, id: int, status: Status): State
    requires id in s.leaves
  {
    s.(leaves := s.leaves[id := s.leaves[id].(status := status)])
  }

  // A stored quota of zero is read as the default quota.
  function ReadQuota(stored: real): real {
    if stored == 0.0 then OPENING_BALANCE else stored
  }

  function StoreQuota(s: State, staff: int, quota: real): State
    requires staff in s.accounts
  {
    s.(accounts := s.accounts[staff := s.accounts[staff].(quota := quota)])
  }

  function QuotaDiff(s: State, staff: int, quota: real): real
    requires staff in s.accounts
  {
    Round1(quota - ReadQuota(s.accounts[staff].quota))
  }

  function ChangeQuota(s: State, staff: int, quota: real, adjust: bool): State {
    var s1 := Open(s, staff);
    var diff, s2 := QuotaDiff(s1, staff, quota), StoreQuota(s1, staff, quota);
    if adjust && diff != 0.0 then Post(s2, staff, diff, QuotaChange, None) else s2
  }

  datatype Command =
    | Apply(staff: int, first: int, last: int, half: bool)
    | Approve(id: int)
    | Reject(id: int)
    | CancelLeave(id: int)
    | Adjust(staff: int, change: real, name: string)
    | SetQuota(staff: int, quota: real, adjustBalance: bool)
    | ViewLedger(staff: int)

  function Refusal(s: State, c: Command): Option<StaffError> {
    match c
    case Apply(staff, first, last, half) =>
      if staff !in s.staff then Some(NoSuchStaff)
      else if first > last then Some(BadRange)
      else if half && first != last then Some(HalfDayRange)
      else if Overlaps(s, staff, first, last) then Some(Overlap)
      else None
    case Approve(id) =>
      if id !in s.leaves then Some(NoSuchLeave)
      else if s.leaves[id].status != Pending then Some(NotPending)
      else if s.leaves[id].staff !in s.staff then Some(NoSuchStaff)
      else None
    case Reject(id) =>
      if id !in s.leaves then Some(NoSuchLeave)
      else if s.leaves[id].status != Pending then Some(NotPending)
      else None
    case CancelLeave(id) =>
      if id !in s.leaves then Some(NoSuchLeave)
      else if !Active(s.leaves[id]) then Some(NotActive)
      else if s.leaves[id].staff !in s.staff then Some(NoSuchStaff)
      else None
    case Adjust(staff, _, _) => if staff !in s.staff then Some(NoSuchStaff) else None
    case SetQuota(staff, _, _) => if staff !in s.staff then Some(NoSuchStaff) else None
    case ViewLedger(staff) => if staff !in s.staff then Some(NoSuchStaff) else None
  }

  function Effect(s: State, c: Command): State
    requires Refusal(s, c) == None
  {
    match c
    case Apply(staff, first, last, half) =>
      s.(leaves := s.leaves[s.nextId := StaffLeave(staff, first, last, half, DaysCount(first, last, half), Pending)],
         nextId := s.nextId + 1)
    case Approve(id) =>
      var l := s.leaves[id];
      SetStatus(Post(Open(s, l.staff), l.staff, -l.days, Deduction, Some(id)), id, Approved)
    case Reject(id) => SetStatus(s, id, Rejected)
    case CancelLeave(id) =>
      var l := s.leaves[id];
      SetStatus(if l.status == Approved then Post(Open(s, l.staff), l.staff, l.days, Refund, Some(id)) else s,
                id, Cancelled)
    case Adjust(staff, change, name) => Post(Open(s, staff), staff, change, Adjustment(name), None)
    case SetQuota(staff, quota, adjust) => ChangeQuota(s, staff, quota, adjust)
    case ViewLedger(staff) => Open(s, staff)
  }

  function Step(s: State, c: Command): State {
    if Refusal(s, c) == None then Effect(s, c) else s
  }

  function Run(s: State, commands: seq<Command>): State
    decreases commands
  {
    if commands == [] then s else Run(Step(s, commands[0]), commands[1..])
  }

  function Fresh(staff: set<int>): State { State(staff, map[], map[], [], 1) }
}
