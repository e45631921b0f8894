/**
Concurrent requests on the locked rows: credit balances, which every credit
change reads with a row lock, and leave rows, which approving and rejecting read
with a row lock. A lock is held until the transaction commits or rolls back.

A transaction that finds no balance row inserts one at zero; the unique key makes
the insert itself exclusive, so taking the row is one step here as well, and a
transaction that loses that race rolls back.
*/
module RowLocks {
  import opened Options
  import opened Leaves

  datatype Key = CreditRow(teacher: int) | LeaveRow(id: int)
  datatype Cell = Credits(amount: int) | Decision(status: Status)

  type Store = map<Key, Cell>

  datatype Op = Change(teacher: int, change: int) | Decide(id: int, status: Status) {
    function Row(): Key {
      match this
      case Change(t, _) => CreditRow(t)
      case Decide(id, _) => LeaveRow(id)
    }
  }

  // What an operation makes of the row it reads; None is an error that makes
  // the transaction roll back.
  function Apply(op: Op, cell: Option<Cell>): Option<Cell> {
    match op
    case Change(_, change) =>
      (match cell
       case None => Some(Credits(change))
       case Some(Credits(n)) => Some(Credits(n + change))
       case Some(Decision(_)) => None)
    case Decide(_, status) =>
      if cell == Some(Decision(Pending)) then Some(Decision(status)) else None
  }

  function Lookup(store: Store, key: Key): Option<Cell> {
    if key in store then Some(store[key]) else None
  }

  // ----- Interleaved execution -----

  datatype Txn = Txn(ops: seq<Op>, pc: nat, writes: Store)

  datatype Db = Db(committed: Store, locks: map<Key, int>, active: map<int, Txn>, history: seq<seq<Op>>)

  datatype Action = Begin(tid: int, ops: seq<Op>) | Advance(tid: int) | Commit(tid: int) | Rollback(tid: int)

  function Release(locks: map<Key, int>, tid: int): map<Key, int> {
    map k | k in locks && locks[k] != tid :: locks[k]
  }

  function EndTxn(db: Db, tid: int): Db {
    db.(locks := Release(db.locks, tid), active := db.active - {tid})
  }

  // A request blocked by another's lock waits; impossible requests do nothing.
  function Act(db: Db, a: Action): Db {
    match a
    case Begin(tid, ops) =>
      if tid in db.active then db else db.(active := db.active[tid := Txn(ops, 0, map[])])
    case Advance(tid) =>
      if tid !in db.active || db.active[tid].pc >= |db.active[tid].ops| then db
      else
        var txn := db.active[tid];
        var op := txn.ops[txn.pc];
        var key := op.Row();
        if key in db.locks && db.locks[key] != tid then db
        else
          (match Apply(op, Lookup(db.committed + txn.writes, key))
           case None => EndTxn(db, tid)
           case Some(cell) =>
             db.(locks := db.locks[key := tid],
                 active := db.active[tid := Txn(txn.ops, txn.pc + 1, txn.writes[key := cell])]))
    case Commit(tid) =>
      if tid !in db.active || db.active[tid].pc != |db.active[tid].ops| then db
      else
        EndTxn(db.(committed := db.committed + db.active[tid].writes,
                   history := db.history + [db.active[tid].ops]), tid)
    case Rollback(tid) => if tid in db.active then EndTxn(db, tid) else db
  }

  function Interleave(db: Db, actions: seq<Action>): Db
    decreases actions
  {
    if actions == [] then db else Interleave(Act(db, actions[0]), actions[1..])
  }

  // ----- Serial execution: one operation after another on the store itself -----

  function Exec(store: Store, ops: seq<Op>): Option<Store> {
    if ops == [] then Some(store)
    else
      match Exec(store, ops[..|ops| - 1])
      case None => None
      case Some(s) =>
        var op := ops[|ops| - 1];
        (match Apply(op, Lookup(s, op.Row()))
         case None => None
         case Some(cell) => Some(s[op.Row() := cell]))
  }

  function Serial(store: Store, history: seq<seq<Op>>): Option<Store> {
    if history == [] then Some(store)
    else
      match Serial(store, history[..|history| - 1])
      case None => None
      case Some(s) => Exec(s, history[|history| - 1])
  }

  // ----- Interleaving is serial in commit order -----

  function Rows(ops: seq<Op>): set<Key> {
    if ops == [] then {} else Rows(ops[..|ops| - 1]) + {ops[|ops| - 1].Row()}
  }

  ghost predicate Agree(a: Store, b: Store, rows: set<Key>) {
    forall k :: k in rows ==> Lookup(a, k) == Lookup(b, k)
  }

  ghost predicate AgreeOutside(a: Store, b: Store, rows: set<Key>) {
    forall k :: k !in rows ==> Lookup(a, k) == Lookup(b, k)
  }

  // From stores that agree on the rows used, execution ends with agreeing rows
  // and leaves the others alone.
  lemma {:induction false} ExecFrame(a: Store, b: Store, ops: seq<Op>)
    requires Agree(a, b, Rows(ops)) && Exec(a, ops).Some?
    ensures Exec(b, ops).Some?
    ensures Agree(Exec(a, ops).value, Exec(b, ops).value, Rows(ops))
    ensures AgreeOutside(Exec(a, ops).value, a, Rows(ops)) && AgreeOutside(Exec(b, ops).value, b, Rows(ops))
  {
    if ops != [] {
      var front, op := ops[..|ops| - 1], ops[|ops| - 1];
      ExecFrame(a, b, front);
      var sa, sb := Exec(a, front).value, Exec(b, front).value;
      assert Lookup(sa, op.Row()) == Lookup(sb, op.Row());
    }
  }

  lemma SameLookups(a: Store, b: Store)
    requires forall k :: Lookup(a, k) == Lookup(b, k)
    ensures a == b
  {
    assert forall k :: k in a <==> Lookup(a, k).Some?;
    assert forall k :: k in b <==> Lookup(b, k).Some?;
    forall k | k in a ensures a[k] == b[k] {
      assert Lookup(a, k) == Lookup(b, k);
    }
  }

  // A transaction's own writes are what it would have written alone on the
  // store as committed now, and it holds the lock of every row it used.
  ghost predicate TxnInv(db: Db, tid: int)
    requires tid in db.active
  {
    var txn := db.active[tid];
    && txn.pc <= |txn.ops|
    && txn.writes.Keys == Rows(txn.ops[..txn.pc])
    && (forall k :: k in txn.writes ==> k in db.locks && db.locks[k] == tid)
    && Exec(db.committed, txn.ops[..txn.pc]) == Some(db.committed + txn.writes)
  }

  ghost predicate DbInv(initial: Store, db: Db) {
    && Serial(initial, db.history) == Some(db.committed)
    && (forall tid :: tid in db.active ==> TxnInv(db, tid))
  }

  // Committing writes to other rows does not disturb a transaction.
  lemma CommitBeside(committed: Store, other: Store, ops: seq<Op>, writes: Store)
    requires writes.Keys == Rows(ops) && Exec(committed, ops) == Some(committed + writes)
    requires forall k :: k in other ==> k !in writes
    ensures Exec(committed + other, ops) == Some(committed + other + writes)
  {
    var after := committed + other;
    assert Agree(committed, after, Rows(ops));
    ExecFrame(committed, after, ops);
    var r := Exec(after, ops).value;
    forall k ensures Lookup(r, k) == Lookup(after + writes, k) {
      if k in Rows(ops) {
        assert Lookup(r, k) == Lookup(committed + writes, k);
      } else {
        assert Lookup(r, k) == Lookup(after, k);
      }
    }
    SameLookups(r, after + writes);
  }

  lemma AdvanceKeepsOwn(db: Db, tid: int, op: Op, cell: Cell)
    requires tid in db.active && TxnInv(db, tid)
    requires db.active[tid].pc < |db.active[tid].ops| && op == db.active[tid].ops[db.active[tid].pc]
    requires Apply(op, Lookup(db.committed + db.active[tid].writes, op.Row())) == Some(cell)
    ensures var txn := db.active[tid];
            && txn.writes[op.Row() := cell].Keys == Rows(txn.ops[..txn.pc + 1])
            && Exec(db.committed, txn.ops[..txn.pc + 1]) == Some(db.committed + txn.writes[op.Row() := cell])
  {
    var txn := db.active[tid];
    var done := txn.ops[..txn.pc + 1];
    assert done[..txn.pc] == txn.ops[..txn.pc];
    assert db.committed + txn.writes[op.Row() := cell] == (db.committed + txn.writes)[op.Row() := cell];
  }

  lemma AdvanceKeepsInv(initial: Store, db: Db, tid: int)
    requires DbInv(initial, db) && tid in db.active && db.active[tid].pc < |db.active[tid].ops|
    ensures DbInv(initial, Act(db, Advance(tid)))
  {
    var txn := db.active[tid];
    var op := txn.ops[txn.pc];
    var r := Act(db, Advance(tid));
    var cell := Apply(op, Lookup(db.committed + txn.writes, op.Row()));
    if !(op.Row() in db.locks && db.locks[op.Row()] != tid) && cell.Some? {
      AdvanceKeepsOwn(db, tid, op, cell.value);
    }
    forall other | other in r.active && other != tid ensures TxnInv(r, other) {
      assert TxnInv(db, other);
    }
  }

  lemma CommitKeepsInv(initial: Store, db: Db, tid: int)
    requires DbInv(initial, db) && tid in db.active && db.active[tid].pc == |db.active[tid].ops|
    ensures DbInv(initial, Act(db, Commit(tid)))
  {
    var txn := db.active[tid];
    var r := Act(db, Commit(tid));
    assert txn.ops[..txn.pc] == txn.ops;
    assert TxnInv(db, tid);
    assert r.history[..|r.history| - 1] == db.history;
    forall other | other in r.active ensures TxnInv(r, other) {
      assert TxnInv(db, other);
      var o := db.active[other];
      CommitBeside(db.committed, txn.writes, o.ops[..o.pc], o.writes);
    }
  }

  lemma ActKeepsInv(initial: Store, db: Db, a: Action)
    requires DbInv(initial, db)
    ensures DbInv(initial, Act(db, a))
  {
    var r := Act(db, a);
    match a
    case Begin(tid, ops) =>
      forall t | t in r.active ensures TxnInv(r, t) {
        if t in db.active {
          assert TxnInv(db, t);
        } else {
          assert ops[..0] == [] && db.committed + map[] == db.committed;
        }
      }
    case Advance(tid) =>
      if tid in db.active && db.active[tid].pc < |db.active[tid].ops| { AdvanceKeepsInv(initial, db, tid); }
    case Commit(tid) =>
      if tid in db.active && db.active[tid].pc == |db.active[tid].ops| { CommitKeepsInv(initial, db, tid); }
    case Rollback(tid) =>
      forall t | t in r.active ensures TxnInv(r, t) { assert TxnInv(db, t); }
  }

  function Start(initial: Store): Db { Db(initial, map[], map[], []) }

  lemma {:induction false} InterleaveKeepsInv(initial: Store, db: Db, actions: seq<Action>)
    requires DbInv(initial, db)
    ensures DbInv(initial, Interleave(db, actions))
    decreases actions
  {
    if actions != [] {
      ActKeepsInv(initial, db, actions[0]);
      InterleaveKeepsInv(initial, Act(db, actions[0]), actions[1..]);
    }
  }

  /** Under every interleaving of transactions that keep their row locks to the
      end, the committed rows are those of running the committed transactions
      alone, one after another, in commit order. */
  lemma InterleavingIsSerial(initial: Store, actions: seq<Action>)
    ensures var db := Interleave(Start(initial), actions);
            Serial(initial, db.history) == Some(db.committed)
  {
    InterleaveKeepsInv(initial, Start(initial), actions);
  }

  // ----- A transaction that meets no lock of others commits, unless it fails -----

  // Locks belong to transactions that are still running.
  ghost predicate LocksHeld(db: Db) {
    forall k :: k in db.locks ==> db.locks[k] in db.active
  }

  lemma {:induction false} InterleaveKeepsLocksHeld(db: Db, actions: seq<Action>)
    requires LocksHeld(db)
    ensures LocksHeld(Interleave(db, actions))
    decreases actions
  {
    if actions != [] {
      InterleaveKeepsLocksHeld(Act(db, actions[0]), actions[1..]);
    }
  }

  // n operations, then the commit.
  function Rest(tid: int, n: nat): seq<Action> {
    if n == 0 then [Commit(tid)] else [Advance(tid)] + Rest(tid, n - 1)
  }

  // The other transactions are as they were, with their locks.
  ghost predicate OthersKept(db: Db, r: Db, tid: int) {
    && r.active - {tid} == db.active - {tid}
    && (forall k :: k in db.locks && db.locks[k] != tid ==> k in r.locks && r.locks[k] == db.locks[k])
    && (forall k :: k in r.locks && r.locks[k] != tid ==> k in db.locks && db.locks[k] == r.locks[k])
  }

  // What the whole transaction leaves, started on these committed rows: all its
  // effect or none, its locks given back, the others as they were.
  ghost predicate RanAlone(db: Db, r: Db, tid: int, ops: seq<Op>) {
    && r.committed == (match Exec(db.committed, ops) case Some(s) => s case None => db.committed)
    && r.history == (if Exec(db.committed, ops).Some? then db.history + [ops] else db.history)
    && OthersKept(db, r, tid) && tid !in r.active && forall k :: k in r.locks ==> r.locks[k] != tid
  }

  ghost predicate FreeFor(db: Db, tid: int, rows: set<Key>) {
    forall k :: k in rows && k in db.locks ==> db.locks[k] == tid
  }

  lemma {:induction false} FailedPrefix(store: Store, ops: seq<Op>, n: nat)
    requires n <= |ops| && Exec(store, ops[..n]) == None
    ensures Exec(store, ops) == None
    decreases |ops|
  {
    if n == |ops| {
      assert ops[..n] == ops;
    } else {
      assert ops[..|ops| - 1][..n] == ops[..n];
      FailedPrefix(store, ops[..|ops| - 1], n);
    }
  }

  lemma {:induction false} RowUsed(ops: seq<Op>, n: nat)
    requires n < |ops|
    ensures ops[n].Row() in Rows(ops)
    decreases |ops|
  {
    if n < |ops| - 1 {
      RowUsed(ops[..|ops| - 1], n);
    }
  }

  lemma {:induction false} AbsentDoesNothing(db: Db, tid: int, n: nat)
    requires tid !in db.active
    ensures Interleave(db, Rest(tid, n)) == db
  {
    var script := Rest(tid, n);
    if n > 0 {
      assert script[1..] == Rest(tid, n - 1);
      AbsentDoesNothing(db, tid, n - 1);
    } else {
      assert script[1..] == [];
    }
  }

  lemma OneAdvance(db: Db, tid: int)
    requires tid in db.active && TxnInv(db, tid) && db.active[tid].pc < |db.active[tid].ops|
    requires FreeFor(db, tid, Rows(db.active[tid].ops))
    ensures var r, txn := Act(db, Advance(tid)), db.active[tid];
            && r.committed == db.committed && r.history == db.history
            && OthersKept(db, r, tid)
            && (if tid in r.active
                then && TxnInv(r, tid) && FreeFor(r, tid, Rows(txn.ops))
                     && r.active[tid].ops == txn.ops && r.active[tid].pc == txn.pc + 1
                else Exec(db.committed, txn.ops) == None && forall k :: k in r.locks ==> r.locks[k] != tid)
  {
    var txn := db.active[tid];
    RowUsed(txn.ops, txn.pc);
    var next := txn.ops[..txn.pc + 1];
    assert next[..txn.pc] == txn.ops[..txn.pc] && TxnInv(db, tid);
    var cell := Apply(txn.ops[txn.pc], Lookup(db.committed + txn.writes, txn.ops[txn.pc].Row()));
    if cell == None {
      assert Exec(db.committed, next) == None;
      FailedPrefix(db.committed, txn.ops, txn.pc + 1);
    } else {
      AdvanceKeepsOwn(db, tid, txn.ops[txn.pc], cell.value);
    }
  }

  lemma LastCommit(db: Db, tid: int)
    requires tid in db.active && TxnInv(db, tid) && db.active[tid].pc == |db.active[tid].ops|
    ensures RanAlone(db, Act(db, Commit(tid)), tid, db.active[tid].ops)
  {
    assert db.active[tid].ops[..db.active[tid].pc] == db.active[tid].ops;
  }

  lemma KeptOnward(db: Db, m: Db, r: Db, tid: int)
    requires OthersKept(db, m, tid) && OthersKept(m, r, tid)
    ensures OthersKept(db, r, tid)
  {
  }

  lemma RanOnward(db: Db, m: Db, r: Db, tid: int, ops: seq<Op>)
    requires m.committed == db.committed && m.history == db.history
    ensures OthersKept(db, m, tid) && RanAlone(m, r, tid, ops) ==> RanAlone(db, r, tid, ops)
  {
    if OthersKept(db, m, tid) && RanAlone(m, r, tid, ops) {
      KeptOnward(db, m, r, tid);
    }
  }

  lemma {:induction false} RunRest(db: Db, tid: int, ops: seq<Op>, n: nat)
    requires tid in db.active && TxnInv(db, tid) && FreeFor(db, tid, Rows(ops))
    requires ops == db.active[tid].ops && n == |ops| - db.active[tid].pc
    ensures RanAlone(db, Interleave(db, Rest(tid, n)), tid, ops)
    decreases n
  {
    RestStarts(db, tid, n);
    if n == 0 {
      LastCommit(db, tid);
    } else {
      OneAdvance(db, tid);
      var next := Act(db, Advance(tid));
      if tid in next.active {
        RunRest(next, tid, ops, n - 1);
        RanOnward(db, next, Interleave(next, Rest(tid, n - 1)), tid, ops);
      } else {
        AbsentDoesNothing(next, tid, n - 1);
      }
    }
  }

  lemma RestStarts(db: Db, tid: int, n: nat)
    ensures Interleave(db, Rest(tid, n))
         == if n == 0 then Act(db, Commit(tid)) else Interleave(Act(db, Advance(tid)), Rest(tid, n - 1))
  {
    var script := Rest(tid, n);
    assert script[1..] == if n == 0 then [] else Rest(tid, n - 1);
  }

  // A transaction from its first statement to its commit.
  function Whole(tid: int, ops: seq<Op>): seq<Action> {
    [Begin(tid, ops)] + Rest(tid, |ops|)
  }

  lemma WholeStarts(db: Db, tid: int, ops: seq<Op>)
    ensures Interleave(db, Whole(tid, ops)) == Interleave(Act(db, Begin(tid, ops)), Rest(tid, |ops|))
  {
    assert Whole(tid, ops)[1..] == Rest(tid, |ops|);
  }

  /** In every reachable state, a new transaction that runs to its end while no other
      holds the lock of a row it uses commits all its operations, with the effect they
      have on the rows committed by then, unless one of them fails; then it leaves
      nothing. Either way it gives its locks back and disturbs nobody. */
  lemma UncontendedCommits(initial: Store, actions: seq<Action>, tid: int, ops: seq<Op>)
    requires tid !in Interleave(Start(initial), actions).active
    requires forall k :: k in Rows(ops) ==> k !in Interleave(Start(initial), actions).locks
    ensures RanAlone(Interleave(Start(initial), actions),
                     Interleave(Interleave(Start(initial), actions), Whole(tid, ops)), tid, ops)
  {
    var db := Interleave(Start(initial), actions);
    InterleaveKeepsInv(initial, Start(initial), actions);
    InterleaveKeepsLocksHeld(Start(initial), actions);
    ActKeepsInv(initial, db, Begin(tid, ops));
    BegunRuns(db, tid, ops);
    WholeStarts(db, tid, ops);
  }

  lemma BegunRuns(db: Db, tid: int, ops: seq<Op>)
    requires LocksHeld(db) && tid !in db.active && TxnInv(Act(db, Begin(tid, ops)), tid)
    requires forall k :: k in Rows(ops) ==> k !in db.locks
    ensures RanAlone(db, Interleave(Act(db, Begin(tid, ops)), Rest(tid, |ops|)), tid, ops)
  {
    var begun := Act(db, Begin(tid, ops));
    RunRest(begun, tid, ops, |ops|);
    RanOnward(db, begun, Interleave(begun, Rest(tid, |ops|)), tid, ops);
  }

  /** A transaction that rolls back leaves nothing: its locks are given back, the
      committed rows and all others are as they were. */
  lemma RollbackLeavesNothing(initial: Store, actions: seq<Action>, tid: int)
    ensures var db := Interleave(Start(initial), actions);
            var r := Act(db, Rollback(tid));
            && r.committed == db.committed && r.history == db.history && OthersKept(db, r, tid)
            && tid !in r.active && forall k :: k in r.locks ==> r.locks[k] != tid
  {
    InterleaveKeepsLocksHeld(Start(initial), actions);
  }

  /** A transaction that needs a row locked by another one waits; once that one has
      committed, it goes on from what was committed. */
  lemma WaiterSeesCommit(db: Db, tid: int, other: int)
    requires tid in db.active && db.active[tid].pc < |db.active[tid].ops| && other in db.active && other != tid
    requires db.active[other].pc == |db.active[other].ops|
    requires var key := db.active[tid].ops[db.active[tid].pc].Row();
             key in db.locks && db.locks[key] == other && key !in db.active[tid].writes
    ensures Act(db, Advance(tid)) == db
    ensures var r, txn := Act(Act(db, Commit(other)), Advance(tid)), db.active[tid];
            var op := txn.ops[txn.pc];
            var cell := Apply(op, Lookup(db.committed + db.active[other].writes, op.Row()));
            if cell.Some? then tid in r.active && r.active[tid].writes == txn.writes[op.Row() := cell.value]
            else tid !in r.active && r.committed == db.committed + db.active[other].writes
  {
  }

  // ----- No credit change is lost -----

  function Amount(store: Store, teacher: int): int {
    match Lookup(store, CreditRow(teacher))
    case Some(Credits(n)) => n
    case _ => 0
  }

  function Changes(ops: seq<Op>, teacher: int): int {
    if ops == [] then 0
    else Changes(ops[..|ops| - 1], teacher)
         + (match ops[|ops| - 1] case Change(t, c) => (if t == teacher then c else 0) case Decide(_, _) => 0)
  }

  function CommittedChanges(history: seq<seq<Op>>, teacher: int): int {
    if history == [] then 0
    else CommittedChanges(history[..|history| - 1], teacher) + Changes(history[|history| - 1], teacher)
  }

  lemma {:induction false} ExecAmount(store: Store, ops: seq<Op>, teacher: int)
    requires Exec(store, ops).Some?
    ensures Amount(Exec(store, ops).value, teacher) == Amount(store, teacher) + Changes(ops, teacher)
  {
    if ops != [] {
      ExecAmount(store, ops[..|ops| - 1], teacher);
    }
  }

  lemma {:induction false} SerialAmount(store: Store, history: seq<seq<Op>>, teacher: int)
    requires Serial(store, history).Some?
    ensures Amount(Serial(store, history).value, teacher)
         == Amount(store, teacher) + CommittedChanges(history, teacher)
  {
    if history != [] {
      var front := history[..|history| - 1];
      SerialAmount(store, front, teacher);
      ExecAmount(Serial(store, front).value, history[|history| - 1], teacher);
    }
  }

  /** Whatever the interleaving, the final balance is the initial balance plus
      every committed change. */
  lemma NoLostCredit(initial: Store, actions: seq<Action>, teacher: int)
    ensures var db := Interleave(Start(initial), actions);
            Amount(db.committed, teacher) == Amount(initial, teacher) + CommittedChanges(db.history, teacher)
  {
    InterleavingIsSerial(initial, actions);
    SerialAmount(initial, Interleave(Start(initial), actions).history, teacher);
  }

  // ----- One decision per leave -----

  function Decisions(ops: seq<Op>, id: int): nat {
    if ops == [] then 0
    else Decisions(ops[..|ops| - 1], id) + (var op := ops[|ops| - 1]; if op.Decide? && op.id == id then 1 else 0)
  }

  function CommittedDecisions(history: seq<seq<Op>>, id: int): nat {
    if history == [] then 0
    else CommittedDecisions(history[..|history| - 1], id) + Decisions(history[|history| - 1], id)
  }

  // Deciding means approving or rejecting.
  ghost predicate Decisive(ops: seq<Op>) {
    forall op :: op in ops && op.Decide? ==> op.status == Approved || op.status == Rejected
  }

  predicate IsPending(store: Store, id: int) {
    Lookup(store, LeaveRow(id)) == Some(Decision(Pending))
  }

  lemma {:induction false} ExecDecisions(store: Store, ops: seq<Op>, id: int)
    requires Exec(store, ops).Some? && Decisive(ops)
    ensures Decisions(ops, id) <= 1
    ensures Decisions(ops, id) == 1 ==> IsPending(store, id) && !IsPending(Exec(store, ops).value, id)
    ensures Decisions(ops, id) == 0 ==>
              Lookup(Exec(store, ops).value, LeaveRow(id)) == Lookup(store, LeaveRow(id))
  {
    if ops != [] {
      ExecDecisions(store, ops[..|ops| - 1], id);
      assert ops[|ops| - 1] in ops;
    }
  }

  lemma {:induction false} SerialDecisions(store: Store, history: seq<seq<Op>>, id: int)
    requires Serial(store, history).Some? && forall i :: 0 <= i < |history| ==> Decisive(history[i])
    ensures CommittedDecisions(history, id) <= 1
    ensures CommittedDecisions(history, id) == 1 ==>
              IsPending(store, id) && !IsPending(Serial(store, history).value, id)
    ensures CommittedDecisions(history, id) == 0 ==>
              Lookup(Serial(store, history).value, LeaveRow(id)) == Lookup(store, LeaveRow(id))
  {
    if history != [] {
      var front := history[..|history| - 1];
      SerialDecisions(store, front, id);
      ExecDecisions(Serial(store, front).value, history[|history| - 1], id);
    }
  }

  /** Of any number of concurrent approvals and rejections of one leave, at
      most one commits, and only if the leave was pending at the start. */
  lemma AtMostOneDecision(initial: Store, actions: seq<Action>, id: int)
    requires forall i :: 0 <= i < |actions| && actions[i].Begin? ==> Decisive(actions[i].ops)
    ensures var n := CommittedDecisions(Interleave(Start(initial), actions).history, id);
            n <= 1 && (n == 1 ==> IsPending(initial, id))
  {
    InterleavingIsSerial(initial, actions);
    HistoryIsDecisive(Start(initial), actions);
    SerialDecisions(initial, Interleave(Start(initial), actions).history, id);
  }

  lemma {:induction false} HistoryIsDecisive(db: Db, actions: seq<Action>)
    requires forall i :: 0 <= i < |actions| && actions[i].Begin? ==> Decisive(actions[i].ops)
    requires forall i :: 0 <= i < |db.history| ==> Decisive(db.history[i])
    requires forall t :: t in db.active ==> Decisive(db.active[t].ops)
    ensures forall i :: 0 <= i < |Interleave(db, actions).history| ==> Decisive(Interleave(db, actions).history[i])
    decreases actions
  {
    if actions != [] {
      HistoryIsDecisive(Act(db, actions[0]), actions[1..]);
    }
  }
}
