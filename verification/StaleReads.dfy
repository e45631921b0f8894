/**
Requests that read a leave and its assignment without a lock and write later:
assigning, overriding, undoing and cancelling. Between the read and the write
other requests may commit. Credit rows are locked, so each write takes effect as
one step; what it writes is computed from what was read.

Deleting an assignment row that is already gone deletes nothing; updating one
that is gone, or inserting a second one for a leave, fails and rolls back.
*/
module StaleReads {
  import opened Options
  import opened Leaves
  import opened LeaveLaws

  // The tables, with the key of each leave's assignment row.
  datatype Shared = Shared(s: State, rows: map<int, int>, nextRow: int)

  // A request that passed its checks, with what it read: the tables, and the key
  // of the assignment row it found.
  datatype Session = Session(command: Command, seen: State, row: int)

  predicate Unlocked(c: Command) {
    c.Undo? || c.CancelByTeacher? || c.CancelByAdmin? || c.Override? || c.Assign?
  }

  // ----- What a request writes -----

  // Both credits are given back as read; the row goes if it is still that row.
  function WriteReversal(sh: Shared, id: int, leaver: int, substitute: int, row: int): Shared {
    var s1 := Credit(Credit(sh.s, leaver, 1, Correction, Some(id)), substitute, -1, Correction, Some(id));
    if id in sh.rows && sh.rows[id] == row
    then sh.(s := s1.(covers := s1.covers - {id}), rows := sh.rows - {id})
    else sh.(s := s1)
  }

  function WriteOverride(sh: Shared, id: int, was: int, substitute: int, row: int): Shared {
    if id in sh.rows && id in sh.s.covers && sh.rows[id] == row then
      var s1 := Credit(Credit(sh.s, was, -1, Correction, Some(id)), substitute, 1, SubstituteClass, Some(id));
      sh.(s := s1.(covers := s1.covers[id := Cover(substitute, Overridden, sh.s.covers[id].locked)]))
    else sh
  }

  function WriteAssignment(sh: Shared, id: int, substitute: int, how: AssignmentType): Shared {
    if id in sh.rows || id !in sh.s.leaves then sh
    else sh.(s := AddCover(sh.s, id, substitute, how), rows := sh.rows[id := sh.nextRow], nextRow := sh.nextRow + 1)
  }

  function WriteCancellation(sh: Shared, x: Session): Shared
    requires x.command.CancelByTeacher? || x.command.CancelByAdmin?
  {
    var id := x.command.id;
    if id !in sh.s.leaves || id !in x.seen.leaves then sh
    else
      var sh1 := if id in x.seen.covers
                 then WriteReversal(sh, id, x.seen.leaves[id].teacher, x.seen.covers[id].substitute, x.row)
                 else sh;
      sh1.(s := SetStatus(sh1.s, id, Cancelled))
  }

  function Write(sh: Shared, x: Session): Shared {
    match x.command
    case Undo(id) =>
      if id in x.seen.covers && id in x.seen.leaves
      then WriteReversal(sh, id, x.seen.leaves[id].teacher, x.seen.covers[id].substitute, x.row)
      else sh
    case Override(id, substitute, _) =>
      if id in x.seen.covers then WriteOverride(sh, id, x.seen.covers[id].substitute, substitute, x.row) else sh
    case Assign(id, substitute, how, _) => WriteAssignment(sh, id, substitute, how)
    case CancelByTeacher(_, _) => WriteCancellation(sh, x)
    case CancelByAdmin(_) => WriteCancellation(sh, x)
    case _ => sh
  }

  function RowOf(sh: Shared, c: Command): int {
    if Unlocked(c) && c.id in sh.rows then sh.rows[c.id] else 0
  }

  /** A request that writes before anything else commits has the effect of the
      step it stands for. */
  lemma FreshWriteIsStep(w: World, sh: Shared, c: Command)
    requires SharedShape(sh) && Unlocked(c) && Accepted(w, sh.s, c)
    ensures Write(sh, Session(c, sh.s, RowOf(sh, c))).s == Step(w, sh.s, c)
  {
  }

  // ----- The ledger law under stale writes -----

  // Every assignment is for a stored leave, by someone else than its leaver.
  ghost predicate Attached(s: State) {
    forall id :: id in s.covers ==> id in s.leaves && s.covers[id].substitute != s.leaves[id].teacher
  }

  ghost predicate SharedShape(sh: Shared) {
    && Attached(sh.s) && sh.rows.Keys == sh.s.covers.Keys && 0 < sh.nextRow
    && (forall id :: id in sh.rows ==> 0 < sh.rows[id] < sh.nextRow)
  }

  // What was read came from tables with these laws, and the leave is still there.
  ghost predicate ReadOf(sh: Shared, x: Session) {
    && Unlocked(x.command) && Attached(x.seen) && x.command.id in x.seen.leaves && x.command.id in sh.s.leaves
    && sh.s.leaves[x.command.id].teacher == x.seen.leaves[x.command.id].teacher
    && (x.command.id in x.seen.covers ==> 0 < x.row < sh.nextRow)
    && (x.command.Assign? || x.command.Override? ==>
          x.command.substitute != x.seen.leaves[x.command.id].teacher)
  }

  // The assignment row is the one read, with the substitute read.
  predicate StillCurrent(sh: Shared, x: Session)
    requires Unlocked(x.command) && x.command.id in x.seen.covers
  {
    var id := x.command.id;
    id in sh.rows && id in sh.s.covers && sh.rows[id] == x.row
    && sh.s.covers[id].substitute == x.seen.covers[id].substitute
  }

  lemma TwoCredits(s: State, a: int, da: int, ca: Category, b: int, db: int, cb: Category, id: int)
    requires (da == -1 && db == 1) || (da == 1 && db == -1)
    ensures var r := Credit(Credit(s, a, da, ca, Some(id)), b, db, cb, Some(id));
            && r.covers == s.covers && r.leaves == s.leaves
            && forall t, i :: Tagged(r.ledger, t, i) == Tagged(s.ledger, t, i)
                 + (if i == id && t == a then da else 0) + (if i == id && t == b then db else 0)
  {
    TransferMoves(s, a, da, ca, b, db, cb, id);
  }

  lemma ReversalLedgerIff(sh: Shared, id: int, leaver: int, substitute: int, row: int)
    requires SharedShape(sh) && LedgerLaw(sh.s)
    requires id in sh.s.leaves && sh.s.leaves[id].teacher == leaver && leaver != substitute
    ensures LedgerLaw(WriteReversal(sh, id, leaver, substitute, row).s)
       <==> id in sh.rows && id in sh.s.covers && sh.rows[id] == row && sh.s.covers[id].substitute == substitute
  {
    var r := WriteReversal(sh, id, leaver, substitute, row).s;
    TwoCredits(sh.s, leaver, 1, Correction, substitute, -1, Correction, id);
    if id in sh.rows && sh.rows[id] == row && sh.s.covers[id].substitute == substitute {
      forall t, i ensures Tagged(r.ledger, t, i) == Stake(r, t, i) {
        assert Tagged(sh.s.ledger, t, i) == Stake(sh.s, t, i);
      }
    } else {
      // The substitute read is charged for a stake it did not have, or keeps one.
      assert Tagged(sh.s.ledger, substitute, id) == Stake(sh.s, substitute, id);
      assert Tagged(r.ledger, substitute, id) == Stake(sh.s, substitute, id) - 1;
      assert Stake(r, substitute, id) == Stake(sh.s, substitute, id);
    }
  }

  lemma OverrideLedgerIff(sh: Shared, id: int, was: int, substitute: int, row: int)
    requires SharedShape(sh) && LedgerLaw(sh.s) && id in sh.rows && sh.rows[id] == row
    ensures LedgerLaw(WriteOverride(sh, id, was, substitute, row).s) <==> sh.s.covers[id].substitute == was
  {
    var r := WriteOverride(sh, id, was, substitute, row).s;
    var current := sh.s.covers[id].substitute;
    TwoCredits(sh.s, was, -1, Correction, substitute, 1, SubstituteClass, id);
    if current == was {
      forall t, i ensures Tagged(r.ledger, t, i) == Stake(r, t, i) {
        assert Tagged(sh.s.ledger, t, i) == Stake(sh.s, t, i);
      }
    } else {
      assert Tagged(sh.s.ledger, current, id) == Stake(sh.s, current, id);
      assert Tagged(r.ledger, current, id) != Stake(r, current, id);
    }
  }

  lemma AssignmentKeepsLedger(sh: Shared, id: int, substitute: int, how: AssignmentType)
    requires SharedShape(sh) && LedgerLaw(sh.s)
    ensures LedgerLaw(WriteAssignment(sh, id, substitute, how).s)
  {
    if id !in sh.rows && id in sh.s.leaves {
      var r := WriteAssignment(sh, id, substitute, how).s;
      var s1 := sh.s.(covers := sh.s.covers[id := Cover(substitute, how, false)]);
      TwoCredits(s1, sh.s.leaves[id].teacher, -1, Penalty, substitute, 1, SubstituteClass, id);
      forall t, i ensures Tagged(r.ledger, t, i) == Stake(r, t, i) {
        assert Tagged(sh.s.ledger, t, i) == Stake(sh.s, t, i);
      }
    }
  }

  lemma StatusKeepsLedger(s: State, id: int, status: Status)
    requires id in s.leaves
    ensures LedgerLaw(SetStatus(s, id, status)) <==> LedgerLaw(s)
  {
    forall t, i ensures Stake(SetStatus(s, id, status), t, i) == Stake(s, t, i) {
    }
    if LedgerLaw(SetStatus(s, id, status)) {
      forall t, i ensures Tagged(s.ledger, t, i) == Stake(s, t, i) {
        assert Tagged(SetStatus(s, id, status).ledger, t, i) == Stake(SetStatus(s, id, status), t, i);
      }
    } else {
      var t, i :| Tagged(s.ledger, t, i) != Stake(SetStatus(s, id, status), t, i);
      assert Tagged(s.ledger, t, i) != Stake(s, t, i);
    }
  }

  // The write goes through instead of being rolled back.
  predicate GoesThrough(sh: Shared, x: Session) {
    x.command.Override? ==> x.command.id in sh.rows && sh.rows[x.command.id] == x.row
  }

  // What a stale write needs so as not to upset the ledger.
  predicate HarmlessForLedger(sh: Shared, x: Session)
    requires Unlocked(x.command)
  {
    x.command.Assign? || x.command.id !in x.seen.covers || !GoesThrough(sh, x) || StillCurrent(sh, x)
  }

  /** Whatever committed in between, a write keeps the ledger equal to who covers
      whom if and only if it is an assignment, found no assignment, is rolled back,
      or finds the very assignment it had read. */
  lemma StaleWriteKeepsLedgerIff(sh: Shared, x: Session)
    requires SharedShape(sh) && LedgerLaw(sh.s) && ReadOf(sh, x)
    ensures LedgerLaw(Write(sh, x).s) <==> HarmlessForLedger(sh, x)
  {
    var id := x.command.id;
    match x.command
    case Assign(_, substitute, how, _) => AssignmentKeepsLedger(sh, id, substitute, how);
    case Override(_, substitute, _) =>
      if id in x.seen.covers && GoesThrough(sh, x) {
        OverrideLedgerIff(sh, id, x.seen.covers[id].substitute, substitute, x.row);
      }
    case Undo(_) =>
      if id in x.seen.covers {
        ReversalLedgerIff(sh, id, x.seen.leaves[id].teacher, x.seen.covers[id].substitute, x.row);
      }
    case _ => CancellationLedgerIff(sh, x);
  }

  lemma CancellationLedgerIff(sh: Shared, x: Session)
    requires SharedShape(sh) && LedgerLaw(sh.s) && ReadOf(sh, x)
    requires x.command.CancelByTeacher? || x.command.CancelByAdmin?
    ensures LedgerLaw(Write(sh, x).s) <==> HarmlessForLedger(sh, x)
  {
    var id := x.command.id;
    if id in x.seen.covers {
      ReversalLedgerIff(sh, id, x.seen.leaves[id].teacher, x.seen.covers[id].substitute, x.row);
      StatusKeepsLedger(WriteReversal(sh, id, x.seen.leaves[id].teacher, x.seen.covers[id].substitute, x.row).s,
                        id, Cancelled);
    } else {
      StatusKeepsLedger(sh.s, id, Cancelled);
    }
  }

  // ----- Two undos at once -----

  /** Two undos that read the same assignment both reverse it, in every state: the
      leaver ends one credit up, the substitute one credit down, and the ledger no
      longer says who covers whom. */
  lemma TwoUndosReverseTwice(w: World, sh: Shared, id: int)
    requires SharedShape(sh) && Inv(sh.s) && Accepted(w, sh.s, Undo(id))
    ensures var x := Session(Undo(id), sh.s, sh.rows[id]);
            var once, twice := Write(sh, x), Write(Write(sh, x), x);
            && Inv(once.s) && !LedgerLaw(twice.s)
            && Balance(twice.s, sh.s.leaves[id].teacher) == Balance(once.s, sh.s.leaves[id].teacher) + 1
            && Balance(twice.s, sh.s.covers[id].substitute) == Balance(once.s, sh.s.covers[id].substitute) - 1
  {
    var x := Session(Undo(id), sh.s, sh.rows[id]);
    var once := Write(sh, x);
    FreshWriteIsStep(w, sh, Undo(id));
    StepKeepsInv(w, sh.s, Undo(id));
    StaleWriteKeepsLedgerIff(once, x);
    TransferMoves(once.s, sh.s.leaves[id].teacher, 1, Correction, sh.s.covers[id].substitute, -1, Correction, id);
  }

  // ----- Interleavings -----

  datatype System = System(shared: Shared, sessions: map<int, Session>)

  datatype Action = Read(tid: int, world: World, command: Command) | Commit(tid: int)

  // A refused request reads and ends; an accepted one writes when it commits.
  function Act(sys: System, a: Action): System {
    match a
    case Read(tid, w, c) =>
      if Unlocked(c) && Accepted(w, sys.shared.s, c)
      then sys.(sessions := sys.sessions[tid := Session(c, sys.shared.s, RowOf(sys.shared, c))])
      else sys
    case Commit(tid) =>
      if tid in sys.sessions then System(Write(sys.shared, sys.sessions[tid]), sys.sessions - {tid}) else sys
  }

  function Interleave(sys: System, actions: seq<Action>): System
    decreases actions
  {
    if actions == [] then sys else Interleave(Act(sys, actions[0]), actions[1..])
  }

  ghost predicate SystemShape(sys: System) {
    SharedShape(sys.shared) && forall tid :: tid in sys.sessions ==> ReadOf(sys.shared, sys.sessions[tid])
  }

  lemma WriteKeepsShape(sh: Shared, x: Session)
    requires SharedShape(sh) && ReadOf(sh, x)
    ensures SharedShape(Write(sh, x)) && sh.nextRow <= Write(sh, x).nextRow
    ensures forall id :: id in sh.s.leaves ==>
              id in Write(sh, x).s.leaves && Write(sh, x).s.leaves[id].teacher == sh.s.leaves[id].teacher
  {
  }

  lemma ActKeepsShape(sys: System, a: Action)
    requires SystemShape(sys)
    ensures SystemShape(Act(sys, a))
  {
    if a.Commit? && a.tid in sys.sessions {
      WriteKeepsShape(sys.shared, sys.sessions[a.tid]);
    }
  }

  // Every write of the interleaving is harmless when it is made.
  ghost predicate AllHarmlessForLedger(sys: System, actions: seq<Action>)
    decreases actions
  {
    actions != [] ==>
      && (actions[0].Commit? && actions[0].tid in sys.sessions && Unlocked(sys.sessions[actions[0].tid].command)
          ==> HarmlessForLedger(sys.shared, sys.sessions[actions[0].tid]))
      && AllHarmlessForLedger(Act(sys, actions[0]), actions[1..])
  }

  /** So under any interleaving the ledger says at the end who covers whom if every
      write found the assignment it had read, or is one of the other harmless
      kinds. */
  lemma {:induction false} HarmlessInterleavingKeepsLedger(sys: System, actions: seq<Action>)
    requires SystemShape(sys) && LedgerLaw(sys.shared.s) && AllHarmlessForLedger(sys, actions)
    ensures LedgerLaw(Interleave(sys, actions).shared.s) && SystemShape(Interleave(sys, actions))
    decreases actions
  {
    if actions != [] {
      ActKeepsShape(sys, actions[0]);
      if actions[0].Commit? && actions[0].tid in sys.sessions {
        StaleWriteKeepsLedgerIff(sys.shared, sys.sessions[actions[0].tid]);
      }
      HarmlessInterleavingKeepsLedger(Act(sys, actions[0]), actions[1..]);
    }
  }

  lemma {:induction false} InterleaveSnoc(sys: System, actions: seq<Action>, a: Action)
    ensures Interleave(sys, actions + [a]) == Act(Interleave(sys, actions), a)
    decreases actions
  {
    var longer := actions + [a];
    if actions == [] {
      assert longer == [a] && [a][1..] == [];
    } else {
      assert longer[0] == actions[0] && longer[1..] == actions[1..] + [a];
      InterleaveSnoc(Act(sys, actions[0]), actions[1..], a);
    }
  }

  /** After harmless writes only, one more commit keeps the ledger in step if and
      only if it is harmless too. */
  lemma NextCommitDecides(sys: System, actions: seq<Action>, tid: int)
    requires SystemShape(sys) && LedgerLaw(sys.shared.s) && AllHarmlessForLedger(sys, actions)
    ensures var now := Interleave(sys, actions);
            tid in now.sessions ==>
              && Unlocked(now.sessions[tid].command)
              && (LedgerLaw(Interleave(sys, actions + [Commit(tid)]).shared.s)
                  <==> HarmlessForLedger(now.shared, now.sessions[tid]))
  {
    var now := Interleave(sys, actions);
    HarmlessInterleavingKeepsLedger(sys, actions);
    InterleaveSnoc(sys, actions, Commit(tid));
    if tid in now.sessions {
      StaleWriteKeepsLedgerIff(now.shared, now.sessions[tid]);
    }
  }
}
