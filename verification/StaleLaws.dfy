/**
What unlocked reads do to the other laws of the leave machine: exactly which
stale writes keep covers on approved leaves, and substitutes in one place.
*/
module StaleLaws {
  import opened Options
  import opened Leaves
  import opened LeaveLaws
  import opened StaleReads

  // An assignment needs its leave still approved; a cancellation must not meet an
  // assignment other than the one it read.
  predicate HarmlessForStructure(sh: Shared, x: Session)
    requires Unlocked(x.command) && x.command.id in sh.s.leaves
  {
    var id := x.command.id;
    match x.command
    case Assign(_, _, _, _) => id in sh.rows || sh.s.leaves[id].status == Approved
    case CancelByTeacher(_, _) => id !in sh.rows || (id in x.seen.covers && sh.rows[id] == x.row)
    case CancelByAdmin(_) => id !in sh.rows || (id in x.seen.covers && sh.rows[id] == x.row)
    case _ => true
  }

  // The substitute named must not have been taken for the same lesson meanwhile.
  predicate HarmlessForCovers(sh: Shared, x: Session)
    requires Unlocked(x.command) && x.command.id in sh.s.leaves
  {
    var id, l := x.command.id, sh.s.leaves[x.command.id];
    match x.command
    case Assign(_, substitute, _, _) => id in sh.rows || !Substituting(sh.s, substitute, l.date, l.period, id)
    case Override(_, substitute, _) =>
      id !in x.seen.covers || !GoesThrough(sh, x) || !Substituting(sh.s, substitute, l.date, l.period, id)
    case _ => true
  }

  // ----- The laws that no stale write breaks -----

  ghost predicate SumsHold(s: State) {
    BalanceLaw(s) && TagsKnown(s) && Circulated(s.ledger) == 0
  }

  lemma TwoCreditsKeepSums(s: State, a: int, da: int, ca: Category, b: int, db: int, cb: Category, id: int)
    requires (da == -1 && db == 1) || (da == 1 && db == -1)
    requires SumsHold(s) && 0 <= id < s.nextId
    ensures SumsHold(Credit(Credit(s, a, da, ca, Some(id)), b, db, cb, Some(id)))
  {
    var r := Credit(Credit(s, a, da, ca, Some(id)), b, db, cb, Some(id));
    TransferMoves(s, a, da, ca, b, db, cb, id);
    forall t ensures Balance(r, t) == Total(r.ledger, t) {
      assert Balance(s, t) == Total(s.ledger, t);
    }
  }

  // States that differ in their leaves and covers only.
  lemma SameSums(s: State, r: State)
    requires SumsHold(s) && r.balances == s.balances && r.ledger == s.ledger && r.nextId == s.nextId
    ensures SumsHold(r)
  {
    forall t ensures Balance(r, t) == Total(r.ledger, t) {
      assert Balance(s, t) == Total(s.ledger, t);
    }
  }

  lemma ReversalKeepsSums(sh: Shared, id: int, leaver: int, substitute: int, row: int)
    requires SumsHold(sh.s) && 0 <= id < sh.s.nextId
    ensures SumsHold(WriteReversal(sh, id, leaver, substitute, row).s)
  {
    var m := Credit(Credit(sh.s, leaver, 1, Correction, Some(id)), substitute, -1, Correction, Some(id));
    TwoCreditsKeepSums(sh.s, leaver, 1, Correction, substitute, -1, Correction, id);
    SameSums(m, WriteReversal(sh, id, leaver, substitute, row).s);
  }

  lemma OverrideKeepsSums(sh: Shared, id: int, was: int, substitute: int, row: int)
    requires SumsHold(sh.s) && 0 <= id < sh.s.nextId
    ensures SumsHold(WriteOverride(sh, id, was, substitute, row).s)
  {
    var m := Credit(Credit(sh.s, was, -1, Correction, Some(id)), substitute, 1, SubstituteClass, Some(id));
    TwoCreditsKeepSums(sh.s, was, -1, Correction, substitute, 1, SubstituteClass, id);
    if WriteOverride(sh, id, was, substitute, row) != sh {
      SameSums(m, WriteOverride(sh, id, was, substitute, row).s);
    }
  }

  lemma AssignmentKeepsSums(sh: Shared, id: int, substitute: int, how: AssignmentType)
    requires SumsHold(sh.s) && 0 <= id < sh.s.nextId
    ensures SumsHold(WriteAssignment(sh, id, substitute, how).s)
  {
    if id !in sh.rows && id in sh.s.leaves {
      var s1 := sh.s.(covers := sh.s.covers[id := Cover(substitute, how, false)]);
      SameSums(sh.s, s1);
      TwoCreditsKeepSums(s1, sh.s.leaves[id].teacher, -1, Penalty, substitute, 1, SubstituteClass, id);
    }
  }

  lemma WriteKeepsSums(sh: Shared, x: Session)
    requires SumsHold(sh.s) && ReadOf(sh, x) && 0 <= x.command.id < sh.s.nextId
    ensures SumsHold(Write(sh, x).s)
  {
    var id := x.command.id;
    var leaver := x.seen.leaves[id].teacher;
    match x.command
    case Assign(_, substitute, how, _) => AssignmentKeepsSums(sh, id, substitute, how);
    case Override(_, substitute, _) =>
      if id in x.seen.covers { OverrideKeepsSums(sh, id, x.seen.covers[id].substitute, substitute, x.row); }
    case Undo(_) =>
      if id in x.seen.covers { ReversalKeepsSums(sh, id, leaver, x.seen.covers[id].substitute, x.row); }
    case _ => CancellationKeepsSums(sh, x);
  }

  lemma CancellationKeepsSums(sh: Shared, x: Session)
    requires SumsHold(sh.s) && ReadOf(sh, x) && 0 <= x.command.id < sh.s.nextId
    requires x.command.CancelByTeacher? || x.command.CancelByAdmin?
    ensures SumsHold(Write(sh, x).s)
  {
    var id := x.command.id;
    var m := sh;
    if id in x.seen.covers {
      ReversalKeepsSums(sh, id, x.seen.leaves[id].teacher, x.seen.covers[id].substitute, x.row);
      m := WriteReversal(sh, id, x.seen.leaves[id].teacher, x.seen.covers[id].substitute, x.row);
    }
    SameSums(m.s, Write(sh, x).s);
  }

  // What a write does to the leaves: nothing, or one more cancelled leave.
  lemma WriteOnlyCancels(sh: Shared, x: Session)
    requires ReadOf(sh, x)
    ensures Write(sh, x).s.nextId == sh.s.nextId
    ensures Write(sh, x).s.leaves
         == if x.command.CancelByTeacher? || x.command.CancelByAdmin?
            then sh.s.leaves[x.command.id := sh.s.leaves[x.command.id].(status := Cancelled)]
            else sh.s.leaves
  {
  }

  lemma WriteKeepsNoDoubleLeave(sh: Shared, x: Session)
    requires ReadOf(sh, x) && NoDoubleLeave(sh.s)
    ensures NoDoubleLeave(Write(sh, x).s)
  {
    WriteOnlyCancels(sh, x);
  }

  // ----- Covers of a write -----

  // What a write does to the assignments.
  lemma WriteCovers(sh: Shared, x: Session)
    requires SharedShape(sh) && ReadOf(sh, x)
    ensures forall i :: i != x.command.id ==>
              (i in Write(sh, x).s.covers <==> i in sh.s.covers)
              && (i in sh.s.covers ==> Write(sh, x).s.covers[i] == sh.s.covers[i])
    ensures x.command.id in Write(sh, x).s.covers
       <==> x.command.Assign? || (x.command.id in sh.rows
              && (x.command.Override? || x.command.id !in x.seen.covers || sh.rows[x.command.id] != x.row))
    ensures x.command.id in Write(sh, x).s.covers ==>
              Write(sh, x).s.covers[x.command.id].substitute
              == if NamesNow(sh, x) then x.command.substitute else sh.s.covers[x.command.id].substitute
  {
  }

  // The write puts the substitute of its command in.
  predicate NamesNow(sh: Shared, x: Session)
    requires Unlocked(x.command)
  {
    || (x.command.Assign? && x.command.id !in sh.rows)
    || (x.command.Override? && x.command.id in x.seen.covers && GoesThrough(sh, x))
  }

  lemma StructureIff(sh: Shared, x: Session)
    requires SharedShape(sh) && ReadOf(sh, x) && Structure(sh.s)
    ensures Structure(Write(sh, x).s) <==> HarmlessForStructure(sh, x)
  {
    var id, r := x.command.id, Write(sh, x).s;
    WriteCovers(sh, x);
    WriteOnlyCancels(sh, x);
    if HarmlessForStructure(sh, x) {
      forall i | i in r.covers
        ensures i in r.leaves && r.leaves[i].status == Approved && r.covers[i].substitute != r.leaves[i].teacher
      {
        assert i != id ==> i in sh.s.covers;
      }
    } else {
      assert id in r.covers && r.leaves[id].status != Approved;
    }
  }

  lemma CoversIff(sh: Shared, x: Session)
    requires SharedShape(sh) && ReadOf(sh, x) && NoDoubleCover(sh.s)
    ensures NoDoubleCover(Write(sh, x).s) <==> HarmlessForCovers(sh, x)
  {
    var id, r := x.command.id, Write(sh, x).s;
    var l := sh.s.leaves[id];
    WriteCovers(sh, x);
    WriteOnlyCancels(sh, x);
    if HarmlessForCovers(sh, x) {
      forall i, j | i in r.covers && j in r.covers && i in r.leaves && j in r.leaves && i != j
                    && r.covers[i].substitute == r.covers[j].substitute
        ensures !SameLesson(r.leaves[i], r.leaves[j])
      {
        if NamesNow(sh, x) && (i == id || j == id) {
          var other := if i == id then j else i;
          assert !Substituting(sh.s, x.command.substitute, l.date, l.period, id);
          assert other in sh.s.covers && other in sh.s.leaves;
        } else {
          assert i in sh.s.covers && j in sh.s.covers;
        }
      }
    } else {
      var other :| other in sh.s.covers && other in sh.s.leaves && other != id
        && sh.s.covers[other].substitute == x.command.substitute
        && sh.s.leaves[other].date == l.date && sh.s.leaves[other].period == l.period;
      assert r.covers[id].substitute == r.covers[other].substitute && SameLesson(r.leaves[id], r.leaves[other]);
    }
  }

  // Harmless for every law.
  predicate Harmless(sh: Shared, x: Session)
    requires Unlocked(x.command) && x.command.id in sh.s.leaves
  {
    HarmlessForLedger(sh, x) && HarmlessForStructure(sh, x) && HarmlessForCovers(sh, x)
  }

  /** Whatever committed between its read and its write, a request keeps all the
      laws of the leave machine if and only if its write is harmless for the ledger,
      for the leaves' status and for the other assignments of the substitute; each
      of the three laws fails on its own exactly when its part does. */
  lemma StaleWriteKeepsLawsIff(sh: Shared, x: Session)
    requires SharedShape(sh) && ReadOf(sh, x) && Inv(sh.s)
    ensures LedgerLaw(Write(sh, x).s) <==> HarmlessForLedger(sh, x)
    ensures Structure(Write(sh, x).s) <==> HarmlessForStructure(sh, x)
    ensures NoDoubleCover(Write(sh, x).s) <==> HarmlessForCovers(sh, x)
    ensures Inv(Write(sh, x).s) <==> Harmless(sh, x)
  {
    StaleWriteKeepsLedgerIff(sh, x);
    StructureIff(sh, x);
    CoversIff(sh, x);
    WriteKeepsSums(sh, x);
    WriteKeepsNoDoubleLeave(sh, x);
  }

  // ----- Two requests at once -----

  /** An assignment read before an administrator cancels the leave, and written
      after, covers a cancelled leave, in every state; the ledger does not tell. */
  lemma AssignmentAfterCancellation(w: World, sh: Shared, id: int, substitute: int, how: AssignmentType, over: bool)
    requires SharedShape(sh) && Inv(sh.s) && Accepted(w, sh.s, Assign(id, substitute, how, over))
    ensures var cancel := Session(CancelByAdmin(id), sh.s, 0);
            var assign := Session(Assign(id, substitute, how, over), sh.s, 0);
            var r := Write(Write(sh, cancel), assign).s;
            && id in r.covers && id in r.leaves && r.leaves[id].status == Cancelled
            && LedgerLaw(r) && !Structure(r)
  {
    var cancel := Session(CancelByAdmin(id), sh.s, 0);
    var assign := Session(Assign(id, substitute, how, over), sh.s, 0);
    var once := Write(sh, cancel);
    StaleWriteKeepsLawsIff(sh, cancel);
    WriteKeepsShape(sh, cancel);
    StaleWriteKeepsLawsIff(once, assign);
  }

  /** Two assignments of one teacher to different leaves of the same lesson, both
      read before either is written, put that teacher in two places, in every
      state. */
  lemma TwoAssignmentsBookTwice(w: World, sh: Shared, i: int, j: int, substitute: int,
                                how: AssignmentType, over: bool)
    requires SharedShape(sh) && Inv(sh.s) && i != j
    requires Accepted(w, sh.s, Assign(i, substitute, how, over))
    requires Accepted(w, sh.s, Assign(j, substitute, how, over))
    requires SameLesson(sh.s.leaves[i], sh.s.leaves[j])
    ensures var once := Write(sh, Session(Assign(i, substitute, how, over), sh.s, 0));
            Inv(once.s) && !NoDoubleCover(Write(once, Session(Assign(j, substitute, how, over), sh.s, 0)).s)
  {
    var first := Session(Assign(i, substitute, how, over), sh.s, 0);
    var once := Write(sh, first);
    StaleWriteKeepsLawsIff(sh, first);
    WriteKeepsShape(sh, first);
    assert i in once.s.covers && once.s.covers[i].substitute == substitute;
    StaleWriteKeepsLawsIff(once, Session(Assign(j, substitute, how, over), sh.s, 0));
  }

  // ----- Interleavings -----

  ghost predicate AllHarmless(sys: System, actions: seq<Action>)
    requires SystemShape(sys)
    decreases actions
  {
    actions != [] ==>
      && (actions[0].Commit? && actions[0].tid in sys.sessions
          ==> Harmless(sys.shared, sys.sessions[actions[0].tid]))
      && (ActKeepsShape(sys, actions[0]); AllHarmless(Act(sys, actions[0]), actions[1..]))
  }

  /** Under any interleaving whose writes are all harmless, every law holds at the
      end. */
  lemma {:induction false} HarmlessInterleavingKeepsLaws(sys: System, actions: seq<Action>)
    requires SystemShape(sys) && Inv(sys.shared.s) && AllHarmless(sys, actions)
    ensures Inv(Interleave(sys, actions).shared.s) && SystemShape(Interleave(sys, actions))
    decreases actions
  {
    if actions != [] {
      ActKeepsShape(sys, actions[0]);
      if actions[0].Commit? && actions[0].tid in sys.sessions {
        StaleWriteKeepsLawsIff(sys.shared, sys.sessions[actions[0].tid]);
      }
      HarmlessInterleavingKeepsLaws(Act(sys, actions[0]), actions[1..]);
    }
  }

  /** After harmless writes only, one more commit keeps all the laws if and only if
      it is harmless too. */
  lemma NextCommitKeepsLawsIff(sys: System, actions: seq<Action>, tid: int)
    requires SystemShape(sys) && Inv(sys.shared.s) && AllHarmless(sys, actions)
    ensures var now := Interleave(sys, actions);
            && SystemShape(now)
            && (tid in now.sessions ==>
                  (Inv(Interleave(sys, actions + [Commit(tid)]).shared.s)
                   <==> Harmless(now.shared, now.sessions[tid])))
  {
    var now := Interleave(sys, actions);
    HarmlessInterleavingKeepsLaws(sys, actions);
    InterleaveSnoc(sys, actions, Commit(tid));
    if tid in now.sessions {
      StaleWriteKeepsLawsIff(now.shared, now.sessions[tid]);
    }
  }
}
