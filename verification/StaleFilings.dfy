/**
Submissions that check for duplicates before other submissions commit: exactly
when the leaves they store double one that is there.
*/
module StaleFilings {
  import opened Options
  import opened SortedLists
  import opened Leaves
  import opened LeaveLaws

  // What a submission stores once its checks have passed: one leave per period,
  // each pending or approved.
  datatype Filing = Filing(teacher: int, date: int, order: int, periods: seq<int>, approved: bool)

  ghost predicate WellFormed(f: Filing) {
    Ascending(f.periods)
  }

  function Store(s: State, f: Filing): State {
    AddLeaves(s, f.teacher, f.date, f.order, f.periods, if f.approved then Approved else Pending)
  }

  // No leave stored by now is active for one of the periods.
  ghost predicate ClashFree(s: State, f: Filing) {
    forall p :: p in f.periods ==> !HasActiveLeave(s, f.teacher, f.date, p)
  }

  lemma ClashDoubles(s: State, f: Filing)
    requires Structure(s) && !ClashFree(s, f)
    ensures !NoDoubleLeave(Store(s, f))
  {
    var r := Store(s, f);
    var p :| p in f.periods && HasActiveLeave(s, f.teacher, f.date, p);
    var k :| 0 <= k < |f.periods| && f.periods[k] == p;
    var stored :| stored in s.leaves && s.leaves[stored].teacher == f.teacher && s.leaves[stored].date == f.date
      && s.leaves[stored].period == p && Active(s.leaves[stored]);
    AddLeavesRows(s, f.teacher, f.date, f.order, f.periods, if f.approved then Approved else Pending);
    var added := s.nextId + k;
    assert r.leaves[added].period == p && Active(r.leaves[added]) && r.leaves[stored] == s.leaves[stored];
    assert stored != added && SameLesson(r.leaves[stored], r.leaves[added]);
  }

  /** Whatever was stored since its check, a submission keeps all the laws, and
      already the law against double leaves, if and only if no period clashes with
      a leave stored when it writes. */
  lemma FilingKeepsLawsIff(s: State, f: Filing)
    requires Inv(s) && WellFormed(f)
    ensures Inv(Store(s, f)) <==> ClashFree(s, f)
    ensures NoDoubleLeave(Store(s, f)) <==> ClashFree(s, f)
  {
    if ClashFree(s, f) {
      AddLeavesKeepsInv(s, f.teacher, f.date, f.order, f.periods, if f.approved then Approved else Pending);
    } else {
      ClashDoubles(s, f);
    }
  }

  // ----- Any number of submissions -----

  function StoreAll(s: State, fs: seq<Filing>): State
    decreases fs
  {
    if fs == [] then s else StoreAll(Store(s, fs[0]), fs[1..])
  }

  ghost predicate AllClashFree(s: State, fs: seq<Filing>)
    decreases fs
  {
    fs != [] ==> ClashFree(s, fs[0]) && AllClashFree(Store(s, fs[0]), fs[1..])
  }

  // A double leave is never undone by further submissions.
  lemma {:induction false} DoublesStay(s: State, fs: seq<Filing>)
    requires Structure(s) && !NoDoubleLeave(s)
    ensures !NoDoubleLeave(StoreAll(s, fs))
    decreases fs
  {
    if fs != [] {
      var f := fs[0];
      AddLeavesRows(s, f.teacher, f.date, f.order, f.periods, if f.approved then Approved else Pending);
      var i, j :| i in s.leaves && j in s.leaves && i != j && Active(s.leaves[i]) && Active(s.leaves[j])
        && s.leaves[i].teacher == s.leaves[j].teacher && SameLesson(s.leaves[i], s.leaves[j]);
      assert Store(s, f).leaves[i] == s.leaves[i] && Store(s, f).leaves[j] == s.leaves[j];
      DoublesStay(Store(s, f), fs[1..]);
    }
  }

  /** So whatever each of them had read, submissions written one after another
      leave no double leave, and every law intact, if and only if each was free of
      clashes when it was written. */
  lemma {:induction false} FilingsKeepLawsIff(s: State, fs: seq<Filing>)
    requires Inv(s) && forall i :: 0 <= i < |fs| ==> WellFormed(fs[i])
    ensures Inv(StoreAll(s, fs)) <==> AllClashFree(s, fs)
    ensures NoDoubleLeave(StoreAll(s, fs)) <==> AllClashFree(s, fs)
    decreases fs
  {
    if fs != [] {
      var f := fs[0];
      FilingKeepsLawsIff(s, f);
      AddLeavesRows(s, f.teacher, f.date, f.order, f.periods, if f.approved then Approved else Pending);
      if ClashFree(s, f) {
        FilingsKeepLawsIff(Store(s, f), fs[1..]);
      } else {
        DoublesStay(Store(s, f), fs[1..]);
      }
    }
  }

  /** Two requests for the same lesson that both pass the duplicate check before
      either is stored leave two active leaves for it, in every state. */
  lemma TwoSubmissionsStoreTwice(w: World, s: State, teacher: int, date: int, period: int, pick: Option<Pick>)
    requires Inv(s) && Accepted(w, s, Submit(teacher, date, period, pick))
    ensures var f := Filing(teacher, date, w.calendar[date], [period], w.autonomous);
            Inv(StoreAll(s, [f])) && !NoDoubleLeave(StoreAll(s, [f, f]))
  {
    var f := Filing(teacher, date, w.calendar[date], [period], w.autonomous);
    var once := Store(s, f);
    FilingKeepsLawsIff(s, f);
    assert [f][1..] == [] && StoreAll(s, [f]) == once;
    assert [f, f][1..] == [f] && StoreAll(s, [f, f]) == StoreAll(once, [f]) == Store(once, f);
    AddLeavesRows(s, teacher, date, f.order, [period], if f.approved then Approved else Pending);
    assert s.nextId in once.leaves && Active(once.leaves[s.nextId]) && once.leaves[s.nextId].period == period;
    assert HasActiveLeave(once, teacher, date, period) && period in f.periods;
    FilingKeepsLawsIff(once, f);
  }
}
