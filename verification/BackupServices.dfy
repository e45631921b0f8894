/**
The application's own tables, their foreign keys and the two table lists of the
backup service; and the service that wipes, reinserts, commits or rolls back.
*/
module BackupServices {
  import opened Options
  import opened Backup
  import opened BackupTheorems
  import opened RestoreAudit
  import opened Outsiders

  // Foreign keys, column by column in the order the models declare them.
  function AppSchema(t: Table): seq<Key> {
    match t
    case Users => [Key(0, Departments, Restrict), Key(1, Users, SetNull)]
    case Departments => []
    case AcademicYears => []
    case Semesters => [Key(0, AcademicYears, Cascade)]
    case CalendarDays => [Key(0, AcademicYears, SetNull), Key(1, Semesters, SetNull), Key(2, Users, SetNull)]
    case Subjects => [Key(0, Departments, Restrict)]
    case Rooms => [Key(0, Departments, SetNull)]
    case Classes => [Key(0, Departments, Restrict), Key(1, Rooms, SetNull)]
    case TimetableSlots =>
      [Key(0, Users, Cascade), Key(1, Subjects, SetNull), Key(2, Classes, Restrict), Key(3, Rooms, SetNull)]
    case TimetableSubmissions =>
      [Key(0, Users, Cascade), Key(1, Subjects, SetNull), Key(2, Classes, Restrict), Key(3, Rooms, SetNull),
       Key(4, Users, SetNull)]
    case LeaveRequests => [Key(0, Users, Cascade)]
    case AlterAssignments => [Key(0, LeaveRequests, Cascade), Key(1, Users, Restrict)]
    case SubstitutionPreferences => [Key(0, Users, Cascade)]
    case TeacherCredits => [Key(0, Users, Cascade)]
    case CreditTransactions => [Key(0, Users, Cascade), Key(1, LeaveRequests, SetNull)]
    case OperationalStaff =>
      [Key(0, Departments, SetNull), Key(1, Rooms, SetNull), Key(2, Users, SetNull), Key(3, Users, SetNull)]
    case Notifications => [Key(0, Users, Cascade), Key(1, LeaveRequests, SetNull)]
    case PushSubscriptions => [Key(0, Users, Cascade)]
    case AuditLogs => [Key(0, Users, SetNull), Key(1, Departments, SetNull)]
    case SystemSettings => [Key(0, Departments, Cascade)]
    case StaffLeaveRequests => [Key(0, OperationalStaff, Cascade), Key(1, Users, SetNull)]
    case StaffCredits => [Key(0, OperationalStaff, Cascade)]
    case StaffCreditTransactions =>
      [Key(0, OperationalStaff, Cascade), Key(1, StaffLeaveRequests, SetNull), Key(2, Users, SetNull)]
    case Announcements => [Key(0, Users, SetNull), Key(1, Departments, SetNull), Key(2, Announcements, SetNull)]
    case AnnouncementTargets =>
      [Key(0, Announcements, Cascade), Key(1, Departments, Cascade), Key(2, Users, Cascade)]
    case AnnouncementAttachments => [Key(0, Announcements, Cascade), Key(1, Users, SetNull)]
    case AnnouncementReads => [Key(0, Announcements, Cascade), Key(1, Users, Cascade)]
    case AnnouncementAcknowledgements => [Key(0, Announcements, Cascade), Key(1, Users, Cascade)]
    case AnnouncementMessages =>
      [Key(0, Announcements, Cascade), Key(1, AnnouncementMessages, Cascade), Key(2, Users, SetNull)]
    case MessageReactions => [Key(0, AnnouncementMessages, Cascade), Key(1, Users, Cascade)]
    case MessageMentions => [Key(0, AnnouncementMessages, Cascade), Key(1, Users, Cascade)]
    case DataRetentionPolicies => []
  }

  const BACKUP_TABLES: seq<Table> := [
    Users, Departments, AcademicYears, Semesters, CalendarDays, Subjects, Rooms, Classes,
    TimetableSlots, TimetableSubmissions, LeaveRequests, AlterAssignments, SubstitutionPreferences,
    TeacherCredits, CreditTransactions, OperationalStaff, Notifications, PushSubscriptions, AuditLogs,
    SystemSettings, StaffLeaveRequests, StaffCredits, StaffCreditTransactions]

  const RESTORE_DELETE_ORDER: seq<Table> := [
    StaffCreditTransactions, StaffCredits, StaffLeaveRequests, PushSubscriptions, Notifications,
    CreditTransactions, TeacherCredits, SubstitutionPreferences, AlterAssignments, LeaveRequests,
    TimetableSubmissions, TimetableSlots, CalendarDays, Semesters, AcademicYears, OperationalStaff,
    Classes, Rooms, Subjects, AuditLogs, SystemSettings, Users, Departments]

  // The place of a table in the delete order; tables not deleted come after.
  function Rank(t: Table): nat {
    match t
    case StaffCreditTransactions => 0
    case StaffCredits => 1
    case StaffLeaveRequests => 2
    case PushSubscriptions => 3
    case Notifications => 4
    case CreditTransactions => 5
    case TeacherCredits => 6
    case SubstitutionPreferences => 7
    case AlterAssignments => 8
    case LeaveRequests => 9
    case TimetableSubmissions => 10
    case TimetableSlots => 11
    case CalendarDays => 12
    case Semesters => 13
    case AcademicYears => 14
    case OperationalStaff => 15
    case Classes => 16
    case Rooms => 17
    case Subjects => 18
    case AuditLogs => 19
    case SystemSettings => 20
    case Users => 21
    case Departments => 22
    case _ => 23
  }

  lemma PlaceHasRank(i: nat)
    requires i < 23
    ensures |RESTORE_DELETE_ORDER| == 23 && Rank(RESTORE_DELETE_ORDER[i]) == i
  {
  }

  lemma RankHasPlace(t: Table)
    requires Rank(t) < 23
    ensures |RESTORE_DELETE_ORDER| == 23 && RESTORE_DELETE_ORDER[Rank(t)] == t
  {
  }

  lemma ListedByRank(t: Table)
    ensures t in RESTORE_DELETE_ORDER <==> Rank(t) < 23
  {
    if Rank(t) < 23 {
      RankHasPlace(t);
    } else if t in RESTORE_DELETE_ORDER {
      var i :| 0 <= i < |RESTORE_DELETE_ORDER| && RESTORE_DELETE_ORDER[i] == t;
      PlaceHasRank(i);
    }
  }

  lemma KeysRespectRank(t: Table, k: nat)
    requires k < |AppSchema(t)|
    ensures Rank(t) < 23 ==> Rank(t) <= Rank(AppSchema(t)[k].to) < 23
    ensures Rank(t) == 23 && Rank(AppSchema(t)[k].to) < 23 ==> AppSchema(t)[k].rule != Restrict
    ensures Rank(t) == 23 && Rank(AppSchema(t)[k].to) < 23 && AppSchema(t)[k].rule == Cascade ==>
              t != Announcements && t != AnnouncementMessages
  {
  }

  // Outside the lists, only announcements and their messages are pointed to.
  lemma KeysIntoOutside(t: Table, k: nat)
    requires k < |AppSchema(t)| && Rank(AppSchema(t)[k].to) == 23
    ensures AppSchema(t)[k].to == Announcements || AppSchema(t)[k].to == AnnouncementMessages
  {
  }

  // The place of a table in the backup list.
  function BackupPlace(t: Table): nat {
    match t
    case Users => 0
    case Departments => 1
    case AcademicYears => 2
    case Semesters => 3
    case CalendarDays => 4
    case Subjects => 5
    case Rooms => 6
    case Classes => 7
    case TimetableSlots => 8
    case TimetableSubmissions => 9
    case LeaveRequests => 10
    case AlterAssignments => 11
    case SubstitutionPreferences => 12
    case TeacherCredits => 13
    case CreditTransactions => 14
    case OperationalStaff => 15
    case Notifications => 16
    case PushSubscriptions => 17
    case AuditLogs => 18
    case SystemSettings => 19
    case StaffLeaveRequests => 20
    case StaffCredits => 21
    case StaffCreditTransactions => 22
    case _ => 23
  }

  lemma BackupPlaceHolds(t: Table)
    requires BackupPlace(t) < 23
    ensures |BACKUP_TABLES| == 23 && BACKUP_TABLES[BackupPlace(t)] == t
  {
  }

  lemma BackedUpHasRank(i: nat)
    requires i < 23
    ensures |BACKUP_TABLES| == 23 && Rank(BACKUP_TABLES[i]) < 23
  {
  }

  lemma SameTables(t: Table)
    ensures t in BACKUP_TABLES <==> Rank(t) < 23
  {
    assert Rank(t) < 23 <==> BackupPlace(t) < 23;
    if Rank(t) < 23 {
      BackupPlaceHolds(t);
    } else if t in BACKUP_TABLES {
      var i :| 0 <= i < |BACKUP_TABLES| && BACKUP_TABLES[i] == t;
      BackedUpHasRank(i);
    }
  }

  lemma OrderHasNoRepeats()
    ensures NoRepeats(RESTORE_DELETE_ORDER)
  {
    forall i, j | 0 <= i < j < |RESTORE_DELETE_ORDER| ensures RESTORE_DELETE_ORDER[i] != RESTORE_DELETE_ORDER[j] {
      PlaceHasRank(i);
      PlaceHasRank(j);
    }
  }

  lemma OrderIsChildrenFirst()
    ensures ChildrenFirst(AppSchema, RESTORE_DELETE_ORDER)
  {
    var order := RESTORE_DELETE_ORDER;
    forall j, k | 0 <= j < |order| && 0 <= k < |AppSchema(order[j])|
      ensures AppSchema(order[j])[k].to in order
    {
      PlaceHasRank(j);
      KeysRespectRank(order[j], k);
      ListedByRank(AppSchema(order[j])[k].to);
    }
    forall i, j, k | 0 <= i < |order| && 0 <= j < |order| && 0 <= k < |AppSchema(order[j])|
                     && AppSchema(order[j])[k].to == order[i]
      ensures j <= i
    {
      PlaceHasRank(i);
      PlaceHasRank(j);
      KeysRespectRank(order[j], k);
    }
  }

  lemma OutsideTablesYield()
    ensures OutsidersYield(AppSchema, RESTORE_DELETE_ORDER)
  {
    forall t, k | t !in RESTORE_DELETE_ORDER && 0 <= k < |AppSchema(t)| && AppSchema(t)[k].to in RESTORE_DELETE_ORDER
      ensures AppSchema(t)[k].rule != Restrict
      ensures AppSchema(t)[k].rule == Cascade ==> forall u, n :: 0 <= n < |AppSchema(u)| ==> AppSchema(u)[n].to != t
    {
      ListedByRank(t);
      ListedByRank(AppSchema(t)[k].to);
      KeysRespectRank(t, k);
      forall u, n | 0 <= n < |AppSchema(u)| && AppSchema(u)[n].to == t
        ensures t == Announcements || t == AnnouncementMessages
      {
        KeysIntoOutside(u, n);
      }
    }
  }

  lemma AppOrderIsOrderly()
    ensures Orderly(AppSchema, RESTORE_DELETE_ORDER)
  {
    OrderHasNoRepeats();
    OrderIsChildrenFirst();
    OutsideTablesYield();
  }

  /** The two lists name the same tables, and the delete order is children
      first for the application's foreign keys. */
  lemma AppListsAreOrderly()
    ensures Orderly(AppSchema, RESTORE_DELETE_ORDER)
    ensures forall t :: t in BACKUP_TABLES <==> t in RESTORE_DELETE_ORDER
  {
    AppOrderIsOrderly();
    forall t ensures t in BACKUP_TABLES <==> t in RESTORE_DELETE_ORDER {
      SameTables(t);
      ListedByRank(t);
    }
  }

  // ----- The audit rows -----

  lemma UserLinkHolds(db: Database, user: Row)
    requires Consistent(AppSchema, RESTORE_DELETE_ORDER, db) && user in db(Users) && USER_DEPARTMENT in user.links
    ensures HasRow(db(Departments), user.links[USER_DEPARTMENT])
  {
    ListedByRank(Users);
    var p :| 0 <= p < |db(Users)| && db(Users)[p] == user;
    assert AppSchema(Users)[0] == Key(USER_DEPARTMENT, Departments, Restrict);
  }

  // The row's id is new and its actor, when it has one, is among the users.
  predicate CanLog(db: Database, e: AuditEntry) {
    !HasRow(db(AuditLogs), e.id) && (e.actor.Some? ==> HasRow(db(Users), e.actor.value))
  }

  /** On tables without dangling links an audit row is accepted if and only if its
      id is new and its actor, when it has one, is among the users; the actor's
      department is then there as well. */
  lemma AuditAcceptedIff(db: Database, e: AuditEntry)
    requires Consistent(AppSchema, RESTORE_DELETE_ORDER, db)
    ensures LogAudit(AppSchema, db, e).Some? <==> CanLog(db, e)
  {
    var row := AuditRow(db, e);
    assert AppSchema(AuditLogs) == [Key(ACTOR_COLUMN, Users, SetNull), Key(DEPARTMENT_COLUMN, Departments, SetNull)];
    if e.actor.Some? {
      var user := FindRow(db(Users), e.actor.value);
      if user.Some? && USER_DEPARTMENT in user.value.links {
        UserLinkHolds(db, user.value);
      }
      assert AppSchema(AuditLogs)[0].column in row.links && row.links[ACTOR_COLUMN] == e.actor.value;
    }
  }

  // Each outcome with what it leaves.
  ghost predicate OutcomeOf(db: Database, snapshot: Database, created: AuditEntry, restored: AuditEntry,
                            r: RestoreResult)
  {
    && (r.outcome == SafetyFailed <==> !CanLog(db, created))
    && (r.outcome == SafetyFailed ==> r.db == db)
    && (r.outcome == RolledBack ==> r.db == Append(db, AuditLogs, AuditRow(db, created)))
    && (r.Replaced() ==> forall t :: t in BACKUP_TABLES && t != AuditLogs ==> r.db(t) == snapshot(t))
    && (r.Replaced() ==> (r.outcome == Succeeded <==> CanLog(snapshot, restored)))
    && (r.outcome == AuditFailed ==> r.db(AuditLogs) == snapshot(AuditLogs))
    && (r.outcome == Succeeded ==> r.db(AuditLogs) == snapshot(AuditLogs) + [AuditRow(snapshot, restored)])
  }

  /** On consistent tables: nothing happens when the safety backup's own audit row
      is refused; a load that is refused leaves that row only; otherwise every
      backed-up table is the snapshot's, and the request is reported as a success,
      with its audit row added, exactly when its actor is among the restored users
      and the row's id is new there. */
  lemma RestoreOutcomes(db: Database, snapshot: Database, created: AuditEntry, restored: AuditEntry)
    requires Consistent(AppSchema, RESTORE_DELETE_ORDER, db)
    ensures OutcomeOf(db, snapshot, created, restored,
                      RestoreOperation(AppSchema, RESTORE_DELETE_ORDER, db, snapshot, created, restored))
  {
    AuditAcceptedIff(db, created);
    if CanLog(db, created) {
      ReplacedOutcome(db, snapshot, created, restored, LogAudit(AppSchema, db, created).value);
    }
  }

  lemma ReplacedOutcome(db: Database, snapshot: Database, created: AuditEntry, restored: AuditEntry,
                        committed: Database)
    requires CanLog(db, created) && committed == Append(db, AuditLogs, AuditRow(db, created))
    ensures OutcomeOf(db, snapshot, created, restored,
                      ReplaceTables(AppSchema, RESTORE_DELETE_ORDER, committed, snapshot, restored))
  {
    var loaded := Restore(AppSchema, RESTORE_DELETE_ORDER, committed, snapshot);
    if loaded.Some? {
      LoadedOutcome(committed, snapshot, restored);
      FinishedOutcome(db, snapshot, created, restored, loaded.value);
    }
  }

  lemma FinishedOutcome(db: Database, snapshot: Database, created: AuditEntry, restored: AuditEntry,
                        loaded: Database)
    requires CanLog(db, created) && AuditLogs in BACKUP_TABLES
    requires forall t :: t in BACKUP_TABLES ==> loaded(t) == snapshot(t)
    requires LogAudit(AppSchema, loaded, restored).Some? <==> CanLog(snapshot, restored)
    requires AuditRow(loaded, restored) == AuditRow(snapshot, restored)
    ensures OutcomeOf(db, snapshot, created, restored, Finish(AppSchema, loaded, restored))
  {
  }

  // The audit of a load that succeeded reads the snapshot's users.
  lemma LoadedOutcome(committed: Database, snapshot: Database, restored: AuditEntry)
    ensures var r := Restore(AppSchema, RESTORE_DELETE_ORDER, committed, snapshot);
            r.Some? ==>
              && (forall t :: t in BACKUP_TABLES ==> r.value(t) == snapshot(t))
              && (LogAudit(AppSchema, r.value, restored).Some? <==> CanLog(snapshot, restored))
              && AuditRow(r.value, restored) == AuditRow(snapshot, restored)
              && AuditLogs in BACKUP_TABLES
  {
    AppListsAreOrderly();
    SameTables(AuditLogs);
    SameTables(Users);
    if Restore(AppSchema, RESTORE_DELETE_ORDER, committed, snapshot).Some? {
      RestoreIsComplete(AppSchema, RESTORE_DELETE_ORDER, committed, snapshot);
      RestoreIsConsistent(AppSchema, RESTORE_DELETE_ORDER, committed, snapshot);
      LoadedLogs(Restore(AppSchema, RESTORE_DELETE_ORDER, committed, snapshot).value, snapshot, restored);
    }
  }

  lemma LoadedLogs(loaded: Database, snapshot: Database, restored: AuditEntry)
    requires Consistent(AppSchema, RESTORE_DELETE_ORDER, loaded)
    requires loaded(Users) == snapshot(Users) && loaded(AuditLogs) == snapshot(AuditLogs)
    ensures LogAudit(AppSchema, loaded, restored).Some? <==> CanLog(snapshot, restored)
    ensures AuditRow(loaded, restored) == AuditRow(snapshot, restored)
  {
    AuditAcceptedIff(loaded, restored);
  }

  /** What a request on consistent tables reports, whatever was restored, read off
      the tables and the snapshot beforehand. */
  lemma OutcomeIs(db: Database, snapshot: Database, created: AuditEntry, restored: AuditEntry)
    requires Consistent(AppSchema, RESTORE_DELETE_ORDER, db)
    ensures RestoreOperation(AppSchema, RESTORE_DELETE_ORDER, db, snapshot, created, restored).outcome
         == if !CanLog(db, created) then SafetyFailed
            else if !Loadable(AppSchema, RESTORE_DELETE_ORDER, snapshot) then RolledBack
            else if CanLog(snapshot, restored) then Succeeded
            else AuditFailed
  {
    RestoreOutcomes(db, snapshot, created, restored);
    AppOrderIsOrderly();
    AuditAcceptedIff(db, created);
    ReplacedIff(AppSchema, RESTORE_DELETE_ORDER, db, snapshot, created, restored);
    OutcomeFrom(db, snapshot, created, restored,
                RestoreOperation(AppSchema, RESTORE_DELETE_ORDER, db, snapshot, created, restored));
  }

  lemma OutcomeFrom(db: Database, snapshot: Database, created: AuditEntry, restored: AuditEntry, r: RestoreResult)
    requires OutcomeOf(db, snapshot, created, restored, r)
    requires r.Replaced() <==> CanLog(db, created) && Loadable(AppSchema, RESTORE_DELETE_ORDER, snapshot)
    ensures r.outcome == if !CanLog(db, created) then SafetyFailed
                         else if !Loadable(AppSchema, RESTORE_DELETE_ORDER, snapshot) then RolledBack
                         else if CanLog(snapshot, restored) then Succeeded
                         else AuditFailed
  {
  }

  lemma LostActorReportsFailure(db: Database, before: Database, created: AuditEntry, restored: AuditEntry)
    requires FewUnlinkedRows(db)
    requires forall t :: before(t) == []
    requires CanLog(db, created) && restored.actor.Some?
    ensures RestoreOperation(AppSchema, RESTORE_DELETE_ORDER, db, before, created, restored).outcome == AuditFailed
  {
    FewUnlinkedRowsAreSound(AppSchema, RESTORE_DELETE_ORDER, db);
    FewUnlinkedRowsAreSound(AppSchema, RESTORE_DELETE_ORDER, before);
    OutcomeIs(db, before, created, restored);
  }

  /** For instance: user 7, the only one, restores a backup taken before the
      account existed. */
  lemma ReplacedButReportedFailed()
    ensures RestoreOperation(AppSchema, RESTORE_DELETE_ORDER, OneUser(7), NoRows(),
                             AuditEntry(1, Some(7), 0), AuditEntry(2, Some(7), 0)).outcome == AuditFailed
  {
    OneUserIsSound(7);
    LostActorReportsFailure(OneUser(7), NoRows(), AuditEntry(1, Some(7), 0), AuditEntry(2, Some(7), 0));
  }

  // A second request on the tables `now`, restoring a backup of `db`.
  lemma BringsBackIff(now: Database, db: Database, created: AuditEntry, restored: AuditEntry)
    requires Consistent(AppSchema, RESTORE_DELETE_ORDER, now) && Loadable(AppSchema, RESTORE_DELETE_ORDER, db)
    ensures BroughtBack(now, db, created, restored,
                        RestoreOperation(AppSchema, RESTORE_DELETE_ORDER, now, TakeBackup(db, RESTORE_DELETE_ORDER),
                                         created, restored))
  {
    var backup := TakeBackup(db, RESTORE_DELETE_ORDER);
    BackupIsLoadable(db);
    OutcomeIs(now, backup, created, restored);
    RestoreOutcomes(now, backup, created, restored);
    BackupReads(db, restored);
    BroughtBackFrom(now, db, created, restored,
                    RestoreOperation(AppSchema, RESTORE_DELETE_ORDER, now, backup, created, restored));
  }

  lemma BackupIsLoadable(db: Database)
    requires Loadable(AppSchema, RESTORE_DELETE_ORDER, db)
    ensures Loadable(AppSchema, RESTORE_DELETE_ORDER, TakeBackup(db, RESTORE_DELETE_ORDER))
  {
    AppListsAreOrderly();
    BackupIsConsistent(AppSchema, RESTORE_DELETE_ORDER, db);
  }

  // A backup holds the users and the log of the tables it was taken of.
  lemma BackupReads(db: Database, e: AuditEntry)
    ensures var backup := TakeBackup(db, RESTORE_DELETE_ORDER);
            && (CanLog(backup, e) <==> CanLog(db, e)) && AuditRow(backup, e) == AuditRow(db, e)
            && (forall t :: t in BACKUP_TABLES ==> backup(t) == db(t)) && AuditLogs in RESTORE_DELETE_ORDER
  {
    ListedByRank(AuditLogs);
    ListedByRank(Users);
    forall t | t in BACKUP_TABLES ensures t in RESTORE_DELETE_ORDER {
      SameTables(t);
      ListedByRank(t);
    }
  }

  // What the second request leaves: nothing new, or every backed-up table as it
  // was, but for one audit row.
  ghost predicate BroughtBack(now: Database, db: Database, created: AuditEntry, restored: AuditEntry,
                              r: RestoreResult)
  {
    && (r.Replaced() <==> CanLog(now, created))
    && (!r.Replaced() ==> r.db == now)
    && (r.Replaced() ==> forall t :: t in BACKUP_TABLES && t != AuditLogs ==> r.db(t) == db(t))
    && (r.Replaced() ==> (r.outcome == Succeeded <==> CanLog(db, restored)))
    && (r.Replaced() ==>
          r.db(AuditLogs) == db(AuditLogs) + if CanLog(db, restored) then [AuditRow(db, restored)] else [])
  }

  lemma BroughtBackFrom(now: Database, db: Database, created: AuditEntry, restored: AuditEntry, r: RestoreResult)
    requires r.outcome == if !CanLog(now, created) then SafetyFailed
                          else if CanLog(db, restored) then Succeeded else AuditFailed
    requires OutcomeOf(now, TakeBackup(db, RESTORE_DELETE_ORDER), created, restored, r)
    requires AuditRow(TakeBackup(db, RESTORE_DELETE_ORDER), restored) == AuditRow(db, restored)
    requires forall t :: t in BACKUP_TABLES ==> TakeBackup(db, RESTORE_DELETE_ORDER)(t) == db(t)
    requires AuditLogs in RESTORE_DELETE_ORDER
    ensures BroughtBack(now, db, created, restored, r)
  {
  }

  /** Whatever the first request restored and however it ended, a second one that
      restores the safety backup taken by the first brings every backed-up table
      back exactly when its own actor is still among the users (and its row's id is
      new); it is then reported as a success, and leaves one audit row more,
      exactly when its actor is among the users brought back. */
  lemma SafetyBackupUndoesRestoreIff(db: Database, snapshot: Database,
                                     c1: AuditEntry, r1: AuditEntry, c2: AuditEntry, r2: AuditEntry)
    requires Loadable(AppSchema, RESTORE_DELETE_ORDER, db)
    ensures var order := RESTORE_DELETE_ORDER;
            var first := RestoreOperation(AppSchema, order, db, snapshot, c1, r1);
            BroughtBack(first.db, db, c2, r2,
                        RestoreOperation(AppSchema, order, first.db, TakeBackup(db, order), c2, r2))
  {
    AppListsAreOrderly();
    RestoreOperationIsConsistent(AppSchema, RESTORE_DELETE_ORDER, db, snapshot, c1, r1);
    BringsBackIff(RestoreOperation(AppSchema, RESTORE_DELETE_ORDER, db, snapshot, c1, r1).db, db, c2, r2);
  }

  // ----- The tables outside the lists -----

  lemma AppColumnsAreKeyed(t: Table)
    ensures OneKeyPerColumn(AppSchema, t)
  {
    forall k | 0 <= k < |AppSchema(t)| ensures AppSchema(t)[k].column == k {
      KeysInOrder(t, k);
    }
  }

  lemma KeysInOrder(t: Table, k: nat)
    requires k < |AppSchema(t)|
    ensures AppSchema(t)[k].column == k
  {
  }

  lemma WipeSpares(db: Database, order: seq<Table>)
    ensures Wipe(AppSchema, db, order).Some? ==>
              forall t :: t !in order ==>
                Wipe(AppSchema, db, order).value(t) == Survivors(AppSchema, order, t, db(t))
  {
    if Wipe(AppSchema, db, order).Some? {
      forall t | t !in order
        ensures Wipe(AppSchema, db, order).value(t) == Survivors(AppSchema, order, t, db(t))
      {
        AppColumnsAreKeyed(t);
        WipeLeavesSurvivors(AppSchema, order, db, t);
      }
    }
  }

  /** A request that replaces the tables leaves of every table outside the lists the
      rows that no cascading link ties to a listed one, without their nullable links
      into the listed tables; a request that does not leaves them as they were. */
  lemma OutsidersAfterRestore(db: Database, snapshot: Database, created: AuditEntry, restored: AuditEntry, t: Table)
    requires t !in RESTORE_DELETE_ORDER
    ensures var r := RestoreOperation(AppSchema, RESTORE_DELETE_ORDER, db, snapshot, created, restored);
            r.db(t) == if r.Replaced() then Survivors(AppSchema, RESTORE_DELETE_ORDER, t, db(t)) else db(t)
  {
    ListedByRank(AuditLogs);
    AppOrderIsOrderly();
    AppColumnsAreKeyed(t);
    RequestLeavesSurvivors(AppSchema, RESTORE_DELETE_ORDER, db, snapshot, created, restored, t);
  }

  /** For instance: restoring a backup of one user and the user's announcement keeps
      the announcement and loses its author. */
  lemma AnnouncementLosesAuthor()
    ensures var r := RestoreOperation(AppSchema, RESTORE_DELETE_ORDER, OneAnnouncement(),
                                      TakeBackup(OneAnnouncement(), RESTORE_DELETE_ORDER),
                                      AuditEntry(1, None, 0), AuditEntry(2, None, 0));
            r.outcome == Succeeded && r.db(Announcements) == [Row(1, map[], 0)]
  {
    var backup := TakeBackup(OneAnnouncement(), RESTORE_DELETE_ORDER);
    ListedByRank(Announcements);
    BackupsOfOneUser(RESTORE_DELETE_ORDER, backup);
    OneUserIsRestored(OneAnnouncement(), backup, AuditEntry(1, None, 0), AuditEntry(2, None, 0));
    OutsidersAfterRestore(OneAnnouncement(), backup, AuditEntry(1, None, 0), AuditEntry(2, None, 0), Announcements);
    AuthorIsFreed();
  }

  lemma OneUserIsRestored(db: Database, backup: Database, created: AuditEntry, restored: AuditEntry)
    requires forall t :: t in RESTORE_DELETE_ORDER ==> db(t) == backup(t)
    requires FewUnlinkedRows(backup)
    requires backup(AuditLogs) == [] && db(AuditLogs) == [] && created.actor == None && restored.actor == None
    ensures RestoreOperation(AppSchema, RESTORE_DELETE_ORDER, db, backup, created, restored).outcome == Succeeded
  {
    FewUnlinkedRowsAreSound(AppSchema, RESTORE_DELETE_ORDER, backup);
    AppOrderIsOrderly();
    ConsistentReadsListed(AppSchema, RESTORE_DELETE_ORDER, backup, db);
    OutcomeIs(db, backup, created, restored);
  }

  lemma AuthorIsFreed()
    ensures Survivors(AppSchema, RESTORE_DELETE_ORDER, Announcements, [Row(1, map[0 := 7], 0)]) == [Row(1, map[], 0)]
  {
    var row := Row(1, map[0 := 7], 0);
    ListedByRank(Users);
    assert AppSchema(Announcements)[0] == Key(0, Users, SetNull);
    assert FreesColumn(AppSchema, RESTORE_DELETE_ORDER, Announcements, 0);
    assert Freed(AppSchema, RESTORE_DELETE_ORDER, Announcements, row).links == map[];
    assert [row][1..] == [];
  }

  class BackupService {
    var tables: Database

    constructor (tables: Database)
      ensures this.tables == tables
    {
      this.tables := tables;
    }

    // Adds one audit row, or fails when the database refuses it.
    method LogAuditEvent(e: AuditEntry) returns (ok: bool)
      modifies this
      ensures ok == LogAudit(AppSchema, old(tables), e).Some?
      ensures tables == if ok then LogAudit(AppSchema, old(tables), e).value else old(tables)
    {
      var row := AuditRow(tables, e);
      if !Insertable(AppSchema, tables, AuditLogs, row) {
        return false;
      }
      tables := Append(tables, AuditLogs, row);
      ok := true;
    }

    method CreateBackup(audit: AuditEntry) returns (ok: bool, snapshot: Database)
      modifies this
      ensures forall t :: t in BACKUP_TABLES ==> snapshot(t) == old(tables)(t)
      ensures snapshot == TakeBackup(old(tables), BACKUP_TABLES)
      ensures ok == LogAudit(AppSchema, old(tables), audit).Some?
      ensures tables == if ok then LogAudit(AppSchema, old(tables), audit).value else old(tables)
    {
      snapshot := TakeBackup(tables, BACKUP_TABLES);
      ok := LogAuditEvent(audit);
    }

    method WipeTables(order: seq<Table>) returns (ok: bool)
      modifies this
      ensures ok == Wipe(AppSchema, old(tables), order).Some?
      ensures ok ==> tables == Wipe(AppSchema, old(tables), order).value
      ensures ok ==> forall t :: t !in order ==> tables(t) == Survivors(AppSchema, order, t, old(tables)(t))
    {
      WipeSpares(tables, order);
      ghost var goal := Wipe(AppSchema, tables, order);
      ghost var left := order;
      for i := 0 to |order|
        invariant left == order[i..] && goal == Wipe(AppSchema, tables, left)
      {
        var deleted := DeleteAll(AppSchema, tables, order[i]);
        if deleted.None? {
          return false;
        }
        tables, left := deleted.value, left[1..];
      }
      ok := true;
    }

    method InsertTable(t: Table, rows: seq<Row>) returns (ok: bool)
      modifies this
      ensures ok == InsertRows(AppSchema, old(tables), t, rows).Some?
      ensures ok ==> tables == InsertRows(AppSchema, old(tables), t, rows).value
    {
      ghost var start := tables;
      assert rows[0..] == rows;
      for i := 0 to |rows|
        invariant InsertRows(AppSchema, start, t, rows) == InsertRows(AppSchema, tables, t, rows[i..])
      {
        assert rows[i..][1..] == rows[i + 1..];
        if !Insertable(AppSchema, tables, t, rows[i]) {
          return false;
        }
        tables := Append(tables, t, rows[i]);
      }
      ok := true;
    }

    method ReinsertTables(order: seq<Table>, snapshot: Database) returns (ok: bool)
      modifies this
      ensures ok == Reinsert(AppSchema, old(tables), snapshot, order).Some?
      ensures ok ==> tables == Reinsert(AppSchema, old(tables), snapshot, order).value
    {
      ghost var goal := Reinsert(AppSchema, tables, snapshot, order);
      ghost var left := order;
      var n := |order|;
      while n > 0
        invariant 0 <= n <= |order| && left == order[..n] && goal == Reinsert(AppSchema, tables, snapshot, left)
      {
        n := n - 1;
        assert left[n] == order[n] && left[..n] == order[..n];
        var done := InsertTable(order[n], snapshot(order[n]));
        if !done {
          return false;
        }
        left := left[..n];
      }
      ok := true;
    }

    // One transaction: everything or, on a refused statement, nothing.
    method WipeAndReinsert(snapshot: Database) returns (ok: bool)
      modifies this
      ensures ok == Restore(AppSchema, RESTORE_DELETE_ORDER, old(tables), snapshot).Some?
      ensures !ok ==> tables == old(tables)
      ensures ok ==> tables == Restore(AppSchema, RESTORE_DELETE_ORDER, old(tables), snapshot).value
    {
      var committed := tables;
      ok := WipeTables(RESTORE_DELETE_ORDER);
      if ok {
        ok := ReinsertTables(RESTORE_DELETE_ORDER, snapshot);
      }
      if !ok {
        tables := committed;
      }
    }

    /** A restore either replaces every backed-up table by the snapshot, but for
        one audit row, or leaves every table as it was, but for the safety backup's
        audit row; the load succeeds exactly when the snapshot is loadable. */
    method RestoreBackup(snapshot: Database, created: AuditEntry, restored: AuditEntry)
      returns (outcome: RestoreOutcome, safety: Database)
      modifies this
      ensures safety == TakeBackup(old(tables), BACKUP_TABLES)
      ensures RestoreResult(outcome, tables)
           == RestoreOperation(AppSchema, RESTORE_DELETE_ORDER, old(tables), snapshot, created, restored)
      ensures Consistent(AppSchema, RESTORE_DELETE_ORDER, old(tables)) ==>
                && Consistent(AppSchema, RESTORE_DELETE_ORDER, tables)
                && OutcomeOf(old(tables), snapshot, created, restored, RestoreResult(outcome, tables))
      ensures forall t :: t !in RESTORE_DELETE_ORDER ==>
                tables(t) == if outcome == Succeeded || outcome == AuditFailed
                             then Survivors(AppSchema, RESTORE_DELETE_ORDER, t, old(tables)(t)) else old(tables)(t)
      ensures outcome != SafetyFailed
              ==> (outcome != RolledBack <==> Loadable(AppSchema, RESTORE_DELETE_ORDER, snapshot))
    {
      AppListsAreOrderly();
      forall t | t !in RESTORE_DELETE_ORDER {
        OutsidersAfterRestore(tables, snapshot, created, restored, t);
      }
      if Consistent(AppSchema, RESTORE_DELETE_ORDER, tables) {
        RestoreOutcomes(tables, snapshot, created, restored);
        RestoreOperationIsConsistent(AppSchema, RESTORE_DELETE_ORDER, tables, snapshot, created, restored);
      }
      var ok;
      ok, safety := CreateBackup(created);
      if !ok {
        return SafetyFailed, safety;
      }
      RestoreSucceedsIff(AppSchema, RESTORE_DELETE_ORDER, tables, snapshot);
      ok := WipeAndReinsert(snapshot);
      if !ok {
        return RolledBack, safety;
      }
      ok := LogAuditEvent(restored);
      outcome := if ok then Succeeded else AuditFailed;
    }
  }
}
