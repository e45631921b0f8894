/**
The whole restore request with its audit rows: each is inserted like any other
row, so the database refuses one whose actor is not, or no longer, there.
*/
module RestoreAudit {
  import opened Options
  import opened Backup
  import opened BackupTheorems

  // What is logged: the new row's id, who acted, and everything else. The actor's
  // department is looked up when the row is written.
  datatype AuditEntry = AuditEntry(id: int, actor: Option<int>, payload: int)

  const ACTOR_COLUMN: nat := 0
  const DEPARTMENT_COLUMN: nat := 1
  const USER_DEPARTMENT: nat := 0

  function FindRow(rows: seq<Row>, id: int): (r: Option<Row>)
    ensures r.Some? <==> HasRow(rows, id)
    ensures r.Some? ==> r.value in rows && r.value.id == id
  {
    if rows == [] then None
    else if rows[0].id == id then Some(rows[0])
    else
      assert forall i :: 0 < i < |rows| ==> rows[i] == rows[1..][i - 1];
      assert HasRow(rows[1..], id) ==> HasRow(rows, id) by {
        if HasRow(rows[1..], id) {
          var i :| 0 <= i < |rows[1..]| && rows[1..][i].id == id;
          assert rows[i + 1].id == id;
        }
      }
      FindRow(rows[1..], id)
  }

  function AuditRow(db: Database, e: AuditEntry): Row {
    match e.actor
    case None => Row(e.id, map[], e.payload)
    case Some(actor) =>
      var user := FindRow(db(Users), actor);
      if user.Some? && USER_DEPARTMENT in user.value.links
      then Row(e.id, map[ACTOR_COLUMN := actor, DEPARTMENT_COLUMN := user.value.links[USER_DEPARTMENT]], e.payload)
      else Row(e.id, map[ACTOR_COLUMN := actor], e.payload)
  }

  // None: the insert is refused.
  function LogAudit(schema: Schema, db: Database, e: AuditEntry): Option<Database> {
    var row := AuditRow(db, e);
    if Insertable(schema, db, AuditLogs, row) then Some(Append(db, AuditLogs, row)) else None
  }

  /** An audit row carries its actor and the department the actor has in the tables it
      is written to, and nothing when it has no actor. */
  lemma AuditRowIs(db: Database, e: AuditEntry, user: Row)
    requires forall p, q :: 0 <= p < q < |db(Users)| ==> db(Users)[p].id != db(Users)[q].id
    ensures AuditRow(db, e).id == e.id && AuditRow(db, e).payload == e.payload
    ensures e.actor == None ==> AuditRow(db, e).links == map[]
    ensures e.actor == Some(user.id) && user in db(Users) ==>
              AuditRow(db, e).links
              == if 0 in user.links then map[0 := user.id, 1 := user.links[0]] else map[0 := user.id]
  {
    if e.actor == Some(user.id) && user in db(Users) {
      var i :| 0 <= i < |db(Users)| && db(Users)[i] == user;
      assert HasRow(db(Users), user.id);
      var found := FindRow(db(Users), user.id).value;
      var j :| 0 <= j < |db(Users)| && db(Users)[j] == found;
      assert i == j;
    }
  }

  datatype RestoreOutcome = SafetyFailed | RolledBack | AuditFailed | Succeeded

  datatype RestoreResult = RestoreResult(outcome: RestoreOutcome, db: Database) {
    // The caller may get an error although the tables were replaced.
    predicate Replaced() {
      outcome == AuditFailed || outcome == Succeeded
    }
  }

  // The safety backup is audited and committed before the wipe; the restore is
  // audited after its own commit.
  function RestoreOperation(schema: Schema, order: seq<Table>, db: Database, snapshot: Database,
                            created: AuditEntry, restored: AuditEntry): RestoreResult
  {
    match LogAudit(schema, db, created)
    case None => RestoreResult(SafetyFailed, db)
    case Some(committed) => ReplaceTables(schema, order, committed, snapshot, restored)
  }

  // The wipe and the load, once the safety backup is committed.
  function ReplaceTables(schema: Schema, order: seq<Table>, committed: Database, snapshot: Database,
                         restored: AuditEntry): RestoreResult
  {
    match Restore(schema, order, committed, snapshot)
    case None => RestoreResult(RolledBack, committed)
    case Some(loaded) => Finish(schema, loaded, restored)
  }

  // The last audit row, once the load is committed.
  function Finish(schema: Schema, loaded: Database, restored: AuditEntry): RestoreResult {
    match LogAudit(schema, loaded, restored)
    case None => RestoreResult(AuditFailed, loaded)
    case Some(logged) => RestoreResult(Succeeded, logged)
  }

  // ----- No dangling link is ever committed -----

  /** The whole request never leaves a dangling link in the listed tables,
      whatever is restored and wherever it fails. */
  lemma RestoreOperationIsConsistent(schema: Schema, order: seq<Table>, db: Database, snapshot: Database,
                                     created: AuditEntry, restored: AuditEntry)
    requires Orderly(schema, order) && Consistent(schema, order, db)
    ensures Consistent(schema, order, RestoreOperation(schema, order, db, snapshot, created, restored).db)
  {
    if LogAudit(schema, db, created).Some? {
      AppendKeepsConsistent(schema, order, db, AuditLogs, AuditRow(db, created));
      var committed := LogAudit(schema, db, created).value;
      if Restore(schema, order, committed, snapshot).Some? {
        RestoreIsConsistent(schema, order, committed, snapshot);
        var loaded := Restore(schema, order, committed, snapshot).value;
        if LogAudit(schema, loaded, restored).Some? {
          AppendKeepsConsistent(schema, order, loaded, AuditLogs, AuditRow(loaded, restored));
        }
      }
    }
  }

  // ----- What the request leaves -----

  /** The request replaces the tables exactly when its first audit row is accepted
      and the snapshot can be loaded. */
  lemma ReplacedIff(schema: Schema, order: seq<Table>, db: Database, snapshot: Database,
                    created: AuditEntry, restored: AuditEntry)
    requires Orderly(schema, order)
    ensures RestoreOperation(schema, order, db, snapshot, created, restored).Replaced()
       <==> LogAudit(schema, db, created).Some? && Loadable(schema, order, snapshot)
  {
    if LogAudit(schema, db, created).Some? {
      RestoreSucceedsIff(schema, order, LogAudit(schema, db, created).value, snapshot);
    }
  }

  // The audit row a request wrote at its end, if any.
  function LogTail(schema: Schema, loaded: Database, e: AuditEntry): seq<Row> {
    if LogAudit(schema, loaded, e).Some? then [AuditRow(loaded, e)] else []
  }

  /** Whatever the tables hold now, a request that restores a backup of consistent
      tables either changes nothing, because its first audit row is refused, or
      brings every listed table back, except that the audit log may have one row
      more; it is reported as a success exactly when that row is accepted. */
  lemma RestoringABackupBringsItBack(schema: Schema, order: seq<Table>, now: Database, db: Database,
                                     created: AuditEntry, restored: AuditEntry)
    requires Orderly(schema, order) && Consistent(schema, order, db) && AuditLogs in order
    requires forall t :: t in order ==> SelfLinksBackward(schema, db, t)
    ensures var r := RestoreOperation(schema, order, now, TakeBackup(db, order), created, restored);
            if LogAudit(schema, now, created).None? then r == RestoreResult(SafetyFailed, now)
            else UndoneTo(schema, order, db, LogAudit(schema, now, created).value, r, restored)
  {
    if LogAudit(schema, now, created).Some? {
      BackupLoads(schema, order, LogAudit(schema, now, created).value, db);
    }
  }

  lemma BackupLoads(schema: Schema, order: seq<Table>, committed: Database, db: Database)
    requires Orderly(schema, order) && Consistent(schema, order, db)
    requires forall t :: t in order ==> SelfLinksBackward(schema, db, t)
    ensures var loaded := Restore(schema, order, committed, TakeBackup(db, order));
            loaded.Some? && forall t :: t in order ==> loaded.value(t) == db(t)
  {
    BackupIsConsistent(schema, order, db);
    RestoreSucceedsIff(schema, order, committed, TakeBackup(db, order));
    RestoreIsComplete(schema, order, committed, TakeBackup(db, order));
  }

  // Tables with one user who belongs to no department, and tables without rows.
  function OneUser(id: int): Database { (t: Table) => if t == Users then [Row(id, map[], 0)] else [] }

  function NoRows(): Database { (t: Table) => [] }

  // An announcement by user 7, beside that user.
  function OneAnnouncement(): Database {
    (t: Table) =>
      if t == Announcements then [Row(1, map[0 := 7], 0)] else if t == Users then [Row(7, map[], 0)] else []
  }

  lemma BackupOfOneUser(order: seq<Table>, t: Table)
    requires Announcements !in order
    ensures t in order ==> OneAnnouncement()(t) == TakeBackup(OneAnnouncement(), order)(t)
    ensures TakeBackup(OneAnnouncement(), order)(t) == [] || TakeBackup(OneAnnouncement(), order)(t) == OneUser(7)(t)
    ensures t != Users ==> TakeBackup(OneAnnouncement(), order)(t) == []
    ensures t != Users && t != Announcements ==> OneAnnouncement()(t) == []
  {
  }

  // At most one row, without links.
  ghost predicate Unlinked(rows: seq<Row>) {
    rows == [] || (|rows| == 1 && rows[0].links == map[])
  }

  ghost predicate FewUnlinkedRows(db: Database) {
    forall t :: Unlinked(db(t))
  }

  lemma OneUserIsUnlinked(id: int, t: Table)
    ensures Unlinked(OneUser(id)(t))
  {
  }

  lemma OneUserIsSound(id: int)
    ensures FewUnlinkedRows(OneUser(id)) && HasRow(OneUser(id)(Users), id) && OneUser(id)(AuditLogs) == []
  {
    assert OneUser(id)(Users)[0].id == id;
    forall t ensures Unlinked(OneUser(id)(t)) {
      OneUserIsUnlinked(id, t);
    }
  }

  lemma BackupsOfOneUser(order: seq<Table>, backup: Database)
    requires Announcements !in order && backup == TakeBackup(OneAnnouncement(), order)
    ensures FewUnlinkedRows(backup) && backup(AuditLogs) == [] && OneAnnouncement()(AuditLogs) == []
    ensures forall t :: t in order ==> OneAnnouncement()(t) == backup(t)
  {
    forall t ensures Unlinked(backup(t)) {
      BackupOfOneUser(order, t);
      OneUserIsUnlinked(7, t);
    }
    BackupOfOneUser(order, AuditLogs);
  }

  lemma FewUnlinkedRowsAreSound(schema: Schema, order: seq<Table>, db: Database)
    requires FewUnlinkedRows(db)
    ensures Consistent(schema, order, db)
    ensures forall t :: SelfLinksBackward(schema, db, t)
  {
  }

  // The listed tables are as they were, but for the last audit row.
  ghost predicate UndoneTo(schema: Schema, order: seq<Table>, db: Database, committed: Database,
                           r: RestoreResult, e: AuditEntry)
  {
    var loaded := Restore(schema, order, committed, TakeBackup(db, order));
    && loaded.Some? && r.Replaced()
    && (r.outcome == Succeeded <==> LogAudit(schema, loaded.value, e).Some?)
    && (forall t :: t in order ==> loaded.value(t) == db(t))
    && (forall t :: t in order && t != AuditLogs ==> r.db(t) == db(t))
    && r.db(AuditLogs) == loaded.value(AuditLogs) + LogTail(schema, loaded.value, e)
  }
}
