/**
Full backup and restore over tables linked by foreign keys: wipe every table
children first, insert the snapshot's rows parents first, and roll back to the
state before the wipe when an insert is refused.
*/
module Backup {
  import opened Options

  datatype Table =
    | Users | Departments | AcademicYears | Semesters | CalendarDays | Subjects | Rooms | Classes
    | TimetableSlots | TimetableSubmissions | LeaveRequests | AlterAssignments
    | SubstitutionPreferences | TeacherCredits | CreditTransactions | OperationalStaff
    | Notifications | PushSubscriptions | AuditLogs | SystemSettings
    | StaffLeaveRequests | StaffCredits | StaffCreditTransactions
    | Announcements | AnnouncementTargets | AnnouncementAttachments | AnnouncementReads
    | AnnouncementAcknowledgements | AnnouncementMessages | MessageReactions | MessageMentions
    | DataRetentionPolicies

  datatype Rule = Cascade | SetNull | Restrict

  // A foreign-key column of some table: the table it points to, and what
  // deleting the row pointed to does.
  datatype Key = Key(column: nat, to: Table, rule: Rule)

  type Schema = Table -> seq<Key>

  // A row: its id, its non-null foreign keys by column, and everything else.
  datatype Row = Row(id: int, links: map<nat, int>, payload: int)

  type Database = Table -> seq<Row>

  predicate HasRow(rows: seq<Row>, id: int) {
    exists i :: 0 <= i < |rows| && rows[i].id == id
  }

  // ----- DELETE FROM a table -----

  // Some row of `from` points into `to` under the given rule.
  predicate PointsInto(schema: Schema, from: Table, to: Table, row: Row, rule: Rule) {
    exists k :: 0 <= k < |schema(from)| && schema(from)[k].to == to && schema(from)[k].rule == rule
                && schema(from)[k].column in row.links
  }

  predicate NullsColumn(schema: Schema, from: Table, to: Table, column: nat) {
    exists k :: 0 <= k < |schema(from)| && schema(from)[k] == Key(column, to, SetNull)
  }

  function Unlink(schema: Schema, from: Table, to: Table, row: Row): Row {
    row.(links := map c | c in row.links && !NullsColumn(schema, from, to, c) :: row.links[c])
  }

  // What is left of a table's rows when every row of `to` is deleted.
  function Detach(schema: Schema, from: Table, to: Table, rows: seq<Row>): seq<Row> {
    if rows == [] then []
    else (if PointsInto(schema, from, to, rows[0], Cascade) then [] else [Unlink(schema, from, to, rows[0])])
         + Detach(schema, from, to, rows[1..])
  }

  predicate Blocks(schema: Schema, db: Database, to: Table) {
    exists from, i :: from != to && 0 <= i < |db(from)| && PointsInto(schema, from, to, db(from)[i], Restrict)
  }

  // None: the statement is refused, and with it the whole transaction.
  function DeleteAll(schema: Schema, db: Database, to: Table): Option<Database> {
    if Blocks(schema, db, to) then None
    else Some((t: Table) => if t == to then [] else Detach(schema, t, to, db(t)))
  }

  function Wipe(schema: Schema, db: Database, order: seq<Table>): Option<Database>
    decreases order
  {
    if order == [] then Some(db)
    else
      match DeleteAll(schema, db, order[0])
      case None => None
      case Some(db1) => Wipe(schema, db1, order[1..])
  }

  // ----- INSERT INTO a table -----

  // Every link of the row finds its row, among those stored or in itself.
  predicate Linked(schema: Schema, db: Database, t: Table, row: Row) {
    forall k :: 0 <= k < |schema(t)| && schema(t)[k].column in row.links ==>
      var key := schema(t)[k];
      HasRow(db(key.to), row.links[key.column]) || (key.to == t && row.links[key.column] == row.id)
  }

  predicate Insertable(schema: Schema, db: Database, t: Table, row: Row) {
    !HasRow(db(t), row.id) && Linked(schema, db, t, row)
  }

  function Append(db: Database, t: Table, row: Row): Database {
    (u: Table) => if u == t then db(u) + [row] else db(u)
  }

  function InsertRows(schema: Schema, db: Database, t: Table, rows: seq<Row>): Option<Database>
    decreases rows
  {
    if rows == [] then Some(db)
    else if !Insertable(schema, db, t, rows[0]) then None
    else InsertRows(schema, Append(db, t, rows[0]), t, rows[1..])
  }

  // Reinsertion walks the delete order backwards.
  function Reinsert(schema: Schema, db: Database, snapshot: Database, order: seq<Table>): Option<Database>
    decreases order
  {
    if order == [] then Some(db)
    else
      var t := order[|order| - 1];
      match InsertRows(schema, db, t, snapshot(t))
      case None => None
      case Some(db1) => Reinsert(schema, db1, snapshot, order[..|order| - 1])
  }

  // A full backup: every row of the listed tables.
  function TakeBackup(db: Database, tables: seq<Table>): Database {
    (t: Table) => if t in tables then db(t) else []
  }

  function Restore(schema: Schema, order: seq<Table>, db: Database, snapshot: Database): Option<Database> {
    match Wipe(schema, db, order)
    case None => None
    case Some(wiped) => Reinsert(schema, wiped, snapshot, order)
  }
}
