/**
Tables that a backup does not list: which of their rows a restore leaves, and with
which links.
*/
module Outsiders {
  import opened Options
  import opened Backup
  import opened BackupTheorems
  import opened RestoreAudit

  // A column refers to one table, by one rule.
  ghost predicate OneKeyPerColumn(schema: Schema, t: Table) {
    forall i, j :: 0 <= i < |schema(t)| && 0 <= j < |schema(t)| && schema(t)[i].column == schema(t)[j].column
      ==> i == j
  }

  // Some link of the row is a key into a listed table under the given rule.
  predicate LinksListed(schema: Schema, order: seq<Table>, t: Table, row: Row, rule: Rule) {
    exists k :: 0 <= k < |schema(t)| && schema(t)[k].rule == rule && schema(t)[k].to in order
                && schema(t)[k].column in row.links
  }

  predicate FreesColumn(schema: Schema, order: seq<Table>, t: Table, column: nat) {
    exists k :: 0 <= k < |schema(t)| && schema(t)[k].column == column && schema(t)[k].rule == SetNull
                && schema(t)[k].to in order
  }

  // The row without its nullable links into the listed tables.
  function Freed(schema: Schema, order: seq<Table>, t: Table, row: Row): Row {
    Row(row.id, map c | c in row.links && !FreesColumn(schema, order, t, c) :: row.links[c], row.payload)
  }

  // In their order, the rows that no link makes follow a listed row.
  function Survivors(schema: Schema, order: seq<Table>, t: Table, rows: seq<Row>): seq<Row> {
    if rows == [] then []
    else (if LinksListed(schema, order, t, rows[0], Cascade) then [] else [Freed(schema, order, t, rows[0])])
         + Survivors(schema, order, t, rows[1..])
  }

  lemma FreedNothing(schema: Schema, t: Table, row: Row)
    ensures Freed(schema, [], t, row) == row && !LinksListed(schema, [], t, row, Cascade)
  {
    assert Freed(schema, [], t, row).links == row.links;
  }

  // A row deleted by the first table or, freed of it, by the others.
  lemma CascadesNext(schema: Schema, order: seq<Table>, t: Table, row: Row)
    requires OneKeyPerColumn(schema, t) && order != []
    ensures LinksListed(schema, order, t, row, Cascade)
       <==> PointsInto(schema, t, order[0], row, Cascade)
            || LinksListed(schema, order[1..], t, Unlink(schema, t, order[0], row), Cascade)
  {
    if LinksListed(schema, order, t, row, Cascade) {
      var k :| 0 <= k < |schema(t)| && schema(t)[k].rule == Cascade && schema(t)[k].to in order
               && schema(t)[k].column in row.links;
      CascadingKeyNext(schema, order, t, row, k);
    }
    CascadesFrom(schema, order, t, row);
  }

  lemma CascadesFrom(schema: Schema, order: seq<Table>, t: Table, row: Row)
    requires order != []
    ensures PointsInto(schema, t, order[0], row, Cascade)
            || LinksListed(schema, order[1..], t, Unlink(schema, t, order[0], row), Cascade)
            ==> LinksListed(schema, order, t, row, Cascade)
  {
    if PointsInto(schema, t, order[0], row, Cascade) {
      assert order[0] in order;
    } else if LinksListed(schema, order[1..], t, Unlink(schema, t, order[0], row), Cascade) {
      var k :| 0 <= k < |schema(t)| && schema(t)[k].rule == Cascade && schema(t)[k].to in order[1..]
               && schema(t)[k].column in Unlink(schema, t, order[0], row).links;
      assert schema(t)[k].to in order;
    }
  }

  lemma CascadingKeyNext(schema: Schema, order: seq<Table>, t: Table, row: Row, k: nat)
    requires OneKeyPerColumn(schema, t) && order != [] && k < |schema(t)| && schema(t)[k].rule == Cascade
    ensures schema(t)[k].column in Unlink(schema, t, order[0], row).links <==> schema(t)[k].column in row.links
    ensures schema(t)[k].to in order <==> schema(t)[k].to == order[0] || schema(t)[k].to in order[1..]
  {
    CascadingIsNotNulled(schema, t, order[0], k);
    assert order == [order[0]] + order[1..];
  }

  lemma CascadingIsNotNulled(schema: Schema, t: Table, to: Table, k: nat)
    requires OneKeyPerColumn(schema, t) && k < |schema(t)| && schema(t)[k].rule == Cascade
    ensures !NullsColumn(schema, t, to, schema(t)[k].column)
  {
  }

  // The links left by the first table, then by the others.
  lemma FreedNext(schema: Schema, order: seq<Table>, t: Table, row: Row)
    requires order != []
    ensures Freed(schema, order[1..], t, Unlink(schema, t, order[0], row)) == Freed(schema, order, t, row)
  {
    ListedNext(schema, order, t);
    assert Freed(schema, order[1..], t, Unlink(schema, t, order[0], row)).links == Freed(schema, order, t, row).links;
  }

  lemma ListedNext(schema: Schema, order: seq<Table>, t: Table)
    requires order != []
    ensures forall c :: FreesColumn(schema, order, t, c)
                   <==> NullsColumn(schema, t, order[0], c) || FreesColumn(schema, order[1..], t, c)
  {
    assert order == [order[0]] + order[1..];
    forall c | FreesColumn(schema, order, t, c)
      ensures NullsColumn(schema, t, order[0], c) || FreesColumn(schema, order[1..], t, c)
    {
      var k :| 0 <= k < |schema(t)| && schema(t)[k].column == c && schema(t)[k].rule == SetNull
               && schema(t)[k].to in order;
      assert schema(t)[k] == Key(c, schema(t)[k].to, SetNull);
    }
  }

  lemma {:induction false} SurvivorsNext(schema: Schema, order: seq<Table>, t: Table, rows: seq<Row>)
    requires OneKeyPerColumn(schema, t) && order != []
    ensures Survivors(schema, order[1..], t, Detach(schema, t, order[0], rows)) == Survivors(schema, order, t, rows)
  {
    if rows != [] {
      SurvivorsNext(schema, order, t, rows[1..]);
      FreedNext(schema, order, t, rows[0]);
      CascadesNext(schema, order, t, rows[0]);
      var rest := Detach(schema, t, order[0], rows[1..]);
      if !PointsInto(schema, t, order[0], rows[0], Cascade) {
        var row1 := Unlink(schema, t, order[0], rows[0]);
        assert ([row1] + rest)[1..] == rest;
      } else {
        assert [] + rest == rest;
      }
    }
  }

  lemma {:induction false} NothingListed(schema: Schema, t: Table, rows: seq<Row>)
    ensures Survivors(schema, [], t, rows) == rows
  {
    if rows != [] {
      FreedNothing(schema, t, rows[0]);
      NothingListed(schema, t, rows[1..]);
    }
  }

  lemma {:induction false} WipeLeavesSurvivors(schema: Schema, order: seq<Table>, db: Database, t: Table)
    requires OneKeyPerColumn(schema, t) && t !in order && Wipe(schema, db, order).Some?
    ensures Wipe(schema, db, order).value(t) == Survivors(schema, order, t, db(t))
    decreases order
  {
    if order == [] {
      NothingListed(schema, t, db(t));
    } else {
      WipeLeavesSurvivors(schema, order[1..], DeleteAll(schema, db, order[0]).value, t);
      SurvivorsNext(schema, order, t, db(t));
    }
  }

  /** Deleting all rows of a table is refused if and only if a row elsewhere holds a
      restricting link into it; otherwise that table is empty, and every other one
      keeps the rows that no link makes follow, without their nullable links into it. */
  lemma DeletionLeavesSurvivors(schema: Schema, db: Database, to: Table, t: Table)
    requires OneKeyPerColumn(schema, t)
    ensures DeleteAll(schema, db, to) == None
       <==> exists from, row :: from != to && row in db(from) && LinksListed(schema, [to], from, row, Restrict)
    ensures DeleteAll(schema, db, to).Some? ==>
              DeleteAll(schema, db, to).value(t) == if t == to then [] else Survivors(schema, [to], t, db(t))
  {
    BlocksIff(schema, db, to);
    if t != to {
      DetachedSurvive(schema, t, to, db(t));
    }
  }

  lemma DetachedSurvive(schema: Schema, t: Table, to: Table, rows: seq<Row>)
    requires OneKeyPerColumn(schema, t)
    ensures Detach(schema, t, to, rows) == Survivors(schema, [to], t, rows)
  {
    SurvivorsNext(schema, [to], t, rows);
    assert [to][1..] == [];
    NothingListed(schema, t, Detach(schema, t, to, rows));
  }

  lemma BlocksIff(schema: Schema, db: Database, to: Table)
    ensures Blocks(schema, db, to)
       <==> exists from, row :: from != to && row in db(from) && LinksListed(schema, [to], from, row, Restrict)
  {
    if Blocks(schema, db, to) {
      var from, i :| from != to && 0 <= i < |db(from)| && PointsInto(schema, from, to, db(from)[i], Restrict);
      RestrictsIff(schema, from, to, db(from)[i]);
    }
    if from, row :| from != to && row in db(from) && LinksListed(schema, [to], from, row, Restrict) {
      RestrictsIff(schema, from, to, row);
      var i :| 0 <= i < |db(from)| && db(from)[i] == row;
      assert PointsInto(schema, from, to, db(from)[i], Restrict);
    }
  }

  lemma RestrictsIff(schema: Schema, from: Table, to: Table, row: Row)
    ensures PointsInto(schema, from, to, row, Restrict) <==> LinksListed(schema, [to], from, row, Restrict)
  {
    assert forall u :: u in [to] <==> u == to;
  }

  /** A restore leaves of an unlisted table exactly the rows with no cascading link
      into a listed table, in their order, each with its id and content and without
      its nullable links into listed tables; every other link stays. */
  lemma RestoreLeavesSurvivors(schema: Schema, order: seq<Table>, db: Database, snapshot: Database, t: Table)
    requires Orderly(schema, order) && OneKeyPerColumn(schema, t) && t !in order
    requires Restore(schema, order, db, snapshot).Some?
    ensures Restore(schema, order, db, snapshot).value(t) == Survivors(schema, order, t, db(t))
  {
    RestoreSucceedsIff(schema, order, db, snapshot);
    RestoreLeavesOthers(schema, order, db, snapshot);
    WipeLeavesSurvivors(schema, order, db, t);
  }

  /** The same for the whole request: one that replaces the tables leaves the
      survivors, any other one leaves an unlisted table as it was. */
  lemma RequestLeavesSurvivors(schema: Schema, order: seq<Table>, db: Database, snapshot: Database,
                               created: AuditEntry, restored: AuditEntry, t: Table)
    requires Orderly(schema, order) && OneKeyPerColumn(schema, t) && t !in order && AuditLogs in order
    ensures var r := RestoreOperation(schema, order, db, snapshot, created, restored);
            r.db(t) == if r.Replaced() then Survivors(schema, order, t, db(t)) else db(t)
  {
    if LogAudit(schema, db, created).Some? {
      var committed := LogAudit(schema, db, created).value;
      LoggingLeavesOthers(schema, db, created, t);
      ReplacingLeavesSurvivors(schema, order, committed, snapshot, restored, t);
    }
  }

  lemma LoggingLeavesOthers(schema: Schema, db: Database, e: AuditEntry, t: Table)
    requires t != AuditLogs && LogAudit(schema, db, e).Some?
    ensures LogAudit(schema, db, e).value(t) == db(t)
  {
  }

  lemma ReplacingLeavesSurvivors(schema: Schema, order: seq<Table>, committed: Database, snapshot: Database,
                                 restored: AuditEntry, t: Table)
    requires Orderly(schema, order) && OneKeyPerColumn(schema, t) && t !in order && AuditLogs in order
    ensures var r := ReplaceTables(schema, order, committed, snapshot, restored);
            r.db(t) == if r.Replaced() then Survivors(schema, order, t, committed(t)) else committed(t)
  {
    var loaded := Restore(schema, order, committed, snapshot);
    if loaded.Some? {
      RestoreLeavesSurvivors(schema, order, committed, snapshot, t);
      if LogAudit(schema, loaded.value, restored).Some? {
        LoggingLeavesOthers(schema, loaded.value, restored, t);
      }
    }
  }

  /** A row of distinct id survives if and only if none of its links cascades from a
      listed table. */
  lemma {:induction false} SurvivesIff(schema: Schema, order: seq<Table>, t: Table, rows: seq<Row>, i: nat)
    requires i < |rows| && forall p, q :: 0 <= p < q < |rows| ==> rows[p].id != rows[q].id
    ensures HasRow(Survivors(schema, order, t, rows), rows[i].id)
       <==> !LinksListed(schema, order, t, rows[i], Cascade)
    ensures Freed(schema, order, t, rows[i]) in Survivors(schema, order, t, rows)
       <==> !LinksListed(schema, order, t, rows[i], Cascade)
  {
    var rest := rows[1..];
    var kept := Survivors(schema, order, t, rest);
    var head := if LinksListed(schema, order, t, rows[0], Cascade) then [] else [Freed(schema, order, t, rows[0])];
    SurvivorIds(schema, order, t, rest);
    HeadOrRest(head, kept, rows[i].id);
    if i > 0 {
      SurvivesIff(schema, order, t, rest, i - 1);
      assert rest[i - 1] == rows[i];
    } else {
      assert forall p :: 0 <= p < |rest| ==> rest[p] == rows[p + 1];
    }
  }

  lemma HeadOrRest(head: seq<Row>, rest: seq<Row>, id: int)
    requires |head| <= 1
    ensures HasRow(head + rest, id) <==> (head != [] && head[0].id == id) || HasRow(rest, id)
  {
    if HasRow(rest, id) {
      var i :| 0 <= i < |rest| && rest[i].id == id;
      assert (head + rest)[|head| + i].id == id;
    }
    if head != [] {
      assert (head + rest)[0] == head[0];
    }
  }

  lemma {:induction false} SurvivorIds(schema: Schema, order: seq<Table>, t: Table, rows: seq<Row>)
    ensures forall row :: row in Survivors(schema, order, t, rows) ==> HasRow(rows, row.id)
    ensures forall id :: HasRow(Survivors(schema, order, t, rows), id) ==> HasRow(rows, id)
  {
    if rows != [] {
      SurvivorIds(schema, order, t, rows[1..]);
      assert forall p :: 0 < p < |rows| ==> rows[p] == rows[1..][p - 1];
      forall row | row in Survivors(schema, order, t, rows) ensures HasRow(rows, row.id) {
        if row in Survivors(schema, order, t, rows[1..]) {
          var p :| 0 <= p < |rows[1..]| && rows[1..][p].id == row.id;
          assert rows[p + 1].id == row.id;
        } else {
          assert rows[0].id == row.id;
        }
      }
      forall id | HasRow(Survivors(schema, order, t, rows), id) ensures HasRow(rows, id) {
        var all := Survivors(schema, order, t, rows);
        var i :| 0 <= i < |all| && all[i].id == id;
        assert all[i] in all;
      }
    }
  }
}
