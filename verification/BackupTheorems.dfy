/**
When a full restore succeeds and what it leaves, for any schema and any table
order that deletes children before parents; and the application's own lists.
*/
module BackupTheorems {
  import opened Options
  import opened Backup

  // ----- What the two orders must respect -----

  ghost predicate NoRepeats(order: seq<Table>) {
    forall i, j :: 0 <= i < j < |order| ==> order[i] != order[j]
  }

  // A listed table points only into listed tables, none of them deleted before it.
  ghost predicate ChildrenFirst(schema: Schema, order: seq<Table>) {
    && (forall j, k :: 0 <= j < |order| && 0 <= k < |schema(order[j])| ==> schema(order[j])[k].to in order)
    && (forall i, j, k :: 0 <= i < |order| && 0 <= j < |order| && 0 <= k < |schema(order[j])| ==>
          schema(order[j])[k].to == order[i] ==> j <= i)
  }

  // Tables outside the list never block a deletion, and what a cascade deletes
  // in them is not pointed to by anything else.
  ghost predicate OutsidersYield(schema: Schema, order: seq<Table>) {
    forall t, k :: t !in order && 0 <= k < |schema(t)| && schema(t)[k].to in order ==>
      && schema(t)[k].rule != Restrict
      && (schema(t)[k].rule == Cascade ==> forall u, n :: 0 <= n < |schema(u)| ==> schema(u)[n].to != t)
  }

  ghost predicate Orderly(schema: Schema, order: seq<Table>) {
    NoRepeats(order) && ChildrenFirst(schema, order) && OutsidersYield(schema, order)
  }

  // Rows of the listed tables have distinct ids and no dangling links.
  ghost predicate Consistent(schema: Schema, order: seq<Table>, db: Database) {
    forall t :: t in order ==>
      && (forall p, q :: 0 <= p < q < |db(t)| ==> db(t)[p].id != db(t)[q].id)
      && (forall p, k :: 0 <= p < |db(t)| && 0 <= k < |schema(t)| && schema(t)[k].column in db(t)[p].links ==>
            HasRow(db(schema(t)[k].to), db(t)[p].links[schema(t)[k].column]))
  }

  // Links within one table point to the same or an earlier row.
  ghost predicate SelfLinksBackward(schema: Schema, db: Database, t: Table) {
    forall p, k :: 0 <= p < |db(t)| && 0 <= k < |schema(t)| && schema(t)[k].to == t
                   && schema(t)[k].column in db(t)[p].links ==>
      HasRow(db(t)[..p + 1], db(t)[p].links[schema(t)[k].column])
  }

  // A snapshot that can be loaded: no repeated id, no dangling link, and links
  // within one table to the same or an earlier row.
  ghost predicate Loadable(schema: Schema, order: seq<Table>, snapshot: Database) {
    Consistent(schema, order, snapshot) && forall t :: t in order ==> SelfLinksBackward(schema, snapshot, t)
  }

  // ----- Wiping -----

  // The row has some link into table `to`.
  ghost predicate Touches(schema: Schema, from: Table, to: Table, row: Row) {
    exists k :: 0 <= k < |schema(from)| && schema(from)[k].to == to && schema(from)[k].column in row.links
  }

  ghost predicate Clear(schema: Schema, from: Table, to: Table, rows: seq<Row>) {
    forall row :: row in rows ==> !Touches(schema, from, to, row)
  }

  lemma UnlinkClears(schema: Schema, from: Table, to: Table, row: Row)
    requires !PointsInto(schema, from, to, row, Cascade) && !PointsInto(schema, from, to, row, Restrict)
    ensures !Touches(schema, from, to, Unlink(schema, from, to, row))
  {
    var kept := Unlink(schema, from, to, row);
    forall k | 0 <= k < |schema(from)| && schema(from)[k].to == to ensures schema(from)[k].column !in kept.links {
      if schema(from)[k].rule == SetNull {
        assert schema(from)[k] == Key(schema(from)[k].column, to, SetNull);
      }
    }
  }

  lemma UnlinkUntouched(schema: Schema, from: Table, to: Table, row: Row)
    requires !Touches(schema, from, to, row)
    ensures Unlink(schema, from, to, row) == row
  {
    forall c | c in row.links ensures !NullsColumn(schema, from, to, c) {
    }
    assert Unlink(schema, from, to, row).links == row.links;
  }

  lemma {:induction false} DetachClears(schema: Schema, from: Table, to: Table, rows: seq<Row>)
    requires forall row :: row in rows ==> !PointsInto(schema, from, to, row, Restrict)
    ensures Clear(schema, from, to, Detach(schema, from, to, rows))
  {
    if rows != [] {
      DetachClears(schema, from, to, rows[1..]);
      if !PointsInto(schema, from, to, rows[0], Cascade) {
        UnlinkClears(schema, from, to, rows[0]);
      }
    }
  }

  // Detached rows are rows of before with no new links.
  lemma {:induction false} DetachKeepsClear(schema: Schema, from: Table, to: Table, other: Table, rows: seq<Row>)
    requires Clear(schema, from, other, rows)
    ensures Clear(schema, from, other, Detach(schema, from, to, rows))
  {
    if rows != [] {
      DetachKeepsClear(schema, from, to, other, rows[1..]);
      UnlinkAddsNothing(schema, from, to, other, rows[0]);
      assert rows[0] in rows;
    }
  }

  lemma UnlinkAddsNothing(schema: Schema, from: Table, to: Table, other: Table, row: Row)
    ensures Touches(schema, from, other, Unlink(schema, from, to, row)) ==> Touches(schema, from, other, row)
  {
  }

  lemma {:induction false} DetachUntouched(schema: Schema, from: Table, to: Table, rows: seq<Row>)
    requires Clear(schema, from, to, rows)
    ensures Detach(schema, from, to, rows) == rows
  {
    if rows != [] {
      DetachUntouched(schema, from, to, rows[1..]);
      assert rows[0] in rows;
      UnlinkUntouched(schema, from, to, rows[0]);
      assert PointsInto(schema, from, to, rows[0], Cascade) ==> Touches(schema, from, to, rows[0]);
    }
  }

  // After the first `done` deletions.
  ghost predicate WipedTo(schema: Schema, order: seq<Table>, db: Database, done: nat)
    requires done <= |order|
  {
    && (forall i :: 0 <= i < done ==> db(order[i]) == [])
    && (forall t, i :: t !in order && 0 <= i < done ==> Clear(schema, t, order[i], db(t)))
  }

  lemma DeleteNext(schema: Schema, order: seq<Table>, db: Database, done: nat)
    requires Orderly(schema, order) && done < |order| && WipedTo(schema, order, db, done)
    ensures DeleteAll(schema, db, order[done]).Some?
    ensures WipedTo(schema, order, DeleteAll(schema, db, order[done]).value, done + 1)
  {
    var to := order[done];
    forall from, i | from != to && 0 <= i < |db(from)| ensures !PointsInto(schema, from, to, db(from)[i], Restrict) {
      if from in order {
        var j :| 0 <= j < |order| && order[j] == from;
        assert j >= done;
      }
    }
    var db1 := DeleteAll(schema, db, to).value;
    forall t, i | t !in order && 0 <= i < done + 1 ensures Clear(schema, t, order[i], db1(t)) {
      if i == done {
        DetachClears(schema, t, to, db(t));
      } else {
        DetachKeepsClear(schema, t, to, order[i], db(t));
      }
    }
  }

  // Outside tables: cleared of links into the list, and untouched when they
  // had none.
  lemma {:induction false} WipeFrom(schema: Schema, order: seq<Table>, db: Database, done: nat)
    requires Orderly(schema, order) && done <= |order| && WipedTo(schema, order, db, done)
    ensures Wipe(schema, db, order[done..]).Some?
    ensures WipedTo(schema, order, Wipe(schema, db, order[done..]).value, |order|)
    ensures forall t :: t !in order && (forall i :: done <= i < |order| ==> Clear(schema, t, order[i], db(t)))
                    ==> Wipe(schema, db, order[done..]).value(t) == db(t)
    decreases |order| - done
  {
    if done < |order| {
      DeleteNext(schema, order, db, done);
      var db1 := DeleteAll(schema, db, order[done]).value;
      assert order[done..][1..] == order[done + 1..];
      WipeFrom(schema, order, db1, done + 1);
      forall t | t !in order && forall i :: done <= i < |order| ==> Clear(schema, t, order[i], db(t))
        ensures Wipe(schema, db, order[done..]).value(t) == db(t)
      {
        DetachUntouched(schema, t, order[done], db(t));
      }
    }
  }

  // ----- Reinserting -----

  lemma {:induction false} InsertRowsIff(schema: Schema, order: seq<Table>, snapshot: Database, db: Database,
                                         t: Table, p: nat)
    requires Consistent(schema, order, snapshot) && t in order && p <= |snapshot(t)|
    requires db(t) == snapshot(t)[..p]
    requires forall k :: 0 <= k < |schema(t)| && schema(t)[k].to != t ==>
               db(schema(t)[k].to) == snapshot(schema(t)[k].to)
    ensures InsertRows(schema, db, t, snapshot(t)[p..]).Some?
       <==> forall q, k :: p <= q < |snapshot(t)| && 0 <= k < |schema(t)| && schema(t)[k].to == t
                           && schema(t)[k].column in snapshot(t)[q].links ==>
              HasRow(snapshot(t)[..q + 1], snapshot(t)[q].links[schema(t)[k].column])
    ensures InsertRows(schema, db, t, snapshot(t)[p..]).Some? ==>
              forall u :: InsertRows(schema, db, t, snapshot(t)[p..]).value(u)
                       == if u == t then snapshot(t) else db(u)
    decreases |snapshot(t)| - p
  {
    if p < |snapshot(t)| {
      var row := snapshot(t)[p];
      var rest := snapshot(t)[p..];
      assert rest[0] == row && rest[1..] == snapshot(t)[p + 1..];
      assert snapshot(t)[..p + 1] == snapshot(t)[..p] + [row];
      InsertableIff(schema, order, snapshot, db, t, p);
      if Insertable(schema, db, t, row) {
        InsertRowsIff(schema, order, snapshot, Append(db, t, row), t, p + 1);
      }
    } else {
      assert snapshot(t)[p..] == [] && snapshot(t)[..p] == snapshot(t);
    }
  }

  lemma HasRowSnoc(rows: seq<Row>, row: Row, id: int)
    ensures HasRow(rows + [row], id) <==> HasRow(rows, id) || row.id == id
  {
    var more := rows + [row];
    assert more[|rows|] == row;
    if HasRow(rows, id) {
      var i :| 0 <= i < |rows| && rows[i].id == id;
      assert more[i].id == id;
    }
  }

  lemma NotYetStored(schema: Schema, order: seq<Table>, snapshot: Database, t: Table, p: nat)
    requires Consistent(schema, order, snapshot) && t in order && p < |snapshot(t)|
    ensures !HasRow(snapshot(t)[..p], snapshot(t)[p].id)
  {
  }

  // Whether row p of a table, when its earlier rows are in, finds the row its
  // k-th key points to.
  lemma LinkFound(schema: Schema, order: seq<Table>, snapshot: Database, db: Database, t: Table, p: nat, k: nat)
    requires Consistent(schema, order, snapshot) && t in order && p < |snapshot(t)| && k < |schema(t)|
    requires schema(t)[k].column in snapshot(t)[p].links && db(t) == snapshot(t)[..p]
    requires schema(t)[k].to != t ==> db(schema(t)[k].to) == snapshot(schema(t)[k].to)
    ensures var key, row := schema(t)[k], snapshot(t)[p];
            (HasRow(db(key.to), row.links[key.column]) || (key.to == t && row.links[key.column] == row.id)
             <==> key.to == t ==> HasRow(snapshot(t)[..p + 1], row.links[key.column]))
  {
    assert snapshot(t)[..p + 1] == snapshot(t)[..p] + [snapshot(t)[p]];
    HasRowSnoc(snapshot(t)[..p], snapshot(t)[p], snapshot(t)[p].links[schema(t)[k].column]);
  }

  lemma InsertableIff(schema: Schema, order: seq<Table>, snapshot: Database, db: Database, t: Table, p: nat)
    requires Consistent(schema, order, snapshot) && t in order && p < |snapshot(t)|
    requires db(t) == snapshot(t)[..p]
    requires forall k :: 0 <= k < |schema(t)| && schema(t)[k].to != t ==>
               db(schema(t)[k].to) == snapshot(schema(t)[k].to)
    ensures Insertable(schema, db, t, snapshot(t)[p])
       <==> forall k :: 0 <= k < |schema(t)| && schema(t)[k].to == t
                        && schema(t)[k].column in snapshot(t)[p].links ==>
              HasRow(snapshot(t)[..p + 1], snapshot(t)[p].links[schema(t)[k].column])
  {
    NotYetStored(schema, order, snapshot, t, p);
    forall k | 0 <= k < |schema(t)| && schema(t)[k].column in snapshot(t)[p].links
      ensures var key, row := schema(t)[k], snapshot(t)[p];
              (HasRow(db(key.to), row.links[key.column]) || (key.to == t && row.links[key.column] == row.id)
               <==> key.to == t ==> HasRow(snapshot(t)[..p + 1], row.links[key.column]))
    {
      LinkFound(schema, order, snapshot, db, t, p, k);
    }
  }

  // Tables order[n..] are loaded, tables order[..n] are empty.
  ghost predicate LoadedFrom(order: seq<Table>, snapshot: Database, db: Database, n: nat)
    requires n <= |order|
  {
    && (forall i :: n <= i < |order| ==> db(order[i]) == snapshot(order[i]))
    && (forall i :: 0 <= i < n ==> db(order[i]) == [])
  }

  // Loading the next table.
  lemma LoadNext(schema: Schema, order: seq<Table>, snapshot: Database, db: Database, n: nat)
    requires Orderly(schema, order) && Consistent(schema, order, snapshot)
    requires 0 < n <= |order| && LoadedFrom(order, snapshot, db, n)
    ensures var r := InsertRows(schema, db, order[n - 1], snapshot(order[n - 1]));
            && (r.Some? <==> SelfLinksBackward(schema, snapshot, order[n - 1]))
            && (r.Some? ==> LoadedFrom(order, snapshot, r.value, n - 1)
                            && forall u :: u !in order ==> r.value(u) == db(u))
  {
    var t := order[n - 1];
    forall k | 0 <= k < |schema(t)| && schema(t)[k].to != t ensures db(schema(t)[k].to) == snapshot(schema(t)[k].to) {
      var i :| 0 <= i < |order| && order[i] == schema(t)[k].to;
      assert n - 1 <= i;
    }
    assert snapshot(t)[..0] == [] && snapshot(t)[0..] == snapshot(t);
    InsertRowsIff(schema, order, snapshot, db, t, 0);
  }

  // Reinsertion of n tables is the n-th one's rows, then the n - 1 others.
  lemma ReinsertStep(schema: Schema, order: seq<Table>, snapshot: Database, db: Database, n: nat)
    requires 0 < n <= |order|
    ensures var loaded := InsertRows(schema, db, order[n - 1], snapshot(order[n - 1]));
            (Reinsert(schema, db, snapshot, order[..n])
             == if loaded.None? then None else Reinsert(schema, loaded.value, snapshot, order[..n - 1]))
  {
    assert order[..n][n - 1] == order[n - 1] && order[..n][..n - 1] == order[..n - 1];
  }

  lemma {:induction false} ReinsertIff(schema: Schema, order: seq<Table>, snapshot: Database, db: Database, n: nat)
    requires Orderly(schema, order) && Consistent(schema, order, snapshot)
    requires n <= |order| && LoadedFrom(order, snapshot, db, n)
    ensures Reinsert(schema, db, snapshot, order[..n]).Some?
       <==> forall i :: 0 <= i < n ==> SelfLinksBackward(schema, snapshot, order[i])
    decreases n
  {
    if n > 0 {
      ReinsertStep(schema, order, snapshot, db, n);
      LoadNext(schema, order, snapshot, db, n);
      var loaded := InsertRows(schema, db, order[n - 1], snapshot(order[n - 1]));
      if loaded.Some? {
        ReinsertIff(schema, order, snapshot, loaded.value, n - 1);
      }
    }
  }

  // ----- Whatever the snapshot holds, a load that succeeds is complete -----

  lemma {:induction false} InsertRowsLoads(schema: Schema, db: Database, t: Table, rows: seq<Row>)
    requires InsertRows(schema, db, t, rows).Some?
    ensures forall u :: InsertRows(schema, db, t, rows).value(u) == if u == t then db(u) + rows else db(u)
    decreases rows
  {
    if rows != [] {
      InsertRowsLoads(schema, Append(db, t, rows[0]), t, rows[1..]);
      assert db(t) + rows == db(t) + [rows[0]] + rows[1..];
    } else {
      assert db(t) + [] == db(t);
    }
  }

  lemma {:induction false} ReinsertLoads(schema: Schema, order: seq<Table>, snapshot: Database, db: Database, n: nat)
    requires NoRepeats(order) && n <= |order| && LoadedFrom(order, snapshot, db, n)
    requires Reinsert(schema, db, snapshot, order[..n]).Some?
    ensures LoadedFrom(order, snapshot, Reinsert(schema, db, snapshot, order[..n]).value, 0)
    decreases n
  {
    if n > 0 {
      ReinsertStep(schema, order, snapshot, db, n);
      InsertRowsLoads(schema, db, order[n - 1], snapshot(order[n - 1]));
      var loaded := InsertRows(schema, db, order[n - 1], snapshot(order[n - 1])).value;
      assert db(order[n - 1]) + snapshot(order[n - 1]) == snapshot(order[n - 1]);
      ReinsertLoads(schema, order, snapshot, loaded, n - 1);
    }
  }

  lemma {:induction false} ReinsertLeavesOthers(schema: Schema, order: seq<Table>, snapshot: Database, db: Database,
                                                n: nat, u: Table)
    requires n <= |order| && u !in order && Reinsert(schema, db, snapshot, order[..n]).Some?
    ensures Reinsert(schema, db, snapshot, order[..n]).value(u) == db(u)
    decreases n
  {
    if n > 0 {
      ReinsertStep(schema, order, snapshot, db, n);
      InsertRowsLoads(schema, db, order[n - 1], snapshot(order[n - 1]));
      var loaded := InsertRows(schema, db, order[n - 1], snapshot(order[n - 1])).value;
      ReinsertLeavesOthers(schema, order, snapshot, loaded, n - 1, u);
    }
  }

  /** A restore that succeeds leaves every listed table equal to the snapshot,
      whatever the database and the snapshot held. */
  lemma RestoreIsComplete(schema: Schema, order: seq<Table>, db: Database, snapshot: Database)
    requires Orderly(schema, order) && Restore(schema, order, db, snapshot).Some?
    ensures forall t :: t in order ==> Restore(schema, order, db, snapshot).value(t) == snapshot(t)
  {
    assert order[0..] == order && order[..|order|] == order;
    WipeFrom(schema, order, db, 0);
    ReinsertLoads(schema, order, snapshot, Wipe(schema, db, order).value, |order|);
    forall t | t in order ensures Restore(schema, order, db, snapshot).value(t) == snapshot(t) {
      var i :| 0 <= i < |order| && order[i] == t;
    }
  }

  // ----- Restore -----

  // ----- No dangling link is ever committed -----

  lemma AppendKeepsConsistent(schema: Schema, order: seq<Table>, db: Database, t: Table, row: Row)
    requires Consistent(schema, order, db) && Insertable(schema, db, t, row)
    ensures Consistent(schema, order, Append(db, t, row))
  {
    var r := Append(db, t, row);
    forall u | u in order
      ensures forall p, q :: 0 <= p < q < |r(u)| ==> r(u)[p].id != r(u)[q].id
    {
      forall p, q | 0 <= p < q < |r(u)| ensures r(u)[p].id != r(u)[q].id {
        if u == t && q == |db(t)| {
          assert !HasRow(db(t), row.id);
          assert db(t)[p].id != row.id;
        }
      }
    }
    forall u, p, k | u in order && 0 <= p < |r(u)| && 0 <= k < |schema(u)| && schema(u)[k].column in r(u)[p].links
      ensures HasRow(r(schema(u)[k].to), r(u)[p].links[schema(u)[k].column])
    {
      var key := schema(u)[k];
      LinkStays(db, t, row, key.to, r(u)[p].links[key.column]);
      if u == t && p == |db(t)| {
        assert r(u)[p] == row;
        HasRowSnoc(db(t), row, row.links[key.column]);
      } else {
        assert r(u)[p] == db(u)[p];
      }
    }
  }

  lemma LinkStays(db: Database, t: Table, row: Row, to: Table, id: int)
    ensures HasRow(db(to), id) ==> HasRow(Append(db, t, row)(to), id)
  {
    if to == t {
      HasRowSnoc(db(t), row, id);
    }
  }

  lemma {:induction false} InsertRowsKeepConsistent(schema: Schema, order: seq<Table>, db: Database, t: Table,
                                                    rows: seq<Row>)
    requires Consistent(schema, order, db) && InsertRows(schema, db, t, rows).Some?
    ensures Consistent(schema, order, InsertRows(schema, db, t, rows).value)
    decreases rows
  {
    if rows != [] {
      AppendKeepsConsistent(schema, order, db, t, rows[0]);
      InsertRowsKeepConsistent(schema, order, Append(db, t, rows[0]), t, rows[1..]);
    }
  }

  lemma {:induction false} ReinsertKeepsConsistent(schema: Schema, order: seq<Table>, db: Database, snapshot: Database,
                                                   left: seq<Table>)
    requires Consistent(schema, order, db) && Reinsert(schema, db, snapshot, left).Some?
    ensures Consistent(schema, order, Reinsert(schema, db, snapshot, left).value)
    decreases left
  {
    if left != [] {
      var n := |left| - 1;
      InsertRowsKeepConsistent(schema, order, db, left[n], snapshot(left[n]));
      ReinsertKeepsConsistent(schema, order, InsertRows(schema, db, left[n], snapshot(left[n])).value, snapshot,
                              left[..n]);
    }
  }

  /** Whatever the snapshot holds, a restore that succeeds leaves no dangling link
      and no repeated id in the listed tables. */
  lemma RestoreIsConsistent(schema: Schema, order: seq<Table>, db: Database, snapshot: Database)
    requires Orderly(schema, order) && Restore(schema, order, db, snapshot).Some?
    ensures Consistent(schema, order, Restore(schema, order, db, snapshot).value)
  {
    assert order[0..] == order;
    WipeFrom(schema, order, db, 0);
    var wiped := Wipe(schema, db, order).value;
    forall t | t in order ensures wiped(t) == [] {
      var i :| 0 <= i < |order| && order[i] == t;
    }
    ReinsertKeepsConsistent(schema, order, wiped, snapshot, order);
  }

  // For a snapshot without dangling links.
  lemma SoundRestoreIff(schema: Schema, order: seq<Table>, db: Database, snapshot: Database)
    requires Orderly(schema, order) && Consistent(schema, order, snapshot)
    ensures Restore(schema, order, db, snapshot).Some?
       <==> forall t :: t in order ==> SelfLinksBackward(schema, snapshot, t)
  {
    assert order[0..] == order && order[..|order|] == order;
    WipeFrom(schema, order, db, 0);
    ReinsertIff(schema, order, snapshot, Wipe(schema, db, order).value, |order|);
    forall t | t in order
      ensures (forall i :: 0 <= i < |order| ==> SelfLinksBackward(schema, snapshot, order[i]))
              ==> SelfLinksBackward(schema, snapshot, t)
    {
      var i :| 0 <= i < |order| && order[i] == t;
    }
  }

  // Tables that agree on the listed ones are consistent together.
  lemma ConsistentReadsListed(schema: Schema, order: seq<Table>, a: Database, b: Database)
    requires ChildrenFirst(schema, order) && Consistent(schema, order, a)
    requires forall t :: t in order ==> a(t) == b(t)
    ensures Consistent(schema, order, b)
  {
    forall t, k | t in order && 0 <= k < |schema(t)| ensures schema(t)[k].to in order {
      var j :| 0 <= j < |order| && order[j] == t;
    }
  }

  /** For any schema and any order that deletes children first, whatever the
      database and the snapshot hold: no deletion is refused, and the restore
      succeeds exactly when the snapshot has no repeated id and no dangling link
      and its links within one table point to the same or an earlier row of it. */
  lemma RestoreSucceedsIff(schema: Schema, order: seq<Table>, db: Database, snapshot: Database)
    requires Orderly(schema, order)
    ensures Wipe(schema, db, order).Some?
    ensures Restore(schema, order, db, snapshot).Some?
       <==> Loadable(schema, order, snapshot)
  {
    assert order[0..] == order;
    WipeFrom(schema, order, db, 0);
    if Restore(schema, order, db, snapshot).Some? {
      RestoreIsComplete(schema, order, db, snapshot);
      RestoreIsConsistent(schema, order, db, snapshot);
      ConsistentReadsListed(schema, order, Restore(schema, order, db, snapshot).value, snapshot);
    }
    if Consistent(schema, order, snapshot) {
      SoundRestoreIff(schema, order, db, snapshot);
    }
  }

  // A restore touches the other tables as the wipe does.
  lemma RestoreLeavesOthers(schema: Schema, order: seq<Table>, db: Database, snapshot: Database)
    requires Orderly(schema, order) && Restore(schema, order, db, snapshot).Some?
    ensures forall t :: Restore(schema, order, db, snapshot).value(t)
                     == if t in order then snapshot(t) else Wipe(schema, db, order).value(t)
  {
    assert order[0..] == order && order[..|order|] == order;
    WipeFrom(schema, order, db, 0);
    RestoreIsComplete(schema, order, db, snapshot);
    var wiped := Wipe(schema, db, order).value;
    forall t | t !in order ensures Restore(schema, order, db, snapshot).value(t) == wiped(t) {
      ReinsertLeavesOthers(schema, order, snapshot, wiped, |order|, t);
    }
  }

  lemma BackupIsConsistent(schema: Schema, order: seq<Table>, db: Database)
    requires ChildrenFirst(schema, order) && Consistent(schema, order, db)
    ensures Consistent(schema, order, TakeBackup(db, order))
    ensures forall t :: t in order ==>
              (SelfLinksBackward(schema, TakeBackup(db, order), t) <==> SelfLinksBackward(schema, db, t))
  {
    forall t, k | t in order && 0 <= k < |schema(t)| ensures schema(t)[k].to in order {
      var j :| 0 <= j < |order| && order[j] == t;
    }
  }

  /** Restoring a backup of the very same database gives it back exactly when no
      row outside the listed tables points into them: such links are nulled or
      their rows deleted by the wipe, and nothing restores them. */
  lemma RoundTripIff(schema: Schema, order: seq<Table>, db: Database)
    requires Orderly(schema, order) && Consistent(schema, order, db)
    requires forall t :: t in order ==> SelfLinksBackward(schema, db, t)
    ensures Restore(schema, order, db, TakeBackup(db, order)).Some?
    ensures (forall t :: Restore(schema, order, db, TakeBackup(db, order)).value(t) == db(t))
       <==> forall t, i :: t !in order && 0 <= i < |order| ==> Clear(schema, t, order[i], db(t))
  {
    BackupIsConsistent(schema, order, db);
    RestoreSucceedsIff(schema, order, db, TakeBackup(db, order));
    RestoreLeavesOthers(schema, order, db, TakeBackup(db, order));
    var r := Restore(schema, order, db, TakeBackup(db, order)).value;
    assert order[0..] == order;
    WipeFrom(schema, order, db, 0);
    if forall t :: r(t) == db(t) {
      forall t, i | t !in order && 0 <= i < |order| ensures Clear(schema, t, order[i], db(t)) {
        assert Clear(schema, t, order[i], Wipe(schema, db, order).value(t));
        assert r(t) == db(t);
      }
    }
  }
}
