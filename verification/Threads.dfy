/**
Announcement conversations: messages with optional parents, and the reply
forest assembled from the flat list of rows.
*/
module Threads {
  import opened Options

  datatype Msg = Msg(id: int, announcement: int, parent: Option<int>)

  // ----- The flat list -----

  function Ids(raw: seq<Msg>): seq<int> {
    if raw == [] then [] else [raw[0].id] + Ids(raw[1..])
  }

  ghost predicate DistinctIds(raw: seq<Msg>) {
    forall i, j :: 0 <= i < j < |raw| ==> raw[i].id != raw[j].id
  }

  // Ids are handed out from 1 upwards, and a parent exists before its replies.
  ghost predicate ParentsFirst(raw: seq<Msg>) {
    && DistinctIds(raw)
    && (forall m :: m in raw ==> 1 <= m.id)
    && (forall m :: m in raw && m.parent.Some? ==> m.parent.value < m.id)
  }

  // Replies to a message, in list order.
  function ChildIds(raw: seq<Msg>, id: int): seq<int> {
    if raw == [] then []
    else (if raw[0].parent == Some(id) then [raw[0].id] else []) + ChildIds(raw[1..], id)
  }

  // Messages whose parent is absent or not in the list, in list order.
  function RootIds(raw: seq<Msg>, all: seq<int>): seq<int> {
    if raw == [] then []
    else (if raw[0].parent.Some? && raw[0].parent.value in all then [] else [raw[0].id]) + RootIds(raw[1..], all)
  }

  lemma {:induction false} IdsMembers(raw: seq<Msg>)
    ensures forall x :: x in Ids(raw) <==> exists m :: m in raw && m.id == x
  {
    if raw != [] {
      IdsMembers(raw[1..]);
      assert raw == [raw[0]] + raw[1..];
      forall x ensures x in Ids(raw) <==> exists m :: m in raw && m.id == x {
        if exists m :: m in raw && m.id == x {
          var m :| m in raw && m.id == x;
          assert m == raw[0] || m in raw[1..];
        }
        if x in Ids(raw[1..]) {
          var m :| m in raw[1..] && m.id == x;
          assert m in raw;
        }
        assert raw[0] in raw;
      }
    }
  }

  lemma {:induction false} ChildIdsMembers(raw: seq<Msg>, id: int)
    ensures forall x :: x in ChildIds(raw, id) <==> exists m :: m in raw && m.id == x && m.parent == Some(id)
  {
    if raw != [] {
      ChildIdsMembers(raw[1..], id);
      assert raw == [raw[0]] + raw[1..];
      forall x ensures x in ChildIds(raw, id) <==> exists m :: m in raw && m.id == x && m.parent == Some(id) {
        if exists m :: m in raw && m.id == x && m.parent == Some(id) {
          var m :| m in raw && m.id == x && m.parent == Some(id);
          assert m == raw[0] || m in raw[1..];
        }
        if x in ChildIds(raw[1..], id) {
          var m :| m in raw[1..] && m.id == x && m.parent == Some(id);
          assert m in raw;
        }
        assert raw[0] in raw;
      }
    }
  }

  function Top(raw: seq<Msg>): (top: int)
    ensures top >= 0 && forall m :: m in raw ==> m.id <= top
  {
    if raw == [] then 0
    else
      var rest := Top(raw[1..]);
      assert raw == [raw[0]] + raw[1..];
      if raw[0].id > rest then raw[0].id else rest
  }

  ghost predicate Above(raw: seq<Msg>, ids: seq<int>, lo: int) {
    forall x :: x in ids ==> lo < x && x in Ids(raw)
  }

  lemma ChildrenAbove(raw: seq<Msg>, id: int)
    requires ParentsFirst(raw)
    ensures Above(raw, ChildIds(raw, id), id)
  {
    ChildIdsMembers(raw, id);
    IdsMembers(raw);
  }

  lemma TopBounds(raw: seq<Msg>, id: int)
    requires id in Ids(raw)
    ensures id <= Top(raw)
  {
    IdsMembers(raw);
  }

  /** The forest read in preorder: each message, then its replies' subtrees. It
      terminates because replies have greater ids. */
  ghost function Flatten(raw: seq<Msg>, lo: int, ids: seq<int>): seq<int>
    requires ParentsFirst(raw) && Above(raw, ids, lo)
    decreases Top(raw) - lo, |ids|
  {
    if ids == [] then []
    else
      assert forall x :: x in ids[1..] ==> x in ids;
      ChildrenAbove(raw, ids[0]);
      TopBounds(raw, ids[0]);
      [ids[0]] + Flatten(raw, ids[0], ChildIds(raw, ids[0])) + Flatten(raw, lo, ids[1..])
  }

  // ----- Every message is read exactly once -----

  // The parent a message hangs under in the assembled forest.
  function ParentOf(raw: seq<Msg>, all: seq<int>, id: int): Option<int> {
    if raw == [] then None
    else if raw[0].id == id then
      (if raw[0].parent.Some? && raw[0].parent.value in all then raw[0].parent else None)
    else ParentOf(raw[1..], all, id)
  }

  lemma {:induction false} ParentIsOlder(raw: seq<Msg>, all: seq<int>, id: int)
    requires forall m :: m in raw && m.parent.Some? ==> m.parent.value < m.id
    ensures var p := ParentOf(raw, all, id); p.Some? ==> p.value < id && p.value in all
  {
    if raw != [] && raw[0].id != id {
      ParentIsOlder(raw[1..], all, id);
    }
  }

  // x is y or an ancestor of y.
  ghost predicate Over(raw: seq<Msg>, x: int, y: int)
    requires ParentsFirst(raw)
    decreases if y < 0 then 0 else y
  {
    || x == y
    || (y >= 1 && var p := ParentOf(raw, Ids(raw), y);
        ParentIsOlder(raw, Ids(raw), y);
        p.Some? && p.value >= 0 && Over(raw, x, p.value))
  }

  ghost function Hits(raw: seq<Msg>, ids: seq<int>, y: int): nat
    requires ParentsFirst(raw)
  {
    if ids == [] then 0 else (if Over(raw, ids[0], y) then 1 else 0) + Hits(raw, ids[1..], y)
  }

  lemma {:induction false} OverIsOlder(raw: seq<Msg>, x: int, y: int)
    requires ParentsFirst(raw) && Over(raw, x, y)
    ensures x <= y
    decreases if y < 0 then 0 else y
  {
    if x != y {
      ParentIsOlder(raw, Ids(raw), y);
      OverIsOlder(raw, x, ParentOf(raw, Ids(raw), y).value);
    }
  }

  lemma {:induction false} ParentOfRow(raw: seq<Msg>, all: seq<int>, m: Msg)
    requires DistinctIds(raw) && m in raw
    ensures ParentOf(raw, all, m.id) == if m.parent.Some? && m.parent.value in all then m.parent else None
  {
    if raw[0] != m {
      var i :| 0 <= i < |raw| && raw[i] == m;
      assert raw[1..][i - 1] == m;
      ParentOfRow(raw[1..], all, m);
    }
  }

  lemma ChildIff(raw: seq<Msg>, x: int, y: int)
    requires ParentsFirst(raw) && x in Ids(raw) && y in Ids(raw)
    ensures y in ChildIds(raw, x) <==> ParentOf(raw, Ids(raw), y) == Some(x)
  {
    IdsMembers(raw);
    ChildIdsMembers(raw, x);
    var m :| m in raw && m.id == y;
    ParentOfRow(raw, Ids(raw), m);
    if y in ChildIds(raw, x) {
      var c :| c in raw && c.id == y && c.parent == Some(x);
      assert c == m;
    }
  }

  lemma {:induction false} RootIdsMembers(raw: seq<Msg>, all: seq<int>)
    ensures forall x :: x in RootIds(raw, all)
                   <==> exists m :: m in raw && m.id == x && !(m.parent.Some? && m.parent.value in all)
  {
    if raw != [] {
      RootIdsMembers(raw[1..], all);
      forall x ensures x in RootIds(raw, all)
                  <==> exists m :: m in raw && m.id == x && !(m.parent.Some? && m.parent.value in all) {
        if exists m :: m in raw && m.id == x && !(m.parent.Some? && m.parent.value in all) {
          var m :| m in raw && m.id == x && !(m.parent.Some? && m.parent.value in all);
          assert m == raw[0] || m in raw[1..];
        }
        if x in RootIds(raw[1..], all) {
          var m :| m in raw[1..] && m.id == x && !(m.parent.Some? && m.parent.value in all);
          assert m in raw;
        }
        assert raw[0] in raw;
      }
    }
  }

  lemma RootIff(raw: seq<Msg>, y: int)
    requires ParentsFirst(raw) && y in Ids(raw)
    ensures y in RootIds(raw, Ids(raw)) <==> ParentOf(raw, Ids(raw), y) == None
  {
    IdsMembers(raw);
    RootIdsMembers(raw, Ids(raw));
    var m :| m in raw && m.id == y;
    ParentOfRow(raw, Ids(raw), m);
    if y in RootIds(raw, Ids(raw)) {
      var c :| c in raw && c.id == y && !(c.parent.Some? && c.parent.value in Ids(raw));
      assert c == m;
    }
  }

  ghost predicate Distinct(ids: seq<int>) {
    forall i, j :: 0 <= i < j < |ids| ==> ids[i] != ids[j]
  }

  // A list that holds some ids of distinct rows, in their order.
  lemma {:induction false} ChildIdsDistinct(raw: seq<Msg>, id: int)
    requires DistinctIds(raw)
    ensures Distinct(ChildIds(raw, id))
  {
    if raw != [] {
      ChildIdsDistinct(raw[1..], id);
      ChildIdsMembers(raw[1..], id);
      var rest := ChildIds(raw[1..], id);
      forall j | 0 <= j < |rest| ensures rest[j] != raw[0].id {
        assert rest[j] in rest;
        var m :| m in raw[1..] && m.id == rest[j] && m.parent == Some(id);
        var i :| 0 <= i < |raw[1..]| && raw[1..][i] == m;
        assert raw[i + 1] == m;
      }
    }
  }

  lemma {:induction false} RootIdsDistinct(raw: seq<Msg>, all: seq<int>)
    requires DistinctIds(raw)
    ensures Distinct(RootIds(raw, all))
  {
    if raw != [] {
      RootIdsDistinct(raw[1..], all);
      RootIdsMembers(raw[1..], all);
      var rest := RootIds(raw[1..], all);
      forall j | 0 <= j < |rest| ensures rest[j] != raw[0].id {
        assert rest[j] in rest;
        var m :| m in raw[1..] && m.id == rest[j] && !(m.parent.Some? && m.parent.value in all);
        var i :| 0 <= i < |raw[1..]| && raw[1..][i] == m;
        assert raw[i + 1] == m;
      }
    }
  }

  lemma {:induction false} HitsNone(raw: seq<Msg>, ids: seq<int>, y: int)
    requires ParentsFirst(raw) && forall x :: x in ids ==> !Over(raw, x, y)
    ensures Hits(raw, ids, y) == 0
  {
    if ids != [] {
      assert ids[0] in ids && forall x :: x in ids[1..] ==> x in ids;
      HitsNone(raw, ids[1..], y);
    }
  }

  lemma {:induction false} HitsOnce(raw: seq<Msg>, ids: seq<int>, y: int)
    requires ParentsFirst(raw) && Distinct(ids) && y in ids
    requires forall x :: x in ids && x != y ==> !Over(raw, x, y)
    ensures Hits(raw, ids, y) == 1
  {
    assert ids[0] in ids && forall x :: x in ids[1..] ==> x in ids;
    if ids[0] == y {
      HitsNone(raw, ids[1..], y);
    } else {
      assert ids == [ids[0]] + ids[1..];
      HitsOnce(raw, ids[1..], y);
    }
  }

  lemma {:induction false} HitsOfParent(raw: seq<Msg>, ids: seq<int>, y: int, p: int)
    requires ParentsFirst(raw) && y >= 1 && p >= 0 && ParentOf(raw, Ids(raw), y) == Some(p) && y !in ids
    ensures Hits(raw, ids, y) == Hits(raw, ids, p)
  {
    ParentIsOlder(raw, Ids(raw), y);
    if ids != [] {
      assert ids[0] in ids && forall x :: x in ids[1..] ==> x in ids;
      HitsOfParent(raw, ids[1..], y, p);
    }
  }

  lemma IdPositive(raw: seq<Msg>, y: int)
    requires ParentsFirst(raw) && y in Ids(raw)
    ensures y >= 1
  {
    IdsMembers(raw);
  }

  // A message is reached through exactly one reply of each of its ancestors.
  lemma {:induction false} ChildHits(raw: seq<Msg>, x: int, y: int)
    requires ParentsFirst(raw) && x in Ids(raw) && y in Ids(raw)
    ensures (if x == y then 1 else 0) + Hits(raw, ChildIds(raw, x), y) == if Over(raw, x, y) then 1 else 0
    decreases if y < 0 then 0 else y
  {
    var parent := ParentOf(raw, Ids(raw), y);
    IdPositive(raw, y);
    ParentIsOlder(raw, Ids(raw), y);
    ChildIff(raw, x, y);
    ChildrenAbove(raw, x);
    if parent == None {
      HitsNone(raw, ChildIds(raw, x), y);
    } else if parent.value == x {
      ChildIdsDistinct(raw, x);
      forall c | c in ChildIds(raw, x) && c != y ensures !Over(raw, c, y) {
        if Over(raw, c, x) { OverIsOlder(raw, c, x); }
      }
      HitsOnce(raw, ChildIds(raw, x), y);
      IdPositive(raw, x);
      assert Over(raw, x, x);
    } else {
      IdPositive(raw, parent.value);
      HitsOfParent(raw, ChildIds(raw, x), y, parent.value);
      ChildHits(raw, x, parent.value);
      if x == y && Over(raw, x, parent.value) { OverIsOlder(raw, x, parent.value); }
    }
  }

  lemma {:induction false} RootHits(raw: seq<Msg>, y: int)
    requires ParentsFirst(raw) && y in Ids(raw)
    ensures Hits(raw, RootIds(raw, Ids(raw)), y) == 1
    decreases if y < 0 then 0 else y
  {
    var roots, parent := RootIds(raw, Ids(raw)), ParentOf(raw, Ids(raw), y);
    IdPositive(raw, y);
    ParentIsOlder(raw, Ids(raw), y);
    RootIff(raw, y);
    if parent == None {
      RootIdsDistinct(raw, Ids(raw));
      HitsOnce(raw, roots, y);
    } else {
      IdPositive(raw, parent.value);
      HitsOfParent(raw, roots, y, parent.value);
      RootHits(raw, parent.value);
    }
  }

  lemma {:induction false} FlattenHits(raw: seq<Msg>, lo: int, ids: seq<int>, y: int)
    requires ParentsFirst(raw) && Above(raw, ids, lo) && y in Ids(raw)
    ensures multiset(Flatten(raw, lo, ids))[y] == Hits(raw, ids, y)
    decreases Top(raw) - lo, |ids|
  {
    if ids != [] {
      assert forall x :: x in ids[1..] ==> x in ids;
      ChildrenAbove(raw, ids[0]);
      TopBounds(raw, ids[0]);
      var below, beside := Flatten(raw, ids[0], ChildIds(raw, ids[0])), Flatten(raw, lo, ids[1..]);
      FlattenHits(raw, ids[0], ChildIds(raw, ids[0]), y);
      FlattenHits(raw, lo, ids[1..], y);
      ChildHits(raw, ids[0], y);
      assert multiset([ids[0]] + below + beside) == multiset{ids[0]} + multiset(below) + multiset(beside);
    }
  }

  lemma {:induction false} FlattenWithin(raw: seq<Msg>, lo: int, ids: seq<int>)
    requires ParentsFirst(raw) && Above(raw, ids, lo)
    ensures forall x :: x in Flatten(raw, lo, ids) ==> x in Ids(raw)
    decreases Top(raw) - lo, |ids|
  {
    if ids != [] {
      assert forall x :: x in ids[1..] ==> x in ids;
      ChildrenAbove(raw, ids[0]);
      TopBounds(raw, ids[0]);
      FlattenWithin(raw, ids[0], ChildIds(raw, ids[0]));
      FlattenWithin(raw, lo, ids[1..]);
    }
  }

  lemma HeadIsNew(raw: seq<Msg>)
    requires DistinctIds(raw) && raw != []
    ensures raw[0].id !in Ids(raw[1..])
  {
    IdsMembers(raw[1..]);
    forall m | m in raw[1..] ensures m.id != raw[0].id {
      var i :| 0 <= i < |raw[1..]| && raw[1..][i] == m;
      assert raw[i + 1] == m;
    }
  }

  lemma {:induction false} IdsOnce(raw: seq<Msg>, y: int)
    requires DistinctIds(raw)
    ensures multiset(Ids(raw))[y] == if y in Ids(raw) then 1 else 0
  {
    if raw != [] {
      IdsOnce(raw[1..], y);
      HeadIsNew(raw);
      assert Ids(raw) == [raw[0].id] + Ids(raw[1..]);
    }
  }

  lemma RootsAbove(raw: seq<Msg>)
    requires ParentsFirst(raw)
    ensures Above(raw, RootIds(raw, Ids(raw)), 0)
  {
    RootIdsMembers(raw, Ids(raw));
    IdsMembers(raw);
  }

  /** Reading the assembled forest lists every message exactly once, in
      whatever order the rows were fetched. */
  lemma ForestListsEachMessageOnce(raw: seq<Msg>)
    requires ParentsFirst(raw)
    ensures Above(raw, RootIds(raw, Ids(raw)), 0)
    ensures multiset(Flatten(raw, 0, RootIds(raw, Ids(raw)))) == multiset(Ids(raw))
  {
    RootsAbove(raw);
    var roots := RootIds(raw, Ids(raw));
    var flat := Flatten(raw, 0, roots);
    FlattenWithin(raw, 0, roots);
    forall y ensures multiset(flat)[y] == multiset(Ids(raw))[y] {
      IdsOnce(raw, y);
      if y in Ids(raw) {
        FlattenHits(raw, 0, roots, y);
        RootHits(raw, y);
      } else {
        assert y !in flat;
      }
    }
  }
}
