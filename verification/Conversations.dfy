/**
Posting messages and assembling the reply forest: message objects whose reply
lists grow in place while the rows are walked a second time.
*/
module Conversations {
  import opened Options
  import opened Threads

  class MessageOut {
    const id: int
    const parent: Option<int>
    var replies: seq<MessageOut>
    var replyCount: nat

    constructor (id: int, parent: Option<int>)
      ensures this.id == id && this.parent == parent && replies == [] && replyCount == 0
    {
      this.id, this.parent := id, parent;
      replies, replyCount := [], 0;
    }
  }

  // The nodes are those of a list of ids, in its order.
  ghost predicate Lists(outMap: map<int, MessageOut>, nodes: seq<MessageOut>, ids: seq<int>) {
    |nodes| == |ids| && forall i :: 0 <= i < |ids| ==> ids[i] in outMap && nodes[i] == outMap[ids[i]]
  }

  // One node per row, keyed by its id.
  ghost predicate NodesOf(outMap: map<int, MessageOut>, raw: seq<Msg>) {
    && (forall m :: m in raw ==> m.id in outMap && outMap[m.id].id == m.id && outMap[m.id].parent == m.parent)
    && (forall x :: x in outMap ==> x in Ids(raw) && outMap[x].id == x)
  }

  lemma {:induction false} ChildIdsSnoc(raw: seq<Msg>, m: Msg, x: int)
    ensures ChildIds(raw + [m], x) == ChildIds(raw, x) + if m.parent == Some(x) then [m.id] else []
    decreases raw
  {
    var last := if m.parent == Some(x) then [m.id] else [];
    var longer := raw + [m];
    if raw == [] {
      assert longer == [m] && ChildIds(longer[1..], x) == [];
    } else {
      assert longer[0] == raw[0] && longer[1..] == raw[1..] + [m];
      ChildIdsSnoc(raw[1..], m, x);
      assert ChildIds(longer, x) == ChildIds([raw[0]], x) + ChildIds(longer[1..], x);
    }
  }

  lemma {:induction false} RootIdsSnoc(raw: seq<Msg>, m: Msg, all: seq<int>)
    ensures RootIds(raw + [m], all)
         == RootIds(raw, all) + if m.parent.Some? && m.parent.value in all then [] else [m.id]
    decreases raw
  {
    var last := if m.parent.Some? && m.parent.value in all then [] else [m.id];
    var longer := raw + [m];
    if raw == [] {
      assert longer == [m] && RootIds(longer[1..], all) == [];
    } else {
      assert longer[0] == raw[0] && longer[1..] == raw[1..] + [m];
      RootIdsSnoc(raw[1..], m, all);
      assert RootIds(longer, all) == RootIds([raw[0]], all) + RootIds(longer[1..], all);
    }
  }

  lemma {:induction false} IdsSnoc(raw: seq<Msg>, m: Msg)
    ensures Ids(raw + [m]) == Ids(raw) + [m.id]
    decreases raw
  {
    if raw == [] {
      assert raw + [m] == [m];
    } else {
      assert (raw + [m])[0] == raw[0] && (raw + [m])[1..] == raw[1..] + [m];
      IdsSnoc(raw[1..], m);
    }
  }

  // Every node holds exactly its replies, in list order, and their number.
  ghost predicate Assembled(outMap: map<int, MessageOut>, part: seq<Msg>)
    reads outMap.Values
  {
    forall x :: x in outMap ==>
      Lists(outMap, outMap[x].replies, ChildIds(part, x)) && outMap[x].replyCount == |ChildIds(part, x)|
  }

  lemma KeyIsNew(outMap: map<int, MessageOut>, ids: seq<int>, id: int)
    requires (forall x :: x in outMap ==> x in ids) && id !in ids
    ensures id !in outMap
  {
  }

  method CreateNodes(raw: seq<Msg>) returns (outMap: map<int, MessageOut>, ghost nodes: set<MessageOut>)
    requires DistinctIds(raw)
    ensures NodesOf(outMap, raw)
    ensures fresh(nodes) && (forall x :: x in outMap ==> outMap[x] in nodes)
    ensures forall n :: n in nodes ==> n.id in outMap && outMap[n.id] == n
    ensures forall x :: x in outMap ==> outMap[x].replies == [] && outMap[x].replyCount == 0
  {
    outMap, nodes := map[], {};
    ghost var seen: seq<Msg> := [];
    for i := 0 to |raw|
      invariant seen == raw[..i] && NodesOf(outMap, seen)
      invariant fresh(nodes) && (forall x :: x in outMap ==> outMap[x] in nodes)
      invariant forall n :: n in nodes ==> n.id in outMap && outMap[n.id] == n
      invariant forall x :: x in outMap ==> outMap[x].replies == [] && outMap[x].replyCount == 0
    {
      var m := raw[i];
      var node := new MessageOut(m.id, m.parent);
      assert forall o :: o in seen ==> o.id != m.id;
      IdsMembers(seen);
      KeyIsNew(outMap, Ids(seen), m.id);
      outMap, nodes := outMap[m.id := node], nodes + {node};
      IdsSnoc(seen, m);
      seen := seen + [m];
    }
    assert seen == raw;
  }

  // Distinct ids have distinct nodes, all among the given ones.
  ghost predicate Separate(outMap: map<int, MessageOut>, nodes: set<MessageOut>) {
    && (forall x :: x in outMap ==> outMap[x] in nodes)
    && (forall x, y :: x in outMap && y in outMap && x != y ==> outMap[x] != outMap[y])
  }

  // Every other node's replies are what they were.
  method Hang(outMap: map<int, MessageOut>, m: Msg, parent: int, ghost part: seq<Msg>, ghost nodes: set<MessageOut>)
    requires m.id in outMap && parent in outMap && m.parent == Some(parent) && Assembled(outMap, part)
    requires Separate(outMap, nodes)
    modifies nodes
    ensures Assembled(outMap, part + [m])
  {
    var node := outMap[parent];
    assert node in nodes;
    node.replies := node.replies + [outMap[m.id]];
    node.replyCount := node.replyCount + 1;
    forall x | x in outMap
      ensures Lists(outMap, outMap[x].replies, ChildIds(part + [m], x))
      ensures outMap[x].replyCount == |ChildIds(part + [m], x)|
    {
      ChildIdsSnoc(part, m, x);
      assert old(Lists(outMap, outMap[x].replies, ChildIds(part, x)));
      assert x != parent ==> outMap[x] != node;
    }
  }

  lemma RootLeavesReplies(outMap: map<int, MessageOut>, m: Msg, part: seq<Msg>)
    requires Assembled(outMap, part) && (m.parent.Some? ==> m.parent.value !in outMap)
    ensures Assembled(outMap, part + [m])
  {
    forall x | x in outMap ensures ChildIds(part + [m], x) == ChildIds(part, x) {
      ChildIdsSnoc(part, m, x);
    }
  }

  lemma RootsSnoc(outMap: map<int, MessageOut>, roots: seq<MessageOut>, seen: seq<Msg>, m: Msg, all: seq<int>)
    requires Lists(outMap, roots, RootIds(seen, all)) && m.id in outMap
    ensures m.parent.Some? && m.parent.value in all ==> Lists(outMap, roots, RootIds(seen + [m], all))
    ensures !(m.parent.Some? && m.parent.value in all) ==>
      Lists(outMap, roots + [outMap[m.id]], RootIds(seen + [m], all))
  {
    RootIdsSnoc(seen, m, all);
    assert RootIds(seen, all) + [] == RootIds(seen, all);
  }

  ghost predicate Keyed(outMap: map<int, MessageOut>, all: seq<int>) {
    forall x :: x in outMap <==> x in all
  }

  lemma KeysAre(outMap: map<int, MessageOut>, all: seq<int>, id: int)
    requires Keyed(outMap, all)
    ensures id in outMap <==> id in all
  {
  }

  // Replies and roots as they stand after a prefix of the rows.
  ghost predicate Hung(outMap: map<int, MessageOut>, roots: seq<MessageOut>, part: seq<Msg>, all: seq<int>)
    reads outMap.Values
  {
    Assembled(outMap, part) && Lists(outMap, roots, RootIds(part, all))
  }

  // Hangs one row's node under its parent's, or among the roots.
  method Attach(outMap: map<int, MessageOut>, m: Msg, roots: seq<MessageOut>,
      ghost part: seq<Msg>, ghost all: seq<int>, ghost nodes: set<MessageOut>)
    returns (newRoots: seq<MessageOut>)
    requires m.id in outMap && Keyed(outMap, all)
    requires Separate(outMap, nodes) && Hung(outMap, roots, part, all)
    modifies nodes
    ensures Hung(outMap, newRoots, part + [m], all)
  {
    newRoots := roots;
    RootsSnoc(outMap, roots, part, m, all);
    if m.parent.Some? {
      KeysAre(outMap, all, m.parent.value);
    }
    if m.parent.Some? && m.parent.value in outMap {
      Hang(outMap, m, m.parent.value, part, nodes);
    } else {
      newRoots := roots + [outMap[m.id]];
      RootLeavesReplies(outMap, m, part);
    }
  }

  // The second pass over the rows.
  method AttachAll(outMap: map<int, MessageOut>, raw: seq<Msg>, ghost all: seq<int>, ghost nodes: set<MessageOut>)
    returns (roots: seq<MessageOut>)
    requires (forall m :: m in raw ==> m.id in outMap) && Keyed(outMap, all)
    requires Separate(outMap, nodes) && Assembled(outMap, [])
    modifies nodes
    ensures Hung(outMap, roots, raw, all)
  {
    roots := [];
    ghost var seen: seq<Msg> := [];
    for i := 0 to |raw|
      invariant seen == raw[..i] && Hung(outMap, roots, seen, all)
    {
      roots := Attach(outMap, raw[i], roots, seen, all, nodes);
      seen := seen + [raw[i]];
    }
    assert seen == raw;
  }

  // ----- Reading the assembled nodes -----

  // Replies are nodes of the conversation with greater ids.
  ghost predicate Ordered(nodes: set<MessageOut>, top: int)
    reads nodes
  {
    forall n :: n in nodes ==>
      n.id <= top && forall i :: 0 <= i < |n.replies| ==> n.replies[i] in nodes && n.replies[i].id > n.id
  }

  ghost predicate Among(nodes: set<MessageOut>, list: seq<MessageOut>, lo: int) {
    forall i :: 0 <= i < |list| ==> list[i] in nodes && list[i].id > lo
  }

  // What a reader of the node objects sees: each node, then the walk over its
  // replies.
  ghost function Walk(nodes: set<MessageOut>, top: int, lo: int, list: seq<MessageOut>): seq<int>
    requires Ordered(nodes, top) && Among(nodes, list, lo)
    reads nodes
    decreases top - lo, |list|
  {
    if list == [] then []
    else [list[0].id] + Walk(nodes, top, list[0].id, list[0].replies) + Walk(nodes, top, lo, list[1..])
  }

  // The nodes are exactly those of the map.
  ghost predicate Exactly(outMap: map<int, MessageOut>, nodes: set<MessageOut>) {
    && (forall x :: x in outMap ==> outMap[x] in nodes && outMap[x].id == x)
    && (forall n :: n in nodes ==> n.id in outMap && outMap[n.id] == n)
  }

  lemma ListedAreAmong(outMap: map<int, MessageOut>, nodes: set<MessageOut>, raw: seq<Msg>,
                       list: seq<MessageOut>, ids: seq<int>, lo: int)
    requires Exactly(outMap, nodes) && Lists(outMap, list, ids) && Above(raw, ids, lo)
    ensures Among(nodes, list, lo)
  {
    forall i | 0 <= i < |list| ensures list[i] in nodes && list[i].id > lo {
      var id := ids[i];
      assert id in ids && id in outMap && list[i] == outMap[id];
      NodeOfKey(outMap, nodes, id);
    }
  }

  lemma NodeOfKey(outMap: map<int, MessageOut>, nodes: set<MessageOut>, id: int)
    requires Exactly(outMap, nodes) && id in outMap
    ensures outMap[id] in nodes && outMap[id].id == id
  {
  }

  lemma AssembledIsOrdered(outMap: map<int, MessageOut>, nodes: set<MessageOut>, raw: seq<Msg>)
    requires ParentsFirst(raw) && Exactly(outMap, nodes) && Keyed(outMap, Ids(raw)) && Assembled(outMap, raw)
    ensures Ordered(nodes, Top(raw))
  {
    forall n | n in nodes
      ensures n.id <= Top(raw) && forall i :: 0 <= i < |n.replies| ==> n.replies[i] in nodes && n.replies[i].id > n.id
    {
      var x := n.id;
      KeysAre(outMap, Ids(raw), x);
      TopBounds(raw, x);
      ChildrenAbove(raw, x);
      ListedAreAmong(outMap, nodes, raw, n.replies, ChildIds(raw, x), x);
    }
  }

  /** Walking the objects reads exactly the flattened forest. */
  lemma {:induction false} WalkIsFlatten(outMap: map<int, MessageOut>, nodes: set<MessageOut>, raw: seq<Msg>,
                                         list: seq<MessageOut>, ids: seq<int>, lo: int)
    requires ParentsFirst(raw) && Exactly(outMap, nodes) && Assembled(outMap, raw) && Ordered(nodes, Top(raw))
    requires Lists(outMap, list, ids) && Above(raw, ids, lo) && Among(nodes, list, lo)
    ensures Walk(nodes, Top(raw), lo, list) == Flatten(raw, lo, ids)
    decreases Top(raw) - lo, |ids|
  {
    if ids != [] {
      var x := ids[0];
      assert x in ids && list[0] == outMap[x] && list[0].id == x;
      assert forall y :: y in ids[1..] ==> y in ids;
      ChildrenAbove(raw, x);
      TopBounds(raw, x);
      WalkIsFlatten(outMap, nodes, raw, list[0].replies, ChildIds(raw, x), x);
      WalkIsFlatten(outMap, nodes, raw, list[1..], ids[1..], lo);
    }
  }

  /** So a reader of the assembled objects meets every message exactly once. */
  lemma AssembledListsEachOnce(outMap: map<int, MessageOut>, nodes: set<MessageOut>, raw: seq<Msg>,
                               roots: seq<MessageOut>)
    requires ParentsFirst(raw) && Exactly(outMap, nodes) && Keyed(outMap, Ids(raw)) && Assembled(outMap, raw)
    requires Lists(outMap, roots, RootIds(raw, Ids(raw)))
    ensures Ordered(nodes, Top(raw)) && Among(nodes, roots, 0)
    ensures multiset(Walk(nodes, Top(raw), 0, roots)) == multiset(Ids(raw))
  {
    ForestListsEachMessageOnce(raw);
    AssembledIsOrdered(outMap, nodes, raw);
    ListedAreAmong(outMap, nodes, raw, roots, RootIds(raw, Ids(raw)), 0);
    WalkIsFlatten(outMap, nodes, raw, roots, RootIds(raw, Ids(raw)), 0);
  }

  /** The roots returned are the messages without a parent in the list, in list
      order, every node's replies are its direct replies in list order, and
      walking the objects from the roots meets every message exactly once. */
  method AssembleForest(raw: seq<Msg>)
    returns (roots: seq<MessageOut>, outMap: map<int, MessageOut>, ghost nodes: set<MessageOut>)
    requires DistinctIds(raw)
    ensures NodesOf(outMap, raw) && Assembled(outMap, raw) && Exactly(outMap, nodes)
    ensures Lists(outMap, roots, RootIds(raw, Ids(raw)))
    ensures ParentsFirst(raw) ==>
              && Ordered(nodes, Top(raw)) && Among(nodes, roots, 0)
              && multiset(Walk(nodes, Top(raw), 0, roots)) == multiset(Ids(raw))
  {
    outMap, nodes := CreateNodes(raw);
    IdsMembers(raw);
    roots := AttachAll(outMap, raw, Ids(raw), nodes);
    if ParentsFirst(raw) {
      AssembledListsEachOnce(outMap, nodes, raw, roots);
    }
  }
}
