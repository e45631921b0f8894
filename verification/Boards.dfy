/**
Posting: what every run of posted messages guarantees the assembly of a
conversation.
*/
module Boards {
  import opened Options
  import opened Threads

  // Whether an announcement takes messages now.
  datatype Settings = Settings(allowReplies: bool, locked: bool)

  datatype Board = Board(messages: seq<Msg>, nextId: nat)

  datatype PostError = NoAnnouncement | RepliesClosed | EmptyContent | NoSuchParent

  // `found` is the announcement as read at the time of the post.
  datatype Post = Post(announcement: int, found: Option<Settings>, blank: bool, parent: Option<int>)

  predicate HasMessage(b: Board, id: int, announcement: int) {
    exists i :: 0 <= i < |b.messages| && b.messages[i].id == id && b.messages[i].announcement == announcement
  }

  function PostRefusal(b: Board, p: Post): Option<PostError> {
    if p.found.None? then Some(NoAnnouncement)
    else if !p.found.value.allowReplies || p.found.value.locked then Some(RepliesClosed)
    else if p.blank then Some(EmptyContent)
    else if p.parent.Some? && !HasMessage(b, p.parent.value, p.announcement) then Some(NoSuchParent)
    else None
  }

  function AddMessage(b: Board, p: Post): Board {
    if PostRefusal(b, p).Some? then b
    else Board(b.messages + [Msg(b.nextId, p.announcement, p.parent)], b.nextId + 1)
  }

  function PostAll(b: Board, posts: seq<Post>): Board
    decreases posts
  {
    if posts == [] then b else PostAll(AddMessage(b, posts[0]), posts[1..])
  }

  ghost predicate BoardInv(b: Board) {
    && DistinctIds(b.messages) && b.nextId >= 1
    && (forall m :: m in b.messages ==> 1 <= m.id < b.nextId)
    && (forall m :: m in b.messages && m.parent.Some? ==>
          m.parent.value < m.id && HasMessage(b, m.parent.value, m.announcement))
  }

  lemma AddMessageKeepsInv(b: Board, p: Post)
    requires BoardInv(b)
    ensures BoardInv(AddMessage(b, p))
  {
    if PostRefusal(b, p).None? {
      var r := AddMessage(b, p);
      forall i | 0 <= i < |b.messages| ensures b.messages[i].id < b.nextId {
        assert b.messages[i] in b.messages;
      }
      forall id, a | HasMessage(b, id, a) ensures HasMessage(r, id, a) && id < b.nextId {
        var i :| 0 <= i < |b.messages| && b.messages[i].id == id && b.messages[i].announcement == a;
        assert r.messages[i] == b.messages[i];
      }
      forall m | m in r.messages && m.parent.Some?
        ensures m.parent.value < m.id && HasMessage(r, m.parent.value, m.announcement)
      {
        if m in b.messages { assert HasMessage(b, m.parent.value, m.announcement); }
      }
    }
  }

  lemma {:induction false} PostAllKeepsInv(b: Board, posts: seq<Post>)
    requires BoardInv(b)
    ensures BoardInv(PostAll(b, posts))
    decreases posts
  {
    if posts != [] {
      AddMessageKeepsInv(b, posts[0]);
      PostAllKeepsInv(AddMessage(b, posts[0]), posts[1..]);
    }
  }

  // The rows a conversation is assembled from.
  function Conversation(messages: seq<Msg>, announcement: int): (raw: seq<Msg>)
    ensures forall m :: m in raw <==> m in messages && m.announcement == announcement
  {
    if messages == [] then []
    else
      assert messages == [messages[0]] + messages[1..];
      (if messages[0].announcement == announcement then [messages[0]] else [])
      + Conversation(messages[1..], announcement)
  }

  lemma {:induction false} ConversationDistinct(messages: seq<Msg>, announcement: int)
    requires DistinctIds(messages)
    ensures DistinctIds(Conversation(messages, announcement))
  {
    if messages != [] {
      ConversationDistinct(messages[1..], announcement);
      var rest := Conversation(messages[1..], announcement);
      forall j | 0 <= j < |rest| ensures rest[j].id != messages[0].id {
        assert rest[j] in rest;
        var i :| 0 <= i < |messages[1..]| && messages[1..][i] == rest[j];
        assert messages[i + 1] == rest[j];
      }
    }
  }

  lemma ConversationIsForest(b: Board, announcement: int)
    requires BoardInv(b)
    ensures var raw := Conversation(b.messages, announcement);
            && ParentsFirst(raw)
            && forall m :: m in raw && m.parent.Some? ==> m.parent.value in Ids(raw)
  {
    var raw := Conversation(b.messages, announcement);
    ConversationDistinct(b.messages, announcement);
    IdsMembers(raw);
    forall m | m in raw && m.parent.Some? ensures m.parent.value in Ids(raw) {
      assert HasMessage(b, m.parent.value, m.announcement);
      var i :| 0 <= i < |b.messages| && b.messages[i].id == m.parent.value
               && b.messages[i].announcement == m.announcement;
      assert b.messages[i] in raw;
    }
  }

  /** After any run of posts, every conversation reads as a forest that lists
      each of its messages exactly once, and whose roots are exactly the
      messages posted without a parent. */
  lemma EveryConversationIsListedOnce(posts: seq<Post>, announcement: int)
    ensures var raw := Conversation(PostAll(Board([], 1), posts).messages, announcement);
            && ParentsFirst(raw) && Above(raw, RootIds(raw, Ids(raw)), 0)
            && multiset(Flatten(raw, 0, RootIds(raw, Ids(raw)))) == multiset(Ids(raw))
            && forall x :: x in RootIds(raw, Ids(raw)) <==> exists m :: m in raw && m.id == x && m.parent == None
  {
    var b := PostAll(Board([], 1), posts);
    var raw := Conversation(b.messages, announcement);
    PostAllKeepsInv(Board([], 1), posts);
    ConversationIsForest(b, announcement);
    ForestListsEachMessageOnce(raw);
    RootIdsMembers(raw, Ids(raw));
    forall x ensures x in RootIds(raw, Ids(raw)) <==> exists m :: m in raw && m.id == x && m.parent == None {
      if x in RootIds(raw, Ids(raw)) {
        var m :| m in raw && m.id == x && !(m.parent.Some? && m.parent.value in Ids(raw));
        assert m.parent == None;
      }
    }
  }

  // ----- What is stored, read off the posts -----

  predicate TakesMessages(p: Post) {
    p.found.Some? && p.found.value.allowReplies && !p.found.value.locked && !p.blank
  }

  /** A post is stored if and only if its announcement exists and takes messages, it
      has content, and its parent, when it has one, is a message of the same
      announcement; then it is one more row with the next id, that announcement and
      that parent, behind the rows stored before. */
  lemma PostStores(b: Board, p: Post)
    ensures var stored := TakesMessages(p)
              && (p.parent.Some? ==> exists m :: m in b.messages && m.id == p.parent.value
                                                 && m.announcement == p.announcement);
            && (PostRefusal(b, p) == None <==> stored)
            && (PostRefusal(b, p) == Some(NoAnnouncement) <==> p.found == None)
            && (PostRefusal(b, p) == Some(RepliesClosed)
                <==> p.found.Some? && (!p.found.value.allowReplies || p.found.value.locked))
            && (PostRefusal(b, p) == Some(EmptyContent)
                <==> p.found.Some? && p.found.value.allowReplies && !p.found.value.locked && p.blank)
            && AddMessage(b, p).messages
               == if stored then b.messages + [Msg(b.nextId, p.announcement, p.parent)] else b.messages
  {
    if p.parent.Some? {
      if HasMessage(b, p.parent.value, p.announcement) {
        var i :| 0 <= i < |b.messages| && b.messages[i].id == p.parent.value
                 && b.messages[i].announcement == p.announcement;
        assert b.messages[i] in b.messages;
      }
    }
  }

  // Whether a run from the empty board stores its n-th post: a reply needs an
  // earlier stored post of its announcement with the parent's id.
  predicate StoresPost(posts: seq<Post>, n: nat)
    requires n < |posts|
    decreases n
  {
    && TakesMessages(posts[n])
    && (posts[n].parent.Some? ==>
          exists j :: 0 <= j < n && StoresPost(posts, j) && posts[j].announcement == posts[n].announcement
                      && IdOf(posts, j) == posts[n].parent.value)
  }

  // Ids count the stored posts from one.
  function IdOf(posts: seq<Post>, n: nat): nat
    requires n <= |posts|
    decreases n
  {
    if n == 0 then 1 else IdOf(posts, n - 1) + (if StoresPost(posts, n - 1) then 1 else 0)
  }

  predicate StoredAs(posts: seq<Post>, i: int, id: int) {
    0 <= i < |posts| && StoresPost(posts, i) && IdOf(posts, i) == id
  }

  // One of the first n posts got the id.
  ghost predicate Issued(posts: seq<Post>, n: nat, id: int)
    requires n <= |posts|
  {
    exists i :: i < n && StoredAs(posts, i, id)
  }

  // The board holds exactly the stored ones among the first n posts, in order.
  ghost predicate Holds(posts: seq<Post>, n: nat, b: Board)
    requires n <= |posts|
  {
    && b.nextId == IdOf(posts, n) == |b.messages| + 1
    && (forall i :: 0 <= i < n && StoresPost(posts, i) ==> HoldsPost(posts, i, b))
    && (forall id :: 1 <= id < b.nextId ==> Issued(posts, n, id))
  }

  predicate HoldsPost(posts: seq<Post>, i: nat, b: Board)
    requires i < |posts|
  {
    && 1 <= IdOf(posts, i) <= |b.messages|
    && b.messages[IdOf(posts, i) - 1] == Msg(IdOf(posts, i), posts[i].announcement, posts[i].parent)
  }

  lemma StoresIff(posts: seq<Post>, n: nat, b: Board)
    requires n < |posts| && Holds(posts, n, b)
    ensures PostRefusal(b, posts[n]) == None <==> StoresPost(posts, n)
  {
    var p := posts[n];
    PostStores(b, p);
    if p.parent.Some? {
      if exists m :: m in b.messages && m.id == p.parent.value && m.announcement == p.announcement {
        var m :| m in b.messages && m.id == p.parent.value && m.announcement == p.announcement;
        var k :| 0 <= k < |b.messages| && b.messages[k] == m;
        var id := k + 1;
        assert Issued(posts, n, id);
      var i :| i < n && StoredAs(posts, i, id);
        assert HoldsPost(posts, i, b);
      }
      if StoresPost(posts, n) {
        var j :| 0 <= j < n && StoresPost(posts, j) && posts[j].announcement == p.announcement
                 && IdOf(posts, j) == p.parent.value;
        assert HoldsPost(posts, j, b);
        assert b.messages[IdOf(posts, j) - 1] in b.messages;
      }
    }
  }

  lemma NextHolds(posts: seq<Post>, n: nat, b: Board)
    requires n < |posts| && Holds(posts, n, b)
    ensures Holds(posts, n + 1, AddMessage(b, posts[n]))
  {
    StoresIff(posts, n, b);
    PostStores(b, posts[n]);
    var r := AddMessage(b, posts[n]);
    forall i | 0 <= i < n + 1 && StoresPost(posts, i) ensures HoldsPost(posts, i, r) {
      if i < n {
        assert HoldsPost(posts, i, b);
      }
    }
    var next := n + 1;
    forall id | 1 <= id < r.nextId ensures Issued(posts, next, id) {
      if id == b.nextId {
        assert StoredAs(posts, n, id);
      } else {
        assert Issued(posts, n, id);
      }
    }
  }

  lemma {:induction false} RunHolds(posts: seq<Post>, n: nat, b: Board)
    requires n <= |posts| && Holds(posts, n, b)
    ensures Holds(posts, |posts|, PostAll(b, posts[n..]))
    decreases |posts| - n
  {
    if n < |posts| {
      NextHolds(posts, n, b);
      assert posts[n..][1..] == posts[n + 1..];
      RunHolds(posts, n + 1, AddMessage(b, posts[n]));
    }
  }

  /** A run from the empty board stores exactly the posts that it should, in order,
      each with its own announcement and parent. */
  lemma PostsAreStored(posts: seq<Post>)
    ensures Holds(posts, |posts|, PostAll(Board([], 1), posts))
  {
    assert posts[0..] == posts;
    RunHolds(posts, 0, Board([], 1));
  }

  // Rows and stored posts of one announcement correspond.
  lemma RowIff(posts: seq<Post>, announcement: int, id: int, parent: Option<int>)
    ensures Msg(id, announcement, parent) in PostAll(Board([], 1), posts).messages
       <==> exists i :: StoredAs(posts, i, id) && posts[i].announcement == announcement && posts[i].parent == parent
  {
    var b := PostAll(Board([], 1), posts);
    PostsAreStored(posts);
    if Msg(id, announcement, parent) in b.messages {
      var k :| 0 <= k < |b.messages| && b.messages[k] == Msg(id, announcement, parent);
      var stored := k + 1;
      assert Issued(posts, |posts|, stored);
      var i :| i < |posts| && StoredAs(posts, i, stored);
      assert HoldsPost(posts, i, b);
    }
    if i :| StoredAs(posts, i, id) && posts[i].announcement == announcement && posts[i].parent == parent {
      assert HoldsPost(posts, i, b);
      assert b.messages[id - 1] in b.messages;
    }
  }

  /** After any run of posts, the replies shown below a message of a conversation are
      exactly the stored posts that answered it, and the roots are exactly the stored
      posts of the announcement that answered none. */
  lemma ConversationFollowsPosts(posts: seq<Post>, announcement: int, x: int, y: int)
    ensures var raw := Conversation(PostAll(Board([], 1), posts).messages, announcement);
            && (y in ChildIds(raw, x)
                <==> exists i :: StoredAs(posts, i, y) && posts[i].announcement == announcement
                                 && posts[i].parent == Some(x))
            && (y in RootIds(raw, Ids(raw))
                <==> exists i :: StoredAs(posts, i, y) && posts[i].announcement == announcement
                                 && posts[i].parent == None)
  {
    var raw := Conversation(PostAll(Board([], 1), posts).messages, announcement);
    EveryConversationIsListedOnce(posts, announcement);
    ChildIdsMembers(raw, x);
    RowIff(posts, announcement, y, Some(x));
    RowIff(posts, announcement, y, None);
    MemberIff(raw, announcement, y, Some(x));
    MemberIff(raw, announcement, y, None);
  }

  lemma MemberIff(raw: seq<Msg>, announcement: int, id: int, parent: Option<int>)
    requires forall m :: m in raw ==> m.announcement == announcement
    ensures Msg(id, announcement, parent) in raw <==> exists m :: m in raw && m.id == id && m.parent == parent
  {
    if m :| m in raw && m.id == id && m.parent == parent {
      assert m == Msg(id, announcement, parent);
    }
  }
}
