/** The document store: one collection per model, held as finite maps from id
    to document, and the id counter new documents draw from. */
module Db {
  import opened Base
  import opened CommentTree
  import opened Models

  /** Every listed comment of every story has an id below `bound`. */
  ghost predicate ListedBelow(stories: map<Id, Story>, bound: nat) {
    forall s, c :: s in stories && c in stories[s].comments ==> c < bound
  }

  /** A story lists only top-level comments: a listed comment that is in the
      store has no parent. */
  ghost predicate ListedTopLevel(comments: map<Id, Comment>, stories: map<Id, Story>) {
    forall s, c :: s in stories && c in stories[s].comments && c in comments ==>
      comments[c].parentCommentId.None?
  }

  /** What every handler relies on and preserves. */
  ghost predicate Coherent(comments: map<Id, Comment>, stories: map<Id, Story>, bound: nat) {
    (forall k :: k in comments ==> k < bound) &&
    Ranked(ParentsOf(comments)) &&
    ListedBelow(stories, bound) &&
    ListedTopLevel(comments, stories)
  }

  /** Removing comments keeps the store coherent. */
  lemma CoherentAfterRemove(comments: map<Id, Comment>, stories: map<Id, Story>, bound: nat, S: set<Id>)
    requires Coherent(comments, stories, bound)
    ensures Coherent(comments - S, stories, bound)
  {
    ParentsOfRemove(comments, S);
    RemovedStaysRanked(ParentsOf(comments), S);
  }

  /** The roots a story lists are top-level comments. */
  lemma StoryRootsTopLevel(comments: map<Id, Comment>, stories: map<Id, Story>, bound: nat, s: Id)
    requires Coherent(comments, stories, bound) && s in stories
    ensures RootsTopLevel(ParentsOf(comments), Elements(stories[s].comments))
  {
  }

  /** Every id in use is below `bound`, and the comments and stories cohere. */
  ghost predicate Fits(comments: map<Id, Comment>, stories: map<Id, Story>,
                       notifications: map<Id, Notification>, users: map<Id, User>, bound: nat) {
    Coherent(comments, stories, bound) &&
    (forall k :: k in stories ==> k < bound) &&
    (forall k :: k in notifications ==> k < bound) &&
    (forall k :: k in users ==> k < bound)
  }

  /** A coherent update that adds documents only under ids drawn from the
      counter, which moved from `bound` to `b`, keeps every id in use below it. */
  lemma FitsAfter(comments: map<Id, Comment>, stories: map<Id, Story>,
                  notifications: map<Id, Notification>, users: map<Id, User>, bound: nat,
                  cs: map<Id, Comment>, ss: map<Id, Story>, ns: map<Id, Notification>, us: map<Id, User>, b: nat)
    requires Fits(comments, stories, notifications, users, bound) && bound <= b
    requires Coherent(cs, ss, b)
    requires forall k :: k in ss ==> k in stories || bound <= k < b
    requires forall k :: k in ns ==> k in notifications || bound <= k < b
    requires forall k :: k in us ==> k in users || bound <= k < b
    ensures Fits(cs, ss, ns, us, b)
  {
  }

  /** Raising the bound keeps a coherent store coherent. */
  lemma CoherentGrow(comments: map<Id, Comment>, stories: map<Id, Story>, bound: nat, b: nat)
    requires Coherent(comments, stories, bound) && bound <= b
    ensures Coherent(comments, stories, b)
  {
  }

  /** Replacing a story by one listing the same comments keeps the store coherent. */
  lemma CoherentSameListing(comments: map<Id, Comment>, stories: map<Id, Story>, bound: nat, k: Id, s: Story)
    requires Coherent(comments, stories, bound) && k in stories && s.comments == stories[k].comments
    ensures Coherent(comments, stories[k := s], bound)
  {
  }

  /** Adding a story that lists no comment keeps the store coherent. */
  lemma CoherentNewStory(comments: map<Id, Comment>, stories: map<Id, Story>, bound: nat, k: Id, s: Story)
    requires Coherent(comments, stories, bound) && s.comments == []
    ensures Coherent(comments, stories[k := s], bound)
  {
  }

  /** Removing a story keeps the store coherent. */
  lemma CoherentDropStory(comments: map<Id, Comment>, stories: map<Id, Story>, bound: nat, k: Id)
    requires Coherent(comments, stories, bound)
    ensures Coherent(comments, stories - {k}, bound)
  {
  }

  /** Changing fields of comments and stories other than the parent link and
      the listed comments keeps the store coherent. */
  lemma CoherentRelabel(comments: map<Id, Comment>, stories: map<Id, Story>, bound: nat,
                        cs: map<Id, Comment>, ss: map<Id, Story>)
    requires Coherent(comments, stories, bound)
    requires cs.Keys == comments.Keys && ss.Keys == stories.Keys
    requires forall k :: k in cs ==> cs[k].parentCommentId == comments[k].parentCommentId
    requires forall k :: k in ss ==> ss[k].comments == stories[k].comments
    ensures Coherent(cs, ss, bound)
  {
    assert ParentsOf(cs) == ParentsOf(comments);
  }

  /** `findOne({ username })`: some user with that username, if there is one. */
  method FindByUsername(users: map<Id, User>, username: string) returns (r: Option<Id>)
    ensures r.Some? ==> r.value in users && users[r.value].username == username
    ensures r.None? <==> forall k :: k in users ==> users[k].username != username
  {
    if exists k :: k in users && users[k].username == username {
      var k :| k in users && users[k].username == username;
      r := Some(k);
    } else {
      r := None;
    }
  }

  /** `findOne({ $or: [{ username: a }, { email: b }] })`: some user whose
      username is `a` or whose email is `b`, if there is one. */
  method FindByUsernameOrEmail(users: map<Id, User>, a: string, b: string) returns (r: Option<Id>)
    ensures r.Some? ==> r.value in users && (users[r.value].username == a || users[r.value].email == b)
    ensures r.None? <==> forall k :: k in users ==> users[k].username != a && users[k].email != b
  {
    if exists k :: k in users && (users[k].username == a || users[k].email == b) {
      var k :| k in users && (users[k].username == a || users[k].email == b);
      r := Some(k);
    } else {
      r := None;
    }
  }

  class Store {
    var comments: map<Id, Comment>
    var stories: map<Id, Story>
    var notifications: map<Id, Notification>
    var users: map<Id, User>
    /** The next id to hand out; every id in use is smaller. */
    var nextId: nat

    ghost predicate Valid()
      reads this
    {
      Fits(comments, stories, notifications, users, nextId)
    }

    constructor ()
      ensures Valid()
      ensures comments == map[] && stories == map[] && notifications == map[] && users == map[]
      ensures nextId == 0
    {
      comments := map[];
      stories := map[];
      notifications := map[];
      users := map[];
      nextId := 0;
    }

    /** Writes a whole new state at once, as a handler's saves leave it. */
    method Commit(cs: map<Id, Comment>, ss: map<Id, Story>, ns: map<Id, Notification>, us: map<Id, User>, b: nat)
      requires Fits(cs, ss, ns, us, b)
      modifies this
      ensures Valid()
      ensures comments == cs && stories == ss && notifications == ns && users == us && nextId == b
    {
      comments, stories, notifications, users, nextId := cs, ss, ns, us, b;
    }
  }

  /** Reading a query result: the documents of `S`, each once, in an order the
      store chooses. */
  method Enumerate(S: set<Id>) returns (r: seq<Id>)
    ensures Distinct(r) && Elements(r) == S && |r| == |S|
  {
    r := [];
    var rest := S;
    while rest != {}
      invariant Distinct(r) && Elements(r) !! rest && Elements(r) + rest == S
      invariant |r| + |rest| == |S|
      decreases |rest|
    {
      var x :| x in rest;
      EnumerateStep(S, r, rest, x);
      r := r + [x];
      rest := rest - {x};
    }
  }

  /** Moving one id from the unread part to the result keeps the result
      without repeats and loses nothing. */
  lemma EnumerateStep(S: set<Id>, r: seq<Id>, rest: set<Id>, x: Id)
    requires Distinct(r) && Elements(r) !! rest && Elements(r) + rest == S
    requires |r| + |rest| == |S| && x in rest
    ensures Distinct(r + [x]) && Elements(r + [x]) !! rest - {x}
    ensures Elements(r + [x]) + (rest - {x}) == S && |r + [x]| + |rest - {x}| == |S|
  {
    ElementsOfSnoc(r, x);
    assert x !in Elements(r);
    forall i | 0 <= i < |r| ensures r[i] != x {
      assert r[i] in Elements(r);
    }
  }
}
