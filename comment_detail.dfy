/** The comment detail view: a comment with its replies populated three levels
    deep, oldest first, each with its counts and whether the viewer liked it,
    and the story the thread belongs to. */
module CommentDetail {
  import opened Base
  import opened Models
  import opened Db
  import opened Likes
  import opened Ordering
  import opened CommentHandlers

  /** Populating a `replies` list: ids naming no comment are dropped and the
      rest are ordered by creation time (`PopulateMeaning`). */
  function Populate(comments: map<Id, Comment>, ids: seq<Id>): (r: seq<Id>)
    ensures forall i :: 0 <= i < |r| ==> r[i] in comments
  {
    var e := Existing(comments, ids);
    var r := SortBy(e, CommentCreatedAt(comments));
    assert forall i :: 0 <= i < |r| ==> r[i] in CommentCreatedAt(comments);
    r
  }

  /** The populated list holds exactly the listed ids that name a comment. */
  lemma PopulateElements(comments: map<Id, Comment>, ids: seq<Id>)
    ensures var r := Populate(comments, ids);
      (forall x :: x in r <==> x in ids && x in comments) && |r| <= |ids|
  {
    var e := Existing(comments, ids);
    var r := SortBy(e, CommentCreatedAt(comments));
    SortByElements(e, CommentCreatedAt(comments));
    assert forall x :: x in r <==> x in Elements(r);
    assert forall x :: x in e <==> x in Elements(e);
  }

  /** The populated list is oldest first. */
  lemma PopulateSorted(comments: map<Id, Comment>, ids: seq<Id>)
    ensures var r := Populate(comments, ids);
      forall i, j :: 0 <= i < j < |r| ==> comments[r[i]].createdAt <= comments[r[j]].createdAt
  {
    var key := CommentCreatedAt(comments);
    var r := Populate(comments, ids);
    SortBySorted(Existing(comments, ids), key);
    forall i, j | 0 <= i < j < |r| ensures comments[r[i]].createdAt <= comments[r[j]].createdAt {
      assert key[r[i]] <= key[r[j]];
    }
  }

  /** A populated author's picture; an empty picture renders as none. */
  function Picture(users: map<Id, User>, u: Id): (p: Option<string>)
    ensures p.Some? ==> u in users && users[u].profilePicture == p && p.value != []
  {
    if u in users && Truthy(users[u].profilePicture) then users[u].profilePicture else None
  }

  datatype View = View(
    id: Id,
    userId: Id,
    username: string,
    name: string,
    content: string,
    parentCommentId: Option<Id>,
    profilePicture: Option<string>,
    replies: seq<View>,
    createdAt: int,
    repliesCount: nat,
    likeCount: nat,
    userLiked: bool)

  function Ids(vs: seq<View>): (r: seq<Id>)
    ensures |r| == |vs| && forall i :: 0 <= i < |vs| ==> r[i] == vs[i].id
  {
    seq(|vs|, i requires 0 <= i < |vs| => vs[i].id)
  }

  /** One formatted comment. */
  function Node(comments: map<Id, Comment>, x: Id, picture: Option<string>, replies: seq<View>,
                count: nat, viewer: Id): View
    requires x in comments
  {
    var c := comments[x];
    View(x, c.userId, c.username, c.name, c.content, c.parentCommentId, picture, replies,
         c.createdAt, count, |c.likes|, RecordsLiked(c.likes, viewer))
  }

  /** The levels the detail query populates: the comment itself is level 0;
      levels 0 to 2 have their author and their replies populated; a level-3
      reply comes with neither. */
  const PopulatedLevels: nat := 3

  /** Every reply formatted without failing. */
  function AllSome(rs: seq<Option<View>>): bool {
    rs == [] || (rs[0].Some? && AllSome(rs[1..]))
  }

  lemma {:induction false} AllSomeMeaning(rs: seq<Option<View>>)
    ensures AllSome(rs) <==> forall i :: 0 <= i < |rs| ==> rs[i].Some?
  {
    if rs != [] {
      AllSomeMeaning(rs[1..]);
      assert forall i :: 1 <= i < |rs| ==> rs[i] == rs[1..][i - 1];
    }
  }

  /** `formatReplies` as written. Down to level 2 the author is populated, and
      an author who is not a stored user populates as null, whose `_id` cannot
      be read; at level 3 the `replies` of a reply are bare ids, so formatting
      them reads a field of an id. Either failure makes the whole request fail
      (none). */
  function RenderAsWritten(comments: map<Id, Comment>, users: map<Id, User>, x: Id, level: nat, viewer: Id)
      : (v: Option<View>)
    requires x in comments && level <= PopulatedLevels
    ensures v.Some? ==> v.value.id == x
    decreases PopulatedLevels - level, 0
  {
    var c := comments[x];
    if level < PopulatedLevels then
      var kids := Populate(comments, c.replies);
      var rs := WrittenList(comments, users, kids, level + 1, viewer);
      if c.userId in users && AllSome(rs) then
        Some(Node(comments, x, Picture(users, c.userId), Values(rs), |kids|, viewer))
      else None
    else if c.replies != [] then None
    else Some(Node(comments, x, None, [], 0, viewer))
  }

  /** `replies.map(formatReply)` as written, each reply on its own. */
  function WrittenList(comments: map<Id, Comment>, users: map<Id, User>, ids: seq<Id>, level: nat, viewer: Id)
      : (rs: seq<Option<View>>)
    requires forall i :: 0 <= i < |ids| ==> ids[i] in comments
    requires level <= PopulatedLevels
    decreases PopulatedLevels - level, 1
  {
    seq(|ids|, i requires 0 <= i < |ids| => RenderAsWritten(comments, users, ids[i], level, viewer))
  }

  function Values(rs: seq<Option<View>>): (vs: seq<View>)
    requires AllSome(rs)
  {
    AllSomeMeaning(rs);
    seq(|rs|, i requires 0 <= i < |rs| => rs[i].value)
  }

  /** The detail view as evidently intended: the same formatting, stopping at
      the populated depth; a level-3 reply shows how many replies it lists but
      not the replies themselves. */
  function Render(comments: map<Id, Comment>, users: map<Id, User>, x: Id, level: nat, viewer: Id)
      : (v: View)
    requires x in comments && level <= PopulatedLevels
    ensures v.id == x
    decreases PopulatedLevels - level, 0
  {
    var c := comments[x];
    if level < PopulatedLevels then
      var kids := Populate(comments, c.replies);
      Node(comments, x, Picture(users, c.userId), RenderList(comments, users, kids, level + 1, viewer), |kids|, viewer)
    else Node(comments, x, None, [], |c.replies|, viewer)
  }

  function RenderList(comments: map<Id, Comment>, users: map<Id, User>, ids: seq<Id>, level: nat, viewer: Id)
      : (vs: seq<View>)
    requires forall i :: 0 <= i < |ids| ==> ids[i] in comments
    requires level <= PopulatedLevels
    ensures Ids(vs) == ids
    decreases PopulatedLevels - level, 1
  {
    seq(|ids|, i requires 0 <= i < |ids| => Render(comments, users, ids[i], level, viewer))
  }

  /** Every formatted comment counts all its like entries and reports the
      viewer's like exactly when one of its like records names the viewer. */
  lemma RenderLikes(comments: map<Id, Comment>, users: map<Id, User>, x: Id, level: nat, viewer: Id)
    requires x in comments && level <= PopulatedLevels
    ensures var v := Render(comments, users, x, level, viewer);
      var c := comments[x];
      v.likeCount == |c.likes| &&
      (v.userLiked <==> exists i :: 0 <= i < |c.likes| && c.likes[i].LikeRecord? && c.likes[i].userId == Some(viewer))
  {
  }

  /** Within the populated depth a formatted comment's replies are exactly its
      listed replies that still exist, and `repliesCount` is their number. */
  lemma RenderReplies(comments: map<Id, Comment>, users: map<Id, User>, x: Id, level: nat, viewer: Id)
    requires x in comments && level < PopulatedLevels
    ensures var v := Render(comments, users, x, level, viewer);
      var c := comments[x];
      v.repliesCount == |v.replies| &&
      forall r :: r in Ids(v.replies) <==> r in c.replies && r in comments
  {
    var c := comments[x];
    var kids := Populate(comments, c.replies);
    var v := Render(comments, users, x, level, viewer);
    assert Ids(v.replies) == kids;
    PopulateElements(comments, c.replies);
  }

  /** Within the populated depth the replies are shown oldest first. */
  lemma RenderRepliesOrdered(comments: map<Id, Comment>, users: map<Id, User>, x: Id, level: nat, viewer: Id)
    requires x in comments && level < PopulatedLevels
    ensures var v := Render(comments, users, x, level, viewer);
      forall i, j :: 0 <= i < j < |v.replies| ==> v.replies[i].createdAt <= v.replies[j].createdAt
  {
    var kids := Populate(comments, comments[x].replies);
    var v := Render(comments, users, x, level, viewer);
    PopulateSorted(comments, comments[x].replies);
    assert v.replies == RenderList(comments, users, kids, level + 1, viewer);
  }

  /** At the populated depth a reply is shown without its replies, with the
      number of ids it lists. */
  lemma RenderBottom(comments: map<Id, Comment>, users: map<Id, User>, x: Id, viewer: Id)
    requires x in comments
    ensures var v := Render(comments, users, x, PopulatedLevels, viewer);
      v.replies == [] && v.repliesCount == |comments[x].replies| && v.profilePicture == None
  {
  }

  /** Wherever the view as written succeeds it is the intended view. */
  lemma {:induction false} RenderAgrees(comments: map<Id, Comment>, users: map<Id, User>, x: Id, level: nat, viewer: Id)
    requires x in comments && level <= PopulatedLevels
    ensures RenderAsWritten(comments, users, x, level, viewer).Some? ==>
      RenderAsWritten(comments, users, x, level, viewer).value == Render(comments, users, x, level, viewer)
    decreases PopulatedLevels - level, 3
  {
    if level < PopulatedLevels && RenderAsWritten(comments, users, x, level, viewer).Some? {
      RepliesAgree(comments, users, x, level, viewer);
    }
  }

  /** Where the view as written succeeds, its replies are the intended ones. */
  lemma {:induction false} RepliesAgree(comments: map<Id, Comment>, users: map<Id, User>, x: Id, level: nat, viewer: Id)
    requires x in comments && level < PopulatedLevels
    requires RenderAsWritten(comments, users, x, level, viewer).Some?
    ensures RenderAsWritten(comments, users, x, level, viewer).value.replies
      == Render(comments, users, x, level, viewer).replies
    decreases PopulatedLevels - level, 2
  {
    var kids := Populate(comments, comments[x].replies);
    var rs := WrittenList(comments, users, kids, level + 1, viewer);
    assert RenderAsWritten(comments, users, x, level, viewer).value.replies == Values(rs);
    assert Render(comments, users, x, level, viewer).replies == RenderList(comments, users, kids, level + 1, viewer);
    ListsAgree(comments, users, kids, level + 1, viewer);
  }

  lemma {:induction false} ListsAgree(comments: map<Id, Comment>, users: map<Id, User>, ids: seq<Id>, level: nat, viewer: Id)
    requires forall i :: 0 <= i < |ids| ==> ids[i] in comments
    requires level <= PopulatedLevels
    requires AllSome(WrittenList(comments, users, ids, level, viewer))
    ensures Values(WrittenList(comments, users, ids, level, viewer)) == RenderList(comments, users, ids, level, viewer)
    decreases PopulatedLevels - level, 4
  {
    var rs := WrittenList(comments, users, ids, level, viewer);
    AllSomeMeaning(rs);
    forall i | 0 <= i < |ids| ensures Values(rs)[i] == RenderList(comments, users, ids, level, viewer)[i] {
      RenderAgrees(comments, users, ids[i], level, viewer);
    }
  }

  /** A failing reply makes the comment it is populated under fail. */
  lemma FailsUpward(comments: map<Id, Comment>, users: map<Id, User>, x: Id, level: nat, viewer: Id, y: Id)
    requires x in comments && level < PopulatedLevels
    requires y in Populate(comments, comments[x].replies)
    requires y in comments && RenderAsWritten(comments, users, y, level + 1, viewer).None?
    ensures RenderAsWritten(comments, users, x, level, viewer).None?
  {
    var kids := Populate(comments, comments[x].replies);
    var i :| 0 <= i < |kids| && kids[i] == y;
    var rs := WrittenList(comments, users, kids, level + 1, viewer);
    AllSomeMeaning(rs);
    assert rs[i].None?;
  }

  /** Within the populated depth, a comment whose author is not a stored user
      cannot be formatted as written. */
  lemma AuthorMissingFails(comments: map<Id, Comment>, users: map<Id, User>, x: Id, level: nat, viewer: Id)
    requires x in comments && level < PopulatedLevels && comments[x].userId !in users
    ensures RenderAsWritten(comments, users, x, level, viewer).None?
  {
  }

  lemma LevelThreeFails(comments: map<Id, Comment>, users: map<Id, User>, x: Id, viewer: Id)
    requires x in comments && comments[x].replies != []
    ensures RenderAsWritten(comments, users, x, PopulatedLevels, viewer).None?
  {
  }

  /** A reply two levels below the comment, listing a reply that lists replies. */
  lemma SecondLevelFails(comments: map<Id, Comment>, users: map<Id, User>, viewer: Id, level: nat, x1: Id, x2: Id, x3: Id)
    requires level == 1
    requires x1 in comments && x2 in Populate(comments, comments[x1].replies)
    requires x2 in comments && x3 in Populate(comments, comments[x2].replies)
    requires x3 in comments && comments[x3].replies != []
    ensures RenderAsWritten(comments, users, x1, level, viewer).None?
  {
    LevelThreeFails(comments, users, x3, viewer);
    FailsUpward(comments, users, x2, level + 1, viewer, x3);
    FailsUpward(comments, users, x1, level, viewer, x2);
  }

  /** As written, the detail view of a comment fails whenever a reply three
      levels below it lists any reply of its own. (`level` is the comment's
      own level, 0; it is a parameter so that the levels stay symbolic.) */
  lemma DeepReplyFails(comments: map<Id, Comment>, users: map<Id, User>, viewer: Id, level: nat,
                       x0: Id, x1: Id, x2: Id, x3: Id)
    requires level == 0 && x0 in comments
    requires x1 in Populate(comments, comments[x0].replies)
    requires x1 in comments && x2 in Populate(comments, comments[x1].replies)
    requires x2 in comments && x3 in Populate(comments, comments[x2].replies)
    requires x3 in comments && comments[x3].replies != []
    ensures RenderAsWritten(comments, users, x0, level, viewer).None?
  {
    SecondLevelFails(comments, users, viewer, level + 1, x1, x2, x3);
    FailsUpward(comments, users, x0, level, viewer, x1);
  }

  lemma PopulateSingle(comments: map<Id, Comment>, k: Id)
    requires k in comments
    ensures Populate(comments, [k]) == [k]
  {
    assert Existing(comments, [k]) == [k];
  }

  /** A store where that happens: a chain of replies four levels below a
      comment, every id naming a stored comment. */
  lemma DeepThread() returns (comments: map<Id, Comment>)
    ensures 0 in comments && 1 in Populate(comments, comments[0].replies)
    ensures 1 in comments && 2 in Populate(comments, comments[1].replies)
    ensures 2 in comments && 3 in Populate(comments, comments[2].replies)
    ensures 3 in comments && comments[3].replies != []
  {
    comments := map[
        0 := Comment(1, "a", "A", "x", None, [1], [], 0),
        1 := Comment(1, "a", "A", "x", Some(0), [2], [], 1),
        2 := Comment(1, "a", "A", "x", Some(1), [3], [], 2),
        3 := Comment(1, "a", "A", "x", Some(2), [4], [], 3),
        4 := Comment(1, "a", "A", "x", Some(3), [], [], 4)];
    PopulateSingle(comments, 1);
    PopulateSingle(comments, 2);
    PopulateSingle(comments, 3);
  }

  /** The story a comment detail names: for a reply, one listing its parent
      when the parent exists; for a top-level comment, one listing it. */
  ghost predicate DetailStory(stories: map<Id, Story>, comments: map<Id, Comment>, x: Id, s: Option<Id>)
    requires x in comments
  {
    var p := comments[x].parentCommentId;
    var anchor := if p.Some? then p.value else x;
    if (p.None? || p.value in comments) && Listed(stories, anchor) then
      s.Some? && s.value in stories && anchor in stories[s.value].comments
    else
      s.None?
  }

  datatype Detail = Detail(view: View, storyId: Option<Id>)

  /** `getCommentDetailHandler`. */
  method GetCommentDetail(db: Store, commentId: PathId, viewer: Id) returns (r: Outcome<Detail>)
    ensures !commentId.Ref? ==> r == Rejected(BadRequest, InvalidCommentIdMsg)
    ensures commentId.Ref? && commentId.id !in db.comments ==> r == Rejected(NotFound, CommentNotFoundMsg)
    ensures commentId.Ref? && commentId.id in db.comments ==> r.Done?
    ensures r.Done? ==>
      commentId.Ref? && commentId.id in db.comments &&
      r.value.view == Render(db.comments, db.users, commentId.id, 0, viewer) &&
      DetailStory(db.stories, db.comments, commentId.id, r.value.storyId)
  {
    if !commentId.Ref? {
      return Rejected(BadRequest, InvalidCommentIdMsg);
    }
    var x := commentId.id;
    if x !in db.comments {
      return Rejected(NotFound, CommentNotFoundMsg);
    }
    var view := Render(db.comments, db.users, x, 0, viewer);
    var story: Option<Id> := None;
    var p := db.comments[x].parentCommentId;
    if p.Some? {
      if p.value in db.comments {
        story := FindStoryListing(db, p.value);
      }
    } else {
      story := FindStoryListing(db, x);
    }
    r := Done(Detail(view, story));
  }
}
