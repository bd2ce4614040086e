/** The comment handlers: commenting on a story, replying to a comment (both
    with their notification), the record-ledger like toggle, deletion with the
    reply cascade, and the comment detail view. */
module CommentHandlers {
  import opened Base
  import opened CommentTree
  import opened Models
  import opened Db
  import opened Likes
  import opened CommentHelpers

  /** A route parameter naming a document: missing or empty, the text
      'undefined' (what a client sends after interpolating an undefined value),
      or an id. */
  datatype PathId = NoId | UndefinedText | Ref(id: Id)

  const InvalidStoryIdMsg := "ID story tidak valid"
  const EmptyCommentMsg := "Komentar tidak boleh kosong"
  const StoryNotFoundMsg := "Story tidak ditemukan"
  const EmptyReplyMsg := "Balasan tidak boleh kosong"
  const CommentNotFoundMsg := "Komentar tidak ditemukan"
  const LikeTargetNotFoundMsg := "Comment tidak ditemukan"
  const NotCommentAuthorMsg := "Anda tidak memiliki izin untuk menghapus komentar ini"
  const InvalidCommentIdMsg := "ID komentar tidak valid"

  /** `!content || content.trim() === ''`. */
  predicate BlankContent(content: Option<string>) {
    !Truthy(content) || Trim(content.value) == []
  }

  /** Comment content is refused exactly when it is missing or all white space. */
  lemma BlankContentMeaning(content: Option<string>)
    ensures BlankContent(content) <==> content.None? || IsBlank(content.value)
  {
    if content.Some? {
      TrimEmptyIffBlank(content.value);
    }
  }

  /** The notification a story owner gets for a new comment. */
  function CommentNotification(owner: Id, author: Actor, story: Id, comment: Id, now: int): (n: Notification)
    ensures n.kind == CommentNotice && n.userId == owner && n.fromUserId == author.id
    ensures n.storyId == Some(story) && n.commentId == Some(comment) && !n.read
  {
    Notification(owner, author.id, author.username, CommentNotice,
                 Some(author.username + " berkomentar di story-mu."), Some(story), Some(comment), false, now)
  }

  /** The notification a comment's author gets for a reply to it. */
  function ReplyNotification(parentAuthor: Id, author: Actor, story: Option<Id>, reply: Id, now: int): (n: Notification)
    ensures n.kind == ReplyNotice && n.userId == parentAuthor && n.fromUserId == author.id
    ensures n.storyId == story && n.commentId == Some(reply) && !n.read
  {
    Notification(parentAuthor, author.id, author.username, ReplyNotice,
                 Some(author.username + " membalas komentarmu."), story, Some(reply), false, now)
  }

  datatype CommentCreated = CommentCreated(commentId: Id, commentCount: nat)

  /** Adding a new top-level comment, listed by story `sid`, keeps the store coherent. */
  lemma CoherentAfterComment(comments: map<Id, Comment>, stories: map<Id, Story>, bound: nat,
                             sid: Id, c: Id, comment: Comment, story: Story)
    requires Coherent(comments, stories, bound) && c == bound && comment.parentCommentId.None?
    requires sid in stories && story.comments == stories[sid].comments + [c]
    ensures Coherent(comments[c := comment], stories[sid := story], bound + 1)
  {
    ParentsOfInsert(comments, c, comment);
    var cs := comments[c := comment];
    var ss := stories[sid := story];
    forall s, d | s in ss && d in ss[s].comments && d in cs
      ensures cs[d].parentCommentId.None?
    {
      if d != c {
        if s == sid {
          assert d in stories[sid].comments;
        }
      }
    }
  }

  /** The saves of a new top-level comment: the comment, the story listing it,
      and the owner's notification unless the owner wrote it. */
  method SaveComment(db: Store, sid: Id, text: string, user: Actor, now: int) returns (c: Id)
    requires db.Valid() && sid in db.stories
    modifies db
    ensures db.Valid()
    ensures var s := old(db.stories)[sid];
      c == old(db.nextId) &&
      db.comments == old(db.comments)[c := NewComment(user, text, None, now)] &&
      db.stories == old(db.stories)[sid := s.(comments := s.comments + [c], updatedAt := now)] &&
      db.users == old(db.users) &&
      (user.id != s.userId ==>
        db.nextId == c + 2 &&
        db.notifications == old(db.notifications)[c + 1 := CommentNotification(s.userId, user, sid, c, now)]) &&
      (user.id == s.userId ==> db.nextId == c + 1 && db.notifications == old(db.notifications))
  {
    var story := db.stories[sid];
    c := db.nextId;
    var comment := NewComment(user, text, None, now);
    var updated := story.(comments := story.comments + [c], updatedAt := now);
    CoherentAfterComment(db.comments, db.stories, c, sid, c, comment, updated);
    var cs, ss := db.comments[c := comment], db.stories[sid := updated];
    if user.id != story.userId {
      var ns := db.notifications[c + 1 := CommentNotification(story.userId, user, sid, c, now)];
      CoherentGrow(cs, ss, c + 1, c + 2);
      FitsAfter(db.comments, db.stories, db.notifications, db.users, c, cs, ss, ns, db.users, c + 2);
      db.Commit(cs, ss, ns, db.users, c + 2);
    } else {
      FitsAfter(db.comments, db.stories, db.notifications, db.users, c, cs, ss, db.notifications, db.users, c + 1);
      db.Commit(cs, ss, db.notifications, db.users, c + 1);
    }
  }

  /** `commentStoryHandler`. */
  method CommentStory(db: Store, storyId: PathId, content: Option<string>, user: Actor, now: int)
      returns (r: Outcome<CommentCreated>)
    requires db.Valid()
    modifies db
    ensures db.Valid()
    ensures !storyId.Ref? ==> r == Rejected(BadRequest, InvalidStoryIdMsg)
    ensures storyId.Ref? && BlankContent(content) ==> r == Rejected(BadRequest, EmptyCommentMsg)
    ensures storyId.Ref? && !BlankContent(content) && storyId.id !in old(db.stories) ==>
      r == Rejected(NotFound, StoryNotFoundMsg)
    ensures storyId.Ref? && !BlankContent(content) && storyId.id in old(db.stories) ==> r.Done?
    ensures r.Rejected? ==> unchanged(db)
    ensures r.Done? ==>
      storyId.Ref? && !BlankContent(content) && storyId.id in old(db.stories) &&
      var sid := storyId.id;
      var s := old(db.stories)[sid];
      var c := r.value.commentId;
      c == old(db.nextId) &&
      db.comments == old(db.comments)[c := NewComment(user, content.value, None, now)] &&
      db.stories == old(db.stories)[sid := s.(comments := s.comments + [c], updatedAt := now)] &&
      r.value.commentCount == |s.comments| + 1 &&
      db.users == old(db.users) &&
      (user.id != s.userId ==>
        db.nextId == c + 2 &&
        db.notifications == old(db.notifications)[c + 1 := CommentNotification(s.userId, user, sid, c, now)]) &&
      (user.id == s.userId ==> db.nextId == c + 1 && db.notifications == old(db.notifications))
  {
    if !storyId.Ref? {
      return Rejected(BadRequest, InvalidStoryIdMsg);
    }
    if BlankContent(content) {
      return Rejected(BadRequest, EmptyCommentMsg);
    }
    var sid := storyId.id;
    if sid !in db.stories {
      return Rejected(NotFound, StoryNotFoundMsg);
    }
    var story := db.stories[sid];
    var c := SaveComment(db, sid, content.value, user, now);
    r := Done(CommentCreated(c, |story.comments| + 1));
  }

  /** What a handler answers as written: its outcome, or `500` when a call
      throws after the saves. */
  datatype Answer<T> = Answered(outcome: Outcome<T>) | ServerError

  /** `commentStoryHandler` as written: the push helper it imports from the
      notification handlers is not among their exports, so calling it throws
      once the comment, the story and the notification are saved, and the
      catch answers `500`. A comment on one's own story sends no push. */
  method CommentStoryAsWritten(db: Store, storyId: PathId, content: Option<string>, user: Actor, now: int)
      returns (r: Answer<CommentCreated>)
    requires db.Valid()
    modifies db
    ensures db.Valid()
    ensures r.ServerError? <==>
      storyId.Ref? && !BlankContent(content) && storyId.id in old(db.stories) &&
      user.id != old(db.stories)[storyId.id].userId
    ensures r.ServerError? ==>
      var sid := storyId.id;
      var s := old(db.stories)[sid];
      var c := old(db.nextId);
      db.comments == old(db.comments)[c := NewComment(user, content.value, None, now)] &&
      db.stories == old(db.stories)[sid := s.(comments := s.comments + [c], updatedAt := now)] &&
      db.notifications == old(db.notifications)[c + 1 := CommentNotification(s.userId, user, sid, c, now)] &&
      db.nextId == c + 2 && db.users == old(db.users)
    ensures r.Answered? && r.outcome.Rejected? ==> unchanged(db)
    ensures r.Answered? && r.outcome.Done? ==>
      storyId.Ref? && storyId.id in old(db.stories) && user.id == old(db.stories)[storyId.id].userId &&
      db.notifications == old(db.notifications)
  {
    var owner := if storyId.Ref? && storyId.id in db.stories then Some(db.stories[storyId.id].userId) else None;
    var o := CommentStory(db, storyId, content, user, now);
    if o.Done? && owner != Some(user.id) {
      r := ServerError;
    } else {
      r := Answered(o);
    }
  }

  /** Some story lists `c`. */
  ghost predicate Listed(stories: map<Id, Story>, c: Id) {
    exists s :: s in stories && c in stories[s].comments
  }

  /** `Story.findOne({comments: c})`: one of the stories listing `c`, if any. */
  method FindStoryListing(db: Store, c: Id) returns (s: Option<Id>)
    ensures s.Some? ==> s.value in db.stories && c in db.stories[s.value].comments
    ensures s.None? <==> !Listed(db.stories, c)
  {
    if exists k :: k in db.stories && c in db.stories[k].comments {
      var k :| k in db.stories && c in db.stories[k].comments;
      s := Some(k);
    } else {
      s := None;
    }
  }

  /** The story a reply notification names: one listing the parent comment,
      else one listing the parent's own parent when that comment exists, else none. */
  ghost predicate ReplyStory(stories: map<Id, Story>, comments: map<Id, Comment>, parent: Id, s: Option<Id>)
    requires parent in comments
  {
    var gp := comments[parent].parentCommentId;
    if Listed(stories, parent) then
      s.Some? && s.value in stories && parent in stories[s.value].comments
    else if gp.Some? && gp.value in comments && Listed(stories, gp.value) then
      s.Some? && s.value in stories && gp.value in stories[s.value].comments
    else
      s.None?
  }

  /** Adding a reply below an existing comment keeps the store coherent. */
  lemma CoherentAfterReply(comments: map<Id, Comment>, stories: map<Id, Story>, bound: nat,
                           parent: Id, p: Comment, c: Id, reply: Comment)
    requires Coherent(comments, stories, bound) && c == bound && parent in comments
    requires p.parentCommentId == comments[parent].parentCommentId && reply.parentCommentId == Some(parent)
    ensures Coherent(comments[parent := p][c := reply], stories, bound + 1)
  {
    ParentsOfUpdate(comments, parent, p);
    ParentsOfInsert(comments[parent := p], c, reply);
  }

  /** The story a reply notification names, found as `replyCommentHandler`
      looks it up. */
  method FindReplyStory(db: Store, parent: Id) returns (s: Option<Id>)
    requires parent in db.comments
    ensures ReplyStory(db.stories, db.comments, parent, s)
  {
    s := FindStoryListing(db, parent);
    var gp := db.comments[parent].parentCommentId;
    if s.None? && gp.Some? && gp.value in db.comments {
      s := FindStoryListing(db, gp.value);
    }
  }

  /** The saves of a reply: the reply, the parent listing it, and the parent
      author's notification unless they wrote the reply. */
  method SaveReply(db: Store, parent: Id, text: string, user: Actor, now: int) returns (c: Id)
    requires db.Valid() && parent in db.comments
    modifies db
    ensures db.Valid()
    ensures var p := old(db.comments)[parent];
      c == old(db.nextId) &&
      db.comments == old(db.comments)[parent := p.(replies := p.replies + [c])]
                                     [c := NewComment(user, text, Some(parent), now)] &&
      db.stories == old(db.stories) && db.users == old(db.users) &&
      (user.id != p.userId ==>
        db.nextId == c + 2 &&
        exists s :: ReplyStory(old(db.stories), old(db.comments), parent, s) &&
          db.notifications == old(db.notifications)[c + 1 := ReplyNotification(p.userId, user, s, c, now)]) &&
      (user.id == p.userId ==> db.nextId == c + 1 && db.notifications == old(db.notifications))
  {
    var p := db.comments[parent];
    c := db.nextId;
    var reply := NewComment(user, text, Some(parent), now);
    var updated := p.(replies := p.replies + [c]);
    CoherentAfterReply(db.comments, db.stories, c, parent, updated, c, reply);
    var cs := db.comments[parent := updated][c := reply];
    var story := FindReplyStory(db, parent);
    if user.id != p.userId {
      var ns := db.notifications[c + 1 := ReplyNotification(p.userId, user, story, c, now)];
      CoherentGrow(cs, db.stories, c + 1, c + 2);
      FitsAfter(db.comments, db.stories, db.notifications, db.users, c, cs, db.stories, ns, db.users, c + 2);
      db.Commit(cs, db.stories, ns, db.users, c + 2);
    } else {
      FitsAfter(db.comments, db.stories, db.notifications, db.users, c, cs, db.stories, db.notifications, db.users, c + 1);
      db.Commit(cs, db.stories, db.notifications, db.users, c + 1);
    }
  }

  /** `replyCommentHandler`. Reply content is only checked for being empty, not
      for white space. */
  method ReplyComment(db: Store, commentId: Id, content: Option<string>, user: Actor, now: int)
      returns (r: Outcome<Id>)
    requires db.Valid()
    modifies db
    ensures db.Valid()
    ensures !Truthy(content) ==> r == Rejected(BadRequest, EmptyReplyMsg)
    ensures Truthy(content) && commentId !in old(db.comments) ==> r == Rejected(NotFound, CommentNotFoundMsg)
    ensures Truthy(content) && commentId in old(db.comments) ==> r.Done?
    ensures r.Rejected? ==> unchanged(db)
    ensures r.Done? ==>
      Truthy(content) && commentId in old(db.comments) &&
      var p := old(db.comments)[commentId];
      var c := r.value;
      c == old(db.nextId) &&
      db.comments == old(db.comments)[commentId := p.(replies := p.replies + [c])]
                                     [c := NewComment(user, content.value, Some(commentId), now)] &&
      db.stories == old(db.stories) && db.users == old(db.users) &&
      (user.id != p.userId ==>
        db.nextId == c + 2 &&
        exists s :: ReplyStory(old(db.stories), old(db.comments), commentId, s) &&
          db.notifications == old(db.notifications)[c + 1 := ReplyNotification(p.userId, user, s, c, now)]) &&
      (user.id == p.userId ==> db.nextId == c + 1 && db.notifications == old(db.notifications))
  {
    if !Truthy(content) {
      return Rejected(BadRequest, EmptyReplyMsg);
    }
    if commentId !in db.comments {
      return Rejected(NotFound, CommentNotFoundMsg);
    }
    var c := SaveReply(db, commentId, content.value, user, now);
    r := Done(c);
  }

  /** `replyCommentHandler` as written: as in `CommentStoryAsWritten`, a
      reply to someone else's comment is saved with its notification, then
      the missing push helper throws and the answer is `500`. */
  method ReplyCommentAsWritten(db: Store, commentId: Id, content: Option<string>, user: Actor, now: int)
      returns (r: Answer<Id>)
    requires db.Valid()
    modifies db
    ensures db.Valid()
    ensures r.ServerError? <==>
      Truthy(content) && commentId in old(db.comments) && user.id != old(db.comments)[commentId].userId
    ensures r.ServerError? ==>
      var p := old(db.comments)[commentId];
      var c := old(db.nextId);
      db.comments == old(db.comments)[commentId := p.(replies := p.replies + [c])]
                                     [c := NewComment(user, content.value, Some(commentId), now)] &&
      db.nextId == c + 2 && db.stories == old(db.stories) && db.users == old(db.users) &&
      exists s :: ReplyStory(old(db.stories), old(db.comments), commentId, s) &&
        db.notifications == old(db.notifications)[c + 1 := ReplyNotification(p.userId, user, s, c, now)]
    ensures r.Answered? && r.outcome.Rejected? ==> unchanged(db)
    ensures r.Answered? && r.outcome.Done? ==>
      commentId in old(db.comments) && user.id == old(db.comments)[commentId].userId &&
      db.notifications == old(db.notifications)
  {
    var author := if commentId in db.comments then Some(db.comments[commentId].userId) else None;
    var o := ReplyComment(db, commentId, content, user, now);
    if o.Done? && author != Some(user.id) {
      r := ServerError;
    } else {
      r := Answered(o);
    }
  }

  datatype CommentLiked = CommentLiked(liked: bool, likeCount: nat, likes: seq<LikeEntry>)

  /** `likeCommentHandler`: the record-ledger toggle. */
  method LikeComment(db: Store, commentId: Id, userId: Id, now: int) returns (r: Outcome<CommentLiked>)
    requires db.Valid()
    modifies db
    ensures db.Valid()
    ensures commentId !in old(db.comments) <==> r == Rejected(NotFound, LikeTargetNotFoundMsg)
    ensures commentId in old(db.comments) ==> r.Done?
    ensures r.Rejected? ==> unchanged(db)
    ensures r.Done? ==>
      commentId in old(db.comments) &&
      var c := old(db.comments)[commentId];
      var t := ToggleRecord(c.likes, userId, now);
      db.comments == old(db.comments)[commentId := c.(likes := t.likes)] &&
      r.value == CommentLiked(t.liked, |t.likes|, t.likes) &&
      db.stories == old(db.stories) && db.notifications == old(db.notifications) &&
      db.users == old(db.users) && db.nextId == old(db.nextId)
  {
    if commentId !in db.comments {
      return Rejected(NotFound, LikeTargetNotFoundMsg);
    }
    var c := db.comments[commentId];
    var t := ToggleRecord(c.likes, userId, now);
    var cs := db.comments[commentId := c.(likes := t.likes)];
    ParentsOfUpdate(db.comments, commentId, c.(likes := t.likes));
    FitsAfter(db.comments, db.stories, db.notifications, db.users, db.nextId,
              cs, db.stories, db.notifications, db.users, db.nextId);
    db.Commit(cs, db.stories, db.notifications, db.users, db.nextId);
    SanitizeIdempotent(t.likes);
    r := Done(CommentLiked(t.liked, |t.likes|, Sanitize(t.likes)));
  }

  /** The first step of a deletion: a reply is pulled from its parent's
      `replies`; a top-level comment is pulled from the story `owner` listing it. */
  function DetachFromParent(comments: map<Id, Comment>, c: Id): (r: map<Id, Comment>)
    requires c in comments
    ensures r.Keys == comments.Keys
    ensures ParentsOf(r) == ParentsOf(comments)
  {
    var p := comments[c].parentCommentId;
    if p.Some? && p.value in comments then
      var pc := comments[p.value];
      ParentsOfUpdate(comments, p.value, pc.(replies := Pull(pc.replies, c)));
      comments[p.value := pc.(replies := Pull(pc.replies, c))]
    else comments
  }

  /** Pulling a comment from one story keeps the store coherent. */
  lemma CoherentAfterPull(comments: map<Id, Comment>, stories: map<Id, Story>, bound: nat, s: Id, c: Id, now: int)
    requires Coherent(comments, stories, bound) && s in stories
    ensures Coherent(comments, stories[s := stories[s].(comments := Pull(stories[s].comments, c), updatedAt := now)], bound)
  {
  }

  /** The stories after `c` is detached: a reply, or a comment no story lists,
      leaves them as they were; otherwise one story listing `c` has it pulled
      and its update time set. */
  ghost predicate StoryDetached(comments: map<Id, Comment>, stories: map<Id, Story>,
                                after: map<Id, Story>, c: Id, now: int)
    requires c in comments
  {
    if comments[c].parentCommentId.Some? || !Listed(stories, c) then after == stories
    else
      exists s :: s in stories && c in stories[s].comments &&
        after == stories[s := stories[s].(comments := Pull(stories[s].comments, c), updatedAt := now)]
  }

  /** The first save of a deletion: a reply is pulled from its parent, a
      top-level comment from the story listing it, if any. */
  method Detach(db: Store, c: Id, now: int)
    requires db.Valid() && c in db.comments
    modifies db
    ensures db.Valid()
    ensures db.comments == DetachFromParent(old(db.comments), c)
    ensures StoryDetached(old(db.comments), old(db.stories), db.stories, c, now)
    ensures db.notifications == old(db.notifications) && db.users == old(db.users)
    ensures db.nextId == old(db.nextId)
  {
    if db.comments[c].parentCommentId.Some? {
      var cs := DetachFromParent(db.comments, c);
      FitsAfter(db.comments, db.stories, db.notifications, db.users, db.nextId,
                cs, db.stories, db.notifications, db.users, db.nextId);
      db.Commit(cs, db.stories, db.notifications, db.users, db.nextId);
    } else {
      var s := FindStoryListing(db, c);
      if s.Some? {
        var story := db.stories[s.value];
        var ss := db.stories[s.value := story.(comments := Pull(story.comments, c), updatedAt := now)];
        CoherentAfterPull(db.comments, db.stories, db.nextId, s.value, c, now);
        FitsAfter(db.comments, db.stories, db.notifications, db.users, db.nextId,
                  db.comments, ss, db.notifications, db.users, db.nextId);
        db.Commit(db.comments, ss, db.notifications, db.users, db.nextId);
      }
    }
  }

  /** Removing a set of comments and then one more removes their union. */
  lemma RemoveInTurn(comments: map<Id, Comment>, S: set<Id>, c: Id)
    ensures (comments - S) - {c} == comments - (S + {c})
  {
  }

  /** `deleteCommentHandler`. */
  method DeleteComment(db: Store, commentId: Id, userId: Id, now: int) returns (r: Outcome<()>)
    requires db.Valid()
    modifies db
    ensures db.Valid()
    ensures commentId !in old(db.comments) ==> r == Rejected(NotFound, CommentNotFoundMsg)
    ensures commentId in old(db.comments) && old(db.comments)[commentId].userId != userId ==>
      r == Rejected(Forbidden, NotCommentAuthorMsg)
    ensures commentId in old(db.comments) && old(db.comments)[commentId].userId == userId ==> r.Done?
    ensures r.Rejected? ==> unchanged(db)
    ensures r.Done? ==>
      commentId in old(db.comments) && old(db.comments)[commentId].userId == userId &&
      var gone := Descendants(ParentsOf(old(db.comments)), commentId) + {commentId};
      db.comments == DetachFromParent(old(db.comments), commentId) - gone &&
      StoryDetached(old(db.comments), old(db.stories), db.stories, commentId, now) &&
      db.notifications == old(db.notifications) && db.users == old(db.users) &&
      db.nextId == old(db.nextId)
  {
    if commentId !in db.comments {
      return Rejected(NotFound, CommentNotFoundMsg);
    }
    var comment := db.comments[commentId];
    if comment.userId != userId {
      return Rejected(Forbidden, NotCommentAuthorMsg);
    }
    ghost var pm := ParentsOf(db.comments);
    Detach(db, commentId, now);
    ghost var detached := db.comments;
    assert ParentsOf(detached) == pm;
    DeleteAllReplies(db, commentId);
    RemoveInTurn(detached, Descendants(pm, commentId), commentId);
    CoherentAfterRemove(db.comments, db.stories, db.nextId, {commentId});
    FitsAfter(db.comments, db.stories, db.notifications, db.users, db.nextId,
              db.comments - {commentId}, db.stories, db.notifications, db.users, db.nextId);
    db.Commit(db.comments - {commentId}, db.stories, db.notifications, db.users, db.nextId);
    r := Done(());
  }

  /** After a deletion no surviving comment lies below the deleted one, and the
      number of comments removed is one more than `countAllReplies` gave before. */
  lemma DeletedThreadGone(comments: map<Id, Comment>, c: Id)
    requires Ranked(ParentsOf(comments)) && c in comments
    ensures var after := DetachFromParent(comments, c) - (Descendants(ParentsOf(comments), c) + {c});
      Ranked(ParentsOf(after)) &&
      c !in after && Descendants(ParentsOf(after), c) == {} &&
      |after.Keys| == |comments.Keys| - |Descendants(ParentsOf(comments), c)| - 1
  {
    var pm := ParentsOf(comments);
    var gone := Descendants(pm, c) + {c};
    var detached := DetachFromParent(comments, c);
    var after := detached - gone;
    ParentsOfRemove(detached, gone);
    RemovedStaysRanked(pm, gone);
    DescendantsAreLarger(pm, c);
    assert Descendants(pm, c) + {c} <= comments.Keys;
    assert after.Keys == comments.Keys - gone;
    DescendantsDownClosed(pm, c);
    RemoveDownClosed(pm, Descendants(pm, c), c);
    RemovedStaysRanked(pm - Descendants(pm, c), {c});
    assert pm - gone == (pm - Descendants(pm, c)) - {c};
    RemoveDownClosed(pm - Descendants(pm, c), {c}, c);
    DeleteDescendantsIdempotent(pm, c);
  }
}
