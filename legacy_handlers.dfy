/** The older comment handlers of the monolithic handler file, where they
    differ from the current ones: content is only checked for being empty, no
    notification is sent, and comment likes use the id ledger. The other older
    handlers behave as the members named in the README. */
module LegacyHandlers {
  import opened Base
  import opened Models
  import opened Db
  import opened Likes
  import opened CommentHandlers

  const CommentLikedMsg := "Comment disukai"
  const CommentUnlikedMsg := "Like dibatalkan"

  /** The older `commentStoryHandler`: the comment is saved and listed by the
      story (its save stamps `updatedAt`); nobody is notified. */
  method LegacyCommentStory(db: Store, storyId: Id, content: Option<string>, user: Actor, now: int)
      returns (r: Outcome<CommentCreated>)
    requires db.Valid()
    modifies db
    ensures db.Valid()
    ensures !Truthy(content) ==> r == Rejected(BadRequest, EmptyCommentMsg)
    ensures Truthy(content) && storyId !in old(db.stories) ==> r == Rejected(NotFound, StoryNotFoundMsg)
    ensures Truthy(content) && storyId in old(db.stories) ==> r.Done?
    ensures r.Rejected? ==> unchanged(db)
    ensures r.Done? ==>
      Truthy(content) && storyId in old(db.stories) &&
      var s := old(db.stories)[storyId];
      var c := r.value.commentId;
      c == old(db.nextId) && db.nextId == c + 1 &&
      db.comments == old(db.comments)[c := NewComment(user, content.value, None, now)] &&
      db.stories == old(db.stories)[storyId := s.(comments := s.comments + [c], updatedAt := now)] &&
      r.value.commentCount == |s.comments| + 1 &&
      db.notifications == old(db.notifications) && db.users == old(db.users)
  {
    if !Truthy(content) {
      return Rejected(BadRequest, EmptyCommentMsg);
    }
    if storyId !in db.stories {
      return Rejected(NotFound, StoryNotFoundMsg);
    }
    var story := db.stories[storyId];
    var c := db.nextId;
    var comment := NewComment(user, content.value, None, now);
    var updated := story.(comments := story.comments + [c], updatedAt := now);
    CoherentAfterComment(db.comments, db.stories, c, storyId, c, comment, updated);
    var cs, ss := db.comments[c := comment], db.stories[storyId := updated];
    FitsAfter(db.comments, db.stories, db.notifications, db.users, c, cs, ss, db.notifications, db.users, c + 1);
    db.Commit(cs, ss, db.notifications, db.users, c + 1);
    r := Done(CommentCreated(c, |updated.comments|));
  }

  /** The older `replyCommentHandler`: the reply is saved and listed by its
      parent. Its story lookups read the store and change nothing. */
  method LegacyReplyComment(db: Store, commentId: Id, content: Option<string>, user: Actor, now: int)
      returns (r: Outcome<Id>)
    requires db.Valid()
    modifies db
    ensures db.Valid()
    ensures !Truthy(content) ==> r == Rejected(BadRequest, EmptyReplyMsg)
    ensures Truthy(content) && commentId !in old(db.comments) ==> r == Rejected(NotFound, CommentNotFoundMsg)
    ensures Truthy(content) && commentId in old(db.comments) ==> r.Done?
    ensures r.Rejected? ==> unchanged(db)
    ensures r.Done? ==>
      Truthy(content) && commentId in old(db.comments) &&
      var p := old(db.comments)[commentId];
      var c := r.value;
      c == old(db.nextId) && db.nextId == c + 1 &&
      db.comments == old(db.comments)[commentId := p.(replies := p.replies + [c])]
                                     [c := NewComment(user, content.value, Some(commentId), now)] &&
      db.stories == old(db.stories) && db.notifications == old(db.notifications) &&
      db.users == old(db.users)
  {
    if !Truthy(content) {
      return Rejected(BadRequest, EmptyReplyMsg);
    }
    if commentId !in db.comments {
      return Rejected(NotFound, CommentNotFoundMsg);
    }
    var p := db.comments[commentId];
    var c := db.nextId;
    var reply := NewComment(user, content.value, Some(commentId), now);
    var updated := p.(replies := p.replies + [c]);
    CoherentAfterReply(db.comments, db.stories, c, commentId, updated, c, reply);
    var cs := db.comments[commentId := updated][c := reply];
    FitsAfter(db.comments, db.stories, db.notifications, db.users, c, cs, db.stories, db.notifications, db.users, c + 1);
    db.Commit(cs, db.stories, db.notifications, db.users, c + 1);
    r := Done(c);
  }

  datatype LegacyCommentLiked = LegacyCommentLiked(message: string, likeCount: nat)

  /** The older `likeCommentHandler`: the id-ledger toggle on the comment. */
  method LegacyLikeComment(db: Store, commentId: Id, userId: Id) returns (r: Outcome<LegacyCommentLiked>)
    requires db.Valid()
    modifies db
    ensures db.Valid()
    ensures commentId !in old(db.comments) <==> r == Rejected(NotFound, LikeTargetNotFoundMsg)
    ensures commentId in old(db.comments) ==> r.Done?
    ensures r.Rejected? ==> unchanged(db)
    ensures r.Done? ==>
      commentId in old(db.comments) &&
      var c := old(db.comments)[commentId];
      var t := ToggleId(c.likes, userId);
      db.comments == old(db.comments)[commentId := c.(likes := t.likes)] &&
      r.value.likeCount == |t.likes| &&
      (r.value.message == CommentLikedMsg <==> LikedBy(userId) !in c.likes) &&
      (r.value.message == CommentUnlikedMsg <==> LikedBy(userId) in c.likes) &&
      db.stories == old(db.stories) && db.notifications == old(db.notifications) &&
      db.users == old(db.users) && db.nextId == old(db.nextId)
  {
    if commentId !in db.comments {
      return Rejected(NotFound, LikeTargetNotFoundMsg);
    }
    var c := db.comments[commentId];
    var t := ToggleId(c.likes, userId);
    var cs := db.comments[commentId := c.(likes := t.likes)];
    ParentsOfUpdate(db.comments, commentId, c.(likes := t.likes));
    FitsAfter(db.comments, db.stories, db.notifications, db.users, db.nextId,
              cs, db.stories, db.notifications, db.users, db.nextId);
    db.Commit(cs, db.stories, db.notifications, db.users, db.nextId);
    r := Done(LegacyCommentLiked(if t.liked then CommentLikedMsg else CommentUnlikedMsg, |t.likes|));
  }
}
