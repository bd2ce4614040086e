/** The story handlers: creating, editing, liking and deleting a story. The
    two read handlers, the story list and the story detail, are in
    `StoryViews`. */
module StoryHandlers {
  import opened Base
  import opened CommentTree
  import opened Models
  import opened Db
  import opened Likes
  import opened CommentHelpers

  const EmptyStoryMsg := "Cerita tidak boleh kosong"
  const EmptyEditMsg := "Konten cerita tidak boleh kosong"
  const StoryNotFoundMsg := "Story tidak ditemukan"
  const NotEditorMsg := "Anda tidak memiliki izin untuk mengedit cerita ini"
  const NotDeleterMsg := "Anda tidak memiliki izin untuk menghapus cerita ini"
  const AnonymousUsername := "Anonim"
  const AnonymousName := "Pengguna"
  const LikedMsg := "Story disukai"
  const UnlikedMsg := "Like dibatalkan"

  /** A new story: an anonymous one shows a placeholder author; it has no
      likes and no comments, and both timestamps are the creation time. */
  function NewStory(author: Actor, content: string, isAnonymous: bool, now: int): (s: Story)
    ensures s.userId == author.id && s.content == content && s.isAnonymous == isAnonymous
    ensures s.likes == [] && s.comments == [] && s.createdAt == now && s.updatedAt == now
    ensures isAnonymous ==> s.username == AnonymousUsername && s.name == AnonymousName
    ensures !isAnonymous ==> s.username == author.username && s.name == author.name
  {
    Story(author.id,
          if isAnonymous then AnonymousUsername else author.username,
          if isAnonymous then AnonymousName else author.name,
          content, isAnonymous, [], [], now, now)
  }

  /** The author's list of stories after a story is created: a public story is
      appended; an anonymous one is not recorded against the author. */
  function RecordStory(users: map<Id, User>, author: Id, story: Id, isAnonymous: bool, now: int)
      : (r: map<Id, User>)
    ensures r.Keys == users.Keys
    ensures forall u :: u in users && (u != author || isAnonymous) ==> r[u] == users[u]
    ensures !isAnonymous && author in users ==>
      r[author] == users[author].(stories := users[author].stories + [StoryRef(story, now)])
  {
    if !isAnonymous && author in users then
      users[author := users[author].(stories := users[author].stories + [StoryRef(story, now)])]
    else users
  }

  /** `createStoryHandler`. `isAnonymous` is the payload flag as a boolean. */
  method CreateStory(db: Store, author: Actor, content: Option<string>, isAnonymous: bool, now: int)
      returns (r: Outcome<Id>)
    requires db.Valid()
    modifies db
    ensures db.Valid()
    ensures !Truthy(content) <==> r == Rejected(BadRequest, EmptyStoryMsg)
    ensures Truthy(content) ==> r.Done?
    ensures r.Rejected? ==> unchanged(db)
    ensures r.Done? ==>
      Truthy(content) && r.value == old(db.nextId) && db.nextId == old(db.nextId) + 1 &&
      db.stories == old(db.stories)[r.value := NewStory(author, content.value, isAnonymous, now)] &&
      db.users == RecordStory(old(db.users), author.id, r.value, isAnonymous, now) &&
      db.comments == old(db.comments) && db.notifications == old(db.notifications)
  {
    if !Truthy(content) {
      return Rejected(BadRequest, EmptyStoryMsg);
    }
    var id := db.nextId;
    var ss := db.stories[id := NewStory(author, content.value, isAnonymous, now)];
    var us := RecordStory(db.users, author.id, id, isAnonymous, now);
    CoherentNewStory(db.comments, db.stories, id, id, NewStory(author, content.value, isAnonymous, now));
    CoherentGrow(db.comments, ss, id, id + 1);
    FitsAfter(db.comments, db.stories, db.notifications, db.users, id,
              db.comments, ss, db.notifications, us, id + 1);
    db.Commit(db.comments, ss, db.notifications, us, id + 1);
    r := Done(id);
  }

  /** `editStoryHandler`: only the author may change the content. */
  method EditStory(db: Store, storyId: Id, userId: Id, content: Option<string>, now: int)
      returns (r: Outcome<()>)
    requires db.Valid()
    modifies db
    ensures db.Valid()
    ensures !Truthy(content) ==> r == Rejected(BadRequest, EmptyEditMsg)
    ensures Truthy(content) && storyId !in old(db.stories) ==> r == Rejected(NotFound, StoryNotFoundMsg)
    ensures Truthy(content) && storyId in old(db.stories) && old(db.stories)[storyId].userId != userId ==>
      r == Rejected(Forbidden, NotEditorMsg)
    ensures Truthy(content) && storyId in old(db.stories) && old(db.stories)[storyId].userId == userId ==>
      r.Done?
    ensures r.Rejected? ==> unchanged(db)
    ensures r.Done? ==>
      Truthy(content) && storyId in old(db.stories) && old(db.stories)[storyId].userId == userId &&
      db.stories == old(db.stories)[storyId := old(db.stories)[storyId].(content := content.value, updatedAt := now)] &&
      db.comments == old(db.comments) && db.notifications == old(db.notifications) &&
      db.users == old(db.users) && db.nextId == old(db.nextId)
  {
    if !Truthy(content) {
      return Rejected(BadRequest, EmptyEditMsg);
    }
    if storyId !in db.stories {
      return Rejected(NotFound, StoryNotFoundMsg);
    }
    var story := db.stories[storyId];
    if story.userId != userId {
      return Rejected(Forbidden, NotEditorMsg);
    }
    var ss := db.stories[storyId := story.(content := content.value, updatedAt := now)];
    CoherentSameListing(db.comments, db.stories, db.nextId, storyId, story.(content := content.value, updatedAt := now));
    FitsAfter(db.comments, db.stories, db.notifications, db.users, db.nextId,
              db.comments, ss, db.notifications, db.users, db.nextId);
    db.Commit(db.comments, ss, db.notifications, db.users, db.nextId);
    r := Done(());
  }

  datatype StoryLiked = StoryLiked(message: string, likeCount: nat)

  /** `likeStoryHandler`: the story's likes are a list of user ids. */
  method LikeStory(db: Store, storyId: Id, userId: Id, now: int) returns (r: Outcome<StoryLiked>)
    requires db.Valid()
    modifies db
    ensures db.Valid()
    ensures storyId !in old(db.stories) <==> r == Rejected(NotFound, StoryNotFoundMsg)
    ensures storyId in old(db.stories) ==> r.Done?
    ensures r.Rejected? ==> unchanged(db)
    ensures r.Done? ==>
      storyId in old(db.stories) &&
      var s := old(db.stories)[storyId];
      var t := ToggleId(s.likes, userId);
      db.stories == old(db.stories)[storyId := s.(likes := t.likes, updatedAt := now)] &&
      r.value == StoryLiked(if t.liked then LikedMsg else UnlikedMsg, |t.likes|) &&
      db.comments == old(db.comments) && db.notifications == old(db.notifications) &&
      db.users == old(db.users) && db.nextId == old(db.nextId)
  {
    if storyId !in db.stories {
      return Rejected(NotFound, StoryNotFoundMsg);
    }
    var s := db.stories[storyId];
    var t := ToggleId(s.likes, userId);
    var ss := db.stories[storyId := s.(likes := t.likes, updatedAt := now)];
    CoherentSameListing(db.comments, db.stories, db.nextId, storyId, s.(likes := t.likes, updatedAt := now));
    FitsAfter(db.comments, db.stories, db.notifications, db.users, db.nextId,
              db.comments, ss, db.notifications, db.users, db.nextId);
    db.Commit(db.comments, ss, db.notifications, db.users, db.nextId);
    r := Done(StoryLiked(if t.liked then LikedMsg else UnlikedMsg, |t.likes|));
  }

  /** `$pull: { stories: { _id } }`: every entry for the story goes. */
  function PullStoryRef(refs: seq<StoryRef>, story: Id): (r: seq<StoryRef>)
    ensures forall e :: e in r <==> e in refs && e.id != story
    ensures |r| <= |refs|
    ensures forall e: StoryRef :: e.id != story ==> multiset(r)[e] == multiset(refs)[e]
  {
    if refs == [] then []
    else
      assert refs == [refs[0]] + refs[1..];
      if refs[0].id == story then PullStoryRef(refs[1..], story)
      else [refs[0]] + PullStoryRef(refs[1..], story)
  }

  /** The pull goes entry by entry, so the entries kept stay in their order. */
  lemma {:induction false} PullStoryRefConcat(a: seq<StoryRef>, b: seq<StoryRef>, story: Id)
    ensures PullStoryRef(a + b, story) == PullStoryRef(a, story) + PullStoryRef(b, story)
  {
    if a != [] {
      var ab := a + b;
      assert ab[0] == a[0] && ab[1..] == a[1..] + b;
      PullStoryRefConcat(a[1..], b, story);
      var head := if a[0].id == story then [] else [a[0]];
      assert PullStoryRef(ab, story) == head + PullStoryRef(a[1..] + b, story);
      assert PullStoryRef(a, story) == head + PullStoryRef(a[1..], story);
    } else {
      assert a + b == b;
    }
  }

  /** The user's list after a story is deleted: a public story's entries are
      removed; for an anonymous story the list is left alone. */
  function ForgetStory(users: map<Id, User>, owner: Id, story: Id, isAnonymous: bool): (r: map<Id, User>)
    ensures r.Keys == users.Keys
    ensures forall u :: u in users && (u != owner || isAnonymous) ==> r[u] == users[u]
    ensures !isAnonymous && owner in users ==>
      r[owner] == users[owner].(stories := PullStoryRef(users[owner].stories, story))
  {
    if !isAnonymous && owner in users then
      users[owner := users[owner].(stories := PullStoryRef(users[owner].stories, story))]
    else users
  }

  /** Recording a story and then forgetting it leaves the author's list as it
      was, provided the list did not mention the new id. */
  lemma RecordThenForget(users: map<Id, User>, author: Id, story: Id, isAnonymous: bool, now: int)
    requires author in users ==> forall e :: e in users[author].stories ==> e.id != story
    ensures ForgetStory(RecordStory(users, author, story, isAnonymous, now), author, story, isAnonymous) == users
  {
    if !isAnonymous && author in users {
      var refs := users[author].stories;
      PullNothing(refs, story);
      PullSnoc(refs, StoryRef(story, now), story);
    }
  }

  lemma {:induction false} PullNothing(refs: seq<StoryRef>, story: Id)
    requires forall e :: e in refs ==> e.id != story
    ensures PullStoryRef(refs, story) == refs
  {
    if refs != [] {
      PullNothing(refs[1..], story);
    }
  }

  lemma {:induction false} PullSnoc(refs: seq<StoryRef>, e: StoryRef, story: Id)
    requires e.id == story
    ensures PullStoryRef(refs + [e], story) == PullStoryRef(refs, story)
  {
    if refs == [] {
      assert refs + [e] == [e];
    } else {
      assert (refs + [e])[1..] == refs[1..] + [e];
      PullSnoc(refs[1..], e, story);
    }
  }

  /** `deleteStoryHandler`: every listed comment goes with all the replies
      below it, the owner's entry for the story is pulled, and the story goes. */
  method DeleteStory(db: Store, storyId: Id, userId: Id) returns (r: Outcome<()>)
    requires db.Valid()
    modifies db
    ensures db.Valid()
    ensures storyId !in old(db.stories) ==> r == Rejected(NotFound, StoryNotFoundMsg)
    ensures storyId in old(db.stories) && old(db.stories)[storyId].userId != userId ==>
      r == Rejected(Forbidden, NotDeleterMsg)
    ensures storyId in old(db.stories) && old(db.stories)[storyId].userId == userId ==> r.Done?
    ensures r.Rejected? ==> unchanged(db)
    ensures r.Done? ==>
      storyId in old(db.stories) && old(db.stories)[storyId].userId == userId &&
      var s := old(db.stories)[storyId];
      db.comments == old(db.comments) - Threads(ParentsOf(old(db.comments)), s.comments) &&
      db.stories == old(db.stories) - {storyId} &&
      db.users == ForgetStory(old(db.users), userId, storyId, s.isAnonymous) &&
      db.notifications == old(db.notifications) && db.nextId == old(db.nextId)
  {
    if storyId !in db.stories {
      return Rejected(NotFound, StoryNotFoundMsg);
    }
    var story := db.stories[storyId];
    if story.userId != userId {
      return Rejected(Forbidden, NotDeleterMsg);
    }
    ghost var c0 := db.comments;
    ghost var pm := ParentsOf(c0);
    var cs := story.comments;
    for i := 0 to |cs|
      invariant db.Valid()
      invariant db.comments == c0 - Threads(pm, cs[..i])
      invariant db.stories == old(db.stories) && db.users == old(db.users)
      invariant db.notifications == old(db.notifications) && db.nextId == old(db.nextId)
    {
      ThreadStep(c0, cs, i);
      DeleteAllReplies(db, cs[i]);
      CoherentAfterRemove(db.comments, db.stories, db.nextId, {cs[i]});
      FitsAfter(db.comments, db.stories, db.notifications, db.users, db.nextId,
                db.comments - {cs[i]}, db.stories, db.notifications, db.users, db.nextId);
      db.Commit(db.comments - {cs[i]}, db.stories, db.notifications, db.users, db.nextId);
    }
    assert cs[..|cs|] == cs;
    var us := ForgetStory(db.users, userId, storyId, story.isAnonymous);
    CoherentDropStory(db.comments, db.stories, db.nextId, storyId);
    FitsAfter(db.comments, db.stories, db.notifications, db.users, db.nextId,
              db.comments, db.stories - {storyId}, db.notifications, us, db.nextId);
    db.Commit(db.comments, db.stories - {storyId}, db.notifications, us, db.nextId);
    r := Done(());
  }

  /** One step of the deletion loop: with the threads of the first `i` listed
      comments gone, deleting the replies below the next one and then the
      comment itself leaves the store without the first `i + 1` threads. */
  lemma ThreadStep(c0: map<Id, Comment>, cs: seq<Id>, i: nat)
    requires Ranked(ParentsOf(c0)) && i < |cs|
    ensures var pm := ParentsOf(c0);
      var cur := c0 - Threads(pm, cs[..i]);
      Ranked(ParentsOf(cur)) &&
      (cur - Descendants(ParentsOf(cur), cs[i])) - {cs[i]} == c0 - Threads(pm, cs[..i + 1])
  {
    var pm := ParentsOf(c0);
    var T := Threads(pm, cs[..i]);
    var cur := c0 - T;
    ThreadsDownClosed(pm, cs[..i]);
    RemoveDownClosed(pm, T, cs[i]);
    ParentsOfRemove(c0, T);
    ThreadsSnoc(pm, cs[..i], cs[i]);
    assert cs[..i + 1] == cs[..i] + [cs[i]];
    assert Descendants(ParentsOf(cur), cs[i]) == Descendants(pm, cs[i]) - T;
  }

  /** After a story is deleted none of the comments of its threads is left,
      and every comment outside them is. */
  lemma DeletedStoryLeavesNoThread(comments: map<Id, Comment>, cs: seq<Id>)
    requires Ranked(ParentsOf(comments))
    ensures var after := comments - Threads(ParentsOf(comments), cs);
      (forall i :: 0 <= i < |cs| ==> cs[i] !in after && Descendants(ParentsOf(comments), cs[i]) !! after.Keys) &&
      (forall c :: c in comments && c !in Threads(ParentsOf(comments), cs) ==> c in after && after[c] == comments[c])
  {
    var pm := ParentsOf(comments);
    forall i | 0 <= i < |cs| ensures Descendants(pm, cs[i]) <= Threads(pm, cs) {
      SubtreesOfMemberAll(pm, cs, i);
    }
  }

  lemma SubtreesOfMemberAll(pm: ParentMap, cs: seq<Id>, i: nat)
    requires Ranked(pm) && i < |cs|
    ensures Descendants(pm, cs[i]) <= SubtreesOf(pm, cs)
  {
    forall d | d in Descendants(pm, cs[i]) ensures d in SubtreesOf(pm, cs) {
      SubtreesOfMember(pm, cs, d);
    }
  }
}
