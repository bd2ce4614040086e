/** The stored documents: comments, stories, notifications and users, with the
    defaults their schemas give a new record. */
module Models {
  import opened Base
  import opened CommentTree

  /** One element of a `likes` array. Two shapes occur: a bare user id (what
      the story handlers and the older handlers push) and a record with a
      `userId` and a time (what the comment like handler pushes). A record's
      `userId` can be missing. */
  datatype LikeEntry = LikedBy(id: Id) | LikeRecord(userId: Option<Id>, createdAt: int)

  /** A comment or a reply; a reply has a `parentCommentId`. */
  datatype Comment = Comment(
    userId: Id,
    username: string,
    name: string,
    content: string,
    parentCommentId: Option<Id>,
    replies: seq<Id>,
    likes: seq<LikeEntry>,
    createdAt: int)

  datatype Story = Story(
    userId: Id,
    username: string,
    name: string,
    content: string,
    isAnonymous: bool,
    likes: seq<LikeEntry>,
    comments: seq<Id>,
    createdAt: int,
    updatedAt: int)

  /** The values the notification schema allows for `type`. */
  datatype NotificationKind = CommentNotice | ReplyNotice | LikeNotice | ReminderNotice

  function KindName(k: NotificationKind): string {
    match k
    case CommentNotice => "comment"
    case ReplyNotice => "reply"
    case LikeNotice => "like"
    case ReminderNotice => "reminder"
  }

  /** Schema validation of `type`: only the four enumerated strings are accepted. */
  function ParseKind(s: string): (k: Option<NotificationKind>)
    ensures k.Some? ==> KindName(k.value) == s
  {
    if s == "comment" then Some(CommentNotice)
    else if s == "reply" then Some(ReplyNotice)
    else if s == "like" then Some(LikeNotice)
    else if s == "reminder" then Some(ReminderNotice)
    else None
  }

  /** A kind survives being written as its string and read back, and a string is
      accepted exactly when it names a kind. */
  lemma KindRoundTrip(k: NotificationKind, s: string)
    ensures ParseKind(KindName(k)) == Some(k)
    ensures ParseKind(s).Some? <==> s in {"comment", "reply", "like", "reminder"}
  {
  }

  datatype Notification = Notification(
    userId: Id,
    fromUserId: Id,
    fromUsername: string,
    kind: NotificationKind,
    message: Option<string>,
    storyId: Option<Id>,
    commentId: Option<Id>,
    read: bool,
    createdAt: int)

  /** A new notification: `message`, `storyId` and `commentId` are null and
      `read` is false unless given. */
  function NewNotification(userId: Id, fromUserId: Id, fromUsername: string,
                           kind: NotificationKind, now: int): (n: Notification)
    ensures n.message == None && n.storyId == None && n.commentId == None
    ensures !n.read && n.createdAt == now
  {
    Notification(userId, fromUserId, fromUsername, kind, None, None, None, false, now)
  }

  /** An entry of a user's `stories` list. */
  datatype StoryRef = StoryRef(id: Id, createdAt: int)

  datatype User = User(
    username: string,
    name: string,
    email: string,
    passwordHash: string,
    profilePicture: Option<string>,
    stories: seq<StoryRef>)

  /** The signed-in user a handler acts for (`request.auth.credentials`). */
  datatype Actor = Actor(id: Id, username: string, name: string)

  /** A new comment (a reply when `parent` is given): no replies, no likes. */
  function NewComment(author: Actor, content: string, parent: Option<Id>, now: int): (c: Comment)
    ensures c.replies == [] && c.likes == [] && c.parentCommentId == parent
    ensures c.userId == author.id && c.content == content && c.createdAt == now
  {
    Comment(author.id, author.username, author.name, content, parent, [], [], now)
  }

  /** The parent structure of the comment collection. */
  function ParentsOf(comments: map<Id, Comment>): (pm: ParentMap)
    ensures pm.Keys == comments.Keys
    ensures forall k :: k in pm ==> pm[k] == comments[k].parentCommentId
  {
    map k | k in comments :: comments[k].parentCommentId
  }

  /** The ids of `ids` that name a stored comment, in their listed order. */
  function Existing(comments: map<Id, Comment>, ids: seq<Id>): (r: seq<Id>)
    ensures |r| <= |ids|
    ensures forall x :: x in r <==> x in ids && x in comments
  {
    if ids == [] then []
    else if ids[0] in comments then [ids[0]] + Existing(comments, ids[1..])
    else Existing(comments, ids[1..])
  }

  /** Existing ids of a list with one more id at its end. */
  lemma {:induction false} ExistingSnoc(comments: map<Id, Comment>, ids: seq<Id>, x: Id)
    ensures Existing(comments, ids + [x]) == Existing(comments, ids) + (if x in comments then [x] else [])
  {
    if ids == [] {
      assert ids + [x] == [x];
    } else {
      assert (ids + [x])[1..] == ids[1..] + [x];
      ExistingSnoc(comments, ids[1..], x);
    }
  }

  lemma ParentsOfRemove(comments: map<Id, Comment>, S: set<Id>)
    ensures ParentsOf(comments - S) == ParentsOf(comments) - S
  {
  }

  lemma ParentsOfUpdate(comments: map<Id, Comment>, k: Id, c: Comment)
    requires k in comments && comments[k].parentCommentId == c.parentCommentId
    ensures ParentsOf(comments[k := c]) == ParentsOf(comments)
  {
  }

  lemma ParentsOfInsert(comments: map<Id, Comment>, k: Id, c: Comment)
    ensures ParentsOf(comments[k := c]) == ParentsOf(comments)[k := c.parentCommentId]
  {
  }

  // ----- creation-time keys, the `createdAt` sort keys of each collection -----

  function CommentCreatedAt(comments: map<Id, Comment>): (key: map<Id, int>)
    ensures key.Keys == comments.Keys
    ensures forall k :: k in key ==> key[k] == comments[k].createdAt
  {
    map k | k in comments :: comments[k].createdAt
  }

  function StoryCreatedAt(stories: map<Id, Story>): (key: map<Id, int>)
    ensures key.Keys == stories.Keys
    ensures forall k :: k in key ==> key[k] == stories[k].createdAt
  {
    map k | k in stories :: stories[k].createdAt
  }

  function NotificationCreatedAt(ns: map<Id, Notification>): (key: map<Id, int>)
    ensures key.Keys == ns.Keys
    ensures forall k :: k in key ==> key[k] == ns[k].createdAt
  {
    map k | k in ns :: ns[k].createdAt
  }
}
