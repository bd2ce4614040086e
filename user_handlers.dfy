/** The user handlers: the public profile with its stories, and the profile
    edit with its copy of a new username or name into the user's stories and
    comments. */
module UserHandlers {
  import opened Base
  import opened Models
  import opened Db
  import opened Ordering
  import opened Likes

  const UserNotFoundMsg := "User tidak ditemukan"
  const UsernameInUseMsg := "Username sudah digunakan"
  const NoChangeMsg := "Tidak ada perubahan data"
  const ProfileUpdatedMsg := "Profil berhasil diperbarui"

  // ----- the profile -----

  /** A story as the profile lists it. The older profile handler reports no
      `userLiked` flag, which is `None` here. */
  datatype ProfileStory = ProfileStory(id: Id, likeCount: nat, commentCount: nat, userLiked: Option<bool>)

  /** The profile: `email` is present only for the profile's owner. */
  datatype Profile = Profile(username: string, name: string, profilePicture: Option<string>,
                             stories: seq<ProfileStory>, email: Option<string>)

  /** The stories of `u` the profile shows: the ones not posted anonymously. */
  function PublicStoriesOf(stories: map<Id, Story>, u: Id): (r: set<Id>)
    ensures forall k :: k in r <==> k in stories && stories[k].userId == u && !stories[k].isAnonymous
  {
    set k | k in stories && stories[k].userId == u && !stories[k].isAnonymous
  }

  /** `Story.find({ userId: u, isAnonymous: false }).sort({ createdAt: -1 })`. */
  method NewestPublicStories(db: Store, u: Id) returns (r: seq<Id>)
    ensures |r| == |PublicStoriesOf(db.stories, u)| && Elements(r) == PublicStoriesOf(db.stories, u)
    ensures forall i, j :: 0 <= i < j < |r| ==> db.stories[r[i]].createdAt >= db.stories[r[j]].createdAt
  {
    var mine := Enumerate(PublicStoriesOf(db.stories, u));
    var key := StoryCreatedAt(db.stories);
    r := SortBy(mine, Negated(key));
    SortByElements(mine, Negated(key));
    NewestFirst(mine, key);
  }

  /** The `userLiked` test as `getUserProfileHandler` writes it: some entry
      whose `userId` is the requester. A bare id entry has no `userId`. */
  predicate UserLikedAsWritten(likes: seq<LikeEntry>, requester: Id) {
    RecordsLiked(likes, requester)
  }

  /** The `userLiked` test the profile evidently means: the requester is in
      the ledger, as a bare id (what the story like handler pushes) or as a
      record. */
  predicate UserLiked(likes: seq<LikeEntry>, requester: Id) {
    LikedBy(requester) in likes || RecordsLiked(likes, requester)
  }

  /** A story ledger built by the story like handler holds only bare ids, and
      on such a ledger the test as written never sees a like. */
  lemma {:induction false} AsWrittenMissesStoryLikes(likes: seq<LikeEntry>, u: Id)
    requires forall i :: 0 <= i < |likes| ==> likes[i].LikedBy?
    ensures var t := ToggleId(likes, u);
      (forall i :: 0 <= i < |t.likes| ==> t.likes[i].LikedBy?) && !UserLikedAsWritten(t.likes, u)
  {
    var t := ToggleId(likes, u);
    forall i | 0 <= i < |t.likes| ensures t.likes[i].LikedBy? {
      assert t.likes[i] in multiset(t.likes);
    }
  }

  /** A concrete story liked through the story like handler: the test as
      written reports it as not liked, the corrected test as liked. */
  lemma ProfileMissesLike()
    ensures var t := ToggleId([], 7);
      t.liked && !UserLikedAsWritten(t.likes, 7) && UserLiked(t.likes, 7)
  {
    var t := ToggleId([], 7);
    assert t.likes == [LikedBy(7)];
    assert t.likes[0] == LikedBy(7);
  }

  /** With the corrected test, the profile agrees with the story like handler:
      right after a toggle, `userLiked` is what the toggle reported, as long
      as the user appeared at most once and held no record. */
  lemma UserLikedAfterToggle(likes: seq<LikeEntry>, u: Id)
    requires multiset(likes)[LikedBy(u)] <= 1 && !RecordsLiked(likes, u)
    ensures UserLiked(ToggleId(likes, u).likes, u) == ToggleId(likes, u).liked
  {
    var t := ToggleId(likes, u);
    assert multiset(t.likes)[LikedBy(u)] == if t.liked then 1 else 0;
    assert LikedBy(u) in t.likes <==> LikedBy(u) in multiset(t.likes);
  }

  /** The profile entry of story `id`: its like and comment counts, and
      (`withLiked`) whether the requester likes it. */
  function ProfileEntry(s: Story, id: Id, requester: Id, withLiked: bool): (e: ProfileStory)
    ensures e.id == id && e.likeCount == |s.likes| && e.commentCount == |s.comments|
    ensures e.userLiked.Some? <==> withLiked
    ensures withLiked ==> (e.userLiked.value <==> UserLiked(s.likes, requester))
  {
    ProfileStory(id, |s.likes|, |s.comments|, if withLiked then Some(UserLiked(s.likes, requester)) else None)
  }

  function ProfileEntries(stories: map<Id, Story>, ids: seq<Id>, requester: Id, withLiked: bool)
      : (r: seq<ProfileStory>)
    requires forall i :: 0 <= i < |ids| ==> ids[i] in stories
    ensures |r| == |ids|
    ensures forall i :: 0 <= i < |ids| ==> r[i] == ProfileEntry(stories[ids[i]], ids[i], requester, withLiked)
  {
    seq(|ids|, i requires 0 <= i < |ids| => ProfileEntry(stories[ids[i]], ids[i], requester, withLiked))
  }

  /** `p` is the profile of user `u`, seen by `requester`: its stories are the
      public stories of `u`, each once, newest first, with their counts. */
  ghost predicate ProfileOf(users: map<Id, User>, stories: map<Id, Story>, u: Id, requester: Id,
                            withLiked: bool, p: Profile)
    requires u in users
  {
    var user := users[u];
    p.username == user.username && p.name == user.name && p.profilePicture == user.profilePicture &&
    (p.email.Some? <==> u == requester) && (p.email.Some? ==> p.email.value == user.email) &&
    |p.stories| == |PublicStoriesOf(stories, u)| &&
    (forall i :: 0 <= i < |p.stories| ==>
      var id := p.stories[i].id;
      id in PublicStoriesOf(stories, u) &&
      p.stories[i] == ProfileEntry(stories[id], id, requester, withLiked)) &&
    (forall k :: k in PublicStoriesOf(stories, u) ==> exists i :: 0 <= i < |p.stories| && p.stories[i].id == k) &&
    (forall i, j :: 0 <= i < j < |p.stories| ==>
      stories[p.stories[i].id].createdAt >= stories[p.stories[j].id].createdAt)
  }

  /** The profile of `u` for `requester`, built from `NewestPublicStories`. */
  method ProfileFor(db: Store, u: Id, requester: Id, withLiked: bool) returns (p: Profile)
    requires u in db.users
    ensures ProfileOf(db.users, db.stories, u, requester, withLiked, p)
  {
    var ids := NewestPublicStories(db, u);
    var user := db.users[u];
    assert forall i :: 0 <= i < |ids| ==> ids[i] in Elements(ids);
    var entries := ProfileEntries(db.stories, ids, requester, withLiked);
    p := Profile(user.username, user.name, user.profilePicture, entries,
                 if u == requester then Some(user.email) else None);
    forall k | k in PublicStoriesOf(db.stories, u)
      ensures exists i :: 0 <= i < |p.stories| && p.stories[i].id == k
    {
      assert k in Elements(ids);
      var i :| 0 <= i < |ids| && ids[i] == k;
      assert p.stories[i].id == k;
    }
  }

  /** `getUserProfileHandler` (with `userLiked`) and, for `withLiked == false`,
      the older handler that reports only the counts. */
  method GetUserProfile(db: Store, username: string, requester: Id, withLiked: bool)
      returns (r: Outcome<Profile>)
    ensures r.Rejected? <==> forall k :: k in db.users ==> db.users[k].username != username
    ensures r.Rejected? ==> r == Rejected(NotFound, UserNotFoundMsg)
    ensures r.Done? ==>
      exists u :: u in db.users && db.users[u].username == username &&
        ProfileOf(db.users, db.stories, u, requester, withLiked, r.value)
  {
    var found := FindByUsername(db.users, username);
    if found.None? {
      return Rejected(NotFound, UserNotFoundMsg);
    }
    var p := ProfileFor(db, found.value, requester, withLiked);
    r := Done(p);
  }

  // ----- the profile edit -----

  /** The fields `editProfileHandler` stages in `updates`. */
  datatype Updates = Updates(username: Option<string>, name: Option<string>, profilePicture: Field<Option<string>>)

  /** A username is staged when given, non-empty and different from the
      current one; a name when non-empty; a picture whenever the payload has
      the field, even when it is null. */
  function Stage(user: User, username: Option<string>, name: Option<string>,
                 picture: Field<Option<string>>): (up: Updates)
    ensures up.username.Some? <==> Truthy(username) && username.value != user.username
    ensures up.username.Some? ==> up.username == username
    ensures up.name.Some? <==> Truthy(name)
    ensures up.name.Some? ==> up.name == name
    ensures up.profilePicture == picture
  {
    Updates(if Truthy(username) && username.value != user.username then username else None,
            if Truthy(name) then name else None,
            picture)
  }

  predicate NothingStaged(up: Updates) {
    up.username.None? && up.name.None? && up.profilePicture.Absent?
  }

  function OrElse(v: Option<string>, d: string): string {
    if v.Some? then v.value else d
  }

  /** The user record after `findByIdAndUpdate(userId, updates)`. */
  function Updated(user: User, up: Updates): (r: User)
    ensures r.username == OrElse(up.username, user.username) && r.name == OrElse(up.name, user.name)
    ensures up.profilePicture.Present? ==> r.profilePicture == up.profilePicture.value
    ensures up.profilePicture.Absent? ==> r.profilePicture == user.profilePicture
    ensures r.email == user.email && r.passwordHash == user.passwordHash && r.stories == user.stories
  {
    user.(username := OrElse(up.username, user.username), name := OrElse(up.name, user.name),
          profilePicture := if up.profilePicture.Present? then up.profilePicture.value else user.profilePicture)
  }

  /** `Story.updateMany({ userId: u, isAnonymous: false }, ...)` for a new
      username and for a new name; each update also refreshes `updatedAt`. */
  function StoriesRelabelled(stories: map<Id, Story>, u: Id, up: Updates, now: int): (r: map<Id, Story>)
    ensures r.Keys == stories.Keys
    ensures forall k :: k in stories ==> r[k].comments == stories[k].comments
    ensures forall k :: k in stories && (stories[k].userId != u || stories[k].isAnonymous) ==> r[k] == stories[k]
    ensures forall k :: k in stories && stories[k].userId == u && !stories[k].isAnonymous ==>
      r[k].username == OrElse(up.username, stories[k].username) &&
      r[k].name == OrElse(up.name, stories[k].name) &&
      r[k].content == stories[k].content && r[k].likes == stories[k].likes
  {
    map k | k in stories ::
      if stories[k].userId == u && !stories[k].isAnonymous && (up.username.Some? || up.name.Some?) then
        stories[k].(username := OrElse(up.username, stories[k].username),
                    name := OrElse(up.name, stories[k].name), updatedAt := now)
      else stories[k]
  }

  /** `Comment.updateMany({ userId: u }, ...)` for a new username and name. */
  function CommentsRelabelled(comments: map<Id, Comment>, u: Id, up: Updates): (r: map<Id, Comment>)
    ensures r.Keys == comments.Keys
    ensures forall k :: k in comments ==> r[k].parentCommentId == comments[k].parentCommentId
    ensures forall k :: k in comments && comments[k].userId != u ==> r[k] == comments[k]
    ensures forall k :: k in comments && comments[k].userId == u ==>
      r[k] == comments[k].(username := OrElse(up.username, comments[k].username),
                           name := OrElse(up.name, comments[k].name))
  {
    map k | k in comments ::
      if comments[k].userId == u then
        comments[k].(username := OrElse(up.username, comments[k].username),
                     name := OrElse(up.name, comments[k].name))
      else comments[k]
  }

  /** After an edit every comment and every public story of the user shows
      the user's current username and name, provided they did before. */
  lemma RelabelKeepsAuthorship(users: map<Id, User>, stories: map<Id, Story>, comments: map<Id, Comment>,
                               u: Id, up: Updates, now: int)
    requires u in users
    requires forall k :: k in stories && stories[k].userId == u && !stories[k].isAnonymous ==>
      stories[k].username == users[u].username && stories[k].name == users[u].name
    requires forall k :: k in comments && comments[k].userId == u ==>
      comments[k].username == users[u].username && comments[k].name == users[u].name
    ensures var user := Updated(users[u], up);
      var ss := StoriesRelabelled(stories, u, up, now);
      var cs := CommentsRelabelled(comments, u, up);
      (forall k :: k in ss && ss[k].userId == u && !ss[k].isAnonymous ==>
        ss[k].username == user.username && ss[k].name == user.name) &&
      (forall k :: k in cs && cs[k].userId == u ==> cs[k].username == user.username && cs[k].name == user.name)
  {
  }

  /** What the edit answers with: whether anything changed, and the user's
      username, name, picture and email afterwards. */
  datatype ProfileEdit = ProfileEdit(changed: bool, username: string, name: string,
                                     profilePicture: Option<string>, email: string)

  /** The saves of a non-empty edit. */
  method ApplyUpdates(db: Store, u: Id, up: Updates, now: int)
    requires db.Valid() && u in db.users
    modifies db
    ensures db.Valid()
    ensures db.users == old(db.users)[u := Updated(old(db.users)[u], up)]
    ensures up.username.Some? || up.name.Some? ==>
      db.stories == StoriesRelabelled(old(db.stories), u, up, now) &&
      db.comments == CommentsRelabelled(old(db.comments), u, up)
    ensures up.username.None? && up.name.None? ==>
      db.stories == old(db.stories) && db.comments == old(db.comments)
    ensures db.notifications == old(db.notifications) && db.nextId == old(db.nextId)
  {
    var us := db.users[u := Updated(db.users[u], up)];
    var ss, cs := db.stories, db.comments;
    if up.username.Some? || up.name.Some? {
      ss, cs := StoriesRelabelled(db.stories, u, up, now), CommentsRelabelled(db.comments, u, up);
    }
    CoherentRelabel(db.comments, db.stories, db.nextId, cs, ss);
    FitsAfter(db.comments, db.stories, db.notifications, db.users, db.nextId,
              cs, ss, db.notifications, us, db.nextId);
    db.Commit(cs, ss, db.notifications, us, db.nextId);
  }

  /** `editProfileHandler`. */
  method EditProfile(db: Store, u: Id, username: Option<string>, name: Option<string>,
                     picture: Field<Option<string>>, now: int) returns (r: Outcome<ProfileEdit>)
    requires db.Valid()
    modifies db
    ensures db.Valid()
    ensures u !in old(db.users) <==> r == Rejected(NotFound, UserNotFoundMsg)
    ensures u in old(db.users) ==>
      (r == Rejected(BadRequest, UsernameInUseMsg) <==>
        Truthy(username) && username.value != old(db.users)[u].username &&
        exists k :: k in old(db.users) && old(db.users)[k].username == username.value)
    ensures u in old(db.users) ==> r.Done? || r == Rejected(BadRequest, UsernameInUseMsg)
    ensures r.Rejected? ==> unchanged(db)
    ensures r.Done? ==>
      u in old(db.users) &&
      var user := old(db.users)[u];
      var up := Stage(user, username, name, picture);
      (NothingStaged(up) ==>
        unchanged(db) && r.value == ProfileEdit(false, user.username, user.name, user.profilePicture, user.email)) &&
      (!NothingStaged(up) ==>
        var after := Updated(user, up);
        db.users == old(db.users)[u := after] &&
        r.value == ProfileEdit(true, after.username, after.name, after.profilePicture, after.email) &&
        (up.username.Some? || up.name.Some? ==>
          db.stories == StoriesRelabelled(old(db.stories), u, up, now) &&
          db.comments == CommentsRelabelled(old(db.comments), u, up)) &&
        (up.username.None? && up.name.None? ==>
          db.stories == old(db.stories) && db.comments == old(db.comments)) &&
        db.notifications == old(db.notifications) && db.nextId == old(db.nextId))
  {
    if u !in db.users {
      return Rejected(NotFound, UserNotFoundMsg);
    }
    var user := db.users[u];
    if Truthy(username) && username.value != user.username {
      var clash := FindByUsername(db.users, username.value);
      if clash.Some? {
        return Rejected(BadRequest, UsernameInUseMsg);
      }
    }
    var up := Stage(user, username, name, picture);
    if NothingStaged(up) {
      return Done(ProfileEdit(false, user.username, user.name, user.profilePicture, user.email));
    }
    ApplyUpdates(db, u, up, now);
    var after := Updated(user, up);
    r := Done(ProfileEdit(true, after.username, after.name, after.profilePicture, after.email));
  }
}
