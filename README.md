# MindBlown backend core, modelled in Dafny

MindBlown is a mental-health journaling service. Users post stories, which can be anonymous. They comment on stories in threads of replies and like stories and comments. They get notifications when someone comments on their story or replies to their comment. A chatbot is reached over a WebSocket, and a daily job reminds users who have not filled in their mind tracker. This project models the backend's core in Dafny and proves it correct:

- the threaded story/comment store with its recursive helpers;
- the comment, story, notification, profile and authentication handlers;
- the chatbot relay's session and rate-limit bookkeeping;
- the reminder loop;
- the older copies of the handlers in the monolithic `src/handler.js`.

The document store is one object, `Db.Store`, holding four finite maps:

- comments;
- stories;
- notifications;
- users.

It also holds the counter that hands out fresh ids.

A Mongo filter such as `find({ parentCommentId: x })` becomes a set comprehension over the map. `$push`, `$pull`, `deleteMany` and `updateMany` become updates of the maps. A query result's order is the order of a cursor: `Db.Enumerate` returns a sequence without repeats whose elements are exactly the matching ids, and the proofs hold for every such order. `findOne` is a `:|` choice among the matching documents.

Every handler keeps the store valid (`Db.Store.Valid`):

- every id in use is below the counter;
- a comment's parent has a smaller id than the comment, because a reply is only ever created under an existing comment. This ranking is the termination measure of the recursive reply helpers;
- a story lists only comments created before the counter;
- the comments a story lists that still exist are top-level.

The theory of the reply tree lives in `CommentTree`, over the map from comment id to parent id. It covers:

- ancestors;
- descendants (`Descendants`);
- down-closed sets;
- threads;
- the breadth-first levels below a set of roots.

Likes come in two ledger shapes, and `Models.LikeEntry` covers both. The schema (`src/models/story.js`) declares `likes` as arrays of user ids. The story like handlers and the older comment like handler push bare ids (`LikedBy`). The current comment like handler, the comment detail and the profile treat entries as `{userId, createdAt}` records (`LikeRecord`), and the record's `userId` may be missing.

Modules:

- **Base**: JavaScript truthiness, white space and `trim`, sequences without repeats, `$pull`, the 4xx statuses, and `Outcome` (a value or a status with a message).
- **Models**: the records and their defaults (`src/models/story.js`, `src/models/notification.js`).
- **CommentTree**: the reply tree.
- **Db**: the store, its invariant and its lookups.
- **Ordering**: the stable `sort` by a key, used for `createdAt` orders.
- **Likes**: both like toggles.
- **CommentHelpers**: `deleteAllReplies` and `countAllReplies`.
- **CommentHandlers**: commenting, replying, comment likes, comment deletion.
- **CommentDetail**: the comment detail view.
- **StoryHandlers**: creating, editing, liking and deleting stories.
- **StoryViews**: the story list and the story detail with its reply tree.
- **NotificationHandlers**: the notification handlers.
- **UserHandlers**: the profile view and the profile edit.
- **AuthHandlers**: registration and login.
- **Chatbot**: the WebSocket relay.
- **Scheduler**: the daily reminders.
- **LegacyHandlers**: the older comment handlers that differ from the current ones.

Inputs the handlers cannot compute are given to them as parameters:

- the clock (`now`);
- fresh uuids;
- the bcrypt hash and the bcrypt comparison;
- the outcome of the chatbot service call;
- whether a user has submitted today's mind tracker.

Where the code and its design disagree, the model follows the code:

- The schema declares every `likes` as an id array, but the current comment handlers use records. Both shapes are modelled.
- Registration checks the `preferences` field, but the user schema has no such field. So preferences are not stored, and the answer carries no preferences (`AuthHandlers.Registered`).
- The story detail handler counts replies per comment in a loop whose result is never used. The model leaves that loop out.

The older handlers of `src/handler.js` are modelled as follows.

- Most are the same code as a current handler, and that handler's member models them too:
  - login (`src/handler.js:79-149`): `AuthHandlers.Login`;
  - profile edit (`:202-298`): `UserHandlers.EditProfile`;
  - story creation (`:409-458`): `StoryHandlers.CreateStory`;
  - story edit (`:460-505`): `StoryHandlers.EditStory`;
  - story deletion (`:507-553`): `StoryHandlers.DeleteStory`. It pulls the story by the route id, which is the same id;
  - story list (`:555-616`): `StoryViews.GetStories`;
  - story like (`:618-651`): `StoryHandlers.LikeStory`;
  - comment deletion (`:793-840`): `CommentHandlers.DeleteComment`;
  - the cascade (`:842-850`): `CommentHelpers.DeleteAllReplies`;
  - the count (`:953-962`): `CommentHelpers.CountAllReplies`;
  - the story detail (`:852-951`): `StoryViews.GetStoryDetail`.
- Two differ only by a switch:
  - the older registration (`:8-77`) is `AuthHandlers.Register` without the preference check (`withPreferences` false);
  - the older profile (`:151-200`) is `UserHandlers.GetUserProfile` without `userLiked` (`withLiked` false).
- The comment, reply and comment like handlers differ in more than that, and get their own members in `LegacyHandlers`.

## Model

| member | source | states |
|---|---|---|
| Models.KindRoundTrip | src/models/notification.js:18-22 | a notification kind's name reads back as that kind, and exactly the four names comment, reply, like and reminder are kinds |
| Models.ParseKind | src/models/notification.js:18-22 | a string the schema accepts as a kind is the name of that kind |
| Models.NewNotification | src/models/notification.js:3-45 | a new notification carries no message, story or comment, is unread, and is stamped with its creation time |
| Models.NewComment | src/models/story.js:3-37 | a new comment has no replies and no likes, the given parent (none for a top-level comment), its author and content, and its creation time |
| StoryHandlers.NewStory | src/models/story.js:39-75 | a new story has no likes and no comments and is created and updated now; an anonymous story shows the author as Anonim / Pengguna, any other the author's username and name |
| Base.TrimStart | src/handlers/comment-handlers.js:20 | the result is a suffix of the input, starts with no white space, and everything cut off is white space |
| Base.TrimEnd | src/handlers/comment-handlers.js:20 | the result is a prefix of the input, ends with no white space, and everything cut off is white space |
| Base.Trim | src/handlers/chat-bot-handlers.js:100 | `trim()`: leading white space removed as `Base.TrimStart` states, then trailing white space as `Base.TrimEnd` states |
| Base.TrimEmptyIffBlank | src/handlers/comment-handlers.js:20-25 | `trim()` yields the empty string exactly when every character is JavaScript white space |
| Base.Pull | src/handlers/comment-handlers.js:372-381 | `$pull` of an id removes every copy of it and keeps every other entry as often as it occurred |
| Base.PullConcat | src/handlers/comment-handlers.js:372-381 | `$pull` goes entry by entry, so the entries it keeps stay in their order |
| Db.FindByUsernameOrEmail | src/handlers/auth-handlers.js:46-51 | the `$or` lookup finds a user exactly when some user has that username or that email, and what it finds matches one of them |
| Db.FindByUsername | src/handlers/user-handlers.js:9-16 | the lookup finds a user exactly when some user has that username |
| Db.Enumerate | src/services/scheduler.js:26 | a query's result lists every matching document exactly once |
| CommentTree.AncestorIsSmaller | src/handlers/comment-handlers.js:106-122 | since a reply is created under an existing comment, every ancestor of a comment has a smaller id |
| CommentTree.AncestorsAreLinear | src/models/story.js:18-21 | a comment has a single parent, so any two of its ancestors lie on one chain |
| CommentTree.DescendantStep | src/utils/comment-helpers.js:13-22 | a comment's descendants are exactly its direct replies and the descendants of those |
| CommentTree.LeafHasNoDescendants | src/utils/comment-helpers.js:14-15 | a comment without direct replies has no descendants |
| CommentTree.SiblingSubtreesDisjoint | src/utils/comment-helpers.js:17-19 | the subtrees below two different replies of one comment do not meet, so their counts add up |
| CommentTree.CountDecomposition | src/utils/comment-helpers.js:13-22 | the number of direct replies plus the subtree sizes below each of them is the number of descendants |
| CommentTree.RemoveDownClosed | src/utils/comment-helpers.js:6-8 | deleting a set closed under replies removes exactly that set from every remaining subtree |
| CommentTree.DeleteDescendantsIdempotent | src/utils/comment-helpers.js:3-11 | once a comment's descendants are gone it has no replies and no descendants left |
| CommentTree.DeleteDecomposition | src/utils/comment-helpers.js:6-10 | the descendants are the subtrees below the direct replies together with the direct replies |
| CommentTree.ThreadsSnoc | src/handlers/story-handlers.js:125-128 | the threads of one more listed comment add that comment and its descendants |
| CommentTree.LevelsComplete | src/handlers/story-handlers.js:277-297 | at the first empty level, the levels gathered so far are every comment below the roots |
| CommentTree.LevelsDisjoint | src/handlers/story-handlers.js:277-297 | with top-level roots no comment sits on two levels, so no reply is gathered twice |
| CommentTree.AncestorInUnion | src/handlers/story-handlers.js:277-297 | a comment is below the set of roots exactly when it is a descendant of one of them |
| CommentTree.DescendantsOfRoots | src/handlers/story-handlers.js:273-299 | searching below a story's comments finds the union of their subtrees |
| CommentTree.SubtreeSizesOfRoots | src/handlers/story-handlers.js:160-175 | top-level comments listed once have disjoint subtrees whose sizes add up to the size of the union |
| CommentTree.RootSubtreesDisjoint | src/handlers/story-handlers.js:160-175 | two different top-level comments have disjoint subtrees |
| CommentTree.RootsOutsideSubtrees | src/handlers/story-handlers.js:329 | a story's top-level comments lie outside the subtrees below them, so the detail's two counts are disjoint |
| CommentHelpers.FindReplies | src/utils/comment-helpers.js:4 | `find({ parentCommentId })` lists each direct reply exactly once |
| CommentHelpers.CountAllReplies | src/utils/comment-helpers.js:13-22 | the count is the number of strict descendants, and the store is only read |
| CommentHelpers.DeleteAllReplies | src/utils/comment-helpers.js:3-11 | exactly the strict descendants are deleted; the comment itself, every other comment and every other collection are unchanged |
| CommentHelpers.DeleteStep | src/utils/comment-helpers.js:6-8 | each recursive call, made on the partly deleted store, removes exactly the next reply's subtree |
| CommentHelpers.DeleteLast | src/utils/comment-helpers.js:10 | the final `deleteMany` removes the direct replies and completes the cascade |
| CommentHelpers.DeleteAllRepliesIdempotent | src/utils/comment-helpers.js:3-11 | after the cascade a second call finds no reply to delete |
| CommentHelpers.DeletedCountMatches | src/utils/comment-helpers.js:3-22 | the cascade removes exactly as many comments as the count taken beforehand |
| Likes.IndexOf | src/handlers/story-handlers.js:228 | `indexOf` is -1 exactly when the id is absent, else the position of its first occurrence |
| Likes.RemoveAt | src/handlers/story-handlers.js:232 | `splice(index, 1)` removes exactly the entry at that position: the entries before it stay at their index, the ones after it move down by one, so the others keep their order |
| Likes.ToggleId | src/handlers/story-handlers.js:228-234 | the like is added (appended) exactly when the id was absent; otherwise the result is the array with its first occurrence of the id (`indexOf`) spliced out, every other entry in its order; the length moves by one and every other entry keeps its multiplicity |
| Likes.ToggleIdTwice | src/handlers/story-handlers.js:228-234 | for a user liked at most once, two toggles restore the ledger's contents (and the exact list when the user had not liked), and report opposite results |
| Likes.ToggleIdKeepsSingle | src/handlers/story-handlers.js:228-234 | a toggle never makes any user appear twice |
| Likes.Sanitize | src/handlers/comment-handlers.js:302 | the filter keeps exactly the entries that name a user |
| Likes.SanitizeIdempotent | src/handlers/comment-handlers.js:322-323 | filtering a ledger that only holds named records changes nothing |
| Likes.LikerIdsSanitize | src/handlers/comment-handlers.js:302 | the filter keeps the multiset of users who like the comment |
| Likes.FindByUser | src/handlers/comment-handlers.js:304-306 | `findIndex` is -1 exactly when no record names the user, else the first such record |
| Likes.RecordsLiked | src/handlers/comment-handlers.js:224-226 | `userLiked` of a record ledger: some entry names the user, exactly when `findIndex` for the user finds one (`Likes.FindByUser`) |
| Likes.RecordsLikedSanitize | src/handlers/comment-handlers.js:302-306 | the filter never changes whether a record names the user |
| Likes.ToggleRecord | src/handlers/comment-handlers.js:302-318 | the result is liked exactly when no record named the user; a like is the filtered ledger with `{userId: u, createdAt: now}` appended, an unlike is the filtered ledger with the user's first record (`findIndex`) spliced out, every other record keeping its `createdAt` and its order; only named records remain |
| Likes.ToggleRecordLikers | src/handlers/comment-handlers.js:309-318 | a like adds one record for the user, an unlike removes one, and every other user keeps its multiplicity |
| Likes.ToggleRecordTwice | src/handlers/comment-handlers.js:302-318 | for a user recorded at most once, two toggles restore the users of the filtered ledger |
| Ordering.SortByPermutes | src/handlers/story-handlers.js:154-156 | sorting is a permutation |
| Ordering.SortBy | src/handlers/story-handlers.js:154-156 | the result is as long as the input and holds only keyed ids; its order by the key is `Ordering.SortBySorted`, its permutation `Ordering.SortByPermutes` |
| Ordering.SortByElements | src/handlers/story-handlers.js:154-156 | sorting keeps exactly the same ids |
| Ordering.SortBySorted | src/handlers/story-handlers.js:154-156 | the sorted list is ordered by the key |
| Ordering.SortIdempotent | src/handlers/story-handlers.js:154-156 | sorting a sorted list changes nothing |
| Ordering.NewestFirst | src/handlers/notification-handlers.js:7-9 | sorting by the negated key (`createdAt: -1`) gives a newest-first order |
| CommentHandlers.BlankContentMeaning | src/handlers/comment-handlers.js:20-25 | comment content is refused exactly when it is missing, empty or all white space |
| CommentHandlers.CommentNotification | src/handlers/comment-handlers.js:50-60 | the notification is of kind comment, addressed to the story owner, from the commenter, naming the story and the comment, unread |
| CommentHandlers.SaveComment | src/handlers/comment-handlers.js:35-60 | the comment is saved under a fresh id and appended to the story, which is stamped; a comment notification follows under the next id exactly when the commenter is not the owner |
| CommentHandlers.ReplyNotification | src/handlers/comment-handlers.js:136-146 | the notification is of kind reply, addressed to the parent's author, from the replier, naming the reply and the story found, unread |
| CommentHandlers.CommentStory | src/handlers/comment-handlers.js:6-91 | 400 for a missing or 'undefined' story id, then 400 for blank content, then 404 for a missing story, each without change; otherwise the comment always succeeds (201): it is saved under a fresh id and appended to the story's comments, `commentCount` is the old length plus one, and exactly one comment notification is saved when the commenter is not the owner |
| CommentHandlers.CommentStoryAsWritten | src/handlers/comment-handlers.js:4-91 | as written, a comment on someone else's story makes every save, comment, story and notification, and then answers 500, because the push helper is not exported; only a comment on one's own story is answered with success |
| CommentHandlers.FindStoryListing | src/handlers/comment-handlers.js:127-128 | `Story.findOne({ comments })` finds a story exactly when some story lists the comment |
| CommentHandlers.FindReplyStory | src/handlers/comment-handlers.js:127-134 | the story named is one listing the parent, else one listing the existing grandparent, else none |
| CommentHandlers.SaveReply | src/handlers/comment-handlers.js:114-146 | the reply is saved under a fresh id with its parent and appended to the parent's replies; a reply notification naming a story found for the parent follows under the next id exactly when the replier is not the parent's author |
| CommentHandlers.ReplyComment | src/handlers/comment-handlers.js:93-167 | 400 for falsy content (white space passes), 404 for a missing parent, both without change; otherwise the reply always succeeds (201): it has the parent as `parentCommentId` and is appended to the parent's replies, and one reply notification naming the resolved story is saved exactly when the replier is not the parent's author |
| CommentHandlers.ReplyCommentAsWritten | src/handlers/comment-handlers.js:93-167 | as written, a reply to someone else's comment makes every save, reply, parent and notification, and then answers 500, because the push helper is not exported; only a reply to one's own comment is answered with success |
| CommentHandlers.LikeComment | src/handlers/comment-handlers.js:289-349 | 404 without change exactly for a missing comment; an existing comment is always liked or unliked: the comment's ledger becomes the record toggle, and `userLiked`, `likeCount` and the likes listed are the toggle's |
| CommentHandlers.DetachFromParent | src/handlers/comment-handlers.js:372-376 | pulling a reply from its parent keeps every comment and every parent link |
| CommentHandlers.Detach | src/handlers/comment-handlers.js:372-381 | a reply is pulled from its parent's replies; a top-level comment from the story listing it, if any |
| CommentHandlers.DeleteComment | src/handlers/comment-handlers.js:351-398 | 404 for a missing comment and 403 for anyone but the author, both without change; the author's deletion of an existing comment always succeeds: the comment is detached, and it and all its descendants are deleted, and nothing else |
| CommentHandlers.DeletedThreadGone | src/handlers/comment-handlers.js:383-385 | after a deletion no surviving comment lies below the deleted one, and the store shrank by the earlier reply count plus one |
| CommentDetail.Populate | src/handlers/comment-handlers.js:181-205 | populating a `replies` list keeps only ids naming a comment |
| CommentDetail.PopulateElements | src/handlers/comment-handlers.js:181-205 | the populated list holds exactly the listed ids that name a comment |
| CommentDetail.PopulateSorted | src/handlers/comment-handlers.js:198-204 | the populated list is oldest first |
| CommentDetail.Picture | src/handlers/comment-handlers.js:241 | a picture is shown only when the author exists and has a non-empty picture; the corrected view shows none for an author who is not a user, where the code as written fails (`CommentDetail.AuthorMissingFails`) |
| CommentDetail.RenderAsWritten | src/handlers/comment-handlers.js:228-273 | `formatReplies` and the detail as written: whatever it formats is the comment asked for; it gives nothing (the 500) for a populated author who is not a user (`CommentDetail.AuthorMissingFails`) and for a bottom-level reply that lists replies (`CommentDetail.LevelThreeFails`) |
| CommentDetail.AuthorMissingFails | src/handlers/comment-handlers.js:236-241 | within the populated depth, a comment whose author is not a user cannot be formatted as written (`null._id`) |
| CommentDetail.Render | src/handlers/comment-handlers.js:228-273 | the corrected formatting: the view is of the comment asked for |
| CommentDetail.RenderList | src/handlers/comment-handlers.js:229 | the formatted replies are the ones given, in the given order |
| CommentDetail.RenderLikes | src/handlers/comment-handlers.js:224-232 | `likeCount` is the number of ledger entries, and `userLiked` holds exactly when some record names the viewer |
| CommentDetail.RenderReplies | src/handlers/comment-handlers.js:242-246 | within the populated depth the replies shown are exactly the listed replies that exist, and `repliesCount` is their number |
| CommentDetail.RenderRepliesOrdered | src/handlers/comment-handlers.js:198-204 | within the populated depth the replies are shown oldest first |
| CommentDetail.RenderBottom | src/handlers/comment-handlers.js:196-199 | a reply at the populated depth is shown without replies and picture, and counts the ids it lists |
| CommentDetail.AllSomeMeaning | src/handlers/comment-handlers.js:229 | the mapped list succeeds exactly when every reply is formatted |
| CommentDetail.RenderAgrees | src/handlers/comment-handlers.js:228-251 | wherever the formatting as written succeeds it gives the corrected view |
| CommentDetail.RepliesAgree | src/handlers/comment-handlers.js:242 | where the formatting as written succeeds its replies are the corrected ones |
| CommentDetail.ListsAgree | src/handlers/comment-handlers.js:229 | where every reply is formatted as written, the list is the corrected one |
| CommentDetail.FailsUpward | src/handlers/comment-handlers.js:242 | a reply whose formatting fails makes every comment above it fail |
| CommentDetail.LevelThreeFails | src/handlers/comment-handlers.js:196-199 | a reply at the populated depth that lists replies cannot be formatted as written |
| CommentDetail.SecondLevelFails | src/handlers/comment-handlers.js:181-205 | as written, the level-1 reply fails when two levels below it a reply lists replies |
| CommentDetail.DeepReplyFails | src/handlers/comment-handlers.js:181-251 | as written, a comment's detail fails whenever a reply three levels below it lists replies |
| CommentDetail.DeepThread | src/handlers/comment-handlers.js:181-251 | a chain of five comments, each replying to the one before, is a store in which that failure happens |
| CommentDetail.GetCommentDetail | src/handlers/comment-handlers.js:169-287 | 400 for a missing or 'undefined' id, 404 for a missing comment; an existing comment's detail always succeeds, with the corrected view from the comment down, and the story listing the parent (for a reply) or the comment (for a top-level one) |
| StoryHandlers.RecordStory | src/handlers/story-handlers.js:28-41 | only a public story is added to its author's stories; every other user is unchanged |
| StoryHandlers.CreateStory | src/handlers/story-handlers.js:6-55 | 400 without change exactly for falsy content; truthy content always succeeds: the new story is saved under a fresh id and recorded with its author |
| StoryHandlers.EditStory | src/handlers/story-handlers.js:57-102 | 400 for falsy content, 404 for a missing story, 403 for anyone but the author, each without change; the author's edit with truthy content always succeeds, and only the content and the update time change |
| StoryHandlers.LikeStory | src/handlers/story-handlers.js:215-248 | 404 without change exactly for a missing story; a like on an existing story always succeeds: the likes become the id toggle, the message says whether it was a like, and `likeCount` is the new length |
| StoryHandlers.PullStoryRef | src/handlers/story-handlers.js:130-135 | `$pull: { stories: { _id } }` drops exactly the entries for that story and keeps every other entry as often as it occurred |
| StoryHandlers.PullStoryRefConcat | src/handlers/story-handlers.js:130-135 | the pull goes entry by entry, so the entries it keeps stay in their order |
| StoryHandlers.ForgetStory | src/handlers/story-handlers.js:130-135 | only a public story's entries leave its owner's stories; every other user is unchanged |
| StoryHandlers.RecordThenForget | src/handlers/story-handlers.js:28-41 | deleting a story just created leaves every user's stories as they were |
| StoryHandlers.DeleteStory | src/handlers/story-handlers.js:104-150 | 404 for a missing story and 403 for anyone but the author, both without change; the author's deletion always succeeds: every listed comment and every reply below them is deleted, the story goes, and the owner's entry is pulled for a public story |
| StoryHandlers.ThreadStep | src/handlers/story-handlers.js:125-128 | each turn of the loop removes exactly the next listed comment's thread from the partly deleted store |
| StoryHandlers.DeletedStoryLeavesNoThread | src/handlers/story-handlers.js:125-137 | after a story is deleted none of its comments or their replies is left, and every other comment is untouched |
| StoryViews.Summarize | src/handlers/story-handlers.js:160-198 | a story's summary has its like count and its listed-comment count, the listed comments that exist with their reply counts, and a total of the listed count plus the replies below the existing ones |
| StoryViews.NewestStories | src/handlers/story-handlers.js:154-156 | every story exactly once, newest first |
| StoryViews.SummarizeAll | src/handlers/story-handlers.js:177-180 | one correct summary per story, in the order given |
| StoryViews.GetStories | src/handlers/story-handlers.js:152-213 | the list summarizes every story exactly once, newest first |
| StoryViews.CollectStep | src/handlers/story-handlers.js:288-296 | each level joins the gathered replies without repeating one |
| StoryViews.CollectEnd | src/handlers/story-handlers.js:299 | at the first empty level, the direct replies together with the nested ones are every comment below the roots, each once |
| StoryViews.CollectReplies | src/handlers/story-handlers.js:273-299 | the level-by-level loop gathers every comment below the story's comments exactly once |
| StoryViews.AttachReplies | src/handlers/story-handlers.js:309-325 | each node's list is exactly its replies among the gathered ones, in gathering order (`StoryViews.RepliesIn`), listed once each: exactly its gathered children |
| StoryViews.RepliesIn | src/handlers/story-handlers.js:320-325 | the replies of a node in the order of the gathered list, never more than that list |
| StoryViews.RepliesInChildren | src/handlers/story-handlers.js:320-325 | from a gathered list without repeats, a node's replies are listed once each and are exactly its gathered children |
| StoryViews.LikeCounts | src/handlers/story-handlers.js:300-306 | every comment and gathered reply is given the number of its like entries |
| StoryViews.TopLevelOf | src/handlers/story-handlers.js:327 | the filter keeps exactly the comments without a parent |
| StoryViews.TopLevelOfAll | src/handlers/story-handlers.js:327 | the existing comments a story lists are all top-level, so the filter keeps them all |
| StoryViews.TreeComplete | src/handlers/story-handlers.js:320-325 | every node of the tree lists all of its replies and only them |
| StoryViews.GetStoryDetail | src/handlers/story-handlers.js:250-349 | 404 exactly for a missing story; an existing story's detail always succeeds, with the existing listed comments, their count, each node's replies exactly, the `likeCount` of every comment and reply as the length of its likes, and a total of those comments plus every reply below them |
| StoryViews.DetailTotalIsThreadSize | src/handlers/story-handlers.js:329 | the detail's total is the number of comments deleting the story would remove |
| StoryViews.TotalsAgree | src/handlers/story-handlers.js:183-198 | when a story lists each comment once and all exist, the list's total and the detail's total agree |
| StoryViews.ListedReplies | src/handlers/story-handlers.js:160-175 | the list's reply total: for each listed id naming a comment, the size of the subtree below it; nothing for an id naming none |
| StoryViews.ListedRepliesAllPresent | src/handlers/story-handlers.js:160-175 | when every listed comment exists, the reply total is the sum of their subtree sizes |
| NotificationHandlers.AddressedTo | src/handlers/notification-handlers.js:7 | `find({ userId })` selects exactly the user's notifications |
| NotificationHandlers.UnreadOf | src/handlers/notification-handlers.js:66 | `{ userId, read: false }` selects exactly the user's unread notifications |
| NotificationHandlers.MarkedRead | src/handlers/notification-handlers.js:45-46 | marking one notification keeps the set of notifications |
| NotificationHandlers.AllRead | src/handlers/notification-handlers.js:65-68 | `updateMany` keeps the set of notifications |
| NotificationHandlers.GetNotifications | src/handlers/notification-handlers.js:3-22 | exactly the user's notifications, each once, newest first |
| NotificationHandlers.MarkedReadUnread | src/handlers/notification-handlers.js:45-46 | marking one notification takes exactly it out of the unread set and changes no other notification |
| NotificationHandlers.MarkedReadIdempotent | src/handlers/notification-handlers.js:45-46 | marking it again changes nothing |
| NotificationHandlers.MarkRead | src/handlers/notification-handlers.js:24-59 | 404 exactly for a missing notification, 403 exactly for someone else's, both without change; the recipient's request always succeeds, and only its `read` is set |
| NotificationHandlers.AllReadMeaning | src/handlers/notification-handlers.js:65-68 | afterwards the user has no unread notification, every notification of the user is read, and every other user's unread set is unchanged |
| NotificationHandlers.AllReadAbsorbs | src/handlers/notification-handlers.js:65-68 | marking all twice is marking all once, and a previous single mark makes no difference |
| NotificationHandlers.MarkAllRead | src/handlers/notification-handlers.js:61-81 | the notifications become the marked-all map and nothing else changes |
| UserHandlers.PublicStoriesOf | src/handlers/user-handlers.js:18-21 | the profile's stories are exactly the user's non-anonymous ones |
| UserHandlers.NewestPublicStories | src/handlers/user-handlers.js:18-21 | each of those stories exactly once, newest first |
| UserHandlers.AsWrittenMissesStoryLikes | src/handlers/user-handlers.js:26-27 | on a ledger built by the story like handler, the profile's test as written never sees a like |
| UserHandlers.UserLikedAsWritten | src/handlers/user-handlers.js:26-27 | the profile's `userLiked` test as written: some entry is a record whose `userId` is the requester; a bare id never is (`UserHandlers.AsWrittenMissesStoryLikes`) |
| UserHandlers.ProfileMissesLike | src/handlers/user-handlers.js:26-27 | a story just liked by user 7 reports as not liked by the test as written and as liked by the corrected test |
| UserHandlers.UserLikedAfterToggle | src/handlers/story-handlers.js:228-234 | with the corrected test, the profile's `userLiked` is what the last story like toggle reported |
| UserHandlers.ProfileEntry | src/handlers/user-handlers.js:25-37 | a listed story's like and comment counts are its ledger lengths; `userLiked` is present exactly in the current handler and then means the corrected test |
| UserHandlers.ProfileEntries | src/handlers/user-handlers.js:25 | one entry per story, in the order given |
| UserHandlers.ProfileFor | src/handlers/user-handlers.js:23-48 | the profile names the user, lists each public story once newest first with its counts, and shows the email exactly to its owner |
| UserHandlers.GetUserProfile | src/handlers/user-handlers.js:4-61 | 404 exactly when no user has the username; otherwise the profile of such a user |
| UserHandlers.Stage | src/handlers/user-handlers.js:77-96 | a username is staged exactly when truthy and different, a name exactly when truthy, and the picture whenever it is given, null included |
| UserHandlers.Updated | src/handlers/user-handlers.js:111-115 | the update replaces exactly the staged fields and keeps email, password hash and stories |
| UserHandlers.StoriesRelabelled | src/handlers/user-handlers.js:117-139 | only the user's public stories take the new username and name; anonymous stories and other users' stories are unchanged |
| UserHandlers.CommentsRelabelled | src/handlers/user-handlers.js:117-139 | exactly the user's comments take the new username and name |
| UserHandlers.RelabelKeepsAuthorship | src/handlers/user-handlers.js:117-139 | if the user's comments and public stories carried the user's names before an edit, they carry the new names after it |
| UserHandlers.ApplyUpdates | src/handlers/user-handlers.js:111-139 | the user is updated, and stories and comments are relabelled only when a username or name is staged |
| UserHandlers.EditProfile | src/handlers/user-handlers.js:63-159 | 404 exactly for a missing user; 400 exactly when a new username is taken; both without change; any other request for an existing user succeeds; nothing staged means no change and the current data; otherwise the updated data and the relabelling |
| AuthHandlers.FirstAt | src/handlers/auth-handlers.js:38-44 | the first `@` of the address, or its length when there is none |
| AuthHandlers.IsEmailMeansPattern | src/handlers/auth-handlers.js:38-44 | the email check accepts exactly the strings matching `^[^\s@]+@[^\s@]+\.[^\s@]+$` |
| AuthHandlers.IsEmailIsPattern | src/handlers/auth-handlers.js:38-44 | every address the scan accepts matches the pattern |
| AuthHandlers.PatternIsEmail | src/handlers/auth-handlers.js:38-44 | every split of an address into the pattern's three parts makes the scan accept it |
| AuthHandlers.InvalidPreferences | src/handlers/auth-handlers.js:30-31 | the rejected preferences are exactly the inputs outside the eleven-entry whitelist |
| AuthHandlers.InvalidPreferencesConcat | src/handlers/auth-handlers.js:30-36 | the filter goes entry by entry, so the rejected preferences keep the input order |
| AuthHandlers.Join | src/handlers/auth-handlers.js:34 | joining no entries gives the empty string, and joining one gives that entry |
| AuthHandlers.InputCheck | src/handlers/auth-handlers.js:10-44 | the input passes exactly when the four fields are truthy, the preferences (where checked) are a non-empty whitelisted list, and the email has the pattern's shape; a missing field is reported first |
| AuthHandlers.PreferenceCheckMeaning | src/handlers/auth-handlers.js:23-36 | a missing, non-array or empty preference list is refused as such, a list with unknown entries is refused by naming exactly those, and the older handler checks only the email |
| AuthHandlers.Register | src/handlers/auth-handlers.js:6-97 | a failed input check answers 400 with its message; a clash answers 400 and changes nothing; the username message comes back whenever the username is taken and every user with that email has that username too, and the email message for an email-only clash; otherwise exactly one user is added under a fresh id, carrying the hash |
| AuthHandlers.Login | src/handlers/auth-handlers.js:99-169 | 400 exactly when the identifier or password is missing; 404 exactly when no user has that username or email; 401 only for a password that fails the comparison; no other rejection; success whenever some user matches and every matching user's hash passes the password, and success names a matching user whose hash the password passes |
| Chatbot.NatToString | src/handlers/chat-bot-handlers.js:119 | a number prints as a non-empty string of decimal digits |
| Chatbot.NatToStringRoundTrip | src/handlers/chat-bot-handlers.js:119 | the printed wait time reads back as the number |
| Chatbot.WaitSeconds | src/handlers/chat-bot-handlers.js:116 | the wait is the ceiling of the remaining milliseconds in seconds, between 1 and 10 when the clock has not gone back |
| Chatbot.RecordedLimits | src/handlers/chat-bot-handlers.js:115-126 | after a request is recorded its user is limited exactly for the next ten seconds, and nobody else's limit changes |
| Chatbot.ForgottenUnlimited | src/handlers/chat-bot-handlers.js:223-224 | a forgotten user is not limited, and nobody else's limit changes |
| Chatbot.ForgetRecorded | src/handlers/chat-bot-handlers.js:126-224 | recording a request and then forgetting it leaves the map as if the user had only been forgotten |
| Chatbot.AcceptedThenLimited | src/handlers/chat-bot-handlers.js:110-126 | an answered request limits its user until ten seconds have passed; a failed one leaves the user free at once |
| Chatbot.Classify | src/handlers/chat-bot-handlers.js:202-214 | an abort always gives the timeout message; an error with no code, no HTTP error and no fetch falls back to the generic message |
| Chatbot.HttpFailureReported | src/handlers/chat-bot-handlers.js:175-178 | a non-2xx answer reaches the client as an API error carrying the status and the body |
| Chatbot.UndiciUnreachable | src/handlers/chat-bot-handlers.js:212-213 | every other undici error code counts as the service being unreachable |
| Chatbot.Session.Authenticate | src/handlers/chat-bot-handlers.js:34-49 | a truthy user id replaces the session's and clears `isAnonymous`, answering success; otherwise the session is unchanged and the anonymous id is sent back |
| Chatbot.Relay.Connect | src/handlers/chat-bot-handlers.js:17-26 | a new socket is registered under its connection id with an anonymous id from a fresh uuid, and the welcome names both |
| Chatbot.Relay.Disconnect | src/handlers/chat-bot-handlers.js:60-74 | close or error removes the connection, and the user's rate-limit entry when the socket has a user id |
| Chatbot.Relay.Forward | src/handlers/chat-bot-handlers.js:126-224 | the request is acknowledged; an answer is relayed with the message and records the request time; a failure sends its classified message and forgets the time |
| Chatbot.Relay.Serve | src/handlers/chat-bot-handlers.js:100-224 | a blank message and a request within ten seconds are refused with the map unchanged, the latter with the seconds still to wait; otherwise the request is forwarded |
| Chatbot.Relay.Request | src/handlers/chat-bot-handlers.js:89-226 | a socket without a user id first gets an anonymous one; then as above |
| Chatbot.Relay.Receive | src/handlers/chat-bot-handlers.js:28-58 | an unparsable frame gets the format error and a frame of another type nothing, neither changing anything; an auth frame gets one answer and updates the session; a chatbot request gets an anonymous id if needed and is refused when blank or too soon, else acknowledged and answered with the trimmed message or the classified failure; only a chatbot request touches the relay's times |
| Scheduler.Reminder | src/services/scheduler.js:33-39 | a reminder is addressed to the user, from the user, signed MindBlown, of kind reminder, with the reminder text, unread |
| Scheduler.Pending | src/services/scheduler.js:29-32 | the users of the visit order without a submission, in visit order, never more than visited |
| Scheduler.PendingMeaning | src/services/scheduler.js:29-32 | a user is pending exactly when visited and not submitted, and no user is pending twice |
| Scheduler.ReminderMapMeaning | src/services/scheduler.js:33-41 | the reminders are saved under consecutive fresh ids, one per pending user in turn |
| Scheduler.WithRemindersUnion | src/services/scheduler.js:29-44 | saving the reminders one at a time adds exactly the reminder map and keeps every existing notification |
| Scheduler.ExactlyOneReminder | src/services/scheduler.js:29-44 | each user who has not submitted gets exactly one reminder and every other user none |
| Scheduler.ReminderFor | src/services/scheduler.js:29-41 | a user has a reminder exactly when on the pending list |
| Scheduler.ReminderUnique | src/services/scheduler.js:29-41 | with no user pending twice, no user has two reminders |
| Scheduler.SaveReminder | src/services/scheduler.js:32-41 | one reminder is saved under the next free id and nothing else changes |
| Scheduler.Visit | src/services/scheduler.js:30-43 | one turn saves a reminder exactly for a user who has not submitted |
| Scheduler.SendReminders | src/services/scheduler.js:22-50 | every user is visited once; the notifications gain exactly the reminders of the pending users; nothing else changes |
| LegacyHandlers.LegacyCommentStory | src/handler.js:653-699 | 400 for falsy content, 404 for a missing story, both without change; truthy content on an existing story always succeeds: the comment is appended to the story and nobody is notified |
| LegacyHandlers.LegacyReplyComment | src/handler.js:701-756 | 400 for falsy content, 404 for a missing parent, both without change; truthy content under an existing parent always succeeds: the reply is appended to its parent, nobody is notified, and no story changes |
| LegacyHandlers.LegacyLikeComment | src/handler.js:758-791 | 404 without change exactly for a missing comment; a like on an existing comment always succeeds: the comment's ledger becomes the id toggle, with the like message exactly when the id was absent and the new length |

## Left out

- Password hashing and token signing (bcrypt and JWT, `src/handlers/auth-handlers.js:68` and `:132-150`) are cryptography. The hash is a parameter of `Register`, the comparison is a function parameter of `Login`, and the signed token is not modelled.
- The answer bodies are modelled in the ids and counts the handlers compute. Fields an answer copies from a document it has just saved or read are not repeated in the answer: a new comment's content and names, dates, the author fields of a story. The contracts state the stored document instead. Response envelopes, the `__v` version field, ISO date strings and the `storyTitle` of the comment detail are not modelled (the story schema has no `title`).
- Every `500` path is left out: a thrown store error and its catch. The model's store never fails, so the partial progress a failing save leaves behind is not modelled. This includes a failure half-way through a cascade, and the reminder job's catch (`src/services/scheduler.js:47-49`), which swallows any error.
- Concurrent requests are left out: the read-modify-write races on the like ledgers and the non-transactional cascades. The `Promise.all` of `getStoriesHandler` is modelled as a sequential loop, because its counts are independent.
- Mongo cast errors for ids that are not ObjectIds are left out. A route id stands for a document id; only the missing and 'undefined' ids are modelled.
- The depth of `.populate` in the comment detail is modelled as the number of levels whose replies and authors are populated (`CommentDetail.PopulatedLevels`). The Mongoose machinery is not modelled.
- The push call after a comment or reply (`src/handlers/comment-handlers.js:62` and `:148`) calls a helper that `src/handlers/notification-handlers.js:83-87` does not export, so it throws. `CommentHandlers.CommentStoryAsWritten` and `CommentHandlers.ReplyCommentAsWritten` model that, with its 500 answer. The corrected `CommentHandlers.CommentStory` and `CommentHandlers.ReplyComment` leave the push out; a push service would be a network call outside the store.
- The reply count loop of `getStoryDetailHandler` (`src/handlers/story-handlers.js:268-271`) computes a value that is never used, so it is not modelled.
- The older reply handler's two story lookups (`src/handler.js:735-742`) only read the store and their result is unused, so they are not modelled.
- `preferences` are validated at registration but the user schema has no such field, so the model does not store them.
- Chatbot: the call to the chatbot service is not modelled; its outcome is the parameter `api`. This covers `fetch`, the `AbortController` timer, the random delay, headers and the JSON body.
  - `processingTime` (floating point) is not modelled, nor are the timestamp and the `requestId` and `retryAfter` echoes.
  - The chat history handlers and the test handler are not modelled.
  - A `message` that is present but not a string is not modelled; the model's message is a string or absent. The outer `catch` such a message reaches is not modelled either.
- The HTTP handlers' payload fields are modelled as strings, optional strings and string lists. A truthy value of another type is not modelled. For example, a number as `content` makes `content.trim()` throw (`src/handlers/comment-handlers.js:20`), and elsewhere Mongoose casts such a value.
- `hasSubmittedMindTracker` (`src/services/scheduler.js:6-20`) is not modelled; it depends on the time zone of `Date`. The set `submitted` stands for its answers.
- The `node-schedule` registration (`src/services/scheduler.js:52-62`) and its 10:00 rule are not modelled.
- The mind-tracker handlers of `src/handler.js:300-407`, the recommendation handlers and services, the health check, `src/server.js`, `src/routes.js`, `src/db.js` and `src/config/jwt.js` are not part of this model.
- Fresh ids come from the store's counter, not from ObjectId generation, and fresh uuids are parameters. The model does not show that uuids are unique.
- Likes.ToggleRecord: the ledger takes the comment like handler's view. The handler pushes a `{userId, createdAt}` record into `likes`, which the schema (`src/models/story.js:26-29`) declares as an ObjectId array; how Mongoose casts that record on save is not modelled. CommentHandlers.LikeComment commits the record as the handler builds it.
- CommentDetail.GetCommentDetail: formats with the corrected `CommentDetail.Render`, which shows no picture for an author who is not a stored user. The code as written throws there and answers 500; `CommentDetail.RenderAsWritten` and `CommentDetail.AuthorMissingFails` model that. No handler of the core removes a user, and every author comes from the credentials of a registered user, so only a store changed outside the core has such a comment.
- Base.Trim: carries no contract of its own. What is removed is stated by the contracts of `Base.TrimStart` and `Base.TrimEnd`, of which it is the composition, and by `Base.TrimEmptyIffBlank`; a contract on `Trim` itself, even a length bound, makes the handlers that trim their content too costly to verify.
- Chatbot.Classify: stated by its first and last cases; the middle cases are stated by `HttpFailureReported` and `UndiciUnreachable`, and the rest of the order is the function's own definition.
- AuthHandlers.Register: when a username clash and an email clash come from two different users, either message may come back. The model does not fix which, because `findOne` does not.

## Findings

| source | as written | input that shows it | evidently intended | confidence | as-written member | corrected member |
|---|---|---|---|---|---|---|
| src/handlers/comment-handlers.js:4-91 | the handler imports `sendPushNotification` from the notification handlers, which do not export it, and calls it once the comment, the story and the owner's notification are saved; calling `undefined` throws and the catch answers 500 | user 2 comments on a story of user 1: the comment, the story and the notification are saved, then the answer is 500 | the saves, then 201 with the new comment | not executed | CommentHandlers.CommentStoryAsWritten | CommentHandlers.CommentStory |
| src/handlers/comment-handlers.js:93-167 | the same missing helper is called once the reply, its parent and the parent author's notification are saved, so the answer is 500 | user 2 replies to a comment of user 1: the reply, the parent and the notification are saved, then the answer is 500 | the saves, then 201 with the reply's id | not executed | CommentHandlers.ReplyCommentAsWritten | CommentHandlers.ReplyComment |
| src/handlers/comment-handlers.js:181-251 | the detail query populates three levels of replies, and `formatReplies` recurses into the replies of the third level, which are bare ids; reading `reply.userId._id` on a bare id throws, so the whole request fails with 500 | a chain of five comments, 0 to 4, each replying to the one before (the last two levels being the ones that matter); the detail of comment 0 fails | the detail of any comment, with the formatting stopping at the populated depth and counting the ids listed there | not executed | CommentDetail.DeepThread | CommentDetail.Render |
| src/handlers/user-handlers.js:26-27 | the profile's `userLiked` looks for a like with a `userId` field, but the story like handler (`src/handlers/story-handlers.js:228-234`) pushes bare user ids, so a story the requester liked is reported as not liked | user 7 likes a story with no likes (`ToggleId([], 7)`); the profile then reports `userLiked` false | `userLiked` true exactly when the requester's id is in the ledger, as a bare id or as a record | not executed | UserHandlers.ProfileMissesLike | UserHandlers.UserLikedAfterToggle |

The comment detail row is stated in full by `CommentDetail.RenderAsWritten`, `CommentDetail.DeepReplyFails` and `CommentDetail.LevelThreeFails`. `CommentDetail.RenderAgrees` shows that the corrected `Render` agrees with the code wherever the code succeeds, and `CommentDetail.GetCommentDetail` uses `Render`.

The profile row is stated in full by `UserHandlers.UserLikedAsWritten` and `UserHandlers.AsWrittenMissesStoryLikes`. The profile (`UserHandlers.ProfileEntry`) uses the corrected test `UserHandlers.UserLiked`.
