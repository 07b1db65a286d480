# mini_sns core in Dafny

A model of the backend rules of mini_sns, a small social network (users,
posts, likes, comments, follow edges and notifications) written for Node.js
with Express and Mongoose, together with the two authentication forms of
its React client.

The MongoDB collections become in-memory tables: the `Db` class of module
`Store` holds one `seq` per collection, in natural (insertion) order, and
its `Valid()` invariant states the schemas' required fields, length limits
and unique indexes. Handlers that write change exactly the tables they
name in `modifies` and state the new tables in terms of the old ones;
handlers that only read are functions of the tables and return a status
code with a payload. Wall-clock time is the parameter `now`, in
milliseconds; fresh identifiers are parameters too.

Modules, following the source layout:

- `Common`, `Sorting`: sequences, filtering, counting, pagination, trimming
  and case mapping, and the ordering a `sort({ createdAt: -1 })` query
  returns.
- `Entities`, `NotificationModel`, `LikeModel`, `PostModel`, `Store`: the
  Mongoose models, their statics, methods and hooks (`models/*.js`).
- `NotificationController`, `FollowController`, `CommentController`,
  `InteractionController`, `LikeController`, `PostController`,
  `FeedController`, `UserController`, `ProfileController`: the handlers
  (`controllers/*.js`). Where two controllers implement the same
  behaviour (`socialController.js` next to `followController.js` and
  `notificationController.js`, `commentController.js` next to
  `interactionController.js`), one module models both and notes where they
  differ.
- `Validation`, `Jwt`, `ErrorHandler`: the middleware and utilities of the
  request path.
- `Sockets`: the `SocketManager` registry of online users, as a class.
- `ApiDocs`: the route table, tag grouping and Postman rewriting of the
  documentation generator, as a class.
- `RegisterForm`, `LoginForm`: the client's form validation and submit
  logic, with the reply of the authentication call as a parameter.

## Model

| member | source | states |
|---|---|---|
| Entities.ParseKind | backend/src/models/Notification.js:18-22 | a `type` string is accepted exactly when it is one of "follow", "like", "comment", and the accepted kind renders back to the same string |
| Entities.ParseKindName | backend/src/models/Notification.js:18-22 | every kind's name parses back to that kind |
| NotificationModel.Build | backend/src/models/Notification.js:6-52 | a created document is unread, stamped with the creation time, carries the data's recipient, sender, type, post, comment and message, and satisfies the schema's required rules |
| NotificationModel.MessageFor | backend/src/models/Notification.js:60-71 | the generated message is never empty; it is the generic text exactly for an unknown type, and otherwise begins with the sender's username |
| NotificationModel.MessagesDistinguishKinds | backend/src/models/Notification.js:61-67 | two different kinds never get the same message for the same sender |
| NotificationModel.DuplicateIndex | backend/src/models/Notification.js:76-82 | a found document has the same recipient, sender, type and post-or-null and was created at most 24 hours ago; none is found exactly when no document matches both |
| NotificationModel.Decide | backend/src/models/Notification.js:74-95 | the request is a duplicate exactly when a matching document lies inside the window; otherwise it is a self-notification exactly when recipient and sender coincide, whatever the data; otherwise it is rejected exactly when the data is invalid, and an insert has valid data and distinct recipient and sender |
| NotificationModel.Apply | backend/src/models/Notification.js:74-95 | the table gains exactly one document at its end when the request is inserted, and is unchanged otherwise |
| NotificationModel.RepeatWithinWindowSuppressed | backend/src/models/Notification.js:76-87 | repeating a stored request at any time up to 24 hours later is suppressed as a duplicate |
| NotificationModel.CommentIdIgnored | backend/src/models/Notification.js:76-82 | a second comment notification on the same post from the same sender is suppressed inside the window even with a different comment id |
| NotificationModel.ExpiredMatchesDoNotBlock | backend/src/models/Notification.js:81 | matches older than 24 hours do not block a valid notification between distinct users |
| NotificationModel.SelfNeverStored | backend/src/models/Notification.js:89-92 | a notification whose recipient is its sender never changes the table |
| NotificationModel.ApplyKeepsSpread | backend/src/models/Notification.js:74-95 | stored notifications with the same key stay more than 24 hours apart after any request |
| NotificationModel.ApplyKeepsValid | backend/src/models/Notification.js:24-43 | every stored notification stays schema-valid and addressed to someone other than its sender |
| Store.Db.CreateNotification | backend/src/models/Notification.js:74-95 | the table becomes `Apply` of the old one; a document is returned exactly when inserted, and it is the built document appended at the end |
| LikeModel.LikeIndex | backend/src/models/Like.js:36 | a found like belongs to the (user, post) pair; none is found exactly when no like does |
| LikeModel.IsLiked | backend/src/models/Like.js:67-74 | true exactly when some like has that user and post |
| LikeModel.Toggle | backend/src/models/Like.js:33-54 | reports liked exactly when the pair had no like; then a new like is appended, else exactly the existing like is removed |
| LikeModel.ToggleFlipsPair | backend/src/models/Like.js:24-54 | under the unique index, a toggle flips whether (user, post) is liked and leaves every other pair as it was |
| LikeModel.RemovedPair | backend/src/models/Like.js:24 | under the unique index, deleting one like unlikes exactly its own pair |
| LikeModel.ToggleKeepsUnique | backend/src/models/Like.js:24-54 | a toggle with a fresh id keeps the unique (user, post) index satisfied |
| LikeModel.DoubleToggleRestores | backend/src/models/Like.js:33-54 | two toggles of the same pair restore whether every pair is liked |
| LikeModel.DoubleToggleFromUnliked | backend/src/models/Like.js:33-54 | from an unliked pair, two toggles give back the very same table |
| LikeModel.ToggleCounts | backend/src/models/Like.js:33-64 | a toggle moves the post's like count by exactly one in the reported direction and leaves other posts' counts alone |
| Store.Db.ToggleLike | backend/src/models/Like.js:33-54 | the like table becomes the toggled table, `isLiked` is the negation of the old state and the new state of the pair, and the store stays valid |
| PostModel.ImageUrlCaseInsensitive | backend/src/models/Post.js:21-24 | an image URL is accepted exactly when its lower-cased form is (the `i` flag) |
| PostModel.GetStats | backend/src/models/Post.js:78-91 | the counts are the likes and the comments of this post, each bounded by its table |
| PostModel.IsLikedByUser | backend/src/models/Post.js:94-100 | false without a user; otherwise true exactly when that user liked this post |
| PostModel.CascadeExact | backend/src/models/Post.js:103-129 | deleting a post's dependants removes every like, comment and notification of that post and keeps every other row with its multiplicity |
| Store.Db.DeletePostCascade | backend/src/models/Post.js:117-129 | the post, its likes, its comments and its notifications are gone, and every table keeps the rest |
| LikeModel.ToggleEmbedded | backend/src/controllers/likeController.js:17-30 | reports liked exactly when the user was not in the array; then the user is appended, else one occurrence is removed; the multiset of likers changes by exactly that user |
| LikeModel.ToggleEmbeddedRemovesFirst | backend/src/controllers/likeController.js:17-23 | an unlike removes the first occurrence of the user and keeps the rest in order |
| LikeModel.ToggleEmbeddedTwice | backend/src/controllers/likeController.js:17-30 | for an array holding the user at most once, two toggles give back the same likers |
| LikeController.ToggleLike | backend/src/controllers/likeController.js:5-50 | 404 and nothing changed for a missing post; otherwise the post's array is toggled and saved, the count is the new length, a like on someone else's post goes through the corrected notification helper, and a missing author record on a like fails with 500 before anything is saved |
| LikeController.Likers | backend/src/controllers/likeController.js:60-67 | the populated likers are user records whose ids are in the array, never more than the array holds |
| LikeController.LikersExactly | backend/src/controllers/likeController.js:60-67 | a user is among the populated likers exactly when the array holds their id and the user record exists |
| LikeController.LikersFit | backend/src/controllers/likeController.js:60-67 | when the likes array repeats no id, no more likers are populated than there are user records to find |
| LikeController.PopulatedPage | backend/src/controllers/likeController.js:60-67 | the populate's page: each shown user is on that page of the users whose id the array holds, taken in the users collection's order; an id is shown exactly when it is in the array and its user is on that page; without repeated ids the page has at most `limit` users |
| LikeController.GetLikesAsWritten | backend/src/controllers/likeController.js:53-88 | 404 for a missing post, with no likers. Otherwise the populate's page, with the total being that page's length and the page count computed from it. So, without repeated ids, the total never exceeds the page size and the page count never exceeds one |
| LikeController.AsWrittenUndercountsLikes | backend/src/controllers/likeController.js:60-81 | with two likers and a page size of one, the first page reports one like and one page while the second page holds the second liker |
| LikeController.PagesFollowCollectionOrder | backend/src/controllers/likeController.js:60-67 | when `b` liked before `a` but `a` comes first in the users collection, the first page of one shows `a` and the second `b` |
| LikeController.GetLikes | backend/src/controllers/likeController.js:53-88 | 404 for a missing post, with no likers; otherwise the same populated page, with the total and the page count taken over every user who liked the post |
| LikeController.EveryLikerIsOnAnAnnouncedPage | backend/src/controllers/likeController.js:73-81 | with the corrected total, every user who liked the post is shown on a page no later than the announced page count |
| LikeController.LikedCard | backend/src/controllers/likeController.js:110-124 | a card keeps the post's id, content, author and time, counts its populated likers, and `isLiked` holds exactly when the caller is logged in, in the array and has a user record |
| LikeController.LikedCards | backend/src/controllers/likeController.js:110-124 | one card per listed post, in order, each that post's card: its id, content, author and time, the number of its populated likers, and `isLiked` exactly when the caller is logged in, in the array and has a user record |
| LikeController.GetUserLikedPosts | backend/src/controllers/likeController.js:91-138 | the items are the cards of page `page` of the posts whose array holds the user, newest first (active or not), at most `limit` of them; the total counts all such posts and the page count is its ceiling over the limit; an anonymous caller sees no post as liked |
| LikeController.EveryLikedPostIsListed | backend/src/controllers/likeController.js:91-138 | every post whose array holds the user has its card on some page within the announced page count |
| CommentController.StoredContentIsHandlers | backend/src/models/Comment.js:5-9 | the schema's own `trim` setter leaves the handler's trimmed text unchanged, and the content rule judges the text and its trimmed form alike |
| CommentController.CreateComment | backend/src/controllers/interactionController.js:119-180 | 404 for a missing post, 500 for a missing body field, 400 for content the schema rejects, and nothing stored in those cases; otherwise the trimmed comment is appended, a comment notification goes through the corrected notification helper to a post author other than the commenter, and a missing author record gives 500 after the save |
| CommentController.CreateBumpsStats | backend/src/controllers/interactionController.js:137-139 | a stored comment raises its post's comment count by one and leaves every other post's stats alone |
| CommentController.UpdateComment | backend/src/controllers/interactionController.js:220-270 | the status is the first failing check in source order; on success only that comment's content and update time change, otherwise nothing does |
| CommentController.OnlyAuthorUpdates | backend/src/controllers/interactionController.js:227-243 | an update succeeds exactly when the comment exists, the caller is its author with a user record, and the content is present and valid; a missing id is 404 |
| CommentController.UpdateIsVisible | backend/src/controllers/interactionController.js:243-245 | after an update the comment is found at the same place with the trimmed text and its old author, post and creation time |
| CommentController.DeleteComment | backend/src/controllers/interactionController.js:273-301 | 404 for a missing comment and 403 for anyone but its author, with nothing changed; otherwise exactly that comment is removed |
| CommentController.DeleteRemovesOnlyThat | backend/src/controllers/interactionController.js:291 | after a delete the id is gone and every other comment remains |
| CommentController.GetComments | backend/src/controllers/interactionController.js:183-217 | 404 for a missing post; otherwise the items are page `page` of that post's comments newest first, and the total and page count are taken over all of them |
| CommentController.EveryPostCommentIsListed | backend/src/controllers/interactionController.js:183-217 | every comment on an existing post is on some page within the announced page count |
| CommentController.GetUserComments | backend/src/controllers/interactionController.js:304-333 | the items are page `page` of the user's comments newest first, and the total and page count are taken over all of them |
| CommentController.EveryUserCommentIsListed | backend/src/controllers/interactionController.js:304-333 | every comment by the user is on some page within the announced page count |
| CommentController.FirstPageHasAllComments | backend/src/controllers/interactionController.js:195-203 | when the post's comments fit on one page, the first page holds each of them as often as the table does |
| InteractionController.ToggleLike | backend/src/controllers/interactionController.js:9-41 | 404 and nothing changed for a missing post; otherwise the Like table is toggled; the count is the post's like count after the toggle; only an added like on someone else's post notifies, through the corrected notification helper, and a missing author record on an added like gives 500 with the like kept |
| InteractionController.LikedPostCards | backend/src/controllers/interactionController.js:80-100 | one card per listed post whose counts are the post's `getStats` and whose `isLiked` is the post's `isLikedByUser` for the viewer; an anonymous viewer sees nothing liked |
| NotificationController.HelperDataAsWritten | backend/src/controllers/notificationController.js:190-196 | the object the helper builds has the recipient, sender and kind but no message, so the schema's required `message` is missing |
| NotificationController.AsWrittenHelperNeverStores | backend/src/controllers/notificationController.js:182-206 | as written, the save of the helper's object always fails, so nothing is ever inserted and the table is unchanged |
| NotificationController.HelperData | backend/src/models/Notification.js:60-71 | the corrected helper object keeps the ids and kind, carries the generated message, and is valid when its kind has the ids it needs |
| NotificationController.CorrectedHelperStores | backend/src/models/Notification.js:74-95 | with the message supplied, a notification that is not to its own sender, has the ids its kind needs and has no match in the window is inserted |
| NotificationController.Notify | backend/src/controllers/notificationController.js:182-206 | the table becomes the model's create with the corrected data; the result is the inserted document, unread, with the given sender, recipient and kind, exactly when a row was added, and null otherwise |
| NotificationController.View | backend/src/controllers/notificationController.js:38-50 | a listed item keeps the document's id, sender, read flag and time, and its message is the template for its kind with the sender's name |
| NotificationController.Selected | backend/src/controllers/notificationController.js:12-25 | the rows are page `page` of the table's rows matching the filter, newest first: at most `limit`, each from the table and matching |
| NotificationController.FirstPageIsEverything | backend/src/controllers/notificationController.js:20-25 | when the matches fit in one page, the first page holds each matching row as often as the table does |
| NotificationController.Views | backend/src/controllers/notificationController.js:38-50 | one view per selected document, in the same order |
| NotificationController.ListWith | backend/src/controllers/notificationController.js:5-76 | the items are the views of page `page` of the filter's matches newest first; `total` counts the matches, `unreadCount` the caller's unread rows, and `totalPages` is the ceiling of total over limit |
| NotificationController.EveryNoticeIsListed | backend/src/controllers/notificationController.js:5-76 | every notification the filter matches is shown on some page within the announced page count |
| NotificationController.ViewsListed | backend/src/controllers/notificationController.js:38-50 | views of selected rows are views of matching rows of the table, still newest first |
| NotificationController.FilterFlags | backend/src/controllers/socialController.js:309-330 | only the exact string "true" restricts the list to unread items; a missing or unknown `type` gives the same list as the unfiltered handler |
| NotificationController.ListedItemsBelongToCaller | backend/src/controllers/socialController.js:309-385 | every listed item is a notification addressed to the caller, its message is a kind's template, and with `unreadOnly` it is unread |
| NotificationController.OwnedIndex | backend/src/controllers/notificationController.js:85-88 | the index of a notification with that id addressed to the caller, or -1 exactly when there is none |
| NotificationController.MarkAsRead | backend/src/controllers/notificationController.js:79-109 | 404 with nothing changed unless the caller owns the notification; otherwise exactly that document's `isRead` becomes true |
| NotificationController.MarkReadIdempotent | backend/src/controllers/notificationController.js:79-109 | marking a notification read twice leaves the table as marking it once |
| NotificationController.MarkAll | backend/src/controllers/notificationController.js:116-119 | every unread row of the caller becomes read, and every other row is unchanged |
| NotificationController.MarkAllEffect | backend/src/controllers/notificationController.js:112-130 | afterwards the caller has no unread notification, and every other user's unread count is unchanged |
| NotificationController.MarkAllAsRead | backend/src/controllers/notificationController.js:112-130 | the table becomes the bulk update, and the reported count is the number of the caller's unread rows before it |
| NotificationController.DeleteNotification | backend/src/controllers/notificationController.js:133-159 | 404 with nothing changed unless the caller owns it; otherwise exactly that document is removed and nothing is added |
| NotificationController.GetUnreadCount | backend/src/controllers/notificationController.js:162-179 | the count is the number of the caller's unread rows, each counted as often as it is stored, never more than the table holds; it is zero exactly when the caller has no unread row |
| FollowController.FollowIndex | backend/src/controllers/followController.js:25-28 | the index of a row with that follower and following, or -1 exactly when there is none |
| FollowController.IsFollowing | backend/src/controllers/followController.js:198-212 | true exactly when some row links the follower to the following user |
| FollowController.Unfollowed | backend/src/controllers/followController.js:66-80 | the table loses one row when the edge exists and none otherwise |
| FollowController.FollowStatusAsWritten | backend/src/controllers/followController.js:12-33 | as written: 400 when the target's id string is strictly equal to the caller's value; for a signed-in caller (an ObjectId) 404 exactly when the target is missing and 201 exactly when it exists and the edge does not |
| FollowController.AsWrittenSelfFollowAccepted | backend/src/controllers/followController.js:12 | as written, an existing user who does not yet follow themselves is answered 201 for following themselves |
| FollowController.FollowUser | backend/src/controllers/followController.js:6-58 | 400 for following oneself, 404 for a missing target, 400 for an existing edge, and nothing changes in those cases; otherwise 201, the edge is appended and a follow notification is requested through the corrected notification helper |
| FollowController.UnfollowUser | backend/src/controllers/followController.js:61-89 | 200 exactly when the edge existed, else 404; the table becomes the table without that edge's row |
| FollowController.RemovedEdge | backend/src/models/Follow.js:21 | with the unique (follower, following) index, removing a row ends that row's edge and no other |
| FollowController.UnfollowEndsEdge | backend/src/controllers/followController.js:61-89 | after an unfollow the pair no longer follows, and every other pair's status is unchanged |
| FollowController.FollowThenUnfollow | backend/src/controllers/followController.js:6-89 | a follow of a pair that did not follow, then an unfollow of the same pair, restores the table |
| FollowController.FollowCounts | backend/src/controllers/followController.js:112-173 | a follow raises the target's follower count and the follower's following count by one each |
| FollowController.CheckFollowStatus | backend/src/controllers/followController.js:198-220 | `isFollowing` holds exactly when an edge exists, and exactly then `followId` is the id of a matching row |
| FollowController.Cards | backend/src/controllers/followController.js:106-134 | one card per row, with the populated user's id, the row's date and the caller's status; a missing populated user makes the whole list fail |
| FollowController.ListOf | backend/src/controllers/followController.js:92-150 | the total is the number of rows and the page count its ceiling over the limit; the reply is 200 exactly when every user on page `page` of the rows (newest first) has a record, and then the items are those rows' cards, else 500 |
| FollowController.EveryRowHasACard | backend/src/controllers/followController.js:92-150 | every row has its card, with its user and time, on some page within the announced page count whenever that page comes back whole |
| FollowController.GetFollowers | backend/src/controllers/followController.js:92-150 | 404 for a missing user; otherwise the total counts the user's followers with its page count, and the items are the cards of page `page` of the follower rows newest first (500 when one has no user record), each a follower whose `isFollowing` says whether a caller other than that follower follows them |
| FollowController.GetFollowing | backend/src/controllers/followController.js:153-195 | 404 for a missing user; otherwise the total counts the users this user follows with its page count, and the items are the cards of page `page` of those rows newest first (500 when one has no user record), without a status |
| FollowController.FollowerFollowingDuality | backend/src/controllers/followController.js:106-169 | a follows b exactly when a is among b's follower rows, and exactly when b is among a's following rows |
| FollowController.FollowingIds | backend/src/controllers/socialController.js:263-268 | the ids listed are exactly the users the caller follows |
| FollowController.MutualIsBoth | backend/src/controllers/socialController.js:271-274 | a row is in the mutual query exactly when it is an edge from the user to someone the caller also follows |
| FollowController.GetMutualFollows | backend/src/controllers/socialController.js:255-304 | the total is the number of mutual rows with its page count, and the items are the cards of page `page` of those rows newest first (500 when one has no user record), each followed both by the user and by the caller |
| FollowController.EveryFollowerIsListed | backend/src/controllers/followController.js:92-150 | every follower of an existing user has a card on some page within the announced page count whenever the list comes back whole |
| FollowController.EveryFollowedIsListed | backend/src/controllers/followController.js:153-195 | every user that the user follows has a card on some page within the announced page count whenever the list comes back whole |
| FollowController.EveryMutualIsListed | backend/src/controllers/socialController.js:255-304 | every edge from the user to someone the caller also follows has a card on some page within the announced page count whenever the list comes back whole |
| FeedController.Item | backend/src/controllers/feedController.js:47-67 | a feed item keeps the post's id, author, content and time; `likes` are the populated likers and `likesCount` their number; `commentCount` counts the post's comments; `isLiked` holds exactly when the viewer is a populated liker |
| FeedController.Items | backend/src/controllers/feedController.js:47-68 | one item per listed post, in the same order |
| FeedController.PageOf | backend/src/controllers/feedController.js:92-131 | the items are the feed items of page `page` of the rows newest first, at most `limit`; the total is the number of rows and the page count its ceiling over the limit |
| FeedController.FollowedFeed | backend/src/controllers/feedController.js:32-75 | the items are the feed items of page `page` of the followed authors' posts newest first; the total counts all those posts and the page count follows it |
| FeedController.GetFeed | backend/src/controllers/feedController.js:6-82 | `followingCount` is the number of users the caller follows; with none, the reply is empty with zero totals and the suggestion, and only then; otherwise the items are the feed items of page `page` of the followed authors' posts newest first, with the total and page count over all of them |
| FeedController.GetExploreFeed | backend/src/controllers/feedController.js:85-137 | the items are the feed items of page `page` of all posts newest first; the total is the number of posts and the page count follows it; an anonymous viewer sees no post as liked |
| FeedController.EveryFollowedPostIsListed | backend/src/controllers/feedController.js:6-82 | every post by a followed author is on some page of the home feed within the announced page count |
| FeedController.EveryPostIsExplored | backend/src/controllers/feedController.js:85-137 | every post is on some page of the explore feed within the announced page count |
| FeedController.Authors | backend/src/controllers/feedController.js:159-165 | each author of the rows once, and no one else |
| FeedController.Latest | backend/src/controllers/feedController.js:163 | the `$max` of the creation times: one of them and at least every one |
| FeedController.GroupOf | backend/src/controllers/feedController.js:159-165 | an author's group counts that author's rows, at least one, and its latest time is the newest of them |
| FeedController.Groups | backend/src/controllers/feedController.js:159-165 | exactly one group per author of the rows, each that author's group |
| FeedController.MoreActiveIsPreorder | backend/src/controllers/feedController.js:168 | the sort order (more posts first, then the most recent poster) is a total preorder |
| FeedController.Candidates | backend/src/controllers/feedController.js:145-156 | every remaining post is stored and written neither by the caller nor by someone the caller follows |
| FeedController.Ranked | backend/src/controllers/feedController.js:154-171 | the first `limit` groups in the sort order: as many as the limit allows, each a candidate group taken no more often than it occurs, none less active than a group left out, in order, and no author twice |
| FeedController.TopOfSorted | backend/src/controllers/feedController.js:168-171 | a prefix of a sorted reordering takes each group of the whole no more often than it occurs, keeps the order, and none of its groups is less active than a group left out |
| FeedController.SubBagKeepsAuthorsApart | backend/src/controllers/feedController.js:154-171 | groups taken from one-per-author groups, none more often than it occurs, again have one group per author |
| FeedController.Lookup | backend/src/controllers/feedController.js:174-183 | a group whose author has no user record vanishes, and every other group is listed with its post count |
| FeedController.LookedUpAreSuggestible | backend/src/controllers/feedController.js:140-195 | every suggestion is an existing user who is neither the caller nor followed by the caller, with the number of candidate posts they wrote |
| FeedController.GetSuggestedUsers | backend/src/controllers/feedController.js:140-206 | a limit of zero gives 500 and only then; otherwise the suggestions are the looked-up users of the ranked groups, `count` is their number, at most the limit, and each is suggestible |
| FeedController.SuggestedOutrankLeftOut | backend/src/controllers/feedController.js:154-183 | no candidate author cut by the limit wrote more posts than any suggested author |
| PostController.NormalizeAll | backend/src/controllers/postController.js:114-115 | one normalised tag per given tag, in order |
| PostController.NormalizeHashtags | backend/src/controllers/postController.js:114-117 | the first ten non-empty normalised tags, in their original order with repeats kept, and no more than ten |
| PostController.NormalizedTagIsStored | backend/src/models/Post.js:38-44 | the schema's `lowercase` and `trim` leave a normalised tag unchanged |
| PostController.NormalizedTagsAreStored | backend/src/models/Post.js:38-44 | every tag of the processed list is stored exactly as the handler computed it |
| PostController.View | backend/src/controllers/postController.js:21-43 | a listed post keeps its id, content, author and activity; its counts are the model's `getStats` and its `isLiked` is `isLikedByUser`, false for an anonymous viewer |
| PostController.Views | backend/src/controllers/postController.js:23-44 | one view per listed post, in order |
| PostController.ActivePostIndex | backend/src/controllers/postController.js:65-72 | the index of an active post with that id, or -1 exactly when there is none |
| PostController.CreatePost | backend/src/controllers/postController.js:103-162 | 201 exactly when content is present, not blank and accepted by the schema with the images; then the trimmed content, the images if an array was sent and the processed hashtags are appended as an active post, and the reply has zero counts and is not liked; otherwise 400 and nothing is stored |
| PostController.Edited | backend/src/controllers/postController.js:190-202 | the edit keeps id, author, activity, creation time and likers; content is trimmed; images change only when sent; hashtags change only when sent, processed as on creation |
| PostController.UpdatePost | backend/src/controllers/postController.js:165-245 | the status is 404, 403, 400 or 200 in the order of the checks; on 200 exactly that post is replaced by its edit and the reply carries the fresh figures for the caller; otherwise nothing changes |
| PostController.OnlyAuthorEdits | backend/src/controllers/postController.js:172-182 | an edit succeeds only on an active post that the caller wrote |
| PostController.AuthorMayEdit | backend/src/controllers/postController.js:172-212 | with the intended author check, the author of an active post who sends non-blank content the schema accepts gets 200 |
| PostController.UpdateStatusAsWritten | backend/src/controllers/postController.js:172-182 | as written: 404 exactly when no active post has the id; otherwise 403 exactly when the author's id string is not strictly equal to the caller's value; for a string caller the answer is the intended one |
| PostController.AsWrittenAuthorIsForbidden | backend/src/controllers/postController.js:178 | as written, the author of an active post sending a valid edit is answered 403, where the intended check answers 200 |
| PostController.DeletePost | backend/src/controllers/postController.js:248-278 | 404 unless the post is active, 403 unless the caller wrote it, 500 when the save re-validation fails; on 200 only its `isActive` becomes false; otherwise nothing changes |
| PostController.SoftDeletedIsHidden | backend/src/controllers/postController.js:267 | a soft-deleted post is still stored but no lookup of active posts finds it |
| PostController.HardDeletePost | backend/src/controllers/postController.js:281-310 | 404 for a post missing whether active or not, 403 unless the caller wrote it, and nothing changes then; on 200 the post, its likes, its comments and its notifications are removed |
| PostController.HardDeleteLeavesNoTrace | backend/src/models/Post.js:117-129 | after a hard delete the post is gone, it has no likes, and no comment or notification refers to it |
| Sorting.NewestRowOnOnePage | backend/src/controllers/postController.js:9-16 | with `.sort({ createdAt: -1 }).skip((page - 1) * limit).limit(limit)`, the k-th newest row is shown on page k / limit + 1, which is within the page count, and no other page's window holds it |
| Sorting.EveryRowIsListed | backend/src/controllers/postController.js:9-16 | every row of a newest-first listing is shown on some page within the page count |
| PostController.ListRows | backend/src/controllers/postController.js:12-51 | the items are the views of page `page` of the rows newest first, at most `limit`; the total is the number of rows and the page count its ceiling over the limit |
| PostController.GetAllPosts | backend/src/controllers/postController.js:6-57 | the items are the views of page `page` of the active posts newest first; the total counts all active posts and the page count follows it; an anonymous viewer sees none as liked |
| PostController.GetPostById | backend/src/controllers/postController.js:60-100 | 200 exactly when an active post has that id, with its view; otherwise 404 and no post |
| PostController.GetUserPosts | backend/src/controllers/postController.js:313-373 | the items are the views of page `page` of the filter's posts newest first: the user's, active unless the user asked for inactive ones with "true"; the total counts them all and the page count follows it |
| PostController.EveryActivePostIsListed | backend/src/controllers/postController.js:6-57 | every active post is on some page within the announced page count |
| PostController.EveryUserPostIsListed | backend/src/controllers/postController.js:313-373 | every post the filter selects is on some page within the announced page count |
| PostController.OthersSeeOnlyActive | backend/src/controllers/postController.js:323-326 | for anyone but the author asking with "true", the count is the author's active posts |
| UserController.RelationTo | backend/src/controllers/userController.js:67-93 | `isFollowing` and `isFollowedBy` hold exactly when the respective edge exists and the viewer is logged in and not the user; `isMutual` is their conjunction; all three are false for an anonymous viewer or the user themself |
| UserController.GetUserProfile | backend/src/controllers/userController.js:48-100 | 200 exactly when the user exists and is active or is the viewer, with the public fields and the relationship flags; otherwise 404 and no profile |
| UserController.GetMyProfile | backend/src/controllers/userController.js:13-45 | 200 exactly when the caller's record exists, with its fields but no password, active or not; otherwise 404 |
| UserController.OwnerSeesOwnProfile | backend/src/controllers/userController.js:19-62 | the owner's request for their public profile succeeds exactly when their own profile does, shows the same name, image and introduction, and carries no relationship flag |
| UserController.RelationMirror | backend/src/controllers/userController.js:71-93 | what a sees as following on b's profile is what b sees as followed-by on a's, and mutuality is symmetric |
| UserController.DeactivatedIsHidden | backend/src/controllers/userController.js:59-62 | after deactivation the profile is found for its owner and for nobody else |
| UserController.SaveKeepsValid | backend/src/models/User.js:10-42 | saving a schema-valid edit that keeps the id and does not take another user's name keeps usernames unique and every record schema-valid |
| UserController.ProfileEdited | backend/src/controllers/userController.js:114-134 | the edit keeps id, email, password, image and activity; the name changes only for a present, non-blank, different name and then to its trimmed form; the intro is the trimmed new one when sent |
| UserController.UpdateProfile | backend/src/controllers/userController.js:103-165 | 404 for a missing user, 400 when another user holds the trimmed name or the schema rejects the edit, and nothing changes then; otherwise exactly that record becomes its edit |
| UserController.UpdateProfileImage | backend/src/controllers/userController.js:168-206 | 400 without an uploaded file and 404 for a missing user, with nothing changed; otherwise only that user's image path changes, to the upload's path with the working directory cut out |
| UserController.StoredImagePath | backend/src/controllers/userController.js:188-189 | an upload saved under the working directory is stored relative to it; a path that does not hold the working directory is stored unchanged |
| Entities.Caller | backend/src/middleware/auth.js:30 | the caller's `req.user.userId` is the user's ObjectId object, to which no string is strictly equal |
| Common.RemoveFirst | backend/src/controllers/userController.js:189 | `replace` with a string pattern cuts out the first occurrence only, and leaves a string without one unchanged |
| UserController.DeleteProfileImage | backend/src/controllers/userController.js:209-239 | 404 for a missing user and 400 without an image, with nothing changed; otherwise only that user's image becomes null |
| UserController.ChangePassword | backend/src/controllers/userController.js:244-288 | 404, then 500 for an absent password, 400 for a wrong current one, 400 for a new one equal to the current one, and 400 when the new one is shorter than six, in that order, with nothing changed; otherwise only the password changes, and afterwards the new one matches and the old one does not |
| UserController.DeactivateAccount | backend/src/controllers/userController.js:291-320 | 404, then 500 for an absent password and 400 for a wrong one, with nothing changed; otherwise only `isActive` becomes false, even if it already was |
| UserController.ReactivateAccount | backend/src/controllers/userController.js:323-348 | 404 for a missing user and 400 for an active account, with nothing changed; otherwise only `isActive` becomes true |
| UserController.ReactivateUndoesDeactivate | backend/src/controllers/userController.js:291-348 | deactivating an active account and reactivating it restores the table |
| UserController.GetMyPosts | backend/src/controllers/userController.js:353-409 | the items are the views, with the caller's like status, of page `page` of the caller's posts newest first (inactive ones only with "true"); the total counts them all and the page count follows it |
| UserController.GetUserPosts | backend/src/controllers/userController.js:412-477 | 404 for a missing user or an inactive one seen by anybody else; otherwise the items are the views of page `page` of the user's active posts newest first, for every viewer, with the total and page count over all of them; an anonymous viewer sees none liked |
| UserController.EveryOwnPostIsListed | backend/src/controllers/userController.js:353-409 | every post of the caller that the filter selects is on some page within the announced page count |
| UserController.EveryActivePostOfIsListed | backend/src/controllers/userController.js:412-477 | every active post of a visible user is on some page within the announced page count |
| UserController.GetMyCommentsAsWritten | backend/src/controllers/userController.js:504-557 | the total counts the caller's comments on active posts, and every listed comment is one of them; the page is cut before that filter |
| UserController.AsWrittenHidesCountedComment | backend/src/controllers/userController.js:522-527 | with a newer comment on an inactive post and an older one on an active post, at one per page, page 1 is empty although the total is 1 and the page count is 1, and the counted comment appears only on page 2 |
| UserController.PageBeforeFilter | backend/src/controllers/userController.js:522-527 | the general case: the newer comment on an inactive post takes the first page and is then dropped, leaving it empty |
| UserController.GetMyComments | backend/src/controllers/userController.js:529-551 | the corrected listing pages the caller's comments on active posts newest first; the total and the page count are over exactly those comments |
| UserController.EveryCountedCommentIsListed | backend/src/controllers/userController.js:529-551 | the k-th counted comment appears on page k / limit + 1, which is within the announced page count |
| UserController.SearchUsers | backend/src/controllers/userController.js:562-620 | 400 exactly for a missing or blank query; otherwise the total counts the active users the trimmed term matches, and the items are the cards of page `page` of those users in ascending username order |
| UserController.EveryMatchIsFound | backend/src/controllers/userController.js:562-620 | every active user the term matches is found on some page within the announced page count |
| UserController.FoundAreMatches | backend/src/controllers/userController.js:575-587 | the results of a page of sorted hits are active matching users, in username order |
| InteractionController.GetPostLikes | backend/src/controllers/interactionController.js:44-67 | 404 exactly when no post has the id; otherwise the reply is the result of `Like.getPostLikes` together with the requested post id |
| ProfileController.GetProfile | backend/src/controllers/profileController.js:6-66 | 200 exactly when the user exists, active or not, otherwise 404 and no profile; on 200 the user's name, image and introduction, the email only on the owner's own lookup, and the number of posts the user wrote, soft-deleted ones included |
| ProfileController.PostsCountTracksPosts | backend/src/controllers/profileController.js:17-49 | a new post raises the reported post count by one exactly when the user wrote it, and otherwise leaves it unchanged |
| ProfileController.UpdateStatusAsWritten | backend/src/controllers/profileController.js:69-133 | as written: 404 for a missing user; 400 for a given name whose untrimmed length is outside 2 to 20, for a name already used by someone else, or for an intro over 200 characters; an existing user clearing those three checks gets 200 or 500, 200 exactly when the save accepts the trimmed values |
| ProfileController.AsWrittenShortNameFailsAtSave | backend/src/controllers/profileController.js:81-100 | a free two-character name passes the handler's own check but the schema refuses it on save, so the caller gets 500; the corrected handler answers 400 |
| ProfileController.AsWrittenLongIntroFailsAtSave | backend/src/controllers/profileController.js:103-110 | an intro of 151 to 200 characters after trimming passes the handler's check but the schema refuses it, so the caller gets 500; the corrected handler answers 400 |
| ProfileController.UpdateStatus | backend/src/controllers/profileController.js:69-133 | corrected: 404 exactly for a missing user; for an existing user 200 exactly when the schema and the unique username index accept the edited record, and 400 otherwise, never 500 |
| ProfileController.UpdateProfile | backend/src/controllers/profileController.js:69-133 | the status is the corrected one; on 200 only the caller's row changes, to the trimmed name and intro and the given image, and the table stays valid; on any other status nothing changes |
| ProfileController.ChangePassword | backend/src/controllers/profileController.js:136-184 | 400 unless both passwords are given, 400 for a new password under 6 characters, 404 for a missing user, 400 for a wrong current password; on 200 only the caller's password changes, and the account then accepts the new password; on any other status nothing changes |
| ProfileController.ChangedAsWritten | backend/src/controllers/profileController.js:171-177 | as written, the saved record keeps the user's identity and accepts as password exactly the bcrypt digest the handler computed, because the pre-save hook in models/User.js hashes that digest again |
| ProfileController.AsWrittenLocksOut | backend/src/controllers/profileController.js:171-177 | after the change as written, the new password is refused whenever its length differs from the 60 characters of a bcrypt digest, while the digest itself is accepted |
| ProfileController.GetMyPosts | backend/src/controllers/profileController.js:187-211 | the items are page `page` of the caller's own posts newest first, active or not, and the total and page count are over all of them |
| ProfileController.EveryAuthoredPostIsListed | backend/src/controllers/profileController.js:187-211 | every post the user wrote, active or not, is on some page within the announced page count |
| ProfileController.MyPostsIncludeInactive | backend/src/controllers/profileController.js:192-198 | there is no active filter: when the caller's posts fit on one page, that page holds each of them, soft-deleted ones included, as many times as the table does |
| ProfileController.GetUserPosts | backend/src/controllers/profileController.js:214-244 | 404 exactly when the user does not exist; otherwise the same listing as the owner's own, inactive posts included, whoever asks |
| Jwt.ExtractTokenFromHeader | backend/src/utils/jwt.js:51-58 | a missing or empty header gives no token, and a token that is returned contains no space |
| Jwt.ExtractInvertsBearer | backend/src/utils/jwt.js:51-58 | a token without spaces is recovered from `Bearer <token>`, and any returned token came from a header that is exactly `Bearer`, one space and that token |
| Jwt.SchemeIsCaseSensitive | backend/src/utils/jwt.js:55 | a `bearer` header in lower case gives no token |
| Jwt.ExtraSpaceRejected | backend/src/utils/jwt.js:54-55 | two spaces after the scheme split the header into three parts, so it gives no token |
| Validation.ValidateObjectId | backend/src/middleware/validation.js:181-193 | the request passes exactly when the parameter is 24 hexadecimal digits of either case; otherwise 400 with the ID-format message |
| Validation.RenderedIdsPass | backend/src/middleware/validation.js:184-186 | every twelve-byte identifier written as hexadecimal passes the check and reads back as the same bytes |
| Validation.AcceptedIdsAreBytes | backend/src/middleware/validation.js:184-186 | every accepted parameter spells twelve bytes, and writing those bytes back gives the parameter in lower case |
| Validation.HexRoundTrip | backend/src/middleware/validation.js:184 | reading back the hexadecimal rendering of any byte string gives the same bytes |
| Validation.ValidatePagination | backend/src/middleware/validation.js:196-212 | the request passes exactly when the page, defaulting to 1, is a number of at least 1 and the limit, defaulting to 10, is a number from 1 to 100; a bad page is refused with the page message, a good page with a bad limit with the limit message, and every refusal is a 400 |
| Validation.PaginationFitsListings | backend/src/middleware/validation.js:196-212 | a query without paging parameters passes, and whole numbers pass exactly when the page is at least 1 and the limit is from 1 to 100, which is what the listing handlers rely on |
| Validation.FirstBroken | backend/src/middleware/validation.js:6-37 | no rule is reported exactly when the value keeps all of a field's rules; otherwise the reported rule is broken and every rule declared before it holds |
| Validation.FirstFieldError | backend/src/middleware/validation.js:40-45 | no error exactly when every declared field passes |
| Validation.FirstUnknown | backend/src/middleware/validation.js:40 | no key is reported exactly when every key of the body is declared by the schema; a reported key is undeclared |
| Validation.ValidateBody | backend/src/middleware/validation.js:40-47 | the request passes exactly when every field passes and no undeclared key is sent; a refusal is a 400 with the validation-failed message and one detail: the first failing field's when one fails, else the `object.unknown` detail of the first undeclared key |
| Validation.FirstFailingField | backend/src/middleware/validation.js:44 | when the fields before field k pass and field k fails, field k's error is the one reported |
| Validation.PlainField | backend/src/middleware/validation.js:6-30 | a field without a sibling reference passes exactly when it is absent and optional, or empty and allowed to be empty, or a non-empty value keeping every rule |
| Validation.UsernameRulesMean | backend/src/middleware/validation.js:6 | the username rules hold exactly for 3 to 20 ASCII letters and digits |
| Validation.PasswordRulesMean | backend/src/middleware/validation.js:18-21 | the password rules hold exactly for 6 to 50 characters that pass the strong-password pattern |
| Validation.StrongPasswordIgnoresLaterLines | backend/src/middleware/validation.js:21 | the lookaheads only see the first line: appending a line break and anything after it neither makes a password strong nor stops it being strong |
| Validation.RegisterAcceptsExactly | backend/src/middleware/validation.js:4-48 | a registration passes exactly when the username is 3 to 20 letters and digits, the email is a non-empty well-formed address, the password is 6 to 50 characters with a lower-case letter, an upper-case letter, a digit and one of `!@#$%^&*`, the confirmation equals it, and no other key is sent |
| Validation.RegisterReportsFirstFailure | backend/src/middleware/validation.js:10-44 | a registration without a username gets the username-required message whatever else is wrong, and one whose other fields pass but whose confirmation differs gets the mismatch message |
| Validation.LoginAcceptsExactly | backend/src/middleware/validation.js:51-71 | a login passes exactly when a non-empty well-formed email and a non-empty password are sent and nothing else |
| Validation.PostAcceptsExactly | backend/src/middleware/validation.js:74-91 | post content passes exactly when it is the only key and is 1 to 1000 characters long |
| Validation.CommentAcceptsExactly | backend/src/middleware/validation.js:94-111 | comment content passes exactly when it is the only key and is 1 to 500 characters long |
| Validation.EmptyContentGetsJoiMessage | backend/src/middleware/validation.js:76-100 | empty content is refused with Joi's own empty-string message for `content`, never the schema's minimum-length message |
| Validation.ProfileAcceptsExactly | backend/src/middleware/validation.js:114-139 | a profile edit passes exactly when a sent username is 3 to 20 letters and digits, a sent intro is at most 200 characters, a sent website is empty or a URI, and no other key is sent |
| Validation.PasswordChangeAcceptsExactly | backend/src/middleware/validation.js:142-178 | a password change passes exactly when a non-empty current password is sent, the new one keeps the length and strength rules, its confirmation equals it, and no other key is sent |
| ErrorHandler.StatusOr500 | backend/src/middleware/errorHandler.js:7 | the status sent is never zero: a present non-zero status is kept and anything else becomes 500 |
| ErrorHandler.CreateOperationalError | backend/src/middleware/errorHandler.js:133-138 | a plain `Error` without a code, with the given message and status, marked operational |
| ErrorHandler.NewAppError | backend/src/middleware/errorHandler.js:219-229 | an operational error with the given message and status, whose status word is `fail` exactly when the status's decimal rendering starts with 4 |
| ErrorHandler.LeadingFour | backend/src/middleware/errorHandler.js:224 | a natural number's rendering starts with 4 exactly when it lies in a band from 4·10^k up to 5·10^k |
| ErrorHandler.AppErrorFailsOnClientCodes | backend/src/middleware/errorHandler.js:224 | among the HTTP status codes 100 to 599, exactly the 4xx codes give `fail` |
| ErrorHandler.NegativeCodesAreErrors | backend/src/middleware/errorHandler.js:224 | a negative status renders with a leading minus and so gives `error` |
| ErrorHandler.HandleCastErrorDB | backend/src/middleware/errorHandler.js:44-47 | an operational 400 whose message names the cast error's path and value |
| ErrorHandler.HandleDuplicateFieldsDB | backend/src/middleware/errorHandler.js:52-72 | an operational 400; without a key pattern the generic duplicate message, otherwise a message naming the first key of the pattern and its duplicated value, worded for email, username or any other field |
| ErrorHandler.HandleValidationErrorDB | backend/src/middleware/errorHandler.js:77-82 | an operational 400 whose message is the fixed prefix followed by every failed path's message, in order, joined with ". " |
| ErrorHandler.HandleJWTError | backend/src/middleware/errorHandler.js:87-88 | an operational 401 with the invalid-token message |
| ErrorHandler.HandleJWTExpiredError | backend/src/middleware/errorHandler.js:90-91 | an operational 401 with the expired-token message |
| ErrorHandler.HandleMongoNetworkError | backend/src/middleware/errorHandler.js:124-128 | an operational 500 with the database-connection message |
| ErrorHandler.HandleMulterError | backend/src/middleware/errorHandler.js:96-119 | always an operational 400; the generic upload message exactly when the code is not one of the four known upload codes, each of which gets its own message |
| ErrorHandler.NotFoundError | backend/src/middleware/errorHandler.js:203-207 | an operational 404 whose message names the requested URL |
| ErrorHandler.SendErrorProd | backend/src/middleware/errorHandler.js:23-39 | an operational error is sent with its own status, or 500 when it has none, and its own message; any other error as a 500 with the fixed message that reveals nothing |
| ErrorHandler.Initial | backend/src/middleware/errorHandler.js:170-172 | the copy keeps the error's message, code and operational mark, with its status or 500 when it has none |
| ErrorHandler.CodeIncludesAsWritten | backend/src/middleware/errorHandler.js:185 | the optional call throws exactly when the code is a number, which has no `includes` |
| ErrorHandler.ErrorHandlerAsWritten | backend/src/middleware/errorHandler.js:169-198 | as written, the handler throws instead of answering exactly when the error is not named `MulterError` and its code is a number |
| ErrorHandler.AsWrittenDuplicateKeyThrows | backend/src/middleware/errorHandler.js:179-185 | a MongoDB duplicate-key error, code 11000, makes the handler as written throw, so the duplicate mapper's 400 is never sent |
| ErrorHandler.ErrorHandler | backend/src/middleware/errorHandler.js:169-198 | corrected, with the upload test applied to string codes only: every error gets an answer |
| ErrorHandler.CorrectedAgreesWhenNoThrow | backend/src/middleware/errorHandler.js:169-198 | wherever the handler as written answers, the corrected handler gives the same answer |
| ErrorHandler.Classification | backend/src/middleware/errorHandler.js:170-197 | in production: a duplicate key gets 400 with the duplicate message, a cast error 400, an invalid or expired token 401, a lost database connection 500 whatever else the error carries, and any other error without a code its own status and message when operational, else the fixed 500 |
| ErrorHandler.LaterCheckWins | backend/src/middleware/errorHandler.js:179-181 | a later check replaces an earlier one: a token error that also carries code 11000 is answered as a token error with 401 |
| Sockets.SocketManager.constructor | backend/src/utils/socket.js:9-13 | a manager without a server and with both maps empty, satisfying the registry invariant |
| Sockets.SocketManager.Initialize | backend/src/utils/socket.js:20-33 | only the server flag changes; the registry invariant still holds |
| Sockets.SocketManager.HandleUserConnection | backend/src/utils/socket.js:80-109 | a returning user's previous socket is disconnected through the disconnect handler first; then the user maps to the new socket and the socket to the user, a returning user moves to the end of the online order, and the registry invariant still holds |
| Sockets.ConnectKeepsValid | backend/src/utils/socket.js:93-94 | a connection keeps the registry invariant: each online user listed once, and the two maps inverse to each other |
| Sockets.SocketManager.HandleUserDisconnection | backend/src/utils/socket.js:148-164 | both the user's entry and the socket's entry are gone, whatever socket the user now maps to, and the registry invariant still holds |
| Sockets.DisconnectKeepsValid | backend/src/utils/socket.js:154-155 | removing a registered socket's two entries keeps the registry invariant |
| Sockets.ReconnectReplacesOldSocket | backend/src/utils/socket.js:84-94 | on a reconnect the previous socket is no longer registered, the new one is the only socket registered to the user, and the user is last in the online order with the others keeping theirs |
| Sockets.OneSocketPerUser | backend/src/utils/socket.js:93-94 | under the registry invariant no two registered sockets belong to the same user |
| Sockets.SocketManager.SendNotificationToUser | backend/src/utils/socket.js:200-210 | a notification is sent exactly when the user has a socket |
| Sockets.SocketManager.GetOnlineUsersCount | backend/src/utils/socket.js:292-294 | the number of online users, which equals the length of the online order |
| Sockets.CountMatchesOrder | backend/src/utils/socket.js:292-308 | a list without repeats that holds exactly a map's keys is as long as the map, so the count agrees with the listed users |
| Sockets.SocketManager.IsUserOnline | backend/src/utils/socket.js:299-301 | true exactly when the user has an entry |
| Sockets.SocketManager.GetOnlineUsers | backend/src/utils/socket.js:306-308 | the online users in the order they came online, each exactly once, and exactly those with an entry |
| Sockets.SocketManager.Cleanup | backend/src/utils/socket.js:330-337 | with a server, both maps and the order are emptied; without one, nothing changes |
| ApiDocs.APIDocumentationGenerator.constructor | backend/src/utils/apiDocs.js:13-17 | a generator with no routes and no models |
| ApiDocs.NewRoute | backend/src/utils/apiDocs.js:22-35 | the recorded route has the method in upper case, the given path and description, authentication only when the option says true, and each missing option at its empty default |
| ApiDocs.APIDocumentationGenerator.AddRoute | backend/src/utils/apiDocs.js:22-35 | exactly one route more, appended at the end, and the earlier routes unchanged |
| ApiDocs.APIDocumentationGenerator.AddModel | backend/src/utils/apiDocs.js:40-42 | the schema is stored under its name, replacing an earlier one of the same name, and the other models are unchanged |
| ApiDocs.TagOf | backend/src/utils/apiDocs.js:226 | a route's group is its first tag, or `Default` when it has no tags |
| ApiDocs.APIDocumentationGenerator.GroupRoutesByTag | backend/src/utils/apiDocs.js:222-235 | it throws exactly when some route's group name is a key every plain object inherits (`constructor`, `__proto__`, `toString`, …). Otherwise the groups are listed once each, in the order their first route appears, and are exactly the routes' groups; each holds exactly the routes of its tag in table order; together they hold every route once |
| ApiDocs.GroupOfIsFilter | backend/src/utils/apiDocs.js:225-231 | a group built by appending the routes of its tag in table order equals the routes of that tag filtered from the table |
| ApiDocs.JoinGroup | backend/src/utils/apiDocs.js:227-230 | appending a route to the group of a tag already seen keeps every group exact and the listing complete |
| ApiDocs.OpenGroup | backend/src/utils/apiDocs.js:227-230 | a route with a new tag opens a group, listed last, holding only that route, and every group stays exact |
| ApiDocs.TotalBump | backend/src/utils/apiDocs.js:230 | one more route in a listed group raises the number of grouped routes by exactly one |
| ApiDocs.GetStatusText | backend/src/utils/apiDocs.js:1365-1378 | the text is `Unknown` exactly for the codes other than 200, 201, 400, 401, 403, 404, 409 and 500 |
| ApiDocs.StatusTextsDistinct | backend/src/utils/apiDocs.js:1366-1375 | two different known codes never share a text |
| ApiDocs.PathSegments | backend/src/utils/apiDocs.js:1277 | each segment of a split path is non-empty and holds no slash |
| ApiDocs.PathSegmentsOfJoin | backend/src/utils/apiDocs.js:1277 | a path written as a slash before each of some non-empty, slash-free segments splits back into exactly those segments |
| ApiDocs.ReplaceParam | backend/src/utils/apiDocs.js:1320-1322 | one parameter's pass keeps the number of segments, turns every segment `:name` into `{{name}}`, and leaves every other segment alone |
| ApiDocs.RewritePathParams | backend/src/utils/apiDocs.js:1318-1333 | after all the passes, each segment naming a declared parameter is its placeholder and every other segment is unchanged, and there is one URL variable per parameter, in declaration order, with its name and description |
| ApiDocs.PlaceholderStep | backend/src/utils/apiDocs.js:1319-1322 | one more parameter pass on a segment already processed for the earlier parameters gives the segment processed for all of them |
| ApiDocs.QueryItems | backend/src/utils/apiDocs.js:1278-1283 | one query item per declared query parameter, in order, with its name and an empty value, disabled exactly when the parameter is not required |
| ApiDocs.PostmanRequest | backend/src/utils/apiDocs.js:1263-1333 | the request is named by the route's description, has its method, a raw URL of the base URL and the path, the path split into segments with declared parameters replaced by placeholders, one query item per query parameter and one variable per path parameter; the bearer token is attached exactly when the route needs authentication, and a body exactly when the route declares one |
| RegisterForm.ValidateForm | frontend/src/components/Auth/RegisterForm.js:160-202 | no message exactly when every field is filled, the username is 3 to 20 letters, digits or underscores, the email contains `@`, the password has at least 6 characters and the confirmation equals it |
| RegisterForm.FirstFailureReported | frontend/src/components/Auth/RegisterForm.js:160-202 | each message is shown exactly when its check is the first to fail: missing fields, then the username's length, its characters, the email's `@`, the password's length, and last the mismatch |
| RegisterForm.EmptyConfirmationIsMissing | frontend/src/components/Auth/RegisterForm.js:162-170 | an empty confirmation is reported as a missing field, never as a mismatch |
| RegisterForm.SubmitData | frontend/src/components/Auth/RegisterForm.js:214 | the payload carries the username, email and password of the form and nothing else |
| RegisterForm.HandleSubmit | frontend/src/components/Auth/RegisterForm.js:204-228 | `register` is called exactly when the form is acceptable, with the form minus its confirmation; a failed check shows its message and nothing else; on success the success message shows and the form goes home, on a failure reply its message shows, on an exception the generic failure message; it goes home only after success |
| RegisterForm.SentPasswordWasConfirmed | frontend/src/components/Auth/RegisterForm.js:196-215 | whenever a payload is sent, its password equals the confirmation that was typed and its username matches the username pattern |
| RegisterForm.HandleChange | frontend/src/components/Auth/RegisterForm.js:149-158 | the edited input takes the typed value, every other input keeps its value, and both messages are cleared |
| RegisterForm.ChangeBackRestores | frontend/src/components/Auth/RegisterForm.js:149-158 | typing a value shows it, and typing the previous value back restores the form's data |
| LoginForm.Validate | frontend/src/components/Auth/LoginForm.js:146-154 | no message exactly when both inputs are filled and the email contains `@`; the missing-field message exactly when an input is empty; the email-format message exactly when both are filled and the email has no `@` |
| LoginForm.HandleSubmit | frontend/src/components/Auth/LoginForm.js:141-167 | `login` is called with the form exactly when the checks pass; a failed check shows its message; the form goes home exactly when `login` was called and succeeded, with no error; a failure reply's message is shown, and an exception shows the generic failure message |
| LoginForm.EmptinessBeforeFormat | frontend/src/components/Auth/LoginForm.js:146-153 | an empty password with an email lacking `@` is reported as a missing field and `login` is not called |
| LoginForm.HandleChange | frontend/src/components/Auth/LoginForm.js:131-139 | the edited input takes the typed value, the other keeps its value, and the error is cleared |
| LoginForm.EditClearsError | frontend/src/components/Auth/LoginForm.js:131-160 | any edit clears the error a submit showed, and an edit that leaves both inputs filled and an `@` in the email lets the next submit call `login` with that data |

## Left out

- I/O and infrastructure: HTTP routing (`routes/*.js`, `app.js`), the
  database connection, configuration, the authentication middleware, token
  signing and verification, logging (`logError`, `console`), file uploads
  and file deletion from disk. `searchController.js` and `authController.js`
  are not part of this model.
- Populate, select and projection: replies carry the fields the handlers
  compute; a populated reference is the referenced row's id, and a
  populate that finds nothing (a deleted author or post) is not modelled
  except where the handler filters on it (`getMyComments`) and in the
  likers populate of `getLikes`. The users collection's natural order is
  the order of the users table.
- Identifiers are strings compared by value. The auth middleware stores the
  caller as an ObjectId object (`auth.js:30`), and several handlers compare
  it with a string by `===` or `!==`, which is then never equal. The model
  follows the evident intent, equality of the ids, everywhere except in
  `PostController.UpdateStatusAsWritten` and
  `FollowController.FollowStatusAsWritten` (see "## Findings"). As written:
  - the author of an existing post or comment is answered 403 by
    `updatePost`, `deletePost` and `hardDeletePost` (postController.js:178,
    260, 293), by `updateComment` and `deleteComment` (commentController.js:123,
    171; interactionController.js:236, 284);
  - a self-follow is never refused (followController.js:12,
    socialController.js:14);
  - `isLiked` in the feed and liked-post listings is always false
    (feedController.js:53, 109; likeController.js:112);
  - `getUserPosts` never shows an owner their inactive posts
    (postController.js:324), and a deactivated owner gets 404 for their own
    profile and posts (userController.js:60, 426); the relationship flags are
    looked up for the owner too (userController.js:71);
  - a like on one's own post requests a notification
    (interactionController.js:24, likeController.js:33), which the
    notification static then refuses as a self-notification.
  The lemmas that rely on id equality (`PostController.OnlyAuthorEdits`,
  `PostController.AuthorMayEdit`, `UserController.OwnerSeesOwnProfile`,
  `UserController.DeactivatedIsHidden`, the self-follow 400 of
  `FollowController.FollowUser` and the like) hold for the intended reading.
- Pagination parameters arrive already parsed as whole numbers, `page >= 1`
  and `limit >= 1`, as `validatePagination` admits them. JavaScript's
  numeric coercion of query strings is abstracted as `Validation.Numeric`.
- The process's working directory (`process.cwd()`) is a parameter of
  `UpdateProfileImage`.
- GetLikesAsWritten: the bound of one page on the reported total is stated
  for a likes array without repeated ids, which the toggle never produces;
  a repeated id is shown once per occurrence.
- Timestamps: `createdAt` is a parameter; `updatedAt` is kept only where a
  handler sets it.
- Lengths are counted in Dafny characters, not UTF-16 code units, and case
  mapping is ASCII-only.
- The User schema in `models/User.js` has no `isActive` field and no
  `comparePassword` or `getUserStats` method, although the handlers use
  them. The model gives users an `isActive` flag and treats the password
  check as equality between the candidate and the password the stored hash
  accepts, so a missing candidate is a 500, as the throwing call is.
  bcrypt is not modelled beyond that.
- `getUserStats`: its figures are not part of the profile and search
  replies, and `socialController.getUserSocialStats`, which only forwards
  them, is not modelled.
- `Like.getPostLikes` and `Like.getUserLikedPosts` are not defined in
  `models/Like.js`. `InteractionController.GetPostLikes` takes the static's
  result as a parameter, `InteractionController.LikedPostCards` takes the
  listed posts, and `userController.getMyLikedPosts`, which only forwards
  the static, is not modelled.
- Post has no `likes` array in `models/Post.js`, although
  `likeController.js` and `feedController.js` use one; the model gives
  posts that array.
- Regular-expression search (`searchUsers`) takes the matching predicate as
  a parameter. Joi's email and URI grammars are parameters too
  (`Validation.Formats`), and Joi's built-in messages are modelled by
  their error code and key, not their wording.
- Validation covers string values only: a number or an object sent where
  a string is required is not modelled. Hashtags sent as something other
  than an array are not modelled either.
- `getSuggestedUsers` orders by post count, then latest post; among full
  ties the order the aggregation returns is not modelled.
- `errorHandler`: the spread copy keeps only the fields the middleware
  reads; `sendErrorDev` is modelled by its status and message only; the
  Multer size text comes from configuration as a rendered string; the
  `send*` reply helpers and `asyncHandler` are not modelled.
- `socialController.followUser` maps a duplicate-key error to 400. With the
  existence check before the insert that path is unreachable without
  concurrency, which the model does not have.
- Sockets: emits, broadcasts, rooms, the authentication middleware and the
  Socket.IO server itself are left out. The server's table of live sockets
  is not modelled: a registered socket is taken to be live, so a returning
  user's previous socket is always found and disconnected, and its
  disconnect handler runs at once, inside `disconnect(true)`.
- `apiDocs.js`: Postman response entries, headers, body serialisation,
  `Object.entries` ordering of integer keys, Markdown and JSON export,
  saving to a file and the middleware table are not modelled.
- Client forms: the `register` and `login` replies are parameters, and the
  timed navigation after a registration is modelled as "goes home".
- `useAuth.js`, `api.js` and `App.js` are not part of this model.

## Findings

| source | as written | input that shows it | evidently intended | confidence | as-written member | corrected member |
|---|---|---|---|---|---|---|
| backend/src/controllers/notificationController.js:190-205 | the helper builds the notification without `message`, which the schema requires, so every create fails validation and the helper returns null | any follow, like or comment between two distinct users with no earlier notification | the notification is stored with the generated message for its type | high, not executed | `NotificationController.HelperDataAsWritten`, `NotificationController.AsWrittenHelperNeverStores` | `NotificationController.HelperData`, `NotificationController.CorrectedHelperStores` |
| backend/src/controllers/likeController.js:60-81 | `totalLikes` is the length of the populated page, not the number of likers, so `totalPages` never exceeds 1 | a post with two likers, `limit = 1`: page 1 reports one like and one page, while the second liker is on page 2 | the total and page count are taken over all likers | high, not executed | `LikeController.GetLikesAsWritten`, `LikeController.AsWrittenUndercountsLikes` | `LikeController.GetLikes`, `LikeController.EveryLikerIsOnAnAnnouncedPage` |
| backend/src/controllers/userController.js:511-527 | the page of comments is cut before comments on inactive posts are dropped, while the total counts only comments on active posts | a newer comment on an inactive post and an older one on an active post, `limit = 1`: the total is 1 and one page is announced, yet page 1 is empty and the counted comment appears only on page 2 | the counted comments are the ones paged | high, not executed | `UserController.GetMyCommentsAsWritten`, `UserController.AsWrittenHidesCountedComment` | `UserController.GetMyComments`, `UserController.EveryCountedCommentIsListed` |
| backend/src/controllers/profileController.js:81-116 | the handler admits names of 2 characters and intros of up to 200, but the User schema allows 3 to 20 and 150, so such edits fail at save with a 500 | a free username `"ab"`, or an intro of 151 characters | every edit the save would refuse is answered 400 by the handler's own checks | high, not executed | `ProfileController.UpdateStatusAsWritten`, `ProfileController.AsWrittenShortNameFailsAtSave`, `ProfileController.AsWrittenLongIntroFailsAtSave` | `ProfileController.UpdateStatus`, `ProfileController.UpdateProfile` |
| backend/src/controllers/profileController.js:171-177 | the handler stores `bcrypt.hash(newPassword)` and the pre-save hook of `models/User.js` hashes that digest again, so the account then accepts the 60-character digest and not the new password | a change to `"secret1"`: afterwards logging in with `"secret1"` fails | the new password is hashed once, by the hook, and is the one the account accepts | high, not executed | `ProfileController.ChangedAsWritten`, `ProfileController.AsWrittenLocksOut` | `ProfileController.ChangePassword` |
| backend/src/controllers/postController.js:178 | `post.author.toString() !== userId` compares a string with the caller's ObjectId object (auth.js:30), which is never strictly equal, so the author of a post is refused like anyone else; `deletePost`, `hardDeletePost` and the comment handlers have the same check | the author of an active post sends a valid edit: 403 | the author's edit is saved (200) | high, not executed | `PostController.UpdateStatusAsWritten`, `PostController.AsWrittenAuthorIsForbidden` | `PostController.UpdatePost`, `PostController.AuthorMayEdit`, `PostController.OnlyAuthorEdits` |
| backend/src/controllers/followController.js:12 | `followerId === followingId` compares the caller's ObjectId object with the route's string, which is never equal, so the self check never fires | an existing user who does not follow themselves asks to follow their own id: 201 and a self-edge | a self-follow is refused with 400 | high, not executed | `FollowController.FollowStatusAsWritten`, `FollowController.AsWrittenSelfFollowAccepted` | `FollowController.FollowUser` |
| backend/src/middleware/errorHandler.js:183-186 | `err.code?.includes("LIMIT_")` is called on a numeric code, which has no `includes`, so the handler throws | a MongoDB duplicate-key error, `code = 11000` | the duplicate-key error is answered with the 400 of `handleDuplicateFieldsDB` | high, not executed | `ErrorHandler.ErrorHandlerAsWritten`, `ErrorHandler.AsWrittenDuplicateKeyThrows` | `ErrorHandler.ErrorHandler`, `ErrorHandler.Classification` |
