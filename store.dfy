/** The in-memory document store that stands in for the Mongo collections,
    with the model-level statics and hooks that change it: the
    `Notification.createNotification` static, the `Like.toggleLike` static
    and `Post.findByIdAndDelete` with its cascade pre-hook. Each collection
    is a table in insertion order. */
module Store {
  import opened Common
  import opened Entities
  import opened NotificationModel
  import LikeModel
  import PostModel

  class Db {
    var users: seq<User>
    var posts: seq<Post>
    var comments: seq<Comment>
    var likes: seq<Like>
    var follows: seq<Follow>
    var notifications: seq<Notification>

    /** Primary keys and unique indexes hold, every user meets the User
        schema's limits, and every stored notification is schema-valid and
        not addressed to its own sender. Each table's part
        reads only that table. */
    ghost predicate Valid()
      reads this
    {
      UsersValid() && PostsValid() && CommentsValid() && LikesValid() && FollowsValid() && NotificationsValid()
    }

    ghost predicate UsersValid() reads this`users { UniqueUsers(users) && AllUsersSchemaValid(users) }
    ghost predicate PostsValid() reads this`posts { DistinctKeys(posts, PostId) }
    ghost predicate CommentsValid() reads this`comments { DistinctKeys(comments, CommentId) }
    ghost predicate LikesValid() reads this`likes { UniqueLikes(likes) }
    ghost predicate FollowsValid() reads this`follows { UniqueFollows(follows) }
    ghost predicate NotificationsValid() reads this`notifications
    {
      DistinctKeys(notifications, NotificationId) && AllStoredValid(notifications)
    }

    constructor ()
      ensures Valid()
      ensures users == [] && posts == [] && comments == [] && likes == [] && follows == [] && notifications == []
    {
      users := [];
      posts := [];
      comments := [];
      likes := [];
      follows := [];
      notifications := [];
    }

    /** `Notification.createNotification(data)`: null for a duplicate inside
        the window, null for a self-notification, a thrown validation error
        for data the schema rejects, and otherwise the inserted document. */
    method CreateNotification(d: NoticeData, now: int, id: Id) returns (o: Outcome, created: Option<Notification>)
      requires Valid()
      requires FreshNotificationId(notifications, id)
      modifies this`notifications
      ensures Valid()
      ensures o == Decide(old(notifications), d, now)
      ensures notifications == Apply(old(notifications), d, now, id)
      ensures created.Some? <==> o == Insert
      ensures created.Some? ==> created.value == Build(d, id, now) && notifications == old(notifications) + [created.value]
    {
      var existing := DuplicateIndex(notifications, d, now);
      if existing >= 0 {
        return Duplicate, None;
      }
      if d.recipient == d.sender {
        return SelfNotice, None;
      }
      if !DataValid(d) {
        return Invalid, None;
      }
      var n := Build(d, id, now);
      ApplyKeepsValid(notifications, d, now, id);
      DistinctKeysAppend(notifications, NotificationId, n);
      notifications := notifications + [n];
      o, created := Insert, Some(n);
    }

    /** `Like.toggleLike(userId, postId)`: delete the existing like and report
        false, or create one and report true. */
    method ToggleLike(user: Id, post: Id, id: Id, now: int) returns (isLiked: bool)
      requires Valid()
      requires FreshLikeId(likes, id)
      modifies this`likes
      ensures Valid()
      ensures (likes, isLiked) == LikeModel.Toggle(old(likes), user, post, id, now)
      ensures isLiked == !LikeModel.IsLiked(old(likes), user, post)
      ensures LikeModel.IsLiked(likes, user, post) == isLiked
    {
      LikeModel.ToggleKeepsUnique(likes, user, post, id, now);
      LikeModel.ToggleFlipsPair(likes, user, post, id, now, user, post);
      var existing := LikeModel.LikeIndex(likes, user, post);
      if existing >= 0 {
        likes := RemoveAt(likes, existing);
        isLiked := false;
      } else {
        likes := likes + [Like(id, user, post, now)];
        isLiked := true;
      }
    }

    /** `Post.findByIdAndDelete(postId)`: the pre-hook first deletes the
        post's likes, comments and notifications, then the post goes. */
    method DeletePostCascade(postId: Id)
      requires Valid()
      modifies this`posts, this`likes, this`comments, this`notifications
      ensures Valid()
      ensures posts == Filter(old(posts), (p: Post) => p.id != postId)
      ensures likes == PostModel.LikesWithout(old(likes), postId)
      ensures comments == PostModel.CommentsWithout(old(comments), postId)
      ensures notifications == PostModel.NotificationsWithout(old(notifications), postId)
    {
      DistinctKeysFilter(likes, LikeId, (l: Like) => l.post != postId);
      DistinctKeysFilter(likes, LikePair, (l: Like) => l.post != postId);
      DistinctKeysFilter(comments, CommentId, (c: Comment) => c.post != postId);
      DistinctKeysFilter(notifications, NotificationId, (n: Notification) => n.post != Some(postId));
      DistinctKeysFilter(posts, PostId, (p: Post) => p.id != postId);
      likes := PostModel.LikesWithout(likes, postId);
      comments := PostModel.CommentsWithout(comments, postId);
      notifications := PostModel.NotificationsWithout(notifications, postId);
      posts := Filter(posts, (p: Post) => p.id != postId);
    }
  }
}
