/** The like half of `interactionController.js`: toggling through the Like
    collection, and the per-post figures of the liked-posts list. Its comment
    handlers are in module CommentController. */
module InteractionController {
  import opened Common
  import opened Entities
  import opened NotificationModel
  import opened Store
  import opened LikeModel
  import PostModel
  import NotificationController

  const Ok: int := 200
  const NotFound: int := 404
  const ServerError: int := 500

  /** `toggleLike`: 404 for a missing post. Otherwise `Like.toggleLike` runs;
      only when it added a like is the post author looked at: a missing author
      record makes `post.author._id` throw (500, the like stays), and a like
      notification goes to an author other than the liker. The reported count
      is the post's like count after the toggle. */
  method ToggleLike(db: Db, user: Id, postId: Id, likeId: Id, now: int, noticeId: Id) returns (r: ToggleReply)
    requires db.Valid()
    requires FreshLikeId(db.likes, likeId)
    requires FreshNotificationId(db.notifications, noticeId)
    modifies db`likes, db`notifications
    ensures db.Valid()
    ensures !PostExists(old(db.posts), postId) ==>
      r.status == NotFound && db.likes == old(db.likes) && db.notifications == old(db.notifications)
    ensures PostExists(old(db.posts), postId) ==>
      (db.likes, r.isLiked) == LikeModel.Toggle(old(db.likes), user, postId, likeId, now)
      && r.isLiked == !LikeModel.IsLiked(old(db.likes), user, postId)
      && LikeModel.IsLiked(db.likes, user, postId) == r.isLiked
    ensures PostExists(old(db.posts), postId) ==>
      var owner := old(db.posts)[PostIndex(old(db.posts), postId)].author;
      if !r.isLiked then
        r.status == Ok && r.message == UnlikedMessage && db.notifications == old(db.notifications)
        && r.likesCount == LikeModel.PostLikeCount(old(db.likes), postId) - 1
      else if !UserExists(old(db.users), owner) then
        r.status == ServerError && db.notifications == old(db.notifications)
      else
        r.status == Ok && r.message == LikedMessage
        && r.likesCount == LikeModel.PostLikeCount(old(db.likes), postId) + 1
        && db.notifications == if owner == user then old(db.notifications)
           else Apply(old(db.notifications),
                      NotificationController.HelperData(old(db.users), LikeKind, user, owner, Some(postId), None), now, noticeId)
  {
    var i := PostIndex(db.posts, postId);
    if i < 0 {
      return ToggleReply(NotFound, "", false, 0);
    }
    var owner := db.posts[i].author;
    LikeModel.ToggleCounts(db.likes, user, postId, likeId, now, postId);
    var isLiked := db.ToggleLike(user, postId, likeId, now);
    if isLiked {
      if !UserExists(db.users, owner) {
        return ToggleReply(ServerError, "", isLiked, 0);
      }
      if owner != user {
        var _ := NotificationController.Notify(db, LikeKind, user, owner, Some(postId), None, now, noticeId);
      }
    }
    var likesCount := LikeModel.PostLikeCount(db.likes, postId);
    r := ToggleReply(Ok, if isLiked then LikedMessage else UnlikedMessage, isLiked, likesCount);
  }

  /** What `getPostLikes` answers: 404, or the static's result with the id. */
  datatype PostLikesReply<R> = PostLikesNotFound | PostLikes(result: R, postId: Id)

  /** `getPostLikes`: 404 when no post (active or not) has the id; otherwise
      the result of `Like.getPostLikes`, a static that is not part of this
      model and is passed in as `result`, with the post id added. */
  function GetPostLikes<R>(posts: seq<Post>, postId: Id, result: R): (r: PostLikesReply<R>)
    ensures r.PostLikesNotFound? <==> forall j :: 0 <= j < |posts| ==> posts[j].id != postId
    ensures r.PostLikes? ==> r.result == result && r.postId == postId
  {
    if PostIndex(posts, postId) < 0 then PostLikesNotFound else PostLikes(result, postId)
  }

  /** One entry of `getUserLikedPosts`: the post with its like and comment
      counts and whether the viewer likes it. */
  datatype LikedPostCard = LikedPostCard(id: Id, content: string, images: seq<string>, author: Id,
                                         likesCount: nat, commentsCount: nat, isLiked: bool, createdAt: int)

  /** The handler's own per-post computation: `getPostLikeCount`,
      `countDocuments({ post })`, and `isLikedByUser` only for a viewer. */
  function Card(likes: seq<Like>, comments: seq<Comment>, p: Post, current: Option<Id>): LikedPostCard
  {
    LikedPostCard(p.id, p.content, p.images, p.author,
                  LikeModel.PostLikeCount(likes, p.id),
                  Count(comments, PostModel.OnPostComment(p.id)),
                  current.Some? && LikeModel.IsLiked(likes, current.value, p.id),
                  p.createdAt)
  }

  /** The posts `Like.getUserLikedPosts` returned, decorated one by one. That
      static is not part of this model; its result is the `listed` argument.
      The figures agree with the post model's `getStats` and `isLikedByUser`,
      and an anonymous viewer never sees a post as liked. */
  function LikedPostCards(likes: seq<Like>, comments: seq<Comment>, listed: seq<Post>, current: Option<Id>): (r: seq<LikedPostCard>)
    ensures |r| == |listed|
    ensures forall k :: 0 <= k < |r| ==>
      var s := PostModel.GetStats(likes, comments, listed[k].id);
      r[k].id == listed[k].id && r[k].author == listed[k].author && r[k].content == listed[k].content
      && r[k].likesCount == s.likesCount && r[k].commentsCount == s.commentsCount
      && r[k].isLiked == PostModel.IsLikedByUser(likes, listed[k].id, current)
    ensures current.None? ==> forall k :: 0 <= k < |r| ==> !r[k].isLiked
  {
    if listed == [] then [] else [Card(likes, comments, listed[0], current)] + LikedPostCards(likes, comments, listed[1..], current)
  }
}
