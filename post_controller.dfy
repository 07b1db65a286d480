/** `postController.js`: creating, editing, soft- and hard-deleting posts,
    the hashtag normalisation, and the post listings with their like and
    comment figures. */
module PostController {
  import opened Common
  import opened Entities
  import opened Store
  import opened Sorting
  import PostModel
  import LikeModel

  const Ok: int := 200
  const Created: int := 201
  const BadRequest: int := 400
  const Forbidden: int := 403
  const NotFound: int := 404
  const ServerError: int := 500

  const MaxHashtags: nat := 10

  // ---------------------------------------------------------------------
  // Hashtags: tag.replace(/^#/, "").toLowerCase().trim(), drop empties,
  // keep the first ten
  // ---------------------------------------------------------------------

  /** `replace(/^#/, "")`: one '#' goes, and only in first position. */
  function StripHash(tag: string): string
  {
    if tag != [] && tag[0] == '#' then tag[1..] else tag
  }

  function NormalizeTag(tag: string): string
  {
    Trim(ToLower(StripHash(tag)))
  }

  /** The tags mapped one by one, in order. */
  function NormalizeAll(tags: seq<string>): (r: seq<string>)
    ensures |r| == |tags|
    ensures forall k :: 0 <= k < |r| ==> r[k] == NormalizeTag(tags[k])
  {
    if tags == [] then [] else [NormalizeTag(tags[0])] + NormalizeAll(tags[1..])
  }

  function NonEmpty(t: string): bool { t != [] }

  /** The processed hashtag list: the first ten non-empty normalised tags, in
      their original order and with repeats kept. */
  function NormalizeHashtags(tags: seq<string>): (r: seq<string>)
    ensures |r| <= MaxHashtags
    ensures var all := Filter(NormalizeAll(tags), NonEmpty);
      |r| == (if |all| < MaxHashtags then |all| else MaxHashtags) && r == all[..|r|]
    ensures forall k :: 0 <= k < |r| ==> r[k] != [] && r[k] in NormalizeAll(tags)
  {
    var all := Filter(NormalizeAll(tags), NonEmpty);
    var r := if |all| <= MaxHashtags then all else all[..MaxHashtags];
    assert r == all[..|r|];
    assert forall k :: 0 <= k < |r| ==> r[k] == all[k];
    r
  }

  lemma LowerCharTwice(c: char)
    ensures LowerChar(LowerChar(c)) == LowerChar(c)
  {
  }

  lemma LowerFixed(x: string)
    requires forall i :: 0 <= i < |x| ==> LowerChar(x[i]) == x[i]
    ensures ToLower(x) == x
  {
    assert forall i :: 0 <= i < |x| ==> ToLower(x)[i] == x[i];
  }

  /** A normalised tag is a fixed point of the schema's `lowercase` and `trim`
      setters, so what is stored is exactly what the handler computed. */
  lemma {:induction false} NormalizedTagIsStored(tag: string)
    ensures PostModel.StoredHashtag(NormalizeTag(tag)) == NormalizeTag(tag)
  {
    var l := ToLower(StripHash(tag));
    var x := Trim(l);
    TrimSlice(l);
    var k := |l| - |TrimStart(l)|;
    forall i | 0 <= i < |x|
      ensures LowerChar(x[i]) == x[i]
    {
      assert x[i] == l[k + i] == LowerChar(StripHash(tag)[k + i]);
      LowerCharTwice(StripHash(tag)[k + i]);
    }
    LowerFixed(x);
    TrimIdempotent(l);
  }

  lemma NormalizedTagsAreStored(tags: seq<string>)
    ensures forall k :: 0 <= k < |NormalizeHashtags(tags)| ==>
      PostModel.StoredHashtag(NormalizeHashtags(tags)[k]) == NormalizeHashtags(tags)[k]
  {
    forall k | 0 <= k < |NormalizeHashtags(tags)|
      ensures PostModel.StoredHashtag(NormalizeHashtags(tags)[k]) == NormalizeHashtags(tags)[k]
    {
      var t := NormalizeHashtags(tags)[k];
      assert t in NormalizeAll(tags);
      var i :| 0 <= i < |tags| && NormalizeAll(tags)[i] == t;
      assert t == NormalizeTag(tags[i]);
      NormalizedTagIsStored(tags[i]);
    }
  }

  // ---------------------------------------------------------------------
  // The `images` field of a request body
  // ---------------------------------------------------------------------

  /** `images` as sent: absent, present but not an array, or an array. */
  datatype ImagesField = Undefined | NotAnArray | AnArray(urls: seq<string>)

  /** `Array.isArray(images) ? images : []`. */
  function ImagesOrEmpty(f: ImagesField): seq<string>
  {
    if f.AnArray? then f.urls else []
  }

  // ---------------------------------------------------------------------
  // A post as the handlers report it
  // ---------------------------------------------------------------------

  datatype PostView = PostView(id: Id, content: string, images: seq<string>, hashtags: seq<string>, author: Id,
                               likesCount: nat, commentsCount: nat, isLiked: bool, isActive: bool, createdAt: int)

  /** The figures every handler attaches: `getPostLikeCount`, the comment
      count, and `isLikedByUser` for a logged-in viewer only. */
  function View(likes: seq<Like>, comments: seq<Comment>, p: Post, current: Option<Id>): (v: PostView)
    ensures v.id == p.id && v.content == p.content && v.author == p.author && v.isActive == p.isActive
    ensures v.likesCount == PostModel.GetStats(likes, comments, p.id).likesCount
    ensures v.commentsCount == PostModel.GetStats(likes, comments, p.id).commentsCount
    ensures v.isLiked == PostModel.IsLikedByUser(likes, p.id, current)
    ensures current.None? ==> !v.isLiked
  {
    var s := PostModel.GetStats(likes, comments, p.id);
    PostView(p.id, p.content, p.images, p.hashtags, p.author, s.likesCount, s.commentsCount,
             PostModel.IsLikedByUser(likes, p.id, current), p.isActive, p.createdAt)
  }

  function Views(likes: seq<Like>, comments: seq<Comment>, listed: seq<Post>, current: Option<Id>): (r: seq<PostView>)
    ensures |r| == |listed|
    ensures forall k :: 0 <= k < |r| ==> r[k] == View(likes, comments, listed[k], current)
  {
    if listed == [] then [] else [View(likes, comments, listed[0], current)] + Views(likes, comments, listed[1..], current)
  }

  // ---------------------------------------------------------------------
  // createPost, updatePost, deletePost, hardDeletePost
  // ---------------------------------------------------------------------

  function ActivePostIndex(posts: seq<Post>, id: Id): (i: int)
    ensures -1 <= i < |posts|
    ensures i >= 0 ==> posts[i].id == id && posts[i].isActive
    ensures i == -1 <==> forall j :: 0 <= j < |posts| ==> !(posts[j].id == id && posts[j].isActive)
  {
    FirstIndex(posts, (p: Post) => p.id == id && p.isActive)
  }

  /** `createPost`: 400 for missing or blank content; otherwise the trimmed
      content, the images if an array was sent, and the normalised hashtags
      are saved as a new active post, unless the schema rejects the content
      length or an image URL (400). The reply starts at zero likes and
      comments, not liked. */
  method CreatePost(db: Db, author: Id, content: Option<string>, images: ImagesField, hashtags: seq<string>, id: Id, now: int)
    returns (status: int, created: Option<PostView>)
    requires db.Valid()
    requires FreshPostId(db.posts, id)
    modifies db`posts
    ensures db.Valid()
    ensures status in {Created, BadRequest}
    ensures status == Created <==>
      content.Some? && !IsBlank(content.value) && PostModel.PostFieldsValid(content.value, ImagesOrEmpty(images))
    ensures status != Created ==> db.posts == old(db.posts) && created == None
    ensures status == Created ==>
      var p := Post(id, author, Trim(content.value), ImagesOrEmpty(images), NormalizeHashtags(hashtags), true, now, []);
      db.posts == old(db.posts) + [p]
      && created == Some(PostView(id, p.content, p.images, p.hashtags, author, 0, 0, false, true, now))
  {
    if content.None? || IsBlank(content.value) {
      return BadRequest, None;
    }
    var imgs := ImagesOrEmpty(images);
    if !PostModel.PostFieldsValid(content.value, imgs) {
      return BadRequest, None;
    }
    var p := Post(id, author, Trim(content.value), imgs, NormalizeHashtags(hashtags), true, now, []);
    DistinctKeysAppend(db.posts, PostId, p);
    db.posts := db.posts + [p];
    status, created := Created, Some(PostView(id, p.content, p.images, p.hashtags, author, 0, 0, false, true, now));
  }

  /** The post `updatePost` saves: trimmed content, the new images only when
      `images` was sent, and the old hashtags when none were sent. */
  function Edited(p: Post, content: string, images: ImagesField, hashtags: Option<seq<string>>): (q: Post)
    ensures q.id == p.id && q.author == p.author && q.isActive == p.isActive && q.createdAt == p.createdAt && q.likes == p.likes
    ensures q.content == Trim(content)
    ensures images.Undefined? ==> q.images == p.images
    ensures !images.Undefined? ==> q.images == ImagesOrEmpty(images)
    ensures hashtags.None? ==> q.hashtags == p.hashtags
    ensures hashtags.Some? ==> q.hashtags == NormalizeHashtags(hashtags.value)
  {
    p.(content := Trim(content),
       images := if images.Undefined? then p.images else ImagesOrEmpty(images),
       hashtags := if hashtags.Some? then NormalizeHashtags(hashtags.value) else p.hashtags)
  }

  /** The status `updatePost` answers, in the order of its checks. */
  function UpdateStatus(posts: seq<Post>, user: Id, postId: Id, content: Option<string>, images: ImagesField, hashtags: Option<seq<string>>): int
  {
    var i := ActivePostIndex(posts, postId);
    if i < 0 then NotFound
    else if posts[i].author != user then Forbidden
    else if content.None? || IsBlank(content.value) then BadRequest
    else
      var q := Edited(posts[i], content.value, images, hashtags);
      if !PostModel.PostFieldsValid(q.content, q.images) then BadRequest else Ok
  }

  /** `updatePost`: 404 unless the post exists and is active, 403 unless the
      caller wrote it, 400 for blank content or a schema rejection, and
      otherwise the edit is saved in place; the reply carries the fresh figures
      with the caller's own like status. */
  method UpdatePost(db: Db, user: Id, postId: Id, content: Option<string>, images: ImagesField, hashtags: Option<seq<string>>)
    returns (status: int, updated: Option<PostView>)
    requires db.Valid()
    modifies db`posts
    ensures db.Valid()
    ensures status == UpdateStatus(old(db.posts), user, postId, content, images, hashtags)
    ensures status != Ok ==> db.posts == old(db.posts) && updated == None
    ensures status == Ok ==>
      var i := ActivePostIndex(old(db.posts), postId);
      var q := Edited(old(db.posts)[i], content.value, images, hashtags);
      db.posts == old(db.posts)[i := q] && updated == Some(View(db.likes, db.comments, q, Some(user)))
  {
    status := UpdateStatus(db.posts, user, postId, content, images, hashtags);
    if status != Ok {
      return status, None;
    }
    var i := ActivePostIndex(db.posts, postId);
    var q := Edited(db.posts[i], content.value, images, hashtags);
    DistinctKeysUpdate(db.posts, PostId, i, q);
    db.posts := db.posts[i := q];
    updated := Some(View(db.likes, db.comments, q, Some(user)));
  }

  /** Only the author can edit, and a successful edit keeps the post's
      identity, author, activity and creation time. */
  lemma OnlyAuthorEdits(posts: seq<Post>, user: Id, postId: Id, content: Option<string>, images: ImagesField, hashtags: Option<seq<string>>)
    requires UpdateStatus(posts, user, postId, content, images, hashtags) == Ok
    ensures exists i :: 0 <= i < |posts| && posts[i].id == postId && posts[i].isActive && posts[i].author == user
  {
    var i := ActivePostIndex(posts, postId);
    assert posts[i].author == user;
  }

  /** The author of an active post may edit it: blank content and a schema
      rejection aside, the intended check answers 200. */
  lemma AuthorMayEdit(posts: seq<Post>, user: Id, postId: Id, content: string, images: ImagesField, hashtags: Option<seq<string>>)
    requires ActivePostIndex(posts, postId) >= 0 && posts[ActivePostIndex(posts, postId)].author == user
    requires !IsBlank(content)
    requires var q := Edited(posts[ActivePostIndex(posts, postId)], content, images, hashtags);
      PostModel.PostFieldsValid(q.content, q.images)
    ensures UpdateStatus(posts, user, postId, Some(content), images, hashtags) == Ok
  {
  }

  /** `updatePost` as written. The author check `post.author.toString() !==
      userId` compares the author's id string with `req.user.userId`, and
      strict equality between a string and an ObjectId object never holds;
      with a string caller the handler would answer as intended. */
  function UpdateStatusAsWritten(posts: seq<Post>, caller: JsValue, postId: Id, content: Option<string>, images: ImagesField,
                                 hashtags: Option<seq<string>>): (status: int)
    ensures status == NotFound <==> ActivePostIndex(posts, postId) < 0
    ensures ActivePostIndex(posts, postId) >= 0 ==>
      (status == Forbidden <==> !StrictEqualsString(posts[ActivePostIndex(posts, postId)].author, caller))
    ensures caller.Str? ==> status == UpdateStatus(posts, caller.s, postId, content, images, hashtags)
  {
    var i := ActivePostIndex(posts, postId);
    if i < 0 then NotFound
    else if !StrictEqualsString(posts[i].author, caller) then Forbidden
    else UpdateStatus(posts, caller.s, postId, content, images, hashtags)
  }

  /** As written no signed-in caller edits a post, its author included: the
      author of an active post is answered 403 where the intended check
      answers 200. */
  lemma {:induction false} AsWrittenAuthorIsForbidden(posts: seq<Post>, user: Id, postId: Id, content: string, images: ImagesField,
                                                      hashtags: Option<seq<string>>)
    requires ActivePostIndex(posts, postId) >= 0 && posts[ActivePostIndex(posts, postId)].author == user
    requires !IsBlank(content)
    requires var q := Edited(posts[ActivePostIndex(posts, postId)], content, images, hashtags);
      PostModel.PostFieldsValid(q.content, q.images)
    ensures UpdateStatusAsWritten(posts, Caller(user), postId, Some(content), images, hashtags) == Forbidden
    ensures UpdateStatus(posts, user, postId, Some(content), images, hashtags) == Ok
  {
    AuthorMayEdit(posts, user, postId, content, images, hashtags);
  }

  /** `deletePost`: 404 unless the post exists and is active, 403 unless the
      caller wrote it, and otherwise only `isActive` is switched off. Saving
      re-runs the schema validators on the whole document; a stored post that
      fails them ends in 500. */
  method DeletePost(db: Db, user: Id, postId: Id) returns (status: int)
    requires db.Valid()
    modifies db`posts
    ensures db.Valid()
    ensures status in {Ok, Forbidden, NotFound, ServerError}
    ensures ActivePostIndex(old(db.posts), postId) < 0 ==> status == NotFound
    ensures ActivePostIndex(old(db.posts), postId) >= 0 ==>
      var i := ActivePostIndex(old(db.posts), postId);
      var p := old(db.posts)[i];
      status == (if p.author != user then Forbidden
                 else if !PostModel.PostFieldsValid(p.content, p.images) then ServerError else Ok)
      && (status == Ok ==> db.posts == old(db.posts)[i := p.(isActive := false)])
    ensures status != Ok ==> db.posts == old(db.posts)
  {
    var i := ActivePostIndex(db.posts, postId);
    if i < 0 {
      return NotFound;
    }
    var p := db.posts[i];
    if p.author != user {
      return Forbidden;
    }
    if !PostModel.PostFieldsValid(p.content, p.images) {
      return ServerError;
    }
    DistinctKeysUpdate(db.posts, PostId, i, p.(isActive := false));
    db.posts := db.posts[i := p.(isActive := false)];
    status := Ok;
  }

  /** After a soft delete the post is still stored but no listing or lookup
      of active posts sees it. */
  lemma SoftDeletedIsHidden(posts: seq<Post>, i: nat, postId: Id)
    requires i < |posts| && posts[i].id == postId && DistinctKeys(posts, PostId)
    ensures ActivePostIndex(posts[i := posts[i].(isActive := false)], postId) == -1
    ensures PostExists(posts[i := posts[i].(isActive := false)], postId)
  {
    var after := posts[i := posts[i].(isActive := false)];
    assert after[i].id == postId;
  }

  /** `hardDeletePost`: 404 for a missing post (active or not), 403 unless the
      caller wrote it, and otherwise the post is removed with its likes,
      comments and notifications. */
  method HardDeletePost(db: Db, user: Id, postId: Id) returns (status: int)
    requires db.Valid()
    modifies db`posts, db`likes, db`comments, db`notifications
    ensures db.Valid()
    ensures !PostExists(old(db.posts), postId) ==> status == NotFound
    ensures PostExists(old(db.posts), postId) ==>
      status == if old(db.posts)[PostIndex(old(db.posts), postId)].author != user then Forbidden else Ok
    ensures status != Ok ==>
      db.posts == old(db.posts) && db.likes == old(db.likes) && db.comments == old(db.comments)
      && db.notifications == old(db.notifications)
    ensures status == Ok ==>
      db.posts == Filter(old(db.posts), (p: Post) => p.id != postId)
      && db.likes == PostModel.LikesWithout(old(db.likes), postId)
      && db.comments == PostModel.CommentsWithout(old(db.comments), postId)
      && db.notifications == PostModel.NotificationsWithout(old(db.notifications), postId)
  {
    var i := PostIndex(db.posts, postId);
    if i < 0 {
      return NotFound;
    }
    if db.posts[i].author != user {
      return Forbidden;
    }
    db.DeletePostCascade(postId);
    status := Ok;
  }

  lemma FilterNone<T>(xs: seq<T>, p: T -> bool)
    requires forall k :: 0 <= k < |xs| ==> !p(xs[k])
    ensures Filter(xs, p) == []
  {
  }

  /** After a hard delete nothing refers to the post any more. */
  lemma HardDeleteLeavesNoTrace(posts: seq<Post>, likes: seq<Like>, comments: seq<Comment>, notices: seq<Notification>, postId: Id)
    ensures !PostExists(Filter(posts, (p: Post) => p.id != postId), postId)
    ensures LikeModel.PostLikeCount(PostModel.LikesWithout(likes, postId), postId) == 0
    ensures forall c :: c in PostModel.CommentsWithout(comments, postId) ==> c.post != postId
    ensures forall n :: n in PostModel.NotificationsWithout(notices, postId) ==> n.post != Some(postId)
  {
    var rest := PostModel.LikesWithout(likes, postId);
    var counted := Filter(rest, LikeModel.OnPost(postId));
    assert forall k :: 0 <= k < |rest| ==> !LikeModel.OnPost(postId)(rest[k]);
    FilterNone(rest, LikeModel.OnPost(postId));
  }

  // ---------------------------------------------------------------------
  // Listings
  // ---------------------------------------------------------------------

  datatype PostList = PostList(status: int, posts: seq<PostView>, totalPosts: nat, currentPage: nat, totalPages: nat)

  function IsActivePost(p: Post): bool { p.isActive }

  /** One page of `rows` newest first, decorated, with the count of all rows. */
  function ListRows(likes: seq<Like>, comments: seq<Comment>, rows: seq<Post>, current: Option<Id>, page: nat, limit: nat): (r: PostList)
    requires page >= 1 && limit >= 1
    ensures r.status == Ok && r.totalPosts == |rows| && r.totalPages == CeilDiv(|rows|, limit)
    ensures r.posts == Views(likes, comments, NewestPage(rows, PostModel.Stamp, page, limit), current)
    ensures |r.posts| <= limit
    ensures forall k :: 0 <= k < |r.posts| ==>
      exists p :: p in rows && r.posts[k] == View(likes, comments, p, current)
    ensures forall i, j :: 0 <= i < j < |r.posts| ==> r.posts[i].createdAt >= r.posts[j].createdAt
  {
    var listed := NewestPage(rows, PostModel.Stamp, page, limit);
    var views := Views(likes, comments, listed, current);
    assert forall k :: 0 <= k < |views| ==> listed[k] in rows && views[k] == View(likes, comments, listed[k], current);
    PostList(Ok, views, |rows|, page, CeilDiv(|rows|, limit))
  }

  /** `getAllPosts`: the active posts only. */
  function GetAllPosts(posts: seq<Post>, likes: seq<Like>, comments: seq<Comment>, current: Option<Id>, page: nat, limit: nat): (r: PostList)
    requires page >= 1 && limit >= 1
    ensures r.status == Ok && r.totalPosts == Count(posts, IsActivePost) && r.totalPages == CeilDiv(r.totalPosts, limit)
    ensures r.posts == Views(likes, comments, NewestPage(Filter(posts, IsActivePost), PostModel.Stamp, page, limit), current)
    ensures |r.posts| <= limit
    ensures forall k :: 0 <= k < |r.posts| ==>
      r.posts[k].isActive && exists p :: p in posts && r.posts[k] == View(likes, comments, p, current)
    ensures forall i, j :: 0 <= i < j < |r.posts| ==> r.posts[i].createdAt >= r.posts[j].createdAt
    ensures current.None? ==> forall k :: 0 <= k < |r.posts| ==> !r.posts[k].isLiked
  {
    var rows := Filter(posts, IsActivePost);
    var r := ListRows(likes, comments, rows, current, page, limit);
    assert forall k :: 0 <= k < |r.posts| ==> r.posts[k].isActive && exists p :: p in posts && r.posts[k] == View(likes, comments, p, current) by {
      forall k | 0 <= k < |r.posts|
        ensures r.posts[k].isActive && exists p :: p in posts && r.posts[k] == View(likes, comments, p, current)
      {
        var p :| p in rows && r.posts[k] == View(likes, comments, p, current);
      }
    }
    r
  }

  /** `getPostById`: an inactive post is as missing as an absent one. */
  function GetPostById(posts: seq<Post>, likes: seq<Like>, comments: seq<Comment>, id: Id, current: Option<Id>): (r: (int, Option<PostView>))
    ensures r.0 == Ok <==> ActivePostIndex(posts, id) >= 0
    ensures r.0 != Ok ==> r.0 == NotFound && r.1 == None
    ensures r.0 == Ok ==>
      r.1 == Some(View(likes, comments, posts[ActivePostIndex(posts, id)], current)) && r.1.value.id == id && r.1.value.isActive
  {
    var i := ActivePostIndex(posts, id);
    if i < 0 then (NotFound, None) else (Ok, Some(View(likes, comments, posts[i], current)))
  }

  /** The filter `getUserPosts` applies: the author's posts, and only the active
      ones unless the author asks with `includeInactive === "true"`. */
  function UserPostFilter(user: Id, current: Option<Id>, includeInactive: string): Post -> bool
  {
    var all := current == Some(user) && includeInactive == "true";
    (p: Post) => p.author == user && (all || p.isActive)
  }

  /** What `getUserPosts` lists passed its filter. */
  lemma UserPostsListed(likes: seq<Like>, comments: seq<Comment>, posts: seq<Post>, user: Id, current: Option<Id>,
                        includeInactive: string, page: nat, limit: nat)
    requires page >= 1 && limit >= 1
    ensures var r := ListRows(likes, comments, Filter(posts, UserPostFilter(user, current, includeInactive)), current, page, limit);
      forall k :: 0 <= k < |r.posts| ==>
        r.posts[k].author == user && (r.posts[k].isActive || (current == Some(user) && includeInactive == "true"))
  {
    var rows := Filter(posts, UserPostFilter(user, current, includeInactive));
    var r := ListRows(likes, comments, rows, current, page, limit);
    forall k | 0 <= k < |r.posts|
      ensures r.posts[k].author == user && (r.posts[k].isActive || (current == Some(user) && includeInactive == "true"))
    {
      var p :| p in rows && r.posts[k] == View(likes, comments, p, current);
    }
  }

  /** `getUserPosts`. */
  function GetUserPosts(posts: seq<Post>, likes: seq<Like>, comments: seq<Comment>, user: Id, current: Option<Id>,
                        includeInactive: string, page: nat, limit: nat): (r: PostList)
    requires page >= 1 && limit >= 1
    ensures r.status == Ok && r.totalPosts == Count(posts, UserPostFilter(user, current, includeInactive))
      && r.totalPages == CeilDiv(r.totalPosts, limit)
    ensures r.posts == Views(likes, comments, NewestPage(Filter(posts, UserPostFilter(user, current, includeInactive)),
                                                         PostModel.Stamp, page, limit), current)
    ensures |r.posts| <= limit
    ensures forall k :: 0 <= k < |r.posts| ==>
      r.posts[k].author == user && (r.posts[k].isActive || (current == Some(user) && includeInactive == "true"))
    ensures forall i, j :: 0 <= i < j < |r.posts| ==> r.posts[i].createdAt >= r.posts[j].createdAt
  {
    var rows := Filter(posts, UserPostFilter(user, current, includeInactive));
    var r := ListRows(likes, comments, rows, current, page, limit);
    UserPostsListed(likes, comments, posts, user, current, includeInactive, page, limit);
    r
  }

  /** Only the author, asking explicitly, is counted inactive posts: any other
      viewer's count is the author's active posts. */
  lemma {:induction false} OthersSeeOnlyActive(posts: seq<Post>, user: Id, current: Option<Id>, includeInactive: string)
    requires current != Some(user) || includeInactive != "true"
    ensures Count(posts, UserPostFilter(user, current, includeInactive)) == Count(posts, (p: Post) => p.author == user && p.isActive)
  {
    FilterExt(posts, UserPostFilter(user, current, includeInactive), (p: Post) => p.author == user && p.isActive);
  }

  /** The view of a post that is on page `page` is in that page's views. */
  lemma ViewOfListed(likes: seq<Like>, comments: seq<Comment>, listed: seq<Post>, current: Option<Id>, p: Post)
    requires p in listed
    ensures View(likes, comments, p, current) in Views(likes, comments, listed, current)
  {
    var k :| 0 <= k < |listed| && listed[k] == p;
    assert Views(likes, comments, listed, current)[k] == View(likes, comments, p, current);
  }

  /** Every active post is shown on a page the reply's page count announces. */
  lemma {:induction false} EveryActivePostIsListed(posts: seq<Post>, likes: seq<Like>, comments: seq<Comment>, current: Option<Id>,
                                                   limit: nat, p: Post) returns (page: nat)
    requires limit >= 1 && p in posts && p.isActive
    ensures page >= 1
    ensures var r := GetAllPosts(posts, likes, comments, current, page, limit);
      page <= r.totalPages && View(likes, comments, p, current) in r.posts
  {
    var rows := Filter(posts, IsActivePost);
    assert p in rows;
    page := EveryRowIsListed(rows, PostModel.Stamp, limit, p);
    ViewOfListed(likes, comments, NewestPage(rows, PostModel.Stamp, page, limit), current, p);
  }

  /** Every post `getUserPosts` selects is shown on a page the reply's page
      count announces. */
  lemma {:induction false} EveryUserPostIsListed(posts: seq<Post>, likes: seq<Like>, comments: seq<Comment>, user: Id,
                                                 current: Option<Id>, includeInactive: string, limit: nat, p: Post)
      returns (page: nat)
    requires limit >= 1 && p in posts && UserPostFilter(user, current, includeInactive)(p)
    ensures page >= 1
    ensures var r := GetUserPosts(posts, likes, comments, user, current, includeInactive, page, limit);
      page <= r.totalPages && View(likes, comments, p, current) in r.posts
  {
    var rows := Filter(posts, UserPostFilter(user, current, includeInactive));
    assert p in rows;
    page := EveryRowIsListed(rows, PostModel.Stamp, limit, p);
    ViewOfListed(likes, comments, NewestPage(rows, PostModel.Stamp, page, limit), current, p);
  }
}
