/** The comment handlers. `interactionController.js` and the older
    `commentController.js` implement the same create, update, delete and
    list behaviour over the Comment collection. */
module CommentController {
  import opened Common
  import opened Entities
  import opened NotificationModel
  import opened Sorting
  import opened Store
  import PostModel
  import NotificationController

  const Ok: int := 200
  const Created: int := 201
  const BadRequest: int := 400
  const Forbidden: int := 403
  const NotFound: int := 404
  const ServerError: int := 500

  /** The comment `content` rule: required after its `trim` setter, and at
      most 500 characters. */
  const MaxComment: nat := 500

  predicate ContentValid(content: string)
  {
    Trim(content) != [] && |Trim(content)| <= MaxComment
  }

  /** The handler trims before the schema's own `trim` setter runs; trimming
      again changes nothing, so the stored value is the handler's. */
  lemma {:induction false} StoredContentIsHandlers(content: string)
    ensures Trim(Trim(content)) == Trim(content)
    ensures ContentValid(Trim(content)) == ContentValid(content)
  {
    TrimIdempotent(content);
  }

  /** The author of a post, if that user record exists (what
      `populate("author")` gives; null otherwise). */
  function PostOwner(users: seq<User>, p: Post): Option<Id>
  {
    if UserExists(users, p.author) then Some(p.author) else None
  }

  // ---------------------------------------------------------------------
  // Create
  // ---------------------------------------------------------------------

  /** `createComment`: 404 for a missing post; a missing `content` makes
      `content.trim()` throw (500); content the schema rejects is a
      ValidationError (400). Otherwise the comment is stored, and a comment
      notification carrying the post and comment ids goes to the post author
      unless the author is the commenter. A post whose author record is gone
      makes `post.author._id` throw after the save (500). */
  method CreateComment(db: Db, author: Id, postId: Id, content: Option<string>, id: Id, now: int, noticeId: Id)
    returns (status: int, created: Option<Comment>)
    requires db.Valid()
    requires FreshCommentId(db.comments, id)
    requires FreshNotificationId(db.notifications, noticeId)
    modifies db`comments, db`notifications
    ensures db.Valid()
    ensures !PostExists(old(db.posts), postId) ==> status == NotFound
    ensures PostExists(old(db.posts), postId) && content.None? ==> status == ServerError
    ensures PostExists(old(db.posts), postId) && content.Some? && !ContentValid(content.value) ==> status == BadRequest
    ensures created.None? ==> db.comments == old(db.comments) && db.notifications == old(db.notifications)
    ensures created.Some? <==> PostExists(old(db.posts), postId) && content.Some? && ContentValid(content.value)
    ensures created.Some? ==>
      created.value == Comment(id, author, postId, Trim(content.value), now, now)
      && db.comments == old(db.comments) + [created.value]
      && var p := old(db.posts)[PostIndex(old(db.posts), postId)];
         match PostOwner(old(db.users), p)
         case None => status == ServerError && db.notifications == old(db.notifications)
         case Some(owner) =>
           status == Created
           && db.notifications == if owner == author then old(db.notifications)
              else Apply(old(db.notifications),
                         NotificationController.HelperData(old(db.users), CommentKind, author, owner, Some(postId), Some(id)), now, noticeId)
  {
    var i := PostIndex(db.posts, postId);
    if i < 0 {
      return NotFound, None;
    }
    if content.None? {
      return ServerError, None;
    }
    var text := Trim(content.value);
    StoredContentIsHandlers(content.value);
    if !ContentValid(text) {
      return BadRequest, None;
    }
    var c := Comment(id, author, postId, text, now, now);
    DistinctKeysAppend(db.comments, CommentId, c);
    db.comments := db.comments + [c];
    created := Some(c);
    var p := db.posts[i];
    if !UserExists(db.users, p.author) {
      return ServerError, created;
    }
    if p.author != author {
      var _ := NotificationController.Notify(db, CommentKind, author, p.author, Some(postId), Some(id), now, noticeId);
    }
    status := Created;
  }

  /** A stored comment adds one to its post's `commentsCount` and leaves the
      count of every other post alone. */
  lemma {:induction false} CreateBumpsStats(likes: seq<Like>, comments: seq<Comment>, c: Comment, other: Id)
    ensures PostModel.GetStats(likes, comments + [c], c.post).commentsCount == PostModel.GetStats(likes, comments, c.post).commentsCount + 1
    ensures other != c.post ==>
      PostModel.GetStats(likes, comments + [c], other) == PostModel.GetStats(likes, comments, other)
  {
    FilterAppend(comments, [c], PostModel.OnPostComment(c.post));
    FilterAppend(comments, [c], PostModel.OnPostComment(other));
  }

  // ---------------------------------------------------------------------
  // Update and delete
  // ---------------------------------------------------------------------

  /** `updateComment`: 404 for a missing comment; `populate("author")` of a
      missing user makes the ownership check throw (500); 403 for anyone but
      the author; then the same content rules as on create. Only that
      comment's content and `updatedAt` change. */
  method UpdateComment(db: Db, user: Id, commentId: Id, content: Option<string>, now: int) returns (status: int)
    requires db.Valid()
    modifies db`comments
    ensures db.Valid()
    ensures status == UpdateStatus(old(db.users), old(db.comments), user, commentId, content)
    ensures status != Ok ==> db.comments == old(db.comments)
    ensures status == Ok ==>
      var i := CommentIndex(old(db.comments), commentId);
      db.comments == old(db.comments)[i := old(db.comments)[i].(content := Trim(content.value), updatedAt := now)]
  {
    var i := CommentIndex(db.comments, commentId);
    if i < 0 {
      return NotFound;
    }
    var c := db.comments[i];
    if !UserExists(db.users, c.author) {
      return ServerError;
    }
    if c.author != user {
      return Forbidden;
    }
    if content.None? {
      return ServerError;
    }
    var text := Trim(content.value);
    StoredContentIsHandlers(content.value);
    if !ContentValid(text) {
      return BadRequest;
    }
    var c' := c.(content := text, updatedAt := now);
    DistinctKeysUpdate(db.comments, CommentId, i, c');
    db.comments := db.comments[i := c'];
    status := Ok;
  }

  /** The answer `updateComment` gives, in the order its checks run: 404 for
      a missing comment; 500 when `populate("author")` finds no user and the
      ownership check throws; 403 for anyone but the author; 500 when
      `content.trim()` throws on a missing body field; 400 for content the
      schema rejects; else 200. */
  function UpdateStatus(users: seq<User>, comments: seq<Comment>, user: Id, commentId: Id, content: Option<string>): int
  {
    var i := CommentIndex(comments, commentId);
    if i < 0 then NotFound
    else if !UserExists(users, comments[i].author) then ServerError
    else if comments[i].author != user then Forbidden
    else if content.None? then ServerError
    else if !ContentValid(content.value) then BadRequest
    else Ok
  }

  /** Only the comment's author can change it, and only with content the
      schema accepts; everyone else is refused with 403 or 404. */
  lemma {:induction false} OnlyAuthorUpdates(users: seq<User>, comments: seq<Comment>, user: Id, commentId: Id, content: Option<string>)
    ensures UpdateStatus(users, comments, user, commentId, content) == Ok <==>
      (exists j :: 0 <= j < |comments| && comments[j].id == commentId && comments[j].author == user
                   && CommentIndex(comments, commentId) == j && UserExists(users, user))
      && content.Some? && ContentValid(content.value)
    ensures (forall j :: 0 <= j < |comments| ==> comments[j].id != commentId) ==>
      UpdateStatus(users, comments, user, commentId, content) == NotFound
  {
    var i := CommentIndex(comments, commentId);
    if i >= 0 && comments[i].author == user && UserExists(users, user) && content.Some? && ContentValid(content.value) {
      assert comments[i].id == commentId;
    }
  }

  /** An update is seen by the next read of that comment: its content is the
      trimmed text and its author, post and creation time are the old ones. */
  lemma {:induction false} UpdateIsVisible(comments: seq<Comment>, i: nat, text: string, now: int)
    requires DistinctKeys(comments, CommentId)
    requires i < |comments|
    ensures var t := comments[i := comments[i].(content := Trim(text), updatedAt := now)];
      var j := CommentIndex(t, comments[i].id);
      j == i && t[j].content == Trim(text) && t[j].author == comments[i].author && t[j].post == comments[i].post
      && t[j].createdAt == comments[i].createdAt
  {
    RewrittenRowRead(comments, i, Trim(text), now);
  }

  /** A row rewritten in place keeps its id, author, post and creation time,
      and is still the one found under that id. */
  lemma RewrittenRowRead(comments: seq<Comment>, i: nat, content: string, now: int)
    requires DistinctKeys(comments, CommentId)
    requires i < |comments|
    ensures var v := comments[i].(content := content, updatedAt := now);
      CommentIndex(comments[i := v], comments[i].id) == i
      && v.author == comments[i].author && v.post == comments[i].post && v.createdAt == comments[i].createdAt
  {
    var v := comments[i].(content := content, updatedAt := now);
    UpdatedRowFound(comments, i, v);
  }

  /** A row rewritten in place under its own id is still the one found. */
  lemma UpdatedRowFound(comments: seq<Comment>, i: nat, v: Comment)
    requires DistinctKeys(comments, CommentId)
    requires i < |comments| && v.id == comments[i].id
    ensures CommentIndex(comments[i := v], v.id) == i
  {
    var t := comments[i := v];
    DistinctKeysUpdate(comments, CommentId, i, v);
    var j := CommentIndex(t, v.id);
    assert j >= 0 by {
      assert t[i].id == v.id;
    }
    DistinctKeysOnly(t, CommentId, i, j);
  }

  /** `deleteComment`: 404 for a missing comment, 403 for anyone but its
      author, otherwise exactly that comment is removed. */
  method DeleteComment(db: Db, user: Id, commentId: Id) returns (status: int)
    requires db.Valid()
    modifies db`comments
    ensures db.Valid()
    ensures var i := CommentIndex(old(db.comments), commentId);
      if i < 0 then status == NotFound && db.comments == old(db.comments)
      else if old(db.comments)[i].author != user then status == Forbidden && db.comments == old(db.comments)
      else status == Ok && db.comments == RemoveAt(old(db.comments), i)
  {
    var i := CommentIndex(db.comments, commentId);
    if i < 0 {
      return NotFound;
    }
    if db.comments[i].author != user {
      return Forbidden;
    }
    DistinctKeysRemoveAt(db.comments, CommentId, i);
    db.comments := RemoveAt(db.comments, i);
    status := Ok;
  }

  /** After a delete the id is gone, and every other comment is still there. */
  lemma {:induction false} DeleteRemovesOnlyThat(comments: seq<Comment>, i: nat)
    requires DistinctKeys(comments, CommentId)
    requires i < |comments|
    ensures CommentIndex(RemoveAt(comments, i), comments[i].id) == -1
    ensures forall j :: 0 <= j < |comments| && j != i ==> comments[j] in RemoveAt(comments, i)
  {
    var t := RemoveAt(comments, i);
    forall j | 0 <= j < |t| ensures t[j].id != comments[i].id {
      var j' := if j < i then j else j + 1;
      assert t[j] == comments[j'];
    }
    forall j | 0 <= j < |comments| && j != i ensures comments[j] in t {
      if j < i { assert t[j] == comments[j]; } else { assert t[j - 1] == comments[j]; }
    }
  }

  // ---------------------------------------------------------------------
  // Lists
  // ---------------------------------------------------------------------

  datatype CommentList = CommentList(status: int, items: seq<Comment>, total: nat, currentPage: nat, totalPages: nat)

  function Stamp(c: Comment): int { c.createdAt }

  /** `getComments`: 404 for a missing post; otherwise the post's comments
      newest first, one page of them, and the number of all of them. */
  function GetComments(posts: seq<Post>, comments: seq<Comment>, postId: Id, page: nat, limit: nat): (r: CommentList)
    requires page >= 1 && limit >= 1
    ensures !PostExists(posts, postId) ==> r.status == NotFound
    ensures PostExists(posts, postId) ==>
      r.status == Ok && r.total == Count(comments, PostModel.OnPostComment(postId)) && r.totalPages == CeilDiv(r.total, limit)
      && r.items == NewestPage(Filter(comments, PostModel.OnPostComment(postId)), Stamp, page, limit)
    ensures |r.items| <= limit
    ensures forall k :: 0 <= k < |r.items| ==> r.items[k] in comments && r.items[k].post == postId
    ensures forall i, j :: 0 <= i < j < |r.items| ==> r.items[i].createdAt >= r.items[j].createdAt
  {
    if !PostExists(posts, postId) then CommentList(NotFound, [], 0, page, 0)
    else
      var rows := Filter(comments, PostModel.OnPostComment(postId));
      var items := NewestPage(rows, Stamp, page, limit);
      assert forall k :: 0 <= k < |items| ==> items[k] in rows;
      CommentList(Ok, items, |rows|, page, CeilDiv(|rows|, limit))
  }

  function ByAuthor(user: Id): Comment -> bool
  {
    (c: Comment) => c.author == user
  }

  /** `getUserComments`: the user's comments newest first, one page, and the
      number of all of them. */
  function GetUserComments(comments: seq<Comment>, user: Id, page: nat, limit: nat): (r: CommentList)
    requires page >= 1 && limit >= 1
    ensures r.status == Ok
    ensures r.total == Count(comments, ByAuthor(user)) && r.totalPages == CeilDiv(r.total, limit)
    ensures r.items == NewestPage(Filter(comments, ByAuthor(user)), Stamp, page, limit)
    ensures |r.items| <= limit
    ensures forall k :: 0 <= k < |r.items| ==> r.items[k] in comments && r.items[k].author == user
    ensures forall i, j :: 0 <= i < j < |r.items| ==> r.items[i].createdAt >= r.items[j].createdAt
  {
    var rows := Filter(comments, ByAuthor(user));
    var items := NewestPage(rows, Stamp, page, limit);
    assert forall k :: 0 <= k < |items| ==> items[k] in rows;
    CommentList(Ok, items, |rows|, page, CeilDiv(|rows|, limit))
  }

  /** Every comment on an existing post is shown on a page the reply's page
      count announces (and, by `Sorting.NewestRowOnOnePage`, on no other). */
  lemma {:induction false} EveryPostCommentIsListed(posts: seq<Post>, comments: seq<Comment>, postId: Id, limit: nat, c: Comment)
      returns (page: nat)
    requires limit >= 1 && PostExists(posts, postId) && c in comments && c.post == postId
    ensures page >= 1
    ensures var r := GetComments(posts, comments, postId, page, limit);
      1 <= page <= r.totalPages && c in r.items
  {
    var rows := Filter(comments, PostModel.OnPostComment(postId));
    assert c in rows;
    page := EveryRowIsListed(rows, Stamp, limit, c);
  }

  /** Every comment by `user` is shown on a page the reply's page count
      announces. */
  lemma {:induction false} EveryUserCommentIsListed(comments: seq<Comment>, user: Id, limit: nat, c: Comment)
      returns (page: nat)
    requires limit >= 1 && c in comments && c.author == user
    ensures page >= 1
    ensures var r := GetUserComments(comments, user, page, limit);
      1 <= page <= r.totalPages && c in r.items
  {
    var rows := Filter(comments, ByAuthor(user));
    assert c in rows;
    page := EveryRowIsListed(rows, Stamp, limit, c);
  }

  /** When the page is large enough, the first page of a post's comments
      holds every one of them. */
  lemma {:induction false} FirstPageHasAllComments(posts: seq<Post>, comments: seq<Comment>, postId: Id, limit: nat)
    requires limit >= 1
    requires PostExists(posts, postId)
    requires Count(comments, PostModel.OnPostComment(postId)) <= limit
    ensures forall c: Comment :: c.post == postId ==>
      multiset(GetComments(posts, comments, postId, 1, limit).items)[c] == multiset(comments)[c]
  {
    var rows := Filter(comments, PostModel.OnPostComment(postId));
    FirstPageHoldsAll(rows, Stamp, limit);
    FilterMultiset(comments, PostModel.OnPostComment(postId));
  }
}
