/** The six document kinds of the store and the table-level rules their
    schemas and unique indexes impose. */
module Entities {
  import opened Common

  datatype User = User(
    id: Id,
    username: string,
    email: string,
    password: string,          // the password the stored hash accepts; bcrypt itself is not modelled
    profileImage: Option<string>,
    intro: string,
    isActive: bool)

  /** The limits the User schema enforces on save: a username of 3 to 20
      characters, an intro of at most 150, and a password of at least 6 (the
      length check runs before the pre-save hook hashes it). */
  predicate UserSchemaValid(u: User)
  {
    3 <= |u.username| <= 20 && |u.intro| <= 150 && |u.password| >= 6
  }

  ghost predicate AllUsersSchemaValid(users: seq<User>)
  {
    forall k :: 0 <= k < |users| ==> UserSchemaValid(users[k])
  }

  /** A post. `likes` is the embedded array of liker ids that the legacy like
      and feed handlers read and write; the newer handlers use the Like table. */
  datatype Post = Post(
    id: Id,
    author: Id,
    content: string,
    images: seq<string>,
    hashtags: seq<string>,
    isActive: bool,
    createdAt: int,
    likes: seq<Id>)

  datatype Comment = Comment(id: Id, author: Id, post: Id, content: string, createdAt: int, updatedAt: int)

  datatype Like = Like(id: Id, user: Id, post: Id, createdAt: int)

  datatype Follow = Follow(id: Id, follower: Id, following: Id, createdAt: int)

  /** The notification `type` enum. */
  datatype Kind = FollowKind | LikeKind | CommentKind

  datatype Notification = Notification(
    id: Id,
    recipient: Id,
    sender: Id,
    kind: Kind,
    post: Option<Id>,
    comment: Option<Id>,
    message: string,
    isRead: bool,
    createdAt: int)

  function KindName(k: Kind): (name: string)
    ensures name in {"follow", "like", "comment"}
  {
    match k
    case FollowKind => "follow"
    case LikeKind => "like"
    case CommentKind => "comment"
  }

  /** The enum check: a type string is accepted exactly when it names a kind. */
  function ParseKind(s: string): (r: Option<Kind>)
    ensures r.Some? ==> KindName(r.value) == s
    ensures r.None? ==> s !in {"follow", "like", "comment"}
  {
    if s == "follow" then Some(FollowKind)
    else if s == "like" then Some(LikeKind)
    else if s == "comment" then Some(CommentKind)
    else None
  }

  lemma ParseKindName(k: Kind)
    ensures ParseKind(KindName(k)) == Some(k)
  {
  }

  // ---------------------------------------------------------------------
  // Keys and table invariants (primary keys and unique indexes)
  // ---------------------------------------------------------------------

  function UserId(u: User): Id { u.id }
  function Username(u: User): string { u.username }
  function PostId(p: Post): Id { p.id }
  function CommentId(c: Comment): Id { c.id }
  function LikeId(l: Like): Id { l.id }
  function LikePair(l: Like): (Id, Id) { (l.user, l.post) }
  function FollowId(f: Follow): Id { f.id }
  function FollowPair(f: Follow): (Id, Id) { (f.follower, f.following) }
  function NotificationId(n: Notification): Id { n.id }

  /** Distinct ids, and the unique index on `username`. */
  ghost predicate UniqueUsers(users: seq<User>)
  {
    DistinctKeys(users, UserId) && DistinctKeys(users, Username)
  }

  /** Distinct ids, and the unique index on (follower, following). */
  ghost predicate UniqueFollows(follows: seq<Follow>)
  {
    DistinctKeys(follows, FollowId) && DistinctKeys(follows, FollowPair)
  }

  /** Distinct ids, and the unique index on (user, post). */
  ghost predicate UniqueLikes(likes: seq<Like>)
  {
    DistinctKeys(likes, LikeId) && DistinctKeys(likes, LikePair)
  }

  // ---------------------------------------------------------------------
  // The caller's identity and strict equality
  // ---------------------------------------------------------------------

  /** A value a handler compares with `===` or `!==`: a string (a route
      parameter, the result of `toString()`) or an ObjectId object, which is
      what the auth middleware stores as `req.user.userId`. */
  datatype JsValue = Str(s: string) | ObjectIdObject(hex: Id)

  /** `s === v` for a string `s`. Strict equality never converts its
      operands, so only a string with the same characters is equal to `s`. */
  predicate StrictEqualsString(s: string, v: JsValue)
  {
    v.Str? && v.s == s
  }

  /** The caller as `req.user.userId` holds it: the user document's `_id`,
      an ObjectId object rather than its string form, so no string is
      strictly equal to it. */
  function Caller(user: Id): (v: JsValue)
    ensures forall s: string :: !StrictEqualsString(s, v)
    ensures v.ObjectIdObject? && v.hex == user
  {
    ObjectIdObject(user)
  }

  // ---------------------------------------------------------------------
  // Lookups (`findById`, `findOne`)
  // ---------------------------------------------------------------------

  function UserIndex(users: seq<User>, id: Id): (i: int)
    ensures -1 <= i < |users|
    ensures 0 <= i ==> users[i].id == id
    ensures i == -1 <==> forall j :: 0 <= j < |users| ==> users[j].id != id
  {
    FirstIndex(users, (u: User) => u.id == id)
  }

  function PostIndex(posts: seq<Post>, id: Id): (i: int)
    ensures -1 <= i < |posts|
    ensures 0 <= i ==> posts[i].id == id
    ensures i == -1 <==> forall j :: 0 <= j < |posts| ==> posts[j].id != id
  {
    FirstIndex(posts, (p: Post) => p.id == id)
  }

  function CommentIndex(comments: seq<Comment>, id: Id): (i: int)
    ensures -1 <= i < |comments|
    ensures 0 <= i ==> comments[i].id == id
    ensures i == -1 <==> forall j :: 0 <= j < |comments| ==> comments[j].id != id
  {
    FirstIndex(comments, (c: Comment) => c.id == id)
  }

  function NotificationIndex(notices: seq<Notification>, id: Id): (i: int)
    ensures -1 <= i < |notices|
    ensures 0 <= i ==> notices[i].id == id
    ensures i == -1 <==> forall j :: 0 <= j < |notices| ==> notices[j].id != id
  {
    FirstIndex(notices, (n: Notification) => n.id == id)
  }

  predicate UserExists(users: seq<User>, id: Id)
  {
    UserIndex(users, id) >= 0
  }

  predicate PostExists(posts: seq<Post>, id: Id)
  {
    PostIndex(posts, id) >= 0
  }

  ghost predicate FreshUserId(users: seq<User>, id: Id) { KeyAbsent(users, UserId, id) }
  ghost predicate FreshPostId(posts: seq<Post>, id: Id) { KeyAbsent(posts, PostId, id) }
  ghost predicate FreshCommentId(comments: seq<Comment>, id: Id) { KeyAbsent(comments, CommentId, id) }
  ghost predicate FreshLikeId(likes: seq<Like>, id: Id) { KeyAbsent(likes, LikeId, id) }
  ghost predicate FreshFollowId(follows: seq<Follow>, id: Id) { KeyAbsent(follows, FollowId, id) }
  ghost predicate FreshNotificationId(notices: seq<Notification>, id: Id) { KeyAbsent(notices, NotificationId, id) }
}
