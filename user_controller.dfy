/** The account handlers of `userController.js`: profile visibility and the
    relationship flags, profile edits, the password change, the
    deactivate/reactivate state machine, the caller's own posts and
    comments, and the user search guard. The password check
    `comparePassword` is modelled as equality with the stored credential;
    hashing is not modelled. */
module UserController {
  import opened Common
  import opened Entities
  import opened Sorting
  import opened Store
  import FollowController
  import PostController
  import PostModel
  import CommentController
  import LikeController

  const Ok: int := 200
  const BadRequest: int := 400
  const NotFound: int := 404
  const ServerError: int := 500

  // ---------------------------------------------------------------------
  // getUserProfile
  // ---------------------------------------------------------------------

  /** An inactive account is hidden from everyone but its owner. */
  predicate Visible(u: User, viewer: Option<Id>)
  {
    u.isActive || viewer == Some(u.id)
  }

  datatype Relation = Relation(isFollowing: bool, isFollowedBy: bool, isMutual: bool)

  datatype Profile = Profile(id: Id, username: string, profileImage: Option<string>, intro: string, relation: Relation)

  /** The relationship flags between a viewer and `user`: only a logged-in
      viewer other than `user` can follow or be followed. */
  function RelationTo(follows: seq<Follow>, user: Id, viewer: Option<Id>): (r: Relation)
    ensures r.isMutual <==> r.isFollowing && r.isFollowedBy
    ensures r.isFollowing <==>
      viewer.Some? && viewer.value != user
      && exists j :: 0 <= j < |follows| && FollowController.Edge(follows[j], viewer.value, user)
    ensures r.isFollowedBy <==>
      viewer.Some? && viewer.value != user
      && exists j :: 0 <= j < |follows| && FollowController.Edge(follows[j], user, viewer.value)
    ensures viewer.None? || viewer == Some(user) ==> r == Relation(false, false, false)
  {
    if viewer.Some? && viewer.value != user then
      var following := FollowController.IsFollowing(follows, viewer.value, user);
      var followedBy := FollowController.IsFollowing(follows, user, viewer.value);
      Relation(following, followedBy, following && followedBy)
    else Relation(false, false, false)
  }

  /** `getUserProfile`: 404 for a missing user and for an inactive one seen
      by anybody else; otherwise the public fields and the flags. */
  function GetUserProfile(users: seq<User>, follows: seq<Follow>, userId: Id, viewer: Option<Id>): (r: (int, Option<Profile>))
    ensures r.0 == Ok <==> UserExists(users, userId) && Visible(users[UserIndex(users, userId)], viewer)
    ensures r.0 != Ok ==> r.0 == NotFound && r.1 == None
    ensures r.0 == Ok ==>
      var u := users[UserIndex(users, userId)];
      r.1 == Some(Profile(userId, u.username, u.profileImage, u.intro, RelationTo(follows, userId, viewer)))
  {
    var i := UserIndex(users, userId);
    if i < 0 || !Visible(users[i], viewer) then (NotFound, None)
    else
      var u := users[i];
      (Ok, Some(Profile(u.id, u.username, u.profileImage, u.intro, RelationTo(follows, userId, viewer))))
  }

  /** The caller's own record as `getMyProfile` reports it: no password. */
  datatype OwnProfile = OwnProfile(id: Id, username: string, email: string, profileImage: Option<string>, intro: string, isActive: bool)

  /** `getMyProfile`: 404 for a missing user; otherwise the caller's record
      without the password, whether active or not. The figures of
      `User.getUserStats` are not part of this model. */
  function GetMyProfile(users: seq<User>, userId: Id): (r: (int, Option<OwnProfile>))
    ensures r.0 == Ok <==> UserExists(users, userId)
    ensures r.0 != Ok ==> r.0 == NotFound && r.1 == None
    ensures r.0 == Ok ==>
      var u := users[UserIndex(users, userId)];
      r.1 == Some(OwnProfile(userId, u.username, u.email, u.profileImage, u.intro, u.isActive))
  {
    var i := UserIndex(users, userId);
    if i < 0 then (NotFound, None)
    else
      var u := users[i];
      (Ok, Some(OwnProfile(u.id, u.username, u.email, u.profileImage, u.intro, u.isActive)))
  }

  /** The owner is never shut out: the public profile of an account asked
      for by its owner is found exactly when the own profile is, and shows
      the same name, image and introduction. */
  lemma {:induction false} OwnerSeesOwnProfile(users: seq<User>, follows: seq<Follow>, userId: Id)
    ensures GetUserProfile(users, follows, userId, Some(userId)).0 == GetMyProfile(users, userId).0
    ensures GetMyProfile(users, userId).0 == Ok ==>
      var p := GetUserProfile(users, follows, userId, Some(userId)).1.value;
      var q := GetMyProfile(users, userId).1.value;
      p.username == q.username && p.profileImage == q.profileImage && p.intro == q.intro
      && p.relation == Relation(false, false, false)
  {
    var i := UserIndex(users, userId);
    if i >= 0 {
      assert Visible(users[i], Some(userId));
    }
  }

  /** What `a` sees as "following" on `b`'s profile is what `b` sees as
      "followed by" on `a`'s, and mutuality is symmetric. */
  lemma {:induction false} RelationMirror(follows: seq<Follow>, a: Id, b: Id)
    ensures RelationTo(follows, b, Some(a)).isFollowing == RelationTo(follows, a, Some(b)).isFollowedBy
    ensures RelationTo(follows, b, Some(a)).isFollowedBy == RelationTo(follows, a, Some(b)).isFollowing
    ensures RelationTo(follows, b, Some(a)).isMutual == RelationTo(follows, a, Some(b)).isMutual
  {
    var ab := RelationTo(follows, b, Some(a));
    var ba := RelationTo(follows, a, Some(b));
    assert ab.isFollowing == ba.isFollowedBy;
    assert ab.isFollowedBy == ba.isFollowing;
  }

  /** Once an account is deactivated, its profile is visible to its owner
      and to nobody else. */
  lemma {:induction false} DeactivatedIsHidden(users: seq<User>, follows: seq<Follow>, i: nat, viewer: Option<Id>)
    requires DistinctKeys(users, UserId) && i < |users|
    ensures var after := users[i := users[i].(isActive := false)];
      GetUserProfile(after, follows, users[i].id, viewer).0 == (if viewer == Some(users[i].id) then Ok else NotFound)
  {
    var after := users[i := users[i].(isActive := false)];
    var id := users[i].id;
    DistinctKeysUpdate(users, UserId, i, users[i].(isActive := false));
    var k := UserIndex(after, id);
    assert after[i].id == id;
    assert k >= 0;
    DistinctKeysOnly(after, UserId, i, k);
  }

  // ---------------------------------------------------------------------
  // Saving an edited user
  // ---------------------------------------------------------------------

  /** A user other than `self` already holds `name`. */
  predicate NameTaken(users: seq<User>, name: string, self: Id)
  {
    exists j :: 0 <= j < |users| && users[j].username == name && users[j].id != self
  }

  /** Saving a schema-valid edit of row `i` that keeps its id, and that takes
      no name another user holds, keeps the table valid. */
  lemma {:induction false} SaveKeepsValid(users: seq<User>, i: nat, v: User)
    requires UniqueUsers(users) && AllUsersSchemaValid(users) && i < |users|
    requires v.id == users[i].id && UserSchemaValid(v)
    requires v.username == users[i].username || !NameTaken(users, v.username, v.id)
    ensures UniqueUsers(users[i := v]) && AllUsersSchemaValid(users[i := v])
  {
    var t := users[i := v];
    DistinctKeysUpdate(users, UserId, i, v);
    forall a, b | 0 <= a < b < |t| ensures Username(t[a]) != Username(t[b]) {
      if a == i {
        assert users[b].id != users[i].id;
      } else if b == i {
        assert users[a].id != users[i].id;
      } else {
        assert t[a] == users[a] && t[b] == users[b];
      }
    }
  }

  // ---------------------------------------------------------------------
  // updateProfile
  // ---------------------------------------------------------------------

  /** `updateProfile` renames only for a present, non-blank name that
      differs, as written, from the current one. */
  predicate Renames(u: User, username: Option<string>)
  {
    username.Some? && !IsBlank(username.value) && username.value != u.username
  }

  /** The edited record: the trimmed new name when renaming, the trimmed
      intro when one is sent; nothing else changes. */
  function ProfileEdited(u: User, username: Option<string>, intro: Option<string>): (v: User)
    ensures v.id == u.id && v.email == u.email && v.password == u.password
    ensures v.profileImage == u.profileImage && v.isActive == u.isActive
    ensures v.username != u.username ==> Renames(u, username) && v.username == Trim(username.value) && v.username != []
    ensures Renames(u, username) ==> v.username == Trim(username.value)
    ensures v.intro == (if intro.Some? then Trim(intro.value) else u.intro)
  {
    u.(username := if Renames(u, username) then Trim(username.value) else u.username,
       intro := if intro.Some? then Trim(intro.value) else u.intro)
  }

  /** `updateProfile`: 404 for a missing user; 400 when another user holds
      the trimmed new name; 400 when the schema rejects the edit on save
      (`ValidationError`); otherwise the edit is saved. */
  method UpdateProfile(db: Db, userId: Id, username: Option<string>, intro: Option<string>) returns (status: int)
    requires db.Valid()
    modifies db`users
    ensures db.Valid()
    ensures status in {Ok, BadRequest, NotFound}
    ensures status != Ok ==> db.users == old(db.users)
    ensures UserIndex(old(db.users), userId) < 0 ==> status == NotFound
    ensures UserIndex(old(db.users), userId) >= 0 ==>
      var i := UserIndex(old(db.users), userId);
      var u := old(db.users)[i];
      var v := ProfileEdited(u, username, intro);
      status == (if Renames(u, username) && NameTaken(old(db.users), Trim(username.value), userId) then BadRequest
                 else if !UserSchemaValid(v) then BadRequest else Ok)
      && (status == Ok ==> db.users == old(db.users)[i := v])
  {
    var i := UserIndex(db.users, userId);
    if i < 0 {
      return NotFound;
    }
    var u := db.users[i];
    if Renames(u, username) && NameTaken(db.users, Trim(username.value), userId) {
      return BadRequest;
    }
    var v := ProfileEdited(u, username, intro);
    if !UserSchemaValid(v) {
      return BadRequest;
    }
    SaveKeepsValid(db.users, i, v);
    db.users := db.users[i := v];
    status := Ok;
  }

  // ---------------------------------------------------------------------
  // updateProfileImage, deleteProfileImage
  // ---------------------------------------------------------------------

  /** `updateProfileImage`: 400 without an uploaded file, 404 for a missing
      user, otherwise the upload's path with the first occurrence of the
      working directory `cwd` cut out replaces the old one (deleting the old
      file is not modelled). */
  method UpdateProfileImage(db: Db, userId: Id, file: Option<string>, cwd: string) returns (status: int)
    requires db.Valid()
    modifies db`users
    ensures db.Valid()
    ensures file.None? || file.value == [] ==> status == BadRequest && db.users == old(db.users)
    ensures file.Some? && file.value != [] ==>
      var i := UserIndex(old(db.users), userId);
      if i < 0 then status == NotFound && db.users == old(db.users)
      else status == Ok && db.users == old(db.users)[i := old(db.users)[i].(profileImage := Some(StoredImagePath(file.value, cwd)))]
  {
    if file.None? || file.value == [] {
      return BadRequest;
    }
    var i := UserIndex(db.users, userId);
    if i < 0 {
      return NotFound;
    }
    var v := db.users[i].(profileImage := Some(StoredImagePath(file.value, cwd)));
    SaveKeepsValid(db.users, i, v);
    db.users := db.users[i := v];
    status := Ok;
  }

  /** `newImagePath.replace(process.cwd(), "")`: an upload saved under the
      working directory is stored relative to it, and a path that does not
      hold the working directory is stored as it is. */
  function StoredImagePath(upload: string, cwd: string): (stored: string)
    ensures forall rest :: upload == cwd + rest ==> stored == rest
    ensures (forall j: nat :: !OccursAt(upload, cwd, j)) ==> stored == upload
  {
    UnderCwd(upload, cwd);
    RemoveFirst(upload, cwd)
  }

  lemma UnderCwd(upload: string, cwd: string)
    ensures forall rest :: upload == cwd + rest ==> RemoveFirst(upload, cwd) == rest
  {
    forall rest | upload == cwd + rest ensures RemoveFirst(upload, cwd) == rest {
      RemoveLeadingPrefix(cwd, rest);
    }
  }

  /** A stored image path that is missing or empty counts as no image. */
  predicate HasImage(u: User)
  {
    u.profileImage.Some? && u.profileImage.value != []
  }

  /** `deleteProfileImage`: 404 for a missing user, 400 when there is no
      image, otherwise the path is set to null. */
  method DeleteProfileImage(db: Db, userId: Id) returns (status: int)
    requires db.Valid()
    modifies db`users
    ensures db.Valid()
    ensures var i := UserIndex(old(db.users), userId);
      if i < 0 then status == NotFound && db.users == old(db.users)
      else if !HasImage(old(db.users)[i]) then status == BadRequest && db.users == old(db.users)
      else status == Ok && db.users == old(db.users)[i := old(db.users)[i].(profileImage := None)]
  {
    var i := UserIndex(db.users, userId);
    if i < 0 {
      return NotFound;
    }
    if !HasImage(db.users[i]) {
      return BadRequest;
    }
    var v := db.users[i].(profileImage := None);
    SaveKeepsValid(db.users, i, v);
    db.users := db.users[i := v];
    status := Ok;
  }

  // ---------------------------------------------------------------------
  // changePassword, deactivateAccount, reactivateAccount
  // ---------------------------------------------------------------------

  /** `user.comparePassword(candidate)`. An absent candidate makes the
      comparison throw, which the handlers turn into a 500. */
  predicate PasswordMatches(u: User, candidate: string)
  {
    candidate == u.password
  }

  /** `changePassword` (userController): 404, then 500 for an absent
      password, 400 for a wrong current password, 400 for a new password
      equal to the current one, 400 when the schema rejects the new one
      (shorter than 6), and otherwise the new password is stored. */
  method ChangePassword(db: Db, userId: Id, currentPassword: Option<string>, newPassword: Option<string>) returns (status: int)
    requires db.Valid()
    modifies db`users
    ensures db.Valid()
    ensures status != Ok ==> db.users == old(db.users)
    ensures var i := UserIndex(old(db.users), userId);
      if i < 0 then status == NotFound
      else
        var u := old(db.users)[i];
        status == (if currentPassword.None? then ServerError
                   else if !PasswordMatches(u, currentPassword.value) then BadRequest
                   else if newPassword.None? then ServerError
                   else if PasswordMatches(u, newPassword.value) then BadRequest
                   else if |newPassword.value| < 6 then BadRequest
                   else Ok)
        && (status == Ok ==> db.users == old(db.users)[i := u.(password := newPassword.value)])
    ensures status == Ok ==>
      var i := UserIndex(old(db.users), userId);
      PasswordMatches(db.users[i], newPassword.value) && !PasswordMatches(db.users[i], currentPassword.value)
  {
    var i := UserIndex(db.users, userId);
    if i < 0 {
      return NotFound;
    }
    var u := db.users[i];
    if currentPassword.None? {
      return ServerError;
    }
    if !PasswordMatches(u, currentPassword.value) {
      return BadRequest;
    }
    if newPassword.None? {
      return ServerError;
    }
    if PasswordMatches(u, newPassword.value) {
      return BadRequest;
    }
    var v := u.(password := newPassword.value);
    if !UserSchemaValid(v) {
      return BadRequest;
    }
    SaveKeepsValid(db.users, i, v);
    db.users := db.users[i := v];
    status := Ok;
  }

  /** `deactivateAccount`: 404, then 500 for an absent password, 400 for a
      wrong one, and otherwise the account is made inactive (also when it
      already is). */
  method DeactivateAccount(db: Db, userId: Id, password: Option<string>) returns (status: int)
    requires db.Valid()
    modifies db`users
    ensures db.Valid()
    ensures status != Ok ==> db.users == old(db.users)
    ensures var i := UserIndex(old(db.users), userId);
      if i < 0 then status == NotFound
      else
        var u := old(db.users)[i];
        status == (if password.None? then ServerError else if !PasswordMatches(u, password.value) then BadRequest else Ok)
        && (status == Ok ==> db.users == old(db.users)[i := u.(isActive := false)])
  {
    var i := UserIndex(db.users, userId);
    if i < 0 {
      return NotFound;
    }
    if password.None? {
      return ServerError;
    }
    if !PasswordMatches(db.users[i], password.value) {
      return BadRequest;
    }
    var v := db.users[i].(isActive := false);
    SaveKeepsValid(db.users, i, v);
    db.users := db.users[i := v];
    status := Ok;
  }

  /** `reactivateAccount`: 404, 400 for an account that is already active,
      otherwise the account is made active again. */
  method ReactivateAccount(db: Db, userId: Id) returns (status: int)
    requires db.Valid()
    modifies db`users
    ensures db.Valid()
    ensures var i := UserIndex(old(db.users), userId);
      if i < 0 then status == NotFound && db.users == old(db.users)
      else if old(db.users)[i].isActive then status == BadRequest && db.users == old(db.users)
      else status == Ok && db.users == old(db.users)[i := old(db.users)[i].(isActive := true)]
  {
    var i := UserIndex(db.users, userId);
    if i < 0 {
      return NotFound;
    }
    if db.users[i].isActive {
      return BadRequest;
    }
    var v := db.users[i].(isActive := true);
    SaveKeepsValid(db.users, i, v);
    db.users := db.users[i := v];
    status := Ok;
  }

  /** Deactivating and then reactivating an active account gives back the
      table it started from. */
  lemma {:induction false} ReactivateUndoesDeactivate(users: seq<User>, i: nat)
    requires i < |users| && users[i].isActive
    ensures var off := users[i := users[i].(isActive := false)];
      !off[i].isActive && off[i := off[i].(isActive := true)] == users
  {
    var off := users[i := users[i].(isActive := false)];
    assert off[i].(isActive := true) == users[i];
  }

  // ---------------------------------------------------------------------
  // getMyPosts, getUserPosts
  // ---------------------------------------------------------------------

  /** The filter of `getMyPosts`. */
  function OwnPost(user: Id, includeInactive: string): Post -> bool
  {
    (p: Post) => p.author == user && (includeInactive == "true" || p.isActive)
  }

  /** The filter of `getUserPosts`. */
  function ActivePostOf(userId: Id): Post -> bool
  {
    (p: Post) => p.author == userId && p.isActive
  }

  /** What `getMyPosts` lists passed its filter. */
  lemma OwnPostsListed(likes: seq<Like>, comments: seq<Comment>, posts: seq<Post>, user: Id, includeInactive: string,
                       page: nat, limit: nat)
    requires page >= 1 && limit >= 1
    ensures var r := PostController.ListRows(likes, comments, Filter(posts, OwnPost(user, includeInactive)), Some(user), page, limit);
      forall k :: 0 <= k < |r.posts| ==>
        r.posts[k].author == user && (r.posts[k].isActive || includeInactive == "true")
        && r.posts[k].isLiked == PostModel.IsLikedByUser(likes, r.posts[k].id, Some(user))
  {
    var rows := Filter(posts, OwnPost(user, includeInactive));
    var r := PostController.ListRows(likes, comments, rows, Some(user), page, limit);
    forall k | 0 <= k < |r.posts|
      ensures r.posts[k].author == user && (r.posts[k].isActive || includeInactive == "true")
      ensures r.posts[k].isLiked == PostModel.IsLikedByUser(likes, r.posts[k].id, Some(user))
    {
      var p :| p in rows && r.posts[k] == PostController.View(likes, comments, p, Some(user));
    }
  }

  /** What `getUserPosts` lists is an active post of that user. */
  lemma ActivePostsListed(likes: seq<Like>, comments: seq<Comment>, posts: seq<Post>, userId: Id, viewer: Option<Id>,
                          page: nat, limit: nat)
    requires page >= 1 && limit >= 1
    ensures var r := PostController.ListRows(likes, comments, Filter(posts, ActivePostOf(userId)), viewer, page, limit);
      forall k :: 0 <= k < |r.posts| ==> r.posts[k].author == userId && r.posts[k].isActive
  {
    var rows := Filter(posts, ActivePostOf(userId));
    var r := PostController.ListRows(likes, comments, rows, viewer, page, limit);
    forall k | 0 <= k < |r.posts|
      ensures r.posts[k].author == userId && r.posts[k].isActive
    {
      var p :| p in rows && r.posts[k] == PostController.View(likes, comments, p, viewer);
    }
  }

  /** `getMyPosts`: the caller's posts, inactive ones included only when
      `includeInactive` is the string "true"; likes are checked for the
      caller. */
  function GetMyPosts(posts: seq<Post>, likes: seq<Like>, comments: seq<Comment>, user: Id, includeInactive: string,
                      page: nat, limit: nat): (r: PostController.PostList)
    requires page >= 1 && limit >= 1
    ensures r.status == Ok
    ensures r.totalPosts == Count(posts, OwnPost(user, includeInactive))
    ensures r.totalPages == CeilDiv(r.totalPosts, limit) && |r.posts| <= limit
    ensures r.posts == PostController.Views(likes, comments, NewestPage(Filter(posts, OwnPost(user, includeInactive)),
                                                                        PostModel.Stamp, page, limit), Some(user))
    ensures forall k :: 0 <= k < |r.posts| ==>
      r.posts[k].author == user && (r.posts[k].isActive || includeInactive == "true")
      && r.posts[k].isLiked == PostModel.IsLikedByUser(likes, r.posts[k].id, Some(user))
    ensures forall i, j :: 0 <= i < j < |r.posts| ==> r.posts[i].createdAt >= r.posts[j].createdAt
  {
    var keep := OwnPost(user, includeInactive);
    var rows := Filter(posts, keep);
    FilterExt(posts, keep, PostController.UserPostFilter(user, Some(user), includeInactive));
    var r := PostController.ListRows(likes, comments, rows, Some(user), page, limit);
    OwnPostsListed(likes, comments, posts, user, includeInactive, page, limit);
    r
  }

  /** `getUserPosts` (userController): 404 for a missing user and for an
      inactive one seen by anybody else; otherwise only active posts, for
      every viewer including the author. */
  function GetUserPosts(users: seq<User>, posts: seq<Post>, likes: seq<Like>, comments: seq<Comment>, userId: Id,
                        viewer: Option<Id>, page: nat, limit: nat): (r: PostController.PostList)
    requires page >= 1 && limit >= 1
    ensures r.status == Ok <==> UserExists(users, userId) && Visible(users[UserIndex(users, userId)], viewer)
    ensures r.status != Ok ==> r.status == NotFound && r.posts == []
    ensures r.status == Ok ==>
      r.totalPosts == Count(posts, ActivePostOf(userId)) && r.totalPages == CeilDiv(r.totalPosts, limit)
      && r.posts == PostController.Views(likes, comments, NewestPage(Filter(posts, ActivePostOf(userId)), PostModel.Stamp, page, limit), viewer)
      && |r.posts| <= limit
      && forall k :: 0 <= k < |r.posts| ==> r.posts[k].author == userId && r.posts[k].isActive
    ensures viewer.None? ==> forall k :: 0 <= k < |r.posts| ==> !r.posts[k].isLiked
  {
    var i := UserIndex(users, userId);
    if i < 0 || !Visible(users[i], viewer) then PostController.PostList(NotFound, [], 0, page, 0)
    else
      var rows := Filter(posts, ActivePostOf(userId));
      var r := PostController.ListRows(likes, comments, rows, viewer, page, limit);
      ActivePostsListed(likes, comments, posts, userId, viewer, page, limit);
      r
  }

  /** Every post `getMyPosts` selects is shown on a page the reply's page
      count announces. */
  lemma {:induction false} EveryOwnPostIsListed(posts: seq<Post>, likes: seq<Like>, comments: seq<Comment>, user: Id,
                                                includeInactive: string, limit: nat, p: Post) returns (page: nat)
    requires limit >= 1 && p in posts && OwnPost(user, includeInactive)(p)
    ensures page >= 1
    ensures var r := GetMyPosts(posts, likes, comments, user, includeInactive, page, limit);
      page <= r.totalPages && PostController.View(likes, comments, p, Some(user)) in r.posts
  {
    var rows := Filter(posts, OwnPost(user, includeInactive));
    assert p in rows;
    page := EveryRowIsListed(rows, PostModel.Stamp, limit, p);
    PostController.ViewOfListed(likes, comments, NewestPage(rows, PostModel.Stamp, page, limit), Some(user), p);
  }

  /** Every active post of a visible user is shown on a page the reply's page
      count announces. */
  lemma {:induction false} EveryActivePostOfIsListed(users: seq<User>, posts: seq<Post>, likes: seq<Like>, comments: seq<Comment>,
                                                     userId: Id, viewer: Option<Id>, limit: nat, p: Post) returns (page: nat)
    requires limit >= 1 && UserExists(users, userId) && Visible(users[UserIndex(users, userId)], viewer)
    requires p in posts && p.author == userId && p.isActive
    ensures page >= 1
    ensures var r := GetUserPosts(users, posts, likes, comments, userId, viewer, page, limit);
      page <= r.totalPages && PostController.View(likes, comments, p, viewer) in r.posts
  {
    var rows := Filter(posts, ActivePostOf(userId));
    assert p in rows;
    page := EveryRowIsListed(rows, PostModel.Stamp, limit, p);
    PostController.ViewOfListed(likes, comments, NewestPage(rows, PostModel.Stamp, page, limit), viewer, p);
  }

  // ---------------------------------------------------------------------
  // getMyComments
  // ---------------------------------------------------------------------

  datatype MyComments = MyComments(status: int, comments: seq<Comment>, totalComments: nat, currentPage: nat, totalPages: nat)

  /** The populate with `match: { isActive: true }` keeps a comment's post
      only when that post exists and is active. */
  function OnActivePost(posts: seq<Post>): Comment -> bool
  {
    (c: Comment) => PostController.ActivePostIndex(posts, c.post) >= 0
  }

  function Authored(user: Id): Comment -> bool
  {
    (c: Comment) => c.author == user
  }

  /** The comments the total counts: the caller's, on active posts. */
  function CountedComment(posts: seq<Post>, user: Id): Comment -> bool
  {
    (c: Comment) => c.author == user && OnActivePost(posts)(c)
  }

  /** `getMyComments` as written: it takes one page of all the caller's
      comments, newest first, and only then drops those whose post is
      inactive, while the total counts the caller's comments on active
      posts. A page can therefore come back short, or empty, while later
      pages hold comments the total counts. */
  function GetMyCommentsAsWritten(posts: seq<Post>, comments: seq<Comment>, user: Id, page: nat, limit: nat): (r: MyComments)
    requires page >= 1 && limit >= 1
    ensures r.status == Ok && |r.comments| <= limit
    ensures r.totalComments == Count(comments, CountedComment(posts, user)) && r.totalPages == CeilDiv(r.totalComments, limit)
    ensures forall k :: 0 <= k < |r.comments| ==> r.comments[k] in comments && CountedComment(posts, user)(r.comments[k])
  {
    var paged := NewestPage(Filter(comments, Authored(user)), CommentController.Stamp, page, limit);
    var items := Filter(paged, OnActivePost(posts));
    PagedCommentsCounted(posts, comments, user, page, limit);
    var total := Count(comments, CountedComment(posts, user));
    MyComments(Ok, items, total, page, CeilDiv(total, limit))
  }

  /** A comment left on the page after the active-post filter is one the
      total counts. */
  lemma PagedCommentsCounted(posts: seq<Post>, comments: seq<Comment>, user: Id, page: nat, limit: nat)
    requires page >= 1 && limit >= 1
    ensures var items := Filter(NewestPage(Filter(comments, Authored(user)), CommentController.Stamp, page, limit), OnActivePost(posts));
      forall k :: 0 <= k < |items| ==> items[k] in comments && CountedComment(posts, user)(items[k])
  {
    var paged := NewestPage(Filter(comments, Authored(user)), CommentController.Stamp, page, limit);
    var items := Filter(paged, OnActivePost(posts));
    forall k | 0 <= k < |items|
      ensures items[k] in comments && CountedComment(posts, user)(items[k])
    {
      assert items[k] in paged;
    }
  }

  /** Two comments by "u", made at `t` and `t + 1`, the newer one on an
      inactive post, one per page: page 1 is empty and announces a single
      page, and the comment the total counts is on page 2. */
  lemma AsWrittenHidesCountedComment(t: int)
    ensures var p := Post("p", "a", "hi", [], [], true, t, []);
      var q := Post("q", "a", "gone", [], [], false, t, []);
      var newer := Comment("c2", "u", "q", "second", t + 1, t + 1);
      var older := Comment("c1", "u", "p", "first", t, t);
      var first := GetMyCommentsAsWritten([p, q], [newer, older], "u", 1, 1);
      first.comments == [] && first.totalComments == 1 && first.totalPages == 1
      && GetMyCommentsAsWritten([p, q], [newer, older], "u", 2, 1).comments == [older]
  {
    var p := Post("p", "a", "hi", [], [], true, t, []);
    var q := Post("q", "a", "gone", [], [], false, t, []);
    ActiveThenInactive(p, q);
    PageBeforeFilter([p, q], Comment("c2", "u", "q", "second", t + 1, t + 1), Comment("c1", "u", "p", "first", t, t), "u");
  }

  lemma ActiveThenInactive(p: Post, q: Post)
    requires p.isActive && !q.isActive && p.id != q.id
    ensures PostController.ActivePostIndex([p, q], q.id) == -1
    ensures PostController.ActivePostIndex([p, q], p.id) == 0
  {
    assert [p, q][1..] == [q];
  }

  /** The general case: of two comments by `user`, the newer on an inactive
      post and the older on an active one, page 1 of size 1 is empty. */
  lemma PageBeforeFilter(posts: seq<Post>, newer: Comment, older: Comment, user: Id)
    requires newer.createdAt >= older.createdAt && newer.author == user && older.author == user
    requires PostController.ActivePostIndex(posts, newer.post) < 0 <= PostController.ActivePostIndex(posts, older.post)
    ensures var first := GetMyCommentsAsWritten(posts, [newer, older], user, 1, 1);
      first.comments == [] && first.totalComments == 1 && first.totalPages == 1
      && GetMyCommentsAsWritten(posts, [newer, older], user, 2, 1).comments == [older]
  {
    var table := [newer, older];
    OnePerPage(newer, older, user);
    ActiveFilterOfPair(posts, newer, older, user);
    assert GetMyCommentsAsWritten(posts, table, user, 1, 1).comments == Filter([newer], OnActivePost(posts));
    assert GetMyCommentsAsWritten(posts, table, user, 2, 1).comments == Filter([older], OnActivePost(posts));
  }

  /** The two filters of `getMyComments` on the pair of comments. */
  lemma ActiveFilterOfPair(posts: seq<Post>, newer: Comment, older: Comment, user: Id)
    requires newer.author == user && older.author == user
    requires PostController.ActivePostIndex(posts, newer.post) < 0 <= PostController.ActivePostIndex(posts, older.post)
    ensures Filter([newer], OnActivePost(posts)) == []
    ensures Filter([older], OnActivePost(posts)) == [older]
    ensures Filter([newer, older], CountedComment(posts, user)) == [older]
  {
    assert [newer, older][1..] == [older];
  }

  /** One per page, the newer of two comments by `user` comes first. */
  lemma OnePerPage(newer: Comment, older: Comment, user: Id)
    requires newer.createdAt >= older.createdAt && newer.author == user && older.author == user
    ensures NewestPage(Filter([newer, older], Authored(user)), CommentController.Stamp, 1, 1) == [newer]
    ensures NewestPage(Filter([newer, older], Authored(user)), CommentController.Stamp, 2, 1) == [older]
  {
    var table := [newer, older];
    assert table[1..] == [older];
    assert Filter(table, Authored(user)) == table;
    NewerAheadStays(newer, older);
  }

  /** Two comments already newest first stay in that order. */
  lemma NewerAheadStays(newer: Comment, older: Comment)
    requires newer.createdAt >= older.createdAt
    ensures SortNewestFirst([newer, older], CommentController.Stamp) == [newer, older]
  {
    var before := NewestFirst(CommentController.Stamp);
    NewestFirstIsPreorder(CommentController.Stamp);
    assert [newer, older][1..] == [older];
    assert SortBy([older], before) == [older];
    assert before(newer, older) == (CommentController.Stamp(newer) >= CommentController.Stamp(older));
    assert Insert(newer, [older], before) == [newer, older];
    assert SortBy([newer, older], before) == Insert(newer, SortBy([older], before), before);
  }

  /** `getMyComments` as the total intends: the caller's comments on active
      posts, newest first, one page of them, and the number of all of them. */
  function GetMyComments(posts: seq<Post>, comments: seq<Comment>, user: Id, page: nat, limit: nat): (r: MyComments)
    requires page >= 1 && limit >= 1
    ensures r.status == Ok && |r.comments| <= limit
    ensures var all := SortNewestFirst(Filter(comments, CountedComment(posts, user)), CommentController.Stamp);
      r.comments == Page(all, page, limit) && r.totalComments == |all| && r.totalPages == CeilDiv(|all|, limit)
    ensures r.totalComments == Count(comments, CountedComment(posts, user))
    ensures forall k :: 0 <= k < |r.comments| ==> r.comments[k] in comments && CountedComment(posts, user)(r.comments[k])
    ensures forall i, j :: 0 <= i < j < |r.comments| ==> r.comments[i].createdAt >= r.comments[j].createdAt
  {
    var rows := Filter(comments, CountedComment(posts, user));
    var all := SortNewestFirst(rows, CommentController.Stamp);
    PageOfSorted(rows, all, CommentController.Stamp, page, limit);
    var items := Page(all, page, limit);
    MyComments(Ok, items, |all|, page, CeilDiv(|all|, limit))
  }

  /** Every comment the corrected listing counts appears on a page within
      the announced page count: the `k`-th newest on page `k / limit + 1`. */
  lemma {:induction false} EveryCountedCommentIsListed(posts: seq<Post>, comments: seq<Comment>, user: Id, limit: nat, k: nat)
      returns (page: nat)
    requires limit >= 1
    requires k < Count(comments, CountedComment(posts, user))
    ensures page >= 1 && page == k / limit + 1
    ensures var all := SortNewestFirst(Filter(comments, CountedComment(posts, user)), CommentController.Stamp);
      var r := GetMyComments(posts, comments, user, page, limit);
      k < |all| && page <= r.totalPages && all[k] in r.comments
  {
    var all := SortNewestFirst(Filter(comments, CountedComment(posts, user)), CommentController.Stamp);
    assert k < |all|;
    page := IndexListed(all, limit, k);
    MyCommentsPaging(posts, comments, user, page, limit);
  }

  /** Item `k` of a listing sits on page `k / limit + 1`, which the page
      count announces. */
  lemma IndexListed<T>(all: seq<T>, limit: nat, k: nat) returns (page: nat)
    requires limit >= 1 && k < |all|
    ensures page >= 1 && page == k / limit + 1
    ensures page <= CeilDiv(|all|, limit) && all[k] in Page(all, page, limit)
  {
    page := k / limit + 1;
    PageOfIndex(|all|, limit, k);
    OnItsPage(all, page, limit, k);
  }

  lemma MyCommentsPaging(posts: seq<Post>, comments: seq<Comment>, user: Id, page: nat, limit: nat)
    requires page >= 1 && limit >= 1
    ensures var all := SortNewestFirst(Filter(comments, CountedComment(posts, user)), CommentController.Stamp);
      var r := GetMyComments(posts, comments, user, page, limit);
      |all| == Count(comments, CountedComment(posts, user))
      && r.comments == Page(all, page, limit) && r.totalPages == CeilDiv(|all|, limit)
  {
  }

  // ---------------------------------------------------------------------
  // searchUsers
  // ---------------------------------------------------------------------

  datatype Found = Found(id: Id, username: string, profileImage: Option<string>, intro: string)

  datatype Search = Search(status: int, users: seq<Found>, totalUsers: nat, currentPage: nat, totalPages: nat)

  function Card(u: User): Found
  {
    Found(u.id, u.username, u.profileImage, u.intro)
  }

  function Cards(us: seq<User>): (r: seq<Found>)
    ensures |r| == |us| && forall k :: 0 <= k < |us| ==> r[k] == Card(us[k])
  {
    if us == [] then [] else [Card(us[0])] + Cards(us[1..])
  }

  /** Ascending by username. */
  ghost predicate ByUsername(found: seq<Found>)
  {
    forall i, j :: 0 <= i < j < |found| ==> LexLeq(found[i].username, found[j].username)
  }

  /** `.sort({ username: 1 })`. */
  function SortByUsername(rows: seq<User>): (r: seq<User>)
    ensures multiset(r) == multiset(rows) && |r| == |rows|
    ensures Sorted(r, Ascending(Username))
  {
    AscendingIsPreorder(Username);
    SortBy(rows, Ascending(Username))
  }

  /** The search filter: active users the pattern matches. */
  function Searched(term: string, matches: (string, User) -> bool): User -> bool
  {
    (u: User) => u.isActive && matches(term, u)
  }

  /** `searchUsers`: 400 for a missing or blank query; otherwise the active
      users the trimmed term matches, by username ascending, one page of
      them, and the number of all of them. `matches(term, u)` stands for the
      case-insensitive `$regex` test on the username and the intro. */
  function SearchUsers(users: seq<User>, q: Option<string>, matches: (string, User) -> bool, page: nat, limit: nat): (r: Search)
    requires page >= 1 && limit >= 1
    ensures r.status == BadRequest <==> q.None? || IsBlank(q.value)
    ensures r.status != BadRequest ==> r.status == Ok
    ensures r.status == BadRequest ==> r.users == []
    ensures r.status == Ok ==>
      r.totalUsers == Count(users, Searched(Trim(q.value), matches)) && r.totalPages == CeilDiv(r.totalUsers, limit)
      && |r.users| <= limit
      && (forall k :: 0 <= k < |r.users| ==>
            exists u :: u in users && u.isActive && matches(Trim(q.value), u) && r.users[k] == Card(u))
      && ByUsername(r.users)
    ensures r.status == Ok ==>
      r.users == Cards(Page(SortByUsername(Filter(users, Searched(Trim(q.value), matches))), page, limit))
  {
    if q.None? || IsBlank(q.value) then Search(BadRequest, [], 0, page, 0)
    else
      var term := Trim(q.value);
      var rows := Filter(users, Searched(term, matches));
      var sorted := SortByUsername(rows);
      var listed := Page(sorted, page, limit);
      PageOfSortedBy(rows, sorted, Ascending(Username), page, limit);
      FoundAreMatches(users, term, matches, listed);
      var items := Cards(listed);
      Search(Ok, items, |rows|, page, CeilDiv(|rows|, limit))
  }

  /** The cards of a page of sorted search hits are hits, in username order. */
  lemma FoundAreMatches(users: seq<User>, term: string, matches: (string, User) -> bool, listed: seq<User>)
    requires forall k :: 0 <= k < |listed| ==> listed[k] in Filter(users, Searched(term, matches))
    requires Sorted(listed, Ascending(Username))
    ensures var items := Cards(listed);
      (forall k :: 0 <= k < |items| ==> exists u :: u in users && u.isActive && matches(term, u) && items[k] == Card(u))
      && ByUsername(items)
  {
    var items := Cards(listed);
    forall k | 0 <= k < |items|
      ensures exists u :: u in users && u.isActive && matches(term, u) && items[k] == Card(u)
    {
      assert listed[k] in users && Searched(term, matches)(listed[k]);
    }
    forall i, j | 0 <= i < j < |items| ensures LexLeq(items[i].username, items[j].username) {
      assert Ascending(Username)(listed[i], listed[j]);
      assert items[i] == Card(listed[i]) && items[j] == Card(listed[j]);
      assert LexLeq(Username(listed[i]), Username(listed[j]));
    }
  }

  /** Every active user the term matches is found on a page the reply's page
      count announces. */
  lemma {:induction false} EveryMatchIsFound(users: seq<User>, q: Option<string>, matches: (string, User) -> bool,
                                             limit: nat, u: User) returns (page: nat)
    requires limit >= 1 && q.Some? && !IsBlank(q.value)
    requires u in users && u.isActive && matches(Trim(q.value), u)
    ensures page >= 1
    ensures var r := SearchUsers(users, q, matches, page, limit);
      page <= r.totalPages && Card(u) in r.users
  {
    var rows := Filter(users, Searched(Trim(q.value), matches));
    assert u in rows;
    var sorted := SortByUsername(rows);
    page := EveryRowIsListedBy(rows, sorted, limit, u);
    CardOfListed(Page(sorted, page, limit), u);
  }

  lemma CardOfListed(us: seq<User>, u: User)
    requires u in us
    ensures Card(u) in Cards(us)
  {
    var k :| 0 <= k < |us| && us[k] == u;
    assert Cards(us)[k] == Card(u);
  }
}
