/** The legacy account handlers of `profileController.js`: profile lookups
    with a post count, a profile edit with its own length checks, a password
    change with presence and length guards, and post listings without an
    `isActive` filter. */
module ProfileController {
  import opened Common
  import opened Entities
  import opened Sorting
  import opened Store
  import UserController
  import PostModel

  const Ok: int := 200
  const BadRequest: int := 400
  const NotFound: int := 404
  const ServerError: int := 500

  // ---------------------------------------------------------------------
  // getMyProfile, getUserProfile
  // ---------------------------------------------------------------------

  /** A legacy profile: the public fields, the email only for the owner's
      own lookup, and the number of posts the user wrote, active or not. */
  datatype LegacyProfile = LegacyProfile(id: Id, username: string, email: Option<string>, profileImage: Option<string>,
                                         intro: string, postsCount: nat)

  /** `getMyProfile` (with `own`) and `getUserProfile` (without): 404 for a
      missing user, whether active or not; otherwise the fields and the post
      count. */
  function GetProfile(users: seq<User>, posts: seq<Post>, userId: Id, own: bool): (r: (int, Option<LegacyProfile>))
    ensures r.0 == Ok <==> UserExists(users, userId)
    ensures r.0 != Ok ==> r.0 == NotFound && r.1 == None
    ensures r.0 == Ok ==>
      var u := users[UserIndex(users, userId)];
      r.1.Some? && r.1.value.id == userId && r.1.value.username == u.username && r.1.value.intro == u.intro
      && r.1.value.email == (if own then Some(u.email) else None)
      && r.1.value.profileImage == u.profileImage
      && r.1.value.postsCount == Count(posts, (p: Post) => p.author == userId)
  {
    var i := UserIndex(users, userId);
    if i < 0 then (NotFound, None)
    else
      var u := users[i];
      (Ok, Some(LegacyProfile(u.id, u.username, if own then Some(u.email) else None, u.profileImage, u.intro,
                              Count(posts, (p: Post) => p.author == userId))))
  }

  /** A new post by the user raises the count the lookups report by one,
      and a post by anybody else leaves it alone. */
  lemma {:induction false} PostsCountTracksPosts(users: seq<User>, posts: seq<Post>, userId: Id, own: bool, p: Post)
    requires UserExists(users, userId)
    ensures GetProfile(users, posts + [p], userId, own).1.value.postsCount
      == GetProfile(users, posts, userId, own).1.value.postsCount + (if p.author == userId then 1 else 0)
  {
    var mine := (q: Post) => q.author == userId;
    FilterAppend(posts, [p], mine);
    assert Filter([p], mine) == (if p.author == userId then [p] else []);
  }

  // ---------------------------------------------------------------------
  // updateProfile
  // ---------------------------------------------------------------------

  /** A username in the body that the handler acts on: present and not blank. */
  predicate GivesName(username: Option<string>)
  {
    username.Some? && !IsBlank(username.value)
  }

  /** The edited record: the trimmed name when one is given, the trimmed
      intro when one is sent, and the image path whenever the body has the
      field (`null` included). */
  function Edited(u: User, username: Option<string>, intro: Option<string>, profileImage: Option<Option<string>>): (v: User)
    ensures v.id == u.id && v.email == u.email && v.password == u.password && v.isActive == u.isActive
    ensures v.username == (if GivesName(username) then Trim(username.value) else u.username)
    ensures v.intro == (if intro.Some? then Trim(intro.value) else u.intro)
    ensures v.profileImage == (if profileImage.Some? then profileImage.value else u.profileImage)
  {
    u.(username := if GivesName(username) then Trim(username.value) else u.username,
       intro := if intro.Some? then Trim(intro.value) else u.intro,
       profileImage := if profileImage.Some? then profileImage.value else u.profileImage)
  }

  /** Saving `v` over its own row succeeds: the schema accepts it and the
      unique index on `username` does not reject it. */
  predicate SaveAccepts(users: seq<User>, v: User)
  {
    UserSchemaValid(v) && !UserController.NameTaken(users, v.username, v.id)
  }

  /** `updateProfile` as written. A given name must be 2 to 20 characters
      long measured before trimming, and the duplicate check looks for the
      untrimmed name; an intro may be up to 200 characters. The trimmed
      name and intro are then saved, and the save can still fail against
      the schema (3 to 20 characters, intro up to 150) or the unique index,
      which the generic handler turns into a 500. */
  function UpdateStatusAsWritten(users: seq<User>, userId: Id, username: Option<string>, intro: Option<string>,
                                 profileImage: Option<Option<string>>): (status: int)
    ensures status in {Ok, BadRequest, NotFound, ServerError}
    ensures status == NotFound <==> !UserExists(users, userId)
    ensures UserExists(users, userId) && GivesName(username) && !(2 <= |username.value| <= 20) ==> status == BadRequest
    ensures UserExists(users, userId) && GivesName(username) && UserController.NameTaken(users, username.value, userId)
      ==> status == BadRequest
    ensures UserExists(users, userId) && intro.Some? && |intro.value| > 200 ==> status == BadRequest
    ensures UserExists(users, userId)
      && !(GivesName(username) && (!(2 <= |username.value| <= 20) || UserController.NameTaken(users, username.value, userId)))
      && !(intro.Some? && |intro.value| > 200)
      ==> status in {Ok, ServerError}
    ensures status in {Ok, ServerError} ==>
      var v := Edited(users[UserIndex(users, userId)], username, intro, profileImage);
      (status == Ok <==> SaveAccepts(users, v))
  {
    var i := UserIndex(users, userId);
    if i < 0 then NotFound
    else if GivesName(username) && !(2 <= |username.value| <= 20) then BadRequest
    else if GivesName(username) && UserController.NameTaken(users, username.value, userId) then BadRequest
    else if intro.Some? && |intro.value| > 200 then BadRequest
    else if !SaveAccepts(users, Edited(users[i], username, intro, profileImage)) then ServerError
    else Ok
  }

  /** A two-character name passes the handler's own length check and is
      then refused by the schema on save: the caller sees a 500, not the
      handler's 400 for a bad length. */
  lemma {:induction false} AsWrittenShortNameFailsAtSave(users: seq<User>, userId: Id, name: string)
    requires UserExists(users, userId) && |name| == 2 && !IsBlank(name)
    requires !UserController.NameTaken(users, name, userId)
    ensures UpdateStatusAsWritten(users, userId, Some(name), None, None) == ServerError
    ensures UpdateStatus(users, userId, Some(name), None, None) == BadRequest
  {
    assert |Trim(name)| <= 2;
  }

  /** An intro of 151 to 200 characters passes the handler's check and is
      then refused by the schema on save (500). */
  lemma AsWrittenLongIntroFailsAtSave(users: seq<User>, userId: Id, intro: string)
    requires UserExists(users, userId) && 150 < |Trim(intro)| && |intro| <= 200
    ensures UpdateStatusAsWritten(users, userId, None, Some(intro), None) == ServerError
    ensures UpdateStatus(users, userId, None, Some(intro), None) == BadRequest
  {
  }

  /** `updateProfile` with its checks matching what the save enforces: a
      given name is measured and looked up after trimming, against the
      schema's 3 to 20 characters, and the trimmed intro against the
      schema's 150. The handler then answers 400 for every edit the save
      would refuse, and never 500. */
  function UpdateStatus(users: seq<User>, userId: Id, username: Option<string>, intro: Option<string>,
                        profileImage: Option<Option<string>>): (status: int)
    ensures status in {Ok, BadRequest, NotFound}
    ensures status == NotFound <==> !UserExists(users, userId)
    ensures UserExists(users, userId) ==>
      var u := users[UserIndex(users, userId)];
      (status == Ok <==> SaveAccepts(users, Edited(u, username, intro, profileImage)))
  {
    var i := UserIndex(users, userId);
    if i < 0 then NotFound
    else if GivesName(username) && !(3 <= |Trim(username.value)| <= 20) then BadRequest
    else if GivesName(username) && UserController.NameTaken(users, Trim(username.value), userId) then BadRequest
    else if intro.Some? && |Trim(intro.value)| > 150 then BadRequest
    else if !SaveAccepts(users, Edited(users[i], username, intro, profileImage)) then BadRequest
    else Ok
  }

  /** `updateProfile`, with the corrected checks. */
  method UpdateProfile(db: Db, userId: Id, username: Option<string>, intro: Option<string>,
                       profileImage: Option<Option<string>>) returns (status: int)
    requires db.Valid()
    modifies db`users
    ensures db.Valid()
    ensures status == UpdateStatus(old(db.users), userId, username, intro, profileImage)
    ensures status != Ok ==> db.users == old(db.users)
    ensures status == Ok ==>
      var i := UserIndex(old(db.users), userId);
      db.users == old(db.users)[i := Edited(old(db.users)[i], username, intro, profileImage)]
  {
    status := UpdateStatus(db.users, userId, username, intro, profileImage);
    if status == Ok {
      var i := UserIndex(db.users, userId);
      var v := Edited(db.users[i], username, intro, profileImage);
      UserController.SaveKeepsValid(db.users, i, v);
      db.users := db.users[i := v];
    }
  }

  // ---------------------------------------------------------------------
  // changePassword
  // ---------------------------------------------------------------------

  /** A body field that JavaScript treats as true: present and non-empty. */
  predicate Truthy(s: Option<string>)
  {
    s.Some? && s.value != []
  }

  /** `changePassword` (profileController): 400 unless both passwords are
      given, 400 for a new one shorter than 6, 404 for a missing user, 400
      for a wrong current password, and otherwise the new password is
      stored, hashed once, so that it is the password the account accepts
      from now on. Unlike the newer handler, reusing the current password
      is allowed. */
  method ChangePassword(db: Db, userId: Id, currentPassword: Option<string>, newPassword: Option<string>)
      returns (status: int)
    requires db.Valid()
    modifies db`users
    ensures db.Valid()
    ensures status != Ok ==> db.users == old(db.users)
    ensures !Truthy(currentPassword) || !Truthy(newPassword) ==> status == BadRequest
    ensures Truthy(currentPassword) && Truthy(newPassword) ==>
      var i := UserIndex(old(db.users), userId);
      status == (if |newPassword.value| < 6 then BadRequest
                 else if i < 0 then NotFound
                 else if !UserController.PasswordMatches(old(db.users)[i], currentPassword.value) then BadRequest
                 else Ok)
      && (status == Ok ==> db.users == old(db.users)[i := old(db.users)[i].(password := newPassword.value)])
    ensures status == Ok ==> UserController.PasswordMatches(db.users[UserIndex(old(db.users), userId)], newPassword.value)
  {
    if !Truthy(currentPassword) || !Truthy(newPassword) {
      return BadRequest;
    }
    if |newPassword.value| < 6 {
      return BadRequest;
    }
    var i := UserIndex(db.users, userId);
    if i < 0 {
      return NotFound;
    }
    if !UserController.PasswordMatches(db.users[i], currentPassword.value) {
      return BadRequest;
    }
    var v := db.users[i].(password := newPassword.value);
    UserController.SaveKeepsValid(db.users, i, v);
    db.users := db.users[i := v];
    status := Ok;
  }

  /** The record the legacy `changePassword` saves as written: the handler
      hashes the new password itself and stores `digest`, the string
      `bcrypt.hash(newPassword, 10)` returned (its salt is random, so it is a
      parameter), and the pre-save hook hashes that string once more. The
      account then accepts `digest`, and nothing else. */
  function ChangedAsWritten(u: User, digest: string): (v: User)
    ensures v.id == u.id && v.username == u.username && v.email == u.email && v.isActive == u.isActive
    ensures forall c :: UserController.PasswordMatches(v, c) <==> c == digest
  {
    u.(password := digest)
  }

  /** A bcrypt digest is 60 characters long, so after the change as written
      a new password of any other length is refused: the user is locked out
      of the password they just chose, while the digest itself is accepted. */
  lemma AsWrittenLocksOut(u: User, newPassword: string, digest: string)
    requires |digest| == 60 && |newPassword| != 60
    ensures !UserController.PasswordMatches(ChangedAsWritten(u, digest), newPassword)
    ensures UserController.PasswordMatches(ChangedAsWritten(u, digest), digest)
  {
  }

  // ---------------------------------------------------------------------
  // getMyPosts, getUserPosts
  // ---------------------------------------------------------------------

  datatype RawPosts = RawPosts(status: int, posts: seq<Post>, totalPosts: nat, currentPage: nat, totalPages: nat)

  function ByAuthor(user: Id): Post -> bool
  {
    (p: Post) => p.author == user
  }

  /** `getMyPosts` (profileController): every post the caller wrote, active
      or not, newest first, one page of them, and the number of all of them. */
  function GetMyPosts(posts: seq<Post>, user: Id, page: nat, limit: nat): (r: RawPosts)
    requires page >= 1 && limit >= 1
    ensures r.status == Ok && |r.posts| <= limit
    ensures r.totalPosts == Count(posts, ByAuthor(user)) && r.totalPages == CeilDiv(r.totalPosts, limit)
    ensures r.posts == NewestPage(Filter(posts, ByAuthor(user)), PostModel.Stamp, page, limit)
    ensures forall k :: 0 <= k < |r.posts| ==> r.posts[k] in posts && r.posts[k].author == user
    ensures forall i, j :: 0 <= i < j < |r.posts| ==> r.posts[i].createdAt >= r.posts[j].createdAt
  {
    var rows := Filter(posts, ByAuthor(user));
    var listed := NewestPage(rows, PostModel.Stamp, page, limit);
    assert forall k :: 0 <= k < |listed| ==> listed[k] in rows;
    RawPosts(Ok, listed, |rows|, page, CeilDiv(|rows|, limit))
  }

  /** No `isActive` filter: when the caller's posts fit on one page, that
      page holds each of them, soft-deleted ones included, as often as the
      table does. */
  lemma {:induction false} MyPostsIncludeInactive(posts: seq<Post>, user: Id, limit: nat)
    requires limit >= 1 && Count(posts, ByAuthor(user)) <= limit
    ensures forall p: Post :: p.author == user ==> multiset(GetMyPosts(posts, user, 1, limit).posts)[p] == multiset(posts)[p]
  {
    var rows := Filter(posts, ByAuthor(user));
    FirstPageHoldsAll(rows, PostModel.Stamp, limit);
    FilterMultiset(posts, ByAuthor(user));
  }

  /** Every post the user wrote, active or not, is shown on a page the
      reply's page count announces. */
  lemma {:induction false} EveryAuthoredPostIsListed(posts: seq<Post>, user: Id, limit: nat, p: Post) returns (page: nat)
    requires limit >= 1 && p in posts && p.author == user
    ensures page >= 1
    ensures var r := GetMyPosts(posts, user, page, limit);
      page <= r.totalPages && p in r.posts
  {
    var rows := Filter(posts, ByAuthor(user));
    assert p in rows;
    page := EveryRowIsListed(rows, PostModel.Stamp, limit, p);
  }

  /** `getUserPosts` (profileController): 404 for a missing user, otherwise
      the same listing as `getMyPosts`, inactive posts included, whoever
      asks. */
  function GetUserPosts(users: seq<User>, posts: seq<Post>, userId: Id, page: nat, limit: nat): (r: RawPosts)
    requires page >= 1 && limit >= 1
    ensures r.status == NotFound <==> !UserExists(users, userId)
    ensures r.status != NotFound ==> r == GetMyPosts(posts, userId, page, limit)
  {
    if !UserExists(users, userId) then RawPosts(NotFound, [], 0, page, 0)
    else GetMyPosts(posts, userId, page, limit)
  }
}
