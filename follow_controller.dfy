/** The follow handlers. `followController.js` and the follow half of
    `socialController.js` implement the same behaviour (the social variant
    also maps a duplicate-key error to 400, which a sequential store never
    raises because the existence check runs first). */
module FollowController {
  import opened Common
  import opened Entities
  import opened NotificationModel
  import opened Sorting
  import opened Store
  import NotificationController

  const Ok: int := 200
  const Created: int := 201
  const BadRequest: int := 400
  const NotFound: int := 404
  const ServerError: int := 500

  // ---------------------------------------------------------------------
  // Edges
  // ---------------------------------------------------------------------

  predicate Edge(f: Follow, follower: Id, following: Id)
  {
    f.follower == follower && f.following == following
  }

  /** `Follow.findOne({ follower, following })` as an index (-1: none). */
  function FollowIndex(follows: seq<Follow>, follower: Id, following: Id): (i: int)
    ensures -1 <= i < |follows|
    ensures i >= 0 ==> Edge(follows[i], follower, following)
    ensures i == -1 <==> forall j :: 0 <= j < |follows| ==> !Edge(follows[j], follower, following)
  {
    FirstIndex(follows, (f: Follow) => Edge(f, follower, following))
  }

  function IsFollowing(follows: seq<Follow>, follower: Id, following: Id): (b: bool)
    ensures b <==> exists j :: 0 <= j < |follows| && Edge(follows[j], follower, following)
  {
    FollowIndex(follows, follower, following) >= 0
  }

  /** The table after a successful follow. */
  function Followed(follows: seq<Follow>, follower: Id, following: Id, id: Id, now: int): seq<Follow>
  {
    follows + [Follow(id, follower, following, now)]
  }

  /** The table after an unfollow: the matching row is deleted, if any. */
  function Unfollowed(follows: seq<Follow>, follower: Id, following: Id): (t: seq<Follow>)
    ensures |t| == if IsFollowing(follows, follower, following) then |follows| - 1 else |follows|
  {
    var i := FollowIndex(follows, follower, following);
    if i >= 0 then RemoveAt(follows, i) else follows
  }

  // ---------------------------------------------------------------------
  // Follow and unfollow
  // ---------------------------------------------------------------------

  /** `followUser`: 400 for oneself, 404 for a missing user, 400 for an edge
      that already exists; otherwise the edge is stored, a follow notification
      is requested, and the answer is 201. */
  method FollowUser(db: Db, follower: Id, following: Id, id: Id, now: int, noticeId: Id) returns (status: int)
    requires db.Valid()
    requires FreshFollowId(db.follows, id)
    requires FreshNotificationId(db.notifications, noticeId)
    modifies db`follows, db`notifications
    ensures db.Valid()
    ensures follower == following ==> status == BadRequest
    ensures follower != following && !UserExists(old(db.users), following) ==> status == NotFound
    ensures follower != following && UserExists(old(db.users), following) && IsFollowing(old(db.follows), follower, following) ==>
      status == BadRequest
    ensures status != Created ==> db.follows == old(db.follows) && db.notifications == old(db.notifications)
    ensures status == Created ==>
      db.follows == Followed(old(db.follows), follower, following, id, now)
      && db.notifications == Apply(old(db.notifications),
           NotificationController.HelperData(old(db.users), FollowKind, follower, following, None, None), now, noticeId)
    ensures status in {BadRequest, NotFound, Created}
  {
    if follower == following {
      return BadRequest;
    }
    if UserIndex(db.users, following) < 0 {
      return NotFound;
    }
    if FollowIndex(db.follows, follower, following) >= 0 {
      return BadRequest;
    }
    var f := Follow(id, follower, following, now);
    assert KeyAbsent(db.follows, FollowPair, FollowPair(f)) by {
      forall j | 0 <= j < |db.follows| ensures FollowPair(db.follows[j]) != FollowPair(f) {
        assert !Edge(db.follows[j], follower, following);
      }
    }
    DistinctKeysAppend(db.follows, FollowId, f);
    DistinctKeysAppend(db.follows, FollowPair, f);
    db.follows := db.follows + [f];
    var _ := NotificationController.Notify(db, FollowKind, follower, following, None, None, now, noticeId);
    status := Created;
  }

  /** `followUser`'s answer as written. The self check `followerId ===
      followingId` compares `req.user.userId`, an ObjectId object, with the
      route parameter, a string, so it never fires for a signed-in caller;
      the follow query itself casts both to ids. */
  function FollowStatusAsWritten(users: seq<User>, follows: seq<Follow>, caller: JsValue, following: Id): (status: int)
    ensures status in {BadRequest, NotFound, Created}
    ensures StrictEqualsString(following, caller) ==> status == BadRequest
    ensures caller.ObjectIdObject? ==>
      (status == NotFound <==> !UserExists(users, following))
      && (status == Created <==> UserExists(users, following) && !IsFollowing(follows, caller.hex, following))
  {
    var follower := if caller.Str? then caller.s else caller.hex;
    if StrictEqualsString(following, caller) then BadRequest
    else if UserIndex(users, following) < 0 then NotFound
    else if FollowIndex(follows, follower, following) >= 0 then BadRequest
    else Created
  }

  /** As written an existing user who does not yet follow themselves can do
      so (201), where `FollowUser` refuses any self-follow with 400. */
  lemma AsWrittenSelfFollowAccepted(users: seq<User>, follows: seq<Follow>, user: Id)
    requires UserExists(users, user) && !IsFollowing(follows, user, user)
    ensures FollowStatusAsWritten(users, follows, Caller(user), user) == Created
  {
  }

  /** `unfollowUser`: 404 without the edge, else that one row is deleted. */
  method UnfollowUser(db: Db, follower: Id, following: Id) returns (status: int)
    requires db.Valid()
    modifies db`follows
    ensures db.Valid()
    ensures status == (if IsFollowing(old(db.follows), follower, following) then Ok else NotFound)
    ensures db.follows == Unfollowed(old(db.follows), follower, following)
  {
    var i := FollowIndex(db.follows, follower, following);
    if i < 0 {
      return NotFound;
    }
    DistinctKeysRemoveAt(db.follows, FollowId, i);
    DistinctKeysRemoveAt(db.follows, FollowPair, i);
    db.follows := RemoveAt(db.follows, i);
    status := Ok;
  }

  /** Removing row `i` ends exactly that row's edge. */
  lemma {:induction false} RemovedEdge(follows: seq<Follow>, i: nat, a: Id, b: Id)
    requires UniqueFollows(follows)
    requires i < |follows|
    ensures IsFollowing(RemoveAt(follows, i), a, b) == (IsFollowing(follows, a, b) && (a, b) != (follows[i].follower, follows[i].following))
  {
    var t := RemoveAt(follows, i);
    if IsFollowing(t, a, b) {
      var k :| 0 <= k < |t| && Edge(t[k], a, b);
      var k' := if k < i then k else k + 1;
      assert t[k] == follows[k'];
    }
    if IsFollowing(follows, a, b) && (a, b) != (follows[i].follower, follows[i].following) {
      var k :| 0 <= k < |follows| && Edge(follows[k], a, b);
      if k < i { assert t[k] == follows[k]; } else { assert t[k - 1] == follows[k]; }
    }
  }

  /** With the unique index in force, an unfollow ends the edge (a, b) and
      leaves every other edge as it was. */
  lemma {:induction false} UnfollowEndsEdge(follows: seq<Follow>, a: Id, b: Id, x: Id, y: Id)
    requires UniqueFollows(follows)
    ensures !IsFollowing(Unfollowed(follows, a, b), a, b)
    ensures (x, y) != (a, b) ==> IsFollowing(Unfollowed(follows, a, b), x, y) == IsFollowing(follows, x, y)
  {
    var i := FollowIndex(follows, a, b);
    if i >= 0 {
      RemovedEdge(follows, i, a, b);
      RemovedEdge(follows, i, x, y);
    }
  }

  /** A follow of a pair that was not following, then an unfollow of the same
      pair, gives back the very same table. */
  lemma {:induction false} FollowThenUnfollow(follows: seq<Follow>, a: Id, b: Id, id: Id, now: int)
    requires !IsFollowing(follows, a, b)
    ensures Unfollowed(Followed(follows, a, b, id, now), a, b) == follows
  {
    var t := Followed(follows, a, b, id, now);
    assert FollowIndex(t, a, b) == |follows| by {
      assert Edge(t[|follows|], a, b);
      forall j | 0 <= j < |follows| ensures !Edge(t[j], a, b) {
        assert t[j] == follows[j];
      }
    }
    assert t[..|follows|] == follows;
  }

  /** A follow adds one to the target's follower count and to the follower's
      following count. */
  lemma {:induction false} FollowCounts(follows: seq<Follow>, a: Id, b: Id, id: Id, now: int)
    ensures Count(Followed(follows, a, b, id, now), (f: Follow) => f.following == b) == Count(follows, (f: Follow) => f.following == b) + 1
    ensures Count(Followed(follows, a, b, id, now), (f: Follow) => f.follower == a) == Count(follows, (f: Follow) => f.follower == a) + 1
  {
    FilterAppend(follows, [Follow(id, a, b, now)], (f: Follow) => f.following == b);
    FilterAppend(follows, [Follow(id, a, b, now)], (f: Follow) => f.follower == a);
  }

  // ---------------------------------------------------------------------
  // Reading
  // ---------------------------------------------------------------------

  /** `checkFollowStatus`: whether the caller follows the user, and the edge id. */
  function CheckFollowStatus(follows: seq<Follow>, follower: Id, following: Id): (r: (bool, Option<Id>))
    ensures r.0 <==> r.1.Some?
    ensures r.0 <==> IsFollowing(follows, follower, following)
    ensures r.1.Some? ==> exists j :: 0 <= j < |follows| && follows[j].id == r.1.value && Edge(follows[j], follower, following)
  {
    var i := FollowIndex(follows, follower, following);
    if i >= 0 then (true, Some(follows[i].id)) else (false, None)
  }

  /** One entry of a follower or following list: the populated user, the
      caller's follow status where the list reports one, and the edge date. */
  datatype UserCard = UserCard(id: Id, username: string, profileImage: Option<string>, intro: string,
                               isFollowing: Option<bool>, followedAt: int)

  datatype FollowList = FollowList(status: int, items: seq<UserCard>, total: nat, currentPage: nat, totalPages: nat)

  function Stamp(f: Follow): int { f.createdAt }

  /** `populate` of one side of each edge, then the card. A missing user makes
      `populate` yield null, and reading its `_id` throws: the result is None. */
  function Cards(users: seq<User>, rows: seq<Follow>, side: Follow -> Id, status: Id -> Option<bool>): (r: Option<seq<UserCard>>)
    ensures r.Some? <==> forall k :: 0 <= k < |rows| ==> UserExists(users, side(rows[k]))
    ensures r.Some? ==> |r.value| == |rows|
    ensures r.Some? ==> forall k :: 0 <= k < |rows| ==>
      r.value[k].id == side(rows[k]) && r.value[k].followedAt == rows[k].createdAt && r.value[k].isFollowing == status(side(rows[k]))
  {
    if rows == [] then Some([])
    else
      var i := UserIndex(users, side(rows[0]));
      var rest := Cards(users, rows[1..], side, status);
      if i < 0 || rest.None? then
        assert i >= 0 ==> !(forall k :: 0 <= k < |rows[1..]| ==> UserExists(users, side(rows[1..][k])));
        None
      else
        var u := users[i];
        Some([UserCard(u.id, u.username, u.profileImage, u.intro, status(u.id), rows[0].createdAt)] + rest.value)
  }

  /** The follower-list status of one follower: false without a caller or for
      the caller themself, else whether the caller follows them. */
  function FollowerStatus(follows: seq<Follow>, current: Option<Id>, who: Id): bool
  {
    current.Some? && current.value != who && IsFollowing(follows, current.value, who)
  }

  /** The cards of page `page` of `rows`, newest first; None when a populated
      user is missing. */
  function PageCards(users: seq<User>, rows: seq<Follow>, side: Follow -> Id, status: Id -> Option<bool>,
                     page: nat, limit: nat): Option<seq<UserCard>>
    requires page >= 1
  {
    Cards(users, NewestPage(rows, Stamp, page, limit), side, status)
  }

  /** The shared list response: the newest-first page of `rows` as cards,
      500 when a populated user is missing, the total and the page count. */
  function ListOf(users: seq<User>, rows: seq<Follow>, side: Follow -> Id, status: Id -> Option<bool>,
                  page: nat, limit: nat): (r: FollowList)
    requires page >= 1 && limit >= 1
    ensures r.status in {Ok, ServerError}
    ensures r.total == |rows| && r.currentPage == page && r.totalPages == CeilDiv(|rows|, limit)
    ensures r.status == Ok <==> PageCards(users, rows, side, status, page, limit).Some?
    ensures r.status == Ok ==> r.items == PageCards(users, rows, side, status, page, limit).value
    ensures r.status == Ok ==> |r.items| <= limit
    ensures r.status == Ok ==> forall k :: 0 <= k < |r.items| ==>
      exists f :: f in rows && r.items[k].id == side(f) && r.items[k].followedAt == f.createdAt
                  && r.items[k].isFollowing == status(side(f))
    ensures r.status == Ok ==> forall i, j :: 0 <= i < j < |r.items| ==> r.items[i].followedAt >= r.items[j].followedAt
  {
    var s := NewestPage(rows, Stamp, page, limit);
    var cards := Cards(users, s, side, status);
    if cards.None? then FollowList(ServerError, [], |rows|, page, CeilDiv(|rows|, limit))
    else
      CardsFromRows(rows, s, cards.value, side, status);
      FollowList(Ok, cards.value, |rows|, page, CeilDiv(|rows|, limit))
  }

  /** Every row of a listing that comes back whole has its card on a page the
      page count announces. */
  lemma {:induction false} EveryRowHasACard(users: seq<User>, rows: seq<Follow>, side: Follow -> Id, status: Id -> Option<bool>,
                                            limit: nat, f: Follow) returns (page: nat)
    requires limit >= 1 && f in rows
    ensures page >= 1
    ensures var r := ListOf(users, rows, side, status, page, limit);
      page <= r.totalPages
      && (r.status == Ok ==> exists k :: 0 <= k < |r.items| && r.items[k].id == side(f) && r.items[k].followedAt == f.createdAt)
  {
    page := EveryRowIsListed(rows, Stamp, limit, f);
    var s := NewestPage(rows, Stamp, page, limit);
    var cards := Cards(users, s, side, status);
    if cards.Some? {
      var k :| 0 <= k < |s| && s[k] == f;
      assert cards.value[k].id == side(f) && cards.value[k].followedAt == f.createdAt;
    }
  }

  lemma CardsFromRows(rows: seq<Follow>, s: seq<Follow>, cards: seq<UserCard>, side: Follow -> Id, status: Id -> Option<bool>)
    requires |cards| == |s|
    requires forall k :: 0 <= k < |s| ==> s[k] in rows
    requires forall i, j :: 0 <= i < j < |s| ==> Stamp(s[i]) >= Stamp(s[j])
    requires forall k :: 0 <= k < |s| ==>
      cards[k].id == side(s[k]) && cards[k].followedAt == s[k].createdAt && cards[k].isFollowing == status(side(s[k]))
    ensures forall k :: 0 <= k < |cards| ==>
      exists f :: f in rows && cards[k].id == side(f) && cards[k].followedAt == f.createdAt
                  && cards[k].isFollowing == status(side(f))
    ensures forall i, j :: 0 <= i < j < |cards| ==> cards[i].followedAt >= cards[j].followedAt
  {
    forall k | 0 <= k < |cards|
      ensures exists f :: f in rows && cards[k].id == side(f) && cards[k].followedAt == f.createdAt
                          && cards[k].isFollowing == status(side(f))
    {
      var f := s[k];
      assert f in rows && cards[k].id == side(f) && cards[k].followedAt == f.createdAt && cards[k].isFollowing == status(side(f));
    }
    assert forall k :: 0 <= k < |cards| ==>
      exists f :: f in rows && cards[k].id == side(f) && cards[k].followedAt == f.createdAt
                  && cards[k].isFollowing == status(side(f));
    forall i, j | 0 <= i < j < |cards| ensures cards[i].followedAt >= cards[j].followedAt {
      assert Stamp(s[i]) >= Stamp(s[j]);
    }
  }

  /** A stored row is an edge of the table. */
  lemma RowIsEdge(follows: seq<Follow>, f: Follow)
    requires f in follows
    ensures IsFollowing(follows, f.follower, f.following)
  {
    var j :| 0 <= j < |follows| && follows[j] == f;
    assert Edge(follows[j], f.follower, f.following);
  }

  function FollowerSide(f: Follow): Id { f.follower }

  function FollowingSide(f: Follow): Id { f.following }

  /** The follower list's `isFollowing`: the caller's status towards each one. */
  function FollowerStatusOf(follows: seq<Follow>, current: Option<Id>): Id -> Option<bool>
  {
    (who: Id) => Some(FollowerStatus(follows, current, who))
  }

  /** The following and mutual lists carry no `isFollowing`. */
  function NoStatus(who: Id): Option<bool> { None }

  function FollowersRows(follows: seq<Follow>, user: Id): seq<Follow>
  {
    Filter(follows, (f: Follow) => f.following == user)
  }

  function FollowingRows(follows: seq<Follow>, user: Id): seq<Follow>
  {
    Filter(follows, (f: Follow) => f.follower == user)
  }

  lemma ListedAreFollowers(follows: seq<Follow>, user: Id, rows: seq<Follow>, r: FollowList)
    requires rows == FollowersRows(follows, user)
    requires forall k :: 0 <= k < |r.items| ==> exists f :: f in rows && r.items[k].id == f.follower
    ensures forall k :: 0 <= k < |r.items| ==> IsFollowing(follows, r.items[k].id, user)
  {
    forall k | 0 <= k < |r.items| ensures IsFollowing(follows, r.items[k].id, user) {
      var id := r.items[k].id;
      assert exists f :: f in rows && id == f.follower;
      var f :| f in rows && id == f.follower;
      RowIsEdge(follows, f);
    }
  }

  lemma ListedAreFollowed(follows: seq<Follow>, user: Id, rows: seq<Follow>, r: FollowList)
    requires rows == FollowingRows(follows, user)
    requires forall k :: 0 <= k < |r.items| ==> exists f :: f in rows && r.items[k].id == f.following
    ensures forall k :: 0 <= k < |r.items| ==> IsFollowing(follows, user, r.items[k].id)
  {
    forall k | 0 <= k < |r.items| ensures IsFollowing(follows, user, r.items[k].id) {
      var id := r.items[k].id;
      assert exists f :: f in rows && id == f.following;
      var f :| f in rows && id == f.following;
      RowIsEdge(follows, f);
    }
  }

  /** `getFollowers`: 404 for a missing user; otherwise the newest-first page of
      the user's followers, each with whether the caller follows them, and the
      total number of followers. */
  function GetFollowers(users: seq<User>, follows: seq<Follow>, user: Id, current: Option<Id>, page: nat, limit: nat): (r: FollowList)
    requires page >= 1 && limit >= 1
    ensures !UserExists(users, user) ==> r.status == NotFound
    ensures UserExists(users, user) ==>
      r.total == Count(follows, (f: Follow) => f.following == user)
      && r.totalPages == CeilDiv(r.total, limit)
      && (r.status == Ok <==> PageCards(users, FollowersRows(follows, user), FollowerSide, FollowerStatusOf(follows, current), page, limit).Some?)
    ensures r.status == Ok ==>
      r.items == PageCards(users, FollowersRows(follows, user), FollowerSide, FollowerStatusOf(follows, current), page, limit).value
    ensures r.status == Ok ==> UserExists(users, user) && |r.items| <= limit
    ensures r.status == Ok ==> forall k :: 0 <= k < |r.items| ==>
      IsFollowing(follows, r.items[k].id, user) && r.items[k].isFollowing == Some(FollowerStatus(follows, current, r.items[k].id))
    ensures r.status == Ok ==> forall i, j :: 0 <= i < j < |r.items| ==> r.items[i].followedAt >= r.items[j].followedAt
  {
    if !UserExists(users, user) then FollowList(NotFound, [], 0, page, 0)
    else
      var rows := FollowersRows(follows, user);
      var r := ListOf(users, rows, FollowerSide, FollowerStatusOf(follows, current), page, limit);
      ListedAreFollowers(follows, user, rows, r);
      r
  }

  /** `getFollowing`: 404 for a missing user; otherwise the newest-first page of
      the users this user follows, and their total. */
  function GetFollowing(users: seq<User>, follows: seq<Follow>, user: Id, page: nat, limit: nat): (r: FollowList)
    requires page >= 1 && limit >= 1
    ensures !UserExists(users, user) ==> r.status == NotFound
    ensures UserExists(users, user) ==>
      r.total == Count(follows, (f: Follow) => f.follower == user)
      && r.totalPages == CeilDiv(r.total, limit)
      && (r.status == Ok <==> PageCards(users, FollowingRows(follows, user), FollowingSide, NoStatus, page, limit).Some?)
    ensures r.status == Ok ==> r.items == PageCards(users, FollowingRows(follows, user), FollowingSide, NoStatus, page, limit).value
    ensures r.status == Ok ==> UserExists(users, user) && |r.items| <= limit
    ensures r.status == Ok ==> forall k :: 0 <= k < |r.items| ==>
      IsFollowing(follows, user, r.items[k].id) && r.items[k].isFollowing.None?
    ensures r.status == Ok ==> forall i, j :: 0 <= i < j < |r.items| ==> r.items[i].followedAt >= r.items[j].followedAt
  {
    if !UserExists(users, user) then FollowList(NotFound, [], 0, page, 0)
    else
      var rows := FollowingRows(follows, user);
      var r := ListOf(users, rows, FollowingSide, NoStatus, page, limit);
      ListedAreFollowed(follows, user, rows, r);
      r
  }

  /** The two lists are two views of one table: a row counts as a follower of
      its `following` side exactly when it counts as a following of its
      `follower` side. */
  lemma {:induction false} FollowerFollowingDuality(follows: seq<Follow>, a: Id, b: Id)
    ensures IsFollowing(follows, a, b) <==> exists j :: 0 <= j < |FollowersRows(follows, b)| && FollowersRows(follows, b)[j].follower == a
    ensures IsFollowing(follows, a, b) <==> exists j :: 0 <= j < |FollowingRows(follows, a)| && FollowingRows(follows, a)[j].following == b
  {
    FollowerSideOfEdge(follows, a, b);
    FollowingSideOfEdge(follows, a, b);
  }

  lemma FollowerSideOfEdge(follows: seq<Follow>, a: Id, b: Id)
    ensures IsFollowing(follows, a, b) <==> exists j :: 0 <= j < |FollowersRows(follows, b)| && FollowersRows(follows, b)[j].follower == a
  {
    var fr := FollowersRows(follows, b);
    if IsFollowing(follows, a, b) {
      var j :| 0 <= j < |follows| && Edge(follows[j], a, b);
      var k :| 0 <= k < |fr| && fr[k] == follows[j];
    }
    if exists j :: 0 <= j < |fr| && fr[j].follower == a {
      var j :| 0 <= j < |fr| && fr[j].follower == a;
      var k :| 0 <= k < |follows| && follows[k] == fr[j];
    }
  }

  lemma FollowingSideOfEdge(follows: seq<Follow>, a: Id, b: Id)
    ensures IsFollowing(follows, a, b) <==> exists j :: 0 <= j < |FollowingRows(follows, a)| && FollowingRows(follows, a)[j].following == b
  {
    var gr := FollowingRows(follows, a);
    if IsFollowing(follows, a, b) {
      var j :| 0 <= j < |follows| && Edge(follows[j], a, b);
      var m :| 0 <= m < |gr| && gr[m] == follows[j];
    }
    if exists j :: 0 <= j < |gr| && gr[j].following == b {
      var j :| 0 <= j < |gr| && gr[j].following == b;
      var k :| 0 <= k < |follows| && follows[k] == gr[j];
    }
  }

  /** `currentUserFollowing.map(f => f.following)`: the ids the caller follows. */
  function FollowingIds(follows: seq<Follow>, current: Id): (ids: seq<Id>)
    ensures |ids| == |FollowingRows(follows, current)|
    ensures forall x :: x in ids <==> IsFollowing(follows, current, x)
  {
    var rows := FollowingRows(follows, current);
    var ids := seq(|rows|, k requires 0 <= k < |rows| => rows[k].following);
    IdsAreFollowed(follows, current, rows, ids);
    FollowedAreIds(follows, current, rows, ids);
    ids
  }

  lemma IdsAreFollowed(follows: seq<Follow>, current: Id, rows: seq<Follow>, ids: seq<Id>)
    requires rows == FollowingRows(follows, current)
    requires |ids| == |rows| && forall k :: 0 <= k < |rows| ==> ids[k] == rows[k].following
    ensures forall x :: x in ids ==> IsFollowing(follows, current, x)
  {
    forall x | x in ids ensures IsFollowing(follows, current, x) {
      var k :| 0 <= k < |ids| && ids[k] == x;
      var f := rows[k];
      assert f in follows && f.follower == current;
      RowIsEdge(follows, f);
    }
  }

  lemma FollowedAreIds(follows: seq<Follow>, current: Id, rows: seq<Follow>, ids: seq<Id>)
    requires rows == FollowingRows(follows, current)
    requires |ids| == |rows| && forall k :: 0 <= k < |rows| ==> ids[k] == rows[k].following
    ensures forall x :: IsFollowing(follows, current, x) ==> x in ids
  {
    forall x | IsFollowing(follows, current, x) ensures x in ids {
      var j :| 0 <= j < |follows| && Edge(follows[j], current, x);
      assert follows[j] in rows;
      var k :| 0 <= k < |rows| && rows[k] == follows[j];
      assert ids[k] == x;
    }
  }

  function MutualRows(follows: seq<Follow>, current: Id, user: Id): seq<Follow>
  {
    var ids := FollowingIds(follows, current);
    Filter(follows, (f: Follow) => f.follower == user && f.following in ids)
  }

  /** A row of the mutual list is an edge from the user to someone the caller
      also follows, and every such edge is listed. */
  lemma {:induction false} MutualIsBoth(follows: seq<Follow>, current: Id, user: Id, f: Follow)
    ensures f in MutualRows(follows, current, user) <==>
      f in follows && f.follower == user && IsFollowing(follows, current, f.following)
  {
    var m := MutualRows(follows, current, user);
    if f in follows && f.follower == user && IsFollowing(follows, current, f.following) {
      var j :| 0 <= j < |follows| && follows[j] == f;
    }
    if f in m {
      var k :| 0 <= k < |m| && m[k] == f;
    }
  }

  lemma ListedAreMutual(follows: seq<Follow>, current: Id, user: Id, items: seq<UserCard>)
    requires forall k :: 0 <= k < |items| ==> exists f :: f in MutualRows(follows, current, user) && items[k].id == f.following
    ensures forall k :: 0 <= k < |items| ==> IsFollowing(follows, user, items[k].id) && IsFollowing(follows, current, items[k].id)
  {
    forall k | 0 <= k < |items|
      ensures IsFollowing(follows, user, items[k].id) && IsFollowing(follows, current, items[k].id)
    {
      var id, m := items[k].id, MutualRows(follows, current, user);
      assert exists f :: f in m && id == f.following;
      var f :| f in m && id == f.following;
      MutualIsBoth(follows, current, user, f);
      RowIsEdge(follows, f);
    }
  }

  /** `getMutualFollows`: the newest-first page of the users that `user`
      follows and the caller follows too, and their total. */
  function GetMutualFollows(users: seq<User>, follows: seq<Follow>, current: Id, user: Id, page: nat, limit: nat): (r: FollowList)
    requires page >= 1 && limit >= 1
    ensures r.total == |MutualRows(follows, current, user)| && r.totalPages == CeilDiv(r.total, limit)
    ensures r.status == Ok <==> PageCards(users, MutualRows(follows, current, user), FollowingSide, NoStatus, page, limit).Some?
    ensures r.status == Ok ==> r.items == PageCards(users, MutualRows(follows, current, user), FollowingSide, NoStatus, page, limit).value
    ensures r.status == Ok ==> |r.items| <= limit
    ensures r.status == Ok ==> forall k :: 0 <= k < |r.items| ==>
      IsFollowing(follows, user, r.items[k].id) && IsFollowing(follows, current, r.items[k].id)
  {
    var rows := MutualRows(follows, current, user);
    var r := ListOf(users, rows, FollowingSide, NoStatus, page, limit);
    ListedAreMutual(follows, current, user, r.items);
    r
  }

  /** Every follower of an existing user has a card on a page the follower
      list's page count announces, whenever that list comes back whole. */
  lemma {:induction false} EveryFollowerIsListed(users: seq<User>, follows: seq<Follow>, user: Id, current: Option<Id>,
                                                 limit: nat, f: Follow) returns (page: nat)
    requires limit >= 1 && UserExists(users, user) && f in follows && f.following == user
    ensures page >= 1
    ensures var r := GetFollowers(users, follows, user, current, page, limit);
      page <= r.totalPages
      && (r.status == Ok ==> exists k :: 0 <= k < |r.items| && r.items[k].id == f.follower && r.items[k].followedAt == f.createdAt)
  {
    var rows := FollowersRows(follows, user);
    assert f in rows;
    page := EveryRowHasACard(users, rows, FollowerSide, FollowerStatusOf(follows, current), limit, f);
  }

  /** Every user that `user` follows has a card on a page the following
      list's page count announces, whenever that list comes back whole. */
  lemma {:induction false} EveryFollowedIsListed(users: seq<User>, follows: seq<Follow>, user: Id, limit: nat, f: Follow)
      returns (page: nat)
    requires limit >= 1 && UserExists(users, user) && f in follows && f.follower == user
    ensures page >= 1
    ensures var r := GetFollowing(users, follows, user, page, limit);
      page <= r.totalPages
      && (r.status == Ok ==> exists k :: 0 <= k < |r.items| && r.items[k].id == f.following && r.items[k].followedAt == f.createdAt)
  {
    var rows := FollowingRows(follows, user);
    assert f in rows;
    page := EveryRowHasACard(users, rows, FollowingSide, NoStatus, limit, f);
  }

  /** Every edge from `user` to someone the caller also follows has a card on
      a page the mutual list's page count announces. */
  lemma {:induction false} EveryMutualIsListed(users: seq<User>, follows: seq<Follow>, current: Id, user: Id, limit: nat, f: Follow)
      returns (page: nat)
    requires limit >= 1 && f in follows && f.follower == user && IsFollowing(follows, current, f.following)
    ensures page >= 1
    ensures var r := GetMutualFollows(users, follows, current, user, page, limit);
      page <= r.totalPages
      && (r.status == Ok ==> exists k :: 0 <= k < |r.items| && r.items[k].id == f.following && r.items[k].followedAt == f.createdAt)
  {
    MutualIsBoth(follows, current, user, f);
    page := EveryRowHasACard(users, MutualRows(follows, current, user), FollowingSide, NoStatus, limit, f);
  }
}
