/** `likeController.js`: the legacy handlers that keep a post's likers in
    the post's own `likes` array of user ids. */
module LikeController {
  import opened Common
  import opened Entities
  import opened NotificationModel
  import opened Store
  import opened LikeModel
  import opened Sorting
  import PostModel
  import NotificationController

  const Ok: int := 200
  const NotFound: int := 404
  const ServerError: int := 500

  /** `toggleLike` on the embedded array: 404 for a missing post; otherwise the
      first occurrence of the user is spliced out, or the user is pushed. Only
      on a push is the populated author read: a missing author record throws
      before `save` (500, nothing stored), and an author other than the liker
      gets a like notification. The reported count is the array's new length. */
  method ToggleLike(db: Db, user: Id, postId: Id, now: int, noticeId: Id) returns (r: ToggleReply)
    requires db.Valid()
    requires FreshNotificationId(db.notifications, noticeId)
    modifies db`posts, db`notifications
    ensures db.Valid()
    ensures !PostExists(old(db.posts), postId) ==>
      r.status == NotFound && db.posts == old(db.posts) && db.notifications == old(db.notifications)
    ensures PostExists(old(db.posts), postId) ==>
      var i := PostIndex(old(db.posts), postId);
      var p := old(db.posts)[i];
      var (after, liked) := ToggleEmbedded(p.likes, user);
      r.isLiked == liked && (liked <==> user !in p.likes)
      && if liked && !UserExists(old(db.users), p.author) then
           r.status == ServerError && db.posts == old(db.posts) && db.notifications == old(db.notifications)
         else
           r.status == Ok && r.message == (if liked then LikedMessage else UnlikedMessage)
           && db.posts == old(db.posts)[i := p.(likes := after)]
           && r.likesCount == |after| == (if liked then |p.likes| + 1 else |p.likes| - 1)
           && db.notifications == if !liked || p.author == user then old(db.notifications)
              else Apply(old(db.notifications),
                         NotificationController.HelperData(old(db.users), LikeKind, user, p.author, Some(postId), None), now, noticeId)
  {
    var i := PostIndex(db.posts, postId);
    if i < 0 {
      return ToggleReply(NotFound, "", false, 0);
    }
    var p := db.posts[i];
    var (after, liked) := ToggleEmbedded(p.likes, user);
    if !liked {
      DistinctKeysUpdate(db.posts, PostId, i, p.(likes := after));
      db.posts := db.posts[i := p.(likes := after)];
      return ToggleReply(Ok, UnlikedMessage, false, |after|);
    }
    if !UserExists(db.users, p.author) {
      return ToggleReply(ServerError, "", true, 0);
    }
    if p.author != user {
      var _ := NotificationController.Notify(db, LikeKind, user, p.author, Some(postId), None, now, noticeId);
    }
    DistinctKeysUpdate(db.posts, PostId, i, p.(likes := after));
    db.posts := db.posts[i := p.(likes := after)];
    r := ToggleReply(Ok, LikedMessage, true, |after|);
  }

  /** What `populate("likes")` leaves of a likers array: the user record of
      each id that has one, in array order; ids without a record are dropped. */
  function Likers(users: seq<User>, likes: seq<Id>): (r: seq<User>)
    ensures |r| <= |likes|
    ensures forall k :: 0 <= k < |r| ==> r[k] in users && r[k].id in likes
  {
    if likes == [] then []
    else
      var rest := Likers(users, likes[1..]);
      var i := UserIndex(users, likes[0]);
      if i >= 0 then
        var r := [users[i]] + rest;
        assert forall k :: 1 <= k < |r| ==> r[k] == rest[k - 1];
        r
      else rest
  }

  predicate HasLiker(likers: seq<User>, x: Id)
  {
    exists k :: 0 <= k < |likers| && likers[k].id == x
  }

  lemma {:induction false} HasLikerAppend(a: seq<User>, b: seq<User>, x: Id)
    ensures HasLiker(a + b, x) <==> HasLiker(a, x) || HasLiker(b, x)
  {
    if HasLiker(a + b, x) {
      var k :| 0 <= k < |a + b| && (a + b)[k].id == x;
      if k >= |a| { assert b[k - |a|].id == x; } else { assert a[k].id == x; }
    }
    if HasLiker(a, x) {
      var k :| 0 <= k < |a| && a[k].id == x;
      assert (a + b)[k].id == x;
    }
    if HasLiker(b, x) {
      var k :| 0 <= k < |b| && b[k].id == x;
      assert (a + b)[|a| + k].id == x;
    }
  }

  /** A user appears among the populated likers exactly when the array holds
      the id and the user record exists. */
  lemma {:induction false} LikersExactly(users: seq<User>, likes: seq<Id>, x: Id)
    ensures HasLiker(Likers(users, likes), x) <==> x in likes && UserExists(users, x)
  {
    if likes != [] {
      var rest := Likers(users, likes[1..]);
      LikersExactly(users, likes[1..], x);
      assert x in likes <==> x == likes[0] || x in likes[1..];
      var i := UserIndex(users, likes[0]);
      var head := if i >= 0 then [users[i]] else [];
      assert Likers(users, likes) == head + rest;
      HasLikerAppend(head, rest, x);
      assert HasLiker(head, x) <==> i >= 0 && x == likes[0] by {
        if i >= 0 && x == likes[0] { assert head[0].id == x; }
      }
    }
  }

  /** At most one page's worth of items announces at most one page. */
  lemma {:induction false} OnePageAtMost(n: nat, limit: nat)
    requires 1 <= limit && n <= limit
    ensures CeilDiv(n, limit) <= 1
  {
    var r := CeilDiv(n, limit);
    if r >= 2 {
      MulMono(1, r - 1, limit);
    }
  }

  /** The ids of the populated likers repeat no more than the array does. */
  lemma {:induction false} LikersDistinct(users: seq<User>, likes: seq<Id>)
    requires NoRepeats(likes)
    ensures NoRepeats(Likers(users, likes))
  {
    if likes != [] {
      var rest := Likers(users, likes[1..]);
      assert NoRepeats(likes[1..]) by {
        forall i, j | 0 <= i < j < |likes[1..]| ensures likes[1..][i] != likes[1..][j] {
          assert likes[1..][i] == likes[i + 1] && likes[1..][j] == likes[j + 1];
        }
      }
      LikersDistinct(users, likes[1..]);
      var i := UserIndex(users, likes[0]);
      if i >= 0 {
        var r := [users[i]] + rest;
        assert Likers(users, likes) == r;
        forall k | 0 <= k < |rest| ensures rest[k] != users[i] {
          assert rest[k].id in likes[1..];
          var m :| 0 <= m < |likes[1..]| && likes[1..][m] == rest[k].id;
          assert likes[m + 1] != likes[0];
        }
        forall j, k | 0 <= j < k < |r| ensures r[j] != r[k] {
          if j > 0 {
            assert r[j] == rest[j - 1] && r[k] == rest[k - 1];
          } else {
            assert r[k] == rest[k - 1];
          }
        }
      }
    }
  }

  /** Without repeated ids, no more likers are populated than `users` holds. */
  lemma LikersFit(users: seq<User>, likes: seq<Id>)
    requires NoRepeats(likes)
    ensures |Likers(users, likes)| <= |users|
  {
    var r := Likers(users, likes);
    LikersDistinct(users, likes);
    NoRepeatsCard(r);
    var shown, all := set u | u in r, set u | u in users;
    assert shown <= all;
    assert all == shown + (all - shown);
    SetCardAtMost(users);
  }

  /** The users a `likes` populate looks up: those whose id the array holds. */
  function LikedIn(likes: seq<Id>): User -> bool
  {
    (u: User) => u.id in likes
  }

  /** `populate({path: "likes", options: {skip, limit}})` on one post. The
      skip and limit are options of the query for the referenced users, so
      they cut a page out of those users in the collection's order; the users
      found are then put back in the array's order. */
  function PopulatedPage(users: seq<User>, likes: seq<Id>, page: nat, limit: nat): (r: seq<User>)
    requires page >= 1 && limit >= 1
    ensures forall k :: 0 <= k < |r| ==> r[k] in Page(Filter(users, LikedIn(likes)), page, limit)
    ensures forall x :: HasLiker(r, x) <==> x in likes && UserExists(Page(Filter(users, LikedIn(likes)), page, limit), x)
    ensures NoRepeats(likes) ==> |r| <= limit
  {
    var selected := Page(Filter(users, LikedIn(likes)), page, limit);
    PopulatedExactly(selected, likes);
    if NoRepeats(likes) then LikersFit(selected, likes); Likers(selected, likes)
    else Likers(selected, likes)
  }

  lemma PopulatedExactly(selected: seq<User>, likes: seq<Id>)
    ensures forall x :: HasLiker(Likers(selected, likes), x) <==> x in likes && UserExists(selected, x)
  {
    forall x ensures HasLiker(Likers(selected, likes), x) <==> x in likes && UserExists(selected, x) {
      LikersExactly(selected, likes, x);
    }
  }

  datatype LikeList = LikeList(status: int, likes: seq<User>, totalLikes: nat, currentPage: nat, totalPages: nat)

  /** `getLikes` as written: the page is the populate's, and the array it
      then measures is already that page, so the reported total and page
      count never exceed one page's worth, however many likers the post
      has. */
  function GetLikesAsWritten(users: seq<User>, posts: seq<Post>, postId: Id, page: nat, limit: nat): (r: LikeList)
    requires page >= 1 && limit >= 1
    ensures !PostExists(posts, postId) ==> r.status == NotFound && r.likes == []
    ensures PostExists(posts, postId) ==>
      var likes := posts[PostIndex(posts, postId)].likes;
      r.status == Ok && r.likes == PopulatedPage(users, likes, page, limit)
      && r.totalLikes == |r.likes| && r.totalPages == CeilDiv(|r.likes|, limit)
      && (NoRepeats(likes) ==> r.totalLikes <= limit && r.totalPages <= 1)
  {
    var i := PostIndex(posts, postId);
    if i < 0 then LikeList(NotFound, [], 0, page, 0)
    else
      var shown := PopulatedPage(users, posts[i].likes, page, limit);
      if NoRepeats(posts[i].likes) then
        OnePageAtMost(|shown|, limit);
        LikeList(Ok, shown, |shown|, page, CeilDiv(|shown|, limit))
      else LikeList(Ok, shown, |shown|, page, CeilDiv(|shown|, limit))
  }

  /** Two likers and a page size of one: the first page reports one like and
      one page, so the second liker's page is never announced. */
  lemma AsWrittenUndercountsLikes()
    ensures var a := User("a", "a", "a@mail", "pw", None, "", true);
      var b := User("b", "b", "b@mail", "pw", None, "", true);
      var p := Post("p", "a", "hi", [], [], true, 0, ["a", "b"]);
      var r := GetLikesAsWritten([a, b], [p], "p", 1, 1);
      |Filter([a, b], LikedIn(p.likes))| == 2 && r.totalLikes == 1 && r.totalPages == 1
      && GetLikesAsWritten([a, b], [p], "p", 2, 1).likes == [b]
  {
    var a := User("a", "a", "a@mail", "pw", None, "", true);
    var b := User("b", "b", "b@mail", "pw", None, "", true);
    PairPages(a, b, ["a", "b"]);
  }

  /** The populate's pages for two users who both liked, one per page:
      whichever liked first, the first page holds the first user of the
      collection. */
  lemma PairPages(a: User, b: User, likes: seq<Id>)
    requires a.id != b.id && (likes == [a.id, b.id] || likes == [b.id, a.id])
    ensures NoRepeats(likes) && Filter([a, b], LikedIn(likes)) == [a, b]
    ensures PopulatedPage([a, b], likes, 1, 1) == [a]
    ensures PopulatedPage([a, b], likes, 2, 1) == [b]
  {
    assert [a, b][1..] == [b];
    assert Filter([b], LikedIn(likes)) == [b];
    assert Page([a, b], 1, 1) == [a];
    assert Page([a, b], 2, 1) == [b];
    LoneLiker(a, likes);
    LoneLiker(b, likes);
  }

  /** A lone user whose id occurs once among two likes is populated once. */
  lemma LoneLiker(u: User, likes: seq<Id>)
    requires |likes| == 2 && likes[0] != likes[1] && u.id in likes
    ensures Likers([u], likes) == [u]
  {
    assert likes[1..] == [likes[1]];
    assert Likers([u], [likes[1]]) == if likes[1] == u.id then [u] else [];
  }

  /** `b` liked before `a`, and `a` comes first in the users collection: with
      one liker per page the first page shows `a`, the second `b`. */
  lemma PagesFollowCollectionOrder()
    ensures var a := User("a", "a", "a@mail", "pw", None, "", true);
      var b := User("b", "b", "b@mail", "pw", None, "", true);
      var p := Post("p", "a", "hi", [], [], true, 0, ["b", "a"]);
      GetLikesAsWritten([a, b], [p], "p", 1, 1).likes == [a]
      && GetLikesAsWritten([a, b], [p], "p", 2, 1).likes == [b]
      && GetLikes([a, b], [p], "p", 1, 1).likes == [a]
  {
    var a := User("a", "a", "a@mail", "pw", None, "", true);
    var b := User("b", "b", "b@mail", "pw", None, "", true);
    PairPages(a, b, ["b", "a"]);
  }

  /** `getLikes` as its "total likes" comment intends: the same page of
      likers, with the total and page count taken over every user who liked
      the post. */
  function GetLikes(users: seq<User>, posts: seq<Post>, postId: Id, page: nat, limit: nat): (r: LikeList)
    requires page >= 1 && limit >= 1
    ensures !PostExists(posts, postId) ==> r.status == NotFound && r.likes == []
    ensures PostExists(posts, postId) ==>
      var likes := posts[PostIndex(posts, postId)].likes;
      var likers := Filter(users, LikedIn(likes));
      r.status == Ok && r.likes == PopulatedPage(users, likes, page, limit)
      && r.totalLikes == |likers| && r.totalPages == CeilDiv(|likers|, limit)
  {
    var i := PostIndex(posts, postId);
    if i < 0 then LikeList(NotFound, [], 0, page, 0)
    else
      var likers := Filter(users, LikedIn(posts[i].likes));
      LikeList(Ok, PopulatedPage(users, posts[i].likes, page, limit), |likers|, page, CeilDiv(|likers|, limit))
  }

  /** With the corrected total every user who liked the post is shown on some
      page that the reported page count announces. */
  lemma {:induction false} EveryLikerIsOnAnAnnouncedPage(users: seq<User>, posts: seq<Post>, postId: Id, limit: nat,
                                                         u: User) returns (page: nat)
    requires limit >= 1 && PostExists(posts, postId)
    requires u in users && u.id in posts[PostIndex(posts, postId)].likes
    ensures page >= 1
    ensures var r := GetLikes(users, posts, postId, page, limit);
      page <= r.totalPages && HasLiker(r.likes, u.id)
  {
    var likes := posts[PostIndex(posts, postId)].likes;
    var likers := Filter(users, LikedIn(likes));
    var j :| 0 <= j < |users| && users[j] == u;
    assert u in likers;
    page := EveryRowIsListedBy(likers, likers, limit, u);
    var selected := Page(likers, page, limit);
    var k :| 0 <= k < |selected| && selected[k] == u;
    assert UserExists(selected, u.id);
  }

  /** One entry of `getUserLikedPosts`. `likesCount` and `isLiked` are read off
      the populated likers, so ids without a user record do not count. */
  datatype LikedPostCard = LikedPostCard(id: Id, content: string, author: Id, likesCount: nat, isLiked: bool, createdAt: int)

  datatype LikedPostList = LikedPostList(status: int, posts: seq<LikedPostCard>, totalLikedPosts: nat, currentPage: nat, totalPages: nat)

  lemma LikersExactlyFor(users: seq<User>, likes: seq<Id>, current: Option<Id>)
    ensures current.Some? ==>
      (HasLiker(Likers(users, likes), current.value) <==> current.value in likes && UserExists(users, current.value))
  {
    if current.Some? { LikersExactly(users, likes, current.value); }
  }

  /** One post as `getUserLikedPosts` reports it: its number of populated
      likers, and whether the viewer is one of them. */
  function LikedCard(users: seq<User>, p: Post, current: Option<Id>): (c: LikedPostCard)
    ensures c.id == p.id && c.content == p.content && c.author == p.author && c.createdAt == p.createdAt
    ensures c.likesCount == |Likers(users, p.likes)|
    ensures c.isLiked <==> current.Some? && current.value in p.likes && UserExists(users, current.value)
  {
    var likers := Likers(users, p.likes);
    LikersExactlyFor(users, p.likes, current);
    LikedPostCard(p.id, p.content, p.author, |likers|, current.Some? && HasLiker(likers, current.value), p.createdAt)
  }

  function LikedCards(users: seq<User>, listed: seq<Post>, current: Option<Id>): (r: seq<LikedPostCard>)
    ensures |r| == |listed|
    ensures forall k :: 0 <= k < |r| ==> r[k] == LikedCard(users, listed[k], current)
  {
    if listed == [] then [] else [LikedCard(users, listed[0], current)] + LikedCards(users, listed[1..], current)
  }

  function LikedBy(user: Id): Post -> bool
  {
    (p: Post) => user in p.likes
  }

  /** `getUserLikedPosts`: every post whose array holds the user, active or
      not, newest first, one page, with the number of all of them. */
  function GetUserLikedPosts(users: seq<User>, posts: seq<Post>, user: Id, current: Option<Id>, page: nat, limit: nat): (r: LikedPostList)
    requires page >= 1 && limit >= 1
    ensures r.status == Ok
    ensures r.totalLikedPosts == Count(posts, LikedBy(user)) && r.totalPages == CeilDiv(r.totalLikedPosts, limit)
    ensures r.posts == LikedCards(users, NewestPage(Filter(posts, LikedBy(user)), PostModel.Stamp, page, limit), current)
    ensures |r.posts| <= limit
    ensures forall k :: 0 <= k < |r.posts| ==>
      exists p :: p in posts && user in p.likes && p.id == r.posts[k].id && p.createdAt == r.posts[k].createdAt
    ensures forall i, j :: 0 <= i < j < |r.posts| ==> r.posts[i].createdAt >= r.posts[j].createdAt
    ensures current.None? ==> forall k :: 0 <= k < |r.posts| ==> !r.posts[k].isLiked
  {
    var rows := Filter(posts, LikedBy(user));
    var listed := NewestPage(rows, PostModel.Stamp, page, limit);
    var cards := LikedCards(users, listed, current);
    LikedCardsOfRows(users, posts, user, current, listed, cards);
    LikedPostList(Ok, cards, |rows|, page, CeilDiv(|rows|, limit))
  }

  lemma LikedCardsOfRows(users: seq<User>, posts: seq<Post>, user: Id, current: Option<Id>, listed: seq<Post>, cards: seq<LikedPostCard>)
    requires forall k :: 0 <= k < |listed| ==> listed[k] in Filter(posts, LikedBy(user))
    requires forall i, j :: 0 <= i < j < |listed| ==> listed[i].createdAt >= listed[j].createdAt
    requires cards == LikedCards(users, listed, current)
    ensures forall k :: 0 <= k < |cards| ==>
      exists p :: p in posts && user in p.likes && p.id == cards[k].id && p.createdAt == cards[k].createdAt
    ensures forall i, j :: 0 <= i < j < |cards| ==> cards[i].createdAt >= cards[j].createdAt
    ensures current.None? ==> forall k :: 0 <= k < |cards| ==> !cards[k].isLiked
  {
    forall k | 0 <= k < |cards|
      ensures exists p :: p in posts && user in p.likes && p.id == cards[k].id && p.createdAt == cards[k].createdAt
    {
      assert cards[k] == LikedCard(users, listed[k], current);
      assert LikedBy(user)(listed[k]);
    }
    forall i, j | 0 <= i < j < |cards| ensures cards[i].createdAt >= cards[j].createdAt {
      assert cards[i] == LikedCard(users, listed[i], current) && cards[j] == LikedCard(users, listed[j], current);
    }
  }
  /** Every post whose array holds the user has its card on a page the
      reply's page count announces. */
  lemma {:induction false} EveryLikedPostIsListed(users: seq<User>, posts: seq<Post>, user: Id, current: Option<Id>,
                                                  limit: nat, p: Post) returns (page: nat)
    requires limit >= 1 && p in posts && user in p.likes
    ensures page >= 1
    ensures var r := GetUserLikedPosts(users, posts, user, current, page, limit);
      page <= r.totalPages && LikedCard(users, p, current) in r.posts
  {
    var rows := Filter(posts, LikedBy(user));
    assert p in rows;
    page := EveryRowIsListed(rows, PostModel.Stamp, limit, p);
    var listed := NewestPage(rows, PostModel.Stamp, page, limit);
    var k :| 0 <= k < |listed| && listed[k] == p;
    assert LikedCards(users, listed, current)[k] == LikedCard(users, p, current);
  }
}
