/** `feedController.js`: the home feed of followed authors, the explore feed
    of every post, and the suggested-authors aggregation. These handlers read
    the legacy embedded `likes` array of each post, populated into user
    records. */
module FeedController {
  import opened Common
  import opened Entities
  import opened Sorting
  import PostModel
  import LikeController
  import FollowController

  const Ok: int := 200
  const ServerError: int := 500

  // ---------------------------------------------------------------------
  // Feed items
  // ---------------------------------------------------------------------

  datatype FeedItem = FeedItem(id: Id, content: string, author: Id, likes: seq<User>, likesCount: nat,
                               commentCount: nat, isLiked: bool, createdAt: int)

  /** One post as the feeds report it: the populated likers and their number,
      the post's comment count, and whether the viewer is among the likers. */
  function Item(users: seq<User>, comments: seq<Comment>, p: Post, current: Option<Id>): (item: FeedItem)
    ensures item.id == p.id && item.author == p.author && item.content == p.content && item.createdAt == p.createdAt
    ensures item.likes == LikeController.Likers(users, p.likes) && item.likesCount == |item.likes|
    ensures item.commentCount == Count(comments, PostModel.OnPostComment(p.id))
    ensures item.isLiked <==> current.Some? && current.value in p.likes && UserExists(users, current.value)
  {
    var likers := LikeController.Likers(users, p.likes);
    LikeController.LikersExactlyFor(users, p.likes, current);
    FeedItem(p.id, p.content, p.author, likers, |likers|, Count(comments, PostModel.OnPostComment(p.id)),
             current.Some? && LikeController.HasLiker(likers, current.value), p.createdAt)
  }

  function Items(users: seq<User>, comments: seq<Comment>, listed: seq<Post>, current: Option<Id>): (r: seq<FeedItem>)
    ensures |r| == |listed|
    ensures forall k :: 0 <= k < |r| ==> r[k] == Item(users, comments, listed[k], current)
  {
    if listed == [] then [] else [Item(users, comments, listed[0], current)] + Items(users, comments, listed[1..], current)
  }

  datatype Feed = Feed(posts: seq<FeedItem>, totalPosts: nat, currentPage: nat, totalPages: nat,
                       followingCount: nat, suggestion: bool)

  /** One page of `rows` newest first, with the count of all of them. */
  function PageOf(users: seq<User>, comments: seq<Comment>, rows: seq<Post>, current: Option<Id>, page: nat, limit: nat): (r: Feed)
    requires page >= 1 && limit >= 1
    ensures r.totalPosts == |rows| && r.totalPages == CeilDiv(|rows|, limit) && r.currentPage == page
    ensures r.posts == Items(users, comments, NewestPage(rows, PostModel.Stamp, page, limit), current)
    ensures |r.posts| <= limit
    ensures forall k :: 0 <= k < |r.posts| ==> exists p :: p in rows && r.posts[k] == Item(users, comments, p, current)
    ensures forall i, j :: 0 <= i < j < |r.posts| ==> r.posts[i].createdAt >= r.posts[j].createdAt
    ensures !r.suggestion && r.followingCount == 0
  {
    var listed := NewestPage(rows, PostModel.Stamp, page, limit);
    var items := Items(users, comments, listed, current);
    assert forall k :: 0 <= k < |items| ==> listed[k] in rows && items[k] == Item(users, comments, listed[k], current);
    Feed(items, |rows|, page, CeilDiv(|rows|, limit), 0, false)
  }

  function ByFollowed(following: seq<Id>): Post -> bool
  {
    (p: Post) => p.author in following
  }

  /** The followed authors' posts: one page newest first and their count. */
  function FollowedFeed(users: seq<User>, posts: seq<Post>, comments: seq<Comment>, following: seq<Id>,
                        current: Id, page: nat, limit: nat): (r: Feed)
    requires page >= 1 && limit >= 1
    ensures r.totalPosts == Count(posts, ByFollowed(following)) && r.totalPages == CeilDiv(r.totalPosts, limit)
    ensures r.posts == Items(users, comments, NewestPage(Filter(posts, ByFollowed(following)), PostModel.Stamp, page, limit), Some(current))
    ensures |r.posts| <= limit
    ensures forall k :: 0 <= k < |r.posts| ==>
      exists p :: p in posts && p.author in following && r.posts[k] == Item(users, comments, p, Some(current))
    ensures forall i, j :: 0 <= i < j < |r.posts| ==> r.posts[i].createdAt >= r.posts[j].createdAt
  {
    var rows := Filter(posts, ByFollowed(following));
    var f := PageOf(users, comments, rows, Some(current), page, limit);
    assert forall p :: p in rows ==> p in posts && p.author in following by {
      forall p | p in rows ensures p in posts && p.author in following {
        var j :| 0 <= j < |rows| && rows[j] == p;
      }
    }
    f
  }

  /** `getFeed`: the posts of the authors the caller follows, active or not.
      With nobody followed the reply is empty, with zero totals and a
      suggestion to follow people. */
  function GetFeed(users: seq<User>, posts: seq<Post>, follows: seq<Follow>, comments: seq<Comment>,
                   current: Id, page: nat, limit: nat): (r: Feed)
    requires page >= 1 && limit >= 1
    ensures r.followingCount == |FollowController.FollowingRows(follows, current)|
    ensures r.suggestion <==> r.followingCount == 0
    ensures r.followingCount == 0 ==>
      r.posts == [] && r.totalPosts == 0 && r.totalPages == 0
      && forall x :: !FollowController.IsFollowing(follows, current, x)
    ensures r.followingCount > 0 ==>
      r.totalPosts == Count(posts, ByFollowed(FollowController.FollowingIds(follows, current)))
      && r.totalPages == CeilDiv(r.totalPosts, limit)
      && r.posts == Items(users, comments, NewestPage(Filter(posts, ByFollowed(FollowController.FollowingIds(follows, current))),
                                                      PostModel.Stamp, page, limit), Some(current))
    ensures |r.posts| <= limit
    ensures forall k :: 0 <= k < |r.posts| ==>
      exists p :: p in posts && p.author in FollowController.FollowingIds(follows, current)
                  && r.posts[k] == Item(users, comments, p, Some(current))
    ensures forall i, j :: 0 <= i < j < |r.posts| ==> r.posts[i].createdAt >= r.posts[j].createdAt
  {
    var following := FollowController.FollowingIds(follows, current);
    if following == [] then
      assert forall x :: !FollowController.IsFollowing(follows, current, x) by {
        forall x ensures !FollowController.IsFollowing(follows, current, x) {
          assert x !in following;
        }
      }
      Feed([], 0, page, 0, 0, true)
    else
      var f := FollowedFeed(users, posts, comments, following, current, page, limit);
      var r := f.(followingCount := |following|);
      assert r.posts == f.posts && r.totalPosts == f.totalPosts && r.totalPages == f.totalPages;
      r
  }

  /** `getExploreFeed`: every post, active or not; an anonymous viewer sees
      nothing as liked. */
  function GetExploreFeed(users: seq<User>, posts: seq<Post>, comments: seq<Comment>, current: Option<Id>, page: nat, limit: nat): (r: Feed)
    requires page >= 1 && limit >= 1
    ensures r.totalPosts == |posts| && r.totalPages == CeilDiv(|posts|, limit)
    ensures r.posts == Items(users, comments, NewestPage(posts, PostModel.Stamp, page, limit), current)
    ensures |r.posts| <= limit
    ensures forall k :: 0 <= k < |r.posts| ==> exists p :: p in posts && r.posts[k] == Item(users, comments, p, current)
    ensures current.None? ==> forall k :: 0 <= k < |r.posts| ==> !r.posts[k].isLiked
    ensures forall i, j :: 0 <= i < j < |r.posts| ==> r.posts[i].createdAt >= r.posts[j].createdAt
  {
    PageOf(users, comments, posts, current, page, limit)
  }

  /** The view of a post that is on page `page` is in that page's items. */
  lemma ItemOfListed(users: seq<User>, comments: seq<Comment>, listed: seq<Post>, current: Option<Id>, p: Post)
    requires p in listed
    ensures Item(users, comments, p, current) in Items(users, comments, listed, current)
  {
    var k :| 0 <= k < |listed| && listed[k] == p;
    assert Items(users, comments, listed, current)[k] == Item(users, comments, p, current);
  }

  /** Every post of a followed author is shown on a page the home feed's page
      count announces. */
  lemma {:induction false} EveryFollowedPostIsListed(users: seq<User>, posts: seq<Post>, follows: seq<Follow>, comments: seq<Comment>,
                                                     current: Id, limit: nat, p: Post) returns (page: nat)
    requires limit >= 1 && p in posts && p.author in FollowController.FollowingIds(follows, current)
    ensures page >= 1
    ensures var r := GetFeed(users, posts, follows, comments, current, page, limit);
      page <= r.totalPages && Item(users, comments, p, Some(current)) in r.posts
  {
    var rows := Filter(posts, ByFollowed(FollowController.FollowingIds(follows, current)));
    assert p in rows;
    page := EveryRowIsListed(rows, PostModel.Stamp, limit, p);
    ItemOfListed(users, comments, NewestPage(rows, PostModel.Stamp, page, limit), Some(current), p);
  }

  /** Every post is shown on a page the explore feed's page count announces. */
  lemma {:induction false} EveryPostIsExplored(users: seq<User>, posts: seq<Post>, comments: seq<Comment>, current: Option<Id>,
                                               limit: nat, p: Post) returns (page: nat)
    requires limit >= 1 && p in posts
    ensures page >= 1
    ensures var r := GetExploreFeed(users, posts, comments, current, page, limit);
      page <= r.totalPages && Item(users, comments, p, current) in r.posts
  {
    page := EveryRowIsListed(posts, PostModel.Stamp, limit, p);
    ItemOfListed(users, comments, NewestPage(posts, PostModel.Stamp, page, limit), current, p);
  }

  // ---------------------------------------------------------------------
  // getSuggestedUsers: $match, $group, $sort, $limit, $lookup, $unwind
  // ---------------------------------------------------------------------

  /** A `$group` output row: an author, its number of posts and its newest
      post's `createdAt`. */
  datatype Group = Group(author: Id, postCount: nat, latestPost: int)

  function ByAuthor(a: Id): Post -> bool
  {
    (p: Post) => p.author == a
  }

  predicate Wrote(rows: seq<Post>, a: Id)
  {
    exists j :: 0 <= j < |rows| && rows[j].author == a
  }

  lemma WroteCons(rows: seq<Post>, a: Id)
    requires rows != []
    ensures Wrote(rows, a) <==> rows[0].author == a || Wrote(rows[1..], a)
  {
    if Wrote(rows, a) {
      var j :| 0 <= j < |rows| && rows[j].author == a;
      if j > 0 { assert rows[1..][j - 1].author == a; }
    }
    if Wrote(rows[1..], a) {
      var j :| 0 <= j < |rows[1..]| && rows[1..][j].author == a;
      assert rows[j + 1].author == a;
    }
  }

  /** The distinct authors of `rows`. */
  function Authors(rows: seq<Post>): (a: seq<Id>)
    ensures forall i, j :: 0 <= i < j < |a| ==> a[i] != a[j]
    ensures forall x :: x in a <==> Wrote(rows, x)
  {
    if rows == [] then []
    else
      var rest := Authors(rows[1..]);
      assert forall x :: Wrote(rows, x) <==> rows[0].author == x || Wrote(rows[1..], x) by {
        forall x ensures Wrote(rows, x) <==> rows[0].author == x || Wrote(rows[1..], x) {
          WroteCons(rows, x);
        }
      }
      if rows[0].author in rest then rest else [rows[0].author] + rest
  }

  /** `$max: "$createdAt"` over a non-empty set of posts. */
  function Latest(xs: seq<Post>): (m: int)
    requires xs != []
    ensures exists k :: 0 <= k < |xs| && xs[k].createdAt == m
    ensures forall k :: 0 <= k < |xs| ==> xs[k].createdAt <= m
  {
    if |xs| == 1 then xs[0].createdAt
    else
      var rest := Latest(xs[1..]);
      assert forall k :: 1 <= k < |xs| ==> xs[k] == xs[1..][k - 1];
      if xs[0].createdAt >= rest then xs[0].createdAt else rest
  }

  /** The `$group` row of an author that wrote at least one of `rows`. */
  function GroupOf(rows: seq<Post>, a: Id): (g: Group)
    requires Wrote(rows, a)
    ensures g.author == a && g.postCount == Count(rows, ByAuthor(a)) && g.postCount >= 1
    ensures exists j :: 0 <= j < |rows| && rows[j].author == a && rows[j].createdAt == g.latestPost
    ensures forall j :: 0 <= j < |rows| && rows[j].author == a ==> rows[j].createdAt <= g.latestPost
  {
    var mine := Filter(rows, ByAuthor(a));
    var j :| 0 <= j < |rows| && rows[j].author == a;
    assert rows[j] in mine;
    var m := Latest(mine);
    var k :| 0 <= k < |mine| && mine[k].createdAt == m;
    assert mine[k] in rows;
    assert forall i :: 0 <= i < |rows| && rows[i].author == a ==> rows[i] in mine;
    Group(a, |mine|, m)
  }

  function GroupsOf(rows: seq<Post>, authors: seq<Id>): (gs: seq<Group>)
    requires forall x :: x in authors ==> Wrote(rows, x)
    ensures |gs| == |authors|
    ensures forall k :: 0 <= k < |gs| ==> gs[k].author == authors[k] && gs[k] == GroupOf(rows, authors[k])
  {
    seq(|authors|, k requires 0 <= k < |authors| && Wrote(rows, authors[k]) => GroupOf(rows, authors[k]))
  }

  predicate Grouped(gs: seq<Group>, a: Id)
  {
    exists k :: 0 <= k < |gs| && gs[k].author == a
  }

  /** The `$group` stage: exactly one row per author of `rows`. */
  function Groups(rows: seq<Post>): (gs: seq<Group>)
    ensures forall i, j :: 0 <= i < j < |gs| ==> gs[i].author != gs[j].author
    ensures forall x :: Grouped(gs, x) <==> Wrote(rows, x)
    ensures forall k :: 0 <= k < |gs| ==> Wrote(rows, gs[k].author) && gs[k] == GroupOf(rows, gs[k].author)
  {
    var authors := Authors(rows);
    var gs := GroupsOf(rows, authors);
    assert forall x :: Grouped(gs, x) <==> x in authors by {
      forall x ensures Grouped(gs, x) <==> x in authors {
        if x in authors {
          var k :| 0 <= k < |authors| && authors[k] == x;
          assert gs[k].author == x;
        }
      }
    }
    gs
  }

  /** `$sort: { postCount: -1, latestPost: -1 }`. */
  function MoreActive(g: Group, h: Group): bool
  {
    g.postCount > h.postCount || (g.postCount == h.postCount && g.latestPost >= h.latestPost)
  }

  lemma MoreActiveIsPreorder()
    ensures TotalPreorder(MoreActive)
  {
  }

  /** Authors of posts that are neither the caller nor followed by the caller. */
  function Candidates(posts: seq<Post>, follows: seq<Follow>, current: Id): (rows: seq<Post>)
    ensures forall k :: 0 <= k < |rows| ==>
      rows[k] in posts && rows[k].author != current && !FollowController.IsFollowing(follows, current, rows[k].author)
  {
    var excluded := FollowController.FollowingIds(follows, current) + [current];
    Filter(posts, (p: Post) => p.author !in excluded)
  }

  /** `$match`, `$group`, `$sort` and `$limit`: the `limit` most active
      candidate authors, most posts first and, among equals, the most recent
      poster first. No candidate left out is more active than one kept. */
  function Ranked(posts: seq<Post>, follows: seq<Follow>, current: Id, limit: nat): (r: seq<Group>)
    ensures var all := Groups(Candidates(posts, follows, current));
      |r| == (if |all| < limit then |all| else limit)
      && (forall k :: 0 <= k < |r| ==> r[k] in all)
      && (forall g :: g in all && g !in r ==> forall k :: 0 <= k < |r| ==> MoreActive(r[k], g))
      && multiset(r) <= multiset(all)
    ensures forall i, j :: 0 <= i < j < |r| ==> MoreActive(r[i], r[j])
    ensures forall i, j :: 0 <= i < j < |r| ==> r[i].author != r[j].author
  {
    var all := Groups(Candidates(posts, follows, current));
    MoreActiveIsPreorder();
    var sorted := SortBy(all, MoreActive);
    var n := if |all| < limit then |all| else limit;
    TopOfSorted(all, sorted, n);
    SubBagKeepsAuthorsApart(all, sorted[..n]);
    sorted[..n]
  }

  /** Part of a list of groups with distinct authors, each group taken no
      more often than it occurs, again has distinct authors. */
  lemma SubBagKeepsAuthorsApart(all: seq<Group>, r: seq<Group>)
    requires forall i, j :: 0 <= i < j < |all| ==> all[i].author != all[j].author
    requires multiset(r) <= multiset(all)
    ensures forall i, j :: 0 <= i < j < |r| ==> r[i].author != r[j].author
  {
    forall i, j | 0 <= i < j < |r| ensures r[i].author != r[j].author {
      if r[i].author == r[j].author {
        assert r[i] in multiset(all) && r[j] in multiset(all);
        var p :| 0 <= p < |all| && all[p] == r[i];
        var q :| 0 <= q < |all| && all[q] == r[j];
        assert p == q;
        TwiceCounted(r, i, j);
        OnceCounted(all, p);
        assert false;
      }
    }
  }

  /** An element at two positions occurs at least twice. */
  lemma TwiceCounted(r: seq<Group>, i: nat, j: nat)
    requires i < j < |r| && r[i] == r[j]
    ensures multiset(r)[r[i]] >= 2
  {
    assert r == r[..j] + [r[j]] + r[j + 1..];
    assert r[..j][i] == r[i];
  }

  /** In groups with distinct authors each group occurs once. */
  lemma OnceCounted(all: seq<Group>, p: nat)
    requires forall i, j :: 0 <= i < j < |all| ==> all[i].author != all[j].author
    requires p < |all|
    ensures multiset(all)[all[p]] == 1
  {
    assert all == all[..p] + [all[p]] + all[p + 1..];
    assert all[p] !in all[..p] by {
      forall m | 0 <= m < p ensures all[..p][m] != all[p] { assert all[..p][m] == all[m]; }
    }
    var after := all[p + 1..];
    assert all[p] !in after by {
      forall m | 0 <= m < |after| ensures after[m] != all[p] { assert after[m] == all[p + 1 + m]; }
    }
  }

  /** The first `n` of a sorted reordering of the groups. */
  lemma {:induction false} TopOfSorted(all: seq<Group>, sorted: seq<Group>, n: nat)
    requires multiset(sorted) == multiset(all) && |sorted| == |all|
    requires Sorted(sorted, MoreActive)
    requires n <= |sorted|
    ensures var r := sorted[..n];
      (forall k :: 0 <= k < |r| ==> r[k] in all)
      && (forall g :: g in all && g !in r ==> forall k :: 0 <= k < |r| ==> MoreActive(r[k], g))
      && (forall i, j :: 0 <= i < j < |r| ==> MoreActive(r[i], r[j]))
      && multiset(r) <= multiset(all)
  {
    var r := sorted[..n];
    assert sorted == r + sorted[n..];
    forall k | 0 <= k < |r| ensures r[k] in all {
      assert r[k] in multiset(sorted);
    }
    forall g, k | g in all && g !in r && 0 <= k < |r|
      ensures MoreActive(r[k], g)
    {
      assert g in multiset(sorted);
      var j :| 0 <= j < |sorted| && sorted[j] == g;
      assert j >= n;
    }
  }

  /** A suggestion as the `$project` stage shapes it. */
  datatype Suggested = Suggested(id: Id, username: string, profileImage: Option<string>, intro: string, postCount: nat)

  predicate Listed(r: seq<Suggested>, a: Id)
  {
    exists k :: 0 <= k < |r| && r[k].id == a
  }

  predicate HasGroup(gs: seq<Group>, a: Id, n: nat)
  {
    exists i :: 0 <= i < |gs| && gs[i].author == a && gs[i].postCount == n
  }

  /** `$lookup` then `$unwind`: groups whose author has no user record vanish. */
  function Lookup(users: seq<User>, gs: seq<Group>): (r: seq<Suggested>)
    ensures |r| <= |gs|
    ensures forall k :: 0 <= k < |r| ==> UserExists(users, r[k].id) && HasGroup(gs, r[k].id, r[k].postCount)
    ensures forall i :: 0 <= i < |gs| && UserExists(users, gs[i].author) ==> Listed(r, gs[i].author)
  {
    if gs == [] then []
    else
      var rest := Lookup(users, gs[1..]);
      var u := UserIndex(users, gs[0].author);
      var head := if u >= 0 then [Suggested(users[u].id, users[u].username, users[u].profileImage, users[u].intro, gs[0].postCount)] else [];
      LookupCons(users, gs, head, rest);
      head + rest
  }

  lemma LookupCons(users: seq<User>, gs: seq<Group>, head: seq<Suggested>, rest: seq<Suggested>)
    requires gs != []
    requires UserExists(users, gs[0].author) ==> |head| == 1 && head[0].id == gs[0].author && head[0].postCount == gs[0].postCount
    requires !UserExists(users, gs[0].author) ==> head == []
    requires forall k :: 0 <= k < |rest| ==> UserExists(users, rest[k].id) && HasGroup(gs[1..], rest[k].id, rest[k].postCount)
    requires forall i :: 0 <= i < |gs[1..]| && UserExists(users, gs[1..][i].author) ==> Listed(rest, gs[1..][i].author)
    ensures var r := head + rest;
      (forall k :: 0 <= k < |r| ==> UserExists(users, r[k].id) && HasGroup(gs, r[k].id, r[k].postCount))
      && (forall i :: 0 <= i < |gs| && UserExists(users, gs[i].author) ==> Listed(r, gs[i].author))
  {
    LookupConsSound(users, gs, head, rest);
    LookupConsComplete(users, gs, head, rest);
  }

  lemma LookupConsSound(users: seq<User>, gs: seq<Group>, head: seq<Suggested>, rest: seq<Suggested>)
    requires gs != []
    requires UserExists(users, gs[0].author) ==> |head| == 1 && head[0].id == gs[0].author && head[0].postCount == gs[0].postCount
    requires !UserExists(users, gs[0].author) ==> head == []
    requires forall k :: 0 <= k < |rest| ==> UserExists(users, rest[k].id) && HasGroup(gs[1..], rest[k].id, rest[k].postCount)
    ensures var r := head + rest;
      forall k :: 0 <= k < |r| ==> UserExists(users, r[k].id) && HasGroup(gs, r[k].id, r[k].postCount)
  {
    var r := head + rest;
    forall k | 0 <= k < |r|
      ensures UserExists(users, r[k].id) && HasGroup(gs, r[k].id, r[k].postCount)
    {
      if k < |head| {
        assert gs[0].author == r[k].id;
      } else {
        assert r[k] == rest[k - |head|];
        var i :| 0 <= i < |gs[1..]| && gs[1..][i].author == r[k].id && gs[1..][i].postCount == r[k].postCount;
        assert gs[i + 1] == gs[1..][i];
      }
    }
  }

  lemma LookupConsComplete(users: seq<User>, gs: seq<Group>, head: seq<Suggested>, rest: seq<Suggested>)
    requires gs != []
    requires UserExists(users, gs[0].author) ==> |head| == 1 && head[0].id == gs[0].author
    requires forall i :: 0 <= i < |gs[1..]| && UserExists(users, gs[1..][i].author) ==> Listed(rest, gs[1..][i].author)
    ensures var r := head + rest;
      forall i :: 0 <= i < |gs| && UserExists(users, gs[i].author) ==> Listed(r, gs[i].author)
  {
    var r := head + rest;
    forall i | 0 <= i < |gs| && UserExists(users, gs[i].author)
      ensures Listed(r, gs[i].author)
    {
      if i == 0 {
        assert r[0].id == gs[0].author;
      } else {
        assert gs[1..][i - 1] == gs[i];
        var k :| 0 <= k < |rest| && rest[k].id == gs[i].author;
        assert r[|head| + k] == rest[k];
      }
    }
  }

  /** What a suggestion is: an existing user, neither the caller nor followed
      by the caller, with the number of posts they wrote. */
  ghost predicate Suggestible(users: seq<User>, posts: seq<Post>, follows: seq<Follow>, current: Id, s: Suggested)
  {
    s.id != current && !FollowController.IsFollowing(follows, current, s.id) && UserExists(users, s.id)
    && s.postCount == Count(Candidates(posts, follows, current), ByAuthor(s.id)) && s.postCount >= 1
  }

  lemma {:induction false} LookedUpAreSuggestible(users: seq<User>, posts: seq<Post>, follows: seq<Follow>, current: Id, limit: nat, k: nat)
    requires k < |Lookup(users, Ranked(posts, follows, current, limit))|
    ensures Suggestible(users, posts, follows, current, Lookup(users, Ranked(posts, follows, current, limit))[k])
  {
    var rows := Candidates(posts, follows, current);
    var all := Groups(rows);
    var ranked := Ranked(posts, follows, current, limit);
    var out := Lookup(users, ranked);
    var i :| 0 <= i < |ranked| && ranked[i].author == out[k].id && ranked[i].postCount == out[k].postCount;
    GroupedIsCandidate(posts, follows, current, rows, all, ranked[i]);
  }

  lemma GroupedIsCandidate(posts: seq<Post>, follows: seq<Follow>, current: Id, rows: seq<Post>, all: seq<Group>, g: Group)
    requires rows == Candidates(posts, follows, current) && all == Groups(rows) && g in all
    ensures g.author != current && !FollowController.IsFollowing(follows, current, g.author)
    ensures g.postCount == Count(rows, ByAuthor(g.author)) && g.postCount >= 1
  {
    var a :| 0 <= a < |all| && all[a] == g;
    assert Wrote(rows, all[a].author);
    var j :| 0 <= j < |rows| && rows[j].author == all[a].author;
  }

  datatype Suggestions = Suggestions(status: int, suggestedUsers: seq<Suggested>, count: nat)

  /** `getSuggestedUsers`: a `$limit` of zero makes the pipeline fail (500);
      otherwise the ranked authors that have a user record. Because `$limit`
      runs before `$lookup`, fewer than `limit` may come back even when more
      candidates exist. */
  function GetSuggestedUsers(users: seq<User>, posts: seq<Post>, follows: seq<Follow>, current: Id, limit: nat): (r: Suggestions)
    ensures limit == 0 <==> r.status == ServerError
    ensures r.status != ServerError ==> r.status == Ok
    ensures r.status == Ok ==> r.suggestedUsers == Lookup(users, Ranked(posts, follows, current, limit))
    ensures r.count == |r.suggestedUsers| <= limit
    ensures forall k :: 0 <= k < |r.suggestedUsers| ==> Suggestible(users, posts, follows, current, r.suggestedUsers[k])
  {
    if limit == 0 then Suggestions(ServerError, [], 0)
    else
      var out := Lookup(users, Ranked(posts, follows, current, limit));
      assert forall k :: 0 <= k < |out| ==> Suggestible(users, posts, follows, current, out[k]) by {
        forall k | 0 <= k < |out| ensures Suggestible(users, posts, follows, current, out[k]) {
          LookedUpAreSuggestible(users, posts, follows, current, limit, k);
        }
      }
      Suggestions(Ok, out, |out|)
  }

  /** No candidate author cut by `$limit` wrote more posts than any author
      that is suggested. */
  lemma {:induction false} SuggestedOutrankLeftOut(users: seq<User>, posts: seq<Post>, follows: seq<Follow>, current: Id,
                                                   limit: nat, g: Group, k: nat)
    requires g in Groups(Candidates(posts, follows, current)) && g !in Ranked(posts, follows, current, limit)
    requires k < |GetSuggestedUsers(users, posts, follows, current, limit).suggestedUsers|
    ensures GetSuggestedUsers(users, posts, follows, current, limit).suggestedUsers[k].postCount >= g.postCount
  {
    var ranked := Ranked(posts, follows, current, limit);
    var out := Lookup(users, ranked);
    assert out == GetSuggestedUsers(users, posts, follows, current, limit).suggestedUsers;
    var i := GroupAt(ranked, out[k].id, out[k].postCount);
    KeptOutranks(posts, follows, current, limit, g, i);
  }

  /** The position of the group a suggestion was taken from. */
  lemma GroupAt(gs: seq<Group>, a: Id, n: nat) returns (i: nat)
    requires HasGroup(gs, a, n)
    ensures i < |gs| && gs[i].postCount == n
  {
    i :| 0 <= i < |gs| && gs[i].author == a && gs[i].postCount == n;
  }

  /** A kept group has at least as many posts as a group left out. */
  lemma KeptOutranks(posts: seq<Post>, follows: seq<Follow>, current: Id, limit: nat, g: Group, i: nat)
    requires g in Groups(Candidates(posts, follows, current)) && g !in Ranked(posts, follows, current, limit)
    requires i < |Ranked(posts, follows, current, limit)|
    ensures Ranked(posts, follows, current, limit)[i].postCount >= g.postCount
  {
    assert MoreActive(Ranked(posts, follows, current, limit)[i], g);
  }
}
