/** Likes, in the two forms the code base uses: rows of the Like collection
    with a unique (user, post) index, and the legacy embedded array of liker
    ids on a post. */
module LikeModel {
  import opened Common
  import opened Entities

  predicate LikeMatches(l: Like, user: Id, post: Id)
  {
    l.user == user && l.post == post
  }

  /** `findOne({ user, post })` as an index (-1: none). */
  function LikeIndex(likes: seq<Like>, user: Id, post: Id): (i: int)
    ensures -1 <= i < |likes|
    ensures i >= 0 ==> LikeMatches(likes[i], user, post)
    ensures i == -1 <==> forall j :: 0 <= j < |likes| ==> !LikeMatches(likes[j], user, post)
  {
    FirstIndex(likes, (l: Like) => LikeMatches(l, user, post))
  }

  /** The `isLikedByUser` static: `!!findOne({ user, post })`. */
  function IsLiked(likes: seq<Like>, user: Id, post: Id): (b: bool)
    ensures b <==> exists j :: 0 <= j < |likes| && LikeMatches(likes[j], user, post)
  {
    LikeIndex(likes, user, post) >= 0
  }

  function OnPost(post: Id): Like -> bool
  {
    (l: Like) => l.post == post
  }

  /** The `getPostLikeCount` static: `countDocuments({ post })`. */
  function PostLikeCount(likes: seq<Like>, post: Id): nat
  {
    Count(likes, OnPost(post))
  }

  /** The `toggleLike` static: delete the existing like, or create one.
      Returns the new table and `isLiked`. */
  function Toggle(likes: seq<Like>, user: Id, post: Id, id: Id, now: int): (r: (seq<Like>, bool))
    ensures r.1 <==> LikeIndex(likes, user, post) == -1
    ensures r.1 ==> r.0 == likes + [Like(id, user, post, now)]
    ensures !r.1 ==> |r.0| == |likes| - 1 && multiset(r.0) == multiset(likes) - multiset{likes[LikeIndex(likes, user, post)]}
  {
    var i := LikeIndex(likes, user, post);
    if i >= 0 then
      assert likes == likes[..i] + [likes[i]] + likes[i + 1..];
      (RemoveAt(likes, i), false)
    else
      (likes + [Like(id, user, post, now)], true)
  }

  /** With the unique index in force, a toggle flips whether the pair
      (user, post) is liked and leaves every other pair (u, p) as it was. */
  lemma {:induction false} ToggleFlipsPair(likes: seq<Like>, user: Id, post: Id, id: Id, now: int, u: Id, p: Id)
    requires UniqueLikes(likes)
    ensures var (t, liked) := Toggle(likes, user, post, id, now);
      liked == !IsLiked(likes, user, post)
      && IsLiked(t, u, p) == if (u, p) == (user, post) then liked else IsLiked(likes, u, p)
  {
    var (t, liked) := Toggle(likes, user, post, id, now);
    var i := LikeIndex(likes, user, post);
    if liked {
      assert LikeMatches(t[|likes|], user, post);
      if IsLiked(likes, u, p) {
        var k :| 0 <= k < |likes| && LikeMatches(likes[k], u, p);
        assert t[k] == likes[k];
      }
      if IsLiked(t, u, p) && (u, p) != (user, post) {
        var k :| 0 <= k < |t| && LikeMatches(t[k], u, p);
        assert t[k] == likes[k];
      }
    } else {
      RemovedPair(likes, i, u, p);
    }
  }

  /** Removing the row at `i` unlikes exactly that row's pair. */
  lemma {:induction false} RemovedPair(likes: seq<Like>, i: nat, u: Id, p: Id)
    requires UniqueLikes(likes)
    requires i < |likes|
    ensures IsLiked(RemoveAt(likes, i), u, p) == (IsLiked(likes, u, p) && (u, p) != (likes[i].user, likes[i].post))
  {
    var t := RemoveAt(likes, i);
    if IsLiked(t, u, p) {
      var k :| 0 <= k < |t| && LikeMatches(t[k], u, p);
      var k' := if k < i then k else k + 1;
      assert t[k] == likes[k'];
    }
    if IsLiked(likes, u, p) && (u, p) != (likes[i].user, likes[i].post) {
      var k :| 0 <= k < |likes| && LikeMatches(likes[k], u, p);
      if k < i { assert t[k] == likes[k]; } else { assert t[k - 1] == likes[k]; }
    }
  }

  /** A toggle keeps the unique index satisfied, given a fresh id. */
  lemma {:induction false} ToggleKeepsUnique(likes: seq<Like>, user: Id, post: Id, id: Id, now: int)
    requires UniqueLikes(likes)
    requires FreshLikeId(likes, id)
    ensures UniqueLikes(Toggle(likes, user, post, id, now).0)
  {
    var i := LikeIndex(likes, user, post);
    if i >= 0 {
      DistinctKeysRemoveAt(likes, LikeId, i);
      DistinctKeysRemoveAt(likes, LikePair, i);
    } else {
      var l := Like(id, user, post, now);
      assert KeyAbsent(likes, LikePair, LikePair(l)) by {
        forall j | 0 <= j < |likes| ensures LikePair(likes[j]) != LikePair(l) {
          assert !LikeMatches(likes[j], user, post);
        }
      }
      DistinctKeysAppend(likes, LikeId, l);
      DistinctKeysAppend(likes, LikePair, l);
    }
  }

  /** Two consecutive toggles of the same pair restore, for every pair (u, p),
      whether it is liked. */
  lemma {:induction false} DoubleToggleRestores(likes: seq<Like>, user: Id, post: Id, id1: Id, id2: Id, now1: int, now2: int, u: Id, p: Id)
    requires UniqueLikes(likes)
    requires FreshLikeId(likes, id1)
    ensures var t1 := Toggle(likes, user, post, id1, now1).0;
      IsLiked(Toggle(t1, user, post, id2, now2).0, u, p) == IsLiked(likes, u, p)
  {
    var t1 := Toggle(likes, user, post, id1, now1).0;
    ToggleFlipsPair(likes, user, post, id1, now1, u, p);
    ToggleFlipsPair(likes, user, post, id1, now1, user, post);
    ToggleKeepsUnique(likes, user, post, id1, now1);
    ToggleFlipsPair(t1, user, post, id2, now2, u, p);
    ToggleFlipsPair(t1, user, post, id2, now2, user, post);
  }

  /** When the pair was not liked, two toggles give back the very same table. */
  lemma {:induction false} DoubleToggleFromUnliked(likes: seq<Like>, user: Id, post: Id, id1: Id, id2: Id, now1: int, now2: int)
    requires !IsLiked(likes, user, post)
    ensures var t1 := Toggle(likes, user, post, id1, now1).0;
      Toggle(t1, user, post, id2, now2).0 == likes
  {
    var t1 := Toggle(likes, user, post, id1, now1).0;
    assert t1 == likes + [Like(id1, user, post, now1)];
    assert LikeIndex(t1, user, post) == |likes| by {
      assert LikeMatches(t1[|likes|], user, post);
      forall j | 0 <= j < |likes| ensures !LikeMatches(t1[j], user, post) {
        assert t1[j] == likes[j];
      }
    }
    assert t1[..|likes|] == likes;
  }

  /** Toggling changes the like count of that post by exactly one and the
      counts of every other post not at all. */
  lemma {:induction false} ToggleCounts(likes: seq<Like>, user: Id, post: Id, id: Id, now: int, other: Id)
    ensures var (t, liked) := Toggle(likes, user, post, id, now);
      PostLikeCount(t, post) == (if liked then PostLikeCount(likes, post) + 1 else PostLikeCount(likes, post) - 1)
      && (other != post ==> PostLikeCount(t, other) == PostLikeCount(likes, other))
  {
    var (t, liked) := Toggle(likes, user, post, id, now);
    var i := LikeIndex(likes, user, post);
    if liked {
      FilterAppend(likes, [Like(id, user, post, now)], OnPost(post));
      FilterAppend(likes, [Like(id, user, post, now)], OnPost(other));
    } else {
      var l := likes[i];
      assert likes == likes[..i] + ([l] + likes[i + 1..]);
      FilterAppend(likes[..i], [l] + likes[i + 1..], OnPost(post));
      FilterAppend([l], likes[i + 1..], OnPost(post));
      FilterAppend(likes[..i], likes[i + 1..], OnPost(post));
      FilterAppend(likes[..i], [l] + likes[i + 1..], OnPost(other));
      FilterAppend([l], likes[i + 1..], OnPost(other));
      FilterAppend(likes[..i], likes[i + 1..], OnPost(other));
      assert t == likes[..i] + likes[i + 1..];
    }
  }

  // ---------------------------------------------------------------------
  // The legacy embedded array (`post.likes`)
  // ---------------------------------------------------------------------

  /** `likes.indexOf(user)`, then `splice(index, 1)` when found, else `push`.
      Returns the new array and `isLiked`. */
  function ToggleEmbedded(likes: seq<Id>, user: Id): (r: (seq<Id>, bool))
    ensures r.1 <==> user !in likes
    ensures r.1 ==> r.0 == likes + [user]
    ensures !r.1 ==> |r.0| == |likes| - 1
    ensures multiset(r.0) == if r.1 then multiset(likes) + multiset{user} else multiset(likes) - multiset{user}
  {
    var i := FirstIndex(likes, (u: Id) => u == user);
    if i >= 0 then
      assert likes == likes[..i] + [likes[i]] + likes[i + 1..];
      (RemoveAt(likes, i), false)
    else
      (likes + [user], true)
  }

  /** Only the first occurrence goes: the rest of the array keeps its order. */
  lemma {:induction false} ToggleEmbeddedRemovesFirst(likes: seq<Id>, user: Id)
    requires user in likes
    ensures exists i :: (0 <= i < |likes| && likes[i] == user && user !in likes[..i]
                         && ToggleEmbedded(likes, user).0 == likes[..i] + likes[i + 1..])
  {
    var i := FirstIndex(likes, (u: Id) => u == user);
    assert user !in likes[..i];
  }

  /** For an array holding each liker at most once, two toggles by the same
      user give back the same likers (possibly in another order). */
  lemma {:induction false} ToggleEmbeddedTwice(likes: seq<Id>, user: Id)
    requires multiset(likes)[user] <= 1
    ensures var t1 := ToggleEmbedded(likes, user).0;
      multiset(ToggleEmbedded(t1, user).0) == multiset(likes)
  {
    var (t1, l1) := ToggleEmbedded(likes, user);
    if !l1 {
      assert multiset(t1)[user] == 0;
      assert user !in t1;
    } else {
      assert user in t1 by { assert t1[|likes|] == user; }
    }
  }

  /** The messages the two toggles report. */
  const LikedMessage: string := "좋아요가 추가되었습니다."
  const UnlikedMessage: string := "좋아요가 취소되었습니다."

  /** The body of a toggle response (the post id echoed back is left out). */
  datatype ToggleReply = ToggleReply(status: int, message: string, isLiked: bool, likesCount: nat)
}
