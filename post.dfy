/** The post document: field constraints (content, image URLs, hashtag
    setters), the `getStats` and `isLikedByUser` methods, and the pre-delete
    hooks that remove the likes, comments and notifications of a post. */
module PostModel {
  import opened Common
  import opened Entities
  import LikeModel

  const MaxContent: nat := 1000

  // ---------------------------------------------------------------------
  // Image URLs: /^https?:\/\/.+\.(jpg|jpeg|png|gif|webp)$/i
  // ---------------------------------------------------------------------

  /** The characters a regular-expression `.` does not match. */
  predicate IsLineTerminator(c: char)
  {
    c == '\n' || c == '\r' || c == '\U{2028}' || c == '\U{2029}'
  }

  /** What follows `http://` or `https://` in an already lower-cased URL. */
  function AfterScheme(l: string): (r: Option<string>)
    ensures r.Some? ==> |r.value| < |l| && r.value == l[|l| - |r.value|..]
  {
    if |l| >= 7 && l[..7] == "http://" then Some(l[7..])
    else if |l| >= 8 && l[..8] == "https://" then Some(l[8..])
    else None
  }

  const Extensions: seq<string> := ["jpg", "jpeg", "png", "gif", "webp"]

  /** `.+\.ext$`: at least one non-terminator character, a dot, the extension. */
  predicate EndsWithExt(rest: string, ext: string)
  {
    |rest| >= |ext| + 2
    && rest[|rest| - |ext|..] == ext
    && rest[|rest| - |ext| - 1] == '.'
    && forall i :: 0 <= i < |rest| - |ext| - 1 ==> !IsLineTerminator(rest[i])
  }

  /** The pattern, matched case-sensitively against a lower-cased URL. */
  predicate LowerUrlMatches(l: string)
  {
    match AfterScheme(l)
    case None => false
    case Some(rest) => exists k :: 0 <= k < |Extensions| && EndsWithExt(rest, Extensions[k])
  }

  /** The `i` flag: letters match regardless of case. Lower-casing leaves line
      terminators alone, so matching the lower-cased URL against the
      lower-case pattern decides the case-insensitive match. */
  predicate ImageUrlValid(s: string)
  {
    LowerUrlMatches(ToLower(s))
  }

  lemma LowerTwice(s: string)
    ensures ToLower(ToLower(s)) == ToLower(s)
  {
    assert forall i :: 0 <= i < |s| ==> ToLower(ToLower(s))[i] == ToLower(s)[i];
  }

  /** A URL is accepted exactly when its lower-cased form is. */
  lemma {:induction false} ImageUrlCaseInsensitive(s: string)
    ensures ImageUrlValid(ToLower(s)) == ImageUrlValid(s)
  {
    LowerTwice(s);
  }

  // ---------------------------------------------------------------------
  // Field constraints
  // ---------------------------------------------------------------------

  /** `content` after its `trim` setter: required (non-empty) and at most 1000. */
  predicate ContentValid(content: string)
  {
    Trim(content) != [] && |Trim(content)| <= MaxContent
  }

  /** Save-time validation of a post's content and image list. */
  predicate PostFieldsValid(content: string, images: seq<string>)
  {
    ContentValid(content) && forall i :: 0 <= i < |images| ==> ImageUrlValid(images[i])
  }

  /** The `lowercase` then `trim` setters applied to each stored hashtag. */
  function StoredHashtag(h: string): string
  {
    Trim(ToLower(h))
  }

  // ---------------------------------------------------------------------
  // getStats, isLikedByUser
  // ---------------------------------------------------------------------

  datatype Stats = Stats(likesCount: nat, commentsCount: nat)

  function OnPostComment(post: Id): Comment -> bool
  {
    (c: Comment) => c.post == post
  }

  /** `getStats`: the likes and the comments whose post is this one. */
  function GetStats(likes: seq<Like>, comments: seq<Comment>, post: Id): (s: Stats)
    ensures s.likesCount == LikeModel.PostLikeCount(likes, post)
    ensures s.commentsCount == |Filter(comments, OnPostComment(post))|
    ensures s.likesCount <= |likes| && s.commentsCount <= |comments|
  {
    Stats(LikeModel.PostLikeCount(likes, post), Count(comments, OnPostComment(post)))
  }

  /** `isLikedByUser`: false without a user, else whether the pair is liked. */
  function IsLikedByUser(likes: seq<Like>, post: Id, user: Option<Id>): (b: bool)
    ensures user.None? ==> !b
    ensures user.Some? ==> (b <==> exists j :: 0 <= j < |likes| && likes[j].user == user.value && likes[j].post == post)
  {
    match user
    case None => false
    case Some(u) => LikeModel.IsLiked(likes, u, post)
  }

  // ---------------------------------------------------------------------
  // Cascade on delete (the `remove` and `findOneAndDelete` pre-hooks)
  // ---------------------------------------------------------------------

  function LikesWithout(likes: seq<Like>, post: Id): (r: seq<Like>)
  {
    Filter(likes, (l: Like) => l.post != post)
  }

  function CommentsWithout(comments: seq<Comment>, post: Id): (r: seq<Comment>)
  {
    Filter(comments, (c: Comment) => c.post != post)
  }

  function NotificationsWithout(notices: seq<Notification>, post: Id): (r: seq<Notification>)
  {
    Filter(notices, (n: Notification) => n.post != Some(post))
  }

  /** The hooks delete every like, comment and notification of the post and
      nothing else: each other row keeps its multiplicity. */
  lemma {:induction false} CascadeExact(likes: seq<Like>, comments: seq<Comment>, notices: seq<Notification>, post: Id)
    ensures forall l :: multiset(LikesWithout(likes, post))[l] == if l.post == post then 0 else multiset(likes)[l]
    ensures forall c :: multiset(CommentsWithout(comments, post))[c] == if c.post == post then 0 else multiset(comments)[c]
    ensures forall n :: multiset(NotificationsWithout(notices, post))[n] == if n.post == Some(post) then 0 else multiset(notices)[n]
  {
    FilterMultiset(likes, (l: Like) => l.post != post);
    FilterMultiset(comments, (c: Comment) => c.post != post);
    FilterMultiset(notices, (n: Notification) => n.post != Some(post));
  }

  /** The `createdAt` key that every post listing sorts on, newest first. */
  function Stamp(p: Post): int { p.createdAt }
}
