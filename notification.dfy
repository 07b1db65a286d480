/** The notification document: its schema rules, its message templates and
    the decision the `createNotification` static makes before inserting (a
    24-hour duplicate window, then self-suppression, then schema
    validation). The insert itself is `Store.Db.CreateNotification`. */
module NotificationModel {
  import opened Common
  import opened Entities

  /** 24 * 60 * 60 * 1000 milliseconds. */
  const Window: int := 86400000

  /** The object handed to `createNotification`; `message` is optional because
      callers may leave it out. */
  datatype NoticeData = NoticeData(
    recipient: Id,
    sender: Id,
    kind: Kind,
    post: Option<Id>,
    comment: Option<Id>,
    message: Option<string>)

  /** What the static does with one request. */
  datatype Outcome =
    | Duplicate    // a matching notification exists inside the window: null
    | SelfNotice   // recipient and sender coincide: null
    | Invalid      // `create` throws a ValidationError
    | Insert       // one document is created and returned

  // ---------------------------------------------------------------------
  // Schema
  // ---------------------------------------------------------------------

  /** The `required` rules: `post` for like and comment notifications,
      `comment` for comment notifications, and a non-empty `message`. */
  predicate DataValid(d: NoticeData)
  {
    (d.kind == LikeKind || d.kind == CommentKind ==> d.post.Some?)
    && (d.kind == CommentKind ==> d.comment.Some?)
    && d.message.Some? && d.message.value != ""
  }

  /** A stored document satisfies the same rules. */
  predicate StoredValid(n: Notification)
  {
    (n.kind == LikeKind || n.kind == CommentKind ==> n.post.Some?)
    && (n.kind == CommentKind ==> n.comment.Some?)
    && n.message != ""
  }

  /** The document `create(data)` stores: unread, stamped with `now`. */
  function Build(d: NoticeData, id: Id, now: int): (n: Notification)
    requires DataValid(d)
    ensures StoredValid(n) && !n.isRead && n.createdAt == now && n.id == id
    ensures n.recipient == d.recipient && n.sender == d.sender && n.kind == d.kind
    ensures n.post == d.post && n.comment == d.comment && n.message == d.message.value
  {
    Notification(id, d.recipient, d.sender, d.kind, d.post, d.comment, d.message.value, false, now)
  }

  // ---------------------------------------------------------------------
  // Messages
  // ---------------------------------------------------------------------

  const FallbackMessage: string := "새로운 알림이 있습니다."

  /** `generateMessage` (and the identical switch in the list handlers), for
      a raw `type` string and the sender's username. */
  function MessageFor(typeName: string, username: string): (m: string)
    ensures m != ""
    ensures ParseKind(typeName).None? <==> m == FallbackMessage
    ensures ParseKind(typeName).Some? ==> |username| < |m| && m[..|username|] == username
  {
    match typeName
    case "follow" => username + "님이 당신을 팔로우했습니다."
    case "like" => username + "님이 당신의 게시물을 좋아합니다."
    case "comment" => username + "님이 당신의 게시물에 댓글을 달았습니다."
    case _ => FallbackMessage
  }

  /** The three kinds get three different messages for the same sender. */
  lemma {:induction false} MessagesDistinguishKinds(k1: Kind, k2: Kind, username: string)
    requires k1 != k2
    ensures MessageFor(KindName(k1), username) != MessageFor(KindName(k2), username)
  {
    var m1 := MessageFor(KindName(k1), username);
    var m2 := MessageFor(KindName(k2), username);
    var u := |username|;
    // The templates already differ right after the shared "<name>님이 당신" prefix.
    assert m1[u + 5] != m2[u + 5] || m1[u + 7] != m2[u + 7] || |m1| != |m2|;
  }

  // ---------------------------------------------------------------------
  // Duplicate window
  // ---------------------------------------------------------------------

  /** The query fields: recipient, sender, type and `post || null`. The comment
      id is not among them. */
  predicate SameKey(n: Notification, d: NoticeData)
  {
    n.recipient == d.recipient && n.sender == d.sender && n.kind == d.kind && n.post == d.post
  }

  /** `createdAt >= now - 24h`: the bound is inclusive. */
  predicate InWindow(n: Notification, now: int)
  {
    n.createdAt >= now - Window
  }

  /** The `findOne` of the static, as an index into the table (-1: none). */
  function DuplicateIndex(table: seq<Notification>, d: NoticeData, now: int): (i: int)
    ensures -1 <= i < |table|
    ensures i >= 0 ==> SameKey(table[i], d) && InWindow(table[i], now)
    ensures i == -1 <==> forall j :: 0 <= j < |table| ==> !(SameKey(table[j], d) && InWindow(table[j], now))
  {
    FirstIndex(table, (n: Notification) => SameKey(n, d) && InWindow(n, now))
  }

  /** Duplicate check first, then self check, then schema validation. */
  function Decide(table: seq<Notification>, d: NoticeData, now: int): (o: Outcome)
    ensures o == Duplicate <==> exists j :: 0 <= j < |table| && SameKey(table[j], d) && InWindow(table[j], now)
    ensures o == SelfNotice <==>
      !(exists j :: 0 <= j < |table| && SameKey(table[j], d) && InWindow(table[j], now)) && d.recipient == d.sender
    ensures o == Invalid <==>
      !(exists j :: 0 <= j < |table| && SameKey(table[j], d) && InWindow(table[j], now)) && d.recipient != d.sender && !DataValid(d)
    ensures o == Insert ==> d.recipient != d.sender && DataValid(d)
    ensures d.recipient == d.sender ==> o != Insert
  {
    if DuplicateIndex(table, d, now) >= 0 then Duplicate
    else if d.recipient == d.sender then SelfNotice
    else if !DataValid(d) then Invalid
    else Insert
  }

  /** The table after the static has run. */
  function Apply(table: seq<Notification>, d: NoticeData, now: int, id: Id): (t: seq<Notification>)
    ensures Decide(table, d, now) == Insert ==> |t| == |table| + 1 && t[..|table|] == table
    ensures Decide(table, d, now) != Insert ==> t == table
  {
    if Decide(table, d, now) == Insert then table + [Build(d, id, now)] else table
  }

  /** Repeating a request that was just stored, at any time up to 24 hours
      later, is suppressed as a duplicate. */
  lemma {:induction false} RepeatWithinWindowSuppressed(table: seq<Notification>, d: NoticeData, now: int, id: Id, later: int)
    requires Decide(table, d, now) == Insert
    requires now <= later <= now + Window
    ensures Decide(Apply(table, d, now, id), d, later) == Duplicate
  {
    var t := Apply(table, d, now, id);
    assert SameKey(t[|table|], d) && InWindow(t[|table|], later);
  }

  /** A second comment on the same post by the same sender is suppressed
      inside the window even though its comment id differs. */
  lemma {:induction false} CommentIdIgnored(table: seq<Notification>, d: NoticeData, now: int, id: Id, later: int, otherComment: Id)
    requires Decide(table, d, now) == Insert
    requires now <= later <= now + Window
    ensures Decide(Apply(table, d, now, id), d.(comment := Some(otherComment)), later) == Duplicate
  {
    var t := Apply(table, d, now, id);
    var d2 := d.(comment := Some(otherComment));
    assert SameKey(t[|table|], d2) && InWindow(t[|table|], later);
  }

  /** Matches older than the window do not block a new notification. */
  lemma {:induction false} ExpiredMatchesDoNotBlock(table: seq<Notification>, d: NoticeData, now: int)
    requires forall j :: 0 <= j < |table| && SameKey(table[j], d) ==> table[j].createdAt < now - Window
    requires d.recipient != d.sender && DataValid(d)
    ensures Decide(table, d, now) == Insert
  {
    assert DuplicateIndex(table, d, now) == -1;
  }

  /** Self-notifications are never stored, whatever the table holds. */
  lemma {:induction false} SelfNeverStored(table: seq<Notification>, d: NoticeData, now: int, id: Id)
    requires d.recipient == d.sender
    ensures Apply(table, d, now, id) == table
  {
    assert Decide(table, d, now) != Insert;
  }

  // ---------------------------------------------------------------------
  // Table invariants the static keeps
  // ---------------------------------------------------------------------

  predicate KeysMatch(a: Notification, b: Notification)
  {
    a.recipient == b.recipient && a.sender == b.sender && a.kind == b.kind && a.post == b.post
  }

  /** Two stored notifications with the same key are more than 24 hours apart. */
  ghost predicate Spread(table: seq<Notification>)
  {
    forall i, j :: 0 <= i < j < |table| && KeysMatch(table[i], table[j]) ==>
      table[j].createdAt - table[i].createdAt > Window || table[i].createdAt - table[j].createdAt > Window
  }

  ghost predicate AllStoredValid(table: seq<Notification>)
  {
    forall n :: n in table ==> StoredValid(n) && n.recipient != n.sender
  }

  /** Inserting through the static keeps matching notifications 24 hours apart. */
  lemma {:induction false} ApplyKeepsSpread(table: seq<Notification>, d: NoticeData, now: int, id: Id)
    requires Spread(table)
    ensures Spread(Apply(table, d, now, id))
  {
    if Decide(table, d, now) == Insert {
      var t := Apply(table, d, now, id);
      var n := t[|table|];
      assert DuplicateIndex(table, d, now) == -1;
      forall i, j | 0 <= i < j < |t| && KeysMatch(t[i], t[j])
        ensures t[j].createdAt - t[i].createdAt > Window || t[i].createdAt - t[j].createdAt > Window
      {
        if j == |table| {
          assert t[i] == table[i];
          assert SameKey(table[i], d);
          assert !InWindow(table[i], now);
        } else {
          assert t[i] == table[i] && t[j] == table[j];
        }
      }
    }
  }

  /** Inserting through the static keeps every stored document schema-valid
      and addressed to someone other than its sender. */
  lemma {:induction false} ApplyKeepsValid(table: seq<Notification>, d: NoticeData, now: int, id: Id)
    requires AllStoredValid(table)
    ensures AllStoredValid(Apply(table, d, now, id))
  {
    if Decide(table, d, now) == Insert {
      var t := Apply(table, d, now, id);
      assert t == table + [Build(d, id, now)];
    }
  }
}
