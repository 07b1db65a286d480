/** The notification handlers. `notificationController.js` and the
    notification half of `socialController.js` share them; the social list
    handler also accepts a `type` filter. Both files define the same
    `createNotification` helper that the follow, like and comment handlers
    call. */
module NotificationController {
  import opened Common
  import opened Entities
  import opened NotificationModel
  import opened Sorting
  import opened Store

  const NotFound: int := 404
  const Ok: int := 200

  // ---------------------------------------------------------------------
  // The createNotification helper
  // ---------------------------------------------------------------------

  /** The sender's username, as `populate("sender")` provides it; "" when the
      sender has no user record. */
  function SenderName(users: seq<User>, sender: Id): string
  {
    var i := UserIndex(users, sender);
    if i >= 0 then users[i].username else ""
  }

  /** The data object the helper builds as written: recipient, sender, type,
      post and comment, and no `message`. */
  function HelperDataAsWritten(kind: Kind, sender: Id, recipient: Id, post: Option<Id>, comment: Option<Id>): (d: NoticeData)
    ensures d.recipient == recipient && d.sender == sender && d.kind == kind
    ensures !DataValid(d)
  {
    NoticeData(recipient, sender, kind, post, comment, None)
  }

  /** As written, the schema rejects every object the helper builds, the helper
      swallows the error, and no notification is ever stored. */
  lemma {:induction false} AsWrittenHelperNeverStores(table: seq<Notification>, kind: Kind, sender: Id, recipient: Id,
                                                      post: Option<Id>, comment: Option<Id>, now: int, id: Id)
    ensures Decide(table, HelperDataAsWritten(kind, sender, recipient, post, comment), now) != Insert
    ensures Apply(table, HelperDataAsWritten(kind, sender, recipient, post, comment), now, id) == table
  {
    var d := HelperDataAsWritten(kind, sender, recipient, post, comment);
    assert !DataValid(d);
  }

  /** The corrected helper data: the same fields plus the generated message. */
  function HelperData(users: seq<User>, kind: Kind, sender: Id, recipient: Id, post: Option<Id>, comment: Option<Id>): (d: NoticeData)
    ensures d.recipient == recipient && d.sender == sender && d.kind == kind && d.post == post && d.comment == comment
    ensures ((kind == LikeKind || kind == CommentKind) ==> post.Some?) && (kind == CommentKind ==> comment.Some?) ==> DataValid(d)
    ensures d.message.Some? && d.message.value != FallbackMessage
  {
    NoticeData(recipient, sender, kind, post, comment, Some(MessageFor(KindName(kind), SenderName(users, sender))))
  }

  /** With the corrected helper, a request that carries the ids its kind needs,
      is not addressed to its sender and has no match in the window is stored. */
  lemma {:induction false} CorrectedHelperStores(users: seq<User>, table: seq<Notification>, kind: Kind, sender: Id, recipient: Id,
                                                 post: Option<Id>, comment: Option<Id>, now: int)
    requires sender != recipient
    requires (kind == LikeKind || kind == CommentKind) ==> post.Some?
    requires kind == CommentKind ==> comment.Some?
    requires forall j :: 0 <= j < |table| ==> !(SameKey(table[j], HelperData(users, kind, sender, recipient, post, comment)) && InWindow(table[j], now))
    ensures Decide(table, HelperData(users, kind, sender, recipient, post, comment), now) == Insert
  {
    var d := HelperData(users, kind, sender, recipient, post, comment);
    assert DuplicateIndex(table, d, now) == -1;
  }

  /** `createNotification(type, senderId, recipientId, postId, commentId)` with
      the generated message supplied; any failure becomes null. */
  method Notify(db: Db, kind: Kind, sender: Id, recipient: Id, post: Option<Id>, comment: Option<Id>, now: int, id: Id)
    returns (r: Option<Notification>)
    requires db.Valid()
    requires FreshNotificationId(db.notifications, id)
    modifies db`notifications
    ensures db.Valid()
    ensures db.notifications == Apply(old(db.notifications), HelperData(old(db.users), kind, sender, recipient, post, comment), now, id)
    ensures r.Some? <==> |db.notifications| == |old(db.notifications)| + 1
    ensures r.Some? ==> db.notifications == old(db.notifications) + [r.value] && r.value.id == id && !r.value.isRead
    ensures r.Some? ==> r.value.sender == sender && r.value.recipient == recipient && r.value.kind == kind
  {
    var d := HelperData(db.users, kind, sender, recipient, post, comment);
    var o;
    o, r := db.CreateNotification(d, now, id);
  }

  // ---------------------------------------------------------------------
  // Listing
  // ---------------------------------------------------------------------

  /** One listed item: the document with its generated message. */
  datatype NoticeView = NoticeView(
    id: Id, typeName: string, message: string, sender: Id, post: Option<Id>, comment: Option<Id>, isRead: bool, createdAt: int)

  datatype NoticeList = NoticeList(items: seq<NoticeView>, total: nat, unreadCount: nat, currentPage: nat, totalPages: nat)

  function View(users: seq<User>, n: Notification): (v: NoticeView)
    ensures v.id == n.id && v.isRead == n.isRead && v.createdAt == n.createdAt && v.sender == n.sender
    ensures v.message == MessageFor(v.typeName, SenderName(users, n.sender)) && ParseKind(v.typeName) == Some(n.kind)
  {
    NoticeView(n.id, KindName(n.kind), MessageFor(KindName(n.kind), SenderName(users, n.sender)),
               n.sender, n.post, n.comment, n.isRead, n.createdAt)
  }

  /** The query filter: recipient, optionally unread only, optionally one kind. */
  predicate Listed(n: Notification, user: Id, unreadOnly: bool, kind: Option<Kind>)
  {
    n.recipient == user && (unreadOnly ==> !n.isRead) && (kind.Some? ==> n.kind == kind.value)
  }

  predicate Unread(n: Notification, user: Id)
  {
    n.recipient == user && !n.isRead
  }

  /** `countDocuments({ recipient, isRead: false })` (`getUnreadCount`). */
  function UnreadCount(table: seq<Notification>, user: Id): nat
  {
    Count(table, (n: Notification) => Unread(n, user))
  }

  function Stamp(n: Notification): int { n.createdAt }

  /** `find(filter).sort({ createdAt: -1 }).skip(...).limit(...)`. */
  function Selected(table: seq<Notification>, user: Id, unreadOnly: bool, kind: Option<Kind>, page: nat, limit: nat): (s: seq<Notification>)
    requires page >= 1
    ensures s == NewestPage(Filter(table, (n: Notification) => Listed(n, user, unreadOnly, kind)), Stamp, page, limit)
    ensures |s| <= limit
    ensures forall k :: 0 <= k < |s| ==> s[k] in table && Listed(s[k], user, unreadOnly, kind)
    ensures forall i, j :: 0 <= i < j < |s| ==> s[i].createdAt >= s[j].createdAt
  {
    var matching := Filter(table, (n: Notification) => Listed(n, user, unreadOnly, kind));
    var s := NewestPage(matching, Stamp, page, limit);
    assert forall k :: 0 <= k < |s| ==> s[k] in matching;
    s
  }

  /** The first page, when it is large enough, holds every matching
      notification, each as often as the table does. */
  lemma {:induction false} FirstPageIsEverything(table: seq<Notification>, user: Id, unreadOnly: bool, kind: Option<Kind>, limit: nat)
    requires Count(table, (n: Notification) => Listed(n, user, unreadOnly, kind)) <= limit
    ensures forall n :: Listed(n, user, unreadOnly, kind) ==>
      multiset(Selected(table, user, unreadOnly, kind, 1, limit))[n] == multiset(table)[n]
  {
    var p := (n: Notification) => Listed(n, user, unreadOnly, kind);
    FirstPageHoldsAll(Filter(table, p), Stamp, limit);
    FilterMultiset(table, p);
  }

  /** Each selected document with its generated message, in order. */
  function Views(users: seq<User>, s: seq<Notification>): (r: seq<NoticeView>)
    ensures |r| == |s|
    ensures forall k :: 0 <= k < |r| ==> r[k] == View(users, s[k])
  {
    if s == [] then [] else [View(users, s[0])] + Views(users, s[1..])
  }

  /** The list handlers' shared response: the page, the filter's total, the
      caller's unread count and the page count. */
  function ListWith(users: seq<User>, table: seq<Notification>, user: Id, unreadOnly: bool, kind: Option<Kind>, page: nat, limit: nat): (r: NoticeList)
    requires page >= 1 && limit >= 1
    ensures r.items == Views(users, Selected(table, user, unreadOnly, kind, page, limit))
    ensures |r.items| <= limit
    ensures forall k :: 0 <= k < |r.items| ==> exists n :: n in table && Listed(n, user, unreadOnly, kind) && r.items[k] == View(users, n)
    ensures forall i, j :: 0 <= i < j < |r.items| ==> r.items[i].createdAt >= r.items[j].createdAt
    ensures r.total == Count(table, (n: Notification) => Listed(n, user, unreadOnly, kind))
    ensures r.unreadCount == UnreadCount(table, user)
    ensures r.currentPage == page && r.totalPages == CeilDiv(r.total, limit)
  {
    var s := Selected(table, user, unreadOnly, kind, page, limit);
    var items := Views(users, s);
    ViewsListed(users, table, user, unreadOnly, kind, s, items);
    var total := Count(table, (n: Notification) => Listed(n, user, unreadOnly, kind));
    NoticeList(items, total, UnreadCount(table, user), page, CeilDiv(total, limit))
  }

  /** Every notification the filter matches is shown on a page the reply's
      page count announces. */
  lemma {:induction false} EveryNoticeIsListed(users: seq<User>, table: seq<Notification>, user: Id, unreadOnly: bool,
                                               kind: Option<Kind>, limit: nat, n: Notification) returns (page: nat)
    requires limit >= 1 && n in table && Listed(n, user, unreadOnly, kind)
    ensures page >= 1
    ensures var r := ListWith(users, table, user, unreadOnly, kind, page, limit);
      page <= r.totalPages && View(users, n) in r.items
  {
    var rows := Filter(table, (n: Notification) => Listed(n, user, unreadOnly, kind));
    assert n in rows;
    page := EveryRowIsListed(rows, Stamp, limit, n);
    var s := Selected(table, user, unreadOnly, kind, page, limit);
    var k :| 0 <= k < |s| && s[k] == n;
    assert Views(users, s)[k] == View(users, n);
  }

  lemma ViewsListed(users: seq<User>, table: seq<Notification>, user: Id, unreadOnly: bool, kind: Option<Kind>,
                    s: seq<Notification>, items: seq<NoticeView>)
    requires forall k :: 0 <= k < |s| ==> s[k] in table && Listed(s[k], user, unreadOnly, kind)
    requires forall i, j :: 0 <= i < j < |s| ==> s[i].createdAt >= s[j].createdAt
    requires items == Views(users, s)
    ensures forall k :: 0 <= k < |items| ==> exists n :: n in table && Listed(n, user, unreadOnly, kind) && items[k] == View(users, n)
    ensures forall i, j :: 0 <= i < j < |items| ==> items[i].createdAt >= items[j].createdAt
  {
    forall k | 0 <= k < |items|
      ensures exists n :: n in table && Listed(n, user, unreadOnly, kind) && items[k] == View(users, n)
    {
      assert s[k] in table && Listed(s[k], user, unreadOnly, kind) && items[k] == View(users, s[k]);
    }
    forall i, j | 0 <= i < j < |items| ensures items[i].createdAt >= items[j].createdAt {
      assert items[i].createdAt == s[i].createdAt && items[j].createdAt == s[j].createdAt;
    }
  }

  /** `notificationController.getNotifications`: recipient, and unread only
      when `unreadOnly === "true"`; no type filter. */
  function GetNotifications(users: seq<User>, table: seq<Notification>, user: Id, unreadOnly: string, page: nat, limit: nat): (r: NoticeList)
    requires page >= 1 && limit >= 1
  {
    ListWith(users, table, user, unreadOnly == "true", None, page, limit)
  }

  /** `socialController.getNotifications`: as above, plus a type filter when
      `type` is one of the three kinds; any other value is ignored. */
  function SocialGetNotifications(users: seq<User>, table: seq<Notification>, user: Id, unreadOnly: string, typeParam: Option<string>,
                                  page: nat, limit: nat): (r: NoticeList)
    requires page >= 1 && limit >= 1
  {
    var kind := if typeParam.Some? then ParseKind(typeParam.value) else None;
    ListWith(users, table, user, unreadOnly == "true", kind, page, limit)
  }

  /** Only the literal string "true" restricts the list to unread items, and
      an unknown `type` value leaves the list as if no type had been given. */
  lemma {:induction false} FilterFlags(users: seq<User>, table: seq<Notification>, user: Id, unreadOnly: string, t: string, page: nat, limit: nat)
    requires page >= 1 && limit >= 1
    ensures unreadOnly != "true" ==>
      GetNotifications(users, table, user, unreadOnly, page, limit) == GetNotifications(users, table, user, "false", page, limit)
    ensures t !in {"follow", "like", "comment"} ==>
      SocialGetNotifications(users, table, user, unreadOnly, Some(t), page, limit) == GetNotifications(users, table, user, unreadOnly, page, limit)
    ensures SocialGetNotifications(users, table, user, unreadOnly, None, page, limit) == GetNotifications(users, table, user, unreadOnly, page, limit)
  {
    if t !in {"follow", "like", "comment"} {
      assert ParseKind(t) == None;
    }
  }

  /** Every listed item belongs to the caller, and its message is the template
      for its kind. */
  lemma {:induction false} ListedItemsBelongToCaller(users: seq<User>, table: seq<Notification>, user: Id, unreadOnly: string,
                                                     typeParam: Option<string>, page: nat, limit: nat, k: nat)
    requires page >= 1 && limit >= 1
    requires k < |SocialGetNotifications(users, table, user, unreadOnly, typeParam, page, limit).items|
    ensures var v := SocialGetNotifications(users, table, user, unreadOnly, typeParam, page, limit).items[k];
      (exists n :: n in table && n.recipient == user && n.id == v.id)
      && v.message != FallbackMessage
      && (unreadOnly == "true" ==> !v.isRead)
  {
    var v := SocialGetNotifications(users, table, user, unreadOnly, typeParam, page, limit).items[k];
    var kind := if typeParam.Some? then ParseKind(typeParam.value) else None;
    var n :| n in table && Listed(n, user, unreadOnly == "true", kind) && v == View(users, n);
  }

  // ---------------------------------------------------------------------
  // Reading, marking and deleting one notification
  // ---------------------------------------------------------------------

  /** `findOne({ _id, recipient })` as an index (-1: none). */
  function OwnedIndex(table: seq<Notification>, id: Id, user: Id): (i: int)
    ensures -1 <= i < |table|
    ensures i >= 0 ==> table[i].id == id && table[i].recipient == user
    ensures i == -1 <==> forall j :: 0 <= j < |table| ==> !(table[j].id == id && table[j].recipient == user)
  {
    FirstIndex(table, (n: Notification) => n.id == id && n.recipient == user)
  }

  /** `markAsRead` / `markNotificationAsRead`: 404 unless the caller owns the
      notification; otherwise only its `isRead` becomes true. */
  method MarkAsRead(db: Db, user: Id, id: Id) returns (status: int)
    requires db.Valid()
    modifies db`notifications
    ensures db.Valid()
    ensures var i := OwnedIndex(old(db.notifications), id, user);
      if i < 0 then status == NotFound && db.notifications == old(db.notifications)
      else status == Ok && db.notifications == old(db.notifications)[i := old(db.notifications)[i].(isRead := true)]
  {
    var i := OwnedIndex(db.notifications, id, user);
    if i < 0 {
      return NotFound;
    }
    var n := db.notifications[i].(isRead := true);
    DistinctKeysUpdate(db.notifications, NotificationId, i, n);
    assert db.notifications[i] in db.notifications;
    forall m | m in db.notifications[i := n] ensures StoredValid(m) && m.recipient != m.sender {
      var k :| 0 <= k < |db.notifications[i := n]| && db.notifications[i := n][k] == m;
      if k != i { assert m == db.notifications[k]; }
    }
    db.notifications := db.notifications[i := n];
    status := Ok;
  }

  /** The table after marking notification `id` of `user` read. */
  function MarkedRead(table: seq<Notification>, id: Id, user: Id): seq<Notification>
  {
    var i := OwnedIndex(table, id, user);
    if i < 0 then table else table[i := table[i].(isRead := true)]
  }

  /** Marking the same notification read twice is marking it once, and the
      caller's unread count drops by one exactly when it was unread. */
  lemma {:induction false} MarkReadIdempotent(table: seq<Notification>, id: Id, user: Id)
    requires DistinctKeys(table, NotificationId)
    ensures MarkedRead(MarkedRead(table, id, user), id, user) == MarkedRead(table, id, user)
  {
    var i := OwnedIndex(table, id, user);
    if i >= 0 {
      var t := MarkedRead(table, id, user);
      var i2 := OwnedIndex(t, id, user);
      assert t[i].id == id && t[i].recipient == user;
      assert 0 <= i2 <= i;
      if i2 < i {
        DistinctKeysOnly(table, NotificationId, i, i2);
      }
    }
  }

  /** `updateMany({ recipient, isRead: false }, { isRead: true })`. */
  function MarkAll(table: seq<Notification>, user: Id): (t: seq<Notification>)
    ensures |t| == |table|
    ensures forall k :: 0 <= k < |t| ==> t[k] == if Unread(table[k], user) then table[k].(isRead := true) else table[k]
  {
    if table == [] then []
    else [if Unread(table[0], user) then table[0].(isRead := true) else table[0]] + MarkAll(table[1..], user)
  }

  /** After the bulk update the caller has no unread notification, the
      modified count is the caller's unread count before, and every other
      user's unread count is unchanged. */
  lemma {:induction false} MarkAllEffect(table: seq<Notification>, user: Id, other: Id)
    ensures UnreadCount(MarkAll(table, user), user) == 0
    ensures other != user ==> UnreadCount(MarkAll(table, user), other) == UnreadCount(table, other)
  {
    if table != [] {
      MarkAllEffect(table[1..], user, other);
      MarkAllStep(table, user, user);
      if other != user {
        MarkAllStep(table, user, other);
      }
    }
  }

  /** One step of the bulk update, as counts of `who`'s unread rows. */
  lemma {:induction false} MarkAllStep(table: seq<Notification>, user: Id, who: Id)
    requires table != []
    ensures UnreadCount(MarkAll(table, user), who)
      == (if Unread(MarkAll(table, user)[0], who) then 1 else 0) + UnreadCount(MarkAll(table[1..], user), who)
    ensures UnreadCount(table, who) == (if Unread(table[0], who) then 1 else 0) + UnreadCount(table[1..], who)
  {
    var p := (n: Notification) => Unread(n, who);
    var t := MarkAll(table, user);
    assert t == [t[0]] + MarkAll(table[1..], user);
    FilterAppend([t[0]], MarkAll(table[1..], user), p);
    assert table == [table[0]] + table[1..];
    FilterAppend([table[0]], table[1..], p);
  }

  /** The bulk update keeps every id and leaves each document valid. */
  lemma MarkAllKeepsStored(table: seq<Notification>, user: Id)
    requires DistinctKeys(table, NotificationId) && AllStoredValid(table)
    ensures DistinctKeys(MarkAll(table, user), NotificationId) && AllStoredValid(MarkAll(table, user))
  {
    var t := MarkAll(table, user);
    assert forall k :: 0 <= k < |t| ==> NotificationId(t[k]) == NotificationId(table[k]);
    forall m | m in t ensures StoredValid(m) && m.recipient != m.sender {
      var k :| 0 <= k < |t| && t[k] == m;
      assert table[k] in table;
    }
  }

  /** `markAllAsRead` / `markAllNotificationsAsRead`: `updatedCount` is the
      number of documents flipped. */
  method MarkAllAsRead(db: Db, user: Id) returns (status: int, updatedCount: nat)
    requires db.Valid()
    modifies db`notifications
    ensures db.Valid()
    ensures status == Ok
    ensures db.notifications == MarkAll(old(db.notifications), user)
    ensures updatedCount == UnreadCount(old(db.notifications), user)
    ensures UnreadCount(db.notifications, user) == 0
  {
    var t := MarkAll(db.notifications, user);
    MarkAllEffect(db.notifications, user, user);
    MarkAllKeepsStored(db.notifications, user);
    updatedCount := UnreadCount(db.notifications, user);
    db.notifications := t;
    status := Ok;
  }

  /** `deleteNotification`: 404 unless the caller owns it, else exactly that
      document is removed. */
  method DeleteNotification(db: Db, user: Id, id: Id) returns (status: int)
    requires db.Valid()
    modifies db`notifications
    ensures db.Valid()
    ensures var i := OwnedIndex(old(db.notifications), id, user);
      if i < 0 then status == NotFound && db.notifications == old(db.notifications)
      else status == Ok && db.notifications == RemoveAt(old(db.notifications), i)
    ensures forall n :: n in db.notifications ==> n in old(db.notifications)
  {
    var i := OwnedIndex(db.notifications, id, user);
    if i < 0 {
      return NotFound;
    }
    DistinctKeysRemoveAt(db.notifications, NotificationId, i);
    var t := RemoveAt(db.notifications, i);
    forall m | m in t ensures m in db.notifications {
      var k :| 0 <= k < |t| && t[k] == m;
      if k < i { assert m == db.notifications[k]; } else { assert m == db.notifications[k + 1]; }
    }
    db.notifications := t;
    status := Ok;
  }

  /** `getUnreadCount`: counts exactly the caller's unread notifications,
      each as often as it is stored. */
  function GetUnreadCount(table: seq<Notification>, user: Id): (c: nat)
    ensures c <= |table|
    ensures c == 0 <==> forall k :: 0 <= k < |table| ==> !Unread(table[k], user)
    ensures c == |Filter(table, (n: Notification) => Unread(n, user))|
    ensures forall n :: Unread(n, user) ==>
      multiset(Filter(table, (n: Notification) => Unread(n, user)))[n] == multiset(table)[n]
  {
    var f := Filter(table, (n: Notification) => Unread(n, user));
    assert |f| > 0 ==> f[0] in table;
    FilterMultiset(table, (n: Notification) => Unread(n, user));
    UnreadCount(table, user)
  }
}
