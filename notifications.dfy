/** Services/Implementations/NotificationService.cs: a user's notifications and
    their read state. A notification is read exactly when it carries the time it
    was read; marking reads is idempotent, and marking all reads reports how many
    were unread. */
module NotificationService {
  import opened Base
  import opened Seqs
  import opened Sorting
  import opened Models
  import opened Data

  /** CreateNotificationRequest */
  datatype CreateNotificationRequest = CreateNotificationRequest(
    userId: Id, title: string, message: string, notificationType: NotificationType,
    metadataJson: Option<string>)

  /** UpdateNotificationRequest */
  datatype UpdateNotificationRequest = UpdateNotificationRequest(
    title: string, message: string, notificationType: NotificationType,
    metadataJson: Option<string>, isRead: bool)

  /** The InvalidOperationException CreateNotification throws ("User not found."). */
  datatype NotificationError = UserNotFound

  function IsNotificationOf(userId: Id): Notification -> bool {
    (n: Notification) => n.userId == userId
  }

  /** `n.Id == notificationId && n.UserId == userId` */
  function IsOwnNotification(userId: Id, notificationId: Id): Notification -> bool {
    (n: Notification) => n.id == notificationId && n.userId == userId
  }

  function HasNotificationId(notificationId: Id): Notification -> bool {
    (n: Notification) => n.id == notificationId
  }

  /** `n.UserId == userId && !n.IsRead` */
  function IsUnreadOf(userId: Id): Notification -> bool {
    (n: Notification) => n.userId == userId && !n.isRead
  }

  /** ReadAt is set exactly on the read notifications. */
  ghost predicate ReadStateConsistent(notifications: seq<Notification>) {
    forall i :: 0 <= i < |notifications| ==> (notifications[i].isRead <==> notifications[i].readAt.Some?)
  }

  function CreatedAtOf(n: Notification): int { n.createdAt }

  /** The user's notifications, newest first. */
  function GetUserNotifications(notifications: seq<Notification>, userId: Id): (r: seq<Notification>)
    ensures multiset(r) == multiset(Filter(notifications, IsNotificationOf(userId)))
    ensures forall n :: n in r ==> n in notifications && n.userId == userId
    ensures SortedDesc(r, CreatedAtOf)
  {
    var mine := Filter(notifications, IsNotificationOf(userId));
    var r := SortDesc(mine, CreatedAtOf);
    Listed(r, mine);
    r
  }

  lemma Listed<T>(r: seq<T>, s: seq<T>)
    requires multiset(r) == multiset(s)
    ensures forall x :: x in r ==> x in s
  {
    forall x | x in r ensures x in s {
      assert x in multiset(r);
    }
  }

  function FindNotification(notifications: seq<Notification>, userId: Id, notificationId: Id): Option<nat> {
    FirstIndex(notifications, IsOwnNotification(userId, notificationId))
  }

  /** The user's notification with this id, or None when there is none: another
      user's notification is never returned. */
  function GetNotification(notifications: seq<Notification>, userId: Id, notificationId: Id): (r: Option<Notification>)
    ensures r.None? <==> forall j :: 0 <= j < |notifications| ==> !IsOwnNotification(userId, notificationId)(notifications[j])
    ensures r.Some? ==> r.value in notifications && r.value.id == notificationId && r.value.userId == userId
  {
    match FindNotification(notifications, userId, notificationId)
    case None => None
    case Some(i) => Some(notifications[i])
  }

  // ---------------------------------------------------------------------------
  // Create and update

  /** The notification CreateNotification stores: unread, stamped now. */
  function NewNotification(id: Id, req: CreateNotificationRequest, now: Time): Notification {
    Notification(id, req.userId, req.title, req.message, req.notificationType, false, now, None, req.metadataJson)
  }

  /** Stores the notification for an existing user; an unknown user is an error
      and nothing changes. */
  method CreateNotification(db: Store, req: CreateNotificationRequest, newId: Id, now: Time)
    returns (r: Result<Notification, NotificationError>)
    modifies db`notifications
    ensures r.Failure? <==> !UserExists(db.users, req.userId)
    ensures r.Failure? ==> r.error == UserNotFound && db.notifications == old(db.notifications)
    ensures r.Success? ==> r.value == NewNotification(newId, req, now)
                           && db.notifications == old(db.notifications) + [r.value]
  {
    if !UserExists(db.users, req.userId) {
      return Failure(UserNotFound);
    }
    var notification := NewNotification(newId, req, now);
    db.notifications := db.notifications + [notification];
    r := Success(notification);
  }

  /** The request's fields over the stored ones; ReadAt becomes now when the
      request marks it read and is cleared otherwise. */
  function Revise(n: Notification, req: UpdateNotificationRequest, now: Time): (r: Notification)
    ensures r.isRead <==> r.readAt.Some?
    ensures r.isRead == req.isRead && (r.isRead ==> r.readAt == Some(now))
    ensures r.id == n.id && r.userId == n.userId && r.createdAt == n.createdAt
  {
    n.(title := req.title, message := req.message, notificationType := req.notificationType,
       metadataJson := req.metadataJson, isRead := req.isRead,
       readAt := if req.isRead then Some(now) else None)
  }

  /** Rewrites the notification with this id, whoever owns it; None and no change
      when there is none. */
  method UpdateNotification(db: Store, notificationId: Id, req: UpdateNotificationRequest, now: Time)
    returns (r: Option<Notification>)
    modifies db`notifications
    ensures r.None? <==> FirstIndex(old(db.notifications), HasNotificationId(notificationId)).None?
    ensures r.None? ==> db.notifications == old(db.notifications)
    ensures r.Some? ==>
              var i := FirstIndex(old(db.notifications), HasNotificationId(notificationId)).value;
              && r.value == Revise(old(db.notifications)[i], req, now)
              && db.notifications == old(db.notifications)[i := r.value]
  {
    var found := FirstIndex(db.notifications, HasNotificationId(notificationId));
    if found.None? {
      return None;
    }
    var revised := Revise(db.notifications[found.value], req, now);
    db.notifications := db.notifications[found.value := revised];
    r := Some(revised);
  }

  // ---------------------------------------------------------------------------
  // Read state

  function MarkRead(n: Notification, now: Time): Notification {
    n.(isRead := true, readAt := Some(now))
  }

  /** The table after MarkAsRead: the user's notification, if unread, is read now;
      anything else leaves the table as it is. */
  function MarkedRead(notifications: seq<Notification>, userId: Id, notificationId: Id, now: Time): seq<Notification> {
    match FindNotification(notifications, userId, notificationId)
    case None => notifications
    case Some(i) =>
      if notifications[i].isRead then notifications
      else notifications[i := MarkRead(notifications[i], now)]
  }

  /** Marks the user's notification read; false for a missing or foreign one, true
      (with no change) for one already read. */
  method MarkAsRead(db: Store, userId: Id, notificationId: Id, now: Time) returns (found: bool)
    modifies db`notifications
    ensures found <==> FindNotification(old(db.notifications), userId, notificationId).Some?
    ensures db.notifications == MarkedRead(old(db.notifications), userId, notificationId, now)
  {
    var index := FindNotification(db.notifications, userId, notificationId);
    if index.None? {
      return false;
    }
    var i := index.value;
    if !db.notifications[i].isRead {
      db.notifications := db.notifications[i := MarkRead(db.notifications[i], now)];
    }
    found := true;
  }

  /** Marking read sets at most the one notification: it ends read, with ReadAt now
      if it was unread and its old ReadAt otherwise; every other row and every
      other user is unchanged. */
  lemma MarkedReadEffect(notifications: seq<Notification>, userId: Id, notificationId: Id, now: Time)
    requires FindNotification(notifications, userId, notificationId).Some?
    ensures var i := FindNotification(notifications, userId, notificationId).value;
      var after := MarkedRead(notifications, userId, notificationId, now);
      && |after| == |notifications|
      && after[i].isRead
      && after[i].readAt == (if notifications[i].isRead then notifications[i].readAt else Some(now))
      && forall j :: 0 <= j < |after| && j != i ==> after[j] == notifications[j]
  {
  }

  /** Marking read a second time, at any later time, changes nothing. */
  lemma MarkAsReadIdempotent(notifications: seq<Notification>, userId: Id, notificationId: Id, now: Time, later: Time)
    ensures var once := MarkedRead(notifications, userId, notificationId, now);
      MarkedRead(once, userId, notificationId, later) == once
  {
    var p := IsOwnNotification(userId, notificationId);
    var once := MarkedRead(notifications, userId, notificationId, now);
    match FindNotification(notifications, userId, notificationId)
    case None =>
    case Some(i) =>
      if !notifications[i].isRead {
        var k := FindNotification(once, userId, notificationId);
        assert p(once[i]);
        assert k.Some? && k.value <= i;
      }
  }

  /** The table after MarkAllAsRead: each of the user's unread notifications is
      read now. */
  function MarkedAllRead(notifications: seq<Notification>, userId: Id, now: Time): (r: seq<Notification>)
    ensures |r| == |notifications|
  {
    seq(|notifications|, i requires 0 <= i < |notifications| =>
      if IsUnreadOf(userId)(notifications[i]) then MarkRead(notifications[i], now) else notifications[i])
  }

  /** The foreach loop of MarkAllAsRead: marks the user's unread notifications and
      returns how many there were. */
  method MarkAllAsRead(db: Store, userId: Id, now: Time) returns (count: nat)
    modifies db`notifications
    ensures db.notifications == MarkedAllRead(old(db.notifications), userId, now)
    ensures count == Count(old(db.notifications), IsUnreadOf(userId))
  {
    ghost var before := db.notifications;
    ghost var target := MarkedAllRead(before, userId, now);
    var i := 0;
    count := 0;
    while i < |db.notifications|
      invariant |db.notifications| == |before|
      invariant i <= |db.notifications|
      invariant forall j :: 0 <= j < i ==> db.notifications[j] == target[j]
      invariant forall j :: i <= j < |db.notifications| ==> db.notifications[j] == before[j]
      invariant count == Count(before[..i], IsUnreadOf(userId))
      decreases |db.notifications| - i
    {
      var notification := db.notifications[i];
      assert before[..i + 1] == before[..i] + [notification];
      CountSnoc(before[..i], notification, IsUnreadOf(userId));
      if notification.userId == userId && !notification.isRead {
        db.notifications := db.notifications[i := MarkRead(notification, now)];
        count := count + 1;
      }
      assert db.notifications[i] == target[i];
      i := i + 1;
    }
    assert before[..i] == before;
  }

  /** After marking all, the user has nothing unread; each of the user's
      notifications that was unread is read now, and every other row (the user's
      read ones, every other user's) is unchanged. */
  lemma MarkedAllReadEffect(notifications: seq<Notification>, userId: Id, now: Time)
    ensures var after := MarkedAllRead(notifications, userId, now);
      && Count(after, IsUnreadOf(userId)) == 0
      && (forall v :: v != userId ==> Count(after, IsUnreadOf(v)) == Count(notifications, IsUnreadOf(v)))
      && (forall j :: 0 <= j < |after| && IsUnreadOf(userId)(notifications[j]) ==>
            after[j] == MarkRead(notifications[j], now))
      && (forall j :: 0 <= j < |after| && !IsUnreadOf(userId)(notifications[j]) ==> after[j] == notifications[j])
  {
    var after := MarkedAllRead(notifications, userId, now);
    CountZero(after, IsUnreadOf(userId));
    forall v | v != userId
      ensures Count(after, IsUnreadOf(v)) == Count(notifications, IsUnreadOf(v))
    {
      SameUnread(notifications, after, userId, v);
    }
  }

  /** Another user's unread count is the same before and after marking all. */
  lemma {:induction false} SameUnread(notifications: seq<Notification>, after: seq<Notification>, userId: Id, v: Id)
    requires v != userId && |after| == |notifications|
    requires forall j :: 0 <= j < |after| ==> (IsUnreadOf(v)(after[j]) <==> IsUnreadOf(v)(notifications[j]))
    ensures Count(after, IsUnreadOf(v)) == Count(notifications, IsUnreadOf(v))
  {
    if |after| > 0 {
      var k := |after| - 1;
      SameUnread(notifications[..k], after[..k], userId, v);
    }
  }

  // ---------------------------------------------------------------------------
  // Delete

  /** Removes the user's notification; false, with no change, for a missing or
      foreign one. */
  method DeleteNotification(db: Store, userId: Id, notificationId: Id) returns (deleted: bool)
    modifies db`notifications
    ensures deleted <==> FindNotification(old(db.notifications), userId, notificationId).Some?
    ensures deleted ==> db.notifications
                        == RemoveAt(old(db.notifications), FindNotification(old(db.notifications), userId, notificationId).value)
    ensures !deleted ==> db.notifications == old(db.notifications)
  {
    var found := FindNotification(db.notifications, userId, notificationId);
    if found.None? {
      return false;
    }
    db.notifications := RemoveAt(db.notifications, found.value);
    deleted := true;
  }

  /** Deleting removes one of the caller's own notifications and none of anyone
      else's. */
  lemma DeleteRemovesOwnOnly(notifications: seq<Notification>, userId: Id, notificationId: Id)
    requires FindNotification(notifications, userId, notificationId).Some?
    ensures var i := FindNotification(notifications, userId, notificationId).value;
      var after := RemoveAt(notifications, i);
      && notifications[i].id == notificationId && notifications[i].userId == userId
      && Count(after, IsNotificationOf(userId)) == Count(notifications, IsNotificationOf(userId)) - 1
      && forall v :: v != userId ==> Count(after, IsNotificationOf(v)) == Count(notifications, IsNotificationOf(v))
  {
    var i := FindNotification(notifications, userId, notificationId).value;
    CountRemoveAt(notifications, i, IsNotificationOf(userId));
    forall v | v != userId
      ensures Count(RemoveAt(notifications, i), IsNotificationOf(v)) == Count(notifications, IsNotificationOf(v))
    {
      CountRemoveAt(notifications, i, IsNotificationOf(v));
    }
  }

  /** Every operation keeps ReadAt set exactly on the read notifications. */
  lemma ReadStateKept(notifications: seq<Notification>, userId: Id, notificationId: Id, now: Time,
                      created: CreateNotificationRequest, newId: Id, req: UpdateNotificationRequest)
    requires ReadStateConsistent(notifications)
    ensures ReadStateConsistent(notifications + [NewNotification(newId, created, now)])
    ensures var f := FirstIndex(notifications, HasNotificationId(notificationId));
      f.Some? ==> ReadStateConsistent(notifications[f.value := Revise(notifications[f.value], req, now)])
    ensures ReadStateConsistent(MarkedRead(notifications, userId, notificationId, now))
    ensures ReadStateConsistent(MarkedAllRead(notifications, userId, now))
    ensures var f := FindNotification(notifications, userId, notificationId);
      f.Some? ==> ReadStateConsistent(RemoveAt(notifications, f.value))
  {
    var all := MarkedAllRead(notifications, userId, now);
    forall j | 0 <= j < |all| ensures all[j].isRead <==> all[j].readAt.Some? {
      assert notifications[j].isRead <==> notifications[j].readAt.Some?;
      assert all[j] == if IsUnreadOf(userId)(notifications[j]) then MarkRead(notifications[j], now) else notifications[j];
    }
    var f := FindNotification(notifications, userId, notificationId);
    if f.Some? {
      var after := RemoveAt(notifications, f.value);
      forall j | 0 <= j < |after| ensures after[j].isRead <==> after[j].readAt.Some? {
        if j >= f.value {
          assert after[j] == notifications[j + 1];
        }
      }
    }
  }
}
