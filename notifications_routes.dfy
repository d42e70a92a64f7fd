/** The notification routes: the fifty newest notifications of a user,
    marking one or all of them read, and deleting one. The clock reading
    `now` is a parameter. */
module NotificationsRoutes {
  import opened Common
  import opened Lists
  import opened Db

  /** At most this many notifications are listed. */
  const ListLimit: nat := 50

  function CreatedAt(n: Notification): int { n.createdAt }

  /** The user's notifications, in store order (`find({ recipient })`). */
  function Mine(notifications: seq<Notification>, userId: Id): (r: seq<Notification>)
    ensures forall n :: n in r <==> n in notifications && n.recipient == userId
  {
    Filter(notifications, (n: Notification) => n.recipient == userId)
  }

  /** `GET /notifications`: the user's notifications, newest first, at most
      fifty. */
  function ListNotifications(notifications: seq<Notification>, userId: Id): (r: seq<Notification>)
    ensures |r| <= ListLimit
    ensures SortedDesc(r, CreatedAt)
    ensures forall n :: n in r ==> n in notifications && n.recipient == userId
  {
    var mine := Mine(notifications, userId);
    TopKSpec(mine, CreatedAt, ListLimit);
    var r := TopK(mine, CreatedAt, ListLimit);
    assert forall n :: n in r ==> n in multiset(mine);
    r
  }

  /** The list holds the newest of the user's notifications: fifty of them
      when the user has more, one left out is no newer than any listed, and
      when the user has at most fifty, none is left out. */
  lemma ListNotificationsNewest(notifications: seq<Notification>, userId: Id)
    ensures forall n, m ::
      (n in notifications && n.recipient == userId && n !in ListNotifications(notifications, userId)
       && m in ListNotifications(notifications, userId)) ==> n.createdAt <= m.createdAt
    ensures |Mine(notifications, userId)| <= ListLimit ==>
      forall n :: n in notifications && n.recipient == userId ==> n in ListNotifications(notifications, userId)
    ensures var n := |Mine(notifications, userId)|;
      |ListNotifications(notifications, userId)| == if n <= ListLimit then n else ListLimit
  {
    var mine := Mine(notifications, userId);
    var r := ListNotifications(notifications, userId);
    assert r == TopK(mine, CreatedAt, ListLimit);
    TopKSpec(mine, CreatedAt, ListLimit);
    forall n, m | n in notifications && n.recipient == userId && n !in r && m in r
      ensures n.createdAt <= m.createdAt
    {
      TopKLeftOut(mine, CreatedAt, ListLimit, n);
    }
    if |mine| <= ListLimit {
      TopKAll(mine, CreatedAt, ListLimit);
    }
  }

  /** A notification as marked read at `now`. */
  function MarkedRead(n: Notification, now: Time): Notification {
    n.(read := true, readAt := Some(now))
  }

  /** `PUT /notifications/:id/read`: the notification must exist and be
      addressed to the user; it is marked read, with the time of this read
      even when it had been read before. */
  function MarkReadStep(notifications: seq<Notification>, id: Id, userId: Id, now: Time): (r: Result<seq<Notification>>)
    ensures r.Ok? <==> exists k :: 0 <= k < |notifications| && notifications[k].id == id && notifications[k].recipient == userId
    ensures r.Err? ==> r.error == NotFound
    ensures r.Ok? ==>
      && |r.value| == |notifications|
      && exists k :: 0 <= k < |notifications| && notifications[k].id == id && notifications[k].recipient == userId
           && r.value == notifications[k := MarkedRead(notifications[k], now)]
  {
    match FindFirst(notifications, (n: Notification) => n.id == id && n.recipient == userId)
    case None => Err(NotFound)
    case Some(k) => Ok(notifications[k := MarkedRead(notifications[k], now)])
  }

  /** The single-read handler. */
  method MarkRead(db: Store, id: Id, userId: Id, now: Time) returns (r: Result<Notification>)
    requires db.Valid()
    modifies db`notifications
    ensures db.Valid()
    ensures var s := MarkReadStep(old(db.notifications), id, userId, now);
      && (s.Ok? ==> db.notifications == s.value && r.Ok? && r.value in db.notifications
                    && r.value.id == id && r.value.recipient == userId && r.value.read && r.value.readAt == Some(now))
      && (s.Err? ==> r == Err(s.error) && db.notifications == old(db.notifications))
  {
    var found := FindFirst(db.notifications, (n: Notification) => n.id == id && n.recipient == userId);
    if found.None? {
      return Err(NotFound);
    }
    var k := found.value;
    var n := MarkedRead(db.notifications[k], now);
    IdsOkUpdate(db.notifications, NotificationId, k, n, db.nextId);
    db.notifications := db.notifications[k := n];
    assert db.notifications[k] == n;
    r := Ok(n);
  }

  /** The filter `{ recipient: userId, read: false }`. */
  predicate Unread(n: Notification, userId: Id) {
    n.recipient == userId && !n.read
  }

  /** The store after `PUT /notifications/read-all`: every unread
      notification of the user is marked read at `now`; the user's earlier
      reads keep their time and other users' notifications are untouched. */
  function ReadAll(notifications: seq<Notification>, userId: Id, now: Time): (r: seq<Notification>)
    ensures |r| == |notifications|
    ensures forall i :: 0 <= i < |r| ==> !Unread(r[i], userId)
    ensures forall i :: 0 <= i < |r| ==> r[i].id == notifications[i].id && r[i].recipient == notifications[i].recipient
    ensures forall i :: 0 <= i < |r| && !Unread(notifications[i], userId) ==> r[i] == notifications[i]
    ensures forall i :: 0 <= i < |r| && Unread(notifications[i], userId) ==> r[i] == MarkedRead(notifications[i], now)
  {
    seq(|notifications|, i requires 0 <= i < |notifications| =>
      if Unread(notifications[i], userId) then MarkedRead(notifications[i], now) else notifications[i])
  }

  /** Reading all twice is reading all once, whatever the second time. */
  lemma ReadAllIdempotent(notifications: seq<Notification>, userId: Id, now: Time, later: Time)
    ensures ReadAll(ReadAll(notifications, userId, now), userId, later) == ReadAll(notifications, userId, now)
  {
    var once := ReadAll(notifications, userId, now);
    assert forall i :: 0 <= i < |once| ==> !Unread(once[i], userId);
  }

  /** The `updateMany`, record by record in place. */
  method MarkAllRead(db: Store, userId: Id, now: Time)
    requires db.Valid()
    modifies db`notifications
    ensures db.Valid()
    ensures db.notifications == ReadAll(old(db.notifications), userId, now)
  {
    ghost var before := db.notifications;
    var i := 0;
    while i < |db.notifications|
      invariant 0 <= i <= |db.notifications| == |before|
      invariant forall j :: 0 <= j < i ==> db.notifications[j] == ReadAll(before, userId, now)[j]
      invariant forall j :: i <= j < |db.notifications| ==> db.notifications[j] == before[j]
    {
      var n := db.notifications[i];
      if n.recipient == userId && !n.read {
        db.notifications := db.notifications[i := MarkedRead(n, now)];
      }
      i := i + 1;
    }
    ghost var r := ReadAll(before, userId, now);
    assert forall j :: 0 <= j < |r| ==> NotificationId(r[j]) == NotificationId(before[j]);
  }

  /** `DELETE /notifications/:id`: the notification must exist and be
      addressed to the user; then the notification with that id is deleted. */
  function DeleteStep(notifications: seq<Notification>, id: Id, userId: Id): (r: Result<seq<Notification>>)
    ensures r.Ok? <==> exists k :: 0 <= k < |notifications| && notifications[k].id == id && notifications[k].recipient == userId
    ensures r.Err? ==> r.error == NotFound
    ensures r.Ok? ==> |r.value| == |notifications| - 1 && multiset(r.value) <= multiset(notifications)
  {
    match FindFirst(notifications, (n: Notification) => n.id == id && n.recipient == userId)
    case None => Err(NotFound)
    case Some(_) =>
      var k := Find(notifications, NotificationId, id).value;
      assert notifications == notifications[..k] + [notifications[k]] + notifications[k + 1..];
      Ok(RemoveAt(notifications, k))
  }

  /** With unique ids, a deletion removes exactly the notification with that
      id. */
  lemma DeleteRemovesExactly(notifications: seq<Notification>, id: Id, userId: Id)
    requires UniqueIds(notifications, NotificationId) && DeleteStep(notifications, id, userId).Ok?
    ensures forall n :: n in DeleteStep(notifications, id, userId).value <==> n in notifications && n.id != id
  {
    var k := Find(notifications, NotificationId, id).value;
    var r := DeleteStep(notifications, id, userId).value;
    forall n | n in notifications && n.id != id ensures n in r {
      var j :| 0 <= j < |notifications| && notifications[j] == n;
      if j < k { assert r[j] == n; } else { assert r[j - 1] == n; }
    }
    forall n | n in r ensures n in notifications && n.id != id {
      var j :| 0 <= j < |r| && r[j] == n;
      var j' := if j < k then j else j + 1;
      assert n == notifications[j'] && j' != k;
      assert NotificationId(notifications[j']) != NotificationId(notifications[k]);
    }
  }

  /** The delete handler. */
  method DeleteNotification(db: Store, id: Id, userId: Id) returns (r: Outcome)
    requires db.Valid()
    modifies db`notifications
    ensures db.Valid()
    ensures var s := DeleteStep(old(db.notifications), id, userId);
      && (s.Ok? ==> r == Done && db.notifications == s.value)
      && (s.Err? ==> r == Fail(s.error) && db.notifications == old(db.notifications))
  {
    var owned := FindFirst(db.notifications, (n: Notification) => n.id == id && n.recipient == userId);
    if owned.None? {
      return Fail(NotFound);
    }
    var k := Find(db.notifications, NotificationId, id).value;
    RemoveAtKeepsIds(db.notifications, NotificationId, k, db.nextId);
    db.notifications := RemoveAt(db.notifications, k);
    r := Done;
  }
}
