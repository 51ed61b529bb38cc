/**
 * app/routers/notification_router.py: listing the caller's notifications
 * and marking one as read.
 *
 * `state` is what the access-token middleware stored in
 * `request.state.user`: the decoded claims, or None when the token decoded
 * to nothing.
 */
module NotificationRouter {
  import opened Wrappers
  import opened Entities
  import opened Store

  /** One entry of the list reply. */
  datatype NotificationView = NotificationView(id: Id, kind: string, message: string, createdAt: string, isRead: bool)

  datatype ListReply =
    /** `{"message": "No notifications found"}` */
    | NoneFound
    /** `{"notifications": [...]}` */
    | Listed(items: seq<NotificationView>)

  function View(n: Notification): NotificationView {
    NotificationView(n.id, n.kind.Name(), n.message, n.createdAt, n.read)
  }

  /** `filter(Notification.userId == user_id).all()`, in store order. */
  function OwnedBy(log: seq<Notification>, user: Id): (r: seq<Notification>)
    ensures |r| <= |log|
    ensures forall n :: n in r <==> n in log && n.userId == user
  {
    if log == [] then []
    else if log[0].userId == user then [log[0]] + OwnedBy(log[1..], user)
    else OwnedBy(log[1..], user)
  }

  function Views(ns: seq<Notification>): (r: seq<NotificationView>)
    ensures |r| == |ns|
    ensures forall i :: 0 <= i < |ns| ==> r[i] == View(ns[i])
  {
    if ns == [] then [] else [View(ns[0])] + Views(ns[1..])
  }

  /** `list_notifications` */
  function ListNotifications(state: Option<Claims>, log: seq<Notification>): (r: Result<ListReply>)
    ensures state.None? <==> r.Err? && r.failure.Crash?
    ensures r.IsHttp(401) <==> state.Some? && state.value.userId.None?
  {
    if state.None? then Err(Crash("AttributeError: 'NoneType' object has no attribute 'get'"))
    else if state.value.userId.None? then Err(Http(401, "Unauthorized"))
    else
      var mine := OwnedBy(log, state.value.userId.value);
      if mine == [] then Ok(NoneFound) else Ok(Listed(Views(mine)))
  }

  /**
   * An authenticated caller gets "No notifications found" exactly when no
   * notification is theirs; otherwise one entry per notification of theirs,
   * each its id, type, message, creation time and read flag, and nothing
   * that belongs to another user.
   */
  lemma ListNotificationsSpec(user: Id, email: Option<string>, log: seq<Notification>)
    ensures var r := ListNotifications(Some(Claims(Some(user), email)), log);
      && r.Ok?
      && (r.value.NoneFound? <==> forall n :: n in log ==> n.userId != user)
      && (r.value.Listed? ==>
            && (forall v :: v in r.value.items ==> exists n :: n in log && n.userId == user && v == View(n))
            && (forall n :: n in log && n.userId == user ==> View(n) in r.value.items)
            && |r.value.items| == |OwnedBy(log, user)|
            && forall i :: 0 <= i < |r.value.items| ==> r.value.items[i] == View(OwnedBy(log, user)[i]))
  {
    var mine := OwnedBy(log, user);
    var r := ListNotifications(Some(Claims(Some(user), email)), log);
    if mine == [] {
      assert forall n :: n in log && n.userId == user ==> n in mine;
    } else {
      assert mine[0] in log;
      var items := Views(mine);
      forall v | v in items
        ensures exists n :: n in log && n.userId == user && v == View(n)
      {
        var i :| 0 <= i < |items| && items[i] == v;
        assert mine[i] in mine;
      }
      forall n | n in log && n.userId == user
        ensures View(n) in items
      {
        assert n in mine;
        var i :| 0 <= i < |mine| && mine[i] == n;
        assert items[i] == View(n);
      }
    }
  }

  /** The caller's notifications, each as often as it is logged, and nobody else's. */
  lemma {:induction false} OwnedByCounts(log: seq<Notification>, user: Id)
    ensures forall n :: multiset(OwnedBy(log, user))[n] == if n.userId == user then multiset(log)[n] else 0
  {
    if log != [] {
      OwnedByCounts(log[1..], user);
      assert log == [log[0]] + log[1..];
      assert multiset(log) == multiset{log[0]} + multiset(log[1..]);
      if log[0].userId == user {
        assert multiset(OwnedBy(log, user)) == multiset{log[0]} + multiset(OwnedBy(log[1..], user));
      }
    }
  }

  /** The caller's notifications keep the log's order: one appended later is listed after the rest. */
  lemma {:induction false} OwnedByAppend(log: seq<Notification>, n: Notification, user: Id)
    ensures OwnedBy(log + [n], user) == OwnedBy(log, user) + (if n.userId == user then [n] else [])
  {
    var extended := log + [n];
    if log != [] {
      assert extended[0] == log[0];
      assert extended[1..] == log[1..] + [n];
      OwnedByAppend(log[1..], n, user);
    } else {
      assert extended[1..] == [];
    }
  }

  /**
   * After one more notification is logged for the caller, the listing is
   * the previous one (if any) followed by its entry: oldest first.
   */
  lemma ListAfterAppend(user: Id, email: Option<string>, log: seq<Notification>, n: Notification)
    requires n.userId == user
    ensures var before := ListNotifications(Some(Claims(Some(user), email)), log);
      var after := ListNotifications(Some(Claims(Some(user), email)), log + [n]);
      after == Ok(Listed((if before.Ok? && before.value.Listed? then before.value.items else []) + [View(n)]))
  {
    OwnedByAppend(log, n, user);
    ViewsAppend(OwnedBy(log, user), n);
  }

  lemma ViewsAppend(ns: seq<Notification>, n: Notification)
    ensures Views(ns + [n]) == Views(ns) + [View(n)]
  {
    assert Views(ns + [n])[..|ns|] == Views(ns);
  }

  /** `query(Notification).filter(Notification.id == notification_id).first()` */
  function FindNotification(log: seq<Notification>, id: Id): (r: Option<nat>)
    ensures r.Some? ==> r.value < |log| && log[r.value].id == id
    ensures r.Some? ==> forall i :: 0 <= i < r.value ==> log[i].id != id
    ensures r.None? <==> forall i :: 0 <= i < |log| ==> log[i].id != id
  {
    FirstIndex(log, (n: Notification) => n.id == id)
  }

  /** The log after the first notification with this id has been marked read. */
  function MarkedRead(log: seq<Notification>, id: Id): (r: seq<Notification>)
    ensures |r| == |log|
  {
    match FindNotification(log, id)
    case None => log
    case Some(k) => log[k := log[k].(read := true)]
  }

  /**
   * Marking sets the flag of the first notification with that id and
   * changes nothing else, neither its other fields nor any other entry; an
   * unknown id changes nothing.
   */
  lemma MarkedReadEffect(log: seq<Notification>, id: Id)
    ensures var r := MarkedRead(log, id);
      && (FindNotification(log, id).None? ==> r == log)
      && (FindNotification(log, id).Some? ==>
            var k := FindNotification(log, id).value;
            r[k].read && r[k] == log[k].(read := true)
            && forall i :: 0 <= i < |log| && i != k ==> r[i] == log[i])
  {
  }

  /** Marking twice is marking once. */
  lemma MarkedReadIdempotent(log: seq<Notification>, id: Id)
    ensures MarkedRead(MarkedRead(log, id), id) == MarkedRead(log, id)
  {
    var once := MarkedRead(log, id);
    match FindNotification(log, id)
    case None =>
    case Some(k) =>
      assert once[k].id == id;
      assert forall i :: 0 <= i < k ==> once[i].id != id;
      assert FindNotification(once, id) == Some(k);
  }

  /** `mark_notification_as_read` */
  method MarkNotificationAsRead(db: Db, id: Id) returns (r: Result<string>)
    modifies db`notifications
    ensures FindNotification(old(db.notifications), id).None? ==>
      r == Err(Http(404, "Notification not found")) && db.notifications == old(db.notifications)
    ensures FindNotification(old(db.notifications), id).Some? ==> r == Ok("Notification marked as read")
    ensures db.notifications == MarkedRead(old(db.notifications), id)
  {
    var found := FindNotification(db.notifications, id);
    if found.None? {
      return Err(Http(404, "Notification not found"));
    }
    var k := found.value;
    db.notifications := db.notifications[k := db.notifications[k].(read := true)];
    r := Ok("Notification marked as read");
  }
}
