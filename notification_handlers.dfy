/** The notification handlers: a user's notifications newest first, marking one
    as read, and marking all of them as read. */
module NotificationHandlers {
  import opened Base
  import opened Models
  import opened Db
  import opened Ordering

  const NotificationNotFoundMsg := "Notifikasi tidak ditemukan"
  const NotRecipientMsg := "Anda tidak memiliki izin untuk mengakses notifikasi ini"

  /** The notifications addressed to `u`. */
  function AddressedTo(ns: map<Id, Notification>, u: Id): (r: set<Id>)
    ensures forall k :: k in r <==> k in ns && ns[k].userId == u
  {
    set k | k in ns && ns[k].userId == u
  }

  /** The notifications addressed to `u` that are still unread. */
  function UnreadOf(ns: map<Id, Notification>, u: Id): (r: set<Id>)
    ensures r <= AddressedTo(ns, u)
    ensures forall k :: k in r <==> k in ns && ns[k].userId == u && !ns[k].read
  {
    set k | k in ns && ns[k].userId == u && !ns[k].read
  }

  /** `getNotificationsHandler`: `find({ userId }).sort({ createdAt: -1 })`. */
  method GetNotifications(db: Store, u: Id) returns (r: seq<Id>)
    ensures |r| == |AddressedTo(db.notifications, u)| && Elements(r) == AddressedTo(db.notifications, u)
    ensures forall i, j :: 0 <= i < j < |r| ==>
      db.notifications[r[i]].createdAt >= db.notifications[r[j]].createdAt
  {
    var mine := Enumerate(AddressedTo(db.notifications, u));
    var key := NotificationCreatedAt(db.notifications);
    r := SortBy(mine, Negated(key));
    SortByElements(mine, Negated(key));
    NewestFirst(mine, key);
  }

  /** Notification `n` with `read` set and every other notification as it was. */
  function MarkedRead(ns: map<Id, Notification>, n: Id): (r: map<Id, Notification>)
    requires n in ns
    ensures r.Keys == ns.Keys
  {
    ns[n := ns[n].(read := true)]
  }

  /** Marking one notification takes exactly it out of its recipient's unread
      set; nobody else's unread set changes, and no recipient changes. */
  lemma MarkedReadUnread(ns: map<Id, Notification>, n: Id, u: Id)
    requires n in ns
    ensures AddressedTo(MarkedRead(ns, n), u) == AddressedTo(ns, u)
    ensures UnreadOf(MarkedRead(ns, n), u) == UnreadOf(ns, u) - {n}
    ensures forall k :: k in ns && k != n ==> MarkedRead(ns, n)[k] == ns[k]
    ensures MarkedRead(ns, n)[n].read
  {
  }

  /** Marking the same notification again changes nothing. */
  lemma MarkedReadIdempotent(ns: map<Id, Notification>, n: Id)
    requires n in ns
    ensures MarkedRead(MarkedRead(ns, n), n) == MarkedRead(ns, n)
  {
  }

  /** `markNotificationReadHandler`: only the recipient may mark it. */
  method MarkRead(db: Store, n: Id, u: Id) returns (r: Outcome<()>)
    requires db.Valid()
    modifies db
    ensures db.Valid()
    ensures n !in old(db.notifications) <==> r == Rejected(NotFound, NotificationNotFoundMsg)
    ensures n in old(db.notifications) && old(db.notifications)[n].userId != u <==>
      r == Rejected(Forbidden, NotRecipientMsg)
    ensures n in old(db.notifications) && old(db.notifications)[n].userId == u ==> r.Done?
    ensures r.Rejected? ==> unchanged(db)
    ensures r.Done? ==>
      n in old(db.notifications) && old(db.notifications)[n].userId == u &&
      db.notifications == MarkedRead(old(db.notifications), n) &&
      db.comments == old(db.comments) && db.stories == old(db.stories) &&
      db.users == old(db.users) && db.nextId == old(db.nextId)
  {
    if n !in db.notifications {
      return Rejected(NotFound, NotificationNotFoundMsg);
    }
    if db.notifications[n].userId != u {
      return Rejected(Forbidden, NotRecipientMsg);
    }
    var ns := MarkedRead(db.notifications, n);
    FitsAfter(db.comments, db.stories, db.notifications, db.users, db.nextId,
              db.comments, db.stories, ns, db.users, db.nextId);
    db.Commit(db.comments, db.stories, ns, db.users, db.nextId);
    r := Done(());
  }

  /** `updateMany({ userId: u, read: false }, { read: true })`. */
  function AllRead(ns: map<Id, Notification>, u: Id): (r: map<Id, Notification>)
    ensures r.Keys == ns.Keys
  {
    map k | k in ns :: if ns[k].userId == u && !ns[k].read then ns[k].(read := true) else ns[k]
  }

  /** After marking all, `u` has no unread notification; every notification of
      `u` differs at most in `read`, and every other user's notifications are
      exactly as they were. */
  lemma AllReadMeaning(ns: map<Id, Notification>, u: Id)
    ensures UnreadOf(AllRead(ns, u), u) == {}
    ensures AddressedTo(AllRead(ns, u), u) == AddressedTo(ns, u)
    ensures forall k :: k in ns ==> AllRead(ns, u)[k] == ns[k].(read := ns[k].read || ns[k].userId == u)
    ensures forall v :: v != u ==> UnreadOf(AllRead(ns, u), v) == UnreadOf(ns, v)
  {
  }

  /** Marking all twice is marking all once, and marking one of one's own
      notifications first makes no difference to marking all. */
  lemma AllReadAbsorbs(ns: map<Id, Notification>, u: Id, n: Id)
    requires n in ns && ns[n].userId == u
    ensures AllRead(AllRead(ns, u), u) == AllRead(ns, u)
    ensures AllRead(MarkedRead(ns, n), u) == AllRead(ns, u)
  {
  }

  /** `markAllNotificationsReadHandler`. */
  method MarkAllRead(db: Store, u: Id)
    requires db.Valid()
    modifies db
    ensures db.Valid()
    ensures db.notifications == AllRead(old(db.notifications), u)
    ensures db.comments == old(db.comments) && db.stories == old(db.stories)
    ensures db.users == old(db.users) && db.nextId == old(db.nextId)
  {
    var ns := AllRead(db.notifications, u);
    FitsAfter(db.comments, db.stories, db.notifications, db.users, db.nextId,
              db.comments, db.stories, ns, db.users, db.nextId);
    db.Commit(db.comments, db.stories, ns, db.users, db.nextId);
  }
}
