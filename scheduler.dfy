/** The daily reminder run: every user who has not filled in today's mind
    tracker gets one reminder notification. Whether a user has submitted today
    is given as the set `submitted`; the time of day is given as `now`. */
module Scheduler {
  import opened Base
  import opened Models
  import opened Db

  const ReminderSender := "MindBlown"
  const ReminderText := "Hai, Kamu belum mengisi Daily Mind Tracker-mu"

  /** The reminder a user gets: from themselves, signed by the app. */
  function Reminder(u: Id, now: int): (n: Notification)
    ensures n.userId == u && n.fromUserId == u && n.fromUsername == ReminderSender
    ensures n.kind == ReminderNotice && n.message == Some(ReminderText)
    ensures n.storyId.None? && n.commentId.None? && !n.read && n.createdAt == now
  {
    NewNotification(u, u, ReminderSender, ReminderNotice, now).(message := Some(ReminderText))
  }

  /** The users of `order` who have not submitted, in visiting order. */
  function Pending(order: seq<Id>, submitted: set<Id>): (p: seq<Id>)
    ensures |p| <= |order|
  {
    if order == [] then []
    else
      var last := order[|order| - 1];
      Pending(order[..|order| - 1], submitted) + (if last in submitted then [] else [last])
  }

  /** A user is pending exactly when visited and not submitted, and a visit
      order without repeats gives a pending list without repeats. */
  lemma {:induction false} PendingMeaning(order: seq<Id>, submitted: set<Id>)
    ensures forall u :: u in Pending(order, submitted) <==> u in order && u !in submitted
    ensures Distinct(order) ==> Distinct(Pending(order, submitted))
  {
    if order != [] {
      var front := order[..|order| - 1];
      var last := order[|order| - 1];
      PendingMeaning(front, submitted);
      assert order == front + [last];
      var p := Pending(front, submitted);
      if Distinct(order) && last !in submitted {
        assert Distinct(front) by {
          forall i, j | 0 <= i < j < |front| ensures front[i] != front[j] {
            assert front[i] == order[i] && front[j] == order[j];
          }
        }
        assert last !in front by {
          forall i | 0 <= i < |front| ensures front[i] != last {
            assert front[i] == order[i];
          }
        }
        forall i, j | 0 <= i < j < |p + [last]| ensures (p + [last])[i] != (p + [last])[j] {
          if j == |p| {
            assert (p + [last])[i] == p[i] && p[i] in p;
          } else {
            assert (p + [last])[i] == p[i] && (p + [last])[j] == p[j];
          }
        }
      } else if Distinct(order) {
        assert Distinct(front) by {
          forall i, j | 0 <= i < j < |front| ensures front[i] != front[j] {
            assert front[i] == order[i] && front[j] == order[j];
          }
        }
      }
    }
  }

  /** The reminders for the pending list `p`, saved under the ids `first`,
      `first + 1`, ... in turn. */
  function ReminderMap(p: seq<Id>, first: nat, now: int): map<Id, Notification> {
    if p == [] then map[]
    else ReminderMap(p[..|p| - 1], first, now)[first + |p| - 1 := Reminder(p[|p| - 1], now)]
  }

  /** The reminder saved under `first + i` is the one for the `i`-th pending
      user, and no other id is used. */
  lemma {:induction false} ReminderMapMeaning(p: seq<Id>, first: nat, now: int)
    ensures forall k :: k in ReminderMap(p, first, now) <==> first <= k < first + |p|
    ensures forall k :: k in ReminderMap(p, first, now) ==> ReminderMap(p, first, now)[k] == Reminder(p[k - first], now)
  {
    if p != [] {
      var front := p[..|p| - 1];
      ReminderMapMeaning(front, first, now);
    }
  }

  /** The notifications `n0` with the reminders for `p` saved after them, one
      at a time, under the ids `first`, `first + 1`, ... */
  function WithReminders(n0: map<Id, Notification>, p: seq<Id>, first: nat, now: int): map<Id, Notification> {
    if p == [] then n0
    else WithReminders(n0, p[..|p| - 1], first, now)[first + |p| - 1 := Reminder(p[|p| - 1], now)]
  }

  lemma WithRemindersSnoc(n0: map<Id, Notification>, p: seq<Id>, u: Id, first: nat, now: int)
    ensures WithReminders(n0, p + [u], first, now) ==
            WithReminders(n0, p, first, now)[first + |p| := Reminder(u, now)]
  {
    assert (p + [u])[..|p|] == p;
  }

  lemma PendingSnoc(order: seq<Id>, i: nat, submitted: set<Id>)
    requires i < |order|
    ensures Pending(order[..i + 1], submitted) ==
            Pending(order[..i], submitted) + (if order[i] in submitted then [] else [order[i]])
  {
    assert order[..i + 1][..i] == order[..i];
  }

  lemma UnionUpdate(a: map<Id, Notification>, b: map<Id, Notification>, k: Id, v: Notification)
    ensures (a + b)[k := v] == a + b[k := v]
  {
  }

  /** Saving the reminders one at a time after the existing notifications
      adds exactly the reminder map and keeps every existing notification. */
  lemma {:induction false} WithRemindersUnion(n0: map<Id, Notification>, p: seq<Id>, first: nat, now: int)
    ensures WithReminders(n0, p, first, now) == n0 + ReminderMap(p, first, now)
  {
    if p != [] {
      WithRemindersUnion(n0, p[..|p| - 1], first, now);
      UnionUpdate(n0, ReminderMap(p[..|p| - 1], first, now), first + |p| - 1, Reminder(p[|p| - 1], now));
    }
  }

  /** A user has a reminder in the map exactly when pending. */
  lemma ReminderFor(p: seq<Id>, first: nat, now: int, u: Id)
    ensures (exists k :: k in ReminderMap(p, first, now) && ReminderMap(p, first, now)[k].userId == u) ==> u in p
    ensures u in p ==> (exists k :: k in ReminderMap(p, first, now) && ReminderMap(p, first, now)[k].userId == u)
  {
    ReminderMapMeaning(p, first, now);
    var m := ReminderMap(p, first, now);
    if u in p {
      var i :| 0 <= i < |p| && p[i] == u;
      var k: Id := first + i;
      assert k in m && m[k].userId == u;
    }
    if k :| k in m && m[k].userId == u {
      var i := k - first;
      assert 0 <= i < |p|;
      assert m[k] == Reminder(p[i], now);
      assert p[i] == u;
      assert u in p;
    }
  }

  /** A pending list without repeats gives every user at most one reminder. */
  lemma ReminderUnique(p: seq<Id>, first: nat, now: int, k1: Id, k2: Id)
    requires Distinct(p)
    requires k1 in ReminderMap(p, first, now) && k2 in ReminderMap(p, first, now)
    requires ReminderMap(p, first, now)[k1].userId == ReminderMap(p, first, now)[k2].userId
    ensures k1 == k2
  {
    ReminderMapMeaning(p, first, now);
    var m := ReminderMap(p, first, now);
    assert p[k1 - first] == m[k1].userId && p[k2 - first] == m[k2].userId;
  }

  /** Each user who has not submitted has exactly one reminder after a run
      over the visiting order, and every other user none. */
  lemma ExactlyOneReminder(order: seq<Id>, submitted: set<Id>, first: nat, now: int, u: Id, k1: Id, k2: Id)
    requires Distinct(order)
    ensures (exists k :: k in ReminderMap(Pending(order, submitted), first, now) &&
                         ReminderMap(Pending(order, submitted), first, now)[k].userId == u) ==>
            u in order && u !in submitted
    ensures u in order && u !in submitted ==>
            exists k :: k in ReminderMap(Pending(order, submitted), first, now) &&
                        ReminderMap(Pending(order, submitted), first, now)[k].userId == u
    ensures (k1 in ReminderMap(Pending(order, submitted), first, now) &&
             k2 in ReminderMap(Pending(order, submitted), first, now) &&
             ReminderMap(Pending(order, submitted), first, now)[k1].userId ==
               ReminderMap(Pending(order, submitted), first, now)[k2].userId) ==> k1 == k2
  {
    PendingMeaning(order, submitted);
    var p := Pending(order, submitted);
    ReminderFor(p, first, now, u);
    var m := ReminderMap(p, first, now);
    if k1 in m && k2 in m && m[k1].userId == m[k2].userId {
      ReminderUnique(p, first, now, k1, k2);
    }
  }

  /** Saving one reminder under the next free id. */
  method SaveReminder(db: Store, u: Id, now: int)
    requires db.Valid()
    modifies db
    ensures db.Valid()
    ensures db.notifications == old(db.notifications)[old(db.nextId) := Reminder(u, now)]
    ensures db.nextId == old(db.nextId) + 1
    ensures db.comments == old(db.comments) && db.stories == old(db.stories) && db.users == old(db.users)
  {
    var k := db.nextId;
    var ns := db.notifications[k := Reminder(u, now)];
    CoherentGrow(db.comments, db.stories, k, k + 1);
    FitsAfter(db.comments, db.stories, db.notifications, db.users, k,
              db.comments, db.stories, ns, db.users, k + 1);
    db.Commit(db.comments, db.stories, ns, db.users, k + 1);
  }

  /** One turn of the loop: a reminder for `u` unless `u` has submitted.
      `p` is the pending list of the users visited before. */
  method Visit(db: Store, u: Id, submitted: set<Id>, now: int,
               ghost n0: map<Id, Notification>, ghost p: seq<Id>, ghost b0: nat)
    requires db.Valid()
    requires db.notifications == WithReminders(n0, p, b0, now) && db.nextId == b0 + |p|
    modifies db
    ensures db.Valid()
    ensures var q := p + (if u in submitted then [] else [u]);
      db.notifications == WithReminders(n0, q, b0, now) && db.nextId == b0 + |q|
    ensures db.comments == old(db.comments) && db.stories == old(db.stories) && db.users == old(db.users)
  {
    if u !in submitted {
      SaveReminder(db, u, now);
      WithRemindersSnoc(n0, p, u, b0, now);
    } else {
      assert p + [] == p;
    }
  }

  /** `sendMindTrackerReminders`: the users are visited once each, in the
      order the store returns them, and every one who has not submitted gets
      a reminder under the next free id. The answer is the visiting order. */
  method SendReminders(db: Store, submitted: set<Id>, now: int) returns (order: seq<Id>)
    requires db.Valid()
    modifies db
    ensures db.Valid()
    ensures Distinct(order) && Elements(order) == db.users.Keys && |order| == |db.users|
    ensures db.notifications ==
      old(db.notifications) + ReminderMap(Pending(order, submitted), old(db.nextId), now)
    ensures db.nextId == old(db.nextId) + |Pending(order, submitted)|
    ensures db.comments == old(db.comments) && db.stories == old(db.stories) && db.users == old(db.users)
  {
    order := Enumerate(db.users.Keys);
    ghost var n0, b0 := db.notifications, db.nextId;
    ghost var p: seq<Id> := [];
    var i := 0;
    while i < |order|
      invariant 0 <= i <= |order|
      invariant db.Valid()
      invariant db.comments == old(db.comments) && db.stories == old(db.stories) && db.users == old(db.users)
      invariant p == Pending(order[..i], submitted)
      invariant db.notifications == WithReminders(n0, p, b0, now) && db.nextId == b0 + |p|
    {
      PendingSnoc(order, i, submitted);
      Visit(db, order[i], submitted, now, n0, p, b0);
      p := p + (if order[i] in submitted then [] else [order[i]]);
      i := i + 1;
    }
    assert order[..i] == order;
    WithRemindersUnion(n0, p, b0, now);
  }
}
