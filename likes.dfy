/** The two like toggles: the id ledger of stories (and of comments in the older
    handlers), and the sanitised record ledger of comments. */
module Likes {
  import opened Base
  import opened Models

  // ----- the id ledger -----

  /** `likes.indexOf(u)`: the position of the first bare id `u`, or -1. */
  function IndexOf(likes: seq<LikeEntry>, u: Id): (i: int)
    ensures -1 <= i < |likes|
    ensures i == -1 <==> LikedBy(u) !in likes
    ensures i >= 0 ==> likes[i] == LikedBy(u) && LikedBy(u) !in likes[..i]
  {
    if likes == [] then -1
    else if likes[0] == LikedBy(u) then 0
    else
      var j := IndexOf(likes[1..], u);
      assert j >= 0 ==> likes[..j + 1] == [likes[0]] + likes[1..][..j];
      if j == -1 then -1 else j + 1
  }

  /** `s.splice(i, 1)`: the entries before `i` stay put, the ones after it
      move down by one. */
  function RemoveAt(s: seq<LikeEntry>, i: nat): (r: seq<LikeEntry>)
    requires i < |s|
    ensures |r| == |s| - 1
    ensures forall j :: 0 <= j < |r| ==> r[j] == if j < i then s[j] else s[j + 1]
    ensures multiset(r) == multiset(s) - multiset{s[i]}
  {
    assert s == s[..i] + [s[i]] + s[i + 1..];
    s[..i] + s[i + 1..]
  }

  /** The outcome of an id-ledger toggle: the new list and whether `u` now likes it. */
  datatype IdToggle = IdToggle(likes: seq<LikeEntry>, liked: bool)

  /** Push `u` when it is absent, otherwise splice out its first occurrence.
      The other entries keep their order and their multiplicity. */
  function ToggleId(likes: seq<LikeEntry>, u: Id): (t: IdToggle)
    ensures t.liked <==> LikedBy(u) !in likes
    ensures t.liked ==> t.likes == likes + [LikedBy(u)]
    ensures !t.liked ==> t.likes == RemoveAt(likes, IndexOf(likes, u))
    ensures |t.likes| == if t.liked then |likes| + 1 else |likes| - 1
    ensures multiset(t.likes)[LikedBy(u)] ==
      if t.liked then 1 else multiset(likes)[LikedBy(u)] - 1
    ensures forall e :: e != LikedBy(u) ==> multiset(t.likes)[e] == multiset(likes)[e]
  {
    var i := IndexOf(likes, u);
    if i == -1 then IdToggle(likes + [LikedBy(u)], true)
    else IdToggle(RemoveAt(likes, i), false)
  }

  /** A user who likes at most once still likes at most once after a toggle. */
  lemma ToggleIdKeepsSingle(likes: seq<LikeEntry>, u: Id, v: Id)
    requires multiset(likes)[LikedBy(v)] <= 1
    ensures multiset(ToggleId(likes, u).likes)[LikedBy(v)] <= 1
  {
  }

  /** Toggling twice restores the ledger: exactly when the user was absent, and
      up to order when the user was present once. */
  lemma {:induction false} ToggleIdTwice(likes: seq<LikeEntry>, u: Id)
    requires multiset(likes)[LikedBy(u)] <= 1
    ensures multiset(ToggleId(ToggleId(likes, u).likes, u).likes) == multiset(likes)
    ensures LikedBy(u) !in likes ==> ToggleId(ToggleId(likes, u).likes, u).likes == likes
    ensures ToggleId(ToggleId(likes, u).likes, u).liked != ToggleId(likes, u).liked
  {
    var once := ToggleId(likes, u);
    if once.liked {
      var i := IndexOf(once.likes, u);
      assert once.likes[|likes|] == LikedBy(u);
      assert i == |likes|;
      assert once.likes[..i] == likes;
    } else {
      assert LikedBy(u) !in once.likes;
      assert multiset(once.likes + [LikedBy(u)]) == multiset(once.likes) + multiset{LikedBy(u)};
    }
  }

  // ----- the record ledger -----

  /** `like && like.userId`: an entry that names a user. A bare id has no
      `userId` field, so it does not. */
  predicate Named(e: LikeEntry) {
    e.LikeRecord? && e.userId.Some?
  }

  /** `like.userId && like.userId.toString() === u`. */
  predicate ByUser(e: LikeEntry, u: Id) {
    e.LikeRecord? && e.userId == Some(u)
  }

  /** `likes.filter(like => like && like.userId)`. */
  function Sanitize(likes: seq<LikeEntry>): (r: seq<LikeEntry>)
    ensures |r| <= |likes|
    ensures forall e :: e in r <==> e in likes && Named(e)
  {
    if likes == [] then []
    else (if Named(likes[0]) then [likes[0]] else []) + Sanitize(likes[1..])
  }

  lemma {:induction false} SanitizeIdempotent(likes: seq<LikeEntry>)
    requires forall e :: e in likes ==> Named(e)
    ensures Sanitize(likes) == likes
  {
    if likes != [] {
      assert likes[0] in likes;
      assert forall e :: e in likes[1..] ==> e in likes;
      SanitizeIdempotent(likes[1..]);
      assert likes == [likes[0]] + likes[1..];
    }
  }

  /** The user ids named by a ledger, with multiplicity. */
  function LikerIds(likes: seq<LikeEntry>): multiset<Id> {
    if likes == [] then multiset{}
    else (if Named(likes[0]) then multiset{likes[0].userId.value} else multiset{}) + LikerIds(likes[1..])
  }

  lemma {:induction false} LikerIdsConcat(a: seq<LikeEntry>, b: seq<LikeEntry>)
    ensures LikerIds(a + b) == LikerIds(a) + LikerIds(b)
  {
    if a != [] {
      assert (a + b)[0] == a[0];
      assert (a + b)[1..] == a[1..] + b;
      LikerIdsConcat(a[1..], b);
      assert LikerIds(a + b) ==
        (if Named(a[0]) then multiset{a[0].userId.value} else multiset{}) + LikerIds(a[1..] + b);
    } else {
      assert a + b == b;
    }
  }

  /** Sanitising keeps every named user. */
  lemma {:induction false} LikerIdsSanitize(likes: seq<LikeEntry>)
    ensures LikerIds(Sanitize(likes)) == LikerIds(likes)
  {
    if likes != [] {
      var head := if Named(likes[0]) then [likes[0]] else [];
      LikerIdsSanitize(likes[1..]);
      LikerIdsConcat(head, Sanitize(likes[1..]));
      if Named(likes[0]) {
        assert LikerIds(head) == multiset{likes[0].userId.value} + LikerIds(head[1..]);
      }
    }
  }

  /** `u` is named by no entry exactly when it has multiplicity zero. */
  lemma {:induction false} LikerIdsAbsent(likes: seq<LikeEntry>, u: Id)
    ensures LikerIds(likes)[u] == 0 <==> forall i :: 0 <= i < |likes| ==> !ByUser(likes[i], u)
  {
    if likes != [] {
      LikerIdsAbsent(likes[1..], u);
      assert forall i :: 0 < i < |likes| ==> likes[i] == likes[1..][i - 1];
    }
  }

  /** Removing one entry removes its user, if any, once. */
  lemma LikerIdsRemoveAt(s: seq<LikeEntry>, i: nat)
    requires i < |s|
    ensures LikerIds(RemoveAt(s, i)) + LikerIds([s[i]]) == LikerIds(s)
  {
    RemoveAtSplits(s, i);
    LikerIdsSplit(s[..i], s[i], s[i + 1..]);
  }

  lemma RemoveAtSplits(s: seq<LikeEntry>, i: nat)
    requires i < |s|
    ensures RemoveAt(s, i) == s[..i] + s[i + 1..]
    ensures s == s[..i] + ([s[i]] + s[i + 1..])
  {
  }

  lemma LikerIdsSplit(a: seq<LikeEntry>, e: LikeEntry, b: seq<LikeEntry>)
    ensures LikerIds(a + b) + LikerIds([e]) == LikerIds(a + ([e] + b))
  {
    LikerIdsConcat(a, [e] + b);
    LikerIdsConcat([e], b);
    LikerIdsConcat(a, b);
  }

  lemma LikerIdsOne(e: LikeEntry)
    ensures LikerIds([e]) == if Named(e) then multiset{e.userId.value} else multiset{}
  {
    assert [e][1..] == [];
  }

  /** `likes.findIndex(like => like.userId && like.userId.toString() === u)`. */
  function FindByUser(likes: seq<LikeEntry>, u: Id): (i: int)
    ensures -1 <= i < |likes|
    ensures i == -1 <==> forall j :: 0 <= j < |likes| ==> !ByUser(likes[j], u)
    ensures i >= 0 ==> ByUser(likes[i], u) && forall j :: 0 <= j < i ==> !ByUser(likes[j], u)
  {
    if likes == [] then -1
    else if ByUser(likes[0], u) then 0
    else
      var j := FindByUser(likes[1..], u);
      assert forall k :: 0 < k < |likes| ==> likes[k] == likes[1..][k - 1];
      if j == -1 then -1 else j + 1
  }

  /** `likes.some(like => like.userId && like.userId.toString() === u)`: the
      `userLiked` flag reported next to a record ledger. */
  predicate RecordsLiked(likes: seq<LikeEntry>, u: Id)
    ensures RecordsLiked(likes, u) <==> FindByUser(likes, u) != -1
  {
    exists i :: 0 <= i < |likes| && ByUser(likes[i], u)
  }

  /** A record of `u` survives sanitising, so both ledgers agree on `userLiked`. */
  lemma RecordsLikedSanitize(likes: seq<LikeEntry>, u: Id)
    ensures RecordsLiked(Sanitize(likes), u) <==> RecordsLiked(likes, u)
  {
    if RecordsLiked(likes, u) {
      var j :| 0 <= j < |likes| && ByUser(likes[j], u);
      assert likes[j] in Sanitize(likes);
    }
    if RecordsLiked(Sanitize(likes), u) {
      var j :| 0 <= j < |Sanitize(likes)| && ByUser(Sanitize(likes)[j], u);
      assert Sanitize(likes)[j] in likes;
    }
  }

  /** The record ledger toggle of the comment like handler: drop unnamed entries,
      then append a record for `u` when it has none, else remove its first record. */
  function ToggleRecord(likes: seq<LikeEntry>, u: Id, now: int): (t: IdToggle)
    ensures t.liked <==> !RecordsLiked(likes, u)
    ensures t.liked ==> t.likes == Sanitize(likes) + [LikeRecord(Some(u), now)]
    ensures !t.liked ==>
      var clean := Sanitize(likes);
      var i := FindByUser(clean, u);
      0 <= i && t.likes == RemoveAt(clean, i)
    ensures |t.likes| == if t.liked then |Sanitize(likes)| + 1 else |Sanitize(likes)| - 1
    ensures forall e :: e in t.likes ==> Named(e)
  {
    var clean := Sanitize(likes);
    RecordsLikedSanitize(likes, u);
    var i := FindByUser(clean, u);
    if i == -1 then
      AppendKeepsNamed(clean, LikeRecord(Some(u), now));
      IdToggle(clean + [LikeRecord(Some(u), now)], true)
    else
      RemoveAtKeepsNamed(clean, i);
      IdToggle(RemoveAt(clean, i), false)
  }

  lemma AppendKeepsNamed(s: seq<LikeEntry>, e: LikeEntry)
    requires Named(e) && forall d :: d in s ==> Named(d)
    ensures forall d :: d in s + [e] ==> Named(d)
  {
  }

  lemma RemoveAtKeepsNamed(s: seq<LikeEntry>, i: nat)
    requires i < |s| && forall d :: d in s ==> Named(d)
    ensures forall d :: d in RemoveAt(s, i) ==> Named(d)
  {
    forall d | d in RemoveAt(s, i) ensures Named(d) {
      assert d in multiset(RemoveAt(s, i));
    }
  }

  /** Only `u`'s records change: a like adds the single record of `u`, an unlike
      removes one, and every other user keeps its multiplicity. */
  lemma {:induction false} ToggleRecordLikers(likes: seq<LikeEntry>, u: Id, now: int)
    ensures var t := ToggleRecord(likes, u, now);
      (t.liked ==> LikerIds(t.likes) == LikerIds(likes) + multiset{u}) &&
      (!t.liked ==> LikerIds(t.likes) + multiset{u} == LikerIds(likes))
  {
    var clean := Sanitize(likes);
    var i := FindByUser(clean, u);
    LikerIdsSanitize(likes);
    if i == -1 {
      var e := LikeRecord(Some(u), now);
      LikerIdsConcat(clean, [e]);
      LikerIdsOne(e);
    } else {
      LikerIdsRemoveAt(clean, i);
      LikerIdsOne(clean[i]);
    }
  }

  lemma TwiceArithmetic(l0: multiset<Id>, l1: multiset<Id>, l2: multiset<Id>, u: Id, liked1: bool, liked2: bool)
    requires l0[u] <= 1
    requires liked1 ==> l1 == l0 + multiset{u}
    requires !liked1 ==> l1 + multiset{u} == l0
    requires liked2 ==> l2 == l1 + multiset{u}
    requires !liked2 ==> l2 + multiset{u} == l1
    requires liked2 <==> l1[u] == 0
    ensures l2 == l0
  {
    if liked1 {
      assert l1[u] == l0[u] + 1;
      assert forall x :: l2[x] == l0[x] by {
        assert forall x :: l2[x] + multiset{u}[x] == l1[x];
      }
    } else {
      assert l1[u] + 1 == l0[u];
      assert forall x :: l2[x] == l0[x] by {
        assert forall x :: l2[x] == l1[x] + multiset{u}[x];
      }
    }
  }

  /** Two toggles restore the users of the sanitised ledger. */
  lemma ToggleRecordTwice(likes: seq<LikeEntry>, u: Id, t1: int, t2: int)
    requires LikerIds(likes)[u] <= 1
    ensures LikerIds(ToggleRecord(ToggleRecord(likes, u, t1).likes, u, t2).likes) == LikerIds(Sanitize(likes))
  {
    var once := ToggleRecord(likes, u, t1);
    var twice := ToggleRecord(once.likes, u, t2);
    ToggleRecordLikers(likes, u, t1);
    ToggleRecordLikers(once.likes, u, t2);
    LikerIdsSanitize(likes);
    LikerIdsAbsent(once.likes, u);
    assert twice.liked <==> LikerIds(once.likes)[u] == 0;
    TwiceArithmetic(LikerIds(likes), LikerIds(once.likes), LikerIds(twice.likes), u, once.liked, twice.liked);
  }
}
