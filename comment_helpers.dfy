/** The two recursive helpers over a comment's replies: the cascade that deletes
    every reply below a comment and the count of those replies. */
module CommentHelpers {
  import opened Base
  import opened CommentTree
  import opened Models
  import opened Db

  /** `Comment.find({parentCommentId: x})`: the direct replies of `x`, each once. */
  method FindReplies(db: Store, x: Id) returns (rs: seq<Id>)
    ensures Distinct(rs) && Elements(rs) == Children(ParentsOf(db.comments), x)
    ensures forall i :: 0 <= i < |rs| ==> rs[i] in Children(ParentsOf(db.comments), x)
  {
    rs := Enumerate(Children(ParentsOf(db.comments), x));
    forall i | 0 <= i < |rs| ensures rs[i] in Children(ParentsOf(db.comments), x) {
      assert rs[i] in Elements(rs);
    }
  }

  /** A reply found below `x` has a larger id, and still one below the counter,
      so the recursion on it makes progress. */
  lemma ReplyRank(db: Store, x: Id, c: Id)
    requires db.Valid() && c in Children(ParentsOf(db.comments), x)
    ensures x < c < db.nextId
  {
  }

  /** `countAllReplies(x)`: the number of direct replies plus the count below
      each of them, which is the number of comments below `x`. It only reads
      the store. */
  method CountAllReplies(db: Store, x: Id) returns (n: nat)
    requires db.Valid()
    ensures n == |Descendants(ParentsOf(db.comments), x)|
    decreases if x < db.nextId then db.nextId - x else 0
  {
    ghost var pm := ParentsOf(db.comments);
    var rs := FindReplies(db, x);
    n := |rs|;
    var i := 0;
    while i < |rs|
      invariant 0 <= i <= |rs|
      invariant n == |rs| + SubtreeSizes(pm, rs[..i])
    {
      ReplyRank(db, x, rs[i]);
      var k := CountAllReplies(db, rs[i]);
      assert rs[..i + 1][..i] == rs[..i];
      n := n + k;
      i := i + 1;
    }
    assert rs[..|rs|] == rs;
    CountDecomposition(pm, x, rs);
  }

  /** `deleteAllReplies(x)`: first the replies below each direct reply, then the
      direct replies. Exactly the comments below `x` are gone; `x` itself, every
      other comment and every other collection are untouched. */
  method DeleteAllReplies(db: Store, x: Id)
    requires db.Valid()
    modifies db
    ensures db.Valid()
    ensures db.comments == old(db.comments) - Descendants(ParentsOf(old(db.comments)), x)
    ensures db.stories == old(db.stories) && db.notifications == old(db.notifications)
    ensures db.users == old(db.users) && db.nextId == old(db.nextId)
    decreases if x < db.nextId then db.nextId - x else 0
  {
    ghost var c0 := db.comments;
    ghost var pm := ParentsOf(c0);
    var rs := FindReplies(db, x);
    var i := 0;
    while i < |rs|
      invariant 0 <= i <= |rs|
      invariant db.Valid()
      invariant db.comments == c0 - SubtreesOf(pm, rs[..i])
      invariant db.stories == old(db.stories) && db.notifications == old(db.notifications)
      invariant db.users == old(db.users) && db.nextId == old(db.nextId)
    {
      DeleteStep(c0, x, rs, i);
      ReplyRank(db, x, rs[i]);
      DeleteAllReplies(db, rs[i]);
      i := i + 1;
    }
    assert rs[..|rs|] == rs;
    var kids := Children(ParentsOf(db.comments), x);
    DeleteLast(c0, x, rs);
    CoherentAfterRemove(db.comments, db.stories, db.nextId, kids);
    FitsAfter(db.comments, db.stories, db.notifications, db.users, db.nextId,
              db.comments - kids, db.stories, db.notifications, db.users, db.nextId);
    db.Commit(db.comments - kids, db.stories, db.notifications, db.users, db.nextId);
  }

  /** Before the cascade descends into the `i`-th reply, the subtrees of the
      earlier replies are gone; the reply is still a reply of `x`, and removing
      what lies below it leaves the store without the first `i + 1` subtrees. */
  lemma DeleteStep(c0: map<Id, Comment>, x: Id, rs: seq<Id>, i: nat)
    requires Ranked(ParentsOf(c0)) && i < |rs|
    requires forall j :: 0 <= j < |rs| ==> rs[j] in Children(ParentsOf(c0), x)
    ensures var pm := ParentsOf(c0);
      var rest := c0 - SubtreesOf(pm, rs[..i]);
      rs[i] in Children(ParentsOf(rest), x) &&
      rest - Descendants(ParentsOf(rest), rs[i]) == c0 - SubtreesOf(pm, rs[..i + 1])
  {
    var pm := ParentsOf(c0);
    var S := SubtreesOf(pm, rs[..i]);
    SubtreesOfDownClosed(pm, rs[..i]);
    RemoveDownClosed(pm, S, rs[i]);
    ParentsOfRemove(c0, S);
    ChildrenOutsideSubtrees(pm, x, rs[..i]);
    assert rs[..i + 1][..i] == rs[..i];
  }

  /** Once every subtree is gone, the direct replies are what is left below
      `x`, and removing them completes the cascade. */
  lemma DeleteLast(c0: map<Id, Comment>, x: Id, rs: seq<Id>)
    requires Ranked(ParentsOf(c0))
    requires Elements(rs) == Children(ParentsOf(c0), x)
    requires forall j :: 0 <= j < |rs| ==> rs[j] in Children(ParentsOf(c0), x)
    ensures var pm := ParentsOf(c0);
      var rest := c0 - SubtreesOf(pm, rs);
      Children(ParentsOf(rest), x) == Children(pm, x) &&
      rest - Children(pm, x) == c0 - Descendants(pm, x)
  {
    var pm := ParentsOf(c0);
    ChildrenOutsideSubtrees(pm, x, rs);
    ParentsOfRemove(c0, SubtreesOf(pm, rs));
    DeleteDecomposition(pm, x, rs);
  }

  /** Deleting the replies of `x` twice removes nothing the second time. */
  lemma DeleteAllRepliesIdempotent(comments: map<Id, Comment>, x: Id)
    requires Ranked(ParentsOf(comments))
    ensures Descendants(ParentsOf(comments - Descendants(ParentsOf(comments), x)), x) == {}
  {
    var pm := ParentsOf(comments);
    ParentsOfRemove(comments, Descendants(pm, x));
    DeleteDescendantsIdempotent(pm, x);
  }

  /** The number of comments the cascade removes is the count taken before it. */
  lemma DeletedCountMatches(comments: map<Id, Comment>, x: Id)
    requires Ranked(ParentsOf(comments))
    ensures |(comments - Descendants(ParentsOf(comments), x)).Keys|
         == |comments.Keys| - |Descendants(ParentsOf(comments), x)|
  {
    var D := Descendants(ParentsOf(comments), x);
    assert D <= comments.Keys;
    assert (comments - D).Keys == comments.Keys - D;
  }
}
