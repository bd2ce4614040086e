/** The parent-link structure of comments, seen only through each comment's
    `parentCommentId`. Every recursive helper and the breadth-first tree
    assembly are specified against the notions defined here. */
module CommentTree {
  import opened Base

  /** Comment id to its `parentCommentId` (None for a top-level comment). */
  type ParentMap = map<Id, Option<Id>>

  /** A reply is only created under a parent that already exists, so every
      parent id is smaller than its child's id. */
  ghost predicate Ranked(pm: ParentMap) {
    forall k :: k in pm && pm[k].Some? ==> pm[k].value < k
  }

  /** The direct replies of `a`: `find({parentCommentId: a})`. */
  function Children(pm: ParentMap, a: Id): set<Id> {
    set d | d in pm && pm[d] == Some(a)
  }

  /** `a` lies strictly above `d` on the chain of parent links. */
  ghost predicate IsAncestor(pm: ParentMap, a: Id, d: Id)
    requires Ranked(pm)
    decreases d
  {
    d in pm && pm[d].Some? &&
    (pm[d].value == a || IsAncestor(pm, a, pm[d].value))
  }

  /** The strict descendants of `a` that are in the store. */
  ghost function Descendants(pm: ParentMap, a: Id): set<Id>
    requires Ranked(pm)
  {
    set d | d in pm && IsAncestor(pm, a, d)
  }

  /** Every comment whose parent is in `S` is itself in `S`. */
  ghost predicate DownClosed(pm: ParentMap, S: set<Id>) {
    forall d :: d in pm && pm[d].Some? && pm[d].value in S ==> d in S
  }

  lemma {:induction false} AncestorIsSmaller(pm: ParentMap, a: Id, d: Id)
    requires Ranked(pm) && IsAncestor(pm, a, d)
    ensures a < d
    decreases d
  {
    if pm[d].value != a {
      AncestorIsSmaller(pm, a, pm[d].value);
    }
  }

  lemma {:induction false} AncestorTransitive(pm: ParentMap, a: Id, b: Id, d: Id)
    requires Ranked(pm) && IsAncestor(pm, a, b) && IsAncestor(pm, b, d)
    ensures IsAncestor(pm, a, d)
    decreases d
  {
    if pm[d].value != b {
      AncestorTransitive(pm, a, b, pm[d].value);
    }
  }

  /** Two ancestors of one comment are on the same chain. */
  lemma {:induction false} AncestorsAreLinear(pm: ParentMap, a: Id, b: Id, d: Id)
    requires Ranked(pm) && IsAncestor(pm, a, d) && IsAncestor(pm, b, d)
    ensures a == b || IsAncestor(pm, a, b) || IsAncestor(pm, b, a)
    decreases d
  {
    var p := pm[d].value;
    if p != a && p != b {
      AncestorsAreLinear(pm, a, b, p);
    }
  }

  /** No comment is its own descendant, and every descendant has a larger id. */
  lemma DescendantsAreLarger(pm: ParentMap, a: Id)
    requires Ranked(pm)
    ensures forall d :: d in Descendants(pm, a) ==> a < d
    ensures a !in Descendants(pm, a)
  {
    forall d | d in Descendants(pm, a) ensures a < d {
      AncestorIsSmaller(pm, a, d);
    }
  }

  /** A comment's descendants are its direct replies and the descendants of those. */
  lemma {:induction false} DescendantStep(pm: ParentMap, a: Id, d: Id)
    requires Ranked(pm)
    ensures d in Descendants(pm, a) <==>
      d in Children(pm, a) || exists c :: c in Children(pm, a) && d in Descendants(pm, c)
    decreases d
  {
    if d in Descendants(pm, a) {
      var p := pm[d].value;
      if p != a {
        assert IsAncestor(pm, a, d);
        assert IsAncestor(pm, a, p);
        assert p in Descendants(pm, a);
        DescendantStep(pm, a, p);
        if p in Children(pm, a) {
          assert d in Descendants(pm, p);
        } else {
          var c :| c in Children(pm, a) && p in Descendants(pm, c);
          assert d in Descendants(pm, c);
        }
      }
    }
    if exists c :: c in Children(pm, a) && d in Descendants(pm, c) {
      var c :| c in Children(pm, a) && d in Descendants(pm, c);
      assert IsAncestor(pm, a, c);
      AncestorTransitive(pm, a, c, d);
    }
  }

  /** `countAllReplies` stops at a leaf: no replies means no descendants. */
  lemma LeafHasNoDescendants(pm: ParentMap, a: Id)
    requires Ranked(pm) && Children(pm, a) == {}
    ensures Descendants(pm, a) == {}
  {
    forall d | d in Descendants(pm, a) ensures false {
      DescendantStep(pm, a, d);
    }
  }

  /** The subtrees below two different replies of one comment do not meet. */
  lemma SiblingSubtreesDisjoint(pm: ParentMap, a: Id, c1: Id, c2: Id)
    requires Ranked(pm) && c1 in Children(pm, a) && c2 in Children(pm, a) && c1 != c2
    ensures Descendants(pm, c1) !! Descendants(pm, c2)
    ensures c1 !in Descendants(pm, c2)
  {
    if c1 in Descendants(pm, c2) {
      NotAncestorOfSibling(pm, a, c2, c1);
    }
    forall d | d in Descendants(pm, c1) && d in Descendants(pm, c2) ensures false {
      AncestorsAreLinear(pm, c1, c2, d);
      NotAncestorOfSibling(pm, a, c1, c2);
      NotAncestorOfSibling(pm, a, c2, c1);
    }
  }

  lemma NotAncestorOfSibling(pm: ParentMap, a: Id, x: Id, y: Id)
    requires Ranked(pm) && x in Children(pm, a) && y in Children(pm, a)
    ensures !IsAncestor(pm, x, y)
  {
    if IsAncestor(pm, x, y) {
      if pm[y].value != x {
        AncestorIsSmaller(pm, x, a);
      }
    }
  }

  /** The descendants of `a` form a down-closed set. */
  lemma DescendantsDownClosed(pm: ParentMap, a: Id)
    requires Ranked(pm)
    ensures DownClosed(pm, Descendants(pm, a))
  {
  }

  lemma RemovedStaysRanked(pm: ParentMap, S: set<Id>)
    requires Ranked(pm)
    ensures Ranked(pm - S)
  {
  }

  lemma {:induction false} AncestorInSubmap(pm: ParentMap, S: set<Id>, a: Id, d: Id)
    requires Ranked(pm) && Ranked(pm - S) && IsAncestor(pm - S, a, d)
    ensures IsAncestor(pm, a, d)
    decreases d
  {
    var p := (pm - S)[d].value;
    if p != a {
      AncestorInSubmap(pm, S, a, p);
    }
  }

  lemma {:induction false} AncestorSurvives(pm: ParentMap, S: set<Id>, a: Id, d: Id)
    requires Ranked(pm) && Ranked(pm - S) && DownClosed(pm, S)
    requires IsAncestor(pm, a, d) && d !in S
    ensures IsAncestor(pm - S, a, d)
    decreases d
  {
    var p := pm[d].value;
    if p != a {
      assert p !in S;
      AncestorSurvives(pm, S, a, p);
    }
  }

  /** Deleting a down-closed set of comments removes exactly those comments
      from every remaining subtree: this is what lets each step of the cascade
      work on an already partly deleted store. */
  lemma RemoveDownClosed(pm: ParentMap, S: set<Id>, a: Id)
    requires Ranked(pm) && DownClosed(pm, S)
    ensures Ranked(pm - S)
    ensures Descendants(pm - S, a) == Descendants(pm, a) - S
  {
    RemovedStaysRanked(pm, S);
    forall d | d in Descendants(pm - S, a) ensures d in Descendants(pm, a) - S {
      AncestorInSubmap(pm, S, a, d);
    }
    forall d | d in Descendants(pm, a) - S ensures d in Descendants(pm - S, a) {
      AncestorSurvives(pm, S, a, d);
    }
  }

  /** Once the descendants of `a` are gone, `a` has none left: a second
      `deleteAllReplies(a)` finds nothing to delete. */
  lemma DeleteDescendantsIdempotent(pm: ParentMap, a: Id)
    requires Ranked(pm)
    ensures Ranked(pm - Descendants(pm, a))
    ensures Descendants(pm - Descendants(pm, a), a) == {}
    ensures Children(pm - Descendants(pm, a), a) == {}
  {
    DescendantsDownClosed(pm, a);
    RemoveDownClosed(pm, Descendants(pm, a), a);
    forall d | d in Children(pm - Descendants(pm, a), a) ensures false {
    }
  }

  // ----- descendants of a list of comments -----

  /** The union of the subtrees below each comment of `cs`. */
  ghost function SubtreesOf(pm: ParentMap, cs: seq<Id>): set<Id>
    requires Ranked(pm)
  {
    if cs == [] then {} else SubtreesOf(pm, cs[..|cs| - 1]) + Descendants(pm, cs[|cs| - 1])
  }

  /** The sum of the subtree sizes below each comment of `cs`. */
  ghost function SubtreeSizes(pm: ParentMap, cs: seq<Id>): nat
    requires Ranked(pm)
  {
    if cs == [] then 0 else SubtreeSizes(pm, cs[..|cs| - 1]) + |Descendants(pm, cs[|cs| - 1])|
  }

  lemma {:induction false} SubtreesOfMember(pm: ParentMap, cs: seq<Id>, d: Id)
    requires Ranked(pm)
    ensures d in SubtreesOf(pm, cs) <==> exists i :: 0 <= i < |cs| && d in Descendants(pm, cs[i])
  {
    if cs != [] {
      var p := cs[..|cs| - 1];
      SubtreesOfMember(pm, p, d);
      if exists i :: 0 <= i < |p| && d in Descendants(pm, p[i]) {
        var i :| 0 <= i < |p| && d in Descendants(pm, p[i]);
        assert cs[i] == p[i];
      }
      if exists i :: 0 <= i < |cs| && d in Descendants(pm, cs[i]) {
        var i :| 0 <= i < |cs| && d in Descendants(pm, cs[i]);
        if i < |cs| - 1 { assert p[i] == cs[i]; }
      }
    }
  }

  /** Replies of one comment, listed once each, have disjoint subtrees, so the
      subtree sizes add up to the size of their union. */
  lemma {:induction false} SubtreeSizesOfSiblings(pm: ParentMap, a: Id, cs: seq<Id>)
    requires Ranked(pm) && Distinct(cs)
    requires forall i :: 0 <= i < |cs| ==> cs[i] in Children(pm, a)
    ensures |SubtreesOf(pm, cs)| == SubtreeSizes(pm, cs)
  {
    if cs != [] {
      var p := cs[..|cs| - 1];
      var last := cs[|cs| - 1];
      assert forall i :: 0 <= i < |p| ==> p[i] == cs[i];
      SubtreeSizesOfSiblings(pm, a, p);
      forall d | d in SubtreesOf(pm, p) && d in Descendants(pm, last) ensures false {
        SubtreesOfMember(pm, p, d);
        var i :| 0 <= i < |p| && d in Descendants(pm, p[i]);
        SiblingSubtreesDisjoint(pm, a, p[i], last);
      }
      assert SubtreesOf(pm, p) !! Descendants(pm, last);
    }
  }

  lemma DistinctPrefix(cs: seq<Id>)
    requires Distinct(cs) && cs != []
    ensures Distinct(cs[..|cs| - 1]) && cs[|cs| - 1] !in cs[..|cs| - 1]
  {
  }

  lemma ElementsOfSnoc(p: seq<Id>, last: Id)
    ensures Elements(p + [last]) == Elements(p) + {last}
  {
  }

  lemma {:induction false} DistinctCard(cs: seq<Id>)
    requires Distinct(cs)
    ensures |Elements(cs)| == |cs|
  {
    if cs != [] {
      var p := cs[..|cs| - 1];
      var last := cs[|cs| - 1];
      DistinctPrefix(cs);
      assert cs == p + [last];
      ElementsOfSnoc(p, last);
      DistinctCard(p);
    }
  }

  /** `countAllReplies(a)` as the source computes it: the number of direct
      replies plus the counts below each of them, is the number of descendants. */
  lemma CountDecomposition(pm: ParentMap, a: Id, cs: seq<Id>)
    requires Ranked(pm) && Distinct(cs)
    requires Elements(cs) == Children(pm, a)
    ensures |Descendants(pm, a)| == |cs| + SubtreeSizes(pm, cs)
  {
    var kids := Children(pm, a);
    forall i | 0 <= i < |cs| ensures cs[i] in kids {
      assert cs[i] in Elements(cs);
    }
    SubtreeSizesOfSiblings(pm, a, cs);
    DistinctCard(cs);
    var sub := SubtreesOf(pm, cs);
    DeleteDecomposition(pm, a, cs);
    forall d | d in kids && d in sub ensures false {
      SubtreesOfMember(pm, cs, d);
      var i :| 0 <= i < |cs| && d in Descendants(pm, cs[i]);
      DescendantsAreLarger(pm, cs[i]);
      SiblingSubtreesDisjoint(pm, a, d, cs[i]);
    }
  }

  /** The cascade of `deleteAllReplies(a)`: after the subtrees below each direct
      reply are gone, deleting the direct replies leaves no descendant. */
  lemma DeleteDecomposition(pm: ParentMap, a: Id, cs: seq<Id>)
    requires Ranked(pm)
    requires Elements(cs) == Children(pm, a)
    ensures Descendants(pm, a) == SubtreesOf(pm, cs) + Children(pm, a)
  {
    var kids := Children(pm, a);
    var sub := SubtreesOf(pm, cs);
    forall d | d in Descendants(pm, a) ensures d in sub + kids {
      DescendantStep(pm, a, d);
      if d !in kids {
        var c :| c in kids && d in Descendants(pm, c);
        assert c in Elements(cs);
        SubtreesOfMember(pm, cs, d);
      }
    }
    forall d | d in sub + kids ensures d in Descendants(pm, a) {
      DescendantStep(pm, a, d);
      if d in sub {
        SubtreesOfMember(pm, cs, d);
        var i :| 0 <= i < |cs| && d in Descendants(pm, cs[i]);
        assert cs[i] in Elements(cs);
      }
    }
  }

  /** No direct reply of `a` lies below another (or the same) direct reply of `a`. */
  lemma ChildrenOutsideSubtrees(pm: ParentMap, a: Id, cs: seq<Id>)
    requires Ranked(pm)
    requires forall i :: 0 <= i < |cs| ==> cs[i] in Children(pm, a)
    ensures Children(pm, a) !! SubtreesOf(pm, cs)
  {
    forall d | d in Children(pm, a) && d in SubtreesOf(pm, cs) ensures false {
      SubtreesOfMember(pm, cs, d);
      var i :| 0 <= i < |cs| && d in Descendants(pm, cs[i]);
      if d == cs[i] {
        DescendantsAreLarger(pm, d);
      } else {
        SiblingSubtreesDisjoint(pm, a, d, cs[i]);
      }
    }
  }

  lemma SubtreesOfDownClosed(pm: ParentMap, cs: seq<Id>)
    requires Ranked(pm)
    ensures DownClosed(pm, SubtreesOf(pm, cs))
  {
    forall d | d in pm && pm[d].Some? && pm[d].value in SubtreesOf(pm, cs)
      ensures d in SubtreesOf(pm, cs)
    {
      SubtreesOfMember(pm, cs, pm[d].value);
      var i :| 0 <= i < |cs| && pm[d].value in Descendants(pm, cs[i]);
      SubtreesOfMember(pm, cs, d);
    }
  }

  // ----- the whole set of cascaded comments -----

  /** The comments of `cs` together with everything below them: what deleting
      each listed comment with its replies removes. */
  ghost function Threads(pm: ParentMap, cs: seq<Id>): set<Id>
    requires Ranked(pm)
  {
    SubtreesOf(pm, cs) + Elements(cs)
  }

  lemma ThreadsDownClosed(pm: ParentMap, cs: seq<Id>)
    requires Ranked(pm)
    ensures DownClosed(pm, Threads(pm, cs))
  {
    SubtreesOfDownClosed(pm, cs);
    forall d | d in pm && pm[d].Some? && pm[d].value in Elements(cs)
      ensures d in SubtreesOf(pm, cs)
    {
      var c := pm[d].value;
      var i :| 0 <= i < |cs| && cs[i] == c;
      assert d in Descendants(pm, cs[i]);
      SubtreesOfMember(pm, cs, d);
    }
  }

  lemma ThreadsSnoc(pm: ParentMap, cs: seq<Id>, c: Id)
    requires Ranked(pm)
    ensures Threads(pm, cs + [c]) == Threads(pm, cs) + Descendants(pm, c) + {c}
  {
    assert (cs + [c])[..|cs|] == cs;
    ElementsOfSnoc(cs, c);
  }

  // ----- breadth-first levels below a set of roots -----

  /** The comments whose parent is in `S`: `find({parentCommentId: {$in: S}})`. */
  function ChildrenOfSet(pm: ParentMap, S: set<Id>): set<Id> {
    set d | d in pm && pm[d].Some? && pm[d].value in S
  }

  /** Level 0 is the set of roots, level k + 1 the replies to level k. */
  ghost function Level(pm: ParentMap, R: set<Id>, k: nat): set<Id> {
    if k == 0 then R else ChildrenOfSet(pm, Level(pm, R, k - 1))
  }

  /** Levels 1 to k together. */
  ghost function LevelsUpTo(pm: ParentMap, R: set<Id>, k: nat): set<Id> {
    if k == 0 then {} else LevelsUpTo(pm, R, k - 1) + Level(pm, R, k)
  }

  /** Levels 2 to k together: what the source accumulates in `nestedReplies`. */
  ghost function NestedUpTo(pm: ParentMap, R: set<Id>, k: nat): set<Id> {
    if k <= 1 then {} else NestedUpTo(pm, R, k - 1) + Level(pm, R, k)
  }

  /** Some comment on the parent chain of `d` is one of the roots `R`. */
  ghost predicate HasAncestorIn(pm: ParentMap, R: set<Id>, d: Id)
    requires Ranked(pm)
    decreases d
  {
    d in pm && pm[d].Some? &&
    (pm[d].value in R || HasAncestorIn(pm, R, pm[d].value))
  }

  /** Every comment below one of the roots. */
  ghost function DescendantsOfSet(pm: ParentMap, R: set<Id>): set<Id>
    requires Ranked(pm)
  {
    set d | d in pm && HasAncestorIn(pm, R, d)
  }

  /** The roots of a story are top-level comments: a listed comment that is in
      the store has no parent. */
  ghost predicate RootsTopLevel(pm: ParentMap, R: set<Id>) {
    forall r :: r in R && r in pm ==> pm[r].None?
  }

  lemma LevelsNested(pm: ParentMap, R: set<Id>, k: nat)
    ensures NestedUpTo(pm, R, k) + Level(pm, R, 1) == LevelsUpTo(pm, R, k) || k == 0
  {
    if k > 1 {
      LevelsNested(pm, R, k - 1);
    }
  }

  lemma {:induction false} LevelInStore(pm: ParentMap, R: set<Id>, k: nat, d: Id)
    requires k >= 1 && d in Level(pm, R, k)
    ensures d in pm && pm[d].Some? && pm[d].value in Level(pm, R, k - 1)
  {
  }

  /** A comment at level k is the k-th generation below a root, so its id is
      at least k. */
  lemma {:induction false} LevelIdsAtLeast(pm: ParentMap, R: set<Id>, k: nat, d: Id)
    requires Ranked(pm) && d in Level(pm, R, k)
    ensures d >= k
  {
    if k > 0 {
      LevelIdsAtLeast(pm, R, k - 1, pm[d].value);
    }
  }

  lemma {:induction false} LevelBelowRoots(pm: ParentMap, R: set<Id>, k: nat, d: Id)
    requires Ranked(pm) && k >= 1 && d in Level(pm, R, k)
    ensures HasAncestorIn(pm, R, d)
  {
    if k > 1 {
      LevelBelowRoots(pm, R, k - 1, pm[d].value);
    }
  }

  /** Once level k + 1 is empty, levels 1 to k hold every comment below the
      roots: the loop may stop at the first empty level. */
  lemma {:induction false} EmptyLevelCoversAll(pm: ParentMap, R: set<Id>, k: nat, d: Id)
      returns (j: nat)
    requires Ranked(pm) && Level(pm, R, k + 1) == {} && HasAncestorIn(pm, R, d)
    ensures 1 <= j <= k && d in Level(pm, R, j)
    decreases d
  {
    var p := pm[d].value;
    if p in R {
      assert Level(pm, R, 1) == ChildrenOfSet(pm, R);
      assert d in Level(pm, R, 1);
      if k == 0 {
        assert false;
      }
      j := 1;
    } else {
      var i := EmptyLevelCoversAll(pm, R, k, p);
      assert d in Level(pm, R, i + 1);
      j := i + 1;
    }
  }

  lemma {:induction false} LevelInLevelsUpTo(pm: ParentMap, R: set<Id>, k: nat, j: nat, d: Id)
    requires 1 <= j <= k && d in Level(pm, R, j)
    ensures d in LevelsUpTo(pm, R, k)
  {
    if j < k {
      LevelInLevelsUpTo(pm, R, k - 1, j, d);
    }
  }

  lemma {:induction false} LevelOfMember(pm: ParentMap, R: set<Id>, k: nat, d: Id) returns (j: nat)
    requires d in LevelsUpTo(pm, R, k)
    ensures 1 <= j <= k && d in Level(pm, R, j)
  {
    if d in Level(pm, R, k) {
      j := k;
    } else {
      j := LevelOfMember(pm, R, k - 1, d);
    }
  }

  /** The first empty level ends the search with every descendant collected. */
  lemma LevelsComplete(pm: ParentMap, R: set<Id>, k: nat)
    requires Ranked(pm) && Level(pm, R, k + 1) == {}
    ensures LevelsUpTo(pm, R, k) == DescendantsOfSet(pm, R)
  {
    forall d | d in LevelsUpTo(pm, R, k) ensures d in DescendantsOfSet(pm, R) {
      var j := LevelOfMember(pm, R, k, d);
      LevelBelowRoots(pm, R, j, d);
    }
    forall d | d in DescendantsOfSet(pm, R) ensures d in LevelsUpTo(pm, R, k) {
      var j := EmptyLevelCoversAll(pm, R, k, d);
      LevelInLevelsUpTo(pm, R, k, j, d);
    }
  }

  /** With top-level roots, no comment sits on two different levels. */
  lemma {:induction false} LevelsDisjoint(pm: ParentMap, R: set<Id>, j: nat, k: nat)
    requires RootsTopLevel(pm, R) && j < k
    ensures Level(pm, R, j) !! Level(pm, R, k)
  {
    if j > 0 {
      LevelsDisjoint(pm, R, j - 1, k - 1);
      forall d | d in Level(pm, R, j) && d in Level(pm, R, k) ensures false {
        LevelInStore(pm, R, j, d);
        LevelInStore(pm, R, k, d);
      }
    } else {
      forall d | d in Level(pm, R, 0) && d in Level(pm, R, k) ensures false {
        LevelInStore(pm, R, k, d);
      }
    }
  }

  lemma NewLevelDisjoint(pm: ParentMap, R: set<Id>, k: nat)
    requires RootsTopLevel(pm, R)
    ensures LevelsUpTo(pm, R, k) !! Level(pm, R, k + 1)
    ensures NestedUpTo(pm, R, k) !! Level(pm, R, k + 1)
  {
    forall d | d in LevelsUpTo(pm, R, k) && d in Level(pm, R, k + 1) ensures false {
      var j := LevelOfMember(pm, R, k, d);
      LevelsDisjoint(pm, R, j, k + 1);
    }
    LevelsNested(pm, R, k);
  }

  /** Below a single root, the search finds exactly the root's descendants. */
  lemma {:induction false} AncestorInSingleton(pm: ParentMap, a: Id, d: Id)
    requires Ranked(pm)
    ensures HasAncestorIn(pm, {a}, d) <==> IsAncestor(pm, a, d)
    decreases d
  {
    if d in pm && pm[d].Some? && pm[d].value != a {
      AncestorInSingleton(pm, a, pm[d].value);
    }
  }

  lemma {:induction false} AncestorInUnion(pm: ParentMap, R: set<Id>, d: Id)
    requires Ranked(pm)
    ensures HasAncestorIn(pm, R, d) <==> exists r :: r in R && IsAncestor(pm, r, d)
    decreases d
  {
    if d in pm && pm[d].Some? {
      var p := pm[d].value;
      AncestorInUnion(pm, R, p);
      if exists r :: r in R && IsAncestor(pm, r, d) {
        var r :| r in R && IsAncestor(pm, r, d);
        if p != r {
          assert IsAncestor(pm, r, p);
        }
      }
      if HasAncestorIn(pm, R, p) {
        var r :| r in R && IsAncestor(pm, r, p);
        assert IsAncestor(pm, r, d);
      }
    }
  }

  // ----- the threads of a story -----

  /** The subtrees below two different top-level comments do not meet. */
  lemma RootSubtreesDisjoint(pm: ParentMap, r1: Id, r2: Id)
    requires Ranked(pm) && r1 != r2
    requires r1 in pm && pm[r1].None? && r2 in pm && pm[r2].None?
    ensures Descendants(pm, r1) !! Descendants(pm, r2)
  {
    forall d | d in Descendants(pm, r1) && d in Descendants(pm, r2) ensures false {
      AncestorsAreLinear(pm, r1, r2, d);
    }
  }

  /** Top-level comments listed once each: their subtree sizes add up to the
      size of the union of their subtrees. */
  lemma {:induction false} SubtreeSizesOfRoots(pm: ParentMap, cs: seq<Id>)
    requires Ranked(pm) && Distinct(cs)
    requires forall i :: 0 <= i < |cs| ==> cs[i] in pm && pm[cs[i]].None?
    ensures |SubtreesOf(pm, cs)| == SubtreeSizes(pm, cs)
  {
    if cs != [] {
      var p := cs[..|cs| - 1];
      var last := cs[|cs| - 1];
      assert forall i :: 0 <= i < |p| ==> p[i] == cs[i];
      SubtreeSizesOfRoots(pm, p);
      forall d | d in SubtreesOf(pm, p) && d in Descendants(pm, last) ensures false {
        SubtreesOfMember(pm, p, d);
        var i :| 0 <= i < |p| && d in Descendants(pm, p[i]);
        RootSubtreesDisjoint(pm, p[i], last);
      }
      assert SubtreesOf(pm, p) !! Descendants(pm, last);
    }
  }

  /** Searching below a set of roots finds the union of their subtrees. */
  lemma DescendantsOfRoots(pm: ParentMap, cs: seq<Id>)
    requires Ranked(pm)
    ensures DescendantsOfSet(pm, Elements(cs)) == SubtreesOf(pm, cs)
  {
    forall d ensures d in DescendantsOfSet(pm, Elements(cs)) <==> d in SubtreesOf(pm, cs) {
      AncestorInUnion(pm, Elements(cs), d);
      SubtreesOfMember(pm, cs, d);
      if d in SubtreesOf(pm, cs) {
        var i :| 0 <= i < |cs| && d in Descendants(pm, cs[i]);
        assert cs[i] in Elements(cs);
      }
      if d in DescendantsOfSet(pm, Elements(cs)) {
        var r :| r in Elements(cs) && IsAncestor(pm, r, d);
        var i :| 0 <= i < |cs| && cs[i] == r;
        assert d in Descendants(pm, cs[i]);
      }
    }
  }

  /** A top-level comment is below no comment, so the roots of a story lie
      outside the subtrees below them. */
  lemma RootsOutsideSubtrees(pm: ParentMap, cs: seq<Id>)
    requires Ranked(pm) && RootsTopLevel(pm, Elements(cs))
    ensures (Elements(cs) * pm.Keys) !! SubtreesOf(pm, cs)
  {
    forall d | d in Elements(cs) * pm.Keys && d in SubtreesOf(pm, cs) ensures false {
      SubtreesOfMember(pm, cs, d);
    }
  }
}
