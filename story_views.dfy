/** The two story read handlers: the list of all stories, newest first, with
    their comment counts, and one story's detail with its whole comment tree
    gathered level by level. */
module StoryViews {
  import opened Base
  import opened CommentTree
  import opened Models
  import opened Db
  import opened Ordering
  import opened CommentHelpers

  // ----- the story list -----

  datatype CommentSummary = CommentSummary(id: Id, likeCount: nat, replyCount: nat)

  datatype StorySummary = StorySummary(
    id: Id,
    likeCount: nat,
    commentCount: nat,
    totalCommentCount: nat,
    comments: seq<CommentSummary>)

  function SummaryIds(cs: seq<CommentSummary>): (r: seq<Id>)
    ensures |r| == |cs| && forall i :: 0 <= i < |cs| ==> r[i] == cs[i].id
  {
    if cs == [] then [] else [cs[0].id] + SummaryIds(cs[1..])
  }

  function StoryIds(ss: seq<StorySummary>): (r: seq<Id>)
    ensures |r| == |ss| && forall i :: 0 <= i < |ss| ==> r[i] == ss[i].id
  {
    if ss == [] then [] else [ss[0].id] + StoryIds(ss[1..])
  }

  /** The replies counted for a story's listed comments: the size of the
      subtree below each listed id that names a comment, nothing for the others. */
  ghost function ListedReplies(pm: ParentMap, cs: seq<Id>): nat
    requires Ranked(pm)
  {
    if cs == [] then 0
    else
      var last := cs[|cs| - 1];
      ListedReplies(pm, cs[..|cs| - 1]) + (if last in pm then |Descendants(pm, last)| else 0)
  }

  ghost predicate SummarizesComment(comments: map<Id, Comment>, c: CommentSummary)
    requires Ranked(ParentsOf(comments))
  {
    c.id in comments && c.likeCount == |comments[c.id].likes| &&
    c.replyCount == |Descendants(ParentsOf(comments), c.id)|
  }

  /** What the list reports for one story: its like and comment counts, the
      total with every reply below its comments, and its listed comments that
      still exist, in listed order, each with its own counts. */
  ghost predicate Summarizes(comments: map<Id, Comment>, stories: map<Id, Story>, s: StorySummary)
    requires Ranked(ParentsOf(comments))
  {
    s.id in stories &&
    var st := stories[s.id];
    s.likeCount == |st.likes| && s.commentCount == |st.comments| &&
    s.totalCommentCount == |st.comments| + ListedReplies(ParentsOf(comments), st.comments) &&
    SummaryIds(s.comments) == Existing(comments, st.comments) &&
    forall i :: 0 <= i < |s.comments| ==> SummarizesComment(comments, s.comments[i])
  }

  /** What the story list has gathered after the first `i` listed ids. */
  ghost predicate SummarizedUpTo(comments: map<Id, Comment>, cs: seq<Id>, i: nat,
                                 total: nat, listed: seq<CommentSummary>)
    requires Ranked(ParentsOf(comments)) && i <= |cs|
  {
    total == |cs| + ListedReplies(ParentsOf(comments), cs[..i]) &&
    SummaryIds(listed) == Existing(comments, cs[..i]) &&
    forall j :: 0 <= j < |listed| ==> SummarizesComment(comments, listed[j])
  }

  /** One listed id more: a stored comment adds its subtree to the total and
      its summary to the list; a missing one adds nothing. */
  lemma SummarizeStep(comments: map<Id, Comment>, cs: seq<Id>, i: nat,
                      total: nat, listed: seq<CommentSummary>, n: nat)
    requires Ranked(ParentsOf(comments)) && i < |cs|
    requires SummarizedUpTo(comments, cs, i, total, listed)
    requires cs[i] in comments ==> n == |Descendants(ParentsOf(comments), cs[i])|
    ensures cs[i] in comments ==>
      SummarizedUpTo(comments, cs, i + 1, total + n,
                     listed + [CommentSummary(cs[i], |comments[cs[i]].likes|, n)])
    ensures cs[i] !in comments ==> SummarizedUpTo(comments, cs, i + 1, total, listed)
  {
    var x := cs[i];
    ListedRepliesSnoc(ParentsOf(comments), cs, i);
    assert cs[..i + 1] == cs[..i] + [x];
    ExistingSnoc(comments, cs[..i], x);
    if x in comments {
      SummaryIdsSnoc(listed, CommentSummary(x, |comments[x].likes|, n));
    }
  }

  lemma ListedRepliesSnoc(pm: ParentMap, cs: seq<Id>, i: nat)
    requires Ranked(pm) && i < |cs|
    ensures ListedReplies(pm, cs[..i + 1]) ==
      ListedReplies(pm, cs[..i]) + (if cs[i] in pm then |Descendants(pm, cs[i])| else 0)
  {
    assert cs[..i + 1][..i] == cs[..i];
  }

  lemma SummaryIdsSnoc(listed: seq<CommentSummary>, c: CommentSummary)
    ensures SummaryIds(listed + [c]) == SummaryIds(listed) + [c.id]
  {
  }

  /** One element of the story list. */
  method Summarize(db: Store, id: Id) returns (s: StorySummary)
    requires db.Valid() && id in db.stories
    ensures s.id == id && Summarizes(db.comments, db.stories, s)
  {
    var st := db.stories[id];
    var cs := st.comments;
    var total: nat := |cs|;
    var listed: seq<CommentSummary> := [];
    for i := 0 to |cs|
      invariant SummarizedUpTo(db.comments, cs, i, total, listed)
    {
      var x := cs[i];
      if x in db.comments {
        var n := CountAllReplies(db, x);
        SummarizeStep(db.comments, cs, i, total, listed, n);
        total := total + n;
        listed := listed + [CommentSummary(x, |db.comments[x].likes|, n)];
      } else {
        SummarizeStep(db.comments, cs, i, total, listed, 0);
      }
    }
    assert cs[..|cs|] == cs;
    s := StorySummary(id, |st.likes|, |cs|, total, listed);
  }

  /** `Story.find({}).sort({ createdAt: -1 })`: each story once, newest first. */
  method NewestStories(db: Store) returns (order: seq<Id>)
    ensures |order| == |db.stories.Keys| && Elements(order) == db.stories.Keys
    ensures forall i, j :: 0 <= i < j < |order| ==>
      db.stories[order[i]].createdAt >= db.stories[order[j]].createdAt
  {
    var all := Enumerate(db.stories.Keys);
    var key := StoryCreatedAt(db.stories);
    order := SortBy(all, Negated(key));
    SortByElements(all, Negated(key));
    NewestFirst(all, key);
  }

  /** The summary of each story of `order`, in that order. */
  method SummarizeAll(db: Store, order: seq<Id>) returns (r: seq<StorySummary>)
    requires db.Valid() && forall i :: 0 <= i < |order| ==> order[i] in db.stories
    ensures |r| == |order| && forall i :: 0 <= i < |r| ==> r[i].id == order[i]
    ensures forall i :: 0 <= i < |r| ==> Summarizes(db.comments, db.stories, r[i])
  {
    r := [];
    for i := 0 to |order|
      invariant |r| == i && forall j :: 0 <= j < i ==> r[j].id == order[j]
      invariant forall j :: 0 <= j < i ==> Summarizes(db.comments, db.stories, r[j])
    {
      var s := Summarize(db, order[i]);
      r := r + [s];
    }
  }

  /** `getStoriesHandler`: every story once, newest first. */
  method GetStories(db: Store) returns (r: seq<StorySummary>)
    requires db.Valid()
    ensures |r| == |db.stories.Keys| && Elements(StoryIds(r)) == db.stories.Keys
    ensures forall i :: 0 <= i < |r| ==> Summarizes(db.comments, db.stories, r[i])
    ensures forall i, j :: 0 <= i < j < |r| ==>
      db.stories[r[i].id].createdAt >= db.stories[r[j].id].createdAt
  {
    var order := NewestStories(db);
    assert forall i :: 0 <= i < |order| ==> order[i] in db.stories by {
      forall i | 0 <= i < |order| ensures order[i] in db.stories {
        assert order[i] in Elements(order);
      }
    }
    r := SummarizeAll(db, order);
    assert StoryIds(r) == order;
  }

  // ----- the story detail -----

  /** One more level joins the nested replies. */
  lemma CollectStep(pm: ParentMap, R: set<Id>, k: nat, relevant: seq<Id>, nested: seq<Id>, next: seq<Id>)
    requires k >= 2 && RootsTopLevel(pm, R)
    requires Elements(relevant) == Level(pm, R, 1)
    requires Distinct(nested) && Elements(nested) == NestedUpTo(pm, R, k)
    requires Elements(relevant) !! Elements(nested)
    requires Distinct(next) && Elements(next) == Level(pm, R, k + 1)
    ensures Distinct(nested + next) && Elements(nested + next) == NestedUpTo(pm, R, k + 1)
    ensures Elements(relevant) !! Elements(nested + next)
  {
    NewLevelDisjoint(pm, R, k);
    LevelsDisjoint(pm, R, 1, k + 1);
    DistinctConcat(nested, next);
    LevelsNested(pm, R, k + 1);
  }

  /** At the first empty level the gathered replies are all of them. */
  lemma CollectEnd(pm: ParentMap, R: set<Id>, k: nat, relevant: seq<Id>, nested: seq<Id>)
    requires k >= 1 && Ranked(pm) && Level(pm, R, k + 1) == {}
    requires Distinct(relevant) && Elements(relevant) == Level(pm, R, 1)
    requires Distinct(nested) && Elements(nested) == NestedUpTo(pm, R, k)
    requires Elements(relevant) !! Elements(nested)
    ensures Distinct(relevant + nested) && Elements(relevant + nested) == DescendantsOfSet(pm, R)
  {
    DistinctConcat(relevant, nested);
    LevelsNested(pm, R, k);
    LevelsComplete(pm, R, k);
  }

  /** The replies below a story's comments, gathered as the source does: the
      direct replies, then the replies to those, then level after level until
      a level comes back empty. They are exactly the comments below the roots,
      each once. */
  method CollectReplies(pm: ParentMap, R: set<Id>, ghost bound: nat) returns (all: seq<Id>)
    requires Ranked(pm) && RootsTopLevel(pm, R) && forall d :: d in pm ==> d < bound
    ensures Distinct(all) && Elements(all) == DescendantsOfSet(pm, R)
  {
    var relevant := Enumerate(ChildrenOfSet(pm, R));
    assert Elements(relevant) == Level(pm, R, 1);
    var nested: seq<Id> := [];
    ghost var k: nat := 1;
    if |relevant| > 0 {
      nested := Enumerate(ChildrenOfSet(pm, Elements(relevant)));
      var current := nested;
      k := 2;
      assert Elements(nested) == NestedUpTo(pm, R, 2);
      assert Elements(relevant) !! Elements(nested) by {
        LevelsDisjoint(pm, R, 1, 2);
      }
      assert |current| > 0 ==> k < bound by {
        if |current| > 0 {
          LevelIdsAtLeast(pm, R, 2, current[0]);
          LevelInStore(pm, R, 2, current[0]);
        }
      }
      assert |current| == 0 ==> Level(pm, R, k + 1) == {} by {
        if |current| == 0 {
          assert Level(pm, R, k) == {};
        }
      }
      while |current| > 0
        invariant k >= 2
        invariant Elements(current) == Level(pm, R, k)
        invariant Distinct(nested) && Elements(nested) == NestedUpTo(pm, R, k)
        invariant Elements(relevant) !! Elements(nested)
        invariant |current| > 0 ==> k < bound
        invariant |current| == 0 ==> Level(pm, R, k + 1) == {}
        decreases bound - k
      {
        var next := Enumerate(ChildrenOfSet(pm, Elements(current)));
        assert Elements(next) == Level(pm, R, k + 1);
        if |next| == 0 {
          assert Level(pm, R, k + 1) == {};
          break;
        }
        assert k + 1 < bound by {
          LevelIdsAtLeast(pm, R, k + 1, next[0]);
          LevelInStore(pm, R, k + 1, next[0]);
        }
        CollectStep(pm, R, k, relevant, nested, next);
        nested := nested + next;
        current := next;
        k := k + 1;
      }
    } else {
      assert Level(pm, R, 2) == ChildrenOfSet(pm, {});
    }
    CollectEnd(pm, R, k, relevant, nested);
    all := relevant + nested;
  }

  /** A reply to a root or to a comment below the roots is below the roots. */
  lemma ChildBelowRoots(pm: ParentMap, R: set<Id>, x: Id, d: Id)
    requires Ranked(pm) && d in Children(pm, x)
    requires x in R || x in DescendantsOfSet(pm, R)
    ensures d in DescendantsOfSet(pm, R)
  {
  }

  /** The replies of `x` among `all`, in the order `all` lists them. */
  function RepliesIn(pm: ParentMap, all: seq<Id>, x: Id): (r: seq<Id>)
    ensures |r| <= |all|
  {
    if all == [] then []
    else
      var last := all[|all| - 1];
      RepliesIn(pm, all[..|all| - 1], x) + (if last in pm && pm[last] == Some(x) then [last] else [])
  }

  lemma RepliesInSnoc(pm: ParentMap, s: seq<Id>, a: Id)
    ensures forall x: Id ::
      RepliesIn(pm, s + [a], x) == RepliesIn(pm, s, x) + (if a in pm && pm[a] == Some(x) then [a] else [])
  {
    assert (s + [a])[..|s|] == s;
  }

  /** From a list without repeats, the replies of `x` are listed once each,
      and they are exactly the listed children of `x`. */
  lemma {:induction false} RepliesInChildren(pm: ParentMap, all: seq<Id>, x: Id)
    requires Distinct(all)
    ensures var r := RepliesIn(pm, all, x);
      Distinct(r) && Elements(r) == Elements(all) * Children(pm, x)
  {
    if all != [] {
      var init, last := all[..|all| - 1], all[|all| - 1];
      assert all == init + [last];
      RepliesInChildren(pm, init, x);
      ElementsOfSnoc(init, last);
      assert last !in Elements(init);
      var r0 := RepliesIn(pm, init, x);
      if last in pm && pm[last] == Some(x) {
        assert RepliesIn(pm, all, x) == r0 + [last];
        ElementsOfSnoc(r0, last);
        assert last in Children(pm, x);
      } else {
        assert RepliesIn(pm, all, x) == r0;
        assert last !in Children(pm, x);
      }
    }
  }

  /** Hanging each reply under its parent: `tree[x]` lists, in gathering
      order, the replies of `x` found in `all`. */
  method AttachReplies(pm: ParentMap, nodes: set<Id>, all: seq<Id>) returns (tree: map<Id, seq<Id>>)
    requires forall i :: 0 <= i < |all| ==> all[i] in pm && pm[all[i]].Some?
    requires Distinct(all)
    ensures tree.Keys == nodes
    ensures forall x :: x in tree ==> tree[x] == RepliesIn(pm, all, x)
    ensures forall x :: x in tree ==>
      Distinct(tree[x]) && Elements(tree[x]) == Elements(all) * Children(pm, x)
  {
    tree := map x | x in nodes :: [];
    for i := 0 to |all|
      invariant tree.Keys == nodes
      invariant forall x :: x in tree ==> tree[x] == RepliesIn(pm, all[..i], x)
    {
      var reply := all[i];
      var p := pm[reply].value;
      assert all[..i + 1] == all[..i] + [reply];
      RepliesInSnoc(pm, all[..i], reply);
      if p in tree {
        tree := tree[p := tree[p] + [reply]];
      }
    }
    assert all[..|all|] == all;
    forall x | x in tree
      ensures Distinct(tree[x]) && Elements(tree[x]) == Elements(all) * Children(pm, x)
    {
      RepliesInChildren(pm, all, x);
    }
  }

  /** `comments.filter(c => !c.parentCommentId)`. */
  function TopLevelOf(comments: map<Id, Comment>, ids: seq<Id>): (r: seq<Id>)
    requires forall i :: 0 <= i < |ids| ==> ids[i] in comments
    ensures forall x :: x in r <==> x in ids && comments[x].parentCommentId.None?
    ensures |r| <= |ids|
  {
    if ids == [] then []
    else if comments[ids[0]].parentCommentId.None? then [ids[0]] + TopLevelOf(comments, ids[1..])
    else TopLevelOf(comments, ids[1..])
  }

  /** The stored comments a story lists are all top-level, so the filter
      keeps every one of them. */
  lemma {:induction false} TopLevelOfAll(comments: map<Id, Comment>, ids: seq<Id>)
    requires RootsTopLevel(ParentsOf(comments), Elements(ids)) && Elements(ids) <= comments.Keys
    ensures forall i :: 0 <= i < |ids| ==> ids[i] in comments
    ensures TopLevelOf(comments, ids) == ids
  {
    if ids != [] {
      assert ids[0] in Elements(ids);
      assert Elements(ids[1..]) <= Elements(ids);
      TopLevelOfAll(comments, ids[1..]);
    }
  }

  /** Every reply of a node in the tree was gathered, so each node lists all
      of its replies. */
  lemma TreeComplete(pm: ParentMap, R: set<Id>, roots: set<Id>, all: seq<Id>, tree: map<Id, seq<Id>>)
    requires Ranked(pm) && roots <= R && Elements(all) == DescendantsOfSet(pm, R)
    requires tree.Keys == roots + Elements(all)
    requires forall x :: x in tree ==> Elements(tree[x]) == Elements(all) * Children(pm, x)
    ensures forall x :: x in tree ==> Elements(tree[x]) == Children(pm, x)
  {
    forall x | x in tree ensures Elements(tree[x]) == Children(pm, x) {
      forall d | d in Children(pm, x) ensures d in Elements(all) {
        ChildBelowRoots(pm, R, x, d);
      }
    }
  }

  datatype StoryDetail = StoryDetail(
    id: Id,
    likeCount: nat,
    commentCount: nat,
    totalCommentCount: nat,
    comments: seq<Id>,
    replies: map<Id, seq<Id>>,
    likeCounts: map<Id, nat>)

  const StoryNotFoundMsg := "Story tidak ditemukan"

  /** The `likeCount` each fetched comment and each gathered reply is given. */
  function LikeCounts(comments: map<Id, Comment>, nodes: set<Id>): (m: map<Id, nat>)
    requires nodes <= comments.Keys
    ensures m.Keys == nodes
    ensures forall x :: x in m ==> m[x] == |comments[x].likes|
  {
    map x | x in nodes :: |comments[x].likes|
  }

  /** `getStoryDetailHandler`: the story's comments that still exist, each
      with the tree of replies below it, and the counts. */
  method GetStoryDetail(db: Store, storyId: Id) returns (r: Outcome<StoryDetail>)
    requires db.Valid()
    ensures storyId !in db.stories <==> r == Rejected(NotFound, StoryNotFoundMsg)
    ensures storyId in db.stories ==> r.Done?
    ensures r.Done? ==>
      storyId in db.stories &&
      var s := db.stories[storyId];
      var pm := ParentsOf(db.comments);
      var roots := Elements(s.comments) * db.comments.Keys;
      var below := DescendantsOfSet(pm, Elements(s.comments));
      var d := r.value;
      d.id == storyId && d.likeCount == |s.likes| &&
      Distinct(d.comments) && Elements(d.comments) == roots && d.commentCount == |roots| &&
      d.totalCommentCount == |roots| + |below| &&
      d.replies.Keys == roots + below &&
      (forall x :: x in d.replies ==> Distinct(d.replies[x]) && Elements(d.replies[x]) == Children(pm, x)) &&
      d.likeCounts.Keys == roots + below &&
      forall x :: x in d.likeCounts ==> x in db.comments && d.likeCounts[x] == |db.comments[x].likes|
  {
    if storyId !in db.stories {
      return Rejected(NotFound, StoryNotFoundMsg);
    }
    var s := db.stories[storyId];
    var pm := ParentsOf(db.comments);
    var R := Elements(s.comments);
    var fetched := Enumerate(R * db.comments.Keys);
    assert RootsTopLevel(pm, R) by {
      StoryRootsTopLevel(db.comments, db.stories, db.nextId, storyId);
    }
    var all := CollectReplies(pm, R, db.nextId);
    assert |all| == |DescendantsOfSet(pm, R)| by {
      DistinctCard(all);
    }
    assert forall i :: 0 <= i < |all| ==> all[i] in pm && pm[all[i]].Some? by {
      forall i | 0 <= i < |all| ensures all[i] in pm && pm[all[i]].Some? {
        assert all[i] in DescendantsOfSet(pm, R);
      }
    }
    var tree := AttachReplies(pm, Elements(fetched) + Elements(all), all);
    TreeComplete(pm, R, Elements(fetched), all, tree);
    TopLevelOfAll(db.comments, fetched);
    var top := TopLevelOf(db.comments, fetched);
    assert Elements(all) <= db.comments.Keys by {
      forall x | x in Elements(all) ensures x in db.comments {
        assert x in DescendantsOfSet(pm, R);
      }
    }
    var likeCounts := LikeCounts(db.comments, Elements(fetched) + Elements(all));
    r := Done(StoryDetail(storyId, |s.likes|, |top|, |fetched| + |all|, top, tree, likeCounts));
  }

  // ----- the two totals -----

  /** The total the detail reports is the number of comments deleting the
      story removes: its listed comments that exist and every reply below them. */
  lemma DetailTotalIsThreadSize(comments: map<Id, Comment>, stories: map<Id, Story>, bound: nat, s: Id)
    requires Coherent(comments, stories, bound) && s in stories
    ensures var pm := ParentsOf(comments);
      var cs := stories[s].comments;
      |Elements(cs) * comments.Keys| + |DescendantsOfSet(pm, Elements(cs))|
        == |comments.Keys * Threads(pm, cs)|
  {
    var pm := ParentsOf(comments);
    var cs := stories[s].comments;
    StoryRootsTopLevel(comments, stories, bound, s);
    DescendantsOfRoots(pm, cs);
    RootsOutsideSubtrees(pm, cs);
    assert comments.Keys * Threads(pm, cs) == (Elements(cs) * comments.Keys) + SubtreesOf(pm, cs);
  }

  /** When a story lists each of its comments once and all of them exist, the
      list's total and the detail's total agree. */
  lemma TotalsAgree(comments: map<Id, Comment>, stories: map<Id, Story>, bound: nat, s: Id)
    requires Coherent(comments, stories, bound) && s in stories
    requires Distinct(stories[s].comments) && Elements(stories[s].comments) <= comments.Keys
    ensures var pm := ParentsOf(comments);
      var cs := stories[s].comments;
      |cs| + ListedReplies(pm, cs) == |Elements(cs) * comments.Keys| + |DescendantsOfSet(pm, Elements(cs))|
  {
    var pm := ParentsOf(comments);
    var cs := stories[s].comments;
    StoryRootsTopLevel(comments, stories, bound, s);
    DescendantsOfRoots(pm, cs);
    ListedRepliesAllPresent(pm, cs);
    SubtreeSizesOfRoots(pm, cs);
    DistinctCard(cs);
    assert Elements(cs) * comments.Keys == Elements(cs);
  }

  lemma {:induction false} ListedRepliesAllPresent(pm: ParentMap, cs: seq<Id>)
    requires Ranked(pm) && forall i :: 0 <= i < |cs| ==> cs[i] in pm
    ensures ListedReplies(pm, cs) == SubtreeSizes(pm, cs)
  {
    if cs != [] {
      ListedRepliesAllPresent(pm, cs[..|cs| - 1]);
    }
  }
}
