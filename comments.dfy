/** The comment service: adding a comment or reply under the caller's name,
    listing a post's comments as a forest of reply trees one page at a
    time, fetching one comment with every reply below it, and deleting a
    comment of one's own. */
module Comments {
  import opened Common
  import opened Query
  import opened Pagination
  import opened Entities
  import opened Storage
  import opened CommentTree

  // ---------------------------------------------------------------------
  // Adding a comment

  datatype AddPlan = AddRefused(message: string) | AddFailed(message: string) | AddProceed(comment: Comment)

  const AddFailure := "Something bad happened while adding a comment, try again later."

  /** The guards of AddComment in their order, and the comment it would store.
      A blank parent id skips the parent check, but the foreign key from a
      comment to its parent still rejects an id naming no stored comment:
      the insert throws, and the handler answers 500. */
  function PlanAdd(users: seq<User>, posts: seq<Post>, comments: seq<Comment>, username: Option<string>,
                   postId: string, content: string, parentCommentId: Option<string>, now: int, newId: string): AddPlan
  {
    match UserNamed(users, username)
    case None => AddRefused("Sorry! User does not exist, check and try again.")
    case Some(u) =>
      if PostWithId(posts, postId).None? then
        AddRefused("Sorry! Post does not exist, check and try again.")
      else if !IsNullOrWhiteSpace(parentCommentId) &&
              FirstIndex(comments, (c: Comment) => Some(c.id) == parentCommentId && c.postId == postId).None? then
        AddRefused("Parent comment not found, check and try again.")
      else if parentCommentId.Some? && CommentWithId(comments, parentCommentId.value).None? then
        AddFailed(AddFailure)
      else
        AddProceed(Comment(newId, parentCommentId, postId, users[u].id, content, now))
  }

  /** AddComment. The answer is 201 with the new comment whether or not
      the insert saved a row: the insert's count is not inspected. */
  method AddComment(db: Store, username: Option<string>, postId: string, content: string,
                    parentCommentId: Option<string>, now: int, newId: string) returns (r: Response<Comment>)
    requires db.Valid()
    requires forall k :: 0 <= k < |db.comments| ==> db.comments[k].id != newId
    requires forall k :: 0 <= k < |db.comments| ==> db.comments[k].parentCommentId != Some(newId)
    requires parentCommentId != Some(newId)
    modifies db`comments
    ensures db.Valid()
    ensures match PlanAdd(db.users, db.posts, old(db.comments), username, postId, content, parentCommentId, now, newId)
      case AddRefused(message) => r == Fail(NotFound, message) && db.comments == old(db.comments)
      case AddFailed(message) => r == Fail(InternalServerError, message) && db.comments == old(db.comments)
      case AddProceed(c) =>
        r == Ok(Created, "Comment added successfully", c) &&
        (db.comments == old(db.comments) + [c] || db.comments == old(db.comments))
  {
    ghost var plan := PlanAdd(db.users, db.posts, db.comments, username, postId, content, parentCommentId, now, newId);
    var u := UserNamed(db.users, username);
    if u.None? {
      return Fail(NotFound, "Sorry! User does not exist, check and try again.");
    }
    var user := db.users[u.value];
    var post := PostWithId(db.posts, postId);
    if post.None? {
      return Fail(NotFound, "Sorry! Post does not exist, check and try again.");
    }
    if !IsNullOrWhiteSpace(parentCommentId) {
      var parent := FirstIndex(db.comments, (c: Comment) => Some(c.id) == parentCommentId && c.postId == postId);
      if parent.None? {
        assert plan == AddRefused("Parent comment not found, check and try again.");
        return Fail(NotFound, "Parent comment not found, check and try again.");
      }
    }
    if parentCommentId.Some? && CommentWithId(db.comments, parentCommentId.value).None? {
      assert plan == AddFailed(AddFailure);
      return Fail(InternalServerError, AddFailure);
    }
    var comment := Comment(newId, parentCommentId, postId, user.id, content, now);
    assert plan == AddProceed(comment);
    var rows := db.AddComment(comment);
    return Ok(Created, "Comment added successfully", comment);
  }

  /** A comment is only stored for a known user and an existing post. */
  lemma AddNeedsUserAndPost(users: seq<User>, posts: seq<Post>, comments: seq<Comment>, username: Option<string>,
                            postId: string, content: string, parentCommentId: Option<string>, now: int, newId: string)
    requires PlanAdd(users, posts, comments, username, postId, content, parentCommentId, now, newId).AddProceed?
    ensures UserNamed(users, username).Some?
    ensures exists k :: 0 <= k < |posts| && posts[k].id == postId
  {
    var k := PostWithId(posts, postId).value;
  }

  /** What is stored: the caller's id, the request's post, content and
      parent id as given, the fresh id and now. */
  lemma AddStoresRequest(users: seq<User>, posts: seq<Post>, comments: seq<Comment>, username: Option<string>,
                         postId: string, content: string, parentCommentId: Option<string>, now: int, newId: string)
    requires PlanAdd(users, posts, comments, username, postId, content, parentCommentId, now, newId).AddProceed?
    ensures var c := PlanAdd(users, posts, comments, username, postId, content, parentCommentId, now, newId).comment;
      c.id == newId && c.postId == postId && c.content == content && c.parentCommentId == parentCommentId &&
      c.createdAt == now && Some(users[UserNamed(users, username).value].username) == username &&
      c.userId == users[UserNamed(users, username).value].id
  {
  }

  /** A reply names an existing comment of the same post, unless its
      parent id is blank, in which case the check is skipped. */
  lemma ReplyParentOnSamePost(users: seq<User>, posts: seq<Post>, comments: seq<Comment>, username: Option<string>,
                              postId: string, content: string, parentCommentId: Option<string>, now: int, newId: string)
    requires PlanAdd(users, posts, comments, username, postId, content, parentCommentId, now, newId).AddProceed?
    requires !IsNullOrWhiteSpace(parentCommentId)
    ensures exists k :: 0 <= k < |comments| && Some(comments[k].id) == parentCommentId && comments[k].postId == postId
  {
    var k := FirstIndex(comments, (c: Comment) => Some(c.id) == parentCommentId && c.postId == postId).value;
  }

  /** A stored comment's parent id, when it has one, names a comment that
      was stored before it: the parent check or the foreign key sees to it. */
  lemma AddedParentIsStored(users: seq<User>, posts: seq<Post>, comments: seq<Comment>, username: Option<string>,
                            postId: string, content: string, parentCommentId: Option<string>, now: int, newId: string)
    requires PlanAdd(users, posts, comments, username, postId, content, parentCommentId, now, newId).AddProceed?
    ensures parentCommentId.Some? ==> exists k :: 0 <= k < |comments| && comments[k].id == parentCommentId.value
  {
    if parentCommentId.Some? {
      var k := CommentWithId(comments, parentCommentId.value).value;
    }
  }

  /** A blank parent id naming no stored comment passes the parent check
      and fails at the foreign key: 500, once the user and the post were
      found. */
  lemma BlankParentFailsForeignKey(users: seq<User>, posts: seq<Post>, comments: seq<Comment>, username: Option<string>,
                                   postId: string, content: string, parent: string, now: int, newId: string)
    requires UserNamed(users, username).Some? && PostWithId(posts, postId).Some?
    requires IsNullOrWhiteSpace(Some(parent))
    requires forall k :: 0 <= k < |comments| ==> comments[k].id != parent
    ensures PlanAdd(users, posts, comments, username, postId, content, Some(parent), now, newId) == AddFailed(AddFailure)
  {
  }

  /** A parent id naming no comment of the post is refused with 404,
      once the user and the post were found. */
  lemma MissingParentRefused(users: seq<User>, posts: seq<Post>, comments: seq<Comment>, username: Option<string>,
                             postId: string, content: string, parentCommentId: Option<string>, now: int, newId: string)
    requires UserNamed(users, username).Some? && PostWithId(posts, postId).Some?
    requires parentCommentId.Some?
    requires forall k :: 0 <= k < |comments| ==> comments[k].id != parentCommentId.value || comments[k].postId != postId
    ensures !IsNullOrWhiteSpace(parentCommentId) <==>
            PlanAdd(users, posts, comments, username, postId, content, parentCommentId, now, newId)
              == AddRefused("Parent comment not found, check and try again.")
  {
  }

  // ---------------------------------------------------------------------
  // Deleting a comment

  datatype DeletePlan = DeleteRefused(message: string) | DeleteAt(index: nat)

  /** The guards of DeleteComment, and the row it would delete. */
  function PlanDelete(users: seq<User>, comments: seq<Comment>, commentId: string, username: Option<string>): DeletePlan
  {
    match UserNamed(users, username)
    case None => DeleteRefused("User not found")
    case Some(u) =>
      match FirstIndex(comments, (c: Comment) => c.id == commentId && c.userId == users[u].id)
      case None => DeleteRefused("Comment not found")
      case Some(k) => DeleteAt(k)
  }

  method DeleteComment(db: Store, commentId: string, username: Option<string>) returns (r: Response<bool>)
    requires db.Valid()
    modifies db`comments
    ensures db.Valid()
    ensures match PlanDelete(db.users, old(db.comments), commentId, username)
      case DeleteRefused(message) => r == Response(NotFound, message, Some(false)) && db.comments == old(db.comments)
      case DeleteAt(k) =>
        k < |old(db.comments)| &&
        ((r == Ok(OK, "Comment and replies deleted successfully", true) && db.comments == RemoveAt(old(db.comments), k)) ||
         (r == Ok(FailedDependency, "Sorry! We could not delete comment, try again.", false) &&
          db.comments == old(db.comments)))
  {
    var u := UserNamed(db.users, username);
    if u.None? {
      return Response(NotFound, "User not found", Some(false));
    }
    var user := db.users[u.value];
    var k := FirstIndex(db.comments, (c: Comment) => c.id == commentId && c.userId == user.id);
    if k.None? {
      return Response(NotFound, "Comment not found", Some(false));
    }
    var rows := db.DeleteComment(k.value);
    if rows < 1 {
      return Ok(FailedDependency, "Sorry! We could not delete comment, try again.", false);
    }
    return Ok(OK, "Comment and replies deleted successfully", true);
  }

  /** Only the author deletes: the row chosen has the requested id and
      belongs to the caller, and when the caller owns no comment with
      that id nothing is chosen. */
  lemma OnlyAuthorDeletes(users: seq<User>, comments: seq<Comment>, commentId: string, username: Option<string>)
    requires UserNamed(users, username).Some?
    ensures var me := users[UserNamed(users, username).value].id;
      match PlanDelete(users, comments, commentId, username)
      case DeleteRefused(_) => forall k :: 0 <= k < |comments| ==> comments[k].id != commentId || comments[k].userId != me
      case DeleteAt(k) => k < |comments| && comments[k].id == commentId && comments[k].userId == me
  {
  }

  /** Deleting removes exactly the chosen comment: with unique ids, no
      comment with that id is left and every other comment stays. */
  lemma DeleteRemovesOnlyThatComment(comments: seq<Comment>, k: nat)
    requires UniqueCommentIds(comments) && k < |comments|
    ensures forall j :: 0 <= j < |RemoveAt(comments, k)| ==> RemoveAt(comments, k)[j].id != comments[k].id
    ensures forall j :: 0 <= j < |comments| && j != k ==> comments[j] in RemoveAt(comments, k)
  {
    var r := RemoveAt(comments, k);
    forall j | 0 <= j < |comments| && j != k
      ensures comments[j] in r
    {
      if j < k {
        assert r[j] == comments[j];
      } else {
        assert r[j - 1] == comments[j];
      }
    }
  }

  // ---------------------------------------------------------------------
  // A post's comments, one page of reply trees

  function CreatedAt(c: Comment): int
  {
    c.createdAt
  }

  /** The post's comments, newest first. */
  function CommentQuery(comments: seq<Comment>, postId: string): (r: seq<Comment>)
    ensures multiset(r) <= multiset(comments)
    ensures forall i :: 0 <= i < |r| ==> r[i].postId == postId
    ensures SortedDesc(r, CreatedAt)
  {
    var keep := (c: Comment) => c.postId == postId;
    WhereOrdered(comments, keep, CreatedAt);
    SortDesc(Filter(comments, keep), CreatedAt)
  }

  /** Every comment of the page is a stored comment. */
  ghost predicate FromTable(page: seq<Comment>, comments: seq<Comment>)
  {
    forall k :: 0 <= k < |page| ==> page[k] in comments
  }

  /** Distinct stored comments have distinct ids. */
  lemma DistinctRowsHaveUniqueIds(comments: seq<Comment>, page: seq<Comment>)
    requires UniqueCommentIds(comments) && FromTable(page, comments) && Distinct(page)
    ensures UniqueCommentIds(page)
  {
  }

  /** The page of a post's comments: stored comments of that post, each
      once, so with distinct ids. */
  lemma CommentPageFromTable(comments: seq<Comment>, postId: string, pageNumber: int, pageSize: int)
    requires UniqueCommentIds(comments) && pageNumber >= 1 && pageSize > 0
    ensures var page := GetPaged(CommentQuery(comments, postId), pageNumber, pageSize).results;
      FromTable(page, comments) && UniqueCommentIds(page) &&
      forall k :: 0 <= k < |page| ==> page[k].postId == postId
  {
    var query := CommentQuery(comments, postId);
    var page := GetPaged(query, pageNumber, pageSize).results;
    DistinctSub(query, comments);
    PageDistinct(query, pageNumber, pageSize);
    PageWithin(query, pageNumber, pageSize);
    forall k | 0 <= k < |page|
      ensures page[k] in comments && page[k].postId == postId
    {
      assert page[k] in multiset(query);
      var i :| 0 <= i < |query| && query[i] == page[k];
    }
    DistinctRowsHaveUniqueIds(comments, page);
  }

  /** The storage position of each comment of the page: an order in which
      every parent comes before its replies. */
  ghost function StoreRanks(comments: seq<Comment>, page: seq<Comment>): (rank: seq<nat>)
    requires FromTable(page, comments)
    ensures |rank| == |page|
    ensures forall k :: 0 <= k < |page| ==> rank[k] < |comments| && comments[rank[k]].id == page[k].id
  {
    seq(|page|, k requires 0 <= k < |page| => CommentWithId(comments, page[k].id).value)
  }

  lemma PageRanked(comments: seq<Comment>, page: seq<Comment>)
    requires UniqueCommentIds(comments) && ParentOrdered(comments) && FromTable(page, comments)
    ensures Ranked(ReplyTable(page), StoreRanks(comments, page), |comments|, |page|)
  {
    var rank := StoreRanks(comments, page);
    forall p, q | 0 <= p < |page| && 0 <= q < |page| && page[q].parentCommentId == Some(page[p].id)
      ensures rank[p] < rank[q]
    {
      var a :| 0 <= a < |comments| && comments[a] == page[q];
      assert a == rank[q];
    }
    ReplyTableRanked(page, rank, |comments|);
  }

  /** The like count of every comment of the page. */
  ghost function PageLikeCounts(likes: seq<PostLike>, page: seq<Comment>): (counts: seq<int>)
    ensures |counts| == |page|
  {
    seq(|page|, k requires 0 <= k < |page| => CommentLikeCount(likes, page[k].id))
  }

  /** The results of GetPostComments: the trees of the page's parentless
      comments, in page order, each reply under its parent when the
      parent is on the page, every node with its like count. */
  ghost function CommentForest(comments: seq<Comment>, likes: seq<PostLike>, page: seq<Comment>): seq<CommentNode>
    requires UniqueCommentIds(comments) && ParentOrdered(comments) && FromTable(page, comments)
  {
    PageRanked(comments, page);
    Forest(page, ReplyTable(page), PageLikeCounts(likes, page), StoreRanks(comments, page), |comments|, RootsIn(page, |page|))
  }

  /** `ToDictionary(c => c.Id)`: each id of the page to its position. */
  method IndexById(page: seq<Comment>) returns (index: map<string, nat>)
    requires UniqueCommentIds(page)
    ensures IndexOf(index, page)
  {
    index := map[];
    var k := 0;
    while k < |page|
      invariant k <= |page|
      invariant forall j :: 0 <= j < k ==> page[j].id in index && index[page[j].id] == j
      invariant forall id :: id in index ==> index[id] < k && page[index[id]].id == id
    {
      index := index[page[k].id := k];
      k := k + 1;
    }
  }

  lemma ChildrenStep(cs: seq<Comment>, id: string, n: nat)
    requires n < |cs|
    ensures ChildrenIn(cs, id, n + 1) == ChildrenIn(cs, id, n) + (if cs[n].parentCommentId == Some(id) then [n] else [])
  {
  }

  /** For each comment of the page, its replies among the first n. */
  function RepliesAmong(page: seq<Comment>, n: nat): (kids: seq<seq<nat>>)
    requires n <= |page|
    ensures |kids| == |page|
    ensures forall p :: 0 <= p < |page| ==> kids[p] == ChildrenIn(page, page[p].id, n)
  {
    seq(|page|, p requires 0 <= p < |page| => ChildrenIn(page, page[p].id, n))
  }

  /** index maps each id of the page to its position. */
  ghost predicate IndexOf(index: map<string, nat>, page: seq<Comment>)
  {
    (forall k :: 0 <= k < |page| ==> page[k].id in index && index[page[k].id] == k) &&
    (forall id :: id in index ==> index[id] < |page| && page[index[id]].id == id)
  }

  lemma NoRepliesYet(page: seq<Comment>, kids: seq<seq<nat>>)
    requires |kids| == |page| && forall p :: 0 <= p < |page| ==> kids[p] == []
    ensures kids == RepliesAmong(page, 0)
  {
  }

  lemma AllRepliesAttached(page: seq<Comment>, kids: seq<seq<nat>>)
    requires kids == RepliesAmong(page, |page|)
    ensures kids == ReplyTable(page)
  {
  }

  /** `TryGetValue` succeeding: the position of the comment with that id. */
  function InIndex(index: map<string, nat>, page: seq<Comment>, id: string): (p: nat)
    requires IndexOf(index, page) && id in index
    ensures p < |page| && page[p].id == id
  {
    index[id]
  }

  /** `TryGetValue` failing: no comment of the page has that id. */
  lemma NotInIndex(index: map<string, nat>, page: seq<Comment>, parent: Option<string>)
    requires IndexOf(index, page)
    requires parent.None? || parent.value !in index
    ensures forall p :: 0 <= p < |page| ==> parent != Some(page[p].id)
  {
  }

  /** One step of the attaching loop for a comment whose parent is at p0. */
  lemma AttachUnder(page: seq<Comment>, kids: seq<seq<nat>>, k: nat, p0: nat)
    requires UniqueCommentIds(page) && k < |page| && p0 < |page| && |kids| == |page|
    requires kids == RepliesAmong(page, k)
    requires page[k].parentCommentId == Some(page[p0].id)
    ensures kids[p0 := kids[p0] + [k]] == RepliesAmong(page, k + 1)
  {
    forall p | 0 <= p < |page|
      ensures kids[p0 := kids[p0] + [k]][p] == ChildrenIn(page, page[p].id, k + 1)
    {
      ChildrenStep(page, page[p].id, k);
      if p != p0 {
        assert page[p].id != page[p0].id;
      }
    }
  }

  /** One step of the attaching loop for a comment whose parent is not on the page. */
  lemma AttachNowhere(page: seq<Comment>, kids: seq<seq<nat>>, k: nat)
    requires k < |page| && |kids| == |page|
    requires kids == RepliesAmong(page, k)
    requires forall p :: 0 <= p < |page| ==> page[k].parentCommentId != Some(page[p].id)
    ensures kids == RepliesAmong(page, k + 1)
  {
    forall p | 0 <= p < |page|
      ensures kids[p] == ChildrenIn(page, page[p].id, k + 1)
    {
      ChildrenStep(page, page[p].id, k);
    }
  }

  /** One turn of the attaching loop: the comment at k is added to the
      replies of its parent when the parent is on the page. */
  method AttachOne(page: seq<Comment>, index: map<string, nat>, kids: seq<seq<nat>>, k: nat)
    returns (kids': seq<seq<nat>>)
    requires UniqueCommentIds(page) && IndexOf(index, page)
    requires k < |page| && kids == RepliesAmong(page, k)
    ensures kids' == RepliesAmong(page, k + 1)
  {
    var parent := page[k].parentCommentId;
    if parent.Some? && parent.value in index {
      var p0 := InIndex(index, page, parent.value);
      AttachUnder(page, kids, k, p0);
      kids' := kids[p0 := kids[p0] + [k]];
    } else {
      NotInIndex(index, page, parent);
      AttachNowhere(page, kids, k);
      kids' := kids;
    }
  }

  /** The attaching loop: each comment whose parent is on the page is
      added to that parent's replies, in page order. */
  method AttachReplies(page: seq<Comment>, index: map<string, nat>) returns (kids: seq<seq<nat>>)
    requires UniqueCommentIds(page)
    requires IndexOf(index, page)
    ensures kids == RepliesAmong(page, |page|)
  {
    kids := seq(|page|, p => []);
    NoRepliesYet(page, kids);
    var k := 0;
    while k < |page|
      invariant k <= |page| && |kids| == |page|
      invariant kids == RepliesAmong(page, k)
    {
      kids := AttachOne(page, index, kids, k);
      k := k + 1;
    }
  }

  /** The like-count loop over the page's nodes. */
  method CountLikes(page: seq<Comment>, likes: seq<PostLike>) returns (counts: seq<int>)
    ensures counts == PageLikeCounts(likes, page)
  {
    counts := [];
    var k := 0;
    while k < |page|
      invariant k <= |page| && |counts| == k
      invariant forall j :: 0 <= j < k ==> counts[j] == CommentLikeCount(likes, page[j].id)
    {
      counts := counts + [CommentLikeCount(likes, page[k].id)];
      k := k + 1;
    }
  }

  method GetPostComments(db: Store, postId: string, pageNumber: int, pageSize: int)
    returns (r: Response<PagedResult<CommentNode>>)
    requires db.Valid() && pageNumber >= 1 && pageSize > 0
    ensures PostWithId(db.posts, postId).None? ==> r == Fail(NotFound, "Post does not exist, check and try again.")
    ensures PostWithId(db.posts, postId).Some? ==>
      var page := GetPaged(CommentQuery(db.comments, postId), pageNumber, pageSize);
      FromTable(page.results, db.comments) &&
      r == Ok(OK, "Comments fetched successfully", WithResults(page, CommentForest(db.comments, db.likes, page.results)))
  {
    var post := PostWithId(db.posts, postId);
    if post.None? {
      return Fail(NotFound, "Post does not exist, check and try again.");
    }
    var page := GetPaged(CommentQuery(db.comments, postId), pageNumber, pageSize);
    CommentPageFromTable(db.comments, postId, pageNumber, pageSize);
    var index := IndexById(page.results);
    var kids := AttachReplies(page.results, index);
    AllRepliesAttached(page.results, kids);
    var roots := RootsIn(page.results, |page.results|);
    var counts := CountLikes(page.results, db.likes);
    ghost var rank := StoreRanks(db.comments, page.results);
    PageRanked(db.comments, page.results);
    var trees := Forest(page.results, kids, counts, rank, |db.comments|, roots);
    return Ok(OK, "Comments fetched successfully", WithResults(page, trees));
  }

  // ---------------------------------------------------------------------
  // Properties of the page forest

  /** Some comment of the page without a parent has this id. */
  ghost predicate ParentlessOnPage(page: seq<Comment>, id: string)
  {
    exists k :: 0 <= k < |page| && page[k].id == id && page[k].parentCommentId == None
  }

  /** Each tree of the forest is headed by a parentless comment of the page. */
  lemma ForestRootsAreParentless(comments: seq<Comment>, likes: seq<PostLike>, page: seq<Comment>)
    requires UniqueCommentIds(comments) && ParentOrdered(comments) && FromTable(page, comments)
    ensures var f := CommentForest(comments, likes, page);
      forall i :: 0 <= i < |f| ==> ParentlessOnPage(page, f[i].commentId)
  {
    var f := CommentForest(comments, likes, page);
    var roots := RootsIn(page, |page|);
    PageRanked(comments, page);
    assert f == Forest(page, ReplyTable(page), PageLikeCounts(likes, page), StoreRanks(comments, page), |comments|, roots);
    forall i | 0 <= i < |f|
      ensures ParentlessOnPage(page, f[i].commentId)
    {
      assert roots[i] < |page| && page[roots[i]].id == f[i].commentId && page[roots[i]].parentCommentId == None;
    }
  }

  /** The comment with id x comes before the comment with id y on the page. */
  ghost predicate Before(page: seq<Comment>, x: string, y: string)
  {
    exists a, b :: 0 <= a < b < |page| && page[a].id == x && page[b].id == y
  }

  /** The trees come in page order. */
  lemma ForestInPageOrder(comments: seq<Comment>, likes: seq<PostLike>, page: seq<Comment>)
    requires UniqueCommentIds(comments) && ParentOrdered(comments) && FromTable(page, comments)
    ensures var f := CommentForest(comments, likes, page);
      forall i, j :: 0 <= i < j < |f| ==> Before(page, f[i].commentId, f[j].commentId)
  {
    var f := CommentForest(comments, likes, page);
    var roots := RootsIn(page, |page|);
    PageRanked(comments, page);
    assert f == Forest(page, ReplyTable(page), PageLikeCounts(likes, page), StoreRanks(comments, page), |comments|, roots);
    forall i, j | 0 <= i < j < |f|
      ensures Before(page, f[i].commentId, f[j].commentId)
    {
      assert roots[i] < roots[j] < |page| && f[i].commentId == page[roots[i]].id && f[j].commentId == page[roots[j]].id;
    }
  }

  /** Some tree of the forest is headed by this id. */
  predicate HeadsTree(f: seq<CommentNode>, id: string)
  {
    exists i :: 0 <= i < |f| && f[i].commentId == id
  }

  /** Every parentless comment of the page heads a tree of the forest. */
  lemma ParentlessAreRoots(comments: seq<Comment>, likes: seq<PostLike>, page: seq<Comment>)
    requires UniqueCommentIds(comments) && ParentOrdered(comments) && FromTable(page, comments)
    ensures forall k :: 0 <= k < |page| && page[k].parentCommentId == None ==>
              HeadsTree(CommentForest(comments, likes, page), page[k].id)
  {
    var f := CommentForest(comments, likes, page);
    var roots := RootsIn(page, |page|);
    PageRanked(comments, page);
    assert f == Forest(page, ReplyTable(page), PageLikeCounts(likes, page), StoreRanks(comments, page), |comments|, roots);
    forall k | 0 <= k < |page| && page[k].parentCommentId == None
      ensures HeadsTree(f, page[k].id)
    {
      assert k in roots;
      var i :| 0 <= i < |roots| && roots[i] == k;
      assert f[i] == Tree(page, ReplyTable(page), PageLikeCounts(likes, page), StoreRanks(comments, page), |comments|, k);
      assert f[i].commentId == page[k].id;
    }
  }

  /** A reply whose parent is not on the page appears in no tree. */
  lemma OffPageReplyDropped(comments: seq<Comment>, likes: seq<PostLike>, page: seq<Comment>, q: nat)
    requires UniqueCommentIds(comments) && ParentOrdered(comments) && FromTable(page, comments)
    requires UniqueCommentIds(page)
    requires q < |page| && page[q].parentCommentId.Some?
    requires forall p :: 0 <= p < |page| ==> page[q].parentCommentId != Some(page[p].id)
    ensures forall i :: 0 <= i < |CommentForest(comments, likes, page)| ==>
              !Contains(CommentForest(comments, likes, page)[i], page[q].id)
  {
    var f := CommentForest(comments, likes, page);
    var roots := RootsIn(page, |page|);
    PageRanked(comments, page);
    forall i | 0 <= i < |f|
      ensures !Contains(f[i], page[q].id)
    {
      OrphanAppearsNowhere(page, PageLikeCounts(likes, page), StoreRanks(comments, page), |comments|, roots[i], q);
    }
  }

  /** Every node of every tree carries the number of likes of its comment. */
  lemma ForestLikeCounts(comments: seq<Comment>, likes: seq<PostLike>, page: seq<Comment>)
    requires UniqueCommentIds(comments) && ParentOrdered(comments) && FromTable(page, comments)
    ensures forall i :: 0 <= i < |CommentForest(comments, likes, page)| ==>
              AllCounted(CommentForest(comments, likes, page)[i], id => CommentLikeCount(likes, id))
  {
    var f := CommentForest(comments, likes, page);
    var roots := RootsIn(page, |page|);
    PageRanked(comments, page);
    forall i | 0 <= i < |f|
      ensures AllCounted(f[i], id => CommentLikeCount(likes, id))
    {
      TreeCounted(page, ReplyTable(page), PageLikeCounts(likes, page), StoreRanks(comments, page), |comments|,
                  roots[i], id => CommentLikeCount(likes, id));
    }
  }

  // ---------------------------------------------------------------------
  // One comment with every reply below it

  /** The replies of the stored comment at i: the comments whose parent
      is its id, in storage order. */
  function RepliesOf(cs: seq<Comment>, i: nat): (r: seq<nat>)
    requires i < |cs| && ParentOrdered(cs)
    ensures forall m :: 0 <= m < |r| ==> i < r[m] < |cs| && cs[r[m]].parentCommentId == Some(cs[i].id)
    ensures forall j :: 0 <= j < |cs| && cs[j].parentCommentId == Some(cs[i].id) ==> j in r
  {
    ChildrenIn(cs, cs[i].id, |cs|)
  }

  function Zeros(n: nat): (r: seq<int>)
    ensures |r| == n && forall k :: 0 <= k < n ==> r[k] == 0
  {
    seq(n, k => 0)
  }

  ghost function Identity(n: nat): (r: seq<nat>)
    ensures |r| == n && forall k :: 0 <= k < n ==> r[k] == k
  {
    seq(n, k => k)
  }

  /** The stored reply relation below the comment at i, unfolded into a
      tree whose like counts are all 0. */
  ghost function ReplyTree(cs: seq<Comment>, i: nat): CommentNode
    requires ParentOrdered(cs) && i < |cs|
  {
    ReplyTableRanked(cs, Identity(|cs|), |cs|);
    Tree(cs, ReplyTable(cs), Zeros(|cs|), Identity(|cs|), |cs|, i)
  }

  /** Number of nodes of the reply tree of i. */
  ghost function Size(cs: seq<Comment>, i: nat): nat
    requires ParentOrdered(cs) && i < |cs|
    decreases |cs| - i, 1
  {
    1 + SumSize(cs, RepliesOf(cs, i), i)
  }

  /** Total number of nodes of the reply trees of the positions js, all after lo. */
  ghost function SumSize(cs: seq<Comment>, js: seq<nat>, lo: nat): nat
    requires ParentOrdered(cs) && forall m :: 0 <= m < |js| ==> lo < js[m] < |cs|
    decreases |cs| - lo, 0, |js|
  {
    if js == [] then 0 else SumSize(cs, js[..|js| - 1], lo) + Size(cs, js[|js| - 1])
  }

  /** The nodes still to be expanded: the sizes of the trees of the stacked nodes. */
  ghost function StackWeight(cs: seq<Comment>, at: seq<nat>, stack: seq<nat>): nat
    requires ParentOrdered(cs) && forall a :: 0 <= a < |at| ==> at[a] < |cs|
    requires forall k :: 0 <= k < |stack| ==> stack[k] < |at|
  {
    if stack == [] then 0 else StackWeight(cs, at, stack[..|stack| - 1]) + Size(cs, at[stack[|stack| - 1]])
  }

  /** The positions n, n + 1, ..., n + len - 1. */
  function Span(n: nat, len: nat): (r: seq<nat>)
    ensures |r| == len && forall t :: 0 <= t < len ==> r[t] == n + t
  {
    seq(len, t => n + t)
  }

  /** Arena node a, standing for stored comment at[a], holds as children
      nodes standing for exactly the replies rt[at[a]] of that comment, in
      order (rt is the reply table of the stored comments). */
  ghost predicate Expanded(rt: seq<seq<nat>>, at: seq<nat>, kids: seq<seq<nat>>, a: nat)
    requires a < |at| && a < |kids| && at[a] < |rt|
    requires forall m :: 0 <= m < |kids[a]| ==> kids[a][m] < |at|
  {
    |kids[a]| == |rt[at[a]]| && forall m :: 0 <= m < |kids[a]| ==> at[kids[a][m]] == rt[at[a]][m]
  }

  /** The node graph the traversal builds, as an arena: node a stands for
      stored comment at[a] and holds the nodes kids[a] as replies; node 0
      is the requested comment; the stacked nodes are those not yet
      expanded, and every other node is expanded. */
  ghost predicate Arena(rt: seq<seq<nat>>, root: nat, at: seq<nat>, kids: seq<seq<nat>>, stack: seq<nat>)
  {
    root < |rt| && |at| == |kids| && |at| >= 1 && at[0] == root &&
    (forall a :: 0 <= a < |at| ==> at[a] < |rt|) &&
    (forall a, m :: 0 <= a < |at| && 0 <= m < |kids[a]| ==> a < kids[a][m] < |at|) &&
    (forall k :: 0 <= k < |stack| ==> stack[k] < |at|) &&
    (forall i, j :: 0 <= i < j < |stack| ==> stack[i] < stack[j]) &&
    (forall a :: 0 <= a < |at| && a in stack ==> kids[a] == []) &&
    (forall a :: 0 <= a < |at| && a !in stack ==> Expanded(rt, at, kids, a))
  }

  lemma {:induction false} StackWeightArenaGrows(cs: seq<Comment>, at: seq<nat>, more: seq<nat>, stack: seq<nat>)
    requires ParentOrdered(cs) && forall a :: 0 <= a < |at + more| ==> (at + more)[a] < |cs|
    requires forall a :: 0 <= a < |at| ==> at[a] < |cs|
    requires forall k :: 0 <= k < |stack| ==> stack[k] < |at|
    ensures StackWeight(cs, at + more, stack) == StackWeight(cs, at, stack)
  {
    if stack != [] {
      StackWeightArenaGrows(cs, at, more, stack[..|stack| - 1]);
      assert (at + more)[stack[|stack| - 1]] == at[stack[|stack| - 1]];
    }
  }

  /** Pushing new nodes for the stored comments js keeps the arena and
      the stack within bounds. */
  lemma PushedBounds(cs: seq<Comment>, at: seq<nat>, stack: seq<nat>, js: seq<nat>)
    requires forall a :: 0 <= a < |at| ==> at[a] < |cs|
    requires forall k :: 0 <= k < |stack| ==> stack[k] < |at|
    requires forall k :: 0 <= k < |js| ==> js[k] < |cs|
    ensures forall a :: 0 <= a < |at + js| ==> (at + js)[a] < |cs|
    ensures forall k :: 0 <= k < |stack + Span(|at|, |js|)| ==> (stack + Span(|at|, |js|))[k] < |at + js|
  {
  }

  lemma StackWeightPush(cs: seq<Comment>, at: seq<nat>, stack: seq<nat>, b: nat)
    requires ParentOrdered(cs) && forall a :: 0 <= a < |at| ==> at[a] < |cs|
    requires forall k :: 0 <= k < |stack| ==> stack[k] < |at|
    requires b < |at|
    ensures StackWeight(cs, at, stack + [b]) == StackWeight(cs, at, stack) + Size(cs, at[b])
  {
    assert (stack + [b])[..|stack|] == stack;
  }

  /** Pushing new nodes for the stored comments js adds the sizes of their trees. */
  lemma {:induction false} PushedWeight(cs: seq<Comment>, at: seq<nat>, stack: seq<nat>, js: seq<nat>, lo: nat)
    requires ParentOrdered(cs) && forall a :: 0 <= a < |at| ==> at[a] < |cs|
    requires forall k :: 0 <= k < |stack| ==> stack[k] < |at|
    requires forall k :: 0 <= k < |js| ==> lo < js[k] < |cs|
    requires forall a :: 0 <= a < |at + js| ==> (at + js)[a] < |cs|
    requires forall k :: 0 <= k < |stack + Span(|at|, |js|)| ==> (stack + Span(|at|, |js|))[k] < |at + js|
    ensures StackWeight(cs, at + js, stack + Span(|at|, |js|)) == StackWeight(cs, at, stack) + SumSize(cs, js, lo)
    decreases |js|
  {
    if js == [] {
      assert at + js == at && stack + Span(|at|, |js|) == stack;
    } else {
      var n := |js| - 1;
      var init := js[..n];
      PushedBounds(cs, at, stack, init);
      PushedWeight(cs, at, stack, init, lo);
      PushedOneMore(at, stack, js);
      PushOneWeight(cs, at + init, stack + Span(|at|, n), js[n]);
    }
  }

  lemma PushedOneMore(at: seq<nat>, stack: seq<nat>, js: seq<nat>)
    requires |js| > 0
    ensures at + js == (at + js[..|js| - 1]) + [js[|js| - 1]]
    ensures stack + Span(|at|, |js|) == (stack + Span(|at|, |js| - 1)) + [|at + js[..|js| - 1]|]
  {
    assert js == js[..|js| - 1] + [js[|js| - 1]];
  }

  /** Pushing one new node for the stored comment j adds the size of its tree. */
  lemma PushOneWeight(cs: seq<Comment>, at: seq<nat>, stack: seq<nat>, j: nat)
    requires ParentOrdered(cs) && forall a :: 0 <= a < |at| ==> at[a] < |cs|
    requires forall k :: 0 <= k < |stack| ==> stack[k] < |at|
    requires j < |cs|
    ensures StackWeight(cs, at + [j], stack + [|at|]) == StackWeight(cs, at, stack) + Size(cs, j)
  {
    StackWeightArenaGrows(cs, at, [j], stack);
    StackWeightPush(cs, at + [j], stack, |at|);
  }

  /** The inner loop: one new node per reply rs of the comment of node
      a, each added to a's replies and pushed. */
  method PushReplies(cs: seq<Comment>, at: seq<nat>, kids: seq<seq<nat>>, stack: seq<nat>, a: nat, rs: seq<nat>)
    returns (at': seq<nat>, kids': seq<seq<nat>>, stack': seq<nat>)
    requires ParentOrdered(cs) && a < |at| == |kids| && kids[a] == []
    requires forall b :: 0 <= b < |at| ==> at[b] < |cs|
    requires forall k :: 0 <= k < |stack| ==> stack[k] < |at|
    requires forall k :: 0 <= k < |rs| ==> at[a] < rs[k] < |cs|
    ensures at' == at + rs && |kids'| == |at'| && kids'[a] == Span(|at|, |rs|)
    ensures forall b :: 0 <= b < |at| && b != a ==> kids'[b] == kids[b]
    ensures forall b :: |at| <= b < |at'| ==> kids'[b] == []
    ensures stack' == stack + Span(|at|, |rs|)
    ensures forall b :: 0 <= b < |at'| ==> at'[b] < |cs|
    ensures forall k :: 0 <= k < |stack'| ==> stack'[k] < |at'|
  {
    at', kids', stack' := at, kids, stack;
    var m := 0;
    while m < |rs|
      invariant m <= |rs|
      invariant at' == at + rs[..m] && |kids'| == |at'|
      invariant kids'[a] == Span(|at|, m)
      invariant forall b :: 0 <= b < |at| && b != a ==> kids'[b] == kids[b]
      invariant forall b :: |at| <= b < |at'| ==> kids'[b] == []
      invariant stack' == stack + Span(|at|, m)
      invariant forall b :: 0 <= b < |at'| ==> at'[b] < |cs|
      invariant forall k :: 0 <= k < |stack'| ==> stack'[k] < |at'|
    {
      var b := |at'|;
      assert rs[..m + 1] == rs[..m] + [rs[m]];
      assert Span(|at|, m + 1) == Span(|at|, m) + [b];
      at' := at' + [rs[m]];
      kids' := kids'[a := kids'[a] + [b]] + [[]];
      stack' := stack' + [b];
      m := m + 1;
    }
    assert rs[..m] == rs;
  }

  /** One turn of the stack loop lowers the number of nodes still to be
      expanded: the popped node's subtree is replaced by its replies'. */
  lemma ExpandWeight(cs: seq<Comment>, at0: seq<nat>, stack0: seq<nat>, rs: seq<nat>, at: seq<nat>, stack: seq<nat>)
    requires ParentOrdered(cs) && forall a :: 0 <= a < |at0| ==> at0[a] < |cs|
    requires forall k :: 0 <= k < |stack0| ==> stack0[k] < |at0|
    requires |stack0| > 0 && forall k :: 0 <= k < |rs| ==> at0[stack0[|stack0| - 1]] < rs[k] < |cs|
    requires Size(cs, at0[stack0[|stack0| - 1]]) == 1 + SumSize(cs, rs, at0[stack0[|stack0| - 1]])
    requires at == at0 + rs && stack == stack0[..|stack0| - 1] + Span(|at0|, |rs|)
    requires forall a :: 0 <= a < |at| ==> at[a] < |cs|
    requires forall k :: 0 <= k < |stack| ==> stack[k] < |at|
    ensures StackWeight(cs, at, stack) < StackWeight(cs, at0, stack0)
  {
    PushedWeight(cs, at0, stack0[..|stack0| - 1], rs, at0[stack0[|stack0| - 1]]);
  }

  /** After one turn the stack is still increasing, and holds exactly the
      old nodes it held below the popped one plus all the new nodes. */
  lemma ExpandStack(at0: seq<nat>, stack0: seq<nat>, n: nat, stack: seq<nat>)
    requires forall k :: 0 <= k < |stack0| ==> stack0[k] < |at0|
    requires forall i, j :: 0 <= i < j < |stack0| ==> stack0[i] < stack0[j]
    requires |stack0| > 0 && stack == stack0[..|stack0| - 1] + Span(|at0|, n)
    ensures forall k :: 0 <= k < |stack| ==> stack[k] < |at0| + n
    ensures forall i, j :: 0 <= i < j < |stack| ==> stack[i] < stack[j]
    ensures stack0[|stack0| - 1] !in stack
    ensures forall b :: 0 <= b < |at0| && b != stack0[|stack0| - 1] ==> (b in stack <==> b in stack0)
    ensures forall b :: |at0| <= b < |at0| + n ==> b in stack
  {
    var stack1 := stack0[..|stack0| - 1];
    forall b | |at0| <= b < |at0| + n
      ensures b in stack
    {
      assert stack[|stack1| + b - |at0|] == b;
    }
  }

  /** One turn of the stack loop keeps the arena invariant. */
  lemma ExpandStep(rt: seq<seq<nat>>, root: nat, at0: seq<nat>, kids0: seq<seq<nat>>, stack0: seq<nat>, a: nat,
                   at: seq<nat>, kids: seq<seq<nat>>, stack: seq<nat>)
    requires Arena(rt, root, at0, kids0, stack0) && |stack0| > 0 && a == stack0[|stack0| - 1]
    requires forall k :: 0 <= k < |rt[at0[a]]| ==> rt[at0[a]][k] < |rt|
    requires at == at0 + rt[at0[a]] && |kids| == |at| && kids[a] == Span(|at0|, |rt[at0[a]]|)
    requires forall b :: 0 <= b < |at0| && b != a ==> kids[b] == kids0[b]
    requires forall b :: |at0| <= b < |at| ==> kids[b] == []
    requires stack == stack0[..|stack0| - 1] + Span(|at0|, |rt[at0[a]]|)
    ensures Arena(rt, root, at, kids, stack)
  {
    ExpandStack(at0, stack0, |rt[at0[a]]|, stack);
    ExpandKids(at0, kids0, a, |rt[at0[a]]|, kids);
    ExpandKeepsExpanded(rt, at0, kids0, stack0, a, at, kids, stack);
  }

  lemma ExpandKids(at0: seq<nat>, kids0: seq<seq<nat>>, a: nat, n: nat, kids: seq<seq<nat>>)
    requires |kids0| == |at0| && a < |at0|
    requires forall b, m :: 0 <= b < |at0| && 0 <= m < |kids0[b]| ==> b < kids0[b][m] < |at0|
    requires |kids| == |at0| + n && kids[a] == Span(|at0|, n)
    requires forall b :: 0 <= b < |at0| && b != a ==> kids[b] == kids0[b]
    requires forall b :: |at0| <= b < |kids| ==> kids[b] == []
    ensures forall b, m :: 0 <= b < |kids| && 0 <= m < |kids[b]| ==> b < kids[b][m] < |kids|
  {
  }

  lemma ExpandKeepsExpanded(rt: seq<seq<nat>>, at0: seq<nat>, kids0: seq<seq<nat>>, stack0: seq<nat>, a: nat,
                            at: seq<nat>, kids: seq<seq<nat>>, stack: seq<nat>)
    requires |kids0| == |at0| && a < |at0| && forall b :: 0 <= b < |at0| ==> at0[b] < |rt|
    requires forall b, m :: 0 <= b < |at0| && 0 <= m < |kids0[b]| ==> kids0[b][m] < |at0|
    requires forall b :: 0 <= b < |at0| && b !in stack0 ==> Expanded(rt, at0, kids0, b)
    requires at == at0 + rt[at0[a]] && |kids| == |at| && kids[a] == Span(|at0|, |rt[at0[a]]|)
    requires forall b :: 0 <= b < |at| ==> at[b] < |rt|
    requires forall b :: 0 <= b < |at0| && b != a ==> kids[b] == kids0[b]
    requires forall b, m :: 0 <= b < |kids| && 0 <= m < |kids[b]| ==> kids[b][m] < |kids|
    requires a !in stack && forall b :: 0 <= b < |at0| && b != a ==> (b in stack <==> b in stack0)
    requires forall b :: |at0| <= b < |at| ==> b in stack
    ensures forall b :: 0 <= b < |at| && b !in stack ==> Expanded(rt, at, kids, b)
  {
    forall b | 0 <= b < |at| && b !in stack
      ensures Expanded(rt, at, kids, b)
    {
      if b != a {
        assert Expanded(rt, at0, kids0, b);
      }
    }
  }

  /** The stored comments the arena nodes stand for. */
  function Stored(cs: seq<Comment>, at: seq<nat>): (r: seq<Comment>)
    requires forall a :: 0 <= a < |at| ==> at[a] < |cs|
    ensures |r| == |at| && forall a :: 0 <= a < |at| ==> r[a] == cs[at[a]]
  {
    seq(|at|, a requires 0 <= a < |at| => cs[at[a]])
  }

  lemma ArenaRanked(rt: seq<seq<nat>>, root: nat, at: seq<nat>, kids: seq<seq<nat>>, stack: seq<nat>)
    requires Arena(rt, root, at, kids, stack)
    ensures Ranked(kids, Identity(|at|), |at|, |at|)
  {
  }

  /** Once every node is expanded, the tree the arena spells out from node
      a is the stored reply tree of the comment a stands for. */
  lemma {:induction false} ArenaSpellsReplyTree(cs: seq<Comment>, root: nat, at: seq<nat>, kids: seq<seq<nat>>, a: nat)
    requires ParentOrdered(cs) && Arena(ReplyTable(cs), root, at, kids, []) && a < |at|
    requires Ranked(kids, Identity(|at|), |at|, |at|)
    ensures Tree(Stored(cs, at), kids, Zeros(|at|), Identity(|at|), |at|, a) == ReplyTree(cs, at[a])
    decreases |at| - a
  {
    ReplyTableRanked(cs, Identity(|cs|), |cs|);
    var t1 := Tree(Stored(cs, at), kids, Zeros(|at|), Identity(|at|), |at|, a);
    var t2 := Tree(cs, ReplyTable(cs), Zeros(|cs|), Identity(|cs|), |cs|, at[a]);
    assert Expanded(ReplyTable(cs), at, kids, a);
    forall m | 0 <= m < |kids[a]|
      ensures t1.replies[m] == t2.replies[m]
    {
      ArenaSpellsReplyTree(cs, root, at, kids, kids[a][m]);
    }
    assert t1 == t2;
  }

  /** The stack loop of GetCommentWithReplies, from the stored comment at root. */
  method ExpandReplies(cs: seq<Comment>, root: nat) returns (t: CommentNode)
    requires ParentOrdered(cs) && root < |cs|
    ensures t == ReplyTree(cs, root)
  {
    ghost var rt := ReplyTable(cs);
    var at: seq<nat> := [root];
    var kids: seq<seq<nat>> := [[]];
    var stack: seq<nat> := [0];
    while |stack| > 0
      invariant Arena(rt, root, at, kids, stack)
      decreases StackWeight(cs, at, stack)
    {
      var a := stack[|stack| - 1];
      ghost var at0, kids0, stack0 := at, kids, stack;
      stack := stack[..|stack| - 1];
      var rs := RepliesOf(cs, at[a]);
      assert rs == rt[at0[a]];
      at, kids, stack := PushReplies(cs, at, kids, stack, a, rs);
      ExpandWeight(cs, at0, stack0, rs, at, stack);
      ExpandStep(rt, root, at0, kids0, stack0, a, at, kids, stack);
    }
    ArenaRanked(rt, root, at, kids, stack);
    ArenaSpellsReplyTree(cs, root, at, kids, 0);
    t := Tree(Stored(cs, at), kids, Zeros(|at|), Identity(|at|), |at|, 0);
  }

  /** GetCommentWithReplies: the comment with the given id and, below it,
      all its stored replies, each under the comment it replies to, in
      storage order. Only the requested comment carries a like count. */
  method GetCommentWithReplies(db: Store, commentId: string) returns (r: Response<CommentNode>)
    requires db.Valid()
    ensures CommentWithId(db.comments, commentId).None? ==>
      r == Fail(NotFound, "Comment with Id " + commentId + " not found.")
    ensures CommentWithId(db.comments, commentId).Some? ==>
      r == Ok(OK, "Comment and its replies fetched successfully",
              ReplyTree(db.comments, CommentWithId(db.comments, commentId).value)
                .(likeCount := CommentLikeCount(db.likes, commentId)))
  {
    var found := CommentWithId(db.comments, commentId);
    if found.None? {
      return Fail(NotFound, "Comment with Id " + commentId + " not found.");
    }
    var node := ExpandReplies(db.comments, found.value);
    var likeCount := CommentLikeCount(db.likes, commentId);
    return Ok(OK, "Comment and its replies fetched successfully", node.(likeCount := likeCount));
  }

  // ---------------------------------------------------------------------
  // Properties of the reply tree

  /** The stored comment q is p or lies below one of p's replies. */
  ghost predicate Descends(cs: seq<Comment>, q: nat, p: nat)
    decreases |cs| - p
  {
    q == p ||
    exists c :: p < c < |cs| && p < |cs| && cs[c].parentCommentId == Some(cs[p].id) && Descends(cs, q, c)
  }

  /** The replies of the reply tree of p are the reply trees of p's
      stored replies, in storage order. */
  lemma ReplyTreeChild(cs: seq<Comment>, p: nat, m: nat)
    requires ParentOrdered(cs) && p < |cs| && m < |RepliesOf(cs, p)|
    ensures |ReplyTree(cs, p).replies| == |RepliesOf(cs, p)|
    ensures ReplyTree(cs, p).replies[m] == ReplyTree(cs, RepliesOf(cs, p)[m])
  {
    ReplyTableRanked(cs, Identity(|cs|), |cs|);
  }

  /** Every id in the reply tree of p is that of p or of a comment
      descending from p. */
  lemma {:induction false} InReplyTreeDescends(cs: seq<Comment>, p: nat, id: string) returns (q: nat)
    requires ParentOrdered(cs) && p < |cs| && Contains(ReplyTree(cs, p), id)
    ensures q < |cs| && cs[q].id == id && Descends(cs, q, p)
    decreases |cs| - p
  {
    var t := ReplyTree(cs, p);
    if t.commentId == id {
      q := p;
    } else {
      var m :| 0 <= m < |t.replies| && Contains(t.replies[m], id);
      var rs := RepliesOf(cs, p);
      ReplyTreeChild(cs, p, m);
      q := InReplyTreeDescends(cs, rs[m], id);
      assert Descends(cs, q, p) by {
        assert p < rs[m] < |cs| && cs[rs[m]].parentCommentId == Some(cs[p].id) && Descends(cs, q, rs[m]);
      }
    }
  }

  /** Every comment descending from p appears in the reply tree of p. */
  lemma {:induction false} DescendantInReplyTree(cs: seq<Comment>, p: nat, q: nat)
    requires ParentOrdered(cs) && p < |cs| && q < |cs| && Descends(cs, q, p)
    ensures Contains(ReplyTree(cs, p), cs[q].id)
    decreases |cs| - p
  {
    if q != p {
      var c :| p < c < |cs| && cs[c].parentCommentId == Some(cs[p].id) && Descends(cs, q, c);
      var rs := RepliesOf(cs, p);
      assert c in rs;
      var m :| 0 <= m < |rs| && rs[m] == c;
      ReplyTreeChild(cs, p, m);
      DescendantInReplyTree(cs, c, q);
      assert Contains(ReplyTree(cs, p).replies[m], cs[q].id);
    }
  }

  /** The reply tree of a comment holds exactly the ids of that comment and
      of the comments descending from it. */
  lemma ReplyTreeHoldsDescendants(cs: seq<Comment>, p: nat, id: string)
    requires ParentOrdered(cs) && p < |cs|
    ensures Contains(ReplyTree(cs, p), id) <==> exists q :: 0 <= q < |cs| && cs[q].id == id && Descends(cs, q, p)
  {
    if Contains(ReplyTree(cs, p), id) {
      var q := InReplyTreeDescends(cs, p, id);
    }
    if exists q :: 0 <= q < |cs| && cs[q].id == id && Descends(cs, q, p) {
      var q :| 0 <= q < |cs| && cs[q].id == id && Descends(cs, q, p);
      DescendantInReplyTree(cs, p, q);
    }
  }

  /** Below the requested comment every node has like count 0: only the
      requested comment's likes are counted. */
  lemma ReplyTreeCountsOnlyTheComment(cs: seq<Comment>, p: nat, likeCount: int)
    requires ParentOrdered(cs) && p < |cs|
    ensures ZeroBelow(ReplyTree(cs, p).(likeCount := likeCount))
  {
    ReplyTableRanked(cs, Identity(|cs|), |cs|);
    TreeZeroBelow(cs, ReplyTable(cs), Zeros(|cs|), Identity(|cs|), |cs|, p);
  }
}
