/** Liking and unliking a comment, and listing who liked it. A comment like
    is a row of the like table that carries the comment id and the id of
    the comment's post. */
module CommentLikes {
  import opened Common
  import opened Query
  import opened Pagination
  import opened Entities
  import opened Storage
  import opened PostLikes

  /** The first row with this comment id and user id. */
  function ExistingCommentLike(likes: seq<PostLike>, commentId: string, userId: string): (r: Option<nat>)
    ensures r.Some? ==> r.value < |likes| && likes[r.value].commentId == Some(commentId) &&
                        likes[r.value].userId == userId
    ensures r.None? ==> forall k :: 0 <= k < |likes| ==>
                          likes[k].commentId != Some(commentId) || likes[k].userId != userId
  {
    FirstIndex(likes, (l: PostLike) => l.commentId == Some(commentId) && l.userId == userId)
  }

  /** The guards of HandleCommentLike in their order, and its effect. */
  function PlanCommentLike(users: seq<User>, comments: seq<Comment>, likes: seq<PostLike>, commentId: string,
                           username: Option<string>, isLike: bool, now: int, newId: string): TogglePlan
  {
    match CommentWithId(comments, commentId)
    case None => ToggleRefused(NotFound, "Comment not found")
    case Some(c) =>
      match UserNamed(users, username)
      case None => ToggleRefused(NotFound, UserMissing(username))
      case Some(u) =>
        var existing := ExistingCommentLike(likes, commentId, users[u].id);
        if isLike && existing.None? then
          Insert(PostLike(newId, comments[c].postId, Some(commentId), users[u].id, now))
        else if !isLike && existing.Some? then Remove(existing.value)
        else Keep
  }

  method HandleCommentLike(db: Store, commentId: string, username: Option<string>, isLike: bool, now: int,
                           newId: string)
    returns (r: Response<int>)
    requires db.Valid()
    requires forall k :: 0 <= k < |db.likes| ==> db.likes[k].id != newId
    modifies db`likes
    ensures db.Valid()
    ensures match PlanCommentLike(db.users, db.comments, old(db.likes), commentId, username, isLike, now, newId)
      case ToggleRefused(code, message) => r == Response(code, message, Some(0)) && db.likes == old(db.likes)
      case Insert(l) =>
        (db.likes == old(db.likes) + [l] && r == Ok(OK, "Successful", CommentLikeCount(db.likes, commentId))) ||
        (db.likes == old(db.likes) &&
         r == Response(FailedDependency, "Sorry! We could not complete the like comment request, try again.", Some(0)))
      case Remove(k) =>
        k < |old(db.likes)| &&
        ((db.likes == RemoveAt(old(db.likes), k) &&
          r == Ok(OK, "Successful", CommentLikeCount(db.likes, commentId))) ||
         (db.likes == old(db.likes) &&
          r == Response(FailedDependency, "Could not complete the unlike comment request, try again.", Some(0))))
      case Keep => db.likes == old(db.likes) && r == Ok(OK, "Successful", CommentLikeCount(db.likes, commentId))
  {
    ghost var plan := PlanCommentLike(db.users, db.comments, db.likes, commentId, username, isLike, now, newId);
    var comment := CommentWithId(db.comments, commentId);
    if comment.None? {
      return Response(NotFound, "Comment not found", Some(0));
    }
    var u := UserNamed(db.users, username);
    if u.None? {
      return Response(NotFound, UserMissing(username), Some(0));
    }
    var postId := db.comments[comment.value].postId;
    var me := db.users[u.value].id;
    var existing := ExistingCommentLike(db.likes, commentId, me);
    if isLike && existing.None? {
      var rows := db.AddLike(PostLike(newId, postId, Some(commentId), me, now));
      if rows < 1 {
        return Response(FailedDependency, "Sorry! We could not complete the like comment request, try again.", Some(0));
      }
    } else if !isLike && existing.Some? {
      assert plan == Remove(existing.value);
      var rows := db.DeleteLike(existing.value);
      if rows < 1 {
        return Response(FailedDependency, "Could not complete the unlike comment request, try again.", Some(0));
      }
    }
    var likeCount := CommentLikeCount(db.likes, commentId);
    return Ok(OK, "Successful", likeCount);
  }

  // ---------------------------------------------------------------------
  // Properties of the toggle

  /** A missing comment is reported before a missing user; past those two
      checks a toggle is never refused. */
  lemma CommentLikeGuardOrder(users: seq<User>, comments: seq<Comment>, likes: seq<PostLike>, commentId: string,
                              username: Option<string>, isLike: bool, now: int, newId: string)
    ensures CommentWithId(comments, commentId).None? ==>
      PlanCommentLike(users, comments, likes, commentId, username, isLike, now, newId) ==
        ToggleRefused(NotFound, "Comment not found")
    ensures CommentWithId(comments, commentId).Some? && UserNamed(users, username).None? ==>
      PlanCommentLike(users, comments, likes, commentId, username, isLike, now, newId) ==
        ToggleRefused(NotFound, UserMissing(username))
    ensures CommentWithId(comments, commentId).Some? && UserNamed(users, username).Some? ==>
      !PlanCommentLike(users, comments, likes, commentId, username, isLike, now, newId).ToggleRefused?
  {
  }

  /** A like adds exactly one row, for this comment, its post and the user,
      and raises the comment's count by one; an unlike removes exactly one
      row of this user on this comment and lowers the count by one. */
  lemma {:induction false} CommentToggleEffect(users: seq<User>, comments: seq<Comment>, likes: seq<PostLike>,
                                               commentId: string, username: Option<string>, isLike: bool,
                                               now: int, newId: string)
    ensures var plan := PlanCommentLike(users, comments, likes, commentId, username, isLike, now, newId);
      match plan
      case Insert(l) =>
        isLike && CommentWithId(comments, commentId).Some? && UserNamed(users, username).Some? &&
        l == PostLike(newId, comments[CommentWithId(comments, commentId).value].postId, Some(commentId),
                      users[UserNamed(users, username).value].id, now) &&
        ExistingCommentLike(likes, commentId, l.userId).None? &&
        CommentLikeCount(Applied(likes, plan), commentId) == CommentLikeCount(likes, commentId) + 1
      case Remove(k) =>
        !isLike && UserNamed(users, username).Some? && k < |likes| &&
        likes[k].commentId == Some(commentId) && likes[k].userId == users[UserNamed(users, username).value].id &&
        CommentLikeCount(Applied(likes, plan), commentId) == CommentLikeCount(likes, commentId) - 1
      case Keep =>
        UserNamed(users, username).Some? &&
        (ExistingCommentLike(likes, commentId, users[UserNamed(users, username).value].id).Some? <==> isLike)
      case ToggleRefused(_, _) => true
  {
    var plan := PlanCommentLike(users, comments, likes, commentId, username, isLike, now, newId);
    match plan
    case Insert(l) =>
      CountAppend(likes, l, (l: PostLike) => l.commentId == Some(commentId));
    case Remove(k) =>
      CountRemoveAt(likes, k, (l: PostLike) => l.commentId == Some(commentId));
    case Keep =>
    case ToggleRefused(_, _) =>
  }

  /** A comment like also counts for the comment's post. */
  lemma {:induction false} CommentLikeRaisesPostCount(users: seq<User>, comments: seq<Comment>, likes: seq<PostLike>,
                                                      commentId: string, username: Option<string>, now: int,
                                                      newId: string)
    ensures var plan := PlanCommentLike(users, comments, likes, commentId, username, true, now, newId);
      plan.Insert? ==>
        PostLikeCount(Applied(likes, plan), plan.like.postId) == PostLikeCount(likes, plan.like.postId) + 1
  {
    var plan := PlanCommentLike(users, comments, likes, commentId, username, true, now, newId);
    if plan.Insert? {
      var p := plan.like.postId;
      CountAppend(likes, plan.like, (l: PostLike) => l.postId == p);
    }
  }

  /** Once a like is stored (or was already there), liking the comment
      again keeps the table as it is; a refusal is refused again. */
  lemma LikeCommentTwiceIsLikeOnce(users: seq<User>, comments: seq<Comment>, likes: seq<PostLike>, commentId: string,
                                   username: Option<string>, now: int, later: int, newId: string, otherId: string)
    ensures var plan := PlanCommentLike(users, comments, likes, commentId, username, true, now, newId);
      var again := PlanCommentLike(users, comments, Applied(likes, plan), commentId, username, true, later, otherId);
      (plan.Insert? || plan.Keep? ==> again == Keep) && (plan.ToggleRefused? ==> again == plan)
  {
    var plan := PlanCommentLike(users, comments, likes, commentId, username, true, now, newId);
    if plan.Insert? {
      var after := Applied(likes, plan);
      assert after[|likes|] == plan.like;
    }
  }

  /** With at most one row of the user on the comment, two unlikes are one:
      after a removal a second unlike finds no row and keeps the table. */
  lemma UnlikeCommentTwiceIsUnlikeOnce(users: seq<User>, comments: seq<Comment>, likes: seq<PostLike>,
                                       commentId: string, username: Option<string>, now: int, newId: string)
    requires UserNamed(users, username).Some?
    requires var me := users[UserNamed(users, username).value].id;
      forall i, j :: 0 <= i < j < |likes| && likes[i].commentId == Some(commentId) && likes[i].userId == me ==>
        likes[j].commentId != Some(commentId) || likes[j].userId != me
    ensures var plan := PlanCommentLike(users, comments, likes, commentId, username, false, now, newId);
      var again := PlanCommentLike(users, comments, Applied(likes, plan), commentId, username, false, now, newId);
      (plan.Remove? ==> again == Keep) && (!plan.Remove? ==> again == plan)
  {
    var plan := PlanCommentLike(users, comments, likes, commentId, username, false, now, newId);
    if plan.Remove? {
      var k := plan.index;
      var after := Applied(likes, plan);
      var me := users[UserNamed(users, username).value].id;
      forall j | 0 <= j < |after|
        ensures after[j].commentId != Some(commentId) || after[j].userId != me
      {
        if j >= k {
          assert after[j] == likes[j + 1];
        }
      }
    }
  }

  // ---------------------------------------------------------------------
  // Who liked a comment

  /** `Where(pl => pl.CommentId == commentId)` joined with the users, with
      their profile pictures. */
  function CommentLikers(users: seq<User>, likes: seq<PostLike>, commentId: string): seq<Liker>
  {
    LikersOf(users, Filter(likes, (l: PostLike) => l.commentId == Some(commentId)), true)
  }

  method GetUsersWhoLikedComment(db: Store, commentId: string, pageNumber: int, pageSize: int)
    returns (r: Response<PagedResult<Liker>>)
    requires pageNumber >= 1 && pageSize > 0
    ensures CommentWithId(db.comments, commentId).None? ==>
      r == Fail(NotFound, "Sorry! Comment does not exist, check and try again.")
    ensures CommentWithId(db.comments, commentId).Some? ==>
      r == Ok(OK, "Users who liked the post fetched successfully",
              GetPaged(CommentLikers(db.users, db.likes, commentId), pageNumber, pageSize))
  {
    var comment := CommentWithId(db.comments, commentId);
    if comment.None? {
      return Fail(NotFound, "Sorry! Comment does not exist, check and try again.");
    }
    var page := GetPaged(CommentLikers(db.users, db.likes, commentId), pageNumber, pageSize);
    return Ok(OK, "Users who liked the post fetched successfully", page);
  }

  /** With all users stored, the listing's total is the comment's like
      count. */
  lemma CommentLikersTotal(users: seq<User>, likes: seq<PostLike>, commentId: string, pageNumber: int,
                           pageSize: int)
    requires pageNumber >= 1 && pageSize > 0
    requires forall k :: 0 <= k < |likes| ==> UserWithId(users, likes[k].userId).Some?
    ensures GetPaged(CommentLikers(users, likes, commentId), pageNumber, pageSize).totalCount ==
            CommentLikeCount(likes, commentId)
  {
    var rows := Filter(likes, (l: PostLike) => l.commentId == Some(commentId));
    forall k | 0 <= k < |rows|
      ensures UserWithId(users, rows[k].userId).Some?
    {
      assert rows[k] in likes;
    }
    LikersComplete(users, rows, true);
  }
}
