/** Liking and unliking a post, and listing who liked it. Post likes and
    comment likes share one table: a comment like is a row that also
    carries the comment's post id. */
module PostLikes {
  import opened Common
  import opened Query
  import opened Pagination
  import opened Entities
  import opened Storage

  /** A user shown in a listing of likers. */
  datatype Liker = Liker(id: string, username: string, fullName: string, bio: Option<string>,
                         profilePictureUrl: Option<string>)

  /** The first row with this post id and user id: a post like, or a comment
      like on that post. */
  function ExistingPostLike(likes: seq<PostLike>, postId: string, userId: string): (r: Option<nat>)
    ensures r.Some? ==> r.value < |likes| && likes[r.value].postId == postId && likes[r.value].userId == userId
    ensures r.None? ==> forall k :: 0 <= k < |likes| ==> likes[k].postId != postId || likes[k].userId != userId
  {
    FirstIndex(likes, (l: PostLike) => l.postId == postId && l.userId == userId)
  }

  /** ValidateInputs: a blank post id, then a blank username, is a 400. */
  function ValidateInputs(postId: string, username: Option<string>): (r: Option<Response<int>>)
    ensures r.None? <==> !IsNullOrWhiteSpace(Some(postId)) && !IsNullOrWhiteSpace(username)
    ensures r.Some? ==> r.value.code == BadRequest && r.value.data.None?
  {
    if IsNullOrWhiteSpace(Some(postId)) then Some(Fail(BadRequest, "Invalid postId"))
    else if IsNullOrWhiteSpace(username) then Some(Fail(BadRequest, "Invalid username"))
    else None
  }

  /** What a like toggle does to the like table. */
  datatype TogglePlan =
    | ToggleRefused(code: int, message: string)
    | Insert(like: PostLike)
    | Remove(index: nat)
    | Keep

  /** The guards of HandlePostLike in their order, and its effect. */
  function PlanPostLike(users: seq<User>, posts: seq<Post>, likes: seq<PostLike>, postId: string,
                        username: Option<string>, isLike: bool, now: int, newId: string): TogglePlan
  {
    match ValidateInputs(postId, username)
    case Some(refusal) => ToggleRefused(refusal.code, refusal.message)
    case None =>
      if PostWithId(posts, postId).None? then ToggleRefused(NotFound, "Post not found")
      else match UserNamed(users, username)
      case None => ToggleRefused(NotFound, UserMissing(username))
      case Some(u) =>
        var existing := ExistingPostLike(likes, postId, users[u].id);
        if isLike && existing.None? then Insert(PostLike(newId, postId, None, users[u].id, now))
        else if !isLike && existing.Some? then Remove(existing.value)
        else Keep
  }

  method HandlePostLike(db: Store, postId: string, username: Option<string>, isLike: bool, now: int, newId: string)
    returns (r: Response<int>)
    requires db.Valid()
    requires forall k :: 0 <= k < |db.likes| ==> db.likes[k].id != newId
    modifies db`likes
    ensures db.Valid()
    ensures match PlanPostLike(db.users, db.posts, old(db.likes), postId, username, isLike, now, newId)
      case ToggleRefused(code, message) => r == Fail(code, message) && db.likes == old(db.likes)
      case Insert(l) =>
        (db.likes == old(db.likes) + [l] && r == Ok(OK, "Successful", PostLikeCount(db.likes, postId))) ||
        (db.likes == old(db.likes) &&
         r == Fail(FailedDependency, "Sorry! We could not complete the like post request, try again."))
      case Remove(k) =>
        k < |old(db.likes)| &&
        ((db.likes == RemoveAt(old(db.likes), k) && r == Ok(OK, "Successful", PostLikeCount(db.likes, postId))) ||
         (db.likes == old(db.likes) && r == Fail(FailedDependency, "Could not complete the unlike post request, try again.")))
      case Keep => db.likes == old(db.likes) && r == Ok(OK, "Successful", PostLikeCount(db.likes, postId))
  {
    ghost var plan := PlanPostLike(db.users, db.posts, db.likes, postId, username, isLike, now, newId);
    var refusal := ValidateInputs(postId, username);
    if refusal.Some? {
      assert plan == ToggleRefused(refusal.value.code, refusal.value.message);
      return refusal.value;
    }
    var post := PostWithId(db.posts, postId);
    if post.None? {
      assert plan == ToggleRefused(NotFound, "Post not found");
      return Fail(NotFound, "Post not found");
    }
    var u := UserNamed(db.users, username);
    if u.None? {
      assert plan == ToggleRefused(NotFound, UserMissing(username));
      return Fail(NotFound, UserMissing(username));
    }
    var me := db.users[u.value].id;
    var existing := ExistingPostLike(db.likes, postId, me);
    var toggle := if isLike && existing.None? then Insert(PostLike(newId, postId, None, me, now))
                  else if !isLike && existing.Some? then Remove(existing.value)
                  else Keep;
    assert toggle == plan;
    r := WriteToggle(db, toggle, postId);
  }

  /** The write of a like toggle past its guards, then the post's count. */
  method WriteToggle(db: Store, plan: TogglePlan, postId: string) returns (r: Response<int>)
    requires db.Valid() && !plan.ToggleRefused?
    requires plan.Insert? ==> forall k :: 0 <= k < |db.likes| ==> db.likes[k].id != plan.like.id
    requires plan.Remove? ==> plan.index < |db.likes|
    modifies db`likes
    ensures db.Valid()
    ensures plan.Insert? ==>
      (db.likes == old(db.likes) + [plan.like] && r == Ok(OK, "Successful", PostLikeCount(db.likes, postId))) ||
      (db.likes == old(db.likes) &&
       r == Fail(FailedDependency, "Sorry! We could not complete the like post request, try again."))
    ensures plan.Remove? ==>
      (db.likes == RemoveAt(old(db.likes), plan.index) && r == Ok(OK, "Successful", PostLikeCount(db.likes, postId))) ||
      (db.likes == old(db.likes) && r == Fail(FailedDependency, "Could not complete the unlike post request, try again."))
    ensures plan.Keep? ==> db.likes == old(db.likes) && r == Ok(OK, "Successful", PostLikeCount(db.likes, postId))
  {
    if plan.Insert? {
      var rows := db.AddLike(plan.like);
      if rows < 1 {
        return Fail(FailedDependency, "Sorry! We could not complete the like post request, try again.");
      }
    } else if plan.Remove? {
      var rows := db.DeleteLike(plan.index);
      if rows < 1 {
        return Fail(FailedDependency, "Could not complete the unlike post request, try again.");
      }
    }
    var likeCount := PostLikeCount(db.likes, postId);
    return Ok(OK, "Successful", likeCount);
  }

  /** The like table after a toggle whose write succeeded. */
  function Applied(likes: seq<PostLike>, plan: TogglePlan): seq<PostLike>
  {
    match plan
    case Insert(l) => likes + [l]
    case Remove(k) => if k < |likes| then RemoveAt(likes, k) else likes
    case _ => likes
  }

  // ---------------------------------------------------------------------
  // Properties of the toggle

  /** The input checks come first, the blank post id before the blank
      username, and a missing post is reported before a missing user. */
  lemma PostLikeGuardOrder(users: seq<User>, posts: seq<Post>, likes: seq<PostLike>, postId: string,
                           username: Option<string>, isLike: bool, now: int, newId: string)
    ensures IsNullOrWhiteSpace(Some(postId)) ==>
      PlanPostLike(users, posts, likes, postId, username, isLike, now, newId) == ToggleRefused(BadRequest, "Invalid postId")
    ensures !IsNullOrWhiteSpace(Some(postId)) && IsNullOrWhiteSpace(username) ==>
      PlanPostLike(users, posts, likes, postId, username, isLike, now, newId) == ToggleRefused(BadRequest, "Invalid username")
    ensures ValidateInputs(postId, username).None? && PostWithId(posts, postId).None? ==>
      PlanPostLike(users, posts, likes, postId, username, isLike, now, newId) == ToggleRefused(NotFound, "Post not found")
  {
  }

  /** A like adds exactly one row, for this post and user and no comment,
      and raises the post's count by one; an unlike removes exactly one
      row of this user on this post and lowers the count by one. */
  lemma {:induction false} PostToggleEffect(users: seq<User>, posts: seq<Post>, likes: seq<PostLike>, postId: string,
                                            username: Option<string>, isLike: bool, now: int, newId: string)
    ensures var plan := PlanPostLike(users, posts, likes, postId, username, isLike, now, newId);
      match plan
      case Insert(l) =>
        isLike && UserNamed(users, username).Some? &&
        l == PostLike(newId, postId, None, users[UserNamed(users, username).value].id, now) &&
        ExistingPostLike(likes, postId, l.userId).None? &&
        PostLikeCount(Applied(likes, plan), postId) == PostLikeCount(likes, postId) + 1
      case Remove(k) =>
        !isLike && UserNamed(users, username).Some? && k < |likes| &&
        likes[k].postId == postId && likes[k].userId == users[UserNamed(users, username).value].id &&
        PostLikeCount(Applied(likes, plan), postId) == PostLikeCount(likes, postId) - 1
      case Keep =>
        UserNamed(users, username).Some? &&
        (ExistingPostLike(likes, postId, users[UserNamed(users, username).value].id).Some? <==> isLike)
      case ToggleRefused(_, _) => true
  {
    var plan := PlanPostLike(users, posts, likes, postId, username, isLike, now, newId);
    match plan
    case Insert(l) =>
      CountAppend(likes, l, (l: PostLike) => l.postId == postId);
    case Remove(k) =>
      CountRemoveAt(likes, k, (l: PostLike) => l.postId == postId);
    case Keep =>
    case ToggleRefused(_, _) =>
  }

  /** Two likes are one: once a like is stored (or was already there),
      liking again keeps the table as it is; a refusal is refused again. */
  lemma LikeTwiceIsLikeOnce(users: seq<User>, posts: seq<Post>, likes: seq<PostLike>, postId: string,
                            username: Option<string>, now: int, later: int, newId: string, otherId: string)
    ensures var plan := PlanPostLike(users, posts, likes, postId, username, true, now, newId);
      var again := PlanPostLike(users, posts, Applied(likes, plan), postId, username, true, later, otherId);
      (plan.Insert? || plan.Keep? ==> again == Keep) && (plan.ToggleRefused? ==> again == plan)
  {
    var plan := PlanPostLike(users, posts, likes, postId, username, true, now, newId);
    if plan.Insert? {
      var after := Applied(likes, plan);
      assert after[|likes|] == plan.like;
    }
  }

  /** With at most one row of this user on the post, two unlikes are one:
      after a removal a second unlike finds no row and keeps the table;
      an unlike that removed nothing does the same again. */
  lemma UnlikeTwiceIsUnlikeOnce(users: seq<User>, posts: seq<Post>, likes: seq<PostLike>, postId: string,
                                username: Option<string>, now: int, newId: string)
    requires UserNamed(users, username).Some?
    requires var me := users[UserNamed(users, username).value].id;
      forall i, j :: 0 <= i < j < |likes| && likes[i].postId == postId && likes[i].userId == me ==>
        likes[j].postId != postId || likes[j].userId != me
    ensures var plan := PlanPostLike(users, posts, likes, postId, username, false, now, newId);
      var again := PlanPostLike(users, posts, Applied(likes, plan), postId, username, false, now, newId);
      (plan.Remove? ==> again == Keep) && (!plan.Remove? ==> again == plan)
  {
    var plan := PlanPostLike(users, posts, likes, postId, username, false, now, newId);
    if plan.Remove? {
      var k := plan.index;
      var after := Applied(likes, plan);
      var me := users[UserNamed(users, username).value].id;
      forall j | 0 <= j < |after|
        ensures after[j].postId != postId || after[j].userId != me
      {
        if j >= k {
          assert after[j] == likes[j + 1];
        }
      }
    }
  }

  /** The shared table shows through: a stored comment like of the user on
      this post blocks a post like, and a post unlike may delete it. */
  lemma CommentLikeCountsAsPostLike(users: seq<User>, posts: seq<Post>, likes: seq<PostLike>, postId: string,
                                    username: Option<string>, now: int, newId: string, k: nat)
    requires ValidateInputs(postId, username).None? && PostWithId(posts, postId).Some?
    requires UserNamed(users, username).Some?
    requires k < |likes| && likes[k].commentId.Some? && likes[k].postId == postId
    requires likes[k].userId == users[UserNamed(users, username).value].id
    requires forall j :: 0 <= j < k ==> likes[j].postId != postId || likes[j].userId != likes[k].userId
    ensures PlanPostLike(users, posts, likes, postId, username, true, now, newId) == Keep
    ensures PlanPostLike(users, posts, likes, postId, username, false, now, newId) == Remove(k)
  {
    assert ExistingPostLike(likes, postId, likes[k].userId) == Some(k);
  }

  // ---------------------------------------------------------------------
  // Who liked a post

  /** The user of each row, for the rows whose user is stored (the join
      with the user table), in row order. */
  function LikersOf(users: seq<User>, rows: seq<PostLike>, withPicture: bool): seq<Liker>
    decreases |rows|
  {
    if rows == [] then []
    else
      var init := LikersOf(users, rows[..|rows| - 1], withPicture);
      match UserWithId(users, rows[|rows| - 1].userId)
      case None => init
      case Some(j) =>
        var u := users[j];
        init + [Liker(u.id, u.username, u.fullName, u.bio, if withPicture then u.profilePictureUrl else None)]
  }

  /** Every liker shown is a stored user who owns one of the rows, and no
      row yields more than one liker. */
  lemma {:induction false} LikersSound(users: seq<User>, rows: seq<PostLike>, withPicture: bool)
    ensures |LikersOf(users, rows, withPicture)| <= |rows|
    ensures forall v :: v in LikersOf(users, rows, withPicture) ==>
      exists k, j :: 0 <= k < |rows| && 0 <= j < |users| && rows[k].userId == users[j].id && v.id == users[j].id &&
        v.username == users[j].username
    decreases |rows|
  {
    if rows != [] {
      var front := rows[..|rows| - 1];
      LikersSound(users, front, withPicture);
      forall v | v in LikersOf(users, front, withPicture)
        ensures exists k, j :: (0 <= k < |rows| && 0 <= j < |users| && rows[k].userId == users[j].id &&
          v.id == users[j].id && v.username == users[j].username)
      {
        var k, j :| 0 <= k < |front| && 0 <= j < |users| && front[k].userId == users[j].id &&
          v.id == users[j].id && v.username == users[j].username;
        assert rows[k] == front[k];
      }
    }
  }

  /** With every row's user stored, there is one liker per row. */
  lemma {:induction false} LikersComplete(users: seq<User>, rows: seq<PostLike>, withPicture: bool)
    requires forall k :: 0 <= k < |rows| ==> UserWithId(users, rows[k].userId).Some?
    ensures |LikersOf(users, rows, withPicture)| == |rows|
    ensures forall k :: 0 <= k < |rows| ==> LikersOf(users, rows, withPicture)[k].id == rows[k].userId
    decreases |rows|
  {
    if rows != [] {
      var front := rows[..|rows| - 1];
      assert forall k :: 0 <= k < |front| ==> front[k] == rows[k];
      LikersComplete(users, front, withPicture);
      var init := LikersOf(users, front, withPicture);
      var u := users[UserWithId(users, rows[|rows| - 1].userId).value];
      var v := Liker(u.id, u.username, u.fullName, u.bio, if withPicture then u.profilePictureUrl else None);
      assert LikersOf(users, rows, withPicture) == init + [v];
      forall k | 0 <= k < |rows|
        ensures (init + [v])[k].id == rows[k].userId
      {
        if k < |front| {
          assert (init + [v])[k] == init[k];
        }
      }
    }
  }

  /** `Where(pl => pl.PostId == postId)` joined with the users. */
  function PostLikers(users: seq<User>, likes: seq<PostLike>, postId: string): seq<Liker>
  {
    LikersOf(users, Filter(likes, (l: PostLike) => l.postId == postId), false)
  }

  method GetUsersWhoLikedPost(db: Store, postId: string, pageNumber: int, pageSize: int)
    returns (r: Response<PagedResult<Liker>>)
    requires pageNumber >= 1 && pageSize > 0
    ensures PostWithId(db.posts, postId).None? ==> r == Fail(NotFound, "Sorry! Post does not exist, check and try again.")
    ensures PostWithId(db.posts, postId).Some? ==>
      r == Ok(OK, "Users who liked the post fetched successfully",
              GetPaged(PostLikers(db.users, db.likes, postId), pageNumber, pageSize))
  {
    var post := PostWithId(db.posts, postId);
    if post.None? {
      return Fail(NotFound, "Sorry! Post does not exist, check and try again.");
    }
    var page := GetPaged(PostLikers(db.users, db.likes, postId), pageNumber, pageSize);
    return Ok(OK, "Users who liked the post fetched successfully", page);
  }

  /** The listing counts every like row on the post whose user is stored,
      comment likes included: with all users stored, its total is the
      post's like count. */
  lemma PostLikersTotal(users: seq<User>, likes: seq<PostLike>, postId: string, pageNumber: int, pageSize: int)
    requires pageNumber >= 1 && pageSize > 0
    requires forall k :: 0 <= k < |likes| ==> UserWithId(users, likes[k].userId).Some?
    ensures GetPaged(PostLikers(users, likes, postId), pageNumber, pageSize).totalCount == PostLikeCount(likes, postId)
  {
    var rows := Filter(likes, (l: PostLike) => l.postId == postId);
    forall k | 0 <= k < |rows|
      ensures UserWithId(users, rows[k].userId).Some?
    {
      assert rows[k] in likes;
    }
    LikersComplete(users, rows, false);
  }
}
