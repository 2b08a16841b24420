/** Posts: creating one for the calling user, listing a user's posts newest
    first with their like counts, and reading, updating or deleting one of
    the caller's own posts. */
module Posts {
  import opened Common
  import opened Query
  import opened Pagination
  import opened Entities
  import opened Storage

  /** What a caller sends to create or update a post. */
  datatype PostRequest = PostRequest(content: string, mediaContents: seq<MediaContent>, location: string)

  /** A post as the services answer with it. */
  datatype PostView = PostView(
    id: string,
    userId: string,
    content: string,
    mediaContents: seq<MediaContent>,
    location: string,
    createdAt: int,
    updatedAt: Option<int>,
    likeCount: int)

  function ViewOf(p: Post, likeCount: int): PostView
  {
    PostView(p.id, p.userId, p.content, p.mediaContents, p.location, p.createdAt, p.updatedAt, likeCount)
  }

  /** `FindOneAsync(p => p.Id == postId && p.UserId == userId)` */
  function OwnedPost(posts: seq<Post>, postId: string, userId: string): (r: Option<nat>)
    ensures r.Some? ==> r.value < |posts| && posts[r.value].id == postId && posts[r.value].userId == userId
    ensures r.None? ==> forall k :: 0 <= k < |posts| ==> posts[k].id != postId || posts[k].userId != userId
  {
    FirstIndex(posts, (p: Post) => p.id == postId && p.userId == userId)
  }

  // ---------------------------------------------------------------------
  // Creating a post

  /** The post CreatePost stores for the user at position u. */
  function NewPost(users: seq<User>, u: nat, request: PostRequest, now: int, newId: string): (p: Post)
    requires u < |users|
    ensures p.id == newId && p.userId == users[u].id && p.createdAt == now && p.updatedAt == None
    ensures p.content == request.content && p.mediaContents == request.mediaContents && p.location == request.location
  {
    Post(newId, users[u].id, request.content, request.mediaContents, request.location, now, None)
  }

  method CreatePost(db: Store, username: Option<string>, request: PostRequest, now: int, newId: string)
    returns (r: Response<PostView>)
    requires db.Valid()
    requires forall k :: 0 <= k < |db.posts| ==> db.posts[k].id != newId
    modifies db`posts
    ensures db.Valid()
    ensures UserNamed(db.users, username).None? ==>
      r == Fail(NotFound, UserMissing(username)) && db.posts == old(db.posts)
    ensures UserNamed(db.users, username).Some? ==>
      var p := NewPost(db.users, UserNamed(db.users, username).value, request, now, newId);
      (r == Ok(Created, "Post created successfully", ViewOf(p, 0)) && db.posts == old(db.posts) + [p]) ||
      (r == Fail(FailedDependency, "We could not save user post, please try again") && db.posts == old(db.posts))
  {
    var u := UserNamed(db.users, username);
    if u.None? {
      return Fail(NotFound, UserMissing(username));
    }
    var post := NewPost(db.users, u.value, request, now, newId);
    var rows := db.AddPost(post);
    if rows < 1 {
      return Fail(FailedDependency, "We could not save user post, please try again");
    }
    return Ok(Created, "Post created successfully", ViewOf(post, 0));
  }

  // ---------------------------------------------------------------------
  // Listing a user's posts

  function PostCreatedAt(p: Post): int
  {
    p.createdAt
  }

  /** `Where(p => p.UserId == userId).OrderByDescending(p => p.CreatedAt)` */
  function PostQuery(posts: seq<Post>, userId: string): (r: seq<Post>)
    ensures multiset(r) <= multiset(posts)
    ensures forall i :: 0 <= i < |r| ==> r[i].userId == userId
    ensures SortedDesc(r, PostCreatedAt)
  {
    var keep := (p: Post) => p.userId == userId;
    WhereOrdered(posts, keep, PostCreatedAt);
    SortDesc(Filter(posts, keep), PostCreatedAt)
  }

  /** Every post the user owns is in the query. */
  lemma PostQueryComplete(posts: seq<Post>, userId: string, k: nat)
    requires k < |posts| && posts[k].userId == userId
    ensures posts[k] in PostQuery(posts, userId)
  {
    var mine := Filter(posts, (p: Post) => p.userId == userId);
    assert posts[k] in mine;
    assert multiset(SortDesc(mine, PostCreatedAt)) == multiset(mine);
    assert posts[k] in multiset(SortDesc(mine, PostCreatedAt));
  }

  /** The foreach of GetUserPosts: each post of the page with its like count. */
  method ViewPosts(page: seq<Post>, likes: seq<PostLike>) returns (views: seq<PostView>)
    ensures |views| == |page|
    ensures forall i :: 0 <= i < |page| ==> views[i] == ViewOf(page[i], PostLikeCount(likes, page[i].id))
  {
    views := [];
    for k := 0 to |page|
      invariant |views| == k
      invariant forall i :: 0 <= i < k ==> views[i] == ViewOf(page[i], PostLikeCount(likes, page[i].id))
    {
      var post := page[k];
      var likeCount := PostLikeCount(likes, post.id);
      views := views + [ViewOf(post, likeCount)];
    }
  }

  method GetUserPosts(db: Store, username: Option<string>, pageNumber: int, pageSize: int)
    returns (r: Response<PagedResult<PostView>>)
    requires pageNumber >= 1 && pageSize > 0
    ensures UserNamed(db.users, username).None? ==> r == Fail(NotFound, UserMissing(username))
    ensures UserNamed(db.users, username).Some? ==>
      var page := GetPaged(PostQuery(db.posts, db.users[UserNamed(db.users, username).value].id), pageNumber, pageSize);
      r.code == OK && r.message == "User posts fetched successfully" && r.data.Some? &&
      r.data.value == WithResults(page, r.data.value.results) &&
      |r.data.value.results| == |page.results| &&
      forall i :: 0 <= i < |page.results| ==>
        r.data.value.results[i] == ViewOf(page.results[i], PostLikeCount(db.likes, page.results[i].id))
  {
    var u := UserNamed(db.users, username);
    if u.None? {
      return Fail(NotFound, UserMissing(username));
    }
    var page := GetPaged(PostQuery(db.posts, db.users[u.value].id), pageNumber, pageSize);
    var views := ViewPosts(page.results, db.likes);
    return Ok(OK, "User posts fetched successfully", WithResults(page, views));
  }

  /** The listing holds only the user's posts, newest first. */
  lemma UserPostsOwnedAndNewestFirst(posts: seq<Post>, userId: string, pageNumber: int, pageSize: int)
    requires pageNumber >= 1 && pageSize > 0
    ensures var page := GetPaged(PostQuery(posts, userId), pageNumber, pageSize).results;
      (forall i :: 0 <= i < |page| ==> page[i].userId == userId && page[i] in posts) &&
      SortedDesc(page, PostCreatedAt)
  {
    var q := PostQuery(posts, userId);
    PageKeepsOrder(q, pageNumber, pageSize, PostCreatedAt);
    PageWithin(q, pageNumber, pageSize);
    forall x | x in q
      ensures x in posts
    {
      assert x in multiset(q);
    }
  }

  /** Comment likes carry the post id too, so a post's like count is its
      own likes plus the likes of its comments. */
  lemma {:induction false} PostLikeCountIncludesCommentLikes(likes: seq<PostLike>, postId: string)
    ensures PostLikeCount(likes, postId) ==
      Count(likes, (l: PostLike) => l.postId == postId && l.commentId.None?) +
      Count(likes, (l: PostLike) => l.postId == postId && l.commentId.Some?)
  {
    if likes != [] {
      PostLikeCountIncludesCommentLikes(likes[1..], postId);
    }
  }

  // ---------------------------------------------------------------------
  // One of the caller's posts

  method GetUserPost(db: Store, postId: string, username: Option<string>) returns (r: Response<PostView>)
    ensures UserNamed(db.users, username).None? ==> r == Fail(NotFound, UserMissing(username))
    ensures UserNamed(db.users, username).Some? ==>
      match OwnedPost(db.posts, postId, db.users[UserNamed(db.users, username).value].id)
      case None => r == Fail(NotFound, "Sorry! Post does not exits, check and try again.")
      case Some(k) => r == Ok(OK, "User post fetched successfully", ViewOf(db.posts[k], PostLikeCount(db.likes, postId)))
  {
    var u := UserNamed(db.users, username);
    if u.None? {
      return Fail(NotFound, UserMissing(username));
    }
    var k := OwnedPost(db.posts, postId, db.users[u.value].id);
    if k.None? {
      return Fail(NotFound, "Sorry! Post does not exits, check and try again.");
    }
    var likeCount := PostLikeCount(db.likes, postId);
    return Ok(OK, "User post fetched successfully", ViewOf(db.posts[k.value], likeCount));
  }

  /** The post UpdatePost saves: the request's content, media and location,
      stamped now. */
  function Revised(p: Post, request: PostRequest, now: int): (q: Post)
    ensures q.id == p.id && q.userId == p.userId && q.createdAt == p.createdAt
    ensures q.content == request.content && q.mediaContents == request.mediaContents
    ensures q.location == request.location && q.updatedAt == Some(now)
  {
    p.(content := request.content, mediaContents := request.mediaContents, location := request.location,
       updatedAt := Some(now))
  }

  method UpdatePost(db: Store, username: Option<string>, postId: string, request: PostRequest, now: int)
    returns (r: Response<PostView>)
    requires db.Valid()
    modifies db`posts
    ensures db.Valid()
    ensures UserNamed(db.users, username).None? ==>
      r == Fail(NotFound, UserMissing(username)) && db.posts == old(db.posts)
    ensures UserNamed(db.users, username).Some? ==>
      match OwnedPost(old(db.posts), postId, db.users[UserNamed(db.users, username).value].id)
      case None => r == Fail(NotFound, "Sorry! Post does not exist") && db.posts == old(db.posts)
      case Some(k) =>
        var p := Revised(old(db.posts)[k], request, now);
        (r == Ok(OK, "Post updated successfully", ViewOf(p, 0)) && db.posts == old(db.posts)[k := p]) ||
        (r == Fail(FailedDependency, "We could not update user post, please try again") && db.posts == old(db.posts))
  {
    var u := UserNamed(db.users, username);
    if u.None? {
      return Fail(NotFound, UserMissing(username));
    }
    var k := OwnedPost(db.posts, postId, db.users[u.value].id);
    if k.None? {
      return Fail(NotFound, "Sorry! Post does not exist");
    }
    var post := Revised(db.posts[k.value], request, now);
    var rows := db.UpdatePost(k.value, post);
    if rows < 1 {
      return Fail(FailedDependency, "We could not update user post, please try again");
    }
    return Ok(OK, "Post updated successfully", ViewOf(post, 0));
  }

  method DeletePost(db: Store, username: Option<string>, postId: string) returns (r: Response<bool>)
    requires db.Valid()
    modifies db`posts
    ensures db.Valid()
    ensures UserNamed(db.users, username).None? ==>
      r == Response(NotFound, UserMissing(username), Some(false)) && db.posts == old(db.posts)
    ensures UserNamed(db.users, username).Some? ==>
      match OwnedPost(old(db.posts), postId, db.users[UserNamed(db.users, username).value].id)
      case None => r == Response(NotFound, "Sorry! Post does not exist, check and try again.", Some(false)) && db.posts == old(db.posts)
      case Some(k) =>
        (r == Ok(OK, "Post deleted successfully", true) && db.posts == RemoveAt(old(db.posts), k)) ||
        (r == Response(FailedDependency, "We could not delete user post, please try again", Some(false)) && db.posts == old(db.posts))
  {
    var u := UserNamed(db.users, username);
    if u.None? {
      return Response(NotFound, UserMissing(username), Some(false));
    }
    var k := OwnedPost(db.posts, postId, db.users[u.value].id);
    if k.None? {
      return Response(NotFound, "Sorry! Post does not exist, check and try again.", Some(false));
    }
    var rows := db.DeletePost(k.value);
    if rows < 1 {
      return Response(FailedDependency, "We could not delete user post, please try again", Some(false));
    }
    return Ok(OK, "Post deleted successfully", true);
  }

  // ---------------------------------------------------------------------
  // Properties of the owner-checked operations

  /** Only the owner reaches a post: another user's post with that id, or
      none at all, is a 404 for the caller. */
  lemma OwnerOnly(posts: seq<Post>, postId: string, userId: string)
    ensures OwnedPost(posts, postId, userId).None? <==>
      forall k :: 0 <= k < |posts| && posts[k].id == postId ==> posts[k].userId != userId
  {
    var r := OwnedPost(posts, postId, userId);
    if r.Some? {
      assert posts[r.value].id == postId && posts[r.value].userId == userId;
    }
  }

  /** An update rewrites one post and leaves every other post as it was;
      applying the same request twice saves the same post as once, up to the
      time stamp. */
  lemma UpdateTouchesOnlyThatPost(posts: seq<Post>, k: nat, request: PostRequest, now: int, later: int)
    requires UniquePostIds(posts) && k < |posts|
    ensures var after := posts[k := Revised(posts[k], request, now)];
      UniquePostIds(after) &&
      (forall j :: 0 <= j < |posts| && j != k ==> after[j] == posts[j]) &&
      Revised(Revised(posts[k], request, now), request, later) == Revised(posts[k], request, later)
  {
  }

  /** A delete removes exactly the chosen post: no post with its id is
      left, and every other post stays. */
  lemma DeleteRemovesOnlyThatPost(posts: seq<Post>, k: nat)
    requires UniquePostIds(posts) && k < |posts|
    ensures forall j :: 0 <= j < |RemoveAt(posts, k)| ==> RemoveAt(posts, k)[j].id != posts[k].id
    ensures forall j :: 0 <= j < |posts| && j != k ==> posts[j] in RemoveAt(posts, k)
  {
    var r := RemoveAt(posts, k);
    forall j | 0 <= j < |posts| && j != k
      ensures posts[j] in r
    {
      if j < k {
        assert r[j] == posts[j];
      } else {
        assert r[j - 1] == posts[j];
      }
    }
  }
}
