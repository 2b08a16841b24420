/** The follower and following listings: the follow edges into (or out of)
    a user, newest first, one page of them, each shown with the user at the
    other end. */
module Friendships {
  import opened Common
  import opened Query
  import opened Pagination
  import opened Entities
  import opened Storage

  datatype FollowView = FollowView(username: string, fullName: string, bio: Option<string>,
                                   profilePictureUrl: Option<string>, isMutual: bool)

  /** The user at the other end of an edge: its follower in the followers
      listing, the followed user in the following listing. */
  function OtherEnd(f: Friendship, followers: bool): string
  {
    if followers then f.followerId else f.followingId
  }

  function FollowedAt(f: Friendship): int
  {
    f.followedAt
  }

  /** The edges into the user (followers) or out of the user (following), newest first. */
  function EdgeQuery(friendships: seq<Friendship>, userId: string, followers: bool): (r: seq<Friendship>)
    ensures multiset(r) <= multiset(friendships)
    ensures forall i :: 0 <= i < |r| ==> (if followers then r[i].followingId else r[i].followerId) == userId
    ensures SortedDesc(r, FollowedAt)
  {
    var keep := (f: Friendship) => (if followers then f.followingId else f.followerId) == userId;
    WhereOrdered(friendships, keep, FollowedAt);
    SortDesc(Filter(friendships, keep), FollowedAt)
  }

  function FollowViewOf(u: User, f: Friendship): FollowView
  {
    FollowView(u.username, u.fullName, u.bio, u.profilePictureUrl, f.isMutual)
  }

  function EdgeView(users: seq<User>, f: Friendship, followers: bool): Option<FollowView>
  {
    match UserWithId(users, OtherEnd(f, followers))
    case None => None
    case Some(j) => Some(FollowViewOf(users[j], f))
  }

  /** The page's edges whose other user exists, each shown with that user. */
  function FollowViews(users: seq<User>, page: seq<Friendship>, followers: bool): seq<FollowView>
    decreases |page|
  {
    if page == [] then []
    else
      var init := FollowViews(users, page[..|page| - 1], followers);
      match EdgeView(users, page[|page| - 1], followers)
      case None => init
      case Some(v) => init + [v]
  }

  /** An entry shows an edge's flag and a stored user at its other end. */
  predicate Shows(users: seq<User>, v: FollowView, f: Friendship, followers: bool)
  {
    exists j :: 0 <= j < |users| && users[j].id == OtherEnd(f, followers) && v == FollowViewOf(users[j], f)
  }

  /** Edges whose other user is missing are skipped: the listing is no longer
      than the page, and each entry shows an edge of the page with its own
      IsMutual flag. */
  lemma {:induction false} FollowViewsSound(users: seq<User>, page: seq<Friendship>, followers: bool)
    ensures |FollowViews(users, page, followers)| <= |page|
    ensures forall v :: v in FollowViews(users, page, followers) ==>
      exists f :: f in page && Shows(users, v, f, followers) && v.isMutual == f.isMutual
    decreases |page|
  {
    if page != [] {
      var front := page[..|page| - 1];
      FollowViewsSound(users, front, followers);
      assert forall f :: f in front ==> f in page;
      var last := page[|page| - 1];
      match EdgeView(users, last, followers)
      case None =>
      case Some(v) =>
        assert Shows(users, v, last, followers);
    }
  }

  /** With every other user present, the listing follows the page one for one. */
  lemma {:induction false} FollowViewsComplete(users: seq<User>, page: seq<Friendship>, followers: bool)
    requires forall k :: 0 <= k < |page| ==> UserWithId(users, OtherEnd(page[k], followers)).Some?
    ensures |FollowViews(users, page, followers)| == |page|
    ensures forall k :: 0 <= k < |page| ==> Shows(users, FollowViews(users, page, followers)[k], page[k], followers)
    decreases |page|
  {
    if page != [] {
      var front := page[..|page| - 1];
      assert forall k :: 0 <= k < |front| ==> front[k] == page[k];
      FollowViewsComplete(users, front, followers);
      var j := UserWithId(users, OtherEnd(page[|page| - 1], followers)).value;
      assert Shows(users, FollowViews(users, page, followers)[|page| - 1], page[|page| - 1], followers);
    }
  }

  /** The foreach over the page, skipping edges whose other user is missing. */
  method ProjectEdges(users: seq<User>, page: seq<Friendship>, followers: bool) returns (views: seq<FollowView>)
    ensures views == FollowViews(users, page, followers)
  {
    views := [];
    var k := 0;
    while k < |page|
      invariant 0 <= k <= |page|
      invariant views == FollowViews(users, page[..k], followers)
    {
      var f := page[k];
      ghost var prefix := page[..k + 1];
      assert prefix[..k] == page[..k] && prefix[k] == f;
      var other := UserWithId(users, OtherEnd(f, followers));
      if other.Some? {
        var u := users[other.value];
        views := views + [FollowView(u.username, u.fullName, u.bio, u.profilePictureUrl, f.isMutual)];
      }
      assert views == FollowViews(users, prefix, followers);
      k := k + 1;
    }
    assert page[..k] == page;
  }

  method GetUserFollowers(db: Store, username: string, pageNumber: int, pageSize: int)
    returns (r: Response<PagedResult<FollowView>>)
    requires pageNumber >= 1 && pageSize > 0
    ensures UserNamed(db.users, Some(username)).None? ==> r == Fail(NotFound, "User not found, check and try again")
    ensures UserNamed(db.users, Some(username)).Some? ==>
      var page := GetPaged(EdgeQuery(db.friendships, db.users[UserNamed(db.users, Some(username)).value].id, true),
                           pageNumber, pageSize);
      r == Ok(OK, "User followers fetched successfully", WithResults(page, FollowViews(db.users, page.results, true)))
  {
    var u := UserNamed(db.users, Some(username));
    if u.None? {
      return Fail(NotFound, "User not found, check and try again");
    }
    var page := GetPaged(EdgeQuery(db.friendships, db.users[u.value].id, true), pageNumber, pageSize);
    var views := ProjectEdges(db.users, page.results, true);
    return Ok(OK, "User followers fetched successfully", WithResults(page, views));
  }

  method GetUserFollowing(db: Store, username: string, pageNumber: int, pageSize: int)
    returns (r: Response<PagedResult<FollowView>>)
    requires pageNumber >= 1 && pageSize > 0
    ensures UserNamed(db.users, Some(username)).None? ==> r == Fail(NotFound, "User not found, check and try again")
    ensures UserNamed(db.users, Some(username)).Some? ==>
      var page := GetPaged(EdgeQuery(db.friendships, db.users[UserNamed(db.users, Some(username)).value].id, false),
                           pageNumber, pageSize);
      r == Ok(OK, "User followings fetched successfully", WithResults(page, FollowViews(db.users, page.results, false)))
  {
    var u := UserNamed(db.users, Some(username));
    if u.None? {
      return Fail(NotFound, "User not found, check and try again");
    }
    var page := GetPaged(EdgeQuery(db.friendships, db.users[u.value].id, false), pageNumber, pageSize);
    var views := ProjectEdges(db.users, page.results, false);
    return Ok(OK, "User followings fetched successfully", WithResults(page, views));
  }

  /** A listing page holds only edges into the user (followers) or out of
      the user (following), newest first, at most pageSize of them, and
      shows no more entries than it has edges. */
  lemma {:induction false} ListingPageShape(friendships: seq<Friendship>, users: seq<User>, userId: string,
                                            pageNumber: int, pageSize: int, followers: bool)
    requires pageNumber >= 1 && pageSize > 0
    ensures var page := GetPaged(EdgeQuery(friendships, userId, followers), pageNumber, pageSize);
      |page.results| <= pageSize &&
      (forall i :: 0 <= i < |page.results| ==>
        (if followers then page.results[i].followingId else page.results[i].followerId) == userId) &&
      SortedDesc(page.results, FollowedAt) &&
      |FollowViews(users, page.results, followers)| <= |page.results|
  {
    var q := EdgeQuery(friendships, userId, followers);
    PageKeepsProperty(q, pageNumber, pageSize,
      (f: Friendship) => (if followers then f.followingId else f.followerId) == userId);
    PageKeepsOrder(q, pageNumber, pageSize, FollowedAt);
    FollowViewsSound(users, GetPaged(q, pageNumber, pageSize).results, followers);
  }
}
