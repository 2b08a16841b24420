/** The database as one in-memory store: a table per entity, each a
    sequence in storage order (the order `FirstOrDefault` sees). Every
    write reports the number of rows it saved; a write may fail and save
    nothing, which the services observe as a count below 1. */
module Storage {
  import opened Common
  import opened Query
  import opened Entities

  ghost predicate UniqueUserIds(s: seq<User>)
  {
    forall i, j :: 0 <= i < j < |s| ==> s[i].id != s[j].id
  }

  ghost predicate UniquePostIds(s: seq<Post>)
  {
    forall i, j :: 0 <= i < j < |s| ==> s[i].id != s[j].id
  }

  ghost predicate UniqueCommentIds(s: seq<Comment>)
  {
    forall i, j :: 0 <= i < j < |s| ==> s[i].id != s[j].id
  }

  ghost predicate UniqueLikeIds(s: seq<PostLike>)
  {
    forall i, j :: 0 <= i < j < |s| ==> s[i].id != s[j].id
  }

  ghost predicate UniqueRequestIds(s: seq<FriendshipRequest>)
  {
    forall i, j :: 0 <= i < j < |s| ==> s[i].id != s[j].id
  }

  ghost predicate UniqueFriendshipIds(s: seq<Friendship>)
  {
    forall i, j :: 0 <= i < j < |s| ==> s[i].id != s[j].id
  }

  /** The unique indexes on Username and on Email. */
  ghost predicate UniqueAccounts(users: seq<User>)
  {
    forall i, j :: 0 <= i < j < |users| ==>
      users[i].username != users[j].username && users[i].email != users[j].email
  }

  /** A row other than position i already holds u's username or email, so
      saving u at i (or appending it, for an i past the end) would break a
      unique index. */
  predicate AccountTaken(users: seq<User>, i: int, u: User)
  {
    exists k :: 0 <= k < |users| && k != i && (users[k].username == u.username || users[k].email == u.email)
  }

  /** Saving a row under its own username and email breaks no index. */
  lemma SameAccountNotTaken(users: seq<User>, i: nat, u: User)
    requires UniqueAccounts(users) && i < |users|
    requires u.username == users[i].username && u.email == users[i].email
    ensures !AccountTaken(users, i, u)
  {
    forall k | 0 <= k < |users| && k != i
      ensures users[k].username != u.username && users[k].email != u.email
    {
      if k < i {
        assert users[k].username != users[i].username && users[k].email != users[i].email;
      } else {
        assert users[i].username != users[k].username && users[i].email != users[k].email;
      }
    }
  }

  /** The unique index on (FollowerId, FollowingId). */
  ghost predicate UniqueEdges(s: seq<Friendship>)
  {
    forall i, j :: 0 <= i < j < |s| ==>
      (s[i].followerId, s[i].followingId) != (s[j].followerId, s[j].followingId)
  }

  /** No stored request is addressed by a user to themselves. */
  ghost predicate NoSelfRequests(s: seq<FriendshipRequest>)
  {
    forall i :: 0 <= i < |s| ==> s[i].senderId != s[i].receiverId
  }

  /** A reply is stored after its parent, so the reply relation has no cycle. */
  ghost predicate ParentOrdered(s: seq<Comment>)
  {
    forall i, j :: 0 <= i < |s| && 0 <= j < |s| && s[i].parentCommentId == Some(s[j].id) ==> j < i
  }

  lemma {:induction false} ParentOrderedRemoveAt(s: seq<Comment>, k: nat)
    requires k < |s| && ParentOrdered(s)
    ensures ParentOrdered(RemoveAt(s, k))
  {
    var r := RemoveAt(s, k);
    forall i, j | 0 <= i < |r| && 0 <= j < |r| && r[i].parentCommentId == Some(r[j].id)
      ensures j < i
    {
      var oi := if i < k then i else i + 1;
      var oj := if j < k then j else j + 1;
      assert r[i] == s[oi] && r[j] == s[oj];
    }
  }

  /** `FindOneAsync(u => u.Username == name)`: the first user with that name. */
  function UserNamed(users: seq<User>, name: Option<string>): (r: Option<nat>)
    ensures r.Some? ==> r.value < |users| && Some(users[r.value].username) == name
    ensures r.Some? ==> forall j :: 0 <= j < r.value ==> Some(users[j].username) != name
    ensures r.None? ==> forall j :: 0 <= j < |users| ==> Some(users[j].username) != name
  {
    FirstIndex(users, (u: User) => Some(u.username) == name)
  }

  /** The 404 message for a user name that matches no account; a null name
      prints as nothing. */
  function UserMissing(name: Option<string>): string
  {
    "Sorry! User " + (if name.Some? then name.value else "") + " does not exist, check and try again."
  }

  /** `CountAsync(pl => pl.PostId == postId)`: every like row carrying the
      post's id, comment likes included. */
  function PostLikeCount(likes: seq<PostLike>, postId: string): nat
  {
    Count(likes, (l: PostLike) => l.postId == postId)
  }

  /** `CountAsync(l => l.CommentId == id)` */
  function CommentLikeCount(likes: seq<PostLike>, id: string): nat
  {
    Count(likes, (l: PostLike) => l.commentId == Some(id))
  }

  /** `GetByIdAsync(id)` on the user table. */
  function UserWithId(users: seq<User>, id: string): (r: Option<nat>)
    ensures r.Some? ==> r.value < |users| && users[r.value].id == id
    ensures r.None? ==> forall j :: 0 <= j < |users| ==> users[j].id != id
  {
    FirstIndex(users, (u: User) => u.id == id)
  }

  /** `GetByIdAsync(id)` on the post table. */
  function PostWithId(posts: seq<Post>, id: string): (r: Option<nat>)
    ensures r.Some? ==> r.value < |posts| && posts[r.value].id == id
    ensures r.None? ==> forall j :: 0 <= j < |posts| ==> posts[j].id != id
  {
    FirstIndex(posts, (p: Post) => p.id == id)
  }

  /** `GetByIdAsync(id)` on the comment table. */
  function CommentWithId(comments: seq<Comment>, id: string): (r: Option<nat>)
    ensures r.Some? ==> r.value < |comments| && comments[r.value].id == id
    ensures r.None? ==> forall j :: 0 <= j < |comments| ==> comments[j].id != id
  {
    FirstIndex(comments, (c: Comment) => c.id == id)
  }

  /** `GetByIdAsync(id)` on the friendship request table. */
  function RequestWithId(requests: seq<FriendshipRequest>, id: string): (r: Option<nat>)
    ensures r.Some? ==> r.value < |requests| && requests[r.value].id == id
    ensures r.None? ==> forall j :: 0 <= j < |requests| ==> requests[j].id != id
  {
    FirstIndex(requests, (q: FriendshipRequest) => q.id == id)
  }

  class Store {
    var users: seq<User>
    var posts: seq<Post>
    var comments: seq<Comment>
    var likes: seq<PostLike>
    var requests: seq<FriendshipRequest>
    var friendships: seq<Friendship>

    /** The schema facts every store keeps. */
    ghost predicate Valid()
      reads this
    {
      UniqueUserIds(users) && UniqueAccounts(users) && UniquePostIds(posts) && UniqueCommentIds(comments) &&
      ParentOrdered(comments) && UniqueLikeIds(likes) && UniqueRequestIds(requests) &&
      NoSelfRequests(requests) && UniqueFriendshipIds(friendships) && UniqueEdges(friendships)
    }

    constructor ()
      ensures Valid()
      ensures users == [] && posts == [] && comments == [] && likes == [] &&
              requests == [] && friendships == []
    {
      users, posts, comments, likes, requests, friendships := [], [], [], [], [], [];
    }

    method AddUser(u: User) returns (rows: int)
      requires Valid()
      requires forall k :: 0 <= k < |users| ==> users[k].id != u.id
      requires !AccountTaken(users, |users|, u)
      modifies this`users
      ensures Valid()
      ensures rows >= 1 ==> users == old(users) + [u]
      ensures rows < 1 ==> users == old(users)
    {
      var saved: bool :| true;
      if saved {
        users := users + [u];
        rows := 1;
      } else {
        rows := 0;
      }
    }

    /** Saves the row at position i with new field values. */
    method UpdateUser(i: nat, u: User) returns (rows: int)
      requires Valid()
      requires i < |users| && u.id == users[i].id
      requires !AccountTaken(users, i, u)
      modifies this`users
      ensures Valid()
      ensures rows >= 1 ==> users == old(users)[i := u]
      ensures rows < 1 ==> users == old(users)
    {
      var saved: bool :| true;
      if saved {
        users := users[i := u];
        rows := 1;
      } else {
        rows := 0;
      }
    }

    method AddPost(p: Post) returns (rows: int)
      requires Valid()
      requires forall k :: 0 <= k < |posts| ==> posts[k].id != p.id
      modifies this`posts
      ensures Valid()
      ensures rows >= 1 ==> posts == old(posts) + [p]
      ensures rows < 1 ==> posts == old(posts)
    {
      var saved: bool :| true;
      if saved {
        posts := posts + [p];
        rows := 1;
      } else {
        rows := 0;
      }
    }

    method UpdatePost(i: nat, p: Post) returns (rows: int)
      requires Valid()
      requires i < |posts| && p.id == posts[i].id
      modifies this`posts
      ensures Valid()
      ensures rows >= 1 ==> posts == old(posts)[i := p]
      ensures rows < 1 ==> posts == old(posts)
    {
      var saved: bool :| true;
      if saved {
        posts := posts[i := p];
        rows := 1;
      } else {
        rows := 0;
      }
    }

    method DeletePost(i: nat) returns (rows: int)
      requires Valid()
      requires i < |posts|
      modifies this`posts
      ensures Valid()
      ensures rows >= 1 ==> posts == RemoveAt(old(posts), i)
      ensures rows < 1 ==> posts == old(posts)
    {
      var saved: bool :| true;
      if saved {
        posts := RemoveAt(posts, i);
        rows := 1;
      } else {
        rows := 0;
      }
    }

    /** A new comment: its id is fresh, so no stored comment has it and
        no comment, this one included, names it as parent. */
    method AddComment(c: Comment) returns (rows: int)
      requires Valid()
      requires forall k :: 0 <= k < |comments| ==> comments[k].id != c.id
      requires forall k :: 0 <= k < |comments| ==> comments[k].parentCommentId != Some(c.id)
      requires c.parentCommentId != Some(c.id)
      modifies this`comments
      ensures Valid()
      ensures rows >= 1 ==> comments == old(comments) + [c]
      ensures rows < 1 ==> comments == old(comments)
    {
      var saved: bool :| true;
      if saved {
        comments := comments + [c];
        rows := 1;
      } else {
        rows := 0;
      }
    }

    method DeleteComment(i: nat) returns (rows: int)
      requires Valid()
      requires i < |comments|
      modifies this`comments
      ensures Valid()
      ensures rows >= 1 ==> comments == RemoveAt(old(comments), i)
      ensures rows < 1 ==> comments == old(comments)
    {
      var saved: bool :| true;
      if saved {
        ParentOrderedRemoveAt(comments, i);
        comments := RemoveAt(comments, i);
        rows := 1;
      } else {
        rows := 0;
      }
    }

    method AddLike(l: PostLike) returns (rows: int)
      requires Valid()
      requires forall k :: 0 <= k < |likes| ==> likes[k].id != l.id
      modifies this`likes
      ensures Valid()
      ensures rows >= 1 ==> likes == old(likes) + [l]
      ensures rows < 1 ==> likes == old(likes)
    {
      var saved: bool :| true;
      if saved {
        likes := likes + [l];
        rows := 1;
      } else {
        rows := 0;
      }
    }

    method DeleteLike(i: nat) returns (rows: int)
      requires Valid()
      requires i < |likes|
      modifies this`likes
      ensures Valid()
      ensures rows >= 1 ==> likes == RemoveAt(old(likes), i)
      ensures rows < 1 ==> likes == old(likes)
    {
      var saved: bool :| true;
      if saved {
        likes := RemoveAt(likes, i);
        rows := 1;
      } else {
        rows := 0;
      }
    }

    method AddRequest(q: FriendshipRequest) returns (rows: int)
      requires Valid()
      requires forall k :: 0 <= k < |requests| ==> requests[k].id != q.id
      requires q.senderId != q.receiverId
      modifies this`requests
      ensures Valid()
      ensures rows >= 1 ==> requests == old(requests) + [q]
      ensures rows < 1 ==> requests == old(requests)
    {
      var saved: bool :| true;
      if saved {
        requests := requests + [q];
        rows := 1;
      } else {
        rows := 0;
      }
    }

    method DeleteRequest(i: nat) returns (rows: int)
      requires Valid()
      requires i < |requests|
      modifies this`requests
      ensures Valid()
      ensures rows >= 1 ==> requests == RemoveAt(old(requests), i)
      ensures rows < 1 ==> requests == old(requests)
    {
      var saved: bool :| true;
      if saved {
        requests := RemoveAt(requests, i);
        rows := 1;
      } else {
        rows := 0;
      }
    }

    /** Adds a follow edge whose (follower, following) pair is not stored yet. */
    method AddFriendship(f: Friendship) returns (rows: int)
      requires Valid()
      requires forall k :: 0 <= k < |friendships| ==> friendships[k].id != f.id
      requires forall k :: 0 <= k < |friendships| ==>
        (friendships[k].followerId, friendships[k].followingId) != (f.followerId, f.followingId)
      modifies this`friendships
      ensures Valid()
      ensures rows >= 1 ==> friendships == old(friendships) + [f]
      ensures rows < 1 ==> friendships == old(friendships)
    {
      var saved: bool :| true;
      if saved {
        friendships := friendships + [f];
        rows := 1;
      } else {
        rows := 0;
      }
    }
  }
}
