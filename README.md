# VibeConnect domain core in Dafny

VibeConnect is a social-network backend. Its service classes do the real work. Each call first runs a ladder of guards, and each guard answers with an HTTP-style status code. After the guards come a few inserts, updates or deletes on the database tables. This project models those services and proves what they promise.

- **Social graph.** The friend-request lifecycle: a daily rate limit, self, duplicate and status checks, then approve or reject, which turns a request into a follow edge. Also the follower and following listings.
- **Content.**
  - Post create, read, update and delete, with owner checks.
  - Comment add and delete.
  - The page-local reply forest of a post's comments.
  - The stack-driven expansion of one comment's reply tree.
  - The like/unlike toggles for posts and comments, which share one like table.
- **Profile.** Profile lookup; the null-coalescing field merge and the reconciliation of language and link lists.
- **Auth.** Registration conflicts, and the login → refresh (rotate) → revoke life of a user's refresh token.
- **Helpers.** Paging arithmetic and slicing, row bounds of a page, media file-type classification, upload validation, and the password helper's hex and two-factor-code formatting.

How the model is built:

- The database is the class `Storage.Store`. It holds one sequence per table: users, posts, comments, likes, friend requests and friendships. Table order is the order a first-match lookup sees.
- Each repository write (`AddAsync`, `UpdateAsync`, `DeleteAsync`) is a `Store` method. It may fail, and it reports a row count; every service treats a count below 1 as failure. A write that succeeds changes exactly one row; one that fails changes nothing.
- `Store.Valid` holds the store invariants:
  - ids are unique in every table;
  - usernames are unique, and so are emails;
  - a comment's parent, when stored, is stored before it;
  - no request is addressed to its own sender;
  - each (follower, following) pair appears at most once.
- A service operation is a `method` that takes the store and returns a `Response`: a code with a message, plus data on success. When the data type is `bool` or `int`, the data is never null: a reply that does not set it carries `false` or `0`, and the model states that value. Most services are specified by a pure plan function, which states the guard ladder and the write to make. The method's `ensures` ties the store's new state and the reply to that plan.
- Instants are integer seconds, and the current time `now` is a parameter. The ids of new rows are parameters too, and each must be fresh.
- The key-derivation function, SHA-256, the random-number generator, the JWT issuer and the cloud uploader are function parameters. They are not modelled inside.

The modules are `Common`, `Query`, `Pagination`, `Entities`, `Storage`, `CommentTree`, `Posts`, `PostLikes`, `CommentLikes`, `Comments`, `FriendRequests`, `Friendships`, `Profiles`, `Auth`, `Passwords`, `Media` and `Uploads`.

## Model

| member | source | states |
|---|---|---|
| Storage.UserNamed | src/modules/VibeConnect.Post.Module/Services/Post/PostService.cs:33 | the first user whose username equals the (possibly null) name, and none before it; none when no user has that name |
| Storage.UserWithId | src/modules/VibeConnect.Friendship.Module/Services/FriendRequestService.cs:180-194 | the user with that id when one is stored, else none |
| Storage.PostWithId | src/modules/VibeConnect.Post.Module/Services/PostLikes/PostLikeService.cs:35-44 | the post with that id when one is stored, else none |
| Storage.CommentWithId | src/modules/VibeConnect.Post.Module/Services/Comment/CommentLikeService.cs:27-36 | the comment with that id when one is stored, else none |
| Storage.RequestWithId | src/modules/VibeConnect.Friendship.Module/Services/FriendRequestService.cs:248-258 | the friend request with that id when one is stored, else none |
| Storage.ParentOrderedRemoveAt | src/modules/VibeConnect.Post.Module/Services/Comment/CommentService.cs:303 | removing one comment keeps every stored parent before its replies, so the reply relation stays acyclic |
| Storage.Store.AddUser | src/libraries/VibeConnect.Storage/Services/BaseRepository.cs:32-36 | a saved count of at least 1 means exactly this user was appended, a count below 1 that nothing changed; the store invariants, unique usernames and emails included, are kept |
| Storage.SameAccountNotTaken | src/libraries/VibeConnect.Storage/EntityConfigurations/UserConfiguration.cs:14-24 | with usernames and emails unique, saving a row under its own username and email clashes with no other row |
| Storage.Store.UpdateUser | src/libraries/VibeConnect.Storage/Services/BaseRepository.cs:44-48 | a count of at least 1 means exactly row i was replaced, below 1 that nothing changed; a row whose username and email no other row holds keeps both unique |
| Storage.Store.AddPost | src/libraries/VibeConnect.Storage/Services/BaseRepository.cs:32-36 | a count of at least 1 means exactly the post was appended, below 1 that nothing changed |
| Storage.Store.UpdatePost | src/libraries/VibeConnect.Storage/Services/BaseRepository.cs:44-48 | a count of at least 1 means exactly post i was replaced, below 1 that nothing changed |
| Storage.Store.DeletePost | src/libraries/VibeConnect.Storage/Services/BaseRepository.cs:56-60 | a count of at least 1 means exactly post i was removed, below 1 that nothing changed |
| Storage.Store.AddComment | src/libraries/VibeConnect.Storage/Services/BaseRepository.cs:32-36 | a count of at least 1 means exactly the comment was appended, below 1 that nothing changed; a parent stored earlier keeps the table acyclic |
| Storage.Store.DeleteComment | src/libraries/VibeConnect.Storage/Services/BaseRepository.cs:56-60 | a count of at least 1 means exactly comment i was removed, below 1 that nothing changed |
| Storage.Store.AddLike | src/libraries/VibeConnect.Storage/Services/BaseRepository.cs:32-36 | a count of at least 1 means exactly the like row was appended, below 1 that nothing changed |
| Storage.Store.DeleteLike | src/libraries/VibeConnect.Storage/Services/BaseRepository.cs:56-60 | a count of at least 1 means exactly like row i was removed, below 1 that nothing changed |
| Storage.Store.AddRequest | src/libraries/VibeConnect.Storage/Services/BaseRepository.cs:32-36 | a count of at least 1 means exactly the friend request was appended, below 1 that nothing changed; no request is addressed to its own sender |
| Storage.Store.DeleteRequest | src/libraries/VibeConnect.Storage/Services/BaseRepository.cs:56-60 | a count of at least 1 means exactly request i was removed, below 1 that nothing changed |
| Storage.Store.AddFriendship | src/libraries/VibeConnect.Storage/Services/BaseRepository.cs:32-36 | a count of at least 1 means exactly the follow edge was appended, below 1 that nothing changed; the (follower, following) pair stays unique |
| Entities.ParseAccountStatus | src/modules/VibeConnect.Friendship.Module/Services/FriendRequestService.cs:63 | `Enum.TryParse` on the status text: a blank text has no value; any value is a 32-bit integer; a text that does not start like a number has a value only as a list of member names, so between 0 and 3 |
| Entities.PaddedNameParses | src/libraries/VibeConnect.Storage/Entities/User.cs:76-81 | Active, Suspended or Deactivated with any white space before and after parses to 0, 1 or 2 |
| Entities.CommaJoinedNamesParse | src/libraries/VibeConnect.Storage/Entities/User.cs:76-81 | two member names joined by a comma parse to their values or-ed together, so "Active,Suspended" is 1 |
| Entities.NumericStatusParses | src/modules/VibeConnect.Friendship.Module/Services/FriendRequestService.cs:63 | a decimal number in the 32-bit range parses to that number, with or without a minus sign, so "1" is Suspended and "5" is a value that is not Active |
| Pagination.CeilDiv | src/libraries/VibeConnect.Shared/Extensions/PaginationExtension.cs:18-19 | the least q with q * d >= n: q * d >= n, (q - 1) * d < n when n > 0, 0 for n = 0 |
| Pagination.SkipTake | src/libraries/VibeConnect.Shared/Extensions/PaginationExtension.cs:21 | the slice of at most `take` rows starting at `skip`, in query order; empty past the end |
| Pagination.GetPaged | src/libraries/VibeConnect.Shared/Extensions/PaginationExtension.cs:8-24 | PageIndex = LowerBound = page, PageSize = pageSize, TotalCount = row count, UpperBound = TotalPages = ceiling of count / size, results = the rows from (page - 1) * size, at most size of them, empty past the last page |
| Pagination.PageKeepsOrder | src/libraries/VibeConnect.Shared/Extensions/PaginationExtension.cs:21 | a page of a query sorted newest first is sorted newest first |
| Pagination.PageKeepsProperty | src/libraries/VibeConnect.Shared/Extensions/PaginationExtension.cs:21 | a property of every row of the query holds of every row of the page |
| Pagination.PageWithin | src/libraries/VibeConnect.Shared/Extensions/PaginationExtension.cs:21 | every row of a page is a row of the query |
| Pagination.PageDistinct | src/libraries/VibeConnect.Shared/Extensions/PaginationExtension.cs:21 | a page of a query without repeats has no repeats |
| Pagination.FirstRowOnPage | src/libraries/VibeConnect.Shared/Models/PagedResultBase.cs:31 | 1 on page 1, at least 1 on any page from 1 on |
| Pagination.LastRowOnPage | src/libraries/VibeConnect.Shared/Models/PagedResultBase.cs:36 | the minimum of CurrentPage * PageSize and RowCount: bounded by both and equal to one of them |
| Pagination.RowsOnPageAtMostPageSize | src/libraries/VibeConnect.Shared/Models/PagedResultBase.cs:31-36 | LastRowOnPage - FirstRowOnPage + 1 <= PageSize |
| Query.SortDescSorted | src/modules/VibeConnect.Post.Module/Services/Post/PostService.cs:109 | `OrderByDescending` yields a sequence sorted by a descending key |
| Query.CountAppend | src/modules/VibeConnect.Post.Module/Services/PostLikes/PostLikeService.cs:69 | appending a row raises a count by one exactly when the row matches |
| Query.CountRemoveAt | src/modules/VibeConnect.Post.Module/Services/PostLikes/PostLikeService.cs:84 | removing a row lowers a count by one exactly when the row matched |
| Posts.OwnedPost | src/modules/VibeConnect.Post.Module/Services/Post/PostService.cs:178 | the first post with that id and that owner; none exactly when no post has both |
| Posts.NewPost | src/modules/VibeConnect.Post.Module/Services/Post/PostService.cs:44-50 | the stored post carries the new id, the caller's id, the request's content, media and location, creation time now, no update time |
| Posts.CreatePost | src/modules/VibeConnect.Post.Module/Services/Post/PostService.cs:21-71 | 404 with the user-missing message and no change for an unknown user; else one post appended and 201, or no change and 424 |
| Posts.PostQuery | src/modules/VibeConnect.Post.Module/Services/Post/PostService.cs:107-110 | only the user's posts, each from the table, newest first |
| Posts.PostQueryComplete | src/modules/VibeConnect.Post.Module/Services/Post/PostService.cs:107 | every post of the user is in the query |
| Posts.ViewPosts | src/modules/VibeConnect.Post.Module/Services/Post/PostService.cs:114-120 | one view per post of the page, in order, with the number of like rows carrying its id |
| Posts.GetUserPosts | src/modules/VibeConnect.Post.Module/Services/Post/PostService.cs:85-140 | 404 for an unknown user; else 200 with the page of the user's posts, newest first, each with its like count and the page metadata unchanged |
| Posts.UserPostsOwnedAndNewestFirst | src/modules/VibeConnect.Post.Module/Services/Post/PostService.cs:107-110 | every post of the listing belongs to the user, and the page is newest first |
| Posts.PostLikeCountIncludesCommentLikes | src/modules/VibeConnect.Post.Module/Services/Post/PostService.cs:117 | a post's like count is its post likes plus the likes of comments on it |
| Posts.GetUserPost | src/modules/VibeConnect.Post.Module/Services/Post/PostService.cs:155-200 | 404 for an unknown user, 404 when the user owns no post with that id, else 200 with the post and its like count |
| Posts.Revised | src/modules/VibeConnect.Post.Module/Services/Post/PostService.cs:251-254 | content, media and location from the request, UpdatedAt now; id, owner and creation time kept |
| Posts.UpdatePost | src/modules/VibeConnect.Post.Module/Services/Post/PostService.cs:216-277 | 404 for an unknown user or a post the user does not own, with no change; else exactly that post revised and 200, or no change and 424 |
| Posts.DeletePost | src/modules/VibeConnect.Post.Module/Services/Post/PostService.cs:292-343 | 404 for an unknown user or a post the user does not own, with data false and no change; else exactly that post removed and 200 with true, or no change and 424 with data false |
| Posts.OwnerOnly | src/modules/VibeConnect.Post.Module/Services/Post/PostService.cs:240-249 | the lookup fails exactly when no post has both the id and the caller as owner |
| Posts.UpdateTouchesOnlyThatPost | src/modules/VibeConnect.Post.Module/Services/Post/PostService.cs:251-257 | after an update ids stay unique and every other post is as before; the same request again later saves the same post up to the update time |
| Posts.DeleteRemovesOnlyThatPost | src/modules/VibeConnect.Post.Module/Services/Post/PostService.cs:326 | after a delete no post has the deleted id, and every other post is still stored |
| PostLikes.ExistingPostLike | src/modules/VibeConnect.Post.Module/Services/PostLikes/PostLikeService.cs:57 | the first like row with this post id and user id, comment likes included; none exactly when there is no such row |
| PostLikes.ValidateInputs | src/modules/VibeConnect.Post.Module/Services/PostLikes/PostLikeService.cs:180-201 | no error exactly when both the post id and the username are non-blank; else a 400 without data |
| PostLikes.HandlePostLike | src/modules/VibeConnect.Post.Module/Services/PostLikes/PostLikeService.cs:17-122 | the guard ladder (400, 400, 404 post, 404 user) changes nothing; a like with no row appends one row, an unlike with a row removes it, either write may fail with 424; otherwise nothing changes; the answer carries the post's like count |
| PostLikes.WriteToggle | src/modules/VibeConnect.Post.Module/Services/PostLikes/PostLikeService.cs:59-107 | a like appends exactly the planned row and an unlike removes exactly the planned row, each write able to fail with its own 424 message; otherwise 200 with the post's count after the write |
| PostLikes.PostLikeGuardOrder | src/modules/VibeConnect.Post.Module/Services/PostLikes/PostLikeService.cs:29-55 | a blank post id is reported first, then a blank username, then a missing post |
| PostLikes.PostToggleEffect | src/modules/VibeConnect.Post.Module/Services/PostLikes/PostLikeService.cs:59-97 | a like adds one row for this post and user with no comment and raises the count by one; an unlike removes a row of this user on this post and lowers it by one; no change otherwise |
| PostLikes.LikeTwiceIsLikeOnce | src/modules/VibeConnect.Post.Module/Services/PostLikes/PostLikeService.cs:59-81 | after a like that inserted or found a row, a second like keeps the table (Keep); a refused like is refused again with the same answer |
| PostLikes.UnlikeTwiceIsUnlikeOnce | src/modules/VibeConnect.Post.Module/Services/PostLikes/PostLikeService.cs:82-97 | with at most one row of the user on the post, a second unlike after a removal keeps the table (Keep); any other first answer is repeated exactly |
| PostLikes.CommentLikeCountsAsPostLike | src/modules/VibeConnect.Post.Module/Services/PostLikes/PostLikeService.cs:57 | a comment like of the user on the post blocks a post like and is what a post unlike deletes |
| PostLikes.LikersSound | src/modules/VibeConnect.Post.Module/Services/PostLikes/PostLikeService.cs:145-154 | every liker listed is a stored user owning one of the rows; never more likers than rows |
| PostLikes.LikersComplete | src/modules/VibeConnect.Post.Module/Services/PostLikes/PostLikeService.cs:145-154 | with every row's user stored, one liker per row, in row order |
| PostLikes.GetUsersWhoLikedPost | src/modules/VibeConnect.Post.Module/Services/PostLikes/PostLikeService.cs:124-168 | 404 for a missing post; else 200 with the page of the post's likers |
| PostLikes.PostLikersTotal | src/modules/VibeConnect.Post.Module/Services/PostLikes/PostLikeService.cs:156 | with all users stored, the listing's total is the post's like count |
| CommentLikes.ExistingCommentLike | src/modules/VibeConnect.Post.Module/Services/Comment/CommentLikeService.cs:52 | the first row with this comment id and user id; none exactly when there is none |
| CommentLikes.HandleCommentLike | src/modules/VibeConnect.Post.Module/Services/Comment/CommentLikeService.cs:15-117 | 404 for a missing comment, then for a missing user, with no change; a like with no row appends one row for the comment's post, the comment and the user; an unlike removes the row; either write may fail with 424; every 404 and 424 carries data 0, and a 200 carries the comment's like count |
| CommentLikes.CommentLikeGuardOrder | src/modules/VibeConnect.Post.Module/Services/Comment/CommentLikeService.cs:27-47 | a missing comment is reported before a missing user; past both checks the toggle is never refused |
| CommentLikes.CommentToggleEffect | src/modules/VibeConnect.Post.Module/Services/Comment/CommentLikeService.cs:54-102 | a like adds one row for this comment, its post and the user and raises the comment's count by one; an unlike removes a row of this user on this comment and lowers it by one |
| CommentLikes.CommentLikeRaisesPostCount | src/modules/VibeConnect.Post.Module/Services/Comment/CommentLikeService.cs:56-77 | a comment like also raises the post's like count by one |
| CommentLikes.LikeCommentTwiceIsLikeOnce | src/modules/VibeConnect.Post.Module/Services/Comment/CommentLikeService.cs:54-77 | after a comment like that inserted or found a row, a second like keeps the table (Keep); a refusal is repeated exactly |
| CommentLikes.UnlikeCommentTwiceIsUnlikeOnce | src/modules/VibeConnect.Post.Module/Services/Comment/CommentLikeService.cs:78-93 | with at most one row of the user on the comment, a second unlike after a removal keeps the table (Keep); any other first answer is repeated exactly |
| CommentLikes.GetUsersWhoLikedComment | src/modules/VibeConnect.Post.Module/Services/Comment/CommentLikeService.cs:119-173 | 404 for a missing comment; else 200 with the page of the comment's likers |
| CommentLikes.CommentLikersTotal | src/modules/VibeConnect.Post.Module/Services/Comment/CommentLikeService.cs:146-152 | with all users stored, the listing's total is the comment's like count |
| Comments.AddComment | src/modules/VibeConnect.Post.Module/Services/Comment/CommentService.cs:18-99 | 404 for an unknown user, then a missing post, then a non-blank parent id naming no comment of that post, with no change; a blank parent id naming no stored comment fails the parent foreign key, 500 with no change; else 201 with the comment, stored or not since the insert count is not checked |
| Comments.AddNeedsUserAndPost | src/modules/VibeConnect.Post.Module/Services/Comment/CommentService.cs:31-51 | a comment is only stored for a known user and an existing post |
| Comments.AddedParentIsStored | src/libraries/VibeConnect.Storage/EntityConfigurations/CommentConfiguration.cs:37-40 | a comment that is stored has no parent id or one naming a stored comment |
| Comments.BlankParentFailsForeignKey | src/libraries/VibeConnect.Storage/EntityConfigurations/CommentConfiguration.cs:37-40 | a blank parent id naming no stored comment skips the parent check and gets 500 from the failed insert |
| Comments.AddStoresRequest | src/modules/VibeConnect.Post.Module/Services/Comment/CommentService.cs:68-74 | the stored comment has the caller's id and the request's post, content and parent id |
| Comments.ReplyParentOnSamePost | src/modules/VibeConnect.Post.Module/Services/Comment/CommentService.cs:53-66 | a non-blank parent id names a stored comment of the same post |
| Comments.MissingParentRefused | src/modules/VibeConnect.Post.Module/Services/Comment/CommentService.cs:53-66 | the parent check runs exactly for a non-blank parent id, and refuses one naming no comment of the post |
| Comments.DeleteComment | src/modules/VibeConnect.Post.Module/Services/Comment/CommentService.cs:277-335 | 404 for an unknown user or a comment that is not the caller's, with data false and no change; else exactly that comment removed and 200 with true, or no change and 424 with false |
| Comments.OnlyAuthorDeletes | src/modules/VibeConnect.Post.Module/Services/Comment/CommentService.cs:292 | the row chosen for deletion has the requested id and the caller as author |
| Comments.DeleteRemovesOnlyThatComment | src/modules/VibeConnect.Post.Module/Services/Comment/CommentService.cs:303 | after a delete no comment has the deleted id and every other comment is still stored |
| Comments.CommentQuery | src/modules/VibeConnect.Post.Module/Services/Comment/CommentService.cs:120-123 | only the post's comments, each from the table, newest first |
| Comments.CommentPageFromTable | src/modules/VibeConnect.Post.Module/Services/Comment/CommentService.cs:120-123 | the page holds stored comments of the post, without repeated ids, newest first |
| Comments.IndexById | src/modules/VibeConnect.Post.Module/Services/Comment/CommentService.cs:125 | each id of the page maps to its position on the page |
| Comments.AttachReplies | src/modules/VibeConnect.Post.Module/Services/Comment/CommentService.cs:134-140 | each comment whose parent is on the page is listed, in page order, under that parent; all others are under none |
| Comments.CountLikes | src/modules/VibeConnect.Post.Module/Services/Comment/CommentService.cs:148-152 | each comment of the page with the number of like rows carrying its id |
| Comments.GetPostComments | src/modules/VibeConnect.Post.Module/Services/Comment/CommentService.cs:101-184 | 404 for a missing post; else 200 with the trees of the page's parentless comments and the page metadata |
| Comments.ForestRootsAreParentless | src/modules/VibeConnect.Post.Module/Services/Comment/CommentService.cs:142-145 | each tree of the listing is headed by a parentless comment of the page |
| Comments.ForestInPageOrder | src/modules/VibeConnect.Post.Module/Services/Comment/CommentService.cs:142-145 | the trees come in page order |
| Comments.ParentlessAreRoots | src/modules/VibeConnect.Post.Module/Services/Comment/CommentService.cs:142-145 | every parentless comment of the page heads a tree |
| Comments.OffPageReplyDropped | src/modules/VibeConnect.Post.Module/Services/Comment/CommentService.cs:134-145 | a reply whose parent is not on the page appears in no tree |
| Comments.ForestLikeCounts | src/modules/VibeConnect.Post.Module/Services/Comment/CommentService.cs:148-152 | every node of every tree carries the like count of its own comment |
| Comments.RepliesOf | src/modules/VibeConnect.Post.Module/Services/Comment/CommentService.cs:231 | the stored comments replying to a comment, in storage order |
| Comments.PushReplies | src/modules/VibeConnect.Post.Module/Services/Comment/CommentService.cs:231-251 | one new node per reply, each pushed on the stack and recorded as a child of the node being expanded |
| Comments.ExpandReplies | src/modules/VibeConnect.Post.Module/Services/Comment/CommentService.cs:201-252 | the stack loop terminates and builds exactly the stored reply tree below the comment |
| Comments.GetCommentWithReplies | src/modules/VibeConnect.Post.Module/Services/Comment/CommentService.cs:186-275 | 404 for a missing comment; else 200 with its reply tree, its own like count set and every other node at 0 |
| Comments.ReplyTreeHoldsDescendants | src/modules/VibeConnect.Post.Module/Services/Comment/CommentService.cs:218-252 | the tree holds exactly the comment and the comments descending from it |
| Comments.ReplyTreeCountsOnlyTheComment | src/modules/VibeConnect.Post.Module/Services/Comment/CommentService.cs:254-255 | every node below the requested comment has like count 0 |
| CommentTree.ChildrenIn | src/modules/VibeConnect.Post.Module/Services/Comment/CommentService.cs:136-138 | the positions of the replies to an id, increasing, all of them |
| CommentTree.RootsIn | src/modules/VibeConnect.Post.Module/Services/Comment/CommentService.cs:142-145 | the positions of the parentless comments, increasing, all of them |
| CommentTree.TreeNodeOrigin | src/modules/VibeConnect.Post.Module/Services/Comment/CommentService.cs:134-140 | every node of a tree is a comment of the page whose parent, unless it is the root, is on the page |
| CommentTree.OrphanAppearsNowhere | src/modules/VibeConnect.Post.Module/Services/Comment/CommentService.cs:134-145 | a comment whose parent is absent from the page is in no tree of a parentless comment |
| CommentTree.TreeCounted | src/modules/VibeConnect.Post.Module/Services/Comment/CommentService.cs:148-152 | every node carries the count of its own comment |
| FriendRequests.SendFriendRequest | src/modules/VibeConnect.Friendship.Module/Services/FriendRequestService.cs:17-135 | the guards in order (404 sender, 429 limit, 404 receiver, 400 self, 400 inactive, 409 pending either way, 409 connected either way) change nothing; else exactly one request from sender to receiver appended and 201, or no change and 424 |
| FriendRequests.SendTo | src/modules/VibeConnect.Friendship.Module/Services/FriendRequestService.cs:54-122 | with both users found: 400 for oneself, 400 for a receiver whose status names a non-active state, 409 for a pending request or an edge in either direction, each with no change; else the request from sender to receiver is appended with 201, or nothing changes and 424 |
| FriendRequests.WriteRequest | src/modules/VibeConnect.Friendship.Module/Services/FriendRequestService.cs:101-122 | 201 with exactly the request appended, or 424 with the request table unchanged |
| FriendRequests.RateLimitPrecedesReceiver | src/modules/VibeConnect.Friendship.Module/Services/FriendRequestService.cs:22-44 | a sender over the limit gets 429 whether or not the receiver exists |
| FriendRequests.SendToSelfRefused | src/modules/VibeConnect.Friendship.Module/Services/FriendRequestService.cs:54-61 | a request to oneself is refused with 400 once past the rate limit |
| FriendRequests.ReceiverStatusGate | src/modules/VibeConnect.Friendship.Module/Services/FriendRequestService.cs:63-70 | past the earlier guards, 400 exactly when the receiver's status parses to a value other than Active's 0; a status that does not parse is let through |
| FriendRequests.InactiveReceiverRefused | src/modules/VibeConnect.Friendship.Module/Services/FriendRequestService.cs:63-70 | a receiver whose status is a non-zero number, or Suspended or Deactivated with any surrounding white space, is refused with 400 |
| FriendRequests.SendProceedsOnlyPastGuards | src/modules/VibeConnect.Friendship.Module/Services/FriendRequestService.cs:72-107 | a request proceeds only between two distinct users with no pending request and no edge either way, from sender to receiver |
| FriendRequests.ExceedsFriendRequestLimit | src/modules/VibeConnect.Friendship.Module/Services/FriendRequestService.cs:428-437 | the sender is over the limit only with 50 or more stored requests |
| FriendRequests.LimitCountsOnlyRecentOwnRequests | src/modules/VibeConnect.Friendship.Module/Services/FriendRequestService.cs:428-437 | another sender's request, or one older than 24 hours, leaves the count and the limit test unchanged; a recent one of the sender's raises the count by one |
| FriendRequests.SendKeepsDailyLimit | src/modules/VibeConnect.Friendship.Module/Services/FriendRequestService.cs:428-437 | a request that proceeds leaves the sender's count in the last 24 hours at most 50 |
| FriendRequests.SendTwiceRefused | src/modules/VibeConnect.Friendship.Module/Services/FriendRequestService.cs:72-85 | once a request is stored, sending it again is refused, with 429 or 409 |
| FriendRequests.ResolveFriendRequest | src/modules/VibeConnect.Friendship.Module/Services/FriendRequestService.cs:244-426 | 404 request, 404 user, 401 not the receiver, 403 own request, 500 for an edge already stored, each with data false and no change; else the edge added and the request deleted with 200 and true, or 424 after the edge write failed, or 424 with the edge kept after the delete failed, both with data false |
| FriendRequests.WriteResolution | src/modules/VibeConnect.Friendship.Module/Services/FriendRequestService.cs:291-327 | 424 with data false and nothing changed when the edge is not saved; 424 with data false and the edge kept when the request is not deleted; else 200 with true, the edge added and the request removed |
| FriendRequests.ApproveFriendRequest | src/modules/VibeConnect.Friendship.Module/Services/FriendRequestService.cs:244-335 | the resolution with a mutual edge from sender to receiver; every refusal and failure carries data false |
| FriendRequests.RejectFriendRequest | src/modules/VibeConnect.Friendship.Module/Services/FriendRequestService.cs:337-426 | the resolution with a non-mutual edge from sender to receiver; every refusal and failure carries data false |
| FriendRequests.OnlyReceiverResolves | src/modules/VibeConnect.Friendship.Module/Services/FriendRequestService.cs:271-279 | a found request and user that are not its receiver give 401; a resolution that proceeds is by the receiver |
| FriendRequests.OwnRequestBranchUnreachable | src/modules/VibeConnect.Friendship.Module/Services/FriendRequestService.cs:281-289 | while no stored request is addressed to its own sender, the 403 branch is never taken |
| FriendRequests.RequestQuery | src/modules/VibeConnect.Friendship.Module/Services/FriendRequestService.cs:154-171 | the user's sent (or received) requests, from the table, newest first |
| FriendRequests.RequestViewsSound | src/modules/VibeConnect.Friendship.Module/Services/FriendRequestService.cs:175-212 | each entry shows a request of the page with its counterpart user; never more entries than requests |
| FriendRequests.RequestViewsComplete | src/modules/VibeConnect.Friendship.Module/Services/FriendRequestService.cs:175-212 | with every counterpart stored, one entry per request in page order |
| FriendRequests.ProjectRequests | src/modules/VibeConnect.Friendship.Module/Services/FriendRequestService.cs:175-212 | the loop skips requests whose counterpart is missing and keeps the rest in order |
| FriendRequests.GetFriendRequests | src/modules/VibeConnect.Friendship.Module/Services/FriendRequestService.cs:137-242 | 404 for an unknown user; else 200 with the projected page and the page metadata unchanged |
| Friendships.EdgeQuery | src/modules/VibeConnect.Friendship.Module/Services/FriendshipService.cs:28-46 | the edges into the user (followers) or out of the user (following), from the table, newest first |
| Friendships.FollowViewsSound | src/modules/VibeConnect.Friendship.Module/Services/FriendshipService.cs:51-66 | each entry shows an edge of the page, its mutual flag and a stored user at its other end; never more entries than edges |
| Friendships.FollowViewsComplete | src/modules/VibeConnect.Friendship.Module/Services/FriendshipService.cs:51-66 | with every other end stored, one entry per edge in page order |
| Friendships.ProjectEdges | src/modules/VibeConnect.Friendship.Module/Services/FriendshipService.cs:51-66 | the loop skips edges whose other user is missing and keeps the rest in order |
| Friendships.GetUserFollowers | src/modules/VibeConnect.Friendship.Module/Services/FriendshipService.cs:14-96 | 404 for an unknown user; else 200 with the projected page of edges into the user and the page metadata unchanged |
| Friendships.GetUserFollowing | src/modules/VibeConnect.Friendship.Module/Services/FriendshipService.cs:98-168 | 404 for an unknown user; else 200 with the projected page of edges out of the user |
| Friendships.ListingPageShape | src/modules/VibeConnect.Friendship.Module/Services/FriendshipService.cs:28-46 | a listing page holds only edges into (or out of) the user, newest first |
| Profiles.ActiveUserNamed | src/modules/VibeConnect.Profile.Module/Services/ProfileService.cs:27-28 | the first user with that name that is not suspended and whose status is "Active"; none exactly when no user passes the filter |
| Profiles.GetUserProfile | src/modules/VibeConnect.Profile.Module/Services/ProfileService.cs:16-58 | 404 when no active user has the name; else 200 with that user's profile |
| Profiles.Survivors | src/modules/VibeConnect.Profile.Module/Services/ProfileService.cs:97-114 | `RemoveAll` keeps no more entries than stored, each a stored entry that no request entry displaces |
| Profiles.AddMissing | src/modules/VibeConnect.Profile.Module/Services/ProfileService.cs:101-113 | the lazy `AddRange` never shrinks the list and adds at most one entry per request entry |
| Profiles.ReconcileList | src/modules/VibeConnect.Profile.Module/Services/ProfileService.cs:97-114 | a list is present afterwards exactly when it was stored; a null stored or request list is left as it is; otherwise every requested key is present |
| Profiles.SurvivorsExact | src/modules/VibeConnect.Profile.Module/Services/ProfileService.cs:99 | a stored entry is removed exactly when some request entry has another key; an empty request list removes nothing |
| Profiles.AddMissingSpec | src/modules/VibeConnect.Profile.Module/Services/ProfileService.cs:101-103 | the list only grows at its end; every request key is present afterwards; added entries come from the request and no key is added twice |
| Profiles.AddMissingPresent | src/modules/VibeConnect.Profile.Module/Services/ProfileService.cs:101-103 | when every request key is already present, nothing is added |
| Profiles.SurvivorBlocksRequest | src/modules/VibeConnect.Profile.Module/Services/ProfileService.cs:99-103 | a surviving entry means every request key equals its key, so nothing is added |
| Profiles.ReconcileIdempotent | src/modules/VibeConnect.Profile.Module/Services/ProfileService.cs:97-114 | reconciling twice with the same request list equals reconciling once |
| Profiles.MergeRequest | src/modules/VibeConnect.Profile.Module/Services/ProfileService.cs:84-116 | the field assignments produce exactly the merged user |
| Profiles.UpdateUserProfile | src/modules/VibeConnect.Profile.Module/Services/ProfileService.cs:60-148 | 404 with no change when no active user has the name; 500 with no change when another account holds the merged email (the unique index throws into the catch-all); else exactly that user replaced by the merge and 200, or no change and 424 |
| Profiles.UpdateClashIsEmailClash | src/modules/VibeConnect.Profile.Module/Services/ProfileService.cs:84-146 | the update keeps the username, so it clashes exactly when another account holds the new email |
| Profiles.UpdateMergesFields | src/modules/VibeConnect.Profile.Module/Services/ProfileService.cs:84-116 | only the six scalar fields, the two lists and the activity time change; a null value keeps the stored one, a present one replaces it, a null list leaves the stored list |
| Profiles.UpdateCoversRequestedLists | src/modules/VibeConnect.Profile.Module/Services/ProfileService.cs:97-114 | with lists on both sides every requested language and link name is present afterwards |
| Profiles.UpdateIdempotent | src/modules/VibeConnect.Profile.Module/Services/ProfileService.cs:84-116 | the same update twice equals once, apart from the activity time |
| Profiles.UpdateKeepsProfileVisible | src/modules/VibeConnect.Profile.Module/Services/ProfileService.cs:72-82 | after an update the next lookup finds the same user |
| Auth.Clashing | src/modules/VibeConnect.Auth.Module/Services/AuthService.cs:32-33 | the first user with the request's email or username; none exactly when no user has either |
| Auth.ConflictMessage | src/modules/VibeConnect.Auth.Module/Services/AuthService.cs:35-54 | the email message exactly when the clashing user's email matches, even if the username matches too; else the username message |
| Auth.NewAccount | src/modules/VibeConnect.Auth.Module/Services/AuthService.cs:56-71 | the new row has the fresh id, the request's username and email, the derived key and its salt and the creation time; its status parses as Active and the profile lookup finds it |
| Auth.RegisterAccount | src/modules/VibeConnect.Auth.Module/Services/AuthService.cs:20-101 | 409 with no change on a clash; else the new account with the derived key bytes and their salt appended and 201, or no change and 424 |
| Auth.RegisterKeepsAccountsUnique | src/modules/VibeConnect.Auth.Module/Services/AuthService.cs:32-54 | a registration past the clash check keeps usernames and emails unique |
| Auth.RegisteredCanLogIn | src/modules/VibeConnect.Auth.Module/Services/AuthService.cs:56-71 | the new account is the login match for its email and username, its password verifies, and its profile is visible |
| Auth.LoginMatch | src/modules/VibeConnect.Auth.Module/Services/AuthService.cs:114-115 | the first user with the given email or username; none exactly when no user matches |
| Auth.UpdateUserRefreshToken | src/modules/VibeConnect.Auth.Module/Services/AuthService.cs:296-306 | the user gets the token, its time, expiry now plus the validity in minutes and the login time, or nothing changes and false |
| Auth.Login | src/modules/VibeConnect.Auth.Module/Services/AuthService.cs:103-172 | 401 with no change for no match or a wrong password; else the token stored on exactly that user and 200 with the issued tokens, or no change and 424 |
| Auth.RefreshToken | src/modules/VibeConnect.Auth.Module/Services/AuthService.cs:174-243 | 400 with the principal's message when extraction fails; 400 with no change for a missing user, another token or an expiry at or before now; else the new token stored and 200, or no change and 424 |
| Auth.RevokeRefreshToken | src/modules/VibeConnect.Auth.Module/Services/AuthService.cs:245-293 | 400 for an unknown user; else the token cleared on exactly that user and 200, or no change and 424; every reply carries data false |
| Auth.IssuedTokenValidUntilExpiry | src/modules/VibeConnect.Auth.Module/Services/AuthService.cs:199-200 | a stored token is accepted exactly before now plus the validity; the expiry instant is already too late |
| Auth.RefreshRotates | src/modules/VibeConnect.Auth.Module/Services/AuthService.cs:209-221 | after a new token is stored, any other token, the one just used included, is refused |
| Auth.RevokeBlocksRefresh | src/modules/VibeConnect.Auth.Module/Services/AuthService.cs:264-268 | after a revoke no refresh is accepted |
| Passwords.ToHex | src/modules/VibeConnect.Auth.Module/Utilities/PasswordHelper.cs:19 | two upper-case hex characters per byte |
| Passwords.FromHex | src/modules/VibeConnect.Auth.Module/Services/AuthService.cs:62 | `Convert.FromHexString`: none for an odd length; decoded bytes are half as many as the characters |
| Passwords.HexRoundTrip | src/modules/VibeConnect.Auth.Module/Services/AuthService.cs:62 | decoding the hex of any bytes gives the bytes back |
| Passwords.HexInjective | src/modules/VibeConnect.Auth.Module/Utilities/PasswordHelper.cs:19 | different bytes have different hex strings |
| Passwords.GenerateRandomSalt | src/modules/VibeConnect.Auth.Module/Utilities/PasswordHelper.cs:32-36 | 64 random bytes |
| Passwords.VerifyPassword | src/modules/VibeConnect.Auth.Module/Utilities/PasswordHelper.cs:22-30 | `FixedTimeEquals`: true exactly when the stored hash has the derived key's length and every byte matches |
| Passwords.HashPassword | src/modules/VibeConnect.Auth.Module/Utilities/PasswordHelper.cs:12-20 | a 64-byte salt and 128 upper-case hex characters that decode to the key derived from the password and that salt |
| Passwords.VerifyMatchesHash | src/modules/VibeConnect.Auth.Module/Utilities/PasswordHelper.cs:22-30 | verification holds exactly for the stored key, so a password verifies against the key derived from it |
| Passwords.GenerateRandomToken | src/modules/VibeConnect.Auth.Module/Utilities/PasswordHelper.cs:38-41 | 128 upper-case hex characters that decode to the 64 random bytes |
| Passwords.DecimalLength | src/modules/VibeConnect.Auth.Module/Utilities/PasswordHelper.cs:52 | a number from 10^k up to 10^(k+1) has k + 1 decimal digits |
| Passwords.GenerateUnique2FactorCode | src/modules/VibeConnect.Auth.Module/Utilities/PasswordHelper.cs:43-58 | exactly six characters, all digits |
| Passwords.TwoFactorCodeSource | src/modules/VibeConnect.Auth.Module/Utilities/PasswordHelper.cs:52-55 | with a six-digit draw the code is the draw; with a five-digit draw it is the timestamp's last digit followed by the draw |
| Passwords.HashTwoFactorCode | src/modules/VibeConnect.Auth.Module/Utilities/PasswordHelper.cs:60-66 | 64 lower-case hex characters without '-', the lower-cased hex of the digest |
| Passwords.BitConverterWithoutDashes | src/modules/VibeConnect.Auth.Module/Utilities/PasswordHelper.cs:65 | removing the dashes from the dash-separated form gives the plain hex |
| Media.Extension | src/modules/VibeConnect.Post.Module/Utilities/MediaUploadHelper.cs:21 | `Path.GetExtension`: empty, or a suffix of the name of at least two characters starting with '.' and holding no other '.' or '/' |
| Media.TypeOfExtension | src/modules/VibeConnect.Post.Module/Utilities/MediaUploadHelper.cs:23-38 | "gif" exactly for ".gif", "image" exactly for the three image extensions, "video" exactly for the three video extensions, else "other" |
| Media.GetFileType | src/modules/VibeConnect.Post.Module/Utilities/MediaUploadHelper.cs:5-39 | always one of "image", "video", "gif", "other" |
| Media.ContentTypeDecides | src/modules/VibeConnect.Post.Module/Utilities/MediaUploadHelper.cs:7-18 | an image or video content type decides the result and the file name is not consulted |
| Media.ExtensionDecides | src/modules/VibeConnect.Post.Module/Utilities/MediaUploadHelper.cs:21-38 | otherwise only the lower-cased extension counts, whatever its letter case |
| Media.GifOnlyFromExtension | src/modules/VibeConnect.Post.Module/Utilities/MediaUploadHelper.cs:7-30 | "gif" exactly when the content type decides nothing and the extension is ".gif" in any case |
| Uploads.FirstStop | src/modules/VibeConnect.Post.Module/Services/UploadService/UploadService.cs:49-82 | the first file that is empty, too large or refused by the store, and none before it |
| Uploads.SecureUrls | src/modules/VibeConnect.Post.Module/Services/UploadService/UploadService.cs:78-81 | the store's URLs for the first n files, skipping answers without one; never more than n |
| Uploads.Entries | src/modules/VibeConnect.Post.Module/Services/UploadService/UploadService.cs:84-88 | one entry per URL, each with the one given file type |
| Uploads.UploadFileAsync | src/modules/VibeConnect.Post.Module/Services/UploadService/UploadService.cs:15-108 | 400 and no upload for no files or more than 5; else the first stopping file decides: 400 after k uploads for a rejected file k, the store's code and message after k + 1 uploads for a refused one; with none, 200 with every file uploaded and the entries of the URLs, typed by the first file |
| Uploads.SuccessMeansEveryFileAccepted | src/modules/VibeConnect.Post.Module/Services/UploadService/UploadService.cs:49-76 | a successful upload sent every file, and each was non-empty, within the limit and accepted |
| Uploads.AllUrlsKept | src/modules/VibeConnect.Post.Module/Services/UploadService/UploadService.cs:78-88 | when the store returns a URL for every file, there is one URL per file, in file order |

## Left out

- Cascading deletes. Deleting a post, a comment or a friend request removes only that row. Whatever the database schema's cascade rules remove with it (replies, likes) is not modelled.
- Comments.GetPostComments: each node of the forest carries no Username and no ProfilePictureUrl, which the source copies from the comment's user (src/modules/VibeConnect.Post.Module/Services/Comment/CommentService.cs:129-130). The nodes carry the comment id, user id, content, like count and replies.
- Comments.GetCommentWithReplies: its nodes carry no Username and no ProfilePictureUrl either (src/modules/VibeConnect.Post.Module/Services/Comment/CommentService.cs:207-208,237-238).
- Comments.CommentQuery: the source's `Include(c => c.User)` on a required navigation is an inner join, so a comment whose user is not stored is left out of the page. The model keeps such comments.
- Query.SortDesc: rows with the same creation time keep their storage order. The database leaves the order of such ties open, and with it which of them fall on which page.
- Aliasing between entity objects tracked by the database context is not modelled. Rows are values, and a service changes a row only through the store's update method.
- `Comments.ExpandReplies` leaves out three branches of `GetCommentWithReplies` (src/modules/VibeConnect.Post.Module/Services/Comment/CommentService.cs:222-228,245-248). The first two skip a popped node with no id or with no stored comment; on a consistent store neither happens. The third fills a dictionary of nodes that is never read.
- Replies are loaded through the database's navigation collection, whose order the code does not fix. The model takes storage order.
- Every service wraps its body in a catch-all that answers 500 for any exception. The model has no exceptions, except two cases where a write breaks a unique index and one where it breaks a foreign key. Approving or rejecting a request between two users who already have an edge breaks the index on (follower, following). A profile update that saves an email another account holds breaks the index on Email. A comment whose blank parent id names no stored comment breaks the foreign key to its parent. The model answers all three with that 500 and leaves the store unchanged.
- `UnfollowUser` and `UnfollowUserTransaction` are declared in IFriendshipService.cs, but FriendshipService.cs has no body for them. They are not part of this model.
- Asynchrony, logging and cancellation are left out. Each service call runs to completion on its own.
- The refresh-token validity is a `double` number of minutes in the configuration. The model takes whole minutes.
- Each service reads the clock once, as the `now` parameter. Where the source reads `UtcNow` several times in one call, the model uses that single value.
- `DateTimeOffset` values are integer seconds; time zones and UTC normalisation are not modelled. The two-factor code takes its millisecond timestamp as a parameter.
- PBKDF2, SHA-256, the random-number generator, JWT issuing and validation, and the cloud uploader are function parameters. Nothing is proved about their internals.
- Object mapping between requests, entities and response views is modelled as plain field copies.
- `Media.Extension`: `Path.GetExtension` is modelled with '/' as the only directory separator. `ToLower` and `StartsWith` are modelled on ASCII letters, not with the current culture.
- The liker listings load each like row's user through a required navigation, which is an inner join, so a row whose user is missing is dropped. `PostLikes.LikersComplete`, `PostLikes.PostLikersTotal` and `CommentLikes.CommentLikersTotal` therefore assume every liker is stored.
- `PagedResultBase` declares `CurrentPage`, `PageCount` and `RowCount`, but `GetPaged` fills `PageIndex`, `TotalCount`, `TotalPages` and the bounds. The model has both: `Pagination.GetPaged` for what `GetPaged` returns, and the row-bound functions for `PagedResultBase`.
- Pagination.GetPaged: the source computes the offset `(page - 1) * pageSize` in 32-bit `int`, which wraps around once the product passes 2^31 - 1 (page 65537 with page size 65536 gives offset 0). The model uses unbounded integers, so its page is the one the unwrapped offset names.
- Pagination.FirstRowOnPage: the source computes `(CurrentPage - 1) * PageSize + 1` in 32-bit `int`, which wraps (current page 65537 with page size 32768 gives -2147483647). The model uses unbounded integers, so its "at least 1" holds only where the source's product stays below 2^31.
- Pagination.LastRowOnPage: the source computes `CurrentPage * PageSize` in 32-bit `int`, which wraps in the same way. The model uses unbounded integers.
- `Pagination.GetPaged` requires a page of at least 1 and a page size of at least 1, and so do the listing services that call it. For other values the source's answer depends on the database provider and the runtime: a negative offset may throw or be ignored, and a page size of 0 divides by zero in floating point before an undefined cast to `int`.
- `Auth.RefreshToken`: a stored user whose expiry is null passes the expiry check, because the source's comparison of a null value is false. The model keeps that behaviour.
- The two-factor code's hash and the code itself are modelled, but no service in this core calls them.
