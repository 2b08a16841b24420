/** The friend-request lifecycle: sending under a daily rate limit and
    duplicate checks, listing sent or received requests, and approving or
    rejecting a request, which turns it into a follow edge. */
module FriendRequests {
  import opened Common
  import opened Query
  import opened Pagination
  import opened Entities
  import opened Storage

  const MaximumDailyFriendRequestLimit := 50
  /** 24 hours, in seconds. */
  const RateLimitWindow := 24 * 60 * 60

  /** A request the sender made at or after now minus 24 hours. */
  function RecentBy(senderId: string, now: int): FriendshipRequest -> bool
  {
    (q: FriendshipRequest) => q.senderId == senderId && q.requestedAt >= now - RateLimitWindow
  }

  /** Requests the sender made at or after now minus 24 hours. */
  function RecentRequestCount(requests: seq<FriendshipRequest>, senderId: string, now: int): nat
  {
    Count(requests, RecentBy(senderId, now))
  }

  /** The sender has made 50 or more requests in the last 24 hours. */
  predicate ExceedsFriendRequestLimit(requests: seq<FriendshipRequest>, senderId: string, now: int)
    ensures ExceedsFriendRequestLimit(requests, senderId, now) ==> |requests| >= MaximumDailyFriendRequestLimit
  {
    RecentRequestCount(requests, senderId, now) >= MaximumDailyFriendRequestLimit
  }

  /** Only the sender's own requests of the last 24 hours count: another
      sender's request, or one older than the window, changes nothing, and
      a recent one of the sender's adds one. */
  lemma LimitCountsOnlyRecentOwnRequests(requests: seq<FriendshipRequest>, q: FriendshipRequest,
                                         senderId: string, now: int)
    ensures q.senderId != senderId || q.requestedAt < now - RateLimitWindow ==>
      RecentRequestCount(requests + [q], senderId, now) == RecentRequestCount(requests, senderId, now) &&
      (ExceedsFriendRequestLimit(requests + [q], senderId, now) <==> ExceedsFriendRequestLimit(requests, senderId, now))
    ensures q.senderId == senderId && q.requestedAt >= now - RateLimitWindow ==>
      RecentRequestCount(requests + [q], senderId, now) == RecentRequestCount(requests, senderId, now) + 1
  {
    CountAppend(requests, q, RecentBy(senderId, now));
  }

  /** A stored request from a to b. */
  predicate Pending(requests: seq<FriendshipRequest>, a: string, b: string)
  {
    exists k :: 0 <= k < |requests| && requests[k].senderId == a && requests[k].receiverId == b
  }

  /** A stored follow edge between a and b, in either direction. */
  predicate Connected(friendships: seq<Friendship>, a: string, b: string)
  {
    exists k :: 0 <= k < |friendships| &&
      ((friendships[k].followerId == b && friendships[k].followingId == a) ||
       (friendships[k].followerId == a && friendships[k].followingId == b))
  }

  /** A stored follow edge from follower to following. */
  predicate EdgeStored(friendships: seq<Friendship>, follower: string, following: string)
  {
    exists k :: 0 <= k < |friendships| &&
      friendships[k].followerId == follower && friendships[k].followingId == following
  }

  datatype SendPlan = SendRefused(code: int, message: string) | SendProceed(request: FriendshipRequest)

  /** The guards of SendFriendRequest in their order, and the request it would store. */
  function PlanSend(users: seq<User>, requests: seq<FriendshipRequest>, friendships: seq<Friendship>,
                    senderUsername: Option<string>, receiverUsername: string, now: int, newId: string): SendPlan
  {
    match UserNamed(users, senderUsername)
    case None => SendRefused(NotFound, "Sender not found, check and try again")
    case Some(s) =>
      if ExceedsFriendRequestLimit(requests, users[s].id, now) then
        SendRefused(TooManyRequests, "Daily friend request limit exceeded")
      else match UserNamed(users, Some(receiverUsername))
      case None => SendRefused(NotFound, "Receiver not found, check and try again")
      case Some(t) => PlanSendTo(requests, friendships, senderUsername, users[s], users[t], now, newId)
  }

  /** The guards of SendFriendRequest once both users are found. */
  function PlanSendTo(requests: seq<FriendshipRequest>, friendships: seq<Friendship>, senderUsername: Option<string>,
                      sender: User, receiver: User, now: int, newId: string): SendPlan
  {
    var status := ParseAccountStatus(receiver.accountStatus);
    if senderUsername == Some(receiver.username) then
      SendRefused(BadRequest, "You can't send friend request to yourself")
    else if status.Some? && status.value != ActiveValue then
      SendRefused(BadRequest, "Receiver account is not active at the moment to receive friend requests")
    else if Pending(requests, sender.id, receiver.id) || Pending(requests, receiver.id, sender.id) then
      SendRefused(Conflict, "Friend request already sent.")
    else if Connected(friendships, sender.id, receiver.id) then
      SendRefused(Conflict, "You are already friends with this user.")
    else
      SendProceed(FriendshipRequest(newId, sender.id, receiver.id, now))
  }

  method SendFriendRequest(db: Store, senderUsername: Option<string>, receiverUsername: string,
                           now: int, newId: string) returns (r: Response<()>)
    requires db.Valid()
    requires forall k :: 0 <= k < |db.requests| ==> db.requests[k].id != newId
    modifies db`requests
    ensures db.Valid()
    ensures match PlanSend(db.users, old(db.requests), db.friendships, senderUsername, receiverUsername, now, newId)
      case SendRefused(code, message) => r == Fail(code, message) && db.requests == old(db.requests)
      case SendProceed(q) =>
        (r == Fail(Created, "Friend request sent successfully") && db.requests == old(db.requests) + [q]) ||
        (r == Fail(FailedDependency, "Sorry! We could not send your friend request, try again.") &&
         db.requests == old(db.requests))
  {
    ghost var plan := PlanSend(db.users, db.requests, db.friendships, senderUsername, receiverUsername, now, newId);
    var s := UserNamed(db.users, senderUsername);
    if s.None? {
      assert plan == SendRefused(NotFound, "Sender not found, check and try again");
      return Fail(NotFound, "Sender not found, check and try again");
    }
    var sender := db.users[s.value];
    if ExceedsFriendRequestLimit(db.requests, sender.id, now) {
      assert plan == SendRefused(TooManyRequests, "Daily friend request limit exceeded");
      return Fail(TooManyRequests, "Daily friend request limit exceeded");
    }
    var t := UserNamed(db.users, Some(receiverUsername));
    if t.None? {
      assert plan == SendRefused(NotFound, "Receiver not found, check and try again");
      return Fail(NotFound, "Receiver not found, check and try again");
    }
    var receiver := db.users[t.value];
    assert plan == PlanSendTo(db.requests, db.friendships, senderUsername, sender, receiver, now, newId);
    assert s.value != t.value ==> sender.id != receiver.id;
    r := SendTo(db, senderUsername, sender, receiver, now, newId);
  }

  /** SendFriendRequest once both users are found: the checks on the pair,
      then the write. */
  method SendTo(db: Store, senderUsername: Option<string>, sender: User, receiver: User, now: int, newId: string)
    returns (r: Response<()>)
    requires db.Valid()
    requires forall k :: 0 <= k < |db.requests| ==> db.requests[k].id != newId
    requires senderUsername != Some(receiver.username) ==> sender.id != receiver.id
    modifies db`requests
    ensures db.Valid()
    ensures match PlanSendTo(old(db.requests), db.friendships, senderUsername, sender, receiver, now, newId)
      case SendRefused(code, message) => r == Fail(code, message) && db.requests == old(db.requests)
      case SendProceed(q) =>
        (r == Fail(Created, "Friend request sent successfully") && db.requests == old(db.requests) + [q]) ||
        (r == Fail(FailedDependency, "Sorry! We could not send your friend request, try again.") &&
         db.requests == old(db.requests))
  {
    var plan := PlanSendTo(db.requests, db.friendships, senderUsername, sender, receiver, now, newId);
    match plan
    case SendRefused(code, message) =>
      return Fail(code, message);
    case SendProceed(request) =>
      r := WriteRequest(db, request);
  }

  /** Past the guards: the request is stored, or the write fails. */
  method WriteRequest(db: Store, request: FriendshipRequest) returns (r: Response<()>)
    requires db.Valid() && request.senderId != request.receiverId
    requires forall k :: 0 <= k < |db.requests| ==> db.requests[k].id != request.id
    modifies db`requests
    ensures db.Valid()
    ensures (r == Fail(Created, "Friend request sent successfully") && db.requests == old(db.requests) + [request]) ||
            (r == Fail(FailedDependency, "Sorry! We could not send your friend request, try again.") &&
             db.requests == old(db.requests))
  {
    var rows := db.AddRequest(request);
    if rows < 1 {
      return Fail(FailedDependency, "Sorry! We could not send your friend request, try again.");
    }
    return Fail(Created, "Friend request sent successfully");
  }

  // ---------------------------------------------------------------------
  // Properties of the send guards

  /** The rate limit is checked before the receiver is looked up: a sender
      over the limit gets 429 whoever the receiver is, even a missing one. */
  lemma RateLimitPrecedesReceiver(users: seq<User>, requests: seq<FriendshipRequest>, friendships: seq<Friendship>,
                                  senderUsername: Option<string>, receiverUsername: string, now: int, newId: string)
    requires UserNamed(users, senderUsername).Some?
    requires ExceedsFriendRequestLimit(requests, users[UserNamed(users, senderUsername).value].id, now)
    ensures PlanSend(users, requests, friendships, senderUsername, receiverUsername, now, newId).code == TooManyRequests
  {
  }

  /** A request to oneself is refused with 400 once the sender passed the rate limit. */
  lemma SendToSelfRefused(users: seq<User>, requests: seq<FriendshipRequest>, friendships: seq<Friendship>,
                          username: string, now: int, newId: string)
    requires UserNamed(users, Some(username)).Some?
    requires !ExceedsFriendRequestLimit(requests, users[UserNamed(users, Some(username)).value].id, now)
    ensures PlanSend(users, requests, friendships, Some(username), username, now, newId)
         == SendRefused(BadRequest, "You can't send friend request to yourself")
  {
  }

  /** The account-status gate: past the earlier guards, 400 for a receiver
      whose status parses to a value other than Active's, and no refusal on
      that ground for a status that does not parse. */
  lemma ReceiverStatusGate(users: seq<User>, requests: seq<FriendshipRequest>, friendships: seq<Friendship>,
                           senderUsername: Option<string>, receiverUsername: string, now: int, newId: string)
    requires UserNamed(users, senderUsername).Some? && UserNamed(users, Some(receiverUsername)).Some?
    requires !ExceedsFriendRequestLimit(requests, users[UserNamed(users, senderUsername).value].id, now)
    requires senderUsername != Some(receiverUsername)
    ensures var status := ParseAccountStatus(users[UserNamed(users, Some(receiverUsername)).value].accountStatus);
            PlanSend(users, requests, friendships, senderUsername, receiverUsername, now, newId)
              == SendRefused(BadRequest, "Receiver account is not active at the moment to receive friend requests")
            <==> status.Some? && status.value != ActiveValue
  {
  }

  /** A receiver whose status is a non-zero number, or the name Suspended
      or Deactivated with any white space around it, is refused with 400. */
  lemma InactiveReceiverRefused(users: seq<User>, requests: seq<FriendshipRequest>, friendships: seq<Friendship>,
                                senderUsername: Option<string>, receiverUsername: string, now: int, newId: string,
                                before: string, name: string, after: string, n: nat)
    requires UserNamed(users, senderUsername).Some? && UserNamed(users, Some(receiverUsername)).Some?
    requires !ExceedsFriendRequestLimit(requests, users[UserNamed(users, senderUsername).value].id, now)
    requires senderUsername != Some(receiverUsername)
    requires forall i :: 0 <= i < |before| ==> IsWhiteSpace(before[i])
    requires forall i :: 0 <= i < |after| ==> IsWhiteSpace(after[i])
    requires name == "Suspended" || name == "Deactivated"
    requires 0 < n <= Int32Max
    requires var status := users[UserNamed(users, Some(receiverUsername)).value].accountStatus;
             status == Decimal(n) || status == before + name + after
    ensures PlanSend(users, requests, friendships, senderUsername, receiverUsername, now, newId)
         == SendRefused(BadRequest, "Receiver account is not active at the moment to receive friend requests")
  {
    NumericStatusParses(n);
    PaddedNameParses(before, name, after);
    ReceiverStatusGate(users, requests, friendships, senderUsername, receiverUsername, now, newId);
  }

  /** A request proceeds exactly when none of the guards fires, and it goes
      from the sender to the receiver, two different users, stamped now. */
  lemma SendProceedsOnlyPastGuards(users: seq<User>, requests: seq<FriendshipRequest>, friendships: seq<Friendship>,
                                   senderUsername: Option<string>, receiverUsername: string, now: int, newId: string)
    requires UniqueUserIds(users)
    requires PlanSend(users, requests, friendships, senderUsername, receiverUsername, now, newId).SendProceed?
    ensures var q := PlanSend(users, requests, friendships, senderUsername, receiverUsername, now, newId).request;
      exists s, t :: 0 <= s < |users| && 0 <= t < |users| &&
        Some(users[s].username) == senderUsername && users[t].username == receiverUsername &&
        q == FriendshipRequest(newId, users[s].id, users[t].id, now) &&
        q.senderId != q.receiverId &&
        !ExceedsFriendRequestLimit(requests, q.senderId, now) &&
        !Pending(requests, q.senderId, q.receiverId) && !Pending(requests, q.receiverId, q.senderId) &&
        !Connected(friendships, q.senderId, q.receiverId)
  {
    var s, t := UserNamed(users, senderUsername).value, UserNamed(users, Some(receiverUsername)).value;
    assert s != t;
  }

  /** The daily limit is never overrun: a request that proceeds leaves the
      sender with at most 50 requests in the last 24 hours. */
  lemma {:induction false} SendKeepsDailyLimit(users: seq<User>, requests: seq<FriendshipRequest>, friendships: seq<Friendship>,
                                               senderUsername: Option<string>, receiverUsername: string, now: int, newId: string)
    requires PlanSend(users, requests, friendships, senderUsername, receiverUsername, now, newId).SendProceed?
    ensures var q := PlanSend(users, requests, friendships, senderUsername, receiverUsername, now, newId).request;
      RecentRequestCount(requests + [q], q.senderId, now) <= MaximumDailyFriendRequestLimit
  {
    var q := PlanSend(users, requests, friendships, senderUsername, receiverUsername, now, newId).request;
    var s, t := UserNamed(users, senderUsername).value, UserNamed(users, Some(receiverUsername)).value;
    assert !ExceedsFriendRequestLimit(requests, users[s].id, now);
    assert q == PlanSendTo(requests, friendships, senderUsername, users[s], users[t], now, newId).request;
    assert q.senderId == users[s].id;
    LimitCountsOnlyRecentOwnRequests(requests, q, q.senderId, now);
  }

  /** Sending the same request again after it was stored is refused, by
      the rate limit or as a duplicate. */
  lemma {:induction false} SendTwiceRefused(users: seq<User>, requests: seq<FriendshipRequest>, friendships: seq<Friendship>,
                                            senderUsername: Option<string>, receiverUsername: string,
                                            now: int, newId: string, later: int, laterId: string)
    requires PlanSend(users, requests, friendships, senderUsername, receiverUsername, now, newId).SendProceed?
    ensures var q := PlanSend(users, requests, friendships, senderUsername, receiverUsername, now, newId).request;
      var again := PlanSend(users, requests + [q], friendships, senderUsername, receiverUsername, later, laterId);
      again.SendRefused? && (again.code == TooManyRequests || again.code == Conflict)
  {
    var q := PlanSend(users, requests, friendships, senderUsername, receiverUsername, now, newId).request;
    var stored := requests + [q];
    assert stored[|requests|] == q;
    assert Pending(stored, q.senderId, q.receiverId);
    var s, t := UserNamed(users, senderUsername).value, UserNamed(users, Some(receiverUsername)).value;
    assert PlanSendTo(requests, friendships, senderUsername, users[s], users[t], now, newId).SendProceed?;
    if !ExceedsFriendRequestLimit(stored, users[s].id, later) {
      assert PlanSendTo(stored, friendships, senderUsername, users[s], users[t], later, laterId).code == Conflict;
    }
  }

  // ---------------------------------------------------------------------
  // Approving and rejecting

  datatype ResolvePlan = Declined(response: Response<bool>) | Resolve(index: nat, edge: Friendship)

  function ResolveFailure(approve: bool): string
  {
    if approve then "Something bad happened when approving friend requests"
    else "Something bad happened when rejecting friend requests"
  }

  /** The guards of ApproveFriendRequest (approve) and RejectFriendRequest
      (not approve), and the follow edge they would add. Adding an edge whose
      (follower, following) pair is stored breaks the unique index; the
      resulting exception is answered with 500. */
  function PlanResolve(users: seq<User>, requests: seq<FriendshipRequest>, friendships: seq<Friendship>,
                       requestId: string, username: Option<string>, approve: bool, now: int, newId: string): ResolvePlan
  {
    match RequestWithId(requests, requestId)
    case None => Declined(Response(NotFound, "Friend request not found", Some(false)))
    case Some(i) =>
      match UserNamed(users, username)
      case None => Declined(Response(NotFound, "User not found", Some(false)))
      case Some(u) =>
        var request, user := requests[i], users[u];
        if request.receiverId != user.id then
          Declined(Response(Unauthorized,
            if approve then "You can only approve friend requests sent to you"
            else "You can only reject friend requests sent to you friend request", Some(false)))
        else if request.senderId == user.id then
          Declined(Response(Forbidden,
            if approve then "You cannot approve your own friend request"
            else "You cannot reject your own friend request", Some(false)))
        else if EdgeStored(friendships, request.senderId, user.id) then
          Declined(Response(InternalServerError, ResolveFailure(approve), Some(false)))
        else
          Resolve(i, Friendship(newId, request.senderId, user.id, now, approve))
  }

  /** The possible outcomes of a resolution: a refusal changes nothing; past
      the guards the edge is added and then the request deleted, and a failed
      delete answers 424 without removing the edge again. */
  ghost predicate ResolveOutcome(plan: ResolvePlan, approve: bool,
                                 requests0: seq<FriendshipRequest>, friendships0: seq<Friendship>,
                                 requests1: seq<FriendshipRequest>, friendships1: seq<Friendship>, r: Response<bool>)
  {
    match plan
    case Declined(response) => r == response && requests1 == requests0 && friendships1 == friendships0
    case Resolve(i, edge) =>
      i < |requests0| &&
      ((r == Response(FailedDependency, ResolveFailure(approve), Some(false)) && friendships1 == friendships0 && requests1 == requests0) ||
       (r == Response(FailedDependency, ResolveFailure(approve), Some(false)) && friendships1 == friendships0 + [edge] && requests1 == requests0) ||
       (r == Ok(OK, if approve then "Friend request approved successfully" else "Friend request rejected successfully", true) &&
        friendships1 == friendships0 + [edge] && requests1 == RemoveAt(requests0, i)))
  }

  method ResolveFriendRequest(db: Store, requestId: string, username: Option<string>, approve: bool,
                              now: int, newId: string) returns (r: Response<bool>)
    requires db.Valid()
    requires forall k :: 0 <= k < |db.friendships| ==> db.friendships[k].id != newId
    modifies db`requests, db`friendships
    ensures db.Valid()
    ensures ResolveOutcome(PlanResolve(db.users, old(db.requests), old(db.friendships), requestId, username, approve, now, newId),
                           approve, old(db.requests), old(db.friendships), db.requests, db.friendships, r)
  {
    ghost var plan := PlanResolve(db.users, db.requests, db.friendships, requestId, username, approve, now, newId);
    var i := RequestWithId(db.requests, requestId);
    if i.None? {
      return Response(NotFound, "Friend request not found", Some(false));
    }
    var request := db.requests[i.value];
    var u := UserNamed(db.users, username);
    if u.None? {
      return Response(NotFound, "User not found", Some(false));
    }
    var user := db.users[u.value];
    if request.receiverId != user.id {
      return Response(Unauthorized,
        if approve then "You can only approve friend requests sent to you"
        else "You can only reject friend requests sent to you friend request", Some(false));
    }
    if request.senderId == user.id {
      return Response(Forbidden,
        if approve then "You cannot approve your own friend request"
        else "You cannot reject your own friend request", Some(false));
    }
    var stored := FirstIndex(db.friendships, (f: Friendship) => f.followerId == request.senderId && f.followingId == user.id);
    if stored.Some? {
      return Response(InternalServerError, ResolveFailure(approve), Some(false));
    }
    var edge := Friendship(newId, request.senderId, user.id, now, approve);
    assert plan == Resolve(i.value, edge);
    r := WriteResolution(db, i.value, edge, approve);
  }

  /** Past the guards: the edge is added, then the request deleted, each
      write able to fail on its own. */
  method WriteResolution(db: Store, i: nat, edge: Friendship, approve: bool) returns (r: Response<bool>)
    requires db.Valid() && i < |db.requests|
    requires forall k :: 0 <= k < |db.friendships| ==> db.friendships[k].id != edge.id
    requires !EdgeStored(db.friendships, edge.followerId, edge.followingId)
    modifies db`requests, db`friendships
    ensures db.Valid()
    ensures ResolveOutcome(Resolve(i, edge), approve, old(db.requests), old(db.friendships), db.requests, db.friendships, r)
  {
    var added := db.AddFriendship(edge);
    if added < 1 {
      return Response(FailedDependency, ResolveFailure(approve), Some(false));
    }
    var deleted := db.DeleteRequest(i);
    if deleted < 1 {
      return Response(FailedDependency, ResolveFailure(approve), Some(false));
    }
    return Ok(OK, if approve then "Friend request approved successfully" else "Friend request rejected successfully", true);
  }

  method ApproveFriendRequest(db: Store, requestId: string, username: Option<string>, now: int, newId: string)
    returns (r: Response<bool>)
    requires db.Valid()
    requires forall k :: 0 <= k < |db.friendships| ==> db.friendships[k].id != newId
    modifies db`requests, db`friendships
    ensures db.Valid()
    ensures ResolveOutcome(PlanResolve(db.users, old(db.requests), old(db.friendships), requestId, username, true, now, newId),
                           true, old(db.requests), old(db.friendships), db.requests, db.friendships, r)
  {
    r := ResolveFriendRequest(db, requestId, username, true, now, newId);
  }

  method RejectFriendRequest(db: Store, requestId: string, username: Option<string>, now: int, newId: string)
    returns (r: Response<bool>)
    requires db.Valid()
    requires forall k :: 0 <= k < |db.friendships| ==> db.friendships[k].id != newId
    modifies db`requests, db`friendships
    ensures db.Valid()
    ensures ResolveOutcome(PlanResolve(db.users, old(db.requests), old(db.friendships), requestId, username, false, now, newId),
                           false, old(db.requests), old(db.friendships), db.requests, db.friendships, r)
  {
    r := ResolveFriendRequest(db, requestId, username, false, now, newId);
  }

  /** Only the receiver resolves a request: a found request and a found
      user who is not its receiver give 401; and a resolution adds the edge
      sender -> receiver, mutual exactly when approving. */
  lemma OnlyReceiverResolves(users: seq<User>, requests: seq<FriendshipRequest>, friendships: seq<Friendship>,
                             requestId: string, username: Option<string>, approve: bool, now: int, newId: string)
    ensures var plan := PlanResolve(users, requests, friendships, requestId, username, approve, now, newId);
      RequestWithId(requests, requestId).Some? && UserNamed(users, username).Some? &&
      requests[RequestWithId(requests, requestId).value].receiverId != users[UserNamed(users, username).value].id
      ==> plan.Declined? && plan.response.code == Unauthorized
    ensures var plan := PlanResolve(users, requests, friendships, requestId, username, approve, now, newId);
      plan.Resolve? ==>
        plan.index < |requests| && requests[plan.index].id == requestId &&
        UserNamed(users, username).Some? &&
        users[UserNamed(users, username).value].id == requests[plan.index].receiverId &&
        plan.edge == Friendship(newId, requests[plan.index].senderId, requests[plan.index].receiverId, now, approve) &&
        !EdgeStored(friendships, plan.edge.followerId, plan.edge.followingId)
  {
  }

  /** The 403 "own request" branch cannot be reached while no stored
      request is addressed to its own sender. */
  lemma {:induction false} OwnRequestBranchUnreachable(users: seq<User>, requests: seq<FriendshipRequest>, friendships: seq<Friendship>,
                                                       requestId: string, username: Option<string>, approve: bool, now: int, newId: string)
    requires NoSelfRequests(requests)
    ensures var plan := PlanResolve(users, requests, friendships, requestId, username, approve, now, newId);
      !(plan.Declined? && plan.response.code == Forbidden)
  {
    match RequestWithId(requests, requestId)
    case None =>
    case Some(i) =>
      assert requests[i].senderId != requests[i].receiverId;
  }

  // ---------------------------------------------------------------------
  // Listing requests

  datatype FriendRequestUser = FriendRequestUser(id: string, username: Option<string>, fullName: Option<string>,
                                                 profilePictureUrl: Option<string>)
  datatype FriendRequestView = FriendRequestView(id: string, user: FriendRequestUser)

  /** The other party of a request: its receiver for sent requests, its sender otherwise. */
  function Counterpart(q: FriendshipRequest, sent: bool): string
  {
    if sent then q.receiverId else q.senderId
  }

  function RequestedAt(q: FriendshipRequest): int
  {
    q.requestedAt
  }

  /** The user's sent (or received) requests, newest first. */
  function RequestQuery(requests: seq<FriendshipRequest>, userId: string, sent: bool): (r: seq<FriendshipRequest>)
    ensures multiset(r) <= multiset(requests)
    ensures forall i :: 0 <= i < |r| ==> (if sent then r[i].senderId else r[i].receiverId) == userId
    ensures SortedDesc(r, RequestedAt)
  {
    var keep := (q: FriendshipRequest) => (if sent then q.senderId else q.receiverId) == userId;
    WhereOrdered(requests, keep, RequestedAt);
    SortDesc(Filter(requests, keep), RequestedAt)
  }

  function RequestView(users: seq<User>, q: FriendshipRequest, sent: bool): Option<FriendRequestView>
  {
    match UserWithId(users, Counterpart(q, sent))
    case None => None
    case Some(j) =>
      var other := users[j];
      Some(FriendRequestView(q.id, FriendRequestUser(other.id, Some(other.username), Some(other.fullName), other.profilePictureUrl)))
  }

  /** The page's requests whose counterpart user exists, each with that user. */
  function RequestViews(users: seq<User>, page: seq<FriendshipRequest>, sent: bool): (r: seq<FriendRequestView>)
    decreases |page|
  {
    if page == [] then []
    else
      var init := RequestViews(users, page[..|page| - 1], sent);
      match RequestView(users, page[|page| - 1], sent)
      case None => init
      case Some(v) => init + [v]
  }

  /** An entry shows a request together with its counterpart user. */
  predicate Describes(v: FriendRequestView, q: FriendshipRequest, sent: bool)
  {
    v.id == q.id && v.user.id == Counterpart(q, sent)
  }

  /** Entries are skipped only for a missing counterpart: the listing is no
      longer than the page and each entry describes a request of the page. */
  lemma {:induction false} RequestViewsSound(users: seq<User>, page: seq<FriendshipRequest>, sent: bool)
    ensures |RequestViews(users, page, sent)| <= |page|
    ensures forall v :: v in RequestViews(users, page, sent) ==> exists q :: q in page && Describes(v, q, sent)
    decreases |page|
  {
    if page != [] {
      var front := page[..|page| - 1];
      RequestViewsSound(users, front, sent);
      assert forall q :: q in front ==> q in page;
      var last := page[|page| - 1];
      match RequestView(users, last, sent)
      case None =>
      case Some(v) =>
        assert Describes(v, last, sent);
    }
  }

  /** With every counterpart present, the listing follows the page one for one. */
  lemma {:induction false} RequestViewsComplete(users: seq<User>, page: seq<FriendshipRequest>, sent: bool)
    requires forall k :: 0 <= k < |page| ==> UserWithId(users, Counterpart(page[k], sent)).Some?
    ensures |RequestViews(users, page, sent)| == |page|
    ensures forall k :: 0 <= k < |page| ==> Describes(RequestViews(users, page, sent)[k], page[k], sent)
    decreases |page|
  {
    if page != [] {
      var front := page[..|page| - 1];
      var last := page[|page| - 1];
      assert forall k :: 0 <= k < |front| ==> front[k] == page[k];
      RequestViewsComplete(users, front, sent);
      var init := RequestViews(users, front, sent);
      var j := UserWithId(users, Counterpart(last, sent)).value;
      var v := RequestView(users, last, sent).value;
      assert Describes(v, last, sent);
      assert RequestViews(users, page, sent) == init + [v];
    }
  }

  /** The foreach over the page: each request whose counterpart user exists
      is paired with that user, the others are skipped. */
  method ProjectRequests(users: seq<User>, page: seq<FriendshipRequest>, sent: bool) returns (views: seq<FriendRequestView>)
    ensures views == RequestViews(users, page, sent)
  {
    views := [];
    var k := 0;
    while k < |page|
      invariant 0 <= k <= |page|
      invariant views == RequestViews(users, page[..k], sent)
    {
      var q := page[k];
      ghost var prefix := page[..k + 1];
      assert prefix[..k] == page[..k] && prefix[k] == q;
      var other := UserWithId(users, Counterpart(q, sent));
      if other.Some? {
        var o := users[other.value];
        views := views + [FriendRequestView(q.id, FriendRequestUser(o.id, Some(o.username), Some(o.fullName), o.profilePictureUrl))];
      }
      assert views == RequestViews(users, prefix, sent);
      k := k + 1;
    }
    assert page[..k] == page;
  }

  method GetFriendRequests(db: Store, username: Option<string>, pageNumber: int, pageSize: int, sent: bool)
    returns (r: Response<PagedResult<FriendRequestView>>)
    requires pageNumber >= 1 && pageSize > 0
    ensures UserNamed(db.users, username).None? ==>
      r == Fail(NotFound, "Could not retrieve user details, check and try again.")
    ensures UserNamed(db.users, username).Some? ==>
      var page := GetPaged(RequestQuery(db.requests, db.users[UserNamed(db.users, username).value].id, sent), pageNumber, pageSize);
      r == Ok(OK, "Friend requests fetched successfully", WithResults(page, RequestViews(db.users, page.results, sent)))
  {
    var u := UserNamed(db.users, username);
    if u.None? {
      return Fail(NotFound, "Could not retrieve user details, check and try again.");
    }
    var page := GetPaged(RequestQuery(db.requests, db.users[u.value].id, sent), pageNumber, pageSize);
    var views := ProjectRequests(db.users, page.results, sent);
    return Ok(OK, "Friend requests fetched successfully", WithResults(page, views));
  }
}
