/** Registration, login, and the refresh-token life cycle of an account:
    login stores a fresh refresh token with its expiry, a refresh accepts
    the stored token before it expires and replaces it, and a revoke
    clears it. Access tokens (JWTs), refresh token strings and the clock
    are parameters. */
module Auth {
  import opened Common
  import opened Query
  import opened Entities
  import opened Storage
  import opened Passwords
  import opened Profiles

  datatype RegisterRequest = RegisterRequest(
    username: string,
    email: string,
    phoneNumber: Option<string>,
    fullName: string,
    dateOfBirth: int,
    bio: Option<string>,
    profilePictureUrl: Option<string>,
    password: string)

  /** The account as shown after registration. */
  datatype Registered = Registered(
    id: string,
    username: string,
    email: string,
    phoneNumber: Option<string>,
    fullName: string,
    dateOfBirth: Option<int>,
    bio: Option<string>,
    profilePictureUrl: Option<string>)

  datatype LoginRequest = LoginRequest(email: Option<string>, username: Option<string>, password: string)

  datatype LoginResult = LoginResult(email: string, accessToken: string, refreshToken: string)

  datatype TokenRequest = TokenRequest(accessToken: string, refreshToken: string)

  datatype TokenPair = TokenPair(accessToken: string, refreshToken: string)

  /** What reading the (possibly expired) access token yields: whether its
      signature, issuer, audience and algorithm check out, the user name it
      carries, and the reader's error message. */
  datatype Principal = Principal(success: bool, name: Option<string>, errorMessage: Option<string>)

  /** Issues a signed access token for a user name. */
  type TokenIssuer = string -> string

  const EmailTaken := "Email is already registered. Please use a different email address."
  const UsernameTaken := "Username is already taken. Please choose a different username."
  const InvalidCredentials := "Invalid credentials"
  const InvalidTokens := "Invalid access token or refresh token"
  const OurFault := "Something bad happened and it is entirely our fault. Please try again."

  /** Seconds in a minute: the refresh token validity is given in minutes. */
  const MinuteLength := 60

  // ---------------------------------------------------------------------
  // Registration

  /** The registration lookup: the first user with the same email or the
      same username. */
  function Clashing(users: seq<User>, request: RegisterRequest): (r: Option<nat>)
    ensures r.Some? ==> r.value < |users|
    ensures r.Some? ==> users[r.value].email == request.email || users[r.value].username == request.username
    ensures r.None? <==> forall j :: 0 <= j < |users| ==>
      users[j].email != request.email && users[j].username != request.username
  {
    FirstIndex(users, (u: User) => u.email == request.email || u.username == request.username)
  }

  /** The stored account of a registration: the database fills in status
      "Active" and privacy "Public"; the lists start empty. */
  function NewAccount(request: RegisterRequest, hash: seq<byte>, salt: seq<byte>, newId: string, now: int): (u: User)
    ensures u.id == newId && u.username == request.username && u.email == request.email
    ensures u.passwordHash == hash && u.salt == salt && u.createdAt == now
    ensures IsActiveNamed(u, Some(request.username))
    ensures ParseAccountStatus(u.accountStatus) == Some(ActiveValue)
  {
    PaddedNameParses([], "Active", []);
    assert [] + "Active" + [] == "Active";
    User(newId, request.username, request.email, request.phoneNumber, request.fullName, Some(request.dateOfBirth),
         request.bio, request.profilePictureUrl, hash, salt, now, None, "Active", "Public", Some([]), 0, 0, 0, now,
         false, false, Some([]), None, None, None, Some(Location(None, None)))
  }

  function RegisteredOf(u: User): Registered
  {
    Registered(u.id, u.username, u.email, u.phoneNumber, u.fullName, u.dateOfBirth, u.bio, u.profilePictureUrl)
  }

  /** The conflict message names the email when the clashing user has it,
      even if the username matches too, and the username otherwise. */
  function ConflictMessage(existing: User, request: RegisterRequest): (m: string)
    requires existing.email == request.email || existing.username == request.username
    ensures m == EmailTaken <==> existing.email == request.email
    ensures m == UsernameTaken <==> existing.email != request.email
  {
    if existing.email == request.email then EmailTaken else UsernameTaken
  }

  method RegisterAccount(db: Store, request: RegisterRequest, rng: Rng, kdf: Kdf, newId: string, now: int)
    returns (r: Response<Registered>)
    requires db.Valid() && DerivesKeys(kdf)
    requires forall k :: 0 <= k < |db.users| ==> db.users[k].id != newId
    modifies db`users
    ensures db.Valid()
    ensures match Clashing(old(db.users), request)
      case Some(e) => r == Fail(Conflict, ConflictMessage(old(db.users)[e], request)) && db.users == old(db.users)
      case None =>
        var (hex, salt) := HashPassword(request.password, rng, kdf);
        var u := NewAccount(request, kdf(request.password, salt), salt, newId, now);
        (db.users == old(db.users) + [u] && r == Ok(Created, "Account created successfully.", RegisteredOf(u))) ||
        (db.users == old(db.users) &&
         r == Fail(FailedDependency, "We are unable to create the account at this moment. Please try again."))
  {
    var existing := Clashing(db.users, request);
    if existing.Some? {
      var e := db.users[existing.value];
      if e.email == request.email {
        return Fail(Conflict, EmailTaken);
      }
      if e.username == request.username {
        return Fail(Conflict, UsernameTaken);
      }
    }
    var (hex, salt) := HashPassword(request.password, rng, kdf);
    var hash := FromHex(hex);
    var u := NewAccount(request, hash.value, salt, newId, now);
    var rows := db.AddUser(u);
    if rows < 1 {
      return Fail(FailedDependency, "We are unable to create the account at this moment. Please try again.");
    }
    return Ok(Created, "Account created successfully.", RegisteredOf(u));
  }

  /** A registration that passes the conflict check keeps usernames and
      emails unique. */
  lemma RegisterKeepsAccountsUnique(users: seq<User>, request: RegisterRequest, hash: seq<byte>, salt: seq<byte>,
                                    newId: string, now: int)
    requires UniqueAccounts(users) && Clashing(users, request).None?
    ensures UniqueAccounts(users + [NewAccount(request, hash, salt, newId, now)])
  {
    var after := users + [NewAccount(request, hash, salt, newId, now)];
    forall i, j | 0 <= i < j < |after|
      ensures after[i].username != after[j].username && after[i].email != after[j].email
    {
      assert after[i] == users[i];
    }
  }

  /** A new account logs in with its password, by its email and username,
      and its profile is visible under its username. */
  lemma RegisteredCanLogIn(users: seq<User>, request: RegisterRequest, rng: Rng, kdf: Kdf, newId: string, now: int)
    requires Clashing(users, request).None? && DerivesKeys(kdf)
    ensures var salt := HashPassword(request.password, rng, kdf).1;
      var after := users + [NewAccount(request, kdf(request.password, salt), salt, newId, now)];
      LoginMatch(after, LoginRequest(Some(request.email), Some(request.username), request.password)) == Some(|users|) &&
      VerifyPassword(request.password, after[|users|].passwordHash, after[|users|].salt, kdf) &&
      ActiveUserNamed(after, Some(request.username)) == Some(|users|)
  {
    var salt := HashPassword(request.password, rng, kdf).1;
    var u := NewAccount(request, kdf(request.password, salt), salt, newId, now);
    var after := users + [u];
    var login := LoginRequest(Some(request.email), Some(request.username), request.password);
    forall j | 0 <= j < |users|
      ensures !LoginMatches(after[j], login) && !IsActiveNamed(after[j], Some(request.username))
    {
      assert after[j] == users[j];
    }
    assert after[|users|] == u;
    assert LoginMatches(u, login);
    assert VerifyPassword(request.password, u.passwordHash, u.salt, kdf);
  }

  // ---------------------------------------------------------------------
  // Login

  predicate LoginMatches(u: User, request: LoginRequest)
  {
    Some(u.email) == request.email || Some(u.username) == request.username
  }

  /** The login lookup: the first user with the given email or username. */
  function LoginMatch(users: seq<User>, request: LoginRequest): (r: Option<nat>)
    ensures r.Some? ==> r.value < |users| && LoginMatches(users[r.value], request)
    ensures r.Some? ==> forall j :: 0 <= j < r.value ==> !LoginMatches(users[j], request)
    ensures r.None? <==> forall j :: 0 <= j < |users| ==> !LoginMatches(users[j], request)
  {
    FirstIndex(users, (u: User) => LoginMatches(u, request))
  }

  /** UpdateUserRefreshToken's assignments: the token, when it was added,
      its expiry `validity` minutes on, and the login time. */
  function WithRefreshToken(u: User, token: string, now: int, validity: int): User
  {
    u.(refreshToken := Some(token), refreshTokenAddedAt := Some(now),
       refreshTokenExpiryTime := Some(now + validity * MinuteLength), lastLoginDate := Some(now))
  }

  method UpdateUserRefreshToken(db: Store, i: nat, token: string, now: int, validity: int) returns (saved: bool)
    requires db.Valid() && i < |db.users|
    modifies db`users
    ensures db.Valid()
    ensures saved ==> db.users == old(db.users)[i := WithRefreshToken(old(db.users)[i], token, now, validity)]
    ensures !saved ==> db.users == old(db.users)
  {
    var user := db.users[i];
    user := user.(refreshToken := Some(token));
    user := user.(refreshTokenAddedAt := Some(now));
    user := user.(refreshTokenExpiryTime := Some(now + validity * MinuteLength));
    user := user.(lastLoginDate := Some(now));
    SameAccountNotTaken(db.users, i, user);
    var rows := db.UpdateUser(i, user);
    saved := rows >= 1;
  }

  method Login(db: Store, request: LoginRequest, kdf: Kdf, issue: TokenIssuer, refreshToken: string, now: int,
               validity: int)
    returns (r: Response<LoginResult>)
    requires db.Valid()
    modifies db`users
    ensures db.Valid()
    ensures match LoginMatch(old(db.users), request)
      case None => r == Fail(Unauthorized, InvalidCredentials) && db.users == old(db.users)
      case Some(i) =>
        var u := old(db.users)[i];
        if !VerifyPassword(request.password, u.passwordHash, u.salt, kdf) then
          r == Fail(Unauthorized, InvalidCredentials) && db.users == old(db.users)
        else
          (db.users == old(db.users)[i := WithRefreshToken(u, refreshToken, now, validity)] &&
           r == Ok(OK, "Login successful.", LoginResult(u.email, issue(u.username), refreshToken))) ||
          (db.users == old(db.users) && r == Fail(FailedDependency, OurFault))
  {
    var found := LoginMatch(db.users, request);
    if found.None? {
      return Fail(Unauthorized, InvalidCredentials);
    }
    var user := db.users[found.value];
    if !VerifyPassword(request.password, user.passwordHash, user.salt, kdf) {
      return Fail(Unauthorized, InvalidCredentials);
    }
    var accessToken := issue(user.username);
    var saved := UpdateUserRefreshToken(db, found.value, refreshToken, now, validity);
    if !saved {
      return Fail(FailedDependency, OurFault);
    }
    return Ok(OK, "Login successful.", LoginResult(user.email, accessToken, refreshToken));
  }

  // ---------------------------------------------------------------------
  // Refresh and revoke

  /** The refresh check on a stored user. The expiry comparison is lifted
      over a null expiry, which therefore never counts as expired. */
  predicate RefreshAccepted(u: User, supplied: string, now: int)
  {
    u.refreshToken == Some(supplied) &&
    !(u.refreshTokenExpiryTime.Some? && u.refreshTokenExpiryTime.value <= now)
  }

  method RefreshToken(db: Store, request: TokenRequest, principal: Principal, issue: TokenIssuer,
                      newRefreshToken: string, now: int, validity: int)
    returns (r: Response<TokenPair>)
    requires db.Valid()
    modifies db`users
    ensures db.Valid()
    ensures !principal.success ==>
      r == Fail(BadRequest, Coalesce(principal.errorMessage, InvalidTokens)) && db.users == old(db.users)
    ensures principal.success ==>
      match UserNamed(old(db.users), principal.name)
      case None => r == Fail(BadRequest, InvalidTokens) && db.users == old(db.users)
      case Some(i) =>
        var u := old(db.users)[i];
        if !RefreshAccepted(u, request.refreshToken, now) then
          r == Fail(BadRequest, InvalidTokens) && db.users == old(db.users)
        else
          (db.users == old(db.users)[i := WithRefreshToken(u, newRefreshToken, now, validity)] &&
           r == Ok(OK, "New tokens generated successfully", TokenPair(issue(u.username), newRefreshToken))) ||
          (db.users == old(db.users) && r == Fail(FailedDependency, OurFault))
  {
    if !principal.success {
      return Fail(BadRequest, Coalesce(principal.errorMessage, InvalidTokens));
    }
    var found := UserNamed(db.users, principal.name);
    if found.None? || !RefreshAccepted(db.users[found.value], request.refreshToken, now) {
      return Fail(BadRequest, InvalidTokens);
    }
    var user := db.users[found.value];
    var accessToken := issue(user.username);
    var saved := UpdateUserRefreshToken(db, found.value, newRefreshToken, now, validity);
    if !saved {
      return Fail(FailedDependency, OurFault);
    }
    return Ok(OK, "New tokens generated successfully", TokenPair(accessToken, newRefreshToken));
  }

  method RevokeRefreshToken(db: Store, username: string) returns (r: Response<bool>)
    requires db.Valid()
    modifies db`users
    ensures db.Valid()
    ensures match UserNamed(old(db.users), Some(username))
      case None => r == Response(BadRequest, "Invalid user name", Some(false)) && db.users == old(db.users)
      case Some(i) =>
        (db.users == old(db.users)[i := old(db.users)[i].(refreshToken := None)] &&
         r == Response(OK, "Refresh token revoked successfully.", Some(false))) ||
        (db.users == old(db.users) && r == Response(FailedDependency, OurFault, Some(false)))
  {
    var found := UserNamed(db.users, Some(username));
    if found.None? {
      return Response(BadRequest, "Invalid user name", Some(false));
    }
    var user := db.users[found.value];
    user := user.(refreshToken := None);
    SameAccountNotTaken(db.users, found.value, user);
    var rows := db.UpdateUser(found.value, user);
    if rows < 1 {
      return Response(FailedDependency, OurFault, Some(false));
    }
    return Response(OK, "Refresh token revoked successfully.", Some(false));
  }

  // ---------------------------------------------------------------------
  // The token life cycle

  /** After a login or a refresh stores token t at time now, a refresh with
      t is accepted exactly until the expiry; the expiry instant itself is
      already too late. */
  lemma IssuedTokenValidUntilExpiry(u: User, t: string, now: int, validity: int, later: int)
    ensures RefreshAccepted(WithRefreshToken(u, t, now, validity), t, later) <==>
            later < now + validity * MinuteLength
  {
  }

  /** Rotation: once a refresh stores a new token, any other token,
      the one just used included, is refused. */
  lemma RefreshRotates(u: User, used: string, newer: string, now: int, validity: int, later: int)
    requires used != newer
    ensures !RefreshAccepted(WithRefreshToken(u, newer, now, validity), used, later)
  {
  }

  /** After a revoke no refresh is accepted, whatever its time. */
  lemma RevokeBlocksRefresh(u: User, supplied: string, now: int)
    ensures !RefreshAccepted(u.(refreshToken := None), supplied, now)
  {
  }
}
