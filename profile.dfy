/** Reading and updating a user's own profile. Only an active, unsuspended
    account is visible. An update merges the non-null fields of the request
    into the stored user and reconciles the stored language preferences
    and external links with the request's lists. */
module Profiles {
  import opened Common
  import opened Query
  import opened Entities
  import opened Storage

  /** The profile shown to clients. */
  datatype Profile = Profile(
    username: string,
    email: string,
    phoneNumber: Option<string>,
    fullName: string,
    dateOfBirth: Option<int>,
    bio: Option<string>,
    profilePictureUrl: Option<string>,
    createdAt: int,
    lastLoginDate: Option<int>,
    accountStatus: string,
    privacyLevel: string,
    languagePreferences: Option<seq<LanguagePreference>>,
    totalPosts: int,
    totalFollowers: int,
    totalFollowing: int,
    lastActivityDate: int,
    isVerified: bool,
    externalLinks: Option<seq<ExternalLink>>,
    location: Option<Location>)

  /** The field-by-field mapping of a stored user to its profile. */
  function ProfileOf(u: User): Profile
  {
    Profile(u.username, u.email, u.phoneNumber, u.fullName, u.dateOfBirth, u.bio, u.profilePictureUrl,
            u.createdAt, u.lastLoginDate, u.accountStatus, u.privacyLevel, u.languagePreferences,
            u.totalPosts, u.totalFollowers, u.totalFollowing, u.lastActivityDate, u.isVerified,
            u.externalLinks, u.location)
  }

  /** The body of an update request; every field may be null. An external
      link of the request has the same two fields as a stored one. */
  datatype ProfilePatch = ProfilePatch(
    email: Option<string>,
    phoneNumber: Option<string>,
    fullName: Option<string>,
    dateOfBirth: Option<int>,
    bio: Option<string>,
    profilePictureUrl: Option<string>,
    languagePreferences: Option<seq<LanguagePreference>>,
    externalLinks: Option<seq<ExternalLink>>)

  /** A null request behaves as a request whose every field is null. */
  const NoChanges := ProfilePatch(None, None, None, None, None, None, None, None)

  const NoActiveUser := "User does not exist, check username and try again"

  /** The lookup filter of both operations. */
  predicate IsActiveNamed(u: User, name: Option<string>)
  {
    Some(u.username) == name && !u.isSuspended && u.accountStatus == "Active"
  }

  /** The first user passing the filter; a suspended or inactive account is
      never found, whatever its name. */
  function ActiveUserNamed(users: seq<User>, name: Option<string>): (r: Option<nat>)
    ensures r.Some? ==> r.value < |users| && Some(users[r.value].username) == name &&
                        !users[r.value].isSuspended && users[r.value].accountStatus == "Active"
    ensures r.Some? ==> forall j :: 0 <= j < r.value ==> !IsActiveNamed(users[j], name)
    ensures r.None? <==> forall j :: 0 <= j < |users| ==> !IsActiveNamed(users[j], name)
  {
    FirstIndex(users, (u: User) => IsActiveNamed(u, name))
  }

  method GetUserProfile(db: Store, username: Option<string>) returns (r: Response<Profile>)
    ensures match ActiveUserNamed(db.users, username)
      case None => r == Fail(NotFound, NoActiveUser)
      case Some(i) => r == Ok(OK, "User profile retrieved successfully", ProfileOf(db.users[i]))
  {
    var found := ActiveUserNamed(db.users, username);
    if found.None? {
      return Fail(NotFound, NoActiveUser);
    }
    return Ok(OK, "User profile retrieved successfully", ProfileOf(db.users[found.value]));
  }

  // ---------------------------------------------------------------------
  // List reconciliation

  /** Language preferences are matched by language, links by name. */
  function LanguageKey(lp: LanguagePreference): Option<string>
  {
    lp.language
  }

  function LinkKey(l: ExternalLink): Option<string>
  {
    l.name
  }

  /** The `RemoveAll` test: some request entry has another key than x. */
  predicate Displaced<T>(patch: seq<T>, key: T -> Option<string>, x: T)
  {
    exists j :: 0 <= j < |patch| && key(patch[j]) != key(x)
  }

  predicate HasKey<T>(s: seq<T>, key: T -> Option<string>, k: Option<string>)
  {
    exists i :: 0 <= i < |s| && key(s[i]) == k
  }

  /** The stored entries `RemoveAll` leaves. */
  function Survivors<T>(list: seq<T>, patch: seq<T>, key: T -> Option<string>): (r: seq<T>)
    ensures |r| <= |list| && multiset(r) <= multiset(list)
    ensures forall i :: 0 <= i < |r| ==> r[i] in list && !Displaced(patch, key, r[i])
  {
    Filter(list, (x: T) => !Displaced(patch, key, x))
  }

  /** `AddRange` over a lazy `Where`: the request entries are taken in
      order, and each is appended unless the list, including what was
      appended before it, already holds its key. */
  function AddMissing<T>(list: seq<T>, patch: seq<T>, key: T -> Option<string>): (r: seq<T>)
    ensures |list| <= |r| <= |list| + |patch|
    decreases |patch|
  {
    if patch == [] then list
    else AddMissing(if HasKey(list, key, key(patch[0])) then list else list + [patch[0]], patch[1..], key)
  }

  function Reconciled<T>(list: seq<T>, patch: seq<T>, key: T -> Option<string>): seq<T>
  {
    AddMissing(Survivors(list, patch, key), patch, key)
  }

  /** A stored entry is removed exactly when some request entry has another
      key; so an empty request list removes nothing. */
  lemma SurvivorsExact<T>(list: seq<T>, patch: seq<T>, key: T -> Option<string>)
    ensures forall i :: 0 <= i < |list| ==>
      (list[i] in Survivors(list, patch, key) <==> !Displaced(patch, key, list[i]))
    ensures patch == [] ==> Survivors(list, patch, key) == list
  {
    if patch == [] {
      FilterKeepsAll(list, (x: T) => !Displaced(patch, key, x));
    }
  }

  /** The list grows only at its end; every request key ends up present;
      an appended entry comes from the request, and its key was in no
      earlier entry, so no key is added twice. */
  lemma {:induction false} AddMissingSpec<T>(list: seq<T>, patch: seq<T>, key: T -> Option<string>)
    ensures var r := AddMissing(list, patch, key);
      |list| <= |r| && r[..|list|] == list
    ensures forall j :: 0 <= j < |patch| ==> HasKey(AddMissing(list, patch, key), key, key(patch[j]))
    ensures var r := AddMissing(list, patch, key);
      forall i :: |list| <= i < |r| ==> r[i] in patch
    ensures var r := AddMissing(list, patch, key);
      forall i, j :: 0 <= i < j < |r| && |list| <= j ==> key(r[i]) != key(r[j])
    decreases |patch|
  {
    if patch != [] {
      var step := if HasKey(list, key, key(patch[0])) then list else list + [patch[0]];
      var r := AddMissing(list, patch, key);
      AddMissingSpec(step, patch[1..], key);
      assert r == AddMissing(step, patch[1..], key);
      assert r[..|step|] == step;
      assert HasKey(step, key, key(patch[0])) by {
        if !HasKey(list, key, key(patch[0])) {
          assert step[|list|] == patch[0];
        }
      }
      assert r[..|list|] == list by {
        assert step[..|list|] == list;
      }
      forall j | 0 <= j < |patch|
        ensures HasKey(r, key, key(patch[j]))
      {
        if j == 0 {
          var i :| 0 <= i < |step| && key(step[i]) == key(patch[0]);
          assert r[i] == step[i];
        } else {
          assert patch[j] == patch[1..][j - 1];
        }
      }
      forall i | |list| <= i < |r|
        ensures r[i] in patch
      {
        if i >= |step| {
          assert r[i] in patch[1..];
        } else {
          assert r[i] == step[i] == patch[0];
        }
      }
      forall i, j | 0 <= i < j < |r| && |list| <= j
        ensures key(r[i]) != key(r[j])
      {
        if j < |step| {
          assert r[j] == step[j] == patch[0];
          assert r[i] == list[i];
        }
      }
    }
  }

  /** When the list already holds every request key, nothing is added. */
  lemma {:induction false} AddMissingPresent<T>(list: seq<T>, patch: seq<T>, key: T -> Option<string>)
    requires forall j :: 0 <= j < |patch| ==> HasKey(list, key, key(patch[j]))
    ensures AddMissing(list, patch, key) == list
    decreases |patch|
  {
    if patch != [] {
      assert HasKey(list, key, key(patch[0]));
      forall j | 0 <= j < |patch[1..]|
        ensures HasKey(list, key, key(patch[1..][j]))
      {
        assert patch[1..][j] == patch[j + 1];
      }
      AddMissingPresent(list, patch[1..], key);
    }
  }

  /** A surviving stored entry blocks every request entry: the request's
      entries all share its key, so none is added, and a surviving link
      keeps its stored Url even when the request names it with another. */
  lemma SurvivorBlocksRequest<T>(list: seq<T>, patch: seq<T>, key: T -> Option<string>, x: T)
    requires x in list && !Displaced(patch, key, x)
    ensures x in Reconciled(list, patch, key)
    ensures Reconciled(list, patch, key) == Survivors(list, patch, key)
  {
    var s := Survivors(list, patch, key);
    var k :| 0 <= k < |list| && list[k] == x;
    SurvivorsExact(list, patch, key);
    var i :| 0 <= i < |s| && s[i] == x;
    forall j | 0 <= j < |patch|
      ensures HasKey(s, key, key(patch[j]))
    {
      assert key(s[i]) == key(patch[j]);
    }
    AddMissingPresent(s, patch, key);
  }

  /** A request whose entries carry two different keys displaces every
      stored entry. */
  lemma NoSurvivors<T>(list: seq<T>, patch: seq<T>, key: T -> Option<string>, j: nat, k: nat)
    requires j < |patch| && k < |patch| && key(patch[j]) != key(patch[k])
    ensures Survivors(list, patch, key) == []
  {
    forall i | 0 <= i < |list|
      ensures Displaced(patch, key, list[i])
    {
      if key(patch[j]) == key(list[i]) {
        assert key(patch[k]) != key(list[i]);
      } else {
        assert key(patch[j]) != key(list[i]);
      }
    }
    FilterDropsAll(list, (x: T) => !Displaced(patch, key, x));
  }

  /** Reconciling twice with the same request is reconciling once. */
  lemma ReconcileIdempotent<T>(list: seq<T>, patch: seq<T>, key: T -> Option<string>)
    ensures Reconciled(Reconciled(list, patch, key), patch, key) == Reconciled(list, patch, key)
  {
    var r := Reconciled(list, patch, key);
    var s := Survivors(list, patch, key);
    AddMissingSpec(s, patch, key);
    if j, k :| 0 <= j < |patch| && 0 <= k < |patch| && key(patch[j]) != key(patch[k]) {
      // every entry differs in key from patch[j] or from patch[k]: all go
      NoSurvivors(list, patch, key, j, k);
      NoSurvivors(r, patch, key, j, k);
    } else {
      // every request entry has one key, and every survivor has it too
      forall i | 0 <= i < |r|
        ensures !Displaced(patch, key, r[i])
      {
        if i < |s| {
          assert r[i] == s[i];
          assert !Displaced(patch, key, s[i]);
        }
      }
      FilterKeepsAll(r, (x: T) => !Displaced(patch, key, x));
      AddMissingPresent(r, patch, key);
    }
  }

  // ---------------------------------------------------------------------
  // The update

  /** `??` between two nullable values. */
  function CoalesceOption<T>(requested: Option<T>, stored: Option<T>): Option<T>
  {
    if requested.Some? then requested else stored
  }

  /** A stored list is reconciled only when both it and the request's list
      are present. */
  function ReconcileList<T>(stored: Option<seq<T>>, requested: Option<seq<T>>, key: T -> Option<string>)
    : (r: Option<seq<T>>)
    ensures r.Some? <==> stored.Some?
    ensures stored.None? || requested.None? ==> r == stored
    ensures stored.Some? && requested.Some? ==>
      forall j :: 0 <= j < |requested.value| ==> HasKey(r.value, key, key(requested.value[j]))
  {
    if stored.Some? && requested.Some? then
      AddMissingSpec(Survivors(stored.value, requested.value, key), requested.value, key);
      Some(Reconciled(stored.value, requested.value, key))
    else stored
  }

  lemma ReconcileListIdempotent<T>(stored: Option<seq<T>>, requested: Option<seq<T>>, key: T -> Option<string>)
    ensures ReconcileList(ReconcileList(stored, requested, key), requested, key) == ReconcileList(stored, requested, key)
  {
    if stored.Some? && requested.Some? {
      ReconcileIdempotent(stored.value, requested.value, key);
    }
  }

  /** The user as UpdateUserProfile leaves it. */
  function Updated(u: User, request: Option<ProfilePatch>, now: int): User
  {
    var p := if request.Some? then request.value else NoChanges;
    u.(email := Coalesce(p.email, u.email),
       fullName := Coalesce(p.fullName, u.fullName),
       phoneNumber := CoalesceOption(p.phoneNumber, u.phoneNumber),
       dateOfBirth := CoalesceOption(p.dateOfBirth, u.dateOfBirth),
       bio := CoalesceOption(p.bio, u.bio),
       profilePictureUrl := CoalesceOption(p.profilePictureUrl, u.profilePictureUrl),
       languagePreferences := ReconcileList(u.languagePreferences, p.languagePreferences, LanguageKey),
       externalLinks := ReconcileList(u.externalLinks, p.externalLinks, LinkKey),
       lastActivityDate := now)
  }

  /** The field assignments of UpdateUserProfile on the found user. */
  method MergeRequest(stored: User, request: Option<ProfilePatch>, now: int) returns (merged: User)
    ensures merged == Updated(stored, request, now)
  {
    var user := stored;
    var p := if request.Some? then request.value else NoChanges;
    var email := if p.email.Some? then p.email.value else user.email;
    var fullName := if p.fullName.Some? then p.fullName.value else user.fullName;
    var phoneNumber := if p.phoneNumber.Some? then p.phoneNumber else user.phoneNumber;
    var dateOfBirth := if p.dateOfBirth.Some? then p.dateOfBirth else user.dateOfBirth;
    var bio := if p.bio.Some? then p.bio else user.bio;
    var picture := if p.profilePictureUrl.Some? then p.profilePictureUrl else user.profilePictureUrl;
    var languages := user.languagePreferences;
    if p.languagePreferences.Some? && languages.Some? {
      var kept := Survivors(languages.value, p.languagePreferences.value, LanguageKey);
      languages := Some(AddMissing(kept, p.languagePreferences.value, LanguageKey));
    }
    var links := user.externalLinks;
    if p.externalLinks.Some? && links.Some? {
      var kept := Survivors(links.value, p.externalLinks.value, LinkKey);
      links := Some(AddMissing(kept, p.externalLinks.value, LinkKey));
    }
    assert languages == ReconcileList(user.languagePreferences, p.languagePreferences, LanguageKey);
    assert links == ReconcileList(user.externalLinks, p.externalLinks, LinkKey);
    user := user.(email := email, fullName := fullName, phoneNumber := phoneNumber, dateOfBirth := dateOfBirth,
                  bio := bio, profilePictureUrl := picture, languagePreferences := languages,
                  externalLinks := links, lastActivityDate := now);
    merged := user;
  }

  /** The catch-all answer; saving an email another account holds breaks
      the unique index on Email and ends here. */
  const UpdateFailure := "Oops! An error occurred while trying to update user profile. Please try again later."

  method UpdateUserProfile(db: Store, username: Option<string>, request: Option<ProfilePatch>, now: int)
    returns (r: Response<Profile>)
    requires db.Valid()
    modifies db`users
    ensures db.Valid()
    ensures match ActiveUserNamed(old(db.users), username)
      case None => r == Fail(NotFound, NoActiveUser) && db.users == old(db.users)
      case Some(i) =>
        var u := Updated(old(db.users)[i], request, now);
        if AccountTaken(old(db.users), i, u) then
          r == Fail(InternalServerError, UpdateFailure) && db.users == old(db.users)
        else
          (db.users == old(db.users)[i := u] && r == Ok(OK, "Your profile has been updated successfully", ProfileOf(u))) ||
          (db.users == old(db.users) &&
           r == Fail(FailedDependency, "Something bad happened and it is entirely our fault. Please try again."))
  {
    var found := ActiveUserNamed(db.users, username);
    if found.None? {
      return Fail(NotFound, NoActiveUser);
    }
    var user := MergeRequest(db.users[found.value], request, now);
    if AccountTaken(db.users, found.value, user) {
      return Fail(InternalServerError, UpdateFailure);
    }
    var rows := db.UpdateUser(found.value, user);
    if rows < 1 {
      return Fail(FailedDependency, "Something bad happened and it is entirely our fault. Please try again.");
    }
    return Ok(OK, "Your profile has been updated successfully", ProfileOf(user));
  }

  // ---------------------------------------------------------------------
  // Properties of the update

  /** Only the mergeable fields, the two lists and the activity time
      change; a null request value keeps the stored one, a present one
      replaces it, and a null request list leaves the stored list alone. */
  lemma UpdateMergesFields(u: User, request: Option<ProfilePatch>, now: int)
    ensures var r := Updated(u, request, now);
      r == u.(email := r.email, fullName := r.fullName, phoneNumber := r.phoneNumber,
              dateOfBirth := r.dateOfBirth, bio := r.bio, profilePictureUrl := r.profilePictureUrl,
              languagePreferences := r.languagePreferences, externalLinks := r.externalLinks,
              lastActivityDate := now)
    ensures var r := Updated(u, request, now);
      var p := if request.Some? then request.value else NoChanges;
      (p.email.None? ==> r.email == u.email) && (p.email.Some? ==> r.email == p.email.value) &&
      (p.fullName.None? ==> r.fullName == u.fullName) && (p.fullName.Some? ==> r.fullName == p.fullName.value) &&
      (p.phoneNumber.None? ==> r.phoneNumber == u.phoneNumber) && (p.phoneNumber.Some? ==> r.phoneNumber == p.phoneNumber) &&
      (p.dateOfBirth.None? ==> r.dateOfBirth == u.dateOfBirth) && (p.dateOfBirth.Some? ==> r.dateOfBirth == p.dateOfBirth) &&
      (p.bio.None? ==> r.bio == u.bio) && (p.bio.Some? ==> r.bio == p.bio) &&
      (p.profilePictureUrl.None? ==> r.profilePictureUrl == u.profilePictureUrl) &&
      (p.profilePictureUrl.Some? ==> r.profilePictureUrl == p.profilePictureUrl) &&
      (p.languagePreferences.None? ==> r.languagePreferences == u.languagePreferences) &&
      (p.externalLinks.None? ==> r.externalLinks == u.externalLinks)
  {
  }

  /** The update keeps the username, so on a store with unique accounts it
      breaks a unique index exactly when another account holds the new
      email. */
  lemma UpdateClashIsEmailClash(users: seq<User>, i: nat, request: Option<ProfilePatch>, now: int)
    requires UniqueAccounts(users) && i < |users|
    ensures var u := Updated(users[i], request, now);
      AccountTaken(users, i, u) <==> exists k :: 0 <= k < |users| && k != i && users[k].email == u.email
  {
    var u := Updated(users[i], request, now);
    UpdateMergesFields(users[i], request, now);
    assert u.username == users[i].username;
    forall k | 0 <= k < |users| && k != i
      ensures users[k].username != u.username
    {
      if k < i {
        assert users[k].username != users[i].username;
      } else {
        assert users[i].username != users[k].username;
      }
    }
  }

  /** With lists on both sides, every requested language and link name is
      present after the update. */
  lemma UpdateCoversRequestedLists(u: User, p: ProfilePatch, now: int)
    requires u.languagePreferences.Some? && p.languagePreferences.Some?
    requires u.externalLinks.Some? && p.externalLinks.Some?
    ensures var r := Updated(u, Some(p), now);
      r.languagePreferences.Some? && r.externalLinks.Some? &&
      (forall j :: 0 <= j < |p.languagePreferences.value| ==>
         HasKey(r.languagePreferences.value, LanguageKey, p.languagePreferences.value[j].language)) &&
      (forall j :: 0 <= j < |p.externalLinks.value| ==>
         HasKey(r.externalLinks.value, LinkKey, p.externalLinks.value[j].name))
  {
    var langs, links := p.languagePreferences.value, p.externalLinks.value;
    AddMissingSpec(Survivors(u.languagePreferences.value, langs, LanguageKey), langs, LanguageKey);
    AddMissingSpec(Survivors(u.externalLinks.value, links, LinkKey), links, LinkKey);
  }

  /** Sending the same update twice leaves the user as sending it once
      (the activity time aside, which both set to their own now). */
  lemma UpdateIdempotent(u: User, request: Option<ProfilePatch>, now: int, later: int)
    ensures Updated(Updated(u, request, now), request, later) == Updated(u, request, later)
  {
    var p := if request.Some? then request.value else NoChanges;
    ReconcileListIdempotent(u.languagePreferences, p.languagePreferences, LanguageKey);
    ReconcileListIdempotent(u.externalLinks, p.externalLinks, LinkKey);
  }

  /** An update keeps the account visible: the same user is the one the
      next profile read finds. */
  lemma UpdateKeepsProfileVisible(users: seq<User>, name: Option<string>, request: Option<ProfilePatch>, now: int)
    requires ActiveUserNamed(users, name).Some?
    ensures var i := ActiveUserNamed(users, name).value;
      ActiveUserNamed(users[i := Updated(users[i], request, now)], name) == Some(i)
  {
    var i := ActiveUserNamed(users, name).value;
    var after := users[i := Updated(users[i], request, now)];
    assert IsActiveNamed(after[i], name);
    forall j | 0 <= j < i
      ensures !IsActiveNamed(after[j], name)
    {
      assert after[j] == users[j];
    }
  }
}
