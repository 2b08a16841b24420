/** The stored records. Times (DateTime, DateTimeOffset) are integer
    seconds; nullable references and lists are `Option`s. */
module Entities {
  import opened Common

  newtype byte = b: int | 0 <= b < 256

  datatype ExternalLink = ExternalLink(name: Option<string>, url: Option<string>)

  datatype LanguagePreference = LanguagePreference(language: Option<string>)

  datatype Location = Location(city: Option<string>, country: Option<string>)

  datatype User = User(
    id: string,
    username: string,
    email: string,
    phoneNumber: Option<string>,
    fullName: string,
    dateOfBirth: Option<int>,
    bio: Option<string>,
    profilePictureUrl: Option<string>,
    passwordHash: seq<byte>,
    salt: seq<byte>,
    createdAt: int,
    lastLoginDate: Option<int>,
    accountStatus: string,
    privacyLevel: string,
    languagePreferences: Option<seq<LanguagePreference>>,
    totalPosts: int,
    totalFollowers: int,
    totalFollowing: int,
    lastActivityDate: int,
    isVerified: bool,
    isSuspended: bool,
    externalLinks: Option<seq<ExternalLink>>,
    refreshToken: Option<string>,
    refreshTokenAddedAt: Option<int>,
    refreshTokenExpiryTime: Option<int>,
    location: Option<Location>)

  datatype MediaContent = MediaContent(mediaType: Option<string>, url: Option<string>)

  datatype Post = Post(
    id: string,
    userId: string,
    content: string,
    mediaContents: seq<MediaContent>,
    location: string,
    createdAt: int,
    updatedAt: Option<int>)

  /** A comment; a reply names its parent comment. */
  datatype Comment = Comment(
    id: string,
    parentCommentId: Option<string>,
    postId: string,
    userId: string,
    content: string,
    createdAt: int)

  /** A like of a post, or of a comment when commentId is set; a comment
      like also carries the comment's post id. */
  datatype PostLike = PostLike(
    id: string,
    postId: string,
    commentId: Option<string>,
    userId: string,
    createdAt: int)

  datatype FriendshipRequest = FriendshipRequest(
    id: string,
    senderId: string,
    receiverId: string,
    requestedAt: int)

  /** A follow edge: follower follows following. */
  datatype Friendship = Friendship(
    id: string,
    followerId: string,
    followingId: string,
    followedAt: int,
    isMutual: bool)

  // -------------------------------------------------------------------
  // The account status column holds the text of an `AccountStatus` member
  // (Active = 0, Suspended = 1, Deactivated = 2); the friend-request
  // service reads it back with `Enum.TryParse`, which yields the enum's
  // underlying int, named or not.

  const ActiveValue := 0
  const SuspendedValue := 1
  const DeactivatedValue := 2

  const Int32Min := -0x8000_0000
  const Int32Max := 0x7FFF_FFFF

  /** The underlying value of a member name (ordinal comparison). */
  function MemberValue(name: string): (r: Option<int>)
    ensures r.Some? ==> 0 <= r.value < 4
  {
    if name == "Active" then Some(ActiveValue)
    else if name == "Suspended" then Some(SuspendedValue)
    else if name == "Deactivated" then Some(DeactivatedValue)
    else None
  }

  /** The length of the longest prefix of s whose characters satisfy p. */
  function PrefixRun(s: string, p: char -> bool): (k: nat)
    ensures k <= |s|
    ensures forall i :: 0 <= i < k ==> p(s[i])
    ensures k < |s| ==> !p(s[k])
  {
    if |s| == 0 || !p(s[0]) then 0 else 1 + PrefixRun(s[1..], p)
  }

  /** The run is the k that ends it. */
  lemma PrefixRunExact(s: string, p: char -> bool, k: nat)
    requires k <= |s|
    requires forall i :: 0 <= i < k ==> p(s[i])
    requires k < |s| ==> !p(s[k])
    ensures PrefixRun(s, p) == k
  {
  }

  /** String.TrimStart() */
  function TrimStart(s: string): (r: string)
    ensures |r| <= |s| && r == s[|s| - |r|..]
    ensures forall i :: 0 <= i < |s| - |r| ==> IsWhiteSpace(s[i])
    ensures r == [] || !IsWhiteSpace(r[0])
  {
    s[PrefixRun(s, IsWhiteSpace)..]
  }

  /** String.TrimEnd() */
  function TrimEnd(s: string): (r: string)
    ensures |r| <= |s| && r == s[..|r|]
    ensures forall i :: |r| <= i < |s| ==> IsWhiteSpace(s[i])
    ensures r == [] || !IsWhiteSpace(r[|r| - 1])
  {
    if |s| > 0 && IsWhiteSpace(s[|s| - 1]) then TrimEnd(s[..|s| - 1]) else s
  }

  /** String.Trim() */
  function Trim(s: string): string
  {
    TrimEnd(TrimStart(s))
  }

  /** The white space the integer parser skips: space and U+0009..U+000D. */
  predicate IsAsciiWhite(c: char)
  {
    c == ' ' || '\U{9}' <= c <= '\U{D}'
  }

  function DigitValue(c: char): (n: nat)
    requires IsDigit(c)
    ensures n < 10
  {
    c as int - '0' as int
  }

  /** The value of a run of decimal digits, most significant first. */
  function DigitsValue(d: string): (n: nat)
    requires forall i :: 0 <= i < |d| ==> IsDigit(d[i])
  {
    if |d| == 0 then 0 else 10 * DigitsValue(d[..|d| - 1]) + DigitValue(d[|d| - 1])
  }

  datatype NumberStatus = Parsed(value: int) | Overflow | Failed

  /** `int` parsing with AllowLeadingSign | AllowTrailingWhite in the
      invariant culture: an optional '+' or '-', at least one digit, then
      white space and NUL characters only. A value outside the 32-bit range
      overflows. */
  function ParseInt32(s: string): (r: NumberStatus)
    ensures r.Parsed? ==> Int32Min <= r.value <= Int32Max
  {
    var negative := |s| > 0 && s[0] == '-';
    var body := if |s| > 0 && (s[0] == '-' || s[0] == '+') then s[1..] else s;
    var k := PrefixRun(body, IsDigit);
    var white := k + PrefixRun(body[k..], IsAsciiWhite);
    if k == 0 || exists i :: white <= i < |body| && body[i] != '\0' then Failed
    else
      var n := if negative then -(DigitsValue(body[..k]) as int) else DigitsValue(body[..k]) as int;
      if Int32Min <= n <= Int32Max then Parsed(n) else Overflow
  }

  predicate IsNotComma(c: char)
  {
    c != ','
  }

  /** The bitwise or of two values of the enum's two bits. */
  function Or(a: int, b: int): (r: int)
    requires 0 <= a < 4 && 0 <= b < 4
    ensures 0 <= r < 4
  {
    ((a as bv2) | (b as bv2)) as int
  }

  /** The name form: comma-separated member names, each trimmed, their
      values or-ed together; an empty or unknown piece fails. */
  function ParseByName(s: string): (r: Option<int>)
    ensures r.Some? ==> 0 <= r.value < 4
    decreases |s|
  {
    var k := PrefixRun(s, IsNotComma);
    var v := MemberValue(Trim(s[..k]));
    if v.None? then None
    else if k == |s| then v
    else match ParseByName(s[k + 1..])
      case None => None
      case Some(w) => Some(Or(v.value, w))
  }

  /** `Enum.TryParse<AccountStatus>`: leading white space is skipped; a
      value starting with a digit or a sign is read as a number (the name
      form is tried when that fails, but no name starts that way); any
      other value is read as a list of names. */
  function ParseAccountStatus(s: string): (r: Option<int>)
    ensures (forall i :: 0 <= i < |s| ==> IsWhiteSpace(s[i])) ==> r.None?
    ensures r.Some? ==> Int32Min <= r.value <= Int32Max
    ensures r.Some? && !IsDigit(TrimStart(s)[0]) && TrimStart(s)[0] != '-' && TrimStart(s)[0] != '+'
            ==> 0 <= r.value < 4
  {
    var v := TrimStart(s);
    if v == [] then None
    else if IsDigit(v[0]) || v[0] == '-' || v[0] == '+' then
      match ParseInt32(v)
      case Parsed(n) => Some(n)
      case Overflow => None
      case Failed => ParseByName(v)
    else ParseByName(v)
  }

  /** A member name is not blank at either end, holds no comma and does
      not start like a number. */
  lemma MemberNameShape(name: string)
    requires MemberValue(name).Some?
    ensures |name| > 0 && !IsWhiteSpace(name[0]) && !IsWhiteSpace(name[|name| - 1])
    ensures !IsDigit(name[0]) && name[0] != '-' && name[0] != '+'
    ensures forall i :: 0 <= i < |name| ==> name[i] != ','
  {
  }

  /** Leading white space before a non-blank start is trimmed away, and no more. */
  lemma TrimStartPadded(before: string, rest: string)
    requires forall i :: 0 <= i < |before| ==> IsWhiteSpace(before[i])
    requires |rest| > 0 && !IsWhiteSpace(rest[0])
    ensures TrimStart(before + rest) == rest
  {
    var s := before + rest;
    assert s[|before|] == rest[0];
    PrefixRunExact(s, IsWhiteSpace, |before|);
    assert s[|before|..] == rest;
  }

  /** Trailing white space after a member name is trimmed away, and no more. */
  lemma {:induction false} TrimEndPadded(name: string, after: string)
    requires forall i :: 0 <= i < |after| ==> IsWhiteSpace(after[i])
    requires MemberValue(name).Some?
    ensures TrimEnd(name + after) == name
    decreases |after|
  {
    MemberNameShape(name);
    if |after| > 0 {
      var shorter := after[..|after| - 1];
      assert (name + after)[..|name + after| - 1] == name + shorter;
      TrimEndPadded(name, shorter);
    } else {
      assert name + after == name;
    }
  }

  /** A member name with white space around it trims to the name. */
  lemma TrimPadded(before: string, name: string, after: string)
    requires forall i :: 0 <= i < |before| ==> IsWhiteSpace(before[i])
    requires forall i :: 0 <= i < |after| ==> IsWhiteSpace(after[i])
    requires MemberValue(name).Some?
    ensures Trim(before + name + after) == name
  {
    MemberNameShape(name);
    assert before + name + after == before + (name + after);
    TrimStartPadded(before, name + after);
    TrimEndPadded(name, after);
  }

  /** A member name parses to its value whatever white space surrounds it. */
  lemma PaddedNameParses(before: string, name: string, after: string)
    requires forall i :: 0 <= i < |before| ==> IsWhiteSpace(before[i])
    requires forall i :: 0 <= i < |after| ==> IsWhiteSpace(after[i])
    requires MemberValue(name).Some?
    ensures ParseAccountStatus(before + name + after) == MemberValue(name)
  {
    MemberNameShape(name);
    var v := name + after;
    assert before + name + after == before + v;
    TrimStartPadded(before, v);
    assert forall i :: 0 <= i < |v| ==> v[i] != ',' by {
      forall i | 0 <= i < |v| ensures v[i] != ',' {
        if i >= |name| {
          assert IsWhiteSpace(after[i - |name|]);
        }
      }
    }
    PrefixRunExact(v, IsNotComma, |v|);
    assert v[..|v|] == [] + name + after;
    TrimPadded([], name, after);
  }

  /** A single member name is read by the name form as its value. */
  lemma SingleNameParses(name: string)
    requires MemberValue(name).Some?
    ensures ParseByName(name) == MemberValue(name)
  {
    MemberNameShape(name);
    PrefixRunExact(name, IsNotComma, |name|);
    assert name[..|name|] == [] + name + [];
    TrimPadded([], name, []);
  }

  /** The name form reads the piece before the first comma, then the rest. */
  lemma NameListStep(piece: string, rest: string)
    requires forall i :: 0 <= i < |piece| ==> piece[i] != ','
    ensures var v := MemberValue(Trim(piece));
      ParseByName(piece + "," + rest)
        == if v.None? then None
           else match ParseByName(rest)
             case None => None
             case Some(w) => Some(Or(v.value, w))
  {
    var s := piece + "," + rest;
    PrefixRunExact(s, IsNotComma, |piece|);
    assert s[..|piece|] == piece;
    assert s[|piece| + 1..] == rest;
  }

  /** Two member names joined by a comma parse to their values or-ed. */
  lemma CommaJoinedNamesParse(a: string, b: string)
    requires MemberValue(a).Some? && MemberValue(b).Some?
    ensures ParseAccountStatus(a + "," + b)
         == Some(Or(MemberValue(a).value, MemberValue(b).value))
  {
    MemberNameShape(a);
    var s := a + "," + b;
    assert s[0] == a[0];
    TrimStartPadded([], s);
    assert [] + s == s;
    NameListStep(a, b);
    TrimPadded([], a, []);
    assert [] + a + [] == a;
    SingleNameParses(b);
  }

  /** The digits' value is the number they write. */
  lemma {:induction false} DecimalValue(n: nat)
    ensures DigitsValue(Decimal(n)) == n
    decreases n
  {
    if n >= 10 {
      DecimalValue(n / 10);
      var d := Decimal(n);
      assert d[..|d| - 1] == Decimal(n / 10);
    }
  }

  /** A decimal number in the 32-bit range parses as that number. */
  lemma DecimalParsesAsInt32(n: nat)
    requires n <= Int32Max
    ensures ParseInt32(Decimal(n)) == Parsed(n)
  {
    var d := Decimal(n);
    DecimalValue(n);
    PrefixRunExact(d, IsDigit, |d|);
    assert d[..|d|] == d;
    assert d[0] != '-' && d[0] != '+';
  }

  /** A minus sign before a decimal number down to the 32-bit minimum
      parses as the negated number. */
  lemma NegatedDecimalParsesAsInt32(n: nat)
    requires n <= -Int32Min
    ensures ParseInt32("-" + Decimal(n)) == Parsed(-(n as int))
  {
    var d := Decimal(n);
    var m := "-" + d;
    DecimalValue(n);
    assert m[1..] == d;
    PrefixRunExact(d, IsDigit, |d|);
    assert d[..|d|] == d;
  }

  /** A status written as a decimal number in the 32-bit range parses to
      that number, with or without a minus sign. */
  lemma NumericStatusParses(n: nat)
    ensures n <= Int32Max ==> ParseAccountStatus(Decimal(n)) == Some(n)
    ensures n <= -Int32Min ==> ParseAccountStatus("-" + Decimal(n)) == Some(-(n as int))
  {
    var d := Decimal(n);
    if n <= Int32Max {
      TrimStartPadded([], d);
      assert [] + d == d;
      DecimalParsesAsInt32(n);
    }
    if n <= -Int32Min {
      var m := "-" + d;
      TrimStartPadded([], m);
      assert [] + m == m;
      NegatedDecimalParsesAsInt32(n);
    }
  }
}
