/** Password hashing and the small token and code formats of the account
    service. The key derivation (PBKDF2 with HMAC-SHA512, RFC 8018 section
    5.2), SHA-256 and the random sources are parameters; what is modelled
    is how their bytes are turned into strings: the Base16 alphabet of
    RFC 4648 section 8, upper-case as `Convert.ToHexString` writes it. */
module Passwords {
  import opened Common
  import opened Entities

  /** Length in bytes of a derived key, of a salt and of a random token. */
  const KeySize := 64

  /** Length in bytes of a SHA-256 digest. */
  const DigestSize := 32

  /** A digit of the Base16 alphabet. */
  predicate IsUpperHex(c: char)
  {
    IsDigit(c) || 'A' <= c <= 'F'
  }

  predicate IsLowerHex(c: char)
  {
    IsDigit(c) || 'a' <= c <= 'f'
  }

  /** A key derivation from a password and a salt. */
  type Kdf = (string, seq<byte>) -> seq<byte>

  /** The derivation always yields KeySize bytes. */
  ghost predicate DerivesKeys(kdf: Kdf)
  {
    forall p, s :: |kdf(p, s)| == KeySize
  }

  /** A digest of the UTF-8 bytes of a string. */
  type Digest = string -> seq<byte>

  ghost predicate DigestsSha256Size(sha256: Digest)
  {
    forall s :: |sha256(s)| == DigestSize
  }

  /** A cryptographic random source: an endless stream of bytes. */
  type Rng = nat -> byte

  // ---------------------------------------------------------------------
  // Base16

  function HexDigit(n: nat): (c: char)
    requires n < 16
    ensures IsUpperHex(c)
  {
    if n < 10 then ('0' as int + n) as char else ('A' as int + n - 10) as char
  }

  /** The value of a hex digit of either case, as `Convert.FromHexString`
      accepts them. */
  function HexValue(c: char): (r: Option<nat>)
    ensures r.Some? ==> r.value < 16
    ensures r.Some? <==> IsUpperHex(c) || IsLowerHex(c)
  {
    if '0' <= c <= '9' then Some(c as int - '0' as int)
    else if 'A' <= c <= 'F' then Some(c as int - 'A' as int + 10)
    else if 'a' <= c <= 'f' then Some(c as int - 'a' as int + 10)
    else None
  }

  /** `Convert.ToHexString`: two upper-case digits per byte, high nibble first. */
  function ToHex(b: seq<byte>): (r: string)
    ensures |r| == 2 * |b|
    ensures forall i :: 0 <= i < |r| ==> IsUpperHex(r[i])
  {
    if b == [] then ""
    else [HexDigit(b[0] as int / 16), HexDigit(b[0] as int % 16)] + ToHex(b[1..])
  }

  /** `Convert.FromHexString`: an odd length or a non-hex character is an error. */
  function FromHex(s: string): (r: Option<seq<byte>>)
    ensures |s| % 2 == 1 ==> r.None?
    ensures r.Some? ==> 2 * |r.value| == |s|
  {
    if |s| % 2 == 1 then None else FromHexPairs(s)
  }

  function FromHexPairs(s: string): (r: Option<seq<byte>>)
    requires |s| % 2 == 0
    ensures r.Some? ==> 2 * |r.value| == |s|
    decreases |s|
  {
    if s == [] then Some([])
    else match (HexValue(s[0]), HexValue(s[1]), FromHexPairs(s[2..]))
      case (Some(hi), Some(lo), Some(rest)) => Some([(hi * 16 + lo) as byte] + rest)
      case _ => None
  }

  lemma HexValueOfDigit(n: nat)
    requires n < 16
    ensures HexValue(HexDigit(n)) == Some(n)
  {
  }

  lemma FromHexPairsStep(s: string)
    requires |s| >= 2 && |s| % 2 == 0
    requires HexValue(s[0]).Some? && HexValue(s[1]).Some? && FromHexPairs(s[2..]).Some?
    ensures FromHexPairs(s) ==
      Some([(HexValue(s[0]).value * 16 + HexValue(s[1]).value) as byte] + FromHexPairs(s[2..]).value)
  {
  }

  /** Decoding the hex of any bytes gives the bytes back. */
  lemma {:induction false} HexRoundTrip(b: seq<byte>)
    ensures FromHex(ToHex(b)) == Some(b)
  {
    if b != [] {
      var hi, lo := b[0] as int / 16, b[0] as int % 16;
      HexValueOfDigit(hi);
      HexValueOfDigit(lo);
      HexRoundTrip(b[1..]);
      var s := ToHex(b);
      assert s[0] == HexDigit(hi) && s[1] == HexDigit(lo) && s[2..] == ToHex(b[1..]);
      FromHexPairsStep(s);
      assert hi * 16 + lo == b[0] as int;
      assert [b[0]] + b[1..] == b;
    }
  }

  /** Two byte strings with the same hex are equal. */
  lemma HexInjective(a: seq<byte>, b: seq<byte>)
    requires ToHex(a) == ToHex(b)
    ensures a == b
  {
    HexRoundTrip(a);
    HexRoundTrip(b);
  }

  // ---------------------------------------------------------------------
  // Hashing and verifying passwords

  /** `RandomNumberGenerator.GetBytes(n)`: the next n bytes of the source. */
  function RandomBytes(rng: Rng, n: nat): (r: seq<byte>)
    ensures |r| == n
    ensures forall i :: 0 <= i < n ==> r[i] == rng(i)
  {
    seq(n, i requires 0 <= i < n => rng(i))
  }

  function GenerateRandomSalt(rng: Rng): (salt: seq<byte>)
    ensures |salt| == KeySize
  {
    RandomBytes(rng, KeySize)
  }

  /** HashPassword: the hex of the key derived with a fresh salt, and that
      salt (the source's `out` parameter). */
  function HashPassword(password: string, rng: Rng, kdf: Kdf): (r: (string, seq<byte>))
    requires DerivesKeys(kdf)
    ensures |r.1| == KeySize
    ensures |r.0| == 2 * KeySize && forall i :: 0 <= i < |r.0| ==> IsUpperHex(r.0[i])
    ensures FromHex(r.0) == Some(kdf(password, r.1))
  {
    var salt := GenerateRandomSalt(rng);
    HexRoundTrip(kdf(password, salt));
    (ToHex(kdf(password, salt)), salt)
  }

  /** VerifyPassword: `FixedTimeEquals` is false on a length mismatch and
      otherwise compares every byte, which is sequence equality. */
  function VerifyPassword(password: string, hash: seq<byte>, salt: seq<byte>, kdf: Kdf): (r: bool)
    ensures r <==> |hash| == |kdf(password, salt)| &&
                   forall i :: 0 <= i < |hash| ==> hash[i] == kdf(password, salt)[i]
  {
    kdf(password, salt) == hash
  }

  /** The stored hash of a password accepts that password, and accepts
      another exactly when the derivation collides on the same salt. */
  lemma VerifyMatchesHash(password: string, other: string, rng: Rng, kdf: Kdf)
    requires DerivesKeys(kdf)
    ensures var (hex, salt) := HashPassword(password, rng, kdf);
      FromHex(hex).Some? && VerifyPassword(password, FromHex(hex).value, salt, kdf) &&
      (VerifyPassword(other, FromHex(hex).value, salt, kdf) <==> kdf(other, salt) == kdf(password, salt))
  {
  }

  /** GenerateRandomToken: the hex of KeySize random bytes. */
  function GenerateRandomToken(rng: Rng): (r: string)
    ensures |r| == 2 * KeySize && forall i :: 0 <= i < |r| ==> IsUpperHex(r[i])
    ensures FromHex(r) == Some(RandomBytes(rng, KeySize))
  {
    HexRoundTrip(RandomBytes(rng, KeySize));
    ToHex(RandomBytes(rng, KeySize))
  }

  // ---------------------------------------------------------------------
  // Two-factor codes

  /** A number from 10^k up to 10^(k+1) has k+1 digits. */
  lemma {:induction false} DecimalLength(n: nat, k: nat)
    requires Pow10(k) <= n < Pow10(k + 1)
    ensures |Decimal(n)| == k + 1
    decreases k
  {
    if k > 0 {
      DecimalLength(n / 10, k - 1);
    }
  }

  /** A draw has five or six digits. */
  lemma DrawDigits(randomPart: int)
    requires 10000 <= randomPart < 999999
    ensures randomPart < 100000 ==> |Decimal(randomPart)| == 5
    ensures randomPart >= 100000 ==> |Decimal(randomPart)| == 6
  {
    if randomPart < 100000 {
      DecimalLength(randomPart, 4);
    } else {
      DecimalLength(randomPart, 5);
    }
  }

  /** `long.ToString()`: a minus sign before a negative value. */
  function LongToString(t: int): (r: string)
    ensures |r| >= 1 && IsDigit(r[|r| - 1])
  {
    if t < 0 then "-" + Decimal(-t) else Decimal(t)
  }

  /** GenerateUnique2FactorCode, for the clock's millisecond timestamp and
      the draw of `Random.Next(10000, 999999)`: the last six characters of
      the timestamp followed by the draw. */
  function GenerateUnique2FactorCode(timestamp: int, randomPart: int): (code: string)
    requires 10000 <= randomPart < 999999
    ensures |code| == 6
    ensures forall i :: 0 <= i < 6 ==> IsDigit(code[i])
  {
    var ts, rp := LongToString(timestamp), Decimal(randomPart);
    DrawDigits(randomPart);
    LastSixDigits(ts, rp);
    (ts + rp)[|ts + rp| - 6..]
  }

  /** The last six characters of a timestamp's digits and a five- or
      six-digit draw are the draw, after the timestamp's last digit when
      the draw is short. */
  lemma LastSixDigits(ts: string, rp: string)
    requires |ts| >= 1 && IsDigit(ts[|ts| - 1])
    requires |rp| == 5 || |rp| == 6
    requires forall i :: 0 <= i < |rp| ==> IsDigit(rp[i])
    ensures |ts + rp| >= 6
    ensures (ts + rp)[|ts + rp| - 6..] == if |rp| == 6 then rp else [ts[|ts| - 1]] + rp
    ensures var code := (ts + rp)[|ts + rp| - 6..];
      |code| == 6 && forall i :: 0 <= i < |code| ==> IsDigit(code[i])
  {
    var joined := ts + rp;
    if |rp| == 6 {
      assert joined[|ts|..] == rp;
    } else {
      assert joined[|ts| - 1..] == ts[|ts| - 1..] + rp;
      assert ts[|ts| - 1..] == [ts[|ts| - 1]];
    }
  }

  /** A six-digit draw is the whole code; a five-digit draw follows the
      timestamp's last digit. */
  lemma TwoFactorCodeSource(timestamp: int, randomPart: int)
    requires 10000 <= randomPart < 999999
    ensures randomPart >= 100000 ==> GenerateUnique2FactorCode(timestamp, randomPart) == Decimal(randomPart)
    ensures randomPart < 100000 ==>
      var ts := LongToString(timestamp);
      GenerateUnique2FactorCode(timestamp, randomPart) == [ts[|ts| - 1]] + Decimal(randomPart)
  {
    DrawDigits(randomPart);
    LastSixDigits(LongToString(timestamp), Decimal(randomPart));
  }

  /** `BitConverter.ToString`: two upper-case digits per byte, separated by
      '-'. */
  function BitConverterString(b: seq<byte>): string
    decreases |b|
  {
    if |b| <= 1 then ToHex(b) else ToHex(b[..1]) + "-" + BitConverterString(b[1..])
  }

  /** `Replace(c, "")` for a one-character c. */
  function RemoveChar(s: string, c: char): (r: string)
    ensures forall i :: 0 <= i < |r| ==> r[i] != c
  {
    if s == [] then [] else (if s[0] == c then [] else [s[0]]) + RemoveChar(s[1..], c)
  }

  lemma {:induction false} RemoveCharAppend(a: string, b: string, c: char)
    ensures RemoveChar(a + b, c) == RemoveChar(a, c) + RemoveChar(b, c)
  {
    if a != [] {
      RemoveCharAppend(a[1..], b, c);
      assert (a + b)[0] == a[0] && (a + b)[1..] == a[1..] + b;
    } else {
      assert a + b == b;
    }
  }

  /** Removing the separators leaves the plain hex. */
  lemma {:induction false} BitConverterWithoutDashes(b: seq<byte>)
    ensures RemoveChar(BitConverterString(b), '-') == ToHex(b)
    decreases |b|
  {
    if |b| <= 1 {
      var h := ToHex(b);
      if b != [] {
        assert h == [h[0], h[1]];
        assert RemoveChar(h, '-') == [h[0]] + RemoveChar([h[1]], '-');
      }
    } else {
      var head := ToHex(b[..1]);
      BitConverterWithoutDashes(b[1..]);
      RemoveCharAppend(head + "-", BitConverterString(b[1..]), '-');
      RemoveCharAppend(head, "-", '-');
      BitConverterWithoutDashes(b[..1]);
      assert ToHex(b) == head + ToHex(b[1..]) by {
        assert b[..1][1..] == [];
        assert b[..1][0] == b[0];
      }
    }
  }

  /** HashTwoFactorCode: the SHA-256 digest of the code as lower-case hex. */
  function HashTwoFactorCode(code: string, sha256: Digest): (r: string)
    requires DigestsSha256Size(sha256)
    ensures r == ToLower(ToHex(sha256(code)))
    ensures |r| == 2 * DigestSize
    ensures forall i :: 0 <= i < |r| ==> IsLowerHex(r[i]) && r[i] != '-'
  {
    var digest := sha256(code);
    BitConverterWithoutDashes(digest);
    ToLower(RemoveChar(BitConverterString(digest), '-'))
  }
}
