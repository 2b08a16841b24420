/** Values shared by every service: optional values (the source's nullable
    references), the response envelope, the HTTP status codes the services
    answer with, and the few string primitives of .NET the services call. */
module Common {

  datatype Option<+T> = None | Some(value: T)

  /** The response envelope: status code, message and optional payload. */
  datatype Response<+T> = Response(code: int, message: string, data: Option<T>)

  function Fail<T>(code: int, message: string): Response<T>
  {
    Response(code, message, None)
  }

  function Ok<T>(code: int, message: string, data: T): Response<T>
  {
    Response(code, message, Some(data))
  }

  /** `??`: the value when present, else the fallback. */
  function Coalesce<T>(value: Option<T>, fallback: T): T
  {
    if value.Some? then value.value else fallback
  }

  // HTTP status codes used by the services
  const OK := 200
  const Created := 201
  const BadRequest := 400
  const Unauthorized := 401
  const Forbidden := 403
  const NotFound := 404
  const Conflict := 409
  const FailedDependency := 424
  const TooManyRequests := 429
  const InternalServerError := 500

  /** Characters for which .NET's char.IsWhiteSpace holds: the Unicode
      space, line and paragraph separators and the controls U+0009..U+000D
      and U+0085. */
  predicate IsWhiteSpace(c: char)
  {
    c == ' ' || ('\U{9}' <= c <= '\U{D}') || c == '\U{85}' || c == '\U{A0}' ||
    c == '\U{1680}' || ('\U{2000}' <= c <= '\U{200A}') || c == '\U{2028}' ||
    c == '\U{2029}' || c == '\U{202F}' || c == '\U{205F}' || c == '\U{3000}'
  }

  /** string.IsNullOrWhiteSpace */
  predicate IsNullOrWhiteSpace(s: Option<string>)
  {
    match s
    case None => true
    case Some(t) => forall i :: 0 <= i < |t| ==> IsWhiteSpace(t[i])
  }

  /** Lower-casing of one character, for the ASCII letters. */
  function ToLowerChar(c: char): (r: char)
    ensures 'A' <= c <= 'Z' ==> r as int == c as int + 32
    ensures !('A' <= c <= 'Z') ==> r == c
  {
    if 'A' <= c <= 'Z' then (c as int + 32) as char else c
  }

  function ToLower(s: string): (r: string)
    ensures |r| == |s|
    ensures forall i :: 0 <= i < |s| ==> r[i] == ToLowerChar(s[i])
  {
    seq(|s|, i requires 0 <= i < |s| => ToLowerChar(s[i]))
  }

  /** Ordinal string.StartsWith */
  predicate StartsWith(s: string, prefix: string)
  {
    |prefix| <= |s| && s[..|prefix|] == prefix
  }

  /** char.IsAsciiDigit */
  predicate IsDigit(c: char)
  {
    '0' <= c <= '9'
  }

  function Pow10(k: nat): nat
  {
    if k == 0 then 1 else 10 * Pow10(k - 1)
  }

  function DigitChar(d: nat): (c: char)
    requires d < 10
    ensures IsDigit(c)
  {
    ('0' as int + d) as char
  }

  /** The decimal digits of n, most significant first, as `ToString()`
      writes a non-negative integer. */
  function Decimal(n: nat): (r: string)
    ensures |r| >= 1
    ensures forall i :: 0 <= i < |r| ==> IsDigit(r[i])
    decreases n
  {
    if n < 10 then [DigitChar(n)] else Decimal(n / 10) + [DigitChar(n % 10)]
  }
}
