/**
 * The two cryptographic collaborators: JSON Web Tokens (RFC 7519) signed
 * and verified with a shared secret, and bcrypt digests.
 *
 * A signed token carries its claims and the secret it was signed with, and
 * travels as its compact serialization: the fixed HS256 header, the
 * base64url of the JSON claims and a signature segment. The HMAC itself is
 * symbolic. A bcrypt digest keeps what bcrypt actually reads of its input,
 * the first 72 bytes of its UTF-8 encoding, so two inputs agreeing on
 * those bytes match the same digest; the salt is not represented.
 */
module Crypto {
  import opened Base
  import opened Uri

  /**
   * A token's JSON claims. `None` stands for an absent (or null) member;
   * `iat` and `exp` are seconds since the epoch (section 4.1.4 of RFC 7519
   * defines `exp`).
   */
  datatype Claims = Claims(
    sub: string,
    email: Option<string>,
    role: Option<Role>,
    teacherId: Option<string>,
    studentId: Option<string>,
    tokenType: Option<string>,
    iat: Option<int>,
    exp: Option<int>)

  /** A token presented to the server: a signed JWT, or any other text. */
  datatype Token = Signed(claims: Claims, key: string) | Unsigned(text: string)

  /** The claims `body` stamped at time `now` with an expiry `expiresIn` seconds later. */
  function Stamped(body: Claims, expiresIn: int, now: int): Claims {
    body.(iat := Some(now), exp := Some(now + expiresIn))
  }

  /** `jwtService.signAsync(body, { secret, expiresIn })` at time `now`. */
  function Sign(body: Claims, secret: string, expiresIn: int, now: int): Token {
    Signed(Stamped(body, expiresIn, now), secret)
  }

  /**
   * `jwtService.verify(token, { secret })` at time `now`: the claims of a
   * token signed with that secret whose expiry has not been reached. A
   * missing or empty secret verifies nothing.
   */
  function Verify(t: Token, secret: Option<string>, now: int): Option<Claims> {
    if Truthy(secret) && t.Signed? && t.key == secret.value
       && (t.claims.exp.None? || now < t.claims.exp.value)
    then Some(t.claims)
    else None
  }

  /** Verification recovers what signing put in, until the expiry. */
  lemma VerifySigned(body: Claims, secret: string, expiresIn: int, now: int, at: int)
    requires secret != ""
    ensures at < now + expiresIn ==>
      Verify(Sign(body, secret, expiresIn, now), Some(secret), at) == Some(Stamped(body, expiresIn, now))
    ensures now + expiresIn <= at ==> Verify(Sign(body, secret, expiresIn, now), Some(secret), at).None?
  {
  }

  /** A token verifies under a secret only when it was signed with that secret. */
  lemma VerifyNeedsKey(t: Token, secret: Option<string>, now: int)
    ensures Verify(t, secret, now).Some? ==> Truthy(secret) && t.Signed? && t.key == secret.value
    ensures Verify(t, secret, now).Some? ==> Verify(t, secret, now).value == t.claims
  {
  }

  // ---------------------------------------------------------------------
  // The compact serialization of a token

  /** `JSON.stringify` of a string: quoted, with `"`, `\\` and the control characters escaped. */
  function JsonString(s: string): (r: string)
    ensures |r| >= |s| + 2
  {
    "\"" + JsonEscape(s) + "\""
  }

  function JsonEscape(s: string): (r: string)
    ensures |r| >= |s|
    decreases |s|, 1
  {
    if s == [] then [] else EscapeFirst(s)
  }

  /** The escape of a nonempty string: its first character's, then the rest's. */
  function EscapeFirst(s: string): (r: string)
    requires s != []
    ensures |r| >= |s|
    decreases |s|, 0
  {
    JsonEscapeChar(s[0]) + JsonEscape(s[1..])
  }

  const LowerHexDigits: string := "0123456789abcdef"

  function JsonEscapeChar(c: char): (r: string)
    ensures |r| >= 1
  {
    if c == '"' then "\\\""
    else if c == '\\' then "\\\\"
    else if c == '\U{8}' then "\\b"
    else if c == '\U{C}' then "\\f"
    else if c == '\n' then "\\n"
    else if c == '\r' then "\\r"
    else if c == '\t' then "\\t"
    else if (c as int) < 0x20 then "\\u00" + [LowerHexDigits[c as int / 16], LowerHexDigits[c as int % 16]]
    else [c]
  }

  /** `JSON.stringify` of an integer. */
  function JsonInt(n: int): string {
    if n < 0 then "-" + DecimalText(-n) else DecimalText(n)
  }

  function DigitChar(d: nat): char
    requires d < 10
  {
    (48 + d) as char
  }

  function DecimalText(n: nat): (r: string)
    ensures |r| >= 1
    ensures forall i :: 0 <= i < |r| ==> '0' <= r[i] <= '9'
  {
    if n < 10 then [DigitChar(n)] else DecimalText(n / 10) + [DigitChar(n % 10)]
  }

  /** The enumeration's names as the database and the JSON payload spell them. */
  function RoleName(r: Role): string {
    match r
    case Teacher => "TEACHER"
    case Student => "STUDENT"
  }

  /** A member value of the payload: a string or an integer. */
  datatype JsonValue = JsonStr(str: string) | JsonNum(num: int)

  function ValueText(v: JsonValue): string {
    match v
    case JsonStr(s) => JsonString(s)
    case JsonNum(n) => JsonInt(n)
  }

  /**
   * The JSON payload: `sub`, then the other members in the order the payload
   * object lists them, with `iat` and `exp` appended at signing; an absent
   * member is omitted.
   */
  function ClaimsJson(c: Claims): string {
    "{\"sub\":" + JsonString(c.sub) + MembersText(Members(c)) + "}"
  }

  /** The members after `sub`, each with its comma, quoted name and colon. */
  function Members(c: Claims): seq<(string, JsonValue)> {
    (if c.email.Some? then [(",\"email\":", JsonStr(c.email.value))] else [])
    + (if c.role.Some? then [(",\"role\":", JsonStr(RoleName(c.role.value)))] else [])
    + (if c.teacherId.Some? then [(",\"teacherId\":", JsonStr(c.teacherId.value))] else [])
    + (if c.studentId.Some? then [(",\"studentId\":", JsonStr(c.studentId.value))] else [])
    + (if c.tokenType.Some? then [(",\"type\":", JsonStr(c.tokenType.value))] else [])
    + (if c.iat.Some? then [(",\"iat\":", JsonNum(c.iat.value))] else [])
    + (if c.exp.Some? then [(",\"exp\":", JsonNum(c.exp.value))] else [])
  }

  function MembersText(ms: seq<(string, JsonValue)>): string {
    if ms == [] then "" else ms[0].0 + ValueText(ms[0].1) + MembersText(ms[1..])
  }

  predicate IsBytes(b: seq<int>) {
    forall i :: 0 <= i < |b| ==> 0 <= b[i] < 256
  }

  /** The UTF-8 bytes of a string (RFC 3629). */
  function Utf8Bytes(s: string): (r: seq<int>)
    ensures |r| >= |s| && IsBytes(r)
  {
    if s == [] then [] else Utf8(s[0]) + Utf8Bytes(s[1..])
  }

  lemma {:induction false} Utf8BytesAppend(a: string, b: string)
    ensures Utf8Bytes(a + b) == Utf8Bytes(a) + Utf8Bytes(b)
  {
    if a == [] {
      assert a + b == b;
    } else {
      var ab := a + b;
      assert ab[0] == a[0];
      assert ab[1..] == a[1..] + b;
      Utf8BytesAppend(a[1..], b);
      calc {
        Utf8Bytes(ab);
        Utf8(a[0]) + Utf8Bytes(a[1..] + b);
        Utf8(a[0]) + (Utf8Bytes(a[1..]) + Utf8Bytes(b));
        (Utf8(a[0]) + Utf8Bytes(a[1..])) + Utf8Bytes(b);
      }
    }
  }

  /** The base64url alphabet: A-Z, a-z, 0-9, '-' and '_'. */
  function B64Char(n: int): char
    requires 0 <= n < 64
  {
    if n < 26 then (65 + n) as char
    else if n < 52 then (97 + (n - 26)) as char
    else if n < 62 then (48 + (n - 52)) as char
    else if n == 62 then '-'
    else '_'
  }

  predicate IsByte(x: int) { 0 <= x < 256 }

  /** Three bytes as four characters of the alphabet. */
  function Group3(x: int, y: int, z: int): (r: string)
    requires IsByte(x) && IsByte(y) && IsByte(z)
    ensures |r| == 4
  {
    [B64Char(x / 4), B64Char((x % 4) * 16 + y / 16),
     B64Char((y % 16) * 4 + z / 64), B64Char(z % 64)]
  }

  /** A final pair of bytes: three characters, no padding. */
  function Group2(x: int, y: int): (r: string)
    requires IsByte(x) && IsByte(y)
    ensures |r| == 3
  {
    [B64Char(x / 4), B64Char((x % 4) * 16 + y / 16), B64Char((y % 16) * 4)]
  }

  /** A final single byte: two characters, no padding. */
  function Group1(x: int): (r: string)
    requires IsByte(x)
    ensures |r| == 2
  {
    [B64Char(x / 4), B64Char((x % 4) * 16)]
  }

  /** Base64url without padding (section 5 of RFC 4648). */
  function Base64Url(b: seq<int>): (r: string)
    requires IsBytes(b)
    decreases |b|
  {
    if |b| >= 3 then Group3(b[0], b[1], b[2]) + Base64Url(b[3..])
    else if |b| == 2 then Group2(b[0], b[1])
    else if |b| == 1 then Group1(b[0])
    else []
  }

  lemma BytesAppend(a: seq<int>, b: seq<int>)
    requires IsBytes(a) && IsBytes(b)
    ensures IsBytes(a + b)
  {
    forall i | 0 <= i < |a + b| ensures 0 <= (a + b)[i] < 256 {
      if i >= |a| { assert (a + b)[i] == b[i - |a|]; }
    }
  }

  /** Whole groups of three bytes encode on their own: the encoding of `a + b` is that of `a`, then that of `b`. */
  lemma {:induction false} Base64UrlAppend(a: seq<int>, b: seq<int>, groups: nat)
    requires IsBytes(a) && IsBytes(b) && |a| == 3 * groups
    ensures IsBytes(a + b)
    ensures Base64Url(a + b) == Base64Url(a) + Base64Url(b)
    decreases |a|
  {
    BytesAppend(a, b);
    if a == [] {
      assert a + b == b;
    } else {
      var rest := a[3..];
      Base64UrlFirstGroup(a, b);
      Base64UrlAppend(rest, b, groups - 1);
      assert Base64Url(a) == Group3(a[0], a[1], a[2]) + Base64Url(rest);
    }
  }

  /** One step of the above: the first group of `a + b` is that of `a`. */
  lemma Base64UrlFirstGroup(a: seq<int>, b: seq<int>)
    requires IsBytes(a) && IsBytes(b) && |a| >= 3
    ensures IsBytes(a[3..]) && IsBytes(a + b) && IsBytes(a[3..] + b)
    ensures Base64Url(a + b) == Group3(a[0], a[1], a[2]) + Base64Url(a[3..] + b)
  {
    BytesAppend(a, b);
    BytesAppend(a[3..], b);
    var ab := a + b;
    assert ab[0] == a[0] && ab[1] == a[1] && ab[2] == a[2];
    assert ab[3..] == a[3..] + b;
  }

  /** Four characters for every three bytes. */
  lemma {:induction false} Base64UrlLength(a: seq<int>, groups: nat)
    requires IsBytes(a) && |a| == 3 * groups
    ensures |Base64Url(a)| == 4 * groups
    decreases |a|
  {
    if a != [] {
      Base64UrlLength(a[3..], groups - 1);
    }
  }

  // Base64url, ASCII UTF-8 and decimal text are injective: distinct inputs
  // give distinct text.

  lemma B64CharInjective(i: int, j: int)
    requires 0 <= i < 64 && 0 <= j < 64 && B64Char(i) == B64Char(j)
    ensures i == j
  {
  }

  lemma Group3Injective(x: int, y: int, z: int, x': int, y': int, z': int)
    requires IsByte(x) && IsByte(y) && IsByte(z) && IsByte(x') && IsByte(y') && IsByte(z')
    requires Group3(x, y, z) == Group3(x', y', z')
    ensures x == x' && y == y' && z == z'
  {
    var g, g' := Group3(x, y, z), Group3(x', y', z');
    assert g[0] == g'[0] && g[1] == g'[1] && g[2] == g'[2] && g[3] == g'[3];
    B64CharInjective(x / 4, x' / 4);
    B64CharInjective((x % 4) * 16 + y / 16, (x' % 4) * 16 + y' / 16);
    B64CharInjective((y % 16) * 4 + z / 64, (y' % 16) * 4 + z' / 64);
    B64CharInjective(z % 64, z' % 64);
  }

  lemma Group2Injective(x: int, y: int, x': int, y': int)
    requires IsByte(x) && IsByte(y) && IsByte(x') && IsByte(y')
    requires Group2(x, y) == Group2(x', y')
    ensures x == x' && y == y'
  {
    var g, g' := Group2(x, y), Group2(x', y');
    assert g[0] == g'[0] && g[1] == g'[1] && g[2] == g'[2];
    B64CharInjective(x / 4, x' / 4);
    B64CharInjective((x % 4) * 16 + y / 16, (x' % 4) * 16 + y' / 16);
    B64CharInjective((y % 16) * 4, (y' % 16) * 4);
  }

  lemma Group1Injective(x: int, x': int)
    requires IsByte(x) && IsByte(x') && Group1(x) == Group1(x')
    ensures x == x'
  {
    var g, g' := Group1(x), Group1(x');
    assert g[0] == g'[0] && g[1] == g'[1];
    B64CharInjective(x / 4, x' / 4);
    B64CharInjective((x % 4) * 16, (x' % 4) * 16);
  }

  /** The length of an encoding tells how many bytes were left over in the last group. */
  lemma Base64UrlShape(b: seq<int>)
    requires IsBytes(b)
    ensures |b| >= 3 <==> |Base64Url(b)| >= 4
    ensures |b| == 2 <==> |Base64Url(b)| == 3
    ensures |b| == 1 <==> |Base64Url(b)| == 2
    ensures |b| == 0 <==> |Base64Url(b)| == 0
  {
  }

  lemma {:induction false} Base64UrlInjective(a: seq<int>, b: seq<int>)
    requires IsBytes(a) && IsBytes(b) && Base64Url(a) == Base64Url(b)
    ensures a == b
    decreases |a|
  {
    Base64UrlShape(a);
    Base64UrlShape(b);
    if |a| >= 3 {
      var ga, gb := Group3(a[0], a[1], a[2]), Group3(b[0], b[1], b[2]);
      assert Base64Url(a) == ga + Base64Url(a[3..]);
      assert Base64Url(b) == gb + Base64Url(b[3..]);
      assert ga == Base64Url(a)[..4] == gb;
      assert Base64Url(a[3..]) == Base64Url(a)[4..] == Base64Url(b[3..]);
      Group3Injective(a[0], a[1], a[2], b[0], b[1], b[2]);
      Base64UrlInjective(a[3..], b[3..]);
      assert a == a[..3] + a[3..] && b == b[..3] + b[3..];
    } else if |a| == 2 {
      Group2Injective(a[0], a[1], b[0], b[1]);
    } else if |a| == 1 {
      Group1Injective(a[0], b[0]);
    }
  }

  predicate IsAscii(s: string) {
    forall i :: 0 <= i < |s| ==> (s[i] as int) < 0x80
  }

  lemma {:induction false} AsciiBytesInjective(s: string, t: string)
    requires IsAscii(s) && IsAscii(t) && Utf8Bytes(s) == Utf8Bytes(t)
    ensures s == t
  {
    if s == [] {
      assert t == [];
    } else {
      assert t != [];
      assert Utf8(s[0]) == [s[0] as int] && Utf8(t[0]) == [t[0] as int];
      assert Utf8Bytes(s)[0] == s[0] as int && Utf8Bytes(t)[0] == t[0] as int;
      assert Utf8Bytes(s[1..]) == Utf8Bytes(s)[1..] == Utf8Bytes(t[1..]);
      assert IsAscii(s[1..]) && IsAscii(t[1..]) by {
        forall i | 0 <= i < |s| - 1 ensures s[1..][i] == s[i + 1] { }
        forall i | 0 <= i < |t| - 1 ensures t[1..][i] == t[i + 1] { }
      }
      AsciiBytesInjective(s[1..], t[1..]);
      assert s == [s[0]] + s[1..] && t == [t[0]] + t[1..];
    }
  }

  lemma {:induction false} DecimalTextInjective(a: nat, b: nat)
    requires DecimalText(a) == DecimalText(b)
    ensures a == b
    decreases a
  {
    var da, db := DecimalText(a), DecimalText(b);
    assert a < 10 <==> |da| == 1 by {
      if a >= 10 { assert |DecimalText(a / 10)| >= 1; }
    }
    assert b < 10 <==> |db| == 1 by {
      if b >= 10 { assert |DecimalText(b / 10)| >= 1; }
    }
    if a >= 10 {
      assert da[|da| - 1] == DigitChar(a % 10) && db[|db| - 1] == DigitChar(b % 10);
      assert DecimalText(a / 10) == da[..|da| - 1] == DecimalText(b / 10);
      DecimalTextInjective(a / 10, b / 10);
    } else {
      assert da[0] == DigitChar(a) && db[0] == DigitChar(b);
    }
  }

  /** A JSON integer is made of digits and a leading minus. */
  lemma JsonIntChars(n: int)
    ensures IsAscii(JsonInt(n))
    ensures forall i :: 0 <= i < |JsonInt(n)| ==> JsonInt(n)[i] == '-' || '0' <= JsonInt(n)[i] <= '9'
  {
    if n < 0 {
      var d := DecimalText(-n);
      assert JsonInt(n) == "-" + d;
      forall i | 1 <= i < |JsonInt(n)| ensures JsonInt(n)[i] == d[i - 1] { }
    }
  }

  lemma JsonIntSign(n: int)
    ensures |JsonInt(n)| >= 1 && (JsonInt(n)[0] == '-' <==> n < 0)
  {
    if n >= 0 {
      assert '0' <= DecimalText(n)[0] <= '9';
    }
  }

  lemma JsonIntInjective(m: int, n: int)
    requires JsonInt(m) == JsonInt(n)
    ensures m == n
  {
    JsonIntSign(m);
    JsonIntSign(n);
    if m < 0 {
      assert DecimalText(-m) == JsonInt(m)[1..] == DecimalText(-n);
      DecimalTextInjective(-m, -n);
    } else {
      DecimalTextInjective(m, n);
    }
  }

  /** The position of the first comma, or the length when there is none. */
  function FirstComma(s: string): (k: nat)
    ensures k <= |s|
  {
    if s == [] || s[0] == ',' then 0 else 1 + FirstComma(s[1..])
  }

  lemma {:induction false} FirstCommaAfter(a: string, x: string)
    requires forall i :: 0 <= i < |a| ==> a[i] == '-' || '0' <= a[i] <= '9'
    requires x != [] && x[0] == ','
    ensures FirstComma(a + x) == |a|
  {
    if a == [] {
      assert a + x == x;
    } else {
      assert (a + x)[0] == a[0];
      assert (a + x)[1..] == a[1..] + x;
      FirstCommaAfter(a[1..], x);
    }
  }

  /**
   * A JSON integer followed by text that starts with a delimiter can be
   * read back: the integer and the rest are determined.
   */
  lemma {:induction false} JsonIntThenDelimiter(m: int, x: string, n: int, y: string)
    requires x != [] && y != [] && x[0] == ',' && y[0] == ','
    requires JsonInt(m) + x == JsonInt(n) + y
    ensures m == n && x == y
  {
    JsonIntChars(m);
    JsonIntChars(n);
    var a, b := JsonInt(m), JsonInt(n);
    FirstCommaAfter(a, x);
    FirstCommaAfter(b, y);
    assert a == (a + x)[..|a|] == (b + y)[..|b|] == b;
    JsonIntInjective(m, n);
    assert x == (a + x)[|a|..] == (b + y)[|b|..] == y;
  }

  /** `base64url('{"alg":"HS256","typ":"JWT"}')`: the header jsonwebtoken writes for an HS256 token. */
  const JwtHeaderB64: string := "eyJhbGciOiJIUzI1NiIsInR5cCI6IkpXVCJ9"

  /**
   * The signature segment. The HMAC is not modelled: the segment stands for
   * it by the encoded secret, so it depends on the secret and not on the
   * claims.
   */
  function SignatureB64(key: string): string {
    Base64Url(Utf8Bytes(key))
  }

  /** The text a token travels as: the compact serialization (section 7.1 of RFC 7515), or the text itself. */
  function TokenText(t: Token): string {
    match t
    case Signed(claims, key) => SegmentsFrom(claims, key, 0)
    case Unsigned(text) => text
  }

  /** Segments i, i + 1, ... of the compact serialization, each but the first after a dot. */
  function SegmentsFrom(claims: Claims, key: string, i: nat): string
    decreases 3 - i
  {
    if i >= 3 then "" else (if i == 0 then "" else ".") + Segment(claims, key, i) + SegmentsFrom(claims, key, i + 1)
  }

  /** Segment i: the header, the encoded payload, the signature. */
  function Segment(claims: Claims, key: string, i: nat): string {
    if i == 0 then JwtHeaderB64
    else if i == 1 then Base64Url(Utf8Bytes(ClaimsJson(claims)))
    else SignatureB64(key)
  }

  /** The text of a signed token is the compact serialization of its claims. */
  lemma TokenTextSigned(claims: Claims, key: string)
    ensures TokenText(Signed(claims, key)) == Compact(ClaimsJson(claims), key)
  {
    var s2 := SegmentsFrom(claims, key, 2);
    assert s2 == "." + Segment(claims, key, 2) + SegmentsFrom(claims, key, 3);
    var s1 := SegmentsFrom(claims, key, 1);
    assert s1 == "." + Segment(claims, key, 1) + s2;
    assert SegmentsFrom(claims, key, 0) == "" + Segment(claims, key, 0) + s1;
    JoinSegments(Segment(claims, key, 0), Segment(claims, key, 1), Segment(claims, key, 2));
  }

  lemma JoinSegments(h: string, p: string, g: string)
    ensures "" + h + ("." + p + ("." + g + "")) == h + "." + p + "." + g
  {
  }

  /** The header, the encoded payload and the signature, joined by dots. */
  function Compact(json: string, key: string): string {
    JwtHeaderB64 + "." + Base64Url(Utf8Bytes(json)) + "." + SignatureB64(key)
  }

  /** With one secret, the text of a token determines the bytes of its JSON payload. */
  lemma CompactDeterminesPayload(json1: string, json2: string, key: string)
    requires Compact(json1, key) == Compact(json2, key)
    ensures Utf8Bytes(json1) == Utf8Bytes(json2)
  {
    Unframe(JwtHeaderB64 + ".", Base64Url(Utf8Bytes(json1)), Base64Url(Utf8Bytes(json2)), ".", SignatureB64(key));
    Base64UrlInjective(Utf8Bytes(json1), Utf8Bytes(json2));
  }

  /** Equal texts with the same frame have the same middle. */
  lemma Unframe(h: string, m1: string, m2: string, d: string, sig: string)
    requires h + m1 + d + sig == h + m2 + d + sig
    ensures m1 == m2
  {
    var t1, t2 := h + m1 + d + sig, h + m2 + d + sig;
    assert |m1| == |m2|;
    assert m1 == t1[|h|..|h| + |m1|];
    assert m2 == t2[|h|..|h| + |m2|];
  }

  lemma AsciiAppend(a: string, b: string)
    requires IsAscii(a) && IsAscii(b)
    ensures IsAscii(a + b)
  {
    forall i | |a| <= i < |a + b| ensures (a + b)[i] == b[i - |a|] { }
  }

  lemma {:induction false} Base64UrlAscii(b: seq<int>)
    requires IsBytes(b)
    ensures IsAscii(Base64Url(b))
    decreases |b|
  {
    if |b| >= 3 {
      Base64UrlAscii(b[3..]);
      AsciiAppend(Group3(b[0], b[1], b[2]), Base64Url(b[3..]));
    }
  }

  lemma HeaderAscii()
    ensures IsAscii(JwtHeaderB64)
  {
  }

  /** The text of a signed token is ASCII. */
  lemma SignedTextAscii(c: Claims, key: string)
    ensures IsAscii(TokenText(Signed(c, key)))
  {
    TokenTextSigned(c, key);
    var m := Base64Url(Utf8Bytes(ClaimsJson(c)));
    var sig := SignatureB64(key);
    Base64UrlAscii(Utf8Bytes(ClaimsJson(c)));
    Base64UrlAscii(Utf8Bytes(key));
    HeaderAscii();
    AsciiAppend(JwtHeaderB64, ".");
    AsciiAppend(JwtHeaderB64 + ".", m);
    AsciiAppend(JwtHeaderB64 + "." + m, ".");
    AsciiAppend(JwtHeaderB64 + "." + m + ".", sig);
  }

  // ---------------------------------------------------------------------
  // bcrypt

  /** bcrypt reads at most this many bytes of its input. */
  const BcryptMaxBytes: nat := 72

  /** The part of an input bcrypt reads: its first 72 bytes. */
  function Window(bytes: seq<int>): (r: seq<int>)
    ensures |r| <= BcryptMaxBytes
    ensures |bytes| <= BcryptMaxBytes ==> r == bytes
    ensures |bytes| > BcryptMaxBytes ==> r == bytes[..BcryptMaxBytes]
  {
    if |bytes| <= BcryptMaxBytes then bytes else bytes[..BcryptMaxBytes]
  }

  /** A bcrypt digest: the bytes it was computed from, truncated, and the cost factor. */
  datatype Digest = Bcrypt(window: seq<int>, cost: nat)

  /** `bcrypt.hash(s, cost)` over the UTF-8 bytes of `s`. */
  function Hash(s: string, cost: nat): Digest {
    Bcrypt(Window(Utf8Bytes(s)), cost)
  }

  /** `bcrypt.compare(s, digest)`. */
  predicate Compare(s: string, d: Digest) {
    Window(Utf8Bytes(s)) == d.window
  }

  /**
   * A digest matches what was hashed, and any input with the same first
   * 72 bytes; for inputs of at most 72 bytes, that is the same bytes.
   */
  lemma CompareHash(x: string, y: string, cost: nat)
    ensures Compare(x, Hash(x, cost))
    ensures Compare(y, Hash(x, cost)) <==> Window(Utf8Bytes(y)) == Window(Utf8Bytes(x))
    ensures |Utf8Bytes(x)| <= BcryptMaxBytes && |Utf8Bytes(y)| <= BcryptMaxBytes ==>
      (Compare(y, Hash(x, cost)) <==> Utf8Bytes(y) == Utf8Bytes(x))
  {
  }

  /** Two inputs that agree on their first `n >= 72` characters have the same digest window. */
  lemma SharedPrefixWindow(s: string, t: string, n: nat)
    requires BcryptMaxBytes <= n <= |s| && n <= |t| && s[..n] == t[..n]
    ensures Window(Utf8Bytes(s)) == Window(Utf8Bytes(t))
  {
    assert s == s[..n] + s[n..];
    assert t == t[..n] + t[n..];
    Utf8BytesAppend(s[..n], s[n..]);
    Utf8BytesAppend(t[..n], t[n..]);
    var common := Utf8Bytes(s[..n]);
    assert Utf8Bytes(s)[..BcryptMaxBytes] == common[..BcryptMaxBytes];
    assert Utf8Bytes(t)[..BcryptMaxBytes] == common[..BcryptMaxBytes];
  }

  /**
   * Two tokens whose JSON payloads start with the same 27 characters or
   * more have the same digest window: the header, the dot and the first 36
   * characters of the encoded payload fill all 72 bytes.
   */
  lemma SharedPayloadPrefixCollides(json1: string, k1: string, json2: string, k2: string, p: string)
    requires |p| >= 27 && p <= json1 && p <= json2
    ensures Window(Utf8Bytes(Compact(json1, k1))) == Window(Utf8Bytes(Compact(json2, k2)))
  {
    var q := Utf8Bytes(p)[..27];
    var e1 := PayloadStartsWith(json1, p, q);
    var e2 := PayloadStartsWith(json2, p, q);
    var common := JwtHeaderB64 + "." + Base64Url(q);
    var t1 := Compact(json1, k1);
    var t2 := Compact(json2, k2);
    Regroup(JwtHeaderB64, Base64Url(q), e1, SignatureB64(k1));
    Regroup(JwtHeaderB64, Base64Url(q), e2, SignatureB64(k2));
    assert t1[..73] == common && t2[..73] == common;
    SharedPrefixWindow(t1, t2, 73);
  }

  lemma Regroup(h: string, x: string, e: string, sig: string)
    ensures h + "." + (x + e) + "." + sig == (h + "." + x) + (e + "." + sig)
  {
  }

  /** The encoded payload of a token whose JSON starts with `p` starts with the encoding of `p`'s first 27 bytes. */
  lemma PayloadStartsWith(json: string, p: string, q: seq<int>) returns (rest: string)
    requires |p| >= 27 && p <= json && q == Utf8Bytes(p)[..27]
    ensures IsBytes(q) && |Base64Url(q)| == 36
    ensures Base64Url(Utf8Bytes(json)) == Base64Url(q) + rest
  {
    var bp := Utf8Bytes(p);
    var after := json[|p|..];
    assert json == p + after;
    Utf8BytesAppend(p, after);
    var tail := bp[27..] + Utf8Bytes(after);
    assert bp == q + bp[27..];
    assert Utf8Bytes(json) == q + tail;
    assert IsBytes(bp[27..]) by {
      forall i | 0 <= i < |bp| - 27 ensures 0 <= bp[27..][i] < 256 { assert bp[27..][i] == bp[27 + i]; }
    }
    BytesAppend(bp[27..], Utf8Bytes(after));
    Base64UrlAppend(q, tail, 9);
    Base64UrlLength(q, 9);
    rest := Base64Url(tail);
  }

  // ---------------------------------------------------------------------
  // A digest of the whole input

  /**
   * A digest that commits to the whole input, as bcrypt over a SHA-256
   * pre-hash of it would; the pre-hash's collisions are not modelled.
   */
  function HashWhole(s: string, cost: nat): Digest {
    Bcrypt(Utf8Bytes(s), cost)
  }

  predicate CompareWhole(s: string, d: Digest) {
    Utf8Bytes(s) == d.window
  }

  /** Such a digest matches exactly the bytes that were hashed, and among ASCII texts exactly the text. */
  lemma CompareWholeHash(x: string, y: string, cost: nat)
    ensures CompareWhole(y, HashWhole(x, cost)) <==> Utf8Bytes(y) == Utf8Bytes(x)
    ensures IsAscii(x) && IsAscii(y) ==> (CompareWhole(y, HashWhole(x, cost)) <==> y == x)
  {
    if IsAscii(x) && IsAscii(y) && Utf8Bytes(y) == Utf8Bytes(x) {
      AsciiBytesInjective(y, x);
    }
  }
}
