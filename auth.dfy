/**
 * The authentication service: registration of a user with its role profile
 * in one transaction, password login, issuing of an access/refresh token
 * pair with the refresh token's digest stored on the user, refresh-token
 * rotation and logout.
 *
 * Each operation is a value-level outcome `(result, tables after)` of the
 * tables before; the class `AuthService` performs it on the shared
 * database and its methods are proved to produce exactly that outcome.
 */
module Auth {
  import opened Base
  import opened Crypto
  import opened Duration
  import opened Store
  import opened UserRepo
  import opened Users

  /** What is attached to an access token and to the request. */
  datatype JwtPayload = JwtPayload(
    sub: string,
    email: string,
    role: Role,
    teacherId: Option<string>,
    studentId: Option<string>)

  datatype Tokens = Tokens(accessToken: Token, refreshToken: Token, expiresIn: nat)

  datatype UserSummary = UserSummary(id: string, email: string, role: Role)

  /** What `register` and `login` return. */
  datatype Session = Session(user: UserSummary, tokens: Tokens)

  /** The registration request; the profile fields are optional in the type. */
  datatype RegisterDto = RegisterDto(
    email: string,
    password: string,
    role: Role,
    fullName: Option<string>,
    name: Option<string>,
    age: Option<int>,
    grade: Option<int>)

  const SecretsMissing := Internal("JWT secrets not configured")
  const InvalidCredentials := Unauthorized("Invalid email or password")
  const InvalidRefresh := Unauthorized("Invalid or expired refresh token")
  const InvalidType := Unauthorized("Invalid token type")
  const SessionInvalid := Unauthorized("Session invalid")
  const Revoked := Unauthorized("Refresh token revoked")

  /** The cost factor of the refresh-token digest. */
  const RefreshHashCost: nat := 10

  /** `bcryptRounds`: the cost factor of password digests, 10 unless configured. */
  function PasswordCost(config: map<string, string>): nat {
    match ConfigLookup(config, "BCRYPT_ROUNDS")
    case Some(v) => if v != "" && AllDigits(v) then DigitsValue(v) else 10
    case None => 10
  }

  /** `hashPassword`. */
  function PasswordDigest(config: map<string, string>, password: string): Digest {
    Hash(password, PasswordCost(config))
  }

  /**
   * `comparePassword` accepts the password that was hashed and exactly the
   * attempts that agree with it on the 72 bytes bcrypt reads: for
   * passwords of at most 72 bytes, exactly the same bytes; two passwords
   * that share their first 72 characters match each other's digest.
   */
  lemma ComparePasswordDigest(config: map<string, string>, password: string, attempt: string)
    ensures Compare(password, PasswordDigest(config, password))
    ensures Compare(attempt, PasswordDigest(config, password)) <==>
      Window(Utf8Bytes(attempt)) == Window(Utf8Bytes(password))
    ensures |Utf8Bytes(password)| <= BcryptMaxBytes && |Utf8Bytes(attempt)| <= BcryptMaxBytes ==>
      (Compare(attempt, PasswordDigest(config, password)) <==> Utf8Bytes(attempt) == Utf8Bytes(password))
    ensures (|password| >= BcryptMaxBytes && |attempt| >= BcryptMaxBytes &&
             attempt[..BcryptMaxBytes] == password[..BcryptMaxBytes]) ==>
      Compare(attempt, PasswordDigest(config, password))
  {
    if |password| >= BcryptMaxBytes && |attempt| >= BcryptMaxBytes &&
       attempt[..BcryptMaxBytes] == password[..BcryptMaxBytes] {
      SharedPrefixWindow(attempt, password, BcryptMaxBytes);
    }
  }

  /** The payload built from a user read with its profile ids. */
  function PayloadOf(u: UserModel): JwtPayload {
    JwtPayload(u.id, u.email, u.role, u.teacherId, u.studentId)
  }

  /** `{ ...payload, type: 'access' }` */
  function AccessBody(p: JwtPayload): Claims {
    Claims(p.sub, Some(p.email), Some(p.role), p.teacherId, p.studentId, Some("access"), None, None)
  }

  /** `{ sub, type: 'refresh' }` */
  function RefreshBody(sub: string): Claims {
    Claims(sub, None, None, None, None, Some("refresh"), None, None)
  }

  function AccessSecret(config: map<string, string>): Option<string> {
    ConfigLookup(config, "JWT_ACCESS_SECRET")
  }

  function RefreshSecret(config: map<string, string>): Option<string> {
    ConfigLookup(config, "JWT_REFRESH_SECRET")
  }

  predicate SecretsConfigured(config: map<string, string>) {
    Truthy(AccessSecret(config)) && Truthy(RefreshSecret(config))
  }

  /** Lifetime in seconds of access tokens (default "15m"). */
  function AccessTtl(config: map<string, string>): nat {
    ParseExpiresIn(ConfigGet(config, "JWT_ACCESS_EXPIRES_IN", "15m"))
  }

  /** Lifetime in seconds of refresh tokens (default "7d"). */
  function RefreshTtl(config: map<string, string>): nat {
    ParseExpiresIn(ConfigGet(config, "JWT_REFRESH_EXPIRES_IN", "7d"))
  }

  /** With neither lifetime configured, access tokens live 15 minutes and refresh tokens 7 days. */
  lemma DefaultLifetimes(config: map<string, string>)
    requires "JWT_ACCESS_EXPIRES_IN" !in config && "JWT_REFRESH_EXPIRES_IN" !in config
    ensures AccessTtl(config) == 900 && RefreshTtl(config) == 604800
  {
    DefaultDurations();
  }

  // ---------------------------------------------------------------------
  // issueTokens

  /** `issueTokens(payload)` at time `now`. */
  function IssueTokensOutcome(t: Tables, config: map<string, string>, p: JwtPayload, now: int): (Result<Tokens>, Tables) {
    if !SecretsConfigured(config) then (Failure(SecretsMissing), t)
    else
      var access := Sign(AccessBody(p), AccessSecret(config).value, AccessTtl(config), now);
      var refresh := Sign(RefreshBody(p.sub), RefreshSecret(config).value, RefreshTtl(config), now);
      if !HasUser(t.users, p.sub) then (Failure(RecordNotFound), t)
      else
        (Success(Tokens(access, refresh, AccessTtl(config))),
         t.(users := SetRefreshHash(t.users, p.sub, Some(Hash(TokenText(refresh), RefreshHashCost)))))
  }

  /** Without both secrets nothing is signed and nothing is stored. */
  lemma IssueTokensNeedsSecrets(t: Tables, config: map<string, string>, p: JwtPayload, now: int)
    ensures !SecretsConfigured(config) ==> IssueTokensOutcome(t, config, p, now) == (Failure(SecretsMissing), t)
    ensures IssueTokensOutcome(t, config, p, now).0.Success? <==> SecretsConfigured(config) && HasUser(t.users, p.sub)
  {
  }

  /** Issuing changes no row but for its refresh digest. */
  lemma IssueTokensKeepsCredentials(t: Tables, config: map<string, string>, p: JwtPayload, now: int)
    ensures var t' := IssueTokensOutcome(t, config, p, now).1;
      && |t'.users| == |t.users|
      && forall i :: 0 <= i < |t.users| ==> t'.users[i] == t.users[i].(refreshTokenHash := t'.users[i].refreshTokenHash)
  {
  }

  /** A failed issue is one of the two configuration or lookup errors and stores nothing. */
  lemma IssueTokensFailsWithoutChange(t: Tables, config: map<string, string>, p: JwtPayload, now: int)
    ensures var (r, t') := IssueTokensOutcome(t, config, p, now);
      r.Failure? ==> r.error in {SecretsMissing, RecordNotFound} && t' == t
  {
  }

  /** What the issued tokens verify to, before and from their expiry. */
  lemma IssuedTokensVerify(t: Tables, config: map<string, string>, p: JwtPayload, now: int, at: int)
    requires IssueTokensOutcome(t, config, p, now).0.Success?
    ensures var r := IssueTokensOutcome(t, config, p, now).0;
      && (at < now + AccessTtl(config) ==>
            Verify(r.value.accessToken, AccessSecret(config), at) == Some(Stamped(AccessBody(p), AccessTtl(config), now)))
      && (now + AccessTtl(config) <= at ==> Verify(r.value.accessToken, AccessSecret(config), at).None?)
      && (at < now + RefreshTtl(config) ==>
            Verify(r.value.refreshToken, RefreshSecret(config), at) == Some(Stamped(RefreshBody(p.sub), RefreshTtl(config), now)))
      && (now + RefreshTtl(config) <= at ==> Verify(r.value.refreshToken, RefreshSecret(config), at).None?)
  {
    VerifySigned(AccessBody(p), AccessSecret(config).value, AccessTtl(config), now, at);
    VerifySigned(RefreshBody(p.sub), RefreshSecret(config).value, RefreshTtl(config), now, at);
  }

  /**
   * The issued pair: an access token carrying the whole payload and type
   * "access", valid under the access secret for the access lifetime; a
   * refresh token carrying only the subject and type "refresh", valid under
   * the refresh secret for the refresh lifetime; `expiresIn` is the access
   * lifetime; and the user's stored digest is now that of the refresh
   * token's text, matching every text that agrees with it on the 72 bytes
   * bcrypt reads; every other row is unchanged.
   */
  lemma IssueTokensIssues(t: Tables, config: map<string, string>, p: JwtPayload, now: int, at: int)
    requires IssueTokensOutcome(t, config, p, now).0.Success?
    ensures var (r, t') := IssueTokensOutcome(t, config, p, now);
      && r.value.expiresIn == AccessTtl(config)
      && (at < now + AccessTtl(config) ==>
            Verify(r.value.accessToken, AccessSecret(config), at) == Some(Stamped(AccessBody(p), AccessTtl(config), now)))
      && (now + AccessTtl(config) <= at ==> Verify(r.value.accessToken, AccessSecret(config), at).None?)
      && (at < now + RefreshTtl(config) ==>
            Verify(r.value.refreshToken, RefreshSecret(config), at) == Some(Stamped(RefreshBody(p.sub), RefreshTtl(config), now)))
      && (now + RefreshTtl(config) <= at ==> Verify(r.value.refreshToken, RefreshSecret(config), at).None?)
      && LookupById(t', p.sub).Some?
      && LookupById(t', p.sub).value.refreshTokenHash.Some?
      && LookupById(t', p.sub).value.refreshTokenHash.value == Hash(TokenText(r.value.refreshToken), RefreshHashCost)
      && (forall text :: Compare(text, LookupById(t', p.sub).value.refreshTokenHash.value) <==>
            Window(Utf8Bytes(text)) == Window(Utf8Bytes(TokenText(r.value.refreshToken))))
      && (forall x :: x != p.sub ==> LookupById(t', x) == LookupById(t, x))
      && t'.teachers == t.teachers && t'.students == t.students
      && t'.courses == t.courses && t'.enrollments == t.enrollments
  {
    var (r, t') := IssueTokensOutcome(t, config, p, now);
    var h := Some(Hash(TokenText(r.value.refreshToken), RefreshHashCost));
    IssuedTokensVerify(t, config, p, now, at);
    assert LookupById(t, p.sub).Some?;
    SetRefreshHashLookup(t, p.sub, h, p.sub);
    forall x | x != p.sub
      ensures LookupById(t', x) == LookupById(t, x)
    {
      SetRefreshHashLookup(t, p.sub, h, x);
    }
  }

  // ---------------------------------------------------------------------
  // validateUser and login

  /** `validateUser`: the payload of the active user with that email whose password matches. */
  function ValidatedPayload(t: Tables, email: string, password: string): (r: Option<JwtPayload>)
    ensures r.Some? <==>
      && LookupByEmail(t, email).Some?
      && LookupByEmail(t, email).value.isActive
      && Compare(password, LookupByEmail(t, email).value.passwordHash)
    ensures r.Some? ==> r.value == PayloadOf(LookupByEmail(t, email).value)
    ensures r.Some? ==> r.value.email == ToLower(email) && HasUser(t.users, r.value.sub)
  {
    match LookupByEmail(t, email)
    case None => None
    case Some(u) =>
      if !u.isActive then None
      else if !Compare(password, u.passwordHash) then None
      else
        assert RowOf(u) in t.users;
        Some(PayloadOf(u))
  }

  /** `login(email, password)` at time `now`. */
  function LoginOutcome(t: Tables, config: map<string, string>, email: string, password: string, now: int)
    : (Result<Session>, Tables)
  {
    match ValidatedPayload(t, email, password)
    case None => (Failure(InvalidCredentials), t)
    case Some(p) =>
      var (r, t') := IssueTokensOutcome(t, config, p, now);
      match r
      case Failure(e) => (Failure(e), t')
      case Success(tokens) => (Success(Session(UserSummary(p.sub, p.email, p.role), tokens)), t')
  }

  /**
   * Login succeeds exactly for valid credentials when the secrets are
   * configured; bad credentials give the one generic message and change
   * nothing.
   */
  lemma LoginIff(t: Tables, config: map<string, string>, email: string, password: string, now: int)
    ensures LoginOutcome(t, config, email, password, now).0.Success? <==>
      ValidatedPayload(t, email, password).Some? && SecretsConfigured(config)
    ensures ValidatedPayload(t, email, password).None? ==>
      LoginOutcome(t, config, email, password, now) == (Failure(InvalidCredentials), t)
    ensures LoginOutcome(t, config, email, password, now).0.Success? ==>
      LoginOutcome(t, config, email, password, now).0.value.user.email == ToLower(email)
  {
  }

  // ---------------------------------------------------------------------
  // refresh and logout

  /** `refresh(refreshToken)` at time `now`. */
  function RefreshOutcome(t: Tables, config: map<string, string>, token: Token, now: int): (Result<Tokens>, Tables) {
    match Verify(token, RefreshSecret(config), now)
    case None => (Failure(InvalidRefresh), t)
    case Some(decoded) =>
      if decoded.tokenType != Some("refresh") then (Failure(InvalidType), t)
      else match LookupById(t, decoded.sub)
        case None => (Failure(SessionInvalid), t)
        case Some(u) =>
          if !u.isActive || u.refreshTokenHash.None? then (Failure(SessionInvalid), t)
          else if !Compare(TokenText(token), u.refreshTokenHash.value) then (Failure(Revoked), t)
          else IssueTokensOutcome(t, config, PayloadOf(u), now)
  }

  /** Every rejection leaves the store unchanged; only an accepted refresh issues a new pair. */
  lemma RefreshRejectsWithoutChange(t: Tables, config: map<string, string>, token: Token, now: int)
    ensures RefreshOutcome(t, config, token, now).0.Failure? &&
            RefreshOutcome(t, config, token, now).0.error in {InvalidRefresh, InvalidType, SessionInvalid, Revoked} ==>
      RefreshOutcome(t, config, token, now).1 == t
    ensures Verify(token, RefreshSecret(config), now).None? ==> RefreshOutcome(t, config, token, now) == (Failure(InvalidRefresh), t)
  {
    RefreshRejectionOrder(t, config, token, now);
    var d := Verify(token, RefreshSecret(config), now);
    if d.Some? && d.value.tokenType == Some("refresh") {
      var u := LookupById(t, d.value.sub);
      if u.Some? {
        IssueTokensFailsWithoutChange(t, config, PayloadOf(u.value), now);
      }
    }
  }

  /**
   * The checks in their order, each with its own message: verification,
   * then the token type, then the session (user present, active and
   * logged in), then the stored digest.
   */
  lemma RefreshRejectionOrder(t: Tables, config: map<string, string>, token: Token, now: int)
    ensures Verify(token, RefreshSecret(config), now).None? ==>
      RefreshOutcome(t, config, token, now) == (Failure(InvalidRefresh), t)
    ensures var d := Verify(token, RefreshSecret(config), now);
      d.Some? && d.value.tokenType != Some("refresh") ==>
        RefreshOutcome(t, config, token, now) == (Failure(InvalidType), t)
    ensures var d := Verify(token, RefreshSecret(config), now);
      d.Some? && d.value.tokenType == Some("refresh") &&
      (var u := LookupById(t, d.value.sub); u.None? || !u.value.isActive || u.value.refreshTokenHash.None?) ==>
        RefreshOutcome(t, config, token, now) == (Failure(SessionInvalid), t)
    ensures var d := Verify(token, RefreshSecret(config), now);
      d.Some? && d.value.tokenType == Some("refresh") &&
      (var u := LookupById(t, d.value.sub);
        u.Some? && u.value.isActive && u.value.refreshTokenHash.Some? && !Compare(TokenText(token), u.value.refreshTokenHash.value)) ==>
        RefreshOutcome(t, config, token, now) == (Failure(Revoked), t)
  {
  }

  /**
   * A refresh succeeds only for an unexpired token signed with the refresh
   * secret, of type "refresh", whose subject is an active user whose stored
   * digest matches the token's text; the new pair is issued for that user's
   * current payload.
   */
  lemma RefreshAcceptsOnlyCurrentSession(t: Tables, config: map<string, string>, token: Token, now: int)
    requires RefreshOutcome(t, config, token, now).0.Success?
    ensures Truthy(RefreshSecret(config)) && token.Signed? && token.key == RefreshSecret(config).value
    ensures token.claims.exp.None? || now < token.claims.exp.value
    ensures token.claims.tokenType == Some("refresh")
    ensures var u := LookupById(t, token.claims.sub);
      && u.Some? && u.value.isActive
      && u.value.refreshTokenHash.Some? && Compare(TokenText(token), u.value.refreshTokenHash.value)
      && RefreshOutcome(t, config, token, now) == IssueTokensOutcome(t, config, PayloadOf(u.value), now)
  {
  }

  /**
   * A stored digest of one refresh token rejects every token of that user
   * whose text differs from it within the 72 bytes bcrypt reads.
   */
  lemma RefreshRejectsUnstored(t: Tables, config: map<string, string>, token: Token, at: int, stored: Token)
    requires token.Signed?
    requires Window(Utf8Bytes(TokenText(token))) != Window(Utf8Bytes(TokenText(stored)))
    requires LookupById(t, token.claims.sub).Some?
    requires LookupById(t, token.claims.sub).value.refreshTokenHash == Some(Hash(TokenText(stored), RefreshHashCost))
    ensures RefreshOutcome(t, config, token, at).0.Failure?
  {
  }

  /** An unexpired refresh token whose text matches the digest stored on its active user is accepted. */
  lemma RefreshAcceptsStored(t: Tables, config: map<string, string>, token: Token, at: int)
    requires SecretsConfigured(config)
    requires Verify(token, RefreshSecret(config), at).Some?
    requires Verify(token, RefreshSecret(config), at).value.tokenType == Some("refresh")
    requires var u := LookupById(t, token.claims.sub);
      u.Some? && u.value.isActive && u.value.refreshTokenHash.Some? && Compare(TokenText(token), u.value.refreshTokenHash.value)
    ensures RefreshOutcome(t, config, token, at).0.Success?
  {
    var u := LookupById(t, token.claims.sub).value;
    assert RowOf(u) in t.users;
    assert HasUser(t.users, u.id);
  }

  /**
   * Rotation: after a successful refresh, the user's stored digest is that
   * of the new refresh token. A token of that user whose text differs from
   * the new one's within the 72 bytes bcrypt reads is revoked, and the new
   * one is accepted until it expires.
   */
  lemma RefreshRotates(t: Tables, config: map<string, string>, token: Token, now: int, other: Token, at: int)
    requires RefreshOutcome(t, config, token, now).0.Success?
    requires other.Signed? && other.claims.sub == token.claims.sub
    ensures var (r, t') := RefreshOutcome(t, config, token, now);
      && LookupById(t', token.claims.sub).Some?
      && LookupById(t', token.claims.sub).value.refreshTokenHash == Some(Hash(TokenText(r.value.refreshToken), RefreshHashCost))
      && (Window(Utf8Bytes(TokenText(other))) != Window(Utf8Bytes(TokenText(r.value.refreshToken))) ==>
            RefreshOutcome(t', config, other, at).0.Failure?)
      && (at < now + RefreshTtl(config) ==> RefreshOutcome(t', config, r.value.refreshToken, at).0.Success?)
  {
    RefreshAcceptsOnlyCurrentSession(t, config, token, now);
    var u := LookupById(t, token.claims.sub).value;
    var (r, t') := RefreshOutcome(t, config, token, now);
    var issued := r.value.refreshToken;
    IssueTokensIssues(t, config, PayloadOf(u), now, at);
    var h := Some(Hash(TokenText(issued), RefreshHashCost));
    SetRefreshHashLookup(t, u.id, h, u.id);
    assert LookupById(t', u.id) == Some(u.(refreshTokenHash := h));
    if Window(Utf8Bytes(TokenText(other))) != Window(Utf8Bytes(TokenText(issued))) {
      RefreshRejectsUnstored(t', config, other, at, issued);
    }
    if at < now + RefreshTtl(config) {
      assert issued == Sign(RefreshBody(u.id), RefreshSecret(config).value, RefreshTtl(config), now);
      RefreshAcceptsStored(t', config, issued, at);
    }
  }

  // ---------------------------------------------------------------------
  // What the stored refresh digest distinguishes

  /** The start of every refresh token's JSON payload for subject `sub`, up to the issue time. */
  function RefreshHead(sub: string): (r: string)
    ensures |r| >= 27
  {
    "{\"sub\":" + JsonString(sub) + (",\"type\":" + JsonString("refresh")) + ",\"iat\":"
  }

  /** The payload of a refresh token: the head, the issue time and the expiry. */
  lemma RefreshJsonShape(sub: string, ttl: int, now: int)
    ensures ClaimsJson(Stamped(RefreshBody(sub), ttl, now)) ==
      RefreshHead(sub) + (JsonInt(now) + (ExpKey + JsonInt(now + ttl) + "}"))
  {
    var c := Stamped(RefreshBody(sub), ttl, now);
    var ms := [(",\"type\":", JsonStr("refresh")), (",\"iat\":", JsonNum(now)), (ExpKey, JsonNum(now + ttl))];
    assert Members(c) == ms;
    var exp := ExpKey + JsonInt(now + ttl);
    assert MembersText(ms[2..]) == exp + "" by { assert ms[2..][1..] == []; }
    assert MembersText(ms[1..]) == ",\"iat\":" + JsonInt(now) + exp by { assert ms[1..][1..] == ms[2..]; }
    assert MembersText(ms) == ",\"type\":" + JsonString("refresh") + (",\"iat\":" + JsonInt(now) + exp);
    Regroup6("{\"sub\":" + JsonString(sub), ",\"type\":" + JsonString("refresh"), ",\"iat\":", JsonInt(now), exp, "}");
  }

  /** The name that introduces the expiry member. */
  const ExpKey: string := ",\"exp\":"

  lemma Regroup6(h: string, typ: string, i: string, n: string, exp: string, z: string)
    ensures h + (typ + ((i + n) + exp)) + z == (h + typ + i) + (n + (exp + z))
  {
  }

  /**
   * Every refresh token of one user has the same first 72 bytes, whatever
   * secret, lifetime and issue time: each matches the digest of any other.
   */
  lemma RefreshTokensCollide(sub: string, k1: string, ttl1: int, n1: int, k2: string, ttl2: int, n2: int)
    ensures Window(Utf8Bytes(TokenText(Sign(RefreshBody(sub), k1, ttl1, n1)))) ==
            Window(Utf8Bytes(TokenText(Sign(RefreshBody(sub), k2, ttl2, n2))))
    ensures Compare(TokenText(Sign(RefreshBody(sub), k1, ttl1, n1)),
                    Hash(TokenText(Sign(RefreshBody(sub), k2, ttl2, n2)), RefreshHashCost))
  {
    var head := RefreshHead(sub);
    var json1 := ClaimsJson(Stamped(RefreshBody(sub), ttl1, n1));
    var json2 := ClaimsJson(Stamped(RefreshBody(sub), ttl2, n2));
    TokenTextSigned(Stamped(RefreshBody(sub), ttl1, n1), k1);
    TokenTextSigned(Stamped(RefreshBody(sub), ttl2, n2), k2);
    RefreshJsonShape(sub, ttl1, n1);
    RefreshJsonShape(sub, ttl2, n2);
    assert head <= json1 && head <= json2;
    SharedPayloadPrefixCollides(json1, k1, json2, k2, head);
  }

  /** Two refresh tokens of one user signed with one secret in different seconds are different texts. */
  lemma RefreshTextsDiffer(sub: string, key: string, ttl1: int, n1: int, ttl2: int, n2: int)
    requires n1 != n2
    ensures TokenText(Sign(RefreshBody(sub), key, ttl1, n1)) != TokenText(Sign(RefreshBody(sub), key, ttl2, n2))
  {
    TokenTextSigned(Stamped(RefreshBody(sub), ttl1, n1), key);
    TokenTextSigned(Stamped(RefreshBody(sub), ttl2, n2), key);
    RefreshJsonShape(sub, ttl1, n1);
    RefreshJsonShape(sub, ttl2, n2);
    StampedCompactsDiffer(ClaimsJson(Stamped(RefreshBody(sub), ttl1, n1)), ClaimsJson(Stamped(RefreshBody(sub), ttl2, n2)),
                          key, RefreshHead(sub), n1, n1 + ttl1, n2, n2 + ttl2);
  }

  /** Payloads that share a head and then differ in the issue time give different texts under one secret. */
  lemma StampedCompactsDiffer(json1: string, json2: string, key: string, head: string, n1: int, e1: int, n2: int, e2: int)
    requires json1 == head + (JsonInt(n1) + (ExpKey + JsonInt(e1) + "}"))
    requires json2 == head + (JsonInt(n2) + (ExpKey + JsonInt(e2) + "}"))
    requires n1 != n2
    ensures Compact(json1, key) != Compact(json2, key)
  {
    if Compact(json1, key) == Compact(json2, key) {
      CompactDeterminesPayload(json1, json2, key);
      StampedTailsDiffer(head, n1, e1, n2, e2);
    }
  }

  /** After a common head, different issue times give different bytes, whatever the expiries. */
  lemma StampedTailsDiffer(head: string, n1: int, e1: int, n2: int, e2: int)
    requires n1 != n2
    ensures Utf8Bytes(head + (JsonInt(n1) + (ExpKey + JsonInt(e1) + "}"))) !=
            Utf8Bytes(head + (JsonInt(n2) + (ExpKey + JsonInt(e2) + "}")))
  {
    var x1, x2 := ExpKey + JsonInt(e1) + "}", ExpKey + JsonInt(e2) + "}";
    var rest1, rest2 := JsonInt(n1) + x1, JsonInt(n2) + x2;
    if Utf8Bytes(head + rest1) == Utf8Bytes(head + rest2) {
      Utf8BytesAppend(head, rest1);
      Utf8BytesAppend(head, rest2);
      assert Utf8Bytes(rest1) == Utf8Bytes(head + rest1)[|Utf8Bytes(head)|..] == Utf8Bytes(rest2);
      ExpiryTailAscii(e1);
      ExpiryTailAscii(e2);
      JsonIntChars(n1);
      JsonIntChars(n2);
      AsciiAppend(JsonInt(n1), x1);
      AsciiAppend(JsonInt(n2), x2);
      AsciiBytesInjective(rest1, rest2);
      JsonIntThenDelimiter(n1, x1, n2, x2);
    }
  }

  lemma ExpiryTailAscii(exp: int)
    ensures IsAscii(ExpKey + JsonInt(exp) + "}")
  {
    JsonIntChars(exp);
    assert IsAscii(ExpKey) && IsAscii("}");
    AsciiAppend(ExpKey, JsonInt(exp));
    AsciiAppend(ExpKey + JsonInt(exp), "}");
  }

  /**
   * As written, rotation does not revoke the token it replaces: a refresh
   * token the service issued at another second, once used to refresh, is
   * a different text from the new refresh token, and it is accepted again
   * on the new state until it expires.
   */
  lemma RefreshReplayAfterRotation(t: Tables, config: map<string, string>, token: Token,
                                   ttl: int, issuedAt: int, now: int, at: int)
    requires token.Signed? && token.claims == Stamped(RefreshBody(token.claims.sub), ttl, issuedAt)
    requires RefreshOutcome(t, config, token, now).0.Success?
    requires issuedAt != now && at < issuedAt + ttl
    ensures var (r, t') := RefreshOutcome(t, config, token, now);
      && TokenText(token) != TokenText(r.value.refreshToken)
      && RefreshOutcome(t', config, token, at).0.Success?
  {
    RefreshAcceptsOnlyCurrentSession(t, config, token, now);
    var sub := token.claims.sub;
    var key := RefreshSecret(config).value;
    var u := LookupById(t, sub).value;
    var (r, t') := RefreshOutcome(t, config, token, now);
    var issued := r.value.refreshToken;
    IssueTokensIssues(t, config, PayloadOf(u), now, at);
    assert token == Sign(RefreshBody(sub), key, ttl, issuedAt);
    assert issued == Sign(RefreshBody(sub), key, RefreshTtl(config), now);
    RefreshTextsDiffer(sub, key, ttl, issuedAt, RefreshTtl(config), now);
    RefreshTokensCollide(sub, key, ttl, issuedAt, key, RefreshTtl(config), now);
    var h := Some(Hash(TokenText(issued), RefreshHashCost));
    SetRefreshHashLookup(t, u.id, h, u.id);
    assert LookupById(t', sub) == Some(u.(refreshTokenHash := h));
    RefreshAcceptsStored(t', config, token, at);
  }

  // ---------------------------------------------------------------------
  // Rotation with a digest of the whole token

  /** `issueTokens` storing a digest of the whole refresh token instead of bcrypt's 72-byte window. */
  function IssueTokensWholeOutcome(t: Tables, config: map<string, string>, p: JwtPayload, now: int): (Result<Tokens>, Tables) {
    var (r, t') := IssueTokensOutcome(t, config, p, now);
    if r.Failure? then (r, t')
    else (r, t.(users := SetRefreshHash(t.users, p.sub, Some(HashWhole(TokenText(r.value.refreshToken), RefreshHashCost)))))
  }

  /** `refresh` checking the presented token against a digest of the whole token. */
  function RefreshWholeOutcome(t: Tables, config: map<string, string>, token: Token, now: int): (Result<Tokens>, Tables) {
    match Verify(token, RefreshSecret(config), now)
    case None => (Failure(InvalidRefresh), t)
    case Some(decoded) =>
      if decoded.tokenType != Some("refresh") then (Failure(InvalidType), t)
      else match LookupById(t, decoded.sub)
        case None => (Failure(SessionInvalid), t)
        case Some(u) =>
          if !u.isActive || u.refreshTokenHash.None? then (Failure(SessionInvalid), t)
          else if !CompareWhole(TokenText(token), u.refreshTokenHash.value) then (Failure(Revoked), t)
          else IssueTokensWholeOutcome(t, config, PayloadOf(u), now)
  }

  /** A successful refresh stores the whole-token digest of the new refresh token on the user. */
  lemma RefreshWholeStores(t: Tables, config: map<string, string>, token: Token, now: int)
    requires RefreshWholeOutcome(t, config, token, now).0.Success?
    ensures token.Signed? && SecretsConfigured(config) && LookupById(t, token.claims.sub).Some?
    ensures var (r, t') := RefreshWholeOutcome(t, config, token, now);
      && r.value.refreshToken == Sign(RefreshBody(token.claims.sub), RefreshSecret(config).value, RefreshTtl(config), now)
      && LookupById(t', token.claims.sub) ==
           Some(LookupById(t, token.claims.sub).value.(refreshTokenHash :=
                  Some(HashWhole(TokenText(r.value.refreshToken), RefreshHashCost))))
  {
    var sub := token.claims.sub;
    var u := LookupById(t, sub).value;
    var (r, t') := RefreshWholeOutcome(t, config, token, now);
    assert IssueTokensOutcome(t, config, PayloadOf(u), now).0 == r;
    var h := Some(HashWhole(TokenText(r.value.refreshToken), RefreshHashCost));
    SetRefreshHashLookup(t, u.id, h, u.id);
  }

  /** A token whose text does not match its user's stored whole-token digest is rejected. */
  lemma RefreshWholeRejectsUnmatched(t: Tables, config: map<string, string>, token: Token, at: int, d: Digest)
    requires token.Signed? && LookupById(t, token.claims.sub).Some?
    requires LookupById(t, token.claims.sub).value.refreshTokenHash == Some(d) && !CompareWhole(TokenText(token), d)
    ensures RefreshWholeOutcome(t, config, token, at).0.Failure?
  {
  }

  /** An unexpired refresh token whose text matches the whole-token digest stored on its active user is accepted. */
  lemma RefreshWholeAcceptsStored(t: Tables, config: map<string, string>, token: Token, at: int)
    requires SecretsConfigured(config)
    requires Verify(token, RefreshSecret(config), at).Some?
    requires Verify(token, RefreshSecret(config), at).value.tokenType == Some("refresh")
    requires var u := LookupById(t, token.claims.sub);
      u.Some? && u.value.isActive && u.value.refreshTokenHash.Some? && CompareWhole(TokenText(token), u.value.refreshTokenHash.value)
    ensures RefreshWholeOutcome(t, config, token, at).0.Success?
  {
    var u := LookupById(t, token.claims.sub).value;
    assert RowOf(u) in t.users;
    assert HasUser(t.users, u.id);
    VerifyNeedsKey(token, RefreshSecret(config), at);
    assert !(!u.isActive || u.refreshTokenHash.None?);
    assert RefreshWholeOutcome(t, config, token, at) == IssueTokensWholeOutcome(t, config, PayloadOf(u), at);
    IssueTokensWholeSucceeds(t, config, PayloadOf(u), at);
  }

  lemma IssueTokensWholeSucceeds(t: Tables, config: map<string, string>, p: JwtPayload, now: int)
    requires SecretsConfigured(config) && HasUser(t.users, p.sub)
    ensures IssueTokensWholeOutcome(t, config, p, now).0.Success?
  {
    IssueTokensNeedsSecrets(t, config, p, now);
  }

  /**
   * Rotation with a whole-token digest: after a successful refresh, every
   * token of that user other than the new refresh token is revoked, and
   * the new one is accepted until it expires.
   */
  lemma RefreshWholeRotates(t: Tables, config: map<string, string>, token: Token, now: int, other: Token, at: int)
    requires RefreshWholeOutcome(t, config, token, now).0.Success?
    requires other.Signed? && other.claims.sub == token.claims.sub
    ensures var (r, t') := RefreshWholeOutcome(t, config, token, now);
      && (TokenText(other) != TokenText(r.value.refreshToken) ==> RefreshWholeOutcome(t', config, other, at).0.Failure?)
      && (at < now + RefreshTtl(config) ==> RefreshWholeOutcome(t', config, r.value.refreshToken, at).0.Success?)
  {
    var (r, t') := RefreshWholeOutcome(t, config, token, now);
    if TokenText(other) != TokenText(r.value.refreshToken) {
      RefreshWholeRevokesOthers(t, config, token, now, other, at);
    }
    if at < now + RefreshTtl(config) {
      RefreshWholeAcceptsIssued(t, config, token, now, at);
    }
  }

  lemma RefreshWholeRevokesOthers(t: Tables, config: map<string, string>, token: Token, now: int, other: Token, at: int)
    requires RefreshWholeOutcome(t, config, token, now).0.Success?
    requires other.Signed? && other.claims.sub == token.claims.sub
    requires TokenText(other) != TokenText(RefreshWholeOutcome(t, config, token, now).0.value.refreshToken)
    ensures RefreshWholeOutcome(RefreshWholeOutcome(t, config, token, now).1, config, other, at).0.Failure?
  {
    RefreshWholeStores(t, config, token, now);
    var (r, t') := RefreshWholeOutcome(t, config, token, now);
    var issued := r.value.refreshToken;
    SignedTextAscii(other.claims, other.key);
    SignedTextAscii(issued.claims, issued.key);
    CompareWholeHash(TokenText(issued), TokenText(other), RefreshHashCost);
    RefreshWholeRejectsUnmatched(t', config, other, at, HashWhole(TokenText(issued), RefreshHashCost));
  }

  lemma RefreshWholeAcceptsIssued(t: Tables, config: map<string, string>, token: Token, now: int, at: int)
    requires RefreshWholeOutcome(t, config, token, now).0.Success?
    requires at < now + RefreshTtl(config)
    ensures var (r, t') := RefreshWholeOutcome(t, config, token, now);
      RefreshWholeOutcome(t', config, r.value.refreshToken, at).0.Success?
  {
    RefreshWholeStores(t, config, token, now);
    var (r, t') := RefreshWholeOutcome(t, config, token, now);
    var issued := r.value.refreshToken;
    CompareWholeHash(TokenText(issued), TokenText(issued), RefreshHashCost);
    VerifySigned(RefreshBody(token.claims.sub), RefreshSecret(config).value, RefreshTtl(config), now, at);
    RefreshWholeAcceptsStored(t', config, issued, at);
  }

  /**
   * The evidently intended property: once a refresh token issued at
   * another second has been used to refresh, it is rejected.
   */
  lemma RefreshWholeRejectsReplay(t: Tables, config: map<string, string>, token: Token,
                                  ttl: int, issuedAt: int, now: int, at: int)
    requires token.Signed? && token.claims == Stamped(RefreshBody(token.claims.sub), ttl, issuedAt)
    requires RefreshWholeOutcome(t, config, token, now).0.Success?
    requires issuedAt != now
    ensures RefreshWholeOutcome(RefreshWholeOutcome(t, config, token, now).1, config, token, at).0.Failure?
  {
    var sub := token.claims.sub;
    var key := RefreshSecret(config).value;
    var r := RefreshWholeOutcome(t, config, token, now).0;
    var u := LookupById(t, sub).value;
    assert IssueTokensOutcome(t, config, PayloadOf(u), now).0 == r;
    assert token == Sign(RefreshBody(sub), key, ttl, issuedAt);
    assert r.value.refreshToken == Sign(RefreshBody(sub), key, RefreshTtl(config), now);
    RefreshTextsDiffer(sub, key, ttl, issuedAt, RefreshTtl(config), now);
    RefreshWholeRotates(t, config, token, now, token, at);
  }

  /** `logout(userId)`: clears the stored refresh digest; an unknown user is an error. */
  function LogoutOutcome(t: Tables, userId: string): (Result<()>, Tables) {
    if HasUser(t.users, userId) then (Success(()), t.(users := SetRefreshHash(t.users, userId, None)))
    else (Failure(RecordNotFound), t)
  }

  /** Logging out twice is logging out once. */
  lemma LogoutIdempotent(t: Tables, userId: string)
    requires LogoutOutcome(t, userId).0.Success?
    ensures LogoutOutcome(LogoutOutcome(t, userId).1, userId) == LogoutOutcome(t, userId)
  {
    SetRefreshHashIdempotent(t.users, userId, None);
  }

  /** After logout no refresh token of that user is accepted, and other users' sessions are untouched. */
  lemma LogoutEndsSession(t: Tables, userId: string, config: map<string, string>, token: Token, at: int)
    requires LogoutOutcome(t, userId).0.Success?
    ensures token.Signed? && token.claims.sub == userId ==>
      RefreshOutcome(LogoutOutcome(t, userId).1, config, token, at).0.Failure?
    ensures forall x :: x != userId ==> LookupById(LogoutOutcome(t, userId).1, x) == LookupById(t, x)
  {
    SetRefreshHashLookup(t, userId, None, userId);
    forall x | x != userId
      ensures LookupById(LogoutOutcome(t, userId).1, x) == LookupById(t, x)
    {
      SetRefreshHashLookup(t, userId, None, x);
    }
  }

  // ---------------------------------------------------------------------
  // register

  /** The profile row created inside the transaction, or the error that rolls it back. */
  function CreateProfile(t: Tables, dto: RegisterDto, userId: string, profileId: string, email: string, now: int)
    : Result<Tables>
  {
    if dto.role == Role.Teacher then
      if !Truthy(dto.fullName) then Failure(Internal("fullName is required for teacher"))
      else Success(t.(teachers := t.teachers + [TeacherRow(profileId, userId, dto.fullName.value, email, now)]))
    else if dto.name.None? || dto.age.None? || dto.grade.None? then
      Failure(Internal("name, age, and grade are required for student"))
    else
      Success(t.(students := t.students +
                 [StudentRow(profileId, Some(userId), dto.name.value, dto.age.value, dto.grade.value, true, now)]))
  }

  /** The user row `register` inserts. */
  function RegisteredRow(config: map<string, string>, dto: RegisterDto, userId: string, now: int): UserRow {
    UserRow(userId, ToLower(dto.email), PasswordDigest(config, dto.password), dto.role, true, None, now, now)
  }

  /** The transaction of `register`: the user, its profile, and the user read back with its profile ids. */
  function RegisterTransaction(t: Tables, config: map<string, string>, dto: RegisterDto,
                               userId: string, profileId: string, now: int): Result<(UserModel, Tables)>
  {
    var row := RegisteredRow(config, dto, userId, now);
    if EmailTaken(t.users, row.email) then Failure(UniqueViolation("email"))
    else
      match CreateProfile(t.(users := t.users + [row]), dto, userId, profileId, row.email, now)
      case Failure(e) => Failure(e)
      case Success(t2) =>
        match LookupById(t2, userId)
        case None => Failure(RecordNotFound)
        case Some(u) => Success((u, t2))
  }

  /**
   * `register(dto)` at time `now`, with the ids the database generates for
   * the user and its profile. A failing transaction leaves the store as it
   * was; tokens are issued after the commit.
   */
  function RegisterOutcome(t: Tables, config: map<string, string>, dto: RegisterDto,
                           userId: string, profileId: string, now: int): (Result<Session>, Tables)
  {
    match RegisterTransaction(t, config, dto, userId, profileId, now)
    case Failure(e) => (Failure(e), t)
    case Success((u, t2)) =>
      var (r, t3) := IssueTokensOutcome(t2, config, PayloadOf(u), now);
      match r
      case Failure(e) => (Failure(e), t3)
      case Success(tokens) => (Success(Session(UserSummary(u.id, u.email, u.role), tokens)), t3)
  }

  predicate FreshIds(t: Tables, userId: string, profileId: string) {
    FreshId(t, userId) && FreshId(t, profileId) && userId != profileId
  }

  /**
   * The rejections of `register`: an email already stored (after lower-casing)
   * and a missing profile field both leave the store unchanged.
   */
  lemma RegisterRejections(t: Tables, config: map<string, string>, dto: RegisterDto,
                           userId: string, profileId: string, now: int)
    ensures EmailTaken(t.users, ToLower(dto.email)) ==>
      RegisterOutcome(t, config, dto, userId, profileId, now) == (Failure(UniqueViolation("email")), t)
    ensures !EmailTaken(t.users, ToLower(dto.email)) && dto.role == Role.Teacher && !Truthy(dto.fullName) ==>
      RegisterOutcome(t, config, dto, userId, profileId, now) == (Failure(Internal("fullName is required for teacher")), t)
    ensures !EmailTaken(t.users, ToLower(dto.email)) && dto.role == Role.Student &&
            (dto.name.None? || dto.age.None? || dto.grade.None?) ==>
      RegisterOutcome(t, config, dto, userId, profileId, now) ==
        (Failure(Internal("name, age, and grade are required for student")), t)
  {
  }

  /** The first teacher/student profile of a newly generated user id is the one appended for it. */
  lemma ProfileOfFreshUser(t: Tables, userId: string, tp: TeacherRow, sp: StudentRow)
    requires FreshId(t, userId)
    ensures TeacherIdOf(t.teachers, userId) == None
    ensures StudentIdOf(t.students, userId) == None
    ensures tp.userId == userId ==> TeacherIdOf(t.teachers + [tp], userId) == Some(tp.id)
    ensures sp.userId == Some(userId) ==> StudentIdOf(t.students + [sp], userId) == Some(sp.id)
  {
    FindFirstAt(t.teachers, (x: TeacherRow) => x.userId == userId);
    FindFirstAt(t.students, (x: StudentRow) => x.userId == Some(userId));
    FindFirstAppend(t.teachers, [tp], (x: TeacherRow) => x.userId == userId);
    FindFirstAppend(t.students, [sp], (x: StudentRow) => x.userId == Some(userId));
  }

  /**
   * A successful transaction stores one active user with the lower-cased
   * email, the password digest and the requested role, and exactly the one
   * profile its role calls for, linked to it.
   */
  lemma RegisterTransactionMeaning(t: Tables, config: map<string, string>, dto: RegisterDto,
                                   userId: string, profileId: string, now: int)
    requires FreshIds(t, userId, profileId)
    requires RegisterTransaction(t, config, dto, userId, profileId, now).Success?
    ensures var (u, t2) := RegisterTransaction(t, config, dto, userId, profileId, now).value;
      && t2.users == t.users + [RegisteredRow(config, dto, userId, now)]
      && RowOf(u) == RegisteredRow(config, dto, userId, now)
      && (dto.role == Role.Teacher ==>
            && u.teacherId == Some(profileId) && u.studentId == None
            && t2.teachers == t.teachers + [TeacherRow(profileId, userId, dto.fullName.value, ToLower(dto.email), now)]
            && t2.students == t.students)
      && (dto.role == Role.Student ==>
            && u.studentId == Some(profileId) && u.teacherId == None
            && t2.students == t.students + [StudentRow(profileId, Some(userId), dto.name.value, dto.age.value, dto.grade.value, true, now)]
            && t2.teachers == t.teachers)
      && t2.courses == t.courses && t2.enrollments == t.enrollments
  {
    var row := RegisteredRow(config, dto, userId, now);
    var t1 := t.(users := t.users + [row]);
    var t2 := CreateProfile(t1, dto, userId, profileId, row.email, now).value;
    FindFirstAt(t.users, (x: UserRow) => x.id == userId);
    FindFirstAppend(t.users, [row], (x: UserRow) => x.id == userId);
    assert UserRowById(t2.users, userId) == Some(row);
    if dto.role == Role.Teacher {
      ProfileOfFreshUser(t, userId,
        TeacherRow(profileId, userId, dto.fullName.value, row.email, now), StudentRow("", None, "", 0, 0, false, 0));
    } else {
      ProfileOfFreshUser(t, userId, TeacherRow("", "", "", "", 0),
        StudentRow(profileId, Some(userId), dto.name.value, dto.age.value, dto.grade.value, true, now));
    }
  }

  /**
   * What a successful `register` returns: the new user's id, lower-cased
   * email and role, and an access token whose claims carry them together
   * with the id of the profile just created.
   */
  lemma RegisterIssuesTokensForNewUser(t: Tables, config: map<string, string>, dto: RegisterDto,
                                       userId: string, profileId: string, now: int)
    requires FreshIds(t, userId, profileId)
    requires RegisterOutcome(t, config, dto, userId, profileId, now).0.Success?
    ensures var s := RegisterOutcome(t, config, dto, userId, profileId, now).0.value;
      && s.user == UserSummary(userId, ToLower(dto.email), dto.role)
      && s.tokens.accessToken == Sign(AccessBody(JwtPayload(userId, ToLower(dto.email), dto.role,
                                        if dto.role == Role.Teacher then Some(profileId) else None,
                                        if dto.role == Role.Student then Some(profileId) else None)),
                                      AccessSecret(config).value, AccessTtl(config), now)
  {
    RegisterTransactionMeaning(t, config, dto, userId, profileId, now);
  }

  /** The only active row with an email, whose digest is of the given password, validates. */
  lemma UniqueEmailValidates(t: Tables, email: string, password: string, k: nat)
    requires k < |t.users| && t.users[k].email == ToLower(email)
    requires forall i :: 0 <= i < |t.users| && t.users[i].email == ToLower(email) ==> i == k
    requires t.users[k].isActive && Compare(password, t.users[k].passwordHash)
    ensures ValidatedPayload(t, email, password).Some?
    ensures ValidatedPayload(t, email, password).value.sub == t.users[k].id
  {
    var found := LookupByEmail(t, email);
    assert found.Some?;
    var i :| 0 <= i < |t.users| && t.users[i] == RowOf(found.value);
    assert i == k;
  }

  /** A user who has just registered can log in with the same email, in any letter case, and password. */
  lemma RegisterThenLogin(t: Tables, config: map<string, string>, dto: RegisterDto,
                          userId: string, profileId: string, now: int, email: string, later: int)
    requires FreshIds(t, userId, profileId)
    requires RegisterOutcome(t, config, dto, userId, profileId, now).0.Success?
    requires ToLower(email) == ToLower(dto.email)
    ensures var t' := RegisterOutcome(t, config, dto, userId, profileId, now).1;
      && LoginOutcome(t', config, email, dto.password, later).0.Success?
      && LoginOutcome(t', config, email, dto.password, later).0.value.user.id == userId
  {
    RegisterTransactionMeaning(t, config, dto, userId, profileId, now);
    var (u, t2) := RegisterTransaction(t, config, dto, userId, profileId, now).value;
    var row := RegisteredRow(config, dto, userId, now);
    assert t2.users == t.users + [row];
    IssueTokensNeedsSecrets(t2, config, PayloadOf(u), now);
    IssueTokensKeepsCredentials(t2, config, PayloadOf(u), now);
    var (r3, t3) := IssueTokensOutcome(t2, config, PayloadOf(u), now);
    assert RegisterOutcome(t, config, dto, userId, profileId, now).1 == t3;
    var k := |t.users|;
    assert t3.users[k] == row.(refreshTokenHash := t3.users[k].refreshTokenHash);
    assert !EmailTaken(t.users, row.email);
    forall i | 0 <= i < |t3.users| && t3.users[i].email == ToLower(email)
      ensures i == k
    {
      assert t3.users[i].email == t2.users[i].email;
    }
    ComparePasswordDigest(config, dto.password, dto.password);
    UniqueEmailValidates(t3, email, dto.password, k);
    LoginIff(t3, config, email, dto.password, later);
  }

  // ---------------------------------------------------------------------
  // The service

  class AuthService {
    const usersService: UsersService
    const config: map<string, string>
    const prisma: Database

    /** The users service and the transaction client share one database. */
    predicate Valid() {
      usersService.repository.db == prisma
    }

    constructor (usersService: UsersService, config: map<string, string>, prisma: Database)
      requires usersService.repository.db == prisma
      ensures Valid() && this.usersService == usersService && this.config == config && this.prisma == prisma
    {
      this.usersService := usersService;
      this.config := config;
      this.prisma := prisma;
    }

    method IssueTokens(payload: JwtPayload, now: int) returns (r: Result<Tokens>)
      requires Valid()
      modifies prisma`users
      ensures (r, prisma.Snapshot()) == IssueTokensOutcome(old(prisma.Snapshot()), config, payload, now)
    {
      var accessExpiresIn := ConfigGet(config, "JWT_ACCESS_EXPIRES_IN", "15m");
      var refreshExpiresIn := ConfigGet(config, "JWT_REFRESH_EXPIRES_IN", "7d");
      var accessSecret := ConfigLookup(config, "JWT_ACCESS_SECRET");
      var refreshSecret := ConfigLookup(config, "JWT_REFRESH_SECRET");
      if !Truthy(accessSecret) || !Truthy(refreshSecret) {
        return Failure(SecretsMissing);
      }
      var accessToken := Sign(AccessBody(payload), accessSecret.value, ParseExpiresIn(accessExpiresIn), now);
      var refreshToken := Sign(RefreshBody(payload.sub), refreshSecret.value, ParseExpiresIn(refreshExpiresIn), now);
      var refreshHash := Hash(TokenText(refreshToken), RefreshHashCost);
      var updated := usersService.UpdateRefreshTokenHash(payload.sub, Some(refreshHash));
      if updated.Failure? {
        return Failure(updated.error);
      }
      r := Success(Tokens(accessToken, refreshToken, ParseExpiresIn(accessExpiresIn)));
    }

    function ValidateUser(email: string, password: string): (r: Option<JwtPayload>)
      requires Valid()
      reads prisma
      ensures r == ValidatedPayload(prisma.Snapshot(), email, password)
    {
      match usersService.FindByEmail(email)
      case None => None
      case Some(u) =>
        if !u.isActive then None
        else if !Compare(password, u.passwordHash) then None
        else Some(PayloadOf(u))
    }

    method Login(email: string, password: string, now: int) returns (r: Result<Session>)
      requires Valid()
      modifies prisma`users
      ensures (r, prisma.Snapshot()) == LoginOutcome(old(prisma.Snapshot()), config, email, password, now)
    {
      var payload := ValidateUser(email, password);
      if payload.None? {
        return Failure(InvalidCredentials);
      }
      var p := payload.value;
      var tokens := IssueTokens(p, now);
      if tokens.Failure? {
        return Failure(tokens.error);
      }
      r := Success(Session(UserSummary(p.sub, p.email, p.role), tokens.value));
    }

    method Refresh(refreshToken: Token, now: int) returns (r: Result<Tokens>)
      requires Valid()
      modifies prisma`users
      ensures (r, prisma.Snapshot()) == RefreshOutcome(old(prisma.Snapshot()), config, refreshToken, now)
    {
      var decoded := Verify(refreshToken, ConfigLookup(config, "JWT_REFRESH_SECRET"), now);
      if decoded.None? {
        return Failure(InvalidRefresh);
      }
      if decoded.value.tokenType != Some("refresh") {
        return Failure(InvalidType);
      }
      var user := usersService.FindById(decoded.value.sub);
      if user.None? || !user.value.isActive || user.value.refreshTokenHash.None? {
        return Failure(SessionInvalid);
      }
      if !Compare(TokenText(refreshToken), user.value.refreshTokenHash.value) {
        return Failure(Revoked);
      }
      r := IssueTokens(PayloadOf(user.value), now);
    }

    method Logout(userId: string) returns (r: Result<()>)
      requires Valid()
      modifies prisma`users
      ensures (r, prisma.Snapshot()) == LogoutOutcome(old(prisma.Snapshot()), userId)
    {
      r := usersService.UpdateRefreshTokenHash(userId, None);
    }

    method Register(dto: RegisterDto, userId: string, profileId: string, now: int) returns (r: Result<Session>)
      requires Valid()
      requires FreshIds(prisma.Snapshot(), userId, profileId)
      modifies prisma`users, prisma`teachers, prisma`students
      ensures (r, prisma.Snapshot()) == RegisterOutcome(old(prisma.Snapshot()), config, dto, userId, profileId, now)
    {
      var email := ToLower(dto.email);
      var passwordHash := PasswordDigest(config, dto.password);
      // the transaction
      var before := prisma.Snapshot();
      if exists i :: 0 <= i < |prisma.users| && prisma.users[i].email == email {
        return Failure(UniqueViolation("email"));
      }
      prisma.users := prisma.users + [UserRow(userId, email, passwordHash, dto.role, true, None, now, now)];
      if dto.role == Role.Teacher {
        if !Truthy(dto.fullName) {
          prisma.users := before.users;
          return Failure(Internal("fullName is required for teacher"));
        }
        prisma.teachers := prisma.teachers + [TeacherRow(profileId, userId, dto.fullName.value, email, now)];
      } else {
        if dto.name.None? || dto.age.None? || dto.grade.None? {
          prisma.users := before.users;
          return Failure(Internal("name, age, and grade are required for student"));
        }
        prisma.students := prisma.students +
          [StudentRow(profileId, Some(userId), dto.name.value, dto.age.value, dto.grade.value, true, now)];
      }
      var user := LookupById(prisma.Snapshot(), userId);
      if user.None? {
        prisma.users, prisma.teachers, prisma.students := before.users, before.teachers, before.students;
        return Failure(RecordNotFound);
      }
      // after the commit
      var u := user.value;
      var tokens := IssueTokens(PayloadOf(u), now);
      if tokens.Failure? {
        return Failure(tokens.error);
      }
      r := Success(Session(UserSummary(u.id, u.email, u.role), tokens.value));
    }
  }
}
