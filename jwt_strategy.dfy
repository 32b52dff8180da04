/**
 * The bearer-token strategy that authenticates requests: it needs the
 * access secret at construction, lets passport verify signature and expiry,
 * and then accepts only tokens whose type is absent, empty or "access".
 */
module JwtStrategy {
  import opened Base
  import opened Crypto
  import opened Auth

  /** The user attached to the request, as the strategy's `validate` returns it. */
  datatype RequestUser = RequestUser(
    sub: string,
    email: Option<string>,
    role: Option<Role>,
    teacherId: Option<string>,
    studentId: Option<string>)

  /** The constructor: the secret the strategy verifies with, or the start-up error. */
  function StrategySecret(config: map<string, string>): (r: Result<string>)
    ensures r.Success? <==> Truthy(ConfigLookup(config, "JWT_ACCESS_SECRET"))
    ensures r.Success? ==> Some(r.value) == ConfigLookup(config, "JWT_ACCESS_SECRET") && r.value != ""
    ensures r.Failure? ==> r.error == Internal("JWT_ACCESS_SECRET is required")
  {
    var secret := ConfigLookup(config, "JWT_ACCESS_SECRET");
    if !Truthy(secret) then Failure(Internal("JWT_ACCESS_SECRET is required")) else Success(secret.value)
  }

  /** `validate(payload)`: the token type is rejected when it is set to anything but "access". */
  function Validate(payload: Claims): (r: Result<RequestUser>)
    ensures r.Failure? <==> payload.tokenType.Some? && payload.tokenType.value != "" && payload.tokenType.value != "access"
    ensures r.Failure? ==> r.error == Unauthorized("Invalid token type")
    ensures r.Success? ==>
      r.value == RequestUser(payload.sub, payload.email, payload.role, payload.teacherId, payload.studentId)
  {
    if Truthy(payload.tokenType) && payload.tokenType.value != "access" then
      Failure(Unauthorized("Invalid token type"))
    else
      Success(RequestUser(payload.sub, payload.email, payload.role, payload.teacherId, payload.studentId))
  }

  /** A whole authentication at time `now`: passport's verification (no expired tokens), then `validate`. */
  function Authenticate(secret: string, token: Token, now: int): Result<RequestUser> {
    match Verify(token, Some(secret), now)
    case None => Failure(Unauthorized("Unauthorized"))
    case Some(claims) => Validate(claims)
  }

  /** The request user an access token for a payload stands for. */
  function UserOf(p: JwtPayload): RequestUser {
    RequestUser(p.sub, Some(p.email), Some(p.role), p.teacherId, p.studentId)
  }

  /**
   * An access token issued for a payload authenticates, until it expires,
   * as exactly that payload; the refresh token issued with it never does,
   * even when both secrets are the same.
   */
  lemma IssuedTokensAuthenticate(t: Store.Tables, config: map<string, string>, p: JwtPayload, now: int, at: int)
    requires IssueTokensOutcome(t, config, p, now).0.Success?
    requires StrategySecret(config).Success?
    ensures var tokens := IssueTokensOutcome(t, config, p, now).0.value;
      && (at < now + AccessTtl(config) ==> Authenticate(StrategySecret(config).value, tokens.accessToken, at) == Success(UserOf(p)))
      && (now + AccessTtl(config) <= at ==> Authenticate(StrategySecret(config).value, tokens.accessToken, at).Failure?)
      && Authenticate(StrategySecret(config).value, tokens.refreshToken, at).Failure?
  {
    IssuedTokensVerify(t, config, p, now, at);
  }
}
