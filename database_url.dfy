/**
 * The connection URL of the database: `DATABASE_URL` when it is set to
 * something other than blanks, otherwise a `postgresql://` URL built from
 * the individual `DB_*` variables, all of which are then required.
 */
module DatabaseUrl {
  import opened Base
  import opened Uri

  /** The variables the fallback needs. */
  datatype DbKey = DbHost | DbPort | DbUsername | DbPassword | DbName

  function KeyName(k: DbKey): string {
    match k
    case DbHost => "DB_HOST"
    case DbPort => "DB_PORT"
    case DbUsername => "DB_USERNAME"
    case DbPassword => "DB_PASSWORD"
    case DbName => "DB_NAME"
  }

  /** The required variables in the order a missing one is reported. */
  const RequiredKeys: seq<DbKey> := [DbHost, DbPort, DbUsername, DbPassword, DbName]

  /**
   * Whether a variable counts as missing: `DB_PORT` defaults to 5432 when
   * unset, so only an empty port is missing; an empty password is allowed;
   * the others must be set and non-empty.
   */
  predicate IsMissing(env: map<string, string>, k: DbKey) {
    match k
    case DbPort => KeyName(k) in env && env[KeyName(k)] == ""
    case DbPassword => KeyName(k) !in env
    case _ => KeyName(k) !in env || env[KeyName(k)] == ""
  }

  /** The missing variables, in the fixed order. */
  function Missing(env: map<string, string>): seq<DbKey> {
    Filter(RequiredKeys, k => IsMissing(env, k))
  }

  function Names(ks: seq<DbKey>): (r: seq<string>)
    ensures |r| == |ks|
  {
    if ks == [] then [] else [KeyName(ks[0])] + Names(ks[1..])
  }

  function MissingMessage(missing: seq<DbKey>): string {
    "Database config: set DATABASE_URL or all of DB_HOST, DB_PORT, DB_USERNAME, DB_PASSWORD, DB_NAME. Missing: "
      + Join(Names(missing), ", ") + "."
  }

  /**
   * The URL built from the parts: the password is percent-encoded, the
   * other parts are used as they are, and the port defaults to 5432.
   */
  function BuiltUrl(env: map<string, string>): string {
    "postgresql://" + ConfigGet(env, "DB_USERNAME", "") + ":" + EncodeUriComponent(ConfigGet(env, "DB_PASSWORD", "")) + "@"
      + ConfigGet(env, "DB_HOST", "") + ":" + ConfigGet(env, "DB_PORT", "5432") + "/" + ConfigGet(env, "DB_NAME", "")
  }

  /** The URL `getDatabaseUrl` resolves, or the error it throws. */
  function ResolvedUrl(env: map<string, string>): Result<string> {
    if "DATABASE_URL" in env && !IsBlank(env["DATABASE_URL"]) then Success(Trim(env["DATABASE_URL"]))
    else if Missing(env) != [] then Failure(Internal(MissingMessage(Missing(env))))
    else Success(BuiltUrl(env))
  }

  /** The missing list names exactly the missing variables. */
  lemma MissingMeaning(env: map<string, string>)
    ensures forall k :: k in Missing(env) <==> IsMissing(env, k)
  {
    MissingIsPushes(env);
  }

  /**
   * What `getDatabaseUrl` promises: a non-blank `DATABASE_URL` wins,
   * trimmed, whatever the other variables say; otherwise it fails exactly
   * when some required variable is missing, and the message names every
   * missing one.
   */
  lemma ResolvedUrlMeaning(env: map<string, string>)
    ensures "DATABASE_URL" in env && !IsBlank(env["DATABASE_URL"]) ==>
      ResolvedUrl(env) == Success(Trim(env["DATABASE_URL"])) && Trim(env["DATABASE_URL"]) != ""
    ensures ("DATABASE_URL" !in env || IsBlank(env["DATABASE_URL"])) ==>
      (ResolvedUrl(env).Failure? <==> exists k :: IsMissing(env, k))
  {
    if "DATABASE_URL" in env {
      TrimEmptyIffBlank(env["DATABASE_URL"]);
    }
    MissingMeaning(env);
    if Missing(env) != [] {
      assert Missing(env)[0] in Missing(env);
    }
  }

  // ---------------------------------------------------------------------
  // The missing list built push by push equals the filter.

  /** The one-element push a check contributes. */
  function PushedFor(env: map<string, string>, k: DbKey): seq<DbKey> {
    if IsMissing(env, k) then [k] else []
  }

  lemma FilterStep(s: seq<DbKey>, p: DbKey -> bool)
    requires |s| > 0
    ensures Filter(s, p) == (if p(s[0]) then [s[0]] else []) + Filter(s[1..], p)
  {
  }

  lemma MissingIsPushes(env: map<string, string>)
    ensures Missing(env) ==
      PushedFor(env, DbHost) + (PushedFor(env, DbPort) + (PushedFor(env, DbUsername)
      + (PushedFor(env, DbPassword) + PushedFor(env, DbName))))
  {
    var p := k => IsMissing(env, k);
    var r := RequiredKeys;
    FilterStep(r, p);
    FilterStep(r[1..], p);
    FilterStep(r[2..], p);
    FilterStep(r[3..], p);
    FilterStep(r[4..], p);
    assert r[1..][1..] == r[2..];
    assert r[2..][1..] == r[3..];
    assert r[3..][1..] == r[4..];
    assert r[4..][1..] == [];
    var f5 := Filter(r[4..], p);
    assert f5 == PushedFor(env, DbName);
    var f4 := Filter(r[3..], p);
    assert f4 == PushedFor(env, DbPassword) + f5;
    var f3 := Filter(r[2..], p);
    assert f3 == PushedFor(env, DbUsername) + f4;
    var f2 := Filter(r[1..], p);
    assert f2 == PushedFor(env, DbPort) + f3;
    assert Filter(r, p) == PushedFor(env, DbHost) + f2;
  }

  lemma Associative5<T>(a: seq<T>, b: seq<T>, c: seq<T>, d: seq<T>, e: seq<T>)
    ensures a + b + c + d + e == a + (b + (c + (d + e)))
  {
  }

  /** The five pushes, in order, decide the outcome once `DATABASE_URL` is blank or unset. */
  lemma FallbackFromPushes(env: map<string, string>, missing: seq<DbKey>)
    requires "DATABASE_URL" !in env || IsBlank(env["DATABASE_URL"])
    requires missing == PushedFor(env, DbHost) + PushedFor(env, DbPort) + PushedFor(env, DbUsername)
                        + PushedFor(env, DbPassword) + PushedFor(env, DbName)
    ensures missing == Missing(env)
    ensures missing == [] ==> ResolvedUrl(env) == Success(BuiltUrl(env))
    ensures missing != [] ==> ResolvedUrl(env) == Failure(Internal(MissingMessage(missing)))
  {
    if "DATABASE_URL" in env {
      TrimEmptyIffBlank(env["DATABASE_URL"]);
    }
    MissingIsPushes(env);
    Associative5(PushedFor(env, DbHost), PushedFor(env, DbPort), PushedFor(env, DbUsername),
                 PushedFor(env, DbPassword), PushedFor(env, DbName));
  }

  /** What each of the five checks tests, in terms of the variable it reads. */
  lemma ChecksAreIsMissing(env: map<string, string>)
    ensures IsMissing(env, DbHost) <==> ("DB_HOST" !in env || env["DB_HOST"] == "")
    ensures IsMissing(env, DbPort) <==> ConfigGet(env, "DB_PORT", "5432") == ""
    ensures IsMissing(env, DbUsername) <==> ("DB_USERNAME" !in env || env["DB_USERNAME"] == "")
    ensures IsMissing(env, DbPassword) <==> "DB_PASSWORD" !in env
    ensures IsMissing(env, DbName) <==> ("DB_NAME" !in env || env["DB_NAME"] == "")
  {
  }

  /** The checks of `getDatabaseUrl`, one push per variable found missing, in the fixed order. */
  method CollectMissing(env: map<string, string>, host: Option<string>, port: string, username: Option<string>,
                        password: Option<string>, dbName: Option<string>) returns (missing: seq<DbKey>)
    requires host == ConfigLookup(env, "DB_HOST") && port == ConfigGet(env, "DB_PORT", "5432")
    requires username == ConfigLookup(env, "DB_USERNAME") && password == ConfigLookup(env, "DB_PASSWORD")
    requires dbName == ConfigLookup(env, "DB_NAME")
    ensures missing == Missing(env)
  {
    ChecksAreIsMissing(env);
    missing := [];
    if host.None? || host.value == "" { missing := missing + [DbHost]; }
    ghost var m1 := missing;
    assert m1 == PushedFor(env, DbHost);
    if port == "" { missing := missing + [DbPort]; }
    ghost var m2 := missing;
    assert m2 == m1 + PushedFor(env, DbPort);
    if username.None? || username.value == "" { missing := missing + [DbUsername]; }
    ghost var m3 := missing;
    assert m3 == m2 + PushedFor(env, DbUsername);
    if password.None? { missing := missing + [DbPassword]; }
    ghost var m4 := missing;
    assert m4 == m3 + PushedFor(env, DbPassword);
    if dbName.None? || dbName.value == "" { missing := missing + [DbName]; }
    assert missing == m4 + PushedFor(env, DbName);
    MissingIsPushes(env);
    Associative5(PushedFor(env, DbHost), PushedFor(env, DbPort), PushedFor(env, DbUsername),
                 PushedFor(env, DbPassword), PushedFor(env, DbName));
  }

  /** `getDatabaseUrl(env)`. */
  method GetDatabaseUrl(env: map<string, string>) returns (r: Result<string>)
    ensures r == ResolvedUrl(env)
  {
    var databaseUrl := if "DATABASE_URL" in env then Trim(env["DATABASE_URL"]) else "";
    if "DATABASE_URL" in env {
      TrimEmptyIffBlank(env["DATABASE_URL"]);
    }
    if databaseUrl != "" {
      return Success(databaseUrl);
    }
    var host := ConfigLookup(env, "DB_HOST");
    var port := ConfigGet(env, "DB_PORT", "5432");
    var username := ConfigLookup(env, "DB_USERNAME");
    var password := ConfigLookup(env, "DB_PASSWORD");
    var dbName := ConfigLookup(env, "DB_NAME");
    var missing := CollectMissing(env, host, port, username, password, dbName);
    if |missing| > 0 {
      return Failure(Internal(MissingMessage(missing)));
    }
    AllPartsSet(env);
    var encodedPassword := EncodeUriComponent(password.value);
    r := Success("postgresql://" + username.value + ":" + encodedPassword + "@" + host.value + ":" + port + "/" + dbName.value);
    assert r == Success(BuiltUrl(env));
  }

  /** With nothing missing, every part but the port is set. */
  lemma AllPartsSet(env: map<string, string>)
    requires Missing(env) == []
    ensures "DB_HOST" in env && "DB_USERNAME" in env && "DB_PASSWORD" in env && "DB_NAME" in env
  {
    MissingMeaning(env);
    assert !IsMissing(env, DbHost) && !IsMissing(env, DbUsername) && !IsMissing(env, DbPassword) && !IsMissing(env, DbName);
  }

  /** In a built URL the encoded password never contains the separators `:`, `@` or `/`. */
  lemma PasswordSegmentIsSafe(password: string)
    ensures forall i :: 0 <= i < |EncodeUriComponent(password)| ==>
      EncodeUriComponent(password)[i] !in {':', '@', '/'}
  {
    EncodedAlphabet(password);
  }
}
