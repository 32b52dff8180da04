/**
 * The helper the maintenance scripts share: it loads the `.env` file into
 * the process environment and makes sure `DATABASE_URL` is set there,
 * building it from the `DB_*` variables when it is not.
 */
module DbScript {
  import opened Base
  import opened Uri
  import DatabaseUrl

  const ScriptMissing := Internal("Set DATABASE_URL or DB_HOST, DB_PORT, DB_USERNAME, DB_PASSWORD, DB_NAME")

  /**
   * The URL `ensureDatabaseUrl` resolves from an environment: a non-blank
   * `DATABASE_URL`, trimmed; otherwise one built with user name and
   * password percent-encoded, the port defaulting to 5432 when unset or
   * empty, and host, user name and database name required non-empty.
   */
  function ScriptUrl(env: map<string, string>): Result<string> {
    var url := if "DATABASE_URL" in env then Trim(env["DATABASE_URL"]) else "";
    if url != "" then Success(url)
    else
      var host := ConfigLookup(env, "DB_HOST");
      var port := if Truthy(ConfigLookup(env, "DB_PORT")) then env["DB_PORT"] else "5432";
      var user := ConfigLookup(env, "DB_USERNAME");
      var password := ConfigLookup(env, "DB_PASSWORD");
      var db := ConfigLookup(env, "DB_NAME");
      if !Truthy(host) || !Truthy(user) || password.None? || !Truthy(db) then Failure(ScriptMissing)
      else
        Success("postgresql://" + EncodeUriComponent(user.value) + ":" + EncodeUriComponent(password.value) + "@"
                + host.value + ":" + port + "/" + db.value)
  }

  /** A variable that is set to a non-empty value. */
  predicate Present(env: map<string, string>, key: string) {
    key in env && env[key] != ""
  }

  /**
   * The script's rules, key by key: a non-blank `DATABASE_URL` wins;
   * otherwise it fails exactly when host, user name or database name is
   * unset or empty or the password is unset, and it builds the URL with
   * the port defaulting to 5432 whenever `DB_PORT` is unset or empty.
   */
  lemma ScriptUrlMeaning(env: map<string, string>)
    ensures var given := "DATABASE_URL" in env && !IsBlank(env["DATABASE_URL"]);
      && (given ==> ScriptUrl(env) == Success(Trim(env["DATABASE_URL"])))
      && (!given ==> (ScriptUrl(env).Success? <==>
            Present(env, "DB_HOST") && Present(env, "DB_USERNAME") && "DB_PASSWORD" in env && Present(env, "DB_NAME")))
      && (!given && ScriptUrl(env).Success? ==>
            ScriptUrl(env).value ==
              "postgresql://" + EncodeUriComponent(env["DB_USERNAME"]) + ":" + EncodeUriComponent(env["DB_PASSWORD"])
              + "@" + env["DB_HOST"] + ":" + (if Present(env, "DB_PORT") then env["DB_PORT"] else "5432")
              + "/" + env["DB_NAME"])
      && (ScriptUrl(env).Failure? ==> ScriptUrl(env).error == ScriptMissing)
  {
    if "DATABASE_URL" in env {
      TrimEmptyIffBlank(env["DATABASE_URL"]);
    }
  }

  /** `loadEnv`: the `.env` file's variables, except those the process already has. */
  function Loaded(env: map<string, string>, file: map<string, string>): (r: map<string, string>)
    ensures r.Keys == env.Keys + file.Keys
    ensures forall k :: k in env ==> r[k] == env[k]
    ensures forall k :: k in file && k !in env ==> r[k] == file[k]
  {
    file + env
  }

  /** `ensureDatabaseUrl()`: the result and the environment afterwards. */
  function EnsureOutcome(env: map<string, string>, file: map<string, string>): (Result<string>, map<string, string>) {
    var loaded := Loaded(env, file);
    match ScriptUrl(loaded)
    case Failure(e) => (Failure(e), loaded)
    case Success(url) => (Success(url), loaded["DATABASE_URL" := url])
  }

  /** The process environment the scripts run in. */
  class ProcessEnv {
    var vars: map<string, string>

    constructor (vars: map<string, string>)
      ensures this.vars == vars
    {
      this.vars := vars;
    }

    method LoadEnv(file: map<string, string>)
      modifies this
      ensures vars == Loaded(old(vars), file)
    {
      vars := file + vars;
    }

    method EnsureDatabaseUrl(file: map<string, string>) returns (r: Result<string>)
      modifies this
      ensures (r, vars) == EnsureOutcome(old(vars), file)
    {
      LoadEnv(file);
      var url := if "DATABASE_URL" in vars then Trim(vars["DATABASE_URL"]) else "";
      if url != "" {
        vars := vars["DATABASE_URL" := url];
        return Success(url);
      }
      var host := ConfigLookup(vars, "DB_HOST");
      var port := if Truthy(ConfigLookup(vars, "DB_PORT")) then vars["DB_PORT"] else "5432";
      var user := ConfigLookup(vars, "DB_USERNAME");
      var password := ConfigLookup(vars, "DB_PASSWORD");
      var db := ConfigLookup(vars, "DB_NAME");
      if !Truthy(host) || !Truthy(user) || password.None? || !Truthy(db) {
        return Failure(ScriptMissing);
      }
      var built := "postgresql://" + EncodeUriComponent(user.value) + ":" + EncodeUriComponent(password.value) + "@"
                   + host.value + ":" + port + "/" + db.value;
      vars := vars["DATABASE_URL" := built];
      r := Success(built);
    }
  }

  /**
   * After a success `DATABASE_URL` holds the resolved URL and nothing else
   * changed beyond loading the file; after a failure only the file was
   * loaded.
   */
  lemma EnsureOutcomeEffect(env: map<string, string>, file: map<string, string>)
    ensures var (r, env') := EnsureOutcome(env, file);
      && (r.Success? ==> "DATABASE_URL" in env' && env'["DATABASE_URL"] == r.value && r.value != "")
      && (forall k :: k != "DATABASE_URL" && k in Loaded(env, file) ==> k in env' && env'[k] == Loaded(env, file)[k])
      && (r.Failure? ==> env' == Loaded(env, file) && r.error == ScriptMissing)
  {
  }

  /**
   * Calling it again after a success: the second call resolves the trim of
   * the first URL, so it repeats the first result and leaves the
   * environment as it is exactly when that URL has no surrounding
   * whitespace (always so when it came from `DATABASE_URL`; for a built URL,
   * when the database name does not end in whitespace).
   */
  lemma EnsureTwice(env: map<string, string>, file: map<string, string>)
    requires EnsureOutcome(env, file).0.Success?
    ensures var (r1, env1) := EnsureOutcome(env, file);
      EnsureOutcome(env1, file) == (Success(Trim(r1.value)), env1["DATABASE_URL" := Trim(r1.value)])
    ensures var (r1, env1) := EnsureOutcome(env, file);
      Trim(r1.value) == r1.value ==> EnsureOutcome(env1, file) == (r1, env1)
  {
    SecondCall(env, file);
    EnsureOutcomeEffect(env, file);
    var (r1, env1) := EnsureOutcome(env, file);
    UpdateSame(env1, "DATABASE_URL", r1.value);
  }

  lemma UpdateSame(m: map<string, string>, k: string, v: string)
    requires k in m && m[k] == v
    ensures m[k := v] == m
  {
  }

  lemma SecondCall(env: map<string, string>, file: map<string, string>)
    requires EnsureOutcome(env, file).0.Success?
    ensures var (r1, env1) := EnsureOutcome(env, file);
      EnsureOutcome(env1, file) == (Success(Trim(r1.value)), env1["DATABASE_URL" := Trim(r1.value)])
  {
    var (r1, env1) := EnsureOutcome(env, file);
    var loaded := Loaded(env, file);
    assert env1 == loaded["DATABASE_URL" := r1.value];
    LoadedAgain(loaded, file, r1.value);
    ResolvedNonEmpty(loaded);
    GivenUrlWins(env1);
  }

  /** Loading the same file twice adds nothing. */
  lemma LoadedAgain(loaded: map<string, string>, file: map<string, string>, url: string)
    requires file.Keys <= loaded.Keys
    ensures Loaded(loaded["DATABASE_URL" := url], file) == loaded["DATABASE_URL" := url]
  {
  }

  /** A resolved URL is never blank. */
  lemma ResolvedNonEmpty(env: map<string, string>)
    requires ScriptUrl(env).Success?
    ensures Trim(ScriptUrl(env).value) != ""
  {
    var url := if "DATABASE_URL" in env then Trim(env["DATABASE_URL"]) else "";
    if url != "" {
      TrimIdempotent(env["DATABASE_URL"]);
    } else {
      assert ScriptUrl(env).value[0] == 'p';
      TrimEmptyIffBlank(ScriptUrl(env).value);
    }
  }

  /** A non-blank `DATABASE_URL` is resolved to its trim. */
  lemma GivenUrlWins(env: map<string, string>)
    requires "DATABASE_URL" in env && Trim(env["DATABASE_URL"]) != ""
    ensures ScriptUrl(env) == Success(Trim(env["DATABASE_URL"]))
  {
  }

  /** A URL taken from `DATABASE_URL` is stable from the first call on. */
  lemma EnsureIdempotentForGivenUrl(env: map<string, string>, file: map<string, string>)
    requires "DATABASE_URL" in Loaded(env, file) && !IsBlank(Loaded(env, file)["DATABASE_URL"])
    ensures EnsureOutcome(env, file).0 == Success(Trim(Loaded(env, file)["DATABASE_URL"]))
    ensures var (r1, env1) := EnsureOutcome(env, file); EnsureOutcome(env1, file) == (r1, env1)
  {
    TrimEmptyIffBlank(Loaded(env, file)["DATABASE_URL"]);
    TrimIdempotent(Loaded(env, file)["DATABASE_URL"]);
    EnsureTwice(env, file);
  }

  /**
   * The script and the application agree when `DATABASE_URL` is not set,
   * every part is set, all but the password non-empty, and the user name needs no escaping.
   */
  lemma ScriptAgreesWithApplication(env: map<string, string>)
    requires "DATABASE_URL" !in env
    requires "DB_HOST" in env && env["DB_HOST"] != "" && "DB_PORT" in env && env["DB_PORT"] != ""
    requires "DB_USERNAME" in env && env["DB_USERNAME"] != "" && "DB_PASSWORD" in env && "DB_NAME" in env && env["DB_NAME"] != ""
    requires forall i :: 0 <= i < |env["DB_USERNAME"]| ==> IsUnreserved(env["DB_USERNAME"][i])
    ensures ScriptUrl(env) == DatabaseUrl.ResolvedUrl(env)
  {
    var user, password := env["DB_USERNAME"], env["DB_PASSWORD"];
    var host, port, db := env["DB_HOST"], env["DB_PORT"], env["DB_NAME"];
    var url := "postgresql://" + user + ":" + EncodeUriComponent(password) + "@" + host + ":" + port + "/" + db;
    assert DatabaseUrl.ResolvedUrl(env) == Success(url) by {
      DatabaseUrl.MissingIsPushes(env);
      assert DatabaseUrl.Missing(env) == [];
    }
    assert ScriptUrl(env) == Success(url) by {
      EncodeUnreservedIdentity(user);
    }
  }

  /** They disagree on an empty `DB_PORT`: the application reports it missing, the script falls back to 5432. */
  lemma EmptyPortDisagreement(env: map<string, string>)
    requires "DATABASE_URL" !in env
    requires "DB_PORT" in env && env["DB_PORT"] == ""
    requires "DB_HOST" in env && env["DB_HOST"] != "" && "DB_USERNAME" in env && env["DB_USERNAME"] != ""
    requires "DB_PASSWORD" in env && "DB_NAME" in env && env["DB_NAME"] != ""
    ensures DatabaseUrl.ResolvedUrl(env).Failure?
    ensures ScriptUrl(env).Success?
  {
    DatabaseUrl.ChecksAreIsMissing(env);
    DatabaseUrl.MissingMeaning(env);
    assert DatabaseUrl.DbPort in DatabaseUrl.Missing(env);
  }
}
