/**
 * The expiry-duration strings of the token configuration (`15m`, `7d`, ...):
 * the parser of the authentication service and the second copy of the same
 * computation inside the JWT module factory, proved to agree.
 */
module Duration {
  import opened Base

  /** A unit letter of the duration grammar. */
  predicate IsUnit(c: char) {
    c == 's' || c == 'm' || c == 'h' || c == 'd'
  }

  predicate AllDigits(ds: string) {
    forall i :: 0 <= i < |ds| ==> IsDigit(ds[i])
  }

  /** `parseInt(ds, 10)` of a string of decimal digits, as an unbounded number. */
  function DigitsValue(ds: string): nat
    requires AllDigits(ds)
  {
    if ds == [] then 0 else DigitsValue(ds[..|ds| - 1]) * 10 + (ds[|ds| - 1] as int - '0' as int)
  }

  /** Length of the longest run of digits starting at index `i`: what a greedy `\d+` consumes. */
  function DigitRun(s: string, i: nat): (n: nat)
    requires i <= |s|
    ensures i + n <= |s|
    ensures forall k :: i <= k < i + n ==> IsDigit(s[k])
    ensures i + n < |s| ==> !IsDigit(s[i + n])
    decreases |s| - i
  {
    if i < |s| && IsDigit(s[i]) then 1 + DigitRun(s, i + 1) else 0
  }

  /** The two capture groups of a successful match. */
  datatype DurationMatch = DurationMatch(digits: string, unit: string)

  /**
   * `s.match(/^(\d+)([smhd])$/)`: a greedy run of digits from the start,
   * then one unit letter, then the end of the input.
   */
  function MatchDuration(s: string): Option<DurationMatch> {
    var n := DigitRun(s, 0);
    if 0 < n && n + 1 == |s| && IsUnit(s[n]) then Some(DurationMatch(s[..n], s[n..])) else None
  }

  /** The strings the regular expression accepts: one or more digits, then exactly one unit letter. */
  predicate IsDurationString(s: string) {
    |s| >= 2 && AllDigits(s[..|s| - 1]) && IsUnit(s[|s| - 1])
  }

  /** The number of seconds one unit stands for. */
  function UnitSeconds(c: char): nat {
    match c
    case 's' => 1
    case 'm' => 60
    case 'h' => 3600
    case 'd' => 86400
    case _ => 60
  }

  /** The regular expression matches exactly the duration strings, and splits them at the unit letter. */
  lemma MatchDurationIff(s: string)
    ensures MatchDuration(s).Some? <==> IsDurationString(s)
    ensures MatchDuration(s).Some? ==>
      MatchDuration(s).value == DurationMatch(s[..|s| - 1], [s[|s| - 1]])
  {
    if IsDurationString(s) {
      assert forall k :: 0 <= k < |s| - 1 ==> s[..|s| - 1][k] == s[k];
    }
  }

  /** The table `{ s: 1, m: 60, h: 3600, d: 86400 }`, indexed by the unit string. */
  const Multipliers: map<string, nat> := map["s" := 1, "m" := 60, "h" := 3600, "d" := 86400]

  /** `record[key] ?? fallback`. */
  function LookupOr(table: map<string, nat>, key: string, fallback: nat): nat {
    if key in table then table[key] else fallback
  }

  /** `AuthService.parseExpiresIn`: seconds for a duration string, 900 for anything else. */
  function ParseExpiresIn(expiresIn: string): nat {
    match MatchDuration(expiresIn)
    case None => 900
    case Some(m) =>
      MatchDurationIff(expiresIn);
      DigitsValue(m.digits) * LookupOr(Multipliers, m.unit, 60)
  }

  /**
   * What `parseExpiresIn` computes: digits times the unit's seconds for a
   * duration string, and the 15-minute default for every other string.
   */
  lemma ParseExpiresInMeaning(s: string)
    ensures IsDurationString(s) ==>
      ParseExpiresIn(s) == DigitsValue(s[..|s| - 1]) * UnitSeconds(s[|s| - 1])
    ensures !IsDurationString(s) ==> ParseExpiresIn(s) == 900
  {
    MatchDurationIff(s);
  }

  /** The configured defaults: `15m` is 900 seconds and `7d` is 604800 seconds. */
  lemma DefaultDurations()
    ensures ParseExpiresIn("15m") == 900
    ensures ParseExpiresIn("7d") == 604800
  {
    ParseExpiresInMeaning("15m");
    ParseExpiresInMeaning("7d");
    assert "15m"[..2] == "15";
    assert "15"[..1] == "1";
    assert "7d"[..1] == "7";
  }

  /**
   * The inline computation of the JWT module factory:
   * `match ? parseInt(match[1], 10) * (mult[match[2] ?? 'm'] ?? 60) : 900`.
   */
  function FactorySeconds(raw: string): nat {
    var m := MatchDuration(raw);
    if m.None? then 900
    else
      MatchDurationIff(raw);
      var group2: Option<string> := Some(m.value.unit);
      DigitsValue(m.value.digits) * LookupOr(Multipliers, group2.GetOr("m"), 60)
  }

  /** The two copies of the duration computation agree on every string. */
  lemma FactoryAgreesWithParseExpiresIn(raw: string)
    ensures FactorySeconds(raw) == ParseExpiresIn(raw)
  {
  }

  /** The options the JWT module factory returns. */
  datatype JwtModuleOptions = JwtModuleOptions(secret: Option<string>, expiresIn: nat)

  /** `JwtModule.registerAsync`'s factory over the configuration. */
  function JwtModuleFactory(config: map<string, string>): (o: JwtModuleOptions)
    ensures o.secret == ConfigLookup(config, "JWT_ACCESS_SECRET")
    ensures o.expiresIn == ParseExpiresIn(ConfigGet(config, "JWT_ACCESS_EXPIRES_IN", "15m"))
    ensures "JWT_ACCESS_EXPIRES_IN" !in config ==> o.expiresIn == 900
  {
    DefaultDurations();
    var raw := ConfigGet(config, "JWT_ACCESS_EXPIRES_IN", "15m");
    JwtModuleOptions(ConfigLookup(config, "JWT_ACCESS_SECRET"), FactorySeconds(raw))
  }
}
