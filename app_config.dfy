/** Application configuration assembled from the process environment, held
    in a lazily created single instance. The environment is a map from
    variable names to values; a variable counts as set only when it is in
    the map with a non-empty value, as the source tests values for truth. */
module AppConfig {
  import opened Wrappers
  import opened Strings
  import opened JsNumber

  type Env = map<string, string>

  /** `process.env[k]` is truthy. */
  predicate Present(env: Env, k: string) {
    k in env && env[k] != ""
  }

  /** `process.env[k] || fallback`. */
  function Or(env: Env, k: string, fallback: string): (v: string)
    ensures Present(env, k) ==> v == env[k]
    ensures !Present(env, k) ==> v == fallback
  {
    if Present(env, k) then env[k] else fallback
  }

  // ---------------------------------------------------------------------
  // Required variables

  const RequiredEnvs: seq<string> := ["DATABASE_URL", "JWT_SECRET", "ALLOWED_HOSTS", "API_URL"]

  /** `names.filter((k) => !process.env[k])`. */
  function MissingOf(names: seq<string>, env: Env): (m: seq<string>)
    ensures |m| <= |names|
  {
    if |names| == 0 then []
    else if !Present(env, names[0]) then [names[0]] + MissingOf(names[1..], env)
    else MissingOf(names[1..], env)
  }

  function Missing(env: Env): seq<string> {
    MissingOf(RequiredEnvs, env)
  }

  /** Exactly the unset names are missing. */
  lemma {:induction false} MissingOfIff(names: seq<string>, env: Env, k: string)
    ensures k in MissingOf(names, env) <==> k in names && !Present(env, k)
  {
    if |names| > 0 {
      MissingOfIff(names[1..], env, k);
      assert names == [names[0]] + names[1..];
    }
  }

  /** Filtering distributes over concatenation: the unset names of an
      earlier part of the list come before those of a later part. */
  lemma {:induction false} MissingOfConcat(p: seq<string>, q: seq<string>, env: Env)
    ensures MissingOf(p + q, env) == MissingOf(p, env) + MissingOf(q, env)
    decreases |p|
  {
    if |p| == 0 {
      assert p + q == q;
    } else {
      assert (p + q)[1..] == p[1..] + q;
      MissingOfConcat(p[1..], q, env);
    }
  }

  /** The message of `validateEnv`'s error. */
  function MissingMessage(missing: seq<string>): string {
    "Missing environment variables: " + Join(missing, ", ")
  }

  /** `validateEnv`: fails exactly when a required variable is unset, naming
      all unset ones in the order of `RequiredEnvs`. */
  function ValidateEnv(env: Env): (r: Result<()>)
    ensures r.Err? <==> exists k :: k in RequiredEnvs && !Present(env, k)
    ensures r.Err? ==> r.message == MissingMessage(Missing(env))
  {
    var missing := Missing(env);
    if |missing| > 0 then
      MissingOfIff(RequiredEnvs, env, missing[0]);
      Err(MissingMessage(missing))
    else
      assert forall k :: k in RequiredEnvs ==> Present(env, k) by {
        forall k | k in RequiredEnvs ensures Present(env, k) {
          MissingOfIff(RequiredEnvs, env, k);
        }
      }
      Ok(())
  }

  /** `validateEnv` reports the unset required names in `RequiredEnvs` order:
      whenever `RequiredEnvs` is `p + q`, the unset names of `p` come first. */
  lemma MissingReported(env: Env, p: seq<string>, q: seq<string>)
    requires RequiredEnvs == p + q
    ensures Missing(env) == MissingOf(p, env) + MissingOf(q, env)
    ensures forall k :: k in Missing(env) <==> k in RequiredEnvs && !Present(env, k)
  {
    MissingOfConcat(p, q, env);
    forall k
      ensures k in Missing(env) <==> k in RequiredEnvs && !Present(env, k)
    {
      MissingOfIff(RequiredEnvs, env, k);
    }
  }

  /** An environment with only `DATABASE_URL` and `API_URL` set. */
  const PartialEnv: Env := map["DATABASE_URL" := "postgres://db", "API_URL" := "https://api"]

  lemma PartialEnvMissing()
    ensures Missing(PartialEnv) == ["JWT_SECRET", "ALLOWED_HOSTS"]
  {
    var env := PartialEnv;
    assert Present(env, "DATABASE_URL") && Present(env, "API_URL");
    assert !Present(env, "JWT_SECRET") && !Present(env, "ALLOWED_HOSTS");
    var names := RequiredEnvs;
    assert names[1..] == ["JWT_SECRET", "ALLOWED_HOSTS", "API_URL"];
    assert names[1..][1..] == ["ALLOWED_HOSTS", "API_URL"];
    assert names[1..][1..][1..] == ["API_URL"];
    assert MissingOf(["API_URL"], env) == [];
    assert MissingOf(["ALLOWED_HOSTS", "API_URL"], env) == ["ALLOWED_HOSTS"];
    assert MissingOf(["JWT_SECRET", "ALLOWED_HOSTS", "API_URL"], env) == ["JWT_SECRET", "ALLOWED_HOSTS"];
  }

  lemma JoinPair(a: string, b: string)
    ensures Join([a, b], ", ") == a + ", " + b
  {
    assert [a, b][1..] == [b];
  }

  /** The two unset names are reported, in order. */
  lemma ValidateEnvExample()
    ensures ValidateEnv(PartialEnv) == Err("Missing environment variables: " + "JWT_SECRET, ALLOWED_HOSTS")
  {
    PartialEnvMissing();
    JoinPair("JWT_SECRET", "ALLOWED_HOSTS");
    assert "JWT_SECRET" + ", " + "ALLOWED_HOSTS" == "JWT_SECRET, ALLOWED_HOSTS";
  }

  /** `getRequiredEnv(key, force)`: the value when set; otherwise an error
      when `force`, otherwise `""`. */
  function GetRequiredEnv(env: Env, key: string, force: bool): (r: Result<string>)
    ensures Present(env, key) ==> r == Ok(env[key])
    ensures !Present(env, key) && force ==> r == Err("Missing environment variable: " + key)
    ensures !Present(env, key) && !force ==> r == Ok("")
  {
    if force && !Present(env, key) then Err("Missing environment variable: " + key)
    else Ok(Or(env, key, ""))
  }

  /** The value of `getRequiredEnv(key)` without `force`, which cannot fail. */
  function Optional(env: Env, key: string): (v: string)
    ensures GetRequiredEnv(env, key, false) == Ok(v)
  {
    Or(env, key, "")
  }

  // ---------------------------------------------------------------------
  // Lists

  /** `s.split(",").map((x) => x.trim())`. */
  function ParseList(s: string): (r: seq<string>)
    ensures |r| == |Split(s, ',')|
    ensures forall k :: 0 <= k < |r| ==> r[k] == Trim(Split(s, ',')[k])
  {
    seq(|Split(s, ',')|, k requires 0 <= k < |Split(s, ',')| => Trim(Split(s, ',')[k]))
  }

  /** One entry per comma-separated piece, each the trimmed piece. */
  lemma ParseListShape(s: string)
    ensures |ParseList(s)| == Count(s, ',') + 1
    ensures Join(Split(s, ','), ",") == s
    ensures forall k :: 0 <= k < |ParseList(s)| ==> ',' !in Split(s, ',')[k]
  {
    SplitShape(s, ',');
    JoinSplit(s, ',');
    assert [','] == ",";
  }

  /** Joining already-trimmed, comma-free entries with `,` parses back to them. */
  lemma ParseListJoin(xs: seq<string>)
    requires |xs| > 0
    requires forall k :: 0 <= k < |xs| ==> ',' !in xs[k] && Trim(xs[k]) == xs[k]
    ensures ParseList(Join(xs, ",")) == xs
  {
    assert [','] == ",";
    SplitJoin(xs, ',');
  }

  /** `parseCorsOrigins`: the trimmed pieces of `CORS_ORIGINS`, or `["*"]` when unset. */
  function ParseCorsOrigins(env: Env): (r: seq<string>)
    ensures !Present(env, "CORS_ORIGINS") ==> r == ["*"]
    ensures Present(env, "CORS_ORIGINS") ==>
      r == ParseList(env["CORS_ORIGINS"]) && |r| == Count(env["CORS_ORIGINS"], ',') + 1
  {
    var origins := Or(env, "CORS_ORIGINS", "*");
    ParseListShape(origins);
    if Present(env, "CORS_ORIGINS") then ParseList(origins)
    else
      ParseListStar();
      ParseList(origins)
  }

  lemma ParseListStar()
    ensures ParseList("*") == ["*"]
  {
    assert LenUntil("*", ',') == 1;
    assert Split("*", ',') == ["*"];
    TrimNoop("*");
  }

  /** `parseAllowedHosts`: the trimmed pieces of `ALLOWED_HOSTS` (one empty
      entry when unset). */
  function ParseAllowedHosts(env: Env): (r: seq<string>)
    ensures r == ParseList(Optional(env, "ALLOWED_HOSTS"))
    ensures |r| == Count(Optional(env, "ALLOWED_HOSTS"), ',') + 1
    ensures !Present(env, "ALLOWED_HOSTS") ==> r == [""]
  {
    var hosts := Optional(env, "ALLOWED_HOSTS");
    ParseListShape(hosts);
    assert !Present(env, "ALLOWED_HOSTS") ==> Split("", ',') == [""] && Trim("") == "";
    ParseList(hosts)
  }

  /** `parseLogLevel`: `LOG_LEVEL` as given, unchecked, or `"info"` when unset. */
  function ParseLogLevel(env: Env): (level: string)
    ensures level != ""
    ensures Present(env, "LOG_LEVEL") ==> level == env["LOG_LEVEL"]
    ensures !Present(env, "LOG_LEVEL") ==> level == "info"
  {
    Or(env, "LOG_LEVEL", "info")
  }

  // ---------------------------------------------------------------------
  // Options

  datatype Database = Database(url: string, poolSize: Number)
  datatype Security = Security(jwtSecret: string, corsOrigins: seq<string>, allowedHosts: seq<string>)
  datatype Server = Server(port: Number, apiUrl: string, logLevel: string)
  datatype Options = Options(database: Database, security: Security, server: Server)

  /** `parseInt("10")` is 10. */
  lemma ParseTen()
    ensures ParseInt("10") == Num(10)
  {
    assert Decimal(10) == "10";
    ParseIntDecimal(10);
  }

  /** `parseInt(process.env.DATABASE_POOL_SIZE || "10")`. */
  function PoolSize(env: Env): (n: Number)
    ensures !Present(env, "DATABASE_POOL_SIZE") ==> n == Num(10)
    ensures Present(env, "DATABASE_POOL_SIZE") ==> n == ParseInt(env["DATABASE_POOL_SIZE"])
  {
    ParseTen();
    ParseInt(Or(env, "DATABASE_POOL_SIZE", "10"))
  }

  /** `process.env.PORT ? parseInt(process.env.PORT) : 3000`. */
  function Port(env: Env): (n: Number)
    ensures !Present(env, "PORT") ==> n == Num(3000)
    ensures Present(env, "PORT") ==> n == ParseInt(env["PORT"])
  {
    if Present(env, "PORT") then ParseInt(env["PORT"]) else Num(3000)
  }

  /** `loadOptions`: validate, then read every field. */
  function LoadOptions(env: Env): (r: Result<Options>)
    ensures r.Err? <==> ValidateEnv(env).Err?
    ensures r.Err? ==> r.message == ValidateEnv(env).message
  {
    match ValidateEnv(env)
    case Err(m) => Err(m)
    case Ok(_) =>
      match GetRequiredEnv(env, "DATABASE_URL", true)
      case Err(m) => assert false; Err(m)
      case Ok(url) =>
        match GetRequiredEnv(env, "JWT_SECRET", true)
        case Err(m) => assert false; Err(m)
        case Ok(secret) =>
          Ok(Options(
            Database(url, PoolSize(env)),
            Security(secret, ParseCorsOrigins(env), ParseAllowedHosts(env)),
            Server(Port(env), Optional(env, "API_URL"), Or(env, "LOG_LEVEL", "info"))))
  }

  /** The two modes of `getRequiredEnv` agree: without `force` it never fails
      and yields `""` exactly for an unset variable; with `force` it fails
      exactly for an unset variable and otherwise yields the same value. */
  lemma GetRequiredEnvModes(env: Env, key: string)
    ensures GetRequiredEnv(env, key, false).Ok?
    ensures GetRequiredEnv(env, key, false) == Ok("") <==> !Present(env, key)
    ensures GetRequiredEnv(env, key, true).Err? <==> !Present(env, key)
    ensures GetRequiredEnv(env, key, true).Ok? ==>
      GetRequiredEnv(env, key, true) == GetRequiredEnv(env, key, false)
  {
  }

  /** With every required variable set and the optional ones unset, loading
      succeeds with the defaults written in `loadOptions`: port 3000, log
      level `info`, any origin, and a pool of 10. */
  lemma LoadOptionsDefaults(env: Env)
    requires forall k :: k in RequiredEnvs ==> Present(env, k)
    requires !Present(env, "PORT") && !Present(env, "LOG_LEVEL")
    requires !Present(env, "CORS_ORIGINS") && !Present(env, "DATABASE_POOL_SIZE")
    ensures LoadOptions(env).Ok?
    ensures var o := LoadOptions(env).value;
      && o.server.port == Num(3000)
      && o.server.logLevel == "info"
      && o.security.corsOrigins == ["*"]
      && o.database.poolSize == Num(10)
  {
    assert ValidateEnv(env).Ok?;
    LoadOptionsFields(env);
  }

  /** Once validated, every required variable is set. */
  lemma RequiredPresent(env: Env)
    requires ValidateEnv(env).Ok?
    ensures Present(env, "DATABASE_URL") && Present(env, "JWT_SECRET")
    ensures Present(env, "ALLOWED_HOSTS") && Present(env, "API_URL")
  {
    assert "DATABASE_URL" in RequiredEnvs && "JWT_SECRET" in RequiredEnvs;
    assert "ALLOWED_HOSTS" in RequiredEnvs && "API_URL" in RequiredEnvs;
  }

  /** A loaded configuration carries the required values as given, and
      each optional field as read, with its default when unset. */
  lemma LoadOptionsFields(env: Env)
    requires LoadOptions(env).Ok?
    ensures var o := LoadOptions(env).value;
      && o.database.url == env["DATABASE_URL"]
      && o.security.jwtSecret == env["JWT_SECRET"]
      && o.server.apiUrl == env["API_URL"]
      && o.security.allowedHosts == ParseList(env["ALLOWED_HOSTS"])
      && o.security.corsOrigins == ParseCorsOrigins(env)
      && o.database.poolSize == PoolSize(env)
      && o.server.port == Port(env)
      && o.server.logLevel == ParseLogLevel(env)
  {
    RequiredPresent(env);
  }

  // ---------------------------------------------------------------------
  // Environment

  /** `environment`: `NODE_ENV` as given, unchecked, or `"development"` when unset. */
  function Environment(env: Env): (e: string)
    ensures e != ""
    ensures Present(env, "NODE_ENV") ==> e == env["NODE_ENV"]
    ensures !Present(env, "NODE_ENV") ==> e == "development"
  {
    Or(env, "NODE_ENV", "development")
  }

  predicate IsDevelopment(env: Env) {
    Environment(env) == "development"
  }

  predicate IsProduction(env: Env) {
    Environment(env) == "production"
  }

  predicate IsStaging(env: Env) {
    Environment(env) == "staging"
  }

  /** At most one of the three holds, and exactly one when the environment
      is one of the three names; an unset `NODE_ENV` is development. */
  lemma EnvironmentExclusive(env: Env)
    ensures !(IsDevelopment(env) && IsProduction(env))
    ensures !(IsDevelopment(env) && IsStaging(env))
    ensures !(IsProduction(env) && IsStaging(env))
    ensures Environment(env) in ["development", "production", "staging"] <==>
      IsDevelopment(env) || IsProduction(env) || IsStaging(env)
    ensures !Present(env, "NODE_ENV") ==> IsDevelopment(env)
  {
  }

  // ---------------------------------------------------------------------
  // The single instance

  class AppConfig {
    /** Set once, at construction. */
    const config: Options

    constructor (config: Options)
      ensures this.config == config
    {
      this.config := config;
    }
  }

  /** The static side of `AppConfig`: the one stored instance, if any. */
  class AppConfigStatics {
    var instance: AppConfig?

    constructor ()
      ensures instance == null
    {
      instance := null;
    }

    /** `getInstance`: constructs from the environment on the first
        successful call and returns the stored instance from then on. A
        failed construction throws and stores nothing. */
    method GetInstance(env: Env) returns (r: Result<AppConfig>)
      modifies this
      ensures old(instance) != null ==> r == Ok(old(instance)) && instance == old(instance)
      ensures old(instance) == null && LoadOptions(env).Err? ==>
        r == Err(LoadOptions(env).message) && instance == null
      ensures old(instance) == null && LoadOptions(env).Ok? ==>
        r.Ok? && fresh(r.value) && r.value.config == LoadOptions(env).value && instance == r.value
    {
      if instance == null {
        match LoadOptions(env)
        case Err(m) =>
          return Err(m);
        case Ok(options) =>
          instance := new AppConfig(options);
      }
      r := Ok(instance);
    }
  }

  /** Two calls return the same object, built from the environment of the
      first call; the second call's environment is not read. */
  method GetInstanceTwice(statics: AppConfigStatics, env1: Env, env2: Env) returns (a: Result<AppConfig>, b: Result<AppConfig>)
    requires statics.instance == null
    modifies statics
    ensures a.Ok? <==> LoadOptions(env1).Ok?
    ensures a.Ok? ==> b == a && a.value.config == LoadOptions(env1).value
  {
    a := statics.GetInstance(env1);
    b := statics.GetInstance(env2);
  }
}
