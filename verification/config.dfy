/**
 * The backend's configuration: every setting is read from the environment
 * with a fallback default. The environment is a map from variable names to
 * values; `Getenv` answers "" for an unset variable, as `os.Getenv` does.
 * Go's `int` is 64 bits wide here.
 */
module Config {
  import opened Wrappers
  import opened Decimal

  type Env = map<string, string>

  const MinInt64: int := -0x8000_0000_0000_0000
  const MaxInt64: int := 0x7FFF_FFFF_FFFF_FFFF

  predicate InInt64(n: int) {
    MinInt64 <= n <= MaxInt64
  }

  function Getenv(env: Env, key: string): string {
    if key in env then env[key] else ""
  }

  /** `getEnv`: the value when set and non-empty, else the default. */
  function GetEnv(env: Env, key: string, defaultValue: string): (v: string)
    ensures v == defaultValue || (key in env && v == env[key] != "")
    ensures key in env && env[key] != "" ==> v == env[key]
  {
    var value := Getenv(env, key);
    if value != "" then value else defaultValue
  }

  /** An empty value counts as unset. */
  lemma EmptyIsUnset(env: Env, key: string, defaultValue: string)
    ensures GetEnv(env[key := ""], key, defaultValue) == GetEnv(env - {key}, key, defaultValue) == defaultValue
  {
  }

  /**
   * `strconv.Atoi`: an optional sign and one or more ASCII digits, whose
   * value must fit in 64 bits; anything else is an error (`None`).
   */
  function Atoi(s: string): (r: Option<int>)
    ensures r.Some? ==> InInt64(r.value)
  {
    if |s| == 0 then None
    else
      var digits := if IsSign(s[0]) then s[1..] else s;
      if |digits| == 0 || !AllDigits(digits) then None
      else
        var v: int := if s[0] == '-' then -(Value(digits) as int) else Value(digits);
        if InInt64(v) then Some(v) else None
  }

  /** `strconv.Itoa`. */
  function FormatInt(n: int): (s: string)
    ensures |s| >= 1
  {
    if n < 0 then "-" + FromNat(-n) else FromNat(n)
  }

  /** Atoi reads back what Itoa writes, for every 64-bit integer. */
  lemma AtoiFormatInt(n: int)
    requires InInt64(n)
    ensures Atoi(FormatInt(n)) == Some(n)
  {
    var s := FormatInt(n);
    if n < 0 {
      assert s[1..] == FromNat(-n);
    } else {
      assert !IsSign(s[0]);
    }
  }

  /** What Atoi accepts is a sign and digits, and the value is theirs. */
  lemma AtoiAccepts(s: string)
    requires Atoi(s).Some?
    ensures var digits := if IsSign(s[0]) then s[1..] else s;
      && |digits| >= 1 && AllDigits(digits)
      && Atoi(s).value == (if s[0] == '-' then -(Value(digits) as int) else Value(digits))
  {
  }

  /** Values out of the 64-bit range are rejected. */
  lemma AtoiRejectsOverflow(digits: string)
    requires |digits| >= 1 && AllDigits(digits) && Value(digits) > MaxInt64
    ensures Atoi(digits) == None
  {
    assert !IsSign(digits[0]);
  }

  /** `getEnvInt`: the parsed value when set, non-empty and parsable, else the default. */
  function GetEnvInt(env: Env, key: string, defaultValue: int): (v: int)
    ensures key in env && Atoi(env[key]).Some? ==> v == Atoi(env[key]).value
    ensures !(key in env && Atoi(env[key]).Some?) ==> v == defaultValue
  {
    var value := Getenv(env, key);
    if value != "" then
      match Atoi(value)
      case Some(n) => n
      case None => defaultValue
    else defaultValue
  }

  /** Any 64-bit integer written to the variable is read back, negative ones included. */
  lemma GetEnvIntReadsBack(env: Env, key: string, n: int, defaultValue: int)
    requires InInt64(n)
    ensures GetEnvInt(env[key := FormatInt(n)], key, defaultValue) == n
  {
    AtoiFormatInt(n);
  }

  const DefaultRateLimitRequests := 1000
  const DefaultRateLimitWindow := 3600
  const DefaultMaxOpenConns := 25
  const DefaultMaxIdleConns := 5
  const DefaultConnMaxLifetime := 300

  /** Nanoseconds in one second: `time.Second`. */
  const Second := 1_000_000_000

  /** Go's 64-bit multiplication wraps around. */
  function WrapInt64(x: int): (w: int)
    ensures InInt64(w)
    ensures (w - x) % 0x1_0000_0000_0000_0000 == 0
    ensures InInt64(x) ==> w == x
  {
    (x - MinInt64) % 0x1_0000_0000_0000_0000 + MinInt64
  }

  /** `time.Duration(seconds) * time.Second`, in nanoseconds. */
  function Seconds(seconds: int): (d: int)
    requires InInt64(seconds)
    ensures InInt64(d)
  {
    WrapInt64(seconds * Second)
  }

  /** Within about 292 years the duration is exact. */
  lemma SecondsExact(seconds: int)
    requires -9_223_372_036 <= seconds <= 9_223_372_036
    ensures Seconds(seconds) == seconds * 1_000_000_000
  {
  }

  datatype DatabaseConfig = DatabaseConfig(
    host: string, port: string, user: string, password: string, name: string, sslMode: string,
    maxOpenConns: int, maxIdleConns: int, connMaxLifetime: int)

  datatype Config = Config(
    allowedOrigins: seq<string>,
    database: DatabaseConfig,
    port: string, env: string, databaseURL: string, testDatabaseURL: string, redisURL: string,
    awsRegion: string, awsAccessKeyID: string, awsSecretAccessKey: string,
    cognitoUserPoolID: string, cognitoClientID: string, cognitoRegion: string,
    jwtSecret: string, logLevel: string, logFormat: string, maxFileSize: string, uploadPath: string,
    rateLimitRequests: int, rateLimitWindow: int)

  /** The origin list: the raw value as the single element, commas included, or nothing. */
  function AllowedOrigins(env: Env): (origins: seq<string>)
    ensures |origins| <= 1
    ensures origins == [] <==> Getenv(env, "ALLOWED_ORIGINS") == ""
    ensures origins != [] ==> origins[0] == env["ALLOWED_ORIGINS"]
  {
    var raw := GetEnv(env, "ALLOWED_ORIGINS", "");
    if raw != "" then [raw] else []
  }

  /** `Load`; it never fails. */
  function Load(env: Env): (r: Result<Config, string>)
    ensures r.Success?
    ensures r.value.allowedOrigins == AllowedOrigins(env)
  {
    var lifetime := GetEnvInt(env, "DB_CONN_MAX_LIFETIME", DefaultConnMaxLifetime);
    assert InInt64(lifetime);
    Success(Config(
      AllowedOrigins(env),
      DatabaseConfig(
        GetEnv(env, "DB_HOST", "localhost"),
        GetEnv(env, "DB_PORT", "5432"),
        GetEnv(env, "DB_USER", "crewee"),
        GetEnv(env, "DB_PASSWORD", "password"),
        GetEnv(env, "DB_NAME", "crewee_dev"),
        GetEnv(env, "DB_SSL_MODE", "disable"),
        GetEnvInt(env, "DB_MAX_OPEN_CONNS", DefaultMaxOpenConns),
        GetEnvInt(env, "DB_MAX_IDLE_CONNS", DefaultMaxIdleConns),
        Seconds(lifetime)),
      GetEnv(env, "PORT", "8080"),
      GetEnv(env, "ENV", "development"),
      GetEnv(env, "DATABASE_URL", ""),
      GetEnv(env, "TEST_DATABASE_URL", ""),
      GetEnv(env, "REDIS_URL", ""),
      GetEnv(env, "AWS_REGION", "ap-northeast-1"),
      GetEnv(env, "AWS_ACCESS_KEY_ID", ""),
      GetEnv(env, "AWS_SECRET_ACCESS_KEY", ""),
      GetEnv(env, "COGNITO_USER_POOL_ID", ""),
      GetEnv(env, "COGNITO_CLIENT_ID", ""),
      GetEnv(env, "COGNITO_REGION", "ap-northeast-1"),
      GetEnv(env, "JWT_SECRET", ""),
      GetEnv(env, "LOG_LEVEL", "info"),
      GetEnv(env, "LOG_FORMAT", "json"),
      GetEnv(env, "MAX_FILE_SIZE", "10MB"),
      GetEnv(env, "UPLOAD_PATH", "./tmp/uploads"),
      GetEnvInt(env, "RATE_LIMIT_REQUESTS", DefaultRateLimitRequests),
      GetEnvInt(env, "RATE_LIMIT_WINDOW", DefaultRateLimitWindow)))
  }

  /** With nothing set, every field takes its declared default. */
  lemma EmptyEnvironmentDefaults()
    ensures var c := Load(map[]).value;
      && c.allowedOrigins == []
      && c.database == DatabaseConfig("localhost", "5432", "crewee", "password", "crewee_dev", "disable",
                                      25, 5, 300 * 1_000_000_000)
      && c.port == "8080" && c.env == "development"
      && c.databaseURL == "" && c.testDatabaseURL == "" && c.redisURL == ""
      && c.awsRegion == "ap-northeast-1" && c.awsAccessKeyID == "" && c.awsSecretAccessKey == ""
      && c.cognitoUserPoolID == "" && c.cognitoClientID == "" && c.cognitoRegion == "ap-northeast-1"
      && c.jwtSecret == "" && c.logLevel == "info" && c.logFormat == "json"
      && c.maxFileSize == "10MB" && c.uploadPath == "./tmp/uploads"
      && c.rateLimitRequests == 1000 && c.rateLimitWindow == 3600
  {
    SecondsExact(300);
  }

  /** The connection lifetime is the configured number of seconds, read back from any written integer. */
  lemma LifetimeIsSeconds(env: Env, n: int)
    requires -9_223_372_036 <= n <= 9_223_372_036
    ensures Load(env["DB_CONN_MAX_LIFETIME" := FormatInt(n)]).value.database.connMaxLifetime == n * 1_000_000_000
  {
    GetEnvIntReadsBack(env, "DB_CONN_MAX_LIFETIME", n, DefaultConnMaxLifetime);
    SecondsExact(n);
  }
}
