/** The configuration rules of src/bin/simple_env.rs. */
module SimpleEnv {
  import opened Wrappers
  import opened Decimal
  import opened Text
  import opened Environment

  /** The settings `main` reads before building an AppConfig. */
  datatype MainSettings = MainSettings(
    port: string,
    portNumber: u16,
    databaseUrl: Option<string>,
    debugMode: bool)

  datatype AppConfig = AppConfig(
    databaseUrl: string,
    dbPoolSize: u32,
    host: string,
    port: u16,
    debugMode: bool,
    logLevel: string,
    apiKey: Option<string>,
    jwtSecret: Option<string>)

  lemma DefaultTexts()
    ensures DecimalString(3000) == "3000"
    ensures DecimalString(8080) == "8080"
    ensures DecimalString(10) == "10"
  {
  }

  /** The PORT, DATABASE_URL and DEBUG reads at the top of `main`. */
  function MainSettingsFromEnv(env: Env): (m: MainSettings)
    ensures m.port == if Var(env, "PORT").Ok? then Var(env, "PORT").value else "3000"
    ensures m.portNumber == Setting(env, "PORT", U16_MAX, 3000)
    ensures m.databaseUrl.Some? <==> Var(env, "DATABASE_URL").Ok?
    ensures m.debugMode <==> Unicode("DEBUG") in env && env[Unicode("DEBUG")] in {Unicode("true"), Unicode("1")}
  {
    DefaultTexts();
    ParsedOrIsSetting(env, "PORT", U16_MAX, 3000);
    MainSettings(
      VarOr(env, "PORT", "3000"),
      ParsedOr(env, "PORT", "3000", U16_MAX, 3000),
      VarOk(env, "DATABASE_URL"),
      Flag(env, "DEBUG"))
  }

  /** `AppConfig::from_env`. */
  function AppConfigFromEnv(env: Env): (c: AppConfig)
    ensures c.databaseUrl == VarOr(env, "DATABASE_URL", "postgres://localhost:5432/myapp")
    ensures c.dbPoolSize == Setting(env, "DB_POOL_SIZE", U32_MAX, 10)
    ensures c.host == VarOr(env, "HOST", "127.0.0.1")
    ensures c.port == Setting(env, "PORT", U16_MAX, 8080)
    ensures c.debugMode <==> Unicode("DEBUG") in env && env[Unicode("DEBUG")] in {Unicode("true"), Unicode("1")}
    ensures c.logLevel == VarOr(env, "LOG_LEVEL", "info")
    ensures c.apiKey.None? <==> Var(env, "API_KEY").Err?
    ensures c.apiKey.Some? ==> env[Unicode("API_KEY")] == Unicode(c.apiKey.value)
    ensures c.jwtSecret.None? <==> Var(env, "JWT_SECRET").Err?
    ensures c.jwtSecret.Some? ==> env[Unicode("JWT_SECRET")] == Unicode(c.jwtSecret.value)
  {
    DefaultTexts();
    ParsedOrIsSetting(env, "DB_POOL_SIZE", U32_MAX, 10);
    ParsedOrIsSetting(env, "PORT", U16_MAX, 8080);
    AppConfig(
      VarOr(env, "DATABASE_URL", "postgres://localhost:5432/myapp"),
      ParsedOr(env, "DB_POOL_SIZE", "10", U32_MAX, 10),
      VarOr(env, "HOST", "127.0.0.1"),
      ParsedOr(env, "PORT", "8080", U16_MAX, 8080),
      Flag(env, "DEBUG"),
      VarOr(env, "LOG_LEVEL", "info"),
      VarOk(env, "API_KEY"),
      VarOk(env, "JWT_SECRET"))
  }

  /**
   * `main` and AppConfig read PORT with different defaults: they agree when
   * PORT holds a valid u16 and otherwise give 3000 and 8080.
   */
  lemma PortDefaultsDiffer(env: Env)
    ensures var valid := Var(env, "PORT").Ok? && ParseUnsigned(Var(env, "PORT").value, U16_MAX).Ok?;
      && (valid ==> MainSettingsFromEnv(env).portNumber == AppConfigFromEnv(env).port)
      && (!valid ==> MainSettingsFromEnv(env).portNumber == 3000 && AppConfigFromEnv(env).port == 8080)
  {
  }

  /** Without any variable set, every field takes its default. */
  lemma EmptyEnvironmentDefaults()
    ensures AppConfigFromEnv(map[]) == AppConfig(
      "postgres://localhost:5432/myapp", 10, "127.0.0.1", 8080, false, "info", None, None)
    ensures MainSettingsFromEnv(map[]) == MainSettings("3000", 3000, None, false)
  {
  }

  /** Why slicing a `str` panics: the byte index is inside a character. */
  datatype SlicePanic = NotCharBoundary(index: nat)

  /** The bytes of "***" and of "...". */
  const STARS: seq<Byte> := [0x2A, 0x2A, 0x2A]
  const DOTS: seq<Byte> := [0x2E, 0x2E, 0x2E]

  /**
   * `AppConfig::mask_sensitive` on the UTF-8 bytes `s` of its argument:
   * strings of up to 10 bytes become "***"; longer ones keep their first 5
   * and last 3 bytes around "...", and panic when either cut falls inside a
   * character (`&s[..5]` is taken first).
   */
  function MaskSensitive(s: seq<Byte>): (r: Result<seq<Byte>, SlicePanic>)
    ensures |s| <= 10 ==> r == Ok(STARS)
    ensures |s| > 10 && r.Ok? ==>
      |r.value| == 11 && r.value[..5] == s[..5] && r.value[5..8] == DOTS && r.value[8..] == s[|s| - 3..]
    ensures r.Err? <==> |s| > 10 && !(IsCharBoundary(s, 5) && IsCharBoundary(s, |s| - 3))
    ensures r.Err? ==> r.error == if IsCharBoundary(s, 5) then NotCharBoundary(|s| - 3) else NotCharBoundary(5)
  {
    if |s| > 10 then
      if !IsCharBoundary(s, 5) then Err(NotCharBoundary(5))
      else if !IsCharBoundary(s, |s| - 3) then Err(NotCharBoundary(|s| - 3))
      else Ok(s[..5] + DOTS + s[|s| - 3..])
    else Ok(STARS)
  }

  /** Cuts between characters never panic: an ASCII string is always masked. */
  lemma MaskSensitiveAscii(s: string)
    requires IsAscii(s)
    ensures MaskSensitive(Utf8(s)).Ok?
    ensures |s| > 10 ==> |MaskSensitive(Utf8(s)).value| == 11
    ensures |s| <= 10 ==> MaskSensitive(Utf8(s)).value == STARS
  {
    Utf8OfAscii(s);
  }

  /** A non-ASCII string whose sixth byte is inside a character makes the mask panic. */
  lemma MaskSensitivePanicsInsideCharacter()
    ensures MaskSensitive(Utf8("abcdéfghijk")) == Err(NotCharBoundary(5))
  {
  }
}
