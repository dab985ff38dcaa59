/**
 * The process environment as an immutable snapshot, and the lookup idioms
 * of `std::env` that the configuration code is built from.
 */
module Environment {
  import opened Wrappers
  import opened Decimal
  import opened Text

  /** A name or value of the environment: text, or bytes that are not valid Unicode. */
  datatype OsString = Unicode(text: string) | NonUnicode(bytes: seq<Byte>)

  type Env = map<OsString, OsString>

  /** `std::env::VarError`. */
  datatype VarError = NotPresent | NotUnicode(bytes: seq<Byte>)

  /** `env::var(key)`. */
  function Var(env: Env, key: string): (r: Result<string, VarError>)
    ensures r.Ok? <==> Unicode(key) in env && env[Unicode(key)].Unicode?
    ensures r.Ok? ==> env[Unicode(key)] == Unicode(r.value)
    ensures r == Err(NotPresent) <==> Unicode(key) !in env
  {
    if Unicode(key) !in env then Err(NotPresent)
    else
      match env[Unicode(key)]
      case Unicode(t) => Ok(t)
      case NonUnicode(b) => Err(NotUnicode(b))
  }

  /** `env::var(key).unwrap_or_else(|_| default.to_string())`. */
  function VarOr(env: Env, key: string, default: string): (v: string)
    ensures Var(env, key).Ok? ==> v == Var(env, key).value
    ensures Var(env, key).Err? ==> v == default
  {
    match Var(env, key)
    case Ok(t) => t
    case Err(_) => default
  }

  /** `env::var(key).ok()`. */
  function VarOk(env: Env, key: string): (v: Option<string>)
    ensures v.Some? <==> Unicode(key) in env && env[Unicode(key)].Unicode?
    ensures v.Some? ==> env[Unicode(key)] == Unicode(v.value)
  {
    match Var(env, key)
    case Ok(t) => Some(t)
    case Err(_) => None
  }

  /** `env::var(key).map(|v| v == "true" || v == "1").unwrap_or(false)`. */
  function Flag(env: Env, key: string): (on: bool)
    ensures on <==> Unicode(key) in env && env[Unicode(key)] in {Unicode("true"), Unicode("1")}
  {
    match Var(env, key)
    case Ok(t) => t == "true" || t == "1"
    case Err(_) => false
  }

  /**
   * `env::var(key).unwrap_or_else(|_| defaultText.to_string()).parse().unwrap_or(default)`
   * for the unsigned type whose largest value is `max`.
   */
  function ParsedOr(env: Env, key: string, defaultText: string, max: nat, default: nat): (n: nat)
    requires default <= max
    ensures n <= max
  {
    match ParseUnsigned(VarOr(env, key, defaultText), max)
    case Ok(v) => v
    case Err(_) => default
  }

  /** The number a setting is meant to have: the variable's value when it is set and parses, else the default. */
  function Setting(env: Env, key: string, max: nat, default: nat): nat {
    if Var(env, key).Ok? && ParseUnsigned(Var(env, key).value, max).Ok?
    then ParseUnsigned(Var(env, key).value, max).value
    else default
  }

  /**
   * When the fallback text is the default number written out, the two-step
   * fallback of ParsedOr is the plain rule of Setting.
   */
  lemma ParsedOrIsSetting(env: Env, key: string, max: nat, default: nat)
    requires default <= max
    ensures ParsedOr(env, key, DecimalString(default), max, default) == Setting(env, key, max, default)
  {
    ParseDecimalString(default, max);
  }

  /** `env::vars()` panics once its iteration reaches a name or value that is not valid Unicode. */
  datatype VarsPanic = NotUnicodeEntry

  predicate AllUnicode(env: Env) {
    forall k :: k in env ==> k.Unicode? && env[k].Unicode?
  }
}
