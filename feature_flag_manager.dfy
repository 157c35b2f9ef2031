/// Feature flags (backend/src/config/FeatureFlagManager.ts): each flag is read from its
/// own environment variable, two of them also from the environment's name; enabling or
/// disabling a flag writes its variable. The process environment is the manager's `env`.
module FeatureFlagManager {
  import opened JsCore
  import EnvironmentConfig

  /** The keys of `FeatureFlags`. */
  datatype Feature =
    | EnableCommentary
    | EnableHealthChecks
    | EnableDetailedLogging
    | EnableRateLimiting
    | EnableMetrics

  /** The flag values, as `loadFeatureFlags` returns them. */
  datatype FeatureFlags = FeatureFlags(
    enableCommentary: bool,
    enableHealthChecks: bool,
    enableDetailedLogging: bool,
    enableRateLimiting: bool,
    enableMetrics: bool)
  {
    /** `flags[featureName]`. */
    function Get(f: Feature): bool {
      match f
      case EnableCommentary => enableCommentary
      case EnableHealthChecks => enableHealthChecks
      case EnableDetailedLogging => enableDetailedLogging
      case EnableRateLimiting => enableRateLimiting
      case EnableMetrics => enableMetrics
    }
  }

  /** `getEnvironmentVariableNameForFeature`: one variable per flag, none of them
      the environment's name. */
  function VariableName(f: Feature): (r: string)
    ensures r != "NODE_ENV"
  {
    match f
    case EnableCommentary => "ENABLE_COMMENTARY"
    case EnableHealthChecks => "ENABLE_HEALTH_CHECKS"
    case EnableDetailedLogging => "ENABLE_DETAILED_LOGGING"
    case EnableRateLimiting => "ENABLE_RATE_LIMITING"
    case EnableMetrics => "ENABLE_METRICS"
  }

  /** Distinct flags have distinct variables. */
  lemma VariableNamesDistinct(f: Feature, g: Feature)
    requires f != g
    ensures VariableName(f) != VariableName(g)
  {
  }

  /** `loadFeatureFlags` on a given environment. */
  function LoadFeatureFlags(env: map<string, string>): (r: FeatureFlags)
    ensures r.enableCommentary <==> EnvGet(env, "ENABLE_COMMENTARY") != Some("false")
    ensures r.enableHealthChecks <==> EnvGet(env, "ENABLE_HEALTH_CHECKS") != Some("false")
    ensures r.enableDetailedLogging <==>
              EnvGet(env, "ENABLE_DETAILED_LOGGING") == Some("true")
              || EnvironmentConfig.IsDevelopmentEnvironment(env)
    ensures r.enableRateLimiting <==>
              EnvGet(env, "ENABLE_RATE_LIMITING") == Some("true")
              || EnvironmentConfig.IsProductionEnvironment(env)
    ensures r.enableMetrics <==> EnvGet(env, "ENABLE_METRICS") == Some("true")
  {
    var nodeEnvironment := EnvironmentConfig.NodeEnvironment(env);
    FeatureFlags(
      EnvGet(env, "ENABLE_COMMENTARY") != Some("false"),
      EnvGet(env, "ENABLE_HEALTH_CHECKS") != Some("false"),
      EnvGet(env, "ENABLE_DETAILED_LOGGING") == Some("true") || nodeEnvironment == "development",
      EnvGet(env, "ENABLE_RATE_LIMITING") == Some("true") || nodeEnvironment == "production",
      EnvGet(env, "ENABLE_METRICS") == Some("true"))
  }

  /** `isFeatureEnabled`. */
  predicate IsEnabled(env: map<string, string>, f: Feature) {
    LoadFeatureFlags(env).Get(f)
  }

  /** Writing "true" to a flag's variable turns the flag on, whatever the environment. */
  lemma EnableTurnsOn(env: map<string, string>, f: Feature)
    ensures IsEnabled(env[VariableName(f) := "true"], f)
  {
    var e := env[VariableName(f) := "true"];
    assert EnvGet(e, VariableName(f)) == Some("true");
  }

  /** Writing "false" turns the flag off, except detailed logging in development and rate
      limiting in production, which the environment's name keeps on. */
  lemma DisableTurnsOff(env: map<string, string>, f: Feature)
    ensures var e := env[VariableName(f) := "false"];
            IsEnabled(e, f) <==>
              (f == EnableDetailedLogging && EnvironmentConfig.IsDevelopmentEnvironment(env))
              || (f == EnableRateLimiting && EnvironmentConfig.IsProductionEnvironment(env))
  {
    var e := env[VariableName(f) := "false"];
    assert EnvGet(e, VariableName(f)) == Some("false");
    assert EnvironmentConfig.NodeEnvironment(e) == EnvironmentConfig.NodeEnvironment(env);
  }

  /** Writing one flag's variable leaves every other flag as it was. */
  lemma OtherFlagsUnchanged(env: map<string, string>, f: Feature, g: Feature, value: string)
    requires g != f
    ensures IsEnabled(env[VariableName(f) := value], g) == IsEnabled(env, g)
  {
    var e := env[VariableName(f) := value];
    VariableNamesDistinct(f, g);
    assert EnvGet(e, VariableName(g)) == EnvGet(env, VariableName(g));
    assert EnvironmentConfig.NodeEnvironment(e) == EnvironmentConfig.NodeEnvironment(env);
  }

  /** The manager; `env` is the process environment it reads and writes. */
  class FeatureFlagManager {
    var env: map<string, string>

    constructor(env: map<string, string>)
      ensures this.env == env
    {
      this.env := env;
    }

    /** `loadFeatureFlags`, on the current environment. */
    function Flags(): FeatureFlags
      reads this
    {
      LoadFeatureFlags(env)
    }

    predicate IsFeatureEnabled(f: Feature)
      reads this
    {
      IsEnabled(env, f)
    }

    /** `enableFeature`: the flag reads true afterwards and no other flag changes. */
    method EnableFeature(f: Feature)
      modifies this
      ensures env == old(env)[VariableName(f) := "true"]
      ensures IsFeatureEnabled(f)
      ensures forall g :: g != f ==> IsFeatureEnabled(g) == old(IsFeatureEnabled(g))
    {
      env := env[VariableName(f) := "true"];
      EnableTurnsOn(old(env), f);
      forall g | g != f
        ensures IsEnabled(env, g) == IsEnabled(old(env), g)
      {
        OtherFlagsUnchanged(old(env), f, g, "true");
      }
    }

    /** `disableFeature`: the flag reads false afterwards unless the environment's name
        keeps it on, and no other flag changes. */
    method DisableFeature(f: Feature)
      modifies this
      ensures env == old(env)[VariableName(f) := "false"]
      ensures IsFeatureEnabled(f) <==>
                (f == EnableDetailedLogging && EnvironmentConfig.IsDevelopmentEnvironment(old(env)))
                || (f == EnableRateLimiting && EnvironmentConfig.IsProductionEnvironment(old(env)))
      ensures forall g :: g != f ==> IsFeatureEnabled(g) == old(IsFeatureEnabled(g))
    {
      env := env[VariableName(f) := "false"];
      DisableTurnsOff(old(env), f);
      forall g | g != f
        ensures IsEnabled(env, g) == IsEnabled(old(env), g)
      {
        OtherFlagsUnchanged(old(env), f, g, "false");
      }
    }
  }
}
