/// The environment reading shared by the configuration builders
/// (backend/src/config/EnvironmentConfigLoader.ts). Environment variables are a map
/// passed in by the caller.
module EnvironmentConfig {
  import opened JsCore

  /** `NODE_ENV || 'development'`. */
  function NodeEnvironment(env: map<string, string>): (r: string)
    ensures r != ""
    ensures EnvSet(env, "NODE_ENV") ==> r == env["NODE_ENV"]
    ensures !EnvSet(env, "NODE_ENV") ==> r == "development"
  {
    EnvOr(env, "NODE_ENV", "development")
  }

  /** `USE_CASE`, undefined when unset. */
  function UseCase(env: map<string, string>): Option<string> {
    EnvGet(env, "USE_CASE")
  }

  predicate IsProductionEnvironment(env: map<string, string>) {
    NodeEnvironment(env) == "production"
  }

  predicate IsDevelopmentEnvironment(env: map<string, string>) {
    NodeEnvironment(env) == "development"
  }
}
