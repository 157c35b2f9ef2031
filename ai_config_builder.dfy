/// The language-model settings (backend/src/config/AIConfigBuilder.ts): the key passed
/// through, a model chosen by use case and environment, and the token limit.
module AIConfigBuilder {
  import opened JsCore
  import EnvironmentConfig

  const Pro := "gemini-1.5-pro"
  const Flash := "gemini-1.5-flash"
  const Experimental := "gemini-2.0-flash-exp"
  const DefaultMaxTokens: nat := 8192

  /** The settings handed to the model client; `maxTokens` is optional in the type. */
  datatype AIServiceConfig = AIServiceConfig(apiKey: string, model: string, maxTokens: Option<JsNumber>)

  /** `selectModel`: a use case overrides the environment. */
  function SelectModel(nodeEnvironment: string, useCase: Option<string>): (r: string)
    ensures useCase == Some("high-accuracy") ==> r == Pro
    ensures useCase == Some("high-volume") ==> r == Flash
    ensures useCase !in {Some("high-accuracy"), Some("high-volume")} ==>
              (r == Pro <==> nodeEnvironment in {"production", "staging"})
    ensures r in {Pro, Flash, Experimental}
  {
    if useCase == Some("high-accuracy") then Pro
    else if useCase == Some("high-volume") then Flash
    else if nodeEnvironment == "production" || nodeEnvironment == "staging" then Pro
    else Experimental
  }

  /** `getMaxTokens`: GEMINI_MAX_TOKENS read with `parseInt` when set, else 8192. */
  function GetMaxTokens(env: map<string, string>): (r: JsNumber)
    ensures !EnvSet(env, "GEMINI_MAX_TOKENS") ==> r == Num(DefaultMaxTokens)
    ensures EnvSet(env, "GEMINI_MAX_TOKENS") ==> r == ParseInt(env["GEMINI_MAX_TOKENS"])
  {
    if EnvSet(env, "GEMINI_MAX_TOKENS") then ParseInt(env["GEMINI_MAX_TOKENS"])
    else Num(DefaultMaxTokens)
  }

  /** `buildAIConfig`. */
  function BuildAIConfig(geminiApiKey: string, env: map<string, string>): (r: AIServiceConfig)
    ensures r.apiKey == geminiApiKey
    ensures r.model == SelectModel(EnvironmentConfig.NodeEnvironment(env), EnvironmentConfig.UseCase(env))
    ensures r.maxTokens == Some(GetMaxTokens(env))
  {
    AIServiceConfig(
      geminiApiKey,
      SelectModel(EnvironmentConfig.NodeEnvironment(env), EnvironmentConfig.UseCase(env)),
      Some(GetMaxTokens(env)))
  }

  /** With neither NODE_ENV nor USE_CASE set the environment counts as development and
      the experimental model is chosen. */
  lemma DefaultModelIsExperimental(env: map<string, string>)
    requires !EnvSet(env, "NODE_ENV") && "USE_CASE" !in env
    ensures BuildAIConfig("", env).model == Experimental
  {
  }

  /** A token limit written as a number is read back as that number. */
  lemma MaxTokensRoundTrip(env: map<string, string>, n: nat)
    requires "GEMINI_MAX_TOKENS" in env && env["GEMINI_MAX_TOKENS"] == NatToString(n)
    ensures GetMaxTokens(env) == Num(n)
  {
    ParseIntOfNatToString(n);
  }
}
