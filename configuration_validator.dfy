/// The start-up configuration check (backend/src/config/ConfigurationValidator.ts): helpers
/// push into an error list and a warning list, and only errors make the configuration
/// invalid. The process environment, which the environment loader and the feature flags
/// read, is a parameter.
module ConfigurationValidator {
  import opened JsCore
  import EnvironmentConfig
  import FeatureFlagManager
  import ApplicationConfigBuilder
  import TranscriptionConfigBuilder
  import AIConfigBuilder

  const MinAITokens: int := 100
  const MaxAITokens: int := 32768

  const KeyRequired := "Gemini API key is required"
  const DirectoryRequired := "Base directory must be specified"
  const KeyRequiredFor := "API key required for transcription provider: "
  const TokensOutOfRange := "AI max tokens should be between 100 and 32768"
  const DetailedLoggingInProduction :=
    "Detailed logging is enabled in production - consider disabling for performance"
  const RateLimitingOffInProduction :=
    "Rate limiting is disabled in production - consider enabling for security"

  datatype ValidationResult = ValidationResult(isValid: bool, errors: seq<string>, warnings: seq<string>)

  /** A list the helpers push messages into. */
  class MessageList {
    var items: seq<string>

    constructor()
      ensures items == []
    {
      items := [];
    }

    method Push(message: string)
      modifies this
      ensures items == old(items) + [message]
    {
      items := items + [message];
    }

    /** `if (condition) list.push(message)`. */
    method PushIf(condition: bool, message: string)
      modifies this
      ensures items == old(items) + (if condition then [message] else [])
    {
      if condition {
        Push(message);
      }
    }
  }

  // ---------------------------------------------------------------------------
  // What each helper pushes

  /** `validateApplicationConfig`: an empty key, then an empty directory. */
  function ApplicationErrors(appConfig: ApplicationConfigBuilder.AppConfig): (r: seq<string>)
    ensures KeyRequired in r <==> appConfig.geminiApiKey == ""
    ensures DirectoryRequired in r <==> appConfig.baseDirectory == ""
    ensures forall k :: 0 <= k < |r| ==> r[k] in {KeyRequired, DirectoryRequired}
    ensures r == [] <==> appConfig.geminiApiKey != "" && appConfig.baseDirectory != ""
  {
    (if appConfig.geminiApiKey == "" then [KeyRequired] else [])
    + (if appConfig.baseDirectory == "" then [DirectoryRequired] else [])
  }

  /** `requiresApiKeyButMissingIt`: only Hugging Face and Gemini need a key. */
  predicate RequiresApiKeyButMissingIt(config: TranscriptionConfigBuilder.TranscriptionConfig) {
    config.provider in [TranscriptionConfigBuilder.HuggingFace, TranscriptionConfigBuilder.GeminiAudio]
    && (config.apiKey.None? || config.apiKey.value == "")
  }

  /** `validateTranscriptionConfig`. */
  function TranscriptionErrors(config: TranscriptionConfigBuilder.TranscriptionConfig): (r: seq<string>)
    ensures r != [] <==>
              config.provider in {TranscriptionConfigBuilder.HuggingFace, TranscriptionConfigBuilder.GeminiAudio}
              && !(config.apiKey.Some? && config.apiKey.value != "")
    ensures r != [] ==> r == [KeyRequiredFor + config.provider]
  {
    if RequiresApiKeyButMissingIt(config) then [KeyRequiredFor + config.provider] else []
  }

  predicate IsInvalidTokenCount(tokens: int) {
    tokens < MinAITokens || tokens > MaxAITokens
  }

  /** `validateAIConfig`, without the temperature check: a truthy token limit outside
      100..32768 warns; 0, NaN and an absent limit are skipped. */
  function AIWarnings(aiConfig: AIConfigBuilder.AIServiceConfig): (r: seq<string>)
    ensures r != [] <==>
              exists n :: aiConfig.maxTokens == Some(Num(n)) && n != 0 && !(MinAITokens <= n <= MaxAITokens)
    ensures r != [] ==> r == [TokensOutOfRange]
  {
    match aiConfig.maxTokens
    case Some(Num(n)) =>
      if n != 0 && IsInvalidTokenCount(n) then [TokensOutOfRange] else []
    case _ => []
  }

  /** `validateEnvironmentSpecificSettings`: in production, detailed logging on warns and
      rate limiting off warns. */
  function EnvironmentWarnings(env: map<string, string>): (r: seq<string>)
    ensures !EnvironmentConfig.IsProductionEnvironment(env) ==> r == []
    ensures DetailedLoggingInProduction in r <==>
              EnvironmentConfig.IsProductionEnvironment(env)
              && FeatureFlagManager.IsEnabled(env, FeatureFlagManager.EnableDetailedLogging)
    ensures RateLimitingOffInProduction in r <==>
              EnvironmentConfig.IsProductionEnvironment(env)
              && !FeatureFlagManager.IsEnabled(env, FeatureFlagManager.EnableRateLimiting)
  {
    if !EnvironmentConfig.IsProductionEnvironment(env) then []
    else
      (if FeatureFlagManager.IsEnabled(env, FeatureFlagManager.EnableDetailedLogging)
       then [DetailedLoggingInProduction] else [])
      + (if !FeatureFlagManager.IsEnabled(env, FeatureFlagManager.EnableRateLimiting)
         then [RateLimitingOffInProduction] else [])
  }

  // ---------------------------------------------------------------------------
  // The helpers, pushing into the lists they are given

  method ValidateApplicationConfig(appConfig: ApplicationConfigBuilder.AppConfig, errors: MessageList)
    modifies errors
    ensures errors.items == old(errors.items) + ApplicationErrors(appConfig)
  {
    if appConfig.geminiApiKey == "" {
      errors.Push(KeyRequired);
    }
    if appConfig.baseDirectory == "" {
      errors.Push(DirectoryRequired);
    }
  }

  method ValidateTranscriptionConfig(config: TranscriptionConfigBuilder.TranscriptionConfig,
                                     errors: MessageList)
    modifies errors
    ensures errors.items == old(errors.items) + TranscriptionErrors(config)
  {
    if RequiresApiKeyButMissingIt(config) {
      errors.Push(KeyRequiredFor + config.provider);
    }
  }

  method ValidateAIConfig(aiConfig: AIConfigBuilder.AIServiceConfig, warnings: MessageList)
    modifies warnings
    ensures warnings.items == old(warnings.items) + AIWarnings(aiConfig)
  {
    if aiConfig.maxTokens.Some? && aiConfig.maxTokens.value.Num? && aiConfig.maxTokens.value.n != 0
       && IsInvalidTokenCount(aiConfig.maxTokens.value.n) {
      warnings.Push(TokensOutOfRange);
    }
  }

  method ValidateEnvironmentSpecificSettings(env: map<string, string>, warnings: MessageList)
    modifies warnings
    ensures warnings.items == old(warnings.items) + EnvironmentWarnings(env)
  {
    if EnvironmentConfig.IsProductionEnvironment(env) {
      var detailedLogging := FeatureFlagManager.IsEnabled(env, FeatureFlagManager.EnableDetailedLogging);
      var rateLimiting := FeatureFlagManager.IsEnabled(env, FeatureFlagManager.EnableRateLimiting);
      warnings.PushIf(detailedLogging, DetailedLoggingInProduction);
      warnings.PushIf(!rateLimiting, RateLimitingOffInProduction);
    }
  }

  /** `validateCompleteConfiguration`: errors from the application and transcription
      settings, warnings from the model and environment settings; valid exactly when
      there is no error. */
  method ValidateCompleteConfiguration(
    appConfig: ApplicationConfigBuilder.AppConfig,
    transcriptionConfig: TranscriptionConfigBuilder.TranscriptionConfig,
    aiConfig: AIConfigBuilder.AIServiceConfig,
    env: map<string, string>)
    returns (r: ValidationResult)
    ensures r.errors == ApplicationErrors(appConfig) + TranscriptionErrors(transcriptionConfig)
    ensures r.warnings == AIWarnings(aiConfig) + EnvironmentWarnings(env)
    ensures r.isValid <==> r.errors == []
  {
    var errors := new MessageList();
    var warnings := new MessageList();
    ValidateApplicationConfig(appConfig, errors);
    ValidateTranscriptionConfig(transcriptionConfig, errors);
    ValidateAIConfig(aiConfig, warnings);
    ValidateEnvironmentSpecificSettings(env, warnings);
    r := ValidationResult(|errors.items| == 0, errors.items, warnings.items);
  }

  // ---------------------------------------------------------------------------
  // How the validator meets the builders

  /** A configuration the application builder accepts never has an application error. */
  lemma BuiltApplicationConfigHasNoErrors(env: map<string, string>)
    requires ApplicationConfigBuilder.BuildApplicationConfig(env).Ok?
    ensures ApplicationErrors(ApplicationConfigBuilder.BuildApplicationConfig(env).value) == []
  {
  }

  /** In production rate limiting is always on, so its warning never appears; the only
      possible environment warning is about detailed logging, and it appears exactly when
      ENABLE_DETAILED_LOGGING is "true". */
  lemma ProductionWarnings(env: map<string, string>)
    requires EnvironmentConfig.IsProductionEnvironment(env)
    ensures RateLimitingOffInProduction !in EnvironmentWarnings(env)
    ensures EnvironmentWarnings(env) ==
              if EnvGet(env, "ENABLE_DETAILED_LOGGING") == Some("true") then [DetailedLoggingInProduction]
              else []
  {
  }

  /** The default token limit, 8192, lies in range and never warns. */
  lemma DefaultMaxTokensNeverWarns(geminiApiKey: string, env: map<string, string>)
    requires !EnvSet(env, "GEMINI_MAX_TOKENS")
    ensures AIWarnings(AIConfigBuilder.BuildAIConfig(geminiApiKey, env)) == []
  {
  }

  /** A provider chosen by default needs a key only for the high-accuracy use case, where
      a missing Hugging Face key is an error. */
  lemma DefaultProviderKeyErrors(env: map<string, string>)
    requires !EnvSet(env, "TRANSCRIPTION_PROVIDER")
    ensures var config := TranscriptionConfigBuilder.BuildTranscriptionConfig(env);
            TranscriptionErrors(config) != [] <==>
              EnvironmentConfig.UseCase(env) == Some("high-accuracy")
              && !EnvSet(env, "HUGGING_FACE_API_KEY")
  {
    TranscriptionConfigBuilder.DefaultProviderIsNeverGemini(env);
  }
}
