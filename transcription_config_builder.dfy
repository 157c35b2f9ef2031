/// The speech-to-text settings (backend/src/config/TranscriptionConfigBuilder.ts): the
/// provider, its key, model, language and size limit, each from the environment or from a
/// default that depends on the provider and the use case.
module TranscriptionConfigBuilder {
  import opened JsCore
  import opened BackendTypes
  import EnvironmentConfig

  // The provider names (backend/src/interfaces/AudioTranscriptionProvider.ts).
  const WebSpeechApi := "web_speech_api"
  const GeminiAudio := "gemini_audio"
  const HuggingFace := "hugging_face"
  const LocalWhisper := "local_whisper"
  const FreeWebSpeech := "free_web_speech"
  const MockProvider := "mock"

  const DefaultLanguage := "en"
  const DefaultWhisperServiceUrl := "http://localhost:8001"

  /** The settings; a provider name from the environment is taken as it is. */
  datatype TranscriptionConfig = TranscriptionConfig(
    provider: string,
    apiKey: Option<string>,
    model: Option<string>,
    language: string,
    maxFileSize: JsNumber,
    whisperServiceUrl: string)

  /** `getProviderBasedOnUseCase`. */
  function ProviderForUseCase(useCase: Option<string>): (r: string)
    ensures r in {LocalWhisper, HuggingFace, FreeWebSpeech}
    ensures r == LocalWhisper <==> useCase == Some("privacy")
    ensures r == HuggingFace <==> useCase == Some("high-accuracy")
  {
    match useCase
    case Some("privacy") => LocalWhisper
    case Some("high-accuracy") => HuggingFace
    case _ => FreeWebSpeech
  }

  /** `selectDefaultProvider`: an explicit TRANSCRIPTION_PROVIDER always wins. */
  function SelectDefaultProvider(env: map<string, string>): (r: string)
    ensures EnvSet(env, "TRANSCRIPTION_PROVIDER") ==> r == env["TRANSCRIPTION_PROVIDER"]
    ensures !EnvSet(env, "TRANSCRIPTION_PROVIDER") ==>
              r == ProviderForUseCase(EnvironmentConfig.UseCase(env))
  {
    if EnvSet(env, "TRANSCRIPTION_PROVIDER") then env["TRANSCRIPTION_PROVIDER"]
    else ProviderForUseCase(EnvironmentConfig.UseCase(env))
  }

  /** The variable holding the key for a provider. */
  function ApiKeyVariable(provider: string): (r: string)
    ensures provider == HuggingFace ==> r == "HUGGING_FACE_API_KEY"
    ensures provider == GeminiAudio ==> r == "GEMINI_API_KEY"
    ensures provider !in {HuggingFace, GeminiAudio} ==> r == "TRANSCRIPTION_API_KEY"
  {
    if provider == HuggingFace then "HUGGING_FACE_API_KEY"
    else if provider == GeminiAudio then "GEMINI_API_KEY"
    else "TRANSCRIPTION_API_KEY"
  }

  /** `getProviderApiKey`. */
  function GetProviderApiKey(provider: string, env: map<string, string>): (r: Option<string>)
    ensures r.Some? <==> ApiKeyVariable(provider) in env
    ensures r.Some? ==> r.value == env[ApiKeyVariable(provider)]
  {
    EnvGet(env, ApiKeyVariable(provider))
  }

  /** `getDefaultModelForProvider`: Whisper sizes by use case for the two Whisper hosts. */
  function DefaultModelForProvider(provider: string, useCase: Option<string>): (r: Option<string>)
    ensures r.Some? <==> provider in {HuggingFace, LocalWhisper}
    ensures provider == HuggingFace ==>
              r == Some(if useCase == Some("high-accuracy") then "openai/whisper-large-v3" else "openai/whisper-base")
    ensures provider == LocalWhisper ==>
              r == Some(if useCase == Some("high-accuracy") then "large-v3" else "base")
  {
    var isHighAccuracy := useCase == Some("high-accuracy");
    if provider == HuggingFace then
      Some(if isHighAccuracy then "openai/whisper-large-v3" else "openai/whisper-base")
    else if provider == LocalWhisper then Some(if isHighAccuracy then "large-v3" else "base")
    else None
  }

  /** `getProviderModel`: TRANSCRIPTION_MODEL overrides the default. */
  function GetProviderModel(provider: string, env: map<string, string>): (r: Option<string>)
    ensures EnvSet(env, "TRANSCRIPTION_MODEL") ==> r == Some(env["TRANSCRIPTION_MODEL"])
    ensures !EnvSet(env, "TRANSCRIPTION_MODEL") ==>
              r == DefaultModelForProvider(provider, EnvironmentConfig.UseCase(env))
  {
    if EnvSet(env, "TRANSCRIPTION_MODEL") then Some(env["TRANSCRIPTION_MODEL"])
    else DefaultModelForProvider(provider, EnvironmentConfig.UseCase(env))
  }

  /** `getDefaultMaxFileSizeForProvider`. */
  function DefaultMaxFileSize(provider: string): (r: nat)
    ensures provider == HuggingFace ==> r == 100 * MiB
    ensures provider == LocalWhisper ==> r == 500 * MiB
    ensures provider == GeminiAudio ==> r == 50 * MiB
    ensures provider !in {HuggingFace, LocalWhisper, GeminiAudio} ==> r == 25 * MiB
  {
    if provider == HuggingFace then 100 * MiB
    else if provider == LocalWhisper then 500 * MiB
    else if provider == GeminiAudio then 50 * MiB
    else 25 * MiB
  }

  /** `getMaximumFileSize`: MAX_FILE_SIZE read with `parseInt` when set. */
  function GetMaximumFileSize(provider: string, env: map<string, string>): (r: JsNumber)
    ensures EnvSet(env, "MAX_FILE_SIZE") ==> r == ParseInt(env["MAX_FILE_SIZE"])
    ensures !EnvSet(env, "MAX_FILE_SIZE") ==> r == Num(DefaultMaxFileSize(provider))
  {
    if EnvSet(env, "MAX_FILE_SIZE") then ParseInt(env["MAX_FILE_SIZE"])
    else Num(DefaultMaxFileSize(provider))
  }

  /** `buildTranscriptionConfig`. */
  function BuildTranscriptionConfig(env: map<string, string>): (r: TranscriptionConfig)
    ensures r.provider == SelectDefaultProvider(env)
    ensures r.apiKey == GetProviderApiKey(r.provider, env)
    ensures r.model == GetProviderModel(r.provider, env)
    ensures r.language == EnvOr(env, "TRANSCRIPTION_LANGUAGE", DefaultLanguage)
    ensures r.maxFileSize == GetMaximumFileSize(r.provider, env)
    ensures r.whisperServiceUrl == EnvOr(env, "WHISPER_SERVICE_URL", DefaultWhisperServiceUrl)
  {
    var provider := SelectDefaultProvider(env);
    TranscriptionConfig(
      provider,
      GetProviderApiKey(provider, env),
      GetProviderModel(provider, env),
      EnvOr(env, "TRANSCRIPTION_LANGUAGE", DefaultLanguage),
      GetMaximumFileSize(provider, env),
      EnvOr(env, "WHISPER_SERVICE_URL", DefaultWhisperServiceUrl))
  }

  /** With nothing configured: the free browser provider, no model, English, 25 MiB. */
  lemma EmptyEnvironmentDefaults()
    ensures BuildTranscriptionConfig(map[]) ==
              TranscriptionConfig(FreeWebSpeech, None, None, "en", Num(25 * MiB), DefaultWhisperServiceUrl)
  {
  }

  /** Without an explicit provider, the chosen one needs no key in the validator's sense:
      it is never Hugging Face unless the use case asks for accuracy, and never Gemini. */
  lemma DefaultProviderIsNeverGemini(env: map<string, string>)
    requires !EnvSet(env, "TRANSCRIPTION_PROVIDER")
    ensures BuildTranscriptionConfig(env).provider != GeminiAudio
    ensures BuildTranscriptionConfig(env).provider == HuggingFace <==>
              EnvironmentConfig.UseCase(env) == Some("high-accuracy")
  {
  }
}
